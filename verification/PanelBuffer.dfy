/** The in-place patch loops over the frame buffer. */
module PanelBuffer {
  import opened Panel
  import opened FrameCache
  import Frames

  /** Accumulates set bits over a block's bytes, as compute_parity_bit does. */
  method ComputeParityBit(b: array<bv8>, off: nat, len: nat) returns (odd: bool)
    requires len >= 2 && off + len <= b.Length
    ensures odd == Odd(b[off], b[off + 1..off + len])
  {
    hide Ones;
    var ones := Ones(Version(b[off]));
    var i := off + 1;
    assert b[off + 1..i] == [];
    while i < off + len
      invariant off + 1 <= i <= off + len && ones == Ones(Version(b[off])) + AllOnes(b[off + 1..i])
    {
      assert b[off + 1..i + 1][..i - off - 1] == b[off + 1..i];
      ones := ones + Ones(b[i]);
      i := i + 1;
    }
    odd := ones % 2 == 1;
  }

  method StampHeaderParity(b: array<bv8>, off: nat, len: nat)
    requires len >= 3 && off + len <= b.Length
    modifies b
    ensures b[off..off + len] == Stamp(old(b[off..off + len]))
    ensures b[..off] == old(b[..off]) && b[off + len..] == old(b[off + len..])
  {
    hide Odd, Header;
    var odd := ComputeParityBit(b, off, len);
    assert b[off..off + len][1..] == b[off + 1..off + len];
    b[off] := Header(b[off], odd);
  }

  lemma Views(s: seq<bv8>, off: nat, blk: nat)
    requires off + blk <= |s|
    ensures s[off..] == s[off..off + blk] + s[off + blk..]
    ensures s[off..][..blk] == s[off..off + blk] && s[off..][blk..] == s[off + blk..]
  {
  }

  lemma BlockWritten(s: seq<bv8>, t: seq<bv8>, off: nat, blk: nat, w: seq<bv8>)
    requires 4 <= off && off + blk <= |s| == |t| && |w| == blk
    requires t[..off] == s[..off] && t[off..] == w + s[off..][blk..]
    ensures t[4..off + blk] == s[4..off] + w && t[off + blk..] == s[off..][blk..] && t[..4] == s[..4]
  {
    Views(t, off, blk);
    assert t[..4] == t[..off][..4] == s[..off][..4];
    assert t[4..off] == t[..off][4..] == s[..off][4..] == s[4..off];
    assert t[off..off + blk] == t[off..][..blk] == w;
    assert t[4..off + blk] == t[4..off] + t[off..off + blk];
  }

  lemma Assoc(a: seq<bv8>, b: seq<bv8>, c: seq<bv8>)
    ensures a + b + c == a + (b + c)
  {
  }

  /** One block of the mode loop. */
  method PatchModeAt(b: array<bv8>, off: nat, blk: nat, mode: bv8)
    requires blk >= 3 && off + blk <= b.Length
    modifies b
    ensures b[..off] == old(b[..off])
    ensures b[off..] == WithMode(old(b[off..])[..blk], mode) + old(b[off..])[blk..]
  {
    hide Stamp, Opcode;
    Views(b[..], off, blk);
    ghost var block := b[off..off + blk];
    b[off + 1] := Opcode(b[off + 1], mode);
    assert b[off..off + blk] == block[1 := Opcode(block[1], mode)];
    StampHeaderParity(b, off, blk);
    Views(b[..], off, blk);
  }

  method PatchDutyAt(b: array<bv8>, off: nat, blk: nat, duty: bv8)
    requires blk >= 3 && off + blk <= b.Length && duty != 0
    modifies b
    ensures b[..off] == old(b[..off])
    ensures b[off..] == WithDuty(old(b[off..])[..blk], duty) + old(b[off..])[blk..]
  {
    hide Stamp;
    Views(b[..], off, blk);
    ghost var block := b[off..off + blk];
    b[off + blk - 1] := duty;
    assert b[off..off + blk] == block[blk - 1 := duty];
    StampHeaderParity(b, off, blk);
    Views(b[..], off, blk);
  }

  /** How far the loop of PatchDispMode is: blocks before `off` done, `left` to go. */
  predicate ModesDone(was: seq<bv8>, now: seq<bv8>, off: nat, blk: nat, left: nat, n: nat, mode: bv8)
    requires blk >= 3 && 4 + Span(n, blk) <= |was|
  {
    && |now| == |was| && 4 <= off && off + Span(left, blk) <= |now| && now[..4] == was[..4]
    && now[4..off] + Modes(now[off..], blk, left, mode) == Modes(was[4..], blk, n, mode)
  }

  lemma ModesStep(was: seq<bv8>, s: seq<bv8>, t: seq<bv8>, off: nat, blk: nat, left: nat, n: nat, mode: bv8)
    requires blk >= 3 && left > 0 && 4 + Span(n, blk) <= |was| && ModesDone(was, s, off, blk, left, n, mode)
    requires off + blk <= |s| == |t| && t[..off] == s[..off]
    requires t[off..] == WithMode(s[off..][..blk], mode) + s[off..][blk..]
    ensures ModesDone(was, t, off + blk, blk, left - 1, n, mode)
  {
    hide WithMode, Modes;
    ModesUnroll(s[off..], blk, left, mode);
    BlockWritten(s, t, off, blk, WithMode(s[off..][..blk], mode));
    Assoc(s[4..off], WithMode(s[off..][..blk], mode), Modes(t[off + blk..], blk, left - 1, mode));
  }

  lemma ModesUnroll(r: seq<bv8>, blk: nat, n: nat, mode: bv8)
    requires blk >= 3 && n > 0 && Span(n, blk) <= |r|
    ensures Modes(r, blk, n, mode) == WithMode(r[..blk], mode) + Modes(r[blk..], blk, n - 1, mode)
    ensures blk + Span(n - 1, blk) == Span(n, blk)
  {
  }

  lemma ModesStart(was: seq<bv8>, blk: nat, n: nat, mode: bv8)
    requires blk >= 3 && 4 + Span(n, blk) <= |was|
    ensures ModesDone(was, was, 4, blk, n, n, mode)
  {
    hide Modes;
  }

  lemma ModesEnd(was: seq<bv8>, now: seq<bv8>, off: nat, blk: nat, n: nat, mode: bv8)
    requires blk >= 3 && 4 + Span(n, blk) <= |was| && ModesDone(was, now, off, blk, 0, n, mode)
    ensures now[..4] == was[..4] && now[4..] == Modes(was[4..], blk, n, mode)
  {
    assert now[4..] == now[4..off] + now[off..];
  }

  lemma ModesRoom(was: seq<bv8>, now: seq<bv8>, off: nat, blk: nat, left: nat, n: nat, mode: bv8)
    requires blk >= 3 && left > 0 && 4 + Span(n, blk) <= |was| && ModesDone(was, now, off, blk, left, n, mode)
    ensures off + blk <= |now|
  {
    hide Modes;
  }

  /** patchDispMode: every block in the buffer takes the panel display mode. */
  method PatchDispMode(b: array<bv8>, blk: nat, n: nat, mode: bv8)
    requires blk >= 3 && 4 + Span(n, blk) <= b.Length
    modifies b
    ensures b[..4] == old(b[..4]) && b[4..] == Modes(old(b[4..]), blk, n, mode)
  {
    hide Modes, ModesDone, WithMode;
    ghost var was := b[..];
    var off, p := 4, 0;
    ModesStart(was, blk, n, mode);
    while p < n
      invariant 0 <= p <= n && ModesDone(was, b[..], off, blk, n - p, n, mode)
    {
      ghost var s := b[..];
      ModesRoom(was, s, off, blk, n - p, n, mode);
      PatchModeAt(b, off, blk, mode);
      ModesStep(was, s, b[..], off, blk, n - p, n, mode);
      off := off + blk;
      p := p + 1;
    }
    ModesEnd(was, b[..], off, blk, n, mode);
  }

  /** How far the loop of PatchTrialDuty is: blocks before `off` done, `left` to go. */
  predicate DutiesDone(was: seq<bv8>, now: seq<bv8>, off: nat, blk: nat, left: nat, n: nat, duty: bv8)
    requires blk >= 3 && 4 + Span(n, blk) <= |was|
  {
    && |now| == |was| && 4 <= off && off + Span(left, blk) <= |now| && now[..4] == was[..4]
    && now[4..off] + Duties(now[off..], blk, left, duty) == Duties(was[4..], blk, n, duty)
  }

  lemma DutiesStep(was: seq<bv8>, s: seq<bv8>, t: seq<bv8>, off: nat, blk: nat, left: nat, n: nat, duty: bv8)
    requires blk >= 3 && left > 0 && 4 + Span(n, blk) <= |was| && DutiesDone(was, s, off, blk, left, n, duty)
    requires off + blk <= |s| == |t| && t[..off] == s[..off]
    requires t[off..] == WithDuty(s[off..][..blk], duty) + s[off..][blk..]
    ensures DutiesDone(was, t, off + blk, blk, left - 1, n, duty)
  {
    hide WithDuty, Duties;
    DutiesUnroll(s[off..], blk, left, duty);
    BlockWritten(s, t, off, blk, WithDuty(s[off..][..blk], duty));
    Assoc(s[4..off], WithDuty(s[off..][..blk], duty), Duties(t[off + blk..], blk, left - 1, duty));
  }

  lemma DutiesUnroll(r: seq<bv8>, blk: nat, n: nat, duty: bv8)
    requires blk >= 3 && n > 0 && Span(n, blk) <= |r|
    ensures Duties(r, blk, n, duty) == WithDuty(r[..blk], duty) + Duties(r[blk..], blk, n - 1, duty)
    ensures blk + Span(n - 1, blk) == Span(n, blk)
  {
  }

  lemma DutiesStart(was: seq<bv8>, blk: nat, n: nat, duty: bv8)
    requires blk >= 3 && 4 + Span(n, blk) <= |was|
    ensures DutiesDone(was, was, 4, blk, n, n, duty)
  {
    hide Duties;
  }

  lemma DutiesEnd(was: seq<bv8>, now: seq<bv8>, off: nat, blk: nat, n: nat, duty: bv8)
    requires blk >= 3 && 4 + Span(n, blk) <= |was| && DutiesDone(was, now, off, blk, 0, n, duty)
    ensures now[..4] == was[..4] && now[4..] == Duties(was[4..], blk, n, duty)
  {
    assert now[4..] == now[4..off] + now[off..];
  }

  lemma DutiesRoom(was: seq<bv8>, now: seq<bv8>, off: nat, blk: nat, left: nat, n: nat, duty: bv8)
    requires blk >= 3 && left > 0 && 4 + Span(n, blk) <= |was| && DutiesDone(was, now, off, blk, left, n, duty)
    ensures off + blk <= |now|
  {
    hide Duties;
  }

  /** patchTrialDuty: a declared duty overrides every v1 block's last byte. */
  method PatchTrialDuty(b: array<bv8>, blk: nat, n: nat, duty: bv8)
    requires blk >= 3 && 4 + Span(n, blk) <= b.Length
    modifies b
    ensures b[..4] == old(b[..4]) && b[4..] == Duties(old(b[4..]), blk, n, Frames.EffDuty(blk, duty))
  {
    if duty == 0 || (blk != GS2 && blk != GS16) {
      NoDuty(b[4..], blk, n);
      return;
    }
    hide Duties, DutiesDone, WithDuty;
    ghost var was := b[..];
    var off, p := 4, 0;
    DutiesStart(was, blk, n, duty);
    while p < n
      invariant 0 <= p <= n && DutiesDone(was, b[..], off, blk, n - p, n, duty)
    {
      ghost var s := b[..];
      DutiesRoom(was, s, off, blk, n - p, n, duty);
      PatchDutyAt(b, off, blk, duty);
      DutiesStep(was, s, b[..], off, blk, n - p, n, duty);
      off := off + blk;
      p := p + 1;
    }
    DutiesEnd(was, b[..], off, blk, n, duty);
  }

  lemma {:induction false} NoDuty(r: seq<bv8>, blk: nat, n: nat)
    requires blk >= 3 && Span(n, blk) <= |r|
    ensures Duties(r, blk, n, 0) == r
    decreases n
  {
    if n > 0 {
      NoDuty(r[blk..], blk, n - 1);
      assert r == r[..blk] + r[blk..];
    }
  }

  /** What loadFrame does to the buffer once the body is read: both loops, in order. */
  method PatchLoaded(b: array<bv8>, blk: nat, n: nat, mode: bv8, duty: bv8)
    requires blk >= 3 && 4 + Span(n, blk) <= b.Length
    modifies b
    ensures b[..4] == old(b[..4])
    ensures b[4..] == PatchAll(old(b[4..]), blk, n, mode, Frames.EffDuty(blk, duty))
  {
    hide Modes, Duties, PatchAll;
    ModesThenDuties(b[4..], blk, n, mode, Frames.EffDuty(blk, duty));
    PatchDispMode(b, blk, n, mode);
    PatchTrialDuty(b, blk, n, duty);
  }
}
