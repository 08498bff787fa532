/** Panel blocks: the parity header, the display-mode and duty patches, and the laws the frame cache rests on. */
module Panel {

  const GS2: nat := 53
  const GS16: nat := 203

  /** Header byte, opcode and at least one more. */
  type Block = b: seq<bv8> | |b| >= 3 witness [0, 0, 0]

  // ----- parity -----------------------------------------------------------

  function Ones(b: bv8): nat {
    (if b & 0x01 != 0 then 1 else 0) + (if b & 0x02 != 0 then 1 else 0)
    + (if b & 0x04 != 0 then 1 else 0) + (if b & 0x08 != 0 then 1 else 0)
    + (if b & 0x10 != 0 then 1 else 0) + (if b & 0x20 != 0 then 1 else 0)
    + (if b & 0x40 != 0 then 1 else 0) + (if b & 0x80 != 0 then 1 else 0)
  }

  function AllOnes(s: seq<bv8>): nat {
    if s == [] then 0 else AllOnes(s[..|s| - 1]) + Ones(s[|s| - 1])
  }

  /** Header fields: the version bits, and the parity bit on top. */
  function Version(v: bv8): bv8 { v & 0x7F }

  predicate Top(v: bv8) { v & 0x80 != 0 }

  /** The opcode family, without the two mode bits. */
  function Family(op: bv8): bv8 { op & 0xFC }

  /** compute_parity_bit: the version byte without its top bit, the opcode, the payload. */
  function Odd(version: bv8, rest: seq<bv8>): bool {
    (Ones(Version(version)) + AllOnes(rest)) % 2 == 1
  }

  function Header(version: bv8, odd: bool): bv8 {
    Version(version) | (if odd then 0x80 else 0)
  }

  function Stamp(b: Block): (r: Block)
    ensures |r| == |b| && r[1..] == b[1..] && r[0] == Header(b[0], Odd(b[0], b[1..]))
  {
    b[0 := Header(b[0], Odd(b[0], b[1..]))]
  }

  predicate ValidateParity(msg: seq<bv8>) {
    |msg| >= 2 && Top(msg[0]) == Odd(msg[0], msg[1..])
  }

  lemma HeaderBits(v: bv8, odd: bool)
    ensures Version(Header(v, odd)) == Version(v) && Top(Header(v, odd)) == odd
  {
  }

  lemma TopBitCounts(v: bv8)
    ensures Ones(v) == Ones(Version(v)) + (if Top(v) then 1 else 0)
  {
  }

  /** Every stamped block validates. */
  lemma StampValidates(b: Block)
    ensures ValidateParity(Stamp(b))
  {
    hide Ones, AllOnes, Header, Version, Top;
    HeaderBits(b[0], Odd(b[0], b[1..]));
    HeaderSame(Stamp(b)[0], b[0], b[1..]);
  }

  lemma {:induction false} OnesFront(s: seq<bv8>)
    requires s != []
    ensures AllOnes(s) == Ones(s[0]) + AllOnes(s[1..])
  {
    hide Ones;
    if |s| > 1 {
      OnesFront(s[..|s| - 1]);
      assert s[..|s| - 1][1..] == s[1..][..|s| - 2];
    }
  }

  /** The check accepts exactly the messages with an even number of ones. */
  lemma ParityIsEven(msg: seq<bv8>)
    ensures ValidateParity(msg) <==> |msg| >= 2 && AllOnes(msg) % 2 == 0
  {
    hide Ones, AllOnes, Top, Version;
    if |msg| >= 2 {
      OnesFront(msg);
      TopBitCounts(msg[0]);
    }
  }

  // ----- patches ----------------------------------------------------------

  /** disp_opcode_with_mode over the opcode family kept in the high six bits. */
  function Opcode(op: bv8, mode: bv8): bv8 {
    Family(op) | (if mode < 4 then mode else 1)
  }

  lemma OpcodeFamily(op: bv8, mode: bv8)
    ensures Family(Opcode(op, mode)) == Family(op)
  {
  }

  function WithMode(b: Block, mode: bv8): (r: Block)
    ensures |r| == |b|
  {
    Stamp(b[1 := Opcode(b[1], mode)])
  }

  /** The per-trial duty is a block's last byte; 0 leaves the stored one. */
  function WithDuty(b: Block, duty: bv8): (r: Block)
    ensures |r| == |b|
  {
    if duty == 0 then b else Stamp(b[|b| - 1 := duty])
  }

  function Patched(b: Block, mode: bv8, duty: bv8): (r: Block)
    ensures |r| == |b|
  {
    WithDuty(WithMode(b, mode), duty)
  }

  /** Blocks a patch cannot tell apart: equal but for the parity bit, the mode bits and an overridden duty. */
  predicate Alike(x: Block, y: Block, duty: bv8) {
    && |x| == |y|
    && Version(x[0]) == Version(y[0])
    && Family(x[1]) == Family(y[1])
    && x[2..|x| - 1] == y[2..|y| - 1]
    && (duty == 0 ==> x[|x| - 1] == y[|y| - 1])
  }

  lemma ModeBytes(b: Block, mode: bv8)
    ensures WithMode(b, mode)[1..] == [Opcode(b[1], mode)] + b[2..]
    ensures WithMode(b, mode)[0] == Header(b[0], Odd(b[0], WithMode(b, mode)[1..]))
    ensures Version(WithMode(b, mode)[0]) == Version(b[0])
  {
    hide Opcode, Header, Odd, Version;
    var op := Opcode(b[1], mode);
    assert b[1 := op][1..] == [op] + b[2..];
    HeaderBits(b[0], Odd(b[0], b[1 := op][1..]));
  }

  lemma DutyBytes(m: Block, duty: bv8)
    requires duty != 0
    ensures WithDuty(m, duty)[1..] == m[1..][..|m| - 2] + [duty]
    ensures WithDuty(m, duty)[0] == Header(m[0], Odd(m[0], WithDuty(m, duty)[1..]))
  {
    hide Header, Odd;
    assert m[|m| - 1 := duty][1..] == m[1..][..|m| - 2] + [duty];
  }

  /** The bytes of a patched block, named outright. */
  lemma PatchedBytes(b: Block, mode: bv8, duty: bv8)
    ensures var r := Patched(b, mode, duty);
            && r[1..] == [Opcode(b[1], mode)] + b[2..|b| - 1] + [if duty == 0 then b[|b| - 1] else duty]
            && r[0] == Header(b[0], Odd(b[0], r[1..]))
  {
    hide Opcode, Header, Odd, Version, WithMode;
    var m, op := WithMode(b, mode), Opcode(b[1], mode);
    ModeBytes(b, mode);
    assert b[2..] == b[2..|b| - 1] + [b[|b| - 1]];
    if duty != 0 {
      DutyBytes(m, duty);
      assert m[1..][..|m| - 2] == [op] + b[2..|b| - 1];
      HeaderSame(m[0], b[0], Patched(b, mode, duty)[1..]);
    }
  }

  lemma HeaderSame(v: bv8, w: bv8, rest: seq<bv8>)
    requires Version(v) == Version(w)
    ensures Odd(v, rest) == Odd(w, rest) && Header(v, Odd(v, rest)) == Header(w, Odd(w, rest))
  {
    OddSame(v, w, rest);
    SameHeader(v, w, Odd(v, rest));
    hide *;
  }

  lemma OddSame(v: bv8, w: bv8, rest: seq<bv8>)
    requires Version(v) == Version(w)
    ensures Odd(v, rest) == Odd(w, rest)
  {
    hide Ones, AllOnes, Version;
  }

  lemma SameHeader(v: bv8, w: bv8, odd: bool)
    requires Version(v) == Version(w)
    ensures Header(v, odd) == Header(w, odd)
  {
    hide Version;
  }

  /** A patch erases every difference it cannot see. */
  lemma PatchErases(x: Block, y: Block, mode: bv8, duty: bv8)
    requires Alike(x, y, duty)
    ensures Patched(x, mode, duty) == Patched(y, mode, duty)
  {
    hide Patched, Header, Odd, Family, Version;
    var p, q := Patched(x, mode, duty), Patched(y, mode, duty);
    PatchedBytes(x, mode, duty);
    PatchedBytes(y, mode, duty);
    assert Opcode(x[1], mode) == Opcode(y[1], mode);
    hide Opcode;
    HeaderSame(x[0], y[0], p[1..]);
    assert p[1..] == q[1..];
    assert p == [p[0]] + p[1..] && q == [q[0]] + q[1..];
  }

  /** The middle of a block, seen from behind its header. */
  lemma TailSlice(r: seq<bv8>)
    requires |r| >= 3
    ensures r[1] == r[1..][0] && r[|r| - 1] == r[1..][|r| - 2] && r[2..|r| - 1] == r[1..][1..|r| - 2]
  {
    var t := r[1..];
    var a, b := r[2..|r| - 1], t[1..|r| - 2];
    forall i | 0 <= i < |a| ensures a[i] == b[i] {
      assert a[i] == r[i + 2];
      assert b[i] == t[i + 1] == r[i + 2];
    }
  }

  lemma TailParts(t: seq<bv8>, op: bv8, mid: seq<bv8>, last: bv8)
    requires t == [op] + mid + [last]
    ensures t[0] == op && t[|t| - 1] == last && t[1..|t| - 1] == mid
  {
  }

  /** A patched block is like the block it came from. */
  lemma PatchAlike(b: Block, mode: bv8, duty: bv8)
    ensures Alike(Patched(b, mode, duty), b, duty)
  {
    hide Patched, Header, Odd, Opcode, Family, Version;
    var r := Patched(b, mode, duty);
    PatchedBytes(b, mode, duty);
    OpcodeFamily(b[1], mode);
    HeaderBits(b[0], Odd(b[0], r[1..]));
    TailParts(r[1..], Opcode(b[1], mode), b[2..|b| - 1], if duty == 0 then b[|b| - 1] else duty);
    TailSlice(r);
  }

  /** Changing the mode of a patched block is patching it with that mode from the start. */
  lemma ModeAfterPatch(b: Block, mode: bv8, again: bv8, duty: bv8)
    ensures WithMode(Patched(b, mode, duty), again) == Patched(b, again, duty)
  {
    var r := Patched(b, mode, duty);
    PatchAlike(b, mode, duty);
    PatchErases(r, b, again, duty);
    DutyStays(r, again, duty, b, mode);
    hide Patched, Alike;
  }

  lemma LastDuty(b: Block, mode: bv8, duty: bv8)
    requires duty != 0
    ensures Patched(b, mode, duty)[|b| - 1] == duty
  {
    hide Opcode, Header, Odd, Version, WithMode;
    var r := Patched(b, mode, duty);
    PatchedBytes(b, mode, duty);
    assert r[|r| - 1] == r[1..][|r| - 2];
  }

  lemma LastOfTail(m: Block, r: Block, op: bv8)
    requires |m| == |r| && m[1..] == [op] + r[2..]
    ensures m[|m| - 1] == r[|r| - 1]
  {
    assert m[|m| - 1] == m[1..][|m| - 2];
  }

  /** Where the duty is already in place, patching it again changes nothing. */
  lemma DutyStays(r: Block, again: bv8, duty: bv8, b: Block, mode: bv8)
    requires r == Patched(b, mode, duty)
    ensures Patched(r, again, duty) == WithMode(r, again)
  {
    if duty != 0 {
      hide Opcode, Header, Odd, Version;
      LastDuty(b, mode, duty);
      var m := WithMode(r, again);
      assert m[|m| - 1] == r[|r| - 1] by { ModeBytes(r, again); LastOfTail(m, r, Opcode(r[1], again)); }
      assert m[|m| - 1 := duty] == m;
      RestampSame(r[1 := Opcode(r[1], again)]);
    }
  }

  lemma RestampSame(b: Block)
    ensures Stamp(Stamp(b)) == Stamp(b)
  {
    hide Header, Odd, Version;
    var s := Stamp(b);
    HeaderBits(b[0], Odd(b[0], b[1..]));
    HeaderSame(s[0], b[0], b[1..]);
    assert Stamp(s)[1..] == s[1..];
    assert Stamp(s) == [Stamp(s)[0]] + s[1..] && s == [s[0]] + s[1..];
  }

  lemma PatchValidates(b: Block, mode: bv8, duty: bv8)
    ensures ValidateParity(Patched(b, mode, duty)) && ValidateParity(WithMode(b, mode))
  {
    hide ValidateParity, Stamp;
    StampValidates(b[1 := Opcode(b[1], mode)]);
    if duty != 0 {
      var m := WithMode(b, mode);
      StampValidates(m[|m| - 1 := duty]);
    }
  }

  // ----- index blocks -----------------------------------------------------

  function IndexBytes(index: bv16): seq<bv8> {
    [(index & 0xFF) as bv8, (index >> 8) as bv8]
  }

  /** A "display stored frame" block: version 2, the index low byte first, a duty only for the 0x6x opcodes. */
  function PsramBlock(index: bv16, cmd: bv8, duty: bv8): (r: Block) {
    Stamp([0x02, cmd] + IndexBytes(index) + if cmd & 0xF0 == 0x60 then [duty] else [])
  }

  lemma IndexRecovered(index: bv16)
    ensures ((IndexBytes(index)[1] as bv16) << 8) | (IndexBytes(index)[0] as bv16) == index
  {
  }

  /** The panel accepts the block and reads back the index it was built for. */
  lemma PsramBlockReads(index: bv16, cmd: bv8, duty: bv8)
    ensures var r := PsramBlock(index, cmd, duty);
            && ValidateParity(r) && |r| == (if cmd & 0xF0 == 0x60 then 5 else 4)
            && r[1] == cmd && ((r[3] as bv16) << 8) | (r[2] as bv16) == index
            && (|r| == 5 ==> r[4] == duty)
  {
    hide ValidateParity, Odd, Header;
    var b := [0x02, cmd] + IndexBytes(index) + if cmd & 0xF0 == 0x60 then [duty] else [];
    var r := PsramBlock(index, cmd, duty);
    StampValidates(b);
    IndexRecovered(index);
    assert r[1..] == b[1..];
    assert forall i :: 1 <= i < |b| ==> r[i] == r[1..][i - 1] == b[i];
  }
}
