/** The frame buffer as a cache: loads, live patches, derived outputs and presentation accounting. */
module FrameCache {
  import opened Bytes
  import opened Panel

  // ----- blocks in the buffer ---------------------------------------------

  function Span(n: nat, blk: nat): nat {
    if n == 0 then 0 else blk + Span(n - 1, blk)
  }

  /** patchDispMode over `n` blocks of `blk` bytes; what follows them stays. */
  function Modes(r: seq<bv8>, blk: nat, n: nat, mode: bv8): (q: seq<bv8>)
    requires blk >= 3 && Span(n, blk) <= |r|
    ensures |q| == |r|
    decreases n
  {
    if n == 0 then r else WithMode(r[..blk], mode) + Modes(r[blk..], blk, n - 1, mode)
  }

  /** patchTrialDuty over the same blocks. */
  function Duties(r: seq<bv8>, blk: nat, n: nat, duty: bv8): (q: seq<bv8>)
    requires blk >= 3 && Span(n, blk) <= |r|
    ensures |q| == |r|
    decreases n
  {
    if n == 0 then r else WithDuty(r[..blk], duty) + Duties(r[blk..], blk, n - 1, duty)
  }

  function PatchAll(r: seq<bv8>, blk: nat, n: nat, mode: bv8, duty: bv8): (q: seq<bv8>)
    requires blk >= 3 && Span(n, blk) <= |r|
    ensures |q| == |r|
    decreases n
  {
    if n == 0 then r else Patched(r[..blk], mode, duty) + PatchAll(r[blk..], blk, n - 1, mode, duty)
  }

  predicate AllAlike(x: seq<bv8>, y: seq<bv8>, blk: nat, n: nat, duty: bv8)
    requires blk >= 3 && Span(n, blk) <= |x| == |y|
    decreases n
  {
    if n == 0 then x == y else Alike(x[..blk], y[..blk], duty) && AllAlike(x[blk..], y[blk..], blk, n - 1, duty)
  }

  lemma PatchAllUnroll(r: seq<bv8>, blk: nat, n: nat, mode: bv8, duty: bv8)
    requires blk >= 3 && n > 0 && Span(n, blk) <= |r|
    ensures var p := PatchAll(r, blk, n, mode, duty);
            var top, rest := Patched(r[..blk], mode, duty), PatchAll(r[blk..], blk, n - 1, mode, duty);
            p == top + rest && p[..blk] == top && p[blk..] == rest
  {
    hide Patched;
  }

  lemma {:induction false} ModesThenDuties(r: seq<bv8>, blk: nat, n: nat, mode: bv8, duty: bv8)
    requires blk >= 3 && Span(n, blk) <= |r|
    ensures Duties(Modes(r, blk, n, mode), blk, n, duty) == PatchAll(r, blk, n, mode, duty)
    decreases n
  {
    if n > 0 {
      hide WithMode, WithDuty;
      var m := Modes(r, blk, n, mode);
      assert m[..blk] == WithMode(r[..blk], mode) && m[blk..] == Modes(r[blk..], blk, n - 1, mode);
      ModesThenDuties(r[blk..], blk, n - 1, mode, duty);
    }
  }

  lemma {:induction false} PatchErasesAll(x: seq<bv8>, y: seq<bv8>, blk: nat, n: nat, mode: bv8, duty: bv8)
    requires blk >= 3 && Span(n, blk) <= |x| == |y| && AllAlike(x, y, blk, n, duty)
    ensures PatchAll(x, blk, n, mode, duty) == PatchAll(y, blk, n, mode, duty)
    decreases n
  {
    if n > 0 {
      hide Patched, Alike;
      PatchErases(x[..blk], y[..blk], mode, duty);
      PatchErasesAll(x[blk..], y[blk..], blk, n - 1, mode, duty);
    }
  }

  lemma {:induction false} PatchAllAlike(r: seq<bv8>, blk: nat, n: nat, mode: bv8, duty: bv8)
    requires blk >= 3 && Span(n, blk) <= |r|
    ensures AllAlike(PatchAll(r, blk, n, mode, duty), r, blk, n, duty)
    decreases n
  {
    if n > 0 {
      hide PatchAll, Patched, Alike;
      PatchAlike(r[..blk], mode, duty);
      PatchAllAlike(r[blk..], blk, n - 1, mode, duty);
      PatchAllUnroll(r, blk, n, mode, duty);
    }
  }

  lemma {:induction false} ModesAgain(r: seq<bv8>, blk: nat, n: nat, mode: bv8, again: bv8, duty: bv8)
    requires blk >= 3 && Span(n, blk) <= |r|
    ensures Modes(PatchAll(r, blk, n, mode, duty), blk, n, again) == PatchAll(r, blk, n, again, duty)
    decreases n
  {
    if n > 0 {
      hide Patched, WithMode;
      ModeAfterPatch(r[..blk], mode, again, duty);
      ModesAgain(r[blk..], blk, n - 1, mode, again, duty);
      PatchAllUnroll(r, blk, n, mode, duty);
    }
  }

  /** A read over the front of the buffer. */
  function Over(r: seq<bv8>, body: seq<bv8>): (q: seq<bv8>)
    requires |body| <= |r|
    ensures |q| == |r|
  {
    body + r[|body|..]
  }

  lemma {:induction false} OverAlike(x: seq<bv8>, y: seq<bv8>, body: seq<bv8>, blk: nat, n: nat, duty: bv8)
    requires blk >= 3 && Span(n, blk) <= |x| == |y| && |body| <= |x| && AllAlike(x, y, blk, n, duty)
    ensures AllAlike(Over(x, body), Over(y, body), blk, n, duty)
    decreases n
  {
    hide Over, Alike;
    if n > 0 {
      OverCut(x, body, blk);
      OverCut(y, body, blk);
      if |body| >= blk {
        OverAlike(x[blk..], y[blk..], body[blk..], blk, n - 1, duty);
        SelfAlike(body[..blk], duty);
      } else {
        FrontAlike(x[..blk], y[..blk], body, duty);
      }
    } else {
      SameOver(x, y, body);
    }
  }

  lemma SameOver(x: seq<bv8>, y: seq<bv8>, body: seq<bv8>)
    requires x == y && |body| <= |x|
    ensures Over(x, body) == Over(y, body)
  {
  }

  lemma SelfAlike(b: Block, duty: bv8)
    ensures Alike(b, b, duty)
  {
  }

  /** A read over the buffer, block by block. */
  lemma OverCut(x: seq<bv8>, body: seq<bv8>, blk: nat)
    requires |body| <= |x| && blk <= |x|
    ensures |body| >= blk ==> Over(x, body)[..blk] == body[..blk] && Over(x, body)[blk..] == Over(x[blk..], body[blk..])
    ensures |body| < blk ==> Over(x, body)[..blk] == Over(x[..blk], body) && Over(x, body)[blk..] == x[blk..]
  {
  }

  lemma FrontAlike(x: Block, y: Block, body: seq<bv8>, duty: bv8)
    requires Alike(x, y, duty) && |body| <= |x|
    ensures Alike(Over(x, body), Over(y, body), duty)
  {
    var p, q := Over(x, body), Over(y, body);
    var last := |x| - 1;
    forall i | 2 <= i < last ensures p[i] == q[i] {
      assert x[i] == x[2..last][i - 2] && y[i] == y[2..last][i - 2];
    }
    assert p[2..last] == q[2..last];
  }

  /** What a load leaves in the buffer. */
  function Loaded(r: seq<bv8>, body: seq<bv8>, blk: nat, n: nat, mode: bv8, duty: bv8): (q: seq<bv8>)
    requires blk >= 3 && Span(n, blk) <= |r| && |body| <= |r|
    ensures |q| == |r|
  {
    PatchAll(Over(r, body), blk, n, mode, duty)
  }

  /** Loading a frame over itself, after any change of display mode, is just the change of mode; block size and
      file need not agree. */
  lemma ReloadIsPatch(r: seq<bv8>, body: seq<bv8>, blk: nat, n: nat, mode: bv8, again: bv8, duty: bv8)
    requires blk >= 3 && Span(n, blk) <= |r| && |body| <= |r|
    ensures var held := Modes(Loaded(r, body, blk, n, mode, duty), blk, n, again);
            Loaded(held, body, blk, n, again, duty) == held
  {
    hide PatchAll, Modes, AllAlike, Over;
    var w := Over(r, body);
    ModesAgain(w, blk, n, mode, again, duty);
    var held := PatchAll(w, blk, n, again, duty);
    PatchAllAlike(w, blk, n, again, duty);
    OverAlike(held, w, body, blk, n, duty);
    OverTwice(r, body);
    PatchErasesAll(Over(held, body), w, blk, n, again, duty);
  }

  lemma OverTwice(r: seq<bv8>, body: seq<bv8>)
    requires |body| <= |r|
    ensures Over(Over(r, body), body) == Over(r, body)
  {
  }

  /** Every block of a loaded frame passes the panels' parity check. */
  predicate AllValid(r: seq<bv8>, blk: nat, n: nat)
    requires Span(n, blk) <= |r|
    decreases n
  {
    n > 0 ==> ValidateParity(r[..blk]) && AllValid(r[blk..], blk, n - 1)
  }

  lemma {:induction false} PatchAllValid(r: seq<bv8>, blk: nat, n: nat, mode: bv8, duty: bv8)
    requires blk >= 3 && Span(n, blk) <= |r|
    ensures AllValid(PatchAll(r, blk, n, mode, duty), blk, n)
    decreases n
  {
    if n > 0 {
      hide PatchAll, Patched, ValidateParity;
      PatchValidates(r[..blk], mode, duty);
      PatchAllValid(r[blk..], blk, n - 1, mode, duty);
      PatchAllUnroll(r, blk, n, mode, duty);
    }
  }
}
