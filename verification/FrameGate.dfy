/** readFrame's gate over a frame as it lies on the card: "FR", index and blocks, then the CRC-16 low byte first. */
module FrameGate {
  import opened Bytes
  import opened Division
  import opened Crc16

  function Body(frame: seq<bv8>): seq<bv8>
    requires |frame| >= 2
  {
    frame[..|frame| - 2]
  }

  function Stored(frame: seq<bv8>): bv16
    requires |frame| >= 2
  {
    (frame[|frame| - 2] as bv16) | ((frame[|frame| - 1] as bv16) << 8)
  }

  predicate Magic(frame: seq<bv8>) {
    |frame| >= 4 && frame[0] == 0x46 && frame[1] == 0x52
  }

  predicate Accepts(frame: seq<bv8>) {
    Magic(frame) && Crc(Body(frame)) == Stored(frame)
  }

  // ----- the gate in bits -------------------------------------------------

  function Poly(): (r: Bits)
    ensures |r| == 16
  {
    Word(Register(), POLY)
  }

  /** The trailer's bytes change places on the way into the compared word. */
  function Swap(t: Bits): (r: Bits)
    requires |t| == 16
    ensures |r| == 16 && forall i :: 0 <= i < 16 ==> r[i] == if i < 8 then t[i + 8] else t[i - 8]
  {
    t[8..] + t[..8]
  }

  function BodyBits(frame: seq<bv8>): (r: Bits)
    requires |frame| >= 2
    ensures |r| == 8 * (|frame| - 2)
  {
    MessageBits(false, Body(frame))
  }

  function TrailerBits(frame: seq<bv8>): (r: Bits)
    requires |frame| >= 2
    ensures |r| == 16
  {
    ByteBits(false, frame[|frame| - 2]) + ByteBits(false, frame[|frame| - 1])
  }

  lemma FrameBits(frame: seq<bv8>)
    requires |frame| >= 2
    ensures MessageBits(false, frame) == BodyBits(frame) + TrailerBits(frame)
  {
    hide MessageBits, ByteBits;
    var tail := frame[|frame| - 2..];
    Join(frame, |frame| - 2);
    MessageBitsConcat(false, Body(frame), tail);
    TwoBytes(tail[0], tail[1]);
    assert tail == [tail[0], tail[1]];
  }

  lemma Join(frame: seq<bv8>, k: nat)
    requires k <= |frame|
    ensures frame == frame[..k] + frame[k..]
  {
  }

  lemma TwoBytes(l: bv8, h: bv8)
    ensures MessageBits(false, [l, h]) == ByteBits(false, l) + ByteBits(false, h)
  {
    hide ByteBits;
    assert [l, h][..1] == [l] && [l][..0] == [];
  }

  function Low(d: bv8): bv16 { d as bv16 }

  lemma StoredIs(frame: seq<bv8>)
    requires |frame| >= 2
    ensures Stored(frame) == Mix(High(frame[|frame| - 1]), Low(frame[|frame| - 2]))
  {
  }

  lemma LowIsHigh(d: bv8)
    ensures Low(d) << 8 == High(d)
  {
  }

  /** A byte in the low half of the word leaves after eight zeros. */
  lemma LowWord(d: bv8)
    ensures Word(Register(), Low(d)) == Zeros(8) + ByteBits(false, d)
  {
    LowStartsEmpty(d);
    LowEndsWithByte(d);
    hide Read, Iterate;
    ReadPlus(Register(), Low(d), 8, 8);
  }

  lemma LowEndsWithByte(d: bv8)
    ensures Read(Register(), Iterate(Left, Low(d), 8), 8) == ByteBits(false, d)
  {
    HighEmbeds();
    hide High;
    ReadEmbedded(Register(), false, High, d, 8);
    hide Read, Iterate;
    EightLeft(Low(d));
    LowIsHigh(d);
  }

  lemma LowStartsEmpty(d: bv8)
    ensures Read(Register(), Low(d), 8) == Zeros(8)
  {
  }

  lemma HighWord(d: bv8)
    ensures Word(Register(), High(d)) == ByteBits(false, d) + Zeros(8)
  {
    IsEmptied();
    HighEmbeds();
    WordEmbedded(Register(), false, High, d);
  }

  lemma StoredWord(frame: seq<bv8>)
    requires |frame| >= 2
    ensures Word(Register(), Stored(frame)) == Swap(TrailerBits(frame))
  {
    var h, l := frame[|frame| - 1], frame[|frame| - 2];
    StoredIs(frame);
    HighWord(h);
    LowWord(l);
    IsLinear();
    WordXor(Register(), High(h), Low(l));
    hide Word, ByteBits, Stored, High, Low, Linear, Swap;
    Halves(ByteBits(false, h), ByteBits(false, l));
  }

  lemma Halves(h: Bits, l: Bits)
    requires |h| == |l| == 8
    ensures Xor(h + Zeros(8), Zeros(8) + l) == Swap(l + h)
  {
  }

  lemma AcceptsBits(frame: seq<bv8>)
    requires Magic(frame)
    ensures Accepts(frame) <==> Divide(Poly(), Word(Register(), 0xFFFF), BodyBits(frame)) == Swap(TrailerBits(frame))
  {
    UpdateDivides(0xFFFF, Body(frame));
    StoredWord(frame);
    IsEmptied();
    IsFaithful();
    hide Word, Empties, Faithful, Update, Stored, Swap, Divide, TrailerBits;
    WordDetermines(Register(), Crc(Body(frame)), Stored(frame));
  }

  lemma SwapXor(a: Bits, b: Bits)
    requires |a| == |b| == 16
    ensures Swap(Xor(a, b)) == Xor(Swap(a), Swap(b))
  {
  }

  lemma SameSum(a: Bits, b: Bits, c: Bits, d: Bits)
    requires |a| == |b| == |c| == |d| && a == c
    ensures b == d <==> Xor(a, b) == Xor(c, d)
  {
    forall i | 0 <= i < |a| && Xor(a, b) == Xor(c, d) ensures b[i] == d[i] {
      assert Xor(a, b)[i] == Xor(c, d)[i];
    }
  }

  function BodyFlips(x: seq<bv8>, y: seq<bv8>): (d: Bits)
    requires |x| == |y| >= 2
    ensures |d| == 8 * (|x| - 2)
  {
    Xor(BodyBits(x), BodyBits(y))
  }

  function TrailerFlips(x: seq<bv8>, y: seq<bv8>): (d: Bits)
    requires |x| == |y| >= 2
    ensures |d| == 16
  {
    Xor(TrailerBits(x), TrailerBits(y))
  }

  /** The flips fit each other: the body's, as a message of their own, leave the trailer's. */
  predicate Fits(body: Bits, trailer: Bits)
    requires |trailer| == 16
  {
    Divide(Poly(), Zeros(16), body) == Swap(trailer)
  }

  /** A damaged copy of an accepted frame is accepted exactly when the magic survives and the flipped bits fit each
      other, whatever the frame held. */
  lemma DamageAcceptedIff(good: seq<bv8>, bad: seq<bv8>)
    requires Accepts(good) && |bad| == |good|
    ensures Accepts(bad) <==> Magic(bad) && Fits(BodyFlips(good, bad), TrailerFlips(good, bad))
  {
    if Magic(bad) {
      AcceptsBits(good);
      AcceptsBits(bad);
      hide Accepts, BodyBits, TrailerBits, Divide, Word, Swap;
      var c := Word(Register(), 0xFFFF);
      var x, y := BodyBits(good), BodyBits(bad);
      var t, u := TrailerBits(good), TrailerBits(bad);
      Damage(Poly(), c, x, y);
      SwapXor(t, u);
      SameSum(Divide(Poly(), c, x), Divide(Poly(), c, y), Swap(t), Swap(u));
    }
  }

  // ----- bursts -----------------------------------------------------------

  lemma NoFlips(good: seq<bv8>, bad: seq<bv8>)
    requires |good| == |bad| >= 2
    requires BodyFlips(good, bad) == Zeros(8 * (|good| - 2)) && TrailerFlips(good, bad) == Zeros(16)
    ensures good == bad
  {
    FrameBits(good);
    FrameBits(bad);
    hide MessageBits, ByteBits;
    Differs(BodyBits(good), BodyBits(bad));
    Differs(TrailerBits(good), TrailerBits(bad));
    BitsDetermine(false, good, bad);
  }

  lemma SwapZero(t: Bits)
    requires |t| == 16
    ensures Swap(t) == Zeros(16) <==> t == Zeros(16)
  {
    if Swap(t) == Zeros(16) {
      forall i | 0 <= i < 16 ensures !t[i] {
        assert Swap(t)[(i + 8) % 16] == t[i];
      }
    }
  }

  lemma TapIsLast()
    ensures Poly()[15]
  {
    LastTap();
  }

  /** Damage to the trailer alone never fits. */
  lemma TrailerOnly(n: nat, t: Bits)
    requires |t| == 16 && Fits(Zeros(n), t)
    ensures t == Zeros(16)
  {
    NothingDivides(Poly(), n);
    SwapZero(t);
  }

  /** Damage to the body alone, within 16 bits, never fits. */
  lemma BodyOnly(b: Bits, lo: nat, hi: nat)
    requires lo <= hi <= |b| && hi - lo <= 16 && (forall i :: 0 <= i < |b| && !(lo <= i < hi) ==> !b[i])
    requires Fits(b, Zeros(16))
    ensures b == Zeros(|b|)
  {
    TapIsLast();
    NothingDivides(Poly(), |b|);
    SwapZero(Zeros(16));
    hide Divide, Poly, Swap;
    BurstDetected(Poly(), Zeros(16), b, Zeros(|b|), lo, hi);
  }

  // A burst across the border: `e` ends the body, `t` starts the trailer. Padded with the zeros between them and in
  // front, `e` and `t` are twenty bits that the polynomial divides; such a multiple repeats its first four bits, and
  // the zeros then wipe them out.

  /** The remainder of four bits: they come back at the polynomial's three taps. */
  predicate Rows(r: Bits, a: bool, b: bool, c: bool, d: bool) {
    && |r| == 16
    && r[0] == a && r[1] == b && r[2] == c && r[3] == d && !r[4] && !r[5] && !r[6]
    && r[7] == a && r[8] == b && r[9] == c && r[10] == d && !r[11]
    && r[12] == a && r[13] == b && r[14] == c && r[15] == d
  }

  lemma ReadFour(c: bv16, n: nat)
    ensures var r := Read(Register(), c, n + 4);
            && r[0] == Out(c) && r[1] == Out(Left(c)) && r[2] == Out(Left(Left(c))) && r[3] == Out(Left(Left(Left(c))))
            && r[4..] == Read(Register(), Left(Left(Left(Left(c)))), n)
  {
    hide Out, Left;
    var m := Register();
    ReadFirst(m, c, n + 4);
    ReadFirst(m, Left(c), n + 3);
    ReadFirst(m, Left(Left(c)), n + 2);
    ReadFirst(m, Left(Left(Left(c))), n + 1);
    hide Read;
    var r := Read(m, c, n + 4);
    assert r[1..][1..][1..][1..] == r[4..];
  }

  lemma PolyIs()
    ensures Rows(Poly(), false, false, false, true)
  {
    ReadFour(0x1021, 12);
    ReadFour(0x0210, 8);
    ReadFour(0x2100, 4);
    ReadFour(0x1000, 0);
    hide Read;
    var r := Poly();
    var r4, r8, r12 := r[4..], r[8..], r[12..];
    assert r4[4..] == r8 && r8[4..] == r12;
    assert r[4] == r4[0] && r[5] == r4[1] && r[6] == r4[2] && r[7] == r4[3];
    assert r[8] == r8[0] && r[9] == r8[1] && r[10] == r8[2] && r[11] == r8[3];
    assert r[12] == r12[0] && r[13] == r12[1] && r[14] == r12[2] && r[15] == r12[3];
  }

  lemma RowStep(p: Bits, r: Bits, b: bool, c: bool, d: bool, e: bool)
    requires Rows(p, false, false, false, true) && Rows(r, false, b, c, d)
    ensures Rows(Bit(p, r, e), b, c, d, e)
  {
  }

  lemma FourBits(a: Bits)
    requires |a| == 4
    ensures Rows(Divide(Poly(), Zeros(16), a), a[0], a[1], a[2], a[3])
  {
    PolyIs();
    var p := Poly();
    assert Rows(Zeros(16), false, false, false, false);
    hide Poly, Bit, Rows, Zeros;
    var r1 := Bit(p, Zeros(16), a[0]);
    RowStep(p, Zeros(16), false, false, false, a[0]);
    var r2 := Bit(p, r1, a[1]);
    RowStep(p, r1, false, false, a[0], a[1]);
    var r3 := Bit(p, r2, a[2]);
    RowStep(p, r2, false, a[0], a[1], a[2]);
    RowStep(p, r3, a[0], a[1], a[2], a[3]);
    FourDivide(p, Zeros(16), a);
  }

  lemma FourDivide(p: Bits, c: Bits, a: Bits)
    requires |p| == |c| == 16 && |a| == 4
    ensures Divide(p, c, a) == Bit(p, Bit(p, Bit(p, Bit(p, c, a[0]), a[1]), a[2]), a[3])
  {
    hide Bit, Divide;
    DivideOne(p, c, a, 0);
    DivideOne(p, Bit(p, c, a[0]), a, 1);
    DivideOne(p, Bit(p, Bit(p, c, a[0]), a[1]), a, 2);
    DivideOne(p, Bit(p, Bit(p, Bit(p, c, a[0]), a[1]), a[2]), a, 3);
    assert a[0..] == a;
  }

  lemma DivideOne(p: Bits, c: Bits, a: Bits, k: nat)
    requires |p| == |c| > 0 && k < |a|
    ensures Divide(p, c, a[k..]) == Divide(p, Bit(p, c, a[k]), a[k + 1..])
    ensures k == |a| - 1 ==> Divide(p, c, a[k..]) == Bit(p, c, a[k])
  {
    hide Bit;
    assert a[k..][1..] == a[k + 1..];
  }

  /** Up to three bits before the border: all they leave lies in the second half of the trailer. */
  lemma NearBorder(e: Bits, t: Bits)
    requires 1 <= |e| <= 3 && |t| == 16 && Fits(e, t) && (forall i :: 12 - |e| <= i < 16 ==> !t[i])
    ensures e == Zeros(|e|)
  {
    var n := 4 - |e|;
    var a := Zeros(n) + e;
    Padded(e, n);
    FourBits(a);
    hide Divide, Poly, Swap;
    Unpad(e, a, n, Swap(t));
  }

  lemma Padded(e: Bits, n: nat)
    ensures Divide(Poly(), Zeros(16), Zeros(n) + e) == Divide(Poly(), Zeros(16), e)
  {
    hide Poly;
    Framed(Poly(), n, e, 0);
    assert Zeros(n) + e + Zeros(0) == Zeros(n) + e;
  }

  lemma Unpad(e: Bits, a: Bits, n: nat, r: Bits)
    requires |a| == 4 && n < 4 && a == Zeros(n) + e && Rows(r, a[0], a[1], a[2], a[3])
    requires forall k :: n <= k < 4 ==> !r[k]
    ensures e == Zeros(|e|)
  {
    forall i | 0 <= i < |e| ensures !e[i] {
      assert a[i + n] == e[i];
      assert r[i + n] == a[i + n];
    }
  }

  lemma SwapShort(u: Bits, n: nat)
    requires |u| + n == 8
    ensures Swap(u + Zeros(n + 8)) == Zeros(8) + u + Zeros(n)
  {
  }

  lemma SelfXor(r: Bits)
    ensures Xor(r, r) == Zeros(|r|)
  {
  }

  /** A remainder that ends in zeros is cancelled by the bits before them. */
  lemma Cancelled(g: Bits, n: nat)
    requires |g| + n == 16
    ensures Divide(Poly(), g + Zeros(n), g) == Zeros(16)
  {
    hide Poly, Divide, Xor, Zeros;
    Feed(Poly(), g + Zeros(n), g);
    SelfXor(g + Zeros(n));
    NothingDivides(Poly(), |g|);
  }

  /** `e`, eight zeros and `u` leave nothing. */
  lemma Bridged(e: Bits, u: Bits, n: nat)
    requires |u| + n == 8 && Fits(e, u + Zeros(n + 8))
    ensures Divide(Poly(), Zeros(16), e + (Zeros(8) + u)) == Zeros(16)
  {
    SwapShort(u, n);
    hide Poly, Swap, Zeros, Divide;
    Cancelled(Zeros(8) + u, n);
    DivideConcat(Poly(), Zeros(16), e, Zeros(8) + u);
  }

  /** Twenty bits that leave nothing repeat their first four. */
  lemma Multiple(a: Bits, b: Bits)
    requires |a| == 4 && |b| == 16 && Divide(Poly(), Zeros(16), a + b) == Zeros(16)
    ensures Rows(b, a[0], a[1], a[2], a[3])
  {
    TapIsLast();
    FourBits(a);
    hide Poly, Rows;
    var r := Divide(Poly(), Zeros(16), a);
    DivideConcat(Poly(), Zeros(16), a, b);
    assert b + Zeros(0) == b;
    Feed(Poly(), r, b);
    ZeroStays(Poly(), Xor(r, b), 16);
    hide Divide;
    Differs(r, b);
  }

  /** Eight zeros anywhere among the rows reach all four bits. */
  lemma ZerosReach(b: Bits, a0: bool, a1: bool, a2: bool, a3: bool, k: nat)
    requires Rows(b, a0, a1, a2, a3) && k <= 7 && (forall i :: k <= i < k + 8 ==> !b[i])
    ensures !a0 && !a1 && !a2 && !a3 && b == Zeros(16)
  {
    assert !a0 && !a1 && !a2 && !a3;
  }

  lemma Regroup(e: Bits, u: Bits)
    requires |e| >= 4
    ensures e + (Zeros(8) + u) == e[..4] + (e[4..] + (Zeros(8) + u))
    ensures var b := e[4..] + (Zeros(8) + u);
            && (forall i :: |e| - 4 <= i < |e| + 4 ==> !b[i])
            && (forall i :: 4 <= i < |e| ==> b[i - 4] == e[i])
  {
  }

  lemma FarBorder(e: Bits, t: Bits)
    requires 4 <= |e| <= 11 && |t| == 16 && Fits(e, t) && (forall i :: 12 - |e| <= i < 16 ==> !t[i])
    ensures e == Zeros(|e|)
  {
    var j := |e|;
    var u := t[..12 - j];
    assert t == u + Zeros(j + 4);
    Bridged(e, u, j - 4);
    Regroup(e, u);
    var a, b := e[..4], e[4..] + (Zeros(8) + u);
    hide Fits, Poly, Divide, Rows;
    Multiple(a, b);
    ZerosReach(b, a[0], a[1], a[2], a[3], j - 4);
    AllOff(e, a, b);
  }

  lemma AllOff(e: Bits, a: Bits, b: Bits)
    requires |e| >= 4 && |b| == 16 && |e| <= 20 && a == e[..4] && b == Zeros(16)
    requires forall i :: 4 <= i < |e| ==> b[i - 4] == e[i]
    requires !a[0] && !a[1] && !a[2] && !a[3]
    ensures e == Zeros(|e|)
  {
    forall i | 0 <= i < |e| ensures !e[i] {
      if i >= 4 {
        assert b[i - 4] == e[i];
      }
    }
  }

  /** Damage to at most twelve consecutive bits across the border never fits. */
  lemma AcrossBorder(b: Bits, t: Bits, lo: nat, hi: nat)
    requires |t| == 16 && lo < |b| < hi <= |b| + 16 && hi - lo <= 12
    requires (forall i :: 0 <= i < lo ==> !b[i]) && (forall i :: hi - |b| <= i < 16 ==> !t[i]) && Fits(b, t)
    ensures b == Zeros(|b|) && t == Zeros(16)
  {
    var e := b[lo..];
    assert b == Zeros(lo) + e;
    Padded(e, lo);
    assert Fits(e, t);
    hide Fits, Divide, Poly;
    if |e| <= 3 {
      NearBorder(e, t);
    } else {
      FarBorder(e, t);
    }
    assert b == Zeros(|b|);
    TrailerOnly(|b|, t);
  }

  lemma AllClear(d: Bits)
    requires forall i :: 0 <= i < |d| ==> !d[i]
    ensures d == Zeros(|d|)
  {
  }

  /** Damage in one window that fits itself, of up to 16 bits inside the body, of any width inside the trailer, of up
      to 12 bits across the border, is no damage. */
  lemma WindowFits(b: Bits, t: Bits, lo: nat, hi: nat)
    requires |t| == 16 && lo <= hi <= |b| + 16 && Fits(b, t)
    requires (forall i :: 0 <= i < |b| && !(lo <= i < hi) ==> !b[i])
    requires (forall i :: 0 <= i < 16 && !(lo <= i + |b| < hi) ==> !t[i])
    requires (hi <= |b| && hi - lo <= 16) || lo >= |b| || hi - lo <= 12
    ensures b == Zeros(|b|) && t == Zeros(16)
  {
    hide Fits;
    if hi <= |b| {
      AllClear(t);
      BodyOnly(b, lo, hi);
    } else if lo >= |b| {
      AllClear(b);
      TrailerOnly(|b|, t);
    } else {
      AcrossBorder(b, t, lo, hi);
    }
  }

  /** No burst is taken for a good frame: of up to 16 bits inside the body, of any width inside the trailer, of up to
      12 bits across the border. */
  lemma BurstRejected(good: seq<bv8>, bad: seq<bv8>, lo: nat, hi: nat)
    requires Accepts(good) && bad != good && Agree(false, good, bad, lo, hi) && lo <= hi <= 8 * |good|
    requires (hi <= 8 * |good| - 16 && hi - lo <= 16) || lo >= 8 * |good| - 16 || hi - lo <= 12
    ensures !Accepts(bad)
  {
    if Accepts(bad) {
      DamageAcceptedIff(good, bad);
      FlipsOutside(good, bad, lo, hi);
      hide Accepts, Agree, Fits, BodyFlips, TrailerFlips;
      WindowFits(BodyFlips(good, bad), TrailerFlips(good, bad), lo, hi);
      NoFlips(good, bad);
    }
  }

  lemma FlipsOutside(x: seq<bv8>, y: seq<bv8>, lo: nat, hi: nat)
    requires Agree(false, x, y, lo, hi) && |x| >= 2
    ensures forall i :: 0 <= i < 8 * |x| - 16 && !(lo <= i < hi) ==> !BodyFlips(x, y)[i]
    ensures forall i :: 0 <= i < 16 && !(lo <= i + (8 * |x| - 16) < hi) ==> !TrailerFlips(x, y)[i]
  {
    FrameBits(x);
    FrameBits(y);
    hide MessageBits, ByteBits;
    SplitAgree(BodyBits(x), TrailerBits(x), BodyBits(y), TrailerBits(y), lo, hi);
  }

  lemma SplitAgree(a: Bits, t: Bits, b: Bits, u: Bits, lo: nat, hi: nat)
    requires |a| == |b| && |t| == |u|
    requires forall i :: 0 <= i < |a + t| && !(lo <= i < hi) ==> (a + t)[i] == (b + u)[i]
    ensures forall i :: 0 <= i < |a| && !(lo <= i < hi) ==> !Xor(a, b)[i]
    ensures forall i :: 0 <= i < |t| && !(lo <= i + |a| < hi) ==> !Xor(t, u)[i]
  {
    forall i | 0 <= i < |a| && !(lo <= i < hi) ensures a[i] == b[i] {
      assert (a + t)[i] == (b + u)[i];
    }
    forall i | 0 <= i < |t| && !(lo <= i + |a| < hi) ensures t[i] == u[i] {
      assert (a + t)[i + |a|] == (b + u)[i + |a|];
    }
  }

  // ----- thirteen bits are enough -----------------------------------------

  /** The frame with its last body bit flipped, and the polynomial over its CRC. */
  function Forged(good: seq<bv8>): (bad: seq<bv8>)
    requires |good| >= 5
    ensures |bad| == |good|
  {
    var n := |good|;
    good[..n - 3] + [Flip(good[n - 3], 0x01)] + [Flip(good[n - 2], 0x21), Flip(good[n - 1], 0x10)]
  }

  function Flip(d: bv8, e: bv8): bv8 { d ^ e }

  lemma ByteFlips(d: bv8, e: bv8)
    ensures Xor(ByteBits(false, d), ByteBits(false, Flip(d, e))) == ByteBits(false, e)
  {
    ByteLinear(false);
    WordXor(ByteMachine(false), d, e);
    hide Linear, Word;
    XorUndone(ByteBits(false, d), ByteBits(false, e));
  }

  lemma XorUndone(a: Bits, b: Bits)
    requires |a| == |b|
    ensures Xor(a, Xor(a, b)) == b
  {
  }

  lemma PolyBytes()
    ensures Swap(ByteBits(false, 0x21) + ByteBits(false, 0x10)) == Poly()
  {
    StoredWord([0x21, 0x10]);
  }

  lemma OneBit()
    ensures Divide(Poly(), Zeros(16), [true]) == Poly()
  {
    var p := Poly();
    hide Poly;
    assert Bit(p, Zeros(16), true) == p;
    assert [true][1..] == [];
  }

  lemma LastOnly()
    ensures ByteBits(false, 0x01) == Zeros(7) + [true]
  {
  }

  lemma XorJoin(a: Bits, b: Bits, c: Bits, d: Bits)
    requires |a| == |c| && |b| == |d|
    ensures Xor(a + b, c + d) == Xor(a, c) + Xor(b, d)
  {
  }

  lemma OneByte(d: bv8)
    ensures MessageBits(false, [d]) == ByteBits(false, d)
  {
    hide ByteBits;
    assert [d][..0] == [];
  }

  lemma BodyFlip(pre: seq<bv8>, d: bv8, e: bv8)
    ensures Xor(MessageBits(false, pre + [d]), MessageBits(false, pre + [e]))
            == Zeros(8 * |pre|) + Xor(ByteBits(false, d), ByteBits(false, e))
  {
    MessageBitsConcat(false, pre, [d]);
    MessageBitsConcat(false, pre, [e]);
    OneByte(d);
    OneByte(e);
    hide MessageBits, ByteBits;
    var m := MessageBits(false, pre);
    XorJoin(m, ByteBits(false, d), m, ByteBits(false, e));
    SelfXor(m);
  }

  /** Two frames that differ in their last three bytes. */
  lemma TailFlips(x: seq<bv8>, y: seq<bv8>, pre: seq<bv8>, a: seq<bv8>, b: seq<bv8>)
    requires |a| == |b| == 3 && x == pre + [a[0]] + [a[1], a[2]] && y == pre + [b[0]] + [b[1], b[2]]
    ensures BodyFlips(x, y) == Zeros(8 * |pre|) + Xor(ByteBits(false, a[0]), ByteBits(false, b[0]))
    ensures TrailerFlips(x, y)
            == Xor(ByteBits(false, a[1]), ByteBits(false, b[1])) + Xor(ByteBits(false, a[2]), ByteBits(false, b[2]))
  {
    hide ByteBits, MessageBits;
    assert Body(x) == pre + [a[0]] && Body(y) == pre + [b[0]];
    BodyFlip(pre, a[0], b[0]);
    XorJoin(ByteBits(false, a[1]), ByteBits(false, a[2]), ByteBits(false, b[1]), ByteBits(false, b[2]));
  }

  lemma ForgedFlips(good: seq<bv8>)
    requires |good| >= 5
    ensures TrailerFlips(good, Forged(good)) == ByteBits(false, 0x21) + ByteBits(false, 0x10)
    ensures BodyFlips(good, Forged(good)) == Zeros(8 * |good| - 17) + [true]
  {
    LastOnly();
    hide ByteBits, MessageBits, BodyFlips, TrailerFlips, Flip;
    var n := |good|;
    var a := good[n - 3..];
    var b := [Flip(a[0], 0x01), Flip(a[1], 0x21), Flip(a[2], 0x10)];
    ByteFlips(a[0], 0x01);
    ByteFlips(a[1], 0x21);
    ByteFlips(a[2], 0x10);
    LastThree(good);
    TailFlips(good, Forged(good), good[..n - 3], a, b);
    MoreZeros(8 * (n - 3), 7, [true]);
  }

  lemma MoreZeros(a: nat, b: nat, x: Bits)
    ensures Zeros(a) + (Zeros(b) + x) == Zeros(a + b) + x
  {
  }

  lemma LastThree(x: seq<bv8>)
    requires |x| >= 3
    ensures var a := x[|x| - 3..]; |a| == 3 && x == x[..|x| - 3] + [a[0]] + [a[1], a[2]]
  {
  }

  /** Every accepted frame has a forgery that is accepted too, and differs from it only in thirteen consecutive bits
      across the border; twelve are always noticed. */
  lemma ThirteenBitsPass(good: seq<bv8>)
    requires Accepts(good) && |good| >= 5
    ensures var bad, lo := Forged(good), 8 * |good| - 17;
            Accepts(bad) && bad != good && Agree(false, good, bad, lo, lo + 13)
  {
    var bad := Forged(good);
    ForgedFits(good);
    ForgedDiffers(good);
    ForgedWindow(good);
    hide Fits, Accepts, Agree, BodyFlips, TrailerFlips, Forged, Magic;
    MagicOf(good);
    DamageAcceptedIff(good, bad);
  }

  lemma MagicOf(good: seq<bv8>)
    requires Accepts(good) && |good| >= 5
    ensures Magic(Forged(good))
  {
    hide Crc;
  }

  lemma ForgedDiffers(good: seq<bv8>)
    requires |good| >= 5
    ensures Forged(good) != good
  {
    FlippedByte(good[|good| - 3]);
    hide Flip;
    assert Forged(good)[|good| - 3] == Flip(good[|good| - 3], 0x01);
  }

  lemma FlippedByte(d: bv8)
    ensures Flip(d, 0x01) != d
  {
  }

  lemma LastFlipFits(n: nat, t: Bits)
    requires |t| == 16 && Swap(t) == Poly()
    ensures Fits(Zeros(n) + [true], t)
  {
    Padded([true], n);
    OneBit();
    hide Divide, Swap, Poly;
  }

  lemma ForgedFits(good: seq<bv8>)
    requires |good| >= 5
    ensures Fits(BodyFlips(good, Forged(good)), TrailerFlips(good, Forged(good)))
  {
    hide Fits, ByteBits, BodyFlips, TrailerFlips, Poly, Forged, Swap, Zeros;
    ForgedFlips(good);
    var t := TrailerFlips(good, Forged(good));
    assert Swap(t) == Poly() by {
      PolyBytes();
    }
    LastFlipFits(8 * |good| - 17, t);
  }

  /** Equal but for the thirteen bits from the one before bit `n`. */
  predicate ThirteenOnly(x: Bits, y: Bits, n: nat) {
    |x| == |y| == n + 16 && forall i :: 0 <= i < n + 16 && !(n - 1 <= i < n + 12) ==> x[i] == y[i]
  }

  /** The last four bits are clear. */
  predicate ClearEnd(t: Bits) {
    |t| == 16 && forall i :: 12 <= i < 16 ==> !t[i]
  }

  lemma ForgedWindow(good: seq<bv8>)
    requires |good| >= 5
    ensures Agree(false, good, Forged(good), 8 * |good| - 17, 8 * |good| - 4)
  {
    hide Agree, Forged, MessageBits, ByteBits, BodyBits, TrailerBits, ThirteenOnly, ClearEnd, Xor;
    var bad, n := Forged(good), 8 * |good| - 16;
    ForgedFlips(good);
    TrailerEnds();
    FrameBits(good);
    FrameBits(bad);
    ThirteenApart(BodyBits(good), TrailerBits(good), BodyBits(bad), TrailerBits(bad), n);
    WindowAgrees(good, bad, BodyBits(good) + TrailerBits(good), BodyBits(bad) + TrailerBits(bad), n);
  }

  lemma WindowAgrees(good: seq<bv8>, bad: seq<bv8>, x: Bits, y: Bits, n: nat)
    requires |good| == |bad| && n + 16 == 8 * |good| && n > 0
    requires MessageBits(false, good) == x && MessageBits(false, bad) == y && ThirteenOnly(x, y, n)
    ensures Agree(false, good, bad, n - 1, n + 12)
  {
    hide MessageBits;
  }

  lemma ThirteenApart(a: Bits, t: Bits, b: Bits, u: Bits, n: nat)
    requires |a| == |b| == n > 0 && |t| == |u| == 16
    requires Xor(a, b) == Zeros(n - 1) + [true] && ClearEnd(Xor(t, u))
    ensures ThirteenOnly(a + t, b + u, n)
  {
    forall i | 0 <= i < n - 1 ensures a[i] == b[i] {
      assert !Xor(a, b)[i];
    }
    forall i | 12 <= i < 16 ensures t[i] == u[i] {
      assert !Xor(t, u)[i];
    }
  }

  lemma TrailerEnds()
    ensures ClearEnd(ByteBits(false, 0x21) + ByteBits(false, 0x10))
  {
    PolyIs();
    PolyBytes();
    hide ByteBits, Poly;
    var t := ByteBits(false, 0x21) + ByteBits(false, 0x10);
    assert Swap(t)[4] == t[12] && Swap(t)[5] == t[13] && Swap(t)[6] == t[14] && Swap(t)[7] == t[15];
  }
}
