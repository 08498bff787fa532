/** Polynomial division over bits: one development for registers of any width, bits in the order they leave. */
module Division {
  import opened Bytes

  type Bits = seq<bool>

  function Xor(a: Bits, b: Bits): (r: Bits)
    requires |a| == |b|
    ensures |r| == |a| && forall i :: 0 <= i < |a| ==> r[i] == (a[i] != b[i])
  {
    seq(|a|, i requires 0 <= i < |a| => a[i] != b[i])
  }

  function Zeros(n: nat): (r: Bits)
    ensures |r| == n && forall i :: 0 <= i < n ==> !r[i]
  {
    seq(n, _ => false)
  }

  // ----- the register -----------------------------------------------------

  function Shift(c: Bits): (r: Bits)
    requires c != []
    ensures |r| == |c| && forall i :: 0 <= i < |c| ==> r[i] == (i < |c| - 1 && c[i + 1])
  {
    c[1..] + [false]
  }

  /** One message bit: when it differs from the bit leaving, the polynomial `p` is subtracted. */
  function Bit(p: Bits, c: Bits, b: bool): (r: Bits)
    requires |p| == |c| > 0
    ensures |r| == |c|
  {
    if c[0] != b then Xor(Shift(c), p) else Shift(c)
  }

  function Divide(p: Bits, c: Bits, msg: Bits): (r: Bits)
    requires |p| == |c| > 0
    ensures |r| == |c|
    decreases |msg|
  {
    if msg == [] then c else Divide(p, Bit(p, c, msg[0]), msg[1..])
  }

  lemma {:induction false} DivideConcat(p: Bits, c: Bits, a: Bits, b: Bits)
    requires |p| == |c| > 0
    ensures Divide(p, c, a + b) == Divide(p, Divide(p, c, a), b)
    decreases |a|
  {
    if a == [] {
      assert a + b == b;
    } else {
      hide Bit;
      assert (a + b)[1..] == a[1..] + b;
      DivideConcat(p, Bit(p, c, a[0]), a[1..], b);
    }
  }

  // ----- linearity --------------------------------------------------------

  lemma BitLinear(p: Bits, c: Bits, d: Bits, a: bool, b: bool)
    requires |p| == |c| == |d| > 0
    ensures Bit(p, Xor(c, d), a != b) == Xor(Bit(p, c, a), Bit(p, d, b))
  {
  }

  lemma XorTail(a: Bits, b: Bits)
    requires |a| == |b| > 0
    ensures Xor(a, b)[1..] == Xor(a[1..], b[1..])
  {
  }

  /** Remainders add bit by bit, as the messages and the starting registers do. */
  lemma {:induction false} DivideLinear(p: Bits, c: Bits, d: Bits, a: Bits, b: Bits)
    requires |p| == |c| == |d| > 0 && |a| == |b|
    ensures Divide(p, Xor(c, d), Xor(a, b)) == Xor(Divide(p, c, a), Divide(p, d, b))
    decreases |a|
  {
    if a != [] {
      BitLinear(p, c, d, a[0], b[0]);
      XorTail(a, b);
      hide Bit;
      DivideLinear(p, Bit(p, c, a[0]), Bit(p, d, b[0]), a[1..], b[1..]);
    }
  }

  lemma BitFeeds(p: Bits, c: Bits, b: Bits)
    requires |p| == |c| && 0 < |b| <= |c|
    ensures Bit(p, Xor(c, b + Zeros(|c| - |b|)), false)
            == Xor(Bit(p, c, b[0]), b[1..] + Zeros(|c| - |b[1..]|))
  {
    var x, y := b + Zeros(|c| - |b|), b[1..] + Zeros(|c| - |b[1..]|);
    assert Shift(x) == y;
    assert Xor(c, x)[0] == (c[0] != b[0]);
    hide Xor, Zeros, Shift;
    ShiftXor(c, x);
    XorSwap(Shift(c), y, p);
  }

  lemma ShiftXor(a: Bits, b: Bits)
    requires |a| == |b| > 0
    ensures Shift(Xor(a, b)) == Xor(Shift(a), Shift(b))
  {
  }

  lemma XorSwap(a: Bits, b: Bits, p: Bits)
    requires |a| == |b| == |p|
    ensures Xor(Xor(a, b), p) == Xor(Xor(a, p), b)
  {
  }

  /** Bits XOR-ed into the front of the register and shifted through are a message fed in one by one. */
  lemma {:induction false} Feed(p: Bits, c: Bits, b: Bits)
    requires |p| == |c| > 0 && |b| <= |c|
    ensures Divide(p, Xor(c, b + Zeros(|c| - |b|)), Zeros(|b|)) == Divide(p, c, b)
    decreases |b|
  {
    if b == [] {
      assert Xor(c, b + Zeros(|c|)) == c;
    } else {
      BitFeeds(p, c, b);
      assert Zeros(|b|)[1..] == Zeros(|b[1..]|);
      hide Bit, Xor, Zeros;
      Feed(p, Bit(p, c, b[0]), b[1..]);
    }
  }

  // ----- bursts -----------------------------------------------------------

  lemma ZeroBit(p: Bits, c: Bits)
    requires |p| == |c| > 0 && p[|p| - 1] && Bit(p, c, false) == Zeros(|c|)
    ensures c == Zeros(|c|)
  {
    assert Bit(p, c, false)[|c| - 1] == c[0];
    forall i | 0 < i < |c| ensures !c[i] {
      assert Shift(c)[i - 1] == c[i];
    }
  }

  /** Shifting never loses a remainder: the polynomial's last tap is set. */
  lemma {:induction false} ZeroStays(p: Bits, c: Bits, n: nat)
    requires |p| == |c| > 0 && p[|p| - 1] && Divide(p, c, Zeros(n)) == Zeros(|c|)
    ensures c == Zeros(|c|)
    decreases n
  {
    if n > 0 {
      assert Zeros(n)[1..] == Zeros(n - 1);
      hide Bit, Zeros;
      ZeroStays(p, Bit(p, c, false), n - 1);
      ZeroBit(p, c);
    }
  }

  lemma {:induction false} NothingDivides(p: Bits, n: nat)
    requires |p| > 0
    ensures Divide(p, Zeros(|p|), Zeros(n)) == Zeros(|p|)
    decreases n
  {
    if n > 0 {
      assert Zeros(n)[1..] == Zeros(n - 1);
      assert Bit(p, Zeros(|p|), false) == Zeros(|p|);
      NothingDivides(p, n - 1);
    }
  }

  /** A message no longer than the register has remainder zero only if it is zero. */
  lemma ShortRemainder(p: Bits, d: Bits)
    requires |d| <= |p| && 0 < |p| && p[|p| - 1] && Divide(p, Zeros(|p|), d) == Zeros(|p|)
    ensures d == Zeros(|d|)
  {
    hide Divide, Bit;
    var e := d + Zeros(|p| - |d|);
    FromZero(e);
    Feed(p, Zeros(|p|), d);
    hide Xor;
    ZeroStays(p, e, |d|);
    Front(d, |p| - |d|);
  }

  lemma FromZero(e: Bits)
    ensures Xor(Zeros(|e|), e) == e
  {
  }

  lemma Front(d: Bits, n: nat)
    requires d + Zeros(n) == Zeros(|d| + n)
    ensures d == Zeros(|d|)
  {
    forall i | 0 <= i < |d| ensures !d[i] {
      assert (d + Zeros(n))[i] == d[i];
    }
  }

  /** The damage between two messages. */
  lemma Damage(p: Bits, c: Bits, x: Bits, y: Bits)
    requires |p| == |c| > 0 && |x| == |y|
    ensures Xor(Divide(p, c, x), Divide(p, c, y)) == Divide(p, Zeros(|c|), Xor(x, y))
  {
    DivideLinear(p, c, c, x, y);
    assert Xor(c, c) == Zeros(|c|);
  }

  /** Zeros in front of a message change nothing; zeros behind it only shift. */
  lemma Framed(p: Bits, a: nat, d: Bits, b: nat)
    requires |p| > 0
    ensures Divide(p, Zeros(|p|), Zeros(a) + d + Zeros(b)) == Divide(p, Divide(p, Zeros(|p|), d), Zeros(b))
  {
    hide Bit;
    DivideConcat(p, Zeros(|p|), Zeros(a) + d, Zeros(b));
    DivideConcat(p, Zeros(|p|), Zeros(a), d);
    NothingDivides(p, a);
  }

  lemma Differs(x: Bits, y: Bits)
    requires |x| == |y|
    ensures Xor(x, y) == Zeros(|x|) <==> x == y
  {
    if Xor(x, y) == Zeros(|x|) {
      forall i | 0 <= i < |x| ensures x[i] == y[i] {
        assert !Xor(x, y)[i];
      }
    }
  }

  /** Damage confined to a window is that window between zeros. */
  lemma Confined(x: Bits, y: Bits, lo: nat, hi: nat)
    requires |x| == |y| && lo <= hi <= |x|
    requires forall i :: 0 <= i < |x| && !(lo <= i < hi) ==> x[i] == y[i]
    ensures Xor(x, y) == Zeros(lo) + Xor(x, y)[lo..hi] + Zeros(|x| - hi)
  {
  }

  /** Messages that may differ only within a window no wider than the register share a remainder only if equal. */
  lemma BurstDetected(p: Bits, c: Bits, x: Bits, y: Bits, lo: nat, hi: nat)
    requires |p| == |c| > 0 && p[|p| - 1] && |x| == |y|
    requires lo <= hi <= |x| && hi - lo <= |p|
    requires forall i :: 0 <= i < |x| && !(lo <= i < hi) ==> x[i] == y[i]
    ensures Divide(p, c, x) == Divide(p, c, y) <==> x == y
  {
    if Divide(p, c, x) == Divide(p, c, y) {
      hide Divide;
      var d := Xor(x, y)[lo..hi];
      Damage(p, c, x, y);
      Differs(Divide(p, c, x), Divide(p, c, y));
      Confined(x, y, lo, hi);
      Framed(p, lo, d, |x| - hi);
      ZeroStays(p, Divide(p, Zeros(|p|), d), |x| - hi);
      ShortRemainder(p, d);
      AllZeros(lo, hi - lo, |x| - hi);
      Differs(x, y);
    }
  }

  lemma AllZeros(a: nat, b: nat, c: nat)
    ensures Zeros(a) + Zeros(b) + Zeros(c) == Zeros(a + b + c)
  {
  }

  // ----- machine words ----------------------------------------------------

  /** A word type with the shift a CRC uses; `out` is the bit about to leave. */
  datatype Machine<!R> = Machine(width: nat, zero: R, out: R -> bool, shift: R -> R, xor: (R, R) -> R)

  function Iterate<R>(f: R -> R, c: R, n: nat): R
    decreases n
  {
    if n == 0 then c else Iterate(f, f(c), n - 1)
  }

  lemma {:induction false} IteratePlus<R>(f: R -> R, c: R, m: nat, n: nat)
    ensures Iterate(f, c, m + n) == Iterate(f, Iterate(f, c, m), n)
    decreases m
  {
    if m > 0 {
      IteratePlus(f, f(c), m - 1, n);
    }
  }

  /** XOR works bit by bit. */
  ghost predicate Linear<R(!new)>(m: Machine<R>) {
    forall a: R, b: R ::
      && m.out(m.xor(a, b)) == (m.out(a) != m.out(b))
      && m.shift(m.xor(a, b)) == m.xor(m.shift(a), m.shift(b))
  }

  /** A word shifted `width` times is empty, and stays so. */
  ghost predicate Empties<R(!new)>(m: Machine<R>) {
    && m.width > 0 && !m.out(m.zero) && m.shift(m.zero) == m.zero
    && forall a: R :: Iterate(m.shift, a, m.width) == m.zero
  }

  /** Shifting loses only the bit that leaves. */
  ghost predicate Faithful<R(!new)>(m: Machine<R>) {
    forall a: R, b: R :: m.shift(a) == m.shift(b) && m.out(a) == m.out(b) ==> a == b
  }

  /** The next `n` bits to leave a word. */
  function Read<R>(m: Machine<R>, c: R, n: nat): (r: Bits)
    ensures |r| == n
    decreases n
  {
    if n == 0 then [] else [m.out(c)] + Read(m, m.shift(c), n - 1)
  }

  function Word<R>(m: Machine<R>, c: R): (r: Bits)
    ensures |r| == m.width
  {
    Read(m, c, m.width)
  }

  lemma {:induction false} ReadXor<R(!new)>(m: Machine<R>, a: R, b: R, n: nat)
    requires Linear(m)
    ensures Read(m, m.xor(a, b), n) == Xor(Read(m, a, n), Read(m, b, n))
    decreases n
  {
    if n > 0 {
      ReadXor(m, m.shift(a), m.shift(b), n - 1);
    }
  }

  lemma {:induction false} ReadZero<R(!new)>(m: Machine<R>, n: nat)
    requires Empties(m)
    ensures Read(m, m.zero, n) == Zeros(n)
    decreases n
  {
    if n > 0 {
      ReadZero(m, n - 1);
    }
  }

  lemma {:induction false} ReadPlus<R>(m: Machine<R>, c: R, a: nat, b: nat)
    ensures Read(m, c, a + b) == Read(m, c, a) + Read(m, Iterate(m.shift, c, a), b)
    decreases a
  {
    if a > 0 {
      ReadPlus(m, m.shift(c), a - 1, b);
    }
  }

  lemma WordShift<R(!new)>(m: Machine<R>, c: R)
    requires Empties(m)
    ensures Word(m, m.shift(c)) == Shift(Word(m, c)) && Word(m, c)[0] == m.out(c)
  {
    var w := m.width;
    ReadPlus(m, c, w, 1);
    ReadZero(m, 1);
    ReadFirst(m, c, w + 1);
    ReadFirst(m, c, w);
    hide Read;
    var all := Read(m, c, w + 1);
    assert all == Word(m, c) + Zeros(1);
    assert all[1..] == Word(m, c)[1..] + Zeros(1);
  }

  lemma {:induction false} ReadDetermines<R(!new)>(m: Machine<R>, a: R, b: R, n: nat)
    requires Faithful(m) && Read(m, a, n) == Read(m, b, n) && Iterate(m.shift, a, n) == Iterate(m.shift, b, n)
    ensures a == b
    decreases n
  {
    if n > 0 {
      ReadFirst(m, a, n);
      ReadFirst(m, b, n);
      hide Read;
      ReadDetermines(m, m.shift(a), m.shift(b), n - 1);
    }
  }

  lemma ReadFirst<R>(m: Machine<R>, c: R, n: nat)
    requires n > 0
    ensures Read(m, c, n)[0] == m.out(c) && Read(m, c, n)[1..] == Read(m, m.shift(c), n - 1)
  {
  }

  lemma WordDetermines<R(!new)>(m: Machine<R>, a: R, b: R)
    requires Empties(m) && Faithful(m)
    ensures Word(m, a) == Word(m, b) <==> a == b
  {
    if Word(m, a) == Word(m, b) {
      ReadDetermines(m, a, b, m.width);
    }
  }

  /** The shift-and-subtract step every CRC here repeats. */
  function Step<R>(m: Machine<R>, p: R, c: R): R {
    if m.out(c) then m.xor(m.shift(c), p) else m.shift(c)
  }

  lemma StepDivides<R(!new)>(m: Machine<R>, p: R, c: R)
    requires Linear(m) && Empties(m)
    ensures Word(m, Step(m, p, c)) == Bit(Word(m, p), Word(m, c), false)
  {
    WordShift(m, c);
    ReadXor(m, m.shift(c), p, m.width);
  }

  function Steps<R>(m: Machine<R>, p: R, c: R, n: nat): R
    decreases n
  {
    if n == 0 then c else Steps(m, p, Step(m, p, c), n - 1)
  }

  lemma {:induction false} StepsDivide<R(!new)>(m: Machine<R>, p: R, c: R, n: nat)
    requires Linear(m) && Empties(m)
    ensures Word(m, Steps(m, p, c, n)) == Divide(Word(m, p), Word(m, c), Zeros(n))
    decreases n
  {
    if n > 0 {
      StepDivides(m, p, c);
      assert Zeros(n)[1..] == Zeros(n - 1);
      hide Bit, Word, Linear, Empties, Step;
      StepsDivide(m, p, Step(m, p, c), n - 1);
    }
  }

  lemma {:induction false} StepsPlus<R>(m: Machine<R>, p: R, c: R, a: nat, b: nat)
    ensures Steps(m, p, c, a + b) == Steps(m, p, Steps(m, p, c, a), b)
    decreases a
  {
    if a > 0 {
      StepsPlus(m, p, Step(m, p, c), a - 1, b);
    }
  }

  /** Steps add bit by bit, like everything else here. */
  lemma StepsXor<R(!new)>(m: Machine<R>, p: R, a: R, b: R, n: nat)
    requires Linear(m) && Empties(m) && Faithful(m)
    ensures Steps(m, p, m.xor(a, b), n) == m.xor(Steps(m, p, a, n), Steps(m, p, b, n))
  {
    var x, y := Steps(m, p, a, n), Steps(m, p, b, n);
    StepsDivide(m, p, m.xor(a, b), n);
    StepsDivide(m, p, a, n);
    StepsDivide(m, p, b, n);
    ReadXor(m, a, b, m.width);
    ReadXor(m, x, y, m.width);
    WordDetermines(m, Steps(m, p, m.xor(a, b), n), m.xor(x, y));
    hide Steps, Divide, Linear, Empties, Faithful, Read;
    DivideLinear(Word(m, p), Word(m, a), Word(m, b), Zeros(n), Zeros(n));
    FromZero(Zeros(n));
  }

  lemma WordXor<R(!new)>(m: Machine<R>, a: R, b: R)
    requires Linear(m)
    ensures Word(m, m.xor(a, b)) == Xor(Word(m, a), Word(m, b))
  {
    ReadXor(m, a, b, m.width);
  }

  lemma XorAssoc<R(!new)>(m: Machine<R>, a: R, b: R, c: R)
    requires Linear(m) && Empties(m) && Faithful(m)
    ensures m.xor(a, m.xor(b, c)) == m.xor(m.xor(a, b), c)
  {
    WordDetermines(m, m.xor(a, m.xor(b, c)), m.xor(m.xor(a, b), c));
    hide Empties, Faithful, Word, Xor;
    WordXor(m, b, c);
    WordXor(m, a, b);
    WordXor(m, a, m.xor(b, c));
    WordXor(m, m.xor(a, b), c);
    hide Linear;
    BitsAssoc(Word(m, a), Word(m, b), Word(m, c));
  }

  lemma BitsAssoc(a: Bits, b: Bits, c: Bits)
    requires |a| == |b| == |c|
    ensures Xor(a, Xor(b, c)) == Xor(Xor(a, b), c)
  {
  }

  // ----- bytes ------------------------------------------------------------

  predicate Highest(d: bv8) { d & 0x80 != 0 }
  predicate Lowest(d: bv8) { d & 1 != 0 }
  function LeftByte(d: bv8): bv8 { d << 1 }
  function RightByte(d: bv8): bv8 { d >> 1 }
  function MixBytes(a: bv8, b: bv8): bv8 { a ^ b }

  /** A byte sent least or most significant bit first. */
  function ByteMachine(lsb: bool): Machine<bv8> {
    if lsb then Machine(8, 0, Lowest, RightByte, MixBytes) else Machine(8, 0, Highest, LeftByte, MixBytes)
  }

  lemma BytesLeft(a: bv8, b: bv8)
    ensures LeftByte(MixBytes(a, b)) == MixBytes(LeftByte(a), LeftByte(b))
  {
  }

  lemma BytesRight(a: bv8, b: bv8)
    ensures RightByte(MixBytes(a, b)) == MixBytes(RightByte(a), RightByte(b))
  {
  }

  lemma BytesHighest(a: bv8, b: bv8)
    ensures Highest(MixBytes(a, b)) == (Highest(a) != Highest(b))
  {
  }

  lemma BytesLowest(a: bv8, b: bv8)
    ensures Lowest(MixBytes(a, b)) == (Lowest(a) != Lowest(b))
  {
  }

  lemma ByteLinear(lsb: bool)
    ensures Linear(ByteMachine(lsb))
  {
    hide MixBytes, LeftByte, RightByte, Highest, Lowest;
    var m := ByteMachine(lsb);
    forall a: bv8, b: bv8
      ensures m.out(m.xor(a, b)) == (m.out(a) != m.out(b)) && m.shift(m.xor(a, b)) == m.xor(m.shift(a), m.shift(b))
    {
      BytesLeft(a, b);
      BytesRight(a, b);
      BytesHighest(a, b);
      BytesLowest(a, b);
    }
  }

  lemma ByteFaithful(lsb: bool)
    ensures Faithful(ByteMachine(lsb))
  {
  }

  lemma ByteEmpties(lsb: bool)
    ensures Empties(ByteMachine(lsb))
  {
    var m := ByteMachine(lsb);
    forall a: bv8 ensures Iterate(m.shift, a, m.width) == m.zero {
      IteratePlus(m.shift, a, 4, 4);
      var h := Iterate(m.shift, a, 4);
      assert h == if lsb then a >> 4 else a << 4;
      assert Iterate(m.shift, h, 4) == if lsb then h >> 4 else h << 4;
    }
  }

  function ByteBits(lsb: bool, d: bv8): (r: Bits)
    ensures |r| == 8
  {
    Word(ByteMachine(lsb), d)
  }

  function MessageBits(lsb: bool, data: seq<bv8>): (r: Bits)
    ensures |r| == 8 * |data|
  {
    if data == [] then [] else MessageBits(lsb, data[..|data| - 1]) + ByteBits(lsb, data[|data| - 1])
  }

  lemma LastByte(lsb: bool, x: seq<bv8>)
    requires x != []
    ensures MessageBits(lsb, x)[..8 * |x| - 8] == MessageBits(lsb, x[..|x| - 1])
    ensures MessageBits(lsb, x)[8 * |x| - 8..] == ByteBits(lsb, x[|x| - 1])
  {
    hide ByteBits;
  }

  lemma {:induction false} BitsDetermine(lsb: bool, x: seq<bv8>, y: seq<bv8>)
    requires |x| == |y| && MessageBits(lsb, x) == MessageBits(lsb, y)
    ensures x == y
  {
    if x != [] {
      LastByte(lsb, x);
      LastByte(lsb, y);
      ByteDetermines(lsb, x[|x| - 1], y[|y| - 1]);
      hide ByteBits, MessageBits;
      BitsDetermine(lsb, x[..|x| - 1], y[..|y| - 1]);
      Snoc(x);
      Snoc(y);
    }
  }

  lemma ByteDetermines(lsb: bool, d: bv8, e: bv8)
    requires ByteBits(lsb, d) == ByteBits(lsb, e)
    ensures d == e
  {
    ByteEmpties(lsb);
    ByteFaithful(lsb);
    hide Empties, Faithful, Word, ByteMachine;
    WordDetermines(ByteMachine(lsb), d, e);
  }

  lemma {:induction false} MessageBitsConcat(lsb: bool, x: seq<bv8>, y: seq<bv8>)
    ensures MessageBits(lsb, x + y) == MessageBits(lsb, x) + MessageBits(lsb, y)
  {
    if y == [] {
      assert x + y == x;
    } else {
      var n := |y| - 1;
      assert (x + y)[..|x + y| - 1] == x + y[..n];
      MessageBitsConcat(lsb, x, y[..n]);
      hide ByteBits;
      JoinAssoc(MessageBits(lsb, x), MessageBits(lsb, y[..n]), ByteBits(lsb, y[n]));
    }
  }

  // ----- running over a message, byte by byte -----------------------------

  function Fold<R>(step: (R, bv8) -> R, c: R, data: seq<bv8>): R {
    if data == [] then c else step(Fold(step, c, data[..|data| - 1]), data[|data| - 1])
  }

  lemma {:induction false} FoldConcat<R>(step: (R, bv8) -> R, c: R, a: seq<bv8>, b: seq<bv8>)
    ensures Fold(step, c, a + b) == Fold(step, Fold(step, c, a), b)
  {
    if b == [] {
      assert a + b == a;
    } else {
      var n := |b| - 1;
      assert (a + b)[..|a + b| - 1] == a + b[..n];
      FoldConcat(step, c, a, b[..n]);
    }
  }

  lemma FoldSnoc<R>(step: (R, bv8) -> R, c: R, data: seq<bv8>, i: nat)
    requires i < |data|
    ensures Fold(step, c, data[..i + 1]) == step(Fold(step, c, data[..i]), data[i])
  {
    assert data[..i + 1][..i] == data[..i];
  }

  /** The byte step divides by the byte's bits. */
  ghost predicate Consumes<R(!new)>(m: Machine<R>, p: R, lsb: bool, step: (R, bv8) -> R) {
    && Linear(m) && Empties(m) && Word(m, p)[m.width - 1]
    && forall c: R, d: bv8 :: Word(m, step(c, d)) == Divide(Word(m, p), Word(m, c), ByteBits(lsb, d))
  }

  /** `put` lays a byte where its bits leave the word first. */
  ghost predicate Embeds<R(!new)>(m: Machine<R>, lsb: bool, put: bv8 -> R) {
    var b := ByteMachine(lsb);
    && m.width >= 8 && put(0) == m.zero
    && forall d: bv8 :: m.out(put(d)) == b.out(d) && m.shift(put(d)) == put(b.shift(d))
  }

  lemma {:induction false} ReadEmbedded<R(!new)>(m: Machine<R>, lsb: bool, put: bv8 -> R, d: bv8, n: nat)
    requires Embeds(m, lsb, put)
    ensures var b := ByteMachine(lsb);
            Read(m, put(d), n) == Read(b, d, n) && Iterate(m.shift, put(d), n) == put(Iterate(b.shift, d, n))
    decreases n
  {
    if n > 0 {
      ReadEmbedded(m, lsb, put, ByteMachine(lsb).shift(d), n - 1);
    }
  }

  lemma WordEmbedded<R(!new)>(m: Machine<R>, lsb: bool, put: bv8 -> R, d: bv8)
    requires Empties(m) && Embeds(m, lsb, put)
    ensures Word(m, put(d)) == ByteBits(lsb, d) + Zeros(m.width - 8)
  {
    ReadEmbedded(m, lsb, put, d, 8);
    ByteEmpties(lsb);
    ReadPlus(m, put(d), 8, m.width - 8);
    ReadZero(m, m.width - 8);
    hide Read, Iterate;
  }

  /** XOR the byte in, then eight steps. */
  lemma ByteDivides<R(!new)>(m: Machine<R>, p: R, c: R, lsb: bool, put: bv8 -> R, d: bv8)
    requires Linear(m) && Empties(m) && Embeds(m, lsb, put)
    ensures Word(m, Steps(m, p, m.xor(c, put(d)), 8)) == Divide(Word(m, p), Word(m, c), ByteBits(lsb, d))
  {
    WordEmbedded(m, lsb, put, d);
    ReadXor(m, c, put(d), m.width);
    StepsDivide(m, p, m.xor(c, put(d)), 8);
    hide Divide, ByteBits, Linear, Empties, Read, Steps;
    Feed(Word(m, p), Word(m, c), ByteBits(lsb, d));
  }

  lemma WordLast<R>(m: Machine<R>, c: R)
    requires m.width > 0
    ensures Word(m, c)[m.width - 1] == m.out(Iterate(m.shift, c, m.width - 1))
  {
    ReadPlus(m, c, m.width - 1, 1);
  }

  lemma {:induction false} FoldDivides<R(!new)>(m: Machine<R>, p: R, lsb: bool, step: (R, bv8) -> R, c: R, data: seq<bv8>)
    requires Consumes(m, p, lsb, step)
    ensures Word(m, Fold(step, c, data)) == Divide(Word(m, p), Word(m, c), MessageBits(lsb, data))
  {
    if data != [] {
      hide ByteBits, Word, Linear, Empties;
      var n := |data| - 1;
      FoldDivides(m, p, lsb, step, c, data[..n]);
      DivideConcat(Word(m, p), Word(m, c), MessageBits(lsb, data[..n]), ByteBits(lsb, data[n]));
    }
  }

  /** Two messages agree outside the bits lo..hi. */
  predicate Agree(lsb: bool, x: seq<bv8>, y: seq<bv8>, lo: nat, hi: nat) {
    |x| == |y| && forall i :: 0 <= i < 8 * |x| && !(lo <= i < hi) ==> MessageBits(lsb, x)[i] == MessageBits(lsb, y)[i]
  }

  /** Messages that agree outside a window no wider than the register share a checksum only if equal. */
  lemma WindowDetected<R(!new)>(m: Machine<R>, p: R, lsb: bool, step: (R, bv8) -> R, c: R,
                                x: seq<bv8>, y: seq<bv8>, lo: nat, hi: nat)
    requires Consumes(m, p, lsb, step) && Agree(lsb, x, y, lo, hi)
    requires lo <= hi <= 8 * |x| && hi - lo <= m.width
    ensures Fold(step, c, x) == Fold(step, c, y) <==> x == y
  {
    FoldDivides(m, p, lsb, step, c, x);
    FoldDivides(m, p, lsb, step, c, y);
    BurstDetected(Word(m, p), Word(m, c), MessageBits(lsb, x), MessageBits(lsb, y), lo, hi);
    hide Divide, Word, Fold, MessageBits, Linear, Empties;
    if Fold(step, c, x) == Fold(step, c, y) {
      BitsDetermine(lsb, x, y);
    }
  }
}
