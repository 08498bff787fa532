/** CRC-32/ISO-HDLC by a 16-entry nibble table, as the archive and firmware paths use it. */
module Crc32 {
  import opened Division

  const POLY: bv32 := 0xEDB88320

  predicate Out(c: bv32) { c & 1 != 0 }
  function Right(c: bv32): bv32 { c >> 1 }
  function Mix(a: bv32, b: bv32): bv32 { a ^ b }
  function Low(d: bv8): bv32 { d as bv32 }

  /** The reflected register: bits leave at the low end. */
  function Register(): Machine<bv32> {
    Machine(32, 0, Out, Right, Mix)
  }

  // ----- the code's byte step ---------------------------------------------

  /** The 16-entry table of crc32_update. */
  function Table(n: bv32): bv32 {
    if n == 0 then 0x00000000
    else if n == 1 then 0x1db71064
    else if n == 2 then 0x3b6e20c8
    else if n == 3 then 0x26d930ac
    else if n == 4 then 0x76dc4190
    else if n == 5 then 0x6b6b51f4
    else if n == 6 then 0x4db26158
    else if n == 7 then 0x5005713c
    else if n == 8 then 0xedb88320
    else if n == 9 then 0xf00f9344
    else if n == 10 then 0xd6d6a3e8
    else if n == 11 then 0xcb61b38c
    else if n == 12 then 0x9b64c2b0
    else if n == 13 then 0x86d3d2d4
    else if n == 14 then 0xa00ae278
    else 0xbdbdf21c
  }

  function Shift4(c: bv32): bv32 { c >> 4 }
  function Low4(c: bv32): bv32 { c & 0xF }
  function High28(c: bv32): bv32 { c & 0xFFFF_FFF0 }

  /** One table lookup. */
  function Nibble(c: bv32, x: bv32): bv32 {
    Mix(Table(Low4(Mix(c, x))), Shift4(c))
  }

  /** Two lookups, low nibble first. */
  function ByteStep(c: bv32, d: bv8): bv32 {
    Nibble(Nibble(c, Low(d)), Low(d >> 4))
  }

  function Update(c: bv32, data: seq<bv8>): bv32 {
    Fold(ByteStep, c, data)
  }

  // ----- the register as a machine word -----------------------------------

  lemma MixRight(a: bv32, b: bv32)
    ensures Right(Mix(a, b)) == Mix(Right(a), Right(b))
  {
  }

  lemma MixOut(a: bv32, b: bv32)
    ensures Out(Mix(a, b)) == (Out(a) != Out(b))
  {
  }

  lemma IsLinear()
    ensures Linear(Register())
  {
    hide Mix, Right, Out;
    var m := Register();
    forall a: bv32, b: bv32
      ensures m.out(m.xor(a, b)) == (m.out(a) != m.out(b)) && m.shift(m.xor(a, b)) == m.xor(m.shift(a), m.shift(b))
    {
      MixRight(a, b);
      MixOut(a, b);
    }
  }

  lemma FourRight(c: bv32)
    ensures Iterate(Right, c, 4) == c >> 4
  {
  }

  lemma EightRight(c: bv32)
    ensures Iterate(Right, c, 8) == c >> 8
  {
    IteratePlus(Right, c, 4, 4);
    hide Right, Iterate;
    FourRight(c);
    FourRight(c >> 4);
  }

  lemma SixteenRight(c: bv32)
    ensures Iterate(Right, c, 16) == c >> 16
  {
    IteratePlus(Right, c, 8, 8);
    hide Right, Iterate;
    EightRight(c);
    EightRight(c >> 8);
  }

  lemma IsEmptied()
    ensures Empties(Register())
  {
    var m := Register();
    forall a: bv32 ensures Iterate(m.shift, a, m.width) == m.zero {
      IteratePlus(Right, a, 16, 16);
      SixteenRight(a);
      SixteenRight(a >> 16);
    }
  }

  lemma IsFaithful()
    ensures Faithful(Register())
  {
  }

  lemma LowEmbeds()
    ensures Embeds(Register(), true, Low)
  {
  }

  lemma ThreeRight(c: bv32)
    ensures Iterate(Right, c, 3) == c >> 3
  {
  }

  lemma LastTap()
    ensures Word(Register(), POLY)[31]
  {
    WordLast(Register(), POLY);
    IteratePlus(Right, POLY, 16, 15);
    IteratePlus(Right, 0xEDB8, 8, 7);
    IteratePlus(Right, 0xED, 4, 3);
    hide Iterate, Right;
    SixteenRight(POLY);
    EightRight(0xEDB8);
    FourRight(0xED);
    ThreeRight(0xE);
  }

  // ----- the table is four steps ------------------------------------------

  function Four(c: bv32): bv32 {
    Steps(Register(), POLY, c, 4)
  }

  function Step1(c: bv32): bv32 {
    if c & 1 != 0 then (c >> 1) ^ POLY else c >> 1
  }

  lemma FourIs(c: bv32)
    ensures Four(c) == Step1(Step1(Step1(Step1(c))))
  {
    hide Step1;
    StepIs(c);
    StepIs(Step1(c));
    StepIs(Step1(Step1(c)));
    StepIs(Step1(Step1(Step1(c))));
    hide Step;
    var m := Register();
    StepsOnce(c);
    StepsOnce(Step1(c));
    StepsOnce(Step1(Step1(c)));
    StepsOnce(Step1(Step1(Step1(c))));
    StepsPlus(m, POLY, c, 1, 3);
    StepsPlus(m, POLY, Step1(c), 1, 2);
    StepsPlus(m, POLY, Step1(Step1(c)), 1, 1);
  }

  lemma StepsOnce(c: bv32)
    ensures Steps(Register(), POLY, c, 1) == Step1(c)
  {
    hide Step1, Step;
    StepIs(c);
  }

  lemma StepIs(c: bv32)
    ensures Step(Register(), POLY, c) == Step1(c)
  {
  }

  /** Four steps on the upper bits alone only shift them. */
  lemma FourOfHigh(c: bv32)
    ensures Four(High28(c)) == Shift4(c)
  {
    hide Four;
    FourIs(High28(c));
  }

  /** Four steps on a nibble give its table entry. */
  lemma FourOfLow(x: bv32)
    requires x < 16
    ensures Four(x) == Table(x)
  {
    hide Four;
    FourIs(x);
  }

  lemma Halves(c: bv32)
    ensures Mix(Low4(c), High28(c)) == c && Low4(c) < 16
  {
  }

  /** One table lookup is four steps: by nibble, and linearity. */
  lemma NibbleIsFour(c: bv32)
    ensures Mix(Table(Low4(c)), Shift4(c)) == Four(c)
  {
    IsLinear();
    IsEmptied();
    IsFaithful();
    StepsXor(Register(), POLY, Low4(c), High28(c), 4);
    hide Linear, Empties, Faithful, Table, Mix, Low4, High28, Shift4, Steps;
    Halves(c);
    FourOfHigh(c);
    FourOfLow(Low4(c));
  }

  lemma MixShift4(a: bv32, b: bv32)
    ensures Shift4(Mix(a, b)) == Mix(Shift4(a), Shift4(b))
  {
  }

  lemma MixAssoc(a: bv32, b: bv32, c: bv32)
    ensures Mix(a, Mix(b, c)) == Mix(Mix(a, b), c)
  {
    IsLinear();
    IsEmptied();
    IsFaithful();
    hide Mix, Linear, Empties, Faithful;
    XorAssoc(Register(), a, b, c);
  }

  lemma HighNibble(d: bv8)
    ensures Low(d >> 4) == Shift4(Low(d))
  {
  }

  lemma ByteIsTwo(d: bv8)
    ensures Shift4(Shift4(Low(d))) == 0
  {
  }

  lemma MixZero(a: bv32)
    ensures Mix(a, 0) == a
  {
  }

  /** Four steps take the nibble in and leave the rest of the byte shifted on top. */
  lemma NibbleTakes(c: bv32, x: bv32)
    ensures Four(Mix(c, x)) == Mix(Nibble(c, x), Shift4(x))
  {
    hide Four, Table, Mix, Shift4, Low4;
    NibbleIsFour(Mix(c, x));
    MixShift4(c, x);
    MixAssoc(Table(Low4(Mix(c, x))), Shift4(c), Shift4(x));
  }

  lemma EightIsTwice(c: bv32)
    ensures Steps(Register(), POLY, c, 8) == Four(Four(c))
  {
    hide Steps;
    StepsPlus(Register(), POLY, c, 4, 4);
  }

  /** The table-driven step is eight shifts of the register XOR-ed with the byte. */
  lemma ByteStepIsSteps(c: bv32, d: bv8)
    ensures ByteStep(c, d) == Steps(Register(), POLY, Mix(c, Low(d)), 8)
  {
    hide Steps, Four, Nibble, Mix, Shift4, Low;
    var x := Low(d);
    var c1 := Nibble(c, x);
    EightIsTwice(Mix(c, x));
    NibbleTakes(c, x);
    HighNibble(d);
    NibbleTakes(c1, Shift4(x));
    ByteIsTwo(d);
    MixZero(Nibble(c1, Shift4(x)));
  }

  lemma ByteStepDivides(c: bv32, d: bv8)
    ensures Word(Register(), ByteStep(c, d)) == Divide(Word(Register(), POLY), Word(Register(), c), ByteBits(true, d))
  {
    IsLinear();
    IsEmptied();
    LowEmbeds();
    hide Linear, Empties, Embeds, Word, Mix, Low, ByteStep;
    ByteStepIsSteps(c, d);
    ByteDivides(Register(), POLY, c, true, Low, d);
  }

  lemma StepConsumes()
    ensures Consumes(Register(), POLY, true, ByteStep)
  {
    IsLinear();
    IsEmptied();
    LastTap();
    hide Linear, Empties, Word, ByteStep, Divide;
    forall c: bv32, d: bv8
      ensures Word(Register(), ByteStep(c, d)) == Divide(Word(Register(), POLY), Word(Register(), c), ByteBits(true, d))
    {
      ByteStepDivides(c, d);
    }
  }

  /** The CRC the code computes is polynomial division of the whole message. */
  lemma UpdateDivides(c: bv32, data: seq<bv8>)
    ensures Word(Register(), Update(c, data)) == Divide(Word(Register(), POLY), Word(Register(), c), MessageBits(true, data))
  {
    StepConsumes();
    hide Consumes, Word, Divide;
    FoldDivides(Register(), POLY, true, ByteStep, c, data);
  }

  /** Chunk by chunk is the same as in one go. */
  lemma UpdateConcat(c: bv32, a: seq<bv8>, b: seq<bv8>)
    ensures Update(c, a + b) == Update(Update(c, a), b)
  {
    FoldConcat(ByteStep, c, a, b);
  }

  /** Two different messages that agree outside a window of 32 bits never share a CRC. */
  lemma WindowDetected(c: bv32, x: seq<bv8>, y: seq<bv8>, lo: nat, hi: nat)
    requires lo <= hi <= 8 * |x| && hi - lo <= 32 && Agree(true, x, y, lo, hi)
    ensures Update(c, x) == Update(c, y) <==> x == y
  {
    StepConsumes();
    hide Consumes, Agree;
    Division.WindowDetected(Register(), POLY, true, ByteStep, c, x, y, lo, hi);
  }

  // ----- the loop ---------------------------------------------------------

  /** crc32_update as the code runs it. */
  method Crc32Update(crc0: bv32, data: seq<bv8>) returns (crc: bv32)
    ensures crc == Update(crc0, data)
  {
    hide ByteStep;
    crc := crc0;
    for i := 0 to |data|
      invariant crc == Update(crc0, data[..i])
    {
      FoldSnoc(ByteStep, crc0, data, i);
      crc := CrcByte(crc, data[i]);
    }
    assert data[..|data|] == data;
  }

  lemma LookupIs(c: bv32, x: bv32)
    ensures Low4(Mix(c, x)) == (c ^ x) & 0xF
  {
  }

  lemma RestIs(t: bv32, c: bv32)
    ensures Mix(t, Shift4(c)) == t ^ (c >> 4)
  {
  }

  method NibbleUpdate(crc0: bv32, x: bv32) returns (crc: bv32)
    ensures crc == Nibble(crc0, x)
  {
    hide Table, Mix, Shift4, Low4;
    var n := (crc0 ^ x) & 0xF;
    LookupIs(crc0, x);
    RestIs(Table(n), crc0);
    crc := Table(n) ^ (crc0 >> 4);
  }

  method CrcByte(crc0: bv32, d: bv8) returns (crc: bv32)
    ensures crc == ByteStep(crc0, d)
  {
    hide Nibble;
    crc := NibbleUpdate(crc0, d as bv32);
    crc := NibbleUpdate(crc, (d >> 4) as bv32);
  }
}
