/** CRC-16/CCITT-FALSE over a pattern frame, and the gate a frame passes on its way into the buffer. */
module Crc16 {
  import opened Bytes
  import opened Division

  const POLY: bv16 := 0x1021

  predicate Out(c: bv16) { c & 0x8000 != 0 }
  function Left(c: bv16): bv16 { c << 1 }
  function Mix(a: bv16, b: bv16): bv16 { a ^ b }
  function High(d: bv8): bv16 { (d as bv16) << 8 }

  function Register(): Machine<bv16> {
    Machine(16, 0, Out, Left, Mix)
  }

  /** XOR the byte into the high half, then shift eight times. */
  function ByteStep(c: bv16, d: bv8): bv16 {
    Steps(Register(), POLY, Mix(c, High(d)), 8)
  }

  function Update(c: bv16, data: seq<bv8>): bv16 {
    Fold(ByteStep, c, data)
  }

  /** crc16_ccitt_false of a whole message. */
  function Crc(data: seq<bv8>): bv16 {
    Update(0xFFFF, data)
  }

  // ----- the register as a machine word -----------------------------------

  lemma MixLeft(a: bv16, b: bv16)
    ensures Left(Mix(a, b)) == Mix(Left(a), Left(b))
  {
  }

  lemma MixOut(a: bv16, b: bv16)
    ensures Out(Mix(a, b)) == (Out(a) != Out(b))
  {
  }

  lemma IsLinear()
    ensures Linear(Register())
  {
    hide Mix, Left, Out;
    var m := Register();
    forall a: bv16, b: bv16
      ensures m.out(m.xor(a, b)) == (m.out(a) != m.out(b)) && m.shift(m.xor(a, b)) == m.xor(m.shift(a), m.shift(b))
    {
      MixLeft(a, b);
      MixOut(a, b);
    }
  }

  lemma FourLeft(c: bv16)
    ensures Iterate(Left, c, 4) == c << 4
  {
  }

  lemma EightLeft(c: bv16)
    ensures Iterate(Left, c, 8) == c << 8
  {
    IteratePlus(Left, c, 4, 4);
    hide Left, Iterate;
    FourLeft(c);
    FourLeft(c << 4);
  }

  lemma IsEmptied()
    ensures Empties(Register())
  {
    var m := Register();
    forall a: bv16 ensures Iterate(m.shift, a, m.width) == m.zero {
      IteratePlus(Left, a, 8, 8);
      EightLeft(a);
      EightLeft(a << 8);
    }
  }

  lemma IsFaithful()
    ensures Faithful(Register())
  {
  }

  lemma HighEmbeds()
    ensures Embeds(Register(), false, High)
  {
  }

  lemma ThreeLeft(c: bv16)
    ensures Iterate(Left, c, 3) == c << 3
  {
  }

  lemma LastTap()
    ensures Word(Register(), POLY)[15]
  {
    WordLast(Register(), POLY);
    IteratePlus(Left, POLY, 8, 7);
    IteratePlus(Left, 0x2100, 4, 3);
    hide Iterate, Left;
    EightLeft(POLY);
    FourLeft(0x2100);
    ThreeLeft(0x1000);
  }

  lemma StepConsumes()
    ensures Consumes(Register(), POLY, false, ByteStep)
  {
    IsLinear();
    IsEmptied();
    HighEmbeds();
    LastTap();
    hide Linear, Empties, Embeds, Word, Mix, High;
    forall c: bv16, d: bv8
      ensures Word(Register(), ByteStep(c, d)) == Divide(Word(Register(), POLY), Word(Register(), c), ByteBits(false, d))
    {
      ByteDivides(Register(), POLY, c, false, High, d);
    }
  }

  /** The CRC the code computes is polynomial division of the whole message. */
  lemma UpdateDivides(c: bv16, data: seq<bv8>)
    ensures Word(Register(), Update(c, data)) == Divide(Word(Register(), POLY), Word(Register(), c), MessageBits(false, data))
  {
    StepConsumes();
    hide Consumes, Word, Divide;
    FoldDivides(Register(), POLY, false, ByteStep, c, data);
  }

  /** Chunk by chunk is the same as in one go. */
  lemma UpdateConcat(c: bv16, a: seq<bv8>, b: seq<bv8>)
    ensures Update(c, a + b) == Update(Update(c, a), b)
  {
    FoldConcat(ByteStep, c, a, b);
  }

  /** Two different messages that agree outside a window of 16 bits never share a CRC. */
  lemma WindowDetected(c: bv16, x: seq<bv8>, y: seq<bv8>, lo: nat, hi: nat)
    requires lo <= hi <= 8 * |x| && hi - lo <= 16 && Agree(false, x, y, lo, hi)
    ensures Update(c, x) == Update(c, y) <==> x == y
  {
    StepConsumes();
    hide Consumes, Agree;
    Division.WindowDetected(Register(), POLY, false, ByteStep, c, x, y, lo, hi);
  }

  method Crc16CcittFalse(data: seq<bv8>) returns (crc: bv16)
    ensures crc == Crc(data)
  {
    hide ByteStep;
    crc := 0xFFFF;
    for i := 0 to |data|
      invariant crc == Update(0xFFFF, data[..i])
    {
      FoldSnoc(ByteStep, 0xFFFF, data, i);
      crc := CrcByte(crc, data[i]);
    }
    assert data[..|data|] == data;
  }

  lemma StepCode(c: bv16)
    ensures Step(Register(), POLY, c) == if c & 0x8000 != 0 then (c << 1) ^ 0x1021 else c << 1
  {
  }

  method CrcByte(crc0: bv16, d: bv8) returns (crc: bv16)
    ensures crc == ByteStep(crc0, d)
  {
    hide Step;
    crc := crc0 ^ ((d as bv16) << 8);
    for bit := 0 to 8
      invariant Steps(Register(), POLY, crc, 8 - bit) == ByteStep(crc0, d)
    {
      StepCode(crc);
      crc := if crc & 0x8000 != 0 then (crc << 1) ^ 0x1021 else crc << 1;
    }
  }
}
