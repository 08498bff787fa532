/** CRC-8/AUTOSAR over a pattern-file header. */
module Crc8 {
  import opened Division

  const POLY: bv8 := 0x2F

  function Register(): Machine<bv8> { ByteMachine(false) }

  /** XOR the byte in, then shift eight times. */
  function ByteStep(c: bv8, d: bv8): bv8 {
    Steps(Register(), POLY, MixBytes(c, d), 8)
  }

  function Update(c: bv8, data: seq<bv8>): bv8 {
    Fold(ByteStep, c, data)
  }

  /** crc8_autosar of a whole message. */
  function Crc(data: seq<bv8>): bv8 {
    Update(0xFF, data) ^ 0xFF
  }

  lemma FourLeft(c: bv8)
    ensures Iterate(LeftByte, c, 4) == c << 4
  {
  }

  lemma ThreeLeft(c: bv8)
    ensures Iterate(LeftByte, c, 3) == c << 3
  {
  }

  lemma LastTap()
    ensures Word(Register(), POLY)[7]
  {
    WordLast(Register(), POLY);
    IteratePlus(LeftByte, POLY, 4, 3);
    hide Iterate, LeftByte;
    FourLeft(POLY);
    ThreeLeft(0xF0);
  }

  lemma StepConsumes()
    ensures Consumes(Register(), POLY, false, ByteStep)
  {
    ByteLinear(false);
    ByteEmpties(false);
    LastTap();
    hide Linear, Empties, Word, MixBytes;
    forall c: bv8, d: bv8
      ensures Word(Register(), ByteStep(c, d)) == Divide(Word(Register(), POLY), Word(Register(), c), ByteBits(false, d))
    {
      ByteDivides(Register(), POLY, c, false, (x: bv8) => x, d);
    }
  }

  /** The CRC the code computes is polynomial division of the whole message. */
  lemma UpdateDivides(c: bv8, data: seq<bv8>)
    ensures Word(Register(), Update(c, data)) == Divide(Word(Register(), POLY), Word(Register(), c), MessageBits(false, data))
  {
    StepConsumes();
    hide Consumes, Word, Divide;
    FoldDivides(Register(), POLY, false, ByteStep, c, data);
  }

  /** Two different messages that agree outside a window of 8 bits never share a CRC. */
  lemma BurstDetected(x: seq<bv8>, y: seq<bv8>, lo: nat, hi: nat)
    requires lo <= hi <= 8 * |x| && hi - lo <= 8 && Agree(false, x, y, lo, hi)
    ensures Crc(x) == Crc(y) <==> x == y
  {
    StepConsumes();
    hide Consumes, Agree;
    WindowDetected(Register(), POLY, false, ByteStep, 0xFF, x, y, lo, hi);
    Closing(Update(0xFF, x), Update(0xFF, y));
  }

  lemma Closing(a: bv8, b: bv8)
    ensures a ^ 0xFF == b ^ 0xFF <==> a == b
  {
  }

  method Crc8Autosar(data: seq<bv8>) returns (crc: bv8)
    ensures crc == Crc(data)
  {
    hide ByteStep;
    crc := 0xFF;
    for i := 0 to |data|
      invariant crc == Update(0xFF, data[..i])
    {
      FoldSnoc(ByteStep, 0xFF, data, i);
      crc := CrcByte(crc, data[i]);
    }
    assert data[..|data|] == data;
    crc := crc ^ 0xFF;
  }

  lemma StepCode(c: bv8)
    ensures Step(Register(), POLY, c) == if c & 0x80 != 0 then (c << 1) ^ 0x2F else c << 1
  {
  }

  method CrcByte(crc0: bv8, d: bv8) returns (crc: bv8)
    ensures crc == ByteStep(crc0, d)
  {
    hide Step;
    crc := crc0 ^ d;
    for bit := 0 to 8
      invariant Steps(Register(), POLY, crc, 8 - bit) == ByteStep(crc0, d)
    {
      StepCode(crc);
      crc := if crc & 0x80 != 0 then (crc << 1) ^ 0x2F else crc << 1;
    }
  }
}
