/** Bytes, fixed-width words and their little-endian layout. */
module Bytes {

  type byte = b: int | 0 <= b < 0x100
  type u16 = x: int | 0 <= x < 0x1_0000
  type u32 = x: int | 0 <= x < 0x1_0000_0000

  datatype Option<+T> = None | Some(value: T)

  const TWO_TO_32: int := 0x1_0000_0000

  /** put16 / put32 of the firmware: least significant byte first. */
  function Put16(v: u16): (s: seq<byte>)
    ensures |s| == 2
  {
    [v % 0x100, v / 0x100]
  }

  function Put32(v: u32): (s: seq<byte>)
    ensures |s| == 4
  {
    [v % 0x100, v / 0x100 % 0x100, v / 0x1_0000 % 0x100, v / 0x100_0000]
  }

  function Get16(s: seq<byte>): (v: u16)
    requires |s| == 2
  {
    s[0] as int + 0x100 * s[1] as int
  }

  function Get32(s: seq<byte>): (v: u32)
    requires |s| == 4
  {
    s[0] as int + 0x100 * s[1] as int + 0x1_0000 * s[2] as int + 0x100_0000 * s[3] as int
  }

  lemma Get16Put16(v: u16)
    ensures Get16(Put16(v)) == v
  {
  }

  lemma Get32Put32(v: u32)
    ensures Get32(Put32(v)) == v
  {
    var q1 := v / 0x100;
    var q2 := v / 0x1_0000;
    assert q2 == q1 / 0x100;
    assert v / 0x100_0000 == q2 / 0x100;
  }

  /** Overwrite `|s|` bytes of `d` starting at `off`: memcpy on a value. */
  function Splice(d: seq<byte>, off: nat, s: seq<byte>): (r: seq<byte>)
    requires off + |s| <= |d|
    ensures |r| == |d|
    ensures forall i :: 0 <= i < |d| ==> r[i] == if off <= i < off + |s| then s[i - off] else d[i]
  {
    d[..off] + s + d[off + |s|..]
  }

  function Min(a: int, b: int): int {
    if a < b then a else b
  }

  lemma SliceLast<T>(s: seq<T>, lo: nat, hi: nat)
    requires lo < hi <= |s|
    ensures s[lo..hi] != [] && s[lo..hi][hi - lo - 1] == s[hi - 1]
  {
  }

  lemma Snoc<T>(s: seq<T>)
    requires s != []
    ensures s == s[..|s| - 1] + [s[|s| - 1]]
  {
  }

  lemma JoinAssoc<T>(x: seq<T>, y: seq<T>, z: seq<T>)
    ensures x + (y + z) == x + y + z
  {
  }

}
