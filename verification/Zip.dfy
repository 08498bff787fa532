/** The store-mode ZIP layout of PKWARE APPNOTE sections 4.3.7, 4.3.9, 4.3.12 and 4.3.16, and a reader for it. */
module Zip {
  import opened Bytes
  import Crc32

  /** An archive name fits the 80-byte zip_name field with its terminator. */
  type Name = s: seq<byte> | |s| <= 79

  datatype Member = Member(name: seq<byte>, data: seq<byte>)

  function Words(data: seq<byte>): (r: seq<bv8>)
    ensures |r| == |data|
  {
    seq(|data|, i requires 0 <= i < |data| => data[i] as bv8)
  }

  lemma WordsConcat(a: seq<byte>, b: seq<byte>)
    ensures Words(a + b) == Words(a) + Words(b)
  {
  }

  /** Close the running register into the stored value. */
  function Closed(register: bv32): u32 {
    (register ^ 0xFFFF_FFFF) as int
  }

  function Crc(data: seq<byte>): u32 {
    Closed(Crc32.Update(0xFFFF_FFFF, Words(data)))
  }

  function Zeros(n: nat): (r: seq<byte>)
    ensures |r| == n && forall i :: 0 <= i < n ==> r[i] == 0
  {
    seq(n, i => 0)
  }

  // ----- records ----------------------------------------------------------

  const LOCAL_SIG: seq<byte> := [0x50, 0x4B, 0x03, 0x04]
  const DESCRIPTOR_SIG: seq<byte> := [0x50, 0x4B, 0x07, 0x08]
  const CENTRAL_SIG: seq<byte> := [0x50, 0x4B, 0x01, 0x02]
  const END_SIG: seq<byte> := [0x50, 0x4B, 0x05, 0x06]

  /** Local file header (4.3.7): version 2.0, sizes deferred, method stored, CRC and sizes zero, no extra field. */
  function Local(name: Name): (r: seq<byte>)
    ensures |r| == 30 + |name|
  {
    LOCAL_SIG + (Put16(20) + (Put16(8) + (Put16(0) + (Zeros(16) + (Put16(|name|) + (Put16(0) + name))))))
  }

  /** Data descriptor (4.3.9). */
  function Descriptor(crc: u32, size: u32): (r: seq<byte>)
    ensures |r| == 16
  {
    DESCRIPTOR_SIG + (Put32(crc) + (Put32(size) + Put32(size)))
  }

  /** Central directory header (4.3.12). */
  function Central(name: Name, crc: u32, size: u32, offset: u32): (r: seq<byte>)
    ensures |r| == 46 + |name|
  {
    CENTRAL_SIG + (Put16(20) + (Put16(20) + (Put16(8) + (Put16(0) + (Zeros(4) +
    (Put32(crc) + (Put32(size) + (Put32(size) + (Put16(|name|) + (Zeros(12) + (Put32(offset) + name)))))))))))
  }

  /** End of central directory record (4.3.16), no comment. */
  function End(count: u16, size: u32, offset: u32): (r: seq<byte>)
    ensures |r| == 22
  {
    END_SIG + (Zeros(4) + (Put16(count) + (Put16(count) + (Put32(size) + (Put32(offset) + Put16(0))))))
  }

  // ----- reader -----------------------------------------------------------

  /** `s` lies in `z` at `off`. */
  predicate At(z: seq<byte>, off: nat, s: seq<byte>) {
    off + |s| <= |z| && z[off..off + |s|] == s
  }

  function U16(z: seq<byte>, off: nat): u16
    requires off + 2 <= |z|
  {
    Get16(z[off..off + 2])
  }

  function U32(z: seq<byte>, off: nat): u32
    requires off + 4 <= |z|
  {
    Get32(z[off..off + 4])
  }

  /** `size` stored bytes at `body`, if descriptor and CRC agree with the directory entry. */
  function ReadBody(z: seq<byte>, body: nat, crc: u32, size: u32): Option<seq<byte>> {
    var after := body + size as nat;
    if after + 16 > |z| || !At(z, after, DESCRIPTOR_SIG) || U32(z, after + 4) != crc || U32(z, after + 8) != size
       || U32(z, after + 12) != size || Crc(z[body..after]) != crc then None
    else Some(z[body..after])
  }

  /** The member whose local header is at `off`, if header and name agree with its directory entry. */
  function ReadLocal(z: seq<byte>, off: nat, name: seq<byte>, crc: u32, size: u32): Option<seq<byte>> {
    if off + 30 > |z| || !At(z, off, LOCAL_SIG) || U16(z, off + 6) != 8 || U16(z, off + 8) != 0
       || U16(z, off + 26) != |name| || !At(z, off + 30, name) then None
    else ReadBody(z, off + 30 + U16(z, off + 26) + U16(z, off + 28), crc, size)
  }

  datatype Found = Found(member: Member, next: nat)

  /** The member of the directory header at `pos`, and where the next header is. */
  function ReadHeader(z: seq<byte>, pos: nat, end: nat): Option<Found>
    requires end <= |z|
  {
    if pos + 46 > end || !At(z, pos, CENTRAL_SIG) || U16(z, pos + 8) != 8 || U16(z, pos + 10) != 0
       || U32(z, pos + 20) != U32(z, pos + 24) then None
    else
      var name := pos + 46 + U16(z, pos + 28);
      var next: nat := name + U16(z, pos + 30) + U16(z, pos + 32);
      if next > end then None
      else
        var file := z[pos + 46..name];
        match ReadLocal(z, U32(z, pos + 42), file, U32(z, pos + 16), U32(z, pos + 20))
        case None => None
        case Some(data) => Some(Found(Member(file, data), next))
  }

  /** `n` directory entries from `pos`, ending exactly at `end`. */
  function ReadDirectory(z: seq<byte>, pos: nat, n: nat, end: nat): Option<seq<Member>>
    requires end <= |z|
    decreases n
  {
    if n == 0 then (if pos == end then Some([]) else None)
    else
      match ReadHeader(z, pos, end)
      case None => None
      case Some(f) =>
        match ReadDirectory(z, f.next, n - 1, end)
        case None => None
        case Some(rest) => Some([f.member] + rest)
  }

  /** Every member of an archive without a comment, found from its end. */
  function Read(z: seq<byte>): Option<seq<Member>> {
    if |z| < 22 then None
    else
      var end := |z| - 22;
      if !At(z, end, END_SIG) || U16(z, end + 8) != U16(z, end + 10) || U16(z, end + 20) != 0
         || U32(z, end + 16) as int + U32(z, end + 12) as int != end then None
      else ReadDirectory(z, U32(z, end + 16), U16(z, end + 10), end)
  }

  // ----- records read back ------------------------------------------------

  lemma AtSplit(z: seq<byte>, off: nat, a: seq<byte>, b: seq<byte>)
    requires At(z, off, a + b)
    ensures At(z, off, a) && At(z, off + |a|, b)
  {
    var s := z[off..off + |a + b|];
    assert s == a + b;
    assert z[off..off + |a|] == s[..|a|];
    assert z[off + |a|..off + |a| + |b|] == s[|a|..];
  }

  lemma AtGrows(z: seq<byte>, more: seq<byte>, off: nat, s: seq<byte>)
    requires At(z, off, s)
    ensures At(z + more, off, s)
  {
    assert (z + more)[off..off + |s|] == z[off..off + |s|];
  }

  lemma Read16(z: seq<byte>, off: nat, v: u16)
    requires At(z, off, Put16(v))
    ensures off + 2 <= |z| && U16(z, off) == v
  {
    Get16Put16(v);
  }

  lemma Read32(z: seq<byte>, off: nat, v: u32)
    requires At(z, off, Put32(v))
    ensures off + 4 <= |z| && U32(z, off) == v
  {
    Get32Put32(v);
  }

  lemma LocalFields(z: seq<byte>, off: nat, name: Name)
    requires At(z, off, Local(name))
    ensures off + 30 + |name| <= |z| && At(z, off, LOCAL_SIG)
    ensures U16(z, off + 6) == 8 && U16(z, off + 8) == 0 && U16(z, off + 26) == |name| && U16(z, off + 28) == 0
    ensures At(z, off + 30, name)
  {
    hide At, U16, Put16, LOCAL_SIG;
    var s6 := Put16(0) + name;
    var s5 := Put16(|name|) + s6;
    var s4 := Zeros(16) + s5;
    var s3 := Put16(0) + s4;
    var s2 := Put16(8) + s3;
    var s1 := Put16(20) + s2;
    AtSplit(z, off, LOCAL_SIG, s1);
    AtSplit(z, off + 4, Put16(20), s2);
    AtSplit(z, off + 6, Put16(8), s3);
    AtSplit(z, off + 8, Put16(0), s4);
    AtSplit(z, off + 10, Zeros(16), s5);
    AtSplit(z, off + 26, Put16(|name|), s6);
    AtSplit(z, off + 28, Put16(0), name);
    Read16(z, off + 6, 8);
    Read16(z, off + 8, 0);
    Read16(z, off + 26, |name|);
    Read16(z, off + 28, 0);
  }

  lemma DescriptorFields(z: seq<byte>, off: nat, crc: u32, size: u32)
    requires At(z, off, Descriptor(crc, size))
    ensures off + 16 <= |z| && At(z, off, DESCRIPTOR_SIG)
    ensures U32(z, off + 4) == crc && U32(z, off + 8) == size && U32(z, off + 12) == size
  {
    hide At, U32, Put32, DESCRIPTOR_SIG;
    AtSplit(z, off, DESCRIPTOR_SIG, Put32(crc) + (Put32(size) + Put32(size)));
    AtSplit(z, off + 4, Put32(crc), Put32(size) + Put32(size));
    AtSplit(z, off + 8, Put32(size), Put32(size));
    Read32(z, off + 4, crc);
    Read32(z, off + 8, size);
    Read32(z, off + 12, size);
  }

  lemma Blank16(z: seq<byte>, off: nat, n: nat, k: nat)
    requires At(z, off, Zeros(n)) && k + 2 <= n
    ensures U16(z, off + k) == 0
  {
    var s := z[off..off + n];
    assert z[off + k] == s[k] && z[off + k + 1] == s[k + 1];
  }

  lemma CentralFields(z: seq<byte>, off: nat, name: Name, crc: u32, size: u32, offset: u32)
    requires At(z, off, Central(name, crc, size, offset))
    ensures off + 46 + |name| <= |z| && At(z, off, CENTRAL_SIG)
    ensures U16(z, off + 8) == 8 && U16(z, off + 10) == 0
    ensures U32(z, off + 16) == crc && U32(z, off + 20) == size && U32(z, off + 24) == size
    ensures U16(z, off + 28) == |name| && U16(z, off + 30) == 0 && U16(z, off + 32) == 0
    ensures U32(z, off + 42) == offset && z[off + 46..off + 46 + |name|] == name
  {
    hide At, U16, U32, Put16, Put32, CENTRAL_SIG;
    var sb := Put32(offset) + name;
    var sa := Zeros(12) + sb;
    var s9 := Put16(|name|) + sa;
    var s8 := Put32(size) + s9;
    var s7 := Put32(size) + s8;
    var s6 := Put32(crc) + s7;
    var s5 := Zeros(4) + s6;
    var s4 := Put16(0) + s5;
    var s3 := Put16(8) + s4;
    var s2 := Put16(20) + s3;
    var s1 := Put16(20) + s2;
    AtSplit(z, off, CENTRAL_SIG, s1);
    AtSplit(z, off + 4, Put16(20), s2);
    AtSplit(z, off + 6, Put16(20), s3);
    AtSplit(z, off + 8, Put16(8), s4);
    AtSplit(z, off + 10, Put16(0), s5);
    AtSplit(z, off + 12, Zeros(4), s6);
    AtSplit(z, off + 16, Put32(crc), s7);
    AtSplit(z, off + 20, Put32(size), s8);
    AtSplit(z, off + 24, Put32(size), s9);
    AtSplit(z, off + 28, Put16(|name|), sa);
    AtSplit(z, off + 30, Zeros(12), sb);
    AtSplit(z, off + 42, Put32(offset), name);
    Read16(z, off + 8, 8);
    Read16(z, off + 10, 0);
    Read32(z, off + 16, crc);
    Read32(z, off + 20, size);
    Read32(z, off + 24, size);
    Read16(z, off + 28, |name|);
    Blank16(z, off + 30, 12, 0);
    Blank16(z, off + 30, 12, 2);
    Read32(z, off + 42, offset);
    AtText(z, off + 46, name);
  }

  lemma AtText(z: seq<byte>, off: nat, s: seq<byte>)
    requires At(z, off, s)
    ensures off + |s| <= |z| && z[off..off + |s|] == s
  {
  }

  lemma EndFields(z: seq<byte>, off: nat, count: u16, size: u32, offset: u32)
    requires At(z, off, End(count, size, offset))
    ensures off + 22 <= |z| && At(z, off, END_SIG)
    ensures U16(z, off + 8) == count && U16(z, off + 10) == count && U16(z, off + 20) == 0
    ensures U32(z, off + 12) == size && U32(z, off + 16) == offset
  {
    hide At, U16, U32, Put16, Put32, END_SIG;
    var s5 := Put32(offset) + Put16(0);
    var s4 := Put32(size) + s5;
    var s3 := Put16(count) + s4;
    var s2 := Put16(count) + s3;
    var s1 := Zeros(4) + s2;
    AtSplit(z, off, END_SIG, s1);
    AtSplit(z, off + 4, Zeros(4), s2);
    AtSplit(z, off + 8, Put16(count), s3);
    AtSplit(z, off + 10, Put16(count), s4);
    AtSplit(z, off + 12, Put32(size), s5);
    AtSplit(z, off + 16, Put32(offset), Put16(0));
    Read16(z, off + 8, count);
    Read16(z, off + 10, count);
    Read32(z, off + 12, size);
    Read32(z, off + 16, offset);
    Read16(z, off + 20, 0);
  }

  lemma ReadsBody(z: seq<byte>, body: nat, data: seq<byte>, size: u32)
    requires At(z, body, data) && |data| == size && At(z, body + size as nat, Descriptor(Crc(data), size))
    ensures ReadBody(z, body, Crc(data), size) == Some(data)
  {
    DescriptorFields(z, body + size as nat, Crc(data), size);
    AtText(z, body, data);
    hide At, U32, Descriptor, Crc, DESCRIPTOR_SIG;
  }

  lemma ReadsLocal(z: seq<byte>, off: nat, name: Name, data: seq<byte>, size: u32)
    requires At(z, off, Local(name)) && |data| == size
    requires At(z, off + 30 + |name|, data) && At(z, off + 30 + |name| + size as nat, Descriptor(Crc(data), size))
    ensures ReadLocal(z, off, name, Crc(data), size) == Some(data)
  {
    hide At, U16, Local, Descriptor, Crc, LOCAL_SIG, ReadBody;
    LocalFields(z, off, name);
    ReadsBody(z, off + 30 + |name|, data, size);
  }

  lemma ReadsHeader(z: seq<byte>, pos: nat, end: nat, name: Name, crc: u32, size: u32, offset: u32, data: seq<byte>)
    requires pos + 46 + |name| <= end <= |z|
    requires At(z, pos, Central(name, crc, size, offset)) && ReadLocal(z, offset, name, crc, size) == Some(data)
    ensures ReadHeader(z, pos, end) == Some(Found(Member(name, data), pos + 46 + |name|))
  {
    hide ReadLocal;
    CentralFields(z, pos, name, crc, size, offset);
    hide At, U16, U32, Central, CENTRAL_SIG;
  }

  lemma ReadsEnd(z: seq<byte>, count: u16, size: u32, offset: u32)
    requires |z| >= 22 && At(z, |z| - 22, End(count, size, offset))
    ensures Read(z) == if offset as int + size as int == |z| - 22 then ReadDirectory(z, offset, count, |z| - 22)
                       else None
  {
    EndFields(z, |z| - 22, count, size, offset);
    hide At, U16, U32, End, END_SIG, ReadDirectory;
  }
}
