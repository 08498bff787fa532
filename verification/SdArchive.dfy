/** The archive handler as it runs: buffers filled byte by byte, fields updated in place. */
module SdArchive {
  import opened Bytes
  import opened Zip
  import opened Archive
  import Crc32

  // ----- the fixed-layout buffers -----------------------------------------

  method LocalBuffer(name: Name) returns (buf: seq<byte>)
    ensures buf == Local(name)
  {
    var b := new byte[30](_ => 0);
    b[0], b[1], b[2], b[3] := 0x50, 0x4B, 0x03, 0x04;
    b[4] := 20;
    b[6] := 0x08;
    b[26] := |name|;
    buf := b[..] + name;
  }

  lemma SpliceLies(d: seq<byte>, off: nat, s: seq<byte>)
    requires off + |s| <= |d|
    ensures At(Splice(d, off, s), off, s)
  {
  }

  lemma SpliceKeeps(d: seq<byte>, off: nat, s: seq<byte>, lo: nat, t: seq<byte>)
    requires off + |s| <= |d| && At(d, lo, t) && (lo + |t| <= off || off + |s| <= lo)
    ensures At(Splice(d, off, s), lo, t)
  {
  }

  method DescriptorBuffer(crc: u32, size: u32) returns (buf: seq<byte>)
    ensures buf == Descriptor(crc, size)
  {
    var b := new byte[16](_ => 0);
    b[0], b[1], b[2], b[3] := 0x50, 0x4B, 0x07, 0x08;
    ghost var b0 := b[..];
    assert At(b0, 0, DESCRIPTOR_SIG);
    hide At, Splice, Put32, Descriptor, DESCRIPTOR_SIG;
    Store32(b, 4, crc);
    ghost var b1 := b[..];
    Store32(b, 8, size);
    ghost var b2 := b[..];
    Store32(b, 12, size);
    buf := b[..];
    SpliceLies(b0, 4, Put32(crc));
    SpliceLies(b1, 8, Put32(size));
    SpliceLies(b2, 12, Put32(size));
    SpliceKeeps(b0, 4, Put32(crc), 0, DESCRIPTOR_SIG);
    SpliceKeeps(b1, 8, Put32(size), 0, DESCRIPTOR_SIG);
    SpliceKeeps(b2, 12, Put32(size), 0, DESCRIPTOR_SIG);
    SpliceKeeps(b1, 8, Put32(size), 4, Put32(crc));
    SpliceKeeps(b2, 12, Put32(size), 4, Put32(crc));
    SpliceKeeps(b2, 12, Put32(size), 8, Put32(size));
    DescriptorAssembles(b[..], crc, size);
  }

  lemma DescriptorAssembles(s: seq<byte>, crc: u32, size: u32)
    requires |s| == 16 && At(s, 0, DESCRIPTOR_SIG) && At(s, 4, Put32(crc))
    requires At(s, 8, Put32(size)) && At(s, 12, Put32(size))
    ensures s == Descriptor(crc, size)
  {
    hide Put32;
    assert s == s[0..4] + (s[4..8] + (s[8..12] + s[12..16]));
  }

  method CentralBuffer(name: Name, crc: u32, size: u32, offset: u32) returns (buf: seq<byte>)
    ensures buf == Central(name, crc, size, offset)
  {
    var b := new byte[46](_ => 0);
    b[0], b[1], b[2], b[3] := 0x50, 0x4B, 0x01, 0x02;
    b[4] := 20;
    b[6] := 20;
    b[8] := 0x08;
    b[28] := |name|;
    CentralFixed(b[..], name);
    hide At, Splice, Put16, Put32, Zeros, Central, CENTRAL_SIG;
    ghost var b0 := b[..];
    Store32(b, 16, crc);
    ghost var b1 := b[..];
    Store32(b, 20, size);
    ghost var b2 := b[..];
    Store32(b, 24, size);
    ghost var b3 := b[..];
    Store32(b, 42, offset);
    buf := b[..] + name;
    CentralHeadKept(b0, 16, Put32(crc), name);
    CentralHeadKept(b1, 20, Put32(size), name);
    CentralHeadKept(b2, 24, Put32(size), name);
    CentralHeadKept(b3, 42, Put32(offset), name);
    SpliceLies(b0, 16, Put32(crc));
    SpliceLies(b1, 20, Put32(size));
    SpliceLies(b2, 24, Put32(size));
    SpliceLies(b3, 42, Put32(offset));
    SpliceKeeps(b1, 20, Put32(size), 16, Put32(crc));
    SpliceKeeps(b2, 24, Put32(size), 16, Put32(crc));
    SpliceKeeps(b2, 24, Put32(size), 20, Put32(size));
    SpliceKeeps(b3, 42, Put32(offset), 16, Put32(crc));
    SpliceKeeps(b3, 42, Put32(offset), 20, Put32(size));
    SpliceKeeps(b3, 42, Put32(offset), 24, Put32(size));
    CentralAssembles(b[..], name, crc, size, offset);
  }

  function CentralHead(): (r: seq<byte>)
    ensures |r| == 16
  {
    CENTRAL_SIG + (Put16(20) + (Put16(20) + (Put16(8) + (Put16(0) + Zeros(4)))))
  }

  lemma CentralFixed(s: seq<byte>, name: Name)
    requires |s| == 46 && s[..16] == [0x50, 0x4B, 0x01, 0x02, 20, 0, 20, 0, 0x08, 0, 0, 0, 0, 0, 0, 0]
    requires s[28] == |name| && forall i :: 29 <= i < 42 ==> s[i] == 0
    ensures At(s, 0, CentralHead()) && At(s, 28, Put16(|name|) + Zeros(12))
  {
    assert s[0..16] == CentralHead();
    assert s[28..42] == Put16(|name|) + Zeros(12);
  }

  lemma CentralHeadKept(s: seq<byte>, off: nat, v: seq<byte>, name: Name)
    requires |s| == 46 && |v| == 4 && (16 <= off <= 24 || off == 42)
    requires At(s, 0, CentralHead()) && At(s, 28, Put16(|name|) + Zeros(12))
    ensures At(Splice(s, off, v), 0, CentralHead()) && At(Splice(s, off, v), 28, Put16(|name|) + Zeros(12))
  {
    hide At, Splice, CentralHead, Put16, Zeros;
    SpliceKeeps(s, off, v, 0, CentralHead());
    SpliceKeeps(s, off, v, 28, Put16(|name|) + Zeros(12));
  }

  lemma CentralAssembles(s: seq<byte>, name: Name, crc: u32, size: u32, offset: u32)
    requires |s| == 46 && At(s, 0, CentralHead()) && At(s, 28, Put16(|name|) + Zeros(12))
    requires At(s, 16, Put32(crc)) && At(s, 20, Put32(size)) && At(s, 24, Put32(size)) && At(s, 42, Put32(offset))
    ensures s + name == Central(name, crc, size, offset)
  {
    hide Put16, Put32, Zeros, CENTRAL_SIG;
    assert s == s[0..16] + (s[16..20] + (s[20..24] + (s[24..28] + (s[28..42] + s[42..46]))));
  }

  method EndBuffer(count: u16, size: u32, offset: u32) returns (buf: seq<byte>)
    ensures buf == End(count, size, offset)
  {
    var b := new byte[22](_ => 0);
    b[0], b[1], b[2], b[3] := 0x50, 0x4B, 0x05, 0x06;
    Store16(b, 8, count);
    Store16(b, 10, count);
    EndFixed(b[..], count);
    hide At, Splice, Put16, Put32, Zeros, End, END_SIG;
    ghost var b0 := b[..];
    Store32(b, 12, size);
    ghost var b1 := b[..];
    Store32(b, 16, offset);
    buf := b[..];
    SpliceLies(b0, 12, Put32(size));
    SpliceLies(b1, 16, Put32(offset));
    SpliceKeeps(b1, 16, Put32(offset), 12, Put32(size));
    SpliceKeeps(b0, 12, Put32(size), 0, EndHead(count));
    SpliceKeeps(b1, 16, Put32(offset), 0, EndHead(count));
    SpliceKeeps(b0, 12, Put32(size), 20, Put16(0));
    SpliceKeeps(b1, 16, Put32(offset), 20, Put16(0));
    EndAssembles(b[..], count, size, offset);
  }

  function EndHead(count: u16): (r: seq<byte>)
    ensures |r| == 12
  {
    END_SIG + (Zeros(4) + (Put16(count) + Put16(count)))
  }

  lemma EndFixed(s: seq<byte>, count: u16)
    requires |s| == 22 && s[..4] == END_SIG && s[4..8] == Zeros(4) && s[8..10] == Put16(count) == s[10..12]
    requires s[20..22] == [0, 0]
    ensures At(s, 0, EndHead(count)) && At(s, 20, Put16(0))
  {
    assert s[0..12] == EndHead(count);
  }

  lemma EndAssembles(s: seq<byte>, count: u16, size: u32, offset: u32)
    requires |s| == 22 && At(s, 0, EndHead(count)) && At(s, 20, Put16(0))
    requires At(s, 12, Put32(size)) && At(s, 16, Put32(offset))
    ensures s == End(count, size, offset)
  {
    hide Put16, Put32, Zeros, END_SIG;
    assert s == s[0..12] + (s[12..16] + (s[16..20] + s[20..22]));
  }

  method Store16(b: array<byte>, off: nat, v: u16)
    requires off + 2 <= b.Length
    modifies b
    ensures b[..] == Splice(old(b[..]), off, Put16(v))
  {
    b[off] := v % 0x100;
    b[off + 1] := v / 0x100;
  }

  method Store32(b: array<byte>, off: nat, v: u32)
    requires off + 4 <= b.Length
    modifies b
    ensures b[..] == Splice(old(b[..]), off, Put32(v))
  {
    b[off] := v % 0x100;
    b[off + 1] := v / 0x100 % 0x100;
    b[off + 2] := v / 0x1_0000 % 0x100;
    b[off + 3] := v / 0x100_0000;
  }

  lemma OffsetWraps(es: seq<Entry>, i: nat)
    requires i < |es|
    ensures Start(es, i + 1) % TWO_TO_32
            == (Start(es, i) % TWO_TO_32 + 30 + |es[i].name| + es[i].size as int + 16) % TWO_TO_32
    ensures Dir(es, i + 1) == Dir(es, i) + 46 + |es[i].name| <= 125 * (i + 1)
  {
    DirFits(es, i + 1);
    var a, b := Start(es, i), 30 + |es[i].name| + es[i].size as int + 16;
    assert (a + b) % TWO_TO_32 == (a % TWO_TO_32 + b) % TWO_TO_32;
  }

  lemma FirstOffset(es: seq<Entry>)
    ensures Start(es, 0) == Dir(es, 0) == 0
  {
  }

  lemma ArmFields(es: seq<Entry>)
    requires |es| <= MAX_ENTRIES
    ensures var a := Arm(es);
            a == Stream(true, if |es| == 0 then Eocd else LocalHeader, es, a.offsets, a.crcs, 0, Shut, 0, 0, a.cdOffset, a.cdSize, [])
  {
    hide Start, DirSize;
  }

  /** Header offsets and directory size; the running offset wraps at 32 bits. */
  method Layout(es: seq<Entry>) returns (offsets: seq<u32>, crcs: seq<u32>, offset: u32, size: u32)
    requires |es| <= MAX_ENTRIES
    ensures offsets == Arm(es).offsets && crcs == Arm(es).crcs
    ensures offset == Arm(es).cdOffset && size == Arm(es).cdSize
  {
    hide Start, Dir;
    offset, size := 0, 0;
    offsets, crcs := [], [];
    FirstOffset(es);
    for i := 0 to |es|
      invariant offset == Start(es, i) % TWO_TO_32 && size as int == Dir(es, i)
      invariant |offsets| == i && forall j :: 0 <= j < i ==> offsets[j] == Start(es, j) % TWO_TO_32
      invariant |crcs| == i && forall j :: 0 <= j < i ==> crcs[j] == 0
    {
      offsets := offsets + [offset];
      crcs := crcs + [0];
      OffsetWraps(es, i);
      offset := (offset as int + 30 + |es[i].name| + es[i].size as int + 16) % TWO_TO_32;
      size := size as int + 46 + |es[i].name|;
    }
  }

  // ----- the handler ------------------------------------------------------

  class Archiver {
    var active: bool
    var phase: Phase
    var entries: seq<Entry>
    var offsets: seq<u32>
    var crcs: seq<u32>
    var idx: nat
    var file: File
    var remaining: u32
    var crc: bv32
    var cdOffset: u32
    var cdSize: u32
    var wire: seq<byte>

    ghost function State(): Stream
      reads this
    {
      Stream(active, phase, entries, offsets, crcs, idx, file, remaining, crc, cdOffset, cdSize, wire)
    }

    constructor ()
      ensures Ready(State()) && !active
    {
      active, phase, entries, offsets, crcs, idx := false, LocalHeader, [], [], [], 0;
      file, remaining, crc, cdOffset, cdSize, wire := Shut, 0, 0, 0, 0, [];
    }

    /** Arms the stream and returns the size to promise. */
    method HandleGetSdArchive(es: seq<Entry>) returns (total: nat)
      requires |es| <= MAX_ENTRIES
      modifies this
      ensures State() == Arm(es) && total == Promise(Arm(es))
    {
      ArmFields(es);
      hide Arm;
      entries := es;
      offsets, crcs, cdOffset, cdSize := Layout(es);
      idx, file, remaining, crc, wire := 0, Shut, 0, 0, [];
      phase := if |es| == 0 then Eocd else LocalHeader;
      active := true;
      total := cdOffset as int + cdSize as int + 22;
    }

    method AbortArchive()
      modifies this
      ensures State() == Abort(old(State()))
    {
      file := Shut;
      active := false;
    }

    /** Hands bytes to the transport, which takes a prefix. */
    method SendRaw(buf: seq<byte>, accepted: nat) returns (sent: nat)
      modifies `wire
      ensures sent == Min(accepted, |buf|) && wire == old(wire) + buf[..sent]
    {
      sent := if accepted < |buf| then accepted else |buf|;
      wire := wire + buf[..sent];
    }

    method ServiceArchive(t: Tick, disk: seq<seq<byte>>)
      requires Ready(State()) && |disk| == |entries|
      modifies this
      ensures State() == Service(old(State()), t, disk)
    {
      if !active {
        return;
      }
      if t.timedOut {
        AbortArchive();
        return;
      }
      match phase
      case LocalHeader => ServiceLocalHeader(t, disk);
      case FileData => if remaining == 0 { FinishData(t, disk); } else { ServiceData(t, disk); }
      case DataDescriptor => ServiceDescriptor(t, disk);
      case CentralDir => ServiceCentral(t, disk);
      case Eocd => ServiceEnd(t, disk);
    }

    method ServiceLocalHeader(t: Tick, disk: seq<seq<byte>>)
      requires Ready(State()) && active && phase == LocalHeader && |disk| == |entries|
      modifies this
      ensures State() == Sent(old(State()), Buffer(old(State()), t.rd), t.accepted, Next(old(State()), t, disk))
    {
      hide Local;
      var buf := LocalBuffer(entries[idx].name);
      var sent := SendRaw(buf, t.accepted);
      if sent < |buf| {
        AbortArchive();
        return;
      }
      crc := 0xFFFF_FFFF;
      remaining := entries[idx].size;
      file := if t.openOk then Open(disk[idx], 0) else Shut;
      phase := FileData;
    }

    method FinishData(t: Tick, disk: seq<seq<byte>>)
      requires Ready(State()) && active && phase == FileData && remaining == 0 && |disk| == |entries|
      modifies this
      ensures State() == Sent(old(State()), Buffer(old(State()), t.rd), t.accepted, Next(old(State()), t, disk))
    {
      hide Closed;
      file := Shut;
      crcs := crcs[idx := Closed(crc)];
      phase := DataDescriptor;
      assert wire + [] == wire;
    }

    /** The next chunk and the file after it; the file is closed on a failed read. */
    method ReadChunk(rd: int) returns (chunk: seq<byte>, next: File)
      requires Ready(State()) && remaining > 0
      ensures chunk == Chunk(State(), rd) && next == AfterChunk(State(), rd).file
    {
      hide Words, Crc32.Update;
      var want := if remaining < CHUNK then remaining as int else CHUNK;
      if file.Open? && rd > 0 {
        var got := Min(Min(rd, want), |file.content| - file.pos);
        if got > 0 {
          return file.content[file.pos..file.pos + got], Open(file.content, file.pos + got);
        }
      }
      return Zeros(want), Shut;
    }

    method ServiceData(t: Tick, disk: seq<seq<byte>>)
      requires Ready(State()) && active && phase == FileData && remaining > 0 && |disk| == |entries|
      modifies this
      ensures State() == Sent(old(State()), Buffer(old(State()), t.rd), t.accepted, Next(old(State()), t, disk))
    {
      hide Words, Chunk, Crc32.Update;
      var chunk, next := ReadChunk(t.rd);
      var running := Crc32.Crc32Update(crc, Words(chunk));
      var sent := SendRaw(chunk, t.accepted);
      if sent < |chunk| {
        AbortArchive();
        return;
      }
      crc := running;
      remaining := remaining as int - |chunk|;
      file := next;
    }

    method ServiceDescriptor(t: Tick, disk: seq<seq<byte>>)
      requires Ready(State()) && active && phase == DataDescriptor && |disk| == |entries|
      modifies this
      ensures State() == Sent(old(State()), Buffer(old(State()), t.rd), t.accepted, Next(old(State()), t, disk))
    {
      hide Descriptor;
      var buf := DescriptorBuffer(crcs[idx], entries[idx].size);
      var sent := SendRaw(buf, t.accepted);
      if sent < |buf| {
        AbortArchive();
        return;
      }
      idx := idx + 1;
      if idx < |entries| {
        phase := LocalHeader;
      } else {
        idx := 0;
        phase := CentralDir;
      }
    }

    method ServiceCentral(t: Tick, disk: seq<seq<byte>>)
      requires Ready(State()) && active && phase == CentralDir && |disk| == |entries|
      modifies this
      ensures State() == Sent(old(State()), Buffer(old(State()), t.rd), t.accepted, Next(old(State()), t, disk))
    {
      hide Central;
      var buf := CentralBuffer(entries[idx].name, crcs[idx], entries[idx].size, offsets[idx]);
      var sent := SendRaw(buf, t.accepted);
      if sent < |buf| {
        AbortArchive();
        return;
      }
      idx := idx + 1;
      if idx >= |entries| {
        phase := Eocd;
      }
    }

    method ServiceEnd(t: Tick, disk: seq<seq<byte>>)
      requires Ready(State()) && active && phase == Eocd && |disk| == |entries|
      modifies this
      ensures State() == Sent(old(State()), Buffer(old(State()), t.rd), t.accepted, Next(old(State()), t, disk))
    {
      hide End;
      var buf := EndBuffer(|entries|, cdSize, cdOffset);
      var sent := SendRaw(buf, t.accepted);
      if sent < |buf| {
        AbortArchive();
        return;
      }
      active := false;
    }
  }
}
