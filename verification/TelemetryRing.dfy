/** The ring as the firmware runs it: cursors and bytes updated in place, flushed line by line. */
module TelemetryRing {
  import opened Bytes
  import opened Ring
  import opened RingProofs
  import opened RingCrash

  class Telemetry {
    const data: array<byte>
    var hdr: Header

    // The persistence model: what memory proper holds, which stored bytes are still only in
    // the cache, and every instant at which a reset could have struck.
    ghost var saved: Memory
    ghost var lo: nat
    ghost var hi: nat
    ghost var instants: seq<Point>

    ghost function Mem(): Memory
      reads this, data
    {
      Memory(hdr, data[..])
    }

    /** Memory proper differs from the cache only in unflushed bytes and the header line. */
    ghost predicate Coherent()
      reads this, data
    {
      && data.Length == SIZE == |saved.data|
      && lo <= hi <= SIZE
      && forall i :: 0 <= i < SIZE && !(lo <= i < hi) ==> saved.data[i] == data[i]
    }

    /** Between operations everything is flushed and the ring is consistent. */
    ghost predicate Valid()
      reads this, data
    {
      && data.Length == SIZE
      && Consistent(Mem())
      && saved == Mem()
      && lo == hi == 0
    }

    /** Power-up over whatever bytes the region holds. */
    constructor (contents: seq<byte>, line: Header)
      requires |contents| == SIZE
      ensures fresh(data) && data.Length == SIZE && data[..] == contents && hdr == line
      ensures Coherent() && saved == Mem() && lo == hi == 0
    {
      data := new byte[SIZE](i requires 0 <= i < SIZE => contents[i]);
      hdr := line;
      saved := Memory(line, contents);
      lo, hi, instants := 0, 0, [];
      new;
      assert data[..] == contents;
    }

    ghost method Instant()
      modifies `instants
      ensures instants == old(instants) + [Point(saved.hdr, saved.data, lo, hi)]
    {
      instants := instants + [Point(saved.hdr, saved.data, lo, hi)];
    }

    /** memcpy into the record area: cached, not yet in memory. */
    method Store(off: nat, bytes: seq<byte>)
      requires Coherent() && off + |bytes| <= SIZE && bytes != []
      modifies data, `lo, `hi, `instants
      ensures Coherent()
      ensures data[..] == Splice(old(data[..]), off, bytes)
      ensures lo == (if old(lo == hi) then off else Min(old(lo), off))
      ensures hi == (if old(lo == hi) then off + |bytes| else if old(hi) < off + |bytes| then off + |bytes| else old(hi))
      ensures instants == old(instants) + [Point(saved.hdr, saved.data, lo, hi)]
    {
      forall i | 0 <= i < |bytes| {
        data[off + i] := bytes[i];
      }
      if lo == hi {
        lo, hi := off, off + |bytes|;
      } else {
        lo, hi := Min(lo, off), if hi < off + |bytes| then off + |bytes| else hi;
      }
      Instant();
    }

    /** arm_dcache_flush over record bytes. */
    method Flush(off: nat, len: nat)
      requires Coherent() && off <= lo && hi <= off + len <= SIZE
      modifies `saved, `lo, `hi, `instants
      ensures Coherent() && saved == Memory(old(saved.hdr), data[..]) && lo == hi == 0
      ensures instants == old(instants) + [Point(saved.hdr, data[..], 0, 0)]
    {
      ghost var line := data[off..off + len];
      saved := saved.(data := Splice(saved.data, off, line));
      lo, hi := 0, 0;
      assert saved.data == data[..];
      Instant();
    }

    /** sealHeader: checksum, then the header line to memory. */
    method SealHeader()
      requires Coherent() && lo == hi == 0
      modifies `hdr, `saved, `instants
      ensures Coherent() && hdr == Sealed(old(hdr))
      ensures saved == Memory(hdr, old(saved.data))
      ensures instants == old(instants) + [Point(hdr, saved.data, 0, 0)]
    {
      hdr := hdr.(checksum := ComputeCheck(hdr));
      saved := saved.(hdr := hdr);
      Instant();
    }

    /** makeRoom: advance read_off past whole records until `need` bytes are free. */
    method MakeRoomFor(need: nat) returns (evicted: nat)
      requires data.Length == SIZE && WellSized(Mem()) && need <= SIZE - 0x100
      modifies `hdr
      ensures var res := MakeRoom(data[..], old(hdr.readOff), old(hdr.writeOff), need);
              hdr == old(hdr).(readOff := res.0) && evicted == res.1
    {
      hide MakeRoom;
      evicted := 0;
      var off: nat, w: nat := hdr.readOff, hdr.writeOff;
      ghost var d := data[..];
      ghost var goal := MakeRoom(d, off, w, need);
      while Free(off, w) < need
        invariant off < SIZE && data[..] == d && hdr == old(hdr)
        invariant MakeRoom(d, off, w, need) == (goal.0, goal.1 - evicted)
        decreases Used(off, w)
      {
        RoomStep(d, off, w, need);
        var len := data[off];
        if len == 0 || off + len > SIZE {
          off := w;
          break;
        }
        if !(len < HEADER_LEN || data[off + 1] == REC_PAD) {
          evicted := evicted + 1;
        }
        off := Wrap(off + len);
      }
      RoomEnd(d, off, w, need);
      hdr := hdr.(readOff := off);
    }

    /** One turn of the loop on the specification; with no room the ring is not empty, for `need` is far below its
        size. */
    static lemma RoomStep(d: seq<byte>, r: nat, w: nat, need: nat)
      requires |d| == SIZE && r < SIZE && w < SIZE && need <= SIZE - 0x100 && Free(r, w) < need
      ensures r != w
      ensures d[r] == 0 || r + d[r] > SIZE ==> MakeRoom(d, r, w, need) == (w, 0)
      ensures d[r] != 0 && r + d[r] <= SIZE ==>
                var rest := MakeRoom(d, Wrap(r + d[r]), w, need);
                && MakeRoom(d, r, w, need) == (rest.0, rest.1 + if IsPadAt(d, r) then 0 else 1)
                && Used(Wrap(r + d[r]), w) < Used(r, w)
    {
    }

    static lemma RoomEnd(d: seq<byte>, r: nat, w: nat, need: nat)
      requires |d| == SIZE && r < SIZE && w < SIZE && need <= SIZE - 0x100 && Free(r, w) >= need
      ensures MakeRoom(d, r, w, need) == (r, 0)
    {
    }

    /** appendRaw: evict and publish, PAD, record bytes, flush, publish. */
    method Append(rec: Record) returns (evicted: nat)
      requires Valid() && IsRecord(rec)
      modifies this, data
      ensures Valid()
      ensures Mem() == AppendRaw(old(Mem()), rec) && evicted == old(Evict(Mem(), |rec|)).1
      ensures instants == old(instants) + AppendPoints(old(Mem()), rec)
    {
      ghost var m := Mem();
      StepsMakeAppend(m, rec, instants);
      RecordSize(rec);
      hide AppendRaw, AppendPoints, PadPoints, Before, WritingHeader, EvictedHeader, PaddedData, Published, StampSeq,
           Consistent, Evict, IsRecord, Splice;
      evicted := EvictAndPublish(|rec|);
      PadAndWrite(m, rec);
    }

    /** The tail's PAD if one is needed, then the record and its header. */
    method PadAndWrite(ghost m: Memory, rec: Record)
      requires WellSized(m) && IsRecord(rec) && |rec| <= RECORD_LEN_MAX
      requires Coherent() && lo == hi == 0 && saved == Memory(WritingHeader(m, |rec|), m.data)
      requires data[..] == m.data && hdr == EvictedHeader(m, |rec|)
      modifies this, data
      ensures var h, d, w := EvictedHeader(m, |rec|), PaddedData(m, |rec|), Slot(m.hdr, |rec|);
              && Mem() == Memory(Published(h, w + |rec|), Splice(d, w, StampSeq(rec, IssuedSeq(h))))
              && instants == old(instants) + PadPoints(m, |rec|)
                             + [Point(WritingHeader(m, |rec|), d, w, w + |rec|),
                                Point(WritingHeader(m, |rec|), data[..], 0, 0), Point(hdr, data[..], 0, 0)]
      ensures Coherent() && saved == Mem() && lo == hi == 0
    {
      RecordSize(rec);
      hide AppendRaw, PadPoints, WritingHeader, EvictedHeader, PaddedData, Published, StampSeq, Evict, IsRecord, Splice;
      var w := PadTail(m, |rec|);
      WriteRecord(rec, w);
    }

    static ghost function Before(m: Memory, len: nat): seq<Point>
      requires WellSized(m) && len <= RECORD_LEN_MAX
    {
      if Evict(m, len).1 > 0 then [Point(EvictedHeader(m, len), m.data, 0, 0)] else []
    }

    /** The tail, when too short for the record, becomes a PAD. */
    method PadTail(ghost m: Memory, len: nat) returns (w: nat)
      requires WellSized(m) && HEADER_LEN <= len <= RECORD_LEN_MAX
      requires Coherent() && lo == hi == 0 && saved == Memory(WritingHeader(m, len), m.data)
      requires data[..] == m.data && hdr == EvictedHeader(m, len)
      modifies data, `saved, `lo, `hi, `instants
      ensures Coherent() && lo == hi == 0 && saved == Memory(WritingHeader(m, len), PaddedData(m, len))
      ensures data[..] == PaddedData(m, len) && w == Slot(m.hdr, len)
      ensures instants == old(instants) + PadPoints(m, len)
    {
      var tail := SIZE - hdr.writeOff;
      w := hdr.writeOff;
      if tail < len {
        WritePad(w, tail);
        w := 0;
      }
    }

    /** Room for the record, and for the PAD in front of it; counted evictions reach memory first. */
    method EvictAndPublish(len: nat) returns (evicted: nat)
      requires Valid() && HEADER_LEN <= len <= RECORD_LEN_MAX
      modifies `hdr, `saved, `instants
      ensures Coherent() && lo == hi == 0 && evicted == old(Evict(Mem(), len)).1
      ensures hdr == EvictedHeader(old(Mem()), len)
      ensures saved == Memory(WritingHeader(old(Mem()), len), data[..])
      ensures instants == old(instants) + Before(old(Mem()), len)
    {
      assert WellSized(Mem());
      hide Consistent, MakeRoom, Sealed;
      var tail := SIZE - hdr.writeOff;
      var need := if tail < len then tail + len else len;
      evicted := MakeRoomFor(need);
      if evicted != 0 {
        hdr := hdr.(dropped := (hdr.dropped + evicted) % TWO_TO_32);
        SealHeader();
      }
    }

    /** The record's bytes, flushed, and then the header that makes them live. */
    method WriteRecord(rec: Record, w: nat)
      requires IsRecord(rec) && w + |rec| <= SIZE
      requires Coherent() && lo == hi == 0 && saved.data == data[..]
      modifies this, data
      ensures hdr == Published(old(hdr), w + |rec|)
      ensures data[..] == Splice(old(data[..]), w, StampSeq(rec, IssuedSeq(old(hdr))))
      ensures Coherent() && saved == Mem() && lo == hi == 0
      ensures instants == old(instants) + [Point(old(saved.hdr), old(data[..]), w, w + |rec|),
                                           Point(old(saved.hdr), data[..], 0, 0), Point(hdr, data[..], 0, 0)]
    {
      var q: u32 := if hdr.nextSeq == 0 || hdr.nextSeq == 0xFFFF_FFFF then 1 else hdr.nextSeq;
      var stamped := StampSeq(rec, q);
      Store(w, stamped);
      Flush(w, |rec|);
      var end := w + |rec|;
      hdr := hdr.(writeOff := if end == SIZE then 0 else end, nextSeq := q + 1);
      SealHeader();
    }

    static ghost function Published(h: Header, end: nat): Header
      requires end <= SIZE
    {
      Sealed(h.(writeOff := Wrap(end), nextSeq := IssuedSeq(h) + 1))
    }

    /** The steps of an append, put together, are AppendRaw ... */
    static lemma StepsMemory(m: Memory, rec: Record)
      requires WellSized(m) && IsRecord(rec)
      ensures var h, w := EvictedHeader(m, |rec|), Slot(m.hdr, |rec|);
              AppendRaw(m, rec) == Memory(Published(h, w + |rec|),
                                          Splice(PaddedData(m, |rec|), w, StampSeq(rec, IssuedSeq(h))))
    {
    }

    /** ... and its instants. */
    static lemma StepsPoints(m: Memory, rec: Record, start: seq<Point>)
      requires WellSized(m) && IsRecord(rec)
      ensures var h, d, w, m' := WritingHeader(m, |rec|), PaddedData(m, |rec|), Slot(m.hdr, |rec|), AppendRaw(m, rec);
              start + Before(m, |rec|) + PadPoints(m, |rec|)
              + [Point(h, d, w, w + |rec|), Point(h, m'.data, 0, 0), Point(m'.hdr, m'.data, 0, 0)]
              == start + AppendPoints(m, rec)
    {
      var h, d, w, m' := WritingHeader(m, |rec|), PaddedData(m, |rec|), Slot(m.hdr, |rec|), AppendRaw(m, rec);
      var c := [Point(h, d, w, w + |rec|), Point(h, m'.data, 0, 0), Point(m'.hdr, m'.data, 0, 0)];
      assert AppendPoints(m, rec) == Before(m, |rec|) + PadPoints(m, |rec|) + c;
      SeqJoin(start, Before(m, |rec|), PadPoints(m, |rec|), c);
    }

    static lemma StepsMakeAppend(m: Memory, rec: Record, start: seq<Point>)
      requires Consistent(m) && IsRecord(rec)
      ensures Consistent(AppendRaw(m, rec))
      ensures var h, d, w := EvictedHeader(m, |rec|), PaddedData(m, |rec|), Slot(m.hdr, |rec|);
              var m' := Memory(Published(h, w + |rec|), Splice(d, w, StampSeq(rec, IssuedSeq(h))));
              && m' == AppendRaw(m, rec)
              && start + AppendPoints(m, rec)
                 == start + Before(m, |rec|) + PadPoints(m, |rec|)
                    + [Point(WritingHeader(m, |rec|), d, w, w + |rec|), Point(WritingHeader(m, |rec|), m'.data, 0, 0), Point(m'.hdr, m'.data, 0, 0)]
    {
      assert WellSized(m);
      hide AppendRaw, AppendPoints, PadPoints, Before, WritingHeader, EvictedHeader, PaddedData, Published, StampSeq, Consistent;
      StepsMemory(m, rec);
      StepsPoints(m, rec, start);
      AppendRefinesFifo(m, rec);
    }

    static lemma SeqJoin(s: seq<Point>, a: seq<Point>, b: seq<Point>, c: seq<Point>)
      ensures s + a + b + c == s + (a + b + c)
    {
    }

    /** The PAD's second byte behind its first is the PAD. */
    static lemma PadSplices(d: seq<byte>, w: nat, tail: nat)
      requires w + tail == |d| && 0 < tail < 0x100
      ensures tail == 1 ==> Splice(d, w, [tail]) == Splice(d, w, PadBytes(tail))
      ensures tail >= 2 ==> Splice(Splice(d, w, [tail]), w + 1, [REC_PAD]) == Splice(d, w, PadBytes(tail))
    {
    }

    method WritePad(w: nat, tail: nat)
      requires Coherent() && lo == hi == 0 && saved.data == data[..] && 0 < tail < RECORD_LEN_MAX && w + tail == SIZE
      modifies data, `saved, `lo, `hi, `instants
      ensures Coherent() && lo == hi == 0 && saved == Memory(old(saved.hdr), data[..])
      ensures data[..] == Splice(old(data[..]), w, PadBytes(tail))
      ensures instants == old(instants) + [Point(saved.hdr, old(data[..]), w, w + 1)]
                          + (if tail >= 2 then [Point(saved.hdr, old(data[..]), w, w + 2)] else [])
                          + [Point(saved.hdr, data[..], 0, 0)]
    {
      PadSplices(data[..], w, tail);
      hide Splice, PadBytes;
      Store(w, [tail]);
      if tail >= 2 {
        Store(w + 1, [REC_PAD]);
      } else {
        assert instants == instants + [];
      }
      Flush(w, tail);
    }

    /** ack: free every leading record the host has confirmed. */
    method Acknowledge(ackSeq: u32)
      requires Valid()
      modifies `hdr, `saved, `instants
      ensures Valid() && Mem() == Ack(old(Mem()), ackSeq)
    {
      if ackSeq == NO_ACK || ackSeq >= hdr.nextSeq {
        return;
      }
      ghost var k := AckRefinesFifo(Mem(), ackSeq);
      var off := WalkAcked(ackSeq);
      if off != hdr.readOff {
        hdr := hdr.(readOff := off);
        SealHeader();
      }
    }

    /** The offset of the first byte ack must keep. */
    method WalkAcked(ackSeq: u32) returns (off: nat)
      requires data.Length == SIZE && WellSized(Mem())
      ensures off == AckWalk(data[..], hdr.readOff, hdr.writeOff, ackSeq)
    {
      hide AckWalk, WellFormedAt, Used;
      ghost var d := data[..];
      off := hdr.readOff;
      var w: nat := hdr.writeOff;
      while off != w
        invariant off < SIZE
        invariant AckWalk(d, off, w, ackSeq) == AckWalk(d, hdr.readOff, w, ackSeq)
        decreases Used(off, w)
      {
        AckStep(d, off, w, ackSeq);
        if !WellFormedAt(data[..], off, w) {
          break;
        }
        var len := data[off];
        if !(len < HEADER_LEN || data[off + 1] == REC_PAD) && Get32(data[off + 2..off + 6]) > ackSeq {
          break;
        }
        off := Wrap(off + len);
      }
      AckEnds(d, off, w, ackSeq);
    }

    /** One turn of ack's walk. */
    static lemma AckStep(d: seq<byte>, off: nat, w: nat, ack: u32)
      requires |d| == SIZE && off < SIZE && w < SIZE && off != w
      ensures !WellFormedAt(d, off, w) ==> AckWalk(d, off, w, ack) == off
      ensures WellFormedAt(d, off, w) ==>
                && off + d[off] <= SIZE && 0 <= Used(Wrap(off + d[off]), w) < Used(off, w)
                && (d[off] >= HEADER_LEN ==> off + 6 <= SIZE)
                && AckWalk(d, off, w, ack)
                   == (if !(d[off] < HEADER_LEN || d[off + 1] == REC_PAD) && Get32(d[off + 2..off + 6]) > ack then off
                       else AckWalk(d, Wrap(off + d[off]), w, ack))
    {
    }

    static lemma AckEnds(d: seq<byte>, off: nat, w: nat, ack: u32)
      requires |d| == SIZE && off < SIZE && w < SIZE
      ensures off == w ==> AckWalk(d, off, w, ack) == off
    {
    }

    /** peek's loop from a given point: what it returns once `dst` holds `count` records. */
    static ghost function PeekFrom(d: seq<byte>, off: nat, w: nat, max: nat, dst: seq<byte>, count: nat, first: u32): Peeked
      requires |d| == SIZE && off < SIZE && w < SIZE
      decreases Used(off, w)
    {
      if off == w || !WellFormedAt(d, off, w) then Peeked(dst, count, first, off)
      else if IsPadAt(d, off) then PeekFrom(d, Wrap(off + d[off]), w, max, dst, count, first)
      else if |dst| + d[off] > max then Peeked(dst, count, first, off)
      else PeekFrom(d, Wrap(off + d[off]), w, max, dst + d[off..off + d[off]], count + 1,
                    if count == 0 then SeqAt(d, off) else first)
    }

    static lemma {:induction false} PeekFromIsPeek(d: seq<byte>, off: nat, w: nat, max: nat, dst: seq<byte>, count: nat, first: u32)
      requires |d| == SIZE && off < SIZE && w < SIZE && |dst| <= max
      ensures var rest := PeekWalk(d, off, w, max - |dst|);
              PeekFrom(d, off, w, max, dst, count, first)
              == Peeked(dst + rest.bytes, count + rest.count,
                        if count == 0 && rest.count > 0 then rest.first else first, rest.stop)
      decreases Used(off, w)
    {
      if off != w && WellFormedAt(d, off, w) {
        var next, s := Wrap(off + d[off]), d[off..off + d[off]];
        if IsPadAt(d, off) {
          PeekFromIsPeek(d, next, w, max, dst, count, first);
        } else if |dst| + d[off] <= max {
          PeekFromIsPeek(d, next, w, max, dst + s, count + 1, if count == 0 then SeqAt(d, off) else first);
          var rest := PeekWalk(d, next, w, max - |dst + s|);
          assert dst + (s + rest.bytes) == (dst + s) + rest.bytes;
        }
      }
    }

    /** peek: whole records from read_off that fit `maxBytes`; nothing is freed. */
    method PeekAt(maxBytes: nat) returns (dst: seq<byte>, firstSeq: u32, count: nat, more: bool)
      requires data.Length == SIZE && WellSized(Mem())
      ensures var p := Peek(Mem(), maxBytes);
              dst == p.bytes && count == p.count && firstSeq == p.first && (more <==> p.stop != hdr.writeOff)
    {
      hide PeekWalk, PeekFrom, SeqAt;
      dst, firstSeq, count := [], 0, 0;
      var d := data[..];
      var off: nat, w: nat := hdr.readOff, hdr.writeOff;
      ghost var goal := PeekFrom(d, off, w, maxBytes, dst, count, firstSeq);
      PeekIsFrom(d, off, w, maxBytes);
      while off != w
        invariant off < SIZE
        invariant PeekFrom(d, off, w, maxBytes, dst, count, firstSeq) == goal
        decreases Used(off, w)
      {
        PeekTurn(d, off, w, maxBytes, dst, count, firstSeq);
        if !WellFormedAt(d, off, w) {
          break;
        }
        var len := d[off];
        if !IsPadAt(d, off) {
          if |dst| + len > maxBytes {
            break;
          }
          if count == 0 {
            firstSeq := SeqAt(d, off);
          }
          dst := dst + d[off..off + len];
          count := count + 1;
        }
        off := Wrap(off + len);
      }
      PeekDone(d, off, w, maxBytes, dst, count, firstSeq);
      more := off != w;
    }

    static lemma PeekIsFrom(d: seq<byte>, off: nat, w: nat, max: nat)
      requires |d| == SIZE && off < SIZE && w < SIZE
      ensures PeekFrom(d, off, w, max, [], 0, 0) == PeekWalk(d, off, w, max)
    {
      hide PeekWalk, PeekFrom;
      PeekFromIsPeek(d, off, w, max, [], 0, 0);
      PeekFirst(d, off, w, max);
      var p := PeekWalk(d, off, w, max);
      assert [] + p.bytes == p.bytes;
    }

    /** One turn of the loop on the specification. */
    static lemma PeekTurn(d: seq<byte>, off: nat, w: nat, max: nat, dst: seq<byte>, count: nat, first: u32)
      requires |d| == SIZE && off < SIZE && w < SIZE && off != w
      ensures PeekFrom(d, off, w, max, dst, count, first)
              == if !WellFormedAt(d, off, w) then Peeked(dst, count, first, off)
                 else if IsPadAt(d, off) then PeekFrom(d, Wrap(off + d[off]), w, max, dst, count, first)
                 else if |dst| + d[off] > max then Peeked(dst, count, first, off)
                 else PeekFrom(d, Wrap(off + d[off]), w, max, dst + d[off..off + d[off]], count + 1,
                               if count == 0 then SeqAt(d, off) else first)
      ensures WellFormedAt(d, off, w) ==> Used(Wrap(off + d[off]), w) < Used(off, w)
    {
    }

    static lemma PeekDone(d: seq<byte>, off: nat, w: nat, max: nat, dst: seq<byte>, count: nat, first: u32)
      requires |d| == SIZE && off < SIZE && w < SIZE
      ensures off == w ==> PeekFrom(d, off, w, max, dst, count, first) == Peeked(dst, count, first, off)
    {
    }

    static lemma {:induction false} PeekFirst(d: seq<byte>, off: nat, w: nat, max: nat)
      requires |d| == SIZE && off < SIZE && w < SIZE
      ensures PeekWalk(d, off, w, max).count == 0 ==> PeekWalk(d, off, w, max).first == 0
      decreases Used(off, w)
    {
      if off != w && WellFormedAt(d, off, w) && IsPadAt(d, off) {
        PeekFirst(d, Wrap(off + d[off]), w, max);
      }
    }

    /** repairChain: cut the kept chain at its first malformed record. */
    method RepairChain()
      requires data.Length == SIZE && WellSized(Mem())
      modifies `hdr
      ensures hdr == old(hdr).(writeOff := Stop(data[..], old(hdr.readOff), old(hdr.writeOff)))
    {
      var off: nat, w: nat, steps := hdr.readOff, hdr.writeOff, 0;
      ghost var d := data[..];
      while off != w
        invariant off < SIZE && hdr == old(hdr)
        invariant steps + Used(off, w) <= Used(hdr.readOff, w)
        invariant Stop(d, off, w) == Stop(d, hdr.readOff, w)
        decreases Used(off, w)
      {
        steps := steps + 1;
        if !WellFormedAt(data[..], off, w) || steps > SIZE {
          hdr := hdr.(writeOff := off);
          return;
        }
        off := Wrap(off + data[off]);
      }
    }

    /** begin: keep a valid ring across the reset, or start a fresh one. */
    method Begin() returns (kept: bool)
      requires Coherent() && saved == Mem() && lo == hi == 0
      modifies `hdr, `saved, `instants
      ensures Valid() && Mem() == Boot(old(Mem()))
      ensures kept <==> old(ValidHeader(hdr))
    {
      ghost var m := Mem();
      kept := ValidHeader(hdr);
      if kept {
        RepairChain();
        hdr := hdr.(bootCount := (hdr.bootCount + 1) % TWO_TO_32, flags := WithEvents(hdr.flags, true));
        SealHeader();
      } else {
        hdr := Header(MAGIC, VERSION, FLAG_EVENTS, 0, 0, 0, 1, 0, 0, 0);
        SealHeader();
      }
      BootIsConsistent(m);
    }
  }
}
