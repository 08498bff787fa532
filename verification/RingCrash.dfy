/** What a reset in the middle of an append leaves behind, and what boot makes of it. */
module RingCrash {
  import opened Bytes
  import opened Ring
  import opened RingProofs

  /** Memory proper at one instant: the last sealed header line, the flushed bytes, and a
      range [lo, hi) of bytes stored since, each of which may or may not have reached memory. */
  datatype Point = Point(hdr: Header, data: seq<byte>, lo: nat, hi: nat)

  /** A reset at `p` may leave `img`: anything at all in the unflushed range. */
  predicate MayLeave(p: Point, img: Memory) {
    && img.hdr == p.hdr
    && |img.data| == |p.data| == SIZE
    && forall i :: 0 <= i < SIZE && !(p.lo <= i < p.hi) ==> img.data[i] == p.data[i]
  }

  /** The header memory holds while record bytes are being written. */
  function WritingHeader(m: Memory, len: nat): Header
    requires WellSized(m) && len <= RECORD_LEN_MAX
  {
    if Evict(m, len).1 > 0 then EvictedHeader(m, len) else m.hdr
  }

  function PadPoints(m: Memory, len: nat): seq<Point>
    requires WellSized(m) && len <= RECORD_LEN_MAX
  {
    var h := WritingHeader(m, len);
    var w := m.hdr.writeOff;
    if Tail(m.hdr) >= len then []
    else [Point(h, m.data, w, w + 1)]
         + (if Tail(m.hdr) >= 2 then [Point(h, m.data, w, w + 2)] else [])
         + [Point(h, PaddedData(m, len), 0, 0)]
  }

  /** Every sub-step of appendRaw, in order: eviction seal, PAD, record bytes, flush, header seal. */
  function AppendPoints(m: Memory, rec: Record): seq<Point>
    requires WellSized(m) && IsRecord(rec)
  {
    var len := |rec|;
    var h := WritingHeader(m, len);
    var slot := Slot(m.hdr, len);
    var m' := AppendRaw(m, rec);
    (if Evict(m, len).1 > 0 then [Point(h, m.data, 0, 0)] else [])
    + PadPoints(m, len)
    + [Point(h, PaddedData(m, len), slot, slot + len), Point(h, m'.data, 0, 0), Point(m'.hdr, m'.data, 0, 0)]
  }

  /** What boot should find after a reset at the `i`-th point: the old log less the records whose eviction was
      published, and from the last seal on the new record as well. */
  function Expected(m: Memory, rec: Record, i: nat): seq<Record>
    requires WellSized(m) && IsRecord(rec) && Evict(m, |rec|).1 <= |Pending(m)|
  {
    var kept := Pending(m)[Evict(m, |rec|).1..];
    if i + 1 < |AppendPoints(m, rec)| then kept else kept + [StampSeq(rec, IssuedSeq(m.hdr))]
  }

  predicate Recovers(m: Memory, rec: Record, i: nat, img: Memory)
    requires WellSized(m) && IsRecord(rec) && |img.data| == SIZE
  {
    Evict(m, |rec|).1 <= |Pending(m)| && Pending(Boot(img)) == Expected(m, rec, i)
  }

  /** The bill reaches past the oldest pending byte although no record was counted as evicted:
      only a PAD was passed over, so the advanced read_off is never sealed. */
  predicate OverrunsUnsealedPad(m: Memory, len: nat)
    requires WellSized(m) && len <= RECORD_LEN_MAX
  {
    && Evict(m, len).1 == 0
    && Free(m.hdr.readOff, m.hdr.writeOff) + 1 < Need(m.hdr, len)
  }

  /** A point while bytes are being written: only written bytes differ, only they may be unflushed. */
  predicate WritingPoint(m: Memory, len: nat, p: Point)
    requires WellSized(m) && len <= RECORD_LEN_MAX
  {
    && p.hdr == WritingHeader(m, len)
    && |p.data| == SIZE
    && (forall i :: 0 <= i < SIZE && !Written(m.hdr, len, i) ==> p.data[i] == m.data[i])
    && (forall i :: p.lo <= i < p.hi ==> Written(m.hdr, len, i))
  }

  lemma PadPointsWrite(m: Memory, len: nat, p: Point)
    requires WellSized(m) && 0 < len <= RECORD_LEN_MAX && p in PadPoints(m, len)
    ensures WritingPoint(m, len, p)
  {
  }

  lemma WritingPoints(m: Memory, rec: Record, i: nat)
    requires WellSized(m) && IsRecord(rec) && i < |AppendPoints(m, rec)|
    ensures i + 1 < |AppendPoints(m, rec)| ==> WritingPoint(m, |rec|, AppendPoints(m, rec)[i])
    ensures i + 1 == |AppendPoints(m, rec)| ==>
              AppendPoints(m, rec)[i] == Point(AppendRaw(m, rec).hdr, AppendRaw(m, rec).data, 0, 0)
  {
    hide IsRecord, AppendRaw, PadPoints, PaddedData, WritingHeader, Evict, WritingPoint, Slot;
    RecordSize(rec);
    var len := |rec|;
    var a := if Evict(m, len).1 > 0 then [Point(WritingHeader(m, len), m.data, 0, 0)] else [];
    forall p | p in a ensures WritingPoint(m, len, p) {
      SealPointWrites(m, len);
    }
    forall p | p in PadPoints(m, len) ensures WritingPoint(m, len, p) {
      PadPointsWrite(m, len, p);
    }
    RecordPointsWrite(m, rec);
    var d, slot := AppendRaw(m, rec).data, Slot(m.hdr, len);
    ThirdFromLast(m, len, a, PadPoints(m, len), Point(WritingHeader(m, len), PaddedData(m, len), slot, slot + len),
                  Point(WritingHeader(m, len), d, 0, 0), Point(AppendRaw(m, rec).hdr, d, 0, 0), i);
  }

  /** All but the last point of a list made of two lists and three points. */
  lemma ThirdFromLast(m: Memory, len: nat, a: seq<Point>, b: seq<Point>, p: Point, q: Point, last: Point, i: nat)
    requires WellSized(m) && len <= RECORD_LEN_MAX && i < |a + b + [p, q, last]|
    requires (forall x :: x in a ==> WritingPoint(m, len, x)) && (forall x :: x in b ==> WritingPoint(m, len, x))
    requires WritingPoint(m, len, p) && WritingPoint(m, len, q)
    ensures var all := a + b + [p, q, last];
            && (i + 1 < |all| ==> WritingPoint(m, len, all[i]))
            && (i + 1 == |all| ==> all[i] == last)
  {
    hide WritingPoint;
    var all := a + b + [p, q, last];
    if i < |a| {
      assert all[i] == a[i];
    } else if i < |a| + |b| {
      assert all[i] == b[i - |a|];
    }
  }

  lemma SealPointWrites(m: Memory, len: nat)
    requires WellSized(m) && 0 < len <= RECORD_LEN_MAX
    ensures WritingPoint(m, len, Point(WritingHeader(m, len), m.data, 0, 0))
  {
    hide WritingHeader;
  }

  lemma RecordPointsWrite(m: Memory, rec: Record)
    requires WellSized(m) && IsRecord(rec)
    ensures var len, slot := |rec|, Slot(m.hdr, |rec|);
            && WritingPoint(m, len, Point(WritingHeader(m, len), PaddedData(m, len), slot, slot + len))
            && WritingPoint(m, len, Point(WritingHeader(m, len), AppendRaw(m, rec).data, 0, 0))
  {
    hide WritingHeader, EvictedHeader, Evict, StampSeq, PadBytes, Sealed;
  }

  lemma WritingHeaderFacts(m: Memory, len: nat)
    requires Consistent(m) && len <= RECORD_LEN_MAX
    ensures var h := WritingHeader(m, len);
            && ValidHeader(h)
            && h.writeOff == m.hdr.writeOff
            && h.readOff == (if Evict(m, len).1 > 0 then Evict(m, len).0 else m.hdr.readOff)
  {
  }

  lemma ImageKeepsLog(m: Memory, rec: Record, r: nat, img: Memory)
    requires Consistent(m) && IsRecord(rec) && r < SIZE && |img.data| == SIZE
    requires ValidHeader(img.hdr) && img.hdr.readOff == r && img.hdr.writeOff == m.hdr.writeOff
    requires Free(r, m.hdr.writeOff) + 1 >= Need(m.hdr, |rec|)
    requires forall i :: 0 <= i < SIZE && !Written(m.hdr, |rec|, i) ==> img.data[i] == m.data[i]
    ensures Pending(Boot(img)) == Queue(m.data, r, m.hdr.writeOff)
  {
    KeptSpanSurvives(m, |rec|, r, img.data);
    BootIsConsistent(img);
  }

  /** Before the last seal: the old log less the published evictions, whatever the unflushed bytes are. */
  lemma WritingRecovers(m: Memory, rec: Record, p: Point, img: Memory)
    requires Consistent(m) && IsRecord(rec) && !OverrunsUnsealedPad(m, |rec|)
    requires WritingPoint(m, |rec|, p) && MayLeave(p, img)
    ensures var k := Evict(m, |rec|).1; k <= |Pending(m)| && Pending(Boot(img)) == Pending(m)[k..]
  {
    var len := |rec|;
    assert 0 < len <= RECORD_LEN_MAX;
    MakeRoomDrops(m.data, m.hdr.readOff, m.hdr.writeOff, Need(m.hdr, len));
    WritingHeaderFacts(m, len);
    hide Consistent, IsRecord, WritingHeader, MakeRoom, Boot, ValidHeader, Queue;
    assert forall i :: 0 <= i < SIZE && !Written(m.hdr, len, i) ==> img.data[i] == m.data[i];
    ImageKeepsLog(m, rec, p.hdr.readOff, img);
  }

  lemma SealedRecovers(m: Memory, rec: Record, img: Memory)
    requires Consistent(m) && IsRecord(rec) && img == AppendRaw(m, rec)
    ensures var k := Evict(m, |rec|).1;
            k <= |Pending(m)| && Pending(Boot(img)) == Pending(m)[k..] + [StampSeq(rec, IssuedSeq(m.hdr))]
  {
    hide AppendRaw, Evict, StampSeq, IsRecord;
    AppendRefinesFifo(m, rec);
    BootIsConsistent(img);
    hide Boot;
  }

  /** A reset at any sub-step of an append that does not overrun an unsealed PAD loses nothing but the evicted
      records, and not even the new one once its header is sealed. */
  lemma ResetRecovers(m: Memory, rec: Record, i: nat, img: Memory)
    requires Consistent(m) && IsRecord(rec) && !OverrunsUnsealedPad(m, |rec|)
    requires i < |AppendPoints(m, rec)| && MayLeave(AppendPoints(m, rec)[i], img)
    ensures Recovers(m, rec, i, img)
  {
    assert WellSized(m);
    hide AppendPoints, Consistent, IsRecord, OverrunsUnsealedPad, WritingPoint, AppendRaw, Evict, Boot, Pending;
    WritingPoints(m, rec, i);
    if i + 1 < |AppendPoints(m, rec)| {
      hide MayLeave;
      WritingRecovers(m, rec, AppendPoints(m, rec)[i], img);
    } else {
      assert img.data == AppendRaw(m, rec).data;
      SealedRecovers(m, rec, img);
    }
  }

  /** PADs only ever fill the tail of the record area. */
  predicate PadsLast(d: seq<byte>, off: nat, w: nat)
    requires |d| == SIZE && off < SIZE && w < SIZE
    decreases Used(off, w)
  {
    || off == w
    || !WellFormedAt(d, off, w)
    || ((IsPadAt(d, off) ==> off + d[off] == SIZE) && PadsLast(d, Wrap(off + d[off]), w))
  }

  predicate Tidy(m: Memory)
    requires WellSized(m)
  {
    PadsLast(m.data, m.hdr.readOff, m.hdr.writeOff)
  }

  /** Evicting nothing yet overrunning the oldest pending byte: read_off sits on the tail PAD. */
  lemma OverrunShape(m: Memory, len: nat)
    requires Consistent(m) && Tidy(m) && HEADER_LEN <= len <= RECORD_LEN_MAX
    requires OverrunsUnsealedPad(m, len)
    ensures Slot(m.hdr, len) == m.hdr.writeOff < m.hdr.readOff < m.hdr.writeOff + len
    ensures PaddedData(m, len) == m.data && WritingHeader(m, len) == m.hdr
    ensures Pending(m) != []
  {
    var d, r, w := m.data, m.hdr.readOff, m.hdr.writeOff;
    QueueStep(d, r, w);
    assert IsPadAt(d, r) && r + d[r] == SIZE;
    assert w != 0;
    QueueStep(d, 0, w);
    assert PadsLast(d, 0, w);
    assert !IsPadAt(d, 0);
    var need := Need(m.hdr, len);
    assert MakeRoom(d, r, w, need) == MakeRoom(d, 0, w, need);
    assert Free(0, w) >= need;
    assert Queue(d, r, w) == Queue(d, 0, w);
  }

  /** With the PAD's length byte torn while the record goes in, boot finds an empty log. */
  lemma TornPad(m: Memory, rec: Record) returns (i: nat, img: Memory)
    requires Consistent(m) && Tidy(m) && IsRecord(rec) && OverrunsUnsealedPad(m, |rec|)
    ensures i < |AppendPoints(m, rec)| && MayLeave(AppendPoints(m, rec)[i], img)
    ensures Pending(Boot(img)) == [] && !Recovers(m, rec, i, img)
  {
    OverrunShape(m, |rec|);
    var w, r := m.hdr.writeOff, m.hdr.readOff;
    var points := AppendPoints(m, rec);
    i := |points| - 3;
    img := Memory(m.hdr, m.data[r := 0]);
    hide AppendRaw, Evict, EvictedHeader, StampSeq;
    assert points[i] == Point(m.hdr, m.data, w, w + |rec|);
    BootIsConsistent(img);
    assert Chain(img.data, r, w) == [];
  }

  /** Exactly when an append survives a reset at every sub-step. */
  lemma ResetSafeIff(m: Memory, rec: Record)
    requires Consistent(m) && Tidy(m) && IsRecord(rec)
    ensures (forall i: nat, img :: i < |AppendPoints(m, rec)| && MayLeave(AppendPoints(m, rec)[i], img)
                               ==> Recovers(m, rec, i, img))
            <==> !OverrunsUnsealedPad(m, |rec|)
  {
    if OverrunsUnsealedPad(m, |rec|) {
      var i, img := TornPad(m, rec);
      assert i < |AppendPoints(m, rec)| && MayLeave(AppendPoints(m, rec)[i], img) && !Recovers(m, rec, i, img);
    } else {
      hide AppendPoints, MayLeave, Recovers, Consistent;
      forall i: nat, img | i < |AppendPoints(m, rec)| && MayLeave(AppendPoints(m, rec)[i], img)
        ensures Recovers(m, rec, i, img)
      {
        ResetRecovers(m, rec, i, img);
      }
    }
  }

  // ----- PADs stay at the tail --------------------------------------------

  lemma {:induction false} PadsLastFrame(d: seq<byte>, e: seq<byte>, off: nat, w: nat)
    requires |d| == |e| == SIZE && off < SIZE && w < SIZE
    requires forall i :: 0 <= i < SIZE && Live(off, w, i) ==> d[i] == e[i]
    requires PadsLast(d, off, w)
    ensures PadsLast(e, off, w)
    decreases Used(off, w)
  {
    if off != w {
      StepFrame(d, e, off, w);
      if WellFormedAt(e, off, w) {
        PadsLastFrame(d, e, Wrap(off + d[off]), w);
      }
    }
  }

  lemma {:induction false} PadsLastExtend(d: seq<byte>, off: nat, w: nat, n: nat)
    requires |d| == SIZE && off < SIZE && w < SIZE && w + n <= SIZE
    requires Intact(d, off, w) && PadsLast(d, off, w)
    requires Used(off, w) + n <= SIZE - 1
    requires 0 < n && d[w] == n && (IsPadAt(d, w) ==> w + n == SIZE)
    ensures PadsLast(d, off, Wrap(w + n))
    decreases Used(off, w)
  {
    if off != w {
      assert WellFormedAt(d, off, w);
      PadsLastExtend(d, Wrap(off + d[off]), w, n);
    }
  }

  lemma {:induction false} MakeRoomKeepsPadsLast(d: seq<byte>, r: nat, w: nat, need: nat)
    requires |d| == SIZE && r < SIZE && w < SIZE && need <= SIZE - 0x100
    requires Intact(d, r, w) && PadsLast(d, r, w)
    ensures PadsLast(d, MakeRoom(d, r, w, need).0, w)
    decreases Used(r, w)
  {
    if Free(r, w) < need {
      QueueStep(d, r, w);
      MakeRoomKeepsPadsLast(d, Wrap(r + d[r]), w, need);
    }
  }

  lemma {:induction false} AckWalkKeepsPadsLast(d: seq<byte>, r: nat, w: nat, ack: u32)
    requires |d| == SIZE && r < SIZE && w < SIZE && PadsLast(d, r, w)
    ensures PadsLast(d, AckWalk(d, r, w, ack), w)
    decreases Used(r, w)
  {
    if r != w && WellFormedAt(d, r, w) && (IsPadAt(d, r) || SeqAt(d, r) <= ack) {
      AckWalkKeepsPadsLast(d, Wrap(r + d[r]), w, ack);
    }
  }

  lemma AppendKeepsTidy(m: Memory, rec: Record)
    requires Consistent(m) && Tidy(m) && IsRecord(rec)
    ensures Tidy(AppendRaw(m, rec))
  {
    hide AppendRaw, StampSeq;
    var ev := Evict(m, |rec|);
    var w := m.hdr.writeOff;
    MakeRoomDrops(m.data, m.hdr.readOff, w, Need(m.hdr, |rec|));
    MakeRoomKeepsPadsLast(m.data, m.hdr.readOff, w, Need(m.hdr, |rec|));
    var stamped := StampSeq(rec, IssuedSeq(m.hdr));
    StampKeepsShape(rec, IssuedSeq(m.hdr));
    AppendedBytes(m, rec, stamped);
    AppendedHeader(m, rec);
    TidyJoin(m, stamped, ev.0, AppendRaw(m, rec).data);
  }

  lemma SpanTidy(m: Memory, len: nat, r: nat, e: seq<byte>)
    requires WellSized(m) && r < SIZE && 0 < len <= RECORD_LEN_MAX && |e| == SIZE
    requires Intact(m.data, r, m.hdr.writeOff) && PadsLast(m.data, r, m.hdr.writeOff)
    requires Free(r, m.hdr.writeOff) >= Need(m.hdr, len)
    requires forall i :: 0 <= i < SIZE && !Written(m.hdr, len, i) ==> e[i] == m.data[i]
    ensures Intact(e, r, m.hdr.writeOff) && PadsLast(e, r, m.hdr.writeOff)
  {
    KeptSpanUnchanged(m, len, r, e);
    PadsLastFrame(m.data, e, r, m.hdr.writeOff);
    WalkFrame(m.data, e, r, m.hdr.writeOff);
  }

  lemma RecordFirst(s: Record)
    requires IsRecord(s)
    ensures |s| >= 2 && s[0] == |s| && s[1] != REC_PAD
  {
  }

  lemma TidyJoin(m: Memory, stamped: Record, r: nat, e: seq<byte>)
    requires WellSized(m) && IsRecord(stamped) && r < SIZE && |e| == SIZE
    requires Intact(m.data, r, m.hdr.writeOff) && PadsLast(m.data, r, m.hdr.writeOff)
    requires Free(r, m.hdr.writeOff) >= Need(m.hdr, |stamped|)
    requires forall i :: 0 <= i < SIZE && !Written(m.hdr, |stamped|, i) ==> e[i] == m.data[i]
    requires var w := Slot(m.hdr, |stamped|); e[w..w + |stamped|] == stamped
    requires Tail(m.hdr) < |stamped| ==> PadBytes(Tail(m.hdr)) <= e[m.hdr.writeOff..]
    ensures PadsLast(e, r, Wrap(Slot(m.hdr, |stamped|) + |stamped|))
  {
    hide PadsLast, Intact, WellFormedAt, IsRecord;
    RecordSize(stamped);
    RecordFirst(stamped);
    var w, n := m.hdr.writeOff, |stamped|;
    SpanTidy(m, n, r, e);
    var slot := Slot(m.hdr, n);
    assert e[slot] == e[slot..slot + n][0] == n;
    assert e[slot + 1] == e[slot..slot + n][1] == stamped[1];
    if Tail(m.hdr) < n {
      PadTail(e, r, w, PadBytes(Tail(m.hdr)));
      PadsLastExtend(e, r, 0, n);
    } else {
      PadsLastExtend(e, r, w, n);
    }
  }

  lemma PadTail(e: seq<byte>, r: nat, w: nat, pad: seq<byte>)
    requires |e| == SIZE && r < SIZE && w < SIZE && Intact(e, r, w) && PadsLast(e, r, w)
    requires 0 < SIZE - w < RECORD_LEN_MAX && pad == PadBytes(SIZE - w) && pad <= e[w..]
    requires Used(r, w) + (SIZE - w) <= SIZE - 1
    ensures Intact(e, r, 0) && PadsLast(e, r, 0)
  {
    assert e[w] == e[w..][0] == pad[0];
    assert e[w..SIZE] == e[w..];
    PadIsWellFormed(SIZE - w, e[w..]);
    PadsLastExtend(e, r, w, SIZE - w);
    WalkExtend(e, r, w, SIZE - w);
  }
}
