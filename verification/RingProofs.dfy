/** The byte ring refines a bounded FIFO of records. */
module RingProofs {
  import opened Bytes
  import opened Ring

  /** `i` lies in the circular span from `off` up to (not including) `w`. */
  predicate Live(off: nat, w: nat, i: int) {
    if off <= w then off <= i < w else off <= i < SIZE || 0 <= i < w
  }

  /** Data equal on the live span has the same record at its start. */
  lemma StepFrame(d: seq<byte>, e: seq<byte>, off: nat, w: nat)
    requires |d| == |e| == SIZE && off < SIZE && w < SIZE && off != w
    requires forall i :: 0 <= i < SIZE && Live(off, w, i) ==> d[i] == e[i]
    ensures WellFormedAt(d, off, w) == WellFormedAt(e, off, w)
    ensures WellFormedAt(d, off, w) ==>
              d[off] == e[off] && d[off..off + d[off]] == e[off..off + e[off]] && IsPadAt(d, off) == IsPadAt(e, off)
    ensures WellFormedAt(d, off, w) ==>
              forall i :: 0 <= i < SIZE && Live(Wrap(off + d[off]), w, i) ==> d[i] == e[i]
  {
    assert Live(off, w, off);
    var len := d[off];
    if 0 < len && off + len <= SIZE && (off < w ==> off + len <= w) {
      forall i | off <= i < off + len
        ensures d[i] == e[i]
      {
        assert Live(off, w, i);
      }
      if WellFormedAt(d, off, w) {
        forall i | 0 <= i < SIZE && Live(Wrap(off + len), w, i)
          ensures d[i] == e[i]
        {
          assert Live(off, w, i);
        }
      }
    }
  }

  /** A walk reads only the span it covers. */
  lemma {:induction false} WalkFrame(d: seq<byte>, e: seq<byte>, off: nat, w: nat)
    requires |d| == |e| == SIZE && off < SIZE && w < SIZE
    requires forall i :: 0 <= i < SIZE && Live(off, w, i) ==> d[i] == e[i]
    ensures Stop(d, off, w) == Stop(e, off, w)
    ensures Chain(d, off, w) == Chain(e, off, w)
    decreases Used(off, w)
  {
    if off != w {
      StepFrame(d, e, off, w);
      if WellFormedAt(d, off, w) {
        hide Live;
        WalkFrame(d, e, Wrap(off + d[off]), w);
      }
    }
  }

  lemma ShapeIsWellFormed(d: seq<byte>, w: nat, n: nat)
    requires |d| == SIZE && w < SIZE && w + n <= SIZE && Shape(d[w..w + n])
    ensures WellFormedAt(d, w, Wrap(w + n)) && d[w] == n
  {
    var s := d[w..w + n];
    assert s[0] == d[w];
    assert n >= 2 ==> s[1] == d[w + 1];
    assert n >= 13 ==> s[12] == d[w + 12];
  }

  /** A well-formed record written at `w`, with a byte to spare, extends the chain by itself. */
  lemma {:induction false} WalkExtend(d: seq<byte>, off: nat, w: nat, n: nat)
    requires |d| == SIZE && off < SIZE && w < SIZE && w + n <= SIZE
    requires Intact(d, off, w)
    requires Used(off, w) + n <= SIZE - 1
    requires Shape(d[w..w + n])
    ensures Intact(d, off, Wrap(w + n))
    ensures Chain(d, off, Wrap(w + n)) == Chain(d, off, w) + [d[w..w + n]]
    decreases Used(off, w)
  {
    var w' := Wrap(w + n);
    if off == w {
      ShapeIsWellFormed(d, w, n);
      assert Stop(d, off, w') == Stop(d, w', w') == w';
      assert Chain(d, w', w') == [];
    } else {
      assert WellFormedAt(d, off, w);
      var next := Wrap(off + d[off]);
      assert Stop(d, off, w) == Stop(d, next, w);
      hide Shape;
      WalkExtend(d, next, w, n);
      assert off != w';
      assert WellFormedAt(d, off, w');
    }
  }

  lemma {:induction false} RecordsConcat(a: seq<Record>, b: seq<Record>)
    ensures Records(a + b) == Records(a) + Records(b)
  {
    hide IsPad;
    if a == [] {
      assert a + b == b;
    } else {
      assert (a + b)[0] == a[0] && (a + b)[1..] == a[1..] + b;
      RecordsConcat(a[1..], b);
      JoinAssoc([a[0]], Records(a[1..]), Records(b));
    }
  }

  /** Every record the walk meets has its type's shape. */
  lemma {:induction false} ChainShapes(d: seq<byte>, off: nat, w: nat)
    requires |d| == SIZE && off < SIZE && w < SIZE
    ensures forall s :: s in Chain(d, off, w) ==> Shape(s)
    decreases Used(off, w)
  {
    if off != w && WellFormedAt(d, off, w) {
      var s := d[off..off + d[off]];
      assert s[0] == d[off];
      assert |s| >= 2 ==> s[1] == d[off + 1];
      assert |s| >= 13 ==> s[12] == d[off + 12];
      assert Shape(s);
      ChainShapes(d, Wrap(off + d[off]), w);
    }
  }

  lemma {:induction false} RecordsAreRecords(c: seq<Record>)
    requires forall s :: s in c ==> Shape(s)
    ensures forall s :: s in Records(c) ==> IsRecord(s)
  {
    if c != [] {
      assert c[0] in c;
      assert forall s :: s in c[1..] ==> s in c;
      RecordsAreRecords(c[1..]);
    }
  }

  /** Everything pending can be decoded by the host. */
  lemma PendingAreRecords(m: Memory)
    requires WellSized(m)
    ensures forall s :: s in Pending(m) ==> IsRecord(s)
  {
    ChainShapes(m.data, m.hdr.readOff, m.hdr.writeOff);
    RecordsAreRecords(Chain(m.data, m.hdr.readOff, m.hdr.writeOff));
  }

  /** `q` records off the front, none at all while the walk still fits. */
  predicate Dropped(d: seq<byte>, r: nat, w: nat, r': nat, k: nat)
    requires |d| == SIZE && r < SIZE && w < SIZE && r' < SIZE
  {
    && Intact(d, r', w)
    && Used(r', w) <= Used(r, w)
    && (forall i :: 0 <= i < SIZE && Live(r', w, i) ==> Live(r, w, i))
    && k <= |Queue(d, r, w)|
    && Queue(d, r', w) == Queue(d, r, w)[k..]
  }

  lemma RecordSize(rec: Record)
    requires IsRecord(rec)
    ensures HEADER_LEN <= |rec| <= RECORD_LEN_MAX
  {
  }

  lemma SliceOfSlice(d: seq<byte>, a: nat, b: nat, i: nat, j: nat)
    requires a <= b <= |d| && i <= j <= b - a
    ensures d[a..b][i..j] == d[a + i..a + j]
  {
    var x, y := d[a..b][i..j], d[a + i..a + j];
    assert |x| == |y| && forall k :: 0 <= k < |x| ==> x[k] == y[k];
  }

  /** A well-formed place holds a record of its type's shape. */
  lemma RecordAt(d: seq<byte>, r: nat, w: nat)
    requires |d| == SIZE && r < SIZE && w < SIZE && WellFormedAt(d, r, w)
    ensures 0 < d[r] && r + d[r] <= SIZE
    ensures var s := d[r..r + d[r]];
            && Shape(s) && IsPad(s) == IsPadAt(d, r)
            && (!IsPadAt(d, r) ==> |s| >= HEADER_LEN && SeqOf(s) == SeqAt(d, r))
  {
    var s := d[r..r + d[r]];
    assert s[0] == d[r];
    assert |s| >= 2 ==> s[1] == d[r + 1];
    assert |s| >= 13 ==> s[12] == d[r + 12];
    if |s| >= 6 {
      SliceOfSlice(d, r, r + d[r], 2, 6);
    }
  }

  /** One step of a well-formed walk, seen from the queue. */
  lemma QueueStep(d: seq<byte>, r: nat, w: nat)
    requires |d| == SIZE && r < SIZE && w < SIZE && r != w && Intact(d, r, w)
    ensures WellFormedAt(d, r, w) && 0 < d[r]
    ensures var next := Wrap(r + d[r]);
            var s := d[r..r + d[r]];
            && Intact(d, next, w)
            && Used(next, w) == Used(r, w) - d[r]
            && Shape(s) && IsPad(s) == IsPadAt(d, r)
            && Queue(d, r, w) == (if IsPadAt(d, r) then [] else [s]) + Queue(d, next, w)
            && (!IsPadAt(d, r) ==> |s| >= HEADER_LEN && SeqOf(s) == SeqAt(d, r))
  {
    assert WellFormedAt(d, r, w);
    RecordAt(d, r, w);
    hide WellFormedAt, Shape, IsPad, IsPadAt, SeqOf, SeqAt;
    assert Chain(d, r, w) == [d[r..r + d[r]]] + Chain(d, Wrap(r + d[r]), w);
    assert Chain(d, r, w)[1..] == Chain(d, Wrap(r + d[r]), w);
  }

  lemma {:induction false} MakeRoomDrops(d: seq<byte>, r: nat, w: nat, need: nat)
    requires |d| == SIZE && r < SIZE && w < SIZE && need <= SIZE - 0x100
    requires Intact(d, r, w)
    ensures var res := MakeRoom(d, r, w, need);
            Dropped(d, r, w, res.0, res.1) && Free(res.0, w) >= need
    decreases Used(r, w)
  {
    if Free(r, w) < need {
      QueueStep(d, r, w);
      var next := Wrap(r + d[r]);
      MakeRoomDrops(d, next, w, need);
      DroppedStep(d, r, w, MakeRoom(d, next, w, need).0, MakeRoom(d, next, w, need).1);
    }
  }

  lemma DroppedStep(d: seq<byte>, r: nat, w: nat, r': nat, k: nat)
    requires |d| == SIZE && r < SIZE && w < SIZE && r' < SIZE && r != w && Intact(d, r, w)
    requires WellFormedAt(d, r, w) && Dropped(d, Wrap(r + d[r]), w, r', k)
    ensures Dropped(d, r, w, r', k + if IsPadAt(d, r) then 0 else 1)
  {
    QueueStep(d, r, w);
    assert forall i :: 0 <= i < SIZE && Live(Wrap(r + d[r]), w, i) ==> Live(r, w, i);
    var rest := Queue(d, Wrap(r + d[r]), w);
    if !IsPadAt(d, r) {
      assert Queue(d, r, w)[k + 1..] == rest[k..];
    } else {
      assert Queue(d, r, w) == rest;
    }
  }

  /** `p` is a cursor on the walk from `r`, reached after `j` records. */
  predicate Reaches(d: seq<byte>, r: nat, w: nat, p: nat, j: int)
    requires |d| == SIZE && r < SIZE && w < SIZE
    decreases Used(r, w)
  {
    || (p == r && j == 0)
    || (r != w && WellFormedAt(d, r, w)
        && Reaches(d, Wrap(r + d[r]), w, p, j - if IsPadAt(d, r) then 0 else 1))
  }

  /** No cursor on the walk that makes room drops fewer records than makeRoom does. */
  lemma {:induction false} MakeRoomIsMinimal(d: seq<byte>, r: nat, w: nat, need: nat, p: nat, j: int)
    requires |d| == SIZE && r < SIZE && w < SIZE && p < SIZE && need <= SIZE - 0x100
    requires Intact(d, r, w) && Reaches(d, r, w, p, j) && Free(p, w) >= need
    ensures MakeRoom(d, r, w, need).1 <= j
    decreases Used(r, w)
  {
    if Free(r, w) < need {
      assert WellFormedAt(d, r, w);
      var next := Wrap(r + d[r]);
      assert Stop(d, r, w) == Stop(d, next, w);
      MakeRoomIsMinimal(d, next, w, need, p, j - if IsPadAt(d, r) then 0 else 1);
    } else {
      ReachesCounts(d, r, w, p, j);
    }
  }

  lemma {:induction false} ReachesCounts(d: seq<byte>, r: nat, w: nat, p: nat, j: int)
    requires |d| == SIZE && r < SIZE && w < SIZE
    requires Reaches(d, r, w, p, j)
    ensures j >= 0
    decreases Used(r, w)
  {
    if !(p == r && j == 0) {
      ReachesCounts(d, Wrap(r + d[r]), w, p, j - if IsPadAt(d, r) then 0 else 1);
    }
  }

  lemma StampKeepsShape(rec: Record, q: u32)
    requires IsRecord(rec)
    ensures IsRecord(StampSeq(rec, q))
    ensures SeqOf(StampSeq(rec, q)) == q
    ensures StampSeq(rec, q)[6..] == rec[6..] && StampSeq(rec, q)[..2] == rec[..2]
  {
    var s := StampSeq(rec, q);
    assert s[0] == rec[0] && s[1] == rec[1];
    assert |rec| >= 13 ==> s[12] == rec[12];
    assert s[2..6] == Put32(q);
    Get32Put32(q);
  }

  lemma PadIsWellFormed(tail: nat, s: seq<byte>)
    requires 0 < tail < RECORD_LEN_MAX && |s| == tail
    requires PadBytes(tail) <= s
    ensures Shape(s) && IsPad(s)
  {
    assert s[0] == PadBytes(tail)[0];
    assert tail >= 2 ==> s[1] == PadBytes(tail)[1];
  }

  /** Bytes an append stores: the PAD bytes and the record slot. */
  predicate Written(h: Header, len: nat, i: int)
    requires h.writeOff < SIZE
  {
    || (Tail(h) < len && h.writeOff <= i < SIZE)
    || Slot(h, len) <= i < Slot(h, len) + len
  }

  /** With room for the whole bill, the bytes to be written are outside the kept span. */
  lemma WrittenIsFree(h: Header, len: nat, r: nat, i: int)
    requires h.writeOff < SIZE && r < SIZE && 0 < len <= RECORD_LEN_MAX
    requires Free(r, h.writeOff) + 1 >= Need(h, len)
    requires 0 <= i < SIZE && Written(h, len, i)
    ensures !Live(r, h.writeOff, i)
  {
  }

  /** Data that differs only in written bytes agrees on the kept span. */
  lemma KeptSpanUnchanged(m: Memory, len: nat, r: nat, e: seq<byte>)
    requires WellSized(m) && r < SIZE && 0 < len <= RECORD_LEN_MAX && |e| == SIZE
    requires Free(r, m.hdr.writeOff) + 1 >= Need(m.hdr, len)
    requires forall i :: 0 <= i < SIZE && !Written(m.hdr, len, i) ==> e[i] == m.data[i]
    ensures forall i :: 0 <= i < SIZE && Live(r, m.hdr.writeOff, i) ==> m.data[i] == e[i]
  {
    forall i | 0 <= i < SIZE && Live(r, m.hdr.writeOff, i)
      ensures m.data[i] == e[i]
    {
      if Written(m.hdr, len, i) {
        WrittenIsFree(m.hdr, len, r, i);
      }
    }
  }

  /** Such data still holds the kept records. */
  lemma KeptSpanSurvives(m: Memory, len: nat, r: nat, e: seq<byte>)
    requires WellSized(m) && r < SIZE && 0 < len <= RECORD_LEN_MAX && |e| == SIZE
    requires Free(r, m.hdr.writeOff) + 1 >= Need(m.hdr, len)
    requires forall i :: 0 <= i < SIZE && !Written(m.hdr, len, i) ==> e[i] == m.data[i]
    ensures Stop(e, r, m.hdr.writeOff) == Stop(m.data, r, m.hdr.writeOff)
    ensures Queue(e, r, m.hdr.writeOff) == Queue(m.data, r, m.hdr.writeOff)
  {
    KeptSpanUnchanged(m, len, r, e);
    WalkFrame(m.data, e, r, m.hdr.writeOff);
  }

  /** The record, once its bytes are in place, ends the chain. */
  lemma RecordJoins(m: Memory, rec: Record, r: nat, e: seq<byte>)
    requires WellSized(m) && r < SIZE && IsRecord(rec) && |e| == SIZE
    requires Free(r, m.hdr.writeOff) >= Need(m.hdr, |rec|)
    requires Intact(e, r, m.hdr.writeOff)
    requires var w := Slot(m.hdr, |rec|); e[w..w + |rec|] == rec
    requires Tail(m.hdr) < |rec| ==> PadBytes(Tail(m.hdr)) <= e[m.hdr.writeOff..]
    ensures var w' := Wrap(Slot(m.hdr, |rec|) + |rec|);
            Intact(e, r, w') && Queue(e, r, w') == Queue(e, r, m.hdr.writeOff) + [rec]
  {
    var w := m.hdr.writeOff;
    var tail := Tail(m.hdr);
    if tail < |rec| {
      assert e[w..w + tail] == e[w..];
      PadIsWellFormed(tail, e[w..]);
      WalkExtend(e, r, w, tail);
      RecordsConcat(Chain(e, r, w), [e[w..]]);
      WalkExtend(e, r, 0, |rec|);
      RecordsConcat(Chain(e, r, 0), [rec]);
    } else {
      WalkExtend(e, r, w, |rec|);
      RecordsConcat(Chain(e, r, w), [rec]);
    }
  }

  /** What appendRaw leaves in the record area. */
  lemma AppendedBytes(m: Memory, rec: Record, stamped: Record)
    requires WellSized(m) && IsRecord(rec) && stamped == StampSeq(rec, IssuedSeq(m.hdr))
    requires Need(m.hdr, |rec|) < SIZE
    ensures var e := AppendRaw(m, rec).data;
            var w := Slot(m.hdr, |rec|);
            && (forall i :: 0 <= i < SIZE && !Written(m.hdr, |rec|, i) ==> e[i] == m.data[i])
            && e[w..w + |rec|] == stamped
            && (Tail(m.hdr) < |rec| ==> PadBytes(Tail(m.hdr)) <= e[m.hdr.writeOff..])
  {
    var pd := PaddedData(m, |rec|);
    var e := Splice(pd, Slot(m.hdr, |rec|), stamped);
    assert AppendRaw(m, rec).data == e;
    if Tail(m.hdr) < |rec| {
      var pad := PadBytes(Tail(m.hdr));
      forall i | 0 <= i < |pad|
        ensures e[m.hdr.writeOff..][i] == pad[i]
      {
        assert e[m.hdr.writeOff + i] == pd[m.hdr.writeOff + i];
      }
    }
  }

  lemma SealedValid(h: Header)
    requires h.magic == MAGIC && h.ver == VERSION && h.writeOff < SIZE && h.readOff < SIZE && h.nextSeq != 0
    ensures ValidHeader(Sealed(h))
    ensures Sealed(h) == h.(checksum := Sealed(h).checksum)
  {
  }

  lemma EvictedFields(m: Memory, len: nat)
    requires WellSized(m) && ValidHeader(m.hdr) && len <= RECORD_LEN_MAX
    ensures var h := EvictedHeader(m, len);
            && h.magic == MAGIC && h.ver == VERSION && h.nextSeq == m.hdr.nextSeq
            && h.readOff == Evict(m, len).0 && h.writeOff == m.hdr.writeOff
            && h.dropped == (m.hdr.dropped + Evict(m, len).1) % TWO_TO_32
            && h.bootCount == m.hdr.bootCount && h.flags == m.hdr.flags
  {
    hide Evict;
    SmallMod(m.hdr.dropped);
  }

  lemma SmallMod(n: u32)
    ensures n as int % TWO_TO_32 == n
  {
  }

  /** The header an append seals last. */
  function NewHeader(m: Memory, len: nat): Header
    requires WellSized(m) && 0 < len <= RECORD_LEN_MAX
  {
    EvictedHeader(m, len).(writeOff := Wrap(Slot(m.hdr, len) + len), nextSeq := IssuedSeq(m.hdr) + 1)
  }

  lemma AppendSeals(m: Memory, rec: Record)
    requires WellSized(m) && IsRecord(rec)
    ensures 0 < |rec| <= RECORD_LEN_MAX && AppendRaw(m, rec).hdr == Sealed(NewHeader(m, |rec|))
  {
    hide EvictedHeader, StampSeq, PaddedData, Sealed;
  }

  lemma AppendedHeader(m: Memory, rec: Record)
    requires WellSized(m) && ValidHeader(m.hdr) && IsRecord(rec)
    ensures var h := AppendRaw(m, rec).hdr;
            && ValidHeader(h)
            && h.readOff == Evict(m, |rec|).0
            && h.writeOff == Wrap(Slot(m.hdr, |rec|) + |rec|)
            && h.dropped == (m.hdr.dropped + Evict(m, |rec|).1) % TWO_TO_32
            && h.nextSeq == IssuedSeq(m.hdr) + 1
            && h.bootCount == m.hdr.bootCount && h.flags == m.hdr.flags
  {
    hide IsRecord, Evict, EvictedHeader, ValidHeader, AppendRaw, Sealed;
    AppendSeals(m, rec);
    EvictedFields(m, |rec|);
    SealedValid(NewHeader(m, |rec|));
  }

  /** Record bytes in place, kept span untouched: the queue gains exactly the record. */
  lemma QueueGains(m: Memory, stamped: Record, r: nat, e: seq<byte>)
    requires WellSized(m) && IsRecord(stamped) && r < SIZE && |e| == SIZE
    requires Intact(m.data, r, m.hdr.writeOff)
    requires Free(r, m.hdr.writeOff) >= Need(m.hdr, |stamped|)
    requires forall i :: 0 <= i < SIZE && !Written(m.hdr, |stamped|, i) ==> e[i] == m.data[i]
    requires var w := Slot(m.hdr, |stamped|); e[w..w + |stamped|] == stamped
    requires Tail(m.hdr) < |stamped| ==> PadBytes(Tail(m.hdr)) <= e[m.hdr.writeOff..]
    ensures var w' := Wrap(Slot(m.hdr, |stamped|) + |stamped|);
            Intact(e, r, w') && Queue(e, r, w') == Queue(m.data, r, m.hdr.writeOff) + [stamped]
  {
    KeptSpanSurvives(m, |stamped|, r, e);
    RecordJoins(m, stamped, r, e);
  }

  lemma AppendedQueue(m: Memory, rec: Record, r: nat)
    requires WellSized(m) && IsRecord(rec) && r < SIZE
    requires Intact(m.data, r, m.hdr.writeOff)
    requires Free(r, m.hdr.writeOff) >= Need(m.hdr, |rec|)
    ensures var e := AppendRaw(m, rec).data;
            var w' := Wrap(Slot(m.hdr, |rec|) + |rec|);
            Intact(e, r, w')
            && Queue(e, r, w') == Queue(m.data, r, m.hdr.writeOff) + [StampSeq(rec, IssuedSeq(m.hdr))]
  {
    var stamped := StampSeq(rec, IssuedSeq(m.hdr));
    StampKeepsShape(rec, IssuedSeq(m.hdr));
    AppendedBytes(m, rec, stamped);
    QueueGains(m, stamped, r, AppendRaw(m, rec).data);
  }

  /** Append on the bytes is append on the queue: the oldest `k` records go, the stamped one comes last. */
  lemma AppendRefinesFifo(m: Memory, rec: Record)
    requires Consistent(m) && IsRecord(rec)
    ensures var m' := AppendRaw(m, rec);
            var k := Evict(m, |rec|).1;
            && Consistent(m')
            && k <= |Pending(m)|
            && Pending(m') == Pending(m)[k..] + [StampSeq(rec, IssuedSeq(m.hdr))]
            && m'.hdr.dropped == (m.hdr.dropped + k) % TWO_TO_32
            && m'.hdr.nextSeq == IssuedSeq(m.hdr) + 1
            && m'.hdr.bootCount == m.hdr.bootCount && m'.hdr.flags == m.hdr.flags
  {
    var ev := Evict(m, |rec|);
    MakeRoomDrops(m.data, m.hdr.readOff, m.hdr.writeOff, Need(m.hdr, |rec|));
    AppendedHeader(m, rec);
    AppendedQueue(m, rec, ev.0);
  }

  // ----- acknowledging ----------------------------------------------------

  /** `k` leading records of `q` have seq <= ack, and the next one does not. */
  predicate AckedPrefix(q: seq<Record>, k: nat, ack: u32) {
    && k <= |q|
    && (forall i :: 0 <= i < k ==> |q[i]| >= HEADER_LEN && SeqOf(q[i]) <= ack)
    && (k < |q| ==> |q[k]| >= HEADER_LEN && SeqOf(q[k]) > ack)
  }

  lemma AckedPrepend(s: Record, q: seq<Record>, k: nat, ack: u32)
    requires |s| >= HEADER_LEN && SeqOf(s) <= ack && AckedPrefix(q, k, ack)
    ensures AckedPrefix([s] + q, k + 1, ack)
  {
  }

  lemma {:induction false} AckWalkFrees(d: seq<byte>, r: nat, w: nat, ack: u32) returns (k: nat)
    requires |d| == SIZE && r < SIZE && w < SIZE && Intact(d, r, w)
    ensures Dropped(d, r, w, AckWalk(d, r, w, ack), k)
    ensures AckedPrefix(Queue(d, r, w), k, ack)
    decreases Used(r, w)
  {
    k := 0;
    if r != w {
      QueueStep(d, r, w);
      var next := Wrap(r + d[r]);
      if IsPadAt(d, r) || SeqAt(d, r) <= ack {
        k := AckWalkFrees(d, next, w, ack);
        DroppedStep(d, r, w, AckWalk(d, next, w, ack), k);
        if IsPadAt(d, r) {
          assert Queue(d, r, w) == Queue(d, next, w);
        } else {
          AckedPrepend(d[r..r + d[r]], Queue(d, next, w), k, ack);
          k := k + 1;
        }
      }
    }
  }

  /** An ack frees exactly the leading records it covers; "no ack" and a seq never issued free nothing. */
  lemma AckRefinesFifo(m: Memory, ack: u32) returns (k: nat)
    requires Consistent(m)
    ensures Consistent(Ack(m, ack))
    ensures k <= |Pending(m)| && Pending(Ack(m, ack)) == Pending(m)[k..]
    ensures ack == NO_ACK || ack >= m.hdr.nextSeq ==> k == 0 && Ack(m, ack) == m
    ensures ack != NO_ACK && ack < m.hdr.nextSeq ==> AckedPrefix(Pending(m), k, ack)
    ensures Ack(m, ack).hdr.nextSeq == m.hdr.nextSeq && Ack(m, ack).hdr.dropped == m.hdr.dropped
    ensures Ack(m, ack).data == m.data
  {
    k := 0;
    if ack != NO_ACK && ack < m.hdr.nextSeq {
      k := AckWalkFrees(m.data, m.hdr.readOff, m.hdr.writeOff, ack);
      SealedValid(m.hdr.(readOff := AckWalk(m.data, m.hdr.readOff, m.hdr.writeOff, ack)));
      hide AckWalk, AckedPrefix, Queue, Intact, Sealed;
    } else {
      assert Pending(m)[0..] == Pending(m);
      hide Pending, Consistent;
    }
  }

  // ----- peeking ----------------------------------------------------------

  function Flatten(q: seq<Record>): (s: seq<byte>) {
    if q == [] then [] else q[0] + Flatten(q[1..])
  }

  lemma {:induction false} FlattenPrefix(q: seq<Record>, k: nat)
    requires k < |q|
    ensures Flatten(q[..k + 1]) == q[0] + Flatten(q[1..][..k])
  {
    assert q[..k + 1][1..] == q[1..][..k];
  }

  /** seq of the first record of a block; 0 for an empty one. */
  function FirstSeq(q: seq<Record>): u32 {
    if q != [] && |q[0]| >= HEADER_LEN then SeqOf(q[0]) else 0
  }

  /** The first `k` records of `q` fit the budget and no more do. */
  predicate LongestFit(q: seq<Record>, k: nat, budget: nat) {
    && k <= |q|
    && |Flatten(q[..k])| <= budget
    && (k < |q| ==> |Flatten(q[..k + 1])| > budget)
  }

  lemma {:induction false} PeekWalkReturns(d: seq<byte>, r: nat, w: nat, budget: nat)
    requires |d| == SIZE && r < SIZE && w < SIZE && Intact(d, r, w)
    ensures var p := PeekWalk(d, r, w, budget);
            var q := Queue(d, r, w);
            && LongestFit(q, p.count, budget)
            && p.bytes == Flatten(q[..p.count])
            && (p.stop != w <==> p.count < |q|)
            && p.first == FirstSeq(q[..p.count])
    decreases Used(r, w)
  {
    hide Queue, Intact, WellFormedAt, Shape, IsPad, SeqOf, SeqAt;
    if r == w {
      EmptyQueue(d, w);
    } else {
      QueueStep(d, r, w);
      var next := Wrap(r + d[r]);
      if IsPadAt(d, r) {
        assert Queue(d, r, w) == Queue(d, next, w);
        PeekWalkReturns(d, next, w, budget);
      } else {
        var s := d[r..r + d[r]];
        FlattenPrefix([s] + Queue(d, next, w), 0);
        if d[r] <= budget {
          PeekWalkReturns(d, next, w, budget - d[r]);
          PrependFits(s, Queue(d, next, w), PeekWalk(d, next, w, budget - d[r]).count, budget);
        }
      }
    }
  }

  lemma EmptyQueue(d: seq<byte>, w: nat)
    requires |d| == SIZE && w < SIZE
    ensures Queue(d, w, w) == []
  {
  }

  lemma PrependFits(s: Record, q: seq<Record>, k: nat, budget: nat)
    requires |s| <= budget && LongestFit(q, k, budget - |s|)
    ensures LongestFit([s] + q, k + 1, budget)
    ensures Flatten(([s] + q)[..k + 1]) == s + Flatten(q[..k])
  {
    assert ([s] + q)[1..] == q;
    FlattenPrefix([s] + q, k);
    if k < |q| {
      FlattenPrefix([s] + q, k + 1);
    }
  }

  /** peek returns the longest prefix of whole records that fits, and `more` iff one is left over. */
  lemma PeekReturnsLongestPrefix(m: Memory, budget: nat)
    requires Consistent(m)
    ensures var p := Peek(m, budget);
            && LongestFit(Pending(m), p.count, budget)
            && p.bytes == Flatten(Pending(m)[..p.count])
            && p.first == FirstSeq(Pending(m)[..p.count])
            && (p.stop != m.hdr.writeOff <==> p.count < |Pending(m)|)
  {
    PeekWalkReturns(m.data, m.hdr.readOff, m.hdr.writeOff, budget);
  }

  /** A budget of one maximal record always makes progress. */
  lemma PeekMakesProgress(m: Memory, budget: nat)
    requires Consistent(m) && budget >= RECORD_LEN_MAX && Pending(m) != []
    ensures Peek(m, budget).count > 0
  {
    PeekReturnsLongestPrefix(m, budget);
    PendingAreRecords(m);
    assert Pending(m)[0] in Pending(m);
    FlattenPrefix(Pending(m), 0);
  }

  // ----- boot -------------------------------------------------------------

  /** Cutting the chain where the walk stops leaves a well-formed chain with the same records. */
  lemma {:induction false} CutIsIntact(d: seq<byte>, off: nat, w: nat)
    requires |d| == SIZE && off < SIZE && w < SIZE
    ensures var s := Stop(d, off, w);
            && Intact(d, off, s)
            && Chain(d, off, s) == Chain(d, off, w)
            && Used(s, w) <= Used(off, w)
            && Used(off, s) <= Used(off, w)
    decreases Used(off, w)
  {
    if off != w && WellFormedAt(d, off, w) {
      CutIsIntact(d, Wrap(off + d[off]), w);
      var s := Stop(d, off, w);
      assert off != s;
      assert WellFormedAt(d, off, s);
    }
  }

  /** Whatever a reset leaves behind, boot ends with a consistent ring. */
  lemma BootIsConsistent(m: Memory)
    requires |m.data| == SIZE
    ensures Consistent(Boot(m))
    ensures ValidHeader(m.hdr) ==> Pending(Boot(m)) == Queue(m.data, m.hdr.readOff, m.hdr.writeOff)
    ensures !ValidHeader(m.hdr) ==> Pending(Boot(m)) == []
  {
    if ValidHeader(m.hdr) {
      CutIsIntact(m.data, m.hdr.readOff, m.hdr.writeOff);
    }
  }
}
