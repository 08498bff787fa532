/** Whole runs of the ring in which any append may be cut short by a reset. */
module RingResets {
  import opened Bytes
  import opened Ring
  import opened RingProofs
  import opened RingCrash
  import opened RingRuns

  /** An operation that ran to its end, or an append that a reset cut at its `i`-th point, leaving `img`; boot
      follows. */
  datatype Event = Whole(op: Op) | Cut(rec: Record, i: nat, img: Memory)

  predicate Possible(t: Tally, e: Event)
    requires WellSized(t.m)
  {
    match e
    case Whole(op) => LegalOp(op) && (op.Append? ==> t.m.hdr.nextSeq < 0xFFFF_FFFF)
    case Cut(rec, i, img) =>
      && IsRecord(rec) && t.m.hdr.nextSeq < 0xFFFF_FFFF
      && i < |AppendPoints(t.m, rec)| && MayLeave(AppendPoints(t.m, rec)[i], img)
  }

  /** The reset does not come while an append runs over a PAD no sealed header has passed. */
  predicate Safe(t: Tally, e: Event)
    requires WellSized(t.m) && Possible(t, e)
  {
    e.Cut? ==> !OverrunsUnsealedPad(t.m, |e.rec|)
  }

  function After(t: Tally, e: Event): (t': Tally)
    requires WellSized(t.m) && Possible(t, e)
    ensures WellSized(t'.m)
  {
    match e
    case Whole(op) => Apply(t, op)
    case Cut(rec, i, img) => Tally(Boot(img), t.acked, t.evicted + Evict(t.m, |rec|).1)
  }

  /** The reset came after the record's header was sealed. */
  predicate Sealed(t: Tally, e: Event)
    requires WellSized(t.m) && Possible(t, e)
  {
    e.Cut? && e.i + 1 == |AppendPoints(t.m, e.rec)|
  }

  // ----- what boot makes of an interrupted append -------------------------

  lemma BootKeepsHeader(img: Memory)
    requires |img.data| == SIZE && ValidHeader(img.hdr)
    ensures Boot(img).hdr.nextSeq == img.hdr.nextSeq && Boot(img).hdr.dropped == img.hdr.dropped
    ensures Boot(img).hdr.readOff == img.hdr.readOff && Boot(img).data == img.data
  {
  }

  lemma BootTidy(img: Memory)
    requires |img.data| == SIZE && ValidHeader(img.hdr) && PadsLast(img.data, img.hdr.readOff, img.hdr.writeOff)
    requires Intact(img.data, img.hdr.readOff, img.hdr.writeOff)
    ensures Tidy(Boot(img))
  {
  }

  lemma EvictTidy(m: Memory, len: nat)
    requires Consistent(m) && Tidy(m) && len <= RECORD_LEN_MAX
    ensures var r := Evict(m, len).0;
            Intact(m.data, r, m.hdr.writeOff) && PadsLast(m.data, r, m.hdr.writeOff)
            && Free(r, m.hdr.writeOff) >= Need(m.hdr, len)
  {
    MakeRoomDrops(m.data, m.hdr.readOff, m.hdr.writeOff, Need(m.hdr, len));
    MakeRoomKeepsPadsLast(m.data, m.hdr.readOff, m.hdr.writeOff, Need(m.hdr, len));
  }

  /** The chain from the sealed read cursor is untouched by what was being written. */
  lemma ImageTidy(m: Memory, len: nat, r: nat, d: seq<byte>)
    requires WellSized(m) && r < SIZE && 0 < len <= RECORD_LEN_MAX && |d| == SIZE
    requires Intact(m.data, r, m.hdr.writeOff) && PadsLast(m.data, r, m.hdr.writeOff)
    requires Free(r, m.hdr.writeOff) + 1 >= Need(m.hdr, len)
    requires forall i :: 0 <= i < SIZE && !Written(m.hdr, len, i) ==> d[i] == m.data[i]
    ensures Intact(d, r, m.hdr.writeOff) && PadsLast(d, r, m.hdr.writeOff)
  {
    KeptSpanUnchanged(m, len, r, d);
    PadsLastFrame(m.data, d, r, m.hdr.writeOff);
    WalkFrame(m.data, d, r, m.hdr.writeOff);
  }

  /** After a reset before the last seal: same numbers, published evictions counted, PADs in place. */
  lemma WritingBoots(m: Memory, rec: Record, p: Point, img: Memory)
    requires Consistent(m) && Tidy(m) && IsRecord(rec) && !OverrunsUnsealedPad(m, |rec|)
    requires WritingPoint(m, |rec|, p) && MayLeave(p, img)
    ensures var b, k := Boot(img), Evict(m, |rec|).1;
            && Consistent(b) && Tidy(b)
            && b.hdr.nextSeq == m.hdr.nextSeq && b.hdr.dropped == (m.hdr.dropped + k) % TWO_TO_32
  {
    hide WritingHeader, IsRecord, Boot, PadsLast, ValidHeader, Written, Intact;
    var len := |rec|;
    RecordSize(rec);
    WritingHeaderFacts(m, len);
    WritingNumbers(m, len);
    EvictTidy(m, len);
    assert forall i :: 0 <= i < SIZE && !Written(m.hdr, len, i) ==> img.data[i] == m.data[i];
    ImageTidy(m, len, p.hdr.readOff, img.data);
    BootIsConsistent(img);
    BootKeepsHeader(img);
    BootTidy(img);
  }

  lemma WritingNumbers(m: Memory, len: nat)
    requires Consistent(m) && len <= RECORD_LEN_MAX
    ensures WritingHeader(m, len).nextSeq == m.hdr.nextSeq
    ensures WritingHeader(m, len).dropped == (m.hdr.dropped + Evict(m, len).1) % TWO_TO_32
  {
  }

  /** After a reset past it: the append as a whole. */
  lemma SealedBoots(m: Memory, rec: Record, img: Memory)
    requires Consistent(m) && Tidy(m) && IsRecord(rec) && img == AppendRaw(m, rec)
    ensures var b := Boot(img);
            && Consistent(b) && Tidy(b)
            && b.hdr.nextSeq == IssuedSeq(m.hdr) + 1 && b.hdr.dropped == (m.hdr.dropped + Evict(m, |rec|).1) % TWO_TO_32
  {
    hide AppendRaw, Evict, IsRecord;
    hide Boot;
    AppendRefinesFifo(m, rec);
    AppendKeepsTidy(m, rec);
    BootIsConsistent(img);
    BootKeepsHeader(img);
    BootTidy(img);
  }

  // ----- the invariant over runs with resets ------------------------------

  lemma ConsecutiveDrop(q: seq<Record>, k: nat, next: int)
    requires k <= |q| && Consecutive(q, next)
    ensures Consecutive(q[k..], next)
  {
  }

  lemma WritingTally(t: Tally, b: Memory, k: nat)
    requires Invariant(t) && Consistent(b) && Tidy(b) && k <= |Pending(t.m)| && Pending(b) == Pending(t.m)[k..]
    requires b.hdr.nextSeq == t.m.hdr.nextSeq && b.hdr.dropped == (t.m.hdr.dropped + k) % TWO_TO_32
    ensures Invariant(Tally(b, t.acked, t.evicted + k))
  {
    assert WellSized(b);
    hide Consistent, Tidy, Pending;
    ConsecutiveDrop(Pending(t.m), k, t.m.hdr.nextSeq);
    Counted(t, k);
  }

  lemma Issued(t: Tally)
    requires Invariant(t) && t.m.hdr.nextSeq < 0xFFFF_FFFF
    ensures IssuedSeq(t.m.hdr) == t.m.hdr.nextSeq && Consistent(t.m) && Tidy(t.m)
  {
    hide Tidy, Pending, Consecutive;
  }

  lemma SealedTally(t: Tally, rec: Record, b: Memory, k: nat)
    requires Invariant(t) && IsRecord(rec) && t.m.hdr.nextSeq < 0xFFFF_FFFF
    requires Consistent(b) && Tidy(b) && k <= |Pending(t.m)|
    requires Pending(b) == Pending(t.m)[k..] + [StampSeq(rec, IssuedSeq(t.m.hdr))]
    requires b.hdr.nextSeq == t.m.hdr.nextSeq + 1 && b.hdr.dropped == (t.m.hdr.dropped + k) % TWO_TO_32
    ensures Invariant(Tally(b, t.acked, t.evicted + k))
  {
    assert WellSized(b);
    Issued(t);
    StampKeepsShape(rec, t.m.hdr.nextSeq);
    hide Invariant, Consistent, Tidy, Pending, StampSeq, IsRecord;
    AppendTally(t, b, k, StampSeq(rec, t.m.hdr.nextSeq));
  }

  lemma WritingCut(t: Tally, rec: Record, p: Point, img: Memory)
    requires |img.data| == SIZE && WellSized(t.m) && Invariant(t) && IsRecord(rec) && t.m.hdr.nextSeq < 0xFFFF_FFFF && !OverrunsUnsealedPad(t.m, |rec|)
    requires WritingPoint(t.m, |rec|, p) && MayLeave(p, img)
    ensures Invariant(Tally(Boot(img), t.acked, t.evicted + Evict(t.m, |rec|).1))
    ensures Boot(img).hdr.nextSeq == t.m.hdr.nextSeq
  {
    hide Invariant, Evict, Boot, Consistent, Tidy, Pending, WritingPoint, MayLeave, OverrunsUnsealedPad, IsRecord, WellSized;
    RecordSize(rec);
    Issued(t);
    WritingRecovers(t.m, rec, p, img);
    WritingBoots(t.m, rec, p, img);
    WritingTally(t, Boot(img), Evict(t.m, |rec|).1);
  }

  lemma SealedCut(t: Tally, rec: Record, img: Memory)
    requires |img.data| == SIZE && WellSized(t.m) && Invariant(t) && IsRecord(rec) && t.m.hdr.nextSeq < 0xFFFF_FFFF && img == AppendRaw(t.m, rec)
    ensures Invariant(Tally(Boot(img), t.acked, t.evicted + Evict(t.m, |rec|).1))
    ensures Boot(img).hdr.nextSeq == t.m.hdr.nextSeq + 1
  {
    hide Invariant, Evict, Boot, Consistent, Tidy, Pending, AppendRaw, IsRecord, StampSeq, WellSized;
    RecordSize(rec);
    Issued(t);
    SealedRecovers(t.m, rec, img);
    SealedBoots(t.m, rec, img);
    SealedTally(t, rec, Boot(img), Evict(t.m, |rec|).1);
  }

  /** A reset inside an append: the ring boots into the invariant, with the old log less what was evicted, and with
      the new record exactly from its seal on. */
  lemma CutKeepsInvariant(t: Tally, e: Event)
    requires WellSized(t.m) && Invariant(t) && Possible(t, e) && e.Cut? && Safe(t, e)
    ensures Invariant(After(t, e))
    ensures After(t, e).m.hdr.nextSeq == t.m.hdr.nextSeq + (if Sealed(t, e) then 1 else 0)
    ensures |e.img.data| == SIZE && IsRecord(e.rec) && Recovers(t.m, e.rec, e.i, e.img)
  {
    hide Invariant, AppendPoints, AppendRaw, Evict, Boot, Consistent, OverrunsUnsealedPad, IsRecord, WritingPoint,
         Recovers, Tidy, Pending, WellSized;
    Issued(t);
    var rec, i, img := e.rec, e.i, e.img;
    ResetRecovers(t.m, rec, i, img);
    WritingPoints(t.m, rec, i);
    if i + 1 < |AppendPoints(t.m, rec)| {
      hide MayLeave;
      WritingCut(t, rec, AppendPoints(t.m, rec)[i], img);
    } else {
      assert img.data == AppendRaw(t.m, rec).data;
      SealedCut(t, rec, img);
    }
  }

  lemma Counted(t: Tally, k: nat)
    requires t.m.hdr.dropped == t.evicted % TWO_TO_32
    ensures (t.m.hdr.dropped + k) % TWO_TO_32 == (t.evicted + k) % TWO_TO_32
  {
  }

  predicate Plausible(t: Tally, es: seq<Event>)
    requires WellSized(t.m)
    decreases es
  {
    es == [] || (Possible(t, es[0]) && Plausible(After(t, es[0]), es[1..]))
  }

  function RunAll(t: Tally, es: seq<Event>): (t': Tally)
    requires WellSized(t.m) && Plausible(t, es)
    ensures WellSized(t'.m)
    decreases es
  {
    if es == [] then t else RunAll(After(t, es[0]), es[1..])
  }

  /** No append over an unsealed PAD is cut. */
  predicate AllSafe(t: Tally, es: seq<Event>)
    requires WellSized(t.m) && Plausible(t, es)
    decreases es
  {
    es == [] || (Safe(t, es[0]) && AllSafe(After(t, es[0]), es[1..]))
  }

  lemma EventKeepsInvariant(t: Tally, e: Event)
    requires WellSized(t.m) && Invariant(t) && Possible(t, e) && Safe(t, e)
    ensures Invariant(After(t, e))
  {
    hide Invariant, Apply, OverrunsUnsealedPad, MayLeave, AppendPoints, Recovers, Boot, Evict;
    if e.Whole? {
      StepKeepsInvariant(t, e.op);
    } else {
      CutKeepsInvariant(t, e);
    }
  }

  /** Over every run with resets inside appends, records are conserved: what was numbered was acked, evicted, or is
      pending in order. */
  lemma {:induction false} ResetsConserve(t: Tally, es: seq<Event>)
    requires Invariant(t) && Plausible(t, es) && AllSafe(t, es)
    ensures Invariant(RunAll(t, es))
    decreases es
  {
    if es != [] {
      hide Invariant, After, Possible, Safe;
      EventKeepsInvariant(t, es[0]);
      ResetsConserve(After(t, es[0]), es[1..]);
    }
  }
}
