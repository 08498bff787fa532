/** What the sequence gap says about evictions, and what a reply read too late does. */
module DrainLosses {
  import opened Bytes
  import opened Ring
  import opened RingProofs
  import RingRuns
  import opened Codec
  import opened Drain

  // ----- evictions, losses and the gap ------------------------------------

  lemma {:induction false} SubsetCount(a: set<nat>, b: set<nat>)
    requires a <= b
    ensures |a| <= |b| && |b| == |a| + |b - a|
    ensures |a| == |b| <==> a == b
  {
    assert b == a + (b - a);
  }

  lemma EvictedFits(s: System)
    requires Inv(s)
    ensures s.lost <= s.evicted && |s.evicted| < 0xFFFF_FFFF
    ensures s.ring.hdr.dropped == |s.evicted|
    ensures forall q :: q in s.evicted ==> 0 < q <= |s.issued|
  {
    hide Consistent, Pending, CursorPart, StoredPart, LostPart, WirePart, Numbered;
    var n := |s.issued|;
    SubsetCount(s.evicted, Numbers(0, n));
  }

  lemma LastDelivered(s: System)
    requires Inv(s)
    ensures Cursor(s.host) !in s.lost
  {
    hide Consistent, Pending, QueuePart, StoredPart, LostPart, WirePart, EvictPart;
  }

  /** The evicted records the host has all the same, or is about to be sent. */
  function Spared(s: System): set<nat> {
    s.evicted - s.lost
  }

  lemma SparedAreDelivered(s: System, q: nat)
    requires Inv(s) && q in Spared(s)
    ensures 0 < q <= |s.issued|
    ensures q <= Cursor(s.host) ==> s.issued[q - 1] in s.host.stored
    ensures q > Cursor(s.host) ==> OnWire(View(s), q)
  {
    EvictedFits(s);
    MissesExactlyTheLost(s);
    hide Consistent, Pending, QueuePart, CursorPart, StoredPart, LostPart, WirePart, OnWire;
  }

  /** Every eviction counted in `dropped` lost a record, or took one the host has or is about to be sent. */
  lemma EvictionsSplit(s: System)
    requires Inv(s)
    ensures s.ring.hdr.dropped == |s.evicted| == |s.lost| + |Spared(s)|
    ensures forall q: nat :: q in Spared(s) ==>
              0 < q <= |s.issued| && if q <= Cursor(s.host) then s.issued[q - 1] in s.host.stored else OnWire(View(s), q)
  {
    EvictedFits(s);
    SubsetCount(s.lost, s.evicted);
    hide Inv, Cursor, OnWire;
    forall q: nat | q in Spared(s)
      ensures 0 < q <= |s.issued| && if q <= Cursor(s.host) then s.issued[q - 1] in s.host.stored else OnWire(View(s), q)
    {
      SparedAreDelivered(s, q);
    }
  }

  /** What the host's gaps count, with what was lost before its first record. */
  function GapWidth(h: Host): int
    requires h.stored != [] && |h.stored[0]| >= 6
  {
    GapTotal(h.gaps) + SeqOf(h.stored[0]) - 1
  }

  /** The gap is as wide as `dropped` exactly when every record evicted so far is below the host's last one and was
      not stored: none was delivered before it was evicted, and none went since. */
  lemma GapIsDroppedIff(s: System)
    requires Inv(s) && GapsMatch(s.host) && s.host.stored != []
    ensures |s.host.stored[0]| >= 6
    ensures GapWidth(s.host) == s.ring.hdr.dropped
            <==> forall q :: q in s.evicted ==> 0 < q <= Cursor(s.host) && q <= |s.issued| && s.issued[q - 1] !in s.host.stored
  {
    var below := LostBelow(s.lost, Cursor(s.host));
    GapsAreTheLosses(s);
    EvictedFits(s);
    MissesExactlyTheLost(s);
    SubsetCount(below, s.evicted);
    hide Inv, GapsMatch, Cursor;
    assert below == s.evicted <==> forall q :: q in s.evicted ==> q in s.lost && 0 < q <= Cursor(s.host);
    forall q | q in s.evicted && 0 < q <= Cursor(s.host)
      ensures q in s.lost <==> s.issued[q - 1] !in s.host.stored
    {
      var i := q - 1;
      assert s.issued[i] in s.host.stored <==> i + 1 !in s.lost;
    }
  }

  /** One record the host stored and the ring evicted is enough to part them. */
  lemma StoredAndEvicted(s: System, q: nat)
    requires Inv(s) && GapsMatch(s.host) && s.host.stored != []
    requires q in s.evicted && 0 < q <= |s.issued| && s.issued[q - 1] in s.host.stored
    ensures |s.host.stored[0]| >= 6 && GapWidth(s.host) != s.ring.hdr.dropped
  {
    hide Inv, GapsMatch, GapWidth;
    GapIsDroppedIff(s);
  }

  /** Over every run from a fresh ring. */
  lemma GapOverRuns(data: seq<byte>, es: seq<Event>)
    requires |data| == SIZE && WellSized(Start(data).ring) && Legal(Start(data), es)
    ensures var s := RunEvents(Start(data), es);
            && s.ring.hdr.dropped == |s.evicted| == |s.lost| + |Spared(s)|
            && (s.host.stored != [] ==>
                  && |s.host.stored[0]| >= 6
                  && (GapWidth(s.host) == s.ring.hdr.dropped
                      <==> forall q :: q in s.evicted ==>
                             0 < q <= Cursor(s.host) && q <= |s.issued| && s.issued[q - 1] !in s.host.stored))
  {
    hide RunEvents, Legal, Inv, GapsMatch, Cursor;
    StartIsInv(data);
    DrainKeepsInv(Start(data), es);
    var s := RunEvents(Start(data), es);
    EvictionsSplit(s);
    if s.host.stored != [] {
      GapIsDroppedIff(s);
    }
  }

  /** The count the host is shown with a block is the evictions up to then. */
  lemma BlockShowsEvictions(s: System, maxBytes: u16, now: u32, flags: byte)
    requires Inv(s)
    ensures var payload := BlockPayload(s.ring, maxBytes, now, flags);
            ParseBlock(payload).Some? && ParseBlock(payload).value.0.dropped == |s.evicted|
  {
    EvictedFits(s);
    var k := BlockRoundTrip(s.ring, maxBytes, now, flags);
    hide BlockPayload, ParseBlock, Pending, LinkInv;
  }

  // ----- a record delivered, then evicted ---------------------------------

  function Produces(rec: Record, n: nat): (es: seq<Event>)
    ensures |es| == n
  {
    if n == 0 then [] else [Produce(rec)] + Produces(rec, n - 1)
  }

  lemma {:induction false} RunJoin(s: System, a: seq<Event>, b: seq<Event>)
    requires WellSized(s.ring) && Legal(s, a) && Legal(RunEvents(s, a), b)
    ensures Legal(s, a + b) && RunEvents(s, a + b) == RunEvents(RunEvents(s, a), b)
    decreases a
  {
    hide Next, Enabled, WellSized;
    if a == [] {
      assert a + b == b;
    } else {
      RunJoin(Next(s, a[0]), a[1..], b);
      ConsJoin(a, b);
    }
  }

  lemma ConsJoin(a: seq<Event>, b: seq<Event>)
    requires a != []
    ensures (a + b)[0] == a[0] && (a + b)[1..] == a[1..] + b && a + b != []
  {
  }

  /** Appending with room to spare leaves everything before its slot alone. */
  lemma FillKeeps(m: Memory, rec: Record)
    requires WellSized(m) && IsRecord(rec)
    requires m.hdr.writeOff + |rec| < SIZE && |rec| <= Free(m.hdr.readOff, m.hdr.writeOff)
    ensures Evict(m, |rec|).1 == 0
    ensures forall i :: 0 <= i < m.hdr.writeOff ==> AppendRaw(m, rec).data[i] == m.data[i]
    ensures AppendRaw(m, rec).data[m.hdr.writeOff] == rec[0] && AppendRaw(m, rec).data[m.hdr.writeOff + 1] == rec[1]
  {
    assert Evict(m, |rec|) == (m.hdr.readOff, 0);
  }

  /** What filling the free room leaves: nothing evicted, nothing sent, nothing overwritten. */
  predicate Filled(s: System, r: System, bytes: nat, n: nat)
    requires WellSized(s.ring) && WellSized(r.ring)
  {
    && Inv(r) && r.host == s.host && r.wire == s.wire && r.evicted == s.evicted && r.lost == s.lost
    && |r.issued| == |s.issued| + n && s.issued <= r.issued
    && Gone(View(r)) == Gone(View(s))
    && r.ring.hdr.readOff == s.ring.hdr.readOff && r.ring.hdr.writeOff == s.ring.hdr.writeOff + bytes
    && forall i :: 0 <= i < s.ring.hdr.writeOff ==> r.ring.data[i] == s.ring.data[i]
  }

  lemma FillOne(s: System, rec: Record)
    requires Inv(s) && IsRecord(rec) && |s.issued| < 0xFFFF_FFFE
    requires s.ring.hdr.writeOff + |rec| < SIZE && |rec| <= Free(s.ring.hdr.readOff, s.ring.hdr.writeOff)
    ensures Enabled(s, Produce(rec)) && Filled(s, Next(s, Produce(rec)), |rec|, 1)
    ensures var r := Next(s, Produce(rec)).ring;
            r.data[s.ring.hdr.writeOff] == rec[0] && r.data[s.ring.hdr.writeOff + 1] == rec[1]
  {
    hide AppendRaw, Pending, LinkInv, Consistent, StampSeq, IsRecord, Evict;
    RingRuns.FillStep(s.ring, rec);
    FillKeeps(s.ring, rec);
    ProduceKeepsInv(s, rec);
    AppendRefinesFifo(s.ring, rec);
    NothingLeaves(View(s));
    var r := Next(s, Produce(rec));
    assert r.evicted == s.evicted && r.lost == s.lost;
    GoneStays(View(s), View(r));
  }

  lemma NothingLeaves(l: Link)
    ensures Leaving(l, 0) == {} && Evicted(l, 0) == {}
  {
  }

  lemma GoneStays(l: Link, r: Link)
    requires |r.pending| == |l.pending| + 1 && |r.issued| == |l.issued| + 1
    ensures Gone(r) == Gone(l)
  {
  }

  lemma FilledThen(s: System, m: System, r: System, a: nat, b: nat, k: nat, n: nat)
    requires WellSized(s.ring) && WellSized(m.ring) && WellSized(r.ring) && Filled(s, m, a, k) && Filled(m, r, b, n)
    ensures Filled(s, r, a + b, k + n)
  {
    hide Inv, Gone;
  }

  /** The rest of a fill after its first record. */
  lemma Remaining(n: nat, len: nat)
    requires n > 0
    ensures n * len == len + (n - 1) * len && (n - 1) * len >= 0
  {
  }

  lemma {:induction false} FillUp(s: System, rec: Record, n: nat, bytes: nat)
    requires Inv(s) && IsRecord(rec) && |s.issued| + n < 0xFFFF_FFFF && bytes == n * |rec|
    requires s.ring.hdr.writeOff + bytes < SIZE && bytes <= Free(s.ring.hdr.readOff, s.ring.hdr.writeOff)
    ensures Legal(s, Produces(rec, n)) && Filled(s, RunEvents(s, Produces(rec, n)), bytes, n)
    decreases n
  {
    hide Next, Enabled, LinkInv, Consistent, IsRecord, Gone;
    if n > 0 {
      var rest := (n - 1) * |rec|;
      Remaining(n, |rec|);
      FillOne(s, rec);
      var s1 := Next(s, Produce(rec));
      FillUp(s1, rec, n - 1, rest);
      var r := RunEvents(s1, Produces(rec, n - 1));
      FirstProduce(s, rec, n);
      hide Inv, RunEvents, Legal, Produces, Filled;
      FilledThen(s, s1, r, |rec|, rest, 1, n - 1);
    }
  }

  lemma FirstProduce(s: System, rec: Record, n: nat)
    requires WellSized(s.ring) && n > 0 && Enabled(s, Produce(rec))
    requires Legal(Next(s, Produce(rec)), Produces(rec, n - 1))
    ensures Legal(s, Produces(rec, n))
    ensures RunEvents(s, Produces(rec, n)) == RunEvents(Next(s, Produce(rec)), Produces(rec, n - 1))
  {
    hide Next, Enabled;
    var es := Produces(rec, n);
    assert es[0] == Produce(rec) && es[1..] == Produces(rec, n - 1);
  }

  /** One record produced, requested and received, and not yet acknowledged. */
  function FirstDelivery(rec: Record): seq<Event> {
    [Produce(rec), Serve(178, 0, 0), Deliver]
  }

  /** A host that has not stored anything and sends no ack. */
  predicate Unfed(h: Host) {
    h.ackSeq == NO_ACK && h.lastSeq.None? && h.stored == []
  }

  /** A request finds what is pending from the first record on; its ack frees nothing before one was received. */
  lemma FirstServe(s: System)
    requires Inv(s) && s.wire.None? && Unfed(s.host) && Gone(View(s)) == 0 && |s.issued| == 1
    ensures Enabled(s, Serve(178, 0, 0))
    ensures var r := Next(s, Serve(178, 0, 0));
            Inv(r) && r == s.(wire := r.wire) && r.wire.Some? && r.wire.value.lo == 0 && r.wire.value.hi == 1
  {
    hide LinkInv, Peek, BlockPayload, Gone, Pending, Ack;
    NextKeepsInv(s, Serve(178, 0, 0));
    NoAckKeeps(s.ring);
    var w := ReplyCarries(s, 178, 0, 0);
    AllPending(s);
    PeekMakesProgress(s.ring, 178);
  }

  lemma NoAckKeeps(m: Memory)
    requires WellSized(m)
    ensures Ack(m, NO_ACK) == m
  {
  }

  lemma AllPending(s: System)
    requires Inv(s) && Gone(View(s)) == 0
    ensures Pending(s.ring) == s.issued
  {
    hide Consistent, Pending, CursorPart, StoredPart, LostPart, WirePart, EvictPart, Numbered;
  }

  lemma Received(s: System)
    requires Inv(s) && s.wire.Some? && s.wire.value.lo == 0 && s.wire.value.hi == 1 && Unfed(s.host) && |s.issued| == 1
    ensures var r := Next(s, Deliver);
            Inv(r) && r == s.(wire := None, host := r.host) && r.host.stored == [s.issued[0]] && Cursor(r.host) == 1
  {
    hide Inv, Carries, LastSeq, Receive, Numbered;
    NextKeepsInv(s, Deliver);
    WireCarries(s);
    var run := s.issued[0..1];
    RunLast(s.issued, 0, 1);
    ReceiveEffect(s.host, s.wire.value.payload, run);
    assert run == [s.issued[0]];
    assert [] + run == run;
  }

  lemma WireCarries(s: System)
    requires Inv(s) && s.wire.Some?
    ensures var w := s.wire.value;
            Numbered(s.issued) && w.lo <= w.hi <= |s.issued| && Carries(w.payload, s.issued[w.lo..w.hi])
  {
    hide Consistent, Pending, CursorPart, StoredPart, LostPart, EvictPart, Carries, Numbered;
  }

  /** Nothing yet happened. */
  predicate Untouched(s: System)
    requires WellSized(s.ring)
  {
    && Inv(s) && s.host == NEW_HOST && s.wire.None? && s.issued == [] && s.evicted == {} && Gone(View(s)) == 0
    && s.ring.hdr.readOff == 0 && s.ring.hdr.writeOff == 0
  }

  /** The host has the one record there is, and has not said so yet. */
  predicate HasFirst(s: System, rec: Record)
    requires WellSized(s.ring) && |rec| >= 2
  {
    && Inv(s) && s.wire.None? && |s.issued| == 1 && s.host.stored == [s.issued[0]] && Cursor(s.host) == 1
    && s.evicted == {} && Gone(View(s)) == 0
    && s.ring.hdr.readOff == 0 && s.ring.hdr.writeOff == |rec|
    && s.ring.data[0] == rec[0] && s.ring.data[1] == rec[1]
  }

  lemma FirstThree(s0: System, rec: Record)
    requires WellSized(s0.ring) && Untouched(s0) && IsRecord(rec)
    ensures Legal(s0, FirstDelivery(rec)) && |rec| >= 2 && HasFirst(RunEvents(s0, FirstDelivery(rec)), rec)
  {
    RecordSize(rec);
    hide Inv, Gone, IsRecord, Next, Enabled;
    FillOne(s0, rec);
    var s1 := Next(s0, Produce(rec));
    FirstServe(s1);
    var s2 := Next(s1, Serve(178, 0, 0));
    Received(s2);
    var s3 := Next(s2, Deliver);
    DeliverEnabled(s2);
    ThreeEvents(s0, Produce(rec), Serve(178, 0, 0), Deliver);
    GoneOfRing(s1, s3);
    hide View;
  }

  lemma DeliverEnabled(s: System)
    requires WellSized(s.ring) && s.wire.Some?
    ensures Enabled(s, Deliver)
  {
  }

  lemma StartUntouched(data: seq<byte>)
    requires |data| == SIZE
    ensures WellSized(Start(data).ring) && Untouched(Start(data))
  {
    StartIsInv(data);
    hide Inv;
  }

  lemma GoneOfRing(s: System, r: System)
    requires WellSized(s.ring) && r.ring == s.ring && r.issued == s.issued
    ensures Gone(View(r)) == Gone(View(s))
  {
  }

  lemma ThreeEvents(s: System, a: Event, b: Event, c: Event)
    requires WellSized(s.ring) && Enabled(s, a) && Enabled(Next(s, a), b) && Enabled(Next(Next(s, a), b), c)
    ensures Legal(s, [a, b, c]) && RunEvents(s, [a, b, c]) == Next(Next(Next(s, a), b), c)
  {
    hide Next, Enabled, Legal, RunEvents;
    OneEvent(s, a);
    OneEvent(Next(s, a), b);
    OneEvent(Next(Next(s, a), b), c);
    RunJoin(Next(s, a), [b], [c]);
    RunJoin(s, [a], [b] + [c]);
    assert [a] + ([b] + [c]) == [a, b, c];
  }

  /** The record that does not fit any more takes the first one's place. */
  lemma OldestGoes(s: System, frame: Record)
    requires Inv(s) && IsRecord(frame) && |frame| == FRAME_LEN && |s.issued| < 0xFFFF_FFFE && Gone(View(s)) == 0
    requires s.ring.hdr.readOff == 0 && s.ring.hdr.writeOff == 65494
    requires s.ring.data[0] == FRAME_LEN && s.ring.data[1] == REC_FRAME
    ensures Enabled(s, Produce(frame))
    ensures var r := Next(s, Produce(frame)); Inv(r) && r.host == s.host && 1 in r.evicted && s.issued <= r.issued
  {
    assert WellSized(s.ring);
    hide Inv, AppendRaw, Pending, Evict, Gone, IsRecord, Leaving, View, WellSized;
    ProduceKeepsInv(s, frame);
    SomethingGoes(s.ring);
    OneLeaves(View(s), Evict(s.ring, 26).1);
  }

  lemma SomethingGoes(m: Memory)
    requires WellSized(m) && m.hdr.readOff == 0 && m.hdr.writeOff == 65494
    requires m.data[0] == FRAME_LEN && m.data[1] == REC_FRAME
    ensures Evict(m, 26).1 >= 1
  {
    assert Need(m.hdr, 26) == 36 && Free(0, 65494) == 9;
    var rest := MakeRoom(m.data, Wrap(26), 65494, 36);
    assert MakeRoom(m.data, 0, 65494, 36) == (rest.0, rest.1 + 1);
  }

  lemma OneLeaves(l: Link, k: nat)
    requires Gone(l) == 0 && k >= 1
    ensures 1 in Leaving(l, k)
  {
    hide Gone;
  }

  /** First record delivered, the rest of the ring filled, one more record. */
  function DeliverThenOverrun(frame: Record, n: nat): seq<Event> {
    FirstDelivery(frame) + (Produces(frame, n) + [Produce(frame)])
  }

  /** The first record was stored, and evicted; the gap is not `dropped`. */
  predicate Parted(s: System) {
    && |s.issued| >= 1 && s.host.stored == [s.issued[0]] && |s.host.stored[0]| >= 6
    && 1 in s.evicted && GapWidth(s.host) != s.ring.hdr.dropped
  }

  /** A reachable run in which the gap is not `dropped`: the oldest record was received, not yet acknowledged, and
      evicted; it counts as dropped and leaves no gap. */
  lemma DroppedIsNotTheGap(data: seq<byte>, frame: Record, n: nat)
    requires |data| == SIZE && IsRecord(frame) && |frame| == FRAME_LEN && frame[1] == REC_FRAME && n == 2518
    ensures WellSized(Start(data).ring) && Legal(Start(data), DeliverThenOverrun(frame, n))
    ensures Parted(RunEvents(Start(data), DeliverThenOverrun(frame, n)))
  {
    hide RunEvents, Legal, Produces, FirstDelivery, Inv, Gone, IsRecord, Start, Next, Enabled;
    var s0 := Start(data);
    StartUntouched(data);
    FirstThree(s0, frame);
    var s1 := RunEvents(s0, FirstDelivery(frame));
    FillAfter(s1, frame, n);
    RunJoin(s0, FirstDelivery(frame), Produces(frame, n) + [Produce(frame)]);
    assert RunEvents(s0, DeliverThenOverrun(frame, n)).host.stored == [s1.issued[0]];
    GapsOf(data, DeliverThenOverrun(frame, n));
    hide GapsMatch, GapWidth, DeliverThenOverrun, Cursor;
    StoredAndEvicted(RunEvents(s0, DeliverThenOverrun(frame, n)), 1);
  }

  lemma FillAfter(s1: System, frame: Record, n: nat)
    requires WellSized(s1.ring) && IsRecord(frame) && |frame| == FRAME_LEN && frame[1] == REC_FRAME && n == 2518
    requires HasFirst(s1, frame)
    ensures Legal(s1, Produces(frame, n) + [Produce(frame)])
    ensures var s := RunEvents(s1, Produces(frame, n) + [Produce(frame)]);
            && Inv(s) && s.host == s1.host && 1 in s.evicted && |s.issued| >= 1 && s.issued[0] == s1.issued[0]
  {
    assert frame[0] == FRAME_LEN;
    hide RunEvents, Legal, Produces, Inv, Gone, IsRecord, Next, Enabled, View;
    FillUp(s1, frame, n, 65468);
    var s2 := RunEvents(s1, Produces(frame, n));
    OldestGoes(s2, frame);
    OneEvent(s2, Produce(frame));
    RunJoin(s1, Produces(frame, n), [Produce(frame)]);
  }

  lemma GapsOf(data: seq<byte>, es: seq<Event>)
    requires |data| == SIZE && WellSized(Start(data).ring) && Legal(Start(data), es)
    ensures Inv(RunEvents(Start(data), es)) && GapsMatch(RunEvents(Start(data), es).host)
  {
    hide Legal, RunEvents, Inv, GapsMatch, Start;
    StartIsInv(data);
    DrainKeepsInv(Start(data), es);
  }

  lemma OneEvent(s: System, e: Event)
    requires WellSized(s.ring) && Enabled(s, e)
    ensures Legal(s, [e]) && RunEvents(s, [e]) == Next(s, e)
  {
    hide Next, Enabled;
    assert [e][1..] == [];
  }

  // ----- a reply read after its request was given up ----------------------

  lemma LastStored(s: System)
    requires Inv(s) && Cursor(s.host) > 0
    ensures s.host.stored != [] && Ascending(s.host.stored)
    ensures var top := s.host.stored[|s.host.stored| - 1]; |top| >= HEADER_LEN && SeqOf(top) == Cursor(s.host)
  {
    var d := Cursor(s.host);
    LastDelivered(s);
    MissesExactlyTheLost(s);
    assert s.issued[d - 1] in s.host.stored;
    assert s.host.stored == Keep(s.issued[..d], s.lost) && Numbered(s.issued);
    NumberedPrefix(s.issued, d);
    hide Inv, LinkInv, Ascending, Numbered;
    assert s.issued[..d][d - 1] == s.issued[d - 1];
  }

  lemma RunAscends(issued: seq<Record>, lo: nat, hi: nat)
    requires Numbered(issued) && lo <= hi <= |issued|
    ensures Ascending(issued[lo..hi])
    ensures forall i :: 0 <= i < hi - lo ==> |issued[lo..hi][i]| >= HEADER_LEN && SeqOf(issued[lo..hi][i]) == lo + i + 1
  {
    hide SeqOf;
    forall i | 0 <= i < hi - lo ensures |issued[lo..hi][i]| >= HEADER_LEN && SeqOf(issued[lo..hi][i]) == lo + i + 1 {
      NumberedPrefix(issued, lo + i + 1);
    }
  }

  lemma JoinAscends(a: seq<Record>, b: seq<Record>, d: nat, lo: nat)
    requires Ascending(a) && Ascending(b)
    requires a != [] ==> |a[|a| - 1]| >= HEADER_LEN && SeqOf(a[|a| - 1]) == d
    requires b != [] ==> |b[0]| >= HEADER_LEN && SeqOf(b[0]) == lo + 1
    requires |a| == 1 ==> |a[0]| >= HEADER_LEN
    requires |b| == 1 ==> |b[0]| >= HEADER_LEN
    ensures Ascending(a + b) <==> a == [] || b == [] || d <= lo
  {
    hide SeqOf;
    if a != [] && b != [] {
      var s := a + b;
      assert s[|a| - 1] == a[|a| - 1] && s[|a|] == b[0];
      if d <= lo {
        forall i, j | 0 <= i < j < |s|
          ensures |s[i]| >= HEADER_LEN && |s[j]| >= HEADER_LEN && SeqOf(s[i]) < SeqOf(s[j])
        {
          EndsBound(a, b, i, j);
        }
      }
    } else {
      assert a == [] ==> a + b == b;
      assert b == [] ==> a + b == a;
    }
  }

  lemma EndsBound(a: seq<Record>, b: seq<Record>, i: nat, j: nat)
    requires Ascending(a) && Ascending(b) && a != [] && b != [] && i < j < |a + b|
    requires |a[|a| - 1]| >= HEADER_LEN && |b[0]| >= HEADER_LEN && SeqOf(a[|a| - 1]) < SeqOf(b[0])
    ensures var s := a + b; |s[i]| >= HEADER_LEN && |s[j]| >= HEADER_LEN && SeqOf(s[i]) < SeqOf(s[j])
  {
    hide SeqOf;
    var s := a + b;
    if j < |a| {
      assert s[i] == a[i] && s[j] == a[j];
    } else if i >= |a| {
      assert s[i] == b[i - |a|] && s[j] == b[j - |a|];
    } else {
      assert s[i] == a[i] && s[j] == b[j - |a|];
      assert i < |a| - 1 ==> SeqOf(a[i]) < SeqOf(a[|a| - 1]);
      assert j > |a| ==> SeqOf(b[0]) < SeqOf(b[j - |a|]);
    }
  }

  /** The host's record ends at its cursor. */
  lemma StoredTillCursor(s: System)
    requires Inv(s)
    ensures Numbered(s.issued) && Ascending(s.host.stored)
    ensures Cursor(s.host) > 0 <==> s.host.stored != []
    ensures s.host.stored != [] ==>
              var top := s.host.stored[|s.host.stored| - 1]; |top| >= HEADER_LEN && SeqOf(top) == Cursor(s.host)
  {
    MissesExactlyTheLost(s);
    assert Numbered(s.issued);
    if Cursor(s.host) > 0 {
      LastStored(s);
    } else {
      assert s.host.stored == Keep(s.issued[..0], s.lost);
    }
    hide Inv, Ascending, Numbered;
  }

  /** A reply served to an earlier request and read as the answer to a later one keeps the host's record ascending and
      free of duplicates exactly when it carries nothing at or below the last record stored: a block that starts past
      it, or an empty one. */
  lemma LateReplyIff(s: System, w: InFlight)
    requires Inv(s) && w.lo <= w.hi <= |s.issued| && Carries(w.payload, s.issued[w.lo..w.hi])
    ensures Ascending(Receive(s.host, Data(w.payload)).stored) <==> w.lo == w.hi || Cursor(s.host) <= w.lo
  {
    hide Inv, Carries, Receive, Ascending, LinkInv, Numbered;
    var run := s.issued[w.lo..w.hi];
    StoredTillCursor(s);
    ReceiveEffect(s.host, w.payload, run);
    RunAscends(s.issued, w.lo, w.hi);
    JoinAscends(s.host.stored, run, Cursor(s.host), w.lo);
  }

  /** The reply to a first request is given up, the request repeated with the same ack, and its reply stored; then the
      first reply turns up: the host stores the record again. */
  lemma LateReplyDuplicates(data: seq<byte>, rec: Record)
    requires |data| == SIZE && IsRecord(rec)
    ensures var s0 := Start(data);
            && WellSized(s0.ring) && Legal(s0, [Produce(rec), Serve(178, 0, 0)])
            && Legal(s0, [Produce(rec), Serve(178, 0, 0)] + [LoseReply, Serve(178, 0, 0), Deliver])
    ensures var s0 := Start(data);
            var late := RunEvents(s0, [Produce(rec), Serve(178, 0, 0)]).wire;
            var s := RunEvents(s0, [Produce(rec), Serve(178, 0, 0)] + [LoseReply, Serve(178, 0, 0), Deliver]);
            && late.Some? && |s.issued| == 1 && s.host.stored == [s.issued[0]]
            && Receive(s.host, Data(late.value.payload)).stored == [s.issued[0], s.issued[0]]
  {
    hide Inv, Gone, IsRecord, Next, Enabled, Start, RunEvents, Legal, Carries, Receive;
    var s0 := Start(data);
    StartUntouched(data);
    RecordSize(rec);
    FillOne(s0, rec);
    var s1 := Next(s0, Produce(rec));
    FirstServe(s1);
    var s2 := Next(s1, Serve(178, 0, 0));
    GivenUp(s1, s2);
    var s3 := Next(s2, LoseReply);
    FirstServe(s3);
    var s4 := Next(s3, Serve(178, 0, 0));
    Received(s4);
    DeliverEnabled(s4);
    var s5 := Next(s4, Deliver);
    TwoEvents(s0, Produce(rec), Serve(178, 0, 0));
    ThreeEvents(s2, LoseReply, Serve(178, 0, 0), Deliver);
    RunJoin(s0, [Produce(rec), Serve(178, 0, 0)], [LoseReply, Serve(178, 0, 0), Deliver]);
    OnceMore(s2, s5);
  }

  lemma TwoEvents(s: System, a: Event, b: Event)
    requires WellSized(s.ring) && Enabled(s, a) && Enabled(Next(s, a), b)
    ensures Legal(s, [a, b]) && RunEvents(s, [a, b]) == Next(Next(s, a), b)
  {
    hide Next, Enabled, Legal, RunEvents;
    OneEvent(s, a);
    OneEvent(Next(s, a), b);
    RunJoin(s, [a], [b]);
    assert [a] + [b] == [a, b];
  }

  lemma GivenUp(s1: System, s2: System)
    requires Inv(s1) && Inv(s2) && s1.wire.None? && s2 == s1.(wire := s2.wire) && s2.wire.Some? && s1.host == NEW_HOST
    requires Gone(View(s1)) == 0 && |s1.issued| == 1
    ensures Enabled(s2, LoseReply)
    ensures var r := Next(s2, LoseReply);
            Inv(r) && r.wire.None? && Unfed(r.host) && Gone(View(r)) == 0 && r.issued == s1.issued
  {
    hide Inv, Gone;
    NextKeepsInv(s2, LoseReply);
    GoneOfRing(s1, s2);
    GoneOfRing(s2, Next(s2, LoseReply));
  }

  lemma OnceMore(was: System, s: System)
    requires Inv(was) && was.wire.Some? && was.wire.value.lo == 0 && was.wire.value.hi == 1
    requires was.issued == s.issued && |s.issued| == 1 && s.host.stored == [s.issued[0]]
    ensures Receive(s.host, Data(was.wire.value.payload)).stored == [s.issued[0], s.issued[0]]
  {
    var run := s.issued[0..1];
    assert Carries(was.wire.value.payload, run);
    hide Inv, Carries, Receive;
    ReceiveEffect(s.host, was.wire.value.payload, run);
    assert run == [s.issued[0]];
  }
}
