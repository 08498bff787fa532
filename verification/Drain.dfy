/** The drain protocol: an ack cursor over a link that may lose any request or reply. */
module Drain {
  import opened Bytes
  import opened Ring
  import opened RingProofs
  import opened RingRuns
  import opened Codec

  // ----- the host ---------------------------------------------------------

  datatype Reply = Timeout | Status(code: byte) | Data(payload: seq<byte>)

  /** The drainer's variables. `gaps` pairs (expected, got) as its SeqTracker does. */
  datatype Host = Host(
    ackSeq: u32, lastSeq: Option<u32>, gaps: seq<(int, int)>, stored: seq<Record>,
    blocks: nat, errors: nat, droppedLast: Option<u32>)

  const NEW_HOST := Host(NO_ACK, None, [], [], 0, 0, None)

  /** SeqTracker.feed, one record. */
  function FeedOne(h: Host, e: Entry): Host {
    h.(lastSeq := Some(e.seqNo),
       gaps := if h.lastSeq.Some? && e.seqNo != h.lastSeq.value + 1
               then h.gaps + [(h.lastSeq.value + 1, e.seqNo)] else h.gaps,
       stored := h.stored + [e.raw])
  }

  function Feed(h: Host, recs: seq<Entry>): (h': Host) {
    if recs == [] then h else FeedOne(Feed(h, recs[..|recs| - 1]), recs[|recs| - 1])
  }

  /** One turn of the poll loop: only a decoded block moves the ack cursor. */
  function Receive(h: Host, r: Reply): (h': Host) {
    if !r.Data? || ParseBlock(r.payload).None? then h.(errors := h.errors + 1)
    else
      var (hdr, recs) := ParseBlock(r.payload).value;
      var fed := Feed(h.(blocks := h.blocks + 1, droppedLast := Some(hdr.dropped)), recs);
      if recs == [] then fed else fed.(ackSeq := recs[|recs| - 1].seqNo)
  }

  class Drainer {
    var h: Host

    constructor ()
      ensures h == NEW_HOST
    {
      h := NEW_HOST;
    }

    method FeedAll(recs: seq<Entry>)
      modifies this
      ensures h == Feed(old(h), recs)
    {
      var i := 0;
      while i < |recs|
        invariant 0 <= i <= |recs| && h == Feed(old(h), recs[..i])
      {
        var r := recs[i];
        assert recs[..i + 1][..i] == recs[..i];
        if h.lastSeq.Some? && r.seqNo != h.lastSeq.value + 1 {
          h := h.(gaps := h.gaps + [(h.lastSeq.value + 1, r.seqNo)]);
        }
        h := h.(lastSeq := Some(r.seqNo), stored := h.stored + [r.raw]);
        i := i + 1;
      }
      assert recs[..i] == recs;
    }

    /** Returns whether the burst goes on (`more`). */
    method Poll(r: Reply) returns (again: bool)
      modifies this
      ensures h == Receive(old(h), r)
      ensures again <==> r.Data? && ParseBlock(r.payload).Some? && ParseBlock(r.payload).value.0.more != 0
    {
      hide ParseBlock, Feed;
      if r.Timeout? || r.Status? {
        h := h.(errors := h.errors + 1);
        return false;
      }
      var parsed := ParseBlock(r.payload);
      if parsed.None? {
        h := h.(errors := h.errors + 1);
        return false;
      }
      var (hdr, recs) := parsed.value;
      h := h.(blocks := h.blocks + 1, droppedLast := Some(hdr.dropped));
      FeedAll(recs);
      if recs != [] {
        h := h.(ackSeq := recs[|recs| - 1].seqNo);
      }
      return hdr.more != 0;
    }
  }

  // ----- the protocol -----------------------------------------------------

  /** A reply on its way, with the range (lo, hi] of sequence numbers it carries. */
  datatype InFlight = InFlight(payload: seq<byte>, lo: nat, hi: nat)

  /** Controller, host and wire. `issued` lists every record ever appended; `evicted` the sequence numbers evicted,
      `lost` those of them evicted while the host had them neither stored nor on the wire to it. */
  datatype System = System(ring: Memory, host: Host, wire: Option<InFlight>, issued: seq<Record>, lost: set<nat>,
                           evicted: set<nat>)

  datatype Event =
    | Produce(rec: Record)
    | LoseRequest
    | Serve(maxBytes: u16, now: u32, flags: byte)
    | LoseReply
    | Deliver

  /** The protocol's view of a system: the ring is just its queue. */
  datatype Link = Link(pending: seq<Record>, host: Host, wire: Option<InFlight>, issued: seq<Record>, lost: set<nat>,
                       evicted: set<nat>)

  function View(s: System): Link
    requires WellSized(s.ring)
  {
    Link(Pending(s.ring), s.host, s.wire, s.issued, s.lost, s.evicted)
  }

  /** Sequence numbers already gone from the ring. */
  function Gone(l: Link): nat {
    if |l.pending| <= |l.issued| then |l.issued| - |l.pending| else 0
  }

  function Cursor(h: Host): u32 {
    if h.lastSeq.Some? then h.lastSeq.value else 0
  }

  predicate OnWire(l: Link, q: nat) {
    l.wire.Some? && l.wire.value.lo < q <= l.wire.value.hi
  }

  /** The next `k` numbers to leave the ring. */
  function Leaving(l: Link, k: nat): set<nat> {
    Numbers(Gone(l), k)
  }

  /** The `k` numbers after `lo`. */
  function Numbers(lo: nat, k: nat): (s: set<nat>)
    ensures |s| == k && forall q :: q in s <==> lo < q <= lo + k
  {
    if k == 0 then {} else Numbers(lo, k - 1) + {lo + k}
  }

  /** Evicting `k` more records loses those neither stored nor on the wire. */
  function Evicted(l: Link, k: nat): set<nat> {
    set q: nat | Gone(l) < q <= Gone(l) + k && q > Cursor(l.host) && !OnWire(l, q)
  }

  /** A reply that never arrives loses the records it carried that the ring no longer has. */
  function Dropped(l: Link): set<nat> {
    set q: nat | OnWire(l, q) && q <= Gone(l)
  }

  predicate Enabled(s: System, e: Event)
    requires WellSized(s.ring)
  {
    match e
    case Produce(rec) => IsRecord(rec) && |s.issued| < 0xFFFF_FFFE
    case LoseRequest => s.wire.None?
    case Serve(_, _, _) => s.wire.None?
    case LoseReply => s.wire.Some?
    case Deliver => s.wire.Some?
  }

  function Next(s: System, e: Event): (s': System)
    requires WellSized(s.ring) && Enabled(s, e)
    ensures WellSized(s'.ring)
  {
    match e
    case Produce(rec) =>
      s.(ring := AppendRaw(s.ring, rec),
         issued := s.issued + [StampSeq(rec, IssuedSeq(s.ring.hdr))],
         lost := s.lost + Evicted(View(s), Evict(s.ring, |rec|).1),
         evicted := s.evicted + Leaving(View(s), Evict(s.ring, |rec|).1))
    case LoseRequest => s.(host := Receive(s.host, Timeout))
    case Serve(maxBytes, now, flags) =>
      var t := s.(ring := Ack(s.ring, s.host.ackSeq));
      var lo := Gone(View(t));
      t.(wire := Some(InFlight(BlockPayload(t.ring, maxBytes, now, flags), lo,
                               lo + Peek(t.ring, Min(maxBytes, RECORD_BYTES_MAX)).count)))
    case LoseReply => s.(wire := None, host := Receive(s.host, Timeout), lost := s.lost + Dropped(View(s)))
    case Deliver => s.(wire := None, host := Receive(s.host, Data(s.wire.value.payload)))
  }

  /** The records of `all` (numbered from 1) that are not lost. */
  function Keep(all: seq<Record>, lost: set<nat>): (r: seq<Record>) {
    if all == [] then []
    else Keep(all[..|all| - 1], lost) + if |all| in lost then [] else [all[|all| - 1]]
  }

  // ----- what every step keeps --------------------------------------------

  predicate Numbered(issued: seq<Record>) {
    forall i :: 0 <= i < |issued| ==> IsRecord(issued[i]) && SeqOf(issued[i]) == i + 1
  }

  /** The ring holds the newest records. */
  predicate QueuePart(l: Link) {
    && Numbered(l.issued) && |l.issued| < 0xFFFF_FFFF
    && |l.pending| <= |l.issued|
    && l.pending == l.issued[|l.issued| - |l.pending|..]
  }

  predicate CursorPart(l: Link) {
    var d := Cursor(l.host);
    && d <= |l.issued|
    && l.host.ackSeq == (if l.host.lastSeq.None? then NO_ACK else d)
    && (l.host.lastSeq.Some? ==> d > 0)
    && d !in l.lost
  }

  /** The host has stored every record up to its cursor but the lost ones. */
  predicate StoredPart(l: Link) {
    Cursor(l.host) <= |l.issued| && l.host.stored == Keep(l.issued[..Cursor(l.host)], l.lost)
  }

  /** Records gone from the ring are below the cursor, on the wire, or lost; only they can be lost. */
  predicate LostPart(l: Link) {
    && (forall q :: q in l.lost ==> 0 < q <= Gone(l))
    && (forall q: nat :: Cursor(l.host) < q <= Gone(l) && !OnWire(l, q) ==> q in l.lost)
  }

  /** Every evicted number is lost, below the cursor or on the wire; what left the ring from the wire was evicted. */
  predicate EvictPart(l: Link) {
    && l.lost <= l.evicted
    && (forall q :: q in l.evicted ==> 0 < q <= Gone(l) && (q in l.lost || q <= Cursor(l.host) || OnWire(l, q)))
    && (forall q: nat :: OnWire(l, q) && q <= Gone(l) ==> q in l.evicted)
  }

  predicate WirePart(l: Link) {
    l.wire.Some? ==>
      var w := l.wire.value;
      && Cursor(l.host) <= w.lo <= w.hi <= |l.issued|
      && w.lo <= Gone(l)
      && (forall q: nat :: w.lo < q <= w.hi ==> q !in l.lost)
      && Carries(w.payload, l.issued[w.lo..w.hi])
  }

  /** The host accepts the payload and reads exactly the records of `run` from it. */
  predicate Carries(payload: seq<byte>, run: seq<Record>) {
    && (forall r :: r in run ==> IsRecord(r))
    && ParseBlock(payload).Some?
    && ParseBlock(payload).value.1 == DecodedAll(run)
  }

  predicate LinkInv(l: Link) {
    QueuePart(l) && CursorPart(l) && StoredPart(l) && LostPart(l) && WirePart(l) && EvictPart(l)
  }

  predicate Inv(s: System) {
    && WellSized(s.ring) && Consistent(s.ring)
    && s.ring.hdr.nextSeq == |s.issued| + 1
    && s.ring.hdr.dropped == |s.evicted| % TWO_TO_32
    && LinkInv(View(s))
  }

  /** Losing later numbers does not touch what is kept of a prefix. */
  lemma {:induction false} KeepIgnoresLater(all: seq<Record>, lost: set<nat>, more: set<nat>)
    requires forall q :: q in more ==> q > |all|
    ensures Keep(all, lost + more) == Keep(all, lost)
  {
    if all != [] {
      KeepIgnoresLater(all[..|all| - 1], lost, more);
    }
  }

  /** Past a run of lost numbers and a run of kept ones, the kept sequence grows by the second run. */
  lemma {:induction false} KeepExtends(all: seq<Record>, lost: set<nat>, d: nat, lo: nat, hi: nat)
    requires d <= lo <= hi <= |all|
    requires forall q: nat :: d < q <= lo ==> q in lost
    requires forall q: nat :: lo < q <= hi ==> q !in lost
    ensures Keep(all[..hi], lost) == Keep(all[..d], lost) + all[lo..hi]
    decreases hi
  {
    if hi > d {
      assert all[..hi][..hi - 1] == all[..hi - 1];
      if hi > lo {
        KeepExtends(all, lost, d, lo, hi - 1);
        assert all[lo..hi] == all[lo..hi - 1] + [all[hi - 1]];
      } else {
        KeepExtends(all, lost, d, lo - 1, hi - 1);
      }
    }
  }

  lemma {:induction false} KeepMembers(all: seq<Record>, lost: set<nat>)
    ensures forall s :: s in Keep(all, lost) ==> s in all
  {
    if all != [] {
      KeepMembers(all[..|all| - 1], lost);
    }
  }

  // ----- the steps, on links ----------------------------------------------

  lemma QueueProduce(l: Link, l': Link, s: Record, k: nat)
    requires QueuePart(l) && |l.issued| < 0xFFFF_FFFE && k <= |l.pending|
    requires IsRecord(s) && SeqOf(s) == |l.issued| + 1
    requires l'.pending == l.pending[k..] + [s] && l'.issued == l.issued + [s]
    ensures QueuePart(l') && Gone(l') == Gone(l) + k
  {
    hide IsRecord, SeqOf;
    var n, p := |l.issued|, |l.pending|;
    assert l'.issued[n + 1 - (p - k + 1)..] == l.issued[n - p..][k..] + [s];
  }

  lemma LinkProduce(l: Link, s: Record, k: nat)
    requires LinkInv(l) && |l.issued| < 0xFFFF_FFFE && k <= |l.pending|
    requires IsRecord(s) && SeqOf(s) == |l.issued| + 1
    ensures LinkInv(Link(l.pending[k..] + [s], l.host, l.wire, l.issued + [s], l.lost + Evicted(l, k),
                         l.evicted + Leaving(l, k)))
    ensures |l.evicted + Leaving(l, k)| == |l.evicted| + k
  {
    hide QueuePart, CursorPart, StoredPart, LostPart, WirePart, EvictPart, IsRecord, Gone, Evicted, Leaving;
    var l' := Link(l.pending[k..] + [s], l.host, l.wire, l.issued + [s], l.lost + Evicted(l, k),
                   l.evicted + Leaving(l, k));
    QueueProduce(l, l', s, k);
    ProduceKeepsEvict(l, l', k);
    ProduceKeepsStored(l, l', s, k);
    ProduceKeepsLost(l, l', k);
    ProduceKeepsCursor(l, l', k);
    ProduceKeepsWire(l, l', s, k);
  }

  lemma ProduceKeepsWire(l: Link, l': Link, s: Record, k: nat)
    requires WirePart(l) && LostPart(l) && l'.host == l.host && l'.wire == l.wire && l'.issued == l.issued + [s]
    requires l'.lost == l.lost + Evicted(l, k) && Gone(l') == Gone(l) + k
    ensures WirePart(l')
  {
    hide Carries, Gone;
    if l.wire.Some? {
      var w := l.wire.value;
      assert l'.issued[w.lo..w.hi] == l.issued[w.lo..w.hi];
      ProduceKeepsLost(l, l', k);
    }
  }

  lemma ProduceKeepsCursor(l: Link, l': Link, k: nat)
    requires CursorPart(l) && l'.host == l.host && |l'.issued| == |l.issued| + 1 && l'.lost == l.lost + Evicted(l, k)
    ensures CursorPart(l')
  {
  }

  lemma ProduceKeepsEvict(l: Link, l': Link, k: nat)
    requires EvictPart(l) && l'.host == l.host && l'.wire == l.wire
    requires l'.lost == l.lost + Evicted(l, k) && l'.evicted == l.evicted + Leaving(l, k) && Gone(l') == Gone(l) + k
    ensures EvictPart(l') && |l'.evicted| == |l.evicted| + k
  {
    hide Gone, Cursor, Numbers;
    LeavingParts(l, k);
    hide Leaving, Evicted, OnWire;
    assert l.evicted !! Leaving(l, k);
    assert forall q: nat :: OnWire(l', q) <==> OnWire(l, q) by { SameWire(l, l'); }
  }

  /** What leaves is lost, below the cursor, or on the wire. */
  lemma LeavingParts(l: Link, k: nat)
    ensures |Leaving(l, k)| == k && Evicted(l, k) <= Leaving(l, k)
    ensures forall q: nat :: q in Leaving(l, k) <==> Gone(l) < q <= Gone(l) + k
    ensures forall q: nat :: q in Leaving(l, k) ==> q in Evicted(l, k) || q <= Cursor(l.host) || OnWire(l, q)
  {
    hide Gone, Cursor, OnWire;
  }

  lemma SameWire(l: Link, l': Link)
    requires l'.wire == l.wire
    ensures forall q: nat :: OnWire(l', q) <==> OnWire(l, q)
  {
  }

  lemma ProduceKeepsStored(l: Link, l': Link, s: Record, k: nat)
    requires StoredPart(l) && l'.host == l.host && l'.issued == l.issued + [s] && l'.lost == l.lost + Evicted(l, k)
    ensures StoredPart(l')
  {
    var d := Cursor(l.host);
    assert l'.issued[..d] == l.issued[..d];
    KeepIgnoresLater(l.issued[..d], l.lost, Evicted(l, k));
  }

  lemma ProduceKeepsLost(l: Link, l': Link, k: nat)
    requires LostPart(l) && l'.host == l.host && l'.wire == l.wire && l'.lost == l.lost + Evicted(l, k)
    requires Gone(l') == Gone(l) + k
    ensures LostPart(l')
    ensures WirePart(l) && l.wire.Some? ==> forall q: nat :: l.wire.value.lo < q <= l.wire.value.hi ==> q !in l'.lost
  {
    hide Gone, Carries;
  }

  lemma QueueAck(l: Link, l': Link, k: nat)
    requires QueuePart(l) && k <= |l.pending| && l' == l.(pending := l.pending[k..])
    ensures QueuePart(l') && Gone(l') == Gone(l) + k
    ensures forall i :: 0 <= i < |l.pending| ==> |l.pending[i]| >= 6 && SeqOf(l.pending[i]) == Gone(l) + i + 1
  {
    hide IsRecord, SeqOf;
    forall i | 0 <= i < |l.pending| ensures |l.pending[i]| >= 6 && SeqOf(l.pending[i]) == Gone(l) + i + 1 {
      assert l.pending[i] == l.issued[Gone(l) + i];
      NumberedPrefix(l.issued, Gone(l) + i + 1);
    }
  }

  /** Freeing what lies at or below the cursor: nothing else changes hands. */
  lemma AckedPast(l: Link, l': Link, k: nat)
    requires CursorPart(l) && Gone(l) + |l.pending| == |l.issued| && k <= |l.pending|
    requires forall i :: 0 <= i < |l.pending| ==> |l.pending[i]| >= 6 && SeqOf(l.pending[i]) == Gone(l) + i + 1
    requires l.host.lastSeq.None? ==> k == 0
    requires l.host.lastSeq.Some? ==> AckedPrefix(l.pending, k, l.host.ackSeq)
    requires Gone(l') == Gone(l) + k
    ensures Gone(l') == (if Gone(l) < Cursor(l.host) then Cursor(l.host) else Gone(l))
    ensures k > 0 ==> Gone(l') <= Cursor(l.host)
  {
    hide Gone, SeqOf;
    if l.host.lastSeq.Some? && k > 0 {
      assert SeqOf(l.pending[k - 1]) <= l.host.ackSeq;
    }
  }

  /** What the ack cursor frees is exactly what lies at or below it. */
  lemma LinkAck(l: Link, k: nat)
    requires LinkInv(l) && l.wire.None? && k <= |l.pending|
    requires l.host.lastSeq.None? ==> k == 0
    requires l.host.lastSeq.Some? ==> AckedPrefix(l.pending, k, l.host.ackSeq)
    ensures var l' := l.(pending := l.pending[k..]);
            && LinkInv(l')
            && Gone(l') == (if Gone(l) < Cursor(l.host) then Cursor(l.host) else Gone(l))
  {
    var l' := l.(pending := l.pending[k..]);
    assert Gone(l) + |l.pending| == |l.issued| by { hide Numbered, CursorPart, StoredPart, LostPart, EvictPart; }
    hide QueuePart, Keep, Gone, AckedPrefix;
    QueueAck(l, l', k);
    AckedPast(l, l', k);
  }

  lemma LinkServe(l: Link, w: InFlight)
    requires LinkInv(l) && l.wire.None? && Cursor(l.host) <= Gone(l)
    requires w.lo == Gone(l) && w.lo <= w.hi <= |l.issued|
    requires Carries(w.payload, l.issued[w.lo..w.hi])
    ensures LinkInv(l.(wire := Some(w)))
  {
    hide Carries, Keep;
    assert Gone(l.(wire := Some(w))) == Gone(l);
  }

  lemma LinkLoseReply(l: Link, h: Host)
    requires LinkInv(l) && l.wire.Some?
    requires h == l.host.(errors := l.host.errors + 1)
    ensures LinkInv(l.(wire := None, host := h, lost := l.lost + Dropped(l)))
  {
    hide Carries;
    KeepIgnoresLater(l.issued[..Cursor(l.host)], l.lost, Dropped(l));
  }

  lemma {:induction false} FeedEffect(h: Host, run: seq<Record>)
    requires forall r :: r in run ==> IsRecord(r)
    ensures var f := Feed(h, DecodedAll(run));
            && f.stored == h.stored + run && f.ackSeq == h.ackSeq
            && f.lastSeq == (if run == [] then h.lastSeq else Some(LastSeq(run)))
  {
    if run != [] {
      var n := |run| - 1;
      LastEntry(run);
      Snoc(run);
      hide DecodedAll, IsRecord, LastSeq;
      FeedEffect(h, run[..n]);
      assert h.stored + run[..n] + [run[n]] == h.stored + (run[..n] + [run[n]]);
    }
  }

  /** What a delivered reply does to the host. */
  lemma ReceiveEffect(h: Host, payload: seq<byte>, run: seq<Record>)
    requires Carries(payload, run)
    ensures var h' := Receive(h, Data(payload));
            && h'.stored == h.stored + run
            && h'.lastSeq == (if run == [] then h.lastSeq else Some(LastSeq(run)))
            && h'.ackSeq == (if run == [] then h.ackSeq else LastSeq(run))
  {
    hide ParseBlock, DecodedAll, IsRecord, LastSeq, Feed;
    var hdr := ParseBlock(payload).value.0;
    FeedEffect(h.(blocks := h.blocks + 1, droppedLast := Some(hdr.dropped)), run);
    if run != [] {
      LastEntry(run);
    }
  }

  function LastSeq(run: seq<Record>): u32
    requires run != []
  {
    if |run[|run| - 1]| >= 6 then SeqOf(run[|run| - 1]) else 0
  }

  lemma RunLast(issued: seq<Record>, lo: nat, hi: nat)
    requires Numbered(issued) && lo < hi <= |issued|
    ensures issued[lo..hi] != [] && LastSeq(issued[lo..hi]) == hi
  {
    SliceLast(issued, lo, hi);
    RecordIsLong(issued[hi - 1]);
  }

  lemma LastEntry(run: seq<Record>)
    requires run != [] && forall r :: r in run ==> IsRecord(r)
    ensures DecodedAll(run) != [] && DecodedAll(run)[|run| - 1].seqNo == LastSeq(run)
    ensures DecodedAll(run)[|run| - 1].raw == run[|run| - 1]
    ensures DecodedAll(run)[..|run| - 1] == DecodedAll(run[..|run| - 1])
  {
    assert DecodedAll(run)[|run| - 1] == Decoded(run[|run| - 1]);
    RecordIsLong(run[|run| - 1]);
    assert DecodedAll(run)[..|run| - 1] == DecodedAll(run[..|run| - 1]);
  }

  lemma SameQueue(l: Link, l': Link)
    requires QueuePart(l) && l'.pending == l.pending && l'.issued == l.issued
    ensures QueuePart(l') && Gone(l') == Gone(l)
  {
  }

  lemma LinkStored(l: Link, h: Host, run: seq<Record>)
    requires LinkInv(l) && l.wire.Some? && run == l.issued[l.wire.value.lo..l.wire.value.hi]
    requires h.stored == l.host.stored + run
    requires h.lastSeq == (if run == [] then l.host.lastSeq else Some(LastSeq(run)))
    requires h.ackSeq == (if run == [] then l.host.ackSeq else LastSeq(run))
    ensures LinkInv(l.(wire := None, host := h))
  {
    var w := l.wire.value;
    var l' := l.(wire := None, host := h);
    SameQueue(l, l');
    if run != [] {
      RunLast(l.issued, w.lo, w.hi);
      KeepExtends(l.issued, l.lost, Cursor(l.host), w.lo, w.hi);
    }
    hide LinkInv, QueuePart, LastSeq, Keep, Gone, Carries;
    assert Cursor(h) == if run == [] then Cursor(l.host) else w.hi;
    CursorMoves(l, l', Cursor(h));
    assert StoredPart(l');
  }

  lemma CursorMoves(l: Link, l': Link, d: nat)
    requires QueuePart(l) && CursorPart(l) && LostPart(l) && WirePart(l) && l.wire.Some?
    requires l'.wire.None? && l'.lost == l.lost && l'.issued == l.issued && Gone(l') == Gone(l)
    requires d == Cursor(l'.host) && d == (if l.wire.value.lo < l.wire.value.hi then l.wire.value.hi else Cursor(l.host))
    requires l'.host.ackSeq == (if l'.host.lastSeq.None? then NO_ACK else d) && (l'.host.lastSeq.Some? ==> d > 0)
    ensures CursorPart(l') && LostPart(l') && WirePart(l')
    ensures EvictPart(l) && l'.evicted == l.evicted ==> EvictPart(l')
  {
    hide QueuePart, Gone, Carries;
  }

  lemma LinkDeliver(l: Link)
    requires LinkInv(l) && l.wire.Some?
    ensures LinkInv(l.(wire := None, host := Receive(l.host, Data(l.wire.value.payload))))
  {
    var run := l.issued[l.wire.value.lo..l.wire.value.hi];
    ReceiveEffect(l.host, l.wire.value.payload, run);
    hide Carries, Receive, LinkInv;
    LinkStored(l, Receive(l.host, Data(l.wire.value.payload)), run);
  }

  // ----- the steps, on systems --------------------------------------------

  lemma ProduceKeepsInv(s: System, rec: Record)
    requires Inv(s) && Enabled(s, Produce(rec))
    ensures Inv(Next(s, Produce(rec)))
  {
    hide AppendRaw, Pending, Consistent, LinkInv, Evict, StampSeq, Leaving, Evicted;
    var k := Evict(s.ring, |rec|).1;
    AppendRefinesFifo(s.ring, rec);
    StampKeepsShape(rec, IssuedSeq(s.ring.hdr));
    ViewNumbers(View(s));
    LinkProduce(View(s), StampSeq(rec, IssuedSeq(s.ring.hdr)), k);
    DroppedMore(|s.evicted|, k);
  }

  lemma ViewNumbers(l: Link)
    requires LinkInv(l)
    ensures |l.issued| < 0xFFFF_FFFF
  {
    hide CursorPart, StoredPart, LostPart, WirePart, EvictPart;
  }

  lemma DroppedMore(n: nat, k: nat)
    ensures (n % TWO_TO_32 + k) % TWO_TO_32 == (n + k) % TWO_TO_32
  {
  }

  /** The reply to a request carries a run of issued records starting at read_off. */
  lemma ReplyCarries(s: System, maxBytes: u16, now: u32, flags: byte) returns (w: InFlight)
    requires Inv(s)
    ensures w == InFlight(BlockPayload(s.ring, maxBytes, now, flags), Gone(View(s)),
                          Gone(View(s)) + Peek(s.ring, Min(maxBytes, RECORD_BYTES_MAX)).count)
    ensures w.lo <= w.hi <= |s.issued|
    ensures Carries(w.payload, s.issued[w.lo..w.hi])
  {
    hide BlockPayload, Consistent, Peek, ParseBlock, Pending, LinkInv, DecodedAll, IsRecord;
    var k := ReplyParses(s.ring, maxBytes, now, flags);
    w := InFlight(BlockPayload(s.ring, maxBytes, now, flags), Gone(View(s)), Gone(View(s)) + k);
    PendingRun(View(s), k);
  }

  lemma PendingRun(l: Link, k: nat)
    requires LinkInv(l) && k <= |l.pending|
    ensures Gone(l) + k <= |l.issued| && l.issued[Gone(l)..Gone(l) + k] == l.pending[..k]
  {
    hide Numbered, CursorPart, StoredPart, LostPart, WirePart, EvictPart;
  }

  lemma ReplyKeepsInv(t: System, maxBytes: u16, now: u32, flags: byte)
    requires Inv(t) && t.wire.None? && Cursor(t.host) <= Gone(View(t))
    ensures var lo := Gone(View(t));
            Inv(t.(wire := Some(InFlight(BlockPayload(t.ring, maxBytes, now, flags), lo,
                                         lo + Peek(t.ring, Min(maxBytes, RECORD_BYTES_MAX)).count))))
  {
    hide Pending, LinkInv, Carries, Consistent, BlockPayload, Peek, Gone;
    var w := ReplyCarries(t, maxBytes, now, flags);
    LinkServe(View(t), w);
  }

  lemma AckKeepsInv(s: System)
    requires Inv(s) && s.wire.None?
    ensures var t := s.(ring := Ack(s.ring, s.host.ackSeq));
            Inv(t) && Gone(View(t)) == (if Gone(View(s)) < Cursor(s.host) then Cursor(s.host) else Gone(View(s)))
  {
    var k := AckRefinesFifo(s.ring, s.host.ackSeq);
    var t := s.(ring := Ack(s.ring, s.host.ackSeq));
    assert View(t) == View(s).(pending := View(s).pending[k..]);
    assert s.host.lastSeq.Some? ==> s.host.ackSeq < s.ring.hdr.nextSeq && s.host.ackSeq != NO_ACK;
    hide Ack, Pending, Consistent, LinkInv, AckedPrefix;
    LinkAck(View(s), k);
  }

  /** Whatever is lost, and whenever records are produced, every step keeps the invariant. */
  lemma NextKeepsInv(s: System, e: Event)
    requires Inv(s) && Enabled(s, e)
    ensures Inv(Next(s, e))
  {
    hide LinkInv, Consistent, Pending;
    match e
    case Produce(rec) => ProduceKeepsInv(s, rec);
    case LoseRequest => LinkLoseRequest(View(s), Receive(s.host, Timeout));
    case Serve(maxBytes, now, flags) =>
      AckKeepsInv(s);
      ReplyKeepsInv(s.(ring := Ack(s.ring, s.host.ackSeq)), maxBytes, now, flags);
    case LoseReply => LinkLoseReply(View(s), Receive(s.host, Timeout));
    case Deliver => LinkDeliver(View(s));
  }

  lemma LinkLoseRequest(l: Link, h: Host)
    requires LinkInv(l) && h == l.host.(errors := l.host.errors + 1)
    ensures LinkInv(l.(host := h))
  {
    hide Keep, Carries;
    assert Gone(l.(host := h)) == Gone(l);
  }

  // ----- whole runs -------------------------------------------------------

  predicate Legal(s: System, es: seq<Event>)
    requires WellSized(s.ring)
    decreases es
  {
    es == [] || (Enabled(s, es[0]) && Legal(Next(s, es[0]), es[1..]))
  }

  function RunEvents(s: System, es: seq<Event>): (s': System)
    requires WellSized(s.ring) && Legal(s, es)
    ensures WellSized(s'.ring)
    decreases es
  {
    if es == [] then s else RunEvents(Next(s, es[0]), es[1..])
  }

  function Start(data: seq<byte>): System
    requires |data| == SIZE
  {
    System(Memory(InitHeader(), data), NEW_HOST, None, [], {}, {})
  }

  lemma StartIsInv(data: seq<byte>)
    requires |data| == SIZE
    ensures Inv(Start(data)) && GapsMatch(Start(data).host)
  {
    assert Pending(Start(data).ring) == [];
    EmptyLink();
    hide LinkInv, Pending;
  }

  lemma EmptyLink()
    ensures LinkInv(Link([], NEW_HOST, None, [], {}, {}))
  {
    var l := Link([], NEW_HOST, None, [], {}, {});
    assert Gone(l) == 0 && Cursor(l.host) == 0;
    assert StoredPart(l) by { assert l.issued[..0] == []; }
    assert LostPart(l) && CursorPart(l) && QueuePart(l);
    hide Keep, Gone, Cursor, QueuePart, CursorPart, StoredPart, LostPart;
  }

  /** Every interleaving of producers, requests, replies and losses keeps the invariant. */
  lemma {:induction false} DrainKeepsInv(s: System, es: seq<Event>)
    requires Inv(s) && GapsMatch(s.host) && Legal(s, es)
    ensures Inv(RunEvents(s, es)) && GapsMatch(RunEvents(s, es).host)
    decreases es
  {
    if es != [] {
      hide LinkInv, Consistent;
      NextKeepsInv(s, es[0]);
      NextKeepsGaps(s, es[0]);
      DrainKeepsInv(Next(s, es[0]), es[1..]);
    }
  }

  // ----- what the invariant says ------------------------------------------

  predicate Ascending(q: seq<Record>) {
    forall i, j :: 0 <= i < j < |q| ==> |q[i]| >= HEADER_LEN && |q[j]| >= HEADER_LEN && SeqOf(q[i]) < SeqOf(q[j])
  }

  function LostBelow(lost: set<nat>, n: nat): set<nat> {
    set q | q in lost && 0 < q <= n
  }

  lemma NumberedPrefix(all: seq<Record>, n: nat)
    requires Numbered(all) && n <= |all|
    ensures Numbered(all[..n])
    ensures n > 0 ==> |all[n - 1]| >= HEADER_LEN && SeqOf(all[n - 1]) == n
  {
    if n > 0 {
      RecordIsLong(all[n - 1]);
    }
  }

  lemma {:induction false} KeepBounds(all: seq<Record>, lost: set<nat>)
    requires Numbered(all)
    ensures forall s :: s in Keep(all, lost) ==> |s| >= HEADER_LEN && SeqOf(s) <= |all| && SeqOf(s) !in lost
  {
    if all != [] {
      NumberedPrefix(all, |all|);
      NumberedPrefix(all, |all| - 1);
      hide Numbered, SeqOf;
      KeepBounds(all[..|all| - 1], lost);
    }
  }

  lemma {:induction false} KeepComplete(all: seq<Record>, lost: set<nat>, i: nat)
    requires i < |all| && i + 1 !in lost
    ensures all[i] in Keep(all, lost)
  {
    var n := |all| - 1;
    if i < n {
      KeepComplete(all[..n], lost, i);
    }
  }

  lemma {:induction false} KeepAscends(all: seq<Record>, lost: set<nat>)
    requires Numbered(all)
    ensures Ascending(Keep(all, lost))
  {
    if all != [] {
      var n := |all| - 1;
      NumberedPrefix(all, n + 1);
      NumberedPrefix(all, n);
      hide Numbered, SeqOf;
      KeepAscends(all[..n], lost);
      KeepBounds(all[..n], lost);
      AscendingSnoc(Keep(all[..n], lost), all[n], n);
    }
  }

  lemma AscendingSnoc(q: seq<Record>, s: Record, n: nat)
    requires Ascending(q) && |s| >= HEADER_LEN && SeqOf(s) > n
    requires forall x :: x in q ==> |x| >= HEADER_LEN && SeqOf(x) <= n
    ensures Ascending(q + [s])
  {
    hide SeqOf;
    forall i | 0 <= i < |q| ensures |q[i]| >= HEADER_LEN && SeqOf(q[i]) <= n {
      assert q[i] in q;
    }
  }

  lemma {:induction false} KeepCounts(all: seq<Record>, lost: set<nat>)
    ensures |Keep(all, lost)| + |LostBelow(lost, |all|)| == |all|
  {
    var n := |all|;
    if n == 0 {
      assert LostBelow(lost, 0) == {};
    } else {
      KeepCounts(all[..n - 1], lost);
      assert LostBelow(lost, n) == LostBelow(lost, n - 1) + if n in lost then {n} else {};
    }
  }

  /** The host's record: strictly increasing, no duplicates, and missing exactly the lost numbers. */
  lemma MissesExactlyTheLost(s: System)
    requires Inv(s)
    ensures Ascending(s.host.stored)
    ensures Cursor(s.host) <= |s.issued|
    ensures forall i :: 0 <= i < Cursor(s.host) ==> (s.issued[i] in s.host.stored <==> i + 1 !in s.lost)
    ensures |s.host.stored| + |LostBelow(s.lost, Cursor(s.host))| == Cursor(s.host)
  {
    StoredFacts(s);
    hide Inv, Keep, Numbered, Cursor, Ascending, LostBelow;
    var d := Cursor(s.host);
    var front := s.issued[..d];
    NumberedPrefix(s.issued, d);
    KeepAscends(front, s.lost);
    KeepCounts(front, s.lost);
    forall i | 0 <= i < d
      ensures s.issued[i] in s.host.stored <==> i + 1 !in s.lost
    {
      KeptIff(s.issued, s.lost, d, i);
    }
  }

  lemma StoredFacts(s: System)
    requires Inv(s)
    ensures Numbered(s.issued) && Cursor(s.host) <= |s.issued| && s.host.stored == Keep(s.issued[..Cursor(s.host)], s.lost)
  {
    hide Consistent, Pending, Numbered, Keep, LostPart, WirePart, EvictPart;
  }

  lemma KeptIff(all: seq<Record>, lost: set<nat>, d: nat, i: nat)
    requires Numbered(all) && i < d <= |all|
    ensures all[i] in Keep(all[..d], lost) <==> i + 1 !in lost
  {
    hide Keep, Numbered;
    NumberedPrefix(all, d);
    NumberedPrefix(all, i + 1);
    KeepBounds(all[..d], lost);
    assert all[..d][i] == all[i];
    if i + 1 !in lost {
      KeepComplete(all[..d], lost, i);
    }
  }

  /** A request's ack frees only records the host has stored. */
  lemma NothingFreedUnstored(s: System, r: Record)
    requires Inv(s) && s.wire.None?
    requires r in Pending(s.ring) && r !in Pending(Ack(s.ring, s.host.ackSeq))
    ensures r in s.host.stored
  {
    assert WellSized(s.ring);
    hide Inv, Pending, Ack;
    var i :| 0 <= i < |Pending(s.ring)| && Pending(s.ring)[i] == r;
    FreedIsStored(s, i);
  }

  lemma FreedIsStored(s: System, i: nat)
    requires Inv(s) && s.wire.None? && i < |Pending(s.ring)|
    requires Pending(s.ring)[i] !in Pending(Ack(s.ring, s.host.ackSeq))
    ensures Pending(s.ring)[i] in s.host.stored
  {
    hide Pending, Ack, LinkInv, Gone, Consistent;
    var l := View(s);
    PendingRun(l, |l.pending|);
    var q := Gone(l) + i;
    assert l.issued[q] == l.issued[Gone(l)..Gone(l) + |l.pending|][i];
    AckKeepsInv(s);
    hide Inv, View;
    FreedIsBelowCursor(l, View(s.(ring := Ack(s.ring, s.host.ackSeq))), q);
    MissesExactlyTheLost(s);
  }

  lemma FreedIsBelowCursor(l: Link, t: Link, q: nat)
    requires LinkInv(l) && LinkInv(t) && t.issued == l.issued && t.lost == l.lost && t.host == l.host
    requires Gone(l) <= q < |l.issued| && l.issued[q] !in t.pending
    requires Gone(t) == (if Gone(l) < Cursor(l.host) then Cursor(l.host) else Gone(l))
    ensures q < Cursor(l.host) && q + 1 !in l.lost
  {
    forall j | Gone(t) <= j < |l.issued| ensures l.issued[j] in t.pending {
      assert t.pending[j - Gone(t)] == l.issued[j];
    }
    hide StoredPart, WirePart;
  }

  // ----- the host's own gap list ------------------------------------------

  function GapTotal(gaps: seq<(int, int)>): int {
    if gaps == [] then 0 else GapTotal(gaps[..|gaps| - 1]) + gaps[|gaps| - 1].1 - gaps[|gaps| - 1].0
  }

  /** The gap widths account for every number between the first and last stored record. */
  predicate GapsMatch(h: Host) {
    && (h.lastSeq.None? <==> h.stored == [])
    && (h.stored == [] ==> h.gaps == [])
    && (h.stored != [] ==>
          |h.stored[0]| >= 6 && GapTotal(h.gaps) + |h.stored| == h.lastSeq.value - SeqOf(h.stored[0]) + 1)
  }

  lemma FeedOneKeepsGaps(h: Host, e: Entry)
    requires GapsMatch(h) && |e.raw| >= 6 && e.seqNo == SeqOf(e.raw)
    ensures GapsMatch(FeedOne(h, e))
  {
    if h.lastSeq.Some? && e.seqNo != h.lastSeq.value + 1 {
      var g := h.gaps + [(h.lastSeq.value + 1, e.seqNo)];
      assert g[..|g| - 1] == h.gaps;
    }
  }

  lemma {:induction false} FeedKeepsGaps(h: Host, recs: seq<Entry>)
    requires GapsMatch(h) && forall e :: e in recs ==> |e.raw| >= 6 && e.seqNo == SeqOf(e.raw)
    ensures GapsMatch(Feed(h, recs))
  {
    if recs != [] {
      FeedKeepsGaps(h, recs[..|recs| - 1]);
      FeedOneKeepsGaps(Feed(h, recs[..|recs| - 1]), recs[|recs| - 1]);
    }
  }

  lemma ReceiveKeepsGaps(h: Host, payload: seq<byte>, run: seq<Record>)
    requires Carries(payload, run) && GapsMatch(h)
    ensures GapsMatch(Receive(h, Data(payload)))
  {
    hide ParseBlock;
    var (hdr, recs) := ParseBlock(payload).value;
    forall x | x in recs ensures |x.raw| >= 6 && x.seqNo == SeqOf(x.raw) {
      var i :| 0 <= i < |recs| && recs[i] == x;
      RecordIsLong(run[i]);
    }
    hide DecodedAll, Carries;
    FeedKeepsGaps(h.(blocks := h.blocks + 1, droppedLast := Some(hdr.dropped)), recs);
  }

  lemma NextKeepsGaps(s: System, e: Event)
    requires Inv(s) && GapsMatch(s.host) && Enabled(s, e)
    ensures GapsMatch(Next(s, e).host)
  {
    if e.Deliver? {
      var run := s.issued[s.wire.value.lo..s.wire.value.hi];
      assert Carries(s.wire.value.payload, run);
      hide Inv, Carries, GapsMatch, Receive;
      ReceiveKeepsGaps(s.host, s.wire.value.payload, run);
    }
  }

  /** The gaps the host reports, plus what was lost before its first record, are the lost records. */
  lemma GapsAreTheLosses(s: System)
    requires Inv(s) && GapsMatch(s.host) && s.host.stored != []
    ensures |s.host.stored[0]| >= 6
    ensures GapTotal(s.host.gaps) + (SeqOf(s.host.stored[0]) - 1) == |LostBelow(s.lost, Cursor(s.host))|
  {
    MissesExactlyTheLost(s);
  }

  /** The drain over every run from a fresh ring, whatever is lost on the link: what the host stored is strictly
      increasing and misses, up to its cursor, exactly the records evicted before they were delivered. */
  lemma LosslessDrain(data: seq<byte>, es: seq<Event>)
    requires |data| == SIZE && WellSized(Start(data).ring) && Legal(Start(data), es)
    ensures var s := RunEvents(Start(data), es);
            && Ascending(s.host.stored)
            && Cursor(s.host) <= |s.issued|
            && (forall i :: 0 <= i < Cursor(s.host) ==> (s.issued[i] in s.host.stored <==> i + 1 !in s.lost))
            && |s.host.stored| + |LostBelow(s.lost, Cursor(s.host))| == Cursor(s.host)
  {
    hide RunEvents, Legal, Inv, GapsMatch, Ascending, Cursor;
    StartIsInv(data);
    DrainKeepsInv(Start(data), es);
    MissesExactlyTheLost(RunEvents(Start(data), es));
  }
}
