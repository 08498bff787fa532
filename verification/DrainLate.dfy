/** The drain over a network that keeps every request and reply: any of them may be acted on late, out of turn, again. */
module DrainLate {
  import opened Bytes
  import opened Ring
  import opened RingProofs
  import opened RingRuns
  import opened Codec
  import opened Drain

  /** Controller and host, every ack asked with and every reply served so far, every record ever appended, and the
      sequence numbers evicted. */
  datatype Post = Post(ring: Memory, host: Host, asked: seq<u32>, sent: seq<InFlight>, issued: seq<Record>,
                       evicted: set<nat>)

  /** A loss is a request never served or a reply never read. */
  datatype Move =
    | Issue(rec: Record)
    | Ask
    | Answer(j: nat, maxBytes: u16, now: u32, flags: byte)
    | GiveUp
    | Read(i: nat)

  /** Sequence numbers gone from the ring. */
  function Left(p: Post): nat
    requires WellSized(p.ring)
  {
    if |Pending(p.ring)| <= |p.issued| then |p.issued| - |Pending(p.ring)| else 0
  }

  predicate Possible(p: Post, m: Move)
    requires WellSized(p.ring)
  {
    match m
    case Issue(rec) => IsRecord(rec) && |p.issued| < 0xFFFF_FFFE
    case Ask => true
    case Answer(j, _, _, _) => j < |p.asked|
    case GiveUp => true
    case Read(i) => i < |p.sent|
  }

  function After(p: Post, m: Move): (p': Post)
    requires WellSized(p.ring) && Possible(p, m)
    ensures WellSized(p'.ring)
  {
    match m
    case Issue(rec) =>
      p.(ring := AppendRaw(p.ring, rec), issued := p.issued + [StampSeq(rec, IssuedSeq(p.ring.hdr))],
         evicted := p.evicted + Numbers(Left(p), Evict(p.ring, |rec|).1))
    case Ask => p.(asked := p.asked + [p.host.ackSeq])
    case Answer(j, maxBytes, now, flags) =>
      var t := p.(ring := Ack(p.ring, p.asked[j]));
      t.(sent := t.sent + [InFlight(BlockPayload(t.ring, maxBytes, now, flags), Left(t),
                                    Left(t) + Peek(t.ring, Min(maxBytes, RECORD_BYTES_MAX)).count)])
    case GiveUp => p.(host := Receive(p.host, Timeout))
    case Read(i) => p.(host := Receive(p.host, Data(p.sent[i].payload)))
  }

  // ----- what every step keeps --------------------------------------------

  /** Freeing up to `ack` frees only what the host has stored. */
  predicate Safe(ack: u32, gone: nat, issued: seq<Record>, stored: seq<Record>) {
    ack != NO_ACK ==> ack <= |issued| && forall i :: gone <= i < ack as int ==> issued[i] in stored
  }

  /** A reply carries a run of the records issued, from what was oldest in the ring. */
  predicate Block(w: InFlight, gone: nat, issued: seq<Record>) {
    w.lo <= w.hi <= |issued| && w.lo <= gone && Carries(w.payload, issued[w.lo..w.hi])
  }

  /** What has left the ring was evicted or is stored. */
  predicate Covered(gone: nat, issued: seq<Record>, stored: seq<Record>, evicted: set<nat>) {
    && gone <= |issued|
    && (forall i :: 0 <= i < gone ==> i + 1 in evicted || issued[i] in stored)
    && (forall q :: q in evicted ==> 0 < q <= gone)
  }

  predicate Kept(p: Post, gone: nat) {
    && Numbered(p.issued) && |p.issued| < 0xFFFF_FFFF
    && Covered(gone, p.issued, p.host.stored, p.evicted)
    && Safe(p.host.ackSeq, gone, p.issued, p.host.stored)
    && (forall a :: a in p.asked ==> Safe(a, gone, p.issued, p.host.stored))
    && (forall w :: w in p.sent ==> Block(w, gone, p.issued))
  }

  /** The ring holds the newest records issued. */
  predicate Newest(ring: Memory, issued: seq<Record>) {
    && WellSized(ring) && Consistent(ring) && ring.hdr.nextSeq == |issued| + 1
    && |Pending(ring)| <= |issued| && Pending(ring) == issued[|issued| - |Pending(ring)|..]
  }

  predicate PostInv(p: Post) {
    Newest(p.ring, p.issued) && p.ring.hdr.dropped == |p.evicted| % TWO_TO_32 && Kept(p, Left(p))
  }

  /** More records, more of them gone, more stored: nothing becomes unsafe. */
  lemma StillSafe(ack: u32, gone: nat, issued: seq<Record>, stored: seq<Record>, g: nat, more: seq<Record>,
                  now: seq<Record>)
    requires Safe(ack, gone, issued, stored) && gone <= g && issued <= more
    requires forall r :: r in stored ==> r in now
    ensures Safe(ack, g, more, now)
  {
  }

  lemma StillBlock(w: InFlight, gone: nat, issued: seq<Record>, g: nat, more: seq<Record>)
    requires Block(w, gone, issued) && gone <= g && issued <= more
    ensures Block(w, g, more)
  {
    hide Carries;
    assert more[w.lo..w.hi] == issued[w.lo..w.hi];
  }

  lemma StillAll(p: Post, gone: nat, p': Post, g: nat)
    requires Kept(p, gone) && gone <= g && p.issued <= p'.issued && forall r :: r in p.host.stored ==> r in p'.host.stored
    ensures forall a :: a in p.asked ==> Safe(a, g, p'.issued, p'.host.stored)
    ensures forall w :: w in p.sent ==> Block(w, g, p'.issued)
    ensures Safe(p.host.ackSeq, g, p'.issued, p'.host.stored)
  {
    hide Safe, Block, Covered, Numbered;
    forall a | a in p.asked ensures Safe(a, g, p'.issued, p'.host.stored) {
      StillSafe(a, gone, p.issued, p.host.stored, g, p'.issued, p'.host.stored);
    }
    forall w | w in p.sent ensures Block(w, g, p'.issued) {
      StillBlock(w, gone, p.issued, g, p'.issued);
    }
    StillSafe(p.host.ackSeq, gone, p.issued, p.host.stored, g, p'.issued, p'.host.stored);
  }

  lemma NumberedSnoc(issued: seq<Record>, s: Record)
    requires Numbered(issued) && IsRecord(s) && SeqOf(s) == |issued| + 1
    ensures Numbered(issued + [s])
  {
    hide IsRecord, SeqOf;
  }

  lemma AppendKept(p: Post, gone: nat, s: Record, k: nat, p': Post)
    requires Kept(p, gone) && gone + k <= |p.issued| < 0xFFFF_FFFE && IsRecord(s) && SeqOf(s) == |p.issued| + 1
    requires p' == p.(ring := p'.ring, issued := p.issued + [s], evicted := p.evicted + Numbers(gone, k))
    ensures Kept(p', gone + k) && |p'.evicted| == |p.evicted| + k
  {
    hide Safe, Block, IsRecord, SeqOf, Numbers, Numbered, Covered;
    StillAll(p, gone, p', gone + k);
    NumberedSnoc(p.issued, s);
    CoveredGrows(p.issued, p.host.stored, p.evicted, gone, k, s);
  }

  lemma CoveredGrows(issued: seq<Record>, stored: seq<Record>, evicted: set<nat>, gone: nat, k: nat, s: Record)
    requires Covered(gone, issued, stored, evicted) && gone + k <= |issued|
    ensures Covered(gone + k, issued + [s], stored, evicted + Numbers(gone, k))
    ensures |evicted + Numbers(gone, k)| == |evicted| + k
  {
    hide Numbers;
    assert evicted !! Numbers(gone, k);
  }

  /** An ack frees leading records; each was stored. */
  lemma AckKept(p: Post, gone: nat, ack: u32, k: nat, p': Post)
    requires Kept(p, gone) && gone + k <= |p.issued| && Safe(ack, gone, p.issued, p.host.stored)
    requires k > 0 ==> ack != NO_ACK && gone + k <= ack
    requires p' == p.(ring := p'.ring)
    ensures Kept(p', gone + k)
  {
    StillAll(p, gone, p', gone + k);
    hide Block, Numbered;
  }

  /** A block read, however late: its records are stored now, and those below it had left the ring when it was made. */
  lemma ReadKept(p: Post, gone: nat, w: InFlight, h: Host)
    requires Kept(p, gone) && w in p.sent && h == Receive(p.host, Data(w.payload))
    ensures Kept(p.(host := h), gone)
  {
    hide Carries, Receive, Numbered, LastSeq, Block, Safe;
    BlockIs(p, gone, w);
    var run := p.issued[w.lo..w.hi];
    ReceiveEffect(p.host, w.payload, run);
    StillAll(p, gone, p.(host := h), gone);
    if run != [] {
      RunLast(p.issued, w.lo, w.hi);
      RunSafe(p.issued, w.lo, w.hi, gone, h.stored);
    }
  }

  lemma BlockIs(p: Post, gone: nat, w: InFlight)
    requires Kept(p, gone) && w in p.sent
    ensures w.lo <= w.hi <= |p.issued| && w.lo <= gone && Carries(w.payload, p.issued[w.lo..w.hi])
  {
    assert Block(w, gone, p.issued);
    hide Carries, Numbered, Safe, Covered;
  }

  lemma RunSafe(issued: seq<Record>, lo: nat, hi: nat, gone: nat, stored: seq<Record>)
    requires lo <= gone && lo <= hi <= |issued| < 0xFFFF_FFFF && forall r :: r in issued[lo..hi] ==> r in stored
    ensures Safe(hi, gone, issued, stored)
  {
    forall i | gone <= i < hi ensures issued[i] in stored {
      assert issued[lo..hi][i - lo] == issued[i];
    }
  }

  // ----- the moves --------------------------------------------------------

  lemma QueueAppended(issued: seq<Record>, pending: seq<Record>, k: nat, s: Record, now: seq<Record>)
    requires |pending| <= |issued| && pending == issued[|issued| - |pending|..] && k <= |pending|
    requires now == pending[k..] + [s]
    ensures |now| <= |issued| + 1 && now == (issued + [s])[|issued| + 1 - |now|..]
    ensures |issued| + 1 - |now| == |issued| - |pending| + k
  {
  }

  lemma RingAppends(ring: Memory, issued: seq<Record>, rec: Record)
    requires Newest(ring, issued) && IsRecord(rec) && |issued| < 0xFFFF_FFFE && |rec| <= RECORD_LEN_MAX
    ensures var s, k, now := StampSeq(rec, IssuedSeq(ring.hdr)), Evict(ring, |rec|).1, AppendRaw(ring, rec);
            && Newest(now, issued + [s]) && IsRecord(s) && SeqOf(s) == |issued| + 1
            && k <= |Pending(ring)| && |Pending(now)| == |Pending(ring)| - k + 1
            && now.hdr.dropped == (ring.hdr.dropped + k) % TWO_TO_32
  {
    hide AppendRaw, Pending, Consistent, Evict, StampSeq, IsRecord, SeqOf;
    RecordSize(rec);
    IssuesNext(ring, |issued|);
    AppendRefinesFifo(ring, rec);
    StampKeepsShape(rec, IssuedSeq(ring.hdr));
    hide IssuedSeq;
    QueueAppended(issued, Pending(ring), Evict(ring, |rec|).1, StampSeq(rec, IssuedSeq(ring.hdr)), Pending(AppendRaw(ring, rec)));
  }

  lemma IssuesNext(ring: Memory, n: nat)
    requires ring.hdr.nextSeq == n + 1 && n < 0xFFFF_FFFE
    ensures IssuedSeq(ring.hdr) == n + 1
  {
  }

  lemma AppendKeeps(p: Post, rec: Record)
    requires PostInv(p) && Possible(p, Issue(rec))
    ensures PostInv(After(p, Issue(rec)))
  {
    hide Kept, AppendRaw, Pending, Evict, StampSeq, Numbers, IsRecord, SeqOf, Newest, After, Left, IssuedSeq;
    RecordSize(rec);
    RingIs(p);
    RingAppends(p.ring, p.issued, rec);
    var k, s, p' := Evict(p.ring, |rec|).1, StampSeq(rec, IssuedSeq(p.ring.hdr)), After(p, Issue(rec));
    AfterIssue(p, rec, k, s);
    RingIs(p');
    AppendKept(p, Left(p), s, k, p');
    DroppedMore(|p.evicted|, k);
  }

  lemma AfterIssue(p: Post, rec: Record, k: nat, s: Record)
    requires WellSized(p.ring) && Possible(p, Issue(rec)) && HEADER_LEN <= |rec| <= RECORD_LEN_MAX
    requires k == Evict(p.ring, |rec|).1 && s == StampSeq(rec, IssuedSeq(p.ring.hdr))
    ensures After(p, Issue(rec))
            == Post(AppendRaw(p.ring, rec), p.host, p.asked, p.sent, p.issued + [s], p.evicted + Numbers(Left(p), k))
  {
    hide AppendRaw, Pending, Evict, StampSeq, Numbers, Left;
  }

  lemma RingIs(p: Post)
    requires Newest(p.ring, p.issued)
    ensures WellSized(p.ring) && |Pending(p.ring)| <= |p.issued| && Left(p) == |p.issued| - |Pending(p.ring)|
  {
    hide Pending, Consistent;
  }

  /** What an ack frees lies at or below it. */
  lemma FreedBelow(ring: Memory, issued: seq<Record>, ack: u32, k: nat)
    requires Newest(ring, issued) && Numbered(issued) && 0 < k <= |Pending(ring)| && AckedPrefix(Pending(ring), k, ack)
    ensures |issued| - |Pending(ring)| + k <= ack as int
  {
    hide Pending, Consistent, SeqOf, Numbered;
    var q := |issued| - |Pending(ring)| + k - 1;
    assert Pending(ring)[k - 1] == issued[q];
    NumberedPrefix(issued, q + 1);
  }

  lemma QueueDropped(issued: seq<Record>, pending: seq<Record>, k: nat)
    requires |pending| <= |issued| && pending == issued[|issued| - |pending|..] && k <= |pending|
    ensures pending[k..] == issued[|issued| - |pending[k..]|..]
  {
  }

  /** An ack frees the front of the queue, none of it above the ack. */
  lemma RingAcks(ring: Memory, issued: seq<Record>, ack: u32) returns (k: nat)
    requires Newest(ring, issued) && Numbered(issued)
    ensures k <= |Pending(ring)| && WellSized(Ack(ring, ack)) && Pending(Ack(ring, ack)) == Pending(ring)[k..]
    ensures Newest(Ack(ring, ack), issued) && Ack(ring, ack).hdr.dropped == ring.hdr.dropped
    ensures k > 0 ==> ack != NO_ACK && |issued| - |Pending(ring)| + k <= ack as int
  {
    hide Ack, Pending, Consistent, AckedPrefix, Numbered;
    k := AckRefinesFifo(ring, ack);
    QueueDropped(issued, Pending(ring), k);
    if k > 0 {
      FreedBelow(ring, issued, ack, k);
    }
  }

  lemma KeptNumbered(p: Post, gone: nat)
    requires Kept(p, gone)
    ensures Numbered(p.issued) && gone <= |p.issued|
  {
    hide Numbered, Safe, Block;
  }

  lemma AckKeeps(p: Post, ack: u32)
    requires PostInv(p) && Safe(ack, Left(p), p.issued, p.host.stored)
    ensures PostInv(p.(ring := Ack(p.ring, ack)))
  {
    hide Kept, Ack, Pending, Newest, Safe, Numbered;
    RingIs(p);
    KeptNumbered(p, Left(p));
    var k := RingAcks(p.ring, p.issued, ack);
    var p' := p.(ring := Ack(p.ring, ack));
    RingIs(p');
    AckKept(p, Left(p), ack, k, p');
  }

  lemma AskedSafe(p: Post, gone: nat, j: nat)
    requires Kept(p, gone) && j < |p.asked|
    ensures Safe(p.asked[j], gone, p.issued, p.host.stored)
  {
    hide Numbered, Safe, Block, Covered;
  }

  lemma AnswerKeeps(p: Post, j: nat, maxBytes: u16, now: u32, flags: byte)
    requires PostInv(p) && j < |p.asked|
    ensures PostInv(After(p, Answer(j, maxBytes, now, flags)))
  {
    hide Kept, Ack, Pending, Newest, Safe, BlockPayload, Peek, Block;
    RingIs(p);
    AskedSafe(p, Left(p), j);
    AckKeeps(p, p.asked[j]);
    var t := p.(ring := Ack(p.ring, p.asked[j]));
    RingIs(t);
    ServedBlock(t, maxBytes, now, flags);
    SentKept(t, Left(t), InFlight(BlockPayload(t.ring, maxBytes, now, flags), Left(t),
                                  Left(t) + Peek(t.ring, Min(maxBytes, RECORD_BYTES_MAX)).count));
  }

  lemma SentKept(p: Post, gone: nat, w: InFlight)
    requires Kept(p, gone) && Block(w, gone, p.issued)
    ensures Kept(p.(sent := p.sent + [w]), gone)
  {
    hide Safe, Block, Covered, Numbered;
  }

  /** The reply made from the ring carries the oldest records there. */
  lemma ServedBlock(t: Post, maxBytes: u16, now: u32, flags: byte)
    requires PostInv(t)
    ensures Block(InFlight(BlockPayload(t.ring, maxBytes, now, flags), Left(t),
                           Left(t) + Peek(t.ring, Min(maxBytes, RECORD_BYTES_MAX)).count), Left(t), t.issued)
  {
    hide BlockPayload, Consistent, Peek, ParseBlock, Pending, DecodedAll, IsRecord, Kept;
    var k := ReplyParses(t.ring, maxBytes, now, flags);
    var g := Left(t);
    assert t.issued[g..g + k] == Pending(t.ring)[..k];
  }

  lemma AskKept(p: Post, gone: nat)
    requires Kept(p, gone)
    ensures Kept(p.(asked := p.asked + [p.host.ackSeq]), gone)
  {
    hide Safe, Block, Covered, Numbered;
  }

  lemma GiveUpKept(p: Post, gone: nat)
    requires Kept(p, gone)
    ensures Kept(p.(host := Receive(p.host, Timeout)), gone)
  {
    hide Safe, Block, Covered, Numbered;
  }

  /** Every move keeps the invariant. */
  lemma AfterKeeps(p: Post, m: Move)
    requires PostInv(p) && Possible(p, m)
    ensures PostInv(After(p, m))
  {
    hide Kept, Pending, Newest, Receive;
    RingIs(p);
    match m
    case Issue(rec) => AppendKeeps(p, rec);
    case Ask => AskKept(p, Left(p));
    case Answer(j, maxBytes, now, flags) => AnswerKeeps(p, j, maxBytes, now, flags);
    case GiveUp => GiveUpKept(p, Left(p));
    case Read(i) => ReadKept(p, Left(p), p.sent[i], Receive(p.host, Data(p.sent[i].payload)));
  }

  // ----- whole runs -------------------------------------------------------

  predicate AllPossible(p: Post, ms: seq<Move>)
    requires WellSized(p.ring)
    decreases ms
  {
    ms == [] || (Possible(p, ms[0]) && AllPossible(After(p, ms[0]), ms[1..]))
  }

  function AfterAll(p: Post, ms: seq<Move>): (p': Post)
    requires WellSized(p.ring) && AllPossible(p, ms)
    ensures WellSized(p'.ring)
    decreases ms
  {
    if ms == [] then p else AfterAll(After(p, ms[0]), ms[1..])
  }

  function FirstPost(data: seq<byte>): Post
    requires |data| == SIZE
  {
    Post(Memory(InitHeader(), data), NEW_HOST, [], [], [], {})
  }

  lemma FirstKeeps(data: seq<byte>)
    requires |data| == SIZE
    ensures PostInv(FirstPost(data))
  {
    StartIsInv(data);
    assert Pending(FirstPost(data).ring) == [];
    hide Pending, Consistent, Drain.Inv;
  }

  lemma {:induction false} AfterAllKeeps(p: Post, ms: seq<Move>)
    requires PostInv(p) && AllPossible(p, ms)
    ensures PostInv(AfterAll(p, ms))
    decreases ms
  {
    if ms != [] {
      hide PostInv, After, Possible;
      AfterKeeps(p, ms[0]);
      AfterAllKeeps(After(p, ms[0]), ms[1..]);
    }
  }

  /** Over every run from a fresh ring on a network that may lose, delay, repeat and reorder requests and replies, a
      host that stays one reply behind among them: every record ever appended is stored by the host, still pending in
      the ring, or was evicted. Only the host's order and freedom from duplicates need replies in their turn. */
  lemma StoredPendingOrEvicted(data: seq<byte>, ms: seq<Move>, i: nat)
    requires |data| == SIZE && AllPossible(FirstPost(data), ms)
    requires i < |AfterAll(FirstPost(data), ms).issued|
    ensures var p := AfterAll(FirstPost(data), ms);
            && p.ring.hdr.dropped == |p.evicted| % TWO_TO_32
            && (p.issued[i] in p.host.stored || p.issued[i] in Pending(p.ring) || i + 1 in p.evicted)
  {
    FirstKeeps(data);
    AfterAllKeeps(FirstPost(data), ms);
    hide AfterAll, AllPossible, Consistent, Pending, Safe, Block, Numbered;
    var p := AfterAll(FirstPost(data), ms);
    if i >= Left(p) {
      assert Pending(p.ring)[i - Left(p)] == p.issued[i];
    } else {
      assert i + 1 in p.evicted || p.issued[i] in p.host.stored;
    }
  }

  /** In every such state, whichever request is served next, its ack frees only records the host has stored. */
  lemma NothingFreedUnread(data: seq<byte>, ms: seq<Move>, j: nat, r: Record)
    requires |data| == SIZE && AllPossible(FirstPost(data), ms)
    requires var p := AfterAll(FirstPost(data), ms);
             j < |p.asked| && r in Pending(p.ring) && r !in Pending(Ack(p.ring, p.asked[j]))
    ensures r in AfterAll(FirstPost(data), ms).host.stored
  {
    hide AfterAll, AllPossible, PostInv, Pending, Ack;
    FirstKeeps(data);
    AfterAllKeeps(FirstPost(data), ms);
    FreedWasStored(AfterAll(FirstPost(data), ms), j, r);
  }

  lemma FreedWasStored(p: Post, j: nat, r: Record)
    requires PostInv(p) && j < |p.asked| && r in Pending(p.ring)
    requires WellSized(Ack(p.ring, p.asked[j])) && r !in Pending(Ack(p.ring, p.asked[j]))
    ensures r in p.host.stored
  {
    hide Kept, Pending, Ack, Newest, Numbered, Safe;
    var ack := p.asked[j];
    RingIs(p);
    AskedSafe(p, Left(p), j);
    KeptNumbered(p, Left(p));
    var k := RingAcks(p.ring, p.issued, ack);
    var i :| 0 <= i < |Pending(p.ring)| && Pending(p.ring)[i] == r;
    NotFreed(Pending(p.ring), k, i);
    PendingIs(p, i);
    SafeStored(ack, Left(p), p.issued, p.host.stored, Left(p) + i);
  }

  lemma NotFreed(q: seq<Record>, k: nat, i: nat)
    requires i < |q| && k <= |q|
    ensures i >= k ==> q[i] in q[k..]
  {
    if i >= k {
      assert q[k..][i - k] == q[i];
    }
  }

  lemma PendingIs(p: Post, i: nat)
    requires Newest(p.ring, p.issued) && i < |Pending(p.ring)|
    ensures Left(p) + i < |p.issued| && Pending(p.ring)[i] == p.issued[Left(p) + i]
  {
    hide Pending, Consistent;
  }

  lemma SafeStored(ack: u32, gone: nat, issued: seq<Record>, stored: seq<Record>, q: nat)
    requires Safe(ack, gone, issued, stored) && ack != NO_ACK && gone <= q < ack as int
    ensures q < |issued| && issued[q] in stored
  {
  }
}
