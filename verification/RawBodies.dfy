/** Raw bodies on the wire: whether each stands behind its own header, whose bytes they are, what a host reads. */
module RawBodies {
  import opened Bytes
  import opened Sources
  import Archive
  import ArchiveProofs
  import ArchiveRuns
  import Zip

  // ----- on the wire ------------------------------------------------------

  /** `p` is the header of body `k` of `conn`, or raw bytes of it. */
  predicate PartOf(p: Piece, conn: nat, k: nat) {
    match p
    case Frame(q) => q.conn == conn && q.k == k && Heads(q.item)
    case Raw(c, j, _) => c == conn && j == k
  }

  /** The frame at `h` is the header of the raw bytes at `i`, and only bytes of that body lie between them. */
  predicate Leads(wire: seq<Piece>, h: nat, i: nat)
    requires h < i < |wire| && wire[i].Raw?
  {
    && wire[h].Frame? && PartOf(wire[h], wire[i].conn, wire[i].k)
    && forall j :: h < j < i ==> wire[j].Raw? && PartOf(wire[j], wire[i].conn, wire[i].k)
  }

  predicate Led(wire: seq<Piece>, i: nat)
    requires i < |wire|
  {
    wire[i].Raw? ==> exists h :: 0 <= h < i && Leads(wire, h, i)
  }

  /** Every raw piece stands behind its own header, with only pieces of the same body between. */
  predicate Bodies(wire: seq<Piece>) {
    forall i :: 0 <= i < |wire| ==> Led(wire, i)
  }

  predicate EndsIn(wire: seq<Piece>, conn: nat, k: nat) {
    wire != [] && PartOf(wire[|wire| - 1], conn, k)
  }

  /** All raw bytes of one body, in order. */
  function BodyOf(wire: seq<Piece>, conn: nat, k: nat): seq<byte> {
    if wire == [] then []
    else
      var p := wire[|wire| - 1];
      BodyOf(wire[..|wire| - 1], conn, k) + if p.Raw? && PartOf(p, conn, k) then p.data else []
  }

  /** What a host that reads on behind position `h` finds before the next frame. */
  function Behind(wire: seq<Piece>, h: nat): seq<byte>
    requires h < |wire|
    decreases |wire| - h
  {
    if h + 1 == |wire| || wire[h + 1].Frame? then [] else wire[h + 1].data + Behind(wire, h + 1)
  }

  lemma LedSnoc(wire: seq<Piece>, p: Piece, i: nat)
    requires i < |wire|
    ensures Led(wire + [p], i) == Led(wire, i)
  {
    var more := wire + [p];
    assert forall j :: 0 <= j < |wire| ==> more[j] == wire[j];
    if wire[i].Raw? {
      forall h | 0 <= h < i ensures Leads(more, h, i) == Leads(wire, h, i) {
      }
    }
  }

  /** A raw piece is led exactly when it follows its header or an earlier piece of its body that is. */
  lemma LedLast(wire: seq<Piece>, p: Piece)
    requires Bodies(wire) && p.Raw?
    ensures Led(wire + [p], |wire|) <==> EndsIn(wire, p.conn, p.k)
  {
    var more, n := wire + [p], |wire|;
    assert forall j :: 0 <= j < n ==> more[j] == wire[j];
    if EndsIn(wire, p.conn, p.k) {
      if wire[n - 1].Frame? {
        assert Leads(more, n - 1, n);
      } else {
        assert Led(wire, n - 1);
        var h :| 0 <= h < n - 1 && Leads(wire, h, n - 1);
        assert Leads(more, h, n);
      }
    }
    if Led(more, n) {
      var h :| 0 <= h < n && Leads(more, h, n);
      assert h < n - 1 ==> more[n - 1].Raw? && PartOf(more[n - 1], p.conn, p.k);
    }
  }

  lemma BodiesSnoc(wire: seq<Piece>, p: Piece)
    ensures Bodies(wire + [p]) <==> Bodies(wire) && (p.Raw? ==> EndsIn(wire, p.conn, p.k))
  {
    var more := wire + [p];
    forall i | 0 <= i < |wire| ensures Led(more, i) == Led(wire, i) {
      LedSnoc(wire, p, i);
    }
    if Bodies(wire) && p.Raw? {
      LedLast(wire, p);
    }
    assert p.Frame? ==> Led(more, |wire|);
    hide Led, EndsIn;
    if Bodies(more) {
      assert forall i :: 0 <= i < |wire| ==> Led(more, i);
      assert Led(more, |wire|);
    }
  }

  lemma BodySnoc(wire: seq<Piece>, p: Piece, conn: nat, k: nat)
    ensures BodyOf(wire + [p], conn, k) == BodyOf(wire, conn, k) + if p.Raw? && PartOf(p, conn, k) then p.data else []
  {
    assert (wire + [p])[..|wire|] == wire;
  }

  lemma {:induction false} NoBody(wire: seq<Piece>, conn: nat, k: nat)
    requires forall i :: 0 <= i < |wire| && wire[i].Raw? ==> !PartOf(wire[i], conn, k)
    ensures BodyOf(wire, conn, k) == []
  {
    if wire != [] {
      NoBody(wire[..|wire| - 1], conn, k);
    }
  }

  // ----- what a host reads ------------------------------------------------

  predicate RawFrom(wire: seq<Piece>, h: nat) {
    forall j :: h < j < |wire| ==> wire[j].Raw?
  }

  lemma {:induction false} BehindSnoc(wire: seq<Piece>, p: Piece, h: nat)
    requires h < |wire|
    ensures Behind(wire + [p], h) == Behind(wire, h) + if p.Raw? && RawFrom(wire, h) then p.data else []
    decreases |wire| - h
  {
    var more := wire + [p];
    if h + 1 == |wire| {
      assert more[h + 1] == p && Behind(more, h + 1) == [];
      assert p.Raw? ==> Behind(more, h) == p.data + [];
    } else if wire[h + 1].Raw? {
      assert more[h + 1] == wire[h + 1];
      BehindSnoc(wire, p, h + 1);
      assert RawFrom(wire, h) == RawFrom(wire, h + 1);
    } else {
      assert more[h + 1] == wire[h + 1];
    }
  }

  /** No other frame is of the same reply. */
  predicate Sole(wire: seq<Piece>, h: nat)
    requires h < |wire| && wire[h].Frame?
  {
    forall i :: 0 <= i < |wire| && i != h && wire[i].Frame? ==> wire[i].q.conn != wire[h].q.conn || wire[i].q.k != wire[h].q.k
  }

  /** Where every body stands behind its header, a host that reads on from a header reads exactly that body. */
  lemma {:induction false} BehindIsBody(wire: seq<Piece>, h: nat)
    requires Bodies(wire) && h < |wire| && wire[h].Frame? && Heads(wire[h].q.item)
    requires Sole(wire, h)
    ensures Behind(wire, h) == BodyOf(wire, wire[h].q.conn, wire[h].q.k)
  {
    var n := |wire| - 1;
    var front, p, q := wire[..n], wire[n], wire[h].q;
    assert wire == front + [p];
    BodySnoc(front, p, q.conn, q.k);
    BodiesSnoc(front, p);
    if h == n {
      NothingBefore(front, q.conn, q.k);
    } else {
      BehindIsBody(front, h);
      BehindSnoc(front, p, h);
      if p.Raw? {
        LedBy(wire, h, n);
      }
      hide Bodies, Behind, BodyOf;
    }
  }

  /** Bytes of a body whose header is not there yet are not there either. */
  lemma NothingBefore(wire: seq<Piece>, conn: nat, k: nat)
    requires Bodies(wire) && forall i :: 0 <= i < |wire| && wire[i].Frame? ==> !PartOf(wire[i], conn, k)
    ensures BodyOf(wire, conn, k) == []
  {
    forall i | 0 <= i < |wire| && wire[i].Raw? ensures !PartOf(wire[i], conn, k) {
      assert Led(wire, i);
    }
    NoBody(wire, conn, k);
  }

  /** A raw piece at the end is of the body headed at `h` exactly when no frame has come since. */
  lemma LedBy(wire: seq<Piece>, h: nat, n: nat)
    requires Bodies(wire) && h < n == |wire| - 1 && wire[n].Raw? && wire[h].Frame? && Heads(wire[h].q.item)
    requires Sole(wire, h)
    ensures RawFrom(wire[..n], h) <==> PartOf(wire[n], wire[h].q.conn, wire[h].q.k)
  {
    assert Led(wire, n);
    var g :| 0 <= g < n && Leads(wire, g, n);
    assert RawFrom(wire[..n], h) ==> g <= h;
    if PartOf(wire[n], wire[h].q.conn, wire[h].q.k) {
      assert g == h;
    }
  }

  // ----- what each act does to the bodies ---------------------------------

  /** Body `k` is going out: its header is the newest reply, and is in the slot or where the wire ends, unless some
      of its bytes went before it. */
  predicate Sending(ch: Channel, k: nat) {
    && k + 1 == |ch.out| && Heads(ch.out[k])
    && (ch.slot.Some? ==> Mine(ch))
    && (ch.slot.None? && Bodies(ch.wire) ==> EndsIn(ch.wire, ch.conn, k))
  }

  lemma FlushBodies(ch: Channel, room: bool)
    ensures Bodies(FlushResponses(ch, room).wire) <==> Bodies(ch.wire)
  {
    hide Bodies, EndsIn;
    if ch.slot.Some? && room {
      BodiesSnoc(ch.wire, Frame(ch.slot.value));
    }
  }

  lemma FlushSending(ch: Channel, room: bool, k: nat)
    requires Accounted(ch) && Sending(ch, k)
    ensures Sending(FlushResponses(ch, room), k)
  {
    hide Bodies, Delivered, Kept, Placed;
  }

  lemma NoEnd(wire: seq<Piece>, conn: nat, k: nat)
    requires Bodies(wire) && forall i :: 0 <= i < |wire| && wire[i].Frame? ==> !PartOf(wire[i], conn, k)
    ensures !EndsIn(wire, conn, k)
  {
    assert wire != [] ==> Led(wire, |wire| - 1);
  }

  /** While the header waits in the slot, the wire does not end in its body, unless that is out of place already. */
  lemma NotBegun(ch: Channel, k: nat)
    requires Accounted(ch) && Mine(ch) && k + 1 == |ch.out| && Bodies(ch.wire)
    ensures !EndsIn(ch.wire, ch.conn, k)
  {
    SlotHolds(ch);
    hide Delivered, Kept;
    forall i | 0 <= i < |ch.wire| && ch.wire[i].Frame? ensures !PartOf(ch.wire[i], ch.conn, k) {
      assert Placed(ch, i, ch.wire[i]);
    }
    NoEnd(ch.wire, ch.conn, k);
  }

  /** Bytes of body `k` go out with the wait for room given up and their header still in the slot. */
  predicate Overtaking(ch: Channel, k: nat, data: seq<byte>, flushed: bool) {
    data != [] && !flushed && Mine(ch) && ch.slot.value.k == k
  }

  lemma RawBodies(ch: Channel, k: nat, data: seq<byte>, flushed: bool)
    requires Accounted(ch) && Sending(ch, k)
    ensures Bodies(SendRaw(ch, k, data, flushed).wire) <==> Bodies(ch.wire) && !Overtaking(ch, k, data, flushed)
    ensures Sending(SendRaw(ch, k, data, flushed), k)
  {
    FlushBodies(ch, flushed);
    FlushSending(ch, flushed, k);
    FlushAccounted(ch, flushed);
    var f := FlushResponses(ch, flushed);
    assert f.slot.Some? <==> !flushed && Mine(ch) && ch.slot.value.k == k;
    if data != [] {
      BodiesSnoc(f.wire, Raw(ch.conn, k, data));
      if f.slot.Some? && Bodies(f.wire) {
        NotBegun(f, k);
      }
    }
    hide Bodies, Accounted, FlushResponses;
  }

  // ----- what each header promised ----------------------------------------

  /** The size field of a download: the file's, as far as 32 bits go. */
  function FileSize(content: seq<byte>): u32 {
    |content| % TWO_TO_32
  }

  /** `st` is an archive stream over the library, and has sent `body`. */
  ghost predicate Streams(st: Archive.Stream, library: Archive.Library, body: seq<byte>) {
    && ArchiveProofs.Inv(st) && st.entries == library.entries && st.wire == body
    && ArchiveRuns.Faithful(st, library.disk, false)
  }

  ghost predicate Zipped(library: Archive.Library, body: seq<byte>) {
    exists st :: Streams(st, library, body)
  }

  /** A download's body is a front of the file, no longer than announced; an archive's is what the stream over its
      library sends, of which the length was announced; other replies have none. */
  ghost predicate Promised(item: Item, body: seq<byte>) {
    match item
    case FileHeader(size, content) => size == FileSize(content) && body <= content[..size]
    case ZipHeader(promise, library) => promise == Archive.Promise(Archive.Arm(library.entries)) && Zipped(library, body)
    case _ => body == []
  }

  ghost predicate PromisesKept(ch: Channel) {
    forall k :: 0 <= k < |ch.out| ==> Promised(ch.out[k], BodyOf(ch.wire, ch.conn, k))
  }

  ghost predicate Clean(ch: Channel, body: Option<nat>) {
    Accounted(ch) && PromisesKept(ch) && (body.Some? ==> Sending(ch, body.value))
  }

  /** No bytes belong to a reply that is not queued yet. */
  lemma NotYet(ch: Channel)
    requires Accounted(ch)
    ensures BodyOf(ch.wire, ch.conn, |ch.out|) == []
  {
    hide Delivered, Kept;
    forall i | 0 <= i < |ch.wire| && ch.wire[i].Raw? ensures !PartOf(ch.wire[i], ch.conn, |ch.out|) {
      assert Placed(ch, i, ch.wire[i]);
    }
    NoBody(ch.wire, ch.conn, |ch.out|);
  }

  lemma SendClean(ch: Channel, item: Item, body: Option<nat>)
    requires Clean(ch, None) && Promised(item, []) && (body.Some? ==> body.value == |ch.out| && Heads(item))
    ensures Clean(SendResponse(ch, item), body)
  {
    SendAccounted(ch, item);
    NotYet(ch);
    hide Accounted, Promised, BodyOf;
    var r := SendResponse(ch, item);
    forall k | 0 <= k < |r.out| ensures Promised(r.out[k], BodyOf(r.wire, r.conn, k)) {
      assert k < |ch.out| ==> r.out[k] == ch.out[k];
    }
  }

  lemma FlushKeepsBody(ch: Channel, room: bool, k: nat)
    ensures BodyOf(FlushResponses(ch, room).wire, ch.conn, k) == BodyOf(ch.wire, ch.conn, k)
  {
    if ch.slot.Some? && room {
      BodySnoc(ch.wire, Frame(ch.slot.value), ch.conn, k);
    }
  }

  lemma FlushClean(ch: Channel, room: bool, body: Option<nat>)
    requires Clean(ch, body)
    ensures Clean(FlushResponses(ch, room), body)
  {
    FlushAccounted(ch, room);
    if body.Some? {
      FlushSending(ch, room, body.value);
    }
    hide Accounted, Promised, BodyOf, Sending;
    var r := FlushResponses(ch, room);
    forall k | 0 <= k < |r.out| ensures Promised(r.out[k], BodyOf(r.wire, r.conn, k)) {
      FlushKeepsBody(ch, room, k);
    }
  }

  /** Raw bytes lengthen their own body and no other. */
  lemma RawLengthens(ch: Channel, k: nat, data: seq<byte>, flushed: bool, j: nat)
    ensures BodyOf(SendRaw(ch, k, data, flushed).wire, ch.conn, j)
            == BodyOf(ch.wire, ch.conn, j) + if j == k then data else []
  {
    FlushKeepsBody(ch, flushed, j);
    BodySnoc(FlushResponses(ch, flushed).wire, Raw(ch.conn, k, data), ch.conn, j);
    hide BodyOf, FlushResponses;
  }

  lemma RawClean(ch: Channel, k: nat, data: seq<byte>, flushed: bool)
    requires Clean(ch, Some(k)) && Promised(ch.out[k], BodyOf(ch.wire, ch.conn, k) + data)
    ensures Clean(SendRaw(ch, k, data, flushed), Some(k))
  {
    RawBodies(ch, k, data, flushed);
    RawAccounted(ch, k, data, flushed);
    hide Accounted, Promised, BodyOf, Sending;
    var r := SendRaw(ch, k, data, flushed);
    assert r.out == ch.out && r.conn == ch.conn;
    hide SendRaw;
    forall j | 0 <= j < |r.out| ensures Promised(r.out[j], BodyOf(r.wire, r.conn, j)) {
      RawLengthens(ch, k, data, flushed, j);
      assert BodyOf(ch.wire, ch.conn, j) + [] == BodyOf(ch.wire, ch.conn, j);
    }
  }

  lemma ClientClean(ch: Channel, body: Option<nat>)
    requires Clean(ch, body)
    ensures Clean(NewClient(ch), None)
  {
    ClientAccounted(ch);
    hide Accounted, Promised;
  }

  // ----- a source as a whole ----------------------------------------------

  /** A status-0 reply to an upload stands for a file that holds exactly the payload; one to a firmware upload carries
      the payload's CRC-32. */
  predicate Honest(src: Source, item: Item) {
    match item
    case Stored(data, start, total) =>
      start + total as nat <= src.pos <= |src.input| && data == src.input[start..start + total as nat]
    case Image(crc, start, total) =>
      start + total as nat <= src.pos <= |src.input| && crc == Zip.Crc(src.input[start..start + total as nat])
    case _ => true
  }

  /** Every command parsed was consumed with exactly one reply queued, or is pending. */
  ghost predicate SourceOk(src: Source, body: Option<nat>) {
    && src.pos <= |src.input|
    && src.parsed == |src.ch.out| + (if src.cmd.Some? then 1 else 0)
    && (forall item :: item in src.ch.out ==> Honest(src, item))
    && Clean(src.ch, body)
  }

  function Answer(src: Source, item: Item): Source {
    src.(ch := SendResponse(src.ch, item))
  }

  function Consumed(src: Source): Source {
    src.(cmd := None)
  }

  /** A reply to the pending command, then consumed. */
  lemma Answered(src: Source, item: Item, body: Option<nat>)
    requires SourceOk(src, None) && src.cmd.Some? && Honest(src, item) && Promised(item, [])
    requires body.Some? ==> body.value == |src.ch.out| && Heads(item)
    ensures SourceOk(Consumed(Answer(src, item)), body)
  {
    hide Clean, Honest, Promised;
    SendClean(src.ch, item, body);
    var r := Consumed(Answer(src, item));
    assert forall x :: x in r.ch.out ==> x in src.ch.out || x == item;
    SameBytes(src, r);
  }

  /** What a reply stands for does not change once its bytes are consumed. */
  lemma SameBytes(src: Source, r: Source)
    requires r.input == src.input && src.pos <= r.pos <= |r.input|
    ensures forall item :: Honest(src, item) ==> Honest(r, item)
  {
  }

  lemma Sent(src: Source, ch: Channel, was: Option<nat>, body: Option<nat>)
    requires SourceOk(src, was) && Clean(ch, body) && ch.out == src.ch.out
    ensures SourceOk(src.(ch := ch), body)
  {
    hide Clean, Honest;
    SameBytes(src, src.(ch := ch));
  }

  lemma Advanced(src: Source, n: nat, body: Option<nat>)
    requires SourceOk(src, body) && src.pos + n <= |src.input|
    ensures SourceOk(src.(pos := src.pos + n), body)
  {
    hide Clean, Honest;
    SameBytes(src, src.(pos := src.pos + n));
  }

  lemma BodyEnds(src: Source, body: Option<nat>)
    requires SourceOk(src, body)
    ensures SourceOk(src, None)
  {
    hide Accounted, PromisesKept, Sending;
  }
}
