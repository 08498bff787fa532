/** A message source: bytes in, one command at a time, and a single response slot on the way out. */
module Sources {
  import opened Bytes
  import Archive

  /** A parsed command, as far as transfers care. */
  datatype Command =
    | GetFile(idx: u16, lengthOk: bool)
    | PutFile(idx: u16, len: u32)
    | PutFirmware(len: u32)
    | Delete(idx: u16, lengthOk: bool)
    | Rename(idx: u16, nameOk: bool)
    | Purge
    | GetArchive
    | Other(code: byte)

  /** A framed reply: a status; the header of a raw body, a file's or an archive's, with the size it announces; the
      status-0 reply to an upload with the file it left and where its payload began, or the status-0 reply to a
      firmware upload with the CRC-32 it carries. */
  datatype Item =
    | Reply(cmd: byte, status: byte)
    | FileHeader(size: u32, content: seq<byte>)
    | ZipHeader(promise: nat, library: Archive.Library)
    | Stored(data: seq<byte>, start: nat, total: u32)
    | Image(crc: u32, start: nat, total: u32)

  predicate Heads(item: Item) {
    item.FileHeader? || item.ZipHeader?
  }

  /** The `k`-th reply queued on connection `conn`. */
  datatype Queued = Queued(conn: nat, k: nat, item: Item)

  /** A framed reply, or raw bytes of the body that reply `k` of `conn` is the header of. */
  datatype Piece = Frame(q: Queued) | Raw(conn: nat, k: nat, data: seq<byte>)

  /** The way out of one connection: the replies queued on it so far, the slot that holds one of them (or one left by
      an earlier connection), what went over the wire, and which replies were overwritten in the slot. */
  datatype Channel = Channel(conn: nat, out: seq<Item>, slot: Option<Queued>, wire: seq<Piece>, lost: set<nat>)

  /** One connection: the bytes its host sends and how many were consumed, the command awaiting dispatch, how many
      were parsed, and the way out. */
  datatype Source = Source(input: seq<byte>, pos: nat, cmd: Option<Command>, parsed: nat, ch: Channel)

  predicate Mine(ch: Channel) {
    ch.slot.Some? && ch.slot.value.conn == ch.conn
  }

  /** sendResponse: the slot is overwritten, sent or not. */
  function SendResponse(ch: Channel, item: Item): Channel {
    ch.(out := ch.out + [item], slot := Some(Queued(ch.conn, |ch.out|, item)),
        lost := ch.lost + if Mine(ch) then {ch.slot.value.k} else {})
  }

  /** flushResponses: with no room the reply stays queued. */
  function FlushResponses(ch: Channel, room: bool): Channel {
    if ch.slot.Some? && room then ch.(slot := None, wire := ch.wire + [Frame(ch.slot.value)]) else ch
  }

  /** sendRaw for the body of reply `k`: the queued header first, unless the wait for room was given up. */
  function SendRaw(ch: Channel, k: nat, data: seq<byte>, flushed: bool): Channel {
    var f := FlushResponses(ch, flushed);
    if data == [] then f else f.(wire := f.wire + [Raw(ch.conn, k, data)])
  }

  /** A new client on the old object: only the receive side is cleared. */
  function NewClient(ch: Channel): Channel {
    Channel(ch.conn + 1, [], ch.slot, [], {})
  }

  // ----- where every reply went -------------------------------------------

  /** The replies of `conn` on the wire, by number. */
  function Delivered(wire: seq<Piece>, conn: nat): seq<nat> {
    if wire == [] then []
    else
      var p := wire[|wire| - 1];
      Delivered(wire[..|wire| - 1], conn) + if p.Frame? && p.q.conn == conn then [p.q.k] else []
  }

  /** The first `n` numbers but the lost ones, in order. */
  function Kept(n: nat, lost: set<nat>): seq<nat> {
    if n == 0 then [] else Kept(n - 1, lost) + if n - 1 in lost then [] else [n - 1]
  }

  /** Replies no longer in the slot. */
  function Settled(ch: Channel): nat {
    if Mine(ch) && ch.out != [] then |ch.out| - 1 else |ch.out|
  }

  /** Every reply of this connection is in the slot, lost, or on the wire in its turn; nothing else is framed but
      one reply an earlier connection may have left in the slot, and that goes first. Raw bytes belong to replies of
      this connection. */
  predicate Accounted(ch: Channel) {
    && (ch.slot.Some? ==>
          if Mine(ch) then ch.out != [] && ch.slot.value == Queued(ch.conn, |ch.out| - 1, ch.out[|ch.out| - 1])
          else ch.slot.value.conn < ch.conn && ch.out == [] && ch.wire == [])
    && (forall k :: k in ch.lost ==> k < Settled(ch))
    && Delivered(ch.wire, ch.conn) == Kept(Settled(ch), ch.lost)
    && (forall i :: 0 <= i < |ch.wire| ==> Placed(ch, i, ch.wire[i]))
  }

  predicate Placed(ch: Channel, i: nat, p: Piece) {
    match p
    case Frame(q) => if q.conn == ch.conn then q.k < |ch.out| && q.item == ch.out[q.k] else i == 0 && q.conn < ch.conn
    case Raw(conn, k, _) => conn == ch.conn && k < |ch.out|
  }

  lemma {:induction false} KeptIgnoresLater(n: nat, lost: set<nat>, more: set<nat>)
    requires forall k :: k in more ==> k >= n
    ensures Kept(n, lost + more) == Kept(n, lost)
  {
    if n > 0 {
      KeptIgnoresLater(n - 1, lost, more);
    }
  }

  lemma DeliveredSnoc(wire: seq<Piece>, conn: nat, p: Piece)
    ensures Delivered(wire + [p], conn) == Delivered(wire, conn) + if p.Frame? && p.q.conn == conn then [p.q.k] else []
  {
    assert (wire + [p])[..|wire|] == wire;
  }

  lemma KeptSkips(n: nat, lost: set<nat>)
    requires forall k :: k in lost ==> k < n
    ensures Kept(n + 1, lost + {n}) == Kept(n, lost) && Kept(n + 1, lost) == Kept(n, lost) + [n]
  {
    KeptIgnoresLater(n, lost, {n});
  }

  lemma SendAccounted(ch: Channel, item: Item)
    requires Accounted(ch)
    ensures Accounted(SendResponse(ch, item)) && Mine(SendResponse(ch, item))
  {
    var r := SendResponse(ch, item);
    if Mine(ch) {
      KeptSkips(|ch.out| - 1, ch.lost);
    } else {
      assert r.lost == ch.lost;
    }
    hide Delivered, Kept;
    forall i | 0 <= i < |r.wire| ensures Placed(r, i, r.wire[i]) {
      assert Placed(ch, i, ch.wire[i]);
    }
  }

  lemma FlushAccounted(ch: Channel, room: bool)
    requires Accounted(ch)
    ensures Accounted(FlushResponses(ch, room))
  {
    if ch.slot.Some? && room {
      var q := ch.slot.value;
      var r := FlushResponses(ch, room);
      DeliveredSnoc(ch.wire, ch.conn, Frame(q));
      if Mine(ch) {
        KeptSkips(|ch.out| - 1, ch.lost);
      }
      hide Delivered, Kept;
      forall i | 0 <= i < |r.wire| ensures Placed(r, i, r.wire[i]) {
        assert i < |ch.wire| ==> Placed(ch, i, ch.wire[i]);
      }
    }
  }

  lemma RawAccounted(ch: Channel, k: nat, data: seq<byte>, flushed: bool)
    requires Accounted(ch) && (ch.slot.Some? ==> Mine(ch)) && k < |ch.out|
    ensures Accounted(SendRaw(ch, k, data, flushed))
  {
    FlushAccounted(ch, flushed);
    var f, r := FlushResponses(ch, flushed), SendRaw(ch, k, data, flushed);
    if data != [] {
      DeliveredSnoc(f.wire, f.conn, Raw(ch.conn, k, data));
      hide Delivered, Kept, FlushResponses;
      forall i | 0 <= i < |r.wire| ensures Placed(r, i, r.wire[i]) {
        assert i < |f.wire| ==> Placed(f, i, f.wire[i]);
      }
    }
  }

  lemma ClientAccounted(ch: Channel)
    requires Accounted(ch)
    ensures Accounted(NewClient(ch))
  {
  }

  predicate Ascends(ks: seq<nat>) {
    forall i, j :: 0 <= i < j < |ks| ==> ks[i] < ks[j]
  }

  /** Numbers on the wire strictly increase: no reply is sent twice. */
  lemma {:induction false} KeptAscends(n: nat, lost: set<nat>)
    ensures Ascends(Kept(n, lost))
    ensures forall k :: k in Kept(n, lost) <==> 0 <= k < n && k !in lost
  {
    if n > 0 {
      KeptAscends(n - 1, lost);
      var m := Kept(n - 1, lost);
      assert forall i :: 0 <= i < |m| ==> m[i] in m;
    }
  }

  /** A reply is on the wire exactly when it was neither overwritten nor still in the slot. */
  lemma OnWireIff(ch: Channel, k: nat)
    requires Accounted(ch) && k < |ch.out|
    ensures Frame(Queued(ch.conn, k, ch.out[k])) in ch.wire
            <==> k !in ch.lost && !(Mine(ch) && k == |ch.out| - 1)
  {
    KeptAscends(Settled(ch), ch.lost);
    DeliveredIff(ch.wire, ch.conn, k);
    hide Kept, Delivered;
    if k in Delivered(ch.wire, ch.conn) {
      var i :| 0 <= i < |ch.wire| && ch.wire[i].Frame? && ch.wire[i].q.conn == ch.conn && ch.wire[i].q.k == k;
      assert Placed(ch, i, ch.wire[i]);
      assert ch.wire[i] == Frame(Queued(ch.conn, k, ch.out[k]));
    }
  }

  lemma {:induction false} DeliveredIff(wire: seq<Piece>, conn: nat, k: nat)
    ensures k in Delivered(wire, conn)
            <==> exists i :: 0 <= i < |wire| && wire[i].Frame? && wire[i].q.conn == conn && wire[i].q.k == k
  {
    if wire != [] {
      var n := |wire| - 1;
      DeliveredIff(wire[..n], conn, k);
      assert forall i :: 0 <= i < n ==> wire[..n][i] == wire[i];
    }
  }

  // ----- when a queued reply reaches the wire -----------------------------

  datatype Act = Send(item: Item) | Flush(room: bool) | Body(k: nat, data: seq<byte>, flushed: bool)

  function Do(ch: Channel, a: Act): Channel {
    match a
    case Send(item) => SendResponse(ch, item)
    case Flush(room) => FlushResponses(ch, room)
    case Body(k, data, flushed) => SendRaw(ch, k, data, flushed)
  }

  function DoAll(ch: Channel, acts: seq<Act>): Channel
    decreases acts
  {
    if acts == [] then ch else DoAll(Do(ch, acts[0]), acts[1..])
  }

  /** The slot is emptied before anything else is put into it. */
  predicate ClearedFirst(acts: seq<Act>)
    decreases acts
  {
    && acts != []
    && !acts[0].Send?
    && ((acts[0].Flush? && acts[0].room) || (acts[0].Body? && acts[0].flushed) || ClearedFirst(acts[1..]))
  }

  lemma {:induction false} DoAllConcat(ch: Channel, a: seq<Act>, b: seq<Act>)
    ensures DoAll(ch, a + b) == DoAll(DoAll(ch, a), b)
    decreases a
  {
    if a == [] {
      assert a + b == b;
    } else {
      assert (a + b)[1..] == a[1..] + b;
      DoAllConcat(Do(ch, a[0]), a[1..], b);
    }
  }

  /** `q` is not on the wire, and cannot be again: the slot is empty or holds something newer. */
  predicate Past(ch: Channel, q: Queued) {
    && (ch.slot.Some? ==> ch.slot.value != q)
    && (q.conn < ch.conn || (q.conn == ch.conn && q.k < |ch.out|))
  }

  lemma {:induction false} PastStays(ch: Channel, q: Queued, acts: seq<Act>)
    requires Past(ch, q)
    ensures Frame(q) in DoAll(ch, acts).wire <==> Frame(q) in ch.wire
    decreases acts
  {
    if acts != [] {
      PastStays(Do(ch, acts[0]), q, acts[1..]);
    }
  }

  /** The slot holds the newest reply, or one left by an earlier connection. */
  predicate Holding(ch: Channel) {
    ch.slot.Some? && (ch.slot.value.conn < ch.conn || (Mine(ch) && ch.slot.value.k < |ch.out|))
  }

  /** The reply in the slot, this connection's or one left by the last, reaches this connection's wire exactly when
      the slot is cleared before the next reply is queued. */
  lemma {:induction false} ReachesIff(ch: Channel, acts: seq<Act>)
    requires Holding(ch) && Frame(ch.slot.value) !in ch.wire
    ensures Frame(ch.slot.value) in DoAll(ch, acts).wire <==> ClearedFirst(acts)
    decreases acts
  {
    if acts != [] {
      var q, next := ch.slot.value, Do(ch, acts[0]);
      if next.slot == ch.slot {
        ReachesIff(next, acts[1..]);
      } else {
        assert Frame(q) in next.wire <==> !acts[0].Send?;
        PastStays(next, q, acts[1..]);
      }
    }
  }

  // ----- the frames on the wire -------------------------------------------

  /** The slot holds the newest reply, or one left by an earlier connection, and that is not on the wire yet. */
  lemma SlotHolds(ch: Channel)
    requires Accounted(ch) && ch.slot.Some?
    ensures Holding(ch) && Frame(ch.slot.value) !in ch.wire
  {
    if Mine(ch) {
      OnWireIff(ch, |ch.out| - 1);
    }
    hide Delivered, Kept;
  }

  /** No reply is framed twice. */
  lemma FramedOnce(ch: Channel, i: nat, j: nat)
    requires Accounted(ch) && i < |ch.wire| && j < |ch.wire| && ch.wire[i].Frame? && ch.wire[j].Frame?
    requires ch.wire[i].q.conn == ch.wire[j].q.conn == ch.conn && ch.wire[i].q.k == ch.wire[j].q.k
    ensures i == j
  {
    KeptAscends(Settled(ch), ch.lost);
    hide Kept;
    if i < j {
      AscendsOnce(ch.wire, ch.conn, i, j);
    } else if j < i {
      AscendsOnce(ch.wire, ch.conn, j, i);
    }
  }

  lemma {:induction false} AscendsOnce(wire: seq<Piece>, conn: nat, i: nat, j: nat)
    requires Ascends(Delivered(wire, conn))
    requires i < j < |wire| && wire[i].Frame? && wire[j].Frame? && wire[i].q.conn == wire[j].q.conn == conn
    ensures wire[i].q.k != wire[j].q.k
  {
    var n := |wire| - 1;
    var d, front := Delivered(wire, conn), Delivered(wire[..n], conn);
    assert front <= d;
    assert wire[..n][i] == wire[i];
    if j < n {
      assert wire[..n][j] == wire[j];
      AscendsOnce(wire[..n], conn, i, j);
    } else {
      DeliveredIff(wire[..n], conn, wire[i].q.k);
      var a :| 0 <= a < |front| && front[a] == wire[i].q.k;
      assert d == front + [wire[j].q.k];
      assert d[a] < d[|front|];
    }
  }
}
