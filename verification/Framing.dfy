/** The host command framing: parser, encoder, and a receiver that drains bulk payloads between commands. */
module Framing {
  import opened Bytes

  const STREAM: byte := 0x32
  const RENAME: byte := 0x83
  const UPLOAD: byte := 0x85
  const FIRMWARE: byte := 0xE0
  const NAME_MAX: nat := 64

  /** A parsed command: the bytes handed to its handler, and for a bulk command the payload length that follows. */
  datatype Command =
    | Binary(data: seq<byte>)
    | Stream(data: seq<byte>)
    | Bulk(data: seq<byte>, len: u32)

  datatype Parsed = Wait | Resync | Got(cmd: Command, used: nat)

  /** parseIncoming over the buffered bytes; `cap` is RX_BUF_SIZE. */
  function Parse(buf: seq<byte>, cap: nat): (r: Parsed)
    requires buf != []
    ensures r.Got? ==> 0 < r.used <= |buf|
  {
    if buf[0] == STREAM then
      if |buf| < 3 then Wait
      else
        var total := 3 + Get16(buf[1..3]);
        if total > cap then Resync
        else if |buf| < total then Wait
        else Got(Stream(buf[..total]), total)
    else if buf[0] < STREAM then
      var total := 1 + buf[0] as int;
      if |buf| < total then Wait else Got(Binary(buf[..total]), total)
    else if buf[0] == UPLOAD then
      if |buf| < 11 then Wait else Got(Bulk(buf[..11], Get32(buf[3..7])), 11)
    else if buf[0] == FIRMWARE then
      if |buf| < 9 then Wait else Got(Bulk(buf[..9], Get32(buf[1..5])), 9)
    else if buf[0] == RENAME then
      if |buf| < 4 then Wait
      else if buf[3] == 0 || buf[3] as int >= NAME_MAX then Resync
      else
        var total := 4 + buf[3] as int;
        if |buf| < total then Wait else Got(Binary([total] + buf[..total]), total)
    else Resync
  }

  // ----- what a host sends ------------------------------------------------

  datatype Frame =
    | BinaryFrame(body: seq<byte>)
    | StreamFrame(body: seq<byte>)
    | RenameFrame(idx: u16, name: seq<byte>)
    | UploadFrame(idx: u16, high: u32, payload: seq<byte>)
    | FirmwareFrame(high: u32, payload: seq<byte>)

  predicate WellFormed(f: Frame, cap: nat) {
    match f
    case BinaryFrame(body) => |body| < STREAM as nat
    case StreamFrame(body) => |body| < 0x1_0000 && 3 + |body| <= cap
    case RenameFrame(_, name) => 0 < |name| < NAME_MAX
    case UploadFrame(_, _, payload) => |payload| < TWO_TO_32
    case FirmwareFrame(_, payload) => |payload| < TWO_TO_32
  }

  /** The bytes up to a bulk payload; the whole of any other frame. */
  function Head(f: Frame, cap: nat): (s: seq<byte>)
    requires WellFormed(f, cap)
    ensures s != []
  {
    match f
    case BinaryFrame(body) => [|body|] + body
    case StreamFrame(body) => [STREAM] + Put16(|body|) + body
    case RenameFrame(idx, name) => [RENAME] + Put16(idx) + [|name|] + name
    case UploadFrame(idx, high, payload) => [UPLOAD] + Put16(idx) + Put32(|payload|) + Put32(high)
    case FirmwareFrame(high, payload) => [FIRMWARE] + Put32(|payload|) + Put32(high)
  }

  function Payload(f: Frame): seq<byte> {
    match f
    case UploadFrame(_, _, payload) => payload
    case FirmwareFrame(_, payload) => payload
    case _ => []
  }

  /** The command a frame means. A rename is handed on in binary layout, with a length byte in front. */
  function Meaning(f: Frame, cap: nat): Command
    requires WellFormed(f, cap)
  {
    match f
    case BinaryFrame(_) => Binary(Head(f, cap))
    case StreamFrame(_) => Stream(Head(f, cap))
    case RenameFrame(_, name) => Binary([4 + |name|] + Head(f, cap))
    case UploadFrame(_, _, payload) => Bulk(Head(f, cap), |payload|)
    case FirmwareFrame(_, payload) => Bulk(Head(f, cap), |payload|)
  }

  predicate AllWellFormed(fs: seq<Frame>, cap: nat) {
    forall f :: f in fs ==> WellFormed(f, cap)
  }

  function Encode(fs: seq<Frame>, cap: nat): seq<byte>
    requires AllWellFormed(fs, cap)
  {
    if fs == [] then [] else Head(fs[0], cap) + Payload(fs[0]) + Encode(fs[1..], cap)
  }

  // ----- one frame --------------------------------------------------------

  /** Fed any prefix of a frame and what follows it, the parser waits until the head is there and then takes
      exactly it. */
  lemma ParsesPrefix(f: Frame, cap: nat, rest: seq<byte>, buf: seq<byte>)
    requires WellFormed(f, cap) && buf != [] && buf <= Head(f, cap) + rest
    ensures Parse(buf, cap)
            == if |buf| < |Head(f, cap)| then Wait else Got(Meaning(f, cap), |Head(f, cap)|)
  {
    var h := Head(f, cap);
    var all := h + rest;
    assert buf[0] == all[0] == h[0];
    assert |buf| >= |h| ==> buf[..|h|] == h;
    match f
    case BinaryFrame(body) => { }
    case StreamFrame(body) =>
      if |buf| >= 3 {
        assert buf[1..3] == all[1..3] == Put16(|body|);
        Get16Put16(|body|);
      }
    case RenameFrame(idx, name) =>
      if |buf| >= 4 {
        assert buf[3] == all[3] == |name|;
      }
    case UploadFrame(idx, high, payload) =>
      if |buf| >= 11 {
        assert buf[3..7] == all[3..7] == Put32(|payload|);
        Get32Put32(|payload|);
      }
    case FirmwareFrame(high, payload) =>
      if |buf| >= 9 {
        assert buf[1..5] == all[1..5] == Put32(|payload|);
        Get32Put32(|payload|);
      }
  }

  /** Whatever it holds, a full buffer never just waits: the longest frame fits it. */
  lemma FullBufferProgresses(buf: seq<byte>, cap: nat)
    requires |buf| == cap >= 4 + NAME_MAX
    ensures Parse(buf, cap) != Wait
  {
  }

  // ----- the receiver -----------------------------------------------------

  /** Bytes still to come, rx_buf_, the pending command with the payload read so far, and what was delivered. */
  datatype Link = Link(wire: seq<byte>, buf: seq<byte>, ready: Option<Command>, read: seq<byte>,
                       done: seq<Delivery>)

  datatype Delivery = Delivery(cmd: Command, payload: seq<byte>)

  /** Take what has arrived, as far as the buffer has room. */
  function TopUp(s: Link, arrived: nat, cap: nat): (r: Link)
    requires |s.buf| <= cap
    ensures r.buf + r.wire == s.buf + s.wire && |r.buf| <= cap && s.buf <= r.buf
    ensures r == s.(buf := r.buf, wire := r.wire)
  {
    var n := Min(Min(arrived, cap - |s.buf|), |s.wire|);
    assert s.wire == s.wire[..n] + s.wire[n..];
    s.(buf := s.buf + s.wire[..n], wire := s.wire[n..])
  }

  /** serviceUsb: nothing while a command is pending. */
  function Service(s: Link, arrived: nat, cap: nat): Link
    requires |s.buf| <= cap
  {
    if s.ready.Some? then s
    else
      var t := TopUp(s, arrived, cap);
      if t.buf == [] then t
      else
        match Parse(t.buf, cap)
        case Wait => t
        case Resync => t.(buf := [])
        case Got(cmd, used) => t.(buf := t.buf[used..], ready := Some(cmd))
  }

  function Remaining(s: Link): int {
    if s.ready.Some? && s.ready.value.Bulk? then s.ready.value.len as int - |s.read| else 0
  }

  /** readBulkBytes for the pending bulk command, never past its payload. */
  function ReadBulk(s: Link, want: nat, arrived: nat, cap: nat): Link
    requires |s.buf| <= cap
  {
    if Remaining(s) <= 0 then s
    else
      var t := TopUp(s, arrived, cap);
      var n := Min(Min(want, Remaining(s)), |t.buf|);
      t.(buf := t.buf[n..], read := t.read + t.buf[..n])
  }

  /** commandConsumed, once a bulk payload is through. */
  function Consume(s: Link): Link {
    if s.ready.None? || Remaining(s) != 0 then s
    else s.(ready := None, read := [], done := s.done + [Delivery(s.ready.value, s.read)])
  }

  datatype Event = EvService(arrived: nat) | EvRead(want: nat, more: nat) | EvConsume

  function Step(s: Link, e: Event, cap: nat): (r: Link)
    requires |s.buf| <= cap
    ensures |r.buf| <= cap
  {
    match e
    case EvService(arrived) => Service(s, arrived, cap)
    case EvRead(want, arrived) => ReadBulk(s, want, arrived, cap)
    case EvConsume => Consume(s)
  }

  function Run(s: Link, es: seq<Event>, cap: nat): (r: Link)
    requires |s.buf| <= cap
    ensures |r.buf| <= cap
  {
    if es == [] then s else Step(Run(s, es[..|es| - 1], cap), es[|es| - 1], cap)
  }

  function Delivered(fs: seq<Frame>, cap: nat): (ds: seq<Delivery>)
    requires AllWellFormed(fs, cap)
    ensures |ds| == |fs|
  {
    seq(|fs|, i requires 0 <= i < |fs| => Delivery(Meaning(fs[i], cap), Payload(fs[i])))
  }

  /** Where the receiver stands in the stream: `k` frames delivered, the rest still ahead of it. */
  predicate At(s: Link, fs: seq<Frame>, cap: nat, k: nat)
    requires AllWellFormed(fs, cap)
  {
    && k <= |fs| && |s.buf| <= cap
    && s.done == Delivered(fs, cap)[..k]
    && if s.ready.None? then s.read == [] && s.buf + s.wire == Encode(fs[k..], cap)
       else
         && k < |fs| && s.ready == Some(Meaning(fs[k], cap))
         && s.read + (s.buf + s.wire) == Payload(fs[k]) + Encode(fs[k + 1..], cap)
         && |s.read| <= |Payload(fs[k])|
  }

  lemma EncodeFront(fs: seq<Frame>, cap: nat, k: nat)
    requires AllWellFormed(fs, cap) && k < |fs|
    ensures Encode(fs[k..], cap) == Head(fs[k], cap) + (Payload(fs[k]) + Encode(fs[k + 1..], cap))
  {
    hide Head, Payload;
    assert fs[k..][1..] == fs[k + 1..];
  }

  lemma ServiceKeeps(s: Link, fs: seq<Frame>, cap: nat, k: nat, arrived: nat)
    requires AllWellFormed(fs, cap) && At(s, fs, cap, k)
    ensures At(Service(s, arrived, cap), fs, cap, k)
  {
    if s.ready.None? {
      hide Parse, Head, Meaning, Payload, Delivered;
      var t := TopUp(s, arrived, cap);
      if t.buf != [] && k < |fs| {
        var f := fs[k];
        var rest := Payload(f) + Encode(fs[k + 1..], cap);
        EncodeFront(fs, cap, k);
        hide Encode;
        ParsesPrefix(f, cap, rest, t.buf);
        if |t.buf| >= |Head(f, cap)| {
          DropHead(t.buf, t.wire, Head(f, cap), rest);
        }
      }
    }
  }

  lemma DropHead(buf: seq<byte>, wire: seq<byte>, head: seq<byte>, rest: seq<byte>)
    requires buf + wire == head + rest && |buf| >= |head|
    ensures buf[|head|..] + wire == rest
  {
    assert (buf + wire)[|head|..] == rest;
  }

  lemma ReadShifts(read: seq<byte>, buf: seq<byte>, wire: seq<byte>, n: nat)
    requires n <= |buf|
    ensures (read + buf[..n]) + (buf[n..] + wire) == read + (buf + wire)
  {
    assert buf == buf[..n] + buf[n..];
  }

  lemma ReadKeeps(s: Link, fs: seq<Frame>, cap: nat, k: nat, want: nat, arrived: nat)
    requires AllWellFormed(fs, cap) && At(s, fs, cap, k)
    ensures At(ReadBulk(s, want, arrived, cap), fs, cap, k)
  {
    if Remaining(s) > 0 {
      hide Head, Meaning, Payload, Encode, Delivered, TopUp, AllWellFormed;
      var t := TopUp(s, arrived, cap);
      var n := Min(Min(want, Remaining(s)), |t.buf|);
      BulkLength(fs[k], cap);
      ReadShifts(s.read, t.buf, t.wire, n);
    }
  }

  lemma BulkLength(f: Frame, cap: nat)
    requires WellFormed(f, cap)
    ensures Meaning(f, cap).Bulk? ==> Meaning(f, cap).len as int == |Payload(f)|
  {
  }

  lemma ConsumeKeeps(s: Link, fs: seq<Frame>, cap: nat, k: nat)
    requires AllWellFormed(fs, cap) && At(s, fs, cap, k)
    ensures At(Consume(s), fs, cap, if s.ready.Some? && Remaining(s) == 0 then k + 1 else k)
  {
    hide Encode, Head, Meaning, Payload, Delivered;
    if s.ready.Some? && Remaining(s) == 0 {
      var f := fs[k];
      PayloadLength(f, cap, s.read);
      SameFront(s.read, s.buf + s.wire, Payload(f), Encode(fs[k + 1..], cap));
      DeliveredNext(fs, cap, k);
    }
  }

  lemma SameFront(a: seq<byte>, b: seq<byte>, c: seq<byte>, d: seq<byte>)
    requires a + b == c + d && |a| == |c|
    ensures a == c && b == d
  {
    assert (a + b)[..|a|] == a && (c + d)[..|c|] == c;
    assert (a + b)[|a|..] == b && (c + d)[|c|..] == d;
  }

  lemma DeliveredNext(fs: seq<Frame>, cap: nat, k: nat)
    requires AllWellFormed(fs, cap) && k < |fs|
    ensures |Delivered(fs, cap)| == |fs|
    ensures Delivered(fs, cap)[..k + 1] == Delivered(fs, cap)[..k] + [Delivery(Meaning(fs[k], cap), Payload(fs[k]))]
  {
    hide Meaning, Payload;
  }

  lemma PayloadLength(f: Frame, cap: nat, read: seq<byte>)
    requires WellFormed(f, cap) && |read| <= |Payload(f)|
    requires var c := Meaning(f, cap); (if c.Bulk? then c.len as int - |read| else 0) == 0
    ensures |read| == |Payload(f)|
  {
  }

  // ----- runs -------------------------------------------------------------

  function Start(fs: seq<Frame>, cap: nat): Link
    requires AllWellFormed(fs, cap)
  {
    Link(Encode(fs, cap), [], None, [], [])
  }

  lemma {:induction false} RunStays(fs: seq<Frame>, es: seq<Event>, cap: nat) returns (k: nat)
    requires AllWellFormed(fs, cap)
    ensures At(Run(Start(fs, cap), es, cap), fs, cap, k)
  {
    if es == [] {
      k := 0;
      assert fs[0..] == fs;
      hide Encode, Delivered;
    } else {
      var n := |es| - 1;
      k := RunStays(fs, es[..n], cap);
      hide At, Service, ReadBulk, Consume, Encode;
      var s := Run(Start(fs, cap), es[..n], cap);
      match es[n]
      case EvService(arrived) => ServiceKeeps(s, fs, cap, k, arrived);
      case EvRead(want, arrived) => ReadKeeps(s, fs, cap, k, want, arrived);
      case EvConsume => ConsumeKeeps(s, fs, cap, k); k := if s.ready.Some? && Remaining(s) == 0 then k + 1 else k;
    }
  }

  /** However the bytes are cut up and whenever service, reads and consumption happen, what has been delivered is
      the front of what was sent, and nothing is skipped: a receiver with nothing left has delivered it all. */
  lemma DeliversInOrder(fs: seq<Frame>, es: seq<Event>, cap: nat)
    requires AllWellFormed(fs, cap)
    ensures var s := Run(Start(fs, cap), es, cap);
            && s.done <= Delivered(fs, cap)
            && (s.ready.None? && s.buf == [] && s.wire == [] ==> s.done == Delivered(fs, cap))
  {
    var k := RunStays(fs, es, cap);
    hide Run, Head, Delivered;
    if k < |fs| {
      EncodeFront(fs, cap, k);
    }
  }

  /** So two runs over one stream never disagree. */
  lemma ChunkIndependent(fs: seq<Frame>, es: seq<Event>, other: seq<Event>, cap: nat)
    requires AllWellFormed(fs, cap)
    ensures var s, t := Run(Start(fs, cap), es, cap), Run(Start(fs, cap), other, cap);
            s.done <= t.done || t.done <= s.done
  {
    DeliversInOrder(fs, es, cap);
    DeliversInOrder(fs, other, cap);
    hide Run, Delivered, Start;
    var s, t, all := Run(Start(fs, cap), es, cap).done, Run(Start(fs, cap), other, cap).done, Delivered(fs, cap);
    if |s| <= |t| {
      assert t[..|s|] == all[..|s|] == s;
    } else {
      assert s[..|t|] == all[..|t|] == t;
    }
  }

  lemma HeadFits(f: Frame, cap: nat)
    requires WellFormed(f, cap) && cap >= 4 + NAME_MAX
    ensures |Head(f, cap)| <= cap
  {
  }

  /** Once its bytes have arrived, one service call parses the next command; every read of a pending payload makes
      progress. */
  lemma NextArrives(s: Link, fs: seq<Frame>, cap: nat, k: nat, want: nat)
    requires AllWellFormed(fs, cap) && At(s, fs, cap, k) && cap >= 4 + NAME_MAX && want > 0
    ensures s.ready.None? && k < |fs| ==> Service(s, |s.wire|, cap).ready == Some(Meaning(fs[k], cap))
    ensures Remaining(s) > 0 ==> Remaining(ReadBulk(s, want, |s.wire|, cap)) < Remaining(s)
  {
    hide Encode, Head, Meaning, Parse, Delivered, Payload;
    if s.ready.None? && k < |fs| {
      EncodeFront(fs, cap, k);
      HeadFits(fs[k], cap);
      HeadArrives(s, fs[k], cap, Payload(fs[k]) + Encode(fs[k + 1..], cap));
    }
    if Remaining(s) > 0 {
      PayloadWaits(s, fs, cap, k);
    }
  }

  /** With everything there, a service call has the whole head in its buffer. */
  lemma HeadArrives(s: Link, f: Frame, cap: nat, rest: seq<byte>)
    requires WellFormed(f, cap) && |Head(f, cap)| <= cap && |s.buf| <= cap && s.ready.None?
    requires s.buf + s.wire == Head(f, cap) + rest
    ensures Service(s, |s.wire|, cap).ready == Some(Meaning(f, cap))
  {
    HeadIsLong(f, cap);
    hide Head, Meaning, Parse;
    var t := TopUp(s, |s.wire|, cap);
    assert t.buf <= s.buf + s.wire;
    ParsesPrefix(f, cap, rest, t.buf);
  }

  lemma HeadIsLong(f: Frame, cap: nat)
    requires WellFormed(f, cap)
    ensures |Head(f, cap)| > 0
  {
  }

  /** While payload bytes are owed, some are in the buffer or on the wire. */
  lemma PayloadWaits(s: Link, fs: seq<Frame>, cap: nat, k: nat)
    requires AllWellFormed(fs, cap) && At(s, fs, cap, k) && Remaining(s) > 0
    ensures |s.buf| + |s.wire| > 0
  {
    hide Encode, Head, Meaning, Delivered, Payload;
    MeaningLength(fs[k], cap);
    SameLength(s.read, s.buf + s.wire, Payload(fs[k]), Encode(fs[k + 1..], cap));
  }

  lemma SameLength(a: seq<byte>, b: seq<byte>, c: seq<byte>, d: seq<byte>)
    requires a + b == c + d
    ensures |a| + |b| == |c| + |d|
  {
    assert |a + b| == |c + d|;
  }

  lemma MeaningLength(f: Frame, cap: nat)
    requires WellFormed(f, cap)
    ensures Meaning(f, cap).Bulk? ==> Meaning(f, cap).len as int == |Payload(f)|
  {
  }
}
