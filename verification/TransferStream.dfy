/** From the bytes a host sends to the replies it is owed: framing, dispatch and payloads joined over whole runs. */
module TransferStream {
  import opened Bytes
  import opened PatternIndex
  import opened Sources
  import opened RawBodies
  import opened Transfers
  import opened TransferProofs
  import opened TransferReplies
  import TransferBodies
  import Archive
  import Framing
  import Zip

  // ----- what a frame asks for --------------------------------------------

  /** A binary command by its opcode and length, as the handlers read them. */
  function BinaryMeans(data: seq<byte>): Command
    requires |data| >= 2
  {
    var idx := if |data| >= 4 then Get16(data[2..4]) else 0;
    if data[1] == 0x84 then GetFile(idx, |data| == 4)
    else if data[1] == 0x86 then Delete(idx, |data| == 4)
    else if data[1] == 0x83 then Rename(idx, |data| >= 5 && 0 < data[4] as int < Framing.NAME_MAX && |data| >= 5 + data[4] as int)
    else if data[1] == 0x8F then Purge
    else if data[1] == 0x8A then GetArchive
    else Other(data[1])
  }

  function Means(c: Framing.Command): Command {
    match c
    case Binary(data) => if |data| >= 2 then BinaryMeans(data) else Other(0)
    case Stream(_) => Other(Framing.STREAM)
    case Bulk(data, len) =>
      if |data| >= 3 && data[0] == Framing.UPLOAD then PutFile(Get16(data[1..3]), len) else PutFirmware(len)
  }

  /** The frames a host sends, each with an opcode, and the size of the receive buffer. */
  datatype Script = Script(frames: seq<Framing.Frame>, cap: nat)

  type Host = h: Script | Framing.AllWellFormed(h.frames, h.cap)
                          && forall f :: f in h.frames && f.BinaryFrame? ==> f.body != []
    witness Script([], 0)

  function Asked(h: Host, k: nat): Command
    requires k < |h.frames|
  {
    Means(Framing.Meaning(h.frames[k], h.cap))
  }

  function Sent(h: Host, k: nat): seq<byte>
    requires k < |h.frames|
  {
    Framing.Payload(h.frames[k])
  }

  function Code(cmd: Command): byte {
    match cmd
    case GetFile(_, _) => 0x84
    case PutFile(_, _) => 0x85
    case PutFirmware(_) => 0xE0
    case Delete(_, _) => 0x86
    case Rename(_, _) => 0x83
    case Purge => 0x8F
    case GetArchive => 0x8A
    case Other(code) => code
  }

  /** The frames from `k` on, as bytes. */
  function Rest(h: Host, k: nat): seq<byte>
    requires k <= |h.frames|
  {
    Framing.Encode(h.frames[k..], h.cap)
  }

  /** Only bulk commands carry a payload, and they announce its length. */
  lemma PayloadIs(h: Host, k: nat)
    requires k < |h.frames|
    ensures match Asked(h, k)
            case PutFile(_, len) => len as int == |Sent(h, k)|
            case PutFirmware(len) => len as int == |Sent(h, k)|
            case _ => Sent(h, k) == []
  {
    assert Framing.WellFormed(h.frames[k], h.cap);
  }

  // ----- parsing ----------------------------------------------------------

  /** One parse over the `n` bytes in the receive buffer. */
  function Attempt(src: Source, n: nat, cap: nat): Parsed
    requires src.pos + n <= |src.input|
  {
    var buf := src.input[src.pos..src.pos + n];
    if buf == [] then Parsed(None, 0)
    else
      match Framing.Parse(buf, cap)
      case Wait => Parsed(None, 0)
      case Resync => Parsed(None, n)
      case Got(cmd, used) => Parsed(Some(Means(cmd)), used)
  }

  /** `p` is what the parser makes of some front of the bytes still to come. */
  predicate Attempted(src: Source, p: Parsed, cap: nat) {
    src.pos <= |src.input| && exists n: nat :: n <= |src.input| - src.pos && p == Attempt(src, n, cap)
  }

  // ----- in step with the host --------------------------------------------

  function UploadOn(s: System, side: Side): Option<Upload> {
    if s.ul.Some? && s.ul.value.side == side then s.ul else None
  }

  /** `src` stands where frame `src.parsed` starts; or the frame before that is pending, and its payload starts where
      the source, or the upload it became, does. */
  predicate InStep(src: Source, up: Option<Upload>, h: Host) {
    && src.parsed <= |h.frames| && src.pos <= |src.input|
    && if src.cmd.None? then src.input[src.pos..] == Rest(h, src.parsed)
       else
         var at := if up.Some? then up.value.start else src.pos;
         && src.parsed > 0 && at <= |src.input|
         && src.cmd.value == Asked(h, src.parsed - 1)
         && src.input[at..] == Sent(h, src.parsed - 1) + Rest(h, src.parsed)
         && (up.Some? ==> Asked(h, src.parsed - 1).PutFile? && up.value.total as int == |Sent(h, src.parsed - 1)|)
  }

  /** A reply that frame `k` may get: its opcode echoed; a file or archive only where one was asked for; status 0 to an
      upload for a file that is the frame's payload, to a firmware image with the payload's CRC-32. */
  predicate Answers(h: Host, k: nat, item: Item)
    requires k < |h.frames|
  {
    match item
    case Reply(cmd, _) => cmd == Code(Asked(h, k))
    case FileHeader(_, _) => Asked(h, k).GetFile?
    case ZipHeader(_, _) => Asked(h, k) == GetArchive
    case Stored(data, _, _) => Asked(h, k).PutFile? && data == Sent(h, k)
    case Image(crc, _, _) => Asked(h, k).PutFirmware? && crc == Zip.Crc(Sent(h, k))
  }

  /** Reply `k` answers frame `k`. */
  predicate AllAnswered(src: Source, h: Host) {
    forall k :: 0 <= k < |src.ch.out| && k < |h.frames| ==> Answers(h, k, src.ch.out[k])
  }

  predicate Serves(s: System, side: Side, h: Host) {
    InStep(Src(s, side), UploadOn(s, side), h) && AllAnswered(Src(s, side), h)
  }

  lemma NextFrame(src: Source, h: Host, k: nat)
    requires k < |h.frames|
    ensures Rest(h, k) == Framing.Head(h.frames[k], h.cap) + (Sent(h, k) + Rest(h, k + 1))
  {
    hide Framing.Head, Framing.Payload;
    Framing.EncodeFront(h.frames, h.cap, k);
  }

  lemma Prefix(x: seq<byte>, pos: nat, n: nat)
    requires pos + n <= |x|
    ensures x[pos..pos + n] <= x[pos..] && x[pos..][n..] == x[pos + n..]
  {
  }

  lemma HeadCut(head: seq<byte>, rest: seq<byte>)
    ensures (head + rest)[|head|..] == rest
  {
  }

  function HeadOf(h: Host, k: nat): (r: seq<byte>)
    requires k < |h.frames|
    ensures r != []
  {
    Framing.Head(h.frames[k], h.cap)
  }

  /** An attempt waits, or finds exactly the next frame's head. */
  lemma AttemptIs(src: Source, h: Host, k: nat, n: nat)
    requires k <= |h.frames| && src.pos + n <= |src.input| && src.input[src.pos..] == Rest(h, k)
    ensures Attempt(src, n, h.cap)
            == if k < |h.frames| && n >= |HeadOf(h, k)| then Parsed(Some(Asked(h, k)), |HeadOf(h, k)|) else Parsed(None, 0)
  {
    hide Framing.Head, Framing.Payload, Framing.Meaning, Framing.Parse, Means, Rest;
    var buf := src.input[src.pos..src.pos + n];
    Prefix(src.input, src.pos, n);
    if buf != [] {
      if k < |h.frames| {
        NextFrame(src, h, k);
        Framing.ParsesPrefix(h.frames[k], h.cap, Sent(h, k) + Rest(h, k + 1), buf);
      } else {
        NoFrame(h);
      }
    }
  }

  /** A parse takes the next frame's head, once it is there, and nothing else. */
  lemma ParseInStep(src: Source, h: Host, p: Parsed)
    requires InStep(src, None, h) && src.cmd.None? && Attempted(src, p, h.cap)
    ensures InStep(ParseIncoming(src, p), None, h)
  {
    hide Attempt, HeadOf, Rest, Asked, Sent;
    var n: nat :| n <= |src.input| - src.pos && p == Attempt(src, n, h.cap);
    var k := src.parsed;
    AttemptIs(src, h, k, n);
    if p.cmd.Some? {
      var head := HeadOf(h, k);
      NextHead(src, h, k);
      Prefix(src.input, src.pos, |head|);
      HeadCut(head, Sent(h, k) + Rest(h, k + 1));
    }
  }

  lemma NextHead(src: Source, h: Host, k: nat)
    requires k < |h.frames|
    ensures Rest(h, k) == HeadOf(h, k) + (Sent(h, k) + Rest(h, k + 1))
  {
    NextFrame(src, h, k);
    hide Rest, Sent, Framing.Head;
  }

  lemma NoFrame(h: Host)
    ensures Rest(h, |h.frames|) == []
  {
  }

  // ----- dispatch ---------------------------------------------------------

  /** A handler reads at most payload: where it leaves the source and the upload. */
  predicate Moves(s: System, side: Side, cmd: Command, c: Choice, r: System, pending: bool) {
    var was, now := Src(s, side), Src(r, side);
    && now == was.(pos := now.pos, ch := now.ch)
    && UploadOn(r, Peer(side)).Some? == UploadOn(s, Peer(side)).Some?
    && (UploadOn(s, Peer(side)).Some? ==>
          r.ul.Some? && r.ul.value.start == s.ul.value.start && r.ul.value.total == s.ul.value.total)
    && if pending then
         cmd.PutFile? && now.pos == was.pos && r.ul.Some? && r.ul.value.side == side && r.ul.value.start == was.pos
         && r.ul.value.total == cmd.len
       else
         && UploadOn(r, side).Some? == UploadOn(s, side).Some?
         && match cmd
            case PutFile(_, len) => now.pos == was.pos + if len == 0 then 0 else Arrivals(was, c.drained, len)
            case PutFirmware(len) =>
              if FirmwareTaken(s, c) then
                var b := BurnOf(s, side, len, c);
                now.pos == b.pos + if b.ok then 0 else Arrivals(was.(pos := b.pos), c.drained, b.remaining)
              else now.pos == was.pos + Arrivals(was, c.drained, len)
            case _ => now.pos == was.pos
  }

  lemma TellMoves(s: System, side: Side, item: Item)
    ensures var r := Tell(s, side, item);
            r.ul == s.ul && Src(r, side) == Src(s, side).(ch := Src(r, side).ch)
  {
  }

  lemma RejectMoves(s: System, side: Side, len: u32, drained: nat, item: Item)
    ensures var r := Tell(Drain(s, side, len, drained), side, item);
            && r.ul == s.ul
            && Src(r, side) == Src(s, side).(pos := Src(s, side).pos + Arrivals(Src(s, side), drained, len), ch := Src(r, side).ch)
  {
    hide Arrivals, SendResponse;
  }

  lemma PutFileMoves(s: System, side: Side, idx: u16, len: u32, c: Choice)
    ensures var (r, pending) := DoPutFile(s, side, idx, len, c); Moves(s, side, PutFile(idx, len), c, r, pending)
  {
    hide Tell, Drain, Arrivals;
    TellMoves(s, side, Reply(0x85, 1));
    RejectMoves(s, side, len, c.drained, Reply(0x85, CE_DISPLAY_ACTIVE));
    RejectMoves(s, side, len, c.drained, Reply(0x85, 1));
    if PutFileFree(s, idx) {
      RejectMoves(s.(card := s.card - {FileOf(s.patterns, idx)}), side, len, c.drained, Reply(0x85, 1));
    }
  }

  lemma PutFirmwareMoves(s: System, side: Side, len: u32, c: Choice)
    ensures Moves(s, side, PutFirmware(len), c, DoPutFirmware(s, side, len, c), false)
  {
    hide Tell, Drain, Arrivals, BurnFrom, Zip.Crc;
    RejectMoves(s, side, len, c.drained, Reply(0xE0, CE_DISPLAY_ACTIVE));
    RejectMoves(s, side, len, c.drained, Reply(0xE0, 1));
    RejectMoves(s.(image := None), side, len, c.drained, Reply(0xE0, 1));
    var src := Src(s, side);
    var b := BurnOf(s, side, len, c);
    var read := With(s, side, src.(pos := b.pos));
    RejectMoves(read.(image := None), side, b.remaining, c.drained, Reply(0xE0, 1));
    TellMoves(read.(image := Some(b.image)), side, Image(Zip.Crc(b.image), src.pos, len));
  }

  lemma DeleteMoves(s: System, side: Side, idx: u16, lengthOk: bool, c: Choice)
    ensures Moves(s, side, Delete(idx, lengthOk), c, DoDelete(s, side, idx, lengthOk, c), false)
  {
    hide SendResponse, Remove, Busy, Shifted;
  }

  lemma HandleMoves(s: System, side: Side, cmd: Command, c: Choice)
    ensures var (r, pending) := Handle(s, side, cmd, c); Moves(s, side, cmd, c, r, pending)
  {
    match cmd
    case PutFile(idx, len) => PutFileMoves(s, side, idx, len, c);
    case PutFirmware(len) => PutFirmwareMoves(s, side, len, c);
    case Delete(idx, ok) => DeleteMoves(s, side, idx, ok, c);
    case _ => OtherMoves(s, side, cmd, c);
    hide Moves, DoPutFile, DoPutFirmware, DoDelete, DoGetFile, DoRename, DoPurge, DoGetArchive;
  }

  lemma OtherMoves(s: System, side: Side, cmd: Command, c: Choice)
    requires !cmd.PutFile? && !cmd.PutFirmware? && !cmd.Delete?
    ensures var (r, pending) := Handle(s, side, cmd, c); Moves(s, side, cmd, c, r, pending)
  {
    hide SendResponse, PatternIndex.Rename, Transfers.Moved, IndexOf, OpenFile, Armed, DoPutFile, DoPutFirmware,
         DoDelete;
  }

  /** The reply a handler queues echoes its command, or is a header or a result of the kind asked for. */
  predicate Echoes(s: System, side: Side, cmd: Command, item: Item) {
    match item
    case Reply(code, _) => code == Code(cmd)
    case FileHeader(_, _) => cmd.GetFile?
    case ZipHeader(_, _) => cmd == GetArchive
    case Stored(_, _, _) => false
    case Image(_, start, total) => cmd.PutFirmware? && start == Src(s, side).pos && total == cmd.len
  }

  predicate Queues(s: System, side: Side, cmd: Command, r: System) {
    Echoes(s, side, cmd, Newest(Src(r, side).ch))
  }

  lemma TellQueues(s: System, side: Side, item: Item)
    ensures Newest(Src(Tell(s, side, item), side).ch) == item
  {
  }

  lemma PutFileQueues(s: System, side: Side, idx: u16, len: u32, c: Choice)
    ensures var (r, pending) := DoPutFile(s, side, idx, len, c); !pending ==> Queues(s, side, PutFile(idx, len), r)
  {
    hide Tell, Drain, Newest;
    TellQueues(s, side, Reply(0x85, 1));
    TellQueues(Drain(s, side, len, c.drained), side, Reply(0x85, CE_DISPLAY_ACTIVE));
    TellQueues(Drain(s, side, len, c.drained), side, Reply(0x85, 1));
    if PutFileFree(s, idx) {
      TellQueues(Drain(s.(card := s.card - {FileOf(s.patterns, idx)}), side, len, c.drained), side, Reply(0x85, 1));
    }
  }

  lemma PutFirmwareQueues(s: System, side: Side, len: u32, c: Choice)
    ensures Queues(s, side, PutFirmware(len), DoPutFirmware(s, side, len, c))
  {
    hide Tell, Drain, Newest, BurnFrom, Zip.Crc;
    var src := Src(s, side);
    var b := BurnOf(s, side, len, c);
    var read := With(s, side, src.(pos := b.pos));
    TellQueues(Drain(s, side, len, c.drained), side, Reply(0xE0, CE_DISPLAY_ACTIVE));
    TellQueues(Drain(s, side, len, c.drained), side, Reply(0xE0, 1));
    TellQueues(Drain(s.(image := None), side, len, c.drained), side, Reply(0xE0, 1));
    TellQueues(Drain(read.(image := None), side, b.remaining, c.drained), side, Reply(0xE0, 1));
    TellQueues(read.(image := Some(b.image)), side, Image(Zip.Crc(b.image), src.pos, len));
  }

  lemma HandleQueues(s: System, side: Side, cmd: Command, c: Choice)
    ensures var (r, pending) := Handle(s, side, cmd, c); !pending ==> Queues(s, side, cmd, r)
  {
    match cmd
    case PutFile(idx, len) => PutFileQueues(s, side, idx, len, c);
    case PutFirmware(len) => PutFirmwareQueues(s, side, len, c);
    case Delete(idx, ok) => DeleteQueues(s, side, idx, ok, c);
    case _ => OtherQueues(s, side, cmd, c);
    hide Queues, DoPutFile, DoPutFirmware, DoDelete, DoGetFile, DoRename, DoPurge, DoGetArchive;
  }

  lemma DeleteQueues(s: System, side: Side, idx: u16, lengthOk: bool, c: Choice)
    ensures Queues(s, side, Delete(idx, lengthOk), DoDelete(s, side, idx, lengthOk, c))
  {
    hide Tell, Newest, Dropped, Corrected, Busy;
    TellQueues(s, side, Reply(0x86, 1));
    TellQueues(s, side, Reply(0x86, CE_SD_NOT_PRESENT));
    TellQueues(s, side, Reply(0x86, CE_BAD_PARAM));
    if c.removal.NotRemoved? {
      TellQueues(s, side, Reply(0x86, c.removal.err));
    } else if idx <= |s.patterns| {
      TellQueues(Dropped(s, idx), side, Reply(0x86, CE_MANIFEST_WRITE_ERROR));
      TellQueues(Corrected(Dropped(s, idx), idx), side, Reply(0x86, 0));
    }
  }

  lemma OtherQueues(s: System, side: Side, cmd: Command, c: Choice)
    requires !cmd.PutFile? && !cmd.PutFirmware? && !cmd.Delete?
    ensures var (r, pending) := Handle(s, side, cmd, c); Queues(s, side, cmd, r)
  {
    hide DoPutFile, DoPutFirmware, DoDelete, DoRename, DoPurge, DoGetFile, DoGetArchive, Queues, Tell;
    match cmd
    case GetFile(idx, ok) => GetFileQueues(s, side, idx, ok, c);
    case Rename(idx, ok) => RenameQueues(s, side, idx, ok, c);
    case Purge => PurgeQueues(s, side, c);
    case GetArchive => GetArchiveQueues(s, side, c);
    case Other(code) => StatusQueues(s, side, cmd, code, c.status);
  }

  lemma StatusQueues(s: System, side: Side, cmd: Command, code: byte, status: byte)
    requires code == Code(cmd)
    ensures Queues(s, side, cmd, Tell(s, side, Reply(code, status)))
  {
    hide Tell, Newest;
    TellQueues(s, side, Reply(code, status));
  }

  lemma GetFileQueues(s: System, side: Side, idx: u16, ok: bool, c: Choice)
    ensures Queues(s, side, GetFile(idx, ok), DoGetFile(s, side, idx, ok, c))
  {
    hide Tell, Newest, GetFileFree;
    TellQueues(s, side, Reply(0x84, 1));
    TellQueues(s, side, Reply(0x84, CE_DISPLAY_ACTIVE));
    if GetFileFree(s, idx, ok) {
      FileIsThere(s, idx, ok);
      var d := OpenFile(s, side, idx);
      TellQueues(s, side, FileHeader(d.remaining, d.content));
      ArmedQueues(Tell(s, side, FileHeader(d.remaining, d.content)), side, Some(d));
    }
  }

  lemma FileIsThere(s: System, idx: u16, ok: bool)
    requires GetFileFree(s, idx, ok)
    ensures 0 < idx <= |s.patterns| && s.patterns[idx - 1].name in s.card
  {
  }

  lemma ArmedQueues(s: System, side: Side, dl: Option<Download>)
    ensures Src(s.(dl := dl), side) == Src(s, side)
  {
  }

  lemma RenameQueues(s: System, side: Side, idx: u16, ok: bool, c: Choice)
    ensures Queues(s, side, Rename(idx, ok), DoRename(s, side, idx, ok, c))
  {
    hide PatternIndex.Rename, Transfers.Moved, IndexOf, Quiet;
  }

  lemma PurgeQueues(s: System, side: Side, c: Choice)
    ensures Queues(s, side, Purge, DoPurge(s, side, c))
  {
    hide Quiet;
  }

  lemma GetArchiveQueues(s: System, side: Side, c: Choice)
    ensures Queues(s, side, GetArchive, DoGetArchive(s, side, c))
  {
    hide Armed, Archive.Promise;
  }

  // ----- a payload read to its end ----------------------------------------

  /** A bulk payload that is refused, or whose card fails, is read to its end and no further. A firmware chunk whose
      write failed was read without being counted. */
  predicate ReadsOut(s: System, side: Side, c: Choice) {
    Dispatched(s, side) ==>
      match Src(s, side).cmd.value
      case PutFile(idx, len) => DoPutFile(s, side, idx, len, c).1 || c.drained >= len as nat
      case PutFirmware(len) =>
        if FirmwareTaken(s, c) then
          var b := BurnOf(s, side, len, c);
          b.uncounted + Arrivals(Src(s, side).(pos := b.pos), c.drained, b.remaining) == b.remaining as nat
        else c.drained >= len as nat
      case _ => true
  }

  lemma ArrivalsAre(src: Source, drained: nat, len: nat)
    requires src.pos + len <= |src.input|
    ensures Arrivals(src, drained, len) == Min(drained, len)
  {
  }

  /** The payload's bytes, and where the next frame starts. */
  lemma PayloadAt(input: seq<byte>, at: nat, payload: seq<byte>, rest: seq<byte>)
    requires at <= |input| && input[at..] == payload + rest
    ensures at + |payload| <= |input|
    ensures input[at..at + |payload|] == payload && input[at + |payload|..] == rest
  {
    assert |input| - at == |payload| + |rest|;
    assert input[at..at + |payload|] == (payload + rest)[..|payload|];
    assert input[at + |payload|..] == (payload + rest)[|payload|..];
  }

  /** Where a firmware upload is over. */
  lemma FirmwareReadsOut(s: System, side: Side, len: u32, c: Choice)
    requires Src(s, side).pos + len as nat <= |Src(s, side).input|
    ensures var src, b := Src(s, side), BurnOf(s, side, len, c);
            var drained := Arrivals(src.(pos := b.pos), c.drained, b.remaining);
            b.pos + (if b.ok then 0 else drained) == src.pos + len as nat <==> b.uncounted + drained == b.remaining as nat
  {
    var src, b := Src(s, side), BurnOf(s, side, len, c);
    BurnCounts(src, src.pos, len, c.chunks, src.pos, []);
    hide BurnFrom;
  }

  /** A command that is over leaves its source behind its payload exactly when that was read out. */
  lemma HandleReadsOut(s: System, side: Side, h: Host, k: nat, c: Choice)
    requires k < |h.frames| && Dispatched(s, side) && Src(s, side).cmd.value == Asked(h, k)
    requires Src(s, side).pos + |Sent(h, k)| <= |Src(s, side).input|
    ensures var (r, pending) := Handle(s, side, Asked(h, k), c);
            !pending ==> (Src(r, side).pos == Src(s, side).pos + |Sent(h, k)| <==> ReadsOut(s, side, c))
  {
    var src, cmd := Src(s, side), Asked(h, k);
    PayloadIs(h, k);
    HandleMoves(s, side, cmd, c);
    hide Asked, Sent, Handle, BurnOf, Arrivals;
    match cmd
    case PutFile(idx, len) =>
      HandleIs(s, side, idx, len, c);
      ArrivalsAre(src, c.drained, len);
    case PutFirmware(len) =>
      FirmwareReadsOut(s, side, len, c);
      ArrivalsAre(src, c.drained, len);
    case _ =>
  }

  lemma HandleIs(s: System, side: Side, idx: u16, len: u32, c: Choice)
    ensures Handle(s, side, PutFile(idx, len), c) == DoPutFile(s, side, idx, len, c)
  {
  }

  // ----- one turn ---------------------------------------------------------

  /** One more reply, to the frame that was pending. */
  lemma AnsweredNext(was: Source, now: Source, h: Host, item: Item)
    requires AllAnswered(was, h) && now.ch.out == was.ch.out + [item]
    requires |was.ch.out| < |h.frames| ==> Answers(h, |was.ch.out|, item)
    ensures AllAnswered(now, h)
  {
    hide Answers;
  }

  lemma EchoAnswers(s: System, side: Side, h: Host, k: nat, item: Item, now: Source)
    requires k < |h.frames| && Echoes(s, side, Asked(h, k), item) && Honest(now, item)
    requires var src := Src(s, side);
             && now.input == src.input && src.pos + |Sent(h, k)| <= |src.input|
             && src.input[src.pos..src.pos + |Sent(h, k)|] == Sent(h, k)
    ensures Answers(h, k, item)
  {
    hide Asked, Sent, Zip.Crc, Framing.Payload;
    PayloadIs(h, k);
    var src := Src(s, side);
    if item.Image? {
      assert item.start + item.total as nat == src.pos + |Sent(h, k)|;
      assert item.crc == Zip.Crc(Sent(h, k));
    }
  }

  lemma Counts(s: System, side: Side)
    requires Inv(s)
    ensures var src := Src(s, side);
            && src.parsed == |src.ch.out| + (if src.cmd.Some? then 1 else 0)
            && forall item :: item in src.ch.out ==> Honest(src, item)
  {
    hide Clean, Honest, Owned, DownloadOk, UploadOk, ArchiveOk;
  }

  lemma LastReply(was: Channel, now: Channel)
    requires Replies(was, now)
    ensures now.out == was.out + [Newest(now)] && Newest(now) in now.out
  {
  }

  lemma IsPending(s: System, side: Side)
    ensures Dispatched(s, side) ==> Src(s, side).cmd.Some? && UploadOn(s, side).None?
  {
  }

  /** What a side in step knows of the command it is about to dispatch. */
  lemma PendingFrame(s: System, side: Side, h: Host)
    requires Inv(s) && Serves(s, side, h) && Dispatched(s, side)
    ensures UploadOn(s, side).None?
    ensures var src := Src(s, side);
            var k := src.parsed - 1;
            && 0 <= k < |h.frames| && |src.ch.out| == k && src.cmd.value == Asked(h, k)
            && src.pos + |Sent(h, k)| <= |src.input| && src.input[src.pos..src.pos + |Sent(h, k)|] == Sent(h, k)
            && src.input[src.pos + |Sent(h, k)|..] == Rest(h, k + 1) && src.input[src.pos..] == Sent(h, k) + Rest(h, k + 1)
  {
    hide Inv, Asked, Sent, Rest, Answers, Honest, AllAnswered, Src;
    Counts(s, side);
    IsPending(s, side);
    var src := Src(s, side);
    PayloadAt(src.input, src.pos, Sent(h, src.parsed - 1), Rest(h, src.parsed));
  }

  lemma ProcessIs(s: System, side: Side, cmd: Command, c: Choice)
    requires Dispatched(s, side) && Src(s, side).cmd.value == cmd
    ensures var (r, pending) := Handle(s, side, cmd, c);
            && Process(s, side, c) == (if pending then r else Consume(r, side))
            && (!pending ==> Src(Process(s, side, c), side) == Consumed(Src(r, side)))
  {
    hide Handle, Owns;
  }

  /** Its turn leaves a side in step: the command is over and answered, or an upload stands where its payload starts. */
  lemma ProcessServes(s: System, side: Side, h: Host, c: Choice)
    requires Inv(s) && Serves(s, side, h) && ReadsOut(s, side, c)
    ensures Serves(Process(s, side, c), side, h)
  {
    hide Inv, Serves, ReadsOut, Process, Dispatched, Asked, Sent, Rest, Handle, Honest, Newest, Replies, Moves,
         Queues, Src;
    if Dispatched(s, side) {
      PendingFrame(s, side, h);
      var src := Src(s, side);
      var k := src.parsed - 1;
      var cmd := Asked(h, k);
      PayloadIs(h, k);
      IsPending(s, side);
      HandleReadsOut(s, side, h, k, c);
      HandleMoves(s, side, cmd, c);
      HandleReplies(s, side, cmd, c);
      HandleQueues(s, side, cmd, c);
      ProcessKeeps(s, side, c);
      Counts(Process(s, side, c), side);
      ProcessIs(s, side, cmd, c);
      var (r, pending) := Handle(s, side, cmd, c);
      TurnServes(s, side, h, k, c, r, pending);
    } else {
      NotDispatched(s, side, c);
    }
  }

  lemma NotDispatched(s: System, side: Side, c: Choice)
    requires !Dispatched(s, side)
    ensures Process(s, side, c) == s
  {
  }

  lemma TurnServes(s: System, side: Side, h: Host, k: nat, c: Choice, r: System, pending: bool)
    requires Serves(s, side, h) && UploadOn(s, side).None? && Src(s, side).cmd.Some?
    requires k + 1 == Src(s, side).parsed <= |h.frames| && |Src(s, side).ch.out| == k
    requires var cmd, src, now := Asked(h, k), Src(s, side), Src(r, side);
             && src.cmd.value == cmd && Moves(s, side, cmd, c, r, pending)
             && src.pos + |Sent(h, k)| <= |src.input| && src.input[src.pos..src.pos + |Sent(h, k)|] == Sent(h, k)
             && src.input[src.pos + |Sent(h, k)|..] == Rest(h, k + 1) && src.input[src.pos..] == Sent(h, k) + Rest(h, k + 1)
             && (cmd.PutFile? ==> cmd.len as int == |Sent(h, k)|)
             && (pending ==> now.ch == src.ch)
             && (!pending ==> now.pos == src.pos + |Sent(h, k)| && Replies(src.ch, now.ch) && Queues(s, side, cmd, r)
                              && forall item :: item in Consumed(now).ch.out ==> Honest(Consumed(now), item))
    ensures Serves(if pending then r else Consume(r, side), side, h)
  {
    hide Asked, Sent, Rest, Arrivals, BurnOf, Honest, Answers, Echoes, Replies, Newest;
    var src, now := Src(s, side), Src(r, side);
    if !pending {
      LastReply(src.ch, now.ch);
      EchoAnswers(s, side, h, k, Newest(now.ch), Consumed(now));
      AnsweredNext(src, Consumed(now), h, Newest(now.ch));
    }
  }

  /** The other side's turn leaves it in step. */
  lemma PeerServes(s: System, side: Side, h: Host, c: Choice)
    requires Serves(s, Peer(side), h)
    ensures Serves(Process(s, side, c), Peer(side), h)
  {
    if Dispatched(s, side) {
      HandleMoves(s, side, Src(s, side).cmd.value, c);
      HandleIsOneSided(s, side, Src(s, side).cmd.value, c);
    }
    hide Handle, Arrivals, BurnOf, Answers, Asked, Sent, Rest;
  }

  // ----- services ---------------------------------------------------------

  /** Only the slot and the wire have changed. */
  predicate SentOnly(was: Source, now: Source) {
    now == was.(ch := now.ch) && now.ch.out == was.ch.out
  }

  lemma SentOnlyServes(s: System, r: System, side: Side, h: Host)
    requires Serves(s, side, h) && SentOnly(Src(s, side), Src(r, side)) && UploadOn(r, side) == UploadOn(s, side)
    ensures Serves(r, side, h)
  {
    hide Answers, Asked, Sent, Rest;
  }

  lemma DownloadServes(s: System, io: DownloadIo, side: Side, h: Host)
    requires Serves(s, side, h)
    ensures Serves(ServiceDownload(s, io), side, h)
  {
    hide Serves, DownloadBytes, DownloadTaken;
    SentOnlyServes(s, ServiceDownload(s, io), side, h);
  }

  lemma ArchiveServes(s: System, io: ArchiveIo, side: Side, h: Host)
    requires Serves(s, side, h)
    ensures Serves(ServiceArchive(s, io), side, h)
  {
    hide Serves, ZipNext, ZipSends, ZipBytes;
    SentOnlyServes(s, ServiceArchive(s, io), side, h);
  }

  lemma FlushServes(s: System, flushed: Side, room: bool, side: Side, h: Host)
    requires Serves(s, side, h)
    ensures Serves(FlushSide(s, flushed, room), side, h)
  {
    hide Serves;
    SentOnlyServes(s, FlushSide(s, flushed, room), side, h);
  }

  /** What an upload step changes of a source. */
  lemma UploadTouches(s: System, io: UploadIo, side: Side)
    ensures var was, now, r := Src(s, side), Src(ServiceUpload(s, io), side), ServiceUpload(s, io);
            && now == was.(pos := now.pos, cmd := now.cmd, ch := now.ch)
            && (UploadOn(s, side).None? ==> now == was && UploadOn(r, side).None?)
            && (UploadOn(s, side).Some? && r.ul.Some? ==> UploadOn(r, side) == r.ul)
  {
    hide SendResponse, Arrivals, Written;
  }

  /** One more reply when an upload ends, none before. */
  lemma UploadAnswers(s: System, io: UploadIo, u: Upload)
    requires s.ul == Some(u) && ServiceUpload(s, io).ul.None?
    ensures var was, now := Src(s, u.side).ch, Src(ServiceUpload(s, io), u.side).ch;
            now.out == was.out + [Newest(now)]
  {
    UploadDoes(s, io, u.side);
    hide ServiceUpload, Newest, Src;
    var item := Newest(Src(ServiceUpload(s, io), u.side).ch);
    assert [Send(item)][1..] == [];
  }

  /** No upload of this side is abandoned by its drain running out of time. */
  predicate StaysOn(s: System, io: UploadIo, side: Side) {
    UploadOn(s, side).Some? ==> !(s.ul.value.draining && io.timedOut)
  }

  lemma UploadServes(s: System, io: UploadIo, side: Side, h: Host)
    requires Inv(s) && Serves(s, side, h) && StaysOn(s, io, side)
    ensures Serves(ServiceUpload(s, io), side, h)
  {
    hide Inv, Serves, ServiceUpload, Newest, Honest, UploadOk, UploadStep, StaysOn, Src, SourceOk;
    UploadTouches(s, io, side);
    if UploadOn(s, side).Some? {
      var u := s.ul.value;
      UploadResyncs(s, io);
      Uploading(s, u);
      Counts(s, side);
      ServiceUploadKeeps(s, io);
      PosFits(ServiceUpload(s, io), side);
      OnlyDraining(s, io);
      if ServiceUpload(s, io).ul.None? {
        UploadAnswers(s, io, u);
      }
      StepServes(s, io, side, h, u, ServiceUpload(s, io));
    } else {
      SameServes(s, ServiceUpload(s, io), side, h);
    }
  }

  lemma SameServes(s: System, r: System, side: Side, h: Host)
    requires Serves(s, side, h) && Src(r, side) == Src(s, side) && UploadOn(s, side).None? && UploadOn(r, side).None?
    ensures Serves(r, side, h)
  {
    hide Answers, Asked, Sent, Rest;
  }

  /** An upload whose time is up ends only while draining. */
  lemma OnlyDraining(s: System, io: UploadIo)
    requires s.ul.Some?
    ensures ServiceUpload(s, io).ul.None? && io.timedOut ==> s.ul.value.draining
  {
    hide Arrive;
  }

  lemma StepServes(s: System, io: UploadIo, side: Side, h: Host, u: Upload, r: System)
    requires Serves(s, side, h) && StaysOn(s, io, side) && s.ul == Some(u) && u.side == side && UploadStep(s, io, r)
    requires Src(s, side).cmd.Some? && Src(s, side).parsed == |Src(s, side).ch.out| + 1
    requires Src(r, side).pos <= |Src(r, side).input|
    requires Src(r, side) == Src(s, side).(pos := Src(r, side).pos, cmd := Src(r, side).cmd, ch := Src(r, side).ch)
    requires r.ul.Some? ==> UploadOn(r, side) == r.ul
    requires r.ul.None? ==> Src(r, side).ch.out == Src(s, side).ch.out + [Newest(Src(r, side).ch)]
    requires r.ul.None? && io.timedOut ==> u.draining
    ensures Serves(r, side, h)
  {
    hide Asked, Sent, Rest, Answers, Newest;
    var src := Src(s, side);
    var k := src.parsed - 1;
    PayloadAt(src.input, u.start, Sent(h, k), Rest(h, k + 1));
    if r.ul.None? {
      var item := Newest(Src(r, side).ch);
      UploadEcho(s, io, h, k, item);
      AnsweredNext(src, Src(r, side), h, item);
    }
  }

  lemma UploadEcho(s: System, io: UploadIo, h: Host, k: nat, item: Item)
    requires k < |h.frames| && s.ul.Some? && UploadReply(s, io, item) && Asked(h, k).PutFile?
    requires var u := s.ul.value;
             && u.total as int == |Sent(h, k)| && u.start + |Sent(h, k)| <= |Src(s, u.side).input|
             && Src(s, u.side).input[u.start..u.start + |Sent(h, k)|] == Sent(h, k)
    ensures Answers(h, k, item)
  {
    hide Asked, Sent, Zip.Crc;
  }

  // ----- an iteration -----------------------------------------------------

  function ParseOf(t: Tick, side: Side): Parsed {
    if side == Net then t.netParse else t.serialParse
  }

  /** The side's host stays, its parser reads what it sent, and no payload of its commands is left unread. */
  predicate Orderly(s: System, t: Tick, side: Side, cap: nat) {
    var s1 := Intake(s, t);
    var s2 := Process(s1, Net, t.netChoice);
    var s3 := TransferBodies.AfterDispatch(s, t);
    && !TransferBodies.NewHost(t, side)
    && (Src(s, side).cmd.None? ==> Attempted(Src(s, side), ParseOf(t, side), cap))
    && (if side == Net then ReadsOut(s1, Net, t.netChoice) else ReadsOut(s2, Serial, t.serialChoice))
    && StaysOn(ServiceDownload(s3, t.dl), t.ul, side)
  }

  lemma IntakeIs(s: System, t: Tick, side: Side)
    requires !TransferBodies.NewHost(t, side)
    ensures Src(Intake(s, t), side) == ParseIncoming(Src(s, side), ParseOf(t, side))
    ensures UploadOn(Intake(s, t), side) == UploadOn(s, side)
  {
    hide ParseIncoming;
  }

  lemma IdleUpload(s: System, side: Side)
    requires Inv(s) && Src(s, side).cmd.None?
    ensures UploadOn(s, side).None?
  {
    hide SourceOk, DownloadOk, ArchiveOk;
  }

  lemma IntakeServes(s: System, t: Tick, side: Side, h: Host)
    requires Inv(s) && Serves(s, side, h) && !TransferBodies.NewHost(t, side)
    requires Src(s, side).cmd.None? ==> Attempted(Src(s, side), ParseOf(t, side), h.cap)
    ensures Serves(Intake(s, t), side, h)
  {
    IntakeIs(s, t, side);
    hide Intake, InStep, Answers, Attempted, Inv;
    if Src(s, side).cmd.None? {
      IdleUpload(s, side);
      ParseInStep(Src(s, side), h, ParseOf(t, side));
    }
  }

  lemma DispatchServes(s: System, t: Tick, side: Side, h: Host)
    requires Inv(s) && Serves(s, side, h)
    requires if side == Net then ReadsOut(s, Net, t.netChoice) else ReadsOut(Process(s, Net, t.netChoice), Serial, t.serialChoice)
    ensures Serves(Process(Process(s, Net, t.netChoice), Serial, t.serialChoice), side, h)
  {
    hide Inv, Serves, Process, ReadsOut;
    var s1 := Process(s, Net, t.netChoice);
    if side == Net {
      ProcessServes(s, Net, h, t.netChoice);
      PeerServes(s1, Serial, h, t.serialChoice);
    } else {
      PeerServes(s, Net, h, t.netChoice);
      ProcessKeeps(s, Net, t.netChoice);
      ProcessServes(s1, Serial, h, t.serialChoice);
    }
  }

  lemma LoopServes(s: System, t: Tick, side: Side, h: Host)
    requires Inv(s) && Serves(s, side, h) && Orderly(s, t, side, h.cap)
    ensures Serves(Loop(s, t), side, h)
  {
    hide Inv, Serves, Intake, Process, ReadsOut, StaysOn, Attempted, ServiceDownload, ServiceUpload, ServiceArchive,
         FlushSide;
    var s1 := Intake(s, t);
    IntakeServes(s, t, side, h);
    IntakeKeeps(s, t);
    DispatchServes(s1, t, side, h);
    TransferBodies.DispatchKeeps(s, t);
    var s3 := TransferBodies.AfterDispatch(s, t);
    DownloadServes(s3, t.dl, side, h);
    ServiceDownloadKeeps(s3, t.dl);
    var s4 := ServiceDownload(s3, t.dl);
    UploadServes(s4, t.ul, side, h);
    var s5 := ServiceUpload(s4, t.ul);
    ArchiveServes(s5, t.ar, side, h);
    var s6 := ServiceArchive(s5, t.ar);
    FlushServes(s6, Net, t.netRoom && (t.netUp || t.client.Some?), side, h);
    FlushServes(FlushSide(s6, Net, t.netRoom && (t.netUp || t.client.Some?)), Serial, t.serialRoom, side, h);
  }

  // ----- whole runs -------------------------------------------------------

  predicate OrderlyRun(s: System, ticks: seq<Tick>, side: Side, cap: nat) {
    ticks != [] ==>
      && OrderlyRun(s, ticks[..|ticks| - 1], side, cap)
      && Orderly(Run(s, ticks[..|ticks| - 1]), ticks[|ticks| - 1], side, cap)
  }

  lemma {:induction false} RunServes(s: System, ticks: seq<Tick>, side: Side, h: Host)
    requires Inv(s) && Serves(s, side, h) && OrderlyRun(s, ticks, side, h.cap)
    ensures Inv(Run(s, ticks)) && Serves(Run(s, ticks), side, h)
  {
    if ticks != [] {
      hide Inv, Serves, Loop, Orderly;
      var n := |ticks| - 1;
      RunServes(s, ticks[..n], side, h);
      LoopServes(Run(s, ticks[..n]), ticks[n], side, h);
      LoopKeeps(Run(s, ticks[..n]), ticks[n]);
    }
  }

  lemma FreshServes(net: seq<byte>, serial: seq<byte>, ps: seq<Pattern>, card: map<Name, seq<byte>>, side: Side,
                    h: Host)
    requires (if side == Net then net else serial) == Rest(h, 0)
    ensures Serves(Fresh(net, serial, ps, card), side, h)
  {
    hide Rest, Answers;
    var input := if side == Net then net else serial;
    assert input[0..] == input;
  }

  /** Over every run from power-up in which one side's host stays, its bytes are frames, and no payload of a refused or
      failed command is left unread or read past: the commands parsed on that side are the frames in order, each once;
      the command pending is the last of them; and each of the others has exactly one reply, which answers it. A
      status-0 reply to an upload stands for a file with that frame's payload, one to a firmware image carries its
      CRC-32. What the other side does makes no difference. */
  lemma FramesInOrder(net: seq<byte>, serial: seq<byte>, ps: seq<Pattern>, card: map<Name, seq<byte>>, ticks: seq<Tick>,
                      side: Side, h: Host)
    requires (if side == Net then net else serial) == Rest(h, 0)
    requires OrderlyRun(Fresh(net, serial, ps, card), ticks, side, h.cap)
    ensures var src := Src(Run(Fresh(net, serial, ps, card), ticks), side);
            && src.parsed <= |h.frames|
            && (src.cmd.Some? ==> src.parsed > 0 && src.cmd.value == Asked(h, src.parsed - 1))
            && |src.ch.out| == src.parsed - (if src.cmd.Some? then 1 else 0)
            && (forall k :: 0 <= k < |src.ch.out| ==> Answers(h, k, src.ch.out[k]))
            && (src.cmd.None? ==> src.pos <= |src.input| && src.input[src.pos..] == Rest(h, src.parsed))
  {
    hide Inv, Run, OrderlyRun, Fresh, Answers, Asked, Sent, Rest;
    FreshOk(net, serial, ps, card);
    FreshServes(net, serial, ps, card, side, h);
    RunServes(Fresh(net, serial, ps, card), ticks, side, h);
    Counts(Run(Fresh(net, serial, ps, card), ticks), side);
  }
}
