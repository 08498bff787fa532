/** Which replies reach their host: one slot per source, flushed when there is room. */
module TransferReplies {
  import opened Bytes
  import opened PatternIndex
  import opened Sources
  import opened RawBodies
  import opened Transfers
  import opened TransferProofs
  import Zip

  /** The reply queued last. */
  function Newest(ch: Channel): Item {
    if ch.out == [] then Reply(0, 0) else ch.out[|ch.out| - 1]
  }

  // ----- what each part of an iteration does to a channel -----------------

  function ProcessActs(s: System, side: Side, c: Choice): seq<Act> {
    if !Dispatched(s, side) || Handle(s, side, Src(s, side).cmd.value, c).1 then []
    else [Send(Newest(Src(Process(s, side, c), side).ch))]
  }

  function DownloadActs(s: System, io: DownloadIo, side: Side): seq<Act> {
    if DownloadSends(s, io) && s.dl.value.side == side
    then [Body(s.dl.value.k, DownloadBytes(s.dl.value, io), io.flushed)]
    else []
  }

  function UploadActs(s: System, io: UploadIo, side: Side): seq<Act> {
    if s.ul.Some? && s.ul.value.side == side && ServiceUpload(s, io).ul.None?
    then [Send(Newest(Src(ServiceUpload(s, io), side).ch))]
    else []
  }

  function ArchiveActs(s: System, io: ArchiveIo, side: Side): seq<Act> {
    if s.ar.Some? && s.ar.value.side == side && ZipSends(s.ar.value, io)
    then [Body(s.ar.value.k, ZipBytes(s.ar.value, io), io.flushed)]
    else []
  }

  function ServiceActs(s: System, t: Tick, side: Side): seq<Act> {
    var s1 := ServiceDownload(s, t.dl);
    DownloadActs(s, t.dl, side) + UploadActs(s1, t.ul, side) + ArchiveActs(ServiceUpload(s1, t.ul), t.ar, side)
  }

  function Room(t: Tick, side: Side): bool {
    if side == Net then t.netRoom && (t.netUp || t.client.Some?) else t.serialRoom
  }

  function DispatchActs(s: System, t: Tick, side: Side): seq<Act> {
    if side == Net then ProcessActs(s, Net, t.netChoice)
    else ProcessActs(Process(s, Net, t.netChoice), Serial, t.serialChoice)
  }

  /** Everything an iteration does to one side's channel, in order. */
  function LoopActs(s: System, t: Tick, side: Side): seq<Act> {
    var s1 := Intake(s, t);
    var s2 := Process(Process(s1, Net, t.netChoice), Serial, t.serialChoice);
    DispatchActs(s1, t, side) + ServiceActs(s2, t, side) + [Flush(Room(t, side))]
  }

  function RunActs(s: System, ticks: seq<Tick>, side: Side): seq<Act> {
    if ticks == [] then []
    else
      var n := |ticks| - 1;
      RunActs(s, ticks[..n], side) + LoopActs(Run(s, ticks[..n]), ticks[n], side)
  }

  // ----- that it is all ---------------------------------------------------

  predicate Replies(was: Channel, now: Channel) {
    now == SendResponse(was, Newest(now))
  }

  lemma TellReplies(s: System, side: Side, item: Item)
    ensures Replies(Src(s, side).ch, Src(Tell(s, side, item), side).ch)
  {
  }

  lemma DrainQuiet(s: System, side: Side, len: u32, drained: nat)
    ensures Src(Drain(s, side, len, drained), side).ch == Src(s, side).ch
  {
    hide Arrivals;
  }

  lemma PutFileReplies(s: System, side: Side, idx: u16, len: u32, c: Choice)
    ensures var (r, pending) := DoPutFile(s, side, idx, len, c);
            if pending then Src(r, side).ch == Src(s, side).ch else Replies(Src(s, side).ch, Src(r, side).ch)
  {
    hide Tell, Drain, Replies;
    TellReplies(s, side, Reply(0x85, 1));
    RejectReplies(s, side, len, c.drained, Reply(0x85, CE_DISPLAY_ACTIVE));
    RejectReplies(s, side, len, c.drained, Reply(0x85, 1));
    if PutFileFree(s, idx) {
      RejectReplies(s.(card := s.card - {FileOf(s.patterns, idx)}), side, len, c.drained, Reply(0x85, 1));
    }
  }

  lemma PutFirmwareReplies(s: System, side: Side, len: u32, c: Choice)
    ensures Replies(Src(s, side).ch, Src(DoPutFirmware(s, side, len, c), side).ch)
  {
    hide BurnFrom, Replies, Tell, Drain, Arrivals, Zip.Crc;
    var src := Src(s, side);
    var b := BurnFrom(src, src.pos, len, c.chunks, []);
    var read := With(s, side, src.(pos := b.pos));
    RejectReplies(s, side, len, c.drained, Reply(0xE0, CE_DISPLAY_ACTIVE));
    RejectReplies(s, side, len, c.drained, Reply(0xE0, 1));
    RejectReplies(s.(image := None), side, len, c.drained, Reply(0xE0, 1));
    RejectReplies(read.(image := None), side, b.remaining, c.drained, Reply(0xE0, 1));
    TellReplies(read.(image := Some(b.image)), side, Image(Zip.Crc(b.image), src.pos, len));
  }

  lemma RejectReplies(s: System, side: Side, len: u32, drained: nat, item: Item)
    ensures Replies(Src(s, side).ch, Src(Tell(Drain(s, side, len, drained), side, item), side).ch)
  {
    hide Replies, Tell, Drain;
    DrainQuiet(s, side, len, drained);
    TellReplies(Drain(s, side, len, drained), side, item);
  }

  lemma DeleteReplies(s: System, side: Side, idx: u16, lengthOk: bool, c: Choice)
    ensures Replies(Src(s, side).ch, Src(DoDelete(s, side, idx, lengthOk, c), side).ch)
  {
    TellReplies(s, side, Reply(0x86, 1));
    TellReplies(s, side, Reply(0x86, CE_SD_NOT_PRESENT));
    TellReplies(s, side, Reply(0x86, CE_BAD_PARAM));
    if c.removal.NotRemoved? {
      TellReplies(s, side, Reply(0x86, c.removal.err));
    } else if idx <= |s.patterns| {
      TellReplies(Dropped(s, idx), side, Reply(0x86, CE_MANIFEST_WRITE_ERROR));
      TellReplies(Corrected(Dropped(s, idx), idx), side, Reply(0x86, 0));
      SameChannels(s, idx);
    }
    hide Tell, Replies, Dropped, Corrected, Busy;
  }

  lemma SameChannels(s: System, idx: nat)
    requires idx <= |s.patterns|
    ensures var d := Dropped(s, idx); d.net == s.net && d.serial == s.serial
    ensures var d := Corrected(Dropped(s, idx), idx); d.net == s.net && d.serial == s.serial
  {
    hide Remove, ShiftDownload, ShiftUpload;
  }

  lemma GetFileReplies(s: System, side: Side, idx: u16, lengthOk: bool, c: Choice)
    ensures Replies(Src(s, side).ch, Src(DoGetFile(s, side, idx, lengthOk, c), side).ch)
  {
  }

  lemma RenameReplies(s: System, side: Side, idx: u16, nameOk: bool, c: Choice)
    ensures Replies(Src(s, side).ch, Src(DoRename(s, side, idx, nameOk, c), side).ch)
  {
    hide PatternIndex.Rename, Moved, IndexOf;
  }

  lemma PurgeReplies(s: System, side: Side, c: Choice)
    ensures Replies(Src(s, side).ch, Src(DoPurge(s, side, c), side).ch)
  {
  }

  lemma GetArchiveReplies(s: System, side: Side, c: Choice)
    ensures Replies(Src(s, side).ch, Src(DoGetArchive(s, side, c), side).ch)
  {
  }

  lemma HandleReplies(s: System, side: Side, cmd: Command, c: Choice)
    ensures var (r, pending) := Handle(s, side, cmd, c);
            if pending then Src(r, side).ch == Src(s, side).ch else Replies(Src(s, side).ch, Src(r, side).ch)
  {
    hide Tell, DoGetFile, DoPutFile, DoPutFirmware, DoDelete, DoRename, DoPurge, DoGetArchive, Replies;
    match cmd
    case PutFile(idx, len) => PutFileReplies(s, side, idx, len, c);
    case PutFirmware(len) => PutFirmwareReplies(s, side, len, c);
    case Delete(idx, ok) => DeleteReplies(s, side, idx, ok, c);
    case GetFile(idx, ok) => GetFileReplies(s, side, idx, ok, c);
    case Rename(idx, ok) => RenameReplies(s, side, idx, ok, c);
    case Purge => PurgeReplies(s, side, c);
    case GetArchive => GetArchiveReplies(s, side, c);
    case Other(code) => TellReplies(s, side, Reply(code, c.status));
  }

  lemma ProcessDoes(s: System, side: Side, c: Choice)
    ensures Src(Process(s, side, c), side).ch == DoAll(Src(s, side).ch, ProcessActs(s, side, c))
    ensures Src(Process(s, side, c), Peer(side)) == Src(s, Peer(side))
  {
    if Dispatched(s, side) {
      HandleReplies(s, side, Src(s, side).cmd.value, c);
      HandleIsOneSided(s, side, Src(s, side).cmd.value, c);
    }
    hide Handle, SendResponse;
  }

  lemma DownloadDoes(s: System, io: DownloadIo, side: Side)
    ensures Src(ServiceDownload(s, io), side).ch == DoAll(Src(s, side).ch, DownloadActs(s, io, side))
  {
    hide SendRaw, DownloadTaken, DownloadBytes;
  }

  lemma ArchiveDoes(s: System, io: ArchiveIo, side: Side)
    ensures Src(ServiceArchive(s, io), side).ch == DoAll(Src(s, side).ch, ArchiveActs(s, io, side))
  {
    hide SendRaw, ZipNext, ZipSends, ZipBytes;
  }

  lemma EndReplies(s: System, side: Side, item: Item)
    ensures var r := EndUpload(s, side, item);
            r.ul.None? && Replies(Src(s, side).ch, Src(r, side).ch) && Src(r, Peer(side)) == Src(s, Peer(side))
  {
  }

  lemma SettleReplies(s: System, v: Upload)
    ensures var r := Settle(s, v);
            && (r.ul.None? ==> Replies(Src(s, v.side).ch, Src(r, v.side).ch))
            && (r.ul.Some? ==> Src(r, v.side).ch == Src(s, v.side).ch)
            && Src(r, Peer(v.side)) == Src(s, Peer(v.side))
  {
    hide EndUpload, Replies;
    if v.remaining == 0 {
      EndReplies(s, v.side, if v.file.None? then Reply(0x85, v.status) else Stored(v.file.value, v.start, v.total));
    }
  }

  lemma ArriveReplies(s: System, u: Upload, src: Source, got: nat, wroteAll: bool)
    requires src == Src(s, u.side) && got <= u.remaining && src.pos + got <= |src.input|
    ensures var r := Arrive(s, u, got, wroteAll);
            && (r.ul.None? ==> Replies(src.ch, Src(r, u.side).ch))
            && (r.ul.Some? ==> Src(r, u.side).ch == src.ch)
            && Src(r, Peer(u.side)) == Src(s, Peer(u.side))
  {
    hide Took, Written, Settle, Replies, Src, With;
    var v := Took(u, src.input[src.pos..src.pos + got], wroteAll);
    TookSide(u, src.input[src.pos..src.pos + got], wroteAll);
    var read := src.(pos := src.pos + got);
    ReadSide(s, u.side, read, Written(s.card, u, v));
    SettleReplies(With(s, u.side, read).(card := Written(s.card, u, v)), v);
  }

  lemma ReadSide(s: System, side: Side, src: Source, card: map<Name, seq<byte>>)
    ensures var r := With(s, side, src).(card := card); Src(r, side) == src && Src(r, Peer(side)) == Src(s, Peer(side))
  {
  }

  lemma UploadDoes(s: System, io: UploadIo, side: Side)
    ensures Src(ServiceUpload(s, io), side).ch == DoAll(Src(s, side).ch, UploadActs(s, io, side))
  {
    hide Arrive, EndUpload, Arrivals, SendResponse, Newest;
    if s.ul.Some? {
      var u := s.ul.value;
      var src, want := Src(s, u.side), Min(u.remaining, CHUNK);
      if io.timedOut {
        EndReplies(s, u.side, Reply(0x85, u.status));
      } else if Arrivals(src, io.arrived, want) > 0 {
        ArrivalIsShort(src, io.arrived, want);
        ArriveReplies(s, u, src, Arrivals(src, io.arrived, want), io.wroteAll);
      }
    }
  }

  lemma ArrivalIsShort(src: Source, arrived: nat, want: nat)
    ensures Arrivals(src, arrived, want) > 0 ==> src.pos + Arrivals(src, arrived, want) <= |src.input|
    ensures Arrivals(src, arrived, want) <= want
  {
  }

  lemma TookSide(u: Upload, bytes: seq<byte>, wroteAll: bool)
    requires |bytes| <= u.remaining
    ensures Took(u, bytes, wroteAll).side == u.side
  {
  }

  lemma ServicesDo(s: System, t: Tick, side: Side)
    ensures Src(Services(s, t), side).ch == DoAll(Src(s, side).ch, ServiceActs(s, t, side))
  {
    hide ServiceDownload, ServiceUpload, ServiceArchive, DownloadActs, UploadActs, ArchiveActs, DoAll, Src;
    var s1 := ServiceDownload(s, t.dl);
    var s2 := ServiceUpload(s1, t.ul);
    DownloadDoes(s, t.dl, side);
    UploadDoes(s1, t.ul, side);
    ArchiveDoes(s2, t.ar, side);
    var a, b, c := DownloadActs(s, t.dl, side), UploadActs(s1, t.ul, side), ArchiveActs(s2, t.ar, side);
    DoAllConcat(Src(s, side).ch, a, b);
    DoAllConcat(Src(s, side).ch, a + b, c);
  }

  lemma DispatchDoes(s: System, t: Tick, side: Side)
    ensures var r := Process(Process(s, Net, t.netChoice), Serial, t.serialChoice);
            Src(r, side).ch == DoAll(Src(s, side).ch, DispatchActs(s, t, side))
  {
    hide Process, ProcessActs, DoAll;
    ProcessDoes(s, Net, t.netChoice);
    ProcessDoes(Process(s, Net, t.netChoice), Serial, t.serialChoice);
  }

  /** What a channel is at the start of an iteration: a lost client leaves its slot to the next. */
  function Base(s: System, t: Tick, side: Side): Channel {
    if side == Net && !t.netUp then NewClient(s.net.ch) else Src(s, side).ch
  }

  lemma IntakeQuiet(s: System, t: Tick, side: Side)
    ensures Src(Intake(s, t), side).ch == Base(s, t, side)
  {
    hide NewClient;
  }

  lemma LoopDoes(s: System, t: Tick, side: Side)
    ensures Src(Loop(s, t), side).ch == DoAll(Base(s, t, side), LoopActs(s, t, side))
  {
    hide Intake, Process, Services, DispatchActs, ServiceActs, DoAll, Base;
    var s1 := Intake(s, t);
    var s2 := Process(Process(s1, Net, t.netChoice), Serial, t.serialChoice);
    var s3 := Services(s2, t);
    IntakeQuiet(s, t, side);
    DispatchDoes(s1, t, side);
    ServicesDo(s2, t, side);
    FlushDoes(Src(s3, side).ch, Room(t, side));
    var a, b, f := DispatchActs(s1, t, side), ServiceActs(s2, t, side), [Flush(Room(t, side))];
    DoAllConcat(Src(s1, side).ch, a, b);
    DoAllConcat(Src(s1, side).ch, a + b, f);
    hide FlushResponses;
  }

  lemma FlushDoes(ch: Channel, room: bool)
    ensures DoAll(ch, [Flush(room)]) == FlushResponses(ch, room)
  {
    assert [Flush(room)][1..] == [];
  }

  /** The client stays the same. */
  predicate Stays(ticks: seq<Tick>, side: Side) {
    side == Net ==> forall t :: t in ticks ==> t.netUp
  }

  lemma {:induction false} RunDoes(s: System, ticks: seq<Tick>, side: Side)
    requires Stays(ticks, side)
    ensures Src(Run(s, ticks), side).ch == DoAll(Src(s, side).ch, RunActs(s, ticks, side))
  {
    if ticks != [] {
      hide Loop, LoopActs, DoAll;
      var n := |ticks| - 1;
      RunDoes(s, ticks[..n], side);
      LoopDoes(Run(s, ticks[..n]), ticks[n], side);
      DoAllConcat(Src(s, side).ch, RunActs(s, ticks[..n], side), LoopActs(Run(s, ticks[..n]), ticks[n], side));
    }
  }

  // ----- theorems ---------------------------------------------------------

  lemma ChannelsAccounted(s: System, side: Side)
    requires Inv(s)
    ensures Accounted(Src(s, side).ch)
  {
    hide Accounted, PromisesKept, Sending, Owned, DownloadOk, ArchiveOk, UploadOk, Honest;
  }

  /** In every reachable state and through every further run: the reply a source's slot holds reaches that source's
      host exactly when the slot is flushed, or a body is sent through it, before the next reply is queued. */
  lemma ReplyReachesIff(s: System, ticks: seq<Tick>, side: Side)
    requires Inv(s) && Stays(ticks, side) && Src(s, side).ch.slot.Some?
    ensures Frame(Src(s, side).ch.slot.value) in Src(Run(s, ticks), side).ch.wire
            <==> ClearedFirst(RunActs(s, ticks, side))
  {
    hide Inv, Run, RunActs, DoAll, ClearedFirst;
    ChannelsAccounted(s, side);
    SlotHolds(Src(s, side).ch);
    RunDoes(s, ticks, side);
    ReachesIff(Src(s, side).ch, RunActs(s, ticks, side));
  }

  /** A reply its own client never saw goes to the next client instead, exactly when nothing is queued for that one
      first. */
  lemma NextClientGetsItIff(s: System, t: Tick, ticks: seq<Tick>)
    requires Inv(s) && !t.netUp && Stays(ticks, Net) && s.net.ch.slot.Some?
    ensures Frame(s.net.ch.slot.value) in Run(Loop(s, t), ticks).net.ch.wire
            <==> ClearedFirst(LoopActs(s, t, Net) + RunActs(Loop(s, t), ticks, Net))
    ensures s.net.ch.slot.value.conn < Loop(s, t).net.ch.conn
  {
    hide Inv, Run, RunActs, LoopActs, DoAll, ClearedFirst, Accounted;
    ChannelsAccounted(s, Net);
    var ch := NewClient(s.net.ch);
    ClientAccounted(s.net.ch);
    SlotHolds(s.net.ch);
    SlotHolds(ch);
    LoopDoes(s, t, Net);
    RunDoes(Loop(s, t), ticks, Net);
    var a, b := LoopActs(s, t, Net), RunActs(Loop(s, t), ticks, Net);
    DoAllConcat(ch, a, b);
    ReachesIff(ch, a + b);
    ConnStays(ch, a);
    hide Loop;
  }

  lemma {:induction false} ConnStays(ch: Channel, acts: seq<Act>)
    ensures DoAll(ch, acts).conn == ch.conn
    decreases acts
  {
    if acts != [] {
      ConnStays(Do(ch, acts[0]), acts[1..]);
    }
  }

  // ----- replies that never arrive, or arrive at the wrong host -----------

  /** One iteration in which one command without a transfer is parsed on one side. */
  predicate Asks(t: Tick, side: Side, code: byte, room: bool) {
    && t.netUp
    && t.netParse == (if side == Net then Parsed(Some(Other(code)), 1) else Parsed(None, 0))
    && t.serialParse == (if side == Serial then Parsed(Some(Other(code)), 1) else Parsed(None, 0))
    && Room(t, side) == room
  }

  /** A source between commands, with no transfer anywhere. */
  predicate Idle(s: System, side: Side) {
    && Quiet(s) && s.net.cmd.None? && s.serial.cmd.None?
    && Src(s, side).pos < |Src(s, side).input|
  }

  function ChoiceOf(t: Tick, side: Side): Choice {
    if side == Net then t.netChoice else t.serialChoice
  }

  /** Such an iteration consumes the command and queues its reply. */
  lemma AskedOnce(s: System, side: Side, t: Tick, code: byte, room: bool)
    requires Idle(s, side) && Asks(t, side, code, room)
    ensures var item := Reply(code, ChoiceOf(t, side).status);
            var was, now := Src(s, side), Src(Loop(s, t), side);
            && now == was.(pos := was.pos + 1, parsed := was.parsed + 1,
                           ch := FlushResponses(SendResponse(was.ch, item), room))
            && Quiet(Loop(s, t)) && Loop(s, t).net.cmd.None? && Loop(s, t).serial.cmd.None?
  {
    hide FlushResponses, SendResponse;
    var s1 := Intake(s, t);
    assert Src(s1, side) == Src(s, side).(pos := Src(s, side).pos + 1, parsed := Src(s, side).parsed + 1, cmd := Some(Other(code)));
    var s2 := Process(Process(s1, Net, t.netChoice), Serial, t.serialChoice);
    assert Quiet(s2);
    assert Services(s2, t) == s2;
    hide Intake, Process, Services;
  }

  /** Two commands answered, one reply received: a host that is slow to read loses the first. */
  lemma ReplyLost(net: seq<byte>, serial: seq<byte>, ps: seq<Pattern>, card: map<Name, seq<byte>>, t: Tick, u: Tick)
    requires |serial| >= 2 && Asks(t, Serial, 1, false) && Asks(u, Serial, 2, true)
    ensures var s := Run(Fresh(net, serial, ps, card), [t, u]).serial;
            && s.parsed == 2 && s.cmd.None? && |s.ch.out| == 2
            && s.ch.wire == [Frame(Queued(0, 1, Reply(2, u.serialChoice.status)))] && s.ch.lost == {0}
  {
    var s0 := Fresh(net, serial, ps, card);
    TwoTicks(s0, t, u);
    hide Loop, Run;
    AskedOnce(s0, Serial, t, 1, false);
    AskedOnce(Loop(s0, t), Serial, u, 2, true);
  }

  lemma TwoTicks(s: System, t: Tick, u: Tick)
    ensures Run(s, [t, u]) == Loop(Loop(s, t), u)
  {
    hide Loop;
    var one, two := [t], [t, u];
    assert two[..|two| - 1] == one && one[..|one| - 1] == [];
    assert Run(s, []) == s;
    assert Run(s, one) == Loop(s, t);
  }

  /** The network client asks, and goes before its reply is flushed; the next client is sent it, and nothing else. */
  lemma ReplyToAStranger(net: seq<byte>, serial: seq<byte>, ps: seq<Pattern>, card: map<Name, seq<byte>>, t: Tick, u: Tick,
                         next: seq<byte>)
    requires |net| >= 1 && Asks(t, Net, 1, false)
    requires !u.netUp && u.client == Some(next) && u.netRoom
    requires u.netParse == Parsed(None, 0) && u.serialParse == Parsed(None, 0)
    ensures var s := Run(Fresh(net, serial, ps, card), [t, u]).net;
            s.input == next && s.parsed == 0 && s.ch.out == []
            && s.ch.wire == [Frame(Queued(0, 0, Reply(1, t.netChoice.status)))]
  {
    hide Loop, Run, Asks;
    var s0 := Fresh(net, serial, ps, card);
    TwoTicks(s0, t, u);
    assert Idle(s0, Net);
    AskedOnce(s0, Net, t, 1, false);
    var s1 := Loop(s0, t);
    assert s1.net.ch.slot == Some(Queued(0, 0, Reply(1, t.netChoice.status)));
    hide Fresh;
    StrangerTick(s1, u);
  }

  lemma StrangerTick(s: System, u: Tick)
    requires Quiet(s) && s.net.cmd.None? && s.serial.cmd.None? && s.net.ch.slot.Some?
    requires !u.netUp && u.client.Some? && u.netRoom && u.netParse == Parsed(None, 0) && u.serialParse == Parsed(None, 0)
    ensures Loop(s, u).net == Source(u.client.value, 0, None, 0,
                                     FlushResponses(NewClient(s.net.ch), true))
  {
    hide FlushResponses, NewClient;
    var s1 := Intake(s, u);
    assert s1.net == Source(u.client.value, 0, None, 0, NewClient(s.net.ch)) && Quiet(s1);
    assert Process(Process(s1, Net, u.netChoice), Serial, u.serialChoice) == s1;
    assert Services(s1, u) == s1;
    hide Intake, Process, Services;
  }
}
