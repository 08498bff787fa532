/** Dispatch and transfer services as the processor runs them: sources are objects, transfers latch references. */
module CommandProcessor {
  import opened Bytes
  import opened PatternIndex
  import opened Sources
  import opened RawBodies
  import opened Transfers
  import Archive
  import Zip
  import Crc32

  class MessageSource {
    var input: seq<byte>
    var pos: nat
    var cmd: Option<Command>
    var parsed: nat
    var ch: Channel

    ghost function View(): Source
      reads this
    {
      Source(input, pos, cmd, parsed, ch)
    }

    constructor (stream: seq<byte>)
      ensures View() == Source(stream, 0, None, 0, Channel(0, [], None, [], {}))
    {
      input, pos, cmd, parsed, ch := stream, 0, None, 0, Channel(0, [], None, [], {});
    }

    /** The slot is overwritten, whether or not what it held was sent. */
    method SendResponse(item: Item)
      modifies `ch
      ensures View() == Answer(old(View()), item)
    {
      if ch.slot.Some? && ch.slot.value.conn == ch.conn {
        ch := ch.(lost := ch.lost + {ch.slot.value.k});
      } else {
        assert ch.lost + {} == ch.lost;
      }
      ch := ch.(slot := Some(Queued(ch.conn, |ch.out|, item)), out := ch.out + [item]);
    }

    method FlushResponses(room: bool)
      modifies `ch
      ensures View() == old(View()).(ch := Sources.FlushResponses(old(ch), room))
    {
      if ch.slot.None? || !room {
        return;
      }
      ch := ch.(wire := ch.wire + [Frame(ch.slot.value)], slot := None);
    }

    /** The queued header first, for as long as the wait lasts; then what the transport accepts of the body. */
    method SendRaw(k: nat, data: seq<byte>, flushed: bool)
      modifies `ch
      ensures View() == old(View()).(ch := Sources.SendRaw(old(ch), k, data, flushed))
    {
      FlushResponses(flushed);
      if data != [] {
        ch := ch.(wire := ch.wire + [Raw(ch.conn, k, data)]);
      }
    }

    method CommandConsumed()
      modifies `cmd
      ensures View() == Consumed(old(View()))
    {
      cmd := None;
    }

    /** One call of the parser; `p` is what it makes of the bytes there. */
    method ParseIncoming(p: Parsed)
      modifies `pos, `cmd, `parsed
      ensures View() == Transfers.ParseIncoming(old(View()), p)
    {
      if cmd.Some? || p.used == 0 || p.used > |input| - pos {
        return;
      }
      pos, cmd := pos + p.used, p.cmd;
      if p.cmd.Some? {
        parsed := parsed + 1;
      }
    }

    /** serviceTcp with the client gone: receive state cleared, the slot left alone. */
    method AcceptClient(client: Option<seq<byte>>)
      modifies this
      ensures View() == Accept(old(View()), client)
    {
      pos, cmd, parsed := 0, None, 0;
      input := if client.Some? then client.value else [];
      ch := Channel(ch.conn + 1, [], ch.slot, [], {});
    }

    /** Up to `max` of the bytes that have arrived, without waiting. */
    method ReadBulkBytes(max: nat, arrived: nat) returns (bytes: seq<byte>)
      modifies `pos
      ensures |bytes| == Arrivals(old(View()), arrived, max) <= max && pos == old(pos) + |bytes|
      ensures |bytes| > 0 ==> pos <= |input|
      ensures bytes == if |bytes| == 0 then [] else input[old(pos)..pos]
    {
      var n := Min(Min(arrived, max), |input| - pos);
      if n <= 0 {
        return [];
      }
      bytes := input[pos..pos + n];
      pos := pos + n;
    }
  }

  /** dl_active_ with the fields it guards is `dl`; likewise `ul` and `ar`. Each keeps the source it latched. */
  class CommandProcessor {
    const net: MessageSource
    const serial: MessageSource
    var dl: Option<Download>
    var dlSource: MessageSource
    var ul: Option<Upload>
    var ulSource: MessageSource
    var ar: Option<Zipping>
    var patterns: seq<Pattern>
    var card: map<Name, seq<byte>>
    var image: Option<seq<byte>>

    ghost predicate Valid()
      reads this
    {
      && net != serial && {dlSource, ulSource} <= {net, serial}
      && (dl.Some? ==> dl.value.side == SideOf(dlSource))
      && (ul.Some? ==> ul.value.side == SideOf(ulSource))
    }

    function SideOf(source: MessageSource): Side {
      if source == net then Net else Serial
    }

    function SourceOf(side: Side): MessageSource {
      if side == Net then net else serial
    }

    ghost function State(): System
      reads this, net, serial
    {
      System(net.View(), serial.View(), dl, ul, ar, patterns, card, image)
    }

    constructor (n: MessageSource, s: MessageSource, ps: seq<Pattern>, files: map<Name, seq<byte>>)
      requires n != s
      ensures Valid() && net == n && serial == s
      ensures State() == System(n.View(), s.View(), None, None, None, ps, files, None)
    {
      net, serial, patterns, card, image := n, s, ps, files, None;
      dl, dlSource, ul, ulSource, ar := None, n, None, n, None;
    }

    function PatternBusy(idx: nat): (busy: bool)
      reads this, net, serial
      ensures busy == Busy(State(), idx)
    {
      (dl.Some? && dl.value.idx == idx) || (ul.Some? && ul.value.idx == idx)
    }

    function OwnsTransfer(source: MessageSource): (owns: bool)
      requires Valid() && source in {net, serial}
      reads this, net, serial
      ensures owns == Owns(State(), SideOf(source))
    {
      (dl.Some? && dlSource == source) || (ul.Some? && ulSource == source) || (ar.Some? && ar.value.side == SideOf(source))
    }

    method Respond(source: MessageSource, item: Item)
      requires Valid() && source in {net, serial}
      modifies source`ch
      ensures Valid() && State() == Tell(old(State()), SideOf(source), item)
    {
      source.SendResponse(item);
    }

    method Release(source: MessageSource)
      requires Valid() && source in {net, serial}
      modifies source`cmd
      ensures Valid() && State() == Consume(old(State()), SideOf(source))
    {
      source.CommandConsumed();
    }

    // ----- dispatch -------------------------------------------------------

    method ProcessCommand(n: Choice, s: Choice)
      requires Valid()
      modifies this, net, serial
      ensures Valid() && State() == Process(Process(old(State()), Net, n), Serial, s)
    {
      ProcessSource(net, n);
      ProcessSource(serial, s);
    }

    method ProcessSource(source: MessageSource, c: Choice)
      requires Valid() && source in {net, serial}
      modifies this, net, serial
      ensures Valid() && State() == Process(old(State()), SideOf(source), c)
    {
      hide Owns, Consume, Handle;
      if source.cmd.None? || OwnsTransfer(source) {
        return;
      }
      assert Src(State(), SideOf(source)).cmd == source.cmd;
      var pending := Dispatch(source, source.cmd.value, c);
      if !pending {
        Release(source);
      }
    }

    /** True for the one path that leaves the command to serviceUpload. */
    method Dispatch(source: MessageSource, cmd: Command, c: Choice) returns (pending: bool)
      requires Valid() && source in {net, serial}
      modifies this, source`ch, source`pos
      ensures Valid() && (State(), pending) == Handle(old(State()), SideOf(source), cmd, c)
    {
      hide Tell, DoGetFile, DoPutFile, DoPutFirmware, DoDelete, DoRename, DoPurge, DoGetArchive;
      pending := false;
      match cmd
      case PutFile(idx, len) => pending := HandleUpload(source, idx, len, c);
      case PutFirmware(len) => HandleFirmware(source, len, c);
      case GetFile(idx, lengthOk) => HandleGetFile(source, idx, lengthOk, c);
      case Delete(idx, lengthOk) => HandleDelete(source, idx, lengthOk, c);
      case Rename(idx, nameOk) => HandleRename(source, idx, nameOk, c);
      case Purge => HandlePurge(source, c);
      case GetArchive => HandleGetArchive(source, c);
      case Other(code) => Respond(source, Reply(code, c.status));
    }

    method HandleGetFile(source: MessageSource, idx: u16, lengthOk: bool, c: Choice)
      requires Valid() && source in {net, serial}
      modifies this, source`ch
      ensures Valid() && State() == DoGetFile(old(State()), SideOf(source), idx, lengthOk, c)
    {
      hide Tell;
      if !c.displayOff {
        Respond(source, Reply(0x84, CE_DISPLAY_ACTIVE));
        return;
      }
      if dl.Some? || !lengthOk || idx == 0 || idx > |patterns| || PatternBusy(idx) {
        Respond(source, Reply(0x84, 1));
        return;
      }
      var name := patterns[idx - 1].name;
      if name !in card || !c.openOk {
        Respond(source, Reply(0x84, 1));
        return;
      }
      var d: Download := Download(SideOf(source), idx, name, card[name], FileSize(card[name]), |source.ch.out|);
      Respond(source, FileHeader(d.remaining, d.content));
      dlSource, dl := source, Some(d);
    }

    method DrainBulkData(source: MessageSource, len: u32, drained: nat)
      requires Valid() && source in {net, serial}
      modifies source`pos
      ensures Valid() && State() == Drain(old(State()), SideOf(source), len, drained)
    {
      hide Arrivals;
      var bytes := source.ReadBulkBytes(len, drained);
    }

    method Reject(source: MessageSource, len: u32, drained: nat, item: Item)
      requires Valid() && source in {net, serial}
      modifies source`ch, source`pos
      ensures Valid() && State() == Tell(Drain(old(State()), SideOf(source), len, drained), SideOf(source), item)
    {
      hide Tell, Drain;
      DrainBulkData(source, len, drained);
      Respond(source, item);
    }

    method HandleUpload(source: MessageSource, idx: u16, len: u32, c: Choice) returns (handoff: bool)
      requires Valid() && source in {net, serial}
      modifies this, source`ch, source`pos
      ensures Valid() && (State(), handoff) == DoPutFile(old(State()), SideOf(source), idx, len, c)
    {
      hide Tell, Drain;
      handoff := false;
      if len == 0 {
        Respond(source, Reply(0x85, 1));
        return;
      }
      if !c.displayOff {
        Reject(source, len, c.drained, Reply(0x85, CE_DISPLAY_ACTIVE));
        return;
      }
      if ul.Some? || (dl.Some? && dl.value.idx == idx) || ar.Some? || idx > |patterns| {
        Reject(source, len, c.drained, Reply(0x85, 1));
        return;
      }
      var name := FileOf(patterns, idx);
      if !c.openOk {
        card := card - {name};
        Reject(source, len, c.drained, Reply(0x85, 1));
        return;
      }
      card := card[name := []];
      ulSource := source;
      ul := Some(Upload(SideOf(source), idx, name, len, len, false, 0, Some([]), source.pos));
      handoff := true;
    }

    method HandleFirmware(source: MessageSource, len: u32, c: Choice)
      requires Valid() && source in {net, serial}
      modifies this, source`ch, source`pos
      ensures Valid() && State() == DoPutFirmware(old(State()), SideOf(source), len, c)
    {
      hide Tell, Drain, BurnFrom, Arrivals;
      if !c.displayOff {
        Reject(source, len, c.drained, Reply(0xE0, CE_DISPLAY_ACTIVE));
        return;
      }
      if dl.Some? || ul.Some? || ar.Some? {
        Reject(source, len, c.drained, Reply(0xE0, 1));
        return;
      }
      image := None;
      if !c.openOk {
        Reject(source, len, c.drained, Reply(0xE0, 1));
        return;
      }
      var start := source.pos;
      var remaining, data, crc, ok := BurnImage(source, len, c.chunks);
      if ok {
        image := Some(data);
        Respond(source, Image(crc, start, len));
      } else {
        Reject(source, remaining, c.drained, Reply(0xE0, 1));
      }
    }

    /** The chunk loop: a write that falls short leaves the loop before the chunk is counted. */
    method BurnImage(source: MessageSource, len: u32, chunks: seq<FirmwareIo>)
      returns (remaining: u32, data: seq<byte>, crc: u32, ok: bool)
      requires Valid() && source in {net, serial}
      modifies source`pos
      ensures var src := old(source.View());
              var b := BurnFrom(src, src.pos, len, chunks, []);
              && remaining == b.remaining && data == b.image && ok == b.ok && crc == Zip.Crc(data)
              && State() == With(old(State()), SideOf(source), src.(pos := b.pos))
    {
      hide BurnFrom, Arrivals, Zip.Words, Zip.Crc, Crc32.Update;
      ghost var src := source.View();
      ghost var whole := BurnFrom(src, src.pos, len, chunks, []);
      remaining, data, ok := len, [], true;
      var register: bv32 := 0xFFFF_FFFF;
      CrcStart();
      var i := 0;
      assert chunks[0..] == chunks;
      while remaining > 0 && ok
        invariant 0 <= i <= |chunks|
        invariant if ok then BurnFrom(src, source.pos, remaining, chunks[i..], data) == whole
                  else whole == Burn(source.pos, remaining, data, false, whole.uncounted)
        invariant source.View() == src.(pos := source.pos)
        invariant register == Running(data)
        decreases ok, |chunks| - i
      {
        BurnStep(src, source.pos, remaining, chunks, i, data);
        if i == |chunks| {
          ok := false;
        } else {
          var got := source.ReadBulkBytes(if remaining < CHUNK then remaining else CHUNK, chunks[i].arrived);
          if got != [] && !chunks[i].wroteAll {
            ok := false;
          } else {
            register := MoreCrc(register, data, got);
            data := data + got;
            remaining := remaining - |got|;
            i := i + 1;
          }
        }
      }
      if ok {
        BurnDone(src, source.pos, chunks[i..], data);
      }
      CrcEnd(data);
      crc := Zip.Closed(register);
    }

    method MoreCrc(was: bv32, data: seq<byte>, got: seq<byte>) returns (register: bv32)
      requires was == Running(data)
      ensures register == Running(data + got)
    {
      Zip.WordsConcat(data, got);
      Crc32.UpdateConcat(0xFFFF_FFFF, Zip.Words(data), Zip.Words(got));
      register := Crc32.Crc32Update(was, Zip.Words(got));
    }

    method HandleDelete(source: MessageSource, idx: u16, lengthOk: bool, c: Choice)
      requires Valid() && source in {net, serial}
      modifies this, source`ch
      ensures Valid() && State() == DoDelete(old(State()), SideOf(source), idx, lengthOk, c)
    {
      hide Tell, Dropped, Corrected;
      if !lengthOk || PatternBusy(idx) {
        Respond(source, Reply(0x86, 1));
        return;
      }
      var err := DeletePattern(idx, c.mounted, c.removal);
      if err.Some? {
        Respond(source, Reply(0x86, err.value));
        return;
      }
      ShiftLatched(idx);
      Respond(source, Reply(0x86, 0));
    }

    /** The card's part of a deletion: the list shrinks once the file is gone, whatever the manifest write does. */
    method DeletePattern(idx: u16, mounted: bool, removal: Removal) returns (err: Option<byte>)
      requires Valid()
      modifies `patterns, `card
      ensures Valid()
      ensures var s := old(State());
              (State(), err) ==
                if !mounted then (s, Some(CE_SD_NOT_PRESENT))
                else if idx > |s.patterns| then (s, Some(CE_BAD_PARAM))
                else match removal
                  case NotRemoved(e) => (s, Some(e))
                  case RemovedNoManifest => (Dropped(s, idx), Some(CE_MANIFEST_WRITE_ERROR))
                  case Removed => (Dropped(s, idx), None)
    {
      if !mounted {
        return Some(CE_SD_NOT_PRESENT);
      }
      if idx > |patterns| {
        return Some(CE_BAD_PARAM);
      }
      if removal.NotRemoved? {
        return Some(removal.err);
      }
      card := card - {FileOf(patterns, idx)};
      if idx > 0 {
        patterns := Remove(patterns, idx - 1);
      }
      return if removal.Removed? then None else Some(CE_MANIFEST_WRITE_ERROR);
    }

    /** Index corrections after a deletion. */
    method ShiftLatched(idx: nat)
      requires Valid()
      modifies `dl, `ul
      ensures Valid() && State() == Corrected(old(State()), idx)
    {
      if idx >= 1 {
        if dl.Some? && dl.value.idx > idx {
          dl := Some(dl.value.(idx := dl.value.idx - 1));
        }
        if ul.Some? && ul.value.idx > idx {
          ul := Some(ul.value.(idx := ul.value.idx - 1));
        }
      }
    }

    method HandleRename(source: MessageSource, idx: u16, nameOk: bool, c: Choice)
      requires Valid() && source in {net, serial}
      modifies this, source`ch
      ensures Valid() && State() == DoRename(old(State()), SideOf(source), idx, nameOk, c)
    {
      hide Tell, PatternIndex.Rename, Moved;
      if !nameOk || idx > |patterns| || dl.Some? || ul.Some? || ar.Some? {
        Respond(source, Reply(0x83, 1));
        return;
      }
      if c.candidate.Some? && IndexOf(patterns, c.candidate.value) == 0 {
        card := Moved(card, FileOf(patterns, idx), c.candidate.value);
        patterns := PatternIndex.Rename(patterns, idx, c.candidate.value);
      }
      Respond(source, Reply(0x83, c.status));
    }

    method HandlePurge(source: MessageSource, c: Choice)
      requires Valid() && source in {net, serial}
      modifies this, source`ch
      ensures Valid() && State() == DoPurge(old(State()), SideOf(source), c)
    {
      hide Tell;
      if !c.displayOff {
        Respond(source, Reply(0x8F, CE_DISPLAY_ACTIVE));
        return;
      }
      if dl.Some? || ul.Some? || ar.Some? {
        Respond(source, Reply(0x8F, 1));
        return;
      }
      if c.purged {
        patterns, card, image := [], map[], None;
      }
      Respond(source, Reply(0x8F, c.status));
    }

    method HandleGetArchive(source: MessageSource, c: Choice)
      requires Valid() && source in {net, serial}
      modifies this, source`ch
      ensures Valid() && State() == DoGetArchive(old(State()), SideOf(source), c)
    {
      hide Tell;
      if !c.displayOff {
        Respond(source, Reply(0x8A, CE_DISPLAY_ACTIVE));
        return;
      }
      if ar.Some? || ul.Some? {
        Respond(source, Reply(0x8A, 1));
        return;
      }
      var stream := Archive.Arm(c.library.entries);
      var a: Zipping := Zipping(SideOf(source), |source.ch.out|, c.library, stream);
      Respond(source, ZipHeader(Archive.Promise(stream), c.library));
      ar := Some(a);
    }

    // ----- services -------------------------------------------------------

    /** abortUpload: the partial file is removed and the source freed. */
    method AbortUpload()
      requires Valid() && ul.Some?
      modifies `ul, `card, net`cmd, serial`cmd
      ensures Valid()
      ensures var s := old(State());
              var u := s.ul.value;
              State() == With(s, u.side, Consumed(Src(s, u.side))).(ul := None, card := s.card - {u.name})
    {
      card := card - {ul.value.name};
      Release(ulSource);
      ul := None;
    }

    /** The network client is gone: whatever it owned ends. */
    method ServiceDisconnects()
      requires Valid()
      modifies `dl, `ul, `ar, `card, net`cmd, serial`cmd
      ensures Valid() && State() == EndLost(old(State()))
    {
      if dl.Some? && dlSource == net {
        dl := None;
      }
      if ul.Some? && ulSource == net {
        AbortUpload();
      }
      if ar.Some? && ar.value.side == Net {
        ar := None;
      }
    }

    /** The start of an iteration that finds the client gone, up to the next client. */
    method LoseClient(client: Option<seq<byte>>)
      requires Valid()
      modifies this, net, serial`cmd
      ensures Valid() && State() == Disconnect(old(State()), client)
    {
      hide EndLost, Accept;
      ServiceDisconnects();
      net.AcceptClient(client);
    }

    method StreamOn(source: MessageSource, k: nat, data: seq<byte>, flushed: bool)
      requires Valid() && source in {net, serial}
      modifies source`ch
      ensures Valid() && State() == TellRaw(old(State()), SideOf(source), k, data, flushed)
    {
      hide Sources.SendRaw;
      source.SendRaw(k, data, flushed);
    }

    method ServiceDownload(io: DownloadIo)
      requires Valid()
      modifies this, net`ch, serial`ch
      ensures Valid() && State() == Transfers.ServiceDownload(old(State()), io)
    {
      hide TellRaw;
      if dl.None? {
        return;
      }
      var d := dl.value;
      if io.timedOut || d.remaining == 0 || io.rd <= 0 {
        dl := None;
        return;
      }
      var toRead := if d.remaining < CHUNK then d.remaining as int else CHUNK;
      var n := Min(io.rd, toRead);
      var sent := Min(io.accepted, n);
      StreamOn(dlSource, d.k, DownloadBytes(d, io), io.flushed);
      d := d.(remaining := d.remaining as int - sent);
      dl := if sent < n || d.remaining == 0 then None else Some(d);
    }

    method FinishUpload(item: Item)
      requires Valid() && ul.Some?
      modifies this, net, serial
      ensures Valid() && State() == EndUpload(old(State()), SideOf(ulSource), item) && ulSource == old(ulSource)
    {
      hide Tell, Consume;
      Respond(ulSource, item);
      Release(ulSource);
      ul := None;
    }

    /** The upload's first failure: the partial file goes, the rest of the payload will be drained. */
    method FailUpload()
      requires Valid() && ul.Some?
      modifies `ul, `card
      ensures Valid() && State() == old(State()).(ul := Some(Failed(old(ul.value))), card := old(card) - {old(ul.value.name)})
    {
      card := card - {ul.value.name};
      ul := Some(ul.value.(draining := true, status := 1, file := None));
    }

    /** What the card makes of a chunk. */
    method WriteChunk(chunk: seq<byte>, wroteAll: bool)
      requires Valid() && ul.Some? && |chunk| <= ul.value.remaining
      modifies `ul, `card
      ensures Valid()
      ensures var u := old(ul.value);
              var v := Took(u, chunk, wroteAll);
              State() == old(State()).(ul := Some(v), card := Written(old(card), u, v))
    {
      var u := ul.value;
      if !u.draining {
        if !wroteAll || u.file.None? {
          FailUpload();
        } else {
          var written := u.file.value + chunk;
          ul := Some(u.(file := Some(written)));
          if u.name in card {
            card := card[u.name := written];
          }
        }
      }
      ul := Some(ul.value.(remaining := ul.value.remaining as int - |chunk|));
    }

    method ServiceUpload(io: UploadIo)
      requires Valid()
      modifies this, net, serial
      ensures Valid() && State() == Transfers.ServiceUpload(old(State()), io)
    {
      hide EndUpload, Arrivals, Took, Written;
      if ul.None? {
        return;
      }
      var u := ul.value;
      if io.timedOut {
        if u.draining {
          FinishUpload(Reply(0x85, u.status));
        } else {
          FailUpload();
        }
        return;
      }
      var chunk := ulSource.ReadBulkBytes(if u.remaining < CHUNK then u.remaining as int else CHUNK, io.arrived);
      if chunk == [] {
        return;
      }
      ghost var src := Src(old(State()), u.side);
      assert chunk == src.input[src.pos..src.pos + |chunk|];
      assert State() == With(old(State()), u.side, src.(pos := src.pos + |chunk|));
      WriteChunk(chunk, io.wroteAll);
      var v := ul.value;
      if v.remaining == 0 {
        var item := if v.file.None? then Reply(0x85, v.status) else Stored(v.file.value, v.start, v.total);
        EndForgets(State(), v.side, item, Some(u));
        FinishUpload(item);
      }
    }

    /** One step of the archive stream, whose bytes go out on the latched source. */
    method ServiceArchive(io: ArchiveIo)
      requires Valid()
      modifies `ar, net`ch, serial`ch
      ensures Valid() && State() == Transfers.ServiceArchive(old(State()), io)
    {
      hide TellRaw, ZipNext, ZipSends, ZipBytes;
      if ar.None? {
        return;
      }
      var a := ar.value;
      var next := ZipNext(a, io);
      if ZipSends(a, io) {
        StreamOn(SourceOf(a.side), a.k, ZipBytes(a, io), io.flushed);
      }
      ar := if next.active then Some(a.(stream := next)) else None;
    }

    /** One loop() iteration. */
    method Iterate(t: Tick)
      requires Valid()
      modifies this, net, serial
      ensures Valid() && State() == Loop(old(State()), t)
    {
      hide Disconnect, Process, Transfers.ServiceDownload, Transfers.ServiceUpload, Transfers.ServiceArchive;
      if !t.netUp {
        LoseClient(t.client);
      }
      hide Transfers.ParseIncoming, Sources.FlushResponses;
      net.ParseIncoming(t.netParse);
      serial.ParseIncoming(t.serialParse);
      assert State() == Intake(old(State()), t);
      ProcessCommand(t.netChoice, t.serialChoice);
      ServiceDownload(t.dl);
      ServiceUpload(t.ul);
      ServiceArchive(t.ar);
      hide Intake;
      net.FlushResponses(t.netRoom && (t.netUp || t.client.Some?));
      serial.FlushResponses(t.serialRoom);
    }
  }

  lemma EndForgets(s: System, side: Side, item: Item, ul: Option<Upload>)
    ensures EndUpload(s.(ul := ul), side, item) == EndUpload(s, side, item)
  {
  }

  /** The CRC register after `data`. */
  ghost function Running(data: seq<byte>): bv32 {
    Crc32.Update(0xFFFF_FFFF, Zip.Words(data))
  }

  lemma CrcStart()
    ensures Running([]) == 0xFFFF_FFFF
  {
  }

  lemma CrcEnd(data: seq<byte>)
    ensures Zip.Closed(Running(data)) == Zip.Crc(data)
  {
  }

  /** One turn of the chunk loop on the specification. */
  lemma BurnStep(src: Source, pos: nat, remaining: u32, chunks: seq<FirmwareIo>, i: nat, data: seq<byte>)
    requires remaining > 0 && i <= |chunks|
    ensures var b := BurnFrom(src, pos, remaining, chunks[i..], data);
            if i == |chunks| then b == Burn(pos, remaining, data, false, 0)
            else
              var got := Arrivals(src.(pos := pos), chunks[i].arrived, Min(remaining, CHUNK));
              && (got > 0 ==> pos + got <= |src.input|) && got <= remaining
              && if got > 0 && !chunks[i].wroteAll then b == Burn(pos + got, remaining, data, false, got)
                 else b == BurnFrom(src, pos + got, remaining as int - got, chunks[i + 1..],
                                    data + if got == 0 then [] else src.input[pos..pos + got])
  {
    if i < |chunks| {
      assert chunks[i..][0] == chunks[i] && chunks[i..][1..] == chunks[i + 1..];
      assert data + [] == data;
    }
  }

  lemma BurnDone(src: Source, pos: nat, chunks: seq<FirmwareIo>, data: seq<byte>)
    ensures BurnFrom(src, pos, 0, chunks, data) == Burn(pos, 0, data, true, 0)
  {
  }
}
