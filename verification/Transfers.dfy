/** The three bulk transfers beside command dispatch from two sources, one loop() iteration a step. */
module Transfers {
  import opened Bytes
  import opened PatternIndex
  import opened Sources
  import opened RawBodies
  import Archive
  import Zip

  const CHUNK: nat := 4096
  const CE_BAD_PARAM: byte := 3
  const CE_SD_NOT_PRESENT: byte := 4
  const CE_MANIFEST_WRITE_ERROR: byte := 9
  const CE_DISPLAY_ACTIVE: byte := 10

  /** "pattern.temp", the file index 0 stands for. */
  const TEMP: Name := [0x70, 0x61, 0x74, 0x74, 0x65, 0x72, 0x6E, 0x2E, 0x74, 0x65, 0x6D, 0x70]

  datatype Side = Net | Serial

  /** dl_*, with the name and content of the file that was opened, and which reply is its header. */
  datatype FileStream = Download(side: Side, idx: nat, name: Name, content: seq<byte>, remaining: u32, k: nat)

  /** No more remains than the size field announced. */
  type Download = d: FileStream | d.remaining <= FileSize(d.content) witness Download(Net, 0, [], [], 0, 0)

  /** ul_*, with what the open file was given and where the payload began. */
  datatype Upload = Upload(side: Side, idx: nat, name: Name, total: u32, remaining: u32, draining: bool,
                           status: byte, file: Option<seq<byte>>, start: nat)

  /** ar_*: the stream over a library, and which reply is its header. */
  datatype ZipStream = Zipping(side: Side, k: nat, library: Archive.Library, stream: Archive.Stream)

  type Zipping = a: ZipStream | Archive.Ready(a.stream) && a.stream.entries == a.library.entries
    witness Zipping(Net, 0, Archive.Contents([], []), Archive.Arm([]))

  /** `card` is the pattern directory, `image` the firmware file. */
  datatype System = System(net: Source, serial: Source, dl: Option<Download>, ul: Option<Upload>, ar: Option<Zipping>,
                           patterns: seq<Pattern>, card: map<Name, seq<byte>>, image: Option<seq<byte>>)

  datatype Removal = NotRemoved(err: byte) | Removed | RemovedNoManifest

  /** One read of the firmware loop: how much had arrived, and whether the card took it. */
  datatype FirmwareIo = FirmwareIo(arrived: nat, wroteAll: bool)

  /** What a dispatch meets outside the processor. */
  datatype Choice = Choice(displayOff: bool, mounted: bool, openOk: bool, library: Archive.Library, drained: nat,
                           chunks: seq<FirmwareIo>, purged: bool, removal: Removal, candidate: Option<Name>, status: byte)

  function Src(s: System, side: Side): Source {
    if side == Net then s.net else s.serial
  }

  function With(s: System, side: Side, src: Source): System {
    if side == Net then s.(net := src) else s.(serial := src)
  }

  function Tell(s: System, side: Side, item: Item): System {
    With(s, side, Answer(Src(s, side), item))
  }

  /** The file an index stands for. */
  function FileOf(ps: seq<Pattern>, idx: nat): Name
    requires idx <= |ps|
  {
    if idx == 0 then TEMP else ps[idx - 1].name
  }

  // ----- dispatch ---------------------------------------------------------

  predicate Owns(s: System, side: Side) {
    || (s.dl.Some? && s.dl.value.side == side)
    || (s.ul.Some? && s.ul.value.side == side)
    || (s.ar.Some? && s.ar.value.side == side)
  }

  predicate Busy(s: System, idx: nat) {
    (s.dl.Some? && s.dl.value.idx == idx) || (s.ul.Some? && s.ul.value.idx == idx)
  }

  predicate Quiet(s: System) {
    s.dl.None? && s.ul.None? && s.ar.None?
  }

  function Arrivals(src: Source, arrived: nat, want: nat): nat {
    var n := Min(Min(arrived, want), |src.input| - src.pos);
    if n <= 0 then 0 else n
  }

  /** drainBulkData: up to `len` payload bytes are read and thrown away. */
  function Drain(s: System, side: Side, len: u32, drained: nat): System {
    var src := Src(s, side);
    With(s, side, src.(pos := src.pos + Arrivals(src, drained, len)))
  }

  predicate GetFileFree(s: System, idx: u16, lengthOk: bool) {
    s.dl.None? && lengthOk && 0 < idx <= |s.patterns| && !Busy(s, idx) && s.patterns[idx - 1].name in s.card
  }

  /** The download of an opened file, its header the next reply queued. */
  function OpenFile(s: System, side: Side, idx: u16): Download
    requires 0 < idx <= |s.patterns| && s.patterns[idx - 1].name in s.card
  {
    var name := s.patterns[idx - 1].name;
    Download(side, idx, name, s.card[name], FileSize(s.card[name]), |Src(s, side).ch.out|)
  }

  function DoGetFile(s: System, side: Side, idx: u16, lengthOk: bool, c: Choice): System {
    if !c.displayOff then Tell(s, side, Reply(0x84, CE_DISPLAY_ACTIVE))
    else if !GetFileFree(s, idx, lengthOk) || !c.openOk then Tell(s, side, Reply(0x84, 1))
    else
      var d := OpenFile(s, side, idx);
      Tell(s, side, FileHeader(d.remaining, d.content)).(dl := Some(d))
  }

  predicate PutFileFree(s: System, idx: u16) {
    s.ul.None? && !(s.dl.Some? && s.dl.value.idx == idx) && s.ar.None? && idx <= |s.patterns|
  }

  /** True in the second place when the command stays pending for serviceUpload. The old file is removed before the
      new one is opened. */
  function DoPutFile(s: System, side: Side, idx: u16, len: u32, c: Choice): (System, bool) {
    if len == 0 then (Tell(s, side, Reply(0x85, 1)), false)
    else if !c.displayOff then (Tell(Drain(s, side, len, c.drained), side, Reply(0x85, CE_DISPLAY_ACTIVE)), false)
    else if !PutFileFree(s, idx) then (Tell(Drain(s, side, len, c.drained), side, Reply(0x85, 1)), false)
    else
      var name := FileOf(s.patterns, idx);
      if !c.openOk then (Tell(Drain(s.(card := s.card - {name}), side, len, c.drained), side, Reply(0x85, 1)), false)
      else
        (s.(card := s.card[name := []],
            ul := Some(Upload(side, idx, name, len, len, false, 0, Some([]), Src(s, side).pos))), true)
  }

  /** How the firmware loop ended: where the source stands, how much the code believes is left, what was written, and
      the bytes of a chunk that was read but not counted because its write failed. */
  datatype Burn = Burn(pos: nat, remaining: u32, image: seq<byte>, ok: bool, uncounted: nat)

  function BurnFrom(src: Source, pos: nat, remaining: u32, chunks: seq<FirmwareIo>, image: seq<byte>): (b: Burn)
    decreases |chunks|
  {
    if remaining == 0 then Burn(pos, 0, image, true, 0)
    else if chunks == [] then Burn(pos, remaining, image, false, 0)
    else
      var got := Arrivals(src.(pos := pos), chunks[0].arrived, Min(remaining, CHUNK));
      if got == 0 then BurnFrom(src, pos, remaining, chunks[1..], image)
      else if !chunks[0].wroteAll then Burn(pos + got, remaining, image, false, got)
      else BurnFrom(src, pos + got, remaining as int - got, chunks[1..], image + src.input[pos..pos + got])
  }

  /** set-firmware-file, in one call; `c.chunks` ends where the host went silent. */
  function DoPutFirmware(s: System, side: Side, len: u32, c: Choice): System {
    if !c.displayOff then Tell(Drain(s, side, len, c.drained), side, Reply(0xE0, CE_DISPLAY_ACTIVE))
    else if !Quiet(s) then Tell(Drain(s, side, len, c.drained), side, Reply(0xE0, 1))
    else if !c.openOk then Tell(Drain(s.(image := None), side, len, c.drained), side, Reply(0xE0, 1))
    else
      var src := Src(s, side);
      var b := BurnFrom(src, src.pos, len, c.chunks, []);
      var read := With(s, side, src.(pos := b.pos));
      if b.ok then Tell(read.(image := Some(b.image)), side, Image(Zip.Crc(b.image), src.pos, len))
      else Tell(Drain(read.(image := None), side, b.remaining, c.drained), side, Reply(0xE0, 1))
  }

  function ShiftDownload(d: Download, deleted: nat): Download {
    d.(idx := Shifted(d.idx, deleted))
  }

  function ShiftUpload(u: Upload, deleted: nat): Upload {
    u.(idx := Shifted(u.idx, deleted))
  }

  /** The card and the list after the file is gone. */
  function Dropped(s: System, idx: nat): System
    requires idx <= |s.patterns|
  {
    s.(card := s.card - {FileOf(s.patterns, idx)},
       patterns := if idx == 0 then s.patterns else Remove(s.patterns, idx - 1))
  }

  /** Correcting both latched indices for a deletion. */
  function Corrected(s: System, deleted: nat): System {
    s.(dl := if s.dl.Some? then Some(ShiftDownload(s.dl.value, deleted)) else None,
       ul := if s.ul.Some? then Some(ShiftUpload(s.ul.value, deleted)) else None)
  }

  /** The list loses the entry whenever the file is gone; the latched indices move only on full success. */
  function DoDelete(s: System, side: Side, idx: u16, lengthOk: bool, c: Choice): System {
    if !lengthOk || Busy(s, idx) then Tell(s, side, Reply(0x86, 1))
    else if !c.mounted then Tell(s, side, Reply(0x86, CE_SD_NOT_PRESENT))
    else if idx > |s.patterns| then Tell(s, side, Reply(0x86, CE_BAD_PARAM))
    else
      match c.removal
      case NotRemoved(err) => Tell(s, side, Reply(0x86, err))
      case RemovedNoManifest => Tell(Dropped(s, idx), side, Reply(0x86, CE_MANIFEST_WRITE_ERROR))
      case Removed => Tell(Corrected(Dropped(s, idx), idx), side, Reply(0x86, 0))
  }

  function Moved(card: map<Name, seq<byte>>, src: Name, dst: Name): map<Name, seq<byte>> {
    if src in card then (card - {src})[dst := card[src]] else card
  }

  /** A name already on the card is refused by the rename itself. */
  function DoRename(s: System, side: Side, idx: u16, nameOk: bool, c: Choice): System {
    if !nameOk || idx > |s.patterns| || !Quiet(s) then Tell(s, side, Reply(0x83, 1))
    else if c.candidate.None? || IndexOf(s.patterns, c.candidate.value) != 0 then Tell(s, side, Reply(0x83, c.status))
    else
      Tell(s.(patterns := PatternIndex.Rename(s.patterns, idx, c.candidate.value),
              card := Moved(s.card, FileOf(s.patterns, idx), c.candidate.value)),
           side, Reply(0x83, c.status))
  }

  function DoPurge(s: System, side: Side, c: Choice): System {
    if !c.displayOff then Tell(s, side, Reply(0x8F, CE_DISPLAY_ACTIVE))
    else if !Quiet(s) then Tell(s, side, Reply(0x8F, 1))
    else if c.purged then Tell(s.(patterns := [], card := map[], image := None), side, Reply(0x8F, c.status))
    else Tell(s, side, Reply(0x8F, c.status))
  }

  function Armed(s: System, side: Side, library: Archive.Library): Zipping {
    Zipping(side, |Src(s, side).ch.out|, library, Archive.Arm(library.entries))
  }

  function DoGetArchive(s: System, side: Side, c: Choice): System {
    if !c.displayOff then Tell(s, side, Reply(0x8A, CE_DISPLAY_ACTIVE))
    else if s.ar.Some? || s.ul.Some? then Tell(s, side, Reply(0x8A, 1))
    else
      var a := Armed(s, side, c.library);
      Tell(s, side, ZipHeader(Archive.Promise(a.stream), c.library)).(ar := Some(a))
  }

  /** The system after a command's handler, and whether the command stays pending. */
  function Handle(s: System, side: Side, cmd: Command, c: Choice): (System, bool) {
    match cmd
    case GetFile(idx, ok) => (DoGetFile(s, side, idx, ok, c), false)
    case PutFile(idx, len) => DoPutFile(s, side, idx, len, c)
    case PutFirmware(len) => (DoPutFirmware(s, side, len, c), false)
    case Delete(idx, ok) => (DoDelete(s, side, idx, ok, c), false)
    case Rename(idx, ok) => (DoRename(s, side, idx, ok, c), false)
    case Purge => (DoPurge(s, side, c), false)
    case GetArchive => (DoGetArchive(s, side, c), false)
    case Other(code) => (Tell(s, side, Reply(code, c.status)), false)
  }

  function Consume(s: System, side: Side): System {
    With(s, side, Consumed(Src(s, side)))
  }

  predicate Dispatched(s: System, side: Side) {
    Src(s, side).cmd.Some? && !Owns(s, side)
  }

  /** One source's turn in processCommand. */
  function Process(s: System, side: Side, c: Choice): System {
    if !Dispatched(s, side) then s
    else
      var (r, pending) := Handle(s, side, Src(s, side).cmd.value, c);
      if pending then r else Consume(r, side)
  }

  // ----- connections and parsing ------------------------------------------

  /** serviceDisconnects when the network client is gone: whatever it owned ends, and a partial upload is removed. */
  function EndLost(s: System): System {
    var cut := s.ul.Some? && s.ul.value.side == Net;
    s.(dl := if s.dl.Some? && s.dl.value.side == Net then None else s.dl,
       ul := if cut then None else s.ul,
       ar := if s.ar.Some? && s.ar.value.side == Net then None else s.ar,
       card := if cut then s.card - {s.ul.value.name} else s.card,
       net := if cut then Consumed(s.net) else s.net)
  }

  /** serviceTcp with no client left: the receive state is cleared, and perhaps a new client is taken. A reply left in
      the slot stays there. */
  function Accept(src: Source, client: Option<seq<byte>>): Source {
    Source(if client.Some? then client.value else [], 0, None, 0, NewClient(src.ch))
  }

  function Disconnect(s: System, client: Option<seq<byte>>): System {
    var r := EndLost(s);
    r.(net := Accept(r.net, client))
  }

  datatype Parsed = Parsed(cmd: Option<Command>, used: nat)

  /** The parser takes bytes only while no command is pending. */
  function ParseIncoming(src: Source, p: Parsed): Source {
    if src.cmd.Some? || p.used == 0 || p.used > |src.input| - src.pos then src
    else src.(pos := src.pos + p.used, cmd := p.cmd, parsed := src.parsed + if p.cmd.Some? then 1 else 0)
  }

  function Parse(s: System, side: Side, p: Parsed): System {
    With(s, side, ParseIncoming(Src(s, side), p))
  }

  // ----- service steps ----------------------------------------------------

  /** `flushed`: sendRaw got the queued header out before it gave up waiting. */
  datatype DownloadIo = DownloadIo(timedOut: bool, rd: int, accepted: nat, flushed: bool)
  datatype UploadIo = UploadIo(timedOut: bool, arrived: nat, wroteAll: bool)
  datatype ArchiveIo = ArchiveIo(tick: Archive.Tick, flushed: bool)

  function TellRaw(s: System, side: Side, k: nat, data: seq<byte>, flushed: bool): System {
    var src := Src(s, side);
    With(s, side, src.(ch := SendRaw(src.ch, k, data, flushed)))
  }

  predicate DownloadSends(s: System, io: DownloadIo) {
    s.dl.Some? && !io.timedOut && s.dl.value.remaining > 0 && io.rd > 0
  }

  function DownloadTaken(d: Download, io: DownloadIo): (r: (nat, nat))
    requires io.rd > 0
    ensures r.1 <= r.0 <= d.remaining as int && r.0 <= CHUNK
  {
    var n := Min(io.rd, Min(d.remaining, CHUNK));
    (n, Min(io.accepted, n))
  }

  /** The next bytes of the file, as many as the transport takes. */
  function DownloadBytes(d: Download, io: DownloadIo): (r: seq<byte>)
    requires io.rd > 0
    ensures |r| == DownloadTaken(d, io).1
  {
    var at := FileSize(d.content) as int - d.remaining;
    d.content[at..at + DownloadTaken(d, io).1]
  }

  function ServiceDownload(s: System, io: DownloadIo): System {
    if s.dl.None? then s
    else if !DownloadSends(s, io) then s.(dl := None)
    else
      var d := s.dl.value;
      var (n, sent) := DownloadTaken(d, io);
      var left: u32 := d.remaining as int - sent;
      TellRaw(s, d.side, d.k, DownloadBytes(d, io), io.flushed).(
        dl := if sent < n || left == 0 then None else Some(d.(remaining := left)))
  }

  /** Reply, release the source, forget the upload. */
  function EndUpload(s: System, side: Side, item: Item): System {
    Consume(Tell(s, side, item), side).(ul := None)
  }

  /** The transfer is lost: the partial file is removed, the rest of the payload will be drained. */
  function Failed(u: Upload): Upload {
    u.(draining := true, status := 1, file := None)
  }

  /** What one arrival makes of the upload. */
  function Took(u: Upload, bytes: seq<byte>, wroteAll: bool): (v: Upload)
    requires |bytes| <= u.remaining
  {
    (if u.draining then u
     else if !wroteAll || u.file.None? then Failed(u)
     else u.(file := Some(u.file.value + bytes))).(remaining := u.remaining as int - |bytes|)
  }

  /** The card when upload `u` has become `v`: a write reaches the file while its entry is there. */
  function Written(card: map<Name, seq<byte>>, u: Upload, v: Upload): map<Name, seq<byte>> {
    if u.draining then card
    else if v.file.None? then card - {u.name}
    else if u.name in card then card[u.name := v.file.value]
    else card
  }

  /** An upload that has become `v` goes on, or ends in its reply. */
  function Settle(s: System, v: Upload): System {
    if v.remaining > 0 then s.(ul := Some(v))
    else EndUpload(s, v.side, if v.file.None? then Reply(0x85, v.status) else Stored(v.file.value, v.start, v.total))
  }

  function Arrive(s: System, u: Upload, got: nat, wroteAll: bool): System
    requires got <= u.remaining && Src(s, u.side).pos + got <= |Src(s, u.side).input|
  {
    var src := Src(s, u.side);
    var v := Took(u, src.input[src.pos..src.pos + got], wroteAll);
    Settle(With(s, u.side, src.(pos := src.pos + got)).(card := Written(s.card, u, v)), v)
  }

  function ServiceUpload(s: System, io: UploadIo): System {
    if s.ul.None? then s
    else
      var u := s.ul.value;
      if io.timedOut then
        if u.draining then EndUpload(s, u.side, Reply(0x85, u.status))
        else s.(ul := Some(Failed(u)), card := s.card - {u.name})
      else
        var got := Arrivals(Src(s, u.side), io.arrived, Min(u.remaining, CHUNK));
        if got == 0 then s else Arrive(s, u, got, io.wroteAll)
  }

  function ZipNext(a: Zipping, io: ArchiveIo): (r: Archive.Stream)
    ensures a.stream.wire <= r.wire && Archive.Ready(r) && r.entries == a.library.entries
  {
    Archive.Service(a.stream, io.tick, a.library.disk)
  }

  /** A step that has something to send calls sendRaw, whatever comes of it. */
  predicate ZipSends(a: Zipping, io: ArchiveIo) {
    a.stream.active && !io.tick.timedOut && Archive.Buffer(a.stream, io.tick.rd) != []
  }

  function ZipBytes(a: Zipping, io: ArchiveIo): seq<byte> {
    ZipNext(a, io).wire[|a.stream.wire|..]
  }

  function ServiceArchive(s: System, io: ArchiveIo): System {
    if s.ar.None? then s
    else
      var a := s.ar.value;
      var told := if ZipSends(a, io) then TellRaw(s, a.side, a.k, ZipBytes(a, io), io.flushed) else s;
      told.(ar := if ZipNext(a, io).active then Some(a.(stream := ZipNext(a, io))) else None)
  }

  function FlushSide(s: System, side: Side, room: bool): System {
    var src := Src(s, side);
    With(s, side, src.(ch := FlushResponses(src.ch, room)))
  }

  // ----- the loop ---------------------------------------------------------

  datatype Tick = Tick(netUp: bool, client: Option<seq<byte>>, netParse: Parsed, serialParse: Parsed,
                       netChoice: Choice, serialChoice: Choice, dl: DownloadIo, ul: UploadIo, ar: ArchiveIo,
                       netRoom: bool, serialRoom: bool)

  /** serviceDisconnects, both parsers. */
  function Intake(s: System, t: Tick): System {
    var s1 := if t.netUp then s else Disconnect(s, t.client);
    Parse(Parse(s1, Net, t.netParse), Serial, t.serialParse)
  }

  function Services(s: System, t: Tick): System {
    ServiceArchive(ServiceUpload(ServiceDownload(s, t.dl), t.ul), t.ar)
  }

  function Loop(s: System, t: Tick): System {
    var s1 := Process(Process(Intake(s, t), Net, t.netChoice), Serial, t.serialChoice);
    FlushSide(FlushSide(Services(s1, t), Net, t.netRoom && (t.netUp || t.client.Some?)), Serial, t.serialRoom)
  }

  function Run(s: System, ticks: seq<Tick>): System {
    if ticks == [] then s else Loop(Run(s, ticks[..|ticks| - 1]), ticks[|ticks| - 1])
  }
}
