/** What every run of the transfers keeps: ownership, whole bodies, one reply queued per command, exact byte counts. */
module TransferProofs {
  import opened Bytes
  import opened PatternIndex
  import opened Sources
  import opened RawBodies
  import opened Transfers
  import Archive
  import ArchiveProofs
  import ArchiveRuns
  import Zip
  import Crc32

  // ----- the invariant ----------------------------------------------------

  /** No two transfers share a source, an upload and an archive never overlap, and a download and an upload never
      hold one index. */
  predicate Owned(s: System) {
    && (s.dl.Some? && s.ul.Some? ==> s.dl.value.side != s.ul.value.side && s.dl.value.idx != s.ul.value.idx)
    && (s.dl.Some? && s.ar.Some? ==> s.dl.value.side != s.ar.value.side)
    && !(s.ul.Some? && s.ar.Some?)
  }

  /** The reply whose body this side is sending. */
  function BodyOn(s: System, side: Side): Option<nat> {
    if s.dl.Some? && s.dl.value.side == side then Some(s.dl.value.k)
    else if s.ar.Some? && s.ar.value.side == side then Some(s.ar.value.k)
    else None
  }

  /** The header announced the opened file, and what has gone out behind it is the file but for what remains. */
  predicate DownloadOk(d: Download, src: Source) {
    && d.k < |src.ch.out| && src.ch.out[d.k] == FileHeader(FileSize(d.content), d.content)
    && BodyOf(src.ch.wire, src.ch.conn, d.k) == d.content[..FileSize(d.content) as int - d.remaining]
  }

  /** The header announced the archive's length, and what has gone out is what the stream has sent so far. */
  ghost predicate ArchiveOk(a: Zipping, src: Source) {
    && a.k < |src.ch.out|
    && src.ch.out[a.k] == ZipHeader(Archive.Promise(Archive.Arm(a.library.entries)), a.library)
    && a.stream.active && Streams(a.stream, a.library, BodyOf(src.ch.wire, src.ch.conn, a.k))
  }

  /** Consumed plus remaining is the total; while writing, the file is the payload so far; a failed upload has no
      file. Its command is still pending. */
  predicate UploadOk(u: Upload, src: Source) {
    && 0 < u.remaining <= u.total
    && u.start + u.total as nat == src.pos + u.remaining as nat
    && u.start <= src.pos <= |src.input|
    && src.cmd.Some?
    && u.draining == u.file.None? == (u.status != 0)
    && (u.file.Some? ==> u.file.value == src.input[u.start..src.pos])
  }

  ghost predicate Inv(s: System) {
    && Owned(s)
    && SourceOk(s.net, BodyOn(s, Net))
    && SourceOk(s.serial, BodyOn(s, Serial))
    && (s.dl.Some? ==> DownloadOk(s.dl.value, Src(s, s.dl.value.side)))
    && (s.ul.Some? ==> UploadOk(s.ul.value, Src(s, s.ul.value.side)))
    && (s.ar.Some? ==> ArchiveOk(s.ar.value, Src(s, s.ar.value.side)))
  }

  // ----- dispatch ---------------------------------------------------------

  function Peer(side: Side): Side {
    if side == Net then Serial else Net
  }

  /** `r` differs from `s` in one idle source's bytes, the pattern list and the card. */
  ghost predicate Apart(s: System, r: System, side: Side) {
    && r.dl == s.dl && r.ul == s.ul && r.ar == s.ar
    && Src(r, Peer(side)) == Src(s, Peer(side))
    && SourceOk(Src(r, side), None) && Src(r, side).cmd.Some?
  }

  /** An honest reply on a source that owns nothing disturbs nothing. */
  lemma ReplyKeeps(s: System, r: System, side: Side, item: Item)
    requires Inv(s) && !Owns(s, side) && Apart(s, r, side) && Honest(Src(r, side), item) && !Heads(item)
    ensures Inv(Consume(Tell(r, side, item), side))
  {
    Answered(Src(r, side), item, None);
    hide SourceOk, DownloadOk, ArchiveOk, UploadOk, Honest, Answer;
  }

  lemma StatusKeeps(s: System, r: System, side: Side, cmd: byte, status: byte)
    requires Inv(s) && !Owns(s, side) && Apart(s, r, side)
    ensures Inv(Consume(Tell(r, side, Reply(cmd, status)), side))
  {
    ReplyKeeps(s, r, side, Reply(cmd, status));
    hide Inv, Apart;
  }

  lemma IdleSource(s: System, side: Side)
    requires Inv(s) && !Owns(s, side)
    ensures SourceOk(Src(s, side), None)
  {
    hide SourceOk, DownloadOk, ArchiveOk, UploadOk, Owned;
  }

  lemma ReadApart(s: System, r: System, side: Side, n: nat)
    requires Inv(s) && !Owns(s, side) && Src(s, side).cmd.Some? && Src(s, side).pos + n <= |Src(s, side).input|
    requires r.dl == s.dl && r.ul == s.ul && r.ar == s.ar && Src(r, Peer(side)) == Src(s, Peer(side))
    requires Src(r, side) == Src(s, side).(pos := Src(s, side).pos + n)
    ensures Apart(s, r, side)
  {
    IdleSource(s, side);
    Advanced(Src(s, side), n, None);
    hide SourceOk, Inv;
  }

  lemma ArrivalsFit(src: Source, arrived: nat, want: nat)
    requires src.pos <= |src.input|
    ensures src.pos + Arrivals(src, arrived, want) <= |src.input| && Arrivals(src, arrived, want) <= want
  {
  }

  lemma PosFits(s: System, side: Side)
    requires Inv(s)
    ensures Src(s, side).pos <= |Src(s, side).input|
  {
    hide Clean, DownloadOk, UploadOk, Owned;
  }

  /** `r` is `s` but for the card and the list; then payload bytes are thrown away. */
  lemma DrainApart(s: System, r: System, side: Side, len: u32, drained: nat)
    requires Inv(s) && !Owns(s, side) && Src(s, side).cmd.Some?
    requires r == s.(card := r.card, image := r.image)
    ensures Apart(s, Drain(r, side, len, drained), side)
  {
    PosFits(s, side);
    var src := Src(s, side);
    ArrivalsFit(src, drained, len);
    hide Inv, Apart, Owns, Arrivals;
    ReadApart(s, Drain(r, side, len, drained), side, Arrivals(src, drained, len));
  }

  lemma SelfApart(s: System, r: System, side: Side)
    requires Inv(s) && !Owns(s, side) && Src(s, side).cmd.Some?
    requires r == s.(patterns := r.patterns, card := r.card, image := r.image)
    ensures Apart(s, r, side)
  {
    IdleSource(s, side);
    hide SourceOk, Inv;
  }

  /** The header of a body just queued: nothing of it is on the wire. */
  lemma HeaderQueued(src: Source, item: Item)
    requires SourceOk(src, None)
    ensures var ch, k := Answer(src, item).ch, |src.ch.out|;
            ch.out[k] == item && ch.conn == src.ch.conn && BodyOf(ch.wire, ch.conn, k) == []
  {
    hide Accounted, BodyOf;
    NotYet(src.ch);
  }

  lemma ArmDownload(s: System, side: Side, d: Download)
    requires Inv(s) && !Owns(s, side) && Src(s, side).cmd.Some? && s.dl.None?
    requires d.side == side && d.remaining == FileSize(d.content) && !Busy(s, d.idx) && d.k == |Src(s, side).ch.out|
    ensures Inv(Consume(Tell(s, side, FileHeader(FileSize(d.content), d.content)).(dl := Some(d)), side))
  {
    var src, item := Src(s, side), FileHeader(FileSize(d.content), d.content);
    IdleSource(s, side);
    HeaderQueued(src, item);
    hide SourceOk, UploadOk, ArchiveOk, Answer, BodyOf, FileSize;
    Answered(src, item, Some(d.k));
  }

  lemma ArmArchive(s: System, side: Side, library: Archive.Library)
    requires Inv(s) && !Owns(s, side) && Src(s, side).cmd.Some? && s.ar.None? && s.ul.None?
    ensures var a := Armed(s, side, library);
            Inv(Consume(Tell(s, side, ZipHeader(Archive.Promise(a.stream), library)).(ar := Some(a)), side))
  {
    var a, src := Armed(s, side, library), Src(s, side);
    var item := ZipHeader(Archive.Promise(a.stream), library);
    IdleSource(s, side);
    HeaderQueued(src, item);
    ArmStreams(library);
    hide SourceOk, UploadOk, DownloadOk, Answer, BodyOf, Streams, Archive.Arm, Archive.Promise;
    Answered(src, item, Some(a.k));
  }

  /** An armed archive has sent nothing, and that rightly. */
  lemma ArmStreams(library: Archive.Library)
    ensures Streams(Archive.Arm(library.entries), library, []) && Zipped(library, [])
  {
    ArchiveProofs.ArmInv(library.entries);
    ArchiveRuns.ArmFaithful(library.entries, library.disk, false);
    hide ArchiveProofs.Inv, ArchiveRuns.Faithful;
  }

  lemma ArmUpload(s: System, side: Side, u: Upload, card: map<Name, seq<byte>>)
    requires Inv(s) && !Owns(s, side) && Src(s, side).cmd.Some? && s.ul.None? && s.ar.None?
    requires s.dl.Some? ==> s.dl.value.idx != u.idx
    requires u.side == side && u.remaining == u.total > 0 && !u.draining && u.status == 0 && u.file == Some([])
    requires u.start == Src(s, side).pos
    ensures Inv(s.(card := card, ul := Some(u)))
  {
    PosFits(s, side);
    hide SourceOk, DownloadOk, ArchiveOk;
  }

  lemma GetFileKeeps(s: System, side: Side, idx: u16, lengthOk: bool, c: Choice)
    requires Inv(s) && !Owns(s, side) && Src(s, side).cmd.Some?
    ensures Inv(Consume(DoGetFile(s, side, idx, lengthOk, c), side))
  {
    hide Inv, Consume, Tell, Owns, Busy;
    SelfApart(s, s, side);
    StatusKeeps(s, s, side, 0x84, 1);
    StatusKeeps(s, s, side, 0x84, CE_DISPLAY_ACTIVE);
    if GetFileFree(s, idx, lengthOk) {
      ArmDownload(s, side, OpenFile(s, side, idx));
    }
  }

  lemma GetArchiveKeeps(s: System, side: Side, c: Choice)
    requires Inv(s) && !Owns(s, side) && Src(s, side).cmd.Some?
    ensures Inv(Consume(DoGetArchive(s, side, c), side))
  {
    hide Inv, Consume, Tell, Owns;
    SelfApart(s, s, side);
    StatusKeeps(s, s, side, 0x8A, 1);
    StatusKeeps(s, s, side, 0x8A, CE_DISPLAY_ACTIVE);
    if s.ar.None? && s.ul.None? {
      ArmArchive(s, side, c.library);
    }
  }

  lemma DrainedReplyKeeps(s: System, r: System, side: Side, len: u32, drained: nat, cmd: byte, status: byte)
    requires Inv(s) && !Owns(s, side) && Src(s, side).cmd.Some? && r == s.(card := r.card, image := r.image)
    ensures Inv(Consume(Tell(Drain(r, side, len, drained), side, Reply(cmd, status)), side))
  {
    hide Inv, Consume, Tell, Owns, Drain;
    DrainApart(s, r, side, len, drained);
    StatusKeeps(s, Drain(r, side, len, drained), side, cmd, status);
  }

  lemma PutFileKeeps(s: System, side: Side, idx: u16, len: u32, c: Choice)
    requires Inv(s) && !Owns(s, side) && Src(s, side).cmd.Some?
    ensures var (r, pending) := DoPutFile(s, side, idx, len, c); Inv(if pending then r else Consume(r, side))
  {
    hide Inv, Consume, Tell, Owns, Drain;
    SelfApart(s, s, side);
    StatusKeeps(s, s, side, 0x85, 1);
    DrainedReplyKeeps(s, s, side, len, c.drained, 0x85, 1);
    DrainedReplyKeeps(s, s, side, len, c.drained, 0x85, CE_DISPLAY_ACTIVE);
    if len > 0 && PutFileFree(s, idx) {
      var name := FileOf(s.patterns, idx);
      DrainedReplyKeeps(s, s.(card := s.card - {name}), side, len, c.drained, 0x85, 1);
      ArmUpload(s, side, Upload(side, idx, name, len, len, false, 0, Some([]), Src(s, side).pos), s.card[name := []]);
    }
  }

  // ----- the firmware loop ------------------------------------------------

  /** The loop counts what it keeps: read and left make up the total, but for one chunk whose write failed. */
  lemma {:induction false} BurnCounts(src: Source, pos: nat, remaining: u32, chunks: seq<FirmwareIo>, start: nat,
                                      image: seq<byte>)
    requires start <= pos <= |src.input| && image == src.input[start..pos]
    ensures var b := BurnFrom(src, pos, remaining, chunks, image);
            && pos <= b.pos <= |src.input| && b.uncounted <= b.remaining && b.uncounted <= CHUNK
            && b.pos + b.remaining as nat == pos + remaining as nat + b.uncounted
            && (b.ok <==> b.remaining == 0)
            && (b.ok ==> b.image == src.input[start..b.pos])
            && (b.uncounted > 0 ==> !b.ok)
    decreases |chunks|
  {
    if remaining > 0 && chunks != [] {
      ArrivalsFit(src.(pos := pos), chunks[0].arrived, Min(remaining, CHUNK));
      var got := Arrivals(src.(pos := pos), chunks[0].arrived, Min(remaining, CHUNK));
      hide Arrivals;
      assert src.input[start..pos] + src.input[pos..pos + got] == src.input[start..pos + got];
      if got == 0 {
        BurnCounts(src, pos, remaining, chunks[1..], start, image);
      } else if chunks[0].wroteAll {
        BurnCounts(src, pos + got, remaining as int - got, chunks[1..], start, image + src.input[pos..pos + got]);
      }
    }
  }

  predicate FirmwareTaken(s: System, c: Choice) {
    c.displayOff && Quiet(s) && c.openOk
  }

  function BurnOf(s: System, side: Side, len: u32, c: Choice): Burn {
    BurnFrom(Src(s, side), Src(s, side).pos, len, c.chunks, [])
  }

  lemma PutFirmwareKeeps(s: System, side: Side, len: u32, c: Choice)
    requires Inv(s) && !Owns(s, side) && Src(s, side).cmd.Some?
    ensures Inv(Consume(DoPutFirmware(s, side, len, c), side))
  {
    PosFits(s, side);
    hide Inv, Consume, Tell, Owns, Drain, BurnFrom;
    if !FirmwareTaken(s, c) {
      DrainedReplyKeeps(s, s, side, len, c.drained, 0xE0, CE_DISPLAY_ACTIVE);
      DrainedReplyKeeps(s, s, side, len, c.drained, 0xE0, 1);
      DrainedReplyKeeps(s, s.(image := None), side, len, c.drained, 0xE0, 1);
    } else {
      BurnKeeps(s, side, len, c);
    }
  }

  lemma BurnKeeps(s: System, side: Side, len: u32, c: Choice)
    requires Inv(s) && !Owns(s, side) && Src(s, side).cmd.Some? && FirmwareTaken(s, c)
    ensures Inv(Consume(DoPutFirmware(s, side, len, c), side))
  {
    hide Inv, Consume, Tell, Owns, BurnFrom, Drain, Honest, Src, With, Zip.Crc;
    PosFits(s, side);
    var src := Src(s, side);
    BurnCounts(src, src.pos, len, c.chunks, src.pos, []);
    var b := BurnOf(s, side, len, c);
    if b.ok {
      BurntKeeps(s, side, src, b, Image(Zip.Crc(b.image), src.pos, len));
    } else {
      UnburntKeeps(s, side, src, b.pos, b.remaining, c.drained);
    }
  }

  lemma BurntKeeps(s: System, side: Side, src: Source, b: Burn, item: Item)
    requires Inv(s) && !Owns(s, side) && src == Src(s, side) && src.cmd.Some? && src.pos <= b.pos <= |src.input|
    requires item.Image? && item.start == src.pos && src.pos + item.total as nat == b.pos
    requires item.crc == Zip.Crc(src.input[src.pos..b.pos])
    ensures Inv(Consume(Tell(With(s, side, src.(pos := b.pos)).(image := Some(b.image)), side, item), side))
  {
    hide Inv, Consume, Tell, Owns, Apart, Zip.Crc;
    var r := With(s, side, src.(pos := b.pos)).(image := Some(b.image));
    ReadApart(s, r, side, b.pos - src.pos);
    ReplyKeeps(s, r, side, item);
  }

  lemma UnburntKeeps(s: System, side: Side, src: Source, pos: nat, remaining: u32, drained: nat)
    requires Inv(s) && !Owns(s, side) && src == Src(s, side) && src.cmd.Some? && src.pos <= pos <= |src.input|
    ensures var read := With(s, side, src.(pos := pos)).(image := None);
            Inv(Consume(Tell(Drain(read, side, remaining, drained), side, Reply(0xE0, 1)), side))
  {
    hide Inv, Consume, Tell, Owns, Apart;
    var read := With(s, side, src.(pos := pos)).(image := None);
    var m := Arrivals(src.(pos := pos), drained, remaining);
    ArrivalsFit(src.(pos := pos), drained, remaining);
    hide Arrivals;
    var r := Drain(read, side, remaining, drained);
    ReadApart(s, r, side, pos - src.pos + m);
    StatusKeeps(s, r, side, 0xE0, 1);
  }

  /** A firmware upload that is taken and replies 0 read exactly its payload, and the card and the CRC are the
      payload's. One that fails, and whose drain runs its course, leaves its source at the first byte after the payload
      exactly when no write failed; otherwise it has eaten as many bytes of what follows as that chunk held. */
  lemma FirmwareResyncIff(s: System, side: Side, len: u32, c: Choice)
    requires Inv(s) && FirmwareTaken(s, c)
    ensures var src, b, r := Src(s, side), BurnOf(s, side, len, c), DoPutFirmware(s, side, len, c);
            var now := Src(r, side);
            && now.ch.out == src.ch.out + [if b.ok then Image(Zip.Crc(b.image), src.pos, len) else Reply(0xE0, 1)]
            && (b.ok ==> now.pos == src.pos + len as nat <= |src.input|
                         && r.image == Some(src.input[src.pos..now.pos]) && r.image.value == b.image)
            && (!b.ok ==> r.image.None?)
            && (c.drained >= b.remaining && b.pos + b.remaining as nat <= |src.input| ==>
                  && now.pos == src.pos + len as nat + b.uncounted && b.uncounted <= CHUNK
                  && (now.pos == src.pos + len as nat <==> b.uncounted == 0))
  {
    PosFits(s, side);
    var src := Src(s, side);
    BurnCounts(src, src.pos, len, c.chunks, src.pos, []);
    hide Inv, BurnFrom;
  }

  /** The chunk left uncounted is one whose write failed. */
  lemma {:induction false} UncountedIff(src: Source, pos: nat, remaining: u32, chunks: seq<FirmwareIo>,
                                        image: seq<byte>)
    requires pos <= |src.input|
    ensures BurnFrom(src, pos, remaining, chunks, image).uncounted > 0
            <==> WriteFails(src, pos, remaining, chunks)
    decreases |chunks|
  {
    if remaining > 0 && chunks != [] {
      ArrivalsFit(src.(pos := pos), chunks[0].arrived, Min(remaining, CHUNK));
      var got := Arrivals(src.(pos := pos), chunks[0].arrived, Min(remaining, CHUNK));
      hide Arrivals;
      if got == 0 {
        UncountedIff(src, pos, remaining, chunks[1..], image);
      } else if chunks[0].wroteAll {
        UncountedIff(src, pos + got, remaining as int - got, chunks[1..], image + src.input[pos..pos + got]);
      }
    }
  }

  /** Some read that brought bytes while the upload was still going met a card that would not take them. */
  predicate WriteFails(src: Source, pos: nat, remaining: u32, chunks: seq<FirmwareIo>)
    decreases |chunks|
  {
    remaining > 0 && chunks != [] &&
    var got := Arrivals(src.(pos := pos), chunks[0].arrived, Min(remaining, CHUNK));
    if got == 0 then WriteFails(src, pos, remaining, chunks[1..])
    else !chunks[0].wroteAll || (got <= remaining && WriteFails(src, pos + got, remaining as int - got, chunks[1..]))
  }

  /** One payload byte the card will not take, and the byte behind it is eaten too: it was the next command's. */
  lemma FirmwareOverruns(s: System, side: Side, c: Choice)
    requires Inv(s) && FirmwareTaken(s, c) && c.chunks == [FirmwareIo(1, false)] && c.drained >= 1
    requires Src(s, side).pos + 2 <= |Src(s, side).input|
    ensures var r := DoPutFirmware(s, side, 1, c);
            Src(r, side).pos == Src(s, side).pos + 2 && Src(r, side).ch.out == Src(s, side).ch.out + [Reply(0xE0, 1)]
  {
    FirmwareResyncIff(s, side, 1, c);
    hide Inv, DoPutFirmware;
  }

  // ----- deletion, rename, purge ------------------------------------------

  lemma CorrectedKeeps(s: System, deleted: nat)
    requires Inv(s) && !Busy(s, deleted)
    ensures Inv(Corrected(s, deleted)) && forall side :: Owns(Corrected(s, deleted), side) == Owns(s, side)
  {
    hide SourceOk, ArchiveOk, BodyOf;
  }

  lemma DroppedApart(s: System, side: Side, idx: nat)
    requires Inv(s) && !Owns(s, side) && Src(s, side).cmd.Some? && idx <= |s.patterns|
    ensures Apart(s, Dropped(s, idx), side)
  {
    hide Inv, Owns, Apart, Remove;
    SelfApart(s, Dropped(s, idx), side);
  }

  lemma DeleteKeeps(s: System, side: Side, idx: u16, lengthOk: bool, c: Choice)
    requires Inv(s) && !Owns(s, side) && Src(s, side).cmd.Some?
    ensures Inv(Consume(DoDelete(s, side, idx, lengthOk, c), side))
  {
    hide Inv, Consume, Tell, Busy, Owns, Dropped, Corrected, Src, Apart;
    SelfApart(s, s, side);
    if !lengthOk || Busy(s, idx) {
      StatusKeeps(s, s, side, 0x86, 1);
    } else if !c.mounted {
      StatusKeeps(s, s, side, 0x86, CE_SD_NOT_PRESENT);
    } else if idx > |s.patterns| {
      StatusKeeps(s, s, side, 0x86, CE_BAD_PARAM);
    } else {
      match c.removal
      case NotRemoved(err) => StatusKeeps(s, s, side, 0x86, err);
      case RemovedNoManifest =>
        DroppedApart(s, side, idx);
        StatusKeeps(s, Dropped(s, idx), side, 0x86, CE_MANIFEST_WRITE_ERROR);
      case Removed => RemovedKeeps(s, side, idx);
    }
  }

  lemma RemovedKeeps(s: System, side: Side, idx: nat)
    requires Inv(s) && !Owns(s, side) && Src(s, side).cmd.Some? && !Busy(s, idx) && idx <= |s.patterns|
    ensures Inv(Consume(Tell(Corrected(Dropped(s, idx), idx), side, Reply(0x86, 0)), side))
  {
    hide Inv, Consume, Tell, Busy, Owns, Remove, Apart;
    var fixed := Corrected(s, idx);
    CorrectedKeeps(s, idx);
    assert Src(fixed, side) == Src(s, side);
    DroppedApart(fixed, side, idx);
    assert Dropped(fixed, idx) == Corrected(Dropped(s, idx), idx);
    StatusKeeps(fixed, Dropped(fixed, idx), side, 0x86, 0);
  }

  lemma RenameKeeps(s: System, side: Side, idx: u16, nameOk: bool, c: Choice)
    requires Inv(s) && !Owns(s, side) && Src(s, side).cmd.Some?
    ensures Inv(Consume(DoRename(s, side, idx, nameOk, c), side))
  {
    hide Inv, Consume, Tell, Owns, Src, Apart, PatternIndex.Rename, Moved;
    SelfApart(s, s, side);
    StatusKeeps(s, s, side, 0x83, 1);
    StatusKeeps(s, s, side, 0x83, c.status);
    if idx <= |s.patterns| && c.candidate.Some? {
      var r := s.(patterns := PatternIndex.Rename(s.patterns, idx, c.candidate.value),
                  card := Moved(s.card, FileOf(s.patterns, idx), c.candidate.value));
      SelfApart(s, r, side);
      StatusKeeps(s, r, side, 0x83, c.status);
    }
  }

  lemma PurgeKeeps(s: System, side: Side, c: Choice)
    requires Inv(s) && !Owns(s, side) && Src(s, side).cmd.Some?
    ensures Inv(Consume(DoPurge(s, side, c), side))
  {
    hide Inv, Consume, Tell, Owns, Src, Apart;
    SelfApart(s, s, side);
    StatusKeeps(s, s, side, 0x8F, 1);
    StatusKeeps(s, s, side, 0x8F, CE_DISPLAY_ACTIVE);
    StatusKeeps(s, s, side, 0x8F, c.status);
    var r := s.(patterns := [], card := map[], image := None);
    SelfApart(s, r, side);
    StatusKeeps(s, r, side, 0x8F, c.status);
  }

  lemma ProcessKeeps(s: System, side: Side, c: Choice)
    requires Inv(s)
    ensures Inv(Process(s, side, c))
  {
    hide Inv, Consume, Tell, Owns, Src, DoGetFile, DoPutFile, DoPutFirmware, DoDelete, DoRename, DoPurge,
         DoGetArchive;
    if Src(s, side).cmd.Some? && !Owns(s, side) {
      match Src(s, side).cmd.value
      case GetFile(idx, ok) => GetFileKeeps(s, side, idx, ok, c);
      case PutFile(idx, len) => PutFileKeeps(s, side, idx, len, c);
      case PutFirmware(len) => PutFirmwareKeeps(s, side, len, c);
      case Delete(idx, ok) => DeleteKeeps(s, side, idx, ok, c);
      case Rename(idx, ok) => RenameKeeps(s, side, idx, ok, c);
      case Purge => PurgeKeeps(s, side, c);
      case GetArchive => GetArchiveKeeps(s, side, c);
      case Other(code) =>
        SelfApart(s, s, side);
        StatusKeeps(s, s, side, code, c.status);
    }
  }

  // ----- connections, parsing and service steps ---------------------------

  lemma AcceptOk(src: Source, client: Option<seq<byte>>, was: Option<nat>)
    requires Clean(src.ch, was)
    ensures SourceOk(Accept(src, client), None)
  {
    ClientClean(src.ch, was);
    hide Clean;
  }

  lemma DisconnectKeeps(s: System, client: Option<seq<byte>>)
    requires Inv(s)
    ensures Inv(Disconnect(s, client))
  {
    AcceptOk(EndLost(s).net, client, BodyOn(s, Net));
    hide SourceOk, Accept, Clean, DownloadOk, UploadOk, ArchiveOk;
  }

  lemma Parsing(src: Source, p: Parsed, body: Option<nat>)
    requires SourceOk(src, body) && src.cmd.None? && src.pos + p.used <= |src.input|
    ensures SourceOk(src.(pos := src.pos + p.used, cmd := p.cmd,
                          parsed := src.parsed + if p.cmd.Some? then 1 else 0), body)
  {
    hide Clean, Honest;
    SameBytes(src, src.(pos := src.pos + p.used, cmd := p.cmd, parsed := src.parsed + if p.cmd.Some? then 1 else 0));
  }

  lemma ParseKeeps(s: System, side: Side, p: Parsed)
    requires Inv(s)
    ensures Inv(Parse(s, side, p))
  {
    hide SourceOk, BodyOf;
    var src := Src(s, side);
    PosFits(s, side);
    if src.cmd.None? && p.used <= |src.input| - src.pos {
      Parsing(src, p, BodyOn(s, side));
    }
    hide SourceOk, BodyOf;
  }

  lemma FlushOk(src: Source, room: bool, body: Option<nat>)
    requires SourceOk(src, body)
    ensures SourceOk(src.(ch := FlushResponses(src.ch, room)), body)
  {
    FlushClean(src.ch, room, body);
    hide Clean;
    Sent(src, FlushResponses(src.ch, room), body, body);
  }

  /** More of the body of reply `k`, as its header promised. */
  lemma RawOk(src: Source, k: nat, data: seq<byte>, flushed: bool)
    requires SourceOk(src, Some(k)) && Promised(src.ch.out[k], BodyOf(src.ch.wire, src.ch.conn, k) + data)
    ensures SourceOk(src.(ch := SendRaw(src.ch, k, data, flushed)), Some(k))
    ensures BodyOf(SendRaw(src.ch, k, data, flushed).wire, src.ch.conn, k) == BodyOf(src.ch.wire, src.ch.conn, k) + data
  {
    RawClean(src.ch, k, data, flushed);
    RawLengthens(src.ch, k, data, flushed, k);
    hide Clean, BodyOf, Promised;
    Sent(src, SendRaw(src.ch, k, data, flushed), Some(k), Some(k));
  }

  /** The next bytes of the file, behind what went before. */
  lemma FileGoesOn(d: Download, src: Source, io: DownloadIo)
    requires DownloadOk(d, src) && io.rd > 0
    ensures var body, sent := BodyOf(src.ch.wire, src.ch.conn, d.k), DownloadTaken(d, io).1;
            && body + DownloadBytes(d, io) == d.content[..FileSize(d.content) as int - (d.remaining as int - sent)]
            && Promised(src.ch.out[d.k], body + DownloadBytes(d, io))
  {
    hide BodyOf, DownloadTaken;
    var size, sent := FileSize(d.content) as int, DownloadTaken(d, io).1;
    var at := size - d.remaining;
    assert d.content[..at] + d.content[at..at + sent] == d.content[..at + sent];
    assert d.content[..at + sent] <= d.content[..size];
    hide FileSize;
  }

  lemma ServiceDownloadKeeps(s: System, io: DownloadIo)
    requires Inv(s)
    ensures Inv(ServiceDownload(s, io))
  {
    hide TellRaw, SourceOk, UploadOk, ArchiveOk, DownloadOk;
    if DownloadSends(s, io) {
      var d := s.dl.value;
      var (n, sent) := DownloadTaken(d, io);
      hide Inv, DownloadTaken;
      StreamedKeeps(s, d, Src(s, d.side), io, sent < n || d.remaining as int == sent);
    } else if s.dl.Some? {
      BodyEnds(Src(s, s.dl.value.side), BodyOn(s, s.dl.value.side));
    }
  }

  /** Raw bytes of the download in flight, which then goes on or ends. */
  lemma StreamedKeeps(s: System, d: Download, src: Source, io: DownloadIo, ends: bool)
    requires Inv(s) && s.dl == Some(d) && src == Src(s, d.side) && io.rd > 0
    ensures var left: u32 := d.remaining as int - DownloadTaken(d, io).1;
            Inv(TellRaw(s, d.side, d.k, DownloadBytes(d, io), io.flushed).(dl := if ends then None else Some(d.(remaining := left))))
  {
    hide SourceOk, UploadOk, ArchiveOk, Promised, BodyOf, SendRaw, DownloadTaken, FileSize, DownloadBytes;
    FileGoesOn(d, src, io);
    var data := DownloadBytes(d, io);
    RawOk(src, d.k, data, io.flushed);
    RawQuiet(src.ch, d.k, data, io.flushed);
    BodyEnds(src.(ch := SendRaw(src.ch, d.k, data, io.flushed)), Some(d.k));
  }

  lemma RawQuiet(ch: Channel, k: nat, data: seq<byte>, flushed: bool)
    ensures var r := SendRaw(ch, k, data, flushed); r.out == ch.out && r.conn == ch.conn
  {
  }

  lemma StreamGoesOn(a: Zipping, src: Source, io: ArchiveIo)
    requires ArchiveOk(a, src)
    ensures Streams(ZipNext(a, io), a.library, BodyOf(src.ch.wire, src.ch.conn, a.k) + ZipBytes(a, io))
    ensures Promised(src.ch.out[a.k], BodyOf(src.ch.wire, src.ch.conn, a.k) + ZipBytes(a, io))
    ensures !ZipSends(a, io) ==> ZipBytes(a, io) == []
  {
    hide BodyOf, ArchiveProofs.Inv, ArchiveRuns.Faithful, Archive.Buffer, Archive.Next, Archive.Promise, Archive.Arm;
    ArchiveRuns.ServiceKeepsFaithful(a.stream, io.tick, a.library.disk, false);
    var body := BodyOf(src.ch.wire, src.ch.conn, a.k);
    var next := ZipNext(a, io);
    assert body + ZipBytes(a, io) == next.wire;
  }

  lemma ServiceArchiveKeeps(s: System, io: ArchiveIo)
    requires Inv(s)
    ensures Inv(ServiceArchive(s, io))
  {
    hide SourceOk, UploadOk, DownloadOk, ArchiveOk, SendRaw, ZipNext, ZipSends, ZipBytes;
    if s.ar.Some? {
      hide Inv;
      ZippedKeeps(s, s.ar.value, Src(s, s.ar.value.side), io);
    }
  }

  lemma ZippedKeeps(s: System, a: Zipping, src: Source, io: ArchiveIo)
    requires Inv(s) && s.ar == Some(a) && src == Src(s, a.side)
    ensures Inv(ServiceArchive(s, io))
  {
    hide SourceOk, UploadOk, DownloadOk, Promised, Streams, BodyOf, SendRaw, ZipNext, ZipSends, ZipBytes;
    StreamGoesOn(a, src, io);
    var data := ZipBytes(a, io);
    if ZipSends(a, io) {
      RawOk(src, a.k, data, io.flushed);
      RawQuiet(src.ch, a.k, data, io.flushed);
      BodyEnds(src.(ch := SendRaw(src.ch, a.k, data, io.flushed)), Some(a.k));
    } else {
      assert BodyOf(src.ch.wire, src.ch.conn, a.k) + [] == BodyOf(src.ch.wire, src.ch.conn, a.k);
      BodyEnds(src, Some(a.k));
    }
  }

  lemma FlushSideKeeps(s: System, side: Side, room: bool)
    requires Inv(s)
    ensures Inv(FlushSide(s, side, room))
  {
    hide SourceOk, BodyOf, Streams, FlushResponses;
    var ch := Src(s, side).ch;
    FlushOk(Src(s, side), room, BodyOn(s, side));
    FlushQuiet(ch, room);
    if BodyOn(s, side).Some? {
      FlushKeepsBody(ch, room, BodyOn(s, side).value);
    }
  }

  lemma FlushQuiet(ch: Channel, room: bool)
    ensures var r := FlushResponses(ch, room); r.out == ch.out && r.conn == ch.conn
  {
  }

  lemma UploadFailed(u: Upload, src: Source)
    requires UploadOk(u, src)
    ensures UploadOk(Failed(u), src)
  {
  }

  /** The reply that ends an upload, and the release of its source. */
  lemma EndUploadKeeps(s: System, side: Side, item: Item)
    requires Inv(s) && s.ul.Some? && s.ul.value.side == side && Honest(Src(s, side), item) && !Heads(item)
    requires Src(s, side).cmd.Some?
    ensures Inv(EndUpload(s, side, item))
  {
    hide Inv, SourceOk, Honest, Answer;
    Uploading(s, s.ul.value);
    Answered(Src(s, side), item, None);
    WithoutUpload(s, Consumed(Answer(Src(s, side), item)), s.card);
  }

  lemma TookOk(u: Upload, src: Source, n: nat, wroteAll: bool)
    requires UploadOk(u, src) && 0 < n <= u.remaining && src.pos + n <= |src.input|
    ensures var v := Took(u, src.input[src.pos..src.pos + n], wroteAll);
            var now := src.(pos := src.pos + n);
            && (v.remaining > 0 ==> UploadOk(v, now))
            && (v.remaining == 0 && v.file.Some? ==> Honest(now, Stored(v.file.value, u.start, u.total)))
            && (v.remaining == 0 ==> now.pos == u.start + u.total as nat)
            && v.draining == v.file.None? == (v.status != 0)
            && v.side == u.side && v.idx == u.idx && v.name == u.name && v.total == u.total && v.start == u.start
  {
    assert src.input[u.start..src.pos] + src.input[src.pos..src.pos + n] == src.input[u.start..src.pos + n];
  }

  function Arrived(s: System, io: UploadIo): nat
    requires s.ul.Some?
  {
    Arrivals(Src(s, s.ul.value.side), io.arrived, Min(s.ul.value.remaining, CHUNK))
  }

  lemma ServiceUploadKeeps(s: System, io: UploadIo)
    requires Inv(s)
    ensures Inv(ServiceUpload(s, io))
  {
    if s.ul.Some? {
      hide SourceOk, DownloadOk, ArchiveOk, Honest, EndUpload, Arrivals, Arrive;
      var u := s.ul.value;
      var src := Src(s, u.side);
      if io.timedOut && u.draining {
        PendingUpload(u, src);
        EndUploadKeeps(s, u.side, Reply(0x85, u.status));
      } else if io.timedOut {
        UploadFailed(u, src);
      } else if Arrived(s, io) > 0 {
        ArrivalsFit(src, io.arrived, Min(u.remaining, CHUNK));
        ArriveKeeps(s, u, src, Arrived(s, io), io.wroteAll);
      }
    }
  }

  lemma PendingUpload(u: Upload, src: Source)
    requires UploadOk(u, src)
    ensures src.cmd.Some? && Honest(src, Reply(0x85, u.status)) && src.pos <= |src.input| && u.remaining > 0
  {
  }

  lemma ArriveKeeps(s: System, u: Upload, src: Source, n: nat, wroteAll: bool)
    requires Inv(s) && s.ul == Some(u) && src == Src(s, u.side) && 0 < n <= u.remaining && src.pos + n <= |src.input|
    ensures Inv(Arrive(s, u, n, wroteAll))
  {
    hide Inv, Src, With, Honest, EndUpload, UploadOk, Took, Written;
    Uploading(s, u);
    TookOk(u, src, n, wroteAll);
    var read := src.(pos := src.pos + n);
    var v := Took(u, src.input[src.pos..src.pos + n], wroteAll);
    var card := Written(s.card, u, v);
    if v.remaining > 0 {
      WritingKeeps(s, src, n, v, card);
    } else {
      var item := if v.file.None? then Reply(0x85, v.status) else Stored(v.file.value, v.start, v.total);
      ReplyIsHonest(read, v.status);
      EndingKeeps(s, src, read, card, item);
    }
  }

  lemma Uploading(s: System, u: Upload)
    requires Inv(s) && s.ul == Some(u)
    ensures UploadOk(u, Src(s, u.side)) && Src(s, u.side).cmd.Some? && SourceOk(Src(s, u.side), None)
  {
    hide SourceOk, DownloadOk, ArchiveOk;
  }

  lemma WritingKeeps(s: System, src: Source, n: nat, v: Upload, card: map<Name, seq<byte>>)
    requires Inv(s) && s.ul.Some? && v.side == s.ul.value.side && v.idx == s.ul.value.idx
    requires src == Src(s, v.side) && src.pos + n <= |src.input| && UploadOk(v, src.(pos := src.pos + n))
    ensures Inv(With(s, v.side, src.(pos := src.pos + n)).(card := card, ul := Some(v)))
  {
    hide SourceOk, DownloadOk, ArchiveOk, UploadOk;
    Advanced(src, n, BodyOn(s, v.side));
  }

  lemma EndingKeeps(s: System, src: Source, read: Source, card: map<Name, seq<byte>>, item: Item)
    requires Inv(s) && s.ul.Some? && !Heads(item) && src == Src(s, s.ul.value.side)
    requires read == src.(pos := read.pos) && src.pos <= read.pos <= |src.input| && src.cmd.Some? && Honest(read, item)
    ensures Inv(EndUpload(With(s, s.ul.value.side, read).(card := card), s.ul.value.side, item))
  {
    hide Inv, SourceOk, Honest, Answer, EndUpload, Src, With;
    var u := s.ul.value;
    Uploading(s, u);
    EndUploadShape(s, u.side, read, card, item);
    Advanced(src, read.pos - src.pos, None);
    Answered(read, item, None);
    WithoutUpload(s, Consumed(Answer(read, item)), card);
  }

  lemma EndUploadShape(s: System, side: Side, read: Source, card: map<Name, seq<byte>>, item: Item)
    ensures EndUpload(With(s, side, read).(card := card), side, item)
            == With(s, side, Consumed(Answer(read, item))).(card := card, ul := None)
  {
    hide Answer;
  }

  lemma WithoutUpload(s: System, src: Source, card: map<Name, seq<byte>>)
    requires Inv(s) && s.ul.Some? && SourceOk(src, None)
    ensures Inv(With(s, s.ul.value.side, src).(card := card, ul := None))
  {
    hide SourceOk, DownloadOk, ArchiveOk, UploadOk;
  }

  lemma ReplyIsHonest(src: Source, status: byte)
    ensures Honest(src, Reply(0x85, status))
  {
  }

  lemma IntakeKeeps(s: System, t: Tick)
    requires Inv(s)
    ensures Inv(Intake(s, t))
  {
    hide Inv, Disconnect, Parse;
    DisconnectKeeps(s, t.client);
    var s1 := if t.netUp then s else Disconnect(s, t.client);
    ParseKeeps(s1, Net, t.netParse);
    ParseKeeps(Parse(s1, Net, t.netParse), Serial, t.serialParse);
  }

  lemma ServicesKeep(s: System, t: Tick)
    requires Inv(s)
    ensures Inv(Services(s, t))
  {
    hide Inv, ServiceDownload, ServiceUpload, ServiceArchive;
    ServiceDownloadKeeps(s, t.dl);
    ServiceUploadKeeps(ServiceDownload(s, t.dl), t.ul);
    ServiceArchiveKeeps(ServiceUpload(ServiceDownload(s, t.dl), t.ul), t.ar);
  }

  lemma LoopKeeps(s: System, t: Tick)
    requires Inv(s)
    ensures Inv(Loop(s, t))
  {
    hide Inv, Intake, Process, Services, FlushSide;
    IntakeKeeps(s, t);
    var s1 := Intake(s, t);
    ProcessKeeps(s1, Net, t.netChoice);
    var s2 := Process(s1, Net, t.netChoice);
    ProcessKeeps(s2, Serial, t.serialChoice);
    var s3 := Process(s2, Serial, t.serialChoice);
    ServicesKeep(s3, t);
    FlushSideKeeps(Services(s3, t), Net, t.netRoom && (t.netUp || t.client.Some?));
    FlushSideKeeps(FlushSide(Services(s3, t), Net, t.netRoom && (t.netUp || t.client.Some?)), Serial, t.serialRoom);
  }

  /** Power-up: fresh connections, no transfer. */
  function NewSource(input: seq<byte>): Source {
    Source(input, 0, None, 0, Channel(0, [], None, [], {}))
  }

  function Fresh(net: seq<byte>, serial: seq<byte>, ps: seq<Pattern>, card: map<Name, seq<byte>>): System {
    System(NewSource(net), NewSource(serial), None, None, None, ps, card, None)
  }

  lemma FreshOk(net: seq<byte>, serial: seq<byte>, ps: seq<Pattern>, card: map<Name, seq<byte>>)
    ensures Inv(Fresh(net, serial, ps, card))
  {
  }

  lemma {:induction false} RunKeeps(s: System, ticks: seq<Tick>)
    requires Inv(s)
    ensures Inv(Run(s, ticks))
  {
    hide Inv, Loop;
    if ticks != [] {
      RunKeeps(s, ticks[..|ticks| - 1]);
      LoopKeeps(Run(s, ticks[..|ticks| - 1]), ticks[|ticks| - 1]);
    }
  }

  // ----- theorems ---------------------------------------------------------

  /** Every command parsed on this connection was consumed once, with one reply queued, or is pending; every queued
      reply is in the slot, overwritten, or on the wire in its turn; a status-0 reply to an upload names exactly its
      payload; and the raw bytes sent for each header are what it announced, as far as they go. */
  ghost predicate SourceSafe(src: Source) {
    && src.parsed == |src.ch.out| + (if src.cmd.Some? then 1 else 0)
    && Accounted(src.ch)
    && (forall item :: item in src.ch.out ==> Honest(src, item))
    && PromisesKept(src.ch)
  }

  /** Over every run: transfers own distinct sources and indices, both sources are safe, and every transfer's bytes
      add up. */
  lemma TransfersAreSafe(net: seq<byte>, serial: seq<byte>, ps: seq<Pattern>, card: map<Name, seq<byte>>,
                         ticks: seq<Tick>)
    ensures var s := Run(Fresh(net, serial, ps, card), ticks);
            && Owned(s) && SourceSafe(s.net) && SourceSafe(s.serial)
            && (s.dl.Some? ==> DownloadOk(s.dl.value, Src(s, s.dl.value.side)))
            && (s.ul.Some? ==> UploadOk(s.ul.value, Src(s, s.ul.value.side)))
            && (s.ar.Some? ==> ArchiveOk(s.ar.value, Src(s, s.ar.value.side)))
  {
    hide Run, Accounted, PromisesKept, Sending, Honest, Owned, DownloadOk, UploadOk, ArchiveOk;
    FreshOk(net, serial, ps, card);
    RunKeeps(Fresh(net, serial, ps, card), ticks);
  }

  lemma HandleIsOneSided(s: System, side: Side, cmd: Command, c: Choice)
    ensures Src(Handle(s, side, cmd, c).0, Peer(side)) == Src(s, Peer(side))
  {
    hide Remove, PatternIndex.Rename, NameOf, Answer, BurnFrom, Arrivals;
  }

  /** A source that owns a transfer is not dispatched, and neither is it touched by the other source's turn. */
  lemma OwnerIsLeftAlone(s: System, side: Side, c: Choice, d: Choice)
    requires Inv(s) && Owns(s, side)
    ensures Process(s, side, c) == s
    ensures Src(Process(s, Peer(side), d), side) == Src(s, side)
  {
    hide Inv, Handle, Owns;
    if Src(s, Peer(side)).cmd.Some? {
      HandleIsOneSided(s, Peer(side), Src(s, Peer(side)).cmd.value, d);
    }
  }

  /** An upload's bytes are conserved step by step; draining is for good and writes nothing; an upload that ends by
      count leaves its source free at the first byte after the payload, with status 0 only for a whole file. */
  lemma UploadResyncs(s: System, io: UploadIo)
    requires Inv(s) && s.ul.Some?
    ensures UploadStep(s, io, ServiceUpload(s, io))
  {
    var u := s.ul.value;
    var src := Src(s, u.side);
    assert UploadOk(u, src);
    hide Inv;
    PendingUpload(u, src);
    hide UploadOk;
    if io.timedOut {
      EndUploadIs(s, u.side, Reply(0x85, u.status));
      hide EndUpload;
      assert u.draining ==> u.status != 0 by { DrainingFails(u, src); }
    } else if Arrived(s, io) > 0 {
      ArrivalsFit(src, io.arrived, Min(u.remaining, CHUNK));
      assert UploadOk(u, src);
      hide Arrivals, Arrive;
      ArriveStep(s, io, u, src, Arrived(s, io));
    }
  }

  lemma DrainingFails(u: Upload, src: Source)
    requires UploadOk(u, src)
    ensures u.draining <==> u.status != 0
  {
  }

  lemma EndUploadIs(s: System, side: Side, item: Item)
    ensures var r := EndUpload(s, side, item);
            r.ul.None? && Src(r, side) == Consumed(Answer(Src(s, side), item)) && r.card == s.card
  {
  }

  lemma ArriveStep(s: System, io: UploadIo, u: Upload, src: Source, n: nat)
    requires s.ul == Some(u) && src == Src(s, u.side) && UploadOk(u, src) && 0 < n <= u.remaining
    requires !io.timedOut && src.pos + n <= |src.input|
    ensures UploadStep(s, io, Arrive(s, u, n, io.wroteAll))
  {
    hide EndUpload, UploadOk, Took, Honest, Written, Src, With;
    TookOk(u, src, n, io.wroteAll);
    TookFrom(u, src.input[src.pos..src.pos + n], io.wroteAll);
    DrainingFails(u, src);
    var read := src.(pos := src.pos + n);
    var v := Took(u, src.input[src.pos..src.pos + n], io.wroteAll);
    var card := Written(s.card, u, v);
    var next := With(s, u.side, read).(card := card);
    WithIs(s, u.side, read, card, Some(v));
    if v.remaining == 0 {
      var item := if v.file.None? then Reply(0x85, v.status) else Stored(v.file.value, v.start, v.total);
      EndUploadIs(next, u.side, item);
      StoredPayload(read, item);
    } else if u.draining {
      DrainingWritesNothing(s.card, u, v);
    }
  }

  lemma WithIs(s: System, side: Side, src: Source, card: map<Name, seq<byte>>, ul: Option<Upload>)
    ensures var r := With(s, side, src).(card := card); Src(r, side) == src == Src(r.(ul := ul), side) && r.ul == s.ul
  {
  }

  lemma DrainingWritesNothing(card: map<Name, seq<byte>>, u: Upload, v: Upload)
    requires u.draining
    ensures Written(card, u, v) == card
  {
  }

  lemma StoredPayload(src: Source, item: Item)
    requires item.Stored? ==> Honest(src, item)
    ensures item.Stored? ==> item.start + item.total as nat <= |src.input|
                             && item.data == src.input[item.start..item.start + item.total as nat]
  {
  }

  lemma TookFrom(u: Upload, bytes: seq<byte>, wroteAll: bool)
    requires |bytes| <= u.remaining
    ensures var v := Took(u, bytes, wroteAll);
            && v.remaining == u.remaining as int - |bytes|
            && (u.draining ==> v.draining && v.status == u.status && v.file == u.file)
            && (!u.draining ==> v.draining == (!wroteAll || u.file.None?) && (v.draining ==> v.status == 1))
  {
  }

  predicate UploadReply(s: System, io: UploadIo, item: Item)
    requires s.ul.Some?
  {
    var u := s.ul.value;
    if item.Stored? then
      && !u.draining && io.wroteAll && !io.timedOut
      && u.start + u.total as nat <= |Src(s, u.side).input|
      && item.data == Src(s, u.side).input[u.start..u.start + u.total as nat]
    else item == Reply(0x85, 1) || (u.draining && item == Reply(0x85, u.status) && u.status != 0)
  }

  predicate UploadStep(s: System, io: UploadIo, r: System)
    requires s.ul.Some?
  {
    var u := s.ul.value;
    var was, now := Src(s, u.side), Src(r, u.side);
    && (r.ul.Some? ==>
          && r.ul.value.side == u.side && r.ul.value.total == u.total && r.ul.value.start == u.start
          && now.pos - was.pos == u.remaining as int - r.ul.value.remaining as int
          && now.ch == was.ch && now.cmd == was.cmd
          && (u.draining ==> r.ul.value.draining && r.ul.value.file.None? && r.card == s.card))
    && (r.ul.None? ==>
          && now.cmd.None? && |now.ch.out| == |was.ch.out| + 1
          && (!io.timedOut ==> now.pos == u.start + u.total as nat)
          && UploadReply(s, io, now.ch.out[|was.ch.out|]))
  }
}
