/** Which files the transfers hold: latched indices, exclusion by name, and what a status-0 upload leaves on the card. */
module TransferFiles {
  import opened Bytes
  import opened PatternIndex
  import opened Sources
  import opened RawBodies
  import opened Transfers
  import opened TransferProofs
  import Zip

  // ----- latched indices --------------------------------------------------

  /** The latched indices still stand for the files the transfers opened. */
  predicate Follows(s: System) {
    && Distinct(s.patterns)
    && (s.dl.Some? ==> s.dl.value.idx >= 1 && NameOf(s.patterns, s.dl.value.idx) == Some(s.dl.value.name))
    && (s.ul.Some? ==> Stands(s.patterns, s.ul.value.idx, s.ul.value.name))
  }

  predicate Stands(ps: seq<Pattern>, idx: nat, name: Name) {
    if idx == 0 then name == TEMP else NameOf(ps, idx) == Some(name)
  }

  /** A transfer holds a pattern sorted above `idx`. */
  predicate HoldsAbove(s: System, idx: nat) {
    (s.dl.Some? && s.dl.value.idx > idx) || (s.ul.Some? && s.ul.value.idx > idx)
  }

  /** The file goes, the manifest write fails, and a transfer's index is left one too high. */
  predicate Strays(s: System, idx: nat, c: Choice) {
    && c.mounted && c.removal.RemovedNoManifest?
    && 1 <= idx <= |s.patterns| && !Busy(s, idx) && HoldsAbove(s, idx)
  }

  /** Each transfer of `r` is gone or still latched as in `s`. */
  lemma LatchedFollows(s: System, r: System)
    requires Follows(s) && r.patterns == s.patterns
    requires r.dl.Some? ==> s.dl.Some? && r.dl.value.idx == s.dl.value.idx && r.dl.value.name == s.dl.value.name
    requires r.ul.Some? ==> s.ul.Some? && r.ul.value.idx == s.ul.value.idx && r.ul.value.name == s.ul.value.name
    ensures Follows(r)
  {
    hide Distinct, NameOf;
  }

  lemma FollowsFields(s: System, r: System)
    requires r.dl == s.dl && r.ul == s.ul && r.patterns == s.patterns
    ensures Follows(r) == Follows(s)
  {
    hide Distinct, NameOf;
  }

  lemma TellKeepsFields(s: System, side: Side, item: Item)
    ensures var r := Tell(s, side, item);
            r.dl == s.dl && r.ul == s.ul && r.ar == s.ar && r.patterns == s.patterns && r.card == s.card
  {
  }

  lemma CorrectedFollows(s: System, idx: nat)
    requires Follows(s) && !Busy(s, idx) && idx <= |s.patterns|
    ensures Follows(Corrected(Dropped(s, idx), idx))
  {
    if idx >= 1 {
      RemoveDistinct(s.patterns, idx - 1, []);
      if s.dl.Some? {
        ShiftFollows(s.patterns, s.dl.value.idx, idx, Shifted(s.dl.value.idx, idx));
      }
      if s.ul.Some? && s.ul.value.idx >= 1 {
        ShiftFollows(s.patterns, s.ul.value.idx, idx, Shifted(s.ul.value.idx, idx));
      }
    }
    hide Distinct, Remove, NameOf;
  }

  lemma UncorrectedFollows(s: System, idx: nat)
    requires Follows(s) && !Busy(s, idx) && 1 <= idx <= |s.patterns|
    ensures Follows(Dropped(s, idx)) <==> !HoldsAbove(s, idx)
  {
    RemoveDistinct(s.patterns, idx - 1, []);
    if s.dl.Some? {
      ShiftFollows(s.patterns, s.dl.value.idx, idx, s.dl.value.idx);
    }
    if s.ul.Some? && s.ul.value.idx >= 1 {
      ShiftFollows(s.patterns, s.ul.value.idx, idx, s.ul.value.idx);
    }
    hide Distinct, Remove, NameOf;
  }

  /** A deletion during transfers keeps every latched index on its file, unless the manifest write failed after the
      file was removed: then the transfers of higher-sorted patterns, and only they, lose theirs. */
  lemma DeleteFollows(s: System, side: Side, idx: u16, lengthOk: bool, c: Choice)
    requires Follows(s)
    ensures Follows(DoDelete(s, side, idx, lengthOk, c)) <==> !(lengthOk && Strays(s, idx, c))
  {
    hide Follows, Tell, Dropped, Corrected;
    var r := DoDelete(s, side, idx, lengthOk, c);
    if !lengthOk || Busy(s, idx) {
      TellKeepsFields(s, side, Reply(0x86, 1));
      FollowsFields(s, r);
    } else if !c.mounted {
      TellKeepsFields(s, side, Reply(0x86, CE_SD_NOT_PRESENT));
      FollowsFields(s, r);
    } else if idx > |s.patterns| {
      TellKeepsFields(s, side, Reply(0x86, CE_BAD_PARAM));
      FollowsFields(s, r);
    } else {
      match c.removal
      case NotRemoved(err) =>
        TellKeepsFields(s, side, Reply(0x86, err));
        FollowsFields(s, r);
      case RemovedNoManifest =>
        var q := Dropped(s, idx);
        TellKeepsFields(q, side, Reply(0x86, CE_MANIFEST_WRITE_ERROR));
        FollowsFields(q, r);
        if idx >= 1 {
          UncorrectedFollows(s, idx);
        } else {
          DroppedTemp(s);
          FollowsFields(s, q);
        }
      case Removed =>
        var q := Corrected(Dropped(s, idx), idx);
        TellKeepsFields(q, side, Reply(0x86, 0));
        FollowsFields(q, r);
        CorrectedFollows(s, idx);
    }
  }

  lemma DroppedTemp(s: System)
    ensures var r := Dropped(s, 0); r.dl == s.dl && r.ul == s.ul && r.patterns == s.patterns
  {
  }

  // ----- exclusion by file ------------------------------------------------

  /** No list entry carries the name index 0 stands for. */
  predicate Plain(ps: seq<Pattern>) {
    Lacks(ps, TEMP)
  }

  /** No file is both downloaded and uploaded. */
  predicate Exclusive(s: System) {
    s.dl.Some? && s.ul.Some? ==> s.dl.value.name != s.ul.value.name
  }

  /** A deletion that passes the index guard although a transfer holds the file. */
  predicate Robs(s: System, idx: nat) {
    && idx <= |s.patterns| && !Busy(s, idx)
    && ((s.dl.Some? && s.dl.value.name == FileOf(s.patterns, idx))
        || (s.ul.Some? && s.ul.value.name == FileOf(s.patterns, idx)))
  }

  lemma OneIndex(ps: seq<Pattern>, i: nat, j: nat, name: Name)
    requires Distinct(ps) && Plain(ps) && Stands(ps, i, name) && Stands(ps, j, name)
    ensures i == j
  {
  }

  /** While indices follow and no entry is named like index 0's file, the index guards are file guards. */
  lemma GuardsHold(s: System, idx: nat)
    requires Owned(s) && Follows(s) && Plain(s.patterns)
    ensures Exclusive(s) && !Robs(s, idx)
  {
    if s.dl.Some? && s.ul.Some? && s.dl.value.name == s.ul.value.name {
      OneIndex(s.patterns, s.dl.value.idx, s.ul.value.idx, s.dl.value.name);
    }
    if Robs(s, idx) {
      var name := FileOf(s.patterns, idx);
      assert Stands(s.patterns, idx, name);
      if s.dl.Some? && s.dl.value.name == name {
        OneIndex(s.patterns, s.dl.value.idx, idx, name);
      } else {
        OneIndex(s.patterns, s.ul.value.idx, idx, name);
      }
    }
    hide Distinct, Lacks;
  }

  // ----- over whole runs --------------------------------------------------

  predicate Holds(card: map<Name, seq<byte>>, name: Name, content: seq<byte>) {
    name in card && card[name] == content
  }

  /** While an upload writes, its file is on the card with what was written so far; a download's file is there as it
      was when it was opened. */
  predicate OnCard(s: System) {
    && (s.ul.Some? && s.ul.value.file.Some? ==> Holds(s.card, s.ul.value.name, s.ul.value.file.value))
    && (s.dl.Some? ==> Holds(s.card, s.dl.value.name, s.dl.value.content))
  }

  predicate FilesOk(s: System) {
    Follows(s) && Plain(s.patterns) && OnCard(s)
  }

  /** A dispatch that leaves no index behind and names no entry like index 0's file. */
  predicate Steady(s: System, side: Side, c: Choice) {
    Dispatched(s, side) ==>
      match Src(s, side).cmd.value
      case Delete(idx, lengthOk) => !(lengthOk && Strays(s, idx, c))
      case Rename(_, _) => c.candidate != Some(TEMP)
      case _ => true
  }

  predicate SteadyTick(s: System, t: Tick) {
    var s1 := Intake(s, t);
    Steady(s1, Net, t.netChoice) && Steady(Process(s1, Net, t.netChoice), Serial, t.serialChoice)
  }

  predicate SteadyRun(s: System, ticks: seq<Tick>) {
    ticks != [] ==> SteadyRun(s, ticks[..|ticks| - 1]) && SteadyTick(Run(s, ticks[..|ticks| - 1]), ticks[|ticks| - 1])
  }

  /** `r` holds the same transfers and files as `s`. */
  predicate SameFiles(s: System, r: System) {
    r.dl == s.dl && r.ul == s.ul && r.patterns == s.patterns && r.card == s.card
  }

  lemma SameFilesOk(s: System, r: System)
    requires FilesOk(s) && SameFiles(s, r)
    ensures FilesOk(r)
  {
    FollowsFields(s, r);
    hide Follows, Plain;
  }

  lemma TellFiles(s: System, side: Side, item: Item)
    requires FilesOk(s)
    ensures FilesOk(Tell(s, side, item))
  {
    hide FilesOk;
    TellKeepsFields(s, side, item);
    SameFilesOk(s, Tell(s, side, item));
  }

  lemma DrainFiles(s: System, side: Side, len: u32, drained: nat)
    requires FilesOk(s)
    ensures FilesOk(Drain(s, side, len, drained))
  {
    hide FilesOk, Arrivals;
    SameFilesOk(s, Drain(s, side, len, drained));
  }

  lemma GetFileFiles(s: System, side: Side, idx: u16, lengthOk: bool, c: Choice)
    requires FilesOk(s)
    ensures FilesOk(DoGetFile(s, side, idx, lengthOk, c))
  {
    hide Distinct, Lacks, Answer;
  }

  /** The file an accepted upload replaces is not the one being downloaded. */
  lemma PutFileApart(s: System, idx: u16)
    requires FilesOk(s) && PutFileFree(s, idx)
    ensures s.dl.Some? ==> s.dl.value.name != FileOf(s.patterns, idx)
  {
    if s.dl.Some? && s.dl.value.name == FileOf(s.patterns, idx) {
      OneIndex(s.patterns, s.dl.value.idx, idx, s.dl.value.name);
    }
    hide Distinct, Lacks, OnCard;
  }

  lemma PutFileFiles(s: System, side: Side, idx: u16, len: u32, c: Choice)
    requires FilesOk(s)
    ensures FilesOk(DoPutFile(s, side, idx, len, c).0)
  {
    if len > 0 && c.displayOff && PutFileFree(s, idx) {
      var name := FileOf(s.patterns, idx);
      PutFileApart(s, idx);
      if c.openOk {
        hide Distinct, Lacks;
      } else {
        var gone := s.(card := s.card - {name});
        FollowsFields(s, gone);
        hide Follows, Plain, Tell, Drain;
        DrainFiles(gone, side, len, c.drained);
        TellFiles(Drain(gone, side, len, c.drained), side, Reply(0x85, 1));
      }
    } else {
      hide FilesOk, Tell, Drain, PutFileFree;
      TellFiles(s, side, Reply(0x85, 1));
      DrainFiles(s, side, len, c.drained);
      TellFiles(Drain(s, side, len, c.drained), side, Reply(0x85, 1));
      TellFiles(Drain(s, side, len, c.drained), side, Reply(0x85, CE_DISPLAY_ACTIVE));
    }
  }

  lemma PutFirmwareFiles(s: System, side: Side, len: u32, c: Choice)
    requires FilesOk(s)
    ensures FilesOk(DoPutFirmware(s, side, len, c))
  {
    hide FilesOk, Answer, Arrivals, BurnFrom, Quiet;
    SameFilesOk(s, DoPutFirmware(s, side, len, c));
  }

  lemma RemovePlain(ps: seq<Pattern>, idx: nat)
    requires 1 <= idx <= |ps| && Plain(ps)
    ensures Plain(Remove(ps, idx - 1))
  {
    RemoveDistinct(ps, idx - 1, TEMP);
  }

  lemma DroppedCard(s: System, idx: nat)
    requires FilesOk(s) && Owned(s) && idx <= |s.patterns| && !Busy(s, idx)
    ensures Plain(Dropped(s, idx).patterns) && OnCard(Dropped(s, idx)) && OnCard(Corrected(Dropped(s, idx), idx))
  {
    GuardsHold(s, idx);
    if idx >= 1 {
      RemovePlain(s.patterns, idx);
    }
    hide Follows, Plain, Remove;
  }

  lemma DroppedFiles(s: System, idx: nat, side: Side, item: Item)
    requires FilesOk(s) && Owned(s) && idx <= |s.patterns| && !Busy(s, idx)
    ensures Follows(Dropped(s, idx)) ==> FilesOk(Tell(Dropped(s, idx), side, item))
    ensures Follows(Corrected(Dropped(s, idx), idx)) ==> FilesOk(Tell(Corrected(Dropped(s, idx), idx), side, item))
  {
    DroppedCard(s, idx);
    var d := Dropped(s, idx);
    var e := Corrected(d, idx);
    assert e.patterns == d.patterns;
    hide Follows, Plain, OnCard, Dropped, Corrected, Tell;
    if Follows(d) {
      TellFiles(d, side, item);
    }
    if Follows(e) {
      TellFiles(e, side, item);
    }
  }

  lemma DeleteFiles(s: System, side: Side, idx: u16, lengthOk: bool, c: Choice)
    requires FilesOk(s) && Owned(s) && !(lengthOk && Strays(s, idx, c))
    ensures FilesOk(DoDelete(s, side, idx, lengthOk, c))
  {
    hide FilesOk, Owned, Follows, Tell, Dropped, Corrected, Busy, HoldsAbove;
    TellFiles(s, side, Reply(0x86, 1));
    TellFiles(s, side, Reply(0x86, CE_SD_NOT_PRESENT));
    TellFiles(s, side, Reply(0x86, CE_BAD_PARAM));
    if c.removal.NotRemoved? {
      TellFiles(s, side, Reply(0x86, c.removal.err));
    } else if idx <= |s.patterns| && !Busy(s, idx) {
      DroppedFollows(s, idx);
      DroppedFiles(s, idx, side, Reply(0x86, CE_MANIFEST_WRITE_ERROR));
      DroppedFiles(s, idx, side, Reply(0x86, 0));
    }
  }

  lemma DroppedFollows(s: System, idx: nat)
    requires FilesOk(s) && idx <= |s.patterns| && !Busy(s, idx)
    ensures Follows(Corrected(Dropped(s, idx), idx))
    ensures !(1 <= idx && HoldsAbove(s, idx)) ==> Follows(Dropped(s, idx))
  {
    hide Follows, Plain, OnCard, Dropped, Corrected, HoldsAbove, Busy;
    CorrectedFollows(s, idx);
    if idx >= 1 {
      UncorrectedFollows(s, idx);
    } else {
      DroppedTemp(s);
      FollowsFields(s, Dropped(s, 0));
    }
  }

  lemma JoinLacks(kept: seq<Pattern>, p: Pattern, k: nat)
    requires Lacks(kept, TEMP) && p.name != TEMP && k <= |kept|
    ensures Lacks(kept[..k] + [p] + kept[k..], TEMP)
  {
  }

  lemma RenamePlain(ps: seq<Pattern>, idx: nat, name: Name)
    requires Plain(ps) && idx <= |ps| && name != TEMP
    ensures Plain(PatternIndex.Rename(ps, idx, name))
  {
    var kept := if idx == 0 then ps else Remove(ps, idx - 1);
    if idx > 0 {
      RemovePlain(ps, idx);
    }
    hide Remove, Slot, Lacks;
    JoinLacks(kept, Pattern(name, if idx == 0 then name else ps[idx - 1].origin), Slot(kept, name));
  }

  lemma RenameFiles(s: System, side: Side, idx: u16, nameOk: bool, c: Choice)
    requires FilesOk(s) && c.candidate != Some(TEMP)
    ensures FilesOk(DoRename(s, side, idx, nameOk, c))
  {
    if Quiet(s) && idx <= |s.patterns| && c.candidate.Some? && IndexOf(s.patterns, c.candidate.value) == 0 {
      RenameDistinct(s.patterns, idx, c.candidate.value);
      RenamePlain(s.patterns, idx, c.candidate.value);
    }
    hide Distinct, PatternIndex.Rename, Plain, Answer, Moved, NameOf;
  }

  lemma PurgeFiles(s: System, side: Side, c: Choice)
    requires FilesOk(s)
    ensures FilesOk(DoPurge(s, side, c))
  {
    hide Answer;
  }

  lemma GetArchiveFiles(s: System, side: Side, c: Choice)
    requires FilesOk(s)
    ensures FilesOk(DoGetArchive(s, side, c))
  {
    hide FilesOk, Answer;
    SameFilesOk(s, DoGetArchive(s, side, c));
  }

  lemma HandleFiles(s: System, side: Side, cmd: Command, c: Choice)
    requires FilesOk(s) && Owned(s)
    requires cmd.Delete? ==> !(cmd.lengthOk && Strays(s, cmd.idx, c))
    requires cmd.Rename? ==> c.candidate != Some(TEMP)
    ensures FilesOk(Handle(s, side, cmd, c).0)
  {
    hide FilesOk, DoGetFile, DoPutFile, DoRename, DoPurge, DoDelete, DoPutFirmware, Strays, Tell;
    match cmd
    case GetFile(idx, ok) => GetFileFiles(s, side, idx, ok, c);
    case PutFile(idx, len) => PutFileFiles(s, side, idx, len, c);
    case PutFirmware(len) => PutFirmwareFiles(s, side, len, c);
    case Delete(idx, ok) => DeleteFiles(s, side, idx, ok, c);
    case Rename(idx, ok) => RenameFiles(s, side, idx, ok, c);
    case Purge => PurgeFiles(s, side, c);
    case GetArchive => GetArchiveFiles(s, side, c);
    case Other(code) => TellFiles(s, side, Reply(code, c.status));
  }

  lemma ProcessFiles(s: System, side: Side, c: Choice)
    requires FilesOk(s) && Owned(s) && Steady(s, side, c)
    ensures FilesOk(Process(s, side, c))
  {
    if Dispatched(s, side) {
      hide FilesOk, Owned, Handle, Strays;
      HandleFiles(s, side, Src(s, side).cmd.value, c);
      var r := Handle(s, side, Src(s, side).cmd.value, c).0;
      SameFilesOk(r, Consume(r, side));
    }
  }

  lemma IntakeFiles(s: System, t: Tick)
    requires FilesOk(s) && Owned(s)
    ensures FilesOk(Intake(s, t))
  {
    var s1 := if t.netUp then s else Disconnect(s, t.client);
    LatchedFollows(s, s1);
    GuardsHold(s, 0);
    hide Follows, Plain;
    assert FilesOk(s1);
    hide FilesOk, Disconnect;
    SameFilesOk(s1, Intake(s, t));
  }

  lemma DownloadFiles(s: System, io: DownloadIo)
    requires FilesOk(s)
    ensures FilesOk(ServiceDownload(s, io))
  {
    hide Follows, Plain, SendRaw, DownloadTaken, DownloadBytes;
    LatchedFollows(s, ServiceDownload(s, io));
  }

  lemma ArchiveFiles(s: System, io: ArchiveIo)
    requires FilesOk(s)
    ensures FilesOk(ServiceArchive(s, io))
  {
    hide FilesOk, SendRaw, ZipNext, ZipSends, ZipBytes;
    SameFilesOk(s, ServiceArchive(s, io));
  }

  lemma FlushFiles(s: System, side: Side, room: bool)
    requires FilesOk(s)
    ensures FilesOk(FlushSide(s, side, room))
  {
    hide FilesOk, FlushResponses;
    SameFilesOk(s, FlushSide(s, side, room));
  }

  lemma TookShape(u: Upload, bytes: seq<byte>, wroteAll: bool)
    requires |bytes| <= u.remaining && (u.draining ==> u.file.None?)
    ensures var v := Took(u, bytes, wroteAll);
            v.side == u.side && v.idx == u.idx && v.name == u.name && (v.file.Some? ==> !u.draining)
  {
  }

  /** The card after a chunk has the upload's file as it is now. */
  lemma WrittenHas(card: map<Name, seq<byte>>, u: Upload, v: Upload)
    requires v.file.Some? ==> !u.draining
    ensures v.file.Some? && u.name in card ==> Holds(Written(card, u, v), u.name, v.file.value)
    ensures forall name, content :: name != u.name && Holds(card, name, content) ==> Holds(Written(card, u, v), name, content)
  {
  }

  /** Going on or ending, the upload's file is on the card if it was. */
  lemma SettleFiles(s: System, v: Upload)
    requires Follows(s) && Plain(s.patterns) && s.ul.Some? && s.ul.value.idx == v.idx && s.ul.value.name == v.name
    requires v.file.Some? ==> Holds(s.card, v.name, v.file.value)
    requires s.dl.Some? ==> Holds(s.card, s.dl.value.name, s.dl.value.content)
    ensures var r := Settle(s, v);
            && FilesOk(r)
            && (r.ul.None? && Newest(Src(r, v.side)).Stored? ==> Holds(r.card, v.name, Newest(Src(r, v.side)).data))
  {
    hide Follows, Plain;
    LatchedFollows(s, Settle(s, v));
  }

  /** Where an arrival leaves the upload and its file; a draining one has none. */
  lemma ArriveFiles(s: System, u: Upload, got: nat, wroteAll: bool)
    requires FilesOk(s) && s.ul == Some(u) && got <= u.remaining && Src(s, u.side).pos + got <= |Src(s, u.side).input|
    requires (u.draining ==> u.file.None?) && Exclusive(s)
    ensures var r := Arrive(s, u, got, wroteAll);
            && FilesOk(r)
            && (r.ul.None? && Newest(Src(r, u.side)).Stored? ==> Holds(r.card, u.name, Newest(Src(r, u.side)).data))
  {
    hide Follows, Plain, Took, Written, Settle, Holds;
    var src := Src(s, u.side);
    var bytes := src.input[src.pos..src.pos + got];
    var v := Took(u, bytes, wroteAll);
    TookShape(u, bytes, wroteAll);
    assert v.file.Some? ==> u.file.Some? by { TookFile(u, bytes, wroteAll); }
    if u.file.Some? {
      OnCardThere(s, u);
    }
    WrittenHas(s.card, u, v);
    var read := With(s, u.side, src.(pos := src.pos + got)).(card := Written(s.card, u, v));
    LatchedFollows(s, read);
    hide FilesOk;
    SettleFiles(read, v);
  }

  lemma OnCardThere(s: System, u: Upload)
    requires OnCard(s) && s.ul == Some(u) && u.file.Some?
    ensures u.name in s.card
  {
  }

  lemma TookFile(u: Upload, bytes: seq<byte>, wroteAll: bool)
    requires |bytes| <= u.remaining
    ensures Took(u, bytes, wroteAll).file.Some? ==> u.file.Some?
  {
  }

  function Newest(src: Source): Item {
    if src.ch.out == [] then Reply(0, 0) else src.ch.out[|src.ch.out| - 1]
  }

  lemma UploadFiles(s: System, io: UploadIo)
    requires FilesOk(s) && Exclusive(s) && (s.ul.Some? && s.ul.value.draining ==> s.ul.value.file.None?)
    ensures FilesOk(ServiceUpload(s, io))
  {
    if s.ul.Some? {
      var u := s.ul.value;
      if io.timedOut {
        LatchedFollows(s, ServiceUpload(s, io));
        hide Follows, Plain, Answer;
      } else {
        var src, want := Src(s, u.side), Min(u.remaining, CHUNK);
        var got := Arrivals(src, io.arrived, want);
        assert got > 0 ==> src.pos + got <= |src.input| && got <= want;
        hide FilesOk, Arrivals, Arrive;
        if got > 0 {
          ArriveFiles(s, u, got, io.wroteAll);
        }
      }
    }
  }

  lemma UploadHasFile(s: System)
    requires Inv(s) && s.ul.Some?
    ensures s.ul.value.draining <==> s.ul.value.file.None?
  {
    hide SourceOk, DownloadOk, ArchiveOk, Owned;
  }

  lemma ExclusiveOf(s: System)
    requires FilesOk(s) && Inv(s)
    ensures Exclusive(s)
  {
    OwnedOf(s);
    hide Inv, Owned, Follows, Plain, OnCard, Exclusive;
    GuardsHold(s, 0);
  }

  lemma ServicesFiles(s: System, t: Tick)
    requires FilesOk(s) && Inv(s)
    ensures FilesOk(Services(s, t))
  {
    hide FilesOk, Inv, ServiceDownload, ServiceUpload, ServiceArchive;
    var s1 := ServiceDownload(s, t.dl);
    DownloadFiles(s, t.dl);
    ServiceDownloadKeeps(s, t.dl);
    if s1.ul.Some? {
      UploadHasFile(s1);
    }
    ExclusiveOf(s1);
    UploadFiles(s1, t.ul);
    ArchiveFiles(ServiceUpload(s1, t.ul), t.ar);
  }

  lemma OwnedOf(s: System)
    requires Inv(s)
    ensures Owned(s)
  {
    hide Owned, SourceOk, DownloadOk, ArchiveOk, UploadOk;
  }

  lemma LoopFiles(s: System, t: Tick)
    requires FilesOk(s) && Inv(s) && SteadyTick(s, t)
    ensures FilesOk(Loop(s, t))
  {
    hide FilesOk, Inv, Owned, Intake, Process, Services, Steady, FlushSide;
    OwnedOf(s);
    IntakeFiles(s, t);
    IntakeKeeps(s, t);
    var s1 := Intake(s, t);
    OwnedOf(s1);
    ProcessFiles(s1, Net, t.netChoice);
    ProcessKeeps(s1, Net, t.netChoice);
    var s2 := Process(s1, Net, t.netChoice);
    OwnedOf(s2);
    ProcessFiles(s2, Serial, t.serialChoice);
    ProcessKeeps(s2, Serial, t.serialChoice);
    var s3 := Process(s2, Serial, t.serialChoice);
    ServicesFiles(s3, t);
    var s4 := Services(s3, t);
    FlushFiles(s4, Net, t.netRoom && (t.netUp || t.client.Some?));
    FlushFiles(FlushSide(s4, Net, t.netRoom && (t.netUp || t.client.Some?)), Serial, t.serialRoom);
  }

  lemma {:induction false} RunFiles(s: System, ticks: seq<Tick>)
    requires FilesOk(s) && Inv(s) && SteadyRun(s, ticks)
    ensures FilesOk(Run(s, ticks)) && Inv(Run(s, ticks))
  {
    hide FilesOk, Inv, Loop, SteadyTick;
    if ticks != [] {
      var n := |ticks| - 1;
      RunFiles(s, ticks[..n]);
      LoopFiles(Run(s, ticks[..n]), ticks[n]);
      LoopKeeps(Run(s, ticks[..n]), ticks[n]);
    }
  }

  /** Over every run in which no manifest write fails below a held pattern and none is renamed to pattern.temp: latched
      indices stand for the files opened, no file is both downloaded and uploaded, no deletion passes that takes a
      held file, an upload's file is on the card, and a download's is there as it was opened. */
  lemma FilesAreExclusive(net: seq<byte>, serial: seq<byte>, ps: seq<Pattern>, card: map<Name, seq<byte>>,
                          ticks: seq<Tick>)
    requires Distinct(ps) && Plain(ps) && SteadyRun(Fresh(net, serial, ps, card), ticks)
    ensures var s := Run(Fresh(net, serial, ps, card), ticks);
            && Follows(s) && Exclusive(s) && OnCard(s)
            && forall idx: nat :: !Robs(s, idx)
  {
    var s0 := Fresh(net, serial, ps, card);
    FreshOk(net, serial, ps, card);
    assert FilesOk(s0);
    hide Inv, Run, SteadyRun, Follows, Plain, OnCard, Exclusive, Robs, Owned;
    RunFiles(s0, ticks);
    var s := Run(s0, ticks);
    OwnedOf(s);
    forall idx: nat ensures !Robs(s, idx) {
      GuardsHold(s, idx);
    }
    GuardsHold(s, 0);
  }

  /** When such an upload ends with status 0, the file on the card is its payload. */
  lemma UploadLands(s: System, io: UploadIo)
    requires FilesOk(s) && Inv(s) && s.ul.Some?
    ensures var u, r := s.ul.value, ServiceUpload(s, io);
            r.ul.None? && Newest(Src(r, u.side)).Stored? ==>
              && u.start + u.total as nat <= |Src(s, u.side).input|
              && Holds(r.card, u.name, Src(s, u.side).input[u.start..u.start + u.total as nat])
  {
    hide FilesOk, Inv, UploadOk, SourceOk, Arrive, EndUpload, Arrivals;
    var u := s.ul.value;
    var src, want := Src(s, u.side), Min(u.remaining, CHUNK);
    UploadHasFile(s);
    UploadResyncs(s, io);
    Uploading(s, u);
    PosFits(s, u.side);
    ExclusiveOf(s);
    if io.timedOut {
      EndUploadIs(s, u.side, Reply(0x85, u.status));
    } else {
      ArrivalsFit(src, io.arrived, want);
      var got := Arrivals(src, io.arrived, want);
      if got > 0 {
        ArriveFiles(s, u, got, io.wroteAll);
      }
    }
  }

  // ----- exclusion, run by run --------------------------------------------

  /** A command is accepted for the file the other transfer holds. */
  predicate TakesHeld(s: System, side: Side, c: Choice) {
    Dispatched(s, side) &&
    match Src(s, side).cmd.value
    case GetFile(idx, ok) =>
      && c.displayOff && GetFileFree(s, idx, ok) && c.openOk
      && s.ul.Some? && s.ul.value.name == FileOf(s.patterns, idx)
    case PutFile(idx, len) =>
      DoPutFile(s, side, idx, len, c).1 && s.dl.Some? && s.dl.value.name == FileOf(s.patterns, idx)
    case _ => false
  }

  /** `r` holds the same files. */
  predicate SameHeld(s: System, r: System) {
    && s.dl.Some? == r.dl.Some? && (s.dl.Some? ==> r.dl.value.name == s.dl.value.name)
    && s.ul.Some? == r.ul.Some? && (s.ul.Some? ==> r.ul.value.name == s.ul.value.name)
  }

  lemma GetFileHolds(s: System, side: Side, idx: u16, ok: bool, c: Choice)
    ensures var r := DoGetFile(s, side, idx, ok, c);
            if c.displayOff && GetFileFree(s, idx, ok) && c.openOk then
              s.dl.None? && r.dl.Some? && r.dl.value.name == FileOf(s.patterns, idx) && r.ul == s.ul
            else SameHeld(s, r)
  {
    hide SendResponse, FileSize;
  }

  lemma PutFileHolds(s: System, side: Side, idx: u16, len: u32, c: Choice)
    ensures var (r, pending) := DoPutFile(s, side, idx, len, c);
            if pending then
              s.ul.None? && idx <= |s.patterns| && r.ul.Some? && r.ul.value.name == FileOf(s.patterns, idx) && r.dl == s.dl
            else SameHeld(s, r)
  {
    hide SendResponse, Arrivals;
  }

  lemma OtherHolds(s: System, side: Side, cmd: Command, c: Choice)
    requires !cmd.GetFile? && !cmd.PutFile?
    ensures SameHeld(s, Handle(s, side, cmd, c).0)
  {
    hide DoGetFile, DoPutFile, DoPutFirmware, DoDelete, DoRename, DoPurge, DoGetArchive, SendResponse, SameHeld;
    match cmd
    case PutFirmware(len) => FirmwareHolds(s, side, len, c);
    case Delete(idx, ok) => DeleteHolds(s, side, idx, ok, c);
    case _ => RestHolds(s, side, cmd, c);
  }

  lemma FirmwareHolds(s: System, side: Side, len: u32, c: Choice)
    ensures SameHeld(s, DoPutFirmware(s, side, len, c))
  {
    hide SendResponse, Arrivals, BurnFrom, Zip.Crc, Quiet;
  }

  lemma DeleteHolds(s: System, side: Side, idx: u16, ok: bool, c: Choice)
    ensures SameHeld(s, DoDelete(s, side, idx, ok, c))
  {
    hide SendResponse, Remove, Shifted, Busy;
  }

  lemma RestHolds(s: System, side: Side, cmd: Command, c: Choice)
    requires cmd.Rename? || cmd.Purge? || cmd.GetArchive? || cmd.Other?
    ensures SameHeld(s, Handle(s, side, cmd, c).0)
  {
    hide DoGetFile, DoPutFile, DoPutFirmware, DoDelete, SendResponse, PatternIndex.Rename, Moved, IndexOf, Armed, Quiet;
  }

  /** A turn breaks exclusion exactly when it accepts a command for a held file. */
  lemma ProcessExclusive(s: System, side: Side, c: Choice)
    ensures Exclusive(Process(s, side, c)) <==> Exclusive(s) && !TakesHeld(s, side, c)
  {
    if Dispatched(s, side) {
      var cmd := Src(s, side).cmd.value;
      hide DoGetFile, DoPutFile, DoPutFirmware, DoDelete, DoRename, DoPurge, DoGetArchive, GetFileFree, Owns;
      match cmd
      case GetFile(idx, ok) => GetFileHolds(s, side, idx, ok, c);
      case PutFile(idx, len) => PutFileHolds(s, side, idx, len, c);
      case _ => OtherHolds(s, side, cmd, c);
    }
  }

  /** A client that goes ends a transfer of every pair. */
  lemma IntakeExclusive(s: System, t: Tick)
    requires Owned(s)
    ensures Exclusive(Intake(s, t)) <==> Exclusive(s) || !t.netUp
  {
    hide Accept, ParseIncoming;
  }

  /** Transfers go on with their files, or end. */
  predicate Fades(s: System, r: System) {
    && (r.dl.Some? ==> s.dl.Some? && r.dl.value.name == s.dl.value.name)
    && (r.ul.Some? ==> s.ul.Some? && r.ul.value.name == s.ul.value.name)
  }

  lemma UploadFades(s: System, io: UploadIo)
    ensures Fades(s, ServiceUpload(s, io))
  {
    hide SendResponse, Arrivals, Written;
  }

  lemma OthersFade(s: System, t: Tick)
    ensures Fades(s, ServiceDownload(s, t.dl)) && Fades(s, ServiceArchive(s, t.ar))
    ensures forall side, room :: Fades(s, FlushSide(s, side, room))
  {
    hide TellRaw, DownloadSends, FlushResponses, DownloadBytes, DownloadTaken, ZipNext, ZipSends, ZipBytes;
    RawHolds(s);
  }

  lemma RawHolds(s: System)
    ensures forall side, k, data, flushed :: var r := TellRaw(s, side, k, data, flushed); r.dl == s.dl && r.ul == s.ul
  {
    hide SendRaw;
  }

  lemma ServicesExclusive(s: System, t: Tick)
    ensures var r := FlushSide(FlushSide(Services(s, t), Net, t.netRoom && (t.netUp || t.client.Some?)), Serial, t.serialRoom);
            Exclusive(r) <==> Exclusive(s) || r.dl.None? || r.ul.None?
  {
    hide ServiceDownload, ServiceUpload, ServiceArchive, FlushSide;
    var s1 := ServiceDownload(s, t.dl);
    var s2 := ServiceUpload(s1, t.ul);
    var s3 := ServiceArchive(s2, t.ar);
    var s4 := FlushSide(s3, Net, t.netRoom && (t.netUp || t.client.Some?));
    OthersFade(s, t);
    UploadFades(s1, t.ul);
    OthersFade(s2, t);
    OthersFade(s3, t);
    OthersFade(s4, t);
  }

  /** In this iteration a command is accepted for a file the other transfer holds. */
  predicate Takes(s: System, t: Tick) {
    var s1 := Intake(s, t);
    TakesHeld(s1, Net, t.netChoice) || TakesHeld(Process(s1, Net, t.netChoice), Serial, t.serialChoice)
  }

  /** That happened, and both transfers have gone on since. */
  predicate Doubled(s: System, ticks: seq<Tick>) {
    ticks != [] &&
    var n := |ticks| - 1;
    var was, now := Run(s, ticks[..n]), Run(s, ticks);
    now.dl.Some? && now.ul.Some? && (Takes(was, ticks[n]) || (ticks[n].netUp && Doubled(s, ticks[..n])))
  }

  lemma LoopExclusive(s: System, t: Tick)
    requires Owned(s)
    ensures var r := Loop(s, t);
            Exclusive(r) <==> r.dl.None? || r.ul.None? || ((Exclusive(s) || !t.netUp) && !Takes(s, t))
  {
    hide Owned, Exclusive, Intake, Process, Services, FlushSide, TakesHeld;
    IntakeExclusive(s, t);
    var s1 := Intake(s, t);
    ProcessExclusive(s1, Net, t.netChoice);
    var s2 := Process(s1, Net, t.netChoice);
    ProcessExclusive(s2, Serial, t.serialChoice);
    ServicesExclusive(Process(s2, Serial, t.serialChoice), t);
    Alone(Loop(s, t));
  }

  lemma Alone(s: System)
    ensures s.dl.None? || s.ul.None? ==> Exclusive(s)
  {
  }

  /** Over every run from power-up, steady or not: one file is downloaded and uploaded at once if and only if some
      command was accepted for the file the other transfer held, and both have gone on since. */
  lemma {:induction false} ExclusiveIff(net: seq<byte>, serial: seq<byte>, ps: seq<Pattern>, card: map<Name,
                                        seq<byte>>, ticks: seq<Tick>)
    ensures var s0 := Fresh(net, serial, ps, card); Exclusive(Run(s0, ticks)) <==> !Doubled(s0, ticks)
  {
    var s0 := Fresh(net, serial, ps, card);
    FreshOk(net, serial, ps, card);
    if ticks == [] {
      assert Exclusive(s0);
    } else {
      hide Inv, Owned, Exclusive, Loop, Takes, Fresh;
      var n := |ticks| - 1;
      ExclusiveIff(net, serial, ps, card, ticks[..n]);
      RunKeeps(s0, ticks[..n]);
      OwnedOf(Run(s0, ticks[..n]));
      LoopExclusive(Run(s0, ticks[..n]), ticks[n]);
      Alone(Run(s0, ticks));
    }
  }
}
