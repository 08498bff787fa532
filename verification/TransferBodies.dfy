/** When the raw bodies of a connection are whole, over every run, and what its host then reads. */
module TransferBodies {
  import opened Bytes
  import opened PatternIndex
  import opened Sources
  import opened RawBodies
  import opened Transfers
  import opened TransferProofs
  import opened TransferReplies
  import Archive
  import ArchiveProofs
  import ArchiveRuns
  import Zip

  // ----- one iteration ----------------------------------------------------

  predicate DownloadOvertakes(s: System, io: DownloadIo, side: Side) {
    && DownloadSends(s, io) && s.dl.value.side == side
    && Overtaking(Src(s, side).ch, s.dl.value.k, DownloadBytes(s.dl.value, io), io.flushed)
  }

  predicate ArchiveOvertakes(s: System, io: ArchiveIo, side: Side) {
    && s.ar.Some? && s.ar.value.side == side && ZipSends(s.ar.value, io)
    && Overtaking(Src(s, side).ch, s.ar.value.k, ZipBytes(s.ar.value, io), io.flushed)
  }

  function AfterDispatch(s: System, t: Tick): System {
    Process(Process(Intake(s, t), Net, t.netChoice), Serial, t.serialChoice)
  }

  /** In this iteration bytes of a body go out on this side with the wait for room given up and their header still in
      the slot. */
  predicate Overtakes(s: System, t: Tick, side: Side) {
    var s1 := AfterDispatch(s, t);
    var s2 := ServiceUpload(ServiceDownload(s1, t.dl), t.ul);
    DownloadOvertakes(s1, t.dl, side) || ArchiveOvertakes(s2, t.ar, side)
  }

  /** What the invariant knows of the body a side is sending. */
  lemma BodySending(s: System, side: Side)
    requires Inv(s)
    ensures Accounted(Src(s, side).ch)
    ensures BodyOn(s, side).Some? ==> Sending(Src(s, side).ch, BodyOn(s, side).value)
  {
    hide Accounted, PromisesKept, Sending, Owned, DownloadOk, ArchiveOk, UploadOk, Honest;
  }

  lemma DownloadBodies(s: System, io: DownloadIo, side: Side)
    requires Inv(s)
    ensures Bodies(Src(ServiceDownload(s, io), side).ch.wire)
            <==> Bodies(Src(s, side).ch.wire) && !DownloadOvertakes(s, io, side)
  {
    BodySending(s, side);
    hide Inv, SendRaw, Bodies, Accounted, Sending, DownloadTaken, DownloadBytes, Overtaking;
    if DownloadSends(s, io) && s.dl.value.side == side {
      RawBodies.RawBodies(Src(s, side).ch, s.dl.value.k, DownloadBytes(s.dl.value, io), io.flushed);
    }
  }

  lemma ArchiveBodies(s: System, io: ArchiveIo, side: Side)
    requires Inv(s)
    ensures Bodies(Src(ServiceArchive(s, io), side).ch.wire)
            <==> Bodies(Src(s, side).ch.wire) && !ArchiveOvertakes(s, io, side)
  {
    BodySending(s, side);
    OwnedOf(s);
    hide Inv, SendRaw, Bodies, Accounted, Sending, ZipNext, ZipSends, ZipBytes, Overtaking;
    if s.ar.Some? && s.ar.value.side == side && ZipSends(s.ar.value, io) {
      RawBodies.RawBodies(Src(s, side).ch, s.ar.value.k, ZipBytes(s.ar.value, io), io.flushed);
    }
  }

  lemma OwnedOf(s: System)
    requires Inv(s)
    ensures Owned(s)
  {
    hide Owned, SourceOk, DownloadOk, ArchiveOk, UploadOk;
  }

  /** Replies go to the slot, not the wire. */
  lemma {:induction false} SendsQuiet(ch: Channel, acts: seq<Act>)
    requires forall a :: a in acts ==> a.Send?
    ensures DoAll(ch, acts).wire == ch.wire
    decreases acts
  {
    if acts != [] {
      SendsQuiet(Do(ch, acts[0]), acts[1..]);
    }
  }

  lemma UploadQuiet(s: System, io: UploadIo, side: Side)
    ensures Src(ServiceUpload(s, io), side).ch.wire == Src(s, side).ch.wire
  {
    UploadDoes(s, io, side);
    hide ServiceUpload, DoAll, Src, Newest;
    SendsQuiet(Src(s, side).ch, UploadActs(s, io, side));
  }

  lemma DispatchQuiet(s: System, t: Tick, side: Side)
    ensures Src(AfterDispatch(s, t), side).ch.wire == Base(s, t, side).wire
  {
    hide Intake, Process, DoAll, Src, Newest, Base, Handle, Dispatched;
    IntakeQuiet(s, t, side);
    DispatchDoes(Intake(s, t), t, side);
    SendsQuiet(Src(Intake(s, t), side).ch, DispatchActs(Intake(s, t), t, side));
  }

  lemma DispatchKeeps(s: System, t: Tick)
    requires Inv(s)
    ensures Inv(AfterDispatch(s, t))
  {
    hide Inv, Intake, Process;
    IntakeKeeps(s, t);
    ProcessKeeps(Intake(s, t), Net, t.netChoice);
    ProcessKeeps(Process(Intake(s, t), Net, t.netChoice), Serial, t.serialChoice);
  }

  /** One iteration leaves the bodies whole exactly when they were and no bytes overtake their header. */
  lemma LoopBodies(s: System, t: Tick, side: Side)
    requires Inv(s)
    ensures Bodies(Src(Loop(s, t), side).ch.wire) <==> Bodies(Base(s, t, side).wire) && !Overtakes(s, t, side)
  {
    hide Inv, Bodies, Intake, Process, AfterDispatch, ServiceDownload, ServiceUpload, ServiceArchive, Base,
         DownloadOvertakes, ArchiveOvertakes,
         FlushResponses;
    DispatchQuiet(s, t, side);
    DispatchKeeps(s, t);
    var s1 := AfterDispatch(s, t);
    var s2 := ServiceDownload(s1, t.dl);
    var s3 := ServiceUpload(s2, t.ul);
    DownloadBodies(s1, t.dl, side);
    ServiceDownloadKeeps(s1, t.dl);
    UploadQuiet(s2, t.ul, side);
    ServiceUploadKeeps(s2, t.ul);
    ArchiveBodies(s3, t.ar, side);
    FlushBodies(Src(ServiceArchive(s3, t.ar), side).ch, Room(t, side));
    LoopIs(s, t, side);
  }

  lemma LoopIs(s: System, t: Tick, side: Side)
    ensures var s1 := AfterDispatch(s, t);
            var s4 := ServiceArchive(ServiceUpload(ServiceDownload(s1, t.dl), t.ul), t.ar);
            Src(Loop(s, t), side).ch == FlushResponses(Src(s4, side).ch, Room(t, side))
  {
    hide Intake, Process, ServiceDownload, ServiceUpload, ServiceArchive, FlushResponses;
  }

  // ----- whole runs -------------------------------------------------------

  predicate NewHost(t: Tick, side: Side) {
    side == Net && !t.netUp
  }

  /** Some iteration since this side's host connected sent bytes past their header. */
  predicate Overtaken(s: System, ticks: seq<Tick>, side: Side) {
    ticks != [] &&
    var was, t := Run(s, ticks[..|ticks| - 1]), ticks[|ticks| - 1];
    Overtakes(was, t, side) || (!NewHost(t, side) && Overtaken(s, ticks[..|ticks| - 1], side))
  }

  /** Over every run from power-up, on either side: every raw piece on the wire stands behind its own header with only
      pieces of the same body between, if and only if no iteration sent bytes of a body with the wait for room given up
      and their header still in the slot. */
  lemma {:induction false} BodiesWholeIff(net: seq<byte>, serial: seq<byte>, ps: seq<Pattern>, card: map<Name,
                                          seq<byte>>,
                                          ticks: seq<Tick>, side: Side)
    ensures var s0 := Fresh(net, serial, ps, card);
            Bodies(Src(Run(s0, ticks), side).ch.wire) <==> !Overtaken(s0, ticks, side)
  {
    var s0 := Fresh(net, serial, ps, card);
    if ticks == [] {
      assert Src(Run(s0, []), side).ch.wire == [];
    } else {
      var n := |ticks| - 1;
      BodiesWholeIff(net, serial, ps, card, ticks[..n], side);
      FreshOk(net, serial, ps, card);
      hide Inv, Loop, Fresh, Bodies, Overtakes;
      RunKeeps(s0, ticks[..n]);
      var s := Run(s0, ticks[..n]);
      LoopBodies(s, ticks[n], side);
      BaseBodies(s, ticks[n], side);
    }
  }

  lemma BaseBodies(s: System, t: Tick, side: Side)
    ensures Bodies(Base(s, t, side).wire) <==> NewHost(t, side) || Bodies(Src(s, side).ch.wire)
  {
    hide Bodies;
    assert Bodies([]) by { EmptyBodies(); }
  }

  lemma EmptyBodies()
    ensures Bodies([])
  {
  }

  /** A host patient enough that every header gets out first. */
  predicate Patient(t: Tick) {
    t.dl.flushed && t.ar.flushed
  }

  /** So no run with such a host puts a frame inside a body, or bytes before their header. */
  lemma {:induction false} BodiesWhole(net: seq<byte>, serial: seq<byte>, ps: seq<Pattern>, card: map<Name, seq<byte>>,
                                       ticks: seq<Tick>, side: Side)
    requires forall t :: t in ticks ==> Patient(t)
    ensures Bodies(Src(Run(Fresh(net, serial, ps, card), ticks), side).ch.wire)
  {
    BodiesWholeIff(net, serial, ps, card, ticks, side);
    PatientNever(Fresh(net, serial, ps, card), ticks, side);
    hide Run, Overtaken;
  }

  lemma PatientTick(s: System, t: Tick, side: Side)
    requires Patient(t)
    ensures !Overtakes(s, t, side)
  {
    hide AfterDispatch, ServiceDownload, ServiceUpload, DownloadSends, DownloadBytes, ZipSends, ZipBytes, Src;
  }

  lemma {:induction false} PatientNever(s: System, ticks: seq<Tick>, side: Side)
    requires forall t :: t in ticks ==> Patient(t)
    ensures !Overtaken(s, ticks, side)
  {
    if ticks != [] {
      hide Run, Overtakes, Patient;
      var n := |ticks| - 1;
      PatientNever(s, ticks[..n], side);
      PatientTick(Run(s, ticks[..n]), ticks[n], side);
    }
  }

  // ----- what the host reads ----------------------------------------------

  /** What a header's announced bytes are worth: `size` of them are the file; the promised length of them are a ZIP
      archive of the library, each member a copy of its file (content up to some point, zeros beyond). */
  predicate ReadsRight(item: Item, got: seq<byte>) {
    match item
    case FileHeader(size, content) =>
      && size == FileSize(content) && got <= content[..size]
      && (|got| == size as int && |content| < TWO_TO_32 ==> got == content)
    case ZipHeader(promise, library) =>
      |got| == promise && Archive.Start(library.entries, |library.entries|) < TWO_TO_32 ==> IsArchive(library, got)
    case _ => true
  }

  predicate IsArchive(library: Archive.Library, z: seq<byte>) {
    var es := library.entries;
    && Archive.Start(es, |es|) <= |z|
    && Zip.Read(z) == Some(ArchiveProofs.MembersOn(es, z, 0))
    && forall i :: 0 <= i < |es| ==> ArchiveRuns.CopyOn(es, z, library.disk, i, false)
  }

  /** A stream that has sent everything is complete. */
  lemma SentAll(st: Archive.Stream)
    requires ArchiveProofs.Inv(st) && |st.wire| == Archive.Total(st.entries)
    ensures ArchiveRuns.Complete(st)
  {
    if st.active {
      ArchiveProofs.BufferFits(st, 0);
    }
    hide ArchiveProofs.Inv, Archive.Total, Archive.Buffer;
  }

  lemma ZippedReads(library: Archive.Library, z: seq<byte>)
    requires Zipped(library, z) && Archive.Start(library.entries, |library.entries|) < TWO_TO_32
    requires |z| == Archive.Promise(Archive.Arm(library.entries))
    ensures IsArchive(library, z)
  {
    var st :| Streams(st, library, z);
    hide ArchiveProofs.Inv, Archive.Promise, Archive.Arm, Archive.Start, Archive.Total, Zip.Read,
         ArchiveProofs.MembersOn,
         ArchiveRuns.CopyOn, ArchiveProofs.EntriesDone, ArchiveRuns.InHand, ArchiveProofs.SoFar;
    ArchiveRuns.PromiseFits(library.entries);
    SentAll(st);
    ArchiveRuns.CompleteReads(st);
    assert ArchiveRuns.CopiesOn(st.entries, st.wire, library.disk, |st.entries|, false);
  }

  lemma PromisedReads(item: Item, body: seq<byte>)
    requires Promised(item, body)
    ensures ReadsRight(item, body)
  {
    hide Zipped, IsArchive, Archive.Promise, Archive.Arm, Archive.Start;
    match item
    case FileHeader(size, content) =>
      if |content| < TWO_TO_32 && |body| == size as int {
        ArchiveRuns.WrapsOrNot(|content|);
        assert content[..size] == content;
      }
    case ZipHeader(promise, library) =>
      if |body| == promise && Archive.Start(library.entries, |library.entries|) < TWO_TO_32 {
        ZippedReads(library, body);
      }
    case _ =>
  }

  lemma HeaderReads(ch: Channel, h: nat)
    requires Accounted(ch) && PromisesKept(ch) && Bodies(ch.wire) && h < |ch.wire| && ch.wire[h].Frame?
    requires ch.wire[h].q.conn == ch.conn && Heads(ch.wire[h].q.item)
    ensures ReadsRight(ch.wire[h].q.item, Behind(ch.wire, h))
  {
    var q := ch.wire[h].q;
    forall i | 0 <= i < |ch.wire| && i != h && ch.wire[i].Frame? ensures ch.wire[i].q.conn != q.conn || ch.wire[i].q.k != q.k {
      if ch.wire[i].q.conn == q.conn && ch.wire[i].q.k == q.k {
        FramedOnce(ch, i, h);
      }
    }
    assert Placed(ch, h, ch.wire[h]);
    hide Bodies, Behind, BodyOf, Promised, ReadsRight, Delivered, Kept, Placed;
    BehindIsBody(ch.wire, h);
    PromisedReads(q.item, BodyOf(ch.wire, ch.conn, q.k));
  }

  /** Over every run in which no bytes overtake their header: a host that reads on behind a header it was sent finds
      a front of the file announced, and if it finds as many bytes as were announced, the file; or an archive that
      reads back as ZIP. */
  lemma HostReads(net: seq<byte>, serial: seq<byte>, ps: seq<Pattern>, card: map<Name, seq<byte>>, ticks: seq<Tick>,
                  side: Side,
                  h: nat)
    requires var s0 := Fresh(net, serial, ps, card);
             var ch := Src(Run(s0, ticks), side).ch;
             && !Overtaken(s0, ticks, side)
             && h < |ch.wire| && ch.wire[h].Frame? && ch.wire[h].q.conn == ch.conn && Heads(ch.wire[h].q.item)
    ensures var ch := Src(Run(Fresh(net, serial, ps, card), ticks), side).ch;
            ReadsRight(ch.wire[h].q.item, Behind(ch.wire, h))
  {
    hide Run, Overtaken, Fresh, Accounted, PromisesKept, ReadsRight, Behind, Bodies, Owned, DownloadOk, ArchiveOk,
         UploadOk, Honest;
    TransfersAreSafe(net, serial, ps, card, ticks);
    BodiesWholeIff(net, serial, ps, card, ticks, side);
    HeaderReads(Src(Run(Fresh(net, serial, ps, card), ticks), side).ch, h);
  }

  // ----- when a transfer ends ---------------------------------------------

  /** A download that ends has sent its whole file exactly when there was nothing left to send or the transport took
      all that was left. */
  lemma DownloadEnds(s: System, io: DownloadIo)
    requires Inv(s) && s.dl.Some? && ServiceDownload(s, io).dl.None?
    ensures var d := s.dl.value;
            var ch := Src(ServiceDownload(s, io), d.side).ch;
            BodyOf(ch.wire, ch.conn, d.k) == d.content[..FileSize(d.content)]
            <==> d.remaining == 0 || (DownloadSends(s, io) && DownloadTaken(d, io).1 == d.remaining as int)
  {
    hide SourceOk, UploadOk, ArchiveOk, BodyOf, SendRaw, DownloadTaken;
    var d := s.dl.value;
    var src := Src(s, d.side);
    assert DownloadOk(d, src);
    if DownloadSends(s, io) {
      RawLengthens(src.ch, d.k, DownloadBytes(d, io), io.flushed, d.k);
      RawQuiet(src.ch, d.k, DownloadBytes(d, io), io.flushed);
      FileGoesOn(d, src, io);
    }
    hide Inv, FileSize;
  }

  /** An archive that ends has sent all of it exactly when its last step neither timed out nor stalled. */
  lemma ArchiveEnds(s: System, io: ArchiveIo)
    requires Inv(s) && s.ar.Some? && ServiceArchive(s, io).ar.None?
    ensures var a := s.ar.value;
            var ch := Src(ServiceArchive(s, io), a.side).ch;
            |BodyOf(ch.wire, ch.conn, a.k)| == Archive.Total(a.library.entries)
            <==> !io.tick.timedOut && io.tick.accepted >= |Archive.Buffer(a.stream, io.tick.rd)|
  {
    var a := s.ar.value;
    var src := Src(s, a.side);
    assert ArchiveOk(a, src);
    hide Inv, BodyOf, SendRaw, ZipNext, ZipSends, ZipBytes, Archive.Total, Archive.Buffer;
    StreamGoesOn(a, src, io);
    ZipEnds(a, io);
    if ZipSends(a, io) {
      RawLengthens(src.ch, a.k, ZipBytes(a, io), io.flushed, a.k);
      RawQuiet(src.ch, a.k, ZipBytes(a, io), io.flushed);
    } else {
      assert BodyOf(src.ch.wire, src.ch.conn, a.k) + [] == BodyOf(src.ch.wire, src.ch.conn, a.k);
    }
    hide Streams;
  }

  lemma ZipEnds(a: Zipping, io: ArchiveIo)
    requires ArchiveProofs.Inv(a.stream) && a.stream.active && !ZipNext(a, io).active
    ensures |ZipNext(a, io).wire| == Archive.Total(a.library.entries)
            <==> !io.tick.timedOut && io.tick.accepted >= |Archive.Buffer(a.stream, io.tick.rd)|
  {
    ArchiveProofs.BufferFits(a.stream, io.tick.rd);
    hide Archive.Total, ArchiveProofs.Inv, Archive.Buffer, Archive.Next;
    ArchiveRuns.EndsComplete(a.stream, io.tick, a.library.disk);
  }

  // ----- a header inside its own body -------------------------------------

  /** The network host asks for the first pattern; one byte of it goes out with the header still in the slot. */
  predicate AsksAndOvertakes(t: Tick) {
    && t.netUp && t.netParse == Parsed(Some(GetFile(1, true)), 1) && t.serialParse == Parsed(None, 0)
    && t.netChoice.displayOff && t.netChoice.openOk
    && t.dl == DownloadIo(false, 1, 1, false) && t.netRoom
  }

  /** Nothing arrives; the download sends one more byte. */
  predicate SendsOn(t: Tick) {
    && t.netUp && t.netParse == Parsed(None, 0) && t.serialParse == Parsed(None, 0)
    && t.dl == DownloadIo(false, 1, 1, true)
  }

  function TwoBytes(a: Name, x: byte, y: byte, remaining: u32): Download
    requires remaining <= 2
  {
    Download(Net, 1, a, [x, y], remaining, 0)
  }

  lemma FirstByte(s: System, t: Tick, a: Name, x: byte, y: byte)
    requires Quiet(s) && s.net.cmd.None? && s.serial.cmd.None? && s.net.pos < |s.net.input|
    requires s.net.ch == Channel(0, [], None, [], {}) && |s.patterns| == 1 && s.patterns[0].name == a
    requires a in s.card && s.card[a] == [x, y] && AsksAndOvertakes(t)
    ensures var r, q := Loop(s, t), Queued(0, 0, FileHeader(2, [x, y]));
            && r.dl == Some(TwoBytes(a, x, y, 1)) && r.ul.None? && r.ar.None?
            && r.net.cmd.None? && r.serial.cmd.None?
            && r.net.ch == Channel(0, [q.item], None, [Raw(0, 0, [x]), Frame(q)], {})
  {
    hide Services;
    var q := Queued(0, 0, FileHeader(2, [x, y]));
    var s1 := AfterDispatch(s, t);
    assert s1.net.ch == Channel(0, [q.item], Some(q), [], {});
    assert s1.dl == Some(TwoBytes(a, x, y, 2)) && s1.ul.None? && s1.ar.None?;
    assert s1.net.cmd.None? && s1.serial.cmd.None?;
    hide AfterDispatch;
    SendsFirst(s1, t.dl, a, x, y, q);
    assert Services(s1, t) == ServiceDownload(s1, t.dl) by { OnlyDownload(s1, t); }
    hide ServiceDownload;
    assert [] + [Raw(0, 0, [x])] == [Raw(0, 0, [x])];
  }

  lemma OnlyDownload(s: System, t: Tick)
    requires s.ul.None? && s.ar.None?
    ensures Services(s, t) == ServiceDownload(s, t.dl)
  {
    hide SendRaw, DownloadBytes;
  }

  lemma SendsFirst(s: System, io: DownloadIo, a: Name, x: byte, y: byte, q: Queued)
    requires s.dl == Some(TwoBytes(a, x, y, 2)) && io == DownloadIo(false, 1, 1, false)
    requires s.net.ch == Channel(0, [q.item], Some(q), [], {})
    ensures var r := ServiceDownload(s, io);
            && r == s.(net := r.net, dl := Some(TwoBytes(a, x, y, 1)))
            && r.net == s.net.(ch := Channel(0, [q.item], Some(q), [Raw(0, 0, [x])], {}))
  {
    assert DownloadBytes(s.dl.value, io) == [x];
  }

  lemma SecondByte(s: System, t: Tick, a: Name, x: byte, y: byte, q: Queued)
    requires s.dl == Some(TwoBytes(a, x, y, 1)) && s.ul.None? && s.ar.None? && s.net.cmd.None? && s.serial.cmd.None?
    requires s.net.ch == Channel(0, [q.item], None, [Raw(0, 0, [x]), Frame(q)], {}) && SendsOn(t)
    ensures Loop(s, t).net.ch.wire == [Raw(0, 0, [x]), Frame(q), Raw(0, 0, [y])] && Loop(s, t).dl.None?
  {
    hide Services;
    var s1 := AfterDispatch(s, t);
    assert s1 == s;
    hide AfterDispatch;
    assert DownloadBytes(s.dl.value, t.dl) == [y];
    OnlyDownload(s, t);
    assert ServiceDownload(s, t.dl).net.ch.wire == [Raw(0, 0, [x]), Frame(q), Raw(0, 0, [y])];
    hide ServiceDownload;
  }

  /** From power-up: the first byte of a two-byte file goes out, then the header, then the second byte. A host that
      waits for the header finds a stray byte before it and one byte too few behind it. */
  lemma HeaderOvertaken(net: seq<byte>, serial: seq<byte>, a: Pattern, card: map<Name, seq<byte>>, x: byte, y: byte,
                        t: Tick, u: Tick)
    requires |net| >= 1 && a.name in card && card[a.name] == [x, y] && AsksAndOvertakes(t) && SendsOn(u)
    ensures var s0 := Fresh(net, serial, [a], card);
            var ch := Run(s0, [t, u]).net.ch;
            && ch.wire == [Raw(0, 0, [x]), Frame(Queued(0, 0, FileHeader(2, [x, y]))), Raw(0, 0, [y])]
            && !Bodies(ch.wire) && Overtaken(s0, [t, u], Net) && Behind(ch.wire, 1) == [y]
  {
    var s0, q := Fresh(net, serial, [a], card), Queued(0, 0, FileHeader(2, [x, y]));
    TwoTicks(s0, t, u);
    FirstByte(s0, t, a.name, x, y);
    hide Loop, Run;
    SecondByte(Loop(s0, t), u, a.name, x, y, q);
    hide Fresh, Overtaken, Bodies, Behind, AsksAndOvertakes, SendsOn;
    BodiesWholeIff(net, serial, [a], card, [t, u], Net);
    StrayFirst(q, x, y);
  }

  lemma StrayFirst(q: Queued, x: byte, y: byte)
    ensures var wire := [Raw(0, 0, [x]), Frame(q), Raw(0, 0, [y])]; !Bodies(wire) && Behind(wire, 1) == [y]
  {
    var wire := [Raw(0, 0, [x]), Frame(q), Raw(0, 0, [y])];
    assert !Led(wire, 0);
    assert wire[2] == Raw(0, 0, [y]) && Behind(wire, 2) == [] && Behind(wire, 1) == [y] + [];
  }
}
