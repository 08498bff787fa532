/** Reachable runs in which the index guards let one file be held twice, or taken from under an upload. */
module TransferMishaps {
  import opened Bytes
  import opened PatternIndex
  import opened Sources
  import opened RawBodies
  import opened Transfers
  import opened TransferProofs
  import opened TransferFiles

  function ChoiceOf(t: Tick, side: Side): Choice {
    if side == Net then t.netChoice else t.serialChoice
  }

  /** One command on one side; the other side parses nothing, a download moves one byte, an upload none. */
  predicate Brings(t: Tick, side: Side, cmd: Command) {
    && t.netUp
    && t.netParse == (if side == Net then Parsed(Some(cmd), 1) else Parsed(None, 0))
    && t.serialParse == (if side == Serial then Parsed(Some(cmd), 1) else Parsed(None, 0))
    && t.dl.rd == 1 && t.dl.accepted == 1 && !t.dl.timedOut
    && t.ul.arrived == 0 && !t.ul.timedOut
    && ChoiceOf(t, side).displayOff && ChoiceOf(t, side).mounted && ChoiceOf(t, side).openOk
  }

  /** The side can take a command, and the other has none to dispatch. */
  predicate Ready(s: System, side: Side) {
    && s.ar.None?
    && Src(s, side).cmd.None? && !Owns(s, side) && Src(s, side).pos < |Src(s, side).input|
    && (Src(s, Peer(side)).cmd.None? || Owns(s, Peer(side)))
    && (s.dl.Some? ==> s.dl.value.remaining >= 2)
    && (s.ul.Some? ==> s.ul.value.remaining >= 1)
  }

  function Taken(s: System, side: Side, cmd: Command): System {
    var src := Src(s, side);
    With(s, side, src.(pos := src.pos + 1, parsed := src.parsed + 1, cmd := Some(cmd)))
  }

  /** The download one byte on. */
  function Further(dl: Option<Download>): Option<Download> {
    if dl.Some? && dl.value.remaining >= 2 then Some(dl.value.(remaining := dl.value.remaining - 1)) else None
  }

  /** The state as far as files are concerned, and what both parsers see. */
  predicate Becomes(r: System, dl: Option<Download>, ul: Option<Upload>, ps: seq<Pattern>, card: map<Name, seq<byte>>) {
    r.ar.None? && r.dl == dl && r.ul == ul && r.patterns == ps && r.card == card
  }

  /** `now` is `was` after one more byte of input; its command is consumed or pending. */
  predicate Ate(was: Source, now: Source, pending: bool) {
    now.input == was.input && now.pos == was.pos + 1 && now.cmd.Some? == pending
  }

  predicate Untouched(was: Source, now: Source) {
    now.input == was.input && now.pos == was.pos && now.cmd == was.cmd
  }

  /** What the handler leaves, the services and the flush pass on. */
  lemma ServicesPass(s: System, t: Tick)
    requires s.ar.None? && t.dl.rd == 1 && t.dl.accepted == 1 && !t.dl.timedOut && t.ul.arrived == 0 && !t.ul.timedOut
    requires s.dl.Some? ==> s.dl.value.remaining >= 2
    ensures var r := FlushSide(FlushSide(Services(s, t), Net, Room(t)), Serial, t.serialRoom);
            && Becomes(r, Further(s.dl), s.ul, s.patterns, s.card)
            && Untouched(s.net, r.net) && Untouched(s.serial, r.serial)
  {
    hide SendRaw, FlushResponses, DownloadBytes;
    assert s.dl.Some? ==> DownloadTaken(s.dl.value, t.dl) == (1, 1);
    var s1 := ServiceDownload(s, t.dl);
    assert ServiceUpload(s1, t.ul) == s1;
    assert ServiceArchive(s1, t.ar) == s1;
    hide ServiceUpload, ServiceArchive;
  }

  function Room(t: Tick): bool {
    t.netRoom && (t.netUp || t.client.Some?)
  }

  /** An iteration with one command is its handler, then what services and flush pass on. */
  lemma OneCommand(s: System, t: Tick, side: Side, cmd: Command, d: System)
    requires Ready(s, side) && Brings(t, side, cmd)
    requires var (r, pending) := Handle(Taken(s, side, cmd), side, cmd, ChoiceOf(t, side));
             d == if pending then r else Consume(r, side)
    requires d.ar.None? && (d.dl.Some? ==> d.dl.value.remaining >= 2)
    requires Src(d, Peer(side)) == Src(s, Peer(side)) && (Src(s, Peer(side)).cmd.Some? ==> Owns(d, Peer(side)))
    ensures var r := Loop(s, t);
            && Becomes(r, Further(d.dl), d.ul, d.patterns, d.card)
            && Untouched(d.net, r.net) && Untouched(d.serial, r.serial)
  {
    hide Handle, Services, FlushSide, Becomes, Untouched;
    var s1 := Taken(s, side, cmd);
    assert Intake(s, t) == s1;
    hide Intake;
    assert Process(s1, side, ChoiceOf(t, side)) == d;
    assert side == Serial ==> Process(s1, Net, t.netChoice) == s1;
    assert side == Net ==> Process(d, Serial, t.serialChoice) == d;
    hide Process;
    ServicesPass(d, t);
  }

  lemma GetTick(s: System, t: Tick, side: Side, idx: u16)
    requires Ready(s, side) && Brings(t, side, GetFile(idx, true)) && GetFileFree(s, idx, true)
    requires FileSize(s.card[s.patterns[idx - 1].name]) >= 2
    ensures var r := Loop(s, t);
            && Becomes(r, Further(Some(OpenFile(s, side, idx))), s.ul, s.patterns, s.card)
            && Ate(Src(s, side), Src(r, side), false) && Untouched(Src(s, Peer(side)), Src(r, Peer(side)))
  {
    hide SendResponse, Loop, FileSize;
    var c := ChoiceOf(t, side);
    var d := Consume(DoGetFile(Taken(s, side, GetFile(idx, true)), side, idx, true, c), side);
    assert d.dl == Some(OpenFile(s, side, idx)) && d.ul == s.ul && d.ar.None?;
    OneCommand(s, t, side, GetFile(idx, true), d);
  }

  lemma PutTick(s: System, t: Tick, side: Side, idx: u16, len: u32)
    requires Ready(s, side) && len > 0 && PutFileFree(s, idx) && Brings(t, side, PutFile(idx, len))
    ensures var name, r := FileOf(s.patterns, idx), Loop(s, t);
            && Becomes(r, Further(s.dl), Some(Upload(side, idx, name, len, len, false, 0, Some([]), Src(s, side).pos + 1)),
                       s.patterns, s.card[name := []])
            && Ate(Src(s, side), Src(r, side), true) && Untouched(Src(s, Peer(side)), Src(r, Peer(side)))
  {
    hide Loop;
    var d := DoPutFile(Taken(s, side, PutFile(idx, len)), side, idx, len, ChoiceOf(t, side)).0;
    assert d.ar.None? && d.dl == s.dl;
    OneCommand(s, t, side, PutFile(idx, len), d);
  }

  lemma DeleteTick(s: System, t: Tick, idx: u16)
    requires Ready(s, Serial) && Brings(t, Serial, Delete(idx, true)) && 1 <= idx <= |s.patterns| && !Busy(s, idx)
    requires !t.serialChoice.removal.NotRemoved?
    ensures var d := if t.serialChoice.removal.Removed? then Corrected(Dropped(s, idx), idx) else Dropped(s, idx);
            var r := Loop(s, t);
            && Becomes(r, Further(d.dl), d.ul, d.patterns, d.card)
            && Ate(s.serial, r.serial, false) && Untouched(s.net, r.net)
  {
    hide Loop, Remove, SendResponse;
    var d := Consume(DoDelete(Taken(s, Serial, Delete(idx, true)), Serial, idx, true, t.serialChoice), Serial);
    assert d.ar.None?;
    assert d.net == s.net && Ate(s.serial, d.serial, false);
    OneCommand(s, t, Serial, Delete(idx, true), d);
  }

  // ----- the runs ---------------------------------------------------------

  lemma ThreeTicks(s: System, t: Tick, u: Tick, v: Tick)
    ensures Run(s, [t, u, v]) == Loop(Loop(Loop(s, t), u), v)
  {
    hide Loop;
    var one, two, three := [t], [t, u], [t, u, v];
    assert three[..|three| - 1] == two && two[..|two| - 1] == one && one[..|one| - 1] == [];
    assert Run(s, []) == s && Run(s, one) == Loop(s, t) && Run(s, two) == Loop(Loop(s, t), u);
  }

  /** Download the second of two patterns, lose the first without its manifest, upload to the first: index 1 is now
      the file being downloaded, and the guards see 1 and 2. The deletion is exactly one that strays. */
  lemma HeldTwice(net: seq<byte>, serial: seq<byte>, a: Pattern, b: Pattern, card: map<Name, seq<byte>>, len: u32,
                  t: Tick, u: Tick, v: Tick)
    requires |net| >= 1 && |serial| >= 2 && a.name != b.name && len > 0
    requires Brings(t, Net, GetFile(2, true)) && b.name in card && FileSize(card[b.name]) >= 6
    requires Brings(u, Serial, Delete(1, true)) && u.serialChoice.removal == RemovedNoManifest
    requires Brings(v, Serial, PutFile(1, len))
    ensures var s0 := Fresh(net, serial, [a, b], card);
            var s2, s := Loop(s0, t), Run(s0, [t, u, v]);
            && Strays(s2, 1, u.serialChoice)
            && s.dl.Some? && s.ul.Some? && s.dl.value.name == s.ul.value.name == b.name
            && s.dl.value.idx == 2 && s.ul.value.idx == 1 && !Exclusive(s)
  {
    var s0 := Fresh(net, serial, [a, b], card);
    ThreeTicks(s0, t, u, v);
    hide Loop, Run;
    GetTick(s0, t, Net, 2);
    var s1 := Loop(s0, t);
    DeleteTick(s1, u, 1);
    var s2 := Loop(s1, u);
    assert s2.patterns == [b];
    PutTick(s2, v, Serial, 1, len);
  }

  /** Upload to the second of two patterns, lose the first without its manifest, delete the first again: that is the
      file being written, and it goes. The upload then finishes with status 0 and leaves nothing on the card. */
  lemma TakenAway(net: seq<byte>, serial: seq<byte>, a: Pattern, b: Pattern, card: map<Name, seq<byte>>, len: u32,
                  t: Tick, u: Tick, v: Tick, io: UploadIo)
    requires |net| >= 1 + len as nat && |serial| >= 2 && a.name != b.name && 0 < len <= CHUNK
    requires Brings(t, Net, PutFile(2, len))
    requires Brings(u, Serial, Delete(1, true)) && u.serialChoice.removal == RemovedNoManifest
    requires Brings(v, Serial, Delete(1, true)) && v.serialChoice.removal == Removed
    requires !io.timedOut && io.arrived >= len as nat && io.wroteAll
    ensures var s := Run(Fresh(net, serial, [a, b], card), [t, u, v]);
            var r := ServiceUpload(s, io);
            && r.ul.None? && Newest(r.net) == Stored(net[1..1 + len as nat], 1, len)
            && b.name !in r.card
  {
    var s0 := Fresh(net, serial, [a, b], card);
    ThreeTicks(s0, t, u, v);
    hide Loop, Run;
    PutTick(s0, t, Net, 2, len);
    var s1 := Loop(s0, t);
    DeleteTick(s1, u, 1);
    var s2 := Loop(s1, u);
    assert s2.patterns == [b];
    DeleteTick(s2, v, 1);
    var s := Loop(s2, v);
    assert b.name !in s.card;
    LastArrival(s, io, len, net);
  }

  lemma LastArrival(s: System, io: UploadIo, len: u32, net: seq<byte>)
    requires s.ul.Some? && s.ul.value == Upload(Net, s.ul.value.idx, s.ul.value.name, len, len, false, 0, Some([]), 1)
    requires s.net.input == net && s.net.pos == 1 && 0 < len <= CHUNK && 1 + len as nat <= |net|
    requires s.ul.value.name !in s.card && !io.timedOut && io.arrived >= len as nat && io.wroteAll
    ensures var r := ServiceUpload(s, io);
            r.ul.None? && Newest(r.net) == Stored(net[1..1 + len as nat], 1, len) && s.ul.value.name !in r.card
  {
    assert Arrivals(s.net, io.arrived, Min(len, CHUNK)) == len as nat;
    hide Arrivals;
    assert [] + net[1..1 + len as nat] == net[1..1 + len as nat];
  }

  /** Give the only pattern the name pattern.temp, download it, upload to index 0: one file again, and no manifest
      write failed. */
  lemma TempTwice(net: seq<byte>, serial: seq<byte>, a: Pattern, card: map<Name, seq<byte>>, len: u32,
                  t: Tick, u: Tick, v: Tick)
    requires |net| >= 1 && |serial| >= 2 && a.name != TEMP && len > 0
    requires Brings(t, Serial, Rename(1, true)) && t.serialChoice.candidate == Some(TEMP)
    requires Brings(u, Net, GetFile(1, true)) && a.name in card && FileSize(card[a.name]) >= 6
    requires Brings(v, Serial, PutFile(0, len))
    ensures var s := Run(Fresh(net, serial, [a], card), [t, u, v]);
            && s.dl.Some? && s.ul.Some? && s.dl.value.name == s.ul.value.name == TEMP
            && s.dl.value.idx == 1 && s.ul.value.idx == 0 && !Exclusive(s)
  {
    var s0 := Fresh(net, serial, [a], card);
    ThreeTicks(s0, t, u, v);
    hide Loop, Run;
    RenameTick(s0, t, a);
    var s1 := Loop(s0, t);
    GetTick(s1, u, Net, 1);
    var s2 := Loop(s1, u);
    PutTick(s2, v, Serial, 0, len);
  }

  lemma RenameTick(s: System, t: Tick, a: Pattern)
    requires Ready(s, Serial) && Quiet(s) && s.net.cmd.None? && s.patterns == [a] && a.name != TEMP
    requires Brings(t, Serial, Rename(1, true)) && t.serialChoice.candidate == Some(TEMP)
    ensures var r := Loop(s, t);
            && Becomes(r, None, None, [Pattern(TEMP, a.origin)], Moved(s.card, a.name, TEMP))
            && Ate(s.serial, r.serial, false) && Untouched(s.net, r.net)
  {
    hide Loop, SendResponse, Moved;
    OnlyRenamed(a);
    hide PatternIndex.Rename, IndexOf;
    var d := Consume(DoRename(Taken(s, Serial, Rename(1, true)), Serial, 1, true, t.serialChoice), Serial);
    OneCommand(s, t, Serial, Rename(1, true), d);
  }

  lemma OnlyRenamed(a: Pattern)
    requires a.name != TEMP
    ensures IndexOf([a], TEMP) == 0 && PatternIndex.Rename([a], 1, TEMP) == [Pattern(TEMP, a.origin)]
  {
    assert Remove([a], 0) == [];
  }
}
