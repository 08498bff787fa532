/** The same-index skip is the reload it saves, in every reachable state; frames are conserved. */
module FrameProofs {
  import opened Bytes
  import opened Panel
  import opened FrameCache
  import opened Frames

  /** While a frame is held, the buffer is what loading it now would leave. */
  predicate BufferCurrent(s: State)
    requires Sized(s)
  {
    s.isFrame && s.open.Some? ==> s.cur < s.frameCount && s.buf == FillFrom(s, s.cur)
  }

  /** While the cache may be reused, the DAC and table position are what loading it now would set. */
  predicate OutputsCurrent(s: State) {
    s.isFrame && s.cacheOk ==> Outputs(s.ao, s.cur, s.frameCount, true) == s.ao
  }

  /** Every successful load was shown, superseded (reported, pending or past saturation), or is held unshown. */
  predicate Accounted(n: Counts, held: bool) {
    && n.pending <= 0xFF
    && n.loads == n.shown + n.reported + n.pending + n.lost + if held then 1 else 0
  }

  predicate Inv(s: State) {
    && Sized(s) && BufferCurrent(s) && OutputsCurrent(s) && Accounted(s.n, Held(s))
    && (s.ao.numbered ==> s.ao.lut == [])
  }

  lemma SupersedeAccounts(n: Counts, held: bool)
    requires Accounted(n, held)
    ensures Accounted(Supersede(n, held), false)
    ensures var u := Supersede(n, held); Accounted(u.(loads := u.loads + 1), true)
  {
  }

  /** Giving up the held frame keeps everything else. */
  lemma GivenUp(s: State, r: State)
    requires Inv(s) && Sized(r) && !r.isFrame && r.n == Supersede(s.n, Held(s)) && r.ao == s.ao
    ensures Inv(r)
  {
    hide Opens, BufferFits;
    SupersedeAccounts(s.n, Held(s));
    hide Supersede, Accounted;
  }

  lemma ReplaceKeeps(s: State, content: Buffer)
    requires Inv(s) && BufferFits(s.panels, content)
    ensures Inv(Replace(s, content)) && Inv(ShowError(s, content)) && Inv(AllOff(s, content))
  {
    GivenUp(s, Replace(s, content));
    GivenUp(s, ShowError(s, content));
    GivenUp(s, AllOff(s, content));
    hide Inv;
  }

  /** A loaded buffer is its own reload. */
  lemma FilledIsCurrent(panels: nat, b: Buffer, body: seq<bv8>, mode: bv8, duty: bv8)
    requires BufferFits(panels, b) && 4 <= |body| <= 4 + Span(panels, GS16)
    ensures Filled(panels, Filled(panels, b, body, mode, duty), body, mode, duty) == Filled(panels, b, body, mode, duty)
  {
    SpanGrows(panels, b.blk, GS16);
    LoadedTwice(b.rest, body[4..], b.blk, panels, mode, EffDuty(b.blk, duty));
    hide Loaded;
  }

  lemma LoadedTwice(rest: seq<bv8>, body: seq<bv8>, blk: nat, n: nat, mode: bv8, duty: bv8)
    requires blk >= 3 && Span(n, blk) <= |rest| && |body| <= |rest|
    ensures var held := Loaded(rest, body, blk, n, mode, duty); Loaded(held, body, blk, n, mode, duty) == held
  {
    ReloadIsPatch(rest, body, blk, n, mode, mode, duty);
    ModesAgain(Over(rest, body), blk, n, mode, mode, duty);
    hide Modes, PatchAll, Over;
  }

  /** After a change of display mode, too. */
  lemma ModedIsCurrent(panels: nat, b: Buffer, body: seq<bv8>, mode: bv8, again: bv8, duty: bv8)
    requires BufferFits(panels, b) && 4 <= |body| <= 4 + Span(panels, GS16)
    requires b == Filled(panels, b, body, mode, duty)
    ensures Span(panels, b.blk) <= |b.rest|
    ensures var m := b.(rest := Modes(b.rest, b.blk, panels, again)); Filled(panels, m, body, again, duty) == m
  {
    SpanGrows(panels, b.blk, GS16);
    ReloadIsPatch(b.rest, body[4..], b.blk, panels, mode, again, EffDuty(b.blk, duty));
    hide Loaded, Modes;
  }

  // ----- every writer keeps the invariant ---------------------------------

  /** What a load needs of the state it starts from; it gives up whatever was held. */
  predicate Loadable(s: State) {
    Sized(s) && Accounted(s.n, Held(s)) && (s.ao.numbered ==> s.ao.lut == [])
  }

  lemma LoadFailKeeps(s: State, content: Buffer)
    requires Loadable(s) && BufferFits(s.panels, content)
    ensures Inv(ShowError(s.(isFrame := false, n := Supersede(s.n, Held(s))), content))
  {
    hide Opens, Supersede, Accounted;
    SupersedeAccounts(s.n, Held(s));
    var n := Supersede(s.n, Held(s));
    NothingHeld(n);
  }

  lemma LoadGoodKeeps(s: State, dacOk: bool)
    requires Sized(s) && s.open.Some? && s.cur < s.frameCount && (s.ao.numbered ==> s.ao.lut == [])
    requires Accounted(s.n.(loads := s.n.loads + 1), true)
    ensures Inv(LoadGood(s, s.cur, dacOk))
  {
    SpanGrows(s.panels, s.open.value.blockSize, GS16);
    FilledIsCurrent(s.panels, s.buf, Body(s, s.cur), s.mode, s.duty);
    hide Opens, Filled, BufferFits, Accounted;
  }

  lemma LoadOkKeeps(s: State, io: Io, content: Buffer)
    requires Loadable(s) && io.readOk && s.open.Some? && s.cur < s.frameCount
    ensures Inv(Load(s, s.cur, io, content))
  {
    hide Opens, BufferFits, Accounted, Supersede, LoadGood, Inv;
    SupersedeAccounts(s.n, Held(s));
    LoadGoodKeeps(s.(isFrame := false, n := Supersede(s.n, Held(s))), io.dacOk);
  }

  lemma LoadKeeps(s: State, io: Io, content: Buffer)
    requires Loadable(s) && BufferFits(s.panels, content)
    ensures Inv(Load(s, s.cur, io, content))
  {
    hide Inv, ShowError, FillFrom, Opens, Outputs, Accounted;
    if io.readOk && s.open.Some? && s.cur < s.frameCount {
      LoadOkKeeps(s, io, content);
    } else {
      LoadFailKeeps(s, content);
    }
  }

  lemma PanelModeCurrent(s: State, mode: bv8)
    requires Sized(s) && BufferCurrent(s)
    ensures Sized(PanelMode(s, mode)) && BufferCurrent(PanelMode(s, mode))
  {
    if s.isFrame && s.open.Some? {
      SpanGrows(s.panels, s.open.value.blockSize, GS16);
      ModedIsCurrent(s.panels, s.buf, Body(s, s.cur), s.mode, mode, s.duty);
    }
    hide Opens, Filled, Modes, Span;
  }

  lemma PanelModeKeeps(s: State, mode: bv8)
    requires Inv(s)
    ensures Inv(PanelMode(s, mode))
  {
    PanelModeCurrent(s, mode);
    hide Sized, BufferCurrent, Modes, Accounted;
  }

  /** Analog events leave the buffer alone; all but playback steps give up reuse. */
  lemma AnalogKeeps(s: State, r: State)
    requires Inv(s) && r == s.(ao := r.ao, cacheOk := r.cacheOk)
    requires r.cacheOk ==> s.cacheOk && Output(r.ao, s.cur, s.frameCount).None?
    requires r.ao.numbered ==> r.ao.lut == []
    ensures Inv(r)
  {
    hide Opens, Filled, Accounted;
  }

  lemma StepKeeps(s: State, m: Moment)
    requires Inv(s) && Allowed(s.panels, m)
    ensures Inv(Step(s, m))
  {
    hide Inv, Load, Replace, AllOff, SetPosition, StartTrial, FailTrial, PanelMode, Voltage, AoMode, SetLut, LutTick,
         SkipSwitch, Refresh, Opens, BufferFits;
    match m.e
    case EvPosition(index, gate, io) => PositionKeeps(s, index, gate, io, m.content);
    case EvAdvance(index, io) => LoadableAt(s, index); LoadKeeps(s.(cur := index), io, m.content);
    case EvStart(p, init, duty, io, armOk) => StartKeeps(s, p, init, duty, io, armOk, m.content);
    case EvFail(closes) => FailKeeps(s, closes, m.content);
    case EvReplace => ReplaceKeeps(s, m.content);
    case EvAllOff => ReplaceKeeps(s, m.content);
    case EvMode(mode) => PanelModeKeeps(s, mode);
    case EvVoltage(mv, ok) => VoltageKeeps(s, mv, ok);
    case EvAoMode(numbered, ok) => AoModeKeeps(s, numbered, ok);
    case EvLut(table, timed, accepted, ok) => SetLutKeeps(s, table, timed, accepted, ok);
    case EvLutTick(ok) => LutTickKeeps(s, ok);
    case EvSkip(on) => QuietKeeps(s, on);
    case EvRefresh(changed) => RefreshKeeps(s, changed);
    case EvClose => ClosedKeeps(s);
  }

  lemma AoModeKeeps(s: State, numbered: bool, ok: bool)
    requires Inv(s)
    ensures Inv(AoMode(s, numbered, ok))
  {
    AnalogKeeps(s, AoMode(s, numbered, ok));
    hide Inv;
  }

  lemma SetLutKeeps(s: State, table: seq<nat>, timed: bool, accepted: bool, ok: bool)
    requires Inv(s)
    ensures Inv(SetLut(s, table, timed, accepted, ok))
  {
    AnalogKeeps(s, SetLut(s, table, timed, accepted, ok));
    hide Inv;
  }

  lemma LutTickKeeps(s: State, ok: bool)
    requires Inv(s)
    ensures Inv(LutTick(s, ok))
  {
    if s.ao.lut != [] && s.ao.timed {
      AnalogKeeps(s, LutTick(s, ok));
    }
    hide Inv;
  }

  lemma LoadableAt(s: State, index: nat)
    requires Inv(s)
    ensures Loadable(s.(cur := index))
  {
    hide Opens, Accounted;
  }

  lemma PositionKeeps(s: State, index: nat, gate: bool, io: Io, content: Buffer)
    requires Inv(s) && BufferFits(s.panels, content)
    ensures Inv(SetPosition(s, index, gate, io, content))
  {
    ReplaceKeeps(s, content);
    LoadableAt(s, index);
    LoadKeeps(s.(cur := index), io, content);
    hide Inv, Load, ShowError, Loadable;
  }

  lemma VoltageKeeps(s: State, mv: nat, ok: bool)
    requires Inv(s)
    ensures Inv(Voltage(s, mv, ok))
  {
    if !(s.ao.numbered || mv > 5000 || !ok) {
      AnalogKeeps(s, Voltage(s, mv, ok));
    }
    hide Inv;
  }

  lemma StartKeeps(s: State, p: Pattern, init: nat, duty: bv8, io: Io, armOk: bool, content: Buffer)
    requires Inv(s) && Opens(s.panels, p) && BufferFits(s.panels, content)
    ensures Inv(StartTrial(s, p, init, duty, io, armOk, content))
  {
    OpenedSized(s, p, init);
    SupersedeAccounts(s.n, Held(s));
    var q := Opened(s, p, init).(duty := duty);
    assert Loadable(q);
    LoadKeeps(q, io, content);
    var r := Load(q, q.cur, io, content);
    ReplaceKeeps(r, content);
    if !io.readOk {
      GlyphKeeps(r, 0);
    }
    hide Inv, Load, AllOff;
  }

  /** With no frame held, the duty may change. */
  lemma GlyphKeeps(r: State, duty: bv8)
    requires Inv(r) && !r.isFrame
    ensures Inv(r.(duty := duty))
  {
    hide Opens, BufferFits, Accounted;
  }

  lemma FailKeeps(s: State, closes: bool, content: Buffer)
    requires Inv(s) && BufferFits(s.panels, content)
    ensures Inv(FailTrial(s, closes, content))
  {
    hide Opens;
    SupersedeAccounts(s.n, Held(s));
    hide Supersede, Accounted;
    var q := Invalidate(s).(open := if closes then None else s.open, duty := 0);
    assert Inv(q);
    NothingHeld(q.n);
    GivenUp(q, ShowError(q, content));
  }

  lemma NothingHeld(n: Counts)
    ensures Supersede(n, false) == n
  {
  }

  lemma QuietKeeps(s: State, on: bool)
    requires Inv(s)
    ensures Inv(SkipSwitch(s, on))
  {
    hide Opens, Filled, Accounted;
  }

  lemma RefreshKeeps(s: State, changed: bool)
    requires Inv(s)
    ensures Inv(Refresh(s, changed))
  {
    hide Opens, Filled;
  }

  lemma ClosedKeeps(s: State)
    requires Inv(s)
    ensures Inv(s.(open := None))
  {
    hide Accounted;
  }

  // ----- runs and theorems ------------------------------------------------

  predicate Reaches(s: State, ms: seq<Moment>, r: State)
    decreases |ms|
  {
    if ms == [] then s == r
    else Sized(s) && Allowed(s.panels, ms[0]) && Reaches(Step(s, ms[0]), ms[1..], r)
  }

  /** Power-up: nothing loaded, the buffer counted as presented. */
  predicate Boot(s: State) {
    && Sized(s) && !s.isFrame && s.n == Counts(0, 0, 0, 0, 0) && !s.ao.numbered && s.open.None?
  }

  lemma {:induction false} RunKeeps(s: State, ms: seq<Moment>, r: State)
    requires Inv(s) && Reaches(s, ms, r)
    ensures Inv(r)
    decreases |ms|
  {
    hide Inv, Step;
    if ms != [] {
      StepKeeps(s, ms[0]);
      RunKeeps(Step(s, ms[0]), ms[1..], r);
    }
  }

  /** Whenever 0x70 answers without reading, buffer, outputs and cache flags are exactly what loading the frame
      would produce. */
  lemma SkipIsReload(boot: State, ms: seq<Moment>, s: State, index: nat, gate: bool, content: Buffer)
    requires Boot(boot) && Reaches(boot, ms, s)
    requires s.open.Some? && Skips(s, index, gate)
    ensures Inv(s) && index < s.frameCount
    ensures var r := Load(s.(cur := index), index, Io(true, true), content);
            r.buf == s.buf && r.ao == s.ao && r.isFrame == s.isFrame && r.cacheOk == s.cacheOk && r.cur == s.cur
    ensures SetPosition(s, index, gate, Io(true, true), content) == s
  {
    BootInv(boot);
    RunKeeps(boot, ms, s);
    hide Reaches, Opens, FillFrom, Accounted, Outputs;
  }

  lemma BootInv(s: State)
    requires Boot(s)
    ensures Inv(s)
  {
  }

  /** Frames are conserved over every run. */
  lemma FramesConserved(boot: State, ms: seq<Moment>, s: State)
    requires Boot(boot) && Reaches(boot, ms, s)
    ensures s.n.loads == s.n.shown + s.n.reported + s.n.pending + s.n.lost + if Held(s) then 1 else 0
  {
    BootInv(boot);
    RunKeeps(boot, ms, s);
    hide Reaches, Sized, BufferCurrent, OutputsCurrent;
  }

  /** Every block of a held frame passes the panels' parity check, at the block size in force. */
  lemma HeldFrameValidates(boot: State, ms: seq<Moment>, s: State)
    requires Boot(boot) && Reaches(boot, ms, s) && s.isFrame && s.open.Some?
    ensures Span(s.panels, s.buf.blk) <= |s.buf.rest| && AllValid(s.buf.rest, s.buf.blk, s.panels)
  {
    BootInv(boot);
    RunKeeps(boot, ms, s);
    SpanGrows(s.panels, s.buf.blk, GS16);
    SpanGrows(s.panels, s.open.value.blockSize, GS16);
    var body := Body(s, s.cur);
    hide Reaches, PatchAll, AllValid, Accounted, Opens;
    PatchAllValid(Over(s.buf.rest, body[4..]), s.buf.blk, s.panels, s.mode, EffDuty(s.buf.blk, s.duty));
  }

  // ----- what the panels are sent -----------------------------------------

  /** The blocks a transfer sends. */
  function Sent(s: State): seq<bv8>
    requires Sized(s)
  {
    SpanGrows(s.panels, s.buf.blk, GS16);
    s.buf.rest[..Span(s.panels, s.buf.blk)]
  }

  lemma {:induction false} PatchAllTail(x: seq<bv8>, y: seq<bv8>, blk: nat, n: nat, mode: bv8, duty: bv8)
    requires blk >= 3 && Span(n, blk) == |x|
    ensures PatchAll(x + y, blk, n, mode, duty) == PatchAll(x, blk, n, mode, duty) + y
    decreases n
  {
    if n == 0 {
      assert x + y == y;
    } else {
      hide PatchAll, Patched;
      var top, rest := x[..blk], x[blk..];
      JoinCut(x, y, blk);
      PatchAllTail(rest, y, blk, n - 1, mode, duty);
      PatchAllUnroll(x, blk, n, mode, duty);
      PatchAllUnroll(x + y, blk, n, mode, duty);
      JoinAssoc(Patched(top, mode, duty), PatchAll(rest, blk, n - 1, mode, duty), y);
    }
  }

  lemma JoinCut(x: seq<bv8>, y: seq<bv8>, k: nat)
    requires k <= |x|
    ensures (x + y)[..k] == x[..k] && (x + y)[k..] == x[k..] + y
  {
  }

  lemma PatchAllPrefix(r: seq<bv8>, blk: nat, n: nat, mode: bv8, duty: bv8)
    requires blk >= 3 && Span(n, blk) <= |r|
    ensures PatchAll(r, blk, n, mode, duty)[..Span(n, blk)] == PatchAll(r[..Span(n, blk)], blk, n, mode, duty)
  {
    hide PatchAll;
    var k := Span(n, blk);
    assert r == r[..k] + r[k..];
    PatchAllTail(r[..k], r[k..], blk, n, mode, duty);
  }

  /** When the block size in force is the pattern's, the panels get the file's own blocks, patched, and nothing that
      was in the buffer before. */
  lemma HeldFrameIsTheFile(boot: State, ms: seq<Moment>, s: State)
    requires Boot(boot) && Reaches(boot, ms, s) && s.isFrame && s.open.Some?
    requires s.buf.blk == s.open.value.blockSize
    ensures Inv(s) && s.cur < s.frameCount && s.buf.head == Body(s, s.cur)[..4]
    ensures Sent(s) == PatchAll(Body(s, s.cur)[4..], s.buf.blk, s.panels, s.mode, EffDuty(s.buf.blk, s.duty))
  {
    BootInv(boot);
    RunKeeps(boot, ms, s);
    SpanGrows(s.panels, s.buf.blk, GS16);
    var body := Body(s, s.cur)[4..];
    var w := Over(s.buf.rest, body);
    hide Reaches, PatchAll, Accounted, Opens;
    PatchAllPrefix(w, s.buf.blk, s.panels, s.mode, EffDuty(s.buf.blk, s.duty));
    assert w[..|body|] == body;
  }

  /** A load by 0x70 uses the block size in force: it is the pattern's afterwards exactly when it was before. */
  lemma PositionGeometry(s: State, index: nat, gate: bool, dacOk: bool, content: Buffer)
    requires Inv(s) && s.open.Some? && index < s.frameCount
    ensures var r := SetPosition(s, index, gate, Io(true, dacOk), content);
            && r.isFrame && r.open == s.open
            && (r.buf.blk == r.open.value.blockSize <==> s.buf.blk == s.open.value.blockSize)
  {
    hide Opens, Filled, Accounted;
  }

  /** Stopping the display of a 16-level pattern and then asking for one of its frames sends the panels blocks of the
      2-level size. */
  lemma StopThenPosition(s: State, index: nat, gate: bool, dark: Buffer, content: Buffer)
    requires Inv(s) && s.open.Some? && s.open.value.blockSize == GS16 && index < s.frameCount
    requires BufferFits(s.panels, dark)
    ensures var stopped := AllOff(s, dark);
            && Inv(stopped)
            && var r := SetPosition(stopped, index, gate, Io(true, true), content);
               Sized(r) && r.isFrame && |Sent(r)| == Span(s.panels, GS2) < Span(s.panels, r.open.value.blockSize)
  {
    ReplaceKeeps(s, dark);
    var stopped := AllOff(s, dark);
    PositionGeometry(stopped, index, gate, true, content);
    SpanLess(s.panels);
    hide Opens, Accounted, Filled;
  }

  /** From power-up: a trial on a 16-level pattern starts, the display is stopped, one of its frames is asked for. The
      panels are sent blocks of the 2-level size. */
  lemma StopLosesGeometry(boot: State, start: Moment, stop: Moment, ask: Moment) returns (r: State)
    requires Boot(boot)
    requires Allowed(boot.panels, start) && Allowed(boot.panels, stop) && Allowed(boot.panels, ask)
    requires start.e.EvStart? && start.e.p.blockSize == GS16 && start.e.io.readOk && start.e.armOk
    requires stop.e.EvAllOff?
    requires ask.e.EvPosition? && ask.e.index < |start.e.p.frames| && ask.e.io == Io(true, true)
    ensures Reaches(boot, [start, stop, ask], r)
    ensures Sized(r) && r.isFrame && r.open == Some(start.e.p)
    ensures |Sent(r)| == Span(boot.panels, GS2) < Span(boot.panels, GS16)
  {
    hide Boot, Inv, Step, SetPosition, AllOff, Sent, Reaches, Opens, Span;
    BootInv(boot);
    StepKeeps(boot, start);
    var s := Step(boot, start);
    Started(boot, start);
    StepSized(s);
    StepIsStop(s, stop);
    StepKeeps(s, stop);
    StepIsAsk(AllOff(s, stop.content), ask);
    StopThenPosition(s, ask.e.index, ask.e.gate, stop.content, ask.content);
    r := Step(Step(s, stop), ask);
    ThreeMoments(boot, start, stop, ask);
    StopKeepsOpen(s, ask.e.index, ask.e.gate, stop.content, ask.content);
  }

  lemma StepSized(s: State)
    requires Inv(s)
    ensures Sized(s)
  {
    hide Sized;
  }

  lemma StepIsStop(s: State, stop: Moment)
    requires Sized(s) && Allowed(s.panels, stop) && stop.e.EvAllOff?
    ensures Step(s, stop) == AllOff(s, stop.content) && AllOff(s, stop.content).panels == s.panels
  {
    hide Sized, Supersede;
  }

  lemma StepIsAsk(s: State, ask: Moment)
    requires Inv(s) && Allowed(s.panels, ask) && ask.e.EvPosition?
    ensures Sized(s) && Step(s, ask) == SetPosition(s, ask.e.index, ask.e.gate, ask.e.io, ask.content)
  {
    hide Sized, SetPosition;
  }

  lemma Started(s: State, start: Moment)
    requires Inv(s) && Allowed(s.panels, start) && start.e.EvStart? && start.e.io.readOk && start.e.armOk
    ensures var r := Step(s, start);
            r.open == Some(start.e.p) && r.frameCount == |start.e.p.frames| && r.panels == s.panels
  {
    OpenedSized(s, start.e.p, start.e.init);
    hide Inv, Opens, FillFrom, Supersede, Outputs, Output;
  }

  lemma StopKeepsOpen(s: State, index: nat, gate: bool, dark: Buffer, content: Buffer)
    requires Inv(s) && s.open.Some? && index < s.frameCount && BufferFits(s.panels, dark)
    ensures Sized(AllOff(s, dark)) && SetPosition(AllOff(s, dark), index, gate, Io(true, true), content).open == s.open
  {
    hide Opens, FillFrom, Supersede, Outputs, Output, BufferCurrent, OutputsCurrent, Accounted;
  }

  lemma ThreeMoments(s: State, a: Moment, b: Moment, c: Moment)
    requires Sized(s) && Allowed(s.panels, a)
    requires Sized(Step(s, a)) && Allowed(Step(s, a).panels, b)
    requires Sized(Step(Step(s, a), b)) && Allowed(Step(Step(s, a), b).panels, c)
    ensures Reaches(s, [a, b, c], Step(Step(Step(s, a), b), c))
  {
    hide Step, Sized, Allowed;
    var r := Step(Step(Step(s, a), b), c);
    assert [a, b, c][1..] == [b, c] && [b, c][1..] == [c] && [c][1..] == [];
    assert Reaches(Step(Step(s, a), b), [c], r);
    assert Reaches(Step(s, a), [b, c], r);
  }

  lemma {:induction false} SpanLess(n: nat)
    ensures Span(n, GS2) + 150 * n == Span(n, GS16)
  {
    if n > 0 {
      SpanLess(n - 1);
    }
  }
}
