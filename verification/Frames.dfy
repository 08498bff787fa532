/** Every writer of the frame buffer, and the same-index skip beside the load it stands for. */
module Frames {
  import opened Bytes
  import opened Panel
  import opened FrameCache

  /** An open pattern: its block size and each frame's body, four prefix bytes first. */
  datatype Pattern = Pattern(blockSize: nat, frames: seq<seq<bv8>>)

  /** frame_buf_ past and up to its four-byte prefix, the block size in force, and whether any block is in it. */
  datatype Buffer = Buffer(head: seq<bv8>, rest: seq<bv8>, blk: nat, live: bool)

  /** Analog output: frame-number mode, the table, its playback, and the level last written. */
  datatype Analog = Analog(numbered: bool, lut: seq<nat>, timed: bool, lutIdx: nat, dac: nat)

  /** superseded_pending_, and since boot: successful loads, those presented at least once, superseded frames handed
      to telemetry, and those a full counter could not take. */
  datatype Counts = Counts(pending: nat, loads: nat, shown: nat, reported: nat, lost: nat)

  datatype State = State(
    panels: nat, buf: Buffer, isFrame: bool, cacheOk: bool, skip: bool, presented: bool,
    cur: nat, frameCount: nat, open: Option<Pattern>, mode: bv8, duty: bv8, ao: Analog, n: Counts)

  /** What a load meets: whether the read passes its checks, whether the DAC answers. */
  datatype Io = Io(readOk: bool, dacOk: bool)

  /** The duty override reaches v1 block sizes only. */
  function EffDuty(blk: nat, duty: bv8): bv8 {
    if blk == GS2 || blk == GS16 then duty else 0
  }

  /** A pattern this arena can show. */
  predicate Opens(panels: nat, p: Pattern) {
    && 4 <= p.blockSize <= GS16 && |p.frames| > 0
    && forall f :: f in p.frames ==> |f| == 4 + Span(panels, p.blockSize)
  }

  predicate BufferFits(panels: nat, b: Buffer) {
    panels > 0 && |b.head| == 4 && |b.rest| == Span(panels, GS16) && 4 <= b.blk <= GS16
  }

  predicate Sized(s: State) {
    && BufferFits(s.panels, s.buf)
    && (s.open.Some? ==> Opens(s.panels, s.open.value) && s.frameCount == |s.open.value.frames|)
  }

  lemma {:induction false} SpanGrows(n: nat, a: nat, b: nat)
    requires a <= b
    ensures Span(n, a) <= Span(n, b)
  {
    if n > 0 {
      SpanGrows(n - 1, a, b);
    }
  }

  // ----- accounting -------------------------------------------------------

  predicate Held(s: State) {
    s.isFrame && !s.presented
  }

  /** A held frame about to be replaced counts as superseded; the counter saturates. */
  function Supersede(n: Counts, held: bool): Counts {
    if !held then n
    else if n.pending < 0xFF then n.(pending := n.pending + 1)
    else n.(lost := n.lost + 1)
  }

  function Invalidate(s: State): State {
    s.(isFrame := false, cacheOk := false, presented := false, n := Supersede(s.n, Held(s)))
  }

  function DropFrameCache(s: State): State {
    s.(cacheOk := false)
  }

  // ----- writers ----------------------------------------------------------

  /** All-on, streamed, PSRAM and glyph frames; `content` is what the writer leaves. */
  function Replace(s: State, content: Buffer): State {
    Invalidate(s).(buf := content.(live := true))
  }

  function ShowError(s: State, content: Buffer): State {
    Replace(s, content.(blk := GS16))
  }

  function AllOff(s: State, content: Buffer): State {
    Invalidate(s).(buf := content.(live := false, blk := GS2), duty := 0)
  }

  /** The level a load derives for a frame: frame position, frame-locked table, or none. */
  function Output(a: Analog, i: nat, count: nat): Option<nat> {
    if a.numbered then Some(if count > 1 then i * 5000 / (count - 1) else 0)
    else if a.lut != [] && !a.timed then Some(a.lut[i % |a.lut|])
    else None
  }

  function OutputIdx(a: Analog, i: nat): nat {
    if !a.numbered && a.lut != [] && !a.timed then i % |a.lut| else a.lutIdx
  }

  function Outputs(a: Analog, i: nat, count: nat, dacOk: bool): Analog {
    var level := Output(a, i, count);
    a.(dac := if level.Some? && dacOk then level.value else a.dac, lutIdx := OutputIdx(a, i))
  }

  function Body(s: State, i: nat): (b: seq<bv8>)
    requires Sized(s) && s.open.Some? && i < s.frameCount
    ensures |b| == 4 + Span(s.panels, s.open.value.blockSize)
  {
    s.open.value.frames[i]
  }

  /** The body is read over the buffer, then display mode and duty are patched in. */
  function Filled(panels: nat, b: Buffer, body: seq<bv8>, mode: bv8, duty: bv8): (r: Buffer)
    requires BufferFits(panels, b) && 4 <= |body| <= 4 + Span(panels, GS16)
    ensures BufferFits(panels, r) && r.blk == b.blk && r.live
  {
    SpanGrows(panels, b.blk, GS16);
    Buffer(body[..4], Loaded(b.rest, body[4..], b.blk, panels, mode, EffDuty(b.blk, duty)), b.blk, true)
  }

  function FillFrom(s: State, i: nat): (r: Buffer)
    requires Sized(s) && s.open.Some? && i < s.frameCount
    ensures BufferFits(s.panels, r) && r.blk == s.buf.blk && r.live
  {
    SpanGrows(s.panels, s.open.value.blockSize, GS16);
    Filled(s.panels, s.buf, Body(s, i), s.mode, s.duty)
  }

  /** A load whose read passed. */
  function LoadGood(s: State, i: nat, dacOk: bool): State
    requires Sized(s) && s.open.Some? && i < s.frameCount
  {
    s.(buf := FillFrom(s, i), isFrame := true, presented := false, n := s.n.(loads := s.n.loads + 1),
       ao := Outputs(s.ao, i, s.frameCount, dacOk), cacheOk := Output(s.ao, i, s.frameCount).None? || dacOk)
  }

  /** loadFrame: a closed file or a failed read ends in the error glyph. */
  function Load(s: State, i: nat, io: Io, content: Buffer): State
    requires Sized(s)
  {
    var given := s.(isFrame := false, n := Supersede(s.n, Held(s)));
    if !io.readOk || s.open.None? || i >= s.frameCount then ShowError(given, content) else LoadGood(given, i, io.dacOk)
  }

  /** The 0x70 no-read path; `gate` stands for SHOW_FRAME with the refresh timer running at the current rate. */
  predicate Skips(s: State, index: nat, gate: bool) {
    s.skip && gate && s.isFrame && s.cacheOk && index == s.cur
  }

  function SetPosition(s: State, index: nat, gate: bool, io: Io, content: Buffer): State
    requires Sized(s)
  {
    if s.open.None? || index >= s.frameCount then ShowError(s, content)
    else if Skips(s, index, gate) then s
    else Load(s.(cur := index), index, io, content)
  }

  /** Open-loop and closed-loop playback: a new index, then a load. */
  function Advance(s: State, index: nat, io: Io, content: Buffer): State
    requires Sized(s)
  {
    Load(s.(cur := index), index, io, content)
  }

  /** enterPatternMode up to the load: buffer given up, pattern open, its geometry in force. */
  function Opened(s: State, p: Pattern, init: nat): State
    requires |p.frames| > 0
  {
    Invalidate(s).(open := Some(p), frameCount := |p.frames|, buf := s.buf.(blk := p.blockSize),
                   cur := init % |p.frames|)
  }

  lemma OpenedSized(s: State, p: Pattern, init: nat)
    requires Sized(s) && Opens(s.panels, p)
    ensures Sized(Opened(s, p, init))
  {
    hide Span, Supersede;
  }

  /** Trial start: the duty is set before the first load; a trial that fails to start leaves none behind. */
  function StartTrial(s: State, p: Pattern, init: nat, duty: bv8, io: Io, armOk: bool, content: Buffer): State
    requires Sized(s) && Opens(s.panels, p)
  {
    OpenedSized(s, p, init);
    var r := Load(Opened(s, p, init).(duty := duty), init % |p.frames|, io, content);
    if !io.readOk then r.(duty := 0) else if !armOk then AllOff(r, content) else r
  }

  /** The pattern did not open; a bad index leaves the old one open. */
  function FailTrial(s: State, closes: bool, content: Buffer): State {
    ShowError(Invalidate(s).(open := if closes then None else s.open, duty := 0), content)
  }

  function PanelMode(s: State, mode: bv8): State
    requires Sized(s)
  {
    SpanGrows(s.panels, s.buf.blk, GS16);
    s.(mode := mode,
       buf := if s.buf.live then s.buf.(rest := Modes(s.buf.rest, s.buf.blk, s.panels, mode)) else s.buf)
  }

  /** Programmable levels stop table playback. */
  function Voltage(s: State, mv: nat, ok: bool): State {
    if s.ao.numbered || mv > 5000 || !ok then s else s.(ao := s.ao.(dac := mv, lut := []))
  }

  function AoMode(s: State, numbered: bool, ok: bool): State {
    var level := if s.frameCount > 1 then s.cur * 5000 / (s.frameCount - 1) else 0;
    DropFrameCache(s).(
      ao := if !numbered then s.ao.(numbered := false)
            else s.ao.(numbered := true, lut := [], dac := if ok && s.frameCount > 0 then level else s.ao.dac))
  }

  /** A refused table may still have overwritten entries of the one in use. */
  function SetLut(s: State, table: seq<nat>, timed: bool, accepted: bool, ok: bool): State {
    DropFrameCache(s).(
      ao := if s.ao.numbered then s.ao
            else if !accepted then s.ao.(lut := if |table| == |s.ao.lut| then table else s.ao.lut)
            else if table == [] || !ok then s.ao.(lut := [], timed := timed, lutIdx := 0)
            else s.ao.(lut := table, timed := timed, lutIdx := 0, dac := table[0]))
  }

  function LutTick(s: State, ok: bool): State {
    if s.ao.lut == [] || !s.ao.timed then s
    else
      var i := (s.ao.lutIdx + 1) % |s.ao.lut|;
      s.(ao := s.ao.(lutIdx := i, dac := if ok then s.ao.lut[i] else s.ao.dac))
  }

  function SkipSwitch(s: State, on: bool): State {
    s.(skip := on, cacheOk := s.cacheOk && on)
  }

  /** transmitOnRefresh: the buffer reaches the panels; a changed frame reports what was superseded. */
  function Refresh(s: State, changed: bool): State {
    var n := s.n.(shown := s.n.shown + if Held(s) then 1 else 0);
    s.(presented := true, n := if changed then n.(reported := n.reported + n.pending, pending := 0) else n)
  }

  // ----- runs -------------------------------------------------------------

  datatype Event =
    | EvPosition(index: nat, gate: bool, io: Io)
    | EvAdvance(index: nat, io: Io)
    | EvStart(p: Pattern, init: nat, duty: bv8, io: Io, armOk: bool)
    | EvFail(closes: bool)
    | EvReplace
    | EvAllOff
    | EvMode(mode: bv8)
    | EvVoltage(mv: nat, ok: bool)
    | EvAoMode(numbered: bool, ok: bool)
    | EvLut(table: seq<nat>, timed: bool, accepted: bool, ok: bool)
    | EvLutTick(ok: bool)
    | EvSkip(on: bool)
    | EvRefresh(changed: bool)
    | EvClose

  /** `content` is what a glyph, all-on, dark, streamed or PSRAM writer would leave. */
  datatype Moment = Moment(e: Event, content: Buffer)

  predicate Allowed(panels: nat, m: Moment) {
    BufferFits(panels, m.content) && (m.e.EvStart? ==> Opens(panels, m.e.p))
  }

  function Step(s: State, m: Moment): State
    requires Sized(s) && Allowed(s.panels, m)
  {
    match m.e
    case EvPosition(index, gate, io) => SetPosition(s, index, gate, io, m.content)
    case EvAdvance(index, io) => Advance(s, index, io, m.content)
    case EvStart(p, init, duty, io, armOk) => StartTrial(s, p, init, duty, io, armOk, m.content)
    case EvFail(closes) => FailTrial(s, closes, m.content)
    case EvReplace => Replace(s, m.content)
    case EvAllOff => AllOff(s, m.content)
    case EvMode(mode) => PanelMode(s, mode)
    case EvVoltage(mv, ok) => Voltage(s, mv, ok)
    case EvAoMode(numbered, ok) => AoMode(s, numbered, ok)
    case EvLut(table, timed, accepted, ok) => SetLut(s, table, timed, accepted, ok)
    case EvLutTick(ok) => LutTick(s, ok)
    case EvSkip(on) => SkipSwitch(s, on)
    case EvRefresh(changed) => Refresh(s, changed)
    case EvClose => s.(open := None)
  }
}
