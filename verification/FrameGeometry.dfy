/** Whose block size is in force: the open pattern's, or that of the last writer since it opened. */
module FrameGeometry {
  import opened Bytes
  import opened Panel
  import opened FrameCache
  import opened Frames
  import opened FrameProofs

  /** The event ends in the error glyph. */
  predicate ShowsGlyph(s: State, m: Moment) {
    match m.e
    case EvPosition(index, gate, io) => s.open.None? || index >= s.frameCount || (!Skips(s, index, gate) && !io.readOk)
    case EvAdvance(index, io) => !io.readOk || s.open.None? || index >= s.frameCount
    case EvStart(_, _, _, io, _) => !io.readOk
    case EvFail(_) => true
    case _ => false
  }

  /** The block size an event puts in force, if any: stop and the glyph, all-on, streamed and PSRAM frames, and a trial
      that starts. Loads, patches, analog events and transfers leave it alone. */
  function Sets(s: State, m: Moment): Option<nat> {
    if ShowsGlyph(s, m) then Some(GS16)
    else
      match m.e
      case EvStart(p, _, _, _, armOk) => Some(if armOk then p.blockSize else GS2)
      case EvReplace => Some(m.content.blk)
      case EvAllOff => Some(GS2)
      case _ => None
  }

  lemma LoadSets(s: State, i: nat, io: Io, content: Buffer)
    requires Sized(s)
    ensures var r := Load(s, i, io, content);
            r.open == s.open && r.buf.blk == if !io.readOk || s.open.None? || i >= s.frameCount then GS16 else s.buf.blk
  {
    hide Sized, Filled, Supersede, Outputs, Output;
  }

  lemma PositionSets(s: State, index: nat, gate: bool, io: Io, content: Buffer)
    requires Sized(s)
    ensures var r := SetPosition(s, index, gate, io, content);
            && r.open == s.open
            && r.buf.blk == if s.open.None? || index >= s.frameCount || (!Skips(s, index, gate) && !io.readOk) then GS16
                            else s.buf.blk
  {
    assert Sized(s.(cur := index));
    LoadSets(s.(cur := index), index, io, content);
    hide Sized, Load, Skips, Supersede;
  }

  lemma StartSets(s: State, p: Pattern, init: nat, duty: bv8, io: Io, armOk: bool, content: Buffer)
    requires Sized(s) && Opens(s.panels, p)
    ensures var r := StartTrial(s, p, init, duty, io, armOk, content);
            && (io.readOk && armOk ==> r.open == Some(p))
            && r.buf.blk == if !io.readOk then GS16 else if !armOk then GS2 else p.blockSize
  {
    OpenedSized(s, p, init);
    var q := Opened(s, p, init).(duty := duty);
    assert Sized(q) && q.open == Some(p) && q.buf.blk == p.blockSize && init % |p.frames| < q.frameCount;
    LoadSets(q, init % |p.frames|, io, content);
    hide Sized, Load, Opened, Supersede, Opens;
  }

  lemma StepSets(s: State, m: Moment)
    requires Sized(s) && Allowed(s.panels, m)
    ensures Step(s, m).buf.blk == if Sets(s, m).Some? then Sets(s, m).value else s.buf.blk
  {
    hide Load, SetPosition, StartTrial, Skips, Modes, Supersede, Opens, Span;
    match m.e
    case EvPosition(index, gate, io) => PositionSets(s, index, gate, io, m.content);
    case EvAdvance(index, io) => AdvanceSets(s, index, io, m.content);
    case EvStart(p, init, duty, io, armOk) => StartSets(s, p, init, duty, io, armOk, m.content);
    case _ =>
  }

  lemma AdvanceSets(s: State, index: nat, io: Io, content: Buffer)
    requires Sized(s)
    ensures var r := Advance(s, index, io, content);
            r.open == s.open && r.buf.blk == if !io.readOk || s.open.None? || index >= s.frameCount then GS16 else s.buf.blk
  {
    assert Sized(s.(cur := index));
    LoadSets(s.(cur := index), index, io, content);
    hide Sized, Load;
  }

  /** The pattern stays open. */
  predicate Stays(m: Moment) {
    !m.e.EvStart? && !m.e.EvClose? && !(m.e.EvFail? && m.e.closes)
  }

  lemma StepStays(s: State, m: Moment)
    requires Sized(s) && Allowed(s.panels, m) && Stays(m)
    ensures Step(s, m).open == s.open
  {
    hide Load, SetPosition, Advance, Modes, Supersede, Opens, Span;
    match m.e
    case EvPosition(index, gate, io) => PositionSets(s, index, gate, io, m.content);
    case EvAdvance(index, io) => AdvanceSets(s, index, io, m.content);
    case _ =>
  }

  /** The sizes put in force over a run, in order. */
  function SizesSet(s: State, ms: seq<Moment>): (z: seq<nat>)
    decreases |ms|
  {
    if ms == [] || !Sized(s) || !Allowed(s.panels, ms[0]) then []
    else (if Sets(s, ms[0]).Some? then [Sets(s, ms[0]).value] else []) + SizesSet(Step(s, ms[0]), ms[1..])
  }

  function LastOr(z: seq<nat>, blk: nat): nat {
    if z == [] then blk else z[|z| - 1]
  }

  lemma {:induction false} RunSets(s: State, ms: seq<Moment>, r: State)
    requires Reaches(s, ms, r) && forall m :: m in ms ==> Stays(m)
    ensures r.open == s.open && r.buf.blk == LastOr(SizesSet(s, ms), s.buf.blk)
    decreases |ms|
  {
    if ms != [] {
      hide Step, Sets, Sized, Allowed;
      StepSets(s, ms[0]);
      StepStays(s, ms[0]);
      RunSets(Step(s, ms[0]), ms[1..], r);
    }
  }

  /** After a trial has started on `p`, and for as long as `p` stays open: its block size is in force exactly when
      nothing since put another one in force, or the last to do so put the same. Then, and only then, a 0x70 load
      fetches the file's own blocks. */
  lemma GeometrySinceStart(boot: State, before: seq<Moment>, s: State, start: Moment, ms: seq<Moment>, r: State)
    requires Boot(boot) && Reaches(boot, before, s) && Allowed(s.panels, start)
    requires start.e.EvStart? && start.e.io.readOk && start.e.armOk
    requires Sized(s) && Reaches(Step(s, start), ms, r) && forall m :: m in ms ==> Stays(m)
    ensures var p, z := start.e.p, SizesSet(Step(s, start), ms);
            r.open == Some(p) && (r.buf.blk == p.blockSize <==> z == [] || z[|z| - 1] == p.blockSize)
  {
    StartOpens(s, start);
    RunSets(Step(s, start), ms, r);
    hide Step, SizesSet, Reaches;
  }

  lemma StartOpens(s: State, start: Moment)
    requires Sized(s) && Allowed(s.panels, start) && start.e.EvStart? && start.e.io.readOk && start.e.armOk
    ensures Step(s, start).open == Some(start.e.p) && Step(s, start).buf.blk == start.e.p.blockSize
  {
    hide StartTrial, Opens, Sized;
    StartSets(s, start.e.p, start.e.init, start.e.duty, start.e.io, start.e.armOk, start.content);
  }
}
