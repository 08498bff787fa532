/** The processor's frame handlers over its own buffer. */
module FrameProcessor {
  import opened Bytes
  import opened Panel
  import opened FrameCache
  import opened Frames
  import PanelBuffer

  class FrameProcessor {
    const panels: nat
    const frameBuf: array<bv8>
    var blk: nat
    var live: bool
    var isFrame: bool
    var cacheOk: bool
    var skip: bool
    var presented: bool
    var cur: nat
    var frameCount: nat
    var open: Option<Pattern>
    var mode: bv8
    var duty: bv8
    var ao: Analog
    var n: Counts

    ghost function Content(): (b: Buffer)
      reads this, frameBuf
    {
      if frameBuf.Length < 4 then Buffer([], [], blk, live) else Buffer(frameBuf[..4], frameBuf[4..], blk, live)
    }

    ghost function State(): State
      reads this, frameBuf
    {
      Frames.State(panels, Content(), isFrame, cacheOk, skip, presented, cur, frameCount, open, mode, duty, ao, n)
    }

    ghost predicate Valid()
      reads this, frameBuf
    {
      Sized(State())
    }

    method InvalidateFrameBuf()
      requires Valid()
      modifies `isFrame, `cacheOk, `presented, `n
      ensures Valid() && State() == Invalidate(old(State()))
    {
      CountSuperseded();
      isFrame, cacheOk, presented := false, false, false;
    }

    method CountSuperseded()
      requires Valid()
      modifies `n
      ensures Valid() && n == Supersede(old(n), old(isFrame && !presented))
      ensures State() == old(State()).(n := n)
    {
      if isFrame && !presented {
        if n.pending < 0xFF {
          n := n.(pending := n.pending + 1);
        } else {
          n := n.(lost := n.lost + 1);
        }
      }
    }

    /** Overwrite the buffer from the front. */
    method Fill(bytes: seq<bv8>)
      requires Valid() && 4 <= |bytes| <= frameBuf.Length
      modifies frameBuf
      ensures frameBuf[..] == bytes + old(frameBuf[..])[|bytes|..]
    {
      forall i | 0 <= i < |bytes| {
        frameBuf[i] := bytes[i];
      }
    }

    method ShowError(glyph: Buffer)
      requires Valid() && BufferFits(panels, glyph)
      modifies this, frameBuf
      ensures Valid() && State() == Frames.ShowError(old(State()), glyph)
    {
      hide Supersede;
      InvalidateFrameBuf();
      ghost var s := State();
      Fill(glyph.head + glyph.rest);
      Filled4(frameBuf[..], glyph.head, glyph.rest, []);
      blk := GS16;
      live := true;
    }

    method LoadFrame(index: nat, io: Io, glyph: Buffer)
      requires Valid() && BufferFits(panels, glyph)
      modifies this, frameBuf
      ensures Valid() && State() == Load(old(State()), index, io, glyph)
    {
      hide Supersede, Opens, Frames.LoadGood, Frames.ShowError;
      CountSuperseded();
      isFrame := false;
      if !io.readOk || open.None? || index >= frameCount {
        ShowError(glyph);
      } else {
        LoadGood(index, io.dacOk);
      }
    }

    method LoadGood(index: nat, dacOk: bool)
      requires Valid() && open.Some? && index < frameCount
      modifies this, frameBuf
      ensures Valid() && State() == Frames.LoadGood(old(State()), index, dacOk)
    {
      hide Opens, Outputs, Output, FillFrom;
      ReadAndPatch(index);
      isFrame := true;
      presented := false;
      n := n.(loads := n.loads + 1);
      SetOutputs(index, dacOk);
    }

    method SetOutputs(index: nat, dacOk: bool)
      modifies `ao, `cacheOk
      ensures ao == Outputs(old(ao), index, frameCount, dacOk)
      ensures cacheOk == (Output(old(ao), index, frameCount).None? || dacOk)
    {
      var level := Output(ao, index, frameCount);
      var i := OutputIdx(ao, index);
      if level.Some? && dacOk {
        ao := ao.(dac := level.value);
      }
      ao := ao.(lutIdx := i);
      cacheOk := level.None? || dacOk;
    }

    /** The read: the body over the front of the buffer. */
    method ReadFrame(index: nat)
      requires Valid() && open.Some? && index < frameCount
      modifies frameBuf
      ensures var body := open.value.frames[index];
              && 4 <= |body| <= frameBuf.Length
              && frameBuf[..4] == body[..4] && frameBuf[4..] == Over(old(frameBuf[4..]), body[4..])
    {
      ghost var rest := frameBuf[4..];
      var body := open.value.frames[index];
      BodyFits(State(), index);
      hide Opens, Span;
      Fill(body);
      Filled4(frameBuf[..], body[..4], body[4..], rest[|body| - 4..]);
    }

    /** The body over the buffer, then display mode and duty into every block. */
    method ReadAndPatch(index: nat)
      requires Valid() && open.Some? && index < frameCount
      modifies `live, frameBuf
      ensures Valid() && State() == old(State()).(buf := FillFrom(old(State()), index))
    {
      hide Opens, Span, Over, Modes, Duties, PatchAll;
      BodyFits(State(), index);
      ReadFrame(index);
      live := true;
      PanelBuffer.PatchLoaded(frameBuf, blk, panels, mode, duty);
    }

    method SetFramePosition(index: nat, gate: bool, io: Io, glyph: Buffer)
      requires Valid() && BufferFits(panels, glyph)
      modifies this, frameBuf
      ensures Valid() && State() == SetPosition(old(State()), index, gate, io, glyph)
    {
      hide Load, Frames.ShowError, Opens;
      if open.None? || index >= frameCount {
        ShowError(glyph);
        return;
      }
      if skip && gate && isFrame && cacheOk && index == cur {
        return;
      }
      cur := index;
      LoadFrame(index, io, glyph);
    }

    method SetPanelDisplayMode(m: bv8)
      requires Valid()
      modifies `mode, frameBuf
      ensures Valid() && State() == PanelMode(old(State()), m)
    {
      SpanGrows(panels, blk, GS16);
      mode := m;
      if live {
        hide Modes;
        PanelBuffer.PatchDispMode(frameBuf, blk, panels, m);
      }
    }

    method TransmitOnRefresh(changed: bool)
      requires Valid()
      modifies `presented, `n
      ensures Valid() && State() == Refresh(old(State()), changed)
    {
      if isFrame && !presented {
        n := n.(shown := n.shown + 1);
      }
      presented := true;
      if changed {
        n := n.(reported := n.reported + n.pending, pending := 0);
      }
    }
  }

  lemma BodyFits(s: State, index: nat)
    requires Sized(s) && s.open.Some? && index < s.frameCount
    ensures var body := s.open.value.frames[index];
            body == Body(s, index) && 4 <= |body| <= 4 + |s.buf.rest| && Span(s.panels, s.buf.blk) <= |s.buf.rest|
  {
    SpanGrows(s.panels, s.buf.blk, GS16);
    SpanGrows(s.panels, s.open.value.blockSize, GS16);
    assert s.open.value.frames[index] in s.open.value.frames;
  }

  lemma Filled4(s: seq<bv8>, head: seq<bv8>, front: seq<bv8>, back: seq<bv8>)
    requires |head| == 4 && s == head + front + back
    ensures s[..4] == head && s[4..] == front + back
  {
  }
}
