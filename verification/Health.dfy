/** The interrupt hooks over the record's own fields. */
module Health {
  import opened Bytes
  import opened IsrRecord

  class Isr {
    var ctx: Context
    var check0: bv32
    var cnt: seq<u32>
    var count: u32
    var reserved: seq<bv32>
    var checkAll: bv32

    function State(): Record
      reads this
    {
      Record(ctx, check0, Tally(cnt, count, reserved), checkAll)
    }

    /** Health::begin's fresh live record. */
    constructor ()
      ensures State() == Fresh()
    {
      hide XorAll, Not, Pack;
      ctx := Context(MAGIC, 0, 0, 0, 0, 0, 0, 0, 0, 0);
      cnt, count, reserved := [0, 0, 0, 0, 0, 0, 0, 0], 0, [0, 0, 0, 0, 0, 0];
      check0, checkAll := 0, 0;
      new;
      SealIsr();
    }

    /** Accumulates the words one at a time. */
    static method Fold(w: seq<bv32>) returns (x: bv32)
      ensures x == XorAll(w)
    {
      hide Xor;
      x := 0;
      var i := 0;
      assert w[..0] == [];
      while i < |w|
        invariant 0 <= i <= |w| && x == XorAll(w[..i])
      {
        assert w[..i + 1][..i] == w[..i];
        x := Xor(x, w[i]);
        i := i + 1;
      }
      assert w[..i] == w;
    }

    method SealIsr()
      modifies `check0, `checkAll
      ensures State() == Seal(old(State()))
    {
      hide XorAll, Not;
      var x := Fold(ContextWords(ctx));
      check0 := Not(x);
      var y := Fold(ContextWords(ctx) + TallyWords(Tally(cnt, count, reserved)));
      checkAll := Not(y);
    }

    method CountEntry(id: bv8)
      requires |cnt| == ID_COUNT
      modifies `cnt, `count
      ensures State() == old(State()).(tally := Counted(old(State()).tally, id))
    {
      count := Next(count);
      if Index(id) < ID_COUNT {
        cnt := cnt[Index(id) := Next(cnt[Index(id)])];
      }
    }

    method IsrEnter(id: bv8) returns (prev: bv8)
      requires |cnt| == ID_COUNT
      modifies this
      ensures State() == Enter(old(State()), id) && prev == old(ctx.last)
    {
      hide Seal;
      prev := ctx.last;
      ctx := ctx.(last := id);
      CountEntry(id);
      SealIsr();
    }

    method IsrExit(prev: bv8)
      modifies this
      ensures State() == Exit(old(State()), prev)
    {
      hide Seal;
      ctx := ctx.(last := prev);
      SealIsr();
    }

    method IsrEnterLite(id: bv8) returns (prev: bv8)
      requires |cnt| == ID_COUNT
      modifies this
      ensures State() == EnterLite(old(State()), id) && prev == old(ctx.last)
    {
      hide Xor, Pack, Word, Next;
      prev := ctx.last;
      var d0 := Xor(Pack(prev, ctx.fired, ctx.prev, ctx.pad), Pack(id, ctx.fired, ctx.prev, ctx.pad));
      var was := count;
      var dId: bv32 := 0;
      if Index(id) < ID_COUNT {
        dId := Xor(Word(cnt[Index(id)]), Word(Next(cnt[Index(id)])));
      }
      ctx := ctx.(last := id);
      CountEntry(id);
      check0 := Xor(check0, d0);
      checkAll := Xor(checkAll, Xor(Xor(d0, Xor(Word(was), Word(count))), dId));
    }

    method IsrExitLite(prev: bv8)
      modifies this
      ensures State() == ExitLite(old(State()), prev)
    {
      hide Xor, Pack;
      var d0 := Xor(Pack(ctx.last, ctx.fired, ctx.prev, ctx.pad), Pack(prev, ctx.fired, ctx.prev, ctx.pad));
      ctx := ctx.(last := prev);
      check0 := Xor(check0, d0);
      checkAll := Xor(checkAll, d0);
    }

    /** The watchdog interrupt's capture. */
    method CaptureContext(pc: bv32, lr: bv32, xpsr: bv32, excret: bv32, stamp: bv32)
      modifies this
      ensures State() == Capture(old(State()), pc, lr, xpsr, excret, stamp)
    {
      hide Seal;
      ctx := ctx.(prev := ctx.last, pc := pc, lr := lr, xpsr := xpsr, excret := excret, stamp := stamp);
      ctx := ctx.(fired := 1, last := ISR_WDOG);
      SealIsr();
    }
  }
}
