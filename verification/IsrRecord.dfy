/** The reset-surviving interrupt record: two checksums kept up to date by nested hooks, and a capture that may be
    cut short. */
module IsrRecord {
  import opened Bytes

  const MAGIC: bv32 := 0x4836_4952
  const ID_COUNT: nat := 8
  const ISR_WDOG: bv8 := 3

  /** Line 0: the context words 0..6. Word 1 packs four bytes. */
  datatype Context = Context(magic: bv32, last: bv8, fired: bv8, prev: bv8, pad: bv8, pc: bv32, lr: bv32,
                             xpsr: bv32, excret: bv32, stamp: bv32)

  /** Lines 1-2: per-id counts, their total, reserved words. */
  datatype Tally = Tally(cnt: seq<u32>, count: u32, reserved: seq<bv32>)

  datatype Record = Record(ctx: Context, check0: bv32, tally: Tally, checkAll: bv32)

  // ----- checksums --------------------------------------------------------

  function Xor(a: bv32, b: bv32): bv32 { a ^ b }

  function Not(a: bv32): bv32 { !a }

  function Pack(last: bv8, fired: bv8, prev: bv8, pad: bv8): bv32 {
    (last as bv32) | ((fired as bv32) << 8) | ((prev as bv32) << 16) | ((pad as bv32) << 24)
  }

  function Word1(c: Context): bv32 {
    Pack(c.last, c.fired, c.prev, c.pad)
  }

  function ContextWords(c: Context): (w: seq<bv32>)
    ensures |w| == 7
  {
    [c.magic, Word1(c), c.pc, c.lr, c.xpsr, c.excret, c.stamp]
  }

  function Word(n: u32): bv32 { n as bv32 }

  function Words(ns: seq<u32>): (w: seq<bv32>)
    ensures |w| == |ns| && forall i :: 0 <= i < |w| ==> w[i] == Word(ns[i])
  {
    seq(|ns|, i requires 0 <= i < |ns| => Word(ns[i]))
  }

  function TallyWords(t: Tally): seq<bv32> {
    Words(t.cnt) + [Word(t.count)] + t.reserved
  }

  function XorAll(w: seq<bv32>): bv32 {
    if w == [] then 0 else Xor(XorAll(w[..|w| - 1]), w[|w| - 1])
  }

  function Check0(r: Record): bv32 {
    Not(XorAll(ContextWords(r.ctx)))
  }

  function CheckAll(r: Record): bv32 {
    Not(XorAll(ContextWords(r.ctx) + TallyWords(r.tally)))
  }

  predicate Sealed(r: Record) {
    && |r.tally.cnt| == ID_COUNT && |r.tally.reserved| == 6
    && r.check0 == Check0(r) && r.checkAll == CheckAll(r)
  }

  function Seal(r: Record): (s: Record)
    ensures s == r.(check0 := s.check0, checkAll := s.checkAll)
  {
    r.(check0 := Check0(r), checkAll := CheckAll(r))
  }

  lemma XorAssoc(a: bv32, b: bv32, c: bv32)
    ensures Xor(Xor(a, b), c) == Xor(a, Xor(b, c))
  {
  }

  lemma XorLaws(a: bv32, b: bv32)
    ensures Xor(a, b) == Xor(b, a) && Xor(a, a) == 0 && Xor(a, 0) == a && Xor(0, a) == a
  {
  }

  /** Replacing one word changes the sum by old XOR new. */
  lemma XorSwap(sum: bv32, was: bv32, now: bv32, last: bv32)
    ensures Xor(Xor(sum, Xor(was, now)), last) == Xor(Xor(sum, last), Xor(was, now))
    ensures Xor(Xor(sum, was), Xor(was, now)) == Xor(sum, now)
  {
    hide Xor;
    var d := Xor(was, now);
    XorAssoc(sum, d, last);
    XorLaws(d, last);
    XorAssoc(sum, last, d);
    XorAssoc(sum, was, d);
    XorAssoc(was, was, now);
    XorLaws(was, was);
    XorLaws(now, now);
  }

  lemma NotXor(a: bv32, d: bv32)
    ensures Not(Xor(a, d)) == Xor(Not(a), d)
  {
  }

  lemma {:induction false} XorReplaced(w: seq<bv32>, i: nat, now: bv32)
    requires i < |w|
    ensures XorAll(w[i := now]) == Xor(XorAll(w), Xor(w[i], now))
  {
    hide Xor;
    var n := |w| - 1;
    if i == n {
      assert w[i := now][..n] == w[..n];
      XorSwap(XorAll(w[..n]), w[n], now, 0);
    } else {
      assert w[i := now][..n] == w[..n][i := now];
      XorReplaced(w[..n], i, now);
      XorSwap(XorAll(w[..n]), w[i], now, w[n]);
    }
  }

  // ----- the hooks --------------------------------------------------------

  function Index(id: bv8): nat { id as nat }

  /** One more, wrapping at 32 bits. */
  function Next(n: u32): u32 { if n == 0xFFFF_FFFF then 0 else n + 1 }

  function Add(a: u32, b: u32): u32 {
    var sum := a as int + b as int;
    if sum >= TWO_TO_32 then sum - TWO_TO_32 else sum
  }

  function Counted(t: Tally, id: bv8): Tally
    requires |t.cnt| == ID_COUNT
  {
    t.(count := Next(t.count),
       cnt := if Index(id) < ID_COUNT then t.cnt[Index(id) := Next(t.cnt[Index(id)])] else t.cnt)
  }

  /** isrEnter: fields, then both checksums afresh. */
  function Enter(r: Record, id: bv8): Record
    requires |r.tally.cnt| == ID_COUNT
  {
    Seal(r.(ctx := r.ctx.(last := id), tally := Counted(r.tally, id)))
  }

  function Exit(r: Record, prev: bv8): Record {
    Seal(r.(ctx := r.ctx.(last := prev)))
  }

  /** isrEnterLite: the same fields; each checksum takes the XOR of the changed words. */
  function EnterLite(r: Record, id: bv8): Record
    requires |r.tally.cnt| == ID_COUNT
  {
    var c := r.ctx.(last := id);
    var t := Counted(r.tally, id);
    var d0 := Xor(Word1(r.ctx), Word1(c));
    var dCount := Xor(Word(r.tally.count), Word(t.count));
    var dId := if Index(id) < ID_COUNT then Xor(Word(r.tally.cnt[Index(id)]), Word(t.cnt[Index(id)])) else 0;
    Record(c, Xor(r.check0, d0), t, Xor(r.checkAll, Xor(Xor(d0, dCount), dId)))
  }

  function ExitLite(r: Record, prev: bv8): Record {
    var c := r.ctx.(last := prev);
    var d0 := Xor(Word1(r.ctx), Word1(c));
    r.(ctx := c, check0 := Xor(r.check0, d0), checkAll := Xor(r.checkAll, d0))
  }

  lemma ContextReplaced(c: Context, last: bv8)
    ensures ContextWords(c.(last := last)) == ContextWords(c)[1 := Word1(c.(last := last))]
    ensures ContextWords(c)[1] == Word1(c)
  {
    hide Word1;
  }

  /** Changing `last` under the incremental update keeps both checksums. */
  lemma LastKeeps(r: Record, last: bv8)
    requires Sealed(r)
    ensures Sealed(ExitLite(r, last))
    ensures ExitLite(r, last) == Exit(r, last)
  {
    hide Xor, Not, Word1, XorAll;
    var c := r.ctx.(last := last);
    var w, x := ContextWords(r.ctx), ContextWords(c);
    var t := TallyWords(r.tally);
    ContextReplaced(r.ctx, last);
    XorReplaced(w, 1, Word1(c));
    assert (w + t)[1 := Word1(c)] == x + t && (w + t)[1] == Word1(r.ctx);
    XorReplaced(w + t, 1, Word1(c));
    var d := Xor(Word1(r.ctx), Word1(c));
    NotXor(XorAll(w), d);
    NotXor(XorAll(w + t), d);
  }

  /** Counting an entry under the incremental update keeps the full checksum. */
  lemma CountKeeps(r: Record, id: bv8)
    requires Sealed(r)
    ensures var t := Counted(r.tally, id);
            var dCount := Xor(Word(r.tally.count), Word(t.count));
            var dId := if Index(id) < ID_COUNT then Xor(Word(r.tally.cnt[Index(id)]), Word(t.cnt[Index(id)])) else 0;
            CheckAll(r.(tally := t)) == Xor(r.checkAll, Xor(dCount, dId))
  {
    hide Xor, Not, XorAll, ContextWords, Word, Next;
    var t := Counted(r.tally, id);
    var u := r.tally.(count := t.count);
    var c := ContextWords(r.ctx);
    var w, v, x := c + TallyWords(r.tally), c + TallyWords(u), c + TallyWords(t);
    var dCount := Xor(Word(r.tally.count), Word(t.count));
    assert v == w[7 + 8 := Word(t.count)] && w[7 + 8] == Word(r.tally.count);
    XorReplaced(w, 15, Word(t.count));
    NotXor(XorAll(w), dCount);
    if Index(id) < ID_COUNT {
      var i := Index(id);
      var dId := Xor(Word(r.tally.cnt[i]), Word(t.cnt[i]));
      assert x == v[7 + i := Word(t.cnt[i])] && v[7 + i] == Word(r.tally.cnt[i]);
      XorReplaced(v, 7 + i, Word(t.cnt[i]));
      NotXor(XorAll(v), dId);
      XorAssoc(Not(XorAll(w)), dCount, dId);
    } else {
      assert u == t;
      XorLaws(dCount, 0);
    }
  }

  /** The lite hooks leave exactly what the full hooks do. */
  lemma LiteIsFull(r: Record, id: bv8)
    requires Sealed(r)
    ensures EnterLite(r, id) == Enter(r, id) && ExitLite(r, id) == Exit(r, id)
    ensures Sealed(Enter(r, id)) && Sealed(Exit(r, id))
  {
    LastKeeps(r, id);
    var q := ExitLite(r, id);
    CountKeeps(q, id);
    hide Xor, CheckAll, Check0, Word1;
    var t := Counted(r.tally, id);
    var d0 := Xor(Word1(r.ctx), Word1(q.ctx));
    var dCount := Xor(Word(r.tally.count), Word(t.count));
    var dId := if Index(id) < ID_COUNT then Xor(Word(r.tally.cnt[Index(id)]), Word(t.cnt[Index(id)])) else 0;
    XorAssoc(r.checkAll, d0, Xor(dCount, dId));
    XorAssoc(d0, dCount, dId);
    SameContext(q, r.(ctx := q.ctx, tally := t));
  }

  lemma SameContext(q: Record, r: Record)
    requires q.ctx == r.ctx
    ensures Check0(q) == Check0(r)
    ensures q.tally == r.tally ==> CheckAll(q) == CheckAll(r)
    ensures CheckAll(q.(tally := r.tally)) == CheckAll(r)
  {
  }

  // ----- nested interrupts ------------------------------------------------

  /** One interrupt in progress: its id, the marker it will restore, and which pair of hooks it uses. */
  datatype Active = Active(id: bv8, prev: bv8, lite: bool)

  datatype System = System(r: Record, stack: seq<Active>, entered: seq<bv8>)

  /** Interrupts nest: only the innermost one returns. */
  datatype Event = In(id: bv8, lite: bool) | Out

  function Step(s: System, e: Event): (t: System)
    requires |s.r.tally.cnt| == ID_COUNT
    ensures |t.r.tally.cnt| == ID_COUNT
  {
    match e
    case In(id, lite) =>
      System(if lite then EnterLite(s.r, id) else Enter(s.r, id), s.stack + [Active(id, s.r.ctx.last, lite)],
             s.entered + [id])
    case Out =>
      if s.stack == [] then s
      else
        var top := s.stack[|s.stack| - 1];
        s.(r := if top.lite then ExitLite(s.r, top.prev) else Exit(s.r, top.prev), stack := s.stack[..|s.stack| - 1])
  }

  function Entries(ids: seq<bv8>, i: nat): nat {
    if ids == [] then 0 else Entries(ids[..|ids| - 1], i) + if Index(ids[|ids| - 1]) == i then 1 else 0
  }

  /** A 32-bit counter after `n` increments from zero. */
  function Wrapped(n: nat): u32 {
    if n == 0 then 0 else Next(Wrapped(n - 1))
  }

  function Sum(cnt: seq<u32>): u32 {
    if cnt == [] then 0 else Add(Sum(cnt[..|cnt| - 1]), cnt[|cnt| - 1])
  }

  /** The innermost active id, or the idle marker. */
  function Innermost(stack: seq<Active>, idle: bv8): bv8 {
    if stack == [] then idle else stack[|stack| - 1].id
  }

  predicate Nested(stack: seq<Active>, idle: bv8) {
    forall k :: 0 <= k < |stack| ==> stack[k].prev == Innermost(stack[..k], idle)
  }

  predicate Counts(t: Tally, entered: seq<bv8>) {
    && |t.cnt| == ID_COUNT
    && t.count == Wrapped(|entered|)
    && forall i :: 0 <= i < ID_COUNT ==> t.cnt[i] == Wrapped(Entries(entered, i))
  }

  /** What holds at every moment between hook bodies. */
  predicate Inv(s: System, idle: bv8) {
    && Sealed(s.r) && s.r.ctx.magic == MAGIC
    && s.r.ctx.last == Innermost(s.stack, idle)
    && Nested(s.stack, idle)
    && Counts(s.r.tally, s.entered)
    && Totalled(s.r.tally, s.entered)
  }

  predicate AllKnown(entered: seq<bv8>) {
    forall id :: id in entered ==> Index(id) < ID_COUNT
  }

  /** With known ids only, the per-id counts add up to the total. */
  predicate Totalled(t: Tally, entered: seq<bv8>) {
    AllKnown(entered) ==> Sum(t.cnt) == t.count
  }

  lemma AddNext(a: u32, b: u32)
    ensures Add(a, Next(b)) == Next(Add(a, b)) && Add(Next(a), b) == Next(Add(a, b))
  {
  }

  lemma {:induction false} SumBump(cnt: seq<u32>, i: nat)
    requires i < |cnt|
    ensures Sum(cnt[i := Next(cnt[i])]) == Next(Sum(cnt))
  {
    hide Add, Next;
    var n := |cnt| - 1;
    var now := cnt[i := Next(cnt[i])];
    if i == n {
      assert now[..n] == cnt[..n];
      AddNext(Sum(cnt[..n]), cnt[n]);
    } else {
      assert now[..n] == cnt[..n][i := Next(cnt[i])];
      SumBump(cnt[..n], i);
      AddNext(Sum(cnt[..n]), cnt[n]);
    }
  }

  lemma CountedCounts(t: Tally, entered: seq<bv8>, id: bv8)
    requires Counts(t, entered)
    ensures Counts(Counted(t, id), entered + [id])
  {
    hide Index, Next;
    var all := entered + [id];
    assert all[..|all| - 1] == entered;
    forall i | 0 <= i < ID_COUNT ensures Counted(t, id).cnt[i] == Wrapped(Entries(all, i)) {
      assert Entries(all, i) == Entries(entered, i) + if Index(id) == i then 1 else 0;
    }
  }

  lemma CountsAre(s: System)
    requires Counts(s.r.tally, s.entered)
    ensures |s.r.tally.cnt| == ID_COUNT
  {
  }

  lemma InKeeps(s: System, id: bv8, lite: bool, idle: bv8)
    requires Inv(s, idle)
    ensures Inv(Step(s, In(id, lite)), idle)
  {
    hide Sealed, Counts, Nested, EnterLite, Index, Next, Totalled, Seal;
    CountsAre(s);
    LiteIsFull(s.r, id);
    CountedCounts(s.r.tally, s.entered, id);
    var t := Step(s, In(id, lite));
    NestedPush(s.stack, Active(id, s.r.ctx.last, lite), idle);
    CountedTotals(s.r.tally, s.entered, id);
  }

  lemma CountedTotals(t: Tally, entered: seq<bv8>, id: bv8)
    requires |t.cnt| == ID_COUNT && Totalled(t, entered)
    ensures Totalled(Counted(t, id), entered + [id])
  {
    hide Index, Next, Sum;
    var all := entered + [id];
    if AllKnown(all) {
      assert id in all && forall x :: x in entered ==> x in all;
      SumBump(t.cnt, Index(id));
    }
  }

  lemma NestedPush(stack: seq<Active>, a: Active, idle: bv8)
    requires Nested(stack, idle) && a.prev == Innermost(stack, idle)
    ensures Nested(stack + [a], idle)
  {
    var t := stack + [a];
    forall k | 0 <= k < |t| ensures t[k].prev == Innermost(t[..k], idle) {
      if k < |stack| {
        assert t[..k] == stack[..k] && t[k] == stack[k];
      } else {
        assert t[..k] == stack && t[k] == a;
      }
    }
  }

  lemma OutKeeps(s: System, idle: bv8)
    requires Inv(s, idle)
    ensures Inv(Step(s, Out), idle)
  {
    hide Sealed, Counts, Nested, ExitLite, Index, Totalled, Seal;
    if s.stack != [] {
      LiteIsFull(s.r, s.stack[|s.stack| - 1].prev);
      NestedPop(s.stack, idle);
    }
  }

  lemma NestedPop(stack: seq<Active>, idle: bv8)
    requires Nested(stack, idle) && stack != []
    ensures Nested(stack[..|stack| - 1], idle)
    ensures stack[|stack| - 1].prev == Innermost(stack[..|stack| - 1], idle)
  {
    assert forall k :: 0 <= k < |stack| ==> stack[..|stack| - 1][..k] == stack[..k];
  }

  function Run(s: System, es: seq<Event>): (t: System)
    requires |s.r.tally.cnt| == ID_COUNT
    ensures |t.r.tally.cnt| == ID_COUNT
  {
    if es == [] then s else Step(Run(s, es[..|es| - 1]), es[|es| - 1])
  }

  /** Health::begin's fresh record. */
  function Fresh(): Record {
    Seal(Record(Context(MAGIC, 0, 0, 0, 0, 0, 0, 0, 0, 0), 0, Tally([0, 0, 0, 0, 0, 0, 0, 0], 0, [0, 0, 0, 0, 0, 0]), 0))
  }

  lemma FreshInv()
    ensures Inv(System(Fresh(), [], []), 0)
  {
    hide XorAll, Not;
    var r := Fresh();
    assert Counts(r.tally, []);
    SumZero(r.tally.cnt);
  }

  lemma {:induction false} SumZero(cnt: seq<u32>)
    requires forall i :: 0 <= i < |cnt| ==> cnt[i] == 0
    ensures Sum(cnt) == 0
  {
    if cnt != [] {
      SumZero(cnt[..|cnt| - 1]);
    }
  }

  /** After any well-nested mix of full and lite hooks both checksums are those of the fields, the marker is the
      innermost interrupt and goes back on return, and the counts are the entries, wrapping at 32 bits; their sum is
      the total as long as every id is a known one. */
  lemma {:induction false} HooksKeepTheRecord(es: seq<Event>)
    ensures Inv(Run(System(Fresh(), [], []), es), 0)
  {
    if es == [] {
      FreshInv();
    } else {
      HooksKeepTheRecord(es[..|es| - 1]);
      var s := Run(System(Fresh(), [], []), es[..|es| - 1]);
      hide Inv, Fresh, Step;
      match es[|es| - 1]
      case In(id, lite) => InKeeps(s, id, lite, 0);
      case Out => OutKeeps(s, 0);
    }
  }

  // ----- capture and harvest ----------------------------------------------

  /** The watchdog interrupt: the preempted context into line 0, sealed and flushed before anything else. */
  function Capture(r: Record, pc: bv32, lr: bv32, xpsr: bv32, excret: bv32, stamp: bv32): Record {
    var c := r.ctx.(prev := r.ctx.last, pc := pc, lr := lr, xpsr := xpsr, excret := excret, stamp := stamp, fired := 1,
                    last := ISR_WDOG);
    Seal(r.(ctx := c))
  }

  /** Memory when the reset came after line 0 was flushed: its lines 1-2 hold whatever they held. */
  predicate CutShort(memory: Record, captured: Record) {
    memory.ctx == captured.ctx && memory.check0 == captured.check0
  }

  datatype Harvest = Harvest(last: bv8, fired: bool, pc: bv32, lr: bv32, xpsr: bv32, excret: bv32, prev: bv8,
                             count: u32, cnt: seq<u32>)

  /** The next boot's reading: context by its own checksum, counts only if the full one agrees too. */
  function Harvested(r: Record): Option<Harvest> {
    if r.ctx.magic != MAGIC || r.check0 != Check0(r) then None
    else
      var counted := r.checkAll == CheckAll(r);
      Some(Harvest(r.ctx.last, r.ctx.fired != 0, r.ctx.pc, r.ctx.lr, r.ctx.xpsr, r.ctx.excret, r.ctx.prev,
                   if counted then r.tally.count else 0, if counted then r.tally.cnt else [0, 0, 0, 0, 0, 0, 0, 0]))
  }

  /** Whenever the watchdog strikes between hook bodies, even a capture cut off after its first line is harvested with
      the preempted context and the interrupt that was active; a complete one brings the counts as well. */
  lemma CutCaptureHarvests(es: seq<Event>, pc: bv32, lr: bv32, xpsr: bv32, excret: bv32, stamp: bv32, memory: Record)
    requires var s := Run(System(Fresh(), [], []), es);
             CutShort(memory, Capture(s.r, pc, lr, xpsr, excret, stamp))
    ensures var s := Run(System(Fresh(), [], []), es);
            var whole := Capture(s.r, pc, lr, xpsr, excret, stamp);
            var h := Harvested(memory);
            && h.Some? && h.value.fired && h.value.last == ISR_WDOG
            && h.value.pc == pc && h.value.lr == lr && h.value.xpsr == xpsr && h.value.excret == excret
            && h.value.prev == Innermost(s.stack, 0)
            && (memory == whole ==> h.value.count == s.r.tally.count && h.value.cnt == s.r.tally.cnt)
  {
    HooksKeepTheRecord(es);
    var s := Run(System(Fresh(), [], []), es);
    hide Run, Fresh, Sealed, Counts, Nested, XorAll, ContextWords;
    SameContext(memory, Capture(s.r, pc, lr, xpsr, excret, stamp));
  }
}
