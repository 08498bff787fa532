/** Whole runs of the ring: what every operation keeps, and where every record went. */
module RingRuns {
  import opened Bytes
  import opened Ring
  import opened RingProofs
  import opened RingCrash

  datatype Op =
    | Append(rec: Record)
    | Acknowledge(ack: u32)
    | PeekAt(budget: nat)
    | Events(on: bool)
    | Reset

  predicate LegalOp(op: Op) {
    op.Append? ==> IsRecord(op.rec)
  }

  /** The ring with two totals no field of it holds: records freed by acks, and by eviction. */
  datatype Tally = Tally(m: Memory, acked: nat, evicted: nat)

  function Apply(t: Tally, op: Op): (t': Tally)
    requires WellSized(t.m) && LegalOp(op)
    ensures WellSized(t'.m)
  {
    match op
    case Append(rec) => Tally(AppendRaw(t.m, rec), t.acked, t.evicted + Evict(t.m, |rec|).1)
    case Acknowledge(a) =>
      var m' := Ack(t.m, a);
      Tally(m', t.acked + if |Pending(m')| <= |Pending(t.m)| then |Pending(t.m)| - |Pending(m')| else 0, t.evicted)
    case PeekAt(_) => t
    case Events(on) => t.(m := SetEvents(t.m, on))
    case Reset => t.(m := Boot(t.m))
  }

  function Run(t: Tally, ops: seq<Op>): (t': Tally)
    requires WellSized(t.m) && forall op :: op in ops ==> LegalOp(op)
    ensures WellSized(t'.m)
    decreases ops
  {
    if ops == [] then t else Run(Apply(t, ops[0]), ops[1..])
  }

  function Appends(ops: seq<Op>): nat {
    if ops == [] then 0 else Appends(ops[1..]) + if ops[0].Append? then 1 else 0
  }

  /** Pending sequence numbers are consecutive and end just below next_seq. */
  predicate Consecutive(q: seq<Record>, next: int) {
    forall i :: 0 <= i < |q| ==> |q[i]| >= HEADER_LEN && SeqOf(q[i]) == next - |q| + i
  }

  predicate Invariant(t: Tally) {
    && WellSized(t.m) && Consistent(t.m) && Tidy(t.m)
    && Consecutive(Pending(t.m), t.m.hdr.nextSeq)
    && t.acked + t.evicted + |Pending(t.m)| == t.m.hdr.nextSeq - 1
    && t.m.hdr.dropped == t.evicted % TWO_TO_32
  }

  function Fresh(data: seq<byte>): Tally
    requires |data| == SIZE
  {
    Tally(Memory(InitHeader(), data), 0, 0)
  }

  lemma FreshIsInvariant(data: seq<byte>)
    requires |data| == SIZE
    ensures Invariant(Fresh(data))
  {
  }

  lemma ConsecutiveAppend(q: seq<Record>, k: nat, next: nat, s: Record)
    requires k <= |q| && Consecutive(q, next) && |s| >= HEADER_LEN && SeqOf(s) == next
    ensures Consecutive(q[k..] + [s], next + 1)
  {
  }

  lemma AppendKeepsInvariant(t: Tally, rec: Record)
    requires Invariant(t) && IsRecord(rec) && t.m.hdr.nextSeq < 0xFFFF_FFFF
    ensures Invariant(Apply(t, Append(rec)))
    ensures Apply(t, Append(rec)).m.hdr.nextSeq == t.m.hdr.nextSeq + 1
  {
    hide AppendRaw, Evict, StampSeq, Ring.Pending;
    AppendRefinesFifo(t.m, rec);
    AppendKeepsTidy(t.m, rec);
    StampKeepsShape(rec, t.m.hdr.nextSeq);
    AppendTally(t, AppendRaw(t.m, rec), Evict(t.m, |rec|).1, StampSeq(rec, t.m.hdr.nextSeq));
  }

  lemma AppendTally(t: Tally, m': Memory, k: nat, s: Record)
    requires Invariant(t) && WellSized(m') && Consistent(m') && Tidy(m')
    requires k <= |Pending(t.m)| && Pending(m') == Pending(t.m)[k..] + [s]
    requires |s| >= HEADER_LEN && SeqOf(s) == t.m.hdr.nextSeq
    requires m'.hdr.nextSeq == t.m.hdr.nextSeq + 1 && m'.hdr.dropped == (t.m.hdr.dropped + k) % TWO_TO_32
    ensures Invariant(Tally(m', t.acked, t.evicted + k))
  {
    hide Consistent, Tidy, Pending, SeqOf;
    ConsecutiveAppend(Pending(t.m), k, t.m.hdr.nextSeq, s);
  }

  lemma AckKeepsInvariant(t: Tally, a: u32)
    requires Invariant(t)
    ensures Invariant(Apply(t, Acknowledge(a)))
    ensures Apply(t, Acknowledge(a)).m.hdr.nextSeq == t.m.hdr.nextSeq
  {
    var k := AckRefinesFifo(t.m, a);
    AckWalkKeepsPadsLast(t.m.data, t.m.hdr.readOff, t.m.hdr.writeOff, a);
  }

  /** Every operation keeps the invariant; only an append moves next_seq, by one. */
  lemma StepKeepsInvariant(t: Tally, op: Op)
    requires Invariant(t) && LegalOp(op)
    requires op.Append? ==> t.m.hdr.nextSeq < 0xFFFF_FFFF
    ensures Invariant(Apply(t, op))
    ensures Apply(t, op).m.hdr.nextSeq == t.m.hdr.nextSeq + if op.Append? then 1 else 0
  {
    hide Apply, Invariant, LegalOp;
    if op.Append? {
      assert IsRecord(op.rec) by { LegalAppend(op); }
      AppendKeepsInvariant(t, op.rec);
      assert op == Append(op.rec);
    } else if op.Acknowledge? {
      AckKeepsInvariant(t, op.ack);
      assert op == Acknowledge(op.ack);
    } else {
      QuietKeepsInvariant(t, op);
    }
  }

  lemma LegalAppend(op: Op)
    requires LegalOp(op) && op.Append?
    ensures IsRecord(op.rec)
  {
  }

  lemma QuietKeepsInvariant(t: Tally, op: Op)
    requires Invariant(t) && (op.PeekAt? || op.Events? || op.Reset?)
    ensures Invariant(Apply(t, op)) && Apply(t, op).m.hdr.nextSeq == t.m.hdr.nextSeq
  {
    hide Consecutive, PadsLast, Queue;
    if op.Reset? {
      BootIsConsistent(t.m);
    }
  }

  /** Over every run below the 32-bit wrap: acked + dropped + pending == next_seq - 1. */
  lemma {:induction false} RunConserves(t: Tally, ops: seq<Op>)
    requires Invariant(t) && forall op :: op in ops ==> LegalOp(op)
    requires t.m.hdr.nextSeq + Appends(ops) < TWO_TO_32
    ensures Invariant(Run(t, ops))
    ensures Run(t, ops).m.hdr.nextSeq == t.m.hdr.nextSeq + Appends(ops)
    decreases ops
  {
    if ops != [] {
      StepKeepsInvariant(t, ops[0]);
      RunConserves(Apply(t, ops[0]), ops[1..]);
    }
  }

  /** From a freshly initialised ring: what was issued is acked, evicted or still pending, and the pending records
      carry consecutive numbers up to the last one issued. */
  lemma SequenceConserved(data: seq<byte>, ops: seq<Op>)
    requires |data| == SIZE && (forall op :: op in ops ==> LegalOp(op)) && 1 + Appends(ops) < TWO_TO_32
    ensures var t := Run(Fresh(data), ops);
            && WellSized(t.m) && Consistent(t.m)
            && t.m.hdr.nextSeq - 1 == Appends(ops)
            && t.acked + t.evicted + |Pending(t.m)| == Appends(ops)
            && Consecutive(Pending(t.m), t.m.hdr.nextSeq)
            && t.m.hdr.dropped == t.evicted % TWO_TO_32
  {
    FreshIsInvariant(data);
    hide Run, Appends, Consistent, Pending, Consecutive;
    RunConserves(Fresh(data), ops);
  }

  // ----- the unsealed-PAD case is reachable -------------------------------

  function Repeat(op: Op, n: nat): (s: seq<Op>)
    ensures |s| == n && forall o :: o in s ==> o == op
  {
    if n == 0 then [] else [op] + Repeat(op, n - 1)
  }

  lemma {:induction false} RunConcat(t: Tally, a: seq<Op>, b: seq<Op>)
    requires WellSized(t.m) && forall op :: op in a + b ==> LegalOp(op)
    ensures (forall op :: op in a ==> LegalOp(op)) && (forall op :: op in b ==> LegalOp(op))
    ensures Run(t, a + b) == Run(Run(t, a), b)
    decreases a
  {
    assert forall op :: op in a ==> op in a + b;
    assert forall op :: op in b ==> op in a + b;
    if a == [] {
      assert a + b == b;
    } else {
      assert (a + b)[1..] == a[1..] + b;
      RunConcat(Apply(t, a[0]), a[1..], b);
    }
  }

  lemma {:induction false} AppendsConcat(a: seq<Op>, b: seq<Op>)
    ensures Appends(a + b) == Appends(a) + Appends(b)
  {
    if a == [] {
      assert a + b == b;
    } else {
      assert (a + b)[1..] == a[1..] + b;
      AppendsConcat(a[1..], b);
    }
  }

  /** Appending with room to spare moves only write_off, and writes only its own slot. */
  lemma FillStep(m: Memory, rec: Record)
    requires WellSized(m) && IsRecord(rec)
    requires m.hdr.writeOff + |rec| < SIZE && |rec| <= Free(m.hdr.readOff, m.hdr.writeOff)
    ensures var m' := AppendRaw(m, rec);
            && m'.hdr.readOff == m.hdr.readOff
            && m'.hdr.writeOff == m.hdr.writeOff + |rec|
            && forall i :: m.hdr.writeOff + |rec| <= i < SIZE ==> m'.data[i] == m.data[i]
  {
    assert Evict(m, |rec|) == (m.hdr.readOff, 0);
  }

  lemma {:induction false} FillRun(t: Tally, rec: Record, n: nat)
    requires WellSized(t.m) && IsRecord(rec)
    requires t.m.hdr.writeOff + n * |rec| < SIZE
    requires n * |rec| <= Free(t.m.hdr.readOff, t.m.hdr.writeOff)
    ensures var ops := Repeat(Append(rec), n);
            var m' := Run(t, ops).m;
            && Appends(ops) == n
            && m'.hdr.readOff == t.m.hdr.readOff
            && m'.hdr.writeOff == t.m.hdr.writeOff + n * |rec|
            && forall i :: t.m.hdr.writeOff + n * |rec| <= i < SIZE ==> m'.data[i] == t.m.data[i]
    decreases n
  {
    if n > 0 {
      var rest := (n - 1) * |rec|;
      assert n * |rec| == |rec| + rest && rest >= 0;
      FillStep(t.m, rec);
      var t' := Apply(t, Append(rec));
      assert t'.m == AppendRaw(t.m, rec);
      FillRun(t', rec, n - 1);
      var ops := Repeat(Append(rec), n);
      assert ops[1..] == Repeat(Append(rec), n - 1);
      assert Run(t, ops) == Run(t', ops[1..]);
    }
  }

  lemma AckEverything(t: Tally, a: u32)
    requires Invariant(t) && a == t.m.hdr.nextSeq - 1
    ensures Pending(Ack(t.m, a)) == []
    ensures Ack(t.m, a).hdr.readOff == t.m.hdr.writeOff == Ack(t.m, a).hdr.writeOff
  {
    var k := AckRefinesFifo(t.m, a);
    AckWalkStops(t.m.data, t.m.hdr.readOff, t.m.hdr.writeOff, a);
  }

  lemma {:induction false} AckWalkStops(d: seq<byte>, r: nat, w: nat, ack: u32)
    requires |d| == SIZE && r < SIZE && w < SIZE && Intact(d, r, w)
    requires Queue(d, AckWalk(d, r, w, ack), w) == []
    ensures AckWalk(d, r, w, ack) == w
    decreases Used(r, w)
  {
    if r != w {
      QueueStep(d, r, w);
      if IsPadAt(d, r) || SeqAt(d, r) <= ack {
        AckWalkStops(d, Wrap(r + d[r]), w, ack);
      }
    }
  }

  /** A lap of FRAMEs, an ack of all of them, and a second lap that stops short of the PAD. */
  function LapToPad(frame: Record, state: Record, lap1: nat, lap2: nat, states: nat): (ops: seq<Op>) {
    Repeat(Append(frame), lap1) + ([Acknowledge(2519)]
    + (Repeat(Append(frame), 1) + (Repeat(Append(frame), lap2) + Repeat(Append(state), states))))
  }

  /** The ring just after the first lap was acknowledged and one more FRAME went in behind a PAD. */
  lemma FirstLap(t0: Tally, frame: Record, lap1: nat) returns (t: Tally)
    requires IsRecord(frame) && |frame| == FRAME_LEN
    requires Invariant(t0) && t0.m.hdr.readOff == t0.m.hdr.writeOff == 0 && t0.m.hdr.nextSeq == 1
    requires lap1 == 2519
    ensures (forall op :: op in Repeat(Append(frame), lap1) ==> LegalOp(op))
    ensures t == Apply(Apply(Run(t0, Repeat(Append(frame), lap1)), Acknowledge(2519)), Append(frame))
    ensures Invariant(t)
    ensures t.m.hdr.readOff == 65494 && t.m.hdr.writeOff == 26 && t.m.hdr.nextSeq == 2521
    ensures t.m.data[65494] == 10 && t.m.data[65495] == REC_PAD
  {
    var f1 := Repeat(Append(frame), lap1);
    var a := Run(t0, f1);
    var b := Apply(a, Acknowledge(2519));
    t := Apply(b, Append(frame));
    hide Run, Repeat, Consistent, Tidy, Pending, AppendRaw;
    LapAcknowledged(t0, frame, f1, lap1);
    StepKeepsInvariant(b, Append(frame));
    PadGoesIn(b.m, frame);
  }

  lemma LapAcknowledged(t0: Tally, frame: Record, f1: seq<Op>, lap1: nat)
    requires Invariant(t0) && t0.m.hdr.readOff == t0.m.hdr.writeOff == 0 && t0.m.hdr.nextSeq == 1
    requires IsRecord(frame) && |frame| == FRAME_LEN
    requires lap1 == 2519 && f1 == Repeat(Append(frame), lap1)
    ensures var b := Apply(Run(t0, f1), Acknowledge(2519));
            Invariant(b) && b.m.hdr.readOff == b.m.hdr.writeOff == 65494 && b.m.hdr.nextSeq == 2520
  {
    hide Run, Repeat;
    FillRun(t0, frame, lap1);
    RunConserves(t0, f1);
    var a := Run(t0, f1);
    StepKeepsInvariant(a, Acknowledge(2519));
    AckEverything(a, 2519);
  }

  lemma PadGoesIn(m: Memory, frame: Record)
    requires IsRecord(frame) && |frame| == FRAME_LEN
    requires WellSized(m) && m.hdr.readOff == m.hdr.writeOff == 65494
    ensures var m' := AppendRaw(m, frame);
            && m'.hdr.readOff == 65494 && m'.hdr.writeOff == 26
            && m'.data[65494] == 10 && m'.data[65495] == REC_PAD
  {
    assert PadBytes(10) == [10, REC_PAD];
    var pd := PaddedData(m, 26);
    assert pd[65494] == 10 && pd[65495] == REC_PAD;
    assert Evict(m, 26) == (65494, 0);
  }

  /** From an empty ring the firmware's own operations reach a ring in which appending one more
      FRAME overruns the unsealed PAD. */
  lemma UnsealedPadIsReachable(data: seq<byte>, frame: Record, state: Record, lap1: nat, lap2: nat, states: nat) returns (v: Tally)
    requires IsRecord(frame) && |frame| == FRAME_LEN && IsRecord(state) && |state| == STATE_LEN
    requires |data| == SIZE && lap1 == 2519 && lap2 == 2516 && states == 2
    ensures forall op :: op in LapToPad(frame, state, lap1, lap2, states) ==> LegalOp(op)
    ensures v == Run(Fresh(data), LapToPad(frame, state, lap1, lap2, states))
    ensures Invariant(v) && OverrunsUnsealedPad(v.m, |frame|)
  {
    FreshIsInvariant(data);
    var t := FirstLap(Fresh(data), frame, lap1);
    v := SecondLap(t, frame, state, lap2, states);
    hide Run, Repeat, Apply, OverrunsUnsealedPad, Invariant;
    LapsCompose(Fresh(data), frame, Repeat(Append(frame), lap1), Repeat(Append(frame), lap2), Repeat(Append(state), states));
  }

  lemma SecondLap(t: Tally, frame: Record, state: Record, lap2: nat, states: nat) returns (v: Tally)
    requires IsRecord(frame) && |frame| == FRAME_LEN && IsRecord(state) && |state| == STATE_LEN
    requires lap2 == 2516 && states == 2
    requires Invariant(t) && t.m.hdr.readOff == 65494 && t.m.hdr.writeOff == 26 && t.m.hdr.nextSeq == 2521
    requires t.m.data[65494] == 10 && t.m.data[65495] == REC_PAD
    ensures forall op :: op in Repeat(Append(frame), lap2) ==> LegalOp(op)
    ensures forall op :: op in Repeat(Append(state), states) ==> LegalOp(op)
    ensures v == Run(Run(t, Repeat(Append(frame), lap2)), Repeat(Append(state), states))
    ensures Invariant(v) && OverrunsUnsealedPad(v.m, |frame|)
  {
    var u := Refill(t, frame, lap2, 65416);
    hide Repeat;
    v := Refill(u, state, states, 28);
    PadOverrun(v.m);
  }

  lemma Refill(t: Tally, rec: Record, n: nat, bytes: nat) returns (u: Tally)
    requires bytes == n * |rec|
    requires Invariant(t) && IsRecord(rec) && t.m.hdr.nextSeq + n < TWO_TO_32
    requires t.m.hdr.writeOff + bytes < t.m.hdr.readOff
    ensures (forall op :: op in Repeat(Append(rec), n) ==> LegalOp(op)) && u == Run(t, Repeat(Append(rec), n))
    ensures Invariant(u)
    ensures u.m.hdr.readOff == t.m.hdr.readOff && u.m.hdr.writeOff == t.m.hdr.writeOff + bytes
    ensures u.m.hdr.nextSeq == t.m.hdr.nextSeq + n
    ensures forall i :: t.m.hdr.readOff <= i < SIZE ==> u.m.data[i] == t.m.data[i]
  {
    u := Run(t, Repeat(Append(rec), n));
    assert WellSized(t.m);
    hide Run, Repeat, Invariant, Appends;
    FillRun(t, rec, n);
    RunConserves(t, Repeat(Append(rec), n));
  }

  lemma PadOverrun(m: Memory)
    requires WellSized(m) && m.hdr.readOff == 65494 && m.hdr.writeOff == 65470
    requires m.data[65494] == 10 && m.data[65495] == REC_PAD
    ensures OverrunsUnsealedPad(m, 26)
  {
    assert MakeRoom(m.data, 65494, 65470, 26) == MakeRoom(m.data, 0, 65470, 26);
  }

  lemma LapsCompose(t0: Tally, frame: Record, f1: seq<Op>, f2: seq<Op>, g: seq<Op>)
    requires WellSized(t0.m) && IsRecord(frame)
    requires (forall op :: op in f1 ==> LegalOp(op)) && (forall op :: op in f2 ==> LegalOp(op)) && (forall op :: op in g ==> LegalOp(op))
    ensures var one := Repeat(Append(frame), 1);
            var ops := f1 + ([Acknowledge(2519)] + (one + (f2 + g)));
            && (forall op :: op in ops ==> LegalOp(op))
            && Run(t0, ops)
               == Run(Run(Apply(Apply(Run(t0, f1), Acknowledge(2519)), Append(frame)), f2), g)
  {
    var one := Repeat(Append(frame), 1);
    var k: seq<Op> := [Acknowledge(2519)];
    RunConcat(t0, f1, k + (one + (f2 + g)));
    var a := Run(t0, f1);
    RunConcat(a, k, one + (f2 + g));
    assert one == [Append(frame)];
    var b := Apply(a, k[0]);
    assert Run(a, k) == b;
    RunConcat(b, one, f2 + g);
    assert Run(b, one) == Apply(b, one[0]);
    RunConcat(Apply(b, one[0]), f2, g);
  }
}
