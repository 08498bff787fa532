/** Whole archive runs: what the client can read, how much it gets, whose bytes they are, and that it ends. */
module ArchiveRuns {
  import opened Bytes
  import opened Zip
  import opened Archive
  import opened ArchiveProofs
  import Crc32

  lemma {:induction false} RunKeepsInv(s: Stream, ticks: seq<Tick>, disk: seq<seq<byte>>)
    requires Inv(s) && |disk| == |s.entries|
    ensures Inv(Run(s, ticks, disk))
  {
    if ticks != [] {
      var n := |ticks| - 1;
      RunKeepsInv(s, ticks[..n], disk);
      ServiceKeepsInv(Run(s, ticks[..n], disk), ticks[n], disk);
      hide Inv, Service;
    }
  }

  // ----- validity and length ----------------------------------------------

  /** The stream ran to its end: the end record went out whole. */
  predicate Complete(s: Stream) {
    !s.active && |s.wire| == Total(s.entries)
  }

  lemma SentAtMost(s: Stream)
    requires Inv(s)
    ensures |s.entries| <= MAX_ENTRIES
    ensures |s.wire| <= Total(s.entries) && Start(s.entries, |s.entries|) <= Total(s.entries)
    ensures Complete(s) ==> Whole(s)
    ensures s.cdOffset == Start(s.entries, |s.entries|) % TWO_TO_32 && s.cdSize == Dir(s.entries, |s.entries|)
  {
    if s.active {
      BufferFits(s, 0);
    } else {
      AllTotal(s);
    }
    hide Buffer, AllOn, EntriesOn, HeadersOn, Current, Position;
  }

  lemma AllTotal(s: Stream)
    requires |s.entries| <= MAX_ENTRIES
    ensures Whole(s) ==> |s.wire| == Total(s.entries)
  {
    hide At, EntryOn, HeaderOn, End;
  }

  lemma CompleteReads(r: Stream)
    requires Inv(r) && Complete(r)
    ensures var es := r.entries;
            && Start(es, |es|) <= |r.wire|
            && (Read(r.wire).Some? <==> Start(es, |es|) < TWO_TO_32)
            && (Start(es, |es|) < TWO_TO_32 ==> Read(r.wire) == Some(MembersOn(es, r.wire, 0)))
  {
    hide Inv, Read, AllOn, Start, Dir, MembersOn, At, End;
    SentAtMost(r);
    ReadsBack(r.entries, r.wire);
  }

  /** A complete stream reads back as a ZIP of every entry, name and streamed bytes, exactly when the
      directory's offset fits its 32-bit field. */
  lemma StreamIsValidZip(es: seq<Entry>, ticks: seq<Tick>, disk: seq<seq<byte>>)
    requires |es| == |disk| <= MAX_ENTRIES && Complete(Run(Arm(es), ticks, disk))
    ensures var z := Run(Arm(es), ticks, disk).wire;
            && Start(es, |es|) <= |z|
            && (Read(z).Some? <==> Start(es, |es|) < TWO_TO_32)
            && (Start(es, |es|) < TWO_TO_32 ==> Read(z) == Some(MembersOn(es, z, 0)))
  {
    ArmInv(es);
    RunKeepsInv(Arm(es), ticks, disk);
    hide Inv, Complete, Read, Start, MembersOn, Run;
    CompleteReads(Run(Arm(es), ticks, disk));
  }

  lemma WrapsOrNot(x: nat)
    ensures x % TWO_TO_32 == x <==> x < TWO_TO_32
  {
  }

  lemma PromiseFits(es: seq<Entry>)
    requires |es| <= MAX_ENTRIES
    ensures Promise(Arm(es)) == Total(es) <==> Start(es, |es|) < TWO_TO_32
    ensures es == [] ==> Promise(Arm(es)) == 22
  {
    if es == [] {
      NoHeaders(es, []);
    }
    WrapsOrNot(Start(es, |es|));
    hide Start, Dir;
  }

  /** The promise, made before a byte is read, is what a complete stream sends, exactly when it fits;
      no stream, complete or not, sends more than the archive holds. */
  lemma LengthAsPromised(es: seq<Entry>, ticks: seq<Tick>, disk: seq<seq<byte>>)
    requires |es| == |disk| <= MAX_ENTRIES
    ensures var r := Run(Arm(es), ticks, disk);
            && |r.wire| <= Total(es)
            && (Start(es, |es|) < TWO_TO_32 ==> |r.wire| <= Promise(Arm(es)))
            && (Complete(r) ==> (|r.wire| == Promise(Arm(es)) <==> Start(es, |es|) < TWO_TO_32))
    ensures es == [] ==> Promise(Arm(es)) == 22
  {
    ArmInv(es);
    RunKeepsInv(Arm(es), ticks, disk);
    SentAtMost(Run(Arm(es), ticks, disk));
    PromiseFits(es);
    hide Run, Inv, Promise, Start, Total, Whole;
  }

  /** One file of 4 GB less a byte is enough to break both promises. */
  lemma OversizedLibrary(es: seq<Entry>)
    requires |es| == 1 && es[0].size == 0xFFFF_FFFF
    ensures Start(es, |es|) >= TWO_TO_32 && Promise(Arm(es)) < 400 < Total(es)
  {
    assert Start(es, 0) == Dir(es, 0) == 0;
    assert Start(es, 1) == 30 + |es[0].name| + 0xFFFF_FFFF + 16;
    assert Dir(es, 1) == 46 + |es[0].name|;
  }

  // ----- termination ------------------------------------------------------

  function Measure(s: Stream): nat {
    if s.active && |s.wire| <= Total(s.entries)
    then 2 * (Total(s.entries) - |s.wire|) + if s.phase == FileData then 1 else 0
    else 0
  }

  /** Every call sends something, ends the run, or leaves the data phase. */
  lemma ServiceDecreases(s: Stream, t: Tick, disk: seq<seq<byte>>)
    requires Inv(s) && s.active && |disk| == |s.entries|
    ensures Measure(Service(s, t, disk)) < Measure(s)
    ensures !t.timedOut && t.accepted >= CHUNK && !Service(s, t, disk).active ==> Complete(Service(s, t, disk))
  {
    hide Total;
    BufferFits(s, t.rd);
    hide Inv;
    if s.phase == Eocd {
      EocdKeeps(s, t, disk);
      hide Buffer;
      assert Whole(Done(s, t, disk));
      AllTotal(Done(s, t, disk));
      hide Whole;
    } else {
      PhaseMoves(s, t, disk);
      hide Buffer, Next;
    }
  }

  /** A run that ends has sent everything exactly when its last call neither timed out nor stalled. */
  lemma EndsComplete(s: Stream, t: Tick, disk: seq<seq<byte>>)
    requires Inv(s) && s.active && |disk| == |s.entries| && !Service(s, t, disk).active
    ensures |Service(s, t, disk).wire| == Total(s.entries) <==> !t.timedOut && t.accepted >= |Buffer(s, t.rd)|
  {
    hide Total;
    BufferFits(s, t.rd);
    hide Inv;
    if s.phase == Eocd {
      EocdKeeps(s, t, disk);
      hide Buffer;
      assert Whole(Done(s, t, disk));
      AllTotal(Done(s, t, disk));
      hide Whole;
    } else {
      PhaseMoves(s, t, disk);
      hide Buffer, Next;
    }
  }

  lemma PhaseMoves(s: Stream, t: Tick, disk: seq<seq<byte>>)
    requires Ready(s) && s.active && s.phase != Eocd && |disk| == |s.entries|
    ensures Next(s, t, disk).active
    ensures s.phase == FileData && s.remaining == 0 ==> Next(s, t, disk).phase != FileData
  {
    hide Chunk, Closed;
  }

  lemma {:induction false} RunDecreases(s: Stream, ticks: seq<Tick>, disk: seq<seq<byte>>)
    requires Inv(s) && |disk| == |s.entries|
    ensures var r := Run(s, ticks, disk); r.active ==> Measure(r) + |ticks| <= Measure(s)
    ensures s.active && (forall t :: t in ticks ==> !t.timedOut && t.accepted >= CHUNK)
            ==> var r := Run(s, ticks, disk); r.active || Complete(r)
  {
    if ticks != [] {
      var n := |ticks| - 1;
      var q := Run(s, ticks[..n], disk);
      RunKeepsInv(s, ticks[..n], disk);
      RunDecreases(s, ticks[..n], disk);
      hide Inv, Complete, Measure;
      if q.active {
        ServiceDecreases(q, ticks[n], disk);
      }
    }
  }

  /** Every run ends within a bound known from the sizes; if no send stalls and no deadline passes, with the
      whole archive sent. */
  lemma StreamEnds(es: seq<Entry>, ticks: seq<Tick>, disk: seq<seq<byte>>)
    requires |es| == |disk| <= MAX_ENTRIES && |ticks| >= 2 * Total(es)
    ensures var r := Run(Arm(es), ticks, disk);
            && !r.active
            && ((forall t :: t in ticks ==> !t.timedOut && t.accepted >= CHUNK) ==> Complete(r))
  {
    ArmInv(es);
    RunKeepsInv(Arm(es), ticks, disk);
    RunDecreases(Arm(es), ticks, disk);
    var r := Run(Arm(es), ticks, disk);
    if r.active {
      BufferFits(r, 0);
    }
    hide Run, Inv, Total, Complete, Buffer;
  }

  // ----- whose bytes ------------------------------------------------------

  /** Content up to some point, zeros from there on; when every read delivers, content throughout. */
  predicate Copy(data: seq<byte>, content: seq<byte>, healthy: bool) {
    if healthy then data <= content
    else exists k :: 0 <= k <= |data| && CopyTo(data, content, k)
  }

  predicate CopyTo(data: seq<byte>, content: seq<byte>, k: nat)
    requires k <= |data|
  {
    k <= |content| && data[..k] == content[..k] && data[k..] == Zeros(|data| - k)
  }

  predicate Delivers(t: Tick) {
    t.openOk && t.rd > 0
  }

  /** The file in hand is the entry's, read as far as the data has gone. */
  predicate InHand(file: File, sofar: seq<byte>, content: seq<byte>, healthy: bool) {
    && Copy(sofar, content, healthy)
    && (file.Open? ==> file.content == content && file.pos == |sofar| <= |content| && sofar == content[..file.pos])
    && (healthy ==> file.Open?)
  }

  predicate CopiesOn(es: seq<Entry>, wire: seq<byte>, disk: seq<seq<byte>>, n: nat, healthy: bool)
    requires n <= |es| == |disk|
  {
    forall i :: 0 <= i < n ==> CopyOn(es, wire, disk, i, healthy)
  }

  predicate CopyOn(es: seq<Entry>, wire: seq<byte>, disk: seq<seq<byte>>, i: nat, healthy: bool)
    requires i < |es| == |disk|
  {
    Body(es, i) + es[i].size as nat <= |wire| && Copy(DataOn(es, wire, i), disk[i], healthy)
  }

  predicate Faithful(s: Stream, disk: seq<seq<byte>>, healthy: bool)
    requires Inv(s) && |disk| == |s.entries|
  {
    if s.active then
      && CopiesOn(s.entries, s.wire, disk, EntriesDone(s), healthy)
      && (s.phase == FileData ==> InHand(s.file, SoFar(s), disk[s.idx], healthy))
      && (s.phase == DataDescriptor ==> CopyOn(s.entries, s.wire, disk, s.idx, healthy))
    else Complete(s) ==> CopiesOn(s.entries, s.wire, disk, |s.entries|, healthy)
  }

  lemma CopiesGrow(es: seq<Entry>, wire: seq<byte>, more: seq<byte>, disk: seq<seq<byte>>, n: nat, healthy: bool)
    requires n <= |es| == |disk| && CopiesOn(es, wire, disk, n, healthy)
    ensures CopiesOn(es, wire + more, disk, n, healthy)
  {
    hide CopyOn;
    forall i | 0 <= i < n ensures CopyOn(es, wire + more, disk, i, healthy) {
      CopyGrows(es, wire, more, disk, i, healthy);
    }
  }

  lemma CopyGrows(es: seq<Entry>, wire: seq<byte>, more: seq<byte>, disk: seq<seq<byte>>, i: nat, healthy: bool)
    requires i < |es| == |disk| && CopyOn(es, wire, disk, i, healthy)
    ensures CopyOn(es, wire + more, disk, i, healthy)
  {
    hide Copy;
    assert DataOn(es, wire + more, i) == DataOn(es, wire, i);
  }

  /** What a chunk adds keeps the data a copy, and the file in step with it. */
  lemma ChunkCopies(s: Stream, rd: int, sofar: seq<byte>, content: seq<byte>, healthy: bool)
    requires Ready(s) && s.remaining > 0 && InHand(s.file, sofar, content, healthy)
    requires healthy ==> rd > 0 && |sofar| + s.remaining as nat <= |content|
    ensures InHand(AfterChunk(s, rd).file, sofar + Chunk(s, rd), content, healthy)
  {
    var got := Got(s.file, Min(s.remaining, CHUNK), rd);
    var buf := Chunk(s, rd);
    hide Copy;
    if got > 0 {
      ContentCopies(content, s.file.pos, got, healthy);
    } else {
      assert !healthy && buf == Zeros(|buf|);
      ZerosCopy(sofar, content, buf);
    }
  }

  /** Content behind content. */
  lemma ContentCopies(content: seq<byte>, pos: nat, got: nat, healthy: bool)
    requires pos + got <= |content|
    ensures content[..pos] + content[pos..pos + got] == content[..pos + got]
    ensures Copy(content[..pos + got], content, healthy)
  {
    assert content[..pos] + content[pos..pos + got] == content[..pos + got];
    assert CopyTo(content[..pos + got], content, pos + got);
  }

  /** Zeros behind a copy that may end in zeros. */
  lemma ZerosCopy(sofar: seq<byte>, content: seq<byte>, buf: seq<byte>)
    requires Copy(sofar, content, false) && buf == Zeros(|buf|)
    ensures Copy(sofar + buf, content, false)
  {
    var k :| 0 <= k <= |sofar| && CopyTo(sofar, content, k);
    assert (sofar + buf)[k..] == Zeros(|sofar| + |buf| - k);
    assert (sofar + buf)[..k] == sofar[..k];
    assert CopyTo(sofar + buf, content, k);
  }

  lemma HeaderKeepsFaithful(s: Stream, t: Tick, disk: seq<seq<byte>>, healthy: bool)
    requires Inv(s) && s.active && |disk| == |s.entries| && Faithful(s, disk, healthy) && s.phase == LocalHeader
    requires Inv(Done(s, t, disk)) && (healthy ==> Delivers(t))
    ensures Faithful(Done(s, t, disk), disk, healthy)
  {
    var r := Done(s, t, disk);
    CopiesGrow(s.entries, s.wire, Buffer(s, t.rd), disk, s.idx, healthy);
    hide CopiesOn, CopyOn, Local, Start;
    assert SoFar(r) == [];
    assert CopyTo([], disk[s.idx], 0);
  }

  lemma ChunkKeepsFaithful(s: Stream, t: Tick, disk: seq<seq<byte>>, healthy: bool)
    requires Inv(s) && s.active && |disk| == |s.entries| && Faithful(s, disk, healthy) && s.phase == FileData
    requires healthy ==> Delivers(t) && s.entries[s.idx].size as nat <= |disk[s.idx]|
    requires s.remaining > 0 && Inv(Done(s, t, disk))
    ensures Faithful(Done(s, t, disk), disk, healthy)
  {
    hide CopiesOn, CopyOn, Start, Chunk, EntriesOn, HeadersOn, At, Words, InHand, Crc32.Update, Local;
    var r, buf := Done(s, t, disk), Buffer(s, t.rd);
    CopiesGrow(s.entries, s.wire, buf, disk, s.idx, healthy);
    assert SoFar(r) == SoFar(s) + buf;
    assert |SoFar(s)| + s.remaining as nat == s.entries[s.idx].size as nat;
    hide SoFar, Inv;
    ChunkCopies(s, t.rd, SoFar(s), disk[s.idx], healthy);
  }

  lemma DataDoneKeepsFaithful(s: Stream, t: Tick, disk: seq<seq<byte>>, healthy: bool)
    requires Inv(s) && s.active && |disk| == |s.entries| && Faithful(s, disk, healthy) && s.phase == FileData
    requires s.remaining == 0 && Inv(Done(s, t, disk))
    ensures Faithful(Done(s, t, disk), disk, healthy)
  {
    hide CopiesOn, Start, EntriesOn, HeadersOn, At, Words, Crc32.Update, Local, Copy, Closed;
    var r := Done(s, t, disk);
    assert r.wire == s.wire && DataOn(s.entries, s.wire, s.idx) == SoFar(s);
  }

  lemma CopiesExtend(es: seq<Entry>, wire: seq<byte>, disk: seq<seq<byte>>, n: nat, healthy: bool)
    requires n < |es| == |disk| && CopiesOn(es, wire, disk, n, healthy) && CopyOn(es, wire, disk, n, healthy)
    ensures CopiesOn(es, wire, disk, n + 1, healthy)
  {
    hide CopyOn;
  }

  lemma DescriptorKeepsFaithful(s: Stream, t: Tick, disk: seq<seq<byte>>, healthy: bool)
    requires Inv(s) && s.active && |disk| == |s.entries| && Faithful(s, disk, healthy)
    requires s.phase != LocalHeader && s.phase != FileData && Inv(Done(s, t, disk))
    ensures Faithful(Done(s, t, disk), disk, healthy)
  {
    hide CopyOn, CopiesOn, Inv, Buffer, Complete;
    var buf := Buffer(s, t.rd);
    CopiesGrow(s.entries, s.wire, buf, disk, EntriesDone(s), healthy);
    if s.phase == DataDescriptor {
      CopyGrows(s.entries, s.wire, buf, disk, s.idx, healthy);
      CopiesExtend(s.entries, s.wire + buf, disk, s.idx, healthy);
    }
  }

  lemma ServiceKeepsFaithful(s: Stream, t: Tick, disk: seq<seq<byte>>, healthy: bool)
    requires Inv(s) && |disk| == |s.entries| && Faithful(s, disk, healthy)
    requires healthy ==> Delivers(t) && forall i :: 0 <= i < |disk| ==> s.entries[i].size as nat <= |disk[i]|
    ensures Inv(Service(s, t, disk)) && Faithful(Service(s, t, disk), disk, healthy)
  {
    ServiceKeepsInv(s, t, disk);
    if s.active {
      BufferFits(s, t.rd);
      if t.timedOut || t.accepted < |Buffer(s, t.rd)| {
        hide Inv, CopiesOn, CopyOn, InHand, Buffer;
      } else {
        DoneKeepsInv(s, t, disk);
        match s.phase
        case LocalHeader => HeaderKeepsFaithful(s, t, disk, healthy);
        case FileData =>
          if s.remaining > 0 {
            ChunkKeepsFaithful(s, t, disk, healthy);
          } else {
            DataDoneKeepsFaithful(s, t, disk, healthy);
          }
        case _ => DescriptorKeepsFaithful(s, t, disk, healthy);
        hide Inv, Faithful, Buffer, Next;
      }
    }
  }

  lemma {:induction false} RunKeepsFaithful(s: Stream, ticks: seq<Tick>, disk: seq<seq<byte>>, healthy: bool)
    requires Inv(s) && |disk| == |s.entries| && Faithful(s, disk, healthy)
    requires healthy ==> forall t :: t in ticks ==> Delivers(t)
    requires healthy ==> forall i :: 0 <= i < |disk| ==> s.entries[i].size as nat <= |disk[i]|
    ensures Inv(Run(s, ticks, disk)) && Faithful(Run(s, ticks, disk), disk, healthy)
  {
    if ticks != [] {
      var n := |ticks| - 1;
      RunKeepsFaithful(s, ticks[..n], disk, healthy);
      hide Inv, Faithful, Service, Delivers;
      ServiceKeepsFaithful(Run(s, ticks[..n], disk), ticks[n], disk, healthy);
    }
  }

  /** Every member is its file's content up to some point and zeros beyond it, whatever the reads did;
      when every open and read delivers and no file shrank, it is the content. */
  lemma MembersAreCopies(es: seq<Entry>, ticks: seq<Tick>, disk: seq<seq<byte>>, i: nat)
    requires |es| == |disk| <= MAX_ENTRIES && i < |es| && Complete(Run(Arm(es), ticks, disk))
    ensures var z := Run(Arm(es), ticks, disk).wire;
            var healthy := (forall t :: t in ticks ==> Delivers(t))
                           && (forall j :: 0 <= j < |es| ==> es[j].size as nat <= |disk[j]|);
            Body(es, i) + es[i].size as nat <= |z| && Copy(DataOn(es, z, i), disk[i], healthy)
  {
    ArmInv(es);
    var healthy := (forall t :: t in ticks ==> Delivers(t))
                   && (forall j :: 0 <= j < |es| ==> es[j].size as nat <= |disk[j]|);
    var r := Run(Arm(es), ticks, disk);
    ArmFaithful(es, disk, healthy);
    RunKeepsFaithful(Arm(es), ticks, disk, healthy);
    hide Run, Inv, Complete, Copy, Delivers;
    assert CopyOn(es, r.wire, disk, i, healthy);
  }

  lemma ArmFaithful(es: seq<Entry>, disk: seq<seq<byte>>, healthy: bool)
    requires |es| == |disk| <= MAX_ENTRIES && Inv(Arm(es))
    ensures Faithful(Arm(es), disk, healthy)
  {
    hide Inv, CopyOn, InHand;
  }
}
