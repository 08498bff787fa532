/** The archive stream is a valid ZIP of what was streamed, as long as it was promised to be. */
module ArchiveProofs {
  import opened Bytes
  import opened Zip
  import opened Archive
  import Crc32

  lemma AtEnd(z: seq<byte>, s: seq<byte>)
    ensures At(z + s, |z|, s)
  {
  }

  // ----- what lies on the wire --------------------------------------------

  /** Where entry `i`'s data starts, and the data itself. */
  function Body(es: seq<Entry>, i: nat): nat
    requires i < |es|
  {
    Start(es, i) + 30 + |es[i].name|
  }

  function DataOn(es: seq<Entry>, wire: seq<byte>, i: nat): seq<byte>
    requires i < |es| && Body(es, i) + es[i].size as nat <= |wire|
  {
    wire[Body(es, i)..Body(es, i) + es[i].size as nat]
  }

  /** Entry `i` lies whole on the wire: header, data, descriptor with the data's CRC. */
  predicate EntryOn(es: seq<Entry>, wire: seq<byte>, i: nat)
    requires i < |es|
  {
    && Start(es, i + 1) <= |wire|
    && At(wire, Start(es, i), Local(es[i].name))
    && At(wire, Body(es, i) + es[i].size as nat, Descriptor(Crc(DataOn(es, wire, i)), es[i].size))
  }

  /** So does its directory header, pointing back at it. */
  predicate HeaderOn(es: seq<Entry>, wire: seq<byte>, i: nat)
    requires i < |es| && Start(es, i + 1) <= |wire|
  {
    At(wire, Start(es, |es|) + Dir(es, i),
       Central(es[i].name, Crc(DataOn(es, wire, i)), es[i].size, Start(es, i) % TWO_TO_32))
  }

  lemma {:induction false} StartGrows(es: seq<Entry>, i: nat, j: nat)
    requires i <= j <= |es|
    ensures Start(es, i) <= Start(es, j) && Dir(es, i) <= Dir(es, j)
    decreases j
  {
    if i < j {
      StartGrows(es, i, j - 1);
    }
  }

  lemma EntryEnds(es: seq<Entry>, i: nat)
    requires i < |es|
    ensures Start(es, i + 1) == Body(es, i) + es[i].size as nat + 16 <= Start(es, |es|)
    ensures Dir(es, i + 1) == Dir(es, i) + 46 + |es[i].name| <= Dir(es, |es|)
  {
    StartGrows(es, i + 1, |es|);
  }

  lemma DataGrows(es: seq<Entry>, wire: seq<byte>, more: seq<byte>, i: nat)
    requires i < |es| && Start(es, i + 1) <= |wire|
    ensures Body(es, i) + es[i].size as nat <= |wire|
    ensures DataOn(es, wire + more, i) == DataOn(es, wire, i)
  {
  }

  lemma EntryGrows(es: seq<Entry>, wire: seq<byte>, more: seq<byte>, i: nat)
    requires i < |es| && EntryOn(es, wire, i)
    ensures EntryOn(es, wire + more, i)
  {
    DataGrows(es, wire, more, i);
    hide At, DataOn, Local, Descriptor, Crc;
    AtGrows(wire, more, Start(es, i), Local(es[i].name));
    AtGrows(wire, more, Body(es, i) + es[i].size as nat, Descriptor(Crc(DataOn(es, wire, i)), es[i].size));
  }

  lemma HeaderGrows(es: seq<Entry>, wire: seq<byte>, more: seq<byte>, i: nat)
    requires i < |es| && Start(es, i + 1) <= |wire| && HeaderOn(es, wire, i)
    ensures HeaderOn(es, wire + more, i)
  {
    DataGrows(es, wire, more, i);
    hide At, DataOn, Central, Crc;
    AtGrows(wire, more, Start(es, |es|) + Dir(es, i),
            Central(es[i].name, Crc(DataOn(es, wire, i)), es[i].size, Start(es, i) % TWO_TO_32));
  }

  // ----- the reader accepts it --------------------------------------------

  function MemberOn(es: seq<Entry>, wire: seq<byte>, i: nat): Member
    requires i < |es| && Start(es, i + 1) <= |wire|
  {
    EntryEnds(es, i);
    Member(es[i].name, DataOn(es, wire, i))
  }

  /** The members from `i` on. */
  function MembersOn(es: seq<Entry>, wire: seq<byte>, i: nat): seq<Member>
    requires i <= |es| && Start(es, |es|) <= |wire|
    decreases |es| - i
  {
    if i == |es| then []
    else
      StartGrows(es, i + 1, |es|);
      [MemberOn(es, wire, i)] + MembersOn(es, wire, i + 1)
  }

  /** The directory's pointer leads to the member it describes. */
  lemma ReadsEntry(es: seq<Entry>, wire: seq<byte>, i: nat)
    requires i < |es| && EntryOn(es, wire, i)
    ensures Start(es, i + 1) <= |wire| && Body(es, i) + es[i].size as nat <= |wire|
    ensures ReadLocal(wire, Start(es, i), es[i].name, Crc(DataOn(es, wire, i)), es[i].size)
            == Some(DataOn(es, wire, i))
  {
    EntryEnds(es, i);
    var data := DataOn(es, wire, i);
    assert At(wire, Body(es, i), data);
    hide At, Local, Descriptor, Crc, Start, DataOn, ReadLocal;
    ReadsLocal(wire, Start(es, i), es[i].name, data, es[i].size);
  }

  predicate AllOn(es: seq<Entry>, wire: seq<byte>) {
    && |wire| == Total(es)
    && (forall i :: 0 <= i < |es| ==> EntryOn(es, wire, i) && HeaderOn(es, wire, i))
  }

  lemma EntryAt(es: seq<Entry>, wire: seq<byte>, i: nat)
    requires i < |es| && AllOn(es, wire)
    ensures EntryOn(es, wire, i) && |wire| == Start(es, |es|) + Dir(es, |es|) + 22
    ensures Start(es, i + 1) <= |wire| && Body(es, i) + es[i].size as nat <= |wire|
    ensures At(wire, Start(es, |es|) + Dir(es, i),
               Central(es[i].name, Crc(DataOn(es, wire, i)), es[i].size, Start(es, i) % TWO_TO_32))
    ensures MemberOn(es, wire, i) == Member(es[i].name, DataOn(es, wire, i))
  {
    hide At, Local, Central, Descriptor, Crc, DataOn, Start, Dir;
    EntryEnds(es, i);
    assert EntryOn(es, wire, i);
    assert HeaderOn(es, wire, i);
  }

  lemma AllLength(es: seq<Entry>, wire: seq<byte>)
    requires AllOn(es, wire)
    ensures |wire| == Start(es, |es|) + Dir(es, |es|) + 22 == Total(es)
    ensures Start(es, 0) == Dir(es, 0) == 0
  {
    hide EntryOn, HeaderOn;
  }

  lemma {:induction false} ReadsDirectory(es: seq<Entry>, wire: seq<byte>, i: nat)
    requires i <= |es| && AllOn(es, wire) && Start(es, |es|) < TWO_TO_32
    ensures |wire| == Total(es)
    ensures ReadDirectory(wire, Start(es, |es|) + Dir(es, i), |es| - i, |wire| - 22)
            == Some(MembersOn(es, wire, i))
    decreases |es| - i
  {
    hide AllOn, ReadHeader, Start, Dir, MemberOn;
    AllLength(es, wire);
    if i < |es| {
      ReadsDirectory(es, wire, i + 1);
      ReadsHeaderOf(es, wire, i);
    }
  }

  lemma SmallMod(es: seq<Entry>, i: nat)
    requires i < |es| && Start(es, |es|) < TWO_TO_32
    ensures Start(es, i) % TWO_TO_32 == Start(es, i) < 0x1_0000_0000
  {
    StartGrows(es, i, |es|);
  }

  lemma ReadsHeaderOf(es: seq<Entry>, wire: seq<byte>, i: nat)
    requires i < |es| && AllOn(es, wire) && Start(es, |es|) < TWO_TO_32
    ensures |wire| == Total(es) && Start(es, i + 1) <= Start(es, |es|)
    ensures ReadHeader(wire, Start(es, |es|) + Dir(es, i), |wire| - 22)
            == Some(Found(MemberOn(es, wire, i), Start(es, |es|) + Dir(es, i + 1)))
  {
    hide *;
    var e, pos := es[i], Start(es, |es|) + Dir(es, i);
    AllLength(es, wire);
    EntryEnds(es, i);
    EntryAt(es, wire, i);
    ReadsEntry(es, wire, i);
    SmallMod(es, i);
    ReadsHeader(wire, pos, |wire| - 22, e.name, Crc(DataOn(es, wire, i)), e.size, Start(es, i), DataOn(es, wire, i));
  }

  /** A whole archive reads back exactly when the directory offset fits its 32-bit field. */
  lemma ReadsBack(es: seq<Entry>, wire: seq<byte>)
    requires |es| <= MAX_ENTRIES && AllOn(es, wire)
    requires At(wire, Start(es, |es|) + Dir(es, |es|),
                End(|es|, DirSize(es), Start(es, |es|) % TWO_TO_32))
    ensures Start(es, |es|) <= |wire|
    ensures Read(wire).Some? <==> Start(es, |es|) < TWO_TO_32
    ensures Start(es, |es|) < TWO_TO_32 ==> Read(wire) == Some(MembersOn(es, wire, 0))
  {
    hide At, End, Read, ReadDirectory, MembersOn, AllOn, Start, Dir, EntryOn, HeaderOn;
    AllLength(es, wire);
    if Start(es, |es|) < TWO_TO_32 {
      ReadsDirectory(es, wire, 0);
    }
    ReadsEnd(wire, |es|, DirSize(es), Start(es, |es|) % TWO_TO_32);
  }

  // ----- the stream's invariant -------------------------------------------

  /** Entry `i` lies on the wire and its CRC was latched. */
  predicate Latched(es: seq<Entry>, wire: seq<byte>, crc: u32, i: nat)
    requires i < |es|
  {
    EntryOn(es, wire, i) && crc == Crc(DataOn(es, wire, i))
  }

  predicate Listed(es: seq<Entry>, wire: seq<byte>, i: nat)
    requires i < |es|
  {
    Start(es, i + 1) <= |wire| && HeaderOn(es, wire, i)
  }

  predicate EntriesOn(es: seq<Entry>, wire: seq<byte>, crcs: seq<u32>, n: nat)
    requires n <= |es| == |crcs|
  {
    forall i :: 0 <= i < n ==> Latched(es, wire, crcs[i], i)
  }

  predicate HeadersOn(es: seq<Entry>, wire: seq<byte>, n: nat)
    requires n <= |es|
  {
    forall i :: 0 <= i < n ==> Listed(es, wire, i)
  }

  /** The promises made when the archive was armed. */
  predicate Armed(s: Stream) {
    && Ready(s)
    && (forall i :: 0 <= i < |s.entries| ==> s.offsets[i] == Start(s.entries, i) % TWO_TO_32)
    && s.cdOffset == Start(s.entries, |s.entries|) % TWO_TO_32
    && s.cdSize == Dir(s.entries, |s.entries|)
  }

  /** How much has been sent, phase by phase. */
  function Position(s: Stream): int
    requires Ready(s) && s.active
  {
    var es := s.entries;
    match s.phase
    case LocalHeader => Start(es, s.idx)
    case FileData => Body(es, s.idx) + es[s.idx].size as nat - s.remaining as nat
    case DataDescriptor => Body(es, s.idx) + es[s.idx].size as nat
    case CentralDir => Start(es, |es|) + Dir(es, s.idx)
    case Eocd => Start(es, |es|) + Dir(es, |es|)
  }

  function EntriesDone(s: Stream): (n: nat)
    requires Ready(s) && s.active
    ensures n <= |s.entries|
  {
    if s.phase == CentralDir || s.phase == Eocd then |s.entries| else s.idx
  }

  function HeadersDone(s: Stream): (n: nat)
    requires Ready(s) && s.active
    ensures n <= |s.entries|
  {
    if s.phase == CentralDir then s.idx else if s.phase == Eocd then |s.entries| else 0
  }

  /** The data of the entry now being sent, as far as it has gone. */
  function SoFar(s: Stream): seq<byte>
    requires Ready(s) && s.active && s.phase == FileData && Body(s.entries, s.idx) <= |s.wire|
  {
    s.wire[Body(s.entries, s.idx)..]
  }

  predicate Current(s: Stream)
    requires Ready(s) && s.active && |s.wire| == Position(s)
  {
    var es := s.entries;
    match s.phase
    case FileData =>
      && s.remaining <= es[s.idx].size
      && At(s.wire, Start(es, s.idx), Local(es[s.idx].name))
      && s.crc == Crc32.Update(0xFFFF_FFFF, Words(SoFar(s)))
    case DataDescriptor =>
      && At(s.wire, Start(es, s.idx), Local(es[s.idx].name))
      && s.crcs[s.idx] == Crc(DataOn(es, s.wire, s.idx))
    case _ => true
  }

  predicate Whole(s: Stream)
    requires |s.entries| <= MAX_ENTRIES
  {
    var es := s.entries;
    && AllOn(es, s.wire)
    && At(s.wire, Start(es, |es|) + Dir(es, |es|), End(|es|, DirSize(es), Start(es, |es|) % TWO_TO_32))
  }

  predicate Inv(s: Stream) {
    && Armed(s)
    && if s.active then
         && |s.wire| == Position(s)
         && EntriesOn(s.entries, s.wire, s.crcs, EntriesDone(s))
         && HeadersOn(s.entries, s.wire, HeadersDone(s))
         && Current(s)
       else |s.wire| < Total(s.entries) || Whole(s)
  }

  lemma LatchedGrows(es: seq<Entry>, wire: seq<byte>, more: seq<byte>, crc: u32, i: nat)
    requires i < |es| && Latched(es, wire, crc, i)
    ensures Latched(es, wire + more, crc, i)
  {
    EntryGrows(es, wire, more, i);
    DataGrows(es, wire, more, i);
  }

  lemma EntriesGrow(es: seq<Entry>, wire: seq<byte>, more: seq<byte>, crcs: seq<u32>, n: nat)
    requires n <= |es| == |crcs| && EntriesOn(es, wire, crcs, n)
    ensures EntriesOn(es, wire + more, crcs, n)
  {
    hide Latched;
    forall i | 0 <= i < n ensures Latched(es, wire + more, crcs[i], i) {
      LatchedGrows(es, wire, more, crcs[i], i);
    }
  }

  lemma ListedGrows(es: seq<Entry>, wire: seq<byte>, more: seq<byte>, i: nat)
    requires i < |es| && Listed(es, wire, i)
    ensures Listed(es, wire + more, i)
  {
    HeaderGrows(es, wire, more, i);
  }

  lemma HeadersGrow(es: seq<Entry>, wire: seq<byte>, more: seq<byte>, n: nat)
    requires n <= |es| && HeadersOn(es, wire, n)
    ensures HeadersOn(es, wire + more, n)
  {
    hide Listed;
    forall i | 0 <= i < n ensures Listed(es, wire + more, i) {
      ListedGrows(es, wire, more, i);
    }
  }

  /** The descriptor completes its entry. */
  lemma EntryJoins(es: seq<Entry>, wire: seq<byte>, crc: u32, i: nat)
    requires i < |es| && |wire| == Body(es, i) + es[i].size as nat
    requires At(wire, Start(es, i), Local(es[i].name)) && crc == Crc(DataOn(es, wire, i))
    ensures Latched(es, wire + Descriptor(crc, es[i].size), crc, i)
  {
    var more := Descriptor(crc, es[i].size);
    EntryEnds(es, i);
    AtGrows(wire, more, Start(es, i), Local(es[i].name));
    AtEnd(wire, more);
    assert DataOn(es, wire + more, i) == DataOn(es, wire, i);
    hide At, Local, Descriptor, Crc, DataOn, Start;
  }

  /** The directory header joins its entry. */
  lemma HeaderJoins(es: seq<Entry>, wire: seq<byte>, crc: u32, offset: u32, i: nat)
    requires i < |es| && |wire| == Start(es, |es|) + Dir(es, i) && Latched(es, wire, crc, i)
    requires offset == Start(es, i) % TWO_TO_32
    ensures Listed(es, wire + Central(es[i].name, crc, es[i].size, offset), i)
  {
    hide At, Central, Crc, DataOn, Start, Dir;
    var more := Central(es[i].name, crc, es[i].size, offset);
    DataGrows(es, wire, more, i);
    AtEnd(wire, more);
  }

  // ----- one phase at a time ----------------------------------------------

  /** The state a whole send leads to. */
  function Done(s: Stream, t: Tick, disk: seq<seq<byte>>): Stream
    requires Ready(s) && s.active && |disk| == |s.entries|
  {
    Next(s, t, disk).(wire := s.wire + Buffer(s, t.rd))
  }

  lemma LocalHeaderKeeps(s: Stream, t: Tick, disk: seq<seq<byte>>)
    requires Inv(s) && s.active && s.phase == LocalHeader && |disk| == |s.entries|
    ensures Inv(Done(s, t, disk))
  {
    var es, r := s.entries, Done(s, t, disk);
    EntriesGrow(es, s.wire, Buffer(s, t.rd), s.crcs, s.idx);
    AtEnd(s.wire, Buffer(s, t.rd));
    hide At, Local, EntriesOn, Start, Dir, Crc, DataOn;
    assert SoFar(r) == [];
    assert Words([]) == [];
  }

  lemma DataKeeps(s: Stream, t: Tick, disk: seq<seq<byte>>)
    requires Inv(s) && s.active && s.phase == FileData && s.remaining > 0 && |disk| == |s.entries|
    ensures Inv(Done(s, t, disk))
  {
    var es, buf, r := s.entries, Chunk(s, t.rd), Done(s, t, disk);
    EntriesGrow(es, s.wire, buf, s.crcs, s.idx);
    AtGrows(s.wire, buf, Start(es, s.idx), Local(es[s.idx].name));
    hide At, Local, EntriesOn, Start, Dir, Crc, DataOn, Chunk;
    assert SoFar(r) == SoFar(s) + buf;
    WordsConcat(SoFar(s), buf);
    hide Words;
    Crc32.UpdateConcat(0xFFFF_FFFF, Words(SoFar(s)), Words(buf));
    hide Crc32.Update;
  }

  lemma DataDoneKeeps(s: Stream, t: Tick, disk: seq<seq<byte>>)
    requires Inv(s) && s.active && s.phase == FileData && s.remaining == 0 && |disk| == |s.entries|
    ensures Inv(Done(s, t, disk))
  {
    var es, r := s.entries, Done(s, t, disk);
    assert r.wire == s.wire;
    hide At, Local, Start, Dir, EntryOn, Words, Closed;
    assert SoFar(s) == DataOn(es, s.wire, s.idx);
  }

  lemma EntryLatched(es: seq<Entry>, wire: seq<byte>, crcs: seq<u32>, i: nat)
    requires i < |es| == |crcs| && EntriesOn(es, wire, crcs, |es|)
    ensures Latched(es, wire, crcs[i], i)
  {
  }

  lemma EntriesExtend(es: seq<Entry>, wire: seq<byte>, crcs: seq<u32>, n: nat)
    requires n < |es| == |crcs| && EntriesOn(es, wire, crcs, n) && Latched(es, wire, crcs[n], n)
    ensures EntriesOn(es, wire, crcs, n + 1)
  {
    hide Latched;
  }

  lemma HeadersExtend(es: seq<Entry>, wire: seq<byte>, n: nat)
    requires n < |es| && HeadersOn(es, wire, n) && Listed(es, wire, n)
    ensures HeadersOn(es, wire, n + 1)
  {
    hide Listed;
  }

  lemma NoHeaders(es: seq<Entry>, wire: seq<byte>)
    ensures Start(es, 0) == Dir(es, 0) == 0 && HeadersOn(es, wire, 0)
  {
  }

  lemma DescriptorKeeps(s: Stream, t: Tick, disk: seq<seq<byte>>)
    requires Inv(s) && s.active && s.phase == DataDescriptor && |disk| == |s.entries|
    ensures Inv(Done(s, t, disk))
  {
    hide At, Local, Central, Descriptor, Crc, DataOn, Words, Start, Dir, EntryOn, HeaderOn, Latched, Listed,
         EntriesOn, HeadersOn;
    var es, buf := s.entries, Buffer(s, t.rd);
    EntryEnds(es, s.idx);
    EntriesGrow(es, s.wire, buf, s.crcs, s.idx);
    EntryJoins(es, s.wire, s.crcs[s.idx], s.idx);
    EntriesExtend(es, s.wire + buf, s.crcs, s.idx);
    NoHeaders(es, s.wire + buf);
  }

  lemma CentralKeeps(s: Stream, t: Tick, disk: seq<seq<byte>>)
    requires Inv(s) && s.active && s.phase == CentralDir && |disk| == |s.entries|
    ensures Inv(Done(s, t, disk))
  {
    hide At, Local, Central, Descriptor, Crc, DataOn, Words, Start, Dir, EntryOn, HeaderOn, Latched, Listed,
         EntriesOn, HeadersOn;
    var es, buf := s.entries, Buffer(s, t.rd);
    EntryEnds(es, s.idx);
    EntriesGrow(es, s.wire, buf, s.crcs, |es|);
    HeadersGrow(es, s.wire, buf, s.idx);
    EntryLatched(es, s.wire, s.crcs, s.idx);
    HeaderJoins(es, s.wire, s.crcs[s.idx], s.offsets[s.idx], s.idx);
    HeadersExtend(es, s.wire + buf, s.idx);
  }

  lemma AllJoin(es: seq<Entry>, wire: seq<byte>, crcs: seq<u32>)
    requires |crcs| == |es| && |wire| == Total(es)
    requires EntriesOn(es, wire, crcs, |es|) && HeadersOn(es, wire, |es|)
    ensures AllOn(es, wire)
  {
    hide EntryOn, HeaderOn, Total, DataOn;
    forall i | 0 <= i < |es| ensures EntryOn(es, wire, i) && Start(es, i + 1) <= |wire| && HeaderOn(es, wire, i) {
      assert Latched(es, wire, crcs[i], i) && Listed(es, wire, i);
    }
  }

  lemma EocdKeeps(s: Stream, t: Tick, disk: seq<seq<byte>>)
    requires Inv(s) && s.active && s.phase == Eocd && |disk| == |s.entries|
    ensures Inv(Done(s, t, disk)) && Whole(Done(s, t, disk))
  {
    var es, buf := s.entries, Buffer(s, t.rd);
    EntriesGrow(es, s.wire, buf, s.crcs, |es|);
    HeadersGrow(es, s.wire, buf, |es|);
    AtEnd(s.wire, buf);
    hide At, End, Start, Dir, EntriesOn, HeadersOn, AllOn;
    AllJoin(es, s.wire + buf, s.crcs);
  }

  lemma DoneKeepsInv(s: Stream, t: Tick, disk: seq<seq<byte>>)
    requires Inv(s) && s.active && |disk| == |s.entries|
    ensures Inv(Done(s, t, disk))
  {
    hide Inv, Done;
    match s.phase
    case LocalHeader => LocalHeaderKeeps(s, t, disk);
    case FileData => if s.remaining == 0 { DataDoneKeeps(s, t, disk); } else { DataKeeps(s, t, disk); }
    case DataDescriptor => DescriptorKeeps(s, t, disk);
    case CentralDir => CentralKeeps(s, t, disk);
    case Eocd => EocdKeeps(s, t, disk);
  }

  /** What is still to be sent covers what the phase sends; only the end record sends the last of it. */
  lemma BufferFits(s: Stream, rd: int)
    requires Inv(s) && s.active
    ensures |s.wire| + |Buffer(s, rd)| <= Total(s.entries)
    ensures |s.wire| < Total(s.entries)
    ensures Buffer(s, rd) == [] <==> s.phase == FileData && s.remaining == 0
  {
    var es := s.entries;
    if s.phase != Eocd {
      EntryEnds(es, s.idx);
    }
    hide EntriesOn, HeadersOn, Start, Dir, Local, Central, Descriptor, End, Chunk, At, Words, Crc, DataOn;
  }

  lemma ServiceKeepsInv(s: Stream, t: Tick, disk: seq<seq<byte>>)
    requires Inv(s) && |disk| == |s.entries|
    ensures Inv(Service(s, t, disk))
  {
    if s.active {
      BufferFits(s, t.rd);
      DoneKeepsInv(s, t, disk);
      if t.timedOut || t.accepted < |Buffer(s, t.rd)| {
        ShortKeeps(s, Service(s, t, disk));
      } else {
        hide Inv, Buffer, Next;
      }
    }
  }

  lemma ShortKeeps(s: Stream, r: Stream)
    requires Inv(s) && r == s.(active := false, file := Shut, wire := r.wire) && |r.wire| < Total(s.entries)
    ensures Inv(r)
  {
    hide Total, EntriesOn, HeadersOn, Current, Position, Whole;
  }

  lemma ArmInv(es: seq<Entry>)
    requires |es| <= MAX_ENTRIES
    ensures Inv(Arm(es))
  {
    assert Start(es, 0) == 0 && Dir(es, 0) == 0;
    hide Start, Dir;
  }
}
