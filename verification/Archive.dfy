/** The 0x8A archive stream: sizes and offsets are promised first, then one bounded send per loop() call. */
module Archive {
  import opened Bytes
  import opened Zip
  import Crc32

  const CHUNK: nat := 4096
  const MAX_ENTRIES: nat := 258

  /** A file as it was found when the archive was armed. */
  datatype Entry = Entry(name: Name, size: u32)

  /** What an archive is made of: the entries found when it was armed, and what each file holds when it is opened. */
  datatype Contents = Contents(entries: seq<Entry>, disk: seq<seq<byte>>)
  type Library = l: Contents | |l.entries| == |l.disk| <= MAX_ENTRIES witness Contents([], [])

  datatype Phase = LocalHeader | FileData | DataDescriptor | CentralDir | Eocd

  datatype File = Shut | Open(content: seq<byte>, pos: nat)

  /** The ar_* fields, and the raw bytes the transport has taken since the archive was armed. */
  datatype Stream = Stream(active: bool, phase: Phase, entries: seq<Entry>, offsets: seq<u32>, crcs: seq<u32>,
                           idx: nat, file: File, remaining: u32, crc: bv32, cdOffset: u32, cdSize: u32,
                           wire: seq<byte>)

  /** What one service call meets: the idle deadline, whether an open succeeds, what a read returns (not positive
      for an error), and how many bytes the transport takes before it stalls. */
  datatype Tick = Tick(timedOut: bool, openOk: bool, rd: int, accepted: nat)

  // ----- arming -----------------------------------------------------------

  /** Where entry `i` really starts. */
  function Start(es: seq<Entry>, i: nat): nat
    requires i <= |es|
  {
    if i == 0 then 0 else Start(es, i - 1) + 30 + |es[i - 1].name| + es[i - 1].size as nat + 16
  }

  /** How long the first `i` directory headers are. */
  function Dir(es: seq<Entry>, i: nat): nat
    requires i <= |es|
  {
    if i == 0 then 0 else Dir(es, i - 1) + 46 + |es[i - 1].name|
  }

  function Total(es: seq<Entry>): nat {
    Start(es, |es|) + Dir(es, |es|) + 22
  }

  lemma {:induction false} DirFits(es: seq<Entry>, i: nat)
    requires i <= |es|
    ensures Dir(es, i) <= 125 * i
  {
    if i > 0 {
      DirFits(es, i - 1);
    }
  }

  function DirSize(es: seq<Entry>): u32
    requires |es| <= MAX_ENTRIES
  {
    DirFits(es, |es|);
    Dir(es, |es|)
  }

  function Arm(es: seq<Entry>): Stream
    requires |es| <= MAX_ENTRIES
  {
    Stream(true, if |es| == 0 then Eocd else LocalHeader, es,
           seq(|es|, i requires 0 <= i < |es| => Start(es, i) % TWO_TO_32), seq(|es|, i => 0),
           0, Shut, 0, 0, Start(es, |es|) % TWO_TO_32, DirSize(es), [])
  }

  /** The 64-bit size sent up front. */
  function Promise(s: Stream): nat {
    s.cdOffset as nat + s.cdSize as nat + 22
  }

  // ----- one service call -------------------------------------------------

  predicate Ready(s: Stream) {
    && |s.offsets| == |s.crcs| == |s.entries| <= MAX_ENTRIES
    && (s.active && s.phase != Eocd ==> s.idx < |s.entries|)
    && (s.file.Open? ==> s.file.pos <= |s.file.content|)
  }

  function Abort(s: Stream): Stream {
    s.(active := false, file := Shut)
  }

  /** A whole send continues as `next`; a short one ends the transfer. */
  function Sent(s: Stream, buf: seq<byte>, accepted: nat, next: Stream): Stream {
    if accepted < |buf| then Abort(s.(wire := s.wire + buf[..accepted])) else next.(wire := s.wire + buf)
  }

  /** Bytes a read returns; 0 stands for an error too. */
  function Got(file: File, want: nat, rd: int): (n: nat)
    requires file.Open? ==> file.pos <= |file.content|
    ensures n <= want && (file.Open? ==> file.pos + n <= |file.content|) && (n > 0 ==> file.Open?)
  {
    if file.Shut? || rd <= 0 then 0 else Min(Min(rd, want), |file.content| - file.pos)
  }

  /** The next data to send: what the file yields, or zeros in its place. */
  function Chunk(s: Stream, rd: int): (r: seq<byte>)
    requires Ready(s) && s.remaining > 0
    ensures 0 < |r| <= Min(s.remaining, CHUNK)
  {
    var want := Min(s.remaining, CHUNK);
    var got := Got(s.file, want, rd);
    if got > 0 then s.file.content[s.file.pos..s.file.pos + got] else Zeros(want)
  }

  function AfterChunk(s: Stream, rd: int): (r: Stream)
    requires Ready(s) && s.remaining > 0
    ensures r == s.(crc := r.crc, remaining := r.remaining, file := r.file)
    ensures r.file.Open? ==> r.file.pos <= |r.file.content|
  {
    var buf := Chunk(s, rd);
    var got := Got(s.file, Min(s.remaining, CHUNK), rd);
    s.(crc := Crc32.Update(s.crc, Words(buf)), remaining := s.remaining as int - |buf|,
       file := if got > 0 then s.file.(pos := s.file.pos + got) else Shut)
  }

  /** What the phase sends; file data that has run out sends nothing. */
  function Buffer(s: Stream, rd: int): (r: seq<byte>)
    requires Ready(s) && s.active
    ensures |r| <= CHUNK
  {
    match s.phase
    case LocalHeader => Local(s.entries[s.idx].name)
    case FileData => if s.remaining == 0 then [] else Chunk(s, rd)
    case DataDescriptor => Descriptor(s.crcs[s.idx], s.entries[s.idx].size)
    case CentralDir => Central(s.entries[s.idx].name, s.crcs[s.idx], s.entries[s.idx].size, s.offsets[s.idx])
    case Eocd => End(|s.entries|, s.cdSize, s.cdOffset)
  }

  /** The fields after a whole send. `disk[i]` is what entry `i`'s file holds when it is opened. */
  function Next(s: Stream, t: Tick, disk: seq<seq<byte>>): (r: Stream)
    requires Ready(s) && s.active && |disk| == |s.entries|
    ensures Ready(r) && r.wire == s.wire
    ensures r.entries == s.entries && r.offsets == s.offsets && r.cdOffset == s.cdOffset && r.cdSize == s.cdSize
  {
    var last := s.idx + 1 == |s.entries|;
    match s.phase
    case LocalHeader =>
      s.(crc := 0xFFFF_FFFF, remaining := s.entries[s.idx].size, phase := FileData,
         file := if t.openOk then Open(disk[s.idx], 0) else Shut)
    case FileData =>
      if s.remaining == 0 then s.(file := Shut, crcs := s.crcs[s.idx := Closed(s.crc)], phase := DataDescriptor)
      else AfterChunk(s, t.rd)
    case DataDescriptor =>
      s.(idx := if last then 0 else s.idx + 1, phase := if last then CentralDir else LocalHeader)
    case CentralDir => s.(idx := s.idx + 1, phase := if last then Eocd else CentralDir)
    case Eocd => s.(active := false)
  }

  function Service(s: Stream, t: Tick, disk: seq<seq<byte>>): (r: Stream)
    requires Ready(s) && |disk| == |s.entries|
    ensures Ready(r) && s.wire <= r.wire
    ensures r.entries == s.entries && r.offsets == s.offsets && r.cdOffset == s.cdOffset && r.cdSize == s.cdSize
  {
    if !s.active then s
    else if t.timedOut then Abort(s)
    else Sent(s, Buffer(s, t.rd), t.accepted, Next(s, t, disk))
  }

  function Run(s: Stream, ticks: seq<Tick>, disk: seq<seq<byte>>): (r: Stream)
    requires Ready(s) && |disk| == |s.entries|
    ensures Ready(r) && r.entries == s.entries && r.offsets == s.offsets
    ensures r.cdOffset == s.cdOffset && r.cdSize == s.cdSize
  {
    if ticks == [] then s
    else
      var r := Run(s, ticks[..|ticks| - 1], disk);
      Service(r, ticks[|ticks| - 1], disk)
  }
}
