/** The telemetry ring as a value: a header line plus a circular record area. */
module Ring {
  import opened Bytes

  const SIZE: nat := 65504           // kDataSize
  const MAGIC: u32 := 0x47365452     // 'G6TR'
  const VERSION: byte := 2
  const NO_ACK: u32 := 0xFFFF_FFFF
  const FLAG_EVENTS: byte := 1

  const REC_PAD: byte := 0
  const REC_CMD: byte := 1
  const REC_FRAME: byte := 2
  const REC_STATE: byte := 3
  const HEADER_LEN: nat := 10        // len, type, seq, t_us
  const CMD_LEN_MAX: nat := 21
  const FRAME_LEN: nat := 26
  const STATE_LEN: nat := 14
  const RECORD_LEN_MAX: nat := 26

  datatype Header = Header(
    magic: u32, ver: byte, flags: byte, reserved: u16,
    writeOff: u32, readOff: u32, nextSeq: u32, dropped: u32, bootCount: u32, checksum: u32)

  /** One copy of the ring region: what the cache holds, or what a reset leaves behind. */
  datatype Memory = Memory(hdr: Header, data: seq<byte>)

  type Record = seq<byte>

  // ----- header -----------------------------------------------------------

  function ComputeCheck(h: Header): u32 {
    (h.magic + (h.ver + 0x100 * h.flags + 0x1_0000 * h.reserved)
     + h.writeOff + h.readOff + h.nextSeq + h.dropped + h.bootCount) % TWO_TO_32
  }

  function Sealed(h: Header): Header {
    h.(checksum := ComputeCheck(h))
  }

  predicate ValidHeader(h: Header) {
    && h.magic == MAGIC && h.ver == VERSION
    && h.checksum == ComputeCheck(h)
    && h.writeOff < SIZE && h.readOff < SIZE
    && h.nextSeq != 0
  }

  // ----- cursors and record shapes ----------------------------------------

  function Used(r: nat, w: nat): (n: nat)
    requires r < SIZE && w < SIZE
    ensures n < SIZE
  {
    if w >= r then w - r else SIZE - r + w
  }

  function Free(r: nat, w: nat): nat
    requires r < SIZE && w < SIZE
  {
    SIZE - 1 - Used(r, w)
  }

  function Wrap(end: nat): (off: nat)
    requires end <= SIZE
    ensures off < SIZE
  {
    if end == SIZE then 0 else end
  }

  /** Per-type shape of a record of `len` bytes with type byte `t` and plen byte `p`. */
  predicate Shape(s: Record) {
    && 0 < |s| < 0x100 && s[0] == |s|
    && if |s| < HEADER_LEN then |s| == 1 || s[1] == REC_PAD
       else if s[1] == REC_PAD then true
       else if s[1] == REC_CMD then HEADER_LEN + 3 <= |s| <= CMD_LEN_MAX && s[12] == |s| - (HEADER_LEN + 3)
       else if s[1] == REC_FRAME then |s| == FRAME_LEN
       else s[1] == REC_STATE && |s| == STATE_LEN
  }

  predicate IsPad(s: Record)
    requires |s| > 0
  {
    |s| < HEADER_LEN || s[1] == REC_PAD
  }

  predicate IsRecord(s: Record) {
    Shape(s) && !IsPad(s)
  }

  function SeqOf(s: Record): u32
    requires |s| >= 6
  {
    Get32(s[2..6])
  }

  predicate IsPadAt(d: seq<byte>, off: nat)
    requires off < |d| && off + d[off] <= |d|
  {
    d[off] < HEADER_LEN || d[off + 1] == REC_PAD
  }

  predicate WellFormedAt(d: seq<byte>, off: nat, w: nat)
    requires |d| == SIZE && off < SIZE
  {
    var len := d[off];
    var end := off + len;
    if len == 0 then false
    else if end > SIZE then false
    else if off < w && end > w then false
    else if len < HEADER_LEN then len == 1 || d[off + 1] == REC_PAD
    else if d[off + 1] == REC_PAD then true
    else if d[off + 1] == REC_CMD then
      HEADER_LEN + 3 <= len <= CMD_LEN_MAX && d[off + 12] == len - (HEADER_LEN + 3)
    else if d[off + 1] == REC_FRAME then len == FRAME_LEN
    else d[off + 1] == REC_STATE && len == STATE_LEN
  }

  // ----- the chain of records ---------------------------------------------

  /** Where the walk read_off -> write_off stops: `w`, or the first malformed record. */
  function Stop(d: seq<byte>, off: nat, w: nat): (s: nat)
    requires |d| == SIZE && off < SIZE && w < SIZE
    ensures s < SIZE
    decreases Used(off, w)
  {
    if off == w || !WellFormedAt(d, off, w) then off
    else Stop(d, Wrap(off + d[off]), w)
  }

  /** The records (PADs included) met on that walk. */
  function Chain(d: seq<byte>, off: nat, w: nat): (c: seq<Record>)
    requires |d| == SIZE && off < SIZE && w < SIZE
    decreases Used(off, w)
  {
    if off == w || !WellFormedAt(d, off, w) then []
    else [d[off..off + d[off]]] + Chain(d, Wrap(off + d[off]), w)
  }

  predicate Intact(d: seq<byte>, off: nat, w: nat)
    requires |d| == SIZE && off < SIZE && w < SIZE
  {
    Stop(d, off, w) == w
  }

  /** Drop the PADs. */
  function Records(c: seq<Record>): (q: seq<Record>) {
    if c == [] then []
    else if |c[0]| == 0 || IsPad(c[0]) then Records(c[1..])
    else [c[0]] + Records(c[1..])
  }

  function Queue(d: seq<byte>, r: nat, w: nat): seq<Record>
    requires |d| == SIZE && r < SIZE && w < SIZE
  {
    Records(Chain(d, r, w))
  }

  predicate WellSized(m: Memory) {
    |m.data| == SIZE && m.hdr.readOff < SIZE && m.hdr.writeOff < SIZE
  }

  /** The abstract value of a ring: its unacknowledged records, oldest first. */
  function Pending(m: Memory): seq<Record>
    requires WellSized(m)
  {
    Queue(m.data, m.hdr.readOff, m.hdr.writeOff)
  }

  /** What every operation keeps. */
  predicate Consistent(m: Memory) {
    && WellSized(m)
    && ValidHeader(m.hdr)
    && Intact(m.data, m.hdr.readOff, m.hdr.writeOff)
  }

  // ----- operations as functions ------------------------------------------

  /** makeRoom: the new read_off and the number of records evicted. */
  function MakeRoom(d: seq<byte>, r: nat, w: nat, need: nat): (res: (nat, nat))
    requires |d| == SIZE && r < SIZE && w < SIZE && need <= SIZE - 0x100
    ensures res.0 < SIZE
    decreases Used(r, w)
  {
    if Free(r, w) >= need then (r, 0)
    else
      var len := d[r];
      if len == 0 || r + len > SIZE then (w, 0)
      else
        var rest := MakeRoom(d, Wrap(r + len), w, need);
        (rest.0, rest.1 + if IsPadAt(d, r) then 0 else 1)
  }


  /** PAD bytes written when the tail cannot hold the record. */
  function PadBytes(tail: nat): (s: seq<byte>)
    requires 0 < tail < 0x100
  {
    if tail >= 2 then [tail, REC_PAD] else [tail]
  }

  function StampSeq(rec: Record, q: u32): (s: Record)
    requires |rec| >= 6
    ensures |s| == |rec|
  {
    rec[..2] + Put32(q) + rec[6..]
  }

  /** seq of the record about to be appended: 0 and 0xFFFFFFFF are never issued. */
  function IssuedSeq(h: Header): (q: u32) {
    if h.nextSeq == 0 || h.nextSeq == 0xFFFF_FFFF then 1 else h.nextSeq
  }

  function Tail(h: Header): nat
    requires h.writeOff < SIZE
  {
    SIZE - h.writeOff
  }

  /** Bytes an append of `len` bytes takes: the PAD is part of the bill. */
  function Need(h: Header, len: nat): nat
    requires h.writeOff < SIZE
  {
    if Tail(h) < len then Tail(h) + len else len
  }

  /** Where the record itself goes. */
  function Slot(h: Header, len: nat): (o: nat)
    requires h.writeOff < SIZE
    ensures len < SIZE ==> o + len <= SIZE
  {
    if Tail(h) < len then 0 else h.writeOff
  }

  function Evict(m: Memory, len: nat): (res: (nat, nat))
    requires WellSized(m) && len <= RECORD_LEN_MAX
    ensures res.0 < SIZE
  {
    MakeRoom(m.data, m.hdr.readOff, m.hdr.writeOff, Need(m.hdr, len))
  }

  /** The header while the record bytes are written: evictions published if any were counted. */
  function EvictedHeader(m: Memory, len: nat): Header
    requires WellSized(m) && len <= RECORD_LEN_MAX
  {
    var ev := Evict(m, len);
    var h := m.hdr.(readOff := ev.0);
    if ev.1 > 0 then Sealed(h.(dropped := (m.hdr.dropped + ev.1) % TWO_TO_32)) else h
  }

  function PaddedData(m: Memory, len: nat): (d: seq<byte>)
    requires WellSized(m) && len <= RECORD_LEN_MAX
    ensures |d| == SIZE
  {
    if Tail(m.hdr) < len then Splice(m.data, m.hdr.writeOff, PadBytes(Tail(m.hdr))) else m.data
  }

  /** appendRaw. */
  function AppendRaw(m: Memory, rec: Record): (m': Memory)
    requires WellSized(m) && IsRecord(rec)
    ensures WellSized(m')
  {
    var h := EvictedHeader(m, |rec|);
    var w := Slot(m.hdr, |rec|);
    var q := IssuedSeq(m.hdr);
    Memory(Sealed(h.(writeOff := Wrap(w + |rec|), nextSeq := q + 1)),
           Splice(PaddedData(m, |rec|), w, StampSeq(rec, q)))
  }

  function SeqAt(d: seq<byte>, off: nat): u32
    requires off + 6 <= |d|
  {
    Get32(d[off + 2..off + 6])
  }

  /** ack's walk: past PADs and past every record with seq <= ack. */
  function AckWalk(d: seq<byte>, off: nat, w: nat, ack: u32): (r: nat)
    requires |d| == SIZE && off < SIZE && w < SIZE
    ensures r < SIZE
    decreases Used(off, w)
  {
    if off == w || !WellFormedAt(d, off, w) then off
    else if !IsPadAt(d, off) && SeqAt(d, off) > ack then off
    else AckWalk(d, Wrap(off + d[off]), w, ack)
  }

  function Ack(m: Memory, ack: u32): (m': Memory)
    requires WellSized(m)
    ensures WellSized(m')
  {
    if ack == NO_ACK || ack >= m.hdr.nextSeq then m
    else
      var off := AckWalk(m.data, m.hdr.readOff, m.hdr.writeOff, ack);
      if off == m.hdr.readOff then m else Memory(Sealed(m.hdr.(readOff := off)), m.data)
  }

  /** What peek hands back: record bytes, their count, the first one's seq (0 if none), and the
      cursor where copying stopped. */
  datatype Peeked = Peeked(bytes: seq<byte>, count: nat, first: u32, stop: nat)

  function PeekWalk(d: seq<byte>, off: nat, w: nat, budget: nat): (p: Peeked)
    requires |d| == SIZE && off < SIZE && w < SIZE
    decreases Used(off, w)
  {
    if off == w || !WellFormedAt(d, off, w) then Peeked([], 0, 0, off)
    else
      var next := Wrap(off + d[off]);
      if IsPadAt(d, off) then PeekWalk(d, next, w, budget)
      else if d[off] > budget then Peeked([], 0, 0, off)
      else
        var rest := PeekWalk(d, next, w, budget - d[off]);
        Peeked(d[off..off + d[off]] + rest.bytes, rest.count + 1, SeqAt(d, off), rest.stop)
  }

  function Peek(m: Memory, budget: nat): Peeked
    requires WellSized(m)
  {
    PeekWalk(m.data, m.hdr.readOff, m.hdr.writeOff, budget)
  }

  function WithEvents(flags: byte, on: bool): byte {
    flags - flags % 2 + if on then FLAG_EVENTS else 0
  }

  /** hdr->flags updated and sealed: the header half of configure. */
  function SetEvents(m: Memory, on: bool): Memory {
    m.(hdr := Sealed(m.hdr.(flags := WithEvents(m.hdr.flags, on))))
  }

  function InitHeader(): Header {
    Sealed(Header(MAGIC, VERSION, FLAG_EVENTS, 0, 0, 0, 1, 0, 0, 0))
  }

  /** begin: keep a valid ring, cut at its first malformed record, or start afresh. */
  function Boot(m: Memory): (m': Memory)
    requires |m.data| == SIZE
    ensures WellSized(m')
  {
    if ValidHeader(m.hdr) then
      m.(hdr := Sealed(m.hdr.(
        writeOff := Stop(m.data, m.hdr.readOff, m.hdr.writeOff),
        bootCount := (m.hdr.bootCount + 1) % TWO_TO_32,
        flags := WithEvents(m.hdr.flags, true))))
    else
      m.(hdr := InitHeader())
  }
}
