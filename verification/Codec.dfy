/** Records and block replies on the wire: what the firmware builds and what the host decodes. */
module Codec {
  import opened Bytes
  import opened Ring
  import opened RingProofs

  const BLOCK_HEADER_LEN: nat := 18
  const RECORD_BYTES_MAX: nat := 178
  const CMD_PAYLOAD_MAX: nat := 8

  // ----- firmware side: producers -----------------------------------------

  /** Record header with the seq still blank; appendRaw stamps it. */
  function RecordHead(len: byte, kind: byte, t: u32): (s: seq<byte>)
    ensures |s| == HEADER_LEN
  {
    [len, kind] + Put32(0) + Put32(t)
  }

  function BuildCmd(t: u32, cmd: byte, status: byte, req: seq<byte>): (s: Record) {
    var params := req[..Min(|req|, CMD_PAYLOAD_MAX)];
    RecordHead(HEADER_LEN + 3 + |params|, REC_CMD, t) + [cmd, status, |params|] + params
  }

  function BuildFrame(t: u32, idx: u16, pattern: u16, sdLoadUs: u32, spiUs: u32,
                      reqAgeUs: u32, superseded: byte, flags: byte): (s: Record) {
    RecordHead(FRAME_LEN, REC_FRAME, t) + Put16(idx) + Put16(pattern) + Put32(sdLoadUs)
    + Put16(Min(spiUs, 0xFFFF)) + Put32(reqAgeUs) + [superseded, flags]
  }

  function BuildState(t: u32, kind: byte, code: byte, arg: u16): (s: Record) {
    RecordHead(STATE_LEN, REC_STATE, t) + [kind, code] + Put16(arg)
  }

  // ----- host side: decoding ----------------------------------------------

  datatype Presentation = Presentation(reqAgeUs: u32, superseded: byte, flags: byte)

  datatype Payload =
    | CmdPayload(cmd: byte, status: byte, params: seq<byte>)
    | FramePayload(idx: u16, pattern: u16, sdLoadUs: u32, spiUs: u16, v2: Option<Presentation>, extra: seq<byte>)
    | StatePayload(kind: byte, code: byte, arg: u16)

  datatype Entry = Entry(kind: byte, seqNo: u32, tUs: u32, raw: seq<byte>, payload: Payload)

  /** _decode_payload: None where the host raises. */
  function DecodePayload(kind: byte, body: seq<byte>): Option<Payload> {
    if kind == REC_CMD then
      if |body| < 3 || |body| != 3 + body[2] as int then None
      else Some(CmdPayload(body[0], body[1], body[3..]))
    else if kind == REC_FRAME then
      if |body| < 10 then None
      else Some(FramePayload(
        Get16(body[0..2]), Get16(body[2..4]), Get32(body[4..8]), Get16(body[8..10]),
        if |body| >= 16 then Some(Presentation(Get32(body[10..14]), body[14], body[15])) else None,
        if |body| > 16 then body[16..] else []))
    else if kind == REC_STATE then
      if |body| != 4 then None
      else Some(StatePayload(body[0], body[1], Get16(body[2..4])))
    else None
  }

  /** The record at the front of `buf`: None for a split record, a PAD or a bad payload. */
  function FirstEntry(buf: seq<byte>): (r: Option<Entry>)
    requires buf != []
    ensures r.Some? ==> HEADER_LEN <= |r.value.raw| <= |buf|
  {
    var len := buf[0];
    if len < HEADER_LEN || len > |buf| || buf[1] == REC_PAD then None
    else
      var raw := buf[..len];
      match DecodePayload(raw[1], raw[HEADER_LEN..])
      case None => None
      case Some(p) => Some(Entry(raw[1], Get32(raw[2..6]), Get32(raw[6..10]), raw, p))
  }

  function Prefixed(out: seq<Entry>, rest: Option<seq<Entry>>): Option<seq<Entry>> {
    match rest
    case None => None
    case Some(r) => Some(out + r)
  }

  /** parse_records: strict, None wherever the host raises. */
  function ParseRecords(buf: seq<byte>): Option<seq<Entry>> {
    if buf == [] then Some([])
    else
      match FirstEntry(buf)
      case None => None
      case Some(e) => Prefixed([e], ParseRecords(buf[|e.raw|..]))
  }

  datatype BlockHeader = BlockHeader(tNowUs: u32, firstSeq: u32, nRecords: u16, dropped: u32, more: byte, flags: byte, bootCount: u16)

  function PutBlockHeader(h: BlockHeader): (s: seq<byte>)
    ensures |s| == BLOCK_HEADER_LEN
  {
    Put32(h.tNowUs) + Put32(h.firstSeq) + Put16(h.nRecords) + Put32(h.dropped) + [h.more, h.flags] + Put16(h.bootCount)
  }

  function GetBlockHeader(s: seq<byte>): BlockHeader
    requires |s| >= BLOCK_HEADER_LEN
  {
    BlockHeader(Get32(s[0..4]), Get32(s[4..8]), Get16(s[8..10]), Get32(s[10..14]), s[14], s[15], Get16(s[16..18]))
  }

  function ParseBlock(payload: seq<byte>): Option<(BlockHeader, seq<Entry>)> {
    if |payload| < BLOCK_HEADER_LEN then None
    else
      var h := GetBlockHeader(payload);
      match ParseRecords(payload[BLOCK_HEADER_LEN..])
      case None => None
      case Some(recs) =>
        if |recs| != h.nRecords then None
        else if recs != [] && recs[0].seqNo != h.firstSeq then None
        else if recs == [] && h.firstSeq != 0 then None
        else Some((h, recs))
  }

  /** parse_records as the host runs it. */
  method ParseRecordsLoop(buf: seq<byte>) returns (res: Option<seq<Entry>>)
    ensures res == ParseRecords(buf)
  {
    hide *;
    var out: seq<Entry> := [];
    var i := 0;
    assert buf[0..] == buf;
    PrefixedUnit(out, ParseRecords(buf));
    while i < |buf|
      invariant 0 <= i <= |buf|
      invariant ParseRecords(buf) == Prefixed(out, ParseRecords(buf[i..]))
    {
      var e := ReadEntry(buf, i);
      if e.None? {
        ParseFails(out, buf[i..]);
        return None;
      }
      ParseStep(out, buf, i, e.value);
      out := out + [e.value];
      i := i + |e.value.raw|;
    }
    ParseEnds(out, buf[i..]);
    return Some(out);
  }

  lemma ParseEnds(out: seq<Entry>, rest: seq<byte>)
    requires rest == []
    ensures Prefixed(out, ParseRecords(rest)) == Some(out)
  {
    PrefixedUnit(out, None);
  }

  lemma ParseFails(out: seq<Entry>, rest: seq<byte>)
    requires rest != [] && FirstEntry(rest) == None
    ensures Prefixed(out, ParseRecords(rest)) == None
  {
  }

  lemma ParseStep(out: seq<Entry>, buf: seq<byte>, i: nat, e: Entry)
    requires i < |buf| && FirstEntry(buf[i..]) == Some(e)
    ensures i + |e.raw| <= |buf| && e.raw != []
    ensures Prefixed(out, ParseRecords(buf[i..])) == Prefixed(out + [e], ParseRecords(buf[i + |e.raw|..]))
  {
    hide DecodePayload, FirstEntry, Prefixed;
    var rest := buf[i + |e.raw|..];
    assert buf[i..][|e.raw|..] == rest;
    PrefixedStep(out, e, ParseRecords(rest));
  }

  /** One turn of that loop: length, bounds, PAD and payload checks, in the host's order. */
  method ReadEntry(buf: seq<byte>, i: nat) returns (e: Option<Entry>)
    requires i < |buf|
    ensures e == FirstEntry(buf[i..])
  {
    var len := buf[i];
    if len < HEADER_LEN || i + len > |buf| {
      return None;
    }
    var raw := buf[i..i + len];
    assert raw == buf[i..][..len];
    if raw[1] == REC_PAD {
      return None;
    }
    var p := DecodePayload(raw[1], raw[HEADER_LEN..]);
    if p.None? {
      return None;
    }
    return Some(Entry(raw[1], Get32(raw[2..6]), Get32(raw[6..10]), raw, p.value));
  }

  lemma PrefixedUnit(out: seq<Entry>, rest: Option<seq<Entry>>)
    ensures Prefixed([], rest) == rest && Prefixed(out, Some([])) == Some(out)
  {
    assert rest.Some? ==> [] + rest.value == rest.value;
    assert out + [] == out;
  }

  lemma PrefixedStep(out: seq<Entry>, e: Entry, rest: Option<seq<Entry>>)
    ensures Prefixed(out, Prefixed([e], rest)) == Prefixed(out + [e], rest)
  {
    if rest.Some? {
      assert out + ([e] + rest.value) == (out + [e]) + rest.value;
    }
  }

  // ----- round trips ------------------------------------------------------

  /** A well-formed record always decodes. */
  lemma RecordDecodes(s: Record)
    requires IsRecord(s)
    ensures DecodePayload(s[1], s[HEADER_LEN..]).Some?
  {
    assert |s| >= 13 ==> s[HEADER_LEN..][2] == s[12];
  }

  function Decoded(s: Record): Entry
    requires IsRecord(s)
  {
    RecordDecodes(s);
    Entry(s[1], SeqOf(s), Get32(s[6..10]), s, DecodePayload(s[1], s[HEADER_LEN..]).value)
  }

  function DecodedAll(q: seq<Record>): (r: seq<Entry>)
    requires forall s :: s in q ==> IsRecord(s)
    ensures |r| == |q| && forall i :: 0 <= i < |q| ==> r[i] == Decoded(q[i])
  {
    seq(|q|, i requires 0 <= i < |q| => Decoded(q[i]))
  }

  /** Parsing inverts concatenation: no record is split, merged, reordered or lost. */
  lemma {:induction false} ParseFlatten(q: seq<Record>)
    requires forall s :: s in q ==> IsRecord(s)
    ensures ParseRecords(Flatten(q)) == Some(DecodedAll(q))
  {
    hide FirstEntry, Decoded, IsRecord, ParseRecords;
    if q == [] {
      EmptyParses();
    } else {
      assert Flatten(q) == q[0] + Flatten(q[1..]);
      ParseFlatten(q[1..]);
      ParseCons(q[0], Flatten(q[1..]));
      assert DecodedAll(q) == [Decoded(q[0])] + DecodedAll(q[1..]);
    }
  }

  lemma EmptyParses()
    ensures ParseRecords([]) == Some([])
  {
  }

  lemma FirstDecodes(s: Record, rest: seq<byte>)
    requires IsRecord(s)
    ensures s != [] && FirstEntry(s + rest) == Some(Decoded(s)) && Decoded(s).raw == s
  {
    RecordDecodes(s);
    var buf := s + rest;
    assert buf[..|s|] == s && buf[0] == s[0] && buf[1] == s[1];
    hide DecodePayload;
  }

  /** A record in front is parsed and taken off. */
  lemma ParseCons(s: Record, rest: seq<byte>)
    requires IsRecord(s)
    ensures ParseRecords(s + rest) == Prefixed([Decoded(s)], ParseRecords(rest))
  {
    FirstDecodes(s, rest);
    assert (s + rest)[|s|..] == rest;
    hide FirstEntry, IsRecord, Decoded;
  }

  lemma HeadFields(s: Record, len: byte, kind: byte, t: u32, q: u32, body: seq<byte>)
    requires s == RecordHead(len, kind, t) + body
    ensures var r := StampSeq(s, q);
            r[0] == len && r[1] == kind && r[2..6] == Put32(q) && r[6..10] == Put32(t) && r[HEADER_LEN..] == body
  {
    var r := StampSeq(s, q);
    assert r[6..10] == s[6..10] == Put32(t);
    assert r[HEADER_LEN..] == s[HEADER_LEN..] == body;
  }

  /** What a CMD record carries through ring, block and decoder. */
  lemma CmdRoundTrip(t: u32, cmd: byte, status: byte, req: seq<byte>, q: u32)
    ensures var s := BuildCmd(t, cmd, status, req);
            && IsRecord(s) && IsRecord(StampSeq(s, q))
            && Decoded(StampSeq(s, q))
               == Entry(REC_CMD, q, t, StampSeq(s, q), CmdPayload(cmd, status, req[..Min(|req|, CMD_PAYLOAD_MAX)]))
  {
    var params := req[..Min(|req|, CMD_PAYLOAD_MAX)];
    var body := [cmd, status, |params|] + params;
    var s := BuildCmd(t, cmd, status, req);
    assert s == RecordHead(HEADER_LEN + 3 + |params|, REC_CMD, t) + body;
    HeadFields(s, HEADER_LEN + 3 + |params|, REC_CMD, t, q, body);
    assert s[12] == body[2];
    StampKeepsShape(s, q);
    Get32Put32(t);
    assert body[3..] == params;
  }

  lemma StateRoundTrip(t: u32, kind: byte, code: byte, arg: u16, q: u32)
    ensures var s := BuildState(t, kind, code, arg);
            && IsRecord(s) && IsRecord(StampSeq(s, q))
            && Decoded(StampSeq(s, q)) == Entry(REC_STATE, q, t, StampSeq(s, q), StatePayload(kind, code, arg))
  {
    var body := [kind, code] + Put16(arg);
    var s := BuildState(t, kind, code, arg);
    assert s == RecordHead(STATE_LEN, REC_STATE, t) + body;
    HeadFields(s, STATE_LEN, REC_STATE, t, q, body);
    StampKeepsShape(s, q);
    Get32Put32(t);
    Get16Put16(arg);
    assert body[2..4] == Put16(arg);
  }

  function FrameBody(idx: u16, pattern: u16, sdLoadUs: u32, spi: u16, reqAgeUs: u32, superseded: byte, flags: byte): (b: seq<byte>)
    ensures |b| == 16
  {
    Put16(idx) + Put16(pattern) + Put32(sdLoadUs) + Put16(spi) + Put32(reqAgeUs) + [superseded, flags]
  }

  lemma FrameFields(idx: u16, pattern: u16, sdLoadUs: u32, spi: u16, reqAgeUs: u32, superseded: byte, flags: byte)
    ensures DecodePayload(REC_FRAME, FrameBody(idx, pattern, sdLoadUs, spi, reqAgeUs, superseded, flags))
            == Some(FramePayload(idx, pattern, sdLoadUs, spi, Some(Presentation(reqAgeUs, superseded, flags)), []))
  {
    hide Put16, Put32, Get16, Get32;
    var b := FrameBody(idx, pattern, sdLoadUs, spi, reqAgeUs, superseded, flags);
    assert b[0..2] == Put16(idx) && b[2..4] == Put16(pattern) && b[4..8] == Put32(sdLoadUs);
    assert b[8..10] == Put16(spi) && b[10..14] == Put32(reqAgeUs);
    Get16Put16(idx);
    Get16Put16(pattern);
    Get32Put32(sdLoadUs);
    Get16Put16(spi);
    Get32Put32(reqAgeUs);
  }

  lemma FrameLayout(t: u32, idx: u16, pattern: u16, sdLoadUs: u32, spiUs: u32, reqAgeUs: u32, superseded: byte, flags: byte)
    ensures BuildFrame(t, idx, pattern, sdLoadUs, spiUs, reqAgeUs, superseded, flags)
            == RecordHead(FRAME_LEN, REC_FRAME, t)
               + FrameBody(idx, pattern, sdLoadUs, Min(spiUs, 0xFFFF), reqAgeUs, superseded, flags)
  {
    hide Put16, Put32, RecordHead;
  }

  lemma FrameRoundTrip(t: u32, idx: u16, pattern: u16, sdLoadUs: u32, spiUs: u32,
                       reqAgeUs: u32, superseded: byte, flags: byte, q: u32)
    ensures var s := BuildFrame(t, idx, pattern, sdLoadUs, spiUs, reqAgeUs, superseded, flags);
            && IsRecord(s) && IsRecord(StampSeq(s, q))
            && Decoded(StampSeq(s, q))
               == Entry(REC_FRAME, q, t, StampSeq(s, q),
                        FramePayload(idx, pattern, sdLoadUs, Min(spiUs, 0xFFFF),
                                     Some(Presentation(reqAgeUs, superseded, flags)), []))
  {
    hide BuildFrame, FrameBody, DecodePayload, StampSeq, Put32, Get32;
    var body := FrameBody(idx, pattern, sdLoadUs, Min(spiUs, 0xFFFF), reqAgeUs, superseded, flags);
    var s := BuildFrame(t, idx, pattern, sdLoadUs, spiUs, reqAgeUs, superseded, flags);
    FrameLayout(t, idx, pattern, sdLoadUs, spiUs, reqAgeUs, superseded, flags);
    HeadFields(s, FRAME_LEN, REC_FRAME, t, q, body);
    StampKeepsShape(s, q);
    Get32Put32(t);
    Get32Put32(q);
    FrameFields(idx, pattern, sdLoadUs, Min(spiUs, 0xFFFF), reqAgeUs, superseded, flags);
  }

  // ----- GET_TELEMETRY_BLOCK ----------------------------------------------

  /** The reply handleGetTelemetryBlock builds, after the ack. */
  function BlockPayload(m: Memory, maxBytes: u16, now: u32, flags: byte): (s: seq<byte>)
    requires WellSized(m)
  {
    var p := Peek(m, Min(maxBytes, RECORD_BYTES_MAX));
    PutBlockHeader(BlockHeader(now, p.first, p.count % 0x1_0000, m.hdr.dropped,
                               if p.stop != m.hdr.writeOff then 1 else 0, flags, Min(m.hdr.bootCount, 0xFFFF)))
    + p.bytes
  }

  lemma HeaderRoundTrip(h: BlockHeader, rest: seq<byte>)
    ensures var s := PutBlockHeader(h) + rest;
            |s| >= BLOCK_HEADER_LEN && GetBlockHeader(s) == h && s[BLOCK_HEADER_LEN..] == rest
  {
    var s := PutBlockHeader(h) + rest;
    assert s[0..4] == Put32(h.tNowUs) && s[4..8] == Put32(h.firstSeq) && s[8..10] == Put16(h.nRecords);
    assert s[10..14] == Put32(h.dropped) && s[16..18] == Put16(h.bootCount);
    Get32Put32(h.tNowUs);
    Get32Put32(h.firstSeq);
    Get16Put16(h.nRecords);
    Get32Put32(h.dropped);
    Get16Put16(h.bootCount);
  }

  lemma {:induction false} FlattenCounts(q: seq<Record>)
    requires forall s :: s in q ==> IsRecord(s)
    ensures |Flatten(q)| >= HEADER_LEN * |q|
  {
    if q != [] {
      assert IsRecord(q[0]);
      FlattenCounts(q[1..]);
    }
  }

  lemma RecordIsLong(s: Record)
    requires IsRecord(s)
    ensures |s| >= HEADER_LEN
  {
  }

  lemma BlockParses(h: BlockHeader, q: seq<Record>)
    requires forall s :: s in q ==> IsRecord(s)
    requires h.nRecords == |q| && h.firstSeq == FirstSeq(q)
    ensures ParseBlock(PutBlockHeader(h) + Flatten(q)) == Some((h, DecodedAll(q)))
  {
    hide Flatten, ParseRecords, GetBlockHeader, PutBlockHeader, IsRecord, DecodedAll;
    HeaderRoundTrip(h, Flatten(q));
    ParseFlatten(q);
    if q != [] {
      assert DecodedAll(q)[0] == Decoded(q[0]);
      assert |q[0]| >= HEADER_LEN by { RecordIsLong(q[0]); }
    }
  }

  /** The records of a reply: what parse_block returns for it. */
  predicate Delivers(m: Memory, k: nat, payload: seq<byte>)
    requires WellSized(m) && forall s :: s in Pending(m) ==> IsRecord(s)
  {
    && k <= |Pending(m)|
    && (forall s :: s in Pending(m)[..k] ==> IsRecord(s))
    && ParseBlock(payload).Some?
    && var (h, recs) := ParseBlock(payload).value;
       && recs == DecodedAll(Pending(m)[..k])
       && h.more == (if k < |Pending(m)| then 1 else 0)
       && h.dropped == m.hdr.dropped
  }

  lemma DeliversParsed(m: Memory, k: nat, payload: seq<byte>, h: BlockHeader)
    requires WellSized(m) && forall s :: s in Pending(m) ==> IsRecord(s)
    requires k <= |Pending(m)|
    requires ParseBlock(payload) == Some((h, DecodedAll(Pending(m)[..k])))
    requires h.more == (if k < |Pending(m)| then 1 else 0) && h.dropped == m.hdr.dropped
    ensures Delivers(m, k, payload)
  {
    hide ParseBlock, Pending, IsRecord, DecodedAll;
  }

  /** Every reply is accepted by the host and decodes to the longest prefix of pending records that
      fits; `more` is set exactly when one is left over; the payload fits a framed response. */
  lemma BlockRoundTrip(m: Memory, maxBytes: u16, now: u32, flags: byte) returns (k: nat)
    requires Consistent(m)
    ensures forall s :: s in Pending(m) ==> IsRecord(s)
    ensures LongestFit(Pending(m), k, Min(maxBytes, RECORD_BYTES_MAX))
    ensures Delivers(m, k, BlockPayload(m, maxBytes, now, flags))
    ensures |BlockPayload(m, maxBytes, now, flags)| <= 196
    ensures maxBytes >= RECORD_LEN_MAX && Pending(m) != [] ==> k > 0
    ensures k == Peek(m, Min(maxBytes, RECORD_BYTES_MAX)).count
  {
    hide Peek, BlockPayload, PutBlockHeader, Pending, Flatten, ParseRecords, IsRecord;
    hide ParseBlock, Delivers, DecodedAll;
    assert WellSized(m);
    hide Consistent;
    k := PayloadLayout(m, maxBytes, now, flags);
    PendingAreRecords(m);
    if maxBytes >= RECORD_LEN_MAX && Pending(m) != [] {
      PeekMakesProgress(m, Min(maxBytes, RECORD_BYTES_MAX));
    }
    var q := Pending(m)[..k];
    FlattenCounts(q);
    var h := HeaderFor(m, k, now, flags);
    BlockParses(h, q);
    DeliversParsed(m, k, BlockPayload(m, maxBytes, now, flags), h);
  }

  lemma ReplyParses(m: Memory, maxBytes: u16, now: u32, flags: byte) returns (k: nat)
    requires Consistent(m)
    ensures k == Peek(m, Min(maxBytes, RECORD_BYTES_MAX)).count && k <= |Pending(m)|
    ensures forall s :: s in Pending(m)[..k] ==> IsRecord(s)
    ensures var payload := BlockPayload(m, maxBytes, now, flags);
            ParseBlock(payload).Some? && ParseBlock(payload).value.1 == DecodedAll(Pending(m)[..k])
  {
    k := BlockRoundTrip(m, maxBytes, now, flags);
    hide BlockPayload, Pending, Peek, ParseBlock, Consistent;
  }

  function HeaderFor(m: Memory, k: nat, now: u32, flags: byte): BlockHeader
    requires WellSized(m) && k <= |Pending(m)|
  {
    BlockHeader(now, FirstSeq(Pending(m)[..k]), k % 0x1_0000, m.hdr.dropped,
                if k < |Pending(m)| then 1 else 0, flags, Min(m.hdr.bootCount, 0xFFFF))
  }

  lemma PayloadLayout(m: Memory, maxBytes: u16, now: u32, flags: byte) returns (k: nat)
    requires Consistent(m)
    ensures k == Peek(m, Min(maxBytes, RECORD_BYTES_MAX)).count
    ensures LongestFit(Pending(m), k, Min(maxBytes, RECORD_BYTES_MAX))
    ensures BlockPayload(m, maxBytes, now, flags)
            == PutBlockHeader(HeaderFor(m, k, now, flags)) + Flatten(Pending(m)[..k])
  {
    k := Peek(m, Min(maxBytes, RECORD_BYTES_MAX)).count;
    PeekReturnsLongestPrefix(m, Min(maxBytes, RECORD_BYTES_MAX));
    hide Peek, Pending, PutBlockHeader;
  }
}
