/** The receiver over its fixed buffer: bytes appended at the end, taken from the front by moving the rest down. */
module SerialManager {
  import opened Bytes
  import opened Framing

  class SerialManager {
    const rxBuf: array<byte>
    var rxLen: nat
    var ready: Option<Command>
    var wire: seq<byte>
    var read: seq<byte>
    var done: seq<Delivery>

    ghost predicate Valid()
      reads this, rxBuf
    {
      rxLen <= rxBuf.Length
    }

    ghost function State(): Link
      requires Valid()
      reads this, rxBuf
    {
      Link(wire, rxBuf[..rxLen], ready, read, done)
    }

    constructor (cap: nat, stream: seq<byte>)
      ensures Valid() && rxBuf.Length == cap && State() == Link(stream, [], None, [], [])
    {
      rxBuf := new byte[cap](_ => 0);
      rxLen, ready, wire, read, done := 0, None, stream, [], [];
    }

    /** Reads what has arrived into the free end of the buffer. */
    method Receive(arrived: nat)
      requires Valid()
      modifies `rxLen, `wire, rxBuf
      ensures Valid() && State() == TopUp(old(State()), arrived, rxBuf.Length)
    {
      var n := Min(Min(arrived, rxBuf.Length - rxLen), |wire|);
      ghost var was := rxBuf[..];
      forall i | 0 <= i < n {
        rxBuf[rxLen + i] := wire[i];
      }
      Appended(was, rxBuf[..], rxLen, wire[..n]);
      rxLen := rxLen + n;
      wire := wire[n..];
    }

    /** memmove: drop `k` bytes from the front. */
    method Drop(k: nat)
      requires Valid() && k <= rxLen
      modifies `rxLen, rxBuf
      ensures Valid() && State() == old(State()).(buf := old(State()).buf[k..])
    {
      ghost var was := rxBuf[..];
      var i := 0;
      hide Moved;
      MoveStart(was, k);
      while i < rxLen - k
        invariant rxLen == old(rxLen) && 0 <= i <= rxLen - k
        invariant Moved(was, rxBuf[..], i, k)
      {
        MoveStep(was, rxBuf[..], i, k);
        rxBuf[i] := rxBuf[k + i];
        i := i + 1;
      }
      MoveEnd(was, rxBuf[..], i, k);
      rxLen := rxLen - k;
    }

    method ServiceUsb(arrived: nat)
      requires Valid()
      modifies `rxLen, `wire, `ready, rxBuf
      ensures Valid() && State() == Service(old(State()), arrived, rxBuf.Length)
    {
      hide Parse;
      if ready.Some? {
        return;
      }
      Receive(arrived);
      if rxLen == 0 {
        return;
      }
      ParseIncoming();
    }

    /** One parsing attempt on a non-empty buffer. */
    method ParseIncoming()
      requires Valid() && rxLen > 0 && ready.None?
      modifies `rxLen, `ready, rxBuf
      ensures Valid()
      ensures State() == match Parse(old(State()).buf, rxBuf.Length)
                         case Wait => old(State())
                         case Resync => old(State()).(buf := [])
                         case Got(cmd, used) => old(State()).(buf := old(State()).buf[used..], ready := Some(cmd))
    {
      var outcome := Classify();
      match outcome
      case Wait =>
      case Resync => rxLen := 0;
      case Got(cmd, used) =>
        ready := Some(cmd);
        Drop(used);
    }

    /** The framing decision, from the bytes in the buffer. */
    method Classify() returns (outcome: Parsed)
      requires Valid() && rxLen > 0
      ensures outcome == Parse(State().buf, rxBuf.Length)
    {
      var first := rxBuf[0];
      ghost var buf := rxBuf[..rxLen];
      if first == STREAM {
        if rxLen < 3 {
          return Wait;
        }
        assert rxBuf[1..3] == buf[1..3];
        var total := 3 + Get16(rxBuf[1..3]);
        if total > rxBuf.Length {
          return Resync;
        }
        if rxLen < total {
          return Wait;
        }
        assert rxBuf[..total] == buf[..total];
        return Got(Stream(rxBuf[..total]), total);
      } else if first < STREAM {
        var total := 1 + first as int;
        if rxLen < total {
          return Wait;
        }
        assert rxBuf[..total] == buf[..total];
        return Got(Binary(rxBuf[..total]), total);
      } else {
        outcome := ClassifyLong();
      }
    }

    /** The opcode-first frames: upload, firmware, rename; anything else is discarded. */
    method ClassifyLong() returns (outcome: Parsed)
      requires Valid() && rxLen > 0 && rxBuf[0] > STREAM
      ensures outcome == Parse(State().buf, rxBuf.Length)
    {
      var first := rxBuf[0];
      ghost var buf := rxBuf[..rxLen];
      if first == UPLOAD {
        if rxLen < 11 {
          return Wait;
        }
        assert rxBuf[..11] == buf[..11] && rxBuf[3..7] == buf[3..7];
        return Got(Bulk(rxBuf[..11], Get32(rxBuf[3..7])), 11);
      }
      if first == FIRMWARE {
        if rxLen < 9 {
          return Wait;
        }
        assert rxBuf[..9] == buf[..9] && rxBuf[1..5] == buf[1..5];
        return Got(Bulk(rxBuf[..9], Get32(rxBuf[1..5])), 9);
      }
      if first != RENAME {
        return Resync;
      }
      if rxLen < 4 {
        return Wait;
      }
      var nameLen := rxBuf[3];
      if nameLen == 0 || nameLen as int >= NAME_MAX {
        return Resync;
      }
      var total := 4 + nameLen as int;
      if rxLen < total {
        return Wait;
      }
      assert rxBuf[..total] == buf[..total];
      return Got(Binary([total] + rxBuf[..total]), total);
    }

    method ReadBulkBytes(want: nat, arrived: nat)
      requires Valid()
      modifies `rxLen, `wire, `read, rxBuf
      ensures Valid() && State() == ReadBulk(old(State()), want, arrived, rxBuf.Length)
    {
      hide TopUp;
      if Remaining(Pending()) <= 0 {
        return;
      }
      Receive(arrived);
      var n := Min(Min(want, Remaining(Pending())), rxLen);
      read := read + rxBuf[..n];
      Drop(n);
    }

    /** What the remaining-payload count depends on. */
    function Pending(): (s: Link)
      reads this
      ensures s.ready == ready && s.read == read
    {
      Link([], [], ready, read, [])
    }

    method CommandConsumed()
      requires Valid()
      modifies `ready, `read, `done
      ensures Valid() && State() == Consume(old(State()))
    {
      if ready.None? || Remaining(Pending()) != 0 {
        return;
      }
      done := done + [Delivery(ready.value, read)];
      ready, read := None, [];
    }
  }

  lemma Appended(was: seq<byte>, now: seq<byte>, len: nat, more: seq<byte>)
    requires len + |more| <= |was| == |now|
    requires forall i :: 0 <= i < |was| ==> now[i] == if len <= i < len + |more| then more[i - len] else was[i]
    ensures now[..len + |more|] == was[..len] + more
  {
  }

  /** The first `i` bytes are those `k` further on; the rest are still in place. */
  predicate Moved(was: seq<byte>, now: seq<byte>, i: nat, k: nat) {
    && |now| == |was| && i + k <= |was|
    && now[..i] == was[k..k + i] && now[i..] == was[i..]
  }

  lemma MoveStart(was: seq<byte>, k: nat)
    requires k <= |was|
    ensures Moved(was, was, 0, k)
  {
  }

  lemma MoveStep(was: seq<byte>, now: seq<byte>, i: nat, k: nat)
    requires Moved(was, now, i, k) && k + i < |was|
    ensures Moved(was, now[i := now[k + i]], i + 1, k)
  {
    var t := now[i := now[k + i]];
    assert now[k + i] == now[i..][k] == was[i..][k] == was[k + i];
    assert t[..i + 1] == now[..i] + [now[k + i]];
    assert was[k..k + i + 1] == was[k..k + i] + [was[k + i]];
    assert t[i + 1..] == now[i..][1..] == was[i..][1..];
  }

  lemma MoveEnd(was: seq<byte>, now: seq<byte>, i: nat, k: nat)
    requires Moved(was, now, i, k)
    ensures now[..i] == was[..k + i][k..]
  {
  }
}
