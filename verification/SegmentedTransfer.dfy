/**
 * Transfer of a report in portions, as TDISP's DEVICE_INTERFACE_REPORT and CXL TSP's
 * TARGET_CONFIGURATION_REPORT both do it: the responder clamps a requested window, the requester
 * reassembles. The portion size is a parameter, so one set of proofs serves both protocols.
 */
module SegmentedTransfer {
  import opened Words

  const TDISP_PORTION: uint16 := 0x40
  const CXL_PORTION: uint16 := 0x200

  datatype Portion = Portion(data: seq<byte>, remainder: uint16)

  /** The window the responder answers with, or None when it answers with an error message. */
  function Serve(report: seq<byte>, portionSize: uint16, offset: uint16, length: uint16): (r: Option<Portion>)
    requires |report| < 0x1_0000
  {
    if portionSize == 0 || length == 0 || offset >= |report| then None else
    var end := Min(offset + Min(length, portionSize), |report|);
    Some(Portion(report[offset..end], |report| - end))
  }

  /** The responder's step-by-step clamping computes that window. */
  method SelectPortion(report: seq<byte>, portionSize: uint16, offset: uint16, requested: uint16)
    returns (r: Option<Portion>)
    requires |report| < 0x1_0000
    ensures r == Serve(report, portionSize, offset, requested)
  {
    var length := requested;
    if length > portionSize {
      length := portionSize;
    }
    if length == 0 {
      return None;
    }
    if offset >= |report| {
      return None;
    }
    if length > |report| - offset {
      length := |report| - offset;
    }
    r := Some(Portion(report[offset..offset + length], |report| - (length + offset)));
  }

  /** What one exchange hands the requester. `payload` is everything after the fixed part. */
  datatype Reply =
    | TransportError
    | Truncated
    | Reply(headerOk: bool, portionLength: uint16, remainder: uint16, payload: seq<byte>)

  datatype Status = Success | TransportFailure | InvalidSize | InvalidField | BufferTooSmall

  /** Any peer: its reply may depend on the round and on the requested window. */
  type Peer = (nat, uint16, uint16) -> Reply

  /** The requester's variables between two rounds. */
  datatype Progress = Progress(offset: uint16, remainder: uint16, total: nat, buffer: seq<byte>) {
    predicate Fits() {
      offset != 0 ==> total <= |buffer|
    }

    function RequestLength(portionSize: uint16): uint16 {
      if offset != 0 then Min(remainder, portionSize) else portionSize
    }
  }

  datatype Verdict = Stop(status: Status, size: nat) | Go(next: Progress)

  /** The sum in 16 bits. */
  function Add16(a: uint16, b: uint16): uint16 {
    if a + b < 0x1_0000 then a + b else a + b - 0x1_0000
  }

  function Overwrite(buffer: seq<byte>, at: nat, data: seq<byte>): (r: seq<byte>)
    requires at + |data| <= |buffer|
    ensures |r| == |buffer|
  {
    buffer[..at] + data + buffer[at + |data|..]
  }

  /** One round: the checks on a reply, in order, and the state after storing it. */
  function Accept(portionSize: uint16, st: Progress, reply: Reply): (v: Verdict)
    requires st.Fits()
    ensures v.Go? ==> v.next.Fits() && |v.next.buffer| == |st.buffer| && reply.Reply?
  {
    match reply
    case TransportError => Stop(TransportFailure, |st.buffer|)
    case Truncated => Stop(InvalidSize, |st.buffer|)
    case Reply(headerOk, portionLength, remainder, payload) =>
      if portionLength > st.RequestLength(portionSize) || |payload| != portionLength then
        Stop(InvalidSize, |st.buffer|)
      else if !headerOk then
        Stop(InvalidField, |st.buffer|)
      else
        var sum := st.offset + portionLength + remainder;
        if st.offset == 0 && sum > |st.buffer| then
          Stop(BufferTooSmall, sum)
        else if st.offset != 0 && st.total != sum then
          Stop(InvalidField, |st.buffer|)
        else
          Go(Progress(Add16(st.offset, portionLength), remainder, sum,
                      Overwrite(st.buffer, st.offset, payload)))
  }

  /** How a whole fetch ends; `portions` are the payloads it stored, in order. */
  datatype Outcome = Outcome(status: Status, size: nat, buffer: seq<byte>, portions: seq<seq<byte>>)

  /** All rounds from round k on. The channel fails after `limit` rounds, so every run is finite. */
  function Fetch(portionSize: uint16, peer: Peer, limit: nat, k: nat, st: Progress): (o: Outcome)
    requires st.Fits()
    decreases limit - k
  {
    var reply := if k < limit then peer(k, st.offset, st.RequestLength(portionSize)) else TransportError;
    match Accept(portionSize, st, reply)
    case Stop(status, size) => Outcome(status, size, st.buffer, [])
    case Go(next) =>
      var rest := if next.remainder == 0 then Outcome(Success, next.total, next.buffer, [])
                  else Fetch(portionSize, peer, limit, k + 1, next);
      rest.(portions := [reply.payload] + rest.portions)
  }

  function Start(buffer: seq<byte>): (st: Progress) {
    Progress(0, 0, 0, buffer)
  }

  predicate SameEnd(a: Outcome, b: Outcome) {
    a.status == b.status && a.size == b.size && a.buffer == b.buffer
  }

  method Store(buffer: array<byte>, at: nat, data: seq<byte>)
    requires at + |data| <= buffer.Length
    modifies buffer
    ensures buffer[..] == Overwrite(old(buffer[..]), at, data)
  {
    forall i | 0 <= i < |data| {
      buffer[at + i] := data[i];
    }
  }

  /** One round unfolded. */
  lemma FetchStep(portionSize: uint16, peer: Peer, limit: nat, k: nat, st: Progress)
    requires st.Fits()
    ensures var reply := if k < limit then peer(k, st.offset, st.RequestLength(portionSize)) else TransportError;
            var o := Fetch(portionSize, peer, limit, k, st);
            match Accept(portionSize, st, reply)
            case Stop(status, size) => o == Outcome(status, size, st.buffer, [])
            case Go(next) =>
              if next.remainder == 0 then o == Outcome(Success, next.total, next.buffer, [reply.payload])
              else k < limit && o == Prefixed(reply.payload, Fetch(portionSize, peer, limit, k + 1, next))
  {
  }

  function Prefixed(payload: seq<byte>, rest: Outcome): Outcome {
    rest.(portions := [payload] + rest.portions)
  }

  /** The checks on one reply; on success `size` is the length of the whole report. */
  method CheckReply(portionSize: uint16, ghost st: Progress, capacity: nat, offset: uint16, total: nat, length: uint16,
                    reply: Reply)
    returns (status: Status, size: nat)
    requires st.Fits() && st.offset == offset && st.total == total && |st.buffer| == capacity
    requires length == st.RequestLength(portionSize)
    ensures match Accept(portionSize, st, reply)
            case Stop(failure, n) => status == failure && status != Success && size == n
            case Go(next) => status == Success && size == next.total
  {
    if reply.TransportError? {
      return TransportFailure, capacity;
    }
    if reply.Truncated? {
      return InvalidSize, capacity;
    }
    if reply.portionLength > length {
      return InvalidSize, capacity;
    }
    if |reply.payload| != reply.portionLength {
      return InvalidSize, capacity;
    }
    if !reply.headerOk {
      return InvalidField, capacity;
    }
    size := total;
    if offset == 0 {
      size := reply.portionLength + reply.remainder;
      if size > capacity {
        return BufferTooSmall, size;
      }
    } else {
      if total != offset + reply.portionLength + reply.remainder {
        return InvalidField, capacity;
      }
    }
    status := Success;
  }

  /** The requester's do-while loop over its own variables and the caller's buffer. */
  method FetchReport(portionSize: uint16, buffer: array<byte>, peer: Peer, limit: nat)
    returns (status: Status, size: nat)
    modifies buffer
    ensures var o := Fetch(portionSize, peer, limit, 0, Start(old(buffer[..])));
            status == o.status && size == o.size && buffer[..] == o.buffer
  {
    var offset: uint16, remainder: uint16, total: nat, round: nat := 0, 0, 0, 0;
    ghost var st := Start(buffer[..]);
    ghost var whole := Fetch(portionSize, peer, limit, 0, st);
    while true
      invariant st == Progress(offset, remainder, total, buffer[..]) && st.Fits()
      invariant SameEnd(whole, Fetch(portionSize, peer, limit, round, st))
      decreases limit - round
    {
      var length := portionSize;
      if offset != 0 {
        length := Min(remainder, portionSize);
      }
      var reply := if round < limit then peer(round, offset, length) else TransportError;
      FetchStep(portionSize, peer, limit, round, st);
      status, size := CheckReply(portionSize, st, buffer.Length, offset, total, length, reply);
      if status != Success {
        return;
      }
      Store(buffer, offset, reply.payload);
      st := Accept(portionSize, st, reply).next;
      offset := Add16(offset, reply.portionLength);
      remainder, total, round := reply.remainder, size, round + 1;
      if remainder == 0 {
        return Success, total;
      }
    }
  }
}
