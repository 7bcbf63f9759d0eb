/** What the portion-by-portion transfer guarantees, for every peer and for the real responder. */
module TransferTheorems {
  import opened Words
  import opened SegmentedTransfer

  function Flatten(parts: seq<seq<byte>>): (r: seq<byte>) {
    if parts == [] then [] else parts[0] + Flatten(parts[1..])
  }

  /** The invariant of the loop: what is stored is counted, and the rest is announced. */
  predicate Consistent(st: Progress) {
    && st.offset <= |st.buffer|
    && (st.offset != 0 ==> st.offset + st.remainder == st.total <= |st.buffer| && st.total <= 0x1_0000)
  }

  /** No report larger than the 16-bit offset can count is accepted: it would not fit, or cannot be announced. */
  predicate OffsetSuffices(portionSize: uint16, capacity: nat) {
    capacity <= 0x1_0000 || portionSize <= 1
  }

  /**
   * Whatever the peer sends, an accepted reply leaves stored + announced equal to the total, and
   * the total within the buffer; only a report that is already complete can wrap the 16-bit offset.
   */
  lemma AcceptKeepsConsistent(portionSize: uint16, st: Progress, reply: Reply)
    requires Consistent(st) && OffsetSuffices(portionSize, |st.buffer|)
    requires Accept(portionSize, st, reply).Go?
    ensures var next := Accept(portionSize, st, reply).next;
            && st.offset + reply.portionLength + next.remainder == next.total <= |st.buffer|
            && (next.remainder != 0 ==> Consistent(next) && next.offset == st.offset + |reply.payload|)
  {
  }

  lemma OverwriteExtends(buffer: seq<byte>, orig: seq<byte>, got: seq<byte>, data: seq<byte>)
    requires Holds(buffer, orig, got) && |got| + |data| <= |orig|
    ensures Holds(Overwrite(buffer, |got|, data), orig, got + data)
  {
    assert buffer[..|got|] == got;
    assert buffer[|got| + |data|..] == orig[|got| + |data|..];
  }

  /** A fetch that had stored `got` ends with `got` and the accepted portions stored, and says so. */
  predicate Faithful(o: Outcome, orig: seq<byte>, got: seq<byte>) {
    var all := got + Flatten(o.portions);
    && Holds(o.buffer, orig, all)
    && (o.status == Success ==> o.size == |all|)
    && (o.status == BufferTooSmall ==> o.size > |orig| && all == [])
  }

  lemma FaithfulCons(rest: Outcome, orig: seq<byte>, got: seq<byte>, part: seq<byte>)
    requires Faithful(rest, orig, got + part)
    ensures Faithful(rest.(portions := [part] + rest.portions), orig, got)
  {
    FlattenCons(part, rest.portions);
    assert got + (part + Flatten(rest.portions)) == got + part + Flatten(rest.portions);
  }

  /**
   * Against any peer and on every outcome, the buffer ends as the accepted portions in order
   * followed by the untouched old bytes; success reports exactly that many bytes, and a report
   * that does not fit is measured without a byte being written.
   */
  lemma {:induction false} AnyPeer(portionSize: uint16, peer: Peer, limit: nat, k: nat, st: Progress,
                                   orig: seq<byte>, got: seq<byte>)
    requires Consistent(st) && OffsetSuffices(portionSize, |orig|)
    requires Holds(st.buffer, orig, got) && |got| == st.offset
    ensures Faithful(Fetch(portionSize, peer, limit, k, st), orig, got)
    decreases limit - k
  {
    var reply := if k < limit then peer(k, st.offset, st.RequestLength(portionSize)) else TransportError;
    match Accept(portionSize, st, reply)
    case Stop(_, _) =>
      assert got + Flatten([]) == got;
    case Go(next) =>
      AcceptKeepsConsistent(portionSize, st, reply);
      OverwriteExtends(st.buffer, orig, got, reply.payload);
      if next.remainder == 0 {
        assert got + reply.payload + Flatten([]) == got + reply.payload;
        FaithfulCons(Outcome(Success, next.total, next.buffer, []), orig, got, reply.payload);
      } else {
        AnyPeer(portionSize, peer, limit, k + 1, next, orig, got + reply.payload);
        FaithfulCons(Fetch(portionSize, peer, limit, k + 1, next), orig, got, reply.payload);
      }
  }

  lemma FlattenCons(part: seq<byte>, rest: seq<seq<byte>>)
    ensures Flatten([part] + rest) == part + Flatten(rest)
  {
    assert ([part] + rest)[1..] == rest;
  }

  // ----- Exactly when that holds -----

  /**
   * Makes the 16-bit offset wrap: announces 0x10001 bytes, sends 0x10000 of them in portions as
   * large as asked for, then one byte that looks like a whole report.
   */
  function WrappingReply(k: nat, offset: uint16, length: uint16): Reply {
    if k > 0 && offset == 0 then Reply(true, 1, 0, [0])
    else
      var n := Min(length, 0x1_0000 - offset);
      Reply(true, n, Min(0x1_0001 - offset - n, 0xFFFF), seq(n, _ => 0))
  }

  function WrappingPeer(): (peer: Peer) {
    (k: nat, offset: uint16, length: uint16) => WrappingReply(k, offset, length)
  }

  /** Between the rounds of that peer. */
  predicate Wrapping(k: nat, st: Progress) {
    && |st.buffer| > 0x1_0000
    && if k == 0 then st.offset == 0 else 2 <= st.offset && st.total == 0x1_0001 && st.remainder == 0x1_0001 - st.offset
  }

  lemma WrappingRound(portionSize: uint16, k: nat, st: Progress) returns (payload: seq<byte>, next: Progress)
    requires portionSize >= 2 && Wrapping(k, st)
    ensures Accept(portionSize, st, WrappingPeer()(k, st.offset, st.RequestLength(portionSize))) == Go(next)
    ensures payload == WrappingPeer()(k, st.offset, st.RequestLength(portionSize)).payload
    ensures 0 < |payload| <= 0x1_0000 - st.offset && next.remainder != 0 && |next.buffer| == |st.buffer|
    ensures if st.offset + |payload| == 0x1_0000 then next.offset == 0 else next.offset == st.offset + |payload| && Wrapping(k + 1, next)
  {
    var length := st.RequestLength(portionSize);
    var n := Min(length, 0x1_0000 - st.offset);
    var reply := WrappingPeer()(k, st.offset, length);
    assert length >= 1 && st.offset + n >= 2;
    assert reply == Reply(true, n, 0x1_0001 - st.offset - n, seq(n, _ => 0));
    payload, next := reply.payload, Accept(portionSize, st, reply).next;
  }

  lemma WrappedEnd(portionSize: uint16, limit: nat, k: nat, st: Progress)
    requires portionSize >= 1 && 0 < k < limit && st.offset == 0 && |st.buffer| > 0x1_0000
    ensures Misreported(Fetch(portionSize, WrappingPeer(), limit, k, st), 1)
  {
    FetchStep(portionSize, WrappingPeer(), limit, k, st);
    FlattenCons([0], []);
  }

  predicate Misreported(o: Outcome, stored: nat) {
    o.status == Success && o.size == 1 && |Flatten(o.portions)| == stored
  }

  lemma {:induction false} WrappingRun(portionSize: uint16, limit: nat, k: nat, st: Progress)
    requires portionSize >= 2 && Wrapping(k, st) && limit >= k + 0x1_0001 - st.offset
    ensures Misreported(Fetch(portionSize, WrappingPeer(), limit, k, st), 0x1_0001 - st.offset)
    decreases 0x1_0000 - st.offset
  {
    var payload, next := WrappingRound(portionSize, k, st);
    if st.offset + |payload| == 0x1_0000 {
      WrappedEnd(portionSize, limit, k + 1, next);
    } else {
      WrappingRun(portionSize, limit, k + 1, next);
    }
    WrappingStep(portionSize, limit, k, st, payload, next, 0x1_0001 - st.offset - |payload|);
  }

  lemma WrappingStep(portionSize: uint16, limit: nat, k: nat, st: Progress, payload: seq<byte>, next: Progress, stored: nat)
    requires st.Fits() && k < limit && next.remainder != 0
    requires WrappingPeer()(k, st.offset, st.RequestLength(portionSize)).payload == payload
    requires Accept(portionSize, st, WrappingPeer()(k, st.offset, st.RequestLength(portionSize))) == Go(next)
    requires Misreported(Fetch(portionSize, WrappingPeer(), limit, k + 1, next), stored)
    ensures Misreported(Fetch(portionSize, WrappingPeer(), limit, k, st), |payload| + stored)
  {
    FetchStep(portionSize, WrappingPeer(), limit, k, st);
    FlattenCons(payload, Fetch(portionSize, WrappingPeer(), limit, k + 1, next).portions);
  }

  /**
   * A caller whose buffer is larger than 0x10000 bytes loses that guarantee: the fetch "succeeds"
   * with one byte after storing 0x10001.
   */
  lemma LargeBufferBreaks(portionSize: uint16, buffer: seq<byte>, limit: nat)
    requires portionSize >= 2 && |buffer| > 0x1_0000 && limit >= 0x1_0001
    ensures Misreported(Fetch(portionSize, WrappingPeer(), limit, 0, Start(buffer)), 0x1_0001)
    ensures !Faithful(Fetch(portionSize, WrappingPeer(), limit, 0, Start(buffer)), buffer, [])
  {
    WrappingRun(portionSize, limit, 0, Start(buffer));
  }

  /** Every peer is served faithfully exactly when the buffer is no larger than the offset can count. */
  lemma FaithfulExactlyWhen(portionSize: uint16, buffer: seq<byte>)
    ensures (forall peer: Peer, limit: nat :: Faithful(Fetch(portionSize, peer, limit, 0, Start(buffer)), buffer, []))
       <==> OffsetSuffices(portionSize, |buffer|)
  {
    if OffsetSuffices(portionSize, |buffer|) {
      forall peer: Peer, limit: nat
        ensures Faithful(Fetch(portionSize, peer, limit, 0, Start(buffer)), buffer, [])
      {
        AnyPeer(portionSize, peer, limit, 0, Start(buffer), buffer, []);
      }
    } else {
      LargeBufferBreaks(portionSize, buffer, 0x1_0001);
    }
  }

  /** In both protocols: exactly up to 0x10000 bytes. */
  lemma FaithfulInBothProtocols(buffer: seq<byte>)
    ensures (forall peer: Peer, limit: nat :: Faithful(Fetch(TDISP_PORTION, peer, limit, 0, Start(buffer)), buffer, []))
       <==> |buffer| <= 0x1_0000
    ensures (forall peer: Peer, limit: nat :: Faithful(Fetch(CXL_PORTION, peer, limit, 0, Start(buffer)), buffer, []))
       <==> |buffer| <= 0x1_0000
  {
    FaithfulExactlyWhen(TDISP_PORTION, buffer);
    FaithfulExactlyWhen(CXL_PORTION, buffer);
  }

  // ----- Whether the loop ends -----

  function StallingPeer(remainder: uint16): (peer: Peer) {
    (k: nat, offset: uint16, length: uint16) => Reply(true, 0, remainder, [])
  }

  /** A peer that keeps announcing more and sends nothing keeps the loop going as long as the channel lives. */
  lemma {:induction false} EmptyPortionsNeverEnd(portionSize: uint16, remainder: uint16, limit: nat, k: nat, st: Progress)
    requires 0 < remainder <= |st.buffer| && st.offset == 0 && k <= limit
    ensures var o := Fetch(portionSize, StallingPeer(remainder), limit, k, st);
            o.status == TransportFailure && |o.portions| == limit - k && o.buffer == st.buffer
    decreases limit - k
  {
    if k < limit {
      var reply := StallingPeer(remainder)(k, 0, portionSize);
      var next := Accept(portionSize, st, reply).next;
      assert next.buffer == st.buffer;
      EmptyPortionsNeverEnd(portionSize, remainder, limit, k + 1, next);
    }
  }

  /** Announces more only together with at least one byte. */
  ghost predicate NeverStalls(peer: Peer) {
    forall k: nat, offset: uint16, length: uint16 ::
      peer(k, offset, length).Reply? && peer(k, offset, length).remainder != 0 ==> peer(k, offset, length).portionLength != 0
  }

  /**
   * Without empty portions the loop ends by itself: once the channel lasts for one round more than
   * there are bytes free, how long it lasts makes no difference.
   */
  lemma {:induction false} LoopEnds(portionSize: uint16, peer: Peer, limit: nat, limit': nat, k: nat, st: Progress)
    requires NeverStalls(peer) && Consistent(st) && OffsetSuffices(portionSize, |st.buffer|)
    requires limit > k + |st.buffer| - st.offset && limit' > k + |st.buffer| - st.offset
    ensures Fetch(portionSize, peer, limit, k, st) == Fetch(portionSize, peer, limit', k, st)
    decreases |st.buffer| - st.offset
  {
    var reply := peer(k, st.offset, st.RequestLength(portionSize));
    FetchStep(portionSize, peer, limit, k, st);
    FetchStep(portionSize, peer, limit', k, st);
    if Accept(portionSize, st, reply).Go? {
      AcceptKeepsConsistent(portionSize, st, reply);
      var next := Accept(portionSize, st, reply).next;
      if next.remainder != 0 {
        LoopEnds(portionSize, peer, limit, limit', k + 1, next);
      }
    }
  }

  // ----- Against the responder of this repository -----

  /** How an answer reaches the requester: an error message is not a report message and has the wrong size. */
  function AnswerReply(answer: Option<Portion>): Reply
    requires answer.Some? ==> |answer.value.data| < 0x1_0000
  {
    match answer
    case None => Reply(false, 1, 0, [0, 0, 0, 0])
    case Some(p) => Reply(true, |p.data|, p.remainder, p.data)
  }

  /** The responder as a peer. */
  function Responder(report: seq<byte>, portionSize: uint16): (peer: Peer)
    requires |report| < 0x1_0000
  {
    (k: nat, offset: uint16, length: uint16) => AnswerReply(Serve(report, portionSize, offset, length))
  }

  ghost predicate SamePeer(peer: Peer, peer': Peer) {
    forall k: nat, offset: uint16, length: uint16 :: peer(k, offset, length) == peer'(k, offset, length)
  }

  /** A fetch depends on the answers only. */
  lemma {:induction false} SamePeerSameFetch(portionSize: uint16, peer: Peer, peer': Peer, limit: nat, k: nat, st: Progress)
    requires SamePeer(peer, peer') && st.Fits()
    ensures Fetch(portionSize, peer, limit, k, st) == Fetch(portionSize, peer', limit, k, st)
    decreases limit - k
  {
    FetchStep(portionSize, peer, limit, k, st);
    FetchStep(portionSize, peer', limit, k, st);
    if k < limit {
      var reply := peer(k, st.offset, st.RequestLength(portionSize));
      match Accept(portionSize, st, reply)
      case Stop(_, _) =>
      case Go(next) =>
        if next.remainder != 0 {
          SamePeerSameFetch(portionSize, peer, peer', limit, k + 1, next);
        }
    }
  }

  /** The number of rounds a transfer of n bytes needs. */
  function Rounds(n: nat, p: nat): (r: nat)
    requires p > 0
  {
    if n == 0 then 0 else if n <= p then 1 else 1 + Rounds(n - p, p)
  }

  lemma {:induction false} RoundsIsCeiling(n: nat, p: nat)
    requires p > 0
    ensures Rounds(n, p) == (n + p - 1) / p
  {
    if n == 0 {
      UniqueQuotient(p - 1, p, 0, p - 1);
    } else if n <= p {
      UniqueQuotient(n + p - 1, p, 1, n - 1);
    } else {
      RoundsIsCeiling(n - p, p);
      var q, r := (n - 1) / p, (n - 1) % p;
      UniqueQuotient(n + p - 1, p, q + 1, r);
    }
  }

  lemma UniqueQuotient(n: int, d: int, q: int, r: int)
    requires 0 <= r < d && n == d * q + r
    ensures n / d == q
  {
    UniqueRemainder(n, d, q, r);
    SameQuotient(d, n / d, q);
  }

  lemma SameQuotient(p: int, a: int, b: int)
    requires p > 0 && p * a == p * b
    ensures a == b
  {
  }

  /** The state after the first `offset` bytes of the report have been stored. */
  predicate Halfway(report: seq<byte>, st: Progress, orig: seq<byte>) {
    && st.offset < |report| <= |orig|
    && Holds(st.buffer, orig, report[..st.offset])
    && (st.offset != 0 ==> st.total == |report| && st.remainder == |report| - st.offset)
  }

  /** One round of requester and responder advances by one portion. */
  lemma ResponderRound(report: seq<byte>, portionSize: uint16, k: nat, st: Progress, orig: seq<byte>)
    requires |report| < 0x1_0000 && portionSize > 0
    requires Halfway(report, st, orig)
    ensures var reply := Responder(report, portionSize)(k, st.offset, st.RequestLength(portionSize));
            var end := Min(st.offset + portionSize, |report|);
            var v := Accept(portionSize, st, reply);
            && v.Go? && v.next.remainder == |report| - end && v.next.total == |report|
            && v.next.offset == end && Holds(v.next.buffer, orig, report[..end])
  {
    var reply := Responder(report, portionSize)(k, st.offset, st.RequestLength(portionSize));
    var end := Min(st.offset + portionSize, |report|);
    assert reply.payload == report[st.offset..end];
    OverwriteExtends(st.buffer, orig, report[..st.offset], reply.payload);
    assert report[..st.offset] + report[st.offset..end] == report[..end];
  }

  /** What the transfer of a report yields from an offset on, if the channel lasts long enough. */
  function Relayed(report: seq<byte>, portionSize: uint16, limit: nat, k: nat, offset: nat, orig: seq<byte>): Outcome
    requires portionSize > 0 && offset < |report| <= |orig|
    decreases limit - k
  {
    if k >= limit then Outcome(TransportFailure, |orig|, report[..offset] + orig[offset..], [])
    else if |report| - offset <= portionSize then Outcome(Success, |report|, report + orig[|report|..], [report[offset..|report|]])
    else Prefixed(report[offset..offset + portionSize], Relayed(report, portionSize, limit, k + 1, offset + portionSize, orig))
  }

  lemma {:induction false} RelayedMeaning(report: seq<byte>, portionSize: uint16, limit: nat, k: nat, offset: nat,
                                          orig: seq<byte>)
    requires portionSize > 0 && offset < |report| <= |orig|
    ensures var o, needed := Relayed(report, portionSize, limit, k, offset, orig), Rounds(|report| - offset, portionSize);
            if k + needed <= limit then
              o.status == Success && o.size == |report| && o.buffer == report + orig[|report|..] && |o.portions| == needed
            else o.status == TransportFailure
    decreases limit - k
  {
    if k < limit && |report| - offset > portionSize {
      RelayedMeaning(report, portionSize, limit, k + 1, offset + portionSize, orig);
      assert |report| - offset - portionSize == |report| - (offset + portionSize);
    }
  }

  /** The portion of one round, and the state after it. */
  lemma RoundPayload(report: seq<byte>, portionSize: uint16, k: nat, st: Progress, orig: seq<byte>)
    returns (next: Progress)
    requires |report| < 0x1_0000 && portionSize > 0
    requires Halfway(report, st, orig)
    ensures var reply := Responder(report, portionSize)(k, st.offset, st.RequestLength(portionSize));
            var end := Min(st.offset + portionSize, |report|);
            && Accept(portionSize, st, reply) == Go(next) && reply.payload == report[st.offset..end]
            && next.offset == end && next.remainder == |report| - end && next.total == |report|
            && (end < |report| ==> Halfway(report, next, orig))
            && (end == |report| ==> next.buffer == report + orig[|report|..])
  {
    var reply := Responder(report, portionSize)(k, st.offset, st.RequestLength(portionSize));
    ResponderRound(report, portionSize, k, st, orig);
    next := Accept(portionSize, st, reply).next;
    assert report[..|report|] == report;
  }

  /** One round of the fetch in terms of the report. */
  lemma RelayRound(report: seq<byte>, portionSize: uint16, limit: nat, k: nat, st: Progress, orig: seq<byte>)
    returns (next: Progress)
    requires |report| < 0x1_0000 && portionSize > 0 && k < limit
    requires Halfway(report, st, orig)
    ensures var o := Fetch(portionSize, Responder(report, portionSize), limit, k, st);
            if |report| - st.offset <= portionSize then
              o == Outcome(Success, |report|, report + orig[|report|..], [report[st.offset..|report|]])
            else
              && Halfway(report, next, orig) && next.offset == st.offset + portionSize
              && o == Prefixed(report[st.offset..st.offset + portionSize],
                               Fetch(portionSize, Responder(report, portionSize), limit, k + 1, next))
  {
    next := RoundPayload(report, portionSize, k, st, orig);
    FetchStep(portionSize, Responder(report, portionSize), limit, k, st);
  }

  lemma {:induction false} FetchIsRelayed(report: seq<byte>, portionSize: uint16, limit: nat, k: nat, st: Progress,
                                          orig: seq<byte>)
    requires |report| < 0x1_0000 && portionSize > 0
    requires Halfway(report, st, orig)
    ensures Fetch(portionSize, Responder(report, portionSize), limit, k, st)
         == Relayed(report, portionSize, limit, k, st.offset, orig)
    decreases limit - k
  {
    if k >= limit {
      FetchStep(portionSize, Responder(report, portionSize), limit, k, st);
    } else {
      var next := RelayRound(report, portionSize, limit, k, st, orig);
      if |report| - st.offset > portionSize {
        FetchIsRelayed(report, portionSize, limit, k + 1, next, orig);
      }
    }
  }

  /**
   * The segmented transfer refines a plain copy: for every portion size and every report that fits,
   * the buffer receives exactly the report in ceil(n/p) rounds; a report that does not fit is only
   * measured; an empty report is refused.
   */
  lemma TransferRefinesCopy(report: seq<byte>, portionSize: uint16, limit: nat, buffer: seq<byte>)
    requires |report| < 0x1_0000 && portionSize > 0
    requires limit >= Rounds(|report|, portionSize) && limit > 0
    ensures var o := Fetch(portionSize, Responder(report, portionSize), limit, 0, Start(buffer));
            if |report| == 0 then o.status == InvalidSize && o.buffer == buffer
            else if |report| <= |buffer| then
              && o.status == Success && o.size == |report|
              && o.buffer == report + buffer[|report|..]
              && |o.portions| == (|report| + portionSize - 1) / portionSize
            else o.status == BufferTooSmall && o.size == |report| && o.buffer == buffer
  {
    var st := Start(buffer);
    RoundsIsCeiling(|report|, portionSize);
    if 0 < |report| <= |buffer| {
      assert Holds(buffer, buffer, report[..0]);
      FetchIsRelayed(report, portionSize, limit, 0, st, buffer);
      RelayedMeaning(report, portionSize, limit, 0, 0, buffer);
    }
  }
}
