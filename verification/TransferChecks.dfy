/** Exactly which windows are asked for and served, which replies are accepted, and how the others end a fetch. */
module TransferChecks {
  import opened Words
  import opened SegmentedTransfer
  import opened TransferTheorems

  // ----- The window -----

  /** As much as is asked for, fits in a portion and is left, and the rest counted. */
  lemma ServedWindow(report: seq<byte>, portionSize: uint16, offset: uint16, length: uint16)
    requires |report| < 0x1_0000
    ensures var r := Serve(report, portionSize, offset, length);
            && (r.Some? <==> portionSize != 0 && length != 0 && offset < |report|)
            && (r.Some? ==>
                  var n := |r.value.data|;
                  && r.value.data <= report[offset..]
                  && 0 < n <= length && n <= portionSize
                  && (n == length || n == portionSize || r.value.remainder == 0)
                  && offset + n + r.value.remainder == |report|)
  {
  }

  /** The first request asks for a whole portion, a later one for no more than what is announced. */
  lemma RequestedWindow(portionSize: uint16, st: Progress)
    requires Consistent(st)
    ensures var n := st.RequestLength(portionSize);
            && n <= portionSize
            && (st.offset == 0 ==> n == portionSize)
            && (st.offset != 0 ==> st.offset + n <= st.total && (n == portionSize || st.offset + n == st.total))
  {
  }

  // ----- One reply -----

  /** A report message whose payload is as long as it says, and no longer than asked for. */
  predicate Sized(portionSize: uint16, st: Progress, reply: Reply) {
    && reply.Reply? && |reply.payload| == reply.portionLength <= portionSize
    && (st.offset != 0 ==> reply.portionLength <= st.remainder)
  }

  /** The report ends where it always did: the first reply says where, within the buffer. */
  predicate SameReport(st: Progress, reply: Reply)
    requires reply.Reply?
  {
    st.offset != 0 ==> st.offset + reply.portionLength + reply.remainder == st.total
  }

  predicate FitsBuffer(st: Progress, reply: Reply)
    requires reply.Reply?
  {
    st.offset == 0 ==> reply.portionLength + reply.remainder <= |st.buffer|
  }

  predicate Acceptable(portionSize: uint16, st: Progress, reply: Reply) {
    Sized(portionSize, st, reply) && reply.headerOk && SameReport(st, reply) && FitsBuffer(st, reply)
  }

  /** Exactly the acceptable replies are accepted; the payload lands at the offset and nothing else is written. */
  lemma AcceptedExactlyWhen(portionSize: uint16, st: Progress, reply: Reply)
    requires st.Fits()
    ensures var v := Accept(portionSize, st, reply);
            && (v.Go? <==> Acceptable(portionSize, st, reply))
            && (v.Go? ==>
                  && v.next.remainder == reply.remainder
                  && v.next.total == st.offset + reply.portionLength + reply.remainder
                  && v.next.offset == (st.offset + reply.portionLength) % 0x1_0000
                  && |v.next.buffer| == |st.buffer|
                  && forall i :: 0 <= i < |st.buffer| ==>
                       v.next.buffer[i] == if st.offset <= i < st.offset + |reply.payload| then reply.payload[i - st.offset] else st.buffer[i])
  {
    var n := st.offset + if reply.Reply? then reply.portionLength else 0;
    if n < 0x1_0000 {
      UniqueRemainder(n, 0x1_0000, 0, n);
    } else {
      UniqueRemainder(n, 0x1_0000, 1, n - 0x1_0000);
    }
  }

  /** And each other reply ends the fetch with its own status; only a report that is too large changes the size. */
  lemma StoppedExactlyWhen(portionSize: uint16, st: Progress, reply: Reply)
    requires st.Fits() && Accept(portionSize, st, reply).Stop?
    ensures var v := Accept(portionSize, st, reply);
            && v.status != Success
            && (v.status == TransportFailure <==> reply.TransportError?)
            && (v.status == InvalidSize <==> reply.Truncated? || (reply.Reply? && !Sized(portionSize, st, reply)))
            && (v.status == InvalidField <==>
                  Sized(portionSize, st, reply) && (!reply.headerOk || !SameReport(st, reply)))
            && (v.status == BufferTooSmall <==>
                  Sized(portionSize, st, reply) && reply.headerOk && !FitsBuffer(st, reply))
            && v.size == if v.status == BufferTooSmall then reply.portionLength + reply.remainder else |st.buffer|
  {
  }

  // ----- A whole fetch -----

  /** A right reply to a request for `length` bytes that carries this portion. */
  predicate Carries(reply: Reply, length: uint16, portion: seq<byte>) {
    reply.Reply? && reply.headerOk && reply.payload == portion && |portion| == reply.portionLength <= length
  }

  /** Portion by portion: round k, at this offset, brought the first of them; only the last one leaves nothing to come. */
  ghost predicate Delivered(portionSize: uint16, peer: Peer, k: nat, offset: uint16, portions: seq<seq<byte>>, done: bool)
    decreases portions
  {
    portions == [] ||
    exists length: uint16 ::
      var reply := peer(k, offset, length);
      && length <= portionSize && Carries(reply, length, portions[0])
      && (reply.remainder == 0 <==> done && |portions| == 1)
      && Delivered(portionSize, peer, k + 1, Add16(offset, reply.portionLength), portions[1..], done)
  }

  /** Every stored portion comes from a reply with the right header, and success from one with nothing to come. */
  lemma {:induction false} PortionsDelivered(portionSize: uint16, peer: Peer, limit: nat, k: nat, st: Progress)
    requires st.Fits()
    ensures var o := Fetch(portionSize, peer, limit, k, st);
            && Delivered(portionSize, peer, k, st.offset, o.portions, o.status == Success)
            && (o.status == Success ==> o.portions != [])
            && (o.portions == [] ==> o.buffer == st.buffer)
    decreases limit - k
  {
    FetchStep(portionSize, peer, limit, k, st);
    if k < limit {
      var length := st.RequestLength(portionSize);
      var reply := peer(k, st.offset, length);
      AcceptedExactlyWhen(portionSize, st, reply);
      var v := Accept(portionSize, st, reply);
      if v.Go? {
        var o := Fetch(portionSize, peer, limit, k, st);
        if v.next.remainder != 0 {
          PortionsDelivered(portionSize, peer, limit, k + 1, v.next);
          assert o.portions[1..] == Fetch(portionSize, peer, limit, k + 1, v.next).portions;
        } else {
          assert o.portions[1..] == [];
        }
        assert v.next.offset == Add16(st.offset, reply.portionLength);
      }
    }
  }

  ghost predicate NeverRight(peer: Peer) {
    forall k: nat, offset: uint16, length: uint16 ::
      peer(k, offset, length).Reply? ==> !peer(k, offset, length).headerOk
  }

  /** A peer whose headers are never right leaves the buffer as it was, and no fetch from it succeeds. */
  lemma WrongHeadersStoreNothing(portionSize: uint16, peer: Peer, limit: nat, buffer: seq<byte>)
    requires NeverRight(peer)
    ensures var o := Fetch(portionSize, peer, limit, 0, Start(buffer));
            o.status != Success && o.buffer == buffer && o.portions == []
  {
    PortionsDelivered(portionSize, peer, limit, 0, Start(buffer));
  }
}
