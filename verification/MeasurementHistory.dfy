/** The collection of measurement records told by its requests and answers, for any device. */
module MeasurementHistory {
  import opened Words
  import opened MeasurementCollection

  /** What the device answered to these requests, in order. */
  function Answers(device: Device, requests: seq<Request>): seq<seq<byte>> {
    if requests == [] then [] else
    var n := |requests| - 1;
    var one := device(requests[n]);
    if one.None? then Answers(device, requests[..n]) else Answers(device, requests[..n]) + [one.value]
  }

  function Concat(records: seq<seq<byte>>): seq<byte> {
    if records == [] then [] else Concat(records[..|records| - 1]) + records[|records| - 1]
  }

  /** The records leave at least one byte of the buffer free; no record always fits. */
  predicate Room(records: seq<seq<byte>>, capacity: nat) {
    records == [] || |Concat(records)| < capacity
  }

  /**
   * Request number i asks for index i + 1, with a signature if that is configured or only one
   * record is missing; before it, some record was missing and all had fitted.
   */
  predicate AskedRight(device: Device, signing: bool, count: byte, capacity: nat, requests: seq<Request>, i: nat)
    requires i < |requests|
  {
    var before := Answers(device, requests[..i]);
    && i < 254 && requests[i].index == i + 1
    && (requests[i].signed <==> signing || |before| + 1 == count)
    && |before| != count && Room(before, capacity)
  }

  predicate AllRight(device: Device, signing: bool, count: byte, capacity: nat, requests: seq<Request>) {
    forall i :: 0 <= i < |requests| ==> AskedRight(device, signing, count, capacity, requests, i)
  }

  /** The state counts and holds what was answered. */
  predicate Tracks(device: Device, s: State) {
    var answers := Answers(device, s.requests);
    s.received == |answers| && s.record == Concat(answers)
  }

  lemma AnswersAppend(device: Device, requests: seq<Request>, r: Request)
    ensures Answers(device, requests + [r])
         == if device(r).None? then Answers(device, requests) else Answers(device, requests) + [device(r).value]
  {
    assert (requests + [r])[..|requests|] == requests;
  }

  lemma ConcatAppend(records: seq<seq<byte>>, one: seq<byte>)
    ensures Concat(records + [one]) == Concat(records) + one
  {
    assert (records + [one])[..|records|] == records;
  }

  lemma AllRightAppend(device: Device, signing: bool, count: byte, capacity: nat, requests: seq<Request>, r: Request)
    requires AllRight(device, signing, count, capacity, requests) && |requests| < 254
    requires r.index == |requests| + 1 && Room(Answers(device, requests), capacity)
    requires |Answers(device, requests)| != count && (r.signed <==> signing || |Answers(device, requests)| + 1 == count)
    ensures AllRight(device, signing, count, capacity, requests + [r])
  {
    var more := requests + [r];
    forall i | 0 <= i < |more|
      ensures AskedRight(device, signing, count, capacity, more, i)
    {
      assert more[..i] == requests[..i];
      assert i == |requests| ==> more[..i] == requests;
      assert i < |requests| ==> AskedRight(device, signing, count, capacity, requests, i);
    }
  }

  /** How a collection ends: with the reported number of records, with one too long, or after the last index. */
  predicate Ended(device: Device, signing: bool, count: byte, capacity: nat, status: Status, s: State) {
    var answers := Answers(device, s.requests);
    && AllRight(device, signing, count, capacity, s.requests)
    && s.received == |answers|
    && (status == BufferTooSmall <==> !Room(answers, capacity))
    && (status == Success <==> Room(answers, capacity) && |answers| == count)
    && (status == InvalidStatePeer <==> Room(answers, capacity) && |answers| != count)
    && (status == InvalidStatePeer ==> |s.requests| == 254)
    && s.record == Concat(if status == BufferTooSmall then answers[..|answers| - 1] else answers)
  }

  lemma OverflowEnds(device: Device, signing: bool, count: byte, capacity: nat, s: State, r: Request)
    requires Tracks(device, s) && AllRight(device, signing, count, capacity, s.requests + [r])
    requires Overflows(s, device(r), capacity)
    ensures Ended(device, signing, count, capacity, BufferTooSmall, s.(received := s.received + 1, requests := s.requests + [r]))
  {
    var before, one := Answers(device, s.requests), device(r).value;
    AnswersAppend(device, s.requests, r);
    ConcatAppend(before, one);
    assert (before + [one])[..|before|] == before;
  }

  lemma AdvanceTracks(device: Device, capacity: nat, s: State, r: Request)
    requires Tracks(device, s) && Room(Answers(device, s.requests), capacity) && !Overflows(s, device(r), capacity)
    ensures var next := Advance(s, r, device(r));
            Tracks(device, next) && Room(Answers(device, next.requests), capacity)
  {
    AnswersAppend(device, s.requests, r);
    if device(r).Some? {
      ConcatAppend(Answers(device, s.requests), device(r).value);
    }
  }

  lemma {:induction false} CollectEnds(device: Device, signing: bool, count: byte, capacity: nat, index: nat, s: State)
    requires 1 <= index <= 255 && index == |s.requests| + 1 && Tracks(device, s)
    requires Room(Answers(device, s.requests), capacity) && AllRight(device, signing, count, capacity, s.requests)
    ensures var (status, s') := Collect(device, signing, count, capacity, index, s);
            Ended(device, signing, count, capacity, status, s')
    decreases 255 - index
  {
    if index <= 254 && s.received != count {
      var r := Ask(signing, count, index, s.received);
      AllRightAppend(device, signing, count, capacity, s.requests, r);
      if Overflows(s, device(r), capacity) {
        OverflowEnds(device, signing, count, capacity, s, r);
      } else {
        AdvanceTracks(device, capacity, s, r);
        CollectEnds(device, signing, count, capacity, index + 1, Advance(s, r, device(r)));
      }
    }
  }

  /** Every collection asks in this way and ends in one of these ways, whatever the device answers. */
  lemma AnyDevice(device: Device, signing: bool, count: byte, capacity: nat)
    ensures var (status, s) := Collect(device, signing, count, capacity, 1, State(0, [], []));
            Ended(device, signing, count, capacity, status, s)
  {
    CollectEnds(device, signing, count, capacity, 1, State(0, [], []));
  }
}
