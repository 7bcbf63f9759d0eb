/** The attester's fallback: collecting measurement records one index at a time. */
module MeasurementCollection {
  import opened Words

  const LAST_INDEX: byte := 0xFE

  datatype Request = Request(index: nat, signed: bool)

  /** Whether and with what record the device answers; no index is asked twice. */
  type Device = Request -> Option<seq<byte>>

  datatype Status = Success | BufferTooSmall | InvalidStatePeer

  datatype State = State(received: nat, record: seq<byte>, requests: seq<Request>)

  // ----- The loop -----

  /** The request at an index; `signing` is the signature bit of the configured attribute. */
  function Ask(signing: bool, count: byte, index: nat, received: nat): Request {
    Request(index, signing || received == count - 1)
  }

  function Advance(s: State, request: Request, one: Option<seq<byte>>): State {
    match one
    case None => s.(requests := s.requests + [request])
    case Some(record) => State(s.received + 1, s.record + record, s.requests + [request])
  }

  /** An answer that leaves no byte of the buffer free. */
  predicate Overflows(s: State, one: Option<seq<byte>>, capacity: nat) {
    one.Some? && |s.record| + |one.value| >= capacity
  }

  /** The loop from an index on. */
  function Collect(device: Device, signing: bool, count: byte, capacity: nat, index: nat, s: State): (Status, State)
    decreases 0xFF - index
  {
    if index > LAST_INDEX || s.received == count then
      (if s.received != count then InvalidStatePeer else Success, s)
    else
      var request := Ask(signing, count, index, s.received);
      var one := device(request);
      if Overflows(s, one, capacity) then (BufferTooSmall, s.(received := s.received + 1, requests := s.requests + [request]))
      else Collect(device, signing, count, capacity, index + 1, Advance(s, request, one))
  }

  method Append(buffer: array<byte>, offset: nat, one: seq<byte>, ghost before: seq<byte>, ghost record: seq<byte>)
    returns (ok: bool)
    requires offset == |record| && Holds(buffer[..], before, record)
    modifies buffer
    ensures ok <==> offset + |one| < buffer.Length
    ensures Holds(buffer[..], before, if ok then record + one else record)
  {
    ok := |one| < buffer.Length - offset;
    if ok {
      forall i | 0 <= i < |one| {
        buffer[offset + i] := one[i];
      }
    }
  }

  /** One request per index until all reported records have arrived. */
  method GetOneByOne(device: Device, signing: bool, count: byte, buffer: array<byte>)
    returns (status: Status, length: nat, requests: seq<Request>)
    modifies buffer
    ensures var (status', s) := Collect(device, signing, count, buffer.Length, 1, State(0, [], []));
            && status == status' && requests == s.requests && Holds(buffer[..], old(buffer[..]), s.record)
            && length == if status == Success then |s.record| else buffer.Length
  {
    ghost var before, s := buffer[..], State(0, [], []);
    ghost var result := Collect(device, signing, count, buffer.Length, 1, s);
    var offset, received, signed, index := 0, 0, signing, 1;
    length, requests := buffer.Length, [];
    while index <= 0xFE && received != count
      invariant 1 <= index <= 0xFF && received <= count
      invariant received == s.received && requests == s.requests
      invariant offset == |s.record| && Holds(buffer[..], before, s.record)
      invariant signed && received != count ==> signing || received == count - 1
      invariant signing ==> signed
      invariant result == Collect(device, signing, count, buffer.Length, index, s)
    {
      if received == count - 1 {
        signed := true;
      }
      var request := Request(index, signed);
      assert request == Ask(signing, count, index, s.received);
      requests := requests + [request];
      var one := device(request);
      if one.Some? {
        received := received + 1;
        var ok := Append(buffer, offset, one.value, before, s.record);
        if !ok {
          return BufferTooSmall, length, requests;
        }
        offset := offset + |one.value|;
      }
      s := Advance(s, request, one);
      index := index + 1;
    }
    if received != count {
      return InvalidStatePeer, length, requests;
    }
    status, length := Success, offset;
  }

  /** First asks for all records at once; `whole` is the answer, which libspdm has stored if it fits. */
  method GetMeasurement(whole: Option<seq<byte>>, device: Device, signing: bool, count: byte, buffer: array<byte>)
    returns (status: Status, length: nat, requests: seq<Request>)
    requires whole.Some? ==> |whole.value| <= buffer.Length
    modifies buffer
    ensures whole.Some? ==>
              status == Success && length == |whole.value| && requests == [] && Holds(buffer[..], old(buffer[..]), whole.value)
    ensures whole.None? ==>
              var (status', s) := Collect(device, signing, count, buffer.Length, 1, State(0, [], []));
              && status == status' && requests == s.requests && Holds(buffer[..], old(buffer[..]), s.record)
              && length == if status == Success then |s.record| else buffer.Length
  {
    if whole.Some? {
      forall i | 0 <= i < |whole.value| {
        buffer[i] := whole.value[i];
      }
      return Success, |whole.value|, [];
    }
    status, length, requests := GetOneByOne(device, signing, count, buffer);
  }

  // ----- A device that answers on a set of indices -----

  type Records = map<nat, seq<byte>>

  function Answering(m: Records): Device {
    (r: Request) => if r.index in m then Some(m[r.index]) else None
  }

  /** Answers below index n. */
  function Count(m: Records, n: nat): nat {
    if n <= 1 then 0 else Count(m, n - 1) + if n - 1 in m then 1 else 0
  }

  /** Their records in ascending order. */
  function InOrder(m: Records, n: nat): seq<byte> {
    if n <= 1 then [] else if n - 1 in m then InOrder(m, n - 1) + m[n - 1] else InOrder(m, n - 1)
  }

  /** The first index from n on that is not asked. */
  function Stop(m: Records, count: byte, n: nat): (e: nat)
    ensures n <= e && (n <= 0xFF ==> e <= 0xFF)
    decreases 0xFF - n
  {
    if n > LAST_INDEX || Count(m, n) == count then n else Stop(m, count, n + 1)
  }

  function Asked(m: Records, signing: bool, count: byte, n: nat): seq<Request> {
    if n <= 1 then [] else Asked(m, signing, count, n - 1) + [Ask(signing, count, n - 1, Count(m, n - 1))]
  }

  function At(m: Records, signing: bool, count: byte, n: nat): State {
    State(Count(m, n), InOrder(m, n), Asked(m, signing, count, n))
  }

  /** The records up to here fit: the code wants a byte to spare. */
  predicate Fits(m: Records, n: nat, capacity: nat) {
    Count(m, n) == 0 || |InOrder(m, n)| < capacity
  }

  lemma {:induction false} Grows(m: Records, n: nat, e: nat)
    requires 1 <= n <= e
    ensures Count(m, n) <= Count(m, e) && InOrder(m, n) <= InOrder(m, e)
    ensures Count(m, n) == Count(m, e) ==> InOrder(m, n) == InOrder(m, e)
  {
    if n < e {
      Grows(m, n, e - 1);
    }
  }

  /** From index n on, the first one whose answer does not fit. */
  function Full(m: Records, capacity: nat, n: nat): (x: nat)
    ensures n <= x
    decreases 0xFF - n
  {
    if n > LAST_INDEX || !Fits(m, n + 1, capacity) then n else Full(m, capacity, n + 1)
  }

  /** The state when the answer at index x does not fit: it is counted but not stored. */
  function Overflowed(m: Records, signing: bool, count: byte, x: nat): State {
    State(Count(m, x) + 1, InOrder(m, x), Asked(m, signing, count, x + 1))
  }

  /** How the loop ends from index n on. */
  function Ending(m: Records, signing: bool, count: byte, capacity: nat, n: nat): (Status, State) {
    var e := Stop(m, count, n);
    if !Fits(m, e, capacity) then (BufferTooSmall, Overflowed(m, signing, count, Full(m, capacity, n)))
    else (if Count(m, e) == count then Success else InvalidStatePeer, At(m, signing, count, e))
  }

  lemma {:induction false} CollectFrom(m: Records, signing: bool, count: byte, capacity: nat, n: nat)
    requires 1 <= n <= 0xFF && Fits(m, n, capacity)
    ensures Collect(Answering(m), signing, count, capacity, n, At(m, signing, count, n))
         == Ending(m, signing, count, capacity, n)
    decreases 0xFF - n
  {
    if n <= LAST_INDEX && Count(m, n) != count {
      CollectStep(m, signing, count, capacity, n);
      Grows(m, n + 1, Stop(m, count, n + 1));
      if Fits(m, n + 1, capacity) {
        CollectFrom(m, signing, count, capacity, n + 1);
      }
    }
  }

  lemma CollectStep(m: Records, signing: bool, count: byte, capacity: nat, n: nat)
    requires 1 <= n <= LAST_INDEX && Fits(m, n, capacity) && Count(m, n) != count
    ensures Collect(Answering(m), signing, count, capacity, n, At(m, signing, count, n))
         == if Fits(m, n + 1, capacity) then Collect(Answering(m), signing, count, capacity, n + 1, At(m, signing, count, n + 1))
            else (BufferTooSmall, Overflowed(m, signing, count, n))
  {
  }

  /** The outcome for every set of answers, reported count and buffer. */
  lemma Collected(m: Records, signing: bool, count: byte, capacity: nat)
    ensures Collect(Answering(m), signing, count, capacity, 1, State(0, [], [])) == Ending(m, signing, count, capacity, 1)
  {
    CollectFrom(m, signing, count, capacity, 1);
  }

  // ----- A device that reports its own number of records -----

  /** Answers only on indices the loop asks. */
  predicate Indexed(m: Records) {
    forall i :: i in m ==> 1 <= i <= LAST_INDEX
  }

  lemma {:induction false} CountIsSize(m: Records, n: nat)
    requires n >= 1
    ensures Count(m, n) == |set i | i in m && 1 <= i < n|
  {
    var below := set i | i in m && 1 <= i < n;
    if n == 1 {
      assert below == {};
    } else {
      CountIsSize(m, n - 1);
      var before := set i | i in m && 1 <= i < n - 1;
      assert below == if n - 1 in m then before + {n - 1} else before;
    }
  }

  lemma AllCounted(m: Records)
    requires Indexed(m)
    ensures Count(m, 0xFF) == |m|
  {
    CountIsSize(m, 0xFF);
    assert (set i | i in m && 1 <= i < 0xFF) == m.Keys;
  }

  lemma {:induction false} StopReached(m: Records, count: byte, n: nat)
    requires 1 <= n <= 0xFF && Count(m, n) <= count <= Count(m, 0xFF)
    ensures Count(m, Stop(m, count, n)) == count
    decreases 0xFF - n
  {
    if n <= LAST_INDEX && Count(m, n) != count {
      StopReached(m, count, n + 1);
    }
  }

  /**
   * If the device answers on as many indices as it reports, the result is its records in
   * ascending index order, exactly when they leave a byte of the buffer free.
   */
  lemma OneByOne(m: Records, signing: bool, count: byte, capacity: nat)
    requires Indexed(m) && |m| == count
    ensures var (status, s) := Collect(Answering(m), signing, count, capacity, 1, State(0, [], []));
            && (status == Success <==> m == map[] || |InOrder(m, 0xFF)| < capacity)
            && (status == Success ==> s.record == InOrder(m, 0xFF))
            && (status != Success ==> status == BufferTooSmall)
  {
    var e := Stop(m, count, 1);
    AllCounted(m);
    Collected(m, signing, count, capacity);
    StopReached(m, count, 1);
    Grows(m, e, 0xFF);
  }

  // ----- Which requests ask for a signature -----

  lemma {:induction false} AskedAt(m: Records, signing: bool, count: byte, n: nat, k: nat)
    requires 1 <= k < n
    ensures |Asked(m, signing, count, n)| == n - 1
    ensures Asked(m, signing, count, n)[k - 1] == Request(k, signing || Count(m, k) == count - 1)
  {
    if n > 2 {
      AskedAt(m, signing, count, n - 1, if k < n - 1 then k else 1);
    }
  }

  /** Whatever the outcome, the requests are those described. */
  lemma RequestsAsked(m: Records, signing: bool, count: byte, capacity: nat) returns (n: nat)
    ensures n >= 1 && Collect(Answering(m), signing, count, capacity, 1, State(0, [], [])).1.requests == Asked(m, signing, count, n)
  {
    Collected(m, signing, count, capacity);
    n := if Fits(m, Stop(m, count, 1), capacity) then Stop(m, count, 1) else Full(m, capacity, 1) + 1;
  }

  /** Whatever the outcome, request k went to index k, with the signature bit as stated. */
  lemma RequestSigned(m: Records, signing: bool, count: byte, capacity: nat, k: nat)
    requires 1 <= k <= |Collect(Answering(m), signing, count, capacity, 1, State(0, [], [])).1.requests|
    ensures Collect(Answering(m), signing, count, capacity, 1, State(0, [], [])).1.requests[k - 1]
         == Request(k, signing || Count(m, k) == count - 1)
  {
    var n := RequestsAsked(m, signing, count, capacity);
    AskedLength(m, signing, count, n);
    AskedAt(m, signing, count, n, k);
  }

  lemma {:induction false} AskedLength(m: Records, signing: bool, count: byte, n: nat)
    requires n >= 1
    ensures |Asked(m, signing, count, n)| == n - 1
  {
    if n > 1 {
      AskedLength(m, signing, count, n - 1);
    }
  }

  /** Only the last request is signed. */
  predicate SignedLastOnly(requests: seq<Request>) {
    forall i :: 0 <= i < |requests| ==> (requests[i].signed <==> i == |requests| - 1)
  }

  lemma {:induction false} LastAnswer(m: Records, count: byte, n: nat)
    requires 1 <= n <= 0xFF && Count(m, n) < count <= Count(m, 0xFF)
    ensures var e := Stop(m, count, n);
            n < e && e - 1 in m && Count(m, e - 1) == count - 1
    decreases 0xFF - n
  {
    if Count(m, n + 1) != count {
      LastAnswer(m, count, n + 1);
    }
  }

  /** The request at index k carries no signature. */
  predicate Unsigned(m: Records, signing: bool, count: byte, k: nat) {
    !signing && Count(m, k) != count - 1
  }

  lemma SignedWhen(m: Records, signing: bool, count: byte, e: nat)
    requires e >= 2 && Count(m, e - 1) == count - 1
    ensures SignedLastOnly(Asked(m, signing, count, e)) <==> forall k :: 1 <= k < e - 1 ==> Unsigned(m, signing, count, k)
  {
    var requests := Asked(m, signing, count, e);
    AskedLength(m, signing, count, e);
    if k :| 1 <= k < e - 1 && !Unsigned(m, signing, count, k) {
      AskedAt(m, signing, count, e, k);
      assert requests[k - 1].signed && k - 1 < |requests| - 1;
    } else {
      forall i | 0 <= i < |requests|
        ensures requests[i].signed <==> i == |requests| - 1
      {
        AskedAt(m, signing, count, e, i + 1);
        assert i < |requests| - 1 ==> Unsigned(m, signing, count, i + 1);
      }
    }
  }

  /** The last index asked is the largest one answered. */
  lemma LastIsLargest(m: Records, count: byte)
    requires Indexed(m) && |m| == count && m != map[]
    ensures var last := Stop(m, count, 1) - 1;
            last in m && (forall i :: i in m ==> i <= last) && Count(m, last) == count - 1
  {
    var e := Stop(m, count, 1);
    AllCounted(m);
    LastAnswer(m, count, 1);
    StopReached(m, count, 1);
    forall i | i in m ensures i <= e - 1 {
      if i >= e {
        Grows(m, e, i);
        Grows(m, i + 1, 0xFF);
      }
    }
  }

  /**
   * The comment in the code wants the signature in the last message only. In a successful
   * collection that holds exactly when the largest index answered is 1, or directly follows another
   * and the configured attribute does not ask for signatures by itself.
   */
  lemma SignedLastOnlyExactlyWhen(m: Records, signing: bool, count: byte, capacity: nat) returns (last: nat)
    requires Indexed(m) && |m| == count && m != map[] && |InOrder(m, 0xFF)| < capacity
    ensures last in m && forall i :: i in m ==> i <= last
    ensures var (status, s) := Collect(Answering(m), signing, count, capacity, 1, State(0, [], []));
            && status == Success && |s.requests| == last
            && (SignedLastOnly(s.requests) <==> last == 1 || (!signing && last - 1 in m))
  {
    var e := Stop(m, count, 1);
    last := e - 1;
    LastIsLargest(m, count);
    CollectedAll(m, signing, count, capacity);
    AskedLength(m, signing, count, e);
    SignedAsked(m, signing, count, e);
  }

  lemma CollectedAll(m: Records, signing: bool, count: byte, capacity: nat)
    requires Indexed(m) && |m| == count && |InOrder(m, 0xFF)| < capacity
    ensures Collect(Answering(m), signing, count, capacity, 1, State(0, [], [])) == (Success, At(m, signing, count, Stop(m, count, 1)))
  {
    OneByOne(m, signing, count, capacity);
    Collected(m, signing, count, capacity);
  }

  lemma SignedAsked(m: Records, signing: bool, count: byte, e: nat)
    requires e >= 2 && Count(m, e - 1) == count - 1
    ensures SignedLastOnly(Asked(m, signing, count, e)) <==> e - 1 == 1 || (!signing && e - 2 in m)
  {
    SignedWhen(m, signing, count, e);
    if e - 1 > 1 {
      if signing {
        assert !Unsigned(m, signing, count, 1);
      } else if e - 2 in m {
        forall k | 1 <= k < e - 1 ensures Unsigned(m, signing, count, k) { Grows(m, k, e - 2); }
      } else {
        assert !Unsigned(m, signing, count, e - 2);
      }
    }
  }

  lemma SampleState(m: Records)
    requires m == map[1 := [0], 3 := [0]]
    ensures Stop(m, 2, 1) == 4
    ensures At(m, false, 2, 4) == State(2, [0, 0], [Request(1, false), Request(2, true), Request(3, true)])
  {
    assert Count(m, 1) == 0 && Count(m, 2) == 1 && Count(m, 3) == 1 && Count(m, 4) == 2;
    assert Stop(m, 2, 1) == Stop(m, 2, 2) == Stop(m, 2, 3) == 4;
    assert InOrder(m, 2) == [0] && InOrder(m, 3) == [0];
    assert Asked(m, false, 2, 2) == [Request(1, false)];
    assert Asked(m, false, 2, 3) == [Request(1, false), Request(2, true)];
  }

  /** Answers on 1 and 3: the requests for 2 and 3 are both signed. */
  lemma TwoSignedRequests(m: Records, capacity: nat)
    requires m == map[1 := [0], 3 := [0]] && capacity > 2
    ensures Collect(Answering(m), false, 2, capacity, 1, State(0, [], []))
         == (Success, State(2, [0, 0], [Request(1, false), Request(2, true), Request(3, true)]))
  {
    SampleState(m);
    OutcomeAt(m, false, 2, capacity, 4);
  }

  lemma OutcomeAt(m: Records, signing: bool, count: byte, capacity: nat, e: nat)
    requires e == Stop(m, count, 1) && Fits(m, e, capacity) && Count(m, e) == count
    ensures Collect(Answering(m), signing, count, capacity, 1, State(0, [], [])) == (Success, At(m, signing, count, e))
  {
    Collected(m, signing, count, capacity);
  }
}
