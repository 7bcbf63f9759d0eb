/** What holds over every run of the TDISP interface from zeroed memory. */
module TdispRuns {
  import opened Words
  import opened SegmentedTransfer
  import opened TransferTheorems
  import opened TdispReport
  import opened TdispReportFlow
  import opened TdispDevice

  /** A run: the requests in order, the context before and after each, and the responses. */
  datatype Run = Run(requests: seq<Request>, contexts: seq<Context>, responses: seq<Response>) {
    predicate StepAt(k: nat)
      requires k < |requests| == |responses| && |contexts| == |requests| + 1
    {
      (contexts[k + 1], responses[k]) == Step(contexts[k], requests[k])
    }

    /** The device produces this run from zeroed memory. */
    predicate Valid() {
      && |responses| == |requests| && |contexts| == |requests| + 1
      && contexts[0] == ZeroContext()
      && forall k :: 0 <= k < |requests| ==> StepAt(k)
    }
  }

  /** Every sequence of requests has a run. */
  function RunOf(requests: seq<Request>): (run: Run)
    ensures run.Valid() && run.requests == requests
  {
    if requests == [] then Run([], [ZeroContext()], []) else
    var n := |requests| - 1;
    var before := RunOf(requests[..n]);
    var (c, response) := Step(before.contexts[n], requests[n]);
    var run := Run(requests, before.contexts + [c], before.responses + [response]);
    assert forall k :: 0 <= k < n ==> before.StepAt(k) ==> run.StepAt(k);
    run
  }

  // ----- Running needs a lock and a matching start -----

  /** What a lock fixes. */
  predicate SameBinding(a: Context, b: Context) {
    a.id == b.id && a.lockParam == b.lockParam && a.nonce == b.nonce && a.report == b.report
  }

  /** Neither STOP nor GET_VERSION. */
  predicate Harmless(response: Response) {
    !response.StopRsp? && !response.VersionRsp?
  }

  /** Request i locked the interface, and until point n everything it fixed has stayed as it was. */
  predicate LockHolds(run: Run, i: nat, n: nat)
    requires run.Valid() && i < n <= |run.requests|
  {
    && run.responses[i].LockRsp?
    && (forall k :: i < k < n ==> Harmless(run.responses[k]))
    && (forall k :: i < k <= n ==> SameBinding(run.contexts[k], run.contexts[i + 1]))
  }

  /** Request j started the interface that request i locked, with the nonce that i returned. */
  predicate StartMatches(run: Run, i: nat, j: nat)
    requires run.Valid() && i < |run.requests| && j < |run.requests|
  {
    && run.responses[i].LockRsp? && run.responses[j].StartRsp?
    && run.requests[j].command.StartInterface? && run.requests[j].command.nonce == run.responses[i].nonce
    && run.requests[i].id == run.requests[j].id
  }

  /** An accepted LOCK stores its parameters, the nonce it returns and the report it generates. */
  lemma LockEffect(c: Context, r: Request)
    requires Step(c, r).1.LockRsp?
    ensures var c' := Step(c, r).0;
            && r.command.LockInterface? && c.state == ConfigUnlocked && c'.state == ConfigLocked
            && c'.id == r.id && c'.lockParam == r.command.param && c'.nonce == Step(c, r).1.nonce
            && c'.report == Encode(GeneratedReport(r.json))
  {
  }

  /** Only LOCK leaves the unlocked state. */
  lemma UnlockedChanges(c: Context, r: Request)
    requires c.state == ConfigUnlocked
    ensures var (c', response) := Step(c, r);
            !response.StartRsp? && c'.state == if response.LockRsp? then ConfigLocked else ConfigUnlocked
  {
  }

  /** While locked or running, a request that changes anything bound says so in its response. */
  lemma BoundChanges(c: Context, r: Request)
    requires c.state == ConfigLocked || c.state == Running
    ensures var (c', response) := Step(c, r);
            if !Harmless(response) then c'.state == ConfigUnlocked
            else SameBinding(c', c) && !response.LockRsp? &&
                 if response.StartRsp? then
                   && c.state == ConfigLocked && c'.state == Running && r.id == c.id
                   && r.command.StartInterface? && r.command.nonce == c.nonce
                 else c'.state == c.state
  {
  }

  predicate Bound(run: Run, n: nat)
    requires run.Valid() && n <= |run.requests|
  {
    match run.contexts[n].state
    case ConfigUnlocked => true
    case ConfigLocked => exists i :: 0 <= i < n && LockHolds(run, i, n)
    case Running => exists i, j :: 0 <= i < j < n && LockHolds(run, i, n) && StartMatches(run, i, j)
    case ErrorState => false
  }

  lemma LockHoldsStep(run: Run, i: nat, n: nat)
    requires run.Valid() && i < n < |run.requests| && LockHolds(run, i, n)
    requires Harmless(run.responses[n]) && SameBinding(run.contexts[n + 1], run.contexts[n])
    ensures LockHolds(run, i, n + 1)
  {
    assert SameBinding(run.contexts[n], run.contexts[i + 1]);
  }

  lemma {:induction false} AlwaysBound(run: Run, n: nat)
    requires run.Valid() && n <= |run.requests|
    ensures Bound(run, n)
  {
    if n > 0 {
      AlwaysBound(run, n - 1);
      BoundStep(run, n - 1);
    }
  }

  lemma BoundStep(run: Run, n: nat)
    requires run.Valid() && n < |run.requests| && Bound(run, n)
    ensures Bound(run, n + 1)
  {
    assert run.StepAt(n);
    var c, c' := run.contexts[n], run.contexts[n + 1];
    if c.state == ConfigUnlocked {
      UnlockedChanges(c, run.requests[n]);
      if run.responses[n].LockRsp? {
        assert LockHolds(run, n, n + 1);
      }
    } else {
      BoundChanges(c, run.requests[n]);
      if Harmless(run.responses[n]) {
        if c.state == Running {
          var i, j :| 0 <= i < j < n && LockHolds(run, i, n) && StartMatches(run, i, j);
          LockHoldsStep(run, i, n);
        } else {
          var i :| 0 <= i < n && LockHolds(run, i, n);
          LockHoldsStep(run, i, n);
          if run.responses[n].StartRsp? {
            StartAfterLock(run, i, n);
          }
        }
      }
    }
  }

  lemma StartAfterLock(run: Run, i: nat, n: nat)
    requires run.Valid() && i < n < |run.requests| && LockHolds(run, i, n)
    requires var r, c := run.requests[n], run.contexts[n];
             run.responses[n].StartRsp? && r.id == c.id && r.command.StartInterface? && r.command.nonce == c.nonce
    ensures StartMatches(run, i, n)
  {
    assert run.StepAt(i);
    LockEffect(run.contexts[i], run.requests[i]);
    assert SameBinding(run.contexts[n], run.contexts[i + 1]);
  }

  /** A started interface runs until it is stopped or reset. */
  lemma {:induction false} StartedRuns(run: Run, j: nat, n: nat)
    requires run.Valid() && j < n <= |run.requests| && run.responses[j].StartRsp?
    requires forall k :: j < k < n ==> Harmless(run.responses[k])
    ensures run.contexts[n].state == Running
  {
    assert run.StepAt(n - 1);
    if j == n - 1 {
      StartLeadsToRunning(run.contexts[j], run.requests[j]);
    } else {
      StartedRuns(run, j, n - 1);
      BoundChanges(run.contexts[n - 1], run.requests[n - 1]);
    }
  }

  lemma StartLeadsToRunning(c: Context, r: Request)
    requires Step(c, r).1.StartRsp?
    ensures Step(c, r).0.state == Running
  {
  }

  /**
   * At every point of every run the interface is running exactly when some LOCK and a later START
   * with the nonce that LOCK returned both succeeded on the same interface, neither STOP nor
   * GET_VERSION succeeded since the LOCK, and id, lock parameters, nonce and report are still
   * those of the LOCK.
   */
  lemma RunningExactlyWhen(run: Run, n: nat)
    requires run.Valid() && n <= |run.requests|
    ensures run.contexts[n].state == Running <==>
            exists i, j :: 0 <= i < j < n && LockHolds(run, i, n) && StartMatches(run, i, j)
  {
    AlwaysBound(run, n);
    if i, j :| 0 <= i < j < n && LockHolds(run, i, n) && StartMatches(run, i, j) {
      StartedRuns(run, j, n);
    }
  }

  // ----- The report the requester gets -----

  /** The windows asked for in earlier rounds. */
  type History = nat -> (uint16, uint16)

  function AskFor(id: InterfaceId, window: (uint16, uint16)): Request {
    Request(id, VERSION_10, true, GetReport(window.0, window.1), None, None)
  }

  /** The device after the first k rounds. */
  function AfterRounds(c: Context, id: InterfaceId, history: History, k: nat): Context {
    if k == 0 then c else Step(AfterRounds(c, id, history, k - 1), AskFor(id, history(k - 1))).0
  }

  /** Round k: the device, having handled the earlier rounds, takes a step. */
  function DeviceReply(c: Context, id: InterfaceId, history: History, k: nat, window: (uint16, uint16)): Reply {
    match Step(AfterRounds(c, id, history, k), AskFor(id, window)).1
    case ReportRsp(p) => if |p.data| < 0x1_0000 then AnswerReply(Some(p)) else Truncated
    case Error(_) => AnswerReply(None)
    case _ => Truncated
  }

  function DevicePeer(c: Context, id: InterfaceId, history: History): Peer {
    (k: nat, offset: uint16, length: uint16) => DeviceReply(c, id, history, k, (offset, length))
  }

  lemma {:induction false} ReportsChangeNothing(c: Context, history: History, k: nat)
    ensures AfterRounds(c, c.id, history, k) == c
  {
    if k > 0 {
      ReportsChangeNothing(c, history, k - 1);
    }
  }

  /** The device answers every round as the responder of the transfer does. */
  lemma DeviceIsResponder(c: Context, history: History)
    ensures SamePeer(DevicePeer(c, c.id, history), Responder(c.report, TDISP_PORTION))
  {
    var device, responder := DevicePeer(c, c.id, history), Responder(c.report, TDISP_PORTION);
    forall k: nat, offset: uint16, length: uint16
      ensures device(k, offset, length) == responder(k, offset, length)
    {
      ReportsChangeNothing(c, history, k);
    }
  }

  /** A fetch ended well and walking what it stored gives the report. */
  predicate Delivers(o: Outcome, report: Report) {
    o.status == Success && o.size <= |o.buffer| && Parse(o.buffer[..o.size]) == Some((report, []))
  }

  /** Fetching an encoded report into a full-size buffer and walking it gives the report back. */
  lemma EncodedReportDelivered(report: Report, buffer: seq<byte>, limit: nat)
    requires Countable(report) && |Encode(report)| <= REPORT_MAX_SIZE
    requires |buffer| == REPORT_MAX_SIZE && limit >= REPORT_MAX_SIZE
    ensures Delivers(Fetch(TDISP_PORTION, Responder(Encode(report), TDISP_PORTION), limit, 0, Start(buffer)), report)
  {
    var bytes := Encode(report);
    RoundsBound(|bytes|, TDISP_PORTION);
    TransferRefinesCopy(bytes, TDISP_PORTION, limit, buffer);
    var o := Fetch(TDISP_PORTION, Responder(bytes, TDISP_PORTION), limit, 0, Start(buffer));
    assert o.buffer[..o.size] == bytes == bytes + [];
    ParseEncoded(report, []);
  }

  /** At every locked or running point the report is the one the LOCK still in force generated. */
  lemma BoundReport(run: Run, n: nat) returns (i: nat)
    requires run.Valid() && n <= |run.requests|
    requires run.contexts[n].state == ConfigLocked || run.contexts[n].state == Running
    ensures i < n && LockHolds(run, i, n)
    ensures run.contexts[n].report == Encode(GeneratedReport(run.requests[i].json))
  {
    AlwaysBound(run, n);
    if run.contexts[n].state == Running {
      var k, j :| 0 <= k < j < n && LockHolds(run, k, n) && StartMatches(run, k, j);
      i := k;
    } else {
      var k :| 0 <= k < n && LockHolds(run, k, n);
      i := k;
    }
    assert run.StepAt(i);
    LockEffect(run.contexts[i], run.requests[i]);
    assert SameBinding(run.contexts[n], run.contexts[i + 1]);
  }

  /** The same from the device itself. */
  lemma DeviceReportDelivered(c: Context, report: Report, history: History, buffer: seq<byte>, limit: nat)
    requires c.report == Encode(report) && Countable(report)
    requires |buffer| == REPORT_MAX_SIZE && limit >= REPORT_MAX_SIZE
    ensures Delivers(Fetch(TDISP_PORTION, DevicePeer(c, c.id, history), limit, 0, Start(buffer)), report)
  {
    DeviceIsResponder(c, history);
    SamePeerSameFetch(TDISP_PORTION, DevicePeer(c, c.id, history), Responder(c.report, TDISP_PORTION), limit, 0, Start(buffer));
    EncodedReportDelivered(report, buffer, limit);
  }

  /**
   * At every locked or running point of every run, fetching the report from the device and walking
   * it gives back exactly the report that the LOCK still in force generated.
   */
  lemma LockedReportDelivered(run: Run, n: nat, history: History, buffer: seq<byte>, limit: nat) returns (i: nat)
    requires run.Valid() && n <= |run.requests|
    requires run.contexts[n].state == ConfigLocked || run.contexts[n].state == Running
    requires |buffer| == REPORT_MAX_SIZE && limit >= REPORT_MAX_SIZE
    ensures i < n && LockHolds(run, i, n)
    ensures var c := run.contexts[n];
            Delivers(Fetch(TDISP_PORTION, DevicePeer(c, c.id, history), limit, 0, Start(buffer)),
                     GeneratedReport(run.requests[i].json))
  {
    i := BoundReport(run, n);
    DeviceReportDelivered(run.contexts[n], GeneratedReport(run.requests[i].json), history, buffer, limit);
  }

  // ----- The requester's session -----

  function Ask(id: InterfaceId, command: Command, nonce: Nonce, json: Option<JsonReport>): Request {
    Request(id, VERSION_10, true, command, Some(nonce), json)
  }

  /** After GET_VERSION and GET_CAPABILITIES: reset, with the requester's capabilities recorded. */
  function Greeted(id: InterfaceId): Context {
    Initialised(id).(reqCaps := 0)
  }

  function LockedBy(id: InterfaceId, param: LockParam, nonce: Nonce, json: Option<JsonReport>): Context {
    Greeted(id).(lockParam := param, nonce := nonce, state := ConfigLocked, report := GeneratedBytes(json))
  }

  lemma ScriptedStates(c: Context, id: InterfaceId, param: LockParam, nonce: Nonce, json: Option<JsonReport>)
    ensures Step(c, Ask(id, GetVersion, nonce, json)).0 == Initialised(id)
    ensures Step(Initialised(id), Ask(id, GetCapabilities(0), nonce, json))
         == (Greeted(id), CapabilitiesRsp(Initialised(id).rspCaps)) && Greeted(id).state == ConfigUnlocked
    ensures var locked := LockedBy(id, param, nonce, json);
            && Step(Greeted(id), Ask(id, LockInterface(param), nonce, json)) == (locked, LockRsp(nonce))
            && Step(locked, Ask(id, StartInterface(nonce), nonce, json)) == (locked.(state := Running), StartRsp)
            && Step(locked.(state := Running), Ask(id, StopInterface, nonce, json)) == (locked.(state := ConfigUnlocked), StopRsp)
  {
  }

  /** The report the requester's scripted session fetches and walks is the one its own LOCK generated, whatever the device held before. */
  lemma ScriptedReport(c: Context, id: InterfaceId, param: LockParam, nonce: Nonce, json: Option<JsonReport>,
                       history: History, buffer: seq<byte>, limit: nat)
    requires |buffer| == REPORT_MAX_SIZE && limit >= REPORT_MAX_SIZE
    ensures var reset := Step(c, Ask(id, GetVersion, nonce, json)).0;
            var greeted := Step(reset, Ask(id, GetCapabilities(0), nonce, json)).0;
            var locked := Step(greeted, Ask(id, LockInterface(param), nonce, json)).0;
            Delivers(Fetch(TDISP_PORTION, DevicePeer(locked, id, history), limit, 0, Start(buffer)), GeneratedReport(json))
  {
    ScriptedStates(c, id, param, nonce, json);
    DeviceReportDelivered(LockedBy(id, param, nonce, json), GeneratedReport(json), history, buffer, limit);
  }
}
