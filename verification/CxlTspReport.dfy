/** The TSP configuration report over a run: what a requester gets that fetches it in portions. */
module CxlTspReport {
  import opened Words
  import opened CxlTspData
  import opened CxlTspDevice
  import opened CxlTspRuns
  import opened SegmentedTransfer
  import opened TransferTheorems

  /** The report the device regenerates for every request. */
  function ReportBytes(d: Device): (s: seq<byte>)
    ensures |s| == REPORT_SIZE
  {
    Reported(d).report[..REPORT_SIZE]
  }

  /** A well-formed report request on a session the device knows. */
  predicate ReportRequest(d: Device, r: Request) {
    r.command.GetConfigurationReport? && WellFormed(r) && Privileged(d, r, KnownSession)
  }

  predicate AllReportRequests(d: Device, rs: seq<Request>) {
    forall k :: 0 <= k < |rs| ==> ReportRequest(d, rs[k])
  }

  /** The answer is a portion of the same report, and the device changes nothing but its report. */
  lemma ReportAnswered(d: Device, r: Request)
    requires ReportRequest(d, r) && d.state != ErrorState
    ensures Step(d, r).0 == Reported(d) && ReportBytes(Reported(d)) == ReportBytes(d)
    ensures Step(d, r).1 == match Serve(ReportBytes(d), CXL_PORTION, r.command.offset, r.command.length)
                            case None => Error(InvalidRequest)
                            case Some(p) => ReportRsp(p)
  {
  }

  lemma {:induction false} ReportUnchanged(d: Device, rs: seq<Request>)
    requires AllReportRequests(d, rs) && d.state != ErrorState
    ensures After(d, rs) == if rs == [] then d else Reported(d)
  {
    if rs != [] {
      var init := rs[..|rs| - 1];
      ReportUnchanged(d, init);
      ReportAnswered(d, rs[|rs| - 1]);
      ReportAnswered(Reported(d), rs[|rs| - 1]);
      assert Reported(Reported(d)) == Reported(d);
    }
  }

  // ----- The device as the peer of a fetch -----

  /** The windows asked for in earlier rounds. */
  type History = nat -> (uint16, uint16)

  /** The same request for another window. */
  function AskFor(r: Request, window: (uint16, uint16)): Request {
    r.(command := GetConfigurationReport(window.0, window.1))
  }

  function Earlier(r: Request, history: History, k: nat): seq<Request> {
    seq(k, i requires 0 <= i < k => AskFor(r, history(i)))
  }

  /** Round k: the device, having handled the earlier rounds, takes a step. */
  function DeviceReply(d: Device, r: Request, history: History, k: nat, window: (uint16, uint16)): Reply {
    match Step(After(d, Earlier(r, history, k)), AskFor(r, window)).1
    case ReportRsp(p) => if |p.data| < 0x1_0000 then AnswerReply(Some(p)) else Truncated
    case Error(_) => AnswerReply(None)
    case _ => Truncated
  }

  function DevicePeer(d: Device, r: Request, history: History): Peer {
    (k: nat, offset: uint16, length: uint16) => DeviceReply(d, r, history, k, (offset, length))
  }

  lemma DeviceAnswers(d: Device, r: Request, history: History, k: nat, window: (uint16, uint16))
    requires ReportRequest(d, r) && d.state != ErrorState
    ensures DeviceReply(d, r, history, k, window) == AnswerReply(Serve(ReportBytes(d), CXL_PORTION, window.0, window.1))
  {
    var rs := Earlier(r, history, k);
    forall i | 0 <= i < |rs| ensures ReportRequest(d, rs[i]) {
      assert rs[i] == AskFor(r, history(i));
    }
    ReportUnchanged(d, rs);
    ReportAnswered(d, AskFor(r, window));
    ReportAnswered(Reported(d), AskFor(r, window));
  }

  /**
   * After any run, fetching the configuration report from the device itself, on any session it
   * knows, succeeds in one round with the report the device has then, whatever was asked before.
   */
  lemma ReportDelivered(psk: PskKeys, run: seq<Request>, r: Request, history: History, buffer: seq<byte>, limit: nat)
    requires ReportRequest(Run(psk, run), r) && |buffer| >= REPORT_SIZE && limit > 0
    ensures var d := Run(psk, run);
            var o := Fetch(CXL_PORTION, DevicePeer(d, r, history), limit, 0, Start(buffer));
            o.status == Success && o.size == REPORT_SIZE && Holds(o.buffer, buffer, ReportBytes(d)) && |o.portions| == 1
  {
    var d := Run(psk, run);
    LockInvariantHolds(psk, run);
    var device, responder := DevicePeer(d, r, history), Responder(ReportBytes(d), CXL_PORTION);
    forall k: nat, offset: uint16, length: uint16
      ensures device(k, offset, length) == responder(k, offset, length)
    {
      DeviceAnswers(d, r, history, k, (offset, length));
    }
    SamePeerSameFetch(CXL_PORTION, device, responder, limit, 0, Start(buffer));
    TransferRefinesCopy(ReportBytes(d), CXL_PORTION, limit, buffer);
  }
}
