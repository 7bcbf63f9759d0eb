/**
 * After any run of the CXL TSP target, exactly which request gets which answer, told from the
 * history of requests.
 */
module CxlTspAnswers {
  import opened Words
  import opened SegmentedTransfer
  import TransferChecks
  import opened CxlTspData
  import opened CxlTspValidators
  import opened CxlTspDevice
  import opened CxlTspRuns

  // ----- Standing of a session -----

  predicate FromPrimary(run: seq<Request>, r: Request) {
    r.session.Some? && r.session == FirstVersionSession(run)
  }

  /** The primary session, or one that stands in a secondary slot. */
  predicate FromKnown(run: seq<Request>, r: Request) {
    r.session.Some? && (r.session == FirstVersionSession(run) || InSlot(run, r.session.value))
  }

  lemma StandingFollowsHistory(psk: PskKeys, run: seq<Request>, r: Request)
    ensures var d := Run(psk, run);
            && (r.session.Some? ==> (Classify(d, r.session.value) == Primary <==> FromPrimary(run, r)))
            && (r.session.Some? ==> (Classify(d, r.session.value) != Other <==> FromKnown(run, r)))
  {
    PrimaryIsFirst(psk, run);
    if r.session.Some? {
      SecondaryExactlyWhen(psk, run, r.session.value);
    }
  }

  /** Which sessions may send which command. */
  predicate Entitled(run: seq<Request>, r: Request) {
    match r.command
    case GetVersion => r.session.Some?
    case GetCapabilities => r.session.Some?
    case SetConfiguration(_, _) => FromPrimary(run, r)
    case LockConfiguration => FromPrimary(run, r)
    case GetConfiguration => FromKnown(run, r)
    case GetConfigurationReport(_, _) => FromKnown(run, r)
    case SetTeState(_) => FromKnown(run, r)
    case Unsupported => false
  }

  /** Size and version are right; a TE state change names 1 to 32 ranges. */
  predicate Proper(r: Request) {
    WellFormed(r) && (r.command.SetTeState? ==> 1 <= r.command.rangeCount <= 32)
  }

  // ----- Refusals -----

  /** Refused: exactly the requests their session may not send. Rejected: exactly the unknown ones. */
  lemma RefusedExactlyWhen(psk: PskKeys, run: seq<Request>, r: Request)
    ensures Step(Run(psk, run), r).1.Refused? <==> !r.command.Unsupported? && !Entitled(run, r)
    ensures Step(Run(psk, run), r).1.Rejected? <==> r.command.Unsupported?
  {
    StandingFollowsHistory(psk, run, r);
  }

  /** A configuration the unlocked device does not accept. */
  predicate Unacceptable(d: Device, r: Request) {
    && r.command.SetConfiguration? && d.state == ConfigUnlocked
    && !ResponderAccepts(r.command.configuration, r.command.sessions, d.capabilities)
  }

  /** The errors: which one is reported when several apply follows the order size, version, state, contents. */
  lemma ErrorExactlyWhen(psk: PskKeys, run: seq<Request>, r: Request)
    requires Entitled(run, r)
    ensures var d, answer := Run(psk, run), Step(Run(psk, run), r).1;
            var sized := r.sizeOk && (r.command.SetTeState? ==> 1 <= r.command.rangeCount <= 32);
            && (!sized ==> answer == Error(InvalidRequest))
            && (sized && r.version != VERSION_10 ==> answer == Error(VersionMismatch))
            && (Proper(r) && r.command.SetConfiguration? && d.state == ConfigLocked ==> answer == Error(InvalidSecurityState))
            && (Proper(r) && r.command.LockConfiguration? && d.state == ConfigLocked ==> answer == Error(AlreadyLocked))
            && (Proper(r) && r.command.SetTeState? && d.state == ConfigUnlocked ==> answer == Error(InvalidSecurityState))
            && (Proper(r) && Unacceptable(d, r) ==> answer == Error(InvalidRequest))
  {
    StandingFollowsHistory(psk, run, r);
  }

  /** A request that is not answered with success changes nothing. */
  lemma FailureChangesNothing(d: Device, r: Request)
    requires Step(d, r).1.Refused? || Step(d, r).1.Rejected? || (Step(d, r).1.Error? && !r.command.GetConfigurationReport?)
    ensures Step(d, r).0 == d
  {
  }

  // ----- Answers -----

  lemma VersionExactlyWhen(psk: PskKeys, run: seq<Request>, r: Request)
    ensures Step(Run(psk, run), r).1.VersionRsp? <==> IsVersionRequest(r)
    ensures IsVersionRequest(r) ==> Step(Run(psk, run), r).1 == VersionRsp([0x10])
  {
    VersionsKnown(psk, run);
  }

  lemma {:induction false} VersionsKnown(psk: PskKeys, run: seq<Request>)
    ensures Run(psk, run).primaryValid ==> Run(psk, run).versions == [0x10]
  {
    if run != [] {
      VersionsKnown(psk, run[..|run| - 1]);
    }
  }

  lemma CapabilitiesExactlyWhen(psk: PskKeys, run: seq<Request>, r: Request)
    ensures Step(Run(psk, run), r).1.CapabilitiesRsp? <==> r.command.GetCapabilities? && r.session.Some? && WellFormed(r)
    ensures var answer := Step(Run(psk, run), r).1;
            var known := if FirstVersionSession(run).Some? then Offered() else Capabilities(0, 0, 0, 0, 0, 0, 0, 0, 0);
            answer.CapabilitiesRsp? ==> answer.capabilities == known
  {
    PrimaryIsFirst(psk, run);
    CapabilitiesFollowPrimary(psk, run);
  }

  /**
   * What the sample device offers: encryption with AES-XTS-256 and no CKIDs or ranges, read access
   * control with implicit and in-band TE state changes of 64 bytes, firmware updates while locked
   * and one additional session.
   */
  function Offered(): Capabilities {
    Capabilities(0x0001, 0x0000_0002, 0, 0x0002 | 0x0004 | 0x0010, 0, 0x0000_0001, 0x0001 | 0x0002, 0, 1)
  }

  lemma ConfigurationExactlyWhen(psk: PskKeys, run: seq<Request>, r: Request)
    ensures Step(Run(psk, run), r).1.ConfigurationRsp? <==> r.command.GetConfiguration? && WellFormed(r) && FromKnown(run, r)
  {
    StandingFollowsHistory(psk, run, r);
    LockInvariantHolds(psk, run);
  }

  lemma TeStateExactlyWhen(psk: PskKeys, run: seq<Request>, r: Request)
    ensures Step(Run(psk, run), r).1.SetTeStateRsp? <==>
              && r.command.SetTeState? && WellFormed(r) && FromKnown(run, r)
              && 1 <= r.command.rangeCount <= 32 && exists k :: 0 <= k < |run| && LockAccepted(psk, run, k)
  {
    StandingFollowsHistory(psk, run, r);
    LockedExactlyWhen(psk, run);
  }

  lemma SetExactlyWhen(psk: PskKeys, run: seq<Request>, r: Request)
    ensures Step(Run(psk, run), r).1.SetConfigurationRsp? <==>
              && r.command.SetConfiguration? && WellFormed(r) && FromPrimary(run, r)
              && !(exists k :: 0 <= k < |run| && LockAccepted(psk, run, k))
              && ResponderAccepts(r.command.configuration, r.command.sessions, Offered())
  {
    AcceptedExactlyWhen(psk, run, r);
    LockedExactlyWhen(psk, run);
    LockInvariantHolds(psk, run);
  }

  lemma LockExactlyWhen(psk: PskKeys, run: seq<Request>, r: Request)
    ensures Step(Run(psk, run), r).1.LockConfigurationRsp? <==>
              && r.command.LockConfiguration? && WellFormed(r) && FromPrimary(run, r)
              && !(exists k :: 0 <= k < |run| && LockAccepted(psk, run, k))
  {
    AcceptedExactlyWhen(psk, run, r);
    LockedExactlyWhen(psk, run);
    LockInvariantHolds(psk, run);
  }

  // ----- The report -----

  /** In every run the report is a one followed by zeros, once it has been asked for, and zeros before. */
  lemma {:induction false} ReportContents(psk: PskKeys, run: seq<Request>)
    ensures var d := Run(psk, run);
            && (forall i :: 1 <= i < REPORT_CAPACITY ==> d.report[i] == 0)
            && Reported(d).report[..0xDC] == [1] + seq(0xDB, _ => 0)
  {
    if run != [] {
      ReportContents(psk, run[..|run| - 1]);
    }
    var d := Run(psk, run);
    assert |Reported(d).report[..0xDC]| == 0xDC;
  }

  /**
   * A report request is answered with a portion exactly when its window meets the 0xDC bytes of the
   * report; the portion is as much of them as is asked for and fits, and the rest is counted.
   */
  lemma ReportExactlyWhen(psk: PskKeys, run: seq<Request>, r: Request)
    ensures Step(Run(psk, run), r).1.ReportRsp? <==>
              && r.command.GetConfigurationReport? && WellFormed(r) && FromKnown(run, r)
              && r.command.length != 0 && r.command.offset < 0xDC
    ensures Step(Run(psk, run), r).1.ReportRsp? ==>
              var p, offset := Step(Run(psk, run), r).1.portion, r.command.offset;
              && p.data <= ([1] + seq(0xDB, _ => 0))[offset..] && 0 < |p.data| <= r.command.length
              && (|p.data| == r.command.length || p.remainder == 0)
              && offset + |p.data| + p.remainder == 0xDC
  {
    StandingFollowsHistory(psk, run, r);
    LockInvariantHolds(psk, run);
    ReportContents(psk, run);
    if r.command.GetConfigurationReport? {
      TransferChecks.ServedWindow(Reported(Run(psk, run)).report[..0xDC], CXL_PORTION, r.command.offset, r.command.length);
    }
  }
}
