/** Exactly which TDISP request gets which answer, in every state, and what it changes. */
module TdispAnswers {
  import opened Words
  import opened SegmentedTransfer
  import opened TransferChecks
  import opened TdispReport
  import opened TdispReportFlow
  import opened TdispDevice
  import opened TdispRuns

  predicate WellFormed(r: Request) {
    r.sizeOk && r.version == 0x10
  }

  /** A well-formed request to the interface the device knows. */
  predicate Addressed(c: Context, r: Request) {
    WellFormed(r) && r.id == c.id
  }

  // ----- Answers -----

  lemma VersionExactlyWhen(c: Context, r: Request)
    ensures Step(c, r).1.VersionRsp? <==> r.command.GetVersion? && WellFormed(r)
    ensures Step(c, r).1.VersionRsp? ==>
              && Step(c, r).1.versions == [0x10]
              && Step(c, r).0 == Context(r.id, [0x10], ResponderCaps(0, 0xFE, 0x7, 48), 0, LockParam(0, 0, 0, 0),
                                         ConfigUnlocked, seq(32, _ => 0), [])
  {
  }

  lemma CapabilitiesExactlyWhen(c: Context, r: Request)
    ensures Step(c, r).1.CapabilitiesRsp? <==> r.command.GetCapabilities? && Addressed(c, r)
    ensures Step(c, r).1.CapabilitiesRsp? ==> Step(c, r) == (c.(reqCaps := r.command.reqCaps), CapabilitiesRsp(c.rspCaps))
  {
  }

  lemma LockExactlyWhen(c: Context, r: Request)
    ensures Step(c, r).1.LockRsp? <==> r.command.LockInterface? && Addressed(c, r) && c.state == ConfigUnlocked && r.entropy.Some?
    ensures Step(c, r).1.LockRsp? ==>
              && Step(c, r).1.nonce == r.entropy.value
              && Step(c, r).0 == c.(state := ConfigLocked, lockParam := r.command.param, nonce := r.entropy.value,
                                    report := Encode(GeneratedReport(r.json)))
  {
  }

  lemma StartExactlyWhen(c: Context, r: Request)
    ensures Step(c, r).1.StartRsp? <==>
              r.command.StartInterface? && Addressed(c, r) && c.state == ConfigLocked && r.command.nonce == c.nonce
    ensures Step(c, r).1.StartRsp? ==> Step(c, r).0 == c.(state := Running)
  {
  }

  lemma StopExactlyWhen(c: Context, r: Request)
    ensures Step(c, r).1.StopRsp? <==> r.command.StopInterface? && Addressed(c, r) && c.state != ConfigUnlocked
    ensures Step(c, r).1.StopRsp? ==> Step(c, r).0 == c.(state := ConfigUnlocked)
  {
  }

  lemma StateExactlyWhen(c: Context, r: Request)
    ensures Step(c, r).1.StateRsp? <==> r.command.GetState? && Addressed(c, r)
    ensures Step(c, r).1.StateRsp? ==> Step(c, r) == (c, StateRsp(c.state))
  {
  }

  lemma ReportExactlyWhen(c: Context, r: Request)
    ensures Step(c, r).1.ReportRsp? <==>
              r.command.GetReport? && Addressed(c, r) && r.command.length != 0 && r.command.offset < |c.report|
    ensures Step(c, r).1.ReportRsp? ==>
              var p, offset := Step(c, r).1.portion, r.command.offset;
              && Step(c, r).0 == c
              && p.data <= c.report[offset..] && 0 < |p.data| <= r.command.length && |p.data| <= 64
              && (|p.data| == r.command.length || |p.data| == 64 || p.remainder == 0)
              && offset + |p.data| + p.remainder == |c.report|
  {
    if r.command.GetReport? {
      ServedWindow(c.report, TDISP_PORTION, r.command.offset, r.command.length);
    }
  }

  /** The report a LOCK generates: the JSON file's values if it is complete and small enough, else the hard-coded one. */
  lemma ReportGenerated(json: Option<JsonReport>)
    ensures var loads := && json.Some? && json.value.header.Some? && |json.value.ranges| <= 4
                         && (forall i :: 0 <= i < |json.value.ranges| ==> json.value.ranges[i].Some?)
                         && 20 + 16 * |json.value.ranges| + |json.value.info| % 0x1_0000_0000 <= 0x1000;
            if loads then Recovers(GeneratedReport(json), json.value) else GeneratedReport(json) == DefaultReport()
  {
    if json.Some? && Complete(json.value) {
      DescribedRecovers(json.value);
    }
  }

  // ----- Errors -----

  /** The errors, in the order in which they are looked for. */
  lemma ErrorExactlyWhen(c: Context, r: Request)
    ensures var answer := Step(c, r).1;
            && (answer == Error(UnsupportedRequest) <==> r.command.Unsupported?)
            && (answer == Error(VersionMismatch) <==> !r.command.Unsupported? && r.sizeOk && r.version != 0x10)
            && (answer == Error(InvalidInterface) <==>
                  !r.command.Unsupported? && !r.command.GetVersion? && WellFormed(r) && r.id != c.id)
            && (answer == Error(InvalidInterfaceState) <==>
                  Addressed(c, r) && ((r.command.LockInterface? && c.state != ConfigUnlocked)
                                      || (r.command.StartInterface? && c.state != ConfigLocked)
                                      || (r.command.StopInterface? && c.state == ConfigUnlocked)))
            && (answer == Error(InsufficientEntropy) <==>
                  Addressed(c, r) && r.command.LockInterface? && c.state == ConfigUnlocked && r.entropy.None?)
            && (answer == Error(InvalidNonce) <==>
                  Addressed(c, r) && r.command.StartInterface? && c.state == ConfigLocked && r.command.nonce != c.nonce)
            && (answer == Error(InvalidRequest) <==>
                  !r.command.Unsupported? && (!r.sizeOk || (Addressed(c, r) && r.command.GetReport?
                                                            && (r.command.length == 0 || r.command.offset >= |c.report|))))
  {
  }

  /** An error changes nothing, except that a LOCK without entropy has already stored its parameters. */
  lemma ErrorChanges(c: Context, r: Request)
    requires Step(c, r).1.Error?
    ensures Step(c, r).0
         == if Step(c, r).1 == Error(InsufficientEntropy) then c.(lockParam := r.command.param) else c
  {
  }

  // ----- Over runs -----

  /** Asks to reset the device, or to stop the interface that run has locked. */
  predicate Unbinds(c: Context, r: Request) {
    WellFormed(r) && (r.command.GetVersion? || (r.command.StopInterface? && r.id == c.id))
  }

  /** A locked or running interface becomes unlocked exactly by such a request; nothing else changes what the lock fixed. */
  lemma UnlocksExactlyWhen(run: Run, n: nat)
    requires run.Valid() && n < |run.requests|
    requires run.contexts[n].state == ConfigLocked || run.contexts[n].state == Running
    ensures run.contexts[n + 1].state == ConfigUnlocked <==> Unbinds(run.contexts[n], run.requests[n])
    ensures !Unbinds(run.contexts[n], run.requests[n]) ==> SameBinding(run.contexts[n + 1], run.contexts[n])
  {
    assert run.StepAt(n);
    var c, r := run.contexts[n], run.requests[n];
    BoundChanges(c, r);
    VersionExactlyWhen(c, r);
    StopExactlyWhen(c, r);
  }

  /** An unlocked interface becomes locked exactly by a well-formed LOCK with entropy. */
  lemma LocksExactlyWhen(run: Run, n: nat)
    requires run.Valid() && n < |run.requests| && run.contexts[n].state == ConfigUnlocked
    ensures run.contexts[n + 1].state == ConfigLocked <==>
              run.requests[n].command.LockInterface? && Addressed(run.contexts[n], run.requests[n]) && run.requests[n].entropy.Some?
    ensures run.contexts[n + 1].state == ConfigLocked || run.contexts[n + 1].state == ConfigUnlocked
  {
    assert run.StepAt(n);
    UnlockedChanges(run.contexts[n], run.requests[n]);
    LockExactlyWhen(run.contexts[n], run.requests[n]);
  }

  // ----- The hard-coded report -----

  function Chars(s: string): seq<int> {
    seq(|s|, i requires 0 <= i < |s| => s[i] as int)
  }

  /** Four numbered, disjoint ranges of 21 pages in all, and the name of the device; 100 bytes encoded. */
  lemma DefaultReportContents(report: Report)
    requires report == DefaultReport()
    ensures |report.ranges| == 4 && |Encode(report)| == 100
    ensures forall i :: 0 <= i < 4 ==> report.ranges[i].id == i + 1
    ensures report.ranges[0].attributes == 0x0004 && forall i :: 1 <= i < 4 ==> report.ranges[i].attributes == 0x0008
    ensures forall i, j :: 0 <= i < j < 4 ==> report.ranges[i].firstPage + report.ranges[i].numberOfPages <= report.ranges[j].firstPage
    ensures report.ranges[0].numberOfPages + report.ranges[1].numberOfPages + report.ranges[2].numberOfPages
          + report.ranges[3].numberOfPages == 21
    ensures report.info == Chars("tdisp_dev_emu") + [0, 0, 0]
  {
    assert |EncodeRanges(report.ranges)| == 64;
  }
}
