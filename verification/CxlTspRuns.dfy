/** What holds over every run of the CXL TSP target from zeroed memory. */
module CxlTspRuns {
  import opened Words
  import opened CxlTspData
  import opened CxlTspValidators
  import opened CxlTspCapabilities
  import opened CxlTspDevice

  /** The device after a run; requests are handled in order. */
  function After(d: Device, run: seq<Request>): Device {
    if run == [] then d else Step(After(d, run[..|run| - 1]), run[|run| - 1]).0
  }

  function Run(psk: PskKeys, run: seq<Request>): Device {
    After(ZeroDevice(psk), run)
  }

  lemma {:induction false} AfterConcat(d: Device, first: seq<Request>, second: seq<Request>)
    ensures After(d, first + second) == After(After(d, first), second)
  {
    if second == [] {
      assert first + second == first;
    } else {
      var init := second[..|second| - 1];
      AfterConcat(d, first, init);
      assert (first + second)[..|first + second| - 1] == first + init;
    }
  }

  // ----- The lock is permanent -----

  /** What the lock protects. */
  predicate Frozen(a: Device, b: Device) {
    && a.state == b.state && a.configuration == b.configuration && a.sessions == b.sessions
    && a.psk == b.psk && a.capabilities == b.capabilities
    && a.primaryValid == b.primaryValid && a.primary == b.primary
  }

  /** A locked device knows its primary session, so re-initialisation is skipped. */
  predicate LockInvariant(d: Device) {
    d.state != ErrorState && (d.state == ConfigLocked ==> d.primaryValid)
  }

  lemma {:induction false} LockInvariantHolds(psk: PskKeys, run: seq<Request>)
    ensures LockInvariant(Run(psk, run))
  {
    if run != [] {
      LockInvariantHolds(psk, run[..|run| - 1]);
    }
  }

  lemma {:induction false} LockedStaysFrozen(d: Device, run: seq<Request>)
    requires d.state == ConfigLocked && d.primaryValid
    ensures Frozen(d, After(d, run))
  {
    if run != [] {
      LockedStaysFrozen(d, run[..|run| - 1]);
    }
  }

  /** Once a run has locked the device, no continuation changes anything the lock protects. */
  lemma LockIsPermanent(psk: PskKeys, run: seq<Request>, more: seq<Request>)
    requires Run(psk, run).state == ConfigLocked
    ensures Frozen(Run(psk, run), Run(psk, run + more))
  {
    LockInvariantHolds(psk, run);
    AfterConcat(ZeroDevice(psk), run, more);
    LockedStaysFrozen(Run(psk, run), more);
  }

  // ----- The primary session -----

  /** A GET_VERSION that passes the guards. */
  predicate IsVersionRequest(r: Request) {
    r.command.GetVersion? && r.session.Some? && r.sizeOk && r.version == VERSION_10
  }

  function FirstVersionSession(run: seq<Request>): Option<uint32> {
    if run == [] then None
    else if IsVersionRequest(run[0]) then run[0].session
    else FirstVersionSession(run[1..])
  }

  lemma {:induction false} FirstVersionAppend(run: seq<Request>, r: Request)
    ensures FirstVersionSession(run + [r]) ==
            if FirstVersionSession(run).Some? then FirstVersionSession(run)
            else if IsVersionRequest(r) then r.session else None
  {
    if run == [] {
      assert [r][1..] == [];
    } else {
      FirstVersionAppend(run[1..], r);
      assert (run + [r])[1..] == run[1..] + [r];
    }
  }

  /**
   * The primary session is the session of the first well-formed GET_VERSION and keeps that rank
   * even when it is registered as a secondary session too.
   */
  lemma {:induction false} PrimaryIsFirst(psk: PskKeys, run: seq<Request>)
    ensures var d := Run(psk, run);
            var first := FirstVersionSession(run);
            && d.primaryValid == first.Some?
            && (first.Some? ==> d.primary == first.value && Classify(d, first.value) == Primary)
  {
    if run != [] {
      var init, r := run[..|run| - 1], run[|run| - 1];
      PrimaryIsFirst(psk, init);
      FirstVersionAppend(init, r);
      assert run == init + [r];
    }
  }

  // ----- The secondary sessions -----

  /** The session last registered in slot i: of the last PSK GET_VERSION with that index after the first GET_VERSION. */
  function SlotSession(run: seq<Request>, i: nat): Option<uint32> {
    if run == [] then None else
    var init, r := run[..|run| - 1], run[|run| - 1];
    if FirstVersionSession(init).Some? && IsVersionRequest(r) && r.isPsk && r.pskIndex == i then r.session
    else SlotSession(init, i)
  }

  predicate SlotHolds(d: Device, i: nat, session: Option<uint32>)
    requires i < SECONDARY_SESSION_COUNT
  {
    d.secondaryValid[i] == session.Some? && (session.Some? ==> d.secondary[i] == session.value)
  }

  /** Before the first GET_VERSION no slot is in use. */
  lemma SlotStep(d: Device, r: Request, i: nat, session: Option<uint32>)
    requires i < SECONDARY_SESSION_COUNT && SlotHolds(d, i, session) && (!d.primaryValid ==> session.None?)
    ensures SlotHolds(Step(d, r).0, i, if d.primaryValid && IsVersionRequest(r) && r.isPsk && r.pskIndex == i then r.session else session)
  {
  }

  lemma {:induction false} SlotsFollowRequests(psk: PskKeys, run: seq<Request>, i: nat)
    requires i < SECONDARY_SESSION_COUNT
    ensures SlotHolds(Run(psk, run), i, SlotSession(run, i))
    ensures FirstVersionSession(run).None? ==> SlotSession(run, i).None?
  {
    if run != [] {
      var init, r := run[..|run| - 1], run[|run| - 1];
      SlotsFollowRequests(psk, init, i);
      PrimaryIsFirst(psk, init);
      FirstVersionAppend(init, r);
      assert run == init + [r];
      SlotStep(Run(psk, init), r, i, SlotSession(init, i));
    }
  }

  predicate InSlot(run: seq<Request>, id: uint32) {
    exists i :: 0 <= i < SECONDARY_SESSION_COUNT && SlotSession(run, i) == Some(id)
  }

  /** After any run a session is secondary exactly when it is not the primary one and stands in a slot. */
  lemma SecondaryExactlyWhen(psk: PskKeys, run: seq<Request>, id: uint32)
    ensures Classify(Run(psk, run), id) == Secondary <==> FirstVersionSession(run) != Some(id) && InSlot(run, id)
  {
    PrimaryIsFirst(psk, run);
    var d := Run(psk, run);
    forall i | 0 <= i < SECONDARY_SESSION_COUNT
      ensures d.secondaryValid[i] && d.secondary[i] == id <==> SlotSession(run, i) == Some(id)
    {
      SlotsFollowRequests(psk, run, i);
    }
    var first := FirstVersionSession(run);
    assert d.primaryValid && d.primary == id <==> first == Some(id);
    assert Classify(d, id) == Secondary <==> first != Some(id) && IsSecondary(d, id);
    assert IsSecondary(d, id) <==> InSlot(run, id);
  }

  // ----- Who changes what -----

  /** From then on only requests on the primary session change configuration, keys or lock state. */
  lemma OnlyPrimaryChanges(psk: PskKeys, run: seq<Request>, r: Request)
    requires FirstVersionSession(run).Some?
    ensures var d, d' := Run(psk, run), Run(psk, run + [r]);
            r.session == FirstVersionSession(run) ||
            (d'.configuration == d.configuration && d'.sessions == d.sessions && d'.psk == d.psk && d'.state == d.state)
  {
    PrimaryIsFirst(psk, run);
    assert (run + [r])[..|run + [r]| - 1] == run;
  }

  lemma {:induction false} CapabilitiesFollowPrimary(psk: PskKeys, run: seq<Request>)
    ensures var d := Run(psk, run);
            d.capabilities == if d.primaryValid then SampleCapabilities() else ZeroCapabilities()
  {
    if run != [] {
      CapabilitiesFollowPrimary(psk, run[..|run| - 1]);
    }
  }

  predicate WellFormed(r: Request) {
    r.sizeOk && r.version == VERSION_10
  }

  /** After any run, exactly which SET_TARGET_CONFIGURATION and LOCK requests succeed. */
  lemma AcceptedExactlyWhen(psk: PskKeys, run: seq<Request>, r: Request)
    ensures var d := Run(psk, run);
            var fromPrimary := r.session.Some? && r.session == FirstVersionSession(run) && WellFormed(r);
            && (Step(d, r).1.SetConfigurationRsp? <==>
                  && r.command.SetConfiguration? && fromPrimary && d.state == ConfigUnlocked
                  && ResponderAccepts(r.command.configuration, r.command.sessions, SampleCapabilities()))
            && (Step(d, r).1.LockConfigurationRsp? <==>
                  r.command.LockConfiguration? && fromPrimary && d.state == ConfigUnlocked)
  {
    PrimaryIsFirst(psk, run);
    CapabilitiesFollowPrimary(psk, run);
  }

  predicate LockAccepted(psk: PskKeys, run: seq<Request>, k: nat)
    requires k < |run|
  {
    Step(Run(psk, run[..k]), run[k]).1.LockConfigurationRsp?
  }

  /** The device is locked exactly when some earlier LOCK_TARGET_CONFIGURATION was answered with success. */
  lemma {:induction false} LockedExactlyWhen(psk: PskKeys, run: seq<Request>)
    ensures Run(psk, run).state == ConfigLocked <==> exists k :: 0 <= k < |run| && LockAccepted(psk, run, k)
  {
    if run != [] {
      var init := run[..|run| - 1];
      LockedExactlyWhen(psk, init);
      LockInvariantHolds(psk, init);
      assert forall k :: 0 <= k <= |init| ==> run[..k] == init[..k];
      assert forall k :: 0 <= k < |init| ==> LockAccepted(psk, run, k) == LockAccepted(psk, init, k);
      LockingStep(Run(psk, init), run[|run| - 1]);
      assert LockAccepted(psk, run, |init|) == Step(Run(psk, init), run[|init|]).1.LockConfigurationRsp?;
    }
  }

  lemma LockingStep(d: Device, r: Request)
    requires LockInvariant(d)
    ensures Step(d, r).0.state == ConfigLocked <==> d.state == ConfigLocked || Step(d, r).1.LockConfigurationRsp?
  {
  }

  // ----- The stored configuration -----

  /** What the device reports about itself always passes the validators on the other side. */
  predicate ConfigurationInvariant(d: Device) {
    && Coherent(d.configuration)
    && WithinCapabilities(d.configuration, d.capabilities)
    && CapabilitiesCoherent(d.capabilities)
    && (!d.primaryValid ==> d.configuration == ZeroConfiguration())
  }

  lemma ZeroIsCoherent(caps: Capabilities)
    ensures Coherent(ZeroConfiguration()) && WithinCapabilities(ZeroConfiguration(), caps)
  {
  }

  lemma KnownCapabilitiesCoherent()
    ensures CapabilitiesCoherent(ZeroCapabilities()) && CapabilitiesCoherent(SampleCapabilities())
  {
  }

  lemma {:induction false} ConfigurationAlwaysValid(psk: PskKeys, run: seq<Request>)
    ensures ConfigurationInvariant(Run(psk, run))
  {
    if run == [] {
      ZeroIsCoherent(ZeroCapabilities());
      KnownCapabilitiesCoherent();
    } else {
      ConfigurationAlwaysValid(psk, run[..|run| - 1]);
      ZeroIsCoherent(SampleCapabilities());
      KnownCapabilitiesCoherent();
    }
  }

  predicate SetAccepted(d: Device, r: Request) {
    Step(d, r).1.SetConfigurationRsp?
  }

  /** The configuration of the last SET_TARGET_CONFIGURATION the device answered with success. */
  function LastAccepted(psk: PskKeys, run: seq<Request>): Option<Configuration> {
    if run == [] then None else
    var init, r := run[..|run| - 1], run[|run| - 1];
    if SetAccepted(Run(psk, init), r) && r.command.SetConfiguration? then Some(r.command.configuration)
    else LastAccepted(psk, init)
  }

  predicate Remembers(d: Device, last: Option<Configuration>) {
    d.configuration == (if last.Some? then last.value else ZeroConfiguration()) && (last.Some? ==> d.primaryValid)
  }

  lemma RemembersStep(d: Device, r: Request, last: Option<Configuration>)
    requires Remembers(d, last)
    ensures Remembers(Step(d, r).0, if SetAccepted(d, r) && r.command.SetConfiguration?
                                    then Some(r.command.configuration) else last)
  {
  }

  lemma {:induction false} ConfigurationIsLastAccepted(psk: PskKeys, run: seq<Request>)
    ensures Remembers(Run(psk, run), LastAccepted(psk, run))
  {
    if run != [] {
      var init, r := run[..|run| - 1], run[|run| - 1];
      ConfigurationIsLastAccepted(psk, init);
      RemembersStep(Run(psk, init), r, LastAccepted(psk, init));
    }
  }

  /**
   * Whenever GET_TARGET_CONFIGURATION is answered, the answer is the last accepted configuration,
   * and the requester's validator accepts it.
   */
  lemma GetReturnsLastSet(psk: PskKeys, run: seq<Request>, r: Request)
    requires r.command.GetConfiguration? && Privileged(Run(psk, run), r, KnownSession)
    requires r.sizeOk && r.version == VERSION_10
    ensures var answer := Step(Run(psk, run), r).1;
            var last := LastAccepted(psk, run);
            && answer.ConfigurationRsp?
            && answer.configuration == (if last.Some? then last.value else ZeroConfiguration())
            && Coherent(answer.configuration)
            && answer.state == Run(psk, run).state
  {
    LockInvariantHolds(psk, run);
    ConfigurationIsLastAccepted(psk, run);
    ConfigurationAlwaysValid(psk, run);
  }

  // ----- The PSK slots -----

  predicate AnnouncesMoreThan(flags: uint16, i: nat) {
    exists n :: i < n <= SECONDARY_SESSION_COUNT && Announces(flags, n)
  }

  /** The key of slot i after a run, read off its history: the last accepted SET announcing more than i sessions. */
  function SlotHistory(psk: PskKeys, run: seq<Request>, i: nat): PskKey
    requires i < SECONDARY_SESSION_COUNT
  {
    if run == [] then psk[i] else
    var init, r := run[..|run| - 1], run[|run| - 1];
    if SetAccepted(Run(psk, init), r) && r.command.SetConfiguration? &&
       AnnouncesMoreThan(r.command.sessions.validityFlags, i)
    then r.command.sessions.keys[i]
    else SlotHistory(psk, init, i)
  }

  lemma FlagBits(flags: uint16, n: nat, i: nat)
    requires Announces(flags, n) && i < SECONDARY_SESSION_COUNT
    ensures FlagSet(flags, i) <==> i < n
  {
    AnnouncedCount(flags, n);
    assert Pow2(0) == 1 && Pow2(1) == 2 && Pow2(2) == 4 && Pow2(3) == 8;
  }

  lemma AcceptedFlagsAnnounce(c: Configuration, sessions: SecondarySessions, caps: Capabilities, i: nat)
    requires ResponderAccepts(c, sessions, caps) && i < SECONDARY_SESSION_COUNT
    ensures FlagSet(sessions.validityFlags, i) <==> AnnouncesMoreThan(sessions.validityFlags, i)
  {
    var n: nat :| Announces(sessions.validityFlags, n) && n <= caps.numberOfSecondarySessions;
    FlagBits(sessions.validityFlags, n, i);
    forall m: nat | Announces(sessions.validityFlags, m)
      ensures m > i <==> n > i
    {
      FlagBits(sessions.validityFlags, m, i);
    }
  }

  /** In every run, each PSK slot holds exactly what the history of accepted requests says. */
  lemma {:induction false} SlotsFollowHistory(psk: PskKeys, run: seq<Request>, i: nat)
    requires i < SECONDARY_SESSION_COUNT
    ensures Run(psk, run).psk[i] == SlotHistory(psk, run, i)
  {
    if run != [] {
      var init, r := run[..|run| - 1], run[|run| - 1];
      SlotsFollowHistory(psk, init, i);
      var d := Run(psk, init);
      if SetAccepted(d, r) {
        AcceptedFlagsAnnounce(r.command.configuration, r.command.sessions, d.capabilities, i);
      }
    }
  }
}
