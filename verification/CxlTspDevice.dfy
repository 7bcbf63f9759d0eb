/**
 * The CXL TSP target: the global device context, the request handlers that move it, and the
 * function `Step` that says what one request does to it.
 */
module CxlTspDevice {
  import opened Words
  import opened CxlTspData
  import opened CxlTspValidators
  import opened SegmentedTransfer

  const VERSION_10: byte := 0x10
  const REPORT_CAPACITY := 0x1000
  const REPORT_SIZE: uint16 := 0xDC

  /** ConfigUnlocked is the value of zeroed memory. */
  datatype TspState = ConfigUnlocked | ConfigLocked | ErrorState

  datatype SessionType = Primary | Secondary | Other

  type Flags4 = s: seq<bool> | |s| == SECONDARY_SESSION_COUNT witness [false, false, false, false]
  type Ids4 = s: seq<uint32> | |s| == SECONDARY_SESSION_COUNT witness [0, 0, 0, 0]
  type ReportBuffer = s: seq<byte> | |s| == REPORT_CAPACITY witness seq(REPORT_CAPACITY, _ => 0)

  /** The device context, and the PSK slots the responder keeps beside it. */
  datatype Device = Device(
    primaryValid: bool, primary: uint32, secondaryValid: Flags4, secondary: Ids4, versions: seq<byte>,
    capabilities: Capabilities, configuration: Configuration, sessions: SecondarySessions, state: TspState,
    report: ReportBuffer, reportSize: uint16, psk: PskKeys)

  datatype Command =
    | GetVersion
    | GetCapabilities
    | SetConfiguration(configuration: Configuration, sessions: SecondarySessions)
    | GetConfiguration
    | GetConfigurationReport(offset: uint16, length: uint16)
    | LockConfiguration
    | SetTeState(rangeCount: byte)
    | Unsupported

  /**
   * One request as it arrives: the session it is protected by, the header, and what the SPDM layer
   * says of that session (whether it is a PSK session, and the index of the PSK last used).
   */
  datatype Request = Request(session: Option<uint32>, version: byte, sizeOk: bool, command: Command,
                             isPsk: bool, pskIndex: byte)

  datatype ErrorCode = InvalidRequest | VersionMismatch | InvalidSecurityState | AlreadyLocked

  /** `Refused` is the raw no-privilege status; its response bytes are not modelled. */
  datatype Response =
    | Refused
    | Rejected
    | Error(code: ErrorCode)
    | VersionRsp(versions: seq<byte>)
    | CapabilitiesRsp(capabilities: Capabilities)
    | SetConfigurationRsp
    | ConfigurationRsp(configuration: Configuration, state: TspState)
    | ReportRsp(portion: Portion)
    | LockConfigurationRsp
    | SetTeStateRsp

  // ----- What a request does -----

  predicate IsSecondary(d: Device, id: uint32) {
    exists i :: 0 <= i < SECONDARY_SESSION_COUNT && d.secondaryValid[i] && d.secondary[i] == id
  }

  function Classify(d: Device, id: uint32): SessionType {
    if d.primaryValid && d.primary == id then Primary
    else if IsSecondary(d, id) then Secondary
    else Other
  }

  function SampleCapabilities(): Capabilities {
    Capabilities(ENCRYPTION, AES_XTS_256, 0, READ_ACCESS | IMPLICIT_CHANGE | EXPLICIT_IB, 0, IB_64B,
                 LOCKED_FW_UPDATE | ADDITIONAL_SESSIONS, 0, 1)
  }

  function ZeroDevice(psk: PskKeys): Device {
    Device(false, 0, [false, false, false, false], [0, 0, 0, 0], [0],
           ZeroCapabilities(), ZeroConfiguration(), SecondarySessions(0, 0, ZeroKeys()), ConfigUnlocked,
           seq(REPORT_CAPACITY, _ => 0), 0, psk)
  }

  /** Initialisation is skipped for ever once a primary session is known. */
  function Initialised(d: Device): Device {
    if d.primaryValid then d
    else ZeroDevice(d.psk).(versions := [VERSION_10], capabilities := SampleCapabilities())
  }

  function Registered(d: Device, id: uint32, isPsk: bool, pskIndex: byte): Device {
    if !d.primaryValid then d.(primaryValid := true, primary := id)
    else if isPsk && pskIndex < SECONDARY_SESSION_COUNT then
      d.(secondaryValid := d.secondaryValid[pskIndex := true], secondary := d.secondary[pskIndex := id])
    else d
  }

  /** Bit i of the validity flags. */
  predicate FlagSet(flags: uint16, i: nat) {
    flags / Pow2(i) % 2 != 0
  }

  function StoredKeys(psk: PskKeys, sessions: SecondarySessions): PskKeys {
    seq(SECONDARY_SESSION_COUNT, i requires 0 <= i < SECONDARY_SESSION_COUNT =>
      if FlagSet(sessions.validityFlags, i) then sessions.keys[i] else psk[i])
  }

  function Configured(d: Device, c: Configuration, sessions: SecondarySessions): Device {
    d.(configuration := c, sessions := sessions, psk := StoredKeys(d.psk, sessions))
  }

  function Reported(d: Device): Device {
    d.(report := d.report[0 := 1], reportSize := REPORT_SIZE)
  }

  datatype Need = AnySession | KnownSession | PrimarySession

  predicate Privileged(d: Device, r: Request, need: Need) {
    && r.session.Some?
    && (need == PrimarySession ==> Classify(d, r.session.value) == Primary)
    && (need == KnownSession ==> Classify(d, r.session.value) != Other)
  }

  /** The guards every handler starts with, in order: session, size, version. */
  function Guard(d: Device, r: Request, need: Need, sizeOk: bool): (refusal: Option<Response>)
    ensures refusal.None? ==> r.session.Some?
  {
    if !Privileged(d, r, need) then Some(Refused)
    else if !sizeOk then Some(Error(InvalidRequest))
    else if r.version != VERSION_10 then Some(Error(VersionMismatch))
    else None
  }

  function Needed(command: Command): Need {
    match command
    case SetConfiguration(_, _) => PrimarySession
    case LockConfiguration => PrimarySession
    case GetConfiguration => KnownSession
    case GetConfigurationReport(_, _) => KnownSession
    case SetTeState(_) => KnownSession
    case _ => AnySession
  }

  predicate SizeFits(r: Request) {
    r.sizeOk && (r.command.SetTeState? ==> 1 <= r.command.rangeCount <= 32)
  }

  function Step(d: Device, r: Request): (Device, Response) {
    if r.command.Unsupported? then (d, Rejected) else
    var refusal := Guard(d, r, Needed(r.command), SizeFits(r));
    if refusal.Some? then (d, refusal.value) else Perform(d, r)
  }

  /** What an admitted request does. */
  function Perform(d: Device, r: Request): (Device, Response)
    requires !r.command.Unsupported? && r.session.Some?
  {
    match r.command
    case GetVersion =>
      var d' := Registered(Initialised(d), r.session.value, r.isPsk, r.pskIndex);
      (d', VersionRsp(d'.versions))
    case GetCapabilities => (d, CapabilitiesRsp(d.capabilities))
    case SetConfiguration(c, sessions) =>
      if d.state != ConfigUnlocked then (d, Error(InvalidSecurityState))
      else if !ResponderAccepts(c, sessions, d.capabilities) then (d, Error(InvalidRequest))
      else (Configured(d, c, sessions), SetConfigurationRsp)
    case GetConfiguration =>
      if d.state == ErrorState then (d, Error(InvalidSecurityState))
      else (d, ConfigurationRsp(d.configuration, d.state))
    case GetConfigurationReport(offset, length) =>
      if d.state == ErrorState then (d, Error(InvalidSecurityState)) else
      var d' := Reported(d);
      (d', match Serve(d'.report[..REPORT_SIZE], CXL_PORTION, offset, length)
           case None => Error(InvalidRequest)
           case Some(p) => ReportRsp(p))
    case LockConfiguration =>
      if d.state == ConfigLocked then (d, Error(AlreadyLocked))
      else if d.state != ConfigUnlocked then (d, Error(InvalidSecurityState))
      else (d.(state := ConfigLocked), LockConfigurationRsp)
    case SetTeState(_) =>
      if d.state != ConfigLocked then (d, Error(InvalidSecurityState))
      else (d, SetTeStateRsp)
  }

  // ----- The target as it is: one context, updated in place -----

  class TspTarget {
    var primaryValid: bool
    var primary: uint32
    var secondaryValid: Flags4
    var secondary: Ids4
    var versions: seq<byte>
    var capabilities: Capabilities
    var configuration: Configuration
    var sessions: SecondarySessions
    var state: TspState
    var report: ReportBuffer
    var reportSize: uint16
    var psk: PskKeys

    ghost function Contents(): Device
      reads this
    {
      Device(primaryValid, primary, secondaryValid, secondary, versions, capabilities, configuration, sessions,
             state, report, reportSize, psk)
    }

    /** Zeroed global memory. */
    constructor (slots: PskKeys)
      ensures Contents() == ZeroDevice(slots)
    {
      primaryValid, primary := false, 0;
      secondaryValid, secondary := [false, false, false, false], [0, 0, 0, 0];
      versions := [0];
      capabilities, configuration := ZeroCapabilities(), ZeroConfiguration();
      sessions, state := SecondarySessions(0, 0, ZeroKeys()), ConfigUnlocked;
      report, reportSize := seq(REPORT_CAPACITY, _ => 0), 0;
      psk := slots;
    }

    method GetSessionType(id: uint32) returns (t: SessionType)
      ensures t == Classify(Contents(), id)
    {
      if primaryValid && primary == id {
        return Primary;
      }
      var index := 0;
      while index < SECONDARY_SESSION_COUNT
        invariant 0 <= index <= SECONDARY_SESSION_COUNT
        invariant forall i :: 0 <= i < index ==> !(secondaryValid[i] && secondary[i] == id)
      {
        if secondaryValid[index] && secondary[index] == id {
          return Secondary;
        }
        index := index + 1;
      }
      t := Other;
    }

    method InitialiseContext()
      modifies this
      ensures Contents() == Initialised(old(Contents()))
    {
      if primaryValid {
        return;
      }
      primary := 0;
      secondaryValid, secondary := [false, false, false, false], [0, 0, 0, 0];
      configuration, sessions := ZeroConfiguration(), SecondarySessions(0, 0, ZeroKeys());
      state := ConfigUnlocked;
      report, reportSize := seq(REPORT_CAPACITY, _ => 0), 0;
      versions := [VERSION_10];
      capabilities := SampleCapabilities();
    }

    method RegisterSession(id: uint32, isPsk: bool, pskIndex: byte)
      modifies this
      ensures Contents() == Registered(old(Contents()), id, isPsk, pskIndex)
    {
      if !primaryValid {
        primaryValid := true;
        primary := id;
        return;
      }
      if !isPsk {
        return;
      }
      if pskIndex >= SECONDARY_SESSION_COUNT {
        return;
      }
      secondaryValid := secondaryValid[pskIndex := true];
      secondary := secondary[pskIndex := id];
    }

    method StoreConfiguration(c: Configuration, info: SecondarySessions)
      modifies this
      ensures Contents() == Configured(old(Contents()), c, info)
    {
      configuration := c;
      sessions := info;
      var index := 0;
      while index < SECONDARY_SESSION_COUNT
        invariant 0 <= index <= SECONDARY_SESSION_COUNT
        invariant Contents() == old(Contents()).(configuration := c, sessions := info, psk := psk)
        invariant forall i :: 0 <= i < SECONDARY_SESSION_COUNT ==>
                    psk[i] == if i < index then StoredKeys(old(psk), info)[i] else old(psk)[i]
      {
        if FlagSet(sessions.validityFlags, index) {
          psk := psk[index := sessions.keys[index]];
        }
        index := index + 1;
      }
      assert psk == StoredKeys(old(psk), info);
    }

    method Admit(r: Request, need: Need, sizeOk: bool) returns (refusal: Option<Response>)
      ensures refusal == Guard(Contents(), r, need, sizeOk)
    {
      if r.session.None? {
        return Some(Refused);
      }
      if need != AnySession {
        var t := GetSessionType(r.session.value);
        if need == PrimarySession && t != Primary {
          return Some(Refused);
        }
        if need == KnownSession && t == Other {
          return Some(Refused);
        }
      }
      if !sizeOk {
        return Some(Error(InvalidRequest));
      }
      if r.version != VERSION_10 {
        return Some(Error(VersionMismatch));
      }
      refusal := None;
    }

    method HandleSetConfiguration(c: Configuration, info: SecondarySessions) returns (response: Response)
      modifies this
      ensures state == old(state) && primaryValid == old(primaryValid) && primary == old(primary)
      ensures if old(state) != ConfigUnlocked then
                response == Error(InvalidSecurityState) && Contents() == old(Contents())
              else if !ResponderAccepts(c, info, old(capabilities)) then
                response == Error(InvalidRequest) && Contents() == old(Contents())
              else
                response == SetConfigurationRsp && Contents() == Configured(old(Contents()), c, info)
    {
      if state != ConfigUnlocked {
        return Error(InvalidSecurityState);
      }
      var ok := ResponderValidate(c, info, capabilities);
      if !ok {
        return Error(InvalidRequest);
      }
      StoreConfiguration(c, info);
      response := SetConfigurationRsp;
    }

    method HandleReport(offset: uint16, length: uint16) returns (response: Response)
      modifies this
      ensures (Contents(), response) ==
              if old(state) == ErrorState then (old(Contents()), Error(InvalidSecurityState)) else
              (Reported(old(Contents())),
               match Serve(Reported(old(Contents())).report[..REPORT_SIZE], CXL_PORTION, offset, length)
               case None => Error(InvalidRequest)
               case Some(p) => ReportRsp(p))
    {
      if state == ErrorState {
        return Error(InvalidSecurityState);
      }
      report := report[0 := 1];
      reportSize := REPORT_SIZE;
      var portion := SelectPortion(report[..reportSize], CXL_PORTION, offset, length);
      response := if portion.None? then Error(InvalidRequest) else ReportRsp(portion.value);
    }

    /** One request, from dispatch to response. */
    method Dispatch(r: Request) returns (response: Response)
      modifies this
      ensures (Contents(), response) == Step(old(Contents()), r)
    {
      if r.command.Unsupported? {
        return Rejected;
      }
      var refusal := Admit(r, Needed(r.command), SizeFits(r));
      if refusal.Some? {
        return refusal.value;
      }
      match r.command
      case GetVersion =>
        InitialiseContext();
        RegisterSession(r.session.value, r.isPsk, r.pskIndex);
        response := VersionRsp(versions);
      case GetCapabilities =>
        response := CapabilitiesRsp(capabilities);
      case SetConfiguration(c, info) =>
        response := HandleSetConfiguration(c, info);
      case GetConfiguration =>
        if state != ConfigUnlocked && state != ConfigLocked {
          return Error(InvalidSecurityState);
        }
        response := ConfigurationRsp(configuration, state);
      case GetConfigurationReport(offset, length) =>
        response := HandleReport(offset, length);
      case LockConfiguration =>
        if state == ConfigLocked {
          return Error(AlreadyLocked);
        }
        if state != ConfigUnlocked {
          return Error(InvalidSecurityState);
        }
        state := ConfigLocked;
        response := LockConfigurationRsp;
      case SetTeState(_) =>
        if state != ConfigLocked {
          return Error(InvalidSecurityState);
        }
        response := SetTeStateRsp;
    }
  }
}
