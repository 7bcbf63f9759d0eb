/**
 * The TDISP interface of the device (TDISP chapter of the PCI Express Base Specification 6.x):
 * one interface context moved by LOCK, START and STOP, and reset by GET_TDISP_VERSION.
 */
module TdispDevice {
  import opened Words
  import opened SegmentedTransfer
  import opened TransferTheorems
  import opened TdispReport
  import opened TdispReportFlow

  const VERSION_10: byte := 0x10
  const NONCE_SIZE := 32

  type Nonce = s: seq<byte> | |s| == NONCE_SIZE witness seq(NONCE_SIZE, _ => 0)

  datatype InterfaceId = InterfaceId(functionId: uint32, reserved: uint64)

  /** ConfigUnlocked is the value of zeroed memory. */
  datatype TdiState = ConfigUnlocked | ConfigLocked | Running | ErrorState

  datatype LockParam = LockParam(flags: uint16, defaultStreamId: byte, mmioReportingOffset: uint64,
                                 bindP2pAddressMask: uint64)

  datatype ResponderCaps = ResponderCaps(dsmCaps: uint32, reqMsgSupported: byte, lockFlagsSupported: uint16,
                                         devAddrWidth: byte)

  type ReportBytes = s: seq<byte> | |s| <= REPORT_MAX_SIZE witness []

  datatype Context = Context(id: InterfaceId, versions: seq<byte>, rspCaps: ResponderCaps, reqCaps: uint32,
                             lockParam: LockParam, state: TdiState, nonce: Nonce, report: ReportBytes)

  datatype Command =
    | GetVersion
    | GetCapabilities(reqCaps: uint32)
    | LockInterface(param: LockParam)
    | GetReport(offset: uint16, length: uint16)
    | GetState
    | StartInterface(nonce: Nonce)
    | StopInterface
    | Unsupported

  /**
   * One request, with what the environment supplies while it is handled: random bytes, which may
   * fail, and the parsed JSON report file, which may be missing.
   */
  datatype Request = Request(id: InterfaceId, version: byte, sizeOk: bool, command: Command,
                             entropy: Option<Nonce>, json: Option<JsonReport>)

  datatype ErrorCode =
    | InvalidRequest | VersionMismatch | UnsupportedRequest | InvalidInterface | InvalidInterfaceState
    | InsufficientEntropy | InvalidNonce

  datatype Response =
    | Error(code: ErrorCode)
    | VersionRsp(versions: seq<byte>)
    | CapabilitiesRsp(caps: ResponderCaps)
    | LockRsp(nonce: Nonce)
    | ReportRsp(portion: Portion)
    | StateRsp(state: TdiState)
    | StartRsp
    | StopRsp

  // ----- What a request does -----

  function ZeroNonce(): Nonce {
    seq(NONCE_SIZE, _ => 0)
  }

  function ZeroContext(): Context {
    Context(InterfaceId(0, 0), [0], ResponderCaps(0, 0, 0, 0), 0, LockParam(0, 0, 0, 0), ConfigUnlocked, ZeroNonce(), [])
  }

  function Initialised(id: InterfaceId): Context {
    ZeroContext().(id := id, versions := [VERSION_10], rspCaps := ResponderCaps(0, 0xFE, 0x7, 48))
  }

  /** The hard-coded report: four ranges and the 16 bytes of a padded device name. */
  function DefaultReport(): Report {
    Report(0x0003, 0, 0, 0, 0,
           [MmioRange(0x0000, 1, 0x0004, 1), MmioRange(0x8000, 4, 0x0008, 2),
            MmioRange(0x10000, 8, 0x0008, 3), MmioRange(0x20000, 8, 0x0008, 4)],
           [116, 100, 105, 115, 112, 95, 100, 101, 118, 95, 101, 109, 117, 0, 0, 0])
  }

  /** The report generated by LOCK: the one from JSON if it loads, else the hard-coded one. */
  function GeneratedReport(json: Option<JsonReport>): Report {
    if json.Some? && Loadable(json.value, REPORT_MAX_SIZE) then Described(json.value) else DefaultReport()
  }

  function GeneratedBytes(json: Option<JsonReport>): (s: ReportBytes) {
    Encode(GeneratedReport(json))
  }

  function Step(c: Context, r: Request): (Context, Response) {
    if r.command.Unsupported? then (c, Error(UnsupportedRequest))
    else if !r.sizeOk then (c, Error(InvalidRequest))
    else if r.version != VERSION_10 then (c, Error(VersionMismatch))
    else if r.command.GetVersion? then (Initialised(r.id), VersionRsp(Initialised(r.id).versions))
    else if r.id != c.id then (c, Error(InvalidInterface))
    else Perform(c, r)
  }

  /** What a well-formed request to the known interface does. */
  function Perform(c: Context, r: Request): (Context, Response)
    requires !r.command.Unsupported? && !r.command.GetVersion?
  {
    match r.command
    case GetCapabilities(reqCaps) => (c.(reqCaps := reqCaps), CapabilitiesRsp(c.rspCaps))
    case LockInterface(param) =>
      if c.state != ConfigUnlocked then (c, Error(InvalidInterfaceState))
      else if r.entropy.None? then (c.(lockParam := param), Error(InsufficientEntropy))
      else (c.(lockParam := param, nonce := r.entropy.value, state := ConfigLocked,
               report := GeneratedBytes(r.json)),
            LockRsp(r.entropy.value))
    case GetReport(offset, length) =>
      (c, match Serve(c.report, TDISP_PORTION, offset, length)
          case None => Error(InvalidRequest)
          case Some(p) => ReportRsp(p))
    case GetState => (c, StateRsp(c.state))
    case StartInterface(nonce) =>
      if c.state != ConfigLocked then (c, Error(InvalidInterfaceState))
      else if nonce != c.nonce then (c, Error(InvalidNonce))
      else (c.(state := Running), StartRsp)
    case StopInterface =>
      if c.state == ConfigUnlocked then (c, Error(InvalidInterfaceState))
      else (c.(state := ConfigUnlocked), StopRsp)
  }

  // ----- The interface as it is: one context, updated in place -----

  class TdispInterface {
    var id: InterfaceId
    var versions: seq<byte>
    var rspCaps: ResponderCaps
    var reqCaps: uint32
    var lockParam: LockParam
    var state: TdiState
    var nonce: Nonce
    const buffer: array<byte>
    var reportSize: uint16

    ghost predicate Valid()
      reads this
    {
      buffer.Length == REPORT_MAX_SIZE && reportSize <= REPORT_MAX_SIZE
    }

    ghost function Contents(): Context
      requires Valid()
      reads this, buffer
    {
      Context(id, versions, rspCaps, reqCaps, lockParam, state, nonce, buffer[..reportSize])
    }

    constructor ()
      ensures Valid() && fresh(buffer) && Contents() == ZeroContext()
    {
      id, versions := InterfaceId(0, 0), [0];
      rspCaps, reqCaps := ResponderCaps(0, 0, 0, 0), 0;
      lockParam, state, nonce := LockParam(0, 0, 0, 0), ConfigUnlocked, ZeroNonce();
      buffer, reportSize := new byte[REPORT_MAX_SIZE], 0;
    }

    method Initialise(newId: InterfaceId)
      requires Valid()
      modifies this, buffer
      ensures Valid() && Contents() == Initialised(newId)
    {
      Clear(buffer);
      reportSize, reqCaps, lockParam, nonce := 0, 0, LockParam(0, 0, 0, 0), ZeroNonce();
      id := newId;
      versions := [VERSION_10];
      rspCaps := ResponderCaps(0, 0xFE, 0x7, 48);
      state := ConfigUnlocked;
    }

    /** Loads the JSON report into the buffer, or falls back to the hard-coded one. */
    method GenerateReport(json: Option<JsonReport>)
      requires Valid()
      modifies this`reportSize, buffer
      ensures Valid() && buffer[..reportSize] == GeneratedBytes(json)
    {
      if json.Some? {
        var ok, size := LoadReport(json.value, buffer);
        if ok {
          reportSize := size;
          return;
        }
      }
      Store(buffer, 0, Encode(DefaultReport()));
      reportSize := 100;
    }

    method Lock(param: LockParam, entropy: Option<Nonce>, json: Option<JsonReport>) returns (response: Response)
      requires Valid()
      modifies this, buffer
      ensures Valid()
      ensures Contents() ==
              if old(state) != ConfigUnlocked then old(Contents())
              else if entropy.None? then old(Contents()).(lockParam := param)
              else old(Contents()).(lockParam := param, nonce := entropy.value, state := ConfigLocked,
                                    report := GeneratedBytes(json))
      ensures response ==
              if old(state) != ConfigUnlocked then Error(InvalidInterfaceState)
              else if entropy.None? then Error(InsufficientEntropy)
              else LockRsp(entropy.value)
    {
      if state != ConfigUnlocked {
        return Error(InvalidInterfaceState);
      }
      lockParam := param;
      if entropy.None? {
        return Error(InsufficientEntropy);
      }
      nonce := entropy.value;
      state := ConfigLocked;
      GenerateReport(json);
      response := LockRsp(nonce);
    }

    /** One request, from dispatch to response. */
    method Dispatch(r: Request) returns (response: Response)
      requires Valid()
      modifies this, buffer
      ensures Valid() && (Contents(), response) == Step(old(Contents()), r)
    {
      if r.command.Unsupported? {
        return Error(UnsupportedRequest);
      }
      if !r.sizeOk {
        return Error(InvalidRequest);
      }
      if r.version != VERSION_10 {
        return Error(VersionMismatch);
      }
      if r.command.GetVersion? {
        Initialise(r.id);
        return VersionRsp(versions);
      }
      if r.id != id {
        return Error(InvalidInterface);
      }
      match r.command
      case GetCapabilities(caps) =>
        reqCaps := caps;
        response := CapabilitiesRsp(rspCaps);
      case LockInterface(param) =>
        response := Lock(param, r.entropy, r.json);
      case GetReport(offset, length) =>
        var portion := SelectPortion(buffer[..reportSize], TDISP_PORTION, offset, length);
        response := if portion.None? then Error(InvalidRequest) else ReportRsp(portion.value);
      case GetState =>
        response := StateRsp(state);
      case StartInterface(candidate) =>
        if state != ConfigLocked {
          return Error(InvalidInterfaceState);
        }
        if candidate != nonce {
          return Error(InvalidNonce);
        }
        state := Running;
        response := StartRsp;
      case StopInterface =>
        if state == ConfigUnlocked {
          return Error(InvalidInterfaceState);
        }
        state := ConfigUnlocked;
        response := StopRsp;
    }
  }
}
