# Verified models of spdm-emu

This project models, in Dafny, the parts of the SPDM emulator that hold state, loop over untrusted
input or have an inverse, and proves what they promise. It has three parts.

**The CXL TSP target** (`CxlTsp*.dfy`; CXL 3.1, section 11.5). The device context is a class whose
methods update it in place; `Step` says what one request does to it. The validators of both sides are
proved to accept exactly what their rules mean. Over every run from zeroed memory: the lock is
permanent, the stored configuration is always valid and is the last one accepted, the primary session
is the first one, and every PSK slot follows the history of accepted requests.

**The TDISP interface and segmented transfers** (`Tdisp*.dfy`, `SegmentedTransfer.dfy`,
`Transfer*.dfy`; TDISP chapter of the PCI Express Base Specification 6.x). One transfer, with
the portion size as a parameter, serves the TDISP interface report and the CXL configuration report.
It is proved against any peer, and to refine a plain copy against this repository's responder. The
interface runs exactly when a LOCK and a START with its nonce are in force, and the report then
fetched is the one that LOCK generated.

**Codecs and loops with inverses**: the CoRIM tool (`Corim*.dfy`), flag names (`Flag*.dfy`),
platform socket frames (`Platform*.dfy`), DOE discovery (`DoeDiscovery.dfy`;
section 6.30 of PCI Express Base Specification 6.0), and measurements from the attester's collection
to the evidence file (`Measurement*.dfy`; DSP0274, clause "DMTF specification for the Measurement
field of a measurement block").

Each specification function is also described without itself: answers by the history of requests
(`CxlTspAnswers`) or by the state (`TdispAnswers`), validators by raw words (`CxlTspRules`), codecs by
byte offsets and by the values that went in, the CoRIM schema by names (`CorimSchema`), a fetch by the
replies it accepted (`TransferChecks`), a collection by its requests and answers (`MeasurementHistory`).

Code that updates things step by step is a method with its loops, or a class, proved equal to a
function; the theorems are lemmas about that function. An exception or an early error return is a
value (`None`, a status). A peer, a device or a network is a function parameter that may answer
anything at each round; where a peer could keep a loop going for ever, the channel fails after a
number of rounds that is a parameter too. Where a promise is false of the code, a lemma gives an input
and another the exact condition: `LargeBufferBreaks` and `FaithfulExactlyWhen`, `WrappingConfiguration`
and `WindowInsideExactlyWhen`, `SampleDecodes` and `ComesBackExactlyWhen`, `UncoveredWord` and
`RoundTripExactlyWhen`, `FiveMisread` and `RecordParsed`, `TwoSignedRequests` and
`SignedLastOnlyExactlyWhen`. Whether a fetch ends depends on the peer: `EmptyPortionsNeverEnd` shows a
peer that keeps it going, `LoopEnds` a condition on the peer under which it ends.

Where the code and its comments disagree, the model follows the code. The attester's comment asks for
the signature in the last message only
(`spdm_emu/spdm_device_attester_sample/spdm_device_attester_measurement.c:66`); the code asks for it in
every request issued once all records but one have arrived. The round trip of the CoRIM tool replaces
codes in role and digest lists by names, and the repository's sample manifest has such codes.

## Model

| member | source | states |
|---|---|---|
| `SegmentedTransfer.SelectPortion` | library/pci_tdisp_responder_lib/pci_tdisp_rsp_interface_report.c:64-99 | the clamping of offset and length answers with exactly the bytes from offset to min(offset + min(length, portion size), report size) and the number of bytes after them, and with an error exactly for an empty window or an offset at or past the end |
| `SegmentedTransfer.CheckReply` | library/pci_tdisp_requester_lib/pci_tdisp_req_get_interface_report.c:67-102 | the checks on one reply, in order, with the status and the size reported for each failure |
| `SegmentedTransfer.FetchReport` | library/pci_tdisp_requester_lib/pci_tdisp_req_get_interface_report.c:48-113 | the do-while loop over its own variables and the caller's buffer ends, against any peer, with the status, size and buffer of the recursive description of a fetch |
| `TransferTheorems.AcceptKeepsConsistent` | library/pci_tdisp_requester_lib/pci_tdisp_req_get_interface_report.c:91-108 | whatever the peer sends, after an accepted reply bytes stored plus bytes announced equal the total, and the total is within the buffer and the range of the offset |
| `TransferTheorems.AnyPeer` | library/pci_tdisp_requester_lib/pci_tdisp_req_get_interface_report.c:51-113 | against any peer, with a buffer of at most 0x10000 bytes (or portions of one byte), the buffer holds the concatenation of the accepted portions followed by the untouched old bytes; success reports exactly that many; a report that does not fit is measured and nothing is written |
| `TransferTheorems.LargeBufferBreaks` | library/pci_tdisp_requester_lib/pci_tdisp_req_get_interface_report.c:91-107 | with any larger buffer and any portion size of two or more that is false: one peer makes the 16-bit offset wrap, and the fetch succeeds with size 1 after storing 0x10001 bytes |
| `TransferTheorems.FaithfulExactlyWhen` | library/pci_tdisp_requester_lib/pci_tdisp_req_get_interface_report.c:51-113 | so it holds against every peer exactly when the buffer has at most 0x10000 bytes or portions have at most one byte |
| `TransferTheorems.FaithfulInBothProtocols` | library/cxl_tsp_requester_lib/cxl_tsp_req_get_configuration_report.c:48-107 | for the portion sizes of both protocols: exactly up to 0x10000 bytes |
| `TransferTheorems.EmptyPortionsNeverEnd` | library/pci_tdisp_requester_lib/pci_tdisp_req_get_interface_report.c:103-109 | a peer that announces more but sends empty portions keeps the loop going as long as the channel lives |
| `TransferTheorems.LoopEnds` | library/pci_tdisp_requester_lib/pci_tdisp_req_get_interface_report.c:51-109 | against a peer that announces more only together with at least one byte the loop ends by itself: once the channel lasts one round more than there are bytes free, the outcome does not depend on how long it lasts |
| `TransferTheorems.FetchIsRelayed` | library/cxl_tsp_responder_lib/cxl_tsp_rsp_get_configuration_report.c:91-127 | requester loop and responder together compute, from every halfway state, the portions of the report at consecutive offsets |
| `TransferTheorems.TransferRefinesCopy` | library/cxl_tsp_requester_lib/cxl_tsp_req_get_configuration_report.c:48-107 | the transfer refines a plain copy: for every portion size and every report of up to 0xFFFF bytes that fits, the buffer receives exactly the report in ceil(n / portion) rounds; a report that does not fit is only measured; an empty report is refused |
| `TransferChecks.ServedWindow` | library/pci_tdisp_responder_lib/pci_tdisp_rsp_interface_report.c:64-99 | a window is answered exactly when it is not empty and starts inside the report, with a prefix of the report from the offset on: as long as asked for, a portion, or the rest, whichever is least, and the bytes after it counted |
| `TransferChecks.RequestedWindow` | library/pci_tdisp_requester_lib/pci_tdisp_req_get_interface_report.c:51-62 | the first request asks for a whole portion, a later one for a portion or for all that is still announced, and never past the total |
| `TransferChecks.AcceptedExactlyWhen` | library/pci_tdisp_requester_lib/pci_tdisp_req_get_interface_report.c:67-108 | a reply is accepted exactly when its header is right, its payload is as long as it says and not longer than asked for, and the total fits the buffer (first reply) or is the announced one (later replies); then exactly the bytes at the offset are replaced by the payload |
| `TransferChecks.StoppedExactlyWhen` | library/pci_tdisp_requester_lib/pci_tdisp_req_get_interface_report.c:67-102 | and the status of each other reply: transport failure, invalid size for a truncated or missized one, invalid field for a wrong header or total, buffer too small with the announced size |
| `TransferChecks.PortionsDelivered` | library/pci_tdisp_requester_lib/pci_tdisp_req_get_interface_report.c:51-113 | against any peer, portion number j of a fetch is the payload of a reply with a right header in round j, at the offset where the portions before it end; success comes exactly from a reply with nothing to come |
| `TransferChecks.WrongHeadersStoreNothing` | library/pci_tdisp_requester_lib/pci_tdisp_req_get_interface_report.c:81-89 | a peer whose headers are never right leaves the buffer as it was, and no fetch from it succeeds |
| `CxlTspData.OneHotMeaning` | library/cxl_tsp_responder_lib/cxl_tsp_rsp_set_configuration.c:14-17 | libspdm_onehot0 holds exactly of zero and of the 32 single-bit words |
| `CxlTspValidators.CheckLengthIndices` | library/cxl_tsp_responder_lib/cxl_tsp_rsp_set_configuration.c:171-187 | for any number of entries the bitmap loop accepts exactly when the indices other than 0xFF are at most 7, pairwise distinct, and not 7 when that index is reserved |
| `CxlTspValidators.CheckEncryption` | library/cxl_tsp_requester_lib/cxl_tsp_req_get_configuration.c:37-56 | the rules on the encryption features alone: CKID-based exactly when required, never with range-based, and only with encryption on |
| `CxlTspValidators.CheckTe` | library/cxl_tsp_requester_lib/cxl_tsp_req_get_configuration.c:79-100 | the rules on the TE features alone: access control and sanitising need a way to change the TE state |
| `CxlTspValidators.RequesterValidate` | library/cxl_tsp_requester_lib/cxl_tsp_req_get_configuration.c:18-145 | the requester accepts exactly the coherent configurations |
| `CxlTspValidators.CountSecondarySessions` | library/cxl_tsp_responder_lib/cxl_tsp_rsp_set_configuration.c:190-208 | the switch yields n exactly for the flags 2^n - 1 with n at most 4 |
| `CxlTspValidators.CheckSelection` | library/cxl_tsp_responder_lib/cxl_tsp_rsp_set_configuration.c:88-99 | a selector is accepted exactly when it is zero with its feature off, and one-hot, nonzero and wholly supported with it on |
| `CxlTspValidators.ValidateEncryptionHalf` | library/cxl_tsp_responder_lib/cxl_tsp_rsp_set_configuration.c:40-99 | the encryption half accepts exactly what is coherent and within the capabilities |
| `CxlTspValidators.ValidateTeHalf` | library/cxl_tsp_responder_lib/cxl_tsp_rsp_set_configuration.c:101-149 | the TE half accepts exactly what is coherent and within the capabilities |
| `CxlTspValidators.ResponderValidate` | library/cxl_tsp_responder_lib/cxl_tsp_rsp_set_configuration.c:19-214 | the responder accepts exactly the configurations that the requester accepts, that enable only what the device supports, and whose flags announce at most the supported number of sessions |
| `CxlTspCapabilities.ValidateCapabilities` | library/cxl_tsp_requester_lib/cxl_tsp_req_get_capabilities.c:14-149 | the requester accepts exactly the coherent capabilities, with 2 to 0x1FFF CKIDs when CKID-based encryption is supported |
| `CxlTspCapabilities.CkidWindowBounded` | library/cxl_tsp_requester_lib/cxl_tsp_req_get_capabilities.c:127-132 | with capabilities that pass, every accepted configuration that requires CKIDs has base plus count below 0x2000 in true integers, so the 32-bit sum does not wrap |
| `CxlTspCapabilities.WindowInsideExactlyWhen` | library/cxl_tsp_responder_lib/cxl_tsp_rsp_set_configuration.c:151-161 | the responder alone keeps the window inside exactly for capabilities that cannot use CKIDs or leave no room for a wrap |
| `CxlTspCapabilities.WrappingConfiguration` | library/cxl_tsp_responder_lib/cxl_tsp_rsp_set_configuration.c:158-160 | for all other capabilities: a configuration it accepts whose sum wraps to zero |
| `CxlTspRules.EncryptionAccepted` | library/cxl_tsp_responder_lib/cxl_tsp_rsp_set_configuration.c:40-99 | on the raw words: the responder accepts of the encryption bits 0x17 only the values 0, 0x01, 0x05 and 0x13, all of them supported, one supported algorithm bit exactly when on, and with 0x13 a window that passes the 32-bit test |
| `CxlTspRules.EncryptionReadable` | library/cxl_tsp_requester_lib/cxl_tsp_req_get_configuration.c:37-120 | on the raw words: what the requester accepts of the encryption half |
| `CxlTspRules.TeAccepted` | library/cxl_tsp_responder_lib/cxl_tsp_rsp_set_configuration.c:101-149 | on the raw words: which TE bits, granularity selector and entries the responder accepts |
| `CxlTspRules.TeReadable` | library/cxl_tsp_requester_lib/cxl_tsp_req_get_configuration.c:72-145 | on the raw words: what the requester accepts of the TE half |
| `CxlTspRules.EntriesPairwise` | library/cxl_tsp_responder_lib/cxl_tsp_rsp_set_configuration.c:171-187 | the rule on all entries is the rule on each entry and each pair of entries |
| `CxlTspRules.AllowedFlags` | library/cxl_tsp_responder_lib/cxl_tsp_rsp_set_configuration.c:190-214 | the accepted flags are 0, 1, 3, 7 and 15, as far as the number of sessions reaches |
| `CxlTspRules.SampleAccepts` | library/cxl_tsp_device_lib_sample/cxl_tsp_device_context.c:105-127 | exactly which configurations the sample device accepts, bit by bit |
| `CxlTspRules.CapabilitiesReadable` | library/cxl_tsp_requester_lib/cxl_tsp_req_get_capabilities.c:14-149 | on the raw words: which capabilities the requester accepts |
| `CxlTspDevice.TspTarget.constructor` | library/cxl_tsp_device_lib_sample/cxl_tsp_device_context.c:12-16 | zeroed global memory is the start of every run |
| `CxlTspDevice.TspTarget.GetSessionType` | library/cxl_tsp_device_lib_sample/cxl_tsp_device_context.c:18-48 | classification: primary first, then any of the four secondary slots, else other |
| `CxlTspDevice.TspTarget.InitialiseContext` | library/cxl_tsp_device_lib_sample/cxl_tsp_device_context.c:92-127 | initialisation resets everything but the PSK slots, and does nothing once a primary session is known |
| `CxlTspDevice.TspTarget.RegisterSession` | library/cxl_tsp_device_lib_sample/cxl_tsp_device_context.c:62-90 | the first session becomes primary; later PSK sessions take the secondary slot of their index; others are not recorded |
| `CxlTspDevice.TspTarget.StoreConfiguration` | library/cxl_tsp_device_lib_sample/cxl_tsp_device_set_configuration.c:40-56 | configuration and session information are stored, and exactly the flagged PSK slots are overwritten |
| `CxlTspDevice.TspTarget.Admit` | library/cxl_tsp_responder_lib/cxl_tsp_rsp_set_configuration.c:241-262 | session, size and version guards, in that order |
| `CxlTspDevice.TspTarget.HandleSetConfiguration` | library/cxl_tsp_responder_lib/cxl_tsp_rsp_set_configuration.c:287-333 | refused unless unlocked and valid, with the state unchanged; otherwise the configuration is stored |
| `CxlTspDevice.TspTarget.HandleReport` | library/cxl_tsp_responder_lib/cxl_tsp_rsp_get_configuration_report.c:63-127 | refused in the error state; otherwise the report is regenerated and a portion of it answered |
| `CxlTspDevice.TspTarget.Dispatch` | library/cxl_tsp_responder_lib/cxl_tsp_dispatch.c:39-62 | one request moves the whole context, and is answered, as the step function says |
| `CxlTspRuns.LockInvariantHolds` | library/cxl_tsp_responder_lib/cxl_tsp_rsp_lock_configuration.c:69-92 | in every run a locked device knows its primary session and the error state is never reached |
| `CxlTspRuns.LockIsPermanent` | library/cxl_tsp_device_lib_sample/cxl_tsp_device_context.c:92-103 | once a run has locked the device, no continuation changes state, configuration, session information, PSK slots, capabilities or primary session |
| `CxlTspRuns.LockedExactlyWhen` | library/cxl_tsp_responder_lib/cxl_tsp_rsp_lock_configuration.c:69-92 | the device is locked exactly when an earlier LOCK was answered with success |
| `CxlTspRuns.PrimaryIsFirst` | library/cxl_tsp_device_lib_sample/cxl_tsp_device_context.c:62-76 | the primary session is the session of the first well-formed GET_VERSION and classifies as primary for ever |
| `CxlTspRuns.SlotsFollowRequests` | library/cxl_tsp_device_lib_sample/cxl_tsp_device_context.c:77-89 | after any run secondary slot i holds the session of the last PSK GET_VERSION with index i after the first GET_VERSION, or is unused |
| `CxlTspRuns.SecondaryExactlyWhen` | library/cxl_tsp_device_lib_sample/cxl_tsp_device_context.c:27-48 | a session classifies as secondary exactly when it is not the primary one and stands in such a slot |
| `CxlTspRuns.OnlyPrimaryChanges` | library/cxl_tsp_responder_lib/cxl_tsp_rsp_set_configuration.c:241-246 | after it, configuration, session information, PSK slots and lock state change only in requests on the primary session |
| `CxlTspRuns.CapabilitiesFollowPrimary` | library/cxl_tsp_device_lib_sample/cxl_tsp_device_context.c:92-127 | the capabilities are the sample's from the first GET_VERSION on, and zero before |
| `CxlTspRuns.AcceptedExactlyWhen` | library/cxl_tsp_responder_lib/cxl_tsp_rsp_lock_configuration.c:36-92 | after any run, exactly which SET and LOCK requests succeed: well-formed, on the primary session, unlocked and, for SET, valid |
| `CxlTspRuns.ConfigurationAlwaysValid` | library/cxl_tsp_responder_lib/cxl_tsp_rsp_set_configuration.c:294-333 | in every reachable state the stored configuration passes the requester's validator and stays within the capabilities, which pass theirs |
| `CxlTspRuns.ConfigurationIsLastAccepted` | library/cxl_tsp_responder_lib/cxl_tsp_rsp_set_configuration.c:303-333 | the stored configuration is that of the last accepted SET, or zero if there was none |
| `CxlTspRuns.GetReturnsLastSet` | library/cxl_tsp_responder_lib/cxl_tsp_rsp_get_configuration.c:63-99 | every admitted GET returns the last accepted SET and the lock state, and the requester's validator accepts it |
| `CxlTspRuns.AcceptedFlagsAnnounce` | library/cxl_tsp_device_lib_sample/cxl_tsp_device_set_configuration.c:47-56 | for accepted flags, bit i is set exactly when more than i sessions are announced |
| `CxlTspRuns.SlotsFollowHistory` | library/cxl_tsp_device_lib_sample/cxl_tsp_device_set_configuration.c:47-56 | after any run PSK slot i holds the key of the last accepted SET that announced more than i sessions, or its initial value |
| `CxlTspReport.DeviceAnswers` | library/cxl_tsp_responder_lib/cxl_tsp_rsp_get_configuration_report.c:81-127 | after any number of earlier report requests for any windows the device answers from one fixed report |
| `CxlTspReport.ReportDelivered` | library/cxl_tsp_responder_lib/cxl_tsp_rsp_get_configuration_report.c:81-127 | after any run, fetching the report from the device itself, each round a step of the device after the earlier ones, succeeds in one round with the report the device has |
| `CxlTspAnswers.RefusedExactlyWhen` | library/cxl_tsp_responder_lib/cxl_tsp_dispatch.c:39-62 | after any run a request is refused exactly when its session may not send it: SET and LOCK are for the session of the first GET_VERSION, GET_CONFIGURATION, the report and TE state changes for that one and the sessions in a slot, the others for any session |
| `CxlTspAnswers.ErrorExactlyWhen` | library/cxl_tsp_responder_lib/cxl_tsp_rsp_set_configuration.c:248-301 | which error a request of a proper session gets: size before version before state before contents |
| `CxlTspAnswers.FailureChangesNothing` | library/cxl_tsp_responder_lib/cxl_tsp_rsp_set_configuration.c:241-301 | a request that is refused or answered with an error changes nothing; a report request, which regenerates the report first, aside |
| `CxlTspAnswers.VersionExactlyWhen` | library/cxl_tsp_responder_lib/cxl_tsp_rsp_get_version.c:50-85 | exactly the well-formed GET_VERSION requests in a session are answered with version 1.0 alone |
| `CxlTspAnswers.CapabilitiesExactlyWhen` | library/cxl_tsp_responder_lib/cxl_tsp_rsp_get_capabilities.c:42-85 | exactly the well-formed GET_CAPABILITIES requests in a session are answered, with the capabilities of the sample written out bit by bit, or zeros before the first GET_VERSION |
| `CxlTspAnswers.ConfigurationExactlyWhen` | library/cxl_tsp_responder_lib/cxl_tsp_rsp_get_configuration.c:40-99 | GET_CONFIGURATION is answered exactly when well-formed and from the primary session or a session in a slot |
| `CxlTspAnswers.ReportExactlyWhen` | library/cxl_tsp_responder_lib/cxl_tsp_rsp_get_configuration_report.c:43-127 | a report request is answered with a portion exactly when well-formed, from a known session, and with a window that meets the 0xDC bytes of the report; the portion is part of a one followed by zeros, and the rest is counted |
| `CxlTspAnswers.TeStateExactlyWhen` | library/cxl_tsp_responder_lib/cxl_tsp_rsp_set_te_state.c:39-90 | a TE state change succeeds exactly when well-formed, from a known session, with 1 to 32 ranges, after a LOCK was accepted |
| `CxlTspAnswers.SetExactlyWhen` | library/cxl_tsp_responder_lib/cxl_tsp_rsp_set_configuration.c:241-333 | SET succeeds exactly when well-formed, from the session of the first GET_VERSION, before any LOCK was accepted, with a configuration the sample accepts |
| `CxlTspAnswers.LockExactlyWhen` | library/cxl_tsp_responder_lib/cxl_tsp_rsp_lock_configuration.c:39-92 | LOCK succeeds exactly when well-formed, from the session of the first GET_VERSION, before any LOCK was accepted |
| `CxlTspAnswers.ReportContents` | library/cxl_tsp_device_lib_sample/cxl_tsp_device_get_configuration_report.c:38-60 | in every run the regenerated report is a one followed by zeros |
| `TdispReport.ParseEncoded` | library/pci_tdisp_device_lib_sample/pci_tdisp_device_interface_report_json.c:163-224 | walking an encoded report recovers every field, range and info byte and leaves exactly what follows it |
| `TdispReport.EncodeParsed` | spdm_emu/spdm_requester_emu/spdm_requester_pci_doe.c:279-316 | bytes the walk accepts are the encoding of the report it finds, followed by what it leaves |
| `TdispReport.HeaderLayout` | library/pci_tdisp_device_lib_sample/pci_tdisp_device_interface_report_json.c:163-185 | the header by offsets: interface info at 0, reserved at 2, MSI-X control at 4, LNR control at 6, TPH control at 8, number of ranges at 12, least significant byte first |
| `TdispReport.BodyLayout` | library/pci_tdisp_device_lib_sample/pci_tdisp_device_interface_report_json.c:187-224 | range k at 16 + 16 k with first page, number of pages, attributes and id at 0, 8, 12 and 14; then the length of the info and the info |
| `TdispReportFlow.DescribedRecovers` | library/pci_tdisp_device_lib_sample/pci_tdisp_device_interface_report_json.c:163-224 | the stored report has every JSON value in the field of its name: unchanged if it fits, else its low bits; reserved is zero, and there are as many ranges as in the file |
| `TdispReportFlow.AppendRanges` | library/pci_tdisp_device_lib_sample/pci_tdisp_device_interface_report_json.c:187-216 | the loop over the ranges fails exactly at an incomplete one, and the buffer holds the encodings of the ranges before it, in order |
| `TdispReportFlow.StoreReport` | library/pci_tdisp_device_lib_sample/pci_tdisp_device_interface_report_json.c:161-222 | header, ranges and info are written one after the other with every value cast to its width; on failure the buffer holds exactly the parts before the first incomplete one, and zeros |
| `TdispReportFlow.LoadReport` | library/pci_tdisp_device_lib_sample/pci_tdisp_device_interface_report_json.c:132-227 | succeeds exactly on complete reports of at most four ranges that fit, and then the buffer is the encoding followed by zeros; a report with too many ranges or too large leaves the buffer untouched |
| `TdispReportFlow.WalkRanges` | spdm_emu/spdm_requester_emu/spdm_requester_pci_doe.c:291-307 | the loop over the ranges finds what the parser finds |
| `TdispReportFlow.WalkReport` | spdm_emu/spdm_requester_emu/spdm_requester_pci_doe.c:279-316 | the requester's walk finds the report and ends where the parser ends |
| `TdispReportFlow.DeliverReport` | library/pci_tdisp_device_lib_sample/pci_tdisp_device_interface_report_json.c:91-232 | end to end: serialise, send in portions, reassemble and walk gives back for every loadable file each JSON value in the field of its name (unchanged if it fits, else its low bits), the same number of ranges and the info bytes, and the walk ends exactly at the announced size; for every other file nothing arrives |
| `TdispDevice.TdispInterface.constructor` | library/pci_tdisp_device_lib_sample/pci_tdisp_device_context.c:13 | zeroed global memory is the start of every run |
| `TdispDevice.TdispInterface.Initialise` | library/pci_tdisp_device_lib_sample/pci_tdisp_device_context.c:15-45 | initialisation resets the whole context and records the interface id |
| `TdispDevice.TdispInterface.GenerateReport` | library/pci_tdisp_device_lib_sample/pci_tdisp_device_lock_interface.c:80-136 | the report is the one from JSON if it loads, else the hard-coded one |
| `TdispDevice.TdispInterface.Lock` | library/pci_tdisp_device_lib_sample/pci_tdisp_device_lock_interface.c:55-97 | LOCK: refused unless unlocked; without entropy only the parameters change; otherwise parameters, nonce, state and report are set |
| `TdispDevice.TdispInterface.Dispatch` | library/pci_tdisp_responder_lib/pci_tdisp_dispatch.c:40-65 | one request moves the whole context, and is answered, as the step function says |
| `TdispRuns.LockEffect` | library/pci_tdisp_device_lib_sample/pci_tdisp_device_lock_interface.c:62-97 | an accepted LOCK stores its parameters, the nonce it returns and the report it generates |
| `TdispRuns.BoundChanges` | library/pci_tdisp_device_lib_sample/pci_tdisp_device_start_interface.c:32-47 | while locked or running, only an answered STOP or GET_VERSION changes what the lock fixed; START needs the stored nonce |
| `TdispRuns.AlwaysBound` | library/pci_tdisp_device_lib_sample/pci_tdisp_device_context.c:15-58 | at every point of every run: locked implies a LOCK still in force, running also a matching START after it |
| `TdispRuns.StartedRuns` | library/pci_tdisp_device_lib_sample/pci_tdisp_device_start_interface.c:32-47 | a started interface runs until it is stopped or reset |
| `TdispRuns.RunningExactlyWhen` | library/pci_tdisp_device_lib_sample/pci_tdisp_device_start_interface.c:32-47 | at every point of every run the interface runs exactly when a LOCK and a later START with the nonce it returned succeeded on the same interface, no STOP or GET_VERSION succeeded since, and id, parameters, nonce and report are those of the LOCK |
| `TdispRuns.DeviceIsResponder` | library/pci_tdisp_responder_lib/pci_tdisp_rsp_interface_report.c:55-99 | after any number of earlier report requests the device answers every window as the responder of the transfer does |
| `TdispRuns.LockedReportDelivered` | spdm_emu/spdm_requester_emu/spdm_requester_pci_doe.c:272-316 | at every locked or running point, fetching the report from the device itself and walking it gives back exactly the report of the LOCK still in force |
| `TdispRuns.ScriptedReport` | spdm_emu/spdm_requester_emu/spdm_requester_pci_doe.c:213-316 | whatever the device held before, the report the scripted session fetches and walks is the one its own LOCK generated |
| `TdispAnswers.VersionExactlyWhen` | library/pci_tdisp_responder_lib/pci_tdisp_rsp_version.c:46-79 | in every state: GET_VERSION is answered exactly when well-formed, with version 1.0, and resets every field of the context |
| `TdispAnswers.CapabilitiesExactlyWhen` | library/pci_tdisp_responder_lib/pci_tdisp_rsp_capabilities.c:38-70 | in every state: answered exactly when well-formed and addressed, with the stored capabilities; the requester's are recorded |
| `TdispAnswers.LockExactlyWhen` | library/pci_tdisp_responder_lib/pci_tdisp_rsp_lock_interface.c:38-70 | in every state: LOCK succeeds exactly when well-formed, addressed, unlocked and with entropy, and then exactly state, parameters, nonce and report change |
| `TdispAnswers.StartExactlyWhen` | library/pci_tdisp_responder_lib/pci_tdisp_rsp_start_interface.c:38-68 | in every state: START succeeds exactly when well-formed, addressed, locked and with the stored nonce, and changes only the state |
| `TdispAnswers.StopExactlyWhen` | library/pci_tdisp_responder_lib/pci_tdisp_rsp_stop_interface.c:38-67 | in every state: STOP succeeds exactly when well-formed, addressed and not unlocked, and changes only the state |
| `TdispAnswers.StateExactlyWhen` | library/pci_tdisp_responder_lib/pci_tdisp_rsp_interface_state.c:38-69 | in every state: GET_STATE is answered exactly when well-formed and addressed, with the state |
| `TdispAnswers.ReportExactlyWhen` | library/pci_tdisp_responder_lib/pci_tdisp_rsp_interface_report.c:42-99 | in every state: a report request is answered exactly when well-formed, addressed and with a window that meets the report, with at most 64 of its bytes and the rest counted |
| `TdispAnswers.ErrorExactlyWhen` | library/pci_tdisp_responder_lib/pci_tdisp_dispatch.c:40-65 | each of the seven errors, exactly when it is given |
| `TdispAnswers.ErrorChanges` | library/pci_tdisp_device_lib_sample/pci_tdisp_device_lock_interface.c:62-78 | an error changes nothing, except that a LOCK without entropy has stored its parameters |
| `TdispAnswers.ReportGenerated` | library/pci_tdisp_device_lib_sample/pci_tdisp_device_lock_interface.c:80-136 | a file that is complete, has at most four ranges and fits gives a report with its values, any other the hard-coded one |
| `TdispAnswers.UnlocksExactlyWhen` | library/pci_tdisp_device_lib_sample/pci_tdisp_device_stop_interface.c:31-43 | in every run a locked or running interface becomes unlocked exactly by a well-formed STOP to it or a well-formed GET_VERSION, and nothing else changes what the lock fixed |
| `TdispAnswers.LocksExactlyWhen` | library/pci_tdisp_device_lib_sample/pci_tdisp_device_lock_interface.c:55-97 | in every run an unlocked interface becomes locked exactly by a well-formed LOCK to it with entropy |
| `TdispAnswers.DefaultReportContents` | library/pci_tdisp_device_lib_sample/pci_tdisp_device_lock_interface.c:95-133 | the hard-coded report: four disjoint ranges numbered 1 to 4 of 21 pages, the device name padded to 16 bytes, 100 bytes encoded |
| `CorimTables.GetKeyByValue` | spdm_emu/spdm_device_verifier_tool/CoRimTool.py:98-102 | the nested search loops find the first name with that code in the first table that has one |
| `CorimTables.NameRecovered` | spdm_emu/spdm_device_verifier_tool/CoRimTool.py:41-64 | in a table with ascending codes every name is found by the code the translator gives it |
| `CorimTables.TablesConsistent` | spdm_emu/spdm_device_verifier_tool/CoRimTool.py:66-79 | every table used for the keys of a map is such a table |
| `CorimTool.TranslateList` | spdm_emu/spdm_device_verifier_tool/CoRimTool.py:182-198 | the list branch of translate_data builds the translated list, or raises at the first element that does |
| `CorimTool.TranslateDict` | spdm_emu/spdm_device_verifier_tool/CoRimTool.py:160-181 | the dict branch of translate_data builds the translated dict, later members with the same code overwriting earlier ones, or raises |
| `CorimTool.TranslateEntry` | spdm_emu/spdm_device_verifier_tool/CoRimTool.py:162-181 | the member kinds of translate_data: nested, role and algorithm names, tagged keys, plain values |
| `CorimTool.TranslateData` | spdm_emu/spdm_device_verifier_tool/CoRimTool.py:159-198 | translate_data as a whole builds the translated tree |
| `CorimTool.GenCbor` | spdm_emu/spdm_device_verifier_tool/CoRimTool.py:104-109 | translate, wrap entry 1 in tag 506, wrap the whole in tags 501 and 500 |
| `CorimTool.DecodeList` | spdm_emu/spdm_device_verifier_tool/CoRimTool.py:268-297 | the list branch of the decoder |
| `CorimTool.DecodeDict` | spdm_emu/spdm_device_verifier_tool/CoRimTool.py:237-267 | the dict branch of the decoder |
| `CorimTool.DecodeMember` | spdm_emu/spdm_device_verifier_tool/CoRimTool.py:245-267 | the member kinds of the decoder, each under the name its context gives the code |
| `CorimTool.Decoder` | spdm_emu/spdm_device_verifier_tool/CoRimTool.py:228-297 | the decoder as a whole builds the decoded tree |
| `CorimRoundTrip.RoundTrip` | spdm_emu/spdm_device_verifier_tool/CoRimTool.py:159-297 | every tree that follows the schema of its context is translated, and decoding gives it back with codes in role and digest lists replaced by their names |
| `CorimRoundTrip.DictRoundTrip` | spdm_emu/spdm_device_verifier_tool/CoRimTool.py:237-245 | the same for dicts, including the decoder's guess between environments and measurements by key 0 |
| `CorimRoundTrip.ManifestRoundTrip` | spdm_emu/spdm_device_verifier_tool/CoRimTool.py:104-111 | decoding a generated manifest gives it back under corim and unsigned_corim_map, with those codes named |
| `CorimExact.UnchangedExactlyWhen` | spdm_emu/spdm_device_verifier_tool/CoRimTool.py:276-284 | naming codes changes nothing exactly when no role or digest list holds one |
| `CorimExact.ManifestConverse` | spdm_emu/spdm_device_verifier_tool/CoRimTool.py:104-111 | a manifest that comes back unchanged follows the schema |
| `CorimExact.ComesBackExactlyWhen` | spdm_emu/spdm_device_verifier_tool/CoRimTool.py:104-297 | for every document: it comes back unchanged exactly when it follows the schema and uses names, not codes, in role and digest lists |
| `CorimSchema.SchemaAllows` | spdm_emu/spdm_device_verifier_tool/CoRimTool.py:41-79 | the schema without the tables: under each name exactly the keys listed for it by name are allowed, and under reference triples a dict without a class is a measurement |
| `CorimSchema.ListNames` | spdm_emu/spdm_device_verifier_tool/CoRimTool.py:276-285 | in role and digest lists a scalar is read as a name exactly when it equals one of the numbers listed for it |
| `CorimSample.SampleFits` | spdm_emu/spdm_device_verifier_tool/SampleManifests/SpdmSampleCoMid.json:1-126 | a document of the shape of the repository's own sample (class, measurement value, digests, version number, roles), with any triples and labels, follows the schema |
| `CorimSample.SampleDecodes` | spdm_emu/spdm_device_verifier_tool/SampleManifests/SpdmSampleCoMid.json:1-126 | it is translated, and decodes to itself with roles 0 and 1 and hash algorithm 8 named: it does not come back unchanged |
| `CorimErrors.RaisesExactlyWhen` | spdm_emu/spdm_device_verifier_tool/CoRimTool.py:159-198 | translation raises an exception exactly when some key has no code, or a role, signature algorithm or tag given by name is unknown |
| `CorimErrors.GeneratedExactlyWhen` | spdm_emu/spdm_device_verifier_tool/CoRimTool.py:104-111 | a manifest is generated exactly from a translatable dict with an entry coded 1 |
| `CorimErrors.UnknownCode` | spdm_emu/spdm_device_verifier_tool/CoRimTool.py:245-267 | decoding what the tool does not generate: a scalar under a code the table does not have is kept without a name |
| `CorimErrors.TaggedScalar` | spdm_emu/spdm_device_verifier_tool/CoRimTool.py:229-236 | a tagged scalar outside a dict is lost |
| `CorimErrors.UnknownTag` | spdm_emu/spdm_device_verifier_tool/CoRimTool.py:253-259 | decoding what the tool does not generate: an entry with a tag that is neither 506 nor a comid tag is dropped |
| `CorimErrors.TagInList` | spdm_emu/spdm_device_verifier_tool/CoRimTool.py:268-297 | a list with a tag among its items, wherever it stands, has no JSON form |
| `CorimErrors.TagsWithoutList` | spdm_emu/spdm_device_verifier_tool/CoRimTool.py:253-257 | tag 506 around a scalar, an empty dict or a tagged scalar becomes an empty list, around a dict with a scalar it raises an exception |
| `CorimErrors.TagWithoutName` | spdm_emu/spdm_device_verifier_tool/CoRimTool.py:258-259 | a comid tag under a code the table does not have raises an exception |
| `Flags.GetValueFromName` | spdm_emu/spdm_emu_common/spdm_emu.c:519-532 | the search loop finds the value of the first entry with that name |
| `Flags.NextToken` | spdm_emu/spdm_emu_common/spdm_emu.c:555-565 | strtok: the next run of characters other than commas, and where the search goes on |
| `Flags.GetFlagsFromName` | spdm_emu/spdm_emu_common/spdm_emu.c:534-569 | the loop unites the values of the tokens and stops at the first unknown one with what it has |
| `Flags.SplitJoined` | spdm_emu/spdm_emu_common/spdm_emu.c:550-565 | splitting a comma-separated list of nonempty comma-free names gives the names back |
| `Flags.PrintedAndRemaining` | spdm_emu/spdm_emu_common/spdm_emu.c:585-598 | printed bits and remaining bits share nothing and make up the flag word |
| `Flags.DumpFlagNames` | spdm_emu/spdm_emu_common/spdm_emu.c:573-598 | the loop prints the names of the covered entries in table order, then the remaining bits in hexadecimal, or NONE |
| `FlagTheorems.TokensMean` | spdm_emu/spdm_emu_common/spdm_emu.c:555-565 | parsing succeeds exactly when every token is a name of the table, and sets exactly the bits some token grants: order and repetition do not matter |
| `FlagTheorems.DistinctNamesResolve` | spdm_emu/spdm_emu_common/spdm_emu.c:519-532 | in a table with distinct names every name denotes the value of its own entry |
| `FlagTheorems.CoveredLeavesNothing` | spdm_emu/spdm_emu_common/spdm_emu.c:585-597 | the printing loop has no bits left exactly when every bit of the word is in some entry that has no bit outside the word |
| `FlagTheorems.RoundTripExactlyWhen` | spdm_emu/spdm_emu_common/spdm_emu.c:534-598 | for every table with distinct names, overlapping entries included: a nonzero word comes back exactly when the table covers each of its bits in that way, the zero word exactly when the table has a name NONE for it |
| `FlagTheorems.RoundTripOfCovered` | spdm_emu/spdm_emu_common/spdm_emu.c:534-598 | in tables without the name NONE: exactly the nonzero words the table covers |
| `FlagTheorems.UncoveredWord` | spdm_emu/spdm_emu_common/spdm_emu.c:581-597 | bit 1 in a table that has only bit 0, and the zero word, do not come back |
| `FlagTheorems.ParsedWordsPrint` | spdm_emu/spdm_emu_common/spdm_emu.c:534-598 | whatever text gave a nonzero word, the printed word parses to the same word |
| `FlagText.HexDenotes` | spdm_emu/spdm_emu_common/spdm_emu.c:595-597 | the hexadecimal rest is 0x and eight digits that read in base 16 as the number with exactly the remaining bits |
| `FlagText.PrintedExactlyWhen` | spdm_emu/spdm_emu_common/spdm_emu.c:587-594 | an entry is printed exactly when it has bits and the word has all of them |
| `FlagText.PrintedConcat` | spdm_emu/spdm_emu_common/spdm_emu.c:587-594 | entries are judged one by one and printed in table order |
| `FlagText.PrintedText` | spdm_emu/spdm_emu_common/spdm_emu.c:573-598 | the text of a nonzero word: the names and, exactly for the bits no entry covers, one number, with one comma between any two |
| `FlagText.TokensOfToken` | spdm_emu/spdm_emu_common/spdm_emu.c:553-563 | a text without commas is one token |
| `FlagText.TokensConcat` | spdm_emu/spdm_emu_common/spdm_emu.c:553-563 | a comma separates: the tokens of both sides in order |
| `FlagText.LookupExactlyWhen` | spdm_emu/spdm_emu_common/spdm_emu.c:519-532 | a name denotes the value of its first row, and is unknown exactly when no row has it |
| `FlagText.FailsAtFirstUnknown` | spdm_emu/spdm_emu_common/spdm_emu.c:554-563 | a failed parse has exactly the bits granted by the tokens before the first unknown one |
| `PlatformFrames.WireIsBigEndian` | spdm_emu/spdm_emu_common/command.c:49-59 | a 32-bit field goes out most significant byte first, and reading and writing it are inverse |
| `PlatformFrames.SwapTwice` | spdm_emu/spdm_emu_common/command.c:81-85 | the double swap for logging cancels |
| `PlatformFrames.FrameReceived` | spdm_emu/spdm_emu_common/command.c:192-215 | a frame that fits is received whole and nothing after it is touched |
| `PlatformFrames.ReceivedIsFrame` | spdm_emu/spdm_emu_common/command.c:192-215 | what was received is the frame the stream started with |
| `PlatformFrames.ReceivedExactlyWhen` | spdm_emu/spdm_emu_common/command.c:192-215 | a message is received exactly when the stream starts with the frame of one that fits |
| `PlatformFrames.FrameLayout` | spdm_emu/spdm_emu_common/command.c:284-314 | on the wire: command at 0, transport at 4 and length at 8, most significant byte first, payload from 12 on |
| `PlatformFrames.RejectedHeader` | spdm_emu/spdm_emu_common/command.c:192-215 | a header for another transport is consumed without its length, one that announces too much with it and without payload |
| `PlatformFrames.CutFrame` | spdm_emu/spdm_emu_common/command.c:26-47 | a frame that fits but is cut anywhere fails and leaves nothing in the stream |
| `PlatformFrames.CompleteMeaning` | spdm_emu/spdm_emu_common/command.c:70-105 | the number of messages counted as complete is the largest such that they all fit and their frames lie in the given bytes |
| `PlatformFrames.CutStream` | spdm_emu/spdm_emu_common/command.c:192-215 | wherever the stream of frames breaks off, the receiver gets in order exactly the messages before the first that does not fit whose frames arrived whole |
| `PlatformSocket.Socket.Recv` | spdm_emu/spdm_emu_common/command.c:35-46 | recv: a nonempty piece of any size while anything arrives, stored at the offset |
| `PlatformSocket.Socket.Send` | spdm_emu/spdm_emu_common/command.c:230-243 | send: a nonempty piece of any size while the connection lives |
| `PlatformSocket.ReadBytes` | spdm_emu/spdm_emu_common/command.c:26-47 | for every fragmentation the loop reads exactly the next bytes of the stream, or all that are left and fails |
| `PlatformSocket.ReadData32` | spdm_emu/spdm_emu_common/command.c:49-59 | reads a big-endian 32-bit field |
| `PlatformSocket.ReadMultipleBytes` | spdm_emu/spdm_emu_common/command.c:70-105 | reads a length and that many bytes; fails exactly when the stream is too short or the length exceeds the buffer, which then stays unread |
| `PlatformSocket.ReceivePlatformMessage` | spdm_emu/spdm_emu_common/command.c:107-215 | command, transport type and payload are those of the frame; the rest of stream and buffer is untouched |
| `PlatformSocket.WriteBytes` | spdm_emu/spdm_emu_common/command.c:222-245 | for every fragmentation the loop sends the bytes in order, or as many as the connection takes |
| `PlatformSocket.WriteMultipleBytes` | spdm_emu/spdm_emu_common/command.c:259-282 | sends length and bytes |
| `PlatformSocket.SendPlatformData` | spdm_emu/spdm_emu_common/command.c:284-314 | sends exactly the frame, with the payload length narrowed to 32 bits |
| `PlatformSocket.SendAll` | spdm_emu/spdm_emu_common/command.c:284-314 | sends the frames of all messages, or the part of them the connection takes |
| `PlatformSocket.ReceiveMany` | spdm_emu/spdm_emu_common/command.c:192-215 | receives until the first failure exactly the messages of the stream |
| `PlatformSocket.Exchange` | spdm_emu/spdm_emu_common/command.c:26-314 | for all messages, every fragmentation on both sides and every point at which the connection breaks, the receiver obtains in order exactly the messages before the first that exceeds its buffer whose frames passed whole; all of them if none does and it does not break |
| `DoeDiscovery.Unpacked` | library/pci_doe_responder_lib/pci_doe_dispatch.c:46-53 | vendor, type and next index are recovered from the reply word |
| `DoeDiscovery.PciDoeDiscovery` | library/pci_doe_requester_lib/pci_doe_req_discovery.c:47-107 | the loop ends against any responder with the status and entries of the recursive description, and leaves the rest of the array untouched |
| `DoeDiscovery.GetDiscoveryResponse` | library/pci_doe_responder_lib/pci_doe_dispatch.c:44-53 | the responder writes only the reply word, and fails exactly for an index outside the table |
| `DoeDiscovery.DiscoveredExactlyWhen` | library/pci_doe_requester_lib/pci_doe_req_discovery.c:58-107 | discovery succeeds with a list exactly when the replies form a chain of those entries, each naming the next index and the last naming 0, that fits the array |
| `DoeDiscovery.CheckedExactlyWhen` | library/pci_doe_requester_lib/pci_doe_req_discovery.c:69-92 | exactly the replies of three words with vendor 1, type 0 and next index 0 or one more pass, and lost and missized replies have their own status |
| `DoeDiscovery.StopsAtFirstBad` | library/pci_doe_requester_lib/pci_doe_req_discovery.c:58-107 | otherwise discovery stops at the first reply that is no link, with its status, or at the end of the array; the entries before stay stored |
| `DoeDiscovery.TableDiscovered` | library/pci_doe_responder_lib/pci_doe_dispatch.c:31-61 | for every nonempty table: an array that is large enough receives in order the entries an 8-bit index reaches; a smaller one is filled and an invalid size reported |
| `DoeDiscovery.WholeTableDiscovered` | library/pci_doe_responder_lib/pci_doe_dispatch.c:13-17 | up to 256 entries that is the whole table |
| `MeasurementParser.ParseMeasurement` | spdm_emu/spdm_device_verifier_tool/SpdmMeasurement.py:59-79 | the loop ends on every input with the evidences of the recursive description, or its exception |
| `MeasurementParser.FirstBlock` | spdm_emu/spdm_device_verifier_tool/SpdmMeasurement.py:62-79 | for every block and everything after it: what the parser makes of the block, including values too short for the eight bytes it reads |
| `MeasurementParser.RaisesExactlyWhen` | spdm_emu/spdm_device_verifier_tool/SpdmMeasurement.py:62-77 | the parser raises exactly when the last block has an empty value, or a 0x87 block has fewer than eight bytes from its value to the end of the record |
| `MeasurementParser.RecordParsed` | spdm_emu/spdm_device_verifier_tool/SpdmMeasurement.py:59-79 | for every record: the parser yields in order one digest per digest block, one version number per 0x87 block and nothing for other raw blocks exactly when every 0x87 block has eight bytes and the last block has a value |
| `MeasurementParser.ShortVersionNumber` | spdm_emu/spdm_device_verifier_tool/SpdmMeasurement.py:73-77 | a shorter 0x87 block takes the missing bytes from the block after it, and raises as the last block |
| `MeasurementParser.BlockLayout` | spdm_emu/spdm_device_verifier_tool/SpdmMeasurement.py:28-41 | the seven bytes before a value: index, specification, size in two bytes, kind, value size in two bytes |
| `MeasurementParser.MeaningExactlyWhen` | spdm_emu/spdm_device_verifier_tool/SpdmMeasurement.py:64-77 | by bit 7 of the kind: clear means a digest of the whole value; set means a version number for kind 7 with eight bytes, least significant first, and nothing for the rest |
| `MeasurementParser.CutDigest` | spdm_emu/spdm_device_verifier_tool/SpdmMeasurement.py:64-71 | a record that ends inside the value of its last digest gives the part that is there |
| `MeasurementParser.FiveMisread` | spdm_emu/spdm_device_verifier_tool/SpdmMeasurement.py:73-77 | for instance 5 written in one byte is read as 5 plus 256 times the block after it |
| `MeasurementCollection.GetMeasurement` | spdm_emu/spdm_device_attester_sample/spdm_device_attester_measurement.c:30-102 | a record obtained by asking for all at once is returned; otherwise the one-by-one collection decides |
| `MeasurementCollection.GetOneByOne` | spdm_emu/spdm_device_attester_sample/spdm_device_attester_measurement.c:44-102 | the loop over the indices ends with the status, record and requests of the recursive description, and writes only the record into the buffer |
| `MeasurementCollection.Collected` | spdm_emu/spdm_device_attester_sample/spdm_device_attester_measurement.c:58-98 | for every set of answers, every reported count and every buffer: the status, the records received, the record stored and the requests made, also when an answer does not fit |
| `MeasurementHistory.AnyDevice` | spdm_emu/spdm_device_attester_sample/spdm_device_attester_measurement.c:44-102 | for any device: request i asks for index i + 1, signed exactly if configured or only one record is missing; the loop goes on exactly while records are missing, all have fitted and index 0xFE is not passed; the status and the stored record follow from the answers |
| `MeasurementCollection.OneByOne` | spdm_emu/spdm_device_attester_sample/spdm_device_attester_measurement.c:58-102 | if the device answers on as many indices as it reports, the result is its records in ascending index order exactly when they leave a byte of the buffer free; otherwise the buffer is too small |
| `MeasurementCollection.RequestSigned` | spdm_emu/spdm_device_attester_sample/spdm_device_attester_measurement.c:66-72 | whatever the outcome, request k of a collection goes to index k and carries the signature bit exactly when all records but one have been received, or the configured attribute has it |
| `MeasurementCollection.SignedLastOnlyExactlyWhen` | spdm_emu/spdm_device_attester_sample/spdm_device_attester_measurement.c:66-72 | in a successful collection only the last request asks for a signature exactly when the largest index answered is 1, or follows another and the configured attribute does not ask for signatures |
| `MeasurementCollection.TwoSignedRequests` | spdm_emu/spdm_device_attester_sample/spdm_device_attester_measurement.c:66-72 | a device that answers on 1 and 3 is asked for a signature twice |
| `MeasurementFlow.EvidenceOfDevice` | spdm_emu/spdm_device_verifier_tool/readme.md:134-140 | from the device to the evidence file: blocks that fit are collected, and parsed to their meanings in index order exactly when every 0x87 block has eight bytes and the last block has a value |

## Left out

- Session cryptography, transport encoding and vendor message wrapping of libspdm: the channel hands over payloads unchanged, and what the SPDM layer says of a session is part of the request.
- Header constants of libspdm are not part of the repository: feature bits are distinct single bits in the layout of CXL 3.1, the unlocked state is the value of zeroed memory, and sizes follow the packed structures.
- TSP and TDISP message decoding: a request arrives as its opcode and fields with a flag that says whether its size was right; a message shorter than a header is not modelled.
- Response bytes on the no-session and no-privilege paths of the TSP handlers: only that the state does not change.
- TE state changes of memory: the device function is a stub.
- TransferTheorems.LoopEnds: the condition on the peer is sufficient; whether a peer that does send empty portions stops doing so is up to the peer alone.
- CxlTspDevice.TspTarget: the fixed arrays of the context are sequences of fixed length, reassigned where the code writes one element.
- TdispReport.EncodeParsed: about a walk that stops at the end of the received bytes, where the code reads on.
- TdispReportFlow.WalkRanges: stops at the end of the received bytes, where the code reads on.
- TdispReportFlow.WalkReport: stops with no result at the end of the received bytes, where the code reads on; for every encoded report the two agree.
- TdispReportFlow.LoadReport: starts from parsed JSON values; parsing and the environment variable are outside.
- CorimTool.TranslateEntry: a key with the word tagged in it is split once, at its last separator, into base and tag; white space and several occurrences are not modelled.
- CorimTool.DecodeList: a tag inside a list is a failure, since it has no JSON form; byte strings, which no translated manifest holds, are outside.
- CorimTool.DecodeMember: a comid tag around a list or dict is a failure; the translator puts such tags only around scalars.
- CorimTool.Decoder: byte-level CBOR, COSE signing, the payload of cose_sign1, map keys that are not integers and byte strings are outside.
- CorimTables.LogicMap: the entry linked_tag_map, which no decoded name reaches.
- CorimSample.SampleDecodes: strings of the sample are arbitrary ones; the number of triples too.
- Flags.Word: a 32-bit word is the set of its one bits, and union, difference and inclusion stand for the operators the code uses; allocation failure is not modelled.
- DoeDiscovery.TableDiscovered: from index 127 on the C shift into the sign bit is undefined; the model takes the usual two's-complement result, so for tables of up to 128 entries nothing depends on it.
- PlatformSocket.Socket.Send: a result of zero for a nonempty buffer, on which the loop would try again.
- PlatformSocket.Socket: a connection that has failed stays failed; socket set-up and packet capture files are outside.
- PlatformSocket.Exchange: the host stores integers little-endian.
- MeasurementCollection.GetMeasurement: what a failed request for all records leaves in the buffer; libspdm decides it.
- MeasurementParser: the hash algorithm is a number given by the caller; hexadecimal rendering and the JSON file; the structure is read with the natural alignment of ctypes.
- MeasurementFlow.EvidenceOfDevice: the collected record reaches the tool through a file, which is taken to hold it unchanged.
- IDE_KM for PCI and CXL, PLDM, MCTP, the NONE transport, capability getters and echo handlers: copies of single messages, which would only add easy members.
- nv_storage.c: field copies through libspdm data that is not part of the repository.
- spdm_requester_measurement.c: the attester's version of the same collection is modelled instead.
