/**
 * The life of a DEVICE_INTERFACE_REPORT: serialised by the device into its buffer, sent in
 * portions, reassembled and walked by the requester.
 */
module TdispReportFlow {
  import opened Words
  import opened SegmentedTransfer
  import opened TransferTheorems
  import opened TdispReport

  const MAX_MMIO_RANGES := 4
  const REPORT_MAX_SIZE := 0x1000

  // ----- The device side -----

  /** The four header values read from JSON; they are cast down when stored. */
  datatype HeaderFields = HeaderFields(interfaceInfo: uint64, msixControl: uint64, lnrControl: uint64, tphControl: uint64)

  datatype RangeFields = RangeFields(firstPage: uint64, numberOfPages: uint64, attributes: uint64, id: uint64)

  /** A parsed JSON report; None where a member is missing or not an unsigned integer. */
  datatype JsonReport = JsonReport(header: Option<HeaderFields>, ranges: seq<Option<RangeFields>>, info: seq<byte>)

  function StoredRange(r: RangeFields): MmioRange {
    MmioRange(r.firstPage, r.numberOfPages % 0x1_0000_0000, r.attributes % 0x1_0000, r.id % 0x1_0000)
  }

  predicate AllPresent(ranges: seq<Option<RangeFields>>) {
    forall i :: 0 <= i < |ranges| ==> ranges[i].Some?
  }

  function StoredRanges(ranges: seq<Option<RangeFields>>): (s: seq<MmioRange>)
    requires AllPresent(ranges)
    ensures |s| == |ranges|
  {
    if ranges == [] then [] else
    StoredRanges(ranges[..|ranges| - 1]) + [StoredRange(ranges[|ranges| - 1].value)]
  }

  predicate Complete(json: JsonReport) {
    json.header.Some? && AllPresent(json.ranges)
  }

  /** The report a complete JSON file describes, with every value cast to the width of its field. */
  function Described(json: JsonReport): Report
    requires Complete(json)
  {
    var h := json.header.value;
    Report(h.interfaceInfo % 0x1_0000, 0, h.msixControl % 0x1_0000, h.lnrControl % 0x1_0000,
           h.tphControl % 0x1_0000_0000, StoredRanges(json.ranges), json.info[..|json.info| % 0x1_0000_0000])
  }

  function TotalSize(json: JsonReport): nat {
    HEADER_SIZE + |json.ranges| * RANGE_SIZE + 4 + |json.info| % 0x1_0000_0000
  }

  predicate Loadable(json: JsonReport, capacity: nat) {
    Complete(json) && |json.ranges| <= MAX_MMIO_RANGES && TotalSize(json) <= capacity
  }

  function Zeros(n: nat): seq<byte> {
    seq(n, _ => 0)
  }

  lemma {:induction false} EncodeRangesAppend(ranges: seq<MmioRange>, r: MmioRange)
    ensures EncodeRanges(ranges + [r]) == EncodeRanges(ranges) + EncodeRange(r)
  {
    if ranges == [] {
      assert ranges + [r] == [r];
      assert [r][1..] == [];
    } else {
      EncodeRangesAppend(ranges[1..], r);
      assert (ranges + [r])[1..] == ranges[1..] + [r];
      Assoc(EncodeRange(ranges[0]), EncodeRanges(ranges[1..]), EncodeRange(r));
    }
  }

  /** Appends bytes at the write position of a buffer that is zero from there on. */
  method Append(buffer: array<byte>, at: nat, data: seq<byte>, ghost done: seq<byte>)
    requires Holds(buffer[..], Zeros(buffer.Length), done) && at == |done| && at + |data| <= buffer.Length
    modifies buffer
    ensures Holds(buffer[..], Zeros(buffer.Length), done + data)
  {
    OverwriteExtends(buffer[..], Zeros(buffer.Length), done, data);
    Store(buffer, at, data);
  }

  function StoredHeader(h: HeaderFields, rangeCount: nat): (s: seq<byte>)
    ensures |s| == HEADER_SIZE
  {
    LittleEndian(h.interfaceInfo % 0x1_0000, 2) + LittleEndian(0, 2)
    + LittleEndian(h.msixControl % 0x1_0000, 2) + LittleEndian(h.lnrControl % 0x1_0000, 2)
    + LittleEndian(h.tphControl % 0x1_0000_0000, 4) + LittleEndian(rangeCount, 4)
  }

  /** How many ranges come before the first incomplete one. */
  function PresentCount(ranges: seq<Option<RangeFields>>): (n: nat)
    ensures n <= |ranges| && AllPresent(ranges[..n]) && (n < |ranges| ==> ranges[n].None?)
  {
    if ranges == [] || ranges[0].None? then 0
    else
      var n := 1 + PresentCount(ranges[1..]);
      assert forall i :: 1 <= i < n ==> ranges[..n][i] == ranges[1..][..n - 1][i - 1];
      n
  }

  /** The bytes of the ranges before the first incomplete one. */
  function PresentBytes(ranges: seq<Option<RangeFields>>): seq<byte> {
    EncodeRanges(StoredRanges(ranges[..PresentCount(ranges)]))
  }

  lemma FirstIncomplete(ranges: seq<Option<RangeFields>>, index: nat)
    requires index <= |ranges| && AllPresent(ranges[..index]) && (index < |ranges| ==> ranges[index].None?)
    ensures PresentCount(ranges) == index
  {
    var n := PresentCount(ranges);
    assert forall i :: 0 <= i < index ==> ranges[..index][i] == ranges[i];
    assert forall i :: 0 <= i < n ==> ranges[..n][i] == ranges[i];
  }

  /** The loop over the ranges: stops at the first one that is incomplete. */
  method AppendRanges(buffer: array<byte>, ranges: seq<Option<RangeFields>>, start: nat, ghost done: seq<byte>)
    returns (ok: bool)
    requires Holds(buffer[..], Zeros(buffer.Length), done) && start == |done|
    requires start + |ranges| * RANGE_SIZE <= buffer.Length
    modifies buffer
    ensures ok <==> AllPresent(ranges)
    ensures Holds(buffer[..], Zeros(buffer.Length), done + PresentBytes(ranges))
  {
    assert done + EncodeRanges([]) == done;
    var pointer := start;
    for index := 0 to |ranges|
      invariant AllPresent(ranges[..index]) && pointer == start + index * RANGE_SIZE
      invariant Holds(buffer[..], Zeros(buffer.Length), done + EncodeRanges(StoredRanges(ranges[..index])))
    {
      if ranges[index].None? {
        FirstIncomplete(ranges, index);
        return false;
      }
      ghost var stored := StoredRanges(ranges[..index]);
      var range := StoredRange(ranges[index].value);
      Append(buffer, pointer, EncodeRange(range), done + EncodeRanges(stored));
      assert ranges[..index + 1][..index] == ranges[..index];
      EncodeRangesAppend(stored, range);
      Assoc(done, EncodeRanges(stored), EncodeRange(range));
      pointer := pointer + RANGE_SIZE;
    }
    assert ranges[..|ranges|] == ranges;
    FirstIncomplete(ranges, |ranges|);
    ok := true;
  }

  method Clear(buffer: array<byte>)
    modifies buffer
    ensures Holds(buffer[..], Zeros(buffer.Length), [])
  {
    forall i | 0 <= i < buffer.Length {
      buffer[i] := 0;
    }
  }

  /** The length of the info and the info itself. */
  method AppendInfo(buffer: array<byte>, info: seq<byte>, start: nat, ghost done: seq<byte>)
    requires Holds(buffer[..], Zeros(buffer.Length), done) && start == |done|
    requires start + 4 + |info| <= buffer.Length
    modifies buffer
    ensures Holds(buffer[..], Zeros(buffer.Length), done + LittleEndian(|info|, 4) + info)
  {
    Append(buffer, start, LittleEndian(|info|, 4), done);
    Append(buffer, start + 4, info, done + LittleEndian(|info|, 4));
  }

  lemma EncodeDescribed(json: JsonReport)
    requires Complete(json)
    ensures Encode(Described(json)) ==
            StoredHeader(json.header.value, |json.ranges|) + EncodeRanges(StoredRanges(json.ranges))
            + LittleEndian(|json.info| % 0x1_0000_0000, 4) + json.info[..|json.info| % 0x1_0000_0000]
  {
  }

  /** What is in the buffer in the end: the report, or its parts before the first incomplete one. */
  function Written(json: JsonReport): seq<byte> {
    if json.header.None? then []
    else if !AllPresent(json.ranges) then StoredHeader(json.header.value, |json.ranges|) + PresentBytes(json.ranges)
    else Encode(Described(json))
  }

  lemma AllBytesPresent(ranges: seq<Option<RangeFields>>)
    requires AllPresent(ranges)
    ensures PresentBytes(ranges) == EncodeRanges(StoredRanges(ranges))
  {
    FirstIncomplete(ranges, |ranges|);
    assert ranges[..|ranges|] == ranges;
  }

  /** Writes the parts one after the other, giving up at the first incomplete one. */
  method StoreReport(json: JsonReport, buffer: array<byte>) returns (ok: bool)
    requires TotalSize(json) <= buffer.Length
    modifies buffer
    ensures ok <==> Complete(json)
    ensures Holds(buffer[..], Zeros(buffer.Length), Written(json))
  {
    Clear(buffer);
    if json.header.None? {
      return false;
    }
    var header := StoredHeader(json.header.value, |json.ranges|);
    Append(buffer, 0, header, []);
    assert [] + header == header;
    ok := AppendRanges(buffer, json.ranges, HEADER_SIZE, header);
    if ok {
      AllBytesPresent(json.ranges);
      var info := json.info[..|json.info| % 0x1_0000_0000];
      AppendInfo(buffer, info, HEADER_SIZE + |json.ranges| * RANGE_SIZE,
                 header + EncodeRanges(StoredRanges(json.ranges)));
      EncodeDescribed(json);
    }
  }

  /** The serialiser: succeeds exactly on loadable reports, and then the buffer starts with their encoding. */
  method LoadReport(json: JsonReport, buffer: array<byte>) returns (ok: bool, size: uint16)
    requires buffer.Length < 0x1_0000
    modifies buffer
    ensures ok <==> Loadable(json, buffer.Length)
    ensures ok ==> size == TotalSize(json) && Holds(buffer[..], Zeros(buffer.Length), Encode(Described(json)))
    ensures if |json.ranges| > MAX_MMIO_RANGES || TotalSize(json) > buffer.Length then buffer[..] == old(buffer[..])
            else Holds(buffer[..], Zeros(buffer.Length), Written(json))
  {
    if |json.ranges| > MAX_MMIO_RANGES {
      return false, 0;
    }
    var total := TotalSize(json);
    if total > buffer.Length {
      return false, 0;
    }
    assert total % 0x1_0000 == total;
    ok := StoreReport(json, buffer);
    size := if ok then total % 0x1_0000 else 0;
  }

  // ----- The requester side -----

  function Prepend(done: seq<MmioRange>, rest: Option<(seq<MmioRange>, seq<byte>)>): Option<(seq<MmioRange>, seq<byte>)> {
    match rest
    case None => None
    case Some((ranges, tail)) => Some((done + ranges, tail))
  }

  /** The loop over `count` ranges from a position on. */
  method WalkRanges(b: seq<byte>, start: nat, count: nat) returns (r: Option<(seq<MmioRange>, nat)>)
    requires start <= |b|
    ensures r.None? <==> ParseRanges(b[start..], count).None?
    ensures r.Some? ==> r.value.1 <= |b| && ParseRanges(b[start..], count) == Some((r.value.0, b[r.value.1..]))
  {
    ghost var whole := ParseRanges(b[start..], count);
    var ranges: seq<MmioRange> := [];
    var position, index := start, 0;
    if whole.Some? {
      assert [] + whole.value.0 == whole.value.0;
    }
    while index < count
      invariant 0 <= index <= count && start <= position <= |b|
      invariant whole == Prepend(ranges, ParseRanges(b[position..], count - index))
    {
      if |b| - position < RANGE_SIZE {
        return None;
      }
      var range := RangeOf(b[position..position + RANGE_SIZE]);
      assert b[position..][..RANGE_SIZE] == b[position..position + RANGE_SIZE];
      assert b[position..][RANGE_SIZE..] == b[position + RANGE_SIZE..];
      PrependOne(ranges, range, ParseRanges(b[position + RANGE_SIZE..], count - index - 1));
      ranges := ranges + [range];
      position := position + RANGE_SIZE;
      index := index + 1;
    }
    assert ranges + [] == ranges;
    r := Some((ranges, position));
  }

  lemma SuffixSlice(b: seq<byte>, at: nat, low: nat, high: nat)
    requires low <= high && at + high <= |b|
    ensures b[at..][low..high] == b[at + low..at + high] && b[at..][high..] == b[at + high..]
  {
  }

  /** The requester's walk over the received bytes, as far as they go. */
  method WalkReport(b: seq<byte>) returns (r: Option<(Report, nat)>)
    ensures r.None? <==> Parse(b).None?
    ensures r.Some? ==> r.value.1 <= |b| && Parse(b) == Some((r.value.0, b[r.value.1..]))
  {
    if |b| < HEADER_SIZE {
      return None;
    }
    var h := HeaderOf(b[..HEADER_SIZE]);
    var walked := WalkRanges(b, HEADER_SIZE, h.rangeCount);
    if walked.None? {
      return None;
    }
    var (ranges, position) := walked.value;
    ghost var rest := b[position..];
    if |b| - position < 4 {
      return None;
    }
    var length: nat := Word32(b[position..position + 4]);
    assert rest[..4] == b[position..position + 4];
    position := position + 4;
    if |b| - position < length {
      return None;
    }
    SuffixSlice(b, position - 4, 4, 4 + length);
    r := Some((Report(h.interfaceInfo, h.reserved, h.msixControl, h.lnrControl, h.tphControl, ranges,
                      b[position..position + length]), position + length));
  }

  lemma PrependOne(done: seq<MmioRange>, range: MmioRange, rest: Option<(seq<MmioRange>, seq<byte>)>)
    ensures Prepend(done, Prepend([range], rest)) == Prepend(done + [range], rest)
  {
    if rest.Some? {
      Assoc(done, [range], rest.value.0);
    }
  }

  // ----- What becomes of the JSON values -----

  /** A value stored in a field that holds the numbers below `limit`: unchanged if it fits, its low bits if not. */
  predicate Carries(stored: nat, value: nat, limit: nat)
    requires limit > 0
  {
    stored == if value < limit then value else value % limit
  }

  predicate RangeCarried(range: MmioRange, json: RangeFields) {
    && range.firstPage == json.firstPage
    && Carries(range.numberOfPages, json.numberOfPages, 0x1_0000_0000)
    && Carries(range.attributes, json.attributes, 0x1_0000)
    && Carries(range.id, json.id, 0x1_0000)
  }

  predicate HeaderCarried(report: Report, json: HeaderFields) {
    && Carries(report.interfaceInfo, json.interfaceInfo, 0x1_0000)
    && report.reserved == 0
    && Carries(report.msixControl, json.msixControl, 0x1_0000)
    && Carries(report.lnrControl, json.lnrControl, 0x1_0000)
    && Carries(report.tphControl, json.tphControl, 0x1_0000_0000)
  }

  /** The report carries every value of the JSON file. */
  predicate Recovers(report: Report, json: JsonReport)
    requires Complete(json)
  {
    && HeaderCarried(report, json.header.value)
    && |report.ranges| == |json.ranges|
    && (forall i :: 0 <= i < |json.ranges| ==> RangeCarried(report.ranges[i], json.ranges[i].value))
    && report.info <= json.info && Carries(|report.info|, |json.info|, 0x1_0000_0000)
  }

  lemma {:induction false} StoredRangeCarried(ranges: seq<Option<RangeFields>>, i: nat)
    requires AllPresent(ranges) && i < |ranges|
    ensures RangeCarried(StoredRanges(ranges)[i], ranges[i].value)
  {
    var last := |ranges| - 1;
    if i < last {
      StoredRangeCarried(ranges[..last], i);
    }
  }

  lemma DescribedRecovers(json: JsonReport)
    requires Complete(json)
    ensures Recovers(Described(json), json)
  {
    forall i | 0 <= i < |json.ranges|
      ensures RangeCarried(Described(json).ranges[i], json.ranges[i].value)
    {
      StoredRangeCarried(json.ranges, i);
    }
  }

  // ----- End to end -----

  /**
   * From JSON values on the device to fields at the requester: a loadable report arrives complete,
   * every JSON value in its own field, and the walk ends exactly at the announced size.
   */
  method DeliverReport(json: JsonReport, limit: nat) returns (walked: Option<(Report, nat)>)
    requires limit >= REPORT_MAX_SIZE
    ensures Loadable(json, REPORT_MAX_SIZE) ==>
              walked == Some((Described(json), |Encode(Described(json))|))
    ensures Loadable(json, REPORT_MAX_SIZE) ==>
              walked.Some? && Recovers(walked.value.0, json) && walked.value.1 == TotalSize(json)
    ensures !Loadable(json, REPORT_MAX_SIZE) ==> walked.None?
  {
    var device := new byte[REPORT_MAX_SIZE];
    var ok, size := LoadReport(json, device);
    if !ok {
      return None;
    }
    var report := device[..size];
    assert report == Encode(Described(json));
    var buffer := new byte[REPORT_MAX_SIZE];
    ghost var before := buffer[..];
    var status, received := FetchReport(TDISP_PORTION, buffer, Responder(report, TDISP_PORTION), limit);
    RoundsBound(|report|, TDISP_PORTION);
    TransferRefinesCopy(report, TDISP_PORTION, limit, before);
    walked := WalkReport(buffer[..received]);
    assert buffer[..received] == report + [];
    ParseEncoded(Described(json), []);
    DescribedRecovers(json);
  }

  lemma {:induction false} RoundsBound(n: nat, p: nat)
    requires p > 0
    ensures Rounds(n, p) <= n
  {
    if n > p {
      RoundsBound(n - p, p);
    }
  }
}
