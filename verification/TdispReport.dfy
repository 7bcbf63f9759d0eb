/**
 * The TDISP DEVICE_INTERFACE_REPORT: its byte layout, and how the requester walks the bytes it
 * received.
 */
module TdispReport {
  import opened Words

  const HEADER_SIZE := 16
  const RANGE_SIZE := 16

  datatype MmioRange = MmioRange(firstPage: uint64, numberOfPages: uint32, attributes: uint16, id: uint16)

  datatype Report = Report(interfaceInfo: uint16, reserved: uint16, msixControl: uint16, lnrControl: uint16,
                           tphControl: uint32, ranges: seq<MmioRange>, info: seq<byte>)

  function EncodeRange(r: MmioRange): (s: seq<byte>)
    ensures |s| == RANGE_SIZE
  {
    LittleEndian(r.firstPage, 8) + LittleEndian(r.numberOfPages, 4) + LittleEndian(r.attributes, 2) + LittleEndian(r.id, 2)
  }

  function EncodeRanges(ranges: seq<MmioRange>): (s: seq<byte>)
    ensures |s| == RANGE_SIZE * |ranges|
  {
    if ranges == [] then [] else EncodeRange(ranges[0]) + EncodeRanges(ranges[1..])
  }

  function EncodeHeader(r: Report): (s: seq<byte>)
    ensures |s| == HEADER_SIZE
  {
    LittleEndian(r.interfaceInfo, 2) + LittleEndian(r.reserved, 2) + LittleEndian(r.msixControl, 2)
    + LittleEndian(r.lnrControl, 2) + LittleEndian(r.tphControl, 4) + LittleEndian(|r.ranges|, 4)
  }

  /** The byte layout: header, ranges, length of the device-specific info, info. */
  function Encode(r: Report): (s: seq<byte>)
    ensures |s| == HEADER_SIZE + RANGE_SIZE * |r.ranges| + 4 + |r.info|
  {
    EncodeHeader(r) + EncodeRanges(r.ranges) + LittleEndian(|r.info|, 4) + r.info
  }

  /** Both counts fit their 32-bit fields. */
  predicate Countable(r: Report) {
    |r.ranges| < 0x1_0000_0000 && |r.info| < 0x1_0000_0000
  }

  // ----- Where each field is -----

  /** The value n stands at an offset, least significant byte first. */
  predicate Placed(s: seq<byte>, offset: nat, n: nat, width: nat)
    requires offset + width <= |s|
  {
    forall i :: 0 <= i < width ==> s[offset + i] == Digit(n, i)
  }

  /** The sixteen bytes of a range. */
  predicate RangePlaced(s: seq<byte>, offset: nat, r: MmioRange)
    requires offset + 16 <= |s|
  {
    && Placed(s, offset, r.firstPage, 8) && Placed(s, offset + 8, r.numberOfPages, 4)
    && Placed(s, offset + 12, r.attributes, 2) && Placed(s, offset + 14, r.id, 2)
  }

  lemma {:induction false} RangesPlaced(ranges: seq<MmioRange>, k: nat)
    requires k < |ranges|
    ensures RangePlaced(EncodeRanges(ranges), 16 * k, ranges[k])
  {
    if k > 0 {
      var s, rest := EncodeRanges(ranges), EncodeRanges(ranges[1..]);
      RangesPlaced(ranges[1..], k - 1);
      assert s[16..] == rest;
      RangeAfter(s, rest, 16 * (k - 1), ranges[k]);
    }
  }

  lemma PlacedAfter(s: seq<byte>, rest: seq<byte>, offset: nat, n: nat, width: nat)
    requires |s| >= 16 && s[16..] == rest && offset + width <= |rest| && Placed(rest, offset, n, width)
    ensures Placed(s, 16 + offset, n, width)
  {
    forall i | 0 <= i < width
      ensures s[16 + offset + i] == Digit(n, i)
    {
      assert rest[offset + i] == Digit(n, i);
    }
  }

  /** The layout by offsets: the header fields, each range, the length of the info, the info. */
  lemma HeaderLayout(r: Report)
    ensures var s := Encode(r);
            && Placed(s, 0, r.interfaceInfo, 2) && Placed(s, 2, r.reserved, 2) && Placed(s, 4, r.msixControl, 2)
            && Placed(s, 6, r.lnrControl, 2) && Placed(s, 8, r.tphControl, 4) && Placed(s, 12, |r.ranges|, 4)
  {
    var h := EncodeHeader(r);
    assert Placed(h, 0, r.interfaceInfo, 2) && Placed(h, 2, r.reserved, 2) && Placed(h, 4, r.msixControl, 2);
    assert Placed(h, 6, r.lnrControl, 2) && Placed(h, 8, r.tphControl, 4) && Placed(h, 12, |r.ranges|, 4);
    assert Encode(r)[..16] == h;
  }

  lemma BodyLayout(r: Report)
    ensures var s, n := Encode(r), |r.ranges|;
            && (forall k :: 0 <= k < n ==> RangePlaced(s, 16 + 16 * k, r.ranges[k]))
            && Placed(s, 16 + 16 * n, |r.info|, 4) && s[20 + 16 * n..] == r.info
  {
    var s, body := Encode(r), EncodeRanges(r.ranges);
    assert body <= s[16..];
    forall k | 0 <= k < |r.ranges|
      ensures RangePlaced(s, 16 + 16 * k, r.ranges[k])
    {
      RangesPlaced(r.ranges, k);
      RangeInFront(s[16..], body, 16 * k, r.ranges[k]);
      RangeAfter(s, s[16..], 16 * k, r.ranges[k]);
    }
  }

  lemma RangeAfter(s: seq<byte>, rest: seq<byte>, offset: nat, r: MmioRange)
    requires |s| >= 16 && s[16..] == rest && offset + 16 <= |rest| && RangePlaced(rest, offset, r)
    ensures RangePlaced(s, 16 + offset, r)
  {
    PlacedAfter(s, rest, offset, r.firstPage, 8);
    PlacedAfter(s, rest, offset + 8, r.numberOfPages, 4);
    PlacedAfter(s, rest, offset + 12, r.attributes, 2);
    PlacedAfter(s, rest, offset + 14, r.id, 2);
  }

  lemma RangeInFront(s: seq<byte>, front: seq<byte>, offset: nat, r: MmioRange)
    requires front <= s && offset + 16 <= |front| && RangePlaced(front, offset, r)
    ensures RangePlaced(s, offset, r)
  {
  }

  // ----- What the walk reads -----

  lemma RadixValues()
    ensures Radix(2) == 0x1_0000 && Radix(4) == 0x1_0000_0000 && Radix(8) == 0x1_0000_0000_0000_0000
  {
    assert Radix(1) == 256 && Radix(2) == 256 * Radix(1) && Radix(3) == 256 * Radix(2) && Radix(4) == 256 * Radix(3);
    assert Radix(5) == 256 * Radix(4) && Radix(6) == 256 * Radix(5) && Radix(7) == 256 * Radix(6) && Radix(8) == 256 * Radix(7);
  }

  function Word16(s: seq<byte>): uint16
    requires |s| == 2
  {
    RadixValues();
    FromLittleEndianBound(s);
    FromLittleEndian(s)
  }

  function Word32(s: seq<byte>): uint32
    requires |s| == 4
  {
    RadixValues();
    FromLittleEndianBound(s);
    FromLittleEndian(s)
  }

  function Word64(s: seq<byte>): uint64
    requires |s| == 8
  {
    RadixValues();
    FromLittleEndianBound(s);
    FromLittleEndian(s)
  }

  lemma WordsDecode()
    ensures forall v: uint16 :: Word16(LittleEndian(v, 2)) == v
    ensures forall v: uint32 :: Word32(LittleEndian(v, 4)) == v
    ensures forall v: uint64 :: Word64(LittleEndian(v, 8)) == v
  {
    RadixValues();
    forall v: uint16 ensures Word16(LittleEndian(v, 2)) == v { DecodeEncode(v, 2); }
    forall v: uint32 ensures Word32(LittleEndian(v, 4)) == v { DecodeEncode(v, 4); }
    forall v: uint64 ensures Word64(LittleEndian(v, 8)) == v { DecodeEncode(v, 8); }
  }

  lemma WordsEncode(s: seq<byte>)
    ensures |s| == 2 ==> LittleEndian(Word16(s), 2) == s
    ensures |s| == 4 ==> LittleEndian(Word32(s), 4) == s
    ensures |s| == 8 ==> LittleEndian(Word64(s), 8) == s
  {
    EncodeDecode(s);
  }

  function RangeOf(s: seq<byte>): MmioRange
    requires |s| == RANGE_SIZE
  {
    MmioRange(Word64(s[..8]), Word32(s[8..12]), Word16(s[12..14]), Word16(s[14..]))
  }

  lemma RangeOfEncoded(r: MmioRange)
    ensures RangeOf(EncodeRange(r)) == r
  {
    var s := EncodeRange(r);
    assert s[..8] == LittleEndian(r.firstPage, 8) && s[8..12] == LittleEndian(r.numberOfPages, 4);
    assert s[12..14] == LittleEndian(r.attributes, 2) && s[14..] == LittleEndian(r.id, 2);
    WordsDecode();
  }

  lemma EncodedRangeOf(s: seq<byte>)
    requires |s| == RANGE_SIZE
    ensures EncodeRange(RangeOf(s)) == s
  {
    WordsEncode(s[..8]);
    WordsEncode(s[8..12]);
    WordsEncode(s[12..14]);
    WordsEncode(s[14..]);
  }

  datatype Header = Header(interfaceInfo: uint16, reserved: uint16, msixControl: uint16, lnrControl: uint16,
                           tphControl: uint32, rangeCount: uint32)

  function HeaderOf(s: seq<byte>): Header
    requires |s| == HEADER_SIZE
  {
    Header(Word16(s[..2]), Word16(s[2..4]), Word16(s[4..6]), Word16(s[6..8]), Word32(s[8..12]), Word32(s[12..]))
  }

  lemma HeaderOfEncoded(r: Report)
    requires Countable(r)
    ensures HeaderOf(EncodeHeader(r)) ==
            Header(r.interfaceInfo, r.reserved, r.msixControl, r.lnrControl, r.tphControl, |r.ranges|)
  {
    var s := EncodeHeader(r);
    assert s[..2] == LittleEndian(r.interfaceInfo, 2) && s[2..4] == LittleEndian(r.reserved, 2);
    assert s[4..6] == LittleEndian(r.msixControl, 2) && s[6..8] == LittleEndian(r.lnrControl, 2);
    assert s[8..12] == LittleEndian(r.tphControl, 4) && s[12..] == LittleEndian(|r.ranges|, 4);
    WordsDecode();
  }

  lemma EncodedHeaderOf(s: seq<byte>, r: Report)
    requires |s| == HEADER_SIZE && Countable(r)
    requires HeaderOf(s) == Header(r.interfaceInfo, r.reserved, r.msixControl, r.lnrControl, r.tphControl, |r.ranges|)
    ensures EncodeHeader(r) == s
  {
    WordsEncode(s[..2]);
    WordsEncode(s[2..4]);
    WordsEncode(s[4..6]);
    WordsEncode(s[6..8]);
    WordsEncode(s[8..12]);
    WordsEncode(s[12..]);
    assert s == s[..2] + s[2..4] + s[4..6] + s[6..8] + s[8..12] + s[12..];
  }

  /** `count` ranges off the front of b, and what is left; None when b is too short. */
  function ParseRanges(b: seq<byte>, count: nat): Option<(seq<MmioRange>, seq<byte>)> {
    if count == 0 then Some(([], b))
    else if |b| < RANGE_SIZE then None
    else match ParseRanges(b[RANGE_SIZE..], count - 1)
         case None => None
         case Some((ranges, rest)) => Some(([RangeOf(b[..RANGE_SIZE])] + ranges, rest))
  }

  function ParseInfo(b: seq<byte>): Option<(seq<byte>, seq<byte>)> {
    if |b| < 4 then None else
    var length := Word32(b[..4]);
    if |b| - 4 < length then None else Some((b[4..4 + length], b[4 + length..]))
  }

  /** The report a buffer starts with and the bytes after it; None when the walk leaves the buffer. */
  function Parse(b: seq<byte>): Option<(Report, seq<byte>)> {
    if |b| < HEADER_SIZE then None else
    var h := HeaderOf(b[..HEADER_SIZE]);
    match ParseRanges(b[HEADER_SIZE..], h.rangeCount)
    case None => None
    case Some((ranges, rest)) =>
      match ParseInfo(rest)
      case None => None
      case Some((info, tail)) =>
        Some((Report(h.interfaceInfo, h.reserved, h.msixControl, h.lnrControl, h.tphControl, ranges, info), tail))
  }

  lemma ParseRangesCons(first: seq<byte>, rest: seq<byte>, count: nat, ranges: seq<MmioRange>, tail: seq<byte>)
    requires |first| == RANGE_SIZE && ParseRanges(rest, count) == Some((ranges, tail))
    ensures ParseRanges(first + rest, count + 1) == Some(([RangeOf(first)] + ranges, tail))
  {
    Split(first, rest);
  }

  lemma {:induction false} ParseEncodedRanges(ranges: seq<MmioRange>, tail: seq<byte>)
    ensures ParseRanges(EncodeRanges(ranges) + tail, |ranges|) == Some((ranges, tail))
  {
    if ranges == [] {
      assert EncodeRanges(ranges) + tail == tail;
    } else {
      var first, others := EncodeRange(ranges[0]), EncodeRanges(ranges[1..]);
      ParseEncodedRanges(ranges[1..], tail);
      ParseRangesCons(first, others + tail, |ranges| - 1, ranges[1..], tail);
      Assoc(first, others, tail);
      RangeOfEncoded(ranges[0]);
      assert ranges == [ranges[0]] + ranges[1..];
    }
  }

  lemma {:induction false} EncodeParsedRanges(b: seq<byte>, count: nat)
    requires ParseRanges(b, count).Some?
    ensures var (ranges, rest) := ParseRanges(b, count).value;
            |ranges| == count && b == EncodeRanges(ranges) + rest
    decreases count
  {
    if count > 0 {
      EncodeParsedRanges(b[RANGE_SIZE..], count - 1);
      EncodedRangeOf(b[..RANGE_SIZE]);
      var (ranges, rest) := ParseRanges(b, count).value;
      assert ranges[1..] == ParseRanges(b[RANGE_SIZE..], count - 1).value.0;
      assert b == b[..RANGE_SIZE] + b[RANGE_SIZE..];
    }
  }

  lemma ParseEncodedInfo(info: seq<byte>, tail: seq<byte>)
    requires |info| < 0x1_0000_0000
    ensures ParseInfo(LittleEndian(|info|, 4) + info + tail) == Some((info, tail))
  {
    var b := LittleEndian(|info|, 4) + info + tail;
    assert b[..4] == LittleEndian(|info|, 4);
    WordsDecode();
  }

  lemma EncodeParsedInfo(b: seq<byte>)
    requires ParseInfo(b).Some?
    ensures var (info, tail) := ParseInfo(b).value;
            |info| < 0x1_0000_0000 && b == LittleEndian(|info|, 4) + info + tail
  {
    WordsEncode(b[..4]);
  }

  /** The three parts of a walk, put together. */
  lemma ParseParts(header: seq<byte>, body: seq<byte>, ranges: seq<MmioRange>, rest: seq<byte>,
                   info: seq<byte>, tail: seq<byte>)
    requires |header| == HEADER_SIZE && ParseRanges(body, HeaderOf(header).rangeCount) == Some((ranges, rest))
    requires ParseInfo(rest) == Some((info, tail))
    ensures var h := HeaderOf(header);
            Parse(header + body) ==
            Some((Report(h.interfaceInfo, h.reserved, h.msixControl, h.lnrControl, h.tphControl, ranges, info), tail))
  {
    Split(header, body);
  }

  /** Walking an encoded report recovers every field and stops exactly at its end. */
  lemma ParseEncoded(r: Report, tail: seq<byte>)
    requires Countable(r)
    ensures Parse(Encode(r) + tail) == Some((r, tail))
  {
    var header, ranges, length := EncodeHeader(r), EncodeRanges(r.ranges), LittleEndian(|r.info|, 4);
    var rest := length + r.info + tail;
    HeaderOfEncoded(r);
    ParseEncodedRanges(r.ranges, rest);
    ParseEncodedInfo(r.info, tail);
    ParseParts(header, ranges + rest, r.ranges, rest, r.info, tail);
    Regroup(header, ranges, length, r.info, tail);
  }

  lemma Regroup<T>(a: seq<T>, b: seq<T>, c: seq<T>, d: seq<T>, e: seq<T>)
    ensures a + b + c + d + e == a + (b + (c + d + e))
  {
  }

  /** And only encoded reports are walked successfully. */
  lemma EncodeParsed(b: seq<byte>)
    requires Parse(b).Some?
    ensures var (r, tail) := Parse(b).value;
            Countable(r) && b == Encode(r) + tail
  {
    var (r, tail) := Parse(b).value;
    var header, body := b[..HEADER_SIZE], b[HEADER_SIZE..];
    EncodeParsedRanges(body, HeaderOf(header).rangeCount);
    var rest := ParseRanges(body, HeaderOf(header).rangeCount).value.1;
    EncodeParsedInfo(rest);
    EncodedHeaderOf(header, r);
    Regroup(header, EncodeRanges(r.ranges), LittleEndian(|r.info|, 4), r.info, tail);
  }
}
