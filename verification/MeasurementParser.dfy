/**
 * The measurement tool: evidence from a record of DMTF measurement blocks (DSP0274, clause "DMTF
 * specification for the Measurement field of a measurement block"). None stands for an exception.
 */
module MeasurementParser {
  import opened Words

  datatype Evidence =
    | Digest(index: byte, algorithm: nat, digest: seq<byte>)
    | Svn(index: byte, svn: nat)

  // ----- The parser -----

  /** Python slicing: bounds beyond the end are cut. */
  function Slice(data: seq<byte>, low: nat, high: nat): seq<byte> {
    var h := Min(high, |data|);
    if low < h then data[low..h] else []
  }

  /** measurement_size of the block at an offset. */
  function Size(data: seq<byte>, offset: nat): nat
    requires offset + 4 <= |data|
  {
    FromLittleEndian(data[offset + 2..offset + 4])
  }

  /** The evidence of the block at an offset: the fixed structure is read as eight bytes. */
  function BlockEvidence(data: seq<byte>, offset: nat, algorithm: nat): Option<seq<Evidence>> {
    if offset + 8 > |data| then None else
    var index, kind := data[offset], data[offset + 4];
    if kind < 0x80 then Some([Digest(index, algorithm, Slice(data, offset + 7, offset + 4 + Size(data, offset)))])
    else if kind != 0x87 then Some([])
    else if offset + 15 > |data| then None
    else Some([Svn(index, FromLittleEndian(data[offset + 7..offset + 15]))])
  }

  function Prepend(es: seq<Evidence>, rest: Option<seq<Evidence>>): Option<seq<Evidence>> {
    match rest case None => None case Some(more) => Some(es + more)
  }

  /** The evidences from an offset on. */
  function Parse(data: seq<byte>, offset: nat, algorithm: nat): Option<seq<Evidence>>
    decreases |data| - offset
  {
    if offset >= |data| then Some([]) else
    match BlockEvidence(data, offset, algorithm)
    case None => None
    case Some(es) => Prepend(es, Parse(data, offset + 4 + Size(data, offset), algorithm))
  }

  lemma PrependTwice(es: seq<Evidence>, more: seq<Evidence>, rest: Option<seq<Evidence>>)
    ensures Prepend([], rest) == rest
    ensures Prepend(es, Prepend(more, rest)) == Prepend(es + more, rest)
  {
    match rest
    case None =>
    case Some(last) =>
      assert [] + last == last;
      Assoc(es, more, last);
  }

  method ParseMeasurement(data: seq<byte>, algorithm: nat) returns (evidences: Option<seq<Evidence>>)
    ensures evidences == Parse(data, 0, algorithm)
  {
    var offset, es := 0, [];
    PrependTwice([], [], Parse(data, 0, algorithm));
    while offset < |data|
      invariant Parse(data, 0, algorithm) == Prepend(es, Parse(data, offset, algorithm))
    {
      if offset + 8 > |data| {
        return None;
      }
      var evidence := [];
      if data[offset + 4] < 0x80 {
        evidence := [Digest(data[offset], algorithm, Slice(data, offset + 7, offset + 4 + Size(data, offset)))];
      } else if data[offset + 4] == 0x87 {
        if offset + 15 > |data| {
          return None;
        }
        evidence := [Svn(data[offset], FromLittleEndian(data[offset + 7..offset + 15]))];
      }
      var next := offset + 4 + Size(data, offset);
      PrependTwice(es, evidence, Parse(data, next, algorithm));
      es, offset := es + evidence, next;
    }
    assert es + [] == es;
    evidences := Some(es);
  }

  // ----- Blocks -----

  /** The value and its three-byte header must fit a 16-bit size. */
  datatype Block = Block(index: byte, specification: byte, kind: byte, value: seq<byte>) {
    predicate Valid() {
      |value| + 3 < 0x1_0000
    }
  }

  function Encode(b: Block): (s: seq<byte>)
    requires b.Valid()
    ensures |s| == 7 + |b.value|
  {
    [b.index, b.specification] + LittleEndian(3 + |b.value|, 2) + [b.kind] + LittleEndian(|b.value|, 2) + b.value
  }

  predicate AllValid(bs: seq<Block>) {
    forall i :: 0 <= i < |bs| ==> bs[i].Valid()
  }

  function Record(bs: seq<Block>): seq<byte>
    requires AllValid(bs)
  {
    if bs == [] then [] else Encode(bs[0]) + Record(bs[1..])
  }

  /** What a block says: a digest, a security version number, or raw data that is not reported. */
  function Meaning(b: Block, algorithm: nat): seq<Evidence> {
    if b.kind < 0x80 then [Digest(b.index, algorithm, b.value)]
    else if b.kind == 0x87 && |b.value| >= 8 then [Svn(b.index, FromLittleEndian(b.value[..8]))]
    else []
  }

  /** Bit 7 of the kind marks raw data; of raw data only kind 7 with eight bytes is reported, of the rest everything. */
  lemma MeaningExactlyWhen(b: Block, algorithm: nat)
    ensures b.kind / 128 == 0 ==> Meaning(b, algorithm) == [Digest(b.index, algorithm, b.value)]
    ensures b.kind / 128 == 1 && b.kind % 128 == 7 && |b.value| >= 8 ==>
              |Meaning(b, algorithm)| == 1 && Meaning(b, algorithm)[0].Svn? && Meaning(b, algorithm)[0].index == b.index
              && LittleEndian(Meaning(b, algorithm)[0].svn, 8) == b.value[..8]
    ensures b.kind / 128 == 1 && (b.kind % 128 != 7 || |b.value| < 8) ==> Meaning(b, algorithm) == []
  {
    if |b.value| >= 8 {
      EncodeDecode(b.value[..8]);
    }
  }

  function Meanings(bs: seq<Block>, algorithm: nat): seq<Evidence> {
    if bs == [] then [] else Meaning(bs[0], algorithm) + Meanings(bs[1..], algorithm)
  }

  /** A security version number has its eight bytes. */
  predicate Versioned(bs: seq<Block>) {
    forall i :: 0 <= i < |bs| && bs[i].kind == 0x87 ==> |bs[i].value| >= 8
  }

  // ----- Parsing inverts concatenation -----

  lemma SizeOfEncoded(b: Block, rest: seq<byte>)
    requires b.Valid()
    ensures var s := Encode(b) + rest;
            && s[0] == b.index && s[4] == b.kind && Size(s, 0) == 3 + |b.value|
            && s[7..7 + |b.value|] == b.value && s[7 + |b.value|..] == rest
  {
    DecodeEncode(3 + |b.value|, 2);
    assert (Encode(b) + rest)[2..4] == LittleEndian(3 + |b.value|, 2);
  }

  /** The seven bytes before a value: index, specification, size of the rest, kind, size of the value. */
  lemma BlockLayout(b: Block)
    requires b.Valid()
    ensures var s, n := Encode(b), |b.value|;
            && s[0] == b.index && s[1] == b.specification && s[2] == (n + 3) % 256 && s[3] == (n + 3) / 256
            && s[4] == b.kind && s[5] == n % 256 && s[6] == n / 256 && s[7..] == b.value
  {
    var n := |b.value|;
    assert Digit(n, 1) == Digit(n / 256, 0) && Digit(n + 3, 1) == Digit((n + 3) / 256, 0);
  }

  /** What the parser makes of a first block, for every value and every rest. */
  function Reading(b: Block, rest: seq<byte>, algorithm: nat): Option<seq<Evidence>> {
    if b.value + rest == [] then None
    else if b.kind != 0x87 || |b.value| >= 8 then Some(Meaning(b, algorithm))
    else if |b.value + rest| < 8 then None
    else Some([Svn(b.index, FromLittleEndian((b.value + rest)[..8]))])
  }

  /** One block in front: what the parser makes of it, for every value and every rest. */
  lemma FirstBlock(b: Block, rest: seq<byte>, algorithm: nat)
    requires b.Valid()
    ensures BlockEvidence(Encode(b) + rest, 0, algorithm) == Reading(b, rest, algorithm)
  {
    var s := Encode(b) + rest;
    SizeOfEncoded(b, rest);
    if |s| >= 15 {
      assert s[7..15] == (b.value + rest)[..8];
      assert |b.value| >= 8 ==> (b.value + rest)[..8] == b.value[..8];
    }
  }

  /** Parsing from an offset is parsing what is there. */
  lemma {:induction false} ParseSuffix(data: seq<byte>, skip: nat, offset: nat, algorithm: nat)
    requires skip <= |data|
    ensures Parse(data, skip + offset, algorithm) == Parse(data[skip..], offset, algorithm)
    decreases |data| - (skip + offset)
  {
    var tail := data[skip..];
    if skip + offset < |data| {
      SameBlock(data, skip, offset, algorithm);
      if BlockEvidence(tail, offset, algorithm).Some? {
        ParseSuffix(data, skip, offset + 4 + Size(tail, offset), algorithm);
      }
    }
  }

  lemma SameBlock(data: seq<byte>, skip: nat, offset: nat, algorithm: nat)
    requires skip + offset < |data|
    ensures BlockEvidence(data, skip + offset, algorithm) == BlockEvidence(data[skip..], offset, algorithm)
    ensures BlockEvidence(data, skip + offset, algorithm).Some? ==> Size(data, skip + offset) == Size(data[skip..], offset)
  {
    var tail := data[skip..];
    if skip + offset + 8 <= |data| {
      assert data[skip + offset + 2..skip + offset + 4] == tail[offset + 2..offset + 4];
      var high := offset + 4 + Size(tail, offset);
      assert Slice(data, skip + (offset + 7), skip + high) == Slice(tail, offset + 7, high);
      if skip + offset + 15 <= |data| {
        assert data[skip + offset + 7..skip + offset + 15] == tail[offset + 7..offset + 15];
      }
    }
  }

  lemma ParseFirst(b: Block, rest: seq<byte>, algorithm: nat)
    requires b.Valid()
    ensures Parse(Encode(b) + rest, 0, algorithm)
         == match Reading(b, rest, algorithm) case None => None case Some(es) => Prepend(es, Parse(rest, 0, algorithm))
  {
    var s := Encode(b) + rest;
    FirstBlock(b, rest, algorithm);
    SizeOfEncoded(b, rest);
    ParseSuffix(s, 7 + |b.value|, 0, algorithm);
  }

  /**
   * Where the parser runs off the end of the record: at a last block with an empty value, where it
   * reads eight bytes but that block has seven, or at a version number whose eight bytes are not there.
   */
  predicate RunsOff(bs: seq<Block>)
    requires AllValid(bs)
  {
    || (bs != [] && bs[|bs| - 1].value == [])
    || exists i :: 0 <= i < |bs| && bs[i].kind == 0x87 && |bs[i].value| + |Record(bs[i + 1..])| < 8
  }

  lemma RunsOffStep(bs: seq<Block>)
    requires AllValid(bs) && bs != []
    ensures var b, rest := bs[0], Record(bs[1..]);
            RunsOff(bs) <==> RunsOff(bs[1..]) || b.value + rest == [] || (b.kind == 0x87 && |b.value| + |rest| < 8)
  {
    forall i | 0 <= i < |bs| - 1
      ensures bs[1..][i] == bs[i + 1] && bs[1..][i + 1..] == bs[i + 2..]
    {
    }
    if |bs| > 1 {
      assert bs[1..][|bs| - 2] == bs[|bs| - 1];
      assert |Record(bs[1..])| > 0;
    }
    if i :| 0 < i < |bs| && bs[i].kind == 0x87 && |bs[i].value| + |Record(bs[i + 1..])| < 8 {
      assert bs[1..][i - 1] == bs[i] && bs[1..][(i - 1) + 1..] == bs[i + 1..];
    }
    if i :| 0 <= i < |bs| - 1 && bs[1..][i].kind == 0x87 && |bs[1..][i].value| + |Record(bs[1..][i + 1..])| < 8 {
      assert bs[i + 1] == bs[1..][i] && bs[(i + 1) + 1..] == bs[1..][i + 1..];
    }
  }

  /** The parser raises an exception exactly on the records it runs off. */
  lemma {:induction false} RaisesExactlyWhen(bs: seq<Block>, algorithm: nat)
    requires AllValid(bs)
    ensures Parse(Record(bs), 0, algorithm).None? <==> RunsOff(bs)
  {
    if bs != [] {
      RaisesExactlyWhen(bs[1..], algorithm);
      ParseFirst(bs[0], Record(bs[1..]), algorithm);
      RunsOffStep(bs);
    }
  }

  /** Each version number with too few bytes becomes an evidence that no block stands for. */
  lemma {:induction false} EvidenceCount(bs: seq<Block>, algorithm: nat)
    requires AllValid(bs) && Parse(Record(bs), 0, algorithm).Some?
    ensures var es := Parse(Record(bs), 0, algorithm).value;
            && |es| >= |Meanings(bs, algorithm)|
            && (|es| == |Meanings(bs, algorithm)| ==> Versioned(bs))
            && (Versioned(bs) ==> es == Meanings(bs, algorithm))
  {
    if bs != [] {
      ParseFirst(bs[0], Record(bs[1..]), algorithm);
      EvidenceCount(bs[1..], algorithm);
      assert Versioned(bs) <==> Versioned(bs[1..]) && (bs[0].kind == 0x87 ==> |bs[0].value| >= 8) by {
        assert bs == [bs[0]] + bs[1..];
      }
    }
  }

  lemma VersionedRunsOff(bs: seq<Block>)
    requires AllValid(bs) && Versioned(bs)
    ensures RunsOff(bs) <==> bs != [] && bs[|bs| - 1].value == []
  {
  }

  /**
   * The parser recovers the meaning of every block in order exactly when every version number has
   * its eight bytes and the last block has a value.
   */
  lemma RecordParsed(bs: seq<Block>, algorithm: nat)
    requires AllValid(bs)
    ensures Parse(Record(bs), 0, algorithm) == Some(Meanings(bs, algorithm))
       <==> Versioned(bs) && (bs == [] || bs[|bs| - 1].value != [])
  {
    RaisesExactlyWhen(bs, algorithm);
    if Parse(Record(bs), 0, algorithm).Some? {
      EvidenceCount(bs, algorithm);
    }
    if Versioned(bs) {
      VersionedRunsOff(bs);
    }
  }

  /** A record that ends inside the value of a digest gives the part that is there. */
  lemma {:induction false} CutDigest(bs: seq<Block>, last: Block, k: nat, algorithm: nat)
    requires AllValid(bs) && Versioned(bs) && last.Valid() && last.kind < 0x80 && 0 < k <= |last.value|
    ensures Parse(Record(bs) + Encode(last)[..7 + k], 0, algorithm)
         == Some(Meanings(bs, algorithm) + [Digest(last.index, algorithm, last.value[..k])])
  {
    var cut := Encode(last)[..7 + k];
    var part := [Digest(last.index, algorithm, last.value[..k])];
    if bs == [] {
      assert Record(bs) + cut == cut && Meanings(bs, algorithm) + part == part;
      CutBlock(last, k, algorithm);
    } else {
      CutDigest(bs[1..], last, k, algorithm);
      MeaningFirst(bs[0], Record(bs[1..]) + cut, algorithm, Meanings(bs[1..], algorithm) + part);
      Assoc(Encode(bs[0]), Record(bs[1..]), cut);
      Assoc(Meaning(bs[0], algorithm), Meanings(bs[1..], algorithm), part);
    }
  }

  lemma MeaningFirst(b: Block, rest: seq<byte>, algorithm: nat, more: seq<Evidence>)
    requires b.Valid() && (b.kind == 0x87 ==> |b.value| >= 8) && rest != [] && Parse(rest, 0, algorithm) == Some(more)
    ensures Parse(Encode(b) + rest, 0, algorithm) == Some(Meaning(b, algorithm) + more)
  {
    ParseFirst(b, rest, algorithm);
  }

  lemma CutBlock(b: Block, k: nat, algorithm: nat)
    requires b.Valid() && b.kind < 0x80 && 0 < k <= |b.value|
    ensures Parse(Encode(b)[..7 + k], 0, algorithm) == Some([Digest(b.index, algorithm, b.value[..k])])
  {
    var s := Encode(b);
    var cut := s[..7 + k];
    SizeOfEncoded(b, []);
    assert s + [] == s;
    assert cut[2..4] == s[2..4];
    assert cut[7..] == b.value[..k];
    assert Slice(cut, 7, 4 + Size(cut, 0)) == b.value[..k];
    var part := [Digest(b.index, algorithm, b.value[..k])];
    assert BlockEvidence(cut, 0, algorithm) == Some(part);
    assert part + [] == part;
  }

  lemma UnreportedLast(b: Block, algorithm: nat)
    requires b.Valid() && b.kind > 0x87 && b.value != []
    ensures Record([b]) == Encode(b) && Parse(Encode(b), 0, algorithm) == Some([])
  {
    assert [b][1..] == [];
    assert Encode(b) + [] == Encode(b) && b.value + [] == b.value;
    ParseFirst(b, [], algorithm);
    PrependTwice([], [], Some([]));
  }

  lemma ShortThen(svn: Block, rest: seq<byte>, algorithm: nat)
    requires svn.Valid() && svn.kind == 0x87 && |svn.value| < 8
    ensures Parse(Encode(svn) + rest, 0, algorithm)
         == if |svn.value + rest| < 8 then None
            else Prepend([Svn(svn.index, FromLittleEndian((svn.value + rest)[..8]))], Parse(rest, 0, algorithm))
  {
    ParseFirst(svn, rest, algorithm);
  }

  /**
   * A version number with too few bytes takes the others from the block after it; as the last block
   * it raises an exception.
   */
  lemma ShortVersionNumber(svn: Block, next: Block, algorithm: nat)
    requires svn.Valid() && svn.kind == 0x87 && |svn.value| < 8
    requires next.Valid() && next.kind > 0x87 && next.value != []
    ensures Parse(Encode(svn) + Record([]), 0, algorithm).None?
    ensures Parse(Encode(svn) + Record([next]), 0, algorithm)
         == Some([Svn(svn.index, FromLittleEndian((svn.value + Encode(next))[..8]))])
  {
    UnreportedLast(next, algorithm);
    ShortThen(svn, [], algorithm);
    ShortThen(svn, Encode(next), algorithm);
    var read := [Svn(svn.index, FromLittleEndian((svn.value + Encode(next))[..8]))];
    assert read + [] == read;
  }

  /** For instance 5, written in one byte, is read as 5 + 256 * (the block after it). */
  lemma FiveMisread(svn: Block, next: Block, algorithm: nat)
    requires svn == Block(1, 1, 0x87, [5]) && next == Block(2, 1, 0x88, [9])
    ensures Parse(Record([svn, next]), 0, algorithm)
         == Some([Svn(1, 5 + 256 * FromLittleEndian(Encode(next)[..7]))])
  {
    assert [svn, next][1..] == [next];
    ShortVersionNumber(svn, next, algorithm);
    var bytes := (svn.value + Encode(next))[..8];
    assert bytes[0] == 5 && bytes[1..] == Encode(next)[..7];
  }
}
