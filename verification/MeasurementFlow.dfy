/** From the device to the evidence file: the attester collects blocks, the measurement tool parses them. */
module MeasurementFlow {
  import opened Words
  import opened MeasurementCollection
  import P = MeasurementParser

  type Blocks = map<nat, P.Block>

  /** Every block can be encoded. */
  predicate WellFormed(blocks: Blocks) {
    forall i :: i in blocks ==> blocks[i].Valid()
  }

  function Encoded(blocks: Blocks): Records
    requires WellFormed(blocks)
  {
    map i | i in blocks :: P.Encode(blocks[i])
  }

  /** The blocks below index n in ascending order. */
  function Ordered(blocks: Blocks, n: nat): seq<P.Block> {
    if n <= 1 then [] else if n - 1 in blocks then Ordered(blocks, n - 1) + [blocks[n - 1]] else Ordered(blocks, n - 1)
  }

  lemma {:induction false} RecordAppend(bs: seq<P.Block>, b: P.Block)
    requires P.AllValid(bs) && b.Valid()
    ensures P.AllValid(bs + [b]) && P.Record(bs + [b]) == P.Record(bs) + P.Encode(b)
  {
    if bs == [] {
      assert bs + [b] == [b] && [b][1..] == [];
      assert P.Encode(b) + [] == [] + P.Encode(b);
    } else {
      assert (bs + [b])[1..] == bs[1..] + [b];
      RecordAppend(bs[1..], b);
      Assoc(P.Encode(bs[0]), P.Record(bs[1..]), P.Encode(b));
    }
  }

  /** The collected bytes are the record of the blocks in index order. */
  lemma {:induction false} CollectedIsRecord(blocks: Blocks, n: nat)
    requires WellFormed(blocks)
    ensures P.AllValid(Ordered(blocks, n))
    ensures InOrder(Encoded(blocks), n) == P.Record(Ordered(blocks, n))
  {
    if n > 1 {
      CollectedIsRecord(blocks, n - 1);
      if n - 1 in blocks {
        RecordAppend(Ordered(blocks, n - 1), blocks[n - 1]);
      }
    }
  }

  /**
   * If the device has as many blocks as it reports and they leave a byte of the buffer free, the
   * collection succeeds, and the tool finds the meaning of every block in index order exactly when
   * every version number has its eight bytes and the last block has a value.
   */
  lemma EvidenceOfDevice(blocks: Blocks, signing: bool, count: byte, capacity: nat, algorithm: nat)
    requires WellFormed(blocks) && Indexed(Encoded(blocks)) && |Encoded(blocks)| == count
    requires |InOrder(Encoded(blocks), 0xFF)| < capacity
    ensures var bs := Ordered(blocks, 0xFF);
            var (status, s) := Collect(Answering(Encoded(blocks)), signing, count, capacity, 1, State(0, [], []));
            && status == Success
            && (P.Parse(s.record, 0, algorithm) == Some(P.Meanings(bs, algorithm)) <==>
                  P.Versioned(bs) && (bs == [] || bs[|bs| - 1].value != []))
  {
    OneByOne(Encoded(blocks), signing, count, capacity);
    CollectedIsRecord(blocks, 0xFF);
    P.RecordParsed(Ordered(blocks, 0xFF), algorithm);
  }
}
