/** DOE discovery (section 6.30 of PCI Express Base Specification 6.0): the requester's loop and the responder's table. */
module DoeDiscovery {
  import opened Words

  const PCISIG: uint16 := 0x0001
  const DISCOVERY: byte := 0x00
  /** Header and one word, in words. */
  const RESPONSE_LENGTH: uint32 := 3

  datatype Protocol = Protocol(vendor: uint16, kind: byte)

  datatype Reply =
    | Lost
    | Reply(wholeSize: bool, vendor: uint16, kind: byte, length: uint32, word: uint32)

  /** What the other side answers to each index; an accepted run never repeats an index. */
  type Peer = byte -> Reply

  datatype Status = Success | TransportError | InvalidSize | InvalidField

  // ----- The reply word -----

  /** Vendor in the low half, then the type, then the next index. */
  function Pack(p: Protocol, next: byte): uint32 {
    next * 0x100_0000 + p.kind * 0x1_0000 + p.vendor
  }

  function Entry(word: uint32): Protocol {
    Protocol(word % 0x1_0000, word / 0x1_0000 % 0x100)
  }

  function Next(word: uint32): byte {
    word / 0x100_0000
  }

  lemma Unpacked(p: Protocol, next: byte)
    ensures Entry(Pack(p, next)) == p && Next(Pack(p, next)) == next
  {
    var high := next * 0x100 + p.kind;
    assert Pack(p, next) == high * 0x1_0000 + p.vendor;
    assert Pack(p, next) / 0x1_0000 == high;
  }

  lemma Repacked(word: uint32)
    ensures Pack(Entry(word), Next(word)) == word
  {
    var high := word / 0x1_0000;
    assert word == high * 0x1_0000 + word % 0x1_0000;
    assert high / 0x100 == Next(word);
  }

  // ----- The requester -----

  /** The checks on one reply. */
  function Check(reply: Reply, index: nat): Status {
    if reply.Lost? then TransportError
    else if !reply.wholeSize then InvalidSize
    else if reply.vendor != PCISIG || reply.kind != DISCOVERY || reply.length != RESPONSE_LENGTH then InvalidField
    else if Next(reply.word) != 0 && Next(reply.word) != index + 1 then InvalidField
    else Success
  }

  /** The loop from the state in which `found` has been stored. */
  function Discover(peer: Peer, capacity: nat, found: seq<Protocol>): (r: (Status, seq<Protocol>))
    requires |found| < 256
    ensures |r.1| <= 256 && (|found| <= capacity ==> |r.1| <= capacity) && found <= r.1
    decreases 256 - |found|
  {
    var reply := peer(|found|);
    if capacity < |found| + 1 then (InvalidSize, found)
    else if Check(reply, |found|) != Success then (Check(reply, |found|), found)
    else if Next(reply.word) == 0 then (Success, found + [Entry(reply.word)])
    else Discover(peer, capacity, found + [Entry(reply.word)])
  }

  lemma StoreStep(before: seq<Protocol>, found: seq<Protocol>, p: Protocol)
    requires |found| < |before|
    ensures (found + before[|found|..])[|found| := p] == (found + [p]) + before[|found| + 1..]
  {
  }

  method PciDoeDiscovery(peer: Peer, protocols: array<Protocol>) returns (status: Status, count: nat)
    modifies protocols
    ensures var (s, found) := Discover(peer, protocols.Length, []);
            && status == s
            && protocols[..] == found + old(protocols[|found|..])
            && (s == Success ==> count == |found|)
  {
    ghost var before, found := protocols[..], [];
    var index: byte := 0;
    while true
      invariant index == |found| <= protocols.Length && protocols[..] == found + before[|found|..]
      invariant Discover(peer, protocols.Length, []) == Discover(peer, protocols.Length, found)
      decreases 256 - index
    {
      if protocols.Length < index + 1 {
        return InvalidSize, 0;
      }
      var reply := peer(index);
      status := Check(reply, index);
      if status != Success {
        return status, 0;
      }
      StoreStep(before, found, Entry(reply.word));
      protocols[index] := Entry(reply.word);
      found := found + [Entry(reply.word)];
      if Next(reply.word) == 0 {
        return Success, index + 1;
      }
      index := Next(reply.word);
    }
  }

  // ----- Against any responder -----

  /** Replies 0, 1, ... carry exactly these entries, each naming the next index and the last naming 0. */
  predicate Chain(peer: Peer, found: seq<Protocol>) {
    && 0 < |found| <= 256
    && forall i :: 0 <= i < |found| ==> Link(peer(i), found[i], i, i == |found| - 1)
  }

  /** A discovery response of three words: vendor in the low half, then the type, then the next index. */
  predicate Link(reply: Reply, p: Protocol, index: nat, last: bool) {
    && reply.Reply? && reply.wholeSize && reply.vendor == 0x0001 && reply.kind == 0 && reply.length == 3
    && reply.word == p.vendor + 0x1_0000 * p.kind + 0x100_0000 * (if last then 0 else index + 1)
  }

  /** Exactly such replies pass the checks, and the others have a status each. */
  lemma CheckedExactlyWhen(reply: Reply, index: nat)
    ensures Check(reply, index) == TransportError <==> reply.Lost?
    ensures Check(reply, index) == InvalidSize <==> reply.Reply? && !reply.wholeSize
    ensures Check(reply, index) == Success <==> exists p, last :: Link(reply, p, index, last)
    ensures Check(reply, index) == Success ==> Link(reply, Entry(reply.word), index, Next(reply.word) == 0)
  {
    if reply.Reply? {
      Repacked(reply.word);
      if Check(reply, index) == Success {
        assert Link(reply, Entry(reply.word), index, Next(reply.word) == 0);
      }
      if p, last :| Link(reply, p, index, last) {
        LinkParts(reply, p, index, last);
      }
    }
  }

  lemma LinkParts(reply: Reply, p: Protocol, index: nat, last: bool)
    requires Link(reply, p, index, last)
    ensures Check(reply, index) == Success && Entry(reply.word) == p && (Next(reply.word) == 0 <==> last)
    ensures !last ==> index < 255
  {
    Unpacked(p, if last then 0 else index + 1);
  }

  lemma {:induction false} DiscoverIsChain(peer: Peer, capacity: nat, found: seq<Protocol>)
    requires |found| < 256
    requires forall i :: 0 <= i < |found| ==> Link(peer(i), found[i], i, false)
    ensures var (s, all) := Discover(peer, capacity, found);
            s == Success ==> Chain(peer, all) && |all| <= capacity
    decreases 256 - |found|
  {
    var reply := peer(|found|);
    CheckedExactlyWhen(reply, |found|);
    if |found| + 1 <= capacity && Check(reply, |found|) == Success && Next(reply.word) != 0 {
      DiscoverIsChain(peer, capacity, found + [Entry(reply.word)]);
    }
  }

  lemma {:induction false} ChainIsDiscovered(peer: Peer, capacity: nat, all: seq<Protocol>, k: nat)
    requires Chain(peer, all) && |all| <= capacity && k < |all|
    ensures Discover(peer, capacity, all[..k]) == (Success, all)
    decreases |all| - k
  {
    LinkParts(peer(k), all[k], k, k == |all| - 1);
    assert all[..k] + [all[k]] == all[..k + 1];
    if k < |all| - 1 {
      ChainIsDiscovered(peer, capacity, all, k + 1);
    } else {
      assert all[..k + 1] == all;
    }
  }

  /**
   * Whatever the responder does, discovery ends, and succeeds with a list exactly when the replies
   * form a chain of those entries that fits the array.
   */
  lemma DiscoveredExactlyWhen(peer: Peer, capacity: nat, found: seq<Protocol>)
    ensures Discover(peer, capacity, []) == (Success, found) <==> Chain(peer, found) && |found| <= capacity
  {
    DiscoverIsChain(peer, capacity, []);
    if Chain(peer, found) && |found| <= capacity {
      ChainIsDiscovered(peer, capacity, found, 0);
    }
  }

  /** Replies 0, 1, ... carry these entries and there are more to come. */
  predicate Unfinished(peer: Peer, found: seq<Protocol>) {
    |found| < 256 && forall i :: 0 <= i < |found| ==> Link(peer(i), found[i], i, false)
  }

  /**
   * Otherwise discovery stops at the first reply that is no link, with that reply's status, or at
   * the end of the array; the entries before it stay stored.
   */
  lemma {:induction false} StopsAtFirstBad(peer: Peer, capacity: nat, found: seq<Protocol>, k: nat)
    requires Unfinished(peer, found) && k <= |found| <= capacity
    requires |found| < capacity ==> forall p, last :: !Link(peer(|found|), p, |found|, last)
    ensures Discover(peer, capacity, found[..k])
         == (if |found| == capacity then InvalidSize else Check(peer(|found|), |found|), found)
    ensures Discover(peer, capacity, found[..k]).0 != Success
    decreases |found| - k
  {
    if k < |found| {
      LinkParts(peer(k), found[k], k, false);
      assert found[..k] + [found[k]] == found[..k + 1];
      StopsAtFirstBad(peer, capacity, found, k + 1);
    } else {
      assert found[..k] == found;
      CheckedExactlyWhen(peer(k), k);
    }
  }

  // ----- Against the responder of this repository -----

  /**
   * The word of the reply, or None for an index outside the table. The index is a byte; its
   * successor is shifted into the top byte, where 256 leaves nothing.
   */
  function ReplyWord(table: seq<Protocol>, index: byte): Option<uint32> {
    if index >= |table| then None
    else if index == |table| - 1 then Some(Pack(table[index], 0))
    else Some(Pack(table[index], if index == 255 then 0 else index + 1))
  }

  method GetDiscoveryResponse(table: seq<Protocol>, index: byte, reply: array<uint32>) returns (ok: bool)
    requires reply.Length >= 3
    modifies reply
    ensures ok <==> ReplyWord(table, index).Some?
    ensures reply[..] == if ok then old(reply[..])[2 := ReplyWord(table, index).value] else old(reply[..])
  {
    if index >= |table| {
      return false;
    } else if index == |table| - 1 {
      reply[2] := table[index].kind * 0x1_0000 + table[index].vendor;
    } else {
      reply[2] := (index + 1) * 0x100_0000 % 0x1_0000_0000 + table[index].kind * 0x1_0000 + table[index].vendor;
    }
    ok := true;
  }

  function Served(table: seq<Protocol>): Peer {
    (index: byte) =>
      match ReplyWord(table, index)
      case None => Lost
      case Some(word) => Reply(true, PCISIG, DISCOVERY, RESPONSE_LENGTH, word)
  }

  /** The entries an 8-bit index can reach. */
  function Reachable(table: seq<Protocol>): seq<Protocol> {
    table[..Min(|table|, 256)]
  }

  lemma ServedLink(table: seq<Protocol>, i: nat)
    requires i < |Reachable(table)|
    ensures Link(Served(table)(i), table[i], i, i == |Reachable(table)| - 1)
  {
    Unpacked(table[i], if i == |Reachable(table)| - 1 then 0 else i + 1);
  }

  lemma {:induction false} PrefixStored(table: seq<Protocol>, capacity: nat, k: nat)
    requires k <= capacity < |Reachable(table)|
    ensures Discover(Served(table), capacity, table[..k]) == (InvalidSize, table[..capacity])
    decreases capacity - k
  {
    if k < capacity {
      ServedLink(table, k);
      LinkParts(Served(table)(k), table[k], k, false);
      assert table[..k] + [table[k]] == table[..k + 1];
      PrefixStored(table, capacity, k + 1);
    }
  }

  /**
   * Discovery yields the responder's table in order; an array that is too small is filled and an
   * invalid size reported.
   */
  lemma TableDiscovered(table: seq<Protocol>, capacity: nat)
    requires table != []
    ensures Discover(Served(table), capacity, [])
         == if |Reachable(table)| <= capacity then (Success, Reachable(table)) else (InvalidSize, table[..capacity])
  {
    var all := Reachable(table);
    forall i | 0 <= i < |all|
      ensures Link(Served(table)(i), all[i], i, i == |all| - 1)
    {
      ServedLink(table, i);
    }
    if |all| <= capacity {
      DiscoveredExactlyWhen(Served(table), capacity, all);
    } else {
      PrefixStored(table, capacity, 0);
    }
  }

  /** Up to 256 entries that is the whole table. */
  lemma WholeTableDiscovered(table: seq<Protocol>, capacity: nat)
    requires 1 <= |table| <= 256 && |table| <= capacity
    ensures Discover(Served(table), capacity, []) == (Success, table)
  {
    TableDiscovered(table, capacity);
    assert Reachable(table) == table;
  }
}
