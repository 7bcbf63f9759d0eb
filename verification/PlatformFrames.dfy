/** Frames on the platform socket: command, transport type and length in network order, then the payload. */
module PlatformFrames {
  import opened Words

  // ----- Network byte order on a little-endian host -----

  function Mirrored(s: seq<byte>): (r: seq<byte>)
    requires |s| == 4
    ensures |r| == 4
  {
    [s[3], s[2], s[1], s[0]]
  }

  /** The 32-bit value whose bytes in memory are these. */
  function Load(s: seq<byte>): uint32
    requires |s| == 4
  {
    FromLittleEndianBound(s);
    FromLittleEndian(s)
  }

  /** htonl and ntohl. */
  function Swap(n: uint32): uint32 {
    Load(Mirrored(LittleEndian(n, 4)))
  }

  lemma SwapMirrors(n: uint32)
    ensures LittleEndian(Swap(n), 4) == Mirrored(LittleEndian(n, 4))
  {
    EncodeDecode(Mirrored(LittleEndian(n, 4)));
  }

  lemma SwapTwice(n: uint32)
    ensures Swap(Swap(n)) == n
  {
    SwapMirrors(n);
    assert Mirrored(Mirrored(LittleEndian(n, 4))) == LittleEndian(n, 4);
    DecodeEncode(n, 4);
  }

  /** The four bytes write_data32 sends. */
  function Wire(n: uint32): (s: seq<byte>)
    ensures |s| == 4
  {
    LittleEndian(Swap(n), 4)
  }

  /** The value read_data32 makes of four received bytes. */
  function Unwire(s: seq<byte>): uint32
    requires |s| == 4
  {
    Swap(Load(s))
  }

  /** The most significant byte goes first, and reading and writing are inverse. */
  lemma WireIsBigEndian(n: uint32, s: seq<byte>)
    requires |s| == 4
    ensures Wire(n) == [Digit(n, 3), Digit(n, 2), Digit(n, 1), Digit(n, 0)]
    ensures Unwire(Wire(n)) == n && Wire(Unwire(s)) == s
  {
    SwapMirrors(n);
    SwapTwice(n);
    DecodeEncode(Swap(n), 4);
    SwapTwice(Load(s));
    EncodeDecode(s);
  }

  // ----- Frames -----

  /** A length the header can state. */
  type Payload = s: seq<byte> | |s| < 0x1_0000_0000

  datatype Message = Message(command: uint32, payload: Payload)

  predicate Fits(m: Message, max: uint32) {
    |m.payload| <= max
  }

  function Header(command: uint32, transport: uint32, length: uint32): (s: seq<byte>)
    ensures |s| == 12
  {
    Wire(command) + Wire(transport) + Wire(length)
  }

  function Frame(m: Message, transport: uint32): seq<byte> {
    Header(m.command, transport, |m.payload|) + m.payload
  }

  /** What is left in the stream, with the message if a whole one was taken. */
  datatype Outcome = Failed(rest: seq<byte>) | Received(message: Message, rest: seq<byte>)

  /** receive_platform_message on everything the peer will ever send. */
  function Receive(stream: seq<byte>, transport: uint32, max: uint32): Outcome {
    if |stream| < 8 then Failed([])
    else if Unwire(stream[4..8]) != transport then Failed(stream[8..])
    else if |stream| < 12 then Failed([])
    else
      var length := Unwire(stream[8..12]);
      if length > max then Failed(stream[12..])
      else if |stream| < 12 + length then Failed([])
      else Received(Message(Unwire(stream[..4]), stream[12..12 + length]), stream[12 + length..])
  }

  lemma HeaderFields(command: uint32, transport: uint32, length: uint32, tail: seq<byte>)
    ensures var s := Header(command, transport, length) + tail;
            && Unwire(s[..4]) == command && Unwire(s[4..8]) == transport && Unwire(s[8..12]) == length
            && s[12..] == tail
  {
    var s := Header(command, transport, length) + tail;
    assert s[..4] == Wire(command) && s[4..8] == Wire(transport) && s[8..12] == Wire(length);
    WireIsBigEndian(command, s[..4]);
    WireIsBigEndian(transport, s[..4]);
    WireIsBigEndian(length, s[..4]);
  }

  /** A frame that fits is received whole, and nothing after it is touched. */
  lemma FrameReceived(m: Message, transport: uint32, max: uint32, tail: seq<byte>)
    requires Fits(m, max)
    ensures Receive(Frame(m, transport) + tail, transport, max) == Received(m, tail)
  {
    var s := Frame(m, transport) + tail;
    assert s == Header(m.command, transport, |m.payload|) + (m.payload + tail);
    HeaderFields(m.command, transport, |m.payload|, m.payload + tail);
    assert s[12..12 + |m.payload|] == s[12..][..|m.payload|] == m.payload;
    assert s[12 + |m.payload|..] == s[12..][|m.payload|..] == tail;
  }

  lemma HeaderRead(stream: seq<byte>)
    requires |stream| >= 12
    ensures stream[..12] == Header(Unwire(stream[..4]), Unwire(stream[4..8]), Unwire(stream[8..12]))
  {
    WireIsBigEndian(0, stream[..4]);
    WireIsBigEndian(0, stream[4..8]);
    WireIsBigEndian(0, stream[8..12]);
    assert stream[..12] == stream[..4] + stream[4..8] + stream[8..12];
  }

  /** Nothing else is received: the stream started with exactly that frame. */
  lemma ReceivedIsFrame(stream: seq<byte>, transport: uint32, max: uint32)
    requires Receive(stream, transport, max).Received?
    ensures var Received(m, rest) := Receive(stream, transport, max);
            Fits(m, max) && stream == Frame(m, transport) + rest
  {
    HeaderRead(stream);
    var n := Unwire(stream[8..12]);
    assert stream == stream[..12] + stream[12..12 + n] + stream[12 + n..];
  }

  /** A message is received exactly when the stream starts with the frame of one that fits. */
  lemma ReceivedExactlyWhen(stream: seq<byte>, transport: uint32, max: uint32)
    ensures Receive(stream, transport, max).Received?
       <==> exists m, rest :: Fits(m, max) && stream == Frame(m, transport) + rest
  {
    if Receive(stream, transport, max).Received? {
      ReceivedIsFrame(stream, transport, max);
    }
    if m, rest :| Fits(m, max) && stream == Frame(m, transport) + rest {
      FrameReceived(m, transport, max, rest);
    }
  }

  /** The value n stands at an offset, most significant byte first. */
  predicate PlacedAt(s: seq<byte>, offset: nat, n: uint32)
    requires offset + 4 <= |s|
  {
    s[offset] == Digit(n, 3) && s[offset + 1] == Digit(n, 2) && s[offset + 2] == Digit(n, 1) && s[offset + 3] == Digit(n, 0)
  }

  lemma WirePlaced(before: seq<byte>, n: uint32, after: seq<byte>)
    ensures PlacedAt(before + Wire(n) + after, |before|, n)
  {
    WireIsBigEndian(n, Wire(n));
    var s := before + Wire(n) + after;
    assert s[|before|..|before| + 4] == Wire(n);
    assert forall i :: 0 <= i < 4 ==> s[|before| + i] == Wire(n)[i];
  }

  /** On the wire: command, transport and length, then the payload. */
  lemma FrameLayout(m: Message, transport: uint32)
    ensures var s := Frame(m, transport);
            && |s| == 12 + |m.payload| && s[12..] == m.payload
            && PlacedAt(s, 0, m.command) && PlacedAt(s, 4, transport) && PlacedAt(s, 8, |m.payload|)
  {
    var s, a, b, c := Frame(m, transport), Wire(m.command), Wire(transport), Wire(|m.payload|);
    WirePlaced([], m.command, b + c + m.payload);
    assert s == [] + a + (b + c + m.payload);
    WirePlaced(a, transport, c + m.payload);
    assert s == a + b + (c + m.payload);
    WirePlaced(a + b, |m.payload|, m.payload);
  }

  /** A header for another transport is consumed without its length, one that announces too much with it. */
  lemma RejectedHeader(command: uint32, transport: uint32, other: uint32, length: uint32, max: uint32, tail: seq<byte>)
    ensures other != transport ==>
              Receive(Header(command, other, length) + tail, transport, max) == Failed(Wire(length) + tail)
    ensures length > max ==> Receive(Header(command, transport, length) + tail, transport, max) == Failed(tail)
  {
    HeaderFields(command, other, length, tail);
    HeaderFields(command, transport, length, tail);
    assert (Header(command, other, length) + tail)[8..] == Wire(length) + tail;
  }

  /** A frame that fits but is cut anywhere fails and leaves nothing. */
  lemma CutFrame(m: Message, transport: uint32, max: uint32, k: nat)
    requires Fits(m, max) && k < |Frame(m, transport)|
    ensures Receive(Frame(m, transport)[..k], transport, max) == Failed([])
  {
    var whole := Frame(m, transport);
    HeaderFields(m.command, transport, |m.payload|, m.payload);
    if k >= 8 {
      SliceOfPrefix(whole, k, 4, 8);
    }
    if k >= 12 {
      SliceOfPrefix(whole, k, 8, 12);
    }
  }

  // ----- Whole conversations -----

  function Frames(ms: seq<Message>, transport: uint32): seq<byte> {
    if ms == [] then [] else Frame(ms[0], transport) + Frames(ms[1..], transport)
  }

  lemma ReceivedShrinks(stream: seq<byte>, transport: uint32, max: uint32)
    ensures |Receive(stream, transport, max).rest| <= |stream|
    ensures Receive(stream, transport, max).Received? ==> |Receive(stream, transport, max).rest| < |stream|
  {
  }

  /** All messages received before the first failure. */
  function ReceiveAll(stream: seq<byte>, transport: uint32, max: uint32): seq<Message>
    decreases |stream|
  {
    match Receive(stream, transport, max)
    case Failed(_) => []
    case Received(m, rest) => [m] + ReceiveAll(rest, transport, max)
  }

  /** How many messages come before the first that does not fit, with frames entirely in the first k bytes. */
  function Complete(ms: seq<Message>, transport: uint32, max: uint32, k: nat): (n: nat)
    ensures n <= |ms|
  {
    if ms == [] || !Fits(ms[0], max) || k < |Frame(ms[0], transport)| then 0
    else 1 + Complete(ms[1..], transport, max, k - |Frame(ms[0], transport)|)
  }

  predicate AllFit(ms: seq<Message>, max: uint32) {
    forall i :: 0 <= i < |ms| ==> Fits(ms[i], max)
  }

  lemma AllFitCons(ms: seq<Message>, max: uint32)
    requires ms != []
    ensures AllFit(ms, max) <==> Fits(ms[0], max) && AllFit(ms[1..], max)
  {
    assert ms == [ms[0]] + ms[1..];
  }

  /** That number is the largest with this property. */
  lemma {:induction false} CompleteMeaning(ms: seq<Message>, transport: uint32, max: uint32, k: nat, n: nat)
    requires n <= |ms|
    ensures n <= Complete(ms, transport, max, k) <==> AllFit(ms[..n], max) && |Frames(ms[..n], transport)| <= k
    decreases |ms|
  {
    if n > 0 {
      var first := |Frame(ms[0], transport)|;
      assert ms[..n][0] == ms[0] && ms[..n][1..] == ms[1..][..n - 1];
      AllFitCons(ms[..n], max);
      if first <= k {
        CompleteMeaning(ms[1..], transport, max, k - first, n - 1);
      }
    }
  }

  /** What the fields of a stream say against receiving a message from it. */
  lemma FieldsDecide(stream: seq<byte>, transport: uint32, max: uint32, length: nat)
    requires |stream| >= 12 ==> Unwire(stream[8..12]) == length && (length > max || |stream| < 12 + length)
    ensures Receive(stream, transport, max).Failed?
  {
  }

  lemma FrameLength(m: Message, transport: uint32, rest: seq<byte>)
    ensures var whole := Frame(m, transport) + rest;
            |whole| >= 12 && Unwire(whole[8..12]) == |m.payload|
  {
    HeaderFields(m.command, transport, |m.payload|, m.payload + rest);
    assert Frame(m, transport) + rest == Header(m.command, transport, |m.payload|) + (m.payload + rest);
  }

  lemma SliceOfPrefix<T>(s: seq<T>, k: nat, low: nat, high: nat)
    requires low <= high <= k <= |s|
    ensures s[..k][low..high] == s[low..high]
  {
  }

  /** A cut frame is never taken for a message, nor is one that does not fit. */
  lemma NotReceived(m: Message, transport: uint32, max: uint32, rest: seq<byte>, k: nat)
    requires k <= |Frame(m, transport) + rest| && (Fits(m, max) ==> k < |Frame(m, transport)|)
    ensures ReceiveAll((Frame(m, transport) + rest)[..k], transport, max) == []
  {
    FrameLength(m, transport, rest);
    if k >= 12 {
      SliceOfPrefix(Frame(m, transport) + rest, k, 8, 12);
    }
    FieldsDecide((Frame(m, transport) + rest)[..k], transport, max, |m.payload|);
  }

  lemma TakeAcross<T>(a: seq<T>, b: seq<T>, k: nat)
    requires k <= |a + b|
    ensures (a + b)[..k] == if k < |a| then a[..k] else a + b[..k - |a|]
  {
  }

  lemma ReceiveFirst(m: Message, transport: uint32, max: uint32, rest: seq<byte>, k: nat)
    requires Fits(m, max) && |Frame(m, transport)| <= k <= |Frame(m, transport) + rest|
    ensures ReceiveAll((Frame(m, transport) + rest)[..k], transport, max)
         == [m] + ReceiveAll(rest[..k - |Frame(m, transport)|], transport, max)
  {
    TakeAcross(Frame(m, transport), rest, k);
    FrameReceived(m, transport, max, rest[..k - |Frame(m, transport)|]);
  }

  lemma HeadAndTail<T>(s: seq<T>)
    requires s != []
    ensures [s[0]] + s[1..] == s
  {
  }

  lemma CutAfterFirst(m: Message, others: seq<Message>, transport: uint32, max: uint32, rest: seq<byte>, k: nat, n: nat)
    requires Fits(m, max) && |Frame(m, transport)| <= k <= |Frame(m, transport) + rest| && n <= |others|
    requires ReceiveAll(rest[..k - |Frame(m, transport)|], transport, max) == others[..n]
    ensures ReceiveAll((Frame(m, transport) + rest)[..k], transport, max) == ([m] + others)[..n + 1]
  {
    ReceiveFirst(m, transport, max, rest, k);
    assert ([m] + others)[..n + 1] == [m] + others[..n];
  }

  /**
   * Wherever the connection breaks, the receiver gets in order exactly the messages before the
   * first that does not fit whose frames arrived whole.
   */
  lemma {:induction false} CutStream(ms: seq<Message>, transport: uint32, max: uint32, k: nat)
    requires k <= |Frames(ms, transport)|
    ensures ReceiveAll(Frames(ms, transport)[..k], transport, max) == ms[..Complete(ms, transport, max, k)]
    decreases |ms|
  {
    if ms != [] {
      var first, rest := Frame(ms[0], transport), Frames(ms[1..], transport);
      if !Fits(ms[0], max) || k < |first| {
        NotReceived(ms[0], transport, max, rest, k);
      } else {
        HeadAndTail(ms);
        CutStream(ms[1..], transport, max, k - |first|);
        CutAfterFirst(ms[0], ms[1..], transport, max, rest, k, Complete(ms[1..], transport, max, k - |first|));
      }
    }
  }

  /** Room beyond the last frame makes no difference. */
  lemma {:induction false} CompleteBeyond(ms: seq<Message>, transport: uint32, max: uint32, k: nat)
    requires |Frames(ms, transport)| <= k
    ensures Complete(ms, transport, max, k) == Complete(ms, transport, max, |Frames(ms, transport)|)
    decreases |ms|
  {
    if ms != [] {
      CompleteBeyond(ms[1..], transport, max, k - |Frame(ms[0], transport)|);
    }
  }
}
