/** The platform socket code, over a connection that moves bytes in pieces of any size. */
module PlatformSocket {
  import opened Words
  import opened PlatformFrames

  /**
   * One end of a connection. `inbound` is what will still arrive before the connection closes or
   * fails, `room` how much can still be sent before it does. Every call moves a nonempty piece of
   * the requested bytes; `pieces` chooses its size.
   */
  class Socket {
    var inbound: seq<byte>
    var outbound: seq<byte>
    var room: nat
    var calls: nat
    const pieces: nat -> nat

    constructor (inbound: seq<byte>, room: nat, pieces: nat -> nat)
      ensures this.inbound == inbound && outbound == [] && this.room == room && this.pieces == pieces
    {
      this.inbound, this.outbound, this.room, this.calls, this.pieces := inbound, [], room, 0, pieces;
    }

    /** How many of the at most `limit` bytes this call moves. */
    method Piece(limit: nat) returns (n: nat)
      requires limit > 0
      modifies `calls
      ensures 1 <= n <= limit
    {
      n := 1 + pieces(calls) % limit;
      calls := calls + 1;
    }

    /** recv: 0 when nothing more arrives. */
    method Recv(buffer: array<byte>, offset: nat, size: nat) returns (result: nat)
      requires size > 0 && offset + size <= buffer.Length
      modifies `inbound, `calls, buffer
      ensures result <= size && result <= |old(inbound)| && (result == 0 <==> old(inbound) == [])
      ensures inbound == old(inbound)[result..]
      ensures buffer[..] == old(buffer[..offset]) + old(inbound)[..result] + old(buffer[offset + result..])
    {
      if inbound == [] {
        return 0;
      }
      result := Piece(Min(size, |inbound|));
      forall i | 0 <= i < result {
        buffer[offset + i] := inbound[i];
      }
      inbound := inbound[result..];
    }

    /** send: -1 when the connection has failed. */
    method Send(data: seq<byte>) returns (result: int)
      requires data != []
      modifies `outbound, `room, `calls
      ensures old(room) == 0 ==> result == -1 && outbound == old(outbound) && room == 0
      ensures old(room) > 0 ==>
                && 1 <= result <= Min(|data|, old(room))
                && outbound == old(outbound) + data[..result] && room == old(room) - result
    {
      if room == 0 {
        return -1;
      }
      result := Piece(Min(|data|, room));
      outbound, room := outbound + data[..result], room - result;
    }
  }

  // ----- Receiving -----

  /** How much of a read of n bytes succeeds. */
  function Available(stream: seq<byte>, n: nat): (m: nat)
    ensures m <= |stream| && m <= n
  {
    Min(n, |stream|)
  }

  method ReadBytes(socket: Socket, buffer: array<byte>, n: uint32) returns (ok: bool)
    requires n <= buffer.Length
    modifies socket`inbound, socket`calls, buffer
    ensures ok <==> n <= |old(socket.inbound)|
    ensures var m := Available(old(socket.inbound), n);
            && socket.inbound == old(socket.inbound)[m..]
            && buffer[..] == old(socket.inbound)[..m] + old(buffer[m..])
  {
    ghost var stream, before := socket.inbound, buffer[..];
    var received := 0;
    while received < n
      invariant received <= n && received <= |stream|
      invariant socket.inbound == stream[received..]
      invariant buffer[..] == stream[..received] + before[received..]
    {
      ghost var now := buffer[..];
      var result := socket.Recv(buffer, received, n - received);
      if result == 0 {
        assert received == |stream|;
        return false;
      }
      assert buffer[..] == now[..received] + stream[received..][..result] + now[received + result..];
      ReadStep(before, stream, now, received, result);
      received := received + result;
    }
    ok := true;
  }

  lemma ReadStep(before: seq<byte>, stream: seq<byte>, now: seq<byte>, k: nat, result: nat)
    requires k + result <= |stream| && k + result <= |before| && now == stream[..k] + before[k..]
    ensures stream[k..][result..] == stream[k + result..]
    ensures now[..k] + stream[k..][..result] + now[k + result..] == stream[..k + result] + before[k + result..]
  {
    assert now[..k] == stream[..k] && now[k + result..] == before[k + result..];
    assert stream[..k] + stream[k..][..result] == stream[..k + result];
  }

  method ReadData32(socket: Socket) returns (ok: bool, data: uint32)
    modifies socket`inbound, socket`calls
    ensures ok <==> 4 <= |old(socket.inbound)|
    ensures ok ==> data == Unwire(old(socket.inbound)[..4])
    ensures socket.inbound == old(socket.inbound)[Available(old(socket.inbound), 4)..]
  {
    var buffer := new byte[4];
    ok := ReadBytes(socket, buffer, 4);
    data := 0;
    if ok {
      assert buffer[..] == old(socket.inbound)[..4];
      data := Swap(Load(buffer[..]));
    }
  }

  /** What read_multiple_bytes leaves in the stream. */
  function AfterBlock(stream: seq<byte>, max: uint32): seq<byte> {
    if |stream| < 4 then []
    else if Unwire(stream[..4]) > max then stream[4..]
    else stream[4..][Available(stream[4..], Unwire(stream[..4]))..]
  }

  method ReadMultipleBytes(socket: Socket, buffer: array<byte>, max: uint32) returns (ok: bool, length: uint32)
    requires max <= buffer.Length
    modifies socket`inbound, socket`calls, buffer
    ensures socket.inbound == AfterBlock(old(socket.inbound), max)
    ensures var stream := old(socket.inbound);
            && (ok <==> 4 <= |stream| && Unwire(stream[..4]) <= max && 4 + Unwire(stream[..4]) <= |stream|)
            && (ok ==> length == Unwire(stream[..4]) && buffer[..] == stream[4..4 + length] + old(buffer[length..]))
  {
    ok, length := ReadData32(socket);
    if !ok {
      return;
    }
    SwapTwice(length);
    length := Swap(length);
    length := Swap(length);
    if length > max {
      return false, length;
    }
    if length == 0 {
      return true, length;
    }
    ok := ReadBytes(socket, buffer, length);
    assert ok ==> old(socket.inbound)[4..][..length] == old(socket.inbound)[4..4 + length];
  }

  /** `capacity` is a size_t that the code narrows to 32 bits. */
  function Narrow(capacity: nat): uint32 {
    if capacity < 0x1_0000_0000 then capacity else capacity % 0x1_0000_0000
  }

  /** The low 32 bits: what is lost is a multiple of 2^32. */
  lemma NarrowBound(capacity: nat)
    ensures Narrow(capacity) <= capacity
    ensures exists q: nat :: capacity == q * 0x1_0000_0000 + Narrow(capacity)
  {
    assert capacity == (capacity / 0x1_0000_0000) * 0x1_0000_0000 + Narrow(capacity);
  }

  /** The message is in the out-parameters and at the start of the buffer. */
  predicate Stored(m: Message, command: uint32, size: nat, buffer: seq<byte>, before: seq<byte>) {
    command == m.command && size == |m.payload| <= |before| && buffer == m.payload + before[size..]
  }

  method ReceivePlatformMessage(socket: Socket, transport: uint32, buffer: array<byte>, capacity: nat)
    returns (ok: bool, command: uint32, size: nat)
    requires capacity <= buffer.Length
    modifies socket`inbound, socket`calls, buffer
    ensures var r := Receive(old(socket.inbound), transport, Narrow(capacity));
            && (ok <==> r.Received?) && socket.inbound == r.rest
            && (ok ==> Stored(r.message, command, size, buffer[..], old(buffer[..])))
    ensures !ok ==> size == capacity
  {
    ghost var stream := socket.inbound;
    size := capacity;
    NarrowBound(capacity);
    ok, command := ReadData32(socket);
    if !ok {
      return;
    }
    var t;
    ok, t := ReadData32(socket);
    if !ok {
      return;
    }
    assert stream[4..][..4] == stream[4..8] && stream[4..][4..] == stream[8..];
    SwapTwice(t);
    t := Swap(t);
    t := Swap(t);
    if t != transport {
      return false, command, size;
    }
    var length;
    ok, length := ReadMultipleBytes(socket, buffer, Narrow(capacity));
    BlockInStream(stream, Narrow(capacity));
    if ok {
      size := length;
    }
  }

  lemma BlockInStream(stream: seq<byte>, max: uint32)
    requires |stream| >= 8
    ensures |stream| >= 12 ==> stream[8..][..4] == stream[8..12]
    ensures |stream| >= 12 ==>
              var n := Unwire(stream[8..12]);
              && AfterBlock(stream[8..], max)
              == (if n > max then stream[12..] else if |stream| < 12 + n then [] else stream[12 + n..])
              && (12 + n <= |stream| ==> stream[8..][4..4 + n] == stream[12..12 + n])
  {
    if |stream| >= 12 {
      var tail, n := stream[8..], Unwire(stream[8..12]);
      assert tail[..4] == stream[8..12] && tail[4..] == stream[12..];
      if 12 + n <= |stream| {
        assert stream[12..][n..] == stream[12 + n..];
        assert tail[4..4 + n] == stream[12..12 + n];
      } else {
        assert stream[12..][|stream| - 12..] == [];
      }
    }
  }

  // ----- Sending -----

  /** A write of `data`: how much goes out depends on the room left. */
  predicate Pushed(out: seq<byte>, room: nat, out': seq<byte>, room': nat, data: seq<byte>, ok: bool) {
    && (ok <==> |data| <= room)
    && out' == out + data[..Min(|data|, room)]
    && room' == room - Min(|data|, room)
  }

  lemma PushedFailed(out: seq<byte>, room: nat, out': seq<byte>, room': nat, data: seq<byte>, more: seq<byte>)
    requires Pushed(out, room, out', room', data, false)
    ensures Pushed(out, room, out', room', data + more, false)
  {
    assert (data + more)[..room] == data[..room];
  }

  lemma PushedBoth(out: seq<byte>, room: nat, out': seq<byte>, room': nat, out'': seq<byte>, room'': nat,
                   data: seq<byte>, more: seq<byte>, ok: bool)
    requires Pushed(out, room, out', room', data, true) && Pushed(out', room', out'', room'', more, ok)
    ensures Pushed(out, room, out'', room'', data + more, ok)
  {
    TakeAcross(data, more, Min(|data + more|, room));
    Assoc(out, data, more[..Min(|more|, room')]);
  }

  method WriteBytes(socket: Socket, data: seq<byte>) returns (ok: bool)
    modifies socket`outbound, socket`room, socket`calls
    ensures Pushed(old(socket.outbound), old(socket.room), socket.outbound, socket.room, data, ok)
  {
    ghost var before, room := socket.outbound, socket.room;
    var sent := 0;
    while sent < |data|
      invariant sent <= |data| && sent <= room
      invariant socket.outbound == before + data[..sent] && socket.room == room - sent
    {
      var result := socket.Send(data[sent..]);
      if result == -1 {
        return false;
      }
      assert data[..sent + result] == data[..sent] + data[sent..][..result];
      sent := sent + result;
    }
    ok := true;
  }

  method WriteData32(socket: Socket, data: uint32) returns (ok: bool)
    modifies socket`outbound, socket`room, socket`calls
    ensures Pushed(old(socket.outbound), old(socket.room), socket.outbound, socket.room, Wire(data), ok)
  {
    ok := WriteBytes(socket, LittleEndian(Swap(data), 4));
  }

  method WriteMultipleBytes(socket: Socket, data: seq<byte>, n: uint32) returns (ok: bool)
    requires n <= |data|
    modifies socket`outbound, socket`room, socket`calls
    ensures Pushed(old(socket.outbound), old(socket.room), socket.outbound, socket.room, Wire(n) + data[..n], ok)
  {
    ghost var out, room := socket.outbound, socket.room;
    ok := WriteData32(socket, n);
    if !ok {
      PushedFailed(out, room, socket.outbound, socket.room, Wire(n), data[..n]);
      return;
    }
    SwapTwice(n);
    var bytesToSend := Swap(n);
    bytesToSend := Swap(bytesToSend);
    ghost var out', room' := socket.outbound, socket.room;
    ok := WriteBytes(socket, data[..bytesToSend]);
    PushedBoth(out, room, out', room', socket.outbound, socket.room, Wire(n), data[..n], ok);
  }

  /** The part of the payload that is sent: its length is narrowed to 32 bits. */
  function Sendable(command: uint32, data: seq<byte>): Message {
    NarrowBound(|data|);
    Message(command, data[..Narrow(|data|)])
  }

  /** Both fields of the fixed part of the header. */
  method WriteFields(socket: Socket, command: uint32, transport: uint32) returns (ok: bool)
    modifies socket`outbound, socket`room, socket`calls
    ensures Pushed(old(socket.outbound), old(socket.room), socket.outbound, socket.room, Wire(command) + Wire(transport), ok)
  {
    ghost var out, room := socket.outbound, socket.room;
    ok := WriteData32(socket, command);
    if !ok {
      PushedFailed(out, room, socket.outbound, socket.room, Wire(command), Wire(transport));
      return;
    }
    ghost var out', room' := socket.outbound, socket.room;
    ok := WriteData32(socket, transport);
    PushedBoth(out, room, out', room', socket.outbound, socket.room, Wire(command), Wire(transport), ok);
  }

  method SendPlatformData(socket: Socket, command: uint32, transport: uint32, data: seq<byte>) returns (ok: bool)
    modifies socket`outbound, socket`room, socket`calls
    ensures Pushed(old(socket.outbound), old(socket.room), socket.outbound, socket.room,
                   Frame(Sendable(command, data), transport), ok)
  {
    ghost var out, room := socket.outbound, socket.room;
    FrameParts(command, transport, data);
    var n := Narrow(|data|);
    ghost var fields, payload := Wire(command) + Wire(transport), Wire(n) + data[..n];
    ok := WriteFields(socket, command, transport);
    if !ok {
      PushedFailed(out, room, socket.outbound, socket.room, fields, payload);
      return;
    }
    ghost var out', room' := socket.outbound, socket.room;
    ok := WriteMultipleBytes(socket, data, n);
    PushedBoth(out, room, out', room', socket.outbound, socket.room, fields, payload, ok);
  }

  lemma FrameParts(command: uint32, transport: uint32, data: seq<byte>)
    ensures var n := Narrow(|data|);
            n <= |data| && Frame(Sendable(command, data), transport) == (Wire(command) + Wire(transport)) + (Wire(n) + data[..n])
  {
    NarrowBound(|data|);
  }

  // ----- A whole conversation -----

  lemma {:induction false} FramesAppend(ms: seq<Message>, more: seq<Message>, transport: uint32)
    ensures Frames(ms + more, transport) == Frames(ms, transport) + Frames(more, transport)
  {
    if ms == [] {
      assert ms + more == more;
    } else {
      assert (ms + more)[1..] == ms[1..] + more;
      FramesAppend(ms[1..], more, transport);
    }
  }

  lemma FramesSplit(ms: seq<Message>, i: nat, transport: uint32)
    requires i < |ms|
    ensures Frames(ms[..i + 1], transport) == Frames(ms[..i], transport) + Frame(ms[i], transport)
    ensures Frames(ms, transport) == Frames(ms[..i], transport) + Frame(ms[i], transport) + Frames(ms[i + 1..], transport)
  {
    assert ms[..i + 1] == ms[..i] + [ms[i]] && [ms[i]][1..] == [];
    FramesAppend(ms[..i], [ms[i]], transport);
    assert ms == ms[..i + 1] + ms[i + 1..];
    FramesAppend(ms[..i + 1], ms[i + 1..], transport);
  }

  lemma SendableWhole(m: Message)
    ensures Sendable(m.command, m.payload) == m
  {
    assert m.payload[..|m.payload|] == m.payload;
  }

  /** Sends until the connection fails. */
  method SendAll(socket: Socket, ms: seq<Message>, transport: uint32) returns (ok: bool)
    modifies socket`outbound, socket`room, socket`calls
    ensures Pushed(old(socket.outbound), old(socket.room), socket.outbound, socket.room, Frames(ms, transport), ok)
  {
    ghost var out, room := socket.outbound, socket.room;
    for i := 0 to |ms|
      invariant Pushed(out, room, socket.outbound, socket.room, Frames(ms[..i], transport), true)
    {
      FramesSplit(ms, i, transport);
      SendableWhole(ms[i]);
      ghost var out', room' := socket.outbound, socket.room;
      ok := SendPlatformData(socket, ms[i].command, transport, ms[i].payload);
      ghost var done, frame := Frames(ms[..i], transport), Frame(ms[i], transport);
      PushedBoth(out, room, out', room', socket.outbound, socket.room, done, frame, ok);
      if !ok {
        PushedFailed(out, room, socket.outbound, socket.room, done + frame, Frames(ms[i + 1..], transport));
        return;
      }
    }
    ok := true;
    assert ms[..|ms|] == ms;
  }

  lemma ReceiveAllStep(got: seq<Message>, stream: seq<byte>, transport: uint32, max: uint32)
    ensures match Receive(stream, transport, max)
            case Failed(_) => got + ReceiveAll(stream, transport, max) == got + []
            case Received(m, rest) => got + ReceiveAll(stream, transport, max) == (got + [m]) + ReceiveAll(rest, transport, max)
  {
    match Receive(stream, transport, max)
    case Failed(_) =>
    case Received(m, rest) => Assoc(got, [m], ReceiveAll(rest, transport, max));
  }

  method ReceiveMany(socket: Socket, transport: uint32, buffer: array<byte>) returns (got: seq<Message>)
    modifies socket`inbound, socket`calls, buffer
    ensures got == ReceiveAll(old(socket.inbound), transport, Narrow(buffer.Length))
  {
    got := [];
    ghost var all := ReceiveAll(socket.inbound, transport, Narrow(buffer.Length));
    var ok := true;
    while ok
      invariant all == got + if ok then ReceiveAll(socket.inbound, transport, Narrow(buffer.Length)) else []
      decreases ok, |socket.inbound|
    {
      ReceivedShrinks(socket.inbound, transport, Narrow(buffer.Length));
      ReceiveAllStep(got, socket.inbound, transport, Narrow(buffer.Length));
      ghost var r := Receive(socket.inbound, transport, Narrow(buffer.Length));
      var command, size;
      ok, command, size := ReceivePlatformMessage(socket, transport, buffer, buffer.Length);
      if ok {
        assert buffer[..size] == r.message.payload;
        got := got + [Message(command, buffer[..size])];
      }
    }
  }

  /**
   * However the calls of both sides are cut into pieces, and wherever the connection breaks, the
   * receiver obtains in order exactly the messages before the first that exceeds its buffer whose
   * frames passed whole; all of them if none does and the connection lasts.
   */
  method Exchange(ms: seq<Message>, transport: uint32, room: nat, sending: nat -> nat, receiving: nat -> nat,
                  buffer: array<byte>)
    returns (got: seq<Message>)
    modifies buffer
    ensures got == ms[..Complete(ms, transport, Narrow(buffer.Length), room)]
    ensures |Frames(ms, transport)| <= room && AllFit(ms, Narrow(buffer.Length)) ==> got == ms
  {
    var sender := new Socket([], room, sending);
    var sent := SendAll(sender, ms, transport);
    var receiver := new Socket(sender.outbound, 0, receiving);
    BrokenStream(ms, transport, Narrow(buffer.Length), room, sender.outbound);
    got := ReceiveMany(receiver, transport, buffer);
  }

  lemma BrokenStream(ms: seq<Message>, transport: uint32, max: uint32, room: nat, stream: seq<byte>)
    requires stream == [] + Frames(ms, transport)[..Min(|Frames(ms, transport)|, room)]
    ensures ReceiveAll(stream, transport, max) == ms[..Complete(ms, transport, max, room)]
    ensures |Frames(ms, transport)| <= room && AllFit(ms, max) ==>
              ms[..Complete(ms, transport, max, room)] == ms
  {
    var all := Frames(ms, transport);
    assert stream == all[..Min(|all|, room)];
    if |all| <= room {
      CompleteBeyond(ms, transport, max, room);
    }
    CutStream(ms, transport, max, Min(|all|, room));
    assert ms[..|ms|] == ms;
    CompleteMeaning(ms, transport, max, room, |ms|);
  }
}
