/** The HTTP/2 connection object: its stream table, its id counter and its side of the socket. */
module Http2 {
  import opened Machine
  import opened FrameCodec

  const DEFAULT_WINDOW := 65535
  const INITIAL_STREAMS := 16

  class Stream {
    const id: U32
    var localWindow: Int32
    var remoteWindow: Int32

    constructor (id: U32)
      ensures this.id == id && localWindow == remoteWindow == 65535
    {
      this.id, localWindow, remoteWindow := id, DEFAULT_WINDOW, DEFAULT_WINDOW;
    }
  }

  ghost predicate Distinct<T>(s: seq<T>) {
    forall i, j :: 0 <= i < j < |s| ==> s[i] != s[j]
  }

  /** Removal by moving the last element into the hole. */
  function SwapRemove<T>(s: seq<T>, i: nat): (r: seq<T>)
    requires i < |s|
  {
    s[i := s[|s| - 1]][..|s| - 1]
  }

  /** Without duplicates, swap-removal takes out exactly the one element and moves no other but the last. */
  lemma SwapRemoveRemoves<T>(s: seq<T>, i: nat)
    requires i < |s| && Distinct(s)
    ensures Distinct(SwapRemove(s, i))
    ensures forall x :: x in SwapRemove(s, i) <==> x in s && x != s[i]
    ensures |SwapRemove(s, i)| == |s| - 1 && forall k :: 0 <= k < |s| - 1 && k != i ==> SwapRemove(s, i)[k] == s[k]
  {
    var r, last := SwapRemove(s, i), |s| - 1;
    forall x | x in s && x != s[i]
      ensures x in r
    {
      var k :| 0 <= k < |s| && s[k] == x;
      assert r[if k == last then i else k] == x;
    }
  }

  function IndexOf<T(==)>(s: seq<T>, x: T): (i: nat)
    requires x in s
    ensures i < |s| && s[i] == x && x !in s[..i]
  {
    if s[0] == x then 0 else 1 + IndexOf(s[1..], x)
  }

  function Removed<T(==)>(s: seq<T>, x: T): seq<T> {
    if x in s then SwapRemove(s, IndexOf(s, x)) else s
  }

  class Connection {
    var nextStreamId: U32
    var streams: array<Stream?>
    var streamsCount: nat
    var streamsCapacity: nat
    var localWindow: Int32
    var remoteWindow: Int32
    var socketOpen: bool
    var wire: seq<Byte>  // everything handed to the socket so far

    ghost predicate Valid()
      reads this, streams
    {
      && 0 < streamsCapacity == streams.Length
      && streamsCount <= streamsCapacity
      && null !in Table() && Distinct(Table())
    }

    /** The streams in the table, in array order. */
    ghost function Table(): seq<Stream?>
      requires streamsCount <= streams.Length
      reads this, streams
    {
      streams[..streamsCount]
    }

    constructor (isClient: bool)
      ensures Valid() && fresh(streams) && Table() == []
      ensures nextStreamId == if isClient then 1 else 2
      ensures localWindow == remoteWindow == 65535 && !socketOpen && wire == []
      ensures streamsCapacity == 16
    {
      nextStreamId := if isClient then 1 else 2;
      streams := new Stream?[INITIAL_STREAMS](_ => null);
      streamsCount, streamsCapacity := 0, INITIAL_STREAMS;
      localWindow, remoteWindow := DEFAULT_WINDOW, DEFAULT_WINDOW;
      socketOpen, wire := false, [];
    }

    method CreateStream(id: U32) returns (s: Stream)
      requires Valid()
      modifies this`streams, this`streamsCount, this`streamsCapacity, streams
      ensures Valid() && (streams == old(streams) || fresh(streams))
      ensures fresh(s) && s.id == id && s.localWindow == s.remoteWindow == 65535
      ensures Table() == old(Table()) + [s]
      ensures streamsCapacity == (if old(streamsCount < streamsCapacity) then 1 else 2) * old(streamsCapacity)
    {
      s := new Stream(id);
      if streamsCount >= streamsCapacity {
        Grow();
      }
      ghost var table := Table();
      streams[streamsCount] := s;
      streamsCount := streamsCount + 1;
      assert Table() == table + [s];
    }

    /** Doubles the room of the table. */
    method Grow()
      requires Valid()
      modifies this`streams, this`streamsCapacity
      ensures Valid() && fresh(streams) && streamsCapacity == 2 * old(streamsCapacity)
      ensures Table() == old(Table())
    {
      var grown := new Stream?[2 * streamsCapacity](_ => null);
      forall i | 0 <= i < streamsCount {
        grown[i] := streams[i];
      }
      assert grown[..streamsCount] == Table();
      streams, streamsCapacity := grown, 2 * streamsCapacity;
    }

    /** Unlinks the stream wherever it stands; its place is taken by the last one. */
    method DestroyStream(s: Stream)
      requires Valid()
      modifies this`streamsCount, streams
      ensures Valid() && Table() == Removed(old(Table()), s)
    {
      hide SwapRemove;
      ghost var table := Table();
      for i := 0 to streamsCount
        invariant s !in table[..i]
      {
        if streams[i] == s {
          SwapRemoveRemoves(table, i);
          Take(i);
          assert i == IndexOf(table, s);
          return;
        }
      }
    }

    method Take(i: nat)
      requires i < streamsCount <= streams.Length
      modifies this`streamsCount, streams
      ensures streamsCount == old(streamsCount) - 1 && Table() == SwapRemove(old(Table()), i)
    {
      streams[i] := streams[streamsCount - 1];
      streamsCount := streamsCount - 1;
    }

    /** Stream allocation in `grpc_channel_create_call`. */
    method CreateCall() returns (s: Stream)
      requires Valid()
      modifies this`nextStreamId, this`streams, this`streamsCount, this`streamsCapacity, streams
      ensures Valid() && (streams == old(streams) || fresh(streams))
      ensures fresh(s) && s.id == old(nextStreamId) && s.localWindow == s.remoteWindow == 65535
      ensures nextStreamId == (old(nextStreamId) + 2) % TWO32
      ensures Table() == old(Table()) + [s]
    {
      var id := nextStreamId;
      nextStreamId := (nextStreamId + 2) % TWO32;
      s := CreateStream(id);
    }

    /** With the socket open the frame is appended to the wire; a NULL payload is `None`. */
    method SendFrame(h: FrameHeader, payload: Option<seq<Byte>>) returns (r: int)
      requires payload.Some? ==> |payload.value| >= h.length
      modifies this`wire
      ensures r == if socketOpen then 0 else -1
      ensures wire == old(wire) + if !socketOpen then [] else if payload.None? then EncodeHeader(h)
                                  else EncodeFrame(Frame(h, payload.value[..h.length]))
    {
      if !socketOpen {
        return -1;
      }
      var b := new Byte[HEADER_SIZE];
      b[0], b[1], b[2] := ByteOf(h.length, 2), ByteOf(h.length, 1), ByteOf(h.length, 0);
      b[3], b[4] := h.kind, h.flags;
      b[5], b[6] := ByteOf(h.streamId, 3) % 0x80, ByteOf(h.streamId, 2);
      b[7], b[8] := ByteOf(h.streamId, 1), ByteOf(h.streamId, 0);
      assert b[..] == EncodeHeader(h);
      wire := wire + b[..];
      if h.length > 0 && payload.Some? {
        wire := wire + payload.value[..h.length];
      }
      return 0;
    }
  }
}
