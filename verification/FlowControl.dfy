/** HTTP/2 flow control (section 6.9 of RFC 7540) on `int32_t` windows. */
module FlowControl {
  import opened Machine
  import opened FrameCodec
  import opened Http2

  /** 50 percent of the default window, in C integer arithmetic. */
  const THRESHOLD := DEFAULT_WINDOW * 50 / 100

  // ----- the arithmetic of one window -----

  function AddCredit(window: Int32, increment: U32): Int32 {
    ToInt32(window + increment)
  }

  function Spend(window: Int32, dataLen: nat): Int32 {
    ToInt32(window - dataLen)
  }

  predicate MaySend(connWindow: Int32, streamWindow: Int32, dataLen: nat) {
    ToInt32(dataLen) <= connWindow && ToInt32(dataLen) <= streamWindow
  }

  /** A local window after accepting `n` bytes, and the increment announced for it (0: none). */
  datatype Charge = Charge(window: Int32, credit: nat)

  function Accept(window: Int32, n: nat): Charge
    requires n <= window
  {
    if window - n < THRESHOLD then Charge(DEFAULT_WINDOW, DEFAULT_WINDOW - (window - n)) else Charge(window - n, 0)
  }

  /** Outcome of receiving DATA: both charges when accepted; `conn` alone when the stream window is short. */
  datatype Receipt = Accepted(conn: Charge, stream: Charge) | StreamShort(conn: Charge) | Refused

  function Receive(connWindow: Int32, streamWindow: Int32, dataLen: nat): Receipt {
    var n := ToInt32(dataLen);
    if n < 0 || n > DEFAULT_WINDOW || connWindow < n then Refused
    else if streamWindow < n then StreamShort(Accept(connWindow, n))
    else Accepted(Accept(connWindow, n), Accept(streamWindow, n))
  }

  predicate Healthy(window: int) {
    THRESHOLD <= window <= DEFAULT_WINDOW
  }

  /** A local window after `n` bytes: put back to 65535 when less than 32767 is left. */
  function LeftOf(window: int, n: int): int {
    if window - n < 32767 then 65535 else window - n
  }

  /** `window` charged with `n` bytes, and what it was put up by announced. */
  predicate Charged(window: int, n: int, c: Charge) {
    c.window == LeftOf(window, n) && c.credit == c.window - (window - n)
  }

  /**
   Which DATA is accepted, for all windows, and what it is charged to: both windows have to cover a
   length of at most 65535; where only the connection's does, the call fails with that one charged.
   */
  lemma ReceiveOutcome(connWindow: Int32, streamWindow: Int32, dataLen: nat, n: Int32)
    requires (dataLen - n) % TWO32 == 0
    ensures var r := Receive(connWindow, streamWindow, dataLen);
      && (r.Refused? <==> n < 0 || n > 65535 || n > connWindow)
      && (r.Accepted? <==> 0 <= n <= 65535 && n <= connWindow && n <= streamWindow)
      && (!r.Refused? ==> Charged(connWindow, n, r.conn))
      && (r.Accepted? ==> Charged(streamWindow, n, r.stream))
  {
    SameCast(dataLen, n);
  }

  /** The cast is the one `int32_t` with the same residue. */
  lemma SameCast(dataLen: nat, n: Int32)
    requires (dataLen - n) % TWO32 == 0
    ensures ToInt32(dataLen) == n
  {
    assert dataLen == n + (dataLen - n) / TWO32 * TWO32;
  }

  /**
   Whatever the peer sends, and also when the call fails half way, healthy local windows stay in
   [32767, 65535], and an announced increment lies in [32769, 65535] and brings the window back to 65535.
   */
  lemma ReceiveKeepsHealthy(connWindow: Int32, streamWindow: Int32, dataLen: nat)
    requires Healthy(connWindow) && Healthy(streamWindow)
    ensures match Receive(connWindow, streamWindow, dataLen)
      case Accepted(c, s) =>
        && Restored(connWindow, ToInt32(dataLen), c) && Restored(streamWindow, ToInt32(dataLen), s)
      case StreamShort(c) => Restored(connWindow, ToInt32(dataLen), c)
      case Refused => true
  {
  }

  /** The lengths that no healthy receiver ever refuses are exactly those whose `int32_t` cast lies in [0, 32767]. */
  lemma AlwaysAcceptedIff(dataLen: nat)
    ensures (forall c: Int32, s: Int32 :: Healthy(c) && Healthy(s) ==> Receive(c, s, dataLen).Accepted?)
      <==> 0 <= ToInt32(dataLen) <= THRESHOLD
  {
    if !(0 <= ToInt32(dataLen) <= THRESHOLD) {
      assert Healthy(THRESHOLD) && !Receive(THRESHOLD, THRESHOLD, dataLen).Accepted?;
    }
  }

  predicate Restored(window: int, n: int, c: Charge) {
    && Healthy(c.window)
    && c.window == window - n + c.credit
    && (c.credit == 0 || (32769 <= c.credit <= 65535 && c.window == 65535))
  }

  /**
   Section 6.9.1 of RFC 7540 forbids a window above 2^31 - 1. The overflow tests of the source
   compare an `int32_t` with 0x7FFFFFFF and never fire: the sum is right exactly when it does not
   exceed 2^31 - 1, and otherwise it has wrapped to a negative window.
   */
  lemma CreditExact(window: Int32, increment: U32)
    requires 0 < increment <= INT_MAX
    ensures AddCredit(window, increment) == window + increment <==> window + increment <= INT_MAX
    ensures window + increment > INT_MAX ==> AddCredit(window, increment) == window + increment - TWO32 < 0
  {
  }

  /** The subtraction is modulo 2^32, so right exactly while an `int32_t` can hold the result. */
  lemma SpendExact(window: Int32, dataLen: nat)
    ensures Spend(window, dataLen) % TWO32 == (window - dataLen) % TWO32
    ensures Spend(window, dataLen) == window - dataLen <==> window - dataLen >= -0x8000_0000
  {
  }

  /** The comparison of the cast length is the one intended. */
  predicate SendTestRight(connWindow: Int32, streamWindow: Int32, dataLen: nat) {
    MaySend(connWindow, streamWindow, dataLen) == (dataLen <= connWindow && dataLen <= streamWindow)
  }

  /**
   The lengths for which the test is right at every pair of windows in [0, 65535]: those below
   2^31, and those whose cast exceeds 65535.
   */
  lemma SendTestRightIff(dataLen: nat)
    ensures (forall c: Int32, s: Int32 :: 0 <= c <= DEFAULT_WINDOW && 0 <= s <= DEFAULT_WINDOW ==> SendTestRight(c, s, dataLen))
      <==> dataLen <= INT_MAX || ToInt32(dataLen) > DEFAULT_WINDOW
  {
    if dataLen > INT_MAX && ToInt32(dataLen) <= DEFAULT_WINDOW {
      assert !SendTestRight(DEFAULT_WINDOW, DEFAULT_WINDOW, dataLen);
    }
  }

  // ----- the operations on a connection -----

  method SendWindowUpdate(conn: Connection, streamId: U32, increment: U32) returns (r: int)
    modifies conn`wire
    ensures r == if conn.socketOpen && 0 < increment <= INT_MAX then 0 else -1
    ensures conn.wire == old(conn.wire) + if r == 0 then EncodeFrame(WindowUpdateFrame(streamId, increment)) else []
  {
    hide EncodeFrame;
    if increment == 0 || increment > INT_MAX {
      return -1;
    }
    var f := WindowUpdateFrame(streamId, increment);
    assert f.payload[..4] == f.payload;
    r := conn.SendFrame(f.header, Some(f.payload));
  }

  ghost predicate FirstWithId(table: seq<Stream?>, i: nat, id: U32)
    requires i < |table| && null !in table
  {
    table[i].id == id && forall j :: 0 <= j < i ==> table[j].id != id
  }

  /** Only the window named by the frame changes: the connection's for id 0, else that of the first stream with the id. */
  method ReceiveWindowUpdate(conn: Connection, streamId: U32, increment: U32) returns (r: int)
    requires conn.Valid()
    modifies conn`remoteWindow, conn.Table()
    ensures r == if 0 < increment <= INT_MAX then 0 else -1
    ensures conn.remoteWindow ==
      if r == 0 && streamId == 0 then AddCredit(old(conn.remoteWindow), increment) else old(conn.remoteWindow)
    ensures forall i :: 0 <= i < |conn.Table()| ==>
      && conn.Table()[i].localWindow == old(conn.Table()[i].localWindow)
      && conn.Table()[i].remoteWindow ==
        if r == 0 && streamId != 0 && FirstWithId(conn.Table(), i, streamId)
        then AddCredit(old(conn.Table()[i].remoteWindow), increment) else old(conn.Table()[i].remoteWindow)
  {
    hide AddCredit;
    if increment == 0 || increment > INT_MAX {
      return -1;
    }
    if streamId == 0 {
      conn.remoteWindow := AddCredit(conn.remoteWindow, increment);
      return 0;
    }
    ghost var table := conn.Table();
    var i := 0;
    while i < conn.streamsCount && conn.streams[i].id != streamId
      invariant 0 <= i <= conn.streamsCount
      invariant forall j :: 0 <= j < i ==> table[j].id != streamId
    {
      i := i + 1;
    }
    if i < conn.streamsCount {
      assert table[i] == conn.streams[i];
      conn.streams[i].remoteWindow := AddCredit(conn.streams[i].remoteWindow, increment);
    }
    return 0;
  }

  method CanSend(conn: Connection, stream: Stream, dataLen: nat) returns (r: int)
    ensures r == if MaySend(conn.remoteWindow, stream.remoteWindow, dataLen) then 1 else 0
    ensures r == 1 <==> ToInt32(dataLen) <= conn.remoteWindow && ToInt32(dataLen) <= stream.remoteWindow
    ensures dataLen <= INT_MAX ==> (r == 1 <==> dataLen <= conn.remoteWindow && dataLen <= stream.remoteWindow)
  {
    var connWindow := conn.remoteWindow;
    var streamWindow := stream.remoteWindow;
    if ToInt32(dataLen) <= connWindow && ToInt32(dataLen) <= streamWindow {
      return 1;
    }
    return 0;
  }

  method ConsumeSendWindow(conn: Connection, stream: Stream, dataLen: nat)
    modifies conn`remoteWindow, stream`remoteWindow
    ensures conn.remoteWindow == Spend(old(conn.remoteWindow), dataLen)
    ensures stream.remoteWindow == Spend(old(stream.remoteWindow), dataLen)
  {
    conn.remoteWindow := ToInt32(conn.remoteWindow - dataLen);
    stream.remoteWindow := ToInt32(stream.remoteWindow - dataLen);
  }

  /**
   The result and the new windows are those of `Receive`. An increment is announced on the wire
   when the socket is open; the window is restored whether or not the announcement was sent.
   */
  method ConsumeRecvWindow(conn: Connection, stream: Stream, dataLen: nat) returns (r: int)
    modifies conn`localWindow, conn`wire, stream`localWindow
    ensures match Receive(old(conn.localWindow), old(stream.localWindow), dataLen)
      case Refused =>
        && r == -1 && conn.localWindow == old(conn.localWindow) && stream.localWindow == old(stream.localWindow)
        && conn.wire == old(conn.wire)
      case StreamShort(c) =>
        && r == -1 && conn.localWindow == c.window && stream.localWindow == old(stream.localWindow)
        && conn.wire == old(conn.wire)
             + (if conn.socketOpen && c.credit > 0 then EncodeFrame(WindowUpdateFrame(0, c.credit)) else [])
      case Accepted(c, s) =>
        && r == 0 && conn.localWindow == c.window && stream.localWindow == s.window
        && conn.wire == old(conn.wire)
             + (if conn.socketOpen && c.credit > 0 then EncodeFrame(WindowUpdateFrame(0, c.credit)) else [])
             + (if conn.socketOpen && s.credit > 0 then EncodeFrame(WindowUpdateFrame(stream.id, s.credit)) else [])
  {
    hide EncodeFrame, WindowUpdateFrame;
    var n := ToInt32(dataLen);
    if n < 0 || n > DEFAULT_WINDOW {
      return -1;
    }
    if conn.localWindow < n {
      return -1;
    }
    conn.localWindow := conn.localWindow - n;
    if conn.localWindow < THRESHOLD {
      var increment := DEFAULT_WINDOW - conn.localWindow;
      var _ := SendWindowUpdate(conn, 0, increment);
      conn.localWindow := DEFAULT_WINDOW;
    }
    if stream.localWindow < n {
      return -1;
    }
    stream.localWindow := stream.localWindow - n;
    if stream.localWindow < THRESHOLD {
      var increment := DEFAULT_WINDOW - stream.localWindow;
      var _ := SendWindowUpdate(conn, stream.id, increment);
      stream.localWindow := DEFAULT_WINDOW;
    }
    return 0;
  }
}
