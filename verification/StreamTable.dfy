/**
 The stream table over whole runs of a client channel: an array with swap-removal and a wrapping
 id counter, against a map keyed by stream id.
 */
module StreamTable {
  import opened Machine
  import opened Http2
  import opened FlowControl
  import opened Runs

  datatype Row = Row(id: U32, window: Int32)

  /** What `Connection` holds: the id counter and, per table slot, the stream's id and send window. */
  datatype Channel = Channel(next: U32, table: seq<Row>)

  datatype Action = CreateCall | DestroyCall(id: U32) | WindowUpdate(id: U32, increment: U32)

  /** The slot of the first row with this id; the length of the table if there is none. */
  function Find(t: seq<Row>, id: U32): (i: nat)
    ensures i <= |t| && (i < |t| ==> t[i].id == id) && forall j :: 0 <= j < i ==> t[j].id != id
  {
    if t == [] || t[0].id == id then 0 else 1 + Find(t[1..], id)
  }

  function Step(c: Channel, x: Action): Channel {
    match x
    case CreateCall => Channel((c.next + 2) % TWO32, c.table + [Row(c.next, DEFAULT_WINDOW)])
    case DestroyCall(id) =>
      var i := Find(c.table, id);
      if i < |c.table| then c.(table := SwapRemove(c.table, i)) else c
    case WindowUpdate(id, increment) =>
      var i := Find(c.table, id);
      if 0 < increment <= INT_MAX && i < |c.table|
      then c.(table := c.table[i := Row(id, AddCredit(c.table[i].window, increment))]) else c
  }

  function Run(c: Channel, xs: seq<Action>): Channel {
    Fold(Step, c, xs)
  }

  function Init(): Channel {
    Channel(1, [])
  }

  // ----- the map -----

  /** The calls created so far, and the send window of each live stream. */
  datatype Calls = Calls(created: nat, live: map<U32, Int32>)

  function IdOf(n: nat): nat {
    2 * n + 1
  }

  function MapStep(s: Calls, x: Action): Calls
    requires IdOf(s.created) < TWO32
  {
    match x
    case CreateCall => Calls(s.created + 1, s.live[IdOf(s.created) := DEFAULT_WINDOW])
    case DestroyCall(id) => s.(live := s.live - {id})
    case WindowUpdate(id, increment) =>
      if 0 < increment <= INT_MAX && id in s.live
      then s.(live := s.live[id := AddCredit(s.live[id], increment)]) else s
  }

  const MAX_CALLS := 0x4000_0000

  function Creations(xs: seq<Action>): nat {
    if xs == [] then 0 else (if xs[0].CreateCall? then 1 else 0) + Creations(xs[1..])
  }

  function MapRun(s: Calls, xs: seq<Action>): (r: Calls)
    requires s.created + Creations(xs) <= MAX_CALLS
    ensures r.created == s.created + Creations(xs)
    decreases |xs|
  {
    if xs == [] then s else MapRun(MapStep(s, xs[0]), xs[1..])
  }

  // ----- the abstraction relation -----

  ghost predicate UniqueIds(t: seq<Row>) {
    forall i, j :: 0 <= i < j < |t| ==> t[i].id != t[j].id
  }

  ghost predicate Represents(t: seq<Row>, live: map<U32, Int32>) {
    && UniqueIds(t)
    && (forall i :: 0 <= i < |t| ==> t[i].id in live && live[t[i].id] == t[i].window)
    && (forall id :: id in live ==> HasId(t, id))
  }

  ghost predicate HasId(t: seq<Row>, id: U32) {
    exists i :: 0 <= i < |t| && t[i].id == id
  }

  /** Ids handed out are odd, below 2^31, and below the counter; the table represents the map. */
  ghost predicate Related(c: Channel, s: Calls) {
    && s.created <= MAX_CALLS && c.next == IdOf(s.created)
    && (forall id :: id in s.live ==> id % 2 == 1 && id < c.next && id < 0x8000_0000)
    && Represents(c.table, s.live)
  }

  lemma AppendRow(t: seq<Row>, live: map<U32, Int32>, row: Row)
    requires Represents(t, live) && row.id !in live
    ensures Represents(t + [row], live[row.id := row.window])
  {
    var u := t + [row];
    assert u[|t|] == row;
    forall id | id in live ensures HasId(u, id) {
      var i :| 0 <= i < |t| && t[i].id == id;
      assert u[i].id == id;
    }
  }

  lemma RemoveRow(t: seq<Row>, live: map<U32, Int32>, i: nat)
    requires Represents(t, live) && i < |t|
    ensures Represents(SwapRemove(t, i), live - {t[i].id})
  {
    var u, last := SwapRemove(t, i), |t| - 1;
    forall id | id in live && id != t[i].id ensures HasId(u, id) {
      var j :| 0 <= j < |t| && t[j].id == id;
      assert u[if j == last then i else j].id == id;
    }
  }

  lemma UpdateRow(t: seq<Row>, live: map<U32, Int32>, i: nat, window: Int32)
    requires Represents(t, live) && i < |t|
    ensures Represents(t[i := Row(t[i].id, window)], live[t[i].id := window])
  {
    var u := t[i := Row(t[i].id, window)];
    forall id | id in live ensures HasId(u, id) {
      var j :| 0 <= j < |t| && t[j].id == id;
      assert u[j].id == id;
    }
  }

  lemma StepRelated(c: Channel, s: Calls, x: Action)
    requires Related(c, s) && (x.CreateCall? ==> s.created < MAX_CALLS)
    ensures Related(Step(c, x), MapStep(s, x))
  {
    hide Represents, AddCredit, SwapRemove, Find;
    match x
    case CreateCall =>
      AppendRow(c.table, s.live, Row(c.next, DEFAULT_WINDOW));
    case DestroyCall(id) =>
      var i := Find(c.table, id);
      if i < |c.table| { RemoveRow(c.table, s.live, i); } else { AbsentRow(c.table, s.live, id); }
    case WindowUpdate(id, increment) =>
      var i := Find(c.table, id);
      if i < |c.table| {
        PresentRow(c.table, s.live, i);
        UpdateRow(c.table, s.live, i, AddCredit(c.table[i].window, increment));
      } else {
        AbsentRow(c.table, s.live, id);
      }
  }

  lemma PresentRow(t: seq<Row>, live: map<U32, Int32>, i: nat)
    requires Represents(t, live) && i < |t|
    ensures t[i].id in live && live[t[i].id] == t[i].window
  {
  }

  lemma AbsentRow(t: seq<Row>, live: map<U32, Int32>, id: U32)
    requires Represents(t, live) && forall j :: 0 <= j < |t| ==> t[j].id != id
    ensures id !in live && live - {id} == live
  {
    assert id in live ==> HasId(t, id);
  }

  lemma {:induction false} RunRelated(c: Channel, s: Calls, xs: seq<Action>)
    requires Related(c, s) && s.created + Creations(xs) <= MAX_CALLS
    ensures Related(Run(c, xs), MapRun(s, xs))
    decreases |xs|
  {
    hide Step;
    if xs != [] {
      StepRelated(c, s, xs[0]);
      hide Related;
      RunRelated(Step(c, xs[0]), MapStep(s, xs[0]), xs[1..]);
    }
  }

  // ----- main results -----

  /**
   For every run of up to 2^30 call creations, destructions and window updates in any order, the
   array holds exactly the live streams with the map's windows, once each, and the ids are the odd
   numbers in order of creation, all below 2^31 (section 5.1.1 of RFC 7540). A run that leaves no
   live call leaves an empty table.
   */
  lemma TableRefinesMap(xs: seq<Action>)
    requires Creations(xs) <= MAX_CALLS
    ensures var c, s := Run(Init(), xs), MapRun(Calls(0, map[]), xs);
      && Represents(c.table, s.live)
      && c.next == IdOf(Creations(xs))
      && (forall id :: id in s.live ==> id % 2 == 1 && id < c.next && id < 0x8000_0000)
      && (s.live == map[] ==> c.table == [])
  {
    RunRelated(Init(), Calls(0, map[]), xs);
    var c, s := Run(Init(), xs), MapRun(Calls(0, map[]), xs);
    assert c.table != [] ==> c.table[0].id in s.live;
  }

  function DestroyAll(ids: seq<U32>): (xs: seq<Action>)
    ensures Creations(xs) == 0
  {
    if ids == [] then [] else
      var rest := DestroyAll(ids[1..]);
      assert ([DestroyCall(ids[0])] + rest)[1..] == rest;
      [DestroyCall(ids[0])] + rest
  }

  lemma {:induction false} DestroyAllLive(s: Calls, ids: seq<U32>)
    requires s.created <= MAX_CALLS
    ensures MapRun(s, DestroyAll(ids)).live == s.live - (set id | id in ids)
    decreases |ids|
  {
    if ids == [] {
      assert s.live - (set id | id in ids) == s.live;
    } else {
      var next := MapStep(s, DestroyCall(ids[0]));
      DestroyAllLive(next, ids[1..]);
      assert DestroyAll(ids)[1..] == DestroyAll(ids[1..]);
      assert (set id | id in ids) == {ids[0]} + (set id | id in ids[1..]);
    }
  }

  lemma NonEmptyTable(c: Channel, s: Calls)
    requires Related(c, s) && c.table != []
    ensures c.table[0].id in s.live
  {
  }

  /** Destroying the calls that are left, in whatever order, empties the table before the channel goes. */
  lemma TeardownEmpties(c: Channel, s: Calls, ids: seq<U32>)
    requires Related(c, s) && forall id :: id in s.live ==> id in ids
    ensures Run(c, DestroyAll(ids)).table == []
  {
    RunRelated(c, s, DestroyAll(ids));
    DestroyAllLive(s, ids);
    hide Related;
    if Run(c, DestroyAll(ids)).table != [] {
      NonEmptyTable(Run(c, DestroyAll(ids)), MapRun(s, DestroyAll(ids)));
    }
  }

  /** The counter after any run, however long: it wraps at 2^32. */
  lemma {:induction false} CounterAfter(c: Channel, n: nat, xs: seq<Action>)
    requires c.next == IdOf(n) % TWO32
    ensures Run(c, xs).next == IdOf(n + Creations(xs)) % TWO32
    decreases |xs|
  {
    if xs != [] {
      NextAfter(c, n, xs[0]);
      hide Step, IdOf;
      CounterAfter(Step(c, xs[0]), if xs[0].CreateCall? then n + 1 else n, xs[1..]);
    }
  }

  lemma NextAfter(c: Channel, n: nat, x: Action)
    requires c.next == IdOf(n) % TWO32
    ensures Step(c, x).next == IdOf(if x.CreateCall? then n + 1 else n) % TWO32
  {
    hide Find, SwapRemove;
  }

  /** The id given to the call after `n` others is valid and unused exactly for the first 2^30 calls. */
  lemma IdValidIff(n: nat)
    ensures IdOf(n) % TWO32 < 0x8000_0000 && (forall m :: 0 <= m < n ==> IdOf(m) % TWO32 != IdOf(n) % TWO32)
      <==> n < MAX_CALLS
  {
    if n >= 2 * MAX_CALLS {
      var m := n - 2 * MAX_CALLS;
      assert IdOf(n) == IdOf(m) + TWO32;
      assert IdOf(m) % TWO32 == IdOf(n) % TWO32;
    }
  }

  // ----- the connection object takes these steps -----

  /** The rows of a pointer table. */
  ghost function RowsOf(table: seq<Stream?>): (rows: seq<Row>)
    requires null !in table
    reads table
    ensures |rows| == |table|
    ensures forall i :: 0 <= i < |rows| ==> rows[i] == Row(table[i].id, table[i].remoteWindow)
  {
    seq(|table|, i requires 0 <= i < |table| reads table => Row(table[i].id, table[i].remoteWindow))
  }

  ghost function View(conn: Connection): Channel
    requires conn.Valid()
    reads conn, conn.streams, conn.Table()
  {
    Channel(conn.nextStreamId, RowsOf(conn.Table()))
  }

  method CreateOn(conn: Connection) returns (s: Stream)
    requires conn.Valid()
    modifies conn`nextStreamId, conn`streams, conn`streamsCount, conn`streamsCapacity, conn.streams
    ensures conn.Valid() && (conn.streams == old(conn.streams) || fresh(conn.streams))
    ensures fresh(s) && conn.Table() == old(conn.Table()) + [s]
    ensures View(conn) == Step(old(View(conn)), CreateCall)
  {
    s := conn.CreateCall();
    assert View(conn).table == old(View(conn).table) + [Row(s.id, s.remoteWindow)];
  }

  /** Removal by pointer is removal by id while ids are unique. */
  method DestroyOn(conn: Connection, s: Stream)
    requires conn.Valid() && s in conn.Table() && UniqueIds(RowsOf(conn.Table()))
    modifies conn`streamsCount, conn.streams
    ensures conn.Valid() && forall t :: t in conn.Table() ==> t in old(conn.Table())
    ensures View(conn) == Step(old(View(conn)), DestroyCall(s.id))
  {
    ghost var table, rows := conn.Table(), RowsOf(conn.Table());
    ghost var i := IndexOf(table, s);
    assert rows[i].id == s.id;
    assert Find(rows, s.id) == i;
    SwapRemoveRemoves(table, i);
    conn.DestroyStream(s);
    assert View(conn).table == SwapRemove(rows, i);
  }

  lemma FirstIsFound(table: seq<Stream?>, id: U32)
    requires null !in table
    ensures forall j :: 0 <= j < |table| ==> (FirstWithId(table, j, id) <==> j == Find(RowsOf(table), id))
  {
    var rows := RowsOf(table);
    assert forall j :: 0 <= j < |rows| ==> rows[j].id == table[j].id;
  }

  lemma UpdatedRows(rows: seq<Row>, after: seq<Row>, id: U32, increment: U32)
    requires |after| == |rows|
    requires forall j :: 0 <= j < |rows| ==>
      after[j] == if 0 < increment <= INT_MAX && j == Find(rows, id)
                  then Row(rows[j].id, AddCredit(rows[j].window, increment)) else rows[j]
    ensures forall next :: Channel(next, after) == Step(Channel(next, rows), WindowUpdate(id, increment))
  {
    hide AddCredit;
    var i := Find(rows, id);
    assert 0 < increment <= INT_MAX && i < |rows| ==> after == rows[i := Row(id, AddCredit(rows[i].window, increment))];
  }

  method UpdateOn(conn: Connection, id: U32, increment: U32)
    requires conn.Valid() && id != 0
    modifies conn`remoteWindow, conn.Table()
    ensures conn.Valid() && conn.Table() == old(conn.Table()) && conn.streams == old(conn.streams)
    ensures View(conn) == Step(old(View(conn)), WindowUpdate(id, increment))
  {
    hide AddCredit, FirstWithId;
    ghost var table, rows := conn.Table(), RowsOf(conn.Table());
    FirstIsFound(table, id);
    hide Find;
    var _ := ReceiveWindowUpdate(conn, id, increment);
    UpdatedRows(rows, RowsOf(table), id, increment);
  }

  /** The stream that a call with this id holds, if there is one. */
  method Lookup(conn: Connection, id: U32) returns (s: Stream?)
    requires conn.Valid()
    ensures s == null <==> Find(RowsOf(conn.Table()), id) == |conn.Table()|
    ensures s != null ==> s in conn.Table() && s.id == id
  {
    ghost var rows := RowsOf(conn.Table());
    for i := 0 to conn.streamsCount
      invariant forall j :: 0 <= j < i ==> rows[j].id != id
    {
      assert conn.streams[i] == conn.Table()[i] && conn.Table()[i] in conn.Table();
      if conn.streams[i].id == id {
        assert rows[i].id == id;
        return conn.streams[i];
      }
    }
    return null;
  }

  /** A new client connection is where the runs start. */
  method NewClient() returns (conn: Connection)
    ensures fresh(conn) && fresh(conn.streams) && conn.Valid() && View(conn) == Init()
  {
    conn := new Connection(true);
    assert RowsOf(conn.Table()) == [];
  }

  /** One action on the object is one step of its view. */
  method Apply(conn: Connection, x: Action)
    requires conn.Valid() && UniqueIds(RowsOf(conn.Table())) && (x.WindowUpdate? ==> x.id != 0)
    modifies conn, conn.streams, conn.Table()
    ensures conn.Valid() && (conn.streams == old(conn.streams) || fresh(conn.streams))
    ensures forall k :: 0 <= k < |conn.Table()| ==> conn.Table()[k] in old(conn.Table()) || fresh(conn.Table()[k])
    ensures View(conn) == Step(old(View(conn)), x)
  {
    hide SwapRemove, AddCredit, Find;
    match x {
      case CreateCall =>
        var _ := CreateOn(conn);
      case DestroyCall(id) =>
        var s := Lookup(conn, id);
        if s != null { DestroyOn(conn, s); }
      case WindowUpdate(id, increment) =>
        UpdateOn(conn, id, increment);
    }
  }

  /** The object itself, over any run of up to 2^30 creations: its pointer table represents the map. */
  method Execute(conn: Connection, xs: seq<Action>)
    requires conn.Valid() && View(conn) == Init() && Creations(xs) <= MAX_CALLS
    requires forall x :: x in xs && x.WindowUpdate? ==> x.id != 0
    modifies conn, conn.streams
    ensures conn.Valid() && View(conn) == Run(Init(), xs)
    ensures Represents(View(conn).table, MapRun(Calls(0, map[]), xs).live)
  {
    hide Step, Represents, SwapRemove, AddCredit;
    var i := 0;
    ghost var calls := Calls(0, map[]);
    assert xs[0..] == xs;
    RelatedAtStart();
    while i < |xs|
      invariant 0 <= i <= |xs| && conn.Valid() && (conn.streams == old(conn.streams) || fresh(conn.streams))
      invariant forall k :: 0 <= k < |conn.Table()| ==> fresh(conn.Table()[k])
      invariant Run(View(conn), xs[i..]) == Run(Init(), xs)
      invariant Related(View(conn), calls) && calls.created + Creations(xs[i..]) <= MAX_CALLS
    {
      assert xs[i..][0] == xs[i] && xs[i..][1..] == xs[i + 1..];
      StepRelated(View(conn), calls, xs[i]);
      RepresentsUnique(View(conn).table, calls.live);
      Apply(conn, xs[i]);
      calls := MapStep(calls, xs[i]);
      i := i + 1;
    }
    assert xs[i..] == [];
    RunRelated(Init(), Calls(0, map[]), xs);
  }

  lemma RelatedAtStart()
    ensures Related(Init(), Calls(0, map[]))
  {
  }

  lemma RepresentsUnique(t: seq<Row>, live: map<U32, Int32>)
    requires Represents(t, live)
    ensures UniqueIds(t)
  {
  }
}
