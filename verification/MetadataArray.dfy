/**
 The growable metadata array (`grpc_metadata_array`), shared by the metadata
 API and by the HPACK decoder.
 */
module Metadata {
  import opened Machine

  /** `key` and `value` are buffers with a terminating NUL behind them. */
  datatype Entry = Entry(key: seq<Byte>, value: seq<Byte>, valueLength: nat)

  const DEFAULT_CAPACITY := 16

  /** The least of `capacity`, 2 * `capacity`, 4 * `capacity`, ... that holds `count` entries. */
  function LeastCapacity(capacity: nat, count: nat): (r: nat)
    requires capacity > 0
    ensures r >= count && r >= capacity
    ensures r == capacity || r < 2 * count
    decreases count - capacity
  {
    if capacity >= count then capacity else LeastCapacity(2 * capacity, count)
  }

  /** One more entry keeps the capacity or doubles it, and doubles it only when full. */
  lemma {:induction false} LeastCapacityStep(capacity: nat, count: nat)
    requires capacity > 0
    ensures LeastCapacity(capacity, count + 1) ==
      (if count < LeastCapacity(capacity, count) then 1 else 2) * LeastCapacity(capacity, count)
    decreases count - capacity
  {
    if capacity < count {
      LeastCapacityStep(2 * capacity, count);
    }
  }

  /** `capacity` doubled `k` times. */
  function Doubled(capacity: nat, k: nat): nat
    decreases k
  {
    if k == 0 then capacity else Doubled(2 * capacity, k - 1)
  }

  lemma {:induction false} DoubledIsShifted(capacity: nat, k: nat)
    ensures Doubled(capacity, k) == capacity * Pow2(k)
    decreases k
  {
    if k > 0 {
      DoubledIsShifted(2 * capacity, k - 1);
      assert 2 * capacity * Pow2(k - 1) == capacity * (2 * Pow2(k - 1));
    }
  }

  /** The capacity is `initial` doubled some number of times, and any fewer doublings hold too little. */
  lemma {:induction false} LeastCapacityIsLeast(initial: nat, count: nat) returns (k: nat)
    requires initial > 0
    ensures LeastCapacity(initial, count) == Doubled(initial, k) >= count
    ensures forall j :: 0 <= j < k ==> Doubled(initial, j) < count
    decreases count - initial
  {
    if initial >= count {
      k := 0;
    } else {
      k := LeastCapacityIsLeast(2 * initial, count);
      k := k + 1;
    }
  }

  class MetadataArray {
    var metadata: array<Entry>
    var count: nat
    var capacity: nat
    ghost var initial: nat  // the capacity the array started with
    ghost var moved: nat    // entries copied by all reallocations so far

    ghost predicate Valid()
      reads this
    {
      && initial > 0
      && count <= capacity == metadata.Length
      && capacity == LeastCapacity(initial, count)
      && moved == capacity - initial
    }

    ghost function Contents(): seq<Entry>
      requires Valid()
      reads this, metadata
    {
      metadata[..count]
    }

    constructor (initialCapacity: nat)
      ensures Valid() && fresh(metadata) && Contents() == []
      ensures initial == if initialCapacity > 0 then initialCapacity else DEFAULT_CAPACITY
    {
      var n := if initialCapacity > 0 then initialCapacity else DEFAULT_CAPACITY;
      count, capacity, initial, moved := 0, n, n, 0;
      metadata := new Entry[n](_ => Entry([], [], 0));
    }

    /** The append shared by both growth sites: a full array is first doubled. */
    method Append(e: Entry)
      requires Valid()
      modifies this, metadata
      ensures Valid() && initial == old(initial)
      ensures metadata == old(metadata) || fresh(metadata)
      ensures Contents() == old(Contents()) + [e]
      // amortised cost: over its whole life the array has moved fewer than two entries per entry added
      ensures moved < 2 * count
    {
      LeastCapacityStep(initial, count);
      if count >= capacity {
        var grown := new Entry[2 * capacity](_ => Entry([], [], 0));
        forall i | 0 <= i < count {
          grown[i] := metadata[i];
        }
        moved := moved + count;
        metadata := grown;
        capacity := 2 * capacity;
      }
      metadata[count] := e;
      count := count + 1;
    }

    method Add(key: seq<Byte>, value: seq<Byte>, valueLen: nat)
      requires Valid() && valueLen <= |value|
      modifies this, metadata
      ensures Valid() && initial == old(initial)
      ensures metadata == old(metadata) || fresh(metadata)
      ensures Contents() == old(Contents()) + [Entry(CString(key), value[..valueLen], valueLen)]
      ensures moved < 2 * count
    {
      Append(Entry(CString(key), value[..valueLen], valueLen));
    }
  }
}
