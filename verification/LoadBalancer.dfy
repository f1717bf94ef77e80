/** Load-balancing policies over one list of backend addresses. */
module LoadBalancer {
  import opened Machine

  datatype Address = Address(name: string, weight: int, available: bool)

  predicate SomeAvailable(addrs: seq<Address>) {
    exists i :: 0 <= i < |addrs| && addrs[i].available
  }

  /** The node `d` places after `i`, cyclically. */
  function At(n: nat, i: nat, d: nat): (r: nat)
    requires i < n && d < n
    ensures r < n
  {
    if i + d < n then i + d else i + d - n
  }

  /** The first available node at or cyclically after `start`, or -1. */
  function NextAvailable(addrs: seq<Address>, start: nat): (r: int)
    requires start < |addrs|
    ensures r == -1 <==> !SomeAvailable(addrs)
    ensures r != -1 ==> 0 <= r < |addrs| && addrs[r].available
  {
    var d := FirstFrom(addrs, start, 0);
    if d == |addrs| then NoneFrom(addrs, start); -1 else At(|addrs|, start, d)
  }

  /** The least distance from `start`, not below `d`, at which a node is available; the length if none. */
  function FirstFrom(addrs: seq<Address>, start: nat, d: nat): (r: nat)
    requires start < |addrs| && d <= |addrs|
    ensures d <= r <= |addrs|
    ensures r < |addrs| ==> addrs[At(|addrs|, start, r)].available
    ensures forall e :: d <= e < r ==> !addrs[At(|addrs|, start, e)].available
    decreases |addrs| - d
  {
    if d == |addrs| || addrs[At(|addrs|, start, d)].available then d else FirstFrom(addrs, start, d + 1)
  }

  lemma NoneFrom(addrs: seq<Address>, start: nat)
    requires start < |addrs| && forall e :: 0 <= e < |addrs| ==> !addrs[At(|addrs|, start, e)].available
    ensures !SomeAvailable(addrs)
  {
    forall i | 0 <= i < |addrs| ensures !addrs[i].available {
      var e := if start <= i then i - start else i + |addrs| - start;
      assert At(|addrs|, start, e) == i;
    }
  }

  /** Total weight of the available nodes. */
  function TotalWeight(addrs: seq<Address>): int {
    if addrs == [] then 0
    else TotalWeight(addrs[..|addrs| - 1]) + ShareOf(addrs[|addrs| - 1])
  }

  function ShareOf(a: Address): int {
    if a.available then a.weight else 0
  }

  /** The node whose interval of the cumulative weights contains `r`, or -1. */
  function WeightedAt(addrs: seq<Address>, r: int, i: nat): (k: int)
    requires i <= |addrs|
    ensures k == -1 || i <= k < |addrs|
    decreases |addrs| - i
  {
    if i == |addrs| then -1
    else if addrs[i].available && TotalWeight(addrs[..i + 1]) > r then i
    else WeightedAt(addrs, r, i + 1)
  }

  function FindName(addrs: seq<Address>, name: string): (i: nat)
    ensures i <= |addrs| && (i < |addrs| ==> addrs[i].name == name)
    ensures forall j :: 0 <= j < i ==> addrs[j].name != name
  {
    if addrs == [] || addrs[0].name == name then 0 else 1 + FindName(addrs[1..], name)
  }

  /** A picked node is given by its position in the list; -1 stands for NULL. */
  class Policy {
    var addresses: seq<Address>
    var addressCount: nat
    var currentIndex: nat

    /** The counter matches the list, the round-robin position is in it, and every weight is positive. */
    ghost predicate Valid()
      reads this
    {
      && addressCount == |addresses|
      && (if addressCount == 0 then currentIndex == 0 else currentIndex < addressCount)
      && forall i :: 0 <= i < |addresses| ==> addresses[i].weight > 0
    }

    constructor ()
      ensures Valid() && addresses == []
    {
      addresses, addressCount, currentIndex := [], 0, 0;
    }

    method AddAddress(name: string, weight: int)
      requires Valid()
      modifies this`addresses, this`addressCount
      ensures Valid()
      ensures addresses == old(addresses) + [Address(name, if weight > 0 then weight else 1, true)]
    {
      addresses := addresses + [Address(name, if weight > 0 then weight else 1, true)];
      addressCount := addressCount + 1;
    }

    method Mark(name: string, available: bool) returns (r: int)
      requires Valid()
      modifies this`addresses
      ensures Valid() && |addresses| == |old(addresses)|
      ensures forall k :: 0 <= k < |addresses| ==>
        addresses[k] == if k == FindName(old(addresses), name) then old(addresses)[k].(available := available) else old(addresses)[k]
      ensures r == if FindName(old(addresses), name) < |old(addresses)| then 0 else -1
    {
      var i := 0;
      while i < |addresses|
        invariant 0 <= i <= |addresses| && addresses == old(addresses)
        invariant forall j :: 0 <= j < i ==> addresses[j].name != name
      {
        if addresses[i].name == name {
          addresses := addresses[i := addresses[i].(available := available)];
          return 0;
        }
        i := i + 1;
      }
      return -1;
    }

    /** Picks the next available node; the position then advances by one, not past the node picked. */
    method RoundRobinPick() returns (pick: int)
      requires Valid()
      modifies this`currentIndex
      ensures Valid()
      ensures addresses == [] ==> pick == -1
      ensures addresses != [] ==> pick == NextAvailable(addresses, old(currentIndex))
      ensures currentIndex == if pick == -1 then old(currentIndex) else (old(currentIndex) + 1) % |addresses|
    {
      if addresses == [] || addressCount == 0 {
        return -1;
      }
      var attempts := 0;
      var addr := currentIndex;
      while attempts < addressCount
        invariant 0 <= attempts <= addressCount && Valid() && currentIndex == old(currentIndex)
        invariant attempts < addressCount ==> addr == At(|addresses|, currentIndex, attempts)
        invariant FirstFrom(addresses, currentIndex, 0) == FirstFrom(addresses, currentIndex, attempts)
      {
        if addresses[addr].available {
          currentIndex := (currentIndex + 1) % addressCount;
          return addr;
        }
        addr := addr + 1;
        if addr == |addresses| {
          addr := 0;
        }
        attempts := attempts + 1;
      }
      return -1;
    }

    method PickFirst() returns (pick: int)
      ensures pick == -1 <==> !SomeAvailable(addresses)
      ensures pick != -1 ==> 0 <= pick < |addresses| && addresses[pick].available
      ensures forall j :: 0 <= j < pick ==> !addresses[j].available
    {
      var i := 0;
      while i < |addresses|
        invariant 0 <= i <= |addresses|
        invariant forall j :: 0 <= j < i ==> !addresses[j].available
      {
        if addresses[i].available {
          return i;
        }
        i := i + 1;
      }
      return -1;
    }

    /** `draw` is what `rand()` returned. The total must be an `int`: signed overflow is undefined. */
    method WeightedPick(draw: nat) returns (pick: int)
      requires Valid() && TotalWeight(addresses) <= INT_MAX
      ensures pick == if TotalWeight(addresses) == 0 then -1
                      else WeightedAt(addresses, draw % TotalWeight(addresses), 0)
    {
      if addresses == [] || addressCount == 0 {
        return -1;
      }
      var total := AvailableWeight();
      if total == 0 {
        return -1;
      }
      pick := PickAt(draw % total);
    }

    /** The first pass of the weighted pick: the weights of the available nodes, added up. */
    method AvailableWeight() returns (total: nat)
      requires Valid()
      ensures total == TotalWeight(addresses)
    {
      total := 0;
      for i := 0 to |addresses|
        invariant total == TotalWeight(addresses[..i])
      {
        assert addresses[..i + 1][..i] == addresses[..i];
        if addresses[i].available {
          total := total + addresses[i].weight;
        }
      }
      assert addresses[..|addresses|] == addresses;
    }

    /** The second pass: the node at which the weights added up exceed the draw. */
    method PickAt(random: nat) returns (pick: int)
      requires Valid()
      ensures pick == WeightedAt(addresses, random, 0)
    {
      var current := 0;
      for i := 0 to |addresses|
        invariant current == TotalWeight(addresses[..i])
        invariant WeightedAt(addresses, random, 0) == WeightedAt(addresses, random, i)
      {
        assert addresses[..i + 1][..i] == addresses[..i];
        if addresses[i].available {
          current := current + addresses[i].weight;
          if current > random {
            return i;
          }
        }
      }
      return -1;
    }
  }
}
