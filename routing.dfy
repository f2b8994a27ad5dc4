/** The neighbor table and the next-hop selection (src/routing.js). The table is a map from
    alias to entry that remembers insertion order, as a JavaScript Map does; distance is a
    parameter, and the shuffle's random indices come from an oracle. */
module Routing {
  import opened Wrappers
  import opened Crypto
  import Packets

  /** A normalised neighbor entry; `latencyMs` None is null. */
  datatype NeighborEntry = NeighborEntry(
    alias: string,
    address: string,
    coordinates: Coord,
    latencyMs: Option<real>,
    lastSeen: int,
    metadata: Packets.Metadata)

  /** The argument of `add`; None marks an absent property. */
  datatype NeighborInput = NeighborInput(
    alias: Option<string>,
    address: Option<string>,
    coordinates: Option<Coord>,
    latencyMs: Option<real>,
    lastSeen: Option<int>,
    metadata: Option<Packets.Metadata>)

  datatype RoutingError = MissingAlias

  /** The normalisation of `add`, for an input whose alias is set: empty address, zero
      latency and zero lastSeen are falsy and take their defaults. */
  function Normalize(e: NeighborInput, now: int): (n: NeighborEntry)
    requires e.alias.Some?
    ensures n.alias == e.alias.value
    ensures n.address == (if e.address.Some? && e.address.value != "" then e.address.value else e.alias.value)
    ensures n.coordinates == (if e.coordinates.Some? then e.coordinates.value else Origin)
    ensures n.latencyMs.Some? <==> e.latencyMs.Some? && e.latencyMs.value != 0.0
    ensures n.latencyMs.Some? ==> n.latencyMs == e.latencyMs
    ensures n.lastSeen == (if e.lastSeen.Some? && e.lastSeen.value != 0 then e.lastSeen.value else now)
    ensures n.metadata == (if e.metadata.Some? then e.metadata.value else map[])
  {
    NeighborEntry(
      e.alias.value,
      if e.address.Some? && e.address.value != "" then e.address.value else e.alias.value,
      e.coordinates.GetOr(Origin),
      if e.latencyMs.Some? && e.latencyMs.value != 0.0 then e.latencyMs else None,
      if e.lastSeen.Some? && e.lastSeen.value != 0 then e.lastSeen.value else now,
      e.metadata.GetOr(map[]))
  }

  predicate Distinct<T(==)>(s: seq<T>) {
    forall i, j :: 0 <= i < j < |s| ==> s[i] != s[j]
  }

  predicate DistinctAliases(s: seq<NeighborEntry>) {
    forall i, j :: 0 <= i < j < |s| ==> s[i].alias != s[j].alias
  }

  /** The values of `entries` in the order of `keys`. */
  function Values(keys: seq<string>, entries: map<string, NeighborEntry>): (r: seq<NeighborEntry>)
    requires forall k :: k in keys ==> k in entries
    ensures |r| == |keys|
    ensures forall i :: 0 <= i < |keys| ==> r[i] == entries[keys[i]]
  {
    if keys == [] then [] else [entries[keys[0]]] + Values(keys[1..], entries)
  }

  /** `keys` without `k`. */
  function Without(keys: seq<string>, k: string): (r: seq<string>)
    ensures forall x :: x in r <==> x in keys && x != k
    ensures k !in keys ==> r == keys
  {
    if keys == [] then []
    else if keys[0] == k then Without(keys[1..], k)
    else [keys[0]] + Without(keys[1..], k)
  }

  lemma {:induction false} WithoutKeepsDistinct(keys: seq<string>, k: string)
    requires Distinct(keys)
    ensures Distinct(Without(keys, k))
  {
    if keys != [] {
      WithoutKeepsDistinct(keys[1..], k);
      assert keys[0] !in keys[1..] by {
        forall i | 0 <= i < |keys[1..]|
          ensures keys[1..][i] != keys[0]
        {
          assert keys[1..][i] == keys[i + 1];
        }
      }
    }
  }

  class NeighborTable {
    /** The keys of `entries` in insertion order. */
    var order: seq<string>
    var entries: map<string, NeighborEntry>

    ghost predicate Valid()
      reads this
    {
      && Distinct(order)
      && (forall a :: a in entries <==> a in order)
      && (forall a :: a in entries ==> entries[a].alias == a)
    }

    constructor ()
      ensures Valid() && order == [] && entries == map[]
    {
      order := [];
      entries := map[];
    }

    /** list: the entries in insertion order; each alias appears once. */
    function List(): (r: seq<NeighborEntry>)
      reads this
      requires Valid()
      ensures |r| == |entries| && DistinctAliases(r)
      ensures forall e :: e in r <==> e.alias in entries && entries[e.alias] == e
      ensures |r| == |order| && forall i :: 0 <= i < |order| ==> order[i] in entries && r[i] == entries[order[i]]
    {
      DistinctKeysCount(order, entries);
      Values(order, entries)
    }

    /** get: the entry for an alias, or null. */
    function Get(alias: string): (r: Option<NeighborEntry>)
      reads this
      requires Valid()
      ensures r.Some? <==> alias in entries
      ensures r.Some? ==> r.value == entries[alias] && r.value.alias == alias
    {
      if alias in entries then Some(entries[alias]) else None
    }

    /** add: throws without an alias; otherwise stores the normalised entry under its alias,
        replacing an earlier entry in place (its position in the order is kept). */
    method Add(entry: Option<NeighborInput>, now: int) returns (r: Result<NeighborEntry, RoutingError>)
      requires Valid()
      modifies this
      ensures Valid()
      ensures r.Err? <==> entry.None? || entry.value.alias.None? || entry.value.alias.value == ""
      ensures r.Err? ==> r.error == MissingAlias && unchanged(this)
      ensures r.Ok? ==> (r.value == Normalize(entry.value, now)
        && entries == old(entries)[r.value.alias := r.value]
        && order == (if r.value.alias in old(entries) then old(order) else old(order) + [r.value.alias]))
    {
      if entry.None? || entry.value.alias.None? || entry.value.alias.value == "" {
        return Err(MissingAlias);
      }
      var normalized := Normalize(entry.value, now);
      if normalized.alias !in entries {
        order := order + [normalized.alias];
      }
      entries := entries[normalized.alias := normalized];
      r := Ok(normalized);
    }

    /** remove: whether the alias was present; only that entry goes. */
    method Remove(alias: string) returns (removed: bool)
      requires Valid()
      modifies this
      ensures Valid()
      ensures removed <==> alias in old(entries)
      ensures entries == old(entries) - {alias}
      ensures order == Without(old(order), alias)
    {
      removed := alias in entries;
      WithoutKeepsDistinct(order, alias);
      entries := entries - {alias};
      order := Without(order, alias);
    }

    /** updateLatency: null for an unknown alias; otherwise that entry's latency and
        lastSeen change and nothing else does. */
    method UpdateLatency(alias: string, latencyMs: real, now: int) returns (r: Option<NeighborEntry>)
      requires Valid()
      modifies this
      ensures Valid() && order == old(order)
      ensures r.None? <==> alias !in old(entries)
      ensures r.None? ==> entries == old(entries)
      ensures r.Some? ==> (r.value == old(entries)[alias].(latencyMs := Some(latencyMs), lastSeen := now)
        && entries == old(entries)[alias := r.value])
    {
      if alias !in entries {
        return None;
      }
      var updated := entries[alias].(latencyMs := Some(latencyMs), lastSeen := now);
      entries := entries[alias := updated];
      r := Some(updated);
    }
  }

  lemma DistinctKeysCount(keys: seq<string>, entries: map<string, NeighborEntry>)
    requires Distinct(keys) && (forall a :: a in entries <==> a in keys)
    requires forall a :: a in entries ==> entries[a].alias == a
    ensures |entries| == |keys| && DistinctAliases(Values(keys, entries))
    ensures forall e :: e in Values(keys, entries) <==> e.alias in entries && entries[e.alias] == e
  {
    ValuesMembership(keys, entries);
    ValuesDistinctAliases(keys, entries);
    DistinctKeysSize(keys, entries);
  }

  lemma ValuesDistinctAliases(keys: seq<string>, entries: map<string, NeighborEntry>)
    requires Distinct(keys) && (forall k :: k in keys ==> k in entries)
    requires forall a :: a in entries ==> entries[a].alias == a
    ensures DistinctAliases(Values(keys, entries))
  {
    var vs := Values(keys, entries);
    forall i, j | 0 <= i < j < |vs|
      ensures vs[i].alias != vs[j].alias
    {
      assert vs[i].alias == keys[i] && vs[j].alias == keys[j];
    }
  }

  lemma ValuesMembership(keys: seq<string>, entries: map<string, NeighborEntry>)
    requires forall a :: a in entries <==> a in keys
    requires forall a :: a in entries ==> entries[a].alias == a
    ensures forall e :: e in Values(keys, entries) <==> e.alias in entries && entries[e.alias] == e
  {
    var vs := Values(keys, entries);
    forall e: NeighborEntry | e.alias in entries && entries[e.alias] == e
      ensures e in vs
    {
      var i :| 0 <= i < |keys| && keys[i] == e.alias;
      assert vs[i] == e;
    }
  }

  /** A map keyed by exactly the elements of a duplicate-free sequence has as many entries
      as the sequence has elements. */
  lemma {:induction false} DistinctKeysSize<V>(keys: seq<string>, m: map<string, V>)
    requires Distinct(keys) && (forall a :: a in m <==> a in keys)
    ensures |m| == |keys|
  {
    if keys != [] {
      var rest, smaller := keys[1..], m - {keys[0]};
      assert Distinct(rest) by {
        forall i, j | 0 <= i < j < |rest|
          ensures rest[i] != rest[j]
        {
          assert rest[i] == keys[i + 1] && rest[j] == keys[j + 1];
        }
      }
      forall a
        ensures a in smaller <==> a in rest
      {
        if a in rest {
          var i :| 0 <= i < |rest| && rest[i] == a;
          assert keys[i + 1] == a;
        }
        if a in keys && a != keys[0] {
          var i :| 0 <= i < |keys| && keys[i] == a;
          assert rest[i - 1] == a;
        }
      }
      DistinctKeysSize(rest, smaller);
      assert keys[0] in m;
    }
  }

  /** The routing engine's settings. */
  datatype RoutingEngine = RoutingEngine(maxPaths: int, allowRandomFallback: bool)

  datatype RoutingOptions = RoutingOptions(maxPaths: Option<int>, allowRandomFallback: Option<bool>)

  /** The SimpleRoutingEngine constructor: a missing or zero `maxPaths` means 1, and random
      fallback is on unless the option is exactly false. */
  function NewRoutingEngine(opts: RoutingOptions): (e: RoutingEngine)
    ensures e.maxPaths != 0
    ensures opts.maxPaths.None? ==> e.maxPaths == 1
    ensures opts.maxPaths.Some? && opts.maxPaths.value != 0 ==> e.maxPaths == opts.maxPaths.value
    ensures e.allowRandomFallback <==> opts.allowRandomFallback != Some(false)
  {
    RoutingEngine(
      if opts.maxPaths.Some? && opts.maxPaths.value != 0 then opts.maxPaths.value else 1,
      opts.allowRandomFallback != Some(false))
  }

  /** Array slice(0, end): a negative end counts from the back. */
  function Prefix<T>(s: seq<T>, end: int): (r: seq<T>)
    ensures end >= 0 ==> |r| == (if end < |s| then end else |s|)
    ensures end < 0 ==> |r| == (if |s| + end > 0 then |s| + end else 0)
    ensures r == s[..|r|]
  {
    var n := if end >= 0 then (if end < |s| then end else |s|)
             else (if |s| + end > 0 then |s| + end else 0);
    s[..n]
  }

  /** Order by a real key, not decreasing. */
  predicate SortedBy(s: seq<NeighborEntry>, key: NeighborEntry -> real) {
    forall i, j :: 0 <= i < j < |s| ==> key(s[i]) <= key(s[j])
  }

  /** Insert `x` before the first element whose key is not smaller. */
  function Insert(x: NeighborEntry, s: seq<NeighborEntry>, key: NeighborEntry -> real): (r: seq<NeighborEntry>)
    ensures multiset(r) == multiset(s) + multiset{x}
  {
    if s == [] || key(x) <= key(s[0]) then [x] + s
    else
      assert s == [s[0]] + s[1..];
      [s[0]] + Insert(x, s[1..], key)
  }

  lemma InsertMembers(x: NeighborEntry, s: seq<NeighborEntry>, key: NeighborEntry -> real)
    ensures forall e :: e in Insert(x, s, key) <==> e == x || e in s
  {
    var r := Insert(x, s, key);
    forall e
      ensures e in r <==> e == x || e in s
    {
      assert e in r <==> e in multiset(r);
      assert e in s <==> e in multiset(s);
    }
  }

  lemma HeadIsLeast(s: seq<NeighborEntry>, key: NeighborEntry -> real)
    requires s != [] && SortedBy(s, key)
    ensures forall e :: e in s[1..] ==> key(s[0]) <= key(e)
  {
    forall e | e in s[1..]
      ensures key(s[0]) <= key(e)
    {
      var k :| 0 <= k < |s[1..]| && s[1..][k] == e;
      assert s[k + 1] == e;
    }
  }

  lemma {:induction false} InsertKeepsSorted(x: NeighborEntry, s: seq<NeighborEntry>, key: NeighborEntry -> real)
    requires SortedBy(s, key)
    ensures SortedBy(Insert(x, s, key), key)
  {
    if s != [] && key(x) > key(s[0]) {
      var rest := Insert(x, s[1..], key);
      assert Insert(x, s, key) == [s[0]] + rest;
      assert SortedBy(s[1..], key);
      InsertKeepsSorted(x, s[1..], key);
      InsertMembers(x, s[1..], key);
      HeadIsLeast(s, key);
      ConsKeepsSorted(s[0], rest, key);
    }
  }

  lemma ConsKeepsSorted(h: NeighborEntry, s: seq<NeighborEntry>, key: NeighborEntry -> real)
    requires SortedBy(s, key) && forall e :: e in s ==> key(h) <= key(e)
    ensures SortedBy([h] + s, key)
  {
    var r := [h] + s;
    forall i, j | 0 <= i < j < |r|
      ensures key(r[i]) <= key(r[j])
    {
      assert r[j] == s[j - 1];
      if i > 0 {
        assert r[i] == s[i - 1];
      }
    }
  }

  /** The stable sort of Array.prototype.sort with a comparator that subtracts keys. */
  function SortBy(s: seq<NeighborEntry>, key: NeighborEntry -> real): (r: seq<NeighborEntry>)
    ensures multiset(r) == multiset(s)
    ensures SortedBy(r, key)
  {
    if s == [] then []
    else
      assert s == [s[0]] + s[1..];
      InsertKeepsSorted(s[0], SortBy(s[1..], key), key);
      Insert(s[0], SortBy(s[1..], key), key)
  }

  /** Swap two positions. */
  function Swap<T>(s: seq<T>, i: nat, j: nat): (r: seq<T>)
    requires i < |s| && j < |s|
    ensures |r| == |s| && r[i] == s[j] && r[j] == s[i]
    ensures forall k :: 0 <= k < |s| && k != i && k != j ==> r[k] == s[k]
  {
    s[i := s[j]][j := s[i]]
  }

  lemma SwapIsPermutation<T>(s: seq<T>, i: nat, j: nat)
    requires i < |s| && j < |s|
    ensures multiset(Swap(s, i, j)) == multiset(s)
  {
  }

  /** crypto.randomInt(0, i + 1): the oracle's value reduced into [0, i]. */
  function Pick(draw: nat -> nat, i: nat): (j: nat)
    ensures j <= i
  {
    draw(i) % (i + 1)
  }

  /** Every index in [0, i] is the outcome of some draw. */
  lemma PickReachesRange(i: nat, j: nat)
    requires j <= i
    ensures Pick(_ => j, i) == j
  {
  }

  /** Fisher-Yates from position `i` down to 1: position i is swapped with the oracle's
      index reduced into [0, i]. */
  function Shuffled<T>(s: seq<T>, draw: nat -> nat, i: int): (r: seq<T>)
    requires i < |s|
    ensures |r| == |s|
    decreases i
  {
    if i <= 0 then s else Shuffled(Swap(s, i, Pick(draw, i)), draw, i - 1)
  }

  /** The shuffle is a permutation. */
  lemma {:induction false} ShuffledIsPermutation<T>(s: seq<T>, draw: nat -> nat, i: int)
    requires i < |s|
    ensures multiset(Shuffled(s, draw, i)) == multiset(s)
    decreases i
  {
    if i > 0 {
      var t := Swap(s, i, Pick(draw, i));
      assert Shuffled(s, draw, i) == Shuffled(t, draw, i - 1);
      ShuffledIsPermutation(t, draw, i - 1);
      SwapIsPermutation(s, i, Pick(draw, i));
    }
  }

  lemma SwapKeepsDistinctAliases(s: seq<NeighborEntry>, i: nat, j: nat)
    requires i < |s| && j < |s| && DistinctAliases(s)
    ensures DistinctAliases(Swap(s, i, j))
  {
    var r := Swap(s, i, j);
    forall p, q | 0 <= p < q < |r|
      ensures r[p].alias != r[q].alias
    {
      var p' := if p == i then j else if p == j then i else p;
      var q' := if q == i then j else if q == j then i else q;
      assert r[p] == s[p'] && r[q] == s[q'];
    }
  }

  lemma {:induction false} ShuffledKeepsDistinctAliases(s: seq<NeighborEntry>, draw: nat -> nat, i: int)
    requires i < |s| && DistinctAliases(s)
    ensures DistinctAliases(Shuffled(s, draw, i))
    decreases i
  {
    if i > 0 {
      var t := Swap(s, i, Pick(draw, i));
      assert Shuffled(s, draw, i) == Shuffled(t, draw, i - 1);
      SwapKeepsDistinctAliases(s, i, Pick(draw, i));
      ShuffledKeepsDistinctAliases(t, draw, i - 1);
    }
  }

  lemma {:induction false} InsertKeepsDistinctAliases(x: NeighborEntry, s: seq<NeighborEntry>, key: NeighborEntry -> real)
    requires DistinctAliases(s) && forall e :: e in s ==> e.alias != x.alias
    ensures DistinctAliases(Insert(x, s, key))
    ensures forall e :: e in Insert(x, s, key) ==> e == x || e in s
  {
    if s == [] || key(x) <= key(s[0]) {
    } else {
      InsertKeepsDistinctAliases(x, s[1..], key);
      var rest := Insert(x, s[1..], key);
      assert forall e :: e in rest ==> e.alias != s[0].alias;
    }
  }

  lemma {:induction false} SortKeepsDistinctAliases(s: seq<NeighborEntry>, key: NeighborEntry -> real)
    requires DistinctAliases(s)
    ensures DistinctAliases(SortBy(s, key))
    ensures forall e :: e in SortBy(s, key) ==> e in s
  {
    if s != [] {
      SortKeepsDistinctAliases(s[1..], key);
      InsertKeepsDistinctAliases(s[0], SortBy(s[1..], key), key);
    }
  }

  /** shuffle: the in-place Fisher-Yates loop. */
  method ShuffleInPlace<T>(items: array<T>, draw: nat -> nat)
    modifies items
    ensures items[..] == Shuffled(old(items[..]), draw, items.Length - 1)
  {
    var i := items.Length - 1;
    while i > 0
      invariant i < items.Length
      invariant Shuffled(items[..], draw, i) == Shuffled(old(items[..]), draw, items.Length - 1)
      decreases i
    {
      var j := Pick(draw, i);
      ghost var before := items[..];
      items[i], items[j] := items[j], items[i];
      assert items[..] == Swap(before, i, j);
      assert Shuffled(before, draw, i) == Shuffled(items[..], draw, i - 1);
      i := i - 1;
    }
  }

  /** The sort key of selectNextHops: a neighbor's distance to the target. */
  function DistanceTo(distance: (Coord, Coord) -> real, target: Coord): NeighborEntry -> real {
    (n: NeighborEntry) => distance(n.coordinates, target)
  }

  /** neighbors.slice() shuffled in place. */
  method ShuffleCopy(neighbors: seq<NeighborEntry>, draw: nat -> nat) returns (r: seq<NeighborEntry>)
    ensures r == Shuffled(neighbors, draw, |neighbors| - 1)
  {
    var items := new NeighborEntry[|neighbors|](i requires 0 <= i < |neighbors| => neighbors[i]);
    assert items[..] == neighbors;
    ShuffleInPlace(items, draw);
    r := items[..];
  }

  /** The ordering selectNextHops applies before taking the prefix: by distance to the
      target when there is one, else shuffled when fallback is allowed, else insertion order. */
  function Ranked(e: RoutingEngine, neighbors: seq<NeighborEntry>, target: Option<Coord>,
                  distance: (Coord, Coord) -> real, draw: nat -> nat): seq<NeighborEntry>
  {
    if target.Some? then SortBy(neighbors, DistanceTo(distance, target.value))
    else if e.allowRandomFallback then Shuffled(neighbors, draw, |neighbors| - 1)
    else neighbors
  }

  /** The choice of selectNextHops: the first `maxPaths` of the ranking. */
  function Selection(e: RoutingEngine, neighbors: seq<NeighborEntry>, target: Option<Coord>,
                     distance: (Coord, Coord) -> real, draw: nat -> nat): seq<NeighborEntry>
  {
    if neighbors == [] then [] else Prefix(Ranked(e, neighbors, target, distance, draw), e.maxPaths)
  }

  /** selectNextHops over the table's list; the packet argument is not consulted. */
  method SelectNextHops(e: RoutingEngine, table: NeighborTable, target: Option<Coord>,
                        distance: (Coord, Coord) -> real, draw: nat -> nat)
    returns (hops: seq<NeighborEntry>)
    requires table.Valid()
    ensures hops == Selection(e, table.List(), target, distance, draw)
  {
    var neighbors := table.List();
    hops := SelectFrom(e, neighbors, target, distance, draw);
  }

  /** The body of selectNextHops on the listed neighbors: rank, then cut. */
  method SelectFrom(e: RoutingEngine, neighbors: seq<NeighborEntry>, target: Option<Coord>,
                    distance: (Coord, Coord) -> real, draw: nat -> nat)
    returns (hops: seq<NeighborEntry>)
    ensures hops == Selection(e, neighbors, target, distance, draw)
  {
    if |neighbors| == 0 {
      return [];
    }
    var sorted := neighbors;
    if target.Some? {
      sorted := SortBy(neighbors, DistanceTo(distance, target.value));
    } else if e.allowRandomFallback {
      sorted := ShuffleCopy(neighbors, draw);
    }
    assert sorted == Ranked(e, neighbors, target, distance, draw);
    hops := Prefix(sorted, e.maxPaths);
  }

  /** The ranking is a permutation of the neighbors that keeps aliases distinct. */
  lemma RankedIsPermutation(e: RoutingEngine, neighbors: seq<NeighborEntry>, target: Option<Coord>,
                            distance: (Coord, Coord) -> real, draw: nat -> nat)
    requires DistinctAliases(neighbors)
    ensures multiset(Ranked(e, neighbors, target, distance, draw)) == multiset(neighbors)
    ensures DistinctAliases(Ranked(e, neighbors, target, distance, draw))
  {
    if target.Some? {
      SortKeepsDistinctAliases(neighbors, DistanceTo(distance, target.value));
    } else if e.allowRandomFallback && neighbors != [] {
      ShuffledIsPermutation(neighbors, draw, |neighbors| - 1);
      ShuffledKeepsDistinctAliases(neighbors, draw, |neighbors| - 1);
    }
  }

  /** Size and membership on a list: min(maxPaths, n) hops for a positive maxPaths, each a
      member of the list, aliases distinct. */
  lemma SelectionOfList(e: RoutingEngine, neighbors: seq<NeighborEntry>, target: Option<Coord>,
                        distance: (Coord, Coord) -> real, draw: nat -> nat)
    requires DistinctAliases(neighbors)
    ensures var hops := Selection(e, neighbors, target, distance, draw);
      && (e.maxPaths > 0 ==> |hops| == (if e.maxPaths < |neighbors| then e.maxPaths else |neighbors|))
      && DistinctAliases(hops)
      && forall h :: h in hops ==> h in neighbors
  {
    if neighbors != [] {
      RankedIsPermutation(e, neighbors, target, distance, draw);
      var ranked := Ranked(e, neighbors, target, distance, draw);
      assert |ranked| == |multiset(ranked)| == |neighbors|;
      var hops := Selection(e, neighbors, target, distance, draw);
      assert hops == ranked[..|hops|];
      forall h | h in hops
        ensures h in neighbors
      {
        assert h in ranked;
        assert h in multiset(ranked);
      }
    }
  }

  /** Size and membership on the table: an empty table gives no hops; otherwise
      min(maxPaths, n) hops for a positive maxPaths, each a distinct entry of the table. */
  lemma SelectionSize(e: RoutingEngine, table: NeighborTable, target: Option<Coord>,
                      distance: (Coord, Coord) -> real, draw: nat -> nat)
    requires table.Valid()
    ensures var hops := Selection(e, table.List(), target, distance, draw);
      && (table.entries == map[] ==> hops == [])
      && (e.maxPaths > 0 ==> |hops| == (if e.maxPaths < |table.entries| then e.maxPaths else |table.entries|))
      && DistinctAliases(hops)
      && forall h :: h in hops ==> h.alias in table.entries && table.entries[h.alias] == h
  {
    SelectionOfList(e, table.List(), target, distance, draw);
  }

  /** With a target, the hops are in non-decreasing distance and no neighbor left out is
      nearer than any chosen one. */
  lemma SelectionGreedy(e: RoutingEngine, neighbors: seq<NeighborEntry>, target: Coord,
                        distance: (Coord, Coord) -> real, draw: nat -> nat)
    requires neighbors != []
    ensures var ranked := Ranked(e, neighbors, Some(target), distance, draw);
      var hops := Selection(e, neighbors, Some(target), distance, draw);
      && multiset(ranked) == multiset(neighbors)
      && hops == ranked[..|hops|]
      && (forall i, j :: 0 <= i < j < |hops| ==> distance(hops[i].coordinates, target) <= distance(hops[j].coordinates, target))
      && (forall h, u :: h in hops && u in ranked[|hops|..] ==> distance(h.coordinates, target) <= distance(u.coordinates, target))
  {
    var key := DistanceTo(distance, target);
    var ranked := Ranked(e, neighbors, Some(target), distance, draw);
    var hops := Selection(e, neighbors, Some(target), distance, draw);
    assert SortedBy(ranked, key);
    forall h, u | h in hops && u in ranked[|hops|..]
      ensures key(h) <= key(u)
    {
      var i :| 0 <= i < |hops| && hops[i] == h;
      var j :| 0 <= j < |ranked[|hops|..]| && ranked[|hops|..][j] == u;
      assert ranked[i] == h && ranked[|hops| + j] == u;
    }
  }

  /** Without a target and with fallback off, the hops are the first maxPaths entries in
      insertion order. */
  lemma SelectionInsertionOrder(e: RoutingEngine, table: NeighborTable, distance: (Coord, Coord) -> real, draw: nat -> nat)
    requires table.Valid() && !e.allowRandomFallback
    ensures Selection(e, table.List(), None, distance, draw) == Prefix(table.List(), e.maxPaths)
  {
  }
}
