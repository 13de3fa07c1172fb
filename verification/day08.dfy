/**
 * Day08: junction boxes joined into circuits, closest pairs first. Part one makes a fixed number of
 * connections and multiplies the sizes of the three largest circuits; part two connects until one
 * circuit holds every box and multiplies the x coordinates of the pair that completed it.
 */
module Day08 {
  import opened Common
  import opened Day08Distances
  import opened Day08Circuits

  // ---------------------------------------------------------------------------
  // Consuming the distance map

  /** On disjoint circuits, connecting a and b joins them and adds exactly them to the boxes placed. */
  lemma ConnectFacts(s: seq<Circuit>, a: Box, b: Box)
    ensures Disjoint(s) ==> IsAlreadyConnected(Connect(s, a, b), a, b)
    ensures Disjoint(s) ==> UnionAll(Connect(s, a, b)) == UnionAll(s) + {a, b}
  {
    if Disjoint(s) {
      ConnectJoins(s, a, b);
      ConnectUnion(s, a, b);
    }
  }

  /**
   * One polled pair: connected unless its boxes already share a circuit. Either way the two boxes
   * end up in one circuit, and the boxes placed grow by exactly those two.
   */
  function Step(s: seq<Circuit>, pair: Pair): (r: seq<Circuit>)
    ensures Disjoint(s) ==> IsAlreadyConnected(r, pair.0, pair.1)
    ensures Disjoint(s) ==> UnionAll(r) == UnionAll(s) + {pair.0, pair.1}
  {
    if IsAlreadyConnected(s, pair.0, pair.1) then s
    else
      ConnectFacts(s, pair.0, pair.1);
      Connect(s, pair.0, pair.1)
  }

  /**
   * Part one's loop: entries polled while the budget lasts, each one counted, connected or not;
   * it consumes exactly min(budget, number of entries) entries.
   */
  function ConnectUpTo(s: seq<Circuit>, entries: Entries, budget: nat): (r: seq<Circuit>)
    ensures r == ConnectAll(s, entries[..Min(budget, |entries|)])
    decreases |entries|
  {
    if budget == 0 || entries == [] then
      assert entries[..Min(budget, |entries|)] == [];
      s
    else
      var taken := entries[..Min(budget, |entries|)];
      assert taken[0] == entries[0];
      assert taken[1..] == entries[1..][..Min(budget - 1, |entries| - 1)];
      ConnectUpTo(Step(s, entries[0].1), entries[1..], budget - 1)
  }

  /** Every entry polled in turn. */
  function ConnectAll(s: seq<Circuit>, entries: Entries): seq<Circuit>
    decreases |entries|
  {
    if entries == [] then s else ConnectAll(Step(s, entries[0].1), entries[1..])
  }

  /** Disjoint, non-empty circuits of boxes from `boxes`. */
  predicate CircuitsOf(s: seq<Circuit>, boxes: set<Box>)
  {
    Disjoint(s) && NonEmptyCircuits(s) && UnionAll(s) <= boxes
  }

  /** A polled pair of two boxes of the set keeps the circuits circuits of that set. */
  lemma StepKeeps(s: seq<Circuit>, pair: Pair, boxes: set<Box>)
    requires CircuitsOf(s, boxes) && pair.0 in boxes && pair.1 in boxes
    ensures CircuitsOf(Step(s, pair), boxes)
  {
    if !IsAlreadyConnected(s, pair.0, pair.1) {
      ConnectDisjoint(s, pair.0, pair.1);
      ConnectNonEmpty(s, pair.0, pair.1);
      ConnectUnion(s, pair.0, pair.1);
    }
  }

  lemma {:induction false} ConnectAllKeeps(s: seq<Circuit>, entries: Entries, boxes: set<Box>)
    requires CircuitsOf(s, boxes) && EntriesWithin(entries, boxes)
    ensures CircuitsOf(ConnectAll(s, entries), boxes)
    decreases |entries|
  {
    if entries != [] {
      StepKeeps(s, entries[0].1, boxes);
      assert EntriesWithin(entries[1..], boxes) by {
        forall t | 0 <= t < |entries[1..]|
          ensures entries[1..][t] == entries[t + 1]
        {
        }
      }
      ConnectAllKeeps(Step(s, entries[0].1), entries[1..], boxes);
    }
  }

  // ---------------------------------------------------------------------------
  // The three largest circuits

  predicate Descending(r: seq<nat>)
  {
    forall i, j :: 0 <= i < j < |r| ==> r[j] <= r[i]
  }

  /** x placed into a descending sequence. */
  function Insert(x: nat, r: seq<nat>): (q: seq<nat>)
    requires Descending(r)
    ensures Descending(q) && multiset(q) == multiset(r) + multiset{x}
    ensures q != [] && q[0] == if r != [] && x < r[0] then r[0] else x
  {
    if r == [] || r[0] <= x then [x] + r
    else
      var rest := Insert(x, r[1..]);
      assert r == [r[0]] + r[1..];
      [r[0]] + rest
  }

  /** The sort of `sorted(Comparator.comparing(Set::size, reverseOrder()))`, on the sizes. */
  function SortDescending(s: seq<nat>): (r: seq<nat>)
    ensures Descending(r) && multiset(r) == multiset(s)
  {
    if s == [] then []
    else
      assert s == [s[0]] + s[1..];
      Insert(s[0], SortDescending(s[1..]))
  }

  /** `limit(3)` after the sort: the three largest sizes, or all of them when there are fewer. */
  function LargestThree(sizes: seq<nat>): (top: seq<nat>)
    ensures |top| == Min(3, |sizes|)
    ensures multiset(top) <= multiset(sizes)
    ensures forall x, y :: x in multiset(sizes) - multiset(top) && y in top ==> x <= y
  {
    var sorted := SortDescending(sizes);
    DescendingSplit(sorted, Min(3, |sorted|));
    sorted[..Min(3, |sorted|)]
  }

  /** Cutting a descending sequence leaves nothing behind the cut above anything before it. */
  lemma DescendingSplit(sorted: seq<nat>, n: nat)
    requires Descending(sorted) && n <= |sorted|
    ensures multiset(sorted) - multiset(sorted[..n]) == multiset(sorted[n..])
    ensures multiset(sorted[..n]) <= multiset(sorted)
    ensures forall x, y :: x in multiset(sorted[n..]) && y in sorted[..n] ==> x <= y
  {
    var top, rest := sorted[..n], sorted[n..];
    assert sorted == top + rest;
    forall x, y | x in multiset(rest) && y in top
      ensures x <= y
    {
      var j :| 0 <= j < |rest| && rest[j] == x;
      var i :| 0 <= i < |top| && top[i] == y;
      assert sorted[n + j] == x;
    }
  }

  function Sizes(s: seq<Circuit>): seq<nat>
  {
    seq(|s|, i requires 0 <= i < |s| => |s[i]|)
  }

  /** Part one's answer from the circuits: the product of the (at most) three largest sizes. */
  function TopThreeProduct(s: seq<Circuit>): int
  {
    Product(LargestThree(Sizes(s)))
  }

  lemma {:induction false} ProductPositive(s: seq<nat>)
    requires forall i :: 0 <= i < |s| ==> s[i] >= 1
    ensures Product(s) >= 1
  {
    if s != [] {
      ProductPositive(s[..|s| - 1]);
      var p, x := Product(s[..|s| - 1]), s[|s| - 1];
      assert p * x >= p * 1;
    }
  }

  /** Over non-empty circuits the product is at least 1; with no circuits it is the empty product 1. */
  lemma TopThreePositive(s: seq<Circuit>)
    requires NonEmptyCircuits(s)
    ensures TopThreeProduct(s) >= 1
    ensures s == [] ==> TopThreeProduct(s) == 1
  {
    var top := LargestThree(Sizes(s));
    forall i | 0 <= i < |top|
      ensures top[i] >= 1
    {
      assert top[i] in multiset(Sizes(s));
      var k :| 0 <= k < |s| && Sizes(s)[k] == top[i];
      assert s[k] != {};
    }
    ProductPositive(top);
  }

  // ---------------------------------------------------------------------------
  // Part one

  /** `solvePartOne` on its values: Err where reading the boxes throws. */
  function PartOne(lines: seq<string>, order: seq<Box>, amountOfConnectionsToMake: nat): Result<int>
  {
    match JunctionBoxes(lines)
    case Err(f) => Err(f)
    case Ok(_) => Ok(TopThreeProduct(ConnectUpTo([], DistanceMap(order), amountOfConnectionsToMake)))
  }

  /**
   * Part one connects the closest min(budget, number of entries) pairs, which leaves disjoint
   * non-empty circuits of the boxes, and multiplies the three largest sizes: at least 1.
   */
  lemma PartOneAnswer(lines: seq<string>, order: seq<Box>, amountOfConnectionsToMake: nat)
    requires JunctionBoxes(lines).Ok? && Lists(order, JunctionBoxes(lines).value)
    ensures var e := DistanceMap(order);
      var circuits := ConnectAll([], e[..Min(amountOfConnectionsToMake, |e|)]);
      && CircuitsOf(circuits, JunctionBoxes(lines).value)
      && PartOne(lines, order, amountOfConnectionsToMake) == Ok(TopThreeProduct(circuits))
      && TopThreeProduct(circuits) >= 1
  {
    var boxes := JunctionBoxes(lines).value;
    var e := DistanceMap(order);
    var taken := e[..Min(amountOfConnectionsToMake, |e|)];
    DistanceMapWithin(order, boxes);
    assert EntriesWithin(taken, boxes) by {
      forall t | 0 <= t < |taken|
        ensures taken[t] == e[t]
      {
      }
    }
    ConnectAllKeeps([], taken, boxes);
    TopThreePositive(ConnectAll([], taken));
  }

  /** `solvePartOne`: read the boxes, build the distance map, connect, and multiply. */
  method SolvePartOne(lines: seq<string>, order: seq<Box>, amountOfConnectionsToMake: nat) returns (r: Result<int>)
    requires JunctionBoxes(lines).Ok? ==> Lists(order, JunctionBoxes(lines).value)
    ensures r == PartOne(lines, order, amountOfConnectionsToMake)
  {
    var junctionBoxes := InitJunctionBoxes(lines);
    if junctionBoxes.Err? {
      return Err(junctionBoxes.failure);
    }
    var distanceMap := CalculateDistances(order);
    var circuits := ConnectClosestPairs(distanceMap, amountOfConnectionsToMake);
    r := Ok(TopThreeProduct(circuits));
  }

  /** Part one's loop: poll the closest pair while connections remain to be made. */
  method ConnectClosestPairs(distanceMap0: Entries, amountOfConnectionsToMake: nat) returns (result: seq<Circuit>)
    ensures result == ConnectUpTo([], distanceMap0, amountOfConnectionsToMake)
  {
    var distanceMap := distanceMap0;
    var circuits := new CircuitList();
    var junctionsConnected := 0;
    while junctionsConnected < amountOfConnectionsToMake && distanceMap != []
      invariant junctionsConnected <= amountOfConnectionsToMake
      invariant ConnectUpTo(circuits.circuits, distanceMap, amountOfConnectionsToMake - junctionsConnected)
        == ConnectUpTo([], distanceMap0, amountOfConnectionsToMake)
      decreases |distanceMap|
    {
      var pair := distanceMap[0].1;
      distanceMap := distanceMap[1..];
      if IsAlreadyConnected(circuits.circuits, pair.0, pair.1) {
        junctionsConnected := junctionsConnected + 1;
        continue;
      }
      circuits.ConnectBoxToCircuits(pair.0, pair.1);
      junctionsConnected := junctionsConnected + 1;
    }
    result := circuits.circuits;
  }

  // ---------------------------------------------------------------------------
  // Part two

  /**
   * Part two's loop: poll pairs, connecting those not yet connected, until the first circuit holds
   * `size` boxes; the circuits then and the completing pair, or IllegalArgument when the map runs
   * out first.
   */
  function ConnectUntilComplete(s: seq<Circuit>, entries: Entries, size: nat): (r: Result<(seq<Circuit>, Pair)>)
    ensures r.Err? ==> r.failure == IllegalArgument
    ensures r.Ok? ==> r.value.0 != [] && |r.value.0[0]| == size
    decreases |entries|
  {
    if entries == [] then Err(IllegalArgument)
    else
      var pair := entries[0].1;
      if IsAlreadyConnected(s, pair.0, pair.1) then ConnectUntilComplete(s, entries[1..], size)
      else
        var next := Connect(s, pair.0, pair.1);
        if |next[0]| == size then Ok((next, pair)) else ConnectUntilComplete(next, entries[1..], size)
  }

  /**
   * The loop fails only by running out of pairs; when it stops early, one circuit holds every box
   * and the completing pair is two distinct boxes of the set.
   */
  lemma {:induction false} ConnectUntilCompleteSpec(s: seq<Circuit>, entries: Entries, boxes: set<Box>)
    requires CircuitsOf(s, boxes) && EntriesWithin(entries, boxes)
    ensures ConnectUntilComplete(s, entries, |boxes|).Err? ==>
      ConnectUntilComplete(s, entries, |boxes|).failure == IllegalArgument
    ensures ConnectUntilComplete(s, entries, |boxes|).Ok? ==>
      var (circuits, pair) := ConnectUntilComplete(s, entries, |boxes|).value;
      circuits == [boxes] && pair.0 in boxes && pair.1 in boxes && pair.0 != pair.1
    decreases |entries|
  {
    if entries != [] {
      var pair := entries[0].1;
      assert EntriesWithin(entries[1..], boxes) by {
        forall t | 0 <= t < |entries[1..]|
          ensures entries[1..][t] == entries[t + 1]
        {
        }
      }
      StepKeeps(s, pair, boxes);
      if IsAlreadyConnected(s, pair.0, pair.1) {
        ConnectUntilCompleteSpec(s, entries[1..], boxes);
      } else {
        var next := Connect(s, pair.0, pair.1);
        FirstFullIffOne(next, boxes);
        ConnectUntilCompleteSpec(next, entries[1..], boxes);
      }
    }
  }

  /** `Math.multiplyExact` on longs. */
  function MultiplyExact(a: int, b: int): (r: Result<int>)
    ensures r.Ok? ==> IsLong(r.value)
  {
    if IsLong(a * b) then Ok(a * b) else Err(ArithmeticOverflow)
  }

  lemma MulMonotone(x: nat, y: nat, c: nat, d: nat)
    requires x <= c && y <= d
    ensures x * y <= c * d
  {
    assert (c - x) * y >= 0;
    assert c * (d - y) >= 0;
  }

  /** Two ints never overflow a long product. */
  lemma IntProductFitsLong(a: int, b: int)
    requires IsInt(a) && IsInt(b)
    ensures MultiplyExact(a, b) == Ok(a * b)
  {
    var ua: nat := if a < 0 then -a else a;
    var ub: nat := if b < 0 then -b else b;
    MulMonotone(ua, ub, 0x8000_0000, 0x8000_0000);
    assert 0x8000_0000 * 0x8000_0000 == 0x4000_0000_0000_0000;
    if (a < 0) == (b < 0) {
      assert a * b == ua * ub;
    } else {
      assert a * b == -(ua * ub);
    }
  }

  /** `solvePartTwo` on its values. */
  function PartTwo(lines: seq<string>, order: seq<Box>): Result<int>
  {
    match JunctionBoxes(lines)
    case Err(f) => Err(f)
    case Ok(boxes) =>
      match ConnectUntilComplete([], DistanceMap(order), |boxes|)
      case Err(f) => Err(f)
      case Ok((_, pair)) => MultiplyExact(pair.0.x, pair.1.x)
  }

  /**
   * Over boxes read from the lines, part two fails only for lack of pairs; otherwise the circuits
   * have become the single circuit of all boxes and the answer is the product of the x coordinates
   * of the completing pair, which cannot overflow.
   */
  lemma PartTwoAnswer(lines: seq<string>, order: seq<Box>)
    requires JunctionBoxes(lines).Ok? && Lists(order, JunctionBoxes(lines).value)
    ensures PartTwo(lines, order).Err? ==> PartTwo(lines, order).failure == IllegalArgument
    ensures var run := ConnectUntilComplete([], DistanceMap(order), |JunctionBoxes(lines).value|);
      run.Ok? ==>
        && run.value.0 == [JunctionBoxes(lines).value]
        && PartTwo(lines, order) == Ok(run.value.1.0.x * run.value.1.1.x)
  {
    var boxes := JunctionBoxes(lines).value;
    DistanceMapWithin(order, boxes);
    ConnectUntilCompleteSpec([], DistanceMap(order), boxes);
    JunctionBoxesSpec(lines);
    var run := ConnectUntilComplete([], DistanceMap(order), |boxes|);
    if run.Ok? {
      var pair := run.value.1;
      assert IntBox(pair.0) && IntBox(pair.1);
      IntProductFitsLong(pair.0.x, pair.1.x);
    }
  }

  /** `solvePartTwo`: read the boxes, build the distance map, and connect until complete. */
  method SolvePartTwo(lines: seq<string>, order: seq<Box>) returns (r: Result<int>)
    requires JunctionBoxes(lines).Ok? ==> Lists(order, JunctionBoxes(lines).value)
    ensures r == PartTwo(lines, order)
  {
    var junctionBoxes := InitJunctionBoxes(lines);
    if junctionBoxes.Err? {
      return Err(junctionBoxes.failure);
    }
    var distanceMap := CalculateDistances(order);
    var completed := ConnectUntilCircuitComplete(distanceMap, |junctionBoxes.value|);
    match completed {
      case Err(f) => r := Err(f);
      case Ok((_, pair)) => r := MultiplyExact(pair.0.x, pair.1.x);
    }
  }

  /**
   * Part two's loop: poll the closest pair, connect it unless already connected, and stop once the
   * first circuit holds every box; IllegalArgument when the pairs run out first.
   */
  method ConnectUntilCircuitComplete(distanceMap0: Entries, size: nat) returns (r: Result<(seq<Circuit>, Pair)>)
    ensures r == ConnectUntilComplete([], distanceMap0, size)
  {
    var distanceMap := distanceMap0;
    var circuits := new CircuitList();
    while distanceMap != []
      invariant ConnectUntilComplete(circuits.circuits, distanceMap, size) == ConnectUntilComplete([], distanceMap0, size)
      decreases |distanceMap|
    {
      var pair := distanceMap[0].1;
      distanceMap := distanceMap[1..];
      if IsAlreadyConnected(circuits.circuits, pair.0, pair.1) {
        continue;
      }
      circuits.ConnectBoxToCircuits(pair.0, pair.1);
      if |circuits.circuits[0]| == size {
        return Ok((circuits.circuits, pair));
      }
    }
    r := Err(IllegalArgument);
  }
}
