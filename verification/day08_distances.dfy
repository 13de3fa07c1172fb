/**
 * Junction boxes and the distances between them (src/main/java/nl/th8/adventofcode2025/Day08.java).
 * A box is a point in three dimensions; the solver keys boxes by a name built from their
 * coordinates, so boxes with equal coordinates are one box. The distance map is a sorted map from
 * distance to pair, filled by two nested loops over the boxes in the order the hash map hands
 * them out; a pair at a distance already in the map replaces the pair stored there.
 */
module Day08Distances {
  import opened Common
  import opened JavaText

  datatype Box = Box(x: int, y: int, z: int)

  type Pair = (Box, Box)

  /** The square of the Euclidean distance. The square root is monotone, so it orders pairs alike. */
  function Dist(a: Box, b: Box): (d: nat)
  {
    Square(a.x - b.x) + Square(a.y - b.y) + Square(a.z - b.z)
  }

  function Square(d: int): (r: nat)
    ensures r == 0 <==> d == 0
  {
    if d < 0 then (-d) * (-d) else d * d
  }

  lemma DistSymmetric(a: Box, b: Box)
    ensures Dist(a, b) == Dist(b, a)
  {
    assert Square(a.x - b.x) == Square(b.x - a.x);
    assert Square(a.y - b.y) == Square(b.y - a.y);
    assert Square(a.z - b.z) == Square(b.z - a.z);
  }

  /** Distinct boxes are a positive distance apart. */
  lemma DistZero(a: Box, b: Box)
    ensures Dist(a, b) == 0 <==> a == b
  {
  }

  // ---------------------------------------------------------------------------
  // The sorted distance map

  /** A `TreeMap`: its entries in ascending key order. */
  type Entries = seq<(nat, Pair)>

  predicate Ascending(e: Entries)
  {
    forall i, j :: 0 <= i < j < |e| ==> e[i].0 < e[j].0
  }

  /** The map the entries stand for. */
  function AsMap(e: Entries): map<nat, Pair>
  {
    if e == [] then map[] else AsMap(e[1..])[e[0].0 := e[0].1]
  }

  lemma {:induction false} AsMapKeys(e: Entries)
    ensures forall k :: k in AsMap(e) <==> exists i :: 0 <= i < |e| && e[i].0 == k
  {
    if e != [] {
      AsMapKeys(e[1..]);
      forall k | k in AsMap(e)
        ensures exists i :: 0 <= i < |e| && e[i].0 == k
      {
        if k != e[0].0 {
          assert k in AsMap(e[1..]);
          var i :| 0 <= i < |e[1..]| && e[1..][i].0 == k;
          assert e[i + 1].0 == k;
        }
      }
      forall k | exists i :: 0 <= i < |e| && e[i].0 == k
        ensures k in AsMap(e)
      {
        var i :| 0 <= i < |e| && e[i].0 == k;
        if i > 0 {
          assert e[1..][i - 1].0 == k;
        }
      }
    }
  }

  /** `put`: the entry for k is v afterwards, whether or not k was present. */
  function Put(e: Entries, k: nat, v: Pair): (r: Entries)
    requires Ascending(e)
    ensures Ascending(r)
    ensures AsMap(r) == AsMap(e)[k := v]
    ensures r != [] && r[0].0 == if e != [] && e[0].0 < k then e[0].0 else k
  {
    if e == [] then [(k, v)]
    else if k < e[0].0 then [(k, v)] + e
    else if k == e[0].0 then
      assert ([(k, v)] + e[1..])[1..] == e[1..];
      [(k, v)] + e[1..]
    else
      var rest := Put(e[1..], k, v);
      assert ([e[0]] + rest)[1..] == rest;
      [e[0]] + rest
  }

  /**
   * `pollFirstEntry`: the first entry holds the least key of the map, and the rest of the entries
   * stand for the map without that key.
   */
  lemma PollFirst(e: Entries)
    requires Ascending(e) && e != []
    ensures e[0].0 in AsMap(e) && AsMap(e)[e[0].0] == e[0].1
    ensures forall k :: k in AsMap(e) ==> e[0].0 <= k
    ensures AsMap(e[1..]) == AsMap(e) - {e[0].0}
  {
    var first, rest := e[0].0, AsMap(e[1..]);
    AsMapKeys(e[1..]);
    forall k | k in rest
      ensures first < k
    {
      var i :| 0 <= i < |e[1..]| && e[1..][i].0 == k;
      assert e[i + 1].0 == k;
    }
    assert AsMap(e) == rest[first := e[0].1];
    assert rest[first := e[0].1] - {first} == rest;
  }

  // ---------------------------------------------------------------------------
  // Enumerating the pairs

  /** `order` hands out every box of `boxes` exactly once. */
  predicate Lists(order: seq<Box>, boxes: set<Box>)
  {
    && (forall i :: 0 <= i < |order| ==> order[i] in boxes)
    && (forall b :: b in boxes ==> b in order)
    && (forall i, j :: 0 <= i < j < |order| ==> order[i] != order[j])
  }

  predicate Distinct(order: seq<Box>)
  {
    forall i, j :: 0 <= i < j < |order| ==> order[i] != order[j]
  }

  /** The pairs row i of the nested loops puts, up to inner index j: (order[i], order[q]) for i < q < j. */
  function RowPairs(order: seq<Box>, i: nat, j: nat): seq<Pair>
    requires i < |order| && j <= |order|
  {
    var n := if i < j then j - i - 1 else 0;
    seq(n, k requires 0 <= k < n => (order[i], order[i + 1 + k]))
  }

  /** The pairs the first i rows of the nested loops put, in the order they put them. */
  function RowsPairs(order: seq<Box>, i: nat): seq<Pair>
    requires i <= |order|
  {
    if i == 0 then [] else RowsPairs(order, i - 1) + RowPairs(order, i - 1, |order|)
  }

  /** Every pair the nested loops put, in the order they put them. */
  function AllPairs(order: seq<Box>): seq<Pair>
  {
    RowsPairs(order, |order|)
  }

  /** x is (order[i], order[q]) for some later q. */
  predicate RowShaped(order: seq<Box>, i: nat, x: Pair)
  {
    exists q :: i < q < |order| && x == (order[i], order[q])
  }

  /** x is (order[p], order[q]) for some p < q, with p below `bound`. */
  predicate PairShaped(order: seq<Box>, bound: nat, x: Pair)
  {
    exists p, q :: 0 <= p < q < |order| && p < bound && x == (order[p], order[q])
  }

  /** Every pair put is two boxes of the listing, the earlier one first. */
  lemma RowPairsShape(order: seq<Box>, i: nat, j: nat)
    requires i < |order| && j <= |order|
    ensures forall t :: 0 <= t < |RowPairs(order, i, j)| ==> RowShaped(order, i, RowPairs(order, i, j)[t])
  {
    forall t | 0 <= t < |RowPairs(order, i, j)|
      ensures RowShaped(order, i, RowPairs(order, i, j)[t])
    {
      assert RowPairs(order, i, j)[t] == (order[i], order[i + 1 + t]);
    }
  }

  lemma {:induction false} RowsPairsShape(order: seq<Box>, i: nat)
    requires i <= |order|
    ensures forall t :: 0 <= t < |RowsPairs(order, i)| ==> PairShaped(order, i, RowsPairs(order, i)[t])
  {
    if i > 0 {
      RowsPairsShape(order, i - 1);
      RowPairsShape(order, i - 1, |order|);
      var front := RowsPairs(order, i - 1);
      var row := RowPairs(order, i - 1, |order|);
      forall t | 0 <= t < |front + row|
        ensures PairShaped(order, i, (front + row)[t])
      {
        if t >= |front| {
          assert (front + row)[t] == row[t - |front|];
          assert RowShaped(order, i - 1, row[t - |front|]);
          var q :| i - 1 < q < |order| && row[t - |front|] == (order[i - 1], order[q]);
          assert (front + row)[t] == (order[i - 1], order[q]);
        } else {
          assert (front + row)[t] == front[t];
          assert PairShaped(order, i - 1, front[t]);
        }
      }
    }
  }

  lemma InConcat(a: seq<Pair>, b: seq<Pair>, x: Pair)
    ensures x in a + b <==> x in a || x in b
  {
  }

  lemma RowPairListed(order: seq<Box>, i: nat, j: nat, q: nat)
    requires i < q < j <= |order|
    ensures (order[i], order[q]) in RowPairs(order, i, j)
  {
    assert RowPairs(order, i, j)[q - i - 1] == (order[i], order[q]);
  }

  lemma {:induction false} RowsPairsListed(order: seq<Box>, i: nat, p: nat, q: nat)
    requires p < q < |order| && p < i <= |order|
    ensures (order[p], order[q]) in RowsPairs(order, i)
  {
    var x := (order[p], order[q]);
    var front, row := RowsPairs(order, i - 1), RowPairs(order, i - 1, |order|);
    if p < i - 1 {
      RowsPairsListed(order, i - 1, p, q);
      var t :| 0 <= t < |front| && front[t] == x;
      assert (front + row)[t] == x;
    } else {
      RowPairListed(order, p, |order|, q);
      var t :| 0 <= t < |row| && row[t] == x;
      assert (front + row)[|front| + t] == x;
    }
  }

  /**
   * Every unordered pair of distinct boxes is put exactly once: in the orientation its boxes have in
   * the listing, and never the other way round.
   */
  lemma EveryPairOnce(order: seq<Box>, boxes: set<Box>, a: Box, b: Box)
    requires Lists(order, boxes) && a in boxes && b in boxes && a != b
    ensures ((a, b) in AllPairs(order)) != ((b, a) in AllPairs(order))
    ensures forall s, t :: 0 <= s < t < |AllPairs(order)| ==> AllPairs(order)[s] != AllPairs(order)[t]
  {
    var p :| 0 <= p < |order| && order[p] == a;
    var q :| 0 <= q < |order| && order[q] == b;
    var all := AllPairs(order);
    RowsPairsShape(order, |order|);
    if p < q {
      RowsPairsListed(order, |order|, p, q);
      NotReversed(order, p, q);
    } else {
      RowsPairsListed(order, |order|, q, p);
      NotReversed(order, q, p);
    }
    NoRepeats(order, |order|);
  }

  /** A pair is never put the wrong way round. */
  lemma NotReversed(order: seq<Box>, p: nat, q: nat)
    requires Distinct(order) && p < q < |order|
    ensures (order[q], order[p]) !in AllPairs(order)
  {
    var all := AllPairs(order);
    RowsPairsShape(order, |order|);
    forall t | 0 <= t < |all|
      ensures all[t] != (order[q], order[p])
    {
      assert PairShaped(order, |order|, all[t]);
      var p', q' :| 0 <= p' < q' < |order| && p' < |order| && all[t] == (order[p'], order[q']);
    }
  }

  lemma RowNoRepeats(order: seq<Box>, i: nat, j: nat)
    requires Distinct(order) && i < |order| && j <= |order|
    ensures forall s, t :: 0 <= s < t < |RowPairs(order, i, j)| ==> RowPairs(order, i, j)[s] != RowPairs(order, i, j)[t]
  {
    var row := RowPairs(order, i, j);
    forall s, t | 0 <= s < t < |row|
      ensures row[s] != row[t]
    {
      assert row[s].1 == order[i + 1 + s] && row[t].1 == order[i + 1 + t];
    }
  }

  lemma {:induction false} NoRepeats(order: seq<Box>, i: nat)
    requires Distinct(order) && i <= |order|
    ensures forall s, t :: 0 <= s < t < |RowsPairs(order, i)| ==> RowsPairs(order, i)[s] != RowsPairs(order, i)[t]
  {
    if i > 0 {
      NoRepeats(order, i - 1);
      RowNoRepeats(order, i - 1, |order|);
      RowsPairsShape(order, i - 1);
      RowPairsShape(order, i - 1, |order|);
      var front := RowsPairs(order, i - 1);
      var row := RowPairs(order, i - 1, |order|);
      forall s, t | 0 <= s < |front| <= t < |front| + |row|
        ensures (front + row)[s] != (front + row)[t]
      {
        assert PairShaped(order, i - 1, front[s]);
        var p, q :| 0 <= p < q < |order| && p < i - 1 && front[s] == (order[p], order[q]);
        assert (front + row)[t] == row[t - |front|];
        assert row[t - |front|].0 == order[i - 1];
      }
    }
  }

  // ---------------------------------------------------------------------------
  // The distance map

  /** The distance a pair is stored under. */
  function D(p: Pair): nat
  {
    Dist(p.0, p.1)
  }

  /** The sorted map after putting the pairs one by one, each under its distance. */
  function Index(pairs: seq<Pair>): (e: Entries)
    ensures Ascending(e)
  {
    if pairs == [] then []
    else
      var p := pairs[|pairs| - 1];
      Put(Index(pairs[..|pairs| - 1]), D(p), p)
  }

  lemma IndexAppend(pairs: seq<Pair>, p: Pair)
    ensures Index(pairs + [p]) == Put(Index(pairs), D(p), p)
  {
    assert (pairs + [p])[..|pairs|] == pairs;
  }

  /** `calculateDistances`: the distance map the nested loops build over the listing. */
  function DistanceMap(order: seq<Box>): (e: Entries)
    ensures Ascending(e)
  {
    Index(AllPairs(order))
  }

  /** Pair t is the last pair of the sequence stored under distance k. */
  predicate LastAt(pairs: seq<Pair>, t: int, k: nat)
  {
    && 0 <= t < |pairs| && D(pairs[t]) == k
    && forall u :: t < u < |pairs| ==> D(pairs[u]) != k
  }

  /** A distance is a key exactly when some pair put lies at that distance. */
  lemma {:induction false} IndexKeys(pairs: seq<Pair>, k: nat)
    ensures k in AsMap(Index(pairs)) <==> exists t :: 0 <= t < |pairs| && D(pairs[t]) == k
  {
    if pairs != [] {
      var n := |pairs| - 1;
      var front := pairs[..n];
      IndexKeys(front, k);
      if D(pairs[n]) != k {
        if exists t :: 0 <= t < |pairs| && D(pairs[t]) == k {
          var t :| 0 <= t < |pairs| && D(pairs[t]) == k;
          assert front[t] == pairs[t];
        }
      }
    }
  }

  /** The pair a key holds is the last pair put at that distance: a later equal distance replaces an earlier one. */
  lemma {:induction false} IndexHoldsLast(pairs: seq<Pair>, k: nat)
    requires k in AsMap(Index(pairs))
    ensures exists t :: LastAt(pairs, t, k) && AsMap(Index(pairs))[k] == pairs[t]
  {
    var n := |pairs| - 1;
    var front := pairs[..n];
    if D(pairs[n]) == k {
      assert LastAt(pairs, n, k);
    } else {
      assert k in AsMap(Index(front));
      IndexHoldsLast(front, k);
      var t :| LastAt(front, t, k) && AsMap(Index(front))[k] == front[t];
      assert pairs[t] == front[t];
      assert LastAt(pairs, t, k);
    }
  }

  /** Every pair in the distance map is two distinct boxes of the listing, at the distance it is stored under. */
  lemma DistanceMapPairs(order: seq<Box>, boxes: set<Box>, k: nat)
    requires Lists(order, boxes) && k in AsMap(DistanceMap(order))
    ensures var p := AsMap(DistanceMap(order))[k];
      p.0 in boxes && p.1 in boxes && p.0 != p.1 && D(p) == k
  {
    IndexHoldsLast(AllPairs(order), k);
    var t :| LastAt(AllPairs(order), t, k) && AsMap(DistanceMap(order))[k] == AllPairs(order)[t];
    RowsPairsShape(order, |order|);
    assert PairShaped(order, |order|, AllPairs(order)[t]);
    var p, q :| 0 <= p < q < |order| && p < |order| && AllPairs(order)[t] == (order[p], order[q]);
  }

  /** Every entry `put` leaves is the new one or was there before. */
  lemma {:induction false} PutEntries(e: Entries, k: nat, v: Pair)
    requires Ascending(e)
    ensures forall t :: 0 <= t < |Put(e, k, v)| ==> Put(e, k, v)[t] == (k, v) || Put(e, k, v)[t] in e
  {
    if e != [] && e[0].0 < k {
      PutEntries(e[1..], k, v);
      var rest := Put(e[1..], k, v);
      forall t | 0 < t < |Put(e, k, v)|
        ensures Put(e, k, v)[t] == (k, v) || Put(e, k, v)[t] in e
      {
        assert Put(e, k, v)[t] == rest[t - 1];
        if rest[t - 1] in e[1..] {
          var u :| 0 <= u < |e[1..]| && e[1..][u] == rest[t - 1];
          assert e[u + 1] == rest[t - 1];
        }
      }
    }
  }

  /** Each entry holds one of the pairs, under that pair's distance. */
  predicate EntriesFrom(e: Entries, pairs: seq<Pair>)
  {
    forall t :: 0 <= t < |e| ==> e[t].1 in pairs && e[t].0 == D(e[t].1)
  }

  lemma {:induction false} IndexEntries(pairs: seq<Pair>)
    ensures EntriesFrom(Index(pairs), pairs)
  {
    if pairs != [] {
      var n := |pairs| - 1;
      var front, last := pairs[..n], pairs[n];
      var e0 := Index(front);
      var e := Put(e0, D(last), last);
      assert Index(pairs) == e;
      IndexEntries(front);
      PutEntries(e0, D(last), last);
      forall t | 0 <= t < |e|
        ensures e[t].1 in pairs && e[t].0 == D(e[t].1)
      {
        if e[t] != (D(last), last) {
          var u :| 0 <= u < |e0| && e0[u] == e[t];
          var w :| 0 <= w < |front| && front[w] == e0[u].1;
          assert pairs[w] == front[w];
        }
      }
    }
  }

  /** Each entry holds two distinct boxes of `boxes`, under their distance. */
  predicate EntriesWithin(e: Entries, boxes: set<Box>)
  {
    forall t :: 0 <= t < |e| ==>
      e[t].1.0 in boxes && e[t].1.1 in boxes && e[t].1.0 != e[t].1.1 && e[t].0 == D(e[t].1)
  }

  /** The distance map holds only pairs of distinct boxes of the set, each under its distance. */
  lemma DistanceMapWithin(order: seq<Box>, boxes: set<Box>)
    requires Lists(order, boxes)
    ensures EntriesWithin(DistanceMap(order), boxes)
  {
    var all := AllPairs(order);
    IndexEntries(all);
    assert EntriesFrom(DistanceMap(order), all);
    RowsPairsShape(order, |order|);
    forall t | 0 <= t < |DistanceMap(order)|
      ensures DistanceMap(order)[t].1.0 in boxes && DistanceMap(order)[t].1.1 in boxes
      ensures DistanceMap(order)[t].1.0 != DistanceMap(order)[t].1.1
    {
      var u :| 0 <= u < |all| && all[u] == DistanceMap(order)[t].1;
      assert PairShaped(order, |order|, all[u]);
    }
  }

  /** The map after inner step j of row i. */
  function IndexBefore(order: seq<Box>, i: nat, j: nat): Entries
    requires i < |order| && j <= |order|
  {
    Index(RowsPairs(order, i) + RowPairs(order, i, j))
  }

  lemma IndexRowStart(order: seq<Box>, i: nat)
    requires i < |order|
    ensures IndexBefore(order, i, 0) == Index(RowsPairs(order, i))
  {
    assert RowsPairs(order, i) + RowPairs(order, i, 0) == RowsPairs(order, i);
  }

  lemma IndexRowEnd(order: seq<Box>, i: nat)
    requires i < |order|
    ensures IndexBefore(order, i, |order|) == Index(RowsPairs(order, i + 1))
  {
  }

  /** Inner step j of row i puts the pair exactly when j is ahead of i. */
  lemma IndexStep(order: seq<Box>, i: nat, j: nat)
    requires i < |order| && j < |order|
    ensures IndexBefore(order, i, j + 1) ==
      if i < j then Put(IndexBefore(order, i, j), Dist(order[i], order[j]), (order[i], order[j]))
      else IndexBefore(order, i, j)
  {
    var front := RowsPairs(order, i) + RowPairs(order, i, j);
    if i < j {
      assert RowPairs(order, i, j + 1) == RowPairs(order, i, j) + [(order[i], order[j])];
      assert RowsPairs(order, i) + RowPairs(order, i, j + 1) == front + [(order[i], order[j])];
      IndexAppend(front, (order[i], order[j]));
    } else {
      assert RowPairs(order, i, j + 1) == RowPairs(order, i, j);
      assert RowsPairs(order, i) + RowPairs(order, i, j + 1) == front;
    }
  }

  /** The pair (order[p], order[q]) has been put before inner step j of row i. */
  predicate PutBefore(p: int, q: int, i: nat, j: nat)
  {
    p < q && (p < i || (p == i && q < j))
  }

  /** `alreadyComputed` holds exactly the pairs put before inner step j of row i. */
  predicate ComputedBefore(order: seq<Box>, computed: set<Pair>, i: nat, j: nat)
  {
    forall p, q {:trigger (order[p], order[q]) in computed} :: 0 <= p < |order| && 0 <= q < |order| ==>
      ((order[p], order[q]) in computed <==> PutBefore(p, q, i, j))
  }

  /** The inner loop's test: the boxes are one, or the reversed pair was put, exactly when j <= i. */
  lemma SkipExactlyBehind(order: seq<Box>, computed: set<Pair>, i: nat, j: nat)
    requires Distinct(order) && i < |order| && j < |order| && ComputedBefore(order, computed, i, j)
    ensures (order[i] == order[j] || (order[j], order[i]) in computed) <==> j <= i
  {
  }

  lemma ComputedSkip(order: seq<Box>, computed: set<Pair>, i: nat, j: nat)
    requires i < |order| && j <= i && ComputedBefore(order, computed, i, j)
    ensures ComputedBefore(order, computed, i, j + 1)
  {
  }

  lemma ComputedAdd(order: seq<Box>, computed: set<Pair>, i: nat, j: nat)
    requires Distinct(order) && i < j < |order| && ComputedBefore(order, computed, i, j)
    ensures ComputedBefore(order, computed + {(order[i], order[j])}, i, j + 1)
  {
    forall p, q | 0 <= p < |order| && 0 <= q < |order|
      ensures (order[p], order[q]) in computed + {(order[i], order[j])} <==> PutBefore(p, q, i, j + 1)
    {
      if (order[p], order[q]) == (order[i], order[j]) {
        assert p == i && q == j;
      }
    }
  }

  lemma ComputedNextRow(order: seq<Box>, computed: set<Pair>, i: nat)
    requires i < |order| && ComputedBefore(order, computed, i, |order|)
    ensures ComputedBefore(order, computed, i + 1, 0)
  {
  }

  lemma InnerStep(order: seq<Box>, distanceMap: Entries, i: nat, j: nat)
    requires i < |order| && j < |order| && distanceMap == IndexBefore(order, i, j)
    ensures i < j ==> Put(distanceMap, Dist(order[i], order[j]), (order[i], order[j])) == IndexBefore(order, i, j + 1)
    ensures j <= i ==> distanceMap == IndexBefore(order, i, j + 1)
  {
    IndexStep(order, i, j);
  }

  /** `calculateDistances`, as its nested loops build the map. */
  method CalculateDistances(order: seq<Box>) returns (distanceMap: Entries)
    requires Distinct(order)
    ensures distanceMap == DistanceMap(order)
  {
    distanceMap := [];
    var alreadyComputed: set<Pair> := {};
    for i := 0 to |order|
      invariant distanceMap == Index(RowsPairs(order, i))
      invariant ComputedBefore(order, alreadyComputed, i, 0)
    {
      distanceMap, alreadyComputed := PutRow(order, i, distanceMap, alreadyComputed);
    }
  }

  /** The inner loop of `calculateDistances`: row i, pairing order[i] with every box of the listing. */
  method PutRow(order: seq<Box>, i: nat, distanceMap0: Entries, computed0: set<Pair>)
    returns (distanceMap: Entries, alreadyComputed: set<Pair>)
    requires Distinct(order) && i < |order|
    requires distanceMap0 == Index(RowsPairs(order, i)) && ComputedBefore(order, computed0, i, 0)
    ensures distanceMap == Index(RowsPairs(order, i + 1)) && ComputedBefore(order, alreadyComputed, i + 1, 0)
  {
    distanceMap, alreadyComputed := distanceMap0, computed0;
    IndexRowStart(order, i);
    for j := 0 to |order|
      invariant distanceMap == IndexBefore(order, i, j)
      invariant ComputedBefore(order, alreadyComputed, i, j)
    {
      distanceMap, alreadyComputed := VisitPair(order, i, j, distanceMap, alreadyComputed);
    }
    IndexRowEnd(order, i);
    ComputedNextRow(order, alreadyComputed, i);
  }

  /** One inner step: pair order[i] with order[j] unless the boxes are one or the pair was put reversed. */
  method VisitPair(order: seq<Box>, i: nat, j: nat, distanceMap0: Entries, computed0: set<Pair>)
    returns (distanceMap: Entries, alreadyComputed: set<Pair>)
    requires Distinct(order) && i < |order| && j < |order|
    requires distanceMap0 == IndexBefore(order, i, j) && ComputedBefore(order, computed0, i, j)
    ensures distanceMap == IndexBefore(order, i, j + 1) && ComputedBefore(order, alreadyComputed, i, j + 1)
  {
    distanceMap, alreadyComputed := distanceMap0, computed0;
    var junctionBox, otherBox := order[i], order[j];
    InnerStep(order, distanceMap, i, j);
    SkipExactlyBehind(order, alreadyComputed, i, j);
    if junctionBox == otherBox || (otherBox, junctionBox) in alreadyComputed {
      ComputedSkip(order, alreadyComputed, i, j);
      return;
    }
    ComputedAdd(order, alreadyComputed, i, j);
    distanceMap := Put(distanceMap, Dist(junctionBox, otherBox), (junctionBox, otherBox));
    alreadyComputed := alreadyComputed + {(junctionBox, otherBox)};
  }

  // ---------------------------------------------------------------------------
  // Reading the boxes

  /** Coordinates that fit Java's int. */
  predicate IntBox(b: Box)
  {
    IsInt(b.x) && IsInt(b.y) && IsInt(b.z)
  }

  /**
   * One line "x,y,z": split on ',' and the first three pieces parsed; None where the code throws.
   * A negative coordinate is refused as well: its '-' would break the "name-name" pair keys.
   */
  function ParseBox(line: string): (r: Option<Box>)
    ensures r.Some? ==> IntBox(r.value)
  {
    var coordinates := SplitOn(line, {','});
    if |coordinates| < 3 then None
    else
      var x, y, z := ParseInt(coordinates[0]), ParseInt(coordinates[1]), ParseInt(coordinates[2]);
      if x.Some? && y.Some? && z.Some? && x.value >= 0 && y.value >= 0 && z.value >= 0
      then Some(Box(x.value, y.value, z.value))
      else None
  }

  /** Each line parsed on its own. */
  function ParsedLines(lines: seq<string>): (parsed: seq<Option<Box>>)
    ensures |parsed| == |lines|
  {
    seq(|lines|, i requires 0 <= i < |lines| => ParseBox(lines[i]))
  }

  /** The boxes the parsed lines hold, or the failure of the first line that did not parse. */
  function CollectBoxes(parsed: seq<Option<Box>>): Result<set<Box>>
  {
    if parsed == [] then Ok({})
    else
      var front := CollectBoxes(parsed[..|parsed| - 1]);
      var box := parsed[|parsed| - 1];
      if front.Err? then front
      else if box.None? then Err(MalformedInput)
      else Ok(front.value + {box.value})
  }

  /** The boxes the lines name; see `JunctionBoxesSpec`. */
  function JunctionBoxes(lines: seq<string>): Result<set<Box>>
  {
    CollectBoxes(ParsedLines(lines))
  }

  /**
   * Every line must parse; then the boxes are exactly those the lines hold, equal ones collapsing
   * into one.
   */
  lemma {:induction false} CollectBoxesSpec(parsed: seq<Option<Box>>)
    ensures CollectBoxes(parsed).Ok? <==> forall i :: 0 <= i < |parsed| ==> parsed[i].Some?
    ensures CollectBoxes(parsed).Err? ==> CollectBoxes(parsed).failure == MalformedInput
    ensures CollectBoxes(parsed).Ok? ==>
      forall b :: b in CollectBoxes(parsed).value <==> Some(b) in parsed
    ensures CollectBoxes(parsed).Ok? ==> |CollectBoxes(parsed).value| <= |parsed|
  {
    if parsed != [] {
      var n := |parsed| - 1;
      var front := parsed[..n];
      CollectBoxesSpec(front);
      assert parsed == front + [parsed[n]];
    }
  }

  /**
   * `initJunctionBoxes` succeeds exactly when every line parses, and then yields exactly the boxes
   * the lines name, each with int coordinates, at most one per line.
   */
  lemma JunctionBoxesSpec(lines: seq<string>)
    ensures JunctionBoxes(lines).Ok? <==> forall i :: 0 <= i < |lines| ==> ParseBox(lines[i]).Some?
    ensures JunctionBoxes(lines).Err? ==> JunctionBoxes(lines).failure == MalformedInput
    ensures JunctionBoxes(lines).Ok? ==>
      forall b :: b in JunctionBoxes(lines).value <==> exists i :: 0 <= i < |lines| && ParseBox(lines[i]) == Some(b)
    ensures JunctionBoxes(lines).Ok? ==>
      (forall b :: b in JunctionBoxes(lines).value ==> IntBox(b)) && |JunctionBoxes(lines).value| <= |lines|
  {
    var parsed := ParsedLines(lines);
    CollectBoxesSpec(parsed);
    assert forall i :: 0 <= i < |lines| ==> parsed[i] == ParseBox(lines[i]);
    if JunctionBoxes(lines).Ok? {
      forall b | b in JunctionBoxes(lines).value
        ensures IntBox(b) && exists i :: 0 <= i < |lines| && ParseBox(lines[i]) == Some(b)
      {
        var i :| 0 <= i < |parsed| && parsed[i] == Some(b);
      }
    }
  }

  /** `initJunctionBoxes`: the lines parsed one by one; the first line that does not parse ends it. */
  method InitJunctionBoxes(lines: seq<string>) returns (r: Result<set<Box>>)
    ensures r == JunctionBoxes(lines)
  {
    ghost var parsed := ParsedLines(lines);
    var junctionBoxes: set<Box> := {};
    for i := 0 to |lines|
      invariant CollectBoxes(parsed[..i]) == Ok(junctionBoxes)
    {
      assert parsed[..i + 1][..i] == parsed[..i];
      var box := ParseBox(lines[i]);
      assert box == parsed[i];
      if box.None? {
        FailureSticks(parsed, i + 1);
        return Err(MalformedInput);
      }
      junctionBoxes := junctionBoxes + {box.value};
    }
    assert parsed[..|lines|] == parsed;
    r := Ok(junctionBoxes);
  }

  /** Once a prefix fails, the whole input fails the same way. */
  lemma {:induction false} FailureSticks(parsed: seq<Option<Box>>, n: nat)
    requires n <= |parsed| && CollectBoxes(parsed[..n]).Err?
    ensures CollectBoxes(parsed) == CollectBoxes(parsed[..n])
  {
    if n < |parsed| {
      assert parsed[..|parsed| - 1][..n] == parsed[..n];
      FailureSticks(parsed[..|parsed| - 1], n);
    } else {
      assert parsed[..n] == parsed;
    }
  }
}
