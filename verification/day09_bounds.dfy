/**
 * The bounds cache of the rectangle validator and the checks built on it. For every column x
 * whose red tiles span the rows lo..hi, each of those rows records x in its x-range; for every
 * row likewise each column it spans records the row in its y-range. A rectangle is accepted
 * when every point of its perimeter lies inside the x-range of its row and the y-range of its
 * column.
 */
module Day09Bounds {
  import opened Common

  /** A red tile on the floor. */
  datatype Tile = Tile(x: int, y: int)

  /** The axis a line or a cache key runs along. */
  datatype Axis = X | Y

  /**
   * A cache key: Key(X, x) stands for the string "x<x>" and holds the y-range of column x;
   * Key(Y, y) stands for "y<y>" and holds the x-range of row y.
   */
  datatype Key = Key(axis: Axis, at: int)

  /** A stored range. */
  datatype MinMax = MinMax(min: int, max: int)

  type Cache = map<Key, MinMax>

  function Across(a: Axis): Axis
  {
    if a == X then Y else X
  }

  function Coord(t: Tile, a: Axis): int
  {
    if a == X then t.x else t.y
  }

  /** Every tile's coordinate on axis a, in list order. */
  function Coords(tiles: seq<Tile>, a: Axis): (s: seq<int>)
    ensures |s| == |tiles|
    ensures forall k :: 0 <= k < |tiles| ==> s[k] == Coord(tiles[k], a)
  {
    seq(|tiles|, k requires 0 <= k < |tiles| => Coord(tiles[k], a))
  }

  /**
   * The filter-and-map stream of a sweep: the coordinates across axis a of the tiles on line c
   * of axis a (for a == X, the y of every tile in column c).
   */
  function Line(tiles: seq<Tile>, a: Axis, c: int): (line: seq<int>)
    ensures forall v :: v in line <==> exists t :: t in tiles && Coord(t, a) == c && Coord(t, Across(a)) == v
  {
    if tiles == [] then []
    else
      var front, t := tiles[..|tiles| - 1], tiles[|tiles| - 1];
      assert tiles == front + [t];
      if Coord(t, a) == c then Line(front, a, c) + [Coord(t, Across(a))]
      else Line(front, a, c)
  }

  /** `min().orElse(d)` on an int stream. */
  function MinOr(s: seq<int>, d: int): (r: int)
    ensures s == [] ==> r == d
    ensures s != [] ==> r in s && forall v :: v in s ==> r <= v
  {
    if s == [] then d
    else if |s| == 1 then s[0]
    else
      assert s == [s[0]] + s[1..];
      Min(s[0], MinOr(s[1..], d))
  }

  /** `max().orElse(d)` on an int stream. */
  function MaxOr(s: seq<int>, d: int): (r: int)
    ensures s == [] ==> r == d
    ensures s != [] ==> r in s && forall v :: v in s ==> v <= r
  {
    if s == [] then d
    else if |s| == 1 then s[0]
    else
      assert s == [s[0]] + s[1..];
      Max(s[0], MaxOr(s[1..], d))
  }

  /** The number of lines the initialisation sweeps on axis a: the largest coordinate plus one, or none. */
  function Size(tiles: seq<Tile>, a: Axis): nat
  {
    var size := MaxOr(Coords(tiles, a), -1) + 1;
    if size < 0 then 0 else size
  }

  /**
   * Line c of axis a is swept, and its sweep reaches position i across it: its tiles give a
   * range lo..hi in which neither end is the -1 that stands for "no tile", and lo <= i <= hi.
   */
  predicate Covers(tiles: seq<Tile>, a: Axis, c: int, i: int)
  {
    var line := Line(tiles, a, c);
    var lo, hi := MinOr(line, -1), MaxOr(line, -1);
    lo != -1 && hi != -1 && lo <= i <= hi
  }

  // ---------------------------------------------------------------------------
  // Building the cache

  /** The compute lambda: a stored range that does not yet hold c grows to hold it. */
  function Widen(v: MinMax, c: int): (r: MinMax)
    ensures v.min <= v.max ==> r == MinMax(Min(v.min, c), Max(v.max, c))
  {
    if v.min > c then MinMax(c, v.max)
    else if v.max < c then MinMax(v.min, c)
    else v
  }

  /** The value key k holds once c is recorded in it: a fresh range (c, c) or the widened one. */
  function MarkOf(entries: Cache, k: Key, c: int): MinMax
  {
    if k in entries then Widen(entries[k], c) else MinMax(c, c)
  }

  /** Records c in the keys (b, lo), ..., (b, hi), in that order. */
  function MarkRange(entries: Cache, b: Axis, lo: int, hi: int, c: int): Cache
    decreases if lo <= hi then hi - lo + 1 else 0
  {
    if lo > hi then entries
    else
      var k := Key(b, lo);
      MarkRange(entries[k := MarkOf(entries, k, c)], b, lo + 1, hi, c)
  }

  /**
   * `initVertically` (a == X) and `initHorizontally` (a == Y) for line c: nothing when the line
   * has no tile (or an end equal to -1), otherwise c is recorded across the line's span.
   */
  function Sweep(entries: Cache, tiles: seq<Tile>, a: Axis, c: int): Cache
  {
    var line := Line(tiles, a, c);
    var lo, hi := MinOr(line, -1), MaxOr(line, -1);
    if lo == -1 || hi == -1 then entries else MarkRange(entries, Across(a), lo, hi, c)
  }

  /** The sweeps of lines 0..n-1 of axis a, in increasing order; the keys along a stay as they were. */
  function SweepAll(entries: Cache, tiles: seq<Tile>, a: Axis, n: nat): (r: Cache)
    ensures SameKeys(entries, r, a)
  {
    if n == 0 then entries
    else
      var before := SweepAll(entries, tiles, a, n - 1);
      SweepKeeps(before, tiles, a, n - 1);
      Sweep(before, tiles, a, n - 1)
  }

  /**
   * `initMinMaxCoordinates`: every column swept, then every row; each key then holds exactly the
   * span of its line.
   */
  function MinMaxCoordinates(tiles: seq<Tile>): (r: Cache)
    ensures IsHull(tiles, r)
  {
    MinMaxCoordinatesHull(tiles);
    SweepAll(SweepAll(map[], tiles, X, Size(tiles, X)), tiles, Y, Size(tiles, Y))
  }

  /** What recording c across b-keys lo..hi does to key k; every other key keeps its entry. */
  predicate MarkedKey(before: Cache, after: Cache, b: Axis, lo: int, hi: int, c: int, k: Key)
  {
    if k.axis == b && lo <= k.at <= hi then k in after && after[k] == MarkOf(before, k, c)
    else (k in after <==> k in before) && (k in before ==> after[k] == before[k])
  }

  lemma {:induction false} MarkRangeKey(entries: Cache, b: Axis, lo: int, hi: int, c: int, k: Key)
    ensures MarkedKey(entries, MarkRange(entries, b, lo, hi, c), b, lo, hi, c, k)
    decreases if lo <= hi then hi - lo + 1 else 0
  {
    if lo <= hi {
      var first := Key(b, lo);
      var middle := entries[first := MarkOf(entries, first, c)];
      MarkRangeKey(middle, b, lo + 1, hi, c, k);
      if k != first && k.axis == b && lo + 1 <= k.at <= hi {
        assert MarkOf(middle, k, c) == MarkOf(entries, k, c);
      }
    }
  }

  /** What one sweep does to key k: recorded where the line covers it, unchanged elsewhere. */
  predicate SweptKey(before: Cache, after: Cache, tiles: seq<Tile>, a: Axis, c: int, k: Key)
  {
    if k.axis == Across(a) && Covers(tiles, a, c, k.at) then k in after && after[k] == MarkOf(before, k, c)
    else (k in after <==> k in before) && (k in before ==> after[k] == before[k])
  }

  /** One sweep of a line of axis a keeps every key along a. */
  lemma SweepKeeps(entries: Cache, tiles: seq<Tile>, a: Axis, c: int)
    ensures SameKeys(entries, Sweep(entries, tiles, a, c), a)
  {
    forall k: Key | k.axis == a
      ensures (k in Sweep(entries, tiles, a, c) <==> k in entries)
      ensures k in entries ==> Sweep(entries, tiles, a, c)[k] == entries[k]
    {
      SweepKey(entries, tiles, a, c, k);
    }
  }

  lemma SweepKey(entries: Cache, tiles: seq<Tile>, a: Axis, c: int, k: Key)
    ensures SweptKey(entries, Sweep(entries, tiles, a, c), tiles, a, c, k)
  {
    var line := Line(tiles, a, c);
    var lo, hi := MinOr(line, -1), MaxOr(line, -1);
    if lo != -1 && hi != -1 {
      MarkRangeKey(entries, Across(a), lo, hi, c, k);
    }
  }

  // ---------------------------------------------------------------------------
  // What the cache holds

  /**
   * After the sweeps of lines 0..n-1 of axis a, the key at position i across them holds exactly
   * the least and the greatest line whose sweep covers i, and is absent when none does.
   */
  predicate HullAt(tiles: seq<Tile>, entries: Cache, a: Axis, n: int, i: int)
  {
    var k := Key(Across(a), i);
    if k in entries then
      var m := entries[k];
      && 0 <= m.min <= m.max < n
      && Covers(tiles, a, m.min, i) && Covers(tiles, a, m.max, i)
      && forall c :: 0 <= c < n && Covers(tiles, a, c, i) ==> m.min <= c <= m.max
    else
      forall c :: 0 <= c < n ==> !Covers(tiles, a, c, i)
  }

  ghost predicate HullOf(tiles: seq<Tile>, entries: Cache, a: Axis, n: int)
  {
    forall i :: HullAt(tiles, entries, a, n, i)
  }

  /** The whole cache: row ranges from the column sweeps, column ranges from the row sweeps. */
  ghost predicate IsHull(tiles: seq<Tile>, entries: Cache)
  {
    HullOf(tiles, entries, X, Size(tiles, X)) && HullOf(tiles, entries, Y, Size(tiles, Y))
  }

  /** Sweeping line n keeps the hull, now over lines 0..n. */
  lemma HullStep(tiles: seq<Tile>, entries: Cache, a: Axis, n: nat)
    requires HullOf(tiles, entries, a, n)
    ensures HullOf(tiles, Sweep(entries, tiles, a, n), a, n + 1)
  {
    var after, next := Sweep(entries, tiles, a, n), n + 1;
    forall i
      ensures HullAt(tiles, after, a, next, i)
    {
      SweepKey(entries, tiles, a, n, Key(Across(a), i));
      HullStepAt(tiles, entries, after, a, n, i);
    }
  }

  /** One key of the hull step. */
  lemma HullStepAt(tiles: seq<Tile>, entries: Cache, after: Cache, a: Axis, n: nat, i: int)
    requires HullAt(tiles, entries, a, n, i)
    requires SweptKey(entries, after, tiles, a, n, Key(Across(a), i))
    ensures HullAt(tiles, after, a, n + 1, i)
  {
    var k := Key(Across(a), i);
    var covered := Covers(tiles, a, n, i);
    if covered && k in entries {
      var m := entries[k];
      assert after[k] == MinMax(m.min, n);
      forall c | 0 <= c < n + 1 && Covers(tiles, a, c, i)
        ensures m.min <= c <= n
      {
        if c < n {
          assert m.min <= c <= m.max;
        }
      }
    } else if covered {
      assert after[k] == MinMax(n, n);
      forall c | 0 <= c < n + 1 && Covers(tiles, a, c, i)
        ensures c == n
      {
        assert c < n ==> !Covers(tiles, a, c, i);
      }
    } else if k in entries {
      var m := entries[k];
      assert after[k] == m;
      forall c | 0 <= c < n + 1 && Covers(tiles, a, c, i)
        ensures m.min <= c <= m.max
      {
        if c < n {
          assert m.min <= c <= m.max;
        }
      }
    } else {
      assert k !in after;
    }
  }

  /** A sweep of axis a leaves the keys of axis a alone. */
  ghost predicate SameKeys(before: Cache, after: Cache, b: Axis)
  {
    forall k: Key :: k.axis == b ==> (k in after <==> k in before) && (k in before ==> after[k] == before[k])
  }

  /**
   * The sweeps of lines 0..n-1, started on a cache with no keys across axis a, build the hull
   * over those lines.
   */
  lemma {:induction false} SweepAllHull(tiles: seq<Tile>, entries: Cache, a: Axis, n: nat)
    requires HullOf(tiles, entries, a, 0)
    ensures HullOf(tiles, SweepAll(entries, tiles, a, n), a, n)
  {
    if n > 0 {
      var before := SweepAll(entries, tiles, a, n - 1);
      SweepAllHull(tiles, entries, a, n - 1);
      HullStep(tiles, before, a, n - 1);
    }
  }

  /** The hull over one axis only looks at the keys across it. */
  lemma HullKept(tiles: seq<Tile>, before: Cache, after: Cache, a: Axis, n: int)
    requires HullOf(tiles, before, a, n)
    requires SameKeys(before, after, Across(a))
    ensures HullOf(tiles, after, a, n)
  {
    forall i
      ensures HullAt(tiles, after, a, n, i)
    {
      assert HullAt(tiles, before, a, n, i);
    }
  }

  /** The finished cache is the hull on both axes. */
  lemma MinMaxCoordinatesHull(tiles: seq<Tile>)
    ensures IsHull(tiles, SweepAll(SweepAll(map[], tiles, X, Size(tiles, X)), tiles, Y, Size(tiles, Y)))
  {
    var columns := SweepAll(map[], tiles, X, Size(tiles, X));
    SweepAllHull(tiles, map[], X, Size(tiles, X));
    forall i
      ensures HullAt(tiles, columns, Y, 0, i)
    {
      assert Key(X, i) !in columns;
    }
    SweepAllHull(tiles, columns, Y, Size(tiles, Y));
    HullKept(tiles, columns, SweepAll(columns, tiles, Y, Size(tiles, Y)), X, Size(tiles, X));
  }

  // ---------------------------------------------------------------------------
  // Checking points

  /** The range v holds position p. */
  predicate InRange(v: MinMax, p: int)
  {
    v.min <= p <= v.max
  }

  /**
   * `checkNotInBound`: true where x lies outside row y's x-range or y outside column x's
   * y-range, or where a range starts at -1; Err where a lookup finds no entry, since the code
   * dereferences the null it gets back.
   */
  function CheckNotInBound(entries: Cache, x: int, y: int): (r: Result<bool>)
    ensures r.Err? <==> Key(Y, y) !in entries || (entries[Key(Y, y)].min != -1 && Key(X, x) !in entries)
    ensures r.Err? ==> r.failure == NullDereference
    ensures r == Ok(false) <==>
      && Key(Y, y) in entries && Key(X, x) in entries
      && entries[Key(Y, y)].min != -1 && entries[Key(X, x)].min != -1
      && InRange(entries[Key(Y, y)], x) && InRange(entries[Key(X, x)], y)
  {
    var row, column := Key(Y, y), Key(X, x);
    if row !in entries then Err(NullDereference)
    else if entries[row].min == -1 then Ok(true)
    else if column !in entries then Err(NullDereference)
    else if entries[column].min == -1 then Ok(true)
    else Ok(x < entries[row].min || x > entries[row].max || y < entries[column].min || y > entries[column].max)
  }

  /** Some line among 0..n-1 of axis a covers position i. */
  predicate Swept(tiles: seq<Tile>, a: Axis, n: int, i: int)
  {
    exists c :: 0 <= c < n && Covers(tiles, a, c, i)
  }

  /** Position v lies between two lines among 0..n-1 of axis a that both cover position i. */
  predicate Between(tiles: seq<Tile>, a: Axis, n: int, i: int, v: int)
  {
    exists c1, c2 :: 0 <= c1 <= v <= c2 < n && Covers(tiles, a, c1, i) && Covers(tiles, a, c2, i)
  }

  /** What one entry of the hull says about a position. */
  lemma HullEntry(tiles: seq<Tile>, entries: Cache, a: Axis, n: int, i: int, v: int)
    requires HullOf(tiles, entries, a, n)
    ensures Key(Across(a), i) in entries <==> Swept(tiles, a, n, i)
    ensures Key(Across(a), i) in entries ==> entries[Key(Across(a), i)].min >= 0
    ensures Key(Across(a), i) in entries ==> (InRange(entries[Key(Across(a), i)], v) <==> Between(tiles, a, n, i, v))
  {
    var k := Key(Across(a), i);
    assert HullAt(tiles, entries, a, n, i);
    if k in entries {
      var m := entries[k];
      assert Swept(tiles, a, n, i) by {
        assert 0 <= m.min < n && Covers(tiles, a, m.min, i);
      }
      if InRange(m, v) {
        assert 0 <= m.min <= v <= m.max < n && Covers(tiles, a, m.min, i) && Covers(tiles, a, m.max, i);
      }
      if Between(tiles, a, n, i, v) {
        var c1, c2 :| 0 <= c1 <= v <= c2 < n && Covers(tiles, a, c1, i) && Covers(tiles, a, c2, i);
        assert m.min <= c1 && c2 <= m.max;
      }
    }
  }

  /**
   * Over the finished cache a lookup fails exactly where no column sweep crosses row y or no
   * row sweep crosses column x, and (x, y) is in bound exactly where x lies between two columns
   * whose sweeps cross row y and y between two rows whose sweeps cross column x.
   */
  lemma CheckMeaning(tiles: seq<Tile>, entries: Cache, x: int, y: int)
    requires IsHull(tiles, entries)
    ensures CheckNotInBound(entries, x, y).Err? <==> !Swept(tiles, X, Size(tiles, X), y) || !Swept(tiles, Y, Size(tiles, Y), x)
    ensures CheckNotInBound(entries, x, y) == Ok(false) <==>
      Between(tiles, X, Size(tiles, X), y, x) && Between(tiles, Y, Size(tiles, Y), x, y)
  {
    HullEntry(tiles, entries, X, Size(tiles, X), y, x);
    HullEntry(tiles, entries, Y, Size(tiles, Y), x, y);
    if Between(tiles, X, Size(tiles, X), y, x) {
      var c1, c2 :| 0 <= c1 <= x <= c2 < Size(tiles, X) && Covers(tiles, X, c1, y) && Covers(tiles, X, c2, y);
    }
    if Between(tiles, Y, Size(tiles, Y), x, y) {
      var c1, c2 :| 0 <= c1 <= y <= c2 < Size(tiles, Y) && Covers(tiles, Y, c1, x) && Covers(tiles, Y, c2, x);
    }
  }

  /** No tile has a negative coordinate. */
  predicate NonNegative(tiles: seq<Tile>)
  {
    forall t :: t in tiles ==> t.x >= 0 && t.y >= 0
  }

  /** A tile's own line covers it, and that line is among the swept ones. */
  lemma TileCovered(tiles: seq<Tile>, t: Tile, a: Axis)
    requires t in tiles && NonNegative(tiles)
    ensures 0 <= Coord(t, a) < Size(tiles, a)
    ensures Covers(tiles, a, Coord(t, a), Coord(t, Across(a)))
  {
    var k :| 0 <= k < |tiles| && tiles[k] == t;
    assert Coords(tiles, a)[k] == Coord(t, a) && Coords(tiles, a)[k] in Coords(tiles, a);
    var line := Line(tiles, a, Coord(t, a));
    assert Coord(t, Across(a)) in line;
    var lo := MinOr(line, -1);
    assert lo in line;
    var owner :| owner in tiles && Coord(owner, a) == Coord(t, a) && Coord(owner, Across(a)) == lo;
  }

  /** Every red tile is in bound of the finished cache. */
  lemma TileInBound(tiles: seq<Tile>, entries: Cache, t: Tile)
    requires IsHull(tiles, entries) && NonNegative(tiles) && t in tiles
    ensures CheckNotInBound(entries, t.x, t.y) == Ok(false)
  {
    TileCovered(tiles, t, X);
    TileCovered(tiles, t, Y);
    assert Between(tiles, X, Size(tiles, X), t.y, t.x);
    assert Between(tiles, Y, Size(tiles, Y), t.x, t.y);
    CheckMeaning(tiles, entries, t.x, t.y);
  }

  // ---------------------------------------------------------------------------
  // Checking rectangles

  /** The point at position i along axis a, on line c of the other axis. */
  function Point(a: Axis, i: int, c: int): (int, int)
  {
    if a == X then (i, c) else (c, i)
  }

  predicate InBoundAt(entries: Cache, p: (int, int))
  {
    CheckNotInBound(entries, p.0, p.1) == Ok(false)
  }

  predicate OutOfBoundAt(entries: Cache, p: (int, int))
  {
    CheckNotInBound(entries, p.0, p.1) == Ok(true)
  }

  predicate LookupFailsAt(entries: Cache, p: (int, int))
  {
    CheckNotInBound(entries, p.0, p.1).Err?
  }

  /** A point check as a pass: Ok(true) where the point is in bound. */
  function Passes(check: Result<bool>): Result<bool>
  {
    if check.Err? then Err(check.failure) else Ok(!check.value)
  }

  /** `if (!check) return false;` followed by the rest. */
  function AndThen(first: Result<bool>, rest: Result<bool>): Result<bool>
  {
    if first == Ok(true) then rest else first
  }

  /** `horizontalVertexInBounds` (a == X) and `verticalVertexInBound` (a == Y): the points lo..hi along a on line c. */
  function EdgeScan(entries: Cache, a: Axis, lo: int, hi: int, c: int): (r: Result<bool>)
    ensures r.Err? ==> r.failure == NullDereference
    decreases if lo <= hi then hi - lo + 1 else 0
  {
    if lo > hi then Ok(true)
    else
      var p := Point(a, lo, c);
      AndThen(Passes(CheckNotInBound(entries, p.0, p.1)), EdgeScan(entries, a, lo + 1, hi, c))
  }

  /**
   * An edge passes exactly when every point on it is in bound; it fails only at a point out of
   * bound, and errs only at a point whose lookup fails.
   */
  lemma {:induction false} EdgeScanSpec(entries: Cache, a: Axis, lo: int, hi: int, c: int)
    ensures EdgeScan(entries, a, lo, hi, c) == Ok(true) <==> forall i :: lo <= i <= hi ==> InBoundAt(entries, Point(a, i, c))
    ensures EdgeScan(entries, a, lo, hi, c) == Ok(false) ==> exists i :: lo <= i <= hi && OutOfBoundAt(entries, Point(a, i, c))
    ensures EdgeScan(entries, a, lo, hi, c).Err? ==> exists i :: lo <= i <= hi && LookupFailsAt(entries, Point(a, i, c))
    ensures (forall i :: lo <= i <= hi ==> !LookupFailsAt(entries, Point(a, i, c))) ==> EdgeScan(entries, a, lo, hi, c).Ok?
    decreases if lo <= hi then hi - lo + 1 else 0
  {
    if lo <= hi {
      EdgeScanSpec(entries, a, lo + 1, hi, c);
      var p := Point(a, lo, c);
      var r := EdgeScan(entries, a, lo, hi, c);
      if r == Ok(true) {
        forall i | lo <= i <= hi
          ensures InBoundAt(entries, Point(a, i, c))
        {
          if i > lo {
            assert lo + 1 <= i <= hi;
          }
        }
      }
    }
  }

  /** `isValid`: the four corners first, then the four edges, each stopping at the first point out of bound. */
  function Valid(entries: Cache, t1: Tile, t2: Tile): (r: Result<bool>)
    ensures r.Err? ==> r.failure == NullDereference
  {
    var xBegin, xEnd := Min(t1.x, t2.x), Max(t1.x, t2.x);
    var yBegin, yEnd := Min(t1.y, t2.y), Max(t1.y, t2.y);
    var corners :=
      AndThen(Passes(CheckNotInBound(entries, xBegin, yBegin)),
      AndThen(Passes(CheckNotInBound(entries, xEnd, yBegin)),
      AndThen(Passes(CheckNotInBound(entries, xBegin, yEnd)),
      Passes(CheckNotInBound(entries, xEnd, yEnd)))));
    var edges :=
      AndThen(EdgeScan(entries, X, xBegin, xEnd, yBegin),
      AndThen(EdgeScan(entries, X, xBegin, xEnd, yEnd),
      AndThen(EdgeScan(entries, Y, yBegin, yEnd, xBegin),
      EdgeScan(entries, Y, yBegin, yEnd, xEnd))));
    AndThen(corners, edges)
  }

  /** The point p lies on the border of the rectangle spanned by t1 and t2. */
  predicate OnPerimeter(t1: Tile, t2: Tile, p: (int, int))
  {
    var xBegin, xEnd := Min(t1.x, t2.x), Max(t1.x, t2.x);
    var yBegin, yEnd := Min(t1.y, t2.y), Max(t1.y, t2.y);
    || (xBegin <= p.0 <= xEnd && (p.1 == yBegin || p.1 == yEnd))
    || (yBegin <= p.1 <= yEnd && (p.0 == xBegin || p.0 == xEnd))
  }

  /** The order of the two tiles does not matter. */
  lemma ValidSymmetric(entries: Cache, t1: Tile, t2: Tile)
    ensures Valid(entries, t1, t2) == Valid(entries, t2, t1)
    ensures forall p :: OnPerimeter(t1, t2, p) <==> OnPerimeter(t2, t1, p)
  {
  }

  /** The points of one edge all lie on the perimeter. */
  lemma EdgesOnPerimeter(t1: Tile, t2: Tile)
    ensures forall i :: Min(t1.x, t2.x) <= i <= Max(t1.x, t2.x) ==> OnPerimeter(t1, t2, Point(X, i, Min(t1.y, t2.y)))
    ensures forall i :: Min(t1.x, t2.x) <= i <= Max(t1.x, t2.x) ==> OnPerimeter(t1, t2, Point(X, i, Max(t1.y, t2.y)))
    ensures forall i :: Min(t1.y, t2.y) <= i <= Max(t1.y, t2.y) ==> OnPerimeter(t1, t2, Point(Y, i, Min(t1.x, t2.x)))
    ensures forall i :: Min(t1.y, t2.y) <= i <= Max(t1.y, t2.y) ==> OnPerimeter(t1, t2, Point(Y, i, Max(t1.x, t2.x)))
  {
  }

  /** The four edges pass exactly when every point of the perimeter is in bound. */
  lemma EdgesPassIffPerimeter(entries: Cache, t1: Tile, t2: Tile)
    ensures
      var xBegin, xEnd := Min(t1.x, t2.x), Max(t1.x, t2.x);
      var yBegin, yEnd := Min(t1.y, t2.y), Max(t1.y, t2.y);
      (&& EdgeScan(entries, X, xBegin, xEnd, yBegin) == Ok(true)
       && EdgeScan(entries, X, xBegin, xEnd, yEnd) == Ok(true)
       && EdgeScan(entries, Y, yBegin, yEnd, xBegin) == Ok(true)
       && EdgeScan(entries, Y, yBegin, yEnd, xEnd) == Ok(true))
      <==> forall p :: OnPerimeter(t1, t2, p) ==> InBoundAt(entries, p)
  {
    var xBegin, xEnd := Min(t1.x, t2.x), Max(t1.x, t2.x);
    var yBegin, yEnd := Min(t1.y, t2.y), Max(t1.y, t2.y);
    EdgeScanSpec(entries, X, xBegin, xEnd, yBegin);
    EdgeScanSpec(entries, X, xBegin, xEnd, yEnd);
    EdgeScanSpec(entries, Y, yBegin, yEnd, xBegin);
    EdgeScanSpec(entries, Y, yBegin, yEnd, xEnd);
    EdgesOnPerimeter(t1, t2);
    if && EdgeScan(entries, X, xBegin, xEnd, yBegin) == Ok(true)
       && EdgeScan(entries, X, xBegin, xEnd, yEnd) == Ok(true)
       && EdgeScan(entries, Y, yBegin, yEnd, xBegin) == Ok(true)
       && EdgeScan(entries, Y, yBegin, yEnd, xEnd) == Ok(true)
    {
      forall p | OnPerimeter(t1, t2, p)
        ensures InBoundAt(entries, p)
      {
        if xBegin <= p.0 <= xEnd && p.1 == yBegin {
          assert p == Point(X, p.0, yBegin);
        } else if xBegin <= p.0 <= xEnd && p.1 == yEnd {
          assert p == Point(X, p.0, yEnd);
        } else if p.0 == xBegin {
          assert p == Point(Y, p.1, xBegin);
        } else {
          assert p == Point(Y, p.1, xEnd);
        }
      }
    }
  }

  /**
   * `isValid` accepts exactly the rectangles whose whole perimeter is in bound, so the early
   * corner checks never change an answer.
   */
  lemma ValidIsPerimeter(entries: Cache, t1: Tile, t2: Tile)
    ensures Valid(entries, t1, t2) == Ok(true) <==> forall p :: OnPerimeter(t1, t2, p) ==> InBoundAt(entries, p)
  {
    EdgesPassIffPerimeter(entries, t1, t2);
    CornersOnPerimeter(t1, t2);
  }

  /** `isValid` rejects a rectangle only at a point of its perimeter that is out of bound. */
  lemma ValidRejectsOutOfBound(entries: Cache, t1: Tile, t2: Tile)
    ensures Valid(entries, t1, t2) == Ok(false) ==> exists p :: OnPerimeter(t1, t2, p) && OutOfBoundAt(entries, p)
  {
    var xBegin, xEnd := Min(t1.x, t2.x), Max(t1.x, t2.x);
    var yBegin, yEnd := Min(t1.y, t2.y), Max(t1.y, t2.y);
    EdgeScanSpec(entries, X, xBegin, xEnd, yBegin);
    EdgeScanSpec(entries, X, xBegin, xEnd, yEnd);
    EdgeScanSpec(entries, Y, yBegin, yEnd, xBegin);
    EdgeScanSpec(entries, Y, yBegin, yEnd, xEnd);
    EdgesOnPerimeter(t1, t2);
    CornersOnPerimeter(t1, t2);
  }

  /**
   * `isValid` errs only at a point of the perimeter whose lookup fails, and cannot err when no
   * lookup on the perimeter fails.
   */
  lemma ValidErrsOnLookup(entries: Cache, t1: Tile, t2: Tile)
    ensures Valid(entries, t1, t2).Err? ==> exists p :: OnPerimeter(t1, t2, p) && LookupFailsAt(entries, p)
    ensures (forall p :: OnPerimeter(t1, t2, p) ==> !LookupFailsAt(entries, p)) ==> Valid(entries, t1, t2).Ok?
  {
    var xBegin, xEnd := Min(t1.x, t2.x), Max(t1.x, t2.x);
    var yBegin, yEnd := Min(t1.y, t2.y), Max(t1.y, t2.y);
    EdgeScanSpec(entries, X, xBegin, xEnd, yBegin);
    EdgeScanSpec(entries, X, xBegin, xEnd, yEnd);
    EdgeScanSpec(entries, Y, yBegin, yEnd, xBegin);
    EdgeScanSpec(entries, Y, yBegin, yEnd, xEnd);
    EdgesOnPerimeter(t1, t2);
    CornersOnPerimeter(t1, t2);
  }

  /** The four corners lie on the perimeter. */
  lemma CornersOnPerimeter(t1: Tile, t2: Tile)
    ensures OnPerimeter(t1, t2, (Min(t1.x, t2.x), Min(t1.y, t2.y))) && OnPerimeter(t1, t2, (Max(t1.x, t2.x), Min(t1.y, t2.y)))
    ensures OnPerimeter(t1, t2, (Min(t1.x, t2.x), Max(t1.y, t2.y))) && OnPerimeter(t1, t2, (Max(t1.x, t2.x), Max(t1.y, t2.y)))
  {
  }

  // ---------------------------------------------------------------------------
  // The cache as the code keeps it

  /** The `minMaxCache` map, filled in place by the sweeps. */
  class MinMaxCache {
    var entries: Cache

    constructor()
      ensures entries == map[]
    {
      entries := map[];
    }

    /** The loop shared by `initVertically` and `initHorizontally`. */
    method SweepLine(tiles: seq<Tile>, a: Axis, c: int)
      modifies this
      ensures entries == Sweep(old(entries), tiles, a, c)
    {
      var line := Line(tiles, a, c);
      var lo, hi := MinOr(line, -1), MaxOr(line, -1);
      if lo == -1 || hi == -1 {
        return;
      }
      var i := lo;
      while i <= hi
        invariant lo <= i <= hi + 1
        invariant MarkRange(entries, Across(a), i, hi, c) == MarkRange(old(entries), Across(a), lo, hi, c)
        decreases hi - i
      {
        var key := Key(Across(a), i);
        if key in entries {
          entries := entries[key := Widen(entries[key], c)];
        } else {
          entries := entries[key := MinMax(c, c)];
        }
        i := i + 1;
      }
    }

    /** `initVertically`: column x records itself in the x-range of every row its tiles span. */
    method InitVertically(tiles: seq<Tile>, x: int)
      modifies this
      ensures entries == Sweep(old(entries), tiles, X, x)
    {
      SweepLine(tiles, X, x);
    }

    /** `initHorizontally`: row y records itself in the y-range of every column its tiles span. */
    method InitHorizontally(tiles: seq<Tile>, y: int)
      modifies this
      ensures entries == Sweep(old(entries), tiles, Y, y)
    {
      SweepLine(tiles, Y, y);
    }

    /** The first loop of `initMinMaxCoordinates`: columns 0..sizeX-1 swept in turn. */
    method InitColumns(tiles: seq<Tile>, sizeX: int)
      requires sizeX == MaxOr(Coords(tiles, X), -1) + 1
      modifies this
      ensures entries == SweepAll(old(entries), tiles, X, Size(tiles, X))
    {
      var x := 0;
      while x < sizeX
        invariant 0 <= x && (x <= sizeX || x == 0)
        invariant entries == SweepAll(old(entries), tiles, X, x)
      {
        InitVertically(tiles, x);
        x := x + 1;
      }
    }

    /** The second loop of `initMinMaxCoordinates`: rows 0..sizeY-1 swept in turn. */
    method InitRows(tiles: seq<Tile>, sizeY: int)
      requires sizeY == MaxOr(Coords(tiles, Y), -1) + 1
      modifies this
      ensures entries == SweepAll(old(entries), tiles, Y, Size(tiles, Y))
    {
      var y := 0;
      while y < sizeY
        invariant 0 <= y && (y <= sizeY || y == 0)
        invariant entries == SweepAll(old(entries), tiles, Y, y)
      {
        InitHorizontally(tiles, y);
        y := y + 1;
      }
    }

    /** `horizontalVertexInBounds` and `verticalVertexInBound`: the points lo..hi along axis a on line c. */
    method VertexInBounds(a: Axis, lo: int, hi: int, c: int) returns (r: Result<bool>)
      ensures r == EdgeScan(entries, a, lo, hi, c)
    {
      var i := lo;
      while i <= hi
        invariant i <= hi + 1 || i == lo
        invariant EdgeScan(entries, a, lo, hi, c) == EdgeScan(entries, a, i, hi, c)
        decreases hi - i
      {
        var p := Point(a, i, c);
        var notInBound := CheckNotInBound(entries, p.0, p.1);
        if notInBound.Err? {
          return Err(notInBound.failure);
        }
        if notInBound.value {
          return Ok(false);
        }
        i := i + 1;
      }
      return Ok(true);
    }

    /** `isValid` on the cache as it stands. */
    method IsValid(t1: Tile, t2: Tile) returns (r: Result<bool>)
      ensures r == Valid(entries, t1, t2)
    {
      var xBegin, xEnd := Min(t1.x, t2.x), Max(t1.x, t2.x);
      var yBegin, yEnd := Min(t1.y, t2.y), Max(t1.y, t2.y);
      var notInBound := CheckNotInBound(entries, xBegin, yBegin);
      if notInBound != Ok(false) {
        return Passes(notInBound);
      }
      notInBound := CheckNotInBound(entries, xEnd, yBegin);
      if notInBound != Ok(false) {
        return Passes(notInBound);
      }
      notInBound := CheckNotInBound(entries, xBegin, yEnd);
      if notInBound != Ok(false) {
        return Passes(notInBound);
      }
      notInBound := CheckNotInBound(entries, xEnd, yEnd);
      if notInBound != Ok(false) {
        return Passes(notInBound);
      }
      r := VertexInBounds(X, xBegin, xEnd, yBegin);
      if r != Ok(true) {
        return;
      }
      r := VertexInBounds(X, xBegin, xEnd, yEnd);
      if r != Ok(true) {
        return;
      }
      r := VertexInBounds(Y, yBegin, yEnd, xBegin);
      if r != Ok(true) {
        return;
      }
      r := VertexInBounds(Y, yBegin, yEnd, xEnd);
    }
  }

  /** `initMinMaxCoordinates`: a new cache, every column swept, then every row. */
  method InitMinMaxCoordinates(tiles: seq<Tile>) returns (cache: MinMaxCache)
    ensures fresh(cache)
    ensures cache.entries == MinMaxCoordinates(tiles)
  {
    var sizeX := MaxOr(Coords(tiles, X), -1) + 1;
    var sizeY := MaxOr(Coords(tiles, Y), -1) + 1;
    cache := new MinMaxCache();
    cache.InitColumns(tiles, sizeX);
    cache.InitRows(tiles, sizeY);
  }
}
