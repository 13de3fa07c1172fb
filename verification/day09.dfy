/**
 * The rectangle finder: the largest rectangle with two red tiles at opposite corners (part one),
 * and the largest such rectangle whose perimeter stays inside the bounds cache (part two).
 */
module Day09 {
  import opened Common
  import opened JavaText
  import opened Day09Bounds

  // ---------------------------------------------------------------------------
  // Input

  /** One line "x,y": split on ',' and the first two pieces parsed; None where the code throws. */
  function ParseTile(line: string): (r: Option<Tile>)
    ensures !Contains(line, {','}) ==> r == None
    ensures r.Some? ==> IsInt(r.value.x) && IsInt(r.value.y)
  {
    var split := SplitOn(line, {','});
    if |split| < 2 then None
    else
      var x, y := ParseInt(split[0]), ParseInt(split[1]);
      if x.Some? && y.Some? then Some(Tile(x.value, y.value)) else None
  }

  /** A tile with int coordinates, printed as "x,y", reads back as that tile. */
  lemma ParseTileDecimal(x: nat, y: nat)
    requires IsInt(x) && IsInt(y)
    ensures ParseTile(Decimal(x) + "," + Decimal(y)) == Some(Tile(x, y))
  {
    var dx, dy := Decimal(x), Decimal(y);
    assert forall i :: 0 <= i < |dx| ==> IsDigit(dx[i]);
    assert forall i :: 0 <= i < |dy| ==> IsDigit(dy[i]);
    assert dx + "," + dy == dx + [','] + dy;
    SplitPair(dx, ',', dy);
    ParseIntDecimal(x);
    ParseIntDecimal(y);
  }

  /** The tiles the parsed lines hold, in order, or a failure where a line did not parse. */
  function CollectTiles(parsed: seq<Option<Tile>>): (r: Result<seq<Tile>>)
    ensures r.Ok? <==> forall i :: 0 <= i < |parsed| ==> parsed[i].Some?
    ensures r.Ok? ==> |r.value| == |parsed| && forall i :: 0 <= i < |parsed| ==> parsed[i] == Some(r.value[i])
    ensures r.Err? ==> r.failure == MalformedInput
  {
    if parsed == [] then Ok([])
    else
      var init := parsed[..|parsed| - 1];
      var front := CollectTiles(init);
      var tile := parsed[|parsed| - 1];
      if front.Err? then front
      else if tile.None? then Err(MalformedInput)
      else
        var tiles := front.value + [tile.value];
        assert forall i :: 0 <= i < |init| ==> tiles[i] == front.value[i] && init[i] == parsed[i];
        Ok(tiles)
  }

  /** `initRedTiles`: every line parsed, in order, or the failure of a line that does not parse. */
  function RedTiles(lines: seq<string>): (r: Result<seq<Tile>>)
    ensures r.Ok? <==> forall i :: 0 <= i < |lines| ==> ParseTile(lines[i]).Some?
    ensures r.Ok? ==> |r.value| == |lines| && forall i :: 0 <= i < |lines| ==> ParseTile(lines[i]) == Some(r.value[i])
    ensures r.Err? ==> r.failure == MalformedInput
  {
    var parsed := seq(|lines|, i requires 0 <= i < |lines| => ParseTile(lines[i]));
    assert forall i :: 0 <= i < |lines| ==> parsed[i] == ParseTile(lines[i]);
    CollectTiles(parsed)
  }

  // ---------------------------------------------------------------------------
  // Areas

  function Abs(v: int): nat
  {
    if v < 0 then -v else v
  }

  /** The number of tiles in the rectangle with t1 and t2 at opposite corners. */
  function Area(t1: Tile, t2: Tile): (size: nat)
    ensures size >= 1
  {
    (Abs(t1.x - t2.x) + 1) * (Abs(t1.y - t2.y) + 1)
  }

  /** The area does not depend on the order of the tiles, and is 1 exactly for a tile paired with itself. */
  lemma AreaFacts(t1: Tile, t2: Tile)
    ensures Area(t1, t2) == Area(t2, t1)
    ensures Area(t1, t2) == 1 <==> t1 == t2
  {
    var w, h := Abs(t1.x - t2.x) + 1, Abs(t1.y - t2.y) + 1;
    assert Abs(t2.x - t1.x) + 1 == w && Abs(t2.y - t1.y) + 1 == h;
    if w > 1 {
      assert w * h >= 2 * h;
    } else if h > 1 {
      assert w * h == h;
    }
  }

  /** The largest area between tile t and any of `others`; 0 when there are none. */
  function RowLargest(t: Tile, others: seq<Tile>): nat
  {
    if others == [] then 0
    else
      var best := RowLargest(t, others[..|others| - 1]);
      var size := Area(t, others[|others| - 1]);
      if size > best then size else best
  }

  /** The largest area between a tile of `rows` and a tile of `tiles`; 0 when there is no pair. */
  function LargestOver(rows: seq<Tile>, tiles: seq<Tile>): nat
  {
    if rows == [] then 0
    else
      var best := LargestOver(rows[..|rows| - 1], tiles);
      var row := RowLargest(rows[|rows| - 1], tiles);
      if row > best then row else best
  }

  /** Part one: the largest area over all ordered pairs of red tiles, a tile with itself included. */
  function LargestArea(tiles: seq<Tile>): nat
  {
    LargestOver(tiles, tiles)
  }

  /** A row's largest area bounds every pair of the row and is reached by one of them. */
  lemma {:induction false} RowLargestIsMax(t: Tile, others: seq<Tile>)
    ensures forall o :: o in others ==> Area(t, o) <= RowLargest(t, others)
    ensures others == [] ==> RowLargest(t, others) == 0
    ensures others != [] ==> exists o :: o in others && Area(t, o) == RowLargest(t, others)
  {
    if others != [] {
      var front, last := others[..|others| - 1], others[|others| - 1];
      assert others == front + [last];
      RowLargestIsMax(t, front);
      var best, size := RowLargest(t, front), Area(t, last);
      assert RowLargest(t, others) == if size > best then size else best;
      forall o | o in others
        ensures Area(t, o) <= RowLargest(t, others)
      {
        if o != last {
          assert o in front;
        }
      }
      if size <= best && front != [] {
        var o :| o in front && Area(t, o) == best;
        assert o in others;
      }
    }
  }

  /** The largest area over the rows bounds every pair and is reached by one of them. */
  lemma {:induction false} LargestOverIsMax(rows: seq<Tile>, tiles: seq<Tile>)
    ensures forall t, o :: t in rows && o in tiles ==> Area(t, o) <= LargestOver(rows, tiles)
    ensures rows == [] || tiles == [] ==> LargestOver(rows, tiles) == 0
    ensures rows != [] && tiles != [] ==> exists t, o :: t in rows && o in tiles && Area(t, o) == LargestOver(rows, tiles)
  {
    if rows != [] {
      var front, last := rows[..|rows| - 1], rows[|rows| - 1];
      assert rows == front + [last];
      LargestOverIsMax(front, tiles);
      RowLargestIsMax(last, tiles);
    }
  }

  /**
   * Part one is the largest area over all ordered pairs of red tiles, and 0 exactly when there
   * is no red tile.
   */
  lemma LargestAreaIsMax(tiles: seq<Tile>)
    ensures forall t, o :: t in tiles && o in tiles ==> Area(t, o) <= LargestArea(tiles)
    ensures tiles == [] <==> LargestArea(tiles) == 0
    ensures tiles != [] ==> exists t, o :: t in tiles && o in tiles && Area(t, o) == LargestArea(tiles)
  {
    LargestOverIsMax(tiles, tiles);
  }

  /** A pair whose area bounds the area of every pair, by index, spans the largest rectangle. */
  lemma LargestAreaAt(tiles: seq<Tile>, i: nat, j: nat)
    requires i < |tiles| && j < |tiles|
    requires forall k, l :: 0 <= k < |tiles| && 0 <= l < |tiles| ==> Area(tiles[k], tiles[l]) <= Area(tiles[i], tiles[j])
    ensures LargestArea(tiles) == Area(tiles[i], tiles[j])
  {
    LargestAreaIsMax(tiles);
    var t, o :| t in tiles && o in tiles && Area(t, o) == LargestArea(tiles);
    var k :| 0 <= k < |tiles| && tiles[k] == t;
    var l :| 0 <= l < |tiles| && tiles[l] == o;
  }

  /** Part one on the puzzle lines. */
  function PartOne(lines: seq<string>): Result<nat>
  {
    var tiles := RedTiles(lines);
    if tiles.Err? then Err(tiles.failure) else Ok(LargestArea(tiles.value))
  }

  /** `solvePartOne`: the red tiles read, then the largest area over their pairs. */
  method SolvePartOne(lines: seq<string>) returns (r: Result<nat>)
    ensures r == PartOne(lines)
  {
    var redTiles := RedTiles(lines);
    if redTiles.Err? {
      return Err(redTiles.failure);
    }
    var biggestSize := FindLargestArea(redTiles.value);
    return Ok(biggestSize);
  }

  /** The nested loops of `solvePartOne`: every ordered pair visited, the biggest area kept. */
  method FindLargestArea(tiles: seq<Tile>) returns (biggestSize: nat)
    ensures biggestSize == LargestArea(tiles)
  {
    biggestSize := 0;
    for i := 0 to |tiles|
      invariant biggestSize == LargestOver(tiles[..i], tiles)
    {
      biggestSize := FindRowLargest(tiles[i], tiles, biggestSize);
      assert tiles[..i + 1] == tiles[..i] + [tiles[i]];
    }
    assert tiles[..|tiles|] == tiles;
  }

  /** The inner loop of `solvePartOne`: the pairs of tile t raise the biggest area found so far. */
  method FindRowLargest(t: Tile, tiles: seq<Tile>, biggestSize0: nat) returns (biggestSize: nat)
    ensures biggestSize == Max(biggestSize0, RowLargest(t, tiles))
  {
    biggestSize := biggestSize0;
    for j := 0 to |tiles|
      invariant biggestSize == Max(biggestSize0, RowLargest(t, tiles[..j]))
    {
      var size := Area(t, tiles[j]);
      assert tiles[..j + 1] == tiles[..j] + [tiles[j]];
      if size > biggestSize {
        biggestSize := size;
      }
    }
    assert tiles[..|tiles|] == tiles;
  }

  // ---------------------------------------------------------------------------
  // The size cache

  datatype TilePair = TilePair(tile1: Tile, tile2: Tile)

  /** The `sizeCache` TreeMap: one pair per area. */
  type SizeCache = map<nat, TilePair>

  function PairArea(p: TilePair): nat
  {
    Area(p.tile1, p.tile2)
  }

  /** The pairs (t, o) for every o of `others`, in order. */
  function RowPairs(t: Tile, others: seq<Tile>): (ps: seq<TilePair>)
    ensures |ps| == |others|
    ensures forall j :: 0 <= j < |others| ==> ps[j] == TilePair(t, others[j])
  {
    seq(|others|, j requires 0 <= j < |others| => TilePair(t, others[j]))
  }

  /** Every ordered pair with its first tile from `rows` and its second from `tiles`, in loop order. */
  function AllPairs(rows: seq<Tile>, tiles: seq<Tile>): seq<TilePair>
  {
    if rows == [] then [] else AllPairs(rows[..|rows| - 1], tiles) + RowPairs(rows[|rows| - 1], tiles)
  }

  /** The pairs listed are exactly the pairs of a row tile and a tile. */
  lemma {:induction false} AllPairsMembers(rows: seq<Tile>, tiles: seq<Tile>)
    ensures forall p :: p in AllPairs(rows, tiles) <==> p.tile1 in rows && p.tile2 in tiles
  {
    if rows != [] {
      var front, last := rows[..|rows| - 1], rows[|rows| - 1];
      AllPairsMembers(front, tiles);
      assert rows == front + [last];
      forall p: TilePair | p.tile1 in rows && p.tile2 in tiles
        ensures p in AllPairs(rows, tiles)
      {
        if p.tile1 == last {
          var j :| 0 <= j < |tiles| && tiles[j] == p.tile2;
          assert RowPairs(last, tiles)[j] == p;
        } else {
          assert p.tile1 in front;
        }
      }
    }
  }

  /** `sizeCache.put(area, pair)` for each pair in turn, from an empty map. */
  function PutPairs(ps: seq<TilePair>): SizeCache
  {
    if ps == [] then map[]
    else PutPairs(ps[..|ps| - 1])[PairArea(ps[|ps| - 1]) := ps[|ps| - 1]]
  }

  /** Putting one more pair updates its area and nothing else. */
  lemma PutPairsSnoc(ps: seq<TilePair>, p: TilePair)
    ensures PutPairs(ps + [p]) == PutPairs(ps)[PairArea(p) := p]
  {
    assert (ps + [p])[..|ps|] == ps;
  }

  /** v is the pair at the last position of ps with area k. */
  predicate LastWithArea(ps: seq<TilePair>, k: nat, v: TilePair)
  {
    exists i :: 0 <= i < |ps| && ps[i] == v && PairArea(v) == k && forall j :: i < j < |ps| ==> PairArea(ps[j]) != k
  }

  /** The map holds an area exactly when some pair has it. */
  lemma {:induction false} PutPairsKeys(ps: seq<TilePair>)
    ensures forall k :: k in PutPairs(ps) <==> exists i :: 0 <= i < |ps| && PairArea(ps[i]) == k
  {
    if ps != [] {
      var front, last := ps[..|ps| - 1], ps[|ps| - 1];
      PutPairsKeys(front);
      var cache, earlier := PutPairs(ps), PutPairs(front);
      forall k | exists i :: 0 <= i < |ps| && PairArea(ps[i]) == k
        ensures k in cache
      {
        var i :| 0 <= i < |ps| && PairArea(ps[i]) == k;
        if i < |front| {
          assert front[i] == ps[i] && PairArea(front[i]) == k;
          assert k in earlier;
        }
      }
      forall k | k in cache
        ensures exists i :: 0 <= i < |ps| && PairArea(ps[i]) == k
      {
        if k != PairArea(last) {
          assert k in earlier;
          var i :| 0 <= i < |front| && PairArea(front[i]) == k;
          assert ps[i] == front[i];
        } else {
          assert PairArea(ps[|ps| - 1]) == k;
        }
      }
    }
  }

  /** The pair stored under an area is the last pair put with that area. */
  lemma {:induction false} PutPairsKeepsLast(ps: seq<TilePair>, k: nat)
    requires k in PutPairs(ps)
    ensures LastWithArea(ps, k, PutPairs(ps)[k])
  {
    var front, last := ps[..|ps| - 1], ps[|ps| - 1];
    var cache, earlier := PutPairs(ps), PutPairs(front);
    if k == PairArea(last) {
      assert ps[|ps| - 1] == cache[k];
    } else {
      assert k in earlier && cache[k] == earlier[k];
      PutPairsKeepsLast(front, k);
      var i :| 0 <= i < |front| && front[i] == earlier[k] && PairArea(earlier[k]) == k
        && forall j :: i < j < |front| ==> PairArea(front[j]) != k;
      assert ps[i] == cache[k];
    }
  }

  /** The size cache after the two nested loops of `solvePartTwo`. */
  function SizeCacheOf(tiles: seq<Tile>): SizeCache
  {
    PutPairs(AllPairs(tiles, tiles))
  }

  /** Every area in the size cache belongs to its stored pair of red tiles, and every pair's area is a key. */
  lemma SizeCacheFacts(tiles: seq<Tile>)
    ensures forall k :: k in SizeCacheOf(tiles) ==>
      var p := SizeCacheOf(tiles)[k]; p.tile1 in tiles && p.tile2 in tiles && PairArea(p) == k
    ensures forall t, o :: t in tiles && o in tiles ==> Area(t, o) in SizeCacheOf(tiles)
  {
    var ps := AllPairs(tiles, tiles);
    AllPairsMembers(tiles, tiles);
    PutPairsKeys(ps);
    forall k | k in SizeCacheOf(tiles)
      ensures SizeCacheOf(tiles)[k] in ps && PairArea(SizeCacheOf(tiles)[k]) == k
    {
      PutPairsKeepsLast(ps, k);
    }
    forall t, o | t in tiles && o in tiles
      ensures Area(t, o) in SizeCacheOf(tiles)
    {
      var i :| 0 <= i < |ps| && ps[i] == TilePair(t, o);
      assert PairArea(ps[i]) == Area(t, o);
    }
  }

  /** The stored pair for area 1 is a red tile paired with itself. */
  lemma SizeCacheUnit(tiles: seq<Tile>)
    requires tiles != []
    ensures 1 in SizeCacheOf(tiles)
    ensures SizeCacheOf(tiles)[1].tile1 == SizeCacheOf(tiles)[1].tile2 && SizeCacheOf(tiles)[1].tile1 in tiles
  {
    SizeCacheFacts(tiles);
    AreaFacts(tiles[0], tiles[0]);
    var p := SizeCacheOf(tiles)[1];
    AreaFacts(p.tile1, p.tile2);
  }

  /** `solvePartTwo`'s two nested loops: every ordered pair put under its area. */
  method FillSizeCache(tiles: seq<Tile>) returns (sizeCache: SizeCache)
    ensures sizeCache == SizeCacheOf(tiles)
  {
    sizeCache := map[];
    for i := 0 to |tiles|
      invariant sizeCache == PutPairs(AllPairs(tiles[..i], tiles))
    {
      sizeCache := FillRow(sizeCache, AllPairs(tiles[..i], tiles), tiles[i], tiles);
      assert tiles[..i + 1][..i] == tiles[..i];
    }
    assert tiles[..|tiles|] == tiles;
  }

  /** The inner loop of `solvePartTwo`: the pairs of one red tile put after the pairs `done`. */
  method FillRow(sizeCache0: SizeCache, done: seq<TilePair>, t: Tile, tiles: seq<Tile>) returns (sizeCache: SizeCache)
    requires sizeCache0 == PutPairs(done)
    ensures sizeCache == PutPairs(done + RowPairs(t, tiles))
  {
    sizeCache := sizeCache0;
    assert done + RowPairs(t, tiles[..0]) == done;
    for j := 0 to |tiles|
      invariant sizeCache == PutPairs(done + RowPairs(t, tiles[..j]))
    {
      assert RowPairs(t, tiles[..j + 1]) == RowPairs(t, tiles[..j]) + [TilePair(t, tiles[j])];
      assert done + RowPairs(t, tiles[..j + 1]) == (done + RowPairs(t, tiles[..j])) + [TilePair(t, tiles[j])];
      PutPairsSnoc(done + RowPairs(t, tiles[..j]), TilePair(t, tiles[j]));
      sizeCache := sizeCache[Area(t, tiles[j]) := TilePair(t, tiles[j])];
    }
    assert tiles[..|tiles|] == tiles;
  }

  // ---------------------------------------------------------------------------
  // Polling in descending order

  /** The key `pollLastEntry` takes. */
  ghost function LargestKey(keys: set<nat>): (k: nat)
    requires keys != {}
    ensures k in keys && forall j :: j in keys ==> j <= k
    decreases |keys|
  {
    var x :| x in keys;
    var others := keys - {x};
    assert forall j :: j in keys ==> j == x || j in others;
    if others == {} then x
    else
      var k := LargestKey(others);
      if x <= k then k else x
  }

  /** The verdict of `isValid` on a stored pair, against a fixed bounds cache. */
  function Validity(entries: Cache): TilePair -> Result<bool>
  {
    (p: TilePair) => Valid(entries, p.tile1, p.tile2)
  }

  /**
   * The `pollLastEntry` loop, for a verdict `check` on the stored pairs: the largest area whose
   * pair passes, the failure of the first check that fails on the way, or IllegalState once the
   * cache runs empty.
   */
  ghost function Poll(sizeCache: SizeCache, check: TilePair -> Result<bool>): (r: Result<nat>)
    ensures r.Ok? ==> r.value in sizeCache && check(sizeCache[r.value]) == Ok(true)
    ensures r.Ok? ==> forall k :: k in sizeCache && k > r.value ==> check(sizeCache[k]) == Ok(false)
    decreases |sizeCache.Keys|
  {
    if sizeCache == map[] then Err(IllegalState)
    else
      var k := LargestKey(sizeCache.Keys);
      var rest := sizeCache - {k};
      assert rest.Keys == sizeCache.Keys - {k};
      var verdict := check(sizeCache[k]);
      if verdict.Err? then Err(verdict.failure)
      else if verdict.value then Ok(k)
      else
        assert verdict == Ok(false);
        assert forall j :: j in sizeCache && j != k ==> j in rest && rest[j] == sizeCache[j];
        Poll(rest, check)
  }

  /**
   * The poll answers the largest area whose pair passes, every larger pair failing the check
   * with Ok(false); an error is either IllegalState after every pair was refused, or the error a
   * check gave, every larger pair being refused; and when every pair is refused the poll reports
   * IllegalState.
   */
  lemma {:induction false} PollSpec(sizeCache: SizeCache, check: TilePair -> Result<bool>)
    ensures Poll(sizeCache, check).Ok? ==>
      var v := Poll(sizeCache, check).value;
      && v in sizeCache && check(sizeCache[v]) == Ok(true)
      && forall k :: k in sizeCache && k > v ==> check(sizeCache[k]) == Ok(false)
    ensures Poll(sizeCache, check).Err? ==>
      || (Poll(sizeCache, check).failure == IllegalState && forall k :: k in sizeCache ==> check(sizeCache[k]) == Ok(false))
      || exists v :: v in sizeCache && check(sizeCache[v]) == Err(Poll(sizeCache, check).failure)
           && forall k :: k in sizeCache && k > v ==> check(sizeCache[k]) == Ok(false)
    ensures (forall k :: k in sizeCache ==> check(sizeCache[k]) == Ok(false)) ==> Poll(sizeCache, check) == Err(IllegalState)
    decreases |sizeCache.Keys|
  {
    if sizeCache != map[] {
      var k := LargestKey(sizeCache.Keys);
      var rest := sizeCache - {k};
      assert rest.Keys == sizeCache.Keys - {k};
      var verdict := check(sizeCache[k]);
      if verdict.Err? {
        assert Poll(sizeCache, check) == Err(verdict.failure);
      } else if !verdict.value {
        PollSpec(rest, check);
        assert Poll(sizeCache, check) == Poll(rest, check);
        assert forall j :: j in sizeCache && j != k ==> j in rest && rest[j] == sizeCache[j];
      }
    }
  }

  /** `pollLastEntry().getKey()`: the largest key, found by looking at each in turn. */
  method LastKey(sizeCache: SizeCache) returns (last: nat)
    requires sizeCache != map[]
    ensures last == LargestKey(sizeCache.Keys)
  {
    var keys: set<int> := sizeCache.Keys;
    var first := Choose(keys);
    last := first;
    var remaining := keys - {first};
    while remaining != {}
      invariant remaining <= keys && last in keys
      invariant forall j :: j in keys && j !in remaining ==> j <= last
      decreases |remaining|
    {
      var key := Choose(remaining);
      if key > last {
        last := key;
      }
      remaining := remaining - {key};
    }
  }

  /** The while loop of `solvePartTwo`. */
  method PollValid(cache: MinMaxCache, sizeCache0: SizeCache) returns (r: Result<nat>)
    ensures r == Poll(sizeCache0, Validity(cache.entries))
  {
    var sizeCache := sizeCache0;
    while sizeCache != map[]
      invariant Poll(sizeCache, Validity(cache.entries)) == Poll(sizeCache0, Validity(cache.entries))
      decreases |sizeCache.Keys|
    {
      var size := LastKey(sizeCache);
      var pair := sizeCache[size];
      sizeCache := sizeCache - {size};
      var valid := cache.IsValid(pair.tile1, pair.tile2);
      if valid.Err? {
        return Err(valid.failure);
      }
      if valid.value {
        return Ok(size);
      }
    }
    return Err(IllegalState);
  }

  /** Part two on parsed tiles. */
  ghost function PartTwoOf(tiles: seq<Tile>): Result<nat>
  {
    Poll(SizeCacheOf(tiles), Validity(MinMaxCoordinates(tiles)))
  }

  /** Part two on the puzzle lines. */
  ghost function PartTwo(lines: seq<string>): Result<nat>
  {
    var tiles := RedTiles(lines);
    if tiles.Err? then Err(tiles.failure) else PartTwoOf(tiles.value)
  }

  /** `solvePartTwo`. */
  method SolvePartTwo(lines: seq<string>) returns (r: Result<nat>)
    ensures r == PartTwo(lines)
  {
    var redTiles := RedTiles(lines);
    if redTiles.Err? {
      return Err(redTiles.failure);
    }
    var tiles := redTiles.value;
    var minMaxCache := InitMinMaxCoordinates(tiles);
    var sizeCache := FillSizeCache(tiles);
    r := PollValid(minMaxCache, sizeCache);
  }

  // ---------------------------------------------------------------------------
  // Properties of the answers

  /**
   * A part-two answer is the area of a valid rectangle between two red tiles, so it is at most
   * the part-one answer.
   */
  lemma PartTwoBelowPartOne(tiles: seq<Tile>)
    ensures PartTwoOf(tiles).Ok? ==>
      var v := PartTwoOf(tiles).value;
      && 1 <= v <= LargestArea(tiles)
      && exists t, o :: t in tiles && o in tiles && Area(t, o) == v && Valid(MinMaxCoordinates(tiles), t, o) == Ok(true)
  {
    var cache := SizeCacheOf(tiles);
    PollSpec(cache, Validity(MinMaxCoordinates(tiles)));
    SizeCacheFacts(tiles);
    LargestAreaIsMax(tiles);
    if PartTwoOf(tiles).Ok? {
      var p := cache[PartTwoOf(tiles).value];
      assert p.tile1 in tiles && p.tile2 in tiles;
    }
  }

  /**
   * With at least one red tile and no negative coordinate, part two never ends in
   * IllegalState: the single-tile rectangle of area 1 is always valid.
   */
  lemma PartTwoFinds(tiles: seq<Tile>)
    requires tiles != [] && NonNegative(tiles)
    ensures PartTwoOf(tiles) != Err(IllegalState)
  {
    var cache, entries := SizeCacheOf(tiles), MinMaxCoordinates(tiles);
    SizeCacheUnit(tiles);
    var t := cache[1].tile1;
    SelfPairValid(tiles, entries, t);
    var check := Validity(entries);
    assert check(cache[1]) == Ok(true);
    PollSpec(cache, check);
  }

  /** A red tile paired with itself passes `isValid`: its one-point rectangle lies in bound. */
  lemma SelfPairValid(tiles: seq<Tile>, entries: Cache, t: Tile)
    requires IsHull(tiles, entries) && NonNegative(tiles) && t in tiles
    ensures Valid(entries, t, t) == Ok(true)
  {
    TileInBound(tiles, entries, t);
    ValidIsPerimeter(entries, t, t);
    forall p | OnPerimeter(t, t, p)
      ensures InBoundAt(entries, p)
    {
      assert p == (t.x, t.y);
    }
  }

  /** The same on the puzzle lines, when they parse and carry no negative coordinate. */
  lemma PartTwoFindsOnLines(lines: seq<string>)
    requires RedTiles(lines).Ok? && lines != [] && NonNegative(RedTiles(lines).value)
    ensures PartTwo(lines) != Err(IllegalState)
  {
    PartTwoFinds(RedTiles(lines).value);
  }

  // ---------------------------------------------------------------------------
  // One pair per area

  /** The nested loops put |rows| * |tiles| pairs. */
  lemma {:induction false} AllPairsLength(rows: seq<Tile>, tiles: seq<Tile>)
    ensures |AllPairs(rows, tiles)| == |rows| * |tiles|
  {
    if rows != [] {
      AllPairsLength(rows[..|rows| - 1], tiles);
      assert (|rows| - 1) * |tiles| + |tiles| == |rows| * |tiles|;
    }
  }

  /** The largest area among the pairs of ps that pass check, or None when no pair passes. */
  function BestPassing(ps: seq<TilePair>, check: TilePair -> Result<bool>): (r: Option<nat>)
    ensures r.None? <==> forall i :: 0 <= i < |ps| ==> check(ps[i]) != Ok(true)
    ensures r.Some? ==> exists i :: 0 <= i < |ps| && check(ps[i]) == Ok(true) && PairArea(ps[i]) == r.value
    ensures r.Some? ==> forall i :: 0 <= i < |ps| && check(ps[i]) == Ok(true) ==> PairArea(ps[i]) <= r.value
  {
    if ps == [] then None
    else
      var front, p := ps[..|ps| - 1], ps[|ps| - 1];
      var best := BestPassing(front, check);
      assert forall i :: 0 <= i < |front| ==> front[i] == ps[i];
      if check(p) != Ok(true) then best
      else if best.Some? && best.value >= PairArea(p) then best
      else Some(PairArea(p))
  }

  /** A passing area that no passing pair exceeds is the best one. */
  lemma BestPassingIs(ps: seq<TilePair>, check: TilePair -> Result<bool>, v: nat)
    requires exists i :: 0 <= i < |ps| && check(ps[i]) == Ok(true) && PairArea(ps[i]) == v
    requires forall i :: 0 <= i < |ps| && check(ps[i]) == Ok(true) ==> PairArea(ps[i]) <= v
    ensures BestPassing(ps, check) == Some(v)
  {
  }

  /**
   * Part two as the javadoc of `solvePartTwo` describes it: the largest area of any pair of red
   * tiles that passes `isValid`, every pair being checked rather than the last one put under
   * its area; IllegalState when no pair passes.
   */
  function IntendedPartTwoOf(tiles: seq<Tile>): Result<nat>
  {
    var best := BestPassing(AllPairs(tiles, tiles), Validity(MinMaxCoordinates(tiles)));
    if best.None? then Err(IllegalState) else Ok(best.value)
  }

  /** A pair put by the nested loops is a pair of a row tile and a tile. */
  lemma AllPairsAt(rows: seq<Tile>, tiles: seq<Tile>, i: nat)
    requires i < |AllPairs(rows, tiles)|
    ensures AllPairs(rows, tiles)[i].tile1 in rows && AllPairs(rows, tiles)[i].tile2 in tiles
  {
    AllPairsMembers(rows, tiles);
    assert AllPairs(rows, tiles)[i] in AllPairs(rows, tiles);
  }

  /** Every pair of a row tile and a tile is put by the nested loops. */
  lemma AllPairsHas(rows: seq<Tile>, tiles: seq<Tile>, t: Tile, o: Tile)
    requires t in rows && o in tiles
    ensures exists i :: 0 <= i < |AllPairs(rows, tiles)| && AllPairs(rows, tiles)[i] == TilePair(t, o)
  {
    AllPairsMembers(rows, tiles);
    assert TilePair(t, o) in AllPairs(rows, tiles);
  }

  /** The intended answer is the highest area of a valid rectangle between two red tiles. */
  lemma HighestValidArea(tiles: seq<Tile>)
    ensures IntendedPartTwoOf(tiles).Ok? <==>
      exists t, o :: t in tiles && o in tiles && Valid(MinMaxCoordinates(tiles), t, o) == Ok(true)
    ensures IntendedPartTwoOf(tiles).Err? ==> IntendedPartTwoOf(tiles).failure == IllegalState
    ensures IntendedPartTwoOf(tiles).Ok? ==>
      var v := IntendedPartTwoOf(tiles).value;
      && (exists t, o :: t in tiles && o in tiles && Valid(MinMaxCoordinates(tiles), t, o) == Ok(true) && Area(t, o) == v)
      && forall t, o :: t in tiles && o in tiles && Valid(MinMaxCoordinates(tiles), t, o) == Ok(true) ==> Area(t, o) <= v
  {
    var ps, entries := AllPairs(tiles, tiles), MinMaxCoordinates(tiles);
    var check := Validity(entries);
    var best := BestPassing(ps, check);
    forall t, o | t in tiles && o in tiles && Valid(entries, t, o) == Ok(true)
      ensures best.Some? && Area(t, o) <= best.value
    {
      AllPairsHas(tiles, tiles, t, o);
      var i :| 0 <= i < |ps| && ps[i] == TilePair(t, o);
      assert check(ps[i]) == Ok(true);
    }
    if best.Some? {
      var j :| 0 <= j < |ps| && check(ps[j]) == Ok(true) && PairArea(ps[j]) == best.value;
      AllPairsAt(tiles, tiles, j);
      var t, o := ps[j].tile1, ps[j].tile2;
      assert Valid(entries, t, o) == Ok(true) && Area(t, o) == best.value;
    }
  }

  /** Whenever the code answers, the intended answer exists and is at least as large. */
  lemma PartTwoAtMostIntended(tiles: seq<Tile>)
    ensures PartTwoOf(tiles).Ok? ==>
      IntendedPartTwoOf(tiles).Ok? && PartTwoOf(tiles).value <= IntendedPartTwoOf(tiles).value
  {
    PartTwoBelowPartOne(tiles);
    HighestValidArea(tiles);
  }

  /** The red tiles (0,0), (1,0), (0,1), (1,1), (3,3), (4,4), in that order: a square and a diagonal pair. */
  predicate SharedAreaTiles(tiles: seq<Tile>)
  {
    && |tiles| == 6
    && tiles[0] == Tile(0, 0) && tiles[1] == Tile(1, 0) && tiles[2] == Tile(0, 1) && tiles[3] == Tile(1, 1)
    && tiles[4] == Tile(3, 3) && tiles[5] == Tile(4, 4)
  }

  /** Every tile lies in the square 0..1 x 0..1 or on the diagonal at 3 or 4. */
  predicate SquareAndDiagonal(tiles: seq<Tile>)
  {
    forall t :: t in tiles ==> (0 <= t.x <= 1 && 0 <= t.y <= 1) || (t.x == t.y && 3 <= t.x <= 4)
  }

  /** The floor of the example below: the square's tiles, the diagonal's tiles, and no other. */
  predicate SharedAreaFloor(tiles: seq<Tile>)
  {
    && SquareAndDiagonal(tiles)
    && Tile(0, 0) in tiles && Tile(1, 0) in tiles && Tile(0, 1) in tiles && Tile(1, 1) in tiles
    && Tile(3, 3) in tiles && Tile(4, 4) in tiles
  }

  /** The listing holds exactly the square's and the diagonal's tiles. */
  lemma SharedAreaListed(tiles: seq<Tile>)
    requires SharedAreaTiles(tiles)
    ensures SharedAreaFloor(tiles)
  {
    assert tiles == [Tile(0, 0), Tile(1, 0), Tile(0, 1), Tile(1, 1), Tile(3, 3), Tile(4, 4)];
  }

  /** On such a floor a line covers a position only inside the square, or on the diagonal. */
  lemma SharedAreaCovers(tiles: seq<Tile>, a: Axis, c: int, i: int)
    requires SquareAndDiagonal(tiles) && Covers(tiles, a, c, i)
    ensures (c <= 1 && i <= 1) || i == c
  {
    var line := Line(tiles, a, c);
    var lo, hi := MinOr(line, -1), MaxOr(line, -1);
    var t1 :| t1 in tiles && Coord(t1, a) == c && Coord(t1, Across(a)) == lo;
    var t2 :| t2 in tiles && Coord(t2, a) == c && Coord(t2, Across(a)) == hi;
  }

  /** Row y and column x of such a point are both crossed by a sweep. */
  lemma SharedAreaSwept(tiles: seq<Tile>, x: int, y: int)
    requires SharedAreaFloor(tiles)
    requires 3 <= x <= 4 && (0 <= y <= 1 || (x == 4 && y == 3))
    ensures Swept(tiles, X, Size(tiles, X), y) && Swept(tiles, Y, Size(tiles, Y), x)
  {
    assert NonNegative(tiles);
    var row := if y <= 1 then Tile(0, y) else Tile(3, 3);
    TileCovered(tiles, row, X);
    TileCovered(tiles, Tile(x, x), Y);
    assert 0 <= row.x < Size(tiles, X) && Covers(tiles, X, row.x, y);
    assert 0 <= x < Size(tiles, Y) && Covers(tiles, Y, x, x);
  }

  /** No column at or right of x covers such a point's row. */
  lemma SharedAreaNotBetween(tiles: seq<Tile>, x: int, y: int)
    requires SharedAreaFloor(tiles)
    requires 3 <= x <= 4 && (0 <= y <= 1 || (x == 4 && y == 3))
    ensures !Between(tiles, X, Size(tiles, X), y, x)
  {
    forall c | 0 <= c < Size(tiles, X) && Covers(tiles, X, c, y)
      ensures c < x
    {
      SharedAreaCovers(tiles, X, c, y);
    }
  }

  /** The points right of the square on its rows, and (4,3), are out of bound. */
  lemma SharedAreaOut(tiles: seq<Tile>, entries: Cache, x: int, y: int)
    requires SharedAreaFloor(tiles) && IsHull(tiles, entries)
    requires 3 <= x <= 4 && (0 <= y <= 1 || (x == 4 && y == 3))
    ensures CheckNotInBound(entries, x, y) == Ok(true)
  {
    SharedAreaSwept(tiles, x, y);
    SharedAreaNotBetween(tiles, x, y);
    CheckMeaning(tiles, entries, x, y);
  }

  /** A rectangle from the square to the diagonal pair is rejected at its second corner. */
  lemma SharedAreaCrossRejected(tiles: seq<Tile>, entries: Cache, t: Tile, o: Tile)
    requires SharedAreaFloor(tiles) && IsHull(tiles, entries)
    requires t in tiles && o in tiles && t.x <= 1 && o.x >= 3
    ensures Valid(entries, t, o) == Ok(false)
    ensures Valid(entries, o, t) == Ok(false)
  {
    assert NonNegative(tiles);
    TileInBound(tiles, entries, t);
    SharedAreaOut(tiles, entries, o.x, t.y);
    ValidSymmetric(entries, t, o);
  }

  /** Any two tiles span 1, 2 or 4 tiles, unless one is in the square and the other on the diagonal. */
  lemma SharedAreaSizes(tiles: seq<Tile>, t: Tile, o: Tile)
    requires SquareAndDiagonal(tiles) && t in tiles && o in tiles
    ensures Area(t, o) in {1, 2, 4} || (t.x <= 1 && o.x >= 3) || (t.x >= 3 && o.x <= 1)
    ensures (t.x <= 1 && o.x >= 3) || (t.x >= 3 && o.x <= 1) ==> Area(t, o) >= 9
  {
    var w, h := Abs(t.x - o.x) + 1, Abs(t.y - o.y) + 1;
    if w >= 3 && h >= 3 {
      assert w * h >= 3 * h >= 9;
    } else if w <= 2 && h <= 2 {
      assert w * h == if w == 1 then h else 2 * h;
    }
  }

  /** Area 2 is stored, and area 4 is stored last by the pair ((4,4), (3,3)). */
  lemma SharedAreaStored(tiles: seq<Tile>)
    requires SharedAreaTiles(tiles)
    ensures 2 in SizeCacheOf(tiles)
    ensures 4 in SizeCacheOf(tiles)
    ensures SizeCacheOf(tiles)[4] == TilePair(Tile(4, 4), Tile(3, 3))
  {
    var ps := AllPairs(tiles, tiles);
    AllPairsLength(tiles[..3], tiles);
    assert tiles[..5][..4] == tiles[..4] && tiles[..4][..3] == tiles[..3];
    assert AllPairs(tiles[..4], tiles) == AllPairs(tiles[..3], tiles) + RowPairs(Tile(1, 1), tiles);
    assert AllPairs(tiles[..5], tiles) == AllPairs(tiles[..4], tiles) + RowPairs(Tile(3, 3), tiles);
    assert tiles[..|tiles| - 1] == tiles[..5];
    assert ps == AllPairs(tiles[..5], tiles) + RowPairs(Tile(4, 4), tiles);
    assert ps[19] == TilePair(Tile(1, 1), Tile(1, 0)) && PairArea(ps[19]) == 2;
    assert ps[34] == TilePair(Tile(4, 4), Tile(3, 3)) && PairArea(ps[34]) == 4;
    assert ps[35] == TilePair(Tile(4, 4), Tile(4, 4)) && PairArea(ps[35]) == 1;
    PutPairsKeys(ps);
    PutPairsKeepsLast(ps, 4);
  }

  /** The pair ((4,4), (3,3)) is rejected at its second corner (4,3). */
  lemma SharedAreaDiagonalRejected(tiles: seq<Tile>, entries: Cache)
    requires SharedAreaFloor(tiles) && IsHull(tiles, entries)
    ensures Valid(entries, Tile(4, 4), Tile(3, 3)) == Ok(false)
  {
    assert NonNegative(tiles);
    TileInBound(tiles, entries, Tile(3, 3));
    SharedAreaOut(tiles, entries, 4, 3);
  }

  /** Two tiles of the square spanning at most two tiles form a valid rectangle, and so does the square. */
  lemma SharedAreaSquareValid(tiles: seq<Tile>, entries: Cache, t: Tile, o: Tile)
    requires SharedAreaFloor(tiles) && IsHull(tiles, entries)
    requires (t in tiles && o in tiles && Area(t, o) <= 2) || (t == Tile(0, 0) && o == Tile(1, 1))
    ensures Valid(entries, t, o) == Ok(true)
  {
    assert NonNegative(tiles);
    SharedAreaSizes(tiles, t, o);
    forall p | OnPerimeter(t, o, p)
      ensures InBoundAt(entries, p)
    {
      TileInBound(tiles, entries, Tile(p.0, p.1));
    }
    ValidIsPerimeter(entries, t, o);
  }

  /** Every rectangle larger than 4 runs from the square to the diagonal pair, and is rejected. */
  lemma SharedAreaLargeRejected(tiles: seq<Tile>, entries: Cache)
    requires SharedAreaFloor(tiles) && IsHull(tiles, entries)
    ensures forall t, o :: t in tiles && o in tiles && Area(t, o) > 4 ==> Valid(entries, t, o) == Ok(false)
  {
    forall t, o | t in tiles && o in tiles && Area(t, o) > 4
      ensures Valid(entries, t, o) == Ok(false)
    {
      SharedAreaSizes(tiles, t, o);
      if t.x <= 1 {
        SharedAreaCrossRejected(tiles, entries, t, o);
      } else {
        SharedAreaCrossRejected(tiles, entries, o, t);
      }
    }
  }

  /**
   * The verdicts of `isValid` on these tiles: the square and every pair spanning two tiles pass,
   * the diagonal pair and every rectangle larger than 4 are rejected.
   */
  lemma SharedAreaVerdicts(tiles: seq<Tile>, entries: Cache)
    requires SharedAreaFloor(tiles) && IsHull(tiles, entries)
    ensures Validity(entries)(TilePair(Tile(0, 0), Tile(1, 1))) == Ok(true)
    ensures Validity(entries)(TilePair(Tile(4, 4), Tile(3, 3))) == Ok(false)
    ensures forall p: TilePair :: p.tile1 in tiles && p.tile2 in tiles && PairArea(p) == 2 ==> Validity(entries)(p) == Ok(true)
    ensures forall p: TilePair :: p.tile1 in tiles && p.tile2 in tiles && PairArea(p) > 4 ==> Validity(entries)(p) == Ok(false)
  {
    SharedAreaSquareValid(tiles, entries, Tile(0, 0), Tile(1, 1));
    SharedAreaDiagonalRejected(tiles, entries);
    forall p: TilePair | p.tile1 in tiles && p.tile2 in tiles && PairArea(p) == 2
      ensures Validity(entries)(p) == Ok(true)
    {
      SharedAreaSquareValid(tiles, entries, p.tile1, p.tile2);
    }
    SharedAreaLargeRejected(tiles, entries);
  }

  /** Checking every pair finds the square's area 4. */
  lemma SharedAreaBest(tiles: seq<Tile>, check: TilePair -> Result<bool>)
    requires Tile(0, 0) in tiles && Tile(1, 1) in tiles
    requires check(TilePair(Tile(0, 0), Tile(1, 1))) == Ok(true)
    requires forall p: TilePair :: p.tile1 in tiles && p.tile2 in tiles && PairArea(p) > 4 ==> check(p) == Ok(false)
    ensures BestPassing(AllPairs(tiles, tiles), check) == Some(4)
  {
    var ps := AllPairs(tiles, tiles);
    AllPairsHas(tiles, tiles, Tile(0, 0), Tile(1, 1));
    var i :| 0 <= i < |ps| && ps[i] == TilePair(Tile(0, 0), Tile(1, 1));
    assert check(ps[i]) == Ok(true) && PairArea(ps[i]) == 4;
    forall k | 0 <= k < |ps| && check(ps[k]) == Ok(true)
      ensures PairArea(ps[k]) <= 4
    {
      AllPairsAt(tiles, tiles, k);
    }
    BestPassingIs(ps, check, 4);
  }

  /** The pair stored under area k is a pair of red tiles with that area. */
  lemma SizeCacheAt(tiles: seq<Tile>, k: nat)
    requires k in SizeCacheOf(tiles)
    ensures SizeCacheOf(tiles)[k].tile1 in tiles && SizeCacheOf(tiles)[k].tile2 in tiles
    ensures PairArea(SizeCacheOf(tiles)[k]) == k
  {
    var ps := AllPairs(tiles, tiles);
    PutPairsKeepsLast(ps, k);
    AllPairsMembers(tiles, tiles);
    var i :| 0 <= i < |ps| && ps[i] == SizeCacheOf(tiles)[k] && PairArea(ps[i]) == k;
    assert ps[i] in ps;
  }

  /** The poll passes over every stored area above 2 and stops at 2. */
  lemma SharedAreaPoll(tiles: seq<Tile>, check: TilePair -> Result<bool>)
    requires SquareAndDiagonal(tiles)
    requires 2 in SizeCacheOf(tiles)
    requires 4 in SizeCacheOf(tiles) && SizeCacheOf(tiles)[4] == TilePair(Tile(4, 4), Tile(3, 3))
    requires check(TilePair(Tile(4, 4), Tile(3, 3))) == Ok(false)
    requires forall p: TilePair :: p.tile1 in tiles && p.tile2 in tiles && PairArea(p) == 2 ==> check(p) == Ok(true)
    requires forall p: TilePair :: p.tile1 in tiles && p.tile2 in tiles && PairArea(p) > 4 ==> check(p) == Ok(false)
    ensures Poll(SizeCacheOf(tiles), check) == Ok(2)
  {
    var cache := SizeCacheOf(tiles);
    forall k | k in cache && k > 2
      ensures check(cache[k]) == Ok(false)
    {
      SizeCacheAt(tiles, k);
      SharedAreaSizes(tiles, cache[k].tile1, cache[k].tile2);
    }
    SizeCacheAt(tiles, 2);
    assert check(cache[2]) == Ok(true);
    PollSpec(cache, check);
  }

  /**
   * A valid rectangle the code never finds: on these tiles the square (0,0)-(1,1) of area 4 is
   * valid and the highest valid area, but area 4 is stored with the rejected pair
   * ((4,4), (3,3)), so the code answers 2.
   */
  lemma SharedAreaMissed(tiles: seq<Tile>)
    requires SharedAreaTiles(tiles)
    ensures Valid(MinMaxCoordinates(tiles), Tile(0, 0), Tile(1, 1)) == Ok(true)
    ensures IntendedPartTwoOf(tiles) == Ok(4)
    ensures PartTwoOf(tiles) == Ok(2)
  {
    var entries := MinMaxCoordinates(tiles);
    var check := Validity(entries);
    SharedAreaListed(tiles);
    SharedAreaVerdicts(tiles, entries);
    assert BestPassing(AllPairs(tiles, tiles), check) == Some(4) by {
      SharedAreaBest(tiles, check);
    }
    assert Poll(SizeCacheOf(tiles), check) == Ok(2) by {
      SharedAreaStored(tiles);
      SharedAreaPoll(tiles, check);
    }
  }

  // ---------------------------------------------------------------------------
  // The worked example

  function ExampleTiles(): seq<Tile>
  {
    [Tile(7, 1), Tile(11, 1), Tile(11, 7), Tile(9, 7), Tile(9, 5), Tile(2, 5), Tile(2, 3), Tile(7, 3)]
  }

  /** On the example floor the largest rectangle has area 50, spanned by (2,5) and (11,1). */
  lemma ExamplePartOne()
    ensures LargestArea(ExampleTiles()) == 50
  {
    LargestAreaAt(ExampleTiles(), 5, 1);
  }
}
