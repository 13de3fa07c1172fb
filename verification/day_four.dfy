/**
 * Day 4: paper rolls ('@') in a warehouse grid. An adjacency map gives every roll the number
 * of rolls in its 3x3 block, itself included; a roll whose count is at most 4 (fewer than four
 * neighbouring rolls) is accessible. Part one counts the accessible rolls; part two removes all
 * accessible rolls at once, sweep after sweep, until a sweep removes nothing.
 *
 * The source keys its HashMap<String, Integer> by strings "x<x>y<y>"; the model keys it by
 * `Coord` pairs, and `CoordinateRoundTrip` shows the two keyings agree. A key mapped to null
 * is a key mapped to `None`; a missing key and a null value both read as null.
 */
module DayFour {
  import opened Common
  import opened JavaText

  datatype Coord = Coord(x: int, y: int)

  type Adjacency = map<Coord, Option<int>>

  // ---------------------------------------------------------------------------------------
  // String keys
  // ---------------------------------------------------------------------------------------

  const XY: set<char> := {'x', 'y'}

  /**
   * `"x%dy%d".formatted(x, y)` for non-negative coordinates: 'x' first, 'y' right after the
   * digits of x, and digits everywhere else.
   */
  function CreateCoordinate(x: nat, y: nat): (key: string)
    ensures |key| > |Decimal(x)| + 2 && key[0] == 'x' && key[|Decimal(x)| + 1] == 'y'
    ensures forall i :: 0 < i < |key| && i != |Decimal(x)| + 1 ==> IsDigit(key[i])
  {
    "x" + Decimal(x) + "y" + Decimal(y)
  }

  /** `Integer.parseInt(pieces[i])`, failing when the piece is missing or not an int. */
  function ParseIntPiece(pieces: seq<string>, i: nat): (r: Result<int>)
    ensures r.Ok? <==> i < |pieces| && IsDigits(pieces[i]) && ParseNat(pieces[i]) <= INT_MAX
    ensures r.Err? ==> r.failure == MalformedInput
  {
    if i < |pieces| && IsDigits(pieces[i]) && ParseNat(pieces[i]) <= INT_MAX then Ok(ParseNat(pieces[i]))
    else Err(MalformedInput)
  }

  /** `Integer.parseInt(coordinate.split("[xy]")[1])`. */
  function GetCoordinateX(coordinate: string): (r: Result<int>)
    ensures r.Ok? ==> 0 <= r.value <= INT_MAX
    ensures r.Err? ==> r.failure == MalformedInput
    ensures !Contains(coordinate, XY) ==> r.Err?
  {
    ParseIntPiece(SplitOn(coordinate, XY), 1)
  }

  /** `Integer.parseInt(coordinate.split("[xy]")[2])`. */
  function GetCoordinateY(coordinate: string): (r: Result<int>)
    ensures r.Ok? ==> 0 <= r.value <= INT_MAX
    ensures r.Err? ==> r.failure == MalformedInput
    ensures !Contains(coordinate, XY) ==> r.Err?
  {
    ParseIntPiece(SplitOn(coordinate, XY), 2)
  }

  lemma DigitsAreNotXY(s: string)
    requires AllDigits(s)
    ensures forall i :: 0 <= i < |s| ==> s[i] !in XY
  {
    forall i | 0 <= i < |s|
      ensures s[i] !in XY
    {
      assert IsDigit(s[i]);
    }
  }

  /** `getCoordinateX` and `getCoordinateY` read back what `createCoordinate` wrote. */
  lemma CoordinateRoundTrip(x: nat, y: nat)
    requires x <= INT_MAX && y <= INT_MAX
    ensures GetCoordinateX(CreateCoordinate(x, y)) == Ok(x)
    ensures GetCoordinateY(CreateCoordinate(x, y)) == Ok(y)
  {
    var dx, dy := Decimal(x), Decimal(y);
    var key := CreateCoordinate(x, y);
    DigitsAreNotXY(dx);
    DigitsAreNotXY(dy);
    PiecesAfter([], 'x', dx + "y" + dy, XY);
    assert key == [] + ['x'] + (dx + "y" + dy);
    PiecesAfter(dx, 'y', dy, XY);
    assert dx + "y" + dy == dx + ['y'] + dy;
    PiecesWithout(dy, XY);
    assert Pieces(key, XY) == ["", dx, dy];
    assert Contains(key, XY) by {
      assert key[0] in XY;
    }
    assert SplitOn(key, XY) == ["", dx, dy];
  }

  // ---------------------------------------------------------------------------------------
  // The 3x3 block and Map.compute
  // ---------------------------------------------------------------------------------------

  /** `c` lies in the 3x3 block centred on `d`. */
  predicate Near(c: Coord, d: Coord)
  {
    -1 <= c.x - d.x <= 1 && -1 <= c.y - d.y <= 1
  }

  /** The 3x3 block around d, d itself included, row by row. */
  function Block(d: Coord): seq<Coord>
  {
    [Coord(d.x - 1, d.y - 1), Coord(d.x, d.y - 1), Coord(d.x + 1, d.y - 1),
     Coord(d.x - 1, d.y), Coord(d.x, d.y), Coord(d.x + 1, d.y),
     Coord(d.x - 1, d.y + 1), Coord(d.x, d.y + 1), Coord(d.x + 1, d.y + 1)]
  }

  lemma BlockIsNear(c: Coord, d: Coord)
    ensures c in Block(d) <==> Near(c, d)
  {
  }

  predicate Distinct(cs: seq<Coord>)
  {
    forall i, j :: 0 <= i < j < |cs| ==> cs[i] != cs[j]
  }

  lemma BlockDistinct(d: Coord)
    ensures Distinct(Block(d))
  {
  }

  /** How many of the cells cs belong to S. */
  function CountIn(S: set<Coord>, cs: seq<Coord>): nat
  {
    if cs == [] then 0 else CountIn(S, cs[..|cs| - 1]) + if cs[|cs| - 1] in S then 1 else 0
  }

  /** The members of S in the 3x3 block around d. */
  function Hits(S: set<Coord>, d: Coord): nat
  {
    CountIn(S, Block(d))
  }

  lemma {:induction false} CountInEmpty(cs: seq<Coord>)
    ensures CountIn({}, cs) == 0
  {
    if cs != [] {
      CountInEmpty(cs[..|cs| - 1]);
    }
  }

  lemma {:induction false} CountInSplit(L: set<Coord>, A: set<Coord>, cs: seq<Coord>)
    requires A <= L
    ensures CountIn(L, cs) == CountIn(L - A, cs) + CountIn(A, cs)
  {
    if cs != [] {
      CountInSplit(L, A, cs[..|cs| - 1]);
    }
  }

  lemma {:induction false} CountInAdd(S: set<Coord>, c: Coord, cs: seq<Coord>)
    requires c !in S && Distinct(cs)
    ensures CountIn(S + {c}, cs) == CountIn(S, cs) + if c in cs then 1 else 0
  {
    if cs != [] {
      var front := cs[..|cs| - 1];
      assert Distinct(front);
      CountInAdd(S, c, front);
      assert c in cs <==> c in front || c == cs[|cs| - 1];
      assert !(c in front && c == cs[|cs| - 1]);
    }
  }

  lemma HitsNothing(d: Coord)
    ensures Hits({}, d) == 0
  {
    CountInEmpty(Block(d));
  }

  /** One more member counts once in the blocks it is near. */
  lemma HitsAdd(S: set<Coord>, c: Coord, d: Coord)
    requires c !in S
    ensures Hits(S + {c}, d) == Hits(S, d) + if Near(d, c) then 1 else 0
  {
    BlockDistinct(d);
    CountInAdd(S, c, Block(d));
    BlockIsNear(c, d);
  }

  lemma HitsSplit(L: set<Coord>, A: set<Coord>, d: Coord)
    requires A <= L
    ensures Hits(L, d) == Hits(L - A, d) + Hits(A, d)
  {
    CountInSplit(L, A, Block(d));
  }

  /** The keys the loops of `setAdjacency` and `removeAdjacency` visit: the block, clipped at 0. */
  predicate InBlock(c: Coord, x: int, y: int)
  {
    Near(c, Coord(x, y)) && 0 <= c.x && 0 <= c.y
  }

  /** Every key of the map is a non-negative coordinate pair. */
  ghost predicate NonNegativeKeys(m: Adjacency)
  {
    forall c :: c in m ==> 0 <= c.x && 0 <= c.y
  }

  /** `c` holds a roll: its key is present and not null. */
  predicate Live(m: Adjacency, c: Coord)
  {
    c in m && m[c].Some?
  }

  /**
   * `compute(key, (k, v) -> v == null ? null : v + delta)`: a null result removes the key,
   * so a missing or null key ends up missing.
   */
  function Compute(m: Adjacency, key: Coord, delta: int): (r: Adjacency)
    ensures forall c :: c != key ==> (c in r <==> c in m)
    ensures forall c :: c in r && c != key ==> r[c] == m[c]
    ensures Live(m, key) ==> key in r && r[key] == Some(m[key].value + delta)
    ensures !Live(m, key) ==> key !in r
  {
    if Live(m, key) then m[key := Some(m[key].value + delta)] else m - {key}
  }

  /**
   * The map after both loops of `setAdjacency` (delta 1) or `removeAdjacency` (delta -1)
   * around (x, y): every roll in the clipped block moves by delta, every null key in it is
   * gone, and nothing else changes.
   */
  function AdjustBlock(m: Adjacency, x: int, y: int, delta: int): Adjacency
  {
    map c | c in m && (!InBlock(c, x, y) || m[c].Some?) ::
      if InBlock(c, x, y) then Some(m[c].value + delta) else m[c]
  }

  /** The block keys the loops have reached before column i, row j. */
  predicate Visited(c: Coord, x: int, y: int, i: int, j: int)
  {
    InBlock(c, x, y) && (c.x < i || (c.x == i && c.y < j))
  }

  /** The map part-way through the loops, just before key (i, j). */
  function AdjustedUpTo(m: Adjacency, x: int, y: int, delta: int, i: int, j: int): Adjacency
  {
    map c | c in m && (!Visited(c, x, y, i, j) || m[c].Some?) ::
      if Visited(c, x, y, i, j) then Some(m[c].value + delta) else m[c]
  }

  lemma AdjustStep(m: Adjacency, x: int, y: int, delta: int, i: int, j: int)
    requires 0 <= i && x - 1 <= i <= x + 1 && 0 <= j && y - 1 <= j <= y + 1
    ensures Compute(AdjustedUpTo(m, x, y, delta, i, j), Coord(i, j), delta)
         == AdjustedUpTo(m, x, y, delta, i, j + 1)
  {
    var before, after := AdjustedUpTo(m, x, y, delta, i, j), AdjustedUpTo(m, x, y, delta, i, j + 1);
    var computed := Compute(before, Coord(i, j), delta);
    assert forall c :: c in computed <==> c in after;
    assert forall c :: c in computed ==> computed[c] == after[c];
  }

  lemma AdjustRowDone(m: Adjacency, x: int, y: int, delta: int, i: int, j: int)
    requires j > y + 1
    ensures AdjustedUpTo(m, x, y, delta, i, j) == AdjustedUpTo(m, x, y, delta, i + 1, Max(0, y - 1))
  {
    var a, b := AdjustedUpTo(m, x, y, delta, i, j), AdjustedUpTo(m, x, y, delta, i + 1, Max(0, y - 1));
    assert forall c :: Visited(c, x, y, i, j) <==> Visited(c, x, y, i + 1, Max(0, y - 1));
    assert forall c :: c in a <==> c in b;
  }

  lemma AdjustDone(m: Adjacency, x: int, y: int, delta: int, i: int, j: int)
    requires i > x + 1
    ensures AdjustedUpTo(m, x, y, delta, i, j) == AdjustBlock(m, x, y, delta)
  {
    var a, b := AdjustedUpTo(m, x, y, delta, i, j), AdjustBlock(m, x, y, delta);
    assert forall c :: Visited(c, x, y, i, j) <==> InBlock(c, x, y);
    assert forall c :: c in a <==> c in b;
  }

  lemma AdjustNothing(m: Adjacency, x: int, y: int, delta: int)
    ensures AdjustedUpTo(m, x, y, delta, Max(0, x - 1), Max(0, y - 1)) == m
  {
    var a := AdjustedUpTo(m, x, y, delta, Max(0, x - 1), Max(0, y - 1));
    assert forall c | c in m :: !Visited(c, x, y, Max(0, x - 1), Max(0, y - 1));
    assert forall c :: c in a <==> c in m;
  }

  /** The two nested loops shared by `setAdjacency` and `removeAdjacency`. */
  method AdjustAdjacency(xCoord: int, yCoord: int, delta: int, m0: Adjacency) returns (m: Adjacency)
    ensures m == AdjustBlock(m0, xCoord, yCoord, delta)
  {
    m := m0;
    AdjustNothing(m0, xCoord, yCoord, delta);
    var i := Max(0, xCoord - 1);
    while i <= xCoord + 1
      invariant Max(0, xCoord - 1) <= i
      invariant m == AdjustedUpTo(m0, xCoord, yCoord, delta, i, Max(0, yCoord - 1))
    {
      var j := Max(0, yCoord - 1);
      while j <= yCoord + 1
        invariant Max(0, yCoord - 1) <= j
        invariant m == AdjustedUpTo(m0, xCoord, yCoord, delta, i, j)
      {
        AdjustStep(m0, xCoord, yCoord, delta, i, j);
        m := Compute(m, Coord(i, j), delta);
        j := j + 1;
      }
      AdjustRowDone(m0, xCoord, yCoord, delta, i, j);
      i := i + 1;
    }
    AdjustDone(m0, xCoord, yCoord, delta, i, Max(0, yCoord - 1));
  }

  /** `setAdjacency`: every roll in the clipped block gains one; null keys in it are dropped. */
  method SetAdjacency(xCoord: int, yCoord: int, m0: Adjacency) returns (m: Adjacency)
    ensures forall c :: c in m <==> c in m0 && (!InBlock(c, xCoord, yCoord) || m0[c].Some?)
    ensures forall c :: c in m && InBlock(c, xCoord, yCoord) ==> m[c] == Some(m0[c].value + 1)
    ensures forall c :: c in m && !InBlock(c, xCoord, yCoord) ==> m[c] == m0[c]
  {
    m := AdjustAdjacency(xCoord, yCoord, 1, m0);
  }

  /** `removeAdjacency`: every roll in the clipped block loses one; null keys in it are dropped. */
  method RemoveAdjacency(xCoord: int, yCoord: int, m0: Adjacency) returns (m: Adjacency)
    ensures forall c :: c in m <==> c in m0 && (!InBlock(c, xCoord, yCoord) || m0[c].Some?)
    ensures forall c :: c in m && InBlock(c, xCoord, yCoord) ==> m[c] == Some(m0[c].value - 1)
    ensures forall c :: c in m && !InBlock(c, xCoord, yCoord) ==> m[c] == m0[c]
  {
    m := AdjustAdjacency(xCoord, yCoord, -1, m0);
  }

  // ---------------------------------------------------------------------------------------
  // Initialising and filling the map
  // ---------------------------------------------------------------------------------------

  predicate InRect(c: Coord, xSize: int, ySize: int)
  {
    0 <= c.x < xSize && 0 <= c.y < ySize
  }

  /** `initialiseAdjacencyMap`: exactly the keys of the xSize-by-ySize rectangle, each 0. */
  method InitialiseAdjacencyMap(xSize: nat, ySize: nat) returns (m: Adjacency)
    ensures forall c :: c in m <==> InRect(c, xSize, ySize)
    ensures forall c :: c in m ==> m[c] == Some(0)
  {
    m := map[];
    var i := 0;
    while i < xSize
      invariant i <= xSize
      invariant forall c :: c in m <==> InRect(c, i, ySize)
      invariant forall c :: c in m ==> m[c] == Some(0)
    {
      var j := 0;
      while j < ySize
        invariant j <= ySize
        invariant forall c :: c in m <==> InRect(c, i, ySize) || (c.x == i && 0 <= c.y < j)
        invariant forall c :: c in m ==> m[c] == Some(0)
      {
        m := m[Coord(i, j) := Some(0)];
        j := j + 1;
      }
      i := i + 1;
    }
  }

  /** One cell of `fillAdjacencyMap`: a roll bumps its block, anything else is put to null. */
  function StepCell(m: Adjacency, grid: seq<string>, x: nat, y: nat): Adjacency
    requires y < |grid| && x < |grid[y]|
  {
    if grid[y][x] == '@' then AdjustBlock(m, x, y, 1) else m[Coord(x, y) := None]
  }

  /** The map after the first k cells of row y. */
  function RowFilled(m: Adjacency, grid: seq<string>, y: nat, k: nat): Adjacency
    requires y < |grid| && k <= |grid[y]|
  {
    if k == 0 then m else StepCell(RowFilled(m, grid, y, k - 1), grid, k - 1, y)
  }

  /** The map after the first r rows. */
  function Filled(m: Adjacency, grid: seq<string>, r: nat): Adjacency
    requires r <= |grid|
  {
    if r == 0 then m else RowFilled(Filled(m, grid, r - 1), grid, r - 1, |grid[r - 1]|)
  }

  /** `fillAdjacencyMap`: row by row (y), cell by cell (x). */
  method FillAdjacencyMap(grid: seq<string>, m0: Adjacency) returns (m: Adjacency)
    ensures m == Filled(m0, grid, |grid|)
  {
    m := m0;
    var i := 0;
    while i < |grid|
      invariant i <= |grid|
      invariant m == Filled(m0, grid, i)
    {
      var warehouseRow := grid[i];
      var j := 0;
      while j < |warehouseRow|
        invariant j <= |warehouseRow|
        invariant m == RowFilled(Filled(m0, grid, i), grid, i, j)
      {
        if warehouseRow[j] == '@' {
          m := SetAdjacency(j, i, m);
        } else {
          m := m[Coord(j, i) := None];
        }
        j := j + 1;
      }
      i := i + 1;
    }
  }

  // ---------------------------------------------------------------------------------------
  // What filling computes
  // ---------------------------------------------------------------------------------------

  /** Cell (x, y) comes before the cell in row r, column k in the order the grid is filled. */
  predicate Before(x: int, y: int, r: int, k: int)
  {
    y < r || (y == r && x < k)
  }

  predicate RollAt(grid: seq<string>, x: int, y: int)
  {
    0 <= y < |grid| && 0 <= x < |grid[y]| && grid[y][x] == '@'
  }

  /** A cell of the grid that holds no roll. */
  predicate SpaceAt(grid: seq<string>, c: Coord)
  {
    0 <= c.y < |grid| && 0 <= c.x < |grid[c.y]| && grid[c.y][c.x] != '@'
  }

  /** The cells of the grid that hold a roll. */
  function Rolls(grid: seq<string>): set<Coord>
  {
    set x, y | 0 <= y < |grid| && 0 <= x < |grid[y]| && grid[y][x] == '@' :: Coord(x, y)
  }

  lemma InRolls(grid: seq<string>, c: Coord)
    ensures c in Rolls(grid) <==> RollAt(grid, c.x, c.y)
  {
    if RollAt(grid, c.x, c.y) {
      assert Coord(c.x, c.y) == c;
    }
  }

  /** The rolls the fill has reached before row r, column k. */
  function RollsBefore(grid: seq<string>, r: int, k: int): set<Coord>
  {
    set c | c in Rolls(grid) && Before(c.x, c.y, r, k)
  }

  /** The rolls of the grid in the 3x3 block around c, c itself included. */
  function Neighbours(grid: seq<string>, c: Coord): nat
  {
    Hits(Rolls(grid), c)
  }

  /**
   * What the map holds at key c once the fill has reached row r, column k: c holds a count
   * unless it is outside the rectangle or a non-roll cell already filled, and the count is
   * the number of rolls filled so far in c's block.
   */
  ghost predicate CellInv(m: Adjacency, grid: seq<string>, xSize: int, r: int, k: int, c: Coord)
  {
    && (c in m ==> 0 <= c.x && 0 <= c.y)
    && (Live(m, c) <==> InRect(c, xSize, |grid|) && !(SpaceAt(grid, c) && Before(c.x, c.y, r, k)))
    && (Live(m, c) ==> m[c].value == Hits(RollsBefore(grid, r, k), c))
  }

  ghost predicate FillInv(m: Adjacency, grid: seq<string>, xSize: int, r: int, k: int)
  {
    forall c :: CellInv(m, grid, xSize, r, k, c)
  }

  lemma FillStart(m0: Adjacency, grid: seq<string>, xSize: int)
    requires forall c :: c in m0 <==> InRect(c, xSize, |grid|)
    requires forall c :: c in m0 ==> m0[c] == Some(0)
    ensures FillInv(m0, grid, xSize, 0, 0)
  {
    forall c | c in Rolls(grid)
      ensures !Before(c.x, c.y, 0, 0)
    {
      InRolls(grid, c);
    }
    assert RollsBefore(grid, 0, 0) == {};
    forall c
      ensures CellInv(m0, grid, xSize, 0, 0, c)
    {
      HitsNothing(c);
    }
  }

  lemma RollsBeforeStep(grid: seq<string>, r: nat, k: nat)
    requires r < |grid| && k < |grid[r]|
    ensures Coord(k, r) !in RollsBefore(grid, r, k)
    ensures RollsBefore(grid, r, k + 1)
         == if grid[r][k] == '@' then RollsBefore(grid, r, k) + {Coord(k, r)} else RollsBefore(grid, r, k)
  {
    InRolls(grid, Coord(k, r));
  }

  lemma FillStep(m: Adjacency, grid: seq<string>, xSize: int, r: nat, k: nat)
    requires r < |grid| && k < |grid[r]|
    requires FillInv(m, grid, xSize, r, k)
    ensures FillInv(StepCell(m, grid, k, r), grid, xSize, r, k + 1)
  {
    if grid[r][k] == '@' {
      FillStepRoll(m, grid, xSize, r, k);
    } else {
      FillStepSpace(m, grid, xSize, r, k);
    }
  }

  /** What `AdjustBlock` does to one key: a roll moves by delta in the block, a null stays null. */
  lemma AdjustBlockAt(m: Adjacency, x: int, y: int, delta: int, c: Coord)
    ensures c in AdjustBlock(m, x, y, delta) ==> c in m
    ensures Live(AdjustBlock(m, x, y, delta), c) <==> Live(m, c)
    ensures Live(m, c) ==> AdjustBlock(m, x, y, delta)[c].value == m[c].value + if InBlock(c, x, y) then delta else 0
  {
  }

  lemma FillStepRoll(m: Adjacency, grid: seq<string>, xSize: int, r: nat, k: nat)
    requires r < |grid| && k < |grid[r]| && grid[r][k] == '@'
    requires FillInv(m, grid, xSize, r, k)
    ensures FillInv(AdjustBlock(m, k, r, 1), grid, xSize, r, k + 1)
  {
    RollsBeforeStep(grid, r, k);
    var next, k' := AdjustBlock(m, k, r, 1), k + 1;
    forall c
      ensures CellInv(next, grid, xSize, r, k', c)
    {
      CellStepRoll(m, grid, xSize, r, k, c);
    }
  }

  lemma CellStepRoll(m: Adjacency, grid: seq<string>, xSize: int, r: nat, k: nat, c: Coord)
    requires r < |grid| && k < |grid[r]| && grid[r][k] == '@'
    requires CellInv(m, grid, xSize, r, k, c)
    requires Coord(k, r) !in RollsBefore(grid, r, k)
    requires RollsBefore(grid, r, k + 1) == RollsBefore(grid, r, k) + {Coord(k, r)}
    ensures CellInv(AdjustBlock(m, k, r, 1), grid, xSize, r, k + 1, c)
  {
    AdjustBlockAt(m, k, r, 1, c);
    if Live(m, c) {
      HitsAdd(RollsBefore(grid, r, k), Coord(k, r), c);
    }
  }

  lemma FillStepSpace(m: Adjacency, grid: seq<string>, xSize: int, r: nat, k: nat)
    requires r < |grid| && k < |grid[r]| && grid[r][k] != '@'
    requires FillInv(m, grid, xSize, r, k)
    ensures FillInv(m[Coord(k, r) := None], grid, xSize, r, k + 1)
  {
    RollsBeforeStep(grid, r, k);
    var next, k' := m[Coord(k, r) := None], k + 1;
    forall c
      ensures CellInv(next, grid, xSize, r, k', c)
    {
      CellStepSpace(m, grid, xSize, r, k, c);
    }
  }

  lemma CellStepSpace(m: Adjacency, grid: seq<string>, xSize: int, r: nat, k: nat, c: Coord)
    requires r < |grid| && k < |grid[r]| && grid[r][k] != '@'
    requires CellInv(m, grid, xSize, r, k, c)
    requires RollsBefore(grid, r, k + 1) == RollsBefore(grid, r, k)
    ensures CellInv(m[Coord(k, r) := None], grid, xSize, r, k + 1, c)
  {
  }

  lemma {:induction false} FillRow(m: Adjacency, grid: seq<string>, xSize: int, r: nat, k: nat)
    requires r < |grid| && k <= |grid[r]|
    requires FillInv(m, grid, xSize, r, 0)
    ensures FillInv(RowFilled(m, grid, r, k), grid, xSize, r, k)
  {
    if k > 0 {
      var previous := RowFilled(m, grid, r, k - 1);
      FillRow(m, grid, xSize, r, k - 1);
      FillStep(previous, grid, xSize, r, k - 1);
      assert RowFilled(m, grid, r, k) == StepCell(previous, grid, k - 1, r);
    }
  }

  lemma RollsBeforeRowEnd(grid: seq<string>, r: nat)
    requires r < |grid|
    ensures RollsBefore(grid, r, |grid[r]|) == RollsBefore(grid, r + 1, 0)
  {
    forall c | c in Rolls(grid)
      ensures Before(c.x, c.y, r, |grid[r]|) <==> Before(c.x, c.y, r + 1, 0)
    {
      InRolls(grid, c);
    }
  }

  lemma FillRowEnd(m: Adjacency, grid: seq<string>, xSize: int, r: nat)
    requires r < |grid|
    requires FillInv(m, grid, xSize, r, |grid[r]|)
    ensures FillInv(m, grid, xSize, r + 1, 0)
  {
    RollsBeforeRowEnd(grid, r);
    var r' := r + 1;
    forall c
      ensures CellInv(m, grid, xSize, r', 0, c)
    {
      assert CellInv(m, grid, xSize, r, |grid[r]|, c);
    }
  }

  lemma {:induction false} FillRows(m0: Adjacency, grid: seq<string>, xSize: int, r: nat)
    requires r <= |grid|
    requires FillInv(m0, grid, xSize, 0, 0)
    ensures FillInv(Filled(m0, grid, r), grid, xSize, r, 0)
  {
    if r > 0 {
      var previous := Filled(m0, grid, r - 1);
      var row := RowFilled(previous, grid, r - 1, |grid[r - 1]|);
      FillRows(m0, grid, xSize, r - 1);
      FillRow(previous, grid, xSize, r - 1, |grid[r - 1]|);
      FillRowEnd(row, grid, xSize, r - 1);
      assert Filled(m0, grid, r) == row;
    }
  }

  /**
   * After filling the initial map: a key of the rectangle holds a roll count unless the grid
   * has a non-roll cell there, and that count is the number of rolls in the key's 3x3 block,
   * itself included.
   */
  lemma FillCounts(m0: Adjacency, grid: seq<string>, xSize: int)
    requires forall c :: c in m0 <==> InRect(c, xSize, |grid|)
    requires forall c :: c in m0 ==> m0[c] == Some(0)
    ensures var m := Filled(m0, grid, |grid|);
      && NonNegativeKeys(m)
      && (forall c :: Live(m, c) <==> InRect(c, xSize, |grid|) && !SpaceAt(grid, c))
      && (forall c :: Live(m, c) ==> m[c].value == Neighbours(grid, c))
  {
    FillStart(m0, grid, xSize);
    FillRows(m0, grid, xSize, |grid|);
    forall c | c in Rolls(grid)
      ensures Before(c.x, c.y, |grid|, 0)
    {
      InRolls(grid, c);
    }
    assert RollsBefore(grid, |grid|, 0) == Rolls(grid);
    var m := Filled(m0, grid, |grid|);
    forall c
      ensures c in m ==> 0 <= c.x && 0 <= c.y
      ensures Live(m, c) <==> InRect(c, xSize, |grid|) && !SpaceAt(grid, c)
      ensures Live(m, c) ==> m[c].value == Neighbours(grid, c)
    {
      assert CellInv(m, grid, xSize, |grid|, 0, c);
      if SpaceAt(grid, c) && InRect(c, xSize, |grid|) {
        assert Before(c.x, c.y, |grid|, 0);
      }
    }
  }

  /** Every row as long as the first, as the puzzle's warehouse is. */
  predicate Rectangular(grid: seq<string>)
  {
    |grid| > 0 && forall y :: 0 <= y < |grid| ==> |grid[y]| == |grid[0]|
  }

  /** The map `initialiseAdjacencyMap` builds. */
  function Initial(xSize: nat, ySize: nat): (m: Adjacency)
    ensures forall c :: c in m <==> InRect(c, xSize, ySize)
    ensures forall c :: c in m ==> m[c] == Some(0)
  {
    map x, y | 0 <= x < xSize && 0 <= y < ySize :: Coord(x, y) := Some(0)
  }

  /** The map both parts build: the rectangle of the first row's width, filled. */
  function FilledMap(grid: seq<string>): Adjacency
    requires |grid| > 0
  {
    Filled(Initial(|grid[0]|, |grid|), grid, |grid|)
  }

  /** The keys that hold a roll. */
  function LiveKeys(m: Adjacency): (keys: set<Coord>)
    ensures forall c :: c in keys <==> Live(m, c)
  {
    set c | c in m && m[c].Some?
  }

  /** On a rectangular grid the rolls are exactly the live keys, each with its block count. */
  lemma FilledRectangular(grid: seq<string>)
    requires Rectangular(grid)
    ensures NonNegativeKeys(FilledMap(grid))
    ensures LiveKeys(FilledMap(grid)) == Rolls(grid)
    ensures forall c :: Live(FilledMap(grid), c) ==> FilledMap(grid)[c].value == Neighbours(grid, c)
  {
    var m := FilledMap(grid);
    FillCounts(Initial(|grid[0]|, |grid|), grid, |grid[0]|);
    forall c
      ensures c in LiveKeys(m) <==> c in Rolls(grid)
    {
      InRolls(grid, c);
    }
  }

  // ---------------------------------------------------------------------------------------
  // Part one
  // ---------------------------------------------------------------------------------------

  /** The keys whose value is not null and at most 4: rolls with fewer than four neighbouring rolls. */
  function Accessible(m: Adjacency): (a: set<Coord>)
    ensures forall c :: c in a <==> Live(m, c) && m[c].value <= 4
  {
    set c | c in m && m[c].Some? && m[c].value <= 4
  }

  /** The counting loop of `solvePartOne` over `adjacencyMap.values()`. */
  method CountAccessible(m: Adjacency) returns (accessiblePaperRolls: nat)
    ensures accessiblePaperRolls == |Accessible(m)|
  {
    accessiblePaperRolls := 0;
    var remaining := m.Keys;
    while remaining != {}
      invariant remaining <= m.Keys
      invariant accessiblePaperRolls == |Accessible(m) - remaining|
      decreases remaining
    {
      var c :| c in remaining;
      var counted := Accessible(m) - remaining;
      if m[c].Some? && m[c].value <= 4 {
        assert Accessible(m) - (remaining - {c}) == counted + {c};
        accessiblePaperRolls := accessiblePaperRolls + 1;
      } else {
        assert Accessible(m) - (remaining - {c}) == counted;
      }
      remaining := remaining - {c};
    }
    assert Accessible(m) - remaining == Accessible(m);
  }

  /** The first three lines shared by both parts: initialise the map over the first row's width, then fill it. */
  method BuildAdjacencyMap(grid: seq<string>) returns (adjacencyMap: Adjacency)
    requires |grid| > 0
    ensures adjacencyMap == FilledMap(grid)
    ensures NonNegativeKeys(adjacencyMap)
  {
    adjacencyMap := InitialiseAdjacencyMap(|grid[0]|, |grid|);
    assert adjacencyMap == Initial(|grid[0]|, |grid|);
    adjacencyMap := FillAdjacencyMap(grid, adjacencyMap);
    FillCounts(Initial(|grid[0]|, |grid|), grid, |grid[0]|);
  }

  method SolvePartOne(grid: seq<string>) returns (r: Result<int>)
    ensures |grid| == 0 ==> r == Err(NoSuchElement)
    ensures |grid| > 0 ==> r == Ok(|Accessible(FilledMap(grid))|)
  {
    if |grid| == 0 {
      return Err(NoSuchElement);
    }
    var adjacencyMap := BuildAdjacencyMap(grid);
    var accessiblePaperRolls := CountAccessible(adjacencyMap);
    return Ok(accessiblePaperRolls);
  }

  /** On a rectangular grid, part one counts the rolls with at most 4 rolls in their 3x3 block. */
  lemma PartOneCountsRolls(grid: seq<string>)
    requires Rectangular(grid)
    ensures Accessible(FilledMap(grid))
         == set c | c in Rolls(grid) && Neighbours(grid, c) <= 4
  {
    FilledRectangular(grid);
  }

  // ---------------------------------------------------------------------------------------
  // Removing rolls
  // ---------------------------------------------------------------------------------------

  /** The map with c's roll removed: c gone, every other roll in c's block one lower, and
   * every null key in that block gone. */
  function Removed(m: Adjacency, c: Coord): Adjacency
  {
    map d | d in m && d != c && (!Near(d, c) || m[d].Some?) ::
      if Near(d, c) then Some(m[d].value - 1) else m[d]
  }

  /** `removePaperRoll`: `replace(coordinate, null)` (only on a present key), then `removeAdjacency`. */
  method RemovePaperRoll(c: Coord, m0: Adjacency) returns (m: Adjacency)
    ensures NonNegativeKeys(m0) && 0 <= c.x && 0 <= c.y ==> m == Removed(m0, c)
  {
    m := m0;
    if c in m {
      m := m[c := None];
    }
    ghost var replaced := m;
    m := RemoveAdjacency(c.x, c.y, m);
    if NonNegativeKeys(m0) && 0 <= c.x && 0 <= c.y {
      var r := Removed(m0, c);
      assert forall d :: d in replaced ==> (InBlock(d, c.x, c.y) <==> Near(d, c));
      assert forall d :: d in m <==> d in r;
    }
  }

  /** The map once every roll in S has been removed, in any order. */
  function Swept(m: Adjacency, S: set<Coord>): Adjacency
  {
    map d | d in m && d !in S && (m[d].Some? || Hits(S, d) == 0) ::
      if m[d].Some? then Some(m[d].value - Hits(S, d)) else None
  }

  lemma SweptStep(m: Adjacency, S: set<Coord>, c: Coord)
    requires Live(m, c) && c !in S
    ensures Removed(Swept(m, S), c) == Swept(m, S + {c})
  {
    var a, b := Removed(Swept(m, S), c), Swept(m, S + {c});
    forall d
      ensures d in a <==> d in b
      ensures d in a ==> a[d] == b[d]
    {
      if d in m && d !in S && d != c {
        HitsAdd(S, c, d);
        SweptStepAt(m, S, c, d);
      }
    }
  }

  lemma SweptStepAt(m: Adjacency, S: set<Coord>, c: Coord, d: Coord)
    requires Live(m, c) && c !in S
    requires d in m && d !in S && d != c
    requires Hits(S + {c}, d) == Hits(S, d) + if Near(d, c) then 1 else 0
    ensures d in Removed(Swept(m, S), c) <==> d in Swept(m, S + {c})
    ensures d in Swept(m, S + {c}) ==> Removed(Swept(m, S), c)[d] == Swept(m, S + {c})[d]
  {
    var sw := Swept(m, S);
    if m[d].Some? {
      assert d in sw && sw[d] == Some(m[d].value - Hits(S, d));
    } else if Hits(S, d) == 0 {
      assert d in sw && sw[d] == None;
    } else {
      assert d !in sw;
    }
  }

  lemma SweptKeys(m: Adjacency, S: set<Coord>)
    requires NonNegativeKeys(m)
    ensures NonNegativeKeys(Swept(m, S))
  {
  }

  lemma SweptNothing(m: Adjacency)
    ensures Swept(m, {}) == m
  {
    forall d
      ensures Hits({}, d) == 0
    {
      HitsNothing(d);
    }
    SweptWithoutHits(m, {});
  }

  lemma SweptWithoutHits(m: Adjacency, S: set<Coord>)
    requires forall d :: d in m ==> d !in S && Hits(S, d) == 0
    ensures Swept(m, S) == m
  {
    var a := Swept(m, S);
    forall d
      ensures d in a <==> d in m
      ensures d in a ==> a[d] == m[d]
    {
    }
  }


  /** The first loop of `sweepWarehouse`: every entry that is not null and at most 4. */
  method SelectAccessible(m0: Adjacency) returns (clearedPaper: set<Coord>, accessiblePaperRolls: nat)
    ensures clearedPaper == Accessible(m0)
    ensures accessiblePaperRolls == |Accessible(m0)|
  {
    accessiblePaperRolls := 0;
    clearedPaper := {};
    var entries := m0.Keys;
    while entries != {}
      invariant entries <= m0.Keys
      invariant clearedPaper == Accessible(m0) - entries
      invariant accessiblePaperRolls == |clearedPaper|
      decreases entries
    {
      var place :| place in entries;
      if m0[place].Some? && m0[place].value <= 4 {
        assert place !in clearedPaper;
        accessiblePaperRolls := accessiblePaperRolls + 1;
        clearedPaper := clearedPaper + {place};
      }
      entries := entries - {place};
      assert clearedPaper == Accessible(m0) - entries;
    }
    assert Accessible(m0) - entries == Accessible(m0);
  }

  /** The second loop of `sweepWarehouse`: remove every selected roll, in any order. */
  method RemoveAll(m0: Adjacency, clearedPaper: set<Coord>) returns (m: Adjacency)
    requires clearedPaper <= LiveKeys(m0)
    ensures NonNegativeKeys(m0) ==> m == Swept(m0, clearedPaper)
  {
    m := m0;
    SweptNothing(m0);
    assert clearedPaper - clearedPaper == {};
    var toRemove := clearedPaper;
    while toRemove != {}
      invariant toRemove <= clearedPaper
      invariant NonNegativeKeys(m0) ==> m == Swept(m0, clearedPaper - toRemove)
      decreases toRemove
    {
      var paper :| paper in toRemove;
      if NonNegativeKeys(m0) {
        RemoveOneMore(m0, clearedPaper, toRemove, paper);
      }
      m := RemovePaperRoll(paper, m);
      toRemove := toRemove - {paper};
    }
    assert clearedPaper - toRemove == clearedPaper;
  }

  lemma RemoveOneMore(m0: Adjacency, cleared: set<Coord>, toRemove: set<Coord>, paper: Coord)
    requires NonNegativeKeys(m0) && cleared <= LiveKeys(m0)
    requires toRemove <= cleared && paper in toRemove
    ensures NonNegativeKeys(Swept(m0, cleared - toRemove)) && 0 <= paper.x && 0 <= paper.y
    ensures Removed(Swept(m0, cleared - toRemove), paper) == Swept(m0, cleared - (toRemove - {paper}))
  {
    var done := cleared - toRemove;
    SweptKeys(m0, done);
    SweptStep(m0, done, paper);
    assert cleared - (toRemove - {paper}) == done + {paper};
  }

  /**
   * `sweepWarehouse`: selects every accessible roll before removing any, removes them all,
   * and returns how many it removed.
   */
  method SweepWarehouse(m0: Adjacency) returns (m: Adjacency, accessiblePaperRolls: nat)
    ensures accessiblePaperRolls == |Accessible(m0)|
    ensures NonNegativeKeys(m0) ==> m == Swept(m0, Accessible(m0))
  {
    var clearedPaper;
    clearedPaper, accessiblePaperRolls := SelectAccessible(m0);
    m := RemoveAll(m0, clearedPaper);
  }

  // ---------------------------------------------------------------------------------------
  // Part two
  // ---------------------------------------------------------------------------------------

  lemma SweptLive(m: Adjacency, A: set<Coord>)
    requires A <= LiveKeys(m)
    ensures LiveKeys(Swept(m, A)) == LiveKeys(m) - A
    ensures |LiveKeys(Swept(m, A))| == |LiveKeys(m)| - |A|
  {
    var L := LiveKeys(m);
    assert LiveKeys(Swept(m, A)) == L - A;
    assert L == (L - A) + A;
  }

  /** The rolls part two removes starting from m: sweep after sweep until one removes nothing. */
  function Peel(m: Adjacency): nat
    decreases |LiveKeys(m)|
  {
    var a := Accessible(m);
    if a == {} then 0
    else
      SweptLive(m, a);
      |a| + Peel(Swept(m, a))
  }

  /** The map part two leaves behind. */
  function PeelFinal(m: Adjacency): Adjacency
    decreases |LiveKeys(m)|
  {
    var a := Accessible(m);
    if a == {} then m
    else
      SweptLive(m, a);
      PeelFinal(Swept(m, a))
  }

  /** Every roll part two counts is a roll it removed: the total plus the rolls left is the start. */
  lemma {:induction false} PeelRemoves(m: Adjacency)
    ensures LiveKeys(PeelFinal(m)) <= LiveKeys(m)
    ensures Peel(m) + |LiveKeys(PeelFinal(m))| == |LiveKeys(m)|
    ensures Accessible(PeelFinal(m)) == {}
  {
    var a := Accessible(m);
    if a != {} {
      SweptLive(m, a);
      PeelRemoves(Swept(m, a));
    }
  }

  /** Part two removes at least what its first sweep removes, and at most every roll. */
  lemma PeelBounds(m: Adjacency)
    ensures |Accessible(m)| <= Peel(m) <= |LiveKeys(m)|
  {
    PeelRemoves(m);
  }

  /** Every roll's value is the number of rolls in its 3x3 block, itself included. */
  ghost predicate Consistent(m: Adjacency)
  {
    forall c :: Live(m, c) ==> m[c].value == Hits(LiveKeys(m), c)
  }

  /** Removing one roll keeps every remaining value equal to its block count. */
  lemma RemovedConsistent(m: Adjacency, c: Coord)
    requires Consistent(m) && Live(m, c)
    ensures LiveKeys(Removed(m, c)) == LiveKeys(m) - {c}
    ensures Consistent(Removed(m, c))
  {
    var r := Removed(m, c);
    var L := LiveKeys(m);
    assert LiveKeys(r) == L - {c};
    forall d | Live(r, d)
      ensures r[d].value == Hits(L - {c}, d)
    {
      HitsAdd(L - {c}, c, d);
      assert (L - {c}) + {c} == L;
    }
  }

  /** A whole sweep keeps every remaining value equal to its block count. */
  lemma SweptConsistent(m: Adjacency, A: set<Coord>)
    requires Consistent(m) && A <= LiveKeys(m)
    ensures Consistent(Swept(m, A))
  {
    var L := LiveKeys(m);
    SweptLive(m, A);
    forall d | Live(Swept(m, A), d)
      ensures Swept(m, A)[d].value == Hits(L - A, d)
    {
      HitsSplit(L, A, d);
    }
  }

  /** When part two stops, every roll left has at least four neighbouring rolls left. */
  lemma {:induction false} PeelFixedPoint(m: Adjacency)
    requires Consistent(m)
    ensures Consistent(PeelFinal(m))
    ensures forall c :: Live(PeelFinal(m), c) ==> Hits(LiveKeys(PeelFinal(m)), c) > 4
  {
    var a := Accessible(m);
    if a != {} {
      SweptLive(m, a);
      SweptConsistent(m, a);
      PeelFixedPoint(Swept(m, a));
    }
  }

  /** The filled map of a rectangular grid is consistent. */
  lemma FilledConsistent(grid: seq<string>)
    requires Rectangular(grid)
    ensures Consistent(FilledMap(grid))
  {
    FilledRectangular(grid);
  }

  /** The sweeping loop of `solvePartTwo`: sweep until a sweep removes nothing, adding up the removals. */
  method SweepUntilDone(m0: Adjacency) returns (accessiblePaperRolls: nat)
    requires NonNegativeKeys(m0)
    ensures accessiblePaperRolls == Peel(m0)
  {
    accessiblePaperRolls := 0;
    var adjacencyMap, paperRollsRemoved := SweepWarehouse(m0);
    SweepFacts(m0);
    while paperRollsRemoved > 0
      invariant NonNegativeKeys(adjacencyMap)
      invariant accessiblePaperRolls + paperRollsRemoved + Peel(adjacencyMap) == Peel(m0)
      invariant paperRollsRemoved == 0 ==> Accessible(adjacencyMap) == {}
      decreases |LiveKeys(adjacencyMap)| + paperRollsRemoved
    {
      accessiblePaperRolls := accessiblePaperRolls + paperRollsRemoved;
      ghost var before := adjacencyMap;
      adjacencyMap, paperRollsRemoved := SweepWarehouse(adjacencyMap);
      SweepFacts(before);
    }
    SweepFacts(adjacencyMap);
  }

  method SolvePartTwo(grid: seq<string>) returns (r: Result<int>)
    ensures |grid| == 0 ==> r == Err(NoSuchElement)
    ensures |grid| > 0 ==> r == Ok(Peel(FilledMap(grid)))
  {
    if |grid| == 0 {
      return Err(NoSuchElement);
    }
    var adjacencyMap := BuildAdjacencyMap(grid);
    var accessiblePaperRolls := SweepUntilDone(adjacencyMap);
    return Ok(accessiblePaperRolls);
  }

  lemma SweepFacts(m: Adjacency)
    requires NonNegativeKeys(m)
    ensures var a := Accessible(m);
      && NonNegativeKeys(Swept(m, a))
      && Peel(m) == |a| + Peel(Swept(m, a))
      && (a == {} ==> Peel(m) == 0)
      && |LiveKeys(Swept(m, a))| == |LiveKeys(m)| - |a|
      && (a == {} ==> Swept(m, a) == m)
  {
    var a := Accessible(m);
    SweptKeys(m, a);
    SweptLive(m, a);
    if a == {} {
      SweptNothing(m);
    }
  }

  /**
   * Part two's total lies between part one's count and the number of live keys, which on a
   * rectangular grid is the number of rolls.
   */
  lemma PartTwoBounds(grid: seq<string>)
    requires |grid| > 0
    ensures |Accessible(FilledMap(grid))| <= Peel(FilledMap(grid)) <= |LiveKeys(FilledMap(grid))|
    ensures Rectangular(grid) ==> Peel(FilledMap(grid)) <= |Rolls(grid)|
  {
    PeelBounds(FilledMap(grid));
    if Rectangular(grid) {
      FilledRectangular(grid);
    }
  }
}
