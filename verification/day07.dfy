/**
 * The tachyon manifold: a grid of characters in which a beam leaves the source `S`, moves
 * down one row at a time, and is split in two by every splitter `^` it runs into. Part one
 * traces the beam through the grid in place and counts the splits; part two walks every
 * column of the bottom row back up to the source, caching the walks that start above a
 * splitter, and adds up what those back-traces report.
 */
module Day07 {
  import opened Common

  const SOURCE: char := 'S'
  const SPLITTER: char := '^'
  const BEAM: char := '|'
  const EMPTY: char := '.'

  /** The manifold as rows of characters, row 0 at the top. */
  type Grid = seq<seq<char>>

  function Width(g: Grid): nat
  {
    if g == [] then 0 else |g[0]|
  }

  /** Every row is as long as the first. */
  predicate Rectangular(g: Grid)
  {
    forall y :: 0 <= y < |g| ==> |g[y]| == Width(g)
  }

  /**
   * What the forward trace needs to stay inside the grid: no source on the last row (the
   * cell below it is written) and no splitter in an edge column (both cells beside it are).
   */
  predicate Traceable(g: Grid)
  {
    && Rectangular(g)
    && (forall y, x :: 0 <= y < |g| && 0 <= x < Width(g) && g[y][x] == SOURCE ==> y + 1 < |g|)
    && (forall y, x :: 0 <= y < |g| && 0 <= x < Width(g) && g[y][x] == SPLITTER ==> 0 < x < Width(g) - 1)
  }

  predicate IsCell(c: char)
  {
    c == SOURCE || c == SPLITTER || c == BEAM || c == EMPTY
  }

  /** Every cell is a source, a splitter, a beam or empty; the back-trace never ends on anything else. */
  predicate Charted(g: Grid)
  {
    && Rectangular(g)
    && (forall y, x :: 0 <= y < |g| && 0 <= x < Width(g) ==> IsCell(g[y][x]))
  }

  /** The grid with cell (y, x) turned into a beam. */
  function Mark(g: Grid, y: nat, x: nat): (r: Grid)
    requires y < |g| && x < |g[y]|
    ensures |r| == |g| && forall i :: 0 <= i < |g| && i != y ==> r[i] == g[i]
    ensures |r[y]| == |g[y]| && r[y][x] == BEAM
    ensures forall j :: 0 <= j < |g[y]| && j != x ==> r[y][j] == g[y][j]
  {
    g[y := g[y][x := BEAM]]
  }

  lemma MarkTraceable(g: Grid, y: nat, x: nat)
    requires Traceable(g) && y < |g| && x < Width(g)
    ensures Traceable(Mark(g, y, x)) && Width(Mark(g, y, x)) == Width(g)
  {
    var r := Mark(g, y, x);
    assert Width(r) == Width(g) by {
      assert r[0] == g[0] || (y == 0 && |r[0]| == |g[0]|);
    }
    forall i, j | 0 <= i < |r| && 0 <= j < Width(r)
      ensures r[i][j] == g[i][j] || r[i][j] == BEAM
    {
      if i == y && j == x {
      } else if i == y {
        assert r[i][j] == g[i][j];
      }
    }
  }

  /**
   * The cell (y, x) of the grid as the forward trace finds it, visited: the grid it leaves
   * and the splits it adds.
   */
  function Visit(g: Grid, y: nat, x: nat): (r: (Grid, nat))
    requires Traceable(g) && y < |g| && x < Width(g)
    ensures Traceable(r.0) && |r.0| == |g| && Width(r.0) == Width(g)
    ensures forall i :: 0 <= i < |g| && i != y + 1 ==> r.0[i] == g[i]
  {
    if g[y][x] == SOURCE then
      MarkTraceable(g, y + 1, x);
      (Mark(g, y + 1, x), 0)
    else if g[y][x] == BEAM && y != |g| - 1 then
      if g[y + 1][x] == SPLITTER then
        MarkTraceable(g, y + 1, x - 1);
        MarkTraceable(Mark(g, y + 1, x - 1), y + 1, x + 1);
        (Mark(Mark(g, y + 1, x - 1), y + 1, x + 1), 1)
      else
        MarkTraceable(g, y + 1, x);
        (Mark(g, y + 1, x), 0)
    else
      (g, 0)
  }

  /** The forward trace over the first x cells of row y. */
  function SweepRow(g: Grid, y: nat, x: nat): (r: (Grid, nat))
    requires Traceable(g) && y < |g| && x <= Width(g)
    ensures Traceable(r.0) && |r.0| == |g| && Width(r.0) == Width(g)
  {
    if x == 0 then (g, 0)
    else
      var before := SweepRow(g, y, x - 1);
      var visited := Visit(before.0, y, x - 1);
      (visited.0, before.1 + visited.1)
  }

  /** The forward trace over the first y rows. */
  function Sweep(g: Grid, y: nat): (r: (Grid, nat))
    requires Traceable(g) && y <= |g|
    ensures Traceable(r.0) && |r.0| == |g| && Width(r.0) == Width(g)
  {
    if y == 0 then (g, 0)
    else
      var above := Sweep(g, y - 1);
      var row := SweepRow(above.0, y - 1, Width(g));
      (row.0, above.1 + row.1)
  }

  /** The whole forward trace: the traced grid and the number of splits. */
  function Traced(g: Grid): (r: (Grid, nat))
    requires Traceable(g)
    ensures Traceable(r.0) && |r.0| == |g| && Width(r.0) == Width(g)
  {
    Sweep(g, |g|)
  }

  lemma SweepRowNext(g: Grid, y: nat, x: nat)
    requires Traceable(g) && y < |g| && x < Width(g)
    ensures SweepRow(g, y, x + 1).0 == Visit(SweepRow(g, y, x).0, y, x).0
    ensures SweepRow(g, y, x + 1).1 == SweepRow(g, y, x).1 + Visit(SweepRow(g, y, x).0, y, x).1
  {
  }

  lemma SweepNext(g: Grid, y: nat)
    requires Traceable(g) && y < |g|
    ensures Sweep(g, y + 1).0 == SweepRow(Sweep(g, y).0, y, Width(g)).0
    ensures Sweep(g, y + 1).1 == Sweep(g, y).1 + SweepRow(Sweep(g, y).0, y, Width(g)).1
  {
  }

  /** The cells the visit of (y, x) writes lie inside the grid. */
  lemma WritesInside(g: Grid, y: nat, x: nat)
    requires Traceable(g) && y < |g| && x < Width(g)
    ensures g[y][x] == SOURCE ==> y + 1 < |g|
    ensures y + 1 < |g| && g[y + 1][x] == SPLITTER ==> 0 < x < Width(g) - 1
  {
  }

  /** Cell (y, x) of h is the cell of g or a beam. */
  predicate Overwritten(g: Grid, h: Grid, y: nat, x: nat)
    requires y < |g| && y < |h| && x < |g[y]| && x < |h[y]|
  {
    h[y][x] == g[y][x] || h[y][x] == BEAM
  }

  /** h is g with some cells turned into beams and nothing else changed. */
  predicate Overwrites(g: Grid, h: Grid)
  {
    && |h| == |g|
    && (forall y :: 0 <= y < |g| ==> |h[y]| == |g[y]|)
    && (forall y, x :: 0 <= y < |g| && 0 <= x < |g[y]| ==> Overwritten(g, h, y, x))
  }

  lemma OverwritesTransitive(a: Grid, b: Grid, c: Grid)
    requires Overwrites(a, b) && Overwrites(b, c)
    ensures Overwrites(a, c)
  {
    forall y, x | 0 <= y < |a| && 0 <= x < |a[y]|
      ensures Overwritten(a, c, y, x)
    {
      assert Overwritten(a, b, y, x) && Overwritten(b, c, y, x);
    }
  }

  /** A visit writes beams and only beams, and only into the row below the visited cell. */
  lemma VisitWritesBelow(g: Grid, y: nat, x: nat)
    requires Traceable(g) && y < |g| && x < Width(g)
    ensures Overwrites(g, Visit(g, y, x).0)
    ensures forall i :: 0 <= i < |g| && i != y + 1 ==> Visit(g, y, x).0[i] == g[i]
  {
    var r := Visit(g, y, x).0;
    forall i, j | 0 <= i < |g| && 0 <= j < |g[i]|
      ensures Overwritten(g, r, i, j)
    {
      if g[y][x] == BEAM && y != |g| - 1 && g[y + 1][x] == SPLITTER && i == y + 1 {
        var h := Mark(g, y + 1, x - 1);
        assert h[i][j] == g[i][j] || h[i][j] == BEAM;
      }
    }
  }

  /** While scanning row y the trace writes beams and only beams, and only into row y + 1. */
  lemma {:induction false} SweepRowWritesBelow(g: Grid, y: nat, x: nat)
    requires Traceable(g) && y < |g| && x <= Width(g)
    ensures Overwrites(g, SweepRow(g, y, x).0)
    ensures forall i :: 0 <= i < |g| && i != y + 1 ==> SweepRow(g, y, x).0[i] == g[i]
  {
    if x > 0 {
      SweepRowWritesBelow(g, y, x - 1);
      var h := SweepRow(g, y, x - 1).0;
      VisitWritesBelow(h, y, x - 1);
      OverwritesTransitive(g, h, Visit(h, y, x - 1).0);
    }
  }

  /** Scanning the first n rows only turns cells into beams. */
  lemma {:induction false} SweepOverwrites(g: Grid, n: nat)
    requires Traceable(g) && n <= |g|
    ensures Overwrites(g, Sweep(g, n).0)
  {
    if n > 0 {
      SweepOverwrites(g, n - 1);
      SweepOverwritesNext(g, n - 1);
      OverwritesTransitive(g, Sweep(g, n - 1).0, Sweep(g, n).0);
    } else {
      assert forall y, x :: 0 <= y < |g| && 0 <= x < |g[y]| ==> Overwritten(g, g, y, x);
    }
  }

  /** Scanning one row only turns cells into beams. */
  lemma SweepOverwritesNext(g: Grid, y: nat)
    requires Traceable(g) && y < |g|
    ensures Overwrites(Sweep(g, y).0, Sweep(g, y + 1).0)
  {
    var h := Sweep(g, y).0;
    SweepNext(g, y);
    SweepRowWritesBelow(h, y, Width(h));
  }

  /**
   * Scanning rows y to n - 1 leaves rows 0 to y alone: each row is final by the time it is
   * scanned, and rows above it stay as they were.
   */
  lemma {:induction false} SweepSettles(g: Grid, y: nat, n: nat)
    requires Traceable(g) && y <= n <= |g|
    ensures forall i :: 0 <= i <= y && i < |g| ==> Sweep(g, n).0[i] == Sweep(g, y).0[i]
  {
    if n > y {
      SweepSettles(g, y, n - 1);
      var h := Sweep(g, n - 1).0;
      var k := Sweep(g, n).0;
      assert forall i :: 0 <= i < |g| && i != n ==> k[i] == h[i] by {
        SweepNext(g, n - 1);
        SweepRowWritesBelow(h, n - 1, Width(h));
      }
    }
  }

  /** The forward trace turns cells into beams and changes nothing else; row 0 is left as it is. */
  lemma TracedWritesBeams(g: Grid)
    requires Traceable(g)
    ensures Overwrites(g, Traced(g).0)
    ensures |g| > 0 ==> Traced(g).0[0] == g[0]
  {
    SweepOverwrites(g, |g|);
    SweepSettles(g, 0, |g|);
  }

  /** Row y as its scan begins is row y of the traced grid. */
  lemma RowFinalWhenScanned(g: Grid, y: nat)
    requires Traceable(g) && y < |g|
    ensures Traced(g).0[y] == Sweep(g, y).0[y]
  {
    SweepSettles(g, y, |g|);
  }

  lemma {:induction false} SweepRowOverwrites(g: Grid, y: nat, m: nat, n: nat)
    requires Traceable(g) && y < |g| && m <= n <= Width(g)
    ensures Overwrites(SweepRow(g, y, m).0, SweepRow(g, y, n).0)
  {
    if m < n {
      SweepRowOverwrites(g, y, m, n - 1);
      SweepRowOverwritesNext(g, y, n - 1);
      OverwritesTransitive(SweepRow(g, y, m).0, SweepRow(g, y, n - 1).0, SweepRow(g, y, n).0);
    }
  }

  /** Visiting one more cell of the row only turns cells into beams. */
  lemma SweepRowOverwritesNext(g: Grid, y: nat, x: nat)
    requires Traceable(g) && y < |g| && x < Width(g)
    ensures Overwrites(SweepRow(g, y, x).0, SweepRow(g, y, x + 1).0)
  {
    SweepRowNext(g, y, x);
    VisitWritesBelow(SweepRow(g, y, x).0, y, x);
  }

  /** A source still in place in the traced grid has a beam directly below it. */
  lemma SourceMarksBelow(g: Grid, y: nat, x: nat)
    requires Traceable(g) && y < |g| && x < Width(g) && Traced(g).0[y][x] == SOURCE
    ensures y + 1 < |g| && Traced(g).0[y + 1][x] == BEAM
  {
    RowFinalWhenScanned(g, y);
    var h := Sweep(g, y).0;
    var p := SweepRow(h, y, x).0;
    SweepRowWritesBelow(h, y, x);
    assert p[y][x] == SOURCE;
    SweepRowNext(h, y, x);
    var q := SweepRow(h, y, x + 1).0;
    assert q[y + 1][x] == BEAM;
    SweepRowOverwrites(h, y, x + 1, Width(h));
    assert Overwritten(q, SweepRow(h, y, Width(h)).0, y + 1, x);
    SweepNext(g, y);
    SweepSettles(g, y + 1, |g|);
  }

  /**
   * The visit of a beam: on the last row it changes nothing; above a splitter it marks both
   * cells diagonally below as beams and counts one split; otherwise it marks the cell below.
   */
  lemma BeamRules(g: Grid, y: nat, x: nat)
    requires Traceable(g) && y < |g| && x < Width(g) && g[y][x] == BEAM
    ensures y + 1 == |g| ==> Visit(g, y, x) == (g, 0)
    ensures y + 1 < |g| && g[y + 1][x] == SPLITTER ==>
      && Visit(g, y, x).1 == 1
      && Visit(g, y, x).0[y + 1][x - 1] == BEAM && Visit(g, y, x).0[y + 1][x + 1] == BEAM
      && Visit(g, y, x).0[y + 1][x] == SPLITTER
    ensures y + 1 < |g| && g[y + 1][x] != SPLITTER ==>
      Visit(g, y, x).1 == 0 && Visit(g, y, x).0[y + 1][x] == BEAM
  {
  }

  lemma ChartedOverwritten(g: Grid, h: Grid)
    requires Charted(g) && Overwrites(g, h)
    ensures Charted(h)
  {
    assert Width(h) == Width(g) by {
      if g != [] {
        assert |h[0]| == |g[0]|;
      }
    }
    forall y, x | 0 <= y < |h| && 0 <= x < Width(h)
      ensures IsCell(h[y][x])
    {
      assert Overwritten(g, h, y, x);
    }
  }

  /** Cell (y, x) holds a beam and the cell below it a splitter. */
  predicate Hit(g: Grid, y: nat, x: nat)
    requires Rectangular(g) && y < |g| && x < Width(g)
  {
    g[y][x] == BEAM && y + 1 < |g| && g[y + 1][x] == SPLITTER
  }

  /** The hits among the first n cells of row y. */
  function RowHits(g: Grid, y: nat, n: nat): nat
    requires Rectangular(g) && y < |g| && n <= Width(g)
  {
    if n == 0 then 0 else RowHits(g, y, n - 1) + (if Hit(g, y, n - 1) then 1 else 0)
  }

  /** The hits in the first n rows. */
  function Hits(g: Grid, n: nat): nat
    requires Rectangular(g) && n <= |g|
  {
    if n == 0 then 0 else Hits(g, n - 1) + RowHits(g, n - 1, Width(g))
  }

  lemma {:induction false} RowHitsAgree(g: Grid, h: Grid, y: nat, n: nat)
    requires Rectangular(g) && Rectangular(h) && |g| == |h| && Width(g) == Width(h)
    requires y < |g| && n <= Width(g)
    requires forall j :: 0 <= j < n ==> Hit(g, y, j) == Hit(h, y, j)
    ensures RowHits(g, y, n) == RowHits(h, y, n)
  {
    if n > 0 {
      RowHitsAgree(g, h, y, n - 1);
    }
  }

  /** The hits in the first n rows depend on rows 0 to n only. */
  lemma {:induction false} HitsAgree(g: Grid, h: Grid, n: nat)
    requires Rectangular(g) && Rectangular(h) && |g| == |h| && Width(g) == Width(h) && n <= |g|
    requires forall i :: 0 <= i <= n && i < |g| ==> g[i] == h[i]
    ensures Hits(g, n) == Hits(h, n)
  {
    if n > 0 {
      var row := n - 1;
      HitsAgree(g, h, row);
      forall j | 0 <= j < Width(g)
        ensures Hit(g, row, j) == Hit(h, row, j)
      {
        assert g[row] == h[row];
        if n < |g| {
          assert g[n] == h[n];
        }
      }
      RowHitsAgree(g, h, row, Width(g));
    }
  }

  /**
   * A visit counts a split exactly when its cell is a hit. Provided the previous cell of the
   * row, if it was a hit, has already marked this cell's lower neighbour as a beam, the visit
   * leaves the hits up to and including its own cell as they were, and a hit marks the next
   * cell's lower neighbour in turn.
   */
  lemma VisitCounts(h: Grid, y: nat, x: nat)
    requires Traceable(h) && y < |h| && x < Width(h)
    requires x > 0 && Hit(h, y, x - 1) ==> h[y + 1][x] == BEAM
    ensures Visit(h, y, x).1 == if Hit(h, y, x) then 1 else 0
    ensures forall j :: 0 <= j <= x ==> Hit(Visit(h, y, x).0, y, j) == Hit(h, y, j)
    ensures Hit(Visit(h, y, x).0, y, x) && x + 1 < Width(h) ==> Visit(h, y, x).0[y + 1][x + 1] == BEAM
  {
    var k := Visit(h, y, x).0;
    VisitWritesBelow(h, y, x);
    assert k[y] == h[y];
    forall j | 0 <= j <= x
      ensures Hit(k, y, j) == Hit(h, y, j)
    {
      if y + 1 < |h| {
        assert Overwritten(h, k, y + 1, j);
        if j + 1 < x {
          assert k[y + 1][j] == h[y + 1][j];
        }
      }
    }
  }

  /**
   * Over the first x cells of row y the trace counts exactly the hits among them, judged in
   * the grid it leaves; after a hit, the next cell's lower neighbour is already a beam.
   */
  lemma {:induction false} SweepRowCounts(g: Grid, y: nat, x: nat)
    requires Traceable(g) && y < |g| && x <= Width(g)
    ensures SweepRow(g, y, x).1 == RowHits(SweepRow(g, y, x).0, y, x)
    ensures 0 < x < Width(g) && Hit(SweepRow(g, y, x).0, y, x - 1) ==> SweepRow(g, y, x).0[y + 1][x] == BEAM
  {
    if x > 0 {
      SweepRowCounts(g, y, x - 1);
      var h := SweepRow(g, y, x - 1).0;
      var k := Visit(h, y, x - 1).0;
      VisitCounts(h, y, x - 1);
      RowHitsAgree(k, h, y, x - 1);
    }
  }

  /** Over the first y rows the trace counts exactly the hits in those rows of the grid it leaves. */
  lemma {:induction false} SweepCounts(g: Grid, y: nat)
    requires Traceable(g) && y <= |g|
    ensures Sweep(g, y).1 == Hits(Sweep(g, y).0, y)
  {
    if y > 0 {
      SweepCounts(g, y - 1);
      SweepCountsNext(g, y - 1);
    }
  }

  /** Scanning row y adds the hits of that row and leaves the hits of the rows above. */
  lemma SweepCountsNext(g: Grid, y: nat)
    requires Traceable(g) && y < |g| && Sweep(g, y).1 == Hits(Sweep(g, y).0, y)
    ensures Sweep(g, y + 1).1 == Hits(Sweep(g, y + 1).0, y + 1)
  {
    var h := Sweep(g, y).0;
    var k := Sweep(g, y + 1).0;
    SweepNext(g, y);
    SweepRowCounts(h, y, Width(h));
    SweepRowWritesBelow(h, y, Width(h));
    HitsAgree(k, h, y);
  }

  /**
   * The number of splits the forward trace returns is the number of beam cells in the traced
   * grid whose lower neighbour is a splitter.
   */
  lemma TracedCountsHits(g: Grid)
    requires Traceable(g)
    ensures Traced(g).1 == Hits(Traced(g).0, |g|)
  {
    SweepCounts(g, |g|);
  }

  /**
   * The back-trace from column x, starting at row y with `timelines` found so far, without a
   * cache: on a source it ends with exactly one timeline, whatever it had found; on a splitter
   * or an empty cell it ends with what it has found; on a beam it adds the back-traces from
   * the cells above the splitters beside it and moves up a row; above row 0 it ends with what
   * it has found.
   */
  function Walk(g: Grid, x: nat, y: int, timelines: nat): nat
    requires Charted(g) && x < Width(g) && -1 <= y < |g|
    decreases y + 1
  {
    if y < 0 then timelines
    else if g[y][x] == SOURCE then 1
    else if g[y][x] == SPLITTER || g[y][x] == EMPTY then timelines
    else
      var left := if x >= 1 && g[y][x - 1] == SPLITTER then Walk(g, x - 1, y - 1, 0) else 0;
      var right := if x + 1 < Width(g) && g[y][x + 1] == SPLITTER then Walk(g, x + 1, y - 1, 0) else 0;
      Walk(g, x, y - 1, timelines + left + right)
  }

  /**
   * The back-trace from cell (y, x): what the walk up the column reports. It is the code's walk,
   * not an independent count of paths; `ExampleSourceDropsFound` shows it can differ from one.
   */
  function BackTrace(g: Grid, x: nat, y: int): nat
    requires Charted(g) && x < Width(g) && -1 <= y < |g|
  {
    Walk(g, x, y, 0)
  }

  /** Going up column x from row y, the cells are beams until a source. */
  predicate Climbs(g: Grid, x: nat, y: int)
    requires Rectangular(g) && x < Width(g) && -1 <= y < |g|
    decreases y + 1
  {
    && 0 <= y
    && (g[y][x] == SOURCE || (g[y][x] == BEAM && Climbs(g, x, y - 1)))
  }

  /**
   * A back-trace whose column climbs straight to the source counts one timeline and drops
   * what it had found on the way; any other adds what it had found to the back-trace from
   * scratch.
   */
  lemma {:induction false} WalkAccumulates(g: Grid, x: nat, y: int, timelines: nat)
    requires Charted(g) && x < Width(g) && -1 <= y < |g|
    ensures Walk(g, x, y, timelines) == if Climbs(g, x, y) then 1 else timelines + BackTrace(g, x, y)
    decreases y + 1
  {
    if y >= 0 && g[y][x] == BEAM {
      var left := if x >= 1 && g[y][x - 1] == SPLITTER then Walk(g, x - 1, y - 1, 0) else 0;
      var right := if x + 1 < Width(g) && g[y][x + 1] == SPLITTER then Walk(g, x + 1, y - 1, 0) else 0;
      WalkAccumulates(g, x, y - 1, timelines + left + right);
      WalkAccumulates(g, x, y - 1, left + right);
    }
  }

  /** The back-traces of the first n columns of the bottom row, added up. */
  function Timelines(g: Grid, n: nat): nat
    requires Charted(g) && |g| > 0 && n <= Width(g)
  {
    if n == 0 then 0 else Timelines(g, n - 1) + BackTrace(g, n - 1, |g| - 1)
  }

  /** Part two: trace the beam, then add up the back-traces from every cell of the bottom row. */
  function PartTwo(g: Grid): Result<nat>
    requires Traceable(g) && Charted(g)
  {
    if |g| == 0 then Err(IndexOutOfBounds)
    else
      TracedWritesBeams(g);
      ChartedOverwritten(g, Traced(g).0);
      Ok(Timelines(Traced(g).0, Width(g)))
  }

  /** The back-trace steps past a beam cell by adding the back-traces above the splitters beside it. */
  lemma WalkPastBeam(g: Grid, x: nat, y: nat, timelines: nat)
    requires Charted(g) && x < Width(g) && y < |g| && g[y][x] == BEAM
    ensures Walk(g, x, y, timelines) == Walk(g, x, y - 1, timelines
      + (if x >= 1 && g[y][x - 1] == SPLITTER then BackTrace(g, x - 1, y - 1) else 0)
      + (if x + 1 < Width(g) && g[y][x + 1] == SPLITTER then BackTrace(g, x + 1, y - 1) else 0))
  {
  }

  /** Every entry of the cache is the back-trace, without a cache, of its coordinate in g. */
  ghost predicate Memoises(cache: map<(int, int), nat>, g: Grid)
  {
    && Charted(g)
    && forall key :: key in cache ==>
         && 0 <= key.0 < Width(g) && -1 <= key.1 < |g|
         && cache[key] == BackTrace(g, key.0, key.1)
  }

  /** `later` holds every entry of `earlier`, unchanged. */
  predicate Extends(earlier: map<(int, int), nat>, later: map<(int, int), nat>)
  {
    forall key :: key in earlier ==> key in later && later[key] == earlier[key]
  }

  /** Caching a back-trace keeps the cache faithful and changes no entry it already had. */
  lemma MemoisePut(cache: map<(int, int), nat>, g: Grid, x: nat, y: int, found: nat)
    requires Memoises(cache, g) && x < Width(g) && -1 <= y < |g| && found == BackTrace(g, x, y)
    ensures Memoises(cache[(x, y) := found], g)
    ensures Extends(cache, cache[(x, y) := found])
  {
  }

  /** One visit of a row scan, for the worked example below: from `before` the scan reaches `after`. */
  lemma ScanStep(g: Grid, y: nat, x: nat, before: Grid, splits: nat, after: Grid, added: nat)
    requires Traceable(g) && y < |g| && x < Width(g)
    requires SweepRow(g, y, x) == (before, splits) && Visit(before, y, x) == (after, added)
    ensures SweepRow(g, y, x + 1) == (after, splits + added)
  {
    SweepRowNext(g, y, x);
  }

  /**
   * A small manifold: the source on row 0 and one splitter two rows below it. The trace
   * splits once, marking both cells beside the splitter, and two timelines reach the bottom
   * row, one on each side of the splitter.
   */
  lemma ExampleOneSplitGrid(g: Grid)
    requires g == [".S.", "...", ".^."]
    ensures Traceable(g) && Charted(g)
  {
    assert g[0] == ".S." && g[1] == "..." && g[2] == ".^.";
  }

  lemma ExampleOneSplit(g: Grid)
    requires g == [".S.", "...", ".^."]
    ensures Traced(g).0 == Mark(Mark(Mark(g, 1, 1), 2, 0), 2, 2)
    ensures Traced(g).1 == 1
    ensures PartTwo(g) == Ok(2)
  {
    ExampleOneSplitGrid(g);
    var g1 := Mark(g, 1, 1);
    MarkTraceable(g, 1, 1);
    var h := Mark(g1, 2, 0);
    MarkTraceable(g1, 2, 0);
    var t := Mark(h, 2, 2);
    MarkTraceable(h, 2, 2);
    ScanStep(g, 0, 0, g, 0, g, 0);
    ScanStep(g, 0, 1, g, 0, g1, 0);
    ScanStep(g, 0, 2, g1, 0, g1, 0);
    ScanStep(g1, 1, 0, g1, 0, g1, 0);
    ScanStep(g1, 1, 1, g1, 0, t, 1);
    ScanStep(g1, 1, 2, t, 1, t, 0);
    ScanStep(t, 2, 0, t, 0, t, 0);
    ScanStep(t, 2, 1, t, 0, t, 0);
    ScanStep(t, 2, 2, t, 0, t, 0);
    SweepNext(g, 0);
    SweepNext(g, 1);
    SweepNext(g, 2);
    TracedWritesBeams(g);
    ChartedOverwritten(g, t);
    assert BackTrace(t, 1, 1) == 1;
    assert BackTrace(t, 0, 2) == 1;
    assert BackTrace(t, 1, 2) == 0;
    assert BackTrace(t, 2, 2) == 1;
    assert Timelines(t, 1) == 1;
    assert Timelines(t, 2) == 1;
    assert Timelines(t, 3) == 2;
  }

  /**
   * A back-trace that meets the source drops what it found on the way: the beam below the
   * left source also passes the splitter under the right source, whose back-trace finds a
   * timeline, yet the beam's back-trace is one.
   */
  lemma ExampleSourceDropsFound()
    ensures Charted([".SS..", ".|^.."])
    ensures BackTrace([".SS..", ".|^.."], 2, 0) == 1
    ensures Walk([".SS..", ".|^.."], 1, 0, 1) == 1
    ensures BackTrace([".SS..", ".|^.."], 1, 1) == 1
  {
    var g: Grid := [".SS..", ".|^.."];
    assert Charted(g);
    assert BackTrace(g, 2, 0) == 1;
    assert Walk(g, 1, 1, 0) == Walk(g, 1, 0, 1);
  }

  /** The cells of a two-dimensional array, row by row. */
  ghost function Cells(m: array2<char>): (g: Grid)
    reads m
    ensures |g| == m.Length0
  {
    seq(m.Length0, y requires 0 <= y < m.Length0 reads m =>
      seq(m.Length1, x requires 0 <= x < m.Length1 reads m => m[y, x]))
  }

  /** The array holds the grid g. */
  ghost predicate Agrees(m: array2<char>, g: Grid)
    reads m
  {
    && |g| == m.Length0
    && (forall y :: 0 <= y < |g| ==> |g[y]| == m.Length1)
    && (forall y, x :: 0 <= y < m.Length0 && 0 <= x < m.Length1 ==> m[y, x] == g[y][x])
  }

  lemma CellsAgree(m: array2<char>)
    ensures Agrees(m, Cells(m))
  {
  }

  lemma AgreesCells(m: array2<char>, g: Grid)
    requires Agrees(m, g)
    ensures Cells(m) == g
  {
    var c := Cells(m);
    forall y | 0 <= y < |g|
      ensures c[y] == g[y]
    {
      assert |c[y]| == |g[y]|;
      forall x | 0 <= x < |g[y]|
        ensures c[y][x] == g[y][x]
      {
      }
    }
  }

  /** After cell (y, x) of an array holding g is set to a beam, the array holds Mark(g, y, x). */
  lemma AgreesMark(m: array2<char>, g: Grid, y: nat, x: nat)
    requires |g| == m.Length0 && (forall i :: 0 <= i < |g| ==> |g[i]| == m.Length1)
    requires y < m.Length0 && x < m.Length1 && m[y, x] == BEAM
    requires forall i, j :: 0 <= i < m.Length0 && 0 <= j < m.Length1 && (i, j) != (y, x) ==> m[i, j] == g[i][j]
    ensures Agrees(m, Mark(g, y, x))
  {
  }

  class BeamTracer {
    /**
     * Back-trace results by coordinate. The source keys them by the string "x<x>y<y>", which
     * tells coordinates apart exactly as the pair (x, y) does.
     */
    var timelineCache: map<(int, int), nat>

    constructor()
      ensures timelineCache == map[]
    {
      timelineCache := map[];
    }

    /**
     * Traces the beam through the manifold in place, row by row and left to right, and
     * returns the number of splits.
     */
    method TraceTachyonBeam(manifold: array2<char>) returns (amountOfSplits: int)
      requires Traceable(Cells(manifold))
      modifies manifold
      ensures Cells(manifold) == Traced(old(Cells(manifold))).0
      ensures amountOfSplits == Traced(old(Cells(manifold))).1
    {
      ghost var start := Cells(manifold);
      ghost var g := start;
      CellsAgree(manifold);
      amountOfSplits := 0;
      for y := 0 to manifold.Length0
        invariant Agrees(manifold, g)
        invariant Sweep(start, y).0 == g && Sweep(start, y).1 == amountOfSplits
      {
        var splits := TraceRow(manifold, g, y);
        SweepNext(start, y);
        g := SweepRow(g, y, Width(g)).0;
        amountOfSplits := amountOfSplits + splits;
      }
      AgreesCells(manifold, g);
    }

    /** One pass of the outer loop of the forward trace: the scan of row y, left to right. */
    method TraceRow(manifold: array2<char>, ghost g: Grid, y: nat) returns (splits: nat)
      requires Agrees(manifold, g) && Traceable(g) && y < |g|
      modifies manifold
      ensures Agrees(manifold, SweepRow(g, y, Width(g)).0)
      ensures splits == SweepRow(g, y, Width(g)).1
    {
      ghost var current := g;
      splits := 0;
      assert Width(g) == manifold.Length1 by {
        assert |g[0]| == manifold.Length1;
      }
      for x := 0 to manifold.Length1
        invariant Agrees(manifold, current)
        invariant SweepRow(g, y, x).0 == current && SweepRow(g, y, x).1 == splits
      {
        SweepRowNext(g, y, x);
        var split := VisitCell(manifold, current, y, x);
        current := Visit(current, y, x).0;
        splits := splits + split;
      }
    }

    /**
     * The back-trace from column x, starting at row startY, with the cache, in the array that
     * holds the grid g: a cached result is returned as it is, and the result of every
     * recursive back-trace is cached. The result is the back-trace without a cache, and
     * entries once cached keep their value.
     */
    method BackTraceBeam(manifold: array2<char>, ghost g: Grid, x: nat, startY: int) returns (timelines: nat)
      requires Agrees(manifold, g) && x < Width(g) && -1 <= startY < |g|
      requires Memoises(timelineCache, g)
      modifies this
      ensures Memoises(timelineCache, g)
      ensures timelines == BackTrace(g, x, startY)
      ensures Extends(old(timelineCache), timelineCache)
      decreases startY + 1, 1
    {
      if (x, startY) in timelineCache {
        return timelineCache[(x, startY)];
      }
      assert Width(g) == manifold.Length1 by {
        assert |g[0]| == manifold.Length1;
      }
      timelines := 0;
      var y := startY;
      while y >= 0
        invariant -1 <= y <= startY
        invariant Memoises(timelineCache, g)
        invariant Walk(g, x, y, timelines) == BackTrace(g, x, startY)
        invariant Extends(old(timelineCache), timelineCache)
        decreases y + 1
      {
        if manifold[y, x] == SOURCE {
          return 1;
        }
        if manifold[y, x] == SPLITTER || manifold[y, x] == EMPTY {
          return timelines;
        }
        // Every cell is one of the four kinds, so this one holds a beam.
        assert g[y][x] == BEAM by {
          assert IsCell(g[y][x]);
        }
        WalkPastBeam(g, x, y, timelines);
        ghost var left := if x >= 1 && g[y][x - 1] == SPLITTER then BackTrace(g, x - 1, y - 1) else 0;
        ghost var right := if x + 1 < Width(g) && g[y][x + 1] == SPLITTER then BackTrace(g, x + 1, y - 1) else 0;
        ghost var found := timelines;
        if x >= 1 && manifold[y, x - 1] == SPLITTER {
          var timelinesFound := TraceSplitter(manifold, g, x - 1, y);
          timelines := timelines + timelinesFound;
        }
        if x + 1 < manifold.Length1 && manifold[y, x + 1] == SPLITTER {
          var timelinesFound := TraceSplitter(manifold, g, x + 1, y);
          timelines := timelines + timelinesFound;
        }
        assert timelines == found + left + right;
        y := y - 1;
      }
    }

    /**
     * The back-trace from the cell above the splitter at (y, x), which the beam beside it
     * would have split off: its result is cached under that cell's coordinate.
     */
    method TraceSplitter(manifold: array2<char>, ghost g: Grid, x: nat, y: nat) returns (timelinesFound: nat)
      requires Agrees(manifold, g) && x < Width(g) && y < |g|
      requires Memoises(timelineCache, g)
      modifies this
      ensures Memoises(timelineCache, g)
      ensures timelinesFound == BackTrace(g, x, y - 1)
      ensures Extends(old(timelineCache), timelineCache)
      decreases y + 1, 0
    {
      timelinesFound := BackTraceBeam(manifold, g, x, y - 1);
      MemoisePut(timelineCache, g, x, y - 1, timelinesFound);
      timelineCache := timelineCache[(x, y - 1) := timelinesFound];
    }

    /**
     * Part two: traces the beam in place, then adds up the back-traces from every column of
     * the bottom row. A grid without rows has no first row to measure.
     */
    method SolvePartTwo(manifold: array2<char>) returns (r: Result<nat>)
      requires Traceable(Cells(manifold)) && Charted(Cells(manifold))
      requires Memoises(timelineCache, Traced(Cells(manifold)).0)
      modifies this, manifold
      ensures r == PartTwo(old(Cells(manifold)))
    {
      ghost var start := Cells(manifold);
      var _ := TraceTachyonBeam(manifold);
      if manifold.Length0 == 0 {
        return Err(IndexOutOfBounds);
      }
      ghost var g := Cells(manifold);
      assert Width(g) == manifold.Length1 by {
        assert |g[0]| == manifold.Length1;
      }
      var timelines := 0;
      for x := 0 to manifold.Length1
        invariant Agrees(manifold, g)
        invariant Memoises(timelineCache, g)
        invariant timelines == Timelines(g, x)
      {
        var timelinesFromBeam := BackTraceBeam(manifold, g, x, manifold.Length0 - 1);
        timelines := timelines + timelinesFromBeam;
      }
      return Ok(timelines);
    }

    /** One pass of the inner loop of the forward trace: the visit of cell (y, x). */
    method VisitCell(manifold: array2<char>, ghost g: Grid, y: nat, x: nat) returns (split: nat)
      requires Agrees(manifold, g) && Traceable(g) && y < |g| && x < Width(g)
      modifies manifold
      ensures Agrees(manifold, Visit(g, y, x).0)
      ensures split == Visit(g, y, x).1
    {
      WritesInside(g, y, x);
      split := 0;
      if manifold[y, x] == SOURCE {
        manifold[y + 1, x] := BEAM;
        AgreesMark(manifold, g, y + 1, x);
      } else if manifold[y, x] == BEAM && y != manifold.Length0 - 1 {
        if manifold[y + 1, x] == SPLITTER {
          manifold[y + 1, x - 1] := BEAM;
          AgreesMark(manifold, g, y + 1, x - 1);
          ghost var h := Mark(g, y + 1, x - 1);
          manifold[y + 1, x + 1] := BEAM;
          AgreesMark(manifold, h, y + 1, x + 1);
          split := 1;
        } else {
          manifold[y + 1, x] := BEAM;
          AgreesMark(manifold, g, y + 1, x);
        }
      }
    }
  }
}
