/**
 * Day one: a dial numbered 0..99 starts at 50 and is turned by a list of rotations
 * such as "L68" (68 clicks towards lower numbers) or "R48" (48 clicks towards higher
 * numbers). Part one counts the rotations that leave the dial at 0; part two counts
 * every click that passes or lands on 0.
 */
module DayOne {
  import opened Common
  import opened JavaText

  /**
   * The signed turn of one rotation line, read as the code reads it: `charAt(0)` throws on an
   * empty line; an 'L' line parses "-" followed by the rest with `Integer.parseInt`, any other
   * line parses the rest, and `parseInt` throws on anything but a signed digit string in range.
   */
  function Adjustment(line: string): (r: Result<int>)
    ensures r.Ok? ==> IsInt(r.value)
    ensures r.Err? ==> r.failure == if line == [] then IndexOutOfBounds else MalformedInput
    ensures |line| >= 2 && IsDigits(line[1..]) && ParseNat(line[1..]) <= INT_MAX ==>
      r == Ok(if line[0] == 'L' then -(ParseNat(line[1..]) as int) else ParseNat(line[1..]))
  {
    if line == [] then Err(IndexOutOfBounds)
    else
      var parsed := if line[0] == 'L' then ParseInt(['-'] + line[1..]) else ParseInt(line[1..]);
      if parsed.None? then Err(MalformedInput) else Ok(parsed.value)
  }

  /** Each line read on its own. */
  function Reads(lines: seq<string>): (parsed: seq<Result<int>>)
    ensures |parsed| == |lines|
    ensures forall i :: 0 <= i < |lines| ==> parsed[i] == Adjustment(lines[i])
  {
    seq(|lines|, i requires 0 <= i < |lines| => Adjustment(lines[i]))
  }

  /** The turns read in order; the first read that failed ends the reading with its failure. */
  function Collect(parsed: seq<Result<int>>): Result<seq<int>>
  {
    if parsed == [] then Ok([])
    else
      match Collect(parsed[..|parsed| - 1])
      case Err(failure) => Err(failure)
      case Ok(deltas) =>
        match parsed[|parsed| - 1]
        case Err(failure) => Err(failure)
        case Ok(delta) => Ok(deltas + [delta])
  }

  /** The turns of the rotation lines, or the failure of the first line that throws. */
  function Adjustments(lines: seq<string>): Result<seq<int>>
  {
    Collect(Reads(lines))
  }

  /** Collecting succeeds exactly when every read did, and then keeps one turn per read, in order. */
  lemma {:induction false} CollectOk(parsed: seq<Result<int>>)
    ensures Collect(parsed).Ok? <==> forall i :: 0 <= i < |parsed| ==> parsed[i].Ok?
    ensures Collect(parsed).Ok? ==>
      |Collect(parsed).value| == |parsed| && forall i :: 0 <= i < |parsed| ==> parsed[i] == Ok(Collect(parsed).value[i])
  {
    if parsed != [] {
      CollectOk(parsed[..|parsed| - 1]);
    }
  }

  /** A failed collection fails as the first read that failed. */
  lemma {:induction false} CollectErr(parsed: seq<Result<int>>)
    ensures Collect(parsed).Err? ==>
      exists i :: 0 <= i < |parsed| && parsed[i] == Err(Collect(parsed).failure) && forall j :: 0 <= j < i ==> parsed[j].Ok?
  {
    if parsed != [] {
      var front := parsed[..|parsed| - 1];
      CollectErr(front);
      CollectOk(front);
      if Collect(front).Err? {
        var i :| 0 <= i < |front| && front[i] == Err(Collect(front).failure) && forall j :: 0 <= j < i ==> front[j].Ok?;
        assert parsed[i] == front[i];
      }
    }
  }

  /**
   * Reading the lines succeeds exactly when every line parsed, and then gives one turn per
   * line, in order; otherwise it fails as the first line that throws.
   */
  lemma AdjustmentsSpec(lines: seq<string>)
    ensures Adjustments(lines).Ok? <==> forall i :: 0 <= i < |lines| ==> Adjustment(lines[i]).Ok?
    ensures Adjustments(lines).Ok? ==>
      |Adjustments(lines).value| == |lines| &&
      forall i :: 0 <= i < |lines| ==> Adjustment(lines[i]) == Ok(Adjustments(lines).value[i])
    ensures Adjustments(lines).Err? ==>
      exists i :: 0 <= i < |lines| && Adjustment(lines[i]) == Err(Adjustments(lines).failure) &&
        forall j :: 0 <= j < i ==> Adjustment(lines[j]).Ok?
  {
    CollectOk(Reads(lines));
    CollectErr(Reads(lines));
  }

  /** Once a prefix of the parsed fails, the whole collection fails the same way. */
  lemma {:induction false} CollectPrefixFails(parsed: seq<Result<int>>, i: nat)
    requires i <= |parsed| && Collect(parsed[..i]).Err?
    ensures Collect(parsed) == Collect(parsed[..i])
  {
    if i < |parsed| {
      assert parsed[..|parsed| - 1][..i] == parsed[..i];
      CollectPrefixFails(parsed[..|parsed| - 1], i);
    } else {
      assert parsed[..i] == parsed;
    }
  }

  /** One more read: its turn appended, or its failure for the whole input. */
  lemma CollectStep(parsed: seq<Result<int>>, i: nat, deltas: seq<int>)
    requires i < |parsed| && Collect(parsed[..i]) == Ok(deltas)
    ensures parsed[i].Err? ==> Collect(parsed) == Err(parsed[i].failure)
    ensures parsed[i].Ok? ==> Collect(parsed[..i + 1]) == Ok(deltas + [parsed[i].value])
  {
    assert parsed[..i + 1][..i] == parsed[..i];
    if parsed[i].Err? {
      CollectPrefixFails(parsed, i + 1);
    }
  }

  // ---------------------------------------------------------------------------
  // Part one

  /**
   * The number of rotations after which the dial shows 0: prefixes of the turns whose sum,
   * added to the start position 50, is a multiple of 100.
   */
  function ZeroLandings(deltas: seq<int>): nat
  {
    if deltas == [] then 0
    else ZeroLandings(deltas[..|deltas| - 1]) + (if (50 + Sum(deltas)) % 100 == 0 then 1 else 0)
  }

  /** Part one on the lines: the zero landings of their turns, or the failure of a line. */
  function PartOne(rotations: seq<string>): Result<nat>
  {
    match Adjustments(rotations)
    case Err(failure) => Err(failure)
    case Ok(deltas) => Ok(ZeroLandings(deltas))
  }

  /** `solvePartOne`: the number of rotations after which the dial shows 0. */
  method SolvePartOne(rotations: seq<string>) returns (r: Result<nat>)
    ensures r == PartOne(rotations)
  {
    var currentPosition := 50;
    var timesAtZero := 0;
    ghost var parsed := Reads(rotations);
    ghost var deltas: seq<int> := [];
    var i := 0;
    while i < |rotations|
      invariant 0 <= i <= |rotations|
      invariant Collect(parsed[..i]) == Ok(deltas)
      invariant currentPosition == 50 + Sum(deltas)
      invariant timesAtZero == ZeroLandings(deltas)
    {
      var adjustment := Adjustment(rotations[i]);
      CollectStep(parsed, i, deltas);
      if adjustment.Err? {
        return Err(adjustment.failure);
      }
      var rotationAdjustment := adjustment.value;
      currentPosition := currentPosition + rotationAdjustment;
      ghost var before := deltas;
      deltas := before + [rotationAdjustment];
      assert deltas[..|deltas| - 1] == before;
      // Java's `%` truncates towards zero, but a remainder of 0 means the same either way.
      if currentPosition % 100 == 0 {
        timesAtZero := timesAtZero + 1;
      }
      i := i + 1;
    }
    assert parsed[..i] == parsed;
    r := Ok(timesAtZero);
  }

  /** The zero counter never decreases: a longer list of rotations counts at least as many zeroes. */
  lemma {:induction false} ZeroLandingsMonotone(deltas: seq<int>, k: nat)
    requires k <= |deltas|
    ensures ZeroLandings(deltas[..k]) <= ZeroLandings(deltas)
  {
    if k < |deltas| {
      assert deltas[..|deltas| - 1][..k] == deltas[..k];
      ZeroLandingsMonotone(deltas[..|deltas| - 1], k);
    } else {
      assert deltas[..k] == deltas;
    }
  }

  // ---------------------------------------------------------------------------
  // Part two

  /** The state after one rotation in part two: clicks on 0 counted, and the dial's new position. */
  datatype Turn = Turn(clicks: nat, position: int)

  function Abs(x: int): nat { if x < 0 then -x else x }

  /**
   * One rotation of `solvePartTwo`: `Math.floorDiv` and `Math.floorMod` by 100 are Dafny's `/`
   * and `%` by 100; the source's `current % 100 == 0` tests divisibility, which does not depend
   * on how the remainder is rounded.
   */
  function Rotate(previous: int, delta: int): (t: Turn)
    requires 0 <= previous < 100
    ensures 0 <= t.position < 100
    ensures t.position == (previous + delta) % 100
  {
    var current := previous + delta;
    var fullSpins := Abs(current / 100);
    var isBoundaryIssue := current < 0 && current % 100 == 0;
    var spins := if fullSpins > 0 && previous == 0 && delta < 0 then fullSpins - 1 else fullSpins;
    var next := current % 100;
    Turn(spins + (if (spins == 0 || isBoundaryIssue) && next == 0 then 1 else 0), next)
  }

  /**
   * Reference count: the number of k in 1..n for which the k-th click from `p` (upwards when
   * `right`, downwards otherwise) is a multiple of 100.
   */
  function ZeroClicks(p: int, n: nat, right: bool): nat
  {
    if n == 0 then 0
    else ZeroClicks(p, n - 1, right) + (if (if right then p + n else p - n) % 100 == 0 then 1 else 0)
  }

  lemma DivStep(m: int)
    ensures m / 100 == (m - 1) / 100 + (if m % 100 == 0 then 1 else 0)
  {
    var q, r := m / 100, m % 100;
    assert m == 100 * q + r && 0 <= r < 100;
    if r == 0 {
      assert m - 1 == 100 * (q - 1) + 99;
    } else {
      assert m - 1 == 100 * q + (r - 1);
    }
  }

  lemma {:induction false} RightClicks(p: int, n: nat)
    ensures ZeroClicks(p, n, true) == (p + n) / 100 - p / 100
  {
    if n > 0 {
      RightClicks(p, n - 1);
      DivStep(p + n);
    }
  }

  lemma {:induction false} LeftClicks(p: int, n: nat)
    ensures ZeroClicks(p, n, false) == (p - 1) / 100 - (p - n - 1) / 100
  {
    if n > 0 {
      LeftClicks(p, n - 1);
      DivStep(p - n);
    }
  }

  /**
   * The heart of part two: for a rotation of at least one click from a dial position,
   * the code adds exactly the number of clicks that pass or land on 0.
   */
  lemma RotateCountsZeroClicks(p: int, delta: int)
    requires 0 <= p < 100 && delta != 0
    ensures Rotate(p, delta).clicks == ZeroClicks(p, Abs(delta), delta > 0)
  {
    var current := p + delta;
    if delta > 0 {
      RightClicks(p, delta);
      assert p / 100 == 0;
    } else {
      LeftClicks(p, -delta);
      DivStep(current);
      if p == 0 {
        assert (p - 1) / 100 == -1;
      } else {
        assert (p - 1) / 100 == 0;
      }
    }
  }

  /** A left rotation that starts at 0 and is shorter than a full turn passes no 0. */
  lemma LeftFromZeroShort(n: int)
    requires 1 <= n < 100
    ensures Rotate(0, -n).clicks == 0
    ensures ZeroClicks(0, n, false) == 0
  {
    RotateCountsZeroClicks(0, -n);
  }

  /** A rotation of zero clicks at 0 is counted once, although no click happens. */
  lemma ZeroRotationAtZero()
    ensures Rotate(0, 0).clicks == 1
    ensures ZeroClicks(0, 0, true) == 0
  {
  }

  /** Part two's counter and dial position after a list of rotations, starting at 50. */
  function PartTwoState(deltas: seq<int>): (t: Turn)
    ensures 0 <= t.position < 100
  {
    if deltas == [] then Turn(0, 50)
    else
      var before := PartTwoState(deltas[..|deltas| - 1]);
      var turn := Rotate(before.position, deltas[|deltas| - 1]);
      Turn(before.clicks + turn.clicks, turn.position)
  }

  /** The reference total: every click on 0, rotation by rotation. */
  function TotalZeroClicks(deltas: seq<int>): nat
  {
    if deltas == [] then 0
    else
      var before := PartTwoState(deltas[..|deltas| - 1]);
      var last := deltas[|deltas| - 1];
      TotalZeroClicks(deltas[..|deltas| - 1]) + ZeroClicks(before.position, Abs(last), last > 0)
  }

  /** When no rotation is of zero clicks, part two counts exactly the clicks that reach 0. */
  lemma {:induction false} PartTwoCountsZeroClicks(deltas: seq<int>)
    requires forall i :: 0 <= i < |deltas| ==> deltas[i] != 0
    ensures PartTwoState(deltas).clicks == TotalZeroClicks(deltas)
  {
    if deltas != [] {
      var init := deltas[..|deltas| - 1];
      PartTwoCountsZeroClicks(init);
      RotateCountsZeroClicks(PartTwoState(init).position, deltas[|deltas| - 1]);
    }
  }

  /** The dial is at 0 after a rotation exactly when its unreduced position is a multiple of 100. */
  lemma {:induction false} PartTwoPosition(deltas: seq<int>)
    ensures PartTwoState(deltas).position == (50 + Sum(deltas)) % 100
  {
    if deltas != [] {
      PartTwoPosition(deltas[..|deltas| - 1]);
      var s := Sum(deltas[..|deltas| - 1]);
      var last := deltas[|deltas| - 1];
      var q := (50 + s) / 100;
      assert 50 + s == 100 * q + (50 + s) % 100;
      assert 50 + s + last == 100 * q + ((50 + s) % 100 + last);
      ModShift(q, (50 + s) % 100 + last);
    }
  }

  lemma ModShift(q: int, r: int)
    ensures (100 * q + r) % 100 == r % 100
  {
    var a := r / 100;
    assert r == 100 * a + r % 100;
    assert 100 * q + r == 100 * (q + a) + r % 100;
  }

  /**
   * Every rotation that ends on 0 also ends with a click on 0, so when no rotation is of
   * zero clicks, part two's answer is at least part one's.
   */
  lemma {:induction false} LandingsAtMostZeroClicks(deltas: seq<int>)
    requires forall i :: 0 <= i < |deltas| ==> deltas[i] != 0
    ensures ZeroLandings(deltas) <= TotalZeroClicks(deltas) == PartTwoState(deltas).clicks
  {
    PartTwoCountsZeroClicks(deltas);
    if deltas != [] {
      var init, last := deltas[..|deltas| - 1], deltas[|deltas| - 1];
      LandingsAtMostZeroClicks(init);
      PartTwoPosition(init);
      var p := PartTwoState(init).position;
      var q := (50 + Sum(init)) / 100;
      assert 50 + Sum(deltas) == 100 * q + (p + last);
      ModShift(q, p + last);
    }
  }

  /** Part two on the lines: the counter after their turns, or the failure of a line. */
  function PartTwo(rotations: seq<string>): Result<nat>
  {
    match Adjustments(rotations)
    case Err(failure) => Err(failure)
    case Ok(deltas) => Ok(PartTwoState(deltas).clicks)
  }

  /** `solvePartTwo`: the number of clicks that pass or land on 0. */
  method SolvePartTwo(rotations: seq<string>) returns (r: Result<nat>)
    ensures r == PartTwo(rotations)
  {
    var currentPosition := 50;
    var previousPosition := currentPosition;
    var timesAtZero := 0;
    ghost var parsed := Reads(rotations);
    ghost var deltas: seq<int> := [];
    var i := 0;
    while i < |rotations|
      invariant 0 <= i <= |rotations|
      invariant Collect(parsed[..i]) == Ok(deltas)
      invariant previousPosition == PartTwoState(deltas).position
      invariant timesAtZero == PartTwoState(deltas).clicks
    {
      var adjustment := Adjustment(rotations[i]);
      CollectStep(parsed, i, deltas);
      if adjustment.Err? {
        return Err(adjustment.failure);
      }
      var rotationAdjustment := adjustment.value;
      ghost var turn := Rotate(previousPosition, rotationAdjustment);
      ghost var before := timesAtZero;
      currentPosition := previousPosition + rotationAdjustment;
      var fullSpins := Abs(currentPosition / 100);
      var isBoundaryIssue := currentPosition < 0 && currentPosition % 100 == 0;
      if fullSpins > 0 && previousPosition == 0 && rotationAdjustment < 0 {
        fullSpins := fullSpins - 1;
      }
      currentPosition := currentPosition % 100;
      timesAtZero := timesAtZero + fullSpins;
      if (fullSpins == 0 || isBoundaryIssue) && currentPosition == 0 {
        timesAtZero := timesAtZero + 1;
      }
      previousPosition := currentPosition;
      assert timesAtZero == before + turn.clicks && currentPosition == turn.position;
      ghost var read := deltas;
      deltas := read + [rotationAdjustment];
      assert deltas[..|deltas| - 1] == read;
      i := i + 1;
    }
    assert parsed[..i] == parsed;
    r := Ok(timesAtZero);
  }

  // ---------------------------------------------------------------------------
  // The examples of the unit test, as the turns their lines denote

  lemma LandingStep(prefix: seq<int>, d: int, next: seq<int>, total: int, landings: nat, after: nat)
    requires next == prefix + [d]
    requires Sum(prefix) == total && ZeroLandings(prefix) == landings
    requires after == landings + (if (50 + total + d) % 100 == 0 then 1 else 0)
    ensures Sum(next) == total + d && ZeroLandings(next) == after
  {
    assert next[..|prefix|] == prefix;
  }

  lemma TurnStep(prefix: seq<int>, d: int, next: seq<int>, before: Turn, after: Turn)
    requires next == prefix + [d]
    requires PartTwoState(prefix) == before && 0 <= before.position < 100
    requires after == Turn(before.clicks + Rotate(before.position, d).clicks, Rotate(before.position, d).position)
    ensures PartTwoState(next) == after
  {
    assert next[..|prefix|] == prefix;
  }

  /** The first example: L68 L30 R48 R301 L401 L5 R60 L55 L1 L99 R14 L82 lands on 0 four times. */
  lemma ExamplePartOne()
    ensures ZeroLandings([-68, -30, 48, 301, -401, -5, 60, -55, -1, -99, 14, -82]) == 4
  {
    LandingStep([], -68, [-68], 0, 0, 0);
    LandingStep([-68], -30, [-68, -30], -68, 0, 0);
    LandingStep([-68, -30], 48, [-68, -30, 48], -98, 0, 1);
    LandingStep([-68, -30, 48], 301, [-68, -30, 48, 301], -50, 1, 1);
    LandingStep([-68, -30, 48, 301], -401, [-68, -30, 48, 301, -401], 251, 1, 2);
    LandingStep([-68, -30, 48, 301, -401], -5, [-68, -30, 48, 301, -401, -5], -150, 2, 2);
    LandingStep([-68, -30, 48, 301, -401, -5], 60, [-68, -30, 48, 301, -401, -5, 60], -155, 2, 2);
    LandingStep([-68, -30, 48, 301, -401, -5, 60], -55, [-68, -30, 48, 301, -401, -5, 60, -55], -95, 2, 3);
    LandingStep([-68, -30, 48, 301, -401, -5, 60, -55], -1, [-68, -30, 48, 301, -401, -5, 60, -55, -1], -150, 3, 3);
    LandingStep([-68, -30, 48, 301, -401, -5, 60, -55, -1], -99, [-68, -30, 48, 301, -401, -5, 60, -55, -1, -99], -151, 3, 4);
    LandingStep([-68, -30, 48, 301, -401, -5, 60, -55, -1, -99], 14, [-68, -30, 48, 301, -401, -5, 60, -55, -1, -99, 14], -250, 4, 4);
    LandingStep([-68, -30, 48, 301, -401, -5, 60, -55, -1, -99, 14], -82, [-68, -30, 48, 301, -401, -5, 60, -55, -1, -99, 14, -82], -236, 4, 4);
  }

  /** The same rotations pass 0 fourteen times, counting every click. */
  lemma ExamplePartTwo()
    ensures PartTwoState([-68, -30, 48, 301, -401, -5, 60, -55, -1, -99, 14, -82]).clicks == 14
  {
    TurnStep([], -68, [-68], Turn(0, 50), Turn(1, 82));
    TurnStep([-68], -30, [-68, -30], Turn(1, 82), Turn(1, 52));
    TurnStep([-68, -30], 48, [-68, -30, 48], Turn(1, 52), Turn(2, 0));
    TurnStep([-68, -30, 48], 301, [-68, -30, 48, 301], Turn(2, 0), Turn(5, 1));
    TurnStep([-68, -30, 48, 301], -401, [-68, -30, 48, 301, -401], Turn(5, 1), Turn(10, 0));
    TurnStep([-68, -30, 48, 301, -401], -5, [-68, -30, 48, 301, -401, -5], Turn(10, 0), Turn(10, 95));
    TurnStep([-68, -30, 48, 301, -401, -5], 60, [-68, -30, 48, 301, -401, -5, 60], Turn(10, 95), Turn(11, 55));
    TurnStep([-68, -30, 48, 301, -401, -5, 60], -55, [-68, -30, 48, 301, -401, -5, 60, -55], Turn(11, 55), Turn(12, 0));
    TurnStep([-68, -30, 48, 301, -401, -5, 60, -55], -1, [-68, -30, 48, 301, -401, -5, 60, -55, -1], Turn(12, 0), Turn(12, 99));
    TurnStep([-68, -30, 48, 301, -401, -5, 60, -55, -1], -99, [-68, -30, 48, 301, -401, -5, 60, -55, -1, -99], Turn(12, 99), Turn(13, 0));
    TurnStep([-68, -30, 48, 301, -401, -5, 60, -55, -1, -99], 14, [-68, -30, 48, 301, -401, -5, 60, -55, -1, -99, 14], Turn(13, 0), Turn(13, 14));
    TurnStep([-68, -30, 48, 301, -401, -5, 60, -55, -1, -99, 14], -82, [-68, -30, 48, 301, -401, -5, 60, -55, -1, -99, 14, -82], Turn(13, 14), Turn(14, 32));
  }

  /** Without R301 and L401, six clicks land on 0. */
  lemma ExampleWithoutLongTurns()
    ensures PartTwoState([-68, -30, 48, -5, 60, -55, -1, -99, 14, -82]).clicks == 6
  {
    TurnStep([], -68, [-68], Turn(0, 50), Turn(1, 82));
    TurnStep([-68], -30, [-68, -30], Turn(1, 82), Turn(1, 52));
    TurnStep([-68, -30], 48, [-68, -30, 48], Turn(1, 52), Turn(2, 0));
    TurnStep([-68, -30, 48], -5, [-68, -30, 48, -5], Turn(2, 0), Turn(2, 95));
    TurnStep([-68, -30, 48, -5], 60, [-68, -30, 48, -5, 60], Turn(2, 95), Turn(3, 55));
    TurnStep([-68, -30, 48, -5, 60], -55, [-68, -30, 48, -5, 60, -55], Turn(3, 55), Turn(4, 0));
    TurnStep([-68, -30, 48, -5, 60, -55], -1, [-68, -30, 48, -5, 60, -55, -1], Turn(4, 0), Turn(4, 99));
    TurnStep([-68, -30, 48, -5, 60, -55, -1], -99, [-68, -30, 48, -5, 60, -55, -1, -99], Turn(4, 99), Turn(5, 0));
    TurnStep([-68, -30, 48, -5, 60, -55, -1, -99], 14, [-68, -30, 48, -5, 60, -55, -1, -99, 14], Turn(5, 0), Turn(5, 14));
    TurnStep([-68, -30, 48, -5, 60, -55, -1, -99, 14], -82, [-68, -30, 48, -5, 60, -55, -1, -99, 14, -82], Turn(5, 14), Turn(6, 32));
  }

  /** An exact full turn from 0 (R300 from 0) counts its three passes through 0 once each. */
  lemma ExampleWithFullTurn()
    ensures PartTwoState([-68, -30, 48, 300, -5, 60, -55, -1, -99, 14, -82]).clicks == 9
  {
    TurnStep([], -68, [-68], Turn(0, 50), Turn(1, 82));
    TurnStep([-68], -30, [-68, -30], Turn(1, 82), Turn(1, 52));
    TurnStep([-68, -30], 48, [-68, -30, 48], Turn(1, 52), Turn(2, 0));
    TurnStep([-68, -30, 48], 300, [-68, -30, 48, 300], Turn(2, 0), Turn(5, 0));
    TurnStep([-68, -30, 48, 300], -5, [-68, -30, 48, 300, -5], Turn(5, 0), Turn(5, 95));
    TurnStep([-68, -30, 48, 300, -5], 60, [-68, -30, 48, 300, -5, 60], Turn(5, 95), Turn(6, 55));
    TurnStep([-68, -30, 48, 300, -5, 60], -55, [-68, -30, 48, 300, -5, 60, -55], Turn(6, 55), Turn(7, 0));
    TurnStep([-68, -30, 48, 300, -5, 60, -55], -1, [-68, -30, 48, 300, -5, 60, -55, -1], Turn(7, 0), Turn(7, 99));
    TurnStep([-68, -30, 48, 300, -5, 60, -55, -1], -99, [-68, -30, 48, 300, -5, 60, -55, -1, -99], Turn(7, 99), Turn(8, 0));
    TurnStep([-68, -30, 48, 300, -5, 60, -55, -1, -99], 14, [-68, -30, 48, 300, -5, 60, -55, -1, -99, 14], Turn(8, 0), Turn(8, 14));
    TurnStep([-68, -30, 48, 300, -5, 60, -55, -1, -99, 14], -82, [-68, -30, 48, 300, -5, 60, -55, -1, -99, 14, -82], Turn(8, 14), Turn(9, 32));
  }

  /** L250 from 50 ends on 0 and counts three; L1 then R2 cross 0 once more. */
  lemma ExampleLongTurns()
    ensures PartTwoState([-250, -1, 2]).clicks == 4
  {
    TurnStep([], -250, [-250], Turn(0, 50), Turn(3, 0));
    TurnStep([-250], -1, [-250, -1], Turn(3, 0), Turn(3, 99));
    TurnStep([-250, -1], 2, [-250, -1, 2], Turn(3, 99), Turn(4, 1));
  }
}
