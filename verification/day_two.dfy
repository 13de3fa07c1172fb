/**
 * Day two: the input is a comma-separated list of id ranges "begin-end". An id is
 * invalid in part one when its decimal form is some digit block written twice, and in
 * part two when it is some digit block written two or more times. Each part sums the
 * invalid ids of all ranges.
 */
module DayTwo {
  import opened Common
  import opened JavaText

  // ---------------------------------------------------------------------------
  // Repeated blocks

  /** `block` written `m` times in a row. */
  function Copies(block: string, m: nat): (r: string)
    ensures |r| == |block| * m
  {
    if m == 0 then [] else Copies(block, m - 1) + block
  }

  lemma CopiesTwo(block: string)
    ensures Copies(block, 2) == block + block
  {
    assert Copies(block, 1) == block;
  }

  /** Part one's notion of an invalid id: some block written twice. */
  ghost predicate Doubled(s: string)
  {
    exists block :: s == Copies(block, 2)
  }

  /** `s` is `m` copies of one non-empty block. */
  ghost predicate RepeatedBlock(s: string, m: nat)
  {
    exists block :: block != [] && s == Copies(block, m)
  }

  /** Part two's notion of an invalid id: some non-empty block written at least twice. */
  ghost predicate RepeatedAtLeastTwice(s: string)
  {
    exists m :: 2 <= m && RepeatedBlock(s, m)
  }

  lemma MulMonotone(a: nat, j: nat, k: nat)
    requires j <= k
    ensures a * j <= a * k
  {
  }

  lemma IndexBound(size: nat, m: nat, j: nat, i: nat)
    requires j < m && i < size
    ensures size * j + i < size * m
  {
    MulMonotone(size, j + 1, m);
  }

  lemma DivUnique(x: int, m: int, q: int, r: int)
    requires m > 0 && 0 <= r < m && x == m * q + r
    ensures x / m == q && x % m == r
  {
    var q', r' := x / m, x % m;
    assert m * q + r == m * q' + r';
    if q' < q {
      assert m * q - m * q' == m * (q - q');
      MulMonotone(m, 1, q - q');
    } else if q < q' {
      assert m * q' - m * q == m * (q' - q);
      MulMonotone(m, 1, q' - q);
    }
  }

  /** The j-th copy's i-th character is the block's i-th character. */
  lemma {:induction false} CopiesIndex(block: string, m: nat, j: nat, i: nat)
    requires j < m && i < |block|
    ensures |block| * j + i < |block| * m
    ensures Copies(block, m)[|block| * j + i] == block[i]
  {
    IndexBound(|block|, m, j, i);
    if j < m - 1 {
      CopiesIndex(block, m - 1, j, i);
    } else {
      assert |Copies(block, m - 1)| == |block| * j;
    }
  }

  /** Character i of block j agrees with character i of the first block. */
  predicate SameAsFirstBlock(s: string, size: nat, j: nat, i: nat)
  {
    size * j + i < |s| && s[size * j + i] == s[i]
  }

  /** What `m` copies of a block look like from the outside. */
  lemma RepeatedBlockShape(s: string, m: nat)
    requires m >= 1 && RepeatedBlock(s, m)
    ensures m <= |s| && |s| % m == 0
    ensures forall i, j :: 0 <= i < |s| / m && 0 <= j < m ==> SameAsFirstBlock(s, |s| / m, j, i)
  {
    var block :| block != [] && s == Copies(block, m);
    var size := |block|;
    MulMonotone(m, 1, size);
    DivUnique(|s|, m, size, 0);
    forall i, j | 0 <= i < size && 0 <= j < m
      ensures SameAsFirstBlock(s, size, j, i)
    {
      CopiesIndex(block, m, j, i);
      CopiesIndex(block, m, 0, i);
    }
  }

  /** Position k of m blocks of `size` lies in block k / size, at offset k % size. */
  lemma BlockOf(k: nat, size: nat, m: nat)
    requires 1 <= size && k < size * m
    ensures k / size < m && k % size < size && k == size * (k / size) + k % size
  {
    if k / size >= m {
      MulMonotone(size, m, k / size);
    }
  }

  /** When every block agrees with the first, `s` is `m` copies of its first block. */
  lemma FromFirstBlock(s: string, size: nat, m: nat)
    requires 1 <= size && 1 <= m && |s| == size * m
    requires forall i, j :: 0 <= i < size && 0 <= j < m ==> SameAsFirstBlock(s, size, j, i)
    ensures s == Copies(s[..size], m)
  {
    MulMonotone(size, 1, m);
    var c := Copies(s[..size], m);
    forall k | 0 <= k < |s|
      ensures s[k] == c[k]
    {
      var j, i := k / size, k % size;
      BlockOf(k, size, m);
      assert SameAsFirstBlock(s, size, j, i);
      CopiesIndex(s[..size], m, j, i);
    }
  }

  /** Part one's invalid ids are part two's invalid ids with exactly two copies. */
  lemma DoubledIsRepeated(s: string)
    requires s != []
    ensures Doubled(s) <==> RepeatedBlock(s, 2)
    ensures Doubled(s) ==> RepeatedAtLeastTwice(s)
  {
    if Doubled(s) {
      var block :| s == Copies(block, 2);
      assert block != [];
    }
  }

  // ---------------------------------------------------------------------------
  // The two checks

  lemma DoubledHalves(s: string)
    ensures Doubled(s) ==> |s| % 2 == 0 && s[..|s| / 2] == s[|s| / 2..]
  {
    if Doubled(s) {
      var block :| s == Copies(block, 2);
      CopiesTwo(block);
      assert s[..|block|] == block && s[|block|..] == block;
    }
  }

  /** `isInvalid`: an even-length id whose halves are equal. */
  method IsInvalid(idAsString: string) returns (invalid: bool)
    ensures invalid <==> Doubled(idAsString)
  {
    var s := idAsString;
    DoubledHalves(s);
    if |s| % 2 != 0 {
      return false;
    }
    var halfLength := |s| / 2;
    for i := 0 to halfLength
      invariant forall k :: 0 <= k < i ==> s[k] == s[halfLength + k]
    {
      if s[i] != s[halfLength + i] {
        return false;
      }
    }
    assert s == s[..halfLength] + s[..halfLength];
    CopiesTwo(s[..halfLength]);
    return true;
  }

  /**
   * The nested loops of `isInvalidTwo`: every block of `size` characters agrees with the
   * first one, for `m` blocks.
   */
  method BlocksAgree(s: string, size: nat, m: nat) returns (agree: bool)
    requires m >= 1 && |s| == size * m
    ensures agree <==> forall i, j :: 0 <= i < size && 0 <= j < m ==> SameAsFirstBlock(s, size, j, i)
  {
    for i := 0 to size
      invariant forall i', j' :: 0 <= i' < i && 0 <= j' < m ==> SameAsFirstBlock(s, size, j', i')
    {
      IndexBound(size, m, 0, i);
      assert SameAsFirstBlock(s, size, 0, i);
      for j := 1 to m
        invariant forall j' :: 0 <= j' < j ==> SameAsFirstBlock(s, size, j', i)
      {
        IndexBound(size, m, j, i);
        if s[i] != s[size * j + i] {
          assert !SameAsFirstBlock(s, size, j, i);
          return false;
        }
      }
    }
    return true;
  }

  /**
   * `isInvalidTwo`: tries every number of copies from `splitSize` up to the id's length
   * and reports whether one of them splits the id into equal blocks.
   */
  method IsInvalidTwo(idAsString: string, splitSize: nat) returns (invalid: bool)
    requires splitSize >= 1
    ensures invalid <==> exists m :: splitSize <= m && RepeatedBlock(idAsString, m)
    decreases |idAsString| + 1 - splitSize
  {
    var s := idAsString;
    if splitSize > |s| {
      forall m | splitSize <= m
        ensures !RepeatedBlock(s, m)
      {
        if RepeatedBlock(s, m) {
          RepeatedBlockShape(s, m);
        }
      }
      return false;
    }
    if |s| % splitSize != 0 {
      if RepeatedBlock(s, splitSize) {
        RepeatedBlockShape(s, splitSize);
      }
      invalid := IsInvalidTwo(s, splitSize + 1);
      return;
    }
    var splitLength := |s| / splitSize;
    DivUnique(|s|, splitSize, splitLength, 0);
    var agree := BlocksAgree(s, splitLength, splitSize);
    if !agree {
      if RepeatedBlock(s, splitSize) {
        RepeatedBlockShape(s, splitSize);
      }
      invalid := IsInvalidTwo(s, splitSize + 1);
      return;
    }
    FromFirstBlock(s, splitLength, splitSize);
    assert RepeatedBlock(s, splitSize);
    return true;
  }

  // ---------------------------------------------------------------------------
  // The invalid ids of one range

  datatype Part = One | Two

  ghost predicate IsInvalidId(part: Part, id: nat)
  {
    match part
    case One => Doubled(Decimal(id))
    case Two => RepeatedAtLeastTwice(Decimal(id))
  }

  /** The invalid ids from `begin` to `end`, in ascending order. */
  ghost function InvalidIds(part: Part, begin: nat, end: int): seq<nat>
    decreases end - begin
  {
    if end < begin then []
    else InvalidIds(part, begin, end - 1) + (if IsInvalidId(part, end) then [end] else [])
  }

  /** The list holds every invalid id of the range and nothing else. */
  lemma {:induction false} InvalidIdsMembers(part: Part, begin: nat, end: int)
    ensures forall x :: x in InvalidIds(part, begin, end) <==> begin <= x <= end && IsInvalidId(part, x)
  {
    if end >= begin {
      InvalidIdsMembers(part, begin, end - 1);
    }
  }

  /** The list is strictly ascending, so it holds each invalid id once. */
  lemma {:induction false} InvalidIdsAscending(part: Part, begin: nat, end: int)
    ensures forall i, j :: 0 <= i < j < |InvalidIds(part, begin, end)| ==>
      InvalidIds(part, begin, end)[i] < InvalidIds(part, begin, end)[j]
  {
    if end >= begin {
      var prev, ids := InvalidIds(part, begin, end - 1), InvalidIds(part, begin, end);
      InvalidIdsAscending(part, begin, end - 1);
      InvalidIdsMembers(part, begin, end - 1);
      forall i, j | 0 <= i < j < |ids|
        ensures ids[i] < ids[j]
      {
        if j >= |prev| {
          assert ids[i] == prev[i] && prev[i] in prev;
        }
      }
    }
  }

  /** Every id that is invalid in part one is invalid in part two, so part two's sum is larger. */
  lemma {:induction false} PartTwoSumsMore(begin: nat, end: int)
    ensures Sum(InvalidIds(One, begin, end)) <= Sum(InvalidIds(Two, begin, end))
  {
    if end >= begin {
      PartTwoSumsMore(begin, end - 1);
      DoubledIsRepeated(Decimal(end));
      SumAppend(InvalidIds(One, begin, end - 1), if IsInvalidId(One, end) then [end] else []);
      SumAppend(InvalidIds(Two, begin, end - 1), if IsInvalidId(Two, end) then [end] else []);
    }
  }

  /** `findInvalidIds`: the ids of the range that part one calls invalid. */
  method FindInvalidIds(begin: nat, end: nat) returns (invalidIds: seq<nat>)
    ensures invalidIds == InvalidIds(One, begin, end)
  {
    invalidIds := [];
    var id := begin;
    while id <= end
      invariant begin <= id <= end + 1 || (end < begin && id == begin)
      invariant invalidIds == InvalidIds(One, begin, id - 1)
    {
      var idAsString := Decimal(id);
      var invalid := IsInvalid(idAsString);
      if invalid {
        invalidIds := invalidIds + [id];
      }
      id := id + 1;
    }
  }

  /** `findInvalidIdsTwo`: the ids of the range that part two calls invalid. */
  method FindInvalidIdsTwo(begin: nat, end: nat) returns (invalidIds: seq<nat>)
    ensures invalidIds == InvalidIds(Two, begin, end)
  {
    invalidIds := [];
    var id := begin;
    while id <= end
      invariant begin <= id <= end + 1 || (end < begin && id == begin)
      invariant invalidIds == InvalidIds(Two, begin, id - 1)
    {
      var idAsString := Decimal(id);
      var invalid := IsInvalidTwo(idAsString, 2);
      if invalid {
        invalidIds := invalidIds + [id];
      }
      id := id + 1;
    }
  }

  // ---------------------------------------------------------------------------
  // Parsing and the answers

  /** The sum of the invalid ids of every range. */
  ghost function Total(part: Part, ranges: seq<(nat, nat)>): int
  {
    if ranges == [] then 0
    else
      var last := ranges[|ranges| - 1];
      Total(part, ranges[..|ranges| - 1]) + Sum(InvalidIds(part, last.0, last.1))
  }

  lemma {:induction false} PartTwoTotalMore(ranges: seq<(nat, nat)>)
    ensures Total(One, ranges) <= Total(Two, ranges)
  {
    if ranges != [] {
      PartTwoTotalMore(ranges[..|ranges| - 1]);
      var last := ranges[|ranges| - 1];
      PartTwoSumsMore(last.0, last.1);
    }
  }

  /** The answer to a part: the total over all ranges, or the failure the Java code ends with. */
  ghost function Answer(part: Part, input: string): Result<int>
  {
    match ParseRanges(SplitOn(input, {','}))
    case None => Err(MalformedInput)
    case Some(ranges) => Ok(Total(part, ranges))
  }

  /** Part two's answer is at least part one's, and both fail on the same inputs. */
  lemma PartTwoAnswerMore(input: string)
    ensures Answer(One, input).Ok? <==> Answer(Two, input).Ok?
    ensures Answer(One, input).Ok? ==> Answer(One, input).value <= Answer(Two, input).value
  {
    match ParseRanges(SplitOn(input, {','}))
    case None =>
    case Some(ranges) => PartTwoTotalMore(ranges);
  }

  lemma TotalStep(part: Part, ranges: seq<(nat, nat)>, range: (nat, nat))
    ensures Total(part, ranges + [range]) == Total(part, ranges) + Sum(InvalidIds(part, range.0, range.1))
  {
    assert (ranges + [range])[..|ranges|] == ranges;
  }

  /** Adds up a list of ids, as the inner `for` loop of both solvers does. */
  method AddAll(total: int, ids: seq<nat>) returns (r: int)
    ensures r == total + Sum(ids)
  {
    r := total;
    for k := 0 to |ids|
      invariant r == total + Sum(ids[..k])
    {
      assert ids[..k + 1][..k] == ids[..k];
      r := r + ids[k];
    }
    assert ids[..|ids|] == ids;
  }

  /** `solvePartOne` and `solvePartTwo`: they differ only in the check they apply. */
  method Solve(part: Part, inputString: string) returns (r: Result<int>)
    ensures r == Answer(part, inputString)
  {
    var idRanges := SplitOn(inputString, {','});
    ghost var ranges: seq<(nat, nat)> := [];
    var allInvalidIds := 0;
    var i := 0;
    while i < |idRanges|
      invariant 0 <= i <= |idRanges|
      invariant ParseRanges(idRanges[..i]) == Some(ranges)
      invariant allInvalidIds == Total(part, ranges)
    {
      var range := ParseRange(idRanges[i]);
      ParseRangesStep(idRanges, i, ranges);
      if range.None? {
        return Err(MalformedInput);
      }
      var begin, end := range.value.0, range.value.1;
      var invalidIds;
      if part == One {
        invalidIds := FindInvalidIds(begin, end);
      } else {
        invalidIds := FindInvalidIdsTwo(begin, end);
      }
      allInvalidIds := AddAll(allInvalidIds, invalidIds);
      TotalStep(part, ranges, range.value);
      ranges := ranges + [range.value];
      i := i + 1;
    }
    assert idRanges[..i] == idRanges;
    return Ok(allInvalidIds);
  }
}
