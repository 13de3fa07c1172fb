/**
 * Day five: a database of fresh ingredient id ranges "begin-end", a blank line, then one
 * ingredient id per line. Part one counts the ids that fall inside some range (bounds
 * included); part two stores the ranges while merging overlapping ones and adds up the
 * lengths of the stored ranges.
 */
module DayFive {
  import opened Common
  import opened JavaText

  // ---------------------------------------------------------------------------
  // The two sections of the database

  /** `database.indexOf("")`: the first blank line, or -1 when there is none. */
  function BlankLine(database: seq<string>): (i: int)
    ensures -1 <= i < |database|
    ensures i >= 0 ==> database[i] == ""
    ensures forall j :: 0 <= j < |database| && (i == -1 || j < i) ==> database[j] != ""
  {
    if database == [] then -1
    else if database[0] == "" then 0
    else
      var i := BlankLine(database[1..]);
      if i == -1 then -1 else i + 1
  }

  /** The lines both solvers index: those before the first blank line, or all of them. */
  function RangeLines(database: seq<string>): seq<string>
  {
    var blank := BlankLine(database);
    if blank == -1 then database else database[..blank]
  }

  /** The lines part one reads as ids: those after the first blank line, or all of them. */
  function IdLines(database: seq<string>): seq<string>
  {
    database[BlankLine(database) + 1..]
  }

  /**
   * With a blank line, the database is its range lines, the blank line and its id lines, and no
   * range line is blank; without one, every line is read both as a range and as an id.
   */
  lemma DatabaseSections(database: seq<string>)
    ensures forall j :: 0 <= j < |RangeLines(database)| ==> RangeLines(database)[j] != ""
    ensures "" in database ==> database == RangeLines(database) + [""] + IdLines(database)
    ensures "" !in database ==> RangeLines(database) == IdLines(database) == database
  {
    var blank := BlankLine(database);
    if blank >= 0 {
      assert database == database[..blank] + [""] + database[blank + 1..];
    } else {
      assert database[0..] == database;
    }
  }

  /** A line that parses as a range holds a '-', so `Long.parseLong` rejects it. */
  lemma RangeIsNoId(line: string)
    requires ParseRange(line).Some?
    ensures ParseLong(line).None?
  {
    assert Contains(line, {'-'});
    var i :| 0 <= i < |line| && line[i] in {'-'};
    assert !IsDigit(line[i]);
  }

  // ---------------------------------------------------------------------------
  // Part one

  /** Part one's index: for every range begin, the set of ends of the ranges starting there. */
  type Index = map<int, set<int>>

  /** The (begin, end) pairs an index holds. */
  ghost function Stored(index: Index): set<(int, int)>
  {
    set k, v | k in index && v in index[k] :: (k, v)
  }

  /** The ranges of a list, as (begin, end) pairs. */
  ghost function RangeSet(ranges: seq<(nat, nat)>): set<(int, int)>
  {
    set i | 0 <= i < |ranges| :: (ranges[i].0 as int, ranges[i].1 as int)
  }

  /**
   * `indexFreshIngredients`: parses one range line and adds its end to the set under its
   * begin, so the index then holds exactly the ranges it held before and the new one.
   */
  method IndexFreshIngredients(range: string, index0: Index) returns (r: Result<Index>)
    ensures r.Err? <==> ParseRange(range).None?
    ensures r.Err? ==> r.failure == MalformedInput
    ensures r.Ok? ==> Stored(r.value) == Stored(index0) + {ParseRange(range).value}
  {
    var rangeSplit := ParseRange(range);
    if rangeSplit.None? {
      return Err(MalformedInput);
    }
    var begin, end := rangeSplit.value.0, rangeSplit.value.1;
    var ends := if begin in index0 then index0[begin] else {};
    var index := index0[begin := ends + {end}];
    forall p | p in Stored(index)
      ensures p in Stored(index0) + {(begin, end)}
    {
      if p != (begin, end) {
        assert p.0 in index0 && p.1 in index0[p.0];
      }
    }
    forall p | p in Stored(index0) + {(begin, end)}
      ensures p in Stored(index)
    {
      assert p.0 in index && p.1 in index[p.0];
    }
    return Ok(index);
  }

  /** `anyMatch(v -> v >= id)` over the ends stored under one begin. */
  predicate Reaches(ends: set<int>, id: int)
  {
    exists v :: v in ends && v >= id
  }

  /** Some range of the set has begin <= id <= end. */
  ghost predicate InSomeRange(ranges: set<(int, int)>, id: int)
  {
    exists p :: p in ranges && p.0 <= id <= p.1
  }

  /**
   * The inner loop of `solvePartOne`: it looks for an entry whose begin is at most the id and
   * one of whose ends is at least the id, and stops at the first one.
   */
  method IsFresh(index: Index, id: int) returns (found: bool)
    ensures found <==> InSomeRange(Stored(index), id)
  {
    var remaining := index.Keys;
    while remaining != {}
      invariant remaining <= index.Keys
      invariant forall k :: k in index && k !in remaining ==> !(k <= id && Reaches(index[k], id))
      decreases |remaining|
    {
      var key := Choose(remaining);
      if key <= id && Reaches(index[key], id) {
        var end :| end in index[key] && end >= id;
        assert (key, end) in Stored(index);
        return true;
      }
      remaining := remaining - {key};
    }
    forall p | p in Stored(index)
      ensures !(p.0 <= id <= p.1)
    {
      assert p.1 in index[p.0];
    }
    return false;
  }

  /** Each id line parsed with `Long.parseLong`, or None when some line makes it throw. */
  function ParseIds(lines: seq<string>): Option<seq<nat>>
  {
    if lines == [] then Some([])
    else
      match ParseIds(lines[..|lines| - 1])
      case None => None
      case Some(ids) =>
        match ParseLong(lines[|lines| - 1])
        case None => None
        case Some(id) => Some(ids + [id])
  }

  /** An id is fresh when some range of the list holds it, bounds included. */
  predicate Fresh(ranges: seq<(nat, nat)>, id: int)
  {
    exists j :: 0 <= j < |ranges| && ranges[j].0 <= id <= ranges[j].1
  }

  /** The reference count: how many ids of the list are fresh. */
  function CountFresh(ranges: seq<(nat, nat)>, ids: seq<nat>): nat
  {
    if ids == [] then 0
    else CountFresh(ranges, ids[..|ids| - 1]) + (if Fresh(ranges, ids[|ids| - 1]) then 1 else 0)
  }

  /** Part one's answer: the number of fresh ids, or the failure a malformed line causes. */
  function PartOne(database: seq<string>): Result<int>
  {
    match ParseRanges(RangeLines(database))
    case None => Err(MalformedInput)
    case Some(ranges) =>
      match ParseIds(IdLines(database))
      case None => Err(MalformedInput)
      case Some(ids) => Ok(CountFresh(ranges, ids))
  }

  lemma {:induction false} ParseIdsPrefixFails(lines: seq<string>, i: nat)
    requires i <= |lines| && ParseIds(lines[..i]) == None
    ensures ParseIds(lines) == None
  {
    if i < |lines| {
      assert lines[..|lines| - 1][..i] == lines[..i];
      ParseIdsPrefixFails(lines[..|lines| - 1], i);
    } else {
      assert lines[..i] == lines;
    }
  }

  lemma ParseIdsStep(lines: seq<string>, i: nat, ids: seq<nat>)
    requires i < |lines| && ParseIds(lines[..i]) == Some(ids)
    ensures ParseLong(lines[i]).None? ==> ParseIds(lines) == None
    ensures ParseLong(lines[i]).Some? ==>
      ParseIds(lines[..i + 1]) == Some(ids + [ParseLong(lines[i]).value])
  {
    assert lines[..i + 1][..i] == lines[..i];
    if ParseLong(lines[i]).None? {
      ParseIdsPrefixFails(lines, i + 1);
    }
  }

  /** Counting over one more id adds one exactly when that id is fresh. */
  lemma CountFreshStep(ranges: seq<(nat, nat)>, ids: seq<nat>, id: nat)
    ensures CountFresh(ranges, ids + [id]) == CountFresh(ranges, ids) + (if Fresh(ranges, id) then 1 else 0)
  {
    assert (ids + [id])[..|ids|] == ids;
  }

  /** Each id is counted at most once: the answer never exceeds the number of ids. */
  lemma {:induction false} CountFreshBound(ranges: seq<(nat, nat)>, ids: seq<nat>)
    ensures CountFresh(ranges, ids) <= |ids|
    ensures (forall i :: 0 <= i < |ids| ==> Fresh(ranges, ids[i])) ==> CountFresh(ranges, ids) == |ids|
    ensures (forall i :: 0 <= i < |ids| ==> !Fresh(ranges, ids[i])) ==> CountFresh(ranges, ids) == 0
  {
    if ids != [] {
      CountFreshBound(ranges, ids[..|ids| - 1]);
    }
  }

  /** An index built from a list of ranges finds an id exactly when the list holds it. */
  lemma RangeSetFresh(ranges: seq<(nat, nat)>, id: int)
    ensures InSomeRange(RangeSet(ranges), id) <==> Fresh(ranges, id)
  {
    if Fresh(ranges, id) {
      var j :| 0 <= j < |ranges| && ranges[j].0 <= id <= ranges[j].1;
      assert (ranges[j].0 as int, ranges[j].1 as int) in RangeSet(ranges);
    }
  }

  lemma RangeSetAppend(ranges: seq<(nat, nat)>, range: (nat, nat))
    ensures RangeSet(ranges + [range]) == RangeSet(ranges) + {(range.0 as int, range.1 as int)}
  {
    var next := ranges + [range];
    forall p | p in RangeSet(ranges)
      ensures p in RangeSet(next)
    {
      var j :| 0 <= j < |ranges| && p == (ranges[j].0 as int, ranges[j].1 as int);
      assert next[j] == ranges[j];
    }
    assert next[|ranges|] == range;
  }

  /**
   * `solvePartOne`: indexes the range lines up to the first blank line, then checks every id
   * line after it against the index.
   */
  method SolvePartOne(database: seq<string>) returns (r: Result<int>)
    ensures r == PartOne(database)
  {
    ghost var lines := RangeLines(database);
    ghost var ranges: seq<(nat, nat)> := [];
    var freshIngredients: Index := map[];
    var i := 0;
    while i < |database|
      invariant 0 <= i <= |lines|
      invariant ParseRanges(lines[..i]) == Some(ranges)
      invariant Stored(freshIngredients) == RangeSet(ranges)
    {
      if database[i] == "" {
        break;
      }
      assert i < |lines| && lines[i] == database[i];
      ParseRangesStep(lines, i, ranges);
      var indexed := IndexFreshIngredients(database[i], freshIngredients);
      if indexed.Err? {
        return Err(MalformedInput);
      }
      RangeSetAppend(ranges, ParseRange(lines[i]).value);
      ranges := ranges + [ParseRange(lines[i]).value];
      freshIngredients := indexed.value;
      i := i + 1;
    }
    assert i == |lines|;
    assert lines[..i] == lines;

    var start := BlankLine(database) + 1;
    ghost var idLines := IdLines(database);
    ghost var ids: seq<nat> := [];
    var amountOfFreshIngredients := 0;
    i := start;
    while i < |database|
      invariant start <= i <= |database|
      invariant ParseIds(idLines[..i - start]) == Some(ids)
      invariant amountOfFreshIngredients == CountFresh(ranges, ids)
    {
      assert idLines[i - start] == database[i];
      ParseIdsStep(idLines, i - start, ids);
      var ingredientToCheck := ParseLong(database[i]);
      if ingredientToCheck.None? {
        return Err(MalformedInput);
      }
      var found := IsFresh(freshIngredients, ingredientToCheck.value);
      RangeSetFresh(ranges, ingredientToCheck.value);
      CountFreshStep(ranges, ids, ingredientToCheck.value);
      if found {
        amountOfFreshIngredients := amountOfFreshIngredients + 1;
      }
      ids := ids + [ingredientToCheck.value];
      i := i + 1;
    }
    assert idLines[..i - start] == idLines;
    return Ok(amountOfFreshIngredients);
  }

  /** One more id of a concrete list, with the count before and after it given. */
  lemma CountStep(ranges: seq<(nat, nat)>, prefix: seq<nat>, id: nat, next: seq<nat>, before: nat, after: nat)
    requires next == prefix + [id] && CountFresh(ranges, prefix) == before
    requires after == before + (if Fresh(ranges, id) then 1 else 0)
    ensures CountFresh(ranges, next) == after
  {
    assert next[..|prefix|] == prefix;
  }

  /**
   * The example database: ranges 3-5, 10-14, 16-20 and 12-18, then the ids 1, 5, 8, 11, 17 and
   * 32, of which 5, 11 and 17 are fresh.
   */
  lemma ExamplePartOne()
    ensures CountFresh([(3, 5), (10, 14), (16, 20), (12, 18)], [1, 5, 8, 11, 17, 32]) == 3
  {
    var ranges: seq<(nat, nat)> := [(3, 5), (10, 14), (16, 20), (12, 18)];
    assert Fresh(ranges, 5) by { assert ranges[0].0 <= 5 <= ranges[0].1; }
    assert Fresh(ranges, 11) by { assert ranges[1].0 <= 11 <= ranges[1].1; }
    assert Fresh(ranges, 17) by { assert ranges[2].0 <= 17 <= ranges[2].1; }
    CountStep(ranges, [], 1, [1], 0, 0);
    CountStep(ranges, [1], 5, [1, 5], 0, 1);
    CountStep(ranges, [1, 5], 8, [1, 5, 8], 1, 1);
    CountStep(ranges, [1, 5, 8], 11, [1, 5, 8, 11], 1, 2);
    CountStep(ranges, [1, 5, 8, 11], 17, [1, 5, 8, 11, 17], 2, 3);
    CountStep(ranges, [1, 5, 8, 11, 17], 32, [1, 5, 8, 11, 17, 32], 3, 3);
  }

  /**
   * Without a blank line every line is read both as a range and as an id, and a range line is
   * never an id, so a non-empty database without a blank line always ends in a failure.
   */
  lemma NoBlankLineFails(database: seq<string>)
    requires database != [] && "" !in database
    ensures PartOne(database).Err?
  {
    DatabaseSections(database);
    if ParseRange(database[0]).None? {
      assert ParseRanges(database[..1]) == None;
      ParseRangesPrefixFails(database, 1);
    } else {
      RangeIsNoId(database[0]);
      assert ParseIds(database[..1]) == None;
      ParseIdsPrefixFails(database, 1);
    }
  }

  // ---------------------------------------------------------------------------
  // Part two: merging overlapping ranges

  /** Part two's map: the begin of every stored range mapped to its end. */
  type Merged = map<int, int>

  /** What the loop of `mergeIfOverlapping` remembers between entries; -1 stands for "not set". */
  datatype Scan = Scan(keyToRemove: int, beginToSet: int, endToSet: int)

  const UNSET := Scan(-1, -1, -1)

  /**
   * The branch an entry takes: 1 when the entry holds `begin`, 2 when it holds `end`, 3 when
   * it lies inside [begin, end], and 0 (`continue`) otherwise; the first that applies wins.
   */
  function Branch(key: int, value: int, begin: int, end: int): nat
  {
    if key <= begin && value >= begin then 1
    else if key <= end && value >= end then 2
    else if key >= begin && value <= end then 3
    else 0
  }

  /** The begin an entry's branch proposes for the merged range. */
  function NewBegin(key: int, value: int, begin: int, end: int): int
  {
    match Branch(key, value, begin, end)
    case 1 => key
    case 2 => Min(key, begin)
    case _ => begin
  }

  /** The end an entry's branch proposes for the merged range. */
  function NewEnd(key: int, value: int, begin: int, end: int): int
  {
    match Branch(key, value, begin, end)
    case 1 => Max(value, end)
    case 2 => value
    case _ => end
  }

  /**
   * One turn of the loop. An entry in branch 2 or 3 becomes the key to remove; the proposed
   * begin and end are folded in with `Math.min` and `Math.max`, where a non-positive value
   * counts as not set.
   */
  function Visit(s: Scan, key: int, value: int, begin: int, end: int): Scan
  {
    var branch := Branch(key, value, begin, end);
    if branch == 0 then s
    else
      var newBegin := NewBegin(key, value, begin, end);
      var newEnd := NewEnd(key, value, begin, end);
      Scan(
        if branch == 1 then s.keyToRemove else key,
        if s.beginToSet > 0 then Min(s.beginToSet, newBegin) else newBegin,
        if s.endToSet > 0 then Max(s.endToSet, newEnd) else newEnd)
  }

  predicate InMap(order: seq<int>, m: Merged)
  {
    forall i :: 0 <= i < |order| ==> order[i] in m
  }

  /** The loop of `mergeIfOverlapping` over the entries in the given order. */
  function ScanAll(m: Merged, order: seq<int>, begin: int, end: int): Scan
    requires InMap(order, m)
  {
    if order == [] then UNSET
    else
      var key := order[|order| - 1];
      Visit(ScanAll(m, order[..|order| - 1], begin, end), key, m[key], begin, end)
  }

  /**
   * The update after the loop: with a begin and an end set, it puts the merged range and
   * removes the key to remove, or, with no key to remove, replaces the end of an existing entry;
   * it reports whether a merge took place.
   */
  function Apply(m: Merged, s: Scan): (bool, Merged)
  {
    if s.beginToSet > 0 && s.endToSet > 0 then
      if s.keyToRemove > 0 then (true, m[s.beginToSet := s.endToSet] - {s.keyToRemove})
      else (true, if s.beginToSet in m then m[s.beginToSet := s.endToSet] else m)
    else (false, m)
  }

  /** `mergeIfOverlapping` for one iteration order of the map's entries. */
  function Merge(m: Merged, order: seq<int>, begin: int, end: int): (bool, Merged)
    requires IsListing(order, m.Keys)
  {
    Apply(m, ScanAll(m, order, begin, end))
  }

  /**
   * `indexFreshIngredients2` after parsing: merge, or else store the range under its begin,
   * keeping a longer end already stored there.
   */
  function Insert(m: Merged, order: seq<int>, begin: int, end: int): Merged
    requires IsListing(order, m.Keys)
  {
    var result := Merge(m, order, begin, end);
    if result.0 then result.1
    else m[begin := if begin in m && m[begin] >= end then m[begin] else end]
  }

  /** `mergeIfOverlapping`: one pass over the entries, then one update of the map. */
  method MergeIfOverlapping(begin: int, end: int, freshIngredients: Merged, order: seq<int>)
    returns (merged: bool, m: Merged)
    requires IsListing(order, freshIngredients.Keys)
    ensures (merged, m) == Merge(freshIngredients, order, begin, end)
  {
    var keyToRemove, beginToSet, endToSet := -1, -1, -1;
    for i := 0 to |order|
      invariant Scan(keyToRemove, beginToSet, endToSet) == ScanAll(freshIngredients, order[..i], begin, end)
    {
      assert order[..i + 1][..i] == order[..i];
      var key := order[i];
      var value := freshIngredients[key];
      var newBegin, newEnd;
      if key <= begin && value >= begin {
        newBegin, newEnd := key, Max(value, end);
      } else if key <= end && value >= end {
        newBegin, newEnd := Min(key, begin), value;
        keyToRemove := key;
      } else if key >= begin && value <= end {
        newBegin, newEnd := begin, end;
        keyToRemove := key;
      } else {
        continue;
      }
      beginToSet := if beginToSet > 0 then Min(beginToSet, newBegin) else newBegin;
      endToSet := if endToSet > 0 then Max(endToSet, newEnd) else newEnd;
    }
    assert order[..|order|] == order;
    m := freshIngredients;
    if beginToSet > 0 && endToSet > 0 {
      if keyToRemove > 0 {
        m := m[beginToSet := endToSet];
        m := m - {keyToRemove};
      } else if beginToSet in m {
        m := m[beginToSet := endToSet];
      }
      return true, m;
    }
    return false, m;
  }

  /** `indexFreshIngredients2`: parses one range line and merges or stores it. */
  method IndexFreshIngredients2(range: string, freshIngredients: Merged, order: seq<int>)
    returns (r: Result<Merged>)
    requires IsListing(order, freshIngredients.Keys)
    ensures r.Err? <==> ParseRange(range).None?
    ensures r.Err? ==> r.failure == MalformedInput
    ensures r.Ok? ==>
      r.value == Insert(freshIngredients, order, ParseRange(range).value.0, ParseRange(range).value.1)
  {
    var rangeSplit := ParseRange(range);
    if rangeSplit.None? {
      return Err(MalformedInput);
    }
    var begin, end := rangeSplit.value.0, rangeSplit.value.1;
    var merged, m := MergeIfOverlapping(begin, end, freshIngredients, order);
    if !merged {
      m := m[begin := if begin in m && m[begin] >= end then m[begin] else end];
    }
    return Ok(m);
  }

  // ---------------------------------------------------------------------------
  // What one merge does

  /** Two inclusive ranges share an id. */
  predicate Overlaps(key: int, value: int, begin: int, end: int)
  {
    key <= end && begin <= value
  }

  /** Every stored range has begin <= end. */
  predicate Ordered(m: Merged)
  {
    forall k :: k in m ==> k <= m[k]
  }

  /** Every stored range has 0 < begin <= end. */
  predicate Positive(m: Merged)
  {
    forall k :: k in m ==> 0 < k <= m[k]
  }

  /** No two stored ranges share an id. */
  predicate Disjoint(m: Merged)
  {
    forall k1, k2 :: k1 in m && k2 in m && k1 != k2 ==> !Overlaps(k1, m[k1], k2, m[k2])
  }

  /** Some stored range holds the id. */
  ghost predicate Covers(m: Merged, x: int)
  {
    exists k :: k in m && k <= x <= m[k]
  }

  /**
   * For well-formed ranges, the three branches together catch exactly the entries that
   * overlap [begin, end], and whichever one catches an entry proposes the union of the two ranges.
   */
  lemma BranchCases(key: int, value: int, begin: int, end: int)
    requires key <= value && begin <= end
    ensures Branch(key, value, begin, end) != 0 <==> Overlaps(key, value, begin, end)
    ensures Branch(key, value, begin, end) == 1 <==> key <= begin <= value
    ensures Branch(key, value, begin, end) >= 2 ==> begin < key
    ensures Branch(key, value, begin, end) != 0 ==>
      NewBegin(key, value, begin, end) == Min(key, begin) && NewEnd(key, value, begin, end) == Max(value, end)
  {
  }

  /** The begin to set never exceeds the end to set, whatever the signs. */
  lemma {:induction false} ScanOrdered(m: Merged, order: seq<int>, begin: int, end: int)
    requires InMap(order, m) && Ordered(m) && begin <= end
    ensures ScanAll(m, order, begin, end).beginToSet <= ScanAll(m, order, begin, end).endToSet
  {
    if order != [] {
      var key := order[|order| - 1];
      ScanOrdered(m, order[..|order| - 1], begin, end);
      BranchCases(key, m[key], begin, end);
    }
  }

  /** The key is listed, stored, and its range overlaps [begin, end]. */
  ghost predicate Hit(m: Merged, order: seq<int>, begin: int, end: int, k: int)
  {
    k in order && k in m && Overlaps(k, m[k], begin, end)
  }

  /**
   * What the loop has gathered after visiting `order`, for positive ranges: nothing without an
   * overlap; otherwise the begin to set is the least of `begin` and the overlapping begins, the
   * end to set the greatest of `end` and the overlapping ends, and the key to remove, when set,
   * is an overlapping entry that starts after `begin` (only branch 1 leaves it unset, and
   * branch 1 takes only entries that start at or before `begin`).
   */
  ghost predicate ScanInv(m: Merged, order: seq<int>, begin: int, end: int, s: Scan)
  {
    && ((forall k :: !Hit(m, order, begin, end, k)) ==> s == UNSET)
    && ((exists k :: Hit(m, order, begin, end, k)) ==> 0 < s.beginToSet <= begin && end <= s.endToSet)
    && (forall k :: Hit(m, order, begin, end, k) ==> s.beginToSet <= k && m[k] <= s.endToSet)
    && (s.beginToSet == -1 || s.beginToSet == begin || Hit(m, order, begin, end, s.beginToSet))
    && (s.endToSet == -1 || s.endToSet == end ||
        exists k :: Hit(m, order, begin, end, k) && s.endToSet == m[k])
    && (s.keyToRemove == -1 || (Hit(m, order, begin, end, s.keyToRemove) && begin < s.keyToRemove))
    && (s.keyToRemove == -1 ==> forall k :: Hit(m, order, begin, end, k) ==> k <= begin)
  }

  lemma ScanStep(m: Merged, order: seq<int>, key: int, begin: int, end: int, s: Scan)
    requires Positive(m) && 0 < begin <= end && key in m
    requires ScanInv(m, order, begin, end, s)
    ensures ScanInv(m, order + [key], begin, end, Visit(s, key, m[key], begin, end))
  {
    var next := order + [key];
    forall k ensures Hit(m, next, begin, end, k) <==> Hit(m, order, begin, end, k) || (k == key && Overlaps(key, m[key], begin, end))
    {
      assert k in next <==> k in order || k == key;
    }
    BranchCases(key, m[key], begin, end);
  }

  lemma {:induction false} ScanFacts(m: Merged, order: seq<int>, begin: int, end: int)
    requires Positive(m) && 0 < begin <= end && InMap(order, m)
    ensures ScanInv(m, order, begin, end, ScanAll(m, order, begin, end))
  {
    if order != [] {
      var prefix := order[..|order| - 1];
      var key := order[|order| - 1];
      ScanFacts(m, prefix, begin, end);
      assert order == prefix + [key];
      ScanStep(m, prefix, key, begin, end, ScanAll(m, prefix, begin, end));
    }
  }

  /** A merge takes place exactly when some stored range overlaps [begin, end]; otherwise nothing changes. */
  lemma MergedIffOverlap(m: Merged, order: seq<int>, begin: int, end: int)
    requires Positive(m) && 0 < begin <= end && IsListing(order, m.Keys)
    ensures Merge(m, order, begin, end).0 <==> exists k :: k in m && Overlaps(k, m[k], begin, end)
    ensures !Merge(m, order, begin, end).0 ==>
      Merge(m, order, begin, end).1 == m && begin !in m && Insert(m, order, begin, end) == m[begin := end]
  {
    ScanFacts(m, order, begin, end);
    if exists k :: k in m && Overlaps(k, m[k], begin, end) {
      var k :| k in m && Overlaps(k, m[k], begin, end);
      assert Hit(m, order, begin, end, k);
    } else if begin in m {
      assert Overlaps(begin, m[begin], begin, end);
    }
  }

  /** Part two keeps every stored range well-formed, and positive when the input is. */
  lemma InsertKeepsOrdered(m: Merged, order: seq<int>, begin: int, end: int)
    requires IsListing(order, m.Keys) && begin <= end
    ensures Ordered(m) ==> Ordered(Insert(m, order, begin, end))
    ensures Positive(m) && 0 < begin ==> Positive(Insert(m, order, begin, end))
  {
    if Ordered(m) {
      ScanOrdered(m, order, begin, end);
    }
  }

  /**
   * The shape of the map after a merge: the merged range sits under the begin to set, and every
   * other entry is an old one, unchanged; only the begin to set and the key to remove can lose
   * their old entries.
   */
  lemma MergedShape(m: Merged, order: seq<int>, begin: int, end: int, s: Scan, r: Merged)
    requires Positive(m) && 0 < begin <= end && IsListing(order, m.Keys)
    requires exists k :: k in m && Overlaps(k, m[k], begin, end)
    requires s == ScanAll(m, order, begin, end) && r == Insert(m, order, begin, end)
    ensures ScanInv(m, order, begin, end, s)
    ensures 0 < s.beginToSet <= begin && end <= s.endToSet
    ensures s.beginToSet in r && r[s.beginToSet] == s.endToSet
    ensures forall k :: k in r && k != s.beginToSet ==> k in m && r[k] == m[k] && k != s.keyToRemove
    ensures forall k :: k in m && k != s.beginToSet && k != s.keyToRemove ==> k in r
    ensures s.beginToSet in m ==> Hit(m, order, begin, end, s.beginToSet)
  {
    ScanFacts(m, order, begin, end);
    var k :| k in m && Overlaps(k, m[k], begin, end);
    assert Hit(m, order, begin, end, k);
    if s.beginToSet == begin && begin in m {
      assert Overlaps(begin, m[begin], begin, end);
    }
    if s.keyToRemove == -1 {
      assert k <= begin;
      assert s.beginToSet in m;
    }
  }

  /**
   * For positive, well-formed ranges, storing a range adds exactly its ids to the ids the map
   * covers, whatever the iteration order.
   */
  lemma InsertCovers(m: Merged, order: seq<int>, begin: int, end: int)
    requires Positive(m) && 0 < begin <= end && IsListing(order, m.Keys)
    ensures forall x :: Covers(Insert(m, order, begin, end), x) <==> Covers(m, x) || begin <= x <= end
  {
    var r := Insert(m, order, begin, end);
    MergedIffOverlap(m, order, begin, end);
    if !Merge(m, order, begin, end).0 {
      forall x ensures Covers(r, x) <==> Covers(m, x) || begin <= x <= end
      {
        if Covers(m, x) {
          var k :| k in m && k <= x <= m[k];
          assert k in r && r[k] == m[k];
        }
        if begin <= x <= end {
          assert begin in r;
        }
      }
    } else {
      var s := ScanAll(m, order, begin, end);
      MergedShape(m, order, begin, end, s, r);
      forall x ensures Covers(r, x) <==> Covers(m, x) || begin <= x <= end
      {
        if Covers(r, x) {
          CoveredByMerge(m, order, begin, end, s, r, x);
        }
        if Covers(m, x) {
          var k :| k in m && k <= x <= m[k];
          if k != s.beginToSet && k != s.keyToRemove {
            assert k in r && r[k] == m[k];
          } else {
            assert Hit(m, order, begin, end, k);
            assert s.beginToSet in r && s.beginToSet <= x <= r[s.beginToSet];
          }
        }
        if begin <= x <= end {
          assert s.beginToSet in r && s.beginToSet <= x <= r[s.beginToSet];
        }
      }
    }
  }

  /** Every id the merged map covers was covered before or lies in [begin, end]. */
  lemma CoveredByMerge(m: Merged, order: seq<int>, begin: int, end: int, s: Scan, r: Merged, x: int)
    requires Positive(m) && 0 < begin <= end && IsListing(order, m.Keys)
    requires ScanInv(m, order, begin, end, s)
    requires 0 < s.beginToSet <= begin && end <= s.endToSet
    requires s.beginToSet in r && r[s.beginToSet] == s.endToSet
    requires forall k :: k in r && k != s.beginToSet ==> k in m && r[k] == m[k]
    requires Covers(r, x)
    ensures Covers(m, x) || begin <= x <= end
  {
    var k :| k in r && k <= x <= r[k];
    if k != s.beginToSet {
      assert k in m && k <= x <= m[k];
    } else if x < begin {
      assert Hit(m, order, begin, end, s.beginToSet);
      assert s.beginToSet in m && s.beginToSet <= x <= m[s.beginToSet];
    } else if x > end {
      var k' :| Hit(m, order, begin, end, k') && s.endToSet == m[k'];
      assert k' in m && k' <= x <= m[k'];
    }
  }

  /** When exactly one stored range overlaps, it is replaced by the union and nothing else changes. */
  lemma SingleOverlapReplaces(m: Merged, order: seq<int>, begin: int, end: int, key: int)
    requires Positive(m) && 0 < begin <= end && IsListing(order, m.Keys)
    requires key in m && Overlaps(key, m[key], begin, end)
    requires forall k :: k in m && k != key ==> !Overlaps(k, m[k], begin, end)
    ensures Merge(m, order, begin, end).0
    ensures Insert(m, order, begin, end) == (m - {key})[Min(key, begin) := Max(m[key], end)]
  {
    MergedIffOverlap(m, order, begin, end);
    var s := ScanAll(m, order, begin, end);
    var r := Insert(m, order, begin, end);
    MergedShape(m, order, begin, end, s, r);
    assert Hit(m, order, begin, end, key);
    assert s.beginToSet == Min(key, begin);
    assert s.endToSet == Max(m[key], end);
    assert r == (m - {key})[Min(key, begin) := Max(m[key], end)];
  }

  /**
   * A range that reaches one stored range by its begin and another by its end bridges them:
   * both are replaced by one range from the first begin to the larger end.
   */
  lemma BridgeMerges(m: Merged, order: seq<int>, begin: int, end: int, k1: int, k2: int)
    requires Positive(m) && 0 < begin <= end && IsListing(order, m.Keys)
    requires k1 in m && k1 <= begin <= m[k1]
    requires k2 in m && begin < k2 <= end <= m[k2]
    requires forall k :: k in m && k != k1 && k != k2 ==> !Overlaps(k, m[k], begin, end)
    ensures Merge(m, order, begin, end).0
    ensures Insert(m, order, begin, end) == (m - {k2})[k1 := Max(m[k1], m[k2])]
  {
    assert Overlaps(k1, m[k1], begin, end);
    MergedIffOverlap(m, order, begin, end);
    var s := ScanAll(m, order, begin, end);
    var r := Insert(m, order, begin, end);
    MergedShape(m, order, begin, end, s, r);
    assert Hit(m, order, begin, end, k1) && Hit(m, order, begin, end, k2);
    assert s.beginToSet == k1;
    assert s.endToSet == Max(m[k1], m[k2]);
    assert s.keyToRemove == k2;
    assert r == (m - {k2})[k1 := Max(m[k1], m[k2])];
  }

  /** The bridge from the documentation: 5-7 joins 1-5 and 7-9 into 1-9, in either order. */
  lemma BridgeExample(order: seq<int>)
    requires IsListing(order, {1, 7})
    ensures Insert(map[1 := 5, 7 := 9], order, 5, 7) == map[1 := 9]
  {
    var m := map[1 := 5, 7 := 9];
    assert m.Keys == {1, 7};
    BridgeMerges(m, order, 5, 7, 1, 7);
    assert (m - {7})[1 := 9] == map[1 := 9];
  }

  /** At most one stored range starts inside (begin, end]: the single-overlap and bridge cases. */
  predicate AtMostOneInside(m: Merged, begin: int, end: int)
  {
    forall k1, k2 :: k1 in m && k2 in m && begin < k1 <= end && begin < k2 <= end ==> k1 == k2
  }

  /**
   * The documented promise that the map holds no overlapping ranges survives a range that
   * reaches at most one stored range beyond its begin.
   */
  lemma InsertKeepsDisjoint(m: Merged, order: seq<int>, begin: int, end: int)
    requires Positive(m) && Disjoint(m) && 0 < begin <= end && IsListing(order, m.Keys)
    requires AtMostOneInside(m, begin, end)
    ensures Disjoint(Insert(m, order, begin, end))
  {
    var r := Insert(m, order, begin, end);
    MergedIffOverlap(m, order, begin, end);
    if !Merge(m, order, begin, end).0 {
      forall k1, k2 | k1 in r && k2 in r && k1 != k2
        ensures !Overlaps(k1, r[k1], k2, r[k2])
      {
        if k1 != begin && k2 != begin {
          assert r[k1] == m[k1] && r[k2] == m[k2];
        }
      }
    } else {
      var s := ScanAll(m, order, begin, end);
      MergedShape(m, order, begin, end, s, r);
      forall k | k in r && k != s.beginToSet
        ensures !Overlaps(k, m[k], begin, end)
      {
        if Overlaps(k, m[k], begin, end) {
          assert Hit(m, order, begin, end, k);
          OverlapIsMerged(m, order, begin, end, s, k);
        }
      }
      forall k1, k2 | k1 in r && k2 in r && k1 != k2
        ensures !Overlaps(k1, r[k1], k2, r[k2])
      {
        if k1 == s.beginToSet {
          MergedApart(m, order, begin, end, s, k2);
        } else if k2 == s.beginToSet {
          MergedApart(m, order, begin, end, s, k1);
        } else {
          assert r[k1] == m[k1] && r[k2] == m[k2];
        }
      }
    }
  }

  /** Under the conditions above, every overlapping entry is the begin to set or the key to remove. */
  lemma OverlapIsMerged(m: Merged, order: seq<int>, begin: int, end: int, s: Scan, k: int)
    requires Positive(m) && Disjoint(m) && 0 < begin <= end && AtMostOneInside(m, begin, end)
    requires ScanInv(m, order, begin, end, s) && 0 < s.beginToSet <= begin
    requires Hit(m, order, begin, end, k)
    ensures k == s.beginToSet || k == s.keyToRemove
  {
    if k <= begin {
      if s.beginToSet != begin {
        assert Hit(m, order, begin, end, s.beginToSet);
        assert Overlaps(k, m[k], s.beginToSet, m[s.beginToSet]);
      }
    } else {
      assert s.keyToRemove != -1;
    }
  }

  /** An entry that does not overlap [begin, end] does not overlap the merged range either. */
  lemma MergedApart(m: Merged, order: seq<int>, begin: int, end: int, s: Scan, k: int)
    requires Positive(m) && Disjoint(m) && 0 < begin <= end
    requires ScanInv(m, order, begin, end, s) && 0 < s.beginToSet <= begin && end <= s.endToSet
    requires k in m && k != s.beginToSet && !Overlaps(k, m[k], begin, end)
    ensures !Overlaps(k, m[k], s.beginToSet, s.endToSet)
    ensures !Overlaps(s.beginToSet, s.endToSet, k, m[k])
  {
    if Overlaps(k, m[k], s.beginToSet, s.endToSet) {
      var x := Max(k, s.beginToSet);
      if x > end {
        var k' :| Hit(m, order, begin, end, k') && s.endToSet == m[k'];
        assert Overlaps(k, m[k], k', m[k']);
      }
    }
  }

  // ---------------------------------------------------------------------------
  // The total of part two

  /** The sum of end + 1 - begin over the stored ranges. */
  ghost function SpanTotal(m: Merged): int
    decreases |m|
  {
    if m == map[] then 0
    else
      var entry :| entry in m.Items;
      entry.1 + 1 - entry.0 + SpanTotal(m - {entry.0})
  }

  /** The total does not depend on which entry is taken first. */
  lemma {:induction false} SpanTotalRemove(m: Merged, k: int)
    requires k in m
    ensures SpanTotal(m) == m[k] + 1 - k + SpanTotal(m - {k})
    decreases |m|
  {
    var entry :| entry in m.Items && SpanTotal(m) == entry.1 + 1 - entry.0 + SpanTotal(m - {entry.0});
    var j := entry.0;
    if j != k {
      SpanTotalRemove(m - {j}, k);
      SpanTotalRemove(m - {k}, j);
      assert m - {j} - {k} == m - {k} - {j};
    }
  }

  /** The summing loop of `solvePartTwo`, over the entries in whatever order the map hands them out. */
  method TotalSpan(freshIngredients: Merged) returns (total: int)
    ensures total == SpanTotal(freshIngredients)
  {
    total := 0;
    var remaining := freshIngredients;
    while remaining != map[]
      invariant total + SpanTotal(remaining) == SpanTotal(freshIngredients)
      decreases |remaining|
    {
      var key := Choose(remaining.Keys);
      SpanTotalRemove(remaining, key);
      total := total + remaining[key] + 1 - key;
      remaining := remaining - {key};
    }
  }

  /** lo <= x <= hi, as one term the comprehensions below can hang on. */
  predicate Within(lo: int, x: int, hi: int)
  {
    lo <= x <= hi
  }

  /** The ids between two bounds, both included. */
  ghost function Ids(lo: int, hi: int): set<int>
  {
    set x | lo <= x <= hi && Within(lo, x, hi)
  }

  /** The ids some stored range holds. */
  ghost function CoveredIds(m: Merged): set<int>
  {
    set k, x | k in m && k <= x <= m[k] && Within(k, x, m[k]) :: x
  }

  lemma {:induction false} IdsSize(lo: int, hi: int)
    requires lo <= hi + 1
    ensures |Ids(lo, hi)| == hi + 1 - lo
    decreases hi - lo
  {
    if lo <= hi {
      assert Ids(lo, hi) == Ids(lo, hi - 1) + {hi};
      IdsSize(lo, hi - 1);
    } else {
      assert Ids(lo, hi) == {};
    }
  }

  lemma CoveredIdsRemove(m: Merged, k: int)
    requires k in m
    ensures CoveredIds(m) == CoveredIds(m - {k}) + Ids(k, m[k])
  {
    var rest := m - {k};
    forall x | x in CoveredIds(m)
      ensures x in CoveredIds(rest) + Ids(k, m[k])
    {
      var j :| j in m && Within(j, x, m[j]);
      if j != k {
        assert j in rest && Within(j, x, rest[j]);
        assert x in CoveredIds(rest);
      } else {
        assert Within(k, x, m[k]) && k <= x <= m[k];
        assert x in Ids(k, m[k]);
      }
    }
    forall x | x in CoveredIds(rest) + Ids(k, m[k])
      ensures x in CoveredIds(m)
    {
      if x in Ids(k, m[k]) {
        assert k in m && Within(k, x, m[k]);
      } else {
        var j :| j in rest && Within(j, x, rest[j]);
        assert j in m && Within(j, x, m[j]);
      }
    }
  }

  lemma CoveredIdsApart(m: Merged, k: int)
    requires k in m && Disjoint(m)
    ensures CoveredIds(m - {k}) * Ids(k, m[k]) == {}
  {
    var rest := m - {k};
    forall x | x in CoveredIds(rest)
      ensures x !in Ids(k, m[k])
    {
      var j :| j in rest && Within(j, x, rest[j]);
      assert j != k && rest[j] == m[j];
      assert !Overlaps(j, m[j], k, m[k]);
    }
  }

  /**
   * Part two's total counts every covered id at least once, and exactly once when no two
   * stored ranges overlap.
   */
  lemma {:induction false} SpanCountsIds(m: Merged)
    requires Ordered(m)
    ensures SpanTotal(m) >= |CoveredIds(m)|
    ensures Disjoint(m) ==> SpanTotal(m) == |CoveredIds(m)|
    decreases |m|
  {
    if m == map[] {
      assert CoveredIds(m) == {};
    } else {
      var entry :| entry in m.Items;
      var k := entry.0;
      var rest := m - {k};
      SpanTotalRemove(m, k);
      SpanCountsIds(rest);
      IdsSize(k, m[k]);
      CoveredIdsRemove(m, k);
      if Disjoint(m) {
        CoveredIdsApart(m, k);
      }
    }
  }

  // ---------------------------------------------------------------------------
  // Part two's solver

  /** Every range has begin <= end. */
  predicate AllOrdered(ranges: seq<(nat, nat)>)
  {
    forall j :: 0 <= j < |ranges| ==> ranges[j].0 <= ranges[j].1
  }

  /** Every range has 0 < begin <= end. */
  predicate AllPositive(ranges: seq<(nat, nat)>)
  {
    forall j :: 0 <= j < |ranges| ==> 0 < ranges[j].0 <= ranges[j].1
  }

  lemma FreshAppend(ranges: seq<(nat, nat)>, range: (nat, nat), x: int)
    ensures Fresh(ranges + [range], x) <==> Fresh(ranges, x) || range.0 <= x <= range.1
  {
    var next := ranges + [range];
    if Fresh(ranges, x) {
      var j :| 0 <= j < |ranges| && ranges[j].0 <= x <= ranges[j].1;
      assert next[j] == ranges[j];
    }
    if range.0 <= x <= range.1 {
      assert next[|ranges|] == range;
    }
    if Fresh(next, x) {
      var j :| 0 <= j < |next| && next[j].0 <= x <= next[j].1;
      if j < |ranges| {
        assert next[j] == ranges[j];
      }
    }
  }

  /** Storing one more range keeps the map well-formed and covering exactly the ranges read so far. */
  lemma PartTwoStep(m: Merged, order: seq<int>, ranges: seq<(nat, nat)>, range: (nat, nat))
    requires IsListing(order, m.Keys)
    requires AllOrdered(ranges) ==> Ordered(m)
    requires AllPositive(ranges) ==> Positive(m) && forall x :: Covers(m, x) <==> Fresh(ranges, x)
    ensures AllOrdered(ranges + [range]) ==> Ordered(Insert(m, order, range.0, range.1))
    ensures AllPositive(ranges + [range]) ==>
      && Positive(Insert(m, order, range.0, range.1))
      && forall x :: Covers(Insert(m, order, range.0, range.1), x) <==> Fresh(ranges + [range], x)
  {
    var next := ranges + [range];
    assert next[|ranges|] == range;
    if AllOrdered(next) {
      assert AllOrdered(ranges) by {
        forall j | 0 <= j < |ranges| ensures ranges[j].0 <= ranges[j].1 { assert next[j] == ranges[j]; }
      }
      InsertKeepsOrdered(m, order, range.0, range.1);
    }
    if AllPositive(next) {
      assert AllPositive(ranges) by {
        forall j | 0 <= j < |ranges| ensures 0 < ranges[j].0 <= ranges[j].1 { assert next[j] == ranges[j]; }
      }
      InsertKeepsOrdered(m, order, range.0, range.1);
      InsertCovers(m, order, range.0, range.1);
      forall x ensures Fresh(next, x) <==> Fresh(ranges, x) || range.0 <= x <= range.1 {
        FreshAppend(ranges, range, x);
      }
    }
  }

  /**
   * `solvePartTwo`: stores the range lines up to the first blank line, merging as it goes, and
   * returns the sum of the stored ranges' lengths. For positive, well-formed ranges the stored
   * map covers exactly the fresh ids, and the answer counts each of them at least once, exactly
   * once when no two stored ranges overlap.
   */
  method SolvePartTwo(database: seq<string>) returns (r: Result<int>, ghost stored: Merged)
    ensures r.Err? <==> ParseRanges(RangeLines(database)).None?
    ensures r.Err? ==> r.failure == MalformedInput
    ensures r.Ok? ==> r.value == SpanTotal(stored)
    ensures r.Ok? && AllOrdered(ParseRanges(RangeLines(database)).value) ==> Ordered(stored)
    ensures r.Ok? && AllPositive(ParseRanges(RangeLines(database)).value) ==>
      && Positive(stored)
      && (forall x :: Covers(stored, x) <==> Fresh(ParseRanges(RangeLines(database)).value, x))
      && r.value >= |CoveredIds(stored)|
      && (Disjoint(stored) ==> r.value == |CoveredIds(stored)|)
  {
    ghost var lines := RangeLines(database);
    ghost var ranges: seq<(nat, nat)> := [];
    var freshIngredients: Merged := map[];
    var i := 0;
    while i < |database|
      invariant 0 <= i <= |lines|
      invariant ParseRanges(lines[..i]) == Some(ranges)
      invariant AllOrdered(ranges) ==> Ordered(freshIngredients)
      invariant AllPositive(ranges) ==>
        Positive(freshIngredients) && forall x :: Covers(freshIngredients, x) <==> Fresh(ranges, x)
    {
      if database[i] == "" {
        break;
      }
      assert i < |lines| && lines[i] == database[i];
      ParseRangesStep(lines, i, ranges);
      var order := ListKeys(freshIngredients);
      var indexed := IndexFreshIngredients2(database[i], freshIngredients, order);
      if indexed.Err? {
        stored := freshIngredients;
        return Err(MalformedInput), stored;
      }
      ghost var range := ParseRange(lines[i]).value;
      PartTwoStep(freshIngredients, order, ranges, range);
      ranges := ranges + [range];
      freshIngredients := indexed.value;
      i := i + 1;
    }
    assert i == |lines|;
    assert lines[..i] == lines;
    var amountOfFreshIngredients := TotalSpan(freshIngredients);
    stored := freshIngredients;
    if AllPositive(ranges) {
      SpanCountsIds(stored);
    }
    return Ok(amountOfFreshIngredients), stored;
  }

  // ---------------------------------------------------------------------------
  // The example and two behaviours of the merge as written

  /** The example database's first three ranges overlap nothing and are stored as they come. */
  lemma ExamplePartTwoStores(o2: seq<int>, o3: seq<int>)
    requires IsListing(o2, map[3 := 5].Keys)
    requires IsListing(o3, map[3 := 5, 10 := 14].Keys)
    ensures Insert(map[], [], 3, 5) == map[3 := 5]
    ensures Insert(map[3 := 5], o2, 10, 14) == map[3 := 5, 10 := 14]
    ensures Insert(map[3 := 5, 10 := 14], o3, 16, 20) == map[3 := 5, 10 := 14, 16 := 20]
  {
    MergedIffOverlap(map[], [], 3, 5);
    MergedIffOverlap(map[3 := 5], o2, 10, 14);
    MergedIffOverlap(map[3 := 5, 10 := 14], o3, 16, 20);
  }

  /**
   * The example's last range 12-18 bridges 10-14 and 16-20, in any iteration order; the map
   * ends as 3-5 and 10-20 and the total is 14.
   */
  lemma ExamplePartTwoBridge(o4: seq<int>)
    requires IsListing(o4, map[3 := 5, 10 := 14, 16 := 20].Keys)
    ensures Insert(map[3 := 5, 10 := 14, 16 := 20], o4, 12, 18) == map[3 := 5, 10 := 20]
    ensures SpanTotal(map[3 := 5, 10 := 20]) == 14
  {
    var m := map[3 := 5, 10 := 14, 16 := 20];
    BridgeMerges(m, o4, 12, 18, 10, 16);
    assert (m - {16})[10 := 20] == map[3 := 5, 10 := 20];
    var last := map[3 := 5, 10 := 20];
    SpanTotalRemove(last, 3);
    assert last - {3} == map[10 := 20];
    SpanTotalRemove(map[10 := 20], 10);
    assert map[10 := 20] - {10} == map[];
  }

  /**
   * A range holding two stored ranges removes only the one visited last: the other stays
   * inside the merged range, which one stays depends on the iteration order, and the total
   * then counts its ids twice (12 or 15 where 1-10 holds 10 ids).
   */
  lemma MultiOverlapKeepsOne()
    ensures Insert(map[2 := 3, 5 := 9], [2, 5], 1, 10) == map[1 := 10, 2 := 3]
    ensures Insert(map[2 := 3, 5 := 9], [5, 2], 1, 10) == map[1 := 10, 5 := 9]
    ensures !Disjoint(map[1 := 10, 2 := 3]) && !Disjoint(map[1 := 10, 5 := 9])
    ensures SpanTotal(map[1 := 10, 2 := 3]) == 12 && SpanTotal(map[1 := 10, 5 := 9]) == 15
    ensures |CoveredIds(map[1 := 10, 2 := 3])| == 10 && |CoveredIds(map[1 := 10, 5 := 9])| == 10
  {
    var m := map[2 := 3, 5 := 9];
    assert m.Keys == {2, 5};
    assert [2, 5][..1] == [2] && [5, 2][..1] == [5];
    assert ScanAll(m, [2], 1, 10) == Scan(2, 1, 10);
    assert ScanAll(m, [2, 5], 1, 10) == Scan(5, 1, 10);
    assert m[1 := 10] - {5} == map[1 := 10, 2 := 3];
    assert ScanAll(m, [5], 1, 10) == Scan(5, 1, 10);
    assert ScanAll(m, [5, 2], 1, 10) == Scan(2, 1, 10);
    assert m[1 := 10] - {2} == map[1 := 10, 5 := 9];
    var a := map[1 := 10, 2 := 3];
    assert 1 in a && 2 in a && Overlaps(1, a[1], 2, a[2]);
    SpanTotalRemove(a, 2);
    assert a - {2} == map[1 := 10];
    SpanTotalRemove(map[1 := 10], 1);
    assert map[1 := 10] - {1} == map[];
    var b := map[1 := 10, 5 := 9];
    assert 1 in b && 5 in b && Overlaps(1, b[1], 5, b[5]);
    SpanTotalRemove(b, 5);
    assert b - {5} == map[1 := 10];
    forall x ensures Covers(a, x) <==> 1 <= x <= 10 {
      if 1 <= x <= 10 {
        assert 1 in a && 1 <= x <= a[1];
      }
    }
    CoveredIdsSpan(a, 1, 10);
    forall x ensures Covers(b, x) <==> 1 <= x <= 10 {
      if 1 <= x <= 10 {
        assert 1 in b && 1 <= x <= b[1];
      }
    }
    CoveredIdsSpan(b, 1, 10);
  }

  /** When the stored ranges cover exactly lo..hi, they cover hi + 1 - lo ids. */
  lemma CoveredIdsSpan(m: Merged, lo: int, hi: int)
    requires lo <= hi && forall x :: Covers(m, x) <==> lo <= x <= hi
    ensures |CoveredIds(m)| == hi + 1 - lo
  {
    forall x ensures x in CoveredIds(m) <==> x in Ids(lo, hi) {
      CoveredIdsMeaning(m, x);
    }
    assert CoveredIds(m) == Ids(lo, hi);
    IdsSize(lo, hi);
  }

  /**
   * A stored range beginning at 0 proposes 0 as the begin to set, which then counts as not
   * set: 3-8 is not merged with 0-5 but stored beside it.
   */
  lemma ZeroBeginNotMerged()
    ensures !Merge(map[0 := 5], [0], 3, 8).0
    ensures Insert(map[0 := 5], [0], 3, 8) == map[0 := 5, 3 := 8]
    ensures Overlaps(0, 5, 3, 8)
    ensures SpanTotal(map[0 := 5, 3 := 8]) == 12 && |CoveredIds(map[0 := 5, 3 := 8])| == 9
  {
    assert map[0 := 5].Keys == {0};
    var a := map[0 := 5, 3 := 8];
    SpanTotalRemove(a, 3);
    assert a - {3} == map[0 := 5];
    SpanTotalRemove(map[0 := 5], 0);
    assert map[0 := 5] - {0} == map[];
    forall x ensures Covers(a, x) <==> 0 <= x <= 8 {
      if 0 <= x <= 5 {
        assert 0 in a && 0 <= x <= a[0];
      } else if 5 < x <= 8 {
        assert 3 in a && 3 <= x <= a[3];
      }
    }
    CoveredIdsSpan(a, 0, 8);
  }

  // ---------------------------------------------------------------------------
  // The merge as the javadoc of `solvePartTwo` intends it

  /** The stored ranges that share an id with [begin, end]. */
  function Overlapped(m: Merged, begin: int, end: int): set<int>
  {
    set k | k in m && Overlaps(k, m[k], begin, end)
  }

  /** One stored range folded into the span: widened by it when it overlaps [begin, end]. */
  function WidenBy(span: (int, int), key: int, value: int, begin: int, end: int): (int, int)
  {
    if Overlaps(key, value, begin, end) then (Min(span.0, key), Max(span.1, value)) else span
  }

  /**
   * The union of [begin, end] with every stored range overlapping it, with no "not set" value:
   * a begin of 0 is a begin like any other.
   */
  ghost function Widen(m: Merged, begin: int, end: int): (int, int)
    decreases |m|
  {
    if m == map[] then (begin, end)
    else
      var entry :| entry in m.Items;
      WidenBy(Widen(m - {entry.0}, begin, end), entry.0, entry.1, begin, end)
  }

  /** The span reaches past [begin, end] only through an overlapped range, and holds every one of them. */
  lemma {:induction false} WidenFacts(m: Merged, begin: int, end: int)
    ensures var span := Widen(m, begin, end);
      && span.0 <= begin && end <= span.1
      && (span.0 == begin || span.0 in Overlapped(m, begin, end))
      && (span.1 == end || exists k :: k in Overlapped(m, begin, end) && span.1 == m[k])
      && forall k :: k in Overlapped(m, begin, end) ==> span.0 <= k && m[k] <= span.1
    decreases |m|
  {
    if m != map[] {
      var entry :| entry in m.Items &&
        Widen(m, begin, end) == WidenBy(Widen(m - {entry.0}, begin, end), entry.0, entry.1, begin, end);
      var k := entry.0;
      assert k in m && m[k] == entry.1;
      var rest := m - {k};
      WidenFacts(rest, begin, end);
      var span, previous := Widen(m, begin, end), Widen(rest, begin, end);
      var hit, hitBefore := Overlapped(m, begin, end), Overlapped(rest, begin, end);
      assert span == WidenBy(previous, k, m[k], begin, end);
      assert forall j :: j in hitBefore ==> j in hit && rest[j] == m[j];
      assert forall j :: j in hit && j != k ==> j in hitBefore;
      if span.1 != end && span.1 == previous.1 {
        var j :| j in hitBefore && previous.1 == rest[j];
        assert j in hit && span.1 == m[j];
      }
    }
  }

  /**
   * `mergeIfOverlapping` as intended: every overlapped range is removed, and their union with
   * [begin, end] is stored under its begin.
   */
  ghost function MergeAll(m: Merged, begin: int, end: int): Merged
  {
    var span := Widen(m, begin, end);
    (m - Overlapped(m, begin, end))[span.0 := span.1]
  }

  /** The intended merge keeps the ranges well-formed and apart, and adds exactly [begin, end] to what they cover. */
  lemma MergeAllCovers(m: Merged, begin: int, end: int)
    requires Ordered(m) && Disjoint(m) && begin <= end
    ensures Ordered(MergeAll(m, begin, end)) && Disjoint(MergeAll(m, begin, end))
    ensures forall x :: Covers(MergeAll(m, begin, end), x) <==> Covers(m, x) || begin <= x <= end
  {
    var span := Widen(m, begin, end);
    var lo, hi := span.0, span.1;
    var hit := Overlapped(m, begin, end);
    var r := MergeAll(m, begin, end);
    WidenFacts(m, begin, end);
    assert lo in m ==> lo in hit;
    forall k | k in r && k != lo
      ensures k in m && k !in hit && r[k] == m[k]
    {
    }
    forall k | k in r && k != lo
      ensures !Overlaps(lo, hi, k, r[k])
    {
      if lo <= m[k] && k <= hi && begin <= m[k] {
        var j :| j in hit && hi == m[j];
        assert Overlaps(j, m[j], k, m[k]);
      }
    }
    forall x | Covers(r, x)
      ensures Covers(m, x) || begin <= x <= end
    {
      var k :| k in r && k <= x <= r[k];
      if k == lo && x < begin {
        assert lo in hit && lo <= x <= m[lo];
      } else if k == lo && x > end {
        var j :| j in hit && hi == m[j];
        assert j <= x <= m[j];
      }
    }
    forall x | Covers(m, x) || begin <= x <= end
      ensures Covers(r, x)
    {
      if begin <= x <= end {
        assert lo in r && lo <= x <= r[lo];
      } else {
        var k :| k in m && k <= x <= m[k];
        if k in hit {
          assert lo in r && lo <= x <= r[lo];
        } else {
          assert k in r && r[k] == m[k];
        }
      }
    }
  }

  /** Part two's stored map with the intended merge, one range after the other. */
  ghost function StoreAll(ranges: seq<(nat, nat)>): Merged
  {
    if ranges == [] then map[]
    else
      var range := ranges[|ranges| - 1];
      MergeAll(StoreAll(ranges[..|ranges| - 1]), range.0, range.1)
  }

  /** Part two's answer with the intended merge. */
  ghost function IntendedPartTwo(ranges: seq<(nat, nat)>): int
  {
    SpanTotal(StoreAll(ranges))
  }

  /** An id is among the covered ids exactly when a stored range holds it. */
  lemma CoveredIdsMeaning(m: Merged, x: int)
    ensures x in CoveredIds(m) <==> Covers(m, x)
  {
    if Covers(m, x) {
      var k :| k in m && k <= x <= m[k];
      assert Within(k, x, m[k]);
    }
  }

  /** With the intended merge the stored ranges stay apart and cover exactly the fresh ids. */
  lemma {:induction false} StoreAllCovers(ranges: seq<(nat, nat)>)
    requires AllOrdered(ranges)
    ensures Ordered(StoreAll(ranges)) && Disjoint(StoreAll(ranges))
    ensures forall x :: Covers(StoreAll(ranges), x) <==> Fresh(ranges, x)
  {
    if ranges != [] {
      var front, range := ranges[..|ranges| - 1], ranges[|ranges| - 1];
      assert ranges == front + [range];
      assert AllOrdered(front) by {
        forall j | 0 <= j < |front| ensures front[j].0 <= front[j].1 { assert front[j] == ranges[j]; }
      }
      StoreAllCovers(front);
      MergeAllCovers(StoreAll(front), range.0, range.1);
      forall x ensures Fresh(ranges, x) <==> Fresh(front, x) || range.0 <= x <= range.1 {
        FreshAppend(front, range, x);
      }
    }
  }

  /**
   * What the javadoc promises: with the intended merge, part two's total is the number of fresh
   * ids, each counted once, a range beginning at 0 included.
   */
  lemma IntendedCountsFresh(ranges: seq<(nat, nat)>)
    requires AllOrdered(ranges)
    ensures forall x :: x in CoveredIds(StoreAll(ranges)) <==> Fresh(ranges, x)
    ensures IntendedPartTwo(ranges) == |CoveredIds(StoreAll(ranges))|
  {
    StoreAllCovers(ranges);
    forall x ensures x in CoveredIds(StoreAll(ranges)) <==> Covers(StoreAll(ranges), x) {
      CoveredIdsMeaning(StoreAll(ranges), x);
    }
    SpanCountsIds(StoreAll(ranges));
  }

  /** When the fresh ids are exactly lo..hi, the intended total is their number. */
  lemma IntendedTotalOfSpan(ranges: seq<(nat, nat)>, lo: int, hi: int)
    requires AllOrdered(ranges) && lo <= hi
    requires forall x :: Fresh(ranges, x) <==> lo <= x <= hi
    ensures IntendedPartTwo(ranges) == hi + 1 - lo
  {
    IntendedCountsFresh(ranges);
    StoreAllCovers(ranges);
    CoveredIdsSpan(StoreAll(ranges), lo, hi);
  }

  /**
   * On the two inputs where the code double-counts, the intended merge answers the number of
   * fresh ids: 10 for 2-3, 5-9, 1-10, and 9 for 0-5, 3-8.
   */
  lemma IntendedExamples()
    ensures IntendedPartTwo([(2, 3), (5, 9), (1, 10)]) == 10
    ensures IntendedPartTwo([(0, 5), (3, 8)]) == 9
  {
    var a: seq<(nat, nat)> := [(2, 3), (5, 9), (1, 10)];
    forall x ensures Fresh(a, x) <==> 1 <= x <= 10 {
      if 1 <= x <= 10 {
        assert a[2].0 <= x <= a[2].1;
      }
    }
    IntendedTotalOfSpan(a, 1, 10);
    var b: seq<(nat, nat)> := [(0, 5), (3, 8)];
    forall x ensures Fresh(b, x) <==> 0 <= x <= 8 {
      if 0 <= x <= 5 {
        assert b[0].0 <= x <= b[0].1;
      } else if 5 < x <= 8 {
        assert b[1].0 <= x <= b[1].1;
      }
    }
    IntendedTotalOfSpan(b, 0, 8);
  }
}
