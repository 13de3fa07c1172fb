/**
 * Day six: a worksheet of number rows above one operator row. Part one reads the
 * whitespace-separated tokens of every row as columns; part two reads every column's
 * characters right to left, one number per character offset read top to bottom. Each
 * column is then summed (`+`) or multiplied (`*`), and the results are added up.
 */
module Day06 {
  import opened Common
  import opened JavaText

  /** Whether a worksheet token is one of the two operators. */
  predicate IsOperator(token: string)
  {
    token == "+" || token == "*"
  }

  /** What one column contributes: its sum under `+`, its product under `*`, nothing otherwise. */
  function ColumnValue(operator: string, column: seq<int>): int
  {
    if operator == "+" then Sum(column)
    else if operator == "*" then Product(column)
    else 0
  }

  /** The contribution of every operator token, position by position. */
  function Contributions(operators: seq<string>, operands: seq<seq<int>>): (c: seq<int>)
    ensures |c| == |operators|
  {
    seq(|operators|, i requires 0 <= i < |operators| =>
      if i < |operands| then ColumnValue(operators[i], operands[i]) else 0)
  }

  /**
   * The result of the operator loop: the sum of all contributions, or a failure when an
   * operator stands beyond the last column (the list lookup throws).
   */
  function Total(operators: seq<string>, operands: seq<seq<int>>): Result<int>
  {
    if exists i :: |operands| <= i < |operators| && IsOperator(operators[i]) then Err(IndexOutOfBounds)
    else Ok(Sum(Contributions(operators, operands)))
  }

  /** `initEmptyLists`: one empty column per problem. */
  method InitEmptyLists(size: nat) returns (result: seq<seq<int>>)
    ensures |result| == size
    ensures forall i :: 0 <= i < size ==> result[i] == []
  {
    result := [];
    for i := 0 to size
      invariant |result| == i
      invariant forall j :: 0 <= j < i ==> result[j] == []
    {
      result := result + [[]];
    }
  }

  /** The operator loop shared by both parts. */
  method ApplyOperators(operators: seq<string>, operands: seq<seq<int>>) returns (r: Result<int>)
    ensures r == Total(operators, operands)
  {
    var totalSum := 0;
    ghost var contributions := Contributions(operators, operands);
    for i := 0 to |operators|
      invariant totalSum == Sum(contributions[..i])
      invariant forall j :: |operands| <= j < i ==> !IsOperator(operators[j])
    {
      assert contributions[..i + 1] == contributions[..i] + [contributions[i]];
      SumAppend(contributions[..i], [contributions[i]]);
      if operators[i] == "+" {
        if i >= |operands| {
          return Err(IndexOutOfBounds);
        }
        totalSum := totalSum + Sum(operands[i]);
      } else if operators[i] == "*" {
        if i >= |operands| {
          return Err(IndexOutOfBounds);
        }
        totalSum := totalSum + Product(operands[i]);
      }
    }
    assert contributions[..|operators|] == contributions;
    return Ok(totalSum);
  }

  // ---------------------------------------------------------------------------
  // Part one: whitespace-separated tokens

  /** The tokens of a row as `parseRow` splits it: trimmed, then split on runs of whitespace. */
  function RowTokens(row: string): seq<string>
  {
    SplitWhitespace(Trim(row))
  }

  /** Column j after the first `upTo` tokens of a row: its numeric j-th token appended, if any. */
  function Appended(column: seq<int>, tokens: seq<string>, j: nat, upTo: nat): seq<int>
  {
    if j < upTo && j < |tokens| && IsDigits(tokens[j]) then column + [ParseNat(tokens[j])] else column
  }

  lemma AppendedNext(column: seq<int>, tokens: seq<string>, j: nat, i: nat)
    requires i < |tokens|
    ensures Appended(column, tokens, j, i + 1) ==
      if j == i && IsDigits(tokens[i]) then column + [ParseNat(tokens[i])] else Appended(column, tokens, j, i)
  {
  }

  /** The row has a numeric token at a position with no column of its own. */
  predicate Overflows(columns: nat, row: string)
  {
    exists i :: columns <= i < |RowTokens(row)| && IsDigits(RowTokens(row)[i])
  }

  /**
   * What `parseRow` does to the columns: every numeric token is appended to the column of its
   * position, and a numeric token beyond the last column makes the list lookup throw.
   */
  function AddRow(operands: seq<seq<int>>, row: string): Result<seq<seq<int>>>
  {
    var tokens := RowTokens(row);
    if Overflows(|operands|, row) then Err(IndexOutOfBounds)
    else Ok(seq(|operands|, j requires 0 <= j < |operands| => Appended(operands[j], tokens, j, |tokens|)))
  }

  /** The first `n` tokens of a row processed in order, as the loop of `parseRow` does. */
  function AddTokens(operands: seq<seq<int>>, tokens: seq<string>, n: nat): Result<seq<seq<int>>>
    requires n <= |tokens|
  {
    if n == 0 then Ok(operands)
    else
      match AddTokens(operands, tokens, n - 1)
      case Err(f) => Err(f)
      case Ok(columns) =>
        if !IsDigits(tokens[n - 1]) then Ok(columns)
        else if n - 1 < |columns| then Ok(columns[n - 1 := columns[n - 1] + [ParseNat(tokens[n - 1])]])
        else Err(IndexOutOfBounds)
  }

  /** The loop fails exactly at a numeric token beyond the last column. */
  lemma {:induction false} AddTokensFails(operands: seq<seq<int>>, tokens: seq<string>, n: nat)
    requires n <= |tokens|
    ensures AddTokens(operands, tokens, n).Err? <==> exists i :: |operands| <= i < n && IsDigits(tokens[i])
    ensures AddTokens(operands, tokens, n).Err? ==> AddTokens(operands, tokens, n).failure == IndexOutOfBounds
    ensures AddTokens(operands, tokens, n).Ok? ==> |AddTokens(operands, tokens, n).value| == |operands|
  {
    if n > 0 {
      AddTokensFails(operands, tokens, n - 1);
      if AddTokens(operands, tokens, n - 1).Err? {
        var i :| |operands| <= i < n - 1 && IsDigits(tokens[i]);
        assert |operands| <= i < n && IsDigits(tokens[i]);
      } else if AddTokens(operands, tokens, n).Err? {
        assert |operands| <= n - 1 < n && IsDigits(tokens[n - 1]);
      } else {
        assert forall i :: |operands| <= i < n - 1 ==> !IsDigits(tokens[i]);
        assert n - 1 < |operands| || !IsDigits(tokens[n - 1]);
      }
    }
  }

  /** Otherwise the loop appends each numeric token to the column of its own index. */
  lemma {:induction false} AddTokensColumns(operands: seq<seq<int>>, tokens: seq<string>, n: nat)
    requires n <= |tokens| && AddTokens(operands, tokens, n).Ok?
    ensures |AddTokens(operands, tokens, n).value| == |operands|
    ensures forall j :: 0 <= j < |operands| ==> AddTokens(operands, tokens, n).value[j] == Appended(operands[j], tokens, j, n)
  {
    if n > 0 {
      AddTokensColumns(operands, tokens, n - 1);
      var previous := AddTokens(operands, tokens, n - 1).value;
      forall j | 0 <= j < |operands|
        ensures AddTokens(operands, tokens, n).value[j] == Appended(operands[j], tokens, j, n)
      {
        AppendedNext(operands[j], tokens, j, n - 1);
      }
    }
  }

  /** `parseRow`: one pass over the tokens, appending the numeric ones to their columns. */
  method ParseRow(row: string, operands: seq<seq<int>>) returns (r: Result<seq<seq<int>>>)
    ensures r == AddRow(operands, row)
  {
    var rowSplit := RowTokens(row);
    var columns := operands;
    for i := 0 to |rowSplit|
      invariant AddTokens(operands, rowSplit, i) == Ok(columns)
    {
      var token := rowSplit[i];
      if IsDigits(token) {
        if i >= |columns| {
          r := Err(IndexOutOfBounds);
          assert r == AddTokens(operands, rowSplit, |rowSplit|) by {
            AddTokensFailed(operands, rowSplit, i + 1, |rowSplit|);
          }
          AddTokensIsAddRow(operands, row);
          return;
        }
        columns := columns[i := columns[i] + [ParseNat(token)]];
      }
    }
    AddTokensIsAddRow(operands, row);
    return Ok(columns);
  }

  lemma {:induction false} AddTokensFailed(operands: seq<seq<int>>, tokens: seq<string>, i: nat, n: nat)
    requires i <= n <= |tokens| && AddTokens(operands, tokens, i).Err?
    ensures AddTokens(operands, tokens, n) == AddTokens(operands, tokens, i)
    decreases n
  {
    if i < n {
      AddTokensFailed(operands, tokens, i, n - 1);
    }
  }

  lemma AddTokensIsAddRow(operands: seq<seq<int>>, row: string)
    ensures AddTokens(operands, RowTokens(row), |RowTokens(row)|) == AddRow(operands, row)
  {
    var tokens := RowTokens(row);
    AddTokensFails(operands, tokens, |tokens|);
    if AddTokens(operands, tokens, |tokens|).Ok? {
      AddTokensColumns(operands, tokens, |tokens|);
      assert AddTokens(operands, tokens, |tokens|).value ==
        seq(|operands|, j requires 0 <= j < |operands| => Appended(operands[j], tokens, j, |tokens|));
    }
  }

  /** `parseRow` over the rows in order, stopping at the first failure. */
  function AddRows(operands: seq<seq<int>>, rows: seq<string>): Result<seq<seq<int>>>
  {
    if rows == [] then Ok(operands)
    else
      match AddRows(operands, rows[..|rows| - 1])
      case Err(f) => Err(f)
      case Ok(columns) => AddRow(columns, rows[|rows| - 1])
  }

  /** The number of problems: the tokens of the first row, split without trimming. */
  function ProblemCount(workSheet: seq<string>): nat
    requires workSheet != []
  {
    |SplitWhitespace(workSheet[0])|
  }

  function EmptyColumns(n: nat): (c: seq<seq<int>>)
    ensures |c| == n && forall i :: 0 <= i < n ==> c[i] == []
  {
    seq(n, i => [])
  }

  /** Part one's answer, or the failure the worksheet causes. */
  function PartOne(workSheet: seq<string>): Result<int>
  {
    if workSheet == [] then Err(NoSuchElement)
    else
      match AddRows(EmptyColumns(ProblemCount(workSheet)), workSheet)
      case Err(f) => Err(f)
      case Ok(operands) => Total(SplitWhitespace(workSheet[|workSheet| - 1]), operands)
  }

  /** `solvePartOne`: parse every row into the columns, then apply the operators. */
  method SolvePartOne(workSheet: seq<string>) returns (r: Result<int>)
    ensures r == PartOne(workSheet)
  {
    if workSheet == [] {
      return Err(NoSuchElement);
    }
    var amountOfProblems := |SplitWhitespace(workSheet[0])|;
    var operands := InitEmptyLists(amountOfProblems);
    assert operands == EmptyColumns(amountOfProblems);
    for i := 0 to |workSheet|
      invariant AddRows(EmptyColumns(amountOfProblems), workSheet[..i]) == Ok(operands)
    {
      assert workSheet[..i + 1][..i] == workSheet[..i];
      var parsed := ParseRow(workSheet[i], operands);
      if parsed.Err? {
        AddRowsPrefixFails(EmptyColumns(amountOfProblems), workSheet, i + 1);
        return Err(parsed.failure);
      }
      operands := parsed.value;
    }
    assert workSheet[..|workSheet|] == workSheet;
    r := ApplyOperators(SplitWhitespace(workSheet[|workSheet| - 1]), operands);
  }

  lemma {:induction false} AddRowsPrefixFails(operands: seq<seq<int>>, rows: seq<string>, i: nat)
    requires 0 < i <= |rows| && AddRows(operands, rows[..i]).Err?
    ensures AddRows(operands, rows) == AddRows(operands, rows[..i])
  {
    if i < |rows| {
      assert rows[..|rows| - 1][..i] == rows[..i];
      AddRowsPrefixFails(operands, rows[..|rows| - 1], i);
    } else {
      assert rows[..i] == rows;
    }
  }

  // ---------------------------------------------------------------------------
  // Part two: character columns read right to left

  /** The characters the operator row is split on to measure the columns. */
  const OPERATOR_CHARS: set<char> := {'+', '*'}

  /** The rows that hold digits: all but the last, which holds the operators. */
  function NumberRows(workSheet: seq<string>): seq<string>
  {
    if workSheet == [] then [] else workSheet[..|workSheet| - 1]
  }

  /** Every row is long enough to have a character at `offset`. */
  predicate Reaches(rows: seq<string>, offset: nat)
  {
    forall r :: 0 <= r < |rows| ==> offset < |rows[r]|
  }

  /** The characters at `offset`, top to bottom: the `StringBuilder` of one offset. */
  function CharColumn(rows: seq<string>, offset: nat): (c: string)
    requires Reaches(rows, offset)
    ensures |c| == |rows|
  {
    seq(|rows|, r requires 0 <= r < |rows| => rows[r][offset])
  }

  /** One offset of a column: the characters gathered there, then interpreted. */
  function ReadOffset(rows: seq<string>, offset: nat): Result<Option<int>>
  {
    Interpret(Gather(rows, offset))
  }

  /** The characters at `offset`, or nothing when some row is too short to have one. */
  function Gather(rows: seq<string>, offset: nat): Option<string>
  {
    if Reaches(rows, offset) then Some(CharColumn(rows, offset)) else None
  }

  /**
   * A failure when a row was too short, nothing when the characters are blank, otherwise
   * the number they spell once trimmed (a failure when they do not spell one).
   */
  function Interpret(chars: Option<string>): Result<Option<int>>
  {
    match chars
    case None => Err(IndexOutOfBounds)
    case Some(c) =>
      var number := Trim(c);
      if number == [] then Ok(None)
      else
        match ParseLong(number)
        case None => Err(MalformedInput)
        case Some(v) => Ok(Some(v))
  }

  /** The number an offset contributes, as a sequence of zero or one elements. */
  function Listed(v: Option<int>): (s: seq<int>)
    ensures |s| <= 1
  {
    if v.Some? then [v.value] else []
  }

  /** `acc` followed by the numbers of `result`, or the failure of `result`. */
  function Then(acc: seq<int>, result: Result<seq<int>>): Result<seq<int>>
  {
    match result
    case Err(f) => Err(f)
    case Ok(rest) => Ok(acc + rest)
  }

  /** What each of the `k` offsets starting at `position` reads, the highest offset first. */
  function Readings(rows: seq<string>, position: nat, k: nat): (r: seq<Result<Option<int>>>)
    ensures |r| == k
  {
    seq(k, i requires 0 <= i < k => ReadOffset(rows, position + k - 1 - i))
  }

  /** The numbers of a column's readings in order; the first failing reading decides the failure. */
  function Collect(readings: seq<Result<Option<int>>>): Result<seq<int>>
  {
    if readings == [] then Ok([])
    else
      match readings[0]
      case Err(f) => Err(f)
      case Ok(v) => Then(Listed(v), Collect(readings[1..]))
  }

  /** The numbers of the `k` offsets starting at `position`, read from the highest offset down. */
  function ReadColumn(rows: seq<string>, position: nat, k: nat): Result<seq<int>>
  {
    Collect(Readings(rows, position, k))
  }

  lemma ThenThen(acc: seq<int>, v: seq<int>, result: Result<seq<int>>)
    ensures Then(acc, Then(v, result)) == Then(acc + v, result)
  {
    if result.Ok? {
      assert acc + (v + result.value) == (acc + v) + result.value;
    }
  }

  /** `list` with its entry `index` replaced by the numbers of `column`, or the failure of `column`. */
  function Store(list: seq<seq<int>>, index: nat, column: Result<seq<int>>): Result<seq<seq<int>>>
    requires index < |list|
  {
    match column
    case Err(f) => Err(f)
    case Ok(numbers) => Ok(list[index := numbers])
  }

  /** Collecting after `acc`: the first reading, then the rest. */
  lemma CollectStep(acc: seq<int>, readings: seq<Result<Option<int>>>)
    requires readings != []
    ensures readings[0].Err? ==> Then(acc, Collect(readings)) == Err(readings[0].failure)
    ensures readings[0].Ok? ==>
      Then(acc, Collect(readings)) == Then(acc + Listed(readings[0].value), Collect(readings[1..]))
  {
    if readings[0].Ok? {
      ThenThen(acc, Listed(readings[0].value), Collect(readings[1..]));
    }
  }

  /** Reading `k + 1` offsets after `acc`: the highest offset first, then the `k` below it. */
  lemma ReadColumnStep(rows: seq<string>, position: nat, k: nat, acc: seq<int>, offset: Result<Option<int>>)
    requires offset == ReadOffset(rows, position + k)
    ensures offset.Err? ==> Then(acc, ReadColumn(rows, position, k + 1)) == Err(offset.failure)
    ensures offset.Ok? ==>
      Then(acc, ReadColumn(rows, position, k + 1)) == Then(acc + Listed(offset.value), ReadColumn(rows, position, k))
  {
    var readings := Readings(rows, position, k + 1);
    assert readings[0] == offset;
    assert readings[1..] == Readings(rows, position, k);
    CollectStep(acc, readings);
  }

  /** The inner loop of `constructNumbers`: the character at `offset` of every row but the last. */
  method ReadChars(workSheet: seq<string>, offset: nat) returns (r: Result<string>)
    ensures r == if Reaches(NumberRows(workSheet), offset) then Ok(CharColumn(NumberRows(workSheet), offset))
                 else Err(IndexOutOfBounds)
  {
    ghost var rows := NumberRows(workSheet);
    var number := "";
    var rowIndex := 0;
    while rowIndex < |workSheet| - 1
      invariant rowIndex <= |rows|
      invariant forall k :: 0 <= k < rowIndex ==> offset < |rows[k]|
      invariant |number| == rowIndex
      invariant forall k :: 0 <= k < rowIndex ==> number[k] == rows[k][offset]
    {
      if offset >= |workSheet[rowIndex]| {
        assert rows[rowIndex] == workSheet[rowIndex];
        return Err(IndexOutOfBounds);
      }
      number := number + [workSheet[rowIndex][offset]];
      rowIndex := rowIndex + 1;
    }
    assert rowIndex == |rows|;
    assert number == CharColumn(rows, offset);
    return Ok(number);
  }

  /** One offset of `constructNumbers`: its characters gathered, trimmed and parsed. */
  method ReadNumber(workSheet: seq<string>, offset: nat) returns (r: Result<Option<int>>)
    ensures r == ReadOffset(NumberRows(workSheet), offset)
  {
    var number := ReadChars(workSheet, offset);
    if number.Err? {
      return Err(IndexOutOfBounds);
    }
    var trimmed := Trim(number.value);
    if trimmed == [] {
      return Ok(None);
    }
    if !IsDigits(trimmed) {
      return Err(MalformedInput);
    }
    return Ok(Some(ParseNat(trimmed)));
  }

  /** `constructNumbers`: the numbers of one column appended, right to left, to its list. */
  method ConstructNumbers(workSheet: seq<string>, operands: seq<seq<int>>, columnIndex: nat,
                          columnPosition: nat, columnSize: nat) returns (r: Result<seq<seq<int>>>)
    requires columnIndex < |operands|
    ensures r == Store(operands, columnIndex,
                       Then(operands[columnIndex], ReadColumn(NumberRows(workSheet), columnPosition, columnSize)))
  {
    ghost var rows := NumberRows(workSheet);
    ghost var goal := Then(operands[columnIndex], ReadColumn(rows, columnPosition, columnSize));
    var column := operands[columnIndex];
    var indexInColumn: nat := columnSize;
    while indexInColumn > 0
      invariant indexInColumn <= columnSize
      invariant Then(column, ReadColumn(rows, columnPosition, indexInColumn)) == goal
    {
      indexInColumn := indexInColumn - 1;
      var offset := columnPosition + indexInColumn;
      var number := ReadNumber(workSheet, offset);
      ReadColumnStep(rows, columnPosition, indexInColumn, column, number);
      if number.Err? {
        assert goal == Err(number.failure);
        return Err(number.failure);
      }
      column := column + Listed(number.value);
    }
    assert ReadColumn(rows, columnPosition, 0) == Ok([]);
    assert column + [] == column;
    assert goal == Ok(column);
    return Ok(operands[columnIndex := column]);
  }

  /** An offset contributes nothing exactly when every row reaches it with a blank character there. */
  lemma BlankOffsetSkipped(rows: seq<string>, offset: nat)
    ensures ReadOffset(rows, offset) == Ok(None) <==>
      Reaches(rows, offset) && forall r :: 0 <= r < |rows| ==> IsTrimmed(rows[r][offset])
  {
    if Reaches(rows, offset) {
      var chars := CharColumn(rows, offset);
      assert forall r :: 0 <= r < |rows| ==> chars[r] == rows[r][offset];
    }
  }

  /** Every reading yields at most one number. */
  lemma {:induction false} CollectLength(readings: seq<Result<Option<int>>>)
    ensures Collect(readings).Ok? ==> |Collect(readings).value| <= |readings|
  {
    if readings != [] {
      CollectLength(readings[1..]);
    }
  }

  /** A failure of the column is the failure of one of its readings. */
  lemma {:induction false} CollectFailure(readings: seq<Result<Option<int>>>)
    ensures Collect(readings).Err? ==> exists i :: 0 <= i < |readings| && readings[i] == Err(Collect(readings).failure)
  {
    if readings != [] && readings[0].Ok? {
      CollectFailure(readings[1..]);
      if Collect(readings).Err? {
        var i :| 0 <= i < |readings[1..]| && readings[1..][i] == Err(Collect(readings).failure);
        assert readings[i + 1] == readings[1..][i];
      }
    }
  }

  /** A column reads at most one number per offset. */
  lemma ReadColumnLength(rows: seq<string>, position: nat, k: nat)
    ensures ReadColumn(rows, position, k).Ok? ==> |ReadColumn(rows, position, k).value| <= k
  {
    CollectLength(Readings(rows, position, k));
  }

  /** An offset fails with an index error exactly when some row is too short to reach it. */
  lemma ReadOffsetTooShort(rows: seq<string>, offset: nat)
    ensures ReadOffset(rows, offset) == Err(IndexOutOfBounds) <==> !Reaches(rows, offset)
  {
    if Reaches(rows, offset) {
      assert Gather(rows, offset) == Some(CharColumn(rows, offset));
    }
  }

  /** Reading starts at the highest offset, so a row too short for it fails the column at once. */
  lemma ReadColumnTooShort(rows: seq<string>, position: nat, k: nat)
    ensures ReadColumn(rows, position, k) == Err(IndexOutOfBounds) <==> k > 0 && !Reaches(rows, position + k - 1)
  {
    var readings := Readings(rows, position, k);
    if k > 0 && !Reaches(rows, position + k - 1) {
      ReadOffsetTooShort(rows, position + k - 1);
      assert readings[0] == ReadOffset(rows, position + k - 1);
    } else if k > 0 {
      CollectFailure(readings);
      forall i | 0 <= i < k ensures readings[i] != Err(IndexOutOfBounds) {
        ReadingReached(rows, position, k, i);
      }
    }
  }

  lemma ReadingReached(rows: seq<string>, position: nat, k: nat, i: nat)
    requires i < k && Reaches(rows, position + k - 1)
    ensures Readings(rows, position, k)[i] != Err(IndexOutOfBounds)
  {
    var offset := position + k - 1 - i;
    assert Reaches(rows, offset) by {
      forall r | 0 <= r < |rows| ensures offset < |rows[r]| {
        assert position + k - 1 < |rows[r]|;
      }
    }
    ReadOffsetTooShort(rows, offset);
  }

  // ---------------------------------------------------------------------------
  // Part two: the columns side by side

  /** The last row, which holds the operators; `getLast()` fails on an empty worksheet. */
  function LastRow(workSheet: seq<string>): Option<string>
  {
    if workSheet == [] then None else Some(workSheet[|workSheet| - 1])
  }

  /**
   * `parseColumns` over the first `n` columns: the lists with the numbers of those columns
   * appended, and the offset where the next column starts. Column i is one character wider
   * than the (i+1)-th piece of the operator row split on the operators.
   */
  function ColumnsUpTo(operands: seq<seq<int>>, workSheet: seq<string>, n: nat): (r: Result<(seq<seq<int>>, nat)>)
    requires n <= |operands|
    ensures r.Ok? ==> |r.value.0| == |operands|
  {
    if n == 0 then Ok((operands, 0))
    else
      match ColumnsUpTo(operands, workSheet, n - 1)
      case Err(f) => Err(f)
      case Ok((columns, position)) =>
        if LastRow(workSheet).None? then Err(NoSuchElement)
        else
          var pieces := SplitOn(LastRow(workSheet).value, OPERATOR_CHARS);
          if n >= |pieces| then Err(IndexOutOfBounds)
          else
            var width := |pieces[n]| + 1;
            match Store(columns, n - 1, Then(columns[n - 1], ReadColumn(NumberRows(workSheet), position, width)))
            case Err(f) => Err(f)
            case Ok(updated) => Ok((updated, position + width))
  }

  lemma {:induction false} ColumnsFailed(operands: seq<seq<int>>, workSheet: seq<string>, i: nat, n: nat)
    requires i <= n <= |operands| && ColumnsUpTo(operands, workSheet, i).Err?
    ensures ColumnsUpTo(operands, workSheet, n) == ColumnsUpTo(operands, workSheet, i)
    decreases n
  {
    if i < n {
      ColumnsFailed(operands, workSheet, i, n - 1);
    }
  }

  /** One more column: the failures that can stop it, or the lists and offset after it. */
  lemma ColumnsNext(operands: seq<seq<int>>, workSheet: seq<string>, i: nat, columns: seq<seq<int>>, position: nat)
    requires i < |operands| && ColumnsUpTo(operands, workSheet, i) == Ok((columns, position))
    ensures workSheet == [] ==> ColumnsUpTo(operands, workSheet, i + 1) == Err(NoSuchElement)
    ensures workSheet != [] && i + 1 >= |OperatorPieces(workSheet)| ==>
      ColumnsUpTo(operands, workSheet, i + 1) == Err(IndexOutOfBounds)
    ensures workSheet != [] && i + 1 < |OperatorPieces(workSheet)| ==>
      var width := Width(OperatorPieces(workSheet), i);
      var read := ReadColumn(NumberRows(workSheet), position, width);
      && (read.Err? ==> ColumnsUpTo(operands, workSheet, i + 1) == Err(read.failure))
      && (read.Ok? ==> ColumnsUpTo(operands, workSheet, i + 1) == Ok((columns[i := columns[i] + read.value], position + width)))
  {
  }

  /** `parseColumns`: every column read at the offset where the previous one ended. */
  method ParseColumns(workSheet: seq<string>, operands: seq<seq<int>>, amountOfColumns: nat)
    returns (r: Result<seq<seq<int>>>)
    requires amountOfColumns <= |operands|
    ensures r.Ok? <==> ColumnsUpTo(operands, workSheet, amountOfColumns).Ok?
    ensures r.Ok? ==> r.value == ColumnsUpTo(operands, workSheet, amountOfColumns).value.0
    ensures r.Err? ==> r.failure == ColumnsUpTo(operands, workSheet, amountOfColumns).failure
  {
    var currentPosition := 0;
    var columns := operands;
    for i := 0 to amountOfColumns
      invariant ColumnsUpTo(operands, workSheet, i) == Ok((columns, currentPosition))
    {
      ColumnsNext(operands, workSheet, i, columns, currentPosition);
      if workSheet == [] {
        ColumnsFailed(operands, workSheet, i + 1, amountOfColumns);
        return Err(NoSuchElement);
      }
      var pieces := SplitOn(workSheet[|workSheet| - 1], OPERATOR_CHARS);
      if i + 1 >= |pieces| {
        ColumnsFailed(operands, workSheet, i + 1, amountOfColumns);
        return Err(IndexOutOfBounds);
      }
      var columnSize := |pieces[i + 1]| + 1;
      var constructed := ConstructNumbers(workSheet, columns, i, currentPosition, columnSize);
      if constructed.Err? {
        ColumnsFailed(operands, workSheet, i + 1, amountOfColumns);
        return Err(constructed.failure);
      }
      columns := constructed.value;
      currentPosition := currentPosition + columnSize;
    }
    return Ok(columns);
  }

  /** Part two's answer, or the failure the worksheet causes. */
  function PartTwo(workSheet: seq<string>): Result<int>
  {
    if workSheet == [] then Err(NoSuchElement)
    else
      var n := ProblemCount(workSheet);
      match ColumnsUpTo(EmptyColumns(n), workSheet, n)
      case Err(f) => Err(f)
      case Ok((operands, _)) => Total(SplitWhitespace(workSheet[|workSheet| - 1]), operands)
  }

  /** `solvePartTwo`: read the character columns, then apply the operators. */
  method SolvePartTwo(workSheet: seq<string>) returns (r: Result<int>)
    ensures r == PartTwo(workSheet)
  {
    if workSheet == [] {
      return Err(NoSuchElement);
    }
    var amountOfProblems := |SplitWhitespace(workSheet[0])|;
    var operands := InitEmptyLists(amountOfProblems);
    assert operands == EmptyColumns(amountOfProblems);
    var parsed := ParseColumns(workSheet, operands, amountOfProblems);
    if parsed.Err? {
      return Err(parsed.failure);
    }
    r := ApplyOperators(SplitWhitespace(workSheet[|workSheet| - 1]), parsed.value);
  }

  // ---------------------------------------------------------------------------
  // The column layout of part two

  /** The pieces of the operator row between the operators. */
  function OperatorPieces(workSheet: seq<string>): seq<string>
    requires workSheet != []
  {
    SplitOn(workSheet[|workSheet| - 1], OPERATOR_CHARS)
  }

  /** The width of column i: the blanks after its operator, plus the operator itself. */
  function Width(pieces: seq<string>, i: nat): (w: nat)
    requires i + 1 < |pieces|
    ensures w >= 1
  {
    |pieces[i + 1]| + 1
  }

  /** The offset where column i starts: the widths of the columns before it added up. */
  function Start(pieces: seq<string>, i: nat): nat
    requires i == 0 || i < |pieces|
  {
    if i == 0 then 0 else Start(pieces, i - 1) + Width(pieces, i - 1)
  }

  /** After `n` columns the operator row has had a piece for each, and the next column starts at `Start(pieces, n)`. */
  lemma {:induction false} ColumnsPosition(operands: seq<seq<int>>, workSheet: seq<string>, n: nat)
    requires workSheet != [] && n <= |operands| && ColumnsUpTo(operands, workSheet, n).Ok?
    ensures n == 0 || n < |OperatorPieces(workSheet)|
    ensures ColumnsUpTo(operands, workSheet, n).value.1 == Start(OperatorPieces(workSheet), n)
  {
    if n > 0 {
      var previous := ColumnsUpTo(operands, workSheet, n - 1);
      assert previous.Ok?;
      ColumnsPosition(operands, workSheet, n - 1);
      ColumnsNext(operands, workSheet, n - 1, previous.value.0, previous.value.1);
    }
  }

  /** Column i read at its own offsets: `Width(pieces, i)` characters from `Start(pieces, i)`. */
  function ColumnRead(workSheet: seq<string>, i: nat): Result<seq<int>>
    requires workSheet != [] && i + 1 < |OperatorPieces(workSheet)|
  {
    ReadColumn(NumberRows(workSheet), Start(OperatorPieces(workSheet), i), Width(OperatorPieces(workSheet), i))
  }

  /** One more column succeeds exactly when the operator row has a piece for it and it reads. */
  lemma ColumnsOkStep(operands: seq<seq<int>>, workSheet: seq<string>, n: nat)
    requires workSheet != [] && 0 < n <= |operands|
    ensures ColumnsUpTo(operands, workSheet, n).Ok? <==>
      ColumnsUpTo(operands, workSheet, n - 1).Ok? && n < |OperatorPieces(workSheet)| && ColumnRead(workSheet, n - 1).Ok?
  {
    var previous := ColumnsUpTo(operands, workSheet, n - 1);
    if previous.Ok? {
      ColumnsPosition(operands, workSheet, n - 1);
      ColumnsNext(operands, workSheet, n - 1, previous.value.0, previous.value.1);
    }
  }

  /**
   * After `n` columns, column i < n holds the numbers read at its own offsets, and a
   * column not reached yet is untouched.
   */
  lemma {:induction false} ColumnsLayout(operands: seq<seq<int>>, workSheet: seq<string>, n: nat, i: nat)
    requires workSheet != [] && n <= |operands| && i < |operands| && ColumnsUpTo(operands, workSheet, n).Ok?
    ensures i < n ==>
      && i + 1 < |OperatorPieces(workSheet)|
      && ColumnRead(workSheet, i).Ok?
      && ColumnsUpTo(operands, workSheet, n).value.0[i] == operands[i] + ColumnRead(workSheet, i).value
    ensures n <= i ==> ColumnsUpTo(operands, workSheet, n).value.0[i] == operands[i]
  {
    if n > 0 {
      ColumnsStep(operands, workSheet, n);
      ColumnsLayout(operands, workSheet, n - 1, i);
      var previous, current := ColumnsUpTo(operands, workSheet, n - 1).value.0, ColumnsUpTo(operands, workSheet, n).value.0;
      if i == n - 1 {
        assert current[i] == previous[i] + ColumnRead(workSheet, i).value;
      } else {
        assert current[i] == previous[i];
      }
    }
  }

  /** A successful column n - 1 appends its own read to the lists before it. */
  lemma ColumnsStep(operands: seq<seq<int>>, workSheet: seq<string>, n: nat)
    requires workSheet != [] && 0 < n <= |operands| && ColumnsUpTo(operands, workSheet, n).Ok?
    ensures ColumnsUpTo(operands, workSheet, n - 1).Ok? && n < |OperatorPieces(workSheet)|
    ensures ColumnRead(workSheet, n - 1).Ok?
    ensures var columns := ColumnsUpTo(operands, workSheet, n - 1).value.0;
      ColumnsUpTo(operands, workSheet, n).value.0 == columns[n - 1 := columns[n - 1] + ColumnRead(workSheet, n - 1).value]
  {
    var previous := ColumnsUpTo(operands, workSheet, n - 1);
    assert previous.Ok?;
    ColumnsPosition(operands, workSheet, n - 1);
    ColumnsNext(operands, workSheet, n - 1, previous.value.0, previous.value.1);
  }

  /** The columns succeed exactly when the operator row has a piece for each and each of them reads. */
  lemma {:induction false} ColumnsSucceed(operands: seq<seq<int>>, workSheet: seq<string>, n: nat)
    requires workSheet != [] && n <= |operands|
    ensures ColumnsUpTo(operands, workSheet, n).Ok? <==>
      (n == 0 || n < |OperatorPieces(workSheet)|) && forall i :: 0 <= i < n ==> ColumnRead(workSheet, i).Ok?
  {
    if n > 0 {
      ColumnsSucceed(operands, workSheet, n - 1);
      ColumnsOkStep(operands, workSheet, n);
      if n < |OperatorPieces(workSheet)| && forall i :: 0 <= i < n ==> ColumnRead(workSheet, i).Ok? {
        assert ColumnRead(workSheet, n - 1).Ok?;
        assert forall i :: 0 <= i < n - 1 ==> ColumnRead(workSheet, i).Ok?;
      }
    }
  }

  /** Columns never overlap: each one ends at or before the start of any later one. */
  lemma {:induction false} ColumnsApart(pieces: seq<string>, i: nat, j: nat)
    requires i < j < |pieces|
    ensures Start(pieces, i) + Width(pieces, i) <= Start(pieces, j)
  {
    if i + 1 < j {
      ColumnsApart(pieces, i, j - 1);
    }
  }

  // ---------------------------------------------------------------------------
  // The columns of part one

  /** The numbers column j receives from the rows, top to bottom: each row's numeric j-th token. */
  function TokenColumn(rows: seq<string>, j: nat): seq<int>
  {
    if rows == [] then []
    else
      var tokens := RowTokens(rows[|rows| - 1]);
      TokenColumn(rows[..|rows| - 1], j) + if j < |tokens| && IsDigits(tokens[j]) then [ParseNat(tokens[j])] else []
  }

  /** Parsing the rows fails exactly when some row has a numeric token beyond the last column. */
  lemma AddRowsFails(operands: seq<seq<int>>, rows: seq<string>)
    ensures AddRows(operands, rows).Err? <==> exists r :: 0 <= r < |rows| && Overflows(|operands|, rows[r])
    ensures AddRows(operands, rows).Ok? ==> |AddRows(operands, rows).value| == |operands|
  {
    AddRowsOverflow(operands, rows);
    SomeRowOverflows(|operands|, rows);
  }

  /** Some row, the last or one before it, overflows the columns. */
  predicate AnyOverflows(columns: nat, rows: seq<string>)
  {
    rows != [] && (AnyOverflows(columns, rows[..|rows| - 1]) || Overflows(columns, rows[|rows| - 1]))
  }

  lemma {:induction false} AddRowsOverflow(operands: seq<seq<int>>, rows: seq<string>)
    ensures AddRows(operands, rows).Err? <==> AnyOverflows(|operands|, rows)
    ensures AddRows(operands, rows).Ok? ==> |AddRows(operands, rows).value| == |operands|
  {
    if rows != [] {
      AddRowsOverflow(operands, rows[..|rows| - 1]);
    }
  }

  lemma {:induction false} SomeRowOverflows(columns: nat, rows: seq<string>)
    ensures AnyOverflows(columns, rows) <==> exists r :: 0 <= r < |rows| && Overflows(columns, rows[r])
  {
    if rows != [] {
      var front := rows[..|rows| - 1];
      SomeRowOverflows(columns, front);
      if AnyOverflows(columns, front) {
        var r :| 0 <= r < |front| && Overflows(columns, front[r]);
        assert rows[r] == front[r];
      } else if !Overflows(columns, rows[|rows| - 1]) {
        forall r | 0 <= r < |rows| ensures !Overflows(columns, rows[r]) {
          if r < |front| {
            assert rows[r] == front[r];
          }
        }
      }
    }
  }

  /** Otherwise column j receives the numeric j-th tokens of the rows, top to bottom. */
  lemma {:induction false} AddRowsColumns(operands: seq<seq<int>>, rows: seq<string>, j: nat)
    requires AddRows(operands, rows).Ok? && j < |operands|
    ensures |AddRows(operands, rows).value| == |operands|
    ensures AddRows(operands, rows).value[j] == operands[j] + TokenColumn(rows, j)
  {
    AddRowsOverflow(operands, rows);
    if rows == [] {
      assert operands[j] + [] == operands[j];
    } else {
      var front := rows[..|rows| - 1];
      var tokens := RowTokens(rows[|rows| - 1]);
      AddRowsOverflow(operands, front);
      AddRowsColumns(operands, front, j);
      var columns := AddRows(operands, front).value;
      var added := if j < |tokens| && IsDigits(tokens[j]) then [ParseNat(tokens[j])] else [];
      assert AddRows(operands, rows).value[j] == columns[j] + added;
      assert operands[j] + TokenColumn(front, j) + added == operands[j] + (TokenColumn(front, j) + added);
    }
  }

  /** The operator row adds nothing to the columns: none of its tokens is a number. */
  lemma OperatorRowAddsNothing(operands: seq<seq<int>>, row: string)
    requires forall i :: 0 <= i < |RowTokens(row)| ==> IsOperator(RowTokens(row)[i])
    ensures AddRow(operands, row) == Ok(operands)
  {
    var tokens := RowTokens(row);
    forall i | 0 <= i < |tokens| ensures !IsDigits(tokens[i]) {
      OperatorIsNoNumber(tokens[i]);
    }
    assert !Overflows(|operands|, row);
    forall j | 0 <= j < |operands| ensures Appended(operands[j], tokens, j, |tokens|) == operands[j] {
    }
    assert seq(|operands|, j requires 0 <= j < |operands| => Appended(operands[j], tokens, j, |tokens|)) == operands;
  }

  lemma OperatorIsNoNumber(token: string)
    requires IsOperator(token)
    ensures !IsDigits(token)
  {
    assert token[0] == '+' || token[0] == '*';
  }

  // ---------------------------------------------------------------------------
  // The worksheet of the puzzle statement

  lemma Three(a: int, b: int, c: int)
    ensures Sum([a, b, c]) == a + b + c && Product([a, b, c]) == a * b * c
  {
    assert [a, b, c][..2] == [a, b] && [a, b][..1] == [a] && [a][..0] == [];
    assert Sum([a]) == a && Product([a]) == a;
    assert Sum([a, b]) == a + b && Product([a, b]) == a * b;
  }

  lemma Four(a: int, b: int, c: int, d: int)
    ensures Sum([a, b, c, d]) == a + b + c + d
  {
    assert [a, b, c, d][..3] == [a, b, c];
    Three(a, b, c);
  }

  /** Part one reads the columns 123 45 6, 328 64 98, 51 387 215 and 64 23 314. */
  lemma ExamplePartOne()
    ensures Total(["*", "+", "*", "+"], [[123, 45, 6], [328, 64, 98], [51, 387, 215], [64, 23, 314]]) == Ok(4277556)
  {
    var operands := [[123, 45, 6], [328, 64, 98], [51, 387, 215], [64, 23, 314]];
    var c := Contributions(["*", "+", "*", "+"], operands);
    Three(123, 45, 6);
    Three(328, 64, 98);
    Three(51, 387, 215);
    Three(64, 23, 314);
    assert c == [33210, 490, 4243455, 401];
    Four(33210, 490, 4243455, 401);
  }

  /** Part two reads the same worksheet right to left: 356 24 1, 8 248 369, 175 581 32 and 4 431 623. */
  lemma ExamplePartTwo()
    ensures Total(["*", "+", "*", "+"], [[356, 24, 1], [8, 248, 369], [175, 581, 32], [4, 431, 623]]) == Ok(3263827)
  {
    var operands := [[356, 24, 1], [8, 248, 369], [175, 581, 32], [4, 431, 623]];
    var c := Contributions(["*", "+", "*", "+"], operands);
    Three(356, 24, 1);
    Three(8, 248, 369);
    Three(175, 581, 32);
    Three(4, 431, 623);
    assert c == [8544, 625, 3253600, 1058];
    Four(8544, 625, 3253600, 1058);
  }
}
