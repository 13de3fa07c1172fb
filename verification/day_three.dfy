/**
 * Day three: every line is a bank of batteries, one digit each. Part one switches on two
 * batteries and part two twelve; the joltage is the number their digits spell in bank
 * order, and the answer is the sum over all banks of the highest joltage the solver finds.
 * The solver searches greedily: the highest digit that still leaves room for the batteries
 * after it, at its first occurrence, then the same again behind it.
 */
module DayThree {
  import opened Common
  import opened JavaText

  // ---------------------------------------------------------------------------
  // Digits in a bank

  /** `String.indexOf(char)`: the first position of `c`, or -1. */
  function IndexOf(s: string, c: char): (r: int)
    ensures -1 <= r < |s|
    ensures r >= 0 ==> s[r] == c
  {
    if s == [] then -1
    else if s[0] == c then 0
    else
      var r := IndexOf(s[1..], c);
      if r == -1 then -1 else r + 1
  }

  /** `indexOf` finds the first occurrence: it is not -1, and not past any position holding `c`. */
  lemma {:induction false} IndexOfIsFirst(s: string, c: char, q: int)
    ensures 0 <= q < |s| && s[q] == c ==> 0 <= IndexOf(s, c) <= q
  {
    if 0 <= q < |s| && s[q] == c && s[0] != c {
      assert s[1..][q - 1] == c;
      IndexOfIsFirst(s[1..], c, q - 1);
    }
  }

  /** A battery's joltage: a digit from 1 to 9. */
  predicate IsBattery(c: char) { '1' <= c <= '9' }

  predicate AllBatteries(s: string) { forall p :: 0 <= p < |s| ==> IsBattery(s[p]) }

  /** The highest digit of a non-empty digit string. */
  function MaxDigit(s: string): (d: nat)
    requires |s| > 0 && AllDigits(s)
    ensures d < 10
  {
    if |s| == 1 then DigitValue(s[0])
    else
      var m := MaxDigit(s[..|s| - 1]);
      if DigitValue(s[|s| - 1]) > m then DigitValue(s[|s| - 1]) else m
  }

  /** No digit of `s` is above its highest digit. */
  lemma {:induction false} MaxDigitIsMax(s: string, q: int)
    requires |s| > 0 && AllDigits(s)
    ensures 0 <= q < |s| ==> DigitValue(s[q]) <= MaxDigit(s)
  {
    if 0 <= q < |s| - 1 {
      assert s[..|s| - 1][q] == s[q];
      MaxDigitIsMax(s[..|s| - 1], q);
    }
  }

  /** The highest digit occurs in `s`. */
  lemma {:induction false} MaxDigitOccurs(s: string)
    requires |s| > 0 && AllDigits(s)
    ensures exists p :: 0 <= p < |s| && DigitValue(s[p]) == MaxDigit(s)
  {
    if |s| == 1 {
      assert DigitValue(s[0]) == MaxDigit(s);
    } else if DigitValue(s[|s| - 1]) > MaxDigit(s[..|s| - 1]) {
      assert DigitValue(s[|s| - 1]) == MaxDigit(s);
    } else {
      MaxDigitOccurs(s[..|s| - 1]);
      var p :| 0 <= p < |s| - 1 && DigitValue(s[..|s| - 1][p]) == MaxDigit(s[..|s| - 1]);
      assert s[..|s| - 1][p] == s[p];
    }
  }

  lemma DigitRoundTrip(c: char)
    requires IsDigit(c)
    ensures DigitChar(DigitValue(c)) == c
  {
  }

  // ---------------------------------------------------------------------------
  // Part one

  /** `findHighestSecondBattery`: the first digit from `nrToFind` down to 1 that occurs in the sub-bank. */
  function HighestSecondBattery(subBank: string, nrToFind: int): (r: Result<char>)
    requires nrToFind <= 9
    ensures r.Err? ==> r.failure == NoBatteryFound
    decreases nrToFind
  {
    if nrToFind < 1 then Err(NoBatteryFound)
    else
      var index := IndexOf(subBank, DigitChar(nrToFind));
      if index != -1 then Ok(subBank[index])
      else HighestSecondBattery(subBank, nrToFind - 1)
  }

  /** A digit from 1 to `n`. */
  predicate IsBatteryUpTo(c: char, n: int) { '1' <= c && c as int - '0' as int <= n }

  /**
   * The second-battery search succeeds exactly when the sub-bank holds a digit from 1 to
   * `nrToFind`, and then returns the highest such digit, which occurs in the sub-bank.
   */
  lemma {:induction false} SecondBatteryIsHighest(subBank: string, nrToFind: int)
    requires nrToFind <= 9
    ensures var r := HighestSecondBattery(subBank, nrToFind);
      (r.Ok? <==> exists p :: 0 <= p < |subBank| && IsBatteryUpTo(subBank[p], nrToFind)) &&
      (r.Ok? ==> r.value in subBank && IsBatteryUpTo(r.value, nrToFind)) &&
      (r.Ok? ==> forall p :: 0 <= p < |subBank| && IsBatteryUpTo(subBank[p], nrToFind) ==>
        subBank[p] <= r.value)
    decreases nrToFind
  {
    if nrToFind >= 1 && IndexOf(subBank, DigitChar(nrToFind)) == -1 {
      forall q | 0 <= q < |subBank|
        ensures subBank[q] != DigitChar(nrToFind)
      {
        IndexOfIsFirst(subBank, DigitChar(nrToFind), q);
      }
      SecondBatteryIsHighest(subBank, nrToFind - 1);
    }
  }

  /** `Integer.parseInt(first + second)`: a number followed by one more digit. */
  function AppendDigit(first: nat, second: char): (r: nat)
    requires IsDigit(second)
    ensures r == 10 * first + DigitValue(second)
  {
    ParseAppend(Decimal(first), [second]);
    assert [second][..0] == [];
    ParseNat(Decimal(first) + [second])
  }

  /**
   * `findHighestJoltage`: the highest digit from 1 to `nrToFind` whose first occurrence is
   * not the bank's last character, followed by the highest digit after that occurrence,
   * read as a two-digit number.
   */
  function HighestJoltage(bank: string, nrToFind: int): (r: Result<nat>)
    requires nrToFind <= 9
    ensures |bank| < 2 ==> r.Err?
    ensures r.Err? ==> r.failure == NoBatteryFound
    decreases nrToFind
  {
    if nrToFind < 1 then Err(NoBatteryFound)
    else
      var index := IndexOf(bank, DigitChar(nrToFind));
      if index != -1 && index + 1 < |bank| then
        match HighestSecondBattery(bank[index + 1..], 9)
        case Err(f) => Err(f)
        case Ok(secondBattery) => Ok(AppendDigit(nrToFind, secondBattery))
      else HighestJoltage(bank, nrToFind - 1)
  }

  /** A joltage part one finds is that of two batteries in bank order. */
  lemma {:induction false} HighestJoltageIsAPair(bank: string, nrToFind: int)
    requires nrToFind <= 9
    ensures var r := HighestJoltage(bank, nrToFind);
      r.Ok? ==> exists i, j :: (0 <= i < j < |bank| && IsBattery(bank[i]) && IsBattery(bank[j]) &&
        r.value == 10 * DigitValue(bank[i]) + DigitValue(bank[j]))
    decreases nrToFind
  {
    if nrToFind >= 1 {
      var index := IndexOf(bank, DigitChar(nrToFind));
      if index != -1 && index + 1 < |bank| {
        var subBank := bank[index + 1..];
        var second := HighestSecondBattery(subBank, 9);
        if second.Ok? {
          SecondBatteryIsHighest(subBank, 9);
          var p :| 0 <= p < |subBank| && subBank[p] == second.value;
          assert bank[index + 1 + p] == second.value;
          DigitRoundTrip(bank[index]);
        }
      } else {
        HighestJoltageIsAPair(bank, nrToFind - 1);
      }
    }
  }

  // ---------------------------------------------------------------------------
  // Part two

  /**
   * `findHighestJoltageTwo`: picks the highest digit from 1 to `nrToFind` whose first
   * occurrence leaves at least `amountOfBatteries - 1` characters after it, then recurses
   * behind it for one battery fewer, and prepends the digit to the decimal form of the rest.
   */
  function JoltageTwo(bank: string, amountOfBatteries: int, nrToFind: int): (r: Result<nat>)
    requires nrToFind <= 9
    ensures r.Err? <==> amountOfBatteries < 1
    ensures r.Err? ==> r.failure == IllegalArgument
    decreases |bank|, nrToFind
  {
    if amountOfBatteries < 1 then Err(IllegalArgument)
    else if nrToFind < 1 then Ok(0)
    else
      var index := IndexOf(bank, DigitChar(nrToFind));
      if index != -1 && index + amountOfBatteries <= |bank| then
        if amountOfBatteries == 1 then Ok(nrToFind)
        else
          Ok(Concat(nrToFind, JoltageTwo(bank[index + 1..], amountOfBatteries - 1, 9).value))
      else JoltageTwo(bank, amountOfBatteries, nrToFind - 1)
  }

  /** `Long.parseLong(a + String.valueOf(b))`: the digits of `a` followed by those of `b`. */
  function Concat(a: nat, b: nat): nat
  {
    ParseAppend(Decimal(a), Decimal(b));
    ParseNat(Decimal(a) + Decimal(b))
  }

  /** The digits of `b` shift those of `a` left by as many places as `b` has digits. */
  lemma ConcatValue(a: nat, b: nat)
    ensures Concat(a, b) == a * Pow10(|Decimal(b)|) + b
  {
    ParseAppend(Decimal(a), Decimal(b));
  }

  /** A single digit shifts `a` left by one place. */
  lemma ConcatDigit(a: nat, b: nat)
    requires b < 10
    ensures Concat(a, b) == 10 * a + b
  {
    ConcatValue(a, b);
    assert Decimal(b) == [DigitChar(b)];
    assert Pow10(|Decimal(b)|) == 10;
  }

  /** With one battery left, the search returns the bank's highest digit. */
  lemma OneBatteryIsMaxDigit(bank: string)
    requires |bank| > 0 && AllBatteries(bank)
    ensures JoltageTwo(bank, 1, 9) == Ok(MaxDigit(bank))
  {
    assert bank[..|bank|] == bank;
    DescendToMax(bank, 1, 9);
    FirstPickFound(bank, 1);
  }

  /** The greedy search's first digit: the highest one that leaves room for the others. */
  function FirstPick(bank: string, k: nat): (d: nat)
    requires 1 <= k <= |bank| && AllBatteries(bank)
    ensures 1 <= d <= 9
  {
    var prefix := bank[..|bank| - k + 1];
    MaxDigitOccurs(prefix);
    assert forall p :: 0 <= p < |prefix| ==> prefix[p] == bank[p];
    MaxDigit(prefix)
  }

  /** No digit that leaves room for the others is higher than the first pick. */
  lemma FirstPickIsMax(bank: string, k: nat, q: int)
    requires 1 <= k <= |bank| && AllBatteries(bank)
    ensures 0 <= q <= |bank| - k ==> DigitValue(bank[q]) <= FirstPick(bank, k)
  {
    if 0 <= q <= |bank| - k {
      assert bank[q] == bank[..|bank| - k + 1][q];
      MaxDigitIsMax(bank[..|bank| - k + 1], q);
    }
  }

  /**
   * The digit search from `nrToFind` down stops at the first pick, as long as it starts at
   * or above it, and takes the first occurrence of that digit.
   */
  lemma {:induction false} DescendToMax(bank: string, k: nat, nrToFind: int)
    requires 1 <= k <= |bank| && AllBatteries(bank)
    requires FirstPick(bank, k) <= nrToFind <= 9
    ensures JoltageTwo(bank, k, nrToFind) == JoltageTwo(bank, k, FirstPick(bank, k))
    decreases nrToFind
  {
    var d := FirstPick(bank, k);
    if nrToFind == d {
      assert JoltageTwo(bank, k, nrToFind) == JoltageTwo(bank, k, d);
    } else {
      SkipHigherDigit(bank, k, nrToFind);
      DescendToMax(bank, k, nrToFind - 1);
    }
  }

  /** A digit above the first pick does not occur early enough, so the search moves on. */
  lemma SkipHigherDigit(bank: string, k: nat, nrToFind: int)
    requires 1 <= k <= |bank| && AllBatteries(bank)
    requires FirstPick(bank, k) < nrToFind <= 9
    ensures JoltageTwo(bank, k, nrToFind) == JoltageTwo(bank, k, nrToFind - 1)
  {
    FirstPickIsMax(bank, k, IndexOf(bank, DigitChar(nrToFind)));
  }

  /** The first pick occurs early enough to leave room for the other batteries. */
  lemma FirstPickFound(bank: string, k: nat)
    requires 1 <= k <= |bank| && AllBatteries(bank)
    ensures var index := IndexOf(bank, DigitChar(FirstPick(bank, k)));
      0 <= index && index + k <= |bank|
  {
    var d := FirstPick(bank, k);
    var prefix := bank[..|bank| - k + 1];
    MaxDigitOccurs(prefix);
    var p :| 0 <= p < |prefix| && DigitValue(prefix[p]) == d;
    assert prefix[p] == bank[p];
    DigitRoundTrip(bank[p]);
    IndexOfIsFirst(bank, DigitChar(d), p);
  }

  /** On a non-empty bank of digits 1 to 9, the second-battery search finds the highest digit. */
  lemma {:induction false} SecondBatteryIsMaxDigit(subBank: string, nrToFind: int)
    requires |subBank| > 0 && AllBatteries(subBank)
    requires MaxDigit(subBank) <= nrToFind <= 9
    ensures HighestSecondBattery(subBank, nrToFind) == Ok(DigitChar(MaxDigit(subBank)))
    decreases nrToFind
  {
    var m := MaxDigit(subBank);
    var index := IndexOf(subBank, DigitChar(nrToFind));
    if nrToFind > m {
      MaxDigitIsMax(subBank, index);
      SecondBatteryIsMaxDigit(subBank, nrToFind - 1);
    } else {
      MaxDigitOccurs(subBank);
      var p :| 0 <= p < |subBank| && DigitValue(subBank[p]) == m;
      DigitRoundTrip(subBank[p]);
      IndexOfIsFirst(subBank, DigitChar(m), p);
    }
  }

  /** Part one's search skips a digit above the first pick, as part two's does. */
  lemma SkipHigherDigitPartOne(bank: string, nrToFind: int)
    requires 2 <= |bank| && AllBatteries(bank)
    requires FirstPick(bank, 2) < nrToFind <= 9
    ensures HighestJoltage(bank, nrToFind) == HighestJoltage(bank, nrToFind - 1)
  {
    FirstPickIsMax(bank, 2, IndexOf(bank, DigitChar(nrToFind)));
  }

  /** Part one is part two's search for two batteries, on a bank of digits 1 to 9. */
  lemma {:induction false} PartOneIsTwoBatteries(bank: string, nrToFind: int)
    requires 2 <= |bank| && AllBatteries(bank)
    requires FirstPick(bank, 2) <= nrToFind <= 9
    ensures HighestJoltage(bank, nrToFind) == JoltageTwo(bank, 2, nrToFind)
    decreases nrToFind
  {
    var d := FirstPick(bank, 2);
    if nrToFind > d {
      SkipHigherDigitPartOne(bank, nrToFind);
      SkipHigherDigit(bank, 2, nrToFind);
      PartOneIsTwoBatteries(bank, nrToFind - 1);
    } else {
      PartOneAtFirstPick(bank);
    }
  }

  /** At the first pick both searches take the highest digit behind its first occurrence. */
  lemma PartOneAtFirstPick(bank: string)
    requires 2 <= |bank| && AllBatteries(bank)
    ensures HighestJoltage(bank, FirstPick(bank, 2)) == JoltageTwo(bank, 2, FirstPick(bank, 2))
  {
    FirstPickFound(bank, 2);
    var index := IndexOf(bank, DigitChar(FirstPick(bank, 2)));
    var subBank := bank[index + 1..];
    PartOneTakesMax(bank, FirstPick(bank, 2), index);
    PartTwoTakesMax(bank, FirstPick(bank, 2), index);
  }

  /** Part one at a digit found early enough: that digit, then the highest digit behind it. */
  lemma PartOneTakesMax(bank: string, d: nat, index: int)
    requires AllBatteries(bank) && 1 <= d <= 9
    requires index == IndexOf(bank, DigitChar(d)) && 0 <= index && index + 2 <= |bank|
    ensures HighestJoltage(bank, d) == Ok(10 * d + MaxDigit(bank[index + 1..]))
  {
    var subBank := bank[index + 1..];
    var second := DigitChar(MaxDigit(subBank));
    SecondBatteryIsMaxDigit(subBank, 9);
    assert HighestJoltage(bank, d) == Ok(AppendDigit(d, second));
  }

  /** Part two for two batteries at a digit found early enough: the same. */
  lemma PartTwoTakesMax(bank: string, d: nat, index: int)
    requires AllBatteries(bank) && 1 <= d <= 9
    requires index == IndexOf(bank, DigitChar(d)) && 0 <= index && index + 2 <= |bank|
    ensures JoltageTwo(bank, 2, d) == Ok(10 * d + MaxDigit(bank[index + 1..]))
  {
    OneBatteryIsMaxDigit(bank[index + 1..]);
    ConcatDigit(d, MaxDigit(bank[index + 1..]));
  }

  // ---------------------------------------------------------------------------
  // The highest joltage over all selections of batteries

  /** Strictly increasing positions inside `bank`. */
  predicate Selects(bank: string, positions: seq<int>)
  {
    positions == [] ||
    (0 <= positions[0] < |bank| &&
     (|positions| > 1 ==> positions[0] < positions[1]) &&
     Selects(bank, positions[1..]))
  }

  /** The digits at the selected positions, in bank order. */
  function Pick(bank: string, positions: seq<int>): (r: string)
    requires AllBatteries(bank) && Selects(bank, positions)
    ensures |r| == |positions| && AllDigits(r)
  {
    if positions == [] then [] else [bank[positions[0]]] + Pick(bank, positions[1..])
  }

  /** The joltage of a selection: the number its digits spell. */
  function Joltage(bank: string, positions: seq<int>): nat
    requires AllBatteries(bank) && Selects(bank, positions)
  {
    ParseNat(Pick(bank, positions))
  }

  /** Every position moved by `offset`. */
  function Shift(positions: seq<int>, offset: int): (r: seq<int>)
    ensures |r| == |positions|
    ensures |r| > 0 ==> r[0] == positions[0] + offset
  {
    if positions == [] then [] else [positions[0] + offset] + Shift(positions[1..], offset)
  }

  /** A selection needs at least as many characters from its first position on as it selects. */
  lemma {:induction false} SelectsRoom(bank: string, positions: seq<int>)
    requires Selects(bank, positions) && |positions| > 0
    ensures positions[0] + |positions| <= |bank|
  {
    if |positions| > 1 {
      SelectsRoom(bank, positions[1..]);
    }
  }

  /** A leading digit followed by more digits. */
  lemma PrependDigit(c: char, rest: string)
    requires IsBattery(c) && AllDigits(rest)
    ensures AllDigits([c] + rest)
    ensures ParseNat([c] + rest) == DigitValue(c) * Pow10(|rest|) + ParseNat(rest)
  {
    assert [c][..0] == [];
    assert ParseNat([c]) == DigitValue(c);
    ParseAppend([c], rest);
  }

  /** A selection's joltage is its first digit, shifted left, plus the joltage of the rest. */
  lemma JoltageFirst(bank: string, positions: seq<int>)
    requires AllBatteries(bank) && Selects(bank, positions) && |positions| > 0
    ensures Selects(bank, positions[1..])
    ensures Joltage(bank, positions) ==
      DigitValue(bank[positions[0]]) * Pow10(|positions| - 1) + Joltage(bank, positions[1..])
    ensures Joltage(bank, positions[1..]) < Pow10(|positions| - 1)
  {
    var rest := Pick(bank, positions[1..]);
    PrependDigit(bank[positions[0]], rest);
    ParseBound(rest);
  }

  /** A selection in a suffix, shifted, is a selection in the whole bank with the same digits. */
  lemma {:induction false} JoltageShift(bank: string, offset: nat, positions: seq<int>)
    requires offset <= |bank| && AllBatteries(bank) && Selects(bank[offset..], positions)
    ensures Selects(bank, Shift(positions, offset))
    ensures Pick(bank, Shift(positions, offset)) == Pick(bank[offset..], positions)
  {
    if positions != [] {
      var shifted := Shift(positions, offset);
      assert shifted[1..] == Shift(positions[1..], offset);
      JoltageShift(bank, offset, positions[1..]);
    }
  }

  /** A selection from `offset` on, shifted back, is a selection in the suffix with the same digits. */
  lemma {:induction false} JoltageUnshift(bank: string, offset: nat, positions: seq<int>)
    requires offset <= |bank| && AllBatteries(bank) && Selects(bank, positions)
    requires |positions| > 0 ==> offset <= positions[0]
    ensures Selects(bank[offset..], Shift(positions, -(offset as int)))
    ensures Pick(bank[offset..], Shift(positions, -(offset as int))) == Pick(bank, positions)
  {
    if positions != [] {
      var shifted := Shift(positions, -(offset as int));
      assert shifted[1..] == Shift(positions[1..], -(offset as int));
      JoltageUnshift(bank, offset, positions[1..]);
    }
  }

  /** `String.valueOf(n)` has exactly `len` digits when 10^(len-1) <= n < 10^len. */
  lemma {:induction false} DecimalLength(n: nat, len: nat)
    requires 1 <= len && Pow10(len - 1) <= n < Pow10(len)
    ensures |Decimal(n)| == len
  {
    if n >= 10 {
      assert len >= 2;
      DecimalLength(n / 10, len - 1);
    }
  }

  lemma MulMonotone(a: nat, b: nat, p: nat)
    requires a <= b
    ensures a * p <= b * p
  {
  }

  lemma NextMultiple(c: nat, d: nat, p: nat)
    requires c < d
    ensures c * p + p <= d * p
  {
    MulMonotone(c + 1, d, p);
  }

  /** A non-zero digit times p lies between p and 9p. */
  lemma DigitTimes(d: nat, p: nat)
    requires 1 <= d <= 9
    ensures p <= d * p && d * p + p <= 10 * p
  {
    MulMonotone(1, d, p);
    MulMonotone(d + 1, 10, p);
  }

  /** A first digit d followed by a (len)-digit number. */
  lemma ConcatBounds(d: nat, w: nat, len: nat)
    requires 1 <= d <= 9 && 1 <= len && Pow10(len - 1) <= w < Pow10(len)
    ensures Concat(d, w) == d * Pow10(len) + w
  {
    DecimalLength(w, len);
    ConcatValue(d, w);
  }

  /** Every selection of batteries spells a number with as many digits as it selects. */
  lemma JoltageDigits(bank: string, positions: seq<int>)
    requires AllBatteries(bank) && Selects(bank, positions) && |positions| > 0
    ensures Pow10(|positions| - 1) <= Joltage(bank, positions) < Pow10(|positions|)
  {
    JoltageFirst(bank, positions);
    var c, p := DigitValue(bank[positions[0]]), Pow10(|positions| - 1);
    assert Pow10(|positions|) == 10 * p;
    DigitTimes(c, p);
  }

  /** For two or more batteries, the search takes the first pick's first occurrence and recurses behind it. */
  lemma GreedyStep(bank: string, k: nat)
    requires 2 <= k <= |bank| && AllBatteries(bank)
    ensures var index := IndexOf(bank, DigitChar(FirstPick(bank, k)));
      0 <= index && index + k <= |bank| &&
      JoltageTwo(bank, k, 9) ==
        Ok(Concat(FirstPick(bank, k), JoltageTwo(bank[index + 1..], k - 1, 9).value))
  {
    var d := FirstPick(bank, k);
    var index := IndexOf(bank, DigitChar(d));
    DescendToMax(bank, k, 9);
    FirstPickFound(bank, k);
    assert 1 <= d && k != 1 && index != -1 && index + k <= |bank|;
    assert JoltageTwo(bank, k, d) == Ok(Concat(d, JoltageTwo(bank[index + 1..], k - 1, 9).value));
  }

  /** With one battery, the search finds the highest digit, and no single battery beats it. */
  lemma BestSingle(bank: string) returns (positions: seq<int>)
    requires 1 <= |bank| && AllBatteries(bank)
    ensures JoltageTwo(bank, 1, 9).Ok?
    ensures Selects(bank, positions) && |positions| == 1
    ensures Joltage(bank, positions) == JoltageTwo(bank, 1, 9).value
    ensures forall other :: Selects(bank, other) && |other| == 1 ==>
      Joltage(bank, other) <= JoltageTwo(bank, 1, 9).value
  {
    OneBatteryIsMaxDigit(bank);
    MaxDigitOccurs(bank);
    var p :| 0 <= p < |bank| && DigitValue(bank[p]) == MaxDigit(bank);
    positions := [p];
    JoltageFirst(bank, positions);
    forall other | Selects(bank, other) && |other| == 1
      ensures Joltage(bank, other) <= MaxDigit(bank)
    {
      JoltageFirst(bank, other);
      MaxDigitIsMax(bank, other[0]);
    }
  }

  /**
   * The greedy search is optimal: on a bank of digits 1 to 9 with at least `k` batteries, it
   * succeeds, `positions` is a selection of `k` batteries with the joltage it finds, and no
   * selection of `k` batteries has a higher joltage.
   */
  lemma {:induction false} GreedyIsBest(bank: string, k: nat) returns (positions: seq<int>)
    requires 1 <= k <= |bank| && AllBatteries(bank)
    ensures JoltageTwo(bank, k, 9).Ok?
    ensures Selects(bank, positions) && |positions| == k
    ensures Joltage(bank, positions) == JoltageTwo(bank, k, 9).value
    ensures forall other :: Selects(bank, other) && |other| == k ==>
      Joltage(bank, other) <= JoltageTwo(bank, k, 9).value
    decreases k
  {
    if k == 1 {
      positions := BestSingle(bank);
    } else {
      var d := FirstPick(bank, k);
      var index := IndexOf(bank, DigitChar(d));
      FirstPickFound(bank, k);
      var subBank := bank[index + 1..];
      var rest := GreedyIsBest(subBank, k - 1);
      positions := GreedyCombine(bank, k, index, rest);
    }
  }

  /** The step of `GreedyIsBest`: the best selection behind the first pick extends to the best overall. */
  lemma GreedyCombine(bank: string, k: nat, index: int, rest: seq<int>) returns (positions: seq<int>)
    requires 2 <= k <= |bank| && AllBatteries(bank)
    requires index == IndexOf(bank, DigitChar(FirstPick(bank, k))) && 0 <= index && index + k <= |bank|
    requires JoltageTwo(bank[index + 1..], k - 1, 9).Ok?
    requires Selects(bank[index + 1..], rest) && |rest| == k - 1
    requires Joltage(bank[index + 1..], rest) == JoltageTwo(bank[index + 1..], k - 1, 9).value
    requires forall other :: Selects(bank[index + 1..], other) && |other| == k - 1 ==>
      Joltage(bank[index + 1..], other) <= JoltageTwo(bank[index + 1..], k - 1, 9).value
    ensures JoltageTwo(bank, k, 9).Ok?
    ensures Selects(bank, positions) && |positions| == k
    ensures Joltage(bank, positions) == JoltageTwo(bank, k, 9).value
    ensures forall other :: Selects(bank, other) && |other| == k ==>
      Joltage(bank, other) <= JoltageTwo(bank, k, 9).value
  {
    var w := JoltageTwo(bank[index + 1..], k - 1, 9).value;
    positions := GreedyWitness(bank, k, index, rest);
    var best := JoltageTwo(bank, k, 9).value;
    assert best == FirstPick(bank, k) * Pow10(k - 1) + w;
    forall other | Selects(bank, other) && |other| == k
      ensures Joltage(bank, other) <= best
    {
      UpperBound(bank, k, other, index, w);
    }
  }

  /**
   * The first pick at its first occurrence, then the best selection behind it: its joltage is
   * what the search returns.
   */
  lemma GreedyWitness(bank: string, k: nat, index: int, rest: seq<int>) returns (positions: seq<int>)
    requires 2 <= k <= |bank| && AllBatteries(bank)
    requires index == IndexOf(bank, DigitChar(FirstPick(bank, k))) && 0 <= index && index + k <= |bank|
    requires Selects(bank[index + 1..], rest) && |rest| == k - 1
    requires JoltageTwo(bank[index + 1..], k - 1, 9).Ok?
    requires Joltage(bank[index + 1..], rest) == JoltageTwo(bank[index + 1..], k - 1, 9).value
    ensures Selects(bank, positions) && |positions| == k
    ensures Joltage(bank, positions) == JoltageTwo(bank, k, 9).value
    ensures JoltageTwo(bank, k, 9).value ==
      FirstPick(bank, k) * Pow10(k - 1) + Joltage(bank[index + 1..], rest)
  {
    var d := FirstPick(bank, k);
    var sub := bank[index + 1..];
    var w := Joltage(sub, rest);
    assert JoltageTwo(bank, k, 9).value == d * Pow10(k - 1) + w by {
      GreedyStep(bank, k);
      JoltageDigits(sub, rest);
      ConcatBounds(d, w, |rest|);
    }
    positions := PrependSelection(bank, index, rest);
    assert DigitValue(bank[index]) == d;
  }

  /** Position `index` followed by a selection behind it, shifted into place. */
  lemma PrependSelection(bank: string, index: nat, rest: seq<int>) returns (positions: seq<int>)
    requires index < |bank| && AllBatteries(bank) && Selects(bank[index + 1..], rest)
    ensures Selects(bank, positions) && |positions| == |rest| + 1 && positions[0] == index
    ensures Joltage(bank, positions) ==
      DigitValue(bank[index]) * Pow10(|rest|) + Joltage(bank[index + 1..], rest)
  {
    JoltageShift(bank, index + 1, rest);
    var shifted := Shift(rest, index + 1);
    positions := [index] + shifted;
    assert positions[1..] == shifted;
    JoltageFirst(bank, positions);
  }

  /** No selection of k batteries beats the first pick followed by the best of the rest. */
  lemma UpperBound(bank: string, k: nat, positions: seq<int>, index: int, w: nat)
    requires 2 <= k <= |bank| && AllBatteries(bank)
    requires Selects(bank, positions) && |positions| == k
    requires index == IndexOf(bank, DigitChar(FirstPick(bank, k))) && 0 <= index && index + k <= |bank|
    requires forall rest :: Selects(bank[index + 1..], rest) && |rest| == k - 1 ==>
      Joltage(bank[index + 1..], rest) <= w
    ensures Joltage(bank, positions) <= FirstPick(bank, k) * Pow10(k - 1) + w
  {
    var d := FirstPick(bank, k);
    var first := positions[0];
    SelectsRoom(bank, positions);
    JoltageFirst(bank, positions);
    FirstPickIsMax(bank, k, first);
    var c := DigitValue(bank[first]);
    if c < d {
      NextMultiple(c, d, Pow10(k - 1));
    } else {
      DigitRoundTrip(bank[first]);
      IndexOfIsFirst(bank, DigitChar(d), first);
      var tail := positions[1..];
      JoltageUnshift(bank, index + 1, tail);
    }
  }

  /** Part one finds the highest two-digit joltage of any two batteries in bank order. */
  lemma PartOneIsBest(bank: string)
    requires 2 <= |bank| && AllBatteries(bank)
    ensures HighestJoltage(bank, 9).Ok?
    ensures forall i, j :: 0 <= i < j < |bank| ==>
      10 * DigitValue(bank[i]) + DigitValue(bank[j]) <= HighestJoltage(bank, 9).value
  {
    PartOneIsTwoBatteries(bank, 9);
    var best := GreedyIsBest(bank, 2);
    forall i, j | 0 <= i < j < |bank|
      ensures 10 * DigitValue(bank[i]) + DigitValue(bank[j]) <= HighestJoltage(bank, 9).value
    {
      PairJoltage(bank, i, j);
    }
  }

  lemma PairJoltage(bank: string, i: int, j: int)
    requires AllBatteries(bank) && 0 <= i < j < |bank|
    ensures Selects(bank, [i, j])
    ensures Joltage(bank, [i, j]) == 10 * DigitValue(bank[i]) + DigitValue(bank[j])
  {
    assert [i, j][1..] == [j];
    assert [j][1..] == [];
    JoltageFirst(bank, [i, j]);
    JoltageFirst(bank, [j]);
  }

  // ---------------------------------------------------------------------------
  // The answers

  /** The sum of the banks' joltages, or the first failure, as the solvers' loops end. */
  function Total(joltages: seq<Result<nat>>): Result<int>
  {
    if joltages == [] then Ok(0)
    else
      match Total(joltages[..|joltages| - 1])
      case Err(f) => Err(f)
      case Ok(sum) =>
        match joltages[|joltages| - 1]
        case Err(f) => Err(f)
        case Ok(j) => Ok(sum + j)
  }

  lemma {:induction false} TotalPrefixFails(joltages: seq<Result<nat>>, i: nat)
    requires i <= |joltages| && Total(joltages[..i]).Err?
    ensures Total(joltages) == Total(joltages[..i])
  {
    if i < |joltages| {
      assert joltages[..|joltages| - 1][..i] == joltages[..i];
      TotalPrefixFails(joltages[..|joltages| - 1], i);
    } else {
      assert joltages[..i] == joltages;
    }
  }

  /** The joltages part one finds, bank by bank. */
  function PartOneJoltages(banks: seq<string>): (r: seq<Result<nat>>)
    ensures |r| == |banks|
    ensures forall b :: 0 <= b < |banks| ==> r[b] == HighestJoltage(banks[b], 9)
  {
    seq(|banks|, b requires 0 <= b < |banks| => HighestJoltage(banks[b], 9))
  }

  /** The joltages part two finds, bank by bank. */
  function PartTwoJoltages(banks: seq<string>): (r: seq<Result<nat>>)
    ensures |r| == |banks|
    ensures forall b :: 0 <= b < |banks| ==> r[b] == JoltageTwo(banks[b], 12, 9)
  {
    seq(|banks|, b requires 0 <= b < |banks| => JoltageTwo(banks[b], 12, 9))
  }

  /** Adds the joltages up one bank at a time; the first failure ends the loop. */
  method SumJoltages(joltages: seq<Result<nat>>) returns (r: Result<int>)
    ensures r == Total(joltages)
  {
    var totalJoltage := 0;
    for b := 0 to |joltages|
      invariant Total(joltages[..b]) == Ok(totalJoltage)
    {
      assert joltages[..b + 1][..b] == joltages[..b];
      match joltages[b]
      case Err(f) =>
        TotalPrefixFails(joltages, b + 1);
        return Err(f);
      case Ok(j) =>
        totalJoltage := totalJoltage + j;
    }
    assert joltages[..|joltages|] == joltages;
    return Ok(totalJoltage);
  }

  /** `solvePartOne`: the sum of every bank's two-battery joltage. */
  method SolvePartOne(batteryBanks: seq<string>) returns (r: Result<int>)
    ensures r == Total(PartOneJoltages(batteryBanks))
  {
    r := SumJoltages(PartOneJoltages(batteryBanks));
  }

  /** `solvePartTwo`: the sum of every bank's twelve-battery joltage. */
  method SolvePartTwo(batteryBanks: seq<string>) returns (r: Result<int>)
    ensures r == Total(PartTwoJoltages(batteryBanks))
  {
    r := SumJoltages(PartTwoJoltages(batteryBanks));
  }

  /** Part two never fails: it asks for twelve batteries, which is at least one. */
  lemma {:induction false} PartTwoNeverFails(joltages: seq<Result<nat>>)
    requires forall b :: 0 <= b < |joltages| ==> joltages[b].Ok?
    ensures Total(joltages).Ok?
  {
    if joltages != [] {
      PartTwoNeverFails(joltages[..|joltages| - 1]);
    }
  }
}
