/**
 * The few pieces of java.lang.String and java.lang.Long the solvers lean on:
 * parsing a decimal digit string, printing a non-negative number, `trim()`,
 * and `split` with a one-character class ("," "-" "[+*]" "[xy]") or with "\\s+".
 */
module JavaText {
  import opened Common


  predicate IsDigit(c: char) { '0' <= c <= '9' }

  /** Every character is a decimal digit (the empty string included). */
  predicate AllDigits(s: string) { forall i :: 0 <= i < |s| ==> IsDigit(s[i]) }

  /** What `matches("\\d+")` accepts, and what `Long.parseLong` accepts without a sign. */
  predicate IsDigits(s: string) { |s| > 0 && AllDigits(s) }

  function DigitValue(c: char): (d: nat)
    requires IsDigit(c)
    ensures d < 10
  {
    c as int - '0' as int
  }

  function DigitChar(d: nat): (c: char)
    requires d < 10
    ensures IsDigit(c) && DigitValue(c) == d
  {
    ('0' as int + d) as char
  }

  function Pow10(k: nat): (p: nat)
    ensures p >= 1
  {
    if k == 0 then 1 else 10 * Pow10(k - 1)
  }

  /** `Long.parseLong(s)` for a string of decimal digits. */
  function ParseNat(s: string): nat
    requires AllDigits(s)
  {
    if s == [] then 0 else ParseNat(s[..|s| - 1]) * 10 + DigitValue(s[|s| - 1])
  }

  /** `String.valueOf(n)` for n >= 0: no leading zero, and it parses back to n. */
  function Decimal(n: nat): (r: string)
    ensures IsDigits(r)
    ensures ParseNat(r) == n
    ensures r[0] == '0' ==> n == 0 && |r| == 1
    ensures |r| <= n + 1
  {
    if n < 10 then [DigitChar(n)]
    else
      var r := Decimal(n / 10) + [DigitChar(n % 10)];
      assert r[..|r| - 1] == Decimal(n / 10);
      r
  }

  lemma {:induction false} ParseAppend(a: string, b: string)
    requires AllDigits(a) && AllDigits(b)
    ensures AllDigits(a + b)
    ensures ParseNat(a + b) == ParseNat(a) * Pow10(|b|) + ParseNat(b)
  {
    assert AllDigits(a + b) by {
      forall i | 0 <= i < |a + b|
        ensures IsDigit((a + b)[i])
      {
        if i < |a| { assert (a + b)[i] == a[i]; } else { assert (a + b)[i] == b[i - |a|]; }
      }
    }
    if b == [] {
      assert a + b == a;
    } else {
      var b' := b[..|b| - 1];
      var d := DigitValue(b[|b| - 1]);
      assert ParseNat(a + b) == ParseNat(a + b') * 10 + d by {
        assert (a + b)[..|a + b| - 1] == a + b';
      }
      ParseAppend(a, b');
      assert ParseNat(b) == ParseNat(b') * 10 + d;
      ShiftDigit(ParseNat(a), Pow10(|b'|), ParseNat(b'), d);
    }
  }

  /** Appending a digit to x * p + y multiplies both terms by ten. */
  lemma ShiftDigit(x: int, p: int, y: int, d: int)
    ensures (x * p + y) * 10 + d == x * (p * 10) + (y * 10 + d)
  {
    assert (x * p + y) * 10 == (x * p) * 10 + y * 10;
    assert (x * p) * 10 == x * (p * 10);
  }

  lemma {:induction false} ParseBound(s: string)
    requires AllDigits(s)
    ensures ParseNat(s) < Pow10(|s|)
  {
    if s != [] {
      ParseBound(s[..|s| - 1]);
    }
  }

  /** A leading digit d >= 1 followed by |rest| digits gives at least d * 10^|rest|. */
  lemma LeadingDigitBounds(d: nat, rest: string)
    requires 1 <= d < 10 && AllDigits(rest)
    ensures AllDigits([DigitChar(d)] + rest)
    ensures d * Pow10(|rest|) <= ParseNat([DigitChar(d)] + rest) < (d + 1) * Pow10(|rest|)
  {
    var lead := [DigitChar(d)];
    ParseAppend(lead, rest);
    assert lead[..0] == [];
    assert ParseNat(lead) == d;
    ParseBound(rest);
    var p, x := Pow10(|rest|), ParseNat(rest);
    assert ParseNat(lead + rest) == d * p + x;
    assert (d + 1) * p == d * p + p;
  }

  /** The characters `String.trim()` removes: every char up to and including ' '. */
  predicate IsTrimmed(c: char) { c as int <= 32 }

  function TrimStart(s: string): (r: string)
    ensures |r| <= |s| && r == s[|s| - |r|..]
    ensures r != [] ==> !IsTrimmed(r[0])
    ensures forall i :: 0 <= i < |s| - |r| ==> IsTrimmed(s[i])
  {
    if s != [] && IsTrimmed(s[0]) then TrimStart(s[1..]) else s
  }

  function TrimEnd(s: string): (r: string)
    ensures |r| <= |s| && r == s[..|r|]
    ensures r != [] ==> !IsTrimmed(r[|r| - 1])
    ensures forall i :: |r| <= i < |s| ==> IsTrimmed(s[i])
  {
    if s != [] && IsTrimmed(s[|s| - 1]) then TrimEnd(s[..|s| - 1]) else s
  }

  /** `String.trim()`: the string without its leading and trailing characters up to ' '. */
  function Trim(s: string): (r: string)
    ensures |r| <= |s|
    ensures r != [] ==> !IsTrimmed(r[0]) && !IsTrimmed(r[|r| - 1])
    ensures r == [] <==> forall i :: 0 <= i < |s| ==> IsTrimmed(s[i])
  {
    var t := TrimStart(s);
    var r := TrimEnd(t);
    assert r != [] ==> r[0] == t[0];
    assert r == [] ==> t == [] by {
      if r == [] && t != [] {
        assert false;
      }
    }
    r
  }

  /**
   * The pieces of `s` between the separator characters: every separator ends a piece,
   * so two adjacent separators leave an empty piece between them.
   */
  function Pieces(s: string, seps: set<char>): (p: seq<string>)
    ensures |p| >= 1
    ensures forall i, j :: 0 <= i < |p| && 0 <= j < |p[i]| ==> p[i][j] !in seps
  {
    if s == [] then [""]
    else if s[0] in seps then [""] + Pieces(s[1..], seps)
    else
      var rest := Pieces(s[1..], seps);
      [[s[0]] + rest[0]] + rest[1..]
  }

  /** A string without separators is its own only piece. */
  lemma {:induction false} PiecesWithout(s: string, seps: set<char>)
    requires forall i :: 0 <= i < |s| ==> s[i] !in seps
    ensures Pieces(s, seps) == [s]
  {
    if s != [] {
      PiecesWithout(s[1..], seps);
      assert [s[0]] + s[1..] == s;
    }
  }

  /** A separator-free piece followed by a separator: the piece comes off the front. */
  lemma {:induction false} PiecesAfter(a: string, sep: char, rest: string, seps: set<char>)
    requires forall i :: 0 <= i < |a| ==> a[i] !in seps
    requires sep in seps
    ensures Pieces(a + [sep] + rest, seps) == [a] + Pieces(rest, seps)
  {
    var s := a + [sep] + rest;
    if a == [] {
      assert s[1..] == rest;
    } else {
      assert s[1..] == a[1..] + [sep] + rest;
      PiecesAfter(a[1..], sep, rest, seps);
      assert [a[0]] + a[1..] == a;
    }
  }

  function DropTrailingEmpty(p: seq<string>): (r: seq<string>)
    ensures |r| <= |p| && r == p[..|r|]
    ensures r != [] ==> r[|r| - 1] != ""
    ensures forall i :: |r| <= i < |p| ==> p[i] == ""
  {
    if p != [] && p[|p| - 1] == "" then DropTrailingEmpty(p[..|p| - 1]) else p
  }

  predicate Contains(s: string, seps: set<char>)
  {
    exists i :: 0 <= i < |s| && s[i] in seps
  }

  /**
   * `s.split(regex)` for a regex matching exactly one character of `seps`: the pieces between
   * separators, with trailing empty pieces removed; a string without separators is its own
   * only piece.
   */
  function SplitOn(s: string, seps: set<char>): seq<string>
  {
    if Contains(s, seps) then DropTrailingEmpty(Pieces(s, seps)) else [s]
  }

  /**
   * A string without separators is its own only piece; otherwise no piece holds a separator
   * and no empty piece is left at the end.
   */
  lemma SplitOnPieces(s: string, seps: set<char>)
    ensures !Contains(s, seps) <==> SplitOn(s, seps) == [s]
    ensures var r := SplitOn(s, seps);
      forall i, j :: 0 <= i < |r| && 0 <= j < |r[i]| ==> r[i][j] !in seps
    ensures var r := SplitOn(s, seps);
      Contains(s, seps) && r != [] ==> r[|r| - 1] != ""
  {
  }

  function NonEmpty(p: seq<string>): (r: seq<string>)
    ensures forall i :: 0 <= i < |r| ==> r[i] != ""
  {
    if p == [] then []
    else if p[0] == "" then NonEmpty(p[1..])
    else [p[0]] + NonEmpty(p[1..])
  }

  /** The pieces kept are pieces of the input. */
  lemma {:induction false} NonEmptyKeeps(p: seq<string>)
    ensures forall i :: 0 <= i < |NonEmpty(p)| ==> NonEmpty(p)[i] in p
  {
    if p != [] {
      NonEmptyKeeps(p[1..]);
    }
  }

  /** The characters of the regular expression class `\s`. */
  const WHITESPACE: set<char> := {' ', '\t', '\n', '\U{B}', '\U{C}', '\r'}

  /**
   * `s.split("\\s+")`: a run of whitespace is one separator, so only the piece before the
   * first run can be empty; trailing empty pieces are removed.
   */
  function SplitWhitespace(s: string): seq<string>
  {
    if Contains(s, WHITESPACE) then
      var p := Pieces(s, WHITESPACE);
      DropTrailingEmpty([p[0]] + NonEmpty(p[1..]))
    else [s]
  }

  /**
   * A string without whitespace is its own only piece; otherwise no piece holds whitespace,
   * and only the first piece can be empty.
   */
  lemma SplitWhitespacePieces(s: string)
    ensures !Contains(s, WHITESPACE) <==> SplitWhitespace(s) == [s]
    ensures var r := SplitWhitespace(s);
      forall i, j :: 0 <= i < |r| && 0 <= j < |r[i]| ==> r[i][j] !in WHITESPACE
    ensures var r := SplitWhitespace(s);
      forall i :: 1 <= i < |r| ==> r[i] != ""
  {
    if Contains(s, WHITESPACE) {
      var p := Pieces(s, WHITESPACE);
      var rest := NonEmpty(p[1..]);
      NonEmptyKeeps(p[1..]);
      var q := [p[0]] + rest;
      assert forall i :: 1 <= i < |q| ==> q[i] == rest[i - 1];
      assert forall i :: 0 <= i < |q| ==> q[i] in p;
    }
  }

  // ---------------------------------------------------------------------------
  // Number and range lines

  /**
   * `Long.parseLong(s)` for an unsigned decimal string, None for every other string: where
   * `Long.parseLong` throws, and also for a leading '+' or '-', which it would read.
   */
  function ParseLong(s: string): (r: Option<nat>)
    ensures r.Some? <==> IsDigits(s)
  {
    if IsDigits(s) then Some(ParseNat(s)) else None
  }

  /**
   * `Integer.parseInt(s)`: an optional '+' or '-' followed by at least one digit, with a value
   * inside the 32-bit range; None where it throws.
   */
  function ParseInt(s: string): (r: Option<int>)
    ensures r.Some? ==> IsInt(r.value)
    ensures IsDigits(s) ==> r == if ParseNat(s) <= INT_MAX then Some(ParseNat(s)) else None
  {
    var signed := |s| > 0 && (s[0] == '-' || s[0] == '+');
    var digits := if signed then s[1..] else s;
    if !IsDigits(digits) then None
    else
      var v: int := if signed && s[0] == '-' then -(ParseNat(digits) as int) else ParseNat(digits);
      if IsInt(v) then Some(v) else None
  }

  /** `Integer.toString(v)` parses back to v for every int. */
  lemma ParseIntDecimal(v: int)
    requires IsInt(v)
    ensures v >= 0 ==> ParseInt(Decimal(v)) == Some(v)
    ensures v < 0 ==> ParseInt(['-'] + Decimal(-v)) == Some(v)
  {
    if v < 0 {
      var s := ['-'] + Decimal(-v);
      assert s[1..] == Decimal(-v);
    }
  }

  /**
   * A "begin-end" line: split on '-', both pieces trimmed and parsed; None where the Java
   * code throws (a missing piece or a piece that is not a number).
   */
  function ParseRange(range: string): (r: Option<(nat, nat)>)
    ensures !Contains(range, {'-'}) ==> r == None
  {
    var rangeSplit := SplitOn(range, {'-'});
    if |rangeSplit| < 2 then None
    else
      var b, e := ParseLong(Trim(rangeSplit[0])), ParseLong(Trim(rangeSplit[1]));
      if b.Some? && e.Some? then Some((b.value, e.value)) else None
  }

  /** Digits are never cut off by `trim()`. */
  lemma TrimDigits(s: string)
    requires IsDigits(s)
    ensures Trim(s) == s
  {
    assert !IsTrimmed(s[0]) && !IsTrimmed(s[|s| - 1]);
  }

  /** Two separator-free pieces joined by one separator split back into those two pieces. */
  lemma SplitPair(a: string, sep: char, b: string)
    requires forall i :: 0 <= i < |a| ==> a[i] != sep
    requires forall i :: 0 <= i < |b| ==> b[i] != sep
    requires b != ""
    ensures SplitOn(a + [sep] + b, {sep}) == [a, b]
  {
    var s := a + [sep] + b;
    PiecesAfter(a, sep, b, {sep});
    PiecesWithout(b, {sep});
    assert s[|a|] == sep;
  }

  /** A range printed as "begin-end" reads back as (begin, end). */
  lemma ParseRangeDecimal(b: nat, e: nat)
    ensures ParseRange(Decimal(b) + "-" + Decimal(e)) == Some((b, e))
  {
    var db, de := Decimal(b), Decimal(e);
    assert forall i :: 0 <= i < |db| ==> IsDigit(db[i]);
    assert forall i :: 0 <= i < |de| ==> IsDigit(de[i]);
    assert db + "-" + de == db + ['-'] + de;
    SplitPair(db, '-', de);
    TrimDigits(db);
    TrimDigits(de);
  }

  /** Every line parsed as a range, or None when some line makes the Java code throw. */
  function ParseRanges(pieces: seq<string>): Option<seq<(nat, nat)>>
  {
    if pieces == [] then Some([])
    else
      match ParseRanges(pieces[..|pieces| - 1])
      case None => None
      case Some(ranges) =>
        match ParseRange(pieces[|pieces| - 1])
        case None => None
        case Some(range) => Some(ranges + [range])
  }

  lemma {:induction false} ParseRangesPrefixFails(pieces: seq<string>, i: nat)
    requires i <= |pieces| && ParseRanges(pieces[..i]) == None
    ensures ParseRanges(pieces) == None
  {
    if i < |pieces| {
      assert pieces[..|pieces| - 1][..i] == pieces[..i];
      ParseRangesPrefixFails(pieces[..|pieces| - 1], i);
    } else {
      assert pieces[..i] == pieces;
    }
  }

  lemma ParseRangesStep(pieces: seq<string>, i: nat, ranges: seq<(nat, nat)>)
    requires i < |pieces| && ParseRanges(pieces[..i]) == Some(ranges)
    ensures ParseRange(pieces[i]).None? ==> ParseRanges(pieces) == None
    ensures ParseRange(pieces[i]).Some? ==>
      ParseRanges(pieces[..i + 1]) == Some(ranges + [ParseRange(pieces[i]).value])
  {
    assert pieces[..i + 1][..i] == pieces[..i];
    if ParseRange(pieces[i]).None? {
      ParseRangesPrefixFails(pieces, i + 1);
    }
  }
}
