/**
 * Values shared by the nine solvers: an optional value, the exceptions the solvers
 * can throw (as values), and sums and products over sequences of integers.
 */
module Common {

  datatype Option<T> = None | Some(value: T)

  /** The exceptions a solver can end with. */
  datatype Failure =
    | NoBatteryFound      // RuntimeException thrown by DayThree's searches
    | IllegalArgument     // IllegalArgumentException
    | IllegalState        // IllegalStateException
    | NullDereference     // NullPointerException on a missing map entry
    | ArithmeticOverflow  // ArithmeticException from Math.multiplyExact
    | MalformedInput      // NumberFormatException or ArrayIndexOutOfBoundsException while parsing
    | NoSuchElement       // NoSuchElementException from getFirst() on an empty list
    | IndexOutOfBounds    // IndexOutOfBoundsException from List.get, an array index or String.charAt

  datatype Result<T> = Ok(value: T) | Err(failure: Failure)

  /** The sum of a sequence, as `stream().mapToLong(..).sum()` or a summing loop computes it. */
  function Sum(s: seq<int>): int
  {
    if s == [] then 0 else Sum(s[..|s| - 1]) + s[|s| - 1]
  }

  /** The product of a sequence, as `reduce(1, (a, b) -> a * b)` computes it. */
  function Product(s: seq<int>): int
  {
    if s == [] then 1 else Product(s[..|s| - 1]) * s[|s| - 1]
  }

  lemma SumAppend(s: seq<int>, t: seq<int>)
    ensures Sum(s + t) == Sum(s) + Sum(t)
  {
    if t == [] {
      assert s + t == s;
    } else {
      assert (s + t)[..|s + t| - 1] == s + t[..|t| - 1];
      SumAppend(s, t[..|t| - 1]);
    }
  }

  lemma SumNonNegative(s: seq<int>)
    requires forall i :: 0 <= i < |s| ==> s[i] >= 0
    ensures Sum(s) >= 0
  {
    if s != [] {
      SumNonNegative(s[..|s| - 1]);
    }
  }

  /** `Math.min` and `Math.max`. */
  function Min(a: int, b: int): int { if a <= b then a else b }
  function Max(a: int, b: int): int { if a < b then b else a }

  /** `order` lists every key of `keys` exactly once: one iteration order of a hash map's entries. */
  predicate IsListing(order: seq<int>, keys: set<int>)
  {
    && (forall i :: 0 <= i < |order| ==> order[i] in keys)
    && (forall k :: k in keys ==> k in order)
    && (forall i, j :: 0 <= i < j < |order| ==> order[i] != order[j])
  }

  /**
   * Any element of a non-empty set of integers. The choice goes through the pairs of a map
   * built on the set, which the verifier handles more readily than a choice from the set itself.
   */
  method Choose(s: set<int>) returns (x: int)
    requires s != {}
    ensures x in s
  {
    var pairs := map y | y in s :: 0;
    assert pairs.Keys == s;
    var entry :| entry in pairs.Items;
    x := entry.0;
  }

  /** The keys of a map in whatever order its entry set hands them out. */
  method ListKeys<V>(m: map<int, V>) returns (order: seq<int>)
    ensures IsListing(order, m.Keys)
  {
    order := [];
    var remaining := m.Keys;
    while remaining != {}
      invariant remaining <= m.Keys
      invariant forall k :: k in m.Keys && k !in remaining ==> k in order
      invariant forall i :: 0 <= i < |order| ==> order[i] in m.Keys && order[i] !in remaining
      invariant forall i, j :: 0 <= i < j < |order| ==> order[i] != order[j]
      decreases |remaining|
    {
      var key := Choose(remaining);
      order := order + [key];
      remaining := remaining - {key};
    }
  }

  /** 32-bit and 64-bit signed ranges, for the places where the source's integer width matters. */
  const INT_MIN: int := -0x8000_0000
  const INT_MAX: int := 0x7fff_ffff
  const LONG_MIN: int := -0x8000_0000_0000_0000
  const LONG_MAX: int := 0x7fff_ffff_ffff_ffff

  predicate IsInt(x: int) { INT_MIN <= x <= INT_MAX }
  predicate IsLong(x: int) { LONG_MIN <= x <= LONG_MAX }
}
