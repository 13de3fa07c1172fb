/**
 * Day08's circuits: the list of box sets that `connectBoxToCircuits` grows by creating a circuit,
 * extending one, or merging the circuits the two boxes lie in.
 */
module Day08Circuits {
  import opened Common
  import opened Day08Distances

  /** The boxes one chain of connections joins (a `Set<String>` of box names). */
  type Circuit = set<Box>

  /** Every box in some circuit of the list. */
  function UnionAll(s: seq<Circuit>): set<Box>
  {
    if s == [] then {} else s[0] + UnionAll(s[1..])
  }

  /** No box lies in two circuits. */
  predicate Disjoint(s: seq<Circuit>)
  {
    s == [] || (s[0] !! UnionAll(s[1..]) && Disjoint(s[1..]))
  }

  predicate NonEmptyCircuits(s: seq<Circuit>)
  {
    forall i :: 0 <= i < |s| ==> s[i] != {}
  }

  /** `isAlreadyConnected`: some circuit holds both boxes, so both are already in a circuit. */
  predicate IsAlreadyConnected(s: seq<Circuit>, a: Box, b: Box)
    ensures IsAlreadyConnected(s, a, b) ==> a in UnionAll(s) && b in UnionAll(s)
  {
    UnionMember(s, a);
    UnionMember(s, b);
    exists i :: 0 <= i < |s| && a in s[i] && b in s[i]
  }

  predicate Touches(c: Circuit, a: Box, b: Box)
  {
    a in c || b in c
  }

  /** The stream filter of `connectBoxToCircuits`: the circuits holding a or b, in list order. */
  function Touching(s: seq<Circuit>, a: Box, b: Box): (t: seq<Circuit>)
    ensures |t| <= |s|
    ensures forall k :: 0 <= k < |t| ==> Touches(t[k], a, b)
  {
    if s == [] then []
    else if Touches(s[0], a, b) then [s[0]] + Touching(s[1..], a, b)
    else Touching(s[1..], a, b)
  }

  /** The circuits holding neither box, in list order. */
  function Untouched(s: seq<Circuit>, a: Box, b: Box): (u: seq<Circuit>)
    ensures forall k :: 0 <= k < |u| ==> !Touches(u[k], a, b) && u[k] in s
  {
    if s == [] then []
    else if Touches(s[0], a, b) then Untouched(s[1..], a, b)
    else [s[0]] + Untouched(s[1..], a, b)
  }

  /** `findFirst` after the filter: the index of the first circuit holding a or b. */
  function FirstTouching(s: seq<Circuit>, a: Box, b: Box): (i: nat)
    requires Touching(s, a, b) != []
    ensures i < |s| && Touches(s[i], a, b)
    ensures forall k :: 0 <= k < i ==> !Touches(s[k], a, b)
  {
    if Touches(s[0], a, b) then 0 else 1 + FirstTouching(s[1..], a, b)
  }

  /** `List.remove(Object)`: drops the first circuit equal to c, if there is one. */
  function RemoveFirst(s: seq<Circuit>, c: Circuit): seq<Circuit>
  {
    if s == [] then []
    else if s[0] == c then s[1..]
    else [s[0]] + RemoveFirst(s[1..], c)
  }

  /** `remove` applied for each circuit of m in turn. */
  function RemoveAll(s: seq<Circuit>, m: seq<Circuit>): seq<Circuit>
    decreases |m|
  {
    if m == [] then s else RemoveAll(RemoveFirst(s, m[0]), m[1..])
  }

  /**
   * `connectBoxToCircuits` on the list's value: a new circuit {a, b} when no circuit holds either
   * box; both boxes added to the one circuit holding one of them; otherwise every circuit holding
   * either box removed and their union appended.
   */
  function Connect(s: seq<Circuit>, a: Box, b: Box): (r: seq<Circuit>)
    ensures r != []
  {
    var toMerge := Touching(s, a, b);
    if |toMerge| == 0 then s + [{a, b}]
    else if |toMerge| == 1 then
      var i := FirstTouching(s, a, b);
      s[i := s[i] + {a, b}]
    else RemoveAll(s, toMerge) + [UnionAll(toMerge)]
  }

  /** The list of circuits Day08 keeps, updated in place. */
  class CircuitList {
    var circuits: seq<Circuit>

    constructor()
      ensures circuits == []
    {
      circuits := [];
    }

    /** `connectBoxToCircuits`: the list afterwards is `Connect` of the list before. */
    method ConnectBoxToCircuits(a: Box, b: Box)
      modifies this
      ensures circuits == Connect(old(circuits), a, b)
    {
      var circuitsFound := |Touching(circuits, a, b)|;
      if circuitsFound == 0 {
        circuits := circuits + [{a, b}];
      } else if circuitsFound == 1 {
        var i := FirstTouching(circuits, a, b);
        circuits := circuits[i := circuits[i] + {a, b}];
      } else {
        var newCircuit: Circuit := {};
        var circuitsToMerge := Touching(circuits, a, b);
        assert circuitsToMerge[0..] == circuitsToMerge;
        for k := 0 to |circuitsToMerge|
          invariant RemoveAll(circuits, circuitsToMerge[k..]) == RemoveAll(old(circuits), circuitsToMerge)
          invariant newCircuit + UnionAll(circuitsToMerge[k..]) == UnionAll(circuitsToMerge)
        {
          assert circuitsToMerge[k..][1..] == circuitsToMerge[k + 1..];
          circuits := RemoveFirst(circuits, circuitsToMerge[k]);
          newCircuit := newCircuit + circuitsToMerge[k];
        }
        assert circuitsToMerge[|circuitsToMerge|..] == [];
        circuits := circuits + [newCircuit];
      }
    }
  }

  // ---------------------------------------------------------------------------
  // Unions and filters

  lemma {:induction false} UnionMember(s: seq<Circuit>, x: Box)
    ensures x in UnionAll(s) <==> exists i :: 0 <= i < |s| && x in s[i]
  {
    if s != [] {
      UnionMember(s[1..], x);
      if x in UnionAll(s[1..]) {
        var i :| 0 <= i < |s[1..]| && x in s[1..][i];
        assert x in s[i + 1];
      }
      if exists i :: 0 <= i < |s| && x in s[i] {
        var i :| 0 <= i < |s| && x in s[i];
        if i > 0 {
          assert x in s[1..][i - 1];
        }
      }
    }
  }

  lemma {:induction false} UnionAppend(s: seq<Circuit>, c: Circuit)
    ensures UnionAll(s + [c]) == UnionAll(s) + c
  {
    if s != [] {
      assert (s + [c])[1..] == s[1..] + [c];
      UnionAppend(s[1..], c);
    } else {
      assert [c][1..] == [];
    }
  }

  lemma {:induction false} UnionUpdate(s: seq<Circuit>, i: nat, x: set<Box>)
    requires i < |s|
    ensures UnionAll(s[i := s[i] + x]) == UnionAll(s) + x
  {
    if i == 0 {
      assert s[i := s[i] + x][1..] == s[1..];
    } else {
      assert s[i := s[i] + x][1..] == s[1..][i - 1 := s[i] + x];
      UnionUpdate(s[1..], i - 1, x);
    }
  }

  /** The filter splits the list: together the two halves hold every circuit and every box. */
  lemma {:induction false} FilterSplit(s: seq<Circuit>, a: Box, b: Box)
    ensures |Touching(s, a, b)| + |Untouched(s, a, b)| == |s|
    ensures UnionAll(Touching(s, a, b)) + UnionAll(Untouched(s, a, b)) == UnionAll(s)
  {
    if s != [] {
      FilterSplit(s[1..], a, b);
      var t', u' := Touching(s[1..], a, b), Untouched(s[1..], a, b);
      if Touches(s[0], a, b) {
        assert ([s[0]] + t')[1..] == t';
      } else {
        assert ([s[0]] + u')[1..] == u';
      }
    }
  }

  /** No circuit holds a or b exactly when neither box is in any circuit. */
  lemma {:induction false} TouchingNone(s: seq<Circuit>, a: Box, b: Box)
    ensures Touching(s, a, b) == [] <==> a !in UnionAll(s) && b !in UnionAll(s)
  {
    if s != [] {
      TouchingNone(s[1..], a, b);
    }
  }

  /** Over disjoint circuits at most one holds a and at most one holds b. */
  lemma {:induction false} TouchingCount(s: seq<Circuit>, a: Box, b: Box)
    requires Disjoint(s)
    ensures |Touching(s, a, b)| <= (if a in UnionAll(s) then 1 else 0) + (if b in UnionAll(s) then 1 else 0)
  {
    if s != [] {
      TouchingCount(s[1..], a, b);
    }
  }

  lemma {:induction false} DisjointAppend(s: seq<Circuit>, c: Circuit)
    requires Disjoint(s) && c !! UnionAll(s)
    ensures Disjoint(s + [c])
  {
    if s == [] {
      assert [c][1..] == [];
    } else {
      assert (s + [c])[1..] == s[1..] + [c];
      DisjointAppend(s[1..], c);
      UnionAppend(s[1..], c);
    }
  }

  lemma {:induction false} DisjointUpdate(s: seq<Circuit>, i: nat, x: set<Box>)
    requires Disjoint(s) && i < |s|
    requires forall k :: 0 <= k < |s| && k != i ==> x !! s[k]
    ensures Disjoint(s[i := s[i] + x])
  {
    var r := s[i := s[i] + x];
    if i == 0 {
      assert r[1..] == s[1..];
      forall y | y in x
        ensures y !in UnionAll(s[1..])
      {
        UnionMember(s[1..], y);
      }
    } else {
      assert r[1..] == s[1..][i - 1 := s[i] + x];
      forall k | 0 <= k < |s[1..]| && k != i - 1
        ensures x !! s[1..][k]
      {
        assert s[1..][k] == s[k + 1];
      }
      DisjointUpdate(s[1..], i - 1, x);
      UnionUpdate(s[1..], i - 1, x);
      assert x !! s[0];
    }
  }

  /** Filtering keeps the untouched circuits disjoint, and apart from the touched ones. */
  lemma {:induction false} DisjointFilter(s: seq<Circuit>, a: Box, b: Box)
    requires Disjoint(s)
    ensures Disjoint(Untouched(s, a, b))
    ensures UnionAll(Untouched(s, a, b)) !! UnionAll(Touching(s, a, b))
  {
    if s != [] {
      DisjointFilter(s[1..], a, b);
      FilterSplit(s[1..], a, b);
      var t', u' := Touching(s[1..], a, b), Untouched(s[1..], a, b);
      if Touches(s[0], a, b) {
        assert ([s[0]] + t')[1..] == t';
      } else {
        assert ([s[0]] + u')[1..] == u';
      }
    }
  }

  /** When only one circuit holds a or b, every other circuit holds neither. */
  lemma {:induction false} OnlyTouching(s: seq<Circuit>, a: Box, b: Box)
    requires |Touching(s, a, b)| == 1
    ensures forall k :: 0 <= k < |s| && k != FirstTouching(s, a, b) ==> !Touches(s[k], a, b)
  {
    if Touches(s[0], a, b) {
      TouchingNone(s[1..], a, b);
      forall k | 0 < k < |s|
        ensures !Touches(s[k], a, b)
      {
        UnionMember(s[1..], a);
        UnionMember(s[1..], b);
        assert s[k] == s[1..][k - 1];
      }
    } else {
      OnlyTouching(s[1..], a, b);
      forall k | 0 < k < |s| && k != FirstTouching(s, a, b)
        ensures !Touches(s[k], a, b)
      {
        assert s[k] == s[1..][k - 1];
      }
    }
  }

  /** Removing circuits that are all different from c keeps c at the front. */
  lemma {:induction false} RemoveAllSkips(c: Circuit, s: seq<Circuit>, m: seq<Circuit>)
    requires forall k :: 0 <= k < |m| ==> m[k] != c
    ensures RemoveAll([c] + s, m) == [c] + RemoveAll(s, m)
    decreases |m|
  {
    if m != [] {
      assert ([c] + s)[1..] == s;
      assert RemoveFirst([c] + s, m[0]) == [c] + RemoveFirst(s, m[0]);
      RemoveAllSkips(c, RemoveFirst(s, m[0]), m[1..]);
    }
  }

  /** The merge's removal loop leaves exactly the circuits holding neither box. */
  lemma {:induction false} RemoveTouching(s: seq<Circuit>, a: Box, b: Box)
    ensures RemoveAll(s, Touching(s, a, b)) == Untouched(s, a, b)
  {
    if s != [] {
      var t' := Touching(s[1..], a, b);
      RemoveTouching(s[1..], a, b);
      if Touches(s[0], a, b) {
        assert ([s[0]] + t')[0] == s[0] && ([s[0]] + t')[1..] == t';
      } else {
        assert [s[0]] + s[1..] == s;
        RemoveAllSkips(s[0], s[1..], t');
      }
    }
  }

  // ---------------------------------------------------------------------------
  // What a connection does

  /**
   * Over disjoint circuits at most two hold a or b, and the number of circuits changes by +1, 0 or
   * -1 when none, one or two of them do.
   */
  lemma ConnectCount(s: seq<Circuit>, a: Box, b: Box)
    requires Disjoint(s)
    ensures |Touching(s, a, b)| <= 2
    ensures |Connect(s, a, b)| == |s| + 1 - |Touching(s, a, b)|
  {
    TouchingCount(s, a, b);
    RemoveTouching(s, a, b);
    FilterSplit(s, a, b);
  }

  /** When two circuits hold a or b, the disjoint circuits hold both boxes between them. */
  lemma MergeHoldsBoth(s: seq<Circuit>, a: Box, b: Box)
    requires Disjoint(s) && |Touching(s, a, b)| >= 2
    ensures a in UnionAll(Touching(s, a, b)) && b in UnionAll(Touching(s, a, b))
  {
    TouchingCount(s, a, b);
    FilterSplit(s, a, b);
    var u := Untouched(s, a, b);
    UnionMember(u, a);
    UnionMember(u, b);
  }

  /** The boxes in circuits grow by exactly a and b. */
  lemma ConnectUnion(s: seq<Circuit>, a: Box, b: Box)
    requires Disjoint(s)
    ensures UnionAll(Connect(s, a, b)) == UnionAll(s) + {a, b}
  {
    var toMerge := Touching(s, a, b);
    if |toMerge| == 0 {
      UnionAppend(s, {a, b});
    } else if |toMerge| == 1 {
      UnionUpdate(s, FirstTouching(s, a, b), {a, b});
    } else {
      RemoveTouching(s, a, b);
      FilterSplit(s, a, b);
      MergeHoldsBoth(s, a, b);
      UnionAppend(Untouched(s, a, b), UnionAll(toMerge));
    }
  }

  /** No box lies in two circuits afterwards either. */
  lemma ConnectDisjoint(s: seq<Circuit>, a: Box, b: Box)
    requires Disjoint(s)
    ensures Disjoint(Connect(s, a, b))
  {
    var toMerge := Touching(s, a, b);
    if |toMerge| == 0 {
      TouchingNone(s, a, b);
      DisjointAppend(s, {a, b});
    } else if |toMerge| == 1 {
      var i := FirstTouching(s, a, b);
      OnlyTouching(s, a, b);
      DisjointUpdate(s, i, {a, b});
    } else {
      RemoveTouching(s, a, b);
      DisjointFilter(s, a, b);
      DisjointAppend(Untouched(s, a, b), UnionAll(toMerge));
    }
  }

  /** Afterwards a and b share a circuit. */
  lemma ConnectJoins(s: seq<Circuit>, a: Box, b: Box)
    requires Disjoint(s)
    ensures IsAlreadyConnected(Connect(s, a, b), a, b)
  {
    var toMerge := Touching(s, a, b);
    var r := Connect(s, a, b);
    if |toMerge| == 0 {
      assert a in r[|s|] && b in r[|s|];
    } else if |toMerge| == 1 {
      var i := FirstTouching(s, a, b);
      assert a in r[i] && b in r[i];
    } else {
      MergeHoldsBoth(s, a, b);
      RemoveTouching(s, a, b);
      assert a in r[|r| - 1] && b in r[|r| - 1];
    }
  }

  /** Boxes that shared a circuit still do. */
  lemma ConnectKeepsConnected(s: seq<Circuit>, a: Box, b: Box, x: Box, y: Box)
    requires IsAlreadyConnected(s, x, y)
    ensures IsAlreadyConnected(Connect(s, a, b), x, y)
  {
    var toMerge := Touching(s, a, b);
    var r := Connect(s, a, b);
    var k :| 0 <= k < |s| && x in s[k] && y in s[k];
    if |toMerge| == 0 {
      assert r[k] == s[k];
    } else if |toMerge| == 1 {
      assert x in r[k] && y in r[k];
    } else {
      RemoveTouching(s, a, b);
      if Touches(s[k], a, b) {
        TouchingListed(s, a, b, k);
        UnionMember(toMerge, x);
        UnionMember(toMerge, y);
        assert x in r[|r| - 1] && y in r[|r| - 1];
      } else {
        UntouchedListed(s, a, b, k);
        var u := Untouched(s, a, b);
        var j :| 0 <= j < |u| && u[j] == s[k];
        assert r[j] == s[k];
      }
    }
  }

  lemma {:induction false} TouchingListed(s: seq<Circuit>, a: Box, b: Box, k: nat)
    requires k < |s| && Touches(s[k], a, b)
    ensures exists j :: 0 <= j < |Touching(s, a, b)| && Touching(s, a, b)[j] == s[k]
  {
    var t := Touching(s, a, b);
    if k == 0 {
      assert t[0] == s[0];
    } else {
      TouchingListed(s[1..], a, b, k - 1);
      var t' := Touching(s[1..], a, b);
      var j :| 0 <= j < |t'| && t'[j] == s[1..][k - 1];
      if Touches(s[0], a, b) {
        assert t[j + 1] == t'[j];
      } else {
        assert t[j] == t'[j];
      }
    }
  }

  lemma {:induction false} UntouchedListed(s: seq<Circuit>, a: Box, b: Box, k: nat)
    requires k < |s| && !Touches(s[k], a, b)
    ensures exists j :: 0 <= j < |Untouched(s, a, b)| && Untouched(s, a, b)[j] == s[k]
  {
    var u := Untouched(s, a, b);
    if k == 0 {
      assert u[0] == s[0];
    } else {
      UntouchedListed(s[1..], a, b, k - 1);
      var u' := Untouched(s[1..], a, b);
      var j :| 0 <= j < |u'| && u'[j] == s[1..][k - 1];
      if Touches(s[0], a, b) {
        assert u[j] == u'[j];
      } else {
        assert u[j + 1] == u'[j];
      }
    }
  }

  /** Circuits stay non-empty. */
  lemma ConnectNonEmpty(s: seq<Circuit>, a: Box, b: Box)
    requires NonEmptyCircuits(s)
    ensures NonEmptyCircuits(Connect(s, a, b))
  {
    var toMerge := Touching(s, a, b);
    var r := Connect(s, a, b);
    if |toMerge| >= 2 {
      RemoveTouching(s, a, b);
      var u := Untouched(s, a, b);
      forall k | 0 <= k < |r|
        ensures r[k] != {}
      {
        if k < |u| {
          assert r[k] == u[k] && u[k] in s;
        } else {
          assert toMerge[0] != {} by {
            assert Touches(toMerge[0], a, b);
          }
          assert toMerge[0] <= UnionAll(toMerge);
        }
      }
    }
  }

  /**
   * Over disjoint non-empty circuits inside `boxes`, the first circuit holds as many boxes as
   * there are exactly when it is the only circuit and holds them all.
   */
  lemma FirstFullIffOne(s: seq<Circuit>, boxes: set<Box>)
    requires s != [] && Disjoint(s) && NonEmptyCircuits(s) && UnionAll(s) <= boxes
    ensures |s[0]| == |boxes| <==> s == [boxes]
  {
    if |s[0]| == |boxes| {
      assert s[0] <= boxes;
      SubsetSameSize(s[0], boxes);
      assert |s| == 1;
      assert s == [s[0]];
    }
  }

  lemma SubsetSameSize(a: set<Box>, b: set<Box>)
    requires a <= b && |a| == |b|
    ensures a == b
  {
    if a != b {
      assert exists x :: x in b && x !in a;
      var x :| x in b && x !in a;
      assert a <= b - {x};
      SubsetSize(a, b - {x});
      assert false;
    }
  }

  lemma {:induction false} SubsetSize(a: set<Box>, b: set<Box>)
    requires a <= b
    ensures |a| <= |b|
  {
    if a != {} {
      var x :| x in a;
      SubsetSize(a - {x}, b - {x});
    }
  }
}
