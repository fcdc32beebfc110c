/** Sums over finite sets, for totals that do not depend on an order, and sets of ids put in order. */
module SetSums {

  lemma SomeMember<T>(s: set<T>) returns (x: T)
    requires s != {}
    ensures x in s
  {
    x :| x in s;
  }

  ghost function SumOver<T(!new)>(s: set<T>, f: T -> int): int {
    if s == {} then 0
    else var x :| x in s; f(x) + SumOver(s - {x}, f)
  }

  lemma {:induction false} SumRemove<T(!new)>(s: set<T>, x: T, f: T -> int)
    requires x in s
    ensures SumOver(s, f) == f(x) + SumOver(s - {x}, f)
  {
    var y :| y in s && SumOver(s, f) == f(y) + SumOver(s - {y}, f);
    if y != x {
      SumRemove(s - {y}, x, f);
      SumRemove(s - {x}, y, f);
      assert s - {y} - {x} == s - {x} - {y};
    }
  }

  lemma SumInsert<T(!new)>(s: set<T>, x: T, f: T -> int)
    requires x !in s
    ensures SumOver(s + {x}, f) == f(x) + SumOver(s, f)
  {
    SumRemove(s + {x}, x, f);
    assert s + {x} - {x} == s;
  }

  lemma {:induction false} SumSame<T(!new)>(s: set<T>, f: T -> int, g: T -> int)
    requires forall x :: x in s ==> f(x) == g(x)
    ensures SumOver(s, f) == SumOver(s, g)
  {
    if s != {} {
      var x :| x in s;
      SumRemove(s, x, f);
      SumRemove(s, x, g);
      SumSame(s - {x}, f, g);
    }
  }

  lemma {:induction false} SumDifference<T(!new)>(s: set<T>, f: T -> int, g: T -> int)
    ensures SumOver(s, f) - SumOver(s, g) == SumOver(s, x => f(x) - g(x))
  {
    var h := x => f(x) - g(x);
    if s != {} {
      var x :| x in s;
      SumRemove(s, x, f);
      SumRemove(s, x, g);
      SumRemove(s, x, h);
      SumDifference(s - {x}, f, g);
      SumSame(s - {x}, h, y => f(y) - g(y));
    }
  }

  /** Elements with nothing to add can be left out. */
  lemma {:induction false} SumDropZeros<T(!new)>(small: set<T>, big: set<T>, f: T -> int)
    requires small <= big && forall x :: x in big - small ==> f(x) == 0
    ensures SumOver(small, f) == SumOver(big, f)
  {
    if big - small == {} {
      assert small == small + (big - small) == big;
    } else {
      var x :| x in big - small;
      SumRemove(big, x, f);
      SumDropZeros(small, big - {x}, f);
    }
  }

  /** Two sums over different sets, subtracted over their union. */
  lemma SumUnionDifference<T(!new)>(a: set<T>, b: set<T>, f: T -> int, g: T -> int, h: T -> int)
    requires forall x :: x in b - a ==> f(x) == 0
    requires forall x :: x in a - b ==> g(x) == 0
    requires forall x :: x in a + b ==> h(x) == f(x) - g(x)
    ensures SumOver(a, f) - SumOver(b, g) == SumOver(a + b, h)
  {
    SumDropZeros(a, a + b, f);
    SumDropZeros(b, a + b, g);
    SumDifference(a + b, f, g);
    SumSame(a + b, x => f(x) - g(x), h);
  }

  lemma {:induction false} SumAdd<T(!new)>(s: set<T>, f: T -> int, g: T -> int, h: T -> int)
    requires forall x :: x in s ==> h(x) == f(x) + g(x)
    ensures SumOver(s, h) == SumOver(s, f) + SumOver(s, g)
  {
    if s != {} {
      var x :| x in s;
      SumRemove(s, x, f);
      SumRemove(s, x, g);
      SumRemove(s, x, h);
      SumAdd(s - {x}, f, g, h);
    }
  }

  /** A sum with one element that counts. */
  lemma SumOnlyAt<T(!new)>(s: set<T>, x: T, f: T -> int)
    requires x in s && forall y :: y in s && y != x ==> f(y) == 0
    ensures SumOver(s, f) == f(x)
  {
    SumRemove(s, x, f);
    SumDropZeros({}, s - {x}, f);
  }

  /** Splitting a set splits its sum. */
  lemma {:induction false} SumSplit<T(!new)>(a: set<T>, b: set<T>, f: T -> int)
    requires a !! b
    ensures SumOver(a + b, f) == SumOver(a, f) + SumOver(b, f)
  {
    if a == {} {
      assert a + b == b;
    } else {
      var x :| x in a;
      SumRemove(a, x, f);
      SumRemove(a + b, x, f);
      assert a + b - {x} == (a - {x}) + b;
      SumSplit(a - {x}, b, f);
    }
  }

  // ----- Ids in order -----

  predicate IsLeast(s: set<int>, x: int) {
    x in s && forall y :: y in s ==> x <= y
  }

  lemma {:induction false} LeastExists(s: set<int>)
    requires s != {}
    ensures exists x :: IsLeast(s, x)
  {
    var x := SomeMember(s);
    var rest := s - {x};
    if rest == {} {
      assert forall y :: y in s ==> y in rest || y == x;
      assert IsLeast(s, x);
    } else {
      LeastExists(rest);
      var least :| IsLeast(rest, least);
      assert forall y :: y in s ==> y in rest || y == x;
      assert IsLeast(s, if least <= x then least else x);
    }
  }

  function Least(s: set<int>): (x: int)
    requires s != {}
    ensures x in s && forall y :: y in s ==> x <= y
  {
    LeastExists(s);
    var x :| IsLeast(s, x);
    x
  }

  /** `sorted(s)` for a set of ids. */
  function SortedIds(s: set<int>): (ids: seq<int>)
    ensures forall i :: 0 <= i < |ids| ==> ids[i] in s
    ensures forall i, j :: 0 <= i < j < |ids| ==> ids[i] < ids[j]
  {
    if s == {} then [] else [Least(s)] + SortedIds(s - {Least(s)})
  }

  /** A sequence without repetitions has as many elements as members. */
  lemma {:induction false} DistinctSize<T>(xs: seq<T>)
    requires forall i, j :: 0 <= i < j < |xs| ==> xs[i] != xs[j]
    ensures |set x | x in xs| == |xs|
  {
    if xs != [] {
      var last, rest := xs[|xs| - 1], xs[..|xs| - 1];
      DistinctSize(rest);
      assert (set x | x in xs) == (set x | x in rest) + {last};
    }
  }

  ghost function Members(ids: seq<int>): set<int> {
    set id | id in ids
  }

  lemma MembersGrow(ids: seq<int>)
    requires ids != [] && ids[|ids| - 1] !in ids[..|ids| - 1]
    ensures Members(ids) == Members(ids[..|ids| - 1]) + {ids[|ids| - 1]}
    ensures ids[|ids| - 1] !in Members(ids[..|ids| - 1])
  {
    assert ids == ids[..|ids| - 1] + [ids[|ids| - 1]];
  }

  lemma {:induction false} SortedIdsHold(all: set<int>)
    ensures Members(SortedIds(all)) == all
    ensures forall x :: x in SortedIds(all) <==> x in all
  {
    if all != {} {
      var rest := all - {Least(all)};
      SortedIdsHold(rest);
      assert forall x :: x in SortedIds(all) <==> x == Least(all) || x in SortedIds(rest);
    }
  }
}
