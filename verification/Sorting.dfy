/** Tuple keys compared element by element, stable sorting by such keys, and sums over sequences. */
module Sorting {

  type Key = seq<int>

  /** The lexicographic order of Python tuples: a proper prefix comes first. */
  predicate Less(a: Key, b: Key) {
    |b| > 0 && (|a| == 0 || a[0] < b[0] || (a[0] == b[0] && Less(a[1..], b[1..])))
  }

  lemma {:induction false} LessIsTotal(a: Key, b: Key)
    ensures a != b <==> Less(a, b) || Less(b, a)
    ensures !(Less(a, b) && Less(b, a))
  {
    if |a| > 0 && |b| > 0 {
      LessIsTotal(a[1..], b[1..]);
      assert a == [a[0]] + a[1..] && b == [b[0]] + b[1..];
    }
  }

  lemma {:induction false} LessIsTransitive(a: Key, b: Key, c: Key)
    ensures Less(a, b) && Less(b, c) ==> Less(a, c)
  {
    if |a| > 0 && |b| > 0 && |c| > 0 {
      LessIsTransitive(a[1..], b[1..], c[1..]);
    }
  }

  // ----- Stable sorting -----

  /** True if a value with key a has to stand before a value with key b. */
  predicate Before(descending: bool, a: Key, b: Key) {
    if descending then Less(b, a) else Less(a, b)
  }

  function Insert<T>(x: T, xs: seq<T>, key: T -> Key, descending: bool): seq<T> {
    if xs == [] then [x]
    else if Before(descending, key(xs[0]), key(x)) then [xs[0]] + Insert(x, xs[1..], key, descending)
    else [x] + xs
  }

  /** `sorted(xs, key=key, reverse=descending)`: values with equal keys keep their order. */
  function Sort<T>(xs: seq<T>, key: T -> Key, descending: bool): seq<T> {
    if xs == [] then [] else Insert(xs[0], Sort(xs[1..], key, descending), key, descending)
  }

  ghost predicate Sorted<T(!new)>(xs: seq<T>, key: T -> Key, descending: bool) {
    forall i, j :: 0 <= i < j < |xs| ==> !Before(descending, key(xs[j]), key(xs[i]))
  }

  lemma {:induction false} InsertPermutes<T>(x: T, xs: seq<T>, key: T -> Key, descending: bool)
    ensures multiset(Insert(x, xs, key, descending)) == multiset{x} + multiset(xs)
  {
    if xs != [] {
      assert xs == [xs[0]] + xs[1..];
      if Before(descending, key(xs[0]), key(x)) {
        InsertPermutes(x, xs[1..], key, descending);
      }
    }
  }

  lemma {:induction false} SortPermutes<T>(xs: seq<T>, key: T -> Key, descending: bool)
    ensures multiset(Sort(xs, key, descending)) == multiset(xs)
    ensures |Sort(xs, key, descending)| == |xs|
  {
    if xs != [] {
      assert xs == [xs[0]] + xs[1..];
      SortPermutes(xs[1..], key, descending);
      InsertPermutes(xs[0], Sort(xs[1..], key, descending), key, descending);
    }
    assert |multiset(Sort(xs, key, descending))| == |multiset(xs)|;
  }

  lemma {:induction false} InsertSorted<T(!new)>(x: T, xs: seq<T>, key: T -> Key, descending: bool)
    requires Sorted(xs, key, descending)
    ensures Sorted(Insert(x, xs, key, descending), key, descending)
  {
    var ys := Insert(x, xs, key, descending);
    if xs != [] && Before(descending, key(xs[0]), key(x)) {
      InsertSorted(x, xs[1..], key, descending);
      InsertPermutes(x, xs[1..], key, descending);
      forall j | 0 < j < |ys| ensures !Before(descending, key(ys[j]), key(ys[0])) {
        assert ys[j] in multiset(ys[1..]) && ys[1..] == Insert(x, xs[1..], key, descending);
        assert ys[j] == x || ys[j] in xs[1..];
        LessIsTotal(key(x), key(xs[0]));
      }
    } else {
      forall j | 0 < j < |ys| ensures !Before(descending, key(ys[j]), key(x)) {
        LessIsTotal(key(xs[0]), key(x));
        LessIsTotal(key(xs[0]), key(ys[j]));
        LessIsTotal(key(x), key(ys[j]));
        LessIsTransitive(key(x), key(xs[0]), key(ys[j]));
        LessIsTransitive(key(ys[j]), key(x), key(xs[0]));
        LessIsTransitive(key(ys[j]), key(xs[0]), key(x));
        LessIsTransitive(key(xs[0]), key(x), key(ys[j]));
      }
    }
  }

  lemma {:induction false} SortSorts<T(!new)>(xs: seq<T>, key: T -> Key, descending: bool)
    ensures Sorted(Sort(xs, key, descending), key, descending)
  {
    if xs != [] {
      SortSorts(xs[1..], key, descending);
      InsertSorted(xs[0], Sort(xs[1..], key, descending), key, descending);
    }
  }

  /** Sorting what is already in order changes nothing, equal keys included. */
  lemma {:induction false} SortKeepsSorted<T(!new)>(xs: seq<T>, key: T -> Key, descending: bool)
    requires Sorted(xs, key, descending)
    ensures Sort(xs, key, descending) == xs
  {
    if xs != [] {
      SortKeepsSorted(xs[1..], key, descending);
    }
  }

  // ----- Sums and counts -----

  function Sum<T>(xs: seq<T>, f: T -> int): int {
    if xs == [] then 0 else f(xs[0]) + Sum(xs[1..], f)
  }

  function Count<T>(xs: seq<T>, p: T -> bool): (c: nat)
    ensures c <= |xs|
  {
    if xs == [] then 0 else (if p(xs[0]) then 1 else 0) + Count(xs[1..], p)
  }

  lemma {:induction false} SumConcat<T>(xs: seq<T>, ys: seq<T>, f: T -> int)
    ensures Sum(xs + ys, f) == Sum(xs, f) + Sum(ys, f)
  {
    if xs == [] {
      assert xs + ys == ys;
    } else {
      assert (xs + ys)[1..] == xs[1..] + ys;
      SumConcat(xs[1..], ys, f);
    }
  }

  lemma RemoveAt<T>(xs: seq<T>, i: nat)
    requires i < |xs|
    ensures multiset(xs[..i] + xs[i + 1..]) == multiset(xs) - multiset{xs[i]}
  {
    assert xs == xs[..i] + [xs[i]] + xs[i + 1..];
  }

  lemma SumRemoveAt<T>(xs: seq<T>, i: nat, f: T -> int)
    requires i < |xs|
    ensures Sum(xs, f) == f(xs[i]) + Sum(xs[..i] + xs[i + 1..], f)
  {
    SumConcat(xs[..i], xs[i + 1..], f);
    SumConcat(xs[..i], xs[i..], f);
    assert xs == xs[..i] + xs[i..];
  }

  lemma {:induction false} SumPermutation<T>(xs: seq<T>, ys: seq<T>, f: T -> int)
    requires multiset(xs) == multiset(ys)
    ensures Sum(xs, f) == Sum(ys, f)
    decreases |xs|
  {
    if xs == [] {
      assert |multiset(ys)| == 0;
    } else {
      assert xs[0] in multiset(ys);
      var i :| 0 <= i < |ys| && ys[i] == xs[0];
      RemoveAt(xs, 0);
      RemoveAt(ys, i);
      assert xs[..0] + xs[1..] == xs[1..];
      SumPermutation(xs[1..], ys[..i] + ys[i + 1..], f);
      SumRemoveAt(ys, i, f);
    }
  }

  lemma {:induction false} CountIsSum<T>(xs: seq<T>, p: T -> bool)
    ensures Count(xs, p) == Sum(xs, x => if p(x) then 1 else 0)
  {
    if xs != [] {
      CountIsSum(xs[1..], p);
    }
  }

  lemma CountPermutation<T>(xs: seq<T>, ys: seq<T>, p: T -> bool)
    requires multiset(xs) == multiset(ys)
    ensures Count(xs, p) == Count(ys, p)
  {
    CountIsSum(xs, p);
    CountIsSum(ys, p);
    SumPermutation(xs, ys, x => if p(x) then 1 else 0);
  }

  lemma {:induction false} CountConcat<T>(xs: seq<T>, ys: seq<T>, p: T -> bool)
    ensures Count(xs + ys, p) == Count(xs, p) + Count(ys, p)
  {
    if xs == [] {
      assert xs + ys == ys;
    } else {
      assert (xs + ys)[1..] == xs[1..] + ys;
      CountConcat(xs[1..], ys, p);
    }
  }

  lemma {:induction false} CountAllOrNone<T(!new)>(xs: seq<T>, p: T -> bool)
    ensures (forall x :: x in xs ==> p(x)) <==> Count(xs, p) == |xs|
    ensures (forall x :: x in xs ==> !p(x)) <==> Count(xs, p) == 0
  {
    if xs != [] {
      assert xs == [xs[0]] + xs[1..];
      CountAllOrNone(xs[1..], p);
    }
  }

  lemma {:induction false} CountMonotone<T(!new)>(xs: seq<T>, p: T -> bool, q: T -> bool)
    requires forall x :: x in xs && p(x) ==> q(x)
    ensures Count(xs, p) <= Count(xs, q)
    ensures (exists x :: x in xs && q(x) && !p(x)) ==> Count(xs, p) < Count(xs, q)
  {
    if xs != [] {
      assert xs == [xs[0]] + xs[1..];
      CountMonotone(xs[1..], p, q);
    }
  }

  lemma SoleAt<T(!new)>(xs: seq<T>, p: T -> bool, i: nat)
    requires i < |xs| && p(xs[i])
    requires forall j :: 0 <= j < |xs| && j != i ==> !p(xs[j])
    ensures Count(xs, p) == 1
  {
    CountAllOrNone(xs[..i], p);
    CountAllOrNone(xs[i + 1..], p);
    CountConcat([xs[i]], xs[i + 1..], p);
    CountConcat(xs[..i], [xs[i]] + xs[i + 1..], p);
    assert xs == xs[..i] + ([xs[i]] + xs[i + 1..]);
  }

  lemma HolderExists<T(!new)>(xs: seq<T>, p: T -> bool) returns (i: nat)
    requires Count(xs, p) > 0
    ensures i < |xs| && p(xs[i])
  {
    CountAllOrNone(xs, p);
    var e :| e in xs && p(e);
    i :| 0 <= i < |xs| && xs[i] == e;
  }

  lemma TwoHolders<T(!new)>(xs: seq<T>, p: T -> bool, i: nat, j: nat)
    requires i < j < |xs| && p(xs[i]) && p(xs[j])
    ensures Count(xs, p) >= 2
  {
    CountAllOrNone(xs[..j], p);
    CountAllOrNone(xs[j..], p);
    assert xs[i] == xs[..j][i] && xs[j] == xs[j..][0];
    CountConcat(xs[..j], xs[j..], p);
    assert xs == xs[..j] + xs[j..];
  }

  ghost predicate Unique<T(!new)>(xs: seq<T>, id: T -> int) {
    forall i, j :: 0 <= i < j < |xs| ==> id(xs[i]) != id(xs[j])
  }

  /** Reordering values with distinct identities leaves them distinct. */
  lemma UniquePermutation<T(!new)>(xs: seq<T>, ys: seq<T>, id: T -> int)
    requires multiset(xs) == multiset(ys) && Unique(xs, id)
    ensures Unique(ys, id)
  {
    forall i, j | 0 <= i < j < |ys| ensures id(ys[i]) != id(ys[j]) {
      var p := x => id(x) == id(ys[i]);
      assert ys[i] in multiset(xs);
      var k :| 0 <= k < |xs| && xs[k] == ys[i];
      SoleAt(xs, p, k);
      CountPermutation(xs, ys, p);
      if id(ys[i]) == id(ys[j]) {
        TwoHolders(ys, p, i, j);
      }
    }
  }
}
