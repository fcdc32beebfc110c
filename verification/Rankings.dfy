/** Competition ranking (1, 2, 2, 4) and the one tie-break chain every table shares. */
module Rankings {
  import opened Wrappers
  import opened Sorting

  // ----- The tie-break chain -----

  datatype Step =
    | MatchScore | Walkover
    | TotwCount | CaptainPoints | Goals | FewerCards | ClassicPoints
    | AdminDraw

  datatype TieBreakFacts = TieBreakFacts(totwCount: int, captainPoints: int, goals: int, cards: int, classicPoints: int)
  {
    /** Cards are negated, because fewer is better. */
    function SortKey(): Key {
      [totwCount, captainPoints, goals, -cards, classicPoints]
    }
  }

  const NO_FACTS := TieBreakFacts(0, 0, 0, 0, 0)

  const AUTOMATIC_ORDER: seq<Step> := [TotwCount, CaptainPoints, Goals, FewerCards, ClassicPoints]

  function FirstDifference(order: seq<Step>, a: Key, b: Key): Step
    requires |order| == |a| == |b|
  {
    if order == [] then AdminDraw
    else if a[0] != b[0] then order[0]
    else FirstDifference(order[1..], a[1..], b[1..])
  }

  function DecidingStep(first: TieBreakFacts, second: TieBreakFacts): Step {
    FirstDifference(AUTOMATIC_ORDER, first.SortKey(), second.SortKey())
  }

  // ----- Rows of the two league tables -----

  datatype ClassicStanding = ClassicStanding(managerId: int, seasonPoints: int, totwCount: int,
                                             captainPoints: int, goals: int, cards: int)
  {
    function RankKey(): Key {
      [seasonPoints] + TieBreakFacts(totwCount, captainPoints, goals, cards, seasonPoints).SortKey()
    }
  }

  // ----- Competition ranks -----

  datatype Ranked<T> = Ranked(rank: nat, value: T)

  function Values<T>(ranked: seq<Ranked<T>>): seq<T> {
    seq(|ranked|, i requires 0 <= i < |ranked| => ranked[i].value)
  }

  /** One more than the number of values with a strictly greater key. */
  function RankOf<T>(values: seq<T>, key: T -> Key, value: T): nat {
    1 + Count(values, x => Less(key(value), key(x)))
  }

  lemma RankCounts<T(!new)>(values: seq<T>, key: T -> Key, value: T, above: T -> bool)
    requires forall x :: x in values ==> (above(x) <==> Less(key(value), key(x)))
    ensures RankOf(values, key, value) == 1 + Count(values, above)
  {
    CountMonotone(values, above, x => Less(key(value), key(x)));
    CountMonotone(values, x => Less(key(value), key(x)), above);
  }

  /** In a table sorted downwards: the block of keys equal to the one at i starts at `start`. */
  ghost predicate BlockStartsAt<T(!new)>(ordered: seq<T>, key: T -> Key, start: nat, i: nat) {
    && start <= i < |ordered|
    && (forall j :: 0 <= j < start ==> Less(key(ordered[i]), key(ordered[j])))
    && (forall j :: start <= j <= i ==> key(ordered[j]) == key(ordered[i]))
  }

  lemma NextBlock<T(!new)>(ordered: seq<T>, key: T -> Key, start: nat, i: nat)
    requires Sorted(ordered, key, true) && i < |ordered|
    requires i > 0 ==> BlockStartsAt(ordered, key, start, i - 1)
    ensures i > 0 && key(ordered[i]) == key(ordered[i - 1]) ==> BlockStartsAt(ordered, key, start, i)
    ensures i == 0 || key(ordered[i]) != key(ordered[i - 1]) ==> BlockStartsAt(ordered, key, i, i)
  {
    if i > 0 && key(ordered[i]) != key(ordered[i - 1]) {
      LessIsTotal(key(ordered[i]), key(ordered[i - 1]));
      assert !Before(true, key(ordered[i]), key(ordered[i - 1]));
      forall j | 0 <= j < i ensures Less(key(ordered[i]), key(ordered[j])) {
        LessIsTransitive(key(ordered[i]), key(ordered[i - 1]), key(ordered[j]));
      }
    }
  }

  lemma RankAtBlockStart<T(!new)>(ordered: seq<T>, key: T -> Key, start: nat, i: nat)
    requires start <= i < |ordered|
    requires forall j :: 0 <= j < start ==> Less(key(ordered[i]), key(ordered[j]))
    requires forall j :: start <= j < |ordered| ==> !Less(key(ordered[i]), key(ordered[j]))
    ensures RankOf(ordered, key, ordered[i]) == start + 1
  {
    var above := x => Less(key(ordered[i]), key(x));
    CountAllOrNone(ordered[..start], above);
    CountAllOrNone(ordered[start..], above);
    CountConcat(ordered[..start], ordered[start..], above);
    assert ordered == ordered[..start] + ordered[start..];
  }

  lemma RankInBlock<T(!new)>(ordered: seq<T>, key: T -> Key, start: nat, i: nat)
    requires Sorted(ordered, key, true) && BlockStartsAt(ordered, key, start, i)
    ensures RankOf(ordered, key, ordered[i]) == start + 1
  {
    forall j | start <= j < |ordered| ensures !Less(key(ordered[i]), key(ordered[j])) {
      LessIsTotal(key(ordered[i]), key(ordered[i]));
      assert j > i ==> !Before(true, key(ordered[j]), key(ordered[i]));
    }
    RankAtBlockStart(ordered, key, start, i);
  }

  method CompetitionRank<T(!new)>(values: seq<T>, key: T -> Key) returns (result: seq<Ranked<T>>)
    ensures Values(result) == Sort(values, key, true)
    ensures multiset(Values(result)) == multiset(values)
    ensures forall i, j :: 0 <= i < j < |result| ==> !Less(key(result[i].value), key(result[j].value))
    ensures forall i :: 0 <= i < |result| ==> result[i].rank == RankOf(values, key, result[i].value)
  {
    var ordered := Sort(values, key, true);
    SortSorts(values, key, true);
    SortPermutes(values, key, true);
    result := [];
    var previousKey: Option<Key> := None;
    var currentRank: nat := 0;
    for position := 0 to |ordered|
      invariant |result| == position
      invariant previousKey == if position == 0 then None else Some(key(ordered[position - 1]))
      invariant position > 0 ==> currentRank > 0 && BlockStartsAt(ordered, key, currentRank - 1, position - 1)
      invariant forall i :: 0 <= i < position ==> result[i] == Ranked(RankOf(ordered, key, ordered[i]), ordered[i])
    {
      var valueKey := key(ordered[position]);
      NextBlock(ordered, key, if position == 0 then 0 else currentRank - 1, position);
      if previousKey.None? || valueKey != previousKey.value {
        currentRank := position + 1;
        previousKey := Some(valueKey);
      }
      RankInBlock(ordered, key, currentRank - 1, position);
      result := result + [Ranked(currentRank, ordered[position])];
    }
    RanksTransfer(result, ordered, values, key);
  }

  lemma RanksTransfer<T(!new)>(result: seq<Ranked<T>>, ordered: seq<T>, values: seq<T>, key: T -> Key)
    requires multiset(ordered) == multiset(values) && Sorted(ordered, key, true) && |result| == |ordered|
    requires forall i :: 0 <= i < |result| ==> result[i] == Ranked(RankOf(ordered, key, ordered[i]), ordered[i])
    ensures Values(result) == ordered
    ensures forall i, j :: 0 <= i < j < |result| ==> !Less(key(result[i].value), key(result[j].value))
    ensures forall i :: 0 <= i < |result| ==> result[i].rank == RankOf(values, key, result[i].value)
  {
    forall i | 0 <= i < |result| ensures result[i].rank == RankOf(values, key, result[i].value) {
      RankIgnoresInputOrder(ordered, values, key, result[i].value);
    }
    assert forall i, j :: 0 <= i < j < |result| ==> !Before(true, key(ordered[j]), key(ordered[i]));
  }

  /** A value's rank does not depend on the order in which the table was read. */
  lemma RankIgnoresInputOrder<T>(values: seq<T>, shuffled: seq<T>, key: T -> Key, value: T)
    requires multiset(values) == multiset(shuffled)
    ensures RankOf(values, key, value) == RankOf(shuffled, key, value)
  {
    CountPermutation(values, shuffled, x => Less(key(value), key(x)));
  }

  /** In any table that holds both, ranks order two values exactly as their keys do. */
  lemma RanksFollowKeys<T(!new)>(values: seq<T>, key: T -> Key, a: T, b: T)
    requires a in values && b in values
    ensures RankOf(values, key, a) < RankOf(values, key, b) <==> Less(key(b), key(a))
    ensures RankOf(values, key, a) == RankOf(values, key, b) <==> key(a) == key(b)
  {
    LessIsTotal(key(a), key(b));
    if Less(key(b), key(a)) {
      StrictlyAbove(values, key, a, b);
    } else if Less(key(a), key(b)) {
      StrictlyAbove(values, key, b, a);
    }
  }

  lemma StrictlyAbove<T(!new)>(values: seq<T>, key: T -> Key, a: T, b: T)
    requires a in values && Less(key(b), key(a))
    ensures RankOf(values, key, a) < RankOf(values, key, b)
  {
    forall x | x in values && Less(key(a), key(x)) ensures Less(key(b), key(x)) {
      LessIsTransitive(key(b), key(a), key(x));
    }
    LessIsTotal(key(a), key(a));
    CountMonotone(values, x => Less(key(a), key(x)), x => Less(key(b), key(x)));
  }
}
