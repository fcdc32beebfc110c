/** Who wins one Cup tie: an explicit chain of comparisons, proved to agree with the ranking keys. */
module CupResolution {
  import opened Wrappers
  import opened Sorting
  import opened Rankings

  datatype CupEntry = CupEntry(managerId: int, matchScore: int, facts: TieBreakFacts, disqualified: bool)
  {
    /** The key under which a ranking table would sort this entry. */
    function RankKey(): Key {
      [matchScore] + facts.SortKey()
    }
  }

  datatype Resolution = Resolution(winner: Option<int>, step: Step, requiresAdminDraw: bool)

  datatype CupError = SelfPlay | DrawWinnerNotInTie

  datatype Comparison = Comparison(step: Step, first: int, second: int, higherIsBetter: bool)

  function Comparisons(first: CupEntry, second: CupEntry): seq<Comparison> {
    var f, s := first.facts, second.facts;
    [ Comparison(MatchScore, first.matchScore, second.matchScore, true),
      Comparison(TotwCount, f.totwCount, s.totwCount, true),
      Comparison(CaptainPoints, f.captainPoints, s.captainPoints, true),
      Comparison(Goals, f.goals, s.goals, true),
      Comparison(FewerCards, f.cards, s.cards, false),
      Comparison(ClassicPoints, f.classicPoints, s.classicPoints, true) ]
  }

  /** The first comparison that separates the two sides: does the first side win it, and which is it? */
  function FirstSeparating(comparisons: seq<Comparison>): Option<(bool, Step)> {
    if comparisons == [] then None
    else
      var c := comparisons[0];
      if c.first == c.second then FirstSeparating(comparisons[1..])
      else Some((if c.higherIsBetter then c.first > c.second else c.first < c.second, c.step))
  }

  function ResolveCupMatch(first: CupEntry, second: CupEntry, drawWinner: Option<int>)
    : Result<Resolution, CupError>
  {
    if first.managerId == second.managerId then Err(SelfPlay)
    else if first.disqualified && second.disqualified then Ok(Resolution(None, AdminDraw, true))
    else if first.disqualified then Ok(Resolution(Some(second.managerId), Walkover, false))
    else if second.disqualified then Ok(Resolution(Some(first.managerId), Walkover, false))
    else
      match FirstSeparating(Comparisons(first, second))
      case Some((firstWins, step)) =>
        Ok(Resolution(Some(if firstWins then first.managerId else second.managerId), step, false))
      case None =>
        if drawWinner.None? then Ok(Resolution(None, AdminDraw, true))
        else if drawWinner.value !in {first.managerId, second.managerId} then Err(DrawWinnerNotInTie)
        else Ok(Resolution(drawWinner, AdminDraw, false))
  }

  /** Swapping the sides changes nothing, for every input and every outcome. */
  lemma ResolutionIsSymmetric(first: CupEntry, second: CupEntry, drawWinner: Option<int>)
    ensures ResolveCupMatch(first, second, drawWinner) == ResolveCupMatch(second, first, drawWinner)
  {
    SeparationMirrors(Comparisons(first, second), Comparisons(second, first));
  }

  lemma {:induction false} SeparationMirrors(cs: seq<Comparison>, ds: seq<Comparison>)
    requires |cs| == |ds|
    requires forall i :: 0 <= i < |cs| ==> ds[i] == Comparison(cs[i].step, cs[i].second, cs[i].first, cs[i].higherIsBetter)
    ensures FirstSeparating(ds) ==
            match FirstSeparating(cs) case None => None case Some((w, step)) => Some((!w, step))
  {
    if cs != [] {
      SeparationMirrors(cs[1..], ds[1..]);
    }
  }

  /** Each comparison is one position of the ranking key. */
  ghost predicate Encodes(cs: seq<Comparison>, a: Key, b: Key) {
    && |cs| == |a| == |b|
    && forall i :: 0 <= i < |cs| ==>
         if cs[i].higherIsBetter then a[i] == cs[i].first && b[i] == cs[i].second
         else a[i] == -cs[i].first && b[i] == -cs[i].second
  }

  lemma {:induction false} SeparationIsKeyOrder(cs: seq<Comparison>, a: Key, b: Key)
    requires Encodes(cs, a, b)
    ensures FirstSeparating(cs).None? <==> a == b
    ensures FirstSeparating(cs).Some? ==>
              (FirstSeparating(cs).value.0 <==> Less(b, a)) && (!FirstSeparating(cs).value.0 <==> Less(a, b))
  {
    LessIsTotal(a, b);
    if cs != [] {
      assert a == [a[0]] + a[1..] && b == [b[0]] + b[1..];
      SeparationIsKeyOrder(cs[1..], a[1..], b[1..]);
    }
  }

  lemma {:induction false} SeparationNamesStep(cs: seq<Comparison>, order: seq<Step>, a: Key, b: Key)
    requires Encodes(cs, a, b) && |order| == |cs|
    requires forall i :: 0 <= i < |cs| ==> cs[i].step == order[i]
    ensures FirstDifference(order, a, b) ==
            match FirstSeparating(cs) case None => AdminDraw case Some((_, step)) => step
  {
    if cs != [] {
      SeparationNamesStep(cs[1..], order[1..], a[1..], b[1..]);
    }
  }

  /**
   The chain of comparisons and the tuple keys are one order: an undecided tie is one with equal
   keys, a decided tie goes to the side that any ranking table holding both places higher, and the
   recorded step is the one the shared chain names.
   */
  lemma ResolutionAgreesWithRanking(first: CupEntry, second: CupEntry, table: seq<CupEntry>)
    requires first.managerId != second.managerId && !first.disqualified && !second.disqualified
    requires first in table && second in table
    ensures var key := (e: CupEntry) => e.RankKey();
            var r := ResolveCupMatch(first, second, None);
            && r.Ok?
            && (r.value.requiresAdminDraw <==> first.RankKey() == second.RankKey())
            && (r.value.winner.None? <==> r.value.requiresAdminDraw)
            && (r.value.winner == Some(first.managerId) <==> RankOf(table, key, first) < RankOf(table, key, second))
            && (r.value.winner == Some(second.managerId) <==> RankOf(table, key, second) < RankOf(table, key, first))
            && r.value.step ==
               if first.matchScore != second.matchScore then MatchScore
               else DecidingStep(first.facts, second.facts)
  {
    var key := (e: CupEntry) => e.RankKey();
    var cs := Comparisons(first, second);
    SeparationIsKeyOrder(cs, first.RankKey(), second.RankKey());
    LessIsTotal(first.RankKey(), second.RankKey());
    RanksFollowKeys(table, key, first, second);
    RanksFollowKeys(table, key, second, first);
    assert cs[1..][0] == cs[1] && cs[1..][1] == cs[2] && cs[1..][2] == cs[3] && cs[1..][3] == cs[4] && cs[1..][4] == cs[5];
    SeparationNamesStep(cs[1..], AUTOMATIC_ORDER, first.facts.SortKey(), second.facts.SortKey());
  }
}
