/** The places the table marks as changing division, and when they are the ones that do. */
module Zones {
  import opened Sorting
  import opened Rankings
  import opened CupBracket
  import opened Promotion
  import opened PromotionService

  const PROMOTION_PLACES := 6

  const RELEGATION_PLACES := 6

  predicate BoundaryIsShared(entries: seq<DivisionPlace>, boundary: int) {
    Sharing(entries, boundary) > 1
  }

  /** Nothing is marked in a small table, or where a rank at the boundary is shared. */
  predicate ShowsNothing(entries: seq<DivisionPlace>, division: Division) {
    || |entries| <= PROMOTION_PLACES
    || (division == Low && BoundaryIsShared(entries, PROMOTION_PLACES))
    || (division == High && (BoundaryIsShared(entries, |entries| - RELEGATION_PLACES) ||
                             BoundaryIsShared(entries, |entries| - RELEGATION_PLACES + 1)))
  }

  predicate Marked(entries: seq<DivisionPlace>, division: Division, entry: DivisionPlace) {
    && !ShowsNothing(entries, division)
    && if division == Low then entry.rank <= PROMOTION_PLACES else entry.rank > |entries| - RELEGATION_PLACES
  }

  function MarkedCount(entries: seq<DivisionPlace>, division: Division): nat {
    Count(entries, (entry: DivisionPlace) => Marked(entries, division, entry))
  }

  // ----- Competition ranks at a boundary -----

  function UpTo(entries: seq<DivisionPlace>, rank: int): nat {
    Count(entries, (p: DivisionPlace) => p.rank <= rank)
  }

  /** Each rank is one more than the number of entries ranked above it. */
  ghost predicate CompetitionRanks(entries: seq<DivisionPlace>) {
    forall p :: p in entries ==> p.rank == 1 + UpTo(entries, p.rank - 1)
  }

  lemma UpToIsPlace(entries: seq<DivisionPlace>, i: nat, rank: int)
    requires i < |entries|
    ensures Ordered(entries)[i].rank <= rank <==> UpTo(entries, rank) > i
  {
    OrderedFacts(entries);
    RanksUpTo(Ordered(entries), i, rank);
    CountPermutation(entries, Ordered(entries), (p: DivisionPlace) => p.rank <= rank);
  }

  lemma PlaceHoldsItsRank(entries: seq<DivisionPlace>, i: nat)
    requires CompetitionRanks(entries) && i < |entries|
    ensures Ordered(entries)[i].rank == 1 + UpTo(entries, Ordered(entries)[i].rank - 1)
    ensures Ordered(entries)[i].rank <= i + 1
  {
    OrderedFacts(entries);
    assert Ordered(entries)[i] in multiset(entries);
    UpToIsPlace(entries, i, Ordered(entries)[i].rank - 1);
  }

  /** At least b entries rank b or better, and exactly b unless a tie straddles place b. */
  lemma RankedAboveBoundary(entries: seq<DivisionPlace>, b: nat)
    requires CompetitionRanks(entries) && 0 < b < |entries|
    ensures UpTo(entries, b) >= b
    ensures UpTo(entries, b) == b <==> !Straddles(Ordered(entries), b)
  {
    PlaceHoldsItsRank(entries, b - 1);
    PlaceHoldsItsRank(entries, b);
    UpToIsPlace(entries, b - 1, b);
    UpToIsPlace(entries, b, b);
    UpToIsPlace(entries, b - 1, Ordered(entries)[b].rank - 1);
    OrderedFacts(entries);
  }

  lemma {:induction false} OneRankMore(entries: seq<DivisionPlace>, rank: int)
    ensures UpTo(entries, rank) == UpTo(entries, rank - 1) + Sharing(entries, rank)
  {
    if entries != [] {
      OneRankMore(entries[1..], rank);
    }
  }

  lemma SomebodyHolds(entries: seq<DivisionPlace>, rank: int)
    requires Sharing(entries, rank) > 0
    ensures exists p :: p in entries && p.rank == rank
  {
    if forall p :: p in entries ==> p.rank != rank {
      CountAllOrNone(entries, (p: DivisionPlace) => p.rank == rank);
    }
  }

  /** A shared rank b is a tie that straddles place b. */
  lemma SharedStraddles(entries: seq<DivisionPlace>, b: nat)
    requires CompetitionRanks(entries) && 0 < b < |entries| && BoundaryIsShared(entries, b)
    ensures Straddles(Ordered(entries), b)
  {
    SomebodyHolds(entries, b);
    OneRankMore(entries, b);
    RankedAboveBoundary(entries, b);
  }

  /** The places on the two sides of the boundary are `Boundary - 1` and `Boundary`, counted from zero. */
  function Boundary(entries: seq<DivisionPlace>, division: Division): int {
    if division == Low then PROMOTION_PLACES else |entries| - RELEGATION_PLACES
  }

  lemma SharedIffTieStartsThere(entries: seq<DivisionPlace>, b: nat)
    requires CompetitionRanks(entries) && 0 < b < |entries| && Straddles(Ordered(entries), b)
    ensures BoundaryIsShared(entries, b) <==> Ordered(entries)[b].rank == b
  {
    OneRankMore(entries, b);
    RankedAboveBoundary(entries, b);
    PlaceHoldsItsRank(entries, b);
    if BoundaryIsShared(entries, b) {
      SomebodyHolds(entries, b);
      UpToIsPlace(entries, b - 1, b - 1);
      UpToIsPlace(entries, b, b);
    }
  }

  /** A tie that straddles the boundary is hidden exactly when it starts at the boundary's own rank. */
  lemma StraddlingTieIsHiddenIff(entries: seq<DivisionPlace>, division: Division)
    requires CompetitionRanks(entries) && |entries| > PROMOTION_PLACES
    requires Straddles(Ordered(entries), Boundary(entries, division))
    ensures ShowsNothing(entries, division) <==>
            Ordered(entries)[Boundary(entries, division)].rank == Boundary(entries, division)
  {
    var b := Boundary(entries, division);
    SharedIffTieStartsThere(entries, b);
    RankedAboveBoundary(entries, b);
    if Sharing(entries, b + 1) > 0 {
      SomebodyHolds(entries, b + 1);
    }
  }

  lemma {:induction false} TheRest(entries: seq<DivisionPlace>, rank: int)
    ensures Count(entries, (p: DivisionPlace) => p.rank > rank) == |entries| - UpTo(entries, rank)
  {
    if entries != [] {
      TheRest(entries[1..], rank);
    }
  }

  lemma CountAlike(entries: seq<DivisionPlace>, p: DivisionPlace -> bool, q: DivisionPlace -> bool)
    requires forall x :: x in entries ==> (p(x) <==> q(x))
    ensures Count(entries, p) == Count(entries, q)
  {
    CountMonotone(entries, p, q);
    CountMonotone(entries, q, p);
  }

  /** A page that marks anything marks six, unless a tie straddles the boundary: then LOW marks more and HIGH fewer. */
  lemma SixAreMarkedIff(entries: seq<DivisionPlace>, division: Division)
    requires CompetitionRanks(entries) && !ShowsNothing(entries, division)
    ensures MarkedCount(entries, division) == 6 <==> !Straddles(Ordered(entries), Boundary(entries, division))
    ensures if division == Low then MarkedCount(entries, Low) >= 6 else MarkedCount(entries, High) <= 6
  {
    var b := Boundary(entries, division);
    RankedAboveBoundary(entries, b);
    TheRest(entries, b);
    CountAlike(entries, (p: DivisionPlace) => Marked(entries, division, p),
               if division == Low then (p: DivisionPlace) => p.rank <= b else (p: DivisionPlace) => p.rank > b);
  }

  /** Where a swap of six is decided, the page marks exactly the managers it moves. */
  lemma DecidedSwapIsMarked(high: seq<DivisionPlace>, low: seq<DivisionPlace>)
    requires CompetitionRanks(high) && CompetitionRanks(low) && |high| > 6 && |low| > 6
    requires Swap(high, low, 6).IsDecided()
    ensures forall p :: p in low ==> (Marked(low, Low, p) <==> p in PromotionZone(low, 6))
    ensures forall p :: p in high ==> (Marked(high, High, p) <==> p in RelegationZone(high, 6))
  {
    DecidedIffNoTie(high, low, 6);
    DecidedIsShown(high, low);
    forall p | p in low ensures Marked(low, Low, p) <==> p in PromotionZone(low, 6) {
      ZoneBelowBoundary(low, 6, p);
    }
    forall p | p in high ensures Marked(high, High, p) <==> p in RelegationZone(high, 6) {
      ZoneBelowBoundary(high, |high| - 6, p);
    }
  }

  lemma DecidedIsShown(high: seq<DivisionPlace>, low: seq<DivisionPlace>)
    requires CompetitionRanks(high) && CompetitionRanks(low) && |high| > 6 && |low| > 6
    requires !Straddles(Ordered(high), |high| - 6) && !TiedInside(RelegationZone(high, 6)) && !Straddles(Ordered(low), 6)
    ensures !ShowsNothing(high, High) && !ShowsNothing(low, Low)
  {
    var zone := RelegationZone(high, 6);
    assert zone[0] == Ordered(high)[|high| - 6] && zone[1] == Ordered(high)[|high| - 5];
    assert zone[0].rank == zone[1].rank ==> TiedInside(zone);
    if BoundaryIsShared(low, 6) {
      SharedStraddles(low, 6);
    }
    if BoundaryIsShared(high, |high| - 6) {
      SharedStraddles(high, |high| - 6);
    }
    if BoundaryIsShared(high, |high| - 5) {
      SharedStraddles(high, |high| - 5);
    }
  }

  lemma ZoneBelowBoundary(entries: seq<DivisionPlace>, b: nat, p: DivisionPlace)
    requires CompetitionRanks(entries) && 0 < b < |entries| && !Straddles(Ordered(entries), b) && p in entries
    ensures p.rank <= b <==> p in Ordered(entries)[..b]
    ensures p.rank > b <==> p in Ordered(entries)[b..]
  {
    OrderedFacts(entries);
    assert p in multiset(Ordered(entries));
    forall i | 0 <= i < |entries| ensures Ordered(entries)[i].rank <= b <==> i < b {
      RankedAboveBoundary(entries, b);
      UpToIsPlace(entries, i, b);
    }
    var k :| 0 <= k < |entries| && Ordered(entries)[k] == p;
    if k < b {
      assert Ordered(entries)[..b][k] == p;
    } else {
      assert Ordered(entries)[b..][k - b] == p;
    }
  }

  // ----- The ranks the league's tables have -----

  lemma {:induction false} CountPlaces(rows: seq<ClassicStanding>, places: seq<DivisionPlace>, p: ClassicStanding -> bool,
                                       q: DivisionPlace -> bool)
    requires |rows| == |places| && forall i :: 0 <= i < |rows| ==> (p(rows[i]) <==> q(places[i]))
    ensures Count(rows, p) == Count(places, q)
  {
    if rows != [] {
      CountPlaces(rows[1..], places[1..], p, q);
    }
  }

  lemma PlaceIsCompetition(rows: seq<ClassicStanding>, k: nat)
    requires k < |Places(rows)|
    ensures Places(rows)[k].rank == 1 + UpTo(Places(rows), Places(rows)[k].rank - 1)
  {
    var ordered, places := Sort(rows, StandingKey, true), Places(rows);
    SortPermutes(rows, StandingKey, true);
    var above := (x: ClassicStanding) => Less(StandingKey(ordered[k]), StandingKey(x));
    forall i | 0 <= i < |ordered| ensures above(ordered[i]) <==> places[i].rank <= places[k].rank - 1 {
      assert ordered[i] in multiset(rows) && ordered[k] in multiset(rows);
      RanksFollowKeys(rows, StandingKey, ordered[i], ordered[k]);
    }
    CountPlaces(ordered, places, above, (q: DivisionPlace) => q.rank <= places[k].rank - 1);
    CountPermutation(rows, ordered, above);
    RankCounts(rows, StandingKey, ordered[k], above);
  }

  /** The places of a division are ranked by competition: the tables above are tables of this kind. */
  lemma PlacesAreCompetition(rows: seq<ClassicStanding>)
    ensures CompetitionRanks(Places(rows))
  {
    forall k | 0 <= k < |Places(rows)|
      ensures Places(rows)[k].rank == 1 + UpTo(Places(rows), Places(rows)[k].rank - 1)
    {
      PlaceIsCompetition(rows, k);
    }
  }

  // ----- A tie that is not hidden -----

  /** Before anyone has scored every rank is 1, and the page marks the whole of LOW for promotion. */
  lemma LevelTableIsMarked(low: seq<DivisionPlace>)
    requires |low| > PROMOTION_PLACES && forall p :: p in low ==> p.rank == 1
    ensures CompetitionRanks(low) && Straddles(Ordered(low), PROMOTION_PLACES)
    ensures forall p :: p in low ==> Marked(low, Low, p)
  {
    CountAllOrNone(low, (p: DivisionPlace) => p.rank <= 0);
    CountAllOrNone(low, (p: DivisionPlace) => p.rank == PROMOTION_PLACES);
    OrderedFacts(low);
    forall i | 0 <= i < |low| ensures Ordered(low)[i].rank == 1 {
      assert Ordered(low)[i] in multiset(low);
    }
  }
}
