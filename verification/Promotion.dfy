/** Who swaps divisions at the end of a Season, decided from two ranked tables. */
module Promotion {
  import opened Wrappers
  import opened Sorting

  datatype DivisionPlace = DivisionPlace(managerId: int, rank: int)

  datatype Movement = Movement(managerId: int, fromRank: int)

  datatype DivisionSwap = DivisionSwap(promoted: seq<Movement>, relegated: seq<Movement>, contestedRanks: set<int>)
  {
    predicate IsDecided() {
      contestedRanks == {}
    }
  }

  datatype PlanError = CountNotPositive | DivisionTooSmall

  function ByRank(place: DivisionPlace): Key {
    [place.rank]
  }

  function Ordered(places: seq<DivisionPlace>): (ordered: seq<DivisionPlace>)
    ensures |ordered| == |places|
  {
    SortPermutes(places, ByRank, false);
    Sort(places, ByRank, false)
  }

  function RelegationZone(high: seq<DivisionPlace>, count: nat): seq<DivisionPlace>
    requires count <= |high|
  {
    Ordered(high)[|high| - count..]
  }

  function PromotionZone(low: seq<DivisionPlace>, count: nat): seq<DivisionPlace>
    requires count <= |low|
  {
    Ordered(low)[..count]
  }

  function Moves(zone: seq<DivisionPlace>): seq<Movement> {
    seq(|zone|, i requires 0 <= i < |zone| => Movement(zone[i].managerId, zone[i].rank))
  }

  function RanksIn(zone: seq<DivisionPlace>): set<int> {
    set place | place in zone :: place.rank
  }

  function Sharing(places: seq<DivisionPlace>, rank: int): nat {
    Count(places, (p: DivisionPlace) => p.rank == rank)
  }

  /** Ranks of a zone that more than one manager of the division holds. */
  function ContestedRanks(places: seq<DivisionPlace>, zone: seq<DivisionPlace>): set<int> {
    set rank | rank in RanksIn(zone) && Sharing(places, rank) > 1
  }

  function SwapError(high: seq<DivisionPlace>, low: seq<DivisionPlace>, count: int): Option<PlanError> {
    if count <= 0 then Some(CountNotPositive)
    else if |high| < count || |low| < count then Some(DivisionTooSmall)
    else None
  }

  function Swap(high: seq<DivisionPlace>, low: seq<DivisionPlace>, count: int): DivisionSwap
    requires SwapError(high, low, count).None?
  {
    DivisionSwap(Moves(PromotionZone(low, count)), Moves(RelegationZone(high, count)),
                 ContestedRanks(high, RelegationZone(high, count)) + ContestedRanks(low, PromotionZone(low, count)))
  }

  // ----- The plan as it is made -----

  method Contested(places: seq<DivisionPlace>, boundaryRanks: set<int>) returns (contested: set<int>)
    ensures contested == set rank | rank in boundaryRanks && Sharing(places, rank) > 1
  {
    var counts: map<int, nat> := map[];
    for i := 0 to |places|
      invariant forall rank :: Sharing(places[..i], rank) == if rank in counts then counts[rank] else 0
    {
      var rank := places[i].rank;
      OneMorePlace(places, i);
      counts := counts[rank := (if rank in counts then counts[rank] else 0) + 1];
    }
    assert places[..|places|] == places;
    contested := set rank | rank in boundaryRanks && (if rank in counts then counts[rank] else 0) > 1;
  }

  lemma OneMorePlace(places: seq<DivisionPlace>, i: nat)
    requires i < |places|
    ensures forall rank :: Sharing(places[..i + 1], rank) == Sharing(places[..i], rank) + if rank == places[i].rank then 1 else 0
  {
    assert places[..i + 1] == places[..i] + [places[i]];
    forall rank ensures Sharing(places[..i + 1], rank) == Sharing(places[..i], rank) + if rank == places[i].rank then 1 else 0 {
      CountConcat(places[..i], [places[i]], (p: DivisionPlace) => p.rank == rank);
    }
  }

  method PlanDivisionSwap(high: seq<DivisionPlace>, low: seq<DivisionPlace>, count: int)
    returns (result: Result<DivisionSwap, PlanError>)
    ensures result == match SwapError(high, low, count)
                      case Some(error) => Err(error)
                      case None => Ok(Swap(high, low, count))
  {
    if count <= 0 {
      return Err(CountNotPositive);
    }
    if |high| < count || |low| < count {
      return Err(DivisionTooSmall);
    }
    var highRanked, lowRanked := Ordered(high), Ordered(low);
    var relegationZone, promotionZone := highRanked[|highRanked| - count..], lowRanked[..count];
    var contested := Contested(high, set place | place in relegationZone :: place.rank);
    var contestedLow := Contested(low, set place | place in promotionZone :: place.rank);
    contested := contested + contestedLow;
    result := Ok(DivisionSwap(Moves(promotionZone), Moves(relegationZone), contested));
  }

  // ----- Ordered tables -----

  lemma OrderedFacts(places: seq<DivisionPlace>)
    ensures multiset(Ordered(places)) == multiset(places)
    ensures forall i, j :: 0 <= i <= j < |places| ==> Ordered(places)[i].rank <= Ordered(places)[j].rank
  {
    SortPermutes(places, ByRank, false);
    SortSorts(places, ByRank, false);
    var ordered := Ordered(places);
    forall i, j | 0 <= i < j < |places| ensures ordered[i].rank <= ordered[j].rank {
      assert !Before(false, ByRank(ordered[j]), ByRank(ordered[i]));
    }
  }

  lemma ZoneIsFromTable(places: seq<DivisionPlace>, zone: seq<DivisionPlace>, from: nat, to: nat)
    requires from <= to <= |places| && zone == Ordered(places)[from..to]
    ensures forall p :: p in zone ==> p in places
  {
    OrderedFacts(places);
    forall p | p in zone ensures p in places {
      assert p in multiset(Ordered(places));
    }
  }

  /** Two orders of the same table put the same rank at every position. */
  lemma OrderedRanksAgree(places: seq<DivisionPlace>, shuffled: seq<DivisionPlace>, i: nat)
    requires multiset(places) == multiset(shuffled) && i < |places| && |shuffled| == |places|
    ensures Ordered(places)[i].rank == Ordered(shuffled)[i].rank
  {
    OrderedFacts(places);
    OrderedFacts(shuffled);
    if Ordered(places)[i].rank < Ordered(shuffled)[i].rank {
      RankAtLeast(Ordered(places), Ordered(shuffled), i);
    } else if Ordered(shuffled)[i].rank < Ordered(places)[i].rank {
      RankAtLeast(Ordered(shuffled), Ordered(places), i);
    }
  }

  lemma RankAtLeast(a: seq<DivisionPlace>, b: seq<DivisionPlace>, i: nat)
    requires multiset(a) == multiset(b) && i < |a| && |a| == |b|
    requires forall j, k :: 0 <= j <= k < |a| ==> a[j].rank <= a[k].rank
    requires forall j, k :: 0 <= j <= k < |b| ==> b[j].rank <= b[k].rank
    ensures a[i].rank >= b[i].rank
  {
    CountPermutation(a, b, (p: DivisionPlace) => p.rank <= a[i].rank);
    RanksUpTo(a, i, a[i].rank);
    RanksUpTo(b, i, a[i].rank);
  }

  lemma RanksUpTo(ordered: seq<DivisionPlace>, i: nat, rank: int)
    requires i < |ordered| && forall j, k :: 0 <= j <= k < |ordered| ==> ordered[j].rank <= ordered[k].rank
    ensures ordered[i].rank <= rank <==> Count(ordered, (p: DivisionPlace) => p.rank <= rank) > i
  {
    var upTo := (p: DivisionPlace) => p.rank <= rank;
    if ordered[i].rank <= rank {
      assert ordered == ordered[..i + 1] + ordered[i + 1..];
      CountConcat(ordered[..i + 1], ordered[i + 1..], upTo);
      CountAllOrNone(ordered[..i + 1], upTo);
    } else {
      assert ordered == ordered[..i] + ordered[i..];
      CountConcat(ordered[..i], ordered[i..], upTo);
      CountAllOrNone(ordered[i..], upTo);
    }
  }

  lemma TwoShare(places: seq<DivisionPlace>, a: DivisionPlace, b: DivisionPlace)
    requires a in places && b in places && a != b && a.rank == b.rank
    ensures Sharing(places, a.rank) >= 2
  {
    var rank := a.rank;
    var i :| 0 <= i < |places| && places[i] == a;
    var j :| 0 <= j < |places| && places[j] == b;
    TwoHolders(places, (p: DivisionPlace) => p.rank == rank, if i < j then i else j, if i < j then j else i);
  }

  // ----- What a decided swap guarantees -----

  /** The managers of a division who stay where they are. */
  ghost predicate Stays(places: seq<DivisionPlace>, zone: seq<DivisionPlace>, p: DivisionPlace) {
    p in places && p !in zone
  }

  /** No two places of the division in or at the edge of the zone share a rank. */
  ghost predicate SeparatedZone(ordered: seq<DivisionPlace>, from: nat, to: nat)
    requires from <= to <= |ordered|
  {
    forall i, j :: from <= i < to && 0 <= j < |ordered| && j != i ==> ordered[i].rank != ordered[j].rank
  }

  lemma UnsharedIffAlone(ordered: seq<DivisionPlace>, i: nat)
    requires i < |ordered|
    ensures Sharing(ordered, ordered[i].rank) <= 1 <==>
            forall j :: 0 <= j < |ordered| && j != i ==> ordered[i].rank != ordered[j].rank
  {
    var holds := (p: DivisionPlace) => p.rank == ordered[i].rank;
    if j :| 0 <= j < |ordered| && j != i && ordered[i].rank == ordered[j].rank {
      TwoHolders(ordered, holds, if i < j then i else j, if i < j then j else i);
    } else {
      SoleAt(ordered, holds, i);
    }
  }

  lemma UncontestedIffSeparated(places: seq<DivisionPlace>, from: nat, to: nat)
    requires from <= to <= |places|
    ensures ContestedRanks(places, Ordered(places)[from..to]) == {} <==> SeparatedZone(Ordered(places), from, to)
  {
    var ordered := Ordered(places);
    var zone := ordered[from..to];
    OrderedFacts(places);
    forall rank ensures Sharing(places, rank) == Sharing(ordered, rank) {
      CountPermutation(places, ordered, (p: DivisionPlace) => p.rank == rank);
    }
    forall i | from <= i < to
      ensures ordered[i].rank in ContestedRanks(places, zone) <==>
              exists j :: 0 <= j < |ordered| && j != i && ordered[i].rank == ordered[j].rank
    {
      UnsharedIffAlone(ordered, i);
      assert zone[i - from] == ordered[i];
    }
  }

  /** A swap is decided exactly when every rank of the two zones is held by one manager only. */
  lemma DecidedIffZonesSeparated(high: seq<DivisionPlace>, low: seq<DivisionPlace>, count: int)
    requires SwapError(high, low, count).None?
    ensures Swap(high, low, count).IsDecided() <==>
            SeparatedZone(Ordered(high), |high| - count, |high|) && SeparatedZone(Ordered(low), 0, count)
  {
    UncontestedIffSeparated(high, |high| - count, |high|);
    UncontestedIffSeparated(low, 0, count);
    assert Ordered(high)[|high| - count..|high|] == RelegationZone(high, count);
    assert Ordered(low)[0..count] == PromotionZone(low, count);
  }

  /** The places on the two sides of a boundary hold one rank. */
  predicate Straddles(ordered: seq<DivisionPlace>, boundary: nat) {
    0 < boundary < |ordered| && ordered[boundary - 1].rank == ordered[boundary].rank
  }

  /** Two neighbours of a zone hold one rank. */
  predicate TiedInside(zone: seq<DivisionPlace>) {
    exists i :: 0 < i < |zone| && zone[i - 1].rank == zone[i].rank
  }

  lemma SeparatedIffNoTie(places: seq<DivisionPlace>, from: nat, to: nat)
    requires from < to <= |places|
    ensures SeparatedZone(Ordered(places), from, to) <==>
            && !Straddles(Ordered(places), from) && !Straddles(Ordered(places), to)
            && !TiedInside(Ordered(places)[from..to])
  {
    var ordered := Ordered(places);
    OrderedFacts(places);
    if !SeparatedZone(ordered, from, to) {
      var i, j :| from <= i < to && 0 <= j < |ordered| && j != i && ordered[i].rank == ordered[j].rank;
      var first := if i < j then i else j;
      if from <= first && first + 1 < to {
        var zone, k := ordered[from..to], first - from + 1;
        assert zone[k - 1] == ordered[first] && zone[k] == ordered[first + 1];
      }
    }
  }

  /**
   A swap is decided exactly when no tie straddles either boundary and none lies inside a zone. A
   tie wholly inside a zone moves nobody across a boundary, and stops the swap all the same.
   */
  lemma DecidedIffNoTie(high: seq<DivisionPlace>, low: seq<DivisionPlace>, count: int)
    requires SwapError(high, low, count).None?
    ensures Swap(high, low, count).IsDecided() <==>
            && !Straddles(Ordered(high), |high| - count) && !TiedInside(RelegationZone(high, count))
            && !Straddles(Ordered(low), count) && !TiedInside(PromotionZone(low, count))
  {
    DecidedIffZonesSeparated(high, low, count);
    SeparatedIffNoTie(high, |high| - count, |high|);
    SeparatedIffNoTie(low, 0, count);
    assert Ordered(low)[0..count] == PromotionZone(low, count);
  }

  /** The top two of LOW share rank 1, and nobody ties across a boundary: no swap is planned. */
  lemma TieInsideAZoneStopsTheSwap(high: seq<DivisionPlace>, low: seq<DivisionPlace>)
    requires high == [DivisionPlace(1, 1), DivisionPlace(2, 2), DivisionPlace(3, 3)]
    requires low == [DivisionPlace(4, 1), DivisionPlace(5, 1), DivisionPlace(6, 3)]
    ensures SwapError(high, low, 2).None? && !Swap(high, low, 2).IsDecided()
    ensures !Straddles(Ordered(high), 1) && !Straddles(Ordered(low), 2)
  {
    SortKeepsSorted(high, ByRank, false);
    SortKeepsSorted(low, ByRank, false);
    assert PromotionZone(low, 2)[0].rank == PromotionZone(low, 2)[1].rank;
    DecidedIffNoTie(high, low, 2);
  }

  /** A decided swap moves `count` each way, and ranks every mover strictly apart from all who stay. */
  lemma DecidedMoversAreApart(high: seq<DivisionPlace>, low: seq<DivisionPlace>, count: int)
    requires SwapError(high, low, count).None? && Swap(high, low, count).IsDecided()
    ensures |Swap(high, low, count).promoted| == |Swap(high, low, count).relegated| == count
    ensures forall up, stayer :: up in PromotionZone(low, count) && Stays(low, PromotionZone(low, count), stayer) ==>
              up.rank < stayer.rank
    ensures forall down, stayer :: down in RelegationZone(high, count) && Stays(high, RelegationZone(high, count), stayer) ==>
              stayer.rank < down.rank
  {
    DecidedIffZonesSeparated(high, low, count);
    OrderedFacts(high);
    OrderedFacts(low);
    forall up, stayer | up in PromotionZone(low, count) && Stays(low, PromotionZone(low, count), stayer)
      ensures up.rank < stayer.rank
    {
      ZoneBeforeRest(low, count, up, stayer);
    }
    forall down, stayer | down in RelegationZone(high, count) && Stays(high, RelegationZone(high, count), stayer)
      ensures stayer.rank < down.rank
    {
      ZoneAfterRest(high, |high| - count, down, stayer);
    }
  }

  lemma ZoneBeforeRest(places: seq<DivisionPlace>, to: nat, mover: DivisionPlace, stayer: DivisionPlace)
    requires to <= |places| && SeparatedZone(Ordered(places), 0, to)
    requires mover in Ordered(places)[..to] && Stays(places, Ordered(places)[..to], stayer)
    ensures mover.rank < stayer.rank
  {
    OrderedFacts(places);
    var ordered := Ordered(places);
    assert stayer in multiset(ordered);
    assert forall k :: 0 <= k < to ==> ordered[k] in ordered[..to];
    var i :| 0 <= i < to && ordered[i] == mover;
    var j :| 0 <= j < |ordered| && ordered[j] == stayer;
  }

  lemma ZoneAfterRest(places: seq<DivisionPlace>, from: nat, mover: DivisionPlace, stayer: DivisionPlace)
    requires from <= |places| && SeparatedZone(Ordered(places), from, |places|)
    requires mover in Ordered(places)[from..] && Stays(places, Ordered(places)[from..], stayer)
    ensures stayer.rank < mover.rank
  {
    OrderedFacts(places);
    var ordered := Ordered(places);
    assert stayer in multiset(ordered);
    assert forall k :: from <= k < |ordered| ==> ordered[k] in ordered[from..];
    var i :| from <= i < |ordered| && ordered[i] == mover;
    var j :| 0 <= j < |ordered| && ordered[j] == stayer;
  }

  /** Whether a swap is decided, and then who moves in which order, does not depend on how the tables arrive. */
  lemma SwapIgnoresInputOrder(high: seq<DivisionPlace>, low: seq<DivisionPlace>, count: int,
                              highShuffled: seq<DivisionPlace>, lowShuffled: seq<DivisionPlace>)
    requires SwapError(high, low, count).None?
    requires multiset(high) == multiset(highShuffled) && multiset(low) == multiset(lowShuffled)
    ensures SwapError(highShuffled, lowShuffled, count).None?
    ensures Swap(highShuffled, lowShuffled, count).contestedRanks == Swap(high, low, count).contestedRanks
    ensures Swap(high, low, count).IsDecided() ==> Swap(highShuffled, lowShuffled, count) == Swap(high, low, count)
  {
    SameSize(high, highShuffled);
    SameSize(low, lowShuffled);
    ZonesAgree(high, highShuffled, |high| - count, |high|);
    ZonesAgree(low, lowShuffled, 0, count);
    assert Ordered(high)[|high| - count..|high|] == RelegationZone(high, count);
    assert Ordered(low)[0..count] == PromotionZone(low, count);
    assert Ordered(highShuffled)[|high| - count..|high|] == RelegationZone(highShuffled, count);
    assert Ordered(lowShuffled)[0..count] == PromotionZone(lowShuffled, count);
  }

  lemma SameSize(places: seq<DivisionPlace>, shuffled: seq<DivisionPlace>)
    requires multiset(places) == multiset(shuffled)
    ensures |places| == |shuffled|
  {
    assert |multiset(places)| == |multiset(shuffled)|;
  }

  lemma ZonesAgree(places: seq<DivisionPlace>, shuffled: seq<DivisionPlace>, from: nat, to: nat)
    requires multiset(places) == multiset(shuffled) && |places| == |shuffled| && from <= to <= |places|
    ensures ContestedRanks(places, Ordered(places)[from..to]) == ContestedRanks(shuffled, Ordered(shuffled)[from..to])
    ensures ContestedRanks(places, Ordered(places)[from..to]) == {} ==> Ordered(places)[from..to] == Ordered(shuffled)[from..to]
  {
    var zone, other := Ordered(places)[from..to], Ordered(shuffled)[from..to];
    forall i | 0 <= i < |zone| ensures zone[i].rank == other[i].rank {
      OrderedRanksAgree(places, shuffled, from + i);
    }
    assert RanksIn(zone) == RanksIn(other) by {
      assert forall p :: p in zone ==> exists i :: 0 <= i < |zone| && zone[i] == p && other[i] in other;
      assert forall p :: p in other ==> exists i :: 0 <= i < |other| && other[i] == p && zone[i] in zone;
    }
    forall rank ensures Sharing(places, rank) == Sharing(shuffled, rank) {
      CountPermutation(places, shuffled, (p: DivisionPlace) => p.rank == rank);
    }
    if ContestedRanks(places, zone) == {} {
      OrderedFacts(places);
      OrderedFacts(shuffled);
      forall i | 0 <= i < |zone| ensures zone[i] == other[i] {
        assert zone[i] in multiset(Ordered(places)) && other[i] in multiset(Ordered(shuffled));
        assert zone[i].rank in RanksIn(zone) && zone[i].rank !in ContestedRanks(places, zone);
        if zone[i] != other[i] {
          TwoShare(places, zone[i], other[i]);
        }
      }
    }
  }
}
