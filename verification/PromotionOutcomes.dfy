/** The division swap read off the Season's totals: who moves, and when the swap is made at all. */
module PromotionOutcomes {
  import opened Wrappers
  import opened Sorting
  import opened Rankings
  import opened CupBracket
  import opened Promotion
  import opened PromotionService
  import opened Zones

  // ----- Comparing two managers -----

  /** A manager's totals; whoever has not scored has none. */
  ghost function TotalsOf(o: Office, m: int): ClassicStanding {
    if m in o.totals then o.totals[m] else ClassicStanding(m, 0, 0, 0, 0, 0)
  }

  /** More season points, then more team-of-the-week awards, captain points and goals, then fewer cards. */
  ghost predicate IsBetter(x: ClassicStanding, y: ClassicStanding) {
    if x.seasonPoints != y.seasonPoints then x.seasonPoints > y.seasonPoints
    else if x.totwCount != y.totwCount then x.totwCount > y.totwCount
    else if x.captainPoints != y.captainPoints then x.captainPoints > y.captainPoints
    else if x.goals != y.goals then x.goals > y.goals
    else x.cards < y.cards
  }

  ghost predicate IsLevel(x: ClassicStanding, y: ClassicStanding) {
    && x.seasonPoints == y.seasonPoints && x.totwCount == y.totwCount && x.captainPoints == y.captainPoints
    && x.goals == y.goals && x.cards == y.cards
  }

  lemma KeyOfRow(t: ClassicStanding)
    ensures var k := t.RankKey();
            && |k| == 6 && k[0] == t.seasonPoints && k[1] == t.totwCount && k[2] == t.captainPoints
            && k[3] == t.goals && k[4] == -t.cards && k[5] == t.seasonPoints
  {}

  lemma LessOfSix(a: Key, b: Key)
    requires |a| == |b| == 6
    ensures Less(a, b) <==>
            if a[0] != b[0] then a[0] < b[0] else if a[1] != b[1] then a[1] < b[1] else if a[2] != b[2] then a[2] < b[2]
            else if a[3] != b[3] then a[3] < b[3] else if a[4] != b[4] then a[4] < b[4] else a[5] < b[5]
  {
    assert a[1..][1..] == a[2..] && a[2..][1..] == a[3..] && a[3..][1..] == a[4..] && a[4..][1..] == a[5..];
    assert b[1..][1..] == b[2..] && b[2..][1..] == b[3..] && b[3..][1..] == b[4..] && b[4..][1..] == b[5..];
    assert Less(a[5..], b[5..]) <==> a[5] < b[5];
    assert Less(a[4..], b[4..]) <==> a[4] < b[4] || (a[4] == b[4] && Less(a[5..], b[5..]));
    assert Less(a[3..], b[3..]) <==> a[3] < b[3] || (a[3] == b[3] && Less(a[4..], b[4..]));
    assert Less(a[2..], b[2..]) <==> a[2] < b[2] || (a[2] == b[2] && Less(a[3..], b[3..]));
    assert Less(a[1..], b[1..]) <==> a[1] < b[1] || (a[1] == b[1] && Less(a[2..], b[2..]));
  }

  lemma RowsCompare(x: ClassicStanding, y: ClassicStanding)
    ensures Less(y.RankKey(), x.RankKey()) <==> IsBetter(x, y)
    ensures x.RankKey() == y.RankKey() <==> IsLevel(x, y)
  {
    KeyOfRow(x);
    KeyOfRow(y);
    LessOfSix(y.RankKey(), x.RankKey());
    if IsLevel(x, y) {
      assert forall i :: 0 <= i < 6 ==> x.RankKey()[i] == y.RankKey()[i];
    }
  }

  lemma KeyIsOfTotals(o: Office, m: int)
    ensures KeyOf(o, m) == TotalsOf(o, m).RankKey()
  {}

  /** The one key of the tables is that comparison. */
  lemma KeysCompareTotals(o: Office, x: int, y: int)
    ensures Less(KeyOf(o, y), KeyOf(o, x)) <==> IsBetter(TotalsOf(o, x), TotalsOf(o, y))
    ensures KeyOf(o, x) == KeyOf(o, y) <==> IsLevel(TotalsOf(o, x), TotalsOf(o, y))
  {
    KeyIsOfTotals(o, x);
    KeyIsOfTotals(o, y);
    RowsCompare(TotalsOf(o, x), TotalsOf(o, y));
  }

  // ----- Who moves -----

  /** The manager was in one division before the swap and is in the other after it. */
  ghost predicate Goes(o: Office, after: Office, m: int, from: Division, to: Division) {
    m in o.divisions && o.divisions[m] == from && m in after.divisions && after.divisions[m] == to
  }

  /** Whoever goes up has the better season of any manager who stays in LOW. */
  lemma PromotedHaveTheBetterSeason(o: Office, r: Request, up: int, stayer: int)
    requires Valid(o) && Refusal(o, r).None?
    requires forall m :: m in Everyone(o) ==> m in o.divisions
    requires Goes(o, Applied(o, Planned(o, r)), up, Low, High) && Goes(o, Applied(o, Planned(o, r)), stayer, Low, Low)
    ensures IsBetter(TotalsOf(o, up), TotalsOf(o, stayer))
  {
    AppliedAt(o, r, up);
    AppliedAt(o, r, stayer);
    MembershipOf(o, r, up);
    MembershipOf(o, r, stayer);
    PromotedOutscoreStayers(o, r, up, stayer);
    KeysCompareTotals(o, up, stayer);
  }

  /** Whoever goes down has the worse season of any manager who stays in HIGH. */
  lemma RelegatedHaveTheWorseSeason(o: Office, r: Request, down: int, stayer: int)
    requires Valid(o) && Refusal(o, r).None?
    requires forall m :: m in Everyone(o) ==> m in o.divisions
    requires Goes(o, Applied(o, Planned(o, r)), down, High, Low) && Goes(o, Applied(o, Planned(o, r)), stayer, High, High)
    ensures IsBetter(TotalsOf(o, stayer), TotalsOf(o, down))
  {
    AppliedAt(o, r, down);
    AppliedAt(o, r, stayer);
    MembershipOf(o, r, down);
    MembershipOf(o, r, stayer);
    StayersOutscoreRelegated(o, r, down, stayer);
    KeysCompareTotals(o, stayer, down);
  }

  /** As many managers go up as are asked for, and as many go down. */
  lemma CountMoveEachWay(o: Office, r: Request)
    requires Valid(o) && Refusal(o, r).None?
    ensures forall m :: m in Everyone(o) ==> m in o.divisions
    ensures var after := Applied(o, Planned(o, r));
            && |set m | m in o.divisions && Goes(o, after, m, Low, High)| == r.count
            && |set m | m in o.divisions && Goes(o, after, m, High, Low)| == r.count
  {
    EveryoneIsOnTheRoster(o);
    SwapNamesCountEachWay(o, r);
    var after := Applied(o, Planned(o, r));
    forall m | m in o.divisions
      ensures Goes(o, after, m, Low, High) <==> m in Promoted(o, r)
      ensures Goes(o, after, m, High, Low) <==> m in Relegated(o, r)
    {
      AppliedAt(o, r, m);
      MembershipOf(o, r, m);
    }
    assert forall m :: m in Promoted(o, r) ==> m in Members(o, Low);
    assert forall m :: m in Relegated(o, r) ==> m in Members(o, High);
    assert (set m | m in o.divisions && Goes(o, after, m, Low, High)) == Promoted(o, r);
    assert (set m | m in o.divisions && Goes(o, after, m, High, Low)) == Relegated(o, r);
  }

  // ----- When the swap is made -----

  /** Two places share a rank, and fewer than `count` places are ranked above it. */
  ghost predicate TiedAmongFirst(places: seq<DivisionPlace>, count: nat) {
    exists p, q :: p in places && q in places && p != q && p.rank == q.rank && UpTo(places, p.rank - 1) < count
  }

  function Below(places: seq<DivisionPlace>, rank: int): nat {
    Count(places, (p: DivisionPlace) => p.rank > rank)
  }

  /** Two places share a rank, and fewer than `count` places are ranked below it. */
  ghost predicate TiedAmongLast(places: seq<DivisionPlace>, count: nat) {
    exists p, q :: p in places && q in places && p != q && p.rank == q.rank && Below(places, p.rank) < count
  }

  lemma SharedRankHasTwo(places: seq<DivisionPlace>, rank: int) returns (p: DivisionPlace, q: DivisionPlace)
    requires Unique(places, ManagerOf) && Sharing(places, rank) > 1
    ensures p in places && q in places && p != q && p.rank == q.rank == rank
  {
    var holds := (x: DivisionPlace) => x.rank == rank;
    var i := HolderExists(places, holds);
    if forall j :: 0 <= j < |places| && j != i ==> !holds(places[j]) {
      SoleAt(places, holds, i);
    }
    var j :| 0 <= j < |places| && j != i && holds(places[j]);
    p, q := places[i], places[j];
    assert ManagerOf(places[if i < j then i else j]) != ManagerOf(places[if i < j then j else i]);
  }

  /** A place of this rank stands at this index of the ordered table. */
  lemma RankStandsAt(places: seq<DivisionPlace>, rank: int, i: nat)
    requires i < |places| && UpTo(places, rank - 1) <= i < UpTo(places, rank)
    ensures Ordered(places)[i].rank == rank
  {
    UpToIsPlace(places, i, rank);
    UpToIsPlace(places, i, rank - 1);
  }

  lemma TieAmongFirstIsContested(places: seq<DivisionPlace>, count: nat, p: DivisionPlace, q: DivisionPlace)
    requires count <= |places| && p in places && q in places && p != q && p.rank == q.rank
    requires UpTo(places, p.rank - 1) < count
    ensures p.rank in ContestedRanks(places, PromotionZone(places, count))
  {
    var i := UpTo(places, p.rank - 1);
    TwoShare(places, p, q);
    OneRankMore(places, p.rank);
    RankStandsAt(places, p.rank, i);
    assert PromotionZone(places, count)[i].rank == p.rank;
  }

  lemma TieAmongLastIsContested(places: seq<DivisionPlace>, count: nat, p: DivisionPlace, q: DivisionPlace)
    requires count <= |places| && p in places && q in places && p != q && p.rank == q.rank
    requires Below(places, p.rank) < count
    ensures p.rank in ContestedRanks(places, RelegationZone(places, count))
  {
    var i := UpTo(places, p.rank) - 1;
    TheRest(places, p.rank);
    TwoShare(places, p, q);
    OneRankMore(places, p.rank);
    RankStandsAt(places, p.rank, i);
    assert RelegationZone(places, count)[i - (|places| - count)].rank == p.rank;
  }

  lemma ContestedRankIsTop(places: seq<DivisionPlace>, count: nat, rank: int)
    requires Unique(places, ManagerOf) && count <= |places| && rank in ContestedRanks(places, PromotionZone(places, count))
    ensures TiedAmongFirst(places, count)
  {
    var i :| 0 <= i < count && Ordered(places)[i].rank == rank;
    UpToIsPlace(places, i, rank - 1);
    var p, q := SharedRankHasTwo(places, rank);
    assert UpTo(places, p.rank - 1) < count;
  }

  lemma ContestedRankIsBottom(places: seq<DivisionPlace>, count: nat, rank: int)
    requires Unique(places, ManagerOf) && count <= |places| && rank in ContestedRanks(places, RelegationZone(places, count))
    ensures TiedAmongLast(places, count)
  {
    var i :| |places| - count <= i < |places| && Ordered(places)[i].rank == rank;
    UpToIsPlace(places, i, rank);
    TheRest(places, rank);
    var p, q := SharedRankHasTwo(places, rank);
    assert Below(places, p.rank) < count;
  }

  lemma ContestedTopIff(places: seq<DivisionPlace>, count: nat)
    requires Unique(places, ManagerOf) && count <= |places|
    ensures ContestedRanks(places, PromotionZone(places, count)) != {} <==> TiedAmongFirst(places, count)
  {
    if rank :| rank in ContestedRanks(places, PromotionZone(places, count)) {
      ContestedRankIsTop(places, count, rank);
    }
    if p, q :| p in places && q in places && p != q && p.rank == q.rank && UpTo(places, p.rank - 1) < count {
      TieAmongFirstIsContested(places, count, p, q);
    }
  }

  lemma ContestedBottomIff(places: seq<DivisionPlace>, count: nat)
    requires Unique(places, ManagerOf) && count <= |places|
    ensures ContestedRanks(places, RelegationZone(places, count)) != {} <==> TiedAmongLast(places, count)
  {
    if rank :| rank in ContestedRanks(places, RelegationZone(places, count)) {
      ContestedRankIsBottom(places, count, rank);
    }
    if p, q :| p in places && q in places && p != q && p.rank == q.rank && Below(places, p.rank) < count {
      TieAmongLastIsContested(places, count, p, q);
    }
  }

  // ----- Places as managers -----

  ghost function Holding(places: seq<DivisionPlace>, p: DivisionPlace -> bool): set<int> {
    set x | x in places && p(x) :: x.managerId
  }

  lemma HoldingOneMore(places: seq<DivisionPlace>, p: DivisionPlace -> bool)
    requires Unique(places, ManagerOf) && places != []
    ensures Unique(places[1..], ManagerOf)
    ensures places[0].managerId !in Holding(places[1..], p)
    ensures Holding(places, p) == Holding(places[1..], p) + if p(places[0]) then {places[0].managerId} else {}
  {
    FirstIsApart(places);
    assert places == [places[0]] + places[1..];
  }

  lemma {:induction false} CountIsSize(places: seq<DivisionPlace>, p: DivisionPlace -> bool)
    requires Unique(places, ManagerOf)
    ensures Count(places, p) == |Holding(places, p)|
  {
    if places != [] {
      HoldingOneMore(places, p);
      CountIsSize(places[1..], p);
    }
  }

  lemma FirstIsApart(places: seq<DivisionPlace>)
    requires Unique(places, ManagerOf) && places != []
    ensures Unique(places[1..], ManagerOf)
    ensures forall x :: x in places[1..] ==> x.managerId != places[0].managerId
  {
    var rest := places[1..];
    forall i, j | 0 <= i < j < |rest| ensures ManagerOf(rest[i]) != ManagerOf(rest[j]) {
      assert ManagerOf(places[i + 1]) != ManagerOf(places[j + 1]);
    }
    forall x | x in rest ensures x.managerId != places[0].managerId {
      var i :| 0 <= i < |rest| && rest[i] == x;
      assert ManagerOf(places[0]) != ManagerOf(places[i + 1]);
    }
  }

  ghost function Above(o: Office, division: Division, m: int): set<int> {
    set x | x in Members(o, division) && IsBetter(TotalsOf(o, x), TotalsOf(o, m))
  }

  ghost function Beneath(o: Office, division: Division, m: int): set<int> {
    set x | x in Members(o, division) && IsBetter(TotalsOf(o, m), TotalsOf(o, x))
  }

  /** A division's places are its managers, each once. */
  lemma PlacesAreMembers(o: Office, division: Division)
    requires Valid(o)
    ensures Unique(Places(Table(o, division)), ManagerOf)
    ensures forall m :: (exists p :: p in Places(Table(o, division)) && p.managerId == m) <==> m in Members(o, division)
    ensures |Places(Table(o, division))| == |Members(o, division)|
  {
    RowsHoldDivision(o, o.roster, division);
    PlacesHoldTable(Table(o, division));
    forall m ensures m in Ids(Table(o, division)) <==> m in Members(o, division) {}
    DistinctCount(Ids(Table(o, division)), Members(o, division));
  }

  /** Ranks compare as seasons do. */
  lemma RanksCompareSeasons(o: Office, division: Division, p: DivisionPlace, q: DivisionPlace)
    requires Valid(o) && p in Places(Table(o, division)) && q in Places(Table(o, division))
    ensures p.rank < q.rank <==> IsBetter(TotalsOf(o, p.managerId), TotalsOf(o, q.managerId))
  {
    PlacesFollowKeys(o, division, p, q);
    KeysCompareTotals(o, p.managerId, q.managerId);
  }

  lemma CountIsOfManagers(o: Office, division: Division, holds: DivisionPlace -> bool, managers: set<int>)
    requires Valid(o) && managers <= Members(o, division)
    requires forall q :: q in Places(Table(o, division)) ==> (holds(q) <==> q.managerId in managers)
    ensures Count(Places(Table(o, division)), holds) == |managers|
  {
    var places := Places(Table(o, division));
    PlacesAreMembers(o, division);
    CountIsSize(places, holds);
    assert Holding(places, holds) == managers by {
      forall m | m in managers ensures m in Holding(places, holds) {
        var q :| q in places && q.managerId == m;
      }
    }
  }

  /** How many places are ranked above one's own, in managers. */
  lemma RankedAbove(o: Office, division: Division, p: DivisionPlace)
    requires Valid(o) && p in Places(Table(o, division))
    ensures UpTo(Places(Table(o, division)), p.rank - 1) == |Above(o, division, p.managerId)|
  {
    PlacesAreMembers(o, division);
    var rank := p.rank - 1;
    forall q | q in Places(Table(o, division)) ensures q.rank <= rank <==> q.managerId in Above(o, division, p.managerId) {
      RanksCompareSeasons(o, division, q, p);
    }
    CountIsOfManagers(o, division, (p: DivisionPlace) => p.rank <= rank, Above(o, division, p.managerId));
  }

  /** How many are ranked below it. */
  lemma RankedBelow(o: Office, division: Division, p: DivisionPlace)
    requires Valid(o) && p in Places(Table(o, division))
    ensures Below(Places(Table(o, division)), p.rank) == |Beneath(o, division, p.managerId)|
  {
    PlacesAreMembers(o, division);
    var rank := p.rank;
    forall q | q in Places(Table(o, division)) ensures q.rank > rank <==> q.managerId in Beneath(o, division, p.managerId) {
      RanksCompareSeasons(o, division, p, q);
    }
    CountIsOfManagers(o, division, (p: DivisionPlace) => p.rank > rank, Beneath(o, division, p.managerId));
  }

  /** Two managers have a level season, and fewer than `count` a better one. */
  ghost predicate LevelAtTheTop(o: Office, division: Division, count: nat) {
    exists x, y :: x in Members(o, division) && y in Members(o, division) && x != y &&
                   IsLevel(TotalsOf(o, x), TotalsOf(o, y)) && |Above(o, division, x)| < count
  }

  /** Two managers have a level season, and fewer than `count` a worse one. */
  ghost predicate LevelAtTheBottom(o: Office, division: Division, count: nat) {
    exists x, y :: x in Members(o, division) && y in Members(o, division) && x != y &&
                   IsLevel(TotalsOf(o, x), TotalsOf(o, y)) && |Beneath(o, division, x)| < count
  }

  lemma OnePlaceEach(o: Office, division: Division, p: DivisionPlace, q: DivisionPlace)
    requires Valid(o) && p in Places(Table(o, division)) && q in Places(Table(o, division)) && p.managerId == q.managerId
    ensures p == q
  {
    PlacesAreMembers(o, division);
    var places := Places(Table(o, division));
    var i :| 0 <= i < |places| && places[i] == p;
    var j :| 0 <= j < |places| && places[j] == q;
    assert i < j ==> ManagerOf(places[i]) != ManagerOf(places[j]);
    assert j < i ==> ManagerOf(places[j]) != ManagerOf(places[i]);
  }

  /** Two places share a rank exactly when the seasons are level. */
  lemma SameRankIffLevel(o: Office, division: Division, p: DivisionPlace, q: DivisionPlace)
    requires Valid(o) && p in Places(Table(o, division)) && q in Places(Table(o, division))
    ensures p.rank == q.rank <==> IsLevel(TotalsOf(o, p.managerId), TotalsOf(o, q.managerId))
    ensures p.managerId == q.managerId ==> p == q
  {
    if p.managerId == q.managerId {
      OnePlaceEach(o, division, p, q);
    } else {
      PlacesFollowKeys(o, division, p, q);
      PlacesFollowKeys(o, division, q, p);
      KeysCompareTotals(o, p.managerId, q.managerId);
      LessIsTotal(KeyOf(o, p.managerId), KeyOf(o, q.managerId));
    }
  }

  lemma FirstTiesAreLevelSeasons(o: Office, division: Division, count: nat)
    requires Valid(o)
    ensures TiedAmongFirst(Places(Table(o, division)), count) <==> LevelAtTheTop(o, division, count)
  {
    var places := Places(Table(o, division));
    PlacesAreMembers(o, division);
    if TiedAmongFirst(places, count) {
      var p, q :| p in places && q in places && p != q && p.rank == q.rank && UpTo(places, p.rank - 1) < count;
      RankedAbove(o, division, p);
      SameRankIffLevel(o, division, p, q);
      assert p.managerId in Members(o, division) && q.managerId in Members(o, division) && p.managerId != q.managerId;
    }
    if LevelAtTheTop(o, division, count) {
      var x, y :| x in Members(o, division) && y in Members(o, division) && x != y &&
                  IsLevel(TotalsOf(o, x), TotalsOf(o, y)) && |Above(o, division, x)| < count;
      var p := PlaceOf(o, division, x);
      var q := PlaceOf(o, division, y);
      RankedAbove(o, division, p);
      SameRankIffLevel(o, division, p, q);
      assert p != q && p.rank == q.rank;
    }
  }

  lemma LastTiesAreLevelSeasons(o: Office, division: Division, count: nat)
    requires Valid(o)
    ensures TiedAmongLast(Places(Table(o, division)), count) <==> LevelAtTheBottom(o, division, count)
  {
    var places := Places(Table(o, division));
    PlacesAreMembers(o, division);
    if TiedAmongLast(places, count) {
      var p, q :| p in places && q in places && p != q && p.rank == q.rank && Below(places, p.rank) < count;
      RankedBelow(o, division, p);
      SameRankIffLevel(o, division, p, q);
      assert p.managerId in Members(o, division) && q.managerId in Members(o, division) && p.managerId != q.managerId;
    }
    if LevelAtTheBottom(o, division, count) {
      var x, y :| x in Members(o, division) && y in Members(o, division) && x != y &&
                  IsLevel(TotalsOf(o, x), TotalsOf(o, y)) && |Beneath(o, division, x)| < count;
      var p := PlaceOf(o, division, x);
      var q := PlaceOf(o, division, y);
      RankedBelow(o, division, p);
      SameRankIffLevel(o, division, p, q);
      assert p != q && p.rank == q.rank;
    }
  }

  /**
   A swap is made exactly when the Season and its next phase exist, its last Gameweek is final, both
   divisions are large enough, nobody holds a place of the next phase, and no two level seasons stand
   among the best of LOW or the worst of HIGH that are to move.
   */
  lemma SwapIsMadeIff(o: Office, r: Request)
    requires Valid(o)
    ensures Refusal(o, r).None? <==>
            && r.seasonExists && r.cutoffFinalized && r.nextPhaseExists && o.memberships == []
            && 0 < r.count <= |Members(o, High)| && r.count <= |Members(o, Low)|
            && !LevelAtTheTop(o, Low, r.count) && !LevelAtTheBottom(o, High, r.count)
  {
    PlacesAreMembers(o, High);
    PlacesAreMembers(o, Low);
    NobodyHoldsOneIff(o.memberships);
    if PlanRefusal(o, r).None? {
      var high, low := Places(Table(o, High)), Places(Table(o, Low));
      ContestedTopIff(low, r.count);
      ContestedBottomIff(high, r.count);
      FirstTiesAreLevelSeasons(o, Low, r.count);
      LastTiesAreLevelSeasons(o, High, r.count);
    }
  }

  /** The Season is over for good and both divisions have as many managers as are to move. */
  ghost predicate CanBePlanned(o: Office, r: Request) {
    r.seasonExists && r.cutoffFinalized && 0 < r.count <= |Members(o, High)| && r.count <= |Members(o, Low)|
  }

  ghost predicate SomebodyIsLevel(o: Office, count: nat) {
    LevelAtTheTop(o, Low, count) || LevelAtTheBottom(o, High, count)
  }

  lemma LevelSeasonsShareRanks(o: Office, r: Request)
    requires Valid(o) && CanBePlanned(o, r)
    ensures PlanRefusal(o, r).None?
    ensures SomebodyIsLevel(o, r.count) <==> Planned(o, r).contestedRanks != {}
  {
    PlacesAreMembers(o, High);
    PlacesAreMembers(o, Low);
    ContestedTopIff(Places(Table(o, Low)), r.count);
    ContestedBottomIff(Places(Table(o, High)), r.count);
    FirstTiesAreLevelSeasons(o, Low, r.count);
    LastTiesAreLevelSeasons(o, High, r.count);
  }

  /** A refused swap names the first reason in this order. */
  lemma SwapIsRefusedFor(o: Office, r: Request)
    requires Valid(o)
    ensures !r.seasonExists ==> Refusal(o, r) == Some(SeasonNotFound)
    ensures r.seasonExists && !r.cutoffFinalized ==> Refusal(o, r) == Some(CutoffNotFinalized)
    ensures r.seasonExists && r.cutoffFinalized && r.count <= 0 ==> Refusal(o, r) == Some(NoPlan(CountNotPositive))
    ensures r.seasonExists && r.cutoffFinalized && r.count > 0 && (r.count > |Members(o, High)| || r.count > |Members(o, Low)|)
            ==> Refusal(o, r) == Some(NoPlan(DivisionTooSmall))
    ensures CanBePlanned(o, r) && SomebodyIsLevel(o, r.count) ==> Refusal(o, r).Some? && Refusal(o, r).value.RanksShared?
    ensures CanBePlanned(o, r) && !SomebodyIsLevel(o, r.count) && !r.nextPhaseExists ==> Refusal(o, r) == Some(PhaseNotFound)
    ensures CanBePlanned(o, r) && !SomebodyIsLevel(o, r.count) && r.nextPhaseExists && o.memberships != []
            ==> Refusal(o, r) == Some(AlreadyMade(|set row | row in o.memberships :: row.managerId|))
  {
    PlacesAreMembers(o, High);
    PlacesAreMembers(o, Low);
    if CanBePlanned(o, r) {
      LevelSeasonsShareRanks(o, r);
      NobodyHoldsOneIff(o.memberships);
    }
  }
}
