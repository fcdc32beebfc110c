/** The exchange between the two divisions, from the Classic tables to the next phase's memberships. */
module PromotionService {
  import opened Wrappers
  import opened Sorting
  import opened SetSums
  import opened Rankings
  import opened CupBracket
  import opened Promotion

  datatype Membership = Membership(managerId: int, division: Division, movedFrom: Option<Division>)

  /** The managers in id order, where each one is now, his Season totals, and the next phase's rows. */
  datatype Office = Office(roster: seq<int>, divisions: map<int, Division>, totals: map<int, ClassicStanding>,
                           memberships: seq<Membership>)

  /** What the database answers about the Season, and how many are to move. */
  datatype Request = Request(seasonExists: bool, cutoffFinalized: bool, nextPhaseExists: bool, count: int)

  datatype SwapRefusal =
    | SeasonNotFound | CutoffNotFinalized | NoPlan(error: PlanError)
    | RanksShared(ranks: set<int>) | PhaseNotFound | AlreadyMade(holders: nat)

  ghost predicate Valid(o: Office) {
    && (forall i, j :: 0 <= i < j < |o.roster| ==> o.roster[i] != o.roster[j])
    && (forall m :: m in o.roster <==> m in o.divisions)
  }

  // ----- The tables -----

  function StandingKey(row: ClassicStanding): Key {
    row.RankKey()
  }

  function RowFor(totals: map<int, ClassicStanding>, manager: int): ClassicStanding {
    if manager in totals then totals[manager].(managerId := manager) else ClassicStanding(manager, 0, 0, 0, 0, 0)
  }

  /** One row for every manager of the division, whether he has scored or not, in id order. */
  function Rows(o: Office, roster: seq<int>, division: Division): seq<ClassicStanding> {
    if roster == [] then []
    else
      var before, manager := Rows(o, roster[..|roster| - 1], division), roster[|roster| - 1];
      if manager in o.divisions && o.divisions[manager] == division then before + [RowFor(o.totals, manager)] else before
  }

  function Table(o: Office, division: Division): seq<ClassicStanding> {
    Rows(o, o.roster, division)
  }

  function Places(rows: seq<ClassicStanding>): (places: seq<DivisionPlace>)
    ensures |places| == |rows|
  {
    SortPermutes(rows, StandingKey, true);
    var ordered := Sort(rows, StandingKey, true);
    seq(|ordered|, i requires 0 <= i < |ordered| =>
      DivisionPlace(ordered[i].managerId, RankOf(rows, StandingKey, ordered[i])))
  }

  function Ids(rows: seq<ClassicStanding>): seq<int> {
    seq(|rows|, i requires 0 <= i < |rows| => rows[i].managerId)
  }

  // ----- The swap as a function of the office -----

  function PlanRefusal(o: Office, r: Request): Option<SwapRefusal> {
    if !r.seasonExists then Some(SeasonNotFound)
    else if !r.cutoffFinalized then Some(CutoffNotFinalized)
    else
      match SwapError(Places(Table(o, High)), Places(Table(o, Low)), r.count)
      case Some(error) => Some(NoPlan(error))
      case None => None
  }

  function Planned(o: Office, r: Request): DivisionSwap
    requires PlanRefusal(o, r).None?
  {
    Swap(Places(Table(o, High)), Places(Table(o, Low)), r.count)
  }

  function Holders(memberships: seq<Membership>): set<int> {
    set membership | membership in memberships :: membership.managerId
  }

  function Refusal(o: Office, r: Request): Option<SwapRefusal> {
    if PlanRefusal(o, r).Some? then PlanRefusal(o, r)
    else if !Planned(o, r).IsDecided() then Some(RanksShared(Planned(o, r).contestedRanks))
    else if !r.nextPhaseExists then Some(PhaseNotFound)
    else if Holders(o.memberships) != {} then Some(AlreadyMade(|Holders(o.memberships)|))
    else None
  }

  predicate MovedBy(moves: seq<Movement>, manager: int) {
    exists move :: move in moves && move.managerId == manager
  }

  function MembershipFor(swap: DivisionSwap, manager: int, now: Division): Membership {
    if MovedBy(swap.relegated, manager) then Membership(manager, Low, Some(High))
    else if MovedBy(swap.promoted, manager) then Membership(manager, High, Some(Low))
    else Membership(manager, now, None)
  }

  function Everyone(o: Office): seq<int> {
    Ids(Table(o, High)) + Ids(Table(o, Low))
  }

  /** The next phase's rows, HIGH's table first. */
  function Written(o: Office, swap: DivisionSwap): (rows: seq<Membership>)
    requires forall m :: m in Everyone(o) ==> m in o.divisions
    ensures |rows| == |Everyone(o)|
  {
    var managers := Everyone(o);
    seq(|managers|, i requires 0 <= i < |managers| => MembershipFor(swap, managers[i], o.divisions[managers[i]]))
  }

  function Applied(o: Office, swap: DivisionSwap): Office
    requires forall m :: m in Everyone(o) ==> m in o.divisions
  {
    o.(memberships := o.memberships + Written(o, swap),
       divisions := map m | m in o.divisions ::
         if m in Everyone(o) then MembershipFor(swap, m, o.divisions[m]).division else o.divisions[m])
  }

  // ----- What the tables hold -----

  ghost predicate InDivision(o: Office, m: int, division: Division) {
    m in o.divisions && o.divisions[m] == division
  }

  ghost function Members(o: Office, division: Division): set<int> {
    set m | m in o.divisions && o.divisions[m] == division
  }

  function ManagerOf(place: DivisionPlace): int {
    place.managerId
  }

  function ManagerOfRow(row: ClassicStanding): int {
    row.managerId
  }

  lemma {:induction false} RowsHoldDivision(o: Office, roster: seq<int>, division: Division)
    requires forall i, j :: 0 <= i < j < |roster| ==> roster[i] != roster[j]
    ensures forall m :: m in Ids(Rows(o, roster, division)) <==> m in roster && InDivision(o, m, division)
    ensures Unique(Rows(o, roster, division), ManagerOfRow)
  {
    if roster != [] {
      var before, manager := roster[..|roster| - 1], roster[|roster| - 1];
      RowsHoldDivision(o, before, division);
      assert roster == before + [manager];
      var rows := Rows(o, before, division);
      forall i | 0 <= i < |rows| ensures rows[i].managerId in before {
        assert Ids(rows)[i] in Ids(rows);
      }
      if InDivision(o, manager, division) {
        assert Ids(rows + [RowFor(o.totals, manager)]) == Ids(rows) + [manager];
      }
    }
  }

  function RankedRows(rows: seq<ClassicStanding>): seq<ClassicStanding> {
    Sort(rows, StandingKey, true)
  }

  lemma RankedRowsHoldTable(rows: seq<ClassicStanding>)
    ensures |RankedRows(rows)| == |rows| && multiset(RankedRows(rows)) == multiset(rows)
    ensures forall row :: row in RankedRows(rows) <==> row in rows
  {
    SortPermutes(rows, StandingKey, true);
    forall row ensures row in RankedRows(rows) <==> row in rows {
      assert row in multiset(RankedRows(rows)) <==> row in multiset(rows);
    }
  }

  lemma PlaceAt(rows: seq<ClassicStanding>, i: nat)
    requires i < |rows|
    ensures |RankedRows(rows)| == |rows| && RankedRows(rows)[i] in rows
    ensures Places(rows)[i] == DivisionPlace(RankedRows(rows)[i].managerId, RankOf(rows, StandingKey, RankedRows(rows)[i]))
  {
    RankedRowsHoldTable(rows);
  }

  lemma PlaceOfRow(rows: seq<ClassicStanding>, row: ClassicStanding)
    requires row in rows
    ensures DivisionPlace(row.managerId, RankOf(rows, StandingKey, row)) in Places(rows)
  {
    RankedRowsHoldTable(rows);
    var i :| 0 <= i < |RankedRows(rows)| && RankedRows(rows)[i] == row;
    PlaceAt(rows, i);
  }

  lemma RowOfPlace(rows: seq<ClassicStanding>, p: DivisionPlace) returns (row: ClassicStanding)
    requires p in Places(rows)
    ensures row in rows && p == DivisionPlace(row.managerId, RankOf(rows, StandingKey, row))
  {
    var i :| 0 <= i < |Places(rows)| && Places(rows)[i] == p;
    PlaceAt(rows, i);
    row := RankedRows(rows)[i];
  }

  lemma PlacesAreUnique(rows: seq<ClassicStanding>)
    requires Unique(rows, ManagerOfRow)
    ensures Unique(Places(rows), ManagerOf)
  {
    RankedRowsHoldTable(rows);
    UniquePermutation(rows, RankedRows(rows), ManagerOfRow);
    forall i, j | 0 <= i < j < |rows| ensures ManagerOf(Places(rows)[i]) != ManagerOf(Places(rows)[j]) {
      PlaceAt(rows, i);
      PlaceAt(rows, j);
      assert ManagerOfRow(RankedRows(rows)[i]) != ManagerOfRow(RankedRows(rows)[j]);
    }
  }

  /** The places list every manager of the table once, each at the rank its key has. */
  lemma PlacesHoldTable(rows: seq<ClassicStanding>)
    requires Unique(rows, ManagerOfRow)
    ensures Unique(Places(rows), ManagerOf)
    ensures forall m :: (exists p :: p in Places(rows) && p.managerId == m) <==> m in Ids(rows)
    ensures forall p :: p in Places(rows) ==>
              exists row :: row in rows && row.managerId == p.managerId && p.rank == RankOf(rows, StandingKey, row)
  {
    PlacesAreUnique(rows);
    forall m | m in Ids(rows) ensures exists p :: p in Places(rows) && p.managerId == m {
      var i :| 0 <= i < |rows| && rows[i].managerId == m;
      PlaceOfRow(rows, rows[i]);
    }
    forall p | p in Places(rows)
      ensures p.managerId in Ids(rows)
      ensures exists row :: row in rows && row.managerId == p.managerId && p.rank == RankOf(rows, StandingKey, row)
    {
      var row := RowOfPlace(rows, p);
      var i :| 0 <= i < |rows| && rows[i] == row;
      assert Ids(rows)[i] == p.managerId;
    }
  }

  // ----- What the planned swap moves -----

  lemma {:induction false} DistinctMoves(moves: seq<Movement>)
    requires forall i, j :: 0 <= i < j < |moves| ==> moves[i].managerId != moves[j].managerId
    ensures |Named(moves)| == |moves|
  {
    if moves != [] {
      var before, move := moves[..|moves| - 1], moves[|moves| - 1];
      DistinctMoves(before);
      assert moves == before + [move];
      assert Named(moves) == Named(before) + {move.managerId};
    }
  }

  /** A zone's moves name as many managers as the zone has places, all of that division. */
  lemma ZoneMoves(o: Office, division: Division, zone: seq<DivisionPlace>, from: nat, to: nat)
    requires Valid(o) && from <= to <= |Table(o, division)|
    requires zone == Ordered(Places(Table(o, division)))[from..to]
    ensures |Named(Moves(zone))| == to - from
    ensures forall move :: move in Moves(zone) ==> InDivision(o, move.managerId, division)
  {
    var places := Places(Table(o, division));
    RowsHoldDivision(o, o.roster, division);
    PlacesHoldTable(Table(o, division));
    OrderedFacts(places);
    UniquePermutation(places, Ordered(places), ManagerOf);
    DistinctMoves(Moves(zone));
    forall i | 0 <= i < |zone| ensures InDivision(o, zone[i].managerId, division) {
      assert Ordered(places)[from + i] in multiset(places);
    }
  }

  ghost function Promoted(o: Office, r: Request): set<int>
    requires PlanRefusal(o, r).None?
  {
    Named(Planned(o, r).promoted)
  }

  ghost function Relegated(o: Office, r: Request): set<int>
    requires PlanRefusal(o, r).None?
  {
    Named(Planned(o, r).relegated)
  }

  ghost function Named(moves: seq<Movement>): set<int> {
    set move | move in moves :: move.managerId
  }

  lemma NamedAreOf(o: Office, division: Division, zone: seq<DivisionPlace>, from: nat, to: nat)
    requires Valid(o) && from <= to <= |Table(o, division)|
    requires zone == Ordered(Places(Table(o, division)))[from..to]
    ensures |Named(Moves(zone))| == to - from && Named(Moves(zone)) <= Members(o, division)
  {
    ZoneMoves(o, division, zone, from, to);
  }

  lemma PromotedAreOfLow(o: Office, r: Request)
    requires Valid(o) && PlanRefusal(o, r).None?
    ensures |Promoted(o, r)| == r.count && Promoted(o, r) <= Members(o, Low)
  {
    NamedAreOf(o, Low, PromotionZone(Places(Table(o, Low)), r.count), 0, r.count);
  }

  /** The swap names `count` managers of LOW and `count` managers of HIGH. */
  lemma SwapNamesCountEachWay(o: Office, r: Request)
    requires Valid(o) && PlanRefusal(o, r).None?
    ensures |Promoted(o, r)| == |Relegated(o, r)| == r.count
    ensures Promoted(o, r) <= Members(o, Low) && Relegated(o, r) <= Members(o, High)
  {
    PromotedAreOfLow(o, r);
    var high := Places(Table(o, High));
    NamedAreOf(o, High, RelegationZone(high, r.count), |high| - r.count, |high|);
  }

  lemma EveryoneIsOnTheRoster(o: Office)
    requires Valid(o)
    ensures forall m :: m in Everyone(o) <==> m in o.divisions
    ensures forall i, j :: 0 <= i < j < |Everyone(o)| ==> Everyone(o)[i] != Everyone(o)[j]
  {
    RowsHoldDivision(o, o.roster, High);
    RowsHoldDivision(o, o.roster, Low);
    var high, low := Ids(Table(o, High)), Ids(Table(o, Low));
    assert forall i :: 0 <= i < |high| ==> high[i] in high;
    assert forall i :: 0 <= i < |low| ==> low[i] in low;
    forall m | m in o.divisions ensures m in Everyone(o) {
      assert o.divisions[m] == High || o.divisions[m] == Low;
    }
  }

  // ----- What applying it guarantees -----

  /** Where one manager goes: only a named manager moves, and he moves to the other division. */
  lemma MembershipOf(o: Office, r: Request, m: int)
    requires Valid(o) && PlanRefusal(o, r).None? && m in o.divisions
    ensures MembershipFor(Planned(o, r), m, o.divisions[m]) ==
            if m in Relegated(o, r) then Membership(m, Low, Some(High))
            else if m in Promoted(o, r) then Membership(m, High, Some(Low))
            else Membership(m, o.divisions[m], None)
    ensures m in Relegated(o, r) ==> o.divisions[m] == High
    ensures m in Promoted(o, r) ==> o.divisions[m] == Low
  {
    SwapNamesCountEachWay(o, r);
    assert m in Relegated(o, r) ==> m in Members(o, High);
    assert m in Promoted(o, r) ==> m in Members(o, Low);
  }

  lemma AppliedAt(o: Office, r: Request, m: int)
    requires Valid(o) && PlanRefusal(o, r).None? && m in o.divisions
    ensures forall n :: n in Everyone(o) ==> n in o.divisions
    ensures Applied(o, Planned(o, r)).divisions.Keys == o.divisions.Keys
    ensures Applied(o, Planned(o, r)).divisions[m] ==
            if m in Relegated(o, r) then Low else if m in Promoted(o, r) then High else o.divisions[m]
  {
    EveryoneIsOnTheRoster(o);
    MembershipOf(o, r, m);
  }

  lemma AppliedDivisions(o: Office, r: Request)
    requires Valid(o) && PlanRefusal(o, r).None?
    ensures forall m :: m in Everyone(o) ==> m in o.divisions
    ensures Members(Applied(o, Planned(o, r)), High) == Members(o, High) - Relegated(o, r) + Promoted(o, r)
    ensures Members(Applied(o, Planned(o, r)), Low) == Members(o, Low) - Promoted(o, r) + Relegated(o, r)
  {
    EveryoneIsOnTheRoster(o);
    SwapNamesCountEachWay(o, r);
    var after := Applied(o, Planned(o, r)).divisions;
    forall m | m in o.divisions
      ensures after[m] == if m in Relegated(o, r) then Low else if m in Promoted(o, r) then High else o.divisions[m]
      ensures m in Relegated(o, r) ==> m !in Promoted(o, r)
    {
      AppliedAt(o, r, m);
      MembershipOf(o, r, m);
    }
  }

  /** Both divisions keep the size they had, and every manager still has exactly one division. */
  lemma AppliedKeepsSizes(o: Office, r: Request)
    requires Valid(o) && Refusal(o, r).None?
    ensures forall m :: m in Everyone(o) ==> m in o.divisions
    ensures Valid(Applied(o, Planned(o, r)))
    ensures |Members(Applied(o, Planned(o, r)), High)| == |Members(o, High)|
    ensures |Members(Applied(o, Planned(o, r)), Low)| == |Members(o, Low)|
  {
    AppliedDivisions(o, r);
    SwapNamesCountEachWay(o, r);
  }

  lemma NobodyHoldsOneIff(memberships: seq<Membership>)
    ensures Holders(memberships) == {} <==> memberships == []
  {
    if memberships != [] {
      assert memberships[0].managerId in Holders(memberships);
    }
  }

  lemma RowAt(o: Office, r: Request, i: nat)
    requires Valid(o) && Refusal(o, r).None? && i < |Everyone(o)|
    ensures forall m :: m in Everyone(o) ==> m in o.divisions
    ensures var after := Applied(o, Planned(o, r));
            && |after.memberships| == |Everyone(o)|
            && after.memberships[i].managerId == Everyone(o)[i]
            && RecordsMove(o, after, after.memberships[i])
  {
    EveryoneIsOnTheRoster(o);
    NobodyHoldsOneIff(o.memberships);
    AppliedAt(o, r, Everyone(o)[i]);
    MembershipOf(o, r, Everyone(o)[i]);
    assert o.memberships + Written(o, Planned(o, r)) == Written(o, Planned(o, r));
  }

  /** One membership of the next phase for every manager, agreeing with where he is now. */
  lemma AppliedWritesOneMembershipEach(o: Office, r: Request)
    requires Valid(o) && Refusal(o, r).None?
    ensures forall m :: m in Everyone(o) ==> m in o.divisions
    ensures OneRowEach(o, Applied(o, Planned(o, r)))
  {
    EveryoneIsOnTheRoster(o);
    var managers := Everyone(o);
    DistinctCount(managers, o.divisions.Keys);
    var after := Applied(o, Planned(o, r));
    SwapNamesCountEachWay(o, r);
    NobodyHoldsOneIff(o.memberships);
    forall i | 0 <= i < |managers|
      ensures |after.memberships| == |managers|
      ensures after.memberships[i].managerId == managers[i] && RecordsMove(o, after, after.memberships[i])
    {
      RowAt(o, r, i);
    }
  }

  ghost predicate OneRowEach(o: Office, after: Office) {
    && |after.memberships| == |o.divisions|
    && (forall i, j :: 0 <= i < j < |after.memberships| ==>
          after.memberships[i].managerId != after.memberships[j].managerId)
    && (forall i :: 0 <= i < |after.memberships| ==> RecordsMove(o, after, after.memberships[i]))
  }

  /** The row says where the manager is after the swap, and where he came from if that is elsewhere. */
  ghost predicate RecordsMove(o: Office, after: Office, row: Membership) {
    && row.managerId in o.divisions && InDivision(after, row.managerId, row.division)
    && row.movedFrom == if o.divisions[row.managerId] == row.division then None else Some(o.divisions[row.managerId])
  }

  lemma {:induction false} DistinctCount(xs: seq<int>, s: set<int>)
    requires forall i, j :: 0 <= i < j < |xs| ==> xs[i] != xs[j]
    requires forall x :: x in xs <==> x in s
    ensures |xs| == |s|
  {
    if xs == [] {
      assert forall x :: x in s ==> x in xs;
      assert s == {};
    } else {
      var before, last := xs[..|xs| - 1], xs[|xs| - 1];
      assert xs == before + [last];
      DistinctCount(before, s - {last});
    }
  }

  /** Once made, the swap is refused whatever is asked for next. */
  lemma SwapIsMadeOnce(o: Office, r: Request, again: Request)
    requires Valid(o) && Refusal(o, r).None?
    ensures forall m :: m in Everyone(o) ==> m in o.divisions
    ensures Refusal(Applied(o, Planned(o, r)), again).Some?
  {
    AppliedWritesOneMembershipEach(o, r);
    NobodyHoldsOneIff(Applied(o, Planned(o, r)).memberships);
  }

  // ----- Movers and stayers, by what they scored -----

  function KeyOf(o: Office, manager: int): Key {
    StandingKey(RowFor(o.totals, manager))
  }

  lemma {:induction false} RowsAreTotals(o: Office, roster: seq<int>, division: Division)
    ensures forall row :: row in Rows(o, roster, division) ==> row == RowFor(o.totals, row.managerId)
  {
    if roster != [] {
      RowsAreTotals(o, roster[..|roster| - 1], division);
    }
  }

  /** Two places of one table stand in the order of their managers' keys. */
  lemma PlacesFollowKeys(o: Office, division: Division, a: DivisionPlace, b: DivisionPlace)
    requires Valid(o) && a in Places(Table(o, division)) && b in Places(Table(o, division))
    ensures a.rank < b.rank <==> Less(KeyOf(o, b.managerId), KeyOf(o, a.managerId))
  {
    var rows := Table(o, division);
    RowsHoldDivision(o, o.roster, division);
    RowsAreTotals(o, o.roster, division);
    PlacesHoldTable(rows);
    RanksFollowKeys(rows, StandingKey, RowFor(o.totals, a.managerId), RowFor(o.totals, b.managerId));
  }

  lemma PlaceOf(o: Office, division: Division, m: int) returns (place: DivisionPlace)
    requires Valid(o) && InDivision(o, m, division)
    ensures place in Places(Table(o, division)) && place.managerId == m
  {
    RowsHoldDivision(o, o.roster, division);
    PlacesHoldTable(Table(o, division));
    place :| place in Places(Table(o, division)) && place.managerId == m;
  }

  lemma ZoneIsNamed(zone: seq<DivisionPlace>, p: DivisionPlace)
    requires p in zone
    ensures exists move :: move in Moves(zone) && move.managerId == p.managerId
  {
    var i :| 0 <= i < |zone| && zone[i] == p;
    assert Moves(zone)[i] in Moves(zone);
  }

  lemma NamedIsInZone(zone: seq<DivisionPlace>, m: int) returns (p: DivisionPlace)
    requires exists move :: move in Moves(zone) && move.managerId == m
    ensures p in zone && p.managerId == m
  {
    var i :| 0 <= i < |zone| && Moves(zone)[i].managerId == m;
    p := zone[i];
  }

  lemma ZonesAreFromTables(o: Office, r: Request)
    requires PlanRefusal(o, r).None?
    ensures forall p :: p in PromotionZone(Places(Table(o, Low)), r.count) ==> p in Places(Table(o, Low))
    ensures forall p :: p in RelegationZone(Places(Table(o, High)), r.count) ==> p in Places(Table(o, High))
  {
    var high, low := Places(Table(o, High)), Places(Table(o, Low));
    ZoneIsFromTable(low, PromotionZone(low, r.count), 0, r.count);
    ZoneIsFromTable(high, RelegationZone(high, r.count), |high| - r.count, |high|);
  }

  /** Whoever goes up scored strictly better than everyone who stays in LOW. */
  lemma PromotedOutscoreStayers(o: Office, r: Request, up: int, stayer: int)
    requires Valid(o) && Refusal(o, r).None?
    requires up in Promoted(o, r) && stayer in Members(o, Low) - Promoted(o, r)
    ensures Less(KeyOf(o, stayer), KeyOf(o, up))
  {
    var high, low := Places(Table(o, High)), Places(Table(o, Low));
    var zone := PromotionZone(low, r.count);
    ZonesAreFromTables(o, r);
    var upPlace := NamedIsInZone(zone, up);
    var stayerPlace := PlaceOf(o, Low, stayer);
    if stayerPlace in zone {
      ZoneIsNamed(zone, stayerPlace);
    }
    DecidedMoversAreApart(high, low, r.count);
    assert Stays(low, zone, stayerPlace);
    PlacesFollowKeys(o, Low, upPlace, stayerPlace);
  }

  /** Whoever goes down scored strictly worse than everyone who stays in HIGH. */
  lemma StayersOutscoreRelegated(o: Office, r: Request, down: int, stayer: int)
    requires Valid(o) && Refusal(o, r).None?
    requires down in Relegated(o, r) && stayer in Members(o, High) - Relegated(o, r)
    ensures Less(KeyOf(o, down), KeyOf(o, stayer))
  {
    var high, low := Places(Table(o, High)), Places(Table(o, Low));
    var zone := RelegationZone(high, r.count);
    ZonesAreFromTables(o, r);
    var downPlace := NamedIsInZone(zone, down);
    var stayerPlace := PlaceOf(o, High, stayer);
    if stayerPlace in zone {
      ZoneIsNamed(zone, stayerPlace);
    }
    DecidedMoversAreApart(high, low, r.count);
    assert Stays(high, zone, stayerPlace);
    PlacesFollowKeys(o, High, stayerPlace, downPlace);
  }

  // ----- The service -----

  class DivisionSwapService {
    var roster: seq<int>
    var divisions: map<int, Division>
    var totals: map<int, ClassicStanding>
    var memberships: seq<Membership>

    function Current(): Office
      reads this
    {
      Office(roster, divisions, totals, memberships)
    }

    constructor (o: Office)
      ensures Current() == o
    {
      roster, divisions, totals, memberships := o.roster, o.divisions, o.totals, o.memberships;
    }

    /** The places of one division's table, ranked as the Classic page ranks it. */
    method RankDivision(division: Division) returns (places: seq<DivisionPlace>)
      ensures places == Places(Table(Current(), division))
    {
      var rows := Table(Current(), division);
      var ranked := CompetitionRank(rows, StandingKey);
      assert Values(ranked) == Sort(rows, StandingKey, true);
      places := seq(|ranked|, i requires 0 <= i < |ranked| => DivisionPlace(ranked[i].value.managerId, ranked[i].rank));
      assert forall i :: 0 <= i < |ranked| ==> ranked[i].value == Sort(rows, StandingKey, true)[i];
    }

    method Plan(r: Request) returns (result: Result<DivisionSwap, SwapRefusal>)
      ensures result == match PlanRefusal(Current(), r)
                        case Some(refusal) => Err(refusal)
                        case None => Ok(Planned(Current(), r))
    {
      if !r.seasonExists {
        return Err(SeasonNotFound);
      }
      if !r.cutoffFinalized {
        return Err(CutoffNotFinalized);
      }
      var high := RankDivision(High);
      var low := RankDivision(Low);
      var plan := PlanDivisionSwap(high, low, r.count);
      match plan {
        case Err(error) => result := Err(NoPlan(error));
        case Ok(swap) => result := Ok(swap);
      }
    }

    /** Writes the planned swap, or refuses and leaves everything as it was. */
    method Apply(r: Request) returns (result: Result<nat, SwapRefusal>)
      requires Valid(Current())
      modifies this`divisions, this`memberships
      ensures match Refusal(old(Current()), r)
              case Some(refusal) => result == Err(refusal) && Current() == old(Current())
              case None =>
                && result == Ok(|old(divisions)|)
                && (forall m :: m in Everyone(old(Current())) ==> m in old(divisions))
                && Current() == Applied(old(Current()), Planned(old(Current()), r))
    {
      var plan := Plan(r);
      if plan.Err? {
        return Err(plan.error);
      }
      var swap := plan.value;
      if swap.contestedRanks != {} {
        return Err(RanksShared(swap.contestedRanks));
      }
      if !r.nextPhaseExists {
        return Err(PhaseNotFound);
      }
      var existing := set membership | membership in memberships :: membership.managerId;
      if existing != {} {
        return Err(AlreadyMade(|existing|));
      }
      ghost var before := Current();
      EveryoneIsOnTheRoster(before);
      NobodyHoldsOneIff(memberships);
      var written := WriteMemberships(swap);
      DistinctCount(Everyone(before), before.divisions.Keys);
      result := Ok(written);
    }

    /** One row and one pointer for every manager of the two tables, in their order. */
    method WriteMemberships(swap: DivisionSwap) returns (written: nat)
      requires forall m :: m in Everyone(Current()) ==> m in divisions
      requires forall i, j :: 0 <= i < j < |Everyone(Current())| ==> Everyone(Current())[i] != Everyone(Current())[j]
      modifies this`divisions, this`memberships
      ensures Current() == Applied(old(Current()), swap)
      ensures written == |Everyone(old(Current()))|
    {
      var managers := Everyone(Current());
      ghost var before, rows := Current(), Written(Current(), swap);
      written := 0;
      for i := 0 to |managers|
        invariant written == i
        invariant memberships == before.memberships + rows[..i]
        invariant divisions.Keys == before.divisions.Keys
        invariant forall m :: m in divisions ==>
                    divisions[m] == if m in managers[..i] then MembershipFor(swap, m, before.divisions[m]).division
                                    else before.divisions[m]
      {
        var m := managers[i];
        assert managers[..i + 1] == managers[..i] + [m] && m !in managers[..i];
        assert rows[..i + 1] == rows[..i] + [rows[i]];
        var row := MembershipFor(swap, m, divisions[m]);
        memberships := memberships + [row];
        divisions := divisions[m := row.division];
        written := written + 1;
      }
      assert managers[..|managers|] == managers && rows[..|rows|] == rows;
      ghost var target := Applied(before, swap).divisions;
      assert target.Keys == before.divisions.Keys;
      forall m | m in divisions ensures divisions[m] == target[m] {
        assert m in before.divisions;
      }
      assert divisions == target;
    }
  }
}
