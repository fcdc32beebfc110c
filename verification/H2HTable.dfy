/** The head-to-head table: accumulated match by match, and what it must add up to. */
module H2HTable {
  import opened Wrappers
  import opened Sorting
  import opened SetSums
  import opened Rankings
  import opened Settlement

  /** One manager's line: what the matches so far have given him. */
  datatype Line = Line(played: int, wins: int, draws: int, losses: int, pointsFor: int, pointsAgainst: int, tablePoints: int)
  {
    function Plus(other: Line): Line {
      Line(played + other.played, wins + other.wins, draws + other.draws, losses + other.losses,
           pointsFor + other.pointsFor, pointsAgainst + other.pointsAgainst, tablePoints + other.tablePoints)
    }
  }

  const NO_LINE := Line(0, 0, 0, 0, 0, 0, 0)

  predicate Completed(m: H2HMatch) {
    m.status == FinalMatch || m.status == WalkoverMatch
  }

  function CompletedOf(matches: seq<H2HMatch>): seq<H2HMatch> {
    if matches == [] then []
    else CompletedOf(matches[..|matches| - 1]) + if Completed(matches[|matches| - 1]) then [matches[|matches| - 1]] else []
  }

  function ScoreOr0(score: Option<int>): int {
    match score case Some(s) => s case None => 0
  }

  predicate HomeWon(m: H2HMatch) {
    m.winner == Some(m.home)
  }

  predicate AwayWon(m: H2HMatch) {
    m.winner == Some(m.away) && !HomeWon(m)
  }

  predicate Drawn(m: H2HMatch) {
    !HomeWon(m) && !AwayWon(m)
  }

  function Indicator(b: bool): int {
    if b then 1 else 0
  }

  function Points(won: bool, drawn: bool): int {
    if won then 3 else if drawn then 1 else 0
  }

  function HomeShare(m: H2HMatch): Line {
    Line(1, Indicator(HomeWon(m)), Indicator(Drawn(m)), Indicator(AwayWon(m)), ScoreOr0(m.homeScore), ScoreOr0(m.awayScore),
         Points(HomeWon(m), Drawn(m)))
  }

  function AwayShare(m: H2HMatch): Line {
    Line(1, Indicator(AwayWon(m)), Indicator(Drawn(m)), Indicator(HomeWon(m)), ScoreOr0(m.awayScore), ScoreOr0(m.homeScore),
         Points(AwayWon(m), Drawn(m)))
  }

  /** What one match gives one manager. */
  function Share(m: H2HMatch, manager: int): Line {
    (if m.home == manager then HomeShare(m) else NO_LINE).Plus(if m.away == manager then AwayShare(m) else NO_LINE)
  }

  /** A manager's line seen from his own matches alone. */
  function LineOf(completed: seq<H2HMatch>, manager: int): Line {
    if completed == [] then NO_LINE
    else LineOf(completed[..|completed| - 1], manager).Plus(Share(completed[|completed| - 1], manager))
  }

  function ManagersOf(matches: seq<H2HMatch>): set<int> {
    (set m | m in matches :: m.home) + (set m | m in matches :: m.away)
  }

  // ----- The accumulators, updated in place -----

  class StandingAccumulator {
    var played: int
    var wins: int
    var draws: int
    var losses: int
    var pointsFor: int
    var pointsAgainst: int
    var tablePoints: int

    function View(): Line
      reads this
    {
      Line(played, wins, draws, losses, pointsFor, pointsAgainst, tablePoints)
    }

    constructor ()
      ensures View() == NO_LINE
    {
      played, wins, draws, losses, pointsFor, pointsAgainst, tablePoints := 0, 0, 0, 0, 0, 0, 0;
    }
  }

  /** One completed match; a manager drawn against himself has one accumulator on both sides. */
  method Record(m: H2HMatch, home: StandingAccumulator, away: StandingAccumulator)
    modifies home, away
    ensures home != away ==> home.View() == old(home.View()).Plus(HomeShare(m)) && away.View() == old(away.View()).Plus(AwayShare(m))
    ensures home == away ==> home.View() == old(home.View()).Plus(HomeShare(m)).Plus(AwayShare(m))
  {
    var homeScore, awayScore := ScoreOr0(m.homeScore), ScoreOr0(m.awayScore);
    home.played := home.played + 1;
    away.played := away.played + 1;
    home.pointsFor := home.pointsFor + homeScore;
    home.pointsAgainst := home.pointsAgainst + awayScore;
    away.pointsFor := away.pointsFor + awayScore;
    away.pointsAgainst := away.pointsAgainst + homeScore;
    if m.winner == Some(m.home) {
      home.wins := home.wins + 1;
      away.losses := away.losses + 1;
      home.tablePoints := home.tablePoints + 3;
    } else if m.winner == Some(m.away) {
      away.wins := away.wins + 1;
      home.losses := home.losses + 1;
      away.tablePoints := away.tablePoints + 3;
    } else {
      home.draws := home.draws + 1;
      away.draws := away.draws + 1;
      home.tablePoints := home.tablePoints + 1;
      away.tablePoints := away.tablePoints + 1;
    }
  }

  /** No two managers share an accumulator. */
  ghost predicate OneEach(accumulators: map<int, StandingAccumulator>) {
    forall x, y :: x in accumulators && y in accumulators && x != y ==> accumulators[x] != accumulators[y]
  }

  method FreshAccumulators(managers: set<int>)
    returns (accumulators: map<int, StandingAccumulator>, ghost cells: set<StandingAccumulator>)
    ensures forall x :: x in accumulators <==> x in managers
    ensures forall x :: x in accumulators ==> accumulators[x] in cells && accumulators[x].View() == NO_LINE
    ensures fresh(cells) && OneEach(accumulators)
  {
    accumulators, cells := map[], {};
    var ids := SortedIds(managers);
    for i := 0 to |ids|
      invariant forall x :: x in accumulators <==> x in ids[..i]
      invariant forall x :: x in accumulators ==> accumulators[x] in cells && accumulators[x].View() == NO_LINE
      invariant fresh(cells) && OneEach(accumulators)
    {
      var one := new StandingAccumulator();
      assert ids[..i + 1] == ids[..i] + [ids[i]];
      accumulators, cells := accumulators[ids[i] := one], cells + {one};
    }
    assert ids[..|ids|] == ids;
    SortedIdsHold(managers);
  }

  /** One match recorded in the table: each manager gains his share of it, most of them nothing. */
  method RecordIn(m: H2HMatch, accumulators: map<int, StandingAccumulator>, ghost cells: set<StandingAccumulator>)
    requires m.home in accumulators && m.away in accumulators && OneEach(accumulators)
    requires forall x :: x in accumulators ==> accumulators[x] in cells
    modifies cells
    ensures forall x :: x in accumulators ==> accumulators[x].View() == old(accumulators[x].View()).Plus(Share(m, x))
  {
    Record(m, accumulators[m.home], accumulators[m.away]);
    forall x | x in accumulators
      ensures accumulators[x].View() == old(accumulators[x].View()).Plus(Share(m, x))
    {
      AddingShare(old(accumulators[x].View()), m, x);
      assert x != m.home ==> accumulators[x] != accumulators[m.home];
      assert x != m.away ==> accumulators[x] != accumulators[m.away];
    }
  }

  lemma AddingShare(line: Line, m: H2HMatch, x: int)
    ensures line.Plus(Share(m, x)) ==
            if m.home == x && m.away == x then line.Plus(HomeShare(m)).Plus(AwayShare(m))
            else if m.home == x then line.Plus(HomeShare(m))
            else if m.away == x then line.Plus(AwayShare(m))
            else line
  {}

  /** Every manager of the schedule gets the line his own completed matches give him. */
  method Accumulate(matches: seq<H2HMatch>) returns (accumulators: map<int, StandingAccumulator>)
    ensures forall x :: x in accumulators <==> x in ManagersOf(matches)
    ensures forall x :: x in accumulators ==> accumulators[x].View() == LineOf(CompletedOf(matches), x)
  {
    var completed := CompletedOf(matches);
    ghost var cells;
    accumulators, cells := FreshAccumulators(ManagersOf(matches));
    for i := 0 to |completed|
      invariant fresh(cells)
      invariant forall x :: x in accumulators ==> accumulators[x].View() == LineOf(completed[..i], x)
    {
      var m := completed[i];
      CompletedAreMatches(matches);
      assert CompletedOf(matches)[i] in CompletedOf(matches);
      RecordIn(m, accumulators, cells);
      forall x | x in accumulators ensures accumulators[x].View() == LineOf(completed[..i + 1], x) {
        NextLine(completed, i, x);
      }
    }
    assert completed[..|completed|] == completed;
  }

  lemma NextLine(completed: seq<H2HMatch>, i: nat, x: int)
    requires i < |completed|
    ensures LineOf(completed[..i + 1], x) == LineOf(completed[..i], x).Plus(Share(completed[i], x))
  {
    assert completed[..i + 1][..i] == completed[..i];
  }

  lemma {:induction false} CompletedAreMatches(matches: seq<H2HMatch>)
    ensures forall m :: m in CompletedOf(matches) <==> m in matches && Completed(m)
    ensures forall m :: m in CompletedOf(matches) ==> m.home in ManagersOf(matches) && m.away in ManagersOf(matches)
  {
    if matches != [] {
      assert matches == matches[..|matches| - 1] + [matches[|matches| - 1]];
      CompletedAreMatches(matches[..|matches| - 1]);
    }
  }

  // ----- What the table adds up to -----

  /** A quantity of a line that is counted up match by match. */
  ghost predicate Additive(field: Line -> int) {
    && field(NO_LINE) == 0
    && forall a: Line, b: Line {:trigger a.Plus(b)} :: field(a.Plus(b)) == field(a) + field(b)
  }

  ghost function FromMatch(m: H2HMatch, field: Line -> int): int {
    field(HomeShare(m)) + field(AwayShare(m))
  }

  /** What a match gives all managers together is what it gives its two sides. */
  lemma SharesOfOneMatch(m: H2HMatch, managers: set<int>, field: Line -> int, share: int -> int)
    requires Additive(field) && m.home in managers && m.away in managers
    requires forall x {:trigger share(x)} :: share(x) == field(Share(m, x))
    ensures SumOver(managers, share) == FromMatch(m, field)
  {
    var atHome := (x: int) => if m.home == x then field(HomeShare(m)) else 0;
    var away := (x: int) => if m.away == x then field(AwayShare(m)) else 0;
    SumOnlyAt(managers, m.home, atHome);
    SumOnlyAt(managers, m.away, away);
    forall x ensures share(x) == atHome(x) + away(x) {
      assert field((if m.home == x then HomeShare(m) else NO_LINE).Plus(if m.away == x then AwayShare(m) else NO_LINE)) ==
             atHome(x) + away(x);
    }
    SumAdd(managers, atHome, away, share);
  }

  /** Summed over the managers or summed over the matches, a counted quantity is the same. */
  lemma {:induction false} TableTotals(completed: seq<H2HMatch>, managers: set<int>, field: Line -> int, ofLine: int -> int)
    requires Additive(field)
    requires forall m :: m in completed ==> m.home in managers && m.away in managers
    requires forall x {:trigger ofLine(x)} :: ofLine(x) == field(LineOf(completed, x))
    ensures SumOver(managers, ofLine) == Sum(completed, (m: H2HMatch) => FromMatch(m, field))
  {
    if completed == [] {
      SumDropZeros({}, managers, ofLine);
    } else {
      var before, last := completed[..|completed| - 1], completed[|completed| - 1];
      assert completed == before + [last];
      var earlier, share := (x: int) => field(LineOf(before, x)), (x: int) => field(Share(last, x));
      TableTotals(before, managers, field, earlier);
      SharesOfOneMatch(last, managers, field, share);
      SumAdd(managers, earlier, share, ofLine);
      SumConcat(before, [last], (m: H2HMatch) => FromMatch(m, field));
    }
  }

  ghost function TableTotal(matches: seq<H2HMatch>, field: Line -> int): int {
    SumOver(ManagersOf(matches), (x: int) => field(LineOf(CompletedOf(matches), x)))
  }

  lemma TotalFromMatches(matches: seq<H2HMatch>, field: Line -> int)
    requires Additive(field)
    ensures TableTotal(matches, field) == Sum(CompletedOf(matches), (m: H2HMatch) => FromMatch(m, field))
  {
    CompletedAreMatches(matches);
    TableTotals(CompletedOf(matches), ManagersOf(matches), field, (x: int) => field(LineOf(CompletedOf(matches), x)));
  }

  /** A quantity every match gives once to each side with opposite signs cancels over the table. */
  lemma {:induction false} BalancedCancels(completed: seq<H2HMatch>, field: Line -> int)
    requires forall m {:trigger FromMatch(m, field)} :: FromMatch(m, field) == 0
    ensures Sum(completed, (m: H2HMatch) => FromMatch(m, field)) == 0
  {
    if completed != [] {
      BalancedCancels(completed[1..], field);
    }
  }

  function WinsLessLosses(line: Line): int {
    line.wins - line.losses
  }

  function PointDifference(line: Line): int {
    line.pointsFor - line.pointsAgainst
  }

  function TablePoints(line: Line): int {
    line.tablePoints
  }

  /** Over the whole table wins equal losses, and points for equal points against. */
  lemma WinsAndPointsBalance(matches: seq<H2HMatch>)
    ensures TableTotal(matches, WinsLessLosses) == 0
    ensures TableTotal(matches, PointDifference) == 0
  {
    TotalFromMatches(matches, WinsLessLosses);
    TotalFromMatches(matches, PointDifference);
    BalancedCancels(CompletedOf(matches), WinsLessLosses);
    BalancedCancels(CompletedOf(matches), PointDifference);
  }

  predicate Decisive(m: H2HMatch) {
    m.winner == Some(m.home) || m.winner == Some(m.away)
  }

  lemma {:induction false} PointsByKind(completed: seq<H2HMatch>)
    ensures Sum(completed, (m: H2HMatch) => FromMatch(m, TablePoints)) ==
            3 * Count(completed, Decisive) + 2 * (|completed| - Count(completed, Decisive))
  {
    if completed != [] {
      PointsByKind(completed[1..]);
    }
  }

  /** Three points for each decisive match, walkovers included, and two for each draw. */
  lemma PointsAreHandedOut(matches: seq<H2HMatch>)
    ensures var completed := CompletedOf(matches);
            TableTotal(matches, TablePoints) ==
            3 * Count(completed, Decisive) + 2 * (|completed| - Count(completed, Decisive))
  {
    TotalFromMatches(matches, TablePoints);
    PointsByKind(CompletedOf(matches));
  }

  ghost predicate AddsUp(line: Line) {
    && line.played == line.wins + line.draws + line.losses
    && line.tablePoints == 3 * line.wins + line.draws
  }

  /** Each manager's matches are his wins, draws and losses, worth three, one and nothing. */
  lemma {:induction false} LineAddsUp(completed: seq<H2HMatch>, manager: int)
    ensures AddsUp(LineOf(completed, manager))
  {
    if completed != [] {
      var before, last := completed[..|completed| - 1], completed[|completed| - 1];
      LineAddsUp(before, manager);
      assert AddsUp(HomeShare(last)) && AddsUp(AwayShare(last)) && AddsUp(NO_LINE);
    }
  }

  /** A walkover moves the table by three points and one win, and by no points for or against. */
  lemma WalkoverIsOnlyAWin(m: H2HMatch, finalized: bool, scores: map<ScoreKey, ScoreRow>, forfeiting: set<int>)
    requires m.home != m.away && (m.home in forfeiting) != (m.away in forfeiting)
    requires !(m.status == FinalMatch && finalized)
    ensures var settled := SettleOne(m, finalized, scores, forfeiting);
            var absent, present := if m.home in forfeiting then m.home else m.away, if m.home in forfeiting then m.away else m.home;
            && Completed(settled)
            && Share(settled, present) == Line(1, 1, 0, 0, 0, 0, 3)
            && Share(settled, absent) == Line(1, 0, 0, 1, 0, 0, 0)
  {}

  // ----- The ranked table -----

  datatype H2HStanding = H2HStanding(managerId: int, tablePoints: int, pointsFor: int, pointsAgainst: int, wins: int, fullNet: int)
  {
    function RankKey(): Key {
      [tablePoints, pointsFor - pointsAgainst, pointsFor, wins, fullNet] + NO_FACTS.SortKey()
    }
  }

  function RowPoints(row: H2HStanding): int {
    row.tablePoints
  }

  function StandingKey(row: H2HStanding): Key {
    row.RankKey()
  }

  function Or0(m: map<int, int>, id: int): int {
    if id in m then m[id] else 0
  }

  function RowFor(line: Line, manager: int, penalties: map<int, int>, fullNet: map<int, int>): H2HStanding {
    H2HStanding(manager, line.tablePoints + Or0(penalties, manager), line.pointsFor, line.pointsAgainst, line.wins,
                Or0(fullNet, manager))
  }

  function Rows(ids: seq<int>, matches: seq<H2HMatch>, penalties: map<int, int>, fullNet: map<int, int>): seq<H2HStanding> {
    seq(|ids|, i requires 0 <= i < |ids| => RowFor(LineOf(CompletedOf(matches), ids[i]), ids[i], penalties, fullNet))
  }

  // ----- What the table shows -----

  datatype H2HStandingResponse = H2HStandingResponse(
    rank: nat, managerId: int, played: int, wins: int, draws: int, losses: int,
    pointsFor: int, pointsAgainst: int, pointDifference: int, h2hTablePoints: int, fullNet: int)

  function Shown(rank: nat, row: H2HStanding, line: Line): H2HStandingResponse {
    H2HStandingResponse(rank, row.managerId, line.played, line.wins, line.draws, line.losses, row.pointsFor, row.pointsAgainst,
                        row.pointsFor - row.pointsAgainst, row.tablePoints, row.fullNet)
  }

  function Ranking(matches: seq<H2HMatch>, penalties: map<int, int>, fullNet: map<int, int>): seq<H2HStanding> {
    Sort(Rows(SortedIds(ManagersOf(matches)), matches, penalties, fullNet), StandingKey, true)
  }

  /** Every manager's row in ranking order, with his rank and the line of his own completed matches. */
  ghost predicate IsTable(shown: seq<H2HStandingResponse>, matches: seq<H2HMatch>, penalties: map<int, int>,
                          fullNet: map<int, int>)
  {
    var rows := Rows(SortedIds(ManagersOf(matches)), matches, penalties, fullNet);
    var ranking := Ranking(matches, penalties, fullNet);
    && |shown| == |ranking|
    && (forall i :: 0 <= i < |shown| ==>
          shown[i] == Shown(RankOf(rows, StandingKey, ranking[i]), ranking[i],
                            LineOf(CompletedOf(matches), ranking[i].managerId)))
    && multiset(ranking) == multiset(rows)
    && (forall i, j :: 0 <= i < j < |ranking| ==> !Less(StandingKey(ranking[i]), StandingKey(ranking[j])))
  }

  lemma RankingIsOfRows(matches: seq<H2HMatch>, penalties: map<int, int>, fullNet: map<int, int>, i: nat)
    requires i < |Ranking(matches, penalties, fullNet)|
    ensures var row := Ranking(matches, penalties, fullNet)[i];
            && row.managerId in ManagersOf(matches)
            && row == RowFor(LineOf(CompletedOf(matches), row.managerId), row.managerId, penalties, fullNet)
  {
    var ids := SortedIds(ManagersOf(matches));
    var rows, ranking := Rows(ids, matches, penalties, fullNet), Ranking(matches, penalties, fullNet);
    SortPermutes(rows, StandingKey, true);
    assert ranking[i] in multiset(rows);
    var k :| 0 <= k < |rows| && rows[k] == ranking[i];
    assert rows[k].managerId == ids[k];
  }

  datatype TableError = ScheduleNotFound

  /** The table of a schedule: every manager once, ranked by what his own matches and penalties give him. */
  method Standings(schedule: Option<seq<H2HMatch>>, penalties: map<int, int>, fullNet: map<int, int>)
    returns (result: Result<seq<H2HStandingResponse>, TableError>)
    ensures result.Err? <==> schedule.None?
    ensures result.Ok? ==> IsTable(result.value, schedule.value, penalties, fullNet)
  {
    if schedule.None? {
      return Err(ScheduleNotFound);
    }
    var accumulators := Accumulate(schedule.value);
    var rows := TableRows(schedule.value, accumulators, penalties, fullNet);
    var ranked := CompetitionRank(rows, StandingKey);
    var shown := ShowTable(schedule.value, penalties, fullNet, ranked, accumulators);
    assert forall i :: 0 <= i < |ranked| ==> Values(ranked)[i] == ranked[i].value;
    result := Ok(shown);
  }

  /** One response row for each ranked manager, his counts read from his accumulator. */
  method ShowTable(matches: seq<H2HMatch>, penalties: map<int, int>, fullNet: map<int, int>, ranked: seq<Ranked<H2HStanding>>,
                   accumulators: map<int, StandingAccumulator>) returns (shown: seq<H2HStandingResponse>)
    requires Values(ranked) == Ranking(matches, penalties, fullNet)
    requires forall x :: x in ManagersOf(matches) ==> x in accumulators
    requires forall x :: x in accumulators ==> accumulators[x].View() == LineOf(CompletedOf(matches), x)
    ensures |shown| == |ranked|
    ensures forall i :: 0 <= i < |shown| ==>
              shown[i] == Shown(ranked[i].rank, ranked[i].value, LineOf(CompletedOf(matches), ranked[i].value.managerId))
  {
    shown := [];
    for i := 0 to |ranked|
      invariant |shown| == i
      invariant forall j :: 0 <= j < i ==>
        shown[j] == Shown(ranked[j].rank, ranked[j].value, LineOf(CompletedOf(matches), ranked[j].value.managerId))
    {
      var row := ranked[i].value;
      assert Values(ranked)[i] == row;
      RankingIsOfRows(matches, penalties, fullNet, i);
      var of := accumulators[row.managerId];
      assert of.View() == LineOf(CompletedOf(matches), row.managerId);
      shown := shown + [H2HStandingResponse(ranked[i].rank, row.managerId, of.played, of.wins, of.draws, of.losses, row.pointsFor,
                                            row.pointsAgainst, row.pointsFor - row.pointsAgainst, row.tablePoints, row.fullNet)];
    }
  }

  /** One row for each accumulator, with the penalties taken off and the season's net points added. */
  method TableRows(matches: seq<H2HMatch>, accumulators: map<int, StandingAccumulator>, penalties: map<int, int>,
                   fullNet: map<int, int>) returns (rows: seq<H2HStanding>)
    requires forall x :: x in ManagersOf(matches) ==> x in accumulators
    requires forall x :: x in accumulators ==> accumulators[x].View() == LineOf(CompletedOf(matches), x)
    ensures rows == Rows(SortedIds(ManagersOf(matches)), matches, penalties, fullNet)
  {
    var ids := SortedIds(ManagersOf(matches));
    rows := [];
    for i := 0 to |ids|
      invariant rows == Rows(ids[..i], matches, penalties, fullNet)
    {
      assert ids[i] in ManagersOf(matches);
      rows := rows + [RowFor(accumulators[ids[i]].View(), ids[i], penalties, fullNet)];
    }
    assert ids[..|ids|] == ids;
  }

  // ----- The published table -----

  lemma {:induction false} RowPointsAddUp(ids: seq<int>, matches: seq<H2HMatch>, penalties: map<int, int>, fullNet: map<int, int>,
                                          ofRow: int -> int)
    requires forall i, j :: 0 <= i < j < |ids| ==> ids[i] < ids[j]
    requires forall x {:trigger ofRow(x)} :: ofRow(x) == LineOf(CompletedOf(matches), x).tablePoints + Or0(penalties, x)
    ensures Sum(Rows(ids, matches, penalties, fullNet), RowPoints) == SumOver(Members(ids), ofRow)
  {
    if ids != [] {
      var n := |ids| - 1;
      var before, row := Rows(ids[..n], matches, penalties, fullNet), Rows(ids, matches, penalties, fullNet)[n];
      RowPointsAddUp(ids[..n], matches, penalties, fullNet, ofRow);
      assert Rows(ids, matches, penalties, fullNet) == before + [row];
      assert Sum([row], RowPoints) == ofRow(ids[n]);
      SumConcat(before, [row], RowPoints);
      MembersGrow(ids);
      SumInsert(Members(ids[..n]), ids[n], ofRow);
    }
  }

  ghost function PenaltyTotal(managers: set<int>, penalties: map<int, int>): int {
    SumOver(managers, (x: int) => Or0(penalties, x))
  }

  lemma EarnedAndLost(matches: seq<H2HMatch>, penalties: map<int, int>, field: Line -> int, ofRow: int -> int)
    requires forall x {:trigger ofRow(x)} :: ofRow(x) == field(LineOf(CompletedOf(matches), x)) + Or0(penalties, x)
    ensures SumOver(ManagersOf(matches), ofRow) == TableTotal(matches, field) + PenaltyTotal(ManagersOf(matches), penalties)
  {
    SumAdd(ManagersOf(matches), (x: int) => field(LineOf(CompletedOf(matches), x)), (x: int) => Or0(penalties, x), ofRow);
  }

  function PointsShown(row: H2HStandingResponse): int {
    row.h2hTablePoints
  }

  lemma {:induction false} ShownSumsAlike(shown: seq<H2HStandingResponse>, ranking: seq<H2HStanding>)
    requires |shown| == |ranking| && forall i :: 0 <= i < |shown| ==> shown[i].h2hTablePoints == ranking[i].tablePoints
    ensures Sum(shown, PointsShown) == Sum(ranking, RowPoints)
  {
    if shown != [] {
      ShownSumsAlike(shown[1..], ranking[1..]);
    }
  }

  /** The points shown in the table are those the matches handed out and the penalties took away. */
  lemma PublishedPointsBalance(matches: seq<H2HMatch>, penalties: map<int, int>, fullNet: map<int, int>,
                               shown: seq<H2HStandingResponse>)
    requires IsTable(shown, matches, penalties, fullNet)
    ensures var completed := CompletedOf(matches);
            Sum(shown, PointsShown) ==
            3 * Count(completed, Decisive) + 2 * (|completed| - Count(completed, Decisive)) +
            PenaltyTotal(ManagersOf(matches), penalties)
  {
    var ids := SortedIds(ManagersOf(matches));
    var ofRow := (x: int) => LineOf(CompletedOf(matches), x).tablePoints + Or0(penalties, x);
    ShownSumsAlike(shown, Ranking(matches, penalties, fullNet));
    SumPermutation(Ranking(matches, penalties, fullNet), Rows(ids, matches, penalties, fullNet), RowPoints);
    RowPointsAddUp(ids, matches, penalties, fullNet, ofRow);
    SortedIdsHold(ManagersOf(matches));
    EarnedAndLost(matches, penalties, TablePoints, ofRow);
    PointsAreHandedOut(matches);
  }

  /** Every shown row is consistent in itself: matches by result, and points by result and penalty. */
  lemma ShownRowAddsUp(matches: seq<H2HMatch>, penalties: map<int, int>, fullNet: map<int, int>,
                       shown: seq<H2HStandingResponse>, i: nat)
    requires IsTable(shown, matches, penalties, fullNet) && i < |shown|
    ensures shown[i].played == shown[i].wins + shown[i].draws + shown[i].losses
    ensures shown[i].h2hTablePoints == 3 * shown[i].wins + shown[i].draws + Or0(penalties, shown[i].managerId)
  {
    RankingIsOfRows(matches, penalties, fullNet, i);
    LineAddsUp(CompletedOf(matches), shown[i].managerId);
  }
}
