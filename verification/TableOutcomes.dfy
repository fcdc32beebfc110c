/** What the head-to-head table shows, counted over the schedule's own rows. */
module TableOutcomes {
  import opened Wrappers
  import opened Sorting
  import opened SetSums
  import opened Rankings
  import opened Settlement
  import opened H2HTable

  // ----- One manager's columns -----

  /** A match that counts: decided on points for good, or by a walkover. */
  ghost predicate IsPlayed(m: H2HMatch) {
    m.status == FinalMatch || m.status == WalkoverMatch
  }

  ghost function One(b: bool): int {
    if b then 1 else 0
  }

  ghost function Score(score: Option<int>): int {
    if score.Some? then score.value else 0
  }

  /** A match counts once for each side the manager is on. */
  ghost function PlayedIn(m: H2HMatch, x: int): int {
    if IsPlayed(m) then One(m.home == x) + One(m.away == x) else 0
  }

  ghost function WonIn(m: H2HMatch, x: int): int {
    One(IsPlayed(m) && (m.home == x || m.away == x) && m.winner == Some(x))
  }

  ghost function DrawnIn(m: H2HMatch, x: int): int {
    if IsPlayed(m) && m.winner != Some(m.home) && m.winner != Some(m.away) then One(m.home == x) + One(m.away == x) else 0
  }

  ghost function ForIn(m: H2HMatch, x: int): int {
    if IsPlayed(m)
    then (if m.home == x then Score(m.homeScore) else 0) + (if m.away == x then Score(m.awayScore) else 0)
    else 0
  }

  ghost function AgainstIn(m: H2HMatch, x: int): int {
    if IsPlayed(m)
    then (if m.home == x then Score(m.awayScore) else 0) + (if m.away == x then Score(m.homeScore) else 0)
    else 0
  }

  lemma OneMoreCompleted(matches: seq<H2HMatch>)
    requires matches != []
    ensures var rest, last := matches[..|matches| - 1], matches[|matches| - 1];
            CompletedOf(matches) == CompletedOf(rest) + if IsPlayed(last) then [last] else []
  {}

  lemma OneMoreLine(completed: seq<H2HMatch>, last: H2HMatch, x: int)
    ensures LineOf(completed + [last], x) == LineOf(completed, x).Plus(Share(last, x))
  {
    NextLine(completed + [last], |completed|, x);
    assert (completed + [last])[..|completed| + 1] == completed + [last];
    assert (completed + [last])[..|completed|] == completed;
  }

  /** The line before a match and the line after it. */
  lemma OneMoreMatch(matches: seq<H2HMatch>, x: int) returns (before: Line, after: Line)
    requires matches != []
    ensures before == LineOf(CompletedOf(matches[..|matches| - 1]), x) && after == LineOf(CompletedOf(matches), x)
    ensures after == if IsPlayed(matches[|matches| - 1]) then before.Plus(Share(matches[|matches| - 1], x)) else before
  {
    var rest, last := matches[..|matches| - 1], matches[|matches| - 1];
    OneMoreCompleted(matches);
    OneMoreLine(CompletedOf(rest), last, x);
    before, after := LineOf(CompletedOf(rest), x), LineOf(CompletedOf(matches), x);
    assert !IsPlayed(last) ==> CompletedOf(matches) == CompletedOf(rest);
  }

  lemma OneMoreInSum(matches: seq<H2HMatch>, f: H2HMatch -> int)
    requires matches != []
    ensures Sum(matches, f) == Sum(matches[..|matches| - 1], f) + f(matches[|matches| - 1])
  {
    var rest, last := matches[..|matches| - 1], matches[|matches| - 1];
    assert matches == rest + [last];
    SumConcat(rest, [last], f);
  }

  /** A column of a manager's line is summed up over all the matches of the schedule. */
  lemma {:induction false} ColumnOverMatches(matches: seq<H2HMatch>, x: int, field: Line -> int, ofMatch: H2HMatch -> int)
    requires Additive(field)
    requires forall m {:trigger ofMatch(m)} :: ofMatch(m) == if IsPlayed(m) then field(Share(m, x)) else 0
    ensures field(LineOf(CompletedOf(matches), x)) == Sum(matches, ofMatch)
  {
    if matches == [] {
      assert CompletedOf(matches) == [] && LineOf([], x) == NO_LINE;
    } else {
      ColumnOverMatches(matches[..|matches| - 1], x, field, ofMatch);
      var last := matches[|matches| - 1];
      var before, after := OneMoreMatch(matches, x);
      assert field(after) == field(before) + ofMatch(last) by {
        assert field(before.Plus(Share(last, x))) == field(before) + field(Share(last, x));
        assert ofMatch(last) == if IsPlayed(last) then field(Share(last, x)) else 0;
      }
      OneMoreInSum(matches, ofMatch);
    }
  }

  ghost predicate CountsOf(line: Line, matches: seq<H2HMatch>, x: int) {
    && line.played == Sum(matches, m => PlayedIn(m, x))
    && line.wins == Sum(matches, m => WonIn(m, x))
    && line.draws == Sum(matches, m => DrawnIn(m, x))
    && line.pointsFor == Sum(matches, m => ForIn(m, x))
    && line.pointsAgainst == Sum(matches, m => AgainstIn(m, x))
  }

  lemma LineCountsMatches(matches: seq<H2HMatch>, x: int)
    ensures CountsOf(LineOf(CompletedOf(matches), x), matches, x)
  {
    ColumnOverMatches(matches, x, (l: Line) => l.played, m => PlayedIn(m, x));
    ColumnOverMatches(matches, x, (l: Line) => l.wins, m => WonIn(m, x));
    ColumnOverMatches(matches, x, (l: Line) => l.draws, m => DrawnIn(m, x));
    ColumnOverMatches(matches, x, (l: Line) => l.pointsFor, m => ForIn(m, x));
    ColumnOverMatches(matches, x, (l: Line) => l.pointsAgainst, m => AgainstIn(m, x));
  }

  /**
   Every shown row counts the manager's own matches that are final or walked over: played and drawn
   once for each side he is on, won where he is the winner, and his own and his opponents' stored
   scores. His points are three for a win, one for a draw and his penalties.
   */
  lemma ShownRowCountsMatches(matches: seq<H2HMatch>, penalties: map<int, int>, fullNet: map<int, int>,
                              shown: seq<H2HStandingResponse>, i: nat)
    requires IsTable(shown, matches, penalties, fullNet) && i < |shown|
    ensures var row, x := shown[i], shown[i].managerId;
            && row.played == Sum(matches, m => PlayedIn(m, x))
            && row.wins == Sum(matches, m => WonIn(m, x))
            && row.draws == Sum(matches, m => DrawnIn(m, x))
            && row.losses == row.played - row.wins - row.draws
            && row.pointsFor == Sum(matches, m => ForIn(m, x))
            && row.pointsAgainst == Sum(matches, m => AgainstIn(m, x))
            && row.pointDifference == row.pointsFor - row.pointsAgainst
            && row.h2hTablePoints == 3 * row.wins + row.draws + (if x in penalties then penalties[x] else 0)
            && row.fullNet == (if x in fullNet then fullNet[x] else 0)
  {
    RankingIsOfRows(matches, penalties, fullNet, i);
    LineCountsMatches(matches, shown[i].managerId);
    LineAddsUp(CompletedOf(matches), shown[i].managerId);
  }

  // ----- Who is in the table -----

  lemma ShownRowsAreOrdered(matches: seq<H2HMatch>, penalties: map<int, int>, fullNet: map<int, int>,
                            shown: seq<H2HStandingResponse>)
    requires IsTable(shown, matches, penalties, fullNet)
    ensures forall i :: 0 <= i < |shown| ==> shown[i].managerId == Ranking(matches, penalties, fullNet)[i].managerId
    ensures forall i, j :: 0 <= i < j < |shown| ==> shown[i].managerId != shown[j].managerId
  {
    var rows := Rows(SortedIds(ManagersOf(matches)), matches, penalties, fullNet);
    var id := (row: H2HStanding) => row.managerId;
    UniquePermutation(rows, Ranking(matches, penalties, fullNet), id);
    assert forall i, j :: 0 <= i < j < |shown| ==> id(Ranking(matches, penalties, fullNet)[i]) != id(Ranking(matches, penalties, fullNet)[j]);
  }

  /** Everybody on a side of a match of the schedule has one row, and nobody else has any. */
  lemma EverybodyHasOneRow(matches: seq<H2HMatch>, penalties: map<int, int>, fullNet: map<int, int>,
                           shown: seq<H2HStandingResponse>, x: int)
    requires IsTable(shown, matches, penalties, fullNet)
    ensures (exists i :: 0 <= i < |shown| && shown[i].managerId == x) <==> exists m :: m in matches && (m.home == x || m.away == x)
    ensures forall i, j :: 0 <= i < j < |shown| ==> shown[i].managerId != shown[j].managerId
  {
    ShownRowsAreOrdered(matches, penalties, fullNet, shown);
    if x in ManagersOf(matches) {
      RowOfManager(matches, penalties, fullNet, x);
      var i :| 0 <= i < |shown| && Ranking(matches, penalties, fullNet)[i].managerId == x;
      assert shown[i].managerId == x;
    }
    if i :| 0 <= i < |shown| && shown[i].managerId == x {
      RankingIsOfRows(matches, penalties, fullNet, i);
    }
  }

  lemma RowOfManager(matches: seq<H2HMatch>, penalties: map<int, int>, fullNet: map<int, int>, x: int)
    requires x in ManagersOf(matches)
    ensures var ranking := Ranking(matches, penalties, fullNet);
            exists i :: 0 <= i < |ranking| && ranking[i].managerId == x
  {
    var ids, ranking := SortedIds(ManagersOf(matches)), Ranking(matches, penalties, fullNet);
    var rows := Rows(ids, matches, penalties, fullNet);
    SortedIdsHold(ManagersOf(matches));
    SortPermutes(rows, StandingKey, true);
    var k :| 0 <= k < |ids| && ids[k] == x;
    assert rows[k].managerId == x && rows[k] in multiset(ranking);
    var i :| 0 <= i < |ranking| && ranking[i] == rows[k];
  }

  // ----- In which order -----

  /** More table points, then the better difference, then more points scored, more wins, more net points. */
  ghost predicate IsAheadOf(p: H2HStandingResponse, q: H2HStandingResponse) {
    if p.h2hTablePoints != q.h2hTablePoints then p.h2hTablePoints > q.h2hTablePoints
    else if p.pointDifference != q.pointDifference then p.pointDifference > q.pointDifference
    else if p.pointsFor != q.pointsFor then p.pointsFor > q.pointsFor
    else if p.wins != q.wins then p.wins > q.wins
    else p.fullNet > q.fullNet
  }

  lemma KeyIsFiveColumns(p: H2HStanding, q: H2HStanding, shownP: H2HStandingResponse, shownQ: H2HStandingResponse)
    requires shownP == Shown(shownP.rank, p, NO_LINE.(wins := p.wins))
    requires shownQ == Shown(shownQ.rank, q, NO_LINE.(wins := q.wins))
    ensures Less(StandingKey(q), StandingKey(p)) <==> IsAheadOf(shownP, shownQ)
  {
    LessAfterFive(StandingKey(q), StandingKey(p), NO_FACTS.SortKey());
  }

  lemma LessAfterFive(a: Key, b: Key, rest: Key)
    requires |a| == |b| == 5 + |rest| && a[5..] == b[5..] == rest
    ensures Less(a, b) <==>
            if a[0] != b[0] then a[0] < b[0] else if a[1] != b[1] then a[1] < b[1] else if a[2] != b[2] then a[2] < b[2]
            else if a[3] != b[3] then a[3] < b[3] else a[4] < b[4]
  {
    LessIsTotal(rest, rest);
    assert a[1..][1..] == a[2..] && a[2..][1..] == a[3..] && a[3..][1..] == a[4..] && a[4..][1..] == a[5..];
    assert b[1..][1..] == b[2..] && b[2..][1..] == b[3..] && b[3..][1..] == b[4..] && b[4..][1..] == b[5..];
    assert Less(a[4..], b[4..]) <==> a[4] < b[4];
    assert Less(a[3..], b[3..]) <==> a[3] < b[3] || (a[3] == b[3] && Less(a[4..], b[4..]));
    assert Less(a[2..], b[2..]) <==> a[2] < b[2] || (a[2] == b[2] && Less(a[3..], b[3..]));
    assert Less(a[1..], b[1..]) <==> a[1] < b[1] || (a[1] == b[1] && Less(a[2..], b[2..]));
  }

  /** Rows stand in that order, a better rank is exactly being ahead, and level rows share a rank. */
  lemma ShownInOrder(matches: seq<H2HMatch>, penalties: map<int, int>, fullNet: map<int, int>,
                     shown: seq<H2HStandingResponse>, i: nat, j: nat)
    requires IsTable(shown, matches, penalties, fullNet) && i < j < |shown|
    ensures !IsAheadOf(shown[j], shown[i])
    ensures shown[i].rank < shown[j].rank <==> IsAheadOf(shown[i], shown[j])
    ensures shown[i].rank == shown[j].rank <==> !IsAheadOf(shown[i], shown[j])
  {
    var rows := Rows(SortedIds(ManagersOf(matches)), matches, penalties, fullNet);
    var p, q := Ranking(matches, penalties, fullNet)[i], Ranking(matches, penalties, fullNet)[j];
    RankingIsOfRows(matches, penalties, fullNet, i);
    RankingIsOfRows(matches, penalties, fullNet, j);
    assert p in multiset(rows) && q in multiset(rows);
    RanksFollowKeys(rows, StandingKey, p, q);
    RanksFollowKeys(rows, StandingKey, q, p);
    KeyIsFiveColumns(p, q, Shown(shown[i].rank, p, NO_LINE.(wins := p.wins)), Shown(shown[j].rank, q, NO_LINE.(wins := q.wins)));
    KeyIsFiveColumns(q, p, Shown(shown[j].rank, q, NO_LINE.(wins := q.wins)), Shown(shown[i].rank, p, NO_LINE.(wins := p.wins)));
    LessIsTotal(StandingKey(p), StandingKey(q));
  }
}
