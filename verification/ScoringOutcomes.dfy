/** What a score and a comparison of two squads show, read off the picks, the statistics and the fixtures. */
module ScoringOutcomes {
  import opened Wrappers
  import opened Sorting
  import opened SetSums
  import opened GameweekScoring
  import opened Matchup

  // ----- The totals -----

  /** The points a player has scored; a player nothing is recorded about has scored none. */
  ghost function Scored(stats: map<int, ElementStats>, pick: PickInput): int {
    if pick.elementId in stats then stats[pick.elementId].totalPoints else 0
  }

  ghost function TimesMultiplier(stats: map<int, ElementStats>): PickInput -> int {
    (p: PickInput) => if p.multiplier > 0 then Scored(stats, p) * p.multiplier else 0
  }

  ghost function OnTheBench(stats: map<int, ElementStats>): PickInput -> int {
    (p: PickInput) => if p.multiplier > 0 then 0 else Scored(stats, p)
  }

  ghost function OnThePitch(stats: map<int, ElementStats>, of: ElementStats -> int): PickInput -> int {
    (p: PickInput) => if p.multiplier > 0 && p.elementId in stats then of(stats[p.elementId]) else 0
  }

  lemma OneMoreInSum(picks: seq<PickInput>, f: PickInput -> int)
    requires picks != []
    ensures Sum(picks, f) == Sum(picks[..|picks| - 1], f) + f(picks[|picks| - 1])
  {
    assert picks[..|picks| - 1 + 1] == picks;
    SumPrefix(picks, |picks| - 1, f);
  }

  /** Points times multiplier for whoever has a multiplier; whoever has none scores on the bench. */
  lemma {:induction false} TotalsCountPicks(picks: seq<PickInput>, stats: map<int, ElementStats>)
    ensures ComputedGross(picks, stats) == Sum(picks, TimesMultiplier(stats))
    ensures Benched(picks, stats) == Sum(picks, OnTheBench(stats))
  {
    if picks != [] {
      var n := |picks| - 1;
      TotalsCountPicks(picks[..n], stats);
      assert picks[..n + 1] == picks;
      OneMorePick(picks, n, stats);
      OneMoreInSum(picks, TimesMultiplier(stats));
      OneMoreInSum(picks, OnTheBench(stats));
    }
  }

  /** Goals and cards are counted once for each pick with a multiplier. */
  lemma {:induction false} EventsCountPicks(picks: seq<PickInput>, stats: map<int, ElementStats>, of: ElementStats -> int)
    requires of(ElementStats(0, 0, 0, 0)) == 0
    ensures Fielded(picks, stats, of) == Sum(picks, OnThePitch(stats, of))
  {
    if picks != [] {
      var n := |picks| - 1;
      EventsCountPicks(picks[..n], stats, of);
      assert picks[..n + 1] == picks;
      OneMoreStat(picks, n, stats, of);
      OneMoreInSum(picks, OnThePitch(stats, of));
    }
  }

  // ----- The picks that count -----

  function HasMultiplier(p: PickInput): bool {
    p.multiplier > 0
  }

  lemma OneMoreCounted(picks: seq<PickInput>)
    requires picks != []
    ensures Count(picks, HasMultiplier) ==
            Count(picks[..|picks| - 1], HasMultiplier) + if picks[|picks| - 1].multiplier > 0 then 1 else 0
  {
    var rest, last := picks[..|picks| - 1], picks[|picks| - 1];
    CountConcat(rest, [last], HasMultiplier);
    assert Count([last], HasMultiplier) == if HasMultiplier(last) then 1 else 0;
    assert picks == rest + [last];
  }

  lemma {:induction false} AsManyAsHaveAMultiplier(picks: seq<PickInput>, stats: map<int, ElementStats>, benchBoost: bool,
                                                   captain: Option<PickInput>)
    ensures |CountedPicks(picks, stats, benchBoost, captain)| == Count(picks, HasMultiplier)
  {
    if picks != [] {
      AsManyAsHaveAMultiplier(picks[..|picks| - 1], stats, benchBoost, captain);
      OneMoreCounted(picks);
    }
  }

  /** What a counted pick says about its player. */
  ghost predicate IsShareOf(c: CountedPick, p: PickInput, stats: map<int, ElementStats>, benchBoost: bool,
                            captain: Option<PickInput>)
  {
    && c.elementId == p.elementId && c.squadPosition == p.squadPosition && c.multiplier == p.multiplier
    && c.basePoints == Scored(stats, p) && c.contribution == Scored(stats, p) * p.multiplier
    && (c.dueToBenchBoost <==> benchBoost && p.squadPosition >= 12)
    && (c.isEffectiveCaptain <==> captain.Some? && captain.value.elementId == p.elementId)
    && c.autoSubbedIn == p.autoSubbedIn
  }

  /** Each pick with a multiplier is counted where as many picks with a multiplier stand before it. */
  lemma {:induction false} PickCountsInItsPlace(picks: seq<PickInput>, stats: map<int, ElementStats>, benchBoost: bool,
                                                captain: Option<PickInput>, i: nat)
    requires i < |picks| && picks[i].multiplier > 0
    ensures var counted, k := CountedPicks(picks, stats, benchBoost, captain), Count(picks[..i], HasMultiplier);
            k < |counted| && IsShareOf(counted[k], picks[i], stats, benchBoost, captain)
  {
    var n := |picks| - 1;
    AsManyAsHaveAMultiplier(picks[..n], stats, benchBoost, captain);
    if i < n {
      assert picks[..n][..i] == picks[..i];
      PickCountsInItsPlace(picks[..n], stats, benchBoost, captain, i);
    }
  }

  // ----- The armband -----

  /** A higher multiplier; if level, the chosen captain; if level again, the earlier squad position. */
  ghost predicate Outranks(p: PickInput, q: PickInput) {
    || p.multiplier > q.multiplier
    || (p.multiplier == q.multiplier && p.isCaptain && !q.isCaptain)
    || (p.multiplier == q.multiplier && p.isCaptain == q.isCaptain && p.squadPosition < q.squadPosition)
  }

  lemma ArmbandGoesByRank(p: PickInput, q: PickInput)
    ensures Less(ArmbandKey(q), ArmbandKey(p)) <==> Outranks(p, q)
  {
    var a, b := ArmbandKey(q), ArmbandKey(p);
    assert |a| == 3 && |b| == 3;
    assert Less(a[1..], b[1..]) <==> a[1] < b[1] || (a[1] == b[1] && Less(a[2..], b[2..])) by {
      assert a[1..][1..] == a[2..] && b[1..][1..] == b[2..];
    }
    assert Less(a[2..], b[2..]) <==> a[2] < b[2];
  }

  /** The first raised pick that no raised pick outranks wears the armband. */
  lemma {:induction false} FirstOfTheHighestIsCaptain(picks: seq<PickInput>, i: nat)
    requires i < |picks| && picks[i].multiplier > 1
    requires forall j :: 0 <= j < i && picks[j].multiplier > 1 ==> Outranks(picks[i], picks[j])
    requires forall j :: i < j < |picks| && picks[j].multiplier > 1 ==> !Outranks(picks[j], picks[i])
    ensures EffectiveCaptain(picks) == Some(picks[i])
  {
    var n := |picks| - 1;
    var before := picks[..n];
    CaptainIsHighest(before);
    if i < n {
      FirstOfTheHighestIsCaptain(before, i);
      ArmbandGoesByRank(picks[n], picks[i]);
    } else if EffectiveCaptain(before).Some? {
      ArmbandGoesByRank(picks[n], EffectiveCaptain(before).value);
    }
  }

  // ----- The comparison -----

  /** What is known about a player's fixtures; without an entry he has none. */
  ghost function ToCome(progress: map<int, FixtureProgress>, id: int): nat {
    if id in progress && progress[id].finished < progress[id].total then progress[id].total - progress[id].finished else 0
  }

  ghost predicate IsFieldedBy(squad: Squad, id: int) {
    id in squad && squad[id].multiplier > 0
  }

  /** A multiplier shown: the pick's own, and none for a player the side does not field. */
  ghost predicate ShowsMultiplier(shown: nat, squad: Squad, id: int) {
    if IsFieldedBy(squad, id) then shown == squad[id].multiplier else shown == 0
  }

  /** Upcoming before the first of his fixtures starts, finished after the last, and playing in between. */
  ghost predicate ShowsState(state: PlayerState, progress: map<int, FixtureProgress>, id: int) {
    var known := id in progress && progress[id].total > 0 && progress[id].started > 0;
    && (state == Upcoming <==> !known)
    && (state == Finished <==> known && progress[id].finished >= progress[id].total)
  }

  /** A line reads its player's multipliers, points, fixtures and armbands off the two squads. */
  lemma LineReadsInputs(p: Pairing, line: PlayerLine)
    requires line in Lines(p)
    ensures var id := line.elementId;
            && (IsFieldedBy(p.home, id) || IsFieldedBy(p.away, id))
            && ShowsMultiplier(line.homeMultiplier, p.home, id) && ShowsMultiplier(line.awayMultiplier, p.away, id)
            && line.points == (if id in p.points then p.points[id] else 0)
            && ShowsState(line.state, p.progress, id)
            && line.fixturesTotal == (if id in p.progress then p.progress[id].total else 0)
            && line.fixturesUnresolved == ToCome(p.progress, id)
            && (line.isHomeCaptain <==> id in p.home && p.home[id].isEffectiveCaptain)
            && (line.isAwayCaptain <==> id in p.away && p.away[id].isEffectiveCaptain)
  {
    LinesAreCounted(p, SortedIds(p.home.Keys + p.away.Keys));
  }

  /** Whoever a side fields is shown, once, and the players stand in id order. */
  lemma FieldedAreShown(p: Pairing, id: int)
    ensures IsFieldedBy(p.home, id) || IsFieldedBy(p.away, id) <==> exists line :: line in Lines(p) && line.elementId == id
    ensures forall i, j :: 0 <= i < j < |Lines(p)| ==> Lines(p)[i].elementId < Lines(p)[j].elementId
  {
    EveryFieldedPlayerHasOneLine(p);
    LinesAreCounted(p, SortedIds(p.home.Keys + p.away.Keys));
    if IsFieldedBy(p.home, id) || IsFieldedBy(p.away, id) {
      assert LineFor(p, id) in Lines(p);
    }
  }

  /** The further a player has moved the margin the earlier he stands; if level, the lower id first. */
  lemma DifferentialsStandBySwing(p: Pairing, i: nat, j: nat)
    requires i < j < |Differentials(p)|
    ensures var a, b := Differentials(p)[i], Differentials(p)[j];
            var far := a.points * (a.homeMultiplier - a.awayMultiplier);
            var near := b.points * (b.homeMultiplier - b.awayMultiplier);
            var left, right := if far < 0 then -far else far, if near < 0 then -near else near;
            left > right || (left == right && a.elementId <= b.elementId)
  {
    SortSorts(Differing(Lines(p)), DifferentialKey, false);
    var a, b := Differentials(p)[i], Differentials(p)[j];
    var k, l := DifferentialKey(a), DifferentialKey(b);
    assert !Before(false, l, k);
    assert |k| == 2 && |l| == 2 && k[0] == -Abs(a.SwingPoints()) && l[0] == -Abs(b.SwingPoints());
    assert Less(l[1..], k[1..]) <==> l[1] < k[1];
  }

  // ----- What is still to come -----

  /** The players of a squad who are fielded and have a fixture to come. */
  ghost function Live(squad: Squad, progress: map<int, FixtureProgress>): set<int> {
    set id | id in squad && IsFieldedBy(squad, id) && ToCome(progress, id) > 0
  }

  ghost function LiveIn(squad: Squad, progress: map<int, FixtureProgress>, ids: seq<int>): set<int> {
    Members(ids) * Live(squad, progress)
  }

  lemma NextLive(squad: Squad, progress: map<int, FixtureProgress>, ids: seq<int>)
    requires ids != [] && ids[|ids| - 1] !in ids[..|ids| - 1]
    ensures var was, id := LiveIn(squad, progress, ids[..|ids| - 1]), ids[|ids| - 1];
            && id !in was
            && LiveIn(squad, progress, ids) == if id in Live(squad, progress) then was + {id} else was
  {
    MembersGrow(ids);
  }

  ghost function MultiplierIn(squad: Squad): int -> int {
    (id: int) => if id in squad then squad[id].multiplier else 0
  }

  ghost function ToComeIn(progress: map<int, FixtureProgress>): int -> int {
    (id: int) => ToCome(progress, id)
  }

  /** Players, multipliers and fixtures, counted over a set of players. */
  ghost predicate CountsOver(left: SideRemaining, squad: Squad, progress: map<int, FixtureProgress>, players: set<int>) {
    && left.players == |players|
    && left.effective == SumOver(players, MultiplierIn(squad))
    && left.fixtures == SumOver(players, ToComeIn(progress))
  }

  lemma OnePlayerMore(squad: Squad, progress: map<int, FixtureProgress>, was: set<int>, id: int,
                      before: SideRemaining, after: SideRemaining)
    requires CountsOver(before, squad, progress, was) && id !in was && IsFieldedBy(squad, id)
    requires after.players == before.players + 1
    requires after.effective == before.effective + squad[id].multiplier
    requires after.fixtures == before.fixtures + ToCome(progress, id)
    ensures CountsOver(after, squad, progress, was + {id})
  {
    SumInsert(was, id, MultiplierIn(squad));
    SumInsert(was, id, ToComeIn(progress));
  }

  lemma LeftFollows(squad: Squad, progress: map<int, FixtureProgress>, ids: seq<int>)
    requires ids != [] && ids[|ids| - 1] in squad
    ensures var id, before, after := ids[|ids| - 1], LeftAmong(squad, progress, ids[..|ids| - 1]), LeftAmong(squad, progress, ids);
            if id in Live(squad, progress)
            then after == SideRemaining(before.players + 1, before.effective + squad[id].multiplier,
                                        before.fixtures + ToCome(progress, id))
            else after == before
  {}

  lemma OneIdMore(squad: Squad, progress: map<int, FixtureProgress>, ids: seq<int>)
    requires ids != [] && ids[|ids| - 1] in squad && ids[|ids| - 1] !in ids[..|ids| - 1]
    requires var rest := ids[..|ids| - 1];
             CountsOver(LeftAmong(squad, progress, rest), squad, progress, LiveIn(squad, progress, rest))
    ensures CountsOver(LeftAmong(squad, progress, ids), squad, progress, LiveIn(squad, progress, ids))
  {
    var rest, id := ids[..|ids| - 1], ids[|ids| - 1];
    NextLive(squad, progress, ids);
    LeftFollows(squad, progress, ids);
    if id in Live(squad, progress) {
      OnePlayerMore(squad, progress, LiveIn(squad, progress, rest), id,
                    LeftAmong(squad, progress, rest), LeftAmong(squad, progress, ids));
    }
  }

  lemma {:induction false} LeftAmongCounts(squad: Squad, progress: map<int, FixtureProgress>, ids: seq<int>)
    requires forall i, j :: 0 <= i < j < |ids| ==> ids[i] < ids[j]
    requires forall i :: 0 <= i < |ids| ==> ids[i] in squad
    ensures CountsOver(LeftAmong(squad, progress, ids), squad, progress, LiveIn(squad, progress, ids))
  {
    if ids == [] {
      assert LiveIn(squad, progress, ids) == {};
    } else {
      LeftAmongCounts(squad, progress, ids[..|ids| - 1]);
      OneIdMore(squad, progress, ids);
    }
  }

  /** What a side has left: how many of its fielded players still play, their multipliers and their fixtures to come. */
  lemma LeftCountsThePlayersStillToPlay(squad: Squad, progress: map<int, FixtureProgress>)
    ensures CountsOver(Left(squad, progress), squad, progress, Live(squad, progress))
  {
    SortedIdsHold(squad.Keys);
    assert LiveIn(squad, progress, SortedIds(squad.Keys)) == Live(squad, progress);
    LeftAmongCounts(squad, progress, SortedIds(squad.Keys));
  }
}
