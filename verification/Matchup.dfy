/**
 Two squads compared player by player: who is shared, who is a differential, and how far each
 differential has moved the margin.
 */
module Matchup {
  import opened Sorting
  import opened SetSums
  import opened GameweekScoring

  datatype PlayerState = Upcoming | Playing | Finished

  datatype FixtureProgress = FixtureProgress(total: nat, started: nat, finished: nat)
  {
    function Unresolved(): nat {
      if total > finished then total - finished else 0
    }

    function State(): PlayerState {
      if total == 0 || started == 0 then Upcoming else if finished >= total then Finished else Playing
    }
  }

  const NO_PROGRESS := FixtureProgress(0, 0, 0)

  datatype SidePick = SidePick(elementId: int, multiplier: int, isEffectiveCaptain: bool)

  datatype PlayerLine = PlayerLine(elementId: int, homeMultiplier: nat, awayMultiplier: nat, points: int,
                                   state: PlayerState, fixturesTotal: nat, fixturesUnresolved: nat,
                                   isHomeCaptain: bool, isAwayCaptain: bool)
  {
    function NetMultiplier(): int {
      homeMultiplier - awayMultiplier
    }

    predicate IsShared() {
      homeMultiplier == awayMultiplier && homeMultiplier > 0
    }

    function SwingPoints(): int {
      points * NetMultiplier()
    }
  }

  type Squad = map<int, SidePick>

  /** Two squads and what is known about the players in them. */
  datatype Pairing = Pairing(home: Squad, away: Squad, points: map<int, int>, progress: map<int, FixtureProgress>)

  function Multiplier(squad: Squad, id: int): nat {
    if id in squad && squad[id].multiplier > 0 then squad[id].multiplier else 0
  }

  function PointsFor(points: map<int, int>, id: int): int {
    if id in points then points[id] else 0
  }

  function ProgressFor(progress: map<int, FixtureProgress>, id: int): FixtureProgress {
    if id in progress then progress[id] else NO_PROGRESS
  }

  /** At least one side fields this player. */
  predicate Counts(p: Pairing, id: int) {
    Multiplier(p.home, id) > 0 || Multiplier(p.away, id) > 0
  }

  function LineFor(p: Pairing, id: int): PlayerLine {
    var progress := ProgressFor(p.progress, id);
    PlayerLine(id, Multiplier(p.home, id), Multiplier(p.away, id), PointsFor(p.points, id),
               progress.State(), progress.total, progress.Unresolved(),
               id in p.home && p.home[id].isEffectiveCaptain, id in p.away && p.away[id].isEffectiveCaptain)
  }

  function LinesOver(p: Pairing, ids: seq<int>): seq<PlayerLine> {
    if ids == [] then []
    else
      var before, id := LinesOver(p, ids[..|ids| - 1]), ids[|ids| - 1];
      if Counts(p, id) then before + [LineFor(p, id)] else before
  }

  function Lines(p: Pairing): seq<PlayerLine> {
    LinesOver(p, SortedIds(p.home.Keys + p.away.Keys))
  }

  // ----- The comparison as it is built -----

  /** Players, their multipliers and their fixtures still to come. */
  datatype SideRemaining = SideRemaining(players: int, effective: int, fixtures: int)

  datatype Comparison = Comparison(lines: seq<PlayerLine>, homeRemaining: SideRemaining, awayRemaining: SideRemaining)

  predicate StillToPlay(squad: Squad, progress: map<int, FixtureProgress>, id: int) {
    Multiplier(squad, id) > 0 && ProgressFor(progress, id).Unresolved() > 0
  }

  function LeftAmong(squad: Squad, progress: map<int, FixtureProgress>, ids: seq<int>): SideRemaining {
    if ids == [] then SideRemaining(0, 0, 0)
    else
      var before, id := LeftAmong(squad, progress, ids[..|ids| - 1]), ids[|ids| - 1];
      if StillToPlay(squad, progress, id)
      then SideRemaining(before.players + 1, before.effective + Multiplier(squad, id),
                         before.fixtures + ProgressFor(progress, id).Unresolved())
      else before
  }

  function Left(squad: Squad, progress: map<int, FixtureProgress>): SideRemaining {
    LeftAmong(squad, progress, SortedIds(squad.Keys))
  }

  lemma NextLeft(squad: Squad, progress: map<int, FixtureProgress>, ids: seq<int>, i: nat)
    requires i < |ids|
    ensures var before, id := LeftAmong(squad, progress, ids[..i]), ids[i];
            LeftAmong(squad, progress, ids[..i + 1]) ==
            if StillToPlay(squad, progress, id)
            then SideRemaining(before.players + 1, before.effective + Multiplier(squad, id),
                               before.fixtures + ProgressFor(progress, id).Unresolved())
            else before
  {
    assert ids[..i + 1][..i] == ids[..i];
  }

  method Remaining(squad: Squad, progress: map<int, FixtureProgress>) returns (r: SideRemaining)
    ensures r == Left(squad, progress)
  {
    var ids := SortedIds(squad.Keys);
    r := SideRemaining(0, 0, 0);
    for i := 0 to |ids|
      invariant r == LeftAmong(squad, progress, ids[..i])
    {
      NextLeft(squad, progress, ids, i);
      var multiplier: int := squad[ids[i]].multiplier;
      if multiplier > 0 {
        var unresolved := ProgressFor(progress, ids[i]).Unresolved();
        if unresolved > 0 {
          r := SideRemaining(r.players + 1, r.effective + multiplier, r.fixtures + unresolved);
        }
      }
    }
    assert ids[..|ids|] == ids;
  }

  lemma NextLine(p: Pairing, ids: seq<int>, i: nat)
    requires i < |ids|
    ensures LinesOver(p, ids[..i + 1]) == LinesOver(p, ids[..i]) + if Counts(p, ids[i]) then [LineFor(p, ids[i])] else []
  {
    assert ids[..i + 1][..i] == ids[..i];
  }

  method CompareSquads(p: Pairing) returns (c: Comparison)
    ensures c.lines == Lines(p)
    ensures c.homeRemaining == Left(p.home, p.progress) && c.awayRemaining == Left(p.away, p.progress)
  {
    var ids := SortedIds(p.home.Keys + p.away.Keys);
    var lines: seq<PlayerLine> := [];
    for i := 0 to |ids|
      invariant lines == LinesOver(p, ids[..i])
    {
      var id := ids[i];
      NextLine(p, ids, i);
      var homeMultiplier := if id in p.home then p.home[id].multiplier else 0;
      var awayMultiplier := if id in p.away then p.away[id].multiplier else 0;
      if homeMultiplier > 0 || awayMultiplier > 0 {
        var fixture := ProgressFor(p.progress, id);
        lines := lines + [PlayerLine(id, if homeMultiplier > 0 then homeMultiplier else 0,
                                     if awayMultiplier > 0 then awayMultiplier else 0,
                                     PointsFor(p.points, id), fixture.State(), fixture.total, fixture.Unresolved(),
                                     id in p.home && p.home[id].isEffectiveCaptain,
                                     id in p.away && p.away[id].isEffectiveCaptain)];
      }
    }
    assert ids[..|ids|] == ids;
    var homeRemaining := Remaining(p.home, p.progress);
    var awayRemaining := Remaining(p.away, p.progress);
    c := Comparison(lines, homeRemaining, awayRemaining);
  }

  // ----- Which lines there are -----

  lemma {:induction false} LinesAreCounted(p: Pairing, ids: seq<int>)
    requires forall i, j :: 0 <= i < j < |ids| ==> ids[i] < ids[j]
    ensures forall line :: line in LinesOver(p, ids) <==>
              line.elementId in ids && Counts(p, line.elementId) && line == LineFor(p, line.elementId)
    ensures forall i, j :: 0 <= i < j < |LinesOver(p, ids)| ==> LinesOver(p, ids)[i].elementId < LinesOver(p, ids)[j].elementId
  {
    if ids != [] {
      var before, id := ids[..|ids| - 1], ids[|ids| - 1];
      assert ids == before + [id];
      LinesAreCounted(p, before);
      var lines := LinesOver(p, before);
      assert forall i :: 0 <= i < |lines| ==> lines[i] in lines;
    }
  }

  /** One line for each player a side fields, in id order, and each line is shared or a differential. */
  lemma EveryFieldedPlayerHasOneLine(p: Pairing)
    ensures forall id :: Counts(p, id) <==> LineFor(p, id) in Lines(p)
    ensures forall i, j :: 0 <= i < j < |Lines(p)| ==> Lines(p)[i].elementId < Lines(p)[j].elementId
    ensures forall line :: line in Lines(p) ==> (line.IsShared() <==> line.NetMultiplier() == 0)
  {
    LinesAreCounted(p, SortedIds(p.home.Keys + p.away.Keys));
    SortedIdsHold(p.home.Keys + p.away.Keys);
    forall id ensures Counts(p, id) <==> LineFor(p, id) in Lines(p) {
      assert LineFor(p, id).elementId == id;
      assert Counts(p, id) ==> id in p.home.Keys + p.away.Keys;
    }
  }

  // ----- Sums over lines -----

  /** What a player's line is worth, or nothing if he has none. */
  function LineValue(p: Pairing, f: PlayerLine -> int, id: int): int {
    if Counts(p, id) then f(LineFor(p, id)) else 0
  }

  /** A quantity summed over the lines is summed over the players. */
  lemma {:induction false} SumOfLines(p: Pairing, ids: seq<int>, f: PlayerLine -> int, g: int -> int)
    requires forall i, j :: 0 <= i < j < |ids| ==> ids[i] < ids[j]
    requires forall id {:trigger g(id)} :: g(id) == LineValue(p, f, id)
    ensures Sum(LinesOver(p, ids), f) == SumOver(Members(ids), g)
  {
    if ids != [] {
      var before, id := ids[..|ids| - 1], ids[|ids| - 1];
      SumOfLines(p, before, f, g);
      MembersGrow(ids);
      SumInsert(Members(before), id, g);
      SumConcat(LinesOver(p, before), [LineFor(p, id)], f);
    }
  }

  /** What a player is worth to each side, and that the two differ by what his line is worth. */
  ghost predicate Balances(p: Pairing, ofHome: int -> int, ofAway: int -> int, f: PlayerLine -> int) {
    forall id {:trigger LineValue(p, f, id)} {:trigger ofHome(id)} {:trigger ofAway(id)} ::
      && ofHome(id) - ofAway(id) == LineValue(p, f, id)
      && (id !in p.home ==> ofHome(id) == 0) && (id !in p.away ==> ofAway(id) == 0)
  }

  /** One side's worth less the other's is what the lines are worth. */
  lemma LinesCarryTheDifference(p: Pairing, ofHome: int -> int, ofAway: int -> int, f: PlayerLine -> int)
    requires Balances(p, ofHome, ofAway, f)
    ensures SumOver(p.home.Keys, ofHome) - SumOver(p.away.Keys, ofAway) == Sum(Lines(p), f)
  {
    var all := p.home.Keys + p.away.Keys;
    var g := (id: int) => LineValue(p, f, id);
    SumOfLines(p, SortedIds(all), f, g);
    SortedIdsHold(all);
    SumUnionDifference(p.home.Keys, p.away.Keys, ofHome, ofAway, g);
  }

  // ----- The margin -----

  function Differing(lines: seq<PlayerLine>): seq<PlayerLine> {
    if lines == [] then []
    else (if lines[0].NetMultiplier() != 0 then [lines[0]] else []) + Differing(lines[1..])
  }

  function Abs(x: int): int {
    if x < 0 then -x else x
  }

  function DifferentialKey(line: PlayerLine): Key {
    [-Abs(line.SwingPoints()), line.elementId]
  }

  /** The players the two squads do not share, biggest swing first. */
  function Differentials(p: Pairing): seq<PlayerLine> {
    Sort(Differing(Lines(p)), DifferentialKey, false)
  }

  function Swing(line: PlayerLine): int {
    line.SwingPoints()
  }

  lemma {:induction false} SharedLinesSwingNothing(lines: seq<PlayerLine>)
    ensures Sum(Differing(lines), Swing) == Sum(lines, Swing)
    ensures forall line :: line in Differing(lines) <==> line in lines && line.NetMultiplier() != 0
  {
    if lines != [] {
      SharedLinesSwingNothing(lines[1..]);
      assert lines == [lines[0]] + lines[1..];
      var kept := Differing(lines);
      if lines[0].NetMultiplier() != 0 {
        assert kept == [lines[0]] + Differing(lines[1..]) && kept[1..] == Differing(lines[1..]);
        assert Sum(kept, Swing) == Swing(kept[0]) + Sum(kept[1..], Swing);
      } else {
        assert kept == Differing(lines[1..]);
      }
    }
  }

  /** Exactly the lines that are not shared are listed, in order of how far they have moved the margin. */
  lemma DifferentialsAreTheUnshared(p: Pairing)
    ensures forall line :: line in Differentials(p) <==> line in Lines(p) && !line.IsShared()
    ensures forall i, j :: 0 <= i < j < |Differentials(p)| ==>
              Abs(Differentials(p)[i].SwingPoints()) >= Abs(Differentials(p)[j].SwingPoints())
  {
    EveryFieldedPlayerHasOneLine(p);
    SharedLinesSwingNothing(Lines(p));
    SortPermutes(Differing(Lines(p)), DifferentialKey, false);
    SortSorts(Differing(Lines(p)), DifferentialKey, false);
    forall line ensures line in Differentials(p) <==> line in Lines(p) && !line.IsShared() {
      assert line in multiset(Differentials(p)) <==> line in multiset(Differing(Lines(p)));
    }
    forall i, j | 0 <= i < j < |Differentials(p)|
      ensures Abs(Differentials(p)[i].SwingPoints()) >= Abs(Differentials(p)[j].SwingPoints())
    {
      assert !Before(false, DifferentialKey(Differentials(p)[j]), DifferentialKey(Differentials(p)[i]));
    }
  }

  /** A squad as its published picks give it; a snapshot names each player once. */
  ghost predicate IsSquadOf(squad: Squad, picks: seq<PickInput>) {
    && (forall i, j :: 0 <= i < j < |picks| ==> picks[i].elementId != picks[j].elementId)
    && (forall i :: 0 <= i < |picks| ==> picks[i].elementId in squad && squad[picks[i].elementId].multiplier == picks[i].multiplier)
    && (forall id :: id in squad ==> exists i :: 0 <= i < |picks| && picks[i].elementId == id)
  }

  function ElementIds(picks: seq<PickInput>): seq<int> {
    seq(|picks|, i requires 0 <= i < |picks| => picks[i].elementId)
  }

  function Worth(squad: Squad, stats: map<int, ElementStats>, id: int): int {
    Multiplier(squad, id) * PointsOf(stats, id)
  }

  /** The gross total of the picks is what their players are worth to the squad. */
  lemma {:induction false} GrossOverSquad(squad: Squad, picks: seq<PickInput>, stats: map<int, ElementStats>, g: int -> int)
    requires forall i, j :: 0 <= i < j < |picks| ==> picks[i].elementId != picks[j].elementId
    requires forall i :: 0 <= i < |picks| ==> g(picks[i].elementId) == Contribution(stats, picks[i])
    ensures ComputedGross(picks, stats) == SumOver(Members(ElementIds(picks)), g)
  {
    if picks != [] {
      var n := |picks| - 1;
      assert picks[..n + 1] == picks;
      GrossOverSquad(squad, picks[..n], stats, g);
      OneMorePick(picks, n, stats);
      assert ElementIds(picks)[..n] == ElementIds(picks[..n]);
      MembersGrow(ElementIds(picks));
      SumInsert(Members(ElementIds(picks[..n])), picks[n].elementId, g);
    }
  }

  lemma SquadGross(squad: Squad, picks: seq<PickInput>, stats: map<int, ElementStats>, g: int -> int)
    requires IsSquadOf(squad, picks)
    requires forall id {:trigger g(id)} :: g(id) == Worth(squad, stats, id)
    ensures ComputedGross(picks, stats) == SumOver(squad.Keys, g)
  {
    forall i | 0 <= i < |picks| ensures g(picks[i].elementId) == Contribution(stats, picks[i]) {
    }
    GrossOverSquad(squad, picks, stats, g);
    forall id | id in squad ensures id in ElementIds(picks) {
      var i :| 0 <= i < |picks| && picks[i].elementId == id;
      assert ElementIds(picks)[i] == id;
    }
    assert squad.Keys == Members(ElementIds(picks));
  }

  lemma WorthBalances(p: Pairing, stats: map<int, ElementStats>, id: int)
    requires PointsFor(p.points, id) == PointsOf(stats, id)
    ensures Worth(p.home, stats, id) - Worth(p.away, stats, id) == LineValue(p, Swing, id)
    ensures id !in p.home ==> Worth(p.home, stats, id) == 0
    ensures id !in p.away ==> Worth(p.away, stats, id) == 0
  {
    var home: int, away: int, points := Multiplier(p.home, id), Multiplier(p.away, id), PointsOf(stats, id);
    assert points * (home - away) == home * points - away * points;
  }

  /**
   The difference of the two derived totals is the sum of the swings of the differentials: shared
   players and players neither side fields contribute nothing.
   */
  lemma MarginIsSumOfSwings(p: Pairing, homePicks: seq<PickInput>, awayPicks: seq<PickInput>, stats: map<int, ElementStats>)
    requires IsSquadOf(p.home, homePicks) && IsSquadOf(p.away, awayPicks)
    requires forall id {:trigger PointsFor(p.points, id)} :: PointsFor(p.points, id) == PointsOf(stats, id)
    ensures ComputedGross(homePicks, stats) - ComputedGross(awayPicks, stats) == Sum(Differentials(p), Swing)
  {
    var ofHome, ofAway := (id: int) => Worth(p.home, stats, id), (id: int) => Worth(p.away, stats, id);
    SquadGross(p.home, homePicks, stats, ofHome);
    SquadGross(p.away, awayPicks, stats, ofAway);
    assert Balances(p, ofHome, ofAway, Swing) by {
      forall id
        ensures ofHome(id) - ofAway(id) == LineValue(p, Swing, id)
        ensures (id !in p.home ==> ofHome(id) == 0) && (id !in p.away ==> ofAway(id) == 0)
      {
        assert PointsFor(p.points, id) == PointsOf(stats, id);
        WorthBalances(p, stats, id);
      }
    }
    LinesCarryTheDifference(p, ofHome, ofAway, Swing);
    SharedLinesSwingNothing(Lines(p));
    SortPermutes(Differing(Lines(p)), DifferentialKey, false);
    SumPermutation(Differentials(p), Differing(Lines(p)), Swing);
  }

  function LiveNet(line: PlayerLine): int {
    if line.fixturesUnresolved > 0 then line.NetMultiplier() else 0
  }

  function LiveMultiplier(squad: Squad, progress: map<int, FixtureProgress>, id: int): int {
    if ProgressFor(progress, id).Unresolved() > 0 then Multiplier(squad, id) else 0
  }

  /** What is still to come: the sides' live multipliers differ by the net multipliers of the live lines. */
  lemma RemainingDifferenceIsLiveNet(p: Pairing)
    ensures Left(p.home, p.progress).effective - Left(p.away, p.progress).effective == Sum(Lines(p), LiveNet)
  {
    var ofHome := (id: int) => LiveMultiplier(p.home, p.progress, id);
    var ofAway := (id: int) => LiveMultiplier(p.away, p.progress, id);
    assert Balances(p, ofHome, ofAway, LiveNet);
    LinesCarryTheDifference(p, ofHome, ofAway, LiveNet);
    LiveMultipliers(p.home, p.progress, SortedIds(p.home.Keys), ofHome);
    LiveMultipliers(p.away, p.progress, SortedIds(p.away.Keys), ofAway);
    SortedIdsHold(p.home.Keys);
    SortedIdsHold(p.away.Keys);
  }

  lemma {:induction false} LiveMultipliers(squad: Squad, progress: map<int, FixtureProgress>, ids: seq<int>, live: int -> int)
    requires forall i, j :: 0 <= i < j < |ids| ==> ids[i] < ids[j]
    requires forall id {:trigger live(id)} :: live(id) == LiveMultiplier(squad, progress, id)
    ensures LeftAmong(squad, progress, ids).effective == SumOver(Members(ids), live)
  {
    if ids != [] {
      LiveMultipliers(squad, progress, ids[..|ids| - 1], live);
      MembersGrow(ids);
      SumInsert(Members(ids[..|ids| - 1]), ids[|ids| - 1], live);
    }
  }
}
