/** One manager's picks and the Gameweek's player statistics, turned into a score. */
module GameweekScoring {
  import opened Wrappers
  import opened Sorting

  const STARTING_XI_SIZE := 11

  datatype PickInput = PickInput(elementId: int, squadPosition: int, multiplier: int, isCaptain: bool, autoSubbedIn: bool)

  datatype ElementStats = ElementStats(totalPoints: int, goals: int, yellows: int, reds: int)

  const NO_STATS := ElementStats(0, 0, 0, 0)

  datatype CountedPick = CountedPick(elementId: int, squadPosition: int, multiplier: int, basePoints: int,
                                     contribution: int, dueToBenchBoost: bool, isEffectiveCaptain: bool, autoSubbedIn: bool)

  datatype Score = Score(gross: int, transferCost: nat, net: int, computedGross: int, captainPoints: int,
                         captain: Option<int>, goals: int, yellows: int, reds: int, benchPoints: int,
                         counted: seq<CountedPick>, reconciled: bool)

  datatype ScoringError = NegativeTransferCost

  function StatsOf(stats: map<int, ElementStats>, element: int): ElementStats {
    if element in stats then stats[element] else NO_STATS
  }

  function PointsOf(stats: map<int, ElementStats>, element: int): int {
    StatsOf(stats, element).totalPoints
  }

  // ----- The armband -----

  function ArmbandKey(pick: PickInput): Key {
    [pick.multiplier, if pick.isCaptain then 1 else 0, -pick.squadPosition]
  }

  /** The first pick whose key no other raised pick beats. */
  function EffectiveCaptain(picks: seq<PickInput>): Option<PickInput> {
    if picks == [] then None
    else
      var before, pick := EffectiveCaptain(picks[..|picks| - 1]), picks[|picks| - 1];
      if pick.multiplier <= 1 then before
      else if before.None? || Less(ArmbandKey(before.value), ArmbandKey(pick)) then Some(pick)
      else before
  }

  /** The armband is worn by a raised pick if there is one, and by the highest of them. */
  lemma {:induction false} CaptainIsHighest(picks: seq<PickInput>)
    ensures EffectiveCaptain(picks).None? <==> forall p :: p in picks ==> p.multiplier <= 1
    ensures EffectiveCaptain(picks).Some? ==>
              && EffectiveCaptain(picks).value in picks && EffectiveCaptain(picks).value.multiplier > 1
              && (forall p :: p in picks ==> p.multiplier <= EffectiveCaptain(picks).value.multiplier)
              && (forall p :: p in picks && p.multiplier > 1 ==> !Less(ArmbandKey(EffectiveCaptain(picks).value), ArmbandKey(p)))
  {
    if picks != [] {
      var before, pick := picks[..|picks| - 1], picks[|picks| - 1];
      CaptainIsHighest(before);
      assert picks == before + [pick];
      LessIsTotal(ArmbandKey(pick), ArmbandKey(pick));
      if EffectiveCaptain(before).Some? {
        var captain := EffectiveCaptain(before).value;
        if Less(ArmbandKey(captain), ArmbandKey(pick)) {
          forall p | p in before && p.multiplier > 1 ensures !Less(ArmbandKey(pick), ArmbandKey(p)) {
            LessIsTransitive(ArmbandKey(captain), ArmbandKey(pick), ArmbandKey(p));
          }
        }
      }
    }
  }

  // ----- What a score adds up to -----

  function Contribution(stats: map<int, ElementStats>, pick: PickInput): int {
    if pick.multiplier <= 0 then 0 else PointsOf(stats, pick.elementId) * pick.multiplier
  }

  function ComputedGross(picks: seq<PickInput>, stats: map<int, ElementStats>): int {
    Sum(picks, (p: PickInput) => Contribution(stats, p))
  }

  function Fielded(picks: seq<PickInput>, stats: map<int, ElementStats>, of: ElementStats -> int): int {
    Sum(picks, (p: PickInput) => if p.multiplier <= 0 then 0 else of(StatsOf(stats, p.elementId)))
  }

  function Benched(picks: seq<PickInput>, stats: map<int, ElementStats>): int {
    Sum(picks, (p: PickInput) => if p.multiplier <= 0 then PointsOf(stats, p.elementId) else 0)
  }

  /** The picks that count, in squad order, with their share of the score. */
  function CountedPicks(picks: seq<PickInput>, stats: map<int, ElementStats>, benchBoost: bool,
                        captain: Option<PickInput>): seq<CountedPick>
  {
    if picks == [] then []
    else
      var before, p := CountedPicks(picks[..|picks| - 1], stats, benchBoost, captain), picks[|picks| - 1];
      if p.multiplier <= 0 then before
      else before + [CountedPick(p.elementId, p.squadPosition, p.multiplier, PointsOf(stats, p.elementId),
                                 PointsOf(stats, p.elementId) * p.multiplier,
                                 benchBoost && p.squadPosition > STARTING_XI_SIZE,
                                 captain.Some? && p.elementId == captain.value.elementId, p.autoSubbedIn)]
  }

  /** The counted picks carry the whole derived total; with the bench they carry every point scored once. */
  lemma {:induction false} CountedAddUp(picks: seq<PickInput>, stats: map<int, ElementStats>, benchBoost: bool,
                                        captain: Option<PickInput>)
    ensures var counted := CountedPicks(picks, stats, benchBoost, captain);
            && Sum(counted, (c: CountedPick) => c.contribution) == ComputedGross(picks, stats)
            && Sum(counted, (c: CountedPick) => c.basePoints) + Benched(picks, stats) ==
               Sum(picks, (p: PickInput) => PointsOf(stats, p.elementId))
  {
    if picks != [] {
      var n := |picks| - 1;
      var before, after := CountedPicks(picks[..n], stats, benchBoost, captain), CountedPicks(picks, stats, benchBoost, captain);
      CountedAddUp(picks[..n], stats, benchBoost, captain);
      assert picks[..n + 1] == picks;
      OneMorePick(picks, n, stats);
      SumPrefix(picks, n, (p: PickInput) => PointsOf(stats, p.elementId));
      if after != before {
        SumConcat(before, after[|before|..], (c: CountedPick) => c.contribution);
        SumConcat(before, after[|before|..], (c: CountedPick) => c.basePoints);
      }
    }
  }

  lemma SumPrefix<T>(xs: seq<T>, i: nat, f: T -> int)
    requires i < |xs|
    ensures Sum(xs[..i + 1], f) == Sum(xs[..i], f) + f(xs[i])
  {
    assert xs[..i + 1] == xs[..i] + [xs[i]];
    SumConcat(xs[..i], [xs[i]], f);
  }

  method ComputeGameweekScore(picks: seq<PickInput>, stats: map<int, ElementStats>, benchBoost: bool,
                              transferCost: int, official: Option<int>)
    returns (result: Result<Score, ScoringError>)
    ensures result.Err? <==> transferCost < 0
    ensures result.Ok? ==>
              var s := result.value;
              && s.computedGross == ComputedGross(picks, stats)
              && s.gross == (if official.Some? then official.value else s.computedGross)
              && s.net == s.gross - transferCost && s.transferCost == transferCost
              && (s.reconciled <==> official.None? || official.value == s.computedGross)
              && s.benchPoints == Benched(picks, stats)
              && s.goals == Fielded(picks, stats, (e: ElementStats) => e.goals)
              && s.yellows == Fielded(picks, stats, (e: ElementStats) => e.yellows)
              && s.reds == Fielded(picks, stats, (e: ElementStats) => e.reds)
              && s.captain == (match EffectiveCaptain(picks) case Some(c) => Some(c.elementId) case None => None)
              && s.captainPoints == (match EffectiveCaptain(picks)
                                     case Some(c) => PointsOf(stats, c.elementId) * c.multiplier
                                     case None => 0)
              && s.counted == CountedPicks(picks, stats, benchBoost, EffectiveCaptain(picks))
  {
    if transferCost < 0 {
      return Err(NegativeTransferCost);
    }
    var captain := EffectiveCaptain(picks);
    var counted: seq<CountedPick> := [];
    var computedGross, benchPoints, goals, yellows, reds := 0, 0, 0, 0, 0;
    for i := 0 to |picks|
      invariant counted == CountedPicks(picks[..i], stats, benchBoost, captain)
      invariant computedGross == ComputedGross(picks[..i], stats)
      invariant benchPoints == Benched(picks[..i], stats)
      invariant goals == Fielded(picks[..i], stats, (e: ElementStats) => e.goals)
      invariant yellows == Fielded(picks[..i], stats, (e: ElementStats) => e.yellows)
      invariant reds == Fielded(picks[..i], stats, (e: ElementStats) => e.reds)
    {
      var pick := picks[i];
      assert picks[..i + 1][..i] == picks[..i];
      OneMorePick(picks, i, stats);
      OneMoreStat(picks, i, stats, (e: ElementStats) => e.goals);
      OneMoreStat(picks, i, stats, (e: ElementStats) => e.yellows);
      OneMoreStat(picks, i, stats, (e: ElementStats) => e.reds);
      var player := StatsOf(stats, pick.elementId);
      if pick.multiplier <= 0 {
        benchPoints := benchPoints + player.totalPoints;
      } else {
        var contribution := player.totalPoints * pick.multiplier;
        computedGross := computedGross + contribution;
        goals := goals + player.goals;
        yellows := yellows + player.yellows;
        reds := reds + player.reds;
        var entry := CountedPick(pick.elementId, pick.squadPosition, pick.multiplier, player.totalPoints, contribution,
                                 benchBoost && pick.squadPosition > STARTING_XI_SIZE,
                                 captain.Some? && pick.elementId == captain.value.elementId, pick.autoSubbedIn);
        counted := counted + [entry];
      }
    }
    assert picks[..|picks|] == picks;
    var captainPoints := 0;
    if captain.Some? {
      captainPoints := PointsOf(stats, captain.value.elementId) * captain.value.multiplier;
    }
    var grossPoints := if official.None? then computedGross else official.value;
    result := Ok(Score(grossPoints, transferCost, grossPoints - transferCost, computedGross, captainPoints,
                       if captain.Some? then Some(captain.value.elementId) else None, goals, yellows, reds, benchPoints,
                       counted, official.None? || official.value == computedGross));
  }

  lemma OneMorePick(picks: seq<PickInput>, i: nat, stats: map<int, ElementStats>)
    requires i < |picks|
    ensures ComputedGross(picks[..i + 1], stats) == ComputedGross(picks[..i], stats) + Contribution(stats, picks[i])
    ensures Benched(picks[..i + 1], stats) ==
            Benched(picks[..i], stats) + if picks[i].multiplier <= 0 then PointsOf(stats, picks[i].elementId) else 0
  {
    SumPrefix(picks, i, (p: PickInput) => Contribution(stats, p));
    SumPrefix(picks, i, (p: PickInput) => if p.multiplier <= 0 then PointsOf(stats, p.elementId) else 0);
  }

  lemma OneMoreStat(picks: seq<PickInput>, i: nat, stats: map<int, ElementStats>, of: ElementStats -> int)
    requires i < |picks|
    ensures Fielded(picks[..i + 1], stats, of) ==
            Fielded(picks[..i], stats, of) + if picks[i].multiplier <= 0 then 0 else of(StatsOf(stats, picks[i].elementId))
  {
    SumPrefix(picks, i, (p: PickInput) => if p.multiplier <= 0 then 0 else of(StatsOf(stats, p.elementId)));
  }
}
