/** The league's tables, and the steps of a scheduled tick as they write them. */
module SettlementService {
  import opened Wrappers
  import opened Settlement

  datatype FinalizeError = NoSuchGameweek | AlreadyInThatState

  datatype Effect = LeftFinal | LeftToReview | LeftUnplayed | SettledByForfeit | SettledOnPoints

  datatype SettlementOutcome = SettlementOutcome(settled: nat, walkovers: nat, needsReview: seq<nat>, untouchedFinal: nat)
  {
    function Noting(i: nat, effect: Effect): SettlementOutcome {
      match effect
      case LeftFinal => this.(untouchedFinal := untouchedFinal + 1)
      case LeftToReview => this.(needsReview := needsReview + [i])
      case LeftUnplayed => this
      case SettledByForfeit => this.(settled := settled + 1, walkovers := walkovers + 1)
      case SettledOnPoints => this.(settled := settled + 1)
    }
  }

  /** Two forfeits leave the match to a person; one decides it; otherwise both scores are needed. */
  function EffectOn(m: H2HMatch, finalized: map<int, bool>, scores: map<ScoreKey, ScoreRow>, forfeiting: set<int>): Effect
    requires m.gameweek in finalized
  {
    if m.status == FinalMatch && finalized[m.gameweek] then LeftFinal
    else if m.home in forfeiting && m.away in forfeiting then LeftToReview
    else if m.home in forfeiting || m.away in forfeiting then SettledByForfeit
    else if ScoreKey(m.gameweek, m.home) in scores && ScoreKey(m.gameweek, m.away) in scores then SettledOnPoints
    else LeftUnplayed
  }

  /** What settling the first matches of a table notes down. */
  function Tally(ms: seq<H2HMatch>, gameweek: int, finalized: map<int, bool>, scores: map<ScoreKey, ScoreRow>,
                 forfeiting: set<int>): SettlementOutcome
    requires gameweek in finalized
  {
    if ms == [] then SettlementOutcome(0, 0, [], 0)
    else
      var before, m := Tally(ms[..|ms| - 1], gameweek, finalized, scores, forfeiting), ms[|ms| - 1];
      if m.gameweek == gameweek then before.Noting(|ms| - 1, EffectOn(m, finalized, scores, forfeiting)) else before
  }

  lemma NextTally(ms: seq<H2HMatch>, i: nat, gameweek: int, finalized: map<int, bool>, scores: map<ScoreKey, ScoreRow>,
                  forfeiting: set<int>)
    requires gameweek in finalized && i < |ms|
    ensures Tally(ms[..i + 1], gameweek, finalized, scores, forfeiting) ==
            var before := Tally(ms[..i], gameweek, finalized, scores, forfeiting);
            if ms[i].gameweek == gameweek then before.Noting(i, EffectOn(ms[i], finalized, scores, forfeiting)) else before
  {
    assert ms[..i + 1][..i] == ms[..i];
  }

  /** Every match is noted at most once, and those left to a person are named. */
  lemma {:induction false} TallyNotesEachOnce(ms: seq<H2HMatch>, gameweek: int, finalized: map<int, bool>,
                                              scores: map<ScoreKey, ScoreRow>, forfeiting: set<int>)
    requires gameweek in finalized
    ensures var t := Tally(ms, gameweek, finalized, scores, forfeiting);
            && t.walkovers <= t.settled
            && t.settled + |t.needsReview| + t.untouchedFinal <= |ms|
            && (forall i :: i in t.needsReview <==>
                  0 <= i < |ms| && ms[i].gameweek == gameweek && EffectOn(ms[i], finalized, scores, forfeiting) == LeftToReview)
  {
    if ms != [] {
      TallyNotesEachOnce(ms[..|ms| - 1], gameweek, finalized, scores, forfeiting);
    }
  }

  lemma OneMoreKey(sources: map<ScoreKey, Source>, all: set<ScoreKey>, pending: set<ScoreKey>, key: ScoreKey, state: ScoreState)
    requires pending <= all <= sources.Keys && key in pending
    ensures all - (pending - {key}) == (all - pending) + {key}
    ensures Disagreeing(sources, all - (pending - {key}), state) ==
            Disagreeing(sources, all - pending, state) + (if Reconciled(sources[key], state) then {} else {key.manager})
  {
    assert all - (pending - {key}) == (all - pending) + {key};
  }

  lemma UpdatedPrefix<T>(after: seq<T>, before: seq<T>, i: nat)
    requires |after| == |before| && i < |before|
    ensures (after[..i] + before[i..])[i := after[i]] == after[..i + 1] + before[i + 1..]
  {}

  class LeagueStore {
    var finalized: map<int, bool>
    var sources: map<ScoreKey, Source>
    var scores: map<ScoreKey, ScoreRow>
    var matches: seq<H2HMatch>

    function Current(): League
      reads this
    {
      League(finalized, sources, scores, matches)
    }

    constructor (schedule: seq<H2HMatch>, gameweeks: set<int>)
      ensures Current() == League(map g | g in gameweeks :: false, map[], map[], schedule)
    {
      finalized := map g | g in gameweeks :: false;
      sources, scores, matches := map[], map[], schedule;
    }

    /** Rewrites the row of every manager who has a source, and reports whose figures disagree. */
    method ScoreGameweek(gameweek: int, fixtures: seq<FixtureFlags>) returns (unreconciled: set<int>)
      modifies this`scores
      ensures Current() == Settlement.ScoreGameweek(old(Current()), gameweek, fixtures)
      ensures unreconciled == Unreconciled(old(Current()), gameweek, fixtures)
    {
      unreconciled := {};
      if gameweek !in finalized {
        return;
      }
      var state := StateOf(finalized[gameweek], fixtures);
      if state == Upcoming {
        return;
      }
      ghost var before := scores;
      var scored := KeysOf(Current(), gameweek);
      var pending := scored;
      while pending != {}
        invariant pending <= scored
        invariant scores.Keys == before.Keys + (scored - pending)
        invariant forall k :: k in scores ==>
                    scores[k] == if k in scored - pending then ScoreRow(NetOf(sources[k], state), state) else before[k]
        invariant unreconciled == Disagreeing(sources, scored - pending, state)
        decreases pending
      {
        var key :| key in pending;
        OneMoreKey(sources, scored, pending, key, state);
        if !Reconciled(sources[key], state) {
          unreconciled := unreconciled + {key.manager};
        }
        scores := scores[key := ScoreRow(NetOf(sources[key], state), state)];
        pending := pending - {key};
      }
    }

    /** The gate: the first condition that refuses is the one reported. */
    method FinalizeIfSettled(t: TickInput, unreconciled: set<int>) returns (outcome: Finalization)
      modifies this`finalized
      ensures outcome == Gate(old(Current()), t, unreconciled)
      ensures outcome == Finalized <==>
              && t.gameweek in old(finalized) && !old(finalized)[t.gameweek]
              && t.fplFinished && t.dataChecked
              && t.fixtures != [] && (forall f :: f in t.fixtures ==> f.playedOut)
              && (forall m :: m in t.expected ==> ScoreKey(t.gameweek, m) in scores)
              && unreconciled == {} && t.quarantinedRuns == 0
      ensures finalized == if outcome == Finalized then old(finalized)[t.gameweek := true] else old(finalized)
    {
      GateOpensIff(Current(), t, unreconciled);
      if t.gameweek !in finalized {
        return BlockedBy(GameweekNotFound);
      }
      if finalized[t.gameweek] {
        return AlreadyFinal;
      }
      if !t.fplFinished || !t.dataChecked {
        return BlockedBy(DataNotChecked);
      }
      if t.fixtures == [] {
        return BlockedBy(NoFixtures);
      }
      if exists f :: f in t.fixtures && !f.playedOut {
        return BlockedBy(FixtureStillOpen);
      }
      var scored := set k | k in scores && k.gameweek == t.gameweek :: k.manager;
      if t.expected - scored != {} {
        return BlockedBy(ManagerHasNoScore);
      }
      if unreconciled != {} {
        return BlockedBy(ScoreDisagreesWithFpl);
      }
      if t.quarantinedRuns > 0 {
        return BlockedBy(SourceQuarantined);
      }
      finalized := finalized[t.gameweek := true];
      outcome := Finalized;
    }

    /** Overwrites one match's result fields from a settled result. */
    method Apply(i: nat, result: MatchResult, home: Option<ScoreRow>, away: Option<ScoreRow>)
      requires i < |matches|
      requires result.OnPoints? || result.Walkover?
      requires result.OnPoints? ==> home.Some? && away.Some?
      modifies this`matches
      ensures |matches| == old(|matches|) && matches == old(matches)[i := matches[i]]
      ensures matches[i] ==
              if result.Walkover?
              then old(matches[i]).(homeScore := Some(WALKOVER_SCORE), awayScore := Some(WALKOVER_SCORE),
                                    winner := WinnerId(old(matches[i]), Some(result.awardedTo)),
                                    status := WalkoverMatch, walkoverReason := Some(result.reason))
              else old(matches[i]).(homeScore := Some(result.homeScore), awayScore := Some(result.awayScore),
                                    winner := WinnerId(old(matches[i]), result.winner),
                                    status := StatusFor(home.value.state, away.value.state), walkoverReason := None)
    {
      var m := matches[i];
      match result {
        case Walkover(awardedTo, reason) =>
          m := m.(homeScore := Some(WALKOVER_SCORE), awayScore := Some(WALKOVER_SCORE));
          m := m.(winner := Some(if awardedTo == Home then m.home else m.away));
          m := m.(status := WalkoverMatch, walkoverReason := Some(reason));
        case OnPoints(homeScore, awayScore, winner) =>
          m := m.(homeScore := Some(homeScore), awayScore := Some(awayScore));
          if winner == Some(Home) {
            m := m.(winner := Some(m.home));
          } else if winner == Some(Away) {
            m := m.(winner := Some(m.away));
          } else {
            m := m.(winner := None);
          }
          m := m.(walkoverReason := None);
          var state := if Settledness(away.value.state) < Settledness(home.value.state) then away.value.state else home.value.state;
          m := m.(status := if state == FinalScore then FinalMatch else if state == Provisional then ProvisionalMatch else LiveMatch);
      }
      matches := matches[i := m];
    }

    /** Settles the match at one place, unless it is final in a closed Gameweek. */
    method SettleAt(i: nat, forfeiting: set<int>) returns (effect: Effect)
      requires i < |matches| && matches[i].gameweek in finalized
      modifies this`matches
      ensures matches == old(matches)[i := SettleOne(old(matches[i]), finalized[old(matches[i]).gameweek], scores, forfeiting)]
      ensures effect == EffectOn(old(matches[i]), finalized, scores, forfeiting)
    {
      var m := matches[i];
      if m.status == FinalMatch && finalized[m.gameweek] {
        return LeftFinal;
      }
      var home, away := RowOf(scores, m.gameweek, m.home), RowOf(scores, m.gameweek, m.away);
      var result := SettleMatch(PointsOf(home), PointsOf(away), m.home in forfeiting, m.away in forfeiting);
      if result.NeedsReview? {
        matches := matches[i := m.(walkoverReason := Some(result.review))];
        return LeftToReview;
      }
      if result.NotPlayed? {
        return LeftUnplayed;
      }
      Apply(i, result, home, away);
      effect := if result.Walkover? then SettledByForfeit else SettledOnPoints;
    }

    /** Settles every match of the Gameweek in place. */
    method SettleEach(gameweek: int, forfeiting: set<int>, ghost after: seq<H2HMatch>) returns (outcome: SettlementOutcome)
      requires gameweek in finalized && |after| == |matches|
      requires forall i :: 0 <= i < |matches| ==>
                 after[i] == if matches[i].gameweek == gameweek
                             then SettleOne(matches[i], finalized[gameweek], scores, forfeiting) else matches[i]
      modifies this`matches
      ensures matches == after
      ensures outcome == Tally(old(matches), gameweek, finalized, scores, forfeiting)
    {
      outcome := SettlementOutcome(0, 0, [], 0);
      ghost var before := matches;
      for i := 0 to |matches|
        invariant |matches| == |before|
        invariant matches == after[..i] + before[i..]
        invariant outcome == Tally(before[..i], gameweek, finalized, scores, forfeiting)
      {
        assert matches[i] == before[i];
        UpdatedPrefix(after, before, i);
        NextTally(before, i, gameweek, finalized, scores, forfeiting);
        if matches[i].gameweek == gameweek {
          var effect := SettleAt(i, forfeiting);
          outcome := outcome.Noting(i, effect);
        }
      }
      assert before[..|before|] == before;
    }

    method SettleGameweek(gameweek: int, forfeiting: set<int>) returns (outcome: SettlementOutcome)
      modifies this`matches
      ensures Current() == Settlement.SettleGameweek(old(Current()), gameweek, forfeiting)
      ensures outcome == if gameweek in finalized then Tally(old(matches), gameweek, finalized, scores, forfeiting)
                         else SettlementOutcome(0, 0, [], 0)
    {
      if gameweek !in finalized {
        return SettlementOutcome(0, 0, [], 0);
      }
      outcome := SettleEach(gameweek, forfeiting, Settlement.SettleGameweek(Current(), gameweek, forfeiting).matches);
    }

    /** Takes in what the tick has just read about the Gameweek's squads and entry histories. */
    method Receive(t: TickInput)
      modifies this`sources
      ensures Current() == WithSources(old(Current()), t)
    {
      sources := sources + map m | m in t.updates :: ScoreKey(t.gameweek, m) := t.updates[m];
    }

    /** Scores, tries to finalize, and stamps the scores final at once if that worked. */
    method ScoreAndFinalize(t: TickInput)
      modifies this
      ensures Current() == ClosedFrom(old(Current()), t)
    {
      var unreconciled := ScoreGameweek(t.gameweek, t.fixtures);
      var finalization := FinalizeIfSettled(t, unreconciled);
      if finalization == Finalized {
        var again := ScoreGameweek(t.gameweek, t.fixtures);
      }
    }

    /** A tick's jobs in order: read, score, try to finalize, settle. */
    method RunTick(t: TickInput)
      modifies this
      ensures Current() == AfterTick(old(Current()), t)
    {
      if t.liveOnly && !AnyStarted(t.fixtures) {
        return;
      }
      Receive(t);
      ScoreAndFinalize(t);
      var settlement := SettleGameweek(t.gameweek, t.forfeiting);
    }

    /** An administrator closes or reopens a Gameweek; asking for the state it is in is a conflict. */
    method SetGameweekFinalized(gameweek: int, value: bool) returns (result: Result<bool, FinalizeError>)
      modifies this`finalized
      ensures result == if gameweek !in old(finalized) then Err(NoSuchGameweek)
                        else if old(finalized)[gameweek] == value then Err(AlreadyInThatState)
                        else Ok(value)
      ensures Current() == After(old(Current()), SetFinalized(gameweek, value))
    {
      if gameweek !in finalized {
        return Err(NoSuchGameweek);
      }
      if finalized[gameweek] == value {
        return Err(AlreadyInThatState);
      }
      finalized := finalized[gameweek := value];
      result := Ok(value);
    }
  }
}
