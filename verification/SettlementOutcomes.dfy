/** What a tick leaves behind, row by row and match by match, in the figures it was given. */
module SettlementOutcomes {
  import opened Wrappers
  import opened Sorting
  import opened Settlement
  import opened SettlementService

  /** A tick for live scores is run only once something has started. */
  ghost predicate IsRun(t: TickInput) {
    t.liveOnly ==> exists f :: f in t.fixtures && f.started
  }

  lemma OtherTicksDoNothing(l: League, t: TickInput)
    requires !IsRun(t)
    ensures AfterTick(l, t) == l
  {}

  // ----- Scores -----

  /** What the tick goes by for a manager: what it has just read, or what it read before. */
  ghost predicate ReadsSource(l: League, t: TickInput, manager: int, source: Source) {
    if manager in t.updates then source == t.updates[manager]
    else ScoreKey(t.gameweek, manager) in l.sources && source == l.sources[ScoreKey(t.gameweek, manager)]
  }

  ghost function Cost(source: Source): int {
    if source.published.Some? then source.published.value.cost else source.squadCost
  }

  /** FPL's own figure where it has one. */
  ghost function PublishedNet(source: Source): int {
    (if source.published.Some? then source.published.value.gross else source.computed) - Cost(source)
  }

  /** The row one scoring pass leaves a manager. */
  ghost predicate IsScored(row: Option<ScoreRow>, before: Option<ScoreRow>, finalized: bool, fixtures: seq<FixtureFlags>,
                           source: Source)
  {
    if finalized then row == Some(ScoreRow(PublishedNet(source), FinalScore))
    else if forall f :: f in fixtures ==> !f.started then row == before
    else if forall f :: f in fixtures ==> f.playedOut then row == Some(ScoreRow(PublishedNet(source), Provisional))
    else row == Some(ScoreRow(source.computed - Cost(source), Live))
  }

  lemma PassScores(l: League, gameweek: int, fixtures: seq<FixtureFlags>, manager: int, source: Source)
    requires gameweek in l.finalized && ScoreKey(gameweek, manager) in l.sources
    requires l.sources[ScoreKey(gameweek, manager)] == source
    ensures IsScored(RowOf(ScoreGameweek(l, gameweek, fixtures).scores, gameweek, manager),
                     RowOf(l.scores, gameweek, manager), l.finalized[gameweek], fixtures, source)
  {}

  /** A tick's scores are those of its last pass, over the sources it has just read. */
  lemma LastPass(l: League, t: TickInput)
    requires IsRun(t) && t.gameweek in l.finalized
    ensures AfterTick(l, t).scores ==
            (if TickFinalizes(l, t) then ScoreGameweek(Finalize(ScoredOnce(l, t), t.gameweek), t.gameweek, t.fixtures)
             else ScoredOnce(l, t)).scores
  {}

  /**
   The row a tick leaves a manager: in play his derived points less the cost, whatever FPL has
   published; with everything played out, and for good once the Gameweek is final, FPL's own figure if
   there is one. Before kick-off his row is as it was.
   */
  lemma TickScores(l: League, t: TickInput, manager: int, source: Source)
    requires IsRun(t) && t.gameweek in l.finalized && ReadsSource(l, t, manager, source)
    ensures IsScored(RowOf(AfterTick(l, t).scores, t.gameweek, manager), RowOf(l.scores, t.gameweek, manager),
                     l.finalized[t.gameweek] || TickFinalizes(l, t), t.fixtures, source)
  {
    var read, scored := WithSources(l, t), ScoredOnce(l, t);
    assert ScoreKey(t.gameweek, manager) in read.sources && read.sources[ScoreKey(t.gameweek, manager)] == source;
    LastPass(l, t);
    if TickFinalizes(l, t) {
      PassScores(Finalize(scored, t.gameweek), t.gameweek, t.fixtures, manager, source);
    } else {
      PassScores(read, t.gameweek, t.fixtures, manager, source);
    }
  }

  /** The managers reported: in a Gameweek that has started and is not in play, those FPL contradicts. */
  lemma ReportedAreContradicted(l: League, gameweek: int, fixtures: seq<FixtureFlags>, manager: int)
    ensures manager in Unreconciled(l, gameweek, fixtures) <==>
            && gameweek in l.finalized && ScoreKey(gameweek, manager) in l.sources
            && (l.finalized[gameweek] ||
                ((exists f :: f in fixtures && f.started) && forall f :: f in fixtures ==> f.playedOut))
            && l.sources[ScoreKey(gameweek, manager)].published.Some?
            && l.sources[ScoreKey(gameweek, manager)].published.value.gross != l.sources[ScoreKey(gameweek, manager)].computed
  {
    assert forall k :: k in KeysOf(l, gameweek) <==> k in l.sources && k.gameweek == gameweek;
    assert ScoreKey(gameweek, manager).manager == manager;
  }

  // ----- The gate -----

  /** The gate names the first of these that holds. */
  lemma GateNamesTheFirst(l: League, t: TickInput, unreconciled: set<int>)
    ensures t.gameweek !in l.finalized ==> Gate(l, t, unreconciled) == BlockedBy(GameweekNotFound)
    ensures t.gameweek in l.finalized && l.finalized[t.gameweek] ==> Gate(l, t, unreconciled) == AlreadyFinal
    ensures t.gameweek in l.finalized && !l.finalized[t.gameweek] ==>
              var outcome := Gate(l, t, unreconciled);
              var open := exists f :: f in t.fixtures && !f.playedOut;
              var missing := exists m :: m in t.expected && ScoreKey(t.gameweek, m) !in l.scores;
              if !(t.fplFinished && t.dataChecked) then outcome == BlockedBy(DataNotChecked)
              else if t.fixtures == [] then outcome == BlockedBy(NoFixtures)
              else if open then outcome == BlockedBy(FixtureStillOpen)
              else if missing then outcome == BlockedBy(ManagerHasNoScore)
              else if unreconciled != {} then outcome == BlockedBy(ScoreDisagreesWithFpl)
              else if t.quarantinedRuns > 0 then outcome == BlockedBy(SourceQuarantined)
              else outcome == Finalized
  {
    NobodyMissingIff(t.expected, ScoredManagers(l, t.gameweek));
    forall m ensures m in ScoredManagers(l, t.gameweek) <==> ScoreKey(t.gameweek, m) in l.scores {}
  }

  // ----- Matches -----

  ghost predicate IsKept(m: H2HMatch, finalized: bool) {
    m.status == FinalMatch && finalized
  }

  /** The status of a match on points: as settled as its less settled side. */
  ghost predicate StatusOf(status: MatchStatus, home: ScoreState, away: ScoreState) {
    if home == FinalScore && away == FinalScore then status == FinalMatch
    else if home in {Provisional, FinalScore} && away in {Provisional, FinalScore} then status == ProvisionalMatch
    else status == LiveMatch
  }

  /** What becomes of a match that is not kept. */
  ghost predicate SettledBy(m: H2HMatch, after: H2HMatch, home: Option<ScoreRow>, away: Option<ScoreRow>, forfeiting: set<int>) {
    && (after.gameweek, after.home, after.away) == (m.gameweek, m.home, m.away)
    && if m.home in forfeiting && m.away in forfeiting then after == m.(walkoverReason := Some(BothIneligible))
       else if m.home in forfeiting || m.away in forfeiting then
         && after.status == WalkoverMatch && after.homeScore == after.awayScore == Some(0)
         && after.winner == Some(if m.home in forfeiting then m.away else m.home)
         && after.walkoverReason == Some(Forfeited(m.home in forfeiting))
       else if home.None? || away.None? then after == m
       else
         && after.homeScore == Some(home.value.net) && after.awayScore == Some(away.value.net)
         && after.winner == (if home.value.net > away.value.net then Some(m.home)
                             else if away.value.net > home.value.net then Some(m.away) else None)
         && after.walkoverReason.None? && StatusOf(after.status, home.value.state, away.value.state)
  }

  lemma OneMatchSettled(m: H2HMatch, finalized: bool, scores: map<ScoreKey, ScoreRow>, forfeiting: set<int>)
    ensures if IsKept(m, finalized) then SettleOne(m, finalized, scores, forfeiting) == m
            else SettledBy(m, SettleOne(m, finalized, scores, forfeiting), RowOf(scores, m.gameweek, m.home),
                           RowOf(scores, m.gameweek, m.away), forfeiting)
  {}

  lemma TickSettlesOne(l: League, t: TickInput, i: nat)
    requires IsRun(t) && t.gameweek in l.finalized && i < |l.matches| && l.matches[i].gameweek == t.gameweek
    ensures var after := AfterTick(l, t);
            && |after.matches| == |l.matches| && t.gameweek in after.finalized
            && after.matches[i] == SettleOne(l.matches[i], after.finalized[t.gameweek], after.scores, t.forfeiting)
  {}

  /**
   A tick settles a match of its Gameweek by the scores it leaves: both sides forfeiting leaves it to a
   person, one gives the other a walkover of no points, a missing score leaves it as it was, and
   otherwise the higher net score wins. A final match of a Gameweek that is final by then is kept.
   */
  lemma TickSettles(l: League, t: TickInput, i: nat)
    requires IsRun(t) && t.gameweek in l.finalized && i < |l.matches| && l.matches[i].gameweek == t.gameweek
    ensures var m, after := l.matches[i], AfterTick(l, t);
            && |after.matches| == |l.matches| && t.gameweek in after.finalized
            && if IsKept(m, after.finalized[t.gameweek]) then after.matches[i] == m
               else SettledBy(m, after.matches[i], RowOf(after.scores, t.gameweek, m.home),
                              RowOf(after.scores, t.gameweek, m.away), t.forfeiting)
  {
    TickSettlesOne(l, t, i);
    var after := AfterTick(l, t);
    OneMatchSettled(l.matches[i], after.finalized[t.gameweek], after.scores, t.forfeiting);
  }

  // ----- What the settlement reports -----

  ghost function WalkedOver(gameweek: int, finalized: bool, forfeiting: set<int>): H2HMatch -> bool {
    (m: H2HMatch) => m.gameweek == gameweek && !IsKept(m, finalized) && (m.home in forfeiting) != (m.away in forfeiting)
  }

  ghost function OnScores(gameweek: int, finalized: bool, scores: map<ScoreKey, ScoreRow>, forfeiting: set<int>): H2HMatch -> bool {
    (m: H2HMatch) =>
      && m.gameweek == gameweek && !IsKept(m, finalized) && m.home !in forfeiting && m.away !in forfeiting
      && ScoreKey(gameweek, m.home) in scores && ScoreKey(gameweek, m.away) in scores
  }

  ghost function Kept(gameweek: int, finalized: bool): H2HMatch -> bool {
    (m: H2HMatch) => m.gameweek == gameweek && IsKept(m, finalized)
  }

  ghost predicate IsLeftToReview(m: H2HMatch, gameweek: int, finalized: bool, forfeiting: set<int>) {
    m.gameweek == gameweek && !IsKept(m, finalized) && m.home in forfeiting && m.away in forfeiting
  }

  lemma CountLast(ms: seq<H2HMatch>, p: H2HMatch -> bool)
    requires ms != []
    ensures Count(ms, p) == Count(ms[..|ms| - 1], p) + if p(ms[|ms| - 1]) then 1 else 0
  {
    var rest, last := ms[..|ms| - 1], ms[|ms| - 1];
    assert ms == rest + [last];
    CountConcat(rest, [last], p);
  }

  lemma {:induction false} CountersCountMatches(ms: seq<H2HMatch>, gameweek: int, finalized: map<int, bool>,
                                                scores: map<ScoreKey, ScoreRow>, forfeiting: set<int>)
    requires gameweek in finalized
    ensures var t, final := Tally(ms, gameweek, finalized, scores, forfeiting), finalized[gameweek];
            && t.walkovers == Count(ms, WalkedOver(gameweek, final, forfeiting))
            && t.settled == t.walkovers + Count(ms, OnScores(gameweek, final, scores, forfeiting))
            && t.untouchedFinal == Count(ms, Kept(gameweek, final))
  {
    if ms != [] {
      var final := finalized[gameweek];
      CountersCountMatches(ms[..|ms| - 1], gameweek, finalized, scores, forfeiting);
      CountLast(ms, WalkedOver(gameweek, final, forfeiting));
      CountLast(ms, OnScores(gameweek, final, scores, forfeiting));
      CountLast(ms, Kept(gameweek, final));
    }
  }

  /** The counters are the numbers of matches walked over, settled and kept, and those left to a person are named. */
  lemma TallyCountsMatches(ms: seq<H2HMatch>, gameweek: int, finalized: map<int, bool>, scores: map<ScoreKey, ScoreRow>,
                           forfeiting: set<int>)
    requires gameweek in finalized
    ensures var t, final := Tally(ms, gameweek, finalized, scores, forfeiting), finalized[gameweek];
            && t.walkovers == Count(ms, WalkedOver(gameweek, final, forfeiting))
            && t.settled == t.walkovers + Count(ms, OnScores(gameweek, final, scores, forfeiting))
            && t.untouchedFinal == Count(ms, Kept(gameweek, final))
            && (forall i :: i in t.needsReview <==> 0 <= i < |ms| && IsLeftToReview(ms[i], gameweek, final, forfeiting))
  {
    CountersCountMatches(ms, gameweek, finalized, scores, forfeiting);
    TallyNotesEachOnce(ms, gameweek, finalized, scores, forfeiting);
  }
}
