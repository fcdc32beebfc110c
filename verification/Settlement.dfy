/**
 Score, finalize and settle: what one scheduled tick does to a Gameweek's scores and to the
 head-to-head matches that follow them.
 */
module Settlement {
  import opened Wrappers
  import opened SetSums

  // ----- One match, from two net scores -----

  datatype Reason = BothIneligible | Forfeited(home: bool)

  datatype MatchWinner = Home | Away

  datatype MatchResult =
    | NotPlayed
    | OnPoints(homeScore: int, awayScore: int, winner: Option<MatchWinner>)
    | Walkover(awardedTo: MatchWinner, reason: Reason)
    | NeedsReview(review: Reason)

  const WALKOVER_SCORE := 0

  /** A forfeit is decided before the scores are compared. */
  function SettleMatch(homePoints: Option<int>, awayPoints: Option<int>, homeForfeits: bool, awayForfeits: bool): MatchResult {
    if homeForfeits && awayForfeits then NeedsReview(BothIneligible)
    else if homeForfeits || awayForfeits then Walkover(if homeForfeits then Away else Home, Forfeited(homeForfeits))
    else if homePoints.None? || awayPoints.None? then NotPlayed
    else
      OnPoints(homePoints.value, awayPoints.value,
               if homePoints.value > awayPoints.value then Some(Home)
               else if awayPoints.value > homePoints.value then Some(Away)
               else None)
  }

  // ----- Stored rows -----

  datatype ScoreState = Upcoming | Live | Provisional | FinalScore

  datatype MatchStatus = Scheduled | LiveMatch | ProvisionalMatch | FinalMatch | WalkoverMatch

  datatype ScoreRow = ScoreRow(net: int, state: ScoreState)

  datatype ScoreKey = ScoreKey(gameweek: int, manager: int)

  datatype H2HMatch = H2HMatch(gameweek: int, home: int, away: int, homeScore: Option<int>, awayScore: Option<int>,
                               winner: Option<int>, status: MatchStatus, walkoverReason: Option<Reason>)

  /** What scoring reads of one manager: derived points, the squad's transfer cost, and FPL's own row. */
  datatype Source = Source(computed: int, squadCost: nat, published: Option<Published>)

  datatype Published = Published(gross: int, cost: nat)

  datatype FixtureFlags = FixtureFlags(started: bool, playedOut: bool)

  datatype League = League(finalized: map<int, bool>, sources: map<ScoreKey, Source>,
                           scores: map<ScoreKey, ScoreRow>, matches: seq<H2HMatch>)

  // ----- Scoring -----

  predicate AnyStarted(fixtures: seq<FixtureFlags>) {
    exists f :: f in fixtures && f.started
  }

  function StateOf(finalized: bool, fixtures: seq<FixtureFlags>): ScoreState {
    if finalized then FinalScore
    else if !AnyStarted(fixtures) then Upcoming
    else if forall f :: f in fixtures ==> f.playedOut then Provisional
    else Live
  }

  function NetOf(source: Source, state: ScoreState): int {
    if source.published.None? then source.computed - source.squadCost
    else (if state == Live then source.computed else source.published.value.gross) - source.published.value.cost
  }

  predicate Reconciled(source: Source, state: ScoreState) {
    source.published.None? || state == Live || source.published.value.gross == source.computed
  }

  predicate Sourced(l: League, gameweek: int, manager: int) {
    ScoreKey(gameweek, manager) in l.sources
  }

  /** Every manager with a source gets the row his source gives; a Gameweek before kick-off is left alone. */
  function ScoreGameweek(l: League, gameweek: int, fixtures: seq<FixtureFlags>): League {
    if gameweek !in l.finalized then l
    else
      var state := StateOf(l.finalized[gameweek], fixtures);
      if state == Upcoming then l
      else
        l.(scores := l.scores + map k | k in l.sources && k.gameweek == gameweek :: ScoreRow(NetOf(l.sources[k], state), state))
  }

  function KeysOf(l: League, gameweek: int): set<ScoreKey> {
    set k | k in l.sources && k.gameweek == gameweek
  }

  function Disagreeing(sources: map<ScoreKey, Source>, keys: set<ScoreKey>, state: ScoreState): set<int>
    requires keys <= sources.Keys
  {
    set k | k in keys && !Reconciled(sources[k], state) :: k.manager
  }

  /** The managers whose derived and published figures differ. */
  function Unreconciled(l: League, gameweek: int, fixtures: seq<FixtureFlags>): set<int> {
    if gameweek !in l.finalized || StateOf(l.finalized[gameweek], fixtures) == Upcoming then {}
    else Disagreeing(l.sources, KeysOf(l, gameweek), StateOf(l.finalized[gameweek], fixtures))
  }

  // ----- The finalization gate -----

  datatype Block =
    | GameweekNotFound | DataNotChecked | NoFixtures | FixtureStillOpen
    | ManagerHasNoScore | ScoreDisagreesWithFpl | SourceQuarantined

  datatype Finalization = Finalized | AlreadyFinal | BlockedBy(block: Block)

  /** What a tick sees besides the league's own tables. */
  datatype TickInput = TickInput(gameweek: int, liveOnly: bool, fixtures: seq<FixtureFlags>, updates: map<int, Source>,
                                 fplFinished: bool, dataChecked: bool, expected: set<int>, quarantinedRuns: nat,
                                 forfeiting: set<int>)

  function ScoredManagers(l: League, gameweek: int): set<int> {
    set k | k in l.scores && k.gameweek == gameweek :: k.manager
  }

  function Gate(l: League, t: TickInput, unreconciled: set<int>): Finalization {
    if t.gameweek !in l.finalized then BlockedBy(GameweekNotFound)
    else if l.finalized[t.gameweek] then AlreadyFinal
    else if !t.fplFinished || !t.dataChecked then BlockedBy(DataNotChecked)
    else if t.fixtures == [] then BlockedBy(NoFixtures)
    else if exists f :: f in t.fixtures && !f.playedOut then BlockedBy(FixtureStillOpen)
    else if t.expected - ScoredManagers(l, t.gameweek) != {} then BlockedBy(ManagerHasNoScore)
    else if unreconciled != {} then BlockedBy(ScoreDisagreesWithFpl)
    else if t.quarantinedRuns > 0 then BlockedBy(SourceQuarantined)
    else Finalized
  }

  lemma NobodyMissingIff(expected: set<int>, scored: set<int>)
    ensures expected - scored == {} <==> forall m :: m in expected ==> m in scored
  {
    if expected - scored == {} {
      forall m | m in expected ensures m in scored {
        assert m !in expected - scored;
      }
    } else {
      var m := SomeMember(expected - scored);
    }
  }

  /** The gate lets a Gameweek close exactly when nothing is left to arrive and nothing disagrees. */
  lemma GateOpensIff(l: League, t: TickInput, unreconciled: set<int>)
    ensures Gate(l, t, unreconciled) == Finalized <==>
            && t.gameweek in l.finalized && !l.finalized[t.gameweek]
            && t.fplFinished && t.dataChecked
            && t.fixtures != [] && (forall f :: f in t.fixtures ==> f.playedOut)
            && (forall m :: m in t.expected ==> ScoreKey(t.gameweek, m) in l.scores)
            && unreconciled == {} && t.quarantinedRuns == 0
  {
    NobodyMissingIff(t.expected, ScoredManagers(l, t.gameweek));
    forall m ensures m in ScoredManagers(l, t.gameweek) <==> ScoreKey(t.gameweek, m) in l.scores {}
  }

  // ----- Settling the matches -----

  function Settledness(state: ScoreState): nat {
    match state
    case Upcoming => 0
    case Live => 1
    case Provisional => 2
    case FinalScore => 3
  }

  function StatusFor(home: ScoreState, away: ScoreState): MatchStatus {
    var least := if Settledness(away) < Settledness(home) then away else home;
    match least
    case FinalScore => FinalMatch
    case Provisional => ProvisionalMatch
    case _ => LiveMatch
  }

  function WinnerId(m: H2HMatch, winner: Option<MatchWinner>): Option<int> {
    match winner
    case None => None
    case Some(Home) => Some(m.home)
    case Some(Away) => Some(m.away)
  }

  function RowOf(scores: map<ScoreKey, ScoreRow>, gameweek: int, manager: int): Option<ScoreRow> {
    if ScoreKey(gameweek, manager) in scores then Some(scores[ScoreKey(gameweek, manager)]) else None
  }

  function PointsOf(row: Option<ScoreRow>): Option<int> {
    match row case None => None case Some(r) => Some(r.net)
  }

  /** One match of a Gameweek being settled; a final match of a finalized Gameweek keeps its result. */
  function SettleOne(m: H2HMatch, finalized: bool, scores: map<ScoreKey, ScoreRow>, forfeiting: set<int>): H2HMatch {
    if m.status == FinalMatch && finalized then m
    else
      var home, away := RowOf(scores, m.gameweek, m.home), RowOf(scores, m.gameweek, m.away);
      match SettleMatch(PointsOf(home), PointsOf(away), m.home in forfeiting, m.away in forfeiting)
      case NeedsReview(reason) => m.(walkoverReason := Some(reason))
      case NotPlayed => m
      case Walkover(winner, reason) =>
        H2HMatch(m.gameweek, m.home, m.away, Some(WALKOVER_SCORE), Some(WALKOVER_SCORE),
                 WinnerId(m, Some(winner)), WalkoverMatch, Some(reason))
      case OnPoints(homeScore, awayScore, winner) =>
        H2HMatch(m.gameweek, m.home, m.away, Some(homeScore), Some(awayScore), WinnerId(m, winner),
                 StatusFor(home.value.state, away.value.state), None)
  }

  function SettleGameweek(l: League, gameweek: int, forfeiting: set<int>): League {
    if gameweek !in l.finalized then l
    else
      l.(matches := seq(|l.matches|, i requires 0 <= i < |l.matches| =>
        if l.matches[i].gameweek == gameweek
        then SettleOne(l.matches[i], l.finalized[gameweek], l.scores, forfeiting)
        else l.matches[i]))
  }

  // ----- One tick -----

  function WithSources(l: League, t: TickInput): League {
    l.(sources := l.sources + map m | m in t.updates :: ScoreKey(t.gameweek, m) := t.updates[m])
  }

  function ScoredOnce(l: League, t: TickInput): League {
    ScoreGameweek(WithSources(l, t), t.gameweek, t.fixtures)
  }

  predicate Runs(t: TickInput) {
    !t.liveOnly || AnyStarted(t.fixtures)
  }

  function Finalize(l: League, gameweek: int): League {
    l.(finalized := l.finalized[gameweek := true])
  }

  /** Score, try to finalize, and score again if that worked. */
  function ClosedFrom(l: League, t: TickInput): League {
    var scored := ScoreGameweek(l, t.gameweek, t.fixtures);
    if Gate(scored, t, Unreconciled(l, t.gameweek, t.fixtures)) == Finalized
    then ScoreGameweek(Finalize(scored, t.gameweek), t.gameweek, t.fixtures)
    else scored
  }

  function Closed(l: League, t: TickInput): League {
    ClosedFrom(WithSources(l, t), t)
  }

  predicate TickFinalizes(l: League, t: TickInput) {
    Gate(ScoredOnce(l, t), t, Unreconciled(WithSources(l, t), t.gameweek, t.fixtures)) == Finalized
  }

  function AfterTick(l: League, t: TickInput): League {
    if Runs(t) then SettleGameweek(Closed(l, t), t.gameweek, t.forfeiting) else l
  }

  datatype Event = TickEvent(input: TickInput) | SetFinalized(gameweek: int, finalized: bool)

  function After(l: League, e: Event): League {
    match e
    case TickEvent(t) => AfterTick(l, t)
    case SetFinalized(g, finalized) =>
      if g in l.finalized && l.finalized[g] != finalized then l.(finalized := l.finalized[g := finalized]) else l
  }

  ghost function Run(l: League, events: seq<Event>): League {
    if events == [] then l else After(Run(l, events[..|events| - 1]), events[|events| - 1])
  }

  // ----- What every run keeps -----

  /** Every score row has the source it was derived from: nothing else writes scores. */
  ghost predicate ScoresAreSourced(l: League) {
    forall k :: k in l.scores ==> k in l.sources
  }

  lemma {:induction false} RunKeepsSources(l: League, events: seq<Event>)
    requires ScoresAreSourced(l)
    ensures ScoresAreSourced(Run(l, events))
  {
    if events != [] {
      RunKeepsSources(l, events[..|events| - 1]);
    }
  }

  // ----- A tick that finalizes -----

  /** The stored result is the one these two net scores give. */
  predicate HoldsResult(m: H2HMatch, home: int, away: int) {
    && m.homeScore == Some(home) && m.awayScore == Some(away) && m.walkoverReason.None?
    && m.winner == (if home > away then Some(m.home) else if away > home then Some(m.away) else None)
  }

  /** The match says what the stored scores say, and says it for good. */
  predicate AgreesWithScores(m: H2HMatch, scores: map<ScoreKey, ScoreRow>) {
    var home, away := RowOf(scores, m.gameweek, m.home), RowOf(scores, m.gameweek, m.away);
    home.Some? && away.Some? && m.status == FinalMatch && HoldsResult(m, home.value.net, away.value.net)
  }

  /** Two managers the tick has a source for, both still in the competition. */
  predicate Playable(l: League, t: TickInput, m: H2HMatch) {
    && m.home !in t.forfeiting && m.away !in t.forfeiting
    && Sourced(WithSources(l, t), m.gameweek, m.home) && Sourced(WithSources(l, t), m.gameweek, m.away)
  }

  lemma FinalizingStampsScores(l: League, t: TickInput)
    requires ScoresAreSourced(l) && Runs(t) && TickFinalizes(l, t)
    ensures t.gameweek in AfterTick(l, t).finalized && AfterTick(l, t).finalized[t.gameweek]
    ensures forall k :: k in AfterTick(l, t).scores && k.gameweek == t.gameweek ==>
              AfterTick(l, t).scores[k].state == FinalScore
    ensures forall m :: m in t.expected ==> ScoreKey(t.gameweek, m) in AfterTick(l, t).scores
  {
    var scored := ScoredOnce(l, t);
    forall m | m in t.expected ensures ScoreKey(t.gameweek, m) in scored.scores {
      assert m !in t.expected - ScoredManagers(scored, t.gameweek);
    }
  }

  /** The net score a manager's source gives once the Gameweek is final. */
  function FinalNet(l: League, t: TickInput, manager: int): int
    requires Sourced(WithSources(l, t), t.gameweek, manager)
  {
    NetOf(WithSources(l, t).sources[ScoreKey(t.gameweek, manager)], FinalScore)
  }

  lemma FinalizingLocksRow(l: League, t: TickInput, manager: int)
    requires Runs(t) && TickFinalizes(l, t) && Sourced(WithSources(l, t), t.gameweek, manager)
    ensures RowOf(AfterTick(l, t).scores, t.gameweek, manager) == Some(ScoreRow(FinalNet(l, t, manager), FinalScore))
  {}

  lemma FinalizingSettles(l: League, t: TickInput, i: nat)
    requires Runs(t) && TickFinalizes(l, t)
    requires i < |l.matches| && l.matches[i].gameweek == t.gameweek
    ensures |AfterTick(l, t).matches| == |l.matches|
    ensures AfterTick(l, t).matches[i] == SettleOne(l.matches[i], true, AfterTick(l, t).scores, t.forfeiting)
  {}

  /**
   A tick that finalizes a Gameweek leaves a playable match final and true to the scores it locks
   exactly when the match was not already final, or already held the result of the locked scores.
   */
  lemma FinalizingSettlesIff(l: League, t: TickInput, i: nat)
    requires Runs(t) && TickFinalizes(l, t)
    requires i < |l.matches| && l.matches[i].gameweek == t.gameweek && Playable(l, t, l.matches[i])
    ensures |AfterTick(l, t).matches| == |l.matches|
    ensures AgreesWithScores(AfterTick(l, t).matches[i], AfterTick(l, t).scores) <==>
            || l.matches[i].status != FinalMatch
            || HoldsResult(l.matches[i], FinalNet(l, t, l.matches[i].home), FinalNet(l, t, l.matches[i].away))
    ensures l.matches[i].status == FinalMatch ==> AfterTick(l, t).matches[i] == l.matches[i]
  {
    FinalizingLocksRow(l, t, l.matches[i].home);
    FinalizingLocksRow(l, t, l.matches[i].away);
    FinalizingSettles(l, t, i);
  }

  // ----- When the locked score is the derived one -----

  /** The derived points less the transfer cost, which is FPL's own where FPL has published a row. */
  function DerivedNet(source: Source): int {
    source.computed - (if source.published.Some? then source.published.value.cost else source.squadCost)
  }

  /** Once a fixture has started the gate has compared every manager's two figures. */
  lemma StartedMeansCompared(l: League, t: TickInput, key: ScoreKey)
    requires TickFinalizes(l, t) && key in WithSources(l, t).sources && key.gameweek == t.gameweek
    ensures AnyStarted(t.fixtures) ==> Reconciled(WithSources(l, t).sources[key], Provisional)
  {
    if AnyStarted(t.fixtures) {
      var read := WithSources(l, t);
      assert StateOf(false, t.fixtures) == Provisional;
      assert key.manager !in Disagreeing(read.sources, KeysOf(read, t.gameweek), Provisional);
    }
  }

  /**
   What a finalizing tick locks is the derived score exactly when some fixture had started, or FPL
   has published nothing, or FPL published the derived figure: the gate's comparison is made only
   in a Gameweek that has started.
   */
  lemma LockedIsDerivedIff(l: League, t: TickInput, manager: int)
    requires Runs(t) && TickFinalizes(l, t) && Sourced(WithSources(l, t), t.gameweek, manager)
    ensures var source := WithSources(l, t).sources[ScoreKey(t.gameweek, manager)];
            RowOf(AfterTick(l, t).scores, t.gameweek, manager) == Some(ScoreRow(DerivedNet(source), FinalScore)) <==>
            AnyStarted(t.fixtures) || source.published.None? || source.published.value.gross == source.computed
  {
    var key := ScoreKey(t.gameweek, manager);
    FinalizingLocksRow(l, t, manager);
    StartedMeansCompared(l, t, key);
  }

  /** Manager 10 has 50 derived points stored from an earlier tick; FPL publishes 60. */
  function DisagreeingLeague(): League {
    League(map[1 := false], map[ScoreKey(1, 10) := Source(50, 0, Some(Published(60, 0)))],
           map[ScoreKey(1, 10) := ScoreRow(50, Live)], [])
  }

  /** The one fixture is reported played out while its start flag is down. */
  function UnstartedTick(): TickInput {
    TickInput(1, false, [FixtureFlags(false, true)], map[], true, true, {10}, 0, {})
  }

  lemma UnstartedTickLocks(l: League, t: TickInput, manager: int)
    requires t.updates == map[] && !AnyStarted(t.fixtures) && Runs(t) && Gate(l, t, {}) == Finalized
    requires Sourced(l, t.gameweek, manager)
    ensures TickFinalizes(l, t)
    ensures RowOf(AfterTick(l, t).scores, t.gameweek, manager) ==
            Some(ScoreRow(NetOf(l.sources[ScoreKey(t.gameweek, manager)], FinalScore), FinalScore))
  {
    assert WithSources(l, t) == l;
    assert ScoredOnce(l, t) == l && Unreconciled(l, t.gameweek, t.fixtures) == {};
    FinalizingLocksRow(l, t, manager);
  }

  /** With no start flag up a tick finalizes although the two figures differ, and locks FPL's. */
  lemma UnstartedTickLocksTheDifference(l: League, t: TickInput)
    requires l == DisagreeingLeague() && t == UnstartedTick()
    ensures Runs(t) && TickFinalizes(l, t)
    ensures !Reconciled(l.sources[ScoreKey(1, 10)], Provisional)
    ensures RowOf(AfterTick(l, t).scores, 1, 10) == Some(ScoreRow(60, FinalScore))
  {
    GateOpensIff(l, t, {});
    UnstartedTickLocks(l, t, 10);
  }

  // ----- Nothing final moves until a reopen -----

  ghost predicate ClosedAt(l: League, gameweek: int, i: nat) {
    && gameweek in l.finalized && l.finalized[gameweek]
    && i < |l.matches| && l.matches[i].gameweek == gameweek && l.matches[i].status == FinalMatch
  }

  lemma ClosingKeepsFinalized(l: League, t: TickInput, gameweek: int)
    requires gameweek in l.finalized && l.finalized[gameweek]
    ensures gameweek in Closed(l, t).finalized && Closed(l, t).finalized[gameweek]
    ensures Closed(l, t).matches == l.matches
  {}

  lemma StepKeepsFinalMatch(l: League, e: Event, gameweek: int, i: nat)
    requires ClosedAt(l, gameweek, i) && e != SetFinalized(gameweek, false)
    ensures ClosedAt(After(l, e), gameweek, i) && After(l, e).matches[i] == l.matches[i]
  {
    if e.TickEvent? {
      ClosingKeepsFinalized(l, e.input, gameweek);
    }
  }

  /** Until its Gameweek is reopened a final match is what it was, whatever ticks bring. */
  lemma {:induction false} FinalMatchesAreFrozen(l: League, events: seq<Event>, gameweek: int, i: nat)
    requires ClosedAt(l, gameweek, i)
    requires SetFinalized(gameweek, false) !in events
    ensures ClosedAt(Run(l, events), gameweek, i) && Run(l, events).matches[i] == l.matches[i]
  {
    if events != [] {
      FinalMatchesAreFrozen(l, events[..|events| - 1], gameweek, i);
      StepKeepsFinalMatch(Run(l, events[..|events| - 1]), events[|events| - 1], gameweek, i);
    }
  }

  /**
   An ordinary tick of a finalized Gameweek rewrites its final scores and not its final matches: a
   match is still true to them exactly when it already held the result of the rewritten scores.
   */
  lemma ClosedTickAgreesIff(l: League, t: TickInput, i: nat)
    requires Runs(t) && ClosedAt(l, t.gameweek, i) && Playable(l, t, l.matches[i])
    ensures |AfterTick(l, t).matches| == |l.matches| && AfterTick(l, t).matches[i] == l.matches[i]
    ensures AgreesWithScores(AfterTick(l, t).matches[i], AfterTick(l, t).scores) <==>
            HoldsResult(l.matches[i], FinalNet(l, t, l.matches[i].home), FinalNet(l, t, l.matches[i].away))
  {
    StepKeepsFinalMatch(l, TickEvent(t), t.gameweek, i);
  }

  /** The scores of every Gameweek but one are as they were. */
  ghost predicate SameElsewhere(before: map<ScoreKey, ScoreRow>, after: map<ScoreKey, ScoreRow>, gameweek: int) {
    forall k: ScoreKey :: k.gameweek != gameweek ==>
      (k in after <==> k in before) && (k in before ==> after[k] == before[k])
  }

  lemma ClosingIsLocal(l: League, t: TickInput)
    ensures SameElsewhere(l.scores, Closed(l, t).scores, t.gameweek)
    ensures Closed(l, t).matches == l.matches
  {
    assert SameElsewhere(l.scores, ScoredOnce(l, t).scores, t.gameweek);
  }

  /** A tick for one Gameweek leaves the scores and matches of every other Gameweek alone. */
  lemma TickIsLocal(l: League, t: TickInput)
    ensures SameElsewhere(l.scores, AfterTick(l, t).scores, t.gameweek)
    ensures |AfterTick(l, t).matches| == |l.matches|
    ensures forall i :: 0 <= i < |l.matches| && l.matches[i].gameweek != t.gameweek ==>
              AfterTick(l, t).matches[i] == l.matches[i]
  {
    ClosingIsLocal(l, t);
  }

  // ----- Nothing is final before its Gameweek is -----

  /** While its Gameweek is open, neither this match nor any score of the Gameweek is final. */
  ghost predicate OpenMeansNotFinal(l: League, gameweek: int, i: nat) {
    || (gameweek in l.finalized && l.finalized[gameweek])
    || ( && (forall k :: k in l.scores && k.gameweek == gameweek ==> l.scores[k].state != FinalScore)
         && (i < |l.matches| && l.matches[i].gameweek == gameweek ==> l.matches[i].status != FinalMatch))
  }

  lemma ScoringAnOpenGameweek(l: League, scored: int, gameweek: int, i: nat, fixtures: seq<FixtureFlags>)
    requires OpenMeansNotFinal(l, gameweek, i)
    ensures OpenMeansNotFinal(ScoreGameweek(l, scored, fixtures), gameweek, i)
  {}

  lemma SettlingAnOpenGameweek(l: League, settled: int, gameweek: int, i: nat, forfeiting: set<int>)
    requires OpenMeansNotFinal(l, gameweek, i)
    ensures OpenMeansNotFinal(SettleGameweek(l, settled, forfeiting), gameweek, i)
  {}

  lemma ClosingKeepsOpenMatches(l: League, t: TickInput, gameweek: int, i: nat)
    requires OpenMeansNotFinal(l, gameweek, i)
    ensures OpenMeansNotFinal(Closed(l, t), gameweek, i)
  {
    var read := WithSources(l, t);
    ScoringAnOpenGameweek(read, t.gameweek, gameweek, i, t.fixtures);
    var scored := ScoredOnce(l, t);
    if TickFinalizes(l, t) {
      assert OpenMeansNotFinal(Finalize(scored, t.gameweek), gameweek, i);
      ScoringAnOpenGameweek(Finalize(scored, t.gameweek), t.gameweek, gameweek, i, t.fixtures);
    }
  }

  lemma StepKeepsOpenMatches(l: League, e: Event, gameweek: int, i: nat)
    requires OpenMeansNotFinal(l, gameweek, i) && e != SetFinalized(gameweek, false)
    ensures OpenMeansNotFinal(After(l, e), gameweek, i)
  {
    if e.TickEvent? {
      ClosingKeepsOpenMatches(l, e.input, gameweek, i);
      SettlingAnOpenGameweek(Closed(l, e.input), e.input.gameweek, gameweek, i, e.input.forfeiting);
    }
  }

  /** Without a reopen, what is open stays without a final score or match. */
  lemma {:induction false} RunKeepsOpenMatches(l: League, events: seq<Event>, gameweek: int, i: nat)
    requires OpenMeansNotFinal(l, gameweek, i) && SetFinalized(gameweek, false) !in events
    ensures OpenMeansNotFinal(Run(l, events), gameweek, i)
  {
    if events != [] {
      RunKeepsOpenMatches(l, events[..|events| - 1], gameweek, i);
      StepKeepsOpenMatches(Run(l, events[..|events| - 1]), events[|events| - 1], gameweek, i);
    }
  }

  /**
   In every run that never reopens a Gameweek, the tick that finalizes it leaves each playable match
   final and true to the scores it locks.
   */
  lemma FirstFinalizationSettlesAll(start: League, events: seq<Event>, t: TickInput, i: nat)
    requires OpenMeansNotFinal(start, t.gameweek, i) && SetFinalized(t.gameweek, false) !in events
    requires Runs(t) && TickFinalizes(Run(start, events), t)
    requires i < |Run(start, events).matches| && Run(start, events).matches[i].gameweek == t.gameweek
    requires Playable(Run(start, events), t, Run(start, events).matches[i])
    ensures var after := AfterTick(Run(start, events), t);
            |after.matches| == |Run(start, events).matches| && AgreesWithScores(after.matches[i], after.scores)
  {
    RunKeepsOpenMatches(start, events, t.gameweek, i);
    FinalizingSettlesIff(Run(start, events), t, i);
  }

  // ----- After a reopen -----

  /** A tick of an open, started Gameweek that does not finalize it takes finality off a playable match. */
  lemma OpenTickUnlocks(l: League, t: TickInput, i: nat)
    requires ScoresAreSourced(l) && t.gameweek in l.finalized && !l.finalized[t.gameweek]
    requires Runs(t) && AnyStarted(t.fixtures) && !TickFinalizes(l, t)
    requires i < |l.matches| && l.matches[i].gameweek == t.gameweek && Playable(l, t, l.matches[i])
    ensures OpenMeansNotFinal(AfterTick(l, t), t.gameweek, i)
  {}

  /**
   A reopened Gameweek recovers: once one tick of it has run with a fixture started and has not
   closed it again, whatever follows, the tick that does close it settles the match by its scores.
   */
  lemma ReopenedThenScoredSettles(start: League, t: TickInput, events: seq<Event>, close: TickInput, i: nat)
    requires ScoresAreSourced(start) && t.gameweek in start.finalized && !start.finalized[t.gameweek]
    requires Runs(t) && AnyStarted(t.fixtures) && !TickFinalizes(start, t)
    requires i < |start.matches| && start.matches[i].gameweek == t.gameweek && Playable(start, t, start.matches[i])
    requires SetFinalized(t.gameweek, false) !in events && close.gameweek == t.gameweek
    requires var l := Run(AfterTick(start, t), events);
             && Runs(close) && TickFinalizes(l, close)
             && i < |l.matches| && l.matches[i].gameweek == t.gameweek && Playable(l, close, l.matches[i])
    ensures var after := AfterTick(Run(AfterTick(start, t), events), close);
            i < |after.matches| && AgreesWithScores(after.matches[i], after.scores)
  {
    OpenTickUnlocks(start, t, i);
    FirstFinalizationSettlesAll(AfterTick(start, t), events, close, i);
  }

  // ----- The gap a reopen can leave -----

  function ClosedLeague(): League {
    League(map[1 := true],
           map[ScoreKey(1, 10) := Source(50, 0, None), ScoreKey(1, 20) := Source(40, 0, None)],
           map[ScoreKey(1, 10) := ScoreRow(50, FinalScore), ScoreKey(1, 20) := ScoreRow(40, FinalScore)],
           [H2HMatch(1, 10, 20, Some(50), Some(40), Some(10), FinalMatch, None)])
  }

  /** FPL corrects manager 10 from 50 points to 30, with the football long over. */
  function Correction(): TickInput {
    TickInput(1, false, [FixtureFlags(true, true)], map[10 := Source(30, 0, None)], true, true, {}, 0, {})
  }

  lemma CorrectionReconciles(l: League, t: TickInput)
    requires l.sources == ClosedLeague().sources && l.finalized == map[1 := false] && t == Correction()
    ensures Unreconciled(WithSources(l, t), t.gameweek, t.fixtures) == {}
  {
    assert t.fixtures[0] in t.fixtures && StateOf(false, t.fixtures) == Provisional;
  }

  lemma CorrectionFinalizes(l: League, t: TickInput)
    requires l.sources == ClosedLeague().sources && l.finalized == map[1 := false] && t == Correction()
    ensures TickFinalizes(l, t)
  {
    CorrectionReconciles(l, t);
    GateOpensIff(ScoredOnce(l, t), t, {});
  }

  lemma RunOfTwo(l: League, first: Event, second: Event)
    ensures Run(l, [first, second]) == After(After(l, first), second)
  {
    assert [first, second][..1] == [first] && [first][..0] == [];
    assert Run(l, [first]) == After(Run(l, []), first);
  }

  /**
   A Gameweek that is reopened and finalized again by the very next tick keeps the old result of a
   final match, even though the scores it locks say otherwise.
   */
  lemma ReopenedAndClosedAtOnceIsStale()
    ensures var after := Run(ClosedLeague(), [SetFinalized(1, false), TickEvent(Correction())]);
            && |after.matches| == 1 && after.matches[0] == ClosedLeague().matches[0]
            && RowOf(after.scores, 1, 10) == Some(ScoreRow(30, FinalScore))
            && !AgreesWithScores(after.matches[0], after.scores)
  {
    var l := ClosedLeague().(finalized := map[1 := false]);
    assert After(ClosedLeague(), SetFinalized(1, false)) == l;
    RunOfTwo(ClosedLeague(), SetFinalized(1, false), TickEvent(Correction()));
    CorrectionFinalizes(l, Correction());
    var t := Correction();
    assert WithSources(l, t).sources[ScoreKey(1, 10)] == t.updates[10];
    FinalizingLocksRow(l, t, 10);
    FinalizingStampsScores(l, Correction());
    FinalizingSettles(l, Correction(), 0);
  }

  /** The correction that comes after the Gameweek was finalized, and nobody reopens it. */
  lemma CorrectionAfterClosingIsStale(l: League, t: TickInput)
    requires l == ClosedLeague() && t == Correction()
    ensures AgreesWithScores(l.matches[0], l.scores)
    ensures |AfterTick(l, t).matches| == 1 && AfterTick(l, t).matches[0] == l.matches[0]
    ensures RowOf(AfterTick(l, t).scores, 1, 10) == Some(ScoreRow(30, FinalScore))
    ensures !AgreesWithScores(AfterTick(l, t).matches[0], AfterTick(l, t).scores)
  {
    ClosedTickAgreesIff(l, t, 0);
  }

  /** The football goes on, and the data is not checked. */
  function InPlay(): TickInput {
    TickInput(1, false, [FixtureFlags(true, false)], map[], false, false, {}, 0, {})
  }

  lemma TickKeepsSides(l: League, t: TickInput, i: nat)
    requires i < |l.matches|
    ensures |AfterTick(l, t).matches| == |l.matches|
    ensures var m, m' := l.matches[i], AfterTick(l, t).matches[i];
            m'.gameweek == m.gameweek && m'.home == m.home && m'.away == m.away
  {
    ClosingIsLocal(l, t);
  }

  /** While the data is not checked a tick without updates changes neither flags nor sources. */
  lemma UncheckedTickKeepsFlags(l: League, t: TickInput)
    requires !t.dataChecked && t.updates == map[]
    ensures WithSources(l, t) == l && !TickFinalizes(l, t)
    ensures AfterTick(l, t).finalized == l.finalized && AfterTick(l, t).sources == l.sources
  {
    assert WithSources(l, t) == l;
    GateOpensIff(ScoredOnce(l, t), t, Unreconciled(l, t.gameweek, t.fixtures));
  }

  /** Reopened, scored once in play and then corrected and closed, the same match follows its scores. */
  lemma CorrectionAfterPlaySettles(l: League, t: TickInput, after: League)
    requires l == ClosedLeague().(finalized := map[1 := false]) && t == InPlay() && after == AfterTick(l, t)
    ensures TickFinalizes(after, Correction())
    ensures |AfterTick(after, Correction()).matches| == 1
    ensures AgreesWithScores(AfterTick(after, Correction()).matches[0], AfterTick(after, Correction()).scores)
  {
    UncheckedTickKeepsFlags(l, t);
    assert t.fixtures[0] in t.fixtures;
    TickKeepsSides(l, t, 0);
    CorrectionFinalizes(after, Correction());
    TickKeepsSides(after, Correction(), 0);
    assert Run(after, []) == after;
    ReopenedThenScoredSettles(l, t, [], Correction(), 0);
  }
}
