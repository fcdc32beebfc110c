/** What holds of the stored rows of a Cup in every reachable state, and when a Cup can be drawn. */
module CupTheorems {
  import opened Wrappers
  import opened Sorting
  import opened CupBracket
  import opened CupEvaluation
  import opened CupAccounting
  import opened CupNets
  import opened CupProgress
  import opened CupRun
  import opened CupDraw
  import CupService
  import opened PublishedBrackets

  /** Reached from the draw by calls and lots, each call with the figures of its moment. */
  ghost predicate Reachable(b: Bracket, seeded: map<Seed, int>, s: CupState) {
    exists events :: Run(b, Drawn(b, seeded), events) == s
  }

  /** Reached while the figures stood still. */
  ghost predicate SteadilyReached(b: Bracket, env: Env, s: CupState) {
    exists events :: Steady(events, env.figures) && Run(b, Drawn(b, env.seeded), events) == s
  }

  lemma ReachableIsUpheld(b: Bracket, seeded: map<Seed, int>, s: CupState)
    requires b.WellFormed() && DrawIsFair(NetOf(b), Bare(seeded)) && Reachable(b, seeded, s)
    ensures SoundNet(NetOf(b)) && Upheld(NetOf(b), seeded, s.rows)
  {
    NetIsSound(b);
    var events :| Run(b, Drawn(b, seeded), events) == s;
    DrawnIsUpheld(NetOf(b), seeded);
    RunIsUpheld(b, seeded, Drawn(b, seeded), events);
  }

  lemma SteadyIsConsistent(b: Bracket, env: Env, s: CupState)
    requires b.WellFormed() && DrawIsFair(NetOf(b), env) && SteadilyReached(b, env, s)
    ensures SoundNet(NetOf(b)) && Consistent(NetOf(b), env, s)
    ensures Reachable(b, env.seeded, s)
  {
    NetIsSound(b);
    var events :| Steady(events, env.figures) && Run(b, Drawn(b, env.seeded), events) == s;
    DrawnIsConsistent(NetOf(b), env);
    RunIsConsistent(b, env, Drawn(b, env.seeded), events);
  }

  /** Over steady figures, whatever is stored is what the bracket evaluates to. */
  lemma StoredIsEvaluated(b: Bracket, env: Env, s: CupState, t: TieId, side: Side)
    requires b.WellFormed() && DrawIsFair(NetOf(b), env) && SteadilyReached(b, env, s) && t in NetOf(b)
    ensures s.rows.Keys == NetOf(b).Keys && Layered(NetOf(b))
    ensures s.rows[t].At(side).Some? ==> s.rows[t].At(side) == HolderOf(NetOf(b), env, s.draws, t, side)
    ensures s.rows[t].winner.Some? ==>
              s.rows[t].winner == VictorOf(NetOf(b), env, s.draws, t) && s.rows[t].Loser() == LoserOf(NetOf(b), env, s.draws, t)
  {
    SteadyIsConsistent(b, env, s);
    ConsistentIsEvaluated(NetOf(b), env, s, t);
  }

  /** Whatever the figures were, a stored Cup is the evaluation of its own winners as lots. */
  lemma StoredIsUpheld(b: Bracket, seeded: map<Seed, int>, s: CupState, t: TieId, side: Side)
    requires b.WellFormed() && DrawIsFair(NetOf(b), Bare(seeded)) && Reachable(b, seeded, s) && t in NetOf(b)
    ensures s.rows.Keys == NetOf(b).Keys && SoundNet(NetOf(b))
    ensures s.rows[t].At(side).Some? ==> s.rows[t].At(side) == HolderOf(NetOf(b), Bare(seeded), Winners(s.rows), t, side)
    ensures s.rows[t].winner == VictorOf(NetOf(b), Bare(seeded), Winners(s.rows), t)
    ensures s.rows[t].Loser() == LoserOf(NetOf(b), Bare(seeded), Winners(s.rows), t)
  {
    ReachableIsUpheld(b, seeded, s);
    ConsistentIsEvaluated(NetOf(b), Bare(seeded), AsLots(s.rows), t);
    StoredIsVictor(NetOf(b), seeded, s.rows, t);
  }

  /** In every reachable state no manager stands in two slots of one round, nor on both sides of a tie. */
  lemma NobodyPlaysTwiceInARound(b: Bracket, seeded: map<Seed, int>, s: CupState, t: TieId, side: Side, u: TieId, side': Side)
    requires b.WellFormed() && DrawIsFair(NetOf(b), Bare(seeded)) && Reachable(b, seeded, s)
    requires t in NetOf(b) && u in NetOf(b) && NetOf(b)[t].round == NetOf(b)[u].round && (t, side) != (u, side')
    ensures s.rows.Keys == NetOf(b).Keys
    ensures s.rows[t].At(side).Some? ==> s.rows[t].At(side) != s.rows[u].At(side')
  {
    StoredIsUpheld(b, seeded, s, t, side);
    StoredIsUpheld(b, seeded, s, u, side');
    if s.rows[t].At(side).Some? && s.rows[u].At(side').Some? {
      OneTiePerRound(NetOf(b), Bare(seeded), Winners(s.rows), t, side, u, side');
    }
  }

  /** In no reachable state, and over no figures, does settling a tie ask a manager to play himself. */
  lemma NobodyPlaysHimself(b: Bracket, seeded: map<Seed, int>, s: CupState, t: TieId)
    requires b.WellFormed() && DrawIsFair(NetOf(b), Bare(seeded)) && Reachable(b, seeded, s) && t in NetOf(b)
    ensures t in s.rows
    ensures s.rows[t].a.Some? && s.rows[t].b.Some? ==>
              forall figures, gameweek :: Play(figures, gameweek, s.rows[t].a.value, s.rows[t].b.value).Ok?
  {
    NobodyPlaysTwiceInARound(b, seeded, s, t, A, t, B);
  }

  /** In every reachable state a beaten manager is in no later tie but the third-place match. */
  lemma BeatenManagersAreOut(b: Bracket, seeded: map<Seed, int>, s: CupState, t: TieId, u: TieId, side: Side)
    requires b.WellFormed() && DrawIsFair(NetOf(b), Bare(seeded)) && Reachable(b, seeded, s)
    requires t in NetOf(b) && u in NetOf(b) && t != ThirdPlace && u != ThirdPlace
    requires NetOf(b)[u].round > NetOf(b)[t].round
    ensures s.rows.Keys == NetOf(b).Keys
    ensures s.rows[t].winner.Some? ==> s.rows[t].Loser().Some? && s.rows[u].At(side) != s.rows[t].Loser()
  {
    StoredIsUpheld(b, seeded, s, t, A);
    StoredIsUpheld(b, seeded, s, u, side);
    if s.rows[t].winner.Some? {
      TieHasTwoSides(NetOf(b), Bare(seeded), Winners(s.rows), t);
      BeatenStaysOut(NetOf(b), Bare(seeded), Winners(s.rows), t, u, side);
    }
  }

  ghost function StoredDecided(rows: Rows): set<TieId> {
    set t | t in rows && t != ThirdPlace && rows[t].winner.Some?
  }

  ghost function StoredBeaten(rows: Rows): set<int> {
    set t | t in StoredDecided(rows) && rows[t].Loser().Some? :: rows[t].Loser().value
  }

  lemma DecidedAreStored(net: Net, seeded: map<Seed, int>, rows: Rows)
    requires SoundNet(net) && DrawIsFair(net, Bare(seeded)) && Upheld(net, seeded, rows)
    ensures StoredDecided(rows) == Decided(net, Bare(seeded), Winners(rows))
    ensures StoredBeaten(rows) == Beaten(net, Bare(seeded), Winners(rows))
  {
    forall t | t in net
      ensures rows[t].winner == VictorOf(net, Bare(seeded), Winners(rows), t)
      ensures rows[t].Loser() == LoserOf(net, Bare(seeded), Winners(rows), t)
    {
      StoredIsVictor(net, seeded, rows, t);
    }
  }

  /** In every reachable state k decided bracket ties leave exactly k entrants beaten. */
  lemma StoredBooksBalance(b: Bracket, seeded: map<Seed, int>, s: CupState, last: TieId)
    requires b.WellFormed() && b.SingleFinal(last) && DrawIsFair(NetOf(b), Bare(seeded)) && Reachable(b, seeded, s)
    ensures |Entrants(NetOf(b), Bare(seeded))| == |BracketTies(NetOf(b))| + 1
    ensures |StoredBeaten(s.rows)| == |StoredDecided(s.rows)|
    ensures StoredBeaten(s.rows) <= Entrants(NetOf(b), Bare(seeded))
  {
    ReachableIsUpheld(b, seeded, s);
    NetRunsToOneFinal(b, last);
    DecidedAreStored(NetOf(b), seeded, s.rows);
    EntrantsAreTiesPlusOne(NetOf(b), Bare(seeded), last);
    BeatenAreDecided(NetOf(b), Bare(seeded), Winners(s.rows));
    BeatenEntered(NetOf(b), Bare(seeded), Winners(s.rows));
  }

  /** The winner of a decided Cup's last tie is the only entrant nobody has beaten. */
  lemma DecidedCupHasAChampion(net: Net, seeded: map<Seed, int>, rows: Rows, last: TieId)
    requires SoundNet(net) && DrawIsFair(net, Bare(seeded)) && Upheld(net, seeded, rows) && RunsToOneFinal(net, last)
    requires forall t :: t in BracketTies(net) ==> rows[t].winner.Some?
    ensures Entrants(net, Bare(seeded)) - StoredBeaten(rows) == {rows[last].winner.value}
  {
    DecidedAreStored(net, seeded, rows);
    assert StoredDecided(rows) == BracketTies(net);
    CupBooksBalance(net, Bare(seeded), Winners(rows), last);
    StoredIsVictor(net, seeded, rows, last);
  }

  /**
   A run that has come through the last round, whatever its calls, their figures and the lots,
   completes the Cup: as soon as no tie awaits a draw, every tie has a winner, and the final's is the
   only entrant nobody has beaten.
   */
  lemma FullRunCrownsAChampion(b: Bracket, seeded: map<Seed, int>, s: CupState, last: TieId, events: seq<Event>, s': CupState)
    requires b.WellFormed() && b.SingleFinal(last) && DrawIsFair(NetOf(b), Bare(seeded)) && Reachable(b, seeded, s)
    requires s' == Run(b, s, events) && Progress(b, s, events) == |b.rounds|
    requires forall t :: t in s'.rows ==> !s'.rows[t].AwaitsDraw()
    ensures s'.rows.Keys == NetOf(b).Keys && last in s'.rows
    ensures forall t :: t in BracketTies(NetOf(b)) ==> s'.rows[t].winner.Some?
    ensures s'.rows[last].winner.Some?
    ensures Entrants(NetOf(b), Bare(seeded)) - StoredBeaten(s'.rows) == {s'.rows[last].winner.value}
  {
    ReachableIsUpheld(b, seeded, s);
    NetRunsToOneFinal(b, last);
    FullRunDecides(b, seeded, s, events, s');
    DecidedCupHasAChampion(NetOf(b), seeded, s'.rows, last);
  }

  /** Every round advanced once, in order and each by figures of its own: that is enough. */
  lemma OnePassCrownsAChampion(b: Bracket, seeded: map<Seed, int>, s: CupState, last: TieId, events: seq<Event>, s': CupState)
    requires b.WellFormed() && b.SingleFinal(last) && DrawIsFair(NetOf(b), Bare(seeded)) && Reachable(b, seeded, s)
    requires OnePass(b, events) && |events| == |b.rounds|
    requires s' == Run(b, s, events) && forall t :: t in s'.rows ==> !s'.rows[t].AwaitsDraw()
    ensures last in s'.rows && s'.rows[last].winner.Some?
    ensures Entrants(NetOf(b), Bare(seeded)) - StoredBeaten(s'.rows) == {s'.rows[last].winner.value}
  {
    OnePassProgresses(b, s, events);
    FullRunCrownsAChampion(b, seeded, s, last, events, s');
  }

  // ----- Over steady figures -----

  /** A run over steady figures stores exactly the evaluation in all the rounds it has come to. */
  lemma SteadyRunIsEvaluated(b: Bracket, env: Env, s: CupState, events: seq<Event>, t: TieId, side: Side)
    requires b.WellFormed() && DrawIsFair(NetOf(b), env) && SteadilyReached(b, env, s) && Steady(events, env.figures)
    requires t in NetOf(b) && NetOf(b)[t].round < Progress(b, s, events)
    ensures SoundNet(NetOf(b)) && t in Run(b, s, events).rows
    ensures var after := Run(b, s, events);
            && after.rows[t].At(side) == HolderOf(NetOf(b), env, after.draws, t, side)
            && after.rows[t].winner == VictorOf(NetOf(b), env, after.draws, t)
            && after.rows[t].Loser() == LoserOf(NetOf(b), env, after.draws, t)
  {
    SteadyIsConsistent(b, env, s);
    ReachableIsUpheld(b, env.seeded, s);
    RunIsConsistent(b, env, s, events);
    RunCompletes(b, env.seeded, s, events);
    CompleteIsEvaluated(NetOf(b), env, Run(b, s, events), Progress(b, s, events), t);
  }

  lemma DecidedCupIsEvaluated(net: Net, env: Env, s: CupState, last: TieId)
    requires SoundNet(net) && DrawIsFair(net, env) && Consistent(net, env, s) && RunsToOneFinal(net, last)
    requires forall t :: t in BracketTies(net) ==> s.rows[t].winner.Some?
    ensures Entrants(net, env) - Beaten(net, env, s.draws) == {s.rows[last].winner.value}
  {
    forall t | t in BracketTies(net) ensures VictorOf(net, env, s.draws, t) == s.rows[t].winner {
      assert Agrees(net, env, s.draws, t, s.rows[t]);
    }
    assert Decided(net, env, s.draws) == BracketTies(net);
    CupBooksBalance(net, env, s.draws, last);
  }

  /** The rounds advanced in order are enough then, with any other calls before, between and after. */
  lemma InOrderPassCrownsAChampion(b: Bracket, env: Env, s: CupState, last: TieId, events: seq<Event>, at: seq<nat>,
                                   s': CupState)
    requires b.WellFormed() && b.SingleFinal(last) && DrawIsFair(NetOf(b), env) && SteadilyReached(b, env, s)
    requires Steady(events, env.figures) && forall e :: e in events ==> e.AdvanceCall?
    requires AdvancedInOrder(b, events, at) && |at| == |b.rounds|
    requires s' == Run(b, s, events) && forall t :: t in s'.rows ==> !s'.rows[t].AwaitsDraw()
    ensures last in s'.rows && s'.rows[last].winner.Some?
    ensures SoundNet(NetOf(b)) && s'.draws == s.draws
    ensures Entrants(NetOf(b), env) - Beaten(NetOf(b), env, s.draws) == {s'.rows[last].winner.value}
  {
    SteadyIsConsistent(b, env, s);
    ReachableIsUpheld(b, env.seeded, s);
    InOrderCallsProgress(b, env, s, events, at);
    CallsKeepDraws(b, s, events);
    FullRunCrownsAChampion(b, env.seeded, s, last, events, s');
    RunIsConsistent(b, env, s, events);
    NetRunsToOneFinal(b, last);
    DecidedCupIsEvaluated(NetOf(b), env, s', last);
  }

  // ----- When the draw succeeds -----

  /** The keys of the first `places` managers are pairwise different and different from the next one's. */
  ghost predicate TopSeparated(lines: seq<Line>, places: nat) {
    var order := Sort(lines, LineKey, true);
    && places <= |order|
    && (forall i, j :: 0 <= i < j < places ==> order[i].key != order[j].key)
    && (0 < places < |order| ==> order[places - 1].key != order[places].key)
  }

  /** Both published Cups can be drawn exactly when the top 18 of HIGH and the top 22 of LOW are separated. */
  lemma PublishedCupDrawsIff(high: seq<Line>, low: seq<Line>)
    ensures CupService.EveryPlaceFills(CupSeason1(), high, low) <==> TopSeparated(high, 18) && TopSeparated(low, 22)
    ensures CupService.EveryPlaceFills(CupSeason2(), high, low) <==> TopSeparated(high, 18) && TopSeparated(low, 22)
  {
    forall seed ensures (CupSeason1().Uses(seed) <==> SeedInTable(seed)) && (CupSeason2().Uses(seed) <==> SeedInTable(seed)) {
      PublishedSeeds(seed);
    }
    PublishedFillIff(CupSeason1(), high, low);
    PublishedFillIff(CupSeason2(), high, low);
  }

  lemma PublishedFillIff(b: Bracket, high: seq<Line>, low: seq<Line>)
    requires forall seed :: b.Uses(seed) <==> SeedInTable(seed)
    ensures CupService.EveryPlaceFills(b, high, low) <==> TopSeparated(high, 18) && TopSeparated(low, 22)
  {
    PlacesFillIff(high, 18);
    PlacesFillIff(low, 22);
    if CupService.EveryPlaceFills(b, high, low) {
      forall r | 1 <= r <= 18 ensures LinesAt(high, r) == 1 {
        assert b.Uses(Seed(High, r));
      }
      forall r | 1 <= r <= 22 ensures LinesAt(low, r) == 1 {
        assert b.Uses(Seed(Low, r));
      }
    }
  }
}
