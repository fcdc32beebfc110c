/**
 How far a run of a Cup has come: the rounds it has advanced leave nothing to hand on, and a run that
 has come through the last one has decided the Cup as soon as no draw is pending.
 */
module CupProgress {
  import opened Wrappers
  import opened CupBracket
  import opened CupEvaluation
  import opened CupNets
  import opened CupRun
  import CupAccounting

  // ----- Completeness -----

  /** The slot takes a winner or loser of a round before k. */
  ghost predicate FedBefore(net: Net, k: nat, t: TieId, side: Side) {
    && t in net && (net[t].At(side).Winning? || net[t].At(side).Losing?)
    && net[t].At(side).tie in net && net[net[t].At(side).tie].round < k
  }

  /** What the stored rows say of a source. */
  function ResultOf(rows: Rows, source: Source): Option<int> {
    match source
    case Winning(u) => if u in rows then rows[u].winner else None
    case Losing(u) => if u in rows then rows[u].Loser() else None
    case _ => None
  }

  /** What the rounds before k leave open awaits a draw, and everything they decided has been handed on. */
  ghost predicate CaughtUp(net: Net, rows: Rows, k: nat) {
    && rows.Keys == net.Keys
    && (forall t :: t in net && net[t].round < k && IsOpen(rows[t]) ==> rows[t].AwaitsDraw())
    && (forall t, side :: FedBefore(net, k, t, side) ==> rows[t].At(side) == ResultOf(rows, net[t].At(side)))
  }

  lemma SlotCatchesUp(net: Net, seeded: map<Seed, int>, rows: Rows, figures: Figures, k: nat, t: TieId, side: Side)
    requires SoundNet(net) && DrawIsFair(net, Bare(seeded)) && Upheld(net, seeded, rows) && CaughtUp(net, rows, k)
    requires FedBefore(net, k + 1, t, side)
    ensures var after := AdvanceRows(net, figures, rows, k); after[t].At(side) == ResultOf(after, net[t].At(side))
  {
    var settled, after := SettleRound(net, figures, rows, k), AdvanceRows(net, figures, rows, k);
    var u := net[t].At(side).tie;
    assert SourceIsEarlier(net, t, net[t].At(side));
    assert settled[t].At(side) == rows[t].At(side);
    assert net[u].round < k ==> FedBefore(net, k, t, side);
    if net[u].round == k && rows[t].At(side).Some? {
      assert Agrees(net, Bare(seeded), Winners(rows), t, rows[t]);
      StoredIsVictor(net, seeded, rows, u);
    }
  }

  /** Advancing the next round, over whatever figures, catches it up. */
  lemma RoundBecomesComplete(net: Net, seeded: map<Seed, int>, rows: Rows, figures: Figures, k: nat)
    requires SoundNet(net) && DrawIsFair(net, Bare(seeded)) && Upheld(net, seeded, rows) && CaughtUp(net, rows, k)
    ensures CaughtUp(net, AdvanceRows(net, figures, rows, k), k + 1)
  {
    var after := AdvanceRows(net, figures, rows, k);
    forall t | t in net && net[t].round < k + 1 && IsOpen(after[t]) ensures after[t].AwaitsDraw() {
      if net[t].round == k && IsOpen(rows[t]) {
        assert Agrees(net, Bare(seeded), Winners(rows), t, rows[t]);
        SidesDiffer(net, Bare(seeded), Winners(rows), t, rows[t]);
      }
    }
    forall t, side | FedBefore(net, k + 1, t, side) ensures after[t].At(side) == ResultOf(after, net[t].At(side)) {
      SlotCatchesUp(net, seeded, rows, figures, k, t, side);
    }
  }

  lemma NothingMoreDecided(net: Net, figures: Figures, rows: Rows, j: nat, u: TieId)
    requires u in net && u in rows
    requires net[u].round < j || Winners(AdvanceRows(net, figures, rows, j)) == Winners(rows)
    ensures SettleRound(net, figures, rows, j)[u].winner == rows[u].winner
    ensures SettleRound(net, figures, rows, j)[u].Loser() == rows[u].Loser()
  {
    var after := AdvanceRows(net, figures, rows, j);
    assert after[u].winner == SettleRound(net, figures, rows, j)[u].winner;
    assert u in Winners(after) <==> after[u].winner.Some?;
    assert u in Winners(rows) <==> rows[u].winner.Some?;
  }

  lemma FedSlotIsKept(net: Net, figures: Figures, rows: Rows, j: nat, k: nat, t: TieId, side: Side)
    requires CaughtUp(net, rows, k) && FedBefore(net, k, t, side)
    requires k <= j || Winners(AdvanceRows(net, figures, rows, j)) == Winners(rows)
    ensures var after := AdvanceRows(net, figures, rows, j);
            after[t].At(side) == rows[t].At(side)
  {
    NothingMoreDecided(net, figures, rows, j, net[t].At(side).tie);
    assert SettleRound(net, figures, rows, j)[t].At(side) == rows[t].At(side);
  }

  lemma EarlyTieIsKept(net: Net, figures: Figures, rows: Rows, j: nat, k: nat, t: TieId)
    requires Layered(net) && CaughtUp(net, rows, k) && t in net && net[t].round < k
    requires k <= j || Winners(AdvanceRows(net, figures, rows, j)) == Winners(rows)
    ensures var m := AdvanceRows(net, figures, rows, j)[t];
            m.a == rows[t].a && m.b == rows[t].b && m.winner == rows[t].winner && (IsOpen(m) ==> m.AwaitsDraw())
  {
    var settled, after := SettleRound(net, figures, rows, j), AdvanceRows(net, figures, rows, j);
    forall side ensures after[t].At(side) == rows[t].At(side) {
      assert SourceIsEarlier(net, t, net[t].At(side));
      if FedBefore(net, k, t, side) {
        FedSlotIsKept(net, figures, rows, j, k, t, side);
      }
      assert settled[t].At(side) == rows[t].At(side);
    }
    assert after[t].At(A) == rows[t].At(A) && after[t].At(B) == rows[t].At(B);
    NothingMoreDecided(net, figures, rows, j, t);
  }

  /** Advancing a later round, or a round in which nothing more is decided, leaves what was complete complete. */
  lemma AdvanceKeepsComplete(net: Net, figures: Figures, rows: Rows, j: nat, k: nat)
    requires Layered(net) && CaughtUp(net, rows, k)
    requires k <= j || Winners(AdvanceRows(net, figures, rows, j)) == Winners(rows)
    ensures CaughtUp(net, AdvanceRows(net, figures, rows, j), k)
  {
    var after := AdvanceRows(net, figures, rows, j);
    forall t | t in net && net[t].round < k && IsOpen(after[t]) ensures after[t].AwaitsDraw() {
      EarlyTieIsKept(net, figures, rows, j, k, t);
    }
    forall t, side | FedBefore(net, k, t, side) ensures after[t].At(side) == ResultOf(after, net[t].At(side)) {
      FedSlotIsKept(net, figures, rows, j, k, t, side);
      EarlyTieIsKept(net, figures, rows, j, k, net[t].At(side).tie);
    }
  }

  lemma LotsKeepComplete(net: Net, rows: Rows, t: TieId, manager: int, k: nat)
    requires CaughtUp(net, rows, k) && t in net
    ensures CaughtUp(net, RowsAfterLots(rows, t, manager), if net[t].round < k then net[t].round else k)
  {}

  // ----- How far a run has come -----

  /**
   The rounds complete after one more event: the next one once it is advanced, and back to a round
   that later figures or lots have decided more of, since what follows from that is not yet stored.
   */
  ghost function Onward(b: Bracket, s: CupState, k: nat, e: Event): nat {
    match e
    case AdvanceCall(gameweek, finalized, _) =>
      var j := b.RoundForGameweek(gameweek);
      if j.None? || !finalized || j.value > k then k
      else if j.value == k || Winners(After(b, s, e).rows) != Winners(s.rows) then j.value + 1
      else k
    case LotsDrawn(t, manager) =>
      if CanDraw(s.rows, t, manager) && t in NetOf(b) && NetOf(b)[t].round < k then NetOf(b)[t].round else k
  }

  ghost function Progress(b: Bracket, s: CupState, events: seq<Event>): (k: nat)
    ensures k <= |b.rounds|
  {
    if events == [] then 0
    else
      var before := events[..|events| - 1];
      Onward(b, Run(b, s, before), Progress(b, s, before), events[|events| - 1])
  }

  /** Upheld, and caught up in the rounds before k. */
  ghost predicate CompleteTo(net: Net, seeded: map<Seed, int>, rows: Rows, k: nat)
    requires Layered(net)
  {
    Upheld(net, seeded, rows) && CaughtUp(net, rows, k)
  }

  lemma AdvanceCompletes(net: Net, seeded: map<Seed, int>, rows: Rows, figures: Figures, j: nat, k: nat)
    requires SoundNet(net) && DrawIsFair(net, Bare(seeded)) && CompleteTo(net, seeded, rows, k)
    ensures var after := AdvanceRows(net, figures, rows, j);
            CaughtUp(net, after, if j == k || (j < k && Winners(after) != Winners(rows)) then j + 1 else k)
  {
    if j == k || (j < k && Winners(AdvanceRows(net, figures, rows, j)) != Winners(rows)) {
      assert CaughtUp(net, rows, j);
      RoundBecomesComplete(net, seeded, rows, figures, j);
    } else {
      AdvanceKeepsComplete(net, figures, rows, j, k);
    }
  }

  lemma EventCompletes(b: Bracket, seeded: map<Seed, int>, s: CupState, e: Event, k: nat)
    requires SoundNet(NetOf(b)) && DrawIsFair(NetOf(b), Bare(seeded)) && CompleteTo(NetOf(b), seeded, s.rows, k)
    ensures CaughtUp(NetOf(b), After(b, s, e).rows, Onward(b, s, k, e))
  {
    match e
    case AdvanceCall(gameweek, _, figures) =>
      var j := b.RoundForGameweek(gameweek);
      if j.Some? {
        AdvanceCompletes(NetOf(b), seeded, s.rows, figures, j.value, k);
      }
    case LotsDrawn(t, manager) =>
      if CanDraw(s.rows, t, manager) {
        LotsKeepComplete(NetOf(b), s.rows, t, manager, k);
      }
  }

  /**
   Whatever the calls, their figures and the lots, a run from any reachable state leaves nothing to
   hand on in all the rounds it has come to.
   */
  lemma {:induction false} RunCompletes(b: Bracket, seeded: map<Seed, int>, s: CupState, events: seq<Event>)
    requires SoundNet(NetOf(b)) && DrawIsFair(NetOf(b), Bare(seeded)) && Upheld(NetOf(b), seeded, s.rows)
    ensures CompleteTo(NetOf(b), seeded, Run(b, s, events).rows, Progress(b, s, events))
  {
    if events != [] {
      var before := events[..|events| - 1];
      RunCompletes(b, seeded, s, before);
      StepIsUpheld(b, seeded, Run(b, s, before), events[|events| - 1]);
      EventCompletes(b, seeded, Run(b, s, before), events[|events| - 1], Progress(b, s, before));
    }
  }

  /** Over steady figures, what is complete is exactly the evaluation. */
  lemma {:induction false} CompleteIsEvaluated(net: Net, env: Env, s: CupState, k: nat, t: TieId)
    requires SoundNet(net) && DrawIsFair(net, env) && Consistent(net, env, s) && CaughtUp(net, s.rows, k)
    requires t in net && net[t].round < k
    ensures forall side :: s.rows[t].At(side) == HolderOf(net, env, s.draws, t, side)
    ensures s.rows[t].winner == VictorOf(net, env, s.draws, t) && s.rows[t].Loser() == LoserOf(net, env, s.draws, t)
    decreases net[t].round
  {
    assert Agrees(net, env, s.draws, t, s.rows[t]);
    forall side ensures s.rows[t].At(side) == HolderOf(net, env, s.draws, t, side) {
      assert SourceIsEarlier(net, t, net[t].At(side));
      if net[t].At(side).Winning? || net[t].At(side).Losing? {
        assert FedBefore(net, k, t, side);
        CompleteIsEvaluated(net, env, s, k, net[t].At(side).tie);
      }
    }
    assert s.rows[t].At(A) == s.rows[t].a && s.rows[t].At(B) == s.rows[t].b;
    if s.rows[t].winner.Some? {
      StoredResultAgrees(net, env, s.draws, t, s.rows[t]);
    }
  }

  // ----- Runs that come through -----

  /** A Cup over steady figures decides nothing more in a round that is complete. */
  lemma SteadyCallDecidesNoMore(net: Net, env: Env, s: CupState, j: nat, k: nat)
    requires SoundNet(net) && DrawIsFair(net, env) && Consistent(net, env, s) && CaughtUp(net, s.rows, k) && j < k
    ensures Winners(AdvanceRows(net, env.figures, s.rows, j)) == Winners(s.rows)
  {
    var after := AdvanceRows(net, env.figures, s.rows, j);
    forall t | t in net ensures after[t].winner == s.rows[t].winner {
      assert Agrees(net, env, s.draws, t, s.rows[t]);
    }
  }

  ghost predicate Advances(b: Bracket, e: Event, k: nat) {
    k < |b.rounds| && e.AdvanceCall? && e.gameweek == b.rounds[k].gameweek && e.finalized
  }

  /** The calls that advance the first rounds stand in this order among the events. */
  ghost predicate AdvancedInOrder(b: Bracket, events: seq<Event>, at: seq<nat>) {
    && |at| <= |b.rounds|
    && (forall i, j :: 0 <= i < j < |at| ==> at[i] < at[j])
    && (forall k :: 0 <= k < |at| ==> at[k] < |events| && Advances(b, events[at[k]], k))
  }

  /** No call but these. */
  ghost predicate OnePass(b: Bracket, events: seq<Event>) {
    |events| <= |b.rounds| && forall k :: 0 <= k < |events| ==> Advances(b, events[k], k)
  }

  /** One pass over the rounds comes through all of them, whatever figures each call sees. */
  lemma {:induction false} OnePassProgresses(b: Bracket, s: CupState, events: seq<Event>)
    requires b.OrdersAndGameweeks() && OnePass(b, events)
    ensures Progress(b, s, events) == |events|
  {
    if events != [] {
      OnePassProgresses(b, s, events[..|events| - 1]);
    }
  }

  lemma SteadyOnward(b: Bracket, env: Env, s: CupState, before: seq<Event>, e: Event)
    requires b.WellFormed() && SoundNet(NetOf(b)) && DrawIsFair(NetOf(b), env)
    requires Consistent(NetOf(b), env, s) && Upheld(NetOf(b), env.seeded, s.rows)
    requires Steady(before, env.figures) && e.AdvanceCall? && e.figures == env.figures
    ensures Progress(b, s, before + [e]) >= Progress(b, s, before)
    ensures forall i :: 0 <= i < |b.rounds| && Advances(b, e, i) && i <= Progress(b, s, before) ==>
              Progress(b, s, before + [e]) > i
  {
    RunIsConsistent(b, env, s, before);
    RunCompletes(b, env.seeded, s, before);
    var j := b.RoundForGameweek(e.gameweek);
    if j.Some? && j.value < Progress(b, s, before) {
      SteadyCallDecidesNoMore(NetOf(b), env, Run(b, s, before), j.value, Progress(b, s, before));
    }
    forall i | 0 <= i < |b.rounds| && Advances(b, e, i) ensures j == Some(i) {}
    assert (before + [e])[..|before|] == before;
  }

  /** Over steady figures it is enough that the rounds are advanced in order among the calls. */
  lemma {:induction false} InOrderCallsProgress(b: Bracket, env: Env, s: CupState, events: seq<Event>, at: seq<nat>)
    requires b.WellFormed() && SoundNet(NetOf(b)) && DrawIsFair(NetOf(b), env)
    requires Consistent(NetOf(b), env, s) && Upheld(NetOf(b), env.seeded, s.rows)
    requires Steady(events, env.figures) && AdvancedInOrder(b, events, at) && forall e :: e in events ==> e.AdvanceCall?
    ensures Progress(b, s, events) >= |at|
    decreases |events|
  {
    if events != [] {
      var last := |events| - 1;
      var before, e := events[..last], events[last];
      assert events == before + [e];
      assert forall k :: 0 <= k < |at| ==> at[k] <= at[|at| - 1];
      SteadyOnward(b, env, s, before, e);
      if at != [] && at[|at| - 1] == last {
        InOrderCallsProgress(b, env, s, before, at[..|at| - 1]);
        assert Advances(b, e, |at| - 1);
      } else {
        InOrderCallsProgress(b, env, s, before, at);
      }
    }
  }

  lemma {:induction false} CallsKeepDraws(b: Bracket, s: CupState, events: seq<Event>)
    requires forall e :: e in events ==> e.AdvanceCall?
    ensures Run(b, s, events).draws == s.draws
  {
    if events != [] {
      assert forall e :: e in events[..|events| - 1] ==> e in events;
      CallsKeepDraws(b, s, events[..|events| - 1]);
    }
  }

  /** Where everything is handed on and no draw is pending, every bracket tie has a winner. */
  lemma {:induction false} NothingPendingDecides(net: Net, seeded: map<Seed, int>, rows: Rows, k: nat, t: TieId)
    requires SoundNet(net) && DrawIsFair(net, Bare(seeded)) && CompleteTo(net, seeded, rows, k)
    requires forall u :: u in net ==> net[u].round < k && !rows[u].AwaitsDraw()
    requires t in net && t != ThirdPlace
    ensures rows[t].winner.Some?
    decreases net[t].round
  {
    assert Agrees(net, Bare(seeded), Winners(rows), t, rows[t]);
    forall side ensures rows[t].At(side).Some? {
      assert SourceIsEarlier(net, t, net[t].At(side));
      if net[t].At(side).Winning? {
        assert FedBefore(net, k, t, side);
        NothingPendingDecides(net, seeded, rows, k, net[t].At(side).tie);
      } else {
        assert net[t].At(side).seed in seeded;
      }
    }
    assert rows[t].At(A).Some? && rows[t].At(B).Some?;
  }

  /** A run through the last round has decided the Cup once no tie awaits a draw. */
  lemma FullRunDecides(b: Bracket, seeded: map<Seed, int>, s: CupState, events: seq<Event>, s': CupState)
    requires b.WellFormed() && SoundNet(NetOf(b)) && DrawIsFair(NetOf(b), Bare(seeded)) && Upheld(NetOf(b), seeded, s.rows)
    requires s' == Run(b, s, events) && Progress(b, s, events) == |b.rounds|
    requires forall t :: t in s'.rows ==> !s'.rows[t].AwaitsDraw()
    ensures Upheld(NetOf(b), seeded, s'.rows)
    ensures forall t :: t in CupAccounting.BracketTies(NetOf(b)) ==> s'.rows[t].winner.Some?
  {
    RunCompletes(b, seeded, s, events);
    RoundsOfNet(b);
    forall t | t in CupAccounting.BracketTies(NetOf(b)) ensures s'.rows[t].winner.Some? {
      NothingPendingDecides(NetOf(b), seeded, s'.rows, |b.rounds|, t);
    }
  }
}
