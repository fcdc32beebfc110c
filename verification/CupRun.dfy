/**
 The stored Cup as a state machine: rounds are advanced in any order and any number of times, each
 call with the figures of its moment, and an administrator draws lots for level ties.

 Whatever the figures, a stored Cup is one that lots could have produced: every reachable state is
 a partial copy of the evaluation of the bracket without figures, its stored winners taken as lots.
 Over steady figures it is a partial copy of the evaluation under those figures.
 */
module CupRun {
  import opened Wrappers
  import opened Rankings
  import opened CupResolution
  import opened CupBracket
  import opened CupEvaluation
  import opened CupNets

  datatype MatchStatus = Scheduled | Provisional | Settled

  datatype CupMatch = CupMatch(a: Option<int>, b: Option<int>, scoreA: Option<int>, scoreB: Option<int>,
                               winner: Option<int>, step: Option<Step>, status: MatchStatus)
  {
    function At(side: Side): Option<int> {
      if side == A then a else b
    }

    function OtherSide(manager: int): Option<int> {
      if a == Some(manager) then b else a
    }

    function Loser(): Option<int> {
      if winner.None? then None else OtherSide(winner.value)
    }

    predicate AwaitsDraw() {
      status == Provisional && winner.None? && a.Some? && b.Some?
    }
  }

  type Rows = map<TieId, CupMatch>

  // ----- One call of `advance`, tie by tie -----

  /** Both managers are known and nobody has won. */
  predicate IsOpen(m: CupMatch) {
    m.a.Some? && m.b.Some? && m.winner.None?
  }

  /** A tie of the round being settled. */
  function Settle(figures: Figures, gameweek: int, m: CupMatch): CupMatch {
    if m.winner.Some? || m.a.None? || m.b.None? then m
    else
      match Play(figures, gameweek, m.a.value, m.b.value)
      case Err(_) => m
      case Ok(r) =>
        if r.requiresAdminDraw then m.(status := Provisional, step := Some(r.step))
        else CupMatch(m.a, m.b, Some(ScoreOf(figures, gameweek, m.a.value)), Some(ScoreOf(figures, gameweek, m.b.value)),
                      r.winner, Some(r.step), Settled)
  }

  /** A slot of a later round, given the settled ties of round k. */
  function Fill(net: Net, settled: Rows, k: nat, current: Option<int>, source: Source): Option<int> {
    if current.Some? then current
    else match source
      case Winning(u) => if u in net && net[u].round == k && u in settled then settled[u].winner else None
      case Losing(u) => if u in net && net[u].round == k && u in settled then settled[u].Loser() else None
      case _ => None
  }

  function SettleRound(net: Net, figures: Figures, rows: Rows, k: nat): Rows {
    map t | t in rows :: if t in net && net[t].round == k then Settle(figures, net[t].gameweek, rows[t]) else rows[t]
  }

  function FillLaterRounds(net: Net, settled: Rows, k: nat): Rows {
    map t | t in settled ::
      if t in net && net[t].round > k
      then settled[t].(a := Fill(net, settled, k, settled[t].a, net[t].first),
                       b := Fill(net, settled, k, settled[t].b, net[t].second))
      else settled[t]
  }

  function AdvanceRows(net: Net, figures: Figures, rows: Rows, k: nat): Rows {
    FillLaterRounds(net, SettleRound(net, figures, rows, k), k)
  }

  /** The tree as the draw writes it: entry slots filled, everything else open. */
  function DrawnRows(net: Net, seeded: map<Seed, int>): Rows {
    map t | t in net ::
      CupMatch(Entrant(seeded, net[t].first), Entrant(seeded, net[t].second), None, None, None, None, Scheduled)
  }

  function Entrant(seeded: map<Seed, int>, source: Source): Option<int> {
    if source.PlaceOf? && source.seed in seeded then Some(seeded[source.seed]) else None
  }

  // ----- Runs -----

  datatype CupState = CupState(rows: Rows, draws: Draws)

  /** Each call reads the figures afresh. */
  datatype Event =
    | AdvanceCall(gameweek: int, finalized: bool, figures: Figures)
    | LotsDrawn(tie: TieId, manager: int)

  predicate CanDraw(rows: Rows, t: TieId, manager: int) {
    t in rows && rows[t].AwaitsDraw() && (rows[t].a == Some(manager) || rows[t].b == Some(manager))
  }

  function RowsAfterLots(rows: Rows, t: TieId, manager: int): Rows
    requires t in rows
  {
    rows[t := rows[t].(winner := Some(manager))]
  }

  ghost function After(b: Bracket, s: CupState, e: Event): CupState {
    match e
    case AdvanceCall(gameweek, finalized, figures) =>
      var k := b.RoundForGameweek(gameweek);
      if k.None? || !finalized then s else s.(rows := AdvanceRows(NetOf(b), figures, s.rows, k.value))
    case LotsDrawn(t, manager) =>
      if !CanDraw(s.rows, t, manager) then s
      else CupState(RowsAfterLots(s.rows, t, manager), s.draws[t := manager])
  }

  ghost function Run(b: Bracket, s: CupState, events: seq<Event>): CupState {
    if events == [] then s
    else After(b, Run(b, s, events[..|events| - 1]), events[|events| - 1])
  }

  ghost function Drawn(b: Bracket, seeded: map<Seed, int>): CupState {
    CupState(DrawnRows(NetOf(b), seeded), map[])
  }

  /** All the calls see these figures. */
  ghost predicate Steady(events: seq<Event>, figures: Figures) {
    forall e :: e in events && e.AdvanceCall? ==> e.figures == figures
  }

  // ----- What every reachable state keeps -----

  ghost predicate SlotAgrees(net: Net, env: Env, draws: Draws, t: TieId, side: Side, stored: Option<int>)
    requires Layered(net) && t in net
  {
    stored.Some? || net[t].At(side).PlaceOf? ==> stored == HolderOf(net, env, draws, t, side)
  }

  /** A stored tie says nothing but what the evaluation says. */
  ghost predicate Agrees(net: Net, env: Env, draws: Draws, t: TieId, m: CupMatch)
    requires Layered(net) && t in net
  {
    && SlotAgrees(net, env, draws, t, A, m.a)
    && SlotAgrees(net, env, draws, t, B, m.b)
    && (m.winner.Some? ==> m.a.Some? && m.b.Some? && m.winner == VictorOf(net, env, draws, t))
    && (m.status == Provisional ==>
          m.a.Some? && m.b.Some? && Play(env.figures, net[t].gameweek, m.a.value, m.b.value).Ok? &&
          Play(env.figures, net[t].gameweek, m.a.value, m.b.value).value.requiresAdminDraw)
    && (m.status == Settled ==> m.winner.Some?)
    && (t in draws ==> m.winner == Some(draws[t]))
  }

  ghost predicate Consistent(net: Net, env: Env, s: CupState)
    requires Layered(net)
  {
    && s.rows.Keys == net.Keys
    && s.draws.Keys <= net.Keys
    && forall t {:trigger Agrees(net, env, s.draws, t, s.rows[t])} :: t in net ==> Agrees(net, env, s.draws, t, s.rows[t])
  }

  lemma DrawnIsConsistent(net: Net, env: Env)
    requires SoundNet(net) && DrawIsFair(net, env)
    ensures Consistent(net, env, CupState(DrawnRows(net, env.seeded), map[]))
  {}

  /** A tie that is played has two different managers: nobody is ever asked to play himself. */
  lemma SidesDiffer(net: Net, env: Env, draws: Draws, t: TieId, m: CupMatch)
    requires SoundNet(net) && DrawIsFair(net, env) && t in net && Agrees(net, env, draws, t, m)
    requires m.a.Some? && m.b.Some?
    ensures m.a != m.b
    ensures forall figures :: Play(figures, net[t].gameweek, m.a.value, m.b.value).Ok?
  {
    OneTiePerRound(net, env, draws, t, A, t, B);
  }

  /** A stored winner and loser are those of the evaluation. */
  lemma StoredResultAgrees(net: Net, env: Env, draws: Draws, t: TieId, m: CupMatch)
    requires SoundNet(net) && t in net && Agrees(net, env, draws, t, m) && m.winner.Some?
    ensures m.winner == VictorOf(net, env, draws, t) && m.Loser() == LoserOf(net, env, draws, t)
  {}

  lemma ConsistentIsEvaluated(net: Net, env: Env, s: CupState, t: TieId)
    requires SoundNet(net) && Consistent(net, env, s) && t in net
    ensures forall side :: s.rows[t].At(side).Some? ==> s.rows[t].At(side) == HolderOf(net, env, s.draws, t, side)
    ensures s.rows[t].winner.Some? ==>
              s.rows[t].winner == VictorOf(net, env, s.draws, t) && s.rows[t].Loser() == LoserOf(net, env, s.draws, t)
  {
    assert Agrees(net, env, s.draws, t, s.rows[t]);
    if s.rows[t].winner.Some? {
      StoredResultAgrees(net, env, s.draws, t, s.rows[t]);
    }
  }

  lemma FillAgrees(net: Net, env: Env, s: CupState, k: nat, t: TieId, side: Side)
    requires SoundNet(net) && DrawIsFair(net, env) && Consistent(net, env, s) && t in net
    ensures var filled := Fill(net, s.rows, k, s.rows[t].At(side), net[t].At(side));
            SlotAgrees(net, env, s.draws, t, side, filled)
  {
    assert SourceIsEarlier(net, t, net[t].At(side));
    assert Agrees(net, env, s.draws, t, s.rows[t]);
    if (net[t].At(side).Winning? || net[t].At(side).Losing?) && s.rows[net[t].At(side).tie].winner.Some? {
      StoredResultAgrees(net, env, s.draws, net[t].At(side).tie, s.rows[net[t].At(side).tie]);
    }
  }

  lemma FillLaterRoundsIsConsistent(net: Net, env: Env, s: CupState, k: nat)
    requires SoundNet(net) && DrawIsFair(net, env) && Consistent(net, env, s)
    ensures Consistent(net, env, s.(rows := FillLaterRounds(net, s.rows, k)))
  {
    forall t | t in net ensures Agrees(net, env, s.draws, t, FillLaterRounds(net, s.rows, k)[t]) {
      FillAgrees(net, env, s, k, t, A);
      FillAgrees(net, env, s, k, t, B);
      assert Agrees(net, env, s.draws, t, s.rows[t]);
    }
  }

  lemma AdvanceIsConsistent(net: Net, env: Env, s: CupState, k: nat)
    requires SoundNet(net) && DrawIsFair(net, env) && Consistent(net, env, s)
    ensures Consistent(net, env, s.(rows := AdvanceRows(net, env.figures, s.rows, k)))
  {
    forall t | t in net ensures Agrees(net, env, s.draws, t, SettleRound(net, env.figures, s.rows, k)[t]) {
      if s.rows[t].winner.None? && s.rows[t].a.Some? && s.rows[t].b.Some? {
        SidesDiffer(net, env, s.draws, t, s.rows[t]);
      }
    }
    FillLaterRoundsIsConsistent(net, env, s.(rows := SettleRound(net, env.figures, s.rows, k)), k);
  }

  ghost predicate Extends(draws: Draws, more: Draws) {
    forall t :: t in draws ==> t in more && more[t] == draws[t]
  }

  /** Drawing lots for further ties adds to the evaluation and changes nothing in it. */
  lemma {:induction false} DrawOnlyAdds(net: Net, env: Env, draws: Draws, more: Draws, u: TieId)
    requires Layered(net) && u in net && Extends(draws, more)
    ensures forall side :: HolderOf(net, env, draws, u, side).Some? ==>
              HolderOf(net, env, more, u, side) == HolderOf(net, env, draws, u, side)
    ensures VictorOf(net, env, draws, u).Some? ==> VictorOf(net, env, more, u) == VictorOf(net, env, draws, u)
    ensures LoserOf(net, env, draws, u).Some? ==> LoserOf(net, env, more, u) == LoserOf(net, env, draws, u)
    decreases net[u].round
  {
    forall side | HolderOf(net, env, draws, u, side).Some?
      ensures HolderOf(net, env, more, u, side) == HolderOf(net, env, draws, u, side)
    {
      assert SourceIsEarlier(net, u, net[u].At(side));
      if net[u].At(side).Winning? || net[u].At(side).Losing? {
        DrawOnlyAdds(net, env, draws, more, net[u].At(side).tie);
      }
    }
  }

  lemma AgreementSurvivesDraw(net: Net, env: Env, draws: Draws, more: Draws, u: TieId, m: CupMatch)
    requires SoundNet(net) && DrawIsFair(net, env) && u in net && Agrees(net, env, draws, u, m)
    requires Extends(draws, more) && (u in more ==> m.winner == Some(more[u]))
    ensures Agrees(net, env, more, u, m)
  {
    DrawOnlyAdds(net, env, draws, more, u);
    forall side | net[u].At(side).PlaceOf?
      ensures HolderOf(net, env, more, u, side) == HolderOf(net, env, draws, u, side)
    {
      assert net[u].At(side).seed in env.seeded;
    }
  }

  lemma LotsAreConsistent(net: Net, env: Env, s: CupState, t: TieId, manager: int)
    requires SoundNet(net) && DrawIsFair(net, env) && Consistent(net, env, s) && CanDraw(s.rows, t, manager)
    ensures Consistent(net, env, CupState(RowsAfterLots(s.rows, t, manager), s.draws[t := manager]))
  {
    forall u | u in net ensures Agrees(net, env, s.draws[t := manager], u, RowsAfterLots(s.rows, t, manager)[u]) {
      var draws' := s.draws[t := manager];
      assert Agrees(net, env, s.draws, t, s.rows[t]);
      DrawOnlyAdds(net, env, s.draws, draws', t);
      assert HolderOf(net, env, draws', t, A) == s.rows[t].a && HolderOf(net, env, draws', t, B) == s.rows[t].b;
      if u != t {
        AgreementSurvivesDraw(net, env, s.draws, draws', u, s.rows[u]);
      }
    }
  }

  /** Over steady figures every reachable state is consistent with the evaluation under the lots drawn so far. */
  lemma {:induction false} RunIsConsistent(b: Bracket, env: Env, s: CupState, events: seq<Event>)
    requires b.WellFormed() && SoundNet(NetOf(b)) && DrawIsFair(NetOf(b), env)
    requires Consistent(NetOf(b), env, s) && Steady(events, env.figures)
    ensures Consistent(NetOf(b), env, Run(b, s, events))
  {
    if events != [] {
      assert events == events[..|events| - 1] + [events[|events| - 1]];
      RunIsConsistent(b, env, s, events[..|events| - 1]);
      StepIsConsistent(b, env, Run(b, s, events[..|events| - 1]), events[|events| - 1]);
    }
  }

  lemma StepIsConsistent(b: Bracket, env: Env, s: CupState, e: Event)
    requires b.WellFormed() && SoundNet(NetOf(b)) && DrawIsFair(NetOf(b), env) && Consistent(NetOf(b), env, s)
    requires e.AdvanceCall? ==> e.figures == env.figures
    ensures Consistent(NetOf(b), env, After(b, s, e))
  {
    match e
    case AdvanceCall(gameweek, finalized, _) =>
      var k := b.RoundForGameweek(gameweek);
      if k.Some? {
        AdvanceIsConsistent(NetOf(b), env, s, k.value);
      }
    case LotsDrawn(t, manager) =>
      if CanDraw(s.rows, t, manager) {
        LotsAreConsistent(NetOf(b), env, s, t, manager);
      }
  }

  // ----- Whatever the figures -----

  /** The stored winners, as lots that would have decided their ties. */
  function Winners(rows: Rows): Draws {
    map t | t in rows && rows[t].winner.Some? :: rows[t].winner.value
  }

  function AsLots(rows: Rows): CupState {
    CupState(rows, Winners(rows))
  }

  /** What is stored is what the bracket alone makes of the stored winners. */
  ghost predicate Upheld(net: Net, seeded: map<Seed, int>, rows: Rows)
    requires Layered(net)
  {
    Consistent(net, Bare(seeded), AsLots(rows))
  }

  /** A tie without a stored winner has none in the evaluation either. */
  lemma StoredIsVictor(net: Net, seeded: map<Seed, int>, rows: Rows, t: TieId)
    requires SoundNet(net) && DrawIsFair(net, Bare(seeded)) && Upheld(net, seeded, rows) && t in net
    ensures rows[t].winner == VictorOf(net, Bare(seeded), Winners(rows), t)
    ensures rows[t].Loser() == LoserOf(net, Bare(seeded), Winners(rows), t)
  {
    var env, won := Bare(seeded), Winners(rows);
    assert Agrees(net, env, won, t, rows[t]);
    if rows[t].winner.Some? {
      StoredResultAgrees(net, env, won, t, rows[t]);
    } else {
      var a, b := HolderOf(net, env, won, t, A), HolderOf(net, env, won, t, B);
      if a.Some? && b.Some? && a != b {
        LevelWithoutFigures(net[t].gameweek, a.value, b.value);
      }
    }
  }

  lemma SettledTieIsUpheld(net: Net, seeded: map<Seed, int>, rows: Rows, figures: Figures, k: nat, t: TieId)
    requires SoundNet(net) && DrawIsFair(net, Bare(seeded)) && Upheld(net, seeded, rows) && t in net
    ensures var settled := SettleRound(net, figures, rows, k);
            Agrees(net, Bare(seeded), Winners(settled), t, settled[t])
  {
    var env, settled := Bare(seeded), SettleRound(net, figures, rows, k);
    var won, more := Winners(rows), Winners(settled);
    assert Agrees(net, env, won, t, rows[t]);
    if net[t].round == k && IsOpen(rows[t]) {
      SidesDiffer(net, env, won, t, rows[t]);
      LevelWithoutFigures(net[t].gameweek, rows[t].a.value, rows[t].b.value);
      DrawOnlyAdds(net, env, won, more, t);
    } else {
      AgreementSurvivesDraw(net, env, won, more, t, rows[t]);
    }
  }

  lemma FillingKeepsWinners(net: Net, settled: Rows, k: nat)
    ensures Winners(FillLaterRounds(net, settled, k)) == Winners(settled)
  {}

  /** Advancing a round over whatever figures decides ties as lots might have. */
  lemma AdvanceIsUpheld(net: Net, seeded: map<Seed, int>, rows: Rows, figures: Figures, k: nat)
    requires SoundNet(net) && DrawIsFair(net, Bare(seeded)) && Upheld(net, seeded, rows)
    ensures Upheld(net, seeded, AdvanceRows(net, figures, rows, k))
  {
    var settled := SettleRound(net, figures, rows, k);
    assert Upheld(net, seeded, settled) by {
      forall t | t in net ensures Agrees(net, Bare(seeded), Winners(settled), t, settled[t]) {
        SettledTieIsUpheld(net, seeded, rows, figures, k, t);
      }
    }
    FillLaterRoundsIsConsistent(net, Bare(seeded), AsLots(settled), k);
    FillingKeepsWinners(net, settled, k);
  }

  lemma LotsAreUpheld(net: Net, seeded: map<Seed, int>, rows: Rows, t: TieId, manager: int)
    requires SoundNet(net) && DrawIsFair(net, Bare(seeded)) && Upheld(net, seeded, rows) && CanDraw(rows, t, manager)
    ensures Upheld(net, seeded, RowsAfterLots(rows, t, manager))
  {
    assert Winners(RowsAfterLots(rows, t, manager)) == Winners(rows)[t := manager];
    LotsAreConsistent(net, Bare(seeded), AsLots(rows), t, manager);
  }

  lemma DrawnIsUpheld(net: Net, seeded: map<Seed, int>)
    requires SoundNet(net) && DrawIsFair(net, Bare(seeded))
    ensures Upheld(net, seeded, DrawnRows(net, seeded))
  {
    DrawnIsConsistent(net, Bare(seeded));
    assert AsLots(DrawnRows(net, seeded)) == CupState(DrawnRows(net, seeded), map[]);
  }

  lemma StepIsUpheld(b: Bracket, seeded: map<Seed, int>, s: CupState, e: Event)
    requires SoundNet(NetOf(b)) && DrawIsFair(NetOf(b), Bare(seeded)) && Upheld(NetOf(b), seeded, s.rows)
    ensures Upheld(NetOf(b), seeded, After(b, s, e).rows)
  {
    match e
    case AdvanceCall(gameweek, _, figures) =>
      var k := b.RoundForGameweek(gameweek);
      if k.Some? {
        AdvanceIsUpheld(NetOf(b), seeded, s.rows, figures, k.value);
      }
    case LotsDrawn(t, manager) =>
      if CanDraw(s.rows, t, manager) {
        LotsAreUpheld(NetOf(b), seeded, s.rows, t, manager);
      }
  }

  /** Every run, each call over figures of its own, stores a Cup that lots could have produced. */
  lemma {:induction false} RunIsUpheld(b: Bracket, seeded: map<Seed, int>, s: CupState, events: seq<Event>)
    requires SoundNet(NetOf(b)) && DrawIsFair(NetOf(b), Bare(seeded)) && Upheld(NetOf(b), seeded, s.rows)
    ensures Upheld(NetOf(b), seeded, Run(b, s, events).rows)
  {
    if events != [] {
      RunIsUpheld(b, seeded, s, events[..|events| - 1]);
      StepIsUpheld(b, seeded, Run(b, s, events[..|events| - 1]), events[|events| - 1]);
    }
  }

  /** Later figures settle a tie that awaits a draw exactly when they separate its two sides. */
  lemma AwaitedTieSettlesIff(figures: Figures, gameweek: int, m: CupMatch)
    requires m.AwaitsDraw() && m.a != m.b
    ensures Settle(figures, gameweek, m).winner.Some? <==>
            EntryOf(figures, gameweek, m.a.value).RankKey() != EntryOf(figures, gameweek, m.b.value).RankKey()
  {
    var first, second := EntryOf(figures, gameweek, m.a.value), EntryOf(figures, gameweek, m.b.value);
    ResolutionAgreesWithRanking(first, second, [first, second]);
  }

  // ----- Nothing decided ever changes -----

  ghost predicate Preserves(rows: Rows, later: Rows) {
    && rows.Keys == later.Keys
    && forall t :: t in rows ==>
         && (forall side :: rows[t].At(side).Some? ==> later[t].At(side) == rows[t].At(side))
         && (rows[t].winner.Some? ==> later[t].winner == rows[t].winner)
         && (rows[t].status == Settled && rows[t].winner.Some? && rows[t].a.Some? && rows[t].b.Some? ==> later[t] == rows[t])
  }

  lemma AdvancePreserves(net: Net, figures: Figures, rows: Rows, k: nat)
    ensures Preserves(rows, AdvanceRows(net, figures, rows, k))
  {
    var settled, later := SettleRound(net, figures, rows, k), AdvanceRows(net, figures, rows, k);
    forall t | t in rows
      ensures (forall side :: rows[t].At(side).Some? ==> later[t].At(side) == rows[t].At(side))
      ensures rows[t].winner.Some? ==> later[t].winner == rows[t].winner
      ensures rows[t].winner.Some? && rows[t].a.Some? && rows[t].b.Some? ==> later[t] == rows[t]
    {
      assert settled[t].At(A) == rows[t].At(A) && settled[t].At(B) == rows[t].At(B);
      assert rows[t].At(A).Some? ==> later[t].At(A) == rows[t].At(A);
      assert rows[t].At(B).Some? ==> later[t].At(B) == rows[t].At(B);
    }
  }

  /** Once a slot is filled, a winner stored or a result settled, no later call changes it, whatever its figures. */
  lemma {:induction false} RunPreserves(b: Bracket, s: CupState, events: seq<Event>)
    ensures Preserves(s.rows, Run(b, s, events).rows)
  {
    if events != [] {
      var before, e := Run(b, s, events[..|events| - 1]), events[|events| - 1];
      RunPreserves(b, s, events[..|events| - 1]);
      if e.AdvanceCall? && b.RoundForGameweek(e.gameweek).Some? {
        AdvancePreserves(NetOf(b), e.figures, before.rows, b.RoundForGameweek(e.gameweek).value);
      }
      assert forall t :: t in s.rows ==> forall side ::
        s.rows[t].At(side).Some? ==> before.rows[t].At(side) == s.rows[t].At(side);
    }
  }

  // ----- Repeating a call -----

  /** Advancing a round twice over the same figures is advancing it once. */
  lemma AdvanceTwice(net: Net, figures: Figures, rows: Rows, k: nat)
    requires rows.Keys == net.Keys
    ensures AdvanceRows(net, figures, AdvanceRows(net, figures, rows, k), k) == AdvanceRows(net, figures, rows, k)
  {
    var settled := SettleRound(net, figures, rows, k);
    var once := AdvanceRows(net, figures, rows, k);
    var again := SettleRound(net, figures, once, k);
    forall t | t in net ensures again[t] == once[t] {}
    forall t | t in net && net[t].round == k ensures again[t] == settled[t] {}
    assert again == once;
    forall t | t in net ensures AdvanceRows(net, figures, once, k)[t] == once[t] {}
  }
}
