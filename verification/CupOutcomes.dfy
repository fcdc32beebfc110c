/** What the figures of a call decide: the winner of an open tie, read off points and facts alone. */
module CupOutcomes {
  import opened Wrappers
  import opened Rankings
  import opened CupResolution
  import opened CupBracket
  import opened CupEvaluation
  import opened CupNets
  import opened CupRun
  import opened CupTheorems

  /** What a manager goes into a tie with. */
  datatype Form = Form(points: int, facts: TieBreakFacts)

  /** A manager the figures leave out has no points and no facts. */
  ghost predicate HasForm(figures: Figures, gameweek: int, manager: int, form: Form) {
    && form.points == (if gameweek in figures.scores && manager in figures.scores[gameweek]
                       then figures.scores[gameweek][manager] else 0)
    && form.facts == (if gameweek in figures.facts && manager in figures.facts[gameweek]
                      then figures.facts[gameweek][manager] else TieBreakFacts(0, 0, 0, 0, 0))
  }

  ghost predicate WonBy(m: CupMatch, manager: int, step: Step) {
    m.winner == Some(manager) && m.step == Some(step) && m.status == Settled
  }

  /** More points win; then the first fact that differs, fewer cards being better; then nobody does. */
  ghost predicate Decided(m: CupMatch, a: int, f: Form, b: int, g: Form) {
    if f.points != g.points then WonBy(m, if f.points > g.points then a else b, MatchScore)
    else if f.facts.totwCount != g.facts.totwCount then WonBy(m, if f.facts.totwCount > g.facts.totwCount then a else b, TotwCount)
    else if f.facts.captainPoints != g.facts.captainPoints
    then WonBy(m, if f.facts.captainPoints > g.facts.captainPoints then a else b, CaptainPoints)
    else if f.facts.goals != g.facts.goals then WonBy(m, if f.facts.goals > g.facts.goals then a else b, Goals)
    else if f.facts.cards != g.facts.cards then WonBy(m, if f.facts.cards < g.facts.cards then a else b, FewerCards)
    else if f.facts.classicPoints != g.facts.classicPoints
    then WonBy(m, if f.facts.classicPoints > g.facts.classicPoints then a else b, ClassicPoints)
    else m.winner.None? && m.step == Some(AdminDraw) && m.status == Provisional
  }

  /** The chain of six comparisons, one after the other. */
  lemma SixComparisons(cs: seq<Comparison>)
    requires |cs| == 6
    ensures FirstSeparating(cs) ==
            if cs[0].first != cs[0].second then FirstSeparating([cs[0]])
            else if cs[1].first != cs[1].second then FirstSeparating([cs[1]])
            else if cs[2].first != cs[2].second then FirstSeparating([cs[2]])
            else if cs[3].first != cs[3].second then FirstSeparating([cs[3]])
            else if cs[4].first != cs[4].second then FirstSeparating([cs[4]])
            else FirstSeparating([cs[5]])
  {
    assert cs[1..][1..] == cs[2..] && cs[2..][1..] == cs[3..] && cs[3..][1..] == cs[4..] && cs[4..][1..] == cs[5..];
    assert cs[5..] == [cs[5]];
    assert FirstSeparating(cs[5..]) == FirstSeparating([cs[5]]);
    assert FirstSeparating(cs[4..]) ==
           if cs[4].first != cs[4].second then FirstSeparating([cs[4]]) else FirstSeparating([cs[5]]);
    assert FirstSeparating(cs[3..]) ==
           if cs[3].first != cs[3].second then FirstSeparating([cs[3]]) else FirstSeparating(cs[4..]);
    assert FirstSeparating(cs[2..]) ==
           if cs[2].first != cs[2].second then FirstSeparating([cs[2]]) else FirstSeparating(cs[3..]);
    assert FirstSeparating(cs[1..]) ==
           if cs[1].first != cs[1].second then FirstSeparating([cs[1]]) else FirstSeparating(cs[2..]);
  }

  /** One open tie settled. */
  lemma SettlingDecides(figures: Figures, gameweek: int, m: CupMatch, f: Form, g: Form)
    requires m.a.Some? && m.b.Some? && m.winner.None? && m.a != m.b
    requires HasForm(figures, gameweek, m.a.value, f) && HasForm(figures, gameweek, m.b.value, g)
    ensures var settled := Settle(figures, gameweek, m);
            && Decided(settled, m.a.value, f, m.b.value, g)
            && settled.a == m.a && settled.b == m.b
            && (settled.winner.Some? ==> settled.scoreA == Some(f.points) && settled.scoreB == Some(g.points))
  {
    SixComparisons(Comparisons(EntryOf(figures, gameweek, m.a.value), EntryOf(figures, gameweek, m.b.value)));
  }

  /** A tie played in the Gameweek of a call is settled by the figures of that call. */
  lemma CallSettles(b: Bracket, s: CupState, gameweek: int, figures: Figures, t: TieId)
    requires b.WellFormed() && t in NetOf(b) && NetOf(b)[t].gameweek == gameweek && t in s.rows
    ensures t in After(b, s, AdvanceCall(gameweek, true, figures)).rows
    ensures After(b, s, AdvanceCall(gameweek, true, figures)).rows[t] == Settle(figures, gameweek, s.rows[t])
  {
    var k, j := FindTie(b, t);
    assert b.RoundForGameweek(gameweek) == Some(k);
  }

  /**
   In every reachable state, a call for a finalized Gameweek decides an open tie of that Gameweek by
   the figures it reads, and writes each side's points on its own side.
   */
  lemma CallDecidesOpenTie(b: Bracket, seeded: map<Seed, int>, s: CupState, gameweek: int, figures: Figures, t: TieId,
                           f: Form, g: Form)
    requires b.WellFormed() && DrawIsFair(NetOf(b), Bare(seeded)) && Reachable(b, seeded, s)
    requires t in NetOf(b) && NetOf(b)[t].gameweek == gameweek
    requires t in s.rows && s.rows[t].a.Some? && s.rows[t].b.Some? && s.rows[t].winner.None?
    requires HasForm(figures, gameweek, s.rows[t].a.value, f) && HasForm(figures, gameweek, s.rows[t].b.value, g)
    ensures t in After(b, s, AdvanceCall(gameweek, true, figures)).rows
    ensures var m := After(b, s, AdvanceCall(gameweek, true, figures)).rows[t];
            && Decided(m, s.rows[t].a.value, f, s.rows[t].b.value, g)
            && m.a == s.rows[t].a && m.b == s.rows[t].b
            && (m.winner.Some? ==> m.scoreA == Some(f.points) && m.scoreB == Some(g.points))
  {
    NobodyPlaysTwiceInARound(b, seeded, s, t, A, t, B);
    CallSettles(b, s, gameweek, figures, t);
    SettlingDecides(figures, gameweek, s.rows[t], f, g);
  }

  /** A call decides nothing else: a tie of another Gameweek, or one that is not open, keeps its result. */
  lemma CallLeavesOtherResults(b: Bracket, s: CupState, gameweek: int, finalized: bool, figures: Figures, t: TieId)
    requires b.WellFormed() && s.rows.Keys == NetOf(b).Keys && t in NetOf(b)
    requires NetOf(b)[t].gameweek != gameweek || !finalized ||
             s.rows[t].a.None? || s.rows[t].b.None? || s.rows[t].winner.Some?
    ensures t in After(b, s, AdvanceCall(gameweek, finalized, figures)).rows
    ensures var m := After(b, s, AdvanceCall(gameweek, finalized, figures)).rows[t];
            && m.winner == s.rows[t].winner && m.step == s.rows[t].step && m.status == s.rows[t].status
            && m.scoreA == s.rows[t].scoreA && m.scoreB == s.rows[t].scoreB
  {
    var k, j := FindTie(b, t);
  }

  /** Lots decide a level tie between its two managers, and nothing else. */
  lemma LotsDecideLevelTie(b: Bracket, s: CupState, t: TieId, manager: int)
    ensures var after := After(b, s, LotsDrawn(t, manager));
            if && t in s.rows && s.rows[t].status == Provisional && s.rows[t].winner.None?
               && s.rows[t].a.Some? && s.rows[t].b.Some? && (s.rows[t].a.value == manager || s.rows[t].b.value == manager)
            then && after.rows.Keys == s.rows.Keys
                 && after.rows[t] == s.rows[t].(winner := Some(manager))
                 && forall u :: u in s.rows && u != t ==> after.rows[u] == s.rows[u]
            else after == s
  {}

  // ----- Who stands where -----

  ghost function SlotOn(tie: Tie, side: Side): Slot {
    if side == A then tie.first else tie.second
  }

  ghost function StandsOn(m: CupMatch, side: Side): Option<int> {
    if side == A then m.a else m.b
  }

  /** The side of a won match that did not win it. */
  ghost predicate IsBeatenIn(m: CupMatch, manager: Option<int>) {
    && m.winner.Some? && m.a.Some? && m.b.Some? && manager.Some? && manager != m.winner
    && (manager == m.a || manager == m.b)
  }

  /**
   In every reachable state an entry slot holds the manager drawn to its place, and a slot that
   waits for a tie holds nobody but that tie's winner.
   */
  lemma SlotHoldsWhomItPrints(b: Bracket, seeded: map<Seed, int>, s: CupState, k: nat, j: nat, side: Side)
    requires b.WellFormed() && DrawIsFair(NetOf(b), Bare(seeded)) && Reachable(b, seeded, s) && b.HasTie(k, j)
    ensures b.rounds[k].ties[j].id in s.rows
    ensures var tie := b.rounds[k].ties[j];
            var holder := StandsOn(s.rows[tie.id], side);
            match SlotOn(tie, side)
            case FromSeed(seed) => seed in seeded && holder == Some(seeded[seed])
            case WinnerOf(feeder) => holder.Some? ==> feeder in s.rows && s.rows[feeder].winner == holder
  {
    var t := b.TieAt(k, j).id;
    NetAt(b, k, j);
    StoredIsUpheld(b, seeded, s, t, side);
    assert SourceIsEarlier(NetOf(b), t, NetOf(b)[t].At(side));
    if b.TieAt(k, j).At(side).WinnerOf? {
      StoredIsUpheld(b, seeded, s, b.TieAt(k, j).At(side).tie, A);
    } else {
      ReachableIsUpheld(b, seeded, s);
      assert Agrees(NetOf(b), Bare(seeded), Winners(s.rows), t, s.rows[t]);
    }
  }

  lemma AgreedWinnerIsASide(net: Net, env: Env, draws: Draws, t: TieId, m: CupMatch)
    requires Layered(net) && t in net && Agrees(net, env, draws, t, m)
    ensures m.winner.Some? ==> m.a.Some? && m.b.Some? && (m.winner == m.a || m.winner == m.b)
  {
    if m.winner.Some? {
      var side: Side :| HolderOf(net, env, draws, t, side) == m.winner;
      assert side == A || side == B;
    }
  }

  lemma WonMatchHasTwoSides(b: Bracket, seeded: map<Seed, int>, s: CupState, t: TieId)
    requires b.WellFormed() && DrawIsFair(NetOf(b), Bare(seeded)) && Reachable(b, seeded, s) && t in NetOf(b)
    ensures t in s.rows
    ensures var m := s.rows[t];
            m.winner.Some? ==> m.a.Some? && m.b.Some? && m.a != m.b && (m.winner == m.a || m.winner == m.b)
  {
    ReachableIsUpheld(b, seeded, s);
    var draws := Winners(s.rows);
    assert Agrees(NetOf(b), Bare(seeded), draws, t, s.rows[t]);
    AgreedWinnerIsASide(NetOf(b), Bare(seeded), draws, t, s.rows[t]);
    NobodyPlaysTwiceInARound(b, seeded, s, t, A, t, B);
  }

  lemma LoserIsBeaten(b: Bracket, seeded: map<Seed, int>, s: CupState, t: TieId, side: Side, u: TieId)
    requires b.WellFormed() && DrawIsFair(NetOf(b), Bare(seeded)) && Reachable(b, seeded, s)
    requires t in NetOf(b) && u in NetOf(b) && NetOf(b)[t].At(side) == Losing(u)
    ensures t in s.rows && u in s.rows
    ensures StandsOn(s.rows[t], side).Some? ==> IsBeatenIn(s.rows[u], StandsOn(s.rows[t], side))
  {
    StoredIsUpheld(b, seeded, s, t, side);
    StoredIsUpheld(b, seeded, s, u, A);
    WonMatchHasTwoSides(b, seeded, s, u);
    assert StandsOn(s.rows[t], side) == s.rows[t].At(side);
    assert s.rows[t].At(side).Some? ==> s.rows[t].At(side) == s.rows[u].Loser();
  }

  /** In every reachable state the third-place match holds nobody but the losers of the two ties before the final. */
  lemma ThirdPlaceHoldsTheBeaten(b: Bracket, seeded: map<Seed, int>, s: CupState, k: nat, side: Side)
    requires b.WellFormed() && DrawIsFair(NetOf(b), Bare(seeded)) && Reachable(b, seeded, s)
    requires 0 < k < |b.rounds| && b.rounds[k].hasThirdPlace && |b.rounds[k - 1].ties| >= 2
    ensures ThirdPlace in s.rows
    ensures var semiFinal := b.rounds[k - 1].ties[if side == A then 0 else 1].id;
            var holder := StandsOn(s.rows[ThirdPlace], side);
            semiFinal in s.rows && (holder.Some? ==> IsBeatenIn(s.rows[semiFinal], holder))
  {
    var j := if side == A then 0 else 1;
    assert b.HasTie(k - 1, j);
    NetAt(b, k - 1, j);
    NetAtThirdPlace(b, k);
    LoserIsBeaten(b, seeded, s, ThirdPlace, side, b.TieAt(k - 1, j).id);
  }

  lemma CallFillsSlot(b: Bracket, s: CupState, gameweek: int, figures: Figures, t: TieId, u: TieId, side: Side)
    requires b.WellFormed() && t in NetOf(b) && NetOf(b)[t].gameweek == gameweek && t in s.rows && u in s.rows
    requires u in NetOf(b) && NetOf(b)[u].At(side) == Winning(t) && NetOf(b)[u].round > NetOf(b)[t].round
    ensures var rows := After(b, s, AdvanceCall(gameweek, true, figures)).rows;
            && t in rows && u in rows
            && StandsOn(rows[u], side) == if StandsOn(s.rows[u], side).Some? then StandsOn(s.rows[u], side) else rows[t].winner
  {
    var k, j := FindTie(b, t);
    assert b.RoundForGameweek(gameweek) == Some(k);
  }

  lemma CallKeepsReachable(b: Bracket, seeded: map<Seed, int>, s: CupState, e: Event)
    requires Reachable(b, seeded, s)
    ensures Reachable(b, seeded, After(b, s, e))
  {
    var events :| Run(b, Drawn(b, seeded), events) == s;
    assert (events + [e])[..|events|] == events;
    assert Run(b, Drawn(b, seeded), events + [e]) == After(b, s, e);
  }

  /** A call that decides a tie has sent its winner on to the slot that waits for it. */
  lemma WinnerMovesOnAtOnce(b: Bracket, seeded: map<Seed, int>, s: CupState, gameweek: int, figures: Figures,
                            t: TieId, k: nat, j: nat, side: Side)
    requires b.WellFormed() && DrawIsFair(NetOf(b), Bare(seeded)) && Reachable(b, seeded, s)
    requires t in NetOf(b) && NetOf(b)[t].gameweek == gameweek
    requires b.HasTie(k, j) && SlotOn(b.rounds[k].ties[j], side) == WinnerOf(t)
    ensures var rows, u := After(b, s, AdvanceCall(gameweek, true, figures)).rows, b.rounds[k].ties[j].id;
            t in rows && u in rows && (rows[t].winner.Some? ==> StandsOn(rows[u], side) == rows[t].winner)
  {
    var e, u := AdvanceCall(gameweek, true, figures), b.TieAt(k, j).id;
    CallKeepsReachable(b, seeded, s, e);
    SlotHoldsWhomItPrints(b, seeded, s, k, j, side);
    SlotHoldsWhomItPrints(b, seeded, After(b, s, e), k, j, side);
    NetAt(b, k, j);
    NetIsLayered(b);
    assert SourceIsEarlier(NetOf(b), u, NetOf(b)[u].At(side));
    StoredIsUpheld(b, seeded, s, t, A);
    CallFillsSlot(b, s, gameweek, figures, t, u, side);
  }
}
