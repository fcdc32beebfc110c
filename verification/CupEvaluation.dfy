/**
 The Cup as a recursive evaluation.

 A bracket is flattened into a net: every tie, the third-place match included,
 with the source of each of its two sides. Over one set of figures, `HolderOf`
 and `VictorOf` evaluate the net recursively. This file proves what the shape of
 a bracket alone guarantees about that evaluation.
 */
module CupEvaluation {
  import opened Wrappers
  import opened Rankings
  import opened CupResolution
  import opened CupBracket

  datatype Source = PlaceOf(seed: Seed) | Winning(tie: TieId) | Losing(tie: TieId) | Nobody

  datatype Node = Node(round: nat, gameweek: int, first: Source, second: Source)
  {
    function At(side: Side): Source {
      if side == A then first else second
    }
  }

  type Net = map<TieId, Node>

  /** A slot never depends on its own round; only the third-place match takes losers. */
  ghost predicate Layered(net: Net) {
    forall t, side {:trigger SourceIsEarlier(net, t, net[t].At(side))} ::
      t in net ==> SourceIsEarlier(net, t, net[t].At(side))
  }

  ghost predicate SourceIsEarlier(net: Net, t: TieId, source: Source)
    requires t in net
  {
    match source
    case PlaceOf(_) => t != ThirdPlace
    case Winning(u) => t != ThirdPlace && u != ThirdPlace && u in net && net[u].round < net[t].round
    case Losing(u) => t == ThirdPlace && u != ThirdPlace && u in net && net[u].round < net[t].round
    case Nobody => t == ThirdPlace
  }

  ghost predicate ShareSource(net: Net, t: TieId, side: Side, t': TieId, side': Side) {
    t in net && t' in net && net[t].At(side) == net[t'].At(side') != Nobody
  }

  ghost predicate UsedOnce(net: Net) {
    forall t, side: Side, t', side': Side {:trigger ShareSource(net, t, side, t', side')} ::
      ShareSource(net, t, side, t', side') ==> t == t' && side == side'
  }

  ghost predicate SoundNet(net: Net) {
    Layered(net) && UsedOnce(net)
  }

  // ----- Results of single ties -----

  /** What ties are decided from: net points and tie-break facts by Gameweek, as they stand at one moment. */
  datatype Figures = Figures(scores: map<int, map<int, int>>, facts: map<int, map<int, TieBreakFacts>>)

  const NO_FIGURES := Figures(map[], map[])

  /** The draw, and one set of figures. */
  datatype Env = Env(seeded: map<Seed, int>, figures: Figures)

  /** Without figures every tie is level, and only lots decide it. */
  function Bare(seeded: map<Seed, int>): Env {
    Env(seeded, NO_FIGURES)
  }

  ghost predicate DrawIsFair(net: Net, env: Env) {
    && (forall t, side :: t in net && net[t].At(side).PlaceOf? ==> net[t].At(side).seed in env.seeded)
    && (forall x, y :: x in env.seeded && y in env.seeded && env.seeded[x] == env.seeded[y] ==> x == y)
  }

  function ScoreOf(figures: Figures, gameweek: int, manager: int): int {
    if gameweek in figures.scores && manager in figures.scores[gameweek] then figures.scores[gameweek][manager] else 0
  }

  function FactsOf(figures: Figures, gameweek: int, manager: int): TieBreakFacts {
    if gameweek in figures.facts && manager in figures.facts[gameweek] then figures.facts[gameweek][manager] else NO_FACTS
  }

  function EntryOf(figures: Figures, gameweek: int, manager: int): CupEntry {
    CupEntry(manager, ScoreOf(figures, gameweek, manager), FactsOf(figures, gameweek, manager), false)
  }

  function Play(figures: Figures, gameweek: int, a: int, b: int): Result<Resolution, CupError> {
    ResolveCupMatch(EntryOf(figures, gameweek, a), EntryOf(figures, gameweek, b), None)
  }

  lemma LevelWithoutFigures(gameweek: int, a: int, b: int)
    requires a != b
    ensures Play(NO_FIGURES, gameweek, a, b) == Ok(Resolution(None, AdminDraw, true))
  {
    var first, second := EntryOf(NO_FIGURES, gameweek, a), EntryOf(NO_FIGURES, gameweek, b);
    ResolutionAgreesWithRanking(first, second, [first, second]);
  }

  // ----- The recursive evaluation -----

  /** The draws of lots made so far, by tie. */
  type Draws = map<TieId, int>

  /** The manager a slot holds once everything below it is decided. */
  ghost function HolderOf(net: Net, env: Env, draws: Draws, t: TieId, side: Side): Option<int>
    requires Layered(net) && t in net
    decreases net[t].round, 0
  {
    assert SourceIsEarlier(net, t, net[t].At(side));
    match net[t].At(side)
    case PlaceOf(seed) => if seed in env.seeded then Some(env.seeded[seed]) else None
    case Winning(u) => VictorOf(net, env, draws, u)
    case Losing(u) => LoserOf(net, env, draws, u)
    case Nobody => None
  }

  ghost function VictorOf(net: Net, env: Env, draws: Draws, t: TieId): (winner: Option<int>)
    requires Layered(net) && t in net
    ensures winner.Some? ==> exists side :: HolderOf(net, env, draws, t, side) == winner
    decreases net[t].round, 1
  {
    var a, b := HolderOf(net, env, draws, t, A), HolderOf(net, env, draws, t, B);
    if a.None? || b.None? then None
    else
      var r := Play(env.figures, net[t].gameweek, a.value, b.value);
      var w := if r.Ok? && r.value.winner.Some? then r.value.winner
               else if r.Ok? && t in draws && draws[t] in {a.value, b.value} then Some(draws[t])
               else None;
      assert w.Some? ==> w == HolderOf(net, env, draws, t, A) || w == HolderOf(net, env, draws, t, B);
      w
  }

  ghost function LoserOf(net: Net, env: Env, draws: Draws, t: TieId): Option<int>
    requires Layered(net) && t in net
    decreases net[t].round, 2
  {
    var winner := VictorOf(net, env, draws, t);
    if winner.None? then None
    else if HolderOf(net, env, draws, t, A) == winner then HolderOf(net, env, draws, t, B)
    else HolderOf(net, env, draws, t, A)
  }

  // ----- The frontier of a round -----

  /** Slots of round r or later whose occupant is settled by the rounds before r. */
  ghost predicate Frontier(net: Net, r: nat, t: TieId, side: Side) {
    && t in net && t != ThirdPlace && net[t].round >= r
    && match net[t].At(side)
       case PlaceOf(_) => true
       case Winning(u) => u in net && net[u].round < r
       case _ => false
  }

  ghost function WinningSide(net: Net, env: Env, draws: Draws, t: TieId): Side
    requires Layered(net) && t in net
  {
    if HolderOf(net, env, draws, t, A) == VictorOf(net, env, draws, t) then A else B
  }

  ghost function LosingSide(net: Net, env: Env, draws: Draws, t: TieId): Side
    requires Layered(net) && t in net
  {
    if WinningSide(net, env, draws, t) == A then B else A
  }

  /** The slot of the frontier before, from which the occupant of a slot came. */
  ghost function CameFrom(net: Net, env: Env, draws: Draws, r: nat, t: TieId, side: Side): (TieId, Side)
    requires Layered(net) && Frontier(net, r + 1, t, side)
  {
    if Frontier(net, r, t, side) then (t, side)
    else (net[t].At(side).tie, WinningSide(net, env, draws, net[t].At(side).tie))
  }

  lemma CameFromFrontier(net: Net, env: Env, draws: Draws, r: nat, t: TieId, side: Side)
    requires Layered(net) && Frontier(net, r + 1, t, side)
    requires HolderOf(net, env, draws, t, side).Some?
    ensures var (u, s) := CameFrom(net, env, draws, r, t, side);
            && Frontier(net, r, u, s)
            && HolderOf(net, env, draws, u, s) == HolderOf(net, env, draws, t, side)
            && (net[u].round == r && (u, s) != (t, side) ==>
                  net[t].At(side) == Winning(u) && VictorOf(net, env, draws, u) == HolderOf(net, env, draws, u, s))
  {
    if !Frontier(net, r, t, side) {
      var u := net[t].At(side).tie;
      assert SourceIsEarlier(net, t, net[t].At(side));
      assert SourceIsEarlier(net, u, net[u].At(WinningSide(net, env, draws, u)));
    }
  }

  lemma SlotsDiffer(net: Net, t: TieId, side: Side, t': TieId, side': Side)
    requires UsedOnce(net) && t in net && t' in net && (t, side) != (t', side') && net[t].At(side) != Nobody
    ensures net[t].At(side) != net[t'].At(side')
  {
    assert !ShareSource(net, t, side, t', side');
  }

  lemma StepBack(net: Net, env: Env, draws: Draws, r: nat, t: TieId, side: Side, holder: Option<int>)
    returns (u: TieId, s: Side)
    requires Layered(net) && Frontier(net, r + 1, t, side) && holder.Some? && HolderOf(net, env, draws, t, side) == holder
    ensures Frontier(net, r, u, s) && HolderOf(net, env, draws, u, s) == holder
    ensures CameFrom(net, env, draws, r, t, side) == (u, s)
  {
    CameFromFrontier(net, env, draws, r, t, side);
    var from := CameFrom(net, env, draws, r, t, side);
    u, s := from.0, from.1;
  }

  /** One holder of two slots of a frontier would have held two slots of the one before. */
  lemma StepBackFromBoth(net: Net, env: Env, draws: Draws, r: nat, t: TieId, side: Side, t': TieId, side': Side,
                         holder: Option<int>)
    returns (u: TieId, s: Side, u': TieId, s': Side)
    requires SoundNet(net) && holder.Some?
    requires Frontier(net, r + 1, t, side) && Frontier(net, r + 1, t', side') && (t, side) != (t', side')
    requires HolderOf(net, env, draws, t, side) == holder == HolderOf(net, env, draws, t', side')
    ensures Frontier(net, r, u, s) && Frontier(net, r, u', s') && (u, s) != (u', s')
    ensures HolderOf(net, env, draws, u, s) == holder == HolderOf(net, env, draws, u', s')
  {
    u, s := StepBack(net, env, draws, r, t, side, holder);
    u', s' := StepBack(net, env, draws, r, t', side', holder);
    SlotsDiffer(net, t, side, t', side');
  }

  /** No manager stands in two slots of one frontier. */
  lemma {:induction false} FrontierIsDistinct(net: Net, env: Env, draws: Draws, r: nat,
                                              t: TieId, side: Side, t': TieId, side': Side)
    requires SoundNet(net) && DrawIsFair(net, env)
    requires Frontier(net, r, t, side) && Frontier(net, r, t', side') && (t, side) != (t', side')
    requires HolderOf(net, env, draws, t, side).Some?
    ensures HolderOf(net, env, draws, t, side) != HolderOf(net, env, draws, t', side')
    decreases r
  {
    var holder := HolderOf(net, env, draws, t, side);
    if r == 0 {
      assert net[t].At(side).PlaceOf? && net[t'].At(side').PlaceOf?;
      SlotsDiffer(net, t, side, t', side');
    } else if HolderOf(net, env, draws, t', side') == holder {
      var u, s, u', s' := StepBackFromBoth(net, env, draws, r - 1, t, side, t', side', holder);
      FrontierIsDistinct(net, env, draws, r - 1, u, s, u', s');
    }
  }

  lemma RoundIsInFrontier(net: Net, t: TieId, side: Side)
    requires Layered(net) && t in net && t != ThirdPlace
    ensures Frontier(net, net[t].round, t, side)
  {
    assert SourceIsEarlier(net, t, net[t].At(side));
  }

  /** A tie decides between two different managers, and its winner and loser are those two. */
  lemma TieHasTwoSides(net: Net, env: Env, draws: Draws, t: TieId)
    requires SoundNet(net) && DrawIsFair(net, env) && t in net && t != ThirdPlace
    requires VictorOf(net, env, draws, t).Some?
    ensures LoserOf(net, env, draws, t).Some? && LoserOf(net, env, draws, t) != VictorOf(net, env, draws, t)
    ensures HolderOf(net, env, draws, t, LosingSide(net, env, draws, t)) == LoserOf(net, env, draws, t)
    ensures Frontier(net, net[t].round, t, LosingSide(net, env, draws, t))
  {
    RoundIsInFrontier(net, t, A);
    RoundIsInFrontier(net, t, B);
    FrontierIsDistinct(net, env, draws, net[t].round, t, A, t, B);
  }

  /** A manager beaten in round r is in no frontier after r. */
  lemma {:induction false} BeatenLeavesFrontier(net: Net, env: Env, draws: Draws, t: TieId, r: nat, u: TieId, side: Side)
    requires SoundNet(net) && DrawIsFair(net, env) && t in net && t != ThirdPlace
    requires VictorOf(net, env, draws, t).Some?
    requires r > net[t].round && Frontier(net, r, u, side)
    ensures HolderOf(net, env, draws, u, side) != LoserOf(net, env, draws, t)
    decreases r
  {
    TieHasTwoSides(net, env, draws, t);
    if HolderOf(net, env, draws, u, side) == LoserOf(net, env, draws, t) {
      CameFromFrontier(net, env, draws, r - 1, u, side);
      var from := CameFrom(net, env, draws, r - 1, u, side);
      if r - 1 > net[t].round {
        BeatenLeavesFrontier(net, env, draws, t, r - 1, from.0, from.1);
      } else {
        if Frontier(net, r - 1, u, side) {
          assert net[u].round >= r;
        }
        FrontierIsDistinct(net, env, draws, r - 1, t, LosingSide(net, env, draws, t), from.0, from.1);
      }
    }
  }

  /** A beaten manager is in no later tie, the third-place match aside. */
  lemma BeatenStaysOut(net: Net, env: Env, draws: Draws, t: TieId, u: TieId, side: Side)
    requires SoundNet(net) && DrawIsFair(net, env) && t in net && u in net && t != ThirdPlace && u != ThirdPlace
    requires VictorOf(net, env, draws, t).Some? && net[u].round > net[t].round
    ensures HolderOf(net, env, draws, u, side) != LoserOf(net, env, draws, t)
  {
    RoundIsInFrontier(net, u, side);
    BeatenLeavesFrontier(net, env, draws, t, net[u].round, u, side);
  }

  /** Nobody is beaten twice. */
  lemma BeatenOnce(net: Net, env: Env, draws: Draws, t: TieId, u: TieId)
    requires SoundNet(net) && DrawIsFair(net, env) && t in net && u in net && t != ThirdPlace && u != ThirdPlace
    requires t != u && VictorOf(net, env, draws, t).Some? && VictorOf(net, env, draws, u).Some?
    ensures LoserOf(net, env, draws, t) != LoserOf(net, env, draws, u)
  {
    TieHasTwoSides(net, env, draws, t);
    TieHasTwoSides(net, env, draws, u);
    var lost, lost' := LosingSide(net, env, draws, t), LosingSide(net, env, draws, u);
    if net[t].round < net[u].round {
      BeatenStaysOut(net, env, draws, t, u, lost');
    } else if net[u].round < net[t].round {
      BeatenStaysOut(net, env, draws, u, t, lost);
    } else {
      FrontierIsDistinct(net, env, draws, net[t].round, t, lost, u, lost');
    }
  }

  lemma SameRoundIsDistinct(net: Net, env: Env, draws: Draws, t: TieId, side: Side, u: TieId, side': Side)
    requires SoundNet(net) && DrawIsFair(net, env) && t in net && u in net && net[t].round == net[u].round
    requires t != ThirdPlace && u != ThirdPlace
    requires (t, side) != (u, side') && HolderOf(net, env, draws, t, side).Some?
    ensures HolderOf(net, env, draws, t, side) != HolderOf(net, env, draws, u, side')
  {
    RoundIsInFrontier(net, t, side);
    RoundIsInFrontier(net, u, side');
    FrontierIsDistinct(net, env, draws, net[t].round, t, side, u, side');
  }

  lemma ThirdPlaceTakesLosers(net: Net, env: Env, draws: Draws, side: Side)
    requires SoundNet(net) && ThirdPlace in net && HolderOf(net, env, draws, ThirdPlace, side).Some?
    ensures net[ThirdPlace].At(side).Losing?
    ensures var v := net[ThirdPlace].At(side).tie;
            && v != ThirdPlace && v in net && net[v].round < net[ThirdPlace].round
            && VictorOf(net, env, draws, v).Some?
            && HolderOf(net, env, draws, ThirdPlace, side) == LoserOf(net, env, draws, v)
  {
    assert SourceIsEarlier(net, ThirdPlace, net[ThirdPlace].At(side));
  }

  /** In one round no manager stands in two slots, the third-place match included. */
  lemma OneTiePerRound(net: Net, env: Env, draws: Draws, t: TieId, side: Side, u: TieId, side': Side)
    requires SoundNet(net) && DrawIsFair(net, env) && t in net && u in net && net[t].round == net[u].round
    requires HolderOf(net, env, draws, t, side).Some? && (t, side) != (u, side')
    ensures HolderOf(net, env, draws, t, side) != HolderOf(net, env, draws, u, side')
  {
    if HolderOf(net, env, draws, t, side) == HolderOf(net, env, draws, u, side') {
      if t == u == ThirdPlace {
        ThirdPlaceTakesLosers(net, env, draws, side);
        ThirdPlaceTakesLosers(net, env, draws, side');
        SlotsDiffer(net, t, side, u, side');
        BeatenOnce(net, env, draws, net[t].At(side).tie, net[u].At(side').tie);
      } else if t == ThirdPlace {
        ThirdPlaceTakesLosers(net, env, draws, side);
        BeatenStaysOut(net, env, draws, net[t].At(side).tie, u, side');
      } else if u == ThirdPlace {
        ThirdPlaceTakesLosers(net, env, draws, side');
        BeatenStaysOut(net, env, draws, net[u].At(side').tie, t, side);
      } else {
        SameRoundIsDistinct(net, env, draws, t, side, u, side');
      }
    }
  }
}
