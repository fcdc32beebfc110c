/** Counting a Cup: one entrant more than ties, one beaten manager per decided tie, one champion. */
module CupAccounting {
  import opened Wrappers
  import opened CupBracket
  import opened CupEvaluation

  type SlotRef = (TieId, Side)

  /** Every bracket tie but the last sends its winner to some slot; the last one is in the latest round. */
  ghost predicate RunsToOneFinal(net: Net, last: TieId) {
    && last in net && last != ThirdPlace
    && (forall t :: t in net ==> net[t].round <= net[last].round)
    && (forall t :: t in BracketTies(net) ==> (t != last <==> Advances(net, t)))
  }

  ghost predicate Advances(net: Net, t: TieId) {
    exists u, side :: u in net && net[u].At(side) == Winning(t)
  }

  ghost function BracketTies(net: Net): set<TieId> {
    net.Keys - {ThirdPlace}
  }

  ghost function SlotsOf(ties: set<TieId>): set<SlotRef> {
    (set t | t in ties :: (t, A)) + (set t | t in ties :: (t, B))
  }

  ghost function Slots(net: Net): set<SlotRef> {
    SlotsOf(BracketTies(net))
  }

  ghost function EntrySlots(net: Net): set<SlotRef> {
    set x: SlotRef | x in Slots(net) && net[x.0].At(x.1).PlaceOf?
  }

  /** The managers the draw put into the bracket. */
  ghost function Entrants(net: Net, env: Env): set<int>
    requires DrawIsFair(net, env)
  {
    set x: SlotRef | x in EntrySlots(net) :: env.seeded[net[x.0].At(x.1).seed]
  }

  ghost function Decided(net: Net, env: Env, draws: Draws): set<TieId>
    requires Layered(net)
  {
    set t | t in BracketTies(net) && VictorOf(net, env, draws, t).Some?
  }

  ghost function Beaten(net: Net, env: Env, draws: Draws): set<int>
    requires SoundNet(net) && DrawIsFair(net, env)
  {
    set t | t in Decided(net, env, draws) && LoserOf(net, env, draws, t).Some? :: LoserOf(net, env, draws, t).value
  }

  // ----- Cardinalities -----

  ghost function Image<X(!new), Y>(s: set<X>, f: X -> Y): set<Y> {
    set x | x in s :: f(x)
  }

  lemma {:induction false} ImageOfInjection<X(!new), Y(!new)>(s: set<X>, f: X -> Y)
    requires forall x, y :: x in s && y in s && f(x) == f(y) ==> x == y
    ensures |Image(s, f)| == |s|
  {
    if s != {} {
      var x :| x in s;
      ImageOfInjection(s - {x}, f);
      assert Image(s, f) == Image(s - {x}, f) + {f(x)};
    }
  }

  lemma {:induction false} SlotsAreTwicePerTie(ties: set<TieId>)
    ensures |SlotsOf(ties)| == 2 * |ties|
  {
    if ties != {} {
      var t :| t in ties;
      SlotsAreTwicePerTie(ties - {t});
      assert SlotsOf(ties) == SlotsOf(ties - {t}) + {(t, A), (t, B)};
    }
  }

  lemma DifferenceSize<X>(a: set<X>, b: set<X>)
    requires b <= a
    ensures |a - b| == |a| - |b|
  {
    assert a == (a - b) + b;
  }

  lemma Singleton<X>(a: set<X>, x: X)
    requires x in a && |a| == 1
    ensures a == {x}
  {
    DifferenceSize(a, {x});
    assert a - {x} == {};
  }

  ghost function FeederOf(net: Net, x: SlotRef): TieId {
    if x.0 in net && net[x.0].At(x.1).Winning? then net[x.0].At(x.1).tie else ThirdPlace
  }

  lemma InnerSlotIsFed(net: Net, last: TieId, x: SlotRef)
    requires SoundNet(net) && RunsToOneFinal(net, last) && x in Slots(net) - EntrySlots(net)
    ensures x.0 in net && net[x.0].At(x.1) == Winning(FeederOf(net, x))
    ensures FeederOf(net, x) in BracketTies(net) - {last}
  {
    assert SourceIsEarlier(net, x.0, net[x.0].At(x.1));
    assert Advances(net, FeederOf(net, x));
  }

  lemma TieFeedsInnerSlot(net: Net, last: TieId, t: TieId)
    requires SoundNet(net) && RunsToOneFinal(net, last) && t in BracketTies(net) - {last}
    ensures exists x :: x in Slots(net) - EntrySlots(net) && FeederOf(net, x) == t
  {
    var u, side :| u in net && net[u].At(side) == Winning(t);
    assert SourceIsEarlier(net, u, net[u].At(side));
    var x := (u, side);
    assert x in Slots(net) - EntrySlots(net) && FeederOf(net, x) == t;
  }

  lemma InnerSlotsAreOnePerTieButTheLast(net: Net, last: TieId)
    requires SoundNet(net) && RunsToOneFinal(net, last)
    ensures |Slots(net) - EntrySlots(net)| == |BracketTies(net)| - 1
  {
    var inner := Slots(net) - EntrySlots(net);
    var feeder := (x: SlotRef) => FeederOf(net, x);
    forall x, y | x in inner && y in inner && feeder(x) == feeder(y) ensures x == y {
      InnerSlotIsFed(net, last, x);
      InnerSlotIsFed(net, last, y);
      assert ShareSource(net, x.0, x.1, y.0, y.1);
    }
    ImageOfInjection(inner, feeder);
    forall t ensures t in Image(inner, feeder) <==> t in BracketTies(net) - {last} {
      if t in Image(inner, feeder) {
        var x :| x in inner && feeder(x) == t;
        InnerSlotIsFed(net, last, x);
      }
      if t in BracketTies(net) - {last} {
        TieFeedsInnerSlot(net, last, t);
      }
    }
    assert Image(inner, feeder) == BracketTies(net) - {last};
  }

  lemma EntrantsArePerEntrySlot(net: Net, env: Env)
    requires SoundNet(net) && DrawIsFair(net, env)
    ensures |Entrants(net, env)| == |EntrySlots(net)|
  {
    var entrant := (x: SlotRef) =>
      if x.0 in net && net[x.0].At(x.1).PlaceOf? && net[x.0].At(x.1).seed in env.seeded
      then env.seeded[net[x.0].At(x.1).seed] else 0;
    forall x, y | x in EntrySlots(net) && y in EntrySlots(net) && entrant(x) == entrant(y) ensures x == y {
      assert net[x.0].At(x.1).seed == net[y.0].At(y.1).seed;
      assert ShareSource(net, x.0, x.1, y.0, y.1);
    }
    ImageOfInjection(EntrySlots(net), entrant);
    assert Entrants(net, env) == Image(EntrySlots(net), entrant);
  }

  /** A bracket with T ties is entered by T + 1 different managers. */
  lemma EntrantsAreTiesPlusOne(net: Net, env: Env, last: TieId)
    requires SoundNet(net) && DrawIsFair(net, env) && RunsToOneFinal(net, last)
    ensures |Entrants(net, env)| == |BracketTies(net)| + 1
  {
    SlotsAreTwicePerTie(BracketTies(net));
    InnerSlotsAreOnePerTieButTheLast(net, last);
    DifferenceSize(Slots(net), EntrySlots(net));
    EntrantsArePerEntrySlot(net, env);
  }

  /** Each decided tie has beaten a manager of its own. */
  lemma BeatenAreDecided(net: Net, env: Env, draws: Draws)
    requires SoundNet(net) && DrawIsFair(net, env)
    ensures |Beaten(net, env, draws)| == |Decided(net, env, draws)|
  {
    var decided := Decided(net, env, draws);
    var loser := t => if t in net && LoserOf(net, env, draws, t).Some? then LoserOf(net, env, draws, t).value else 0;
    forall t | t in decided ensures LoserOf(net, env, draws, t).Some? {
      TieHasTwoSides(net, env, draws, t);
    }
    forall t, u | t in decided && u in decided && loser(t) == loser(u) ensures t == u {
      if t != u {
        BeatenOnce(net, env, draws, t, u);
      }
    }
    ImageOfInjection(decided, loser);
    assert Beaten(net, env, draws) == Image(decided, loser);
  }

  /** Every occupant of a slot entered the Cup. */
  lemma {:induction false} OccupantsEntered(net: Net, env: Env, draws: Draws, t: TieId, side: Side)
    requires SoundNet(net) && DrawIsFair(net, env) && t in net && t != ThirdPlace
    requires HolderOf(net, env, draws, t, side).Some?
    ensures HolderOf(net, env, draws, t, side).value in Entrants(net, env)
    decreases net[t].round
  {
    assert SourceIsEarlier(net, t, net[t].At(side));
    if net[t].At(side).PlaceOf? {
      assert (t, side) in EntrySlots(net);
    } else {
      var u := net[t].At(side).tie;
      OccupantsEntered(net, env, draws, u, WinningSide(net, env, draws, u));
    }
  }

  lemma BeatenEntered(net: Net, env: Env, draws: Draws)
    requires SoundNet(net) && DrawIsFair(net, env)
    ensures Beaten(net, env, draws) <= Entrants(net, env)
  {
    forall t | t in Decided(net, env, draws) && LoserOf(net, env, draws, t).Some?
      ensures LoserOf(net, env, draws, t).value in Entrants(net, env)
    {
      TieHasTwoSides(net, env, draws, t);
      OccupantsEntered(net, env, draws, t, LosingSide(net, env, draws, t));
    }
  }

  lemma VictorOfTheLastIsUnbeaten(net: Net, env: Env, draws: Draws, last: TieId)
    requires SoundNet(net) && DrawIsFair(net, env) && RunsToOneFinal(net, last)
    requires VictorOf(net, env, draws, last).Some?
    ensures VictorOf(net, env, draws, last).value !in Beaten(net, env, draws)
    ensures VictorOf(net, env, draws, last).value in Entrants(net, env)
  {
    var side := WinningSide(net, env, draws, last);
    OccupantsEntered(net, env, draws, last, side);
    forall t | t in Decided(net, env, draws)
      ensures LoserOf(net, env, draws, t) != VictorOf(net, env, draws, last)
    {
      TieHasTwoSides(net, env, draws, t);
      if net[t].round < net[last].round {
        BeatenStaysOut(net, env, draws, t, last, side);
      } else if t != last {
        SameRoundIsDistinct(net, env, draws, t, LosingSide(net, env, draws, t), last, side);
      }
    }
  }

  /**
   The books of a Cup: with k ties decided exactly k of the T + 1 entrants are beaten, and once
   every tie is decided the winner of the last one is the only entrant nobody has beaten.
   */
  lemma CupBooksBalance(net: Net, env: Env, draws: Draws, last: TieId)
    requires SoundNet(net) && DrawIsFair(net, env) && RunsToOneFinal(net, last)
    ensures |Entrants(net, env) - Beaten(net, env, draws)| ==
            |BracketTies(net)| + 1 - |Decided(net, env, draws)|
    ensures Decided(net, env, draws) == BracketTies(net) ==>
              VictorOf(net, env, draws, last).Some? &&
              Entrants(net, env) - Beaten(net, env, draws) == {VictorOf(net, env, draws, last).value}
  {
    EntrantsAreTiesPlusOne(net, env, last);
    BeatenAreDecided(net, env, draws);
    BeatenEntered(net, env, draws);
    DifferenceSize(Entrants(net, env), Beaten(net, env, draws));
    if Decided(net, env, draws) == BracketTies(net) {
      assert last in Decided(net, env, draws);
      VictorOfTheLastIsUnbeaten(net, env, draws, last);
      Singleton(Entrants(net, env) - Beaten(net, env, draws), VictorOf(net, env, draws, last).value);
    }
  }
}
