/** From a bracket's list of rounds to the net of its ties. */
module CupNets {
  import opened CupBracket
  import opened CupEvaluation
  import CupAccounting

  function SourceOf(slot: Slot): Source {
    match slot
    case FromSeed(seed) => PlaceOf(seed)
    case WinnerOf(tie) => Winning(tie)
  }

  function NodeAt(b: Bracket, k: nat, j: nat): Node
    requires b.HasTie(k, j)
  {
    Node(k, b.rounds[k].gameweek, SourceOf(b.TieAt(k, j).first), SourceOf(b.TieAt(k, j).second))
  }

  /** The third-place match takes the losers of the first two ties of the round before. */
  function ThirdPlaceNode(b: Bracket, k: nat): Node
    requires k < |b.rounds|
  {
    Node(k, b.rounds[k].gameweek, LoserSource(b, k, 0), LoserSource(b, k, 1))
  }

  function LoserSource(b: Bracket, k: nat, i: nat): Source
    requires k < |b.rounds|
  {
    if k > 0 && i < |b.rounds[k - 1].ties| then Losing(b.rounds[k - 1].ties[i].id) else Nobody
  }

  ghost function TieIds(b: Bracket): set<TieId> {
    set k: nat, j: nat | k < |b.rounds| && j < |b.rounds[k].ties| :: b.TieAt(k, j).id
  }

  ghost function ThirdPlaceRounds(b: Bracket): set<nat> {
    set k: nat | k < |b.rounds| && b.rounds[k].hasThirdPlace
  }

  ghost function NodeOf(b: Bracket, id: TieId): Node
    requires id in TieIds(b)
  {
    var k: nat, j: nat :| b.HasTie(k, j) && b.TieAt(k, j).id == id;
    NodeAt(b, k, j)
  }

  ghost function NetOf(b: Bracket): Net {
    var ties := map id | id in TieIds(b) :: NodeOf(b, id);
    if ThirdPlaceRounds(b) == {} then ties
    else var k :| k in ThirdPlaceRounds(b); ties[ThirdPlace := ThirdPlaceNode(b, k)]
  }

  lemma NetAt(b: Bracket, k: nat, j: nat)
    requires b.WellFormed() && b.HasTie(k, j)
    ensures b.TieAt(k, j).id in NetOf(b) && NetOf(b)[b.TieAt(k, j).id] == NodeAt(b, k, j)
  {
    assert b.TieAt(k, j).id in TieIds(b);
  }

  lemma NetAtThirdPlace(b: Bracket, k: nat)
    requires b.WellFormed() && k < |b.rounds| && b.rounds[k].hasThirdPlace
    ensures ThirdPlace in NetOf(b) && NetOf(b)[ThirdPlace] == ThirdPlaceNode(b, k)
  {
    assert k in ThirdPlaceRounds(b);
  }

  /** Every entry of the net is a tie of the bracket or its third-place match. */
  lemma FindTie(b: Bracket, t: TieId) returns (k: nat, j: nat)
    requires b.WellFormed() && t in NetOf(b)
    ensures k < |b.rounds| && NetOf(b)[t].round == k && NetOf(b)[t].gameweek == b.rounds[k].gameweek
    ensures t != ThirdPlace ==> b.HasTie(k, j) && b.TieAt(k, j).id == t && NetOf(b)[t] == NodeAt(b, k, j)
    ensures t == ThirdPlace ==> b.rounds[k].hasThirdPlace && NetOf(b)[t] == ThirdPlaceNode(b, k)
  {
    j := 0;
    if t == ThirdPlace {
      assert ThirdPlaceRounds(b) != {};
      k :| k in ThirdPlaceRounds(b);
      NetAtThirdPlace(b, k);
    } else {
      assert t in TieIds(b);
      k, j :| b.HasTie(k, j) && b.TieAt(k, j).id == t;
      NetAt(b, k, j);
    }
  }

  lemma NetIsLayered(b: Bracket)
    requires b.WellFormed()
    ensures Layered(NetOf(b))
  {
    var net := NetOf(b);
    forall t, side | t in net ensures SourceIsEarlier(net, t, net[t].At(side)) {
      var k, j := FindTie(b, t);
      if t == ThirdPlace {
        if net[t].At(side).Losing? {
          NetAt(b, k - 1, if side == A then 0 else 1);
        }
      } else if net[t].At(side).Winning? {
        assert b.Plays(b.TieAt(k, j).At(side).tie, k);
        var k', j' :| k' < k && b.HasTie(k', j') && b.TieAt(k', j').id == b.TieAt(k, j).At(side).tie;
        NetAt(b, k', j');
      }
    }
  }

  lemma SlotOfTie(b: Bracket, t: TieId, side: Side) returns (k: nat, j: nat)
    requires b.WellFormed() && t in NetOf(b) && t != ThirdPlace
    ensures b.HasTie(k, j) && b.TieAt(k, j).id == t && NetOf(b)[t].At(side) == SourceOf(b.TieAt(k, j).At(side))
  {
    k, j := FindTie(b, t);
  }

  lemma RoundsOfNet(b: Bracket)
    requires b.WellFormed()
    ensures forall t :: t in NetOf(b) ==> NetOf(b)[t].round < |b.rounds|
  {
    forall t | t in NetOf(b) ensures NetOf(b)[t].round < |b.rounds| {
      var k, j := FindTie(b, t);
    }
  }

  lemma ThirdPlaceSlotsDiffer(b: Bracket)
    requires b.WellFormed() && ThirdPlace in NetOf(b) && NetOf(b)[ThirdPlace].At(A) != Nobody
    ensures NetOf(b)[ThirdPlace].At(A) != NetOf(b)[ThirdPlace].At(B)
  {
    var k, j := FindTie(b, ThirdPlace);
    assert b.HasTie(k - 1, 0);
    assert b.HasTie(k - 1, 1) ==> b.TieAt(k - 1, 0).id != b.TieAt(k - 1, 1).id;
  }

  /** The net of a well-formed bracket is sound. */
  lemma NetIsSound(b: Bracket)
    requires b.WellFormed()
    ensures SoundNet(NetOf(b))
  {
    NetIsLayered(b);
    var net := NetOf(b);
    forall t, side: Side, t', side': Side | ShareSource(net, t, side, t', side')
      ensures t == t' && side == side'
    {
      assert SourceIsEarlier(net, t, net[t].At(side)) && SourceIsEarlier(net, t', net[t'].At(side'));
      if t != ThirdPlace && t' != ThirdPlace {
        var k, j := SlotOfTie(b, t, side);
        var k', j' := SlotOfTie(b, t', side');
        assert b.TieAt(k, j).At(side) == b.TieAt(k', j').At(side');
      } else if side != side' {
        ThirdPlaceSlotsDiffer(b);
      }
    }
  }

  lemma NetAdvancesIffConsumed(b: Bracket, t: TieId)
    requires b.WellFormed() && t in NetOf(b) && t != ThirdPlace
    ensures CupAccounting.Advances(NetOf(b), t) <==> b.Consumed(t)
  {
    var net := NetOf(b);
    if b.Consumed(t) {
      var u: nat, v: nat, side: Side :| b.HasTie(u, v) && b.TieAt(u, v).At(side) == WinnerOf(t);
      NetAt(b, u, v);
      assert net[b.TieAt(u, v).id].At(side) == Winning(t);
    }
    if CupAccounting.Advances(net, t) {
      var u, side :| u in net && net[u].At(side) == Winning(t);
      NetIsLayered(b);
      assert SourceIsEarlier(net, u, net[u].At(side));
      var k, j := FindTie(b, u);
      assert b.TieAt(k, j).At(side) == WinnerOf(t);
    }
  }

  /** A bracket with a single final is a net that runs to one. */
  lemma NetRunsToOneFinal(b: Bracket, last: TieId)
    requires b.WellFormed() && b.SingleFinal(last)
    ensures CupAccounting.RunsToOneFinal(NetOf(b), last)
  {
    var net := NetOf(b);
    var kl: nat, jl: nat :| kl == |b.rounds| - 1 && b.HasTie(kl, jl) && b.TieAt(kl, jl).id == last;
    NetAt(b, kl, jl);
    forall t | t in net ensures net[t].round <= net[last].round {
      var k, j := FindTie(b, t);
    }
    forall t | t in CupAccounting.BracketTies(net) ensures t != last <==> CupAccounting.Advances(net, t) {
      var k, j := FindTie(b, t);
      NetAdvancesIffConsumed(b, t);
    }
  }
}
