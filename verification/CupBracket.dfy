/**
 The shape of a Cup bracket, and what makes one well formed.

 A bracket is a list of rounds; a slot of a tie is a place in a qualification
 table or the winner of an earlier tie. Tie identities are values, not strings.
 */
module CupBracket {
  import opened Wrappers

  datatype Division = High | Low

  datatype Seed = Seed(division: Division, rank: int)

  datatype Stage = Qualifying1 | Qualifying2 | RoundOf16 | QuarterFinal | SemiFinal

  datatype TieId = Numbered(stage: Stage, number: nat) | Final | ThirdPlace

  datatype Slot = FromSeed(seed: Seed) | WinnerOf(tie: TieId)

  datatype Side = A | B

  datatype Tie = Tie(id: TieId, first: Slot, second: Slot)
  {
    function At(side: Side): Slot {
      if side == A then first else second
    }
  }

  datatype Round = Round(order: int, gameweek: int, ties: seq<Tie>, hasThirdPlace: bool)

  datatype Bracket = Bracket(rounds: seq<Round>)
  {
    predicate HasTie(k: nat, j: nat) {
      k < |rounds| && j < |rounds[k].ties|
    }

    function TieAt(k: nat, j: nat): Tie
      requires HasTie(k, j)
    {
      rounds[k].ties[j]
    }

    /** The first round played in a Gameweek. */
    function RoundForGameweek(gameweek: int): (k: Option<nat>)
      ensures k.Some? ==> k.value < |rounds| && rounds[k.value].gameweek == gameweek
      ensures k.None? ==> forall i :: 0 <= i < |rounds| ==> rounds[i].gameweek != gameweek
    {
      FirstRoundFrom(0, gameweek)
    }

    function FirstRoundFrom(i: nat, gameweek: int): (k: Option<nat>)
      requires i <= |rounds|
      ensures k.Some? ==> i <= k.value < |rounds| && rounds[k.value].gameweek == gameweek
      ensures k.None? ==> forall l :: i <= l < |rounds| ==> rounds[l].gameweek != gameweek
      decreases |rounds| - i
    {
      if i == |rounds| then None
      else if rounds[i].gameweek == gameweek then Some(i)
      else FirstRoundFrom(i + 1, gameweek)
    }

    /** The bracket takes this qualification place. */
    ghost predicate Uses(seed: Seed) {
      exists k: nat, j: nat, side: Side :: HasTie(k, j) && TieAt(k, j).At(side) == FromSeed(seed)
    }

    ghost predicate OrdersAndGameweeks() {
      && (forall k :: 0 <= k < |rounds| ==> rounds[k].order == k + 1)
      && (forall k, l :: 0 <= k < l < |rounds| ==> rounds[k].gameweek != rounds[l].gameweek)
      && (forall k, l :: 0 <= k < l < |rounds| ==> !(rounds[k].hasThirdPlace && rounds[l].hasThirdPlace))
    }

    ghost predicate UniqueIds() {
      && (forall k: nat, j: nat :: HasTie(k, j) ==> TieAt(k, j).id != ThirdPlace)
      && (forall k: nat, j: nat, k': nat, j': nat :: HasTie(k, j) && HasTie(k', j') && TieAt(k, j).id == TieAt(k', j').id
            ==> k == k' && j == j')
    }

    ghost predicate Plays(id: TieId, before: nat) {
      exists k: nat, j: nat :: k < before && HasTie(k, j) && TieAt(k, j).id == id
    }

    ghost predicate EarlierFeeders() {
      forall k: nat, j: nat, side: Side :: HasTie(k, j) && TieAt(k, j).At(side).WinnerOf?
        ==> Plays(TieAt(k, j).At(side).tie, k)
    }

    /** No qualification place and no winner is used by two slots. */
    ghost predicate SlotsUsedOnce() {
      forall k: nat, j: nat, side: Side, k': nat, j': nat, side': Side ::
        HasTie(k, j) && HasTie(k', j') && TieAt(k, j).At(side) == TieAt(k', j').At(side')
        ==> k == k' && j == j' && side == side'
    }

    ghost predicate WellFormed() {
      OrdersAndGameweeks() && UniqueIds() && EarlierFeeders() && SlotsUsedOnce()
    }

    /** Every tie but the last one sends its winner on. */
    ghost predicate SingleFinal(last: TieId) {
      && |rounds| > 0
      && (exists k: nat, j: nat :: k == |rounds| - 1 && HasTie(k, j) && TieAt(k, j).id == last)
      && (forall k: nat, j: nat :: HasTie(k, j) && TieAt(k, j).id != last ==> Consumed(TieAt(k, j).id))
      && !Consumed(last)
    }

    ghost predicate Consumed(id: TieId) {
      exists k: nat, j: nat, side: Side :: HasTie(k, j) && TieAt(k, j).At(side) == WinnerOf(id)
    }
  }
}
