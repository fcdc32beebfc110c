/** The two brackets of the 2026/27 Cup as drawn, proved to be well formed. */
module PublishedBrackets {
  import opened CupBracket

  function H(rank: int): Slot { FromSeed(Seed(High, rank)) }

  function L(rank: int): Slot { FromSeed(Seed(Low, rank)) }

  function W(stage: Stage, number: nat): Slot { WinnerOf(Numbered(stage, number)) }

  function Ties(stage: Stage, pairs: seq<(Slot, Slot)>): seq<Tie> {
    seq(|pairs|, j requires 0 <= j < |pairs| => Tie(Numbered(stage, j + 1), pairs[j].0, pairs[j].1))
  }

  const S1_QUALIFYING_1: seq<(Slot, Slot)> :=
    [ (H(11), L(22)), (H(12), L(21)), (L(7), L(20)), (L(8), L(19)), (H(13), L(18)), (H(14), L(17)),
      (L(9), L(16)), (L(10), L(15)), (H(15), L(14)), (H(16), L(13)), (L(11), H(18)), (L(12), H(17)) ]

  const S1_QUALIFYING_2: seq<(Slot, Slot)> :=
    [ (W(Qualifying1, 1), L(6)), (W(Qualifying1, 2), L(5)), (W(Qualifying1, 3), L(4)), (W(Qualifying1, 4), L(3)),
      (W(Qualifying1, 5), L(2)), (W(Qualifying1, 6), H(10)), (W(Qualifying1, 7), H(9)), (W(Qualifying1, 8), H(8)),
      (W(Qualifying1, 9), H(7)), (W(Qualifying1, 10), H(6)), (W(Qualifying1, 11), H(5)), (W(Qualifying1, 12), H(4)) ]

  const S1_ROUND_OF_16: seq<(Slot, Slot)> :=
    [ (W(Qualifying2, 1), W(Qualifying2, 9)), (W(Qualifying2, 2), W(Qualifying2, 10)),
      (W(Qualifying2, 3), W(Qualifying2, 11)), (W(Qualifying2, 4), W(Qualifying2, 12)),
      (W(Qualifying2, 5), L(1)), (W(Qualifying2, 6), H(3)), (W(Qualifying2, 7), H(2)), (W(Qualifying2, 8), H(1)) ]

  const S2_QUALIFYING_1: seq<(Slot, Slot)> :=
    [ (L(7), L(22)), (L(8), L(21)), (H(11), L(20)), (H(12), L(19)), (L(9), L(18)), (L(10), L(17)),
      (H(13), L(16)), (H(14), L(15)), (L(11), H(18)), (L(12), H(17)), (H(15), L(14)), (H(16), L(13)) ]

  const S2_QUALIFYING_2: seq<(Slot, Slot)> :=
    [ (W(Qualifying1, 1), H(10)), (W(Qualifying1, 2), L(6)), (W(Qualifying1, 3), H(9)), (W(Qualifying1, 4), H(8)),
      (W(Qualifying1, 5), L(5)), (W(Qualifying1, 6), L(4)), (W(Qualifying1, 7), H(7)), (W(Qualifying1, 8), H(6)),
      (W(Qualifying1, 9), L(3)), (W(Qualifying1, 10), L(2)), (W(Qualifying1, 11), H(5)), (W(Qualifying1, 12), H(4)) ]

  const S2_ROUND_OF_16: seq<(Slot, Slot)> :=
    [ (W(Qualifying2, 1), W(Qualifying2, 9)), (W(Qualifying2, 2), W(Qualifying2, 10)),
      (W(Qualifying2, 3), W(Qualifying2, 11)), (W(Qualifying2, 4), W(Qualifying2, 12)),
      (W(Qualifying2, 5), H(3)), (W(Qualifying2, 6), L(1)), (W(Qualifying2, 7), H(2)), (W(Qualifying2, 8), H(1)) ]

  const QUARTER_FINALS: seq<(Slot, Slot)> :=
    [ (W(RoundOf16, 1), W(RoundOf16, 5)), (W(RoundOf16, 2), W(RoundOf16, 6)),
      (W(RoundOf16, 3), W(RoundOf16, 7)), (W(RoundOf16, 4), W(RoundOf16, 8)) ]

  const SEMI_FINALS: seq<(Slot, Slot)> :=
    [ (W(QuarterFinal, 1), W(QuarterFinal, 3)), (W(QuarterFinal, 2), W(QuarterFinal, 4)) ]

  const FINAL_TIE := Tie(Final, W(SemiFinal, 1), W(SemiFinal, 2))

  function Build(qualifying1: seq<(Slot, Slot)>, qualifying2: seq<(Slot, Slot)>, roundOf16: seq<(Slot, Slot)>,
                 firstGameweek: int): Bracket
  {
    Bracket([
      Round(1, firstGameweek, Ties(Qualifying1, qualifying1), false),
      Round(2, firstGameweek + 1, Ties(Qualifying2, qualifying2), false),
      Round(3, firstGameweek + 2, Ties(RoundOf16, roundOf16), false),
      Round(4, firstGameweek + 3, Ties(QuarterFinal, QUARTER_FINALS), false),
      Round(5, firstGameweek + 4, Ties(SemiFinal, SEMI_FINALS), false),
      Round(6, firstGameweek + 5, [FINAL_TIE], true) ])
  }

  function CupSeason1(): Bracket {
    Build(S1_QUALIFYING_1, S1_QUALIFYING_2, S1_ROUND_OF_16, 14)
  }

  function CupSeason2(): Bracket {
    Build(S2_QUALIFYING_1, S2_QUALIFYING_2, S2_ROUND_OF_16, 33)
  }

  // ----- Checking them: where each slot is used, read off the tables -----

  const S1_HIGH_USES: seq<(int, int, Side)> :=
    [ (2, 7, B), (2, 6, B), (2, 5, B), (1, 11, B), (1, 10, B), (1, 9, B), (1, 8, B), (1, 7, B), (1, 6, B),
      (1, 5, B), (0, 0, A), (0, 1, A), (0, 4, A), (0, 5, A), (0, 8, A), (0, 9, A), (0, 11, B), (0, 10, B) ]

  const S1_LOW_USES: seq<(int, int, Side)> :=
    [ (2, 4, B), (1, 4, B), (1, 3, B), (1, 2, B), (1, 1, B), (1, 0, B), (0, 2, A), (0, 3, A), (0, 6, A),
      (0, 7, A), (0, 10, A), (0, 11, A), (0, 9, B), (0, 8, B), (0, 7, B), (0, 6, B), (0, 5, B), (0, 4, B),
      (0, 3, B), (0, 2, B), (0, 1, B), (0, 0, B) ]

  const S2_HIGH_USES: seq<(int, int, Side)> :=
    [ (2, 7, B), (2, 6, B), (2, 4, B), (1, 11, B), (1, 10, B), (1, 7, B), (1, 6, B), (1, 3, B), (1, 2, B),
      (1, 0, B), (0, 2, A), (0, 3, A), (0, 6, A), (0, 7, A), (0, 10, A), (0, 11, A), (0, 9, B), (0, 8, B) ]

  const S2_LOW_USES: seq<(int, int, Side)> :=
    [ (2, 5, B), (1, 9, B), (1, 8, B), (1, 5, B), (1, 4, B), (1, 1, B), (0, 0, A), (0, 1, A), (0, 4, A),
      (0, 5, A), (0, 8, A), (0, 9, A), (0, 11, B), (0, 10, B), (0, 7, B), (0, 6, B), (0, 5, B), (0, 4, B),
      (0, 3, B), (0, 2, B), (0, 1, B), (0, 0, B) ]

  function StageOf(k: nat): Stage
    requires k < 5
  {
    [Qualifying1, Qualifying2, RoundOf16, QuarterFinal, SemiFinal][k]
  }

  /** Where a tie's winner goes next, in both brackets. */
  function NextOf(tie: TieId): (int, int, Side) {
    match tie
    case Numbered(Qualifying1, n) => (1, n - 1, A)
    case Numbered(Qualifying2, n) => if n <= 8 then (2, n - 1, A) else (2, n - 9, B)
    case Numbered(RoundOf16, n) => if n <= 4 then (3, n - 1, A) else (3, n - 5, B)
    case Numbered(QuarterFinal, n) => if n <= 2 then (4, n - 1, A) else (4, n - 3, B)
    case Numbered(SemiFinal, n) => (5, 0, if n == 1 then A else B)
    case _ => (6, 0, A)
  }

  function UseOf(slot: Slot, high: seq<(int, int, Side)>, low: seq<(int, int, Side)>): (int, int, Side) {
    match slot
    case WinnerOf(tie) => NextOf(tie)
    case FromSeed(Seed(High, r)) => if 1 <= r <= |high| then high[r - 1] else (6, 0, A)
    case FromSeed(Seed(Low, r)) => if 1 <= r <= |low| then low[r - 1] else (6, 0, A)
  }

  ghost predicate LaidOut(b: Bracket, firstGameweek: int) {
    && |b.rounds| == 6
    && (forall k :: 0 <= k < 6 ==> b.rounds[k].order == k + 1 && b.rounds[k].gameweek == firstGameweek + k)
    && (forall k :: 0 <= k < 6 ==> (b.rounds[k].hasThirdPlace <==> k == 5))
    && (forall k: nat, j: nat :: k < 5 && b.HasTie(k, j) ==> b.TieAt(k, j).id == Numbered(StageOf(k), j + 1))
    && b.rounds[5].ties == [FINAL_TIE]
  }

  /** A slot used at place (k, j, side), as the tables and the size of the round before allow. */
  predicate SlotFits(slot: Slot, high: seq<(int, int, Side)>, low: seq<(int, int, Side)>,
                     k: nat, j: nat, side: Side, feeders: nat)
  {
    && UseOf(slot, high, low) == (k, j, side)
    && match slot
       case FromSeed(seed) => 1 <= seed.rank <= if seed.division == High then |high| else |low|
       case WinnerOf(tie) =>
         1 <= k <= 5 && tie.Numbered? && tie.stage == StageOf(k - 1) && 1 <= tie.number <= feeders
  }

  predicate PairsFitUpTo(pairs: seq<(Slot, Slot)>, high: seq<(int, int, Side)>, low: seq<(int, int, Side)>,
                         k: nat, feeders: nat, from: nat, to: nat)
    requires to <= |pairs|
  {
    forall j :: from <= j < to ==>
      SlotFits(pairs[j].0, high, low, k, j, A, feeders) && SlotFits(pairs[j].1, high, low, k, j, B, feeders)
  }

  predicate PairsFit(pairs: seq<(Slot, Slot)>, high: seq<(int, int, Side)>, low: seq<(int, int, Side)>,
                     k: nat, feeders: nat)
  {
    PairsFitUpTo(pairs, high, low, k, feeders, 0, |pairs|)
  }

  /** How many ties the round before round k has. */
  function Feeders(b: Bracket, k: nat): nat
    requires k < |b.rounds|
  {
    if k == 0 then 0 else |b.rounds[k - 1].ties|
  }

  ghost predicate AllSlotsFit(b: Bracket, high: seq<(int, int, Side)>, low: seq<(int, int, Side)>) {
    forall k: nat, j: nat, side: Side :: b.HasTie(k, j) ==>
      SlotFits(b.TieAt(k, j).At(side), high, low, k, j, side, Feeders(b, k))
  }

  lemma BuildIsLaidOut(q1: seq<(Slot, Slot)>, q2: seq<(Slot, Slot)>, r16: seq<(Slot, Slot)>, firstGameweek: int)
    ensures LaidOut(Build(q1, q2, r16, firstGameweek), firstGameweek)
  {}

  lemma FittingBracketIsWellFormed(b: Bracket, firstGameweek: int,
                                   high: seq<(int, int, Side)>, low: seq<(int, int, Side)>)
    requires LaidOut(b, firstGameweek) && AllSlotsFit(b, high, low)
    ensures b.WellFormed()
  {
    forall k: nat, j: nat, side: Side | b.HasTie(k, j) && b.TieAt(k, j).At(side).WinnerOf?
      ensures b.Plays(b.TieAt(k, j).At(side).tie, k)
    {
      assert SlotFits(b.TieAt(k, j).At(side), high, low, k, j, side, Feeders(b, k));
      var n := b.TieAt(k, j).At(side).tie.number;
      assert b.HasTie(k - 1, n - 1) && b.TieAt(k - 1, n - 1).id == b.TieAt(k, j).At(side).tie;
    }
    forall k: nat, j: nat, side: Side, k': nat, j': nat, side': Side |
      b.HasTie(k, j) && b.HasTie(k', j') && b.TieAt(k, j).At(side) == b.TieAt(k', j').At(side')
      ensures k == k' && j == j' && side == side'
    {
      assert UseOf(b.TieAt(k, j).At(side), high, low) == (k, j, side);
      assert UseOf(b.TieAt(k', j').At(side'), high, low) == (k', j', side');
    }
  }

  lemma Season1QualifyingFits()
    ensures PairsFit(S1_QUALIFYING_1, S1_HIGH_USES, S1_LOW_USES, 0, 0)
  {}

  lemma Season1SecondQualifyingFits()
    ensures PairsFit(S1_QUALIFYING_2, S1_HIGH_USES, S1_LOW_USES, 1, 12)
  {}

  lemma Season2QualifyingFits()
    ensures PairsFit(S2_QUALIFYING_1, S2_HIGH_USES, S2_LOW_USES, 0, 0)
  {}

  lemma Season2SecondQualifyingFits()
    ensures PairsFit(S2_QUALIFYING_2, S2_HIGH_USES, S2_LOW_USES, 1, 12)
  {}

  lemma LastRoundsFit(high: seq<(int, int, Side)>, low: seq<(int, int, Side)>)
    ensures PairsFit(QUARTER_FINALS, high, low, 3, 8)
    ensures PairsFit(SEMI_FINALS, high, low, 4, 4)
    ensures SlotFits(FINAL_TIE.first, high, low, 5, 0, A, 2) && SlotFits(FINAL_TIE.second, high, low, 5, 0, B, 2)
  {}

  lemma BuildFits(q1: seq<(Slot, Slot)>, q2: seq<(Slot, Slot)>, r16: seq<(Slot, Slot)>, firstGameweek: int,
                  high: seq<(int, int, Side)>, low: seq<(int, int, Side)>)
    requires |q1| == |q2| == 12 && |r16| == 8
    requires PairsFit(q1, high, low, 0, 0) && PairsFit(q2, high, low, 1, 12) && PairsFit(r16, high, low, 2, 12)
    ensures AllSlotsFit(Build(q1, q2, r16, firstGameweek), high, low)
  {
    LastRoundsFit(high, low);
  }

  /** In both brackets every tie but the final sends its winner to the place NextOf names. */
  lemma EveryWinnerMovesOn(b: Bracket, q1: seq<(Slot, Slot)>, q2: seq<(Slot, Slot)>, r16: seq<(Slot, Slot)>, first: int,
                           high: seq<(int, int, Side)>, low: seq<(int, int, Side)>)
    requires b == Build(q1, q2, r16, first) && |q1| == |q2| == 12 && |r16| == 8
    requires AllSlotsFit(b, high, low)
    requires forall j :: 0 <= j < 12 ==> q2[j].0 == W(Qualifying1, j + 1)
    requires forall j :: 0 <= j < 8 ==> r16[j].0 == W(Qualifying2, j + 1)
    requires forall j :: 0 <= j < 4 ==> r16[j].1 == W(Qualifying2, j + 9)
    ensures b.SingleFinal(Final)
  {
    assert b.HasTie(5, 0) && b.TieAt(5, 0).id == Final;
    forall k: nat, j: nat | b.HasTie(k, j) && b.TieAt(k, j).id != Final
      ensures b.Consumed(b.TieAt(k, j).id)
    {
      var next := NextOf(b.TieAt(k, j).id);
      assert b.TieAt(k, j).id == Numbered(StageOf(k), j + 1);
      assert b.HasTie(next.0, next.1) && b.TieAt(next.0, next.1).At(next.2) == WinnerOf(b.TieAt(k, j).id);
    }
    forall k: nat, j: nat, side: Side | b.HasTie(k, j) ensures b.TieAt(k, j).At(side) != WinnerOf(Final) {
      assert SlotFits(b.TieAt(k, j).At(side), high, low, k, j, side, Feeders(b, k));
    }
  }

  lemma Season1IsWellFormed()
    ensures CupSeason1().WellFormed() && CupSeason1().SingleFinal(Final)
  {
    assert AllSlotsFit(CupSeason1(), S1_HIGH_USES, S1_LOW_USES) by {
      Season1QualifyingFits();
      Season1SecondQualifyingFits();
      BuildFits(S1_QUALIFYING_1, S1_QUALIFYING_2, S1_ROUND_OF_16, 14, S1_HIGH_USES, S1_LOW_USES);
    }
    BuildIsLaidOut(S1_QUALIFYING_1, S1_QUALIFYING_2, S1_ROUND_OF_16, 14);
    FittingBracketIsWellFormed(CupSeason1(), 14, S1_HIGH_USES, S1_LOW_USES);
    EveryWinnerMovesOn(CupSeason1(), S1_QUALIFYING_1, S1_QUALIFYING_2, S1_ROUND_OF_16, 14, S1_HIGH_USES, S1_LOW_USES);
  }

  lemma Season2IsWellFormed()
    ensures CupSeason2().WellFormed() && CupSeason2().SingleFinal(Final)
  {
    assert AllSlotsFit(CupSeason2(), S2_HIGH_USES, S2_LOW_USES) by {
      Season2QualifyingFits();
      Season2SecondQualifyingFits();
      BuildFits(S2_QUALIFYING_1, S2_QUALIFYING_2, S2_ROUND_OF_16, 33, S2_HIGH_USES, S2_LOW_USES);
    }
    BuildIsLaidOut(S2_QUALIFYING_1, S2_QUALIFYING_2, S2_ROUND_OF_16, 33);
    FittingBracketIsWellFormed(CupSeason2(), 33, S2_HIGH_USES, S2_LOW_USES);
    EveryWinnerMovesOn(CupSeason2(), S2_QUALIFYING_1, S2_QUALIFYING_2, S2_ROUND_OF_16, 33, S2_HIGH_USES, S2_LOW_USES);
  }

  /** Both published brackets are well formed and run to one final. */
  lemma PublishedBracketsAreWellFormed()
    ensures CupSeason1().WellFormed() && CupSeason1().SingleFinal(Final)
    ensures CupSeason2().WellFormed() && CupSeason2().SingleFinal(Final)
  {
    Season1IsWellFormed();
    Season2IsWellFormed();
  }

  predicate SeedInTable(seed: Seed) {
    1 <= seed.rank <= if seed.division == High then 18 else 22
  }

  /** The slot of the three seeded rounds that a use table points to. */
  function SlotAt(rounds: seq<seq<(Slot, Slot)>>, use: (int, int, Side)): Slot {
    if 0 <= use.0 < |rounds| && 0 <= use.1 < |rounds[use.0]|
    then if use.2 == A then rounds[use.0][use.1].0 else rounds[use.0][use.1].1
    else H(0)
  }

  const S1_SEEDED := [S1_QUALIFYING_1, S1_QUALIFYING_2, S1_ROUND_OF_16]

  const S2_SEEDED := [S2_QUALIFYING_1, S2_QUALIFYING_2, S2_ROUND_OF_16]

  lemma Season1HighUses(r: nat)
    requires 1 <= r <= 18
    ensures SlotAt(S1_SEEDED, S1_HIGH_USES[r - 1]) == H(r)
  {}

  lemma Season1LowUses(r: nat)
    requires 1 <= r <= 22
    ensures SlotAt(S1_SEEDED, S1_LOW_USES[r - 1]) == L(r)
  {}

  lemma Season2HighUses(r: nat)
    requires 1 <= r <= 18
    ensures SlotAt(S2_SEEDED, S2_HIGH_USES[r - 1]) == H(r)
  {}

  lemma Season2LowUses(r: nat)
    requires 1 <= r <= 22
    ensures SlotAt(S2_SEEDED, S2_LOW_USES[r - 1]) == L(r)
  {}

  lemma UseIsASlot(q1: seq<(Slot, Slot)>, q2: seq<(Slot, Slot)>, r16: seq<(Slot, Slot)>, first: int,
                   use: (int, int, Side), seed: Seed)
    requires SlotAt([q1, q2, r16], use) == FromSeed(seed) && seed.rank > 0
    ensures Build(q1, q2, r16, first).Uses(seed)
  {
    var b := Build(q1, q2, r16, first);
    assert b.HasTie(use.0, use.1) && b.TieAt(use.0, use.1).At(use.2) == FromSeed(seed);
  }

  /** The Cup takes HIGH 1 to 18 and LOW 1 to 22, in both seasons. */
  lemma PublishedSeeds(seed: Seed)
    ensures CupSeason1().Uses(seed) <==> SeedInTable(seed)
    ensures CupSeason2().Uses(seed) <==> SeedInTable(seed)
  {
    OnlyTableSeeds(seed);
    if SeedInTable(seed) {
      var r := seed.rank;
      if seed.division == High {
        Season1HighUses(r);
        Season2HighUses(r);
      } else {
        Season1LowUses(r);
        Season2LowUses(r);
      }
      UseIsASlot(S1_QUALIFYING_1, S1_QUALIFYING_2, S1_ROUND_OF_16, 14,
                 if seed.division == High then S1_HIGH_USES[r - 1] else S1_LOW_USES[r - 1], seed);
      UseIsASlot(S2_QUALIFYING_1, S2_QUALIFYING_2, S2_ROUND_OF_16, 33,
                 if seed.division == High then S2_HIGH_USES[r - 1] else S2_LOW_USES[r - 1], seed);
    }
  }

  lemma OnlyTableSeeds(seed: Seed)
    ensures CupSeason1().Uses(seed) || CupSeason2().Uses(seed) ==> SeedInTable(seed)
  {
    Season1QualifyingFits();
    Season1SecondQualifyingFits();
    BuildFits(S1_QUALIFYING_1, S1_QUALIFYING_2, S1_ROUND_OF_16, 14, S1_HIGH_USES, S1_LOW_USES);
    Season2QualifyingFits();
    Season2SecondQualifyingFits();
    BuildFits(S2_QUALIFYING_1, S2_QUALIFYING_2, S2_ROUND_OF_16, 33, S2_HIGH_USES, S2_LOW_USES);
  }
}
