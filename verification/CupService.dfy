/** The service that draws a Cup and moves winners through it, with its rows updated in place. */
module CupService {
  import opened Wrappers
  import opened Rankings
  import opened CupBracket
  import opened CupEvaluation
  import opened CupNets
  import opened CupRun
  import opened CupDraw

  datatype GenerateError =
    | AlreadyDrawn
    | QualificationOpen
    | PlacesNotFilled(missing: set<Seed>)

  datatype AdvanceError = NotDrawn | NoRoundInGameweek | GameweekStillLive

  datatype AdvancedRound = AdvancedRound(tiesResolved: nat, tiesAwaitingDraw: nat)

  /** The rows of one round, in the order the bracket is drawn. */
  function RowIds(b: Bracket, k: nat): (ids: seq<TieId>)
    requires k < |b.rounds|
    ensures |ids| == |b.rounds[k].ties| + if b.rounds[k].hasThirdPlace then 1 else 0
    ensures forall j :: 0 <= j < |b.rounds[k].ties| ==> ids[j] == b.rounds[k].ties[j].id
    ensures b.rounds[k].hasThirdPlace ==> ids[|b.rounds[k].ties|] == ThirdPlace
  {
    seq(|b.rounds[k].ties|, j requires 0 <= j < |b.rounds[k].ties| => b.rounds[k].ties[j].id)
    + if b.rounds[k].hasThirdPlace then [ThirdPlace] else []
  }

  /** The rows of round k are the net's ties of that round, each once. */
  ghost predicate HoldsRound(b: Bracket, k: nat)
    requires k < |b.rounds|
  {
    && (forall t :: t in RowIds(b, k) <==> t in NetOf(b) && NetOf(b)[t].round == k)
    && (forall i, j :: 0 <= i < j < |RowIds(b, k)| ==> RowIds(b, k)[i] != RowIds(b, k)[j])
  }

  lemma RowIdsAreTheRound(b: Bracket, k: nat)
    requires b.WellFormed() && k < |b.rounds|
    ensures HoldsRound(b, k)
  {
    var ids := RowIds(b, k);
    forall t | t in ids ensures t in NetOf(b) && NetOf(b)[t].round == k {
      var i :| 0 <= i < |ids| && ids[i] == t;
      if i < |b.rounds[k].ties| {
        NetAt(b, k, i);
      } else {
        NetAtThirdPlace(b, k);
      }
    }
    forall t | t in NetOf(b) && NetOf(b)[t].round == k ensures t in ids {
      var k', j := FindTie(b, t);
      assert t == ids[if t == ThirdPlace then |b.rounds[k].ties| else j];
    }
    forall i, j | 0 <= i < j < |ids| ensures ids[i] != ids[j] {
      assert b.HasTie(k, i) && b.TieAt(k, i).id == ids[i];
      assert j < |b.rounds[k].ties| ==> b.HasTie(k, j) && b.TieAt(k, j).id == ids[j];
    }
  }

  /** Resolving the tie raises no error, and settles it as specified. */
  predicate SettlesTo(figures: Figures, gameweek: int, before: CupMatch, after: CupMatch) {
    && (IsOpen(before) ==> Play(figures, gameweek, before.a.value, before.b.value).Ok?)
    && after == Settle(figures, gameweek, before)
  }

  /** What settling a round hands on: winners and losers by tie, and the two counters. */
  datatype Tally = Tally(winners: map<TieId, int>, losers: map<TieId, int>, resolved: nat, awaiting: nat)

  /** A tie before and after it was settled. */
  function AddTie(tally: Tally, id: TieId, before: CupMatch, after: CupMatch): Tally {
    Tally(if after.winner.Some? then tally.winners[id := after.winner.value] else tally.winners,
          if after.Loser().Some? then tally.losers[id := after.Loser().value] else tally.losers,
          tally.resolved + if after.winner != before.winner then 1 else 0,
          tally.awaiting + if after.AwaitsDraw() then 1 else 0)
  }

  function Tallied(before: Rows, after: Rows, ids: seq<TieId>): Tally
    requires forall t :: t in ids ==> t in before && t in after
  {
    if ids == [] then Tally(map[], map[], 0, 0)
    else
      var last := ids[|ids| - 1];
      AddTie(Tallied(before, after, ids[..|ids| - 1]), last, before[last], after[last])
  }

  lemma PrefixGrows(ids: seq<TieId>, i: nat)
    requires i < |ids|
    ensures ids[..i + 1] == ids[..i] + [ids[i]]
  {}

  /** The rows while a round is being gone through: the named ties are as they will be, the others as they were. */
  ghost predicate Partly(before: Rows, after: Rows, rows: Rows, ids: seq<TieId>) {
    && rows.Keys == before.Keys == after.Keys
    && forall t :: t in rows ==> rows[t] == if t in ids then after[t] else before[t]
  }

  lemma PartlyGrows(before: Rows, after: Rows, rows: Rows, ids: seq<TieId>, i: nat)
    requires i < |ids| && ids[i] in rows && Partly(before, after, rows, ids[..i])
    ensures Partly(before, after, rows[ids[i] := after[ids[i]]], ids[..i + 1])
  {
    PrefixGrows(ids, i);
  }

  lemma TallyOneMore(before: Rows, after: Rows, ids: seq<TieId>, id: TieId)
    requires forall t :: t in ids + [id] ==> t in before && t in after
    ensures Tallied(before, after, ids + [id]) == AddTie(Tallied(before, after, ids), id, before[id], after[id])
  {
    assert (ids + [id])[..|ids|] == ids;
  }

  /** The tally knows exactly the decided ties among those it went through. */
  lemma {:induction false} TallyMaps(before: Rows, after: Rows, ids: seq<TieId>)
    requires forall t :: t in ids ==> t in before && t in after
    ensures var tally := Tallied(before, after, ids);
            && (forall t :: t in tally.winners <==> t in ids && after[t].winner.Some?)
            && (forall t :: t in tally.winners ==> after[t].winner == Some(tally.winners[t]))
            && (forall t :: t in tally.losers <==> t in ids && after[t].Loser().Some?)
            && (forall t :: t in tally.losers ==> after[t].Loser() == Some(tally.losers[t]))
  {
    if ids != [] {
      TallyMaps(before, after, ids[..|ids| - 1]);
      assert ids == ids[..|ids| - 1] + [ids[|ids| - 1]];
    }
  }

  lemma OneMore(ids: seq<TieId>, last: TieId, p: TieId -> bool)
    requires last !in ids
    ensures |set t | t in ids + [last] && p(t)| == |set t | t in ids && p(t)| + if p(last) then 1 else 0
  {
    var picked := set t | t in ids && p(t);
    if p(last) {
      assert (set t | t in ids + [last] && p(t)) == picked + {last};
    } else {
      assert (set t | t in ids + [last] && p(t)) == picked;
    }
  }

  /** ... and counts each of them once. */
  lemma {:induction false} TallyCounts(before: Rows, after: Rows, ids: seq<TieId>, won: TieId -> bool, waits: TieId -> bool)
    requires forall t :: t in ids ==> t in before && t in after
    requires forall i, j :: 0 <= i < j < |ids| ==> ids[i] != ids[j]
    requires forall t :: t in ids ==> (won(t) <==> after[t].winner != before[t].winner)
    requires forall t :: t in ids ==> (waits(t) <==> after[t].AwaitsDraw())
    ensures Tallied(before, after, ids).resolved == |set t | t in ids && won(t)|
    ensures Tallied(before, after, ids).awaiting == |set t | t in ids && waits(t)|
  {
    if ids != [] {
      var last, rest := ids[|ids| - 1], ids[..|ids| - 1];
      assert ids == rest + [last] && last !in rest;
      TallyCounts(before, after, rest, won, waits);
      OneMore(rest, last, won);
      OneMore(rest, last, waits);
    }
  }

  // ----- One later round, as placing writes it -----

  function PlacedSlot(current: Option<int>, slot: Slot, winners: map<TieId, int>): Option<int> {
    if current.None? && slot.WinnerOf? && slot.tie in winners then Some(winners[slot.tie]) else current
  }

  function PlacedTie(m: CupMatch, tie: Tie, winners: map<TieId, int>): CupMatch {
    m.(a := PlacedSlot(m.a, tie.first, winners), b := PlacedSlot(m.b, tie.second, winners))
  }

  /** The ties of every round whose order comes just before round l's. */
  function SemiFinals(b: Bracket, l: nat): seq<TieId>
    requires l < |b.rounds|
  {
    TiesOfOrder(b.rounds, b.rounds[l].order - 1)
  }

  function TiesOfOrder(rounds: seq<Round>, order: int): seq<TieId> {
    if rounds == [] then []
    else
      (if rounds[0].order == order
       then seq(|rounds[0].ties|, j requires 0 <= j < |rounds[0].ties| => rounds[0].ties[j].id) else [])
      + TiesOfOrder(rounds[1..], order)
  }

  function PlacedLoser(current: Option<int>, semiFinals: seq<TieId>, i: nat, losers: map<TieId, int>): Option<int> {
    if current.None? && i < |semiFinals| && semiFinals[i] in losers then Some(losers[semiFinals[i]]) else current
  }

  function PlacedThird(m: CupMatch, semiFinals: seq<TieId>, losers: map<TieId, int>): CupMatch {
    m.(a := PlacedLoser(m.a, semiFinals, 0, losers), b := PlacedLoser(m.b, semiFinals, 1, losers))
  }

  ghost predicate PlacesRound(b: Bracket, l: nat, tally: Tally, before: Rows, after: Rows)
    requires l < |b.rounds|
  {
    && (forall t :: t in RowIds(b, l) ==> t in before && t in after)
    && (forall j {:trigger b.rounds[l].ties[j]} :: 0 <= j < |b.rounds[l].ties| ==>
          var tie := b.rounds[l].ties[j]; after[tie.id] == PlacedTie(before[tie.id], tie, tally.winners))
    && (b.rounds[l].hasThirdPlace ==>
          after[ThirdPlace] == PlacedThird(before[ThirdPlace], SemiFinals(b, l), tally.losers))
  }

  lemma {:induction false} NoTiesOfOrder(rounds: seq<Round>, order: int)
    requires forall i :: 0 <= i < |rounds| ==> rounds[i].order != order
    ensures TiesOfOrder(rounds, order) == []
  {
    if rounds != [] {
      NoTiesOfOrder(rounds[1..], order);
    }
  }

  lemma {:induction false} TiesOfOneRound(rounds: seq<Round>, order: int, k: nat)
    requires k < |rounds| && rounds[k].order == order
    requires forall i :: 0 <= i < |rounds| && i != k ==> rounds[i].order != order
    ensures TiesOfOrder(rounds, order) == seq(|rounds[k].ties|, j requires 0 <= j < |rounds[k].ties| => rounds[k].ties[j].id)
  {
    if k == 0 {
      NoTiesOfOrder(rounds[1..], order);
    } else {
      TiesOfOneRound(rounds[1..], order, k - 1);
    }
  }

  lemma SemiFinalsAreTheRoundBefore(b: Bracket, l: nat)
    requires b.WellFormed() && l < |b.rounds|
    ensures forall i: nat :: (i < |SemiFinals(b, l)| <==> LoserSource(b, l, i) != Nobody)
                          && (i < |SemiFinals(b, l)| ==> LoserSource(b, l, i) == Losing(SemiFinals(b, l)[i]))
  {
    if l == 0 {
      NoTiesOfOrder(b.rounds, b.rounds[l].order - 1);
    } else {
      TiesOfOneRound(b.rounds, b.rounds[l].order - 1, l - 1);
    }
  }

  // ----- The targets of both halves -----

  lemma SettleTargets(b: Bracket, seeded: map<Seed, int>, figures: Figures, rows: Rows, k: nat, t: TieId)
    requires b.WellFormed() && SoundNet(NetOf(b)) && DrawIsFair(NetOf(b), Bare(seeded)) && Upheld(NetOf(b), seeded, rows)
    requires t in NetOf(b) && NetOf(b)[t].round == k
    ensures k < |b.rounds|
    ensures SettlesTo(figures, b.rounds[k].gameweek, rows[t], SettleRound(NetOf(b), figures, rows, k)[t])
  {
    var k', j := FindTie(b, t);
    assert Agrees(NetOf(b), Bare(seeded), Winners(rows), t, rows[t]);
    if IsOpen(rows[t]) {
      SidesDiffer(NetOf(b), Bare(seeded), Winners(rows), t, rows[t]);
    }
  }

  /** Winners and losers are exactly those of the settled ties of round k. */
  ghost predicate TallyFits(net: Net, settled: Rows, k: nat, tally: Tally) {
    && settled.Keys == net.Keys
    && (forall t :: t in tally.winners <==> t in net && net[t].round == k && settled[t].winner.Some?)
    && (forall t :: t in tally.winners ==> settled[t].winner == Some(tally.winners[t]))
    && (forall t :: t in tally.losers <==> t in net && net[t].round == k && settled[t].Loser().Some?)
    && (forall t :: t in tally.losers ==> settled[t].Loser() == Some(tally.losers[t]))
  }

  lemma WinnerSlotTarget(net: Net, settled: Rows, k: nat, tally: Tally, current: Option<int>, slot: Slot)
    requires settled.Keys == net.Keys && TallyFits(net, settled, k, tally)
    ensures PlacedSlot(current, slot, tally.winners) == Fill(net, settled, k, current, SourceOf(slot))
  {}

  lemma LoserOfTieTarget(net: Net, settled: Rows, k: nat, tally: Tally, current: Option<int>, t: TieId)
    requires settled.Keys == net.Keys && TallyFits(net, settled, k, tally)
    ensures Fill(net, settled, k, current, Losing(t)) ==
            if current.None? && t in tally.losers then Some(tally.losers[t]) else current
  {}

  lemma LoserSlotTarget(b: Bracket, settled: Rows, k: nat, l: nat, tally: Tally, current: Option<int>, i: nat)
    requires b.WellFormed() && l < |b.rounds|
    requires settled.Keys == NetOf(b).Keys && TallyFits(NetOf(b), settled, k, tally)
    ensures PlacedLoser(current, SemiFinals(b, l), i, tally.losers) ==
            Fill(NetOf(b), settled, k, current, LoserSource(b, l, i))
  {
    SemiFinalsAreTheRoundBefore(b, l);
    if i < |SemiFinals(b, l)| {
      LoserOfTieTarget(NetOf(b), settled, k, tally, current, SemiFinals(b, l)[i]);
    }
  }

  lemma PlaceTargets(b: Bracket, settled: Rows, k: nat, l: nat, tally: Tally)
    requires b.WellFormed() && k < l < |b.rounds| && HoldsRound(b, l)
    requires settled.Keys == NetOf(b).Keys && TallyFits(NetOf(b), settled, k, tally)
    ensures PlacesRound(b, l, tally, settled, FillLaterRounds(NetOf(b), settled, k))
  {
    var after := FillLaterRounds(NetOf(b), settled, k);
    forall j | 0 <= j < |b.rounds[l].ties|
      ensures var tie := b.rounds[l].ties[j]; after[tie.id] == PlacedTie(settled[tie.id], tie, tally.winners)
    {
      var tie := b.TieAt(l, j);
      NetAt(b, l, j);
      WinnerSlotTarget(NetOf(b), settled, k, tally, settled[tie.id].a, tie.first);
      WinnerSlotTarget(NetOf(b), settled, k, tally, settled[tie.id].b, tie.second);
    }
    if b.rounds[l].hasThirdPlace {
      PlaceThirdTarget(b, settled, k, l, tally);
    }
  }

  lemma PlaceThirdTarget(b: Bracket, settled: Rows, k: nat, l: nat, tally: Tally)
    requires b.WellFormed() && k < l < |b.rounds| && b.rounds[l].hasThirdPlace
    requires settled.Keys == NetOf(b).Keys && TallyFits(NetOf(b), settled, k, tally)
    ensures ThirdPlace in settled
    ensures FillLaterRounds(NetOf(b), settled, k)[ThirdPlace] ==
            PlacedThird(settled[ThirdPlace], SemiFinals(b, l), tally.losers)
  {
    NetAtThirdPlace(b, l);
    LoserSlotTarget(b, settled, k, l, tally, settled[ThirdPlace].a, 0);
    LoserSlotTarget(b, settled, k, l, tally, settled[ThirdPlace].b, 1);
  }

  lemma CountsOfRound(b: Bracket, before: Rows, settled: Rows, k: nat)
    requires k < |b.rounds| && HoldsRound(b, k) && before.Keys == settled.Keys == NetOf(b).Keys
    ensures forall t :: t in RowIds(b, k) ==> t in before && t in settled
    ensures Tallied(before, settled, RowIds(b, k)).resolved == |Resolved(NetOf(b), before, settled, k)|
    ensures Tallied(before, settled, RowIds(b, k)).awaiting == |Awaiting(NetOf(b), settled, k)|
  {
    var won := t => t in settled && t in before && settled[t].winner != before[t].winner;
    var waits := t => t in settled && settled[t].AwaitsDraw();
    TallyCounts(before, settled, RowIds(b, k), won, waits);
    CountedInRound(NetOf(b), before, settled, k, RowIds(b, k), won, waits);
  }

  lemma CountedInRound(net: Net, before: Rows, settled: Rows, k: nat, ids: seq<TieId>,
                       won: TieId -> bool, waits: TieId -> bool)
    requires before.Keys == settled.Keys == net.Keys && forall t :: t in ids <==> t in net && net[t].round == k
    requires forall t :: won(t) <==> t in settled && t in before && settled[t].winner != before[t].winner
    requires forall t :: waits(t) <==> t in settled && settled[t].AwaitsDraw()
    ensures (set t | t in ids && won(t)) == Resolved(net, before, settled, k)
    ensures (set t | t in ids && waits(t)) == Awaiting(net, settled, k)
  {}

  /** The ties of round k that gained a winner. */
  ghost function Resolved(net: Net, before: Rows, after: Rows, k: nat): set<TieId> {
    set t | t in after && t in before && t in net && net[t].round == k && after[t].winner != before[t].winner
  }

  ghost function Awaiting(net: Net, rows: Rows, k: nat): set<TieId> {
    set t | t in rows && t in net && net[t].round == k && rows[t].AwaitsDraw()
  }

  lemma FillingKeepsCounts(net: Net, before: Rows, settled: Rows, k: nat)
    ensures Resolved(net, before, FillLaterRounds(net, settled, k), k) == Resolved(net, before, settled, k)
    ensures Awaiting(net, FillLaterRounds(net, settled, k), k) == Awaiting(net, settled, k)
  {}

  lemma RoundsAreHeld(b: Bracket)
    requires b.WellFormed()
    ensures forall k :: 0 <= k < |b.rounds| ==> HoldsRound(b, k)
  {
    forall k | 0 <= k < |b.rounds| ensures HoldsRound(b, k) {
      RowIdsAreTheRound(b, k);
    }
  }

  // ----- The draw -----

  function LinesOf(high: seq<Line>, low: seq<Line>, division: Division): seq<Line> {
    if division == High then high else low
  }

  /** Each place the bracket takes is taken by exactly one manager. */
  ghost predicate EveryPlaceFills(b: Bracket, high: seq<Line>, low: seq<Line>) {
    forall seed :: b.Uses(seed) ==> LinesAt(LinesOf(high, low, seed.division), seed.rank) == 1
  }

  function MissingSeeds(b: Bracket, seeded: map<Seed, int>): (missing: set<Seed>)
    ensures forall seed :: seed in missing <==> b.Uses(seed) && seed !in seeded
  {
    set k: nat, j: nat, side: Side |
      k < |b.rounds| && j < |b.rounds[k].ties| && b.HasTie(k, j) &&
      b.TieAt(k, j).At(side).FromSeed? && b.TieAt(k, j).At(side).seed !in seeded
      :: b.TieAt(k, j).At(side).seed
  }

  function SeededSlot(seeded: map<Seed, int>, slot: Slot): Option<int> {
    if slot.FromSeed? && slot.seed in seeded then Some(seeded[slot.seed]) else None
  }

  function OpenMatch(a: Option<int>, b: Option<int>): CupMatch {
    CupMatch(a, b, None, None, None, None, Scheduled)
  }

  /** One round of a tree as the draw writes it. */
  ghost predicate RoundIsDrawn(b: Bracket, seeded: map<Seed, int>, k: nat, drawn: Rows)
    requires k < |b.rounds|
  {
    && (forall j {:trigger b.rounds[k].ties[j]} :: 0 <= j < |b.rounds[k].ties| ==>
          var tie := b.rounds[k].ties[j];
          tie.id in drawn && drawn[tie.id] == OpenMatch(SeededSlot(seeded, tie.first), SeededSlot(seeded, tie.second)))
    && (b.rounds[k].hasThirdPlace ==> ThirdPlace in drawn && drawn[ThirdPlace] == OpenMatch(None, None))
  }

  lemma DrawnRound(b: Bracket, seeded: map<Seed, int>, k: nat)
    requires b.WellFormed() && k < |b.rounds|
    ensures RoundIsDrawn(b, seeded, k, DrawnRows(NetOf(b), seeded))
  {
    forall j | 0 <= j < |b.rounds[k].ties|
      ensures var tie := b.rounds[k].ties[j];
              tie.id in NetOf(b) && DrawnRows(NetOf(b), seeded)[tie.id] ==
                OpenMatch(SeededSlot(seeded, tie.first), SeededSlot(seeded, tie.second))
    {
      assert b.HasTie(k, j);
      NetAt(b, k, j);
    }
    if b.rounds[k].hasThirdPlace {
      NetAtThirdPlace(b, k);
    }
  }

  lemma TreeToWrite(b: Bracket, seeded: map<Seed, int>)
    requires b.WellFormed()
    ensures forall k :: 0 <= k < |b.rounds| ==>
              HoldsRound(b, k) && RoundIsDrawn(b, seeded, k, DrawnRows(NetOf(b), seeded))
    ensures forall k, t :: 0 <= k < |b.rounds| ==> (t in RowIds(b, k) <==> t in NetOf(b) && NetOf(b)[t].round == k)
    ensures forall t :: t in NetOf(b) ==> NetOf(b)[t].round < |b.rounds|
  {
    RoundsAreHeld(b);
    RoundsOfNet(b);
    forall k, t | 0 <= k < |b.rounds| ensures t in RowIds(b, k) <==> t in NetOf(b) && NetOf(b)[t].round == k {
      assert HoldsRound(b, k);
    }
    forall k | 0 <= k < |b.rounds| ensures RoundIsDrawn(b, seeded, k, DrawnRows(NetOf(b), seeded)) {
      DrawnRound(b, seeded, k);
    }
  }

  lemma PlacesOfTable(high: seq<Line>, low: seq<Line>, table: Table,
                      rankedHigh: seq<Ranked<Line>>, rankedLow: seq<Ranked<Line>>, places: map<Seed, int>)
    requires IsRankingOf(high, rankedHigh) && IsRankingOf(low, rankedLow)
    requires table == Table(Entries(rankedHigh), Entries(rankedLow))
    requires DistinctLines(high) && DistinctLines(low) && DisjointLines(high, low)
    requires forall seed :: seed in places <==> Holders(table.Of(seed.division), seed.rank) == 1
    requires forall seed :: seed in places ==> HoldsPlace(table.Of(seed.division), seed.rank, places[seed])
    ensures forall seed :: seed in places <==> LinesAt(LinesOf(high, low, seed.division), seed.rank) == 1
    ensures forall seed :: seed in places ==> TakesPlace(LinesOf(high, low, seed.division), seed.rank, places[seed])
    ensures forall x, y :: x in places && y in places && places[x] == places[y] ==> x == y
  {
    TableIsDistinct(high, low, rankedHigh, rankedLow);
    forall seed: Seed
      ensures Holders(table.Of(seed.division), seed.rank) == LinesAt(LinesOf(high, low, seed.division), seed.rank)
    {
      HoldersAreLines(high, rankedHigh, seed.rank);
      HoldersAreLines(low, rankedLow, seed.rank);
    }
    forall seed | seed in places
      ensures TakesPlace(LinesOf(high, low, seed.division), seed.rank, places[seed])
    {
      HolderTakesPlace(LinesOf(high, low, seed.division), if seed.division == High then rankedHigh else rankedLow,
                       seed.rank, places[seed]);
    }
    forall x, y | x in places && y in places && places[x] == places[y] ensures x == y {
      PlacesAreInjective(table, x, y, places[x]);
    }
  }

  lemma FairDraw(b: Bracket, seeded: map<Seed, int>)
    requires b.WellFormed()
    requires forall seed :: b.Uses(seed) ==> seed in seeded
    requires forall x, y :: x in seeded && y in seeded && seeded[x] == seeded[y] ==> x == y
    ensures DrawIsFair(NetOf(b), Bare(seeded))
  {
    forall t, side | t in NetOf(b) && NetOf(b)[t].At(side).PlaceOf?
      ensures NetOf(b)[t].At(side).seed in seeded
    {
      var k, j := FindTie(b, t);
      NetIsLayered(b);
      assert SourceIsEarlier(NetOf(b), t, NetOf(b)[t].At(side));
      assert b.TieAt(k, j).At(side) == FromSeed(NetOf(b)[t].At(side).seed);
    }
  }

  /** A tree as a fair draw and any run may leave it. */
  ghost predicate Stored(b: Bracket, seeded: map<Seed, int>, rows: Rows) {
    SoundNet(NetOf(b)) && DrawIsFair(NetOf(b), Bare(seeded)) && Upheld(NetOf(b), seeded, rows)
  }

  /** What a call or lots do to the rows, and that the tree stays such a one. */
  lemma StepOf(b: Bracket, seeded: map<Seed, int>, s: CupState, e: Event)
    requires Stored(b, seeded, s.rows)
    ensures Stored(b, seeded, After(b, s, e).rows)
    ensures e.AdvanceCall? ==>
              var k := b.RoundForGameweek(e.gameweek);
              After(b, s, e) ==
              if k.None? || !e.finalized then s else s.(rows := AdvanceRows(NetOf(b), e.figures, s.rows, k.value))
    ensures e.LotsDrawn? ==>
              After(b, s, e) ==
              if CanDraw(s.rows, e.tie, e.manager)
              then CupState(RowsAfterLots(s.rows, e.tie, e.manager), s.draws[e.tie := e.manager]) else s
  {
    StepIsUpheld(b, seeded, s, e);
  }

  class CupBracketService {
    const bracket: Bracket

    var drawn: bool
    var seeded: map<Seed, int>
    var rows: Rows
    ghost var draws: Draws

    ghost function State(): CupState
      reads this`rows, this`draws
    {
      CupState(rows, draws)
    }

    ghost predicate Valid()
      reads this
    {
      bracket.WellFormed() && SoundNet(NetOf(bracket)) && (drawn ==> Stored(bracket, seeded, rows))
    }

    constructor (bracket: Bracket)
      requires bracket.WellFormed()
      ensures Valid() && !drawn && this.bracket == bracket
    {
      this.bracket := bracket;
      drawn, seeded, rows, draws := false, map[], map[], map[];
      NetIsSound(bracket);
    }

    // ----- The draw -----

    /** One round of the empty tree. */
    method WriteRound(k: nat, created: nat, ghost after: Rows) returns (created': nat)
      requires k < |bracket.rounds| && HoldsRound(bracket, k) && created == |rows|
      requires forall t :: t in RowIds(bracket, k) ==> t !in rows && t in after
      requires RoundIsDrawn(bracket, seeded, k, after)
      modifies this`rows
      ensures created' == |rows|
      ensures forall t :: t in rows <==> t in old(rows) || t in RowIds(bracket, k)
      ensures forall t :: t in rows ==> rows[t] == if t in RowIds(bracket, k) then after[t] else old(rows)[t]
    {
      ghost var before, ids := rows, RowIds(bracket, k);
      var ties := bracket.rounds[k].ties;
      created' := created;
      for j := 0 to |ties|
        invariant created' == |rows|
        invariant forall t :: t in rows <==> t in before || t in ids[..j]
        invariant forall t :: t in rows ==> rows[t] == if t in ids[..j] then after[t] else before[t]
      {
        var tie := ties[j];
        assert tie == bracket.rounds[k].ties[j] && ids[j] == tie.id && tie.id !in ids[..j] && tie.id !in rows;
        rows := rows[tie.id := OpenMatch(SeededSlot(seeded, tie.first), SeededSlot(seeded, tie.second))];
        created' := created' + 1;
        PrefixGrows(ids, j);
      }
      if bracket.rounds[k].hasThirdPlace {
        assert ids[|ties|] == ThirdPlace && ThirdPlace !in ids[..|ties|];
        rows := rows[ThirdPlace := OpenMatch(None, None)];
        created' := created' + 1;
        PrefixGrows(ids, |ties|);
      }
      assert ids[..|ids|] == ids;
    }

    method WriteTree(ghost after: Rows, ghost net: Net) returns (created: nat)
      requires rows == map[] && after.Keys == net.Keys
      requires forall k :: 0 <= k < |bracket.rounds| ==> HoldsRound(bracket, k) && RoundIsDrawn(bracket, seeded, k, after)
      requires forall k, t :: 0 <= k < |bracket.rounds| ==> (t in RowIds(bracket, k) <==> t in net && net[t].round == k)
      requires forall t :: t in net ==> net[t].round < |bracket.rounds|
      modifies this`rows
      ensures rows == after && created == |rows|
    {
      created := 0;
      for k := 0 to |bracket.rounds|
        invariant created == |rows|
        invariant forall t :: t in rows <==> t in net && net[t].round < k
        invariant forall t :: t in rows ==> rows[t] == after[t]
      {
        created := WriteRound(k, created, after);
      }
      assert rows == after;
    }

    /**
     Draw the Cup from the two qualification tables. A place two managers share is not filled, and
     a bracket with such a place is not drawn.
     */
    method Generate(high: seq<Line>, low: seq<Line>, qualificationSettled: bool, allowProvisional: bool)
      returns (result: Result<nat, GenerateError>)
      requires Valid()
      requires DistinctLines(high) && DistinctLines(low) && DisjointLines(high, low)
      modifies this
      ensures Valid()
      ensures result == Err(AlreadyDrawn) <==> old(drawn)
      ensures result == Err(QualificationOpen) <==> !old(drawn) && !qualificationSettled && !allowProvisional
      ensures result.Ok? <==>
              !old(drawn) && (qualificationSettled || allowProvisional) && EveryPlaceFills(bracket, high, low)
      ensures result.Err? ==> drawn == old(drawn) && seeded == old(seeded) && State() == old(State())
      ensures result.Err? && result.error.PlacesNotFilled? ==>
                forall seed :: seed in result.error.missing <==>
                  bracket.Uses(seed) && LinesAt(LinesOf(high, low, seed.division), seed.rank) != 1
      ensures result.Ok? ==> drawn && State() == Drawn(bracket, seeded) && result.value == |rows|
      ensures result.Ok? ==> forall seed :: bracket.Uses(seed) ==>
                seed in seeded && TakesPlace(LinesOf(high, low, seed.division), seed.rank, seeded[seed])
    {
      if drawn {
        return Err(AlreadyDrawn);
      }
      if !qualificationSettled && !allowProvisional {
        return Err(QualificationOpen);
      }
      ghost var rankedHigh, rankedLow;
      var table: Table;
      table, rankedHigh, rankedLow := QualificationTable(high, low);
      var places := ManagersBySeed(table);
      PlacesOfTable(high, low, table, rankedHigh, rankedLow, places);
      var missing := MissingSeeds(bracket, places);
      if missing != {} {
        assert exists seed :: seed in missing;
        return Err(PlacesNotFilled(missing));
      }
      FairDraw(bracket, places);
      var created := WriteDraw(places);
      result := Ok(created);
    }

    /** The tree as the seeds fill it, with nothing played yet. */
    method WriteDraw(places: map<Seed, int>) returns (created: nat)
      requires bracket.WellFormed() && DrawIsFair(NetOf(bracket), Bare(places))
      modifies this
      ensures Valid() && drawn && seeded == places
      ensures State() == Drawn(bracket, seeded) && created == |rows|
    {
      drawn, seeded, rows, draws := true, places, map[], map[];
      TreeToWrite(bracket, seeded);
      NetIsSound(bracket);
      created := WriteTree(DrawnRows(NetOf(bracket), seeded), NetOf(bracket));
      DrawnIsUpheld(NetOf(bracket), seeded);
    }

    // ----- Advancing a round -----

    /** One tie of the round being settled: carried, left open, sent to a draw, or resolved. */
    method SettleTie(id: TieId, gameweek: int, figures: Figures, ghost settled: CupMatch)
      requires id in rows && SettlesTo(figures, gameweek, rows[id], settled)
      modifies this`rows
      ensures rows == old(rows)[id := settled]
    {
      var tie := rows[id];
      if tie.winner.Some? || tie.a.None? || tie.b.None? {
        return;
      }
      var resolution := Play(figures, gameweek, tie.a.value, tie.b.value).value;
      if resolution.requiresAdminDraw {
        rows := rows[id := tie.(status := Provisional, step := Some(resolution.step))];
      } else {
        rows := rows[id := CupMatch(tie.a, tie.b,
                                    Some(ScoreOf(figures, gameweek, tie.a.value)),
                                    Some(ScoreOf(figures, gameweek, tie.b.value)),
                                    resolution.winner, Some(resolution.step), Settled)];
      }
    }

    /** The first half of advance: settle what can be settled in round k. */
    method SettleTies(k: nat, figures: Figures, ghost after: Rows) returns (tally: Tally)
      requires k < |bracket.rounds|
      requires forall i, j :: 0 <= i < j < |RowIds(bracket, k)| ==> RowIds(bracket, k)[i] != RowIds(bracket, k)[j]
      requires rows.Keys == after.Keys
      requires forall t :: t in rows && t !in RowIds(bracket, k) ==> after[t] == rows[t]
      requires forall t :: t in RowIds(bracket, k) ==> t in rows
      requires forall t {:trigger SettlesTo(figures, bracket.rounds[k].gameweek, rows[t], after[t])} ::
                 t in RowIds(bracket, k) ==> SettlesTo(figures, bracket.rounds[k].gameweek, rows[t], after[t])
      modifies this`rows
      ensures rows == after
      ensures forall t :: t in RowIds(bracket, k) ==> t in after && t in old(rows)
      ensures tally == Tallied(old(rows), after, RowIds(bracket, k))
    {
      ghost var before := rows;
      var current := RowIds(bracket, k);
      tally := Tally(map[], map[], 0, 0);
      for i := 0 to |current|
        invariant Partly(before, after, rows, current[..i])
        invariant tally == Tallied(before, after, current[..i])
      {
        var id := current[i];
        var tie := rows[id];
        assert SettlesTo(figures, bracket.rounds[k].gameweek, before[id], after[id]);
        PartlyGrows(before, after, rows, current, i);
        SettleTie(id, bracket.rounds[k].gameweek, figures, after[id]);
        PrefixGrows(current, i);
        TallyOneMore(before, after, current[..i], id);
        tally := AddTie(tally, id, tie, rows[id]);
      }
      assert current[..|current|] == current;
      assert rows == after;
    }

    // ----- Placing winners -----

    /** The winners of the round just settled, written into one later round. */
    method PlaceInRound(l: nat, tally: Tally, ghost after: Rows)
      requires l < |bracket.rounds| && rows.Keys == after.Keys
      requires forall i, j :: 0 <= i < j < |RowIds(bracket, l)| ==> RowIds(bracket, l)[i] != RowIds(bracket, l)[j]
      requires forall t :: t in RowIds(bracket, l) ==> t in rows
      requires forall j {:trigger bracket.rounds[l].ties[j]} :: 0 <= j < |bracket.rounds[l].ties| ==>
                 var tie := bracket.rounds[l].ties[j]; after[tie.id] == PlacedTie(rows[tie.id], tie, tally.winners)
      requires bracket.rounds[l].hasThirdPlace ==>
                 after[ThirdPlace] == PlacedThird(rows[ThirdPlace], SemiFinals(bracket, l), tally.losers)
      modifies this`rows
      ensures rows.Keys == old(rows).Keys
      ensures forall t :: t in rows ==> rows[t] == if t in RowIds(bracket, l) then after[t] else old(rows)[t]
    {
      ghost var before, ids := rows, RowIds(bracket, l);
      var ties := bracket.rounds[l].ties;
      for j := 0 to |ties|
        invariant rows.Keys == before.Keys
        invariant forall t :: t in rows ==> rows[t] == if t in ids[..j] then after[t] else before[t]
      {
        var tie := ties[j];
        assert tie == bracket.rounds[l].ties[j] && ids[j] == tie.id && tie.id !in ids[..j];
        var m := rows[tie.id];
        if tie.first.WinnerOf? && m.a.None? && tie.first.tie in tally.winners {
          m := m.(a := Some(tally.winners[tie.first.tie]));
        }
        if tie.second.WinnerOf? && m.b.None? && tie.second.tie in tally.winners {
          m := m.(b := Some(tally.winners[tie.second.tie]));
        }
        rows := rows[tie.id := m];
        PrefixGrows(ids, j);
      }
      if bracket.rounds[l].hasThirdPlace {
        var semiFinals := SemiFinals(bracket, l);
        var m := rows[ThirdPlace];
        assert ids[|ties|] == ThirdPlace && ThirdPlace !in ids[..|ties|];
        if |semiFinals| > 0 && m.a.None? && semiFinals[0] in tally.losers {
          m := m.(a := Some(tally.losers[semiFinals[0]]));
        }
        if |semiFinals| > 1 && m.b.None? && semiFinals[1] in tally.losers {
          m := m.(b := Some(tally.losers[semiFinals[1]]));
        }
        rows := rows[ThirdPlace := m];
        PrefixGrows(ids, |ties|);
      }
      assert ids[..|ids|] == ids;
    }

    /** The second half of advance: every later round, in bracket order. */
    method PlaceWinners(k: nat, tally: Tally, ghost after: Rows)
      requires k < |bracket.rounds| && forall l :: 0 <= l < |bracket.rounds| ==> bracket.rounds[l].order == l + 1
      requires rows.Keys == NetOf(bracket).Keys == after.Keys
      requires forall l :: 0 <= l < |bracket.rounds| ==> HoldsRound(bracket, l)
      requires forall t :: t in rows ==> NetOf(bracket)[t].round < |bracket.rounds|
      requires forall t :: t in rows && NetOf(bracket)[t].round <= k ==> after[t] == rows[t]
      requires forall l :: k < l < |bracket.rounds| ==> PlacesRound(bracket, l, tally, rows, after)
      modifies this`rows
      ensures rows == after
    {
      ghost var net, before := NetOf(bracket), rows;
      for l := 0 to |bracket.rounds|
        invariant rows.Keys == before.Keys
        invariant forall t :: t in rows ==> rows[t] == if net[t].round < l then after[t] else before[t]
      {
        if bracket.rounds[l].order > bracket.rounds[k].order {
          assert HoldsRound(bracket, l);
          assert PlacesRound(bracket, l, tally, before, after);
          PlaceInRound(l, tally, after);
        }
      }
      assert rows == after;
    }

    method AdvanceRound(k: nat, figures: Figures) returns (advanced: AdvancedRound)
      requires Valid() && drawn && k < |bracket.rounds|
      modifies this`rows
      ensures rows == AdvanceRows(NetOf(bracket), figures, old(rows), k)
      ensures advanced.tiesResolved == |Resolved(NetOf(bracket), old(rows), rows, k)|
      ensures advanced.tiesAwaitingDraw == |Awaiting(NetOf(bracket), rows, k)|
    {
      ghost var net, before := NetOf(bracket), rows;
      ghost var settled := SettleRound(net, figures, before, k);
      RoundsAreHeld(bracket);
      RoundsOfNet(bracket);
      assert HoldsRound(bracket, k);
      forall t | t in RowIds(bracket, k)
        ensures SettlesTo(figures, bracket.rounds[k].gameweek, before[t], settled[t])
      {
        SettleTargets(bracket, seeded, figures, before, k, t);
      }
      var tally := SettleTies(k, figures, settled);
      TallyMaps(before, settled, RowIds(bracket, k));
      forall l | k < l < |bracket.rounds|
        ensures PlacesRound(bracket, l, tally, settled, FillLaterRounds(net, settled, k))
      {
        PlaceTargets(bracket, settled, k, l, tally);
      }
      PlaceWinners(k, tally, FillLaterRounds(net, settled, k));
      CountsOfRound(bracket, before, settled, k);
      FillingKeepsCounts(net, before, settled, k);
      advanced := AdvancedRound(tally.resolved, tally.awaiting);
    }

    /** Settle one round's ties by the figures of the moment, and move the winners into their next slots. */
    method Advance(gameweek: int, finalized: bool, figures: Figures) returns (result: Result<AdvancedRound, AdvanceError>)
      requires Valid()
      modifies this`rows
      ensures Valid()
      ensures result == Err(NotDrawn) <==> !drawn
      ensures result == Err(NoRoundInGameweek) <==> drawn && bracket.RoundForGameweek(gameweek).None?
      ensures result == Err(GameweekStillLive) <==> drawn && bracket.RoundForGameweek(gameweek).Some? && !finalized
      ensures result.Err? ==> rows == old(rows)
      ensures State() == if drawn then After(bracket, old(State()), AdvanceCall(gameweek, finalized, figures)) else old(State())
      ensures result.Ok? ==>
                var k := bracket.RoundForGameweek(gameweek).value;
                && result.value.tiesResolved == |Resolved(NetOf(bracket), old(rows), rows, k)|
                && result.value.tiesAwaitingDraw == |Awaiting(NetOf(bracket), rows, k)|
    {
      if !drawn {
        return Err(NotDrawn);
      }
      var round := bracket.RoundForGameweek(gameweek);
      ghost var after := After(bracket, State(), AdvanceCall(gameweek, finalized, figures));
      StepOf(bracket, seeded, State(), AdvanceCall(gameweek, finalized, figures));
      if round.None? {
        return Err(NoRoundInGameweek);
      }
      if !finalized {
        return Err(GameweekStillLive);
      }
      var advanced := AdvanceRound(round.value, figures);
      assert State() == after;
      result := Ok(advanced);
    }

    /** An administrator draws lots for a tie left level. */
    method RecordLots(t: TieId, manager: int) returns (recorded: bool)
      requires Valid() && drawn
      modifies this`rows, this`draws
      ensures Valid() && drawn
      ensures recorded <==> CanDraw(old(rows), t, manager)
      ensures State() == After(bracket, old(State()), LotsDrawn(t, manager))
    {
      ghost var after := After(bracket, State(), LotsDrawn(t, manager));
      StepOf(bracket, seeded, State(), LotsDrawn(t, manager));
      recorded := CanDraw(rows, t, manager);
      if recorded {
        rows := RowsAfterLots(rows, t, manager);
      }
      draws := after.draws;
      assert State() == after;
    }
  }
}
