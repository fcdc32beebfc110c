/** The Cup draw: from two qualification tables to the managers who hold each place alone. */
module CupDraw {
  import opened Sorting
  import opened Rankings
  import opened CupBracket

  /** A manager's line in a qualification table, with the key it is ranked by. */
  datatype Line = Line(managerId: int, key: Key)

  datatype Entry = Entry(rank: nat, managerId: int)

  datatype Table = Table(high: seq<Entry>, low: seq<Entry>)
  {
    function Of(division: Division): seq<Entry> {
      if division == High then high else low
    }
  }

  function LineKey(line: Line): Key { line.key }

  // ----- Building the tables -----

  function Entries(ranked: seq<Ranked<Line>>): seq<Entry> {
    seq(|ranked|, i requires 0 <= i < |ranked| => Entry(ranked[i].rank, ranked[i].value.managerId))
  }

  /** What CompetitionRank promises of a division's lines. */
  ghost predicate IsRankingOf(lines: seq<Line>, ranked: seq<Ranked<Line>>) {
    && multiset(Values(ranked)) == multiset(lines)
    && (forall i, j :: 0 <= i < j < |ranked| ==> !Less(ranked[i].value.key, ranked[j].value.key))
    && (forall i :: 0 <= i < |ranked| ==> ranked[i].rank == RankOf(lines, LineKey, ranked[i].value))
  }

  function RankedLines(lines: seq<Line>): seq<Ranked<Line>> {
    var ordered := Sort(lines, LineKey, true);
    seq(|ordered|, i requires 0 <= i < |ordered| => Ranked(RankOf(lines, LineKey, ordered[i]), ordered[i]))
  }

  method QualificationTable(high: seq<Line>, low: seq<Line>)
    returns (table: Table, ghost rankedHigh: seq<Ranked<Line>>, ghost rankedLow: seq<Ranked<Line>>)
    ensures IsRankingOf(high, rankedHigh) && IsRankingOf(low, rankedLow)
    ensures table == Table(Entries(rankedHigh), Entries(rankedLow))
    ensures table == Table(Entries(RankedLines(high)), Entries(RankedLines(low)))
  {
    var h := CompetitionRank(high, LineKey);
    var l := CompetitionRank(low, LineKey);
    rankedHigh, rankedLow := h, l;
    IsRankedLines(high, h);
    IsRankedLines(low, l);
    table := Table(Entries(h), Entries(l));
  }

  lemma IsRankedLines(lines: seq<Line>, ranked: seq<Ranked<Line>>)
    requires Values(ranked) == Sort(lines, LineKey, true)
    requires forall i :: 0 <= i < |ranked| ==> ranked[i].rank == RankOf(lines, LineKey, ranked[i].value)
    ensures ranked == RankedLines(lines)
  {
    assert forall i :: 0 <= i < |ranked| ==> ranked[i].value == Values(ranked)[i];
  }

  // ----- Who holds a place -----

  function Holders(entries: seq<Entry>, rank: int): nat {
    Count(entries, (e: Entry) => e.rank == rank)
  }

  ghost predicate HoldsPlace(entries: seq<Entry>, rank: int, managerId: int) {
    exists i :: 0 <= i < |entries| && entries[i] == Entry(entries[i].rank, managerId) && entries[i].rank == rank
  }

  method AddDivision(division: Division, entries: seq<Entry>, seeded: map<Seed, int>, taken: map<Seed, nat>)
    returns (seeded': map<Seed, int>, taken': map<Seed, nat>)
    requires seeded.Keys == taken.Keys
    requires forall seed :: seed in seeded ==> seed.division != division
    ensures seeded'.Keys == taken'.Keys
    ensures forall seed: Seed :: seed.division != division ==>
              (seed in seeded' <==> seed in seeded) &&
              (seed in seeded ==> seeded'[seed] == seeded[seed] && taken'[seed] == taken[seed])
    ensures forall seed: Seed :: seed.division == division ==>
              (seed in seeded' <==> Holders(entries, seed.rank) > 0) &&
              (seed in seeded' ==> taken'[seed] == Holders(entries, seed.rank) && HoldsPlace(entries, seed.rank, seeded'[seed]))
  {
    seeded', taken' := seeded, taken;
    for i := 0 to |entries|
      invariant seeded'.Keys == taken'.Keys
      invariant forall seed: Seed :: seed.division != division ==>
                  (seed in seeded' <==> seed in seeded) &&
                  (seed in seeded ==> seeded'[seed] == seeded[seed] && taken'[seed] == taken[seed])
      invariant forall seed: Seed :: seed.division == division ==>
                  (seed in seeded' <==> Holders(entries[..i], seed.rank) > 0) &&
                  (seed in seeded' ==> taken'[seed] == Holders(entries[..i], seed.rank) &&
                                       HoldsPlace(entries, seed.rank, seeded'[seed]))
    {
      var entry := entries[i];
      var seed := Seed(division, entry.rank);
      taken' := taken'[seed := (if seed in taken' then taken'[seed] else 0) + 1];
      seeded' := seeded'[seed := entry.managerId];
      assert entries[..i + 1] == entries[..i] + [entry];
      forall rank ensures Holders(entries[..i + 1], rank) == Holders(entries[..i], rank) + if entry.rank == rank then 1 else 0 {
        CountConcat(entries[..i], [entry], (e: Entry) => e.rank == rank);
      }
    }
    assert entries[..|entries|] == entries;
  }

  /** Every place held by exactly one manager, and by whom. */
  method ManagersBySeed(table: Table) returns (seeded: map<Seed, int>)
    ensures forall seed :: seed in seeded <==> Holders(table.Of(seed.division), seed.rank) == 1
    ensures forall seed :: seed in seeded ==> HoldsPlace(table.Of(seed.division), seed.rank, seeded[seed])
  {
    var all, taken := AddDivision(High, table.high, map[], map[]);
    all, taken := AddDivision(Low, table.low, all, taken);
    seeded := map seed | seed in all && taken[seed] == 1 :: all[seed];
  }

  ghost predicate DistinctManagers(table: Table) {
    && (forall d, i, j :: 0 <= i < j < |table.Of(d)| ==> table.Of(d)[i].managerId != table.Of(d)[j].managerId)
    && (forall i, j :: 0 <= i < |table.high| && 0 <= j < |table.low| ==> table.high[i].managerId != table.low[j].managerId)
  }

  /** No manager holds two places. */
  lemma PlacesAreInjective(table: Table, x: Seed, y: Seed, managerId: int)
    requires DistinctManagers(table)
    requires HoldsPlace(table.Of(x.division), x.rank, managerId) && HoldsPlace(table.Of(y.division), y.rank, managerId)
    ensures x == y
  {
    var i :| 0 <= i < |table.Of(x.division)| && table.Of(x.division)[i] == Entry(x.rank, managerId);
    var j :| 0 <= j < |table.Of(y.division)| && table.Of(y.division)[j] == Entry(y.rank, managerId);
  }

  // ----- When a place has one holder -----

  /** Place r of a ranked table exists and its key differs from those of its two neighbours. */
  ghost predicate StandsAlone(ranked: seq<Ranked<Line>>, r: int) {
    && 1 <= r <= |ranked|
    && (r > 1 ==> ranked[r - 2].value.key != ranked[r - 1].value.key)
    && (r < |ranked| ==> ranked[r - 1].value.key != ranked[r].value.key)
  }

  /** The rank at position i is fixed by where the block of its key starts. */
  lemma RankIsBlockStart(lines: seq<Line>, ranked: seq<Ranked<Line>>, start: nat, i: nat)
    requires IsRankingOf(lines, ranked) && start <= i < |ranked|
    requires forall j :: start <= j <= i ==> ranked[j].value.key == ranked[i].value.key
    requires start > 0 ==> ranked[start - 1].value.key != ranked[start].value.key
    ensures ranked[i].rank == start + 1
  {
    var ordered, key := Values(ranked), ranked[i].value.key;
    forall j | 0 <= j < start ensures Less(key, ordered[j].key) {
      LessIsTotal(ordered[start - 1].key, key);
      LessIsTotal(ordered[j].key, ordered[start - 1].key);
      LessIsTransitive(key, ordered[start - 1].key, ordered[j].key);
    }
    forall j | start <= j < |ordered| ensures !Less(key, ordered[j].key) {
      LessIsTotal(key, key);
    }
    RankAtBlockStart(ordered, LineKey, start, i);
    RankIgnoresInputOrder(lines, ordered, LineKey, ordered[i]);
  }

  ghost function BlockStart(ranked: seq<Ranked<Line>>, i: nat): (start: nat)
    requires i < |ranked|
    ensures start <= i
    ensures forall j :: start <= j <= i ==> ranked[j].value.key == ranked[i].value.key
    ensures start > 0 ==> ranked[start - 1].value.key != ranked[start].value.key
  {
    if i > 0 && ranked[i - 1].value.key == ranked[i].value.key then BlockStart(ranked, i - 1) else i
  }

  /** A place that is not separated from its neighbours has no holder or several. */
  lemma CrowdedHasNotOneHolder(lines: seq<Line>, ranked: seq<Ranked<Line>>, r: int)
    requires IsRankingOf(lines, ranked) && !StandsAlone(ranked, r)
    ensures Holders(Entries(ranked), r) != 1
  {
    if Holders(Entries(ranked), r) == 1 {
      var holds := (e: Entry) => e.rank == r;
      var i := HolderExists(Entries(ranked), holds);
      var start := BlockStart(ranked, i);
      RankIsBlockStart(lines, ranked, start, i);
      RankIsBlockStart(lines, ranked, start, start);
      if start < i {
        TwoHolders(Entries(ranked), holds, start, i);
      } else {
        RankIsBlockStart(lines, ranked, start, start + 1);
        TwoHolders(Entries(ranked), holds, start, start + 1);
      }
    }
  }

  /** A place has exactly one holder if and only if it is separated from both neighbours. */
  lemma OneHolderIffAlone(lines: seq<Line>, ranked: seq<Ranked<Line>>, r: int)
    requires IsRankingOf(lines, ranked)
    ensures Holders(Entries(ranked), r) == 1 <==> StandsAlone(ranked, r)
  {
    if StandsAlone(ranked, r) {
      forall i: nat | i < |ranked| ensures Entries(ranked)[i].rank == r <==> i == r - 1 {
        var start := BlockStart(ranked, i);
        RankIsBlockStart(lines, ranked, start, i);
      }
      SoleAt(Entries(ranked), (e: Entry) => e.rank == r, r - 1);
    } else {
      CrowdedHasNotOneHolder(lines, ranked, r);
    }
  }

  /**
   A division fills its first `places` places if and only if those places exist and their keys are
   pairwise different and different from the next place's key.
   */
  lemma DivisionFillsIff(lines: seq<Line>, ranked: seq<Ranked<Line>>, places: nat)
    requires IsRankingOf(lines, ranked)
    ensures (forall r :: 1 <= r <= places ==> Holders(Entries(ranked), r) == 1) <==>
            && places <= |ranked|
            && (forall i, j :: 0 <= i < j < places ==> ranked[i].value.key != ranked[j].value.key)
            && (0 < places < |ranked| ==> ranked[places - 1].value.key != ranked[places].value.key)
  {
    forall r ensures Holders(Entries(ranked), r) == 1 <==> StandsAlone(ranked, r) {
      OneHolderIffAlone(lines, ranked, r);
    }
    if forall r :: 1 <= r <= places ==> StandsAlone(ranked, r) {
      assert places > 0 ==> StandsAlone(ranked, places);
      forall i, j | 0 <= i < j < places ensures ranked[i].value.key != ranked[j].value.key {
        assert StandsAlone(ranked, j + 1);
        assert !Less(ranked[i].value.key, ranked[j - 1].value.key) || i == j - 1;
        LessIsTotal(ranked[j - 1].value.key, ranked[j].value.key);
        LessIsTotal(ranked[i].value.key, ranked[j].value.key);
        LessIsTotal(ranked[i].value.key, ranked[j - 1].value.key);
        LessIsTransitive(ranked[j].value.key, ranked[j - 1].value.key, ranked[i].value.key);
      }
    }
  }

  // ----- The same condition, stated on the managers' lines alone -----

  /** How many managers of a division take a rank. */
  function LinesAt(lines: seq<Line>, r: int): nat {
    Count(lines, l => RankOf(lines, LineKey, l) == r)
  }

  lemma {:induction false} CountOfEntries(ranked: seq<Ranked<Line>>, r: int, p: Line -> bool)
    requires forall i :: 0 <= i < |ranked| ==> (p(ranked[i].value) <==> ranked[i].rank == r)
    ensures Count(Entries(ranked), (e: Entry) => e.rank == r) == Count(Values(ranked), p)
  {
    if ranked != [] {
      CountOfEntries(ranked[1..], r, p);
      assert Entries(ranked)[1..] == Entries(ranked[1..]) && Values(ranked)[1..] == Values(ranked[1..]);
    }
  }

  lemma HoldersAreLines(lines: seq<Line>, ranked: seq<Ranked<Line>>, r: int)
    requires IsRankingOf(lines, ranked)
    ensures Holders(Entries(ranked), r) == LinesAt(lines, r)
  {
    var p := l => RankOf(lines, LineKey, l) == r;
    CountOfEntries(ranked, r, p);
    CountPermutation(Values(ranked), lines, p);
  }

  /** LinesAt, read off the keys of the sorted division. */
  lemma PlacesFillIff(lines: seq<Line>, places: nat)
    ensures var keys := Sort(lines, LineKey, true);
            (forall r :: 1 <= r <= places ==> LinesAt(lines, r) == 1) <==>
            && places <= |keys|
            && (forall i, j :: 0 <= i < j < places ==> keys[i].key != keys[j].key)
            && (0 < places < |keys| ==> keys[places - 1].key != keys[places].key)
  {
    var ranked := RankedLines(lines);
    SortSorts(lines, LineKey, true);
    SortPermutes(lines, LineKey, true);
    assert Values(ranked) == Sort(lines, LineKey, true);
    forall r ensures Holders(Entries(ranked), r) == LinesAt(lines, r) {
      HoldersAreLines(lines, ranked, r);
    }
    DivisionFillsIff(lines, ranked, places);
  }

  // ----- Distinct managers, before and after ranking -----

  ghost predicate DistinctLines(lines: seq<Line>) {
    forall i, j :: 0 <= i < j < |lines| ==> lines[i].managerId != lines[j].managerId
  }

  lemma {:induction false} AtMostOneLine(lines: seq<Line>, managerId: int)
    requires DistinctLines(lines)
    ensures Count(lines, (l: Line) => l.managerId == managerId) <= 1
  {
    var p := (l: Line) => l.managerId == managerId;
    if Count(lines, p) > 1 {
      var i := HolderExists(lines, p);
      SoleAt(lines, p, i);
    }
  }

  lemma RankingKeepsDistinct(lines: seq<Line>, ranked: seq<Ranked<Line>>)
    requires DistinctLines(lines) && IsRankingOf(lines, ranked)
    ensures forall i, j :: 0 <= i < j < |ranked| ==> ranked[i].value.managerId != ranked[j].value.managerId
  {
    forall i, j | 0 <= i < j < |ranked| ensures ranked[i].value.managerId != ranked[j].value.managerId {
      var p := (l: Line) => l.managerId == ranked[i].value.managerId;
      AtMostOneLine(lines, ranked[i].value.managerId);
      CountPermutation(Values(ranked), lines, p);
      if ranked[j].value.managerId == ranked[i].value.managerId {
        TwoHolders(Values(ranked), p, i, j);
      }
    }
  }

  ghost predicate DisjointLines(high: seq<Line>, low: seq<Line>) {
    forall x, y :: x in high && y in low ==> x.managerId != y.managerId
  }

  lemma TableIsDistinct(high: seq<Line>, low: seq<Line>, rankedHigh: seq<Ranked<Line>>, rankedLow: seq<Ranked<Line>>)
    requires DistinctLines(high) && DistinctLines(low) && DisjointLines(high, low)
    requires IsRankingOf(high, rankedHigh) && IsRankingOf(low, rankedLow)
    ensures DistinctManagers(Table(Entries(rankedHigh), Entries(rankedLow)))
  {
    RankingKeepsDistinct(high, rankedHigh);
    RankingKeepsDistinct(low, rankedLow);
    forall i, j | 0 <= i < |rankedHigh| && 0 <= j < |rankedLow|
      ensures rankedHigh[i].value.managerId != rankedLow[j].value.managerId
    {
      assert Values(rankedHigh)[i] in multiset(high) && Values(rankedLow)[j] in multiset(low);
    }
  }

  /** The manager of a place is a line of that rank. */
  ghost predicate TakesPlace(lines: seq<Line>, r: int, managerId: int) {
    exists l :: l in lines && l.managerId == managerId && RankOf(lines, LineKey, l) == r
  }

  lemma HolderTakesPlace(lines: seq<Line>, ranked: seq<Ranked<Line>>, r: int, managerId: int)
    requires IsRankingOf(lines, ranked) && HoldsPlace(Entries(ranked), r, managerId)
    ensures TakesPlace(lines, r, managerId)
  {
    var i :| 0 <= i < |ranked| && Entries(ranked)[i] == Entry(r, managerId);
    assert Values(ranked)[i] in multiset(lines);
  }
}
