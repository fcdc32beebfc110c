/** What the tables hold after a job: what the payload says last, and everything else as it was. */
module FixtureOutcomes {
  import opened Wrappers
  import opened FixtureStats

  // ----- The fixture job -----

  /** Row i is the last one of the payload about its fixture. */
  ghost predicate LastOfFixture(parsed: seq<ParsedFixture>, i: int) {
    0 <= i < |parsed| && forall j :: i < j < |parsed| ==> parsed[j].id != parsed[i].id
  }

  /** A fixture the payload names has the row the payload says last about it. */
  lemma {:induction false} NamedFixtureIsAsPublished(w: World, parsed: seq<ParsedFixture>, i: int)
    requires LastOfFixture(parsed, i)
    ensures var after := ApplyFixtures(w, parsed).fixtures;
            parsed[i].id in after && after[parsed[i].id] == parsed[i].row
  {
    var n := |parsed| - 1;
    if i < n {
      assert forall j :: i < j < n ==> parsed[..n][j] == parsed[j];
      NamedFixtureIsAsPublished(w, parsed[..n], i);
    }
  }

  /** A fixture the payload does not name is as it was. */
  lemma {:induction false} OtherFixtureIsAsItWas(w: World, parsed: seq<ParsedFixture>, f: int)
    requires forall i :: 0 <= i < |parsed| ==> parsed[i].id != f
    ensures var after := ApplyFixtures(w, parsed).fixtures;
            (f in after <==> f in w.fixtures) && (f in after ==> after[f] == w.fixtures[f])
  {
    if parsed != [] {
      var n := |parsed| - 1;
      assert forall j :: 0 <= j < n ==> parsed[..n][j] == parsed[j];
      OtherFixtureIsAsItWas(w, parsed[..n], f);
    }
  }

  /** The payload takes a fixture out of this Gameweek: it was stored there and its row says otherwise. */
  ghost predicate MovesOut(w: World, parsed: seq<ParsedFixture>, fixture: int, gameweek: int) {
    && fixture in w.fixtures && w.fixtures[fixture].gameweek == Some(gameweek)
    && exists i :: 0 <= i < |parsed| && parsed[i].id == fixture && parsed[i].row.gameweek != Some(gameweek)
  }

  /** A statistic goes exactly when the payload takes its fixture out of its Gameweek; the others stay as they are. */
  lemma StatisticsFollowFixtures(w: World, parsed: seq<ParsedFixture>, k: StatKey)
    requires AtHome(w) && UniqueFixtures(parsed)
    ensures var after := ApplyFixtures(w, parsed).stats;
            && (k in after <==> k in w.stats && !MovesOut(w, parsed, k.fixture, k.gameweek))
            && (k in after ==> after[k] == w.stats[k])
  {
    SurvivorsStayed(w, parsed, k);
    assert k in w.stats ==> HasGameweek(w, k.fixture, k.gameweek);
    if i :| 0 <= i < |parsed| && parsed[i].id == k.fixture {
      NamedFixtureIsAsPublished(w, parsed, i);
    } else {
      OtherFixtureIsAsItWas(w, parsed, k.fixture);
    }
  }

  ghost predicate IsNews(w: World, p: ParsedFixture) {
    !(p.id in w.fixtures && w.fixtures[p.id] == p.row)
  }

  ghost function News(w: World, parsed: seq<ParsedFixture>): set<int> {
    set i | 0 <= i < |parsed| && IsNews(w, parsed[i])
  }

  lemma OneMoreRow(w: World, parsed: seq<ParsedFixture>, p: ParsedFixture)
    ensures |News(w, parsed + [p])| == |News(w, parsed)| + if IsNews(w, p) then 1 else 0
  {
    assert forall i :: 0 <= i < |parsed| ==> (parsed + [p])[i] == parsed[i];
    assert News(w, parsed + [p]) == News(w, parsed) + if IsNews(w, p) then {|parsed|} else {};
  }

  /** Of a payload that names each fixture once, the rows written are those that say something new. */
  lemma {:induction false} WrittenAreTheNews(w: World, parsed: seq<ParsedFixture>)
    requires UniqueFixtures(parsed)
    ensures FixturesWritten(w, parsed) == |News(w, parsed)|
  {
    if parsed != [] {
      var rest, p := parsed[..|parsed| - 1], parsed[|parsed| - 1];
      assert parsed == rest + [p] && forall i :: 0 <= i < |rest| ==> rest[i] == parsed[i];
      WrittenAreTheNews(w, rest);
      OneMoreRow(w, rest, p);
      OtherFixtureIsAsItWas(w, rest, p.id);
    }
  }

  // ----- The live job -----

  /** A row counts where nothing of the Gameweek is known, or where its fixture is known to be of it. */
  ghost predicate IsOfGameweek(w: World, gameweek: int, p: ParsedStat) {
    || (forall f :: f in w.fixtures ==> w.fixtures[f].gameweek != Some(gameweek))
    || (p.fixture in w.fixtures && w.fixtures[p.fixture].gameweek == Some(gameweek))
  }

  /** Row i is the last of the feed about its player in its fixture. */
  ghost predicate LastOfPlayer(parsed: seq<ParsedStat>, i: int) {
    0 <= i < |parsed| && forall j :: i < j < |parsed| ==> (parsed[j].element, parsed[j].fixture) != (parsed[i].element, parsed[i].fixture)
  }

  lemma RecordsIfOfGameweek(w: World, gameweek: int, p: ParsedStat)
    ensures Records(KnownFixtures(w.fixtures, gameweek), p) <==> IsOfGameweek(w, gameweek, p)
  {
    var known := KnownFixtures(w.fixtures, gameweek);
    if forall f :: f in w.fixtures ==> w.fixtures[f].gameweek != Some(gameweek) {
      assert known == {};
    } else {
      var f :| f in w.fixtures && w.fixtures[f].gameweek == Some(gameweek);
      assert f in known;
    }
  }

  /** A player's statistic in a fixture is the last one the feed counts for him. */
  lemma {:induction false} CountedStatisticIsAsPublished(w: World, gameweek: int, parsed: seq<ParsedStat>, i: int)
    requires LastOfPlayer(parsed, i) && IsOfGameweek(w, gameweek, parsed[i])
    ensures var after, k := ApplyLive(w, gameweek, parsed).stats, StatKey(gameweek, parsed[i].element, parsed[i].fixture);
            k in after && after[k] == parsed[i].stat
  {
    var n := |parsed| - 1;
    RecordsIfOfGameweek(w, gameweek, parsed[i]);
    if i < n {
      assert forall j :: i < j < n ==> parsed[..n][j] == parsed[j];
      CountedStatisticIsAsPublished(w, gameweek, parsed[..n], i);
    }
  }

  /** A statistic the feed does not count is as it was, and so are the fixtures. */
  lemma {:induction false} OtherStatisticIsAsItWas(w: World, gameweek: int, parsed: seq<ParsedStat>, k: StatKey)
    requires forall i :: 0 <= i < |parsed| && IsOfGameweek(w, gameweek, parsed[i]) ==>
               k != StatKey(gameweek, parsed[i].element, parsed[i].fixture)
    ensures var after := ApplyLive(w, gameweek, parsed);
            && (k in after.stats <==> k in w.stats) && (k in after.stats ==> after.stats[k] == w.stats[k])
            && after.fixtures == w.fixtures
  {
    if parsed != [] {
      var n := |parsed| - 1;
      assert forall j :: 0 <= j < n ==> parsed[..n][j] == parsed[j];
      RecordsIfOfGameweek(w, gameweek, parsed[n]);
      OtherStatisticIsAsItWas(w, gameweek, parsed[..n], k);
    }
  }

  /** No player is named twice in one fixture. */
  ghost predicate UniqueStats(parsed: seq<ParsedStat>) {
    forall i, j :: 0 <= i < j < |parsed| ==> (parsed[i].element, parsed[i].fixture) != (parsed[j].element, parsed[j].fixture)
  }

  ghost predicate IsStatNews(w: World, gameweek: int, p: ParsedStat) {
    var k := StatKey(gameweek, p.element, p.fixture);
    IsOfGameweek(w, gameweek, p) && !(k in w.stats && w.stats[k] == p.stat)
  }

  ghost function StatNews(w: World, gameweek: int, parsed: seq<ParsedStat>): set<int> {
    set i | 0 <= i < |parsed| && IsStatNews(w, gameweek, parsed[i])
  }

  lemma OneMoreStat(w: World, gameweek: int, parsed: seq<ParsedStat>, p: ParsedStat)
    ensures |StatNews(w, gameweek, parsed + [p])| == |StatNews(w, gameweek, parsed)| + if IsStatNews(w, gameweek, p) then 1 else 0
  {
    assert forall i :: 0 <= i < |parsed| ==> (parsed + [p])[i] == parsed[i];
    assert StatNews(w, gameweek, parsed + [p]) ==
           StatNews(w, gameweek, parsed) + if IsStatNews(w, gameweek, p) then {|parsed|} else {};
  }

  /** Of a feed that names nobody twice in a fixture, the rows written are those that count and say something new. */
  lemma {:induction false} WrittenStatsAreTheNews(w: World, gameweek: int, parsed: seq<ParsedStat>)
    requires UniqueStats(parsed)
    ensures StatsWritten(w, gameweek, parsed) == |StatNews(w, gameweek, parsed)|
  {
    if parsed != [] {
      var rest, p := parsed[..|parsed| - 1], parsed[|parsed| - 1];
      assert parsed == rest + [p] && forall i :: 0 <= i < |rest| ==> rest[i] == parsed[i];
      WrittenStatsAreTheNews(w, gameweek, rest);
      OneMoreStat(w, gameweek, rest, p);
      RecordsIfOfGameweek(w, gameweek, p);
      OtherStatisticIsAsItWas(w, gameweek, rest, StatKey(gameweek, p.element, p.fixture));
    }
  }

  // ----- One tick -----

  /** The live feed is read exactly when something of the Gameweek has started by the fixtures just mirrored. */
  lemma FeedIsReadIff(w: World, t: Tick)
    requires t.fixtures.Some? && !RepeatsNewFixture(w.fixtures, t.fixtures.value)
    requires t.current.Some? && t.live.Some? && !RepeatsNewStat(ApplyFixtures(w, t.fixtures.value), t.current.value, t.live.value)
    ensures var mirrored := ApplyFixtures(w, t.fixtures.value);
            AfterTick(w, t) ==
            if exists f :: f in mirrored.fixtures && mirrored.fixtures[f].gameweek == t.current && mirrored.fixtures[f].started
            then ApplyLive(mirrored, t.current.value, t.live.value) else mirrored
  {}
}
