/**
 Player statistics per fixture, and where a rescheduled fixture's statistics belong.

 Statistics are stored under (Gameweek, player, fixture). Every tick first mirrors the fixture
 table and only then, if something of the current Gameweek has started, the live feed.
 */
module FixtureStats {
  import opened Wrappers
  import opened SetSums

  datatype Fixture = Fixture(gameweek: Option<int>, started: bool, finished: bool, finishedProvisional: bool, details: int)

  datatype Stat = Stat(totalPoints: int, minutes: int, goals: int, assists: int, yellows: int, reds: int, bonus: int)

  datatype StatKey = StatKey(gameweek: int, element: int, fixture: int)

  datatype ParsedFixture = ParsedFixture(id: int, row: Fixture)

  datatype ParsedStat = ParsedStat(element: int, fixture: int, stat: Stat)

  datatype World = World(fixtures: map<int, Fixture>, stats: map<StatKey, Stat>)

  /** Every statistic sits under the Gameweek its fixture has. */
  ghost predicate AtHome(w: World) {
    forall k :: k in w.stats ==> HasGameweek(w, k.fixture, k.gameweek)
  }

  predicate HasGameweek(w: World, fixture: int, gameweek: int) {
    fixture in w.fixtures && w.fixtures[fixture].gameweek == Some(gameweek)
  }

  function KnownFixtures(fixtures: map<int, Fixture>, gameweek: int): set<int> {
    set f | f in fixtures && fixtures[f].gameweek == Some(gameweek)
  }

  // ----- The fixture table -----

  function WithoutMoved(stats: map<StatKey, Stat>, fixture: int, gameweek: int): map<StatKey, Stat> {
    map k | k in stats && !(k.fixture == fixture && k.gameweek == gameweek) :: stats[k]
  }

  /** One fixture row: a moved fixture leaves the Gameweek it was in. */
  function ApplyFixture(w: World, p: ParsedFixture): World {
    if p.id !in w.fixtures then w.(fixtures := w.fixtures[p.id := p.row])
    else
      var previous := w.fixtures[p.id].gameweek;
      World(w.fixtures[p.id := p.row],
            if previous.Some? && previous != p.row.gameweek then WithoutMoved(w.stats, p.id, previous.value) else w.stats)
  }

  function ApplyFixtures(w: World, parsed: seq<ParsedFixture>): World {
    if parsed == [] then w
    else ApplyFixture(ApplyFixtures(w, parsed[..|parsed| - 1]), parsed[|parsed| - 1])
  }

  /** How many rows of a payload add a fixture or change one. */
  function FixturesWritten(w: World, parsed: seq<ParsedFixture>): nat {
    if parsed == [] then 0
    else
      var before, p := ApplyFixtures(w, parsed[..|parsed| - 1]), parsed[|parsed| - 1];
      FixturesWritten(w, parsed[..|parsed| - 1]) +
      if p.id in before.fixtures && before.fixtures[p.id] == p.row then 0 else 1
  }

  /** A payload that names a fixture twice before the table knows it breaks the table's unique key. */
  ghost predicate RepeatsNewFixture(fixtures: map<int, Fixture>, parsed: seq<ParsedFixture>) {
    exists i, j :: 0 <= i < j < |parsed| && parsed[i].id == parsed[j].id && parsed[i].id !in fixtures
  }

  // ----- The live feed -----

  /** A row is recorded unless the Gameweek's fixtures are known and its fixture is not among them. */
  predicate Records(known: set<int>, p: ParsedStat) {
    known == {} || p.fixture in known
  }

  function ApplyLive(w: World, gameweek: int, parsed: seq<ParsedStat>): World {
    if parsed == [] then w
    else
      var before, p := ApplyLive(w, gameweek, parsed[..|parsed| - 1]), parsed[|parsed| - 1];
      if Records(KnownFixtures(w.fixtures, gameweek), p)
      then before.(stats := before.stats[LiveKey(gameweek, p) := p.stat])
      else before
  }

  /** How many rows of a payload add a statistic or change one. */
  function StatsWritten(w: World, gameweek: int, parsed: seq<ParsedStat>): nat {
    if parsed == [] then 0
    else
      var before, p := ApplyLive(w, gameweek, parsed[..|parsed| - 1]), parsed[|parsed| - 1];
      StatsWritten(w, gameweek, parsed[..|parsed| - 1]) +
      if Records(KnownFixtures(w.fixtures, gameweek), p) &&
         !(LiveKey(gameweek, p) in before.stats && before.stats[LiveKey(gameweek, p)] == p.stat) then 1 else 0
  }

  function LiveKey(gameweek: int, p: ParsedStat): StatKey {
    StatKey(gameweek, p.element, p.fixture)
  }

  predicate AddsRow(w: World, gameweek: int, p: ParsedStat) {
    Records(KnownFixtures(w.fixtures, gameweek), p) && LiveKey(gameweek, p) !in w.stats
  }

  ghost predicate RepeatsNewStat(w: World, gameweek: int, parsed: seq<ParsedStat>) {
    exists i, j :: 0 <= i < j < |parsed| && LiveKey(gameweek, parsed[i]) == LiveKey(gameweek, parsed[j]) &&
                   AddsRow(w, gameweek, parsed[i])
  }

  ghost predicate RecordsFixture(w: World, gameweek: int, parsed: seq<ParsedStat>, fixture: int) {
    exists i :: 0 <= i < |parsed| && parsed[i].fixture == fixture && Records(KnownFixtures(w.fixtures, gameweek), parsed[i])
  }

  // ----- Ticks -----

  /** What one tick receives; a missing payload is a source that failed and was rolled back. */
  datatype Tick = Tick(fixtures: Option<seq<ParsedFixture>>, current: Option<int>, live: Option<seq<ParsedStat>>)

  /** Something of this Gameweek has started: the condition under which the live job runs. */
  predicate RunsLive(fixtures: map<int, Fixture>, gameweek: int) {
    exists f :: f in fixtures && fixtures[f].gameweek == Some(gameweek) && fixtures[f].started
  }

  /** A broken unique key aborts the whole tick, fixture rows included. */
  ghost function AfterTick(w: World, t: Tick): World {
    if t.fixtures.Some? && RepeatsNewFixture(w.fixtures, t.fixtures.value) then w
    else
      var mirrored := if t.fixtures.Some? then ApplyFixtures(w, t.fixtures.value) else w;
      if t.current.None? || t.live.None? || !RunsLive(mirrored.fixtures, t.current.value) then mirrored
      else if RepeatsNewStat(mirrored, t.current.value, t.live.value) then w
      else ApplyLive(mirrored, t.current.value, t.live.value)
  }

  ghost function AfterTicks(w: World, ticks: seq<Tick>): World {
    if ticks == [] then w else AfterTick(AfterTicks(w, ticks[..|ticks| - 1]), ticks[|ticks| - 1])
  }

  // ----- The invariant -----

  lemma {:induction false} FixturesKeepHome(w: World, parsed: seq<ParsedFixture>)
    requires AtHome(w)
    ensures AtHome(ApplyFixtures(w, parsed))
  {
    if parsed != [] {
      var before, p := ApplyFixtures(w, parsed[..|parsed| - 1]), parsed[|parsed| - 1];
      FixturesKeepHome(w, parsed[..|parsed| - 1]);
      var after := ApplyFixture(before, p);
      forall k | k in after.stats ensures HasGameweek(after, k.fixture, k.gameweek) {
        assert HasGameweek(before, k.fixture, k.gameweek);
      }
    }
  }

  lemma {:induction false} LiveKeys(w: World, gameweek: int, parsed: seq<ParsedStat>)
    ensures var after := ApplyLive(w, gameweek, parsed);
            && after.fixtures == w.fixtures
            && (forall k :: k in w.stats ==> k in after.stats)
            && (forall k :: k in after.stats && k !in w.stats ==>
                  k.gameweek == gameweek && RecordsFixture(w, gameweek, parsed, k.fixture))
            && (forall i :: 0 <= i < |parsed| && Records(KnownFixtures(w.fixtures, gameweek), parsed[i]) ==>
                  LiveKey(gameweek, parsed[i]) in after.stats)
  {
    if parsed != [] {
      LiveKeys(w, gameweek, parsed[..|parsed| - 1]);
    }
  }

  /**
   The live job by itself keeps statistics at home exactly when it knows a fixture of the Gameweek
   or has nothing to record: without the orchestrator's guard the invariant would not survive.
   */
  lemma LiveKeepsHomeIff(w: World, gameweek: int, parsed: seq<ParsedStat>)
    requires AtHome(w)
    ensures AtHome(ApplyLive(w, gameweek, parsed)) <==>
            KnownFixtures(w.fixtures, gameweek) != {} || parsed == []
  {
    var after, known := ApplyLive(w, gameweek, parsed), KnownFixtures(w.fixtures, gameweek);
    LiveKeys(w, gameweek, parsed);
    if known != {} {
      forall k | k in after.stats ensures HasGameweek(after, k.fixture, k.gameweek) {
        if k in w.stats {
          assert HasGameweek(w, k.fixture, k.gameweek);
        } else {
          assert k.fixture in known;
        }
      }
    } else if parsed != [] {
      var k := StatKey(gameweek, parsed[0].element, parsed[0].fixture);
      assert Records(known, parsed[0]) && k in after.stats;
      assert parsed[0].fixture !in known;
      assert !HasGameweek(after, k.fixture, k.gameweek);
    }
  }

  lemma TickKeepsHome(w: World, t: Tick)
    requires AtHome(w)
    ensures AtHome(AfterTick(w, t))
  {
    if t.fixtures.Some? {
      FixturesKeepHome(w, t.fixtures.value);
    }
    var mirrored := if t.fixtures.Some? then ApplyFixtures(w, t.fixtures.value) else w;
    if t.current.Some? && RunsLive(mirrored.fixtures, t.current.value) && t.live.Some? {
      var f :| f in mirrored.fixtures && mirrored.fixtures[f].gameweek == t.current && mirrored.fixtures[f].started;
      assert f in KnownFixtures(mirrored.fixtures, t.current.value);
      LiveKeepsHomeIff(mirrored, t.current.value, t.live.value);
    }
  }

  /** In every state that ticks can reach each statistic sits under its fixture's present Gameweek. */
  lemma {:induction false} TicksKeepHome(ticks: seq<Tick>)
    ensures AtHome(AfterTicks(World(map[], map[]), ticks))
  {
    if ticks != [] {
      TicksKeepHome(ticks[..|ticks| - 1]);
      TickKeepsHome(AfterTicks(World(map[], map[]), ticks[..|ticks| - 1]), ticks[|ticks| - 1]);
    }
  }

  /** A fixture job that reports nothing written has changed nothing, statistics included. */
  lemma {:induction false} QuietFixtureJob(w: World, parsed: seq<ParsedFixture>)
    ensures FixturesWritten(w, parsed) == 0 ==> ApplyFixtures(w, parsed) == w
  {
    if parsed != [] {
      QuietFixtureJob(w, parsed[..|parsed| - 1]);
    }
  }

  lemma {:induction false} QuietLiveJob(w: World, gameweek: int, parsed: seq<ParsedStat>)
    ensures StatsWritten(w, gameweek, parsed) == 0 ==> ApplyLive(w, gameweek, parsed) == w
  {
    if parsed != [] {
      QuietLiveJob(w, gameweek, parsed[..|parsed| - 1]);
    }
  }

  // ----- Gameweek totals -----

  ghost function CountedKeys(w: World, gameweek: int, element: int): set<StatKey> {
    set k | k in w.stats && k.gameweek == gameweek && k.element == element
  }

  ghost function CountedFixtures(w: World, gameweek: int, element: int): set<int> {
    set k | k in CountedKeys(w, gameweek, element) :: k.fixture
  }

  ghost function ElementPoints(w: World, gameweek: int, element: int): int {
    SumOver(CountedKeys(w, gameweek, element), k => if k in w.stats then w.stats[k].totalPoints else 0)
  }

  /** No fixture counts in two Gameweeks, in any reachable state. */
  lemma NoFixtureCountsTwice(ticks: seq<Tick>, element: int, g: int, h: int)
    requires g != h
    ensures var w := AfterTicks(World(map[], map[]), ticks);
            CountedFixtures(w, g, element) !! CountedFixtures(w, h, element)
  {
    var w := AfterTicks(World(map[], map[]), ticks);
    TicksKeepHome(ticks);
    forall k, l | k in CountedKeys(w, g, element) && l in CountedKeys(w, h, element) ensures k.fixture != l.fixture {
      assert HasGameweek(w, k.fixture, g) && HasGameweek(w, l.fixture, h);
    }
  }

  ghost predicate UniqueFixtures(parsed: seq<ParsedFixture>) {
    forall i, j :: 0 <= i < j < |parsed| ==> parsed[i].id != parsed[j].id
  }

  /** A statistic survives the fixture job exactly when its fixture stayed in its Gameweek. */
  lemma {:induction false} SurvivorsStayed(w: World, parsed: seq<ParsedFixture>, k: StatKey)
    requires AtHome(w) && UniqueFixtures(parsed)
    ensures var after := ApplyFixtures(w, parsed);
            && (k in after.stats <==> k in w.stats && HasGameweek(after, k.fixture, k.gameweek))
            && (k in after.stats ==> after.stats[k] == w.stats[k])
            && (k.fixture in w.fixtures ==> k.fixture in after.fixtures)
            && ((forall i :: 0 <= i < |parsed| ==> parsed[i].id != k.fixture) && k.fixture in w.fixtures ==>
                  after.fixtures[k.fixture] == w.fixtures[k.fixture])
  {
    if parsed == [] {
      assert k in w.stats ==> HasGameweek(w, k.fixture, k.gameweek);
    } else {
      SurvivorsStayed(w, parsed[..|parsed| - 1], k);
      assert k in w.stats ==> HasGameweek(w, k.fixture, k.gameweek);
    }
  }

  /** After the fixture job a Gameweek total is the old total less the fixtures that moved away. */
  lemma RescheduleLeavesTotal(w: World, parsed: seq<ParsedFixture>, gameweek: int, element: int)
    requires AtHome(w) && UniqueFixtures(parsed)
    ensures var after := ApplyFixtures(w, parsed);
            var moved := set k | k in CountedKeys(w, gameweek, element) && !HasGameweek(after, k.fixture, gameweek);
            ElementPoints(after, gameweek, element) ==
            ElementPoints(w, gameweek, element) - SumOver(moved, k => if k in w.stats then w.stats[k].totalPoints else 0)
  {
    var after := ApplyFixtures(w, parsed);
    var points := (k: StatKey) => if k in w.stats then w.stats[k].totalPoints else 0;
    var moved := set k | k in CountedKeys(w, gameweek, element) && !HasGameweek(after, k.fixture, gameweek);
    var kept := CountedKeys(after, gameweek, element);
    forall k ensures k in after.stats <==> k in w.stats && HasGameweek(after, k.fixture, k.gameweek) {
      SurvivorsStayed(w, parsed, k);
    }
    forall k | k in kept ensures after.stats[k] == w.stats[k] {
      SurvivorsStayed(w, parsed, k);
    }
    assert CountedKeys(w, gameweek, element) == kept + moved;
    SumSplit(kept, moved, points);
    SumSame(kept, k => if k in after.stats then after.stats[k].totalPoints else 0, points);
    SumSame(moved, k => if k in w.stats then w.stats[k].totalPoints else 0, points);
    SumSame(CountedKeys(w, gameweek, element), k => if k in w.stats then w.stats[k].totalPoints else 0, points);
  }

  // ----- The jobs, in place -----

  datatype JobError = UniqueKeyBroken

  /** The keys the first rows of a payload add to the table. */
  ghost function NewKeys(w: World, gameweek: int, parsed: seq<ParsedStat>): set<StatKey> {
    set j | 0 <= j < |parsed| && AddsRow(w, gameweek, parsed[j]) :: LiveKey(gameweek, parsed[j])
  }

  /** One more row of the feed: what it leaves of the table, whether it is written, and whether it breaks the key. */
  lemma NextStat(w: World, gameweek: int, parsed: seq<ParsedStat>, i: nat)
    requires i < |parsed| && !RepeatsNewStat(w, gameweek, parsed[..i])
    ensures var before, p := ApplyLive(w, gameweek, parsed[..i]), parsed[i];
            var records, key := Records(KnownFixtures(w.fixtures, gameweek), p), LiveKey(gameweek, p);
            && ApplyLive(w, gameweek, parsed[..i + 1]) ==
               (if records then before.(stats := before.stats[key := p.stat]) else before)
            && StatsWritten(w, gameweek, parsed[..i + 1]) == StatsWritten(w, gameweek, parsed[..i]) +
               if records && !(key in before.stats && before.stats[key] == p.stat) then 1 else 0
    ensures var adds, key := AddsRow(w, gameweek, parsed[i]), LiveKey(gameweek, parsed[i]);
            var known := NewKeys(w, gameweek, parsed[..i]);
            && NewKeys(w, gameweek, parsed[..i + 1]) == known + (if adds then {key} else {})
            && (if adds && key in known then RepeatsNewStat(w, gameweek, parsed)
                else !RepeatsNewStat(w, gameweek, parsed[..i + 1]))
  {
    var shorter, longer, key := parsed[..i], parsed[..i + 1], LiveKey(gameweek, parsed[i]);
    assert longer == shorter + [parsed[i]] && longer[..i] == shorter;
    if AddsRow(w, gameweek, parsed[i]) && key in NewKeys(w, gameweek, shorter) {
      var j :| 0 <= j < i && AddsRow(w, gameweek, shorter[j]) && LiveKey(gameweek, shorter[j]) == key;
      assert LiveKey(gameweek, parsed[j]) == LiveKey(gameweek, parsed[i]) && AddsRow(w, gameweek, parsed[j]);
    }
  }

  /** The fixtures the first rows of a payload add to the table. */
  ghost function NewFixtures(fixtures: map<int, Fixture>, parsed: seq<ParsedFixture>): set<int> {
    set j | 0 <= j < |parsed| && parsed[j].id !in fixtures :: parsed[j].id
  }

  /** One more fixture row: what it leaves of the tables, whether it is written, and whether it breaks the key. */
  lemma NextFixture(w: World, parsed: seq<ParsedFixture>, i: nat)
    requires i < |parsed| && !RepeatsNewFixture(w.fixtures, parsed[..i])
    ensures var before, p := ApplyFixtures(w, parsed[..i]), parsed[i];
            && ApplyFixtures(w, parsed[..i + 1]) == ApplyFixture(before, p)
            && FixturesWritten(w, parsed[..i + 1]) == FixturesWritten(w, parsed[..i]) +
               if p.id in before.fixtures && before.fixtures[p.id] == p.row then 0 else 1
    ensures var id, known := parsed[i].id, NewFixtures(w.fixtures, parsed[..i]);
            && NewFixtures(w.fixtures, parsed[..i + 1]) == known + (if id in w.fixtures then {} else {id})
            && (if id !in w.fixtures && id in known then RepeatsNewFixture(w.fixtures, parsed)
                else !RepeatsNewFixture(w.fixtures, parsed[..i + 1]))
  {
    var shorter, longer, id := parsed[..i], parsed[..i + 1], parsed[i].id;
    assert longer == shorter + [parsed[i]] && longer[..i] == shorter;
    if id in w.fixtures {
    } else if id in NewFixtures(w.fixtures, shorter) {
      var j :| 0 <= j < i && shorter[j].id == id;
      assert parsed[j].id == id;
    }
  }

  class FixtureStore {
    var fixtures: map<int, Fixture>
    var stats: map<StatKey, Stat>

    function Current(): World
      reads this
    {
      World(fixtures, stats)
    }

    constructor ()
      ensures Current() == World(map[], map[])
    {
      fixtures, stats := map[], map[];
    }

    method SyncFixtures(parsed: seq<ParsedFixture>) returns (result: Result<nat, JobError>)
      modifies this
      ensures Current() == if result.Err? then old(Current()) else ApplyFixtures(old(Current()), parsed)
      ensures result.Err? <==> RepeatsNewFixture(old(fixtures), parsed)
      ensures result.Ok? ==> result.value == FixturesWritten(old(Current()), parsed)
    {
      ghost var w := Current();
      var rows, kept, written := fixtures, stats, 0;
      var created: set<int> := {};
      for i := 0 to |parsed|
        invariant Current() == w
        invariant World(rows, kept) == ApplyFixtures(w, parsed[..i])
        invariant written == FixturesWritten(w, parsed[..i])
        invariant rows.Keys == w.fixtures.Keys + created
        invariant created == NewFixtures(w.fixtures, parsed[..i])
        invariant !RepeatsNewFixture(w.fixtures, parsed[..i])
      {
        var p := parsed[i];
        NextFixture(w, parsed, i);
        if p.id in fixtures {
          var previous := rows[p.id].gameweek;
          if rows[p.id] != p.row {
            rows := rows[p.id := p.row];
            written := written + 1;
            if previous.Some? && previous != p.row.gameweek {
              kept := WithoutMoved(kept, p.id, previous.value);
            }
          }
        } else if p.id in created {
          return Err(UniqueKeyBroken);
        } else {
          rows := rows[p.id := p.row];
          created := created + {p.id};
          written := written + 1;
        }
      }
      assert parsed[..|parsed|] == parsed;
      fixtures, stats := rows, kept;
      result := Ok(written);
    }

    method SyncLive(gameweek: int, parsed: seq<ParsedStat>) returns (result: Result<nat, JobError>)
      modifies this`stats
      ensures Current() == if result.Err? then old(Current()) else ApplyLive(old(Current()), gameweek, parsed)
      ensures result.Err? <==> RepeatsNewStat(old(Current()), gameweek, parsed)
      ensures result.Ok? ==> result.value == StatsWritten(old(Current()), gameweek, parsed)
    {
      var known := KnownFixtures(fixtures, gameweek);
      ghost var w := Current();
      var rows, written := stats, 0;
      var created: set<StatKey> := {};
      for i := 0 to |parsed|
        invariant Current() == w
        invariant World(w.fixtures, rows) == ApplyLive(w, gameweek, parsed[..i])
        invariant written == StatsWritten(w, gameweek, parsed[..i])
        invariant rows.Keys == stats.Keys + created
        invariant created == NewKeys(w, gameweek, parsed[..i])
        invariant !RepeatsNewStat(w, gameweek, parsed[..i])
      {
        var p := parsed[i];
        NextStat(w, gameweek, parsed, i);
        var key := LiveKey(gameweek, p);
        if Records(known, p) {
          if key !in stats {
            if key in created {
              return Err(UniqueKeyBroken);
            }
            created := created + {key};
            rows := rows[key := p.stat];
            written := written + 1;
          } else if rows[key] != p.stat {
            rows := rows[key := p.stat];
            written := written + 1;
          }
        }
      }
      assert parsed[..|parsed|] == parsed;
      stats := rows;
      result := Ok(written);
    }

    method AnythingStarted(gameweek: int) returns (started: bool)
      ensures started <==> RunsLive(fixtures, gameweek)
    {
      var known := KnownFixtures(fixtures, gameweek);
      var ids := SortedIds(known);
      SortedIdsHold(known);
      for i := 0 to |ids|
        invariant forall j :: 0 <= j < i ==> !fixtures[ids[j]].started
      {
        if fixtures[ids[i]].started {
          return true;
        }
      }
      forall f | f in known ensures !fixtures[f].started {
        assert f in ids;
      }
      started := false;
    }

    /** One scheduled tick: fixtures first, then the live feed if the plan runs it. */
    method RunTick(t: Tick)
      modifies this
      ensures Current() == AfterTick(old(Current()), t)
    {
      var before := Current();
      if t.fixtures.Some? {
        var mirrored := SyncFixtures(t.fixtures.value);
        if mirrored.Err? {
          return;
        }
      }
      if t.current.Some? {
        var runLive := AnythingStarted(t.current.value);
        if runLive && t.live.Some? {
          var recorded := SyncLive(t.current.value, t.live.value);
          if recorded.Err? {
            fixtures, stats := before.fixtures, before.stats;
          }
        }
      }
    }
  }
}
