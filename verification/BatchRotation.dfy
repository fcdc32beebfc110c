/**
 Reading the league in batches: each tick asks about the managers FPL was asked about longest ago.

 The store of raw responses keeps one row per distinct payload and moves its last-seen time on
 every observation; the batch of the next tick is chosen by those times. The main result names the
 very tick at which a manager is read.
 */
module BatchRotation {
  import opened Wrappers
  import opened SetSums
  import opened Sorting

  datatype Manager = Manager(id: int, entryId: int)

  type ReadTimes = map<int, int>

  // ----- Choosing a batch -----

  /** Never read first, then by time of the last read, then by id. */
  function RoundRobinKey(lastRead: ReadTimes, m: Manager): Key {
    if m.entryId in lastRead then [1, lastRead[m.entryId], m.id] else [0, 0, m.id]
  }

  /** For squads, managers without a stored squad come before everybody else. */
  function BatchKey(captured: set<int>, lastRead: ReadTimes, m: Manager): Key {
    [if m.id in captured then 1 else 0] + RoundRobinKey(lastRead, m)
  }

  function Ordered(managers: seq<Manager>, captured: set<int>, lastRead: ReadTimes): seq<Manager> {
    Sort(managers, m => BatchKey(captured, lastRead, m), false)
  }

  /** `ordered[:limit]`, or the whole league without a limit. */
  function Batch(managers: seq<Manager>, captured: set<int>, lastRead: ReadTimes, limit: Option<nat>): seq<Manager> {
    if limit.None? then managers
    else
      var ordered := Ordered(managers, captured, lastRead);
      ordered[..if limit.value < |ordered| then limit.value else |ordered|]
  }

  /** The managers a tick reads successfully move to the time of the tick. */
  function AfterReads(lastRead: ReadTimes, batch: seq<Manager>, failed: set<int>, now: int): ReadTimes {
    lastRead + ReadIn(batch, failed, now)
  }

  function ReadIn(batch: seq<Manager>, failed: set<int>, now: int): ReadTimes {
    map m: Manager | m in batch && m.entryId !in failed :: m.entryId := now
  }

  // ----- Positions in a batch -----

  ghost predicate DistinctManagers(managers: seq<Manager>) {
    forall i, j :: 0 <= i < j < |managers| ==>
      managers[i].id != managers[j].id && managers[i].entryId != managers[j].entryId
  }

  function IdOf(m: Manager): int {
    m.id
  }

  /** The managers who are ahead of m in the queue. */
  ghost function Ahead(managers: seq<Manager>, captured: set<int>, lastRead: ReadTimes, m: Manager): set<Manager> {
    set x | x in managers && Less(BatchKey(captured, lastRead, x), BatchKey(captured, lastRead, m))
  }

  /** The sorted queue holds every manager once, strictly by key. */
  lemma QueueIsStrict(managers: seq<Manager>, captured: set<int>, lastRead: ReadTimes)
    requires DistinctManagers(managers)
    ensures var q := Ordered(managers, captured, lastRead);
            && |q| == |managers|
            && (forall x :: x in q <==> x in managers)
            && (forall i, j :: 0 <= i < j < |q| ==>
                  q[i] != q[j] && Less(BatchKey(captured, lastRead, q[i]), BatchKey(captured, lastRead, q[j])))
  {
    var key := m => BatchKey(captured, lastRead, m);
    var q := Sort(managers, key, false);
    SortPermutes(managers, key, false);
    SortSorts(managers, key, false);
    UniquePermutation(managers, q, IdOf);
    forall x ensures x in q <==> x in managers {
      assert x in multiset(q) <==> x in multiset(managers);
    }
    forall i, j | 0 <= i < j < |q| ensures q[i] != q[j] && Less(key(q[i]), key(q[j])) {
      LessIsTotal(key(q[i]), key(q[j]));
      assert |BatchKey(captured, lastRead, q[i])| == 4 && BatchKey(captured, lastRead, q[i])[3] == q[i].id;
      assert |BatchKey(captured, lastRead, q[j])| == 4 && BatchKey(captured, lastRead, q[j])[3] == q[j].id;
    }
  }

  /** The managers ahead of m are those before him in the sorted queue. */
  lemma AheadInQueue(managers: seq<Manager>, captured: set<int>, lastRead: ReadTimes, p: nat, i: nat)
    requires DistinctManagers(managers)
    requires p < |Ordered(managers, captured, lastRead)| && i < |Ordered(managers, captured, lastRead)|
    ensures var q := Ordered(managers, captured, lastRead);
            q[i] in Ahead(managers, captured, lastRead, q[p]) <==> i < p
  {
    var q := Ordered(managers, captured, lastRead);
    QueueIsStrict(managers, captured, lastRead);
    LessIsTotal(BatchKey(captured, lastRead, q[i]), BatchKey(captured, lastRead, q[p]));
    assert q[i] in managers && q[p] in managers;
  }

  lemma AheadIsPrefix(managers: seq<Manager>, captured: set<int>, lastRead: ReadTimes, p: nat)
    requires DistinctManagers(managers) && p < |Ordered(managers, captured, lastRead)|
    ensures var q := Ordered(managers, captured, lastRead);
            && (set x | x in q[..p]) == Ahead(managers, captured, lastRead, q[p])
            && |Ahead(managers, captured, lastRead, q[p])| == p
            && forall i, j :: 0 <= i < j < |q| ==> q[i] != q[j]
  {
    var q := Ordered(managers, captured, lastRead);
    QueueIsStrict(managers, captured, lastRead);
    var before, ahead := (set x | x in q[..p]), Ahead(managers, captured, lastRead, q[p]);
    forall x | x in ahead ensures x in before {
      var i :| 0 <= i < |q| && q[i] == x;
      AheadInQueue(managers, captured, lastRead, p, i);
      assert q[..p][i] == x;
    }
    forall i | 0 <= i < p ensures q[..p][i] in ahead {
      AheadInQueue(managers, captured, lastRead, p, i);
    }
    assert before == ahead;
    DistinctSize(q[..p]);
  }

  /** A manager is in the batch exactly when fewer than `limit` managers are ahead of him. */
  lemma InBatchIff(managers: seq<Manager>, captured: set<int>, lastRead: ReadTimes, limit: nat, m: Manager)
    requires DistinctManagers(managers) && m in managers
    ensures m in Batch(managers, captured, lastRead, Some(limit)) <==> |Ahead(managers, captured, lastRead, m)| < limit
  {
    var q := Ordered(managers, captured, lastRead);
    QueueIsStrict(managers, captured, lastRead);
    var p :| 0 <= p < |q| && q[p] == m;
    AheadIsPrefix(managers, captured, lastRead, p);
    if limit > p {
      assert Batch(managers, captured, lastRead, Some(limit))[p] == m;
    }
  }

  /** A batch that leaves a manager out is made of managers ahead of him. */
  lemma BatchIsAhead(managers: seq<Manager>, captured: set<int>, lastRead: ReadTimes, limit: nat, m: Manager)
    requires DistinctManagers(managers) && m in managers
    requires limit <= |Ahead(managers, captured, lastRead, m)|
    ensures var read := set x | x in Batch(managers, captured, lastRead, Some(limit));
            |read| == limit && read <= Ahead(managers, captured, lastRead, m)
  {
    var q := Ordered(managers, captured, lastRead);
    QueueIsStrict(managers, captured, lastRead);
    var p :| 0 <= p < |q| && q[p] == m;
    AheadIsPrefix(managers, captured, lastRead, p);
    DistinctSize(q[..limit]);
    assert q[..limit] == q[..p][..limit];
  }

  lemma {:induction false} SubsetSize<T>(a: set<T>, b: set<T>)
    requires a <= b
    ensures |a| <= |b|
  {
    assert b == a + (b - a);
  }

  /** A manager with a stored squad is read only once every manager without one is in the batch. */
  lemma MissingSquadsComeFirst(managers: seq<Manager>, captured: set<int>, lastRead: ReadTimes, limit: nat,
                               x: Manager, y: Manager)
    requires DistinctManagers(managers) && x in managers && y in managers
    requires x.id in captured && y.id !in captured && x in Batch(managers, captured, lastRead, Some(limit))
    ensures y in Batch(managers, captured, lastRead, Some(limit))
  {
    InBatchIff(managers, captured, lastRead, limit, x);
    InBatchIff(managers, captured, lastRead, limit, y);
    var keyX, keyY := BatchKey(captured, lastRead, x), BatchKey(captured, lastRead, y);
    assert Less(keyY, keyX);
    forall z | z in Ahead(managers, captured, lastRead, y) ensures z in Ahead(managers, captured, lastRead, x) {
      LessIsTransitive(BatchKey(captured, lastRead, z), keyY, keyX);
    }
    SubsetSize(Ahead(managers, captured, lastRead, y), Ahead(managers, captured, lastRead, x));
  }

  // ----- What a tick does -----

  /** Whose squad is stored for the Gameweek, and when each manager was last read. */
  datatype Reads = Reads(captured: set<int>, lastRead: ReadTimes)

  /**
   The entries whose request fails, and those whose answer leaves a stored squad. An answer that is
   read but quarantined is in neither; nor, for entry history, is anybody's.
   */
  datatype Answers = Answers(failed: set<int>, storing: set<int>)

  function Stored(batch: seq<Manager>, a: Answers): set<int> {
    set m | m in batch && m.entryId !in a.failed && m.entryId in a.storing :: m.id
  }

  function AfterTick(r: Reads, batch: seq<Manager>, a: Answers, now: int): Reads {
    Reads(r.captured + Stored(batch, a), AfterReads(r.lastRead, batch, a.failed, now))
  }

  ghost function ReadsAfter(managers: seq<Manager>, r: Reads, a: Answers, limit: nat, ticks: seq<int>): Reads {
    if ticks == [] then r
    else
      var before := ReadsAfter(managers, r, a, limit, ticks[..|ticks| - 1]);
      AfterTick(before, BatchOf(managers, before, limit), a, ticks[|ticks| - 1])
  }

  function BatchOf(managers: seq<Manager>, r: Reads, limit: nat): seq<Manager> {
    Batch(managers, r.captured, r.lastRead, Some(limit))
  }

  ghost function Queue(managers: seq<Manager>, r: Reads, m: Manager): set<Manager> {
    Ahead(managers, r.captured, r.lastRead, m)
  }

  /**
   Those ahead of m whom being read does not send behind him: they never answer, or their answer
   stores no squad and m's is stored.
   */
  ghost function Stuck(managers: seq<Manager>, r: Reads, a: Answers, m: Manager): set<Manager> {
    set x | x in Queue(managers, r, m) &&
            (x.entryId in a.failed || (x.entryId !in a.storing && x.id !in r.captured && m.id in r.captured))
  }

  // ----- One tick -----

  ghost predicate FourLess(a: Key, b: Key) {
    |a| == |b| == 4 &&
    (a[0] < b[0] || (a[0] == b[0] &&
    (a[1] < b[1] || (a[1] == b[1] &&
    (a[2] < b[2] || (a[2] == b[2] && a[3] < b[3]))))))
  }

  lemma LessOfFour(a: Key, b: Key)
    requires |a| == |b| == 4
    ensures Less(a, b) <==> FourLess(a, b)
  {
    var a1, b1 := a[1..], b[1..];
    var a2, b2 := a1[1..], b1[1..];
    var a3, b3 := a2[1..], b2[1..];
    assert Less(a3, b3) <==> a[3] < b[3];
    assert Less(a2, b2) <==> a[2] < b[2] || (a[2] == b[2] && Less(a3, b3));
    assert Less(a1, b1) <==> a[1] < b[1] || (a[1] == b[1] && Less(a2, b2));
  }

  ghost predicate FromLeague(managers: seq<Manager>, batch: seq<Manager>) {
    forall y :: y in batch ==> y in managers
  }

  /** The key of a manager after a tick. */
  lemma KeyAfterTick(managers: seq<Manager>, r: Reads, a: Answers, batch: seq<Manager>, now: int, x: Manager)
    requires DistinctManagers(managers) && FromLeague(managers, batch) && x in managers
    ensures var after := AfterTick(r, batch, a, now);
            BatchKey(after.captured, after.lastRead, x) ==
            if x !in batch || x.entryId in a.failed then BatchKey(r.captured, r.lastRead, x)
            else [if x.id in r.captured || x.entryId in a.storing then 1 else 0, 1, now, x.id]
  {
    assert forall y :: y in managers && (y.entryId == x.entryId || y.id == x.id) ==> y == x;
    assert x.id in Stored(batch, a) <==> x in batch && x.entryId !in a.failed && x.entryId in a.storing;
    var read := ReadIn(batch, a.failed, now);
    assert x.entryId in read <==> x in batch && x.entryId !in a.failed;
  }

  /** A manager just read is ahead only of one whose squad is stored while his own is not. */
  lemma ReadGoesBehind(r: Reads, stored: bool, id: int, now: int, m: Manager)
    requires m.entryId in r.lastRead ==> r.lastRead[m.entryId] < now
    ensures Less([if stored then 1 else 0, 1, now, id], BatchKey(r.captured, r.lastRead, m)) <==>
            !stored && m.id in r.captured
  {
    LessOfFour([if stored then 1 else 0, 1, now, id], BatchKey(r.captured, r.lastRead, m));
  }

  /** A tick that does not read m lets nobody pass him, and sends behind him all it reads but the stuck. */
  lemma TickMoves(managers: seq<Manager>, r: Reads, a: Answers, batch: seq<Manager>, now: int, x: Manager, m: Manager)
    requires DistinctManagers(managers) && FromLeague(managers, batch) && x in managers && m in managers && m !in batch
    requires m.entryId in r.lastRead ==> r.lastRead[m.entryId] < now
    ensures x in Queue(managers, AfterTick(r, batch, a, now), m) <==>
            x in Queue(managers, r, m) && (x !in batch || x in Stuck(managers, r, a, m))
  {
    KeyAfterTick(managers, r, a, batch, now, x);
    KeyAfterTick(managers, r, a, batch, now, m);
    ReadGoesBehind(r, x.id in r.captured || x.entryId in a.storing, x.id, now, m);
    if x.id !in r.captured && m.id in r.captured {
      LessOfFour(BatchKey(r.captured, r.lastRead, x), BatchKey(r.captured, r.lastRead, m));
    }
  }

  lemma TickKeepsStuck(managers: seq<Manager>, r: Reads, a: Answers, batch: seq<Manager>, now: int, m: Manager)
    requires DistinctManagers(managers) && FromLeague(managers, batch) && m in managers && m !in batch
    requires m.entryId in r.lastRead ==> r.lastRead[m.entryId] < now
    ensures Stuck(managers, AfterTick(r, batch, a, now), a, m) == Stuck(managers, r, a, m)
  {
    var after := AfterTick(r, batch, a, now);
    forall x | x in managers ensures x in Stuck(managers, after, a, m) <==> x in Stuck(managers, r, a, m) {
      TickMoves(managers, r, a, batch, now, x, m);
      CapturedAfterTick(managers, r, a, batch, now, x);
      CapturedAfterTick(managers, r, a, batch, now, m);
    }
  }

  lemma CapturedAfterTick(managers: seq<Manager>, r: Reads, a: Answers, batch: seq<Manager>, now: int, x: Manager)
    requires DistinctManagers(managers) && FromLeague(managers, batch) && x in managers
    ensures x.id in AfterTick(r, batch, a, now).captured <==>
            x.id in r.captured || (x in batch && x.entryId !in a.failed && x.entryId in a.storing)
  {
    assert forall y :: y in managers && y.id == x.id ==> y == x;
  }

  /** One tick takes its batch, less the stuck, out of the queue ahead of a manager it does not read. */
  lemma QueueShrinks(managers: seq<Manager>, r: Reads, a: Answers, limit: nat, now: int, m: Manager)
    requires DistinctManagers(managers) && m in managers && m !in BatchOf(managers, r, limit)
    requires m.entryId in r.lastRead ==> r.lastRead[m.entryId] < now
    ensures var after := AfterTick(r, BatchOf(managers, r, limit), a, now);
            && Stuck(managers, after, a, m) == Stuck(managers, r, a, m)
            && |Queue(managers, after, m)| <= |Queue(managers, r, m)| - limit + |Stuck(managers, r, a, m)|
            && (Stuck(managers, r, a, m) == {} ==> |Queue(managers, after, m)| == |Queue(managers, r, m)| - limit)
  {
    var batch := BatchOf(managers, r, limit);
    var after := AfterTick(r, batch, a, now);
    QueueIsStrict(managers, r.captured, r.lastRead);
    InBatchIff(managers, r.captured, r.lastRead, limit, m);
    BatchIsAhead(managers, r.captured, r.lastRead, limit, m);
    TickKeepsStuck(managers, r, a, batch, now, m);
    var read := set x | x in batch;
    forall x | x in managers
      ensures x in Queue(managers, after, m) <==> x in Queue(managers, r, m) && (x !in read || x in Stuck(managers, r, a, m))
    {
      TickMoves(managers, r, a, batch, now, x, m);
    }
    TakenOut(Queue(managers, r, m), Queue(managers, after, m), read, Stuck(managers, r, a, m));
  }

  lemma TakenOut<T(!new)>(before: set<T>, after: set<T>, taken: set<T>, kept: set<T>)
    requires taken <= before && forall x :: x in after <==> x in before && (x !in taken || x in kept)
    ensures |after| <= |before| - |taken| + |kept|
    ensures kept == {} ==> |after| == |before| - |taken|
  {
    assert after == before - (taken - kept);
    assert |taken - kept| == |taken| - |taken * kept| by {
      assert taken == (taken - kept) + (taken * kept);
    }
    SubsetSize(taken * kept, kept);
  }

  // ----- Many ticks -----

  ghost predicate ClockRuns(managers: seq<Manager>, lastRead: ReadTimes, ticks: seq<int>) {
    && (forall i, j :: 0 <= i < j < |ticks| ==> ticks[i] < ticks[j])
    && (forall m, i :: m in managers && m.entryId in lastRead && 0 <= i < |ticks| ==> lastRead[m.entryId] < ticks[i])
  }

  lemma ClockRunsBefore(managers: seq<Manager>, lastRead: ReadTimes, ticks: seq<int>)
    requires ticks != [] && ClockRuns(managers, lastRead, ticks)
    ensures ClockRuns(managers, lastRead, ticks[..|ticks| - 1])
    ensures ticks == ticks[..|ticks| - 1] + [ticks[|ticks| - 1]]
  {}

  lemma {:induction false} TimesStayBehind(managers: seq<Manager>, r: Reads, a: Answers, limit: nat,
                                           ticks: seq<int>, now: int, m: Manager)
    requires ClockRuns(managers, r.lastRead, ticks + [now]) && m in managers
    ensures m.entryId in ReadsAfter(managers, r, a, limit, ticks).lastRead ==>
              ReadsAfter(managers, r, a, limit, ticks).lastRead[m.entryId] < now
  {
    if ticks == [] {
      assert (ticks + [now])[0] == now;
    } else {
      var rest, last := ticks[..|ticks| - 1], ticks[|ticks| - 1];
      assert (ticks + [now])[|ticks| - 1] == last && (ticks + [now])[|ticks|] == now;
      assert forall i :: 0 <= i <= |rest| ==> (rest + [last])[i] == (ticks + [now])[i];
      TimesStayBehind(managers, r, a, limit, rest, last, m);
    }
  }

  ghost predicate IsReadAt(managers: seq<Manager>, r: Reads, a: Answers, limit: nat, ticks: seq<int>, i: nat, m: Manager) {
    i <= |ticks| && m in BatchOf(managers, ReadsAfter(managers, r, a, limit, ticks[..i]), limit)
  }

  /** None of these ticks reads the manager. */
  ghost predicate Unread(managers: seq<Manager>, r: Reads, a: Answers, limit: nat, ticks: seq<int>, m: Manager) {
    ticks != [] ==>
      && Unread(managers, r, a, limit, ticks[..|ticks| - 1], m)
      && m !in BatchOf(managers, ReadsAfter(managers, r, a, limit, ticks[..|ticks| - 1]), limit)
  }

  lemma {:induction false} UnreadAt(managers: seq<Manager>, r: Reads, a: Answers, limit: nat, ticks: seq<int>, m: Manager, i: nat)
    requires Unread(managers, r, a, limit, ticks, m) && i < |ticks|
    ensures !IsReadAt(managers, r, a, limit, ticks, i, m)
  {
    var rest := ticks[..|ticks| - 1];
    if i == |rest| {
      assert ticks[..i] == rest;
    } else {
      assert ticks[..i] == rest[..i];
      UnreadAt(managers, r, a, limit, rest, m, i);
    }
  }

  lemma {:induction false} ReadAtSomeTick(managers: seq<Manager>, r: Reads, a: Answers, limit: nat, ticks: seq<int>, m: Manager)
    returns (i: nat)
    requires !Unread(managers, r, a, limit, ticks, m)
    ensures i < |ticks| && IsReadAt(managers, r, a, limit, ticks, i, m)
  {
    var rest := ticks[..|ticks| - 1];
    i := |rest|;
    if !Unread(managers, r, a, limit, rest, m) {
      i := ReadAtSomeTick(managers, r, a, limit, rest, m);
      assert rest[..i] == ticks[..i];
    }
  }

  /** Unread says of each tick that it does not read the manager. */
  lemma UnreadIffNoTickReads(managers: seq<Manager>, r: Reads, a: Answers, limit: nat, ticks: seq<int>, m: Manager)
    ensures Unread(managers, r, a, limit, ticks, m) <==>
            forall i :: 0 <= i < |ticks| ==> !IsReadAt(managers, r, a, limit, ticks, i, m)
  {
    if Unread(managers, r, a, limit, ticks, m) {
      forall i | 0 <= i < |ticks| ensures !IsReadAt(managers, r, a, limit, ticks, i, m) {
        UnreadAt(managers, r, a, limit, ticks, m, i);
      }
    } else {
      var i := ReadAtSomeTick(managers, r, a, limit, ticks, m);
    }
  }

  lemma OneFewer(n: nat, step: int)
    requires n > 0
    ensures (n - 1) * step == n * step - step
  {}

  ghost predicate QueueShrunk(managers: seq<Manager>, r: Reads, later: Reads, a: Answers, limit: nat, n: nat, m: Manager) {
    var stuck := Stuck(managers, r, a, m);
    && Stuck(managers, later, a, m) == stuck
    && |Queue(managers, later, m)| <= |Queue(managers, r, m)| - n * (limit - |stuck|)
    && (stuck == {} ==> |Queue(managers, later, m)| == |Queue(managers, r, m)| - n * limit)
  }

  lemma NextShrinks(managers: seq<Manager>, r: Reads, a: Answers, limit: nat, rest: seq<int>, now: int, m: Manager)
    requires DistinctManagers(managers) && m in managers && ClockRuns(managers, r.lastRead, rest + [now])
    requires m !in BatchOf(managers, ReadsAfter(managers, r, a, limit, rest), limit)
    requires QueueShrunk(managers, r, ReadsAfter(managers, r, a, limit, rest), a, limit, |rest|, m)
    ensures QueueShrunk(managers, r, ReadsAfter(managers, r, a, limit, rest + [now]), a, limit, |rest| + 1, m)
  {
    var before := ReadsAfter(managers, r, a, limit, rest);
    TimesStayBehind(managers, r, a, limit, rest, now, m);
    assert (rest + [now])[..|rest|] == rest;
    QueueShrinks(managers, before, a, limit, now, m);
    OneFewer(|rest| + 1, limit - |Stuck(managers, r, a, m)|);
    OneFewer(|rest| + 1, limit);
  }

  /** What a run of ticks without a manager leaves of the queue ahead of him. */
  lemma {:induction false} QueueAfterTicks(managers: seq<Manager>, r: Reads, a: Answers, limit: nat, ticks: seq<int>, m: Manager)
    returns (end: Reads)
    requires DistinctManagers(managers) && m in managers && ClockRuns(managers, r.lastRead, ticks)
    requires Unread(managers, r, a, limit, ticks, m)
    ensures end == ReadsAfter(managers, r, a, limit, ticks)
    ensures QueueShrunk(managers, r, end, a, limit, |ticks|, m)
  {
    end := ReadsAfter(managers, r, a, limit, ticks);
    if ticks == [] {
    } else {
      var rest, now := ticks[..|ticks| - 1], ticks[|ticks| - 1];
      ClockRunsBefore(managers, r.lastRead, ticks);
      var _ := QueueAfterTicks(managers, r, a, limit, rest, m);
      NextShrinks(managers, r, a, limit, rest, now, m);
    }
  }

  lemma StuckStayAhead(managers: seq<Manager>, r: Reads, later: Reads, a: Answers, limit: nat, n: nat, m: Manager)
    requires QueueShrunk(managers, r, later, a, limit, n, m)
    ensures |Stuck(managers, r, a, m)| <= |Queue(managers, later, m)|
    ensures n * (limit - |Stuck(managers, r, a, m)|) <= |Queue(managers, r, m)| - |Stuck(managers, r, a, m)|
  {
    SubsetSize(Stuck(managers, later, a, m), Queue(managers, later, m));
  }

  /** As many stuck managers as the batch holds starve everyone behind them, for good. */
  lemma {:induction false} StuckBatchStarves(managers: seq<Manager>, r: Reads, a: Answers, limit: nat, ticks: seq<int>, m: Manager)
    requires DistinctManagers(managers) && m in managers && ClockRuns(managers, r.lastRead, ticks)
    requires |Stuck(managers, r, a, m)| >= limit
    ensures Unread(managers, r, a, limit, ticks, m) && m !in BatchOf(managers, ReadsAfter(managers, r, a, limit, ticks), limit)
  {
    if ticks != [] {
      var rest := ticks[..|ticks| - 1];
      StuckBatchStarves(managers, r, a, limit, rest, m);
    }
    var end := QueueAfterTicks(managers, r, a, limit, ticks, m);
    StuckStayAhead(managers, r, end, a, limit, |ticks|, m);
    InBatchIff(managers, end.captured, end.lastRead, limit, m);
  }

  /** With s stuck out of a ahead, a manager is read by tick (a - s) / (limit - s), counting from zero. */
  lemma ReadInTime(managers: seq<Manager>, r: Reads, a: Answers, limit: nat, ticks: seq<int>, m: Manager)
    requires DistinctManagers(managers) && m in managers && ClockRuns(managers, r.lastRead, ticks)
    requires |Queue(managers, r, m)| - |Stuck(managers, r, a, m)| < |ticks| * (limit - |Stuck(managers, r, a, m)|)
    ensures !Unread(managers, r, a, limit, ticks, m)
  {
    if Unread(managers, r, a, limit, ticks, m) {
      var end := QueueAfterTicks(managers, r, a, limit, ticks, m);
      StuckStayAhead(managers, r, end, a, limit, |ticks|, m);
    }
  }

  /**
   However the league stands, and whoever never answers or never leaves a squad: a manager is read
   in some tick, if there are enough of them, exactly when fewer than `limit` are stuck ahead of him.
   */
  lemma ReadIffFewStuck(managers: seq<Manager>, r: Reads, a: Answers, limit: nat, ticks: seq<int>, m: Manager)
    requires DistinctManagers(managers) && m in managers && ClockRuns(managers, r.lastRead, ticks)
    requires |ticks| > |Queue(managers, r, m)|
    ensures (exists i :: 0 <= i < |ticks| && IsReadAt(managers, r, a, limit, ticks, i, m)) <==>
            |Stuck(managers, r, a, m)| < limit
  {
    var stuck := |Stuck(managers, r, a, m)|;
    UnreadIffNoTickReads(managers, r, a, limit, ticks, m);
    if stuck < limit {
      AtLeastOneEach(|ticks|, limit - stuck);
      SubsetSize(Stuck(managers, r, a, m), Queue(managers, r, m));
      ReadInTime(managers, r, a, limit, ticks, m);
    } else {
      StuckBatchStarves(managers, r, a, limit, ticks, m);
    }
  }

  lemma AtLeastOneEach(n: nat, step: nat)
    requires step >= 1
    ensures n * step >= n
  {}

  /**
   With nobody stuck ahead of him, a manager with a managers ahead is read for the first time in tick
   a / limit, counting from zero, and in none before.
   */
  lemma FirstReadIsExact(managers: seq<Manager>, r: Reads, a: Answers, limit: nat, ticks: seq<int>, m: Manager)
    requires DistinctManagers(managers) && m in managers && limit >= 1 && ClockRuns(managers, r.lastRead, ticks)
    requires Stuck(managers, r, a, m) == {} && |ticks| == |Queue(managers, r, m)| / limit
    ensures m in BatchOf(managers, ReadsAfter(managers, r, a, limit, ticks), limit)
    ensures Unread(managers, r, a, limit, ticks, m)
  {
    var ahead := |Queue(managers, r, m)|;
    WholeBatches(ahead, limit);
    UnreadWhileBatchesFit(managers, r, a, limit, ticks, m);
    var end := QueueAfterTicks(managers, r, a, limit, ticks, m);
    InBatchIff(managers, end.captured, end.lastRead, limit, m);
  }

  /** Nobody is read while a whole batch still fits ahead of him. */
  lemma {:induction false} UnreadWhileBatchesFit(managers: seq<Manager>, r: Reads, a: Answers, limit: nat, ticks: seq<int>,
                                                 m: Manager)
    requires DistinctManagers(managers) && m in managers && ClockRuns(managers, r.lastRead, ticks)
    requires Stuck(managers, r, a, m) == {} && |ticks| * limit <= |Queue(managers, r, m)|
    ensures Unread(managers, r, a, limit, ticks, m)
  {
    if ticks != [] {
      var rest := ticks[..|ticks| - 1];
      OneFewer(|ticks|, limit);
      UnreadWhileBatchesFit(managers, r, a, limit, rest, m);
      var before := QueueAfterTicks(managers, r, a, limit, rest, m);
      InBatchIff(managers, before.captured, before.lastRead, limit, m);
    }
  }

  lemma WholeBatches(ahead: nat, limit: nat)
    requires limit >= 1
    ensures 0 <= ahead - (ahead / limit) * limit < limit
  {}

  /** With every squad request answered and stored, nobody is ever stuck, whichever squads are stored already. */
  lemma StoringLeavesNobodyStuck(managers: seq<Manager>, r: Reads, a: Answers, m: Manager)
    requires a.failed == {} && forall x :: x in managers ==> x.entryId in a.storing
    ensures Stuck(managers, r, a, m) == {}
  {}

  /** Entry history stores no squads and looks at none: only failed requests get stuck. */
  lemma HistoryLeavesFailedStuck(managers: seq<Manager>, lastRead: ReadTimes, failed: set<int>, m: Manager)
    ensures Stuck(managers, Reads({}, lastRead), Answers(failed, {}), m) ==
            set x | x in Queue(managers, Reads({}, lastRead), m) && x.entryId in failed
  {}

  /**
   Nobody waits longer than the league takes to come round: with every request answered, n managers
   and batches of `limit`, each is read in any ceil(n / limit) ticks. For squads this holds from any
   stored squads; for entry history from any read times.
   */
  lemma EveryoneIsReadInTime(managers: seq<Manager>, r: Reads, a: Answers, limit: nat, ticks: seq<int>, m: Manager)
    requires DistinctManagers(managers) && m in managers && ClockRuns(managers, r.lastRead, ticks)
    requires |ticks| * limit >= |managers|
    requires a.failed == {}
    requires r.captured == {} == a.storing || forall x :: x in managers ==> x.entryId in a.storing
    ensures exists i :: 0 <= i < |ticks| && IsReadAt(managers, r, a, limit, ticks, i, m)
  {
    if r.captured == {} == a.storing {
      HistoryLeavesFailedStuck(managers, r.lastRead, {}, m);
      assert r == Reads({}, r.lastRead) && a == Answers({}, {});
    } else {
      StoringLeavesNobodyStuck(managers, r, a, m);
    }
    DistinctSize(managers);
    LessIsTotal(BatchKey(r.captured, r.lastRead, m), BatchKey(r.captured, r.lastRead, m));
    var all := set x | x in managers;
    SubsetSize(Ahead(managers, r.captured, r.lastRead, m) + {m}, all);
    ReadInTime(managers, r, a, limit, ticks, m);
    UnreadIffNoTickReads(managers, r, a, limit, ticks, m);
  }

  // ----- A league in which somebody is starved -----

  /** In batches of one, a manager who never answers starves the one behind him. */
  lemma FailingReadStarves(ticks: seq<int>)
    requires forall i, j :: 0 <= i < j < |ticks| ==> ticks[i] < ticks[j]
    ensures Unread([Manager(1, 101), Manager(2, 102)], Reads({}, map[]), Answers({101}, {}), 1, ticks, Manager(2, 102))
  {
    var managers, r, a := [Manager(1, 101), Manager(2, 102)], Reads({}, map[]), Answers({101}, {});
    LessOfFour(BatchKey({}, map[], Manager(1, 101)), BatchKey({}, map[], Manager(2, 102)));
    assert managers[0] in Stuck(managers, r, a, managers[1]);
    SubsetSize({managers[0]}, Stuck(managers, r, a, managers[1]));
    StuckBatchStarves(managers, r, a, 1, ticks, managers[1]);
  }

  // ----- Where the times come from -----

  datatype RequestKey = EntryHistory(entryId: int) | EntryPicks(entryId: int, gameweek: int) | SharedEndpoint(name: string)

  datatype Endpoint = History | Picks

  function EntryAt(key: RequestKey, endpoint: Endpoint): Option<int> {
    match (key, endpoint)
    case (EntryHistory(entryId), History) => Some(entryId)
    case (EntryPicks(entryId, _), Picks) => Some(entryId)
    case _ => None
  }

  /** One distinct payload of one request; the digest stands for the payload. */
  datatype RawRow = RawRow(key: RequestKey, digest: int, firstSeen: int, lastSeen: int, seenCount: nat, payloadKept: bool)

  /** One more row: the later of the two times. */
  function WithRow(times: ReadTimes, row: RawRow, endpoint: Endpoint): ReadTimes {
    match EntryAt(row.key, endpoint)
    case None => times
    case Some(entry) => if entry in times && times[entry] >= row.lastSeen then times else times[entry := row.lastSeen]
  }

  /** When each manager's endpoint was last read: the latest last-seen time over his rows. */
  function LastReadAt(rows: seq<RawRow>, endpoint: Endpoint): ReadTimes {
    if rows == [] then map[] else WithRow(LastReadAt(rows[..|rows| - 1], endpoint), rows[|rows| - 1], endpoint)
  }

  /** One more observation of a request. */
  function Observed(times: ReadTimes, key: RequestKey, endpoint: Endpoint, now: int): ReadTimes {
    match EntryAt(key, endpoint) case None => times case Some(entry) => times[entry := now]
  }

  ghost predicate SeenBefore(rows: seq<RawRow>, now: int) {
    forall i :: 0 <= i < |rows| ==> rows[i].lastSeen <= now
  }

  lemma {:induction false} LastReadIsSeen(rows: seq<RawRow>, endpoint: Endpoint, now: int)
    requires SeenBefore(rows, now)
    ensures forall e :: e in LastReadAt(rows, endpoint) ==> LastReadAt(rows, endpoint)[e] <= now
  {
    if rows != [] {
      LastReadIsSeen(rows[..|rows| - 1], endpoint, now);
    }
  }

  lemma NewRowMovesLastRead(rows: seq<RawRow>, row: RawRow, endpoint: Endpoint)
    requires SeenBefore(rows, row.lastSeen)
    ensures LastReadAt(rows + [row], endpoint) == Observed(LastReadAt(rows, endpoint), row.key, endpoint, row.lastSeen)
  {
    assert (rows + [row])[..|rows|] == rows;
    LastReadIsSeen(rows, endpoint, row.lastSeen);
  }

  lemma ObservedStaysLatest(times: ReadTimes, row: RawRow, key: RequestKey, endpoint: Endpoint, now: int)
    requires row.lastSeen <= now
    ensures WithRow(Observed(times, key, endpoint, now), row, endpoint) ==
            Observed(WithRow(times, row, endpoint), key, endpoint, now)
  {}

  /** Observing an unchanged payload again counts as a read. */
  lemma {:induction false} SeenAgainMovesLastRead(rows: seq<RawRow>, i: nat, row: RawRow, endpoint: Endpoint)
    requires i < |rows| && rows[i].key == row.key && SeenBefore(rows, row.lastSeen)
    ensures LastReadAt(rows[i := row], endpoint) == Observed(LastReadAt(rows, endpoint), row.key, endpoint, row.lastSeen)
  {
    var last := |rows| - 1;
    var rest := rows[..last];
    if i == last {
      assert rows[i := row] == rest + [row];
      NewRowMovesLastRead(rest, row, endpoint);
    } else {
      assert rows[i := row][..last] == rest[i := row];
      SeenAgainMovesLastRead(rest, i, row, endpoint);
      ObservedStaysLatest(LastReadAt(rest, endpoint), rows[last], row.key, endpoint, row.lastSeen);
    }
  }

  class RawStore {
    var rows: seq<RawRow>

    /** One row per request and payload. */
    ghost predicate Valid()
      reads this
    {
      forall i, j :: 0 <= i < j < |rows| ==> (rows[i].key, rows[i].digest) != (rows[j].key, rows[j].digest)
    }

    constructor ()
      ensures Valid() && rows == []
    {
      rows := [];
    }

    /** Store one response, or observe again the one already stored. */
    method Record(key: RequestKey, digest: int, observedAt: int, keepPayload: bool) returns (payloadChanged: bool)
      requires Valid()
      modifies this
      ensures Valid()
      ensures payloadChanged <==> forall i :: 0 <= i < |old(rows)| ==> (old(rows)[i].key, old(rows)[i].digest) != (key, digest)
      ensures payloadChanged ==> rows == old(rows) + [RawRow(key, digest, observedAt, observedAt, 1, keepPayload)]
      ensures !payloadChanged ==>
                exists i :: 0 <= i < |old(rows)| && old(rows)[i].key == key && old(rows)[i].digest == digest &&
                  rows == old(rows)[i := old(rows)[i].(lastSeen := observedAt, seenCount := old(rows)[i].seenCount + 1,
                                                       payloadKept := old(rows)[i].payloadKept || keepPayload)]
      ensures SeenBefore(old(rows), observedAt) ==>
                && SeenBefore(rows, observedAt)
                && LastReadAt(rows, History) == Observed(LastReadAt(old(rows), History), key, History, observedAt)
                && LastReadAt(rows, Picks) == Observed(LastReadAt(old(rows), Picks), key, Picks, observedAt)
    {
      for i := 0 to |rows|
        invariant forall j :: 0 <= j < i ==> (rows[j].key, rows[j].digest) != (key, digest)
        invariant rows == old(rows)
      {
        if rows[i].key == key && rows[i].digest == digest {
          var seen := rows[i].(lastSeen := observedAt, seenCount := rows[i].seenCount + 1,
                               payloadKept := rows[i].payloadKept || keepPayload);
          if SeenBefore(rows, observedAt) {
            SeenAgainMovesLastRead(rows, i, seen, History);
            SeenAgainMovesLastRead(rows, i, seen, Picks);
          }
          rows := rows[i := seen];
          return false;
        }
      }
      var row := RawRow(key, digest, observedAt, observedAt, 1, keepPayload);
      if SeenBefore(rows, observedAt) {
        NewRowMovesLastRead(rows, row, History);
        NewRowMovesLastRead(rows, row, Picks);
      }
      rows := rows + [row];
      payloadChanged := true;
    }
  }

  // ----- The two jobs -----

  /** The digest of an answer, and whether it parses. */
  datatype Response = Response(digest: int, readable: bool)

  datatype Squad = Squad(managerId: int, gameweek: int)

  function CapturedIn(squads: set<Squad>, gameweek: int): set<int> {
    set q | q in squads && q.gameweek == gameweek :: q.managerId
  }

  ghost function Unanswered(batch: seq<Manager>, responses: map<int, Response>): set<int> {
    set m | m in batch && m.entryId !in responses :: m.entryId
  }

  ghost function Readable(responses: map<int, Response>): set<int> {
    set e | e in responses && responses[e].readable
  }

  ghost function HistoryAnswers(batch: seq<Manager>, responses: map<int, Response>): Answers {
    Answers(Unanswered(batch, responses), {})
  }

  ghost function PicksAnswers(batch: seq<Manager>, responses: map<int, Response>): Answers {
    Answers(Unanswered(batch, responses), Readable(responses))
  }

  lemma OneMoreRead(r: Reads, batch: seq<Manager>, i: nat, a: Answers, now: int)
    requires i < |batch|
    ensures var before, after, m := AfterTick(r, batch[..i], a, now), AfterTick(r, batch[..i + 1], a, now), batch[i];
            after == if m.entryId in a.failed then before
                     else Reads(before.captured + if m.entryId in a.storing then {m.id} else {},
                                before.lastRead[m.entryId := now])
  {
    OneMoreTime(batch, i, a.failed, now);
    assert forall m :: m in batch[..i + 1] <==> m in batch[..i] || m == batch[i];
    OverlaidOnceMore(r.lastRead, ReadIn(batch[..i], a.failed, now), batch[i].entryId, now);
  }

  lemma OverlaidOnceMore(under: ReadTimes, over: ReadTimes, entry: int, now: int)
    ensures under + over[entry := now] == (under + over)[entry := now]
  {}

  lemma OneMoreTime(batch: seq<Manager>, i: nat, failed: set<int>, now: int)
    requires i < |batch|
    ensures ReadIn(batch[..i + 1], failed, now) ==
            if batch[i].entryId in failed then ReadIn(batch[..i], failed, now)
            else ReadIn(batch[..i], failed, now)[batch[i].entryId := now]
  {
    assert forall m :: m in batch[..i + 1] <==> m in batch[..i] || m == batch[i];
  }

  class Ingestion {
    const store: RawStore
    var squads: set<Squad>

    constructor ()
      ensures fresh(store) && store.Valid() && store.rows == [] && squads == {}
    {
      store := new RawStore();
      squads := {};
    }

    /** What the entry-history job goes by: no squads, and when each history was last read. */
    function HistoryReads(): Reads
      reads this, store
    {
      Reads({}, LastReadAt(store.rows, History))
    }

    /** What the squad job goes by for one Gameweek. */
    function PicksReads(gameweek: int): Reads
      reads this, store
    {
      Reads(CapturedIn(squads, gameweek), LastReadAt(store.rows, Picks))
    }

    /** One manager's answer to the entry-history job. */
    method StoreHistory(m: Manager, response: Response, now: int)
      requires store.Valid() && SeenBefore(store.rows, now)
      modifies store
      ensures store.Valid() && SeenBefore(store.rows, now)
      ensures LastReadAt(store.rows, History) == old(LastReadAt(store.rows, History))[m.entryId := now]
      ensures LastReadAt(store.rows, Picks) == old(LastReadAt(store.rows, Picks))
    {
      var _ := store.Record(EntryHistory(m.entryId), response.digest, now, true);
    }

    /** One run of the entry-history job; a manager whose request failed keeps his place in the queue. */
    method SyncEntryHistory(managers: seq<Manager>, limit: Option<nat>, responses: map<int, Response>, now: int)
      returns (batch: seq<Manager>)
      requires store.Valid() && SeenBefore(store.rows, now)
      modifies store
      ensures store.Valid() && SeenBefore(store.rows, now)
      ensures batch == Batch(managers, {}, old(HistoryReads().lastRead), limit)
      ensures HistoryReads() == AfterTick(old(HistoryReads()), batch, HistoryAnswers(batch, responses), now)
      ensures forall g :: PicksReads(g) == old(PicksReads(g))
    {
      ghost var before := HistoryReads();
      ghost var picks := LastReadAt(store.rows, Picks);
      batch := Batch(managers, {}, LastReadAt(store.rows, History), limit);
      for i := 0 to |batch|
        invariant store.Valid() && SeenBefore(store.rows, now)
        invariant HistoryReads() == AfterTick(before, batch[..i], HistoryAnswers(batch, responses), now)
        invariant LastReadAt(store.rows, Picks) == picks
      {
        OneMoreRead(before, batch, i, HistoryAnswers(batch, responses), now);
        if batch[i].entryId in responses {
          StoreHistory(batch[i], responses[batch[i].entryId], now);
        }
      }
      assert batch[..|batch|] == batch;
    }

    /** One manager's answer to the squad job: an answer that does not parse counts as read but leaves no squad. */
    method StorePicks(m: Manager, gameweek: int, response: Response, now: int)
      requires store.Valid() && SeenBefore(store.rows, now)
      modifies this`squads, store
      ensures store.Valid() && SeenBefore(store.rows, now)
      ensures PicksReads(gameweek) == Reads(old(PicksReads(gameweek)).captured + if response.readable then {m.id} else {},
                                            old(PicksReads(gameweek)).lastRead[m.entryId := now])
      ensures forall g :: g != gameweek ==> CapturedIn(squads, g) == old(CapturedIn(squads, g))
      ensures HistoryReads() == old(HistoryReads())
    {
      SquadAdded(squads, m.id, gameweek);
      var _ := store.Record(EntryPicks(m.entryId, gameweek), response.digest, now, true);
      if response.readable {
        squads := squads + {Squad(m.id, gameweek)};
      }
    }

    /** One run of the squad job. */
    method SyncPicks(managers: seq<Manager>, gameweek: int, limit: Option<nat>, responses: map<int, Response>, now: int)
      returns (batch: seq<Manager>)
      requires store.Valid() && SeenBefore(store.rows, now)
      modifies this`squads, store
      ensures store.Valid() && SeenBefore(store.rows, now)
      ensures batch == Batch(managers, old(PicksReads(gameweek).captured), old(PicksReads(gameweek).lastRead), limit)
      ensures PicksReads(gameweek) == AfterTick(old(PicksReads(gameweek)), batch, PicksAnswers(batch, responses), now)
      ensures forall g :: g != gameweek ==> CapturedIn(squads, g) == old(CapturedIn(squads, g))
      ensures HistoryReads() == old(HistoryReads())
    {
      ghost var before, history, had := PicksReads(gameweek), HistoryReads(), squads;
      batch := Batch(managers, CapturedIn(squads, gameweek), LastReadAt(store.rows, Picks), limit);
      for i := 0 to |batch|
        invariant store.Valid() && SeenBefore(store.rows, now)
        invariant PicksReads(gameweek) == AfterTick(before, batch[..i], PicksAnswers(batch, responses), now)
        invariant forall g :: g != gameweek ==> CapturedIn(squads, g) == CapturedIn(had, g)
        invariant HistoryReads() == history
      {
        OneMoreRead(before, batch, i, PicksAnswers(batch, responses), now);
        if batch[i].entryId in responses {
          StorePicks(batch[i], gameweek, responses[batch[i].entryId], now);
        }
      }
      assert batch[..|batch|] == batch;
    }
  }

  lemma SquadAdded(squads: set<Squad>, managerId: int, gameweek: int)
    ensures CapturedIn(squads + {Squad(managerId, gameweek)}, gameweek) == CapturedIn(squads, gameweek) + {managerId}
    ensures forall g :: g != gameweek ==> CapturedIn(squads + {Squad(managerId, gameweek)}, g) == CapturedIn(squads, g)
  {
    var more := squads + {Squad(managerId, gameweek)};
    forall x | x in CapturedIn(squads, gameweek) + {managerId} ensures x in CapturedIn(more, gameweek) {
      assert Squad(x, gameweek) in more;
    }
    forall g | g != gameweek ensures CapturedIn(more, g) == CapturedIn(squads, g) {
      forall x | x in CapturedIn(squads, g) ensures x in CapturedIn(more, g) {
        assert Squad(x, g) in more;
      }
    }
  }
}
