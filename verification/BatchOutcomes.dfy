/** Who is read before whom, and what a run of a job leaves behind, in ids, times and answers. */
module BatchOutcomes {
  import opened Wrappers
  import opened Sorting
  import opened BatchRotation

  /** Those without a stored squad first, then those never read, then those read longer ago, then by id. */
  ghost predicate GoesBefore(r: Reads, x: Manager, y: Manager) {
    if (x.id in r.captured) != (y.id in r.captured) then x.id !in r.captured
    else if (x.entryId in r.lastRead) != (y.entryId in r.lastRead) then x.entryId !in r.lastRead
    else if x.entryId in r.lastRead && r.lastRead[x.entryId] != r.lastRead[y.entryId]
    then r.lastRead[x.entryId] < r.lastRead[y.entryId]
    else x.id < y.id
  }

  /** The queue ahead of a manager holds exactly those who go before him. */
  lemma QueueIsByWait(managers: seq<Manager>, r: Reads, x: Manager, m: Manager)
    requires x in managers
    ensures x in Queue(managers, r, m) <==> GoesBefore(r, x, m)
  {
    LessOfFour(BatchKey(r.captured, r.lastRead, x), BatchKey(r.captured, r.lastRead, m));
  }

  /** The manager is asked about and FPL answers. */
  ghost predicate IsAnswered(batch: seq<Manager>, responses: map<int, Response>, m: Manager) {
    m in batch && m.entryId in responses
  }

  /** A run moves the time of those who answer to its own time, and nobody else's. */
  lemma AnswersMoveTimes(managers: seq<Manager>, r: Reads, batch: seq<Manager>, responses: map<int, Response>,
                         now: int, m: Manager)
    requires DistinctManagers(managers) && FromLeague(managers, batch) && m in managers
    ensures forall a: Answers :: a == HistoryAnswers(batch, responses) || a == PicksAnswers(batch, responses) ==>
              var after := AfterTick(r, batch, a, now).lastRead;
              if IsAnswered(batch, responses, m) then m.entryId in after && after[m.entryId] == now
              else (m.entryId in after <==> m.entryId in r.lastRead) &&
                   (m.entryId in after ==> after[m.entryId] == r.lastRead[m.entryId])
  {
    assert forall y :: y in managers && y.entryId == m.entryId ==> y == m;
    assert m.entryId in Unanswered(batch, responses) <==> m in batch && m.entryId !in responses;
  }

  /** The squad job stores a squad for those whose answer can be read, the other job for nobody. */
  lemma AnswersStoreSquads(managers: seq<Manager>, r: Reads, batch: seq<Manager>, responses: map<int, Response>,
                           now: int, m: Manager)
    requires DistinctManagers(managers) && FromLeague(managers, batch) && m in managers
    ensures m.id in AfterTick(r, batch, PicksAnswers(batch, responses), now).captured <==>
            m.id in r.captured || (IsAnswered(batch, responses, m) && responses[m.entryId].readable)
    ensures AfterTick(r, batch, HistoryAnswers(batch, responses), now).captured == r.captured
  {
    CapturedAfterTick(managers, r, PicksAnswers(batch, responses), batch, now, m);
    assert m.entryId in Unanswered(batch, responses) ==>
           exists y :: y in batch && y.entryId == m.entryId && y.entryId !in responses;
  }

  /** Without a limit a run asks about the whole league, and so reads everybody who answers. */
  lemma RunWithoutLimitReadsAll(managers: seq<Manager>, r: Reads, responses: map<int, Response>, now: int, m: Manager)
    requires DistinctManagers(managers) && m in managers
    ensures m in Batch(managers, r.captured, r.lastRead, None)
    ensures m.entryId in responses ==>
              var batch := Batch(managers, r.captured, r.lastRead, None);
              forall a: Answers :: a == HistoryAnswers(batch, responses) || a == PicksAnswers(batch, responses) ==>
                var after := AfterTick(r, batch, a, now).lastRead; m.entryId in after && after[m.entryId] == now
  {
    AnswersMoveTimes(managers, r, Batch(managers, r.captured, r.lastRead, None), responses, now, m);
  }

  /** A run with a limit asks about that many, or about the whole league if it is smaller, and about nobody twice. */
  lemma BatchSize(managers: seq<Manager>, r: Reads, limit: nat)
    requires DistinctManagers(managers)
    ensures var batch := Batch(managers, r.captured, r.lastRead, Some(limit));
            && |batch| == (if limit < |managers| then limit else |managers|)
            && (forall m :: m in batch ==> m in managers)
            && (forall i, j :: 0 <= i < j < |batch| ==> batch[i] != batch[j])
  {
    QueueIsStrict(managers, r.captured, r.lastRead);
  }

  /** The last-read time of an endpoint is the latest time any of its answers was seen. */
  lemma {:induction false} LastReadIsLatest(rows: seq<RawRow>, endpoint: Endpoint, entry: int)
    ensures entry in LastReadAt(rows, endpoint) <==> exists i :: 0 <= i < |rows| && IsOf(rows[i].key, endpoint, entry)
    ensures entry in LastReadAt(rows, endpoint) ==>
              var last := LastReadAt(rows, endpoint)[entry];
              && (exists i :: 0 <= i < |rows| && IsOf(rows[i].key, endpoint, entry) && rows[i].lastSeen == last)
              && (forall i :: 0 <= i < |rows| && IsOf(rows[i].key, endpoint, entry) ==> rows[i].lastSeen <= last)
  {
    if rows != [] {
      var n := |rows| - 1;
      LastReadIsLatest(rows[..n], endpoint, entry);
      assert forall i :: 0 <= i < n ==> rows[..n][i] == rows[i];
    }
  }

  /** The request asks this endpoint about this entry. */
  ghost predicate IsOf(key: RequestKey, endpoint: Endpoint, entry: int) {
    (endpoint == History && key == EntryHistory(entry)) || (endpoint == Picks && key.EntryPicks? && key.entryId == entry)
  }
}
