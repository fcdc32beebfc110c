/** What detections and reviews come to, in counts and statuses: no more than the rulebook's own numbers. */
module DisciplinaryOutcomes {
  import opened Wrappers
  import opened Disciplinary
  import opened DisciplinaryService

  // ----- Consequences -----

  /** The totals from which each consequence is due. */
  lemma DueFrom(total: int)
    ensures DepositForfeited in DueActions(total) <==> total >= 1
    ensures H2HTableDeduction in DueActions(total) <==> total >= 1
    ensures PrizeCapped in DueActions(total) <==> total >= 2
    ensures RemovedFromCup in DueActions(total) <==> total >= 2
    ensures RemovedFromH2H in DueActions(total) <==> total >= 2
    ensures RemovedFromCompetition in DueActions(total) <==> total >= 3
  {
    assert LEDGER_ORDER[0] == DepositForfeited && LEDGER_ORDER[1] == H2HTableDeduction && LEDGER_ORDER[2] == PrizeCapped;
    assert LEDGER_ORDER[3] == RemovedFromCup && LEDGER_ORDER[4] == RemovedFromH2H && LEDGER_ORDER[5] == RemovedFromCompetition;
  }

  /**
   Over any run a manager's deposit is forfeited and his table penalty is -6 once a review has brought
   his total to one, his prize capped and his Cup and head-to-head place lost at two, and he is out of
   the competition at three; below these totals nothing of it holds.
   */
  lemma ConsequencesByPeak(cases: seq<Violation>, events: seq<Event>, m: int)
    requires Unreviewed(cases)
    ensures var book, peak := Run(cases, events), Peak(cases, events, m);
            var ledger := LedgerOf(book.ledger, m);
            && (DepositForfeited in ledger <==> peak >= 1)
            && (H2HTableDeduction in ledger <==> peak >= 1)
            && (PrizeCapped in ledger <==> peak >= 2)
            && (RemovedFromCup in ledger <==> peak >= 2)
            && (RemovedFromH2H in ledger <==> peak >= 2)
            && (RemovedFromCompetition in ledger <==> peak >= 3)
            && PenaltyTotal(book.penalties, m) == (if peak >= 1 then -6 else 0)
            && (m in book.removed <==> peak >= 3)
  {
    LedgerIsDueAtPeak(cases, events);
    DueFrom(Peak(cases, events, m));
  }

  lemma {:induction false} RowsWritten(book: Book, managerId: int, cumulative: int, actions: seq<ThresholdAction>)
    ensures var after := ApplyAll(book, managerId, cumulative, actions);
            && book.ledger <= after.ledger
            && forall i :: |book.ledger| <= i < |after.ledger| ==>
                 after.ledger[i].managerId == managerId && after.ledger[i].cumulative == cumulative
  {
    if actions != [] {
      RowsWritten(book, managerId, cumulative, actions[..|actions| - 1]);
    }
  }

  // ----- Reviews -----

  /** The reviews a case in this state can see. */
  ghost predicate CanSee(status: ViolationStatus, action: ReviewAction) {
    match status
    case Detected => action == RequestForgottenChipReview || action == Confirm || action == Override
    case PendingReview => action == ApproveException || action == RejectException || action == Override
    case Confirmed | Rejected => action == Override
    case ApprovedException | Overridden => false
  }

  /** What a review makes of a case: a dispute and an approved exception confirm nothing. */
  ghost function Outcome(v: Violation, action: ReviewAction, count: Option<int>): Violation
    requires action == Override ==> count.Some?
  {
    match action
    case RequestForgottenChipReview => v.(status := PendingReview, confirmedCount := 0)
    case ApproveException => v.(status := ApprovedException, confirmedCount := 0)
    case RejectException => v.(status := Rejected, confirmedCount := v.detectedCount)
    case Confirm => v.(status := Confirmed, confirmedCount := v.detectedCount)
    case Override => v.(status := Overridden, confirmedCount := count.value)
  }

  /**
   A review is accepted exactly when there is such a case, its state can see this review, and an
   override names a count that is not negative. It then gives this case its outcome, leaves every
   other case alone, and writes its consequences at the manager's new total.
   */
  lemma ReviewIsAcceptedIff(book: Book, key: CaseKey, action: ReviewAction, count: Option<int>)
    requires UniqueCases(book.cases)
    ensures Review(book, key, action, count).Ok? <==>
            && (exists i :: 0 <= i < |book.cases| && book.cases[i].key == key && CanSee(book.cases[i].status, action))
            && (action == Override ==> count.Some? && count.value >= 0)
    ensures Review(book, key, action, count).Ok? ==>
              var after := Review(book, key, action, count).value;
              && |after.cases| == |book.cases|
              && (forall i :: 0 <= i < |book.cases| ==>
                    after.cases[i] == if book.cases[i].key == key then Outcome(book.cases[i], action, count) else book.cases[i])
              && book.ledger <= after.ledger
              && (forall i :: |book.ledger| <= i < |after.ledger| ==>
                    && after.ledger[i].managerId == key.managerId
                    && after.ledger[i].cumulative == ConfirmedTotal(after.cases, key.managerId))
  {
    var at := FindCase(book.cases, key);
    if at.Some? {
      var v := book.cases[at.value];
      assert CanSee(v.status, action) <==> NextStatus(v.status, action).Some?;
      if Review(book, key, action, count).Ok? {
        var event := Transition(EventOf(v), action, count).value;
        assert WithOutcome(v, event) == Outcome(v, action, count);
        var reviewed := book.(cases := book.cases[at.value := WithOutcome(v, event)]);
        var cumulative := ConfirmedTotal(reviewed.cases, key.managerId);
        RowsWritten(reviewed, key.managerId, cumulative,
                    Outstanding(LEDGER_ORDER, DueActions(cumulative), LedgerOf(book.ledger, key.managerId)));
      }
    }
  }

  // ----- Detection -----

  /** One unit for each started eight points above the limit, and an error on a negative figure. */
  lemma HitsAreStartedEights(cost: int, allowed: int)
    ensures TransferHitCount(cost, allowed).Ok? <==> cost >= 0 && allowed >= 0
    ensures TransferHitCount(cost, allowed).Ok? ==>
              var n := TransferHitCount(cost, allowed).value;
              && (n == 0 <==> cost <= allowed)
              && (n > 0 ==> 8 * (n - 1) < cost - allowed <= 8 * n)
  {}

  /** An unreviewed case of this many units above the limit, which confirms nothing yet. */
  ghost predicate IsRaised(v: Violation, h: HistoryRow, allowed: int) {
    && v.key == CaseKey(h.managerId, h.gameweek, TransferHit)
    && v.status == Detected && v.confirmedCount == 0
    && v.detectedCount > 0 && 8 * (v.detectedCount - 1) < h.transferCost - allowed <= 8 * v.detectedCount
  }

  /**
   After a pass a cost above the limit has a raised case and any other cost has none, unless the case
   had been reviewed: that one is as it was. A negative figure anywhere leaves everything as it was.
   */
  lemma PassRaisesByCost(book: Book, history: seq<HistoryRow>, allowed: int, i: nat)
    requires SoundCases(book.cases) && UniqueHistory(history) && i < |history|
    ensures var after := After(book, DetectionPass(history, allowed));
            var key := CaseKey(history[i].managerId, history[i].gameweek, TransferHit);
            if allowed < 0 || exists h :: h in history && h.transferCost < 0 then after == book
            else
              && after == book.(cases := after.cases)
              && if CaseAt(book.cases, key).Some? && CaseAt(book.cases, key).value.status != Detected
                 then CaseAt(after.cases, key) == CaseAt(book.cases, key)
                 else if history[i].transferCost <= allowed then CaseAt(after.cases, key).None?
                 else CaseAt(after.cases, key).Some? && IsRaised(CaseAt(after.cases, key).value, history[i], allowed)
  {
    var h := history[i];
    forall x | x in history ensures TransferHitCount(x.transferCost, allowed).Err? <==> x.transferCost < 0 || allowed < 0 {}
    assert h in history;
    DetectionAt(book.cases, history, allowed, KeyOf(h));
    HitsAreStartedEights(h.transferCost, allowed);
    if CaseAt(book.cases, KeyOf(h)).Some? {
      assert SoundCase(CaseAt(book.cases, KeyOf(h)).value);
    }
  }

  /** A pass touches no case but those of its own kind that its history names. */
  lemma PassLeavesOtherCases(book: Book, history: seq<HistoryRow>, allowed: int, key: CaseKey)
    requires UniqueCases(book.cases) && UniqueHistory(history)
    requires key.kind != TransferHit ||
             forall i :: 0 <= i < |history| ==> history[i].managerId != key.managerId || history[i].gameweek != key.gameweek
    ensures CaseAt(After(book, DetectionPass(history, allowed)).cases, key) == CaseAt(book.cases, key)
  {
    DetectionAt(book.cases, history, allowed, key);
  }

  /** The case of a history row as it stands before the pass. */
  ghost function CaseOf(cases: seq<Violation>, h: HistoryRow): Option<Violation> {
    CaseAt(cases, CaseKey(h.managerId, h.gameweek, TransferHit))
  }

  ghost predicate IsNew(cases: seq<Violation>, h: HistoryRow, allowed: int) {
    CaseOf(cases, h).None? && h.transferCost > allowed
  }

  ghost predicate IsUndecided(cases: seq<Violation>, h: HistoryRow) {
    CaseOf(cases, h).Some? && CaseOf(cases, h).value.status == Detected
  }

  /** Undecided, above the limit, and not counted at its number of started eights. */
  ghost predicate IsMiscounted(cases: seq<Violation>, h: HistoryRow, allowed: int) {
    && IsUndecided(cases, h) && h.transferCost > allowed
    && var n := CaseOf(cases, h).value.detectedCount; !(8 * (n - 1) < h.transferCost - allowed <= 8 * n)
  }

  ghost predicate IsUnfounded(cases: seq<Violation>, h: HistoryRow, allowed: int) {
    IsUndecided(cases, h) && h.transferCost <= allowed
  }

  ghost function Where(history: seq<HistoryRow>, p: HistoryRow -> bool): set<int> {
    set i | 0 <= i < |history| && p(history[i])
  }

  lemma OneMoreRow(rest: seq<HistoryRow>, h: HistoryRow, p: HistoryRow -> bool)
    ensures |Where(rest + [h], p)| == |Where(rest, p)| + if p(h) then 1 else 0
  {
    assert forall i :: 0 <= i < |rest| ==> (rest + [h])[i] == rest[i];
    assert Where(rest + [h], p) == Where(rest, p) + if p(h) then {|rest|} else {};
  }

  /** What the last row of a history adds to the counts of a pass. */
  lemma LastRowIsNoted(cases: seq<Violation>, history: seq<HistoryRow>, allowed: int)
    requires UniqueCases(cases) && UniqueHistory(history) && allowed >= 0
    requires history != [] && history[|history| - 1].transferCost >= 0
    ensures var rest, h := history[..|history| - 1], history[|history| - 1];
            var before := Noted(cases, rest, allowed);
            Noted(cases, history, allowed) ==
            DetectionResult(before.raised + if IsNew(cases, h, allowed) then 1 else 0,
                            before.updated + if IsMiscounted(cases, h, allowed) then 1 else 0,
                            before.cleared + if IsUnfounded(cases, h, allowed) then 1 else 0, |history|)
  {
    var rest, h := history[..|history| - 1], history[|history| - 1];
    assert forall i :: 0 <= i < |rest| ==> rest[i] == history[i] && KeyOf(rest[i]) != KeyOf(h);
    DetectionAt(cases, rest, allowed, KeyOf(h));
    HitsAreStartedEights(h.transferCost, allowed);
  }

  /**
   A pass reports how many cases were missing, how many were counted wrongly and how many had no
   cost to stand on.
   */
  lemma {:induction false} PassCountsItsChanges(cases: seq<Violation>, history: seq<HistoryRow>, allowed: int)
    requires UniqueCases(cases) && UniqueHistory(history) && allowed >= 0
    requires forall h :: h in history ==> h.transferCost >= 0
    ensures Noted(cases, history, allowed) ==
            DetectionResult(|Where(history, h => IsNew(cases, h, allowed))|, |Where(history, h => IsMiscounted(cases, h, allowed))|,
                            |Where(history, h => IsUnfounded(cases, h, allowed))|, |history|)
  {
    if history != [] {
      var rest, h := history[..|history| - 1], history[|history| - 1];
      assert history == rest + [h];
      PassCountsItsChanges(cases, rest, allowed);
      LastRowIsNoted(cases, history, allowed);
      OneMoreRow(rest, h, x => IsNew(cases, x, allowed));
      OneMoreRow(rest, h, x => IsMiscounted(cases, x, allowed));
      OneMoreRow(rest, h, x => IsUnfounded(cases, x, allowed));
    }
  }
}
