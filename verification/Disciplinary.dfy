/**
 Transfer violations: detection on every tick, an administrator's reviews, and the append-only
 ledger of consequences that apply once.
 */
module Disciplinary {
  import opened Sorting
  import opened Wrappers

  // ----- The rules (domain) -----

  datatype ViolationStatus = Detected | PendingReview | ApprovedException | Confirmed | Rejected | Overridden

  datatype ReviewAction = RequestForgottenChipReview | ApproveException | RejectException | Confirm | Override

  datatype ThresholdAction =
    | DepositForfeited | H2HTableDeduction
    | PrizeCapped | RemovedFromCup | RemovedFromH2H
    | RemovedFromCompetition

  datatype RuleError = NegativeCount | InvalidTransition | OverrideNeedsCount

  /** The order in which the ledger is written: by threshold, then by the action's name. */
  const LEDGER_ORDER: seq<ThresholdAction> :=
    [DepositForfeited, H2HTableDeduction, PrizeCapped, RemovedFromCup, RemovedFromH2H, RemovedFromCompetition]

  function Threshold(action: ThresholdAction): nat {
    match action
    case DepositForfeited | H2HTableDeduction => 1
    case PrizeCapped | RemovedFromCup | RemovedFromH2H => 2
    case RemovedFromCompetition => 3
  }

  function DueActions(cumulative: int): set<ThresholdAction> {
    set action | action in LEDGER_ORDER && cumulative >= Threshold(action)
  }

  /** One unit for each started 8 points of transfer cost above the limit. */
  function TransferHitCount(cost: int, allowed: int): Result<nat, RuleError> {
    if cost < 0 || allowed < 0 then Err(NegativeCount)
    else if cost <= allowed then Ok(0)
    else Ok((cost - allowed + 7) / 8)
  }

  datatype ViolationEvent = ViolationEvent(detectedCount: int, status: ViolationStatus, overriddenCount: Option<int>)
  {
    function EffectiveConfirmedCount(): int {
      match status
      case Confirmed | Rejected => detectedCount
      case Overridden => if overriddenCount.Some? then overriddenCount.value else 0
      case _ => 0
    }
  }

  function NextStatus(status: ViolationStatus, action: ReviewAction): Option<ViolationStatus> {
    match (status, action)
    case (Detected, RequestForgottenChipReview) => Some(PendingReview)
    case (Detected, Confirm) => Some(Confirmed)
    case (Detected, Override) => Some(Overridden)
    case (PendingReview, ApproveException) => Some(ApprovedException)
    case (PendingReview, RejectException) => Some(Rejected)
    case (PendingReview, Override) => Some(Overridden)
    case (Confirmed, Override) => Some(Overridden)
    case (Rejected, Override) => Some(Overridden)
    case _ => None
  }

  function Transition(event: ViolationEvent, action: ReviewAction, overriddenCount: Option<int>)
    : Result<ViolationEvent, RuleError>
  {
    var next := NextStatus(event.status, action);
    if next.None? then Err(InvalidTransition)
    else if next.value == Overridden then
      if overriddenCount.None? || overriddenCount.value < 0 then Err(OverrideNeedsCount)
      else Ok(ViolationEvent(event.detectedCount, Overridden, overriddenCount))
    else Ok(ViolationEvent(event.detectedCount, next.value, None))
  }

  /** How many more reviews a case can still see. */
  function ReviewsLeft(status: ViolationStatus): nat {
    match status
    case Detected => 3
    case PendingReview => 2
    case Confirmed | Rejected => 1
    case ApprovedException | Overridden => 0
  }

  function Reviewed(event: ViolationEvent, reviews: seq<(ReviewAction, Option<int>)>): Result<ViolationEvent, RuleError>
    decreases |reviews|
  {
    if reviews == [] then Ok(event)
    else
      match Transition(event, reviews[0].0, reviews[0].1)
      case Err(e) => Err(e)
      case Ok(next) => Reviewed(next, reviews[1..])
  }

  /** A case is reviewed at most three times, and a chip dispute that is overridden uses all three. */
  lemma {:induction false} ReviewsAreBounded(event: ViolationEvent, reviews: seq<(ReviewAction, Option<int>)>)
    requires Reviewed(event, reviews).Ok?
    ensures |reviews| <= ReviewsLeft(event.status) <= 3
    ensures Reviewed(ViolationEvent(1, Detected, None),
                     [(RequestForgottenChipReview, None), (RejectException, None), (Override, Some(0))]).Ok?
    decreases |reviews|
  {
    if reviews != [] {
      ReviewsAreBounded(Transition(event, reviews[0].0, reviews[0].1).value, reviews[1..]);
    }
    var dispute := [(RequestForgottenChipReview, None), (RejectException, None), (Override, Some(0))];
    assert dispute[1..] == [(RejectException, None), (Override, Some(0))];
    assert dispute[1..][1..] == [(Override, Some(0))];
  }

  // ----- Stored state -----

  datatype ViolationType = TransferHit | LateSeason2Join | Manual

  datatype CaseKey = CaseKey(managerId: int, gameweek: int, kind: ViolationType)

  datatype Violation = Violation(key: CaseKey, detectedCount: int, confirmedCount: int, status: ViolationStatus)

  datatype LedgerRow = LedgerRow(managerId: int, action: ThresholdAction, cumulative: int)

  datatype Penalty = Penalty(managerId: int, delta: int)

  datatype HistoryRow = HistoryRow(managerId: int, gameweek: int, transferCost: int)

  const H2H_TABLE_DEDUCTION := -6

  datatype Book = Book(cases: seq<Violation>, ledger: seq<LedgerRow>, penalties: seq<Penalty>, removed: set<int>)

  /** What one case confirms of one manager. */
  function ConfirmedOf(managerId: int): Violation -> int {
    (v: Violation) => if v.key.managerId == managerId then v.confirmedCount else 0
  }

  function ConfirmedTotal(cases: seq<Violation>, managerId: int): int {
    Sum(cases, ConfirmedOf(managerId))
  }

  function PenaltyOf(managerId: int): Penalty -> int {
    (p: Penalty) => if p.managerId == managerId then p.delta else 0
  }

  function PenaltyTotal(penalties: seq<Penalty>, managerId: int): int {
    Sum(penalties, PenaltyOf(managerId))
  }

  function LedgerOf(ledger: seq<LedgerRow>, managerId: int): set<ThresholdAction> {
    set row | row in ledger && row.managerId == managerId :: row.action
  }

  function FindCase(cases: seq<Violation>, key: CaseKey): (i: Option<nat>)
    ensures i.Some? ==> i.value < |cases| && cases[i.value].key == key
    ensures i.None? ==> forall j :: 0 <= j < |cases| ==> cases[j].key != key
  {
    if cases == [] then None
    else if cases[0].key == key then Some(0)
    else match FindCase(cases[1..], key) case None => None case Some(j) => Some(j + 1)
  }

  ghost predicate UniqueCases(cases: seq<Violation>) {
    forall i, j :: 0 <= i < j < |cases| ==> cases[i].key != cases[j].key
  }

  /** The status of a case fixes what it counts for. */
  ghost predicate SoundCase(v: Violation) {
    && v.detectedCount >= 0
    && match v.status
       case Confirmed | Rejected => v.confirmedCount == v.detectedCount
       case Overridden => v.confirmedCount >= 0
       case _ => v.confirmedCount == 0
  }

  ghost predicate SoundCases(cases: seq<Violation>) {
    UniqueCases(cases) && forall i :: 0 <= i < |cases| ==> SoundCase(cases[i])
  }

  // ----- Totals under local changes -----

  lemma TotalOfSplit(cases: seq<Violation>, i: nat, m: int)
    requires i < |cases|
    ensures ConfirmedTotal(cases, m) ==
            ConfirmedTotal(cases[..i], m) + (if cases[i].key.managerId == m then cases[i].confirmedCount else 0)
            + ConfirmedTotal(cases[i + 1..], m)
  {
    assert cases == cases[..i] + cases[i..];
    SumConcat(cases[..i], cases[i..], ConfirmedOf(m));
    assert cases[i..][1..] == cases[i + 1..];
  }

  lemma TotalOfUpdate(cases: seq<Violation>, i: nat, v: Violation, m: int)
    requires i < |cases| && cases[i].key == v.key
    ensures ConfirmedTotal(cases[i := v], m) ==
            ConfirmedTotal(cases, m) + if v.key.managerId == m then v.confirmedCount - cases[i].confirmedCount else 0
  {
    TotalOfSplit(cases, i, m);
    TotalOfSplit(cases[i := v], i, m);
    assert cases[i := v][..i] == cases[..i] && cases[i := v][i + 1..] == cases[i + 1..];
  }

  lemma {:induction false} TotalIsNonNegative(cases: seq<Violation>, m: int)
    requires forall i :: 0 <= i < |cases| ==> SoundCase(cases[i])
    ensures ConfirmedTotal(cases, m) >= 0
  {
    if cases != [] {
      assert SoundCase(cases[0]);
      TotalIsNonNegative(cases[1..], m);
    }
  }

  // ----- Detection -----

  function CaseAt(cases: seq<Violation>, key: CaseKey): Option<Violation> {
    match FindCase(cases, key) case None => None case Some(i) => Some(cases[i])
  }

  function KeyOf(h: HistoryRow): CaseKey {
    CaseKey(h.managerId, h.gameweek, TransferHit)
  }

  function HitCount(h: HistoryRow, allowed: int): nat {
    match TransferHitCount(h.transferCost, allowed) case Ok(n) => n case Err(_) => 0
  }

  /** What one history row makes of the case it belongs to. */
  function Target(existing: Option<Violation>, key: CaseKey, count: nat): Option<Violation> {
    match existing
    case None => if count == 0 then None else Some(Violation(key, count, 0, Detected))
    case Some(v) =>
      if v.status != Detected then existing
      else if count == 0 then None
      else Some(v.(detectedCount := count))
  }

  function DetectOne(cases: seq<Violation>, h: HistoryRow, allowed: int): seq<Violation> {
    var count := HitCount(h, allowed);
    match FindCase(cases, KeyOf(h))
    case None => if count == 0 then cases else cases + [Violation(KeyOf(h), count, 0, Detected)]
    case Some(i) =>
      if cases[i].status != Detected then cases
      else if count == 0 then cases[..i] + cases[i + 1..]
      else if cases[i].detectedCount != count then cases[i := cases[i].(detectedCount := count)]
      else cases
  }

  function DetectAll(cases: seq<Violation>, history: seq<HistoryRow>, allowed: int): seq<Violation> {
    if history == [] then cases
    else DetectOne(DetectAll(cases, history[..|history| - 1], allowed), history[|history| - 1], allowed)
  }

  ghost predicate UniqueHistory(history: seq<HistoryRow>) {
    forall i, j :: 0 <= i < j < |history| ==> KeyOf(history[i]) != KeyOf(history[j])
  }

  /** One history row settles its own case and touches no other. */
  lemma DetectOneAt(cases: seq<Violation>, h: HistoryRow, allowed: int, key: CaseKey)
    requires UniqueCases(cases)
    ensures UniqueCases(DetectOne(cases, h, allowed))
    ensures CaseAt(DetectOne(cases, h, allowed), key) ==
            if key == KeyOf(h) then Target(CaseAt(cases, key), key, HitCount(h, allowed)) else CaseAt(cases, key)
  {
    var at, count := FindCase(cases, KeyOf(h)), HitCount(h, allowed);
    if at.None? {
      if count > 0 {
        AdditionAt(cases, Violation(KeyOf(h), count, 0, Detected), key);
      }
    } else if cases[at.value].status == Detected {
      if count == 0 {
        RemovalAt(cases, at.value, key);
      } else {
        UpdateAt(cases, at.value, cases[at.value].(detectedCount := count), key);
      }
    }
  }

  lemma AdditionAt(cases: seq<Violation>, v: Violation, key: CaseKey)
    requires UniqueCases(cases) && FindCase(cases, v.key).None?
    ensures UniqueCases(cases + [v])
    ensures CaseAt(cases + [v], key) == if key == v.key then Some(v) else CaseAt(cases, key)
  {
    var after := cases + [v];
    assert after[|cases|] == v && forall i :: 0 <= i < |cases| ==> after[i] == cases[i];
    if CaseAt(cases, key).Some? {
      var j :| 0 <= j < |cases| && cases[j] == CaseAt(cases, key).value;
      assert after[j] == cases[j];
    }
  }

  lemma UpdateAt(cases: seq<Violation>, i: nat, v: Violation, key: CaseKey)
    requires UniqueCases(cases) && i < |cases| && cases[i].key == v.key
    ensures UniqueCases(cases[i := v])
    ensures CaseAt(cases[i := v], key) == if key == v.key then Some(v) else CaseAt(cases, key)
  {
    assert cases[i := v][i] == v;
    if key != v.key && CaseAt(cases, key).Some? {
      var j :| 0 <= j < |cases| && cases[j] == CaseAt(cases, key).value;
      assert cases[i := v][j] == cases[j];
    }
  }

  lemma RemovalAt(cases: seq<Violation>, i: nat, key: CaseKey)
    requires UniqueCases(cases) && i < |cases|
    ensures UniqueCases(cases[..i] + cases[i + 1..])
    ensures CaseAt(cases[..i] + cases[i + 1..], key) == if key == cases[i].key then None else CaseAt(cases, key)
  {
    var after := cases[..i] + cases[i + 1..];
    forall j | 0 <= j < |after| ensures after[j] == cases[if j < i then j else j + 1] {}
    if CaseAt(cases, key).Some? && key != cases[i].key {
      var j :| 0 <= j < |cases| && cases[j].key == key;
      assert after[if j < i then j else j - 1] == cases[j];
    }
  }

  /** After a pass every case a history row speaks of is settled by it, and every other case is as it was. */
  lemma {:induction false} DetectionAt(cases: seq<Violation>, history: seq<HistoryRow>, allowed: int, key: CaseKey)
    requires UniqueCases(cases) && UniqueHistory(history)
    ensures UniqueCases(DetectAll(cases, history, allowed))
    ensures forall i :: 0 <= i < |history| && KeyOf(history[i]) == key ==>
              CaseAt(DetectAll(cases, history, allowed), key) == Target(CaseAt(cases, key), key, HitCount(history[i], allowed))
    ensures (forall i :: 0 <= i < |history| ==> KeyOf(history[i]) != key) ==>
              CaseAt(DetectAll(cases, history, allowed), key) == CaseAt(cases, key)
  {
    if history != [] {
      var rest, last := history[..|history| - 1], history[|history| - 1];
      DetectionAt(cases, rest, allowed, key);
      DetectOneAt(DetectAll(cases, rest, allowed), last, allowed, key);
      assert forall i :: 0 <= i < |rest| ==> history[i] == rest[i] && KeyOf(history[i]) != KeyOf(last);
    }
  }

  lemma {:induction false} DetectionKeepsSound(cases: seq<Violation>, history: seq<HistoryRow>, allowed: int)
    requires SoundCases(cases)
    ensures SoundCases(DetectAll(cases, history, allowed))
  {
    if history != [] {
      var rest, last := history[..|history| - 1], history[|history| - 1];
      var before := DetectAll(cases, rest, allowed);
      DetectionKeepsSound(cases, rest, allowed);
      DetectOneAt(before, last, allowed, KeyOf(last));
      forall i | 0 <= i < |DetectOne(before, last, allowed)| ensures SoundCase(DetectOne(before, last, allowed)[i]) {
        assert forall j :: 0 <= j < |before| ==> SoundCase(before[j]);
      }
    }
  }

  /** Detection decides nothing: no manager's confirmed total moves. */
  lemma {:induction false} DetectionKeepsTotals(cases: seq<Violation>, history: seq<HistoryRow>, allowed: int, m: int)
    requires SoundCases(cases)
    ensures ConfirmedTotal(DetectAll(cases, history, allowed), m) == ConfirmedTotal(cases, m)
  {
    if history != [] {
      var rest, last := history[..|history| - 1], history[|history| - 1];
      var before := DetectAll(cases, rest, allowed);
      DetectionKeepsTotals(cases, rest, allowed, m);
      DetectionKeepsSound(cases, rest, allowed);
      match FindCase(before, KeyOf(last))
      case None =>
        SumConcat(before, [Violation(KeyOf(last), HitCount(last, allowed), 0, Detected)], ConfirmedOf(m));
      case Some(i) =>
        assert SoundCase(before[i]);
        if before[i].status == Detected {
          TotalOfSplit(before, i, m);
          SumConcat(before[..i], before[i + 1..], ConfirmedOf(m));
          TotalOfUpdate(before, i, before[i].(detectedCount := HitCount(last, allowed)), m);
        }
    }
  }

  /** Detection converges: an unreviewed case carries the published count, and none is left out or left over. */
  lemma DetectionConverges(cases: seq<Violation>, history: seq<HistoryRow>, allowed: int, i: nat)
    requires UniqueCases(cases) && UniqueHistory(history) && i < |history|
    ensures var count, found := HitCount(history[i], allowed), CaseAt(DetectAll(cases, history, allowed), KeyOf(history[i]));
            && (found.None? ==> count == 0)
            && (found.Some? && found.value.status == Detected ==> found.value.detectedCount == count > 0)
            && (found.Some? && found.value.status != Detected ==> found == CaseAt(cases, KeyOf(history[i])))
  {
    DetectionAt(cases, history, allowed, KeyOf(history[i]));
  }

  lemma {:induction false} SettledPassIsIdle(cases: seq<Violation>, history: seq<HistoryRow>, allowed: int)
    requires UniqueCases(cases)
    requires forall i :: 0 <= i < |history| ==>
               CaseAt(cases, KeyOf(history[i])) ==
                 Target(CaseAt(cases, KeyOf(history[i])), KeyOf(history[i]), HitCount(history[i], allowed))
    ensures DetectAll(cases, history, allowed) == cases
  {
    if history != [] {
      SettledPassIsIdle(cases, history[..|history| - 1], allowed);
      var last := history[|history| - 1];
      assert CaseAt(cases, KeyOf(last)) == Target(CaseAt(cases, KeyOf(last)), KeyOf(last), HitCount(last, allowed));
    }
  }

  /** Running detection twice over the same history is running it once. */
  lemma DetectionIsIdempotent(cases: seq<Violation>, history: seq<HistoryRow>, allowed: int)
    requires UniqueCases(cases) && UniqueHistory(history)
    ensures DetectAll(DetectAll(cases, history, allowed), history, allowed) == DetectAll(cases, history, allowed)
  {
    var once := DetectAll(cases, history, allowed);
    forall i | 0 <= i < |history|
      ensures CaseAt(once, KeyOf(history[i])) ==
              Target(CaseAt(once, KeyOf(history[i])), KeyOf(history[i]), HitCount(history[i], allowed))
    {
      DetectionAt(cases, history, allowed, KeyOf(history[i]));
    }
    DetectionAt(cases, history, allowed, CaseKey(0, 0, Manual));
    SettledPassIsIdle(once, history, allowed);
  }

  // ----- Reviews and the ledger -----

  datatype ReviewError = CaseNotFound | RuleBroken(error: RuleError)

  function Outstanding(order: seq<ThresholdAction>, due: set<ThresholdAction>, already: set<ThresholdAction>)
    : seq<ThresholdAction>
  {
    if order == [] then []
    else (if order[0] in due && order[0] !in already then [order[0]] else []) + Outstanding(order[1..], due, already)
  }

  /** One consequence written down, with what it brings about. */
  function Apply(book: Book, managerId: int, cumulative: int, action: ThresholdAction): Book {
    Book(book.cases,
         book.ledger + [LedgerRow(managerId, action, cumulative)],
         if action == H2HTableDeduction then book.penalties + [Penalty(managerId, H2H_TABLE_DEDUCTION)] else book.penalties,
         if action == RemovedFromCompetition then book.removed + {managerId} else book.removed)
  }

  function ApplyAll(book: Book, managerId: int, cumulative: int, actions: seq<ThresholdAction>): (after: Book)
    ensures after.cases == book.cases
  {
    if actions == [] then book
    else Apply(ApplyAll(book, managerId, cumulative, actions[..|actions| - 1]), managerId, cumulative, actions[|actions| - 1])
  }

  function ApplyThresholds(book: Book, managerId: int): Book {
    var cumulative := ConfirmedTotal(book.cases, managerId);
    ApplyAll(book, managerId, cumulative,
             Outstanding(LEDGER_ORDER, DueActions(cumulative), LedgerOf(book.ledger, managerId)))
  }

  function EventOf(v: Violation): ViolationEvent {
    ViolationEvent(v.detectedCount, v.status, if v.status == Overridden then Some(v.confirmedCount) else None)
  }

  function WithOutcome(v: Violation, event: ViolationEvent): Violation {
    v.(status := event.status, confirmedCount := event.EffectiveConfirmedCount())
  }

  function Review(book: Book, key: CaseKey, action: ReviewAction, overriddenCount: Option<int>): Result<Book, ReviewError> {
    match FindCase(book.cases, key)
    case None => Err(CaseNotFound)
    case Some(i) =>
      match Transition(EventOf(book.cases[i]), action, overriddenCount)
      case Err(e) => Err(RuleBroken(e))
      case Ok(event) =>
        Ok(ApplyThresholds(book.(cases := book.cases[i := WithOutcome(book.cases[i], event)]), key.managerId))
  }

  // ----- What a threshold pass does to the ledger -----

  /** The ledger of a book is a set of actions per manager, and the penalty and the removal follow it. */
  ghost predicate SoundLedger(book: Book) {
    && (forall i, j :: 0 <= i < j < |book.ledger| ==>
          (book.ledger[i].managerId, book.ledger[i].action) != (book.ledger[j].managerId, book.ledger[j].action))
    && (forall m :: PenaltyTotal(book.penalties, m) ==
          if H2HTableDeduction in LedgerOf(book.ledger, m) then H2H_TABLE_DEDUCTION else 0)
    && (forall m :: m in book.removed <==> RemovedFromCompetition in LedgerOf(book.ledger, m))
  }

  lemma ApplyKeepsSound(book: Book, m: int, cumulative: int, action: ThresholdAction)
    requires SoundLedger(book) && action !in LedgerOf(book.ledger, m)
    ensures SoundLedger(Apply(book, m, cumulative, action))
    ensures forall x :: LedgerOf(Apply(book, m, cumulative, action).ledger, x) ==
                        LedgerOf(book.ledger, x) + if x == m then {action} else {}
  {
    var after := Apply(book, m, cumulative, action);
    var row := LedgerRow(m, action, cumulative);
    forall x ensures LedgerOf(after.ledger, x) == LedgerOf(book.ledger, x) + if x == m then {action} else {} {
      assert forall r :: r in after.ledger <==> r in book.ledger || r == row;
      assert x == m ==> row in after.ledger && row.action == action;
      forall a | a in LedgerOf(book.ledger, x) + (if x == m then {action} else {}) ensures a in LedgerOf(after.ledger, x) {
        if a in LedgerOf(book.ledger, x) {
          var r :| r in book.ledger && r.managerId == x && r.action == a;
          assert r in after.ledger;
        }
      }
    }
    forall i | 0 <= i < |book.ledger|
      ensures (after.ledger[i].managerId, after.ledger[i].action) != (m, action)
    {
      assert book.ledger[i] in book.ledger;
    }
    forall x ensures PenaltyTotal(after.penalties, x) ==
                     if H2HTableDeduction in LedgerOf(after.ledger, x) then H2H_TABLE_DEDUCTION else 0
    {
      SumConcat(book.penalties, [Penalty(m, H2H_TABLE_DEDUCTION)], PenaltyOf(x));
    }
  }

  lemma {:induction false} OutstandingIs(order: seq<ThresholdAction>, due: set<ThresholdAction>, already: set<ThresholdAction>)
    requires forall i, j :: 0 <= i < j < |order| ==> order[i] != order[j]
    ensures var out := Outstanding(order, due, already);
            && (forall a :: a in out <==> a in order && a in due && a !in already)
            && (forall i, j :: 0 <= i < j < |out| ==> out[i] != out[j])
  {
    if order != [] {
      OutstandingIs(order[1..], due, already);
      assert order == [order[0]] + order[1..];
    }
  }

  /** A sound book whose ledger has gained these actions of one manager and nothing else. */
  ghost predicate Gained(book: Book, after: Book, m: int, actions: set<ThresholdAction>) {
    && SoundLedger(after) && after.cases == book.cases
    && (forall x :: LedgerOf(after.ledger, x) == LedgerOf(book.ledger, x) + if x == m then actions else {})
  }

  lemma {:induction false} ApplyAllKeepsSound(book: Book, m: int, cumulative: int, actions: seq<ThresholdAction>)
    requires SoundLedger(book)
    requires forall i, j :: 0 <= i < j < |actions| ==> actions[i] != actions[j]
    requires forall a :: a in actions ==> a !in LedgerOf(book.ledger, m)
    ensures Gained(book, ApplyAll(book, m, cumulative, actions), m, set a | a in actions)
  {
    if actions != [] {
      var rest, last := actions[..|actions| - 1], actions[|actions| - 1];
      assert actions == rest + [last] && last !in rest;
      ApplyAllKeepsSound(book, m, cumulative, rest);
      assert (set a | a in actions) == (set a | a in rest) + {last};
      ApplyKeepsSound(ApplyAll(book, m, cumulative, rest), m, cumulative, last);
    }
  }

  /** A pass adds exactly what is due and not yet there, for this manager alone. */
  lemma ThresholdPassIs(book: Book, m: int)
    requires SoundLedger(book)
    ensures Gained(book, ApplyThresholds(book, m), m, DueActions(ConfirmedTotal(book.cases, m)))
  {
    var cumulative := ConfirmedTotal(book.cases, m);
    var out := Outstanding(LEDGER_ORDER, DueActions(cumulative), LedgerOf(book.ledger, m));
    OutstandingIs(LEDGER_ORDER, DueActions(cumulative), LedgerOf(book.ledger, m));
    ApplyAllKeepsSound(book, m, cumulative, out);
    assert LedgerOf(book.ledger, m) + (set a | a in out) == LedgerOf(book.ledger, m) + DueActions(cumulative);
  }

  lemma ReviewedCaseIsSound(cases: seq<Violation>, i: nat, action: ReviewAction, overriddenCount: Option<int>)
    requires SoundCases(cases) && i < |cases| && Transition(EventOf(cases[i]), action, overriddenCount).Ok?
    ensures SoundCases(cases[i := WithOutcome(cases[i], Transition(EventOf(cases[i]), action, overriddenCount).value)])
  {
    assert SoundCase(cases[i]);
  }

  lemma ReviewKeepsSoundCases(book: Book, key: CaseKey, action: ReviewAction, overriddenCount: Option<int>)
    requires SoundCases(book.cases) && Review(book, key, action, overriddenCount).Ok?
    ensures SoundCases(Review(book, key, action, overriddenCount).value.cases)
  {
    ReviewedCaseIsSound(book.cases, FindCase(book.cases, key).value, action, overriddenCount);
  }

  // ----- Runs -----

  datatype Event =
    | DetectionPass(history: seq<HistoryRow>, allowed: int)
    | ReviewCall(key: CaseKey, action: ReviewAction, overriddenCount: Option<int>)

  function After(book: Book, e: Event): Book {
    match e
    case DetectionPass(history, allowed) =>
      if exists h :: h in history && TransferHitCount(h.transferCost, allowed).Err? then book
      else book.(cases := DetectAll(book.cases, history, allowed))
    case ReviewCall(key, action, overriddenCount) =>
      match Review(book, key, action, overriddenCount)
      case Err(_) => book
      case Ok(reviewed) => reviewed
  }

  ghost function Run(cases: seq<Violation>, events: seq<Event>): Book {
    if events == [] then Book(cases, [], [], {})
    else After(Run(cases, events[..|events| - 1]), events[|events| - 1])
  }

  /** A review that the rules let through, of one of this manager's cases. */
  ghost predicate ReviewsManager(book: Book, e: Event, m: int) {
    e.ReviewCall? && e.key.managerId == m && Review(book, e.key, e.action, e.overriddenCount).Ok?
  }

  /** The highest cumulative count that any review of a manager's cases has reached. */
  ghost function Peak(cases: seq<Violation>, events: seq<Event>, m: int): nat {
    if events == [] then 0
    else
      var rest, last := events[..|events| - 1], events[|events| - 1];
      var reached := ConfirmedTotal(Run(cases, events).cases, m);
      if ReviewsManager(Run(cases, rest), last, m) && reached > Peak(cases, rest, m) then reached
      else Peak(cases, rest, m)
  }

  /** Before anything is reviewed: sound cases that nobody has decided yet. */
  ghost predicate Unreviewed(cases: seq<Violation>) {
    SoundCases(cases) && forall v :: v in cases ==> v.status == Detected
  }

  /**
   Over any run of detections and reviews a manager's ledger holds exactly the consequences due at
   the highest count a review ever reached, each once; the table penalty is -6 or 0 accordingly.
   */
  lemma {:induction false} LedgerIsDueAtPeak(cases: seq<Violation>, events: seq<Event>)
    requires Unreviewed(cases)
    ensures var book := Run(cases, events);
            && SoundCases(book.cases) && SoundLedger(book)
            && (forall m :: LedgerOf(book.ledger, m) == DueActions(Peak(cases, events, m)))
  {
    if events == [] {
      assert forall m :: LedgerOf([], m) == {} == DueActions(0);
    } else {
      var rest, last := events[..|events| - 1], events[|events| - 1];
      var before := Run(cases, rest);
      LedgerIsDueAtPeak(cases, rest);
      match last {
        case DetectionPass(history, allowed) =>
          DetectionKeepsSound(before.cases, history, allowed);
        case ReviewCall(key, action, overriddenCount) =>
          if Review(before, key, action, overriddenCount).Ok? {
            ReviewKeepsSoundCases(before, key, action, overriddenCount);
            ReviewReachesPeak(cases, rest, last);
          }
      }
    }
  }

  lemma ReviewReachesPeak(cases: seq<Violation>, rest: seq<Event>, last: Event)
    requires last.ReviewCall? && Review(Run(cases, rest), last.key, last.action, last.overriddenCount).Ok?
    requires SoundCases(Run(cases, rest).cases) && SoundLedger(Run(cases, rest))
    requires forall m :: LedgerOf(Run(cases, rest).ledger, m) == DueActions(Peak(cases, rest, m))
    ensures var book := Run(cases, rest + [last]);
            SoundLedger(book) && forall m :: LedgerOf(book.ledger, m) == DueActions(Peak(cases, rest + [last], m))
  {
    var before := Run(cases, rest);
    assert (rest + [last])[..|rest|] == rest;
    var i := FindCase(before.cases, last.key).value;
    var event := Transition(EventOf(before.cases[i]), last.action, last.overriddenCount).value;
    var reviewed := before.(cases := before.cases[i := WithOutcome(before.cases[i], event)]);
    ThresholdPassIs(reviewed, last.key.managerId);
    forall m ensures LedgerOf(Run(cases, rest + [last]).ledger, m) == DueActions(Peak(cases, rest + [last], m)) {}
  }

  /** Nothing is ever struck from the ledger, whatever is reviewed afterwards. */
  lemma LedgerOnlyGrows(cases: seq<Violation>, events: seq<Event>, e: Event)
    requires Unreviewed(cases)
    ensures forall m :: LedgerOf(Run(cases, events).ledger, m) <= LedgerOf(Run(cases, events + [e]).ledger, m)
  {
    assert (events + [e])[..|events|] == events;
    LedgerIsDueAtPeak(cases, events);
    LedgerIsDueAtPeak(cases, events + [e]);
    forall m ensures DueActions(Peak(cases, events, m)) <= DueActions(Peak(cases, events + [e], m)) {}
  }

  /** Between reviews of his cases a manager's cumulative count does not move. */
  lemma OnlyReviewsMoveTotals(cases: seq<Violation>, events: seq<Event>, e: Event, m: int)
    requires Unreviewed(cases) && !ReviewsManager(Run(cases, events), e, m)
    ensures ConfirmedTotal(Run(cases, events + [e]).cases, m) == ConfirmedTotal(Run(cases, events).cases, m)
  {
    assert (events + [e])[..|events|] == events;
    LedgerIsDueAtPeak(cases, events);
    var book := Run(cases, events);
    match e
    case DetectionPass(history, allowed) =>
      DetectionKeepsTotals(book.cases, history, allowed, m);
    case ReviewCall(key, action, overriddenCount) =>
      if Review(book, key, action, overriddenCount).Ok? {
        var i := FindCase(book.cases, key).value;
        var event := Transition(EventOf(book.cases[i]), action, overriddenCount).value;
        var v := WithOutcome(book.cases[i], event);
        TotalOfUpdate(book.cases, i, v, m);
      }
  }

  // ----- How often a stored case is reviewed -----

  /** The reviews a key can still see; one without a case may yet be detected. */
  function LeftOn(cases: seq<Violation>, key: CaseKey): nat {
    match CaseAt(cases, key) case None => ReviewsLeft(Detected) case Some(v) => ReviewsLeft(v.status)
  }

  /** The reviews of a key that the rules have let through. */
  ghost function Accepted(cases: seq<Violation>, events: seq<Event>, key: CaseKey): nat {
    if events == [] then 0
    else
      var rest, last := events[..|events| - 1], events[|events| - 1];
      Accepted(cases, rest, key) +
      if last.ReviewCall? && last.key == key && Review(Run(cases, rest), key, last.action, last.overriddenCount).Ok?
      then 1 else 0
  }

  lemma {:induction false} DetectionKeepsLeft(cases: seq<Violation>, history: seq<HistoryRow>, allowed: int, key: CaseKey)
    requires UniqueCases(cases)
    ensures UniqueCases(DetectAll(cases, history, allowed))
    ensures LeftOn(DetectAll(cases, history, allowed), key) == LeftOn(cases, key)
  {
    if history != [] {
      var rest := history[..|history| - 1];
      DetectionKeepsLeft(cases, rest, allowed, key);
      DetectOneAt(DetectAll(cases, rest, allowed), history[|history| - 1], allowed, key);
    }
  }

  lemma ReviewUsesOneUp(book: Book, e: Event, key: CaseKey)
    requires UniqueCases(book.cases)
    requires e.ReviewCall? && Review(book, e.key, e.action, e.overriddenCount).Ok?
    ensures LeftOn(After(book, e).cases, key) + (if e.key == key then 1 else 0) <= LeftOn(book.cases, key)
  {
    var i := FindCase(book.cases, e.key).value;
    var event := Transition(EventOf(book.cases[i]), e.action, e.overriddenCount).value;
    UpdateAt(book.cases, i, WithOutcome(book.cases[i], event), key);
  }

  /**
   However detections and reviews alternate, also where a case is cleared and raised again: the
   accepted reviews of a key and those its case can still see are together at most three.
   */
  lemma {:induction false} StoredReviewsAreBounded(cases: seq<Violation>, events: seq<Event>, key: CaseKey)
    requires Unreviewed(cases)
    ensures Accepted(cases, events, key) + LeftOn(Run(cases, events).cases, key) <= 3
  {
    if events != [] {
      var rest, last := events[..|events| - 1], events[|events| - 1];
      var before := Run(cases, rest);
      StoredReviewsAreBounded(cases, rest, key);
      LedgerIsDueAtPeak(cases, rest);
      match last
      case DetectionPass(history, allowed) => DetectionKeepsLeft(before.cases, history, allowed, key);
      case ReviewCall(_, _, _) =>
        if Review(before, last.key, last.action, last.overriddenCount).Ok? {
          ReviewUsesOneUp(before, last, key);
        }
    }
  }
}
