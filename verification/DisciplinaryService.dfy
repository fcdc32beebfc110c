/** The tables of the disciplinary process, updated in place by detection passes and reviews. */
module DisciplinaryService {
  import opened Wrappers
  import opened Disciplinary

  datatype DetectionResult = DetectionResult(raised: nat, updated: nat, cleared: nat, scanned: nat)

  /** What a pass notes down: the cases it adds, corrects and removes, row by row. */
  function Noted(cases: seq<Violation>, history: seq<HistoryRow>, allowed: int): DetectionResult {
    if history == [] then DetectionResult(0, 0, 0, 0)
    else
      var rest, h := history[..|history| - 1], history[|history| - 1];
      var before := Noted(cases, rest, allowed).(scanned := |history|);
      var count, at := HitCount(h, allowed), CaseAt(DetectAll(cases, rest, allowed), KeyOf(h));
      if at.None? then if count > 0 then before.(raised := before.raised + 1) else before
      else if at.value.status != Detected then before
      else if count == 0 then before.(cleared := before.cleared + 1)
      else if at.value.detectedCount != count then before.(updated := before.updated + 1)
      else before
  }

  /** The counts account for the table's size, and a pass with nothing to note has changed nothing. */
  lemma {:induction false} NotedAddsUp(cases: seq<Violation>, history: seq<HistoryRow>, allowed: int)
    ensures var n, rows := Noted(cases, history, allowed), DetectAll(cases, history, allowed);
            && |rows| == |cases| + n.raised - n.cleared && n.scanned == |history|
            && (n.raised == n.updated == n.cleared == 0 ==> rows == cases)
  {
    if history != [] {
      NotedAddsUp(cases, history[..|history| - 1], allowed);
    }
  }

  datatype AppliedActions = AppliedActions(cumulative: int, applied: seq<ThresholdAction>, deducted: int, removed: bool)

  class Disciplinarian {
    var cases: seq<Violation>
    var ledger: seq<LedgerRow>
    var penalties: seq<Penalty>
    var removed: set<int>

    function Current(): Book
      reads this
    {
      Book(cases, ledger, penalties, removed)
    }

    ghost predicate Valid()
      reads this
    {
      SoundCases(cases) && SoundLedger(Current())
    }

    constructor (cases: seq<Violation>)
      requires SoundCases(cases)
      ensures Valid() && Current() == Book(cases, [], [], {})
    {
      this.cases, ledger, penalties, removed := cases, [], [], {};
    }

    /** Raise, correct or clear the case of every history row; one bad cost rolls the whole pass back. */
    method DetectTransferViolations(history: seq<HistoryRow>, allowed: int)
      returns (result: Result<DetectionResult, RuleError>)
      requires Valid() && UniqueHistory(history)
      modifies this`cases
      ensures Valid()
      ensures Current() == After(old(Current()), DetectionPass(history, allowed))
      ensures result.Err? <==> exists h :: h in history && TransferHitCount(h.transferCost, allowed).Err?
      ensures result.Ok? ==>
                && result.value == Noted(old(cases), history, allowed)
                && result.value.scanned == |history|
                && |cases| == |old(cases)| + result.value.raised - result.value.cleared
                && (result.value == DetectionResult(0, 0, 0, |history|) ==> cases == old(cases))
    {
      var rows := cases;
      var raised, updated, cleared := 0, 0, 0;
      for i := 0 to |history|
        invariant rows == DetectAll(cases, history[..i], allowed)
        invariant forall j :: 0 <= j < i ==> TransferHitCount(history[j].transferCost, allowed).Ok?
        invariant Noted(cases, history[..i], allowed) == DetectionResult(raised, updated, cleared, i)
      {
        var h := history[i];
        assert history[..i + 1][..i] == history[..i];
        var counted := TransferHitCount(h.transferCost, allowed);
        if counted.Err? {
          assert h in history;
          return Err(counted.error);
        }
        var count := counted.value;
        var at := FindCase(rows, KeyOf(h));
        if at.None? {
          if count > 0 {
            rows := rows + [Violation(KeyOf(h), count, 0, Detected)];
            raised := raised + 1;
          }
        } else if rows[at.value].status == Detected {
          if count == 0 {
            rows := rows[..at.value] + rows[at.value + 1..];
            cleared := cleared + 1;
          } else if rows[at.value].detectedCount != count {
            rows := rows[at.value := rows[at.value].(detectedCount := count)];
            updated := updated + 1;
          }
        }
      }
      assert history[..|history|] == history;
      DetectionKeepsSound(cases, history, allowed);
      NotedAddsUp(cases, history, allowed);
      cases := rows;
      result := Ok(DetectionResult(raised, updated, cleared, |history|));
    }

    method ConfirmedViolationCount(managerId: int) returns (total: int)
      ensures total == ConfirmedTotal(cases, managerId)
    {
      total := 0;
      for i := 0 to |cases|
        invariant total + ConfirmedTotal(cases[i..], managerId) == ConfirmedTotal(cases, managerId)
      {
        assert cases[i..][1..] == cases[i + 1..];
        if cases[i].key.managerId == managerId {
          total := total + cases[i].confirmedCount;
        }
      }
    }

    /** The rows of some consequences, in ledger order. */
    method WriteDown(managerId: int, cumulative: int, outstanding: seq<ThresholdAction>)
      returns (deducted: int, gone: bool)
      modifies this`ledger, this`penalties, this`removed
      ensures Current() == ApplyAll(old(Current()), managerId, cumulative, outstanding)
      ensures deducted == if H2HTableDeduction in outstanding then H2H_TABLE_DEDUCTION else 0
      ensures gone <==> RemovedFromCompetition in outstanding
    {
      ghost var before := Current();
      deducted, gone := 0, false;
      for i := 0 to |outstanding|
        invariant Current() == ApplyAll(before, managerId, cumulative, outstanding[..i])
        invariant deducted == if H2HTableDeduction in outstanding[..i] then H2H_TABLE_DEDUCTION else 0
        invariant gone <==> RemovedFromCompetition in outstanding[..i]
      {
        var action := outstanding[i];
        assert outstanding[..i + 1] == outstanding[..i] + [action];
        ledger := ledger + [LedgerRow(managerId, action, cumulative)];
        if action == H2HTableDeduction {
          penalties := penalties + [Penalty(managerId, H2H_TABLE_DEDUCTION)];
          deducted := H2H_TABLE_DEDUCTION;
        } else if action == RemovedFromCompetition {
          removed := removed + {managerId};
          gone := true;
        }
      }
      assert outstanding[..|outstanding|] == outstanding;
    }

    /** Write down every consequence that has become due and is not recorded yet. */
    method ApplyThresholdActions(managerId: int) returns (result: AppliedActions)
      requires Valid()
      modifies this`ledger, this`penalties, this`removed
      ensures Valid()
      ensures Current() == ApplyThresholds(old(Current()), managerId)
      ensures result.cumulative == ConfirmedTotal(cases, managerId) >= 0
      ensures forall a :: a in result.applied <==>
                a in DueActions(result.cumulative) && a !in LedgerOf(old(ledger), managerId)
      ensures result.deducted == if H2HTableDeduction in result.applied then H2H_TABLE_DEDUCTION else 0
      ensures result.removed <==> RemovedFromCompetition in result.applied
    {
      var cumulative := ConfirmedViolationCount(managerId);
      TotalIsNonNegative(cases, managerId);
      var due, already := DueActions(cumulative), LedgerOf(ledger, managerId);
      var outstanding := Outstanding(LEDGER_ORDER, due, already);
      OutstandingIs(LEDGER_ORDER, due, already);
      ThresholdPassIs(Current(), managerId);
      var deducted, gone := WriteDown(managerId, cumulative, outstanding);
      result := AppliedActions(cumulative, outstanding, deducted, gone);
    }

    /** One administrator decision: the transition, the recount and the ledger pass. */
    method ReviewViolation(key: CaseKey, action: ReviewAction, overriddenCount: Option<int>)
      returns (result: Result<AppliedActions, ReviewError>)
      requires Valid()
      modifies this
      ensures Valid()
      ensures match Review(old(Current()), key, action, overriddenCount)
              case Err(e) => result == Err(e)
              case Ok(_) =>
                && result.Ok? && result.value.cumulative == ConfirmedTotal(cases, key.managerId)
                && (forall a :: a in result.value.applied <==>
                      a in DueActions(result.value.cumulative) && a !in LedgerOf(old(ledger), key.managerId))
                && result.value.deducted == (if H2HTableDeduction in result.value.applied then H2H_TABLE_DEDUCTION else 0)
                && (result.value.removed <==> RemovedFromCompetition in result.value.applied)
      ensures Current() == After(old(Current()), ReviewCall(key, action, overriddenCount))
    {
      var at := FindCase(cases, key);
      if at.None? {
        return Err(CaseNotFound);
      }
      var violation := cases[at.value];
      var event := Transition(EventOf(violation), action, overriddenCount);
      if event.Err? {
        return Err(RuleBroken(event.error));
      }
      ReviewedCaseIsSound(cases, at.value, action, overriddenCount);
      cases := cases[at.value := WithOutcome(violation, event.value)];
      var applied := ApplyThresholdActions(key.managerId);
      result := Ok(applied);
    }
  }
}
