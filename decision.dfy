/** The decision engine behind an approver's approve or reject: the guards, then a
    fixed precedence — a rejection ends the expense, the rule's specific approver
    approves it outright, a met percentage threshold approves it, and otherwise the
    expense moves to the next pending step or, when none is left, is approved. */
module DecisionEngine {
  import opened Common
  import opened Store

  datatype Action = Approve | Reject

  /** The two accepted actions. */
  function ParseAction(s: string): (r: Option<Action>)
    ensures r.Some? <==> s == "approve" || s == "reject"
    ensures r == Some(Reject) <==> s == "reject"
  {
    if s == "approve" then Some(Approve)
    else if s == "reject" then Some(Reject)
    else None
  }

  datatype DecisionError =
    | InvalidAction    // 400 "Invalid action. Must be approve or reject"
    | ExpenseNotFound  // 404 "Expense not found or already processed"
    | NotAuthorized    // 403 "You are not authorized to approve this expense ..."

  /** What a successful decision did to the expense. */
  datatype Outcome =
    | RejectedOutright
    | ApprovedBySpecificApprover
    | ApprovedByThreshold
    | MovedToStep(step: int)
    | ApprovedAtEnd

  /** A successful decision: the ledger record acted on, the action, the outcome. */
  datatype Decision = Decision(record: nat, action: Action, outcome: Outcome)

  /** The expense exists and is still pending. */
  predicate PendingExpense(expenses: seq<Expense>, expenseId: int)
  {
    1 <= expenseId <= |expenses| && expenses[expenseId - 1].status == Pending
  }

  /** A ledger record this approver may still act on for this expense. */
  predicate AwaitsApprover(a: ApprovalRecord, expenseId: int, approverId: int)
  {
    a.expenseId == expenseId && a.approverId == approverId && a.status == Pending
  }

  /** The first ledger record the approver may still act on for the expense. */
  function FindPendingRecord(approvals: seq<ApprovalRecord>, expenseId: int, approverId: int): (r: Option<nat>)
    ensures r.None? <==> forall i :: 0 <= i < |approvals| ==> !AwaitsApprover(approvals[i], expenseId, approverId)
    ensures r.Some? ==> && r.value < |approvals|
                        && AwaitsApprover(approvals[r.value], expenseId, approverId)
                        && forall i :: 0 <= i < r.value ==> !AwaitsApprover(approvals[i], expenseId, approverId)
    decreases |approvals|
  {
    if approvals == [] then None
    else if AwaitsApprover(approvals[0], expenseId, approverId) then Some(0)
    else match FindPendingRecord(approvals[1..], expenseId, approverId)
      case None => None
      case Some(k) => Some(k + 1)
  }

  /** The acting record after the decision: its status, the comments (possibly
      null) and the decision time. */
  function Recorded(a: ApprovalRecord, action: Action, comments: Option<string>, now: int): ApprovalRecord
  {
    a.(status := if action == Approve then Approved else Rejected, comments := comments, approvedAt := Some(now))
  }

  /** `COUNT(*)` of the expense's records. */
  function CountRecords(approvals: seq<ApprovalRecord>, expenseId: int): nat
  {
    if approvals == [] then 0
    else
      var last := approvals[|approvals| - 1];
      CountRecords(approvals[..|approvals| - 1], expenseId) + (if last.expenseId == expenseId then 1 else 0)
  }

  /** The count is the number of the expense's records. */
  lemma {:induction false} CountRecordsCountsRecordsOf(approvals: seq<ApprovalRecord>, expenseId: int)
    ensures CountRecords(approvals, expenseId) == |RecordsOf(approvals, expenseId)|
  {
    if approvals != [] {
      CountRecordsCountsRecordsOf(approvals[..|approvals| - 1], expenseId);
    }
  }

  /** The number of the expense's records that are approved. */
  function CountApproved(approvals: seq<ApprovalRecord>, expenseId: int): (n: nat)
    ensures n <= CountRecords(approvals, expenseId)
  {
    if approvals == [] then 0
    else
      var last := approvals[|approvals| - 1];
      CountApproved(approvals[..|approvals| - 1], expenseId)
        + (if last.expenseId == expenseId && last.status == Approved then 1 else 0)
  }

  /** The percentage test `approved / total * 100 >= threshold`, exact: with no
      record the quotient is not a number and the test fails; a null threshold
      compares as 0. */
  predicate ThresholdMet(approved: int, total: int, threshold: Option<int>)
  {
    total > 0 && approved * 100 >= (if threshold.Some? then threshold.value else 0) * total
  }

  /** A pending record of the expense at a later step than `after`. */
  predicate PendingAfter(a: ApprovalRecord, expenseId: int, after: int)
  {
    a.expenseId == expenseId && a.status == Pending && a.stepOrder > after
  }

  /** The smallest step order among the expense's pending records after `after`. */
  function NextPending(approvals: seq<ApprovalRecord>, expenseId: int, after: int): (r: Option<int>)
    ensures r.None? <==> forall i :: 0 <= i < |approvals| ==> !PendingAfter(approvals[i], expenseId, after)
    ensures r.Some? ==> exists i :: 0 <= i < |approvals| && PendingAfter(approvals[i], expenseId, after)
                                                          && approvals[i].stepOrder == r.value
    ensures r.Some? ==> forall i :: 0 <= i < |approvals| && PendingAfter(approvals[i], expenseId, after) ==>
                                      r.value <= approvals[i].stepOrder
  {
    if approvals == [] then None
    else
      var n := |approvals| - 1;
      var rest := NextPending(approvals[..n], expenseId, after);
      var a := approvals[n];
      if !PendingAfter(a, expenseId, after) then rest
      else if rest.None? || a.stepOrder < rest.value then Some(a.stepOrder)
      else rest
  }

  /** The rule names this approver as the one whose approval suffices. */
  predicate SpecificApproverFires(rule: Option<Rule>, approverId: int)
  {
    rule.Some? && UsesSpecificApprover(rule.value.ruleType) && rule.value.specificApproverId == Some(approverId)
  }

  /** The rule approves on a share of approvals, and `approved` of `total` records
      reach it. */
  predicate ThresholdFires(rule: Option<Rule>, approved: int, total: int)
  {
    rule.Some? && UsesThreshold(rule.value.ruleType) && ThresholdMet(approved, total, rule.value.percentageThreshold)
  }

  /** The sequential fallback: the next pending step after the acting one, or the
      end of the chain. */
  function Advance(next: Option<int>): Outcome
  {
    match next
    case Some(s) => MovedToStep(s)
    case None => ApprovedAtEnd
  }

  /** The outcome of an approval, given the expense's rule (looked up by id alone),
      the ledger with the acting record already approved, and the acting record's
      step order. */
  function ApprovalOutcome(
    rule: Option<Rule>, approverId: int, ledger: seq<ApprovalRecord>, expenseId: int, actingStep: int): Outcome
  {
    if SpecificApproverFires(rule, approverId) then ApprovedBySpecificApprover
    else if ThresholdFires(rule, CountApproved(ledger, expenseId), CountRecords(ledger, expenseId)) then
      ApprovedByThreshold
    else Advance(NextPending(ledger, expenseId, actingStep))
  }

  /** The rule stored on the expense, fetched by id with no company or active
      filter. */
  function StoredRule(rules: seq<Rule>, expense: Expense): Option<Rule>
  {
    if expense.approvalRuleId.Some? then RowById(rules, expense.approvalRuleId.value) else None
  }

  /** An approver's decision on an expense: the guards in the source's order, then
      the outcome. */
  function Decide(
    expenses: seq<Expense>, approvals: seq<ApprovalRecord>, rules: seq<Rule>,
    expenseId: int, approverId: int, actionText: string, comments: Option<string>, now: int)
    : (r: Result<Decision, DecisionError>)
    ensures r == Err(InvalidAction) <==> ParseAction(actionText).None?
    ensures r == Err(ExpenseNotFound) <==>
              ParseAction(actionText).Some? && !PendingExpense(expenses, expenseId)
    ensures r == Err(NotAuthorized) <==>
              && ParseAction(actionText).Some? && PendingExpense(expenses, expenseId)
              && forall i :: 0 <= i < |approvals| ==> !AwaitsApprover(approvals[i], expenseId, approverId)
    ensures r.Ok? ==> && Some(r.value.action) == ParseAction(actionText)
                      && r.value.record < |approvals|
                      && AwaitsApprover(approvals[r.value.record], expenseId, approverId)
                      && (r.value.outcome == RejectedOutright <==> r.value.action == Reject)
  {
    match ParseAction(actionText)
    case None => Err(InvalidAction)
    case Some(action) =>
      if !PendingExpense(expenses, expenseId) then Err(ExpenseNotFound)
      else match FindPendingRecord(approvals, expenseId, approverId)
        case None => Err(NotAuthorized)
        case Some(i) =>
          if action == Reject then Ok(Decision(i, Reject, RejectedOutright))
          else
            var ledger := approvals[i := Recorded(approvals[i], Approve, comments, now)];
            var rule := StoredRule(rules, expenses[expenseId - 1]);
            Ok(Decision(i, Approve, ApprovalOutcome(rule, approverId, ledger, expenseId, approvals[i].stepOrder)))
  }

  /** The ledger after a decision: only the acting record changes. */
  function LedgerAfter(approvals: seq<ApprovalRecord>, d: Decision, comments: Option<string>, now: int): seq<ApprovalRecord>
    requires d.record < |approvals|
  {
    approvals[d.record := Recorded(approvals[d.record], d.action, comments, now)]
  }

  /** The expense row after a decision. */
  function ExpenseAfter(e: Expense, outcome: Outcome): (e': Expense)
    ensures e'.status == (match outcome
                          case RejectedOutright => Rejected
                          case MovedToStep(_) => e.status
                          case _ => Approved)
    ensures outcome.MovedToStep? ==> e'.currentStep == Some(outcome.step)
    ensures !outcome.MovedToStep? ==> e'.currentStep == e.currentStep
    ensures e' == e.(status := e'.status, currentStep := e'.currentStep)
  {
    match outcome
    case RejectedOutright => e.(status := Rejected)
    case MovedToStep(s) => e.(currentStep := Some(s))
    case _ => e.(status := Approved)
  }

  // ---------------------------------------------------------------------------
  // Properties of a decision

  /** Approving a pending record adds exactly one approval to its expense's count;
      the number of records does not change.  The threshold test therefore counts
      the approval being made. */
  lemma {:induction false} ApprovalCountsActingRecord(
    approvals: seq<ApprovalRecord>, i: int, comments: Option<string>, now: int, e: int)
    requires 0 <= i < |approvals| && approvals[i].status == Pending
    ensures var ledger := approvals[i := Recorded(approvals[i], Approve, comments, now)];
            && CountApproved(ledger, e) == CountApproved(approvals, e) + (if approvals[i].expenseId == e then 1 else 0)
            && CountRecords(ledger, e) == CountRecords(approvals, e)
  {
    var ledger := approvals[i := Recorded(approvals[i], Approve, comments, now)];
    var n := |approvals| - 1;
    if i == n {
      assert ledger[..n] == approvals[..n];
      assert ledger[n].status == Approved && ledger[n].expenseId == approvals[n].expenseId;
    } else {
      ApprovalCountsActingRecord(approvals[..n], i, comments, now, e);
      assert ledger[..n] == approvals[..n][i := Recorded(approvals[i], Approve, comments, now)];
      assert ledger[n] == approvals[n];
    }
    assert CountApproved(ledger, e)
           == CountApproved(ledger[..n], e) + (if ledger[n].expenseId == e && ledger[n].status == Approved then 1 else 0);
    assert CountRecords(ledger, e) == CountRecords(ledger[..n], e) + (if ledger[n].expenseId == e then 1 else 0);
  }

  /** A rejection ends the expense whatever its rule and however many records are
      still pending. */
  lemma RejectionIsFinal(
    expenses: seq<Expense>, approvals: seq<ApprovalRecord>, rules: seq<Rule>,
    expenseId: int, approverId: int, comments: Option<string>, now: int)
    requires PendingExpense(expenses, expenseId)
    requires exists i :: 0 <= i < |approvals| && AwaitsApprover(approvals[i], expenseId, approverId)
    ensures var r := Decide(expenses, approvals, rules, expenseId, approverId, "reject", comments, now);
            && r.Ok? && r.value.outcome == RejectedOutright
            && ExpenseAfter(expenses[expenseId - 1], r.value.outcome).status == Rejected
            && LedgerAfter(approvals, r.value, comments, now)[r.value.record].status == Rejected
  {
  }

  /** The specific approver of a specific-approver or hybrid rule approves the
      expense at once, before any threshold or step is looked at. */
  lemma SpecificApproverOverrides(
    expenses: seq<Expense>, approvals: seq<ApprovalRecord>, rules: seq<Rule>,
    expenseId: int, approverId: int, comments: Option<string>, now: int)
    requires PendingExpense(expenses, expenseId)
    requires exists i :: 0 <= i < |approvals| && AwaitsApprover(approvals[i], expenseId, approverId)
    requires var rule := StoredRule(rules, expenses[expenseId - 1]);
             rule.Some? && UsesSpecificApprover(rule.value.ruleType) && rule.value.specificApproverId == Some(approverId)
    ensures var r := Decide(expenses, approvals, rules, expenseId, approverId, "approve", comments, now);
            r.Ok? && r.value.outcome == ApprovedBySpecificApprover
  {
  }

  /** A threshold approval happens exactly when the approvals recorded so far plus
      the one being made reach the threshold share of all the expense's records. */
  lemma ThresholdUsesCountIncludingActor(
    expenses: seq<Expense>, approvals: seq<ApprovalRecord>, rules: seq<Rule>,
    expenseId: int, approverId: int, comments: Option<string>, now: int)
    requires PendingExpense(expenses, expenseId)
    requires var rule := StoredRule(rules, expenses[expenseId - 1]);
             && rule.Some? && UsesThreshold(rule.value.ruleType)
             && !(UsesSpecificApprover(rule.value.ruleType) && rule.value.specificApproverId == Some(approverId))
    ensures var r := Decide(expenses, approvals, rules, expenseId, approverId, "approve", comments, now);
            var rule := StoredRule(rules, expenses[expenseId - 1]);
            r.Ok? ==>
              (r.value.outcome == ApprovedByThreshold <==>
                 ThresholdMet(CountApproved(approvals, expenseId) + 1, CountRecords(approvals, expenseId),
                              rule.value.percentageThreshold))
  {
    ApprovalPrecedence(expenses, approvals, rules, expenseId, approverId, comments, now);
  }

  /** The precedence of an approval, for every input: the specific approver's
      override fires exactly when the stored rule names the acting approver; the
      threshold fires exactly when the override does not and the approvals so far,
      plus the one being made, reach the threshold; and otherwise the expense moves
      to the next pending step after the acting one or, with none, is approved. */
  lemma ApprovalPrecedence(
    expenses: seq<Expense>, approvals: seq<ApprovalRecord>, rules: seq<Rule>,
    expenseId: int, approverId: int, comments: Option<string>, now: int)
    ensures var r := Decide(expenses, approvals, rules, expenseId, approverId, "approve", comments, now);
            r.Ok? ==>
              var rule := StoredRule(rules, expenses[expenseId - 1]);
              var acting := approvals[r.value.record].stepOrder;
              var specific := SpecificApproverFires(rule, approverId);
              var threshold := ThresholdFires(rule, CountApproved(approvals, expenseId) + 1, CountRecords(approvals, expenseId));
              && (r.value.outcome == ApprovedBySpecificApprover <==> specific)
              && (r.value.outcome == ApprovedByThreshold <==> !specific && threshold)
              && (!specific && !threshold ==>
                    r.value.outcome == Advance(NextPending(LedgerAfter(approvals, r.value, comments, now), expenseId, acting)))
  {
    var r := Decide(expenses, approvals, rules, expenseId, approverId, "approve", comments, now);
    if r.Ok? {
      var i := r.value.record;
      var ledger := approvals[i := Recorded(approvals[i], Approve, comments, now)];
      var rule := StoredRule(rules, expenses[expenseId - 1]);
      assert ParseAction("approve") == Some(Approve);
      assert FindPendingRecord(approvals, expenseId, approverId) == Some(i);
      assert r.value.outcome == ApprovalOutcome(rule, approverId, ledger, expenseId, approvals[i].stepOrder);
      ApprovalCountsActingRecord(approvals, i, comments, now, expenseId);
      assert ThresholdFires(rule, CountApproved(ledger, expenseId), CountRecords(ledger, expenseId))
             == ThresholdFires(rule, CountApproved(approvals, expenseId) + 1, CountRecords(approvals, expenseId));
    }
  }

  /** When an approval neither finishes by override nor by threshold, the expense
      moves to the smallest later step that is still pending, and stays pending; if
      no later step is pending it is approved.  Nothing compares the acting
      record's step with the expense's current step. */
  lemma SequentialAdvance(
    expenses: seq<Expense>, approvals: seq<ApprovalRecord>, rules: seq<Rule>,
    expenseId: int, approverId: int, comments: Option<string>, now: int)
    ensures var r := Decide(expenses, approvals, rules, expenseId, approverId, "approve", comments, now);
            r.Ok? && r.value.outcome.MovedToStep? ==>
              var ledger, acting := LedgerAfter(approvals, r.value, comments, now), approvals[r.value.record].stepOrder;
              && (exists i :: 0 <= i < |ledger| && PendingAfter(ledger[i], expenseId, acting)
                                                && ledger[i].stepOrder == r.value.outcome.step)
              && (forall i :: 0 <= i < |ledger| && PendingAfter(ledger[i], expenseId, acting) ==>
                                r.value.outcome.step <= ledger[i].stepOrder)
              && ExpenseAfter(expenses[expenseId - 1], r.value.outcome).status == Pending
    ensures var r := Decide(expenses, approvals, rules, expenseId, approverId, "approve", comments, now);
            r.Ok? && r.value.outcome == ApprovedAtEnd ==>
              var ledger, acting := LedgerAfter(approvals, r.value, comments, now), approvals[r.value.record].stepOrder;
              forall i :: 0 <= i < |ledger| ==> !PendingAfter(ledger[i], expenseId, acting)
  {
    var r := Decide(expenses, approvals, rules, expenseId, approverId, "approve", comments, now);
    if r.Ok? {
      var ledger := LedgerAfter(approvals, r.value, comments, now);
      assert ParseAction("approve") == Some(Approve);
      assert FindPendingRecord(approvals, expenseId, approverId) == Some(r.value.record);
      assert r.value.outcome == ApprovalOutcome(StoredRule(rules, expenses[expenseId - 1]), approverId, ledger,
                                                expenseId, approvals[r.value.record].stepOrder);
    }
  }

  /** Once a decision approves or rejects an expense, no later decision on it gets
      past the 404 guard. */
  lemma DecidedExpenseIsClosed(
    expenses: seq<Expense>, approvals: seq<ApprovalRecord>, rules: seq<Rule>,
    expenseId: int, approverId: int, actionText: string, comments: Option<string>, now: int,
    approverId': int, actionText': string, comments': Option<string>, now': int)
    requires var r := Decide(expenses, approvals, rules, expenseId, approverId, actionText, comments, now);
             r.Ok? && !r.value.outcome.MovedToStep?
    requires ParseAction(actionText').Some?
    ensures var d := Decide(expenses, approvals, rules, expenseId, approverId, actionText, comments, now).value;
            var expenses' := expenses[expenseId - 1 := ExpenseAfter(expenses[expenseId - 1], d.outcome)];
            Decide(expenses', LedgerAfter(approvals, d, comments, now), rules,
                   expenseId, approverId', actionText', comments', now') == Err(ExpenseNotFound)
  {
    var d := Decide(expenses, approvals, rules, expenseId, approverId, actionText, comments, now).value;
    var e' := ExpenseAfter(expenses[expenseId - 1], d.outcome);
    assert e'.status != Pending;
    assert !PendingExpense(expenses[expenseId - 1 := e'], expenseId);
  }

  /** In a well-formed ledger, a record's step order is one of its expense's step
      numbers. */
  lemma StepOrderWithinRecords(approvals: seq<ApprovalRecord>, i: int)
    requires forall e :: RecordsNumbered(RecordsOf(approvals, e))
    requires 0 <= i < |approvals|
    ensures 1 <= approvals[i].stepOrder <= |RecordsOf(approvals, approvals[i].expenseId)|
  {
    var e := approvals[i].expenseId;
    WhereKeepsRow(approvals, (a: ApprovalRecord) => a.expenseId == e, i);
    var k :| 0 <= k < |RecordsOf(approvals, e)| && RecordsOf(approvals, e)[k] == approvals[i];
    assert RecordsNumbered(RecordsOf(approvals, e));
  }

  /** The step an approval moves the expense to is the step order of one of its
      records, so it lies within the expense's record count. */
  lemma NextStepWithinRecords(
    expenses: seq<Expense>, approvals: seq<ApprovalRecord>, rules: seq<Rule>,
    expenseId: int, approverId: int, actionText: string, comments: Option<string>, now: int)
    requires forall e :: RecordsNumbered(RecordsOf(approvals, e))
    requires Decide(expenses, approvals, rules, expenseId, approverId, actionText, comments, now).Ok?
    requires Decide(expenses, approvals, rules, expenseId, approverId, actionText, comments, now).value.outcome.MovedToStep?
    ensures var d := Decide(expenses, approvals, rules, expenseId, approverId, actionText, comments, now).value;
            1 <= d.outcome.step <= |RecordsOf(approvals, expenseId)|
  {
    var d := Decide(expenses, approvals, rules, expenseId, approverId, actionText, comments, now).value;
    var ledger := LedgerAfter(approvals, d, comments, now);
    var acting := approvals[d.record].stepOrder;
    assert ParseAction(actionText) == Some(Approve);
    assert FindPendingRecord(approvals, expenseId, approverId) == Some(d.record);
    assert d.outcome == ApprovalOutcome(StoredRule(rules, expenses[expenseId - 1]), approverId, ledger, expenseId, acting);
    assert NextPending(ledger, expenseId, acting) == Some(d.outcome.step);
    var i :| 0 <= i < |ledger| && PendingAfter(ledger[i], expenseId, acting) && ledger[i].stepOrder == d.outcome.step;
    assert approvals[i].expenseId == expenseId && approvals[i].stepOrder == d.outcome.step;
    StepOrderWithinRecords(approvals, i);
  }

  /** A decision keeps the ledger well formed: records only change status, and a
      new current step always names one of the expense's records. */
  lemma DecisionKeepsLedgerWellFormed(
    expenses: seq<Expense>, approvals: seq<ApprovalRecord>, rules: seq<Rule>,
    expenseId: int, approverId: int, actionText: string, comments: Option<string>, now: int)
    requires LedgerWellFormed(expenses, approvals)
    requires Decide(expenses, approvals, rules, expenseId, approverId, actionText, comments, now).Ok?
    ensures var d := Decide(expenses, approvals, rules, expenseId, approverId, actionText, comments, now).value;
            LedgerWellFormed(expenses[expenseId - 1 := ExpenseAfter(expenses[expenseId - 1], d.outcome)],
                             LedgerAfter(approvals, d, comments, now))
  {
    var d := Decide(expenses, approvals, rules, expenseId, approverId, actionText, comments, now).value;
    var ledger := LedgerAfter(approvals, d, comments, now);
    var e := expenses[expenseId - 1];
    var e' := ExpenseAfter(e, d.outcome);
    assert SameShape(approvals, ledger);
    if d.outcome.MovedToStep? {
      NextStepWithinRecords(expenses, approvals, rules, expenseId, approverId, actionText, comments, now);
    }
    assert e'.currentStep == e.currentStep
           || (e'.currentStep.Some? && 1 <= e'.currentStep.value <= |RecordsOf(approvals, expenseId)|);
    LedgerShapeKeepsWellFormed(expenses, approvals, expenses[expenseId - 1 := e'], ledger);
  }

  // ---------------------------------------------------------------------------
  // Behaviours of the source worth spelling out on small ledgers

  /** A pending expense of company 1 by employee 1, following rule `ruleId`. */
  function SampleExpense(ruleId: Option<int>, currentStep: int): Expense
  {
    Expense(1, 1, ruleId, "100", "USD", "100", "travel", "", "2024-01-01", None, Pending, Some(currentStep))
  }

  /** A pending ledger record of expense 1. */
  function SampleRecord(approverId: int, stepOrder: int): ApprovalRecord
  {
    ApprovalRecord(1, approverId, stepOrder, Pending, None, None)
  }

  /** The approver of step 2 may act while the expense is at step 1: the expense
      jumps to step 3, and step 1 is still pending. */
  lemma OutOfTurnApprovalSkipsAhead(comments: Option<string>, now: int)
    ensures var expenses := [SampleExpense(None, 1)];
            var approvals := [SampleRecord(10, 1), SampleRecord(20, 2), SampleRecord(30, 3)];
            var r := Decide(expenses, approvals, [], 1, 20, "approve", comments, now);
            && r == Ok(Decision(1, Approve, MovedToStep(3)))
            && LedgerAfter(approvals, r.value, comments, now)[0].status == Pending
  {
    var approvals := [SampleRecord(10, 1), SampleRecord(20, 2), SampleRecord(30, 3)];
    var found := FindPendingRecord(approvals, 1, 20);
    assert AwaitsApprover(approvals[1], 1, 20);
    assert found == Some(1);
    var ledger := approvals[1 := Recorded(approvals[1], Approve, comments, now)];
    var next := NextPending(ledger, 1, 2);
    assert PendingAfter(ledger[2], 1, 2);
    assert next == Some(3);
  }

  /** The last step's approver finishes the expense even though an earlier step
      has not approved. */
  lemma LastStepApprovesOverPendingEarlierStep(comments: Option<string>, now: int)
    ensures var expenses := [SampleExpense(None, 1)];
            var approvals := [SampleRecord(10, 1), SampleRecord(20, 2)];
            var r := Decide(expenses, approvals, [], 1, 20, "approve", comments, now);
            && r == Ok(Decision(1, Approve, ApprovedAtEnd))
            && ExpenseAfter(expenses[0], r.value.outcome).status == Approved
            && LedgerAfter(approvals, r.value, comments, now)[0].status == Pending
  {
    var approvals := [SampleRecord(10, 1), SampleRecord(20, 2)];
    var found := FindPendingRecord(approvals, 1, 20);
    assert AwaitsApprover(approvals[1], 1, 20);
    assert found == Some(1);
    var ledger := approvals[1 := Recorded(approvals[1], Approve, comments, now)];
    var next := NextPending(ledger, 1, 2);
    assert next == None;
  }

  /** A specific-approver rule with manager approval gives the chain only the
      manager.  The specific approver holds no record and is refused, while the
      manager's approval alone finishes the expense. */
  lemma SpecificApproverOutsideChain(comments: Option<string>, now: int)
    ensures var rules := [Rule(1, "ceo", true, SpecificApprover, None, Some(9), true)];
            var expenses := [SampleExpense(Some(1), 1)];
            var approvals := [SampleRecord(5, 1)];
            && Decide(expenses, approvals, rules, 1, 9, "approve", comments, now) == Err(NotAuthorized)
            && Decide(expenses, approvals, rules, 1, 5, "approve", comments, now)
               == Ok(Decision(0, Approve, ApprovedAtEnd))
  {
    var approvals := [SampleRecord(5, 1)];
    assert FindPendingRecord(approvals, 1, 9) == None by {
      assert !AwaitsApprover(approvals[0], 1, 9);
    }
    var ledger := approvals[0 := Recorded(approvals[0], Approve, comments, now)];
    assert NextPending(ledger, 1, 1) == None;
  }

  /** The rule is fetched by id alone at decision time: a rule deactivated after
      the expense was filed still lets its specific approver approve. */
  lemma DeactivatedRuleStillDecides(comments: Option<string>, now: int)
    ensures var rules := [Rule(1, "cfo", false, Hybrid, Some(100), Some(9), false)];
            var expenses := [SampleExpense(Some(1), 1)];
            var approvals := [SampleRecord(5, 1), SampleRecord(9, 2)];
            Decide(expenses, approvals, rules, 1, 9, "approve", comments, now)
              == Ok(Decision(1, Approve, ApprovedBySpecificApprover))
  {
    var approvals := [SampleRecord(5, 1), SampleRecord(9, 2)];
    var found := FindPendingRecord(approvals, 1, 9);
    assert AwaitsApprover(approvals[1], 1, 9);
    assert found == Some(1);
  }

  /** The rule fetched by id alone may belong to another company: its specific
      approver, holding a record, still approves the expense outright. */
  lemma ForeignRuleStillDecides(comments: Option<string>, now: int)
    ensures var rules := [Rule(2, "other company", false, SpecificApprover, None, Some(5), true)];
            var expenses := [SampleExpense(Some(1), 1)];
            var approvals := [SampleRecord(5, 1)];
            && rules[0].companyId != expenses[0].companyId
            && Decide(expenses, approvals, rules, 1, 5, "approve", comments, now)
               == Ok(Decision(0, Approve, ApprovedBySpecificApprover))
  {
    var approvals := [SampleRecord(5, 1)];
    assert AwaitsApprover(approvals[0], 1, 5);
    assert FindPendingRecord(approvals, 1, 5) == Some(0);
  }
}
