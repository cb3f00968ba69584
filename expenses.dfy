/** The expense controller: filing an expense with its approver chain, an
    approver's decision, and the two ledger listings (an approver's pending queue
    and an employee's own expenses with their decoded approval chain). */
module ExpenseController {
  import opened Common
  import opened Store
  import opened ApproverChain
  import opened DecisionEngine
  import opened ChainFormat

  datatype ExpenseError =
    | MissingFields  // 400 "Amount, currency, category, and date are required"
    | ServerError    // 500: the transaction is rolled back

  // ---------------------------------------------------------------------------
  // Filing an expense

  /** The amount in the company currency: the amount itself when the currencies
      agree, otherwise what the exchange-rate service quoted (`None` when the
      service failed). */
  function ConvertedAmount(amount: string, currency: string, companyCurrency: string, quote: Option<string>)
    : (r: Option<string>)
    ensures currency == companyCurrency ==> r == Some(amount)
    ensures currency != companyCurrency ==> r == quote
  {
    if currency == companyCurrency then Some(amount) else quote
  }

  /** The submitter's manager as the users table holds it (`None` also when the
      submitter has no row). */
  function EmployeeManager(users: seq<User>, employeeId: int): Option<int>
  {
    if 1 <= employeeId <= |users| then users[employeeId - 1].managerId else None
  }

  /** The steps the step query returns for the requested rule id. */
  function RequestedSteps(steps: seq<Step>, ruleId: Option<int>): seq<Step>
  {
    if ruleId.Some? then StepsOf(steps, ruleId.value) else []
  }

  /** The ledger records of a new expense: one pending record per chain entry. */
  function ChainRecords(expenseId: int, chain: seq<ChainEntry>): (records: seq<ApprovalRecord>)
    ensures |records| == |chain|
    ensures forall k :: 0 <= k < |chain| ==> records[k] == NewRecord(expenseId, chain[k])
  {
    if chain == [] then []
    else ChainRecords(expenseId, chain[..|chain| - 1]) + [NewRecord(expenseId, chain[|chain| - 1])]
  }

  /** The pending record of one chain entry. */
  function NewRecord(expenseId: int, entry: ChainEntry): ApprovalRecord
  {
    ApprovalRecord(expenseId, entry.approverId, entry.order, Pending, None, None)
  }

  /** The records of a new expense are numbered 1..n in ledger order and all
      pending, and they are all the records the expense has. */
  lemma NewRecordsNumberedAndPending(expenseId: int, chain: seq<ChainEntry>)
    requires forall k :: 0 <= k < |chain| ==> chain[k].order == k + 1
    ensures var records := ChainRecords(expenseId, chain);
            && RecordsNumbered(records)
            && RecordsOf(records, expenseId) == records
            && forall k :: 0 <= k < |records| ==> records[k].expenseId == expenseId && records[k].status == Pending
  {
    var records := ChainRecords(expenseId, chain);
    WhereAll(records, (a: ApprovalRecord) => a.expenseId == expenseId);
  }

  /** Filing an expense keeps the ledger well formed: the new records come last,
      belong to the new expense, are numbered from 1, and the new expense's current
      step is 1 exactly when it has records. */
  lemma {:induction false} NewExpenseLedgerWellFormed(
    expenses: seq<Expense>, approvals: seq<ApprovalRecord>, x: Expense, added: seq<ApprovalRecord>)
    requires LedgerWellFormed(expenses, approvals)
    requires RecordsNumbered(added)
    requires forall k :: 0 <= k < |added| ==> added[k].expenseId == |expenses| + 1
    requires x.currentStep == (if |added| > 0 then Some(1) else None)
    ensures LedgerWellFormed(expenses + [x], approvals + added)
  {
    var id := |expenses| + 1;
    WhereAll(added, (a: ApprovalRecord) => a.expenseId == id);
    assert RecordsOf(added, id) == added;
    NewRecordsBelongAndFollow(expenses, approvals, added, id);
    forall e ensures RecordsNumbered(RecordsOf(approvals + added, e)) {
      NewLedgerRecordsOf(expenses, approvals, added, e);
    }
    NewCurrentStepsExist(expenses, approvals, x, added);
  }

  /** The records of the new expense, appended to the ledger, leave every other
      expense's records as they were. */
  lemma NewLedgerRecordsOf(expenses: seq<Expense>, approvals: seq<ApprovalRecord>, added: seq<ApprovalRecord>, e: int)
    requires forall i :: 0 <= i < |approvals| ==> 1 <= approvals[i].expenseId <= |expenses|
    requires RecordsOf(added, |expenses| + 1) == added
    requires forall k :: 0 <= k < |added| ==> added[k].expenseId == |expenses| + 1
    ensures RecordsOf(approvals + added, e) == (if e == |expenses| + 1 then added else RecordsOf(approvals, e))
  {
    WhereAppend(approvals, added, (a: ApprovalRecord) => a.expenseId == e);
    if e == |expenses| + 1 {
      WhereNone(approvals, (a: ApprovalRecord) => a.expenseId == e);
    } else {
      WhereNone(added, (a: ApprovalRecord) => a.expenseId == e);
    }
  }

  /** The appended records name the new, last expense, so the ledger stays grouped
      by expense in creation order. */
  lemma NewRecordsBelongAndFollow(expenses: seq<Expense>, approvals: seq<ApprovalRecord>, added: seq<ApprovalRecord>, id: int)
    requires id == |expenses| + 1
    requires forall i :: 0 <= i < |approvals| ==> 1 <= approvals[i].expenseId <= |expenses|
    requires forall i, j :: 0 <= i < j < |approvals| ==> approvals[i].expenseId <= approvals[j].expenseId
    requires forall k :: 0 <= k < |added| ==> added[k].expenseId == id
    ensures forall i :: 0 <= i < |approvals + added| ==> 1 <= (approvals + added)[i].expenseId <= id
    ensures forall i, j :: 0 <= i < j < |approvals + added| ==> (approvals + added)[i].expenseId <= (approvals + added)[j].expenseId
  {
    var ledger := approvals + added;
    forall i | 0 <= i < |ledger| ensures 1 <= ledger[i].expenseId <= id {
      if i >= |approvals| {
        assert ledger[i] == added[i - |approvals|];
      }
    }
    forall i, j | 0 <= i < j < |ledger| ensures ledger[i].expenseId <= ledger[j].expenseId {
      if j >= |approvals| {
        assert ledger[j] == added[j - |approvals|];
        if i >= |approvals| {
          assert ledger[i] == added[i - |approvals|];
        }
      }
    }
  }

  /** The current steps stay within each expense's records, the new expense's
      included. */
  lemma NewCurrentStepsExist(expenses: seq<Expense>, approvals: seq<ApprovalRecord>, x: Expense, added: seq<ApprovalRecord>)
    requires forall i :: 0 <= i < |approvals| ==> 1 <= approvals[i].expenseId <= |expenses|
    requires forall i :: 0 <= i < |expenses| && expenses[i].currentStep.Some? ==>
               1 <= expenses[i].currentStep.value <= |RecordsOf(approvals, i + 1)|
    requires RecordsOf(added, |expenses| + 1) == added
    requires forall k :: 0 <= k < |added| ==> added[k].expenseId == |expenses| + 1
    requires x.currentStep == (if |added| > 0 then Some(1) else None)
    ensures forall i :: 0 <= i < |expenses + [x]| && (expenses + [x])[i].currentStep.Some? ==>
              1 <= (expenses + [x])[i].currentStep.value <= |RecordsOf(approvals + added, i + 1)|
  {
    var expenses' := expenses + [x];
    forall i | 0 <= i < |expenses'| && expenses'[i].currentStep.Some?
      ensures 1 <= expenses'[i].currentStep.value <= |RecordsOf(approvals + added, i + 1)|
    {
      NewLedgerRecordsOf(expenses, approvals, added, i + 1);
      if i < |expenses| {
        assert expenses'[i] == expenses[i];
      }
    }
  }

  /** The approver list of `createExpense`: the manager first when consulted and
      set, then one entry per rule step numbered on from there.  Reading the
      manager of a submitter without a user row fails (`None`). */
  method BuildApprovers(users: seq<User>, steps: seq<Step>, employeeId: int, rule: Option<Rule>, ruleId: Option<int>)
    returns (approvers: Option<seq<ChainEntry>>)
    ensures approvers.None? <==> ConsultsManager(rule) && !(1 <= employeeId <= |users|)
    ensures approvers.Some? ==>
              approvers.value == Chain(EmployeeManager(users, employeeId), rule, RequestedSteps(steps, ruleId))
  {
    var list: seq<ChainEntry> := [];
    if ConsultsManager(rule) {
      var employee := RowById(users, employeeId);
      if employee.None? {
        return None;
      }
      if Truthy(employee.value.managerId) {
        list := [ChainEntry(employee.value.managerId.value, 1)];
      }
    }
    ghost var manager := EmployeeManager(users, employeeId);
    assert list == if ManagerLeads(manager, rule) then [ChainEntry(manager.value, 1)] else [];
    var ruleSteps := RequestedSteps(steps, ruleId);
    if StepsApply(rule) {
      list := AppendStepEntries(list, ruleSteps, |list| + 1);
    }
    assert list == Chain(manager, rule, ruleSteps);
    approvers := Some(list);
  }

  /** The step loop of `createExpense`: one entry per rule step, numbered on from
      `startOrder`, pushed in step order. */
  method AppendStepEntries(list: seq<ChainEntry>, ruleSteps: seq<Step>, startOrder: int)
    returns (list': seq<ChainEntry>)
    ensures list' == list + StepEntries(ruleSteps, startOrder)
  {
    list' := list;
    var index := 0;
    while index < |ruleSteps|
      invariant 0 <= index <= |ruleSteps|
      invariant list' == list + StepEntries(ruleSteps[..index], startOrder)
    {
      list' := list' + [ChainEntry(ruleSteps[index].approverId, startOrder + index)];
      index := index + 1;
      assert ruleSteps[..index][..index - 1] == ruleSteps[..index - 1];
    }
    assert ruleSteps[..index] == ruleSteps;
  }

  /** The insert loop of `createExpense`: one pending record per approver, in
      order. */
  method InsertRecords(db: Database, expenseId: int, approvers: seq<ChainEntry>)
    modifies db`approvals
    ensures db.approvals == old(db.approvals) + ChainRecords(expenseId, approvers)
  {
    var k := 0;
    while k < |approvers|
      invariant 0 <= k <= |approvers|
      invariant db.approvals == old(db.approvals) + ChainRecords(expenseId, approvers[..k])
    {
      db.approvals := db.approvals + [ApprovalRecord(expenseId, approvers[k].approverId, approvers[k].order, Pending, None, None)];
      k := k + 1;
      assert approvers[..k][..k - 1] == approvers[..k - 1];
    }
    assert approvers[..k] == approvers;
  }

  /** `createExpense`: validates the request, converts the amount, inserts the
      expense, builds its approver chain (the manager when the applicable rule asks
      for it or there is none, then the steps of a sequential or hybrid rule),
      inserts one pending record per approver and sets the current step to 1 when
      there is one.  The requested rule id is stored as given, even when it names
      no applicable rule.  A failed conversion, or a submitter without a user row
      when the manager is consulted, is a server error and rolls everything back. */
  method CreateExpense(
    db: Database, employeeId: int, companyId: int, companyCurrency: string,
    amount: string, currency: string, category: string, description: string, expenseDate: string,
    approvalRuleId: Option<int>, receiptPath: Option<string>, quote: Option<string>)
    returns (r: Result<(int, string), ExpenseError>)
    requires db.Valid()
    modifies db`expenses, db`approvals
    ensures db.Valid()
    ensures r == Err(MissingFields) <==> !(Given(amount) && Given(currency) && Given(category) && Given(expenseDate))
    ensures var rule := ApplicableRule(old(db.rules), approvalRuleId, companyId);
            r == Err(ServerError) <==>
              && Given(amount) && Given(currency) && Given(category) && Given(expenseDate)
              && (ConvertedAmount(amount, currency, companyCurrency, quote).None?
                  || (ConsultsManager(rule) && !(1 <= employeeId <= |old(db.users)|)))
    ensures r.Err? ==> db.expenses == old(db.expenses) && db.approvals == old(db.approvals)
    ensures r.Ok? ==>
              var id, converted := |old(db.expenses)| + 1, ConvertedAmount(amount, currency, companyCurrency, quote);
              var rule := ApplicableRule(old(db.rules), approvalRuleId, companyId);
              var chain := Chain(EmployeeManager(old(db.users), employeeId), rule, RequestedSteps(old(db.steps), approvalRuleId));
              && r.value == (id, converted.value)
              && db.expenses == old(db.expenses)
                   + [Expense(companyId, employeeId, OrNull(approvalRuleId), amount, currency, converted.value,
                              category, description, expenseDate, receiptPath, Pending,
                              if |chain| > 0 then Some(1) else None)]
              && db.approvals == old(db.approvals) + ChainRecords(id, chain)
  {
    var converted := ConvertedAmount(amount, currency, companyCurrency, quote);
    if !(Given(amount) && Given(currency) && Given(category) && Given(expenseDate)) {
      r := Err(MissingFields);
    } else if converted.None? {
      r := Err(ServerError);
    } else {
      var expense := Expense(companyId, employeeId, OrNull(approvalRuleId), amount, currency, converted.value,
                             category, description, expenseDate, receiptPath, Pending, None);
      var rule := ApplicableRule(db.rules, approvalRuleId, companyId);
      var filed := FileExpense(db, expense, rule, approvalRuleId);
      r := if filed then Ok((|db.expenses|, converted.value)) else Err(ServerError);
    }
  }

  /** Updating the row just appended is appending the updated row. */
  lemma LastRowUpdated<T>(s: seq<T>, row: T, row': T)
    ensures (s + [row])[|s| := row'] == s + [row']
  {
  }

  /** The transaction of `createExpense`: inserts the expense, builds its approver
      chain, inserts one pending record per approver and sets the current step to 1
      when there is one.  A submitter without a user row, when the manager is
      consulted, fails and rolls the insert back. */
  method FileExpense(db: Database, expense: Expense, rule: Option<Rule>, ruleId: Option<int>)
    returns (filed: bool)
    requires LedgerWellFormed(db.expenses, db.approvals)
    requires expense.currentStep == None
    modifies db`expenses, db`approvals
    ensures LedgerWellFormed(db.expenses, db.approvals)
    ensures filed <==> !(ConsultsManager(rule) && !(1 <= expense.employeeId <= |old(db.users)|))
    ensures !filed ==> db.expenses == old(db.expenses) && db.approvals == old(db.approvals)
    ensures filed ==>
              var chain := Chain(EmployeeManager(old(db.users), expense.employeeId), rule, RequestedSteps(old(db.steps), ruleId));
              && db.expenses == old(db.expenses) + [expense.(currentStep := if |chain| > 0 then Some(1) else None)]
              && db.approvals == old(db.approvals) + ChainRecords(|old(db.expenses)| + 1, chain)
  {
    // Transaction start: what a rollback restores.
    var savedExpenses, savedApprovals := db.expenses, db.approvals;
    db.expenses := db.expenses + [expense];
    var expenseId := |db.expenses|;
    var approvers := BuildApprovers(db.users, db.steps, expense.employeeId, rule, ruleId);
    if approvers.None? {
      db.expenses := savedExpenses;
      return false;
    }
    InsertRecords(db, expenseId, approvers.value);
    if |approvers.value| > 0 {
      db.expenses := db.expenses[expenseId - 1 := expense.(currentStep := Some(1))];
      LastRowUpdated(savedExpenses, expense, expense.(currentStep := Some(1)));
    }
    ghost var chain := approvers.value;
    assert db.expenses == savedExpenses + [expense.(currentStep := if |chain| > 0 then Some(1) else None)];
    assert db.approvals == savedApprovals + ChainRecords(|savedExpenses| + 1, chain);
    FiledLedgerWellFormed(savedExpenses, savedApprovals, expense, chain);
    filed := true;
  }

  /** The tables after a filed expense: the expense with its current step, and its
      chain's records, keep the ledger well formed. */
  lemma FiledLedgerWellFormed(
    expenses: seq<Expense>, approvals: seq<ApprovalRecord>, expense: Expense, chain: seq<ChainEntry>)
    requires LedgerWellFormed(expenses, approvals)
    requires forall k :: 0 <= k < |chain| ==> chain[k].order == k + 1
    ensures LedgerWellFormed(expenses + [expense.(currentStep := if |chain| > 0 then Some(1) else None)],
                             approvals + ChainRecords(|expenses| + 1, chain))
  {
    NewRecordsNumberedAndPending(|expenses| + 1, chain);
    NewExpenseLedgerWellFormed(expenses, approvals, expense.(currentStep := if |chain| > 0 then Some(1) else None),
                               ChainRecords(|expenses| + 1, chain));
  }

  // ---------------------------------------------------------------------------
  // Deciding on an expense

  /** A specific-approver rule with manager approval whose specific approver is
      the submitter's manager: the filed chain is the manager alone, and the
      manager's approval is the specific approver's override. */
  lemma ManagerAsSpecificApproverOverrides(comments: Option<string>, now: int)
    ensures var rule := Rule(1, "manager decides", true, SpecificApprover, None, Some(5), true);
            var chain := Chain(Some(5), Some(rule), []);
            var expenses := [SampleExpense(Some(1), 1)];
            && chain == [ChainEntry(5, 1)]
            && Decide(expenses, ChainRecords(1, chain), [rule], 1, 5, "approve", comments, now)
               == Ok(Decision(0, Approve, ApprovedBySpecificApprover))
  {
    var rule := Rule(1, "manager decides", true, SpecificApprover, None, Some(5), true);
    var chain := Chain(Some(5), Some(rule), []);
    assert chain == [ChainEntry(5, 1)];
    var approvals := ChainRecords(1, chain);
    assert approvals == [SampleRecord(5, 1)];
    assert AwaitsApprover(approvals[0], 1, 5);
    assert FindPendingRecord(approvals, 1, 5) == Some(0);
  }

  /** The approval branch of `approveOrRejectExpense`, on the ledger in which the
      acting record is already approved: the rule's specific approver approves
      the expense outright; otherwise a met percentage approves it; otherwise it
      moves to the next pending step after the acting one or, with none left, is
      approved.  The rule is fetched by the id stored on the expense. */
  method ApprovalOutcomeOf(
    rules: seq<Rule>, ledger: seq<ApprovalRecord>, expense: Expense, expenseId: int, approverId: int, actingStep: int)
    returns (outcome: Outcome)
    ensures var rule := StoredRule(rules, expense);
            var specific := SpecificApproverFires(rule, approverId);
            var threshold := ThresholdFires(rule, CountApproved(ledger, expenseId), CountRecords(ledger, expenseId));
            && (outcome == ApprovedBySpecificApprover <==> specific)
            && (outcome == ApprovedByThreshold <==> !specific && threshold)
            && (!specific && !threshold ==> outcome == Advance(NextPending(ledger, expenseId, actingStep)))
    ensures outcome == ApprovalOutcome(StoredRule(rules, expense), approverId, ledger, expenseId, actingStep)
  {
    var rule := StoredRule(rules, expense);
    if SpecificApproverFires(rule, approverId) {
      return ApprovedBySpecificApprover;
    }
    if rule.Some? && UsesThreshold(rule.value.ruleType) {
      var approved := CountApproved(ledger, expenseId);
      var total := CountRecords(ledger, expenseId);
      if ThresholdMet(approved, total, rule.value.percentageThreshold) {
        return ApprovedByThreshold;
      }
    }
    var next := NextPending(ledger, expenseId, actingStep);
    if next.Some? {
      outcome := MovedToStep(next.value);
    } else {
      outcome := ApprovedAtEnd;
    }
  }

  /** `approveOrRejectExpense`: the guards, then the acting record takes the
      decision; a rejection rejects the expense; an approval approves it for the
      rule's specific approver or a met threshold, and otherwise moves it to the
      next pending step or, with none left, approves it.  Exactly what `Decide`
      says, and nothing else changes. */
  method ApproveOrRejectExpense(
    db: Database, expenseId: int, approverId: int, actionText: string, comments: Option<string>, now: int)
    returns (r: Result<Outcome, DecisionError>)
    requires db.Valid()
    modifies db`expenses, db`approvals
    ensures db.Valid()
    ensures var d := Decide(old(db.expenses), old(db.approvals), db.rules, expenseId, approverId, actionText, comments, now);
            && (d.Err? ==> r == Err(d.error) && db.expenses == old(db.expenses) && db.approvals == old(db.approvals))
            && (d.Ok? ==>
                  && r == Ok(d.value.outcome)
                  && db.approvals == LedgerAfter(old(db.approvals), d.value, comments, now)
                  && db.expenses == old(db.expenses)[expenseId - 1 := ExpenseAfter(old(db.expenses)[expenseId - 1], d.value.outcome)])
  {
    var action := ParseAction(actionText);
    if action.None? {
      return Err(InvalidAction);
    }
    if !PendingExpense(db.expenses, expenseId) {
      return Err(ExpenseNotFound);
    }
    var expense := db.expenses[expenseId - 1];
    var found := FindPendingRecord(db.approvals, expenseId, approverId);
    if found.None? {
      return Err(NotAuthorized);
    }
    var i := found.value;
    var actingStep := db.approvals[i].stepOrder;
    db.approvals := db.approvals[i := Recorded(db.approvals[i], action.value, comments, now)];
    var outcome: Outcome;
    if action.value == Reject {
      outcome := RejectedOutright;
    } else {
      outcome := ApprovalOutcomeOf(db.rules, db.approvals, expense, expenseId, approverId, actingStep);
    }
    db.expenses := db.expenses[expenseId - 1 := ExpenseAfter(expense, outcome)];
    assert Decide(old(db.expenses), old(db.approvals), db.rules, expenseId, approverId, actionText, comments, now)
           == Ok(Decision(i, action.value, outcome));
    DecisionKeepsLedgerWellFormed(old(db.expenses), old(db.approvals), db.rules, expenseId, approverId, actionText, comments, now);
    r := Ok(outcome);
  }

  // ---------------------------------------------------------------------------
  // An approver's pending queue

  /** A row of `getPendingApprovals`: the expense, the approver's record, and the
      submitter's name and email. */
  datatype PendingRow = PendingRow(
    approvalId: int, expenseId: int, expense: Expense, stepOrder: int, comments: Option<string>,
    employeeFirstName: string, employeeLastName: string, employeeEmail: string)

  /** Ledger record `i` is in the approver's queue: pending, on a pending expense
      whose submitter has a user row (the query joins both). */
  predicate InQueue(expenses: seq<Expense>, approvals: seq<ApprovalRecord>, users: seq<User>, i: int, approverId: int)
  {
    && 0 <= i < |approvals|
    && approvals[i].approverId == approverId && approvals[i].status == Pending
    && PendingExpense(expenses, approvals[i].expenseId)
    && 1 <= expenses[approvals[i].expenseId - 1].employeeId <= |users|
  }

  /** The row shows ledger record `i` and its expense. */
  predicate ShowsRecord(expenses: seq<Expense>, approvals: seq<ApprovalRecord>, row: PendingRow)
  {
    && 1 <= row.approvalId <= |approvals|
    && var a := approvals[row.approvalId - 1];
       && row.expenseId == a.expenseId && row.stepOrder == a.stepOrder && row.comments == a.comments
       && 1 <= a.expenseId <= |expenses| && row.expense == expenses[a.expenseId - 1]
  }

  /** Some row of the queue shows ledger record `i`. */
  predicate Queued(rows: seq<PendingRow>, i: int)
  {
    exists k :: 0 <= k < |rows| && rows[k].approvalId == i + 1
  }

  /** The queue among the first `n` ledger records, newest first. */
  function QueueAmong(
    expenses: seq<Expense>, approvals: seq<ApprovalRecord>, users: seq<User>, approverId: int, n: nat)
    : seq<PendingRow>
    requires n <= |approvals|
  {
    if n == 0 then []
    else
      var older := QueueAmong(expenses, approvals, users, approverId, n - 1);
      if InQueue(expenses, approvals, users, n - 1, approverId) then
        var a := approvals[n - 1];
        var e := expenses[a.expenseId - 1];
        var u := users[e.employeeId - 1];
        [PendingRow(n, a.expenseId, e, a.stepOrder, a.comments, u.firstName, u.lastName, u.email)] + older
      else older
  }

  lemma {:induction false} QueueAmongSound(
    expenses: seq<Expense>, approvals: seq<ApprovalRecord>, users: seq<User>, approverId: int, n: nat)
    requires n <= |approvals|
    ensures forall k :: 0 <= k < |QueueAmong(expenses, approvals, users, approverId, n)| ==>
              && QueueAmong(expenses, approvals, users, approverId, n)[k].approvalId <= n
              && InQueue(expenses, approvals, users, QueueAmong(expenses, approvals, users, approverId, n)[k].approvalId - 1, approverId)
              && ShowsRecord(expenses, approvals, QueueAmong(expenses, approvals, users, approverId, n)[k])
  {
    if n > 0 {
      QueueAmongSound(expenses, approvals, users, approverId, n - 1);
      var older := QueueAmong(expenses, approvals, users, approverId, n - 1);
      var rows := QueueAmong(expenses, approvals, users, approverId, n);
      forall k | 0 <= k < |rows|
        ensures rows[k].approvalId <= n && InQueue(expenses, approvals, users, rows[k].approvalId - 1, approverId)
                && ShowsRecord(expenses, approvals, rows[k])
      {
        if InQueue(expenses, approvals, users, n - 1, approverId) {
          if k > 0 {
            assert rows[k] == older[k - 1];
          }
        } else {
          assert rows[k] == older[k];
        }
      }
    }
  }

  lemma {:induction false} QueueAmongComplete(
    expenses: seq<Expense>, approvals: seq<ApprovalRecord>, users: seq<User>, approverId: int, n: nat)
    requires n <= |approvals|
    ensures forall i :: 0 <= i < n && InQueue(expenses, approvals, users, i, approverId) ==>
              Queued(QueueAmong(expenses, approvals, users, approverId, n), i)
  {
    if n > 0 {
      QueueAmongComplete(expenses, approvals, users, approverId, n - 1);
      var older := QueueAmong(expenses, approvals, users, approverId, n - 1);
      var rows := QueueAmong(expenses, approvals, users, approverId, n);
      forall i | 0 <= i < n && InQueue(expenses, approvals, users, i, approverId)
        ensures Queued(rows, i)
      {
        if i < n - 1 {
          assert Queued(older, i);
          var k :| 0 <= k < |older| && older[k].approvalId == i + 1;
          if InQueue(expenses, approvals, users, n - 1, approverId) {
            assert rows[k + 1].approvalId == i + 1;
          } else {
            assert rows[k].approvalId == i + 1;
          }
        } else {
          assert rows[0].approvalId == n;
        }
      }
    }
  }

  /** Rows listed with strictly decreasing record ids. */
  predicate RecordsNewestFirst(rows: seq<PendingRow>)
  {
    forall k, l :: 0 <= k < l < |rows| ==> rows[k].approvalId > rows[l].approvalId
  }

  lemma {:induction false} QueueAmongNewestFirst(
    expenses: seq<Expense>, approvals: seq<ApprovalRecord>, users: seq<User>, approverId: int, n: nat)
    requires n <= |approvals|
    ensures RecordsNewestFirst(QueueAmong(expenses, approvals, users, approverId, n))
  {
    if n > 0 {
      QueueAmongNewestFirst(expenses, approvals, users, approverId, n - 1);
      QueueAmongSound(expenses, approvals, users, approverId, n - 1);
      var older := QueueAmong(expenses, approvals, users, approverId, n - 1);
      var rows := QueueAmong(expenses, approvals, users, approverId, n);
      if InQueue(expenses, approvals, users, n - 1, approverId) {
        forall k, l | 0 <= k < l < |rows| ensures rows[k].approvalId > rows[l].approvalId {
          assert rows[l] == older[l - 1];
          if k > 0 {
            assert rows[k] == older[k - 1];
          }
        }
      }
    }
  }

  /** `getPendingApprovals`: every ledger record that awaits this approver on a
      pending expense, and nothing else, newest first. */
  function PendingApprovals(expenses: seq<Expense>, approvals: seq<ApprovalRecord>, users: seq<User>, approverId: int)
    : (rows: seq<PendingRow>)
    ensures forall k :: 0 <= k < |rows| ==>
              InQueue(expenses, approvals, users, rows[k].approvalId - 1, approverId) && ShowsRecord(expenses, approvals, rows[k])
    ensures forall i :: InQueue(expenses, approvals, users, i, approverId) ==> Queued(rows, i)
    ensures RecordsNewestFirst(rows)
  {
    QueueAmongSound(expenses, approvals, users, approverId, |approvals|);
    QueueAmongComplete(expenses, approvals, users, approverId, |approvals|);
    QueueAmongNewestFirst(expenses, approvals, users, approverId, |approvals|);
    QueueAmong(expenses, approvals, users, approverId, |approvals|)
  }

  /** Since the ledger is grouped by expense in creation order, the queue lists the
      newest expenses first. */
  lemma QueueNewestExpenseFirst(expenses: seq<Expense>, approvals: seq<ApprovalRecord>, users: seq<User>, approverId: int)
    requires LedgerWellFormed(expenses, approvals)
    ensures var rows := PendingApprovals(expenses, approvals, users, approverId);
            forall k, l :: 0 <= k < l < |rows| ==> rows[k].expenseId >= rows[l].expenseId
  {
  }

  /** A decision takes its record off the queue: after any successful decision the
      approver's record no longer appears in it. */
  lemma DecisionLeavesQueue(
    expenses: seq<Expense>, approvals: seq<ApprovalRecord>, rules: seq<Rule>, users: seq<User>,
    expenseId: int, approverId: int, actionText: string, comments: Option<string>, now: int)
    requires Decide(expenses, approvals, rules, expenseId, approverId, actionText, comments, now).Ok?
    ensures var d := Decide(expenses, approvals, rules, expenseId, approverId, actionText, comments, now).value;
            var expenses' := expenses[expenseId - 1 := ExpenseAfter(expenses[expenseId - 1], d.outcome)];
            !Queued(PendingApprovals(expenses', LedgerAfter(approvals, d, comments, now), users, approverId), d.record)
  {
    var d := Decide(expenses, approvals, rules, expenseId, approverId, actionText, comments, now).value;
    var expenses' := expenses[expenseId - 1 := ExpenseAfter(expenses[expenseId - 1], d.outcome)];
    var ledger := LedgerAfter(approvals, d, comments, now);
    assert !InQueue(expenses', ledger, users, d.record, approverId);
  }

  // ---------------------------------------------------------------------------
  // An employee's own expenses

  /** A row of the employee listing query: the expense, its id, and the raw
      `approval_chain` column. */
  datatype ExpenseRow = ExpenseRow(id: int, expense: Expense, approvalChain: Option<string>)

  /** The row as the controller returns it: the chain decoded into `approvals`, the
      raw column gone. */
  datatype ExpenseView = ExpenseView(id: int, expense: Expense, approvals: seq<ParsedApproval>)

  /** The expense is the employee's and passes the optional status filter. */
  predicate Selected(e: Expense, employeeId: int, statusText: string)
  {
    e.employeeId == employeeId && (Given(statusText) ==> StatusText(e.status) == statusText)
  }

  /** The `approval_chain` of an expense. */
  function ApprovalChain(approvals: seq<ApprovalRecord>, users: seq<User>, expenseId: int): Option<string>
  {
    EncodeChain(ChainItems(RecordsOf(approvals, expenseId), users))
  }

  /** The `approval_chain` column of the listing query, expense id to chain. */
  function ChainColumn(approvals: seq<ApprovalRecord>, users: seq<User>): int -> Option<string>
  {
    id => ApprovalChain(approvals, users, id)
  }

  /** The row is expense `row.id`, selected, with its entry of the chain column. */
  predicate RowShows(
    expenses: seq<Expense>, chainOf: int -> Option<string>, employeeId: int, statusText: string, row: ExpenseRow)
  {
    && 1 <= row.id <= |expenses| && row.expense == expenses[row.id - 1]
    && Selected(row.expense, employeeId, statusText)
    && row.approvalChain == chainOf(row.id)
  }

  /** Some row of the listing is expense `id`. */
  predicate ExpenseListed(rows: seq<ExpenseRow>, id: int)
  {
    exists k :: 0 <= k < |rows| && rows[k].id == id
  }

  /** Rows listed with strictly decreasing expense ids. */
  predicate ExpensesNewestFirst(rows: seq<ExpenseRow>)
  {
    forall k, l :: 0 <= k < l < |rows| ==> rows[k].id > rows[l].id
  }

  /** The ids of the employee's expenses among the first `n` that pass the status
      filter, newest first. */
  function SelectedAmong(expenses: seq<Expense>, employeeId: int, statusText: string, n: nat): seq<int>
    requires n <= |expenses|
  {
    if n == 0 then []
    else
      var older := SelectedAmong(expenses, employeeId, statusText, n - 1);
      if Selected(expenses[n - 1], employeeId, statusText) then [n] + older else older
  }

  /** Every id selected among the first `n` expenses names one of them that passes
      the filter. */
  lemma {:induction false} SelectedAmongSound(expenses: seq<Expense>, employeeId: int, statusText: string, n: nat)
    requires n <= |expenses|
    ensures forall k :: 0 <= k < |SelectedAmong(expenses, employeeId, statusText, n)| ==>
              && 1 <= SelectedAmong(expenses, employeeId, statusText, n)[k] <= n
              && Selected(expenses[SelectedAmong(expenses, employeeId, statusText, n)[k] - 1], employeeId, statusText)
  {
    if n > 0 {
      SelectedAmongSound(expenses, employeeId, statusText, n - 1);
      var older := SelectedAmong(expenses, employeeId, statusText, n - 1);
      var ids := SelectedAmong(expenses, employeeId, statusText, n);
      forall k | 0 <= k < |ids|
        ensures 1 <= ids[k] <= n && Selected(expenses[ids[k] - 1], employeeId, statusText)
      {
        if Selected(expenses[n - 1], employeeId, statusText) {
          if k > 0 {
            assert ids[k] == older[k - 1];
          }
        } else {
          assert ids[k] == older[k];
        }
      }
    }
  }

  /** Every one of the first `n` expenses that passes the filter is selected. */
  lemma {:induction false} SelectedAmongComplete(expenses: seq<Expense>, employeeId: int, statusText: string, n: nat)
    requires n <= |expenses|
    ensures forall id :: 1 <= id <= n && Selected(expenses[id - 1], employeeId, statusText) ==>
              id in SelectedAmong(expenses, employeeId, statusText, n)
  {
    if n > 0 {
      SelectedAmongComplete(expenses, employeeId, statusText, n - 1);
      var older := SelectedAmong(expenses, employeeId, statusText, n - 1);
      var ids := SelectedAmong(expenses, employeeId, statusText, n);
      forall id | 1 <= id <= n && Selected(expenses[id - 1], employeeId, statusText)
        ensures id in ids
      {
        if id < n {
          assert id in older;
        }
      }
    }
  }

  /** The ids selected among the first `n` expenses strictly decrease. */
  lemma {:induction false} SelectedAmongNewestFirst(expenses: seq<Expense>, employeeId: int, statusText: string, n: nat)
    requires n <= |expenses|
    ensures forall k, l :: 0 <= k < l < |SelectedAmong(expenses, employeeId, statusText, n)| ==>
              SelectedAmong(expenses, employeeId, statusText, n)[k] > SelectedAmong(expenses, employeeId, statusText, n)[l]
  {
    if n > 0 {
      SelectedAmongNewestFirst(expenses, employeeId, statusText, n - 1);
      SelectedAmongSound(expenses, employeeId, statusText, n - 1);
      var older := SelectedAmong(expenses, employeeId, statusText, n - 1);
      var ids := SelectedAmong(expenses, employeeId, statusText, n);
      if Selected(expenses[n - 1], employeeId, statusText) {
        forall k, l | 0 <= k < l < |ids| ensures ids[k] > ids[l] {
          assert ids[l] == older[l - 1];
          if k > 0 {
            assert ids[k] == older[k - 1];
          }
        }
      }
    }
  }

  /** The listing rows for the given expense ids, in order: each expense with its
      entry of the chain column. */
  function RowsFor(expenses: seq<Expense>, chainOf: int -> Option<string>, ids: seq<int>): (rows: seq<ExpenseRow>)
    requires forall k :: 0 <= k < |ids| ==> 1 <= ids[k] <= |expenses|
    ensures |rows| == |ids|
    ensures forall k :: 0 <= k < |rows| ==>
              rows[k] == ExpenseRow(ids[k], expenses[ids[k] - 1], chainOf(ids[k]))
  {
    if ids == [] then []
    else [ExpenseRow(ids[0], expenses[ids[0] - 1], chainOf(ids[0]))] + RowsFor(expenses, chainOf, ids[1..])
  }

  /** The listing query of `getEmployeeExpenses` over a chain column (the query's
      is `ChainColumn`): the employee's expenses passing the status filter, each
      once, newest first, with their chains. */
  function EmployeeRows(expenses: seq<Expense>, chainOf: int -> Option<string>, employeeId: int, statusText: string)
    : (rows: seq<ExpenseRow>)
    ensures forall k :: 0 <= k < |rows| ==> RowShows(expenses, chainOf, employeeId, statusText, rows[k])
    ensures forall id :: 1 <= id <= |expenses| && Selected(expenses[id - 1], employeeId, statusText) ==>
              ExpenseListed(rows, id)
    ensures ExpensesNewestFirst(rows)
  {
    var ids := SelectedAmong(expenses, employeeId, statusText, |expenses|);
    SelectedAmongSound(expenses, employeeId, statusText, |expenses|);
    SelectedAmongComplete(expenses, employeeId, statusText, |expenses|);
    SelectedAmongNewestFirst(expenses, employeeId, statusText, |expenses|);
    var rows := RowsFor(expenses, chainOf, ids);
    assert forall id :: id in ids ==> ExpenseListed(rows, id) by {
      forall id | id in ids
        ensures ExpenseListed(rows, id)
      {
        var k :| 0 <= k < |ids| && ids[k] == id;
        assert rows[k].id == id;
      }
    }
    rows
  }

  /** `getEmployeeExpenses`: the listing rows, each with its chain decoded into
      `approvals` (empty for an expense without records) and the raw chain
      dropped. */
  method GetEmployeeExpenses(db: Database, employeeId: int, statusText: string) returns (views: seq<ExpenseView>)
    ensures var rows := EmployeeRows(db.expenses, ChainColumn(db.approvals, db.users), employeeId, statusText);
            && |views| == |rows|
            && forall k :: 0 <= k < |views| ==>
                 views[k] == ExpenseView(rows[k].id, rows[k].expense, ParseChain(rows[k].approvalChain))
  {
    var rows := EmployeeRows(db.expenses, ChainColumn(db.approvals, db.users), employeeId, statusText);
    views := DecodeChains(rows);
  }

  /** The mapping loop of `getEmployeeExpenses`: each row's chain text decoded into
      its `approvals` list, in row order. */
  method DecodeChains(rows: seq<ExpenseRow>) returns (views: seq<ExpenseView>)
    ensures |views| == |rows|
    ensures forall k :: 0 <= k < |views| ==>
              views[k] == ExpenseView(rows[k].id, rows[k].expense, ParseChain(rows[k].approvalChain))
  {
    views := [];
    var k := 0;
    while k < |rows|
      invariant 0 <= k <= |rows|
      invariant |views| == k
      invariant forall m :: 0 <= m < k ==>
                  views[m] == ExpenseView(rows[m].id, rows[m].expense, ParseChain(rows[m].approvalChain))
    {
      var row := rows[k];
      views := views + [ExpenseView(row.id, row.expense, ParseChain(row.approvalChain))];
      k := k + 1;
    }
  }

  /** An expense without ledger records is listed with an empty `approvals`. */
  lemma NoRecordsNoApprovals(approvals: seq<ApprovalRecord>, users: seq<User>, expenseId: int)
    requires RecordsOf(approvals, expenseId) == []
    ensures ApprovalChain(approvals, users, expenseId) == None
    ensures ParseChain(ApprovalChain(approvals, users, expenseId)) == []
  {
  }

  /** Names without `:` or `|`, as the chain text needs them. */
  predicate PlainNames(users: seq<User>)
  {
    forall i :: 0 <= i < |users| ==> PlainName(users[i].firstName) && PlainName(users[i].lastName)
  }

  /** In a well-formed ledger whose approvers all have user rows with plain names,
      the decoded chain of an expense lists its records in order: orders 1..n, each
      record's status and its approver's full name. */
  lemma ListedChainShowsLedger(approvals: seq<ApprovalRecord>, users: seq<User>, expenseId: int)
    requires RecordsNumbered(RecordsOf(approvals, expenseId))
    requires forall k :: 0 <= k < |RecordsOf(approvals, expenseId)| ==>
               1 <= RecordsOf(approvals, expenseId)[k].approverId <= |users|
    requires PlainNames(users)
    ensures var records, parsed := RecordsOf(approvals, expenseId), ParseChain(ApprovalChain(approvals, users, expenseId));
            && |parsed| == |records|
            && forall k :: 0 <= k < |records| ==>
                 parsed[k] == ParsedApproval(Some(k + 1), Some(StatusText(records[k].status)),
                                             Some(ApproverName(users[records[k].approverId - 1])))
  {
    RecordsChainShown(RecordsOf(approvals, expenseId), users);
  }

  /** The chain built from numbered records decodes to those records, in order. */
  lemma RecordsChainShown(records: seq<ApprovalRecord>, users: seq<User>)
    requires RecordsNumbered(records)
    requires forall k :: 0 <= k < |records| ==> 1 <= records[k].approverId <= |users|
    requires PlainNames(users)
    ensures var parsed := ParseChain(EncodeChain(ChainItems(records, users)));
            && |parsed| == |records|
            && forall k :: 0 <= k < |records| ==>
                 parsed[k] == ParsedApproval(Some(k + 1), Some(StatusText(records[k].status)),
                                             Some(ApproverName(users[records[k].approverId - 1])))
  {
    var items := ChainItems(records, users);
    ChainItemsPlain(records, users);
    ChainRoundTrip(items);
    ParsedShowsRecords(records, users, items, ParseChain(EncodeChain(items)));
  }

  /** Decoded items that are the expected view of numbered records' items show
      each record's order, status and approver. */
  lemma ParsedShowsRecords(
    records: seq<ApprovalRecord>, users: seq<User>, items: seq<ChainItem>, parsed: seq<ParsedApproval>)
    requires RecordsNumbered(records)
    requires forall k :: 0 <= k < |records| ==> 1 <= records[k].approverId <= |users|
    requires |items| == |records|
    requires forall k :: 0 <= k < |items| ==>
               items[k] == ChainItem(records[k].stepOrder, records[k].status, ApproverName(users[records[k].approverId - 1]))
    requires |parsed| == |items|
    requires forall k :: 0 <= k < |items| ==> parsed[k] == Expected(items[k])
    ensures forall k :: 0 <= k < |records| ==>
              parsed[k] == ParsedApproval(Some(k + 1), Some(StatusText(records[k].status)),
                                          Some(ApproverName(users[records[k].approverId - 1])))
  {
    forall k | 0 <= k < |records|
      ensures parsed[k] == ParsedApproval(Some(k + 1), Some(StatusText(records[k].status)),
                                          Some(ApproverName(users[records[k].approverId - 1])))
    {
      assert records[k].stepOrder == k + 1;
      assert parsed[k] == Expected(items[k]);
    }
  }

  /** The chain of such records has one item per record, each with the record's
      order and status and a plain approver name. */
  lemma ChainItemsPlain(records: seq<ApprovalRecord>, users: seq<User>)
    requires forall k :: 0 <= k < |records| ==> 1 <= records[k].approverId <= |users|
    requires PlainNames(users)
    ensures var items := ChainItems(records, users);
            && |items| == |records|
            && forall k :: 0 <= k < |items| ==>
                 && items[k] == ChainItem(records[k].stepOrder, records[k].status, ApproverName(users[records[k].approverId - 1]))
                 && PlainName(items[k].name)
  {
    var items := ChainItems(records, users);
    forall k | 0 <= k < |items| ensures PlainName(items[k].name) {
      var u := users[records[k].approverId - 1];
      assert items[k].name == u.firstName + " " + u.lastName;
    }
  }
}
