/** The tables the controllers read and write, held in memory.  A table is a
    sequence of rows; a row's id is its position plus one, as an auto-increment
    key hands them out, and rows are never removed. */
module Store {
  import opened Common

  datatype Role = Employee | Manager | Admin

  /** A row of `users`.  The password hash is not part of the model. */
  datatype User = User(
    companyId: int,
    email: string,
    firstName: string,
    lastName: string,
    role: Role,
    managerId: Option<int>,
    isActive: bool)

  datatype RuleType = Sequential | Percentage | SpecificApprover | Hybrid

  /** Rule types whose fixed step list builds part of the chain. */
  predicate UsesSteps(t: RuleType)
  {
    t == Sequential || t == Hybrid
  }

  /** Rule types that approve once enough of the chain has approved. */
  predicate UsesThreshold(t: RuleType)
  {
    t == Percentage || t == Hybrid
  }

  /** Rule types in which one named approver's approval suffices. */
  predicate UsesSpecificApprover(t: RuleType)
  {
    t == SpecificApprover || t == Hybrid
  }

  /** A row of `approval_rules`. */
  datatype Rule = Rule(
    companyId: int,
    ruleName: string,
    isManagerApprover: bool,
    ruleType: RuleType,
    percentageThreshold: Option<int>,
    specificApproverId: Option<int>,
    isActive: bool)

  /** A row of `approval_steps`. */
  datatype Step = Step(ruleId: int, stepOrder: int, approverId: int)

  datatype Status = Pending | Approved | Rejected

  /** A row of `expenses`.  Amounts, currencies and dates are kept as the text the
      request carried; the converted amount comes from the currency service. */
  datatype Expense = Expense(
    companyId: int,
    employeeId: int,
    approvalRuleId: Option<int>,
    amount: string,
    currency: string,
    convertedAmount: string,
    category: string,
    description: string,
    expenseDate: string,
    receiptPath: Option<string>,
    status: Status,
    currentStep: Option<int>)

  /** A row of `expense_approvals`, the approval ledger. */
  datatype ApprovalRecord = ApprovalRecord(
    expenseId: int,
    approverId: int,
    stepOrder: int,
    status: Status,
    comments: Option<string>,
    approvedAt: Option<int>)

  // ---------------------------------------------------------------------------
  // Row lookup and filtering

  /** The row with the given id, if the table has one. */
  function RowById<T>(table: seq<T>, id: int): (r: Option<T>)
    ensures r.Some? <==> 1 <= id <= |table|
    ensures r.Some? ==> r.value == table[id - 1]
  {
    if 1 <= id <= |table| then Some(table[id - 1]) else None
  }

  /** The rows that satisfy `keep`, in table order (a `WHERE` clause). */
  function Where<T>(s: seq<T>, keep: T -> bool): (r: seq<T>)
    ensures |r| <= |s|
    ensures forall k :: 0 <= k < |r| ==> keep(r[k])
  {
    if s == [] then []
    else Where(s[..|s| - 1], keep) + (if keep(s[|s| - 1]) then [s[|s| - 1]] else [])
  }

  lemma {:induction false} WhereAppend<T>(a: seq<T>, b: seq<T>, keep: T -> bool)
    ensures Where(a + b, keep) == Where(a, keep) + Where(b, keep)
  {
    if b == [] {
      assert a + b == a;
    } else {
      var n := |b| - 1;
      assert (a + b)[..|a + b| - 1] == a + b[..n];
      WhereAppend(a, b[..n], keep);
    }
  }

  /** Every row of `s` is dropped by `keep`. */
  lemma {:induction false} WhereNone<T>(s: seq<T>, keep: T -> bool)
    requires forall k :: 0 <= k < |s| ==> !keep(s[k])
    ensures Where(s, keep) == []
  {
    if s != [] {
      WhereNone(s[..|s| - 1], keep);
    }
  }

  /** Every row of `s` is kept by `keep`. */
  lemma {:induction false} WhereAll<T>(s: seq<T>, keep: T -> bool)
    requires forall k :: 0 <= k < |s| ==> keep(s[k])
    ensures Where(s, keep) == s
  {
    if s != [] {
      WhereAll(s[..|s| - 1], keep);
      assert s[..|s| - 1] + [s[|s| - 1]] == s;
    }
  }

  /** A row that `keep` accepts shows up in the filtered table. */
  lemma {:induction false} WhereKeepsRow<T>(s: seq<T>, keep: T -> bool, i: int)
    requires 0 <= i < |s| && keep(s[i])
    ensures exists k :: 0 <= k < |Where(s, keep)| && Where(s, keep)[k] == s[i]
  {
    var n := |s| - 1;
    if i == n {
      assert Where(s, keep)[|Where(s[..n], keep)|] == s[i];
    } else {
      WhereKeepsRow(s[..n], keep, i);
      var k :| 0 <= k < |Where(s[..n], keep)| && Where(s[..n], keep)[k] == s[..n][i];
      assert Where(s, keep)[k] == s[i];
    }
  }

  /** The ledger records of one expense, in ledger order. */
  function RecordsOf(approvals: seq<ApprovalRecord>, expenseId: int): seq<ApprovalRecord>
  {
    Where(approvals, (a: ApprovalRecord) => a.expenseId == expenseId)
  }

  /** The steps of one rule, in table order. */
  function StepsOf(steps: seq<Step>, ruleId: int): seq<Step>
  {
    Where(steps, (s: Step) => s.ruleId == ruleId)
  }

  // ---------------------------------------------------------------------------
  // Table invariants

  /** Step orders of a rule's steps run 1, 2, ..., n in table order. */
  predicate StepsNumbered(s: seq<Step>)
  {
    forall k :: 0 <= k < |s| ==> s[k].stepOrder == k + 1
  }

  /** Step orders of an expense's records run 1, 2, ..., n in ledger order. */
  predicate RecordsNumbered(rs: seq<ApprovalRecord>)
  {
    forall k :: 0 <= k < |rs| ==> rs[k].stepOrder == k + 1
  }

  predicate EmailsUnique(users: seq<User>)
  {
    forall i, j :: 0 <= i < j < |users| ==> users[i].email != users[j].email
  }

  /** Every step belongs to an existing rule, and each rule's steps are numbered
      from 1 in the order they were inserted. */
  ghost predicate StepsWellFormed(rules: seq<Rule>, steps: seq<Step>)
  {
    && (forall i :: 0 <= i < |steps| ==> 1 <= steps[i].ruleId <= |rules|)
    && (forall r :: StepsNumbered(StepsOf(steps, r)))
  }

  /** Every record belongs to an existing expense; records are grouped by expense in
      creation order; each expense's records are numbered from 1; and an expense's
      current step, when set, names one of its records. */
  ghost predicate LedgerWellFormed(expenses: seq<Expense>, approvals: seq<ApprovalRecord>)
  {
    && (forall i :: 0 <= i < |approvals| ==> 1 <= approvals[i].expenseId <= |expenses|)
    && (forall i, j :: 0 <= i < j < |approvals| ==> approvals[i].expenseId <= approvals[j].expenseId)
    && (forall e :: RecordsNumbered(RecordsOf(approvals, e)))
    && (forall i :: 0 <= i < |expenses| && expenses[i].currentStep.Some? ==>
          1 <= expenses[i].currentStep.value <= |RecordsOf(approvals, i + 1)|)
  }

  /** Two ledgers that differ at most in the status, comments and time stamp of
      their records. */
  predicate SameShape(a: seq<ApprovalRecord>, b: seq<ApprovalRecord>)
  {
    && |a| == |b|
    && forall k :: 0 <= k < |a| ==>
         a[k].expenseId == b[k].expenseId && a[k].approverId == b[k].approverId
         && a[k].stepOrder == b[k].stepOrder
  }

  lemma {:induction false} RecordsOfSameShape(a: seq<ApprovalRecord>, b: seq<ApprovalRecord>, e: int)
    requires SameShape(a, b)
    ensures SameShape(RecordsOf(a, e), RecordsOf(b, e))
  {
    if a != [] {
      var n := |a| - 1;
      assert SameShape(a[..n], b[..n]);
      RecordsOfSameShape(a[..n], b[..n], e);
    }
  }

  /** Changing only the status, comments or time stamp of records keeps the ledger
      well formed. */
  lemma LedgerShapeKeepsWellFormed(
    expenses: seq<Expense>, a: seq<ApprovalRecord>, expenses': seq<Expense>, b: seq<ApprovalRecord>)
    requires LedgerWellFormed(expenses, a)
    requires SameShape(a, b)
    requires |expenses'| == |expenses|
    requires forall i :: 0 <= i < |expenses| ==> expenses'[i].currentStep == expenses[i].currentStep
                                                  || (expenses'[i].currentStep.Some?
                                                      && 1 <= expenses'[i].currentStep.value <= |RecordsOf(a, i + 1)|)
    ensures LedgerWellFormed(expenses', b)
  {
    forall e
      ensures RecordsNumbered(RecordsOf(b, e)) && |RecordsOf(b, e)| == |RecordsOf(a, e)|
    {
      RecordsOfSameShape(a, b, e);
    }
  }

  /** The in-memory database: one sequence per table. */
  class Database {
    var users: seq<User>
    var rules: seq<Rule>
    var steps: seq<Step>
    var expenses: seq<Expense>
    var approvals: seq<ApprovalRecord>

    ghost predicate Valid()
      reads this
    {
      && EmailsUnique(users)
      && StepsWellFormed(rules, steps)
      && LedgerWellFormed(expenses, approvals)
    }

    /** A database holding the given users (created at company sign-up) and no
        rules or expenses yet. */
    constructor (initialUsers: seq<User>)
      requires EmailsUnique(initialUsers)
      ensures Valid()
      ensures users == initialUsers && rules == [] && steps == []
      ensures expenses == [] && approvals == []
    {
      users := initialUsers;
      rules := [];
      steps := [];
      expenses := [];
      approvals := [];
    }
  }
}
