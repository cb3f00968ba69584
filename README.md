# Expense approval workflow

A Dafny model of the backend's expense approval workflow: the three controllers
that file expenses, route them through a chain of approvers and let those approvers
decide, that administer approval rules, and that maintain the user directory the
chain is built from.

The database is held in memory by `Store.Database`, one `seq` per table: `users`,
`approval_rules`, `approval_steps`, `expenses` and `expense_approvals` (the approval
ledger). A row's id is its position plus one and rows are never removed: ids are
handed out in insertion order, but an id taken by a rolled-back insert is reused
here (see "Left out"). Each controller action is a module-level method that takes
the `Database` object. It returns `Ok` or an error value in place of an HTTP status, and its `ensures`
state the whole new state of the tables it touches. `Database.Valid()` is kept by
every action. It says:

- emails are unique (as exact text);
- every step belongs to an existing rule, and each rule's steps are numbered 1..n;
- every ledger record belongs to an existing expense;
- the ledger is grouped by expense in creation order;
- each expense's records are numbered 1..n;
- an expense's current step, when set, names one of its records.

The SQL queries are pure functions over the tables. The JavaScript loops (the step
loop of rule creation, the `forEach` of chain building, the insert loops, the
decoding loop of the employee listing) are `while` loops proved against those
functions.

Modules:

- `Common`: options, results, and JavaScript truthiness of request fields.
- `Store`: rows, the `Where` filter, the table invariants, the database.
- `UserController`: `createUser`, `updateUser`, `deleteUser`.
- `ApprovalController`: `createApprovalRule`, `getApprovalRules`, `updateApprovalRule`.
- `ApproverChain`: the approver chain `createExpense` builds.
- `ChainFormat`: the `order:status:name|...` text of `getEmployeeExpenses` and its decoding.
- `DecisionEngine`: the guards and precedence of `approveOrRejectExpense`, as the function `Decide`.
- `ExpenseController`: the expense actions and the two ledger listings.

## Model

| member | source | states |
|---|---|---|
| UserController.CreatableRole | backend/controllers/userController.js:15-17 | a role is accepted exactly for `employee` and `manager`; admin is never creatable |
| UserController.AnyRole | backend/controllers/userController.js:116 | an update accepts exactly `employee`, `manager` and `admin`, and agrees with creation on the first two |
| UserController.CheckNewUser | backend/controllers/userController.js:10-39 | creation is allowed iff all five fields are given, the role is creatable, the email is unused in every company, and a truthy manager is a manager or admin of the same company; each of the four errors is reported iff its own guard fails and every earlier guard passes |
| UserController.CreateUser | backend/controllers/userController.js:4-48 | on success the user is appended, active, with a falsy manager stored as null, under id n+1; on error the table is unchanged; emails stay unique |
| UserController.EmailsUniqueKeptByUpdate | backend/controllers/userController.js:144-147 | rewriting a row without touching its email keeps emails unique |
| UserController.UpdateUser | backend/controllers/userController.js:88-147 | 404 iff the user is not in the caller's company; invalid manager iff a truthy manager id names no manager candidate; 400 iff no field is supplied; no other error, so a valid update succeeds; on success only that user's row changes, field by field as supplied, email and company kept; on error nothing changes |
| UserController.BuildUpdate | backend/controllers/userController.js:105-136 | the SET list leaves the row with exactly the supplied fields changed (an undefined manager kept, a falsy one cleared), counts zero items iff nothing is supplied, and fails iff a truthy manager id is not a manager candidate |
| UserController.CheckDelete | backend/controllers/userController.js:162-173 | 404 iff the user is not in the company; refused iff the user is an admin; allowed otherwise |
| UserController.DeleteUser | backend/controllers/userController.js:156-176 | a successful delete only clears the user's active flag, and the row stays; a refused one changes nothing |
| UserController.DeleteSparesAdmins | backend/controllers/userController.js:171-176 | after a successful delete every admin row is exactly as before |
| ApprovalController.ParseRuleType | backend/controllers/approvalController.js:26-29 | a rule type is accepted exactly for its four spellings |
| ApprovalController.ValidateRule | backend/controllers/approvalController.js:21-39 | a rule passes iff it has a name and a valid type, a truthy threshold when the type uses one and a truthy specific approver when the type uses one; each error is reported under its exact condition; no range is checked |
| ApprovalController.NewRule | backend/controllers/approvalController.js:42-53 | manager approval is on unless the request says exactly `false`; a threshold or approver is stored iff truthy; the rule starts active in the caller's company |
| ApprovalController.NumberedSteps | backend/controllers/approvalController.js:59-76 | listed approver i gets a step with order i+1, one step per approver |
| ApprovalController.FirstOutsider | backend/controllers/approvalController.js:59-71 | none iff every listed approver is a user of the company; otherwise the first approver who is not |
| ApprovalController.NewRuleStepsWellFormed | backend/controllers/approvalController.js:42-77 | appending a new rule and its numbered steps keeps every rule's steps numbered 1..n |
| ApprovalController.CreateApprovalRule | backend/controllers/approvalController.js:3-93 | a validation error changes nothing; an outsider among the approvers of a sequential or hybrid rule reports that approver and rolls everything back; otherwise the rule is appended with id n+1 and, for sequential and hybrid rules only, its numbered steps |
| ApprovalController.InsertRule | backend/controllers/approvalController.js:42-80 | the transaction inserts the rule and, for step-using types, its numbered steps; an outsider restores both tables exactly |
| ApprovalController.InsertSteps | backend/controllers/approvalController.js:58-78 | the step loop reports the first outsider, and the steps inserted so far are those of the approvers before it |
| ApprovalController.UpdateApprovalRule | backend/controllers/approvalController.js:130-153 | 404 iff the rule is not in the caller's company; only the active flag changes, and only for a boolean input; otherwise it is a successful no-op |
| ApprovalController.ActiveRules | backend/controllers/approvalController.js:99-108 | the listing holds exactly the company's active rules, each once, newest first, each with its specific approver's name from the joined user row |
| ApprovalController.SpecificApproverName | backend/controllers/approvalController.js:101-104 | the left join gives the first and last name of the user row the rule's specific approver names, and null iff there is none |
| ApprovalController.ActiveRulesAmongSound | backend/controllers/approvalController.js:99-108 | every listed row is an active rule of the company |
| ApprovalController.ActiveRulesAmongComplete | backend/controllers/approvalController.js:99-108 | every active rule of the company is listed |
| ApprovalController.ActiveRulesAmongNewestFirst | backend/controllers/approvalController.js:106 | listed ids strictly decrease |
| ApprovalController.StepRows | backend/controllers/approvalController.js:112-119 | each listed step row is one of the rule's steps joined with its approver's user row (name and email); numbered steps are listed in increasing order; with every approver present no step is dropped |
| ApprovalController.GetApprovalRules | backend/controllers/approvalController.js:95-123 | one view per listed rule, in listing order, each with its steps sorted by step order |
| ApproverChain.ApplicableRule | backend/controllers/expenseController.js:37-44 | a rule applies iff the id is truthy and names an active rule of the submitter's company |
| ApproverChain.Chain | backend/controllers/expenseController.js:47-72 | the chain's orders run 1..n |
| ApproverChain.StepEntries | backend/controllers/expenseController.js:68-71 | one entry per step, in step order, numbered on from the start order |
| ApproverChain.ChainMembers | backend/controllers/expenseController.js:49-72 | the chain is the manager (when consulted and set), then every step's approver in order, and nobody else |
| ApproverChain.NoRuleNoManagerNoApprovers | backend/controllers/expenseController.js:49-59 | with no rule and no manager the chain is empty |
| ApproverChain.ManagerIsSoleFirst | backend/controllers/expenseController.js:49-59 | a leading manager is the only order-1 entry, and is alone when the rule adds no steps |
| ApproverChain.ThresholdRulesChainAtMostManager | backend/controllers/expenseController.js:61-72 | a percentage or specific-approver rule gives at most the manager, exactly when manager approval is on and a manager exists |
| ApproverChain.StepsAloneRenumberedFromOne | backend/controllers/expenseController.js:61-72 | without manager approval the chain is the rule's steps renumbered from 1 |
| ApproverChain.ManagerListedTwice | backend/controllers/expenseController.js:49-72 | the chain is not de-duplicated: a manager who is also the first step appears at orders 1 and 2 |
| ApproverChain.InactiveRuleIgnored | backend/controllers/expenseController.js:38-50 | a deactivated rule does not apply, and the chain is the one with no rule |
| ApproverChain.ForeignRuleIgnored | backend/controllers/expenseController.js:38-44 | a rule of another company does not apply |
| ChainFormat.Split | backend/controllers/expenseController.js:165-166 | splitting gives at least one piece, none holding the separator |
| ChainFormat.SplitJoin | backend/controllers/expenseController.js:165-166 | splitting undoes joining when no piece holds the separator |
| ChainFormat.JoinSplit | backend/controllers/expenseController.js:165-166 | joining the pieces of a split restores every text |
| ChainFormat.IntToString | backend/controllers/expenseController.js:144 | a printed step order holds neither separator, colon or bar |
| ChainFormat.StatusText | backend/controllers/expenseController.js:144 | a status text holds neither separator, colon or bar |
| ChainFormat.ParseIntInverse | backend/controllers/expenseController.js:167 | `parseInt` of a printed integer gives the integer back |
| ChainFormat.ChainItems | backend/controllers/expenseController.js:144-147 | the items are the records in ledger order with their approvers' full names; with every approver present none is dropped |
| ChainFormat.EncodeChain | backend/controllers/expenseController.js:144 | the chain is null exactly when there is no item |
| ChainFormat.ParseChain | backend/controllers/expenseController.js:163-171 | a null chain gives an empty list; otherwise one item per piece between bars |
| ChainFormat.DecodeEncodedItem | backend/controllers/expenseController.js:165-168 | decoding an encoded item gives its order, status and name back when the name is plain |
| ChainFormat.ChainRoundTrip | backend/controllers/expenseController.js:144-171 | decoding the chain text gives back every item, in order, when no name holds a colon or a bar |
| ChainFormat.ColonCutsName | backend/controllers/expenseController.js:166 | a name holding `:` comes back cut at its first `:` |
| DecisionEngine.ParseAction | backend/controllers/expenseController.js:215-217 | an action is accepted exactly for `approve` and `reject` |
| DecisionEngine.FindPendingRecord | backend/controllers/expenseController.js:233-243 | none iff the approver has no pending record on the expense; otherwise the first such record |
| DecisionEngine.CountRecordsCountsRecordsOf | backend/controllers/expenseController.js:290-293 | `COUNT(*)` is the number of the expense's records |
| DecisionEngine.CountApproved | backend/controllers/expenseController.js:290-293 | the approved count never exceeds the total |
| DecisionEngine.NextPending | backend/controllers/expenseController.js:308-311 | the smallest step order among the expense's pending records after the acting step, none iff there is none |
| DecisionEngine.Decide | backend/controllers/expenseController.js:204-325 | 400 iff the action is invalid; 404 iff it is valid and the expense is not pending; 403 iff both pass and the approver has no pending record; on success the acting record awaited this approver, and the outcome is a rejection iff the action is reject |
| DecisionEngine.ExpenseAfter | backend/controllers/expenseController.js:257-325 | a rejection rejects the expense, moving to a step only sets the current step, every other outcome approves it, and no other field changes |
| DecisionEngine.ApprovalCountsActingRecord | backend/controllers/expenseController.js:246-293 | approving a pending record adds exactly one to its expense's approved count and leaves the total unchanged |
| DecisionEngine.RejectionIsFinal | backend/controllers/expenseController.js:257-266 | a rejection by an awaited approver rejects the record and the expense, whatever the rule |
| DecisionEngine.SpecificApproverOverrides | backend/controllers/expenseController.js:277-286 | the specific approver of a specific-approver or hybrid rule approves outright |
| DecisionEngine.ThresholdUsesCountIncludingActor | backend/controllers/expenseController.js:289-305 | a threshold approval happens iff the approvals so far plus this one reach the threshold share of all the expense's records |
| DecisionEngine.ApprovalPrecedence | backend/controllers/expenseController.js:268-325 | for every successful approval: the override iff the stored rule names this approver; the threshold iff no override and the approvals so far plus this one reach it; otherwise the next pending step after the acting one, or approval at the end |
| DecisionEngine.SequentialAdvance | backend/controllers/expenseController.js:308-325 | otherwise the expense moves to the smallest later pending step and stays pending, or is approved when no later step is pending |
| DecisionEngine.DecidedExpenseIsClosed | backend/controllers/expenseController.js:219-228 | after an approval or rejection, every later decision on the expense gets 404 |
| DecisionEngine.StepOrderWithinRecords | backend/controllers/expenseController.js:74-80 | in a well-formed ledger a record's step order is between 1 and its expense's record count |
| DecisionEngine.NextStepWithinRecords | backend/controllers/expenseController.js:313-318 | the step an approval moves to is one of the expense's step numbers |
| DecisionEngine.DecisionKeepsLedgerWellFormed | backend/controllers/expenseController.js:245-325 | every successful decision keeps the ledger well formed |
| DecisionEngine.OutOfTurnApprovalSkipsAhead | backend/controllers/expenseController.js:308-318 | the step-2 approver may act at step 1; the expense jumps to step 3 while step 1 stays pending |
| DecisionEngine.LastStepApprovesOverPendingEarlierStep | backend/controllers/expenseController.js:319-325 | the last step's approval approves the expense while an earlier step is still pending |
| DecisionEngine.SpecificApproverOutsideChain | backend/controllers/expenseController.js:277-286 | a specific approver who holds no record gets 403, and the manager alone finishes the expense |
| DecisionEngine.DeactivatedRuleStillDecides | backend/controllers/expenseController.js:268-274 | a rule deactivated after filing still lets its specific approver approve |
| DecisionEngine.ForeignRuleStillDecides | backend/controllers/expenseController.js:268-274 | a stored rule id naming another company's rule still lets that rule's specific approver approve outright |
| ExpenseController.ConvertedAmount | backend/controllers/expenseController.js:22 | the amount is kept when the currencies agree; otherwise the quoted conversion, which may have failed |
| ExpenseController.ChainRecords | backend/controllers/expenseController.js:75-80 | one record per chain entry, in chain order |
| ExpenseController.NewRecordsNumberedAndPending | backend/controllers/expenseController.js:75-80 | a new expense's records are numbered 1..n, all pending, all its own, and they are all the records it has |
| ExpenseController.NewExpenseLedgerWellFormed | backend/controllers/expenseController.js:28-88 | filing an expense with numbered records and current step 1 iff it has records keeps the ledger well formed |
| ExpenseController.FiledLedgerWellFormed | backend/controllers/expenseController.js:74-88 | the filed expense, with current step 1 iff its chain is non-empty, and its chain's records keep the ledger well formed |
| ExpenseController.BuildApprovers | backend/controllers/expenseController.js:47-72 | the pushes build exactly `Chain`; it fails iff the manager is consulted and the submitter has no user row |
| ExpenseController.AppendStepEntries | backend/controllers/expenseController.js:68-71 | the `forEach` appends the steps' entries numbered on from the start order |
| ExpenseController.InsertRecords | backend/controllers/expenseController.js:75-80 | the insert loop appends exactly the chain's records |
| ExpenseController.CreateExpense | backend/controllers/expenseController.js:5-106 | 400 iff a required field is missing; server error iff the conversion fails or the submitter has no user row when the manager is consulted, with nothing kept; otherwise the expense is appended with the requested rule id as given, current step 1 iff the chain is non-empty, and one pending record per chain entry |
| ExpenseController.FileExpense | backend/controllers/expenseController.js:28-88 | the transaction appends the expense and its chain's records, or rolls back the insert |
| ExpenseController.ApprovalOutcomeOf | backend/controllers/expenseController.js:268-325 | the override iff the rule names the approver; the threshold iff no override and the ledger's counts reach it; otherwise the next pending step or approval at the end, as `Decide` specifies |
| ExpenseController.ManagerAsSpecificApproverOverrides | backend/controllers/expenseController.js:47-88 | a specific-approver rule whose specific approver is the submitter's manager files a chain of the manager alone, and the manager's approval is the override |
| ExpenseController.ApproveOrRejectExpense | backend/controllers/expenseController.js:204-328 | exactly what `Decide` says: errors change nothing; on success only the acting record and the expense change; the database stays valid |
| ExpenseController.PendingApprovals | backend/controllers/expenseController.js:186-195 | the queue holds exactly the approver's pending records on pending expenses whose submitter has a row, each showing its record and expense, newest first |
| ExpenseController.QueueAmongSound | backend/controllers/expenseController.js:186-195 | every queued row shows a record in the approver's queue |
| ExpenseController.QueueAmongComplete | backend/controllers/expenseController.js:186-195 | every record in the approver's queue is listed |
| ExpenseController.QueueAmongNewestFirst | backend/controllers/expenseController.js:193 | queued record ids strictly decrease |
| ExpenseController.QueueNewestExpenseFirst | backend/controllers/expenseController.js:193 | in a well-formed ledger the queue lists newer expenses first |
| ExpenseController.DecisionLeavesQueue | backend/controllers/expenseController.js:192 | after a decision the acting record is no longer queued |
| ExpenseController.EmployeeRows | backend/controllers/expenseController.js:142-160 | the listing holds exactly the employee's expenses passing the status filter, each once with its entry of the chain column (`ChainColumn`, the `GROUP_CONCAT` per expense), newest first |
| ExpenseController.SelectedAmongSound | backend/controllers/expenseController.js:142-160 | every id chosen among the first n expenses is at most n and names an expense of the employee passing the status filter |
| ExpenseController.SelectedAmongComplete | backend/controllers/expenseController.js:142-160 | every expense among the first n of the employee that passes the status filter is chosen |
| ExpenseController.SelectedAmongNewestFirst | backend/controllers/expenseController.js:158 | the chosen ids strictly decrease |
| ExpenseController.RowsFor | backend/controllers/expenseController.js:142-160 | one row per id, in order, pairing the expense with its entry of the chain column |
| ExpenseController.GetEmployeeExpenses | backend/controllers/expenseController.js:137-175 | one view per listed row, in order, with the chain decoded and the raw text dropped |
| ExpenseController.DecodeChains | backend/controllers/expenseController.js:163-173 | the decoding loop maps every row, in order |
| ExpenseController.NoRecordsNoApprovals | backend/controllers/expenseController.js:164-171 | an expense without records has a null chain and an empty `approvals` list |
| ExpenseController.ListedChainShowsLedger | backend/controllers/expenseController.js:144-171 | with plain names, the decoded chain of an expense lists its records in step order: order k+1, the record's status, the approver's full name |
| ExpenseController.ChainItemsPlain | backend/controllers/expenseController.js:144-147 | the chain items of numbered records carry each record's step order, status and approver name, none holding a separator |
| ExpenseController.RecordsChainShown | backend/controllers/expenseController.js:144-171 | the same for any numbered record list |

## Behaviour of the code worth knowing

The model follows the code. These behaviours are each stated by a lemma above:

- Nothing compares the acting record's step with the expense's current step. The
  step-2 approver may approve while the expense waits at step 1, and the expense
  jumps ahead (`OutOfTurnApprovalSkipsAhead`).
- When no later step is pending the expense is approved, even though an earlier
  step's record is still pending (`LastStepApprovesOverPendingEarlierStep`).
- A specific-approver rule gives the chain at most the manager, and an approver
  without a record is refused with 403 (`SpecificApproverOutsideChain`). So the
  override fires only for an approver who holds a record (`ApprovalPrecedence`):
  under a specific-approver rule that is the submitter's manager when the manager
  is also the specific approver (`ManagerAsSpecificApproverOverrides`); under a
  hybrid rule, a step or the manager. The rule is fetched by the id stored on the
  expense alone, so an inactive rule or another company's rule can also fire it
  (`DeactivatedRuleStillDecides`, `ForeignRuleStillDecides`).
- The chain is not de-duplicated (`ManagerListedTwice`).
- At decision time the rule is fetched by id alone, so a deactivated rule still
  decides (`DeactivatedRuleStillDecides`). At filing time the expense keeps the
  requested rule id even when that id names no applicable rule (`CreateExpense`).
- A name holding `:` comes back cut in the employee listing (`ColonCutsName`).

## Left out

- Connections, transactions and their rollback: each action is one atomic method. A
  rollback restores the saved tables, but not the auto-increment counters, which
  the model does not keep. Concurrent requests are not modelled.
- ApprovalController.CreateApprovalRule: after an insert rolled back for an
  approver outside the company, the next rule gets id n+1 here; the database
  does not give back an auto-increment id, so the program hands out n+2. Ids are
  positions in this model, so the gap is not modelled.
- ExpenseController.CreateExpense: likewise, an expense insert rolled back after a
  server error leaves a gap in the program's expense ids, which the model does not
  have.
- UserController.EmailExists: emails are compared as exact text. The schema is not
  part of this model; under a case-insensitive collation (MySQL's default) the
  program also refuses an email differing only in letter case, so "emails are
  unique" here means unique as exact text.
- ExpenseController.Selected: the status filter is compared as exact text; a
  case-insensitive collation would also accept the filter in other letter cases.
- Audit log inserts (backend/controllers/expenseController.js:91-94, 252-255): they
  affect no decision.
- The currency service (backend/utils/currency.js): its HTTP lookup, rate and
  `toFixed` rounding are the `quote` parameter of `CreateExpense`; `None` is the
  thrown error.
- `createExpenseWithOCR`, `getAllExpenses` and `getAllUsers`: OCR is an external
  library; the other two are plain listings with no rule beyond their query.
- Password hashing with bcrypt: the password is only checked for presence, and the
  hash is not stored.
- Authentication: the caller's id, company and currency are parameters.
- DecisionEngine.ThresholdMet: exact integer cross-multiplication in place of the
  floating-point `approved / total * 100 >= threshold`. A null threshold compares
  as 0, and no records is the not-a-number quotient, which fails.
- DecisionEngine.FindPendingRecord: `approvals[0]` of an unordered query is taken
  to be the record with the lowest id.
- ExpenseController.EmployeeRows, ExpenseController.PendingApprovals and
  ApprovalController.ActiveRules: `ORDER BY created_at DESC` is modelled as
  descending id, since rows are created in id order. Ties between records of one
  expense in the queue are listed newest record first.
- ChainFormat.EncodeChain: the `group_concat_max_len` truncation of long chains is
  not modelled.
- ChainFormat.ParseInt: leading whitespace, which `parseInt` skips, is not
  modelled; printed step orders never hold any.
- Request bodies are typed: amounts, dates and names are text, ids and thresholds
  are integers, and an absent or null field is `None` or the empty text. A
  non-boolean `isActive` is `None`.
- The `pending` status of a new expense, the active flag of a new user and the
  active flag of a new rule come from column defaults outside the controllers; the
  model sets them on insert (`CreateExpense`, `CreateUser`, `NewRule`).
- Routes, server wiring, migrations and all frontend code are not part of this
  model.
