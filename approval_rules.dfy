/** Rule administration: validating and creating approval rules with their
    numbered steps, switching a rule on or off, and listing a company's active
    rules. */
module ApprovalController {
  import opened Common
  import opened Store
  import UserController

  datatype RuleError =
    | MissingNameOrType              // 400 "Rule name and type are required"
    | InvalidRuleType                // 400 "Invalid rule type"
    | ThresholdRequired              // 400 "Percentage threshold required ..."
    | SpecificApproverRequired       // 400 "Specific approver required ..."
    | InvalidApprover(approverId: int) // 400 "Invalid approver ID: ..."
    | RuleNotFound                   // 404

  /** The four accepted spellings of a rule type. */
  function ParseRuleType(s: string): (r: Option<RuleType>)
    ensures r.Some? <==> s == "sequential" || s == "percentage" || s == "specific_approver" || s == "hybrid"
  {
    if s == "sequential" then Some(Sequential)
    else if s == "percentage" then Some(Percentage)
    else if s == "specific_approver" then Some(SpecificApprover)
    else if s == "hybrid" then Some(Hybrid)
    else None
  }

  /** The guards of `createApprovalRule`, in the source's order.  A threshold or a
      specific approver is demanded only by the rule types that use it, and only
      its truthiness is checked: no range, no company membership. */
  function ValidateRule(
    ruleName: string, ruleTypeText: string, threshold: Option<int>, specificApproverId: Option<int>)
    : (r: Result<RuleType, RuleError>)
    ensures r.Ok? <==>
              && Given(ruleName) && ParseRuleType(ruleTypeText).Some?
              && (UsesThreshold(ParseRuleType(ruleTypeText).value) ==> Truthy(threshold))
              && (UsesSpecificApprover(ParseRuleType(ruleTypeText).value) ==> Truthy(specificApproverId))
    ensures r.Ok? ==> Some(r.value) == ParseRuleType(ruleTypeText)
    ensures r == Err(MissingNameOrType) <==> !Given(ruleName) || !Given(ruleTypeText)
    ensures r == Err(InvalidRuleType) <==>
              Given(ruleName) && Given(ruleTypeText) && ParseRuleType(ruleTypeText).None?
    ensures r == Err(ThresholdRequired) <==>
              && Given(ruleName) && ParseRuleType(ruleTypeText).Some?
              && UsesThreshold(ParseRuleType(ruleTypeText).value) && !Truthy(threshold)
    ensures r.Err? ==> !r.error.InvalidApprover? && r.error != RuleNotFound
  {
    if !Given(ruleName) || !Given(ruleTypeText) then Err(MissingNameOrType)
    else
      match ParseRuleType(ruleTypeText)
      case None => Err(InvalidRuleType)
      case Some(t) =>
        if UsesThreshold(t) && !Truthy(threshold) then Err(ThresholdRequired)
        else if UsesSpecificApprover(t) && !Truthy(specificApproverId) then Err(SpecificApproverRequired)
        else Ok(t)
  }

  /** The rule row `createApprovalRule` inserts: manager approval is on unless the
      request says exactly `false`; falsy threshold and approver are stored as null;
      the rule starts active. */
  function NewRule(
    companyId: int, ruleName: string, isManagerApprover: Option<bool>, ruleType: RuleType,
    threshold: Option<int>, specificApproverId: Option<int>): (rule: Rule)
    ensures rule.isManagerApprover <==> isManagerApprover != Some(false)
    ensures rule.percentageThreshold.Some? <==> Truthy(threshold)
    ensures rule.specificApproverId.Some? <==> Truthy(specificApproverId)
    ensures rule.isActive && rule.companyId == companyId && rule.ruleType == ruleType
  {
    Rule(companyId, ruleName, isManagerApprover != Some(false), ruleType,
         OrNull(threshold), OrNull(specificApproverId), true)
  }

  /** The step rows for a rule's approver list: approver i (from 0) gets order i + 1. */
  function NumberedSteps(ruleId: int, approvers: seq<int>): (s: seq<Step>)
    ensures |s| == |approvers|
    ensures forall k :: 0 <= k < |s| ==> s[k] == Step(ruleId, k + 1, approvers[k])
  {
    if approvers == [] then []
    else
      var last := |approvers| - 1;
      NumberedSteps(ruleId, approvers[..last]) + [Step(ruleId, last + 1, approvers[last])]
  }

  /** The position of the first listed approver who is not a user of the company. */
  function FirstOutsider(users: seq<User>, companyId: int, approvers: seq<int>): (r: Option<nat>)
    ensures r.None? <==> forall k :: 0 <= k < |approvers| ==> UserController.InCompany(users, approvers[k], companyId)
    ensures r.Some? ==> && r.value < |approvers|
                        && !UserController.InCompany(users, approvers[r.value], companyId)
                        && forall k :: 0 <= k < r.value ==> UserController.InCompany(users, approvers[k], companyId)
    decreases |approvers|
  {
    if approvers == [] then None
    else if !UserController.InCompany(users, approvers[0], companyId) then Some(0)
    else match FirstOutsider(users, companyId, approvers[1..])
      case None => None
      case Some(k) => Some(k + 1)
  }

  /** Appending the steps of a brand-new rule keeps the step table well formed. */
  lemma {:induction false} NewRuleStepsWellFormed(rules: seq<Rule>, steps: seq<Step>, rule: Rule, approvers: seq<int>)
    requires StepsWellFormed(rules, steps)
    ensures StepsWellFormed(rules + [rule], steps + NumberedSteps(|rules| + 1, approvers))
  {
    var id := |rules| + 1;
    var added := NumberedSteps(id, approvers);
    forall r
      ensures StepsNumbered(StepsOf(steps + added, r))
    {
      WhereAppend(steps, added, (s: Step) => s.ruleId == r);
      if r == id {
        WhereNone(steps, (s: Step) => s.ruleId == r);
        WhereAll(added, (s: Step) => s.ruleId == r);
      } else {
        WhereNone(added, (s: Step) => s.ruleId == r);
        assert StepsOf(steps + added, r) == StepsOf(steps, r);
      }
    }
  }

  /** `createApprovalRule`: validates the request, inserts the rule and, for
      sequential and hybrid rules, one step per listed approver numbered from 1.
      The whole creation is one transaction: when a listed approver is not a user
      of the company, the rule row and every step inserted so far are rolled back. */
  method CreateApprovalRule(
    db: Database, companyId: int, ruleName: string, isManagerApprover: Option<bool>,
    ruleTypeText: string, threshold: Option<int>, specificApproverId: Option<int>,
    approvers: seq<int>)
    returns (r: Result<int, RuleError>)
    requires db.Valid()
    modifies db`rules, db`steps
    ensures db.Valid()
    ensures var v := ValidateRule(ruleName, ruleTypeText, threshold, specificApproverId);
            && (v.Err? ==> r == Err(v.error))
            && (v.Ok? ==>
                  var outsider := if UsesSteps(v.value) then FirstOutsider(old(db.users), companyId, approvers) else None;
                  && (outsider.Some? ==> r == Err(InvalidApprover(approvers[outsider.value])))
                  && (outsider.None? ==>
                        && r == Ok(|old(db.rules)| + 1)
                        && db.rules == old(db.rules)
                             + [NewRule(companyId, ruleName, isManagerApprover, v.value, threshold, specificApproverId)]
                        && db.steps == old(db.steps)
                             + (if UsesSteps(v.value) then NumberedSteps(r.value, approvers) else [])))
    ensures r.Err? ==> db.rules == old(db.rules) && db.steps == old(db.steps)
  {
    var v := ValidateRule(ruleName, ruleTypeText, threshold, specificApproverId);
    if v.Err? {
      return Err(v.error);
    }
    var rule := NewRule(companyId, ruleName, isManagerApprover, v.value, threshold, specificApproverId);
    var outsider := InsertRule(db, rule, approvers);
    if outsider.Some? {
      return Err(InvalidApprover(approvers[outsider.value]));
    }
    r := Ok(|db.rules|);
  }

  /** The transaction of `createApprovalRule`: inserts the rule and, for sequential
      and hybrid rules, its steps; the first listed approver who is not a user of
      the rule's company rolls the rule and its steps back. */
  method InsertRule(db: Database, rule: Rule, approvers: seq<int>) returns (outsider: Option<nat>)
    requires StepsWellFormed(db.rules, db.steps)
    modifies db`rules, db`steps
    ensures StepsWellFormed(db.rules, db.steps)
    ensures outsider == if UsesSteps(rule.ruleType) then FirstOutsider(old(db.users), rule.companyId, approvers) else None
    ensures outsider.Some? ==> db.rules == old(db.rules) && db.steps == old(db.steps)
    ensures outsider.None? ==>
              && db.rules == old(db.rules) + [rule]
              && db.steps == old(db.steps)
                   + (if UsesSteps(rule.ruleType) then NumberedSteps(|old(db.rules)| + 1, approvers) else [])
  {
    // Transaction start: what a rollback restores.
    var savedRules, savedSteps := db.rules, db.steps;
    var ruleId := |savedRules| + 1;
    db.rules := savedRules + [rule];
    if UsesSteps(rule.ruleType) && |approvers| > 0 {
      outsider := InsertSteps(db, ruleId, rule.companyId, approvers);
      if outsider.Some? {
        db.rules, db.steps := savedRules, savedSteps;
        return;
      }
      assert db.steps == savedSteps + NumberedSteps(ruleId, approvers);
      NewRuleStepsWellFormed(savedRules, savedSteps, rule, approvers);
    } else {
      outsider := None;
      assert UsesSteps(rule.ruleType) ==> approvers == [];
      assert NumberedSteps(ruleId, []) == [];
      assert db.steps == savedSteps + NumberedSteps(ruleId, []);
      NewRuleStepsWellFormed(savedRules, savedSteps, rule, []);
    }
  }

  /** The step loop of `createApprovalRule`: inserts one step per listed approver,
      numbered from 1, and stops at the first approver who is not a user of the
      company, reporting that approver's position with the steps inserted before
      it still in place for the caller to roll back. */
  method InsertSteps(db: Database, ruleId: int, companyId: int, approvers: seq<int>)
    returns (outsider: Option<nat>)
    modifies db`steps
    ensures outsider == FirstOutsider(db.users, companyId, approvers)
    ensures outsider.None? ==> db.steps == old(db.steps) + NumberedSteps(ruleId, approvers)
    ensures outsider.Some? ==> db.steps == old(db.steps) + NumberedSteps(ruleId, approvers[..outsider.value])
  {
    var i := 0;
    while i < |approvers|
      invariant 0 <= i <= |approvers|
      invariant db.steps == old(db.steps) + NumberedSteps(ruleId, approvers[..i])
      invariant forall k :: 0 <= k < i ==> UserController.InCompany(db.users, approvers[k], companyId)
    {
      if !UserController.InCompany(db.users, approvers[i], companyId) {
        return Some(i);
      }
      db.steps := db.steps + [Step(ruleId, i + 1, approvers[i])];
      i := i + 1;
      assert approvers[..i][..i - 1] == approvers[..i - 1];
    }
    assert approvers[..i] == approvers;
    outsider := None;
  }

  /** The rule exists and belongs to the company. */
  predicate RuleInCompany(rules: seq<Rule>, ruleId: int, companyId: int)
  {
    1 <= ruleId <= |rules| && rules[ruleId - 1].companyId == companyId
  }

  /** `updateApprovalRule`: a rule of another company is not found; otherwise only
      the active flag changes, and only when the request carries a boolean. */
  method UpdateApprovalRule(db: Database, companyId: int, ruleId: int, isActive: Option<bool>)
    returns (r: Result<(), RuleError>)
    requires db.Valid()
    modifies db`rules
    ensures db.Valid()
    ensures r.Err? <==> !RuleInCompany(old(db.rules), ruleId, companyId)
    ensures r.Err? ==> r.error == RuleNotFound
    ensures r.Err? || isActive.None? ==> db.rules == old(db.rules)
    ensures r.Ok? && isActive.Some? ==>
              db.rules == old(db.rules)[ruleId - 1 := old(db.rules)[ruleId - 1].(isActive := isActive.value)]
  {
    if !RuleInCompany(db.rules, ruleId, companyId) {
      return Err(RuleNotFound);
    }
    if isActive.Some? {
      db.rules := db.rules[ruleId - 1 := db.rules[ruleId - 1].(isActive := isActive.value)];
    }
    r := Ok(());
  }

  /** A row of the rule listing: the rule, its id, and the name of its specific
      approver when that user exists. */
  datatype RuleRow = RuleRow(id: int, rule: Rule, specificApproverName: Option<(string, string)>)

  /** A step as listed, joined with its approver's user row. */
  datatype StepRow = StepRow(stepOrder: int, approverId: int, firstName: string, lastName: string, email: string)

  datatype RuleView = RuleView(row: RuleRow, approvalSteps: seq<StepRow>)

  /** `LEFT JOIN users` on the specific approver: the first and last name of the
      user row the rule names, or null when it names none. */
  function SpecificApproverName(users: seq<User>, rule: Rule): (r: Option<(string, string)>)
    ensures r.Some? <==> rule.specificApproverId.Some? && 1 <= rule.specificApproverId.value <= |users|
    ensures r.Some? ==> var u := users[rule.specificApproverId.value - 1];
                        r.value == (u.firstName, u.lastName)
  {
    if rule.specificApproverId.Some? && 1 <= rule.specificApproverId.value <= |users| then
      var u := users[rule.specificApproverId.value - 1];
      Some((u.firstName, u.lastName))
    else None
  }

  /** The rule `id` exists, belongs to the company and is active. */
  predicate ActiveIn(rules: seq<Rule>, id: int, companyId: int)
  {
    1 <= id <= |rules| && rules[id - 1].companyId == companyId && rules[id - 1].isActive
  }

  /** The row lists the active rule of the company that has its id, with its
      specific approver's name. */
  predicate RowOf(rules: seq<Rule>, users: seq<User>, row: RuleRow, companyId: int)
  {
    && ActiveIn(rules, row.id, companyId) && row.rule == rules[row.id - 1]
    && row.specificApproverName == SpecificApproverName(users, row.rule)
  }

  /** Some row of the listing is the rule with this id. */
  predicate Listed(rows: seq<RuleRow>, id: int)
  {
    exists k :: 0 <= k < |rows| && rows[k].id == id
  }

  /** The rule query of `getApprovalRules`: the company's active rules, newest
      first (rules are created in id order). */
  function ActiveRules(rules: seq<Rule>, users: seq<User>, companyId: int): (rows: seq<RuleRow>)
    ensures forall k :: 0 <= k < |rows| ==> RowOf(rules, users, rows[k], companyId)
    ensures forall id :: ActiveIn(rules, id, companyId) ==> Listed(rows, id)
    ensures forall k, l :: 0 <= k < l < |rows| ==> rows[k].id > rows[l].id
  {
    ActiveRulesAmongSound(rules, users, companyId, |rules|);
    ActiveRulesAmongComplete(rules, users, companyId, |rules|);
    ActiveRulesAmongNewestFirst(rules, users, companyId, |rules|);
    ActiveRulesAmong(rules, users, companyId, |rules|)
  }

  /** The active rules of the company among the first `n` rules, newest first. */
  function ActiveRulesAmong(rules: seq<Rule>, users: seq<User>, companyId: int, n: nat): seq<RuleRow>
    requires n <= |rules|
  {
    if n == 0 then []
    else
      var older := ActiveRulesAmong(rules, users, companyId, n - 1);
      var rule := rules[n - 1];
      if rule.companyId == companyId && rule.isActive then
        [RuleRow(n, rule, SpecificApproverName(users, rule))] + older
      else older
  }

  /** Every row listed among the first `n` rules is an active rule of the company
      with an id of at most `n`. */
  lemma {:induction false} ActiveRulesAmongSound(rules: seq<Rule>, users: seq<User>, companyId: int, n: nat)
    requires n <= |rules|
    ensures forall k :: 0 <= k < |ActiveRulesAmong(rules, users, companyId, n)| ==>
              ActiveRulesAmong(rules, users, companyId, n)[k].id <= n
              && RowOf(rules, users, ActiveRulesAmong(rules, users, companyId, n)[k], companyId)
  {
    if n > 0 {
      ActiveRulesAmongSound(rules, users, companyId, n - 1);
      var older := ActiveRulesAmong(rules, users, companyId, n - 1);
      var rows := ActiveRulesAmong(rules, users, companyId, n);
      forall k | 0 <= k < |rows| ensures rows[k].id <= n && RowOf(rules, users, rows[k], companyId) {
        if rules[n - 1].companyId == companyId && rules[n - 1].isActive {
          if k > 0 {
            assert rows[k] == older[k - 1];
          }
        } else {
          assert rows[k] == older[k];
        }
      }
    }
  }

  /** Every active rule of the company among the first `n` is listed. */
  lemma {:induction false} ActiveRulesAmongComplete(rules: seq<Rule>, users: seq<User>, companyId: int, n: nat)
    requires n <= |rules|
    ensures forall id :: id <= n && ActiveIn(rules, id, companyId) ==>
              Listed(ActiveRulesAmong(rules, users, companyId, n), id)
  {
    if n > 0 {
      ActiveRulesAmongComplete(rules, users, companyId, n - 1);
      var older := ActiveRulesAmong(rules, users, companyId, n - 1);
      var rows := ActiveRulesAmong(rules, users, companyId, n);
      if rules[n - 1].companyId == companyId && rules[n - 1].isActive {
        forall id | Listed(older, id) ensures Listed(rows, id) {
          var k :| 0 <= k < |older| && older[k].id == id;
          assert rows[k + 1].id == id;
        }
        assert rows[0].id == n;
      }
    }
  }

  /** Rows listed with strictly decreasing ids. */
  predicate NewestFirst(rows: seq<RuleRow>)
  {
    forall k, l :: 0 <= k < l < |rows| ==> rows[k].id > rows[l].id
  }

  /** The rows listed among the first `n` rules have strictly decreasing ids. */
  lemma {:induction false} ActiveRulesAmongNewestFirst(rules: seq<Rule>, users: seq<User>, companyId: int, n: nat)
    requires n <= |rules|
    ensures NewestFirst(ActiveRulesAmong(rules, users, companyId, n))
  {
    if n > 0 {
      ActiveRulesAmongNewestFirst(rules, users, companyId, n - 1);
      ActiveRulesAmongSound(rules, users, companyId, n - 1);
      var older := ActiveRulesAmong(rules, users, companyId, n - 1);
      var rows := ActiveRulesAmong(rules, users, companyId, n);
      if rules[n - 1].companyId == companyId && rules[n - 1].isActive {
        forall k, l | 0 <= k < l < |rows| ensures rows[k].id > rows[l].id {
          assert rows[l] == older[l - 1];
          if k > 0 {
            assert rows[k] == older[k - 1];
          }
        }
      }
    }
  }

  /** Step rows listed in strictly increasing step order. */
  predicate StepRowsSorted(rows: seq<StepRow>)
  {
    forall k, l :: 0 <= k < l < |rows| ==> rows[k].stepOrder < rows[l].stepOrder
  }

  /** The row shows the step and its approver's user row: name and email. */
  predicate StepShown(s: Step, users: seq<User>, row: StepRow)
  {
    && row.stepOrder == s.stepOrder && row.approverId == s.approverId
    && 1 <= s.approverId <= |users|
    && var u := users[s.approverId - 1];
       row.firstName == u.firstName && row.lastName == u.lastName && row.email == u.email
  }

  /** The step query of `getApprovalRules`: a rule's steps joined with their
      approvers' rows (a step whose approver has no row is dropped by the join).
      Each row comes from one of the steps, so steps stored in increasing order
      are listed in increasing order. */
  function StepRows(ruleSteps: seq<Step>, users: seq<User>): (rows: seq<StepRow>)
    ensures |rows| <= |ruleSteps|
    ensures forall k :: 0 <= k < |rows| ==>
              exists j :: 0 <= j < |ruleSteps| && StepShown(ruleSteps[j], users, rows[k])
    ensures StepsNumbered(ruleSteps) ==> StepRowsSorted(rows)
    ensures (forall j :: 0 <= j < |ruleSteps| ==> 1 <= ruleSteps[j].approverId <= |users|) ==>
              |rows| == |ruleSteps|
  {
    if ruleSteps == [] then []
    else
      var n := |ruleSteps|;
      var earlier := StepRows(ruleSteps[..n - 1], users);
      var s := ruleSteps[n - 1];
      if 1 <= s.approverId <= |users| then
        var u := users[s.approverId - 1];
        earlier + [StepRow(s.stepOrder, s.approverId, u.firstName, u.lastName, u.email)]
      else earlier
  }

  /** `getApprovalRules`: each active rule of the company, newest first, with its
      steps in increasing step order. */
  method GetApprovalRules(db: Database, companyId: int) returns (views: seq<RuleView>)
    requires db.Valid()
    ensures var rows := ActiveRules(db.rules, db.users, companyId);
            && |views| == |rows|
            && forall k :: 0 <= k < |views| ==>
                 && views[k].row == rows[k]
                 && views[k].approvalSteps == StepRows(StepsOf(db.steps, rows[k].id), db.users)
    ensures forall k :: 0 <= k < |views| ==> StepRowsSorted(views[k].approvalSteps)
  {
    var rows := ActiveRules(db.rules, db.users, companyId);
    views := [];
    var k := 0;
    while k < |rows|
      invariant 0 <= k <= |rows|
      invariant |views| == k
      invariant forall m :: 0 <= m < k ==>
                  && views[m].row == rows[m]
                  && views[m].approvalSteps == StepRows(StepsOf(db.steps, rows[m].id), db.users)
      invariant forall m :: 0 <= m < k ==> StepRowsSorted(views[m].approvalSteps)
    {
      var ruleSteps := StepsOf(db.steps, rows[k].id);
      assert StepsNumbered(ruleSteps);
      views := views + [RuleView(rows[k], StepRows(ruleSteps, db.users))];
      k := k + 1;
    }
  }
}
