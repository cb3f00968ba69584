/** The approver chain a new expense receives: the submitter's manager first when
    the rule asks for it (or there is no rule), then, for sequential and hybrid
    rules, the rule's steps in step order, numbered on from the manager. */
module ApproverChain {
  import opened Common
  import opened Store

  /** One approver of the chain and the step order its ledger record gets. */
  datatype ChainEntry = ChainEntry(approverId: int, order: int)

  /** The rule a new expense follows: the requested rule when it exists, belongs to
      the submitter's company and is active.  A falsy or unmatched id means no
      rule. */
  function ApplicableRule(rules: seq<Rule>, ruleId: Option<int>, companyId: int): (r: Option<Rule>)
    ensures r.Some? <==>
              && Truthy(ruleId) && 1 <= ruleId.value <= |rules|
              && rules[ruleId.value - 1].companyId == companyId && rules[ruleId.value - 1].isActive
    ensures r.Some? ==> r.value == rules[ruleId.value - 1]
  {
    if Truthy(ruleId) && 1 <= ruleId.value <= |rules|
       && rules[ruleId.value - 1].companyId == companyId && rules[ruleId.value - 1].isActive
    then Some(rules[ruleId.value - 1])
    else None
  }

  /** The manager is consulted when there is no rule or the rule has manager
      approval on. */
  predicate ConsultsManager(rule: Option<Rule>)
  {
    rule.None? || rule.value.isManagerApprover
  }

  /** The manager heads the chain: consulted, and the submitter has one. */
  predicate ManagerLeads(managerId: Option<int>, rule: Option<Rule>)
  {
    ConsultsManager(rule) && Truthy(managerId)
  }

  /** The rule contributes its steps. */
  predicate StepsApply(rule: Option<Rule>)
  {
    rule.Some? && UsesSteps(rule.value.ruleType)
  }

  /** The chain that the two pushes of `createExpense` build. */
  function Chain(managerId: Option<int>, rule: Option<Rule>, ruleSteps: seq<Step>): (chain: seq<ChainEntry>)
    ensures forall k :: 0 <= k < |chain| ==> chain[k].order == k + 1
  {
    var head := if ManagerLeads(managerId, rule) then [ChainEntry(managerId.value, 1)] else [];
    var tail := if StepsApply(rule) then StepEntries(ruleSteps, |head| + 1) else [];
    head + tail
  }

  /** The steps' approvers, numbered from `start`. */
  function StepEntries(ruleSteps: seq<Step>, start: int): (entries: seq<ChainEntry>)
    ensures |entries| == |ruleSteps|
    ensures forall k :: 0 <= k < |ruleSteps| ==> entries[k] == ChainEntry(ruleSteps[k].approverId, start + k)
  {
    if ruleSteps == [] then []
    else
      var last := |ruleSteps| - 1;
      StepEntries(ruleSteps[..last], start) + [ChainEntry(ruleSteps[last].approverId, start + last)]
  }

  /** Who the chain holds: the manager at the head when the manager leads, then
      every step's approver in step order, nobody else and nobody removed. */
  lemma ChainMembers(managerId: Option<int>, rule: Option<Rule>, ruleSteps: seq<Step>)
    ensures var chain, m := Chain(managerId, rule, ruleSteps), if ManagerLeads(managerId, rule) then 1 else 0;
            && |chain| == m + (if StepsApply(rule) then |ruleSteps| else 0)
            && (ManagerLeads(managerId, rule) ==> chain[0].approverId == managerId.value)
            && (StepsApply(rule) ==>
                  forall j :: 0 <= j < |ruleSteps| ==> chain[m + j].approverId == ruleSteps[j].approverId)
  {
  }

  /** Without a rule and without a manager the chain is empty, and that is not an
      error: the expense simply has no approver. */
  lemma NoRuleNoManagerNoApprovers(managerId: Option<int>, ruleSteps: seq<Step>)
    requires !Truthy(managerId)
    ensures Chain(managerId, None, ruleSteps) == []
  {
  }

  /** When the manager leads, the manager is the one order-1 entry; a rule that
      adds no steps leaves the manager alone in the chain. */
  lemma ManagerIsSoleFirst(managerId: Option<int>, rule: Option<Rule>, ruleSteps: seq<Step>)
    requires ManagerLeads(managerId, rule)
    ensures var chain := Chain(managerId, rule, ruleSteps);
            && chain[0] == ChainEntry(managerId.value, 1)
            && (forall k :: 1 <= k < |chain| ==> chain[k].order != 1)
            && (!StepsApply(rule) ==> chain == [ChainEntry(managerId.value, 1)])
  {
  }

  /** A percentage or specific-approver rule contributes no step, so its chain is
      at most the manager. */
  lemma ThresholdRulesChainAtMostManager(managerId: Option<int>, rule: Rule, ruleSteps: seq<Step>)
    requires !UsesSteps(rule.ruleType)
    ensures var chain := Chain(managerId, Some(rule), ruleSteps);
            && |chain| <= 1
            && (|chain| == 1 <==> rule.isManagerApprover && Truthy(managerId))
  {
  }

  /** Without manager approval the chain is exactly the rule's steps, renumbered
      from 1. */
  lemma StepsAloneRenumberedFromOne(managerId: Option<int>, rule: Rule, ruleSteps: seq<Step>)
    requires UsesSteps(rule.ruleType) && !rule.isManagerApprover
    ensures var chain := Chain(managerId, Some(rule), ruleSteps);
            && |chain| == |ruleSteps|
            && forall k :: 0 <= k < |chain| ==> chain[k] == ChainEntry(ruleSteps[k].approverId, k + 1)
  {
  }

  /** The chain is not de-duplicated: a manager who is also the rule's first step
      approver appears twice, at orders 1 and 2. */
  lemma ManagerListedTwice(manager: int, rule: Rule, ruleId: int)
    requires manager != 0 && rule.isManagerApprover && rule.ruleType == Sequential
    ensures Chain(Some(manager), Some(rule), [Step(ruleId, 1, manager)])
            == [ChainEntry(manager, 1), ChainEntry(manager, 2)]
  {
  }

  /** A requested rule that has been deactivated is ignored: the chain is what it
      would be with no rule at all. */
  lemma InactiveRuleIgnored(rules: seq<Rule>, ruleId: int, companyId: int, managerId: Option<int>, ruleSteps: seq<Step>)
    requires 1 <= ruleId <= |rules| && !rules[ruleId - 1].isActive
    ensures ApplicableRule(rules, Some(ruleId), companyId) == None
    ensures Chain(managerId, ApplicableRule(rules, Some(ruleId), companyId), ruleSteps)
            == (if Truthy(managerId) then [ChainEntry(managerId.value, 1)] else [])
  {
  }

  /** A rule of another company is ignored in the same way. */
  lemma ForeignRuleIgnored(rules: seq<Rule>, ruleId: int, companyId: int)
    requires 1 <= ruleId <= |rules| && rules[ruleId - 1].companyId != companyId
    ensures ApplicableRule(rules, Some(ruleId), companyId) == None
  {
  }
}
