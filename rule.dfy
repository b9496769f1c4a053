/** The controller's listener-rule model: building the rule an ingress path
    asks for, deciding whether an observed rule already matches it, and
    locating a matching rule in a rule set. */
module Controller {
  import opened Wrappers
  import opened Elbv2

  /** The controller's `Rule`: a wrapper around the rule as currently known,
      which may be absent (a nil `CurrentRule`). */
  datatype Rule = Rule(CurrentRule: Option<AwsRule>)

  /** The controller's `Rules`: an ordered rule set for one listener. */
  type Rules = seq<Rule>

  /** The single action every built rule carries: forward to `arn`. */
  function Forward(arn: string): Action
  {
    Action(Some(arn), Some(ForwardType))
  }

  /** `NewRule(targetGroupArn, path)`: the path "/" becomes the listener's
      default rule; any other path becomes a path-pattern rule on that path.
      Both forward to `arn`. A path-pattern rule is built without a priority;
      one is assigned when the rule is placed on the listener. */
  function NewRule(arn: string, path: string): (r: AwsRule)
    ensures r.IsDefault == Some(path == "/")
    ensures |r.Actions| == 1
    ensures r.Actions[0].TargetGroupArn == Some(arn) && r.Actions[0].Type == Some(ForwardType)
    ensures path == "/" ==> r.Priority == Some(DefaultPriority) && |r.Conditions| == 0
    ensures path != "/" ==> r.Priority == None && |r.Conditions| == 1
    ensures path != "/" ==> r.Conditions[0].Field == Some(PathPatternField) && r.Conditions[0].Values == [path]
  {
    if path == "/" then
      AwsRule(Some(true), Some(DefaultPriority), [Forward(arn)], [])
    else
      AwsRule(Some(false), None, [Forward(arn)], [RuleCondition(Some(PathPatternField), [path])])
  }

  // ---------------------------------------------------------------------------
  // Structural comparison, field by field and element by element.

  /** Two actions agree on target group ARN and on type. */
  predicate ActionEqual(a: Action, b: Action)
  {
    a.TargetGroupArn == b.TargetGroupArn && a.Type == b.Type
  }

  /** Two action lists agree in length and position by position. */
  predicate ActionsEqual(a: seq<Action>, b: seq<Action>)
    ensures ActionsEqual(a, b) <==> a == b
    decreases |a|
  {
    |a| == |b| &&
    (|a| == 0 || (ActionEqual(a[0], b[0]) && ActionsEqual(a[1..], b[1..])))
  }

  /** Two pattern lists agree in length and position by position. */
  predicate ValuesEqual(a: seq<string>, b: seq<string>)
    ensures ValuesEqual(a, b) <==> a == b
    decreases |a|
  {
    |a| == |b| &&
    (|a| == 0 || (a[0] == b[0] && ValuesEqual(a[1..], b[1..])))
  }

  /** Two conditions agree on field and, in order, on their values. */
  predicate ConditionEqual(a: RuleCondition, b: RuleCondition)
    ensures ConditionEqual(a, b) <==> a == b
  {
    a.Field == b.Field && ValuesEqual(a.Values, b.Values)
  }

  /** Two condition lists agree in length and position by position. */
  predicate ConditionsEqual(a: seq<RuleCondition>, b: seq<RuleCondition>)
    ensures ConditionsEqual(a, b) <==> a == b
    decreases |a|
  {
    |a| == |b| &&
    (|a| == 0 || (ConditionEqual(a[0], b[0]) && ConditionsEqual(a[1..], b[1..])))
  }

  /** The content of a rule that matching is about: everything but its
      priority. */
  predicate SameContent(a: AwsRule, b: AwsRule)
  {
    a.IsDefault == b.IsDefault && a.Actions == b.Actions && a.Conditions == b.Conditions
  }

  /** `(*Rule).Equals(target)`: false when either side is absent; otherwise
      true exactly when `IsDefault`, the actions and the conditions agree.
      The priority is not compared. */
  predicate Equals(r: Rule, target: Option<AwsRule>)
    ensures Equals(r, target) <==>
      r.CurrentRule.Some? && target.Some? && SameContent(r.CurrentRule.value, target.value)
  {
    match (r.CurrentRule, target)
    case (Some(cur), Some(t)) =>
      cur.IsDefault == t.IsDefault &&
      ActionsEqual(cur.Actions, t.Actions) &&
      ConditionsEqual(cur.Conditions, t.Conditions)
    case _ => false
  }

  // ---------------------------------------------------------------------------
  // Locating a rule in a rule set.

  /** `(*Rules).find(rule)`: the position of the first member whose current
      rule equals `rule`'s current rule, or -1 when there is none. */
  function Find(rules: Rules, rule: Rule): (pos: int)
    ensures -1 <= pos < |rules|
    ensures pos == -1 <==> forall k :: 0 <= k < |rules| ==> !Equals(rules[k], rule.CurrentRule)
    ensures 0 <= pos ==> Equals(rules[pos], rule.CurrentRule)
    ensures 0 <= pos ==> forall k :: 0 <= k < pos ==> !Equals(rules[k], rule.CurrentRule)
    decreases |rules|
  {
    if |rules| == 0 then -1
    else if Equals(rules[0], rule.CurrentRule) then 0
    else
      var p := Find(rules[1..], rule);
      if p == -1 then -1 else p + 1
  }
}
