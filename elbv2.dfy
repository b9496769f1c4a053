/** The slice of the ELBv2 SDK's value types that listener-rule matching
    reads. Every pointer field of the SDK becomes an `Option`, so that an
    unset field stays distinguishable from an empty string or `false`. */
module Elbv2 {
  import opened Wrappers

  /** `elbv2.Action`: where matching traffic goes and how. */
  datatype Action = Action(TargetGroupArn: Option<string>, Type: Option<string>)

  /** `elbv2.RuleCondition`: the match dimension and its ordered patterns. */
  datatype RuleCondition = RuleCondition(Field: Option<string>, Values: seq<string>)

  /** `elbv2.Rule`: one listener rule as the control plane describes it. */
  datatype AwsRule = AwsRule(
    IsDefault: Option<bool>,
    Priority: Option<string>,
    Actions: seq<Action>,
    Conditions: seq<RuleCondition>)

  /** The action type that forwards traffic to a target group. */
  const ForwardType: string := "forward"

  /** The condition field that matches on the request path. */
  const PathPatternField: string := "path-pattern"

  /** The priority the control plane reports for a listener's default rule. */
  const DefaultPriority: string := "default"
}
