# Listener-rule matching of the ALB ingress controller

This project models the rule-matching primitives the ALB ingress
controller uses when it reconciles an ELBv2 listener's rules with an
ingress: building the rule one ingress path asks for (`NewRule`), deciding
whether a rule already on the listener matches a candidate (`Equals`), and
finding the first matching rule in a rule set (`find`).

The repository's implementation file is not part of this model; the
behaviour modelled is what `pkg/cmd/controller/elbv2_rule_test.go` pins
down; where the tests are silent, the model makes its own choices, listed
below.

- `wrappers.dfy` — `Option`, standing for the SDK's pointer fields and for a
  nil rule.
- `elbv2.dfy` — the SDK value types `Action`, `RuleCondition` and
  `AwsRule` (`elbv2.Rule`), and the constants `"forward"`, `"path-pattern"`
  and `"default"`.
- `rule.dfy` — the controller's `Rule` (a possibly absent `CurrentRule`),
  `Rules`, `NewRule`, the element-wise comparison behind `Equals`, and
  `Find`.
- `rule_properties.dfy` — what the matching promises: absent sides, which
  field changes `Equals` notices, equivalence, that built rules are told
  apart by ARN and path, and how `Find` behaves on built and extended sets.
- `rule_examples.dfy` — every row of the three test tables as a lemma.

Modelling choices:

- Every `*string` / `*bool` field is an `Option`; an unset field equals
  only an unset field. A nil `*elbv2.Rule` is `None`.
- `Equals` does not compare `Priority`. The tests never compare two rules
  that differ only in priority; the model treats priority as placement, not
  content. No lemma here depends on this choice.
- `IsDefault` is compared as an optional value (unset equals unset) rather
  than dereferenced.
- `Find` compares each member's rule with the argument's rule
  (`member.Equals(arg.CurrentRule)`); `EqualsSymmetric` shows the other
  direction would give the same answers.
- A path-pattern rule is built without a priority (`None`); the default
  rule carries `"default"`.

## Model

| member | source | states |
|---|---|---|
| Controller.NewRule | pkg/cmd/controller/elbv2_rule_test.go:20-54 | path "/" gives a default rule with priority "default" and no conditions; any other path gives a non-default rule with the one condition path-pattern = [path]; both have exactly one action, forward to the ARN |
| Controller.ActionsEqual | pkg/cmd/controller/elbv2_rule_test.go:127-149 | the position-by-position comparison of actions (ARN and type) holds exactly when the two action lists are identical |
| Controller.ValuesEqual | pkg/cmd/controller/elbv2_rule_test.go:206-238 | the position-by-position comparison of condition values holds exactly when the value lists are identical |
| Controller.ConditionEqual | pkg/cmd/controller/elbv2_rule_test.go:173-238 | comparing field and values holds exactly when the two conditions are identical |
| Controller.ConditionsEqual | pkg/cmd/controller/elbv2_rule_test.go:173-238 | the position-by-position comparison of conditions holds exactly when the condition lists are identical |
| Controller.Equals | pkg/cmd/controller/elbv2_rule_test.go:71-251 | true exactly when both sides are present and agree on IsDefault, actions and conditions |
| Controller.Find | pkg/cmd/controller/elbv2_rule_test.go:254-290 | result lies in [-1, number of rules); -1 exactly when no member equals the argument; otherwise the member at the result equals it and no earlier member does |
| ControllerProperties.EqualsAbsent | pkg/cmd/controller/elbv2_rule_test.go:76-103 | a nil target or a nil current rule makes Equals false |
| ControllerProperties.EqualsReflexive | pkg/cmd/controller/elbv2_rule_test.go:104-126 | every present rule equals itself |
| ControllerProperties.EqualsSymmetric | pkg/cmd/controller/elbv2_rule_test.go:284-289 | swapping the wrapped rule and the target does not change Equals |
| ControllerProperties.EqualsTransitive | pkg/cmd/controller/elbv2_rule_test.go:173-205 | Equals is transitive, hence an equivalence on present rules |
| ControllerProperties.EqualsSeesTargetGroupArn | pkg/cmd/controller/elbv2_rule_test.go:127-149 | changing any one action's target group ARN makes Equals false |
| ControllerProperties.EqualsSeesActionType | pkg/cmd/controller/elbv2_rule_test.go:127-149 | changing any one action's type makes Equals false |
| ControllerProperties.EqualsSeesIsDefault | pkg/cmd/controller/elbv2_rule_test.go:150-172 | changing IsDefault makes Equals false |
| ControllerProperties.EqualsSeesConditionValue | pkg/cmd/controller/elbv2_rule_test.go:206-238 | changing any one value of any one condition makes Equals false |
| ControllerProperties.EqualsSeesConditionField | pkg/cmd/controller/elbv2_rule_test.go:173-238 | changing any one condition's field makes Equals false |
| ControllerProperties.NewRuleEqualsIff | pkg/cmd/controller/elbv2_rule_test.go:261-282 | two built rules are equal exactly when built from the same ARN and the same path |
| ControllerProperties.FindBuiltSet | pkg/cmd/controller/elbv2_rule_test.go:257-289 | in a set built from (ARN, path) pairs, finding the rule built from a pair gives the first position of that pair, or -1 |
| ControllerProperties.FindRespectsEquals | pkg/cmd/controller/elbv2_rule_test.go:284-289 | candidates equal to each other are found at the same position |
| ControllerProperties.FindStableUnderAppend | pkg/cmd/controller/elbv2_rule_test.go:254-290 | appending members after a found rule does not move the position found |
| ControllerProperties.FindAfterMissingPrefix | pkg/cmd/controller/elbv2_rule_test.go:254-290 | when a prefix holds no match, the position in the whole set is the position in the rest shifted by the prefix length, or -1 |
| ControllerExamples.NewRuleTable | pkg/cmd/controller/elbv2_rule_test.go:20-65 | both builder rows: the rule built for "/" and for "/test" equals the rule written out for it |
| ControllerExamples.RuleEqualsTable | pkg/cmd/controller/elbv2_rule_test.go:71-251 | each of the seven equality rows has its expected outcome |
| ControllerExamples.RulesFindTable | pkg/cmd/controller/elbv2_rule_test.go:257-289 | in the two-rule set, "/" is at 0, "/altpath" at 1, an unknown path and a wrong ARN give -1 |

## Left out

- The ELBv2 API calls (describe, create, modify, delete rules, setting priorities): network calls into the AWS SDK, outside this model.
- The reconciler that plans and orders create/modify/delete/reprioritize actions: its implementation is not part of this model, so convergence, idempotent reconciliation and the never-delete-the-default-rule guarantee are not stated.
- The `setup()` test fixture: process-wide test state of unknown content.
- `awsutil.Prettify` and the `testing.T` error reporting: diagnostics only.
- Serialization of reconciliation passes per listener: concurrency is out of scope.
- Pointer identity of `aws.String` / `aws.Bool` values: the tests compare contents, so fields are modelled as optional values.
- Nil elements inside the SDK's slices (a nil `*Rule` member of `Rules`, a nil `*Action` or `*RuleCondition` entry, a nil `*string` in `Values`): the model's sequences hold plain values, so such entries cannot be expressed.
- A nil `*string` argument to `NewRule` and a nil `*Rule` argument to `find`: the tests never pass one, so the model takes plain values there.
