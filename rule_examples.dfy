/** The rows of the controller's rule test tables, stated as lemmas about
    the model. */
module ControllerExamples {
  import opened Wrappers
  import opened Elbv2
  import opened Controller
  import opened ControllerProperties

  /** The rule the tables write out for the default path. */
  function DefaultRule(arn: string): AwsRule
  {
    AwsRule(Some(true), Some("default"), [Action(Some(arn), Some("forward"))], [])
  }

  /** The rule the tables write out for a path-pattern rule. */
  function PathRule(arn: string, path: string): AwsRule
  {
    AwsRule(Some(false), None, [Action(Some(arn), Some("forward"))],
            [RuleCondition(Some("path-pattern"), [path])])
  }

  /** Both rows of the builder's table: the built rule equals the rule
      written out for it. */
  lemma NewRuleTable()
    ensures Equals(Rule(Some(NewRule("arn:blah", "/"))), Some(DefaultRule("arn:blah")))
    ensures Equals(Rule(Some(NewRule("arn:blah", "/test"))), Some(PathRule("arn:blah", "/test")))
  {
  }

  /** Every row of the equality table, with its expected outcome. */
  lemma RuleEqualsTable()
    ensures !Equals(Rule(Some(DefaultRule("arn:blah"))), None)
    ensures !Equals(Rule(None), Some(DefaultRule("arn:blah")))
    ensures Equals(Rule(Some(DefaultRule("arn:blah"))), Some(DefaultRule("arn:blah")))
    ensures !Equals(Rule(Some(DefaultRule("arn:blah"))), Some(DefaultRule("arn:wrong")))
    ensures !Equals(Rule(Some(DefaultRule("arn:blah"))), Some(DefaultRule("arn:blah").(IsDefault := Some(false))))
    ensures Equals(Rule(Some(PathRule("arn:blah", "/test"))), Some(PathRule("arn:blah", "/test")))
    ensures !Equals(Rule(Some(PathRule("arn:blah", "/test"))), Some(PathRule("arn:blah", "/test_wrong")))
  {
    EqualsSeesTargetGroupArn(DefaultRule("arn:blah"), 0, Some("arn:wrong"));
    EqualsSeesConditionValue(PathRule("arn:blah", "/test"), 0, 0, "/test_wrong");
  }

  /** The lookup table: in the set built for "/" and "/altpath" on
      "somearn", those two are found at 0 and 1, and an unknown path or a
      different ARN is not found. */
  lemma RulesFindTable()
    ensures
      var rules := [Rule(Some(NewRule("somearn", "/"))), Rule(Some(NewRule("somearn", "/altpath")))];
      && Find(rules, Rule(Some(NewRule("somearn", "/")))) == 0
      && Find(rules, Rule(Some(NewRule("somearn", "/altpath")))) == 1
      && Find(rules, Rule(Some(NewRule("somearn", "/doesnt_exit")))) == -1
      && Find(rules, Rule(Some(NewRule("wrongarn", "/")))) == -1
  {
    var ps := [("somearn", "/"), ("somearn", "/altpath")];
    assert BuildAll(ps) == [Rule(Some(NewRule("somearn", "/"))), Rule(Some(NewRule("somearn", "/altpath")))];
    FindBuiltSet(ps, "somearn", "/");
    FindBuiltSet(ps, "somearn", "/altpath");
    FindBuiltSet(ps, "somearn", "/doesnt_exit");
    FindBuiltSet(ps, "wrongarn", "/");
  }
}
