/** What the controller's rule matching promises: how `Equals` treats absent
    rules, which changes it notices, that it is an equivalence on present
    rules, that built rules are told apart by their ARN and path, and what
    `Find` then returns. */
module ControllerProperties {
  import opened Wrappers
  import opened Elbv2
  import opened Controller

  /** An absent target never equals anything, and an absent current rule
      equals nothing. */
  lemma EqualsAbsent(r: Rule, target: Option<AwsRule>)
    ensures !Equals(r, None)
    ensures !Equals(Rule(None), target)
  {
  }

  /** A present rule equals itself, whatever it holds. */
  lemma EqualsReflexive(a: AwsRule)
    ensures Equals(Rule(Some(a)), Some(a))
  {
  }

  /** Which side is wrapped does not matter: `Equals` is symmetric, absent
      sides included. */
  lemma EqualsSymmetric(a: Option<AwsRule>, b: Option<AwsRule>)
    ensures Equals(Rule(a), b) == Equals(Rule(b), a)
  {
  }

  /** `Equals` is transitive, so on present rules it is an equivalence. */
  lemma EqualsTransitive(a: Option<AwsRule>, b: Option<AwsRule>, c: Option<AwsRule>)
    requires Equals(Rule(a), b) && Equals(Rule(b), c)
    ensures Equals(Rule(a), c)
  {
  }

  /** Retargeting one action to a different target group ARN makes the rule
      unequal to the original. */
  lemma {:induction false} EqualsSeesTargetGroupArn(a: AwsRule, i: nat, arn: Option<string>)
    requires i < |a.Actions| && arn != a.Actions[i].TargetGroupArn
    ensures !Equals(Rule(Some(a)), Some(a.(Actions := a.Actions[i := a.Actions[i].(TargetGroupArn := arn)])))
  {
    var b := a.(Actions := a.Actions[i := a.Actions[i].(TargetGroupArn := arn)]);
    assert b.Actions[i] != a.Actions[i];
  }

  /** Changing one action's type makes the rule unequal to the original. */
  lemma {:induction false} EqualsSeesActionType(a: AwsRule, i: nat, ty: Option<string>)
    requires i < |a.Actions| && ty != a.Actions[i].Type
    ensures !Equals(Rule(Some(a)), Some(a.(Actions := a.Actions[i := a.Actions[i].(Type := ty)])))
  {
    var b := a.(Actions := a.Actions[i := a.Actions[i].(Type := ty)]);
    assert b.Actions[i] != a.Actions[i];
  }

  /** Flipping (or unsetting) `IsDefault` makes the rule unequal to the
      original. */
  lemma EqualsSeesIsDefault(a: AwsRule, d: Option<bool>)
    requires d != a.IsDefault
    ensures !Equals(Rule(Some(a)), Some(a.(IsDefault := d)))
  {
  }

  /** Replacing one value of one condition makes the rule unequal to the
      original. */
  lemma {:induction false} EqualsSeesConditionValue(a: AwsRule, i: nat, j: nat, v: string)
    requires i < |a.Conditions| && j < |a.Conditions[i].Values| && v != a.Conditions[i].Values[j]
    ensures !Equals(Rule(Some(a)),
      Some(a.(Conditions := a.Conditions[i := a.Conditions[i].(Values := a.Conditions[i].Values[j := v])])))
  {
    var c := a.Conditions[i].(Values := a.Conditions[i].Values[j := v]);
    assert c.Values[j] != a.Conditions[i].Values[j];
    var b := a.(Conditions := a.Conditions[i := c]);
    assert b.Conditions[i] != a.Conditions[i];
  }

  /** Changing one condition's field makes the rule unequal to the original. */
  lemma {:induction false} EqualsSeesConditionField(a: AwsRule, i: nat, f: Option<string>)
    requires i < |a.Conditions| && f != a.Conditions[i].Field
    ensures !Equals(Rule(Some(a)), Some(a.(Conditions := a.Conditions[i := a.Conditions[i].(Field := f)])))
  {
    var b := a.(Conditions := a.Conditions[i := a.Conditions[i].(Field := f)]);
    assert b.Conditions[i] != a.Conditions[i];
  }

  /** Two built rules are equal exactly when they were built from the same
      target group ARN and the same path: the builder loses nothing that
      matching looks at. */
  lemma {:induction false} NewRuleEqualsIff(arn1: string, path1: string, arn2: string, path2: string)
    ensures Equals(Rule(Some(NewRule(arn1, path1))), Some(NewRule(arn2, path2)))
        <==> arn1 == arn2 && path1 == path2
  {
    var r1, r2 := NewRule(arn1, path1), NewRule(arn2, path2);
    if Equals(Rule(Some(r1)), Some(r2)) {
      assert r1.Actions[0] == r2.Actions[0];
      assert (path1 == "/") == (path2 == "/");
      if path1 != "/" {
        assert r1.Conditions[0].Values[0] == r2.Conditions[0].Values[0];
      }
    }
  }

  /** The rule set built from an ordered list of (target group ARN, path)
      pairs, one `NewRule` per pair, in the same order. */
  function BuildAll(ps: seq<(string, string)>): Rules
  {
    seq(|ps|, k requires 0 <= k < |ps| => Rule(Some(NewRule(ps[k].0, ps[k].1))))
  }

  /** The first position of `x` in `ps`, or -1. */
  function PairIndex(ps: seq<(string, string)>, x: (string, string)): (pos: int)
    ensures -1 <= pos < |ps|
    ensures 0 <= pos ==> ps[pos] == x && x !in ps[..pos]
    ensures pos == -1 ==> x !in ps
    decreases |ps|
  {
    if |ps| == 0 then -1
    else if ps[0] == x then 0
    else
      var p := PairIndex(ps[1..], x);
      if p == -1 then -1 else p + 1
  }

  /** In a rule set built from (ARN, path) pairs, finding the rule built
      from one pair is looking that pair up: the first member built from
      the same ARN and the same path, or -1 when none was. */
  lemma {:induction false} FindBuiltSet(ps: seq<(string, string)>, arn: string, path: string)
    ensures Find(BuildAll(ps), Rule(Some(NewRule(arn, path)))) == PairIndex(ps, (arn, path))
    decreases |ps|
  {
    if |ps| > 0 {
      NewRuleEqualsIff(ps[0].0, ps[0].1, arn, path);
      assert BuildAll(ps)[1..] == BuildAll(ps[1..]);
      FindBuiltSet(ps[1..], arn, path);
    }
  }

  /** Candidates that are equal to each other are found at the same
      position: `Find` depends on a candidate only up to `Equals`. */
  lemma {:induction false} FindRespectsEquals(rules: Rules, a: AwsRule, b: AwsRule)
    requires Equals(Rule(Some(a)), Some(b))
    ensures Find(rules, Rule(Some(a))) == Find(rules, Rule(Some(b)))
    decreases |rules|
  {
    if |rules| > 0 {
      EqualsTransitiveWith(rules[0].CurrentRule, a, b);
      FindRespectsEquals(rules[1..], a, b);
    }
  }

  /** Replacing an `Equals`-equal candidate does not change whether a
      given member matches it. */
  lemma EqualsTransitiveWith(x: Option<AwsRule>, a: AwsRule, b: AwsRule)
    requires Equals(Rule(Some(a)), Some(b))
    ensures Equals(Rule(x), Some(a)) == Equals(Rule(x), Some(b))
  {
  }

  /** Appending members after the first match does not move it. */
  lemma {:induction false} FindStableUnderAppend(rules: Rules, more: Rules, rule: Rule)
    requires 0 <= Find(rules, rule)
    ensures Find(rules + more, rule) == Find(rules, rule)
    decreases |rules|
  {
    if !Equals(rules[0], rule.CurrentRule) {
      assert (rules + more)[1..] == rules[1..] + more;
      FindStableUnderAppend(rules[1..], more, rule);
    }
  }

  /** Appending to a set with no match shifts any later match past the
      prefix. */
  lemma {:induction false} FindAfterMissingPrefix(rules: Rules, more: Rules, rule: Rule)
    requires Find(rules, rule) == -1
    ensures Find(rules + more, rule) == if Find(more, rule) == -1 then -1 else |rules| + Find(more, rule)
    decreases |rules|
  {
    if |rules| == 0 {
      assert rules + more == more;
    } else {
      assert (rules + more)[1..] == rules[1..] + more;
      FindAfterMissingPrefix(rules[1..], more, rule);
    }
  }
}
