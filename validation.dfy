/**
 * The rule engine behind the request classes: a request is a map from field
 * name to submitted text, and each declared field carries the rule
 * "required, between 1 and maxLength characters". Lengths are counted in
 * characters (|s| on a string), never in bytes.
 */
module Validation {

  import opened Common

  /** A submitted request. A field that was not submitted is an absent key. */
  type Input = map<string, string>

  /** The rule declared for one field: required, and 1..maxLength characters long. */
  datatype Rule = Rule(field: string, maxLength: nat)

  /** Why a field was rejected. */
  datatype Violation = Required(field: string) | TooLong(field: string, maxLength: nat)

  /** The field of `rule` is present, non-empty and at most maxLength characters. */
  predicate Satisfies(input: Input, rule: Rule) {
    rule.field in input && 1 <= |input[rule.field]| <= rule.maxLength
  }

  /** Evaluates one field's rule: "required" first, then the length bound. */
  function Check(input: Input, rule: Rule): (v: Option<Violation>)
    ensures v.None? <==> Satisfies(input, rule)
    ensures v.Some? ==> v.value.field == rule.field
    ensures v == Some(Required(rule.field)) <==> rule.field !in input || |input[rule.field]| == 0
    ensures v.Some? && v.value.TooLong? ==> v.value.maxLength == rule.maxLength
  {
    if rule.field !in input || input[rule.field] == [] then Some(Required(rule.field))
    else if |input[rule.field]| > rule.maxLength then Some(TooLong(rule.field, rule.maxLength))
    else None
  }

  /**
   * All violations of a rule set: every one comes from a failing rule, and
   * every failing rule's violation is listed (ViolationCount: one per
   * failing rule).
   */
  function Violations(input: Input, rules: seq<Rule>): (vs: seq<Violation>)
    ensures |vs| <= |rules|
    ensures forall v :: v in vs ==> exists i :: 0 <= i < |rules| && Check(input, rules[i]) == Some(v)
    ensures forall i :: 0 <= i < |rules| && !Satisfies(input, rules[i]) ==> Check(input, rules[i]).value in vs
  {
    if rules == [] then []
    else
      var rest := Violations(input, rules[1..]);
      assert forall v :: v in rest ==> exists i :: 1 <= i < |rules| && Check(input, rules[i]) == Some(v) by {
        forall v | v in rest ensures exists i :: 1 <= i < |rules| && Check(input, rules[i]) == Some(v) {
          var j :| 0 <= j < |rules[1..]| && Check(input, rules[1..][j]) == Some(v);
          assert rules[1..][j] == rules[j + 1];
        }
      }
      match Check(input, rules[0])
      case None => rest
      case Some(v) => [v] + rest
  }

  /** The positions of the rules that do not hold. */
  ghost function FailingRules(input: Input, rules: seq<Rule>): set<nat> {
    set i: nat | i < |rules| && !Satisfies(input, rules[i])
  }

  /** Every index moved one place on. */
  ghost function Shift(s: set<nat>): set<nat> {
    set i | i in s :: i + 1
  }

  /** Shifting every index by one keeps the number of indices. */
  lemma {:induction false} ShiftedCount(s: set<nat>)
    ensures |Shift(s)| == |s|
  {
    if s != {} {
      var x :| x in s;
      ShiftedCount(s - {x});
      assert Shift(s) == Shift(s - {x}) + {x + 1} by {
        forall j | j in Shift(s) ensures j in Shift(s - {x}) + {x + 1} {
          var i :| i in s && j == i + 1;
          if i != x { assert i in s - {x}; }
        }
      }
      assert x + 1 !in Shift(s - {x});
    }
  }

  /** The failing rules after the first are those of the tail, moved one place on. */
  lemma FailingRulesStep(input: Input, rules: seq<Rule>)
    requires rules != []
    ensures FailingRules(input, rules) - {0} == Shift(FailingRules(input, rules[1..]))
  {
    var all, tail := FailingRules(input, rules), FailingRules(input, rules[1..]);
    forall i: nat | i in all - {0} ensures i in Shift(tail) {
      assert rules[1..][i - 1] == rules[i];
      assert i - 1 in tail;
    }
    forall j | j in Shift(tail) ensures j in all - {0} {
      var i :| i in tail && j == i + 1;
      assert rules[1..][i] == rules[j];
    }
  }

  /** The first rule adds one violation exactly when it fails. */
  lemma ViolationsStep(input: Input, rules: seq<Rule>)
    requires rules != []
    ensures |Violations(input, rules)| == |Violations(input, rules[1..])| + (if Satisfies(input, rules[0]) then 0 else 1)
  {
  }

  /** The first rule adds one failing position exactly when it fails. */
  lemma FailingRulesCount(input: Input, rules: seq<Rule>)
    requires rules != []
    ensures |FailingRules(input, rules)| == |FailingRules(input, rules[1..])| + (if Satisfies(input, rules[0]) then 0 else 1)
  {
    var all, tail := FailingRules(input, rules), FailingRules(input, rules[1..]);
    FailingRulesStep(input, rules);
    ShiftedCount(tail);
    if Satisfies(input, rules[0]) {
      assert all == Shift(tail);
    } else {
      assert 0 !in Shift(tail);
      assert all == Shift(tail) + {0};
    }
  }

  /** Violations lists exactly as many entries as there are failing rules. */
  lemma {:induction false} ViolationCount(input: Input, rules: seq<Rule>)
    ensures |Violations(input, rules)| == |FailingRules(input, rules)|
  {
    if rules != [] {
      ViolationCount(input, rules[1..]);
      ViolationsStep(input, rules);
      FailingRulesCount(input, rules);
    }
  }

  /** The validator passes exactly when every declared rule holds. */
  function Passes(input: Input, rules: seq<Rule>): (ok: bool)
    ensures ok <==> forall i :: 0 <= i < |rules| ==> Satisfies(input, rules[i])
  {
    var vs := Violations(input, rules);
    assert vs != [] ==> vs[0] in vs;
    vs == []
  }

  /**
   * Fields the rule set does not declare play no part: adding or changing
   * one leaves the violations, hence the verdict, unchanged.
   */
  lemma {:induction false} UndeclaredFieldIgnored(input: Input, rules: seq<Rule>, k: string, text: string)
    requires forall i :: 0 <= i < |rules| ==> rules[i].field != k
    ensures Violations(input[k := text], rules) == Violations(input, rules)
  {
    if rules != [] {
      UndeclaredFieldIgnored(input, rules[1..], k, text);
    }
  }
}
