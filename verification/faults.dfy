/** Which error a condition node reports: the first one in declaration order, and exactly when that order is
    immaterial. */
module Faults {
  import opened Workflow
  import opened Conditions

  /** The same elements, each as often, in any order. */
  ghost predicate Shuffled<X>(a: seq<X>, b: seq<X>) { multiset(a) == multiset(b) }

  /** The fault of the first element that has one. */
  ghost function First<X>(xs: seq<X>, fault: X -> Option<Fault>): Option<Fault> {
    if xs == [] then None
    else if fault(xs[0]).Some? then fault(xs[0])
    else First(xs[1..], fault)
  }

  ghost predicate OneFault<X(!new)>(xs: seq<X>, fault: X -> Option<Fault>) {
    forall a, b :: a in xs && b in xs && fault(a).Some? && fault(b).Some? ==> fault(a) == fault(b)
  }

  lemma {:induction false} FirstIsFault<X>(xs: seq<X>, fault: X -> Option<Fault>)
    ensures First(xs, fault).Some? <==> exists x :: x in xs && fault(x).Some?
    ensures First(xs, fault).Some? ==> exists x :: x in xs && fault(x) == First(xs, fault)
  {
    if xs == [] {
    } else {
      assert forall x :: x in xs <==> x == xs[0] || x in xs[1..];
      FirstIsFault(xs[1..], fault);
    }
  }

  function MovedToFront<X>(xs: seq<X>, i: nat): (r: seq<X>)
    requires i < |xs|
    ensures |r| == |xs| && r[0] == xs[i] && multiset(r) == multiset(xs)
  {
    var r := [xs[i]] + (xs[..i] + xs[i + 1..]);
    assert xs == xs[..i] + ([xs[i]] + xs[i + 1..]);
    r
  }

  lemma SameElements<X>(a: seq<X>, b: seq<X>)
    requires Shuffled(a, b)
    ensures forall x :: x in a <==> x in b
  {
    forall x ensures x in a <==> x in b {
      assert x in a <==> x in multiset(a);
      assert x in b <==> x in multiset(b);
    }
  }

  ghost predicate OrderFree<X(!new)>(xs: seq<X>, fault: X -> Option<Fault>) {
    forall ys :: Shuffled(ys, xs) ==> First(ys, fault) == First(xs, fault)
  }

  /** The first fault is the same in every order exactly when all faults are the same one. */
  lemma FirstOrderFree<X(!new)>(xs: seq<X>, fault: X -> Option<Fault>)
    ensures OrderFree(xs, fault) <==> OneFault(xs, fault)
  {
    if OrderFree(xs, fault) {
      forall a, b | a in xs && b in xs && fault(a).Some? && fault(b).Some? ensures fault(a) == fault(b) {
        var i :| 0 <= i < |xs| && xs[i] == a;
        var j :| 0 <= j < |xs| && xs[j] == b;
        assert Shuffled(MovedToFront(xs, i), xs) && Shuffled(MovedToFront(xs, j), xs);
      }
    }
    if OneFault(xs, fault) {
      forall ys | Shuffled(ys, xs) ensures First(ys, fault) == First(xs, fault) {
        SameElements(ys, xs);
        FirstIsFault(ys, fault);
        FirstIsFault(xs, fault);
      }
    }
  }

  /* The three orders that decide which fault is reported */

  ghost function FaultOfRule(parse: Rationals, data: Value): Rule -> Option<Fault> {
    (r: Rule) => RuleFault(parse, r.conditions, data)
  }

  ghost function FaultOfExpression(parse: Rationals, data: Value): Expression -> Option<Fault> {
    (e: Expression) => if Verdict(parse, e, data).Err? then Some(Verdict(parse, e, data).fault) else None
  }

  ghost function FaultOfMember(parse: Rationals): Value -> Option<Fault> {
    (v: Value) => if MemberAllowed(parse, v) then None else Some(MemberFault(parse, v))
  }

  lemma {:induction false} RulesFaultIsFirst(parse: Rationals, rules: seq<Rule>, data: Value)
    ensures RulesFault(parse, rules, data) == First(rules, FaultOfRule(parse, data))
  {
    if rules == [] {
    } else {
      RulesFaultIsFirst(parse, rules[1..], data);
    }
  }

  lemma {:induction false} RuleFaultIsFirst(parse: Rationals, conditions: seq<Expression>, data: Value)
    ensures RuleFault(parse, conditions, data) == First(conditions, FaultOfExpression(parse, data))
  {
    if conditions == [] {
    } else {
      RuleFaultIsFirst(parse, conditions[1..], data);
    }
  }

  lemma {:induction false} MembersFaultIsFirst(parse: Rationals, members: seq<Value>)
    ensures FirstBadMember(parse, members) == First(members, FaultOfMember(parse))
  {
    if members == [] {
    } else {
      MembersFaultIsFirst(parse, members[1..]);
    }
  }

  /** The reported fault survives every reordering of the rules exactly when all rules that err, err alike. */
  lemma RuleOrderImmaterial(parse: Rationals, rules: seq<Rule>, data: Value)
    ensures (forall other :: Shuffled(other, rules) ==>
             RulesFault(parse, other, data) == RulesFault(parse, rules, data))
            <==> (forall r, s :: r in rules && s in rules && Errs(parse, r, data) && Errs(parse, s, data) ==>
                    RuleFault(parse, r.conditions, data) == RuleFault(parse, s.conditions, data))
  {
    hide Errs, RuleFault, RulesFault;
    var fault := FaultOfRule(parse, data);
    FirstOrderFree(rules, fault);
    forall other: seq<Rule> ensures RulesFault(parse, other, data) == First(other, fault) {
      RulesFaultIsFirst(parse, other, data);
    }
    forall r: Rule ensures fault(r) == RuleFault(parse, r.conditions, data)
        && (fault(r).Some? <==> Errs(parse, r, data)) {
      RuleFaultErrs(parse, r, data);
    }
  }

  /** Within one rule the reported fault survives every reordering exactly when all erring expressions err alike. */
  lemma ExpressionOrderImmaterial(parse: Rationals, conditions: seq<Expression>, data: Value)
    ensures (forall other :: Shuffled(other, conditions) ==>
             RuleFault(parse, other, data) == RuleFault(parse, conditions, data))
            <==> (forall e, f ::
                    e in conditions && f in conditions && Verdict(parse, e, data).Err? && Verdict(parse, f, data).Err?
                    ==> Verdict(parse, e, data) == Verdict(parse, f, data))
  {
    hide Verdict, RuleFault;
    var fault := FaultOfExpression(parse, data);
    FirstOrderFree(conditions, fault);
    forall other: seq<Expression> ensures RuleFault(parse, other, data) == First(other, fault) {
      RuleFaultIsFirst(parse, other, data);
    }
  }

  /** The fault of a collection survives every reordering of its members exactly when all unsupported members fault
      alike. */
  lemma MemberOrderImmaterial(parse: Rationals, members: seq<Value>)
    ensures (forall other :: Shuffled(other, members) ==>
             FirstBadMember(parse, other) == FirstBadMember(parse, members))
            <==> (forall m, n :: m in members && n in members && !MemberAllowed(parse, m) && !MemberAllowed(parse, n)
                    ==> MemberFault(parse, m) == MemberFault(parse, n))
  {
    hide MemberAllowed, MemberFault, FirstBadMember;
    var fault := FaultOfMember(parse);
    FirstOrderFree(members, fault);
    forall other: seq<Value> ensures FirstBadMember(parse, other) == First(other, fault) {
      MembersFaultIsFirst(parse, other);
    }
  }

  /* Rules and expressions reordered together */

  ghost predicate Erring(parse: Rationals, c: Config, data: Value, i: nat, e: Expression) {
    i < |c.rules| && e in c.rules[i].conditions && Verdict(parse, e, data).Err?
  }

  /** All expressions of the configuration that err, err alike. */
  ghost predicate OneFaultThroughout(parse: Rationals, c: Config, data: Value) {
    forall i: nat, j: nat, e, f :: Erring(parse, c, data, i, e) && Erring(parse, c, data, j, f) ==>
      Verdict(parse, e, data) == Verdict(parse, f, data)
  }

  lemma ReportedIsErring(parse: Rationals, c: Config, data: Value)
    requires RulesFault(parse, c.rules, data).Some?
    ensures exists i: nat, e :: Erring(parse, c, data, i, e)
              && Verdict(parse, e, data) == Err(RulesFault(parse, c.rules, data).value)
  {
    RulesFaultIsFirst(parse, c.rules, data);
    FirstIsFault(c.rules, FaultOfRule(parse, data));
    var r :| r in c.rules && FaultOfRule(parse, data)(r) == RulesFault(parse, c.rules, data);
    RuleFaultIsFirst(parse, r.conditions, data);
    FirstIsFault(r.conditions, FaultOfExpression(parse, data));
    var e :| e in r.conditions && FaultOfExpression(parse, data)(e) == RulesFault(parse, c.rules, data);
    var i :| 0 <= i < |c.rules| && c.rules[i] == r;
    assert Erring(parse, c, data, i, e);
  }

  lemma ErringStays(parse: Rationals, c: Config, d: Config, p: seq<nat>, q: seq<nat>, data: Value, j: nat,
                    e: Expression)
    requires Reordered(c, d, p, q) && Erring(parse, d, data, j, e)
    ensures j < |q| && Erring(parse, c, data, q[j], e)
  {
    assert RuleAlike(d.rules[j], c.rules[q[j]]);
    SameElements(d.rules[j].conditions, c.rules[q[j]].conditions);
  }

  /** The configuration with one expression evaluated before all others. */
  ghost function Promoted(c: Config, i: nat, at: nat): Config
    requires i < |c.rules| && at < |c.rules[i].conditions|
  {
    var rule := c.rules[i].(conditions := MovedToFront(c.rules[i].conditions, at));
    c.(rules := [rule] + (c.rules[..i] + c.rules[i + 1..]))
  }

  ghost function Rotation(n: nat, i: nat): seq<nat>
    requires i < n
  {
    seq(n, k requires 0 <= k < n => if k == i then 0 else if k < i then k + 1 else k)
  }

  ghost function RotatedBack(n: nat, i: nat): seq<nat>
    requires i < n
  {
    seq(n, k requires 0 <= k < n => if k == 0 then i else if k <= i then k - 1 else k)
  }

  lemma PromotedReorders(c: Config, i: nat, at: nat)
    requires i < |c.rules| && at < |c.rules[i].conditions|
    ensures Reordered(c, Promoted(c, i, at), Rotation(|c.rules|, i), RotatedBack(|c.rules|, i))
  {
    var d := Promoted(c, i, at);
    var p, q := Rotation(|c.rules|, i), RotatedBack(|c.rules|, i);
    forall k | 0 <= k < |p| ensures p[k] < |q| && q[p[k]] == k && RuleAlike(c.rules[k], d.rules[p[k]]) {
    }
    forall k | 0 <= k < |q| ensures q[k] < |p| && p[q[k]] == k && RuleAlike(d.rules[k], c.rules[q[k]]) {
    }
  }

  lemma PromotedFault(parse: Rationals, c: Config, data: Value, i: nat, at: nat)
    requires i < |c.rules| && at < |c.rules[i].conditions| && Verdict(parse, c.rules[i].conditions[at], data).Err?
    ensures RulesFault(parse, Promoted(c, i, at).rules, data)
              == Some(Verdict(parse, c.rules[i].conditions[at], data).fault)
  {
    hide Verdict;
    assert Promoted(c, i, at).rules[0].conditions[0] == c.rules[i].conditions[at];
  }

  ghost predicate ReportedAlike(parse: Rationals, c: Config, d: Config, data: Value) {
    RulesFault(parse, d.rules, data) == RulesFault(parse, c.rules, data)
  }

  /** Rules and expressions reordered in any way report the same fault exactly when all erring expressions err alike. */
  lemma OrderImmaterial(parse: Rationals, c: Config, data: Value)
    ensures (forall d, p, q :: Reordered(c, d, p, q) ==> ReportedAlike(parse, c, d, data))
              <==> OneFaultThroughout(parse, c, data)
  {
    hide Verdict, RuleFault, RulesFault, Reordered;
    if forall d, p, q :: Reordered(c, d, p, q) ==> ReportedAlike(parse, c, d, data) {
      forall i: nat, j: nat, e, f | Erring(parse, c, data, i, e) && Erring(parse, c, data, j, f)
        ensures Verdict(parse, e, data) == Verdict(parse, f, data)
      {
        Reported(parse, c, data, i, e);
        Reported(parse, c, data, j, f);
      }
    }
    if OneFaultThroughout(parse, c, data) {
      forall d, p, q | Reordered(c, d, p, q) ensures ReportedAlike(parse, c, d, data) {
        UniformReports(parse, c, d, p, q, data);
      }
    }
  }

  lemma Reported(parse: Rationals, c: Config, data: Value, i: nat, e: Expression)
    requires forall d, p, q :: Reordered(c, d, p, q) ==> ReportedAlike(parse, c, d, data)
    requires Erring(parse, c, data, i, e)
    ensures RulesFault(parse, c.rules, data) == Some(Verdict(parse, e, data).fault)
  {
    hide Verdict, RuleFault, RulesFault, Reordered;
    var at :| 0 <= at < |c.rules[i].conditions| && c.rules[i].conditions[at] == e;
    PromotedReorders(c, i, at);
    PromotedFault(parse, c, data, i, at);
    assert ReportedAlike(parse, c, Promoted(c, i, at), data);
  }

  lemma UniformReports(parse: Rationals, c: Config, d: Config, p: seq<nat>, q: seq<nat>, data: Value)
    requires OneFaultThroughout(parse, c, data) && Reordered(c, d, p, q)
    ensures ReportedAlike(parse, c, d, data)
  {
    hide Verdict, RuleFault, RulesFault, Erring, AnyErrs;
    RulesFaultErrs(parse, c, data);
    RulesFaultErrs(parse, d, data);
    SimilarToItself(data);
    OrderFreeErrors(parse, c, d, p, q, data);
    if RulesFault(parse, c.rules, data).Some? {
      ReportedIsErring(parse, c, data);
      ReportedIsErring(parse, d, data);
      var i: nat, e :| Erring(parse, c, data, i, e)
          && Verdict(parse, e, data) == Err(RulesFault(parse, c.rules, data).value);
      var j: nat, f :| Erring(parse, d, data, j, f)
          && Verdict(parse, f, data) == Err(RulesFault(parse, d.rules, data).value);
      ErringStays(parse, c, d, p, q, data, j, f);
      var there := q[j];
      assert Erring(parse, c, data, there, f);
      assert Verdict(parse, e, data) == Verdict(parse, f, data);
    }
  }

  lemma OrderFreeErrors(parse: Rationals, c: Config, d: Config, p: seq<nat>, q: seq<nat>, data: Value)
    requires Reordered(c, d, p, q) && Similar(data, data)
    ensures AnyErrs(parse, c, data) <==> AnyErrs(parse, d, data)
  {
    ReorderedSelects(parse, c, d, p, q, data, data, EMPTY);
  }
}
