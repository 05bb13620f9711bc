/** What the condition node chooses, told in the values of the data: comparisons, texts, membership, rules. */
module ConditionLaws {
  import opened Workflow
  import opened Pointers
  import opened Conditions

  /* One expression */

  /** A configuration of one expression, with nothing to fall back to. */
  function Only(e: Expression, outcome: Outcome): Config { Config([Rule(MatchAll, [e], outcome)], EMPTY) }

  /** The node chooses the outcome of the rule that holds this expression alone. */
  ghost predicate Passes(parse: Rationals, data: Value, e: Expression) {
    forall outcome :: Selects(parse, Only(e, outcome), data, outcome)
  }

  /** The node refuses the expression with an error. */
  ghost predicate Fails(parse: Rationals, data: Value, e: Expression) { AnyErrs(parse, Only(e, EMPTY), data) }

  lemma OnlyVerdict(parse: Rationals, data: Value, e: Expression)
    ensures Passes(parse, data, e) <==> data.Object? && Verdict(parse, e, data) == Ok(true)
    ensures Fails(parse, data, e) <==> Verdict(parse, e, data).Err?
    ensures forall outcome, o ::
              Selects(parse, Only(e, outcome), data, o) <==>
                o == outcome && data.Object? && Verdict(parse, e, data) == Ok(true)
  {
    hide Verdict;
    forall outcome, o
      ensures AnyErrs(parse, Only(e, outcome), data) <==> Verdict(parse, e, data).Err?
      ensures Selects(parse, Only(e, outcome), data, o) <==>
                o == outcome && data.Object? && Verdict(parse, e, data) == Ok(true)
    {
      OnlyRule(parse, data, e, outcome, o);
    }
    OnlyRule(parse, data, e, EMPTY, EMPTY);
  }

  lemma OnlyRule(parse: Rationals, data: Value, e: Expression, outcome: Outcome, o: Outcome)
    ensures AnyErrs(parse, Only(e, outcome), data) <==> Verdict(parse, e, data).Err?
    ensures Selects(parse, Only(e, outcome), data, o) <==>
              o == outcome && data.Object? && Verdict(parse, e, data) == Ok(true)
  {
    hide Verdict;
    var c := Only(e, outcome);
    var rule := c.rules[0];
    assert rule.conditions[0] == e && rule in c.rules && e in rule.conditions;
    assert HoldsAt(parse, c, data, 0) <==> Verdict(parse, e, data) == Ok(true);
    if HoldsAt(parse, c, data, 0) { assert Alone(parse, c, data, 0); }
  }

  /** The field of an object that a pointer of one name leads to, and of everything below it. */
  lemma FieldByName(data: Value, name: string, rest: seq<string>)
    ensures Field(data, Render([name] + rest)) ==
              if !data.Object? || name !in data.fields then None
              else if rest == [] then Some(data.fields[name]) else Field(data.fields[name], Render(rest))
  {
    hide Parsed, Render;
    var tokens := [name] + rest;
    PointerBijection(Render(tokens), tokens);
    if rest != [] {
      PointerBijection(Render(rest), rest);
    }
    LookupByName(data, name, rest);
  }

  lemma LookupByName(data: Value, name: string, rest: seq<string>)
    ensures Lookup(data, [name] + rest) ==
              if data.Object? && name in data.fields then Lookup(data.fields[name], rest) else None
    ensures Lookup(data, []) == Some(data)
    ensures data.Object? && name in data.fields ==> Lookup(data.fields[name], []) == Some(data.fields[name])
  {
    assert ([name] + rest)[1..] == rest;
  }

  lemma MissingFails(parse: Rationals, data: Value, e: Expression)
    requires Field(data, e.field) == None
    ensures Fails(parse, data, e) && !Passes(parse, data, e)
  {
    OnlyVerdict(parse, data, e);
  }

  /* Numbers */

  /** The pointed-to field holds a number of the value. */
  ghost predicate NumberAt(parse: Rationals, data: Value, field: string, x: real) {
    data.Object? && match Field(data, field) case Some(Number(text)) => parse(text) == Some(x) case _ => false
  }

  function Compare(field: string, operator: Operator, bound: string): Expression {
    Expression(field, NumberType, operator, Number(bound))
  }

  /** Each numeric operator chooses for exactly the values it is named for. */
  lemma NumbersCompare(parse: Rationals, data: Value, field: string, x: real, bound: string, y: real)
    requires NumberAt(parse, data, field, x) && parse(bound) == Some(y)
    ensures Passes(parse, data, Compare(field, Equal, bound)) <==> x == y
    ensures Passes(parse, data, Compare(field, NotEqual, bound)) <==> x != y
    ensures Passes(parse, data, Compare(field, GreaterThan, bound)) <==> x > y
    ensures Passes(parse, data, Compare(field, GreaterOrEqual, bound)) <==> x >= y
    ensures Passes(parse, data, Compare(field, LessThan, bound)) <==> x < y
    ensures Passes(parse, data, Compare(field, LessOrEqual, bound)) <==> x <= y
  {
    hide Selects, AnyErrs, Passes, Fails, Field;
    forall op: Operator
      ensures Passes(parse, data, Compare(field, op, bound)) <==>
                EvaluateNumber(parse, Field(data, field).value, Compare(field, op, bound)) == Ok(true)
    {
      OnlyVerdict(parse, data, Compare(field, op, bound));
    }
  }

  /** Raising a value never turns a lower bound off, and lowering it never an upper bound. */
  lemma NumbersMonotone(parse: Rationals, low: Value, high: Value, field: string, x: real, y: real, bound: string)
    requires NumberAt(parse, low, field, x) && NumberAt(parse, high, field, y) && x <= y && parse(bound).Some?
    ensures Passes(parse, low, Compare(field, GreaterThan, bound)) ==>
              Passes(parse, high, Compare(field, GreaterThan, bound))
    ensures Passes(parse, low, Compare(field, GreaterOrEqual, bound)) ==>
              Passes(parse, high, Compare(field, GreaterOrEqual, bound))
    ensures Passes(parse, high, Compare(field, LessThan, bound)) ==> Passes(parse, low, Compare(field, LessThan, bound))
    ensures Passes(parse, high, Compare(field, LessOrEqual, bound)) ==>
              Passes(parse, low, Compare(field, LessOrEqual, bound))
    ensures x == y ==>
              forall op ::
                Passes(parse, low, Compare(field, op, bound)) <==> Passes(parse, high, Compare(field, op, bound))
  {
    hide Passes;
    NumbersCompare(parse, low, field, x, bound, parse(bound).value);
    NumbersCompare(parse, high, field, y, bound, parse(bound).value);
    if x == y {
      forall op: Operator
        ensures Passes(parse, low, Compare(field, op, bound)) <==> Passes(parse, high, Compare(field, op, bound))
      {
        OnlyVerdict(parse, low, Compare(field, op, bound));
        OnlyVerdict(parse, high, Compare(field, op, bound));
      }
    }
  }

  /** Exactly one of less, equal and greater chooses; the inclusive operators are their disjunctions, and inequality is
      the negation of equality. */
  lemma NumbersTrichotomy(parse: Rationals, data: Value, field: string, x: real, bound: string)
    requires NumberAt(parse, data, field, x) && parse(bound).Some?
    ensures var less := Passes(parse, data, Compare(field, LessThan, bound));
            var equal := Passes(parse, data, Compare(field, Equal, bound));
            var greater := Passes(parse, data, Compare(field, GreaterThan, bound));
            && (less || equal || greater) && !(less && equal) && !(less && greater) && !(equal && greater)
            && (Passes(parse, data, Compare(field, LessOrEqual, bound)) <==> less || equal)
            && (Passes(parse, data, Compare(field, GreaterOrEqual, bound)) <==> greater || equal)
            && (Passes(parse, data, Compare(field, NotEqual, bound)) <==> !equal)
  {
    NumbersCompare(parse, data, field, x, bound, parse(bound).value);
  }

  /** The strict operators do choose for some data: an object whose one member lies on their side of the bound. */
  lemma StrictIsSatisfiable(parse: Rationals, name: string, low: string, high: string)
    requires parse(low).Some? && parse(high).Some? && parse(low).value < parse(high).value
    ensures Passes(parse, Object(map[name := Number(high)]), Compare(Render([name]), GreaterThan, low))
    ensures Passes(parse, Object(map[name := Number(low)]), Compare(Render([name]), LessThan, high))
  {
    hide Passes;
    var above, below := Object(map[name := Number(high)]), Object(map[name := Number(low)]);
    assert [name] + [] == [name];
    FieldByName(above, name, []);
    FieldByName(below, name, []);
    NumbersCompare(parse, above, Render([name]), parse(high).value, low, parse(low).value);
    NumbersCompare(parse, below, Render([name]), parse(low).value, high, parse(high).value);
  }

  /** A number is compared with nothing but a number, and only when both have a value. */
  lemma NumbersOnly(parse: Rationals, data: Value, e: Expression)
    requires data.Object? && e.valueType == NumberType
    requires Field(data, e.field).Some?
               && e.operator in {Equal, NotEqual, GreaterThan, GreaterOrEqual, LessThan, LessOrEqual}
    ensures Fails(parse, data, e) <==>
              !((exists x :: NumberAt(parse, data, e.field, x)) && e.value.Number? && parse(e.value.text).Some?)
  {
    OnlyVerdict(parse, data, e);
    var actual := Field(data, e.field).value;
    if actual.Number? && parse(actual.text).Some? { assert NumberAt(parse, data, e.field, parse(actual.text).value); }
  }

  /* Texts */

  ghost predicate TextAt(data: Value, field: string, text: string) {
    data.Object? && Field(data, field) == Some(Text(text))
  }

  function Match(field: string, operator: Operator, part: string): Expression {
    Expression(field, StringType, operator, Text(part))
  }

  /** The textual operators choose by what can be put before and after the part. */
  lemma TextsMatch(parse: Rationals, data: Value, field: string, text: string, part: string)
    requires TextAt(data, field, text)
    ensures Passes(parse, data, Match(field, Equal, part)) <==> text == part
    ensures Passes(parse, data, Match(field, NotEqual, part)) <==> !Passes(parse, data, Match(field, Equal, part))
    ensures Passes(parse, data, Match(field, StartsWith, part)) <==> exists rest :: text == part + rest
    ensures Passes(parse, data, Match(field, EndsWith, part)) <==> exists front :: text == front + part
    ensures Passes(parse, data, Match(field, Contains, part)) <==> exists front, rest :: text == front + part + rest
  {
    hide Selects, AnyErrs, Passes, Fails, Field, Within;
    forall op: Operator
      ensures Passes(parse, data, Match(field, op, part)) <==>
                EvaluateString(Text(text), Match(field, op, part)) == Ok(true)
    {
      OnlyVerdict(parse, data, Match(field, op, part));
    }
    PrefixIsFront(text, part);
    SuffixIsBack(text, part);
    WithinIsMiddle(text, part);
  }

  lemma PrefixIsFront(text: string, part: string)
    ensures part <= text <==> exists rest :: text == part + rest
  {
    if part <= text { assert text == part + text[|part|..]; }
  }

  lemma SuffixIsBack(text: string, part: string)
    ensures |part| <= |text| && text[|text| - |part|..] == part <==> exists front :: text == front + part
  {
    if |part| <= |text| && text[|text| - |part|..] == part { assert text == text[..|text| - |part|] + part; }
    if front :| text == front + part { assert text[|front|..] == part; }
  }

  lemma WithinIsMiddle(text: string, part: string)
    ensures Within(part, text) <==> exists front, rest :: text == front + part + rest
  {
    if i :| 0 <= i <= |text| && part <= text[i..] {
      assert text == text[..i] + part + text[i + |part|..];
    }
    if front, rest :| text == front + part + rest {
      assert part <= text[|front|..];
    }
  }

  /* Booleans */

  /** Equality and inequality of flags choose for opposite data, and each for one of the two flags. */
  lemma FlagsMatch(parse: Rationals, data: Value, field: string, on: bool, expected: bool)
    requires data.Object? && Field(data, field) == Some(Flag(on))
    ensures Passes(parse, data, Expression(field, BooleanType, Equal, Flag(expected))) <==> on == expected
    ensures Passes(parse, data, Expression(field, BooleanType, NotEqual, Flag(expected))) <==> on != expected
  {
    OnlyVerdict(parse, data, Expression(field, BooleanType, Equal, Flag(expected)));
    OnlyVerdict(parse, data, Expression(field, BooleanType, NotEqual, Flag(expected)));
  }

  /* Collections */

  /** The pointed-to field holds a collection of texts, flags and numbers that have a value. */
  ghost predicate MembersAt(parse: Rationals, data: Value, field: string, members: seq<Value>) {
    && data.Object? && Field(data, field) == Some(List(members))
    && forall m :: m in members ==> match m case Text(_) => true case Flag(_) => true
                                            case Number(text) => parse(text).Some? case _ => false
  }

  function Hold(field: string, operator: Operator, value: Value): Expression {
    Expression(field, CollectionType, operator, value)
  }

  /** Texts and flags are members as they are, numbers by value, anything else never. */
  lemma MembersContain(parse: Rationals, data: Value, field: string, members: seq<Value>, candidate: Value)
    requires MembersAt(parse, data, field, members)
    ensures candidate.Text? || candidate.Flag? ==>
              (Passes(parse, data, Hold(field, Contains, candidate)) <==> candidate in members)
    ensures candidate.Number? ==>
              (Passes(parse, data, Hold(field, Contains, candidate)) <==>
               exists m :: m in members && m.Number? && parse(m.text) == parse(candidate.text))
    ensures candidate.Null? || candidate.List? || candidate.Object? ==>
              !Passes(parse, data, Hold(field, Contains, candidate))
  {
    hide Selects, AnyErrs, Passes, Fails, Field;
    HoldVerdict(parse, data, field, members, Contains, candidate);
    if Has(parse, members, candidate) {
      var m :| m in members && EqualPrimitive(parse, m, candidate);
    }
    if candidate in members { assert EqualPrimitive(parse, candidate, candidate); }
    if candidate.Number? {
      if m :| m in members && m.Number? && parse(m.text) == parse(candidate.text) {
        assert EqualPrimitive(parse, m, candidate);
      }
    }
  }

  lemma HoldVerdict(parse: Rationals, data: Value, field: string, members: seq<Value>, operator: Operator, value: Value)
    requires MembersAt(parse, data, field, members)
    ensures Passes(parse, data, Hold(field, operator, value)) <==>
              Membership(parse, members, operator, value) == Ok(true)
  {
    hide Selects, AnyErrs, Passes, Fails, Field, Membership;
    OnlyVerdict(parse, data, Hold(field, operator, value));
    assert FirstBadMember(parse, members).None?;
  }

  /** Any of the candidates is one of them alone; all of them is each of them alone. */
  lemma CandidatesSplit(parse: Rationals, data: Value, field: string, members: seq<Value>, candidates: seq<Value>)
    requires MembersAt(parse, data, field, members)
    ensures Passes(parse, data, Hold(field, ContainsAny, List(candidates))) <==>
              exists c :: c in candidates && Passes(parse, data, Hold(field, Contains, c))
    ensures Passes(parse, data, Hold(field, ContainsAll, List(candidates))) <==>
              forall c :: c in candidates ==> Passes(parse, data, Hold(field, Contains, c))
  {
    hide Passes, Has, MembersAt;
    HoldVerdict(parse, data, field, members, ContainsAny, List(candidates));
    HoldVerdict(parse, data, field, members, ContainsAll, List(candidates));
    forall c ensures Passes(parse, data, Hold(field, Contains, c)) <==> Has(parse, members, c) {
      HoldVerdict(parse, data, field, members, Contains, c);
    }
  }

  /* Rules */

  /** A rule that wants all its expressions is chosen when each would be alone; one that wants any, when one would be
      and none is in error. */
  lemma RuleIsItsExpressions(parse: Rationals, data: Value, rule: Rule)
    requires data.Object?
    ensures rule.mode == MatchAll ==>
              (Selects(parse, Config([rule], EMPTY), data, rule.outcome) <==>
               forall e :: e in rule.conditions ==> Passes(parse, data, e))
    ensures rule.mode == MatchAny ==>
              (Selects(parse, Config([rule], EMPTY), data, rule.outcome) <==>
               && (exists e :: e in rule.conditions && Passes(parse, data, e))
               && forall e :: e in rule.conditions ==> !Fails(parse, data, e))
  {
    hide Verdict, Passes, Fails;
    forall e: Expression
      ensures Passes(parse, data, e) <==> Verdict(parse, e, data) == Ok(true)
      ensures Fails(parse, data, e) <==> Verdict(parse, e, data).Err?
    {
      OnlyVerdict(parse, data, e);
    }
    OneRule(parse, data, rule);
  }

  lemma OneRule(parse: Rationals, data: Value, rule: Rule)
    ensures Selects(parse, Config([rule], EMPTY), data, rule.outcome) <==>
              data.Object? && !Errs(parse, rule, data) && Holds(parse, rule, data)
    ensures AnyErrs(parse, Config([rule], EMPTY), data) <==> Errs(parse, rule, data)
  {
    hide Errs, Holds;
    var c := Config([rule], EMPTY);
    assert c.rules[0] == rule && rule in c.rules;
    if HoldsAt(parse, c, data, 0) { assert Alone(parse, c, data, 0); }
  }

  /* Configurations */

  /** The rule at a position would be chosen on its own. */
  ghost predicate ChosenAlone(parse: Rationals, c: Config, data: Value, i: nat) {
    i < |c.rules| && Selects(parse, Config([c.rules[i]], EMPTY), data, c.rules[i].outcome)
  }

  /** No rule is in error on its own. */
  ghost predicate Errorless(parse: Rationals, c: Config, data: Value) {
    forall i: nat :: i < |c.rules| ==> !AnyErrs(parse, Config([c.rules[i]], EMPTY), data)
  }

  lemma RulesSeparately(parse: Rationals, c: Config, data: Value)
    requires data.Object?
    ensures Errorless(parse, c, data) <==> !AnyErrs(parse, c, data)
    ensures Errorless(parse, c, data) ==>
              forall i: nat :: ChosenAlone(parse, c, data, i) <==> HoldsAt(parse, c, data, i)
  {
    hide Errs, Holds, Selects;
    forall i: nat | i < |c.rules|
      ensures AnyErrs(parse, Config([c.rules[i]], EMPTY), data) <==> Errs(parse, c.rules[i], data)
      ensures Selects(parse, Config([c.rules[i]], EMPTY), data, c.rules[i].outcome) <==>
                !Errs(parse, c.rules[i], data) && Holds(parse, c.rules[i], data)
    {
      OneRule(parse, data, c.rules[i]);
    }
    assert Errorless(parse, c, data) ==> !AnyErrs(parse, c, data);
    assert !Errorless(parse, c, data) ==> AnyErrs(parse, c, data);
  }

  /** With no rule in error: two rules that would each be chosen alone exclude every choice; a rule that alone would be
      is chosen, whatever the default; and where none would be, the default is, if there is one. */
  lemma ConfigIsItsRules(parse: Rationals, c: Config, data: Value, outcome: Outcome)
    requires data.Object? && Errorless(parse, c, data)
    ensures (exists i: nat, j: nat :: i < j && ChosenAlone(parse, c, data, i) && ChosenAlone(parse, c, data, j)) ==>
              !Selects(parse, c, data, outcome)
    ensures forall i: nat ::
              ChosenAlone(parse, c, data, i) && (forall j: nat :: ChosenAlone(parse, c, data, j) ==> j == i) ==>
              (Selects(parse, c, data, outcome) <==> outcome == c.rules[i].outcome)
    ensures (forall i: nat :: !ChosenAlone(parse, c, data, i)) ==>
              (Selects(parse, c, data, outcome) <==> outcome == c.defaultOutcome && outcome != EMPTY)
  {
    RulesSeparately(parse, c, data);
    hide Errorless, ChosenAlone, AnyErrs, HoldsAt;
    if i: nat, j: nat :| i < j && ChosenAlone(parse, c, data, i) && ChosenAlone(parse, c, data, j) {
      assert HoldsAt(parse, c, data, i) && HoldsAt(parse, c, data, j);
    }
    forall i: nat | ChosenAlone(parse, c, data, i) && forall j: nat :: ChosenAlone(parse, c, data, j) ==> j == i
      ensures Selects(parse, c, data, outcome) <==> outcome == c.rules[i].outcome
    {
      assert Alone(parse, c, data, i);
      SelectsAlone(parse, c, data, i);
    }
  }

  /* Accepted configurations */

  /** A comparison of one value is accepted exactly when some field value lets it be decided; a membership, when some
      collection has the member. */
  lemma AcceptedIsDecidable(parse: Rationals, e: Expression)
    ensures e.valueType != CollectionType ==>
              (ExpressionAllowed(parse, e) <==> exists actual :: ValueVerdict(parse, e, actual).Ok?)
    ensures e.valueType == CollectionType && e.operator == Contains ==>
              (ExpressionAllowed(parse, e) <==> exists actual :: ValueVerdict(parse, e, actual) == Ok(true))
  {
    hide Has;
    if e.valueType != CollectionType {
      if ExpressionAllowed(parse, e) { assert ValueVerdict(parse, e, e.value).Ok?; }
    } else if e.operator == Contains {
      ContainsIsSatisfiable(parse, e);
    }
  }

  lemma ContainsIsSatisfiable(parse: Rationals, e: Expression)
    requires e.valueType == CollectionType && e.operator == Contains
    ensures MemberAllowed(parse, e.value) <==> exists actual :: ValueVerdict(parse, e, actual) == Ok(true)
  {
    if MemberAllowed(parse, e.value) {
      var members := [e.value];
      assert members[0] == e.value && e.value in members;
      assert EqualPrimitive(parse, e.value, e.value);
      assert Has(parse, members, e.value);
      assert ValueVerdict(parse, e, List(members)) == Ok(true);
    }
    if actual :| ValueVerdict(parse, e, actual) == Ok(true) {
      var m :| m in actual.items && EqualPrimitive(parse, m, e.value);
      assert MemberAllowed(parse, m);
    }
  }

  /** Several candidates are accepted exactly when there are some and each is accepted alone. */
  lemma CandidatesAccepted(parse: Rationals, e: Expression)
    requires e.valueType == CollectionType && e.operator != Contains
    ensures ExpressionAllowed(parse, e) <==>
              && (e.operator == ContainsAny || e.operator == ContainsAll) && e.value.List? && e.value.items != []
              && forall m :: m in e.value.items ==> ExpressionAllowed(parse, e.(operator := Contains, value := m))
  {
    if e.value.List?
       && forall m :: m in e.value.items ==> ExpressionAllowed(parse, e.(operator := Contains, value := m)) {
      forall m | m in e.value.items ensures MemberAllowed(parse, m) {
        assert ExpressionAllowed(parse, e.(operator := Contains, value := m));
      }
    }
  }
}
