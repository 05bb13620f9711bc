/** The official condition node: rules over business data, evaluated without any order mattering to the outcome. */
module Conditions {
  import opened Workflow
  import opened Pointers
  import T = Transitions

  /** Decoded JSON; numbers keep their text. */
  datatype Value =
    | Null | Text(text: string) | Number(text: string) | Flag(on: bool)
    | List(items: seq<Value>) | Object(fields: map<string, Value>)

  /** The exact value of a number's text, when it has one. */
  type Rationals = string -> Option<real>

  datatype ValueType = StringType | NumberType | BooleanType | CollectionType | UnknownType

  datatype Operator =
    | Equal | NotEqual | Contains | StartsWith | EndsWith
    | GreaterThan | GreaterOrEqual | LessThan | LessOrEqual
    | ContainsAny | ContainsAll | UnknownOperator

  datatype MatchMode = MatchAll | MatchAny | UnknownMatch

  datatype Expression = Expression(field: string, valueType: ValueType, operator: Operator, value: Value)

  datatype Rule = Rule(mode: MatchMode, conditions: seq<Expression>, outcome: Outcome)

  datatype Config = Config(rules: seq<Rule>, defaultOutcome: Outcome)

  datatype Fault = FieldNotFound | TypeMismatch | InvalidData | InvalidConfig | NoMatch | MultipleMatches

  datatype Answer<+V> = Ok(value: V) | Err(fault: Fault)

  /* Fields */

  /** Follows object members only. */
  function Lookup(data: Value, tokens: seq<string>): Option<Value> {
    if tokens == [] then Some(data)
    else if !data.Object? || tokens[0] !in data.fields then None
    else Lookup(data.fields[tokens[0]], tokens[1..])
  }

  function Field(data: Value, pointer: string): Option<Value> {
    if Parsed(pointer).None? then None else Lookup(data, Parsed(pointer).value)
  }

  method LookupField(data: Value, pointer: string) returns (r: Option<Value>)
    ensures r == Field(data, pointer)
  {
    var tokens := ParsePointer(pointer);
    if tokens.None? {
      return None;
    }
    var current := data;
    for i := 0 to |tokens.value|
      invariant Lookup(data, tokens.value) == Lookup(current, tokens.value[i..])
    {
      if !current.Object? || tokens.value[i] !in current.fields {
        return None;
      }
      current := current.fields[tokens.value[i]];
    }
    return Some(current);
  }

  /* Scalars */

  predicate Within(part: string, whole: string) {
    exists i :: 0 <= i <= |whole| && part <= whole[i..]
  }

  function EvaluateString(actual: Value, e: Expression): Answer<bool> {
    if !actual.Text? then Err(TypeMismatch)
    else if !e.value.Text? then Err(InvalidConfig)
    else match e.operator
      case Equal => Ok(actual.text == e.value.text)
      case NotEqual => Ok(actual.text != e.value.text)
      case Contains => Ok(Within(e.value.text, actual.text))
      case StartsWith => Ok(e.value.text <= actual.text)
      case EndsWith => Ok(|e.value.text| <= |actual.text|
                          && actual.text[|actual.text| - |e.value.text|..] == e.value.text)
      case _ => Err(InvalidConfig)
  }

  function EvaluateNumber(parse: Rationals, actual: Value, e: Expression): Answer<bool> {
    if !actual.Number? then Err(TypeMismatch)
    else if !e.value.Number? then Err(InvalidConfig)
    else if parse(actual.text).None? then Err(InvalidData)
    else if parse(e.value.text).None? then Err(InvalidConfig)
    else
      var a, b := parse(actual.text).value, parse(e.value.text).value;
      match e.operator
      case Equal => Ok(a == b)
      case NotEqual => Ok(a != b)
      case GreaterThan => Ok(a > b)
      case GreaterOrEqual => Ok(a >= b)
      case LessThan => Ok(a < b)
      case LessOrEqual => Ok(a <= b)
      case _ => Err(InvalidConfig)
  }

  function EvaluateBoolean(actual: Value, e: Expression): Answer<bool> {
    if !actual.Flag? then Err(TypeMismatch)
    else if !e.value.Flag? then Err(InvalidConfig)
    else match e.operator
      case Equal => Ok(actual.on == e.value.on)
      case NotEqual => Ok(actual.on != e.value.on)
      case _ => Err(InvalidConfig)
  }

  /* Collections */

  predicate IsPrimitive(v: Value) { v.Text? || v.Number? || v.Flag? }

  /** Numbers are equal by value, everything else by text; types are never mixed. */
  predicate EqualPrimitive(parse: Rationals, a: Value, b: Value) {
    match (a, b)
    case (Text(x), Text(y)) => x == y
    case (Flag(x), Flag(y)) => x == y
    case (Number(x), Number(y)) => parse(x).Some? && parse(x) == parse(y)
    case _ => false
  }

  predicate MemberAllowed(parse: Rationals, v: Value) { IsPrimitive(v) && (v.Number? ==> parse(v.text).Some?) }

  function MemberFault(parse: Rationals, v: Value): Fault { if IsPrimitive(v) then InvalidData else TypeMismatch }

  function FirstBadMember(parse: Rationals, members: seq<Value>): (r: Option<Fault>)
    ensures r.None? <==> forall m :: m in members ==> MemberAllowed(parse, m)
  {
    if members == [] then None
    else if !MemberAllowed(parse, members[0]) then Some(MemberFault(parse, members[0]))
    else
      assert forall m :: m in members <==> m == members[0] || m in members[1..];
      FirstBadMember(parse, members[1..])
  }

  ghost predicate Has(parse: Rationals, members: seq<Value>, candidate: Value) {
    exists m :: m in members && EqualPrimitive(parse, m, candidate)
  }

  ghost function Membership(parse: Rationals, members: seq<Value>, operator: Operator, expected: Value): Answer<bool> {
    match operator
    case Contains => Ok(Has(parse, members, expected))
    case ContainsAny =>
      if !expected.List? then Err(InvalidConfig) else Ok(exists c :: c in expected.items && Has(parse, members, c))
    case ContainsAll =>
      if !expected.List? then Err(InvalidConfig) else Ok(forall c :: c in expected.items ==> Has(parse, members, c))
    case _ => Err(InvalidConfig)
  }

  method HasMember(parse: Rationals, members: seq<Value>, candidate: Value) returns (found: bool)
    ensures found <==> Has(parse, members, candidate)
  {
    for i := 0 to |members|
      invariant forall k :: 0 <= k < i ==> !EqualPrimitive(parse, members[k], candidate)
    {
      if EqualPrimitive(parse, members[i], candidate) {
        return true;
      }
    }
    return false;
  }

  method CompareCollection(parse: Rationals, members: seq<Value>, operator: Operator, expected: Value)
    returns (r: Answer<bool>)
    ensures r == Membership(parse, members, operator, expected)
  {
    if operator == Contains {
      var found := HasMember(parse, members, expected);
      return Ok(found);
    }
    if operator != ContainsAny && operator != ContainsAll {
      return Err(InvalidConfig);
    }
    if !expected.List? {
      return Err(InvalidConfig);
    }
    if operator == ContainsAny {
      for i := 0 to |expected.items|
        invariant forall k :: 0 <= k < i ==> !Has(parse, members, expected.items[k])
      {
        var found := HasMember(parse, members, expected.items[i]);
        if found {
          return Ok(true);
        }
      }
      return Ok(false);
    }
    for i := 0 to |expected.items|
      invariant forall k :: 0 <= k < i ==> Has(parse, members, expected.items[k])
    {
      var found := HasMember(parse, members, expected.items[i]);
      if !found {
        return Ok(false);
      }
    }
    return Ok(true);
  }

  ghost function CollectionVerdict(parse: Rationals, actual: Value, e: Expression): Answer<bool> {
    if !actual.List? then Err(TypeMismatch)
    else if FirstBadMember(parse, actual.items).Some? then Err(FirstBadMember(parse, actual.items).value)
    else Membership(parse, actual.items, e.operator, e.value)
  }

  method EvaluateCollection(parse: Rationals, actual: Value, e: Expression) returns (r: Answer<bool>)
    ensures r == CollectionVerdict(parse, actual, e)
  {
    if !actual.List? {
      return Err(TypeMismatch);
    }
    for i := 0 to |actual.items|
      invariant FirstBadMember(parse, actual.items) == FirstBadMember(parse, actual.items[i..])
    {
      var member := actual.items[i];
      if !IsPrimitive(member) {
        return Err(TypeMismatch);
      }
      if member.Number? && parse(member.text).None? {
        return Err(InvalidData);
      }
      assert actual.items[i..][1..] == actual.items[i + 1..];
    }
    r := CompareCollection(parse, actual.items, e.operator, e.value);
  }

  /* Expressions, rules, activation */

  ghost function ValueVerdict(parse: Rationals, e: Expression, actual: Value): Answer<bool> {
    match e.valueType
    case StringType => EvaluateString(actual, e)
    case NumberType => EvaluateNumber(parse, actual, e)
    case BooleanType => EvaluateBoolean(actual, e)
    case CollectionType => CollectionVerdict(parse, actual, e)
    case UnknownType => Err(InvalidConfig)
  }

  ghost function Verdict(parse: Rationals, e: Expression, data: Value): Answer<bool> {
    if Field(data, e.field).None? then Err(FieldNotFound) else ValueVerdict(parse, e, Field(data, e.field).value)
  }

  method EvaluateExpression(parse: Rationals, e: Expression, data: Value) returns (r: Answer<bool>)
    ensures r == Verdict(parse, e, data)
  {
    var value := LookupField(data, e.field);
    if value.None? {
      return Err(FieldNotFound);
    }
    match e.valueType {
      case StringType => r := EvaluateString(value.value, e);
      case NumberType => r := EvaluateNumber(parse, value.value, e);
      case BooleanType => r := EvaluateBoolean(value.value, e);
      case CollectionType => r := EvaluateCollection(parse, value.value, e);
      case UnknownType => r := Err(InvalidConfig);
    }
  }

  ghost predicate Errs(parse: Rationals, rule: Rule, data: Value) {
    exists e :: e in rule.conditions && Verdict(parse, e, data).Err?
  }

  /** For-all or exists over the expressions; anything but the all-mode means any. */
  ghost predicate Holds(parse: Rationals, rule: Rule, data: Value) {
    if rule.mode.MatchAll? then forall e :: e in rule.conditions ==> Verdict(parse, e, data) == Ok(true)
    else exists e :: e in rule.conditions && Verdict(parse, e, data) == Ok(true)
  }

  /** The fault of the first expression that errs. */
  ghost function RuleFault(parse: Rationals, conditions: seq<Expression>, data: Value): Option<Fault> {
    if conditions == [] then None
    else if Verdict(parse, conditions[0], data).Err? then Some(Verdict(parse, conditions[0], data).fault)
    else RuleFault(parse, conditions[1..], data)
  }

  ghost function RulesFault(parse: Rationals, rules: seq<Rule>, data: Value): Option<Fault> {
    if rules == [] then None
    else if RuleFault(parse, rules[0].conditions, data).Some? then RuleFault(parse, rules[0].conditions, data)
    else RulesFault(parse, rules[1..], data)
  }

  lemma {:induction false} RuleFaultErrs(parse: Rationals, rule: Rule, data: Value)
    ensures RuleFault(parse, rule.conditions, data).Some? <==> Errs(parse, rule, data)
    decreases |rule.conditions|
  {
    hide Verdict;
    if rule.conditions == [] {
    } else {
      var rest := rule.(conditions := rule.conditions[1..]);
      RuleFaultErrs(parse, rest, data);
      assert forall e :: e in rule.conditions <==> e == rule.conditions[0] || e in rest.conditions;
    }
  }

  method EvaluateRule(parse: Rationals, rule: Rule, data: Value) returns (r: Answer<bool>)
    ensures r.Err? ==> RuleFault(parse, rule.conditions, data) == Some(r.fault)
    ensures r.Ok? ==> !Errs(parse, rule, data) && (r.value <==> Holds(parse, rule, data))
  {
    hide Verdict;
    RuleFaultErrs(parse, rule, data);
    var matchedCount := 0;
    for i := 0 to |rule.conditions|
      invariant RuleFault(parse, rule.conditions, data) == RuleFault(parse, rule.conditions[i..], data)
      invariant forall k :: 0 <= k < i ==> Verdict(parse, rule.conditions[k], data).Ok?
      invariant matchedCount <= i
      invariant matchedCount == i <==> forall k :: 0 <= k < i ==> Verdict(parse, rule.conditions[k], data) == Ok(true)
      invariant matchedCount > 0 <==> exists k :: 0 <= k < i && Verdict(parse, rule.conditions[k], data) == Ok(true)
    {
      var matched := EvaluateExpression(parse, rule.conditions[i], data);
      assert rule.conditions[i..][1..] == rule.conditions[i + 1..];
      if matched.Err? {
        return Err(matched.fault);
      }
      if matched.value {
        matchedCount := matchedCount + 1;
      }
    }
    assert rule.conditions[|rule.conditions|..] == [];
    if rule.mode.MatchAll? {
      return Ok(matchedCount == |rule.conditions|);
    }
    return Ok(matchedCount > 0);
  }

  ghost predicate AnyErrs(parse: Rationals, c: Config, data: Value) { exists r :: r in c.rules && Errs(parse, r, data) }

  ghost predicate HoldsAt(parse: Rationals, c: Config, data: Value, i: nat) {
    i < |c.rules| && Holds(parse, c.rules[i], data)
  }

  /** One rule alone holds. */
  ghost predicate Alone(parse: Rationals, c: Config, data: Value, i: nat) {
    HoldsAt(parse, c, data, i) && forall k: nat :: HoldsAt(parse, c, data, k) ==> k == i
  }

  /** The outcome the node selects: no expression errs, and one rule alone holds with it or none holds and it is the
      default. */
  ghost predicate Selects(parse: Rationals, c: Config, data: Value, outcome: Outcome) {
    && data.Object? && !AnyErrs(parse, c, data)
    && ((exists i: nat :: Alone(parse, c, data, i) && c.rules[i].outcome == outcome)
        || ((forall i: nat :: !HoldsAt(parse, c, data, i)) && c.defaultOutcome == outcome && outcome != EMPTY))
  }

  lemma {:induction false} RulesFaultErrs(parse: Rationals, c: Config, data: Value)
    ensures RulesFault(parse, c.rules, data).Some? <==> AnyErrs(parse, c, data)
    decreases |c.rules|
  {
    hide Errs, RuleFault;
    if c.rules == [] {
    } else {
      var rest := c.(rules := c.rules[1..]);
      RulesFaultErrs(parse, rest, data);
      RuleFaultErrs(parse, c.rules[0], data);
      assert forall r :: r in c.rules <==> r == c.rules[0] || r in rest.rules;
    }
  }

  lemma SelectsAlone(parse: Rationals, c: Config, data: Value, i: nat)
    requires data.Object? && !AnyErrs(parse, c, data) && Alone(parse, c, data, i)
    ensures forall o :: Selects(parse, c, data, o) <==> o == c.rules[i].outcome
  {
  }

  lemma AloneAt(parse: Rationals, c: Config, data: Value, i: nat)
    requires HoldsAt(parse, c, data, i) && forall k: nat :: k < |c.rules| && HoldsAt(parse, c, data, k) ==> k == i
    ensures Alone(parse, c, data, i)
  {
  }

  lemma SelectsDefault(parse: Rationals, c: Config, data: Value)
    requires data.Object? && !AnyErrs(parse, c, data) && forall i: nat :: !HoldsAt(parse, c, data, i)
    ensures forall o :: Selects(parse, c, data, o) <==> o == c.defaultOutcome && o != EMPTY
  {
  }

  lemma SelectsNothing(parse: Rationals, c: Config, data: Value)
    requires AnyErrs(parse, c, data) || !data.Object?
             || exists i: nat, j: nat :: i < j && HoldsAt(parse, c, data, i) && HoldsAt(parse, c, data, j)
    ensures forall o :: !Selects(parse, c, data, o)
  {
  }

  /** What the loop knows of the rules before a position: how many hold, the first and last of them, and the last
      outcome. */
  ghost predicate Counted(parse: Rationals, c: Config, data: Value, n: nat, count: nat, outcome: Outcome, first: nat,
                          last: nat) {
    && n <= |c.rules|
    && (count == 0 ==> forall k: nat :: k < n ==> !HoldsAt(parse, c, data, k))
    && (count > 0 ==> first <= last < n && HoldsAt(parse, c, data, first) && HoldsAt(parse, c, data, last))
    && (count > 0 ==> outcome == c.rules[last].outcome)
    && (count == 1 ==> first == last && forall k: nat :: k < n && HoldsAt(parse, c, data, k) ==> k == first)
    && (count > 1 ==> first < last)
  }

  lemma CountedNext(parse: Rationals, c: Config, data: Value, n: nat, count: nat, outcome: Outcome, first: nat,
                    last: nat, holds: bool)
    requires Counted(parse, c, data, n, count, outcome, first, last) && n < |c.rules|
    requires holds <==> Holds(parse, c.rules[n], data)
    ensures if holds
            then Counted(parse, c, data, n + 1, count + 1, c.rules[n].outcome, if count == 0 then n else first, n)
            else Counted(parse, c, data, n + 1, count, outcome, first, last)
  {
  }

  lemma CountedAll(parse: Rationals, c: Config, data: Value, count: nat, outcome: Outcome, first: nat, last: nat)
    requires Counted(parse, c, data, |c.rules|, count, outcome, first, last) && data.Object? && !AnyErrs(parse, c, data)
    ensures forall o :: Selects(parse, c, data, o) <==>
              (count == 1 && o == outcome) || (count == 0 && o == c.defaultOutcome && o != EMPTY)
    ensures count > 0 <==> exists i: nat :: HoldsAt(parse, c, data, i)
  {
    hide Errs, Holds, AnyErrs;
    if count == 1 {
      assert Alone(parse, c, data, first) by { AloneAt(parse, c, data, first); }
      SelectsAlone(parse, c, data, first);
    } else if count == 0 {
      SelectsDefault(parse, c, data);
    } else {
      SelectsNothing(parse, c, data);
    }
  }

  function Chosen(outcome: Outcome): NodeResult { NodeResult(Continue, outcome, Absent, []) }

  /** Every rule is evaluated before an outcome is chosen; absent data or data that is no object is refused. */
  method ActivateConfig(parse: Rationals, c: Config, decoded: Option<Value>) returns (r: Answer<NodeResult>)
    ensures decoded.None? || !decoded.value.Object? ==> r == Err(InvalidData)
    ensures decoded.Some? ==> forall o :: r == Ok(Chosen(o)) <==> Selects(parse, c, decoded.value, o)
    ensures r.Ok? ==> r == Ok(Chosen(r.value.outcome)) && forall id :: id != EMPTY ==> T.ActivationAllowed(id, r.value)
    ensures decoded.Some? && decoded.value.Object? && AnyErrs(parse, c, decoded.value) ==>
              r.Err? && Some(r.fault) == RulesFault(parse, c.rules, decoded.value)
    ensures decoded.Some? && decoded.value.Object? && !AnyErrs(parse, c, decoded.value) && r.Err? ==>
              r.fault == if exists i: nat :: HoldsAt(parse, c, decoded.value, i) then MultipleMatches else NoMatch
  {
    if decoded.None? || !decoded.value.Object? {
      return Err(InvalidData);
    }
    hide Errs, Holds, Selects, RuleFault, HoldsAt, Counted;
    var data := decoded.value;
    RulesFaultErrs(parse, c, data);
    var matchedOutcome := EMPTY;
    var matchCount := 0;
    ghost var first := 0;
    ghost var last := 0;
    assert Counted(parse, c, data, 0, 0, EMPTY, 0, 0) by { NothingCounted(parse, c, data); }
    for n := 0 to |c.rules|
      invariant RulesFault(parse, c.rules, data) == RulesFault(parse, c.rules[n..], data)
      invariant forall k :: 0 <= k < n ==> !Errs(parse, c.rules[k], data)
      invariant Counted(parse, c, data, n, matchCount, matchedOutcome, first, last)
    {
      var matched := EvaluateRule(parse, c.rules[n], data);
      assert c.rules[n..][1..] == c.rules[n + 1..];
      if matched.Err? {
        SelectsNothing(parse, c, data);
        return Err(matched.fault);
      }
      RuleFaultErrs(parse, c.rules[n], data);
      CountedNext(parse, c, data, n, matchCount, matchedOutcome, first, last, matched.value);
      if matched.value {
        matchedOutcome := c.rules[n].outcome;
        if matchCount == 0 { first := n; }
        last := n;
        matchCount := matchCount + 1;
      }
    }
    assert c.rules[|c.rules|..] == [];
    CountedAll(parse, c, data, matchCount, matchedOutcome, first, last);
    if matchCount > 1 {
      return Err(MultipleMatches);
    }
    if matchCount == 1 {
      return Ok(Chosen(matchedOutcome));
    }
    if c.defaultOutcome != EMPTY {
      return Ok(Chosen(c.defaultOutcome));
    }
    return Err(NoMatch);
  }

  lemma NothingCounted(parse: Rationals, c: Config, data: Value)
    ensures Counted(parse, c, data, 0, 0, EMPTY, 0, 0)
  {
  }

  /* Order never matters to the outcome */

  /** Two position maps that undo each other. */
  ghost predicate Inverse(p: seq<nat>, q: seq<nat>, n: nat) {
    && |p| == n && |q| == n
    && (forall i :: 0 <= i < n ==> p[i] < n && q[p[i]] == i)
    && (forall j :: 0 <= j < n ==> q[j] < n && p[q[j]] == j)
  }

  /** The same JSON up to the order of the members of its arrays, at every depth. */
  ghost predicate Similar(v: Value, w: Value)
    decreases v
  {
    match (v, w)
    case (List(a), List(b)) =>
      && |a| == |b|
      && exists p, q :: Inverse(p, q, |a|) && forall i :: 0 <= i < |a| ==> Similar(a[i], b[p[i]])
    case (Object(f), Object(g)) => f.Keys == g.Keys && forall k :: k in f ==> Similar(f[k], g[k])
    case _ => v == w
  }

  lemma {:induction false} SimilarToItself(v: Value)
    ensures Similar(v, v)
    decreases v
  {
    match v
    case List(a) =>
      var p := seq(|a|, i requires 0 <= i < |a| => i);
      assert Inverse(p, p, |a|);
      forall i | 0 <= i < |a| ensures Similar(a[i], a[p[i]]) {
        SimilarToItself(a[i]);
      }
    case Object(f) =>
      forall k | k in f ensures Similar(f[k], f[k]) {
        SimilarToItself(f[k]);
      }
    case _ =>
  }

  lemma {:induction false} SimilarSymmetric(v: Value, w: Value)
    requires Similar(v, w)
    ensures Similar(w, v)
    decreases v
  {
    match v
    case List(a) =>
      var b := w.items;
      var p: seq<nat>, q: seq<nat> :| Inverse(p, q, |a|) && forall i :: 0 <= i < |a| ==> Similar(a[i], b[p[i]]);
      assert Inverse(q, p, |b|);
      forall j | 0 <= j < |b| ensures Similar(b[j], a[q[j]]) {
        assert Similar(a[q[j]], b[p[q[j]]]);
        SimilarSymmetric(a[q[j]], b[j]);
      }
    case Object(f) =>
      forall k | k in f ensures Similar(w.fields[k], f[k]) {
        SimilarSymmetric(f[k], w.fields[k]);
      }
    case _ =>
  }

  lemma {:induction false} LookupSimilar(v: Value, w: Value, tokens: seq<string>)
    requires Similar(v, w)
    ensures Lookup(v, tokens).None? <==> Lookup(w, tokens).None?
    ensures Lookup(v, tokens).Some? ==> Similar(Lookup(v, tokens).value, Lookup(w, tokens).value)
    decreases |tokens|
  {
    if tokens != [] && v.Object? && tokens[0] in v.fields {
      LookupSimilar(v.fields[tokens[0]], w.fields[tokens[0]], tokens[1..]);
    }
  }

  /** Similar lists hold the same primitive members, and others both or neither. */
  lemma SamePrimitives(v: Value, w: Value)
    requires v.List? && Similar(v, w)
    ensures w.List?
    ensures forall m :: IsPrimitive(m) ==> (m in v.items <==> m in w.items)
    ensures (exists m :: m in v.items && !IsPrimitive(m)) <==> (exists m :: m in w.items && !IsPrimitive(m))
  {
    Matched(v, w);
    SimilarSymmetric(v, w);
    Matched(w, v);
  }

  lemma SimilarShape(v: Value, w: Value)
    requires Similar(v, w)
    ensures (v.List? <==> w.List?) && (v.Object? <==> w.Object?) && (v.List? || v.Object? || v == w)
  {
  }

  lemma Partner(v: Value, w: Value, i: nat) returns (j: nat)
    requires v.List? && w.List? && Similar(v, w) && i < |v.items|
    ensures j < |w.items| && Similar(v.items[i], w.items[j])
  {
    var a, b := v.items, w.items;
    var p: seq<nat>, q: seq<nat> :| Inverse(p, q, |a|) && forall k :: 0 <= k < |a| ==> Similar(a[k], b[p[k]]);
    j := p[i];
  }

  /** Every member has a similar one in the other list. */
  lemma Matched(v: Value, w: Value)
    requires v.List? && Similar(v, w)
    ensures w.List?
    ensures forall m :: m in v.items && IsPrimitive(m) ==> m in w.items
    ensures (exists m :: m in v.items && !IsPrimitive(m)) ==> exists m :: m in w.items && !IsPrimitive(m)
  {
    hide Similar;
    SimilarShape(v, w);
    forall m | m in v.items
      ensures if IsPrimitive(m) then m in w.items else exists n :: n in w.items && !IsPrimitive(n)
    {
      var i :| 0 <= i < |v.items| && v.items[i] == m;
      var j := Partner(v, w, i);
      SimilarShape(m, w.items[j]);
      assert w.items[j] in w.items;
    }
  }

  /** Two answers agree up to which fault is reported. */
  ghost predicate Agree<V(!new)>(a: Answer<V>, b: Answer<V>) { if a.Err? then b.Err? else a == b }

  lemma VerdictSimilar(parse: Rationals, e: Expression, v: Value, w: Value)
    requires Similar(v, w)
    ensures Agree(Verdict(parse, e, v), Verdict(parse, e, w))
  {
    hide Has, EqualPrimitive, EvaluateString, EvaluateNumber, EvaluateBoolean, Similar, Lookup, Parsed;
    if Parsed(e.field).Some? {
      LookupSimilar(v, w, Parsed(e.field).value);
      if Field(v, e.field).Some? {
        var x, y := Field(v, e.field).value, Field(w, e.field).value;
        SimilarShape(x, y);
        if x.List? {
          SamePrimitives(x, y);
          forall c ensures Has(parse, x.items, c) <==> Has(parse, y.items, c) { HasSame(parse, x.items, y.items, c); }
          NotScalar(parse, e, x);
          NotScalar(parse, e, y);
        } else if x.Object? {
          NotScalar(parse, e, x);
          NotScalar(parse, e, y);
        }
      }
    }
  }

  lemma HasSame(parse: Rationals, a: seq<Value>, b: seq<Value>, c: Value)
    requires forall m :: IsPrimitive(m) ==> (m in a <==> m in b)
    ensures Has(parse, a, c) <==> Has(parse, b, c)
  {
    if m :| m in a && EqualPrimitive(parse, m, c) { assert m in b; }
    if m :| m in b && EqualPrimitive(parse, m, c) { assert m in a; }
  }

  lemma HasPrimitive(parse: Rationals, members: seq<Value>, c: Value)
    ensures Has(parse, members, c) ==> IsPrimitive(c)
  {
  }

  lemma NotScalar(parse: Rationals, e: Expression, v: Value)
    requires v.List? || v.Object?
    ensures EvaluateString(v, e).Err? && EvaluateNumber(parse, v, e).Err? && EvaluateBoolean(v, e).Err?
  {
  }

  /** The same rule up to the order of its expressions. */
  ghost predicate RuleAlike(r: Rule, s: Rule) {
    r.mode == s.mode && r.outcome == s.outcome && multiset(r.conditions) == multiset(s.conditions)
  }

  /** The same rules in another order: position i of the one is position p[i] of the other, and q leads back. */
  ghost predicate Reordered(c: Config, d: Config, p: seq<nat>, q: seq<nat>) {
    && c.defaultOutcome == d.defaultOutcome
    && |p| == |c.rules| && |q| == |d.rules|
    && (forall i :: 0 <= i < |p| ==> p[i] < |q| && q[p[i]] == i && RuleAlike(c.rules[i], d.rules[p[i]]))
    && (forall j :: 0 <= j < |q| ==> q[j] < |p| && p[q[j]] == j && RuleAlike(d.rules[j], c.rules[q[j]]))
  }

  lemma RuleSimilar(parse: Rationals, r: Rule, s: Rule, v: Value, w: Value)
    requires RuleAlike(r, s) && Similar(v, w)
    ensures Errs(parse, r, v) <==> Errs(parse, s, w)
    ensures !Errs(parse, r, v) ==> (Holds(parse, r, v) <==> Holds(parse, s, w))
  {
    hide Verdict, Similar;
    forall e ensures e in r.conditions <==> e in s.conditions {
      assert e in r.conditions <==> e in multiset(r.conditions);
      assert e in s.conditions <==> e in multiset(s.conditions);
    }
    forall e: Expression ensures Agree(Verdict(parse, e, v), Verdict(parse, e, w)) { VerdictSimilar(parse, e, v, w); }
  }

  lemma ErrsReordered(parse: Rationals, c: Config, d: Config, p: seq<nat>, q: seq<nat>, v: Value, w: Value)
    requires Reordered(c, d, p, q) && Similar(v, w) && AnyErrs(parse, c, v)
    ensures AnyErrs(parse, d, w)
  {
    hide Errs, Similar, RuleAlike;
    var r :| r in c.rules && Errs(parse, r, v);
    var i :| 0 <= i < |c.rules| && c.rules[i] == r;
    RuleSimilar(parse, r, d.rules[p[i]], v, w);
  }

  lemma HoldsReordered(parse: Rationals, c: Config, d: Config, p: seq<nat>, q: seq<nat>, v: Value, w: Value, i: nat)
    requires Reordered(c, d, p, q) && Similar(v, w) && !AnyErrs(parse, c, v) && i < |c.rules|
    ensures HoldsAt(parse, c, v, i) <==> HoldsAt(parse, d, w, p[i])
  {
    hide Errs, Holds, Similar, RuleAlike;
    assert c.rules[i] in c.rules;
    RuleSimilar(parse, c.rules[i], d.rules[p[i]], v, w);
  }

  lemma SelectsReordered(parse: Rationals, c: Config, d: Config, p: seq<nat>, q: seq<nat>, v: Value, w: Value,
                         outcome: Outcome)
    requires Reordered(c, d, p, q) && Reordered(d, c, q, p) && Similar(v, w) && Similar(w, v)
               && Selects(parse, c, v, outcome)
    ensures Selects(parse, d, w, outcome)
  {
    hide AnyErrs, Holds;
    if AnyErrs(parse, d, w) { ErrsReordered(parse, d, c, q, p, w, v); }
    forall j: nat ensures HoldsAt(parse, d, w, j) <==> j < |q| && HoldsAt(parse, c, v, q[j]) {
      if j < |q| { HoldsReordered(parse, d, c, q, p, w, v, j); }
    }
    if i: nat :| Alone(parse, c, v, i) && c.rules[i].outcome == outcome {
      HoldsReordered(parse, c, d, p, q, v, w, i);
      assert Alone(parse, d, w, p[i]);
    }
  }

  lemma ReorderedSelects(parse: Rationals, c: Config, d: Config, p: seq<nat>, q: seq<nat>, v: Value, w: Value,
                         outcome: Outcome)
    requires Reordered(c, d, p, q) && Similar(v, w)
    ensures Selects(parse, c, v, outcome) <==> Selects(parse, d, w, outcome)
    ensures AnyErrs(parse, c, v) <==> AnyErrs(parse, d, w)
  {
    hide Selects, AnyErrs, Similar;
    SimilarSymmetric(v, w);
    assert Reordered(d, c, q, p);
    if Selects(parse, c, v, outcome) { SelectsReordered(parse, c, d, p, q, v, w, outcome); }
    if Selects(parse, d, w, outcome) { SelectsReordered(parse, d, c, q, p, w, v, outcome); }
    if AnyErrs(parse, c, v) { ErrsReordered(parse, c, d, p, q, v, w); }
    if AnyErrs(parse, d, w) { ErrsReordered(parse, d, c, q, p, w, v); }
  }

  /** The same expression up to the order of the candidates it compares a collection with. */
  ghost predicate SameOperand(e: Expression, f: Expression) {
    e.field == f.field && e.valueType == f.valueType && e.operator == f.operator && Similar(e.value, f.value)
  }

  ghost predicate SameOperands(r: Rule, s: Rule) {
    && r.mode == s.mode && r.outcome == s.outcome && |r.conditions| == |s.conditions|
    && forall k :: 0 <= k < |r.conditions| ==> SameOperand(r.conditions[k], s.conditions[k])
  }

  ghost predicate SameButOperands(c: Config, d: Config) {
    && c.defaultOutcome == d.defaultOutcome && |c.rules| == |d.rules|
    && forall i :: 0 <= i < |c.rules| ==> SameOperands(c.rules[i], d.rules[i])
  }

  lemma MembershipOfSame(parse: Rationals, members: seq<Value>, operator: Operator, x: Value, y: Value)
    requires Similar(x, y)
    ensures Membership(parse, members, operator, x) == Membership(parse, members, operator, y)
  {
    if x.List? {
      SamePrimitives(x, y);
      forall c ensures Has(parse, members, c) ==> IsPrimitive(c) {
        HasPrimitive(parse, members, c);
      }
    }
    NeverHas(parse, members, x);
    NeverHas(parse, members, y);
  }

  lemma NeverHas(parse: Rationals, members: seq<Value>, candidate: Value)
    ensures candidate.List? || candidate.Object? ==> !Has(parse, members, candidate)
  {
  }

  lemma OperandVerdict(parse: Rationals, e: Expression, f: Expression, data: Value)
    requires SameOperand(e, f)
    ensures Verdict(parse, e, data) == Verdict(parse, f, data)
  {
    if Field(data, e.field).Some? && Field(data, e.field).value.List? {
      MembershipOfSame(parse, Field(data, e.field).value.items, e.operator, e.value, f.value);
    }
  }

  lemma OperandRule(parse: Rationals, r: Rule, s: Rule, data: Value)
    requires SameOperands(r, s)
    ensures Errs(parse, r, data) <==> Errs(parse, s, data)
    ensures Holds(parse, r, data) <==> Holds(parse, s, data)
  {
    hide Verdict, SameOperand;
    forall k | 0 <= k < |r.conditions|
      ensures Verdict(parse, r.conditions[k], data) == Verdict(parse, s.conditions[k], data)
      ensures r.conditions[k] in r.conditions && s.conditions[k] in s.conditions
    {
      OperandVerdict(parse, r.conditions[k], s.conditions[k], data);
    }
  }

  lemma OperandsSelect(parse: Rationals, c: Config, d: Config, data: Value, outcome: Outcome)
    requires SameButOperands(c, d)
    ensures Selects(parse, c, data, outcome) <==> Selects(parse, d, data, outcome)
    ensures AnyErrs(parse, c, data) <==> AnyErrs(parse, d, data)
  {
    hide Errs, Holds;
    forall i | 0 <= i < |c.rules|
      ensures Errs(parse, c.rules[i], data) <==> Errs(parse, d.rules[i], data)
      ensures HoldsAt(parse, c, data, i) <==> HoldsAt(parse, d, data, i)
      ensures c.rules[i] in c.rules && d.rules[i] in d.rules && c.rules[i].outcome == d.rules[i].outcome
    {
      OperandRule(parse, c.rules[i], d.rules[i], data);
    }
    assert forall i: nat :: HoldsAt(parse, c, data, i) <==> HoldsAt(parse, d, data, i);
    if i: nat :| Alone(parse, c, data, i) && c.rules[i].outcome == outcome { assert Alone(parse, d, data, i); }
    if i: nat :| Alone(parse, d, data, i) && d.rules[i].outcome == outcome { assert Alone(parse, c, data, i); }
  }

  /** Neither the order of rules, nor of expressions within them, nor of the candidates an expression compares with, nor
      of array members in the data changes the outcome: it is selected for the one exactly when it is for the other. */
  lemma OrderFree(parse: Rationals, c: Config, between: Config, d: Config, p: seq<nat>, q: seq<nat>, v: Value, w: Value,
                  outcome: Outcome)
    requires Reordered(c, between, p, q) && SameButOperands(between, d) && Similar(v, w)
    ensures Selects(parse, c, v, outcome) <==> Selects(parse, d, w, outcome)
    ensures AnyErrs(parse, c, v) <==> AnyErrs(parse, d, w)
  {
    ReorderedSelects(parse, c, between, p, q, v, w, outcome);
    OperandsSelect(parse, between, d, w, outcome);
  }

  /** Which fault is reported does depend on the order of the rules. */
  lemma FaultDependsOnOrder(parse: Rationals) returns (c: Config, d: Config, data: Value)
    ensures Reordered(c, d, [1, 0], [1, 0])
    ensures RulesFault(parse, c.rules, data) == Some(FieldNotFound)
              && RulesFault(parse, d.rules, data) == Some(TypeMismatch)
  {
    var absent := Rule(MatchAll, [Expression("/b", StringType, Equal, Text("x"))], "o");
    var mistyped := Rule(MatchAll, [Expression("/a", StringType, Equal, Text("x"))], "o");
    c, d := Config([absent, mistyped], EMPTY), Config([mistyped, absent], EMPTY);
    data := Object(map["a" := Null]);
    PointerBijection("/a", ["a"]);
    PointerBijection("/b", ["b"]);
    assert Escape("a") == "a" && Escape("b") == "b";
    assert Escaped(["a"]) == ["a"] && Escaped(["b"]) == ["b"];
    assert Render(["a"]) == "/a" && Render(["b"]) == "/b";
    assert Field(data, "/a") == Some(Null);
    assert "a" != "b" by { assert "a"[0] != "b"[0]; }
    assert Field(data, "/b") == None;
    assert Verdict(parse, absent.conditions[0], data) == Err(FieldNotFound);
    assert Verdict(parse, mistyped.conditions[0], data) == Err(TypeMismatch);
  }

  /* Configuration */

  predicate ExpressionAllowed(parse: Rationals, e: Expression) {
    match e.valueType
    case StringType => e.value.Text? && e.operator in {Equal, NotEqual, Contains, StartsWith, EndsWith}
    case NumberType =>
      && e.value.Number? && parse(e.value.text).Some?
      && e.operator in {Equal, NotEqual, GreaterThan, GreaterOrEqual, LessThan, LessOrEqual}
    case BooleanType => e.value.Flag? && e.operator in {Equal, NotEqual}
    case CollectionType =>
      if e.operator == Contains then MemberAllowed(parse, e.value)
      else
        && e.operator in {ContainsAny, ContainsAll}
        && e.value.List? && e.value.items != [] && forall m :: m in e.value.items ==> MemberAllowed(parse, m)
    case UnknownType => false
  }

  ghost predicate RuleAllowed(parse: Rationals, r: Rule) {
    && !r.mode.UnknownMatch? && r.outcome != EMPTY && r.conditions != []
    && forall i :: 0 <= i < |r.conditions| ==>
         Grammatical(r.conditions[i].field) && ExpressionAllowed(parse, r.conditions[i])
  }

  ghost predicate ConfigAllowed(parse: Rationals, c: Config) {
    c.rules != [] && forall i :: 0 <= i < |c.rules| ==> RuleAllowed(parse, c.rules[i])
  }

  method CheckConfig(parse: Rationals, c: Config) returns (r: Answer<Config>)
    ensures r == if ConfigAllowed(parse, c) then Ok(c) else Err(InvalidConfig)
  {
    if |c.rules| == 0 {
      return Err(InvalidConfig);
    }
    for i := 0 to |c.rules|
      invariant forall k :: 0 <= k < i ==> RuleAllowed(parse, c.rules[k])
    {
      var rule := c.rules[i];
      if rule.mode.UnknownMatch? || rule.outcome == EMPTY || |rule.conditions| == 0 {
        return Err(InvalidConfig);
      }
      for j := 0 to |rule.conditions|
        invariant forall k :: 0 <= k < j ==>
                    Grammatical(rule.conditions[k].field) && ExpressionAllowed(parse, rule.conditions[k])
      {
        var pointer := ParsePointer(rule.conditions[j].field);
        AcceptedWhenGrammatical(rule.conditions[j].field);
        if pointer.None? || !ExpressionAllowed(parse, rule.conditions[j]) {
          assert !RuleAllowed(parse, rule);
          return Err(InvalidConfig);
        }
      }
    }
    return Ok(c);
  }

  /** A checked configuration never turns out invalid at run time, whatever the data. */
  lemma AllowedNeverInvalid(parse: Rationals, e: Expression, data: Value)
    requires ExpressionAllowed(parse, e)
    ensures Verdict(parse, e, data) != Err(InvalidConfig)
  {
    if Field(data, e.field).Some? && Field(data, e.field).value.List? {
      MemberFaults(parse, Field(data, e.field).value.items);
    }
  }

  lemma {:induction false} MemberFaults(parse: Rationals, members: seq<Value>)
    ensures FirstBadMember(parse, members) != Some(InvalidConfig)
  {
    if members == [] {
    } else {
      MemberFaults(parse, members[1..]);
    }
  }

  lemma {:induction false} RunNeverInvalid(parse: Rationals, rules: seq<Rule>, data: Value)
    requires forall i :: 0 <= i < |rules| ==> RuleAllowed(parse, rules[i])
    ensures RulesFault(parse, rules, data) != Some(InvalidConfig)
  {
    if rules == [] {
    } else {
      assert RuleAllowed(parse, rules[0]);
      RuleNeverInvalid(parse, rules[0].conditions, data);
      assert forall i :: 0 <= i < |rules[1..]| ==> rules[1..][i] == rules[i + 1];
      RunNeverInvalid(parse, rules[1..], data);
    }
  }

  lemma {:induction false} RuleNeverInvalid(parse: Rationals, conditions: seq<Expression>, data: Value)
    requires forall i :: 0 <= i < |conditions| ==> ExpressionAllowed(parse, conditions[i])
    ensures RuleFault(parse, conditions, data) != Some(InvalidConfig)
  {
    if conditions == [] {
    } else {
      AllowedNeverInvalid(parse, conditions[0], data);
      RuleNeverInvalid(parse, conditions[1..], data);
    }
  }
}
