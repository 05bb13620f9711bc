/** The duplicate-member scan over a stream of JSON tokens (section 4 of RFC 8259). */
module JsonStrict {
  import opened Workflow

  /** A JSON value; member names are compared after decoding. */
  datatype Json = Literal | Text(text: string) | Array(items: Items) | Object(members: Members)

  datatype Items = NoItems | Item(head: Json, tail: Items)

  datatype Members = NoMembers | Member(name: string, value: Json, rest: Members)

  datatype Token = OpenObject | CloseObject | OpenArray | CloseArray | TextToken(text: string) | LiteralToken

  /* The tokens of a value */

  function Tokens(v: Json): seq<Token> {
    match v
    case Literal => [LiteralToken]
    case Text(text) => [TextToken(text)]
    case Array(items) => [OpenArray] + ItemTokens(items) + [CloseArray]
    case Object(members) => [OpenObject] + MemberTokens(members) + [CloseObject]
  }

  function ItemTokens(items: Items): seq<Token> {
    match items
    case NoItems => []
    case Item(head, tail) => Tokens(head) + ItemTokens(tail)
  }

  function MemberTokens(members: Members): seq<Token> {
    match members
    case NoMembers => []
    case Member(name, value, rest) => [TextToken(name)] + Tokens(value) + MemberTokens(rest)
  }

  function Names(members: Members): seq<string> {
    match members
    case NoMembers => []
    case Member(name, _, rest) => [name] + Names(rest)
  }

  /** Every object at every depth has distinct member names. */
  ghost predicate Unambiguous(v: Json) {
    match v
    case Array(items) => ItemsUnambiguous(items)
    case Object(members) => MembersUnambiguous(members) && DistinctNames(Names(members))
    case _ => true
  }

  ghost predicate ItemsUnambiguous(items: Items) {
    items.Item? ==> Unambiguous(items.head) && ItemsUnambiguous(items.tail)
  }

  ghost predicate MembersUnambiguous(members: Members) {
    members.Member? ==> Unambiguous(members.value) && MembersUnambiguous(members.rest)
  }

  ghost predicate DistinctNames(names: seq<string>) {
    forall i, j :: 0 <= i < j < |names| ==> names[i] != names[j]
  }

  /* The scan as a function of the remaining tokens: what is left, or a refusal */

  function ScanValue(first: Token, tokens: seq<Token>): (r: Option<seq<Token>>)
    ensures r.Some? ==> |r.value| <= |tokens|
    decreases |tokens|, 2
  {
    match first
    case OpenObject => ScanObject(tokens, {})
    case OpenArray => ScanArray(tokens)
    case CloseObject => None
    case CloseArray => None
    case TextToken(_) => Some(tokens)
    case LiteralToken => Some(tokens)
  }

  predicate Closing(t: Token) { t.CloseObject? || t.CloseArray? }

  /** Whether the decoder sees another member or element: neither a closing delimiter nor the end of the input. */
  predicate More(tokens: seq<Token>) { tokens != [] && !Closing(tokens[0]) }

  function ScanObject(tokens: seq<Token>, seen: set<string>): (r: Option<seq<Token>>)
    ensures r.Some? ==> |r.value| < |tokens|
    decreases |tokens|, 1
  {
    if !More(tokens) then
      if tokens != [] && tokens[0] == CloseObject then Some(tokens[1..]) else None
    else if !tokens[0].TextToken? || tokens[0].text in seen || |tokens| < 2 then None
    else
      var value := ScanValue(tokens[1], tokens[2..]);
      if value.None? then None else ScanObject(value.value, seen + {tokens[0].text})
  }

  function ScanArray(tokens: seq<Token>): (r: Option<seq<Token>>)
    ensures r.Some? ==> |r.value| < |tokens|
    decreases |tokens|, 1
  {
    if !More(tokens) then
      if tokens != [] && tokens[0] == CloseArray then Some(tokens[1..]) else None
    else
      var value := ScanValue(tokens[0], tokens[1..]);
      if value.None? then None else ScanArray(value.value)
  }

  /* The scan as the decoder runs it */

  class Decoder {
    const tokens: seq<Token>
    var position: nat

    ghost predicate Valid()
      reads this
    {
      position <= |tokens|
    }

    function Rest(): seq<Token>
      reads this
      requires Valid()
    {
      tokens[position..]
    }

    constructor (tokens: seq<Token>)
      ensures Valid() && Rest() == tokens
    {
      this.tokens := tokens;
      position := 0;
    }

    method HasMore() returns (more: bool)
      requires Valid()
      ensures more <==> More(Rest())
    {
      return position < |tokens| && !Closing(tokens[position]);
    }

    method Next() returns (token: Option<Token>)
      requires Valid()
      modifies this
      ensures Valid()
      ensures old(Rest()) == [] ==> token.None? && Rest() == []
      ensures old(Rest()) != [] ==> token == Some(old(Rest())[0]) && Rest() == old(Rest())[1..]
    {
      if position == |tokens| {
        return None;
      }
      token := Some(tokens[position]);
      position := position + 1;
    }
  }

  /** The decoder stands after what the specification leaves, or the scan was refused where it refuses. */
  ghost predicate Followed(d: Decoder, ok: bool, r: Option<seq<Token>>)
    reads d
  {
    d.Valid() && (ok <==> r.Some?) && (ok ==> d.Rest() == r.value)
  }

  method RunValue(d: Decoder, first: Token) returns (ok: bool)
    requires d.Valid()
    modifies d
    ensures Followed(d, ok, ScanValue(first, old(d.Rest())))
    decreases |d.Rest()|, 2
  {
    match first {
      case OpenObject => ok := RunObject(d);
      case OpenArray => ok := RunArray(d);
      case CloseObject => ok := false;
      case CloseArray => ok := false;
      case TextToken(_) => ok := true;
      case LiteralToken => ok := true;
    }
  }

  method RunObject(d: Decoder) returns (ok: bool)
    requires d.Valid()
    modifies d
    ensures Followed(d, ok, ScanObject(old(d.Rest()), {}))
    decreases |d.Rest()|, 1
  {
    var seen: set<string> := {};
    ghost var spec := ScanObject(d.Rest(), {});
    var more := d.HasMore();
    while more
      invariant d.Valid() && |d.Rest()| <= |old(d.Rest())|
      invariant more <==> More(d.Rest())
      invariant spec == ScanObject(d.Rest(), seen)
      decreases |d.Rest()|
    {
      var name := d.Next();
      if !name.value.TextToken? || name.value.text in seen {
        return false;
      }
      seen := seen + {name.value.text};
      var first := d.Next();
      if first.None? {
        return false;
      }
      var scanned := RunValue(d, first.value);
      if !scanned {
        return false;
      }
      more := d.HasMore();
    }
    var closing := d.Next();
    return closing == Some(CloseObject);
  }

  method RunArray(d: Decoder) returns (ok: bool)
    requires d.Valid()
    modifies d
    ensures Followed(d, ok, ScanArray(old(d.Rest())))
    decreases |d.Rest()|, 1
  {
    ghost var spec := ScanArray(d.Rest());
    var more := d.HasMore();
    while more
      invariant d.Valid() && |d.Rest()| <= |old(d.Rest())|
      invariant more <==> More(d.Rest())
      invariant spec == ScanArray(d.Rest())
      decreases |d.Rest()|
    {
      var first := d.Next();
      var scanned := RunValue(d, first.value);
      if !scanned {
        return false;
      }
      more := d.HasMore();
    }
    var closing := d.Next();
    return closing == Some(CloseArray);
  }

  /** One complete value and nothing after it. */
  method ValidateUniqueValue(tokens: seq<Token>) returns (ok: bool)
    ensures ok <==> exists v :: Tokens(v) == tokens && Unambiguous(v)
  {
    var d := new Decoder(tokens);
    var first := d.Next();
    if first.None? {
      forall v ensures Tokens(v) != tokens { NeverEmpty(v); }
      return false;
    }
    assert tokens == [first.value] + tokens[1..];
    var scanned := RunValue(d, first.value);
    var trailing := d.Next();
    ok := scanned && trailing.None?;
    AcceptsExactly(tokens);
  }

  /* What the scan accepts */

  lemma NeverEmpty(v: Json)
    ensures Tokens(v) != [] && !Closing(Tokens(v)[0])
  {
  }

  /** From the tokens of a value and anything after them the scan consumes exactly the value, or refuses it for a
      repeated
      name; what follows makes no difference. */
  lemma {:induction false} ScansValue(v: Json, after: seq<Token>)
    ensures ScanValue(Tokens(v)[0], (Tokens(v) + after)[1..]) == if Unambiguous(v) then Some(after) else None
    decreases v, 0
  {
    var rest := (Tokens(v) + after)[1..];
    match v {
      case Literal => assert rest == after;
      case Text(_) => assert rest == after;
      case Array(items) =>
        assert rest == ItemTokens(items) + ([CloseArray] + after);
        ScansItems(items, after);
      case Object(members) =>
        assert rest == MemberTokens(members) + ([CloseObject] + after);
        ScansMembers(members, {}, after);
    }
  }

  lemma {:induction false} ScansItems(items: Items, after: seq<Token>)
    ensures ScanArray(ItemTokens(items) + ([CloseArray] + after))
            == if ItemsUnambiguous(items) then Some(after) else None
    decreases items, 1
  {
    var tokens := ItemTokens(items) + ([CloseArray] + after);
    match items {
      case NoItems => assert tokens == [CloseArray] + after;
      case Item(head, tail) =>
        var later := ItemTokens(tail) + ([CloseArray] + after);
        assert tokens == Tokens(head) + later;
        NeverEmpty(head);
        ScansValue(head, later);
        ScansItems(tail, after);
    }
  }

  ghost predicate NewNames(names: seq<string>, seen: set<string>) {
    DistinctNames(names) && forall i :: 0 <= i < |names| ==> names[i] !in seen
  }

  lemma EmptyObject(seen: set<string>, after: seq<Token>)
    ensures ScanObject([CloseObject] + after, seen) == Some(after) && NewNames([], seen)
  {
  }

  lemma NextMember(name: string, value: seq<Token>, seen: set<string>)
    requires value != []
    ensures ScanObject([TextToken(name)] + value, seen) ==
              if name in seen || ScanValue(value[0], value[1..]).None? then None
              else ScanObject(ScanValue(value[0], value[1..]).value, seen + {name})
  {
    var tokens := [TextToken(name)] + value;
    assert tokens[1] == value[0] && tokens[2..] == value[1..];
  }

  lemma {:induction false} ScansMembers(members: Members, seen: set<string>, after: seq<Token>)
    ensures ScanObject(MemberTokens(members) + ([CloseObject] + after), seen)
            == if MembersUnambiguous(members) && NewNames(Names(members), seen) then Some(after) else None
    decreases members, 1
  {
    hide ScanObject, ScanValue, NewNames, Tokens;
    var tokens := MemberTokens(members) + ([CloseObject] + after);
    match members {
      case NoMembers =>
        EmptyObject(seen, after);
        assert tokens == [CloseObject] + after;
      case Member(name, value, rest) =>
        var later := MemberTokens(rest) + ([CloseObject] + after);
        NeverEmpty(value);
        assert tokens == [TextToken(name)] + (Tokens(value) + later);
        NextMember(name, Tokens(value) + later, seen);
        ScansValue(value, later);
        ScansMembers(rest, seen + {name}, after);
        NamesSplit(name, Names(rest), seen);
    }
  }

  lemma NamesSplit(name: string, names: seq<string>, seen: set<string>)
    ensures NewNames([name] + names, seen) <==> name !in seen && NewNames(names, seen + {name})
  {
    var all := [name] + names;
    assert forall i :: 0 <= i < |names| ==> all[i + 1] == names[i];
    if NewNames(all, seen) {
      assert all[0] == name;
      forall i | 0 <= i < |names| ensures names[i] !in seen + {name} { assert all[i + 1] != all[0]; }
    }
  }

  /** Whatever the scan accepts began with the tokens of some value whose names are distinct throughout. */
  lemma {:induction false} AcceptedIsValue(first: Token, tokens: seq<Token>) returns (v: Json)
    requires ScanValue(first, tokens).Some?
    ensures [first] + tokens == Tokens(v) + ScanValue(first, tokens).value
    decreases |tokens|, 2
  {
    match first {
      case OpenObject =>
        var members := AcceptedMembers(tokens, {});
        v := Object(members);
      case OpenArray =>
        var items := AcceptedItems(tokens);
        v := Array(items);
      case TextToken(text) => v := Text(text);
      case LiteralToken => v := Literal;
    }
  }

  lemma {:induction false} AcceptedItems(tokens: seq<Token>) returns (items: Items)
    requires ScanArray(tokens).Some?
    ensures tokens == ItemTokens(items) + ([CloseArray] + ScanArray(tokens).value)
    decreases |tokens|, 1
  {
    if !More(tokens) {
      items := NoItems;
    } else {
      var head := AcceptedIsValue(tokens[0], tokens[1..]);
      var left := ScanValue(tokens[0], tokens[1..]).value;
      var tail := AcceptedItems(left);
      items := Item(head, tail);
      assert tokens == [tokens[0]] + tokens[1..];
    }
  }

  lemma {:induction false} AcceptedMembers(tokens: seq<Token>, seen: set<string>) returns (members: Members)
    requires ScanObject(tokens, seen).Some?
    ensures tokens == MemberTokens(members) + ([CloseObject] + ScanObject(tokens, seen).value)
    decreases |tokens|, 1
  {
    hide ScanValue, Tokens;
    if !More(tokens) {
      members := NoMembers;
    } else {
      var value := AcceptedIsValue(tokens[1], tokens[2..]);
      var left := ScanValue(tokens[1], tokens[2..]).value;
      var rest := AcceptedMembers(left, seen + {tokens[0].text});
      members := Member(tokens[0].text, value, rest);
      assert tokens == [tokens[0]] + ([tokens[1]] + tokens[2..]);
    }
  }

  /** On any stream at all, the scan ends with nothing left exactly for the tokens of one unambiguous value. */
  lemma AcceptsExactly(tokens: seq<Token>)
    requires tokens != []
    ensures ScanValue(tokens[0], tokens[1..]) == Some([]) <==> exists v :: Tokens(v) == tokens && Unambiguous(v)
  {
    if ScanValue(tokens[0], tokens[1..]) == Some([]) {
      var v := AcceptedIsValue(tokens[0], tokens[1..]);
      assert [tokens[0]] + tokens[1..] == tokens;
      assert Tokens(v) + [] == Tokens(v);
      ScansValue(v, []);
    }
    forall v | Tokens(v) == tokens && Unambiguous(v) ensures ScanValue(tokens[0], tokens[1..]) == Some([]) {
      ScansValue(v, []);
      assert Tokens(v) + [] == Tokens(v);
    }
  }
}
