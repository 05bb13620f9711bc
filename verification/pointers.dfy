/** JSON Pointers as field references (sections 3 and 4 of RFC 6901). */
module Pointers {
  import opened Workflow

  /* Writing */

  function Escape(token: string): string {
    if token == "" then ""
    else (if token[0] == '~' then "~0" else if token[0] == '/' then "~1" else [token[0]]) + Escape(token[1..])
  }

  function Escaped(tokens: seq<string>): seq<string> {
    if tokens == [] then [] else [Escape(tokens[0])] + Escaped(tokens[1..])
  }

  /** The parts with a slash in front of each. */
  function Join(parts: seq<string>): string {
    if parts == [] then "" else "/" + parts[0] + Join(parts[1..])
  }

  function Render(tokens: seq<string>): string { Join(Escaped(tokens)) }

  /* Reading */

  function Split(s: string): (parts: seq<string>)
    ensures parts != []
  {
    if s == "" then [""]
    else if s[0] == '/' then [""] + Split(s[1..])
    else
      var rest := Split(s[1..]);
      [[s[0]] + rest[0]] + rest[1..]
  }

  function Unescape(raw: string): Option<string> {
    if raw == "" then Some("")
    else if raw[0] != '~' then Prefixed([raw[0]], Unescape(raw[1..]))
    else if |raw| == 1 then None
    else if raw[1] == '0' then Prefixed("~", Unescape(raw[2..]))
    else if raw[1] == '1' then Prefixed("/", Unescape(raw[2..]))
    else None
  }

  function Prefixed<T>(front: seq<T>, rest: Option<seq<T>>): Option<seq<T>> {
    if rest.None? then None else Some(front + rest.value)
  }

  lemma PrefixedTwice<T>(a: seq<T>, b: seq<T>, rest: Option<seq<T>>)
    ensures Prefixed(a, Prefixed(b, rest)) == Prefixed(a + b, rest)
    ensures Prefixed([], rest) == rest
  {
    if rest.Some? {
      assert a + (b + rest.value) == a + b + rest.value;
      assert [] + rest.value == rest.value;
    }
  }

  function Unescaped(parts: seq<string>): Option<seq<string>> {
    if parts == [] then Some([])
    else if Unescape(parts[0]).None? then None
    else Prefixed([Unescape(parts[0]).value], Unescaped(parts[1..]))
  }

  /** What the pointer denotes, if anything. */
  function Parsed(pointer: string): Option<seq<string>> {
    if pointer == "" || pointer[0] != '/' then None else Unescaped(Split(pointer[1..]))
  }

  method UnescapeToken(rawToken: string) returns (r: Option<string>)
    ensures r == Unescape(rawToken)
  {
    var token := "";
    var offset := 0;
    PrefixedTwice("", "", Unescape(rawToken));
    assert rawToken[0..] == rawToken;
    while offset < |rawToken|
      invariant 0 <= offset <= |rawToken|
      invariant Unescape(rawToken) == Prefixed(token, Unescape(rawToken[offset..]))
    {
      ghost var here := rawToken[offset..];
      if rawToken[offset] != '~' {
        PrefixedTwice(token, [rawToken[offset]], Unescape(here[1..]));
        token := token + [rawToken[offset]];
        assert here[1..] == rawToken[offset + 1..];
      } else {
        if offset + 1 >= |rawToken| {
          return None;
        }
        assert here[2..] == rawToken[offset + 2..];
        PrefixedTwice(token, "~", Unescape(here[2..]));
        PrefixedTwice(token, "/", Unescape(here[2..]));
        offset := offset + 1;
        if rawToken[offset] == '0' {
          token := token + "~";
        } else if rawToken[offset] == '1' {
          token := token + "/";
        } else {
          return None;
        }
      }
      offset := offset + 1;
    }
    assert rawToken[offset..] == "" && token + "" == token;
    return Some(token);
  }

  method ParsePointer(pointer: string) returns (r: Option<seq<string>>)
    ensures r == Parsed(pointer)
  {
    if |pointer| == 0 || pointer[0] != '/' {
      return None;
    }
    var rawTokens := Split(pointer[1..]);
    var tokens: seq<string> := [];
    PrefixedTwice([], [], Unescaped(rawTokens));
    assert rawTokens[0..] == rawTokens;
    for index := 0 to |rawTokens|
      invariant Unescaped(rawTokens) == Prefixed(tokens, Unescaped(rawTokens[index..]))
    {
      var token := UnescapeToken(rawTokens[index]);
      assert rawTokens[index..][1..] == rawTokens[index + 1..];
      if token.None? {
        return None;
      }
      PrefixedTwice(tokens, [token.value], Unescaped(rawTokens[index + 1..]));
      tokens := tokens + [token.value];
    }
    assert rawTokens[|rawTokens|..] == [] && tokens + [] == tokens;
    return Some(tokens);
  }

  /* Reading undoes writing, and the other way round */

  lemma {:induction false} UnescapeEscape(token: string)
    ensures Unescape(Escape(token)) == Some(token)
    ensures '/' !in Escape(token)
  {
    if token == "" {
    } else {
      UnescapeEscape(token[1..]);
      var rest := Escape(token[1..]);
      var head := if token[0] == '~' then "~0" else if token[0] == '/' then "~1" else [token[0]];
      assert Escape(token) == head + rest;
      assert (head + rest)[|head|..] == rest;
      assert token == [token[0]] + token[1..];
    }
  }

  lemma {:induction false} EscapeUnescape(raw: string)
    requires '/' !in raw && Unescape(raw).Some?
    ensures Escape(Unescape(raw).value) == raw
  {
    if raw == "" {
    } else {
      var n := if raw[0] == '~' then 2 else 1;
      EscapeUnescape(raw[n..]);
      var token := Unescape(raw).value;
      assert token[1..] == Unescape(raw[n..]).value;
      assert raw == raw[..n] + raw[n..];
    }
  }

  lemma {:induction false} SplitPart(part: string, rest: string)
    requires '/' !in part && (rest == "" || rest[0] == '/')
    ensures Split(part + rest) == [part] + (if rest == "" then [] else Split(rest[1..]))
  {
    if part == "" {
      assert part + rest == rest;
    } else {
      assert (part + rest)[1..] == part[1..] + rest;
      SplitPart(part[1..], rest);
      assert part == [part[0]] + part[1..];
    }
  }

  lemma {:induction false} SplitJoin(parts: seq<string>)
    requires parts != [] && forall i :: 0 <= i < |parts| ==> '/' !in parts[i]
    ensures Split(Join(parts)[1..]) == parts
  {
    var rest := Join(parts[1..]);
    assert Join(parts)[1..] == parts[0] + rest;
    SplitPart(parts[0], rest);
    if |parts| > 1 {
      SplitJoin(parts[1..]);
    } else {
      assert parts[1..] == [];
    }
    assert parts == [parts[0]] + parts[1..];
  }

  lemma JoinSlash(rest: seq<string>)
    ensures Join([""] + rest) == "/" + Join(rest)
  {
    assert ([""] + rest)[1..] == rest;
  }

  lemma JoinHead(c: char, rest: seq<string>)
    requires rest != []
    ensures Join(rest) != "" && Join([[c] + rest[0]] + rest[1..]) == "/" + ([c] + Join(rest)[1..])
  {
    hide Join;
    var parts := [[c] + rest[0]] + rest[1..];
    var head, part, tail := [c], rest[0], Join(rest[1..]);
    assert parts[0] == head + part && parts[1..] == rest[1..];
    JoinFront(parts);
    JoinFront(rest);
    assert (head + part) + tail == head + (part + tail);
  }

  lemma JoinFront(parts: seq<string>)
    requires parts != []
    ensures Join(parts) != "" && Join(parts)[0] == '/' && Join(parts)[1..] == parts[0] + Join(parts[1..])
    ensures Join(parts) == "/" + (parts[0] + Join(parts[1..]))
  {
  }

  lemma {:induction false} JoinSplit(s: string)
    ensures Join(Split(s)) == "/" + s
  {
    if s == "" {
      JoinSlash([]);
      NothingJoined();
      assert [""] + [] == Split(s) && "/" + "" == "/" + s;
    } else {
      JoinSplit(s[1..]);
      assert s == [s[0]] + s[1..];
      if s[0] == '/' {
        JoinSlash(Split(s[1..]));
      } else {
        JoinHead(s[0], Split(s[1..]));
        assert ("/" + s[1..])[1..] == s[1..];
      }
    }
  }

  lemma NothingJoined()
    ensures Join([]) == ""
  {
  }

  lemma {:induction false} SplitAtSlashes(s: string)
    ensures forall i :: 0 <= i < |Split(s)| ==> '/' !in Split(s)[i]
  {
    if s == "" {
    } else {
      SplitAtSlashes(s[1..]);
    }
  }

  lemma {:induction false} UnescapedEscaped(tokens: seq<string>)
    ensures Unescaped(Escaped(tokens)) == Some(tokens) && |Escaped(tokens)| == |tokens|
    ensures forall i :: 0 <= i < |Escaped(tokens)| ==> '/' !in Escaped(tokens)[i]
  {
    if tokens == [] {
    } else {
      UnescapeEscape(tokens[0]);
      UnescapedEscaped(tokens[1..]);
      assert Escaped(tokens)[1..] == Escaped(tokens[1..]);
      assert tokens == [tokens[0]] + tokens[1..];
    }
  }

  lemma {:induction false} EscapedUnescaped(parts: seq<string>)
    requires (forall i :: 0 <= i < |parts| ==> '/' !in parts[i]) && Unescaped(parts).Some?
    ensures Escaped(Unescaped(parts).value) == parts
  {
    if parts == [] {
    } else {
      EscapeUnescape(parts[0]);
      EscapedUnescaped(parts[1..]);
      assert Unescaped(parts).value[1..] == Unescaped(parts[1..]).value;
      assert parts == [parts[0]] + parts[1..];
    }
  }

  /** Accepted pointers and non-empty token lists correspond one to one: reading inverts writing. */
  lemma PointerBijection(pointer: string, tokens: seq<string>)
    ensures Parsed(pointer) == Some(tokens) <==> tokens != [] && pointer == Render(tokens)
  {
    if tokens != [] && pointer == Render(tokens) {
      UnescapedEscaped(tokens);
      SplitJoin(Escaped(tokens));
    }
    if Parsed(pointer) == Some(tokens) {
      JoinSplit(pointer[1..]);
      SplitAtSlashes(pointer[1..]);
      EscapedUnescaped(Split(pointer[1..]));
      assert pointer == "/" + pointer[1..];
    }
  }

  /** The grammar of non-root pointers: a leading slash, and every tilde begins one of the two escapes. */
  ghost predicate Escapes(s: string) {
    forall i :: 0 <= i < |s| && s[i] == '~' ==> i + 1 < |s| && (s[i + 1] == '0' || s[i + 1] == '1')
  }

  ghost predicate Grammatical(pointer: string) { pointer != "" && pointer[0] == '/' && Escapes(pointer[1..]) }

  lemma {:induction false} UnescapesWhen(raw: string)
    ensures Unescape(raw).Some? <==> Escapes(raw)
  {
    if raw == "" {
    } else {
      var n := if raw[0] == '~' then 2 else 1;
      if n <= |raw| {
        UnescapesWhen(raw[n..]);
        assert forall i :: 0 <= i < |raw[n..]| ==> raw[n..][i] == raw[n + i];
        if Escapes(raw[n..]) && (n == 2 ==> raw[1] == '0' || raw[1] == '1') {
          forall i | 0 <= i < |raw| && raw[i] == '~' ensures i + 1 < |raw| && (raw[i + 1] == '0' || raw[i + 1] == '1') {
            if i >= n { assert raw[n..][i - n] == '~'; }
          }
        }
        if Escapes(raw) {
          forall i | 0 <= i < |raw[n..]| && raw[n..][i] == '~'
              ensures i + 1 < |raw[n..]| && (raw[n..][i + 1] == '0' || raw[n..][i + 1] == '1') {
            assert raw[n + i] == '~';
          }
        }
      }
    }
  }

  lemma EscapesConcat(a: string, b: string)
    requires b == "" || b[0] == '/'
    ensures Escapes(a + b) <==> Escapes(a) && Escapes(b)
  {
    var ab := a + b;
    assert forall i :: 0 <= i < |b| ==> ab[|a| + i] == b[i];
    assert b != "" ==> ab[|a|] == '/';
    if Escapes(ab) {
      forall i | 0 <= i < |a| && a[i] == '~' ensures i + 1 < |a| && (a[i + 1] == '0' || a[i + 1] == '1') {
        assert ab[i] == '~' && i + 1 < |ab|;
        assert i + 1 < |a| ==> ab[i + 1] == a[i + 1];
      }
      forall i | 0 <= i < |b| && b[i] == '~' ensures i + 1 < |b| && (b[i + 1] == '0' || b[i + 1] == '1') {
        assert ab[|a| + i] == '~';
      }
    }
    if Escapes(a) && Escapes(b) {
      forall i | 0 <= i < |ab| && ab[i] == '~' ensures i + 1 < |ab| && (ab[i + 1] == '0' || ab[i + 1] == '1') {
        if i >= |a| { assert b[i - |a|] == '~'; }
      }
    }
  }

  lemma {:induction false} JoinEscapes(parts: seq<string>)
    ensures Escapes(Join(parts)) <==> forall i :: 0 <= i < |parts| ==> Escapes(parts[i])
  {
    if parts == [] {
    } else {
      var rest := Join(parts[1..]);
      JoinEscapes(parts[1..]);
      EscapesConcat(parts[0], rest);
      SlashEscapes(parts[0] + rest);
      assert "/" + parts[0] + rest == "/" + (parts[0] + rest);
      assert forall i :: 0 <= i < |parts[1..]| ==> parts[1..][i] == parts[i + 1];
      assert forall i :: 0 < i < |parts| ==> parts[i] == parts[1..][i - 1];
    }
  }

  lemma SlashEscapes(s: string)
    ensures Escapes("/" + s) <==> Escapes(s)
  {
    var t := "/" + s;
    if Escapes(s) {
      forall i | 0 <= i < |t| && t[i] == '~' ensures i + 1 < |t| && (t[i + 1] == '0' || t[i + 1] == '1') {
        assert s[i - 1] == '~';
      }
    }
    if Escapes(t) {
      forall i | 0 <= i < |s| && s[i] == '~' ensures i + 1 < |s| && (s[i + 1] == '0' || s[i + 1] == '1') {
        assert t[i + 1] == '~' && t[i + 2] == s[i + 1];
      }
    }
  }

  /** Rejected are exactly the strings outside the grammar. */
  lemma AcceptedWhenGrammatical(pointer: string)
    ensures Parsed(pointer).Some? <==> Grammatical(pointer)
  {
    if pointer != "" && pointer[0] == '/' {
      JoinSplit(pointer[1..]);
      JoinEscapes(Split(pointer[1..]));
      SlashEscapes(pointer[1..]);
      UnescapedWhen(Split(pointer[1..]));
    }
  }

  lemma {:induction false} UnescapedWhen(parts: seq<string>)
    ensures Unescaped(parts).Some? <==> forall i :: 0 <= i < |parts| ==> Escapes(parts[i])
  {
    if parts == [] {
    } else {
      UnescapesWhen(parts[0]);
      UnescapedWhen(parts[1..]);
      assert forall i :: 0 <= i < |parts[1..]| ==> parts[1..][i] == parts[i + 1];
      assert forall i :: 0 < i < |parts| ==> parts[i] == parts[1..][i - 1];
    }
  }
}
