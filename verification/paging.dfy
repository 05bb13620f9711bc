/** Keyset pagination over any strict total order: what following continuations yields. */
module Paging {
  import opened Workflow

  /** The order is strict and total: equality of text columns is identity. */
  ghost predicate StrictTotal<K(!new)>(before: (K, K) -> bool) {
    && (forall a :: !before(a, a))
    && (forall a, b, c :: before(a, b) && before(b, c) ==> before(a, c))
    && (forall a, b :: a == b || before(a, b) || before(b, a))
  }

  ghost predicate Ascending<K>(keys: seq<K>, before: (K, K) -> bool) {
    forall i, j :: 0 <= i < j < |keys| ==> before(keys[i], keys[j])
  }

  /** The keys of a finite set, each once, in order. */
  ghost predicate Enumerates<K(!new)>(keys: seq<K>, s: set<K>, before: (K, K) -> bool) {
    Ascending(keys, before) && forall k :: k in keys <==> k in s
  }

  lemma TailEnumerates<K(!new)>(keys: seq<K>, s: set<K>, before: (K, K) -> bool)
    requires StrictTotal(before) && Enumerates(keys, s, before) && keys != []
    ensures Enumerates(keys[1..], s - {keys[0]}, before)
  {
    forall k ensures k in keys[1..] <==> k in s - {keys[0]} {
      if k in s && k != keys[0] {
        var i :| 0 <= i < |keys| && keys[i] == k;
        assert keys[1..][i - 1] == k;
      }
    }
  }

  lemma {:induction false} EnumeratedCount<K(!new)>(keys: seq<K>, s: set<K>, before: (K, K) -> bool)
    requires StrictTotal(before) && Enumerates(keys, s, before)
    ensures |keys| == |s|
  {
    if keys == [] {
      assert forall k :: k in s ==> k in keys;
      assert s == {};
    } else {
      assert keys[0] in s;
      TailEnumerates(keys, s, before);
      EnumeratedCount(keys[1..], s - {keys[0]}, before);
    }
  }

  /** A set is enumerated in one way only. */
  lemma {:induction false} EnumeratedOnce<K(!new)>(a: seq<K>, b: seq<K>, s: set<K>, before: (K, K) -> bool)
    requires StrictTotal(before) && Enumerates(a, s, before) && Enumerates(b, s, before)
    ensures a == b
  {
    EnumeratedCount(a, s, before);
    EnumeratedCount(b, s, before);
    if a == [] {
    } else {
      assert a[0] in s && a[0] in b;
      var i :| 0 <= i < |b| && b[i] == a[0];
      assert b[0] in s && b[0] in a;
      var j :| 0 <= j < |a| && a[j] == b[0];
      assert i == 0;
      TailEnumerates(a, s, before);
      TailEnumerates(b, s, before);
      EnumeratedOnce(a[1..], b[1..], s - {a[0]}, before);
    }
  }

  /** The rows strictly after the continuation, or all of them on the first page. */
  ghost function Beyond<K(!new)>(s: set<K>, after: Option<K>, before: (K, K) -> bool): set<K> {
    if after.None? then s else set k | k in s && before(after.value, k)
  }

  /** One page: at most `limit` keys in order, and the last of them when more follow. */
  ghost predicate IsPage<K(!new)>(s: set<K>, after: Option<K>, limit: nat, before: (K, K) -> bool, items: seq<K>,
                                  next: Option<K>) {
    exists rest :: Enumerates(rest, Beyond(s, after, before), before) && Trimmed(rest, limit, items, next)
  }

  ghost predicate Trimmed<K>(rest: seq<K>, limit: nat, items: seq<K>, next: Option<K>) {
    if |rest| > limit then limit > 0 && items == rest[..limit] && next == Some(rest[limit - 1])
    else items == rest && next == None
  }

  /** The pages a caller sees who hands each continuation to the next query, whatever limit each query asks for. */
  ghost predicate Followed<K(!new)>(s: set<K>, after: Option<K>, limits: seq<nat>, before: (K, K) -> bool,
                                    pages: seq<seq<K>>, next: Option<K>)
    decreases |limits|, 1
  {
    if limits == [] then pages == [] && next == after
    else
      && pages != []
      && exists reached :: PageThen(s, after, limits, before, pages, next, reached)
  }

  ghost predicate PageThen<K(!new)>(s: set<K>, after: Option<K>, limits: seq<nat>, before: (K, K) -> bool,
                                    pages: seq<seq<K>>, next: Option<K>, reached: Option<K>)
    requires limits != [] && pages != []
    decreases |limits|, 0
  {
    && IsPage(s, after, limits[0], before, pages[0], reached)
    && if reached.None? then |limits| == 1 && |pages| == 1 && next.None?
       else Followed(s, reached, limits[1..], before, pages[1..], next)
  }

  function Flatten<K>(pages: seq<seq<K>>): seq<K> {
    if pages == [] then [] else pages[0] + Flatten(pages[1..])
  }

  /** What lies beyond the last key of a page is exactly the rest. */
  lemma BeyondPage<K(!new)>(s: set<K>, after: Option<K>, before: (K, K) -> bool, rest: seq<K>, n: nat)
    requires StrictTotal(before) && Enumerates(rest, Beyond(s, after, before), before) && 0 < n <= |rest|
    ensures Enumerates(rest[n..], Beyond(s, Some(rest[n - 1]), before), before)
  {
    var last := rest[n - 1];
    assert last in rest;
    forall k ensures k in rest[n..] <==> k in Beyond(s, Some(last), before) {
      if k in rest[n..] {
        var i :| 0 <= i < |rest[n..]| && rest[n..][i] == k;
        assert rest[n + i] == k && before(last, rest[n + i]);
        assert k in rest;
      }
      if k in s && before(last, k) {
        assert k in Beyond(s, after, before);
        var i :| 0 <= i < |rest| && rest[i] == k;
        assert i >= n;
        assert rest[n..][i - n] == k;
      }
    }
  }

  /** Following continuations with any positive limits yields every row once and in order: the pages so far are the
      beginning of the enumeration, and they are all of it exactly when no continuation is left. */
  lemma {:induction false} PagesEnumerate<K(!new)>(s: set<K>, after: Option<K>, limits: seq<nat>,
                                                   before: (K, K) -> bool,
                                                   pages: seq<seq<K>>, next: Option<K>, rest: seq<K>)
    requires StrictTotal(before) && limits != [] && forall i :: 0 <= i < |limits| ==> limits[i] > 0
    requires Followed(s, after, limits, before, pages, next)
    requires Enumerates(rest, Beyond(s, after, before), before)
    ensures Flatten(pages) <= rest
    ensures next.None? <==> Flatten(pages) == rest
    ensures next.Some? ==> Flatten(pages) != [] && next.value == Flatten(pages)[|Flatten(pages)| - 1]
    decreases |limits|
  {
    var reached :| PageThen(s, after, limits, before, pages, next, reached);
    var own :| Enumerates(own, Beyond(s, after, before), before) && Trimmed(own, limits[0], pages[0], reached);
    EnumeratedOnce(own, rest, Beyond(s, after, before), before);
    assert Flatten(pages) == pages[0] + Flatten(pages[1..]);
    if reached.None? {
      assert pages[1..] == [];
    } else {
      BeyondPage(s, after, before, rest, limits[0]);
      assert rest == rest[..limits[0]] + rest[limits[0]..];
      if |limits| > 1 {
        PagesEnumerate(s, reached, limits[1..], before, pages[1..], next, rest[limits[0]..]);
      } else {
        assert limits[1..] == [];
        assert Followed(s, reached, [], before, pages[1..], next);
      }
    }
  }

  /** ORDER BY and LIMIT: the first keys of the set, in order. */
  method Fetch<K(==, !new)>(s: set<K>, before: (K, K) -> bool, limit: nat) returns (keys: seq<K>, ghost rest: seq<K>)
    requires StrictTotal(before)
    ensures Enumerates(keys + rest, s, before)
    ensures |keys| <= limit && (|keys| < limit ==> rest == [])
  {
    keys := [];
    var left := s;
    while left != {} && |keys| < limit
      invariant left <= s && |keys| <= limit
      invariant forall k :: k in s <==> k in left || k in keys
      invariant Ascending(keys, before)
      invariant forall i, k :: 0 <= i < |keys| && k in left ==> before(keys[i], k)
      decreases |left|
    {
      var first := First(left, before);
      keys := keys + [first];
      left := left - {first};
    }
    rest := if left == {} then [] else InOrder(left, before);
    assert forall k :: k in rest <==> k in left;
  }

  /** Reading one row more than the limit is enough to cut a page. */
  lemma LookAhead<K(!new)>(s: set<K>, after: Option<K>, limit: nat, before: (K, K) -> bool, rows: seq<K>, rest: seq<K>)
    requires limit >= 1 && Enumerates(rows + rest, Beyond(s, after, before), before)
    requires |rows| <= limit + 1 && (|rows| < limit + 1 ==> rest == [])
    ensures IsPage(s, after, limit, before, if |rows| > limit then rows[..limit] else rows,
                   if |rows| > limit then Some(rows[limit - 1]) else None)
    ensures forall i :: 0 <= i < |rows| ==> rows[i] in s
  {
    assert forall i :: 0 <= i < |rows| ==> rows[i] == (rows + rest)[i] && rows[i] in rows + rest;
    if |rows| > limit {
      assert (rows + rest)[..limit] == rows[..limit];
      assert Trimmed(rows + rest, limit, rows[..limit], Some(rows[limit - 1]));
    } else {
      assert rows + rest == rows;
      assert Trimmed(rows + rest, limit, rows, None);
    }
  }

  lemma PageWithin<K(!new)>(s: set<K>, after: Option<K>, limit: nat, before: (K, K) -> bool, items: seq<K>,
                            next: Option<K>)
    requires IsPage(s, after, limit, before, items, next)
    ensures forall k :: k in items ==> k in s
  {
    var rest :| Enumerates(rest, Beyond(s, after, before), before) && Trimmed(rest, limit, items, next);
    assert forall k :: k in items ==> k in rest;
  }

  lemma ContinuationIsRow<K(!new)>(s: set<K>, after: Option<K>, limit: nat, before: (K, K) -> bool, items: seq<K>,
                                   next: Option<K>)
    requires IsPage(s, after, limit, before, items, next) && next.Some?
    ensures next.value in s && |items| == limit > 0 && next.value == items[limit - 1]
  {
    var rest :| Enumerates(rest, Beyond(s, after, before), before) && Trimmed(rest, limit, items, next);
    assert rest[limit - 1] in rest;
  }

  method First<K(==, !new)>(s: set<K>, before: (K, K) -> bool) returns (first: K)
    requires StrictTotal(before) && s != {}
    ensures first in s && forall k :: k in s ==> k == first || before(first, k)
  {
    first :| first in s;
    var left := s - {first};
    while left != {}
      invariant left <= s && first in s
      invariant forall k :: k in s && k !in left ==> k == first || before(first, k)
      decreases |left|
    {
      var next :| next in left;
      if before(next, first) {
        first := next;
      }
      left := left - {next};
    }
  }

  lemma {:induction false} HasFirst<K(!new)>(s: set<K>, before: (K, K) -> bool)
    requires StrictTotal(before) && s != {}
    ensures exists first :: first in s && forall k :: k in s ==> k == first || before(first, k)
    decreases |s|
  {
    var x :| x in s;
    if s != {x} {
      HasFirst(s - {x}, before);
      var first :| first in s - {x} && forall k :: k in s - {x} ==> k == first || before(first, k);
      if before(x, first) {
        assert forall k :: k in s ==> k == x || k in s - {x};
      } else {
        assert forall k :: k in s ==> k == first || before(first, k);
      }
    }
  }

  ghost function InOrder<K(!new)>(s: set<K>, before: (K, K) -> bool): (keys: seq<K>)
    requires StrictTotal(before)
    ensures Enumerates(keys, s, before)
    decreases |s|
  {
    if s == {} then []
    else
      HasFirst(s, before);
      var first :| first in s && forall k :: k in s ==> k == first || before(first, k);
      var others := InOrder(s - {first}, before);
      assert forall k :: k in [first] + others <==> k == first || k in others;
      [first] + others
  }
}
