/** Normalised cache keys: "<domain>:<path>?<sorted query>#<header hash>". */
module CacheKey {
  import opened Objects

  // ---- sort.Strings ----

  /** Lexicographic order. */
  predicate Le(a: string, b: string) {
    a == [] || (b != [] && (a[0] < b[0] || (a[0] == b[0] && Le(a[1..], b[1..]))))
  }

  lemma {:induction false} LeTotal(a: string, b: string)
    ensures Le(a, b) || Le(b, a)
    ensures Le(a, b) && Le(b, a) ==> a == b
  {
    if a != [] && b != [] && a[0] == b[0] {
      LeTotal(a[1..], b[1..]);
      assert a == [a[0]] + a[1..] && b == [b[0]] + b[1..];
    }
  }

  lemma {:induction false} LeTransitive(a: string, b: string, c: string)
    requires Le(a, b) && Le(b, c)
    ensures Le(a, c)
  {
    if a != [] && a[0] == b[0] && b[0] == c[0] {
      LeTransitive(a[1..], b[1..], c[1..]);
    }
  }

  ghost predicate Ordered(s: seq<string>) {
    s != [] ==> (forall x :: x in s[1..] ==> Le(s[0], x)) && Ordered(s[1..])
  }

  function Place(x: string, s: seq<string>): seq<string> {
    if s == [] || Le(x, s[0]) then [x] + s else [s[0]] + Place(x, s[1..])
  }

  function Sorted(s: seq<string>): seq<string> {
    if s == [] then [] else Place(s[0], Sorted(s[1..]))
  }

  lemma {:induction false} PlaceFacts(x: string, s: seq<string>)
    requires Ordered(s)
    ensures Ordered(Place(x, s)) && multiset(Place(x, s)) == multiset(s) + multiset{x}
    ensures forall y :: y in Place(x, s) <==> y == x || y in s
  {
    assert ([x] + s)[1..] == s;
    if s != [] {
      assert s == [s[0]] + s[1..];
      if Le(x, s[0]) {
        forall y | y in s ensures Le(x, y) {
          if y in s[1..] {
            LeTransitive(x, s[0], y);
          }
        }
      } else {
        LeTotal(x, s[0]);
        PlaceFacts(x, s[1..]);
        assert Place(x, s)[1..] == Place(x, s[1..]);
      }
    }
  }

  lemma {:induction false} SortedFacts(s: seq<string>)
    ensures Ordered(Sorted(s)) && multiset(Sorted(s)) == multiset(s)
  {
    if s != [] {
      SortedFacts(s[1..]);
      PlaceFacts(s[0], Sorted(s[1..]));
      assert s == [s[0]] + s[1..];
    }
  }

  lemma TakeOut(u: seq<string>, x: string, v: seq<string>)
    ensures multiset(u + [x] + v) - multiset{x} == multiset(u + v)
  {
  }

  lemma HeadIsLeast(s: seq<string>, x: string)
    requires Ordered(s) && x in s
    ensures Le(s[0], x)
  {
    LeTotal(s[0], s[0]);
    assert s == [s[0]] + s[1..];
  }

  lemma SameLeast(a: seq<string>, b: seq<string>)
    requires Ordered(a) && Ordered(b) && multiset(a) == multiset(b) && a != [] && b != []
    ensures a[0] == b[0]
  {
    assert a[0] in multiset(b) && b[0] in multiset(a);
    HeadIsLeast(a, b[0]);
    HeadIsLeast(b, a[0]);
    LeTotal(a[0], b[0]);
  }

  lemma TailBag(a: seq<string>)
    requires a != []
    ensures multiset(a[1..]) == multiset(a) - multiset{a[0]}
  {
    assert a == [] + [a[0]] + a[1..] && [] + a[1..] == a[1..];
    TakeOut([], a[0], a[1..]);
  }

  lemma SameSize(a: seq<string>, b: seq<string>)
    requires multiset(a) == multiset(b)
    ensures |a| == |b|
  {
    assert |a| == |multiset(a)| && |b| == |multiset(b)|;
  }

  /** A multiset of strings has one ordered listing: any correct sort gives this one. */
  lemma {:induction false} OrderedUnique(a: seq<string>, b: seq<string>)
    requires Ordered(a) && Ordered(b) && multiset(a) == multiset(b)
    ensures a == b
  {
    SameSize(a, b);
    if a != [] {
      SameLeast(a, b);
      TailBag(a);
      TailBag(b);
      OrderedUnique(a[1..], b[1..]);
      assert a == [a[0]] + a[1..] && b == [b[0]] + b[1..];
    }
  }

  lemma SortIgnoresOrder(a: seq<string>, b: seq<string>)
    requires multiset(a) == multiset(b)
    ensures Sorted(a) == Sorted(b)
  {
    SortedFacts(a);
    SortedFacts(b);
    OrderedUnique(Sorted(a), Sorted(b));
  }

  // ---- buildQuery and buildHeaderHash ----

  type Pairs = seq<(string, string)>

  /** The first value of a query parameter. */
  function First(q: Pairs, name: string): Option<string> {
    if q == [] then None else if q[0].0 == name then Some(q[0].1) else First(q[1..], name)
  }

  /** "name=value" for each configured name that has a value, in the order of the configuration. */
  function Selected(value: string -> Option<string>, names: seq<string>): seq<string> {
    if names == [] then []
    else
      var rest := Selected(value, names[1..]);
      match value(names[0])
      case None => rest
      case Some(v) => [names[0] + "=" + v] + rest
  }

  function Join(parts: seq<string>, sep: string): string {
    if parts == [] then "" else if |parts| == 1 then parts[0] else parts[0] + sep + Join(parts[1..], sep)
  }

  function QueryValue(q: Pairs): string -> Option<string> {
    name => First(q, name)
  }

  /** Header.Get: a missing header reads as the empty string, and both count as absent. */
  function HeaderValue(headers: map<string, string>): string -> Option<string> {
    name => if name in headers && headers[name] != "" then Some(headers[name]) else None
  }

  function QueryPart(q: Pairs, params: seq<string>): string {
    Join(Sorted(Selected(QueryValue(q), params)), "&")
  }

  /** `digest` is the truncated SHA-1, in hexadecimal. */
  function HeaderPart(digest: string -> string, headers: map<string, string>, names: seq<string>): string {
    var parts := Selected(HeaderValue(headers), names);
    if parts == [] then "" else digest(Join(Sorted(parts), ";"))
  }

  function Format(domain: string, path: string, query: string, hash: string): string {
    domain + ":" + path + "?" + query + "#" + hash
  }

  datatype KeyRules = KeyRules(params: seq<string>, headers: seq<string>)

  /** A domain's own rules replace the global ones. */
  function Effective(global: KeyRules, own: Option<KeyRules>): KeyRules {
    if own.Some? then own.value else global
  }

  function KeyOf(digest: string -> string, rules: KeyRules, domain: string, path: string, q: Pairs, headers: map<string, string>): string {
    Format(domain, path, QueryPart(q, rules.params), HeaderPart(digest, headers, rules.headers))
  }

  method SortStrings(s: seq<string>) returns (r: seq<string>)
    ensures Ordered(r) && multiset(r) == multiset(s)
  {
    r := Sorted(s);
    SortedFacts(s);
  }

  method BuildQuery(q: Pairs, params: seq<string>) returns (part: string)
    ensures part == QueryPart(q, params)
  {
    if |params| == 0 {
      return "";
    }
    var parts := Collect(QueryValue(q), params);
    var sorted := SortStrings(parts);
    SortedFacts(parts);
    OrderedUnique(sorted, Sorted(parts));
    part := Join(sorted, "&");
  }

  method BuildHeaderHash(digest: string -> string, headers: map<string, string>, names: seq<string>) returns (part: string)
    ensures part == HeaderPart(digest, headers, names)
  {
    if |names| == 0 {
      return "";
    }
    var parts := Collect(HeaderValue(headers), names);
    if |parts| == 0 {
      return "";
    }
    var sorted := SortStrings(parts);
    SortedFacts(parts);
    OrderedUnique(sorted, Sorted(parts));
    part := digest(Join(sorted, ";"));
  }

  /** The loop both builders share. */
  method Collect(value: string -> Option<string>, names: seq<string>) returns (parts: seq<string>)
    ensures parts == Selected(value, names)
  {
    parts := [];
    for i := 0 to |names|
      invariant parts == Selected(value, names[..i])
    {
      SelectedAppend(value, names[..i], [names[i]]);
      assert names[..i + 1] == names[..i] + [names[i]];
      match value(names[i])
      case None =>
      case Some(v) => parts := parts + [names[i] + "=" + v];
    }
    assert names[..|names|] == names;
  }

  method Build(digest: string -> string, global: KeyRules, domain: string, path: string, q: Pairs,
    headers: map<string, string>, own: Option<KeyRules>) returns (key: string)
    ensures key == KeyOf(digest, Effective(global, own), domain, path, q, headers)
    ensures ':' !in domain && '?' !in path && (forall s :: '#' !in digest(s)) ==>
      && (own.Some? ==> QueryOf(key) == QueryPart(q, own.value.params) && HashOf(key) == HeaderPart(digest, headers, own.value.headers))
      && (own.None? ==> QueryOf(key) == QueryPart(q, global.params) && HashOf(key) == HeaderPart(digest, headers, global.headers))
  {
    if ':' !in domain && '?' !in path && forall s :: '#' !in digest(s) {
      BuiltKeyReadsBack(digest, Effective(global, own), domain, path, q, headers);
    }
    var rules := global;
    if own.Some? {
      rules := own.value;
    }
    var query := BuildQuery(q, rules.params);
    var hash := BuildHeaderHash(digest, headers, rules.headers);
    key := domain + ":" + path + "?" + query + "#" + hash;
  }

  // ---- order independence ----

  lemma {:induction false} SelectedAppend(value: string -> Option<string>, a: seq<string>, b: seq<string>)
    ensures Selected(value, a + b) == Selected(value, a) + Selected(value, b)
  {
    if a == [] {
      assert a + b == b;
    } else {
      assert (a + b)[1..] == a[1..] + b;
      SelectedAppend(value, a[1..], b);
    }
  }

  lemma SelectedSplit(value: string -> Option<string>, u: seq<string>, x: string, v: seq<string>)
    ensures multiset(Selected(value, u + [x] + v)) == multiset(Selected(value, u + v)) + multiset(Selected(value, [x]))
  {
    SelectedAppend(value, u + [x], v);
    SelectedAppend(value, u, [x]);
    SelectedAppend(value, u, v);
  }

  ghost function Around(b: seq<string>, x: string): (r: (seq<string>, seq<string>))
    requires x in b
    ensures b == r.0 + [x] + r.1
  {
    var i :| 0 <= i < |b| && b[i] == x;
    (b[..i], b[i + 1..])
  }

  lemma TakeBoth(t: seq<string>, x: string, u: seq<string>, v: seq<string>)
    requires multiset([] + [x] + t) == multiset(u + [x] + v)
    ensures multiset(t) == multiset(u + v)
  {
    TakeOut([], x, t);
    TakeOut(u, x, v);
    assert [] + t == t;
  }

  lemma {:induction false} SelectedIgnoresOrder(value: string -> Option<string>, a: seq<string>, b: seq<string>)
    requires multiset(a) == multiset(b)
    ensures multiset(Selected(value, a)) == multiset(Selected(value, b))
  {
    if a == [] {
      assert |multiset(b)| == |b| == 0;
    } else {
      var x, t := a[0], a[1..];
      assert [] + [x] + t == a && [] + t == t;
      assert x in multiset(b);
      var (u, v) := Around(b, x);
      TakeBoth(t, x, u, v);
      SelectedIgnoresOrder(value, t, u + v);
      SelectedSplit(value, [], x, t);
      SelectedSplit(value, u, x, v);
    }
  }

  /** No parameter occurs with two values. */
  ghost predicate SingleValued(q: Pairs) {
    forall a, b :: a in q && b in q && a.0 == b.0 ==> a.1 == b.1
  }

  lemma {:induction false} FirstOfSingle(q: Pairs, name: string)
    requires SingleValued(q)
    ensures forall v :: First(q, name) == Some(v) <==> (name, v) in q
    decreases |q|
  {
    if q != [] {
      assert forall p :: p in q <==> p == q[0] || p in q[1..];
      FirstOfSingle(q[1..], name);
      if q[0].0 == name {
        assert (name, q[0].1) in q;
      }
    }
  }

  /** The key depends neither on the order in which names are configured nor, when no parameter has two values,
      on the order of the query. */
  lemma KeyIgnoresOrder(digest: string -> string, rules: KeyRules, rules': KeyRules, domain: string, path: string,
    q: Pairs, q': Pairs, headers: map<string, string>)
    requires multiset(rules.params) == multiset(rules'.params) && multiset(rules.headers) == multiset(rules'.headers)
    requires multiset(q) == multiset(q') && SingleValued(q)
    ensures KeyOf(digest, rules', domain, path, q', headers) == KeyOf(digest, rules, domain, path, q, headers)
  {
    assert forall p :: p in q <==> p in multiset(q');
    forall name ensures First(q, name) == First(q', name) {
      FirstOfSingle(q, name);
      FirstOfSingle(q', name);
      assert forall v :: First(q, name) == Some(v) <==> First(q', name) == Some(v);
      if First(q, name).Some? {
        assert First(q', name) == Some(First(q, name).value);
      }
    }
    SelectedSame(QueryValue(q), QueryValue(q'), rules'.params);
    SelectedIgnoresOrder(QueryValue(q), rules.params, rules'.params);
    SortIgnoresOrder(Selected(QueryValue(q), rules.params), Selected(QueryValue(q), rules'.params));
    var a, b := Selected(HeaderValue(headers), rules.headers), Selected(HeaderValue(headers), rules'.headers);
    SelectedIgnoresOrder(HeaderValue(headers), rules.headers, rules'.headers);
    SortIgnoresOrder(a, b);
    assert |a| == |multiset(a)| == |multiset(b)| == |b|;
  }

  lemma {:induction false} SelectedSame(f: string -> Option<string>, g: string -> Option<string>, names: seq<string>)
    requires forall n :: f(n) == g(n)
    ensures Selected(f, names) == Selected(g, names)
  {
    if names != [] {
      SelectedSame(f, g, names[1..]);
    }
  }

  // ---- what the key distinguishes ----

  lemma {:induction false} SelectedSameOn(f: string -> Option<string>, g: string -> Option<string>, names: seq<string>)
    requires forall n :: n in names ==> f(n) == g(n)
    ensures Selected(f, names) == Selected(g, names)
  {
    if names != [] {
      assert names == [names[0]] + names[1..];
      SelectedSameOn(f, g, names[1..]);
    }
  }

  /** Parameters and headers that are not configured, and all but the first value of a parameter, do not matter. */
  lemma KeyIgnoresOthers(digest: string -> string, rules: KeyRules, domain: string, path: string,
    q: Pairs, q': Pairs, headers: map<string, string>, headers': map<string, string>)
    requires forall n :: n in rules.params ==> First(q, n) == First(q', n)
    requires forall n :: n in rules.headers ==> HeaderValue(headers)(n) == HeaderValue(headers')(n)
    ensures KeyOf(digest, rules, domain, path, q, headers) == KeyOf(digest, rules, domain, path, q', headers')
  {
    SelectedSameOn(QueryValue(q), QueryValue(q'), rules.params);
    SelectedSameOn(HeaderValue(headers), HeaderValue(headers'), rules.headers);
  }

  /** The first value is the one at the first place where the name occurs. */
  lemma {:induction false} FirstIsFirst(q: Pairs, n: string)
    ensures First(q, n).None? ==> forall i :: 0 <= i < |q| ==> q[i].0 != n
    ensures First(q, n).Some? ==> exists i :: 0 <= i < |q| && q[i] == (n, First(q, n).value) && forall j :: 0 <= j < i ==> q[j].0 != n
  {
    if q != [] && q[0].0 != n {
      FirstIsFirst(q[1..], n);
      if First(q, n).Some? {
        var i :| 0 <= i < |q[1..]| && q[1..][i] == (n, First(q, n).value) && forall j :: 0 <= j < i ==> q[1..][j].0 != n;
        assert q[i + 1] == (n, First(q, n).value);
      }
    }
  }

  lemma {:induction false} FirstOfMore(q: Pairs, more: Pairs, n: string)
    ensures First(q + more, n) == if exists i :: 0 <= i < |q| && q[i].0 == n then First(q, n) else First(more, n)
  {
    if q == [] {
      assert q + more == more;
    } else {
      assert (q + more)[1..] == q[1..] + more;
      FirstOfMore(q[1..], more, n);
      assert (exists i :: 0 <= i < |q| && q[i].0 == n) <==> q[0].0 == n || exists i :: 0 <= i < |q[1..]| && q[1..][i].0 == n by {
        assert forall i :: 0 < i < |q| ==> q[i] == q[1..][i - 1];
      }
    }
  }

  /** Values given later to a parameter that has one, and parameters that are not configured, change nothing. */
  lemma LaterValuesIgnored(digest: string -> string, rules: KeyRules, domain: string, path: string, q: Pairs, more: Pairs, headers: map<string, string>)
    requires forall k :: 0 <= k < |more| && more[k].0 in rules.params ==> exists i :: 0 <= i < |q| && q[i].0 == more[k].0
    ensures KeyOf(digest, rules, domain, path, q + more, headers) == KeyOf(digest, rules, domain, path, q, headers)
  {
    forall n | n in rules.params ensures First(q + more, n) == First(q, n) {
      FirstOfMore(q, more, n);
      FirstIsFirst(q, n);
      FirstIsFirst(more, n);
    }
    KeyIgnoresOthers(digest, rules, domain, path, q + more, q, headers, headers);
  }

  lemma {:induction false} SelectedMembers(value: string -> Option<string>, names: seq<string>)
    ensures forall p :: p in Selected(value, names) <==> exists n :: n in names && value(n).Some? && p == n + "=" + value(n).value
  {
    if names != [] {
      SelectedMembers(value, names[1..]);
      assert names == [names[0]] + names[1..];
      var rest := Selected(value, names[1..]);
      assert forall p :: p in Selected(value, names) <==>
        p in rest || (value(names[0]).Some? && p == names[0] + "=" + value(names[0]).value);
    }
  }

  ghost predicate Plain(parts: seq<string>, sep: char) {
    forall p :: p in parts ==> p != "" && sep !in p
  }

  /** Non-empty parts without a separator can be told apart once joined by it. */
  lemma {:induction false} JoinInjective(a: seq<string>, b: seq<string>, sep: char)
    requires Plain(a, sep) && Plain(b, sep) && Join(a, [sep]) == Join(b, [sep])
    ensures a == b
  {
    JoinHead(a, sep);
    JoinHead(b, sep);
    if a != [] && b != [] {
      PlainTail(a, sep);
      PlainTail(b, sep);
      JoinInjective(a[1..], b[1..], sep);
      assert a == [a[0]] + a[1..] && b == [b[0]] + b[1..];
    }
  }

  lemma PlainTail(a: seq<string>, sep: char)
    requires Plain(a, sep) && a != []
    ensures Plain(a[1..], sep)
  {
    forall p | p in a[1..] ensures p != "" && sep !in p {
      assert p in a;
    }
  }

  lemma JoinHead(a: seq<string>, sep: char)
    requires Plain(a, sep)
    ensures a == [] <==> Join(a, [sep]) == ""
    ensures a != [] ==> Until(Join(a, [sep]), sep) == a[0] && After(Join(a, [sep]), sep) == Join(a[1..], [sep])
  {
    if a != [] {
      assert a[0] in a;
      if |a| == 1 {
        NoSplit(a[0], sep);
        assert Join(a[1..], [sep]) == "";
      } else {
        SplitFirst(a[0], sep, Join(a[1..], [sep]));
      }
    }
  }

  lemma {:induction false} NoSplit(s: string, c: char)
    requires c !in s
    ensures Until(s, c) == s && After(s, c) == ""
  {
    if s != [] {
      NoSplit(s[1..], c);
      assert s == [s[0]] + s[1..];
    }
  }

  /** Names and values can be told apart in parts that are joined by the separator. */
  ghost predicate Separable(value: string -> Option<string>, names: seq<string>, sep: char) {
    forall n :: n in names ==> '=' !in n && sep !in n && (value(n).Some? ==> sep !in value(n).value)
  }

  lemma SelectedPlain(value: string -> Option<string>, names: seq<string>, sep: char)
    requires Separable(value, names, sep) && sep != '='
    ensures Plain(Sorted(Selected(value, names)), sep)
  {
    var parts := Selected(value, names);
    SelectedMembers(value, names);
    SortedMembers(parts);
    forall p | p in Sorted(parts) ensures p != "" && sep !in p {
      var n :| n in names && value(n).Some? && p == n + "=" + value(n).value;
    }
  }

  /** Equal joined parts mean equal values of all names, if names and values hold no separators. */
  lemma PartsSeparate(f: string -> Option<string>, g: string -> Option<string>, names: seq<string>, sep: char)
    requires Separable(f, names, sep) && Separable(g, names, sep) && sep != '='
    ensures Join(Sorted(Selected(f, names)), [sep]) == Join(Sorted(Selected(g, names)), [sep]) <==> forall n :: n in names ==> f(n) == g(n)
  {
    var a, b := Selected(f, names), Selected(g, names);
    if Join(Sorted(a), [sep]) == Join(Sorted(b), [sep]) {
      SelectedPlain(f, names, sep);
      SelectedPlain(g, names, sep);
      JoinInjective(Sorted(a), Sorted(b), sep);
      SortedFacts(a);
      SortedFacts(b);
      forall n | n in names ensures f(n) == g(n) {
        ValueCarries(f, g, names, n);
        ValueCarries(g, f, names, n);
      }
    } else {
      if forall n :: n in names ==> f(n) == g(n) {
        SelectedSameOn(f, g, names);
      }
    }
  }

  /** Two requests have the same query part exactly when every configured parameter has the same first value in
      both, if names and values hold no separators. */
  lemma QueryPartSeparates(q: Pairs, q': Pairs, params: seq<string>)
    requires Separable(QueryValue(q), params, '&') && Separable(QueryValue(q'), params, '&')
    ensures QueryPart(q, params) == QueryPart(q', params) <==> forall n :: n in params ==> First(q, n) == First(q', n)
  {
    PartsSeparate(QueryValue(q), QueryValue(q'), params, '&');
    assert forall n :: QueryValue(q)(n) == First(q, n) && QueryValue(q')(n) == First(q', n);
  }

  /** What Header.Get says: a missing header reads as the empty string. */
  function Got(headers: map<string, string>, n: string): string {
    if n in headers then headers[n] else ""
  }

  /** What is digested. */
  function Digested(headers: map<string, string>, names: seq<string>): string {
    Join(Sorted(Selected(HeaderValue(headers), names)), ";")
  }

  /** Two requests have the same header hash exactly when every configured header reads the same in both, if
      names and values hold no separators, and the digest tells what it is given for them apart. */
  lemma HeaderHashSeparates(digest: string -> string, headers: map<string, string>, headers': map<string, string>, names: seq<string>)
    requires forall n :: n in names ==> '=' !in n && ';' !in n && ';' !in Got(headers, n) && ';' !in Got(headers', n)
    requires forall s :: digest(s) != ""
    requires digest(Digested(headers, names)) == digest(Digested(headers', names)) ==> Digested(headers, names) == Digested(headers', names)
    ensures HeaderPart(digest, headers, names) == HeaderPart(digest, headers', names) <==>
      forall n :: n in names ==> Got(headers, n) == Got(headers', n)
    ensures HeaderPart(digest, headers, names) == "" <==> forall n :: n in names ==> Got(headers, n) == ""
  {
    var f, g := HeaderValue(headers), HeaderValue(headers');
    PartsSeparate(f, g, names, ';');
    assert forall n :: f(n) == g(n) <==> Got(headers, n) == Got(headers', n);
    SelectedPlain(f, names, ';');
    SelectedPlain(g, names, ';');
    SortedMembers(Selected(f, names));
    SortedMembers(Selected(g, names));
    JoinHead(Sorted(Selected(f, names)), ';');
    JoinHead(Sorted(Selected(g, names)), ';');
    SelectedEmpty(f, names);
  }

  lemma {:induction false} SelectedEmpty(value: string -> Option<string>, names: seq<string>)
    ensures Selected(value, names) == [] <==> forall n :: n in names ==> value(n).None?
  {
    if names != [] {
      SelectedEmpty(value, names[1..]);
      assert names == [names[0]] + names[1..];
    }
  }

  lemma PartPresent(value: string -> Option<string>, names: seq<string>, n: string)
    requires n in names && value(n).Some?
    ensures n + "=" + value(n).value in Selected(value, names)
  {
    SelectedMembers(value, names);
  }

  lemma PartMeans(value: string -> Option<string>, names: seq<string>, n: string, v: string)
    requires n + "=" + v in Selected(value, names) && '=' !in n && forall m :: m in names ==> '=' !in m
    ensures value(n) == Some(v)
  {
    SelectedMembers(value, names);
    var m :| m in names && value(m).Some? && n + "=" + v == m + "=" + value(m).value;
    PartSplits(n, v, m, value(m).value);
  }

  lemma SameBagMember(a: seq<string>, b: seq<string>, p: string)
    requires multiset(a) == multiset(b) && p in a
    ensures p in b
  {
    assert p in multiset(a);
  }

  lemma ValueCarries(f: string -> Option<string>, g: string -> Option<string>, names: seq<string>, n: string)
    requires multiset(Selected(f, names)) == multiset(Selected(g, names))
    requires n in names && forall m :: m in names ==> '=' !in m
    ensures f(n).Some? ==> g(n) == f(n)
  {
    if f(n).Some? {
      PartPresent(f, names, n);
      SameBagMember(Selected(f, names), Selected(g, names), n + "=" + f(n).value);
      PartMeans(g, names, n, f(n).value);
    }
  }

  lemma PartSplits(n: string, v: string, m: string, w: string)
    requires '=' !in n && '=' !in m && n + "=" + v == m + "=" + w
    ensures n == m && v == w
  {
    SplitFirst(n, '=', v);
    SplitFirst(m, '=', w);
    assert n + ['='] + v == n + "=" + v && m + ['='] + w == m + "=" + w;
  }

  // ---- when the query part separates all requests ----

  ghost predicate NoRepeats(params: seq<string>) {
    forall i, j :: 0 <= i < j < |params| ==> params[i] != params[j]
  }

  /** Whatever values the requests carry, equal query parts mean equal first values of all configured names. */
  ghost predicate AlwaysSeparates(params: seq<string>) {
    forall q, q' :: QueryPart(q, params) == QueryPart(q', params) ==> SameFirsts(q, q', params)
  }

  ghost predicate SameFirsts(q: Pairs, q': Pairs, params: seq<string>) {
    forall n :: n in params ==> First(q, n) == First(q', n)
  }

  lemma {:induction false} SelectedNone(value: string -> Option<string>, names: seq<string>)
    requires forall n :: n in names ==> value(n).None?
    ensures Selected(value, names) == []
  {
    if names != [] {
      assert names[0] in names;
      assert forall n :: n in names[1..] ==> n in names;
      SelectedNone(value, names[1..]);
    }
  }

  function Alone(n: string, v: string): Pairs {
    [(n, v)]
  }

  lemma AloneFirst(n: string, v: string, m: string)
    ensures First(Alone(n, v), m) == if m == n then Some(v) else None
    ensures forall q: Pairs :: First([(n, v)] + q, m) == if m == n then Some(v) else First(q, m)
  {
    assert Alone(n, v)[1..] == [];
    assert forall q: Pairs :: ([(n, v)] + q)[1..] == q;
  }

  lemma PairFirst(n: string, v: string, m: string, w: string, k: string)
    requires n != m
    ensures First([(n, v), (m, w)], k) == if k == n then Some(v) else if k == m then Some(w) else None
  {
    assert [(n, v)] + Alone(m, w) == [(n, v), (m, w)];
    AloneFirst(n, v, k);
    AloneFirst(m, w, k);
  }

  lemma SortedOne(a: string)
    ensures Sorted([a]) == [a]
  {
    assert [a][1..] == [];
  }

  ghost predicate OneName(params: seq<string>) {
    forall n, m :: n in params && m in params ==> n == m
  }

  ghost predicate SomeOnce(params: seq<string>) {
    exists n :: multiset(params)[n] == 1
  }

  function Copies(x: string, k: nat): seq<string> {
    if k == 0 then [] else [x] + Copies(x, k - 1)
  }

  lemma {:induction false} CopiesFacts(x: string, k: nat)
    ensures |Copies(x, k)| == k && forall y :: y in Copies(x, k) <==> k > 0 && y == x
    ensures forall value: string -> Option<string> :: value(x).Some? ==> Selected(value, Copies(x, k)) == Copies(x + "=" + value(x).value, k)
  {
    if k > 0 {
      CopiesFacts(x, k - 1);
      assert Copies(x, k)[1..] == Copies(x, k - 1);
    }
  }

  lemma CountsOf(params: seq<string>, n: string)
    requires params != []
    ensures multiset(params)[n] == multiset(params[1..])[n] + if params[0] == n then 1 else 0
  {
    assert params == [params[0]] + params[1..];
  }

  /** The parts of a request that gives a value to one name at least and to two at most. */
  lemma {:induction false} CountParts(value: string -> Option<string>, params: seq<string>, n: string, m: string)
    requires n != m && value(n).Some? && forall k :: k != n && k != m ==> value(k).None?
    ensures multiset(Selected(value, params)) ==
      multiset(Copies(n + "=" + value(n).value, multiset(params)[n]))
      + multiset(if value(m).Some? then Copies(m + "=" + value(m).value, multiset(params)[m]) else [])
  {
    if params != [] {
      CountParts(value, params[1..], n, m);
      CountsOf(params, n);
      CountsOf(params, m);
    }
  }

  /** The same when the first name is configured once. */
  lemma PartsOfTwo(value: string -> Option<string>, params: seq<string>, n: string, m: string)
    requires multiset(params)[n] == 1 && n != m && value(n).Some?
    requires forall k :: k != n && k != m ==> value(k).None?
    ensures multiset(Selected(value, params)) ==
      multiset([n + "=" + value(n).value] + (if value(m).Some? then Copies(m + "=" + value(m).value, multiset(params)[m]) else []))
  {
    CountParts(value, params, n, m);
    assert Copies(n + "=" + value(n).value, 1) == [n + "=" + value(n).value];
  }

  function Tail(part: string, k: nat): string {
    if k == 0 then "" else "&" + part + Tail(part, k - 1)
  }

  function Lead(part: string, k: nat): string {
    if k == 0 then "" else part + "&" + Lead(part, k - 1)
  }

  lemma {:induction false} JoinTail(a: string, b: string, k: nat)
    ensures Join([a] + Copies(b, k), "&") == a + Tail(b, k)
    decreases k
  {
    var parts := [a] + Copies(b, k);
    assert parts[1..] == Copies(b, k);
    if k > 0 {
      JoinTail(b, b, k - 1);
    }
  }

  lemma {:induction false} JoinLead(a: string, b: string, k: nat)
    ensures Join(Copies(b, k) + [a], "&") == Lead(b, k) + a
  {
    if k == 0 {
      assert Copies(b, k) + [a] == [a];
    } else {
      JoinLead(a, b, k - 1);
      assert (Copies(b, k) + [a])[1..] == Copies(b, k - 1) + [a];
    }
  }

  lemma {:induction false} CopiesOrdered(b: string, k: nat)
    ensures Ordered(Copies(b, k))
  {
    CopiesFacts(b, k);
    LeTotal(b, b);
    if k > 0 {
      CopiesOrdered(b, k - 1);
      CopiesFacts(b, k - 1);
      assert Copies(b, k)[1..] == Copies(b, k - 1);
    }
  }

  lemma FirstOrdered(a: string, b: string, k: nat)
    requires Le(a, b)
    ensures Ordered([a] + Copies(b, k))
  {
    CopiesFacts(b, k);
    CopiesOrdered(b, k);
    assert ([a] + Copies(b, k))[1..] == Copies(b, k);
  }

  lemma {:induction false} LastOrdered(a: string, b: string, k: nat)
    requires Le(b, a)
    ensures Ordered(Copies(b, k) + [a])
  {
    if k == 0 {
      assert Copies(b, 0) + [a] == [a] && [a][1..] == [];
    } else {
      LastOrdered(a, b, k - 1);
      CopiesFacts(b, k - 1);
      LeTotal(b, b);
      assert (Copies(b, k) + [a])[1..] == Copies(b, k - 1) + [a];
    }
  }

  lemma SortedBag(parts: seq<string>, listing: seq<string>)
    requires Ordered(listing) && multiset(parts) == multiset(listing)
    ensures Sorted(parts) == listing
  {
    SortedFacts(parts);
    OrderedUnique(Sorted(parts), listing);
  }

  lemma PartOfOne(params: seq<string>, n: string, v: string, m: string)
    requires multiset(params)[n] == 1 && n != m
    ensures QueryPart(Alone(n, v), params) == n + "=" + v
  {
    forall k ensures First(Alone(n, v), k) == if k == n then Some(v) else None {
      AloneFirst(n, v, k);
    }
    PartsOfTwo(QueryValue(Alone(n, v)), params, n, m);
    assert [n + "=" + v] + [] == [n + "=" + v];
    SortIgnoresOrder(Selected(QueryValue(Alone(n, v)), params), [n + "=" + v]);
    SortedOne(n + "=" + v);
  }

  lemma PairValues(n: string, v: string, m: string, w: string)
    requires n != m
    ensures forall k :: QueryValue([(n, v), (m, w)])(k) == if k == n then Some(v) else if k == m then Some(w) else None
  {
    forall k ensures First([(n, v), (m, w)], k) == if k == n then Some(v) else if k == m then Some(w) else None {
      PairFirst(n, v, m, w, k);
    }
  }

  lemma PairParts(params: seq<string>, n: string, v: string, m: string, w: string)
    requires multiset(params)[n] == 1 && n != m
    ensures var parts := Selected(QueryValue([(n, v), (m, w)]), params);
      && multiset(parts) == multiset([n + "=" + v] + Copies(m + "=" + w, multiset(params)[m]))
      && multiset(parts) == multiset(Copies(m + "=" + w, multiset(params)[m]) + [n + "=" + v])
  {
    PairValues(n, v, m, w);
    PartsOfTwo(QueryValue([(n, v), (m, w)]), params, n, m);
  }

  lemma OrderedParts(parts: seq<string>, x: string, y: string, b: nat)
    requires multiset(parts) == multiset([x] + Copies(y, b)) && multiset(parts) == multiset(Copies(y, b) + [x])
    ensures Le(x, y) ==> Join(Sorted(parts), "&") == x + Tail(y, b)
    ensures Le(y, x) ==> Join(Sorted(parts), "&") == Lead(y, b) + x
  {
    if Le(x, y) {
      FirstOrdered(x, y, b);
      SortedBag(parts, [x] + Copies(y, b));
      JoinTail(x, y, b);
    }
    if Le(y, x) {
      LastOrdered(x, y, b);
      SortedBag(parts, Copies(y, b) + [x]);
      JoinLead(x, y, b);
    }
  }

  lemma PartOfTwo(params: seq<string>, n: string, v: string, m: string, w: string)
    requires multiset(params)[n] == 1 && n != m
    ensures var part, x, y := QueryPart([(n, v), (m, w)], params), n + "=" + v, m + "=" + w;
      && (Le(x, y) ==> part == x + Tail(y, multiset(params)[m]))
      && (Le(y, x) ==> part == Lead(y, multiset(params)[m]) + x)
  {
    PairParts(params, n, v, m, w);
    OrderedParts(Selected(QueryValue([(n, v), (m, w)]), params), n + "=" + v, m + "=" + w, multiset(params)[m]);
  }

  /** Two requests that differ in a configured name and share their query part. */
  ghost predicate Collide(params: seq<string>, q: Pairs, q': Pairs, m: string) {
    m in params && QueryPart(q, params) == QueryPart(q', params) && First(q, m) != First(q', m)
  }

  lemma Longer(n: string, v: string, tail: string)
    ensures n + "=" + (v + tail) == (n + "=" + v) + tail
  {
  }

  /** With two names configured, of which the first is configured once and comes first, an '&' in its value (it can be
      escaped in a URL) makes one value look like two: it swallows all copies of the other. */
  lemma ValuesWithAmpersandCollide(params: seq<string>, n: string, v: string, m: string, w: string)
    requires multiset(params)[n] == 1 && n != m && m in params && Le(n + "=" + v, m + "=" + w)
    ensures Collide(params, Alone(n, v + Tail(m + "=" + w, multiset(params)[m])), [(n, v), (m, w)], m)
  {
    var tail := Tail(m + "=" + w, multiset(params)[m]);
    PartOfOne(params, n, v + tail, m);
    PartOfTwo(params, n, v, m, w);
    Longer(n, v, tail);
    AloneFirst(n, v + tail, m);
    PairFirst(n, v, m, w, m);
  }

  lemma {:induction false} LePrefix(a: string, s: string)
    ensures Le(a, a + s)
  {
    if a != [] {
      LePrefix(a[1..], s);
      assert (a + s)[1..] == a[1..] + s;
    }
  }

  lemma {:induction false} LeApart(a: string, b: string, s: string)
    requires Le(a, b) && !(a <= b)
    ensures Le(a + s, b)
  {
    if a[0] == b[0] {
      LeApart(a[1..], b[1..], s);
      assert (a + s)[1..] == a[1..] + s;
    }
  }

  /** The parts that swallow the beginning of the last one. */
  lemma LongerLead(first: string, last: string, b: nat) returns (w: string, x: string)
    requires b > 0
    ensures Lead(first + w, b) + last == Lead(first, b) + (last + x) && w != ""
  {
    w := "&" + Lead(first, b - 1) + last;
    var longer := first + w;
    x := "&" + Lead(longer, b - 1) + last;
    assert longer == Lead(first, b) + last;
    assert Lead(longer, b) == longer + "&" + Lead(longer, b - 1);
    assert Lead(longer, b) + last == longer + x;
    assert longer + x == Lead(first, b) + (last + x);
  }

  /** It comes last: each copy of the other can swallow all copies and the beginning of the last part. */
  lemma SwallowBefore(params: seq<string>, n: string, m: string) returns (x: string, w: string)
    requires multiset(params)[n] == 1 && n != m && m in params && Le(m + "=", n + "=") && !(m + "=" <= n + "=")
    ensures Collide(params, [(n, x), (m, "")], [(n, ""), (m, w)], m)
  {
    var b, first, last := multiset(params)[m], m + "=", n + "=";
    w, x := LongerLead(first, last, b);
    LePrefix(last, x);
    LeTransitive(first, last, last + x);
    LeApart(first, last, w);
    assert m + "=" + "" == first && n + "=" + x == last + x && m + "=" + w == first + w && n + "=" + "" == last;
    PartOfTwo(params, n, x, m, "");
    PartOfTwo(params, n, "", m, w);
    PairFirst(n, x, m, "", m);
    PairFirst(n, "", m, w, m);
  }

  lemma OnceCollides(params: seq<string>, n: string, m: string) returns (q: Pairs, q': Pairs)
    requires multiset(params)[n] == 1 && n != m && m in params
    ensures Collide(params, q, q', m)
  {
    LeTotal(n + "=", m + "=");
    if Le(n + "=", m + "=") {
      assert n + "=" + "" == n + "=" && m + "=" + "" == m + "=";
      ValuesWithAmpersandCollide(params, n, "", m, "");
      q, q' := Alone(n, "" + Tail(m + "=" + "", multiset(params)[m])), [(n, ""), (m, "")];
    } else if m + "=" <= n + "=" {
      var w := (n + "=")[|m + "="|..];
      assert m + "=" + w == n + "=" && n + "=" + "" == n + "=";
      LeTotal(n + "=", n + "=");
      ValuesWithAmpersandCollide(params, n, "", m, w);
      q, q' := Alone(n, "" + Tail(m + "=" + w, multiset(params)[m])), [(n, ""), (m, w)];
    } else {
      var x, w := SwallowBefore(params, n, m);
      q, q' := [(n, x), (m, "")], [(n, ""), (m, w)];
    }
  }

  /** With one name, however often it is configured, equal parts mean equal values. */
  lemma OnlyNameSeparates(params: seq<string>)
    requires OneName(params)
    ensures AlwaysSeparates(params)
  {
    if params != [] {
      var n := params[0];
      assert forall k :: k in params ==> k == n by {
        assert n in params;
      }
      AllCopies(params, n);
      forall q, q' | QueryPart(q, params) == QueryPart(q', params) ensures SameFirsts(q, q', params) {
        OnlyNamePart(q, n, |params|);
        OnlyNamePart(q', n, |params|);
        if First(q, n).Some? && First(q', n).Some? {
          SameRepeated(n + "=" + First(q, n).value, n + "=" + First(q', n).value, |params| - 1);
          var v, w := First(q, n).value, First(q', n).value;
          assert (n + "=" + v)[|n| + 1..] == v && (n + "=" + w)[|n| + 1..] == w;
        }
        assert forall k :: k in params ==> k == n;
      }
    }
  }

  lemma {:induction false} AllCopies(params: seq<string>, n: string)
    requires forall k :: k in params ==> k == n
    ensures params == Copies(n, |params|)
  {
    if params != [] {
      assert params[0] in params && forall k :: k in params[1..] ==> k in params;
      AllCopies(params[1..], n);
      assert params == [params[0]] + params[1..];
    }
  }

  lemma OnlyNamePart(q: Pairs, n: string, k: nat)
    requires k > 0
    ensures QueryPart(q, Copies(n, k)) ==
      if First(q, n).Some? then n + "=" + First(q, n).value + Tail(n + "=" + First(q, n).value, k - 1) else ""
  {
    CopiesFacts(n, k);
    if First(q, n).Some? {
      var part := n + "=" + First(q, n).value;
      assert QueryValue(q)(n).Some?;
      CopiesOrdered(part, k);
      SortedBag(Selected(QueryValue(q), Copies(n, k)), Copies(part, k));
      JoinTail(part, part, k - 1);
    } else {
      SelectedNone(QueryValue(q), Copies(n, k));
    }
  }

  lemma {:induction false} TailLength(a: string, k: nat)
    ensures |Tail(a, k)| == k * (|a| + 1)
  {
    if k > 0 {
      TailLength(a, k - 1);
      assert k * (|a| + 1) == (k - 1) * (|a| + 1) + (|a| + 1);
    }
  }

  lemma SameRepeated(a: string, b: string, k: nat)
    requires a + Tail(a, k) == b + Tail(b, k)
    ensures a == b
  {
    TailLength(a, k);
    TailLength(b, k);
    SameLength(|a|, |b|, k);
    assert (a + Tail(a, k))[..|a|] == a && (b + Tail(b, k))[..|b|] == b;
  }

  lemma SameLength(x: nat, y: nat, k: nat)
    requires x + k * (x + 1) == y + k * (y + 1)
    ensures x == y
  {
    Monotone(k, x + 1, y + 1);
    Monotone(k, y + 1, x + 1);
  }

  lemma Monotone(k: nat, a: nat, b: nat)
    ensures a <= b ==> k * a <= k * b
  {
  }

  /** When some name is configured just once, or there is but one, the query part tells all requests apart exactly
      when there is but one. */
  lemma SeparatesExactly(params: seq<string>)
    requires SomeOnce(params) || OneName(params)
    ensures AlwaysSeparates(params) <==> OneName(params)
  {
    if OneName(params) {
      OnlyNameSeparates(params);
    } else {
      var n :| multiset(params)[n] == 1;
      assert n in multiset(params);
      var m := OtherName(params, n);
      var q, q' := OnceCollides(params, n, m);
      assert !SameFirsts(q, q', params);
    }
  }

  lemma OtherName(params: seq<string>, n: string) returns (m: string)
    requires n in params && !OneName(params)
    ensures m in params && m != n
  {
    if m' :| m' in params && m' != n {
      m := m';
    } else {
      assert false;
    }
  }

  /** So, if no name is configured twice, exactly when at most one is. */
  lemma SeparatesAllExactly(params: seq<string>)
    requires NoRepeats(params)
    ensures AlwaysSeparates(params) <==> |params| <= 1
  {
    if params != [] {
      var rest := params[1..];
      assert params == [params[0]] + rest && params[0] !in rest;
      assert multiset(params)[params[0]] == 1 + multiset(rest)[params[0]] == 1;
      assert SomeOnce(params);
      if |params| > 1 {
        assert params[0] in params && params[1] in params && params[0] != params[1];
      }
    }
    SeparatesExactly(params);
  }

  lemma OneNamePart(q: Pairs, n: string)
    ensures QueryPart(q, [n]) == if First(q, n).Some? then n + "=" + First(q, n).value else ""
  {
    assert Copies(n, 1) == [n];
    OnlyNamePart(q, n, 1);
    if First(q, n).Some? {
      var part := n + "=" + First(q, n).value;
      assert part + Tail(part, 0) == part;
    }
  }

  // ---- reading a key back ----

  function Until(s: string, c: char): string {
    if s == [] || s[0] == c then [] else [s[0]] + Until(s[1..], c)
  }

  function After(s: string, c: char): string {
    if s == [] then [] else if s[0] == c then s[1..] else After(s[1..], c)
  }

  function BeforeLast(s: string, c: char): string {
    if s == [] then [] else if s[|s| - 1] == c then s[..|s| - 1] else BeforeLast(s[..|s| - 1], c)
  }

  function AfterLast(s: string, c: char): string {
    if s == [] || s[|s| - 1] == c then [] else AfterLast(s[..|s| - 1], c) + [s[|s| - 1]]
  }

  lemma {:induction false} SplitFirst(a: string, c: char, b: string)
    requires c !in a
    ensures Until(a + [c] + b, c) == a && After(a + [c] + b, c) == b
  {
    if a == [] {
      assert a + [c] + b == [c] + b;
    } else {
      SplitFirst(a[1..], c, b);
      assert (a + [c] + b)[1..] == a[1..] + [c] + b;
    }
  }

  lemma {:induction false} SplitLast(a: string, c: char, b: string)
    requires c !in b
    ensures BeforeLast(a + [c] + b, c) == a && AfterLast(a + [c] + b, c) == b
  {
    var s := a + [c] + b;
    if b == [] {
      assert s[..|s| - 1] == a;
    } else {
      var init := b[..|b| - 1];
      assert s[..|s| - 1] == a + [c] + init;
      SplitLast(a, c, init);
    }
  }

  function DomainOf(key: string): string {
    Until(key, ':')
  }

  function PathOf(key: string): string {
    Until(After(key, ':'), '?')
  }

  function QueryOf(key: string): string {
    BeforeLast(After(After(key, ':'), '?'), '#')
  }

  function HashOf(key: string): string {
    AfterLast(key, '#')
  }

  /** The parts of a key can be read back: the domain when it has no ':', then the path when it has no '?',
      then the query part, and the header hash, which has no '#'. */
  lemma KeyReadsBack(domain: string, path: string, query: string, hash: string)
    requires ':' !in domain && '?' !in path && '#' !in hash
    ensures var key := Format(domain, path, query, hash);
      DomainOf(key) == domain && PathOf(key) == path && QueryOf(key) == query && HashOf(key) == hash
  {
    var key := Format(domain, path, query, hash);
    DomainReadsBack(domain, path, query, hash);
    SplitFirst(path, '?', query + "#" + hash);
    assert path + ['?'] + (query + "#" + hash) == path + "?" + query + "#" + hash;
    SplitLast(query, '#', hash);
    SplitLast(domain + ":" + path + "?" + query, '#', hash);
    assert domain + ":" + path + "?" + query + ['#'] + hash == key;
  }

  /** The same for whole keys: the digest is hexadecimal, so it has no '#'. */
  lemma BuiltKeyReadsBack(digest: string -> string, rules: KeyRules, domain: string, path: string, q: Pairs, headers: map<string, string>)
    requires ':' !in domain && '?' !in path && forall s :: '#' !in digest(s)
    ensures var key := KeyOf(digest, rules, domain, path, q, headers);
      && DomainOf(key) == domain && PathOf(key) == path
      && QueryOf(key) == QueryPart(q, rules.params) && HashOf(key) == HeaderPart(digest, headers, rules.headers)
  {
    KeyReadsBack(domain, path, QueryPart(q, rules.params), HeaderPart(digest, headers, rules.headers));
  }

  /** A parameter that only the domain's own rules list tells two requests apart, whatever the global rules are. */
  lemma OwnParametersCount(digest: string -> string, global: KeyRules, own: KeyRules, domain: string, path: string,
    q: Pairs, q': Pairs, headers: map<string, string>, headers': map<string, string>, n: string)
    requires ':' !in domain && '?' !in path && forall s :: '#' !in digest(s)
    requires Separable(QueryValue(q), own.params, '&') && Separable(QueryValue(q'), own.params, '&')
    requires n in own.params && First(q, n) != First(q', n)
    ensures KeyOf(digest, Effective(global, Some(own)), domain, path, q, headers) !=
            KeyOf(digest, Effective(global, Some(own)), domain, path, q', headers')
  {
    BuiltKeyReadsBack(digest, own, domain, path, q, headers);
    BuiltKeyReadsBack(digest, own, domain, path, q', headers');
    QueryPartSeparates(q, q', own.params);
  }

  lemma SortedPair(a: string, b: string)
    requires Le(a, b)
    ensures Sorted([b, a]) == [a, b]
  {
    assert [b, a][1..] == [a] && [a][1..] == [] && [a, b][1..] == [b] && [b][1..] == [];
    SortedBag([b, a], [a, b]);
  }

  lemma JoinPair(a: string, b: string, sep: string)
    ensures Join([a, b], sep) == a + sep + b
  {
    assert [a, b][1..] == [b];
  }

  /** One key in full: parameters y and x, headers K and H, in this order of configuration. */
  lemma KeyInFull(digest: string -> string, global: KeyRules)
    ensures KeyOf(digest, Effective(global, Some(KeyRules(["y", "x"], ["K", "H"]))), "d", "/a", [("x", "1"), ("y", "2")], map["H" := "3", "K" := "4"])
      == "d:/a?x=1&y=2#" + digest("H=3;K=4")
  {
    var q, headers := [("x", "1"), ("y", "2")], map["H" := "3", "K" := "4"];
    PairFirst("x", "1", "y", "2", "x");
    PairFirst("x", "1", "y", "2", "y");
    PairSelected(QueryValue(q), "y", "2", "x", "1");
    PairSelected(HeaderValue(headers), "K", "4", "H", "3");
    assert "y" + "=" + "2" == "y=2" && "x" + "=" + "1" == "x=1" && "K" + "=" + "4" == "K=4" && "H" + "=" + "3" == "H=3";
    SortedPair("x=1", "y=2");
    SortedPair("H=3", "K=4");
    JoinPair("x=1", "y=2", "&");
    JoinPair("H=3", "K=4", ";");
    assert "x=1" + "&" + "y=2" == "x=1&y=2" && "H=3" + ";" + "K=4" == "H=3;K=4";
    assert "d" + ":" + "/a" + "?" + "x=1&y=2" + "#" == "d:/a?x=1&y=2#";
  }

  lemma PairSelected(value: string -> Option<string>, n: string, v: string, m: string, w: string)
    requires value(n) == Some(v) && value(m) == Some(w)
    ensures Selected(value, [n, m]) == [n + "=" + v, m + "=" + w]
  {
    assert [n, m][1..] == [m] && [m][1..] == [] && Selected(value, []) == [];
    assert Selected(value, [m]) == [m + "=" + w];
  }

  /** Domains without ':' never share a key, whatever else is in it. */
  lemma DomainReadsBack(domain: string, path: string, query: string, hash: string)
    requires ':' !in domain
    ensures var key := Format(domain, path, query, hash);
      DomainOf(key) == domain && After(key, ':') == path + "?" + query + "#" + hash
  {
    SplitFirst(domain, ':', path + "?" + query + "#" + hash);
    assert domain + [':'] + (path + "?" + query + "#" + hash) == Format(domain, path, query, hash);
  }

  lemma {:induction false} UntilFacts(s: string, c: char)
    ensures c !in Until(s, c)
    ensures c in s ==> s == Until(s, c) + [c] + After(s, c)
  {
    if s != [] {
      assert s == [s[0]] + s[1..];
      if s[0] != c {
        UntilFacts(s[1..], c);
      }
    }
  }

  lemma {:induction false} AfterLastFree(s: string, c: char)
    ensures c !in AfterLast(s, c)
  {
    if s != [] {
      AfterLastFree(s[..|s| - 1], c);
    }
  }

  lemma PathReadsBack(domain: string, path: string, query: string, hash: string)
    requires ':' !in domain
    ensures PathOf(Format(domain, path, query, hash)) == path <==> '?' !in path
  {
    DomainReadsBack(domain, path, query, hash);
    var rest := path + "?" + query + "#" + hash;
    UntilFacts(rest, '?');
    if '?' !in path {
      SplitFirst(path, '?', query + "#" + hash);
      assert path + ['?'] + (query + "#" + hash) == rest;
    }
  }

  lemma HashReadsBack(domain: string, path: string, query: string, hash: string)
    ensures HashOf(Format(domain, path, query, hash)) == hash <==> '#' !in hash
  {
    var key := Format(domain, path, query, hash);
    AfterLastFree(key, '#');
    if '#' !in hash {
      SplitLast(domain + ":" + path + "?" + query, '#', hash);
      assert domain + ":" + path + "?" + query + ['#'] + hash == key;
    }
  }

  /** Domain, path and hash of a key read back exactly when they are free of the character that sets them off. */
  lemma ReadsBackExactly(domain: string, path: string, query: string, hash: string)
    ensures var key := Format(domain, path, query, hash);
      && (DomainOf(key) == domain <==> ':' !in domain)
      && (':' !in domain ==> (PathOf(key) == path <==> '?' !in path))
      && (HashOf(key) == hash <==> '#' !in hash)
  {
    UntilFacts(Format(domain, path, query, hash), ':');
    HashReadsBack(domain, path, query, hash);
    if ':' !in domain {
      DomainReadsBack(domain, path, query, hash);
      PathReadsBack(domain, path, query, hash);
    }
  }

  /** Every path with a '?' (it can be escaped in a URL) shares its keys with another path: the part after the
      '?' may as well belong to the query. */
  lemma QuestionMarkShifts(domain: string, path: string, query: string, hash: string)
    requires '?' in path
    ensures Format(domain, path, query, hash) == Format(domain, Until(path, '?'), After(path, '?') + "?" + query, hash)
  {
    UntilFacts(path, '?');
    var a, b := Until(path, '?'), After(path, '?');
    assert path == a + "?" + b;
    assert domain + ":" + (a + "?" + b) + "?" + query + "#" + hash == domain + ":" + a + "?" + (b + "?" + query) + "#" + hash;
  }

  /** Requests of one domain that differ in their paths get different keys. */
  ghost predicate PathsSeparate(digest: string -> string, rules: KeyRules, domain: string) {
    forall path, path', q, q', headers, headers' ::
      KeyOf(digest, rules, domain, path, q, headers) == KeyOf(digest, rules, domain, path', q', headers') ==> path == path'
  }

  lemma {:induction false} JoinEnds(parts: seq<string>, c: char)
    requires parts != [] && forall p :: p in parts ==> p != [] && p[|p| - 1] == c
    ensures Join(parts, "&") != [] && Join(parts, "&")[|Join(parts, "&")| - 1] == c
  {
    assert parts[0] in parts;
    if |parts| > 1 {
      assert forall p :: p in parts[1..] ==> p in parts;
      JoinEnds(parts[1..], c);
    }
  }

  lemma SortedMembers(parts: seq<string>)
    ensures |Sorted(parts)| == |parts| && forall p :: p in Sorted(parts) <==> p in parts
  {
    SortedFacts(parts);
    assert |Sorted(parts)| == |multiset(Sorted(parts))| == |multiset(parts)|;
    forall p ensures p in Sorted(parts) <==> p in parts {
      assert p in multiset(Sorted(parts)) <==> p in multiset(parts);
    }
  }

  lemma {:induction false} SelectedAlone(n: string, v: string, params: seq<string>)
    ensures forall p :: p in Selected(QueryValue(Alone(n, v)), params) <==> n in params && p == n + "=" + v
  {
    if params != [] {
      assert params == [params[0]] + params[1..];
      AloneFirst(n, v, params[0]);
      SelectedAlone(n, v, params[1..]);
    }
  }

  lemma AloneParts(params: seq<string>, n: string, v: string)
    requires n in params
    ensures var parts := Sorted(Selected(QueryValue(Alone(n, v)), params));
      parts != [] && forall p :: p in parts ==> p == n + "=" + v
  {
    SelectedAlone(n, v, params);
    SortedMembers(Selected(QueryValue(Alone(n, v)), params));
    assert n + "=" + v in Selected(QueryValue(Alone(n, v)), params);
  }

  /** A configured parameter whose value ends with '?' makes the whole query part end with it. */
  lemma PartEnds(params: seq<string>, n: string, v: string)
    requires n in params
    ensures var part := QueryPart(Alone(n, v + "?"), params);
      part != [] && part[|part| - 1] == '?'
  {
    AloneParts(params, n, v + "?");
    var p := n + "=" + (v + "?");
    assert p[|p| - 1] == '?';
    JoinEnds(Sorted(Selected(QueryValue(Alone(n, v + "?")), params)), '?');
  }

  /** Two requests with different paths and one key: the query part without its final '?' moves into the path. */
  lemma PathsWithQuestionMarkCollide(digest: string -> string, rules: KeyRules, domain: string, path: string,
    headers: map<string, string>, n: string, v: string)
    requires n in rules.params
    ensures var part := QueryPart(Alone(n, v + "?"), rules.params);
      && part != [] && KeyOf(digest, rules, domain, path + "?" + part[..|part| - 1], [], headers)
                       == KeyOf(digest, rules, domain, path, Alone(n, v + "?"), headers)
  {
    PartEnds(rules.params, n, v);
    var part := QueryPart(Alone(n, v + "?"), rules.params);
    SelectedNone(QueryValue([]), rules.params);
    var init := part[..|part| - 1];
    assert part == init + "?";
    var hash := HeaderPart(digest, headers, rules.headers);
    assert domain + ":" + (path + "?" + init) + "?" + "" + "#" + hash == domain + ":" + path + "?" + (init + "?") + "#" + hash;
  }

  /** The case of one parameter: "/a?v=1" without a query and "/a" with v=1? share a key. */
  lemma OneParameterCollides(digest: string -> string, domain: string, headers: map<string, string>)
    ensures var rules := KeyRules(["v"], []);
      KeyOf(digest, rules, domain, "/a?v=1", [], headers) == KeyOf(digest, rules, domain, "/a", [("v", "1?")], headers)
  {
    var rules := KeyRules(["v"], []);
    OneNamePart([("v", "1?")], "v");
    PathsWithQuestionMarkCollide(digest, rules, domain, "/a", headers, "v", "1");
    assert "1" + "?" == "1?" && "v" + "=" + "1?" == "v=1?" && "v=1?"[..3] == "v=1";
    assert "/a" + "?" + "v=1" == "/a?v=1";
  }

  /** With a hexadecimal digest and a domain without ':', keys tell all paths apart exactly when no query
      parameter is configured. */
  lemma PathsSeparateExactly(digest: string -> string, rules: KeyRules, domain: string)
    requires ':' !in domain && forall s :: '#' !in digest(s)
    ensures PathsSeparate(digest, rules, domain) <==> rules.params == []
  {
    if rules.params == [] {
      forall path, path', q, q', headers, headers' |
        KeyOf(digest, rules, domain, path, q, headers) == KeyOf(digest, rules, domain, path', q', headers')
        ensures path == path'
      {
        PathWithoutQuery(domain, path, HeaderPart(digest, headers, rules.headers));
        PathWithoutQuery(domain, path', HeaderPart(digest, headers', rules.headers));
        assert path + "?" == path' + "?";
        assert (path + "?")[..|path|] == path && (path' + "?")[..|path'|] == path';
      }
    } else {
      var n := rules.params[0];
      PathsWithQuestionMarkCollide(digest, rules, domain, "", map[], n, "");
      var part := QueryPart(Alone(n, "" + "?"), rules.params);
      assert "" + "?" + part[..|part| - 1] != "";
    }
  }

  lemma PathWithoutQuery(domain: string, path: string, hash: string)
    requires ':' !in domain && '#' !in hash
    ensures BeforeLast(After(Format(domain, path, "", hash), ':'), '#') == path + "?"
  {
    DomainReadsBack(domain, path, "", hash);
    SplitLast(path + "?", '#', hash);
    assert path + "?" + "" + "#" + hash == path + "?" + ['#'] + hash;
  }

  const PERSIST_KEY := "__flush_rules__"

  /** No key made by Build is the key of the flush-rule blob. */
  lemma KeyIsNotPersistKey(domain: string, path: string, query: string, hash: string)
    ensures Format(domain, path, query, hash) != PERSIST_KEY
  {
    assert Format(domain, path, query, hash)[|domain|] == ':';
    assert forall i :: 0 <= i < |PERSIST_KEY| ==> PERSIST_KEY[i] != ':';
  }
}
