// The key under which tenants share a catalog (viewKey in internal/proxy/catalog.go).
module ViewKeys {
  import opened Strings
  import opened TenantRegistry
  import opened Headers

  const NUL := '\0'

  lemma {:induction false} SortedListing(keys: set<string>) returns (r: seq<string>)
    ensures StrictlySortedBy(r, Identity)
    ensures forall k :: k in r <==> k in keys
  {
    var xs := AnyListing(keys);
    SortStrict(xs, Identity);
    r := SortBy(xs, Identity);
    SameElements(r, xs);
  }

  lemma {:induction false} AnyListing(keys: set<string>) returns (xs: seq<string>)
    ensures DistinctBy(xs, Identity)
    ensures forall k :: k in xs <==> k in keys
  {
    if keys == {} {
      xs := [];
    } else {
      var k :| k in keys;
      var rest := AnyListing(keys - {k});
      xs := [k] + rest;
    }
  }

  // The header names in order.
  ghost function SortedKeys(keys: set<string>): (r: seq<string>)
    ensures StrictlySortedBy(r, Identity)
    ensures forall k :: k in r <==> k in keys
  {
    assert exists r :: StrictlySortedBy(r, Identity) && forall k :: k in r <==> k in keys by {
      var r := SortedListing(keys);
    }
    var r :| StrictlySortedBy(r, Identity) && forall k :: k in r <==> k in keys;
    r
  }

  // The canonical (name, value) pairs in the order of the names as they are spelled.
  function HeaderPairs(headers: HeaderMap, keys: seq<string>): seq<(string, string)>
    requires forall k :: k in keys ==> k in headers
  {
    seq(|keys|, i requires 0 <= i < |keys| => (assert keys[i] in keys; (Canon(keys[i]), headers[keys[i]])))
  }

  function PartOf(p: (string, string)): string { p.0 + "=" + p.1 }

  function PartsOf(ps: seq<(string, string)>): seq<string> {
    seq(|ps|, i requires 0 <= i < |ps| => PartOf(ps[i]))
  }

  ghost function SortedPairs(headers: HeaderMap): seq<(string, string)> {
    HeaderPairs(headers, SortedKeys(headers.Keys))
  }

  ghost function Parts(t: Tenant): seq<string> {
    [t.backend.name, t.EffectiveCredential()] + PartsOf(SortedPairs(t.headers))
  }

  ghost function KeyOf(t: Tenant): string { Join(Parts(t), NUL) }

  method SortedNames(headers: HeaderMap) returns (keys: seq<string>)
    ensures keys == SortedKeys(headers.Keys)
  {
    keys := [];
    var todo := headers.Keys;
    while todo != {}
      invariant todo <= headers.Keys
      invariant DistinctBy(keys, Identity)
      invariant forall k :: k in keys <==> k in headers && k !in todo
    {
      var k :| k in todo;
      todo := todo - {k};
      keys := keys + [k];
    }
    ghost var listed := keys;
    SortStrict(keys, Identity);
    keys := SortBy(keys, Identity);
    SameElements(keys, listed);
    StrictOrderUnique(keys, SortedKeys(headers.Keys), Identity);
  }

  lemma {:induction false} FirstTwoParts(t: Tenant)
    ensures Join(Parts(t)[..2], NUL) == t.backend.name + [NUL] + t.EffectiveCredential()
  {
    var name, cred := t.backend.name, t.EffectiveCredential();
    JoinAppend([name], cred, NUL);
    assert Parts(t)[..2] == [name] + [cred];
  }

  lemma {:induction false} NextPart(t: Tenant, keys: seq<string>, i: nat)
    requires keys == SortedKeys(t.headers.Keys) && i < |keys|
    ensures keys[i] in t.headers && i + 3 <= |Parts(t)|
    ensures Join(Parts(t)[..i + 3], NUL)
            == Join(Parts(t)[..i + 2], NUL) + [NUL] + (Canon(keys[i]) + "=" + t.headers[keys[i]])
  {
    assert keys[i] in keys;
    var part := PartOf((Canon(keys[i]), t.headers[keys[i]]));
    assert Parts(t)[i + 2] == part;
    assert Parts(t)[..i + 3] == Parts(t)[..i + 2] + [part];
    JoinAppend(Parts(t)[..i + 2], part, NUL);
  }

  method ViewKey(t: Tenant) returns (key: string)
    ensures key == KeyOf(t)
  {
    hide Parts;
    var keys := SortedNames(t.headers);
    PartCount(t, keys);
    FirstTwoParts(t);
    key := t.backend.name + [NUL] + t.EffectiveCredential();
    for i := 0 to |keys|
      invariant key == Join(Parts(t)[..i + 2], NUL)
    {
      NextPart(t, keys, i);
      key := key + [NUL] + (Canon(keys[i]) + "=" + t.headers[keys[i]]);
    }
    assert Parts(t)[..|keys| + 2] == Parts(t);
  }

  lemma {:induction false} PartCount(t: Tenant, keys: seq<string>)
    requires keys == SortedKeys(t.headers.Keys)
    ensures |Parts(t)| == |keys| + 2
  {
  }

  // ---- when the key determines the view ----

  // The headers as a backend gets them, and what else a fetch depends on.
  ghost predicate SameView(a: Tenant, b: Tenant) {
    && a.backend.name == b.backend.name
    && a.EffectiveCredential() == b.EffectiveCredential()
    && Pairs(a.headers) == Pairs(b.headers)
  }

  ghost predicate NoNul(s: string) { NUL !in s }

  // No NUL but perhaps in a header name, and no '=' in a header name.
  ghost predicate Clean(t: Tenant) {
    && NoNul(t.backend.name) && NoNul(t.EffectiveCredential())
    && forall k :: k in t.headers ==> NoNul(t.headers[k]) && '=' !in k
  }

  // No NUL anywhere, and no '=' in a header value.
  ghost predicate Plain(t: Tenant) {
    && NoNul(t.backend.name) && NoNul(t.EffectiveCredential())
    && forall k :: k in t.headers ==> NoNul(k) && NoNul(t.headers[k]) && '=' !in t.headers[k]
  }

  lemma {:induction false} CanonKeeps(k: string, c: char)
    requires c !in k && !IsLower(c) && !IsUpper(c)
    ensures c !in Canon(k)
  {
    CanonFromKeeps(k, true, c);
  }

  function FirstOf(s: string, c: char): nat {
    if s == [] || s[0] == c then 0 else 1 + FirstOf(s[1..], c)
  }

  function LastOf(s: string, c: char): int {
    if s == [] then -1 else if s[|s| - 1] == c then |s| - 1 else LastOf(s[..|s| - 1], c)
  }

  lemma {:induction false} FirstSeparator(a: string, x: string, sep: char)
    requires sep !in a
    ensures FirstOf(a + [sep] + x, sep) == |a|
  {
    if a == [] {
      assert (a + [sep] + x)[0] == sep;
    } else {
      assert a[0] in a;
      assert (a + [sep] + x)[1..] == a[1..] + [sep] + x;
      FirstSeparator(a[1..], x, sep);
    }
  }

  lemma {:induction false} LastSeparator(a: string, x: string, sep: char)
    requires sep !in x
    ensures LastOf(a + [sep] + x, sep) == |a|
  {
    if x == [] {
      assert (a + [sep] + x)[|a|] == sep;
    } else {
      var n := |x| - 1;
      assert x[n] in x;
      assert (a + [sep] + x)[..|a| + 1 + n] == a + [sep] + x[..n];
      LastSeparator(a, x[..n], sep);
    }
  }

  // A separator that occurs in neither head, or in neither tail, fixes the split.
  lemma {:induction false} SplitUnique(a: string, x: string, b: string, y: string, sep: char)
    requires a + [sep] + x == b + [sep] + y
    requires (sep !in a && sep !in b) || (sep !in x && sep !in y)
    ensures a == b && x == y
  {
    var l, r := a + [sep] + x, b + [sep] + y;
    if sep !in a && sep !in b {
      FirstSeparator(a, x, sep);
      FirstSeparator(b, y, sep);
    } else {
      LastSeparator(a, x, sep);
      LastSeparator(b, y, sep);
    }
    assert l[..|a|] == a && r[..|b|] == b;
    assert l[|a| + 1..] == x && r[|b| + 1..] == y;
  }

  lemma {:induction false} JoinHasNul(parts: seq<string>)
    requires |parts| > 1
    ensures NUL in Join(parts, NUL)
  {
    assert Join(parts, NUL)[|parts[0]|] == NUL;
  }

  lemma {:induction false} JoinInjective(ps: seq<string>, qs: seq<string>)
    requires ps != [] && qs != [] && Join(ps, NUL) == Join(qs, NUL)
    requires forall p :: p in ps ==> NoNul(p)
    requires forall q :: q in qs ==> NoNul(q)
    ensures ps == qs
  {
    assert ps[0] in ps && qs[0] in qs;
    if |ps| == 1 || |qs| == 1 {
      if |ps| > 1 { JoinHasNul(ps); }
      if |qs| > 1 { JoinHasNul(qs); }
    } else {
      SplitUnique(ps[0], Join(ps[1..], NUL), qs[0], Join(qs[1..], NUL), NUL);
      JoinInjective(ps[1..], qs[1..]);
      assert ps == [ps[0]] + ps[1..] && qs == [qs[0]] + qs[1..];
    }
  }

  lemma {:induction false} PairsAreSorted(headers: HeaderMap)
    ensures Pairs(headers) == set p | p in SortedPairs(headers)
  {
    var keys, ps := SortedKeys(headers.Keys), SortedPairs(headers);
    forall p | p in Pairs(headers) ensures p in ps {
      var k :| k in headers && p == (Canon(k), headers[k]);
      var i :| 0 <= i < |keys| && keys[i] == k;
      assert ps[i] == p;
    }
    forall p | p in ps ensures p in Pairs(headers) {
      var i :| 0 <= i < |ps| && ps[i] == p;
      assert keys[i] in keys;
    }
  }

  // Each pair comes from a header.
  lemma {:induction false} PairFrom(headers: HeaderMap, i: nat) returns (k: string)
    requires i < |SortedPairs(headers)|
    ensures k in headers && SortedPairs(headers)[i] == (Canon(k), headers[k])
  {
    var keys := SortedKeys(headers.Keys);
    k := keys[i];
    assert k in keys;
  }

  // ---- plain tenants: the parts can be told apart, then split at their last '=' ----

  lemma {:induction false} PlainPairs(t: Tenant)
    requires Plain(t)
    ensures forall p :: p in SortedPairs(t.headers) ==> NoNul(PartOf(p)) && '=' !in p.1
  {
    var ps := SortedPairs(t.headers);
    forall p | p in ps ensures NoNul(PartOf(p)) && '=' !in p.1 {
      var i :| 0 <= i < |ps| && ps[i] == p;
      var k := PairFrom(t.headers, i);
      CanonKeeps(k, NUL);
    }
  }

  lemma {:induction false} PlainParts(t: Tenant)
    requires Plain(t)
    ensures forall p :: p in Parts(t) ==> NoNul(p)
  {
    PlainPairs(t);
    var ps := SortedPairs(t.headers);
    forall s | s in PartsOf(ps) ensures NoNul(s) {
      var i :| 0 <= i < |ps| && PartsOf(ps)[i] == s;
      assert ps[i] in ps;
    }
  }

  lemma {:induction false} PartsGivePairs(ps: seq<(string, string)>, qs: seq<(string, string)>)
    requires PartsOf(ps) == PartsOf(qs)
    requires forall p :: p in ps ==> '=' !in p.1
    requires forall q :: q in qs ==> '=' !in q.1
    ensures ps == qs
  {
    assert |PartsOf(ps)| == |PartsOf(qs)|;
    forall i | 0 <= i < |ps| ensures ps[i] == qs[i] {
      assert ps[i] in ps && qs[i] in qs && PartsOf(ps)[i] == PartsOf(qs)[i];
      SplitUnique(ps[i].0, ps[i].1, qs[i].0, qs[i].1, '=');
    }
  }

  lemma {:induction false} PlainKeyInjective(a: Tenant, b: Tenant)
    requires Plain(a) && Plain(b) && KeyOf(a) == KeyOf(b)
    ensures SameView(a, b)
  {
    PlainParts(a);
    PlainParts(b);
    JoinInjective(Parts(a), Parts(b));
    PlainPairs(a);
    PlainPairs(b);
    assert Parts(a)[0] == Parts(b)[0] && Parts(a)[1] == Parts(b)[1] && Parts(a)[2..] == Parts(b)[2..];
    PartsGivePairs(SortedPairs(a.headers), SortedPairs(b.headers));
    PairsAreSorted(a.headers);
    PairsAreSorted(b.headers);
  }

  // ---- clean tenants: each pair ends its name at the first '=', its value at a NUL ----

  // The pairs as they follow the credential.
  function Tail(ps: seq<(string, string)>): string {
    if ps == [] then "" else [NUL] + (ps[0].0 + ['='] + (ps[0].1 + Tail(ps[1..])))
  }

  lemma {:induction false} TailStep(ps: seq<(string, string)>)
    requires ps != []
    ensures Tail(ps) == [NUL] + (PartOf(ps[0]) + Tail(ps[1..]))
    ensures PartsOf(ps) == [PartOf(ps[0])] + PartsOf(ps[1..])
  {
    var p, rest := ps[0], Tail(ps[1..]);
    assert PartOf(p) + rest == p.0 + ['='] + (p.1 + rest);
  }

  lemma {:induction false} JoinIsTail(s: string, ps: seq<(string, string)>)
    ensures Join([s] + PartsOf(ps), NUL) == s + Tail(ps)
    decreases |ps|
  {
    if ps == [] {
      assert [s] + PartsOf(ps) == [s];
    } else {
      hide Tail, PartsOf, PartOf;
      TailStep(ps);
      JoinIsTail(PartOf(ps[0]), ps[1..]);
      assert ([s] + PartsOf(ps))[1..] == [PartOf(ps[0])] + PartsOf(ps[1..]);
      assert s + [NUL] + (PartOf(ps[0]) + Tail(ps[1..])) == s + Tail(ps);
    }
  }

  lemma {:induction false} KeyIsTail(t: Tenant)
    ensures KeyOf(t) == t.backend.name + [NUL] + (t.EffectiveCredential() + Tail(SortedPairs(t.headers)))
  {
    var ps := SortedPairs(t.headers);
    JoinIsTail(t.EffectiveCredential(), ps);
    assert Parts(t)[1..] == [t.EffectiveCredential()] + PartsOf(ps);
  }

  // A NUL, the canonical name, '=' and the value of each header named in `keys`.
  function Spelled(headers: HeaderMap, keys: seq<string>): string
    requires forall k :: k in keys ==> k in headers
  {
    if keys == [] then ""
    else
      assert keys[0] in keys;
      ['\0'] + (Canon(keys[0]) + ['='] + (headers[keys[0]] + Spelled(headers, keys[1..])))
  }

  lemma {:induction false} TailIsSpelled(headers: HeaderMap, keys: seq<string>)
    requires forall k :: k in keys ==> k in headers
    ensures Tail(HeaderPairs(headers, keys)) == Spelled(headers, keys)
  {
    if keys != [] {
      assert keys[0] in keys;
      TailIsSpelled(headers, keys[1..]);
      assert HeaderPairs(headers, keys)[1..] == HeaderPairs(headers, keys[1..]);
    }
  }

  // The key, spelled out: the backend's name, the credential in use and the headers in
  // the order of their names.
  lemma {:induction false} KeySpelledOut(t: Tenant, keys: seq<string>)
    requires forall i, j :: 0 <= i < j < |keys| ==> Less(keys[i], keys[j])
    requires forall k :: k in keys <==> k in t.headers
    ensures t.credential != "" ==>
              KeyOf(t) == t.backend.name + ['\0'] + (t.credential + Spelled(t.headers, keys))
    ensures t.credential == "" ==>
              KeyOf(t) == t.backend.name + ['\0'] + (t.backend.credential + Spelled(t.headers, keys))
  {
    StrictOrderUnique(keys, SortedKeys(t.headers.Keys), Identity);
    KeyIsTail(t);
    TailIsSpelled(t.headers, keys);
  }

  lemma {:induction false} HeadEnds(x: string, ps: seq<(string, string)>, y: string, rest: string)
    requires NoNul(y) && x + Tail(ps) == y + rest
    ensures |y| <= |x|
  {
    assert forall i :: 0 <= i < |y| ==> (y + rest)[i] == y[i] && y[i] in y;
    assert ps != [] ==> (x + Tail(ps))[|x|] == NUL;
    assert |x + Tail(ps)| >= |y|;
  }

  // A NUL-free head ends where a tail begins.
  lemma {:induction false} HeadUnique(x: string, ps: seq<(string, string)>, y: string, qs: seq<(string, string)>)
    requires NoNul(x) && NoNul(y) && x + Tail(ps) == y + Tail(qs)
    ensures x == y && Tail(ps) == Tail(qs)
  {
    HeadEnds(x, ps, y, Tail(qs));
    HeadEnds(y, qs, x, Tail(ps));
    var l, r := x + Tail(ps), y + Tail(qs);
    assert l[..|x|] == x && r[..|y|] == y && l[|x|..] == Tail(ps) && r[|y|..] == Tail(qs);
  }

  lemma {:induction false} TailInjective(ps: seq<(string, string)>, qs: seq<(string, string)>)
    requires Tail(ps) == Tail(qs)
    requires forall p :: p in ps ==> '=' !in p.0 && NoNul(p.1)
    requires forall q :: q in qs ==> '=' !in q.0 && NoNul(q.1)
    ensures ps == qs
  {
    if ps != [] && qs != [] {
      var p, q := ps[0], qs[0];
      assert p in ps && q in qs;
      assert Tail(ps)[1..] == Tail(qs)[1..];
      SplitUnique(p.0, p.1 + Tail(ps[1..]), q.0, q.1 + Tail(qs[1..]), '=');
      HeadUnique(p.1, ps[1..], q.1, qs[1..]);
      TailInjective(ps[1..], qs[1..]);
      assert ps == [p] + ps[1..] && qs == [q] + qs[1..];
    }
  }

  lemma {:induction false} CleanPairs(t: Tenant)
    requires Clean(t)
    ensures forall p :: p in SortedPairs(t.headers) ==> '=' !in p.0 && NoNul(p.1)
  {
    var ps := SortedPairs(t.headers);
    forall p | p in ps ensures '=' !in p.0 && NoNul(p.1) {
      var i :| 0 <= i < |ps| && ps[i] == p;
      var k := PairFrom(t.headers, i);
      CanonKeeps(k, '=');
    }
  }

  // Equal keys mean the same backend name, credential and canonical headers.
  lemma {:induction false} ViewKeyInjective(a: Tenant, b: Tenant)
    requires Clean(a) && Clean(b) && KeyOf(a) == KeyOf(b)
    ensures SameView(a, b)
  {
    var ps, qs := SortedPairs(a.headers), SortedPairs(b.headers);
    KeyIsTail(a);
    KeyIsTail(b);
    SplitUnique(a.backend.name, a.EffectiveCredential() + Tail(ps), b.backend.name, b.EffectiveCredential()
        + Tail(qs), NUL);
    HeadUnique(a.EffectiveCredential(), ps, b.EffectiveCredential(), qs);
    CleanPairs(a);
    CleanPairs(b);
    TailInjective(ps, qs);
    PairsAreSorted(a.headers);
    PairsAreSorted(b.headers);
  }

  // ---- exactly when ----

  // Header names are over one alphabet, all other strings of the key over another.
  ghost predicate Over(t: Tenant, names: char -> bool, text: char -> bool) {
    && (forall c :: c in t.backend.name ==> text(c))
    && (forall c :: c in t.EffectiveCredential() ==> text(c))
    && (forall k, c :: k in t.headers && c in k ==> names(c))
    && (forall k, c :: k in t.headers && c in t.headers[k] ==> text(c))
  }

  ghost predicate KeysTellApart(names: char -> bool, text: char -> bool) {
    forall a, b :: Over(a, names, text) && Over(b, names, text) && KeyOf(a) == KeyOf(b) ==> SameView(a, b)
  }

  // A tenant with the given parts of the key.
  function Sample(name: string, credential: string, headers: HeaderMap): Tenant {
    Tenant("t", ["g"], headers, credential, Backend(name, "u", map[], "", "Authorization", "Bearer", "2025-03-26"))
  }

  lemma {:induction false} SortedOne(headers: HeaderMap, k: string)
    requires headers.Keys == {k}
    ensures SortedPairs(headers) == [(Canon(k), headers[k])]
  {
    StrictOrderUnique(SortedKeys(headers.Keys), [k], Identity);
  }

  // A NUL that may be in a backend name or in a credential.
  lemma {:induction false} NulMakesKeysCollide() returns (a: Tenant, b: Tenant)
    ensures KeyOf(a) == KeyOf(b) && !SameView(a, b)
    ensures a == Sample([NUL], "", map[]) && b == Sample("", [NUL], map[])
  {
    a, b := Sample([NUL], "", map[]), Sample("", [NUL], map[]);
    StrictOrderUnique(SortedKeys({}), [], Identity);
    KeyIsTail(a);
    KeyIsTail(b);
    assert a.headers.Keys == {} && SortedPairs(a.headers) == [];
    assert a.backend.name != b.backend.name;
  }

  // An '=' that may be in a header name or in its value: "A=B: c" against "A: B=c".
  lemma {:induction false} EqualsMakesKeysCollide(name: string, credential: string, x: string, y: string, z: string)
    returns (a: Tenant, b: Tenant)
    requires Canon(x) == x
    ensures a == Sample(name, credential, map[x + "=" + y := z]) && b == Sample(name, credential, map[x := y + "=" + z])
    ensures KeyOf(a) == KeyOf(b) && !SameView(a, b)
  {
    var k := x + "=" + y;
    a, b := Sample(name, credential, map[k := z]), Sample(name, credential, map[x := y + "=" + z]);
    assert !IsTokenChar(k[|x|]);
    SortedOne(a.headers, k);
    SortedOne(b.headers, x);
    assert PartOf((k, z)) == PartOf((x, y + "=" + z));
    assert PartsOf([(k, z)]) == PartsOf([(x, y + "=" + z)]);
    assert (k, z) in Pairs(a.headers);
    assert (k, z) !in Pairs(b.headers) by { assert |k| > |Canon(x)|; }
  }

  lemma {:induction false} SortedTwo(headers: HeaderMap)
    requires headers == map["" := "", "=" := ""]
    ensures SortedPairs(headers) == [("", ""), ("=", "")]
  {
    assert Less("", "=") && !IsTokenChar("="[0]);
    StrictOrderUnique(SortedKeys(headers.Keys), ["", "="], Identity);
  }

  lemma {:induction false} TailOfTwo()
    ensures Tail([("", ""), ("=", "")]) == [NUL, '=', NUL, '=', '=']
  {
    var two := [("", ""), ("=", "")];
    assert two[1..] == [("=", "")] && two[1..][1..] == [];
    assert Tail(two[1..]) == [NUL, '=', '='];
  }

  // A header name with both separators against two headers.
  lemma {:induction false} NamesMakeKeysCollide() returns (a: Tenant, b: Tenant)
    ensures KeyOf(a) == KeyOf(b) && !SameView(a, b)
    ensures a.backend.name == b.backend.name == a.EffectiveCredential() == b.EffectiveCredential() == ""
    ensures a.headers == map["" := "", "=" := ""] && b.headers == map[['=', NUL, '='] := ""]
  {
    var k := ['=', NUL, '='];
    a, b := Sample("", "", map["" := "", "=" := ""]), Sample("", "", map[k := ""]);
    SortedTwo(a.headers);
    TailOfTwo();
    assert !IsTokenChar(k[0]);
    SortedOne(b.headers, k);
    assert [(k, "")][1..] == [];
    assert Tail([(k, "")]) == [NUL, '=', NUL, '=', '='];
    KeyIsTail(a);
    KeyIsTail(b);
    assert ("", "") in Pairs(a.headers) && ("", "") !in Pairs(b.headers);
  }

  // What it takes for the keys of all tenants over the two alphabets to differ where
  // their views do: no NUL in any text; and no '=' in a header name, unless there is
  // also no '=' in any text and no NUL in a header name.
  ghost predicate SeparatorsApart(names: char -> bool, text: char -> bool) {
    !text(NUL) && (names('=') ==> !text('=') && !names(NUL))
  }

  lemma {:induction false} NulInText(names: char -> bool, text: char -> bool)
    requires text(NUL)
    ensures !KeysTellApart(names, text)
  {
    hide KeyOf, SameView;
    var a, b := NulMakesKeysCollide();
    assert Over(a, names, text) && Over(b, names, text);
  }

  lemma {:induction false} EqualsInNameAndText(names: char -> bool, text: char -> bool)
    requires names('=') && text('=')
    ensures !KeysTellApart(names, text)
  {
    hide KeyOf, SameView;
    var a, b := EqualsMakesKeysCollide("", "", "", "", "");
    assert Over(a, names, text) && Over(b, names, text);
  }

  lemma {:induction false} BothInNames(names: char -> bool, text: char -> bool)
    requires names('=') && names(NUL)
    ensures !KeysTellApart(names, text)
  {
    hide KeyOf, SameView;
    var a, b := NamesMakeKeysCollide();
    assert Over(a, names, text) && Over(b, names, text);
  }

  lemma {:induction false} OverApart(t: Tenant, names: char -> bool, text: char -> bool)
    requires Over(t, names, text) && SeparatorsApart(names, text)
    ensures if names('=') then Plain(t) else Clean(t)
  {
  }

  // Tenants with equal keys have the same view exactly when the alphabets keep the
  // separators apart.
  lemma {:induction false} KeysTellApartExactly(names: char -> bool, text: char -> bool)
    ensures KeysTellApart(names, text) <==> SeparatorsApart(names, text)
  {
    if text(NUL) {
      NulInText(names, text);
    } else if names('=') && text('=') {
      EqualsInNameAndText(names, text);
    } else if names('=') && names(NUL) {
      BothInNames(names, text);
    } else {
      forall a, b | Over(a, names, text) && Over(b, names, text) && KeyOf(a) == KeyOf(b) ensures SameView(a, b) {
        OverApart(a, names, text);
        OverApart(b, names, text);
        if names('=') {
          PlainKeyInjective(a, b);
        } else {
          ViewKeyInjective(a, b);
        }
      }
    }
  }
}
