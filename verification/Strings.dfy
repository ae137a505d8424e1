// Prefixes and joins; byte-string order and sorting, as sort.Strings and sort.Slice
// use them.
// Strings are sequences of Unicode scalar values; the byte order of their UTF-8
// forms is the order of the scalar values.
module Strings {

  predicate HasPrefix(s: string, p: string) { p <= s }

  // The parts with the separator between each two.
  function Join(parts: seq<string>, sep: char): string {
    if parts == [] then ""
    else if |parts| == 1 then parts[0]
    else parts[0] + [sep] + Join(parts[1..], sep)
  }

  lemma {:induction false} JoinAppend(parts: seq<string>, last: string, sep: char)
    requires parts != []
    ensures Join(parts + [last], sep) == Join(parts, sep) + [sep] + last
  {
    if |parts| == 1 {
      assert (parts + [last])[1..] == [last];
    } else {
      assert (parts + [last])[1..] == parts[1..] + [last];
      JoinAppend(parts[1..], last, sep);
    }
  }

  predicate Less(a: string, b: string) {
    if b == [] then false
    else if a == [] then true
    else a[0] < b[0] || (a[0] == b[0] && Less(a[1..], b[1..]))
  }

  // The first k characters agree, and then a ends or has the smaller one.
  ghost predicate SmallerAt(a: string, b: string, k: nat) {
    k <= |a| && k < |b| && a[..k] == b[..k] && (k == |a| || a[k] < b[k])
  }

  lemma {:induction false} LessMeans(a: string, b: string)
    ensures Less(a, b) <==> exists k: nat :: SmallerAt(a, b, k)
  {
    if a == [] {
      assert b != [] ==> SmallerAt(a, b, 0);
    } else if b != [] {
      LessMeans(a[1..], b[1..]);
      if a[0] == b[0] {
        if k: nat :| SmallerAt(a[1..], b[1..], k) {
          assert a[..k + 1] == [a[0]] + a[1..][..k] && b[..k + 1] == [b[0]] + b[1..][..k];
          assert SmallerAt(a, b, k + 1);
        }
        if k: nat :| SmallerAt(a, b, k) {
          assert k > 0;
          assert a[1..][..k - 1] == a[..k][1..] && b[1..][..k - 1] == b[..k][1..];
          assert SmallerAt(a[1..], b[1..], k - 1);
        }
      } else {
        assert a[0] < b[0] ==> SmallerAt(a, b, 0);
        if k: nat :| SmallerAt(a, b, k) {
          assert k > 0 ==> a[..k][0] == b[..k][0];
        }
      }
    }
  }

  lemma {:induction false} LessTransitive(a: string, b: string, c: string)
    ensures Less(a, b) && Less(b, c) ==> Less(a, c)
  {
    if a != [] && b != [] && c != [] {
      LessTransitive(a[1..], b[1..], c[1..]);
    }
  }

  lemma {:induction false} LessAsymmetric(a: string, b: string)
    ensures !(Less(a, b) && Less(b, a))
  {
    if a != [] && b != [] {
      LessAsymmetric(a[1..], b[1..]);
    }
  }

  lemma {:induction false} LessTotal(a: string, b: string)
    ensures Less(a, b) || a == b || Less(b, a)
  {
    if a != [] && b != [] {
      LessTotal(a[1..], b[1..]);
      assert a == [a[0]] + a[1..] && b == [b[0]] + b[1..];
    }
  }

  function Identity(s: string): string { s }

  // Strictly increasing in the key, hence without repeated keys.
  ghost predicate StrictlySortedBy<T>(xs: seq<T>, key: T -> string) {
    forall i, j :: 0 <= i < j < |xs| ==> Less(key(xs[i]), key(xs[j]))
  }

  ghost predicate SortedBy<T>(xs: seq<T>, key: T -> string) {
    forall i, j :: 0 <= i < j < |xs| ==> !Less(key(xs[j]), key(xs[i]))
  }

  ghost predicate DistinctBy<T>(xs: seq<T>, key: T -> string) {
    forall i, j :: 0 <= i < j < |xs| ==> key(xs[i]) != key(xs[j])
  }

  function InsertBy<T>(x: T, xs: seq<T>, key: T -> string): (r: seq<T>)
    requires SortedBy(xs, key)
    ensures SortedBy(r, key)
    ensures multiset(r) == multiset(xs) + multiset{x}
  {
    if xs == [] then [x]
    else if Less(key(xs[0]), key(x)) then
      assert xs == [xs[0]] + xs[1..];
      var rest := InsertBy(x, xs[1..], key);
      assert SortedBy([xs[0]] + rest, key) by { HeadFirst(xs, x, rest, key); }
      [xs[0]] + rest
    else
      assert SortedBy([x] + xs, key) by { BeforeAll(x, xs, key); }
      [x] + xs
  }

  lemma {:induction false} HeadFirst<T>(xs: seq<T>, x: T, rest: seq<T>, key: T -> string)
    requires xs != [] && SortedBy(xs, key) && SortedBy(rest, key)
    requires Less(key(xs[0]), key(x))
    requires multiset(rest) == multiset(xs[1..]) + multiset{x}
    ensures SortedBy([xs[0]] + rest, key)
  {
    forall j | 0 <= j < |rest| ensures !Less(key(rest[j]), key(xs[0])) {
      assert rest[j] in multiset(rest);
      LessAsymmetric(key(x), key(xs[0]));
      if rest[j] in multiset(xs[1..]) {
        assert rest[j] in xs[1..];
      }
    }
  }

  lemma {:induction false} BeforeAll<T>(x: T, xs: seq<T>, key: T -> string)
    requires xs != [] && SortedBy(xs, key) && !Less(key(xs[0]), key(x))
    ensures SortedBy([x] + xs, key)
  {
    forall j | 0 <= j < |xs| ensures !Less(key(xs[j]), key(x)) {
      LessTotal(key(xs[0]), key(x));
      LessTransitive(key(xs[j]), key(x), key(xs[0]));
    }
  }

  // The library sort: an ordered permutation of its input.
  function SortBy<T>(xs: seq<T>, key: T -> string): (r: seq<T>)
    ensures SortedBy(r, key)
    ensures multiset(r) == multiset(xs)
  {
    if xs == [] then []
    else
      assert xs == [xs[0]] + xs[1..];
      InsertBy(xs[0], SortBy(xs[1..], key), key)
  }

  lemma {:induction false} SameElements<T>(xs: seq<T>, ys: seq<T>)
    requires multiset(xs) == multiset(ys)
    ensures |xs| == |ys|
    ensures forall x :: x in xs ==> x in ys
    ensures forall x :: x in ys ==> x in xs
  {
    assert |xs| == |multiset(xs)| && |ys| == |multiset(ys)|;
    forall x | x in xs ensures x in ys {
      assert x in multiset(xs);
    }
    forall x | x in ys ensures x in xs {
      assert x in multiset(ys);
    }
  }

  lemma {:induction false} InsertStrict<T>(x: T, xs: seq<T>, key: T -> string)
    requires StrictlySortedBy(xs, key)
    requires SortedBy(xs, key)
    requires forall y :: y in xs ==> key(y) != key(x)
    ensures StrictlySortedBy(InsertBy(x, xs, key), key)
  {
    if xs != [] {
      LessTotal(key(xs[0]), key(x));
      assert xs[0] in xs;
      if Less(key(xs[0]), key(x)) {
        InsertStrict(x, xs[1..], key);
        var rest := InsertBy(x, xs[1..], key);
        forall j | 0 <= j < |rest| ensures Less(key(xs[0]), key(rest[j])) {
          assert rest[j] in multiset(rest);
          if rest[j] in multiset(xs[1..]) {
            assert rest[j] in xs[1..];
          }
        }
      } else {
        forall j | 0 <= j < |xs| ensures Less(key(x), key(xs[j])) {
          LessTransitive(key(x), key(xs[0]), key(xs[j]));
        }
      }
    }
  }

  // Sorting a list without repeated keys gives a strictly increasing list.
  lemma {:induction false} SortStrict<T>(xs: seq<T>, key: T -> string)
    requires DistinctBy(xs, key)
    ensures StrictlySortedBy(SortBy(xs, key), key)
  {
    if xs != [] {
      SortStrict(xs[1..], key);
      var rest := SortBy(xs[1..], key);
      SameElements(rest, xs[1..]);
      forall y | y in rest ensures key(y) != key(xs[0]) {
        assert y in xs[1..];
        var j :| 0 <= j < |xs[1..]| && xs[1..][j] == y;
        assert y == xs[j + 1];
      }
      InsertStrict(xs[0], rest, key);
    }
  }

  // Two strictly increasing lists with the same elements are the same list.
  lemma {:induction false} StrictOrderUnique<T>(xs: seq<T>, ys: seq<T>, key: T -> string)
    requires StrictlySortedBy(xs, key) && StrictlySortedBy(ys, key)
    requires forall x :: x in xs <==> x in ys
    ensures xs == ys
    decreases |xs|
  {
    HeadIsElement(xs);
    HeadIsElement(ys);
    if xs != [] && ys != [] {
      SameHead(xs, ys, key);
      forall x ensures x in xs[1..] <==> x in ys[1..] {
        Tail(xs, ys, key, x);
        Tail(ys, xs, key, x);
      }
      StrictOrderUnique(xs[1..], ys[1..], key);
      assert xs == [xs[0]] + xs[1..] && ys == [ys[0]] + ys[1..];
    }
  }

  lemma {:induction false} HeadIsElement<T>(xs: seq<T>)
    ensures xs == [] || exists x :: x in xs
  {
    if xs != [] {
      assert xs[0] in xs;
    }
  }

  lemma {:induction false} SameHead<T>(xs: seq<T>, ys: seq<T>, key: T -> string)
    requires StrictlySortedBy(xs, key) && StrictlySortedBy(ys, key)
    requires xs != [] && ys != []
    requires forall x :: x in xs <==> x in ys
    ensures xs[0] == ys[0]
  {
    assert xs[0] in xs && ys[0] in ys;
    var j :| 0 <= j < |ys| && ys[j] == xs[0];
    var i :| 0 <= i < |xs| && xs[i] == ys[0];
    LessAsymmetric(key(xs[0]), key(ys[0]));
  }

  lemma {:induction false} Tail<T>(xs: seq<T>, ys: seq<T>, key: T -> string, x: T)
    requires StrictlySortedBy(xs, key)
    requires xs != [] && ys != [] && xs[0] == ys[0]
    requires forall y :: y in xs <==> y in ys
    ensures x in xs[1..] ==> x in ys[1..]
  {
    LessAsymmetric(key(x), key(x));
    if x in xs[1..] {
      var i :| 1 <= i < |xs| && xs[i] == x;
      assert x in ys;
      var j :| 0 <= j < |ys| && ys[j] == x;
      assert ys[1..][j - 1] == x;
    }
  }
}
