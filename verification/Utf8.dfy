// UTF-8 (RFC 3629), the byte form of every string that comes out of a JSON decoder.
module Utf8 {
  import opened Wrappers

  type byte = x: int | 0 <= x < 256

  function EncodeChar(c: char): (b: seq<byte>)
    ensures 1 <= |b| <= 4
  {
    var n := c as int;
    if n < 0x80 then [n]
    else if n < 0x800 then [0xC0 + n / 64, 0x80 + n % 64]
    else if n < 0x10000 then [0xE0 + n / 4096, 0x80 + n / 64 % 64, 0x80 + n % 64]
    else [0xF0 + n / 262144, 0x80 + n / 4096 % 64, 0x80 + n / 64 % 64, 0x80 + n % 64]
  }

  function Encode(s: string): seq<byte> {
    if s == [] then [] else EncodeChar(s[0]) + Encode(s[1..])
  }

  function Low(b: seq<byte>, i: nat): int {
    if i < |b| then b[i] as int - 0x80 else 0
  }

  // The length and the number a leading byte announces.
  function Announced(b: seq<byte>): (int, int)
    requires b != []
  {
    var b0: int := b[0];
    if b0 < 0x80 then (1, b0)
    else if b0 < 0xE0 then (2, (b0 - 0xC0) * 64 + Low(b, 1))
    else if b0 < 0xF0 then (3, (b0 - 0xE0) * 4096 + Low(b, 1) * 64 + Low(b, 2))
    else (4, (b0 - 0xF0) * 262144 + Low(b, 1) * 4096 + Low(b, 2) * 64 + Low(b, 3))
  }

  predicate IsScalar(n: int) { 0 <= n < 0xD800 || 0xE000 <= n < 0x110000 }

  // The character a byte string starts with, if it starts with the one encoding of one.
  function Leading(b: seq<byte>): Option<char>
    requires b != []
  {
    var (len, n) := Announced(b);
    if len <= |b| && IsScalar(n) && EncodeChar(n as char) == b[..len] then Some(n as char) else None
  }

  function Decode(b: seq<byte>): Option<string> {
    if b == [] then Some([])
    else
      match Leading(b)
      case None => None
      case Some(c) =>
        match Decode(b[|EncodeChar(c)|..])
        case None => None
        case Some(rest) => Some([c] + rest)
  }

  lemma {:induction false} AnnouncesItself(c: char, rest: seq<byte>)
    ensures Announced(EncodeChar(c) + rest) == (|EncodeChar(c)|, c as int)
  {
    var n, e := c as int, EncodeChar(c);
    assert forall i :: 0 <= i < |e| ==> (e + rest)[i] == e[i];
    if 0x800 <= n < 0x10000 {
      ThreeDigits(n);
    } else if 0x10000 <= n {
      FourDigits(n);
    }
  }

  lemma {:induction false} ThreeDigits(n: int)
    requires 0 <= n
    ensures n == n / 4096 * 4096 + n / 64 % 64 * 64 + n % 64
  {
  }

  lemma {:induction false} FourDigits(n: int)
    requires 0 <= n
    ensures n == n / 262144 * 262144 + n / 4096 % 64 * 4096 + n / 64 % 64 * 64 + n % 64
  {
    assert n / 4096 == n / 262144 * 64 + n / 4096 % 64;
    assert n / 64 == n / 4096 * 64 + n / 64 % 64;
  }

  lemma {:induction false} LeadingChar(c: char, rest: seq<byte>)
    ensures Leading(EncodeChar(c) + rest) == Some(c)
  {
    AnnouncesItself(c, rest);
    assert (EncodeChar(c) + rest)[..|EncodeChar(c)|] == EncodeChar(c);
  }

  lemma {:induction false} RoundTrip(s: string)
    ensures Decode(Encode(s)) == Some(s)
  {
    if s != [] {
      var e := EncodeChar(s[0]);
      LeadingChar(s[0], Encode(s[1..]));
      assert Encode(s)[|e|..] == Encode(s[1..]);
      assert [s[0]] + s[1..] == s;
      RoundTrip(s[1..]);
    }
  }

  // ---- the encoding itself (section 3 of RFC 3629) ----

  predicate IsContinuation(b: int) { 0x80 <= b < 0xC0 }

  // One to four bytes by the size of the number; the first says how many, and their
  // remaining bits are the number, six to each further byte.
  ghost predicate RightlyEncoded(n: int, b: seq<byte>) {
    var at := (i: int) => if 0 <= i < |b| then b[i] as int else 0;
    if n < 0x80 then |b| == 1 && at(0) == n
    else if n < 0x800 then
      |b| == 2 && 0xC0 <= at(0) < 0xE0 && IsContinuation(at(1)) && n == (at(0) - 0xC0) * 64 + (at(1) - 0x80)
    else if n < 0x10000 then
      |b| == 3 && 0xE0 <= at(0) < 0xF0 && IsContinuation(at(1)) && IsContinuation(at(2))
      && n == (at(0) - 0xE0) * 4096 + (at(1) - 0x80) * 64 + (at(2) - 0x80)
    else
      |b| == 4 && 0xF0 <= at(0) < 0xF8 && IsContinuation(at(1)) && IsContinuation(at(2)) && IsContinuation(at(3))
      && n == (at(0) - 0xF0) * 262144 + (at(1) - 0x80) * 4096 + (at(2) - 0x80) * 64 + (at(3) - 0x80)
  }

  lemma {:induction false} EncodeCharIsRight(c: char)
    ensures RightlyEncoded(c as int, Encode([c]))
  {
    assert Encode([c]) == EncodeChar(c);
    if 0x800 <= c as int < 0x10000 {
      ThreeDigits(c as int);
    } else if 0x10000 <= c as int {
      FourDigits(c as int);
    }
  }

  lemma {:induction false} EncodeFirst(c: char, s: string)
    ensures Encode([c] + s) == EncodeChar(c) + Encode(s)
  {
    assert ([c] + s)[1..] == s;
  }

  lemma {:induction false} Associates(a: seq<byte>, b: seq<byte>, c: seq<byte>)
    ensures a + b + c == a + (b + c)
  {
  }

  lemma {:induction false} EncodeConcatenates(s: string, t: string)
    ensures Encode(s + t) == Encode(s) + Encode(t)
  {
    hide EncodeChar;
    if s == [] {
      assert s + t == t && Encode([]) == [];
    } else {
      EncodeConcatenates(s[1..], t);
      EncodeFirst(s[0], s[1..]);
      EncodeFirst(s[0], s[1..] + t);
      assert s == [s[0]] + s[1..];
      assert s + t == [s[0]] + (s[1..] + t);
      Associates(EncodeChar(s[0]), Encode(s[1..]), Encode(t));
    }
  }

  lemma {:induction false} NotShorter(s: string)
    ensures |Encode(s)| >= |s|
  {
    if s != [] {
      NotShorter(s[1..]);
    }
  }
}
