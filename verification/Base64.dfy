// Base64 with the standard alphabet and padding (section 4 of RFC 4648). Line breaks
// inside encoded text are not modelled.
module Base64 {
  import opened Wrappers
  import opened Utf8

  function Digit(i: int): (c: char)
    requires 0 <= i < 64
  {
    if i < 26 then 'A' + i as char
    else if i < 52 then 'a' + (i - 26) as char
    else if i < 62 then '0' + (i - 52) as char
    else if i == 62 then '+'
    else '/'
  }

  predicate InAlphabet(c: char) {
    'A' <= c <= 'Z' || 'a' <= c <= 'z' || '0' <= c <= '9' || c == '+' || c == '/'
  }

  function Value(c: char): (i: int)
    requires InAlphabet(c)
    ensures 0 <= i < 64
  {
    if 'A' <= c <= 'Z' then c as int - 'A' as int
    else if 'a' <= c <= 'z' then c as int - 'a' as int + 26
    else if '0' <= c <= '9' then c as int - '0' as int + 52
    else if c == '+' then 62
    else 63
  }

  lemma {:induction false} DigitValue(i: int)
    requires 0 <= i < 64
    ensures InAlphabet(Digit(i)) && Value(Digit(i)) == i
  {
  }

  function Encode(b: seq<byte>): string {
    if |b| == 0 then ""
    else if |b| == 1 then [Digit(b[0] / 4), Digit(b[0] % 4 * 16), '=', '=']
    else if |b| == 2 then [Digit(b[0] / 4), Digit(b[0] % 4 * 16 + b[1] / 16), Digit(b[1] % 16 * 4), '=']
    else [Digit(b[0] / 4), Digit(b[0] % 4 * 16 + b[1] / 16), Digit(b[1] % 16 * 4 + b[2] / 64), Digit(b[2] % 64)]
         + Encode(b[3..])
  }

  // The bytes of one group of four, which may be padded only if it is the last.
  function DecodeGroup(g: string, last: bool): Option<seq<byte>>
    requires |g| == 4
  {
    if !InAlphabet(g[0]) || !InAlphabet(g[1]) then None
    else
      var b0 := Value(g[0]) * 4 + Value(g[1]) / 16;
      if g[2] == '=' then if last && g[3] == '=' then Some([b0]) else None
      else if !InAlphabet(g[2]) then None
      else
        var b1 := Value(g[1]) % 16 * 16 + Value(g[2]) / 4;
        if g[3] == '=' then if last then Some([b0, b1]) else None
        else if !InAlphabet(g[3]) then None
        else Some([b0, b1, Value(g[2]) % 4 * 64 + Value(g[3])])
  }

  function Decode(s: string): Option<seq<byte>> {
    if |s| == 0 then Some([])
    else if |s| < 4 then None
    else
      match (DecodeGroup(s[..4], |s| == 4), Decode(s[4..]))
      case (Some(g), Some(rest)) => Some(g + rest)
      case _ => None
  }

  lemma {:induction false} SplitBytes(a: byte, b: byte)
    ensures a / 4 * 4 + (a % 4 * 16 + b / 16) / 16 == a
    ensures (a % 4 * 16 + b / 16) % 16 == b / 16
    ensures (b % 16 * 4 + a / 64) / 4 == b % 16
    ensures (b % 16 * 4 + a / 64) % 4 == a / 64
  {
  }

  // The digits of a group come out as their values.
  lemma {:induction false} DecodeDigits(i: int, j: int, k: int, l: int, last: bool)
    requires 0 <= i < 64 && 0 <= j < 64 && 0 <= k < 64 && 0 <= l < 64
    ensures DecodeGroup([Digit(i), Digit(j), Digit(k), Digit(l)], last)
            == Some([i * 4 + j / 16, j % 16 * 16 + k / 4, k % 4 * 64 + l])
    ensures DecodeGroup([Digit(i), Digit(j), Digit(k), '='], true) == Some([i * 4 + j / 16, j % 16 * 16 + k / 4])
    ensures DecodeGroup([Digit(i), Digit(j), '=', '='], true) == Some([i * 4 + j / 16])
  {
    DigitValue(i);
    DigitValue(j);
    DigitValue(k);
    DigitValue(l);
    hide Digit, Value;
    assert !InAlphabet('=');
  }

  lemma {:induction false} GroupOfThree(b: seq<byte>, last: bool)
    requires |b| == 3
    ensures |Encode(b)| == 4 && DecodeGroup(Encode(b), last) == Some(b)
  {
    hide Digit, DecodeGroup;
    var x, y, z := b[0], b[1], b[2];
    DecodeDigits(x / 4, x % 4 * 16 + y / 16, y % 16 * 4 + z / 64, z % 64, last);
    SplitBytes(x, y);
    SplitBytes(z, y);
    assert b[3..] == [] && Encode([]) == "";
    assert Encode(b) == [Digit(x / 4), Digit(x % 4 * 16 + y / 16), Digit(y % 16 * 4 + z / 64), Digit(z % 64)];
    assert b == [x, y, z];
  }

  lemma {:induction false} ShortGroup(b: seq<byte>)
    requires 1 <= |b| <= 2
    ensures |Encode(b)| == 4 && DecodeGroup(Encode(b), true) == Some(b)
  {
    hide Digit, DecodeGroup;
    var x := b[0];
    if |b| == 1 {
      DecodeDigits(x / 4, x % 4 * 16, 0, 0, true);
      assert b == [x];
    } else {
      var y := b[1];
      DecodeDigits(x / 4, x % 4 * 16 + y / 16, y % 16 * 4, 0, true);
      SplitBytes(x, y);
      assert b == [x, y];
    }
  }

  lemma {:induction false} RoundTrip(b: seq<byte>)
    ensures Decode(Encode(b)) == Some(b)
  {
    var e := Encode(b);
    if 1 <= |b| <= 2 {
      ShortGroup(b);
      assert e[..4] == e && e[4..] == "" && Decode("") == Some([]);
      assert b + [] == b;
    } else if |b| >= 3 {
      GroupOfThree(b[..3], |e| == 4);
      assert b[..3][3..] == [] && e[..4] == Encode(b[..3]) && e[4..] == Encode(b[3..]);
      RoundTrip(b[3..]);
      assert b == b[..3] + b[3..];
    }
  }

  // Encoded text is visible ASCII.
  lemma {:induction false} EncodedIsVisible(b: seq<byte>)
    ensures forall c :: c in Encode(b) ==> InAlphabet(c) || c == '='
  {
    if |b| == 1 {
      DigitValue(b[0] / 4);
      DigitValue(b[0] % 4 * 16);
    } else if |b| >= 2 {
      DigitValue(b[0] / 4);
      DigitValue(b[0] % 4 * 16 + b[1] / 16);
      if |b| == 2 {
        DigitValue(b[1] % 16 * 4);
      } else {
        DigitValue(b[1] % 16 * 4 + b[2] / 64);
        DigitValue(b[2] % 64);
        EncodedIsVisible(b[3..]);
      }
    }
  }

  lemma {:induction false} NotShorter(b: seq<byte>)
    ensures |Encode(b)| >= |b|
  {
    if |b| >= 3 {
      NotShorter(b[3..]);
    }
  }

  // ---- the encoding itself, digit by digit ----

  // The alphabet, by the values 0 to 25, 26 to 51, 52 to 61, 62 and 63.
  ghost predicate Listed(i: int, c: char) {
    if 0 <= i < 26 then c == "ABCDEFGHIJKLMNOPQRSTUVWXYZ"[i]
    else if 26 <= i < 52 then c == "abcdefghijklmnopqrstuvwxyz"[i - 26]
    else if 52 <= i < 62 then c == "0123456789"[i - 52]
    else if i == 62 then c == '+'
    else i == 63 && c == '/'
  }

  lemma {:induction false} DigitIsListed(i: int)
    requires 0 <= i < 64
    ensures Listed(i, Digit(i))
  {
  }

  // Four digits hold the 24 bits of three bytes, the first byte highest; a last group
  // of one or two bytes is filled up with zero bits and marked with '='.
  ghost predicate RightGroup(b: seq<byte>, s: string)
    requires 1 <= |b| <= 3 && |s| == 4
  {
    var x, y, z := b[0] as int, if |b| > 1 then b[1] as int else 0, if |b| > 2 then b[2] as int else 0;
    var bits := x * 65536 + y * 256 + z;
    && Listed(bits / 262144, s[0]) && Listed(bits / 4096 % 64, s[1])
    && (if |b| > 1 then Listed(bits / 64 % 64, s[2]) else s[2] == '=')
    && (if |b| > 2 then Listed(bits % 64, s[3]) else s[3] == '=')
  }

  lemma {:induction false} Bits(x: int, y: int, z: int)
    requires 0 <= x < 256 && 0 <= y < 256 && 0 <= z < 256
    ensures var bits := x * 65536 + y * 256 + z;
            && bits / 262144 == x / 4
            && bits / 4096 % 64 == x % 4 * 16 + y / 16
            && bits / 64 % 64 == y % 16 * 4 + z / 64
            && bits % 64 == z % 64
  {
    var bits := x * 65536 + y * 256 + z;
    assert bits / 4096 == x * 16 + y / 16;
    assert bits / 64 == x * 1024 + y * 4 + z / 64;
    assert x * 1024 % 64 == 0;
  }

  lemma {:induction false} GroupDigits(x: int, y: int, z: int)
    requires 0 <= x < 256 && 0 <= y < 256 && 0 <= z < 256
    ensures var bits := x * 65536 + y * 256 + z;
            && Listed(bits / 262144, Digit(x / 4)) && Listed(bits / 4096 % 64, Digit(x % 4 * 16 + y / 16))
            && Listed(bits / 64 % 64, Digit(y % 16 * 4 + z / 64)) && Listed(bits % 64, Digit(z % 64))
  {
    Bits(x, y, z);
    DigitIsListed(x / 4);
    DigitIsListed(x % 4 * 16 + y / 16);
    DigitIsListed(y % 16 * 4 + z / 64);
    DigitIsListed(z % 64);
    hide Digit, Listed;
  }

  lemma {:induction false} GroupIsRight(b: seq<byte>)
    requires 1 <= |b| <= 3
    ensures |Encode(b)| == 4 && RightGroup(b, Encode(b))
  {
    hide Digit, Listed;
    var x, y, z := b[0] as int, if |b| > 1 then b[1] as int else 0, if |b| > 2 then b[2] as int else 0;
    GroupDigits(x, y, z);
    assert |b| == 3 ==> b[3..] == [] && Encode([]) == "";
    assert |b| == 1 ==> Encode(b) == [Digit(x / 4), Digit(x % 4 * 16 + y / 16), '=', '='];
    assert |b| == 2 ==> Encode(b) == [Digit(x / 4), Digit(x % 4 * 16 + y / 16), Digit(y % 16 * 4 + z / 64), '='];
    hide Encode;
  }

  lemma {:induction false} EncodeGroups(b: seq<byte>)
    requires |b| > 3
    ensures Encode(b) == Encode(b[..3]) + Encode(b[3..])
  {
    assert b[..3][3..] == [] && Encode([]) == "";
  }

  // The i-th three bytes, or what is left of them.
  function GroupAt(b: seq<byte>, i: nat): seq<byte>
    requires 3 * i < |b|
  {
    b[3 * i..if 3 * i + 3 < |b| then 3 * i + 3 else |b|]
  }

  lemma {:induction false} NextGroup(head: string, rest: string, k: nat)
    requires |head| == 4 && k + 4 <= |rest|
    ensures (head + rest)[k + 4..k + 8] == rest[k..k + 4]
  {
  }

  // The i-th group of four stands for the i-th three bytes, and there is nothing else.
  lemma {:induction false} EncodeIsRight(b: seq<byte>, i: nat)
    requires 3 * i < |b|
    ensures |Encode(b)| == (|b| + 2) / 3 * 4 && 4 * i + 4 <= |Encode(b)|
    ensures RightGroup(GroupAt(b, i), Encode(b)[4 * i..4 * i + 4])
  {
    hide Encode, RightGroup;
    var e := Encode(b);
    if |b| <= 3 {
      GroupIsRight(b);
      assert GroupAt(b, 0) == b && e[0..4] == e;
    } else {
      GroupIsRight(b[..3]);
      EncodeGroups(b);
      EncodeIsRight(b[3..], if i == 0 then 0 else i - 1);
      if i == 0 {
        assert e[0..4] == Encode(b[..3]) && GroupAt(b, 0) == b[..3];
      } else {
        assert GroupAt(b, i) == GroupAt(b[3..], i - 1);
        NextGroup(Encode(b[..3]), Encode(b[3..]), 4 * (i - 1));
      }
    }
  }
}
