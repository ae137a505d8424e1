// Projection of annotated arguments onto Mcp-Param-* headers
// (internal/proxy/paramheaders.go).
module ParamHeaders {
  import opened Wrappers
  import opened Strings
  import opened JsonTree
  import opened ToolSchema
  import opened Headers
  import TenantRegistry
  import opened TenantCatalogs
  import Utf8
  import Base64

  const PARAM_PREFIX := "Mcp-Param-"
  const BASE64_PREFIX := "=?base64?"
  const BASE64_SUFFIX := "?="

  predicate HasSuffix(s: string, p: string) { |p| <= |s| && s[|s| - |p|..] == p }

  predicate LooksEncoded(s: string) { HasPrefix(s, BASE64_PREFIX) && HasSuffix(s, BASE64_SUFFIX) }

  // A scalar value outside the visible ASCII range and the space.
  predicate Unsafe(c: char) { c < ' ' || c > '~' }

  predicate RequiresBase64(s: string) {
    if s == "" then false
    else if HasPrefix(s, " ") || HasPrefix(s, "\t") || HasSuffix(s, " ") || HasSuffix(s, "\t") then true
    else if exists c :: c in s && Unsafe(c) then true
    else LooksEncoded(s)
  }

  function EncodeText(s: string): string {
    if RequiresBase64(s) then BASE64_PREFIX + Base64.Encode(Utf8.Encode(s)) + BASE64_SUFFIX else s
  }

  // What a conforming receiver makes of a header value.
  function DecodeText(v: string): Option<string> {
    if |v| < |BASE64_PREFIX| + |BASE64_SUFFIX| || !LooksEncoded(v) then Some(v)
    else
      match Base64.Decode(v[|BASE64_PREFIX|..|v| - |BASE64_SUFFIX|])
      case None => None
      case Some(bytes) => Utf8.Decode(bytes)
  }

  // The header value carries the string, whatever it is: also one that looks like the
  // escape, or in which the escape's two ends overlap.
  lemma {:induction false} TextRoundTrip(s: string)
    ensures DecodeText(EncodeText(s)) == Some(s)
  {
    if RequiresBase64(s) {
      var e := Base64.Encode(Utf8.Encode(s));
      var v := EncodeText(s);
      assert v[..|BASE64_PREFIX|] == BASE64_PREFIX && v[|v| - |BASE64_SUFFIX|..] == BASE64_SUFFIX;
      assert v[|BASE64_PREFIX|..|v| - |BASE64_SUFFIX|] == e;
      Base64.RoundTrip(Utf8.Encode(s));
      Utf8.RoundTrip(s);
    }
  }

  // Text that needs no escape: visible ASCII and spaces, no blank at either end, and not
  // something that reads as escaped already.
  ghost predicate Plain(s: string) {
    && (forall c :: c in s ==> 0x20 <= c as int <= 0x7E)
    && (s != "" ==> s[0] != ' ' && s[|s| - 1] != ' ')
    && !(|s| >= 9 && s[..9] == "=?base64?" && s[|s| - 2..] == "?=")
  }

  lemma {:induction false} EdgesChecked(s: string, c: char)
    requires s != ""
    ensures HasPrefix(s, [c]) <==> s[0] == c
    ensures HasSuffix(s, [c]) <==> s[|s| - 1] == c
  {
    assert s[|s| - 1..] == [s[|s| - 1]];
  }

  lemma {:induction false} LooksEncodedMeans(s: string)
    ensures LooksEncoded(s) <==> |s| >= 9 && s[..9] == "=?base64?" && s[|s| - 2..] == "?="
  {
  }

  lemma {:induction false} PlainNeedsNoEscape(s: string)
    ensures RequiresBase64(s) <==> !Plain(s)
  {
    LooksEncodedMeans(s);
    if s != "" {
      EdgesChecked(s, ' ');
      EdgesChecked(s, '\t');
      assert s[0] in s && s[|s| - 1] in s;
      hide HasPrefix, HasSuffix, LooksEncoded;
      assert (forall c :: c in s ==> !Unsafe(c)) <==> forall c :: c in s ==> 0x20 <= c as int <= 0x7E;
    }
  }

  // Plain text is sent as it is, and only plain text is; the rest goes out as Base64 of
  // its UTF-8 form between the escape's two ends.
  lemma {:induction false} EncodeTextExactly(s: string)
    ensures EncodeText(s) == s <==> Plain(s)
    ensures !Plain(s) ==> EncodeText(s) == "=?base64?" + Base64.Encode(Utf8.Encode(s)) + "?="
  {
    PlainNeedsNoEscape(s);
    if !Plain(s) {
      Utf8.NotShorter(s);
      Base64.NotShorter(Utf8.Encode(s));
      assert |EncodeText(s)| > |s|;
    }
  }

  // A field value in the sense of section 5.5 of RFC 9110: visible ASCII and inner
  // spaces, nothing else, and no whitespace at either end.
  ghost predicate FieldSafe(v: string) {
    && (forall c :: c in v ==> ' ' <= c <= '~')
    && (v != "" ==> v[0] != ' ' && v[|v| - 1] != ' ')
  }

  lemma {:induction false} EdgeIsChecked(s: string)
    requires s != ""
    ensures HasPrefix(s, " ") <==> s[0] == ' '
    ensures HasSuffix(s, " ") <==> s[|s| - 1] == ' '
  {
    assert s[|s| - 1..] == [s[|s| - 1]];
  }

  lemma {:induction false} TextIsFieldSafe(s: string)
    ensures FieldSafe(EncodeText(s))
  {
    if RequiresBase64(s) {
      var e := Base64.Encode(Utf8.Encode(s));
      Base64.EncodedIsVisible(Utf8.Encode(s));
      var v := EncodeText(s);
      forall c | c in v ensures ' ' <= c <= '~' {
        if c !in e {
          assert c in BASE64_PREFIX || c in BASE64_SUFFIX;
        }
      }
      assert v[0] == '=' && v[|v| - 1] == '=';
    } else if s != "" {
      EdgeIsChecked(s);
      assert forall c :: c in s ==> !Unsafe(c);
    }
  }

  // ---- numbers ----

  function DigitChar(d: int): (c: char)
    requires 0 <= d < 10
    ensures '0' <= c <= '9' && c as int - '0' as int == d
  {
    '0' + d as char
  }

  function FormatNat(n: nat): string {
    if n < 10 then [DigitChar(n)] else FormatNat(n / 10) + [DigitChar(n % 10)]
  }

  function FormatInt(n: int): string {
    if n < 0 then "-" + FormatNat(-n) else FormatNat(n)
  }

  function ParseNat(s: string): int {
    if s == "" then 0 else ParseNat(s[..|s| - 1]) * 10 + (s[|s| - 1] as int - '0' as int)
  }

  function ParseInt(s: string): int {
    if HasPrefix(s, "-") then -ParseNat(s[1..]) else ParseNat(s)
  }

  lemma {:induction false} NatRoundTrip(n: nat)
    ensures ParseNat(FormatNat(n)) == n
    ensures FormatNat(n) != "" && forall c :: c in FormatNat(n) ==> '0' <= c <= '9'
  {
    var s := FormatNat(n);
    if n < 10 {
      assert s[..0] == "" && ParseNat("") == 0;
    } else {
      NatRoundTrip(n / 10);
      assert s[..|s| - 1] == FormatNat(n / 10) && s[|s| - 1] == DigitChar(n % 10);
    }
  }

  lemma {:induction false} OtherEnds(s: string, p: string)
    requires s != "" && p != ""
    ensures s[0] != p[0] ==> !HasPrefix(s, p)
    ensures s[|s| - 1] != p[|p| - 1] ==> !HasSuffix(s, p)
  {
    if HasSuffix(s, p) {
      assert s[|s| - |p|..][|p| - 1] == p[|p| - 1];
    }
  }

  // Digits and signs never need the escape.
  lemma {:induction false} NumeralsArePlain(s: string)
    requires s != "" && forall c :: c in s ==> c == '-' || '0' <= c <= '9'
    ensures !RequiresBase64(s)
  {
    hide HasPrefix, HasSuffix;
    assert s[0] in s && s[|s| - 1] in s;
    assert BASE64_PREFIX[0] == '=';
    OtherEnds(s, " ");
    OtherEnds(s, "\t");
    OtherEnds(s, BASE64_PREFIX);
  }

  lemma {:induction false} IntRoundTrip(n: int)
    ensures ParseInt(FormatInt(n)) == n && !RequiresBase64(FormatInt(n))
  {
    var m := if n < 0 then -n else n;
    NatRoundTrip(m);
    var s := FormatInt(n);
    NumeralsArePlain(s);
    if n < 0 {
      assert s[1..] == FormatNat(m);
    } else {
      assert s[0] in FormatNat(m);
    }
  }

  // The number a string of decimal digits stands for, read from the left, after digits
  // that stood for acc.
  function Decimal(acc: int, s: string): int
    decreases |s|
  {
    if s == "" then acc else Decimal(10 * acc + (s[0] as int - '0' as int), s[1..])
  }

  lemma {:induction false} DecimalAppend(acc: int, s: string, c: char)
    ensures Decimal(acc, s + [c]) == 10 * Decimal(acc, s) + (c as int - '0' as int)
    decreases |s|
  {
    if s == "" {
      assert ("" + [c])[1..] == "";
    } else {
      DecimalAppend(10 * acc + (s[0] as int - '0' as int), s[1..], c);
      assert (s + [c])[1..] == s[1..] + [c];
    }
  }

  // Decimal digits that stand for n, without a leading zero.
  lemma {:induction false} FormatIsDecimal(n: nat)
    ensures var s := FormatNat(n);
            && Decimal(0, s) == n && s != "" && (forall c :: c in s ==> '0' <= c <= '9')
            && (n == 0 ==> s == "0") && (n > 0 ==> s[0] != '0')
  {
    NatRoundTrip(n);
    var s := FormatNat(n);
    if n < 10 {
      assert s[1..] == "";
    } else {
      FormatIsDecimal(n / 10);
      DecimalAppend(0, FormatNat(n / 10), DigitChar(n % 10));
    }
  }

  lemma {:induction false} FormatIntSigned(n: int)
    ensures n < 0 ==> FormatInt(n) == "-" + FormatNat(-n)
    ensures n >= 0 ==> FormatInt(n) == FormatNat(n)
    ensures FormatInt(n) != "" && (n < 0 <==> FormatInt(n)[0] == '-')
  {
    NatRoundTrip(if n < 0 then -n else n);
    if n >= 0 {
      assert FormatNat(n)[0] in FormatNat(n);
    }
  }

  // ---- values ----

  const TWO_63 := 0x8000_0000_0000_0000
  const MAX_SAFE := 0x1F_FFFF_FFFF_FFFF  // 2^53 - 1

  // A JSON primitive as header text. The conversion of a float64 outside the int64
  // range is the platform's; `huge` says what it renders there, if anything.
  function Rendered(v: Json, huge: real -> Option<string>): Option<string> {
    match v
    case Str(s) => Some(s)
    case Bool(b) => Some(if b then "true" else "false")
    case Num(n) =>
      if n < -(TWO_63 as real) || n >= TWO_63 as real then huge(n)
      else if n != n.Floor as real then None
      else Some(FormatInt(n.Floor))
    case _ => None
  }

  function EncodeValue(v: Json, huge: real -> Option<string>): Option<string> {
    match Rendered(v, huge)
    case None => None
    case Some(s) => Some(EncodeText(s))
  }

  lemma {:induction false} BooleansArePlain()
    ensures !RequiresBase64("true") && !RequiresBase64("false")
  {
    EdgeIsChecked("true");
    EdgeIsChecked("false");
    assert "true"[3..] == "e" && "false"[4..] == "e";
  }

  // What the receiver reads back: the string itself, the boolean's name, or decimal
  // digits that stand for exactly the integer.
  lemma {:induction false} ValueRoundTrip(v: Json, huge: real -> Option<string>)
    requires v.Num? ==> -(MAX_SAFE as real) <= v.n <= MAX_SAFE as real
    ensures var r := EncodeValue(v, huge);
            && (r.Some? <==> v.Str? || v.Bool? || (v.Num? && v.n == v.n.Floor as real))
            && (r.Some? ==> FieldSafe(r.value) && DecodeText(r.value) == Rendered(v, huge))
            && (v.Str? ==> r == Some(EncodeText(v.s)) && DecodeText(r.value) == Some(v.s))
            && (r.Some? && v.Bool? ==> r.value == if v.b then "true" else "false")
            && (r.Some? && v.Num? ==> ParseInt(r.value) as real == v.n)
  {
    var text := Rendered(v, huge);
    if text.Some? {
      TextRoundTrip(text.value);
      TextIsFieldSafe(text.value);
      if v.Num? {
        IntRoundTrip(v.n.Floor);
      } else if v.Bool? {
        BooleansArePlain();
      }
    }
  }

  // ---- one tool call ----

  // The annotations json.Unmarshal finds in an inputSchema: per property the raw
  // "x-mcp-header", None as a whole when decoding fails. One property schema that is
  // not an object fails it for all.
  function Annotations(schema: Json): Option<map<string, Option<Json>>> {
    match schema
    case Null => Some(map[])
    case Obj(m) =>
      if "properties" !in m || m["properties"].Null? then Some(map[])
      else if !m["properties"].Obj? then None
      else
        var ps := m["properties"].fields;
        if exists k :: k in ps && !ps[k].Obj? && !ps[k].Null? then None
        else Some(map k | k in ps :: Field(DecodeObject(Some(ps[k])), "x-mcp-header"))
    case _ => None
  }

  function AnnotationsOf(tool: ToolDef): map<string, Option<Json>> {
    if "inputSchema" !in tool then map[]
    else
      match Annotations(tool["inputSchema"])
      case None => map[]
      case Some(ps) => ps
  }

  // Property `prop` is annotated with a name and has a value that renders as `v`.
  predicate Projects(ps: map<string, Option<Json>>, args: map<string, Json>, huge: real -> Option<string>,
                     prop: string, h: string, v: string) {
    && prop in ps && ps[prop].Some? && DecodeString(ps[prop].value) != ""
    && h == PARAM_PREFIX + DecodeString(ps[prop].value)
    && prop in args && args[prop] != Null
    && EncodeValue(args[prop], huge) == Some(v)
  }

  // The headers are those the properties of `done` project, each with one of the
  // values projected onto it.
  ghost predicate Projection(ps: map<string, Option<Json>>, args: map<string, Json>, huge: real -> Option<string>,
                             done: set<string>, headers: HeaderMap) {
    && (forall prop, h, v :: prop in done && Projects(ps, args, huge, prop, h, v) ==> h in headers)
    && (forall h :: h in headers ==> exists prop :: prop in done && Projects(ps, args, huge, prop, h, headers[h]))
  }

  method ParamHeadersForTool(tool: ToolDef, argsJSON: Option<Json>, huge: real -> Option<string>)
    returns (headers: Option<HeaderMap>)
    ensures var ps := AnnotationsOf(tool);
            Projection(ps, DecodeObject(argsJSON), huge, ps.Keys, if headers.Some? then headers.value else map[])
    ensures headers.Some? ==> headers.value != map[]
  {
    headers := None;
    if "inputSchema" !in tool {
      return;
    }
    var decoded := Annotations(tool["inputSchema"]);
    if decoded.None? || |decoded.value| == 0 {
      return;
    }
    var ps := decoded.value;
    var args := DecodeObject(argsJSON);
    var out: HeaderMap := map[];
    var todo := ps.Keys;
    while todo != {}
      invariant todo <= ps.Keys
      invariant headers == OrNil(out)
      invariant Projection(ps, args, huge, ps.Keys - todo, out)
    {
      var prop :| prop in todo;
      ghost var done := ps.Keys - todo;
      todo := todo - {prop};
      assert ps.Keys - todo == done + {prop};
      if ps[prop].None? { continue; }
      var name := DecodeString(ps[prop].value);
      if name == "" { continue; }
      if prop !in args || args[prop] == Null { continue; }
      var encoded := EncodeValue(args[prop], huge);
      if encoded.None? { continue; }
      ProjectOne(ps, args, huge, done, out, prop, PARAM_PREFIX + name, encoded.value);
      out := out[PARAM_PREFIX + name := encoded.value];
      assert PARAM_PREFIX + name in out;
      headers := Some(out);
    }
    assert ps.Keys - todo == ps.Keys;
  }

  // Only a cached definition is looked at: nothing is fetched for the headers' sake.
  method ParamHeadersForCall(cs: CatalogSet, tenant: string, tool: string, args: Option<Json>,
                             huge: real -> Option<string>, ghost known: Known)
    returns (headers: Option<HeaderMap>)
    requires cs.Holds(known)
    ensures match LookUp(known, tenant, tool)
            case Found(def) =>
              var ps := AnnotationsOf(def);
              Projection(ps, DecodeObject(args), huge, ps.Keys, if headers.Some? then headers.value else map[])
            case _ => headers.None?
  {
    var r := cs.CachedTool(tenant, tool, known);
    if !r.Found? {
      return None;
    }
    headers := ParamHeadersForTool(r.tool.fields, args, huge);
  }

  lemma {:induction false} ProjectOne(ps: map<string, Option<Json>>, args: map<string, Json>,
                                      huge: real -> Option<string>,
                                      done: set<string>, headers: HeaderMap, prop: string, h: string, v: string)
    requires Projection(ps, args, huge, done, headers) && Projects(ps, args, huge, prop, h, v)
    ensures Projection(ps, args, huge, done + {prop}, headers[h := v])
  {
    var more := headers[h := v];
    forall g | g in more
      ensures exists p :: p in done + {prop} && Projects(ps, args, huge, p, g, more[g])
    {
      if g == h {
        assert prop in done + {prop};
      } else {
        var p :| p in done && Projects(ps, args, huge, p, g, headers[g]);
        assert p in done + {prop};
      }
    }
  }

  // ---- what the schema itself says ----

  // The property schemas a tool's inputSchema lists.
  function PropertySchemas(tool: ToolDef): map<string, Json> {
    DecodeObject(Field(DecodeObject(Field(tool, "inputSchema")), "properties"))
  }

  predicate IsAnnotated(schema: Json) {
    schema.Obj? && "x-mcp-header" in schema.fields
  }

  // The decoder finds every annotation of the schema, and no others.
  ghost predicate AnnotationsFound(tool: ToolDef) {
    var ps := PropertySchemas(tool);
    && (forall k :: k in ps && IsAnnotated(ps[k]) ==>
          k in AnnotationsOf(tool) && AnnotationsOf(tool)[k] == Some(ps[k].fields["x-mcp-header"]))
    && (forall k :: k in AnnotationsOf(tool) && AnnotationsOf(tool)[k].Some? ==> k in ps && IsAnnotated(ps[k]))
  }

  ghost predicate AllDecodable(ps: map<string, Json>) {
    forall k :: k in ps ==> ps[k].Obj? || ps[k].Null?
  }

  // A single property schema that is neither an object nor null loses every
  // annotation there is; short of that none is lost.
  lemma {:induction false} AnnotationsFoundExactly(tool: ToolDef)
    ensures var ps := PropertySchemas(tool);
            AnnotationsFound(tool) <==> AllDecodable(ps) || forall k :: k in ps ==> !IsAnnotated(ps[k])
  {
    var ps := PropertySchemas(tool);
    if !AllDecodable(ps) {
      assert AnnotationsOf(tool) == map[];
    }
  }

  // A tool like that: "owner" is annotated, "any" accepts everything, and no call
  // projects a header.
  lemma {:induction false} BooleanSchemaLosesAnnotations(schema: map<string, Json>, huge: real -> Option<string>,
                                                         args: map<string, Json>, headers: HeaderMap)
    requires "x-mcp-header" in schema
    ensures var tool := map["inputSchema" := Obj(map["properties" :=
            Obj(map["owner" := Obj(schema), "any" := Bool(true)])])];
            && IsAnnotated(PropertySchemas(tool)["owner"])
            && AnnotationsOf(tool) == map[]
            && (Projection(AnnotationsOf(tool), args, huge, AnnotationsOf(tool).Keys, headers) ==> headers == map[])
  {
    var ps := map["owner" := Obj(schema), "any" := Bool(true)];
    assert "any" in ps && ps["any"] == Bool(true);
  }

  // The header name that a property's schema gives it, "" for none.
  function HeaderNameOf(schema: Json): string {
    if IsAnnotated(schema) then DecodeString(schema.fields["x-mcp-header"]) else ""
  }

  // With its header name given to no other property, a property that the schema
  // annotates yields an Mcp-Param header exactly when the call has a value for it that
  // renders, unless one of the property schemas does not decode: then never.
  lemma {:induction false} ParamHeadersExact(tool: ToolDef, args: map<string, Json>, huge: real -> Option<string>,
                                             headers: HeaderMap, prop: string)
    requires Projection(AnnotationsOf(tool), args, huge, AnnotationsOf(tool).Keys, headers)
    requires var ps := PropertySchemas(tool);
             && prop in ps && HeaderNameOf(ps[prop]) != ""
             && forall p :: p in ps && HeaderNameOf(ps[p]) == HeaderNameOf(ps[prop]) ==> p == prop
    ensures var ps := PropertySchemas(tool);
            Field(headers, "Mcp-Param-" + HeaderNameOf(ps[prop]))
            == if AllDecodable(ps) && prop in args && args[prop] != Null then EncodeValue(args[prop], huge) else None
  {
    var ps := PropertySchemas(tool);
    AnnotationsFoundExactly(tool);
    if AllDecodable(ps) {
      AnnotationProjects(tool, args, huge, headers, prop);
    } else {
      assert AnnotationsOf(tool) == map[];
    }
  }

  lemma {:induction false} AnnotationProjects(tool: ToolDef, args: map<string, Json>, huge: real -> Option<string>,
                                              headers: HeaderMap, prop: string)
    requires Projection(AnnotationsOf(tool), args, huge, AnnotationsOf(tool).Keys, headers) && AnnotationsFound(tool)
    requires var ps := PropertySchemas(tool);
             && prop in ps && HeaderNameOf(ps[prop]) != ""
             && forall p :: p in ps && HeaderNameOf(ps[p]) == HeaderNameOf(ps[prop]) ==> p == prop
    ensures var ps := PropertySchemas(tool);
            Field(headers, "Mcp-Param-" + HeaderNameOf(ps[prop]))
            == if prop in args && args[prop] != Null then EncodeValue(args[prop], huge) else None
  {
    var ps, found := PropertySchemas(tool), AnnotationsOf(tool);
    var h := PARAM_PREFIX + HeaderNameOf(ps[prop]);
    if h in headers {
      var p :| p in found.Keys && Projects(found, args, huge, p, h, headers[h]);
      assert found[p] == Some(ps[p].fields["x-mcp-header"]);
      assert HeaderNameOf(ps[p]) == h[|PARAM_PREFIX|..] == HeaderNameOf(ps[prop]);
    } else if prop in args && args[prop] != Null && EncodeValue(args[prop], huge).Some? {
      assert Projects(found, args, huge, prop, h, EncodeValue(args[prop], huge).value);
    }
  }

  // A projected header reaches the backend as computed, over any tenant, backend or
  // credential header of the same name, if the merged map spells its name one way.
  lemma {:induction false} ParamHeaderOnTheWire(tenantHeaders: HeaderMap, params: HeaderMap, h: string,
                                                b: TenantRegistry.Backend,
                                                credential: string, base: HeaderMap, result: HeaderMap)
    requires h in params && Unambiguous(tenantHeaders + params)
    requires Layered(base, b, credential, Merged([tenantHeaders, params]), result)
    ensures Field(result, Canon(h)) == Some(params[h])
  {
    var merged := Merged([tenantHeaders, params]);
    assert [tenantHeaders, params][..1] == [tenantHeaders] && [tenantHeaders][..0] == [];
    assert Merged([tenantHeaders]) == tenantHeaders;
    assert merged == tenantHeaders + params;
    assert h in merged && (Canon(h), merged[h]) in Pairs(merged);
    LastLayerWins(base, b, credential, merged, result, Canon(h));
    var k :| k in merged && (Canon(k), merged[k]) == (Canon(h), result[Canon(h)]);
  }
}
