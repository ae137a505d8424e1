// Header names, header layering and the headers of one backend request
// (internal/proxy/client.go, mergeHeaders in internal/proxy/paramheaders.go).
module Headers {
  import opened Wrappers
  import opened Configuration
  import opened TenantRegistry

  // ---- http.CanonicalHeaderKey ----

  predicate IsLower(c: char) { 'a' <= c <= 'z' }

  predicate IsUpper(c: char) { 'A' <= c <= 'Z' }

  predicate IsTokenChar(c: char) {
    IsLower(c) || IsUpper(c) || '0' <= c <= '9' || c in "!#$%&'*+-.^_`|~"
  }

  function CanonChar(c: char, upper: bool): char {
    if upper && IsLower(c) then c - 32 as char
    else if !upper && IsUpper(c) then c + 32 as char
    else c
  }

  function CanonFrom(s: string, upper: bool): (r: string)
    ensures |r| == |s|
  {
    if s == [] then [] else [CanonChar(s[0], upper)] + CanonFrom(s[1..], s[0] == '-')
  }

  // A name that is not a token is left alone.
  function Canon(s: string): (r: string)
    ensures |r| == |s|
  {
    if forall i :: 0 <= i < |s| ==> IsTokenChar(s[i]) then CanonFrom(s, true) else s
  }

  // Canonical spelling changes letters only.
  lemma {:induction false} CanonFromKeeps(s: string, upper: bool, c: char)
    requires c !in s && !IsLower(c) && !IsUpper(c)
    ensures c !in CanonFrom(s, upper)
  {
    if s != [] {
      assert s[0] in s;
      forall d | d in s[1..] ensures d in s {
      }
      CanonFromKeeps(s[1..], s[0] == '-', c);
    }
  }

  // r is c in the case its place asks for.
  ghost predicate RightCase(c: char, first: bool, r: char) {
    if first && 'a' <= c <= 'z' then r as int == c as int - 32
    else if !first && 'A' <= c <= 'Z' then r as int == c as int + 32
    else r == c
  }

  lemma {:induction false} CanonFromMeans(s: string, upper: bool, i: nat)
    requires i < |s|
    ensures RightCase(s[i], if i == 0 then upper else s[i - 1] == '-', CanonFrom(s, upper)[i])
  {
    if i > 0 {
      CanonFromMeans(s[1..], s[0] == '-', i - 1);
    }
  }

  // A token has a capital at the start and after each hyphen and small letters
  // elsewhere; anything else stays as it is.
  lemma {:induction false} CanonMeans(s: string)
    ensures if forall c :: c in s ==> IsTokenChar(c)
            then forall i :: 0 <= i < |s| ==> RightCase(s[i], i == 0 || s[i - 1] == '-', Canon(s)[i])
            else Canon(s) == s
  {
    if forall c :: c in s ==> IsTokenChar(c) {
      forall i | 0 <= i < |s| ensures RightCase(s[i], i == 0 || s[i - 1] == '-', Canon(s)[i]) {
        CanonFromMeans(s, true, i);
      }
    } else {
      var c :| c in s && !IsTokenChar(c);
      var i :| 0 <= i < |s| && s[i] == c;
    }
  }

  // ---- layers of header definitions ----

  type HeaderMap = map<string, string>

  ghost predicate Defines(layer: HeaderMap, c: string) {
    exists k :: k in layer && Canon(k) == c
  }

  // The canonical (name, value) pairs a layer defines.
  ghost function Pairs(layer: HeaderMap): set<(string, string)> {
    set k | k in layer :: (Canon(k), layer[k])
  }

  // result is base with the layer's headers set, in some order.
  ghost predicate Overlay(base: HeaderMap, layer: HeaderMap, result: HeaderMap) {
    forall c :: OverlayAt(base, layer, result, c)
  }

  ghost predicate OverlayAt(base: HeaderMap, layer: HeaderMap, result: HeaderMap, c: string) {
    if Defines(layer, c) then c in result && (c, result[c]) in Pairs(layer)
    else Field(result, c) == Field(base, c)
  }

  // No two spellings of one name with different values.
  ghost predicate Unambiguous(layer: HeaderMap) {
    forall k, l :: k in layer && l in layer && Canon(k) == Canon(l) ==> layer[k] == layer[l]
  }

  ghost predicate OrderIndependent(layer: HeaderMap) {
    forall base, a, b :: Overlay(base, layer, a) && Overlay(base, layer, b) ==> a == b
  }

  // What the headers are does not depend on the map's iteration order exactly when
  // the layer does not give one name two values.
  lemma {:induction false} OverlayOrder(layer: HeaderMap)
    ensures OrderIndependent(layer) <==> Unambiguous(layer)
  {
    if Unambiguous(layer) {
      forall base, a, b | Overlay(base, layer, a) && Overlay(base, layer, b) ensures a == b {
        forall c ensures Field(a, c) == Field(b, c) {
          SameAt(base, layer, a, b, c);
        }
        FieldsDetermine(a, b);
      }
    } else {
      var k, l :| k in layer && l in layer && Canon(k) == Canon(l) && layer[k] != layer[l];
      var any := AnyOverlay(map[], layer);
      EitherValue(layer, any, k);
      EitherValue(layer, any, l);
      var a, b := any[Canon(k) := layer[k]], any[Canon(l) := layer[l]];
      assert a[Canon(k)] != b[Canon(k)];
      assert Overlay(map[], layer, a) && Overlay(map[], layer, b);
    }
  }

  lemma {:induction false} SameAt(base: HeaderMap, layer: HeaderMap, a: HeaderMap, b: HeaderMap, c: string)
    requires Unambiguous(layer) && Overlay(base, layer, a) && Overlay(base, layer, b)
    ensures Field(a, c) == Field(b, c)
  {
    assert OverlayAt(base, layer, a, c) && OverlayAt(base, layer, b, c);
  }

  lemma {:induction false} EitherValue(layer: HeaderMap, any: HeaderMap, k: string)
    requires Overlay(map[], layer, any) && k in layer
    ensures Overlay(map[], layer, any[Canon(k) := layer[k]])
  {
    var r := any[Canon(k) := layer[k]];
    assert (Canon(k), layer[k]) in Pairs(layer);
    forall c ensures OverlayAt(map[], layer, r, c) {
      assert OverlayAt(map[], layer, any, c);
    }
  }

  lemma {:induction false} FieldsDetermine(a: HeaderMap, b: HeaderMap)
    requires forall c :: Field(a, c) == Field(b, c)
    ensures a == b
  {
    forall c ensures (c in a <==> c in b) && (c in a ==> a[c] == b[c]) {
      assert Field(a, c) == Field(b, c);
    }
  }

  lemma {:induction false} AnyOverlay(base: HeaderMap, layer: HeaderMap) returns (result: HeaderMap)
    ensures Overlay(base, layer, result)
    decreases |layer|
  {
    if layer == map[] {
      result := base;
    } else {
      var k :| k in layer;
      var rest := layer - {k};
      var r := AnyOverlay(base, rest);
      OverlayStep(base, rest, r, k, layer[k]);
      assert rest[k := layer[k]] == layer;
      result := r[Canon(k) := layer[k]];
    }
  }

  lemma {:induction false} OverlayStep(base: HeaderMap, done: HeaderMap, r: HeaderMap, k: string, v: string)
    requires Overlay(base, done, r) && k !in done
    ensures Overlay(base, done[k := v], r[Canon(k) := v])
  {
    var more, r' := done[k := v], r[Canon(k) := v];
    assert (Canon(k), more[k]) in Pairs(more);
    forall c ensures OverlayAt(base, more, r', c) {
      assert OverlayAt(base, done, r, c);
      if c != Canon(k) {
        if Defines(done, c) {
          var l :| l in done && Canon(l) == c;
          assert l in more;
          var m :| m in done && (Canon(m), done[m]) == (c, r[c]);
          assert m in more && (Canon(m), more[m]) == (c, r[c]);
        }
        if l :| l in more && Canon(l) == c {
          assert l in done;
        }
      }
    }
  }

  // Layers that define the same canonical pairs have the same effect.
  lemma {:induction false} SamePairsSameOverlay(base: HeaderMap, a: HeaderMap, b: HeaderMap, result: HeaderMap)
    requires Pairs(a) == Pairs(b)
    ensures Overlay(base, a, result) <==> Overlay(base, b, result)
  {
    forall c ensures Defines(a, c) <==> Defines(b, c) {
      if k :| k in a && Canon(k) == c {
        assert (c, a[k]) in Pairs(b);
      }
      if k :| k in b && Canon(k) == c {
        assert (c, b[k]) in Pairs(a);
      }
    }
    forall c ensures OverlayAt(base, a, result, c) <==> OverlayAt(base, b, result, c) {
      assert Defines(a, c) <==> Defines(b, c);
    }
    assert Overlay(base, a, result) ==> forall c :: OverlayAt(base, b, result, c);
    assert Overlay(base, b, result) ==> forall c :: OverlayAt(base, a, result, c);
  }

  // ---- requests ----

  class Header {
    var h: HeaderMap

    constructor ()
      ensures h == map[]
    {
      h := map[];
    }

    method Set(k: string, v: string)
      modifies this
      ensures h == old(h)[Canon(k) := v]
    {
      h := h[Canon(k) := v];
    }

    method SetAll(layer: HeaderMap)
      modifies this
      ensures Overlay(old(h), layer, h)
    {
      var todo := layer.Keys;
      ghost var done: HeaderMap := map[];
      while todo != {}
        invariant todo <= layer.Keys
        invariant done == map k | k in layer && k !in todo :: layer[k]
        invariant Overlay(old(h), done, h)
      {
        var k :| k in todo;
        OverlayStep(old(h), done, h, k, layer[k]);
        todo := todo - {k};
        Set(k, layer[k]);
        done := done[k := layer[k]];
      }
      assert done == layer;
    }

    // The credential, then the backend's headers, then the request's own.
    method ApplyAuth(b: Backend, credential: string, extra: HeaderMap)
      modifies this
      ensures Layered(old(h), b, credential, extra, h)
    {
      if credential != "" {
        var value := credential;
        if b.credentialScheme != "" {
          value := b.credentialScheme + " " + credential;
        }
        Set(b.credentialHeader, value);
      }
      SetAll(b.headers);
      SetAll(extra);
    }
  }

  function CredentialValue(b: Backend, credential: string): string {
    if b.credentialScheme != "" then b.credentialScheme + " " + credential else credential
  }

  function WithCredential(base: HeaderMap, b: Backend, credential: string): HeaderMap {
    if credential != "" then base[Canon(b.credentialHeader) := CredentialValue(b, credential)] else base
  }

  ghost predicate Layered(base: HeaderMap, b: Backend, credential: string, extra: HeaderMap, result: HeaderMap) {
    exists mid :: Overlay(WithCredential(base, b, credential), b.headers, mid) && Overlay(mid, extra, result)
  }

  // Each header comes from the last layer that defines it.
  lemma {:induction false} LastLayerWins(base: HeaderMap, b: Backend, credential: string, extra: HeaderMap,
                                         result: HeaderMap, c: string)
    requires Layered(base, b, credential, extra, result)
    ensures
      if Defines(extra, c) then c in result && (c, result[c]) in Pairs(extra)
      else if Defines(b.headers, c) then c in result && (c, result[c]) in Pairs(b.headers)
      else if credential != "" && c == Canon(b.credentialHeader) then
        && (b.credentialScheme == "" ==> Field(result, c) == Some(credential))
        && (b.credentialScheme != "" ==> Field(result, c) == Some(b.credentialScheme + " " + credential))
      else Field(result, c) == Field(base, c)
  {
    var mid :| Overlay(WithCredential(base, b, credential), b.headers, mid) && Overlay(mid, extra, result);
    assert OverlayAt(mid, extra, result, c) && OverlayAt(WithCredential(base, b, credential), b.headers, mid, c);
  }

  // With unambiguous layers the request's headers are determined.
  lemma {:induction false} LayersDetermine(base: HeaderMap, b: Backend, credential: string, extra: HeaderMap,
                                           r1: HeaderMap, r2: HeaderMap)
    requires Unambiguous(b.headers) && Unambiguous(extra)
    requires Layered(base, b, credential, extra, r1) && Layered(base, b, credential, extra, r2)
    ensures r1 == r2
  {
    OverlayOrder(b.headers);
    OverlayOrder(extra);
  }

  // The headers post sets before applyAuth.
  function Fixed(b: Backend, sessionID: string, mcpMethod: string, mcpName: string): HeaderMap {
    var h := map[Canon("Content-Type") := "application/json"][Canon("Accept") := "application/json, text/event-stream"];
    if b.Stateless() then
      var h1 := h[Canon("MCP-Protocol-Version") := STATELESS];
      var h2 := if mcpMethod != "" then h1[Canon("Mcp-Method") := mcpMethod] else h1;
      if mcpName != "" then h2[Canon("Mcp-Name") := mcpName] else h2
    else if sessionID != "" then h[Canon(SESSION_ID) := sessionID]
    else h
  }

  const SESSION_ID := "Mcp-Session-Id"

  // The headers that depend on no configuration, name by name.
  ghost predicate RightlyFixed(b: Backend, sessionID: string, mcpMethod: string, mcpName: string, h: HeaderMap) {
    var stateless := b.protocolVersion == "2026-07-28";
    && Field(h, Canon("Content-Type")) == Some("application/json")
    && Field(h, Canon("Accept")) == Some("application/json, text/event-stream")
    && Field(h, Canon("MCP-Protocol-Version")) == (if stateless then Some("2026-07-28") else None)
    && Field(h, Canon("Mcp-Method")) == (if stateless && mcpMethod != "" then Some(mcpMethod) else None)
    && Field(h, Canon("Mcp-Name")) == (if stateless && mcpName != "" then Some(mcpName) else None)
    && Field(h, Canon("Mcp-Session-Id")) == (if stateless || sessionID == "" then None else Some(sessionID))
  }

  lemma {:induction false} OtherLength(a: string, b: string)
    requires |a| != |b|
    ensures Canon(a) != Canon(b)
  {
  }

  lemma {:induction false} FixedNamesDiffer()
    ensures Canon("Content-Type") !in {Canon("Accept"), Canon("MCP-Protocol-Version"), Canon("Mcp-Method"),
                                       Canon("Mcp-Name"), Canon("Mcp-Session-Id")}
    ensures Canon("Accept") !in {Canon("MCP-Protocol-Version"), Canon("Mcp-Method"), Canon("Mcp-Name"),
                                 Canon("Mcp-Session-Id")}
    ensures Canon("MCP-Protocol-Version") !in {Canon("Mcp-Method"), Canon("Mcp-Name"), Canon("Mcp-Session-Id")}
    ensures Canon("Mcp-Method") !in {Canon("Mcp-Name"), Canon("Mcp-Session-Id")}
    ensures Canon("Mcp-Name") != Canon("Mcp-Session-Id")
  {
    hide Canon;
    var ct, ac, pv, me, na, si := "Content-Type", "Accept", "MCP-Protocol-Version", "Mcp-Method", "Mcp-Name",
        "Mcp-Session-Id";
    OtherLength(ct, ac); OtherLength(ct, pv); OtherLength(ct, me); OtherLength(ct, na); OtherLength(ct, si);
    OtherLength(ac, pv); OtherLength(ac, me); OtherLength(ac, na); OtherLength(ac, si);
    OtherLength(pv, me); OtherLength(pv, na); OtherLength(pv, si);
    OtherLength(me, na); OtherLength(me, si);
    OtherLength(na, si);
  }

  lemma {:induction false} FixedIsRight(b: Backend, sessionID: string, mcpMethod: string, mcpName: string)
    ensures RightlyFixed(b, sessionID, mcpMethod, mcpName, Fixed(b, sessionID, mcpMethod, mcpName))
  {
    FixedNamesDiffer();
    hide Canon;
  }

  method PostHeaders(b: Backend, sessionID: string, credential: string, extra: HeaderMap, mcpMethod: string,
                     mcpName: string)
    returns (result: HeaderMap)
    ensures Layered(Fixed(b, sessionID, mcpMethod, mcpName), b, credential, extra, result)
    ensures exists base ::
              RightlyFixed(b, sessionID, mcpMethod, mcpName, base) && Layered(base, b, credential, extra, result)
  {
    FixedIsRight(b, sessionID, mcpMethod, mcpName);
    hide RightlyFixed;
    var req := new Header();
    req.Set("Content-Type", "application/json");
    req.Set("Accept", "application/json, text/event-stream");
    if b.Stateless() {
      req.Set("MCP-Protocol-Version", STATELESS);
      if mcpMethod != "" {
        req.Set("Mcp-Method", mcpMethod);
      }
      if mcpName != "" {
        req.Set("Mcp-Name", mcpName);
      }
    } else if sessionID != "" {
      req.Set(SESSION_ID, sessionID);
    }
    req.ApplyAuth(b, credential, extra);
    result := req.h;
  }

  // Unless the configuration defines it itself, the session header a backend sees is
  // the session id of the call, and a stateless backend sees none.
  lemma {:induction false} SessionHeaderOnTheWire(b: Backend, sessionID: string, credential: string, extra: HeaderMap,
                                                  mcpMethod: string, mcpName: string, result: HeaderMap)
    requires Layered(Fixed(b, sessionID, mcpMethod, mcpName), b, credential, extra, result)
    requires !Defines(extra, Canon(SESSION_ID)) && !Defines(b.headers, Canon(SESSION_ID))
    requires credential != "" ==> Canon(b.credentialHeader) != Canon(SESSION_ID)
    ensures Field(result, Canon(SESSION_ID))
            == if b.protocolVersion == "2026-07-28" || sessionID == "" then None else Some(sessionID)
  {
    hide Canon, Fixed;
    FixedIsRight(b, sessionID, mcpMethod, mcpName);
    LastLayerWins(Fixed(b, sessionID, mcpMethod, mcpName), b, credential, extra, result, Canon(SESSION_ID));
  }

  // ---- mergeHeaders ----

  function Merged(maps: seq<HeaderMap>): HeaderMap {
    if maps == [] then map[] else Merged(maps[..|maps| - 1]) + maps[|maps| - 1]
  }

  function OrNil(m: HeaderMap): Option<HeaderMap> {
    if m == map[] then None else Some(m)
  }

  // The value of each name is that of the last map that has it.
  lemma {:induction false} MergedMeans(maps: seq<HeaderMap>, k: string)
    ensures k in Merged(maps) <==> exists i :: 0 <= i < |maps| && k in maps[i]
    ensures k in Merged(maps) ==> exists i :: 0 <= i < |maps| && k in maps[i] && Merged(maps)[k] == maps[i][k]
                                              && forall j :: i < j < |maps| ==> k !in maps[j]
  {
    if maps != [] {
      var n := |maps| - 1;
      MergedMeans(maps[..n], k);
      assert forall i :: 0 <= i < n ==> maps[..n][i] == maps[i];
      if k !in maps[n] && k in Merged(maps) {
        var i :| 0 <= i < n && k in maps[..n][i] && Merged(maps[..n])[k] == maps[..n][i][k]
                 && forall j :: i < j < n ==> k !in maps[..n][j];
        assert k in maps[i] && forall j :: i < j < |maps| ==> k !in maps[j];
      }
    }
  }

  // Later maps win on exactly equal names; nil when nothing is defined.
  method MergeHeaders(maps: seq<HeaderMap>) returns (out: Option<HeaderMap>)
    ensures out == OrNil(Merged(maps))
  {
    out := None;
    for i := 0 to |maps|
      invariant out == OrNil(Merged(maps[..i]))
    {
      var todo := maps[i].Keys;
      ghost var done: HeaderMap := map[];
      ghost var before := Merged(maps[..i]);
      assert before + done == before;
      while todo != {}
        invariant todo <= maps[i].Keys
        invariant done == map k | k in maps[i] && k !in todo :: maps[i][k]
        invariant out == OrNil(before + done)
      {
        var k :| k in todo;
        todo := todo - {k};
        if out.None? {
          out := Some(map[]);
        }
        out := Some(out.value[k := maps[i][k]]);
        assert (before + done)[k := maps[i][k]] == before + done[k := maps[i][k]];
        assert k in before + done[k := maps[i][k]];
        done := done[k := maps[i][k]];
      }
      assert done == maps[i] && maps[..i + 1][..i] == maps[..i];
    }
    assert maps[..|maps|] == maps;
  }
}
