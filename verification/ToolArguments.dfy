// Rewriting of tools/call params (internal/proxy/schema.go, and callTool in
// internal/proxy/client.go).
module ToolArguments {
  import opened Wrappers
  import opened JsonTree
  import opened ToolSchema

  const ARGUMENTS := "arguments"
  const META := "_meta"

  // The "_meta" value a stateless backend expects in every request.
  const CLIENT_META := Obj(map[
    "io.modelcontextprotocol/protocolVersion" := Str("2026-07-28"),
    "io.modelcontextprotocol/clientInfo" := Obj(map["name" := Str("mt-mcp-proxy"), "version" := Str("0")]),
    "io.modelcontextprotocol/clientCapabilities" := Obj(map[])])

  datatype ParamError = NotAnObject | ArgumentsNotAnObject

  // The tenant argument of a call, "" when it is absent or not a string.
  function ExtractTenantArg(args: Option<Json>): string {
    var m := DecodeObject(args);
    if TENANT in m then DecodeString(m[TENANT]) else ""
  }

  function ArgumentsOf(params: Json): Option<Json> {
    Field(DecodeObject(Some(params)), ARGUMENTS)
  }

  // Null decodes to an empty object; any other non-object is an error.
  predicate Decodable(v: Json) { v.Obj? || v.Null? }

  function Stripped(params: Json): Result<Json, ParamError> {
    if !Decodable(params) then Err(NotAnObject)
    else
      var args := ArgumentsOf(params);
      if args.Some? && !Decodable(args.value) then Err(ArgumentsNotAnObject)
      else if args.Some? && TENANT in DecodeObject(args)
        then Ok(Obj(params.fields[ARGUMENTS := WithoutTenant(args.value)]))
      else Ok(params)
  }

  // What stripping does: params and arguments must each be an object or null; the tenant
  // goes, and nothing else.
  ghost predicate RightlyStripped(params: Json, r: Result<Json, ParamError>) {
    if !params.Obj? && !params.Null? then r == Err(NotAnObject)
    else if params.Null? || "arguments" !in params.fields then r == Ok(params)
    else
      var args := params.fields["arguments"];
      if !args.Obj? && !args.Null? then r == Err(ArgumentsNotAnObject)
      else if args.Null? || "tenant" !in args.fields then r == Ok(params)
      else
        && r.Ok? && r.value.Obj? && SameBut(params.fields, r.value.fields, {"arguments"})
        && "arguments" in r.value.fields && r.value.fields["arguments"].Obj?
        && var left := r.value.fields["arguments"].fields;
           "tenant" !in left && SameBut(args.fields, left, {"tenant"})
  }

  lemma {:induction false} StripIsRight(params: Json)
    ensures RightlyStripped(params, Stripped(params))
  {
  }

  // The tenant a call names.
  lemma {:induction false} ExtractMeans(args: Option<Json>, id: string)
    requires id != ""
    ensures ExtractTenantArg(args) == id
            <==> args.Some? && args.value.Obj?
                 && "tenant" in args.value.fields && args.value.fields["tenant"] == Str(id)
  {
  }

  method StripTenantArg(params: Json) returns (r: Result<Json, ParamError>)
    ensures r == Stripped(params)
    ensures RightlyStripped(params, r)
  {
    StripIsRight(params);
    if !Decodable(params) {
      return Err(NotAnObject);
    }
    var p := DecodeObject(Some(params));
    if ARGUMENTS !in p {
      return Ok(params);
    }
    if !Decodable(p[ARGUMENTS]) {
      return Err(ArgumentsNotAnObject);
    }
    var args := DecodeObject(Some(p[ARGUMENTS]));
    if TENANT !in args {
      return Ok(params);
    }
    args := args - {TENANT};
    p := p[ARGUMENTS := Obj(args)];
    return Ok(Obj(p));
  }

  // Decoding null makes the Go map nil, and writing to a nil map panics: None. Params
  // that are neither an object nor null decode to nothing, and their error is ignored.
  function WithMeta(params: Option<Json>): Option<Json> {
    if params == Some(Null) then None else Some(Obj(DecodeObject(params)[META := CLIENT_META]))
  }

  method InjectMeta(params: Option<Json>) returns (r: Option<Json>)
    ensures r == WithMeta(params)
    ensures r == None <==> params == Some(Null)
    ensures r.Some? ==>
              && r.value.Obj? && Field(r.value.fields, "_meta") == Some(CLIENT_META)
              && SameBut(DecodeObject(params), r.value.fields, {"_meta"})
  {
    var p: Option<map<string, Json>> := Some(map[]);
    if params.Some? {
      if params.value.Null? {
        p := None;
      } else if params.value.Obj? {
        p := Some(params.value.fields);
      }
    }
    if p.None? {
      return None;
    }
    return Some(Obj(p.value[META := CLIENT_META]));
  }

  // The params a backend receives for a call whose stripped params are `clean`, None
  // for a panic.
  function Forwarded(stateless: bool, clean: Json): Option<Json> {
    if stateless then WithMeta(Some(clean)) else Some(clean)
  }

  // Stripping removes the tenant argument and nothing else, and has nothing left
  // to do afterwards.
  lemma {:induction false} StripLaws(params: Json)
    requires Stripped(params).Ok?
    ensures var q := Stripped(params).value;
            && ExtractTenantArg(ArgumentsOf(q)) == ""
            && TENANT !in DecodeObject(ArgumentsOf(q))
            && SameBut(DecodeObject(ArgumentsOf(params)), DecodeObject(ArgumentsOf(q)), {TENANT})
            && SameBut(DecodeObject(Some(params)), DecodeObject(Some(q)), {ARGUMENTS})
            && Stripped(q) == Ok(q)
  {
  }

  // Stripping undoes adding a tenant to arguments that had none.
  lemma {:induction false} StripUndoesAdding(p: map<string, Json>, args: map<string, Json>, tenant: Json)
    requires ARGUMENTS in p && p[ARGUMENTS] == Obj(args) && TENANT !in args
    ensures Stripped(Obj(p[ARGUMENTS := Obj(args[TENANT := tenant])])) == Ok(Obj(p))
  {
    var added := p[ARGUMENTS := Obj(args[TENANT := tenant])];
    assert args[TENANT := tenant] - {TENANT} == args;
    assert added[ARGUMENTS := Obj(args)] == p;
  }

  // Stripping and adding the client metadata can be done in either order.
  lemma {:induction false} StripCommutesWithMeta(p: map<string, Json>)
    ensures WithMeta(Some(Obj(p))).Some?
    ensures var s, m := Stripped(Obj(p)), Stripped(WithMeta(Some(Obj(p))).value);
            && (s.Ok? <==> m.Ok?)
            && (s.Ok? ==> WithMeta(Some(s.value)) == Some(m.value))
  {
    assert ARGUMENTS != META;
    var q := p[META := CLIENT_META];
    assert ArgumentsOf(Obj(q)) == ArgumentsOf(Obj(p));
    var args := ArgumentsOf(Obj(p));
    if args.Some? && TENANT in DecodeObject(args) {
      assert p[ARGUMENTS := WithoutTenant(args.value)][META := CLIENT_META]
             == q[ARGUMENTS := WithoutTenant(args.value)];
    }
  }

  // The stateful and the stateless forward of one call differ only in "_meta".
  lemma {:induction false} ForwardsDifferOnlyInMeta(p: map<string, Json>)
    requires Stripped(Obj(p)).Ok?
    ensures var clean := Stripped(Obj(p)).value;
            && clean.Obj? && Forwarded(false, clean) == Some(clean)
            && Forwarded(true, clean).Some? && Forwarded(true, clean).value.Obj?
            && SameBut(clean.fields, Forwarded(true, clean).value.fields, {META})
            && Field(Forwarded(true, clean).value.fields, META) == Some(CLIENT_META)
  {
  }
}
