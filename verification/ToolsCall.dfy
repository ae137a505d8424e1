// A tools/call from its params to its answer or its forward (handleToolsCall in
// internal/proxy/handler.go), for a caller whose groups are verified.
module ToolsCall {
  import opened Wrappers
  import opened JsonTree
  import opened TenantRegistry
  import opened ToolSchema
  import opened ToolArguments
  import opened TenantCatalogs
  import opened Selection

  datatype Answer =
    | InvalidParams
    | Instances(tenants: seq<Tenant>)
    | ToolError(why: Refusal)
    | InvalidArguments
    | Forward(tenant: Tenant, params: Json)

  // The tool a call names, None when the params do not decode.
  function CallName(params: Option<Json>): Option<string> {
    if params.None? || !Decodable(params.value) then None
    else
      var p := DecodeObject(params);
      if "name" in p && !p["name"].Str? && !p["name"].Null? then None else Some(NameOf(p))
  }

  ghost function Answered(reg: Registry, known: Known, params: Option<Json>, groups: seq<string>,
                          authorized: seq<Tenant>): Answer {
    match CallName(params)
    case None => InvalidParams
    case Some(name) =>
      if name == LIST_INSTANCES then Instances(authorized)
      else
        match Select(reg, known, name, ArgumentsOf(params.value), groups, authorized)
        case Refused(why) => ToolError(why)
        case Chosen(t) => if Stripped(params.value).Ok? then Forward(t, Stripped(params.value).value)
            else InvalidArguments
  }

  // ---- the answer in plain terms ----

  ghost predicate Unreadable(params: Option<Json>) {
    || params.None?
    || (!params.value.Obj? && !params.value.Null?)
    || (params.value.Obj? && "name" in params.value.fields
        && !params.value.fields["name"].Str? && !params.value.fields["name"].Null?)
  }

  // The tool that readable params name, "" when they name none.
  ghost predicate NamesTool(params: Json, tool: string) {
    if params.Obj? && "name" in params.fields && params.fields["name"].Str? then params.fields["name"] == Str(tool)
    else tool == ""
  }

  // What comes of a selection and of stripping the params.
  ghost predicate Follows(sel: Selected, stripped: Result<Json, ParamError>, a: Answer) {
    match sel
    case Refused(why) => a == ToolError(why)
    case Chosen(t) => a == if stripped.Ok? then Forward(t, stripped.value) else InvalidArguments
  }

  ghost predicate RightlyAnswered(reg: Registry, known: Known, params: Option<Json>, groups: seq<string>, a: Answer) {
    if Unreadable(params) then a == InvalidParams
    else if NamesTool(params.value, "list_instances") then a.Instances? && IsAuthorizedList(reg, groups, a.tenants)
    else
      var args := if params.value.Obj? && "arguments" in params.value.fields then Some(params.value.fields["arguments"])
                  else None;
      exists tool, sel, stripped ::
        NamesTool(params.value, tool) && RightlySelected(reg, known, tool, args, groups, sel)
        && RightlyStripped(params.value, stripped) && Follows(sel, stripped, a)
  }

  lemma {:induction false} AnswerIsRight(reg: Registry, known: Known, params: Option<Json>, groups: seq<string>,
                                         authorized: seq<Tenant>)
    requires reg.WellFormed() && IsAuthorizedList(reg, groups, authorized)
    ensures RightlyAnswered(reg, known, params, groups, Answered(reg, known, params, groups, authorized))
  {
    var name := CallName(params);
    if name.Some? && name.value != LIST_INSTANCES {
      var args := ArgumentsOf(params.value);
      var sel, stripped := Select(reg, known, name.value, args, groups, authorized), Stripped(params.value);
      SelectIsRight(reg, known, name.value, args, groups, authorized);
      StripIsRight(params.value);
      hide Select, Stripped, RightlySelected, RightlyStripped;
      assert NamesTool(params.value, name.value);
      assert Follows(sel, stripped, Answered(reg, known, params, groups, authorized));
    }
  }

  method HandleToolsCall(reg: Registry, cs: CatalogSet, params: Option<Json>, groups: seq<string>, ghost known: Known)
    returns (a: Answer)
    requires cs.Holds(known) && forall id :: id in reg.byTenant ==> reg.byTenant[id].id == id
    ensures reg.WellFormed() ==> RightlyAnswered(reg, known, params, groups, a)
    ensures forall authorized :: IsAuthorizedList(reg, groups, authorized) ==>
            a == Answered(reg, known, params, groups, authorized)
  {
    hide RightlySelected, RightlyStripped, Select, Stripped, IsAuthorizedList;
    var name := CallName(params);
    if name.None? {
      return InvalidParams;
    }
    var authorized := reg.AuthorizedTenants(groups);
    if reg.WellFormed() {
      AnswerIsRight(reg, known, params, groups, authorized);
    }
    hide RightlyAnswered;
    forall other | IsAuthorizedList(reg, groups, other) ensures other == authorized {
      AuthorizedListUnique(reg, groups, other, authorized);
    }
    if name.value == LIST_INSTANCES {
      return Instances(authorized);
    }
    var r := SelectTenant(reg, cs, name.value, ArgumentsOf(params.value), groups, authorized, known);
    if r.Refused? {
      return ToolError(r.why);
    }
    var clean := StripTenantArg(params.value);
    if clean.Err? {
      return InvalidArguments;
    }
    return Forward(r.tenant, clean.value);
  }

  // A call can be accepted and yet have null for params, which adding the client
  // metadata for a stateless backend does not survive: exactly when its own params are
  // null, which name no tool and no tenant, and the caller has a single tenant that has
  // or may have a nameless tool.
  lemma {:induction false} NullIsForwardedExactly(reg: Registry, known: Known, params: Option<Json>,
                                                  groups: seq<string>,
                                                  authorized: seq<Tenant>, t: Tenant)
    ensures Answered(reg, known, params, groups, authorized) == Forward(t, Null)
            <==> params == Some(Null) && MayHaveAmong(known, "", authorized) == [t]
  {
    if params == Some(Null) {
      assert CallName(params) == Some("") && ArgumentsOf(Null) == None && Stripped(Null) == Ok(Null);
      if |authorized| == 1 {
        OneTenant(known, "", authorized[0]);
        assert authorized == [authorized[0]];
        assert Answered(reg, known, params, groups, authorized) == Forward(t, Null)
               <==> MayHave(known, authorized[0], "") && authorized[0] == t;
      }
    }
  }

  lemma {:induction false} OneTenant(known: Known, tool: string, t: Tenant)
    ensures MayHaveAmong(known, tool, [t]) == if MayHave(known, t, tool) then [t] else []
  {
    assert [t][..0] == [] && MayHaveAmong(known, tool, []) == [];
  }

  // What is forwarded goes to one of the caller's tenants, which has or may have the
  // tool, names the same tool, and carries the same arguments without the selector.
  lemma {:induction false} ForwardsAreClean(reg: Registry, known: Known, params: Option<Json>, groups: seq<string>,
                                            authorized: seq<Tenant>)
    requires reg.WellFormed() && IsAuthorizedList(reg, groups, authorized)
    requires Answered(reg, known, params, groups, authorized).Forward?
    ensures var Forward(t, q) := Answered(reg, known, params, groups, authorized);
            && t in authorized && reg.Registered(t) && Authorized(t, groups)
            && MayHave(known, t, CallName(params).value)
            && CallName(Some(q)) == CallName(params)
            && TENANT !in DecodeObject(ArgumentsOf(q))
            && SameBut(DecodeObject(ArgumentsOf(params.value)), DecodeObject(ArgumentsOf(q)), {TENANT})
  {
    var name := CallName(params).value;
    SelectionIsAuthorized(reg, known, name, ArgumentsOf(params.value), groups, authorized);
    StripLaws(params.value);
    MayHaveAmongMembers(known, name, authorized);
    var having := MayHaveAmong(known, name, authorized);
    assert |having| == 1 ==> having[0] in having;
    assert Field(DecodeObject(params), "name") == Field(DecodeObject(Some(Stripped(params.value).value)), "name");
  }
}
