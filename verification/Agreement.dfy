// What tools/list advertises, tools/call accepts: the two code paths agree
// (handleToolsList, and selectTenant and stripTenantArg within handleToolsCall).
module Agreement {
  import opened Wrappers
  import opened JsonTree
  import opened JsonSchema
  import Strings
  import opened TenantRegistry
  import opened ToolSchema
  import opened ToolArguments
  import opened ToolsListing
  import opened TenantCatalogs
  import opened Selection
  import opened ToolsCall

  // The catalogs of one caller's tenants, all cached.
  ghost predicate Cached(reg: Registry, groups: seq<string>, known: Known, views: seq<TenantTools<ToolDef>>) {
    && reg.WellFormed()
    && IsAuthorizedList(reg, groups, TenantsOf(views))
    && forall v :: v in views ==> v.tenant.id in known && known[v.tenant.id] == Some(v.tools)
  }

  function SchemaOf(def: ToolDef): map<string, Json> {
    EffectiveSchema(Field(def, "inputSchema"))
  }

  // No name twice in one catalog, and the listed definition has no `tenant` of its own.
  ghost predicate Listable(views: seq<TenantTools<ToolDef>>, name: string) {
    && (forall v :: v in views ==> UniqueNames(v.tools))
    && name in Names(Flatten(views))
    && TenantFree(KeywordsOf(SchemaOf(FirstDef(Flatten(views), name))))
  }

  ghost predicate Takes(d: ToolDef, args: map<string, Json>) {
    Valid(Obj(SchemaOf(d)), Obj(args))
  }

  // Arguments the listed definition takes are arguments d takes.
  ghost predicate Covers(listed: ToolDef, d: ToolDef) {
    forall args :: TENANT !in args && Takes(listed, args) ==> Takes(d, args)
  }

  // The listed definition, the first tenant's, speaks for every tenant that has the tool.
  ghost predicate Representative(views: seq<TenantTools<ToolDef>>, name: string)
    requires name in Names(Flatten(views))
  {
    forall v, d :: v in views && d in v.tools && NameOf(d) == name ==> Covers(FirstDef(Flatten(views), name), d)
  }

  // Absent arguments stand for an empty object.
  function ArgumentsValue(params: Json): Json {
    var args := ArgumentsOf(params);
    if args.None? then Obj(map[]) else args.value
  }

  // A call of the tool with an argument object.
  ghost predicate Calls(p: map<string, Json>, name: string) {
    CallName(Some(Obj(p))) == Some(name) && ArgumentsValue(Obj(p)).Obj?
  }

  // The call is forwarded to a tenant whose catalog has the tool, with arguments that
  // tenant's own definition takes.
  ghost predicate Accepted(views: seq<TenantTools<ToolDef>>, name: string, a: Answer) {
    && a.Forward?
    && exists v, d :: v in views && v.tenant == a.tenant && d in v.tools && NameOf(d) == name
                      && Valid(Obj(SchemaOf(d)), ArgumentsValue(a.params))
  }

  ghost predicate PassesAdvertised(views: seq<TenantTools<ToolDef>>, name: string, args: Json)
    requires name in Names(Flatten(views))
  {
    Valid(Obj(SchemaOf(AdvertisedAs(Flatten(views), name, |views|))), args)
  }

  // Every call that satisfies the schema advertised for the tool is accepted.
  ghost predicate Agreed(reg: Registry, groups: seq<string>, known: Known, views: seq<TenantTools<ToolDef>>,
                         name: string)
    requires name in Names(Flatten(views))
  {
    forall p :: Calls(p, name) && PassesAdvertised(views, name, ArgumentsValue(Obj(p)))
                ==> Accepted(views, name, Answered(reg, known, Some(Obj(p)), groups, TenantsOf(views)))
  }

  // ---- where a listed tool comes from ----

  lemma {:induction false} ListedFrom(views: seq<TenantTools<ToolDef>>, i: nat)
    requires i < |Flatten(views)|
    ensures var l := Flatten(views)[i];
            l.name == NameOf(l.def) && exists v :: v in views && v.tenant.id == l.tenant && l.def in v.tools
  {
    var n := |views| - 1;
    var init := Flatten(views[..n]);
    if i < |init| {
      ListedFrom(views[..n], i);
      var v :| v in views[..n] && v.tenant.id == init[i].tenant && init[i].def in v.tools;
      assert v in views;
    } else {
      assert views[n] in views;
      assert Flatten(views)[i].def == views[n].tools[i - |init|];
    }
  }

  lemma {:induction false} FirstDefFrom(views: seq<TenantTools<ToolDef>>, name: string)
    returns (v: TenantTools<ToolDef>)
    requires name in Names(Flatten(views))
    ensures v in views && FirstDef(Flatten(views), name) in v.tools && NameOf(FirstDef(Flatten(views), name)) == name
  {
    FirstIsFirst(Flatten(views), name);
    ListedFrom(views, FirstIndex(Flatten(views), name));
    v :| v in views && FirstDef(Flatten(views), name) in v.tools;
  }

  lemma {:induction false} HavingMember(views: seq<TenantTools<ToolDef>>, name: string, id: string)
    ensures id in TenantsHaving(views, name) <==> exists v :: v in views && v.tenant.id == id && HasTool(v.tools, name)
  {
    if views != [] {
      var n := |views| - 1;
      HavingMember(views[..n], name, id);
      assert views == views[..n] + [views[n]];
      assert views[n] in views;
      if v :| v in views && v.tenant.id == id && HasTool(v.tools, name) && v != views[n] {
        assert v in views[..n];
      }
    }
  }

  lemma {:induction false} ListedIsHad(views: seq<TenantTools<ToolDef>>, name: string)
    requires name in Names(Flatten(views))
    ensures TenantsHaving(views, name) != []
  {
    var v := FirstDefFrom(views, name);
    var d := FirstDef(Flatten(views), name);
    var i :| 0 <= i < |v.tools| && v.tools[i] == d;
    assert HasTool(v.tools, name);
    HavingMember(views, name, v.tenant.id);
  }

  // ---- stripping, seen from the arguments ----

  lemma {:induction false} StrippedArguments(p: map<string, Json>)
    requires ArgumentsValue(Obj(p)).Obj?
    ensures Stripped(Obj(p)).Ok?
    ensures ArgumentsValue(Stripped(Obj(p)).value) == WithoutTenant(ArgumentsValue(Obj(p)))
  {
    var args := ArgumentsOf(Obj(p));
    var v := ArgumentsValue(Obj(p));
    if TENANT !in v.fields {
      assert v.fields - {TENANT} == v.fields;
    }
  }

  // ---- the selector the caller sees ----

  lemma {:induction false} AdvertisedSchema(views: seq<TenantTools<ToolDef>>, name: string)
    requires |views| >= 2 && name in Names(Flatten(views)) && forall v :: v in views ==> UniqueNames(v.tools)
    ensures var d, ids := FirstDef(Flatten(views), name), TenantsHaving(views, name);
            SchemaOf(AdvertisedAs(Flatten(views), name, |views|))
                == Injected(SchemaOf(d), TenantSchema(ids, |ids| >= 2), |ids| >= 2)
  {
    HavingIsTenants(views, name);
  }

  // A tenant the selector names has the tool and is chosen when the call names it.
  lemma {:induction false} NamedTenantChosen(reg: Registry, groups: seq<string>, known: Known,
                                             views: seq<TenantTools<ToolDef>>, name: string, id: string)
    returns (v: TenantTools<ToolDef>)
    requires Cached(reg, groups, known, views) && id in TenantsHaving(views, name)
    ensures v in views && v.tenant.id == id && id != "" && HasTool(v.tools, name)
    ensures SelectExplicit(reg, known, name, id, groups, TenantsOf(views)) == Chosen(v.tenant)
  {
    HavingMember(views, name, id);
    v :| v in views && v.tenant.id == id && HasTool(v.tools, name);
    TenantOfView(views, v);
    assert MayHave(known, v.tenant, name);
  }

  lemma {:induction false} OnlyTenantChosen(reg: Registry, groups: seq<string>, known: Known,
                                            views: seq<TenantTools<ToolDef>>, name: string)
    requires Cached(reg, groups, known, views) && |views| >= 2
    ensures var ids := TenantsHaving(views, name);
            match SelectImplicit(known, name, TenantsOf(views))
            case Chosen(t) => |ids| == 1 && t.id == ids[0] && t in TenantsOf(views)
            case Refused(why) => |ids| != 1 && (why.Ambiguous? <==> |ids| >= 2)
  {
    CandidatesWhenAllKnown(known, name, views);
    MayHaveAmongMembers(known, name, TenantsOf(views));
    var candidates := MayHaveAmong(known, name, TenantsOf(views));
    assert |candidates| == |IdsOf(candidates)|;
    if |candidates| == 1 {
      assert candidates[0] in candidates && IdsOf(candidates)[0] == candidates[0].id;
    }
  }

  // A tenant whose definition takes what the listed one takes takes the stripped call.
  lemma {:induction false} HolderTakes(views: seq<TenantTools<ToolDef>>, name: string, p: map<string, Json>,
                                       v: TenantTools<ToolDef>, d: ToolDef)
    requires name in Names(Flatten(views)) && v in views && d in v.tools && NameOf(d) == name
    requires Covers(FirstDef(Flatten(views), name), d) && Calls(p, name)
    requires Valid(Obj(SchemaOf(FirstDef(Flatten(views), name))), WithoutTenant(ArgumentsValue(Obj(p))))
    ensures Stripped(Obj(p)).Ok? && Accepted(views, name, Forward(v.tenant, Stripped(Obj(p)).value))
  {
    StrippedArguments(p);
    assert Takes(d, ArgumentsValue(Obj(p)).fields - {TENANT});
  }

  lemma {:induction false} HeldDef(v: TenantTools<ToolDef>, name: string) returns (d: ToolDef)
    requires HasTool(v.tools, name)
    ensures d in v.tools && NameOf(d) == name
  {
    var i :| 0 <= i < |v.tools| && NameOf(v.tools[i]) == name;
    d := v.tools[i];
  }

  // ---- the agreement ----

  // Where a call that satisfies the advertised schema goes.
  lemma {:induction false} AdvertisedIsChosen(reg: Registry, groups: seq<string>, known: Known,
                                              views: seq<TenantTools<ToolDef>>,
                                              name: string, args: Option<Json>, fields: map<string, Json>)
    returns (v: TenantTools<ToolDef>)
    requires Cached(reg, groups, known, views) && Listable(views, name) && |views| >= 2
    requires DecodeObject(args) == fields
    requires SelectorOk(Obj(fields), TenantsHaving(views, name), |TenantsHaving(views, name)| >= 2)
    ensures v in views && HasTool(v.tools, name)
    ensures Select(reg, known, name, args, groups, TenantsOf(views)) == Chosen(v.tenant)
  {
    var ids := TenantsHaving(views, name);
    ListedIsHad(views, name);
    if TENANT in fields {
      v := NamedTenantChosen(reg, groups, known, views, name, fields[TENANT].s);
    } else {
      OnlyTenantChosen(reg, groups, known, views, name);
      v := NamedTenantChosen(reg, groups, known, views, name, ids[0]);
      SameTenant(reg, groups, TenantsOf(views), SelectImplicit(known, name, TenantsOf(views)).tenant, v.tenant, views);
    }
  }

  lemma {:induction false} ChosenIsForwarded(reg: Registry, groups: seq<string>, known: Known,
                                             views: seq<TenantTools<ToolDef>>, name: string, p: map<string, Json>,
                                             t: Tenant)
    requires Calls(p, name) && name != LIST_INSTANCES && Stripped(Obj(p)).Ok?
    requires Select(reg, known, name, ArgumentsOf(Obj(p)), groups, TenantsOf(views)) == Chosen(t)
    ensures Answered(reg, known, Some(Obj(p)), groups, TenantsOf(views)) == Forward(t, Stripped(Obj(p)).value)
  {
  }

  // For a caller with several tenants, every call whose arguments satisfy the schema
  // advertised for the tool is routed to a tenant that has it, and what is forwarded
  // satisfies that tenant's own schema, if the listed definition speaks for all.
  lemma {:induction false} AdvertisedIsAccepted(reg: Registry, groups: seq<string>, known: Known,
                                                views: seq<TenantTools<ToolDef>>,
                                                name: string, p: map<string, Json>)
    requires Cached(reg, groups, known, views) && Listable(views, name) && |views| >= 2
    requires name != LIST_INSTANCES && Representative(views, name) && Calls(p, name)
    requires PassesAdvertised(views, name, ArgumentsValue(Obj(p)))
    ensures Accepted(views, name, Answered(reg, known, Some(Obj(p)), groups, TenantsOf(views)))
  {
    hide Answered, Select, Stripped, Valid, Accepted, TenantsHaving, FirstDef, Injected, TenantSchema;
    var v := ArgumentsValue(Obj(p));
    var ids := TenantsHaving(views, name);
    AdvertisedSchema(views, name);
    InjectionSound(SchemaOf(FirstDef(Flatten(views), name)), ids, |ids| >= 2, v);
    var chosen := AdvertisedIsChosen(reg, groups, known, views, name, ArgumentsOf(Obj(p)), v.fields);
    var d := HeldDef(chosen, name);
    HolderTakes(views, name, p, chosen, d);
    ChosenIsForwarded(reg, groups, known, views, name, p, chosen.tenant);
  }

  // A call that names the tenant and carries the arguments.
  function CallOf(name: string, id: string, args: map<string, Json>): map<string, Json> {
    map["name" := Str(name), ARGUMENTS := Obj(args[TENANT := Str(id)])]
  }

  lemma {:induction false} CallOfIsCall(name: string, id: string, args: map<string, Json>)
    requires TENANT !in args
    ensures Calls(CallOf(name, id, args), name)
    ensures ArgumentsValue(Obj(CallOf(name, id, args))) == Obj(args[TENANT := Str(id)])
    ensures ExtractTenantArg(ArgumentsOf(Obj(CallOf(name, id, args)))) == id
    ensures Stripped(Obj(CallOf(name, id, args))).Ok?
    ensures ArgumentsValue(Stripped(Obj(CallOf(name, id, args))).value) == Obj(args)
  {
    StrippedArguments(CallOf(name, id, args));
    assert args[TENANT := Str(id)] - {TENANT} == args;
  }

  lemma {:induction false} OneDefPerName(v: TenantTools<ToolDef>, d: ToolDef, e: ToolDef)
    requires UniqueNames(v.tools) && d in v.tools && e in v.tools && NameOf(d) == NameOf(e)
    ensures d == e
  {
    var i :| 0 <= i < |v.tools| && v.tools[i] == d;
    var j :| 0 <= j < |v.tools| && v.tools[j] == e;
    assert i == j;
  }

  // One catalog per tenant among the views.
  lemma {:induction false} OneViewPerTenant(reg: Registry, groups: seq<string>, views: seq<TenantTools<ToolDef>>,
                                            v: TenantTools<ToolDef>, w: TenantTools<ToolDef>)
    requires IsAuthorizedList(reg, groups, TenantsOf(views)) && v in views && w in views && v.tenant == w.tenant
    ensures v == w
  {
    var i :| 0 <= i < |views| && views[i] == v;
    var j :| 0 <= j < |views| && views[j] == w;
    var ts := TenantsOf(views);
    assert ts[i] == ts[j];
    Strings.LessAsymmetric(TenantId(ts[i]), TenantId(ts[i]));
  }

  // A call that names a tenant with the tool is forwarded to it.
  lemma {:induction false} NamedCallForwarded(reg: Registry, groups: seq<string>, known: Known,
                                              views: seq<TenantTools<ToolDef>>, name: string,
                                              v: TenantTools<ToolDef>, args: map<string, Json>)
    requires Cached(reg, groups, known, views) && name != LIST_INSTANCES
    requires v in views && HasTool(v.tools, name) && TENANT !in args
    ensures var a := Answered(reg, known, Some(Obj(CallOf(name, v.tenant.id, args))), groups, TenantsOf(views));
            a.Forward? && a.tenant == v.tenant && ArgumentsValue(a.params) == Obj(args)
  {
    CallOfIsCall(name, v.tenant.id, args);
    HavingMember(views, name, v.tenant.id);
    var named := NamedTenantChosen(reg, groups, known, views, name, v.tenant.id);
    TenantOfView(views, v);
    SameTenant(reg, groups, TenantsOf(views), v.tenant, named.tenant, views);
  }

  lemma {:induction false} TenantOfView(views: seq<TenantTools<ToolDef>>, v: TenantTools<ToolDef>)
    requires v in views
    ensures v.tenant in TenantsOf(views)
  {
    var i :| 0 <= i < |views| && views[i] == v;
    assert TenantsOf(views)[i] == v.tenant;
  }

  // It satisfies the advertised schema when the rest of its arguments satisfy the
  // listed definition's own.
  lemma {:induction false} NamedCallAdvertised(views: seq<TenantTools<ToolDef>>, name: string, id: string,
                                               args: map<string, Json>)
    requires Listable(views, name) && |views| >= 2 && id in TenantsHaving(views, name)
    requires !EnumeratesObject(KeywordsOf(SchemaOf(FirstDef(Flatten(views), name))))
    requires TENANT !in args && Takes(FirstDef(Flatten(views), name), args)
    ensures PassesAdvertised(views, name, Obj(args[TENANT := Str(id)]))
  {
    var ids := TenantsHaving(views, name);
    var value := Obj(args[TENANT := Str(id)]);
    assert WithoutTenant(value).fields == args;
    AdvertisedSchema(views, name);
    InjectionComplete(SchemaOf(FirstDef(Flatten(views), name)), ids, |ids| >= 2, value);
  }

  lemma {:induction false} AcceptedTakes(reg: Registry, groups: seq<string>, views: seq<TenantTools<ToolDef>>,
                                         name: string,
                                         v: TenantTools<ToolDef>, d: ToolDef, args: map<string, Json>, a: Answer)
    requires IsAuthorizedList(reg, groups, TenantsOf(views))
    requires v in views && UniqueNames(v.tools) && d in v.tools && NameOf(d) == name
    requires Accepted(views, name, a) && a.tenant == v.tenant && ArgumentsValue(a.params) == Obj(args)
    ensures Takes(d, args)
  {
    var w, e :| w in views && w.tenant == a.tenant && e in w.tools && NameOf(e) == name
                && Valid(Obj(SchemaOf(e)), ArgumentsValue(a.params));
    OneViewPerTenant(reg, groups, views, v, w);
    OneDefPerName(v, d, e);
  }

  // Agreement binds every tenant that has the tool: take arguments without a selector
  // that the listed definition takes, and name the tenant.
  lemma {:induction false} AgreedCovers(reg: Registry, groups: seq<string>, known: Known,
                                        views: seq<TenantTools<ToolDef>>, name: string,
                                        v: TenantTools<ToolDef>, d: ToolDef, args: map<string, Json>)
    requires Cached(reg, groups, known, views) && Listable(views, name) && |views| >= 2
    requires name != LIST_INSTANCES && !EnumeratesObject(KeywordsOf(SchemaOf(FirstDef(Flatten(views), name))))
    requires Agreed(reg, groups, known, views, name)
    requires v in views && d in v.tools && NameOf(d) == name
    requires TENANT !in args && Takes(FirstDef(Flatten(views), name), args)
    ensures Takes(d, args)
  {
    var id := v.tenant.id;
    var i :| 0 <= i < |v.tools| && v.tools[i] == d;
    assert HasTool(v.tools, name);
    HavingMember(views, name, id);
    CallOfIsCall(name, id, args);
    NamedCallAdvertised(views, name, id, args);
    NamedCallForwarded(reg, groups, known, views, name, v, args);
    AcceptedTakes(reg, groups, views, name, v, d, args,
                  Answered(reg, known, Some(Obj(CallOf(name, id, args))), groups, TenantsOf(views)));
  }

  // With a top-level enum only an enumerated object can satisfy the advertised schema,
  // so none that names a tenant does: the tool must have just one tenant, whose
  // definition is the listed one.
  lemma {:induction false} EnumeratedIsUnqualified(views: seq<TenantTools<ToolDef>>, name: string, v: Json)
    requires Listable(views, name) && |views| >= 2
    requires EnumeratesObject(KeywordsOf(SchemaOf(FirstDef(Flatten(views), name)))) && v.Obj?
    requires PassesAdvertised(views, name, v)
    ensures TENANT !in v.fields && |TenantsHaving(views, name)| == 1
  {
    var d, ids := FirstDef(Flatten(views), name), TenantsHaving(views, name);
    var m, selector := SchemaOf(d), TenantSchema(ids, |ids| >= 2);
    AdvertisedSchema(views, name);
    InjectionSound(m, ids, |ids| >= 2, v);
    InjectedKeywordsOf(m, selector, |ids| >= 2);
    ValidObject(Injected(m, selector, |ids| >= 2), v);
    assert v in KeywordsOf(m).enum.value.items;
    ListedIsHad(views, name);
  }

  lemma {:induction false} EnumeratedIsAccepted(reg: Registry, groups: seq<string>, known: Known,
                                                views: seq<TenantTools<ToolDef>>,
                                                name: string, p: map<string, Json>)
    requires Cached(reg, groups, known, views) && Listable(views, name) && |views| >= 2
    requires name != LIST_INSTANCES && Calls(p, name)
    requires EnumeratesObject(KeywordsOf(SchemaOf(FirstDef(Flatten(views), name))))
    requires PassesAdvertised(views, name, ArgumentsValue(Obj(p)))
    ensures Accepted(views, name, Answered(reg, known, Some(Obj(p)), groups, TenantsOf(views)))
  {
    hide Answered, Select, Stripped, Valid, Accepted, TenantsHaving, FirstDef, Injected, TenantSchema;
    var v := ArgumentsValue(Obj(p));
    var d, ids := FirstDef(Flatten(views), name), TenantsHaving(views, name);
    EnumeratedIsUnqualified(views, name, v);
    AdvertisedSchema(views, name);
    InjectionSound(SchemaOf(d), ids, |ids| >= 2, v);
    var chosen := AdvertisedIsChosen(reg, groups, known, views, name, ArgumentsOf(Obj(p)), v.fields);
    var first := FirstDefFrom(views, name);
    OnlyHolder(reg, groups, views, name, first, chosen);
    HolderTakes(views, name, p, first, d);
    ChosenIsForwarded(reg, groups, known, views, name, p, first.tenant);
  }

  // A tool with one tenant has one catalog.
  lemma {:induction false} OnlyHolder(reg: Registry, groups: seq<string>, views: seq<TenantTools<ToolDef>>,
                                      name: string,
                                      v: TenantTools<ToolDef>, w: TenantTools<ToolDef>)
    requires IsAuthorizedList(reg, groups, TenantsOf(views)) && |TenantsHaving(views, name)| == 1
    requires v in views && w in views && HasTool(w.tools, name)
    requires exists d :: d in v.tools && NameOf(d) == name
    ensures v == w
  {
    var d :| d in v.tools && NameOf(d) == name;
    var i :| 0 <= i < |v.tools| && v.tools[i] == d;
    assert HasTool(v.tools, name);
    HavingMember(views, name, v.tenant.id);
    HavingMember(views, name, w.tenant.id);
    TenantOfView(views, v);
    TenantOfView(views, w);
    SameTenant(reg, groups, TenantsOf(views), v.tenant, w.tenant, views);
    OneViewPerTenant(reg, groups, views, v, w);
  }

  // Every call that satisfies the advertised schema is accepted exactly when the listed
  // definition speaks for every tenant that has the tool, or enumerates argument
  // objects: tenants that describe the tool differently are not reconciled.
  lemma {:induction false} AgreementIffRepresentative(reg: Registry, groups: seq<string>, known: Known,
      views: seq<TenantTools<ToolDef>>,
                                                      name: string)
    requires Cached(reg, groups, known, views) && Listable(views, name) && |views| >= 2 && name != LIST_INSTANCES
    ensures Agreed(reg, groups, known, views, name)
            <==> Representative(views, name) || EnumeratesObject(KeywordsOf(SchemaOf(FirstDef(Flatten(views), name))))
  {
    var enumerates := EnumeratesObject(KeywordsOf(SchemaOf(FirstDef(Flatten(views), name))));
    if Representative(views, name) || enumerates {
      forall p | Calls(p, name) && PassesAdvertised(views, name, ArgumentsValue(Obj(p)))
        ensures Accepted(views, name, Answered(reg, known, Some(Obj(p)), groups, TenantsOf(views)))
      {
        if enumerates {
          EnumeratedIsAccepted(reg, groups, known, views, name, p);
        } else {
          AdvertisedIsAccepted(reg, groups, known, views, name, p);
        }
      }
    }
    if Agreed(reg, groups, known, views, name) && !enumerates {
      forall v, d, args | v in views && d in v.tools && NameOf(d) == name
                          && TENANT !in args && Takes(FirstDef(Flatten(views), name), args)
        ensures Takes(d, args)
      {
        AgreedCovers(reg, groups, known, views, name, v, d, args);
      }
    }
  }

  // Tenants that share a tool and describe its input alike do agree.
  lemma {:induction false} EqualSchemasAreRepresentative(views: seq<TenantTools<ToolDef>>, name: string)
    requires name in Names(Flatten(views))
    requires forall v, w, d, e :: v in views && w in views && d in v.tools && e in w.tools && NameOf(d) == NameOf(e)
                                  ==> SchemaOf(d) == SchemaOf(e)
    ensures Representative(views, name)
  {
    var w := FirstDefFrom(views, name);
    forall v, d | v in views && d in v.tools && NameOf(d) == name ensures Covers(FirstDef(Flatten(views), name), d) {
      assert SchemaOf(d) == SchemaOf(FirstDef(Flatten(views), name));
    }
  }

  // A backend tool named like the local one is listed, but a call never reaches it.
  lemma {:induction false} LocalToolShadows(reg: Registry, groups: seq<string>, known: Known,
                                            views: seq<TenantTools<ToolDef>>, p: map<string, Json>)
    requires Calls(p, LIST_INSTANCES)
    ensures !Accepted(views, LIST_INSTANCES, Answered(reg, known, Some(Obj(p)), groups, TenantsOf(views)))
  {
  }

  // One registered tenant per id.
  lemma {:induction false} SameTenant(reg: Registry, groups: seq<string>, authorized: seq<Tenant>, a: Tenant,
                                      b: Tenant, views: seq<TenantTools<ToolDef>>)
    requires IsAuthorizedList(reg, groups, authorized) && a in authorized && a.id == b.id
    requires authorized == TenantsOf(views) && exists v :: v in views && v.tenant == b
    ensures a == b
  {
    var v :| v in views && v.tenant == b;
    var i :| 0 <= i < |views| && views[i] == v;
    assert authorized[i] == b;
    assert b in authorized;
  }

  // For a caller with several tenants, the selector is required exactly when a call
  // that names no tenant is refused as ambiguous.
  lemma {:induction false} RequiredIffAmbiguous(reg: Registry, groups: seq<string>, known: Known,
                                                views: seq<TenantTools<ToolDef>>,
                             name: string, args: Option<Json>)
    requires Cached(reg, groups, known, views) && Listable(views, name) && |views| >= 2
    requires ExtractTenantArg(args) == ""
    ensures var required := KeywordsOf(SchemaOf(AdvertisedAs(Flatten(views), name, |views|))).required;
            var r := Select(reg, known, name, args, groups, TenantsOf(views));
            (required.Some? && required.value.Arr? && Str(TENANT) in required.value.items)
            <==> (r.Refused? && r.why.Ambiguous?)
  {
    var d, ids := FirstDef(Flatten(views), name), TenantsHaving(views, name);
    var kw := KeywordsOf(SchemaOf(d));
    AdvertisedSchema(views, name);
    InjectedKeywordsOf(SchemaOf(d), TenantSchema(ids, |ids| >= 2), |ids| >= 2);
    OnlyTenantChosen(reg, groups, known, views, name);
    EncodedStrings(RequiredNames(kw.required), TENANT);
  }

  // The tenant of a caller who has just one is chosen without being named.
  lemma {:induction false} SingleIsChosen(reg: Registry, groups: seq<string>, known: Known,
                                          view: TenantTools<ToolDef>, name: string, args: Option<Json>)
    requires view.tenant.id in known && known[view.tenant.id] == Some(view.tools)
    requires HasTool(view.tools, name) && ExtractTenantArg(args) == ""
    ensures Select(reg, known, name, args, groups, [view.tenant]) == Chosen(view.tenant)
  {
    assert MayHave(known, view.tenant, name);
  }

  lemma {:induction false} NothingToStrip(p: map<string, Json>)
    requires ArgumentsValue(Obj(p)).Obj? && TENANT !in ArgumentsValue(Obj(p)).fields
    ensures Stripped(Obj(p)) == Ok(Obj(p)) && ExtractTenantArg(ArgumentsOf(Obj(p))) == ""
  {
  }

  // A caller with one tenant sees that tenant's own schemas; a call that satisfies one
  // and names no tenant is forwarded unchanged.
  lemma {:induction false} SingleTenantIsAccepted(reg: Registry, groups: seq<string>, known: Known,
                                                  views: seq<TenantTools<ToolDef>>, name: string, p: map<string, Json>)
    requires Cached(reg, groups, known, views) && |views| == 1
    requires name in Names(Flatten(views)) && name != LIST_INSTANCES
    requires Calls(p, name) && TENANT !in ArgumentsValue(Obj(p)).fields
    requires PassesAdvertised(views, name, ArgumentsValue(Obj(p)))
    ensures Answered(reg, known, Some(Obj(p)), groups, TenantsOf(views)) == Forward(views[0].tenant, Obj(p))
    ensures Accepted(views, name, Forward(views[0].tenant, Obj(p)))
  {
    var d := FirstDef(Flatten(views), name);
    var v := FirstDefFrom(views, name);
    NothingToStrip(p);
    hide Stripped, ArgumentsOf, ArgumentsValue, ExtractTenantArg, FirstDef, Valid, Select;
    var i :| 0 <= i < |v.tools| && v.tools[i] == d;
    assert HasTool(v.tools, name) && v == views[0];
    assert TenantsOf(views) == [v.tenant];
    SingleIsChosen(reg, groups, known, v, name, ArgumentsOf(Obj(p)));
    assert AdvertisedAs(Flatten(views), name, |views|) == d;
  }
}
