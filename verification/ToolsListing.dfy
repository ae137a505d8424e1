// tools/list: the union of the caller's tenants' catalogs, with a tenant selector
// per tool (internal/proxy/handler.go).
module ToolsListing {
  import opened Wrappers
  import opened JsonTree
  import opened TenantRegistry
  import opened ToolSchema

  // One tenant's tool list, as tool objects or as the definitions they hold.
  datatype TenantTools<+T> = TenantTools(tenant: Tenant, tools: seq<T>)

  ghost function ToolsOf(views: seq<TenantTools<RawTool>>): set<RawTool> {
    set v, t | v in views && t in v.tools :: t
  }

  ghost predicate Matches(tools: seq<RawTool>, ds: seq<ToolDef>)
    reads tools
  {
    |tools| == |ds| && forall k :: 0 <= k < |tools| ==> tools[k].fields == ds[k]
  }

  // vs holds the definitions that the tool objects of the views hold.
  ghost predicate IsSnapshot(views: seq<TenantTools<RawTool>>, vs: seq<TenantTools<ToolDef>>)
    reads ToolsOf(views)
  {
    && |vs| == |views|
    && forall i :: 0 <= i < |views| ==>
         (forall t :: t in views[i].tools ==> t in ToolsOf(views))
         && vs[i].tenant == views[i].tenant && Matches(views[i].tools, vs[i].tools)
  }

  // ---- The listing as one flat list of (tenant, definition) ----

  datatype Listed = Listed(tenant: string, name: string, def: ToolDef)

  function Entries(tenant: string, defs: seq<ToolDef>): seq<Listed> {
    seq(|defs|, i requires 0 <= i < |defs| => Listed(tenant, NameOf(defs[i]), defs[i]))
  }

  function Flatten(views: seq<TenantTools<ToolDef>>): seq<Listed> {
    if views == [] then []
    else
      var last := views[|views| - 1];
      Flatten(views[..|views| - 1]) + Entries(last.tenant.id, last.tools)
  }

  function Names(ls: seq<Listed>): set<string> {
    if ls == [] then {} else Names(ls[..|ls| - 1]) + {ls[|ls| - 1].name}
  }

  // Each name once, in the order of first appearance.
  function Order(ls: seq<Listed>): seq<string> {
    if ls == [] then []
    else
      var before, name := Order(ls[..|ls| - 1]), ls[|ls| - 1].name;
      if name in before then before else before + [name]
  }

  // The position and the definition of the first listing of `name`.
  function FirstIndex(ls: seq<Listed>, name: string): nat
    requires name in Names(ls)
  {
    if name in Names(ls[..|ls| - 1]) then FirstIndex(ls[..|ls| - 1], name) else |ls| - 1
  }

  function FirstDef(ls: seq<Listed>, name: string): ToolDef
    requires name in Names(ls)
  {
    if name in Names(ls[..|ls| - 1]) then FirstDef(ls[..|ls| - 1], name) else ls[|ls| - 1].def
  }

  // The tenants listing `name`, once per listing.
  function Having(ls: seq<Listed>, name: string): seq<string> {
    if ls == [] then []
    else
      Having(ls[..|ls| - 1], name) + if ls[|ls| - 1].name == name then [ls[|ls| - 1].tenant] else []
  }

  // ---- What these compute, independently of any loop ----

  lemma {:induction false} FirstIsFirst(ls: seq<Listed>, name: string)
    ensures name in Names(ls) <==> exists i :: 0 <= i < |ls| && ls[i].name == name
    ensures name in Names(ls) ==>
              var i := FirstIndex(ls, name);
              i < |ls| && ls[i].name == name && FirstDef(ls, name) == ls[i].def
              && forall j :: 0 <= j < i ==> ls[j].name != name
  {
    if ls != [] {
      var n := |ls| - 1;
      FirstIsFirst(ls[..n], name);
      assert forall i :: 0 <= i < n ==> ls[..n][i] == ls[i];
      if name in Names(ls[..n]) {
        assert ls[FirstIndex(ls[..n], name)].name == name;
      }
    }
  }

  lemma {:induction false} OrderMembers(ls: seq<Listed>)
    ensures forall n :: n in Order(ls) <==> n in Names(ls)
  {
    if ls != [] {
      OrderMembers(ls[..|ls| - 1]);
    }
  }

  // The advertised order is that of first appearance, so no name comes twice.
  lemma {:induction false} OrderIsFirstSeen(ls: seq<Listed>, i: nat, j: nat)
    requires i < j < |Order(ls)|
    ensures Order(ls)[i] in Names(ls) && Order(ls)[j] in Names(ls)
    ensures FirstIndex(ls, Order(ls)[i]) < FirstIndex(ls, Order(ls)[j])
  {
    var init := ls[..|ls| - 1];
    OrderMembers(ls);
    OrderMembers(init);
    if j < |Order(init)| {
      OrderIsFirstSeen(init, i, j);
    } else {
      FirstIsFirst(init, Order(ls)[i]);
      assert Order(ls)[i] in Order(init);
    }
  }

  predicate HasTool(defs: seq<ToolDef>, name: string) {
    exists i :: 0 <= i < |defs| && NameOf(defs[i]) == name
  }

  ghost predicate UniqueNames(defs: seq<ToolDef>) {
    forall i, j :: 0 <= i < j < |defs| ==> NameOf(defs[i]) != NameOf(defs[j])
  }

  // The views' tenants that have the tool, in view order.
  function TenantsHaving(views: seq<TenantTools<ToolDef>>, name: string): seq<string> {
    if views == [] then []
    else
      var last := views[|views| - 1];
      TenantsHaving(views[..|views| - 1], name) + if HasTool(last.tools, name) then [last.tenant.id] else []
  }

  lemma {:induction false} HavingAppend(a: seq<Listed>, b: seq<Listed>, name: string)
    ensures Having(a + b, name) == Having(a, name) + Having(b, name)
  {
    if b == [] {
      assert a + b == a;
    } else {
      var n := |b| - 1;
      assert (a + b)[..|a + b| - 1] == a + b[..n];
      HavingAppend(a, b[..n], name);
    }
  }

  lemma {:induction false} HavingOfOne(tenant: string, defs: seq<ToolDef>, name: string)
    requires UniqueNames(defs)
    ensures Having(Entries(tenant, defs), name) == if HasTool(defs, name) then [tenant] else []
  {
    if defs != [] {
      var n := |defs| - 1;
      assert Entries(tenant, defs)[..n] == Entries(tenant, defs[..n]);
      HavingOfOne(tenant, defs[..n], name);
      if HasTool(defs[..n], name) {
        var i :| 0 <= i < n && NameOf(defs[..n][i]) == name;
        assert NameOf(defs[i]) == name;
      }
      if HasTool(defs, name) && NameOf(defs[n]) != name {
        var i :| 0 <= i < |defs| && NameOf(defs[i]) == name;
        assert NameOf(defs[..n][i]) == name;
      }
    }
  }

  // With unique names per catalog, the selector lists exactly the tenants that have
  // the tool, in caller order.
  lemma {:induction false} HavingIsTenants(views: seq<TenantTools<ToolDef>>, name: string)
    requires forall v :: v in views ==> UniqueNames(v.tools)
    ensures Having(Flatten(views), name) == TenantsHaving(views, name)
  {
    if views != [] {
      var n := |views| - 1;
      HavingIsTenants(views[..n], name);
      HavingAppend(Flatten(views[..n]), Entries(views[n].tenant.id, views[n].tools), name);
      HavingOfOne(views[n].tenant.id, views[n].tools, name);
    }
  }

  // The flat list is the tools of the first view, then those of the second, and so on:
  // each tool of view a at its place after all earlier views.
  lemma {:induction false} FlattenIsRight(views: seq<TenantTools<ToolDef>>, a: nat, k: nat)
    requires a < |views| && k < |views[a].tools|
    ensures var before := |Flatten(views[..a])|;
            && before + |views[a].tools| == |Flatten(views[..a + 1])| <= |Flatten(views)|
            && Flatten(views)[before + k] == Listed(views[a].tenant.id, NameOf(views[a].tools[k]), views[a].tools[k])
  {
    var n := |views| - 1;
    if a == n {
      assert views[..a + 1] == views;
    } else {
      FlattenIsRight(views[..n], a, k);
      assert views[..n][..a] == views[..a] && views[..n][..a + 1] == views[..a + 1];
    }
  }

  // Exactly the positions of the views that have the tool, in order, and their tenants.
  ghost predicate HavingAt(views: seq<TenantTools<ToolDef>>, name: string, ids: seq<string>, at: seq<nat>) {
    && |at| == |ids| && (forall j, k :: 0 <= j < k < |at| ==> at[j] < at[k])
    && (forall k :: 0 <= k < |at| ==> at[k] < |views| && ids[k] == views[at[k]].tenant.id)
    && forall i: nat :: i < |views| ==> (i in at <==> HasTool(views[i].tools, name))
  }

  lemma {:induction false} HavingAtStep(views: seq<TenantTools<ToolDef>>, name: string, ids: seq<string>, at: seq<nat>)
    requires views != [] && HavingAt(views[..|views| - 1], name, ids, at)
    ensures var n := |views| - 1;
            if HasTool(views[n].tools, name) then HavingAt(views, name, ids + [views[n].tenant.id], at + [n])
            else HavingAt(views, name, ids, at)
  {
    var n := |views| - 1;
    hide HasTool;
    assert forall i :: 0 <= i < n ==> views[..n][i] == views[i];
    assert n !in at;
  }

  lemma {:induction false} TenantsHavingAt(views: seq<TenantTools<ToolDef>>, name: string) returns (at: seq<nat>)
    ensures HavingAt(views, name, TenantsHaving(views, name), at)
  {
    if views == [] {
      at := [];
    } else {
      var n := |views| - 1;
      var before := TenantsHavingAt(views[..n], name);
      HavingAtStep(views, name, TenantsHaving(views[..n], name), before);
      hide HavingAt, HasTool;
      at := if HasTool(views[n].tools, name) then before + [n] else before;
      assert TenantsHaving(views[..n], name) + [] == TenantsHaving(views[..n], name);
    }
  }

  // ---- The advertised tools ----

  const LIST_INSTANCES_DEF: ToolDef := map[
    "name" := Str(LIST_INSTANCES),
    "description" := Str("Lists the instances."),
    "inputSchema" := Obj(map["type" := Str("object"), "properties" := Obj(map[])])]

  // One tool for a caller with `authorized` tenants, none meaning discovery.
  function Advertised(authorized: nat, def: ToolDef, ids: seq<string>): ToolDef {
    if authorized == 0 then InjectedTool(def, TenantSchema([], false), false)
    else if authorized >= 2 then InjectedTool(def, TenantSchema(ids, |ids| >= 2), |ids| >= 2)
    else def
  }

  // The state of the union loops after the listings `ls`.
  ghost predicate DefsOf(ls: seq<Listed>, defs: map<string, RawTool>)
    reads defs.Values
  {
    defs.Keys == Names(ls) && forall n :: n in defs ==> defs[n].fields == FirstDef(ls, n)
  }

  ghost predicate HavingOf(ls: seq<Listed>, having: map<string, seq<string>>) {
    having.Keys == Names(ls) && forall n :: n in having ==> having[n] == Having(ls, n)
  }

  ghost predicate Unioned(ls: seq<Listed>, order: seq<string>, defs: map<string, RawTool>,
                          having: map<string, seq<string>>)
    reads defs.Values
  {
    order == Order(ls) && DefsOf(ls, defs) && HavingOf(ls, having)
  }

  lemma {:induction false} DefsStep(ls: seq<Listed>, e: Listed, defs: map<string, RawTool>, t: RawTool)
    requires DefsOf(ls, defs) && t.fields == e.def
    ensures DefsOf(ls + [e], if e.name in defs then defs else defs[e.name := t])
  {
    assert (ls + [e])[..|ls|] == ls;
  }

  lemma {:induction false} HavingStep(ls: seq<Listed>, e: Listed, having: map<string, seq<string>>)
    requires HavingOf(ls, having)
    ensures HavingOf(ls + [e], having[e.name := (if e.name in having then having[e.name] else []) + [e.tenant]])
  {
    assert (ls + [e])[..|ls|] == ls;
    HavingNone(ls, e.name);
  }

  lemma {:induction false} HavingNone(ls: seq<Listed>, name: string)
    ensures name !in Names(ls) ==> Having(ls, name) == []
  {
    if ls != [] {
      HavingNone(ls[..|ls| - 1], name);
    }
  }

  lemma {:induction false} UnionStep(ls: seq<Listed>, e: Listed, order: seq<string>, defs: map<string, RawTool>,
                  having: map<string, seq<string>>, t: RawTool)
    requires Unioned(ls, order, defs, having) && t.fields == e.def
    ensures Unioned(ls + [e], if e.name in defs then order else order + [e.name], if e.name in defs then defs
            else defs[e.name := t],
                    having[e.name := (if e.name in having then having[e.name] else []) + [e.tenant]])
  {
    DefsStep(ls, e, defs, t);
    HavingStep(ls, e, having);
    OrderMembers(ls);
    assert (ls + [e])[..|ls|] == ls;
  }

  // The body of the union loops: one more tool.
  method UnionTool(tenant: string, t: RawTool, order: seq<string>, defs: map<string, RawTool>,
                   having: map<string, seq<string>>, ghost ls: seq<Listed>)
    returns (order': seq<string>, defs': map<string, RawTool>, having': map<string, seq<string>>)
    requires Unioned(ls, order, defs, having)
    ensures Unioned(ls + [Listed(tenant, NameOf(t.fields), t.fields)], order', defs', having')
  {
    var name := NameOf(t.fields);
    UnionStep(ls, Listed(tenant, name, t.fields), order, defs, having, t);
    order', defs' := order, defs;
    if name !in defs {
      order' := order + [name];
      defs' := defs[name := t];
    }
    having' := having[name := (if name in having then having[name] else []) + [tenant]];
  }

  lemma {:induction false} EntriesStep(ls: seq<Listed>, tenant: string, ds: seq<ToolDef>, j: nat)
    requires j < |ds|
    ensures ls + Entries(tenant, ds[..j + 1]) == ls + Entries(tenant, ds[..j]) + [Listed(tenant, NameOf(ds[j]), ds[j])]
  {
    assert Entries(tenant, ds[..j + 1]) == Entries(tenant, ds[..j]) + [Listed(tenant, NameOf(ds[j]), ds[j])];
  }

  // The inner union loop: one more catalog.
  method UnionOne(tenant: string, tools: seq<RawTool>, order: seq<string>, defs: map<string, RawTool>,
                  having: map<string, seq<string>>, ghost ls: seq<Listed>, ghost ds: seq<ToolDef>)
    returns (order': seq<string>, defs': map<string, RawTool>, having': map<string, seq<string>>)
    requires Unioned(ls, order, defs, having) && Matches(tools, ds)
    ensures Unioned(ls + Entries(tenant, ds), order', defs', having')
  {
    order', defs', having' := order, defs, having;
    assert ls + Entries(tenant, ds[..0]) == ls;
    for j := 0 to |tools|
      invariant Matches(tools, ds)
      invariant Unioned(ls + Entries(tenant, ds[..j]), order', defs', having')
    {
      EntriesStep(ls, tenant, ds, j);
      order', defs', having' := UnionTool(tenant, tools[j], order', defs', having', ls + Entries(tenant, ds[..j]));
    }
    assert ds[..|tools|] == ds;
  }

  lemma {:induction false} NothingUnioned()
    ensures Flatten([]) == [] && Unioned([], [], map[], map[])
  {
  }

  lemma {:induction false} FlattenStep(vs: seq<TenantTools<ToolDef>>, i: nat)
    requires i < |vs|
    ensures Flatten(vs[..i + 1]) == Flatten(vs[..i]) + Entries(vs[i].tenant.id, vs[i].tools)
  {
    assert vs[..i + 1][..i] == vs[..i];
  }

  method UnionViews(views: seq<TenantTools<RawTool>>, ghost vs: seq<TenantTools<ToolDef>>)
    returns (order: seq<string>, defs: map<string, RawTool>, having: map<string, seq<string>>)
    requires IsSnapshot(views, vs)
    ensures Unioned(Flatten(vs), order, defs, having)
  {
    hide Unioned, Flatten;
    order, defs, having := [], map[], map[];
    NothingUnioned();
    for i := 0 to |views|
      invariant IsSnapshot(views, vs)
      invariant Unioned(Flatten(vs[..i]), order, defs, having)
    {
      FlattenStep(vs, i);
      order, defs, having := UnionOne(views[i].tenant.id, views[i].tools, order, defs, having, Flatten(vs[..i]),
          vs[i].tools);
    }
    assert vs[..|views|] == vs;
  }

  // A clone of one tool, with its selector.
  method AdvertiseOne(tool: RawTool, authorized: nat, ids: seq<string>) returns (t: RawTool)
    ensures fresh(t) && t.fields == Advertised(authorized, tool.fields, ids)
  {
    t := CloneTool(tool);
    if authorized == 0 {
      InjectTenantArg(t, TenantSchema([], false), false);
    } else if authorized >= 2 {
      InjectTenantArg(t, TenantSchema(ids, |ids| >= 2), |ids| >= 2);
    }
  }

  // The advertised form of `name`.
  function AdvertisedAs(ls: seq<Listed>, name: string, authorized: nat): ToolDef
    requires name in Names(ls)
  {
    Advertised(authorized, FirstDef(ls, name), Having(ls, name))
  }

  method AdvertiseAll(order: seq<string>, defs: map<string, RawTool>, having: map<string, seq<string>>,
                      authorized: nat, ghost ls: seq<Listed>) returns (out: seq<RawTool>)
    requires DefsOf(ls, defs) && HavingOf(ls, having) && forall n :: n in order ==> n in Names(ls)
    ensures fresh(out) && |out| == |order|
    ensures forall i :: 0 <= i < |order| ==>
              order[i] in Names(ls) && out[i].fields == AdvertisedAs(ls, order[i], authorized)
  {
    hide Advertised, FirstDef, Having, Names;
    out := [];
    for k := 0 to |order|
      invariant fresh(out) && |out| == k && DefsOf(ls, defs)
      invariant forall i :: 0 <= i < k ==>
                  order[i] in Names(ls) && out[i].fields == AdvertisedAs(ls, order[i], authorized)
    {
      assert order[k] in order;
      var t := AdvertiseOne(defs[order[k]], authorized, having[order[k]]);
      out := out + [t];
    }
  }

  ghost function Listing(views: seq<TenantTools<ToolDef>>, authorized: nat): (defs: seq<ToolDef>)
    ensures var ls := Flatten(views);
            && |defs| == |Order(ls)| + 1 && defs[|Order(ls)|] == LIST_INSTANCES_DEF
            && forall i :: 0 <= i < |Order(ls)| ==>
                 Order(ls)[i] in Names(ls) && defs[i] == AdvertisedAs(ls, Order(ls)[i], authorized)
  {
    var ls := Flatten(views);
    OrderMembers(ls);
    assert forall i :: 0 <= i < |Order(ls)| ==> Order(ls)[i] in Order(ls);
    seq(|Order(ls)|, i requires 0 <= i < |Order(ls)| && Order(ls)[i] in Names(ls) => AdvertisedAs(ls, Order(ls)[i],
        authorized))
    + [LIST_INSTANCES_DEF]
  }

  // One listed tool: as its first tenant defines it, for a caller with one tenant; else
  // with a selector of the tenants that have it, which takes any string for a caller
  // with none.
  ghost predicate RightlyListed(authorized: nat, name: string, def: ToolDef, ids: seq<string>, listed: ToolDef) {
    && SameBut(def, listed, {"inputSchema"})
    && (name != "" ==> Field(listed, "name") == Some(Str(name)))
    && (authorized == 1 ==> listed == def)
    && (authorized == 0 ==> exists selector :: AddsSelector(def, [], selector, listed))
    && (authorized >= 2 ==> exists selector :: AddsSelector(def, ids, selector, listed))
  }

  // Required when there is a choice.
  ghost predicate AddsSelector(def: ToolDef, ids: seq<string>, selector: Json, listed: ToolDef) {
    RightSelector(ids, selector) && RightlyInjected(def, selector, |ids| >= 2, listed)
  }

  lemma {:induction false} AdvertisedIsRight(authorized: nat, name: string, def: ToolDef, ids: seq<string>)
    requires NameOf(def) == name
    ensures RightlyListed(authorized, name, def, ids, Advertised(authorized, def, ids))
  {
    if authorized != 1 {
      var offered := if authorized == 0 then [] else ids;
      var required := |offered| >= 2;
      var selector := TenantSchema(offered, required);
      SelectorIsRight(offered, required);
      InjectedIsRight(def, selector, required);
      hide RightSelector, TenantSchema, InjectedTool;
      assert AddsSelector(def, offered, selector, Advertised(authorized, def, ids));
    }
    assert name != "" ==> "name" in def && def["name"] == Str(name);
  }

  // The names in order of first appearance, each tool as RightlyListed says, and the
  // local tool at the end.
  ghost predicate RightListing(views: seq<TenantTools<ToolDef>>, authorized: nat, out: seq<RawTool>)
    reads out
  {
    var ls := Flatten(views);
    && |out| == |Order(ls)| + 1
    && Field(out[|Order(ls)|].fields, "name") == Some(Str("list_instances"))
    && forall i :: 0 <= i < |Order(ls)| ==>
         && Order(ls)[i] in Names(ls) && NameOf(out[i].fields) == Order(ls)[i]
         && RightlyListed(authorized, Order(ls)[i], FirstDef(ls, Order(ls)[i]), Having(ls, Order(ls)[i]), out[i].fields)
  }

  lemma {:induction false} FirstDefNamed(views: seq<TenantTools<ToolDef>>, name: string)
    requires name in Names(Flatten(views))
    ensures NameOf(FirstDef(Flatten(views), name)) == name
  {
    FirstIsFirst(Flatten(views), name);
    FlattenNames(views);
  }

  lemma {:induction false} FlattenNames(views: seq<TenantTools<ToolDef>>)
    ensures forall i :: 0 <= i < |Flatten(views)| ==> Flatten(views)[i].name == NameOf(Flatten(views)[i].def)
  {
    if views != [] {
      FlattenNames(views[..|views| - 1]);
    }
  }

  lemma {:induction false} ListingIsRight(views: seq<TenantTools<ToolDef>>, authorized: nat, out: seq<RawTool>)
    requires Matches(out, Listing(views, authorized))
    ensures RightListing(views, authorized, out)
  {
    var ls := Flatten(views);
    forall i | 0 <= i < |Order(ls)|
      ensures Order(ls)[i] in Names(ls) && NameOf(out[i].fields) == Order(ls)[i]
      ensures RightlyListed(authorized, Order(ls)[i], FirstDef(ls, Order(ls)[i]), Having(ls, Order(ls)[i]),
              out[i].fields)
    {
      var name := Order(ls)[i];
      FirstDefNamed(views, name);
      AdvertisedIsRight(authorized, name, FirstDef(ls, name), Having(ls, name));
      assert out[i].fields == AdvertisedAs(ls, name, authorized);
      KeepsName(FirstDef(ls, name), out[i].fields);
    }
  }

  lemma {:induction false} KeepsName(def: ToolDef, listed: ToolDef)
    requires SameBut(def, listed, {"inputSchema"})
    ensures NameOf(listed) == NameOf(def)
  {
    assert Field(def, "name") == Field(listed, "name");
  }

  // The whole answer for views that could be fetched, holding the definitions vs.
  // Nothing that existed before is changed: the cached tools keep their definitions,
  // whatever is injected into the clones.
  method HandleToolsList(views: seq<TenantTools<RawTool>>, authorized: nat, ghost vs: seq<TenantTools<ToolDef>>)
    returns (out: seq<RawTool>)
    requires IsSnapshot(views, vs)
    ensures fresh(out) && Matches(out, Listing(vs, authorized))
    ensures RightListing(vs, authorized, out)
    ensures IsSnapshot(views, vs)
  {
    hide Advertised, FirstDef, Having, Names, Order, Flatten, RightListing;
    var order, defs, having := UnionViews(views, vs);
    ghost var ls := Flatten(vs);
    OrderMembers(ls);
    out := AdvertiseAll(order, defs, having, authorized, ls);
    var def := new RawTool(LIST_INSTANCES_DEF);
    out := out + [def];
    assert RightListing(vs, authorized, out) by { ListingIsRight(vs, authorized, out); }
  }
}
