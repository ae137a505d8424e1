// Choosing the tenant of a tools/call (selectTenant and its helpers in
// internal/proxy/handler.go).
module Selection {
  import opened Wrappers
  import opened Strings
  import opened JsonTree
  import opened TenantRegistry
  import opened ToolSchema
  import opened ToolArguments
  import opened ToolsListing
  import opened TenantCatalogs

  // Why a call is refused, with the tenants the message offers.
  datatype Refusal =
    | UnknownTenant(choices: seq<string>)
    | NotAuthorized(choices: seq<string>)
    | NotOnTenant(choices: seq<string>)
    | NoInstances
    | NotAnywhere(choices: seq<string>)
    | Ambiguous(choices: seq<string>)

  datatype Selected = Chosen(tenant: Tenant) | Refused(why: Refusal)

  function Offers(why: Refusal): seq<string> {
    if why.NoInstances? then [] else why.choices
  }

  function IdsOf(ts: seq<Tenant>): seq<string> {
    seq(|ts|, i requires 0 <= i < |ts| => ts[i].id)
  }

  function TenantList(ts: seq<Tenant>): seq<string> {
    SortBy(IdsOf(ts), Identity)
  }

  // The tenant has the tool or, with nothing cached, may have it.
  predicate MayHave(known: Known, t: Tenant, tool: string) {
    !LookUp(known, t.id, tool).Absent?
  }

  function MayHaveAmong(known: Known, tool: string, ts: seq<Tenant>): seq<Tenant> {
    if ts == [] then []
    else
      MayHaveAmong(known, tool, ts[..|ts| - 1])
      + if MayHave(known, ts[|ts| - 1], tool) then [ts[|ts| - 1]] else []
  }

  function Without(ts: seq<Tenant>, id: string): seq<Tenant> {
    if ts == [] then []
    else Without(ts[..|ts| - 1], id) + if ts[|ts| - 1].id != id then [ts[|ts| - 1]] else []
  }

  function Available(known: Known, tool: string, t: Tenant, authorized: seq<Tenant>): Selected {
    if MayHave(known, t, tool) then Chosen(t)
    else Refused(NotOnTenant(TenantList(Without(MayHaveAmong(known, tool, authorized), t.id))))
  }

  ghost function SelectExplicit(reg: Registry, known: Known, tool: string, explicit: string, groups: seq<string>,
                                authorized: seq<Tenant>): Selected {
    match reg.ResolveTenant(explicit)
    case None => Refused(UnknownTenant(TenantList(authorized)))
    case Some(t) =>
      if !Authorized(t, groups) then Refused(NotAuthorized(TenantList(authorized)))
      else Available(known, tool, t, authorized)
  }

  function SelectImplicit(known: Known, tool: string, authorized: seq<Tenant>): Selected {
    if |authorized| == 0 then Refused(NoInstances)
    else if |authorized| == 1 then Available(known, tool, authorized[0], authorized)
    else
      var candidates := MayHaveAmong(known, tool, authorized);
      if |candidates| == 0 then Refused(NotAnywhere(TenantList(authorized)))
      else if |candidates| == 1 then Chosen(candidates[0])
      else Refused(Ambiguous(TenantList(candidates)))
  }

  ghost function Select(reg: Registry, known: Known, tool: string, args: Option<Json>, groups: seq<string>,
                        authorized: seq<Tenant>): Selected {
    var explicit := ExtractTenantArg(args);
    if explicit != "" then SelectExplicit(reg, known, tool, explicit, groups, authorized)
    else SelectImplicit(known, tool, authorized)
  }

  // ---- the loops ----

  method TenantListOf(ts: seq<Tenant>) returns (ids: seq<string>)
    ensures ids == TenantList(ts)
  {
    ids := [];
    for i := 0 to |ts|
      invariant ids == IdsOf(ts[..i])
    {
      ids := ids + [ts[i].id];
    }
    assert ts[..|ts|] == ts;
    ids := SortBy(ids, Identity);
  }

  method TenantsWithTool(cs: CatalogSet, tool: string, candidates: seq<Tenant>, ghost known: Known)
    returns (out: seq<Tenant>)
    requires cs.Holds(known)
    ensures out == MayHaveAmong(known, tool, candidates)
  {
    out := [];
    for i := 0 to |candidates|
      invariant out == MayHaveAmong(known, tool, candidates[..i])
    {
      var r := cs.CachedTool(candidates[i].id, tool, known);
      if r.Found? || r.Unknown? {
        out := out + [candidates[i]];
      }
      assert candidates[..i + 1][..i] == candidates[..i];
    }
    assert candidates[..|candidates|] == candidates;
  }

  // None when the tool is or may be there, else the other tenants that have it.
  method Unavailable(cs: CatalogSet, tool: string, tenant: Tenant, authorized: seq<Tenant>, ghost known: Known)
    returns (r: Selected)
    requires cs.Holds(known)
    ensures r == Available(known, tool, tenant, authorized)
  {
    var look := cs.CachedTool(tenant.id, tool, known);
    if look.Found? || look.Unknown? {
      return Chosen(tenant);
    }
    var having := TenantsWithTool(cs, tool, authorized, known);
    var others: seq<Tenant> := [];
    for i := 0 to |having|
      invariant others == Without(having[..i], tenant.id)
    {
      if having[i].id != tenant.id {
        others := others + [having[i]];
      }
      assert having[..i + 1][..i] == having[..i];
    }
    assert having[..|having|] == having;
    var choices := TenantListOf(others);
    return Refused(NotOnTenant(choices));
  }

  method SelectTenant(reg: Registry, cs: CatalogSet, tool: string, args: Option<Json>, groups: seq<string>,
                      authorized: seq<Tenant>, ghost known: Known) returns (r: Selected)
    requires cs.Holds(known)
    ensures r == Select(reg, known, tool, args, groups, authorized)
    ensures reg.WellFormed() && IsAuthorizedList(reg, groups, authorized) ==>
              RightlySelected(reg, known, tool, args, groups, r)
  {
    if reg.WellFormed() && IsAuthorizedList(reg, groups, authorized) {
      SelectIsRight(reg, known, tool, args, groups, authorized);
    }
    hide RightlySelected;
    var explicit := ExtractTenantArg(args);
    if explicit != "" {
      var resolved := reg.ResolveTenant(explicit);
      if resolved.None? {
        var choices := TenantListOf(authorized);
        return Refused(UnknownTenant(choices));
      }
      var ok := IsAuthorized(resolved.value, groups);
      if !ok {
        var choices := TenantListOf(authorized);
        return Refused(NotAuthorized(choices));
      }
      r := Unavailable(cs, tool, resolved.value, authorized, known);
      return;
    }
    if |authorized| == 0 {
      return Refused(NoInstances);
    }
    if |authorized| == 1 {
      r := Unavailable(cs, tool, authorized[0], authorized, known);
      return;
    }
    var candidates := TenantsWithTool(cs, tool, authorized, known);
    if |candidates| == 0 {
      var choices := TenantListOf(authorized);
      return Refused(NotAnywhere(choices));
    }
    if |candidates| == 1 {
      return Chosen(candidates[0]);
    }
    var choices := TenantListOf(candidates);
    return Refused(Ambiguous(choices));
  }

  // ---- filters ----

  lemma {:induction false} MayHaveAmongMembers(known: Known, tool: string, ts: seq<Tenant>)
    ensures forall t :: t in MayHaveAmong(known, tool, ts) <==> t in ts && MayHave(known, t, tool)
  {
    if ts != [] {
      var n := |ts| - 1;
      MayHaveAmongMembers(known, tool, ts[..n]);
      assert ts == ts[..n] + [ts[n]];
    }
  }

  lemma {:induction false} WithoutMembers(ts: seq<Tenant>, id: string)
    ensures forall t :: t in Without(ts, id) <==> t in ts && t.id != id
  {
    if ts != [] {
      var n := |ts| - 1;
      WithoutMembers(ts[..n], id);
      assert ts == ts[..n] + [ts[n]];
    }
  }

  lemma {:induction false} TenantListMembers(ts: seq<Tenant>)
    ensures forall id :: id in TenantList(ts) <==> exists t :: t in ts && t.id == id
  {
    SameElements(TenantList(ts), IdsOf(ts));
    forall id ensures id in IdsOf(ts) <==> exists t :: t in ts && t.id == id {
      if t :| t in ts && t.id == id {
        var i :| 0 <= i < |ts| && ts[i] == t;
        assert IdsOf(ts)[i] == id;
      }
      if id in IdsOf(ts) {
        var i :| 0 <= i < |ts| && IdsOf(ts)[i] == id;
        assert ts[i] in ts;
      }
    }
  }

  // ---- authorization ----

  ghost predicate AuthorizedId(reg: Registry, groups: seq<string>, id: string) {
    id in reg.byTenant && Authorized(reg.byTenant[id], groups)
  }

  lemma {:induction false} ListOffersAuthorized(reg: Registry, groups: seq<string>, authorized: seq<Tenant>,
                                                ts: seq<Tenant>)
    requires IsAuthorizedList(reg, groups, authorized)
    requires forall t :: t in ts ==> t in authorized
    ensures forall id :: id in TenantList(ts) ==> AuthorizedId(reg, groups, id)
  {
    TenantListMembers(ts);
    forall id | id in TenantList(ts) ensures AuthorizedId(reg, groups, id) {
      var t :| t in ts && t.id == id;
      assert t in authorized;
    }
  }

  ghost predicate KeepsToCaller(reg: Registry, groups: seq<string>, authorized: seq<Tenant>, r: Selected) {
    match r
    case Chosen(t) => t in authorized && reg.Registered(t) && Authorized(t, groups)
    case Refused(why) => forall id :: id in Offers(why) ==> AuthorizedId(reg, groups, id)
  }

  lemma {:induction false} AvailableKeepsToCaller(reg: Registry, known: Known, tool: string, t: Tenant,
                                                  groups: seq<string>, authorized: seq<Tenant>)
    requires IsAuthorizedList(reg, groups, authorized) && t in authorized
    ensures KeepsToCaller(reg, groups, authorized, Available(known, tool, t, authorized))
  {
    var having := MayHaveAmong(known, tool, authorized);
    MayHaveAmongMembers(known, tool, authorized);
    WithoutMembers(having, t.id);
    ListOffersAuthorized(reg, groups, authorized, Without(having, t.id));
  }

  lemma {:induction false} ExplicitKeepsToCaller(reg: Registry, known: Known, tool: string, explicit: string,
                                                 groups: seq<string>, authorized: seq<Tenant>)
    requires reg.WellFormed() && IsAuthorizedList(reg, groups, authorized)
    ensures KeepsToCaller(reg, groups, authorized, SelectExplicit(reg, known, tool, explicit, groups, authorized))
  {
    ListOffersAuthorized(reg, groups, authorized, authorized);
    var resolved := reg.ResolveTenant(explicit);
    if resolved.Some? && Authorized(resolved.value, groups) {
      assert reg.Registered(resolved.value);
      AvailableKeepsToCaller(reg, known, tool, resolved.value, groups, authorized);
    }
  }

  lemma {:induction false} ImplicitKeepsToCaller(reg: Registry, known: Known, tool: string, groups: seq<string>,
                                                 authorized: seq<Tenant>)
    requires IsAuthorizedList(reg, groups, authorized)
    ensures KeepsToCaller(reg, groups, authorized, SelectImplicit(known, tool, authorized))
  {
    ListOffersAuthorized(reg, groups, authorized, authorized);
    if |authorized| == 1 {
      assert authorized[0] in authorized;
      AvailableKeepsToCaller(reg, known, tool, authorized[0], groups, authorized);
    } else {
      CandidatesKeepToCaller(reg, known, tool, groups, authorized);
    }
  }

  lemma {:induction false} CandidatesKeepToCaller(reg: Registry, known: Known, tool: string, groups: seq<string>,
                                                  authorized: seq<Tenant>)
    requires IsAuthorizedList(reg, groups, authorized)
    ensures var having := MayHaveAmong(known, tool, authorized);
            && (forall id :: id in TenantList(having) ==> AuthorizedId(reg, groups, id))
            && (|having| == 1 ==> KeepsToCaller(reg, groups, authorized, Chosen(having[0])))
  {
    var having := MayHaveAmong(known, tool, authorized);
    MayHaveAmongMembers(known, tool, authorized);
    ListOffersAuthorized(reg, groups, authorized, having);
    assert |having| == 1 ==> having[0] in having;
  }

  // Every tenant a call is routed to, and every tenant a refusal offers, is one the
  // caller's groups authorize.
  lemma {:induction false} SelectionIsAuthorized(reg: Registry, known: Known, tool: string, args: Option<Json>,
                                                 groups: seq<string>, authorized: seq<Tenant>)
    requires reg.WellFormed() && IsAuthorizedList(reg, groups, authorized)
    ensures KeepsToCaller(reg, groups, authorized, Select(reg, known, tool, args, groups, authorized))
  {
    ExplicitKeepsToCaller(reg, known, tool, ExtractTenantArg(args), groups, authorized);
    ImplicitKeepsToCaller(reg, known, tool, groups, authorized);
  }

  // ---- knowledge ----

  // known' knows all that known does, and possibly more.
  ghost predicate Extends(known: Known, known': Known) {
    forall id :: id in known && known[id].Some? ==> id in known' && known'[id] == known[id]
  }

  // A refusal for want of the tool is never wrong: the tenant's catalog is known and
  // lacks it. In particular a cold cache never refuses a tool.
  lemma {:induction false} RefusalsAreInformed(reg: Registry, known: Known, tool: string, args: Option<Json>,
                                               groups: seq<string>, authorized: seq<Tenant>)
    ensures match Select(reg, known, tool, args, groups, authorized)
            case Refused(NotOnTenant(_)) =>
              exists t: Tenant :: LookUp(known, t.id, tool).Absent?
                          && (if ExtractTenantArg(args) != "" then reg.ResolveTenant(ExtractTenantArg(args)) == Some(t)
                              else authorized == [t])
            case Refused(NotAnywhere(_)) => forall t :: t in authorized ==> LookUp(known, t.id, tool).Absent?
            case _ => true
  {
    MayHaveAmongMembers(known, tool, authorized);
    match Select(reg, known, tool, args, groups, authorized)
    case Refused(NotOnTenant(_)) =>
      var t := if ExtractTenantArg(args) != "" then reg.ResolveTenant(ExtractTenantArg(args)).value else authorized[0];
      assert LookUp(known, t.id, tool).Absent?;
    case Refused(NotAnywhere(_)) =>
      var having := MayHaveAmong(known, tool, authorized);
      forall t | t in authorized ensures LookUp(known, t.id, tool).Absent? {
        assert t !in having;
      }
    case _ =>
  }

  // Filling in cold catalogs only removes candidates.
  lemma {:induction false} CandidatesShrink(known: Known, known': Known, tool: string, ts: seq<Tenant>)
    requires Extends(known, known')
    ensures MayHaveAmong(known', tool, ts) == MayHaveAmong(known', tool, MayHaveAmong(known, tool, ts))
    ensures |MayHaveAmong(known', tool, ts)| <= |MayHaveAmong(known, tool, ts)|
  {
    if ts != [] {
      var n := |ts| - 1;
      CandidatesShrink(known, known', tool, ts[..n]);
      var before := MayHaveAmong(known, tool, ts[..n]);
      if MayHave(known, ts[n], tool) {
        assert (before + [ts[n]])[..|before|] == before;
      } else {
        assert !MayHave(known', ts[n], tool) && MayHaveAmong(known, tool, ts) == before;
      }
    }
  }

  // With every catalog known, the candidates are exactly the tenants tools/list names
  // for the tool.
  lemma {:induction false} CandidatesWhenAllKnown(known: Known, tool: string, views: seq<TenantTools<ToolDef>>)
    requires forall v :: v in views ==> v.tenant.id in known && known[v.tenant.id] == Some(v.tools)
    ensures IdsOf(MayHaveAmong(known, tool, TenantsOf(views))) == TenantsHaving(views, tool)
  {
    if views != [] {
      var n := |views| - 1;
      CandidatesWhenAllKnown(known, tool, views[..n]);
      assert TenantsOf(views)[..n] == TenantsOf(views[..n]);
      assert views[n] in views;
      var before := MayHaveAmong(known, tool, TenantsOf(views[..n]));
      assert IdsOf(before + [views[n].tenant]) == IdsOf(before) + [views[n].tenant.id];
    }
  }

  function TenantsOf(views: seq<TenantTools<ToolDef>>): seq<Tenant> {
    seq(|views|, i requires 0 <= i < |views| => views[i].tenant)
  }

  // ---- what is selected, and what a refusal offers, in plain terms ----

  // The tenant's catalog is cached and has no such tool.
  ghost predicate KnownLacking(known: Known, id: string, tool: string) {
    && id in known && known[id].Some?
    && forall i :: 0 <= i < |known[id].value| ==> NameOf(known[id].value[i]) != tool
  }

  // One of the caller's tenants, not known to lack the tool.
  ghost predicate Possible(reg: Registry, known: Known, groups: seq<string>, tool: string, id: string) {
    AuthorizedId(reg, groups, id) && !KnownLacking(known, id, tool)
  }

  ghost predicate StrictlyOrdered(ids: seq<string>) {
    forall i, j :: 0 <= i < j < |ids| ==> Less(ids[i], ids[j])
  }

  // The caller's tenants, each once and in order.
  ghost predicate OffersAll(reg: Registry, groups: seq<string>, ids: seq<string>) {
    StrictlyOrdered(ids) && forall id :: id in ids <==> AuthorizedId(reg, groups, id)
  }

  // Those of them that have or may have the tool, but for one.
  ghost predicate OffersPossible(reg: Registry, known: Known, groups: seq<string>, tool: string, but: Option<string>,
                                 ids: seq<string>)
  {
    StrictlyOrdered(ids) && forall id :: id in ids <==> Possible(reg, known, groups, tool, id) && but != Some(id)
  }

  // The tenant a call names, if it names one.
  ghost predicate NamesTenant(args: Option<Json>, id: string) {
    id != "" && args.Some? && args.value.Obj? && "tenant" in args.value.fields && args.value.fields["tenant"] == Str(id)
  }

  ghost predicate NamesNone(args: Option<Json>) {
    forall id :: !NamesTenant(args, id)
  }

  // The outcome for a call that names `id`.
  ghost predicate RightlyNamed(reg: Registry, known: Known, tool: string, id: string, groups: seq<string>,
                               r: Selected) {
    if id !in reg.byTenant then r.Refused? && r.why.UnknownTenant? && OffersAll(reg, groups, r.why.choices)
    else if !AuthorizedId(reg, groups, id) then
      r.Refused? && r.why.NotAuthorized? && OffersAll(reg, groups, r.why.choices)
    else if KnownLacking(known, id, tool) then
      r.Refused? && r.why.NotOnTenant? && OffersPossible(reg, known, groups, tool, Some(id), r.why.choices)
    else r == Chosen(reg.byTenant[id])
  }

  // The outcome for a call that names none: the one tenant that is possible; with
  // several, they are offered; with none, the caller's tenants are, if there is a choice.
  ghost predicate RightlyUnnamed(reg: Registry, known: Known, tool: string, groups: seq<string>, r: Selected) {
    match r
    case Chosen(t) =>
      Possible(reg, known, groups, tool, t.id) && t == reg.byTenant[t.id]
      && forall id :: Possible(reg, known, groups, tool, id) ==> id == t.id
    case Refused(Ambiguous(ids)) => |ids| >= 2 && OffersPossible(reg, known, groups, tool, None, ids)
    case Refused(NoInstances) => forall id :: !AuthorizedId(reg, groups, id)
    case Refused(NotAnywhere(ids)) =>
      |ids| >= 2 && OffersAll(reg, groups, ids) && forall id :: !Possible(reg, known, groups, tool, id)
    case Refused(NotOnTenant(ids)) =>
      ids == [] && exists id ::
        AuthorizedId(reg, groups, id) && KnownLacking(known, id, tool) && OnlyTenant(reg, groups, id)
    case _ => false
  }

  ghost predicate OnlyTenant(reg: Registry, groups: seq<string>, id: string) {
    forall other :: AuthorizedId(reg, groups, other) ==> other == id
  }

  lemma {:induction false} MayHaveMeans(known: Known, t: Tenant, tool: string)
    ensures MayHave(known, t, tool) <==> !KnownLacking(known, t.id, tool)
  {
    if t.id in known && known[t.id].Some? && HasTool(known[t.id].value, tool) {
      var i :| 0 <= i < |known[t.id].value| && NameOf(known[t.id].value[i]) == tool;
    }
  }

  lemma {:induction false} MayHaveAmongSorted(known: Known, tool: string, ts: seq<Tenant>)
    requires StrictlySortedBy(ts, TenantId)
    ensures StrictlySortedBy(MayHaveAmong(known, tool, ts), TenantId)
  {
    if ts != [] {
      var n := |ts| - 1;
      MayHaveAmongSorted(known, tool, ts[..n]);
      MayHaveAmongMembers(known, tool, ts[..n]);
      LastIsGreatest(ts, MayHaveAmong(known, tool, ts[..n]));
    }
  }

  lemma {:induction false} WithoutSorted(ts: seq<Tenant>, id: string)
    requires StrictlySortedBy(ts, TenantId)
    ensures StrictlySortedBy(Without(ts, id), TenantId)
  {
    if ts != [] {
      var n := |ts| - 1;
      WithoutSorted(ts[..n], id);
      WithoutMembers(ts[..n], id);
      LastIsGreatest(ts, Without(ts[..n], id));
    }
  }

  lemma {:induction false} LastIsGreatest(ts: seq<Tenant>, some: seq<Tenant>)
    requires ts != [] && StrictlySortedBy(ts, TenantId) && StrictlySortedBy(some, TenantId)
    requires forall t :: t in some ==> t in ts[..|ts| - 1]
    ensures StrictlySortedBy(some + [ts[|ts| - 1]], TenantId)
  {
    var n := |ts| - 1;
    forall i | 0 <= i < |some| ensures Less(TenantId(some[i]), TenantId(ts[n])) {
      assert some[i] in some;
      var k :| 0 <= k < n && ts[..n][k] == some[i];
      assert Less(TenantId(ts[k]), TenantId(ts[n]));
    }
  }

  // The offered list, for tenants in order.
  lemma {:induction false} TenantListOrdered(ts: seq<Tenant>)
    requires StrictlySortedBy(ts, TenantId)
    ensures StrictlyOrdered(TenantList(ts)) && |TenantList(ts)| == |ts|
    ensures forall id :: id in TenantList(ts) <==> exists t :: t in ts && t.id == id
  {
    var ids := IdsOf(ts);
    forall i, j | 0 <= i < j < |ids| ensures Identity(ids[i]) != Identity(ids[j]) {
      assert Less(TenantId(ts[i]), TenantId(ts[j]));
      LessAsymmetric(ids[i], ids[i]);
    }
    SortStrict(ids, Identity);
    SameElements(TenantList(ts), ids);
    TenantListMembers(ts);
    forall i, j | 0 <= i < j < |TenantList(ts)| ensures Less(TenantList(ts)[i], TenantList(ts)[j]) {
      assert Less(Identity(TenantList(ts)[i]), Identity(TenantList(ts)[j]));
    }
  }

  lemma {:induction false} AllOffered(reg: Registry, groups: seq<string>, authorized: seq<Tenant>)
    requires reg.WellFormed() && IsAuthorizedList(reg, groups, authorized)
    ensures OffersAll(reg, groups, TenantList(authorized)) && |TenantList(authorized)| == |authorized|
  {
    TenantListOrdered(authorized);
    forall id ensures AuthorizedId(reg, groups, id) <==> exists t :: t in authorized && t.id == id {
      if AuthorizedId(reg, groups, id) {
        assert reg.byTenant[id] in authorized;
      }
    }
  }

  // The tenants of a list that is ordered and holds just the possible ones, but for one.
  ghost predicate HoldsPossible(reg: Registry, known: Known, groups: seq<string>, tool: string, but: Option<string>,
                                ts: seq<Tenant>)
  {
    && StrictlySortedBy(ts, TenantId)
    && forall t :: t in ts <==> t.id in reg.byTenant && reg.byTenant[t.id] == t
                                && Possible(reg, known, groups, tool, t.id) && but != Some(t.id)
  }

  lemma {:induction false} PossibleHeld(reg: Registry, known: Known, groups: seq<string>, tool: string,
                                        authorized: seq<Tenant>)
    requires reg.WellFormed() && IsAuthorizedList(reg, groups, authorized)
    ensures HoldsPossible(reg, known, groups, tool, None, MayHaveAmong(known, tool, authorized))
  {
    MayHaveAmongSorted(known, tool, authorized);
    MayHaveAmongMembers(known, tool, authorized);
    forall t: Tenant ensures MayHave(known, t, tool) <==> !KnownLacking(known, t.id, tool) {
      MayHaveMeans(known, t, tool);
    }
  }

  lemma {:induction false} OthersHeld(reg: Registry, known: Known, groups: seq<string>, tool: string, id: string,
                                      ts: seq<Tenant>)
    requires HoldsPossible(reg, known, groups, tool, None, ts)
    ensures HoldsPossible(reg, known, groups, tool, Some(id), Without(ts, id))
  {
    WithoutSorted(ts, id);
    WithoutMembers(ts, id);
  }

  lemma {:induction false} PossibleOffered(reg: Registry, known: Known, groups: seq<string>, tool: string,
                                           but: Option<string>,
                                           ts: seq<Tenant>)
    requires reg.WellFormed() && HoldsPossible(reg, known, groups, tool, but, ts)
    ensures OffersPossible(reg, known, groups, tool, but, TenantList(ts)) && |TenantList(ts)| == |ts|
  {
    TenantListOrdered(ts);
    forall id ensures Possible(reg, known, groups, tool, id) && but != Some(id) <==> exists t :: t in ts && t.id == id {
      if Possible(reg, known, groups, tool, id) && but != Some(id) {
        assert reg.byTenant[id] in ts;
      }
    }
  }

  lemma {:induction false} NamedIsRight(reg: Registry, known: Known, tool: string, id: string, groups: seq<string>,
                                        authorized: seq<Tenant>)
    requires reg.WellFormed() && IsAuthorizedList(reg, groups, authorized)
    ensures RightlyNamed(reg, known, tool, id, groups, SelectExplicit(reg, known, tool, id, groups, authorized))
  {
    hide HoldsPossible, OffersPossible, OffersAll, KnownLacking, MayHave, TenantList, Without, MayHaveAmong;
    hide IsAuthorizedList, AuthorizedId;
    var having := MayHaveAmong(known, tool, authorized);
    AllOffered(reg, groups, authorized);
    PossibleHeld(reg, known, groups, tool, authorized);
    OthersHeld(reg, known, groups, tool, id, having);
    PossibleOffered(reg, known, groups, tool, Some(id), Without(having, id));
    if id in reg.byTenant {
      MayHaveMeans(known, reg.byTenant[id], tool);
      SameAuthorization(reg, groups, id);
    }
  }

  lemma {:induction false} SameAuthorization(reg: Registry, groups: seq<string>, id: string)
    requires id in reg.byTenant
    ensures AuthorizedId(reg, groups, id) <==> Authorized(reg.byTenant[id], groups)
  {
  }

  lemma {:induction false} OneTenantIsRight(reg: Registry, known: Known, tool: string, groups: seq<string>,
                                            authorized: seq<Tenant>)
    requires reg.WellFormed() && IsAuthorizedList(reg, groups, authorized) && |authorized| == 1
    ensures RightlyUnnamed(reg, known, tool, groups, SelectImplicit(known, tool, authorized))
  {
    var t := authorized[0];
    assert t in authorized;
    MayHaveMeans(known, t, tool);
    forall id | AuthorizedId(reg, groups, id) ensures id == t.id {
      assert reg.byTenant[id] in authorized;
    }
    if !MayHave(known, t, tool) {
      var having := MayHaveAmong(known, tool, authorized);
      MayHaveAmongMembers(known, tool, authorized);
      WithoutMembers(having, t.id);
      HeadIsElement(Without(having, t.id));
      TenantListMembers([]);
      HeadIsElement(TenantList([]));
      assert OnlyTenant(reg, groups, t.id) && AuthorizedId(reg, groups, t.id);
    }
  }

  lemma {:induction false} OnePossibleIsRight(reg: Registry, known: Known, tool: string, groups: seq<string>, t: Tenant)
    requires reg.WellFormed() && HoldsPossible(reg, known, groups, tool, None, [t])
    ensures RightlyUnnamed(reg, known, tool, groups, Chosen(t))
  {
    assert t in [t];
    forall id | Possible(reg, known, groups, tool, id) ensures id == t.id {
      assert reg.byTenant[id] in [t];
    }
  }

  lemma {:induction false} NonePossibleIsRight(reg: Registry, known: Known, tool: string, groups: seq<string>,
                                               ids: seq<string>)
    requires reg.WellFormed() && HoldsPossible(reg, known, groups, tool, None, [])
    requires OffersAll(reg, groups, ids) && |ids| != 1
    ensures RightlyUnnamed(reg, known, tool, groups, Refused(if |ids| == 0 then NoInstances else NotAnywhere(ids)))
  {
    forall id ensures !Possible(reg, known, groups, tool, id) {
      assert id in reg.byTenant ==> reg.byTenant[id] !in [];
    }
  }

  lemma {:induction false} ManyPossibleIsRight(reg: Registry, known: Known, tool: string, groups: seq<string>,
                                               ids: seq<string>)
    requires OffersPossible(reg, known, groups, tool, None, ids) && |ids| >= 2
    ensures RightlyUnnamed(reg, known, tool, groups, Refused(Ambiguous(ids)))
  {
  }

  lemma {:induction false} SeveralAreRight(reg: Registry, known: Known, tool: string, groups: seq<string>,
                                           authorized: seq<Tenant>)
    requires reg.WellFormed() && IsAuthorizedList(reg, groups, authorized) && |authorized| != 1
    ensures RightlyUnnamed(reg, known, tool, groups, SelectImplicit(known, tool, authorized))
  {
    assert MayHaveAmong(known, tool, []) == [];
    hide HoldsPossible, OffersAll, OffersPossible, TenantList, MayHaveAmong, IsAuthorizedList, AuthorizedId, Possible;
    hide RightlyUnnamed, KnownLacking, MayHave;
    var having := MayHaveAmong(known, tool, authorized);
    AllOffered(reg, groups, authorized);
    PossibleHeld(reg, known, groups, tool, authorized);
    PossibleOffered(reg, known, groups, tool, None, having);
    if |having| == 0 {
      NonePossibleIsRight(reg, known, tool, groups, TenantList(authorized));
    } else if |having| == 1 {
      assert having == [having[0]];
      OnePossibleIsRight(reg, known, tool, groups, having[0]);
    } else {
      ManyPossibleIsRight(reg, known, tool, groups, TenantList(having));
    }
  }

  // The whole of selectTenant.
  ghost predicate RightlySelected(reg: Registry, known: Known, tool: string, args: Option<Json>, groups: seq<string>,
                                  r: Selected)
  {
    && (forall id :: NamesTenant(args, id) ==> RightlyNamed(reg, known, tool, id, groups, r))
    && (NamesNone(args) ==> RightlyUnnamed(reg, known, tool, groups, r))
  }

  lemma {:induction false} SelectIsRight(reg: Registry, known: Known, tool: string, args: Option<Json>,
                                         groups: seq<string>,
                                         authorized: seq<Tenant>)
    requires reg.WellFormed() && IsAuthorizedList(reg, groups, authorized)
    ensures RightlySelected(reg, known, tool, args, groups, Select(reg, known, tool, args, groups, authorized))
  {
    var explicit := ExtractTenantArg(args);
    forall id | NamesTenant(args, id) ensures id == explicit {
      ExtractMeans(args, id);
    }
    if explicit != "" {
      ExtractMeans(args, explicit);
      assert NamesTenant(args, explicit);
      NamedIsRight(reg, known, tool, explicit, groups, authorized);
    } else if |authorized| == 1 {
      OneTenantIsRight(reg, known, tool, groups, authorized);
    } else {
      SeveralAreRight(reg, known, tool, groups, authorized);
    }
  }
}
