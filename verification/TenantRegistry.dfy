// The immutable tenant index (internal/registry/registry.go).
module TenantRegistry {
  import opened Wrappers
  import opened Strings
  import opened Configuration

  datatype Backend = Backend(
    name: string, url: string, headers: map<string, string>, credential: string,
    credentialHeader: string, credentialScheme: string, protocolVersion: string)
  {
    predicate Stateless() { protocolVersion == STATELESS }
  }

  datatype Tenant = Tenant(
    id: string, groups: seq<string>, headers: map<string, string>, credential: string, backend: Backend)
  {
    function EffectiveCredential(): string {
      if credential != "" then credential else backend.credential
    }
  }

  function TenantId(t: Tenant): string { t.id }

  ghost predicate Authorized(t: Tenant, groups: seq<string>) {
    exists g :: g in t.groups && g in groups
  }

  method IsAuthorized(t: Tenant, groups: seq<string>) returns (ok: bool)
    ensures ok <==> Authorized(t, groups)
  {
    var groupSet: set<string> := {};
    for i := 0 to |groups|
      invariant forall g :: g in groupSet <==> g in groups[..i]
    {
      groupSet := groupSet + {groups[i]};
    }
    for i := 0 to |t.groups|
      invariant forall k :: 0 <= k < i ==> t.groups[k] !in groups
    {
      if t.groups[i] in groupSet {
        assert t.groups[i] in t.groups && t.groups[i] in groups;
        return true;
      }
    }
    return false;
  }

  // "The strictly id-sorted list of the registered tenants the groups authorize."
  ghost predicate IsAuthorizedList(reg: Registry, groups: seq<string>, out: seq<Tenant>) {
    && StrictlySortedBy(out, TenantId)
    && forall t :: t in out <==> reg.Registered(t) && Authorized(t, groups)
  }

  lemma {:induction false} AuthorizedListUnique(reg: Registry, groups: seq<string>, a: seq<Tenant>, b: seq<Tenant>)
    requires IsAuthorizedList(reg, groups, a) && IsAuthorizedList(reg, groups, b)
    ensures a == b
  {
    StrictOrderUnique(a, b, TenantId);
  }

  lemma {:induction false} ListMeans(reg: Registry, groups: seq<string>, out: seq<Tenant>)
    requires IsAuthorizedList(reg, groups, out)
    ensures forall i, j :: 0 <= i < j < |out| ==> Less(out[i].id, out[j].id)
    ensures forall t :: t in out <==> t.id in reg.byTenant && reg.byTenant[t.id] == t && exists g ::
            g in t.groups && g in groups
  {
    forall i, j | 0 <= i < j < |out| ensures Less(out[i].id, out[j].id) {
      assert Less(TenantId(out[i]), TenantId(out[j]));
    }
  }

  datatype Registry = Registry(byTenant: map<string, Tenant>, backends: seq<Backend>) {
    ghost predicate Registered(t: Tenant) {
      t.id in byTenant && byTenant[t.id] == t
    }

    // What New establishes for a configuration that Validate accepts.
    ghost predicate WellFormed() {
      && (forall id :: id in byTenant ==> id != "" && byTenant[id].id == id && byTenant[id].backend in backends)
      && (forall i, j :: 0 <= i < j < |backends| ==> backends[i].name != backends[j].name)
      && byTenant != map[]
    }

    method AllStateless() returns (all: bool)
      ensures all <==> EveryStateless()
      ensures all <==> backends != [] && forall i :: 0 <= i < |backends| ==> backends[i].protocolVersion == "2026-07-28"
    {
      for i := 0 to |backends|
        invariant forall k :: 0 <= k < i ==> backends[k].Stateless()
      {
        if !backends[i].Stateless() {
          return false;
        }
      }
      return |backends| > 0;
    }

    ghost predicate EveryStateless() {
      backends != [] && forall b :: b in backends ==> b.Stateless()
    }

    function ResolveTenant(id: string): Option<Tenant> {
      if id in byTenant then Some(byTenant[id]) else None
    }

    // All registered tenants, in whatever order the map yields them.
    method Tenants() returns (out: seq<Tenant>)
      requires forall id :: id in byTenant ==> byTenant[id].id == id
      ensures DistinctBy(out, TenantId)
      ensures forall t :: t in out <==> Registered(t)
    {
      out := [];
      var remaining := byTenant.Keys;
      while remaining != {}
        invariant remaining <= byTenant.Keys
        invariant DistinctBy(out, TenantId)
        invariant forall t :: t in out <==> Registered(t) && t.id !in remaining
      {
        var id :| id in remaining;
        remaining := remaining - {id};
        out := out + [byTenant[id]];
      }
    }

    method AuthorizedTenants(groups: seq<string>) returns (out: seq<Tenant>)
      requires forall id :: id in byTenant ==> byTenant[id].id == id
      ensures IsAuthorizedList(this, groups, out)
      ensures forall i, j :: 0 <= i < j < |out| ==> Less(out[i].id, out[j].id)
      ensures forall t :: t in out <==> t.id in byTenant && byTenant[t.id] == t && exists g ::
              g in t.groups && g in groups
    {
      var groupSet: set<string> := {};
      for i := 0 to |groups|
        invariant forall g :: g in groupSet <==> g in groups[..i]
      {
        groupSet := groupSet + {groups[i]};
      }
      var found := [];
      var remaining := byTenant.Keys;
      while remaining != {}
        invariant remaining <= byTenant.Keys
        invariant DistinctBy(found, TenantId)
        invariant forall t :: t in found <==> Registered(t) && t.id !in remaining && Authorized(t, groups)
      {
        var id :| id in remaining;
        remaining := remaining - {id};
        var t := byTenant[id];
        var hit := false;
        for i := 0 to |t.groups|
          invariant !hit
          invariant forall k :: 0 <= k < i ==> t.groups[k] !in groups
        {
          if t.groups[i] in groupSet {
            assert t.groups[i] in t.groups && t.groups[i] in groups;
            hit := true;
            break;
          }
        }
        assert !hit ==> forall g :: g in t.groups ==> g !in groups;
        if hit {
          found := found + [t];
        }
      }
      out := SortBy(found, TenantId);
      SortStrict(found, TenantId);
      SameElements(out, found);
      ListMeans(this, groups, out);
    }
  }

  // What url.Parse makes of a configured URL.
  datatype UrlKind = Malformed | Relative | Absolute

  datatype RegistryError = BadURL(name: string) | RelativeURL(name: string) | Duplicate(id: string) | NoTenant

  function Resolve(bc: BackendConfig): Backend {
    Backend(bc.name, bc.url, bc.headers, bc.credential,
            if bc.credentialHeader == "" then "Authorization" else bc.credentialHeader,
            if bc.credentialScheme.Some? then bc.credentialScheme.value else "Bearer",
            if bc.protocolVersion == "" then STATEFUL else bc.protocolVersion)
  }

  function ResolveTenantConfig(tc: TenantConfig, b: Backend): Tenant {
    Tenant(tc.id, tc.groups, tc.headers, tc.credential, b)
  }

  function TenantAt(bs: seq<BackendConfig>, j: int, tj: int): Tenant
    requires Declares(bs, j, tj)
  {
    ResolveTenantConfig(bs[j].tenants[tj], Resolve(bs[j]))
  }

  function Owners(byTenant: map<string, Tenant>): map<string, string> {
    map id | id in byTenant :: byTenant[id].backend.name
  }

  // The index holds exactly the tenants declared before (i, ti), each with the
  // backend that declared it; `at` remembers which declaration that is.
  ghost predicate IndexUpTo(bs: seq<BackendConfig>, i: int, ti: int, byTenant: map<string, Tenant>,
                            at: map<string, (int, int)>) {
    && OwnersUpTo(bs, i, ti, Owners(byTenant), at)
    && forall id :: id in at ==> Declares(bs, at[id].0, at[id].1) && byTenant[id] == TenantAt(bs, at[id].0, at[id].1)
  }

  ghost predicate Indexes(bs: seq<BackendConfig>, reg: Registry) {
    && |reg.backends| == |bs|
    && (forall i :: 0 <= i < |bs| ==> reg.backends[i] == Resolve(bs[i]))
    && exists at :: IndexUpTo(bs, |bs|, 0, reg.byTenant, at)
  }

  ghost predicate Acceptable(bs: seq<BackendConfig>, parse: string -> UrlKind) {
    && (forall i :: 0 <= i < |bs| ==> parse(bs[i].url).Absolute?)
    && DistinctIds(bs)
    && exists j, tj :: Declares(bs, j, tj)
  }

  // ---- what an index says, field by field ----

  ghost predicate Describes(bc: BackendConfig, b: Backend) {
    && b.name == bc.name && b.url == bc.url && b.headers == bc.headers && b.credential == bc.credential
    && (bc.credentialHeader != "" ==> b.credentialHeader == bc.credentialHeader)
    && (bc.credentialHeader == "" ==> b.credentialHeader == "Authorization")
    && (bc.credentialScheme.Some? ==> b.credentialScheme == bc.credentialScheme.value)
    && (bc.credentialScheme.None? ==> b.credentialScheme == "Bearer")
    && (bc.protocolVersion != "" ==> b.protocolVersion == bc.protocolVersion)
    && (bc.protocolVersion == "" ==> b.protocolVersion == "2025-03-26")
  }

  // The backends in order; and under each declared id, and under no other, the tenant
  // as it was declared, with the backend that declared it.
  ghost predicate RightlyIndexed(bs: seq<BackendConfig>, reg: Registry) {
    && |reg.backends| == |bs| && (forall i :: 0 <= i < |bs| ==> Describes(bs[i], reg.backends[i]))
    && (forall j, tj :: Declares(bs, j, tj) ==> bs[j].tenants[tj].id in reg.byTenant && IndexedAs(bs, reg, j, tj))
    && forall id :: id in reg.byTenant ==> exists j, tj :: Declares(bs, j, tj) && bs[j].tenants[tj].id == id
  }

  ghost predicate IndexedAs(bs: seq<BackendConfig>, reg: Registry, j: int, tj: int)
    requires Declares(bs, j, tj)
  {
    var tc := bs[j].tenants[tj];
    && tc.id in reg.byTenant
    && var t := reg.byTenant[tc.id];
       && t.id == tc.id && t.groups == tc.groups && t.headers == tc.headers && t.credential == tc.credential
       && Describes(bs[j], t.backend)
  }

  lemma {:induction false} IndexIsRight(bs: seq<BackendConfig>, reg: Registry)
    requires Indexes(bs, reg)
    ensures RightlyIndexed(bs, reg)
  {
    var at :| IndexUpTo(bs, |bs|, 0, reg.byTenant, at);
    assert reg.byTenant.Keys == Owners(reg.byTenant).Keys == at.Keys;
    forall j, tj | Declares(bs, j, tj) ensures bs[j].tenants[tj].id in reg.byTenant && IndexedAs(bs, reg, j, tj) {
      assert Before(bs, j, tj, |bs|, 0);
      assert at[IdAt(bs, j, tj)] == (j, tj);
    }
    forall id | id in reg.byTenant ensures exists j, tj :: Declares(bs, j, tj) && bs[j].tenants[tj].id == id {
      var p := at[id];
      assert Declares(bs, p.0, p.1) && IdAt(bs, p.0, p.1) == id;
    }
  }

  lemma {:induction false} OwnersOfMore(byTenant: map<string, Tenant>, id: string, t: Tenant)
    ensures Owners(byTenant[id := t]) == Owners(byTenant)[id := t.backend.name]
  {
  }

  lemma {:induction false} IndexStep(bs: seq<BackendConfig>, i: int, ti: int, byTenant: map<string, Tenant>,
                                     at: map<string, (int, int)>)
    requires Declares(bs, i, ti) && IndexUpTo(bs, i, ti, byTenant, at)
    requires IdAt(bs, i, ti) !in byTenant
    ensures IndexUpTo(bs, i, ti + 1, byTenant[IdAt(bs, i, ti) := TenantAt(bs, i, ti)], at[IdAt(bs, i, ti) := (i, ti)])
  {
    var id := IdAt(bs, i, ti);
    var byTenant', at' := byTenant[id := TenantAt(bs, i, ti)], at[id := (i, ti)];
    OwnersOfMore(byTenant, id, TenantAt(bs, i, ti));
    OwnersStep(bs, i, ti, Owners(byTenant), at);
    forall d | d in at' ensures Declares(bs, at'[d].0, at'[d].1) && byTenant'[d] == TenantAt(bs, at'[d].0, at'[d].1) {
      assert d == id || d in at;
    }
  }

  lemma {:induction false} Redeclared(bs: seq<BackendConfig>, i: int, ti: int, byTenant: map<string, Tenant>,
                                      at: map<string, (int, int)>)
    requires Declares(bs, i, ti) && IndexUpTo(bs, i, ti, byTenant, at)
    requires IdAt(bs, i, ti) in byTenant
    ensures !DistinctIds(bs)
  {
    assert IdAt(bs, i, ti) in Owners(byTenant);
    var p := at[IdAt(bs, i, ti)];
    assert Before(bs, p.0, p.1, i, ti);
  }

  lemma {:induction false} IndexNext(bs: seq<BackendConfig>, i: nat, byTenant: map<string, Tenant>,
                                     at: map<string, (int, int)>)
    requires i < |bs| && IndexUpTo(bs, i, |bs[i].tenants|, byTenant, at)
    ensures IndexUpTo(bs, i + 1, 0, byTenant, at)
  {
    OwnersNext(bs, i, Owners(byTenant), at);
  }

  method IndexTenants(bs: seq<BackendConfig>, i: nat, byTenant: map<string, Tenant>, ghost at: map<string, (int, int)>)
    returns (dup: Option<string>, byTenant': map<string, Tenant>, ghost at': map<string, (int, int)>)
    requires i < |bs| && IndexUpTo(bs, i, 0, byTenant, at)
    ensures dup.Some? ==> !DistinctIds(bs)
    ensures dup.None? ==> IndexUpTo(bs, i, |bs[i].tenants|, byTenant', at')
  {
    var bc := bs[i];
    var b := Resolve(bc);
    byTenant', at' := byTenant, at;
    for ti := 0 to |bc.tenants|
      invariant IndexUpTo(bs, i, ti, byTenant', at')
    {
      var tc := bc.tenants[ti];
      assert Declares(bs, i, ti) && IdAt(bs, i, ti) == tc.id;
      if tc.id in byTenant' {
        Redeclared(bs, i, ti, byTenant', at');
        return Some(tc.id), byTenant', at';
      }
      IndexStep(bs, i, ti, byTenant', at');
      byTenant', at' := byTenant'[tc.id := ResolveTenantConfig(tc, b)], at'[tc.id := (i, ti)];
    }
    dup := None;
  }

  lemma {:induction false} IndexComplete(bs: seq<BackendConfig>, byTenant: map<string, Tenant>,
                                         at: map<string, (int, int)>)
    requires IndexUpTo(bs, |bs|, 0, byTenant, at)
    ensures DistinctIds(bs)
    ensures byTenant != map[] <==> exists j, tj :: Declares(bs, j, tj)
  {
    OwnersDistinct(bs, Owners(byTenant), at);
    assert byTenant.Keys == Owners(byTenant).Keys == at.Keys;
    if j, tj :| Declares(bs, j, tj) {
      assert Before(bs, j, tj, |bs|, 0);
      assert IdAt(bs, j, tj) in byTenant;
    }
    if byTenant != map[] {
      var id :| id in byTenant;
      assert Declares(bs, at[id].0, at[id].1);
    }
  }

  ghost predicate BackendsUpTo(bs: seq<BackendConfig>, parse: string -> UrlKind, i: nat, backends: seq<Backend>) {
    && i <= |bs| && |backends| == i
    && forall k :: 0 <= k < i ==> parse(bs[k].url).Absolute? && backends[k] == Resolve(bs[k])
  }

  lemma {:induction false} BackendsNext(bs: seq<BackendConfig>, parse: string -> UrlKind, i: nat,
                                        backends: seq<Backend>)
    requires i < |bs| && BackendsUpTo(bs, parse, i, backends)
    ensures parse(bs[i].url).Absolute? ==> BackendsUpTo(bs, parse, i + 1, backends + [Resolve(bs[i])])
    ensures !parse(bs[i].url).Absolute? ==> !Acceptable(bs, parse)
  {
  }

  lemma {:induction false} IndexDone(bs: seq<BackendConfig>, parse: string -> UrlKind, backends: seq<Backend>,
                                     byTenant: map<string, Tenant>, at: map<string, (int, int)>)
    requires BackendsUpTo(bs, parse, |bs|, backends) && IndexUpTo(bs, |bs|, 0, byTenant, at)
    ensures Acceptable(bs, parse) <==> byTenant != map[]
    ensures Indexes(bs, Registry(byTenant, backends))
  {
    IndexComplete(bs, byTenant, at);
  }

  // Accepts exactly the acceptable backend lists, and then indexes them.
  method New(bs: seq<BackendConfig>, parse: string -> UrlKind) returns (r: Result<Registry, RegistryError>)
    ensures r.Ok? <==> Acceptable(bs, parse)
    ensures r.Ok? ==> Indexes(bs, r.value) && RightlyIndexed(bs, r.value)
  {
    var byTenant: map<string, Tenant> := map[];
    ghost var at: map<string, (int, int)> := map[];
    var backends: seq<Backend> := [];
    for i := 0 to |bs|
      invariant BackendsUpTo(bs, parse, i, backends)
      invariant IndexUpTo(bs, i, 0, byTenant, at)
    {
      BackendsNext(bs, parse, i, backends);
      var u := parse(bs[i].url);
      if u.Malformed? { return Err(BadURL(bs[i].name)); }
      if u.Relative? { return Err(RelativeURL(bs[i].name)); }
      backends := backends + [Resolve(bs[i])];
      var dup;
      dup, byTenant, at := IndexTenants(bs, i, byTenant, at);
      if dup.Some? { return Err(Duplicate(dup.value)); }
      IndexNext(bs, i, byTenant, at);
    }
    hide Indexes, RightlyIndexed;
    IndexDone(bs, parse, backends, byTenant, at);
    IndexIsRight(bs, Registry(byTenant, backends));
    if byTenant == map[] { return Err(NoTenant); }
    return Ok(Registry(byTenant, backends));
  }

  // A validated configuration with absolute URLs is accepted, and any index of it
  // is well formed: every id maps to the one backend that declared it.
  lemma {:induction false} ValidatedIsAccepted(a: AuthConfig, bs: seq<BackendConfig>, parse: string -> UrlKind)
    requires Configuration.WellFormed(a, bs)
    requires forall b :: b in bs ==> parse(b.url).Absolute?
    ensures Acceptable(bs, parse)
  {
    assert BackendOk(bs[0]) && Declares(bs, 0, 0);
  }

  lemma {:induction false} IndexIsWellFormed(a: AuthConfig, bs: seq<BackendConfig>, reg: Registry)
    requires Configuration.WellFormed(a, bs) && Indexes(bs, reg)
    ensures reg.WellFormed()
    ensures forall j, tj :: Declares(bs, j, tj) ==>
              IdAt(bs, j, tj) in reg.byTenant && reg.byTenant[IdAt(bs, j, tj)] == TenantAt(bs, j, tj)
              && reg.byTenant[IdAt(bs, j, tj)].backend == reg.backends[j]
    ensures forall id :: id in reg.byTenant ==> exists j, tj :: Declares(bs, j, tj) && IdAt(bs, j, tj) == id
  {
    var at :| IndexUpTo(bs, |bs|, 0, reg.byTenant, at);
    assert reg.byTenant.Keys == Owners(reg.byTenant).Keys == at.Keys;
    forall j, tj | Declares(bs, j, tj)
      ensures IdAt(bs, j, tj) in reg.byTenant && reg.byTenant[IdAt(bs, j, tj)] == TenantAt(bs, j, tj)
    {
      assert Before(bs, j, tj, |bs|, 0);
    }
    forall id | id in reg.byTenant
      ensures id != "" && reg.byTenant[id].id == id && reg.byTenant[id].backend in reg.backends
      ensures exists j, tj :: Declares(bs, j, tj) && IdAt(bs, j, tj) == id
    {
      var p := at[id];
      assert Before(bs, p.0, p.1, |bs|, 0) && IdAt(bs, p.0, p.1) == id;
      assert BackendOk(bs[p.0]) && reg.backends[p.0] == Resolve(bs[p.0]);
    }
    assert BackendOk(bs[0]) && Declares(bs, 0, 0);
  }

  // Start-up as Load and main run it: defaults, validation, index.
  method Start(c: Config, parse: string -> UrlKind) returns (r: Option<Registry>)
    modifies c
    ensures |c.backends| == |old(c.backends)|
    ensures forall i :: 0 <= i < |c.backends| ==> c.backends[i] == Defaulted(old(c.backends)[i])
    ensures r.Some? <==> Configuration.WellFormed(c.auth, c.backends) && forall b :: b in c.backends ==>
            parse(b.url).Absolute?
    ensures r.Some? ==> Indexes(c.backends, r.value) && RightlyIndexed(c.backends, r.value) && r.value.WellFormed()
  {
    c.ApplyDefaults();
    var err := c.Validate();
    if err.Some? { return None; }
    var res := New(c.backends, parse);
    if res.Err? {
      if forall b :: b in c.backends ==> parse(b.url).Absolute? {
        ValidatedIsAccepted(c.auth, c.backends, parse);
      }
      return None;
    }
    IndexIsWellFormed(c.auth, c.backends, res.value);
    return Some(res.value);
  }
}
