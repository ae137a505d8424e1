// Configuration tree, defaults and start-up validation (internal/config/config.go).
module Configuration {
  import opened Wrappers

  const STATEFUL := "2025-03-26"
  const STATELESS := "2026-07-28"

  datatype TenantConfig = TenantConfig(
    id: string, groups: seq<string>, credential: string, headers: map<string, string>)

  // credentialScheme is None when the field is missing, Some("") when it is
  // explicitly empty.
  datatype BackendConfig = BackendConfig(
    name: string, url: string, headers: map<string, string>, credential: string,
    credentialHeader: string, credentialScheme: Option<string>, protocolVersion: string,
    tenants: seq<TenantConfig>)

  datatype AuthConfig = AuthConfig(
    mode: string, groupsClaim: string, issuer: string, jwksURL: string,
    hmacSecret: string, publicKeyPEMFile: string)

  datatype ConfigError =
    | JwksWithoutSource
    | StaticWithoutExactlyOneKey
    | UnknownMode
    | NoBackends
    | UnnamedBackend(index: nat)
    | DuplicateBackend(name: string)
    | MissingURL(name: string)
    | BadProtocolVersion(name: string)
    | NoTenants(name: string)
    | UnnamedTenant(name: string, index: nat)
    | DuplicateTenant(id: string, owner: string, name: string)
    | NoGroups(name: string, id: string)

  predicate AuthOk(a: AuthConfig) {
    || (a.mode == "jwks" && (a.jwksURL != "" || a.issuer != ""))
    || (a.mode == "static" && (a.hmacSecret == "" <==> a.publicKeyPEMFile != ""))
    || a.mode == "insecure"
  }

  predicate Declares(bs: seq<BackendConfig>, j: int, tj: int) {
    0 <= j < |bs| && 0 <= tj < |bs[j].tenants|
  }

  function IdAt(bs: seq<BackendConfig>, j: int, tj: int): string
    requires Declares(bs, j, tj)
  {
    bs[j].tenants[tj].id
  }

  ghost predicate DistinctNames(bs: seq<BackendConfig>) {
    forall i, j :: 0 <= i < j < |bs| ==> bs[i].name != bs[j].name
  }

  // No tenant id is declared twice, within one backend or across backends.
  ghost predicate DistinctIds(bs: seq<BackendConfig>) {
    forall i, ti, j, tj :: Declares(bs, i, ti) && Declares(bs, j, tj) && IdAt(bs, i, ti) == IdAt(bs, j, tj)
                           ==> i == j && ti == tj
  }

  ghost predicate BackendOk(b: BackendConfig) {
    && b.name != "" && b.url != ""
    && (b.protocolVersion == STATEFUL || b.protocolVersion == STATELESS)
    && b.tenants != []
    && forall ti :: 0 <= ti < |b.tenants| ==> b.tenants[ti].id != "" && b.tenants[ti].groups != []
  }

  // What a usable configuration is, independently of the order of the checks.
  ghost predicate WellFormed(a: AuthConfig, bs: seq<BackendConfig>) {
    && AuthOk(a)
    && bs != []
    && (forall i :: 0 <= i < |bs| ==> BackendOk(bs[i]))
    && DistinctNames(bs)
    && DistinctIds(bs)
  }

  // What each error claims about the configuration.
  ghost predicate Justified(e: ConfigError, a: AuthConfig, bs: seq<BackendConfig>) {
    match e
    case JwksWithoutSource => a.mode == "jwks" && a.jwksURL == "" && a.issuer == ""
    case StaticWithoutExactlyOneKey => a.mode == "static" && (a.hmacSecret == "" <==> a.publicKeyPEMFile == "")
    case UnknownMode => a.mode !in {"jwks", "static", "insecure"}
    case NoBackends => bs == []
    case UnnamedBackend(i) => i < |bs| && bs[i].name == ""
    case DuplicateBackend(name) => exists i, j :: 0 <= i < j < |bs| && bs[i].name == name && bs[j].name == name
    case MissingURL(name) => exists b :: b in bs && b.name == name && b.url == ""
    case BadProtocolVersion(name) =>
      exists b :: b in bs && b.name == name && b.protocolVersion != STATEFUL && b.protocolVersion != STATELESS
    case NoTenants(name) => exists b :: b in bs && b.name == name && b.tenants == []
    case UnnamedTenant(name, ti) => exists b :: b in bs && b.name == name && ti < |b.tenants| && b.tenants[ti].id == ""
    case DuplicateTenant(id, owner, name) =>
      exists i, ti, j, tj :: Declares(bs, i, ti) && Declares(bs, j, tj) && (i, ti) != (j, tj)
                             && IdAt(bs, i, ti) == id && IdAt(bs, j, tj) == id
                             && bs[i].name == owner && bs[j].name == name
    case NoGroups(name, id) =>
      exists b, t :: b in bs && t in b.tenants && b.name == name && t.id == id && t.groups == []
  }

  lemma {:induction false} JustifiedRejects(e: ConfigError, a: AuthConfig, bs: seq<BackendConfig>)
    requires Justified(e, a, bs)
    ensures !WellFormed(a, bs)
  {
    match e
    case DuplicateTenant(id, owner, name) =>
      var i, ti, j, tj :| Declares(bs, i, ti) && Declares(bs, j, tj) && (i, ti) != (j, tj)
                          && IdAt(bs, i, ti) == id && IdAt(bs, j, tj) == id;
    case _ =>
  }

  function Defaulted(b: BackendConfig): BackendConfig {
    b.(credentialHeader := if b.credentialHeader == "" then "Authorization" else b.credentialHeader,
       credentialScheme := if b.credentialScheme.None? then Some("Bearer") else b.credentialScheme,
       protocolVersion := if b.protocolVersion == "" then STATEFUL else b.protocolVersion)
  }

  // Unset fields have their documented values; an explicitly empty scheme stays empty.
  ghost predicate DefaultsFilled(before: BackendConfig, after: BackendConfig) {
    && after.name == before.name && after.url == before.url && after.headers == before.headers
    && after.credential == before.credential && after.tenants == before.tenants
    && (before.credentialHeader != "" ==> after.credentialHeader == before.credentialHeader)
    && (before.credentialHeader == "" ==> after.credentialHeader == "Authorization")
    && (before.credentialScheme.Some? ==> after.credentialScheme == before.credentialScheme)
    && (before.credentialScheme.None? ==> after.credentialScheme == Some("Bearer"))
    && (before.protocolVersion != "" ==> after.protocolVersion == before.protocolVersion)
    && (before.protocolVersion == "" ==> after.protocolVersion == "2025-03-26")
  }

  class Config {
    var listen: string
    var path: string
    var auth: AuthConfig
    var backends: seq<BackendConfig>
    var metricsListen: string
    var metricsPath: string

    constructor (auth: AuthConfig, backends: seq<BackendConfig>)
      ensures this.auth == auth && this.backends == backends
      ensures listen == path == metricsListen == metricsPath == ""
    {
      listen, path, metricsListen, metricsPath := "", "", "", "";
      this.auth, this.backends := auth, backends;
    }

    method ApplyDefaults()
      modifies this
      ensures listen == if old(listen) == "" then ":8080" else old(listen)
      ensures path == if old(path) == "" then "/mcp" else old(path)
      ensures auth == if old(auth).groupsClaim == "" then old(auth).(groupsClaim := "groups") else old(auth)
      ensures |backends| == |old(backends)|
      ensures forall i :: 0 <= i < |backends| ==> backends[i] == Defaulted(old(backends)[i])
      ensures forall i :: 0 <= i < |backends| ==> DefaultsFilled(old(backends)[i], backends[i])
      ensures metricsListen == if old(metricsListen) == "" then ":9090" else old(metricsListen)
      ensures metricsPath == if old(metricsPath) == "" then "/metrics" else old(metricsPath)
    {
      if listen == "" { listen := ":8080"; }
      if path == "" { path := "/mcp"; }
      if auth.groupsClaim == "" { auth := auth.(groupsClaim := "groups"); }
      for i := 0 to |backends|
        invariant |backends| == |old(backends)|
        invariant listen == if old(listen) == "" then ":8080" else old(listen)
        invariant path == if old(path) == "" then "/mcp" else old(path)
        invariant auth == if old(auth).groupsClaim == "" then old(auth).(groupsClaim := "groups") else old(auth)
        invariant metricsListen == old(metricsListen) && metricsPath == old(metricsPath)
        invariant forall k :: 0 <= k < i ==> backends[k] == Defaulted(old(backends)[k])
        invariant forall k :: i <= k < |backends| ==> backends[k] == old(backends)[k]
      {
        var b := backends[i];
        if b.credentialHeader == "" { b := b.(credentialHeader := "Authorization"); }
        if b.credentialScheme.None? { b := b.(credentialScheme := Some("Bearer")); }
        if b.protocolVersion == "" { b := b.(protocolVersion := STATEFUL); }
        backends := backends[i := b];
      }
      if metricsListen == "" { metricsListen := ":9090"; }
      if metricsPath == "" { metricsPath := "/metrics"; }
    }

    // Accepts exactly the well-formed configurations; a refusal names a real fault.
    method Validate() returns (err: Option<ConfigError>)
      ensures err.None? <==> WellFormed(auth, backends)
      ensures err.Some? ==> Justified(err.value, auth, backends)
    {
      err := CheckAuth(auth);
      if err.Some? {
        return;
      }
      if |backends| == 0 {
        return Some(NoBackends);
      }
      err := CheckBackends(auth, backends);
    }
  }

  method CheckAuth(a: AuthConfig) returns (err: Option<ConfigError>)
    ensures err.None? <==> AuthOk(a)
    ensures err.Some? ==> forall bs :: Justified(err.value, a, bs)
  {
    match a.mode {
      case "jwks" =>
        if a.jwksURL == "" && a.issuer == "" { return Some(JwksWithoutSource); }
      case "static" =>
        if (a.hmacSecret == "") == (a.publicKeyPEMFile == "") { return Some(StaticWithoutExactlyOneKey); }
      case "insecure" =>
      case _ =>
        return Some(UnknownMode);
    }
    return None;
  }

  // The two nested loops of Validate, with the declaration that put each id in
  // tenantOwner kept as a ghost.
  ghost predicate OwnersUpTo(bs: seq<BackendConfig>, i: int, ti: int, owner: map<string, string>,
                             at: map<string, (int, int)>) {
    && owner.Keys == at.Keys
    && (forall id :: id in at ==> Before(bs, at[id].0, at[id].1, i, ti)
                                  && IdAt(bs, at[id].0, at[id].1) == id && owner[id] == bs[at[id].0].name)
    && (forall j, tj :: Before(bs, j, tj, i, ti) ==> IdAt(bs, j, tj) in at && at[IdAt(bs, j, tj)] == (j, tj))
  }

  ghost predicate Before(bs: seq<BackendConfig>, j: int, tj: int, i: int, ti: int) {
    Declares(bs, j, tj) && (j < i || (j == i && tj < ti))
  }

  // The checks on the backend itself, before its tenants.
  method CheckBackend(bs: seq<BackendConfig>, i: nat, names: set<string>) returns (err: Option<ConfigError>)
    requires i < |bs|
    requires names == set k | 0 <= k < i :: bs[k].name
    ensures err.Some? ==> forall a :: Justified(err.value, a, bs)
    ensures err.None? ==> bs[i].name !in names && bs[i].name != "" && bs[i].url != "" && bs[i].tenants != []
    ensures err.None? ==> bs[i].protocolVersion == STATEFUL || bs[i].protocolVersion == STATELESS
  {
    var b := bs[i];
    if b.name == "" { return Some(UnnamedBackend(i)); }
    if b.name in names {
      var k :| 0 <= k < i && bs[k].name == b.name;
      return Some(DuplicateBackend(b.name));
    }
    if b.url == "" { return Some(MissingURL(b.name)); }
    if b.protocolVersion != STATEFUL && b.protocolVersion != STATELESS { return Some(BadProtocolVersion(b.name)); }
    if |b.tenants| == 0 { return Some(NoTenants(b.name)); }
    return None;
  }

  lemma {:induction false} OwnersStep(bs: seq<BackendConfig>, i: int, ti: int, owner: map<string, string>,
                                      at: map<string, (int, int)>)
    requires Declares(bs, i, ti) && OwnersUpTo(bs, i, ti, owner, at)
    requires IdAt(bs, i, ti) !in owner
    ensures OwnersUpTo(bs, i, ti + 1, owner[IdAt(bs, i, ti) := bs[i].name], at[IdAt(bs, i, ti) := (i, ti)])
  {
    var id := IdAt(bs, i, ti);
    var at' := at[id := (i, ti)];
    forall j, tj | Before(bs, j, tj, i, ti + 1) ensures IdAt(bs, j, tj) in at' && at'[IdAt(bs, j, tj)] == (j, tj) {
      assert (j, tj) == (i, ti) || Before(bs, j, tj, i, ti);
    }
  }

  // The checks on one tenant.
  method CheckTenant(bs: seq<BackendConfig>, i: nat, ti: nat, owner: map<string, string>,
                     ghost at: map<string, (int, int)>)
    returns (err: Option<ConfigError>)
    requires Declares(bs, i, ti) && OwnersUpTo(bs, i, ti, owner, at)
    ensures err.Some? ==> forall a :: Justified(err.value, a, bs)
    ensures err.None? <==> IdAt(bs, i, ti) !in owner && IdAt(bs, i, ti) != "" && bs[i].tenants[ti].groups != []
  {
    var b, t := bs[i], bs[i].tenants[ti];
    if t.id == "" { return Some(UnnamedTenant(b.name, ti)); }
    if t.id in owner {
      ghost var p := at[t.id];
      assert Before(bs, p.0, p.1, i, ti) && (p.0, p.1) != (i as int, ti as int);
      return Some(DuplicateTenant(t.id, owner[t.id], b.name));
    }
    if |t.groups| == 0 { return Some(NoGroups(b.name, t.id)); }
    return None;
  }

  method CheckTenants(bs: seq<BackendConfig>, i: nat, owner: map<string, string>, ghost at: map<string, (int, int)>)
    returns (err: Option<ConfigError>, owner': map<string, string>, ghost at': map<string, (int, int)>)
    requires i < |bs| && OwnersUpTo(bs, i, 0, owner, at)
    ensures err.Some? ==> forall a :: Justified(err.value, a, bs)
    ensures err.None? ==> OwnersUpTo(bs, i, |bs[i].tenants|, owner', at')
    ensures err.None? ==> forall k :: 0 <= k < |bs[i].tenants| ==>
            bs[i].tenants[k].id != "" && bs[i].tenants[k].groups != []
  {
    hide OwnersUpTo, Justified;
    var b := bs[i];
    owner', at' := owner, at;
    for ti := 0 to |b.tenants|
      invariant forall k :: 0 <= k < ti ==> b.tenants[k].id != "" && b.tenants[k].groups != []
      invariant OwnersUpTo(bs, i, ti, owner', at')
    {
      err := CheckTenant(bs, i, ti, owner', at');
      if err.Some? {
        return;
      }
      OwnersStep(bs, i, ti, owner', at');
      owner', at' := owner'[b.tenants[ti].id := b.name], at'[b.tenants[ti].id := (i, ti)];
    }
    err := None;
  }

  lemma {:induction false} OwnersNext(bs: seq<BackendConfig>, i: nat, owner: map<string, string>,
                                      at: map<string, (int, int)>)
    requires i < |bs| && OwnersUpTo(bs, i, |bs[i].tenants|, owner, at)
    ensures OwnersUpTo(bs, i + 1, 0, owner, at)
  {
    forall j, tj | Before(bs, j, tj, i + 1, 0) ensures IdAt(bs, j, tj) in at && at[IdAt(bs, j, tj)] == (j, tj) {
      assert Before(bs, j, tj, i, |bs[i].tenants|);
    }
  }

  lemma {:induction false} OwnersDistinct(bs: seq<BackendConfig>, owner: map<string, string>,
                                          at: map<string, (int, int)>)
    requires OwnersUpTo(bs, |bs|, 0, owner, at)
    ensures DistinctIds(bs)
  {
    forall i, ti, j, tj | Declares(bs, i, ti) && Declares(bs, j, tj) && IdAt(bs, i, ti) == IdAt(bs, j, tj)
      ensures i == j && ti == tj
    {
      assert Before(bs, i, ti, |bs|, 0) && Before(bs, j, tj, |bs|, 0);
    }
  }

  method CheckBackends(a: AuthConfig, bs: seq<BackendConfig>) returns (err: Option<ConfigError>)
    requires AuthOk(a) && bs != []
    ensures err.None? <==> WellFormed(a, bs)
    ensures err.Some? ==> Justified(err.value, a, bs)
  {
    var names: set<string> := {};
    var tenantOwner: map<string, string> := map[];
    ghost var at: map<string, (int, int)> := map[];
    for i := 0 to |bs|
      invariant names == set k | 0 <= k < i :: bs[k].name
      invariant forall k :: 0 <= k < i ==> BackendOk(bs[k])
      invariant forall k, l :: 0 <= k < l < i ==> bs[k].name != bs[l].name
      invariant OwnersUpTo(bs, i, 0, tenantOwner, at)
    {
      err := CheckBackend(bs, i, names);
      if err.Some? {
        JustifiedRejects(err.value, a, bs);
        return;
      }
      names := names + {bs[i].name};
      err, tenantOwner, at := CheckTenants(bs, i, tenantOwner, at);
      if err.Some? {
        JustifiedRejects(err.value, a, bs);
        return;
      }
      OwnersNext(bs, i, tenantOwner, at);
    }
    OwnersDistinct(bs, tenantOwner, at);
    return None;
  }
}
