// The catalogs of all tenants: which tenants share one, and what is known without
// fetching (Catalogs in internal/proxy/catalog.go).
module TenantCatalogs {
  import opened Wrappers
  import opened Strings
  import opened TenantRegistry
  import opened ToolSchema
  import opened ToolsListing
  import opened Wire
  import opened Catalogs
  import opened Headers
  import opened ViewKeys

  // c was built from tenant o: with its own credential, or the backend's if it has none.
  ghost predicate BuiltFrom(c: Catalog, o: Tenant, ttl: int) {
    && c.backend == o.backend && c.headers == o.headers && c.ttl == ttl
    && (o.credential != "" ==> c.credential == o.credential)
    && (o.credential == "" ==> c.credential == o.backend.credential)
  }

  // What is known of a tool without fetching.
  datatype Lookup<+T> = Unknown | Absent | Found(tool: T)

  // Per tenant, the definitions its catalog holds, None when it holds nothing.
  type Known = map<string, Option<seq<ToolDef>>>

  function FirstTool(defs: seq<ToolDef>, name: string): (d: ToolDef)
    requires HasTool(defs, name)
    ensures NameOf(d) == name && d in defs
  {
    if NameOf(defs[0]) == name then defs[0]
    else
      assert HasTool(defs[1..], name) by {
        var i :| 0 <= i < |defs| && NameOf(defs[i]) == name;
        assert defs[1..][i - 1] == defs[i];
      }
      FirstTool(defs[1..], name)
  }

  function LookUp(known: Known, tenant: string, name: string): Lookup<ToolDef> {
    if tenant !in known || known[tenant].None? then Unknown
    else if HasTool(known[tenant].value, name) then Found(FirstTool(known[tenant].value, name))
    else Absent
  }

  // tool is the first of that name.
  ghost predicate IsFirstNamed(tools: seq<RawTool>, name: string, tool: RawTool)
    reads tools
  {
    exists i: nat :: i < |tools| && tools[i] == tool && NameOf(tool.fields) == name
                     && forall j :: 0 <= j < i ==> NameOf(tools[j].fields) != name
  }

  // A sequence of gets on the given catalogs: their states afterwards, and what each
  // get answered (None where there is no catalog).
  type States = map<Catalog, Cache<seq<RawTool>>>

  ghost function GetAll(st: States, targets: seq<Option<Catalog>>, calls: seq<Call<seq<RawTool>>>)
    : (r: (States, seq<Option<GetResult<seq<RawTool>>>>))
    requires |calls| == |targets| && InStates(st, targets)
    ensures r.0.Keys == st.Keys && |r.1| == |targets|
  {
    if targets == [] then (st, [])
    else
      var n := |targets| - 1;
      var (s, rs) := GetAll(st, targets[..n], calls[..n]);
      match targets[n]
      case None => (s, rs + [None])
      case Some(c) => (s[c := Step(c.ttl, s[c], calls[n])], rs + [Some(Answer(c.ttl, s[c], calls[n]))])
  }

  // The tool lists that could be served, in tenant order; a nil list is empty.
  function ServedViews(tenants: seq<Tenant>, results: seq<Option<GetResult<seq<RawTool>>>>): seq<TenantTools<RawTool>>
    requires |results| == |tenants|
  {
    if tenants == [] then []
    else
      var n := |tenants| - 1;
      ServedViews(tenants[..n], results[..n])
      + match results[n]
        case Some(Served(Some(tools))) => [TenantTools(tenants[n], tools)]
        case Some(Served(None)) => [TenantTools(tenants[n], [])]
        case _ => []
  }

  // get on t's catalog, if there is one, taking the catalogs from st to st'.
  ghost predicate RightlyGotFor(byTenant: map<string, Catalog>, t: Tenant, r: Replies<seq<RawTool>>, clock: (int, int),
                                st: States, st': States, result: Option<GetResult<seq<RawTool>>>)
  {
    if t.id !in byTenant then st' == st && result == None
    else
      var c := byTenant[t.id];
      && c in st && c in st' && st' == st[c := st'[c]] && result.Some?
      && RightlyGot(c.backend, c.ttl, st[c], clock.0, r, clock.1, st'[c], result.value)
  }

  // The first n tenants one after the other: trace[i] is how the catalogs were before
  // tenant i.
  ghost predicate Traced(byTenant: map<string, Catalog>, tenants: seq<Tenant>, replies: seq<Replies<seq<RawTool>>>,
                         clock: seq<(int, int)>, n: nat, trace: seq<States>,
                         results: seq<Option<GetResult<seq<RawTool>>>>)
  {
    && n <= |tenants| && |replies| == |tenants| == |clock| && |trace| == n + 1 && |results| == n
    && forall i :: 0 <= i < n ==>
         RightlyGotFor(byTenant, tenants[i], replies[i], clock[i], trace[i], trace[i + 1], results[i])
  }

  // Exactly the tenants whose get succeeded, in order, at the positions `at`; an error
  // when there are none and one of them failed.
  ghost predicate RightlyServed(tenants: seq<Tenant>, results: seq<Option<GetResult<seq<RawTool>>>>,
                                out: Option<seq<TenantTools<RawTool>>>, at: seq<nat>)
  {
    && |results| == |tenants|
    && (out == None <==> at == [] && Some(Unavailable) in results)
    && (out.Some? ==> ViewsAt(tenants, results, out.value, at))
    && PositionsServed(results, at)
  }

  ghost predicate PositionsServed(results: seq<Option<GetResult<seq<RawTool>>>>, at: seq<nat>) {
    && (forall j, k :: 0 <= j < k < |at| ==> at[j] < at[k])
    && (forall k :: 0 <= k < |at| ==> at[k] < |results|)
    && (forall i: nat :: i < |results| ==> (i in at <==> results[i].Some? && results[i].value.Served?))
  }

  ghost predicate ViewsAt(tenants: seq<Tenant>, results: seq<Option<GetResult<seq<RawTool>>>>,
                          views: seq<TenantTools<RawTool>>, at: seq<nat>)
  {
    && |views| == |at|
    && forall k :: 0 <= k < |at| ==>
         && at[k] < |results| && at[k] < |tenants|
         && views[k].tenant == tenants[at[k]] && results[at[k]].Some? && results[at[k]].value.Served?
         && var tools := results[at[k]].value.tools;
            (tools.Some? ==> views[k].tools == tools.value) && (tools.None? ==> views[k].tools == [])
  }

  lemma {:induction false} NothingTraced(byTenant: map<string, Catalog>, tenants: seq<Tenant>,
                                         replies: seq<Replies<seq<RawTool>>>, clock: seq<(int, int)>, st: States)
    requires |replies| == |tenants| == |clock|
    ensures Traced(byTenant, tenants, replies, clock, 0, [st], [])
  {
  }

  lemma {:induction false} TracedStep(byTenant: map<string, Catalog>, tenants: seq<Tenant>,
                                      replies: seq<Replies<seq<RawTool>>>, clock: seq<(int, int)>, n: nat,
                                      trace: seq<States>, results: seq<Option<GetResult<seq<RawTool>>>>,
                                      after: States, result: Option<GetResult<seq<RawTool>>>)
    requires Traced(byTenant, tenants, replies, clock, n, trace, results) && n < |tenants|
    requires RightlyGotFor(byTenant, tenants[n], replies[n], clock[n], trace[n], after, result)
    ensures Traced(byTenant, tenants, replies, clock, n + 1, trace + [after], results + [result])
    ensures (trace + [after])[0] == trace[0] && (trace + [after])[n + 1] == after
  {
    hide RightlyGotFor;
  }

  lemma {:induction false} PositionsStep(results: seq<Option<GetResult<seq<RawTool>>>>, at: seq<nat>)
    requires results != [] && PositionsServed(results[..|results| - 1], at)
    ensures var last := results[|results| - 1];
            PositionsServed(results, at + if last.Some? && last.value.Served? then [|results| - 1] else [])
  {
    var n := |results| - 1;
    var more := at + if results[n].Some? && results[n].value.Served? then [n] else [];
    forall i: nat | i < |results| ensures i in more <==> results[i].Some? && results[i].value.Served? {
      if i < n {
        assert results[..n][i] == results[i];
      }
    }
  }

  lemma {:induction false} ViewsStep(tenants: seq<Tenant>, results: seq<Option<GetResult<seq<RawTool>>>>,
                                     views: seq<TenantTools<RawTool>>, at: seq<nat>, n: nat)
    requires n <= |tenants| && n <= |results| && ViewsAt(tenants[..n], results[..n], views, at)
    ensures ViewsAt(tenants, results, views, at)
  {
    forall k | 0 <= k < |at|
      ensures at[k] < n && tenants[..n][at[k]] == tenants[at[k]] && results[..n][at[k]] == results[at[k]]
    {
    }
  }

  lemma {:induction false} OneMoreView(tenants: seq<Tenant>, results: seq<Option<GetResult<seq<RawTool>>>>,
                                       views: seq<TenantTools<RawTool>>, at: seq<nat>, n: nat)
    requires n < |tenants| && n < |results| && ViewsAt(tenants, results, views, at)
    requires results[n].Some? && results[n].value.Served?
    ensures var tools := results[n].value.tools;
            ViewsAt(tenants, results,
                    views + [TenantTools(tenants[n], if tools.Some? then tools.value else [])], at + [n])
  {
  }

  lemma {:induction false} ServedViewsAre(tenants: seq<Tenant>, results: seq<Option<GetResult<seq<RawTool>>>>)
    returns (at: seq<nat>)
    requires |results| == |tenants|
    ensures PositionsServed(results, at) && ViewsAt(tenants, results, ServedViews(tenants, results), at)
  {
    if tenants == [] {
      at := [];
    } else {
      var n := |tenants| - 1;
      var before := ServedViewsAre(tenants[..n], results[..n]);
      PositionsStep(results, before);
      ViewsStep(tenants, results, ServedViews(tenants[..n], results[..n]), before, n);
      hide PositionsServed, ViewsAt;
      if results[n].Some? && results[n].value.Served? {
        OneMoreView(tenants, results, ServedViews(tenants[..n], results[..n]), before, n);
        at := before + [n];
      } else {
        assert before + [] == before;
        at := before;
      }
    }
  }

  lemma {:induction false} ServedIsRight(tenants: seq<Tenant>, results: seq<Option<GetResult<seq<RawTool>>>>)
    returns (at: seq<nat>)
    requires |results| == |tenants|
    ensures var views := ServedViews(tenants, results);
            RightlyServed(tenants, results,
                          if views == [] && Some(Unavailable) in results then None else Some(views), at)
  {
    at := ServedViewsAre(tenants, results);
    assert at == [] <==> ServedViews(tenants, results) == [];
    hide ServedViews, PositionsServed;
  }

  class CatalogSet {
    var byTenant: map<string, Catalog>
    var unique: seq<Catalog>

    constructor ()
      ensures byTenant == map[] && unique == []
    {
      byTenant, unique := map[], [];
    }

    ghost predicate Valid()
      reads this
    {
      forall id :: id in byTenant ==> byTenant[id] in unique
    }

    ghost function ToolObjects(): set<RawTool>
      reads this, unique
    {
      set c, t | c in unique && c.tools.Some? && t in c.tools.value :: t
    }

    // known is what the cached catalogs hold at this moment.
    ghost predicate Holds(known: Known)
      reads this, unique, ToolObjects()
    {
      && Valid() && known.Keys == byTenant.Keys
      && forall id :: id in byTenant ==>
           match byTenant[id].tools
           case None => known[id].None?
           case Some(tools) =>
             && (forall t :: t in tools ==> t in ToolObjects())
             && known[id].Some? && Matches(tools, known[id].value)
    }

    method CachedTool(tenantID: string, name: string, ghost known: Known) returns (r: Lookup<RawTool>)
      requires Holds(known)
      ensures match LookUp(known, tenantID, name)
              case Unknown => r.Unknown?
              case Absent => r.Absent?
              case Found(def) => r.Found? && r.tool.fields == def
      ensures r.Unknown? <==> tenantID !in byTenant || byTenant[tenantID].tools == None
      ensures r.Absent? ==> forall t :: t in byTenant[tenantID].tools.value ==> NameOf(t.fields) != name
      ensures r.Found? ==> IsFirstNamed(byTenant[tenantID].tools.value, name, r.tool)
    {
      if tenantID !in byTenant {
        return Unknown;
      }
      var tools := byTenant[tenantID].tools;
      if tools.None? {
        return Unknown;
      }
      ghost var defs := known[tenantID].value;
      for i := 0 to |tools.value|
        invariant forall k :: 0 <= k < i ==> NameOf(defs[k]) != name && NameOf(tools.value[k].fields) != name
      {
        if NameOf(tools.value[i].fields) == name {
          FirstAt(defs, name, i);
          return Found(tools.value[i]);
        }
      }
      return Absent;
    }

    ghost function States(): States
      reads this, unique
    {
      map c | c in unique :: c.State()
    }

    ghost predicate Tracks(st: States)
      reads this, unique
    {
      st.Keys == (set c | c in unique) && forall c :: c in st ==> c.State() == st[c]
    }

    // get on one tenant's catalog, if there is one.
    method GetFor(t: Tenant, r: Replies<seq<RawTool>>, clock: (int, int), ghost now: States)
      returns (result: Option<GetResult<seq<RawTool>>>, ghost after: States)
      requires Valid() && Tracks(now)
      modifies unique
      ensures Valid() && Tracks(after)
      ensures match TargetOf(byTenant, t)
              case None => result == None && after == now
              case Some(c) =>
                && c in now
                && var call := CallFor(Some(c), r, clock);
                   result == Some(Answer(c.ttl, now[c], call)) && after == now[c := Step(c.ttl, now[c], call)]
      ensures RightlyGotFor(byTenant, t, r, clock, now, after, result)
    {
      if t.id !in byTenant {
        return None, now;
      }
      var c := byTenant[t.id];
      var got, sent := c.Get(clock.0, r, clock.1);
      return Some(got), now[c := c.State()];
    }

    // The body of the loop over the tenants: one more get.
    method ServeNext(tenants: seq<Tenant>, replies: seq<Replies<seq<RawTool>>>, clock: seq<(int, int)>, i: nat,
                     views: seq<TenantTools<RawTool>>, errs: nat, ghost targets: seq<Option<Catalog>>,
                     ghost calls: seq<Call<seq<RawTool>>>, ghost st: States, ghost now: States,
                     ghost results: seq<Option<GetResult<seq<RawTool>>>>, ghost trace: seq<States>)
      returns (views': seq<TenantTools<RawTool>>, errs': nat, ghost result: Option<GetResult<seq<RawTool>>>,
               ghost after: States)
      requires Valid() && i < |tenants| && |replies| == |tenants| == |clock| && |trace| == i + 1 && trace[i] == now
      requires targets == Targets(byTenant, tenants) && calls == CallsFor(targets, replies, clock)
      requires Tracks(now) && Progress(tenants, targets, calls, st, i, now, results, views, errs)
      requires Traced(byTenant, tenants, replies, clock, i, trace, results)
      modifies unique
      ensures Valid() && Tracks(after)
      ensures Progress(tenants, targets, calls, st, i + 1, after, results + [result], views', errs')
      ensures Traced(byTenant, tenants, replies, clock, i + 1, trace + [after], results + [result])
    {
      hide Progress, RightlyGotFor, Traced, Answer, Step;
      ProgressStep(tenants, targets, calls, st, i, now, results, views, errs);
      views', errs' := views, errs;
      var got;
      got, after := GetFor(tenants[i], replies[i], clock[i], now);
      TracedStep(byTenant, tenants, replies, clock, i, trace, results, after, got);
      result := got;
      if got.Some? {
        if got.value.Unavailable? {
          errs' := errs + 1;
        } else {
          var tools := got.value.tools;
          views' := views + [TenantTools(tenants[i], if tools.Some? then tools.value else [])];
        }
      }
    }

    // get on the catalogs of the given tenants, in order, skipping those that fail;
    // an error only when nothing could be served.
    method ToolsFor(tenants: seq<Tenant>, replies: seq<Replies<seq<RawTool>>>, clock: seq<(int, int)>)
      returns (out: Option<seq<TenantTools<RawTool>>>, ghost results: seq<Option<GetResult<seq<RawTool>>>>,
               ghost trace: seq<States>, ghost at: seq<nat>)
      requires Valid() && |replies| == |tenants| == |clock|
      modifies unique
      ensures Valid()
      ensures Traced(byTenant, tenants, replies, clock, |tenants|, trace, results)
      ensures |trace| == |tenants| + 1 && trace[0] == old(States()) && trace[|tenants|] == States()
      ensures RightlyServed(tenants, results, out, at)
      ensures var targets := Targets(byTenant, tenants);
              && GetAll(old(States()), targets, CallsFor(targets, replies, clock)) == (States(), results)
              && out == if ServedViews(tenants, results) == [] && Some(Unavailable) in results then None
                        else Some(ServedViews(tenants, results))
    {
      ghost var targets := Targets(byTenant, tenants);
      ghost var calls := CallsFor(targets, replies, clock);
      ghost var st := States();
      ghost var now := st;
      results, trace := [], [now];
      var views: seq<TenantTools<RawTool>> := [];
      var errs := 0;
      hide Progress, RightlyGotFor, Traced, RightlyServed, ServedViews, Answer, Step, FetchResult;
      hide Valid, Tracks, States, Targets, CallsFor, GetAll, InStates;
      TracksItself(this, tenants);
      NothingTraced(byTenant, tenants, replies, clock, st);
      ProgressNone(tenants, targets, calls, st);
      for i := 0 to |tenants|
        invariant Tracks(now) && Progress(tenants, targets, calls, st, i, now, results, views, errs)
        invariant Traced(byTenant, tenants, replies, clock, i, trace, results)
        invariant |trace| == i + 1 && trace[0] == st && trace[i] == now
      {
        ghost var result, after;
        views, errs, result, after :=
          ServeNext(tenants, replies, clock, i, views, errs, targets, calls, st, now, results, trace);
        now, results, trace := after, results + [result], trace + [after];
      }
      ProgressDone(tenants, targets, calls, st, now, results, views, errs);
      TracksOnly(this, now);
      at := ServedIsRight(tenants, results);
      if |views| == 0 && errs > 0 {
        out := None;
      } else {
        out := Some(views);
      }
    }
  }

  lemma {:induction false} TracksItself(cs: CatalogSet, tenants: seq<Tenant>)
    requires cs.Valid()
    ensures cs.Tracks(cs.States()) && InStates(cs.States(), Targets(cs.byTenant, tenants))
  {
  }

  lemma {:induction false} TracksOnly(cs: CatalogSet, st: States)
    requires cs.Tracks(st)
    ensures cs.States() == st
  {
  }

  ghost predicate InStates(st: States, targets: seq<Option<Catalog>>) {
    forall i :: 0 <= i < |targets| && targets[i].Some? ==> targets[i].value in st
  }

  lemma {:induction false} GetAllStep(st: States, targets: seq<Option<Catalog>>, calls: seq<Call<seq<RawTool>>>, i: nat)
    requires |calls| == |targets| && i < |targets| && InStates(st, targets)
    ensures InStates(st, targets[..i]) && InStates(st, targets[..i + 1])
    ensures var (s, rs) := GetAll(st, targets[..i], calls[..i]);
            GetAll(st, targets[..i + 1], calls[..i + 1]) ==
              match targets[i]
              case None => (s, rs + [None])
              case Some(c) => (s[c := Step(c.ttl, s[c], calls[i])], rs + [Some(Answer(c.ttl, s[c], calls[i]))])
  {
    assert targets[..i + 1][..i] == targets[..i] && calls[..i + 1][..i] == calls[..i];
  }

  lemma {:induction false} ServedStep(tenants: seq<Tenant>, results: seq<Option<GetResult<seq<RawTool>>>>, i: nat,
                                      r: Option<GetResult<seq<RawTool>>>)
    requires i < |tenants| && |results| == i
    ensures ServedViews(tenants[..i + 1], results + [r]) ==
            ServedViews(tenants[..i], results)
            + match r
              case Some(Served(Some(tools))) => [TenantTools(tenants[i], tools)]
              case Some(Served(None)) => [TenantTools(tenants[i], [])]
              case _ => []
  {
    assert tenants[..i + 1][..i] == tenants[..i] && (results + [r])[..i] == results;
  }

  // The state of the loop over the tenants after the first i of them.
  ghost predicate Progress(tenants: seq<Tenant>, targets: seq<Option<Catalog>>, calls: seq<Call<seq<RawTool>>>,
                           st: States, i: nat,
                           now: States, results: seq<Option<GetResult<seq<RawTool>>>>, views: seq<TenantTools<RawTool>>,
                               errs: nat)
  {
    && |tenants| == |targets| == |calls| && i <= |tenants| && |results| == i && InStates(st, targets)
    && InStates(st, targets[..i]) && (now, results) == GetAll(st, targets[..i], calls[..i])
    && views == ServedViews(tenants[..i], results)
    && (errs > 0 <==> Some(Unavailable) in results)
  }

  lemma {:induction false} ProgressStep(tenants: seq<Tenant>, targets: seq<Option<Catalog>>,
                                        calls: seq<Call<seq<RawTool>>>, st: States, i: nat,
                                        now: States, results: seq<Option<GetResult<seq<RawTool>>>>,
                                            views: seq<TenantTools<RawTool>>, errs: nat)
    requires i < |tenants| && Progress(tenants, targets, calls, st, i, now, results, views, errs)
    ensures match targets[i]
            case None => Progress(tenants, targets, calls, st, i + 1, now, results + [None], views, errs)
            case Some(c) =>
              && c in now
              && var r := Answer(c.ttl, now[c], calls[i]);
                 Progress(tenants, targets, calls, st, i + 1, now[c := Step(c.ttl, now[c], calls[i])], results
                     + [Some(r)],
                          if r.Unavailable? then views
                          else views + [TenantTools(tenants[i], if r.tools.Some? then r.tools.value else [])],
                          if r.Unavailable? then errs + 1 else errs)
  {
    GetAllStep(st, targets, calls, i);
    ServedStep(tenants, results, i, match targets[i] case None => None case Some(c) => Some(Answer(c.ttl, now[c],
        calls[i])));
  }

  lemma {:induction false} ProgressNone(tenants: seq<Tenant>, targets: seq<Option<Catalog>>,
                                        calls: seq<Call<seq<RawTool>>>, st: States)
    requires |tenants| == |targets| == |calls| && InStates(st, targets)
    ensures Progress(tenants, targets, calls, st, 0, st, [], [], 0)
  {
  }

  lemma {:induction false} ProgressDone(tenants: seq<Tenant>, targets: seq<Option<Catalog>>,
                                        calls: seq<Call<seq<RawTool>>>, st: States,
                                        now: States, results: seq<Option<GetResult<seq<RawTool>>>>,
                                            views: seq<TenantTools<RawTool>>, errs: nat)
    requires Progress(tenants, targets, calls, st, |tenants|, now, results, views, errs)
    ensures |targets| == |calls| == |results| == |tenants| && InStates(st, targets)
    ensures (now, results) == GetAll(st, targets, calls)
    ensures views == ServedViews(tenants, results)
    ensures errs > 0 <==> Some(Unavailable) in results
  {
    assert targets[..|tenants|] == targets && calls[..|tenants|] == calls && tenants[..|tenants|] == tenants;
  }

  ghost function Targets(byTenant: map<string, Catalog>, tenants: seq<Tenant>): (ts: seq<Option<Catalog>>)
    ensures |ts| == |tenants| && forall i :: 0 <= i < |tenants| ==> ts[i] == TargetOf(byTenant, tenants[i])
  {
    seq(|tenants|, i requires 0 <= i < |tenants| => TargetOf(byTenant, tenants[i]))
  }

  ghost function CallsFor(targets: seq<Option<Catalog>>, replies: seq<Replies<seq<RawTool>>>, clock: seq<(int, int)>)
    : (calls: seq<Call<seq<RawTool>>>)
    requires |targets| == |replies| == |clock|
    ensures |calls| == |targets| && forall i :: 0 <= i < |calls| ==>
            calls[i] == CallFor(targets[i], replies[i], clock[i])
  {
    seq(|targets|, i requires 0 <= i < |targets| => CallFor(targets[i], replies[i], clock[i]))
  }

  function TargetOf(byTenant: map<string, Catalog>, t: Tenant): Option<Catalog> {
    if t.id in byTenant then Some(byTenant[t.id]) else None
  }

  function CallFor(target: Option<Catalog>, r: Replies<seq<RawTool>>, clock: (int, int)): Call<seq<RawTool>> {
    Call(clock.0, FetchResult(target.Some? && target.value.backend.Stateless(), r), clock.1)
  }

  lemma {:induction false} FirstAt(defs: seq<ToolDef>, name: string, i: nat)
    requires i < |defs| && NameOf(defs[i]) == name
    requires forall k :: 0 <= k < i ==> NameOf(defs[k]) != name
    ensures HasTool(defs, name) && FirstTool(defs, name) == defs[i]
  {
    if i > 0 {
      FirstAt(defs[1..], name, i - 1);
    }
  }

  // One catalog per key, built from the key's first tenant.
  ghost predicate KeysBuilt(byKey: map<string, Catalog>, owner: map<string, Tenant>, ttl: int) {
    && byKey.Keys == owner.Keys
    && forall k {:trigger byKey[k]} :: k in byKey ==> BuiltFrom(byKey[k], owner[k], ttl)
  }

  ghost predicate OwnersDone(keyOf: map<string, string>, done: set<string>, owner: map<string, Tenant>) {
    forall k {:trigger owner[k]} :: k in owner ==>
      owner[k].id in done && owner[k].id in keyOf && keyOf[owner[k].id] == k
  }

  // Each tenant done has its key's catalog.
  ghost predicate TenantsDone(keyOf: map<string, string>, done: set<string>, byKey: map<string, Catalog>,
                              byTenant: map<string, Catalog>) {
    && byTenant.Keys == done
    && forall id {:trigger byTenant[id]} :: id in done ==>
         id in keyOf && keyOf[id] in byKey && byTenant[id] == byKey[keyOf[id]]
  }

  ghost predicate Built(keyOf: map<string, string>, done: set<string>, byKey: map<string, Catalog>,
                        byTenant: map<string, Catalog>, owner: map<string, Tenant>, ttl: int)
  {
    KeysBuilt(byKey, owner, ttl) && OwnersDone(keyOf, done, owner) && TenantsDone(keyOf, done, byKey, byTenant)
  }

  // unique lists each catalog once, `order` their keys; `at` is where a catalog is.
  ghost predicate Uniques(unique: seq<Catalog>, order: seq<string>, byKey: map<string, Catalog>,
                          at: map<Catalog, nat>) {
    && |unique| == |order|
    && (forall i {:trigger unique[i]} :: 0 <= i < |unique| ==>
          order[i] in byKey && byKey[order[i]] == unique[i] && unique[i] in at && at[unique[i]] == i)
    && forall k {:trigger byKey[k]} :: k in byKey ==>
         byKey[k] in at && at[byKey[k]] < |order| && order[at[byKey[k]]] == k
  }

  ghost predicate AllEmpty(unique: seq<Catalog>)
    reads unique
  {
    forall j :: 0 <= j < |unique| ==> unique[j].tools.None?
  }

  method AddCatalog(t: Tenant, ttl: int, unique: seq<Catalog>) returns (c: Catalog, more: seq<Catalog>)
    requires AllEmpty(unique)
    ensures fresh(c) && BuiltFrom(c, t, ttl) && more == unique + [c] && AllEmpty(more)
  {
    c := new Catalog(t.backend, t.EffectiveCredential(), t.headers, ttl);
    more := unique + [c];
  }

  method KeysOf(tenants: seq<Tenant>) returns (keys: seq<string>)
    ensures |keys| == |tenants| && forall i :: 0 <= i < |keys| ==> keys[i] == KeyOf(tenants[i])
  {
    keys := [];
    for i := 0 to |tenants|
      invariant |keys| == i && forall k :: 0 <= k < i ==> keys[k] == KeyOf(tenants[k])
    {
      var key := ViewKey(tenants[i]);
      keys := keys + [key];
    }
  }

  // unique lists each catalog of byTenant once; firsts[i] is a tenant of unique[i].
  ghost predicate Lists(byTenant: map<string, Catalog>, unique: seq<Catalog>, firsts: seq<string>) {
    && |firsts| == |unique|
    && (forall i :: 0 <= i < |firsts| ==> firsts[i] in byTenant && byTenant[firsts[i]] == unique[i])
    && (forall id :: id in byTenant ==> byTenant[id] in unique)
    && forall i, j :: 0 <= i < j < |unique| ==> unique[i] != unique[j]
  }

  // Each tenant has a catalog, shared exactly by the tenants with the same key and
  // built from the one of them that owns the key.
  ghost predicate Serves(ids: set<string>, byTenant: map<string, Catalog>, keyOf: map<string, string>,
                         owner: map<string, Tenant>, ttl: int) {
    && byTenant.Keys == ids
    && (forall id :: id in ids ==> id in keyOf && keyOf[id] in owner && BuiltFrom(byTenant[id], owner[keyOf[id]], ttl))
    && (forall k :: k in owner ==> owner[k].id in keyOf && keyOf[owner[k].id] == k)
    && forall a, b :: a in ids && b in ids ==> (byTenant[a] == byTenant[b] <==> keyOf[a] == keyOf[b])
  }

  // An empty set to hold what BuildAll builds.
  method Assemble(byTenant: map<string, Catalog>, unique: seq<Catalog>, ghost firsts: seq<string>)
    returns (cs: CatalogSet)
    requires Lists(byTenant, unique, firsts)
    ensures fresh(cs) && cs.Valid() && cs.byTenant == byTenant && cs.unique == unique
  {
    cs := new CatalogSet();
    cs.byTenant, cs.unique := byTenant, unique;
  }

  method NewCatalogs(reg: Registry, ttl: int)
    returns (cs: CatalogSet, ghost keyOf: map<string, string>, ghost owner: map<string, Tenant>,
        ghost firsts: seq<string>)
    requires forall id :: id in reg.byTenant ==> reg.byTenant[id].id == id
    ensures fresh(cs) && cs.Valid()
    ensures AllEmpty(cs.unique)
    ensures keyOf.Keys == reg.byTenant.Keys && forall id :: id in keyOf ==> keyOf[id] == KeyOf(reg.byTenant[id])
    ensures Serves(reg.byTenant.Keys, cs.byTenant, keyOf, owner, ttl) && Lists(cs.byTenant, cs.unique, firsts)
    ensures (forall k :: k in owner ==> reg.Registered(owner[k])) && Foremost(keyOf, reg.byTenant.Keys, owner)
  {
    var found := reg.Tenants();
    var tenants := SortBy(found, TenantId);
    SortStrict(found, TenantId);
    SameElements(tenants, found);
    var keys := KeysOf(tenants);
    keyOf := KeyMap(reg, tenants, keys);
    var byKey, byTenant, unique;
    ghost var marks;
    byKey, byTenant, unique, marks := BuildAll(tenants, keys, ttl, keyOf);
    owner := marks.owner;
    AllIds(reg, tenants);
    firsts := Conclude(keyOf, reg.byTenant.Keys, byKey, byTenant, marks.order, marks.at, owner, ttl, unique);
    cs := Assemble(byTenant, unique, firsts);
  }

  function FirstIds(tenants: seq<Tenant>, n: nat): set<string>
    requires n <= |tenants|
  {
    if n == 0 then {} else FirstIds(tenants, n - 1) + {tenants[n - 1].id}
  }

  lemma {:induction false} FirstIdsMembers(tenants: seq<Tenant>, n: nat)
    requires n <= |tenants|
    ensures forall id :: id in FirstIds(tenants, n) <==> exists i :: 0 <= i < n && tenants[i].id == id
  {
    if n > 0 {
      FirstIdsMembers(tenants, n - 1);
    }
  }

  lemma {:induction false} IdsBefore(tenants: seq<Tenant>, n: nat)
    requires StrictlySortedBy(tenants, TenantId) && n < |tenants|
    ensures forall id :: id in FirstIds(tenants, n) ==> Less(id, tenants[n].id)
  {
    FirstIdsMembers(tenants, n);
    forall id | id in FirstIds(tenants, n) ensures Less(id, tenants[n].id) {
      var i :| 0 <= i < n && tenants[i].id == id;
      assert Less(TenantId(tenants[i]), TenantId(tenants[n]));
    }
  }

  lemma {:induction false} AllIds(reg: Registry, tenants: seq<Tenant>)
    requires forall id :: id in reg.byTenant ==> reg.byTenant[id].id == id
    requires forall t :: t in tenants <==> reg.Registered(t)
    ensures FirstIds(tenants, |tenants|) == reg.byTenant.Keys
  {
    FirstIdsMembers(tenants, |tenants|);
    forall id | id in reg.byTenant ensures id in FirstIds(tenants, |tenants|) {
      assert reg.byTenant[id] in tenants;
    }
    forall i | 0 <= i < |tenants| ensures tenants[i].id in reg.byTenant {
      assert tenants[i] in tenants;
    }
  }

  lemma {:induction false} KeyMap(reg: Registry, tenants: seq<Tenant>, keys: seq<string>)
    returns (keyOf: map<string, string>)
    requires forall id :: id in reg.byTenant ==> reg.byTenant[id].id == id
    requires forall t :: t in tenants <==> reg.Registered(t)
    requires |keys| == |tenants| && forall i :: 0 <= i < |keys| ==> keys[i] == KeyOf(tenants[i])
    ensures keyOf.Keys == reg.byTenant.Keys && forall id :: id in keyOf ==> keyOf[id] == KeyOf(reg.byTenant[id])
    ensures forall i :: 0 <= i < |keys| ==> tenants[i].id in keyOf && keyOf[tenants[i].id] == keys[i]
  {
    keyOf := map id | id in reg.byTenant :: KeyOf(reg.byTenant[id]);
    forall i | 0 <= i < |keys| ensures tenants[i].id in keyOf && keyOf[tenants[i].id] == keys[i] {
      assert tenants[i] in tenants;
    }
  }

  lemma {:induction false} KeysBuiltNew(byKey: map<string, Catalog>, owner: map<string, Tenant>, ttl: int, key: string,
                                        t: Tenant, c: Catalog)
    requires KeysBuilt(byKey, owner, ttl) && BuiltFrom(c, t, ttl)
    ensures KeysBuilt(byKey[key := c], owner[key := t], ttl)
  {
  }

  lemma {:induction false} OwnersDoneNew(keyOf: map<string, string>, done: set<string>, owner: map<string, Tenant>,
                                         t: Tenant)
    requires OwnersDone(keyOf, done, owner) && t.id in keyOf
    ensures OwnersDone(keyOf, done + {t.id}, owner) && OwnersDone(keyOf, done + {t.id}, owner[keyOf[t.id] := t])
  {
  }

  lemma {:induction false} UniquesNew(unique: seq<Catalog>, order: seq<string>, byKey: map<string, Catalog>,
                                      at: map<Catalog, nat>,
                                      key: string, c: Catalog)
    requires Uniques(unique, order, byKey, at) && key !in byKey && c !in unique && c !in byKey.Values
    ensures Uniques(unique + [c], order + [key], byKey[key := c], at[c := |unique|])
  {
    var more := unique + [c];
    forall i | 0 <= i < |unique| ensures order[i] != key && more[i] == unique[i] != c {
      assert unique[i] in unique;
    }
    assert forall k :: k in byKey ==> byKey[k] in byKey.Values;
  }

  lemma {:induction false} TenantsDoneNew(keyOf: map<string, string>, done: set<string>, byKey: map<string, Catalog>,
                                          byTenant: map<string, Catalog>, id: string, c: Catalog)
    requires TenantsDone(keyOf, done, byKey, byTenant) && id in keyOf && keyOf[id] !in byKey
    ensures TenantsDone(keyOf, done + {id}, byKey[keyOf[id] := c], byTenant[id := c])
  {
  }

  lemma {:induction false} TenantsDoneMore(keyOf: map<string, string>, done: set<string>, byKey: map<string, Catalog>,
                                           byTenant: map<string, Catalog>, id: string)
    requires TenantsDone(keyOf, done, byKey, byTenant) && id in keyOf && keyOf[id] in byKey
    ensures TenantsDone(keyOf, done + {id}, byKey, byTenant[id := byKey[keyOf[id]]])
  {
  }

  lemma {:induction false} BuiltNew(keyOf: map<string, string>, done: set<string>, byKey: map<string, Catalog>,
                                    byTenant: map<string, Catalog>,
                                    owner: map<string, Tenant>, ttl: int, t: Tenant, c: Catalog)
    requires Built(keyOf, done, byKey, byTenant, owner, ttl) && BuiltFrom(c, t, ttl)
    requires t.id in keyOf && keyOf[t.id] !in byKey
    ensures Built(keyOf, done + {t.id}, byKey[keyOf[t.id] := c], byTenant[t.id := c], owner[keyOf[t.id] := t], ttl)
  {
    KeysBuiltNew(byKey, owner, ttl, keyOf[t.id], t, c);
    OwnersDoneNew(keyOf, done, owner, t);
    TenantsDoneNew(keyOf, done, byKey, byTenant, t.id, c);
  }

  lemma {:induction false} BuiltMore(keyOf: map<string, string>, done: set<string>, byKey: map<string, Catalog>,
                                     byTenant: map<string, Catalog>,
                                     owner: map<string, Tenant>, ttl: int, t: Tenant)
    requires Built(keyOf, done, byKey, byTenant, owner, ttl) && t.id in keyOf && keyOf[t.id] in byKey
    ensures Built(keyOf, done + {t.id}, byKey, byTenant[t.id := byKey[keyOf[t.id]]], owner, ttl)
  {
    OwnersDoneNew(keyOf, done, owner, t);
    TenantsDoneMore(keyOf, done, byKey, byTenant, t.id);
  }

  // The owner of each key is the first, by id, of the tenants that have it.
  ghost predicate Foremost(keyOf: map<string, string>, ids: set<string>, owner: map<string, Tenant>) {
    forall id :: id in ids ==> id in keyOf && keyOf[id] in owner && !Less(id, owner[keyOf[id]].id)
  }

  lemma {:induction false} ForemostStep(keyOf: map<string, string>, done: set<string>, owner: map<string, Tenant>,
                                        t: Tenant)
    requires Foremost(keyOf, done, owner) && OwnersDone(keyOf, done, owner) && t.id in keyOf
    requires forall id :: id in done ==> Less(id, t.id)
    ensures Foremost(keyOf, done + {t.id}, if keyOf[t.id] in owner then owner else owner[keyOf[t.id] := t])
  {
    var key := keyOf[t.id];
    if key in owner {
      assert owner[key].id in done;
      LessAsymmetric(t.id, owner[key].id);
    } else {
      LessAsymmetric(t.id, t.id);
    }
  }

  // The loop's bookkeeping: each key's first tenant, the keys in the order they came
  // up, and where a catalog is in that order.
  datatype Marks = Marks(owner: map<string, Tenant>, order: seq<string>, at: map<Catalog, nat>)

  ghost predicate Among(owner: map<string, Tenant>, tenants: seq<Tenant>) {
    forall k :: k in owner ==> owner[k] in tenants
  }

  // The body of the loop over the tenants: a catalog for one more.
  method BuildOne(t: Tenant, key: string, ttl: int, byKey: map<string, Catalog>, byTenant: map<string, Catalog>,
                  unique: seq<Catalog>,
                  ghost keyOf: map<string, string>, ghost done: set<string>, ghost marks: Marks,
                      ghost tenants: seq<Tenant>)
    returns (byKey': map<string, Catalog>, byTenant': map<string, Catalog>, unique': seq<Catalog>, ghost marks': Marks)
    requires t.id in keyOf && keyOf[t.id] == key && t in tenants && forall id :: id in done ==> Less(id, t.id)
    requires Building(keyOf, done, byKey, byTenant, unique, ttl, marks, tenants) && AllEmpty(unique)
    ensures Building(keyOf, done + {t.id}, byKey', byTenant', unique', ttl, marks', tenants) && AllEmpty(unique')
  {
    byKey', unique', marks' := byKey, unique, marks;
    ForemostStep(keyOf, done, marks.owner, t);
    if key !in byKey {
      var c;
      c, unique' := AddCatalog(t, ttl, unique);
      BuiltNew(keyOf, done, byKey, byTenant, marks.owner, ttl, t, c);
      UniquesNew(unique, marks.order, byKey, marks.at, key, c);
      byKey' := byKey[key := c];
      marks' := Marks(marks.owner[key := t], marks.order + [key], marks.at[c := |unique|]);
    } else {
      BuiltMore(keyOf, done, byKey, byTenant, marks.owner, ttl, t);
    }
    byTenant' := byTenant[t.id := byKey'[key]];
  }

  ghost predicate Building(keyOf: map<string, string>, done: set<string>, byKey: map<string, Catalog>,
                           byTenant: map<string, Catalog>,
                           unique: seq<Catalog>, ttl: int, marks: Marks, tenants: seq<Tenant>)
  {
    && Built(keyOf, done, byKey, byTenant, marks.owner, ttl)
    && Uniques(unique, marks.order, byKey, marks.at)
    && Among(marks.owner, tenants)
    && Foremost(keyOf, done, marks.owner)
  }

  lemma {:induction false} NoneBuilt(keyOf: map<string, string>, ttl: int, tenants: seq<Tenant>)
    ensures Building(keyOf, FirstIds(tenants, 0), map[], map[], [], ttl, Marks(map[], [], map[]), tenants)
  {
  }

  method BuildAll(tenants: seq<Tenant>, keys: seq<string>, ttl: int, ghost keyOf: map<string, string>)
    returns (byKey: map<string, Catalog>, byTenant: map<string, Catalog>, unique: seq<Catalog>, ghost marks: Marks)
    requires |keys| == |tenants|
    requires StrictlySortedBy(tenants, TenantId)
    requires forall i :: 0 <= i < |keys| ==> tenants[i].id in keyOf && keyOf[tenants[i].id] == keys[i]
    ensures AllEmpty(unique)
    ensures Building(keyOf, FirstIds(tenants, |tenants|), byKey, byTenant, unique, ttl, marks, tenants)
  {
    hide Building;
    byKey, byTenant, unique, marks := map[], map[], [], Marks(map[], [], map[]);
    NoneBuilt(keyOf, ttl, tenants);
    for i := 0 to |tenants|
      invariant AllEmpty(unique)
      invariant Building(keyOf, FirstIds(tenants, i), byKey, byTenant, unique, ttl, marks, tenants)
    {
      IdsBefore(tenants, i);
      byKey, byTenant, unique, marks :=
        BuildOne(tenants[i], keys[i], ttl, byKey, byTenant, unique, keyOf, FirstIds(tenants, i), marks, tenants);
    }
  }

  lemma {:induction false} Conclude(keyOf: map<string, string>, done: set<string>, byKey: map<string, Catalog>,
                                    byTenant: map<string, Catalog>,
                                    order: seq<string>, at: map<Catalog, nat>, owner: map<string, Tenant>, ttl: int,
                                        unique: seq<Catalog>)
    returns (firsts: seq<string>)
    requires Built(keyOf, done, byKey, byTenant, owner, ttl) && Uniques(unique, order, byKey, at)
    ensures Serves(done, byTenant, keyOf, owner, ttl) && Lists(byTenant, unique, firsts)
  {
    forall i | 0 <= i < |order| ensures order[i] in owner && owner[order[i]].id in done
        && byTenant[owner[order[i]].id] == unique[i] {
      assert unique[i] in at;
    }
    firsts := seq(|order|, i requires 0 <= i < |order| && order[i] in owner => owner[order[i]].id);
    forall id | id in byTenant ensures byTenant[id] in unique {
      assert byTenant[id] == byKey[keyOf[id]] == unique[at[byTenant[id]]];
    }
  }

  // ---- a shared catalog fetches what a private one would ----

  // Two requests that no backend can tell apart.
  ghost predicate SameOnTheWire(a: Msg, b: Msg) {
    && a.backend == b.backend && a.kind == b.kind && a.session == b.session && a.credential == b.credential
    && forall base, result ::
         Layered(base, a.backend, a.credential, a.extra, result)
         <==> Layered(base, b.backend, b.credential, b.extra, result)
  }

  lemma {:induction false} SamePairsSameLayers(base: HeaderMap, b: Backend, credential: string, e1: HeaderMap,
                                               e2: HeaderMap, result: HeaderMap)
    requires Pairs(e1) == Pairs(e2) && Layered(base, b, credential, e1, result)
    ensures Layered(base, b, credential, e2, result)
  {
    var mid :| Overlay(WithCredential(base, b, credential), b.headers, mid) && Overlay(mid, e1, result);
    SamePairsSameOverlay(mid, e1, e2, result);
  }

  lemma {:induction false} SamePairsSameWire(a: Msg, b: Msg)
    requires a.(extra := b.extra) == b && Pairs(a.extra) == Pairs(b.extra)
    ensures SameOnTheWire(a, b)
  {
    forall base, result
      ensures Layered(base, a.backend, a.credential, a.extra, result)
              <==> Layered(base, b.backend, b.credential, b.extra, result)
    {
      if Layered(base, a.backend, a.credential, a.extra, result) {
        SamePairsSameLayers(base, a.backend, a.credential, a.extra, b.extra, result);
      }
      if Layered(base, b.backend, b.credential, b.extra, result) {
        SamePairsSameLayers(base, a.backend, a.credential, b.extra, a.extra, result);
      }
    }
  }

  // The fetches of one backend and credential under two spellings of the headers.
  lemma {:induction false} FetchesDifferInHeaders<T>(b: Backend, credential: string, e1: HeaderMap, e2: HeaderMap,
      r: Replies<T>)
    requires Pairs(e1) == Pairs(e2)
    ensures var one, two := FetchMsgs(b, credential, e1, r), FetchMsgs(b, credential, e2, r);
            |one| == |two| && forall i :: 0 <= i < |two| ==> SameOnTheWire(one[i], two[i])
  {
    var one, two := FetchMsgs(b, credential, e1, r), FetchMsgs(b, credential, e2, r);
    forall i | 0 <= i < |two| ensures SameOnTheWire(one[i], two[i]) {
      if i == |two| - 1 {
        SamePairsSameWire(one[i], two[i]);
      } else {
        assert one[i] == two[i];
      }
    }
  }

  // What a catalog with these fields sends and gets for t is what t's own would.
  ghost predicate FetchesFor<T>(b: Backend, credential: string, headers: HeaderMap, t: Tenant, r: Replies<T>) {
    var shared := FetchMsgs(b, credential, headers, r);
    var own := FetchMsgs(t.backend, t.EffectiveCredential(), t.headers, r);
    && |shared| == |own|
    && (forall i :: 0 <= i < |own| ==> SameOnTheWire(shared[i], own[i]))
    && FetchResult(b.Stateless(), r) == FetchResult(t.backend.Stateless(), r)
  }

  // Sharing by key is invisible: for tenants of a well-formed registry, over alphabets
  // that keep the key's separators apart, the catalog of o with t's key sends for t
  // exactly what t's own would.
  lemma {:induction false} SharedFetchIsPrivateFetch<T>(reg: Registry, t: Tenant, o: Tenant, r: Replies<T>,
                                                        names: char -> bool, text: char -> bool)
    requires reg.WellFormed() && reg.Registered(t) && reg.Registered(o)
    requires SeparatorsApart(names, text) && Over(t, names, text) && Over(o, names, text) && KeyOf(t) == KeyOf(o)
    ensures FetchesFor(o.backend, o.EffectiveCredential(), o.headers, t, r)
  {
    KeysTellApartExactly(names, text);
    assert SameView(t, o);
    assert t.backend in reg.backends && o.backend in reg.backends;
    assert t.backend == o.backend;
    FetchesDifferInHeaders(t.backend, t.EffectiveCredential(), o.headers, t.headers, r);
  }

  // A catalog built from o is fetched with the credential of every tenant t that has o's
  // key: t's own, or the backend's if it has none.
  lemma {:induction false} OwnCredential(c: Catalog, o: Tenant, t: Tenant, ttl: int,
                                         names: char -> bool, text: char -> bool)
    requires BuiltFrom(c, o, ttl) && KeyOf(t) == KeyOf(o)
    requires SeparatorsApart(names, text) && Over(t, names, text) && Over(o, names, text)
    ensures t.credential != "" ==> c.credential == t.credential
    ensures t.credential == "" ==> c.credential == t.backend.credential
  {
    KeysTellApartExactly(names, text);
    assert SameView(t, o);
  }

  // So tenants with different credentials of their own never share a catalog, whatever
  // tenants their catalogs were built from.
  lemma {:induction false} CredentialsKeepCatalogsApart(c: Catalog, oc: Tenant, t: Tenant, d: Catalog, od: Tenant,
      u: Tenant,
                                                        ttl: int, names: char -> bool, text: char -> bool)
    requires BuiltFrom(c, oc, ttl) && KeyOf(t) == KeyOf(oc) && BuiltFrom(d, od, ttl) && KeyOf(u) == KeyOf(od)
    requires SeparatorsApart(names, text)
    requires Over(t, names, text) && Over(oc, names, text) && Over(u, names, text) && Over(od, names, text)
    requires t.credential != "" && u.credential != "" && t.credential != u.credential
    ensures c != d
  {
    OwnCredential(c, oc, t, ttl, names, text);
    OwnCredential(d, od, u, ttl, names, text);
  }

  // The catalogs that NewCatalogs builds fetch for every registered tenant what a
  // catalog of its own would fetch.
  lemma {:induction false} CatalogsFetchPrivately<T>(reg: Registry, ttl: int, byTenant: map<string, Catalog>,
      keyOf: map<string, string>,
                                                     owner: map<string, Tenant>, t: Tenant, r: Replies<T>,
                                                     names: char -> bool, text: char -> bool)
    requires reg.WellFormed() && reg.Registered(t)
    requires SeparatorsApart(names, text) && forall id :: id in reg.byTenant ==> Over(reg.byTenant[id], names, text)
    requires keyOf.Keys == reg.byTenant.Keys && forall id :: id in keyOf ==> keyOf[id] == KeyOf(reg.byTenant[id])
    requires Serves(reg.byTenant.Keys, byTenant, keyOf, owner, ttl)
    requires forall k :: k in owner ==> reg.Registered(owner[k])
    ensures t.id in byTenant
    ensures var c := byTenant[t.id];
            c.ttl == ttl && FetchesFor(c.backend, c.credential, c.headers, t, r)
    ensures t.credential != "" ==> byTenant[t.id].credential == t.credential
    ensures t.credential != "" ==>
              forall u :: reg.Registered(u) && u.credential !in {"", t.credential} ==>
                u.id in byTenant && byTenant[u.id] != byTenant[t.id]
  {
    var o := owner[keyOf[t.id]];
    assert reg.byTenant[o.id] == o && keyOf[o.id] == keyOf[t.id];
    OwnCredential(byTenant[t.id], o, t, ttl, names, text);
    forall u | reg.Registered(u) && t.credential != "" && u.credential != "" && u.credential != t.credential
      ensures u.id in byTenant && byTenant[u.id] != byTenant[t.id]
    {
      var ou := owner[keyOf[u.id]];
      assert reg.byTenant[ou.id] == ou && keyOf[ou.id] == keyOf[u.id];
      OwnCredential(byTenant[u.id], ou, u, ttl, names, text);
    }
    SharedFetchIsPrivateFetch(reg, t, o, r, names, text);
  }
}
