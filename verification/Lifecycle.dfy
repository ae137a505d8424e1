// Whole runs of the proxy that handle one request at a time: what is opened,
// recorded and torn down, and what a stateless backend sees.
module Lifecycle {
  import opened Wrappers
  import opened TenantRegistry
  import opened Sessions
  import opened Catalogs
  import opened Wire
  import opened Routing

  datatype Event =
    | OnInitialize(newID: string, t0: int, t1: int)
    | OnCall(client: string, tenant: string, headers: map<string, string>, answers: Answers, clock: Clock)
    | OnDelete(client: string, order: seq<string>)
    | OnFetch(tenant: string, replies: Replies<()>)

  // deleted holds the sessions that were live when their DELETE came.
  datatype System = System(view: View, minted: set<string>, deleted: set<string>, log: seq<Sent>)

  const START := System(map[], {}, {}, [])

  // Minted ids are fresh, routed and fetched tenants are registered.
  ghost predicate Enabled(reg: Registry, s: System, e: Event) {
    match e
    case OnInitialize(newID, _, _) => newID !in s.minted
    case OnCall(_, tenant, _, _, _) => tenant in reg.byTenant
    case OnDelete(_, order) => IsOrder(reg, order)
    case OnFetch(tenant, _) => tenant in reg.byTenant
  }

  ghost function Apply(reg: Registry, ttl: int, s: System, e: Event): System
    requires Enabled(reg, s, e)
  {
    match e
    case OnInitialize(newID, t0, t1) =>
      if reg.EveryStateless() then s
      else s.(view := Minted(s.view, ttl, newID, t0, t1), minted := s.minted + {newID})
    case OnCall(client, tenant, headers, a, c) =>
      var r := Route(ttl, s.view, client, reg.byTenant[tenant], headers, a, c);
      s.(view := r.view, log := s.log + Tagged(Some(client), tenant, r.msgs, r.granted))
    case OnDelete(client, order) =>
      if reg.EveryStateless() || client !in s.view then s
      else System(s.view - {client}, s.minted, s.deleted + {client},
                  s.log + Teardowns(reg, client, s.view[client].backendSID, order))
    case OnFetch(tenant, r) =>
      var t := reg.byTenant[tenant];
      s.(log := s.log + Tagged(None, tenant, FetchMsgs(t.backend, t.EffectiveCredential(), t.headers, r), r.initialize))
  }

  // A run from the empty proxy; an event that is not enabled cannot happen.
  ghost function Run(reg: Registry, ttl: int, events: seq<Event>): System {
    if events == [] then START
    else
      var before := Run(reg, ttl, events[..|events| - 1]);
      var e := events[|events| - 1];
      if Enabled(reg, before, e) then Apply(reg, ttl, before, e) else before
  }

  // ---- Counting requests ----

  datatype Mark =
    | Opened(client: string, tenant: string)      // handshakes that succeeded
    | OpenedWithID(client: string, tenant: string) // those that gave a session id
    | TornDown(client: string, tenant: string)

  predicate Marks(mark: Mark, e: Sent) {
    && e.client == Some(mark.client) && e.tenant == mark.tenant
    && match mark
       case Opened(_, _) => e.granted.Some?
       case OpenedWithID(_, _) => e.granted.Some? && e.granted.value != ""
       case TornDown(_, _) => e.msg.kind.Teardown?
  }

  function Count(log: seq<Sent>, mark: Mark): nat {
    if log == [] then 0
    else Count(log[..|log| - 1], mark) + if Marks(mark, log[|log| - 1]) then 1 else 0
  }

  lemma {:induction false} CountAppend(a: seq<Sent>, b: seq<Sent>, mark: Mark)
    ensures Count(a + b, mark) == Count(a, mark) + Count(b, mark)
  {
    if b == [] {
      assert a + b == a;
    } else {
      var n := |b| - 1;
      assert (a + b)[..|a + b| - 1] == a + b[..n] && (a + b)[|a + b| - 1] == b[n];
      CountAppend(a, b[..n], mark);
    }
  }

  lemma {:induction false} CountNone(log: seq<Sent>, mark: Mark)
    requires forall e :: e in log ==> !Marks(mark, e)
    ensures Count(log, mark) == 0
  {
    if log != [] {
      CountNone(log[..|log| - 1], mark);
    }
  }

  lemma {:induction false} CountOne(log: seq<Sent>, e: Sent, mark: Mark)
    ensures Count(log + [e], mark) == Count(log, mark) + if Marks(mark, e) then 1 else 0
  {
    assert (log + [e])[..|log|] == log;
  }

  lemma {:induction false} CountHead(log: seq<Sent>, mark: Mark)
    requires log != [] && forall i :: 1 <= i < |log| ==> !Marks(mark, log[i])
    ensures Count(log, mark) == if Marks(mark, log[0]) then 1 else 0
  {
    assert log == [log[0]] + log[1..];
    CountAppend([log[0]], log[1..], mark);
    CountNone(log[1..], mark);
  }

  lemma {:induction false} RouteCounts(ttl: int, v: View, client: string, t: Tenant, headers: map<string, string>,
                                       a: Answers, c: Clock, mark: Mark)
    ensures var r := Route(ttl, v, client, t, headers, a, c);
            Count(Tagged(Some(client), t.id, r.msgs, r.granted), mark)
            == if mark.client == client && mark.tenant == t.id && r.granted.Some?
                  && (mark.Opened? || (mark.OpenedWithID? && r.granted.value != "")) then 1 else 0
  {
    var r := Route(ttl, v, client, t, headers, a, c);
    var log := Tagged(Some(client), t.id, r.msgs, r.granted);
    if log != [] {
      CountHead(log, mark);
    }
  }

  // The teardown of one tenant's recorded session, if there is one.
  lemma {:induction false} OneTeardownCounts(reg: Registry, client: string, sids: map<string, string>,
                                             order: seq<string>, mark: Mark)
    requires order != [] && forall id :: id in order ==> id in reg.byTenant
    ensures var id := order[|order| - 1];
            Count(Teardowns(reg, client, sids, order), mark)
            == Count(Teardowns(reg, client, sids, order[..|order| - 1]), mark)
               + if mark.TornDown? && mark.client == client && mark.tenant == id && id in sids && sids[id] != "" then 1
                   else 0
  {
    var id, before := order[|order| - 1], Teardowns(reg, client, sids, order[..|order| - 1]);
    if id in sids && sids[id] != "" {
      CountOne(before, Sent(Some(client), id, TeardownMsg(reg.byTenant[id], sids[id]), None), mark);
    } else {
      assert Teardowns(reg, client, sids, order) == before;
    }
  }

  lemma {:induction false} TeardownCounts(reg: Registry, client: string, sids: map<string, string>, order: seq<string>,
                                          mark: Mark)
    requires forall i, j :: 0 <= i < j < |order| ==> order[i] != order[j]
    requires forall id :: id in order ==> id in reg.byTenant
    ensures Count(Teardowns(reg, client, sids, order), mark)
            == if mark.TornDown? && mark.client == client && mark.tenant in order && mark.tenant in sids
                && sids[mark.tenant] != ""
               then 1 else 0
  {
    if order != [] {
      var n := |order| - 1;
      TeardownCounts(reg, client, sids, order[..n], mark);
      OneTeardownCounts(reg, client, sids, order, mark);
      assert order == order[..n] + [order[n]];
      assert mark.tenant in order <==> mark.tenant in order[..n] || mark.tenant == order[n];
    }
  }

  lemma {:induction false} FetchCounts(reg: Registry, t: Tenant, r: Replies<()>, mark: Mark)
    ensures Count(Tagged(None, t.id, FetchMsgs(t.backend, t.EffectiveCredential(), t.headers, r), r.initialize), mark)
            == 0
  {
    CountNone(Tagged(None, t.id, FetchMsgs(t.backend, t.EffectiveCredential(), t.headers, r), r.initialize), mark);
  }

  // ---- The invariant ----

  // What has happened for one client session and one tenant.
  ghost predicate Accounted(reg: Registry, s: System, p: string, t: string) {
    var handshakes, granted, torn :=
      Count(s.log, Opened(p, t)), Count(s.log, OpenedWithID(p, t)), Count(s.log, TornDown(p, t));
    && granted <= handshakes <= 1
    && (p !in s.minted ==> handshakes == 0 && torn == 0)
    && (p in s.view ==>
          var sids := s.view[p].backendSID;
          && (handshakes == 1 <==> t in sids)
          && (granted == 1 <==> t in sids && sids[t] != "")
          && (t in sids ==> t in reg.byTenant && !reg.byTenant[t].backend.Stateless())
          && torn == 0)
    && (p in s.deleted ==> torn == granted)
    && (p !in s.deleted ==> torn == 0)
    && (handshakes == 1 ==> t in reg.byTenant && !reg.byTenant[t].backend.Stateless())
  }

  ghost predicate Inv(reg: Registry, s: System) {
    && s.view.Keys <= s.minted && s.deleted <= s.minted && s.deleted !! s.view.Keys
    && (forall p, t :: Accounted(reg, s, p, t))
    && (forall e :: e in s.log ==> StatelessSafe(e.msg))
    && (reg.EveryStateless() ==> s.view == map[])
  }

  lemma {:induction false} InitializeKeepsInv(reg: Registry, ttl: int, s: System, newID: string, t0: int, t1: int)
    requires Inv(reg, s) && newID !in s.minted
    ensures Inv(reg, Apply(reg, ttl, s, OnInitialize(newID, t0, t1)))
  {
    var s' := Apply(reg, ttl, s, OnInitialize(newID, t0, t1));
    forall p, t ensures Accounted(reg, s', p, t) {
      assert Accounted(reg, s, p, t);
    }
  }

  lemma {:induction false} CallAccounts(reg: Registry, ttl: int, s: System, e: Event, p: string, t: string)
    requires reg.WellFormed() && e.OnCall? && Enabled(reg, s, e)
    requires s.view.Keys <= s.minted && s.deleted !! s.view.Keys && Accounted(reg, s, p, t)
    ensures Accounted(reg, Apply(reg, ttl, s, e), p, t)
  {
    var tenant := reg.byTenant[e.tenant];
    var r := Route(ttl, s.view, e.client, tenant, e.headers, e.answers, e.clock);
    var added := Tagged(Some(e.client), e.tenant, r.msgs, r.granted);
    CountAppend(s.log, added, Opened(p, t));
    CountAppend(s.log, added, OpenedWithID(p, t));
    CountAppend(s.log, added, TornDown(p, t));
    RouteCounts(ttl, s.view, e.client, tenant, e.headers, e.answers, e.clock, Opened(p, t));
    RouteCounts(ttl, s.view, e.client, tenant, e.headers, e.answers, e.clock, OpenedWithID(p, t));
    RouteCounts(ttl, s.view, e.client, tenant, e.headers, e.answers, e.clock, TornDown(p, t));
    RouteView(ttl, s.view, e.client, tenant, e.headers, e.answers, e.clock, p);
  }

  // What one call does to the recorded sessions of client p.
  lemma {:induction false} RouteView(ttl: int, v: View, client: string, t: Tenant, headers: map<string, string>,
                                     a: Answers, c: Clock, p: string)
    ensures var r := Route(ttl, v, client, t, headers, a, c);
            && (p in r.view ==> p in v)
            && (p in r.view && (p != client || r.granted.None?) ==> r.view[p].backendSID == v[p].backendSID)
            && (r.granted.Some? ==> !t.backend.Stateless() && client in v && client in r.view
                                    && t.id !in v[client].backendSID
                                    && r.view[client].backendSID == v[client].backendSID[t.id := r.granted.value])
  {
  }

  lemma {:induction false} RouteSafe(ttl: int, v: View, client: string, t: Tenant, headers: map<string, string>,
                                     a: Answers, c: Clock)
    ensures var r := Route(ttl, v, client, t, headers, a, c);
            forall e :: e in Tagged(Some(client), t.id, r.msgs, r.granted) ==> StatelessSafe(e.msg)
  {
  }

  lemma {:induction false} CallKeepsInv(reg: Registry, ttl: int, s: System, e: Event)
    requires reg.WellFormed() && Inv(reg, s) && e.OnCall? && Enabled(reg, s, e)
    ensures Inv(reg, Apply(reg, ttl, s, e))
  {
    var s' := Apply(reg, ttl, s, e);
    var tenant := reg.byTenant[e.tenant];
    forall p, t ensures Accounted(reg, s', p, t) {
      assert Accounted(reg, s, p, t);
      CallAccounts(reg, ttl, s, e, p, t);
    }
    forall p | p in s'.view ensures p in s.view {
      RouteView(ttl, s.view, e.client, tenant, e.headers, e.answers, e.clock, p);
    }
    RouteSafe(ttl, s.view, e.client, tenant, e.headers, e.answers, e.clock);
  }

  lemma {:induction false} DeleteAccounts(reg: Registry, ttl: int, s: System, client: string, order: seq<string>,
                                          p: string, t: string)
    requires s.view.Keys <= s.minted && s.deleted !! s.view.Keys && Accounted(reg, s, p, t) && IsOrder(reg, order)
    ensures Accounted(reg, Apply(reg, ttl, s, OnDelete(client, order)), p, t)
  {
    if client in s.view && !reg.EveryStateless() {
      var sids := s.view[client].backendSID;
      var added := Teardowns(reg, client, sids, order);
      CountAppend(s.log, added, Opened(p, t));
      CountAppend(s.log, added, OpenedWithID(p, t));
      CountAppend(s.log, added, TornDown(p, t));
      TeardownCounts(reg, client, sids, order, Opened(p, t));
      TeardownCounts(reg, client, sids, order, OpenedWithID(p, t));
      TeardownCounts(reg, client, sids, order, TornDown(p, t));
      hide Count, Teardowns;
    }
  }

  lemma {:induction false} DeleteKeepsInv(reg: Registry, ttl: int, s: System, client: string, order: seq<string>)
    requires Inv(reg, s) && IsOrder(reg, order)
    ensures Inv(reg, Apply(reg, ttl, s, OnDelete(client, order)))
  {
    if client in s.view && !reg.EveryStateless() {
      var sids := s.view[client].backendSID;
      forall t | t in sids ensures t in reg.byTenant && !reg.byTenant[t].backend.Stateless() {
        assert Accounted(reg, s, client, t);
      }
      TeardownsSafe(reg, client, sids, order);
    }
    forall p, t ensures Accounted(reg, Apply(reg, ttl, s, OnDelete(client, order)), p, t) {
      assert Accounted(reg, s, p, t);
      DeleteAccounts(reg, ttl, s, client, order, p, t);
    }
  }

  lemma {:induction false} TeardownsSafe(reg: Registry, client: string, sids: map<string, string>, order: seq<string>)
    requires forall id :: id in order ==> id in reg.byTenant
    requires forall t :: t in sids ==> t in reg.byTenant && !reg.byTenant[t].backend.Stateless()
    ensures forall e :: e in Teardowns(reg, client, sids, order) ==> StatelessSafe(e.msg)
  {
    if order != [] {
      TeardownsSafe(reg, client, sids, order[..|order| - 1]);
    }
  }

  lemma {:induction false} FetchAccounts(reg: Registry, ttl: int, s: System, tenant: string, r: Replies<()>, p: string,
                                         t: string)
    requires reg.WellFormed() && tenant in reg.byTenant && Accounted(reg, s, p, t)
    ensures Accounted(reg, Apply(reg, ttl, s, OnFetch(tenant, r)), p, t)
  {
    var v := reg.byTenant[tenant];
    var added := Tagged(None, tenant, FetchMsgs(v.backend, v.EffectiveCredential(), v.headers, r), r.initialize);
    CountAppend(s.log, added, Opened(p, t));
    CountAppend(s.log, added, OpenedWithID(p, t));
    CountAppend(s.log, added, TornDown(p, t));
    FetchCounts(reg, v, r, Opened(p, t));
    FetchCounts(reg, v, r, OpenedWithID(p, t));
    FetchCounts(reg, v, r, TornDown(p, t));
  }

  lemma {:induction false} FetchKeepsInv(reg: Registry, ttl: int, s: System, tenant: string, r: Replies<()>)
    requires reg.WellFormed() && Inv(reg, s) && tenant in reg.byTenant
    ensures Inv(reg, Apply(reg, ttl, s, OnFetch(tenant, r)))
  {
    var s' := Apply(reg, ttl, s, OnFetch(tenant, r));
    var t := reg.byTenant[tenant];
    forall p, t' ensures Accounted(reg, s', p, t') {
      assert Accounted(reg, s, p, t');
      FetchAccounts(reg, ttl, s, tenant, r, p, t');
    }
    forall m | m in FetchMsgs(t.backend, t.EffectiveCredential(), t.headers, r) ensures StatelessSafe(m) {
      FetchIsStatelessSafe(t.backend, t.EffectiveCredential(), t.headers, r, m);
    }
  }

  lemma {:induction false} RunsKeepInv(reg: Registry, ttl: int, events: seq<Event>)
    requires reg.WellFormed()
    ensures Inv(reg, Run(reg, ttl, events))
  {
    if events != [] {
      var e := events[|events| - 1];
      var before := Run(reg, ttl, events[..|events| - 1]);
      RunsKeepInv(reg, ttl, events[..|events| - 1]);
      if Enabled(reg, before, e) {
        match e
        case OnInitialize(newID, t0, t1) => InitializeKeepsInv(reg, ttl, before, newID, t0, t1);
        case OnCall(_, _, _, _, _) => CallKeepsInv(reg, ttl, before, e);
        case OnDelete(client, order) => DeleteKeepsInv(reg, ttl, before, client, order);
        case OnFetch(tenant, r) => FetchKeepsInv(reg, ttl, before, tenant, r);
      }
    }
  }

  // ---- What the invariant says about every run ----

  // At most one successful handshake per client session and tenant, ever; each
  // session id it gave is torn down at most once, and exactly once if the client
  // session was still there when it was deleted.
  lemma {:induction false} SessionsAreConserved(reg: Registry, ttl: int, events: seq<Event>, p: string, t: string)
    requires reg.WellFormed()
    ensures var s := Run(reg, ttl, events);
            && Count(s.log, Opened(p, t)) <= 1
            && Count(s.log, TornDown(p, t)) == (if p in s.deleted then Count(s.log, OpenedWithID(p, t)) else 0)
            && (p in s.view ==>
                  var sids := s.view[p].backendSID;
                  && (Count(s.log, OpenedWithID(p, t)) == 1 <==> t in sids && sids[t] != "")
                  && (t in sids ==> t in reg.byTenant && !reg.byTenant[t].backend.Stateless()))
  {
    RunsKeepInv(reg, ttl, events);
    assert Accounted(reg, Run(reg, ttl, events), p, t);
  }

  // A second DELETE of the same session sends nothing and changes nothing.
  lemma {:induction false} SecondDeleteIsSilent(reg: Registry, ttl: int, s: System, client: string, order: seq<string>,
                                                again: seq<string>)
    requires Enabled(reg, s, OnDelete(client, order)) && IsOrder(reg, again)
    ensures var once := Apply(reg, ttl, s, OnDelete(client, order));
            Apply(reg, ttl, once, OnDelete(client, again)) == once
  {
  }

  // No stateless backend ever receives initialize or a session id, whether from a
  // catalog fetch, a routed call or a DELETE; if every backend is stateless no
  // client session ever exists.
  lemma {:induction false} StatelessBackendsStaySessionless(reg: Registry, ttl: int, events: seq<Event>)
    requires reg.WellFormed()
    ensures var s := Run(reg, ttl, events);
            && (forall e :: e in s.log && e.msg.backend.protocolVersion == "2026-07-28" ==>
                  e.msg.session.None? && !e.msg.kind.Initialize?)
            && (reg.EveryStateless() ==> s.view == map[])
  {
    RunsKeepInv(reg, ttl, events);
  }
}
