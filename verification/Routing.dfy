// The session-keeping part of the handler: initialize, tools/call routing and
// DELETE, one request at a time (internal/proxy/handler.go).
module Routing {
  import opened Wrappers
  import opened Strings
  import opened TenantRegistry
  import opened Sessions
  import opened Wire

  // A request as it leaves the proxy: for which client session (None for a catalog
  // fetch) and tenant, and the session id granted if it is an initialize that
  // succeeded.
  datatype Sent = Sent(client: Option<string>, tenant: string, msg: Msg, granted: Option<string>)

  function Tagged(client: Option<string>, tenant: string, msgs: seq<Msg>, granted: Option<string>): seq<Sent> {
    seq(|msgs|, i requires 0 <= i < |msgs| =>
      Sent(client, tenant, msgs[i], if msgs[i].kind.Initialize? then granted else None))
  }

  // The backend's answers to one routed call: to initialize, if it is sent, and to
  // tools/call. None is any failure.
  datatype Answers = Answers(initialize: Option<string>, call: Option<string>)

  // Clock readings of one routed call: Get (reaping, refreshing) and SetBackendSID.
  datatype Clock = Clock(reap: int, get: int, record: int)

  datatype Outcome = NoSession | OpenFailed | CallFailed | Answered(body: string)

  datatype Routed = Routed(view: View, msgs: seq<Msg>, granted: Option<string>, outcome: Outcome)

  function CallOutcome(a: Answers): Outcome {
    if a.call.Some? then Answered(a.call.value) else CallFailed
  }

  function Route(ttl: int, v: View, client: string, t: Tenant, headers: map<string, string>, a: Answers,
                 c: Clock): Routed {
    var cred := t.EffectiveCredential();
    if t.backend.Stateless() then
      Routed(v, [Post(t.backend, ToolsCall, "", cred, headers)], None, CallOutcome(a))
    else
      var seen := Touched(v, ttl, client, c.reap, c.get);
      if client !in seen then Routed(seen, [], None, NoSession)
      else if t.id in seen[client].backendSID then
        Routed(seen, [Post(t.backend, ToolsCall, seen[client].backendSID[t.id], cred, headers)], None, CallOutcome(a))
      else if a.initialize.None? then
        Routed(seen, Handshake(t.backend, cred, None), None, OpenFailed)
      else
        var sid := a.initialize.value;
        Routed(Recorded(seen, client, t.id, sid, c.record),
               Handshake(t.backend, cred, a.initialize) + [Post(t.backend, ToolsCall, sid, cred, headers)],
               Some(sid), CallOutcome(a))
  }

  // The teardown of every recorded, non-empty backend session among `order`.
  function Teardowns(reg: Registry, client: string, sids: map<string, string>, order: seq<string>): seq<Sent>
    requires forall id :: id in order ==> id in reg.byTenant
  {
    if order == [] then []
    else
      var id := order[|order| - 1];
      Teardowns(reg, client, sids, order[..|order| - 1])
      + if id in sids && sids[id] != "" then [Sent(Some(client), id, TeardownMsg(reg.byTenant[id], sids[id]), None)]
          else []
  }

  // ---- what the requests are, without the functions that build them ----

  // e is a request of this kind to the tenant's backend: with the tenant's own
  // credential if it has one, else with the backend's.
  ghost predicate Goes(e: Sent, client: Option<string>, t: Tenant, kind: Kind, session: Option<string>,
                       extra: map<string, string>, granted: Option<string>)
  {
    && e.client == client && e.tenant == t.id && e.granted == granted
    && e.msg.kind == kind && e.msg.session == session && e.msg.extra == extra && e.msg.backend == t.backend
    && (t.credential != "" ==> e.msg.credential == t.credential)
    && (t.credential == "" ==> e.msg.credential == t.backend.credential)
  }

  // x goes in the session header unless it is empty.
  ghost predicate Carries(session: Option<string>, x: string) {
    (x == "" ==> session == None) && (x != "" ==> session == Some(x))
  }

  ghost predicate Concluded(a: Answers, outcome: Outcome) {
    && (a.call.None? ==> outcome == CallFailed)
    && (a.call.Some? ==> outcome == Answered(a.call.value))
  }

  // One tools/call and nothing else.
  ghost predicate OneCall(sent: seq<Sent>, client: string, t: Tenant, x: string, headers: map<string, string>) {
    |sent| == 1 && Carries(sent[0].msg.session, x)
    && Goes(sent[0], Some(client), t, ToolsCall, sent[0].msg.session, headers, None)
  }

  // initialize, notifications/initialized if a session id was granted, tools/call: all
  // but the first with that id.
  ghost predicate OpenAndCall(sent: seq<Sent>, client: string, t: Tenant, x: string, headers: map<string, string>) {
    && |sent| == (if x == "" then 2 else 3)
    && Goes(sent[0], Some(client), t, Kind.Initialize, None, map[], Some(x))
    && (x != "" ==> Goes(sent[1], Some(client), t, Initialized, Some(x), map[], None))
    && OneCall(sent[|sent| - 1..], client, t, x, headers)
  }

  // The client session is there and was used recently enough.
  ghost predicate Live(ttl: int, v: View, client: string, now: int) {
    client in v && (ttl <= 0 || now - v[client].lastSeen <= ttl)
  }

  // The sessions that survive reaping stay as they are, but for the client's own.
  ghost predicate OthersKept(ttl: int, v: View, client: string, now: int, v': View) {
    && (forall p :: p in v' <==> Live(ttl, v, p, now))
    && (forall p :: p in v' && p != client ==> v'[p] == v[p])
  }

  // What routing one call does, case by case.
  ghost predicate RightlyRouted(ttl: int, v: View, client: string, t: Tenant, headers: map<string, string>, a: Answers,
                                c: Clock, v': View, sent: seq<Sent>, outcome: Outcome)
  {
    if t.backend.protocolVersion == "2026-07-28" then
      v' == v && OneCall(sent, client, t, "", headers) && Concluded(a, outcome)
    else
      && OthersKept(ttl, v, client, c.reap, v')
      && if !Live(ttl, v, client, c.reap) then sent == [] && outcome == NoSession
         else if t.id in v[client].backendSID then
           && OneCall(sent, client, t, v[client].backendSID[t.id], headers) && Concluded(a, outcome)
           && v'[client] == Entry(v[client].created, c.get, v[client].backendSID)
         else if a.initialize.None? then
           && |sent| == 1 && Goes(sent[0], Some(client), t, Kind.Initialize, None, map[], None) && outcome == OpenFailed
           && v'[client] == Entry(v[client].created, c.get, v[client].backendSID)
         else
           && OpenAndCall(sent, client, t, a.initialize.value, headers) && Concluded(a, outcome)
           && v'[client] == Entry(v[client].created, c.record, v[client].backendSID[t.id := a.initialize.value])
  }

  lemma {:induction false} RouteStateless(ttl: int, v: View, client: string, t: Tenant, headers: map<string, string>,
                                          a: Answers, c: Clock)
    requires t.backend.protocolVersion == "2026-07-28"
    ensures var r := Route(ttl, v, client, t, headers, a, c);
            RightlyRouted(ttl, v, client, t, headers, a, c, r.view,
                          Tagged(Some(client), t.id, r.msgs, r.granted), r.outcome)
  {
  }

  lemma {:induction false} RouteKeepsOthers(ttl: int, v: View, client: string, t: Tenant, headers: map<string, string>,
                                            a: Answers, c: Clock)
    requires t.backend.protocolVersion != "2026-07-28"
    ensures OthersKept(ttl, v, client, c.reap, Route(ttl, v, client, t, headers, a, c).view)
  {
  }

  lemma {:induction false} RouteAbsent(ttl: int, v: View, client: string, t: Tenant, headers: map<string, string>,
                                       a: Answers, c: Clock)
    requires t.backend.protocolVersion != "2026-07-28" && !Live(ttl, v, client, c.reap)
    ensures var r := Route(ttl, v, client, t, headers, a, c);
            RightlyRouted(ttl, v, client, t, headers, a, c, r.view,
                          Tagged(Some(client), t.id, r.msgs, r.granted), r.outcome)
  {
    RouteKeepsOthers(ttl, v, client, t, headers, a, c);
    hide OthersKept;
  }

  lemma {:induction false} RouteRecorded(ttl: int, v: View, client: string, t: Tenant, headers: map<string, string>,
                                         a: Answers, c: Clock)
    requires t.backend.protocolVersion != "2026-07-28" && Live(ttl, v, client, c.reap)
    requires t.id in v[client].backendSID
    ensures var r := Route(ttl, v, client, t, headers, a, c);
            RightlyRouted(ttl, v, client, t, headers, a, c, r.view,
                          Tagged(Some(client), t.id, r.msgs, r.granted), r.outcome)
  {
    RouteKeepsOthers(ttl, v, client, t, headers, a, c);
    hide OthersKept;
  }

  lemma {:induction false} OpensThenCalls(client: string, t: Tenant, x: string, headers: map<string, string>)
    requires t.backend.protocolVersion != "2026-07-28"
    ensures var cred := t.EffectiveCredential();
            var msgs := Handshake(t.backend, cred, Some(x)) + [Post(t.backend, ToolsCall, x, cred, headers)];
            OpenAndCall(Tagged(Some(client), t.id, msgs, Some(x)), client, t, x, headers)
  {
  }

  lemma {:induction false} RouteFailsToOpen(ttl: int, v: View, client: string, t: Tenant, headers: map<string, string>,
                                            a: Answers, c: Clock)
    requires t.backend.protocolVersion != "2026-07-28" && Live(ttl, v, client, c.reap)
    requires t.id !in v[client].backendSID && a.initialize.None?
    ensures var r := Route(ttl, v, client, t, headers, a, c);
            RightlyRouted(ttl, v, client, t, headers, a, c, r.view,
                          Tagged(Some(client), t.id, r.msgs, r.granted), r.outcome)
  {
    RouteKeepsOthers(ttl, v, client, t, headers, a, c);
    hide OthersKept;
  }

  lemma {:induction false} RouteOpens(ttl: int, v: View, client: string, t: Tenant, headers: map<string, string>,
                                      a: Answers, c: Clock)
    requires t.backend.protocolVersion != "2026-07-28" && Live(ttl, v, client, c.reap)
    requires t.id !in v[client].backendSID && a.initialize.Some?
    ensures var r := Route(ttl, v, client, t, headers, a, c);
            RightlyRouted(ttl, v, client, t, headers, a, c, r.view,
                          Tagged(Some(client), t.id, r.msgs, r.granted), r.outcome)
  {
    RouteKeepsOthers(ttl, v, client, t, headers, a, c);
    OpensThenCalls(client, t, a.initialize.value, headers);
    hide OthersKept, OpenAndCall, Handshake, Post, Tagged;
  }

  lemma {:induction false} RouteIsRight(ttl: int, v: View, client: string, t: Tenant, headers: map<string, string>,
                                        a: Answers, c: Clock)
    ensures var r := Route(ttl, v, client, t, headers, a, c);
            RightlyRouted(ttl, v, client, t, headers, a, c, r.view,
                          Tagged(Some(client), t.id, r.msgs, r.granted), r.outcome)
  {
    if t.backend.protocolVersion == "2026-07-28" {
      RouteStateless(ttl, v, client, t, headers, a, c);
    } else if !Live(ttl, v, client, c.reap) {
      RouteAbsent(ttl, v, client, t, headers, a, c);
    } else if t.id in v[client].backendSID {
      RouteRecorded(ttl, v, client, t, headers, a, c);
    } else if a.initialize.None? {
      RouteFailsToOpen(ttl, v, client, t, headers, a, c);
    } else {
      RouteOpens(ttl, v, client, t, headers, a, c);
    }
  }

  ghost predicate RightTeardown(reg: Registry, client: string, sids: map<string, string>, e: Sent) {
    && e.tenant in sids && sids[e.tenant] != "" && e.tenant in reg.byTenant
    && Goes(e, Some(client), reg.byTenant[e.tenant], Teardown, Some(sids[e.tenant]), map[], None)
  }

  ghost predicate OnePerTenant(sent: seq<Sent>) {
    forall i, j :: 0 <= i < j < |sent| ==> sent[i].tenant != sent[j].tenant
  }

  // The teardowns, and only those, of the recorded sessions that have an id.
  ghost predicate RightlyTornDown(reg: Registry, client: string, sids: map<string, string>, sent: seq<Sent>) {
    && (forall e :: e in sent ==> RightTeardown(reg, client, sids, e))
    && OnePerTenant(sent)
    && (forall id :: id in sids && sids[id] != "" && id in reg.byTenant ==> exists e :: e in sent && e.tenant == id)
  }

  lemma {:induction false} TeardownEntries(reg: Registry, client: string, sids: map<string, string>,
                                           order: seq<string>)
    requires forall id :: id in reg.byTenant ==> reg.byTenant[id].id == id
    requires forall id :: id in order ==> id in reg.byTenant
    ensures forall e :: e in Teardowns(reg, client, sids, order) ==>
              e.tenant in order && RightTeardown(reg, client, sids, e)
  {
    if order != [] {
      var n := |order| - 1;
      TeardownEntries(reg, client, sids, order[..n]);
      assert order == order[..n] + [order[n]];
    }
  }

  lemma {:induction false} TeardownsDiffer(reg: Registry, client: string, sids: map<string, string>,
                                           order: seq<string>)
    requires forall id :: id in reg.byTenant ==> reg.byTenant[id].id == id
    requires forall i, j :: 0 <= i < j < |order| ==> order[i] != order[j]
    requires forall id :: id in order ==> id in reg.byTenant
    ensures OnePerTenant(Teardowns(reg, client, sids, order))
  {
    if order != [] {
      var n := |order| - 1;
      var before, sent := Teardowns(reg, client, sids, order[..n]), Teardowns(reg, client, sids, order);
      TeardownsDiffer(reg, client, sids, order[..n]);
      TeardownEntries(reg, client, sids, order[..n]);
      assert order[n] !in order[..n];
      assert forall i :: 0 <= i < |before| ==> before[i] in before && before[i].tenant in order[..n];
      assert sent == before || (|sent| == |before| + 1 && sent[..|before|] == before
          && sent[|before|].tenant == order[n]);
      forall i, j | 0 <= i < j < |sent| ensures sent[i].tenant != sent[j].tenant {
        assert sent[i] == before[i];
        if j < |before| {
          assert sent[j] == before[j] && before[i].tenant != before[j].tenant;
        } else {
          var k :| 0 <= k < n && order[..n][k] == before[i].tenant;
          assert order[k] != order[n];
        }
      }
    }
  }

  lemma {:induction false} TeardownsComplete(reg: Registry, client: string, sids: map<string, string>,
                                             order: seq<string>, id: string)
    requires forall i :: i in order ==> i in reg.byTenant
    requires id in order && id in sids && sids[id] != ""
    ensures exists e :: e in Teardowns(reg, client, sids, order) && e.tenant == id
  {
    var n := |order| - 1;
    var before, sent := Teardowns(reg, client, sids, order[..n]), Teardowns(reg, client, sids, order);
    assert order == order[..n] + [order[n]];
    if id == order[n] {
      assert sent[|before|].tenant == id;
    } else {
      TeardownsComplete(reg, client, sids, order[..n], id);
      var e :| e in before && e.tenant == id;
      assert e in sent;
    }
  }

  lemma {:induction false} TeardownsAreRight(reg: Registry, client: string, sids: map<string, string>,
                                             order: seq<string>)
    requires forall id :: id in reg.byTenant ==> reg.byTenant[id].id == id
    requires IsOrder(reg, order)
    ensures RightlyTornDown(reg, client, sids, Teardowns(reg, client, sids, order))
  {
    TeardownEntries(reg, client, sids, order);
    TeardownsDiffer(reg, client, sids, order);
    forall id | id in sids && sids[id] != "" && id in reg.byTenant
      ensures exists e :: e in Teardowns(reg, client, sids, order) && e.tenant == id
    {
      TeardownsComplete(reg, client, sids, order, id);
    }
  }

  // Every registered tenant once, in some order.
  ghost predicate IsOrder(reg: Registry, order: seq<string>) {
    && (forall i, j :: 0 <= i < j < |order| ==> order[i] != order[j])
    && forall id :: id in order <==> id in reg.byTenant
  }

  class Handler {
    const reg: Registry
    const store: Store
    var sent: seq<Sent>

    constructor (reg: Registry, store: Store)
      ensures this.reg == reg && this.store == store && sent == []
    {
      this.reg, this.store, sent := reg, store, [];
    }

    ghost predicate Valid()
      reads this, store, store.m.Values
    {
      store.Valid() && forall id :: id in reg.byTenant ==> reg.byTenant[id].id == id
    }

    // No session is minted when there is nothing to key a backend session on.
    method HandleInitialize(newID: string, t0: int, t1: int) returns (sid: Option<string>)
      requires Valid() && newID !in store.m
      modifies this, store
      ensures Valid() && sent == old(sent)
      ensures reg.EveryStateless() ==> sid == None && store.Contents() == old(store.Contents())
      ensures !reg.EveryStateless() ==>
                sid == Some(newID) && store.Contents() == Minted(old(store.Contents()), store.ttl, newID, t0, t1)
                && newID in store.m && store.m[newID].backendSID == map[] && store.m[newID].lastSeen == t1
    {
      var all := reg.AllStateless();
      if all {
        return None;
      }
      var sess := store.Mint(newID, t0, t1);
      return Some(sess.id);
    }

    method Send(client: string, tenant: string, msgs: seq<Msg>, granted: Option<string>)
      requires Valid()
      modifies this
      ensures Valid() && store.Contents() == old(store.Contents())
      ensures sent == old(sent) + Tagged(Some(client), tenant, msgs, granted)
    {
      sent := sent + Tagged(Some(client), tenant, msgs, granted);
    }

    // The tenant's backend session within a client session: the recorded one, or a new
    // one that is recorded if the client session still is there.
    method BackendSession(proxySID: string, sess: Session, tenant: Tenant, a: Answers, record: int)
      returns (sid: Option<string>, msgs: seq<Msg>, granted: Option<string>)
      requires Valid() && proxySID in store.m && store.m[proxySID] == sess
      modifies store, store.m.Values
      ensures Valid()
      ensures var v, cred := old(store.Contents()), tenant.EffectiveCredential();
              if tenant.id in v[proxySID].backendSID then
                store.Contents() == v && (sid, msgs, granted) == (Some(v[proxySID].backendSID[tenant.id]), [], None)
              else
                && (sid, msgs, granted) == (a.initialize, Handshake(tenant.backend, cred, a.initialize), a.initialize)
                && store.Contents() == if sid.None? then v else Recorded(v, proxySID, tenant.id, sid.value, record)
    {
      var known := sess.BackendSID(tenant.id);
      if known.Some? {
        return known, [], None;
      }
      msgs := Handshake(tenant.backend, tenant.EffectiveCredential(), a.initialize);
      if a.initialize.Some? {
        store.SetBackendSID(proxySID, tenant.id, a.initialize.value, record);
      }
      return a.initialize, msgs, a.initialize;
    }

    method RouteToBackend(proxySID: string, tenant: Tenant, headers: map<string, string>, a: Answers, c: Clock)
      returns (outcome: Outcome)
      requires Valid()
      modifies this, store, store.m.Values
      ensures Valid()
      ensures var r := Route(store.ttl, old(store.Contents()), proxySID, tenant, headers, a, c);
              && store.Contents() == r.view
              && sent == old(sent) + Tagged(Some(proxySID), tenant.id, r.msgs, r.granted)
              && outcome == r.outcome
      ensures |old(sent)| <= |sent| && sent[..|old(sent)|] == old(sent)
      ensures RightlyRouted(store.ttl, old(store.Contents()), proxySID, tenant, headers, a, c,
                            store.Contents(), sent[|old(sent)|..], outcome)
    {
      hide RightlyRouted;
      RouteIsRight(store.ttl, store.Contents(), proxySID, tenant, headers, a, c);
      ghost var r := Route(store.ttl, store.Contents(), proxySID, tenant, headers, a, c);
      var cred := tenant.EffectiveCredential();
      if tenant.backend.Stateless() {
        var msgs := [Post(tenant.backend, ToolsCall, "", cred, headers)];
        Send(proxySID, tenant.id, msgs, None);
        return CallOutcome(a);
      }
      var sess := store.Get(proxySID, c.reap, c.get);
      if sess.None? {
        assert Tagged(Some(proxySID), tenant.id, [], None) == [];
        return NoSession;
      }
      var backendSID, msgs, granted := BackendSession(proxySID, sess.value, tenant, a, c.record);
      assert store.Contents() == r.view && granted == r.granted;
      if backendSID.None? {
        Send(proxySID, tenant.id, msgs, None);
        return OpenFailed;
      }
      msgs := msgs + [Post(tenant.backend, ToolsCall, backendSID.value, cred, headers)];
      assert msgs == r.msgs;
      Send(proxySID, tenant.id, msgs, granted);
      outcome := CallOutcome(a);
    }

    // Tears down the backend sessions of a known client session, tenant by tenant in
    // whatever order the registry's map yields them.
    method HandleDelete(proxySID: string) returns (ghost order: seq<string>)
      requires Valid()
      modifies this, store
      ensures Valid()
      ensures store.Contents() == if reg.EveryStateless() then old(store.Contents())
              else old(store.Contents()) - {proxySID}
      ensures |old(sent)| <= |sent| && sent[..|old(sent)|] == old(sent)
      ensures !reg.EveryStateless() && proxySID in old(store.m) ==>
                RightlyTornDown(reg, proxySID, old(store.m[proxySID].backendSID), sent[|old(sent)|..])
      ensures if reg.EveryStateless() || proxySID !in old(store.Contents()) then sent == old(sent)
              else IsOrder(reg, order)
                   && sent == old(sent) + Teardowns(reg, proxySID, old(store.Contents())[proxySID].backendSID, order)
    {
      order := [];
      var all := reg.AllStateless();
      if all {
        return;
      }
      var sess := store.Delete(proxySID);
      if sess.Some? {
        order := TearDownAll(proxySID, sess.value);
      }
    }

    method TearDownAll(proxySID: string, sess: Session) returns (ghost order: seq<string>)
      requires forall id :: id in reg.byTenant ==> reg.byTenant[id].id == id
      modifies this
      ensures IsOrder(reg, order) && sent == old(sent) + Teardowns(reg, proxySID, sess.backendSID, order)
      ensures RightlyTornDown(reg, proxySID, sess.backendSID, sent[|old(sent)|..])
    {
      var tenants := reg.Tenants();
      order := OrderOf(reg, tenants);
      TearDown(proxySID, sess, tenants, order);
      TeardownsAreRight(reg, proxySID, sess.backendSID, order);
      assert sent[|old(sent)|..] == Teardowns(reg, proxySID, sess.backendSID, order);
    }

    method TearDown(proxySID: string, sess: Session, tenants: seq<Tenant>, ghost order: seq<string>)
      requires |order| == |tenants|
      requires forall i :: 0 <= i < |tenants| ==>
                 order[i] == tenants[i].id && order[i] in reg.byTenant && reg.byTenant[order[i]] == tenants[i]
      modifies this
      ensures sent == old(sent) + Teardowns(reg, proxySID, sess.backendSID, order)
    {
      for i := 0 to |tenants|
        invariant sent == old(sent) + Teardowns(reg, proxySID, sess.backendSID, order[..i])
      {
        var t := tenants[i];
        assert order[..i + 1][..i] == order[..i];
        var bsid := sess.BackendSID(t.id);
        if bsid.Some? && bsid.value != "" {
          sent := sent + [Sent(Some(proxySID), t.id, TeardownMsg(t, bsid.value), None)];
        }
      }
      assert order[..|tenants|] == order;
    }
  }

  lemma {:induction false} OrderOf(reg: Registry, tenants: seq<Tenant>) returns (order: seq<string>)
    requires DistinctBy(tenants, TenantId)
    requires forall t :: t in tenants <==> reg.Registered(t)
    requires forall id :: id in reg.byTenant ==> reg.byTenant[id].id == id
    ensures IsOrder(reg, order) && |order| == |tenants|
    ensures forall i :: 0 <= i < |tenants| ==> order[i] == tenants[i].id && reg.byTenant[order[i]] == tenants[i]
  {
    order := seq(|tenants|, i requires 0 <= i < |tenants| => tenants[i].id);
    forall i | 0 <= i < |order| ensures order[i] in reg.byTenant && reg.byTenant[order[i]] == tenants[i] {
      assert tenants[i] in tenants;
    }
    forall i, j | 0 <= i < j < |order| ensures order[i] != order[j] {
      assert TenantId(tenants[i]) != TenantId(tenants[j]);
    }
    forall id | id in reg.byTenant ensures id in order {
      assert reg.byTenant[id] in tenants;
      var i :| 0 <= i < |tenants| && tenants[i] == reg.byTenant[id];
      assert order[i] == id;
    }
  }
}
