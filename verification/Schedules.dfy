// Handling requests one at a time is one way of interleaving them: every run of
// Lifecycle is a run of Interleaving with the same requests sent.
module Schedules {
  import opened Wrappers
  import opened TenantRegistry
  import opened Sessions
  import opened Catalogs
  import opened Wire
  import opened Routing
  import L = Lifecycle
  import I = Interleaving

  ghost predicate Represents(m: I.Machine, s: L.System) {
    && m.live == s.view.Keys && m.objs.Keys == s.minted && m.log == s.log
    && s.view.Keys <= s.minted
    && forall p :: p in s.view ==> m.objs[p] == s.view[p].backendSID
  }

  ghost predicate Reaches(reg: Registry, m: I.Machine) {
    exists actions :: I.Run(reg, actions) == m
  }

  lemma {:induction false} ReachesNext(reg: Registry, m: I.Machine, a: I.Action)
    requires Reaches(reg, m)
    ensures Reaches(reg, I.Next(reg, m, a))
  {
    var actions :| I.Run(reg, actions) == m;
    I.RunAppend(reg, actions, a);
  }

  lemma {:induction false} ReachesIdleOut(reg: Registry, m: I.Machine, live: set<string>)
    requires Reaches(reg, m) && live <= m.live
    ensures Reaches(reg, m.(live := live))
    decreases |m.live - live|
  {
    if live == m.live {
      assert m.(live := live) == m;
    } else {
      var p :| p in m.live && p !in live;
      ReachesNext(reg, m, I.IdleOut(p));
      var m' := I.Next(reg, m, I.IdleOut(p));
      assert m'.live - live == (m.live - live) - {p};
      ReachesIdleOut(reg, m', live);
      assert m'.(live := live) == m.(live := live);
    }
  }

  lemma {:induction false} Above(ks: set<nat>) returns (n: nat)
    ensures forall k :: k in ks ==> k < n
  {
    n := 0;
    if ks != {} {
      var k :| k in ks;
      var a := Above(ks - {k});
      n := if a > k then a else k + 1;
      assert forall j :: j in ks ==> j == k || j in ks - {k};
    }
  }

  // ---- initialize ----

  lemma {:induction false} InitializeSchedule(reg: Registry, ttl: int, m: I.Machine, s: L.System, newID: string,
                                              t0: int, t1: int) returns (m': I.Machine)
    requires Reaches(reg, m) && Represents(m, s) && newID !in s.minted
    ensures Reaches(reg, m') && Represents(m', L.Apply(reg, ttl, s, L.OnInitialize(newID, t0, t1)))
  {
    if reg.EveryStateless() {
      return m;
    }
    var reaped := Reap(s.view, ttl, t0);
    ReachesIdleOut(reg, m, reaped.Keys);
    m' := m.(live := reaped.Keys);
    ReachesNext(reg, m', I.Mint(newID));
    m' := I.Next(reg, m', I.Mint(newID));
  }

  // ---- tools/call ----

  lemma {:induction false} SpawnSchedule(reg: Registry, m: I.Machine, th: I.Thread) returns (tid: nat, m': I.Machine)
    requires Reaches(reg, m) && I.Initial(reg, th)
    ensures Reaches(reg, m') && m' == m.(threads := m.threads[tid := th])
  {
    tid := Above(m.threads.Keys);
    ReachesNext(reg, m, I.Spawn(tid, th));
    m' := I.Next(reg, m, I.Spawn(tid, th));
  }

  // One step of a routed call.
  lemma {:induction false} CallSchedule(reg: Registry, m: I.Machine, tid: nat, th: I.Thread, reply: Option<string>)
    returns (m': I.Machine, th': I.Thread)
    requires Reaches(reg, m) && tid in m.threads && m.threads[tid] == th && th.CallThread?
    ensures Reaches(reg, m') && tid in m'.threads && m'.threads[tid] == th'
    ensures var (n, pc) := I.CallStep(m, th, reply);
            th' == th.(callPc := pc) && m'.objs == n.objs && m'.live == n.live && m'.log == n.log
  {
    ReachesNext(reg, m, I.Step(tid, reply, ""));
    m' := I.Next(reg, m, I.Step(tid, reply, ""));
    th' := m'.threads[tid];
  }

  function Entry(client: Option<string>, t: Tenant, kind: Kind, sid: string, extra: map<string, string>,
                 granted: Option<string>): Sent {
    Sent(client, t.id, Post(t.backend, kind, sid, t.EffectiveCredential(), extra), granted)
  }

  // From initialize on: handshake, SetBackendSID, tools/call.
  lemma {:induction false} OpenSchedule(reg: Registry, m: I.Machine, tid: nat, th: I.Thread, sid: string)
    returns (m': I.Machine)
    requires Reaches(reg, m) && tid in m.threads && m.threads[tid] == th && th.CallThread? && th.callPc.AtInitialize?
    requires th.client in m.live && th.client in m.objs
    ensures Reaches(reg, m') && m'.live == m.live
    ensures m'.objs == m.objs[th.client := m.objs[th.client][th.tenant.id := sid]]
    ensures var t, client := th.tenant, Some(th.client);
            m'.log == m.log + [Entry(client, t, Kind.Initialize, "", map[], Some(sid))]
                      + (if sid != "" then [Entry(client, t, Initialized, sid, map[], None)] else [])
                      + [Entry(client, t, ToolsCall, sid, th.headers, None)]
  {
    var th' := th;
    m', th' := CallSchedule(reg, m, tid, th', Some(sid));
    if sid != "" {
      m', th' := CallSchedule(reg, m', tid, th', None);
    }
    m', th' := CallSchedule(reg, m', tid, th', None);
    m', th' := CallSchedule(reg, m', tid, th', None);
  }

  // The two-step lookup of a stateful call whose client session is (or is not) there.
  lemma {:induction false} LookupSchedule(reg: Registry, m: I.Machine, tid: nat, th: I.Thread)
    returns (m': I.Machine, th': I.Thread)
    requires Reaches(reg, m) && tid in m.threads && m.threads[tid] == th && th.CallThread? && th.callPc.AtGet?
    requires !th.tenant.backend.Stateless() && m.live <= m.objs.Keys
    ensures Reaches(reg, m') && tid in m'.threads && m'.threads[tid] == th'
    ensures m'.objs == m.objs && m'.live == m.live && m'.log == m.log
    ensures th' == th.(callPc := if th.client !in m.live then I.Returned
                                 else if th.tenant.id in m.objs[th.client]
                                     then I.AtCall(m.objs[th.client][th.tenant.id])
                                 else I.AtInitialize)
  {
    m', th' := CallSchedule(reg, m, tid, th, None);
    if th.client in m.live {
      m', th' := CallSchedule(reg, m', tid, th', None);
    }
  }

  // What Route sends, entry by entry.
  lemma {:induction false} RouteEntries(ttl: int, v: View, client: string, t: Tenant, headers: map<string, string>,
                                        a: Answers, c: Clock)
    ensures var r := Route(ttl, v, client, t, headers, a, c);
            var seen := Touched(v, ttl, client, c.reap, c.get);
            Tagged(Some(client), t.id, r.msgs, r.granted) ==
              if t.backend.Stateless() then [Entry(Some(client), t, ToolsCall, "", headers, None)]
              else if client !in seen then []
              else if t.id in seen[client].backendSID then
                [Entry(Some(client), t, ToolsCall, seen[client].backendSID[t.id], headers, None)]
              else if a.initialize.None? then [Entry(Some(client), t, Kind.Initialize, "", map[], None)]
              else
                [Entry(Some(client), t, Kind.Initialize, "", map[], a.initialize)]
                + (if a.initialize.value != ""
                   then [Entry(Some(client), t, Initialized, a.initialize.value, map[], None)] else [])
                + [Entry(Some(client), t, ToolsCall, a.initialize.value, headers, None)]
  {
  }

  // From the lookup of a live client session to the end of the call.
  lemma {:induction false} LiveCallSchedule(reg: Registry, m: I.Machine, tid: nat, th: I.Thread, reply: Option<string>)
    returns (m': I.Machine)
    requires Reaches(reg, m) && tid in m.threads && m.threads[tid] == th && th.CallThread? && th.callPc.AtGet?
    requires !th.tenant.backend.Stateless() && m.live <= m.objs.Keys && th.client in m.live
    ensures Reaches(reg, m') && m'.live == m.live
    ensures var t, client, sids := th.tenant, Some(th.client), m.objs[th.client];
            if t.id in sids then
              m'.objs == m.objs && m'.log == m.log + [Entry(client, t, ToolsCall, sids[t.id], th.headers, None)]
            else if reply.None? then
              m'.objs == m.objs && m'.log == m.log + [Entry(client, t, Kind.Initialize, "", map[], None)]
            else
              && m'.objs == m.objs[th.client := sids[t.id := reply.value]]
              && m'.log == m.log + ([Entry(client, t, Kind.Initialize, "", map[], reply)]
                           + (if reply.value != "" then [Entry(client, t, Initialized, reply.value, map[], None)]
                               else [])
                           + [Entry(client, t, ToolsCall, reply.value, th.headers, None)])
  {
    var th' := th;
    m', th' := LookupSchedule(reg, m, tid, th);
    if th'.callPc.AtCall? || reply.None? {
      m', th' := CallSchedule(reg, m', tid, th', None);
    } else {
      m' := OpenSchedule(reg, m', tid, th', reply.value);
    }
  }

  lemma {:induction false} StatelessCallSchedule(reg: Registry, ttl: int, m: I.Machine, s: L.System, e: L.Event)
    returns (m': I.Machine)
    requires reg.WellFormed() && Reaches(reg, m) && Represents(m, s) && e.OnCall? && L.Enabled(reg, s, e)
    requires reg.byTenant[e.tenant].backend.Stateless()
    ensures Reaches(reg, m') && Represents(m', L.Apply(reg, ttl, s, e))
  {
    var t := reg.byTenant[e.tenant];
    var th := I.CallThread(e.client, t, e.headers, I.AtGet);
    var tid;
    tid, m' := SpawnSchedule(reg, m, th);
    m', th := CallSchedule(reg, m', tid, th, None);
    RouteEntries(ttl, s.view, e.client, t, e.headers, e.answers, e.clock);
  }

  // A stateful call has come in, and the store reaps.
  lemma {:induction false} ArriveSchedule(reg: Registry, m: I.Machine, s: L.System, th: I.Thread, seen: View)
    returns (tid: nat, m': I.Machine)
    requires Reaches(reg, m) && Represents(m, s) && I.Initial(reg, th) && seen.Keys <= s.view.Keys
    requires forall p :: p in seen ==> seen[p].backendSID == s.view[p].backendSID
    ensures Reaches(reg, m') && Represents(m', s.(view := seen)) && m'.live <= m'.objs.Keys
    ensures tid in m'.threads && m'.threads[tid] == th
  {
    tid, m' := SpawnSchedule(reg, m, th);
    ReachesIdleOut(reg, m', seen.Keys);
    m' := m'.(live := seen.Keys);
  }

  lemma {:induction false} AbsentCallSchedule(reg: Registry, ttl: int, m: I.Machine, s: L.System, e: L.Event)
    returns (m': I.Machine)
    requires reg.WellFormed() && Reaches(reg, m) && Represents(m, s) && e.OnCall? && L.Enabled(reg, s, e)
    requires !reg.byTenant[e.tenant].backend.Stateless()
    requires e.client !in Touched(s.view, ttl, e.client, e.clock.reap, e.clock.get)
    ensures Reaches(reg, m') && Represents(m', L.Apply(reg, ttl, s, e))
  {
    var t := reg.byTenant[e.tenant];
    var th := I.CallThread(e.client, t, e.headers, I.AtGet);
    var seen := Touched(s.view, ttl, e.client, e.clock.reap, e.clock.get);
    var tid;
    tid, m' := ArriveSchedule(reg, m, s, th, seen);
    m', th := LookupSchedule(reg, m', tid, th);
    RouteEntries(ttl, s.view, e.client, t, e.headers, e.answers, e.clock);
  }

  lemma {:induction false} PresentCallSchedule(reg: Registry, ttl: int, m: I.Machine, s: L.System, e: L.Event)
    returns (m': I.Machine)
    requires reg.WellFormed() && Reaches(reg, m) && Represents(m, s) && e.OnCall? && L.Enabled(reg, s, e)
    requires !reg.byTenant[e.tenant].backend.Stateless()
    requires e.client in Touched(s.view, ttl, e.client, e.clock.reap, e.clock.get)
    ensures Reaches(reg, m') && Represents(m', L.Apply(reg, ttl, s, e))
  {
    var t := reg.byTenant[e.tenant];
    var th := I.CallThread(e.client, t, e.headers, I.AtGet);
    var seen := Touched(s.view, ttl, e.client, e.clock.reap, e.clock.get);
    var tid;
    tid, m' := ArriveSchedule(reg, m, s, th, seen);
    m' := LiveCallSchedule(reg, m', tid, th, e.answers.initialize);
    RouteEntries(ttl, s.view, e.client, t, e.headers, e.answers, e.clock);
    RouteViews(ttl, s.view, e.client, t, e.headers, e.answers, e.clock);
  }

  // What Route leaves in the store for a stateful call whose client session is there.
  lemma {:induction false} RouteViews(ttl: int, v: View, client: string, t: Tenant, headers: map<string, string>,
                                      a: Answers, c: Clock)
    requires !t.backend.Stateless() && client in Touched(v, ttl, client, c.reap, c.get)
    ensures var seen := Touched(v, ttl, client, c.reap, c.get);
            var after := Route(ttl, v, client, t, headers, a, c).view;
            && after.Keys == seen.Keys
            && (forall p :: p in seen && p != client ==> after[p] == seen[p])
            && after[client].backendSID == if t.id in seen[client].backendSID || a.initialize.None?
                then seen[client].backendSID
                                           else seen[client].backendSID[t.id := a.initialize.value]
  {
  }

  lemma {:induction false} CallEventSchedule(reg: Registry, ttl: int, m: I.Machine, s: L.System, e: L.Event)
    returns (m': I.Machine)
    requires reg.WellFormed() && Reaches(reg, m) && Represents(m, s) && e.OnCall? && L.Enabled(reg, s, e)
    ensures Reaches(reg, m') && Represents(m', L.Apply(reg, ttl, s, e))
  {
    if reg.byTenant[e.tenant].backend.Stateless() {
      m' := StatelessCallSchedule(reg, ttl, m, s, e);
    } else if e.client !in Touched(s.view, ttl, e.client, e.clock.reap, e.clock.get) {
      m' := AbsentCallSchedule(reg, ttl, m, s, e);
    } else {
      m' := PresentCallSchedule(reg, ttl, m, s, e);
    }
  }

  // ---- DELETE ----

  lemma {:induction false} OneTeardownSchedule(reg: Registry, m: I.Machine, tid: nat, client: string,
                                               todo: set<string>, id: string) returns (m': I.Machine)
    requires Reaches(reg, m) && tid in m.threads && id in todo && id in reg.byTenant
    requires m.threads[tid] == I.DeleteThread(client, I.TearingDown(todo))
    ensures Reaches(reg, m') && m'.objs == m.objs && m'.live == m.live
    ensures tid in m'.threads && m'.threads[tid] == I.DeleteThread(client, I.TearingDown(todo - {id}))
    ensures var sids := I.ObjectOf(m, client);
            m'.log == m.log + if id in sids && sids[id] != ""
                              then [Sent(Some(client), id, TeardownMsg(reg.byTenant[id], sids[id]), None)] else []
  {
    ReachesNext(reg, m, I.Step(tid, None, id));
    m' := I.Next(reg, m, I.Step(tid, None, id));
  }

  lemma {:induction false} TeardownSchedule(reg: Registry, m: I.Machine, tid: nat, client: string, order: seq<string>)
    returns (m': I.Machine)
    requires Reaches(reg, m) && tid in m.threads
    requires m.threads[tid] == I.DeleteThread(client, I.TearingDown(reg.byTenant.Keys))
    requires forall i, j :: 0 <= i < j < |order| ==> order[i] != order[j]
    requires forall id :: id in order ==> id in reg.byTenant
    ensures Reaches(reg, m') && m'.objs == m.objs && m'.live == m.live
    ensures tid in m'.threads
            && m'.threads[tid] == I.DeleteThread(client, I.TearingDown(reg.byTenant.Keys - set id | id in order))
    ensures m'.log == m.log + Teardowns(reg, client, I.ObjectOf(m, client), order)
  {
    m' := m;
    if order == [] {
      assert reg.byTenant.Keys - (set id | id in order) == reg.byTenant.Keys;
    } else {
      var n := |order| - 1;
      var m1 := TeardownSchedule(reg, m, tid, client, order[..n]);
      var done := set id | id in order[..n];
      m' := OneTeardownSchedule(reg, m1, tid, client, reg.byTenant.Keys - done, order[n]);
      assert (set id | id in order) == done + {order[n]};
      assert reg.byTenant.Keys - done - {order[n]} == reg.byTenant.Keys - (done + {order[n]});
    }
  }

  lemma {:induction false} DeleteEventSchedule(reg: Registry, ttl: int, m: I.Machine, s: L.System, client: string,
                                               order: seq<string>) returns (m': I.Machine)
    requires Reaches(reg, m) && Represents(m, s) && IsOrder(reg, order)
    ensures Reaches(reg, m') && Represents(m', L.Apply(reg, ttl, s, L.OnDelete(client, order)))
  {
    if reg.EveryStateless() || client !in s.view {
      return m;
    }
    var th := I.DeleteThread(client, I.AtDelete);
    var tid;
    tid, m' := SpawnSchedule(reg, m, th);
    ReachesNext(reg, m', I.Step(tid, None, ""));
    m' := I.Next(reg, m', I.Step(tid, None, ""));
    m' := TeardownSchedule(reg, m', tid, client, order);
  }

  // ---- catalog fetches ----

  lemma {:induction false} FetchSchedule(reg: Registry, m: I.Machine, tid: nat, th: I.Thread, reply: Option<string>)
    returns (m': I.Machine, th': I.Thread)
    requires Reaches(reg, m) && tid in m.threads && m.threads[tid] == th && th.FetchThread?
    ensures Reaches(reg, m') && tid in m'.threads && m'.threads[tid] == th'
    ensures var (n, pc) := I.FetchStep(m, th, reply);
            th' == th.(fetchPc := pc) && m'.objs == n.objs && m'.live == n.live && m'.log == n.log
  {
    ReachesNext(reg, m, I.Step(tid, reply, ""));
    m' := I.Next(reg, m, I.Step(tid, reply, ""));
    th' := m'.threads[tid];
  }

  // What one fetch sends, entry by entry.
  function FetchEntries(t: Tenant, reply: Option<string>): seq<Sent> {
    if t.backend.Stateless() then [Entry(None, t, ToolsList, "", t.headers, None)]
    else if reply.None? then [Entry(None, t, Kind.Initialize, "", map[], None)]
    else
      [Entry(None, t, Kind.Initialize, "", map[], reply)]
      + (if reply.value != "" then [Entry(None, t, Initialized, reply.value, map[], None)] else [])
      + [Entry(None, t, ToolsList, reply.value, t.headers, None)]
  }

  lemma {:induction false} FetchSends<T>(t: Tenant, r: Replies<T>)
    ensures Tagged(None, t.id, FetchMsgs(t.backend, t.EffectiveCredential(), t.headers, r), r.initialize)
            == FetchEntries(t, r.initialize)
  {
  }

  lemma {:induction false} FetchThreadSchedule(reg: Registry, m: I.Machine, tid: nat, th: I.Thread,
                                               reply: Option<string>) returns (m': I.Machine)
    requires Reaches(reg, m) && tid in m.threads && m.threads[tid] == th && th.FetchThread? && th.fetchPc.AtOpen?
    ensures Reaches(reg, m') && m'.objs == m.objs && m'.live == m.live
    ensures m'.log == m.log + FetchEntries(th.view, reply)
  {
    var th' := th;
    m', th' := FetchSchedule(reg, m, tid, th', reply);
    if th'.fetchPc.AtFetchNotify? {
      m', th' := FetchSchedule(reg, m', tid, th', None);
    }
    if th'.fetchPc.AtList? {
      m', th' := FetchSchedule(reg, m', tid, th', None);
    }
  }

  lemma {:induction false} FetchEventSchedule(reg: Registry, ttl: int, m: I.Machine, s: L.System, tenant: string,
                                              r: Replies<()>) returns (m': I.Machine)
    requires reg.WellFormed() && Reaches(reg, m) && Represents(m, s) && tenant in reg.byTenant
    ensures Reaches(reg, m') && Represents(m', L.Apply(reg, ttl, s, L.OnFetch(tenant, r)))
  {
    var t := reg.byTenant[tenant];
    var th := I.FetchThread(t, I.AtOpen);
    var tid;
    tid, m' := SpawnSchedule(reg, m, th);
    m' := FetchThreadSchedule(reg, m', tid, th, r.initialize);
    FetchSends(t, r);
  }

  // ---- whole runs ----

  lemma {:induction false} SequentialRunIsInterleaving(reg: Registry, ttl: int, events: seq<L.Event>)
    returns (m: I.Machine)
    requires reg.WellFormed()
    ensures Reaches(reg, m) && Represents(m, L.Run(reg, ttl, events))
  {
    if events == [] {
      assert I.Run(reg, []) == I.IDLE;
      return I.IDLE;
    }
    var e := events[|events| - 1];
    var before := L.Run(reg, ttl, events[..|events| - 1]);
    m := SequentialRunIsInterleaving(reg, ttl, events[..|events| - 1]);
    if L.Enabled(reg, before, e) {
      match e
      case OnInitialize(newID, t0, t1) => m := InitializeSchedule(reg, ttl, m, before, newID, t0, t1);
      case OnCall(_, _, _, _, _) => m := CallEventSchedule(reg, ttl, m, before, e);
      case OnDelete(client, order) => m := DeleteEventSchedule(reg, ttl, m, before, client, order);
      case OnFetch(tenant, r) => m := FetchEventSchedule(reg, ttl, m, before, tenant, r);
    }
  }
}
