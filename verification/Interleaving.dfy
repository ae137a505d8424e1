// The same requests as small programs that interleave: any number of calls,
// catalog fetches and DELETEs in flight, sessions idling out at any moment.
// Only what holds the store's lock, or is one read of a session object, is atomic.
module Interleaving {
  import opened Wrappers
  import opened TenantRegistry
  import opened Wire
  import opened Routing
  import opened Lifecycle

  // Where a routed call stands: before Sessions.Get, before reading the recorded
  // backend session, before initialize, before notifications/initialized, before
  // SetBackendSID, before tools/call, returned.
  datatype CallPc =
    | AtGet | AtLookup | AtInitialize | AtNotify(sid: string) | AtRecord(sid: string) | AtCall(sid: string) | Returned

  datatype FetchPc = AtOpen | AtFetchNotify(sid: string) | AtList(sid: string) | Fetched

  // DELETE before and after it has taken the session out of the store; `todo` are
  // the tenants whose teardown it has not considered yet.
  datatype DeletePc = AtDelete | TearingDown(todo: set<string>) | NothingToDelete

  datatype Thread =
    | CallThread(client: string, tenant: Tenant, headers: map<string, string>, callPc: CallPc)
    | FetchThread(view: Tenant, fetchPc: FetchPc)
    | DeleteThread(client: string, deletePc: DeletePc)

  // objs keeps a session object after it has left the store (`live`): calls in
  // flight still hold it.
  datatype Machine = Machine(
    objs: map<string, map<string, string>>, live: set<string>, threads: map<nat, Thread>, log: seq<Sent>)

  const IDLE := Machine(map[], {}, map[], [])

  datatype Action =
    | Mint(id: string)
    | IdleOut(id: string)
    | Spawn(tid: nat, thread: Thread)
    | Step(tid: nat, reply: Option<string>, pick: string)

  ghost predicate Initial(reg: Registry, th: Thread) {
    match th
    case CallThread(_, t, _, pc) => pc.AtGet? && reg.Registered(t)
    case FetchThread(t, pc) => pc.AtOpen? && reg.Registered(t)
    case DeleteThread(_, pc) => pc.AtDelete?
  }

  function Emit(m: Machine, client: Option<string>, t: Tenant, kind: Kind, sid: string, extra: map<string, string>,
                granted: Option<string>): Machine {
    m.(log := m.log + [Sent(client, t.id, Post(t.backend, kind, sid, t.EffectiveCredential(), extra), granted)])
  }

  function AfterOpen(sid: string): CallPc {
    if sid != "" then AtNotify(sid) else AtRecord(sid)
  }

  // The session object of a client session that has ever been minted.
  function ObjectOf(m: Machine, client: string): map<string, string> {
    if client in m.objs then m.objs[client] else map[]
  }

  // One step of a routed call; `reply` answers its initialize.
  function CallStep(m: Machine, th: Thread, reply: Option<string>): (Machine, CallPc)
    requires th.CallThread?
  {
    var t, client := th.tenant, Some(th.client);
    match th.callPc
    case AtGet =>
      if t.backend.Stateless() then (Emit(m, client, t, ToolsCall, "", th.headers, None), Returned)
      else (m, if th.client in m.live then AtLookup else Returned)
    case AtLookup =>
      (m, if t.id in ObjectOf(m, th.client) then AtCall(ObjectOf(m, th.client)[t.id]) else AtInitialize)
    case AtInitialize =>
      (Emit(m, client, t, Kind.Initialize, "", map[], reply), if reply.None? then Returned else AfterOpen(reply.value))
    case AtNotify(sid) => (Emit(m, client, t, Initialized, sid, map[], None), AtRecord(sid))
    case AtRecord(sid) =>
      (if th.client in m.live then m.(objs := m.objs[th.client := ObjectOf(m, th.client)[t.id := sid]])
          else m, AtCall(sid))
    case AtCall(sid) => (Emit(m, client, t, ToolsCall, sid, th.headers, None), Returned)
    case Returned => (m, Returned)
  }

  function FetchStep(m: Machine, th: Thread, reply: Option<string>): (Machine, FetchPc)
    requires th.FetchThread?
  {
    var t := th.view;
    match th.fetchPc
    case AtOpen =>
      if t.backend.Stateless() then (Emit(m, None, t, ToolsList, "", t.headers, None), Fetched)
      else (Emit(m, None, t, Kind.Initialize, "", map[], reply),
            if reply.None? then Fetched else if reply.value != "" then AtFetchNotify(reply.value)
                else AtList(reply.value))
    case AtFetchNotify(sid) => (Emit(m, None, t, Initialized, sid, map[], None), AtList(sid))
    case AtList(sid) => (Emit(m, None, t, ToolsList, sid, t.headers, None), Fetched)
    case Fetched => (m, Fetched)
  }

  ghost function DeleteStep(reg: Registry, m: Machine, th: Thread, pick: string): (Machine, DeletePc)
    requires th.DeleteThread?
  {
    match th.deletePc
    case AtDelete =>
      if reg.EveryStateless() || th.client !in m.live then (m, NothingToDelete)
      else (m.(live := m.live - {th.client}), TearingDown(reg.byTenant.Keys))
    case TearingDown(todo) =>
      if pick !in todo || pick !in reg.byTenant then (m, TearingDown(todo))
      else
        var sids := ObjectOf(m, th.client);
        (if pick in sids && sids[pick] != ""
         then m.(log := m.log + [Sent(Some(th.client), pick, TeardownMsg(reg.byTenant[pick], sids[pick]), None)])
         else m,
         TearingDown(todo - {pick}))
    case NothingToDelete => (m, NothingToDelete)
  }

  ghost function Next(reg: Registry, m: Machine, a: Action): Machine {
    match a
    case Mint(id) =>
      if id in m.objs || reg.EveryStateless() then m
      else m.(objs := m.objs[id := map[]], live := m.live + {id})
    case IdleOut(id) => m.(live := m.live - {id})
    case Spawn(tid, th) =>
      if tid in m.threads || !Initial(reg, th) then m else m.(threads := m.threads[tid := th])
    case Step(tid, reply, pick) =>
      if tid !in m.threads then m
      else
        var th := m.threads[tid];
        match th
        case CallThread(_, _, _, _) =>
          var (m', pc) := CallStep(m, th, reply);
          m'.(threads := m.threads[tid := th.(callPc := pc)])
        case FetchThread(_, _) =>
          var (m', pc) := FetchStep(m, th, reply);
          m'.(threads := m.threads[tid := th.(fetchPc := pc)])
        case DeleteThread(_, _) =>
          var (m', pc) := DeleteStep(reg, m, th, pick);
          m'.(threads := m.threads[tid := th.(deletePc := pc)])
  }

  // A run from the idle proxy, in any order of steps.
  ghost function Run(reg: Registry, actions: seq<Action>): Machine {
    if actions == [] then IDLE
    else Next(reg, Run(reg, actions[..|actions| - 1]), actions[|actions| - 1])
  }

  // ---- The invariant ----

  // The handshake that gave `sid` to this client session and tenant, with the
  // tenant's own backend and credential.
  function OpenEntry(client: Option<string>, t: Tenant, sid: string): Sent {
    Sent(client, t.id, Post(t.backend, Kind.Initialize, "", t.EffectiveCredential(), map[]), Some(sid))
  }

  // Entry i goes to its tenant's backend with its tenant's credential. At a stateful
  // backend anything but an initialize carries the session id that an earlier handshake
  // gave the same client session and tenant, and no session header if it gave none.
  // Only an initialize is granted one.
  ghost predicate EntryOk(reg: Registry, log: seq<Sent>, i: nat)
    requires i < |log|
  {
    var e := log[i];
    && e.tenant in reg.byTenant
    && var t := reg.byTenant[e.tenant];
       && e.msg.backend == t.backend && e.msg.credential == t.EffectiveCredential()
       && StatelessSafe(e.msg) && e.msg.session != Some("") && (e.granted.Some? ==> e.msg.kind.Initialize?)
       && (e.msg.kind.Initialize? ==> e.msg.session == None)
       && (!t.backend.Stateless() && !e.msg.kind.Initialize? ==> OpenEntry(e.client, t, SessionIn(e.msg)) in log[..i])
       && ExtraOk(t, e.msg)
  }

  function SessionIn(m: Msg): string {
    if m.session.Some? then m.session.value else ""
  }

  // The tenant's headers go with its tools/list, a call's own with tools/call; the rest
  // has none.
  predicate ExtraOk(t: Tenant, m: Msg) {
    && (m.kind.ToolsList? ==> m.extra == t.headers)
    && (!m.kind.ToolsList? && !m.kind.ToolsCall? ==> m.extra == map[])
  }

  ghost predicate LogOk(reg: Registry, log: seq<Sent>) {
    forall i: nat :: i < |log| ==> EntryOk(reg, log, i)
  }

  ghost predicate ObjsOk(reg: Registry, m: Machine) {
    && m.live <= m.objs.Keys
    && (reg.EveryStateless() ==> m.objs == map[])
    && forall p, t :: p in m.objs && t in m.objs[p] ==>
         t in reg.byTenant && !reg.byTenant[t].backend.Stateless()
         && OpenEntry(Some(p), reg.byTenant[t], m.objs[p][t]) in m.log
  }

  ghost predicate ThreadOk(reg: Registry, m: Machine, th: Thread) {
    match th
    case CallThread(client, t, _, pc) =>
      && reg.Registered(t)
      && (pc.AtLookup? ==> client in m.objs)
      && (!pc.AtGet? && !pc.Returned? ==> !t.backend.Stateless())
      && (pc.AtNotify? || pc.AtRecord? || pc.AtCall? ==> OpenEntry(Some(client), t, pc.sid) in m.log)
    case FetchThread(t, pc) =>
      && reg.Registered(t)
      && (pc.AtFetchNotify? || pc.AtList? ==> !t.backend.Stateless() && OpenEntry(None, t, pc.sid) in m.log)
    case DeleteThread(client, pc) =>
      pc.TearingDown? ==> client in m.objs && client !in m.live && pc.todo <= reg.byTenant.Keys
  }

  ghost predicate ThreadsOk(reg: Registry, m: Machine) {
    forall tid :: tid in m.threads ==> ThreadOk(reg, m, m.threads[tid])
  }

  predicate TearsDown(th: Thread, p: string) {
    th.DeleteThread? && th.client == p && th.deletePc.TearingDown?
  }

  // Teardowns of p's session for t so far: one DELETE does them, each recorded
  // session once.
  ghost predicate TornOk(m: Machine, p: string, t: string) {
    var torn := Count(m.log, TornDown(p, t));
    && (forall i, j :: i in m.threads && j in m.threads && TearsDown(m.threads[i], p) && TearsDown(m.threads[j], p) ==>
        i == j)
    && (forall i :: i in m.threads && TearsDown(m.threads[i], p) ==>
          && p in m.objs && p !in m.live
          && torn == if t in m.objs[p] && m.objs[p][t] != "" && t !in m.threads[i].deletePc.todo then 1 else 0)
    && ((forall i :: i in m.threads ==> !TearsDown(m.threads[i], p)) ==> torn == 0)
  }

  // Whatever has been torn down is what was recorded when DELETE took the session.
  ghost predicate TornAsRecorded(m: Machine) {
    forall e :: e in m.log && e.msg.kind.Teardown? ==>
      && e.client.Some? && e.client.value in m.objs && e.client.value !in m.live
      && e.tenant in m.objs[e.client.value] && e.msg.session == Some(m.objs[e.client.value][e.tenant])
  }

  ghost predicate Safe(reg: Registry, m: Machine) {
    && LogOk(reg, m.log) && ObjsOk(reg, m) && ThreadsOk(reg, m) && TornAsRecorded(m)
    && forall p, t :: TornOk(m, p, t)
  }

  lemma {:induction false} LogAppend(reg: Registry, log: seq<Sent>, e: Sent)
    requires LogOk(reg, log) && EntryOk(reg, log + [e], |log|)
    ensures LogOk(reg, log + [e])
  {
    forall i: nat | i < |log| + 1 ensures EntryOk(reg, log + [e], i) {
      if i < |log| {
        assert EntryOk(reg, log, i) && (log + [e])[..i] == log[..i];
      }
    }
  }

  // Sessions only appear and leave the store, and the log only grows.
  ghost predicate Grows(m: Machine, m': Machine) {
    && m.objs.Keys <= m'.objs.Keys && m.log <= m'.log
    && forall p :: p in m.objs && p !in m.live ==> p !in m'.live
  }

  lemma {:induction false} ThreadsStable(reg: Registry, m: Machine, m': Machine, tid: nat)
    requires ThreadsOk(reg, m) && Grows(m, m')
    requires forall i :: i in m'.threads && i != tid ==> i in m.threads && m'.threads[i] == m.threads[i]
    requires tid in m'.threads ==> ThreadOk(reg, m', m'.threads[tid])
    ensures ThreadsOk(reg, m')
  {
    forall i | i in m'.threads && i != tid ensures ThreadOk(reg, m', m'.threads[i]) {
      assert ThreadOk(reg, m, m.threads[i]);
    }
  }

  lemma {:induction false} TornStable(m: Machine, m': Machine, p: string, t: string)
    requires TornOk(m, p, t) && Count(m'.log, TornDown(p, t)) == Count(m.log, TornDown(p, t))
    requires forall i :: i in m'.threads && TearsDown(m'.threads[i], p) ==>
            i in m.threads && m.threads[i] == m'.threads[i]
    requires forall i :: i in m.threads && TearsDown(m.threads[i], p) ==>
            i in m'.threads && m.threads[i] == m'.threads[i]
    requires p in m.objs && p !in m.live ==> p in m'.objs && p !in m'.live && m'.objs[p] == m.objs[p]
    ensures TornOk(m', p, t)
  {
  }

  // What a step that is not a teardown sends, if anything.
  ghost predicate Sends(reg: Registry, m: Machine, m': Machine) {
    || m'.log == m.log
    || (exists e :: m'.log == m.log + [e] && !e.msg.kind.Teardown? && EntryOk(reg, m.log + [e], |m.log|))
  }

  lemma {:induction false} SendsKeepsLog(reg: Registry, m: Machine, m': Machine)
    requires LogOk(reg, m.log) && Sends(reg, m, m')
    ensures LogOk(reg, m'.log) && m.log <= m'.log
  {
    if m'.log != m.log {
      var e :| m'.log == m.log + [e] && EntryOk(reg, m.log + [e], |m.log|);
      LogAppend(reg, m.log, e);
    }
  }

  lemma {:induction false} SendsKeepsCount(reg: Registry, m: Machine, m': Machine, p: string, t: string)
    requires Sends(reg, m, m')
    ensures Count(m'.log, TornDown(p, t)) == Count(m.log, TornDown(p, t))
  {
    if m'.log != m.log {
      var e :| m'.log == m.log + [e] && !e.msg.kind.Teardown?;
      CountAppend(m.log, [e], TornDown(p, t));
      CountHead([e], TornDown(p, t));
    }
  }

  lemma {:induction false} SendsKeepsRecord(reg: Registry, m: Machine, m': Machine)
    requires TornAsRecorded(m) && Sends(reg, m, m') && m'.live == m.live
    requires forall p :: p in m.objs && p !in m.live ==> p in m'.objs && m'.objs[p] == m.objs[p]
    ensures TornAsRecorded(m')
  {
  }

  // A thread that is not a DELETE tears nothing down.
  lemma {:induction false} SendingKeepsTorn(reg: Registry, m: Machine, m': Machine, tid: nat, p: string, t: string)
    requires TornOk(m, p, t) && Sends(reg, m, m')
    requires tid in m.threads && !m.threads[tid].DeleteThread? && tid in m'.threads && !m'.threads[tid].DeleteThread?
    requires m'.threads == m.threads[tid := m'.threads[tid]]
    requires p in m.objs && p !in m.live ==> p in m'.objs && p !in m'.live && m'.objs[p] == m.objs[p]
    ensures TornOk(m', p, t)
  {
    SendsKeepsCount(reg, m, m', p, t);
    TornStable(m, m', p, t);
  }

  lemma {:induction false} EmitSends(reg: Registry, m: Machine, client: Option<string>, t: Tenant, kind: Kind,
                                     sid: string, extra: map<string, string>, granted: Option<string>)
    requires reg.Registered(t) && !kind.Teardown?
    requires (t.backend.Stateless() ==> !kind.Initialize?) && (granted.Some? ==> kind.Initialize?)
    requires kind.Initialize? ==> sid == ""
    requires !t.backend.Stateless() && !kind.Initialize? ==> OpenEntry(client, t, sid) in m.log
    requires (kind.ToolsList? ==> extra == t.headers) && (!kind.ToolsList? && !kind.ToolsCall? ==> extra == map[])
    ensures Sends(reg, m, Emit(m, client, t, kind, sid, extra, granted))
  {
    var e := Sent(client, t.id, Post(t.backend, kind, sid, t.EffectiveCredential(), extra), granted);
    assert (m.log + [e])[..|m.log|] == m.log;
    assert EntryOk(reg, m.log + [e], |m.log|);
  }

  lemma {:induction false} CallStepOk(reg: Registry, m: Machine, th: Thread, reply: Option<string>)
    requires ObjsOk(reg, m) && th.CallThread? && ThreadOk(reg, m, th)
    ensures var (m', pc) := CallStep(m, th, reply);
            Sends(reg, m, m') && ThreadOk(reg, m', th.(callPc := pc))
  {
    var t, client := th.tenant, Some(th.client);
    match th.callPc
    case AtGet => if t.backend.Stateless() { EmitSends(reg, m, client, t, ToolsCall, "", th.headers, None); }
    case AtInitialize => EmitSends(reg, m, client, t, Kind.Initialize, "", map[], reply);
    case AtNotify(sid) => EmitSends(reg, m, client, t, Initialized, sid, map[], None);
    case AtCall(sid) => EmitSends(reg, m, client, t, ToolsCall, sid, th.headers, None);
    case _ =>
  }

  lemma {:induction false} CallStepKeepsObjs(reg: Registry, m: Machine, th: Thread, reply: Option<string>)
    requires ObjsOk(reg, m) && th.CallThread? && ThreadOk(reg, m, th)
    ensures var (m', pc) := CallStep(m, th, reply);
            && ObjsOk(reg, m') && m'.objs.Keys == m.objs.Keys && m'.live == m.live && m'.threads == m.threads
            && m.log <= m'.log
            && forall p :: p in m.objs && p !in m.live ==> m'.objs[p] == m.objs[p]
  {
  }

  lemma {:induction false} CallKeepsSafe(reg: Registry, m: Machine, tid: nat, reply: Option<string>, pick: string)
    requires Safe(reg, m) && tid in m.threads && m.threads[tid].CallThread?
    ensures Safe(reg, Next(reg, m, Step(tid, reply, pick)))
  {
    var th := m.threads[tid];
    var m' := Next(reg, m, Step(tid, reply, pick));
    assert ThreadOk(reg, m, th);
    CallStepOk(reg, m, th, reply);
    CallStepKeepsObjs(reg, m, th, reply);
    SendsKeepsLog(reg, m, m');
    SendsKeepsRecord(reg, m, m');
    ThreadsStable(reg, m, m', tid);
    assert m'.threads == m.threads[tid := m'.threads[tid]];
    hide CallStep, TornOk, LogOk, ThreadsOk, Sends, TornAsRecorded;
    forall p, t ensures TornOk(m', p, t) {
      SendingKeepsTorn(reg, m, m', tid, p, t);
    }
  }

  lemma {:induction false} FetchStepOk(reg: Registry, m: Machine, th: Thread, reply: Option<string>)
    requires th.FetchThread? && ThreadOk(reg, m, th)
    ensures var (m', pc) := FetchStep(m, th, reply);
            Sends(reg, m, m') && ThreadOk(reg, m', th.(fetchPc := pc)) && m'.(log := m.log) == m
  {
    var t := th.view;
    match th.fetchPc
    case AtOpen =>
      EmitSends(reg, m, None, t, if t.backend.Stateless() then ToolsList else Kind.Initialize, "",
                if t.backend.Stateless() then t.headers else map[], if t.backend.Stateless() then None else reply);
    case AtFetchNotify(sid) => EmitSends(reg, m, None, t, Initialized, sid, map[], None);
    case AtList(sid) => EmitSends(reg, m, None, t, ToolsList, sid, t.headers, None);
    case Fetched =>
  }

  lemma {:induction false} FetchKeepsSafe(reg: Registry, m: Machine, tid: nat, reply: Option<string>, pick: string)
    requires Safe(reg, m) && tid in m.threads && m.threads[tid].FetchThread?
    ensures Safe(reg, Next(reg, m, Step(tid, reply, pick)))
  {
    var th := m.threads[tid];
    var m' := Next(reg, m, Step(tid, reply, pick));
    assert ThreadOk(reg, m, th);
    FetchStepOk(reg, m, th, reply);
    SendsKeepsLog(reg, m, m');
    SendsKeepsRecord(reg, m, m');
    ThreadsStable(reg, m, m', tid);
    assert m'.threads == m.threads[tid := m'.threads[tid]];
    hide FetchStep, TornOk, LogOk, ThreadsOk, Sends, TornAsRecorded;
    forall p, t ensures TornOk(m', p, t) {
      SendingKeepsTorn(reg, m, m', tid, p, t);
    }
  }

  lemma {:induction false} DeleteStepOk(reg: Registry, m: Machine, th: Thread, pick: string)
    requires LogOk(reg, m.log) && ObjsOk(reg, m) && th.DeleteThread? && ThreadOk(reg, m, th)
    ensures var (m', pc) := DeleteStep(reg, m, th, pick);
            && LogOk(reg, m'.log) && ObjsOk(reg, m') && ThreadOk(reg, m', th.(deletePc := pc))
            && m'.objs == m.objs && m'.live <= m.live && m'.threads == m.threads && m.log <= m'.log
  {
    var (m', pc) := DeleteStep(reg, m, th, pick);
    if m'.log != m.log {
      var e := m'.log[|m.log|];
      assert m'.log == m.log + [e] && m'.log[..|m.log|] == m.log;
      LogAppend(reg, m.log, e);
    }
  }

  lemma {:induction false} DeleteKeepsRecord(reg: Registry, m: Machine, th: Thread, pick: string)
    requires TornAsRecorded(m) && m.live <= m.objs.Keys && th.DeleteThread? && ThreadOk(reg, m, th)
    ensures TornAsRecorded(DeleteStep(reg, m, th, pick).0)
  {
    var m' := DeleteStep(reg, m, th, pick).0;
    if m'.log != m.log {
      assert m'.log == m.log + [m'.log[|m.log|]];
    }
  }

  lemma {:induction false} DeleteKeepsSafe(reg: Registry, m: Machine, tid: nat, reply: Option<string>, pick: string)
    requires Safe(reg, m) && tid in m.threads && m.threads[tid].DeleteThread?
    ensures Safe(reg, Next(reg, m, Step(tid, reply, pick)))
  {
    var th := m.threads[tid];
    assert ThreadOk(reg, m, th);
    var m' := Next(reg, m, Step(tid, reply, pick));
    DeleteStepOk(reg, m, th, pick);
    DeleteKeepsRecord(reg, m, th, pick);
    ThreadsStable(reg, m, m', tid);
    hide TornAsRecorded, TornOk;
    forall p, t ensures TornOk(m', p, t) {
      DeleteKeepsTorn(reg, m, tid, reply, pick, p, t);
    }
  }

  lemma {:induction false} DeleteStepCounts(reg: Registry, m: Machine, th: Thread, pick: string, p: string, t: string)
    requires th.DeleteThread? && ThreadOk(reg, m, th)
    ensures var m' := DeleteStep(reg, m, th, pick).0;
            Count(m'.log, TornDown(p, t)) == Count(m.log, TornDown(p, t))
              + if th.deletePc.TearingDown? && th.client == p && pick == t && t in th.deletePc.todo
                   && t in m.objs[p] && m.objs[p][t] != "" then 1 else 0
  {
    var m' := DeleteStep(reg, m, th, pick).0;
    if m'.log != m.log {
      var e := m'.log[|m.log|];
      assert m'.log == m.log + [e];
      CountAppend(m.log, [e], TornDown(p, t));
      CountHead([e], TornDown(p, t));
    }
  }

  lemma {:induction false} OtherDeleteKeepsTorn(reg: Registry, m: Machine, tid: nat, reply: Option<string>,
                                                pick: string,
                                                p: string, t: string)
    requires Safe(reg, m) && tid in m.threads && m.threads[tid].DeleteThread?
    requires m.threads[tid].client != p || DeleteStep(reg, m, m.threads[tid], pick).1.NothingToDelete?
    ensures TornOk(Next(reg, m, Step(tid, reply, pick)), p, t)
  {
    var th := m.threads[tid];
    assert ThreadOk(reg, m, th) && TornOk(m, p, t);
    var m' := Next(reg, m, Step(tid, reply, pick));
    DeleteStepCounts(reg, m, th, pick, p, t);
    hide TornOk, Count;
    TornStable(m, m', p, t);
  }

  lemma {:induction false} TeardownKeepsTorn(reg: Registry, m: Machine, tid: nat, reply: Option<string>, pick: string,
                                             p: string, t: string)
    requires Safe(reg, m) && tid in m.threads && m.threads[tid].DeleteThread?
    requires m.threads[tid].client == p && m.threads[tid].deletePc.TearingDown?
    ensures TornOk(Next(reg, m, Step(tid, reply, pick)), p, t)
  {
    var th := m.threads[tid];
    assert ThreadOk(reg, m, th) && TornOk(m, p, t);
    var m' := Next(reg, m, Step(tid, reply, pick));
    DeleteStepCounts(reg, m, th, pick, p, t);
    hide TornOk, Count;
    OneTeardown(reg, m, m', tid, p, t);
  }

  lemma {:induction false} DeletingKeepsTorn(reg: Registry, m: Machine, tid: nat, reply: Option<string>, pick: string,
                                             p: string, t: string)
    requires Safe(reg, m) && tid in m.threads && m.threads[tid].DeleteThread?
    requires m.threads[tid].client == p && m.threads[tid].deletePc.AtDelete?
    requires DeleteStep(reg, m, m.threads[tid], pick).1.TearingDown?
    ensures TornOk(Next(reg, m, Step(tid, reply, pick)), p, t)
  {
    var th := m.threads[tid];
    assert ThreadOk(reg, m, th) && TornOk(m, p, t);
    var m' := Next(reg, m, Step(tid, reply, pick));
    DeleteStepCounts(reg, m, th, pick, p, t);
    hide TornOk, Count;
    TeardownsBegin(reg, m, m', tid, p, t);
  }

  lemma {:induction false} DeleteKeepsTorn(reg: Registry, m: Machine, tid: nat, reply: Option<string>, pick: string,
                                           p: string, t: string)
    requires Safe(reg, m) && tid in m.threads && m.threads[tid].DeleteThread?
    ensures TornOk(Next(reg, m, Step(tid, reply, pick)), p, t)
  {
    var th := m.threads[tid];
    if th.client != p || DeleteStep(reg, m, th, pick).1.NothingToDelete? {
      OtherDeleteKeepsTorn(reg, m, tid, reply, pick, p, t);
    } else if th.deletePc.TearingDown? {
      TeardownKeepsTorn(reg, m, tid, reply, pick, p, t);
    } else {
      DeletingKeepsTorn(reg, m, tid, reply, pick, p, t);
    }
  }

  // DELETE takes the session out of the store, with all of its teardowns to come.
  lemma {:induction false} TeardownsBegin(reg: Registry, m: Machine, m': Machine, tid: nat, p: string, t: string)
    requires TornOk(m, p, t) && tid in m.threads && p in m.live && p in m.objs
    requires t in m.objs[p] ==> t in reg.byTenant
    requires tid in m'.threads && m'.threads[tid] == DeleteThread(p, TearingDown(reg.byTenant.Keys))
    requires m'.threads == m.threads[tid := m'.threads[tid]] && m'.objs == m.objs && m'.live == m.live - {p}
    requires Count(m'.log, TornDown(p, t)) == Count(m.log, TornDown(p, t))
    ensures TornOk(m', p, t)
  {
    assert forall i :: i in m.threads ==> !TearsDown(m.threads[i], p);
  }

  lemma {:induction false} OneTeardown(reg: Registry, m: Machine, m': Machine, tid: nat, p: string, t: string)
    requires TornOk(m, p, t) && tid in m.threads && TearsDown(m.threads[tid], p)
    requires tid in m'.threads && TearsDown(m'.threads[tid], p)
    requires m'.threads == m.threads[tid := m'.threads[tid]] && m'.objs == m.objs && m'.live == m.live
    requires var before, after := m.threads[tid].deletePc.todo, m'.threads[tid].deletePc.todo;
             Count(m'.log, TornDown(p, t)) == Count(m.log, TornDown(p, t))
               + (if t in before && t !in after && t in m.objs[p] && m.objs[p][t] != "" then 1 else 0)
             && after <= before
    ensures TornOk(m', p, t)
  {
    forall i | i in m'.threads && TearsDown(m'.threads[i], p) ensures i == tid {
      assert i in m.threads;
    }
  }

  lemma {:induction false} OtherKeepsTorn(reg: Registry, m: Machine, a: Action, p: string, t: string)
    requires Safe(reg, m) && !a.Step?
    ensures TornOk(Next(reg, m, a), p, t)
  {
    assert TornOk(m, p, t);
    TornStable(m, Next(reg, m, a), p, t);
  }

  lemma {:induction false} OtherKeepsThreads(reg: Registry, m: Machine, a: Action)
    requires Safe(reg, m) && !a.Step?
    ensures ThreadsOk(reg, Next(reg, m, a))
  {
    var m' := Next(reg, m, a);
    if a.Spawn? {
      ThreadsStable(reg, m, m', a.tid);
    } else {
      forall i | i in m'.threads ensures ThreadOk(reg, m', m'.threads[i]) {
        assert ThreadOk(reg, m, m.threads[i]);
      }
    }
  }

  lemma {:induction false} OtherKeepsSafe(reg: Registry, m: Machine, a: Action)
    requires Safe(reg, m) && !a.Step?
    ensures Safe(reg, Next(reg, m, a))
  {
    OtherKeepsThreads(reg, m, a);
    forall p, t ensures TornOk(Next(reg, m, a), p, t) {
      OtherKeepsTorn(reg, m, a, p, t);
    }
  }

  lemma {:induction false} NextKeepsSafe(reg: Registry, m: Machine, a: Action)
    requires reg.WellFormed() && Safe(reg, m)
    ensures Safe(reg, Next(reg, m, a))
  {
    if a.Step? && a.tid in m.threads {
      match m.threads[a.tid]
      case CallThread(_, _, _, _) => CallKeepsSafe(reg, m, a.tid, a.reply, a.pick);
      case FetchThread(_, _) => FetchKeepsSafe(reg, m, a.tid, a.reply, a.pick);
      case DeleteThread(_, _) => DeleteKeepsSafe(reg, m, a.tid, a.reply, a.pick);
    } else if !a.Step? {
      OtherKeepsSafe(reg, m, a);
    }
  }

  lemma {:induction false} RunsAreSafe(reg: Registry, actions: seq<Action>)
    requires reg.WellFormed()
    ensures Safe(reg, Run(reg, actions))
  {
    if actions == [] {
      assert forall p, t :: TornOk(IDLE, p, t);
    } else {
      RunsAreSafe(reg, actions[..|actions| - 1]);
      NextKeepsSafe(reg, Run(reg, actions[..|actions| - 1]), actions[|actions| - 1]);
    }
  }

  // ---- What holds in every run, whatever the interleaving ----

  // Entry j is the handshake that gave entry i its session: same client session, tenant,
  // backend and credential, and entry i carries the id it gave, if it gave one.
  ghost predicate GrantedBy(log: seq<Sent>, j: nat, i: nat)
    requires j < |log| && i < |log|
  {
    var g, e := log[j], log[i];
    && g.msg.kind.Initialize? && g.granted.Some?
    && e.msg.session == (if g.granted.value == "" then None else g.granted)
    && g.client == e.client && g.tenant == e.tenant
    && g.msg.backend == e.msg.backend && g.msg.credential == e.msg.credential
  }

  ghost predicate ToOwnBackend(reg: Registry, e: Sent) {
    && e.tenant in reg.byTenant
    && var t := reg.byTenant[e.tenant];
       && e.msg.backend == t.backend
       && (t.credential != "" ==> e.msg.credential == t.credential)
       && (t.credential == "" ==> e.msg.credential == t.backend.credential)
  }

  // Everything a stateful backend gets after its initialize.
  predicate NeedsSession(m: Msg) {
    m.backend.protocolVersion != "2026-07-28" && !m.kind.Initialize?
  }

  lemma {:induction false} SessionWasGranted(reg: Registry, log: seq<Sent>, i: nat) returns (j: nat)
    requires reg.WellFormed() && i < |log| && EntryOk(reg, log, i) && NeedsSession(log[i].msg)
    ensures j < i && GrantedBy(log, j, i)
  {
    var e := log[i];
    j :| 0 <= j < i && log[..i][j] == OpenEntry(e.client, reg.byTenant[e.tenant], SessionIn(e.msg));
    assert log[j] == log[..i][j];
  }

  lemma {:induction false} SafeGoesToOwnBackend(reg: Registry, m: Machine)
    requires Safe(reg, m)
    ensures forall e :: e in m.log ==> ToOwnBackend(reg, e) && StatelessSafe(e.msg)
    ensures forall e :: e in m.log && !NeedsSession(e.msg) ==> e.msg.session == None
  {
    forall e | e in m.log
      ensures ToOwnBackend(reg, e) && StatelessSafe(e.msg) && (!NeedsSession(e.msg) ==> e.msg.session == None)
    {
      var i :| 0 <= i < |m.log| && m.log[i] == e;
      assert EntryOk(reg, m.log, i);
    }
  }

  lemma {:induction false} SafeSessionsWereGranted(reg: Registry, m: Machine)
    requires reg.WellFormed() && Safe(reg, m)
    ensures forall i: nat :: i < |m.log| && NeedsSession(m.log[i].msg) ==> exists j: nat ::
            j < i && GrantedBy(m.log, j, i)
  {
    forall i: nat | i < |m.log| && NeedsSession(m.log[i].msg) ensures exists j: nat :: j < i && GrantedBy(m.log, j, i) {
      assert EntryOk(reg, m.log, i);
      var j := SessionWasGranted(reg, m.log, i);
    }
  }

  lemma {:induction false} SafeRecordsWereGranted(reg: Registry, m: Machine)
    requires reg.WellFormed() && Safe(reg, m)
    ensures forall p, t :: p in m.objs && t in m.objs[p] ==> exists e ::
              e in m.log && e.msg.kind.Initialize? && e.client == Some(p) && e.tenant == t
              && e.granted == Some(m.objs[p][t])
  {
    forall p, t | p in m.objs && t in m.objs[p]
      ensures exists e :: e in m.log && e.msg.kind.Initialize? && e.client == Some(p) && e.tenant == t
                          && e.granted == Some(m.objs[p][t])
    {
      assert OpenEntry(Some(p), reg.byTenant[t], m.objs[p][t]) in m.log;
    }
  }

  // Every request goes to its tenant's backend with its tenant's own credential, or the
  // backend's if it has none. At a stateful backend every call, fetch, notification and
  // teardown follows a handshake of the same client session and tenant, with the same
  // backend and credential, and carries the session id that this handshake gave; so did
  // one give every recorded id. Nothing else carries a session id.
  lemma {:induction false} Isolation(reg: Registry, actions: seq<Action>)
    requires reg.WellFormed()
    ensures var m := Run(reg, actions);
            && (forall e :: e in m.log ==> ToOwnBackend(reg, e))
            && (forall i: nat :: i < |m.log| && NeedsSession(m.log[i].msg) ==> exists j: nat ::
                j < i && GrantedBy(m.log, j, i))
            && (forall e :: e in m.log && !NeedsSession(e.msg) ==> e.msg.session == None)
            && (forall p, t :: p in m.objs && t in m.objs[p] ==> exists e ::
                  e in m.log && e.msg.kind.Initialize? && e.client == Some(p) && e.tenant == t
                  && e.granted == Some(m.objs[p][t]))
  {
    var m := Run(reg, actions);
    RunsAreSafe(reg, actions);
    SafeGoesToOwnBackend(reg, m);
    SafeSessionsWereGranted(reg, m);
    SafeRecordsWereGranted(reg, m);
  }

  // So tenants with different credentials of their own never share one on the wire, even
  // on one backend.
  lemma {:induction false} CredentialsStayApart(reg: Registry, actions: seq<Action>, a: Tenant, b: Tenant, i: nat,
                                                j: nat)
    requires reg.WellFormed() && reg.Registered(a) && reg.Registered(b)
    requires a.credential != "" && b.credential != "" && a.credential != b.credential
    requires var log := Run(reg, actions).log;
             i < |log| && j < |log| && log[i].tenant == a.id && log[j].tenant == b.id
    ensures var log := Run(reg, actions).log;
            log[i].msg.credential == a.credential && log[j].msg.credential == b.credential
  {
    var log := Run(reg, actions).log;
    Isolation(reg, actions);
    assert log[i] in log && log[j] in log;
    assert ToOwnBackend(reg, log[i]) && ToOwnBackend(reg, log[j]);
  }

  // If no backend grants one session id twice, a backend session is never shared
  // between client sessions or tenants. A handshake that grants none is no grant.
  ghost predicate GrantsOnce(log: seq<Sent>) {
    forall k: nat, l: nat :: (k < |log| && l < |log| && log[k].granted.Some? && log[k].granted.value != ""
        && log[k].granted == log[l].granted
                              && log[k].msg.backend == log[l].msg.backend) ==> k == l
  }

  lemma {:induction false} NoSharedBackendSession(reg: Registry, actions: seq<Action>, i: nat, j: nat)
    requires reg.WellFormed()
    requires var log := Run(reg, actions).log;
             && GrantsOnce(log) && i < |log| && j < |log|
             && log[i].msg.session.Some? && log[i].msg.session == log[j].msg.session
             && log[i].msg.backend == log[j].msg.backend
    ensures var log := Run(reg, actions).log;
            log[i].client == log[j].client && log[i].tenant == log[j].tenant
  {
    var log := Run(reg, actions).log;
    RunsAreSafe(reg, actions);
    assert EntryOk(reg, log, i) && EntryOk(reg, log, j);
    var k := SessionWasGranted(reg, log, i);
    var l := SessionWasGranted(reg, log, j);
    assert k == l;
  }

  // A DELETE that has gone through every tenant has torn down each session recorded
  // in its client session exactly once, and nothing else ever tears one down.
  lemma {:induction false} DeleteTearsDownOnce(reg: Registry, actions: seq<Action>, tid: nat, t: string)
    requires reg.WellFormed()
    requires var m := Run(reg, actions);
             tid in m.threads && m.threads[tid].DeleteThread? && m.threads[tid].deletePc == TearingDown({})
    ensures var m := Run(reg, actions);
            var p := m.threads[tid].client;
            && p in m.objs && p !in m.live
            && Count(m.log, TornDown(p, t)) == (if t in m.objs[p] && m.objs[p][t] != "" then 1 else 0)
            && forall e :: e in m.log && e.msg.kind.Teardown? && e.client == Some(p) && e.tenant == t ==>
                 t in m.objs[p] && e.msg.session == Some(m.objs[p][t])
  {
    var m := Run(reg, actions);
    RunsAreSafe(reg, actions);
    assert ThreadOk(reg, m, m.threads[tid]) && TornOk(m, m.threads[tid].client, t);
  }

  lemma {:induction false} StatelessUnderInterleaving(reg: Registry, actions: seq<Action>)
    requires reg.WellFormed()
    ensures var m := Run(reg, actions);
            && (forall e :: e in m.log && e.msg.backend.protocolVersion == "2026-07-28" ==>
                  e.msg.session.None? && !e.msg.kind.Initialize?)
            && (reg.EveryStateless() ==> m.objs == map[])
  {
    RunsAreSafe(reg, actions);
    SafeGoesToOwnBackend(reg, Run(reg, actions));
  }

  lemma {:induction false} RunAppend(reg: Registry, actions: seq<Action>, a: Action)
    ensures Run(reg, actions + [a]) == Next(reg, Run(reg, actions), a)
  {
    assert (actions + [a])[..|actions|] == actions;
  }

  // "At most one backend session per tenant" needs calls one at a time: two racing
  // calls of one client both open a session for any stateful tenant.
  function Racing(t: Tenant, pc: CallPc): Machine {
    var th := CallThread("p", t, map[], pc);
    Machine(map["p" := map[]], {"p"}, map[0 := th, 1 := th], [])
  }

  lemma {:induction false} RaceStart(reg: Registry, t: Tenant) returns (actions: seq<Action>)
    requires reg.WellFormed() && reg.Registered(t) && !t.backend.Stateless()
    ensures Run(reg, actions) == Racing(t, AtGet)
  {
    var th := CallThread("p", t, map[], AtGet);
    assert !reg.EveryStateless() by { assert t.backend in reg.backends; }
    RunAppend(reg, [], Mint("p"));
    assert [] + [Mint("p")] == [Mint("p")] && Run(reg, []) == IDLE;
    RunAppend(reg, [Mint("p")], Spawn(0, th));
    RunAppend(reg, [Mint("p")] + [Spawn(0, th)], Spawn(1, th));
    hide Run, reg.EveryStateless;
    var minted := Machine(map["p" := map[]], {"p"}, map[], []);
    assert Next(reg, IDLE, Mint("p")) == minted;
    assert Next(reg, minted, Spawn(0, th)) == minted.(threads := map[0 := th]);
    assert Next(reg, minted.(threads := map[0 := th]), Spawn(1, th)) == Racing(t, AtGet);
    actions := [Mint("p")] + [Spawn(0, th)] + [Spawn(1, th)];
  }

  // One racing call goes on, the rest staying as it is.
  lemma {:induction false} RaceStep(reg: Registry, t: Tenant, m: Machine, tid: nat, pc: CallPc, next: CallPc)
    requires !t.backend.Stateless() && m.live == {"p"} && m.objs == map["p" := map[]]
    requires (pc, next) == (AtGet, AtLookup) || (pc, next) == (AtLookup, AtInitialize)
    requires tid in m.threads && m.threads[tid] == CallThread("p", t, map[], pc)
    ensures Next(reg, m, Step(tid, None, "")) == m.(threads := m.threads[tid := CallThread("p", t, map[], next)])
  {
    assert CallStep(m, m.threads[tid], None) == (m, next);
  }

  lemma {:induction false} RaceOn(reg: Registry, t: Tenant, before: seq<Action>, pc: CallPc, next: CallPc)
    returns (actions: seq<Action>)
    requires reg.WellFormed() && reg.Registered(t) && !t.backend.Stateless()
    requires (pc, next) == (AtGet, AtLookup) || (pc, next) == (AtLookup, AtInitialize)
    requires Run(reg, before) == Racing(t, pc)
    ensures Run(reg, actions) == Racing(t, next)
  {
    var th, th' := CallThread("p", t, map[], pc), CallThread("p", t, map[], next);
    var a, b := Step(0, None, ""), Step(1, None, "");
    RunAppend(reg, before, a);
    RunAppend(reg, before + [a], b);
    hide Run, Next;
    var start := Racing(t, pc);
    var half := start.(threads := start.threads[0 := th']);
    RaceStep(reg, t, start, 0, pc, next);
    RaceStep(reg, t, half, 1, pc, next);
    assert half.threads[1 := th'] == Racing(t, next).threads;
    actions := before + [a] + [b];
  }

  lemma {:induction false} RacingCallsOpenTwo(reg: Registry, t: Tenant) returns (actions: seq<Action>)
    requires reg.WellFormed() && reg.Registered(t) && !t.backend.Stateless()
    ensures Count(Run(reg, actions).log, Opened("p", t.id)) == 2
  {
    actions := RaceStart(reg, t);
    actions := RaceOn(reg, t, actions, AtGet, AtLookup);
    actions := RaceOn(reg, t, actions, AtLookup, AtInitialize);
    var a, b := Step(0, Some("a"), ""), Step(1, Some("b"), "");
    RunAppend(reg, actions, a);
    RunAppend(reg, actions + [a], b);
    hide Run;
    var m := Next(reg, Racing(t, AtInitialize), a);
    var one, two := OpenEntry(Some("p"), t, "a"), OpenEntry(Some("p"), t, "b");
    assert m.log == [] + [one] && m.threads[1] == Racing(t, AtInitialize).threads[1];
    assert Next(reg, m, b).log == m.log + [two];
    CountOne([], one, Opened("p", t.id));
    CountOne(m.log, two, Opened("p", t.id));
    actions := actions + [a] + [b];
  }
}
