// When a client session opens at most one backend session for a tenant, whatever else
// interleaves (the check-then-open of routeToBackend in internal/proxy/handler.go).
module Exclusion {
  import opened Wrappers
  import opened TenantRegistry
  import opened Routing
  import opened Lifecycle
  import opened Interleaving

  // ---- for which tenants every interleaving opens at most one ----

  lemma {:induction false} StatelessNeverOpens(reg: Registry, actions: seq<Action>, t: Tenant, p: string)
    requires reg.WellFormed() && reg.Registered(t) && t.backend.Stateless()
    ensures Count(Interleaving.Run(reg, actions).log, Opened(p, t.id)) == 0
  {
    var log := Interleaving.Run(reg, actions).log;
    RunsAreSafe(reg, actions);
    forall e | e in log ensures !Marks(Opened(p, t.id), e) {
      var i :| 0 <= i < |log| && log[i] == e;
      assert EntryOk(reg, log, i);
    }
    CountNone(log, Opened(p, t.id));
  }

  // "At most one backend session per client session and tenant" holds over all
  // interleavings exactly for the tenants of stateless backends, which have none.
  lemma {:induction false} AtMostOneIffStateless(reg: Registry, t: Tenant)
    requires reg.WellFormed() && reg.Registered(t)
    ensures (forall actions, p :: Count(Interleaving.Run(reg, actions).log, Opened(p, t.id)) <= 1)
            <==> t.backend.Stateless()
  {
    if t.backend.Stateless() {
      forall actions, p ensures Count(Interleaving.Run(reg, actions).log, Opened(p, t.id)) <= 1 {
        StatelessNeverOpens(reg, actions, t, p);
      }
    } else {
      var actions := RacingCallsOpenTwo(reg, t);
      assert Count(Interleaving.Run(reg, actions).log, Opened("p", t.id)) == 2;
    }
  }

  // ---- for which runs ----

  predicate IsCall(th: Thread, p: string, t: string) {
    th.CallThread? && th.client == p && th.tenant.id == t
  }

  // A call for (p, t) from before it reads the recorded session until it has recorded
  // its own: the window between the check and the act.
  predicate InWindow(th: Thread, p: string, t: string) {
    IsCall(th, p, t) && (th.callPc.AtLookup? || th.callPc.AtInitialize? || th.callPc.AtNotify? || th.callPc.AtRecord?)
  }

  // No two calls are in their windows at once.
  ghost predicate Exclusive(m: Machine, p: string, t: string) {
    forall i, j :: i in m.threads && j in m.threads && InWindow(m.threads[i], p, t) && InWindow(m.threads[j], p, t) ==>
        i == j
  }

  ghost predicate AlwaysExclusive(reg: Registry, actions: seq<Action>, p: string, t: string) {
    forall k :: 0 <= k <= |actions| ==> Exclusive(Interleaving.Run(reg, actions[..k]), p, t)
  }

  predicate Opening(th: Thread, p: string, t: string) {
    IsCall(th, p, t) && (th.callPc.AtNotify? || th.callPc.AtRecord?)
  }

  // Before anything is opened nothing needs to hold; afterwards no call is about to
  // open again, and one that still has to look will find the session.
  ghost predicate OpenedOnce(m: Machine, p: string, t: string) {
    && Count(m.log, Opened(p, t)) == 1
    && p in m.objs
    && (forall i :: i in m.threads && IsCall(m.threads[i], p, t) ==> !m.threads[i].callPc.AtInitialize?)
    && (forall i :: i in m.threads && IsCall(m.threads[i], p, t) && m.threads[i].callPc.AtLookup? ==> t in m.objs[p])
    && (p in m.live && (forall i :: i in m.threads ==> !Opening(m.threads[i], p, t)) ==> t in m.objs[p])
  }

  ghost predicate Windowed(m: Machine, p: string, t: string) {
    && m.live <= m.objs.Keys
    && (forall i :: i in m.threads && InWindow(m.threads[i], p, t) ==> p in m.objs)
    && (Count(m.log, Opened(p, t)) == 0 || OpenedOnce(m, p, t))
  }

  // A call sends at most one request a step, granted what its initialize was answered.
  lemma {:induction false} CallSends(m: Machine, th: Thread, reply: Option<string>)
    requires th.CallThread?
    ensures var log := CallStep(m, th, reply).0.log;
            || (log == m.log && !th.callPc.AtInitialize?)
            || (exists e :: log == m.log + [e] && e.client == Some(th.client) && e.tenant == th.tenant.id
                            && e.granted == if th.callPc.AtInitialize? then reply else None)
  {
    var log := CallStep(m, th, reply).0.log;
    if log != m.log {
      assert log == m.log + [log[|m.log|]];
    }
  }

  lemma {:induction false} CallCounts(m: Machine, th: Thread, reply: Option<string>, p: string, t: string)
    requires th.CallThread?
    ensures Count(CallStep(m, th, reply).0.log, Opened(p, t)) == Count(m.log, Opened(p, t))
            + if IsCall(th, p, t) && th.callPc.AtInitialize? && reply.Some? then 1 else 0
  {
    CallSends(m, th, reply);
    var log := CallStep(m, th, reply).0.log;
    if log != m.log {
      var e :| log == m.log + [e] && e.client == Some(th.client) && e.tenant == th.tenant.id
               && e.granted == if th.callPc.AtInitialize? then reply else None;
      CountOne(m.log, e, Opened(p, t));
    }
  }

  lemma {:induction false} OtherSends(reg: Registry, m: Machine, a: Action)
    requires a.Step? && a.tid in m.threads ==> !m.threads[a.tid].CallThread?
    ensures var log := Next(reg, m, a).log;
            log == m.log || exists e :: log == m.log + [e] && (e.client.None? || e.granted.None?)
  {
    var log := Next(reg, m, a).log;
    if log != m.log {
      assert log == m.log + [log[|m.log|]];
    }
  }

  lemma {:induction false} OtherCounts(reg: Registry, m: Machine, a: Action, p: string, t: string)
    requires a.Step? && a.tid in m.threads ==> !m.threads[a.tid].CallThread?
    ensures Count(Next(reg, m, a).log, Opened(p, t)) == Count(m.log, Opened(p, t))
  {
    OtherSends(reg, m, a);
    var log := Next(reg, m, a).log;
    if log != m.log {
      var e :| log == m.log + [e] && (e.client.None? || e.granted.None?);
      CountOne(m.log, e, Opened(p, t));
    }
  }

  // What a step that is not one of a call for (p, t) leaves as it was.
  ghost predicate Elsewhere(m: Machine, m': Machine, p: string, t: string) {
    && Count(m'.log, Opened(p, t)) == Count(m.log, Opened(p, t))
    && m'.live <= m'.objs.Keys && m.objs.Keys <= m'.objs.Keys
    && (p in m.objs ==> (p in m'.live ==> p in m.live) && (t in m.objs[p] ==> t in m'.objs[p]))
    && (forall i :: i in m'.threads && InWindow(m'.threads[i], p, t) ==>
        i in m.threads && m.threads[i] == m'.threads[i])
    && (forall i :: i in m.threads && InWindow(m.threads[i], p, t) ==> i in m'.threads && m'.threads[i] == m.threads[i])
  }

  lemma {:induction false} ElsewhereKeeps(m: Machine, m': Machine, p: string, t: string)
    requires Windowed(m, p, t) && Elsewhere(m, m', p, t)
    ensures Windowed(m', p, t)
  {
    if Count(m.log, Opened(p, t)) != 0 {
      assert forall i :: i in m.threads && Opening(m.threads[i], p, t) ==>
          i in m'.threads && Opening(m'.threads[i], p, t);
    }
  }

  lemma {:induction false} FetchIsElsewhere(reg: Registry, m: Machine, a: Action, p: string, t: string)
    requires m.live <= m.objs.Keys && a.Step? && a.tid in m.threads && m.threads[a.tid].FetchThread?
    ensures Elsewhere(m, Next(reg, m, a), p, t)
  {
    OtherCounts(reg, m, a, p, t);
    hide Count;
  }

  lemma {:induction false} DeleteIsElsewhere(reg: Registry, m: Machine, a: Action, p: string, t: string)
    requires m.live <= m.objs.Keys && a.Step? && a.tid in m.threads && m.threads[a.tid].DeleteThread?
    ensures Elsewhere(m, Next(reg, m, a), p, t)
  {
    OtherCounts(reg, m, a, p, t);
    hide Count, reg.EveryStateless;
  }

  lemma {:induction false} NoStepIsElsewhere(reg: Registry, m: Machine, a: Action, p: string, t: string)
    requires m.live <= m.objs.Keys && (a.Step? ==> a.tid !in m.threads)
    ensures Elsewhere(m, Next(reg, m, a), p, t)
  {
    hide reg.EveryStateless, CallStep, FetchStep, DeleteStep;
  }

  lemma {:induction false} OtherCallIsElsewhere(reg: Registry, m: Machine, a: Action, p: string, t: string)
    requires m.live <= m.objs.Keys && a.Step? && a.tid in m.threads
    requires m.threads[a.tid].CallThread? && !IsCall(m.threads[a.tid], p, t)
    ensures Elsewhere(m, Next(reg, m, a), p, t)
  {
    CallCounts(m, m.threads[a.tid], a.reply, p, t);
  }

  // ---- a step of a call for (p, t) ----

  // What one such step does, apart from the log.
  ghost predicate OwnStep(m: Machine, m': Machine, tid: nat, p: string, t: string) {
    && tid in m.threads && IsCall(m.threads[tid], p, t)
    && tid in m'.threads && IsCall(m'.threads[tid], p, t)
    && m'.threads == m.threads[tid := m'.threads[tid]] && m'.live == m.live
    && m'.objs.Keys == m.objs.Keys + (if m.threads[tid].callPc.AtRecord? && p in m.live then {p} else {})
    && (p in m.objs ==>
          m'.objs[p] == if m.threads[tid].callPc.AtRecord? && p in m.live
                        then m.objs[p][t := m.threads[tid].callPc.sid] else m.objs[p])
  }

  lemma {:induction false} OwnStepIs(reg: Registry, m: Machine, a: Action, p: string, t: string)
    requires a.Step? && a.tid in m.threads && IsCall(m.threads[a.tid], p, t)
    ensures OwnStep(m, Next(reg, m, a), a.tid, p, t)
  {
  }

  // Only one call in its window: the one that takes the step, if it was or is in it.
  ghost predicate OnlyInWindow(m: Machine, tid: nat, p: string, t: string) {
    forall i :: i in m.threads && InWindow(m.threads[i], p, t) ==> i == tid
  }

  // Before the session is opened.
  lemma {:induction false} UnopenedKeeps(m: Machine, m': Machine, tid: nat, p: string, t: string)
    requires Windowed(m, p, t) && OwnStep(m, m', tid, p, t) && Exclusive(m, p, t) && Count(m.log, Opened(p, t)) == 0
    requires m.threads[tid].callPc.AtGet? && InWindow(m'.threads[tid], p, t) ==> p in m.live
    requires m'.threads[tid].callPc.AtGet? ==> m.threads[tid].callPc.AtGet?
    requires InWindow(m'.threads[tid], p, t) ==> InWindow(m.threads[tid], p, t) || m.threads[tid].callPc.AtGet?
    requires Count(m'.log, Opened(p, t)) <= 1
    requires Count(m'.log, Opened(p, t)) == 1 ==> m.threads[tid].callPc.AtInitialize? && Opening(m'.threads[tid], p, t)
    ensures Windowed(m', p, t)
  {
    if Count(m'.log, Opened(p, t)) == 1 {
      assert InWindow(m.threads[tid], p, t) && OnlyInWindow(m, tid, p, t);
      assert OnlyInWindow(m', tid, p, t);
      assert OpenedOnce(m', p, t);
    }
  }

  // Once it is: a call that looks now finds it, since no other is about to record.
  lemma {:induction false} OpenedKeeps(m: Machine, m': Machine, tid: nat, p: string, t: string)
    requires Windowed(m, p, t) && OwnStep(m, m', tid, p, t) && Exclusive(m, p, t) && Exclusive(m', p, t)
    requires OpenedOnce(m, p, t) && Count(m'.log, Opened(p, t)) == 1
    requires m'.threads[tid].callPc.AtLookup? ==> m.threads[tid].callPc.AtGet? && p in m.live
    requires m'.threads[tid].callPc.AtInitialize? ==> m.threads[tid].callPc.AtLookup? && t !in m.objs[p]
    requires Opening(m.threads[tid], p, t) ==> Opening(m'.threads[tid], p, t) || m.threads[tid].callPc.AtRecord?
    requires Opening(m'.threads[tid], p, t) ==> Opening(m.threads[tid], p, t) || m.threads[tid].callPc.AtInitialize?
    ensures Windowed(m', p, t)
  {
    var pc, pc' := m.threads[tid].callPc, m'.threads[tid].callPc;
    assert !pc.AtInitialize? && !pc'.AtInitialize?;
    if pc'.AtLookup? {
      forall i | i in m.threads ensures !Opening(m.threads[i], p, t) {
        if Opening(m.threads[i], p, t) {
          assert i != tid && InWindow(m'.threads[i], p, t) && InWindow(m'.threads[tid], p, t);
          assert false;
        }
      }
      assert t in m.objs[p];
    }
    OpenedWhileLive(m, m', tid, p, t);
  }

  lemma {:induction false} OpenedWhileLive(m: Machine, m': Machine, tid: nat, p: string, t: string)
    requires OwnStep(m, m', tid, p, t) && OpenedOnce(m, p, t)
    requires Opening(m.threads[tid], p, t) ==> Opening(m'.threads[tid], p, t) || m.threads[tid].callPc.AtRecord?
    ensures p in m'.live && (forall i :: i in m'.threads ==> !Opening(m'.threads[i], p, t)) ==> t in m'.objs[p]
  {
    if p in m'.live && !m.threads[tid].callPc.AtRecord? && forall i :: i in m'.threads ==>
        !Opening(m'.threads[i], p, t) {
      forall i | i in m.threads ensures !Opening(m.threads[i], p, t) {
        assert i in m'.threads && !Opening(m'.threads[i], p, t) && !Opening(m'.threads[tid], p, t);
      }
    }
  }

  lemma {:induction false} OwnCallKeeps(reg: Registry, m: Machine, a: Action, p: string, t: string)
    requires Windowed(m, p, t) && Exclusive(m, p, t) && Exclusive(Next(reg, m, a), p, t)
    requires a.Step? && a.tid in m.threads && IsCall(m.threads[a.tid], p, t)
    ensures Windowed(Next(reg, m, a), p, t)
  {
    var th := m.threads[a.tid];
    var m' := Next(reg, m, a);
    CallCounts(m, th, a.reply, p, t);
    OwnStepIs(reg, m, a, p, t);
    if Count(m.log, Opened(p, t)) == 0 {
      UnopenedKeeps(m, m', a.tid, p, t);
    } else {
      OpenedKeeps(m, m', a.tid, p, t);
    }
  }

  lemma {:induction false} NextKeepsWindowed(reg: Registry, m: Machine, a: Action, p: string, t: string)
    requires Windowed(m, p, t) && Exclusive(m, p, t) && Exclusive(Next(reg, m, a), p, t)
    ensures Windowed(Next(reg, m, a), p, t)
  {
    if a.Step? && a.tid in m.threads && m.threads[a.tid].CallThread? {
      if IsCall(m.threads[a.tid], p, t) {
        OwnCallKeeps(reg, m, a, p, t);
      } else {
        OtherCallIsElsewhere(reg, m, a, p, t);
        ElsewhereKeeps(m, Next(reg, m, a), p, t);
      }
    } else {
      if a.Step? && a.tid in m.threads {
        if m.threads[a.tid].FetchThread? {
          FetchIsElsewhere(reg, m, a, p, t);
        } else {
          DeleteIsElsewhere(reg, m, a, p, t);
        }
      } else {
        NoStepIsElsewhere(reg, m, a, p, t);
      }
      ElsewhereKeeps(m, Next(reg, m, a), p, t);
    }
  }

  lemma {:induction false} RunsAreWindowed(reg: Registry, actions: seq<Action>, p: string, t: string)
    requires AlwaysExclusive(reg, actions, p, t)
    ensures Windowed(Interleaving.Run(reg, actions), p, t)
  {
    if actions != [] {
      var n := |actions| - 1;
      forall k | 0 <= k <= n ensures Exclusive(Interleaving.Run(reg, actions[..n][..k]), p, t) {
        assert actions[..n][..k] == actions[..k];
      }
      RunsAreWindowed(reg, actions[..n], p, t);
      assert actions[..n + 1] == actions;
      NextKeepsWindowed(reg, Interleaving.Run(reg, actions[..n]), actions[n], p, t);
    }
  }

  // If no two calls of a client session for a tenant are ever between the check and
  // the recording at once, at most one of their handshakes succeeds, whatever DELETEs,
  // reaping, catalog fetches and other clients do meanwhile.
  lemma {:induction false} ExclusiveCallsOpenOnce(reg: Registry, actions: seq<Action>, p: string, t: string)
    requires AlwaysExclusive(reg, actions, p, t)
    ensures Count(Interleaving.Run(reg, actions).log, Opened(p, t)) <= 1
  {
    RunsAreWindowed(reg, actions, p, t);
  }
}
