// Client-facing sessions and their store (internal/session/session.go).
//
// Every locked operation reads the clock itself: once to reap and, where it
// refreshes a session, once more. The readings are parameters.
module Sessions {
  import opened Wrappers

  datatype Entry = Entry(created: int, lastSeen: int, backendSID: map<string, string>)

  type View = map<string, Entry>

  predicate Within(ttl: int, last: int, now: int) {
    ttl <= 0 || now - last <= ttl
  }

  function Reap(v: View, ttl: int, now: int): View {
    map id | id in v && Within(ttl, v[id].lastSeen, now) :: v[id]
  }

  function Minted(v: View, ttl: int, id: string, t0: int, t1: int): View {
    Reap(v, ttl, t0)[id := Entry(t1, t1, map[])]
  }

  function Touched(v: View, ttl: int, id: string, t0: int, t1: int): View {
    var r := Reap(v, ttl, t0);
    if id in r then r[id := r[id].(lastSeen := t1)] else r
  }

  function Recorded(v: View, id: string, tenant: string, sid: string, t: int): View {
    if id in v then v[id := Entry(v[id].created, t, v[id].backendSID[tenant := sid])] else v
  }

  class Session {
    const id: string
    const created: int
    var lastSeen: int
    var backendSID: map<string, string>

    constructor (id: string, now: int)
      ensures this.id == id && created == now && lastSeen == now && backendSID == map[]
    {
      this.id, created, lastSeen, backendSID := id, now, now, map[];
    }

    function BackendSID(tenant: string): Option<string>
      reads this
    {
      if tenant in backendSID then Some(backendSID[tenant]) else None
    }
  }

  class Store {
    var m: map<string, Session>
    const ttl: int

    constructor (idleTTL: int)
      ensures ttl == idleTTL && m == map[] && Valid()
    {
      m, ttl := map[], idleTTL;
    }

    ghost predicate Valid()
      reads this, m.Values
    {
      forall id :: id in m ==> m[id].id == id
    }

    ghost function Contents(): View
      reads this, m.Values
    {
      map id | id in m :: Entry(m[id].created, m[id].lastSeen, m[id].backendSID)
    }

    // Drops sessions idle longer than ttl, in whatever order the map yields them.
    method ReapLocked(now: int)
      requires Valid()
      modifies this
      ensures Valid() && forall id :: id in m ==> id in old(m) && m[id] == old(m[id])
      ensures forall id :: id in old(m) ==> (id in m <==> ttl <= 0 || now - old(m[id].lastSeen) <= ttl)
      ensures Contents() == Reap(old(Contents()), ttl, now)
    {
      if ttl <= 0 {
        assert Contents() == Reap(Contents(), ttl, now);
        return;
      }
      var cutoff := now - ttl;
      var todo := m.Keys;
      while todo != {}
        invariant todo <= m.Keys <= old(m).Keys
        invariant forall id :: id in m ==> m[id] == old(m[id])
        invariant forall id :: id in old(m) && id !in todo ==> (id in m <==> Within(ttl, old(m[id]).lastSeen, now))
      {
        var id :| id in todo;
        todo := todo - {id};
        if m[id].lastSeen < cutoff {
          m := m - {id};
        }
      }
    }

    // newID is assumed to give an id that is not in use.
    method Mint(newID: string, t0: int, t1: int) returns (sess: Session)
      requires Valid() && newID !in m
      modifies this
      ensures Valid() && fresh(sess) && newID in m && m[newID] == sess
      ensures forall id :: id in m && id != newID ==> id in old(m) && m[id] == old(m[id])
      ensures sess.lastSeen == t1 && sess.backendSID == map[]
      ensures forall id :: id in old(m) ==> (id in m <==> ttl <= 0 || t0 - old(m[id].lastSeen) <= ttl)
      ensures Contents() == Minted(old(Contents()), ttl, newID, t0, t1)
    {
      ReapLocked(t0);
      sess := new Session(newID, t1);
      m := m[newID := sess];
    }

    method Get(id: string, t0: int, t1: int) returns (sess: Option<Session>)
      requires Valid()
      modifies this, m.Values
      ensures Valid() && forall k :: k in m ==> k in old(m) && m[k] == old(m[k])
      ensures Contents() == Touched(old(Contents()), ttl, id, t0, t1)
      ensures sess.Some? <==> id in old(m) && (ttl <= 0 || t0 - old(m[id].lastSeen) <= ttl)
      ensures sess.Some? ==> id in m && sess.value == m[id] && m[id] == old(m[id])
      ensures sess.Some? ==> m[id].lastSeen == t1 && m[id].backendSID == old(m[id].backendSID)
      ensures forall k :: k in old(m) ==> (k in m <==> ttl <= 0 || t0 - old(m[k].lastSeen) <= ttl)
      ensures forall k :: k in m && k != id ==>
                m[k].lastSeen == old(m[k].lastSeen) && m[k].backendSID == old(m[k].backendSID)
    {
      ReapLocked(t0);
      if id !in m {
        return None;
      }
      m[id].lastSeen := t1;
      return Some(m[id]);
    }

    method SetBackendSID(proxySID: string, tenant: string, backendSID: string, t: int)
      requires Valid()
      modifies m.Values
      ensures Valid() && m == old(m)
      ensures proxySID in m ==>
                m[proxySID].backendSID == old(m[proxySID].backendSID)[tenant := backendSID] && m[proxySID].lastSeen == t
      ensures forall k :: k in m && k != proxySID ==>
                m[k].lastSeen == old(m[k].lastSeen) && m[k].backendSID == old(m[k].backendSID)
      ensures Contents() == Recorded(old(Contents()), proxySID, tenant, backendSID, t)
    {
      if proxySID in m {
        var sess := m[proxySID];
        sess.backendSID := sess.backendSID[tenant := backendSID];
        sess.lastSeen := t;
      }
    }

    method Delete(id: string) returns (sess: Option<Session>)
      requires Valid()
      modifies this
      ensures Valid() && m == old(m) - {id}
      ensures Contents() == old(Contents()) - {id}
      ensures sess == if id in old(m) then Some(old(m[id])) else None
    {
      if id !in m {
        return None;
      }
      sess := Some(m[id]);
      m := m - {id};
    }

    method Len(t0: int) returns (n: nat)
      requires Valid()
      modifies this
      ensures Valid() && forall k :: k in m ==> k in old(m) && m[k] == old(m[k])
      ensures Contents() == Reap(old(Contents()), ttl, t0)
      ensures n == |set id | id in old(m) && (ttl <= 0 || t0 - old(m[id].lastSeen) <= ttl)|
    {
      ReapLocked(t0);
      n := |m|;
      assert m.Keys == set id | id in old(m) && (ttl <= 0 || t0 - old(m[id].lastSeen) <= ttl);
      assert |m.Keys| == |m|;
    }
  }

  // ---- Whole runs: the lazily reaped store against the life of one session ----

  datatype Op =
    | Mint(id: string, t0: int, t1: int)
    | Get(id: string, t0: int, t1: int)
    | SetSID(id: string, tenant: string, sid: string, t0: int)
    | Delete(id: string, t0: int)
    | Len(t0: int)
  {
    function Start(): int { t0 }

    function End(): int { if Mint? || Get? then t1 else t0 }
  }

  function Apply(ttl: int, v: View, op: Op): View {
    match op
    case Mint(id, t0, t1) => Minted(v, ttl, id, t0, t1)
    case Get(id, t0, t1) => Touched(v, ttl, id, t0, t1)
    case SetSID(id, tenant, sid, t) => Recorded(v, id, tenant, sid, t)
    case Delete(id, _) => v - {id}
    case Len(t0) => Reap(v, ttl, t0)
  }

  function Run(ttl: int, ops: seq<Op>): View {
    if ops == [] then map[] else Apply(ttl, Run(ttl, ops[..|ops| - 1]), ops[|ops| - 1])
  }

  ghost predicate Monotone(ops: seq<Op>) {
    && (forall i :: 0 <= i < |ops| ==> ops[i].Start() <= ops[i].End())
    && (forall i, j :: 0 <= i < j < |ops| ==> ops[i].End() <= ops[j].Start())
  }

  ghost predicate NotBefore(ops: seq<Op>, t: int) {
    ops != [] ==> ops[|ops| - 1].End() <= t
  }

  // The eager side, in plain arithmetic: when session `id` was last used, as long as it was minted, not deleted since,
  // and never left idle longer than ttl. No other session matters to it.
  function Life(ttl: int, ops: seq<Op>, id: string): Option<int> {
    if ops == [] then None
    else
      var before := Life(ttl, ops[..|ops| - 1], id);
      match ops[|ops| - 1]
      case Mint(i, _, t1) => if i == id then Some(t1) else before
      case Get(i, t0, t1) =>
        if i != id then before
        else if before.Some? && (ttl <= 0 || t0 - before.value <= ttl) then Some(t1) else None
      case SetSID(i, _, _, t) =>
        if i != id then before
        else if before.Some? && (ttl <= 0 || t - before.value <= ttl) then Some(t) else None
      case Delete(i, _) => if i == id then None else before
      case Len(_) => before
  }

  ghost predicate Alive(ttl: int, ops: seq<Op>, id: string, now: int) {
    var l := Life(ttl, ops, id);
    l.Some? && (ttl <= 0 || now - l.value <= ttl)
  }

  // Get(id) at time `now` finds the session.
  ghost predicate Found(ttl: int, ops: seq<Op>, id: string, now: int) {
    id in Reap(Run(ttl, ops), ttl, now)
  }

  // At every point of the run, Get finds exactly the sessions that are alive.
  ghost predicate Faithful(ttl: int, ops: seq<Op>) {
    forall k: nat, id, now :: k <= |ops| && NotBefore(ops[..k], now) ==>
      (Found(ttl, ops[..k], id, now) <==> Alive(ttl, ops[..k], id, now))
  }

  // No SetBackendSID reaches a stored session that has already idled out.
  ghost predicate NoRevivalAt(ttl: int, ops: seq<Op>, k: nat)
    requires k < |ops|
  {
    var v := Run(ttl, ops[..k]);
    ops[k].SetSID? && ops[k].id in v ==> ttl <= 0 || ops[k].t0 - v[ops[k].id].lastSeen <= ttl
  }

  ghost predicate NoRevival(ttl: int, ops: seq<Op>) {
    forall k: nat :: k < |ops| ==> NoRevivalAt(ttl, ops, k)
  }

  ghost predicate Agree(ttl: int, ops: seq<Op>, id: string, now: int) {
    var v, l := Run(ttl, ops), Life(ttl, ops, id);
    && (id in v && Within(ttl, v[id].lastSeen, now) ==> l == Some(v[id].lastSeen))
    && (l.Some? && Within(ttl, l.value, now) ==> id in v && v[id].lastSeen == l.value)
  }

  lemma {:induction false} AgreeThroughout(ttl: int, ops: seq<Op>, id: string, now: int)
    requires Monotone(ops) && NoRevival(ttl, ops) && NotBefore(ops, now)
    ensures Agree(ttl, ops, id, now)
  {
    if ops != [] {
      var n := |ops| - 1;
      var op := ops[n];
      forall k: nat | k < n ensures NoRevivalAt(ttl, ops[..n], k) {
        assert NoRevivalAt(ttl, ops, k) && ops[..n][..k] == ops[..k];
      }
      assert n > 0 ==> ops[..n][n - 1] == ops[n - 1];
      AgreeThroughout(ttl, ops[..n], id, op.Start());
      AgreeThroughout(ttl, ops[..n], id, now);
      assert NoRevivalAt(ttl, ops, n);
    }
  }

  // The store behaves as if idle sessions vanished at once, in exactly the runs
  // where nothing is recorded into a session that has idled out.
  lemma {:induction false} LazyStoreIsFaithful(ttl: int, ops: seq<Op>)
    requires Monotone(ops)
    ensures Faithful(ttl, ops) <==> NoRevival(ttl, ops)
  {
    if NoRevival(ttl, ops) {
      forall k: nat, id, now | k <= |ops| && NotBefore(ops[..k], now)
        ensures Found(ttl, ops[..k], id, now) <==> Alive(ttl, ops[..k], id, now)
      {
        forall j: nat | j < k ensures NoRevivalAt(ttl, ops[..k], j) {
          assert NoRevivalAt(ttl, ops, j) && ops[..k][..j] == ops[..j];
        }
        AgreeThroughout(ttl, ops[..k], id, now);
      }
    } else {
      var k: nat :| k < |ops| && !NoRevivalAt(ttl, ops, k);
      var id, t := ops[k].id, ops[k].t0;
      var next := ops[..k + 1];
      assert next[..k] == ops[..k] && next[k] == ops[k];
      assert Found(ttl, next, id, t);
      assert !Found(ttl, ops[..k], id, t);
      assert k > 0 ==> ops[..k][k - 1] == ops[k - 1];
      assert Alive(ttl, next, id, t) ==> Alive(ttl, ops[..k], id, t);
      assert NotBefore(next, t) && NotBefore(ops[..k], t);
    }
  }

  // Each SetBackendSID comes at most `gap` after a successful Get of its session.
  ghost predicate SetsFollowGets(ttl: int, ops: seq<Op>, gap: int) {
    forall k: nat :: k < |ops| && ops[k].SetSID? ==> exists g: nat :: g < k && FollowsGet(ttl, ops, g, k, gap)
  }

  ghost predicate FollowsGet(ttl: int, ops: seq<Op>, g: nat, k: nat, gap: int)
    requires g < k < |ops| && ops[k].SetSID?
  {
    && ops[g].Get? && ops[g].id == ops[k].id
    && Found(ttl, ops[..g], ops[g].id, ops[g].t0)
    && ops[k].t0 - ops[g].t1 <= gap
  }

  // An operation leaves a session that stays as recent as it was, or makes it more so.
  lemma {:induction false} ApplyKeepsSeen(ttl: int, v: View, op: Op, id: string)
    requires op.Start() <= op.End()
    ensures id in Apply(ttl, v, op) ==>
              var last := Apply(ttl, v, op)[id].lastSeen;
              last >= op.Start() || (id in v && last == v[id].lastSeen)
  {
  }

  lemma {:induction false} SeenSinceGet(ttl: int, ops: seq<Op>, g: nat, k: nat)
    requires Monotone(ops) && g < k <= |ops|
    requires ops[g].Get? && Found(ttl, ops[..g], ops[g].id, ops[g].t0)
    ensures ops[g].id in Run(ttl, ops[..k]) ==> Run(ttl, ops[..k])[ops[g].id].lastSeen >= ops[g].t1
  {
    assert ops[..k][..k - 1] == ops[..k - 1] && ops[..k][k - 1] == ops[k - 1];
    assert Run(ttl, ops[..k]) == Apply(ttl, Run(ttl, ops[..k - 1]), ops[k - 1]);
    if k > g + 1 {
      hide Apply, Run;
      SeenSinceGet(ttl, ops, g, k - 1);
      ApplyKeepsSeen(ttl, Run(ttl, ops[..k - 1]), ops[k - 1], ops[g].id);
      assert ops[g].End() <= ops[k - 1].Start();
    }
  }

  lemma {:induction false} PromptSetsAreFaithful(ttl: int, ops: seq<Op>, gap: int)
    requires Monotone(ops) && SetsFollowGets(ttl, ops, gap) && gap <= ttl
    ensures Faithful(ttl, ops)
  {
    forall k: nat | k < |ops| ensures NoRevivalAt(ttl, ops, k) {
      if ops[k].SetSID? {
        var g: nat :| g < k && FollowsGet(ttl, ops, g, k, gap);
        SeenSinceGet(ttl, ops, g, k);
      }
    }
    LazyStoreIsFaithful(ttl, ops);
  }

  // Between Get and SetBackendSID lie two round trips (initialize and
  // notifications/initialized), each under the client's 60 s timeout; the
  // production store's ttl is 30 minutes. Times in seconds.
  const CLIENT_TIMEOUT := 60
  const PRODUCTION_TTL := 30 * 60

  lemma {:induction false} ProductionIsFaithful(ops: seq<Op>)
    requires Monotone(ops) && SetsFollowGets(PRODUCTION_TTL, ops, 2 * CLIENT_TIMEOUT)
    ensures Faithful(PRODUCTION_TTL, ops)
  {
    PromptSetsAreFaithful(PRODUCTION_TTL, ops, 2 * CLIENT_TIMEOUT);
  }

  // A run that is not faithful: the session idles out at 61, and recording into
  // it at 100 brings it back.
  lemma {:induction false} LateSetRevives()
    ensures var ops := [Mint("s", 0, 0), SetSID("s", "t", "b", 100)];
            Monotone(ops) && Found(60, ops, "s", 100) && !Alive(60, ops, "s", 100)
  {
    var ops := [Mint("s", 0, 0), SetSID("s", "t", "b", 100)];
    assert ops[..1] == [Mint("s", 0, 0)];
    assert [Mint("s", 0, 0)][..0] == [];
    assert Run(60, ops[..1]) == map["s" := Entry(0, 0, map[])];
    assert Life(60, ops[..1], "s") == Some(0);
    assert Run(60, ops) == Recorded(Run(60, ops[..1]), "s", "t", "b", 100);
  }
}
