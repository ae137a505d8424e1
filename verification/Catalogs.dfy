// One tenant view's cached tool list (internal/proxy/catalog.go).
module Catalogs {
  import opened Wrappers
  import opened TenantRegistry
  import opened ToolSchema
  import opened Wire

  // The answer to tools/list: an error, or a result whose `tools` may be absent.
  datatype Reply<+T> = Failed | Listed(tools: Option<T>)

  // What the backend answers if this call fetches: to initialize, then to tools/list.
  datatype Replies<+T> = Replies(initialize: Option<string>, list: Reply<T>)

  function FetchResult<T>(stateless: bool, r: Replies<T>): Reply<T> {
    if !stateless && r.initialize.None? then Failed else r.list
  }

  function FetchMsgs<T>(b: Backend, credential: string, headers: map<string, string>, r: Replies<T>): seq<Msg> {
    if b.Stateless() then [Post(b, ToolsList, "", credential, headers)]
    else if r.initialize.None? then Handshake(b, credential, None)
    else Handshake(b, credential, r.initialize) + [Post(b, ToolsList, r.initialize.value, credential, headers)]
  }

  lemma {:induction false} FetchIsStatelessSafe<T>(b: Backend, credential: string, headers: map<string, string>,
      r: Replies<T>, m: Msg)
    requires m in FetchMsgs(b, credential, headers, r)
    ensures StatelessSafe(m) && m.backend == b && m.credential == credential
  {
  }

  // tools is None when nothing usable is cached: never fetched, or the last
  // successful answer had no `tools`.
  datatype Cache<+T> = Cache(tools: Option<T>, fetchedAt: int)

  datatype GetResult<+T> = Unavailable | Served(tools: Option<T>)

  predicate Fresh<T>(ttl: int, c: Cache<T>, now: int) {
    c.tools.Some? && now - c.fetchedAt < ttl
  }

  // One get: `now` is read before the fetch, `after` when a fetch succeeded.
  datatype Call<+T> = Call(now: int, reply: Reply<T>, after: int)

  function Step<T>(ttl: int, c: Cache<T>, call: Call<T>): Cache<T> {
    if !Fresh(ttl, c, call.now) && call.reply.Listed? then Cache(call.reply.tools, call.after) else c
  }

  function Answer<T>(ttl: int, c: Cache<T>, call: Call<T>): GetResult<T> {
    if Fresh(ttl, c, call.now) then Served(c.tools)
    else if call.reply.Listed? then Served(call.reply.tools)
    else if c.tools.Some? then Served(c.tools)
    else Unavailable
  }

  // ---- what a fetch and a get are, without the functions above ----

  // The requests of one fetch.
  ghost predicate RightlyFetched<T>(b: Backend, credential: string, headers: map<string, string>, r: Replies<T>,
                                    sent: seq<Msg>)
  {
    var open := Msg(b, Kind.Initialize, None, credential, map[]);
    if b.protocolVersion == "2026-07-28" then sent == [Msg(b, ToolsList, None, credential, headers)]
    else if r.initialize.None? then sent == [open]
    else if r.initialize.value == "" then sent == [open, Msg(b, ToolsList, None, credential, headers)]
    else
      var sid := r.initialize;
      sent == [open, Msg(b, Initialized, sid, credential, map[]), Msg(b, ToolsList, sid, credential, headers)]
  }

  // A fetch fails when tools/list does, and for a stateful backend when initialize does.
  ghost predicate FetchFails<T>(b: Backend, r: Replies<T>) {
    r.list.Failed? || (b.protocolVersion != "2026-07-28" && r.initialize.None?)
  }

  // One get with the clock at `now`, then at `after`: from cache c to cache c'.
  ghost predicate RightlyGot<T>(b: Backend, ttl: int, c: Cache<T>, now: int, r: Replies<T>, after: int, c': Cache<T>,
                                      result: GetResult<T>)
  {
    if c.tools.Some? && now - c.fetchedAt < ttl then result == Served(c.tools) && c' == c
    else if FetchFails(b, r) then c' == c && result == (if c.tools.Some? then Served(c.tools) else Unavailable)
    else c' == Cache(r.list.tools, after) && result == Served(r.list.tools)
  }

  lemma {:induction false} FetchIsRight<T>(b: Backend, credential: string, headers: map<string, string>,
                                           r: Replies<T>)
    ensures RightlyFetched(b, credential, headers, r, FetchMsgs(b, credential, headers, r))
    ensures if FetchFails(b, r) then FetchResult(b.Stateless(), r) == Failed
            else FetchResult(b.Stateless(), r) == r.list
  {
  }

  lemma {:induction false} GetIsRight<T>(b: Backend, ttl: int, c: Cache<T>, now: int, r: Replies<T>, after: int)
    ensures var call := Call(now, FetchResult(b.Stateless(), r), after);
            RightlyGot(b, ttl, c, now, r, after, Step(ttl, c, call), Answer(ttl, c, call))
  {
    FetchIsRight(b, "", map[], r);
  }

  class Catalog {
    const backend: Backend
    const credential: string
    const headers: map<string, string>
    const ttl: int
    var tools: Option<seq<RawTool>>
    var fetchedAt: int

    constructor (backend: Backend, credential: string, headers: map<string, string>, ttl: int)
      ensures this.backend == backend && this.credential == credential && this.headers == headers && this.ttl == ttl
      ensures tools == None
    {
      this.backend, this.credential, this.headers, this.ttl := backend, credential, headers, ttl;
      tools, fetchedAt := None, 0;
    }

    ghost function State(): Cache<seq<RawTool>>
      reads this
    {
      Cache(tools, fetchedAt)
    }

    method Fetch(r: Replies<seq<RawTool>>) returns (reply: Reply<seq<RawTool>>, sent: seq<Msg>)
      ensures reply == FetchResult(backend.Stateless(), r)
      ensures reply == if FetchFails(backend, r) then Failed else r.list
      ensures sent == FetchMsgs(backend, credential, headers, r)
      ensures RightlyFetched(backend, credential, headers, r, sent)
    {
      FetchIsRight(backend, credential, headers, r);
      if backend.Stateless() {
        return r.list, [Post(backend, ToolsList, "", credential, headers)];
      }
      sent := Handshake(backend, credential, r.initialize);
      if r.initialize.None? {
        return Failed, sent;
      }
      sent := sent + [Post(backend, ToolsList, r.initialize.value, credential, headers)];
      reply := r.list;
    }

    method Get(now: int, r: Replies<seq<RawTool>>, after: int)
      returns (result: GetResult<seq<RawTool>>, sent: seq<Msg>)
      modifies this
      ensures var call := Call(now, FetchResult(backend.Stateless(), r), after);
              result == Answer(ttl, old(State()), call) && State() == Step(ttl, old(State()), call)
      ensures sent == if Fresh(ttl, old(State()), now) then [] else FetchMsgs(backend, credential, headers, r)
      ensures RightlyGot(backend, ttl, old(State()), now, r, after, State(), result)
      ensures if old(tools).Some? && now - old(fetchedAt) < ttl then sent == []
              else RightlyFetched(backend, credential, headers, r, sent)
    {
      GetIsRight(backend, ttl, State(), now, r, after);
      FetchIsRight(backend, credential, headers, r);
      if tools.Some? && now - fetchedAt < ttl {
        return Served(tools), [];
      }
      var reply;
      reply, sent := Fetch(r);
      if reply.Failed? {
        if tools.Some? {
          return Served(tools), sent;
        }
        return Unavailable, sent;
      }
      tools := reply.tools;
      fetchedAt := after;
      result := Served(tools);
    }
  }

  // ---- Whole runs of get on one catalog ----

  ghost predicate Monotone<T>(calls: seq<Call<T>>) {
    && (forall i :: 0 <= i < |calls| ==> calls[i].now <= calls[i].after)
    && (forall i, j :: 0 <= i < j < |calls| ==> calls[i].after <= calls[j].now)
  }

  function Run<T>(ttl: int, calls: seq<Call<T>>): Cache<T> {
    if calls == [] then Cache(None, 0)
    else Step(ttl, Run(ttl, calls[..|calls| - 1]), calls[|calls| - 1])
  }

  // Call i went to the backend.
  ghost predicate Fetched<T>(ttl: int, calls: seq<Call<T>>, i: nat)
    requires i < |calls|
  {
    !Fresh(ttl, Run(ttl, calls[..i]), calls[i].now)
  }

  ghost predicate Succeeded<T>(ttl: int, calls: seq<Call<T>>, i: nat)
    requires i < |calls|
  {
    Fetched(ttl, calls, i) && calls[i].reply.Listed?
  }

  // k is the last call before `end` whose fetch succeeded.
  ghost predicate LastSuccess<T>(ttl: int, calls: seq<Call<T>>, end: nat, k: nat)
    requires end <= |calls|
  {
    k < end && Succeeded(ttl, calls, k) && forall j: nat :: k < j < end ==> !Succeeded(ttl, calls, j)
  }

  lemma {:induction false} CacheIsLastSuccess<T>(ttl: int, calls: seq<Call<T>>, end: nat)
    requires end <= |calls|
    ensures (exists k: nat :: LastSuccess(ttl, calls, end, k)
                              && Run(ttl, calls[..end]) == Cache(calls[k].reply.tools, calls[k].after))
            || ((forall k: nat :: k < end ==> !Succeeded(ttl, calls, k)) && Run(ttl, calls[..end]) == Cache(None, 0))
  {
    if end > 0 {
      var n := end - 1;
      CacheIsLastSuccess(ttl, calls, n);
      RunStep(ttl, calls, n);
      hide Run, Succeeded;
      if Succeeded(ttl, calls, n) {
        assert LastSuccess(ttl, calls, end, n);
      } else if k: nat :| LastSuccess(ttl, calls, n, k)
                          && Run(ttl, calls[..n]) == Cache(calls[k].reply.tools, calls[k].after) {
        assert LastSuccess(ttl, calls, end, k);
      }
    }
  }

  // Only a fetch that succeeds changes the cache.
  lemma {:induction false} RunStep<T>(ttl: int, calls: seq<Call<T>>, n: nat)
    requires n < |calls|
    ensures Run(ttl, calls[..n + 1]) == if Succeeded(ttl, calls, n) then Cache(calls[n].reply.tools, calls[n].after)
                                        else Run(ttl, calls[..n])
  {
    assert calls[..n + 1][..n] == calls[..n] && calls[..n + 1][n] == calls[n];
  }

  // What get number i may answer, in terms of the fetches that happened.
  ghost predicate HonestAnswer<T>(ttl: int, calls: seq<Call<T>>, i: nat)
    requires i < |calls|
  {
    match Answer(ttl, Run(ttl, calls[..i]), calls[i])
    case Served(tools) =>
      exists k: nat :: LastSuccess(ttl, calls, i + 1, k) && tools == calls[k].reply.tools
                       && (k == i || calls[i].now - calls[k].after < ttl
                           || (Fetched(ttl, calls, i) && calls[i].reply.Failed?))
    case Unavailable =>
      && Fetched(ttl, calls, i) && calls[i].reply.Failed?
      && forall k: nat :: LastSuccess(ttl, calls, i + 1, k) ==> calls[k].reply.tools.None?
  }

  // Every served list is that of the last successful fetch, and is older than ttl
  // only when this call's own refresh failed; a get fails only when its refresh
  // fails and there is no copy.
  lemma {:induction false} AnswersAreHonest<T>(ttl: int, calls: seq<Call<T>>, i: nat)
    requires i < |calls|
    ensures HonestAnswer(ttl, calls, i)
  {
    CacheIsLastSuccess(ttl, calls, i);
    var c := Run(ttl, calls[..i]);
    if Succeeded(ttl, calls, i) {
      assert LastSuccess(ttl, calls, i + 1, i);
    } else if k: nat :| LastSuccess(ttl, calls, i, k) && c == Cache(calls[k].reply.tools, calls[k].after) {
      assert LastSuccess(ttl, calls, i + 1, k);
      if j: nat :| LastSuccess(ttl, calls, i + 1, j) && calls[j].reply.tools.Some? {
        LastSuccessUnique(ttl, calls, i + 1, j, k);
      }
    }
  }

  lemma {:induction false} LastSuccessUnique<T>(ttl: int, calls: seq<Call<T>>, end: nat, j: nat, k: nat)
    requires end <= |calls| && LastSuccess(ttl, calls, end, j) && LastSuccess(ttl, calls, end, k)
    ensures j == k
  {
  }

  // A refresh that fails leaves the copy as it was.
  lemma {:induction false} FailedRefreshKeepsCopy<T>(ttl: int, calls: seq<Call<T>>, i: nat)
    requires i < |calls| && calls[i].reply.Failed?
    ensures Run(ttl, calls[..i + 1]) == Run(ttl, calls[..i])
  {
    assert calls[..i + 1][..i] == calls[..i] && calls[..i + 1][i] == calls[i];
  }

  // After a fetch that gave a list, the cache is at least as recent until ttl has passed.
  lemma {:induction false} RecentSince<T>(ttl: int, calls: seq<Call<T>>, i: nat, end: nat)
    requires Monotone(calls) && i < end <= |calls|
    requires Succeeded(ttl, calls, i) && calls[i].reply.tools.Some?
    ensures var c := Run(ttl, calls[..end]);
            (c.tools.Some? && c.fetchedAt >= calls[i].after) || calls[end - 1].now - calls[i].after >= ttl
  {
    var n := end - 1;
    assert calls[..end][..n] == calls[..n] && calls[..end][n] == calls[n];
    if n > i {
      RecentSince(ttl, calls, i, n);
      assert calls[n - 1].now <= calls[n - 1].after <= calls[n].now <= calls[n].after;
    }
  }

  // No fetch starts less than ttl after one that gave a list.
  lemma {:induction false} FetchesAreSpaced<T>(ttl: int, calls: seq<Call<T>>, i: nat, j: nat)
    requires Monotone(calls) && i < j < |calls|
    requires Succeeded(ttl, calls, i) && calls[i].reply.tools.Some?
    requires Fetched(ttl, calls, j)
    ensures calls[j].now - calls[i].after >= ttl
  {
    RecentSince(ttl, calls, i, j);
    assert calls[j - 1].now <= calls[j - 1].after <= calls[j].now;
  }

  // n fetches that gave a list span at least (n - 1) * ttl.
  lemma {:induction false} FetchRateBounded<T>(ttl: int, calls: seq<Call<T>>, fetches: seq<nat>)
    requires Monotone(calls) && fetches != []
    requires forall a :: 0 <= a < |fetches| ==>
               fetches[a] < |calls| && Succeeded(ttl, calls, fetches[a]) && calls[fetches[a]].reply.tools.Some?
    requires forall a, b :: 0 <= a < b < |fetches| ==> fetches[a] < fetches[b]
    ensures calls[fetches[|fetches| - 1]].after - calls[fetches[0]].after >= (|fetches| - 1) * ttl
  {
    hide Fetched, Run;
    var n := |fetches| - 1;
    if n > 0 {
      FetchRateBounded(ttl, calls, fetches[..n]);
      FetchesAreSpaced(ttl, calls, fetches[n - 1], fetches[n]);
      assert n * ttl == (n - 1) * ttl + ttl;
    }
  }

  // A successful answer without `tools` is stored as "not known", so the next get
  // fetches again at once, whatever the ttl.
  lemma {:induction false} AbsentToolsAreForgotten<T>(ttl: int, calls: seq<Call<T>>, i: nat)
    requires i + 1 < |calls| && Succeeded(ttl, calls, i) && calls[i].reply.tools.None?
    ensures Run(ttl, calls[..i + 1]).tools.None? && Fetched(ttl, calls, i + 1)
  {
    assert calls[..i + 1][..i] == calls[..i] && calls[..i + 1][i] == calls[i];
  }
}
