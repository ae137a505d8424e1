// The requests the proxy sends to backends (internal/proxy/client.go), as values.
module Wire {
  import opened Wrappers
  import opened TenantRegistry

  datatype Kind = Initialize | Initialized | ToolsList | ToolsCall | Teardown

  // `session` is the Mcp-Session-Id header, `credential` and `extra` what
  // applyAuth is given.
  datatype Msg = Msg(
    backend: Backend, kind: Kind, session: Option<string>, credential: string, extra: map<string, string>)

  // post: a stateless backend never gets a session header, an empty session id is
  // not sent.
  function Post(b: Backend, kind: Kind, sessionID: string, credential: string, extra: map<string, string>): Msg {
    Msg(b, kind, if b.Stateless() || sessionID == "" then None else Some(sessionID), credential, extra)
  }

  // teardownBackend sets the session header without looking at the protocol version.
  function TeardownMsg(t: Tenant, sid: string): Msg {
    Msg(t.backend, Teardown, Some(sid), t.EffectiveCredential(), map[])
  }

  // initialize and, when the backend gave a session id, notifications/initialized.
  function Handshake(b: Backend, credential: string, reply: Option<string>): seq<Msg> {
    [Post(b, Initialize, "", credential, map[])]
    + if reply.Some? && reply.value != "" then [Post(b, Initialized, reply.value, credential, map[])] else []
  }

  ghost predicate StatelessSafe(m: Msg) {
    m.backend.Stateless() ==> m.session.None? && !m.kind.Initialize?
  }
}
