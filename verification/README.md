# A verified model of the gateway's request core

The gateway puts many tenants behind one MCP endpoint: groups authorize, a tenant
selects, a backend executes. This project models the part of it that decides who may
reach what: configuration and the tenant index, client sessions and the backend
sessions opened on their behalf, tool catalogs and their cache, the listing of tools
with a tenant selector, the choice of the tenant of a call, the rewriting of its
arguments and headers, and the two wire codecs. Network effects are values: a request
that leaves the proxy is a `Msg` in a log, a reply is a parameter.

`dafny verify dfyconfig.toml` checks the whole project.

## How it is laid out

| modules | what they are about |
|---|---|
| Configuration, TenantRegistry | defaults, validation, the index, authorization |
| Sessions | the session store as a class, and whole runs of it with a clock |
| Wire, Routing, Lifecycle | requests; initialize, tools/call, DELETE one at a time; whole sequential runs |
| Interleaving, Exclusion, Schedules | the same requests as programs whose steps interleave; when a session is opened once; sequential runs are among them |
| Catalogs, ViewKeys, TenantCatalogs | one cached catalog and runs of it, the sharing key, the set of catalogs |
| JsonTree, JsonSchema, ToolSchema, ToolArguments | JSON, a fragment of JSON Schema 2020-12, selector injection, argument rewriting |
| ToolsListing, Selection, ToolsCall, Agreement | tools/list, selectTenant, tools/call, and that what one advertises the other accepts |
| Headers, ParamHeaders, Utf8, Base64, Sse | header layers, Mcp-Param headers and their encoding, reply bodies |

Objects that the program updates in place (`Store`, `Session`, `Config`, `Catalog`,
`CatalogSet`, `Handler`, `RawTool`, `Header`) are classes; every method is proved
against a function of the old state, and the results about whole runs are lemmas about
those functions. What such a function means is stated once more without it: the predicates
named `Rightly…` and `Right…` say in plain terms what is sent, stored, listed, chosen or written,
the methods promise them, and the lemmas named `…IsRight` prove them of the functions. Go's nil
slice is `None`, an empty one `Some([])`.

## What turned out not to hold as written

- Recording a backend session into a client session that has idled out but was not yet
  reaped brings it back (`Sessions.LateSetRevives`). The store behaves as if idle sessions
  vanished at once exactly in the runs where this does not happen
  (`Sessions.LazyStoreIsFaithful`); the 60 s client timeout against the 30 min ttl rules it
  out in production (`Sessions.ProductionIsFaithful`).
- Two racing calls of one client can both open a backend session for a tenant
  (`Interleaving.RacingCallsOpenTwo`); DELETE then tears down at most one of them
  (`Interleaving.DeleteTearsDownOnce`). Over all interleavings "at most one" holds exactly for
  the tenants of stateless backends (`Exclusion.AtMostOneIffStateless`). It holds in every run in
  which no two calls for one client session and tenant are between the check and the recording
  at once (`Exclusion.ExclusiveCallsOpenOnce`), in particular when requests come one at a time
  (`Lifecycle.SessionsAreConserved`).
- Injecting the selector is exact unless the tool's schema has a top-level `enum` that lists
  an argument object which the rest of the schema accepts: no call that names a tenant can
  then satisfy it (`ToolSchema.InjectionPreservesMeaning`).
- When tenants describe a shared tool differently, the first definition is advertised. All it
  advertises is accepted exactly when that definition only takes arguments that every other
  one takes too, or has such an enum (`Agreement.AgreementIffRepresentative`).
- A backend tool named like the proxy's own `list_instances` is listed but cannot be called
  (`Agreement.LocalToolShadows`).
- Two views can have one catalog key: with a NUL in a backend name or a credential
  (`ViewKeys.NulMakesKeysCollide`), with an `=` in a header name, as in `A=B: c` against
  `A: B=c` (`ViewKeys.EqualsMakesKeysCollide`), or with both in a header name
  (`ViewKeys.NamesMakeKeysCollide`). Equal keys mean equal views, for all tenants whose header
  names are over one alphabet and other strings over another, exactly when those alphabets keep
  the two separators apart (`ViewKeys.KeysTellApartExactly`).
- A successful tools/list answer without `tools` erases the cached copy and counts as "not
  known" (`Catalogs.AbsentToolsAreForgotten`).
- Two spellings of one header name in a layer make the result depend on Go's map order
  (`Headers.OverlayOrder`).
- A payload line that ends in a carriage return loses it (`Sse.FramingRoundTrip`). The end of
  the input closes an event, unlike in section 9.2.6 of the WHATWG HTML Standard.
- One property schema that is neither an object nor null, such as `true`, makes a tool lose all
  its Mcp-Param headers (`ParamHeaders.BooleanSchemaLosesAnnotations`). Every annotation of a
  schema is found exactly when there is no such property or nothing is annotated
  (`ParamHeaders.AnnotationsFoundExactly`).
- Adding `_meta` to params that are `null` panics. A call is forwarded with such params exactly
  when its own are `null` and the caller has a single tenant that has or may have a tool with an
  empty name (`ToolsCall.NullIsForwardedExactly`).
- The comments in internal/session/session.go speak of backend names as the keys of a
  session's backend sessions. They are tenant ids (internal/proxy/handler.go:547-550), and so
  they are here.

## Model

| member | source | states |
|---|---|---|
| Configuration.Config.ApplyDefaults | internal/config/config.go:223-252 | every unset field gets its documented default, on every backend field by field, and nothing set is changed; an explicitly empty scheme stays empty |
| Configuration.Config.Validate | internal/config/config.go:255-312 | accepts if and only if the auth rules hold, there is a backend, names and tenant ids are non-empty and unique across backends, and groups and tenants are non-empty; a refusal names a fault that is there |
| Configuration.CheckBackends | internal/config/config.go:281-311 | the nested loops with `names` and `tenantOwner` decide uniqueness exactly |
| Configuration.CheckTenant | internal/config/config.go:300-309 | one tenant's checks pass exactly when its id is set and new and it has groups |
| Configuration.CheckTenants | internal/config/config.go:299-309 | the inner loop finds any redeclared tenant id, with the backend that declared it first |
| Configuration.JustifiedRejects | internal/config/config.go:255-312 | each error's claim contradicts being a usable configuration |
| TenantRegistry.New | internal/registry/registry.go:79-129 | accepts if and only if every URL is absolute, tenant ids are distinct and some tenant is declared; the index then holds exactly the declared ids, each with its groups, headers and credential and the backend that declared it, field by field |
| TenantRegistry.IndexIsRight | internal/registry/registry.go:81-125 | groups, headers and credentials survive, and an unset header, scheme or version gets its default, for every backend and tenant |
| TenantRegistry.ValidatedIsAccepted | internal/registry/registry.go:76-129 | what Validate accepts and has absolute URLs is accepted by New |
| TenantRegistry.IndexIsWellFormed | internal/registry/registry.go:79-129 | ids map one to one onto declarations, and each tenant's backend is among the registry's own |
| TenantRegistry.Start | internal/config/config.go:138-154 | defaults, validation and index in sequence succeed exactly on usable configurations and give a well-formed registry |
| TenantRegistry.IsAuthorized | internal/registry/registry.go:191-202 | true if and only if the tenant's and the caller's groups meet |
| TenantRegistry.Registry.AuthorizedTenants | internal/registry/registry.go:172-188 | the strictly id-sorted list of exactly the registered tenants the groups authorize |
| TenantRegistry.AuthorizedListUnique | internal/registry/registry.go:169-188 | there is one such list, whatever the map's iteration order |
| Strings.LessMeans | internal/registry/registry.go:186-186 | the order of ids: the first difference decides, a prefix comes first |
| TenantRegistry.Registry.AllStateless | internal/registry/registry.go:142-149 | true if and only if there is a backend and all have protocol version 2026-07-28 |
| TenantRegistry.Registry.Tenants | internal/registry/registry.go:152-158 | each registered tenant once |
| Sessions.Store.ReapLocked | internal/session/session.go:113-123 | drops exactly the sessions whose last use is more than ttl before now, none when ttl is not positive |
| Sessions.Store.Mint | internal/session/session.go:51-64 | reaps, then adds one fresh session; the other sessions are the same objects |
| Sessions.Store.Get | internal/session/session.go:68-78 | finds the session if and only if it is stored and was last used at most ttl ago; gives and refreshes the stored object and keeps all others that are within ttl |
| Sessions.Store.SetBackendSID | internal/session/session.go:82-89 | records under one tenant of one stored session, changes nothing for an unknown one |
| Sessions.Store.Delete | internal/session/session.go:93-102 | removes that session only and returns it, without reaping |
| Sessions.Store.Len | internal/session/session.go:105-110 | the number of sessions that survive reaping |
| Sessions.LazyStoreIsFaithful | internal/session/session.go:51-123 | over any run with a monotone clock Get finds exactly the sessions minted, not deleted and never idle longer than ttl, by their own arithmetic, if and only if nothing is recorded into a session that has idled out |
| Sessions.PromptSetsAreFaithful | internal/session/session.go:51-123 | the proviso holds when every SetBackendSID comes within ttl of a successful Get |
| Sessions.ProductionIsFaithful | internal/proxy/client.go:38-40 | two round trips under the 60 s client timeout stay within the 30 min ttl |
| Sessions.LateSetRevives | internal/session/session.go:82-89 | a late SetBackendSID brings an expired session back |
| Routing.Handler.HandleInitialize | internal/proxy/handler.go:187-202 | mints one session, or none when every backend is stateless |
| Routing.Handler.BackendSession | internal/proxy/handler.go:547-566 | the recorded backend session, or a handshake whose id is recorded under the tenant |
| Routing.Handler.RouteToBackend | internal/proxy/handler.go:522-579 | case by case what is sent, stored and answered: to a stateless backend one tools/call without session; nothing for an idle or unknown client session; with the recorded id if there is one; else initialize, and after it notifications/initialized and tools/call with the id it gave; always with the tenant's own credential, or the backend's if it has none |
| Routing.RouteIsRight | internal/proxy/handler.go:522-579 | the same of the specification, for every store, tenant, reply and clock |
| Routing.Handler.HandleDelete | internal/proxy/handler.go:583-599 | the session leaves the store and each recorded non-empty backend session is torn down once, with its own id, backend and credential, in any tenant order; nothing is sent for an unknown session or when all backends are stateless |
| Routing.Handler.TearDown | internal/proxy/handler.go:590-596 | the loop over the tenants sends exactly the teardowns of the recorded sessions |
| Routing.TeardownsAreRight | internal/proxy/handler.go:590-612 | the teardowns are exactly those of the recorded sessions, each carrying the recorded id |
| Lifecycle.RunsKeepInv | internal/proxy/handler.go:522-612 | the accounting of handshakes, recorded sessions and teardowns is an invariant of every sequential run |
| Lifecycle.SessionsAreConserved | internal/proxy/handler.go:547-599 | at most one successful handshake per client session and tenant, recorded keys are registered stateful tenants, and what was opened is torn down exactly once if the session is deleted and never otherwise |
| Lifecycle.SecondDeleteIsSilent | internal/session/session.go:93-102 | a second DELETE sends and changes nothing |
| Lifecycle.StatelessBackendsStaySessionless | internal/proxy/handler.go:583-612 | over every run a stateless backend gets no initialize and no session id, from calls, fetches or DELETE; with only such backends the store stays empty |
| Catalogs.FetchIsStatelessSafe | internal/proxy/catalog.go:204-218 | every request of a fetch goes to the catalog's backend with its credential, sessionless when stateless |
| Interleaving.RunsAreSafe | internal/proxy/handler.go:540-612 | the safety invariant holds after every step of every interleaving of calls, fetches, DELETEs and reaping |
| Interleaving.Isolation | internal/proxy/handler.go:540-612 | every request goes to its tenant's backend with its tenant's own credential, or the backend's if it has none; at a stateful backend every call, fetch, notification and teardown carries the session id that an earlier handshake gave the same client session and tenant, with the same backend and credential; nothing else carries one |
| Interleaving.CredentialsStayApart | internal/registry/registry.go:58-65 | tenants with different credentials of their own never share one on the wire, in any run |
| Interleaving.NoSharedBackendSession | internal/proxy/handler.go:547-566 | if no backend grants a non-empty id twice, no backend session is used for two client sessions or tenants |
| Interleaving.DeleteTearsDownOnce | internal/proxy/handler.go:583-612 | a DELETE that ran to its end has torn down each recorded session exactly once, with the recorded id, whatever interleaved with it |
| Interleaving.StatelessUnderInterleaving | internal/proxy/handler.go:527-538 | the sessionlessness of stateless backends survives interleaving |
| Interleaving.RacingCallsOpenTwo | internal/proxy/handler.go:550-565 | for any stateful tenant there is an interleaving of two calls that opens two sessions |
| Exclusion.AtMostOneIffStateless | internal/proxy/handler.go:550-565 | every interleaving opens at most one session per client session for a tenant if and only if its backend is stateless |
| Exclusion.ExclusiveCallsOpenOnce | internal/proxy/handler.go:550-565 | at most one handshake for a client session and tenant succeeds in every run where its calls are never in the check-then-open window together, whatever else interleaves |
| Schedules.SequentialRunIsInterleaving | internal/proxy/handler.go:522-599 | every sequential run is one of the interleavings, with the same requests sent and the same sessions stored |
| Catalogs.Catalog.Get | internal/proxy/catalog.go:165-184 | from the backend's two answers: the copy while it is younger than ttl; else the fetched list, kept with the time after the fetch; on failure the old copy, or an error without one |
| Catalogs.Catalog.Fetch | internal/proxy/catalog.go:204-218 | a stateless backend is only asked tools/list, whatever initialize would have answered; a stateful one first initialize, and tools/list with the id it gave; the fetch fails when one that was asked fails |
| Catalogs.FetchIsRight | internal/proxy/catalog.go:204-218 | the requests and the result of every fetch, from the answers |
| Catalogs.GetIsRight | internal/proxy/catalog.go:165-184 | the answer and the new cache state of every get, from the answers |
| Catalogs.CacheIsLastSuccess | internal/proxy/catalog.go:165-184 | over any run the cache holds the result of the last successful fetch, or nothing if there was none |
| Catalogs.AnswersAreHonest | internal/proxy/catalog.go:165-184 | each get serves the last successful fetch's list, older than ttl only if this call's refresh failed; it fails only when its refresh fails and there is no copy |
| Catalogs.FailedRefreshKeepsCopy | internal/proxy/catalog.go:172-178 | a failed refresh never loses the copy |
| Catalogs.FetchesAreSpaced | internal/proxy/catalog.go:168-171 | after a fetch that gave a list none starts before ttl has passed |
| Catalogs.FetchRateBounded | internal/proxy/catalog.go:165-184 | n fetches that gave a list span at least (n - 1) times ttl |
| Catalogs.AbsentToolsAreForgotten | internal/proxy/catalog.go:179-194 | an answer without `tools` reads as "not known", so the next get fetches again |
| ViewKeys.ViewKey | internal/proxy/catalog.go:74-86 | the key is the backend name, the credential and the headers in name order, joined by NUL |
| ViewKeys.KeySpelledOut | internal/proxy/catalog.go:74-86 | the key character by character, with canonical names and the credential in use |
| ViewKeys.JoinInjective | internal/proxy/catalog.go:74-86 | NUL-joined parts without NUL can be told apart |
| ViewKeys.ViewKeyInjective | internal/proxy/catalog.go:74-86 | equal keys mean the same backend name, credential and canonical headers, for tenants without NUL outside header names and without `=` in them |
| ViewKeys.PlainKeyInjective | internal/proxy/catalog.go:74-86 | the same for tenants without NUL anywhere and without `=` in header values, whatever their header names |
| ViewKeys.KeysTellApartExactly | internal/proxy/catalog.go:74-86 | over any two alphabets, equal keys mean equal views for all tenants if and only if no text has a NUL, and header names have no `=` unless no text has one and no header name a NUL |
| ViewKeys.NulMakesKeysCollide | internal/proxy/catalog.go:81-84 | a NUL in a backend name or credential gives two views one key |
| ViewKeys.EqualsMakesKeysCollide | internal/proxy/catalog.go:83-84 | an `=` can end a header name or belong to it: two views, one key, for all such splits |
| ViewKeys.NamesMakeKeysCollide | internal/proxy/catalog.go:83-84 | one header name with both separators reads like two headers |
| TenantCatalogs.NewCatalogs | internal/proxy/catalog.go:55-71 | every tenant gets a catalog, two tenants the same one exactly when their keys are equal, built from the first by id of the tenants with that key and with that tenant's own credential, or the backend's if it has none; `unique` lists each once |
| TenantCatalogs.SharedFetchIsPrivateFetch | internal/proxy/catalog.go:46-71 | the fetch of a tenant with the same key sends for a tenant what its own would, header by header on the wire, with the same result |
| TenantCatalogs.CatalogsFetchPrivately | internal/proxy/catalog.go:55-71 | the catalogs NewCatalogs builds fetch for every registered tenant what a catalog of its own would, with its own credential, and tenants with different credentials of their own get different ones |
| TenantCatalogs.CredentialsKeepCatalogsApart | internal/proxy/catalog.go:46-71 | tenants with different credentials of their own never share a catalog |
| TenantCatalogs.CatalogSet.ToolsFor | internal/proxy/catalog.go:113-132 | gets the tenants' catalogs one after the other from the backends' answers, shared ones repeatedly; serves exactly those that succeed, in tenant order; fails only when none does and one failed |
| TenantCatalogs.CatalogSet.CachedTool | internal/proxy/catalog.go:138-153 | three-valued: the first cached tool of that name, known to be absent, or not known |
| ToolSchema.CloneTool | internal/proxy/schema.go:26-34 | a new object with the same fields |
| ToolSchema.InjectTenantArg | internal/proxy/schema.go:53-85 | only the schema changes; in it only `tenant` among the properties, which becomes the selector, and when required the required list, which keeps its names and gains `tenant` |
| ToolSchema.InjectedIsRight | internal/proxy/schema.go:53-85 | the same of the specification, for every tool and selector |
| ToolSchema.SelectorIsRight | internal/proxy/schema.go:39-49 | the selector is a string, with the ids as its enum in order if there are any |
| ToolSchema.FreeSelectorMeans | internal/proxy/handler.go:282-284 | for callers without a valid token the selector takes any string, and the rest must satisfy the original schema |
| ToolSchema.InjectionSound | internal/proxy/schema.go:39-85 | arguments valid for the injected schema name an offered tenant and, without it, are valid for the original |
| ToolSchema.InjectionPreservesMeaning | internal/proxy/schema.go:39-85 | valid for the injected schema if and only if `tenant` is well typed, offered, present when required, and the rest is valid for the original: for all arguments exactly when the schema enumerates no argument object |
| ToolSchema.EnumeratedObjectIsLost | internal/proxy/schema.go:53-85 | with such an enum a call that should be valid is not |
| ToolArguments.StripTenantArg | internal/proxy/schema.go:120-143 | refuses params or arguments that are neither object nor null, passes params without a selector through, and otherwise removes the selector and keeps everything else |
| ToolArguments.ExtractMeans | internal/proxy/schema.go:98-115 | a call names a tenant exactly when its arguments are an object with a non-empty string under `tenant` |
| ToolArguments.InjectMeta | internal/proxy/schema.go:154-161 | sets `_meta` and keeps every sibling, starting from an empty object when there are no params; null params panic |
| ToolArguments.StripLaws | internal/proxy/schema.go:120-143 | after stripping there is no selector, every other argument and field is kept, and stripping again does nothing |
| ToolArguments.StripUndoesAdding | internal/proxy/schema.go:120-143 | stripping undoes adding a tenant |
| ToolArguments.StripCommutesWithMeta | internal/proxy/schema.go:120-161 | stripping and adding `_meta` commute, errors included |
| ToolArguments.ForwardsDifferOnlyInMeta | internal/proxy/client.go:188-205 | the stateful and the stateless forward of one call differ only in `_meta` |
| ToolsListing.UnionViews | internal/proxy/handler.go:262-276 | the union loops compute the names in order, the definitions and the tenants of the flattened views |
| ToolsListing.HandleToolsList | internal/proxy/handler.go:262-290 | each name once, then list_instances; every listed tool keeps its name and every field but the schema of its first definition, unchanged for one tenant, with a selector of its tenants for several and a free one for none; no cached tool is changed |
| ToolsListing.ListingIsRight | internal/proxy/handler.go:278-292 | the same of the specification, for every set of views and number of tenants |
| ToolsListing.FlattenIsRight | internal/proxy/handler.go:266-276 | the loops see the views in order and each view's tools in order |
| ToolsListing.TenantsHavingAt | internal/proxy/handler.go:274-284 | the selector's tenants are those of the views that have the tool, at increasing positions |
| ToolsListing.FirstIsFirst | internal/proxy/handler.go:266-273 | the definition listed is that of the first tenant that has the tool |
| ToolsListing.OrderMembers | internal/proxy/handler.go:262-276 | a name is listed if and only if some view has it |
| ToolsListing.OrderIsFirstSeen | internal/proxy/handler.go:262-276 | names come in the order of first appearance, none twice |
| ToolsListing.HavingIsTenants | internal/proxy/handler.go:274-284 | the selector lists exactly the tenants that have the tool, in caller order |
| Selection.SelectTenant | internal/proxy/handler.go:441-477 | in plain terms for every call: the named tenant, or the one that has or may have the tool; else which refusal, and exactly which tenants it offers, each once and in order |
| Selection.SelectIsRight | internal/proxy/handler.go:441-508 | the same of the specification, for every cache state |
| Selection.TenantsWithTool | internal/proxy/handler.go:481-489 | the tenants that have or may have the tool, in order |
| Selection.Unavailable | internal/proxy/handler.go:493-508 | refuses only a tenant known not to have the tool and names the caller's others that have or may have it |
| Selection.TenantListOf | internal/proxy/handler.go:628-635 | the offered ids, sorted |
| Selection.SelectionIsAuthorized | internal/proxy/handler.go:441-508 | every tenant chosen and every tenant a refusal offers is one the caller's groups authorize |
| Selection.RefusalsAreInformed | internal/proxy/handler.go:436-508 | a tool is refused as unavailable only where a cached catalog lacks it: a cold cache never refuses |
| Selection.CandidatesShrink | internal/proxy/handler.go:481-489 | filling in cold catalogs only removes candidates |
| Selection.CandidatesWhenAllKnown | internal/proxy/handler.go:481-489 | with all catalogs known the candidates are the tenants tools/list names |
| ToolsCall.HandleToolsCall | internal/proxy/handler.go:313-397 | invalid params, the instances, the refusal, invalid arguments, or the tenant and stripped params to forward, each exactly when the source says |
| ToolsCall.AnswerIsRight | internal/proxy/handler.go:350-393 | the same of the specification, for every params and cache state |
| ToolsCall.ForwardsAreClean | internal/proxy/handler.go:362-393 | a forwarded call goes to an authorized tenant that has or may have the tool, names the same tool and carries the same arguments without the selector |
| ToolsCall.NullIsForwardedExactly | internal/proxy/schema.go:120-161 | exactly when a call is forwarded with null params, which injectMeta does not survive |
| Agreement.AdvertisedIsAccepted | internal/proxy/handler.go:243-297 | for a caller with several tenants every call that satisfies the advertised schema is forwarded to a tenant that has the tool, with arguments that tenant's own schema accepts |
| Agreement.AgreementIffRepresentative | internal/proxy/handler.go:262-290 | this holds for all calls of a tool if and only if the listed definition's arguments are accepted by every tenant that has the tool, or the listed schema enumerates argument objects |
| Agreement.EqualSchemasAreRepresentative | internal/proxy/handler.go:262-290 | equal schemas are enough |
| Agreement.RequiredIffAmbiguous | internal/proxy/handler.go:278-287 | the selector is required exactly when a call that names no tenant is refused as ambiguous |
| Agreement.SingleTenantIsAccepted | internal/proxy/handler.go:459-466 | a caller with one tenant sees its schemas, and a call that satisfies one is forwarded unchanged |
| Agreement.LocalToolShadows | internal/proxy/handler.go:362-368 | a backend tool named list_instances is never reached |
| Headers.Header.SetAll | internal/proxy/client.go:59-64 | setting a map of headers in any order gives each name one of its values and leaves the others |
| Headers.Header.ApplyAuth | internal/proxy/client.go:51-65 | the credential, then the backend's headers, then the request's |
| Headers.OverlayOrder | internal/proxy/client.go:59-64 | the result is independent of the map's iteration order if and only if no name is spelled two ways with two values |
| Headers.LastLayerWins | internal/proxy/client.go:51-65 | each header that reaches the backend comes from the last layer that defines it; the credential comes after its scheme and a space, or alone |
| Headers.CanonMeans | internal/proxy/client.go:57-64 | canonical names: capitals at the start and after hyphens, small letters elsewhere; what is not a token is left alone |
| Headers.LayersDetermine | internal/proxy/client.go:51-65 | with unambiguous layers the headers are determined |
| Headers.PostHeaders | internal/proxy/client.go:72-98 | the fixed headers, name by name and per protocol version, lie under all layers |
| Headers.FixedIsRight | internal/proxy/client.go:83-96 | content type and accept always; version, method and name for stateless backends; the session id for stateful ones |
| Headers.SessionHeaderOnTheWire | internal/proxy/client.go:86-96 | the session header is the call's session id, and a stateless backend sees none, unless configured headers redefine it |
| Headers.MergeHeaders | internal/proxy/paramheaders.go:134-145 | later maps win on equal names, nil when nothing is defined |
| Headers.MergedMeans | internal/proxy/paramheaders.go:134-145 | each name has the value of the last map that has it |
| ParamHeaders.ParamHeadersForTool | internal/proxy/paramheaders.go:41-79 | the headers are those that annotated arguments project, each with a value projected onto it, in any property order |
| ParamHeaders.ParamHeadersForCall | internal/proxy/handler.go:427-433 | only a cached definition is used; none when it is absent or not known |
| ParamHeaders.AnnotationsFoundExactly | internal/proxy/paramheaders.go:28-49 | the decoder finds every annotation of a tool's schema if and only if all property schemas are objects or null, or none is annotated |
| ParamHeaders.BooleanSchemaLosesAnnotations | internal/proxy/paramheaders.go:46-49 | a tool with one boolean property schema loses its annotation, and no call projects a header |
| ParamHeaders.ParamHeadersExact | internal/proxy/paramheaders.go:41-79 | a property the schema annotates yields a header with the encoded value exactly for a non-null argument that renders, if all property schemas decode, and never if one does not |
| ParamHeaders.ParamHeaderOnTheWire | internal/proxy/client.go:51-65 | it reaches the backend over any tenant, backend or credential header of the same name |
| ParamHeaders.TextRoundTrip | internal/proxy/paramheaders_test.go:221-232 | decoding the encoding gives back every string |
| ParamHeaders.EncodeTextExactly | internal/proxy/paramheaders.go:103-128 | text is sent as it is if and only if it is visible ASCII and inner spaces and does not read as escaped; else as Base64 of its UTF-8 form in the escape |
| ParamHeaders.TextIsFieldSafe | internal/proxy/paramheaders.go:103-128 | the encoding is visible ASCII and inner spaces, without edge whitespace (section 5.5 of RFC 9110) |
| ParamHeaders.ValueRoundTrip | internal/proxy/paramheaders.go:85-108 | strings, booleans and integers up to 2^53 - 1 in magnitude, and nothing else in that range, are rendered, and read back exactly |
| ParamHeaders.IntRoundTrip | internal/proxy/paramheaders.go:97-101 | decimal digits stand for exactly the integer and need no escape |
| ParamHeaders.FormatIsDecimal | internal/proxy/paramheaders.go:97-101 | the digits are decimal, stand for the number, and have no leading zero |
| ParamHeaders.FormatIntSigned | internal/proxy/paramheaders.go:97-101 | a minus sign before the digits exactly for negative numbers |
| Base64.RoundTrip | internal/proxy/paramheaders.go:105-107 | the inverse of the encoding of section 4 of RFC 4648 |
| Base64.EncodeIsRight | internal/proxy/paramheaders.go:105-107 | each three bytes become the four digits of their 24 bits in the standard alphabet, the last group padded |
| Base64.EncodedIsVisible | internal/proxy/paramheaders.go:105-107 | encoded text uses the alphabet and padding only |
| Utf8.RoundTrip | internal/proxy/paramheaders.go:106-106 | the bytes of a string stand for that string only |
| Utf8.EncodeCharIsRight | internal/proxy/paramheaders.go:106-106 | the bytes are those of section 3 of RFC 3629 |
| Sse.DecodeSSE | internal/proxy/mcp.go:82-114 | the scanner's loop refines: parse all events, take the first with data |
| Sse.PayloadIffData | internal/proxy/mcp.go:92-114 | there is a payload if and only if some line begins with `data:` |
| Sse.DecodeBody | internal/proxy/mcp.go:70-79 | the content type alone selects the framing |
| Sse.MentionsMeans | internal/proxy/mcp.go:71-71 | the content type selects the framing when it contains the name anywhere |
| Sse.FramedIsScanned | internal/proxy/mcp.go:82-114 | a payload framed as data lines, after any other lines and before anything, decodes to its lines without their trailing carriage returns |
| Sse.FramingRoundTrip | internal/proxy/mcp.go:82-114 | it decodes to exactly that payload if and only if none of its lines ends in a carriage return; the end of the input also closes the event |
| Sse.FinalNewlineIsOptional | internal/proxy/mcp.go:93-114 | a last line without a newline reads as with one |

## Left out

- HTTP: sockets, status codes, real timeouts, tracing, metrics, logging and health checks. A backend call is a nondeterministic reply, time an integer given by the caller.
- Verification of the caller's token: calls start from a verified list of groups; auth errors of tools/call and the unauthenticated listing's group lookup are not part of this model.
- JSON and YAML as bytes: documents are trees with unique, exactly matched keys. Go's case-insensitive struct matching, whitespace and HTML escaping are outside; so is what becomes of a number's spelling.
- Environment references in the configuration (expandRefs) and PEM loading.
- Random session ids: Mint is given an id that is not in use.
- ParamHeaders.Rendered: numbers outside the int64 range are a parameter, because Go leaves the float conversion there to the platform.
- Sse.DecodeSSE: lines above the scanner's 16 MiB limit and read errors are not modelled.
- JsonSchema.Valid: boolean schemas and the keywords type, enum, required, properties and additionalProperties are interpreted, as `JsonSchema.ValidMeans` says; other keywords are not.
- ToolSchema.TenantSchema: descriptions are shortened; no property depends on them. Refusals keep the ids they offer, not their wording.
- The serverInfo and discover results, the warm-up loop over all catalogs, and the text of list_instances: constant answers, and a loop over the modelled get.
- Base64.Decode: line breaks inside encoded text, which Go's decoder skips, are refused.
- Lifecycle and Interleaving: backend sessions opened by catalog fetches are never closed by the program; they are in the log but not in the accounts of client sessions.
- Interleaving: goroutine scheduling of teardowns is their order in the log; the unlocked read of a session object is one atomic step.
- ViewKeys.ViewKeyInjective: the converse is not claimed. Two spellings of a header name can give two keys to one view, which only costs a second fetch.
- TenantCatalogs.NewCatalogs: the keys are computed in a loop of their own before the loop that shares catalogs.
- The locks of catalogs: gets on one catalog come one after the other, which is what its mutex enforces.
