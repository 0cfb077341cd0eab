# Backend-host resolution of the map dashboard front-end

This project models the API host resolver of the dashboard's HTTP layer
(`src/api/api.js`). The module has:

- a fixed, ordered list of candidate backend hosts (loopback, LAN, public);
- a provisional host chosen at load time, which is the `VUE_APP_API_HOST`
  override when it is non-empty, and otherwise the deployment-mode default
  (`http://localhost:8085` in development, `https://api.zhougis.app` otherwise);
- a shared HTTP client whose `baseURL` starts as `<provisional host>/api/`,
  with credentials enabled and a JSON `Content-Type` header;
- `probeHost`, which requests `<host>/api/user/handshake`. It reports success
  only when a response arrives and its body is exactly the boolean `true`.
  A thrown error or timeout is a failure;
- `initApiHost`, which walks the candidates in order. A non-empty override
  stops the walk before any probe. Otherwise the first candidate whose probe
  succeeds is kept. When none succeeds, the current host is kept. It then
  writes `<host>/api/` into the client's `baseURL` and returns the host.

Files:

- `wrappers.dfy`: module `Wrappers`, the `Option` type.
- `api.dfy`: module `Api`. It holds the constants, the JSON body type, and
  the pure functions. `FirstReachable`, `Selected` and `ProbedHosts` are the
  reference definitions of the walk. The class `ApiClient` holds the module
  state: the `baseHost` binding, the client's `baseURL`, and the unchanging
  `withCredentials` and `headers`. A ghost `probeLog` records every probe URL
  requested. `ApiClient.InitApiHost` is the loop with early exit. It is proved
  against `Selected` and `ProbedHosts`.
- `api_properties.dfy`: module `ApiProperties`, the lemmas about resolution.

Inputs that the source reads from its environment or from the network are
parameters here:

- The override and the development flag are constructor arguments. An
  undefined override is the empty string, since JavaScript's `||` and `&&`
  treat both as absent.
- Each probe's outcome is an input: one `Option<Json>` per candidate, where
  `None` stands for a thrown error or timeout.

Where the code differs from its own comments or from how it is called, the model follows the code:

- `src/main.js` (lines 1-11) does not call `initApiHost`; the model states what a call does.
- The fallback is the host `baseHost` holds when the call starts. Only on a
  first call is that the load-time host. A second call in which every probe
  fails keeps the first call's result (`ResolveTwice`). The doc comment at
  src/api/api.js:46-48 asks for a single call from the application entry (`main.js`).
- The override is checked inside the loop. With an empty candidate list it
  would never be reached. The result would still be the override, because
  `baseHost` already holds it from load time (`OverrideShortCircuits` covers
  any candidate list).
- A comment at `src/api/api.js:59` says the last public candidate may also
  serve as a fallback. No code implements this. In development mode a total
  miss falls back to `http://localhost:8085`.

## Model

| member | source | states |
|---|---|---|
| `Api.DefaultHost` | src/api/api.js:13-15 | the default host is a candidate: the first (loopback) one in development mode, the last (public) one otherwise |
| `Api.InitialHost` | src/api/api.js:17 | the load-time host is never empty; it is the override when that is non-empty, otherwise a candidate |
| `Api.BaseUrl` | src/api/api.js:19-23 | a base URL is the host followed by exactly the `/api/` prefix |
| `Api.ProbeUrl` | src/api/api.js:37 | a probe of a host requests `<host>/api/user/handshake`, the handshake path under that host's base URL |
| `Api.ProbeSucceeded` | src/api/api.js:36-42 | an outcome succeeds exactly when a response is present and its body is the boolean `true`; a success always has a truthy body |
| `Api.FirstReachable` | src/api/api.js:58-64 | it finds the index of a successful probe with no success before it, and finds none exactly when every probe fails |
| `Api.Selected` | src/api/api.js:51-68 | the selected host is always the override, a candidate, or the host held before the call |
| `Api.ProbedHosts` | src/api/api.js:51-64 | the probed hosts are a prefix of the candidates, in list order, and every probe except possibly the last failed |
| `Api.ApiClient.constructor` | src/api/api.js:17-28 | the load-time state: `baseHost` is the override or the default, `baseURL` is that host plus `/api/`, credentials are on, the JSON header is set, and no probe has been issued |
| `Api.ApiClient.ProbeHost` | src/api/api.js:35-43 | one probe appends exactly the handshake URL of the host to the ghost `probeLog` and answers `ProbeSucceeded` of its outcome |
| `Api.ApiClient.InitApiHost` | src/api/api.js:50-71 | the loop selects `Selected(...)` from the host held on entry, and issues exactly the probes of `ProbedHosts(...)`, in order; `baseURL` becomes the selected host plus `/api/` and the same host is returned; credentials and headers keep their values |
| `ApiProperties.ProbeIsStrict` | src/api/api.js:35-43 | a probe succeeds if and only if a response exists and its body is the boolean `true`; a truthy body of any other value fails |
| `ApiProperties.OverrideShortCircuits` | src/api/api.js:51-56 | with a non-empty override, the override is selected and zero probes are issued, for any candidate list, including an empty one |
| `ApiProperties.FirstSuccessSelected` | src/api/api.js:58-64 | without an override, if candidate i is the first whose probe succeeds, it is selected and exactly candidates 0..i are probed |
| `ApiProperties.ResolutionTrace` | src/api/api.js:51-68 | the converse: without an override, resolution always probes a prefix in which all but the last probe failed; it stops early only on a success; the result is the last probed candidate if that probe succeeded, otherwise the host held before |
| `ApiProperties.AllFailKeepsCurrent` | src/api/api.js:67-68 | without an override and with every probe failing, every candidate is probed and the current host is kept, without error |
| `ApiProperties.AllFailFallsBackToDefault` | src/api/api.js:13-17 | from the load-time state a total miss selects `http://localhost:8085` in development mode, otherwise `https://api.zhougis.app`, after 3 probes |
| `ApiProperties.SelectedIsKnown` | src/api/api.js:4-17 | from the load-time state, for any candidate list, the result is the override, a candidate or the default host |
| `ApiProperties.SelectedIsOverrideOrCandidate` | src/api/api.js:4-8 | for the actual candidate list the result is non-empty and is the override or one of the three candidates |
| `ApiProperties.BaseUrlInjective` | src/api/api.js:69 | the written `baseURL` determines the selected host uniquely |
| `ApiProperties.ProbeUrlUnderBaseUrl` | src/api/api.js:10 | probing and ordinary requests share the `/api/` prefix: the probe URL extends the base URL by `user/handshake` |
| `ApiProperties.ProbeUrlInjective` | src/api/api.js:37 | distinct hosts are probed at distinct URLs |
| `ApiProperties.CandidateProbeUrls` | src/api/api.js:5-6 | the handshake URLs of the loopback and LAN candidates |
| `ApiProperties.LanExample` | src/api/api.js:50-70 | if loopback times out and the LAN host answers `true`, then `http://10.7.0.1:8085` is selected, exactly the two handshake URLs are probed, and `baseURL` is `http://10.7.0.1:8085/api/` |
| `ApiProperties.TruthyBodyExample` | src/api/api.js:39 | bodies `"true"` and `1` are rejected, so the walk continues to the public host |
| `ApiProperties.ResolveTwice` | src/api/api.js:67-70 | a second resolution in which every probe fails returns the host that the first resolution selected |

## Left out

- `axios.get` and its 2000 ms timeout are network I/O; each probe's outcome is an input value instead. Of `axios.create` the model keeps only the configuration fields of `ApiClient`.
- `async`/`await`: the probes run strictly one after another, so a plain loop has the same behaviour.
- Reading `process.env`: the override and the development flag are constructor arguments.
- A falsy `res` from `axios.get`: the library always resolves to a response object or throws, so a probe outcome is either a body or a failure.
- JSON numbers are modelled as reals. NaN is not modelled. It would be falsy and, like every non-`true` body, a failed probe.
- The module exports: the default export captures `baseHost` at load time, while the named export is a live binding. This is module-system behaviour, not resolver behaviour.
- `src/main.js` (framework bootstrap; lines 1-11 do not call the resolver), `src/bus.js` (a global event-bus instance) and `vue.config.js` (dev-server proxy settings) hold no resolver logic.
