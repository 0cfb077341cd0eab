/**
 * The backend-host resolver of src/api/api.js: an ordered list of candidate
 * hosts, a provisional default host chosen at load time, a liveness probe per
 * candidate, and the one-shot rewrite of the shared HTTP client's base URL.
 *
 * Network requests are not performed: the outcome of each probe is an input
 * (None when the request threw or timed out, Some(body) otherwise), and the
 * environment (the API host override and the development flag) is passed to
 * the constructor.
 */
module Api {
  import opened Wrappers

  /** Candidate backend hosts in order of preference: loopback, LAN, public. */
  const CandidateHosts: seq<string> :=
    ["http://localhost:8085", "http://10.7.0.1:8085", "https://api.zhougis.app"]

  /** Path segment shared by the probe and by every ordinary request. */
  const ApiPrefix: string := "/api/"

  /** Liveness endpoint, relative to the API prefix. */
  const HandshakePath: string := "user/handshake"

  const DevelopmentHost: string := "http://localhost:8085"
  const ProductionHost: string := "https://api.zhougis.app"

  /** Default headers of the shared client. */
  const JsonHeaders: map<string, string> := map["Content-Type" := "application/json"]

  /** A decoded JSON response body. Numbers are reals; NaN is not modelled. */
  datatype Json =
    | JNull
    | JBool(b: bool)
    | JNumber(n: real)
    | JString(s: string)
    | JArray(items: seq<Json>)
    | JObject(fields: seq<(string, Json)>)

  /** The outcome of one probe: None when the request threw or timed out. */
  type ProbeOutcome = Option<Json>

  /** JavaScript truthiness of a decoded body. */
  predicate Truthy(v: Json)
  {
    match v
    case JNull => false
    case JBool(b) => b
    case JNumber(n) => n != 0.0
    case JString(s) => s != ""
    case JArray(_) => true
    case JObject(_) => true
  }

  /** The host used before resolution when no override is given. */
  function DefaultHost(development: bool): (h: string)
    ensures h in CandidateHosts
    ensures development ==> h == CandidateHosts[0]
    ensures !development ==> h == CandidateHosts[|CandidateHosts| - 1]
  {
    if development then DevelopmentHost else ProductionHost
  }

  /** The host chosen at load time: the override unless it is empty. */
  function InitialHost(envOverride: string, development: bool): (h: string)
    ensures h != ""
    ensures envOverride != "" ==> h == envOverride
    ensures envOverride == "" ==> h in CandidateHosts
  {
    if envOverride != "" then envOverride else DefaultHost(development)
  }

  /** The client base URL for a host: the host followed by the API prefix. */
  function BaseUrl(host: string): (u: string)
    ensures |u| == |host| + |ApiPrefix|
    ensures u[..|host|] == host && u[|host|..] == ApiPrefix
  {
    host + ApiPrefix
  }

  /** The URL a probe of `host` requests: the handshake endpoint under the host's base URL. */
  function ProbeUrl(host: string): (u: string)
    ensures u == BaseUrl(host) + HandshakePath
    ensures u[..|host|] == host && u[|host|..] == "/api/user/handshake"
  {
    host + ApiPrefix + HandshakePath
  }

  /** The URLs requested when probing `hosts` one after another. */
  function ProbeUrls(hosts: seq<string>): (urls: seq<string>)
  {
    seq(|hosts|, k requires 0 <= k < |hosts| => ProbeUrl(hosts[k]))
  }

  /**
   * Whether a probe outcome counts as reachable: a thrown error or timeout
   * never does, and a response does only when its body is the boolean true.
   */
  predicate ProbeSucceeded(outcome: ProbeOutcome)
    ensures ProbeSucceeded(outcome) <==> outcome.Some? && outcome.value == JBool(true)
    ensures ProbeSucceeded(outcome) ==> Truthy(outcome.value)
  {
    match outcome
    case None => false
    case Some(body) => body == JBool(true)
  }

  /** Index of the first successful probe outcome, if any. */
  function FirstReachable(outcomes: seq<ProbeOutcome>): (r: Option<nat>)
    ensures r.Some? ==> r.value < |outcomes| && ProbeSucceeded(outcomes[r.value])
    ensures r.Some? ==> forall j :: 0 <= j < r.value ==> !ProbeSucceeded(outcomes[j])
    ensures r.None? <==> forall j :: 0 <= j < |outcomes| ==> !ProbeSucceeded(outcomes[j])
  {
    if outcomes == [] then None
    else if ProbeSucceeded(outcomes[0]) then Some(0)
    else match FirstReachable(outcomes[1..])
      case None => None
      case Some(i) => Some(i + 1)
  }

  /**
   * The host a resolution selects, given the override, the candidates, one
   * probe outcome per candidate and the host held before the call. The
   * override is consulted inside the walk, so an empty candidate list keeps
   * the current host.
   */
  function Selected(envOverride: string, candidates: seq<string>, outcomes: seq<ProbeOutcome>,
                    current: string): (h: string)
    requires |outcomes| == |candidates|
    ensures h == envOverride || h in candidates || h == current
  {
    if candidates != [] && envOverride != "" then envOverride
    else match FirstReachable(outcomes)
      case Some(i) => candidates[i]
      case None => current
  }

  /** The candidates a resolution probes, in the order it probes them. */
  function ProbedHosts(envOverride: string, candidates: seq<string>,
                       outcomes: seq<ProbeOutcome>): (p: seq<string>)
    requires |outcomes| == |candidates|
    ensures |p| <= |candidates| && p == candidates[..|p|]
    ensures forall j :: 0 <= j < |p| - 1 ==> !ProbeSucceeded(outcomes[j])
  {
    if envOverride != "" then []
    else match FirstReachable(outcomes)
      case Some(i) => candidates[..i + 1]
      case None => candidates
  }

  /**
   * The module state of src/api/api.js: the mutable `baseHost` binding and the
   * configuration of the shared HTTP client, whose `baseURL` is the only field
   * rewritten after construction. `probeLog` records every probe URL requested.
   */
  class ApiClient {
    const envOverride: string
    const development: bool
    const withCredentials: bool
    const headers: map<string, string>
    var baseHost: string
    var baseURL: string
    ghost var probeLog: seq<string>

    /**
     * The client sends credentials and JSON headers, its base URL is always the
     * current host's, and the current host is the override whenever one is set,
     * otherwise a candidate.
     */
    ghost predicate Valid()
      reads this
    {
      && withCredentials
      && headers == JsonHeaders
      && baseURL == BaseUrl(baseHost)
      && (envOverride != "" ==> baseHost == envOverride)
      && (envOverride == "" ==> baseHost in CandidateHosts)
    }

    /** Load-time state: the provisional host and the client built from it. */
    constructor (envOverride: string, development: bool)
      ensures Valid()
      ensures this.envOverride == envOverride && this.development == development
      ensures baseHost == InitialHost(envOverride, development)
      ensures baseURL == BaseUrl(InitialHost(envOverride, development))
      ensures probeLog == []
    {
      this.envOverride := envOverride;
      this.development := development;
      withCredentials := true;
      headers := JsonHeaders;
      baseHost := InitialHost(envOverride, development);
      baseURL := BaseUrl(InitialHost(envOverride, development));
      probeLog := [];
    }

    /** One liveness probe of `host`; `outcome` is what the request produced. */
    method ProbeHost(host: string, outcome: ProbeOutcome) returns (ok: bool)
      modifies this`probeLog
      ensures probeLog == old(probeLog) + [ProbeUrl(host)]
      ensures ok == ProbeSucceeded(outcome)
    {
      var url := ProbeUrl(host);
      probeLog := probeLog + [url];
      ok := ProbeSucceeded(outcome);
    }

    /**
     * Walks the candidates in order, stopping at once for a non-empty override
     * and otherwise at the first candidate whose probe succeeds; keeps the
     * current host when none does; then points the client at the selected host.
     */
    method InitApiHost(outcomes: seq<ProbeOutcome>) returns (finalBase: string)
      requires Valid()
      requires |outcomes| == |CandidateHosts|
      modifies this`baseHost, this`baseURL, this`probeLog
      ensures Valid()
      ensures finalBase == baseHost
      ensures baseHost == Selected(envOverride, CandidateHosts, outcomes, old(baseHost))
      ensures baseURL == BaseUrl(finalBase)
      ensures probeLog == old(probeLog) + ProbeUrls(ProbedHosts(envOverride, CandidateHosts, outcomes))
    {
      var i := 0;
      while i < |CandidateHosts|
        invariant 0 <= i <= |CandidateHosts|
        invariant baseHost == old(baseHost) && baseURL == old(baseURL)
        invariant i > 0 ==> envOverride == ""
        invariant forall j :: 0 <= j < i ==> !ProbeSucceeded(outcomes[j])
        invariant probeLog == old(probeLog) + ProbeUrls(CandidateHosts[..i])
      {
        if envOverride != "" {
          baseHost := envOverride;
          break;
        }
        var ok := ProbeHost(CandidateHosts[i], outcomes[i]);
        assert ProbeUrls(CandidateHosts[..i + 1]) == ProbeUrls(CandidateHosts[..i]) + [ProbeUrl(CandidateHosts[i])];
        if ok {
          baseHost := CandidateHosts[i];
          break;
        }
        i := i + 1;
      }
      finalBase := baseHost;
      baseURL := BaseUrl(finalBase);
    }
  }
}
