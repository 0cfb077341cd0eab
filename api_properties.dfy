/**
 * Properties of host resolution, stated over the specification functions of
 * module Api that ApiClient.InitApiHost is proved against.
 */
module ApiProperties {
  import opened Wrappers
  import opened Api

  /** Only a present body equal to the boolean true is a success; truthy bodies are not enough. */
  lemma ProbeIsStrict(outcome: ProbeOutcome)
    ensures ProbeSucceeded(outcome) <==> outcome == Some(JBool(true))
    ensures ProbeSucceeded(outcome) ==> Truthy(outcome.value)
    ensures outcome.Some? && Truthy(outcome.value) && outcome.value != JBool(true) ==> !ProbeSucceeded(outcome)
  {
  }

  /** A non-empty override is selected with no probe issued, whatever the candidates are. */
  lemma OverrideShortCircuits(envOverride: string, development: bool,
                              candidates: seq<string>, outcomes: seq<ProbeOutcome>)
    requires envOverride != ""
    requires |outcomes| == |candidates|
    ensures Selected(envOverride, candidates, outcomes, InitialHost(envOverride, development)) == envOverride
    ensures ProbedHosts(envOverride, candidates, outcomes) == []
  {
  }

  /**
   * Without an override, the first candidate whose probe succeeds is selected,
   * and exactly the candidates up to and including it are probed.
   */
  lemma FirstSuccessSelected(candidates: seq<string>, outcomes: seq<ProbeOutcome>,
                             current: string, i: nat)
    requires |outcomes| == |candidates|
    requires i < |candidates| && ProbeSucceeded(outcomes[i])
    requires forall j :: 0 <= j < i ==> !ProbeSucceeded(outcomes[j])
    ensures Selected("", candidates, outcomes, current) == candidates[i]
    ensures ProbedHosts("", candidates, outcomes) == candidates[..i + 1]
  {
  }

  /**
   * The converse: without an override, whatever resolution does is a walk
   * over a prefix of the candidates in which every probe but the last failed;
   * the walk stops early only on a success, and the selected host is the last
   * probed candidate when its probe succeeded, otherwise the current host.
   */
  lemma ResolutionTrace(candidates: seq<string>, outcomes: seq<ProbeOutcome>, current: string)
    requires |outcomes| == |candidates|
    ensures var p := ProbedHosts("", candidates, outcomes);
      && p == candidates[..|p|]
      && (forall j :: 0 <= j < |p| - 1 ==> !ProbeSucceeded(outcomes[j]))
      && (|p| < |candidates| ==> |p| > 0 && ProbeSucceeded(outcomes[|p| - 1]))
      && Selected("", candidates, outcomes, current)
         == if |p| > 0 && ProbeSucceeded(outcomes[|p| - 1]) then candidates[|p| - 1] else current
  {
  }

  /**
   * Without an override and with every probe failing, every candidate is
   * probed and the current host is kept; from the load-time state that is the
   * default host of the deployment mode.
   */
  lemma AllFailKeepsCurrent(candidates: seq<string>, outcomes: seq<ProbeOutcome>, current: string)
    requires |outcomes| == |candidates|
    requires forall j :: 0 <= j < |outcomes| ==> !ProbeSucceeded(outcomes[j])
    ensures Selected("", candidates, outcomes, current) == current
    ensures ProbedHosts("", candidates, outcomes) == candidates
  {
  }

  lemma AllFailFallsBackToDefault(development: bool, outcomes: seq<ProbeOutcome>)
    requires |outcomes| == |CandidateHosts|
    requires forall j :: 0 <= j < |outcomes| ==> !ProbeSucceeded(outcomes[j])
    ensures Selected("", CandidateHosts, outcomes, InitialHost("", development))
            == (if development then "http://localhost:8085" else "https://api.zhougis.app")
    ensures |ProbedHosts("", CandidateHosts, outcomes)| == 3
  {
  }

  /** From the load-time state the selected host is the override, a candidate or the default host. */
  lemma SelectedIsKnown(envOverride: string, development: bool,
                        candidates: seq<string>, outcomes: seq<ProbeOutcome>)
    requires |outcomes| == |candidates|
    ensures var h := Selected(envOverride, candidates, outcomes, InitialHost(envOverride, development));
      h == envOverride || h in candidates || h == DefaultHost(development)
  {
  }

  /**
   * For the actual candidate list the default host is itself a candidate, so
   * the selected host is never empty and is the override or a candidate.
   */
  lemma SelectedIsOverrideOrCandidate(envOverride: string, development: bool, outcomes: seq<ProbeOutcome>)
    requires |outcomes| == |CandidateHosts|
    ensures var h := Selected(envOverride, CandidateHosts, outcomes, InitialHost(envOverride, development));
      h != "" && (h == envOverride || h in CandidateHosts)
  {
  }

  /** The base URL determines the host it was built from. */
  lemma BaseUrlInjective(a: string, b: string)
    requires BaseUrl(a) == BaseUrl(b)
    ensures a == b
  {
  }

  /** Probe URLs and base URLs share the API prefix: a probe goes to the handshake under the base URL. */
  lemma ProbeUrlUnderBaseUrl(host: string)
    ensures BaseUrl(host) <= ProbeUrl(host)
    ensures ProbeUrl(host)[|BaseUrl(host)|..] == HandshakePath
  {
  }

  /** Distinct hosts are probed at distinct URLs. */
  lemma ProbeUrlInjective(a: string, b: string)
    requires ProbeUrl(a) == ProbeUrl(b)
    ensures a == b
  {
  }

  /** The handshake URLs of the loopback and LAN candidates. */
  lemma CandidateProbeUrls()
    ensures ProbeUrl(CandidateHosts[0]) == "http://localhost:8085/api/user/handshake"
    ensures ProbeUrl(CandidateHosts[1]) == "http://10.7.0.1:8085/api/user/handshake"
  {
  }

  /** Localhost times out, the LAN host answers true: the LAN host is selected after two probes. */
  lemma LanExample(development: bool)
    ensures var outcomes := [None, Some(JBool(true)), Some(JBool(true))];
      && Selected("", CandidateHosts, outcomes, InitialHost("", development)) == "http://10.7.0.1:8085"
      && ProbeUrls(ProbedHosts("", CandidateHosts, outcomes))
         == ["http://localhost:8085/api/user/handshake", "http://10.7.0.1:8085/api/user/handshake"]
      && BaseUrl(Selected("", CandidateHosts, outcomes, InitialHost("", development)))
         == "http://10.7.0.1:8085/api/"
  {
    var outcomes: seq<ProbeOutcome> := [None, Some(JBool(true)), Some(JBool(true))];
    FirstSuccessSelected(CandidateHosts, outcomes, InitialHost("", development), 1);
    var probed := ProbedHosts("", CandidateHosts, outcomes);
    assert probed == ["http://localhost:8085", "http://10.7.0.1:8085"];
    assert ProbeUrls(probed) == [ProbeUrl(probed[0]), ProbeUrl(probed[1])];
    assert ProbeUrls(probed) == [ProbeUrl(CandidateHosts[0]), ProbeUrl(CandidateHosts[1])];
    CandidateProbeUrls();
  }

  /** A truthy but non-boolean body (the string "true", the number 1) does not select a host. */
  lemma TruthyBodyExample()
    ensures var outcomes := [Some(JString("true")), Some(JNumber(1.0)), Some(JBool(true))];
      && Selected("", CandidateHosts, outcomes, "http://localhost:8085") == "https://api.zhougis.app"
      && |ProbedHosts("", CandidateHosts, outcomes)| == 3
  {
  }

  /**
   * A second resolution in which every probe fails keeps the host the first
   * one selected rather than returning to the default host.
   */
  method ResolveTwice(development: bool, first: seq<ProbeOutcome>, second: seq<ProbeOutcome>)
    returns (h1: string, h2: string)
    requires |first| == |CandidateHosts| && |second| == |CandidateHosts|
    requires forall j :: 0 <= j < |second| ==> !ProbeSucceeded(second[j])
    ensures h1 == Selected("", CandidateHosts, first, DefaultHost(development))
    ensures h2 == h1
  {
    var client := new ApiClient("", development);
    h1 := client.InitApiHost(first);
    h2 := client.InitApiHost(second);
  }
}
