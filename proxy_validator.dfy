/** `ProxyValidator`: checks the user's proxy settings by sending one test request
    through each proxy candidate in turn. A candidate that cannot be connected to is
    blacklisted and the next one is tried; any other failure ends the run with a
    message meant for the user, and a failing run stops the proxy session. */
module ProxyValidator {
  import opened Wrappers

  datatype ProxyType = DIRECT | HTTP | SOCKS4 | SOCKS5
  {
    predicate IsSocks() { this == SOCKS4 || this == SOCKS5 }
    predicate IsHttp() { this == HTTP }
  }

  datatype HttpHost = HttpHost(hostName: string, port: int)

  /** One candidate of a PAC answer; `DIRECT` has no host. */
  datatype ProxyInfo = ProxyInfo(proxyType: ProxyType, proxyHost: Option<HttpHost>)

  /** The settings under test (`ProxyConfig`): either a PAC file, whose candidates are
      tried, or one proxy given by type, host and port. */
  datatype ProxyConfig = ProxyConfig(proxyType: ProxyType, autoConfig: bool,
                                     proxyHost: Option<string>, proxyPort: int)

  /** How the test request sent through a proxy ended. */
  datatype ProbeOutcome =
    | StatusReceived(statusCode: int)                 // a response came back
    | HostConnectRefused                              // HttpHostConnectException
    | ConnectTimeout                                  // ConnectTimeoutException
    | UnknownHost                                     // UnknownHostException while executing
    | IOFailure(socksAuthenticationFailed: bool)      // any other IOException
    | RuntimeFailure                                  // a RuntimeException

  /** The transport: what the test request ends with for a proxy type, host and port. */
  type Probe = (ProxyType, Option<string>, int) -> ProbeOutcome

  /** What a validation fails with: `InvalidProxySettingsException` or a runtime exception. */
  datatype ValidationError = InvalidProxySettings(message: string) | Runtime

  /** What the per-proxy test does: returns normally, lets a connect failure through,
      or throws a validation error. */
  datatype ProbeResult = ProbeOk | ConnectFailure | ProbeError(error: ValidationError)

  datatype Validation = Valid | Invalid(error: ValidationError)

  const SC_PROXY_AUTHENTICATION_REQUIRED := 407
  const SC_GATEWAY_TIMEOUT := 504

  const WRONG_PROXY_HOST_PORT := "Wrong proxy host/port"
  const WRONG_USER_PASSWORD := "Wrong user/password"
  const CANNOT_CONNECT_TEST_URL := "Cannot connect to the provided test URL"
  const WRONG_TEST_URL := "Something is wrong with the provided test URL"
  const WRONG_PROXY_HOST := "Wrong proxy host"
  const VALIDATION_ERROR := "Error on validation proxy settings"

  /** The messages the per-proxy test can fail with. */
  predicate IsProbeMessage(m: string)
  {
    m == WRONG_USER_PASSWORD || m == CANNOT_CONNECT_TEST_URL || m == WRONG_TEST_URL ||
    m == WRONG_PROXY_HOST || m == VALIDATION_ERROR
  }

  // ---------------------------------------------------------------------------
  // testProxyConfig(type, host, port): classifying one test request
  // ---------------------------------------------------------------------------

  /** The per-proxy test: a status up to `maxSuccessCode` is success; connect
      failures pass through to the caller; everything else becomes a message. */
  function ClassifyProbe(proxyType: ProxyType, outcome: ProbeOutcome, maxSuccessCode: int): (r: ProbeResult)
    ensures r == ProbeOk <==> outcome.StatusReceived? && outcome.statusCode <= maxSuccessCode
    ensures r == ConnectFailure <==> outcome == HostConnectRefused || outcome == ConnectTimeout
    ensures r == ProbeError(Runtime) <==> outcome == RuntimeFailure
    ensures r.ProbeError? && r.error.InvalidProxySettings? ==> IsProbeMessage(r.error.message)
    ensures r == ProbeError(InvalidProxySettings(WRONG_PROXY_HOST)) <==> outcome == UnknownHost && proxyType.IsHttp()
    ensures outcome == UnknownHost && !proxyType.IsHttp() ==> r == ProbeError(InvalidProxySettings(CANNOT_CONNECT_TEST_URL))
    ensures outcome == IOFailure(true) ==> r == ProbeError(InvalidProxySettings(WRONG_USER_PASSWORD))
    ensures outcome == IOFailure(false) ==> r == ProbeError(InvalidProxySettings(VALIDATION_ERROR))
  {
    match outcome
    case StatusReceived(code) =>
      if code <= maxSuccessCode then ProbeOk
      else if code == SC_PROXY_AUTHENTICATION_REQUIRED then ProbeError(InvalidProxySettings(WRONG_USER_PASSWORD))
      else if code == SC_GATEWAY_TIMEOUT then ProbeError(InvalidProxySettings(CANNOT_CONNECT_TEST_URL))
      else ProbeError(InvalidProxySettings(WRONG_TEST_URL))
    case HostConnectRefused => ConnectFailure
    case ConnectTimeout => ConnectFailure
    case UnknownHost =>
      if proxyType.IsHttp() then ProbeError(InvalidProxySettings(WRONG_PROXY_HOST))
      else ProbeError(InvalidProxySettings(CANNOT_CONNECT_TEST_URL))
    case IOFailure(socksAuthenticationFailed) =>
      if socksAuthenticationFailed then ProbeError(InvalidProxySettings(WRONG_USER_PASSWORD))
      else ProbeError(InvalidProxySettings(VALIDATION_ERROR))
    case RuntimeFailure => ProbeError(Runtime)
  }

  /** The status table for a response that is not a success. */
  lemma StatusClassification(proxyType: ProxyType, code: int, maxSuccessCode: int)
    requires code > maxSuccessCode
    ensures var r := ClassifyProbe(proxyType, StatusReceived(code), maxSuccessCode);
      && (code == 407 ==> r == ProbeError(InvalidProxySettings(WRONG_USER_PASSWORD)))
      && (code == 504 ==> r == ProbeError(InvalidProxySettings(CANNOT_CONNECT_TEST_URL)))
      && (code != 407 && code != 504 ==> r == ProbeError(InvalidProxySettings(WRONG_TEST_URL)))
  {
  }

  /** The per-proxy test of a candidate: its type, its host name and port, or no
      host and port -1. */
  function ProbeCandidate(info: ProxyInfo, probe: Probe, maxSuccessCode: int): (r: ProbeResult)
    ensures var outcome := probe(info.proxyType,
                                 if info.proxyHost.Some? then Some(info.proxyHost.value.hostName) else None,
                                 if info.proxyHost.Some? then info.proxyHost.value.port else -1);
      && (r == ProbeOk <==> outcome.StatusReceived? && outcome.statusCode <= maxSuccessCode)
      && (r == ConnectFailure <==> outcome == HostConnectRefused || outcome == ConnectTimeout)
  {
    match info.proxyHost
    case Some(host) => ClassifyProbe(info.proxyType, probe(info.proxyType, Some(host.hostName), host.port), maxSuccessCode)
    case None => ClassifyProbe(info.proxyType, probe(info.proxyType, None, -1), maxSuccessCode)
  }

  // ---------------------------------------------------------------------------
  // loadPacProxyInfos
  // ---------------------------------------------------------------------------

  /** How evaluating the PAC file for the test URL ended. */
  datatype PacEvaluation =
    | Evaluated(proxyInfos: seq<ProxyInfo>)
    | PacScriptFailure         // PacScriptException
    | TestUrlSyntaxFailure     // URISyntaxException
    | PacFileIOFailure         // IOException
    | PacFileFailure           // PacFileException
    | PacRuntimeFailure        // a RuntimeException

  const PAC_SCRIPT_ERROR := "Error on PAC script execution"
  const INVALID_TEST_URL := "Invalid test URL"
  const CANNOT_LOAD_PAC := "Cannot load the PAC file"
  const INVALID_PAC := "The PAC file seems to be invalid"

  /** `loadPacProxyInfos`: the candidates, or each checked failure of the evaluation
      turned into its message. */
  function LoadPacProxyInfos(evaluation: PacEvaluation): (r: Result<seq<ProxyInfo>, ValidationError>)
    ensures r.Success? <==> evaluation.Evaluated?
    ensures r.Success? ==> r.value == evaluation.proxyInfos
    ensures r == Failure(Runtime) <==> evaluation == PacRuntimeFailure
    ensures evaluation == PacScriptFailure ==> r == Failure(InvalidProxySettings(PAC_SCRIPT_ERROR))
    ensures evaluation == TestUrlSyntaxFailure ==> r == Failure(InvalidProxySettings(INVALID_TEST_URL))
    ensures evaluation == PacFileIOFailure ==> r == Failure(InvalidProxySettings(CANNOT_LOAD_PAC))
    ensures evaluation == PacFileFailure ==> r == Failure(InvalidProxySettings(INVALID_PAC))
    ensures r.Failure? && r.error.InvalidProxySettings? ==>
      r.error.message in {PAC_SCRIPT_ERROR, INVALID_TEST_URL, CANNOT_LOAD_PAC, INVALID_PAC}
  {
    match evaluation
    case Evaluated(proxyInfos) => Success(proxyInfos)
    case PacScriptFailure => Failure(InvalidProxySettings(PAC_SCRIPT_ERROR))
    case TestUrlSyntaxFailure => Failure(InvalidProxySettings(INVALID_TEST_URL))
    case PacFileIOFailure => Failure(InvalidProxySettings(CANNOT_LOAD_PAC))
    case PacFileFailure => Failure(InvalidProxySettings(INVALID_PAC))
    case PacRuntimeFailure => Failure(Runtime)
  }

  /** The four checked failures have four different messages. */
  lemma LoadPacMessagesDistinct(e1: PacEvaluation, e2: PacEvaluation)
    requires !e1.Evaluated? && !e2.Evaluated? && e1 != e2
    ensures LoadPacProxyInfos(e1) != LoadPacProxyInfos(e2)
  {
  }

  // ---------------------------------------------------------------------------
  // testProxyConfig(): the failover run
  // ---------------------------------------------------------------------------

  /** A validation run: how it ended and which candidates it blacklisted, in order. */
  datatype ValidationRun = ValidationRun(outcome: Validation, blacklisted: seq<ProxyInfo>)

  /** The failover loop over `candidates`: the first candidate whose test does not
      fail to connect decides; a connect failure blacklists the candidate when
      another one follows and is "Wrong proxy host/port" on the last. */
  function Failover(candidates: seq<ProxyInfo>, probe: Probe, maxSuccessCode: int): (r: ValidationRun)
    ensures |candidates| == 0 ==> r == ValidationRun(Valid, [])
    ensures |candidates| > 0 ==> |r.blacklisted| < |candidates|
    ensures r.blacklisted == candidates[..|r.blacklisted|]
    ensures r.outcome.Invalid? && r.outcome.error.InvalidProxySettings? ==>
      IsProbeMessage(r.outcome.error.message) || r.outcome.error.message == WRONG_PROXY_HOST_PORT
  {
    if |candidates| == 0 then ValidationRun(Valid, [])
    else
      match ProbeCandidate(candidates[0], probe, maxSuccessCode)
      case ProbeOk => ValidationRun(Valid, [])
      case ProbeError(e) => ValidationRun(Invalid(e), [])
      case ConnectFailure =>
        if |candidates| == 1 then ValidationRun(Invalid(InvalidProxySettings(WRONG_PROXY_HOST_PORT)), [])
        else
          var rest := Failover(candidates[1..], probe, maxSuccessCode);
          assert [candidates[0]] + candidates[1..][..|rest.blacklisted|] == candidates[..|rest.blacklisted| + 1];
          ValidationRun(rest.outcome, [candidates[0]] + rest.blacklisted)
  }

  /** The messages a validation can fail with. */
  predicate IsValidationMessage(m: string)
  {
    IsProbeMessage(m) || m == WRONG_PROXY_HOST_PORT ||
    m == PAC_SCRIPT_ERROR || m == INVALID_TEST_URL || m == CANNOT_LOAD_PAC || m == INVALID_PAC
  }

  /** The whole validation: the PAC candidates' failover run, or the test of the one
      configured proxy, whose connect failure is "Wrong proxy host/port". */
  function ValidateSettings(config: ProxyConfig, evaluation: PacEvaluation, probe: Probe, maxSuccessCode: int): (r: ValidationRun)
    ensures !config.autoConfig ==> r.blacklisted == []
    ensures r.outcome.Invalid? && r.outcome.error.InvalidProxySettings? ==> IsValidationMessage(r.outcome.error.message)
  {
    if config.autoConfig then
      match LoadPacProxyInfos(evaluation)
      case Failure(e) => ValidationRun(Invalid(e), [])
      case Success(candidates) => Failover(candidates, probe, maxSuccessCode)
    else
      var probed := ClassifyProbe(config.proxyType, probe(config.proxyType, config.proxyHost, config.proxyPort), maxSuccessCode);
      ValidationRun(Verdict(probed), [])
  }

  /** The position of the first candidate whose test does not fail to connect, or -1. */
  function FirstDecisive(candidates: seq<ProxyInfo>, probe: Probe, maxSuccessCode: int): (k: int)
    ensures -1 <= k < |candidates|
    ensures forall j :: 0 <= j < (if k == -1 then |candidates| else k) ==>
      ProbeCandidate(candidates[j], probe, maxSuccessCode) == ConnectFailure
    ensures k >= 0 ==> ProbeCandidate(candidates[k], probe, maxSuccessCode) != ConnectFailure
  {
    if |candidates| == 0 then -1
    else if ProbeCandidate(candidates[0], probe, maxSuccessCode) != ConnectFailure then 0
    else
      var k := FirstDecisive(candidates[1..], probe, maxSuccessCode);
      if k == -1 then -1 else k + 1
  }

  /** What a test result means for the run when it is the last word. */
  function Verdict(probed: ProbeResult): Validation
  {
    match probed
    case ProbeOk => Valid
    case ConnectFailure => Invalid(InvalidProxySettings(WRONG_PROXY_HOST_PORT))
    case ProbeError(e) => Invalid(e)
  }

  /** The failover run in closed form: the candidates before the first decisive one
      are blacklisted and that one's test is the outcome; when every candidate fails
      to connect, all but the last are blacklisted and the outcome is "Wrong proxy
      host/port". */
  lemma {:induction false} FailoverCharacterized(candidates: seq<ProxyInfo>, probe: Probe, maxSuccessCode: int)
    requires |candidates| > 0
    ensures var k := FirstDecisive(candidates, probe, maxSuccessCode);
      k >= 0 ==>
        Failover(candidates, probe, maxSuccessCode) ==
        ValidationRun(Verdict(ProbeCandidate(candidates[k], probe, maxSuccessCode)), candidates[..k])
    ensures FirstDecisive(candidates, probe, maxSuccessCode) == -1 ==>
      Failover(candidates, probe, maxSuccessCode) ==
      ValidationRun(Invalid(InvalidProxySettings(WRONG_PROXY_HOST_PORT)), candidates[..|candidates| - 1])
  {
    if ProbeCandidate(candidates[0], probe, maxSuccessCode) == ConnectFailure && |candidates| > 1 {
      var tail := candidates[1..];
      FailoverCharacterized(tail, probe, maxSuccessCode);
      var k := FirstDecisive(tail, probe, maxSuccessCode);
      if k >= 0 {
        assert candidates[..k + 1] == [candidates[0]] + tail[..k];
      } else {
        assert candidates[..|candidates| - 1] == [candidates[0]] + tail[..|tail| - 1];
      }
    }
  }

  /** Candidates are tried in order and blacklisted only for a connect failure; the
      last candidate is never blacklisted. */
  lemma FailoverBlacklistsPrefix(candidates: seq<ProxyInfo>, probe: Probe, maxSuccessCode: int)
    ensures var run := Failover(candidates, probe, maxSuccessCode);
      && |run.blacklisted| < |candidates| + (if |candidates| == 0 then 1 else 0)
      && run.blacklisted == candidates[..|run.blacklisted|]
      && forall j :: 0 <= j < |run.blacklisted| ==>
           ProbeCandidate(candidates[j], probe, maxSuccessCode) == ConnectFailure
  {
    if |candidates| > 0 {
      FailoverCharacterized(candidates, probe, maxSuccessCode);
    }
  }

  /** A non-connect failure of the first candidate ends the run at once, with that
      failure and an untouched blacklist. */
  lemma FailoverStopsOnError(candidates: seq<ProxyInfo>, probe: Probe, maxSuccessCode: int, e: ValidationError)
    requires |candidates| > 0 && ProbeCandidate(candidates[0], probe, maxSuccessCode) == ProbeError(e)
    ensures Failover(candidates, probe, maxSuccessCode) == ValidationRun(Invalid(e), [])
  {
  }

  /** An empty PAC answer validates without testing anything. */
  lemma EmptyCandidatesValid(probe: Probe, maxSuccessCode: int)
    ensures Failover([], probe, maxSuccessCode) == ValidationRun(Valid, [])
  {
  }

  /** Static settings never touch the blacklist, and are valid exactly when the test
      request gets a success status. */
  lemma StaticSettingsNeverBlacklist(config: ProxyConfig, evaluation: PacEvaluation, probe: Probe, maxSuccessCode: int)
    requires !config.autoConfig
    ensures ValidateSettings(config, evaluation, probe, maxSuccessCode).blacklisted == []
    ensures var outcome := probe(config.proxyType, config.proxyHost, config.proxyPort);
      ValidateSettings(config, evaluation, probe, maxSuccessCode).outcome == Valid <==>
      outcome.StatusReceived? && outcome.statusCode <= maxSuccessCode
  {
  }

  /** A refused proxy followed by a working one: the first is blacklisted, the run is
      valid; when both are refused, the run is "Wrong proxy host/port". */
  lemma FailoverScenario(maxSuccessCode: int)
    requires 200 <= maxSuccessCode
    ensures var bad := ProxyInfo(HTTP, Some(HttpHost("badhost", 8080)));
      var good := ProxyInfo(HTTP, Some(HttpHost("goodhost", 3128)));
      var probe: Probe := (t, h, p) => if h == Some("badhost") then HostConnectRefused else StatusReceived(200);
      var refuseAll: Probe := (t, h, p) => HostConnectRefused;
      var authRequired: Probe := (t, h, p) => StatusReceived(407);
      && Failover([bad, good], probe, maxSuccessCode) == ValidationRun(Valid, [bad])
      && Failover([bad, good], refuseAll, maxSuccessCode) ==
           ValidationRun(Invalid(InvalidProxySettings(WRONG_PROXY_HOST_PORT)), [bad])
      && (maxSuccessCode < 407 ==>
           Failover([bad, good], authRequired, maxSuccessCode) ==
             ValidationRun(Invalid(InvalidProxySettings(WRONG_USER_PASSWORD)), []))
  {
    var bad := ProxyInfo(HTTP, Some(HttpHost("badhost", 8080)));
    var good := ProxyInfo(HTTP, Some(HttpHost("goodhost", 3128)));
    assert [bad, good][1..] == [good];
  }

  // ---------------------------------------------------------------------------
  // The stateful side: blacklist, proxy session and the validator
  // ---------------------------------------------------------------------------

  /** `ProxyBlacklist`: the candidates found unreachable, in the order they were added. */
  class ProxyBlacklist {
    var entries: seq<ProxyInfo>

    constructor()
      ensures entries == []
    {
      entries := [];
    }

    method Blacklist(proxyInfo: ProxyInfo)
      modifies this
      ensures entries == old(entries) + [proxyInfo]
    {
      entries := entries + [proxyInfo];
    }
  }

  /** `ProxyController`, as far as validation sees it: how often the proxy session was
      stopped. */
  class ProxyController {
    var sessionStops: nat

    constructor()
      ensures sessionStops == 0
    {
      sessionStops := 0;
    }

    method StopProxySession()
      modifies this
      ensures sessionStops == old(sessionStops) + 1
    {
      sessionStops := sessionStops + 1;
    }
  }

  class ProxyValidator {
    const proxyBlacklist: ProxyBlacklist
    const proxyController: ProxyController

    constructor(proxyBlacklist: ProxyBlacklist, proxyController: ProxyController)
      ensures this.proxyBlacklist == proxyBlacklist && this.proxyController == proxyController
    {
      this.proxyBlacklist := proxyBlacklist;
      this.proxyController := proxyController;
    }

    /** The failover loop of `testProxyConfig()`: tests the candidates in order,
        blacklists a candidate that cannot be connected to when another follows, and
        stops at the first test that decides. */
    method TryCandidates(proxyInfos: seq<ProxyInfo>, probe: Probe, maxSuccessCode: int)
      returns (result: Validation)
      modifies proxyBlacklist
      ensures result == Failover(proxyInfos, probe, maxSuccessCode).outcome
      ensures proxyBlacklist.entries ==
        old(proxyBlacklist.entries) + Failover(proxyInfos, probe, maxSuccessCode).blacklisted
    {
      result := Valid;
      var i := 0;
      assert proxyInfos[..0] == [] && proxyInfos[0..] == proxyInfos;
      while i < |proxyInfos|
        invariant 0 <= i <= |proxyInfos|
        invariant proxyBlacklist.entries == old(proxyBlacklist.entries) + proxyInfos[..i]
        invariant i < |proxyInfos| ==>
          Failover(proxyInfos, probe, maxSuccessCode) ==
          Skipped(proxyInfos[..i], Failover(proxyInfos[i..], probe, maxSuccessCode))
        invariant i == |proxyInfos| ==> |proxyInfos| == 0
      {
        var proxyInfo := proxyInfos[i];
        var probed := ProbeCandidate(proxyInfo, probe, maxSuccessCode);
        if probed.ConnectFailure? && i + 1 < |proxyInfos| {
          FailoverStep(proxyInfos, i, probe, maxSuccessCode);
          proxyBlacklist.Blacklist(proxyInfo);
          i := i + 1;
        } else {
          FailoverDecided(proxyInfos, i, probe, maxSuccessCode);
          result := Verdict(probed);
          break;
        }
      }
    }

    /** `testProxyConfig()`: runs the validation, blacklists what the failover loop
        skips, and stops the proxy session exactly when the run fails. */
    method TestProxyConfig(config: ProxyConfig, evaluation: PacEvaluation, probe: Probe, maxSuccessCode: int)
      returns (result: Validation)
      modifies proxyBlacklist, proxyController
      ensures result == ValidateSettings(config, evaluation, probe, maxSuccessCode).outcome
      ensures proxyBlacklist.entries ==
        old(proxyBlacklist.entries) + ValidateSettings(config, evaluation, probe, maxSuccessCode).blacklisted
      ensures proxyController.sessionStops == old(proxyController.sessionStops) + (if result.Valid? then 0 else 1)
    {
      if config.autoConfig {
        var loaded := LoadPacProxyInfos(evaluation);
        if loaded.Failure? {
          result := Invalid(loaded.error);
        } else {
          result := TryCandidates(loaded.value, probe, maxSuccessCode);
        }
      } else {
        var probed := ClassifyProbe(config.proxyType, probe(config.proxyType, config.proxyHost, config.proxyPort), maxSuccessCode);
        result := Verdict(probed);
      }
      if result.Invalid? {
        proxyController.StopProxySession();
      }
    }
  }

  /** A run that follows the candidates `skipped`, all blacklisted. */
  function Skipped(skipped: seq<ProxyInfo>, run: ValidationRun): (r: ValidationRun)
    ensures r.outcome == run.outcome
    ensures r.blacklisted == skipped + run.blacklisted
  {
    ValidationRun(run.outcome, skipped + run.blacklisted)
  }

  /** A connect failure with another candidate behind it blacklists the candidate and
      moves on. */
  lemma FailoverStep(candidates: seq<ProxyInfo>, i: nat, probe: Probe, maxSuccessCode: int)
    requires i + 1 < |candidates| && ProbeCandidate(candidates[i], probe, maxSuccessCode) == ConnectFailure
    requires Failover(candidates, probe, maxSuccessCode) ==
      Skipped(candidates[..i], Failover(candidates[i..], probe, maxSuccessCode))
    ensures Failover(candidates, probe, maxSuccessCode) ==
      Skipped(candidates[..i + 1], Failover(candidates[i + 1..], probe, maxSuccessCode))
    ensures candidates[..i + 1] == candidates[..i] + [candidates[i]]
  {
    var tail := candidates[i..];
    assert tail[0] == candidates[i] && tail[1..] == candidates[i + 1..];
    var rest := Failover(candidates[i + 1..], probe, maxSuccessCode);
    assert Failover(tail, probe, maxSuccessCode) == ValidationRun(rest.outcome, [candidates[i]] + rest.blacklisted);
    assert candidates[..i + 1] == candidates[..i] + [candidates[i]];
    assert candidates[..i] + ([candidates[i]] + rest.blacklisted) == candidates[..i + 1] + rest.blacklisted;
  }

  /** Any other test result, or a connect failure of the last candidate, is the
      verdict of the run. */
  lemma FailoverDecided(candidates: seq<ProxyInfo>, i: nat, probe: Probe, maxSuccessCode: int)
    requires i < |candidates|
    requires ProbeCandidate(candidates[i], probe, maxSuccessCode) != ConnectFailure || i + 1 == |candidates|
    requires Failover(candidates, probe, maxSuccessCode) ==
      Skipped(candidates[..i], Failover(candidates[i..], probe, maxSuccessCode))
    ensures Failover(candidates, probe, maxSuccessCode) ==
      ValidationRun(Verdict(ProbeCandidate(candidates[i], probe, maxSuccessCode)), candidates[..i])
  {
    assert candidates[i..][0] == candidates[i];
    assert candidates[..i] + [] == candidates[..i];
  }
}
