/** The four shipped calibration rules, their gates, and what follows from their numbers. */
module CalibrationPipeline {
  import opened Orders
  import opened Findings
  import opened RootCauses
  import opened VerdictCalibration
  import opened CalibrationOrder

  const TIER1_DECLARED_NETWORK_ROLLBACK := -10
  const TIER2_CAPABILITY_MISMATCH_ROLLBACK := -8
  const TIER3_INTERNAL_NETWORK_ROLLBACK := -12
  const TIER4_REMOTE_MCP_NO_AUTH_ROLLBACK := -6

  function CalibratedRuleIds(): seq<string> {
    ["DECLARED_PERMISSION_NETWORK_ACCESS",
     "CAPABILITY_PERMISSION_MISMATCH",
     "INTERNAL_NETWORK_ACCESS",
     "MCP_NO_AUTH_MODEL",
     "OFFICIAL_MCP_NO_AUTH_REMOTE_ENDPOINT"]
  }

  function Tier1(): CalibrationRule {
    CalibrationRule(
      ["DECLARED_PERMISSION_NETWORK_ACCESS"], ["DECLARED_PERMISSION_NETWORK_ACCESS"],
      TIER1_DECLARED_NETWORK_ROLLBACK, false, "downgraded_to_context", "remains_context_only",
      BlastRadiusContext,
      "DECLARED_PERMISSION_NETWORK_ACCESS")
  }

  function Tier2(): CalibrationRule {
    CalibrationRule(
      ["CAPABILITY_PERMISSION_MISMATCH"], ["CAPABILITY_PERMISSION_MISMATCH"],
      TIER2_CAPABILITY_MISMATCH_ROLLBACK, false, "downgraded_to_context", "remains_context_only",
      ExplainabilityOnly,
      "CAPABILITY_PERMISSION_MISMATCH")
  }

  function Tier3(): CalibrationRule {
    CalibrationRule(
      ["INTERNAL_NETWORK_ACCESS"], ["INTERNAL_NETWORK_ACCESS"],
      TIER3_INTERNAL_NETWORK_ROLLBACK, true, "downgraded_to_review_only", "remains_review_only",
      ReviewOnlyTargets,
      "INTERNAL_NETWORK_ACCESS")
  }

  function Tier4(): CalibrationRule {
    CalibrationRule(
      ["MCP_NO_AUTH_MODEL", "OFFICIAL_MCP_NO_AUTH_REMOTE_ENDPOINT"],
      ["MCP_NO_AUTH_MODEL", "OFFICIAL_MCP_NO_AUTH_REMOTE_ENDPOINT"],
      TIER4_REMOTE_MCP_NO_AUTH_ROLLBACK, true, "downgraded_to_context", "remains_context_only",
      NotStandaloneMalicious,
      "MCP_NO_AUTH_MODEL")
  }

  function Pipeline(): seq<CalibrationRule> {
    [Tier1(), Tier2(), Tier3(), Tier4()]
  }

  // ---- Gates ----

  predicate IsDeclaredPermissionRule(ruleId: string) {
    ruleId in ["DECLARED_PERMISSION_BROWSER_FULL", "DECLARED_PERMISSION_FILE_WRITE", "DECLARED_PERMISSION_SHELL_EXEC",
               "DECLARED_PERMISSION_NETWORK_ACCESS", "DECLARED_PERMISSION_SECRETS_ACCESS",
               "DECLARED_PERMISSION_OAUTH_SCOPES"]
  }

  predicate IsPermissionModelRule(ruleId: string) {
    IsDeclaredPermissionRule(ruleId) || ruleId == "CAPABILITY_PERMISSION_MISMATCH"
  }

  predicate IsStrongerBehavior(f: Finding) {
    && f.recommendedAction != Log
    && !IsPermissionModelRule(f.ruleId)
    && f.ruleId != "INTERNAL_NETWORK_ACCESS"
    && f.ruleId !in ["MCP_NO_AUTH_MODEL", "OFFICIAL_MCP_NO_AUTH_REMOTE_ENDPOINT"]
    && (f.signalClass == SuspiciousPackageBehavior || f.signalClass == MaliciousBehavior)
  }

  predicate IsNetworkChain(f: Finding) {
    || (f.ruleId in ["ARTIFACT_TAINT_SECRET_TO_EXTERNAL_NETWORK", "ARTIFACT_TAINT_DOWNLOAD_TO_EXECUTION",
                     "SSRF_LIKE_FETCH", "SKILL_REMOTE_EXEC_CURL_BASH", "SKILL_REMOTE_EXEC_POWERSHELL_IEX",
                     "OFFICIAL_REMOTE_FETCH_EXEC_POLYGLOT", "OFFICIAL_SECRET_EXFIL_WEBHOOK"]
        && f.recommendedAction != Log)
    || ((f.category == RemoteExec || f.category == DataExfiltration || f.category == CredentialExposure)
        && f.recommendedAction != Log)
  }

  predicate IsRemoteMcpExec(f: Finding) {
    && f.ruleId in ["MCP_REMOTE_EXEC_SURFACE", "MCP_TOOLING_TRANSPORT_DECLARED",
                    "OFFICIAL_MCP_REMOTE_TUNNEL_WITH_EXEC", "OFFICIAL_MCP_REMOTE_BRIDGE_WITH_COMMAND"]
    && f.recommendedAction != Log
  }

  function Gates(findings: seq<Finding>): seq<bool> {
    var hasStrongerBehavior := exists f | f in findings :: IsStrongerBehavior(f);
    var hasNetworkChain := exists f | f in findings :: IsNetworkChain(f);
    var hasRemoteMcpExecPair := exists f | f in findings :: IsRemoteMcpExec(f);
    [!hasStrongerBehavior, !hasStrongerBehavior, !hasNetworkChain, !hasRemoteMcpExecPair]
  }

  function PassOver(findings: seq<Finding>): Pass {
    Pass(Pipeline(), Gates(findings), findings)
  }

  lemma PipelineIsValid(findings: seq<Finding>)
    ensures PassOver(findings).Valid() && |Pipeline()| == 4
    ensures PassOver(findings).DistinctNoteIds()
  {
    assert |Tier1().noteRuleId| == 34 && |Tier2().noteRuleId| == 30;
    assert |Tier3().noteRuleId| == 23 && |Tier4().noteRuleId| == 17;
  }

  /** `calibrate_verdict_inputs`, with the gates computed from the same findings. */
  method CalibrateVerdictInputs(findings: seq<Finding>, rootCauseGroups: seq<RootCauseGroup>)
    returns (c: VerdictCalibration)
    ensures PassOver(findings).Valid()
    ensures c == Calibration(PassOver(findings), rootCauseGroups)
  {
    PipelineIsValid(findings);
    c := CalibrateWith(PassOver(findings), rootCauseGroups);
  }

  // ---- Order independence, end to end ----

  lemma GatesPermutation(a: seq<Finding>, b: seq<Finding>)
    requires multiset(a) == multiset(b)
    ensures Gates(a) == Gates(b)
  {
    SameMembers(a, b);
  }

  /** Shuffling the findings of a package changes nothing at all in its calibrated result. */
  lemma PackageCalibrationPermutation(a: seq<Finding>, b: seq<Finding>)
    requires multiset(a) == multiset(b)
    ensures PassOver(a).Valid() && PassOver(b).Valid()
    ensures Calibration(PassOver(a), RootCauseGroups(a)) == Calibration(PassOver(b), RootCauseGroups(b))
  {
    PipelineIsValid(a);
    PipelineIsValid(b);
    GatesPermutation(a, b);
    RootCauseGroupsPermutation(a, b);
    CalibrationIgnoresFindingOrder(PassOver(a), PassOver(b), RootCauseGroups(a));
  }
}
