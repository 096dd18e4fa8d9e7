/** What the shipped calibration does to a package, read off the fields of its findings. */
module CalibrationOutcome {
  import opened Orders
  import opened Findings
  import opened RootCauses
  import opened VerdictCalibration
  import opened CalibrationProperties
  import opened CalibrationPipeline
  import opened CalibrationRisk

  // ---- The evidence that keeps a tier shut ----

  /** A chain category or one of the chain ids. */
  predicate ShowsChain(f: Finding) {
    && f.recommendedAction != Log
    && (f.category == RemoteExec || f.category == DataExfiltration || f.category == CredentialExposure
        || f.ruleId in ["ARTIFACT_TAINT_SECRET_TO_EXTERNAL_NETWORK", "ARTIFACT_TAINT_DOWNLOAD_TO_EXECUTION",
                        "SSRF_LIKE_FETCH", "SKILL_REMOTE_EXEC_CURL_BASH", "SKILL_REMOTE_EXEC_POWERSHELL_IEX",
                        "OFFICIAL_REMOTE_FETCH_EXEC_POLYGLOT", "OFFICIAL_SECRET_EXFIL_WEBHOOK"])
  }

  /** One of the ids of remote servers that execute. */
  predicate ShowsMcpExec(f: Finding) {
    && f.recommendedAction != Log
    && f.ruleId in ["MCP_REMOTE_EXEC_SURFACE", "MCP_TOOLING_TRANSPORT_DECLARED",
                    "OFFICIAL_MCP_REMOTE_TUNNEL_WITH_EXEC", "OFFICIAL_MCP_REMOTE_BRIDGE_WITH_COMMAND"]
  }

  /** Suspicious or malicious, and none of the ids that are weak on their own. */
  predicate ShowsBehaviour(f: Finding) {
    && f.recommendedAction != Log
    && (f.signalClass == SuspiciousPackageBehavior || f.signalClass == MaliciousBehavior)
    && f.ruleId !in ["DECLARED_PERMISSION_BROWSER_FULL", "DECLARED_PERMISSION_FILE_WRITE",
                     "DECLARED_PERMISSION_SHELL_EXEC", "DECLARED_PERMISSION_NETWORK_ACCESS",
                     "DECLARED_PERMISSION_SECRETS_ACCESS", "DECLARED_PERMISSION_OAUTH_SCOPES",
                     "CAPABILITY_PERMISSION_MISMATCH", "INTERNAL_NETWORK_ACCESS",
                     "MCP_NO_AUTH_MODEL", "OFFICIAL_MCP_NO_AUTH_REMOTE_ENDPOINT"]
  }

  /** No finding of the package keeps tier `k` shut. */
  ghost predicate Open(findings: seq<Finding>, k: nat) {
    if k <= 1 then forall f :: f in findings ==> !ShowsBehaviour(f)
    else if k == 2 then forall f :: f in findings ==> !ShowsChain(f)
    else forall f :: f in findings ==> !ShowsMcpExec(f)
  }

  /** The ids tier `k` calibrates: what triggers it is also what it takes out. */
  predicate Calibrates(k: nat, id: string) {
    if k == 0 then id == "DECLARED_PERMISSION_NETWORK_ACCESS"
    else if k == 1 then id == "CAPABILITY_PERMISSION_MISMATCH"
    else if k == 2 then id == "INTERNAL_NETWORK_ACCESS"
    else id == "MCP_NO_AUTH_MODEL" || id == "OFFICIAL_MCP_NO_AUTH_REMOTE_ENDPOINT"
  }

  /** The id under which tier `k` reports. */
  function ReportedAs(k: nat): string {
    if k == 0 then "DECLARED_PERMISSION_NETWORK_ACCESS"
    else if k == 1 then "CAPABILITY_PERMISSION_MISMATCH"
    else if k == 2 then "INTERNAL_NETWORK_ACCESS"
    else "MCP_NO_AUTH_MODEL"
  }

  predicate Member(f: Finding, key: GroupKey) {
    f.artifactScope == key.scope && f.category == key.category && f.signalClass == key.signalClass
  }

  /** The tier is open and a finding of the group is one it calibrates. */
  ghost predicate Acts(findings: seq<Finding>, key: GroupKey, k: nat) {
    Open(findings, k) && exists f :: f in findings && Member(f, key) && Calibrates(k, f.ruleId)
  }

  lemma BehaviourIff(f: Finding)
    ensures IsStrongerBehavior(f) <==> ShowsBehaviour(f)
  {
    var declared := ["DECLARED_PERMISSION_BROWSER_FULL", "DECLARED_PERMISSION_FILE_WRITE",
                     "DECLARED_PERMISSION_SHELL_EXEC", "DECLARED_PERMISSION_NETWORK_ACCESS",
                     "DECLARED_PERMISSION_SECRETS_ACCESS", "DECLARED_PERMISSION_OAUTH_SCOPES"];
    var others := ["CAPABILITY_PERMISSION_MISMATCH", "INTERNAL_NETWORK_ACCESS"];
    var mcp := ["MCP_NO_AUTH_MODEL", "OFFICIAL_MCP_NO_AUTH_REMOTE_ENDPOINT"];
    assert ["DECLARED_PERMISSION_BROWSER_FULL", "DECLARED_PERMISSION_FILE_WRITE",
            "DECLARED_PERMISSION_SHELL_EXEC", "DECLARED_PERMISSION_NETWORK_ACCESS",
            "DECLARED_PERMISSION_SECRETS_ACCESS", "DECLARED_PERMISSION_OAUTH_SCOPES",
            "CAPABILITY_PERMISSION_MISMATCH", "INTERNAL_NETWORK_ACCESS",
            "MCP_NO_AUTH_MODEL", "OFFICIAL_MCP_NO_AUTH_REMOTE_ENDPOINT"] == declared + others + mcp;
  }

  lemma BehaviourGate(findings: seq<Finding>)
    ensures (exists f :: f in findings && IsStrongerBehavior(f)) <==> exists f :: f in findings && ShowsBehaviour(f)
  {
    hide IsStrongerBehavior, ShowsBehaviour;
    forall f ensures IsStrongerBehavior(f) <==> ShowsBehaviour(f) {
      BehaviourIff(f);
    }
  }

  lemma ChainIff(f: Finding)
    ensures IsNetworkChain(f) <==> ShowsChain(f)
  {
  }

  lemma McpExecIff(f: Finding)
    ensures IsRemoteMcpExec(f) <==> ShowsMcpExec(f)
  {
  }

  lemma GatesAreEvidence(findings: seq<Finding>)
    ensures PassOver(findings).Valid() && |Pipeline()| == 4
    ensures forall k: nat :: k < 4 ==> (PassOver(findings).gates[k] <==> Open(findings, k))
  {
    hide Pipeline, IsStrongerBehavior, IsNetworkChain, IsRemoteMcpExec, ShowsBehaviour, ShowsChain, ShowsMcpExec;
    PassIsShipped(findings);
    BehaviourGate(findings);
    forall f ensures IsNetworkChain(f) <==> ShowsChain(f) {
      ChainIff(f);
    }
    forall f ensures IsRemoteMcpExec(f) <==> ShowsMcpExec(f) {
      McpExecIff(f);
    }
  }

  lemma TierLists(k: nat, id: string)
    requires k < 4
    ensures |Pipeline()| == 4
    ensures id in Pipeline()[k].triggerRuleIds <==> Calibrates(k, id)
    ensures id in Pipeline()[k].ruleIds <==> Calibrates(k, id)
    ensures Pipeline()[k].noteRuleId == ReportedAs(k)
  {
  }

  lemma FiresIff(findings: seq<Finding>, key: GroupKey, k: nat)
    requires k < 4
    ensures PassOver(findings).Valid() && |Pipeline()| == 4
    ensures Fires(PassOver(findings), key, k) <==> Acts(findings, key, k)
  {
    GatesAreEvidence(findings);
    FiresMeansActs(PassOver(findings), key, k);
  }

  lemma FiresMeansActs(p: Pass, key: GroupKey, k: nat)
    requires p.Valid() && p.rules == Pipeline() && k < 4 && |Pipeline()| == 4
    requires p.gates[k] <==> Open(p.findings, k)
    ensures Fires(p, key, k) <==> Acts(p.findings, key, k)
  {
    hide Open, Pipeline, Calibrates;
    forall id ensures id in Pipeline()[k].triggerRuleIds <==> Calibrates(k, id) {
      TierLists(k, id);
    }
  }

  lemma ReportsDiffer(j: nat, k: nat)
    requires j < 4 && k < 4 && ReportedAs(j) == ReportedAs(k)
    ensures j == k
  {
    assert |ReportedAs(0)| == 34 && |ReportedAs(1)| == 30 && |ReportedAs(2)| == 23 && |ReportedAs(3)| == 17;
  }

  // ---- Which notes are written ----

  ghost predicate Noted(notes: seq<Note>, ruleId: string, scope: ArtifactScope, category: ThreatCategory) {
    exists n :: n in notes && n.ruleId == ruleId && n.scope == scope && n.category == category
  }

  ghost predicate ActsOnSome(findings: seq<Finding>, groups: seq<RootCauseGroup>, k: nat,
                             scope: ArtifactScope, category: ThreatCategory)
  {
    exists g :: g in groups && g.scope == scope && g.category == category && Acts(findings, g.Key(), k)
  }

  lemma NotedMeansActs(findings: seq<Finding>, groups: seq<RootCauseGroup>, k: nat, n: Note)
    requires k < 4 && PassOver(findings).Valid()
    requires n in Calibration(PassOver(findings), groups).notes && n.ruleId == ReportedAs(k)
    ensures ActsOnSome(findings, groups, k, n.scope, n.category)
  {
    hide Calibration, PassOver, Acts, ReportedAs, Fires;
    var p := PassOver(findings);
    NotesAreCanonical(p, groups, n);
    PassIsShipped(findings);
    var g, j: nat :| g in groups && j < |p.rules| && NoteAt(p, g, j) == Some(n);
    TierLists(j, "");
    ReportsDiffer(j, k);
    FiresIff(findings, g.Key(), k);
  }

  lemma PassIsShipped(findings: seq<Finding>)
    ensures PassOver(findings).Valid() && |Pipeline()| == 4
    ensures PassOver(findings).rules == Pipeline() && PassOver(findings).findings == findings
  {
  }

  lemma ActsMeansNoted(findings: seq<Finding>, groups: seq<RootCauseGroup>, k: nat, g: RootCauseGroup)
    requires k < 4 && g in groups && Acts(findings, g.Key(), k)
    ensures PassOver(findings).Valid()
    ensures Noted(Calibration(PassOver(findings), groups).notes, ReportedAs(k), g.scope, g.category)
  {
    hide Calibration, PassOver, Acts, ReportedAs, Fires;
    var p := PassOver(findings);
    PassIsShipped(findings);
    FiresIff(findings, g.Key(), k);
    var n := NoteOf(p, g, k);
    TierLists(k, "");
    NotesAreCanonical(p, groups, n);
    assert NoteAt(p, g, k) == Some(n);
  }

  /** A tier reports on a scope and category exactly when it is open and some group there holds a
      finding it calibrates. The groups may be any. */
  lemma TierNoteIff(findings: seq<Finding>, groups: seq<RootCauseGroup>, k: nat,
                    scope: ArtifactScope, category: ThreatCategory)
    requires k < 4
    ensures PassOver(findings).Valid()
    ensures Noted(Calibration(PassOver(findings), groups).notes, ReportedAs(k), scope, category)
       <==> ActsOnSome(findings, groups, k, scope, category)
  {
    hide Calibration, PassOver, Acts, ReportedAs;
    PassIsShipped(findings);
    var notes := Calibration(PassOver(findings), groups).notes;
    if n :| n in notes && n.ruleId == ReportedAs(k) && n.scope == scope && n.category == category {
      NotedMeansActs(findings, groups, k, n);
    }
    if g :| g in groups && g.scope == scope && g.category == category && Acts(findings, g.Key(), k) {
      ActsMeansNoted(findings, groups, k, g);
    }
  }

  /** Some group of this scope and category has a finding with this id. */
  ghost predicate GroupHolds(findings: seq<Finding>, groups: seq<RootCauseGroup>, id: string,
                             scope: ArtifactScope, category: ThreatCategory)
  {
    exists g, f :: g in groups && g.scope == scope && g.category == category && f in findings
      && f.artifactScope == scope && f.category == category && f.signalClass == g.signalClass && f.ruleId == id
  }

  lemma HeldIsActedOn(findings: seq<Finding>, groups: seq<RootCauseGroup>, k: nat, id: string,
                      scope: ArtifactScope, category: ThreatCategory)
    requires Open(findings, k) && Calibrates(k, id) && GroupHolds(findings, groups, id, scope, category)
    ensures ActsOnSome(findings, groups, k, scope, category)
  {
    hide Open, Calibrates;
    var g, f :| g in groups && g.scope == scope && g.category == category && f in findings
      && f.artifactScope == scope && f.category == category && f.signalClass == g.signalClass && f.ruleId == id;
    assert Member(f, g.Key());
    assert Acts(findings, g.Key(), k);
  }

  lemma ActedOnIsHeld(findings: seq<Finding>, groups: seq<RootCauseGroup>, k: nat,
                      scope: ArtifactScope, category: ThreatCategory) returns (id: string)
    requires ActsOnSome(findings, groups, k, scope, category)
    ensures Open(findings, k) && Calibrates(k, id) && GroupHolds(findings, groups, id, scope, category)
  {
    hide Open, Calibrates;
    var g :| g in groups && g.scope == scope && g.category == category && Acts(findings, g.Key(), k);
    var f :| f in findings && Member(f, g.Key()) && Calibrates(k, f.ruleId);
    id := f.ruleId;
  }

  /** Internal network access is reported as review only unless some finding shows a chain. */
  lemma InternalNetworkNoteIff(findings: seq<Finding>, groups: seq<RootCauseGroup>,
                               scope: ArtifactScope, category: ThreatCategory)
    ensures PassOver(findings).Valid()
    ensures Noted(Calibration(PassOver(findings), groups).notes, "INTERNAL_NETWORK_ACCESS", scope, category)
       <==> ((forall f :: f in findings ==> !ShowsChain(f))
             && GroupHolds(findings, groups, "INTERNAL_NETWORK_ACCESS", scope, category))
  {
    hide Calibration, PassOver, GroupHolds, ActsOnSome, Noted;
    TierNoteIff(findings, groups, 2, scope, category);
    if ActsOnSome(findings, groups, 2, scope, category) {
      var id := ActedOnIsHeld(findings, groups, 2, scope, category);
    }
    if Open(findings, 2) && GroupHolds(findings, groups, "INTERNAL_NETWORK_ACCESS", scope, category) {
      HeldIsActedOn(findings, groups, 2, "INTERNAL_NETWORK_ACCESS", scope, category);
    }
  }

  /** A server without authentication is reported unless some finding shows that a remote one executes. */
  lemma McpNoAuthNoteIff(findings: seq<Finding>, groups: seq<RootCauseGroup>,
                         scope: ArtifactScope, category: ThreatCategory)
    ensures PassOver(findings).Valid()
    ensures Noted(Calibration(PassOver(findings), groups).notes, "MCP_NO_AUTH_MODEL", scope, category)
       <==> ((forall f :: f in findings ==> !ShowsMcpExec(f))
             && (GroupHolds(findings, groups, "MCP_NO_AUTH_MODEL", scope, category)
                 || GroupHolds(findings, groups, "OFFICIAL_MCP_NO_AUTH_REMOTE_ENDPOINT", scope, category)))
  {
    hide Calibration, PassOver, GroupHolds, ActsOnSome, Noted;
    TierNoteIff(findings, groups, 3, scope, category);
    if ActsOnSome(findings, groups, 3, scope, category) {
      var id := ActedOnIsHeld(findings, groups, 3, scope, category);
    }
    if Open(findings, 3) && GroupHolds(findings, groups, "MCP_NO_AUTH_MODEL", scope, category) {
      HeldIsActedOn(findings, groups, 3, "MCP_NO_AUTH_MODEL", scope, category);
    }
    if Open(findings, 3) && GroupHolds(findings, groups, "OFFICIAL_MCP_NO_AUTH_REMOTE_ENDPOINT", scope, category) {
      HeldIsActedOn(findings, groups, 3, "OFFICIAL_MCP_NO_AUTH_REMOTE_ENDPOINT", scope, category);
    }
  }

  /** Declared network access is reported as context unless some finding shows behaviour. */
  lemma DeclaredNetworkNoteIff(findings: seq<Finding>, groups: seq<RootCauseGroup>,
                               scope: ArtifactScope, category: ThreatCategory)
    ensures PassOver(findings).Valid()
    ensures Noted(Calibration(PassOver(findings), groups).notes, "DECLARED_PERMISSION_NETWORK_ACCESS", scope, category)
       <==> ((forall f :: f in findings ==> !ShowsBehaviour(f))
             && GroupHolds(findings, groups, "DECLARED_PERMISSION_NETWORK_ACCESS", scope, category))
  {
    hide Calibration, PassOver, GroupHolds, ActsOnSome, Noted;
    TierNoteIff(findings, groups, 0, scope, category);
    if ActsOnSome(findings, groups, 0, scope, category) {
      var id := ActedOnIsHeld(findings, groups, 0, scope, category);
    }
    if Open(findings, 0) && GroupHolds(findings, groups, "DECLARED_PERMISSION_NETWORK_ACCESS", scope, category) {
      HeldIsActedOn(findings, groups, 0, "DECLARED_PERMISSION_NETWORK_ACCESS", scope, category);
    }
  }

  /** So is a capability the package did not declare. */
  lemma CapabilityMismatchNoteIff(findings: seq<Finding>, groups: seq<RootCauseGroup>,
                                  scope: ArtifactScope, category: ThreatCategory)
    ensures PassOver(findings).Valid()
    ensures Noted(Calibration(PassOver(findings), groups).notes, "CAPABILITY_PERMISSION_MISMATCH", scope, category)
       <==> ((forall f :: f in findings ==> !ShowsBehaviour(f))
             && GroupHolds(findings, groups, "CAPABILITY_PERMISSION_MISMATCH", scope, category))
  {
    hide Calibration, PassOver, GroupHolds, ActsOnSome, Noted;
    TierNoteIff(findings, groups, 1, scope, category);
    if ActsOnSome(findings, groups, 1, scope, category) {
      var id := ActedOnIsHeld(findings, groups, 1, scope, category);
    }
    if Open(findings, 1) && GroupHolds(findings, groups, "CAPABILITY_PERMISSION_MISMATCH", scope, category) {
      HeldIsActedOn(findings, groups, 1, "CAPABILITY_PERMISSION_MISMATCH", scope, category);
    }
  }

  // ---- What is left of a group, and what its notes say ----

  /** Before tier `n` some open tier has taken the id out of the account. */
  ghost predicate Gone(findings: seq<Finding>, n: nat, id: string) {
    exists k: nat :: k < n && Calibrates(k, id) && Open(findings, k)
  }

  ghost predicate Left(findings: seq<Finding>, key: GroupKey, n: nat, f: Finding) {
    f in findings && Member(f, key) && !Gone(findings, n, f.ruleId)
  }

  /** Some actionable finding left before tier `k` outranks all that is left after it. */
  ghost predicate Taken(findings: seq<Finding>, key: GroupKey, k: nat) {
    exists f :: Left(findings, key, k, f) && f.recommendedAction != Log && Outranks(findings, key, k + 1, f)
  }

  ghost predicate Outranks(findings: seq<Finding>, key: GroupKey, n: nat, f: Finding) {
    forall h :: Left(findings, key, n, h) ==> ActionRank(h.recommendedAction) < ActionRank(f.recommendedAction)
  }

  /** The group had an actionable finding and only log entries are left before tier `n`. */
  ghost predicate Silenced(findings: seq<Finding>, key: GroupKey, n: nat) {
    && (exists f :: f in findings && Member(f, key) && f.recommendedAction != Log)
    && (forall h :: Left(findings, key, n, h) ==> h.recommendedAction == Log)
  }

  /** Tier 3 or 4, among the first `n` tiers, acts and takes the top or leaves log entries only. */
  ghost predicate Turned(findings: seq<Finding>, key: GroupKey, n: nat) {
    exists k: nat :: 2 <= k < n && Acts(findings, key, k)
                  && (Taken(findings, key, k) || Silenced(findings, key, k + 1))
  }

  lemma MemberIff(f: Finding, key: GroupKey)
    ensures Member(f, key) <==> KeyOf(f) == key
  {
  }

  lemma FiredListIff(findings: seq<Finding>, key: GroupKey, k: nat, f: Finding)
    requires k < 4 && f in findings && Member(f, key)
    ensures PassOver(findings).Valid() && |Pipeline()| == 4
    ensures Fires(PassOver(findings), key, k) && f.ruleId in PassOver(findings).rules[k].ruleIds
       <==> Calibrates(k, f.ruleId) && Open(findings, k)
  {
    hide Fires, Open, Calibrates;
    PassIsShipped(findings);
    FiresIff(findings, key, k);
    TierLists(k, f.ruleId);
  }

  lemma StandingIsLeft(findings: seq<Finding>, key: GroupKey, n: nat, f: Finding)
    requires n <= 4
    ensures PassOver(findings).Valid() && |Pipeline()| == 4
    ensures Standing(PassOver(findings), key, n, f) <==> Left(findings, key, n, f)
  {
    hide Fires, Open, Calibrates, Pipeline, PassOver, Member;
    PassIsShipped(findings);
    MemberIff(f, key);
    if f in findings && Member(f, key) {
      forall k: nat | k < 4
        ensures Fires(PassOver(findings), key, k) && f.ruleId in PassOver(findings).rules[k].ruleIds
           <==> Calibrates(k, f.ruleId) && Open(findings, k)
      {
        FiredListIff(findings, key, k, f);
      }
    }
  }

  lemma GoneStep(findings: seq<Finding>, k: nat, id: string)
    ensures Gone(findings, k + 1, id) <==> Gone(findings, k, id) || (Calibrates(k, id) && Open(findings, k))
  {
    hide Calibrates, Open;
    if Calibrates(k, id) && Open(findings, k) {
      assert k < k + 1;
    }
    if j: nat :| j < k && Calibrates(j, id) && Open(findings, j) {
      assert j < k + 1;
    }
  }

  /** A tier that takes the top acts: what it takes is one of its ids. */
  lemma TakenActs(findings: seq<Finding>, key: GroupKey, k: nat, f: Finding)
    requires Left(findings, key, k, f) && Outranks(findings, key, k + 1, f)
    ensures Acts(findings, key, k)
    ensures forall h :: Left(findings, key, k, h) && ActionRank(f.recommendedAction) <= ActionRank(h.recommendedAction)
              ==> Calibrates(k, h.ruleId)
  {
    hide Calibrates, Open, Gone;
    forall h | Left(findings, key, k, h) && ActionRank(f.recommendedAction) <= ActionRank(h.recommendedAction)
      ensures Calibrates(k, h.ruleId) && Open(findings, k)
    {
      GoneStep(findings, k, h.ruleId);
    }
  }

  lemma TakesTheTopIff(findings: seq<Finding>, key: GroupKey, k: nat)
    requires k < 4
    ensures PassOver(findings).Valid() && |Pipeline()| == 4
    ensures TakesTheTop(PassOver(findings), key, k) <==> Taken(findings, key, k)
  {
    hide Calibrates, Open, Gone, PassOver, Fires, Standing, Left, Pipeline;
    PassIsShipped(findings);
    FiresIff(findings, key, k);
    forall f ensures Standing(PassOver(findings), key, k, f) <==> Left(findings, key, k, f) {
      StandingIsLeft(findings, key, k, f);
    }
    forall id ensures id in PassOver(findings).rules[k].ruleIds <==> Calibrates(k, id) {
      TierLists(k, id);
    }
    if Taken(findings, key, k) {
      var f :| Left(findings, key, k, f) && f.recommendedAction != Log && Outranks(findings, key, k + 1, f);
      TakenActs(findings, key, k, f);
      assert TakesFrom(PassOver(findings), key, k, f.recommendedAction);
    }
    if TakesTheTop(PassOver(findings), key, k) {
      var f :| Standing(PassOver(findings), key, k, f) && f.recommendedAction != Log
        && TakesFrom(PassOver(findings), key, k, f.recommendedAction);
      TakingOutranks(findings, key, k, f);
    }
  }

  lemma TakingOutranks(findings: seq<Finding>, key: GroupKey, k: nat, f: Finding)
    requires Open(findings, k)
    requires forall h :: Left(findings, key, k, h) && ActionRank(f.recommendedAction) <= ActionRank(h.recommendedAction)
               ==> Calibrates(k, h.ruleId)
    ensures Outranks(findings, key, k + 1, f)
  {
    hide Calibrates, Open, Gone;
    forall h | Left(findings, key, k + 1, h)
      ensures ActionRank(h.recommendedAction) < ActionRank(f.recommendedAction)
    {
      GoneStep(findings, k, h.ruleId);
    }
  }

  lemma SilencedIsOnlyLogs(findings: seq<Finding>, key: GroupKey, n: nat)
    requires n <= 4
    ensures PassOver(findings).Valid() && |Pipeline()| == 4
    ensures OnlyLogsStand(PassOver(findings), key, n) <==> Silenced(findings, key, n)
  {
    hide PassOver, Standing, Left, Pipeline;
    PassIsShipped(findings);
    forall f ensures Standing(PassOver(findings), key, n, f) <==> Left(findings, key, n, f) {
      StandingIsLeft(findings, key, n, f);
    }
  }

  lemma ShippedReclassifiers(k: nat)
    requires k < 4
    ensures |Pipeline()| == 4 && (Pipeline()[k].reclassifySignal <==> k >= 2)
  {
  }

  lemma TurnsIff(findings: seq<Finding>, key: GroupKey, k: nat)
    requires k < 4
    ensures PassOver(findings).Valid() && |Pipeline()| == 4
    ensures Turns(PassOver(findings), key, k)
       <==> (k >= 2 && Acts(findings, key, k) && (Taken(findings, key, k) || Silenced(findings, key, k + 1)))
  {
    hide PassOver, Pipeline, Fires, Acts, Taken, Silenced, OnlyLogsStand, TakesTheTop;
    PassIsShipped(findings);
    FiresIff(findings, key, k);
    ShippedReclassifiers(k);
    TakesTheTopIff(findings, key, k);
    SilencedIsOnlyLogs(findings, key, k + 1);
  }

  /** The class of a group of the package before tier `n`. */
  lemma ShippedClass(findings: seq<Finding>, g: RootCauseGroup, n: nat)
    requires n <= 4 && Consistent(findings, g)
    ensures PassOver(findings).Valid() && |Pipeline()| == 4
    ensures ClassAfter(PassOver(findings), g, n)
         == if Turned(findings, g.Key(), n) then ReviewSignal else g.signalClass
  {
    hide PassOver, Pipeline, Acts, Taken, Silenced, Reclassifies, Turns, Consistent;
    PassIsShipped(findings);
    forall k: nat | k < 4
      ensures Reclassifies(PassOver(findings), g, k)
         <==> (k >= 2 && Acts(findings, g.Key(), k)
               && (Taken(findings, g.Key(), k) || Silenced(findings, g.Key(), k + 1)))
    {
      ReclassifiesIff(PassOver(findings), g, k);
      TurnsIff(findings, g.Key(), k);
    }
  }

  /** The note of tier `k` on a group of the package. */
  ghost function Report(findings: seq<Finding>, key: GroupKey, k: nat): Note {
    var turned := Turned(findings, key, k + 1);
    var effect :=
      if Taken(findings, key, k) then (if k == 2 then "downgraded_to_review_only" else "downgraded_to_context")
      else if turned && key.signalClass != ReviewSignal then "reclassified_only"
      else if k == 2 then "remains_review_only" else "remains_context_only";
    var rationale :=
      if k == 0 then BlastRadiusContext else if k == 1 then ExplainabilityOnly
      else if k == 2 then ReviewOnlyTargets else NotStandaloneMalicious;
    Note(ReportedAs(k), effect, rationale, key.scope, key.category, if turned then ReviewSignal else key.signalClass)
  }

  lemma ShippedTexts(k: nat)
    requires k < 4
    ensures |Pipeline()| == 4
    ensures var rule := Pipeline()[k];
            && rule.effectDowngraded == (if k == 2 then "downgraded_to_review_only" else "downgraded_to_context")
            && rule.effectUnchanged == (if k == 2 then "remains_review_only" else "remains_context_only")
            && rule.noteRuleId == ReportedAs(k)
            && rule.rationale == (if k == 0 then BlastRadiusContext else if k == 1 then ExplainabilityOnly
                                  else if k == 2 then ReviewOnlyTargets else NotStandaloneMalicious)
  {
  }

  lemma NoteIsReport(findings: seq<Finding>, g: RootCauseGroup, k: nat)
    requires k < 4 && Consistent(findings, g)
    ensures PassOver(findings).Valid() && |Pipeline()| == 4
    ensures NoteOf(PassOver(findings), g, k) == Report(findings, g.Key(), k)
  {
    hide PassOver, Pipeline, Consistent, Taken, Turned, ReportedAs, Lowers, TakesTheTop, ClassAfter;
    PassIsShipped(findings);
    ShippedTexts(k);
    ShippedReclassifiers(k);
    LowersIff(PassOver(findings), g, k);
    TakesTheTopIff(findings, g.Key(), k);
    ShippedClass(findings, g, k + 1);
    EarlyTiersNeverTurn(findings, g.Key(), k);
  }

  lemma EarlyTiersNeverTurn(findings: seq<Finding>, key: GroupKey, k: nat)
    ensures Turned(findings, key, k + 1) ==> k >= 2
  {
  }

  ghost predicate Reported(findings: seq<Finding>, note: Note) {
    exists f, k: nat :: f in findings && k < 4 && Calibrates(k, f.ruleId) && Open(findings, k)
                     && note == Report(findings, GroupKey(f.artifactScope, f.category, f.signalClass), k)
  }

  lemma NotedIsReported(findings: seq<Finding>, note: Note)
    requires PassOver(findings).Valid()
    requires note in Calibration(PassOver(findings), RootCauseGroups(findings)).notes
    ensures Reported(findings, note)
  {
    hide PassOver, Pipeline, Consistent, Calibration, Report, Fires, NoteOf, RootCauseGroups, Calibrates, Open;
    var p, groups := PassOver(findings), RootCauseGroups(findings);
    PassIsShipped(findings);
    NotesAreCanonical(p, groups, note);
    var g, k: nat :| g in groups && k < |p.rules| && NoteAt(p, g, k) == Some(note);
    RootCauseGroupsPartition(findings);
    NoteIsReport(findings, g, k);
    FiresIff(findings, g.Key(), k);
    var f :| f in findings && Member(f, g.Key()) && Calibrates(k, f.ruleId);
    assert g.Key() == GroupKey(f.artifactScope, f.category, f.signalClass);
  }

  lemma ReportedIsNoted(findings: seq<Finding>, note: Note)
    requires PassOver(findings).Valid() && Reported(findings, note)
    ensures note in Calibration(PassOver(findings), RootCauseGroups(findings)).notes
  {
    hide PassOver, Pipeline, Consistent, Calibration, Report, Fires, NoteOf, RootCauseGroups, Calibrates, Open;
    var f, k: nat :| f in findings && k < 4 && Calibrates(k, f.ruleId) && Open(findings, k)
      && note == Report(findings, GroupKey(f.artifactScope, f.category, f.signalClass), k);
    var p, groups := PassOver(findings), RootCauseGroups(findings);
    PassIsShipped(findings);
    var g := GroupOfFinding(findings, f);
    NoteIsReport(findings, g, k);
    FiresIff(findings, g.Key(), k);
    assert Member(f, g.Key());
    NotesAreCanonical(p, groups, note);
    assert NoteAt(p, g, k) == Some(note);
  }

  /** The notes of a package are exactly the reports of the open tiers on the groups of the findings
      they calibrate. */
  lemma PackageNotes(findings: seq<Finding>, note: Note)
    ensures PassOver(findings).Valid()
    ensures note in Calibration(PassOver(findings), RootCauseGroups(findings)).notes <==> Reported(findings, note)
  {
    hide PassOver, Calibration, Reported, RootCauseGroups;
    PassIsShipped(findings);
    if Reported(findings, note) {
      ReportedIsNoted(findings, note);
    }
    if note in Calibration(PassOver(findings), RootCauseGroups(findings)).notes {
      NotedIsReported(findings, note);
    }
  }

  // ---- The order of the notes ----

  /** The first word of each rule's sentence. */
  function Opening(r: Rationale): string {
    match r
    case BlastRadiusContext => "Declared"
    case ExplainabilityOnly => "Capability"
    case ReviewOnlyTargets => "Internal"
    case NotStandaloneMalicious => "Remote"
  }

  /** The ranks sort the sentences as texts: their first words differ. */
  lemma RationalesByText(a: Rationale, b: Rationale)
    ensures DictionaryBefore(Opening(a), Opening(b)) <==> RationaleRank(a) < RationaleRank(b)
  {
    var s, t := Opening(a), Opening(b);
    assert s[..0] == t[..0] && s != [] && t != [];
    assert s[0] < t[0] <==> RationaleRank(a) < RationaleRank(b);
    assert s[0] == t[0] ==> s == t;
    if n: nat :| n <= |s| && n < |t| && s[..n] == t[..n] && (n == |s| || s[n] < t[n]) {
      SharedHead(s, t, n);
    }
  }

  /** By scope, category, rule id, effect, sentence and class, in this order. */
  ghost predicate NoteBefore(a: Note, b: Note) {
    ScopeRank(a.scope) < ScopeRank(b.scope)
    || (a.scope == b.scope
        && (CategoryRank(a.category) < CategoryRank(b.category)
            || (a.category == b.category
                && (DictionaryBefore(a.ruleId, b.ruleId)
                    || (a.ruleId == b.ruleId
                        && (DictionaryBefore(a.effect, b.effect)
                            || (a.effect == b.effect
                                && (DictionaryBefore(Opening(a.rationale), Opening(b.rationale))
                                    || (a.rationale == b.rationale
                                        && SignalRank(a.signalClass) < SignalRank(b.signalClass))))))))))
  }

  lemma CompareNoteIff(a: Note, b: Note)
    ensures CompareNote(a, b) == Less <==> NoteBefore(a, b)
  {
    hide DictionaryBefore, CompareString, Opening;
    CompareStringTotal();
    CompareStringIsDictionary(a.ruleId, b.ruleId);
    CompareStringIsDictionary(a.effect, b.effect);
    RationalesByText(a.rationale, b.rationale);
    CategoryRanksDistinguish(a.category, b.category);
  }

  /** The notes of any calibration are in this order, without repetition. */
  lemma NotesInOrder(findings: seq<Finding>, groups: seq<RootCauseGroup>, i: nat, j: nat)
    requires PassOver(findings).Valid() && i < j < |Calibration(PassOver(findings), groups).notes|
    ensures NoteBefore(Calibration(PassOver(findings), groups).notes[i],
                       Calibration(PassOver(findings), groups).notes[j])
  {
    var notes := Calibration(PassOver(findings), groups).notes;
    NotesAreCanonical(PassOver(findings), groups, notes[i]);
    CompareNoteIff(notes[i], notes[j]);
  }

  // ---- The groups that come out ----

  ghost function LeftPlaces(findings: seq<Finding>, key: GroupKey): set<nat> {
    set i: nat | i < |findings| && Left(findings, key, 4, findings[i])
  }

  ghost function LeftIds(findings: seq<Finding>, key: GroupKey): set<string> {
    set f | f in findings && Left(findings, key, 4, f) :: f.ruleId
  }

  ghost function LeftActions(findings: seq<Finding>, key: GroupKey): set<RecommendedAction> {
    set f | f in findings && Left(findings, key, 4, f) :: f.recommendedAction
  }

  /** `r` says of the group what is left of it after all four tiers. */
  ghost predicate Outcome(findings: seq<Finding>, key: GroupKey, r: RootCauseGroup) {
    && r.scope == key.scope && r.category == key.category
    && r.signalClass == (if Turned(findings, key, 4) then ReviewSignal else key.signalClass)
    && r.findingCount == |LeftPlaces(findings, key)|
    && r.strongestAction == Strongest(LeftActions(findings, key))
    && ShowsLeast(r.representativeRules, LeftIds(findings, key))
  }

  lemma RemainsIffLeft(findings: seq<Finding>, key: GroupKey, f: Finding)
    ensures PassOver(findings).Valid() && |Pipeline()| == 4
    ensures f in Remaining(findings, key, Excluded(PassOver(findings), key, 4)) <==> Left(findings, key, 4, f)
  {
    hide Pipeline, PassOver, Standing, Left, Excluded, Remaining;
    PassIsShipped(findings);
    StandingIff(PassOver(findings), key, 4, f);
    StandingIsLeft(findings, key, 4, f);
  }

  lemma RestOutcome(findings: seq<Finding>, key: GroupKey, excluded: seq<string>)
    requires forall f :: f in Remaining(findings, key, excluded) <==> Left(findings, key, 4, f)
    ensures var r := Recomputed(findings, key, excluded);
            && r.findingCount == |LeftPlaces(findings, key)|
            && ShowsLeast(r.representativeRules, LeftIds(findings, key))
            && r.strongestAction == Strongest(LeftActions(findings, key))
            && (r.findingCount > 0 ==> exists f :: Left(findings, key, 4, f))
  {
    hide Left, RepresentativeRules, ShowsLeast, StrongestAction, Strongest, Remaining;
    var rest := Remaining(findings, key, excluded);
    StrongestActionIs(rest);
    RepresentativesAreLeast(rest);
    RemainingCount(findings, key, excluded);
    RestPlaces(findings, key, excluded);
    assert forall f :: Left(findings, key, 4, f) ==> f in findings by { RestIsIn(findings, key, excluded); }
    assert LeftIds(findings, key) == set f | f in rest :: f.ruleId;
    assert LeftActions(findings, key) == set f | f in rest :: f.recommendedAction;
    if rest != [] {
      assert rest[0] in rest;
    }
  }

  lemma RestIsIn(findings: seq<Finding>, key: GroupKey, excluded: seq<string>)
    ensures forall f :: f in Remaining(findings, key, excluded) ==> f in findings
  {
    RemainingMembers(findings, key, excluded);
  }

  lemma RestPlaces(findings: seq<Finding>, key: GroupKey, excluded: seq<string>)
    requires forall f :: f in Remaining(findings, key, excluded) <==> Left(findings, key, 4, f)
    ensures Places(findings, key, excluded) == LeftPlaces(findings, key)
  {
    hide Left, Remaining;
    RemainingMembers(findings, key, excluded);
    forall i: nat | i < |findings|
      ensures i in Places(findings, key, excluded) <==> Left(findings, key, 4, findings[i])
    {
      assert findings[i] in findings;
    }
  }

  lemma GroupOutcome(findings: seq<Finding>, g: RootCauseGroup)
    requires Consistent(findings, g)
    ensures PassOver(findings).Valid() && |Pipeline()| == 4
    ensures var r := GroupAfter(PassOver(findings), g, 4);
            && r.findingCount == |LeftPlaces(findings, g.Key())|
            && (r.findingCount > 0 ==> Outcome(findings, g.Key(), r) && exists f :: Left(findings, g.Key(), 4, f))
  {
    hide Pipeline, PassOver, Excluded, Consistent, Left, Turned, ShowsLeast, ClassAfter, Reduced, LeftPlaces, LeftIds;
    PassIsShipped(findings);
    var key, excluded := g.Key(), Excluded(PassOver(findings), g.Key(), 4);
    ConsistentReduced(PassOver(findings), g, 4);
    ShippedClass(findings, g, 4);
    forall f ensures f in Remaining(findings, key, excluded) <==> Left(findings, key, 4, f) {
      RemainsIffLeft(findings, key, f);
    }
    RestOutcome(findings, key, excluded);
  }

  /** Every group that comes out is the outcome of a group with a finding left. */
  lemma OutcomesOnly(findings: seq<Finding>, r: RootCauseGroup)
    requires PassOver(findings).Valid()
    requires r in Calibration(PassOver(findings), RootCauseGroups(findings)).rootCauseGroups
    ensures exists f :: f in findings && !Gone(findings, 4, f.ruleId)
              && Outcome(findings, GroupKey(f.artifactScope, f.category, f.signalClass), r)
  {
    hide Pipeline, PassOver, Consistent, Turned, ShowsLeast, GroupAfter, RootCauseGroups, LeftPlaces, LeftIds, Gone;
    var p, groups := PassOver(findings), RootCauseGroups(findings);
    PassIsShipped(findings);
    RootCauseGroupsPartition(findings);
    SurvivingMembers(CalibratedGroups(p, groups));
    var i :| 0 <= i < |groups| && CalibratedGroups(p, groups)[i] == r;
    GroupOutcome(findings, groups[i]);
    var f :| Left(findings, groups[i].Key(), 4, f);
    assert groups[i].Key() == GroupKey(f.artifactScope, f.category, f.signalClass);
  }

  /** A finding no open tier takes out is accounted for by a group that comes out. */
  lemma OutcomeOfEach(findings: seq<Finding>, f: Finding) returns (r: RootCauseGroup)
    requires f in findings && !Gone(findings, 4, f.ruleId)
    ensures PassOver(findings).Valid()
    ensures r in Calibration(PassOver(findings), RootCauseGroups(findings)).rootCauseGroups
    ensures Outcome(findings, GroupKey(f.artifactScope, f.category, f.signalClass), r)
  {
    hide Pipeline, PassOver, Consistent, Turned, ShowsLeast, GroupAfter, RootCauseGroups, LeftIds, Gone, Outcome;
    var p, groups := PassOver(findings), RootCauseGroups(findings);
    PassIsShipped(findings);
    var g := GroupOfFinding(findings, f);
    GroupOutcome(findings, g);
    r := GroupAfter(p, g, 4);
    var i :| 0 <= i < |groups| && groups[i] == g;
    assert CalibratedGroups(p, groups)[i] == r;
    SurvivingMembers(CalibratedGroups(p, groups));
    var n: nat :| n < |findings| && findings[n] == f;
    assert n in LeftPlaces(findings, g.Key());
  }

  /** What comes out of calibrating a package: one outcome for each group with a finding that no open
      tier takes out, and nothing else. */
  lemma PackageGroups(findings: seq<Finding>)
    ensures PassOver(findings).Valid()
    ensures forall r :: r in Calibration(PassOver(findings), RootCauseGroups(findings)).rootCauseGroups ==>
              exists f :: f in findings && !Gone(findings, 4, f.ruleId)
                       && Outcome(findings, GroupKey(f.artifactScope, f.category, f.signalClass), r)
    ensures forall f :: f in findings && !Gone(findings, 4, f.ruleId) ==>
              exists r :: r in Calibration(PassOver(findings), RootCauseGroups(findings)).rootCauseGroups
                       && Outcome(findings, GroupKey(f.artifactScope, f.category, f.signalClass), r)
  {
    hide PassOver, Calibration, RootCauseGroups, Gone, Outcome;
    PassIsShipped(findings);
    forall r | r in Calibration(PassOver(findings), RootCauseGroups(findings)).rootCauseGroups
      ensures exists f :: f in findings && !Gone(findings, 4, f.ruleId)
                       && Outcome(findings, GroupKey(f.artifactScope, f.category, f.signalClass), r)
    {
      OutcomesOnly(findings, r);
    }
    forall f | f in findings && !Gone(findings, 4, f.ruleId)
      ensures exists r :: r in Calibration(PassOver(findings), RootCauseGroups(findings)).rootCauseGroups
                       && Outcome(findings, GroupKey(f.artifactScope, f.category, f.signalClass), r)
    {
      var r := OutcomeOfEach(findings, f);
    }
  }

  /** The verdict pipeline's first two stages (verdict.rs): group, then calibrate. */
  method GroupAndCalibrate(findings: seq<Finding>) returns (c: VerdictCalibration)
    ensures PassOver(findings).Valid()
    ensures c == Calibration(PassOver(findings), RootCauseGroups(findings))
    ensures forall note :: note in c.notes <==> Reported(findings, note)
    ensures forall r :: r in c.rootCauseGroups ==>
              exists f :: f in findings && !Gone(findings, 4, f.ruleId)
                       && Outcome(findings, GroupKey(f.artifactScope, f.category, f.signalClass), r)
    ensures forall f :: f in findings && !Gone(findings, 4, f.ruleId) ==>
              exists r :: r in c.rootCauseGroups
                       && Outcome(findings, GroupKey(f.artifactScope, f.category, f.signalClass), r)
  {
    hide *;
    var groups := BuildRootCauseGroups(findings);
    c := CalibrateVerdictInputs(findings, groups);
    PackageGroups(findings);
    forall note ensures note in c.notes <==> Reported(findings, note) {
      PackageNotes(findings, note);
    }
  }

  /** The groups come out in the order they went in. */
  lemma SurvivingInOrder(a: seq<RootCauseGroup>, g: RootCauseGroup, b: seq<RootCauseGroup>)
    ensures Surviving(a + b) == Surviving(a) + Surviving(b)
    ensures Surviving([g]) == if g.findingCount > 0 then [g] else []
  {
    assert [g][..0] == [];
    SurvivingAppend(a, b);
  }

  lemma {:induction false} SurvivingAppend(a: seq<RootCauseGroup>, b: seq<RootCauseGroup>)
    ensures Surviving(a + b) == Surviving(a) + Surviving(b)
  {
    if b == [] {
      assert a + b == a;
    } else {
      SurvivingAppend(a, b[..|b| - 1]);
      assert (a + b)[..|a + b| - 1] == a + b[..|b| - 1];
    }
  }

  // ---- The risk that is taken off ----

  ghost predicate TakenSomewhere(findings: seq<Finding>, k: nat) {
    exists f :: f in findings && Taken(findings, GroupKey(f.artifactScope, f.category, f.signalClass), k)
  }

  lemma LowersSomeIff(findings: seq<Finding>, k: nat)
    requires k < 4
    ensures PassOver(findings).Valid() && |Pipeline()| == 4
    ensures LowersSome(PassOver(findings), RootCauseGroups(findings), k) <==> TakenSomewhere(findings, k)
  {
    hide Pipeline, PassOver, Consistent, Taken, TakesTheTop, RootCauseGroups, Lowers;
    var p, groups := PassOver(findings), RootCauseGroups(findings);
    PassIsShipped(findings);
    RootCauseGroupsPartition(findings);
    forall g | g in groups ensures Lowers(p, g, k) <==> Taken(findings, g.Key(), k) {
      LowersIff(p, g, k);
      TakesTheTopIff(findings, g.Key(), k);
    }
    if g :| g in groups && Lowers(p, g, k) {
      var f := TakenHasMember(findings, g.Key(), k);
      assert g.Key() == GroupKey(f.artifactScope, f.category, f.signalClass);
    }
    if f :| f in findings && Taken(findings, GroupKey(f.artifactScope, f.category, f.signalClass), k) {
      var g := GroupOfFinding(findings, f);
    }
  }

  lemma TakenHasMember(findings: seq<Finding>, key: GroupKey, k: nat) returns (f: Finding)
    requires Taken(findings, key, k)
    ensures f in findings && Member(f, key)
  {
    f :| Left(findings, key, k, f) && f.recommendedAction != Log && Outranks(findings, key, k + 1, f);
  }

  /** The points taken off a package: 10, 8, 12 and 6 for the tiers that take the top of some group. */
  lemma PackageRisk(findings: seq<Finding>)
    ensures PassOver(findings).Valid()
    ensures Calibration(PassOver(findings), RootCauseGroups(findings)).riskAdjustment
         == (if TakenSomewhere(findings, 0) then -10 else 0) + (if TakenSomewhere(findings, 1) then -8 else 0)
          + (if TakenSomewhere(findings, 2) then -12 else 0) + (if TakenSomewhere(findings, 3) then -6 else 0)
  {
    hide *;
    RiskIsSumOfLoweringRules(findings, RootCauseGroups(findings));
    LowersSomeIff(findings, 0);
    LowersSomeIff(findings, 1);
    LowersSomeIff(findings, 2);
    LowersSomeIff(findings, 3);
  }
}
