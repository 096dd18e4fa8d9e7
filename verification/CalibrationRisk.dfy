/** Numeric consequences of the shipped pipeline, with packages that reach the bounds, and the stale note. */
module CalibrationRisk {
  import opened Orders
  import opened Findings
  import opened RootCauses
  import opened VerdictCalibration
  import opened CalibrationProperties
  import opened CalibrationPipeline

  function Credit(k: nat): int
    requires k < 4
  {
    [-10, -8, -12, -6][k]
  }

  /** A pass over four rules with the shipped credits. */
  ghost predicate ShippedCredits(p: Pass) {
    |p.rules| == 4 && p.Valid() && forall k: nat :: k < 4 ==> p.rules[k].riskDelta == Credit(k)
  }

  lemma PipelineCredits(findings: seq<Finding>)
    ensures ShippedCredits(PassOver(findings))
  {
    var rules := Pipeline();
    assert rules[0].riskDelta == Credit(0) && rules[1].riskDelta == Credit(1);
    assert rules[2].riskDelta == Credit(2) && rules[3].riskDelta == Credit(3);
  }

  ghost function CreditIf(b: bool, k: nat): int
    requires k < 4
  {
    if b then Credit(k) else 0
  }

  lemma RiskStep(p: Pass, groups: seq<RootCauseGroup>, n: nat)
    requires ShippedCredits(p) && n < 4
    ensures RiskAdjustment(p, groups, n + 1) == RiskAdjustment(p, groups, n) + CreditIf(LowersSome(p, groups, n), n)
  {
  }

  lemma AdjustmentIsSumOfCredits(p: Pass, groups: seq<RootCauseGroup>)
    requires ShippedCredits(p)
    ensures RiskAdjustment(p, groups, 4)
         == CreditIf(LowersSome(p, groups, 0), 0) + CreditIf(LowersSome(p, groups, 1), 1)
          + CreditIf(LowersSome(p, groups, 2), 2) + CreditIf(LowersSome(p, groups, 3), 3)
  {
    RiskStep(p, groups, 0);
    RiskStep(p, groups, 1);
    RiskStep(p, groups, 2);
    RiskStep(p, groups, 3);
  }

  /** The adjustment is the sum of the credits of exactly the shipped rules that lowered some group. */
  lemma RiskIsSumOfLoweringRules(findings: seq<Finding>, groups: seq<RootCauseGroup>)
    ensures PassOver(findings).Valid() && |Pipeline()| == 4
    ensures var p := PassOver(findings);
            Calibration(p, groups).riskAdjustment
            == (if LowersSome(p, groups, 0) then -10 else 0) + (if LowersSome(p, groups, 1) then -8 else 0)
             + (if LowersSome(p, groups, 2) then -12 else 0) + (if LowersSome(p, groups, 3) then -6 else 0)
  {
    PipelineCredits(findings);
    SumOverPass(PassOver(findings), groups);
  }

  lemma SumOverPass(p: Pass, groups: seq<RootCauseGroup>)
    requires ShippedCredits(p)
    ensures Calibration(p, groups).riskAdjustment
         == (if LowersSome(p, groups, 0) then -10 else 0) + (if LowersSome(p, groups, 1) then -8 else 0)
          + (if LowersSome(p, groups, 2) then -12 else 0) + (if LowersSome(p, groups, 3) then -6 else 0)
  {
    AdjustmentIsSumOfCredits(p, groups);
  }

  lemma AdjustmentBounds(p: Pass, groups: seq<RootCauseGroup>)
    requires ShippedCredits(p)
    ensures -36 <= Calibration(p, groups).riskAdjustment <= 0
  {
    AdjustmentIsSumOfCredits(p, groups);
  }

  /** However many groups there are, one pass takes off at most 36 points and never adds any. */
  lemma RiskBounds(findings: seq<Finding>, groups: seq<RootCauseGroup>)
    ensures PassOver(findings).Valid()
    ensures -36 <= Calibration(PassOver(findings), groups).riskAdjustment <= 0
  {
    PipelineCredits(findings);
    AdjustmentBounds(PassOver(findings), groups);
  }

  lemma LowersSomeOfOne(p: Pass, g: RootCauseGroup, k: nat)
    requires p.Valid() && k < |p.rules|
    ensures Lowerings(p, g)[k] <==> LowersSome(p, [g], k)
  {
    assert g in [g];
  }

  lemma CountPrefix(flags: seq<bool>, n: nat)
    requires n < |flags|
    ensures CountTrue(flags[..n + 1]) == CountTrue(flags[..n]) + if flags[n] then 1 else 0
  {
    assert flags[..n + 1][..n] == flags[..n];
  }

  lemma TwoCreditsAtMost(flags: seq<bool>)
    requires |flags| == 4 && CountTrue(flags) <= 2
    ensures CreditIf(flags[0], 0) + CreditIf(flags[1], 1) + CreditIf(flags[2], 2) + CreditIf(flags[3], 3) >= -22
  {
    assert flags[..4] == flags;
    CountPrefix(flags, 3);
    CountPrefix(flags, 2);
    CountPrefix(flags, 1);
    CountPrefix(flags, 0);
  }

  lemma OneGroupBound(p: Pass, g: RootCauseGroup)
    requires ShippedCredits(p)
    ensures RiskAdjustment(p, [g], 4) >= -22
  {
    AdjustmentIsSumOfCredits(p, [g]);
    AtMostTwoRulesLower(p, g);
    LowersSomeOfOne(p, g, 0);
    LowersSomeOfOne(p, g, 1);
    LowersSomeOfOne(p, g, 2);
    LowersSomeOfOne(p, g, 3);
    TwoCreditsAtMost(Lowerings(p, g));
  }

  /** A single group can lose at most the two largest credits. */
  lemma SingleGroupRiskBound(findings: seq<Finding>, g: RootCauseGroup)
    ensures PassOver(findings).Valid()
    ensures Calibration(PassOver(findings), [g]).riskAdjustment >= -22
  {
    PipelineCredits(findings);
    OneGroupBound(PassOver(findings), g);
  }

  /** No finding outside `CALIBRATED_RULE_IDS` is ever excluded, so none is ever silenced. */
  lemma UncalibratedFindingSurvives(findings: seq<Finding>, f: Finding)
    requires f in findings && f.ruleId !in CalibratedRuleIds()
    ensures PassOver(findings).Valid()
    ensures exists r :: r in Calibration(PassOver(findings), RootCauseGroups(findings)).rootCauseGroups
                     && r.scope == f.artifactScope && r.category == f.category
                     && ActionRank(f.recommendedAction) <= ActionRank(r.strongestAction)
  {
    PipelineIsValid(findings);
    forall k | 0 <= k < 4 ensures f.ruleId !in Pipeline()[k].ruleIds {
      UncalibratedIsNeverExcluded(f.ruleId, k);
    }
    PackageNeverSilences(PassOver(findings), f);
  }

  lemma UncalibratedIsNeverExcluded(ruleId: string, k: nat)
    requires k < 4 && ruleId !in CalibratedRuleIds()
    ensures |Pipeline()| == 4 && ruleId !in Pipeline()[k].ruleIds
  {
    var ids := CalibratedRuleIds();
    assert ids[0] in ids && ids[1] in ids && ids[2] in ids && ids[3] in ids && ids[4] in ids;
  }

  // ---- The bounds are reached ----

  /** A group whose only finding is triggered and excluded by rule `k` alone is lowered by it. */
  lemma LoneFindingLowered(p: Pass, f: Finding, k: nat)
    requires p.Valid() && k < |p.rules| && p.gates[k] && f in p.findings && f.recommendedAction != Log
    requires forall h :: h in p.findings && KeyOf(h) == KeyOf(f) ==> h == f
    requires f.ruleId in p.rules[k].triggerRuleIds && f.ruleId in p.rules[k].ruleIds
    requires forall j :: 0 <= j < k ==> f.ruleId !in p.rules[j].triggerRuleIds
    ensures Lowers(p, Recomputed(p.findings, KeyOf(f), []), k)
  {
    var key := KeyOf(f);
    var g := Recomputed(p.findings, key, []);
    assert g.Key() == key;
    assert !AnyFired(p, key, k);
    AnyFiredStep(p, key, k);
    assert Fires(p, key, k);
    RemainingMembers(p.findings, key, []);
    StrongestActionIsMax(Remaining(p.findings, key, []));
    assert f in Remaining(p.findings, key, []);
    var excluded := Excluded(p, key, k + 1);
    assert f.ruleId in excluded;
    RemainingMembers(p.findings, key, excluded);
    var rest := Remaining(p.findings, key, excluded);
    if rest != [] { HasMember(rest); }
    assert StrongestAction([]) == Log;
  }

  function Lone(ruleId: string, category: ThreatCategory): Finding {
    Example(ruleId, category, Hygiene, RequireApproval, None, None)
  }

  /** Four isolated weak findings in four groups: every rule is credited. */
  function FourWeakFindings(): seq<Finding> {
    [Lone("DECLARED_PERMISSION_NETWORK_ACCESS", SupplyChain),
     Lone("CAPABILITY_PERMISSION_MISMATCH", ToolAbuse),
     Lone("INTERNAL_NETWORK_ACCESS", ScopeCreep),
     Lone("MCP_NO_AUTH_MODEL", Generic)]
  }

  predicate WeakId(ruleId: string) {
    |ruleId| in {34, 30, 23, 17} && (|ruleId| in {30, 23} ==> ruleId[0] != 'M')
  }

  lemma WeakIdIsNoChain(f: Finding)
    requires WeakId(f.ruleId) && f.category !in {RemoteExec, DataExfiltration, CredentialExposure}
    ensures !IsNetworkChain(f)
  {
  }

  lemma WeakIdIsNoMcpExec(f: Finding)
    requires WeakId(f.ruleId)
    ensures !IsRemoteMcpExec(f)
  {
  }

  /** A hygiene finding with one of the calibrated ids, outside the chain categories, or a mere log entry. */
  predicate Quiet(f: Finding) {
    || f.recommendedAction == Log
    || (WeakId(f.ruleId) && f.signalClass == Hygiene
        && f.category !in {RemoteExec, DataExfiltration, CredentialExposure})
  }

  lemma QuietGates(findings: seq<Finding>)
    requires forall i :: 0 <= i < |findings| ==> Quiet(findings[i])
    ensures Gates(findings) == [true, true, true, true]
  {
    forall f | f in findings ensures !IsStrongerBehavior(f) && !IsNetworkChain(f) && !IsRemoteMcpExec(f) {
      if f.recommendedAction != Log {
        WeakIdIsNoChain(f);
        WeakIdIsNoMcpExec(f);
      }
    }
  }

  lemma FourWeakGates()
    ensures Gates(FourWeakFindings()) == [true, true, true, true]
  {
    QuietGates(FourWeakFindings());
  }

  /** `f` alone forms its group and rule `k` alone can fire on it. */
  ghost predicate Isolated(p: Pass, f: Finding, k: nat)
    requires p.Valid() && k < |p.rules|
  {
    && p.gates[k] && f in p.findings && f.recommendedAction != Log
    && (forall h :: h in p.findings && KeyOf(h) == KeyOf(f) ==> h == f)
    && f.ruleId in p.rules[k].triggerRuleIds && f.ruleId in p.rules[k].ruleIds
    && (forall j :: 0 <= j < k ==> f.ruleId !in p.rules[j].triggerRuleIds)
  }

  lemma IsolatedFindingCredits(p: Pass, f: Finding, k: nat)
    requires p.Valid() && k < |p.rules| && Isolated(p, f, k)
    ensures LowersSome(p, RootCauseGroups(p.findings), k)
  {
    var g := GroupOfFinding(p.findings, f);
    LoneFindingLowered(p, f, k);
  }

  lemma WeakFindingIsolated(p: Pass, k: nat)
    requires k < 4 && p.findings == FourWeakFindings() && p.gates == [true, true, true, true]
    requires |p.rules| == 4
    requires p.rules == Pipeline()
    ensures Isolated(p, FourWeakFindings()[k], k)
  {
    var fs := FourWeakFindings();
    assert fs[k] in fs;
    forall h | h in fs && KeyOf(h) == KeyOf(fs[k]) ensures h == fs[k] {
      var i :| 0 <= i < 4 && h == fs[i];
    }
    assert fs[k].ruleId in p.rules[k].triggerRuleIds;
    assert fs[k].ruleId in p.rules[k].ruleIds;
    forall j | 0 <= j < k ensures fs[k].ruleId !in p.rules[j].triggerRuleIds {}
  }

  lemma AllFourCredited(p: Pass)
    requires ShippedCredits(p)
    requires |p.findings| == 4 && forall k :: 0 <= k < 4 ==> Isolated(p, p.findings[k], k)
    ensures RiskAdjustment(p, RootCauseGroups(p.findings), 4) == -36
  {
    forall k: nat | k < 4 ensures LowersSome(p, RootCauseGroups(p.findings), k) {
      IsolatedFindingCredits(p, p.findings[k], k);
    }
    AdjustmentIsSumOfCredits(p, RootCauseGroups(p.findings));
  }

  /** The lower bound of 36 points is reached by some package. */
  lemma RiskBoundReached()
    ensures exists p: Pass :: p.Valid() && p == PassOver(p.findings)
              && Calibration(p, RootCauseGroups(p.findings)).riskAdjustment == -36
  {
    var p := PassOver(FourWeakFindings());
    PipelineCredits(FourWeakFindings());
    FourWeakGates();
    assert |p.findings| == 4;
    forall k | 0 <= k < 4 ensures Isolated(p, p.findings[k], k) {
      WeakFindingIsolated(p, k);
    }
    AllFourCredited(p);
  }

  // ---- One group lowered twice: the single-group bound, and a note gone stale ----

  /** A blocking declared-network finding, a weaker internal-network one and a log entry, in one group. */
  function TwoStepFindings(): seq<Finding> {
    [Lone("DECLARED_PERMISSION_NETWORK_ACCESS", ToolAbuse).(recommendedAction := Block),
     Lone("INTERNAL_NETWORK_ACCESS", ToolAbuse),
     Lone("BYSTANDER", ToolAbuse).(recommendedAction := Log)]
  }

  /** Rule 0 lists the first finding alone, rule 2 the second, and nothing lists the third. */
  ghost predicate TwoSteps(p: Pass, key: GroupKey)
    requires p.Valid() && |p.rules| == 4
  {
    && |p.findings| == 3 && p.gates[0] && p.gates[2]
    && (forall i :: 0 <= i < 3 ==> KeyOf(p.findings[i]) == key)
    && p.findings[0].recommendedAction == Block && p.findings[1].recommendedAction == RequireApproval
    && p.findings[2].recommendedAction == Log
    && p.findings[0].ruleId in p.rules[0].triggerRuleIds && p.findings[0].ruleId in p.rules[0].ruleIds
    && p.findings[1].ruleId in p.rules[2].triggerRuleIds && p.findings[1].ruleId in p.rules[2].ruleIds
    && p.findings[1].ruleId !in p.rules[0].ruleIds && p.findings[1].ruleId !in p.rules[1].ruleIds
  }

  lemma TwoStepsFire(p: Pass, key: GroupKey)
    requires p.Valid() && |p.rules| == 4 && TwoSteps(p, key)
    ensures Fires(p, key, 0) && Fires(p, key, 2)
  {
    assert p.findings[0] in p.findings && p.findings[1] in p.findings;
  }

  lemma FirstStepTakesTheTop(p: Pass, key: GroupKey)
    requires p.Valid() && |p.rules| == 4 && TwoSteps(p, key)
    ensures TakesTheTop(p, key, 0)
  {
    TwoStepsFire(p, key);
    var f := p.findings[0];
    assert Standing(p, key, 0, f) by { assert f in p.findings; }
    forall h | Standing(p, key, 0, h) && 2 <= ActionRank(h.recommendedAction) ensures h.ruleId in p.rules[0].ruleIds {
      var i :| 0 <= i < 3 && h == p.findings[i];
    }
    assert TakesFrom(p, key, 0, f.recommendedAction);
  }

  lemma SecondStepTakesTheTop(p: Pass, key: GroupKey)
    requires p.Valid() && |p.rules| == 4 && TwoSteps(p, key)
    ensures TakesTheTop(p, key, 2)
  {
    TwoStepsFire(p, key);
    var f := p.findings[1];
    assert Standing(p, key, 2, f) by { assert f in p.findings; }
    forall h | Standing(p, key, 2, h) && 1 <= ActionRank(h.recommendedAction) ensures h.ruleId in p.rules[2].ruleIds {
      var i :| 0 <= i < 3 && h == p.findings[i];
      assert Fires(p, key, 0) ==> h.ruleId !in p.rules[0].ruleIds;
    }
    assert TakesFrom(p, key, 2, f.recommendedAction);
  }

  lemma TwoStepsLower(p: Pass, g: RootCauseGroup)
    requires p.Valid() && |p.rules| == 4 && TwoSteps(p, g.Key()) && Consistent(p.findings, g)
    ensures Lowers(p, g, 0) && Lowers(p, g, 2)
  {
    FirstStepTakesTheTop(p, g.Key());
    SecondStepTakesTheTop(p, g.Key());
    LowersIff(p, g, 0);
    LowersIff(p, g, 2);
  }

  lemma TwoStepsHold(p: Pass)
    requires p.rules == Pipeline() && |p.rules| == 4 && p.gates == [true, true, true, true]
    requires p.findings == TwoStepFindings()
    ensures TwoSteps(p, KeyOf(p.findings[0])) && KeyOf(p.findings[0]).signalClass != ReviewSignal
    ensures p.findings[2].ruleId !in CalibratedRuleIds()
  {
    var internal, bystander := p.findings[1].ruleId, p.findings[2].ruleId;
    assert |internal| == 23 && |Tier1().ruleIds[0]| == 34 && |Tier2().ruleIds[0]| == 30;
    assert |bystander| == 9;
  }

  lemma TwoStepPass() returns (p: Pass)
    ensures p == PassOver(TwoStepFindings()) && p.Valid() && |p.rules| == 4 && |p.findings| == 3
    ensures TwoSteps(p, KeyOf(p.findings[0])) && KeyOf(p.findings[0]).signalClass != ReviewSignal
    ensures p.findings[2].ruleId !in CalibratedRuleIds()
  {
    p := PassOver(TwoStepFindings());
    PipelineIsValid(TwoStepFindings());
    QuietGates(TwoStepFindings());
    TwoStepsHold(p);
  }

  /** The group of the three findings, as the package builds it. */
  lemma TwoStepGroup(p: Pass) returns (g: RootCauseGroup)
    requires p.Valid() && |p.rules| == 4 && |p.findings| == 3 && TwoSteps(p, KeyOf(p.findings[0]))
    ensures g in RootCauseGroups(p.findings) && Consistent(p.findings, g) && g.Key() == KeyOf(p.findings[0])
    ensures Lowers(p, g, 0) && Lowers(p, g, 2)
  {
    assert p.findings[0] in p.findings;
    g := GroupOfFinding(p.findings, p.findings[0]);
    TwoStepsLower(p, g);
  }

  lemma TwoCreditsReached(p: Pass, g: RootCauseGroup)
    requires ShippedCredits(p) && Lowers(p, g, 0) && Lowers(p, g, 2)
    ensures RiskAdjustment(p, [g], 4) == -22
  {
    AdjustmentIsSumOfCredits(p, [g]);
    assert g in [g];
    OneGroupBound(p, g);
  }

  /** The single-group bound of 22 points is reached by a group of some package. */
  lemma SingleGroupRiskBoundReached() returns (p: Pass, g: RootCauseGroup)
    ensures p == PassOver(TwoStepFindings()) && p.Valid() && g in RootCauseGroups(TwoStepFindings())
    ensures Calibration(p, [g]).riskAdjustment == -22
  {
    p := TwoStepPass();
    g := TwoStepGroup(p);
    PipelineCredits(TwoStepFindings());
    TwoCreditsReached(p, g);
  }

  /** Rule `k`'s note about the group carries a class the calibrated group does not have. */
  ghost predicate StaleNote(p: Pass, g: RootCauseGroup, k: nat)
    requires k < |p.rules| == |p.gates|
  {
    Fires(p, g.Key(), k) && NoteOf(p, g, k).signalClass != GroupAfter(p, g, |p.rules|).signalClass
  }

  /** An early note keeps the original class when a later rule is the first to reclassify. */
  lemma EarlyNoteGoesStale(p: Pass, g: RootCauseGroup, k: nat, m: nat)
    requires p.Valid() && k < m < |p.rules| && Fires(p, g.Key(), k) && Lowers(p, g, m)
    requires g.signalClass != ReviewSignal && p.rules[m].reclassifySignal
    requires forall j: nat :: j <= k ==> !p.rules[j].reclassifySignal
    ensures StaleNote(p, g, k)
  {
    NoteFollowsReclassification(p, g, k);
    assert Reclassifies(p, g, m);
  }

  lemma TwoStepsGoStale(p: Pass) returns (g: RootCauseGroup)
    requires p.Valid() && |p.rules| == 4 && |p.findings| == 3 && TwoSteps(p, KeyOf(p.findings[0]))
    requires KeyOf(p.findings[0]).signalClass != ReviewSignal
    requires !p.rules[0].reclassifySignal && p.rules[2].reclassifySignal
    requires forall k :: 0 <= k < 4 ==> p.findings[2].ruleId !in p.rules[k].ruleIds
    ensures g in RootCauseGroups(p.findings) && StaleNote(p, g, 0)
    ensures GroupAfter(p, g, 4) in Calibration(p, RootCauseGroups(p.findings)).rootCauseGroups
  {
    hide Consistent, Lowers, GroupAfter, Calibration, RootCauseGroups, StaleNote;
    TwoStepsFire(p, KeyOf(p.findings[0]));
    g := TwoStepGroup(p);
    EarlyNoteGoesStale(p, g, 0, 2);
    assert p.findings[2] in p.findings && KeyOf(p.findings[2]) == g.Key();
    CalibrationNeverSilences(p, RootCauseGroups(p.findings), g, p.findings[2]);
  }

  /** So the class in a note need not be the class of the calibrated group it belongs to, even
      though that group survives the pass. */
  lemma StaleNoteExists() returns (p: Pass, g: RootCauseGroup)
    ensures p.Valid() && |p.rules| == 4 && p == PassOver(TwoStepFindings())
    ensures g in RootCauseGroups(p.findings) && StaleNote(p, g, 0)
    ensures GroupAfter(p, g, 4) in Calibration(p, RootCauseGroups(p.findings)).rootCauseGroups
  {
    p := TwoStepPass();
    TierFlags();
    forall k | 0 <= k < 4 ensures p.findings[2].ruleId !in p.rules[k].ruleIds {
      UncalibratedIsNeverExcluded(p.findings[2].ruleId, k);
    }
    g := TwoStepsGoStale(p);
  }

  lemma TierFlags()
    ensures |Pipeline()| == 4
    ensures !Pipeline()[0].reclassifySignal && !Pipeline()[1].reclassifySignal
    ensures Pipeline()[2].reclassifySignal && Pipeline()[3].reclassifySignal
  {
  }
}
