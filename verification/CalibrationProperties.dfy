/** What calibration promises, proved of the specification that the loops refine. */
module CalibrationProperties {
  import opened Orders
  import opened Findings
  import opened RootCauses
  import opened VerdictCalibration

  // ---- Exclusions accumulate exactly the ids of the fired rules ----

  lemma {:induction false} ExcludedMembers(p: Pass, key: GroupKey, n: nat, id: string)
    requires n <= |p.rules| == |p.gates|
    ensures id in Excluded(p, key, n)
       <==> exists k: nat :: k < n && Fires(p, key, k) && id in p.rules[k].ruleIds
  {
    if n > 0 {
      ExcludedMembers(p, key, n - 1, id);
      if Fires(p, key, n - 1) && id in p.rules[n - 1].ruleIds {
        assert n - 1 < n;
      }
    }
  }

  lemma {:induction false} ExcludedGrows(p: Pass, key: GroupKey, m: nat, n: nat, id: string)
    requires m <= n <= |p.rules| == |p.gates| && id in Excluded(p, key, m)
    ensures id in Excluded(p, key, n)
  {
    if m < n {
      ExcludedGrows(p, key, m, n - 1, id);
    }
  }

  // ---- The action chain ----

  lemma StrongestActionMonotone(a: seq<Finding>, b: seq<Finding>)
    requires forall f :: f in a ==> f in b
    ensures ActionRank(StrongestAction(a)) <= ActionRank(StrongestAction(b))
  {
    StrongestActionIsMax(a);
    StrongestActionIsMax(b);
  }

  lemma RemainingShrinks(p: Pass, key: GroupKey, m: nat, n: nat)
    requires m <= n <= |p.rules| == |p.gates|
    ensures forall f :: f in Remaining(p.findings, key, Excluded(p, key, n))
                    ==> f in Remaining(p.findings, key, Excluded(p, key, m))
  {
    RemainingMembers(p.findings, key, Excluded(p, key, m));
    RemainingMembers(p.findings, key, Excluded(p, key, n));
    forall id | id in Excluded(p, key, m) ensures id in Excluded(p, key, n) {
      ExcludedGrows(p, key, m, n, id);
    }
  }

  lemma FiredIsReduced(p: Pass, g: RootCauseGroup, k: nat, n: nat)
    requires k < n <= |p.rules| == |p.gates| && Fires(p, g.Key(), k)
    ensures ActionAfter(p, g, n) == StrongestAction(Remaining(p.findings, g.Key(), Excluded(p, g.Key(), n)))
  {
    assert AnyFired(p, g.Key(), n);
  }

  /** Once rule `k` has fired, later rules can only lower the action. */
  lemma ActionNeverRisesAfter(p: Pass, g: RootCauseGroup, k: nat, m: nat, n: nat)
    requires k < m <= n <= |p.rules| == |p.gates| && Fires(p, g.Key(), k)
    ensures ActionRank(ActionAfter(p, g, n)) <= ActionRank(ActionAfter(p, g, m))
  {
    FiredIsReduced(p, g, k, m);
    FiredIsReduced(p, g, k, n);
    RemainingShrinks(p, g.Key(), m, n);
    StrongestActionMonotone(Remaining(p.findings, g.Key(), Excluded(p, g.Key(), n)),
                            Remaining(p.findings, g.Key(), Excluded(p, g.Key(), m)));
  }

  /** A group that is consistent with the findings always equals one recomputation. */
  lemma ConsistentReduced(p: Pass, g: RootCauseGroup, n: nat)
    requires n <= |p.rules| == |p.gates| && Consistent(p.findings, g)
    ensures Reduced(p, g, n) == Recomputed(p.findings, g.Key(), Excluded(p, g.Key(), n))
  {
    if !AnyFired(p, g.Key(), n) {
      NothingExcluded(p, g.Key(), n);
    }
  }

  lemma {:induction false} NothingExcluded(p: Pass, key: GroupKey, n: nat)
    requires n <= |p.rules| == |p.gates| && !AnyFired(p, key, n)
    ensures Excluded(p, key, n) == []
  {
    if n > 0 {
      assert !Fires(p, key, n - 1) by { assert n - 1 < n; }
      forall k: nat | k < n - 1 ensures !Fires(p, key, k) { assert k < n; }
      NothingExcluded(p, key, n - 1);
    }
  }

  /** Calibration never raises the action of a consistent group, at any point of the pass. */
  lemma ActionNeverRises(p: Pass, g: RootCauseGroup, m: nat, n: nat)
    requires m <= n <= |p.rules| == |p.gates| && Consistent(p.findings, g)
    ensures ActionRank(ActionAfter(p, g, n)) <= ActionRank(ActionAfter(p, g, m))
  {
    ConsistentReduced(p, g, m);
    ConsistentReduced(p, g, n);
    RemainingShrinks(p, g.Key(), m, n);
    StrongestActionMonotone(Remaining(p.findings, g.Key(), Excluded(p, g.Key(), n)),
                            Remaining(p.findings, g.Key(), Excluded(p, g.Key(), m)));
  }

  // ---- No silencing ----

  /** A finding that no rule may exclude keeps its group alive, at no less than its own action. */
  lemma CalibrationNeverSilences(p: Pass, groups: seq<RootCauseGroup>, g: RootCauseGroup, f: Finding)
    requires p.Valid() && g in groups && Consistent(p.findings, g)
    requires f in p.findings && KeyOf(f) == g.Key()
    requires forall k :: 0 <= k < |p.rules| ==> f.ruleId !in p.rules[k].ruleIds
    ensures var r := GroupAfter(p, g, |p.rules|);
            r in Calibration(p, groups).rootCauseGroups
            && ActionRank(f.recommendedAction) <= ActionRank(r.strongestAction) <= ActionRank(g.strongestAction)
  {
    var n := |p.rules|;
    var excluded := Excluded(p, g.Key(), n);
    ExcludedMembers(p, g.Key(), n, f.ruleId);
    RemainingMembers(p.findings, g.Key(), excluded);
    var rest := Remaining(p.findings, g.Key(), excluded);
    assert f in rest;
    StrongestActionIsMax(rest);
    ConsistentReduced(p, g, n);
    ActionNeverRises(p, g, 0, n);
    NothingExcluded(p, g.Key(), 0);
    var i :| 0 <= i < |groups| && groups[i] == g;
    assert CalibratedGroups(p, groups)[i] == GroupAfter(p, g, n);
    SurvivingMembers(CalibratedGroups(p, groups));
  }

  /** The same, from the findings alone: the groups are the ones built from them. */
  lemma PackageNeverSilences(p: Pass, f: Finding)
    requires p.Valid() && f in p.findings
    requires forall k :: 0 <= k < |p.rules| ==> f.ruleId !in p.rules[k].ruleIds
    ensures exists r :: r in Calibration(p, RootCauseGroups(p.findings)).rootCauseGroups
                     && r.scope == f.artifactScope && r.category == f.category
                     && ActionRank(f.recommendedAction) <= ActionRank(r.strongestAction)
  {
    var g := GroupOfFinding(p.findings, f);
    CalibrationNeverSilences(p, RootCauseGroups(p.findings), g, f);
    var r := GroupAfter(p, g, |p.rules|);
    assert r.scope == f.artifactScope && r.category == f.category;
  }

  lemma {:induction false} SurvivingMembers(groups: seq<RootCauseGroup>)
    ensures forall g :: g in Surviving(groups) <==> g in groups && g.findingCount > 0
  {
    if groups != [] {
      SurvivingMembers(groups[..|groups| - 1]);
      assert groups == groups[..|groups| - 1] + [groups[|groups| - 1]];
    }
  }

  /** A consistent group is pruned exactly when each of its findings was excluded by a fired rule. */
  lemma PrunedExactlyWhenAllExcluded(p: Pass, g: RootCauseGroup)
    requires p.Valid() && Consistent(p.findings, g)
    ensures GroupAfter(p, g, |p.rules|).findingCount == 0
       <==> forall f :: f in p.findings && KeyOf(f) == g.Key() ==> f.ruleId in Excluded(p, g.Key(), |p.rules|)
  {
    var excluded := Excluded(p, g.Key(), |p.rules|);
    var rest := Remaining(p.findings, g.Key(), excluded);
    ConsistentReduced(p, g, |p.rules|);
    RemainingMembers(p.findings, g.Key(), excluded);
    if rest != [] { HasMember(rest); }
  }

  lemma ReclassifierLowers(p: Pass, g: RootCauseGroup, k: nat)
    requires k < |p.rules| == |p.gates| && Consistent(p.findings, g) && Reclassifies(p, g, k)
    ensures ActionRank(ActionAfter(p, g, k + 1)) < ActionRank(g.strongestAction)
  {
    ActionNeverRises(p, g, 0, k);
    StartsUnreduced(p, g);
  }

  lemma Reclassifier(p: Pass, g: RootCauseGroup, n: nat) returns (k: nat)
    requires n <= |p.rules| == |p.gates| && ClassAfter(p, g, n) != g.signalClass
    ensures k < n && Reclassifies(p, g, k) && ClassAfter(p, g, n) == ReviewSignal
  {
    k :| k < n && Reclassifies(p, g, k);
  }

  lemma StartsUnreduced(p: Pass, g: RootCauseGroup)
    requires p.Valid()
    ensures Reduced(p, g, 0) == g && ActionAfter(p, g, 0) == g.strongestAction
  {
  }

  lemma ReclassifierEndsLower(p: Pass, g: RootCauseGroup, k: nat)
    requires k < |p.rules| == |p.gates| && Consistent(p.findings, g) && Reclassifies(p, g, k)
    ensures ActionRank(ActionAfter(p, g, |p.rules|)) < ActionRank(g.strongestAction)
  {
    hide *;
    ReclassifierLowers(p, g, k);
    ActionNeverRises(p, g, k + 1, |p.rules|);
  }

  /** A group becomes a review signal only if calibration strictly lowered its action. */
  lemma ReclassifiedOnlyIfLowered(p: Pass, g: RootCauseGroup)
    requires p.Valid() && Consistent(p.findings, g)
    requires ClassAfter(p, g, |p.rules|) != g.signalClass
    ensures ClassAfter(p, g, |p.rules|) == ReviewSignal
    ensures ActionRank(ActionAfter(p, g, |p.rules|)) < ActionRank(g.strongestAction)
  {
    var k := Reclassifier(p, g, |p.rules|);
    ReclassifierEndsLower(p, g, k);
  }

  // ---- Risk accounting ----

  /** Which rules lowered the group. */
  ghost function Lowerings(p: Pass, g: RootCauseGroup): seq<bool>
    requires p.Valid()
  {
    seq(|p.rules|, k requires 0 <= k < |p.rules| => Lowers(p, g, k))
  }

  function CountTrue(flags: seq<bool>): nat {
    if flags == [] then 0 else CountTrue(flags[..|flags| - 1]) + if flags[|flags| - 1] then 1 else 0
  }

  /** How often a chain of levels strictly drops. */
  function Drops(levels: seq<int>): nat {
    if |levels| <= 1 then 0
    else Drops(levels[..|levels| - 1]) + if levels[|levels| - 1] < levels[|levels| - 2] then 1 else 0
  }

  /** A chain inside 0..2 that only ever rises before its first drop drops at most twice. */
  lemma {:induction false} FewDrops(levels: seq<int>, start: nat)
    requires forall i :: 0 <= i < |levels| ==> 0 <= levels[i] <= 2
    requires start < |levels|
    requires forall i :: 0 <= i < start - 1 ==> levels[i + 1] == levels[i]
    requires forall i :: start <= i < |levels| - 1 ==> levels[i + 1] <= levels[i]
    ensures Drops(levels) <= 2 - levels[|levels| - 1]
    decreases |levels|
  {
    var n := |levels|;
    if n > 1 {
      var init := levels[..n - 1];
      if start < n - 1 {
        FewDrops(init, start);
      } else {
        Flat(init);
      }
    }
  }

  lemma {:induction false} Flat(levels: seq<int>)
    requires forall i :: 0 <= i < |levels| - 1 ==> levels[i + 1] == levels[i]
    ensures Drops(levels) == 0
  {
    if |levels| > 1 {
      Flat(levels[..|levels| - 1]);
    }
  }

  ghost function Levels(p: Pass, g: RootCauseGroup, n: nat): seq<int>
    requires n <= |p.rules| == |p.gates|
  {
    seq(n + 1, k requires 0 <= k < n + 1 => ActionRank(ActionAfter(p, g, k)))
  }

  lemma IdleKeepsAction(p: Pass, g: RootCauseGroup, k: nat)
    requires k < |p.rules| == |p.gates| && !Fires(p, g.Key(), k)
    ensures ActionAfter(p, g, k + 1) == ActionAfter(p, g, k)
  {
    IdleStep(p, g, k);
  }

  lemma LowersIsDrop(p: Pass, g: RootCauseGroup, k: nat)
    requires k < |p.rules| == |p.gates|
    ensures Lowers(p, g, k) <==> ActionRank(ActionAfter(p, g, k + 1)) < ActionRank(ActionAfter(p, g, k))
  {
    if !Fires(p, g.Key(), k) {
      IdleKeepsAction(p, g, k);
    }
  }

  lemma {:induction false} CountIsDrops(flags: seq<bool>, levels: seq<int>)
    requires |levels| == |flags| + 1
    requires forall k :: 0 <= k < |flags| ==> (flags[k] <==> levels[k + 1] < levels[k])
    ensures CountTrue(flags) == Drops(levels)
  {
    if flags != [] {
      var n := |flags|;
      CountIsDrops(flags[..n - 1], levels[..n]);
      assert flags[n - 1] <==> levels[n] < levels[n - 1];
    }
  }

  lemma LoweringIsDropAt(p: Pass, g: RootCauseGroup, k: nat)
    requires p.Valid() && k < |p.rules|
    ensures Lowerings(p, g)[k] <==> Levels(p, g, |p.rules|)[k + 1] < Levels(p, g, |p.rules|)[k]
  {
    LowersIsDrop(p, g, k);
  }

  lemma LoweringsAreDrops(p: Pass, g: RootCauseGroup)
    requires p.Valid()
    ensures CountTrue(Lowerings(p, g)) == Drops(Levels(p, g, |p.rules|))
  {
    forall k | 0 <= k < |p.rules|
      ensures Lowerings(p, g)[k] <==> Levels(p, g, |p.rules|)[k + 1] < Levels(p, g, |p.rules|)[k]
    {
      LoweringIsDropAt(p, g, k);
    }
    CountIsDrops(Lowerings(p, g), Levels(p, g, |p.rules|));
  }

  lemma FirstFiring(p: Pass, key: GroupKey) returns (start: nat)
    requires p.Valid()
    ensures start <= |p.rules| && (start < |p.rules| ==> Fires(p, key, start))
    ensures forall k: nat :: k < start ==> !Fires(p, key, k)
  {
    start := 0;
    while start < |p.rules| && !Fires(p, key, start)
      invariant start <= |p.rules|
      invariant forall k: nat :: k < start ==> !Fires(p, key, k)
    {
      start := start + 1;
    }
  }

  lemma LevelsFlat(p: Pass, g: RootCauseGroup, levels: seq<int>, start: nat)
    requires p.Valid() && levels == Levels(p, g, |p.rules|) && start <= |p.rules|
    requires forall k: nat :: k < start ==> !Fires(p, g.Key(), k)
    ensures forall i :: 0 <= i < start ==> levels[i + 1] == levels[i]
  {
    forall i | 0 <= i < start ensures levels[i + 1] == levels[i] {
      IdleKeepsAction(p, g, i);
    }
  }

  lemma LevelsFall(p: Pass, g: RootCauseGroup, levels: seq<int>, start: nat)
    requires p.Valid() && levels == Levels(p, g, |p.rules|)
    requires start < |p.rules| && Fires(p, g.Key(), start)
    ensures forall i :: start + 1 <= i < |p.rules| ==> levels[i + 1] <= levels[i]
  {
    forall i | start + 1 <= i < |p.rules| ensures levels[i + 1] <= levels[i] {
      LevelAt(p, g, levels, i);
      LevelAt(p, g, levels, i + 1);
      ActionNeverRisesAfter(p, g, start, i, i + 1);
    }
  }

  lemma LevelAt(p: Pass, g: RootCauseGroup, levels: seq<int>, i: nat)
    requires p.Valid() && levels == Levels(p, g, |p.rules|) && i <= |p.rules|
    ensures |levels| == |p.rules| + 1 && levels[i] == ActionRank(ActionAfter(p, g, i))
  {
  }

  lemma LevelsBounded(p: Pass, g: RootCauseGroup, levels: seq<int>)
    requires p.Valid() && levels == Levels(p, g, |p.rules|)
    ensures |levels| == |p.rules| + 1
    ensures forall i :: 0 <= i < |levels| ==> 0 <= levels[i] <= 2
  {
  }

  /** With three action levels at most two rules can lower one group, consistent or not. */
  lemma AtMostTwoRulesLower(p: Pass, g: RootCauseGroup)
    requires p.Valid()
    ensures CountTrue(Lowerings(p, g)) <= 2
  {
    LoweringsAreDrops(p, g);
    var levels := Levels(p, g, |p.rules|);
    var start := FirstFiring(p, g.Key());
    LevelsFlat(p, g, levels, start);
    LevelsBounded(p, g, levels);
    if start < |p.rules| {
      LevelsFall(p, g, levels, start);
      FewDrops(levels, start + 1);
    } else {
      Flat(levels);
    }
  }

  // ---- Notes ----

  /** Of all the notes a group produces, the last one carries the group's final class. */
  lemma LastNoteCarriesFinalClass(p: Pass, g: RootCauseGroup, k: nat)
    requires p.Valid() && k < |p.rules| && Fires(p, g.Key(), k)
    requires forall j :: k < j < |p.rules| ==> !Fires(p, g.Key(), j)
    ensures NoteOf(p, g, k).signalClass == GroupAfter(p, g, |p.rules|).signalClass
  {
    if j: nat :| j < |p.rules| && Reclassifies(p, g, j) {
      assert j < k + 1;
    }
    if j: nat :| j < k + 1 && Reclassifies(p, g, j) {
      assert j < |p.rules|;
    }
  }

  /** For any group: a note carries the final class unless a later rule was the first to reclassify. */
  lemma NoteFollowsReclassification(p: Pass, g: RootCauseGroup, k: nat)
    requires p.Valid() && k < |p.rules| && Fires(p, g.Key(), k)
    ensures NoteOf(p, g, k).signalClass == GroupAfter(p, g, |p.rules|).signalClass
       <==> (g.signalClass == ReviewSignal
             || (exists j: nat :: j <= k && Reclassifies(p, g, j))
             || (forall j: nat :: k < j < |p.rules| ==> !Reclassifies(p, g, j)))
  {
    if j: nat :| j <= k && Reclassifies(p, g, j) {
      assert j < k + 1 && j < |p.rules|;
    } else {
      assert !exists j: nat :: j < k + 1 && Reclassifies(p, g, j);
      if j: nat :| k < j < |p.rules| && Reclassifies(p, g, j) {
        assert j < |p.rules|;
      }
    }
  }

  // ---- The same, read off the findings ----

  /** `f` belongs to the group and no rule that fired before rule `n` lists its id. */
  ghost predicate Standing(p: Pass, key: GroupKey, n: nat, f: Finding)
    requires n <= |p.rules| == |p.gates|
  {
    && f in p.findings && KeyOf(f) == key
    && forall k: nat :: k < n && Fires(p, key, k) ==> f.ruleId !in p.rules[k].ruleIds
  }

  /** Rule `k` fires and lists every standing finding from some non-log action upwards. */
  ghost predicate TakesTheTop(p: Pass, key: GroupKey, k: nat)
    requires k < |p.rules| == |p.gates|
  {
    && Fires(p, key, k)
    && exists f :: Standing(p, key, k, f) && f.recommendedAction != Log && TakesFrom(p, key, k, f.recommendedAction)
  }

  /** Every standing finding with at least this action is on rule `k`'s list. */
  ghost predicate TakesFrom(p: Pass, key: GroupKey, k: nat, action: RecommendedAction)
    requires k < |p.rules| == |p.gates|
  {
    forall h :: Standing(p, key, k, h) && ActionRank(action) <= ActionRank(h.recommendedAction)
      ==> h.ruleId in p.rules[k].ruleIds
  }

  /** The group had more than log entries, and nothing else is standing before rule `n`. */
  ghost predicate OnlyLogsStand(p: Pass, key: GroupKey, n: nat)
    requires n <= |p.rules| == |p.gates|
  {
    && (exists f :: f in p.findings && KeyOf(f) == key && f.recommendedAction != Log)
    && (forall h :: Standing(p, key, n, h) ==> h.recommendedAction == Log)
  }

  /** Rule `k` is one that reclassifies, and the findings give it reason to. */
  ghost predicate Turns(p: Pass, key: GroupKey, k: nat)
    requires k < |p.rules| == |p.gates|
  {
    && Fires(p, key, k) && p.rules[k].reclassifySignal
    && (TakesTheTop(p, key, k) || OnlyLogsStand(p, key, k + 1))
  }

  lemma StandingIff(p: Pass, key: GroupKey, n: nat, f: Finding)
    requires n <= |p.rules| == |p.gates|
    ensures f in Remaining(p.findings, key, Excluded(p, key, n)) <==> Standing(p, key, n, f)
  {
    RemainingMembers(p.findings, key, Excluded(p, key, n));
    ExcludedMembers(p, key, n, f.ruleId);
  }

  lemma StandingStep(p: Pass, key: GroupKey, k: nat, f: Finding)
    requires k < |p.rules| == |p.gates| && Fires(p, key, k)
    ensures Standing(p, key, k + 1, f) <==> Standing(p, key, k, f) && f.ruleId !in p.rules[k].ruleIds
  {
    if Standing(p, key, k + 1, f) {
      assert k < k + 1;
      forall j: nat | j < k && Fires(p, key, j) ensures f.ruleId !in p.rules[j].ruleIds { assert j < k + 1; }
    }
  }

  /** The action of a consistent group before rule `n` is the strongest one standing. */
  ghost predicate IsTop(p: Pass, key: GroupKey, n: nat, action: RecommendedAction)
    requires n <= |p.rules| == |p.gates|
  {
    && (forall f :: Standing(p, key, n, f) ==> ActionRank(f.recommendedAction) <= ActionRank(action))
    && (action == Log || exists f :: Standing(p, key, n, f) && f.recommendedAction == action)
  }

  lemma ActionIsTop(p: Pass, g: RootCauseGroup, n: nat)
    requires n <= |p.rules| == |p.gates| && Consistent(p.findings, g)
    ensures IsTop(p, g.Key(), n, ActionAfter(p, g, n))
  {
    var rest := Remaining(p.findings, g.Key(), Excluded(p, g.Key(), n));
    ConsistentReduced(p, g, n);
    StrongestActionIsMax(rest);
    forall f ensures f in rest <==> Standing(p, g.Key(), n, f) {
      StandingIff(p, g.Key(), n, f);
    }
  }

  lemma FallTakesTheTop(p: Pass, key: GroupKey, k: nat, before: RecommendedAction, after: RecommendedAction)
    requires k < |p.rules| == |p.gates| && Fires(p, key, k)
    requires IsTop(p, key, k, before) && IsTop(p, key, k + 1, after) && ActionRank(after) < ActionRank(before)
    ensures TakesTheTop(p, key, k)
  {
    var f :| Standing(p, key, k, f) && f.recommendedAction == before;
    forall h | Standing(p, key, k, h) && ActionRank(before) <= ActionRank(h.recommendedAction)
      ensures h.ruleId in p.rules[k].ruleIds
    {
      StandingStep(p, key, k, h);
    }
    assert TakesFrom(p, key, k, before);
  }

  lemma TakingTheTopFalls(p: Pass, key: GroupKey, k: nat, before: RecommendedAction, after: RecommendedAction)
    requires k < |p.rules| == |p.gates| && Fires(p, key, k)
    requires IsTop(p, key, k, before) && IsTop(p, key, k + 1, after) && TakesTheTop(p, key, k)
    ensures ActionRank(after) < ActionRank(before)
  {
    var f :| Standing(p, key, k, f) && f.recommendedAction != Log && TakesFrom(p, key, k, f.recommendedAction);
    if after != Log {
      var h :| Standing(p, key, k + 1, h) && h.recommendedAction == after;
      StandingStep(p, key, k, h);
    }
  }

  /** A rule lowers a consistent group exactly when its list takes the top of what is standing. */
  lemma LowersIff(p: Pass, g: RootCauseGroup, k: nat)
    requires k < |p.rules| == |p.gates| && Consistent(p.findings, g)
    ensures Lowers(p, g, k) <==> TakesTheTop(p, g.Key(), k)
  {
    hide *;
    ActionIsTop(p, g, k);
    ActionIsTop(p, g, k + 1);
    LowersBetweenTops(p, g, k);
  }

  lemma LowersBetweenTops(p: Pass, g: RootCauseGroup, k: nat)
    requires k < |p.rules| == |p.gates|
    requires IsTop(p, g.Key(), k, ActionAfter(p, g, k)) && IsTop(p, g.Key(), k + 1, ActionAfter(p, g, k + 1))
    ensures Lowers(p, g, k) <==> TakesTheTop(p, g.Key(), k)
  {
    hide ActionAfter, IsTop;
    var before, after := ActionAfter(p, g, k), ActionAfter(p, g, k + 1);
    if Lowers(p, g, k) {
      FallTakesTheTop(p, g.Key(), k, before, after);
    }
    if TakesTheTop(p, g.Key(), k) {
      TakingTheTopFalls(p, g.Key(), k, before, after);
    }
  }

  lemma SilencedIff(p: Pass, g: RootCauseGroup, n: nat)
    requires p.Valid() && n <= |p.rules| && Consistent(p.findings, g)
    ensures ActionAfter(p, g, n) == Log && g.strongestAction != Log <==> OnlyLogsStand(p, g.Key(), n)
  {
    hide Consistent, ActionAfter;
    ActionIsTop(p, g, 0);
    ActionIsTop(p, g, n);
    StartsUnreduced(p, g);
  }

  /** A rule reclassifies a consistent group exactly when the findings give it reason to. */
  lemma ReclassifiesIff(p: Pass, g: RootCauseGroup, k: nat)
    requires p.Valid() && k < |p.rules| && Consistent(p.findings, g)
    ensures Reclassifies(p, g, k) <==> Turns(p, g.Key(), k)
  {
    hide Consistent, ActionAfter, Lowers, TakesTheTop, OnlyLogsStand;
    LowersIff(p, g, k);
    SilencedIff(p, g, k + 1);
  }

  /** The note of rule `k` carries the final class of a consistent group exactly when the group was
      already a review signal, a rule up to `k` turns it, or no later rule does. */
  lemma NoteCarriesFinalClassIff(p: Pass, g: RootCauseGroup, k: nat)
    requires p.Valid() && k < |p.rules| && Fires(p, g.Key(), k) && Consistent(p.findings, g)
    ensures NoteOf(p, g, k).signalClass == GroupAfter(p, g, |p.rules|).signalClass
       <==> (g.signalClass == ReviewSignal
             || (exists j: nat :: j <= k && Turns(p, g.Key(), j))
             || (forall j: nat :: k < j < |p.rules| ==> !Turns(p, g.Key(), j)))
  {
    hide Consistent, Fires, Reclassifies, Turns, NoteOf, GroupAfter;
    NoteFollowsReclassification(p, g, k);
    forall j: nat | j < |p.rules| ensures Reclassifies(p, g, j) <==> Turns(p, g.Key(), j) {
      ReclassifiesIff(p, g, j);
    }
  }

  lemma {:induction false} SomesMembers<T>(s: seq<Option<T>>, x: T)
    ensures x in Somes(s) <==> Some(x) in s
  {
    if s != [] {
      var init, last := s[..|s| - 1], s[|s| - 1];
      assert s == init + [last];
      SomesMembers(init, x);
    }
  }

  lemma NotesOfMembers(p: Pass, g: RootCauseGroup, n: nat, note: Note)
    requires n <= |p.rules| == |p.gates|
    ensures note in NotesOf(p, g, n) <==> exists k: nat :: k < n && NoteAt(p, g, k) == Some(note)
  {
    var s := seq(n, k requires 0 <= k < n => NoteAt(p, g, k));
    SomesMembers(s, note);
    if k: nat :| k < n && NoteAt(p, g, k) == Some(note) {
      assert s[k] in s;
    }
  }

  lemma {:induction false} AllNotesMembers(p: Pass, groups: seq<RootCauseGroup>, note: Note)
    requires p.Valid()
    ensures note in AllNotes(p, groups) <==> exists g :: g in groups && note in NotesOf(p, g, |p.rules|)
  {
    if groups != [] {
      var init, last := groups[..|groups| - 1], groups[|groups| - 1];
      assert groups == init + [last];
      assert last in groups;
      AllNotesMembers(p, init, note);
      if g :| g in init && note in NotesOf(p, g, |p.rules|) {
        assert g in groups;
      }
      if g :| g in groups && note in NotesOf(p, g, |p.rules|) {
        assert g in init || g == last;
      }
    }
  }

  lemma CompareNoteTotal()
    ensures TotalOrder(CompareNote)
  {
    CompareStringTotal();
    forall x, y ensures CompareNote(x, y) == Equal <==> x == y {
      NoteTies(x, y);
    }
    forall x, y, z | CompareNote(x, y) == Less && CompareNote(y, z) == Less
      ensures CompareNote(x, z) == Less
    {
      NoteTransitive(x, y, z);
    }
  }

  lemma NoteTies(x: Note, y: Note)
    requires TotalOrder(CompareString)
    ensures CompareNote(x, y) == Equal <==> x == y
  {
  }

  lemma NoteTransitive(x: Note, y: Note, z: Note)
    requires TotalOrder(CompareString)
    requires CompareNote(x, y) == Less && CompareNote(y, z) == Less
    ensures CompareNote(x, z) == Less
  {
  }

  /** The final note list: strictly ordered on all six fields, one entry for each distinct note. */
  lemma NotesAreCanonical(p: Pass, groups: seq<RootCauseGroup>, note: Note)
    requires p.Valid()
    ensures StrictlySorted(CompareNote, Calibration(p, groups).notes)
    ensures note in Calibration(p, groups).notes
       <==> exists g, k: nat :: g in groups && k < |p.rules| && NoteAt(p, g, k) == Some(note)
  {
    CompareNoteTotal();
    CanonicalCorrect(CompareNote, AllNotes(p, groups));
    AllNotesMembers(p, groups, note);
    forall g {
      NotesOfMembers(p, g, |p.rules|, note);
    }
  }
}
