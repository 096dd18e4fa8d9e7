/** The calibration pass (verdict_calibration.rs).

    The specification says, for each group and each prefix of the rule list, what the group must
    look like: one recomputation that excludes the rule ids of every rule fired so far. The
    methods run the source's nested loop over mutable groups and states and are proved to reach
    exactly that, for any rule list. */
module VerdictCalibration {
  import opened Orders
  import opened Findings
  import opened RootCauses

  /** The fixed sentence attached to each rule. The rule id decides which one a note carries. */
  datatype Rationale = BlastRadiusContext | ExplainabilityOnly | ReviewOnlyTargets | NotStandaloneMalicious

  function RationaleRank(r: Rationale): nat {
    match r
    case BlastRadiusContext => 1
    case ExplainabilityOnly => 0
    case ReviewOnlyTargets => 2
    case NotStandaloneMalicious => 3
  }

  datatype CalibrationRule = CalibrationRule(
    triggerRuleIds: seq<string>,
    ruleIds: seq<string>,
    riskDelta: int,
    reclassifySignal: bool,
    effectDowngraded: string,
    effectUnchanged: string,
    rationale: Rationale,
    noteRuleId: string)

  datatype Note = Note(
    ruleId: string,
    effect: string,
    rationale: Rationale,
    scope: ArtifactScope,
    category: ThreatCategory,
    signalClass: SignalClass)

  datatype VerdictCalibration = VerdictCalibration(
    rootCauseGroups: seq<RootCauseGroup>,
    riskAdjustment: int,
    notes: seq<Note>)

  /** What every group of one calibration pass sees: the rules, their gates and the findings. */
  datatype Pass = Pass(rules: seq<CalibrationRule>, gates: seq<bool>, findings: seq<Finding>) {
    ghost predicate Valid() {
      |gates| == |rules|
    }

    ghost predicate DistinctNoteIds() {
      forall i, j :: 0 <= i < j < |rules| ==> rules[i].noteRuleId != rules[j].noteRuleId
    }
  }

  // ---- Specification: one group ----

  /** Rule `k` fires on a group: only the gate, the findings and the group's original key matter. */
  predicate Fires(p: Pass, key: GroupKey, k: nat)
    requires k < |p.rules| == |p.gates|
  {
    p.gates[k] && exists f | f in p.findings :: KeyOf(f) == key && f.ruleId in p.rules[k].triggerRuleIds
  }

  function Excluded(p: Pass, key: GroupKey, n: nat): seq<string>
    requires n <= |p.rules| == |p.gates|
  {
    if n == 0 then []
    else Excluded(p, key, n - 1) + (if Fires(p, key, n - 1) then p.rules[n - 1].ruleIds else [])
  }

  ghost predicate AnyFired(p: Pass, key: GroupKey, n: nat)
    requires n <= |p.rules| == |p.gates|
  {
    exists k: nat :: k < n && Fires(p, key, k)
  }

  /** Action, count and representatives of `g` once the first `n` rules have been considered. */
  ghost function Reduced(p: Pass, g: RootCauseGroup, n: nat): RootCauseGroup
    requires n <= |p.rules| == |p.gates|
  {
    if AnyFired(p, g.Key(), n) then Recomputed(p.findings, g.Key(), Excluded(p, g.Key(), n)) else g
  }

  ghost function ActionAfter(p: Pass, g: RootCauseGroup, n: nat): RecommendedAction
    requires n <= |p.rules| == |p.gates|
  {
    Reduced(p, g, n).strongestAction
  }

  /** Rule `k` fired and strictly lowered the group's action. */
  ghost predicate Lowers(p: Pass, g: RootCauseGroup, k: nat)
    requires k < |p.rules| == |p.gates|
  {
    Fires(p, g.Key(), k) && ActionRank(ActionAfter(p, g, k + 1)) < ActionRank(ActionAfter(p, g, k))
  }

  /** Rule `k` turned the group into a review signal. */
  ghost predicate Reclassifies(p: Pass, g: RootCauseGroup, k: nat)
    requires k < |p.rules| == |p.gates|
  {
    && Fires(p, g.Key(), k)
    && p.rules[k].reclassifySignal
    && (Lowers(p, g, k) || (ActionAfter(p, g, k + 1) == Log && g.strongestAction != Log))
  }

  ghost function ClassAfter(p: Pass, g: RootCauseGroup, n: nat): SignalClass
    requires n <= |p.rules| == |p.gates|
  {
    if exists k: nat :: k < n && Reclassifies(p, g, k) then ReviewSignal else g.signalClass
  }

  ghost function GroupAfter(p: Pass, g: RootCauseGroup, n: nat): RootCauseGroup
    requires n <= |p.rules| == |p.gates|
  {
    Reduced(p, g, n).(signalClass := ClassAfter(p, g, n))
  }

  ghost function NoteOf(p: Pass, g: RootCauseGroup, k: nat): Note
    requires k < |p.rules| == |p.gates|
  {
    var rule := p.rules[k];
    var effect :=
      if Lowers(p, g, k) then rule.effectDowngraded
      else if rule.reclassifySignal && ClassAfter(p, g, k + 1) != g.signalClass then "reclassified_only"
      else rule.effectUnchanged;
    Note(rule.noteRuleId, effect, rule.rationale, g.scope, g.category, ClassAfter(p, g, k + 1))
  }

  /** What rule `k` reports about the group: a note if it fires. */
  ghost function NoteAt(p: Pass, g: RootCauseGroup, k: nat): Option<Note>
    requires k < |p.rules| == |p.gates|
  {
    if Fires(p, g.Key(), k) then Some(NoteOf(p, g, k)) else None
  }

  function Somes<T>(s: seq<Option<T>>): seq<T> {
    if s == [] then []
    else Somes(s[..|s| - 1]) + (if s[|s| - 1].Some? then [s[|s| - 1].value] else [])
  }

  ghost function NotesOf(p: Pass, g: RootCauseGroup, n: nat): seq<Note>
    requires n <= |p.rules| == |p.gates|
  {
    Somes(seq(n, k requires 0 <= k < n => NoteAt(p, g, k)))
  }

  // ---- Specification: all groups ----

  ghost function CalibratedGroups(p: Pass, groups: seq<RootCauseGroup>): seq<RootCauseGroup>
    requires p.Valid()
  {
    seq(|groups|, i requires 0 <= i < |groups| => GroupAfter(p, groups[i], |p.rules|))
  }

  ghost function AllNotes(p: Pass, groups: seq<RootCauseGroup>): seq<Note>
    requires p.Valid()
  {
    if groups == [] then []
    else AllNotes(p, groups[..|groups| - 1]) + NotesOf(p, groups[|groups| - 1], |p.rules|)
  }

  ghost predicate LowersSome(p: Pass, groups: seq<RootCauseGroup>, k: nat)
    requires k < |p.rules| == |p.gates|
  {
    exists g :: g in groups && Lowers(p, g, k)
  }

  /** Each rule that lowered at least one group is credited once, however many groups it lowered. */
  ghost function RiskAdjustment(p: Pass, groups: seq<RootCauseGroup>, n: nat): int
    requires n <= |p.rules| == |p.gates|
  {
    if n == 0 then 0
    else RiskAdjustment(p, groups, n - 1) + (if LowersSome(p, groups, n - 1) then p.rules[n - 1].riskDelta else 0)
  }

  function Surviving(groups: seq<RootCauseGroup>): seq<RootCauseGroup> {
    if groups == [] then []
    else
      var g := groups[|groups| - 1];
      Surviving(groups[..|groups| - 1]) + (if g.findingCount > 0 then [g] else [])
  }

  function CompareNote(a: Note, b: Note): Ordering {
    Then(CompareInt(ScopeRank(a.scope), ScopeRank(b.scope)),
    Then(CompareInt(CategoryRank(a.category), CategoryRank(b.category)),
    Then(CompareString(a.ruleId, b.ruleId),
    Then(CompareString(a.effect, b.effect),
    Then(CompareInt(RationaleRank(a.rationale), RationaleRank(b.rationale)),
         CompareInt(SignalRank(a.signalClass), SignalRank(b.signalClass)))))))
  }

  ghost function Calibration(p: Pass, groups: seq<RootCauseGroup>): VerdictCalibration
    requires p.Valid()
  {
    VerdictCalibration(
      Surviving(CalibratedGroups(p, groups)),
      RiskAdjustment(p, groups, |p.rules|),
      Canonical(CompareNote, AllNotes(p, groups)))
  }

  // ---- The mutating loop ----

  datatype GroupState = GroupState(
    originalSignalClass: SignalClass,
    originalAction: RecommendedAction,
    accumulatedExclusions: seq<string>,
    preRuleAction: RecommendedAction)

  ghost function StateAfter(p: Pass, g: RootCauseGroup, n: nat): GroupState
    requires n <= |p.rules| == |p.gates|
  {
    GroupState(g.signalClass, g.strongestAction, Excluded(p, g.Key(), n), ActionAfter(p, g, n))
  }

  lemma AnyFiredStep(p: Pass, key: GroupKey, n: nat)
    requires n < |p.rules| == |p.gates|
    ensures AnyFired(p, key, n + 1) <==> AnyFired(p, key, n) || Fires(p, key, n)
  {
    if Fires(p, key, n) { assert n < n + 1; }
    if AnyFired(p, key, n) {
      var k: nat :| k < n && Fires(p, key, k);
      assert k < n + 1;
    }
  }

  lemma ClassStep(p: Pass, g: RootCauseGroup, n: nat)
    requires n < |p.rules| == |p.gates|
    ensures ClassAfter(p, g, n + 1) == if Reclassifies(p, g, n) then ReviewSignal else ClassAfter(p, g, n)
  {
    if Reclassifies(p, g, n) { assert n < n + 1; }
    if k: nat :| k < n && Reclassifies(p, g, k) {
      assert k < n + 1;
    }
  }

  /** A rule that does not fire leaves group and state as they were. */
  lemma IdleStep(p: Pass, g: RootCauseGroup, n: nat)
    requires n < |p.rules| == |p.gates| && !Fires(p, g.Key(), n)
    ensures GroupAfter(p, g, n + 1) == GroupAfter(p, g, n)
    ensures StateAfter(p, g, n + 1) == StateAfter(p, g, n)
  {
    AnyFiredStep(p, g.Key(), n);
    ClassStep(p, g, n);
    assert Excluded(p, g.Key(), n + 1) == Excluded(p, g.Key(), n);
  }

  /** Apply rule `k` of the pass to group `i`. `original` is the group before the pass. */
  method ApplySingleRuleToGroup(groups: array<RootCauseGroup>, states: array<GroupState>, i: nat, p: Pass, k: nat,
                                ghost original: RootCauseGroup)
    returns (delta: int, note: Option<Note>)
    requires i < groups.Length == states.Length && p.Valid() && k < |p.rules|
    requires groups[i] == GroupAfter(p, original, k) && states[i] == StateAfter(p, original, k)
    modifies groups, states
    ensures groups[..] == old(groups[..])[i := GroupAfter(p, original, k + 1)]
    ensures states[..] == old(states[..])[i := StateAfter(p, original, k + 1)]
    ensures delta == if Lowers(p, original, k) then p.rules[k].riskDelta else 0
    ensures note == NoteAt(p, original, k)
  {
    var rule, group, state := p.rules[k], groups[i], states[i];
    var key := GroupKey(group.scope, group.category, state.originalSignalClass);
    assert key == original.Key();
    var groupMatches := exists f | f in p.findings :: KeyOf(f) == key && f.ruleId in rule.triggerRuleIds;
    if !p.gates[k] || !groupMatches {
      IdleStep(p, original, k);
      return 0, None;
    }
    AnyFiredStep(p, key, k);
    ClassStep(p, original, k);

    state := state.(accumulatedExclusions := state.accumulatedExclusions + rule.ruleIds);
    var rest := Remaining(p.findings, key, state.accumulatedExclusions);
    group := group.(strongestAction := StrongestAction(rest), findingCount := |rest|,
                    representativeRules := RepresentativeRules(rest));
    var changedFromPrevious := ActionRank(group.strongestAction) < ActionRank(state.preRuleAction);
    delta := if changedFromPrevious then rule.riskDelta else 0;
    var downgradedByPriorRule := group.strongestAction == Log && state.originalAction != Log;
    if rule.reclassifySignal && (changedFromPrevious || downgradedByPriorRule) {
      group := group.(signalClass := ReviewSignal);
    }
    state := state.(preRuleAction := group.strongestAction);
    var wasReclassified := rule.reclassifySignal && group.signalClass != state.originalSignalClass;
    var effect :=
      if changedFromPrevious then rule.effectDowngraded
      else if wasReclassified then "reclassified_only"
      else rule.effectUnchanged;
    note := Some(Note(rule.noteRuleId, effect, rule.rationale, group.scope, group.category, group.signalClass));
    groups[i], states[i] := group, state;
  }

  /** Sum of the deltas of the credited rules among the first `n`. */
  ghost function CreditedSum(rules: seq<CalibrationRule>, credited: set<nat>, n: nat): int
    requires n <= |rules|
  {
    if n == 0 then 0
    else CreditedSum(rules, credited, n - 1) + (if n - 1 in credited then rules[n - 1].riskDelta else 0)
  }

  lemma {:induction false} CreditOne(rules: seq<CalibrationRule>, credited: set<nat>, k: nat, n: nat)
    requires n <= |rules| && k !in credited
    ensures CreditedSum(rules, credited + {k}, n)
         == CreditedSum(rules, credited, n) + if k < n then rules[k].riskDelta else 0
  {
    if n > 0 {
      CreditOne(rules, credited, k, n - 1);
    }
  }

  lemma {:induction false} CreditedSumIsRisk(p: Pass, groups: seq<RootCauseGroup>, credited: set<nat>, n: nat)
    requires n <= |p.rules| == |p.gates|
    requires forall k: nat :: k < |p.rules| ==> (k in credited <==> LowersSome(p, groups, k))
    ensures CreditedSum(p.rules, credited, n) == RiskAdjustment(p, groups, n)
  {
    if n > 0 {
      CreditedSumIsRisk(p, groups, credited, n - 1);
    }
  }

  /** The rules credited once groups before `i`, and the first `n` rules of group `i`, are done. */
  ghost predicate Credited(p: Pass, groups: seq<RootCauseGroup>, i: nat, n: nat, credited: set<nat>)
    requires i <= |groups| && n <= |p.rules| == |p.gates| && (i == |groups| ==> n == 0)
  {
    && (forall k :: k in credited ==> k < |p.rules|)
    && (forall k: nat :: k < |p.rules| ==>
          (k in credited <==> LowersSome(p, groups[..i], k) || (k < n && Lowers(p, groups[i], k))))
  }

  lemma CreditedNextGroup(p: Pass, groups: seq<RootCauseGroup>, i: nat, credited: set<nat>)
    requires p.Valid() && i < |groups| && Credited(p, groups, i, |p.rules|, credited)
    ensures Credited(p, groups, i + 1, 0, credited)
  {
    assert groups[..i + 1] == groups[..i] + [groups[i]];
    forall k: nat | k < |p.rules|
      ensures LowersSome(p, groups[..i + 1], k) <==> LowersSome(p, groups[..i], k) || Lowers(p, groups[i], k)
    {
      if LowersSome(p, groups[..i], k) {
        var g :| g in groups[..i] && Lowers(p, g, k);
        assert g in groups[..i + 1];
      }
      assert groups[i] in groups[..i + 1];
    }
  }

  lemma CreditedNextRule(p: Pass, groups: seq<RootCauseGroup>, i: nat, k: nat, credited: set<nat>, credited': set<nat>)
    requires p.Valid() && i < |groups| && k < |p.rules| && Credited(p, groups, i, k, credited)
    requires credited' == if Lowers(p, groups[i], k) then credited + {k} else credited
    ensures Credited(p, groups, i, k + 1, credited')
  {
    forall j: nat | j < |p.rules|
      ensures j in credited' <==> LowersSome(p, groups[..i], j) || (j < k + 1 && Lowers(p, groups[i], j))
    {
      assert j in credited <==> LowersSome(p, groups[..i], j) || (j < k && Lowers(p, groups[i], j));
      if j != k {
        assert j in credited' <==> j in credited;
      }
    }
  }

  /** The note ids already counted are those of the credited rules whose delta is not zero. */
  ghost predicate Counts(p: Pass, counted: set<string>, credited: set<nat>) {
    && (forall k :: k in credited ==> k < |p.rules|)
    && (forall k: nat :: k < |p.rules| && p.rules[k].riskDelta != 0 ==>
          (p.rules[k].noteRuleId in counted <==> k in credited))
    && (forall id :: id in counted ==>
          exists k: nat :: k < |p.rules| && p.rules[k].noteRuleId == id && p.rules[k].riskDelta != 0)
  }

  /** One rule outcome: `counted_rules.insert` succeeds exactly when the rule was not credited yet. */
  method CountOnce(p: Pass, k: nat, delta: int, counted: set<string>, risk: int, ghost credited: set<nat>,
                   ghost lowered: bool)
    returns (counted': set<string>, risk': int, ghost credited': set<nat>)
    requires p.Valid() && p.DistinctNoteIds() && k < |p.rules| && Counts(p, counted, credited)
    requires delta == if lowered then p.rules[k].riskDelta else 0
    requires risk == CreditedSum(p.rules, credited, |p.rules|)
    ensures Counts(p, counted', credited')
    ensures credited' == if lowered then credited + {k} else credited
    ensures risk' == risk + if lowered && k !in credited then p.rules[k].riskDelta else 0
    ensures risk' == CreditedSum(p.rules, credited', |p.rules|)
  {
    counted', risk', credited' := counted, risk, credited;
    if lowered {
      credited' := credited + {k};
      if k in credited {
        assert credited' == credited;
      } else {
        CreditOne(p.rules, credited, k, |p.rules|);
      }
    }
    var id := p.rules[k].noteRuleId;
    if delta != 0 && id !in counted {
      counted' := counted + {id};
      risk' := risk + delta;
    }
  }

  /** The accumulators of the pass while rule `k` of group `i` is next. */
  ghost predicate Accounted(p: Pass, groups: seq<RootCauseGroup>, i: nat, k: nat,
                            counted: set<string>, risk: int, credited: set<nat>)
    requires i <= |groups| && k <= |p.rules| == |p.gates| && (i == |groups| ==> k == 0)
  {
    && Counts(p, counted, credited)
    && Credited(p, groups, i, k, credited)
    && risk == CreditedSum(p.rules, credited, |p.rules|)
  }

  lemma NotesStep(p: Pass, g: RootCauseGroup, k: nat, note: Option<Note>)
    requires k < |p.rules| == |p.gates| && note == NoteAt(p, g, k)
    ensures NotesOf(p, g, k + 1) == NotesOf(p, g, k) + if note.Some? then [note.value] else []
  {
    var s := seq(k + 1, j requires 0 <= j < k + 1 => NoteAt(p, g, j));
    assert s[..k] == seq(k, j requires 0 <= j < k => NoteAt(p, g, j));
  }

  /** Rule `k` on group `i`, with its risk delta counted at most once per pass. */
  method ApplyAndCount(groups: array<RootCauseGroup>, states: array<GroupState>, i: nat, p: Pass, k: nat,
                       counted: set<string>, risk: int, notes: seq<Note>,
                       ghost original: seq<RootCauseGroup>, ghost credited: set<nat>)
    returns (counted': set<string>, risk': int, notes': seq<Note>, ghost credited': set<nat>)
    requires i < groups.Length == states.Length == |original|
    requires p.Valid() && p.DistinctNoteIds() && k < |p.rules|
    requires groups[i] == GroupAfter(p, original[i], k) && states[i] == StateAfter(p, original[i], k)
    requires notes == NotesOf(p, original[i], k)
    requires Accounted(p, original, i, k, counted, risk, credited)
    modifies groups, states
    ensures groups[..] == old(groups[..])[i := GroupAfter(p, original[i], k + 1)]
    ensures states[..] == old(states[..])[i := StateAfter(p, original[i], k + 1)]
    ensures notes' == NotesOf(p, original[i], k + 1)
    ensures Accounted(p, original, i, k + 1, counted', risk', credited')
  {
    var delta, note := ApplySingleRuleToGroup(groups, states, i, p, k, original[i]);
    counted', risk', credited' := CountOnce(p, k, delta, counted, risk, credited, Lowers(p, original[i], k));
    CreditedNextRule(p, original, i, k, credited, credited');
    notes' := notes + if note.Some? then [note.value] else [];
    NotesStep(p, original[i], k, note);
  }

  /** The inner loop: all rules, in order, over group `i`. */
  method ApplyRulesToGroup(groups: array<RootCauseGroup>, states: array<GroupState>, i: nat, p: Pass,
                           counted: set<string>, risk: int,
                           ghost original: seq<RootCauseGroup>, ghost credited: set<nat>)
    returns (counted': set<string>, risk': int, notes: seq<Note>, ghost credited': set<nat>)
    requires i < groups.Length == states.Length == |original| && p.Valid() && p.DistinctNoteIds()
    requires groups[i] == GroupAfter(p, original[i], 0) && states[i] == StateAfter(p, original[i], 0)
    requires Accounted(p, original, i, 0, counted, risk, credited)
    modifies groups, states
    ensures forall j :: 0 <= j < groups.Length && j != i ==> groups[j] == old(groups[j]) && states[j] == old(states[j])
    ensures groups[i] == GroupAfter(p, original[i], |p.rules|)
    ensures notes == NotesOf(p, original[i], |p.rules|)
    ensures Accounted(p, original, i + 1, 0, counted', risk', credited')
  {
    counted', risk', notes, credited' := counted, risk, [], credited;
    ghost var groups0, states0 := groups[..], states[..];
    for k := 0 to |p.rules|
      invariant forall j :: 0 <= j < groups.Length && j != i ==> groups[j] == groups0[j] && states[j] == states0[j]
      invariant groups[i] == GroupAfter(p, original[i], k) && states[i] == StateAfter(p, original[i], k)
      invariant notes == NotesOf(p, original[i], k)
      invariant Accounted(p, original, i, k, counted', risk', credited')
    {
      ghost var groups1, states1 := groups[..], states[..];
      counted', risk', notes, credited' :=
        ApplyAndCount(groups, states, i, p, k, counted', risk', notes, original, credited');
      forall j | 0 <= j < groups.Length
        ensures groups[j] == groups1[i := groups[i]][j] && states[j] == states1[i := states[i]][j]
      {
        assert groups[j] == groups[..][j] && states[j] == states[..][j];
      }
    }
    CreditedNextGroup(p, original, i, credited');
  }

  method ApplyCalibrationRules(groups: array<RootCauseGroup>, p: Pass) returns (risk: int, notes: seq<Note>)
    requires p.Valid() && p.DistinctNoteIds()
    modifies groups
    ensures groups[..] == CalibratedGroups(p, old(groups[..]))
    ensures risk == RiskAdjustment(p, old(groups[..]), |p.rules|)
    ensures notes == AllNotes(p, old(groups[..]))
  {
    ghost var original := groups[..];
    var states := new GroupState[groups.Length](j requires 0 <= j < groups.Length reads groups =>
      GroupState(groups[j].signalClass, groups[j].strongestAction, [], groups[j].strongestAction));
    risk, notes := 0, [];
    var counted: set<string> := {};
    ghost var credited: set<nat> := {};
    AccountedAtStart(p, original);
    for i := 0 to groups.Length
      invariant fresh(states) && states.Length == groups.Length
      invariant forall j :: 0 <= j < i ==> groups[j] == GroupAfter(p, original[j], |p.rules|)
      invariant forall j :: i <= j < groups.Length ==> groups[j] == original[j]
      invariant forall j :: i <= j < groups.Length ==> states[j] == StateAfter(p, original[j], 0)
      invariant notes == AllNotes(p, original[..i])
      invariant Accounted(p, original, i, 0, counted, risk, credited)
    {
      var more;
      counted, risk, more, credited :=
        ApplyRulesToGroup(groups, states, i, p, counted, risk, original, credited);
      AllNotesStep(p, original, i);
      notes := notes + more;
    }
    assert original[..|original|] == original;
    AccountedAtEnd(p, original, counted, risk, credited);
  }

  lemma AllNotesStep(p: Pass, groups: seq<RootCauseGroup>, i: nat)
    requires p.Valid() && i < |groups|
    ensures AllNotes(p, groups[..i + 1]) == AllNotes(p, groups[..i]) + NotesOf(p, groups[i], |p.rules|)
  {
    assert groups[..i + 1][..i] == groups[..i];
  }

  lemma AccountedAtStart(p: Pass, groups: seq<RootCauseGroup>)
    requires p.Valid()
    ensures Accounted(p, groups, 0, 0, {}, 0, {})
  {
    CreditedSumEmpty(p.rules, |p.rules|);
    assert groups[..0] == [];
  }

  lemma AccountedAtEnd(p: Pass, groups: seq<RootCauseGroup>, counted: set<string>, risk: int, credited: set<nat>)
    requires p.Valid() && Accounted(p, groups, |groups|, 0, counted, risk, credited)
    ensures risk == RiskAdjustment(p, groups, |p.rules|)
  {
    assert groups[..|groups|] == groups;
    CreditedSumIsRisk(p, groups, credited, |p.rules|);
  }

  lemma {:induction false} CreditedSumEmpty(rules: seq<CalibrationRule>, n: nat)
    requires n <= |rules|
    ensures CreditedSum(rules, {}, n) == 0
  {
    if n > 0 {
      CreditedSumEmpty(rules, n - 1);
    }
  }

  /** `groups.retain(|g| g.finding_count > 0)` */
  method RetainNonEmpty(groups: array<RootCauseGroup>) returns (kept: seq<RootCauseGroup>)
    ensures kept == Surviving(groups[..])
  {
    kept := [];
    for i := 0 to groups.Length
      invariant kept == Surviving(groups[..i])
    {
      assert groups[..i + 1][..i] == groups[..i];
      if groups[i].findingCount > 0 {
        kept := kept + [groups[i]];
      }
    }
    assert groups[..groups.Length] == groups[..];
  }

  /** Sort by all six fields, then drop each note equal to its predecessor. */
  method DedupNotes(notes: seq<Note>) returns (result: seq<Note>)
    ensures result == Canonical(CompareNote, notes)
  {
    var sorted := SortBy(CompareNote, notes);
    result := [];
    for i := 0 to |sorted|
      invariant result == DedupAdjacent(sorted[..i])
      invariant i > 0 ==> result != [] && result[|result| - 1] == sorted[i - 1]
    {
      assert sorted[..i + 1][..i] == sorted[..i];
      if i == 0 || result[|result| - 1] != sorted[i] {
        result := result + [sorted[i]];
      }
    }
    assert sorted[..|sorted|] == sorted;
  }

  method CalibrateWith(p: Pass, rootCauseGroups: seq<RootCauseGroup>) returns (c: VerdictCalibration)
    requires p.Valid() && p.DistinctNoteIds()
    ensures c == Calibration(p, rootCauseGroups)
  {
    var groups := new RootCauseGroup[|rootCauseGroups|](i requires 0 <= i < |rootCauseGroups| => rootCauseGroups[i]);
    assert groups[..] == rootCauseGroups;
    var risk, notes := ApplyCalibrationRules(groups, p);
    var kept := RetainNonEmpty(groups);
    notes := DedupNotes(notes);
    c := VerdictCalibration(kept, risk, notes);
  }
}
