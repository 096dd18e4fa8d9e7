/** Root-cause groups (verdict/root_causes.rs): findings bucketed by
    (scope, category, signal class). */
module RootCauses {
  import opened Orders
  import opened Findings

  const MAX_REPRESENTATIVE_RULES: nat := 5

  datatype GroupKey = GroupKey(scope: ArtifactScope, category: ThreatCategory, signalClass: SignalClass)

  datatype RootCauseGroup = RootCauseGroup(
    scope: ArtifactScope,
    category: ThreatCategory,
    signalClass: SignalClass,
    findingCount: nat,
    strongestAction: RecommendedAction,
    representativeRules: seq<string>)
  {
    function Key(): GroupKey { GroupKey(scope, category, signalClass) }
  }

  function KeyOf(f: Finding): GroupKey {
    GroupKey(f.artifactScope, f.category, f.signalClass)
  }

  function CompareKey(a: GroupKey, b: GroupKey): Ordering {
    Then(CompareInt(ScopeRank(a.scope), ScopeRank(b.scope)),
         Then(CompareInt(CategoryRank(a.category), CategoryRank(b.category)),
              CompareInt(SignalRank(a.signalClass), SignalRank(b.signalClass))))
  }

  /** The findings of group `key` whose rule is not excluded, in their original order. */
  function Remaining(findings: seq<Finding>, key: GroupKey, excluded: seq<string>): seq<Finding> {
    if findings == [] then []
    else
      var f := findings[|findings| - 1];
      Remaining(findings[..|findings| - 1], key, excluded)
      + (if KeyOf(f) == key && f.ruleId !in excluded then [f] else [])
  }

  function StrongestAction(findings: seq<Finding>): RecommendedAction {
    if findings == [] then Log
    else MaxAction(StrongestAction(findings[..|findings| - 1]), findings[|findings| - 1].recommendedAction)
  }

  function RuleIds(findings: seq<Finding>): seq<string> {
    seq(|findings|, i requires 0 <= i < |findings| => findings[i].ruleId)
  }

  function Truncated(rules: seq<string>): seq<string> {
    if |rules| <= MAX_REPRESENTATIVE_RULES then rules else rules[..MAX_REPRESENTATIVE_RULES]
  }

  /** The first few distinct rule ids of a set of findings, in order. */
  function RepresentativeRules(findings: seq<Finding>): seq<string> {
    Truncated(Canonical(CompareString, RuleIds(findings)))
  }

  /** What a group of `key` says about the findings left after an exclusion. */
  function Recomputed(findings: seq<Finding>, key: GroupKey, excluded: seq<string>): RootCauseGroup {
    var rest := Remaining(findings, key, excluded);
    RootCauseGroup(key.scope, key.category, key.signalClass, |rest|, StrongestAction(rest), RepresentativeRules(rest))
  }

  function Keys(findings: seq<Finding>): seq<GroupKey> {
    seq(|findings|, i requires 0 <= i < |findings| => KeyOf(findings[i]))
  }

  function GroupsOf(findings: seq<Finding>, keys: seq<GroupKey>): seq<RootCauseGroup> {
    seq(|keys|, i requires 0 <= i < |keys| => Recomputed(findings, keys[i], []))
  }

  /** Strongest action first, then the larger group first. */
  function CompareStrength(a: RootCauseGroup, b: RootCauseGroup): Ordering {
    Then(CompareInt(ActionRank(b.strongestAction), ActionRank(a.strongestAction)),
         CompareInt(b.findingCount, a.findingCount))
  }

  /** Declarative result of `build_root_cause_groups`: one recomputed group for each key present. */
  function RootCauseGroups(findings: seq<Finding>): seq<RootCauseGroup> {
    SortBy(CompareStrength, GroupsOf(findings, Canonical(CompareKey, Keys(findings))))
  }

  // ---- Facts about filtering and folding ----

  /** A key as its three ranks. */
  function Ranks(k: GroupKey): (nat, nat, nat) {
    (ScopeRank(k.scope), CategoryRank(k.category), SignalRank(k.signalClass))
  }

  lemma RanksDistinguish(a: GroupKey, b: GroupKey)
    ensures Ranks(a) == Ranks(b) <==> a == b
  {
    CategoryRanksDistinguish(a.category, b.category);
  }

  lemma CategoryRanksDistinguish(a: ThreatCategory, b: ThreatCategory)
    ensures CategoryRank(a) == CategoryRank(b) <==> a == b
  {
  }

  function CompareRanks(a: (nat, nat, nat), b: (nat, nat, nat)): Ordering {
    Then(CompareInt(a.0, b.0), Then(CompareInt(a.1, b.1), CompareInt(a.2, b.2)))
  }

  lemma CompareRanksTotal()
    ensures TotalOrder(CompareRanks)
  {
  }

  lemma CompareKeyTotal()
    ensures TotalOrder(CompareKey)
  {
    CompareRanksTotal();
    forall x, y
      ensures CompareKey(x, y) == CompareRanks(Ranks(x), Ranks(y)) && (CompareKey(x, y) == Equal <==> x == y)
    {
      RanksDistinguish(x, y);
    }
  }

  lemma {:induction false} RemainingMembers(findings: seq<Finding>, key: GroupKey, excluded: seq<string>)
    ensures forall f :: f in Remaining(findings, key, excluded)
                   <==> f in findings && KeyOf(f) == key && f.ruleId !in excluded
  {
    if findings != [] {
      var init, last := findings[..|findings| - 1], findings[|findings| - 1];
      assert findings == init + [last];
      RemainingMembers(init, key, excluded);
    }
  }

  lemma {:induction false} RemainingMultiset(
      findings: seq<Finding>, key: GroupKey, excluded: seq<string>, f: Finding)
    ensures multiset(Remaining(findings, key, excluded))[f]
         == if KeyOf(f) == key && f.ruleId !in excluded then multiset(findings)[f] else 0
  {
    if findings != [] {
      var init, last := findings[..|findings| - 1], findings[|findings| - 1];
      assert findings == init + [last];
      RemainingMultiset(init, key, excluded, f);
    }
  }

  lemma {:induction false} StrongestActionIsMax(findings: seq<Finding>)
    ensures forall f :: f in findings ==> ActionRank(f.recommendedAction) <= ActionRank(StrongestAction(findings))
    ensures StrongestAction(findings) == Log
         || exists f :: f in findings && f.recommendedAction == StrongestAction(findings)
  {
    if findings != [] {
      var init, last := findings[..|findings| - 1], findings[|findings| - 1];
      assert findings == init + [last];
      StrongestActionIsMax(init);
      assert last in findings;
      forall f | f in init ensures f in findings {}
    }
  }

  lemma StrongestActionDependsOnMembers(a: seq<Finding>, b: seq<Finding>)
    requires forall f :: f in a <==> f in b
    ensures StrongestAction(a) == StrongestAction(b)
  {
    StrongestActionIsMax(a);
    StrongestActionIsMax(b);
  }

  lemma RuleIdMembers(findings: seq<Finding>)
    ensures forall id :: id in RuleIds(findings) <==> exists f :: f in findings && f.ruleId == id
  {
    forall id ensures id in RuleIds(findings) <==> exists f :: f in findings && f.ruleId == id {
      if id in RuleIds(findings) {
        var i :| 0 <= i < |findings| && RuleIds(findings)[i] == id;
        assert findings[i] in findings;
      }
      if f :| f in findings && f.ruleId == id {
        var i :| 0 <= i < |findings| && findings[i] == f;
        assert RuleIds(findings)[i] == id;
      }
    }
  }

  lemma RepresentativeRulesDependOnMembers(a: seq<Finding>, b: seq<Finding>)
    requires forall f :: f in a <==> f in b
    ensures RepresentativeRules(a) == RepresentativeRules(b)
  {
    RuleIdMembers(a);
    RuleIdMembers(b);
    CompareStringTotal();
    CanonicalDependsOnMembers(CompareString, RuleIds(a), RuleIds(b));
  }

  /** Reordering the findings changes nothing that a group reports, whatever is excluded. */
  lemma RecomputedPermutation(a: seq<Finding>, b: seq<Finding>, key: GroupKey, excluded: seq<string>)
    requires multiset(a) == multiset(b)
    ensures Recomputed(a, key, excluded) == Recomputed(b, key, excluded)
  {
    var ra, rb := Remaining(a, key, excluded), Remaining(b, key, excluded);
    forall f ensures multiset(ra)[f] == multiset(rb)[f] {
      RemainingMultiset(a, key, excluded, f);
      RemainingMultiset(b, key, excluded, f);
    }
    assert multiset(ra) == multiset(rb);
    assert |ra| == |multiset(ra)| == |rb|;
    SameMembers(ra, rb);
    StrongestActionDependsOnMembers(ra, rb);
    RepresentativeRulesDependOnMembers(ra, rb);
  }

  lemma KeyMembers(findings: seq<Finding>)
    ensures forall k :: k in Keys(findings) <==> exists f :: f in findings && KeyOf(f) == k
  {
    forall k ensures k in Keys(findings) <==> exists f :: f in findings && KeyOf(f) == k {
      if k in Keys(findings) {
        var i :| 0 <= i < |findings| && Keys(findings)[i] == k;
        assert findings[i] in findings;
      }
      if f :| f in findings && KeyOf(f) == k {
        var i :| 0 <= i < |findings| && findings[i] == f;
        assert Keys(findings)[i] == k;
      }
    }
  }

  /** Grouping is a function of the multiset of findings: not even the output order depends on theirs. */
  lemma RootCauseGroupsPermutation(a: seq<Finding>, b: seq<Finding>)
    requires multiset(a) == multiset(b)
    ensures RootCauseGroups(a) == RootCauseGroups(b)
  {
    SameMembers(a, b);
    KeyMembers(a);
    KeyMembers(b);
    CompareKeyTotal();
    CanonicalDependsOnMembers(CompareKey, Keys(a), Keys(b));
    var keys := Canonical(CompareKey, Keys(a));
    forall k ensures Recomputed(a, k, []) == Recomputed(b, k, []) {
      RecomputedPermutation(a, b, k, []);
    }
    assert GroupsOf(a, keys) == GroupsOf(b, keys);
  }

  ghost predicate UniqueKeys(groups: seq<RootCauseGroup>) {
    forall i, j :: 0 <= i < j < |groups| ==> groups[i].Key() != groups[j].Key()
  }

  /** Each group is exactly the recomputation of its key with nothing excluded. */
  ghost predicate Consistent(findings: seq<Finding>, g: RootCauseGroup) {
    g == Recomputed(findings, g.Key(), [])
  }

  lemma UniqueKeysPermutation(a: seq<RootCauseGroup>, b: seq<RootCauseGroup>)
    requires multiset(a) == multiset(b) && UniqueKeys(a)
    ensures UniqueKeys(b)
  {
    SameMembers(a, b);
    NoDuplicatesPermutation(a, b);
    forall i, j | 0 <= i < j < |b| ensures b[i].Key() != b[j].Key() {
      assert b[i] in a && b[j] in a;
      var i' :| 0 <= i' < |a| && a[i'] == b[i];
      var j' :| 0 <= j' < |a| && a[j'] == b[j];
      assert i' != j';
    }
  }

  lemma GroupsOfUniqueKeys(findings: seq<Finding>, keys: seq<GroupKey>)
    requires StrictlySorted(CompareKey, keys)
    ensures UniqueKeys(GroupsOf(findings, keys))
  {
    var groups := GroupsOf(findings, keys);
    forall i, j | 0 <= i < j < |groups| ensures groups[i].Key() != groups[j].Key() {
      assert groups[i].Key() == keys[i] && groups[j].Key() == keys[j];
      assert CompareKey(keys[i], keys[j]) == Less;
    }
  }

  lemma RootCauseGroupsMembers(findings: seq<Finding>, g: RootCauseGroup)
    ensures g in RootCauseGroups(findings)
       <==> g == Recomputed(findings, g.Key(), []) && g.Key() in Canonical(CompareKey, Keys(findings))
  {
    var keys := Canonical(CompareKey, Keys(findings));
    var groups := GroupsOf(findings, keys);
    SortMembers(CompareStrength, groups);
    if g in groups {
      var i :| 0 <= i < |keys| && groups[i] == g;
      assert keys[i] in keys;
    }
    if g == Recomputed(findings, g.Key(), []) && g.Key() in keys {
      var i :| 0 <= i < |keys| && keys[i] == g.Key();
      assert groups[i] == g;
    }
  }

  lemma RecomputedNonEmpty(findings: seq<Finding>, f: Finding)
    requires f in findings
    ensures Recomputed(findings, KeyOf(f), []).findingCount > 0
  {
    RemainingMembers(findings, KeyOf(f), []);
    assert f in Remaining(findings, KeyOf(f), []);
  }

  /** Every finding belongs to exactly one group, and each group is consistent and nonempty. */
  lemma RootCauseGroupsPartition(findings: seq<Finding>)
    ensures UniqueKeys(RootCauseGroups(findings))
    ensures forall g :: g in RootCauseGroups(findings) ==> Consistent(findings, g) && g.findingCount > 0
    ensures forall f :: f in findings ==> exists g :: g in RootCauseGroups(findings) && g.Key() == KeyOf(f)
  {
    var keys := Canonical(CompareKey, Keys(findings));
    CompareKeyTotal();
    CanonicalCorrect(CompareKey, Keys(findings));
    GroupsOfUniqueKeys(findings, keys);
    SortMultiset(CompareStrength, GroupsOf(findings, keys));
    UniqueKeysPermutation(GroupsOf(findings, keys), RootCauseGroups(findings));
    forall g | g in RootCauseGroups(findings) ensures Consistent(findings, g) && g.findingCount > 0 {
      RootCauseGroupsMembers(findings, g);
      KeyMembers(findings);
      var f :| f in findings && KeyOf(f) == g.Key();
      RecomputedNonEmpty(findings, f);
    }
    forall f | f in findings ensures exists g :: g in RootCauseGroups(findings) && g.Key() == KeyOf(f) {
      var g := GroupOfFinding(findings, f);
    }
  }

  lemma GroupOfFinding(findings: seq<Finding>, f: Finding) returns (g: RootCauseGroup)
    requires f in findings
    ensures g in RootCauseGroups(findings) && g.Key() == KeyOf(f) && Consistent(findings, g)
  {
    g := Recomputed(findings, KeyOf(f), []);
    KeyMembers(findings);
    CompareKeyTotal();
    CanonicalCorrect(CompareKey, Keys(findings));
    RootCauseGroupsMembers(findings, g);
  }

  // ---- The order of the groups, and what a group shows ----

  /** Stronger action first, then the larger group; what is left is the order of scope, category, class. */
  ghost predicate GroupBefore(a: RootCauseGroup, b: RootCauseGroup) {
    var actionA, actionB := ActionRank(a.strongestAction), ActionRank(b.strongestAction);
    actionA > actionB
    || (actionA == actionB
        && (a.findingCount > b.findingCount || (a.findingCount == b.findingCount && RankedBefore(a.Key(), b.Key()))))
  }

  ghost predicate RankedBefore(a: GroupKey, b: GroupKey) {
    ScopeRank(a.scope) < ScopeRank(b.scope)
    || (a.scope == b.scope
        && (CategoryRank(a.category) < CategoryRank(b.category)
            || (a.category == b.category && SignalRank(a.signalClass) < SignalRank(b.signalClass))))
  }

  function ByKey(a: RootCauseGroup, b: RootCauseGroup): Ordering {
    CompareKey(a.Key(), b.Key())
  }

  lemma CompareStrengthWeak()
    ensures WeakOrder(CompareStrength)
  {
  }

  lemma GroupsOfSorted(findings: seq<Finding>, keys: seq<GroupKey>)
    requires StrictlySorted(CompareKey, keys)
    ensures StrictlySorted(ByKey, GroupsOf(findings, keys))
  {
  }

  lemma NotGreaterIsBefore(a: RootCauseGroup, b: RootCauseGroup)
    requires CompareStrength(a, b) != Greater
    requires CompareStrength(a, b) == Equal ==> ByKey(a, b) == Less
    ensures GroupBefore(a, b)
  {
    CategoryRanksDistinguish(a.category, b.category);
  }

  /** The groups of any package come out in this order. */
  lemma RootCauseGroupsOrdered(findings: seq<Finding>, i: nat, j: nat)
    requires i < j < |RootCauseGroups(findings)|
    ensures GroupBefore(RootCauseGroups(findings)[i], RootCauseGroups(findings)[j])
  {
    var keys := Canonical(CompareKey, Keys(findings));
    var groups := RootCauseGroups(findings);
    CompareKeyTotal();
    CanonicalCorrect(CompareKey, Keys(findings));
    GroupsOfSorted(findings, keys);
    CompareStrengthWeak();
    SortSorted(CompareStrength, GroupsOf(findings, keys));
    if CompareStrength(groups[i], groups[j]) == Equal {
      SortedTiesOrdered(CompareStrength, ByKey, GroupsOf(findings, keys), i, j);
    }
    NotGreaterIsBefore(groups[i], groups[j]);
  }

  /** `shown` lists the five least of `ids`, or all of them if there are no more. */
  ghost predicate ShowsLeast(shown: seq<string>, ids: set<string>) {
    && (forall i, j :: 0 <= i < j < |shown| ==> DictionaryBefore(shown[i], shown[j]))
    && (forall id :: id in shown ==> id in ids)
    && |shown| <= 5
    && (forall id :: id in ids && id !in shown
          ==> |shown| == 5 && forall i :: 0 <= i < |shown| ==> DictionaryBefore(shown[i], id))
  }

  lemma TruncatedShowsLeast(rules: seq<string>, ids: set<string>)
    requires StrictlySorted(CompareString, rules) && forall id :: id in rules <==> id in ids
    ensures ShowsLeast(Truncated(rules), ids)
  {
    var shown := Truncated(rules);
    assert forall i :: 0 <= i < |shown| ==> shown[i] == rules[i];
    forall a, b ensures CompareString(a, b) == Less <==> DictionaryBefore(a, b) {
      CompareStringIsDictionary(a, b);
    }
    forall id | id in ids && id !in shown
      ensures |shown| == 5 && forall i :: 0 <= i < |shown| ==> DictionaryBefore(shown[i], id)
    {
      var n :| 0 <= n < |rules| && rules[n] == id;
      assert forall i :: 0 <= i < |shown| ==> shown[i] in shown;
    }
  }

  /** A group shows the five least rule ids of its findings. */
  lemma RepresentativesAreLeast(members: seq<Finding>)
    ensures ShowsLeast(RepresentativeRules(members), set f | f in members :: f.ruleId)
  {
    RuleIdMembers(members);
    CompareStringTotal();
    CanonicalCorrect(CompareString, RuleIds(members));
    TruncatedShowsLeast(Canonical(CompareString, RuleIds(members)), set f | f in members :: f.ruleId);
  }

  /** The places in `findings` that hold a member of the group with an id outside `excluded`. */
  ghost function Places(findings: seq<Finding>, key: GroupKey, excluded: seq<string>): set<nat> {
    set i: nat | i < |findings| && findings[i].artifactScope == key.scope && findings[i].category == key.category
                 && findings[i].signalClass == key.signalClass && findings[i].ruleId !in excluded
  }

  lemma {:induction false} RemainingCount(findings: seq<Finding>, key: GroupKey, excluded: seq<string>)
    ensures |Remaining(findings, key, excluded)| == |Places(findings, key, excluded)|
  {
    if findings == [] {
      assert Places(findings, key, excluded) == {};
    } else {
      var n := |findings| - 1;
      RemainingCount(findings[..n], key, excluded);
      var before := Places(findings[..n], key, excluded);
      var f := findings[n];
      assert Places(findings, key, excluded)
        == before + if KeyOf(f) == key && f.ruleId !in excluded then {n} else {};
    }
  }

  function Strongest(actions: set<RecommendedAction>): RecommendedAction {
    if Block in actions then Block else if RequireApproval in actions then RequireApproval else Log
  }

  lemma StrongestActionIs(members: seq<Finding>)
    ensures StrongestAction(members) == Strongest(set f | f in members :: f.recommendedAction)
  {
    StrongestActionIsMax(members);
  }

  /** What `g` says is true of the findings of its scope, category and class. */
  ghost predicate Describes(findings: seq<Finding>, g: RootCauseGroup) {
    var members := set f | f in findings && f.artifactScope == g.scope && f.category == g.category
                           && f.signalClass == g.signalClass;
    && members != {}
    && g.findingCount == |Places(findings, g.Key(), [])|
    && g.strongestAction == Strongest(set f | f in members :: f.recommendedAction)
    && ShowsLeast(g.representativeRules, set f | f in members :: f.ruleId)
  }

  lemma ConsistentDescribes(findings: seq<Finding>, g: RootCauseGroup)
    requires Consistent(findings, g) && g.findingCount > 0
    ensures Describes(findings, g)
  {
    var rest := Remaining(findings, g.Key(), []);
    RemainingMembers(findings, g.Key(), []);
    StrongestActionIs(rest);
    RepresentativesAreLeast(rest);
    RemainingCount(findings, g.Key(), []);
    var members := set f | f in findings && f.artifactScope == g.scope && f.category == g.category
                           && f.signalClass == g.signalClass;
    assert forall f :: f in members <==> f in rest;
    assert (set f | f in members :: f.ruleId) == set f | f in rest :: f.ruleId;
    assert (set f | f in members :: f.recommendedAction) == set f | f in rest :: f.recommendedAction;
    assert rest[0] in members;
  }

  /** One group for each scope, category and class that occurs, and each describes its findings. */
  lemma RootCauseGroupsDescribe(findings: seq<Finding>)
    ensures forall g :: g in RootCauseGroups(findings) ==> Describes(findings, g)
    ensures forall f :: f in findings ==>
              exists g :: g in RootCauseGroups(findings) && g.scope == f.artifactScope
                       && g.category == f.category && g.signalClass == f.signalClass
  {
    RootCauseGroupsPartition(findings);
    forall g | g in RootCauseGroups(findings) ensures Describes(findings, g) {
      ConsistentDescribes(findings, g);
    }
    forall f | f in findings
      ensures exists g :: g in RootCauseGroups(findings) && g.scope == f.artifactScope
                       && g.category == f.category && g.signalClass == f.signalClass
    {
      var g :| g in RootCauseGroups(findings) && g.Key() == KeyOf(f);
    }
  }

  // ---- The bucketing loop ----

  /** Bucket `g` after the loop has seen `findings`: rule ids are collected once each, unsorted. */
  ghost predicate Collected(findings: seq<Finding>, key: GroupKey, g: RootCauseGroup) {
    var members := Remaining(findings, key, []);
    && g.Key() == key
    && g.findingCount == |members|
    && g.strongestAction == StrongestAction(members)
    && NoDuplicates(g.representativeRules)
    && (forall id :: id in g.representativeRules <==> id in RuleIds(members))
  }

  /** `representative_rules.sort()` and `truncate`. */
  method FinishGroup(findings: seq<Finding>, key: GroupKey, g: RootCauseGroup) returns (done: RootCauseGroup)
    requires Collected(findings, key, g)
    ensures done == Recomputed(findings, key, [])
  {
    var sorted := SortBy(CompareString, g.representativeRules);
    done := g.(representativeRules := Truncated(sorted));
    SortedNoDuplicates(CompareString, g.representativeRules);
    CompareStringTotal();
    CanonicalDependsOnMembers(CompareString, g.representativeRules, RuleIds(Remaining(findings, key, [])));
  }

  function Started(f: Finding): RootCauseGroup {
    RootCauseGroup(f.artifactScope, f.category, f.signalClass, 1, f.recommendedAction, [f.ruleId])
  }

  function Grown(g: RootCauseGroup, f: Finding): RootCauseGroup {
    g.(findingCount := g.findingCount + 1,
       strongestAction := MaxAction(g.strongestAction, f.recommendedAction),
       representativeRules := if f.ruleId in g.representativeRules then g.representativeRules
                              else g.representativeRules + [f.ruleId])
  }

  lemma RemainingAppend(seen: seq<Finding>, f: Finding, key: GroupKey)
    ensures Remaining(seen + [f], key, [])
         == if KeyOf(f) == key then Remaining(seen, key, []) + [f] else Remaining(seen, key, [])
  {
    assert (seen + [f])[..|seen|] == seen;
  }

  lemma CollectedStart(seen: seq<Finding>, f: Finding)
    requires KeyOf(f) !in Keys(seen)
    ensures Collected(seen + [f], KeyOf(f), Started(f))
  {
    var members := Remaining(seen, KeyOf(f), []);
    KeyMembers(seen);
    RemainingMembers(seen, KeyOf(f), []);
    assert members == [] by {
      if members != [] { HasMember(members); }
    }
    RemainingAppend(seen, f, KeyOf(f));
    assert RuleIds([f]) == [f.ruleId];
    assert [f][..0] == [];
  }

  lemma CollectedGrow(seen: seq<Finding>, f: Finding, g: RootCauseGroup)
    requires Collected(seen, KeyOf(f), g)
    ensures Collected(seen + [f], KeyOf(f), Grown(g, f))
  {
    var members := Remaining(seen, KeyOf(f), []);
    RemainingAppend(seen, f, KeyOf(f));
    assert (members + [f])[..|members|] == members;
    assert RuleIds(members + [f]) == RuleIds(members) + [f.ruleId];
  }

  ghost predicate AllCollected(findings: seq<Finding>, groups: map<GroupKey, RootCauseGroup>) {
    && (forall k :: k in groups <==> k in Keys(findings))
    && (forall k :: k in groups ==> Collected(findings, k, groups[k]))
  }

  lemma AllCollectedStep(groups: map<GroupKey, RootCauseGroup>, seen: seq<Finding>, f: Finding, g: RootCauseGroup)
    requires AllCollected(seen, groups) && Collected(seen + [f], KeyOf(f), g)
    ensures AllCollected(seen + [f], groups[KeyOf(f) := g])
  {
    assert Keys(seen + [f]) == Keys(seen) + [KeyOf(f)];
    forall k | k in groups && k != KeyOf(f) ensures Collected(seen + [f], k, groups[k]) {
      RemainingAppend(seen, f, k);
    }
  }

  /** One turn of the bucketing loop: `entry(key).and_modify(grow).or_insert_with(start)`. */
  method AddFinding(groups: map<GroupKey, RootCauseGroup>, f: Finding, ghost seen: seq<Finding>)
    returns (updated: map<GroupKey, RootCauseGroup>)
    requires AllCollected(seen, groups)
    ensures AllCollected(seen + [f], updated)
  {
    var key := KeyOf(f);
    var group := if key in groups then Grown(groups[key], f) else Started(f);
    if key in groups {
      CollectedGrow(seen, f, groups[key]);
    } else {
      CollectedStart(seen, f);
    }
    AllCollectedStep(groups, seen, f, group);
    updated := groups[key := group];
  }

  method CollectGroups(findings: seq<Finding>) returns (groups: map<GroupKey, RootCauseGroup>)
    ensures AllCollected(findings, groups)
  {
    groups := map[];
    for n := 0 to |findings|
      invariant AllCollected(findings[..n], groups)
    {
      groups := AddFinding(groups, findings[n], findings[..n]);
      assert findings[..n + 1] == findings[..n] + [findings[n]];
    }
    assert findings[..|findings|] == findings;
  }

  /** `into_values` of the tree map (key order), then sort and truncate each rule list. */
  method FinishGroups(findings: seq<Finding>, groups: map<GroupKey, RootCauseGroup>, keys: seq<GroupKey>)
    returns (finished: seq<RootCauseGroup>)
    requires forall n :: 0 <= n < |keys| ==> keys[n] in groups && Collected(findings, keys[n], groups[keys[n]])
    ensures finished == GroupsOf(findings, keys)
  {
    finished := [];
    for n := 0 to |keys|
      invariant |finished| == n
      invariant forall i :: 0 <= i < n ==> finished[i] == Recomputed(findings, keys[i], [])
    {
      var done := FinishGroup(findings, keys[n], groups[keys[n]]);
      finished := finished + [done];
    }
  }

  method BuildRootCauseGroups(findings: seq<Finding>) returns (result: seq<RootCauseGroup>)
    ensures result == RootCauseGroups(findings)
  {
    var groups := CollectGroups(findings);
    var keys := Canonical(CompareKey, Keys(findings));
    CompareKeyTotal();
    CanonicalCorrect(CompareKey, Keys(findings));
    var finished := FinishGroups(findings, groups, keys);
    result := SortBy(CompareStrength, finished);
  }
}
