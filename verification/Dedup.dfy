/** Deduplication of findings (findings/dedup.rs). */
module Dedup {
  import opened Orders
  import opened Text
  import opened Findings

  datatype DedupKey = DedupKey(
    ruleId: string,
    category: ThreatCategory,
    matchedOn: string,
    matchValue: string,
    artifactKind: ArtifactKind,
    artifactScope: ArtifactScope,
    artifactPath: Option<string>)

  function DedupMatchedOn(target: MatchTarget): string {
    match target
    case Document => "document"
    case Section(name) => "section:" + Lower(name)
    case CodeBlock(language) => "code_block:" + Lower(if language.Some? then language.value else "unknown")
    case ReferencedFile(path) => "file:" + path
  }

  function KeyOf(f: Finding): DedupKey {
    DedupKey(f.ruleId, f.category, DedupMatchedOn(f.matchedOn), Lower(f.matchValue), f.artifactKind,
             f.artifactScope, f.artifactPath)
  }

  function CompareReal(a: real, b: real): Ordering {
    if a < b then Less else if a == b then Equal else Greater
  }

  /** `(action, severity, confidence)`, compared lexicographically. */
  function CompareStrength(candidate: Finding, existing: Finding): Ordering {
    Then(CompareInt(ActionRank(candidate.recommendedAction), ActionRank(existing.recommendedAction)),
         Then(CompareInt(SeverityRank(candidate.severity), SeverityRank(existing.severity)),
              CompareReal(candidate.confidence, existing.confidence)))
  }

  function MaxSeverity(a: Severity, b: Severity): Severity {
    if SeverityRank(a) < SeverityRank(b) then b else a
  }

  function Longer(existing: string, candidate: string): string {
    if ByteLength(candidate) > ByteLength(existing) then candidate else existing
  }

  function MergeContexts(contexts: seq<OperationalContext>, more: seq<OperationalContext>): seq<OperationalContext> {
    if more == [] then contexts
    else
      var merged := MergeContexts(contexts, more[..|more| - 1]);
      if more[|more| - 1] in merged then merged else merged + [more[|more| - 1]]
  }

  function MergeInto(existing: Finding, candidate: Finding): Finding {
    var order := CompareStrength(candidate, existing);
    var scaled := existing.(
      severity := MaxSeverity(existing.severity, candidate.severity),
      confidence := if candidate.confidence > existing.confidence then candidate.confidence else existing.confidence,
      lineNumber := if existing.lineNumber.None? then candidate.lineNumber else existing.lineNumber,
      operationalContexts := MergeContexts(existing.operationalContexts, candidate.operationalContexts));
    if order == Greater then
      scaled.(recommendedAction := candidate.recommendedAction, signalClass := candidate.signalClass,
              evidenceKind := candidate.evidenceKind, rawConfidence := candidate.rawConfidence,
              confidenceRationale := candidate.confidenceRationale, reason := candidate.reason,
              remediation := candidate.remediation)
    else if order == Equal then
      scaled.(reason := Longer(existing.reason, candidate.reason),
              remediation := Longer(existing.remediation, candidate.remediation))
    else scaled
  }

  /** The emissions of one key, in order of arrival. */
  function ClassOf(findings: seq<Finding>, key: DedupKey): seq<Finding> {
    if findings == [] then []
    else
      var f := findings[|findings| - 1];
      ClassOf(findings[..|findings| - 1], key) + (if KeyOf(f) == key then [f] else [])
  }

  function Merged(emissions: seq<Finding>): Finding
    requires emissions != []
  {
    if |emissions| == 1 then emissions[0]
    else MergeInto(Merged(emissions[..|emissions| - 1]), emissions[|emissions| - 1])
  }

  // ---- The map and the output order ----

  function CompareOption<T>(cmp: (T, T) -> Ordering, a: Option<T>, b: Option<T>): Ordering {
    if a.None? then (if b.None? then Equal else Less)
    else if b.None? then Greater
    else cmp(a.value, b.value)
  }

  function CompareNat(a: nat, b: nat): Ordering { CompareInt(a, b) }

  function CompareKey(a: DedupKey, b: DedupKey): Ordering {
    Then(CompareString(a.ruleId, b.ruleId),
    Then(CompareInt(CategoryRank(a.category), CategoryRank(b.category)),
    Then(CompareString(a.matchedOn, b.matchedOn),
    Then(CompareString(a.matchValue, b.matchValue),
    Then(CompareInt(KindRank(a.artifactKind), KindRank(b.artifactKind)),
    Then(CompareInt(ScopeRank(a.artifactScope), ScopeRank(b.artifactScope)),
         CompareOption(CompareString, a.artifactPath, b.artifactPath)))))))
  }

  function CompareOutput(a: Finding, b: Finding): Ordering {
    Then(CompareString(a.ruleId, b.ruleId),
    Then(CompareOption(CompareString, a.artifactPath, b.artifactPath),
    Then(CompareOption(CompareNat, a.lineNumber, b.lineNumber),
         CompareString(a.matchValue, b.matchValue))))
  }

  function Keys(findings: seq<Finding>): seq<DedupKey> {
    seq(|findings|, i requires 0 <= i < |findings| => KeyOf(findings[i]))
  }

  lemma {:induction false} ClassNonEmpty(findings: seq<Finding>, key: DedupKey)
    ensures ClassOf(findings, key) != [] <==> key in Keys(findings)
    ensures forall f :: f in ClassOf(findings, key) <==> f in findings && KeyOf(f) == key
  {
    if findings != [] {
      var init, last := findings[..|findings| - 1], findings[|findings| - 1];
      ClassNonEmpty(init, key);
      assert findings == init + [last];
      assert Keys(findings) == Keys(init) + [KeyOf(last)];
    }
  }

  ghost function MergedClasses(findings: seq<Finding>, keys: seq<DedupKey>): seq<Finding>
    requires forall k :: k in keys ==> k in Keys(findings)
  {
    seq(|keys|, i requires 0 <= i < |keys| =>
      ClassNonEmpty(findings, keys[i]);
      assert keys[i] in keys;
      Merged(ClassOf(findings, keys[i])))
  }

  /** One merged finding for each key, drained in key order and then sorted for output. */
  ghost function Deduplicated(findings: seq<Finding>): seq<Finding> {
    CompareKeyTotal();
    CanonicalCorrect(CompareKey, Keys(findings));
    SortBy(CompareOutput, MergedClasses(findings, Canonical(CompareKey, Keys(findings))))
  }

  datatype DeduplicationSummary = DeduplicationSummary(original: nat, unique: nat, duplicatesRemoved: nat)

  ghost predicate IsMergeOf(findings: seq<Finding>, key: DedupKey, f: Finding) {
    ClassOf(findings, key) != [] && f == Merged(ClassOf(findings, key))
  }

  ghost predicate Holds(findings: seq<Finding>, merged: map<DedupKey, Finding>) {
    && (forall k :: k in merged <==> k in Keys(findings))
    && (forall k :: k in merged ==> IsMergeOf(findings, k, merged[k]))
  }

  lemma ClassStep(findings: seq<Finding>, f: Finding, k: DedupKey)
    ensures ClassOf(findings + [f], k) == if KeyOf(f) == k then ClassOf(findings, k) + [f] else ClassOf(findings, k)
    ensures Keys(findings + [f]) == Keys(findings) + [KeyOf(f)]
  {
    assert (findings + [f])[..|findings|] == findings;
  }

  lemma MergedStep(emissions: seq<Finding>, f: Finding)
    ensures Merged(emissions + [f]) == if emissions == [] then f else MergeInto(Merged(emissions), f)
  {
    assert (emissions + [f])[..|emissions|] == emissions;
  }

  lemma HoldsUpdate(seen: seq<Finding>, after: seq<Finding>, key: DedupKey, merged: map<DedupKey, Finding>,
                    value: Finding)
    requires Holds(seen, merged)
    requires Keys(after) == Keys(seen) + [key]
    requires IsMergeOf(after, key, value)
    requires forall k :: k in merged && k != key ==> IsMergeOf(after, k, merged[k])
    ensures Holds(after, merged[key := value])
  {
  }

  lemma OtherClassKept(seen: seq<Finding>, f: Finding, k: DedupKey, value: Finding)
    requires IsMergeOf(seen, k, value) && k != KeyOf(f)
    ensures IsMergeOf(seen + [f], k, value)
  {
    ClassStep(seen, f, k);
  }

  lemma OwnClassMerged(seen: seq<Finding>, f: Finding)
    ensures var group := ClassOf(seen, KeyOf(f));
            IsMergeOf(seen + [f], KeyOf(f), if group == [] then f else MergeInto(Merged(group), f))
  {
    ClassStep(seen, f, KeyOf(f));
    MergedStep(ClassOf(seen, KeyOf(f)), f);
  }

  /** `entry(key).and_modify(merge).or_insert(finding)` */
  method AddFinding(merged: map<DedupKey, Finding>, f: Finding, ghost seen: seq<Finding>)
    returns (updated: map<DedupKey, Finding>)
    requires Holds(seen, merged)
    ensures Holds(seen + [f], updated)
  {
    var key := KeyOf(f);
    ClassNonEmpty(seen, key);
    OwnClassMerged(seen, f);
    ClassStep(seen, f, key);
    forall k | k in merged && k != key ensures IsMergeOf(seen + [f], k, merged[k]) {
      OtherClassKept(seen, f, k, merged[k]);
    }
    var value := if key in merged then MergeInto(merged[key], f) else f;
    updated := merged[key := value];
    HoldsUpdate(seen, seen + [f], key, merged, value);
  }

  method DeduplicateFindings(findings: seq<Finding>) returns (unique: seq<Finding>, summary: DeduplicationSummary)
    ensures unique == Deduplicated(findings)
    ensures summary.original == |findings| && summary.unique == |unique|
    ensures summary.duplicatesRemoved == |findings| - |unique|
  {
    var merged: map<DedupKey, Finding> := map[];
    for n := 0 to |findings|
      invariant Holds(findings[..n], merged)
    {
      merged := AddFinding(merged, findings[n], findings[..n]);
      assert findings[..n + 1] == findings[..n] + [findings[n]];
    }
    assert findings[..|findings|] == findings;
    var keys := Canonical(CompareKey, Keys(findings));
    CompareKeyTotal();
    CanonicalCorrect(CompareKey, Keys(findings));
    var values := DrainValues(findings, merged, keys);
    unique := SortBy(CompareOutput, values);
    SortMembers(CompareOutput, values);
    CanonicalIsShorter(CompareKey, Keys(findings));
    summary := DeduplicationSummary(|findings|, |unique|, |findings| - |unique|);
  }

  method DrainValues(findings: seq<Finding>, merged: map<DedupKey, Finding>, keys: seq<DedupKey>)
    returns (values: seq<Finding>)
    requires forall k :: k in keys ==> k in Keys(findings)
    requires Holds(findings, merged)
    ensures values == MergedClasses(findings, keys)
  {
    values := [];
    for n := 0 to |keys|
      invariant |values| == n
      invariant forall i :: 0 <= i < n ==> values[i] == MergedClasses(findings, keys)[i]
    {
      assert keys[n] in keys;
      values := values + [merged[keys[n]]];
    }
  }

  lemma CanonicalIsShorter<T>(cmp: (T, T) -> Ordering, s: seq<T>)
    ensures |Canonical(cmp, s)| <= |s|
  {
    SortMembers(cmp, s);
    DedupIsShorter(SortBy(cmp, s));
  }

  lemma {:induction false} DedupIsShorter<T>(s: seq<T>)
    ensures |DedupAdjacent(s)| <= |s|
  {
    if |s| > 1 {
      DedupIsShorter(s[..|s| - 1]);
    }
  }

  lemma CompareKeyTotal()
    ensures TotalOrder(CompareKey)
  {
    CompareStringTotal();
    forall x, y ensures CompareKey(x, y) == Equal <==> x == y {
      KeyTies(x, y);
    }
    forall x, y ensures CompareKey(x, y) == Less <==> CompareKey(y, x) == Greater {
      KeyReverses(x, y);
    }
    forall x, y, z | CompareKey(x, y) == Less && CompareKey(y, z) == Less ensures CompareKey(x, z) == Less {
      KeyTransitive(x, y, z);
    }
  }

  lemma KeyTies(x: DedupKey, y: DedupKey)
    requires TotalOrder(CompareString)
    ensures CompareKey(x, y) == Equal <==> x == y
  {
  }

  lemma KeyReverses(x: DedupKey, y: DedupKey)
    requires TotalOrder(CompareString)
    ensures CompareKey(x, y) == Less <==> CompareKey(y, x) == Greater
  {
  }

  lemma KeyTransitive(x: DedupKey, y: DedupKey, z: DedupKey)
    requires TotalOrder(CompareString)
    requires CompareKey(x, y) == Less && CompareKey(y, z) == Less
    ensures CompareKey(x, z) == Less
  {
  }

  // ---- What a merged finding is ----

  /** Merging never changes the key. */
  lemma {:induction false} MergedKey(emissions: seq<Finding>, key: DedupKey)
    requires emissions != [] && forall f :: f in emissions ==> KeyOf(f) == key
    ensures KeyOf(Merged(emissions)) == key
  {
    assert emissions[0] in emissions;
    if |emissions| > 1 {
      forall f | f in emissions[..|emissions| - 1] ensures KeyOf(f) == key { assert f in emissions; }
      MergedKey(emissions[..|emissions| - 1], key);
    }
  }

  function FirstLine(emissions: seq<Finding>): Option<nat> {
    if emissions == [] then None
    else if emissions[0].lineNumber.Some? then emissions[0].lineNumber
    else FirstLine(emissions[1..])
  }

  lemma {:induction false} FirstLineAppend(emissions: seq<Finding>, f: Finding)
    ensures FirstLine(emissions + [f]) == if FirstLine(emissions).Some? then FirstLine(emissions) else f.lineNumber
  {
    if emissions == [] {
      assert emissions + [f] == [f];
    } else {
      assert (emissions + [f])[1..] == emissions[1..] + [f];
      FirstLineAppend(emissions[1..], f);
    }
  }

  /** The line of a merged finding is the first line any emission carried. */
  lemma {:induction false} MergedLine(emissions: seq<Finding>)
    requires emissions != []
    ensures Merged(emissions).lineNumber == FirstLine(emissions)
  {
    var m := |emissions| - 1;
    if m == 0 {
      assert emissions[1..] == [];
    } else {
      MergedLine(emissions[..m]);
      FirstLineAppend(emissions[..m], emissions[m]);
      assert emissions == emissions[..m] + [emissions[m]];
    }
  }

  lemma {:induction false} FirstLineIsSome(emissions: seq<Finding>)
    requires emissions != []
    ensures exists f :: f in emissions && f.lineNumber == FirstLine(emissions)
  {
    if emissions[0].lineNumber.None? && emissions[1..] != [] {
      FirstLineIsSome(emissions[1..]);
      var f :| f in emissions[1..] && f.lineNumber == FirstLine(emissions[1..]);
      assert f in emissions;
    } else {
      assert emissions[1..] == [] ==> FirstLine(emissions[1..]) == None;
      assert emissions[0] in emissions && emissions[0].lineNumber == FirstLine(emissions);
    }
  }

  // ---- Strength: what the documentation says and what the loop does ----

  /** The emission whose qualitative fields the merge ends up with. */
  function Winner(emissions: seq<Finding>): (w: nat)
    requires emissions != []
    ensures w < |emissions|
  {
    var m := |emissions| - 1;
    if m == 0 then 0
    else if CompareStrength(emissions[m], Merged(emissions[..m])) == Greater then m
    else Winner(emissions[..m])
  }

  lemma {:induction false} MergedFields(emissions: seq<Finding>)
    requires emissions != []
    ensures var r, w := Merged(emissions), emissions[Winner(emissions)];
            r.recommendedAction == w.recommendedAction && r.signalClass == w.signalClass
            && r.evidenceKind == w.evidenceKind && r.rawConfidence == w.rawConfidence
            && r.confidenceRationale == w.confidenceRationale
  {
    if |emissions| > 1 {
      MergedFields(emissions[..|emissions| - 1]);
    }
  }

  /** Action, severity and confidence of the merge are upper bounds of all emissions. */
  lemma {:induction false} MergedIsUpperBound(emissions: seq<Finding>)
    requires emissions != []
    ensures forall i :: 0 <= i < |emissions| ==>
              ActionRank(emissions[i].recommendedAction) <= ActionRank(Merged(emissions).recommendedAction)
              && SeverityRank(emissions[i].severity) <= SeverityRank(Merged(emissions).severity)
              && emissions[i].confidence <= Merged(emissions).confidence
  {
    var m := |emissions| - 1;
    if m > 0 {
      MergedIsUpperBound(emissions[..m]);
      forall i | 0 <= i < m ensures emissions[i] == emissions[..m][i] {}
    }
  }

  ghost predicate SomeAction(emissions: seq<Finding>, a: RecommendedAction) {
    exists i :: 0 <= i < |emissions| && emissions[i].recommendedAction == a
  }

  ghost predicate SomeSeverity(emissions: seq<Finding>, s: Severity) {
    exists i :: 0 <= i < |emissions| && emissions[i].severity == s
  }

  /** The merge blocks if any emission does, and so on down; likewise its severity. */
  lemma MergedLevels(emissions: seq<Finding>)
    requires emissions != []
    ensures Merged(emissions).recommendedAction
         == if SomeAction(emissions, Block) then Block
            else if SomeAction(emissions, RequireApproval) then RequireApproval else Log
    ensures Merged(emissions).severity
         == if SomeSeverity(emissions, Critical) then Critical
            else if SomeSeverity(emissions, High) then High
            else if SomeSeverity(emissions, Medium) then Medium else Low
  {
    hide Merged;
    MergedIsUpperBound(emissions);
    MergedIsAttained(emissions);
  }

  /** `m` is the first emission with the greatest (action, severity, confidence). */
  ghost predicate Strongest(emissions: seq<Finding>, m: nat) {
    && m < |emissions|
    && (forall i :: 0 <= i < |emissions| ==> CompareStrength(emissions[i], emissions[m]) != Greater)
    && (forall i :: 0 <= i < m ==> CompareStrength(emissions[i], emissions[m]) == Less)
  }

  /** The strongest emission is at least as strong as any running merge that contains it. */
  lemma NeverStrongerThanMerge(emissions: seq<Finding>, m: nat, n: nat)
    requires Strongest(emissions, m) && m < n < |emissions|
    ensures CompareStrength(emissions[n], Merged(emissions[..n])) != Greater
    ensures Strongest(emissions[..n], m)
  {
    MergedIsUpperBound(emissions[..n]);
    assert emissions[..n][m] == emissions[m];
    assert CompareStrength(emissions[n], emissions[m]) != Greater;
  }

  lemma {:induction false} WinnerKept(emissions: seq<Finding>, m: nat)
    requires Strongest(emissions, m)
    ensures Winner(emissions) == Winner(emissions[..m + 1])
  {
    var n := |emissions| - 1;
    if n > m {
      NeverStrongerThanMerge(emissions, m, n);
      WinnerKept(emissions[..n], m);
      assert emissions[..n][..m + 1] == emissions[..m + 1];
    } else {
      assert emissions[..m + 1] == emissions;
    }
  }

  /** Something before `m` hides it: as strong an action, and a severity or confidence it does not beat. */
  ghost predicate Shadowed(emissions: seq<Finding>, m: nat)
    requires m < |emissions|
  {
    && (exists i :: 0 <= i < m && emissions[i].recommendedAction == emissions[m].recommendedAction)
    && (|| (exists i :: 0 <= i < m && SeverityRank(emissions[i].severity) > SeverityRank(emissions[m].severity))
        || ((exists i :: 0 <= i < m && emissions[i].severity == emissions[m].severity)
            && (exists i :: 0 <= i < m && emissions[i].confidence >= emissions[m].confidence)))
  }

  /** Severity and confidence of the merge are attained by some emission each. */
  lemma {:induction false} MergedIsAttained(emissions: seq<Finding>)
    requires emissions != []
    ensures exists i :: 0 <= i < |emissions| && emissions[i].severity == Merged(emissions).severity
    ensures exists i :: 0 <= i < |emissions| && emissions[i].confidence == Merged(emissions).confidence
    ensures exists i :: 0 <= i < |emissions| && emissions[i].recommendedAction == Merged(emissions).recommendedAction
  {
    MergedFields(emissions);
    var m := |emissions| - 1;
    if m > 0 {
      MergedIsAttained(emissions[..m]);
      var i :| 0 <= i < m && emissions[..m][i].severity == Merged(emissions[..m]).severity;
      var j :| 0 <= j < m && emissions[..m][j].confidence == Merged(emissions[..m]).confidence;
      assert emissions[i] == emissions[..m][i] && emissions[j] == emissions[..m][j];
    }
  }

  /** The merge takes its qualitative fields from the strongest emission exactly when nothing shadows it. */
  lemma WinnerIsStrongestIff(emissions: seq<Finding>, m: nat)
    requires Strongest(emissions, m)
    ensures Winner(emissions) == m <==> !Shadowed(emissions, m)
  {
    WinnerKept(emissions, m);
    if m > 0 {
      var prior := emissions[..m];
      assert emissions[..m + 1][..m] == prior;
      MergedIsUpperBound(prior);
      MergedIsAttained(prior);
      ShadowedIsNotGreater(emissions, m, Merged(prior));
    }
  }

  lemma ShadowedIsNotGreater(emissions: seq<Finding>, m: nat, merged: Finding)
    requires Strongest(emissions, m) && m > 0
    requires forall i :: 0 <= i < m ==>
      ActionRank(emissions[..m][i].recommendedAction) <= ActionRank(merged.recommendedAction)
      && SeverityRank(emissions[..m][i].severity) <= SeverityRank(merged.severity)
      && emissions[..m][i].confidence <= merged.confidence
    requires exists i :: 0 <= i < m && emissions[..m][i].severity == merged.severity
    requires exists i :: 0 <= i < m && emissions[..m][i].confidence == merged.confidence
    requires exists i :: 0 <= i < m && emissions[..m][i].recommendedAction == merged.recommendedAction
    ensures CompareStrength(emissions[m], merged) == Greater <==> !Shadowed(emissions, m)
  {
    forall i | 0 <= i < m ensures emissions[..m][i] == emissions[i] {}
    var s :| 0 <= s < m && emissions[..m][s].severity == merged.severity;
    var c :| 0 <= c < m && emissions[..m][c].confidence == merged.confidence;
    var a :| 0 <= a < m && emissions[..m][a].recommendedAction == merged.recommendedAction;
    assert emissions[s].severity == merged.severity && emissions[c].confidence == merged.confidence;
    assert emissions[a].recommendedAction == merged.recommendedAction;
  }

  // ---- Texts of the merge ----

  /** The winner, and every later emission that ties with what had been merged so far. */
  ghost predicate HasSay(emissions: seq<Finding>, i: nat)
    requires i < |emissions|
  {
    || i == Winner(emissions)
    || (i > Winner(emissions) && CompareStrength(emissions[i], Merged(emissions[..i])) == Equal)
  }

  /** Emission `i` has the first longest of the texts of the emissions that have a say. */
  ghost predicate FirstLongestAt(emissions: seq<Finding>, textOf: Finding -> string, text: string, i: nat) {
    && i < |emissions| && HasSay(emissions, i) && textOf(emissions[i]) == text
    && (forall j: nat :: j < |emissions| && HasSay(emissions, j) ==>
          ByteLength(textOf(emissions[j])) <= ByteLength(text))
    && (forall j: nat :: j < i && HasSay(emissions, j) ==> ByteLength(textOf(emissions[j])) < ByteLength(text))
  }

  ghost predicate FirstLongest(emissions: seq<Finding>, textOf: Finding -> string, text: string) {
    exists i: nat :: FirstLongestAt(emissions, textOf, text, i)
  }

  lemma SayBefore(emissions: seq<Finding>, i: nat)
    requires |emissions| > 1 && i < |emissions| - 1 && Winner(emissions) != |emissions| - 1
    ensures HasSay(emissions, i) <==> HasSay(emissions[..|emissions| - 1], i)
  {
    assert emissions[..|emissions| - 1][..i] == emissions[..i];
  }

  lemma LaterTextJoins(emissions: seq<Finding>, textOf: Finding -> string, before: string)
    requires |emissions| > 1 && Winner(emissions) != |emissions| - 1
    requires FirstLongest(emissions[..|emissions| - 1], textOf, before)
    ensures FirstLongest(emissions, textOf,
              if HasSay(emissions, |emissions| - 1) then Longer(before, textOf(emissions[|emissions| - 1])) else before)
  {
    hide HasSay, ByteLength, Winner;
    var m := |emissions| - 1;
    var i: nat :| FirstLongestAt(emissions[..m], textOf, before, i);
    forall j: nat | j < m
      ensures (HasSay(emissions, j) <==> HasSay(emissions[..m], j)) && emissions[..m][j] == emissions[j]
    {
      SayBefore(emissions, j);
    }
    var last := textOf(emissions[m]);
    if HasSay(emissions, m) && ByteLength(last) > ByteLength(before) {
      assert FirstLongestAt(emissions, textOf, last, m);
    } else {
      assert FirstLongestAt(emissions, textOf, before, i);
    }
  }

  lemma WinnerStartsAnew(emissions: seq<Finding>, textOf: Finding -> string)
    requires emissions != [] && Winner(emissions) == |emissions| - 1
    ensures FirstLongest(emissions, textOf, textOf(emissions[|emissions| - 1]))
  {
    hide CompareStrength, Merged, ByteLength;
    var m := |emissions| - 1;
    assert HasSay(emissions, m);
    assert FirstLongestAt(emissions, textOf, textOf(emissions[m]), m);
  }

  /** Reason and remediation are each the first longest among the winner's and those of its later ties. */
  lemma {:induction false} MergedTexts(emissions: seq<Finding>)
    requires emissions != []
    ensures FirstLongest(emissions, (f: Finding) => f.reason, Merged(emissions).reason)
    ensures FirstLongest(emissions, (f: Finding) => f.remediation, Merged(emissions).remediation)
  {
    var m := |emissions| - 1;
    var reason, remediation := (f: Finding) => f.reason, (f: Finding) => f.remediation;
    if Winner(emissions) == m {
      WinnerStartsAnew(emissions, reason);
      WinnerStartsAnew(emissions, remediation);
    } else {
      MergedTexts(emissions[..m]);
      LaterTextJoins(emissions, reason, Merged(emissions[..m]).reason);
      LaterTextJoins(emissions, remediation, Merged(emissions[..m]).remediation);
    }
  }

  lemma {:induction false} MergeContextsMembers(a: seq<OperationalContext>, b: seq<OperationalContext>)
    ensures forall x :: x in MergeContexts(a, b) <==> x in a || x in b
  {
    if b != [] {
      MergeContextsMembers(a, b[..|b| - 1]);
      assert b == b[..|b| - 1] + [b[|b| - 1]];
    }
  }

  /** The merged contexts are the union of all emissions' contexts. */
  lemma {:induction false} MergedContexts(emissions: seq<Finding>, x: OperationalContext)
    requires emissions != []
    ensures x in Merged(emissions).operationalContexts <==> exists f :: f in emissions && x in f.operationalContexts
  {
    var m := |emissions| - 1;
    assert emissions == emissions[..m] + [emissions[m]];
    if m > 0 {
      MergedContexts(emissions[..m], x);
      MergeContextsMembers(Merged(emissions[..m]).operationalContexts, emissions[m].operationalContexts);
    }
    assert emissions[m] in emissions;
  }

  // ---- Order of arrival ----

  ghost predicate WinsIn(emissions: seq<Finding>, f: Finding) {
    emissions != [] && emissions[Winner(emissions)] == f
  }

  /** `f` is strictly stronger than everything else. */
  ghost predicate Dominates(f: Finding, others: seq<Finding>) {
    forall i :: 0 <= i < |others| ==> CompareStrength(others[i], f) == Less
  }

  /** In any order of arrival the dominating emission has one place, and what precedes it is from the others. */
  lemma PlaceOfStrongest(others: seq<Finding>, f: Finding, order: seq<Finding>) returns (m: nat)
    requires Dominates(f, others) && multiset(order) == multiset(others + [f])
    ensures Strongest(order, m) && order[m] == f
    ensures forall i :: 0 <= i < m ==> order[i] in others
  {
    SameMembers(order, others + [f]);
    assert f in others + [f] && f in order;
    m :| 0 <= m < |order| && order[m] == f;
    forall i | 0 <= i < |order| ensures order[i] == f || order[i] in others {
      assert order[i] in others + [f];
    }
    forall i | 0 <= i < |order| && i != m ensures order[i] in others {
      if order[i] == f {
        OccursTwice(order, if i < m then i else m, if i < m then m else i);
      }
    }
  }

  /** A shadow in one order of arrival is a shadow when the strongest emission comes last. */
  lemma ShadowedLast(others: seq<Finding>, f: Finding, order: seq<Finding>, m: nat)
    requires m < |order| && order[m] == f && forall i :: 0 <= i < m ==> order[i] in others
    requires Shadowed(order, m)
    ensures Shadowed(others + [f], |others|)
  {
    forall i | 0 <= i < m ensures exists j :: 0 <= j < |others| && (others + [f])[j] == order[i] {
      var j :| 0 <= j < |others| && others[j] == order[i];
      assert (others + [f])[j] == others[j];
    }
  }

  lemma WinsUnlessShadowed(others: seq<Finding>, f: Finding, order: seq<Finding>)
    requires Dominates(f, others) && !Shadowed(others + [f], |others|)
    requires multiset(order) == multiset(others + [f])
    ensures WinsIn(order, f)
  {
    var m := PlaceOfStrongest(others, f, order);
    if Shadowed(order, m) {
      ShadowedLast(others, f, order, m);
    }
    WinnerIsStrongestIff(order, m);
  }

  /** A dominating emission wins in every order of arrival exactly when it is not shadowed on arriving last. */
  lemma WinsInEveryOrderIff(others: seq<Finding>, f: Finding)
    requires Dominates(f, others)
    ensures (forall order :: multiset(order) == multiset(others + [f]) ==> WinsIn(order, f))
       <==> !Shadowed(others + [f], |others|)
  {
    var last := others + [f];
    assert Strongest(last, |others|);
    WinnerIsStrongestIff(last, |others|);
    if Shadowed(last, |others|) {
      LoserIsAnother(last, |others|, f);
    } else {
      forall order | multiset(order) == multiset(last) ensures WinsIn(order, f) {
        WinsUnlessShadowed(others, f, order);
      }
    }
  }

  lemma LoserIsAnother(emissions: seq<Finding>, m: nat, f: Finding)
    requires m == |emissions| - 1 && Dominates(f, emissions[..m]) && Winner(emissions) != m
    ensures !WinsIn(emissions, f)
  {
    var w := Winner(emissions);
    assert emissions[w] == emissions[..m][w];
  }

  function Emission(severity: Severity, action: RecommendedAction, signalClass: SignalClass): Finding {
    Example("RULE", Generic, signalClass, action, None, None).(severity := severity)
  }

  lemma MergeThree(a: Finding, b: Finding, c: Finding)
    ensures Merged([a, b, c]) == MergeInto(MergeInto(a, b), c)
  {
    MergedStep([a], b);
    MergedStep([a, b], c);
    assert [a] + [b] == [a, b] && [a, b] + [c] == [a, b, c];
  }

  function WeakCritical(): Finding { Emission(Critical, Log, Hygiene) }
  function LowBlock(): Finding { Emission(Low, Block, ReviewSignal) }
  function MediumBlock(): Finding { Emission(Medium, Block, MaliciousBehavior) }

  /** Three emissions can merge to the fields of one that is not the strongest. */
  lemma MergeCanMissStrongest()
    ensures Strongest([WeakCritical(), LowBlock(), MediumBlock()], 2)
    ensures Merged([WeakCritical(), LowBlock(), MediumBlock()]).signalClass == LowBlock().signalClass
  {
    MergeThree(WeakCritical(), LowBlock(), MediumBlock());
  }

  /** The same emissions in another order merge to other fields. */
  lemma MergeOrderMatters()
    ensures Merged([WeakCritical(), MediumBlock(), LowBlock()]).signalClass == MediumBlock().signalClass
    ensures MediumBlock().signalClass != LowBlock().signalClass
  {
    MergeThree(WeakCritical(), MediumBlock(), LowBlock());
  }

  // ---- What counts as a duplicate, field by field ----

  /** The same place in a document: names of sections and languages up to case, files exactly. */
  predicate SameTarget(a: MatchTarget, b: MatchTarget) {
    match (a, b)
    case (Document, Document) => true
    case (Section(x), Section(y)) => SameUpToCase(x, y)
    case (CodeBlock(x), CodeBlock(y)) =>
      SameUpToCase(if x == None then "unknown" else x.value, if y == None then "unknown" else y.value)
    case (ReferencedFile(x), ReferencedFile(y)) => x == y
    case _ => false
  }

  predicate SameSubject(a: Finding, b: Finding) {
    && a.ruleId == b.ruleId && a.category == b.category && SameTarget(a.matchedOn, b.matchedOn)
    && SameUpToCase(a.matchValue, b.matchValue) && a.artifactKind == b.artifactKind
    && a.artifactScope == b.artifactScope && a.artifactPath == b.artifactPath
  }

  lemma Prefixed(tag: string, x: string, y: string)
    ensures tag + x == tag + y <==> x == y
  {
    if tag + x == tag + y {
      assert x == (tag + x)[|tag|..] && y == (tag + y)[|tag|..];
    }
  }

  lemma TargetTag(t: MatchTarget)
    ensures DedupMatchedOn(t) != []
    ensures DedupMatchedOn(t)[0] == match t case Document => 'd' case Section(_) => 's' case CodeBlock(_) => 'c'
                                     case ReferencedFile(_) => 'f'
  {
  }

  lemma SameTargetIff(a: MatchTarget, b: MatchTarget)
    ensures DedupMatchedOn(a) == DedupMatchedOn(b) <==> SameTarget(a, b)
  {
    TargetTag(a);
    TargetTag(b);
    match (a, b)
    case (Section(x), Section(y)) =>
      Prefixed("section:", Lower(x), Lower(y));
      LowerEqualIff(x, y);
    case (CodeBlock(x), CodeBlock(y)) =>
      var m, n := if x == None then "unknown" else x.value, if y == None then "unknown" else y.value;
      Prefixed("code_block:", Lower(m), Lower(n));
      LowerEqualIff(m, n);
    case (ReferencedFile(x), ReferencedFile(y)) => Prefixed("file:", x, y);
    case _ =>
  }

  lemma SameKeyIff(a: Finding, b: Finding)
    ensures KeyOf(a) == KeyOf(b) <==> SameSubject(a, b)
  {
    SameTargetIff(a.matchedOn, b.matchedOn);
    LowerEqualIff(a.matchValue, b.matchValue);
  }

  lemma MergedClassAt(findings: seq<Finding>, keys: seq<DedupKey>, i: nat)
    requires (forall k :: k in keys ==> k in Keys(findings)) && i < |keys|
    ensures KeyOf(MergedClasses(findings, keys)[i]) == keys[i]
  {
    assert keys[i] in keys;
    ClassNonEmpty(findings, keys[i]);
    MergedKey(ClassOf(findings, keys[i]), keys[i]);
  }

  /** Each reported key is reported once. */
  ghost predicate KeysDiffer(reported: seq<Finding>) {
    forall i, j :: 0 <= i < j < |reported| ==> KeyOf(reported[i]) != KeyOf(reported[j])
  }

  lemma MergedClassesDiffer(findings: seq<Finding>)
    ensures forall k :: k in Canonical(CompareKey, Keys(findings)) <==> k in Keys(findings)
    ensures KeysDiffer(MergedClasses(findings, Canonical(CompareKey, Keys(findings))))
  {
    var keys := Canonical(CompareKey, Keys(findings));
    CompareKeyTotal();
    CanonicalCorrect(CompareKey, Keys(findings));
    forall i, j | 0 <= i < j < |keys|
      ensures KeyOf(MergedClasses(findings, keys)[i]) != KeyOf(MergedClasses(findings, keys)[j])
    {
      MergedClassAt(findings, keys, i);
      MergedClassAt(findings, keys, j);
      assert CompareKey(keys[i], keys[j]) == Less;
    }
  }

  lemma KeysDifferPermutation(a: seq<Finding>, b: seq<Finding>)
    requires multiset(a) == multiset(b) && KeysDiffer(a)
    ensures KeysDiffer(b)
  {
    SameMembers(a, b);
    assert NoDuplicates(a);
    NoDuplicatesPermutation(a, b);
    forall i, j | 0 <= i < j < |b| ensures KeyOf(b[i]) != KeyOf(b[j]) {
      assert b[i] in a && b[j] in a;
      var k :| 0 <= k < |a| && a[k] == b[i];
      var l :| 0 <= l < |a| && a[l] == b[j];
      assert k != l;
    }
  }

  /** No two reported findings are of the same subject. */
  lemma ReportedDiffer(findings: seq<Finding>, i: nat, j: nat)
    requires i < j < |Deduplicated(findings)|
    ensures !SameSubject(Deduplicated(findings)[i], Deduplicated(findings)[j])
  {
    MergedClassesDiffer(findings);
    var values := MergedClasses(findings, Canonical(CompareKey, Keys(findings)));
    SortMultiset(CompareOutput, values);
    KeysDifferPermutation(values, Deduplicated(findings));
    SameKeyIff(Deduplicated(findings)[i], Deduplicated(findings)[j]);
  }

  /** Every finding is represented by a reported one of its subject, and nothing else is reported. */
  lemma EverySubjectReported(findings: seq<Finding>)
    ensures forall f :: f in findings ==> exists u :: u in Deduplicated(findings) && SameSubject(f, u)
    ensures forall u :: u in Deduplicated(findings) ==> exists f :: f in findings && SameSubject(f, u)
  {
    MergedClassesDiffer(findings);
    var keys := Canonical(CompareKey, Keys(findings));
    var values := MergedClasses(findings, keys);
    SortMembers(CompareOutput, values);
    forall f | f in findings ensures exists u :: u in Deduplicated(findings) && SameSubject(f, u) {
      ClassNonEmpty(findings, KeyOf(f));
      assert f in ClassOf(findings, KeyOf(f));
      var i :| 0 <= i < |keys| && keys[i] == KeyOf(f);
      MergedClassAt(findings, keys, i);
      SameKeyIff(f, values[i]);
      assert values[i] in values;
    }
    forall u | u in Deduplicated(findings) ensures exists f :: f in findings && SameSubject(f, u) {
      assert u in values;
      var i :| 0 <= i < |keys| && values[i] == u;
      MergedClassAt(findings, keys, i);
      assert keys[i] in keys;
      var j :| 0 <= j < |findings| && Keys(findings)[j] == keys[i];
      SameKeyIff(findings[j], u);
      assert findings[j] in findings;
    }
  }

  // ---- Output order ----

  lemma OptionWeak<T(!new)>(cmp: (T, T) -> Ordering)
    requires TotalOrder(cmp)
    ensures TotalOrder((a: Option<T>, b: Option<T>) => CompareOption(cmp, a, b))
  {
  }

  function ByRule(a: Finding, b: Finding): Ordering { CompareString(a.ruleId, b.ruleId) }
  function ByPath(a: Finding, b: Finding): Ordering { CompareOption(CompareString, a.artifactPath, b.artifactPath) }
  function ByLine(a: Finding, b: Finding): Ordering { CompareOption(CompareNat, a.lineNumber, b.lineNumber) }
  function ByValue(a: Finding, b: Finding): Ordering { CompareString(a.matchValue, b.matchValue) }

  lemma NatTotal()
    ensures TotalOrder(CompareNat)
  {
  }

  lemma FieldsWeak()
    ensures WeakOrder(ByRule) && WeakOrder(ByPath) && WeakOrder(ByLine) && WeakOrder(ByValue)
  {
    CompareStringTotal();
    NatTotal();
    var paths := (a: Option<string>, b: Option<string>) => CompareOption(CompareString, a, b);
    var lines := (a: Option<nat>, b: Option<nat>) => CompareOption(CompareNat, a, b);
    OptionWeak<string>(CompareString);
    OptionWeak<nat>(CompareNat);
    WeakBy(CompareString, (f: Finding) => f.ruleId, ByRule);
    WeakBy(paths, (f: Finding) => f.artifactPath, ByPath);
    WeakBy(lines, (f: Finding) => f.lineNumber, ByLine);
    WeakBy(CompareString, (f: Finding) => f.matchValue, ByValue);
  }

  lemma OutputWeak()
    ensures WeakOrder(CompareOutput)
  {
    FieldsWeak();
    var lineThenValue := (a: Finding, b: Finding) => Then(ByLine(a, b), ByValue(a, b));
    var pathFirst := (a: Finding, b: Finding) => Then(ByPath(a, b), lineThenValue(a, b));
    WeakThen(ByLine, ByValue, lineThenValue);
    WeakThen(ByPath, lineThenValue, pathFirst);
    WeakThen(ByRule, pathFirst, CompareOutput);
  }

  /** By rule id; then findings without a path first, and by path; then those without a line, and by
      line; then by match value. */
  ghost predicate OutputBefore(a: Finding, b: Finding) {
    || CompareString(a.ruleId, b.ruleId) == Less
    || (a.ruleId == b.ruleId
        && (|| (a.artifactPath == None && b.artifactPath != None)
            || (a.artifactPath != None && b.artifactPath != None
                && CompareString(a.artifactPath.value, b.artifactPath.value) == Less)
            || (a.artifactPath == b.artifactPath
                && (|| (a.lineNumber == None && b.lineNumber != None)
                    || (a.lineNumber != None && b.lineNumber != None && a.lineNumber.value < b.lineNumber.value)
                    || (a.lineNumber == b.lineNumber && CompareString(a.matchValue, b.matchValue) != Greater)))))
  }

  lemma NotGreaterIsBefore(a: Finding, b: Finding)
    requires CompareOutput(a, b) != Greater && TotalOrder(CompareString)
    ensures OutputBefore(a, b)
  {
    assert CompareString(a.ruleId, b.ruleId) == Equal <==> a.ruleId == b.ruleId;
    if a.artifactPath != None && b.artifactPath != None {
      assert CompareString(a.artifactPath.value, b.artifactPath.value) == Equal
        <==> a.artifactPath.value == b.artifactPath.value;
    }
  }

  lemma OutputIsSorted(findings: seq<Finding>, i: nat, j: nat)
    requires i < j < |Deduplicated(findings)|
    ensures OutputBefore(Deduplicated(findings)[i], Deduplicated(findings)[j])
  {
    OutputWeak();
    MergedClassesDiffer(findings);
    SortSorted(CompareOutput, MergedClasses(findings, Canonical(CompareKey, Keys(findings))));
    CompareStringTotal();
    NotGreaterIsBefore(Deduplicated(findings)[i], Deduplicated(findings)[j]);
  }
}
