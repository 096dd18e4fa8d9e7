/** Why inline suppressions run before deduplication (scanner_execution.rs). */
module SuppressionOrder {
  import opened Orders
  import opened Findings
  import opened InlineSuppressions
  import opened Dedup

  /** The two orders of the two stages, as findings reported in the end. */
  ghost function SuppressThenDedup(c: Directives, findings: seq<Finding>): seq<Finding> {
    Deduplicated(Select(c, findings, false))
  }

  ghost function DedupThenSuppress(c: Directives, findings: seq<Finding>): seq<Finding> {
    Select(c, Deduplicated(findings), false)
  }

  /** The scanner's order: suppress, then deduplicate what is left. */
  method SuppressAndDeduplicate(findings: seq<Finding>, c: Directives)
    returns (unique: seq<Finding>, suppressed: seq<Finding>)
    ensures unique == SuppressThenDedup(c, findings)
    ensures suppressed == Select(c, findings, true)
  {
    var active;
    active, suppressed := ApplyInlineSuppressions(findings, c);
    var summary;
    unique, summary := DeduplicateFindings(active);
  }

  ghost predicate KeyReported(reported: seq<Finding>, key: DedupKey) {
    exists f :: f in reported && KeyOf(f) == key
  }

  lemma KeyMembers(findings: seq<Finding>, key: DedupKey)
    ensures key in Keys(findings) <==> KeyReported(findings, key)
  {
    ClassNonEmpty(findings, key);
    if ClassOf(findings, key) != [] { HasMember(ClassOf(findings, key)); }
  }

  lemma ReportedIsMerged(findings: seq<Finding>, keys: seq<DedupKey>, f: Finding)
    requires forall k :: k in keys ==> k in Keys(findings)
    requires f in MergedClasses(findings, keys)
    ensures KeyOf(f) in keys && ClassOf(findings, KeyOf(f)) != [] && f == Merged(ClassOf(findings, KeyOf(f)))
  {
    var i :| 0 <= i < |keys| && MergedClasses(findings, keys)[i] == f;
    assert keys[i] in keys;
    ClassNonEmpty(findings, keys[i]);
    MergedKey(ClassOf(findings, keys[i]), keys[i]);
  }

  lemma MergedIsReported(findings: seq<Finding>, keys: seq<DedupKey>, key: DedupKey)
    requires forall k :: k in keys ==> k in Keys(findings)
    requires key in keys && ClassOf(findings, key) != []
    ensures Merged(ClassOf(findings, key)) in MergedClasses(findings, keys)
  {
    var i :| 0 <= i < |keys| && keys[i] == key;
    assert MergedClasses(findings, keys)[i] == Merged(ClassOf(findings, key));
  }

  /** Deduplication reports, for each key present, exactly its merged class. */
  lemma DeduplicatedMembers(findings: seq<Finding>, f: Finding)
    ensures f in Deduplicated(findings)
       <==> ClassOf(findings, KeyOf(f)) != [] && f == Merged(ClassOf(findings, KeyOf(f)))
  {
    var keys := Canonical(CompareKey, Keys(findings));
    CompareKeyTotal();
    CanonicalCorrect(CompareKey, Keys(findings));
    SortMembers(CompareOutput, MergedClasses(findings, keys));
    ClassNonEmpty(findings, KeyOf(f));
    if f in MergedClasses(findings, keys) {
      ReportedIsMerged(findings, keys, f);
    }
    if ClassOf(findings, KeyOf(f)) != [] && f == Merged(ClassOf(findings, KeyOf(f))) {
      MergedIsReported(findings, keys, KeyOf(f));
    }
  }

  lemma DeduplicatedKeys(findings: seq<Finding>, key: DedupKey)
    ensures KeyReported(Deduplicated(findings), key) <==> KeyReported(findings, key)
  {
    ClassNonEmpty(findings, key);
    KeyMembers(findings, key);
    if ClassOf(findings, key) != [] {
      var f := Merged(ClassOf(findings, key));
      MergedKey(ClassOf(findings, key), key);
      DeduplicatedMembers(findings, f);
    }
    if f :| f in Deduplicated(findings) && KeyOf(f) == key {
      DeduplicatedMembers(findings, f);
    }
  }

  /** Some emission of the key is not suppressed. */
  ghost predicate HasActiveEmission(c: Directives, findings: seq<Finding>, key: DedupKey) {
    exists f :: f in findings && KeyOf(f) == key && !Suppressed(c, f)
  }

  /** Suppressing first keeps exactly the keys with at least one unsuppressed emission. */
  lemma SuppressFirstKeeps(c: Directives, findings: seq<Finding>, key: DedupKey)
    ensures KeyReported(SuppressThenDedup(c, findings), key) <==> HasActiveEmission(c, findings, key)
  {
    SelectMembers(c, findings);
    DeduplicatedKeys(Select(c, findings, false), key);
  }

  /** The emission that decides for a merged finding: same path, rule and line. */
  lemma Representative(findings: seq<Finding>, key: DedupKey) returns (e: Finding)
    requires ClassOf(findings, key) != []
    ensures e in findings && KeyOf(e) == key && e.lineNumber == FirstLine(ClassOf(findings, key))
    ensures forall c: Directives :: Suppressed(c, Merged(ClassOf(findings, key))) == Suppressed(c, e)
  {
    var emissions := ClassOf(findings, key);
    ClassNonEmpty(findings, key);
    FirstLineIsSome(emissions);
    e :| e in emissions && e.lineNumber == FirstLine(emissions);
    MergedLine(emissions);
    MergedKey(emissions, key);
    var m := Merged(emissions);
    assert m.artifactPath == key.artifactPath == e.artifactPath && m.ruleId == key.ruleId == e.ruleId;
    forall c: Directives ensures Suppressed(c, m) == Suppressed(c, e) {
      MatchDependsOn(c, c.suppressions, m, e);
    }
  }

  /** The emission that fixes the key's reported line, the first known one, is suppressed. */
  ghost predicate FirstLineSuppressed(c: Directives, findings: seq<Finding>, key: DedupKey) {
    exists e :: e in findings && KeyOf(e) == key && e.lineNumber == FirstLine(ClassOf(findings, key))
                && Suppressed(c, e)
  }

  /** It is indifferent which emission with that line is asked: the merged finding fares like each. */
  lemma MergedFaresLikeFirstLine(c: Directives, findings: seq<Finding>, key: DedupKey)
    requires ClassOf(findings, key) != []
    ensures Suppressed(c, Merged(ClassOf(findings, key))) <==> FirstLineSuppressed(c, findings, key)
  {
    var e := Representative(findings, key);
    if x :| x in findings && KeyOf(x) == key && x.lineNumber == FirstLine(ClassOf(findings, key)) && Suppressed(c, x) {
      SameLineSameFate(c, x, e);
    }
  }

  lemma MergedSurvives(c: Directives, findings: seq<Finding>, key: DedupKey)
    ensures KeyReported(DedupThenSuppress(c, findings), key)
       <==> ClassOf(findings, key) != [] && !Suppressed(c, Merged(ClassOf(findings, key)))
  {
    SelectMembers(c, Deduplicated(findings));
    if ClassOf(findings, key) != [] {
      ClassNonEmpty(findings, key);
      MergedKey(ClassOf(findings, key), key);
      DeduplicatedMembers(findings, Merged(ClassOf(findings, key)));
    }
    if f :| f in DedupThenSuppress(c, findings) && KeyOf(f) == key {
      DeduplicatedMembers(findings, f);
    }
  }

  /** Suppressing last keeps exactly the keys whose first known line is not suppressed. */
  lemma SuppressLastKeeps(c: Directives, findings: seq<Finding>, key: DedupKey)
    ensures KeyReported(DedupThenSuppress(c, findings), key)
       <==> KeyReported(findings, key) && !FirstLineSuppressed(c, findings, key)
  {
    MergedSurvives(c, findings, key);
    KeyMembers(findings, key);
    ClassNonEmpty(findings, key);
    if ClassOf(findings, key) != [] {
      MergedFaresLikeFirstLine(c, findings, key);
    }
  }

  /** Whatever survives in the other order survives in the scanner's order. */
  lemma SuppressFirstKeepsMore(c: Directives, findings: seq<Finding>, key: DedupKey)
    requires KeyReported(DedupThenSuppress(c, findings), key)
    ensures KeyReported(SuppressThenDedup(c, findings), key)
  {
    MergedSurvives(c, findings, key);
    SuppressFirstKeeps(c, findings, key);
    var e := Representative(findings, key);
  }

  /** The orders differ on a key exactly when its first known line is suppressed and some emission is not. */
  lemma OrdersDifferIff(c: Directives, findings: seq<Finding>, key: DedupKey)
    ensures (KeyReported(SuppressThenDedup(c, findings), key) && !KeyReported(DedupThenSuppress(c, findings), key))
       <==> HasActiveEmission(c, findings, key) && FirstLineSuppressed(c, findings, key)
  {
    SuppressFirstKeeps(c, findings, key);
    SuppressLastKeeps(c, findings, key);
  }

  /** `a` reports no more than `b` in any of the three strength axes. */
  predicate NoStronger(a: Finding, b: Finding) {
    && ActionRank(a.recommendedAction) <= ActionRank(b.recommendedAction)
    && SeverityRank(a.severity) <= SeverityRank(b.severity)
    && a.confidence <= b.confidence
  }

  lemma {:induction false} ClassMembers(findings: seq<Finding>, key: DedupKey)
    ensures forall f :: f in ClassOf(findings, key) <==> f in findings && KeyOf(f) == key
  {
    if findings != [] {
      var init, last := findings[..|findings| - 1], findings[|findings| - 1];
      ClassMembers(init, key);
      assert findings == init + [last];
    }
  }

  lemma MergeOfFewerIsNoStronger(a: seq<Finding>, b: seq<Finding>)
    requires a != [] && b != [] && forall f :: f in a ==> f in b
    ensures NoStronger(Merged(a), Merged(b))
  {
    MergedIsAttained(a);
    MergedIsUpperBound(b);
    forall i | 0 <= i < |a| ensures NoStronger(a[i], Merged(b)) {
      assert a[i] in b;
    }
  }

  /** Where both orders report a key, the scanner's finding is no stronger in action, severity or confidence. */
  lemma SuppressFirstIsNoStronger(c: Directives, findings: seq<Finding>, first: Finding, last: Finding)
    requires first in SuppressThenDedup(c, findings) && last in DedupThenSuppress(c, findings)
    requires KeyOf(first) == KeyOf(last)
    ensures NoStronger(first, last)
  {
    var key, active := KeyOf(first), Select(c, findings, false);
    DeduplicatedMembers(active, first);
    SelectMembers(c, Deduplicated(findings));
    DeduplicatedMembers(findings, last);
    SelectMembers(c, findings);
    ClassMembers(active, key);
    ClassMembers(findings, key);
    MergeOfFewerIsNoStronger(ClassOf(active, key), ClassOf(findings, key));
  }

  /** One rule on two lines, the first of them under a directive: only the scanner's order reports it. */
  lemma OrderMatters(c: Directives, a: Finding, b: Finding)
    requires KeyOf(a) == KeyOf(b) && a.lineNumber.Some?
    requires Suppressed(c, a) && !Suppressed(c, b)
    ensures KeyReported(SuppressThenDedup(c, [a, b]), KeyOf(a))
    ensures !KeyReported(DedupThenSuppress(c, [a, b]), KeyOf(a))
  {
    ClassStep([], a, KeyOf(a));
    ClassStep([a], b, KeyOf(a));
    assert [] + [a] == [a] && [a] + [b] == [a, b];
    assert ClassOf([a, b], KeyOf(a)) == [a, b];
    var e := Representative([a, b], KeyOf(a));
    assert [a, b][1..] == [b];
    SameLineSameFate(c, a, e);
    assert b in [a, b];
    OrdersDifferIff(c, [a, b], KeyOf(a));
  }

  lemma SameLineSameFate(c: Directives, a: Finding, e: Finding)
    requires KeyOf(a) == KeyOf(e) && a.lineNumber == e.lineNumber
    ensures Suppressed(c, a) == Suppressed(c, e)
  {
    MatchDependsOn(c, c.suppressions, a, e);
  }

  function OnLine(n: nat): Finding {
    Example("RULE", Generic, Hygiene, Log, Some("skill.md"), Some(n))
  }

  function IgnoreLine(n: nat): Directives {
    Directives([InlineSuppression("skill.md", "*", Some(n), "ignore-next-line", None, None)], None, 0, (a, b) => a == b)
  }

  /** Such an input exists, so the documented order is a real difference. */
  lemma OrderMattersForSomeInput()
    ensures exists c: Directives, findings: seq<Finding>, key ::
              KeyReported(SuppressThenDedup(c, findings), key) && !KeyReported(DedupThenSuppress(c, findings), key)
  {
    var c, a, b := IgnoreLine(5), OnLine(5), OnLine(9);
    assert Matches(c, c.suppressions[0], a);
    assert !Matches(c, c.suppressions[0], b) && c.suppressions[1..] == [];
    OrderMatters(c, a, b);
  }
}
