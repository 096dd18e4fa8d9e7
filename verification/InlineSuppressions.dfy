/** Applying inline suppressions (inline_suppressions.rs). The current time and the path comparison
    are parameters, so everything below holds for any clock and any comparison. */
module InlineSuppressions {
  import opened Orders
  import opened Text
  import opened Findings

  datatype InlineSuppression = InlineSuppression(
    path: string,
    ruleId: string,
    appliesToLine: Option<nat>,
    kind: string,
    reason: Option<string>,
    expiresAt: Option<int>)

  /** Everything one application is judged by. */
  datatype Directives = Directives(
    suppressions: seq<InlineSuppression>,
    primaryPath: Option<string>,
    now: int,
    pathsMatch: (string, string) -> bool)

  predicate Expired(s: InlineSuppression, now: int) {
    s.expiresAt.Some? && s.expiresAt.value < now
  }

  predicate PathMatches(c: Directives, s: InlineSuppression, f: Finding) {
    || (f.artifactPath.Some? && c.pathsMatch(f.artifactPath.value, s.path))
    || (s.appliesToLine.Some? && f.artifactPath.None?
        && c.primaryPath.Some? && c.pathsMatch(c.primaryPath.value, s.path))
  }

  predicate RuleMatches(s: InlineSuppression, f: Finding) {
    s.ruleId == "*" || Lower(s.ruleId) == Lower(f.ruleId)
  }

  predicate LineMatches(s: InlineSuppression, f: Finding) {
    s.appliesToLine.None? || f.lineNumber == s.appliesToLine
  }

  predicate Matches(c: Directives, s: InlineSuppression, f: Finding) {
    !Expired(s, c.now) && PathMatches(c, s, f) && RuleMatches(s, f) && LineMatches(s, f)
  }

  /** The first suppression, in list order, that matches. */
  function FirstMatch(c: Directives, suppressions: seq<InlineSuppression>, f: Finding): Option<InlineSuppression> {
    if suppressions == [] then None
    else if Matches(c, suppressions[0], f) then Some(suppressions[0])
    else FirstMatch(c, suppressions[1..], f)
  }

  predicate Suppressed(c: Directives, f: Finding) {
    FirstMatch(c, c.suppressions, f).Some?
  }

  function Tagged(c: Directives, f: Finding): Finding {
    match FirstMatch(c, c.suppressions, f)
    case Some(s) => f.(suppression := Some(SuppressionRecord(s.kind, s.ruleId, s.reason)))
    case None => f
  }

  /** The findings with the given verdict, in their original order. */
  function Select(c: Directives, findings: seq<Finding>, suppressed: bool): seq<Finding> {
    if findings == [] then []
    else
      var f := findings[|findings| - 1];
      Select(c, findings[..|findings| - 1], suppressed)
      + (if Suppressed(c, f) == suppressed then [Tagged(c, f)] else [])
  }

  method ApplyInlineSuppressions(findings: seq<Finding>, c: Directives)
    returns (active: seq<Finding>, suppressed: seq<Finding>)
    ensures active == Select(c, findings, false)
    ensures suppressed == Select(c, findings, true)
  {
    if c.suppressions == [] {
      NothingSuppressed(c, findings);
      return findings, [];
    }
    active, suppressed := [], [];
    for n := 0 to |findings|
      invariant active == Select(c, findings[..n], false)
      invariant suppressed == Select(c, findings[..n], true)
    {
      assert findings[..n + 1][..n] == findings[..n];
      var matched := FindFirst(c, findings[n]);
      if matched.Some? {
        var s := matched.value;
        suppressed := suppressed + [findings[n].(suppression := Some(SuppressionRecord(s.kind, s.ruleId, s.reason)))];
      } else {
        active := active + [findings[n]];
      }
    }
    assert findings[..|findings|] == findings;
  }

  method FindFirst(c: Directives, f: Finding) returns (matched: Option<InlineSuppression>)
    ensures matched == FirstMatch(c, c.suppressions, f)
  {
    for n := 0 to |c.suppressions|
      invariant FirstMatch(c, c.suppressions, f) == FirstMatch(c, c.suppressions[n..], f)
    {
      assert c.suppressions[n..][1..] == c.suppressions[n + 1..];
      if Matches(c, c.suppressions[n], f) {
        return Some(c.suppressions[n]);
      }
    }
    return None;
  }

  lemma {:induction false} NothingSuppressed(c: Directives, findings: seq<Finding>)
    requires c.suppressions == []
    ensures Select(c, findings, false) == findings && Select(c, findings, true) == []
  {
    if findings != [] {
      var init, f := findings[..|findings| - 1], findings[|findings| - 1];
      NothingSuppressed(c, init);
      assert !Suppressed(c, f) && Tagged(c, f) == f;
      assert findings == init + [f];
    }
  }

  // ---- The split loses nothing and keeps the order ----

  /** Interleave two lists by a mask: `true` takes from the second. */
  function Weave<T>(mask: seq<bool>, a: seq<T>, b: seq<T>): seq<T> {
    if mask == [] then []
    else if mask[|mask| - 1] then
      (if b == [] then [] else Weave(mask[..|mask| - 1], a, b[..|b| - 1]) + [b[|b| - 1]])
    else
      (if a == [] then [] else Weave(mask[..|mask| - 1], a[..|a| - 1], b) + [a[|a| - 1]])
  }

  function Verdicts(c: Directives, findings: seq<Finding>): seq<bool> {
    seq(|findings|, i requires 0 <= i < |findings| => Suppressed(c, findings[i]))
  }

  function AllTagged(c: Directives, findings: seq<Finding>): seq<Finding> {
    seq(|findings|, i requires 0 <= i < |findings| => Tagged(c, findings[i]))
  }

  /** Weaving the two results back together gives every finding in its place, tagged or untouched. */
  lemma {:induction false} SplitIsLossless(c: Directives, findings: seq<Finding>)
    ensures Weave(Verdicts(c, findings), Select(c, findings, false), Select(c, findings, true))
         == AllTagged(c, findings)
  {
    if findings != [] {
      var m := |findings| - 1;
      SplitIsLossless(c, findings[..m]);
      assert Verdicts(c, findings)[..m] == Verdicts(c, findings[..m]);
      assert AllTagged(c, findings) == AllTagged(c, findings[..m]) + [Tagged(c, findings[m])];
      var a, b := Select(c, findings[..m], false), Select(c, findings[..m], true);
      if Suppressed(c, findings[m]) {
        assert Select(c, findings, false) == a;
        assert Select(c, findings, true)[..|b|] == b;
      } else {
        assert Select(c, findings, true) == b;
        assert Select(c, findings, false)[..|a|] == a;
      }
    }
  }

  lemma {:induction false} SelectMembers(c: Directives, findings: seq<Finding>)
    ensures forall f :: f in Select(c, findings, false) <==> f in findings && !Suppressed(c, f)
  {
    if findings != [] {
      SelectMembers(c, findings[..|findings| - 1]);
      assert findings == findings[..|findings| - 1] + [findings[|findings| - 1]];
    }
  }

  /** A match looks at nothing but the finding's path, rule and line. */
  lemma {:induction false} MatchDependsOn(c: Directives, suppressions: seq<InlineSuppression>, f: Finding, g: Finding)
    requires f.artifactPath == g.artifactPath && f.ruleId == g.ruleId && f.lineNumber == g.lineNumber
    ensures FirstMatch(c, suppressions, f) == FirstMatch(c, suppressions, g)
  {
    if suppressions != [] {
      MatchDependsOn(c, suppressions[1..], f, g);
    }
  }

  /** A line directive never reaches a finding without a line, nor one on another line. */
  lemma {:induction false} LineDirectivesAreLocal(c: Directives, f: Finding)
    requires forall s :: s in c.suppressions ==> s.appliesToLine.Some? && s.appliesToLine != f.lineNumber
    ensures !Suppressed(c, f)
  {
    NoMatch(c, c.suppressions, f);
  }

  lemma {:induction false} NoMatch(c: Directives, suppressions: seq<InlineSuppression>, f: Finding)
    requires forall s :: s in suppressions ==> s.appliesToLine.Some? && s.appliesToLine != f.lineNumber
    ensures FirstMatch(c, suppressions, f).None?
  {
    if suppressions != [] {
      assert suppressions[0] in suppressions;
      forall s | s in suppressions[1..] ensures s in suppressions {}
      NoMatch(c, suppressions[1..], f);
    }
  }

  // ---- What suppression means, field by field ----

  /** A directive that has not expired, for the finding's rule, file and line. Only a line directive
      reaches a finding without a file, and then through the primary document. */
  predicate Governs(c: Directives, s: InlineSuppression, f: Finding) {
    && (s.expiresAt == None || s.expiresAt.value >= c.now)
    && (s.ruleId == "*" || SameUpToCase(s.ruleId, f.ruleId))
    && (match f.artifactPath
        case Some(path) => c.pathsMatch(path, s.path)
        case None => s.appliesToLine != None && c.primaryPath != None && c.pathsMatch(c.primaryPath.value, s.path))
    && (s.appliesToLine == None || s.appliesToLine == f.lineNumber)
  }

  lemma {:induction false} FirstGoverning(c: Directives, suppressions: seq<InlineSuppression>, f: Finding)
    ensures FirstMatch(c, suppressions, f) == None ==> forall s :: s in suppressions ==> !Governs(c, s, f)
    ensures FirstMatch(c, suppressions, f).Some? ==>
              exists i :: 0 <= i < |suppressions| && FirstMatch(c, suppressions, f) == Some(suppressions[i])
                && Governs(c, suppressions[i], f) && forall j :: 0 <= j < i ==> !Governs(c, suppressions[j], f)
  {
    if suppressions != [] {
      LowerEqualIff(suppressions[0].ruleId, f.ruleId);
      FirstGoverning(c, suppressions[1..], f);
      if Governs(c, suppressions[0], f) {
        assert FirstMatch(c, suppressions, f) == Some(suppressions[0]);
      } else if FirstMatch(c, suppressions[1..], f).Some? {
        var rest := suppressions[1..];
        var i :| 0 <= i < |rest| && FirstMatch(c, rest, f) == Some(rest[i])
          && Governs(c, rest[i], f) && forall j :: 0 <= j < i ==> !Governs(c, rest[j], f);
        assert suppressions[i + 1] == rest[i];
        forall j | 0 <= j < i + 1 ensures !Governs(c, suppressions[j], f) {
          if j > 0 { assert suppressions[j] == rest[j - 1]; }
        }
      } else {
        forall s | s in suppressions ensures !Governs(c, s, f) {
          assert s == suppressions[0] || s in suppressions[1..];
        }
      }
    }
  }

  lemma SuppressedIff(c: Directives, f: Finding)
    ensures Suppressed(c, f) <==> exists s :: s in c.suppressions && Governs(c, s, f)
  {
    FirstGoverning(c, c.suppressions, f);
  }

  /** A finding stays active exactly when it was reported and no directive governs it. */
  lemma ActiveIff(c: Directives, findings: seq<Finding>, f: Finding)
    ensures f in Select(c, findings, false) <==> f in findings && forall s :: s in c.suppressions ==> !Governs(c, s, f)
  {
    SelectMembers(c, findings);
    SuppressedIff(c, f);
  }

  /** The record of the first directive that governs the finding. */
  ghost predicate RecordedBy(c: Directives, f: Finding, tagged: Finding, i: nat) {
    && i < |c.suppressions| && Governs(c, c.suppressions[i], f)
    && (forall j :: 0 <= j < i ==> !Governs(c, c.suppressions[j], f))
    && tagged == f.(suppression := Some(SuppressionRecord(
         c.suppressions[i].kind, c.suppressions[i].ruleId, c.suppressions[i].reason)))
  }

  lemma {:induction false} TaggedMembers(c: Directives, findings: seq<Finding>, tagged: Finding)
    ensures tagged in Select(c, findings, true)
       <==> exists f :: f in findings && Suppressed(c, f) && tagged == Tagged(c, f)
  {
    if findings != [] {
      TaggedMembers(c, findings[..|findings| - 1], tagged);
      assert findings == findings[..|findings| - 1] + [findings[|findings| - 1]];
    }
  }

  lemma RecordedIff(c: Directives, f: Finding, tagged: Finding)
    ensures Suppressed(c, f) && tagged == Tagged(c, f) <==> exists i: nat :: RecordedBy(c, f, tagged, i)
  {
    SuppressedIff(c, f);
    FirstGoverning(c, c.suppressions, f);
    if Suppressed(c, f) {
      var j: nat :| j < |c.suppressions| && FirstMatch(c, c.suppressions, f) == Some(c.suppressions[j])
        && Governs(c, c.suppressions[j], f) && forall k :: 0 <= k < j ==> !Governs(c, c.suppressions[k], f);
      if tagged == Tagged(c, f) {
        assert RecordedBy(c, f, tagged, j);
      }
      if i: nat :| RecordedBy(c, f, tagged, i) {
        assert i == j;
      }
    } else if i: nat :| RecordedBy(c, f, tagged, i) {
      assert false;
    }
  }

  /** A finding is handed over as suppressed exactly with the record of the first directive that governs it. */
  lemma SuppressedRecords(c: Directives, findings: seq<Finding>, tagged: Finding)
    ensures tagged in Select(c, findings, true)
       <==> exists f, i: nat :: f in findings && RecordedBy(c, f, tagged, i)
  {
    TaggedMembers(c, findings, tagged);
    forall f ensures Suppressed(c, f) && tagged == Tagged(c, f) <==> exists i: nat :: RecordedBy(c, f, tagged, i) {
      RecordedIff(c, f, tagged);
    }
  }

  /** Time only ever lifts suppressions: what was active stays active later. */
  lemma LaterKeepsActive(c: Directives, later: int, findings: seq<Finding>, f: Finding)
    requires c.now <= later && f in Select(c, findings, false)
    ensures f in Select(c.(now := later), findings, false)
  {
    ActiveIff(c, findings, f);
    ActiveIff(c.(now := later), findings, f);
  }

  lemma ExpiredNeverGovern(c: Directives, f: Finding)
    requires forall s :: s in c.suppressions ==> s.expiresAt != None && s.expiresAt.value < c.now
    ensures !Suppressed(c, f) && Tagged(c, f) == f
  {
    SuppressedIff(c, f);
  }

  /** Directives that have all expired suppress nothing. */
  lemma {:induction false} AllExpiredKeepsAll(c: Directives, findings: seq<Finding>)
    requires forall s :: s in c.suppressions ==> s.expiresAt != None && s.expiresAt.value < c.now
    ensures Select(c, findings, false) == findings && Select(c, findings, true) == []
  {
    hide Suppressed, Tagged;
    if findings != [] {
      var init, f := findings[..|findings| - 1], findings[|findings| - 1];
      AllExpiredKeepsAll(c, init);
      ExpiredNeverGovern(c, f);
      assert findings == init + [f];
    }
  }
}
