/** Regenerating the labelled baseline (scripts/regenerate_baseline.py). A sample is the dictionary
    the script copies and updates, with scalar values. */
module Baseline {
  import opened Orders

  datatype Json = JNull | JBool(flag: bool) | JNum(number: int) | JStr(text: string)

  datatype Field =
    | Id
    | Sha256
    | Expected
    | Actual
    | OriginalExpected
    | RelabelReason
    | RelabelSource
    | RelabelConfidence
    | Extra(name: string)

  type Sample = map<Field, Json>

  /** One override entry; `new_label` is read without a default, the rest with one. */
  datatype Override = Override(
    newLabel: Option<Json>,
    reason: Option<Json>,
    source: Option<Json>,
    confidence: Option<Json>)

  type Overrides = map<Json, Override>

  datatype Outcome<+T> = Done(value: T) | KeyError

  /** `dict.get` */
  function Get(s: Sample, f: Field): Json { if f in s then s[f] else JNull }

  function OrElse(value: Option<Json>, default: Json): Json {
    if value.Some? then value.value else default
  }

  predicate Truthy(v: Json) {
    match v
    case JNull => false
    case JBool(b) => b
    case JNum(n) => n != 0
    case JStr(t) => t != ""
  }

  function Sha(s: Sample): Json {
    if Truthy(Get(s, Id)) then Get(s, Id)
    else if Truthy(Get(s, Sha256)) then Get(s, Sha256)
    else JStr("")
  }

  // ---- One sample ----

  function Reverted(s: Sample): Sample
    requires OriginalExpected in s
  {
    s[Expected := s[OriginalExpected]] - {RelabelReason, RelabelSource, RelabelConfidence}
  }

  function Overridden(s: Sample, o: Override): Sample
    requires o.newLabel.Some?
  {
    (if OriginalExpected in s then s else s[OriginalExpected := Get(s, Expected)])
      [Expected := o.newLabel.value]
      [RelabelReason := OrElse(o.reason, JStr(""))]
      [RelabelSource := OrElse(o.source, JStr(""))]
      [RelabelConfidence := OrElse(o.confidence, JNull)]
  }

  function Relabel(s: Sample, overrides: Overrides): Outcome<Sample> {
    if Sha(s) in overrides then
      var o := overrides[Sha(s)];
      if o.newLabel.None? then KeyError else Done(Overridden(s, o))
    else if OriginalExpected in s then Done(Reverted(s))
    else Done(s)
  }

  // ---- The whole file ----

  datatype Report = Report(samples: seq<Sample>, applied: nat, reverted: nat)

  function CountApplied(samples: seq<Sample>, overrides: Overrides): nat {
    if samples == [] then 0
    else CountApplied(samples[..|samples| - 1], overrides) + (if Sha(samples[|samples| - 1]) in overrides then 1 else 0)
  }

  function CountReverted(samples: seq<Sample>, overrides: Overrides): nat {
    if samples == [] then 0
    else
      var s := samples[|samples| - 1];
      CountReverted(samples[..|samples| - 1], overrides)
      + (if OriginalExpected in s && Sha(s) !in overrides then 1 else 0)
  }

  method Regenerate(samples: seq<Sample>, overrides: Overrides) returns (r: Outcome<Report>)
    ensures r.KeyError? <==> exists s :: s in samples && Relabel(s, overrides).KeyError?
    ensures r.Done? ==> |r.value.samples| == |samples|
    ensures r.Done? ==> forall i :: 0 <= i < |samples| ==> Relabel(samples[i], overrides) == Done(r.value.samples[i])
    ensures r.Done? ==> r.value.applied == CountApplied(samples, overrides)
    ensures r.Done? ==> r.value.reverted == CountReverted(samples, overrides)
  {
    var relabeled, applied, reverted := [], 0, 0;
    for n := 0 to |samples|
      invariant |relabeled| == n
      invariant forall i :: 0 <= i < n ==> Relabel(samples[i], overrides) == Done(relabeled[i])
      invariant applied == CountApplied(samples[..n], overrides)
      invariant reverted == CountReverted(samples[..n], overrides)
    {
      assert samples[..n + 1][..n] == samples[..n];
      var s := samples[n];
      var updated, sha := s, Sha(s);
      if OriginalExpected in updated && sha !in overrides {
        updated := updated[Expected := updated[OriginalExpected]];
        updated := updated - {RelabelReason, RelabelSource, RelabelConfidence};
        reverted := reverted + 1;
      }
      if sha in overrides {
        var o := overrides[sha];
        if OriginalExpected !in updated {
          updated := updated[OriginalExpected := Get(s, Expected)];
        }
        if o.newLabel.None? {
          assert s in samples;
          return KeyError;
        }
        updated := updated[Expected := o.newLabel.value];
        updated := updated[RelabelReason := OrElse(o.reason, JStr(""))];
        updated := updated[RelabelSource := OrElse(o.source, JStr(""))];
        updated := updated[RelabelConfidence := OrElse(o.confidence, JNull)];
        applied := applied + 1;
      }
      relabeled := relabeled + [updated];
    }
    assert samples[..|samples|] == samples;
    return Done(Report(relabeled, applied, reverted));
  }

  // ---- One sample, field by field ----

  /** Empty values count as missing: null, false, zero, the empty text. */
  predicate Holds(s: Sample, f: Field) {
    f in s && s[f] != JNull && s[f] != JBool(false) && s[f] != JNum(0) && s[f] != JStr("")
  }

  /** A sample goes by its id, or by its hash if it has none, or by the empty text. */
  predicate GoesBy(s: Sample, key: Json) {
    if Holds(s, Id) then key == s[Id]
    else if Holds(s, Sha256) then key == s[Sha256]
    else key == JStr("")
  }

  /** Only these five fields may differ. */
  ghost predicate OthersKept(s: Sample, n: Sample) {
    forall f :: f !in {Expected, OriginalExpected, RelabelReason, RelabelSource, RelabelConfidence} ==>
      ((f in n <==> f in s) && (f in s ==> n[f] == s[f]))
  }

  /** An override under the sample's key sets the label and its three remarks, and records the first label. */
  lemma OverrideApplies(s: Sample, key: Json, overrides: Overrides)
    requires GoesBy(s, key) && key in overrides
    ensures overrides[key].newLabel.None? ==> Relabel(s, overrides).KeyError?
    ensures overrides[key].newLabel.Some? ==>
              && Relabel(s, overrides).Done?
              && var n, o := Relabel(s, overrides).value, overrides[key];
                 && OthersKept(s, n)
                 && {Expected, OriginalExpected, RelabelReason, RelabelSource, RelabelConfidence} <= n.Keys
                 && n[Expected] == o.newLabel.value
                 && n[RelabelReason] == (if o.reason.Some? then o.reason.value else JStr(""))
                 && n[RelabelSource] == (if o.source.Some? then o.source.value else JStr(""))
                 && n[RelabelConfidence] == (if o.confidence.Some? then o.confidence.value else JNull)
                 && n[OriginalExpected] == (if OriginalExpected in s then s[OriginalExpected]
                                            else if Expected in s then s[Expected] else JNull)
  {
    assert Sha(s) == key;
  }

  /** Without one, a recorded first label comes back and the remarks go; any other sample is left alone. */
  lemma NoOverrideReverts(s: Sample, key: Json, overrides: Overrides)
    requires GoesBy(s, key) && key !in overrides
    ensures Relabel(s, overrides).Done?
    ensures OriginalExpected !in s ==> Relabel(s, overrides).value == s
    ensures OriginalExpected in s ==>
              var n := Relabel(s, overrides).value;
              && OthersKept(s, n)
              && RelabelReason !in n && RelabelSource !in n && RelabelConfidence !in n
              && OriginalExpected in n && n[OriginalExpected] == s[OriginalExpected]
              && Expected in n && n[Expected] == s[OriginalExpected]
  {
    assert Sha(s) == key;
  }

  /** The places of the samples that pass a test. */
  ghost function Places(samples: seq<Sample>, ok: Sample -> bool): set<nat> {
    set i: nat | i < |samples| && ok(samples[i])
  }

  lemma PlacesStep(samples: seq<Sample>, ok: Sample -> bool)
    requires samples != []
    ensures var n := |samples| - 1;
            |Places(samples, ok)| == |Places(samples[..n], ok)| + if ok(samples[n]) then 1 else 0
  {
    var n := |samples| - 1;
    assert n !in Places(samples[..n], ok);
    assert Places(samples, ok) == Places(samples[..n], ok) + if ok(samples[n]) then {n} else {};
  }

  lemma {:induction false} AppliedIsPlaces(samples: seq<Sample>, overrides: Overrides, ok: Sample -> bool)
    requires forall s, key :: GoesBy(s, key) ==> (ok(s) <==> key in overrides)
    ensures CountApplied(samples, overrides) == |Places(samples, ok)|
  {
    if samples == [] {
      assert Places(samples, ok) == {};
    } else {
      var n := |samples| - 1;
      AppliedIsPlaces(samples[..n], overrides, ok);
      PlacesStep(samples, ok);
      assert GoesBy(samples[n], Sha(samples[n]));
    }
  }

  lemma {:induction false} RevertedIsPlaces(samples: seq<Sample>, overrides: Overrides, ok: Sample -> bool)
    requires forall s, key :: GoesBy(s, key) ==> (ok(s) <==> OriginalExpected in s && key !in overrides)
    ensures CountReverted(samples, overrides) == |Places(samples, ok)|
  {
    if samples == [] {
      assert Places(samples, ok) == {};
    } else {
      var n := |samples| - 1;
      RevertedIsPlaces(samples[..n], overrides, ok);
      PlacesStep(samples, ok);
      assert GoesBy(samples[n], Sha(samples[n]));
    }
  }

  // ---- Independence of history ----

  /** The label the sample had before any override touched it. */
  function Origin(s: Sample): Json {
    if OriginalExpected in s then s[OriginalExpected] else Get(s, Expected)
  }

  function LabelUnder(origin: Json, sha: Json, overrides: Overrides): Outcome<Json> {
    if sha !in overrides then Done(origin)
    else if overrides[sha].newLabel.None? then KeyError
    else Done(overrides[sha].newLabel.value)
  }

  lemma RelabelOne(s: Sample, overrides: Overrides)
    requires Relabel(s, overrides).Done?
    ensures var n := Relabel(s, overrides).value;
            Sha(n) == Sha(s) && Origin(n) == Origin(s)
            && LabelUnder(Origin(s), Sha(s), overrides) == Done(Get(n, Expected))
  {
  }

  function RunAll(s: Sample, runs: seq<Overrides>): Outcome<Sample> {
    if runs == [] then Done(s)
    else
      match RunAll(s, runs[..|runs| - 1])
      case KeyError => KeyError
      case Done(n) => Relabel(n, runs[|runs| - 1])
  }

  /** After any sequence of override sets the label depends on the original label and the last set only. */
  lemma {:induction false} LabelIgnoresHistory(s: Sample, runs: seq<Overrides>)
    requires RunAll(s, runs).Done?
    ensures var n := RunAll(s, runs).value;
            Sha(n) == Sha(s) && Origin(n) == Origin(s)
            && (runs != [] ==> LabelUnder(Origin(s), Sha(s), runs[|runs| - 1]) == Done(Get(n, Expected)))
  {
    if runs != [] {
      LabelIgnoresHistory(s, runs[..|runs| - 1]);
      RelabelOne(RunAll(s, runs[..|runs| - 1]).value, runs[|runs| - 1]);
    }
  }

  /** Running the same override set again changes nothing at all in a sample. */
  lemma RerunIsFixpoint(s: Sample, overrides: Overrides)
    requires Relabel(s, overrides).Done?
    ensures Relabel(Relabel(s, overrides).value, overrides) == Relabel(s, overrides)
  {
    var n := Relabel(s, overrides).value;
    RelabelOne(s, overrides);
    if Sha(s) in overrides {
      assert Overridden(n, overrides[Sha(s)]) == n;
    } else if OriginalExpected in s {
      assert Reverted(n) == n;
    }
  }

  /** As a whole dictionary the sample forgets the earlier set, except that a first relabelling that is
      later withdrawn leaves the recorded original label behind. */
  lemma SampleIgnoresHistoryIff(s: Sample, first: Overrides, second: Overrides)
    requires Relabel(s, first).Done?
    ensures Relabel(Relabel(s, first).value, second) == Relabel(s, second)
       <==> !(OriginalExpected !in s && Sha(s) in first && Sha(s) !in second)
  {
    var n := Relabel(s, first).value;
    RelabelOne(s, first);
    if Sha(s) in second {
      if second[Sha(s)].newLabel.Some? {
        OverriddenForgets(s, first, second[Sha(s)]);
      }
    } else if Sha(s) in first {
      if OriginalExpected in s {
        assert Reverted(n) == Reverted(s);
      } else {
        assert OriginalExpected in Reverted(n);
      }
    } else {
      RerunIsFixpoint(s, second);
    }
  }

  /** One sample, relabelled once and withdrawn: its label is back, but not the sample. */
  lemma WithdrawnOverrideLeavesTrace()
    ensures var s := map[Id := JStr("a"), Expected := JStr("malicious")];
            var first := map[JStr("a") := Override(Some(JStr("benign")), None, None, None)];
            Relabel(s, first).Done? && Relabel(s, map[]) == Done(s)
            && Relabel(Relabel(s, first).value, map[]) == Done(s[OriginalExpected := JStr("malicious")])
  {
    var s: Sample := map[Id := JStr("a"), Expected := JStr("malicious")];
    var first: Overrides := map[JStr("a") := Override(Some(JStr("benign")), None, None, None)];
    var n := Relabel(s, first).value;
    assert Sha(s) == JStr("a") && Sha(n) == JStr("a");
    assert Reverted(n) == s[OriginalExpected := JStr("malicious")];
  }

  lemma OverriddenForgets(s: Sample, first: Overrides, o: Override)
    requires Relabel(s, first).Done? && o.newLabel.Some?
    ensures Overridden(Relabel(s, first).value, o) == Overridden(s, o)
  {
    RelabelOne(s, first);
  }

  // ---- Metrics ----

  datatype Cell = TruePositive | FalseNegative | FalsePositive | TrueNegative

  predicate IsPositive(v: Json) { v == JStr("malicious") || v == JStr("suspicious") }

  predicate IsCell(s: Sample, c: Cell) {
    match c
    case TruePositive => Get(s, Expected) == JStr("malicious") && IsPositive(Get(s, Actual))
    case FalseNegative => Get(s, Expected) == JStr("malicious") && Get(s, Actual) == JStr("benign")
    case FalsePositive => Get(s, Expected) == JStr("benign") && IsPositive(Get(s, Actual))
    case TrueNegative => Get(s, Expected) == JStr("benign") && Get(s, Actual) == JStr("benign")
  }

  function Count(samples: seq<Sample>, c: Cell): nat {
    if samples == [] then 0
    else Count(samples[..|samples| - 1], c) + (if IsCell(samples[|samples| - 1], c) then 1 else 0)
  }

  function Total(samples: seq<Sample>): nat {
    Count(samples, TruePositive) + Count(samples, FalseNegative)
    + Count(samples, FalsePositive) + Count(samples, TrueNegative)
  }

  /** A ratio with the value the script reports for an empty denominator. */
  function Ratio(part: nat, whole: nat, whenEmpty: real): real {
    if whole == 0 then whenEmpty else part as real / whole as real
  }

  function Precision(samples: seq<Sample>): real {
    Ratio(Count(samples, TruePositive), Count(samples, TruePositive) + Count(samples, FalsePositive), 1.0)
  }

  function Recall(samples: seq<Sample>): real {
    Ratio(Count(samples, TruePositive), Count(samples, TruePositive) + Count(samples, FalseNegative), 1.0)
  }

  function Accuracy(samples: seq<Sample>): real {
    Ratio(Count(samples, TruePositive) + Count(samples, TrueNegative), Total(samples), 1.0)
  }

  function FalsePositiveRate(samples: seq<Sample>): real {
    Ratio(Count(samples, FalsePositive), Count(samples, FalsePositive) + Count(samples, TrueNegative), 0.0)
  }

  predicate Labelled(s: Sample, expected: string) { Expected in s && s[Expected] == JStr(expected) }

  predicate Flagged(s: Sample) { Actual in s && (s[Actual] == JStr("malicious") || s[Actual] == JStr("suspicious")) }

  predicate Cleared(s: Sample) { Actual in s && s[Actual] == JStr("benign") }

  lemma {:induction false} CountIsPlaces(samples: seq<Sample>, c: Cell, ok: Sample -> bool)
    requires forall s :: ok(s) <==> IsCell(s, c)
    ensures Count(samples, c) == |Places(samples, ok)|
  {
    hide IsCell;
    if samples == [] {
      assert Places(samples, ok) == {};
    } else {
      CountIsPlaces(samples[..|samples| - 1], c, ok);
      PlacesStep(samples, ok);
    }
  }

  /** How many samples are caught, missed, wrongly flagged and rightly cleared. */
  datatype Tally = Tally(caught: nat, missed: nat, accused: nat, cleared: nat)

  ghost function TallyOf(samples: seq<Sample>): Tally {
    Tally(|Places(samples, (s: Sample) => Labelled(s, "malicious") && Flagged(s))|,
          |Places(samples, (s: Sample) => Labelled(s, "malicious") && Cleared(s))|,
          |Places(samples, (s: Sample) => Labelled(s, "benign") && Flagged(s))|,
          |Places(samples, (s: Sample) => Labelled(s, "benign") && Cleared(s))|)
  }

  lemma TallyIsCounts(samples: seq<Sample>)
    ensures TallyOf(samples) == Tally(Count(samples, TruePositive), Count(samples, FalseNegative),
                                      Count(samples, FalsePositive), Count(samples, TrueNegative))
  {
    CountIsPlaces(samples, TruePositive, (s: Sample) => Labelled(s, "malicious") && Flagged(s));
    CountIsPlaces(samples, FalseNegative, (s: Sample) => Labelled(s, "malicious") && Cleared(s));
    CountIsPlaces(samples, FalsePositive, (s: Sample) => Labelled(s, "benign") && Flagged(s));
    CountIsPlaces(samples, TrueNegative, (s: Sample) => Labelled(s, "benign") && Cleared(s));
  }

  /** `r` is the ratio, or the given value if there is nothing to divide by. */
  predicate IsRatio(r: real, part: nat, whole: nat, whenEmpty: real) {
    if whole == 0 then r == whenEmpty else r * whole as real == part as real
  }

  lemma RatioOf(part: nat, whole: nat, whenEmpty: real)
    ensures IsRatio(Ratio(part, whole, whenEmpty), part, whole, whenEmpty)
  {
  }

  /** The four ratios: caught among flagged, caught among malicious, flagged among benign, and right
      among scored. Nothing to divide by counts as 1, for the third as 0. */
  lemma MetricsByCount(samples: seq<Sample>)
    ensures var t := TallyOf(samples);
            && IsRatio(Precision(samples), t.caught, t.caught + t.accused, 1.0)
            && IsRatio(Recall(samples), t.caught, t.caught + t.missed, 1.0)
            && IsRatio(FalsePositiveRate(samples), t.accused, t.accused + t.cleared, 0.0)
            && IsRatio(Accuracy(samples), t.caught + t.cleared, t.caught + t.missed + t.accused + t.cleared, 1.0)
  {
    hide Ratio, Count, TallyOf, IsRatio;
    TallyIsCounts(samples);
    var t := TallyOf(samples);
    RatioOf(t.caught, t.caught + t.accused, 1.0);
    RatioOf(t.caught, t.caught + t.missed, 1.0);
    RatioOf(t.accused, t.accused + t.cleared, 0.0);
    RatioOf(t.caught + t.cleared, t.caught + t.missed + t.accused + t.cleared, 1.0);
  }

  predicate Binary(v: Json) { v == JStr("malicious") || v == JStr("benign") }

  predicate Recognised(v: Json) { IsPositive(v) || v == JStr("benign") }

  function CountScored(samples: seq<Sample>): nat {
    if samples == [] then 0
    else
      var s := samples[|samples| - 1];
      CountScored(samples[..|samples| - 1]) + (if Binary(Get(s, Expected)) && Recognised(Get(s, Actual)) then 1 else 0)
  }

  /** The four cells partition the samples with a malicious or benign label and a recognised verdict. */
  lemma {:induction false} CellsPartitionScored(samples: seq<Sample>)
    ensures Total(samples) == CountScored(samples)
  {
    if samples != [] {
      CellsPartitionScored(samples[..|samples| - 1]);
    }
  }

  /** The same samples with labels exchanged only among malicious and benign. */
  ghost predicate Flipped(a: seq<Sample>, b: seq<Sample>) {
    |a| == |b| && forall i :: 0 <= i < |a| ==>
      Get(a[i], Actual) == Get(b[i], Actual) && (Binary(Get(a[i], Expected)) <==> Binary(Get(b[i], Expected)))
  }

  lemma {:induction false} ScoredSurvivesFlips(a: seq<Sample>, b: seq<Sample>)
    requires Flipped(a, b)
    ensures CountScored(a) == CountScored(b)
  {
    if a != [] {
      ScoredSurvivesFlips(a[..|a| - 1], b[..|b| - 1]);
    }
  }

  /** Malicious/benign flips move samples between cells but conserve their number. */
  lemma FlipsConserveTotal(a: seq<Sample>, b: seq<Sample>)
    requires Flipped(a, b)
    ensures Total(a) == Total(b)
  {
    CellsPartitionScored(a);
    CellsPartitionScored(b);
    ScoredSurvivesFlips(a, b);
  }

  /** Some false negatives of `a` are relabelled benign in `b`; everything else is untouched. */
  ghost predicate MissesForgiven(a: seq<Sample>, b: seq<Sample>) {
    |a| == |b| && forall i :: 0 <= i < |a| ==>
      Get(a[i], Actual) == Get(b[i], Actual)
      && (Get(a[i], Expected) == Get(b[i], Expected)
          || (IsCell(a[i], FalseNegative) && Get(b[i], Expected) == JStr("benign")))
  }

  lemma {:induction false} MissesForgivenCounts(a: seq<Sample>, b: seq<Sample>)
    requires MissesForgiven(a, b)
    ensures Count(b, TruePositive) == Count(a, TruePositive) && Count(b, FalsePositive) == Count(a, FalsePositive)
    ensures Count(b, FalseNegative) <= Count(a, FalseNegative)
    ensures Count(b, FalseNegative) + Count(b, TrueNegative) == Count(a, FalseNegative) + Count(a, TrueNegative)
  {
    if a != [] {
      MissesForgivenCounts(a[..|a| - 1], b[..|b| - 1]);
    }
  }

  lemma Product(x: real, y: real)
    requires x >= 0.0 && y >= 0.0
    ensures x * y >= 0.0
    ensures x > 0.0 && y > 0.0 ==> x * y > 0.0
  {
  }

  lemma RatioShrinks(part: nat, small: nat, large: nat)
    requires part <= small <= large
    ensures Ratio(part, small, 1.0) >= Ratio(part, large, 1.0)
  {
    if small > 0 {
      var p, s, l := part as real, small as real, large as real;
      var x, y := p / s, p / l;
      assert x * s == p && y * l == p;
      Product(x, l - s);
      if x < y { Product(y - x, l); }
    } else if large > 0 {
      assert Ratio(part, large, 1.0) == 0.0;
    }
  }

  lemma RatioGrows(small: nat, large: nat, whole: nat)
    requires small <= large
    ensures Ratio(small, whole, 1.0) <= Ratio(large, whole, 1.0)
  {
    if whole > 0 {
      var x, y, w := Ratio(small, whole, 1.0), Ratio(large, whole, 1.0), whole as real;
      assert x * w == small as real && y * w == large as real;
      if y < x { Product(x - y, w); }
    }
  }

  /** Relabelling misses as benign keeps precision and never lowers recall or accuracy. */
  lemma ForgivingMissesIsMonotone(a: seq<Sample>, b: seq<Sample>)
    requires MissesForgiven(a, b)
    ensures Precision(b) == Precision(a)
    ensures Recall(b) >= Recall(a)
    ensures Accuracy(b) >= Accuracy(a)
  {
    MissesForgivenCounts(a, b);
    RatioShrinks(Count(a, TruePositive), Count(a, TruePositive) + Count(b, FalseNegative),
                 Count(a, TruePositive) + Count(a, FalseNegative));
    RatioGrows(Count(a, TruePositive) + Count(a, TrueNegative), Count(a, TruePositive) + Count(b, TrueNegative),
               Total(a));
  }
}
