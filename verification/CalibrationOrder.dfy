/** Calibration does not depend on the order in which findings or groups are supplied. */
module CalibrationOrder {
  import opened Orders
  import opened RootCauses
  import opened VerdictCalibration
  import opened CalibrationProperties

  /** The same rules and gates over the same findings in any order. */
  ghost predicate SamePass(p: Pass, q: Pass) {
    && p.Valid()
    && p.rules == q.rules
    && p.gates == q.gates
    && multiset(p.findings) == multiset(q.findings)
  }

  lemma SameFires(p: Pass, q: Pass, key: GroupKey, k: nat)
    requires SamePass(p, q) && k < |p.rules|
    ensures Fires(p, key, k) <==> Fires(q, key, k)
  {
    SameMembers(p.findings, q.findings);
  }

  lemma {:induction false} SameExcluded(p: Pass, q: Pass, key: GroupKey, n: nat)
    requires SamePass(p, q) && n <= |p.rules|
    ensures Excluded(p, key, n) == Excluded(q, key, n)
  {
    if n > 0 {
      SameExcluded(p, q, key, n - 1);
      SameFires(p, q, key, n - 1);
    }
  }

  lemma SameAnyFired(p: Pass, q: Pass, key: GroupKey, n: nat)
    requires SamePass(p, q) && n <= |p.rules|
    ensures AnyFired(p, key, n) <==> AnyFired(q, key, n)
  {
    forall k: nat | k < n ensures Fires(p, key, k) <==> Fires(q, key, k) {
      SameFires(p, q, key, k);
    }
  }

  lemma SameReduced(p: Pass, q: Pass, g: RootCauseGroup, n: nat)
    requires SamePass(p, q) && n <= |p.rules|
    ensures Reduced(p, g, n) == Reduced(q, g, n)
  {
    SameAnyFired(p, q, g.Key(), n);
    SameExcluded(p, q, g.Key(), n);
    RecomputedPermutation(p.findings, q.findings, g.Key(), Excluded(p, g.Key(), n));
  }

  lemma SameLowers(p: Pass, q: Pass, g: RootCauseGroup, k: nat)
    requires SamePass(p, q) && k < |p.rules|
    ensures Lowers(p, g, k) <==> Lowers(q, g, k)
    ensures Reclassifies(p, g, k) <==> Reclassifies(q, g, k)
  {
    SameFires(p, q, g.Key(), k);
    SameReduced(p, q, g, k);
    SameReduced(p, q, g, k + 1);
  }

  lemma SameClass(p: Pass, q: Pass, g: RootCauseGroup, n: nat)
    requires SamePass(p, q) && n <= |p.rules|
    ensures ClassAfter(p, g, n) == ClassAfter(q, g, n)
  {
    forall k: nat | k < n ensures Reclassifies(p, g, k) <==> Reclassifies(q, g, k) {
      SameLowers(p, q, g, k);
    }
  }

  /** What happens to one group is untouched by the order of the findings. */
  lemma SameGroupAfter(p: Pass, q: Pass, g: RootCauseGroup)
    requires SamePass(p, q)
    ensures GroupAfter(p, g, |p.rules|) == GroupAfter(q, g, |p.rules|)
  {
    SameReduced(p, q, g, |p.rules|);
    SameClass(p, q, g, |p.rules|);
  }

  lemma SameNoteAt(p: Pass, q: Pass, g: RootCauseGroup, k: nat)
    requires SamePass(p, q) && k < |p.rules|
    ensures NoteAt(p, g, k) == NoteAt(q, g, k)
  {
    SameFires(p, q, g.Key(), k);
    SameLowers(p, q, g, k);
    SameClass(p, q, g, k + 1);
  }

  lemma SameNotes(p: Pass, q: Pass, gs: seq<RootCauseGroup>, hs: seq<RootCauseGroup>, note: Note)
    requires SamePass(p, q) && multiset(gs) == multiset(hs)
    ensures note in AllNotes(p, gs) <==> note in AllNotes(q, hs)
  {
    SameMembers(gs, hs);
    AllNotesMembers(p, gs, note);
    AllNotesMembers(q, hs, note);
    forall g ensures note in NotesOf(p, g, |p.rules|) <==> note in NotesOf(q, g, |q.rules|) {
      NotesOfMembers(p, g, |p.rules|, note);
      NotesOfMembers(q, g, |q.rules|, note);
      forall k: nat | k < |p.rules| ensures NoteAt(p, g, k) == NoteAt(q, g, k) {
        SameNoteAt(p, q, g, k);
      }
    }
  }

  lemma SameLowersSome(p: Pass, q: Pass, gs: seq<RootCauseGroup>, hs: seq<RootCauseGroup>, k: nat)
    requires SamePass(p, q) && multiset(gs) == multiset(hs) && k < |p.rules|
    ensures LowersSome(p, gs, k) <==> LowersSome(q, hs, k)
  {
    SameMembers(gs, hs);
    forall g ensures Lowers(p, g, k) <==> Lowers(q, g, k) {
      SameLowers(p, q, g, k);
    }
  }

  lemma {:induction false} SameRisk(p: Pass, q: Pass, gs: seq<RootCauseGroup>, hs: seq<RootCauseGroup>, n: nat)
    requires SamePass(p, q) && multiset(gs) == multiset(hs) && n <= |p.rules|
    ensures RiskAdjustment(p, gs, n) == RiskAdjustment(q, hs, n)
  {
    if n > 0 {
      SameRisk(p, q, gs, hs, n - 1);
      SameLowersSome(p, q, gs, hs, n - 1);
    }
  }

  // ---- Permuting groups only permutes the survivors ----

  function Mapped<T, U>(f: T -> U, s: seq<T>): seq<U> {
    seq(|s|, i requires 0 <= i < |s| => f(s[i]))
  }

  lemma {:induction false} MappedPermutation<T, U>(f: T -> U, a: seq<T>, b: seq<T>)
    requires multiset(a) == multiset(b)
    ensures multiset(Mapped(f, a)) == multiset(Mapped(f, b))
  {
    if a == [] {
      SameMembers(a, b);
    } else {
      var i := TakeOut(a, b);
      var rest := b[..i] + b[i + 1..];
      assert b == b[..i] + [b[i]] + b[i + 1..];
      MappedPermutation(f, a[1..], rest);
      assert Mapped(f, a) == [f(a[0])] + Mapped(f, a[1..]);
      assert Mapped(f, b) == Mapped(f, b[..i]) + [f(b[i])] + Mapped(f, b[i + 1..]);
      assert Mapped(f, rest) == Mapped(f, b[..i]) + Mapped(f, b[i + 1..]);
    }
  }

  lemma {:induction false} SurvivingMultiset(groups: seq<RootCauseGroup>, g: RootCauseGroup)
    ensures multiset(Surviving(groups))[g] == if g.findingCount > 0 then multiset(groups)[g] else 0
  {
    if groups != [] {
      var init, last := groups[..|groups| - 1], groups[|groups| - 1];
      assert groups == init + [last];
      SurvivingMultiset(init, g);
    }
  }

  lemma SameSurvivors(p: Pass, q: Pass, gs: seq<RootCauseGroup>, hs: seq<RootCauseGroup>)
    requires SamePass(p, q) && multiset(gs) == multiset(hs)
    ensures multiset(Surviving(CalibratedGroups(p, gs))) == multiset(Surviving(CalibratedGroups(q, hs)))
  {
    var f := (g: RootCauseGroup) => if p.Valid() then GroupAfter(p, g, |p.rules|) else g;
    forall g ensures GroupAfter(q, g, |q.rules|) == f(g) {
      SameGroupAfter(p, q, g);
    }
    var a, b := CalibratedGroups(p, gs), CalibratedGroups(q, hs);
    assert a == Mapped(f, gs) && b == Mapped(f, hs);
    MappedPermutation(f, gs, hs);
    forall g ensures multiset(Surviving(a))[g] == multiset(Surviving(b))[g] {
      SurvivingMultiset(a, g);
      SurvivingMultiset(b, g);
    }
  }

  /** Permuting the findings, the groups or both leaves risk and notes identical and permutes survivors. */
  lemma CalibrationOrderIndependent(p: Pass, q: Pass, gs: seq<RootCauseGroup>, hs: seq<RootCauseGroup>)
    requires SamePass(p, q) && multiset(gs) == multiset(hs)
    ensures Calibration(p, gs).riskAdjustment == Calibration(q, hs).riskAdjustment
    ensures Calibration(p, gs).notes == Calibration(q, hs).notes
    ensures multiset(Calibration(p, gs).rootCauseGroups) == multiset(Calibration(q, hs).rootCauseGroups)
  {
    SameRisk(p, q, gs, hs, |p.rules|);
    CompareNoteTotal();
    forall note ensures note in AllNotes(p, gs) <==> note in AllNotes(q, hs) {
      SameNotes(p, q, gs, hs, note);
    }
    CanonicalDependsOnMembers(CompareNote, AllNotes(p, gs), AllNotes(q, hs));
    SameSurvivors(p, q, gs, hs);
  }

  /** For a fixed list of groups not even the order of the survivors can change. */
  lemma CalibrationIgnoresFindingOrder(p: Pass, q: Pass, groups: seq<RootCauseGroup>)
    requires SamePass(p, q)
    ensures Calibration(p, groups) == Calibration(q, groups)
  {
    CalibrationOrderIndependent(p, q, groups, groups);
    forall g ensures GroupAfter(p, g, |p.rules|) == GroupAfter(q, g, |q.rules|) {
      SameGroupAfter(p, q, g);
    }
    assert CalibratedGroups(p, groups) == CalibratedGroups(q, groups);
  }
}
