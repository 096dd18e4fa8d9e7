/** Lexical containment (path_safety.rs): an integer counter that stands for a stack of names. */
module PathSafety {
  import opened Orders
  import opened LexicalPaths

  /** `strip_prefix`, falling back to the whole candidate. */
  function Suffix(candidate: Path, base: Path): Path {
    if base <= candidate then candidate[|base|..] else candidate
  }

  /** Names entered minus levels left. */
  function Balance(steps: Path): int {
    if steps == [] then 0
    else
      Balance(steps[..|steps| - 1])
      + (match steps[|steps| - 1] case Normal(_) => 1 case ParentDir => -1 case _ => 0)
  }

  ghost predicate NeverNegative(steps: Path) {
    forall n :: 0 <= n <= |steps| ==> Balance(steps[..n]) >= 0
  }

  /** What the loop decides: no root inside the suffix and no prefix of it below its start. */
  ghost predicate StaysWithin(candidate: Path, base: Path) {
    Relative(Suffix(candidate, base)) && NeverNegative(Suffix(candidate, base))
  }

  lemma StepBalance(steps: Path, i: nat)
    requires i < |steps|
    ensures Balance(steps[..i + 1])
         == Balance(steps[..i]) + match steps[i] case Normal(_) => 1 case ParentDir => -1 case _ => 0
    ensures Relative(steps[..i + 1]) <==> Relative(steps[..i]) && !IsRootPart(steps[i])
    ensures Relative(steps) ==> !IsRootPart(steps[i])
  {
    assert steps[..i + 1] == steps[..i] + [steps[i]];
    assert steps[..i + 1][..i] == steps[..i];
  }

  method PathStaysWithinBase(candidate: Path, base: Path) returns (stays: bool)
    ensures stays <==> StaysWithin(candidate, base)
  {
    var suffix := if base <= candidate then candidate[|base|..] else candidate;
    var depth := 0;
    for i := 0 to |suffix|
      invariant Relative(suffix[..i]) && depth == Balance(suffix[..i])
      invariant forall n :: 0 <= n <= i ==> Balance(suffix[..n]) >= 0
    {
      StepBalance(suffix, i);
      match suffix[i]
      case ParentDir =>
        depth := depth - 1;
        if depth < 0 {
          return false;
        }
      case Normal(_) => depth := depth + 1;
      case CurDir =>
      case _ => return false;
    }
    assert suffix[..|suffix|] == suffix;
    return true;
  }

  // ---- The counter is the stack height above the base ----

  ghost predicate KeepsBase(dir: seq<string>, steps: Path) {
    forall n :: 0 <= n <= |steps| ==> dir <= Walk(dir, steps[..n])
  }

  lemma PrefixesOfPrefix(steps: Path, m: nat)
    requires m <= |steps|
    ensures forall n :: 0 <= n <= m ==> steps[..m][..n] == steps[..n]
  {
  }

  /** As long as the counter has not gone negative, the walk is the base plus that many names. */
  lemma {:induction false} CounterIsHeight(dir: seq<string>, steps: Path)
    requires Relative(steps) && NeverNegative(steps)
    ensures dir <= Walk(dir, steps) && |Walk(dir, steps)| == |dir| + Balance(steps)
  {
    if steps != [] {
      var m := |steps| - 1;
      PrefixesOfPrefix(steps, m);
      assert steps[..|steps|] == steps;
      CounterIsHeight(dir, steps[..m]);
      assert Balance(steps) >= 0;
    }
  }

  lemma NonNegativeKeepsBase(dir: seq<string>, steps: Path)
    requires Relative(steps) && NeverNegative(steps)
    ensures KeepsBase(dir, steps)
  {
    forall n | 0 <= n <= |steps| ensures dir <= Walk(dir, steps[..n]) {
      PrefixesOfPrefix(steps, n);
      CounterIsHeight(dir, steps[..n]);
    }
  }

  /** Below a base with at least one name, the first negative count is the first loss of the base. */
  lemma {:induction false} KeepingBaseIsNonNegative(dir: seq<string>, steps: Path)
    requires Relative(steps) && dir != [] && KeepsBase(dir, steps)
    ensures NeverNegative(steps)
  {
    if steps != [] {
      var m := |steps| - 1;
      PrefixesOfPrefix(steps, m);
      assert steps[..|steps|] == steps;
      KeepingBaseIsNonNegative(dir, steps[..m]);
      CounterIsHeight(dir, steps[..m]);
      assert dir <= Walk(dir, steps);
      forall n | 0 <= n <= |steps| ensures Balance(steps[..n]) >= 0 {
        if n < |steps| { assert steps[..n] == steps[..m][..n]; }
      }
    }
  }

  // ---- Against path normalisation ----

  lemma SuffixOfJoin(base: Path, steps: Path)
    ensures Suffix(base + steps, base) == steps
  {
  }

  lemma NormalizeJoin(root: Path, below: Path, steps: Path)
    requires IsRoot(root) && Relative(below) && Relative(steps)
    ensures Normalize(root + below + steps) == root + Names(Walk(Walk([], below), steps))
  {
    assert root + below + steps == root + (below + steps);
    NormalizeAbsolute(root, below + steps);
    WalkAppend([], below, steps);
  }

  lemma NamesPrefix(root: Path, a: seq<string>, b: seq<string>)
    ensures root + Names(a) <= root + Names(b) <==> a <= b
  {
    if root + Names(a) <= root + Names(b) {
      forall i | 0 <= i < |a| ensures i < |b| && a[i] == b[i] {
        assert (root + Names(a))[|root| + i] == (root + Names(b))[|root| + i];
      }
    }
  }

  /** Normalising every prefix of the join keeps the normalised base in front. */
  ghost predicate ContainedThroughout(base: Path, steps: Path) {
    forall n :: 0 <= n <= |steps| ==> Normalize(base) <= Normalize(base + steps[..n])
  }

  lemma ContainedIsKept(root: Path, below: Path, steps: Path)
    requires IsRoot(root) && Relative(below) && Relative(steps)
    ensures ContainedThroughout(root + below, steps) <==> KeepsBase(Walk([], below), steps)
  {
    NormalizeAbsolute(root, below);
    forall n | 0 <= n <= |steps|
      ensures Normalize(root + below) <= Normalize(root + below + steps[..n])
         <==> Walk([], below) <= Walk(Walk([], below), steps[..n])
    {
      NormalizeJoin(root, below, steps[..n]);
      NamesPrefix(root, Walk([], below), Walk(Walk([], below), steps[..n]));
    }
  }

  /** The check accepts a join exactly when no prefix of it leaves the base, if the base is not the root. */
  lemma StaysWithinIffContained(root: Path, below: Path, steps: Path)
    requires IsRoot(root) && Relative(below) && Relative(steps) && Walk([], below) != []
    ensures StaysWithin(root + below + steps, root + below) <==> ContainedThroughout(root + below, steps)
  {
    SuffixOfJoin(root + below, steps);
    ContainedIsKept(root, below, steps);
    if NeverNegative(steps) {
      NonNegativeKeepsBase(Walk([], below), steps);
    }
    if KeepsBase(Walk([], below), steps) {
      KeepingBaseIsNonNegative(Walk([], below), steps);
    }
  }

  lemma AcceptedJoin(root: Path, below: Path, steps: Path)
    requires IsRoot(root) && Relative(below) && Relative(steps) && NeverNegative(steps)
    ensures Normalize(root + below) <= Normalize(root + below + steps)
  {
    NonNegativeKeepsBase(Walk([], below), steps);
    ContainedIsKept(root, below, steps);
    assert steps[..|steps|] == steps;
  }

  /** An absolute candidate that does not start with the base is always refused. */
  lemma OutsideIsRefused(candidate: Path, base: Path)
    requires Absolute(candidate) && !(base <= candidate)
    ensures !StaysWithin(candidate, base)
  {
    var m :| 0 <= m <= |candidate| && IsRoot(candidate[..m]) && Relative(candidate[m..]);
    assert IsRootPart(candidate[..m][0]) && candidate[0] in candidate;
  }

  lemma RootAndBelow(path: Path) returns (root: Path, below: Path)
    requires Absolute(path)
    ensures IsRoot(root) && Relative(below) && path == root + below
  {
    var n :| 0 <= n <= |path| && IsRoot(path[..n]) && Relative(path[n..]);
    root, below := path[..n], path[n..];
  }

  lemma SuffixRejoins(candidate: Path, base: Path)
    requires base <= candidate
    ensures base + candidate[|base|..] == candidate
  {
  }

  // ---- Any shape of base and candidate ----

  /** The directory a base stands for: its normal form from the working directory. */
  ghost predicate IsRootDirectory(cwd: Path, base: Path) { IsRoot(AbsoluteLexical(cwd, base)) }

  /** Only the suffix counts, so a join decides for every candidate with the same suffix. */
  lemma JudgedAsJoin(candidate: Path, base: Path, full: Path)
    ensures StaysWithin(candidate, base) <==> StaysWithin(full + Suffix(candidate, base), full)
  {
    SuffixOfJoin(full, Suffix(candidate, base));
  }

  lemma BelowItsRoot(root: Path, below: Path)
    requires IsRoot(root) && Relative(below) && !IsRoot(Normalize(root + below))
    ensures Walk([], below) != []
  {
    NormalizeAbsolute(root, below);
    assert root + Names([]) == root;
  }

  /** For absolute and relative arguments alike, below any base but the root: accepted exactly when
      the suffix names no root and no prefix of it, followed from the base, leaves the base. */
  lemma StaysWithinMeaning(cwd: Path, candidate: Path, base: Path)
    requires Absolute(cwd) && (Absolute(base) || Relative(base)) && !IsRootDirectory(cwd, base)
    ensures StaysWithin(candidate, base)
       <==> (Relative(Suffix(candidate, base)) && ContainedThroughout(Anchored(cwd, base), Suffix(candidate, base)))
  {
    var full, steps := Anchored(cwd, base), Suffix(candidate, base);
    if Relative(steps) {
      AnchoredIsAbsolute(cwd, base);
      var root, below := RootAndBelow(full);
      BelowItsRoot(root, below);
      JudgedAsJoin(candidate, base, full);
      StaysWithinIffContained(root, below, steps);
    }
  }

  /** Acceptance puts the place the suffix leads to under the base, whatever the base. */
  lemma AcceptedStaysBelow(cwd: Path, candidate: Path, base: Path)
    requires Absolute(cwd) && (Absolute(base) || Relative(base)) && StaysWithin(candidate, base)
    ensures AbsoluteLexical(cwd, base) <= Normalize(Anchored(cwd, base) + Suffix(candidate, base))
    ensures base <= candidate ==> AbsoluteLexical(cwd, base) <= AbsoluteLexical(cwd, candidate)
    ensures !(base <= candidate) ==> Relative(candidate) && StaysWithin(base + candidate, base)
  {
    AnchoredIsAbsolute(cwd, base);
    var root, below := RootAndBelow(Anchored(cwd, base));
    AcceptedJoin(root, below, Suffix(candidate, base));
    if base <= candidate {
      AnchoredPrefix(cwd, candidate, base);
    } else {
      SuffixOfJoin(base, candidate);
    }
  }

  lemma AnchoredPrefix(cwd: Path, candidate: Path, base: Path)
    requires base <= candidate && Relative(candidate[|base|..])
    ensures Anchored(cwd, base) + candidate[|base|..] == Anchored(cwd, candidate)
  {
    SuffixRejoins(candidate, base);
    if base == [] {
      assert candidate[0..] == candidate;
      assert candidate != [] ==> candidate[0] in candidate;
      assert cwd + base == cwd;
    } else {
      assert candidate[0] == base[0];
      Associative(cwd, base, candidate[|base|..]);
    }
  }

  // ---- Where an accepted candidate itself lies ----

  /** Steps that never climb above their start lead to the same place below any directory. */
  lemma {:induction false} WalkFrom(dir: seq<string>, steps: Path)
    requires Relative(steps) && NeverNegative(steps)
    ensures Walk(dir, steps) == dir + Walk([], steps)
  {
    if steps == [] {
      assert dir + [] == dir;
    } else {
      var m := |steps| - 1;
      PrefixesOfPrefix(steps, m);
      WalkFrom(dir, steps[..m]);
      CounterIsHeight([], steps[..m]);
      assert steps[..|steps|] == steps && Balance(steps) >= 0;
    }
  }

  lemma BalanceJoin(a: Path, b: Path)
    ensures Balance(a + b) == Balance(a) + Balance(b)
  {
    if b == [] {
      assert a + b == a;
    } else {
      BalanceJoin(a, b[..|b| - 1]);
      assert (a + b)[..|a + b| - 1] == a + b[..|b| - 1];
    }
  }

  lemma NonNegativeJoin(a: Path, b: Path)
    requires NeverNegative(a) && NeverNegative(b)
    ensures NeverNegative(a + b)
  {
    forall n | 0 <= n <= |a + b| ensures Balance((a + b)[..n]) >= 0 {
      if n <= |a| {
        assert (a + b)[..n] == a[..n];
      } else {
        assert (a + b)[..n] == a + b[..n - |a|];
        assert a[..|a|] == a;
        BalanceJoin(a, b[..n - |a|]);
      }
    }
  }

  /** Below a relative base that does not climb, every accepted candidate is relative and does not climb. */
  lemma AcceptedDoesNotClimb(candidate: Path, base: Path)
    requires Relative(base) && NeverNegative(base) && StaysWithin(candidate, base)
    ensures Relative(candidate) && NeverNegative(candidate)
  {
    if base <= candidate {
      SuffixRejoins(candidate, base);
      NonNegativeJoin(base, candidate[|base|..]);
    }
  }

  lemma PlaceFrom(cwd: Path, root: Path, below: Path, path: Path)
    requires IsRoot(root) && Relative(below) && cwd == root + below && Relative(path) && NeverNegative(path)
    ensures AbsoluteLexical(cwd, path) == root + Names(Walk([], below) + Walk([], path))
  {
    assert path != [] ==> path[0] in path;
    NormalizeJoin(root, below, path);
    WalkFrom(Walk([], below), path);
  }

  lemma SharedFront<T>(front: seq<T>, a: seq<T>, b: seq<T>)
    ensures front + a <= front + b <==> a <= b
  {
    if front + a <= front + b {
      assert a == (front + a)[|front|..] && b == (front + b)[|front|..];
    }
    if a <= b {
      assert b == a + b[|a|..];
      Associative(front, a, b[|a|..]);
    }
  }

  /** An accepted candidate itself lies under a relative base that does not climb exactly when the
      walk of the base is a prefix of its own walk, whatever the working directory. */
  lemma AcceptedLiesUnderIff(cwd: Path, candidate: Path, base: Path)
    requires Absolute(cwd) && Relative(base) && NeverNegative(base) && StaysWithin(candidate, base)
    ensures Relative(candidate) && NeverNegative(candidate)
    ensures AbsoluteLexical(cwd, base) <= AbsoluteLexical(cwd, candidate) <==> Walk([], base) <= Walk([], candidate)
  {
    AcceptedDoesNotClimb(candidate, base);
    var root, below := RootAndBelow(cwd);
    PlaceFrom(cwd, root, below, base);
    PlaceFrom(cwd, root, below, candidate);
    var here := Walk([], below);
    NamesPrefix(root, here + Walk([], base), here + Walk([], candidate));
    SharedFront(here, Walk([], base), Walk([], candidate));
  }

  lemma OneName(name: string)
    ensures Relative([Normal(name)]) && NeverNegative([Normal(name)]) && Walk([], [Normal(name)]) == [name]
  {
    var steps := [Normal(name)];
    assert steps[..1] == steps && steps[..0] == [];
  }

  lemma OnePrefix<T>(a: T, b: T)
    ensures [a] <= [b] <==> a == b
  {
    assert [a][0] == a && [b][0] == b;
  }

  /** So `other` passes for base `pkg`, from every working directory, although it names a sibling. */
  lemma SiblingPasses(cwd: Path)
    requires Absolute(cwd)
    ensures StaysWithin([Normal("other")], [Normal("pkg")])
    ensures !(AbsoluteLexical(cwd, [Normal("pkg")]) <= AbsoluteLexical(cwd, [Normal("other")]))
  {
    OneName("pkg");
    OneName("other");
    OnePrefix("pkg", "other");
    assert "pkg"[0] != "other"[0];
    AcceptedLiesUnderIff(cwd, [Normal("other")], [Normal("pkg")]);
  }

  lemma OneStepMore(dir: seq<string>, steps: Path, c: Component)
    ensures Walk(dir, steps + [c]) == WalkStep(Walk(dir, steps), c)
  {
    assert (steps + [c])[..|steps|] == steps;
  }

  function Climbing(): Path { [ParentDir, Normal("x")] }
  function Fixed(): Path { [RootDir, Normal("x")] }

  lemma NormalFormOf(steps: Path, dir: seq<string>)
    requires Relative(steps) && Walk([], steps) == dir
    ensures Normalize([RootDir] + steps) == [RootDir] + Names(dir)
  {
    NormalizeAbsolute([RootDir], steps);
  }

  lemma ClimbedFrom(d: string)
    ensures AbsoluteLexical([RootDir, Normal(d)], Climbing()) == [RootDir] + Names(["x"])
  {
    OneName(d);
    OneStepMore([], [Normal(d)], ParentDir);
    OneStepMore([], [Normal(d), ParentDir], Normal("x"));
    assert [Normal(d)] + [ParentDir] == [Normal(d), ParentDir];
    var steps := [Normal(d), ParentDir] + [Normal("x")];
    NormalFormOf(steps, ["x"]);
    assert [RootDir] + steps == [RootDir, Normal(d)] + Climbing();
  }

  lemma FixedFrom(cwd: Path)
    ensures AbsoluteLexical(cwd, Fixed()) == [RootDir] + Names(["x"])
  {
    OneName("x");
    NormalFormOf([Normal("x")], ["x"]);
    assert [RootDir] + [Normal("x")] == Fixed();
  }

  lemma NamedFrom(d: string)
    ensures AbsoluteLexical([RootDir, Normal(d)], [Normal("a")]) == [RootDir] + Names([d, "a"])
  {
    OneName(d);
    OneStepMore([], [Normal(d)], Normal("a"));
    assert [d] + ["a"] == [d, "a"];
    var steps := [Normal(d)] + [Normal("a")];
    NormalFormOf(steps, [d, "a"]);
    assert [RootDir] + steps == [RootDir, Normal(d)] + [Normal("a")];
  }

  lemma OneInFront<T>(a: T, b: T, c: T)
    ensures [a] <= [b, c] <==> a == b
  {
    assert [a][0] == a && [b, c][0] == b;
    if a == b {
      assert [b, c] == [a] + [c];
    }
  }

  /** With a base that climbs or is absolute, where an accepted candidate lies depends on the working
      directory: `a` is under `../x`, and under `/x`, from `/x` and from no other directory `/d`. */
  lemma OtherBasesDependOnDirectory(d: string)
    ensures AbsoluteLexical([RootDir, Normal(d)], Climbing()) <= AbsoluteLexical([RootDir, Normal(d)], [Normal("a")])
       <==> d == "x"
    ensures AbsoluteLexical([RootDir, Normal(d)], Fixed()) <= AbsoluteLexical([RootDir, Normal(d)], [Normal("a")])
       <==> d == "x"
    ensures StaysWithin([Normal("a")], Climbing()) && StaysWithin([Normal("a")], Fixed())
  {
    OneName("a");
    ClimbedFrom(d);
    FixedFrom([RootDir, Normal(d)]);
    NamedFrom(d);
    NamesPrefix([RootDir], ["x"], [d, "a"]);
    OneInFront("x", d, "a");
  }

  /** When the base is the root itself, nothing can leave it, yet the check still refuses `/..`. */
  lemma RootBaseIsStricter(root: Path, steps: Path)
    requires IsRoot(root) && Relative(steps)
    ensures ContainedThroughout(root, steps)
    ensures StaysWithin(root + steps, root) <==> NeverNegative(steps)
    ensures !StaysWithin(root + [ParentDir], root)
  {
    SuffixOfJoin(root, steps);
    SuffixOfJoin(root, [ParentDir]);
    assert root + [] == root;
    ContainedIsKept(root, [], steps);
    assert Balance([ParentDir][..1]) == -1 by { assert [ParentDir][..0] == []; }
  }
}
