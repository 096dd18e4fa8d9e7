/** Lexical path arithmetic of the gold-corpus command (commands/gold.rs).
    A path is the component list that `Path::components` yields. */
module LexicalPaths {

  datatype Component = Prefix(name: string) | RootDir | CurDir | ParentDir | Normal(name: string)

  type Path = seq<Component>

  datatype Result<+T> = Success(value: T) | Failure(error: string)

  predicate IsRootPart(c: Component) { c.Prefix? || c.RootDir? }

  /** A component list without root: only `.`, `..` and names. */
  predicate Relative(p: Path) {
    forall c :: c in p ==> !IsRootPart(c)
  }

  /** The two shapes of root an absolute path can have. */
  predicate IsRoot(root: Path) {
    root == [RootDir] || (|root| == 2 && root[0].Prefix? && root[1] == RootDir)
  }

  ghost predicate Absolute(p: Path) {
    exists n :: 0 <= n <= |p| && IsRoot(p[..n]) && Relative(p[n..])
  }

  // ---- normalize_lexical ----

  /** `PathBuf::pop` succeeds unless the path is empty or ends in its root. */
  predicate CanPop(stack: Path) {
    stack != [] && !IsRootPart(stack[|stack| - 1])
  }

  function NormalizeStep(stack: Path, c: Component): Path {
    match c
    case CurDir => stack
    case ParentDir =>
      if CanPop(stack) then stack[..|stack| - 1]
      else if RootDir in stack then stack
      else stack + [ParentDir]
    case _ => stack + [c]
  }

  function NormalizeFrom(stack: Path, path: Path): Path {
    if path == [] then stack else NormalizeStep(NormalizeFrom(stack, path[..|path| - 1]), path[|path| - 1])
  }

  function Normalize(path: Path): Path { NormalizeFrom([], path) }

  method NormalizeLexical(path: Path) returns (normalized: Path)
    ensures normalized == Normalize(path)
  {
    normalized := [];
    for n := 0 to |path|
      invariant normalized == Normalize(path[..n])
    {
      assert path[..n + 1][..n] == path[..n];
      match path[n]
      case CurDir =>
      case ParentDir =>
        if CanPop(normalized) {
          normalized := normalized[..|normalized| - 1];
        } else if RootDir !in normalized {
          normalized := normalized + [ParentDir];
        }
      case c => normalized := normalized + [c];
    }
    assert path[..|path|] == path;
  }

  // ---- The tree walk behind it ----

  function WalkStep(here: seq<string>, c: Component): seq<string> {
    match c
    case Normal(name) => here + [name]
    case ParentDir => if here == [] then [] else here[..|here| - 1]
    case _ => here
  }

  /** Follow `steps` from a directory given by its names below the root; `..` at the root stays there. */
  function Walk(dir: seq<string>, steps: Path): seq<string> {
    if steps == [] then dir else WalkStep(Walk(dir, steps[..|steps| - 1]), steps[|steps| - 1])
  }

  function Names(names: seq<string>): Path {
    seq(|names|, i requires 0 <= i < |names| => Normal(names[i]))
  }

  lemma NormalizeStepIsWalkStep(root: Path, here: seq<string>, c: Component)
    requires IsRoot(root) && !IsRootPart(c)
    ensures NormalizeStep(root + Names(here), c) == root + Names(WalkStep(here, c))
  {
    var stack := root + Names(here);
    match c
    case Normal(name) => assert Names(here + [name]) == Names(here) + [Normal(name)];
    case CurDir =>
    case ParentDir =>
      if here == [] {
        assert stack == root && root[|root| - 1] == RootDir;
      } else {
        assert stack[|stack| - 1] == Normal(here[|here| - 1]);
        assert stack[..|stack| - 1] == root + Names(here[..|here| - 1]);
      }
  }

  lemma {:induction false} NormalizeIsWalk(root: Path, dir: seq<string>, steps: Path)
    requires IsRoot(root) && Relative(steps)
    ensures NormalizeFrom(root + Names(dir), steps) == root + Names(Walk(dir, steps))
  {
    if steps != [] {
      NormalizeIsWalk(root, dir, steps[..|steps| - 1]);
      assert steps[|steps| - 1] in steps;
      NormalizeStepIsWalkStep(root, Walk(dir, steps[..|steps| - 1]), steps[|steps| - 1]);
    }
  }

  lemma {:induction false} NormalizeFromAppend(stack: Path, a: Path, b: Path)
    ensures NormalizeFrom(stack, a + b) == NormalizeFrom(NormalizeFrom(stack, a), b)
  {
    if b == [] {
      assert a + b == a;
    } else {
      NormalizeFromAppend(stack, a, b[..|b| - 1]);
      assert (a + b)[..|a + b| - 1] == a + b[..|b| - 1];
    }
  }

  lemma NormalizeOne(stack: Path, c: Component)
    ensures NormalizeFrom(stack, [c]) == NormalizeStep(stack, c)
  {
    assert [c][..0] == [];
  }

  lemma NormalizeRoot(root: Path)
    requires IsRoot(root)
    ensures Normalize(root) == root
  {
    NormalizeOne([], root[0]);
    if |root| == 2 {
      assert root == [root[0]] + [root[1]];
      NormalizeFromAppend([], [root[0]], [root[1]]);
      NormalizeOne([root[0]], root[1]);
    }
  }

  /** The directory an absolute path denotes: names below its root after normalisation. */
  lemma NormalizeAbsolute(root: Path, steps: Path)
    requires IsRoot(root) && Relative(steps)
    ensures Normalize(root + steps) == root + Names(Walk([], steps))
  {
    NormalizeFromAppend([], root, steps);
    NormalizeRoot(root);
    assert root + Names([]) == root;
    NormalizeIsWalk(root, [], steps);
  }

  lemma {:induction false} WalkAppend(dir: seq<string>, a: Path, b: Path)
    ensures Walk(dir, a + b) == Walk(Walk(dir, a), b)
  {
    if b == [] {
      assert a + b == a;
    } else {
      WalkAppend(dir, a, b[..|b| - 1]);
      assert (a + b)[..|a + b| - 1] == a + b[..|b| - 1];
    }
  }

  // ---- split_path_parts and relative_path_between ----

  function PartOf(c: Component): string
    requires !IsRootPart(c) && !c.CurDir?
  {
    if c.ParentDir? then ".." else c.name
  }

  /** The component that pushing a part adds. */
  function ComponentOf(part: string): Component {
    if part == ".." then ParentDir else Normal(part)
  }

  method SplitPathParts(path: Path) returns (root: Path, parts: seq<string>)
    ensures root == SplitRoot(path) && parts == SplitParts(path)
  {
    root, parts := [], [];
    for n := 0 to |path|
      invariant root == SplitRoot(path[..n]) && parts == SplitParts(path[..n])
    {
      assert path[..n + 1][..n] == path[..n];
      if IsRootPart(path[n]) {
        root := root + [path[n]];
      } else if !path[n].CurDir? {
        parts := parts + [PartOf(path[n])];
      }
    }
    assert path[..|path|] == path;
  }

  function SplitRoot(path: Path): Path {
    if path == [] then []
    else SplitRoot(path[..|path| - 1]) + (if IsRootPart(path[|path| - 1]) then [path[|path| - 1]] else [])
  }

  function SplitParts(path: Path): seq<string> {
    if path == [] then []
    else
      var c := path[|path| - 1];
      SplitParts(path[..|path| - 1]) + (if IsRootPart(c) || c.CurDir? then [] else [PartOf(c)])
  }

  /** Length of the longest common prefix. */
  function Common(a: seq<string>, b: seq<string>): (n: nat)
    ensures n <= |a| && n <= |b| && a[..n] == b[..n]
    ensures n < |a| && n < |b| ==> a[n] != b[n]
  {
    if a == [] || b == [] || a[0] != b[0] then 0 else 1 + Common(a[1..], b[1..])
  }

  function Ups(n: nat): Path { seq(n, _ => ParentDir) }

  function Downs(parts: seq<string>): Path {
    seq(|parts|, i requires 0 <= i < |parts| => ComponentOf(parts[i]))
  }

  /** `..` for every base part below the fork, then the target parts below it; `.` when there are none. */
  function RelativeParts(base: seq<string>, target: seq<string>): Path {
    var fork := Common(base, target);
    var steps := Ups(|base| - fork) + Downs(target[fork..]);
    if steps == [] then [CurDir] else steps
  }

  /** A relative argument is resolved against the working directory first. */
  function Anchored(cwd: Path, path: Path): Path {
    if path != [] && IsRootPart(path[0]) then path else cwd + path
  }

  function AbsoluteLexical(cwd: Path, path: Path): Path { Normalize(Anchored(cwd, path)) }

  function RelativePath(cwd: Path, baseDir: Path, target: Path): Result<Path> {
    var base, goal := AbsoluteLexical(cwd, baseDir), AbsoluteLexical(cwd, target);
    if SplitRoot(base) != SplitRoot(goal) then Failure("do not share a filesystem root")
    else Success(RelativeParts(SplitParts(base), SplitParts(goal)))
  }

  lemma CommonUnique(a: seq<string>, b: seq<string>, n: nat)
    requires n <= |a| && n <= |b| && forall i :: 0 <= i < n ==> a[i] == b[i]
    requires n < |a| && n < |b| ==> a[n] != b[n]
    ensures n == Common(a, b)
  {
    var m := Common(a, b);
    assert forall i :: 0 <= i < m ==> a[i] == a[..m][i] && b[i] == b[..m][i];
  }

  /** `zip`, `take_while` and `count`. */
  method CountCommon(a: seq<string>, b: seq<string>) returns (common: nat)
    ensures common == Common(a, b)
  {
    common := 0;
    while common < |a| && common < |b| && a[common] == b[common]
      invariant common <= |a| && common <= |b|
      invariant forall i :: 0 <= i < common ==> a[i] == b[i]
    {
      common := common + 1;
    }
    CommonUnique(a, b, common);
  }

  method PushParts(base: seq<string>, target: seq<string>, common: nat) returns (relative: Path)
    requires common <= |base| && common <= |target|
    ensures relative == Ups(|base| - common) + Downs(target[common..])
  {
    relative := [];
    for n := common to |base|
      invariant relative == Ups(n - common)
    {
      relative := relative + [ParentDir];
    }
    for n := common to |target|
      invariant relative == Ups(|base| - common) + Downs(target[common..n])
    {
      assert target[common..n + 1] == target[common..n] + [target[n]];
      assert Downs(target[common..n + 1]) == Downs(target[common..n]) + [ComponentOf(target[n])];
      relative := relative + [ComponentOf(target[n])];
    }
    assert target[common..|target|] == target[common..];
  }

  method StepsBetween(base: seq<string>, target: seq<string>) returns (relative: Path)
    ensures relative == RelativeParts(base, target)
  {
    var common := CountCommon(base, target);
    relative := PushParts(base, target, common);
    if relative == [] {
      relative := [CurDir];
    }
  }

  method NormalizeAgainst(cwd: Path, path: Path) returns (r: Path)
    ensures r == AbsoluteLexical(cwd, path)
  {
    r := NormalizeLexical(Anchored(cwd, path));
  }

  method RelativePathBetween(cwd: Path, baseDir: Path, target: Path) returns (r: Result<Path>)
    ensures r == RelativePath(cwd, baseDir, target)
  {
    var base := NormalizeAgainst(cwd, baseDir);
    var goal := NormalizeAgainst(cwd, target);
    var baseRoot, baseParts := SplitPathParts(base);
    var goalRoot, goalParts := SplitPathParts(goal);
    if baseRoot != goalRoot {
      return Failure("do not share a filesystem root");
    }
    var relative := StepsBetween(baseParts, goalParts);
    r := Success(relative);
  }

  // ---- Splitting a normalised path gives back its directory ----

  /** File names as the platform delivers them: never `..`. */
  ghost predicate ProperNames(p: Path) {
    forall c :: c in p && c.Normal? ==> c.name != ".."
  }

  ghost predicate Proper(dir: seq<string>) {
    forall name :: name in dir ==> name != ".."
  }

  lemma {:induction false} WalkProper(dir: seq<string>, steps: Path)
    requires ProperNames(steps) && Proper(dir)
    ensures Proper(Walk(dir, steps))
  {
    if steps != [] {
      WalkProper(dir, steps[..|steps| - 1]);
      assert steps[|steps| - 1] in steps;
      var here, c := Walk(dir, steps[..|steps| - 1]), steps[|steps| - 1];
      var next := WalkStep(here, c);
      forall name | name in next ensures name != ".." {
        assert name in here || c == Normal(name);
      }
    }
  }

  lemma SplitAppendOne(path: Path, c: Component)
    ensures SplitRoot(path + [c]) == SplitRoot(path) + if IsRootPart(c) then [c] else []
    ensures SplitParts(path + [c]) == SplitParts(path) + if IsRootPart(c) || c.CurDir? then [] else [PartOf(c)]
  {
    assert (path + [c])[..|path|] == path;
  }

  lemma SplitJustRoot(root: Path)
    requires IsRoot(root)
    ensures SplitRoot(root) == root && SplitParts(root) == []
  {
    SplitAppendOne([], root[0]);
    assert [] + [root[0]] == [root[0]];
    if |root| == 2 {
      assert root == [root[0]] + [root[1]];
      SplitAppendOne([root[0]], root[1]);
    }
  }

  lemma NamesSnoc(root: Path, dir: seq<string>, name: string)
    ensures root + Names(dir + [name]) == (root + Names(dir)) + [Normal(name)]
  {
  }

  lemma {:induction false} SplitNames(root: Path, dir: seq<string>)
    requires IsRoot(root)
    ensures SplitRoot(root + Names(dir)) == root && SplitParts(root + Names(dir)) == dir
  {
    if dir == [] {
      assert root + Names(dir) == root;
      SplitJustRoot(root);
    } else {
      var init, last := dir[..|dir| - 1], dir[|dir| - 1];
      SplitNames(root, init);
      NamesSnoc(root, init, last);
      SplitAppendOne(root + Names(init), Normal(last));
      assert dir == init + [last];
    }
  }

  // ---- Round trip ----

  lemma {:induction false} WalkUps(dir: seq<string>, n: nat)
    requires n <= |dir|
    ensures Walk(dir, Ups(n)) == dir[..|dir| - n]
  {
    if n > 0 {
      WalkUps(dir, n - 1);
      assert Ups(n)[..n - 1] == Ups(n - 1);
    } else {
      assert dir[..|dir|] == dir;
    }
  }

  lemma {:induction false} WalkDowns(dir: seq<string>, names: seq<string>)
    requires Proper(names)
    ensures Relative(Downs(names)) && Walk(dir, Downs(names)) == dir + names
  {
    if names == [] {
      assert dir + names == dir;
    } else {
      var init, last := names[..|names| - 1], names[|names| - 1];
      assert last in names && forall name :: name in init ==> name in names;
      WalkDowns(dir, init);
      assert Downs(names)[..|names| - 1] == Downs(init);
      assert names == init + [last];
    }
  }

  lemma ProperRest(names: seq<string>, n: nat)
    requires Proper(names) && n <= |names|
    ensures Proper(names[n..]) && names[..n] + names[n..] == names
  {
    forall name | name in names[n..] ensures name != ".." { assert name in names; }
  }

  /** Climbing to a common prefix and descending from it reaches the target. */
  lemma ForkArrives(shared: seq<string>, above: seq<string>, below: seq<string>)
    requires Proper(below)
    ensures Walk(shared + above, Ups(|above|) + Downs(below)) == shared + below
  {
    WalkUps(shared + above, |above|);
    assert (shared + above)[..|shared|] == shared;
    WalkDowns(shared, below);
    WalkAppend(shared + above, Ups(|above|), Downs(below));
  }

  lemma StepsAreRelative(n: nat, below: seq<string>)
    requires Proper(below)
    ensures Relative(Ups(n) + Downs(below))
  {
    WalkDowns([], below);
  }

  lemma DotForNoSteps(base: seq<string>, target: seq<string>, steps: Path)
    requires Relative(steps) && Walk(base, steps) == target
    ensures var shown := if steps == [] then [CurDir] else steps; Relative(shown) && Walk(base, shown) == target
  {
    if steps == [] {
      WalkCurDir(base);
    }
  }

  lemma PartsBeyondFork(shared: seq<string>, above: seq<string>, below: seq<string>)
    requires above != [] && below != [] ==> above[0] != below[0]
    ensures var steps := Ups(|above|) + Downs(below);
            RelativeParts(shared + above, shared + below) == if steps == [] then [CurDir] else steps
  {
    CommonUnique(shared + above, shared + below, |shared|);
    assert (shared + below)[|shared|..] == below;
  }

  lemma ForkedPartsArrive(shared: seq<string>, above: seq<string>, below: seq<string>)
    requires Proper(below) && (above != [] && below != [] ==> above[0] != below[0])
    ensures var steps := RelativeParts(shared + above, shared + below);
            Relative(steps) && Walk(shared + above, steps) == shared + below
  {
    PartsBeyondFork(shared, above, below);
    StepsAreRelative(|above|, below);
    ForkArrives(shared, above, below);
    DotForNoSteps(shared + above, shared + below, Ups(|above|) + Downs(below));
  }

  /** From the base directory, the computed steps lead exactly to the target directory. */
  lemma RelativePartsArrive(base: seq<string>, target: seq<string>)
    requires Proper(target)
    ensures Relative(RelativeParts(base, target)) && Walk(base, RelativeParts(base, target)) == target
  {
    var fork := Common(base, target);
    var shared, above, below := base[..fork], base[fork..], target[fork..];
    ProperRest(target, fork);
    assert base == shared + above && target == shared + below;
    ForkedPartsArrive(shared, above, below);
  }

  lemma WalkCurDir(dir: seq<string>)
    ensures Walk(dir, [CurDir]) == Walk(dir, []) == dir
  {
    assert [CurDir][..0] == [];
  }

  // ---- Lower bound ----

  /** Steps between two directories of a tree. */
  function Distance(a: seq<string>, b: seq<string>): int {
    |a| + |b| - 2 * Common(a, b)
  }

  lemma CommonPush(a: seq<string>, name: string, t: seq<string>)
    ensures Common(a, t) <= Common(a + [name], t) <= Common(a, t) + 1
  {
    var m, n := Common(a, t), Common(a + [name], t);
    assert forall i :: 0 <= i < m ==> a[i] == a[..m][i] && t[i] == t[..m][i];
    assert forall i :: 0 <= i < n ==> (a + [name])[i] == (a + [name])[..n][i] && t[i] == t[..n][i];
  }

  /** One component changes the distance to any directory by at most one. */
  lemma StepDistance(dir: seq<string>, steps: Path, t: seq<string>)
    requires Relative(steps) && steps != []
    ensures Distance(Walk(dir, steps), t) >= Distance(Walk(dir, steps[..|steps| - 1]), t) - 1
  {
    OneStepDistance(Walk(dir, steps[..|steps| - 1]), steps[|steps| - 1], t);
  }

  lemma OneStepDistance(here: seq<string>, c: Component, t: seq<string>)
    requires Relative([c])
    ensures Distance(WalkStep(here, c), t) >= Distance(here, t) - 1
  {
    match c
    case Normal(name) => CommonPush(here, name, t);
    case ParentDir =>
      if here != [] {
        CommonPush(here[..|here| - 1], here[|here| - 1], t);
        assert here == here[..|here| - 1] + [here[|here| - 1]];
      }
    case _ =>
  }

  lemma {:induction false} WalkNeedsDistance(dir: seq<string>, steps: Path, t: seq<string>)
    requires Relative(steps) && Walk(dir, steps) == t
    ensures |steps| >= Distance(dir, t)
  {
    WalkDistance(dir, steps, t);
    CommonUnique(t, t, |t|);
  }

  lemma {:induction false} WalkDistance(dir: seq<string>, steps: Path, t: seq<string>)
    requires Relative(steps)
    ensures Distance(Walk(dir, steps), t) >= Distance(dir, t) - |steps|
  {
    if steps != [] {
      WalkDistance(dir, steps[..|steps| - 1], t);
      StepDistance(dir, steps, t);
    }
  }

  lemma RelativePartsLength(base: seq<string>, target: seq<string>)
    ensures |RelativeParts(base, target)| == if base == target then 1 else Distance(base, target)
    ensures base != target ==> Distance(base, target) >= 1
  {
    var fork := Common(base, target);
    if fork == |base| && fork == |target| {
      assert base == base[..fork] && target == target[..fork];
    }
    if base == target {
      CommonUnique(base, target, |base|);
    }
  }

  // ---- The two promises, on paths ----

  /** The absolute path a lexical argument stands for, split at its root. */
  lemma AbsoluteShape(cwd: Path, path: Path) returns (root: Path, dir: seq<string>)
    requires Absolute(cwd) && (Absolute(path) || Relative(path)) && ProperNames(cwd) && ProperNames(path)
    ensures IsRoot(root) && Proper(dir) && AbsoluteLexical(cwd, path) == root + Names(dir)
    ensures SplitRoot(AbsoluteLexical(cwd, path)) == root && SplitParts(AbsoluteLexical(cwd, path)) == dir
  {
    var full := Anchored(cwd, path);
    AnchoredIsAbsolute(cwd, path);
    var n :| 0 <= n <= |full| && IsRoot(full[..n]) && Relative(full[n..]);
    root := full[..n];
    assert full == root + full[n..];
    dir := Walk([], full[n..]);
    NormalizeAbsolute(root, full[n..]);
    forall c | c in full[n..] ensures c.Normal? ==> c.name != ".." { assert c in full; }
    WalkProper([], full[n..]);
    SplitNames(root, dir);
  }

  lemma CutFirst<T>(a: seq<T>, b: seq<T>, n: nat)
    requires n <= |a|
    ensures (a + b)[..n] == a[..n] && (a + b)[n..] == a[n..] + b
  {
  }

  lemma AbsoluteStartsAtRoot(path: Path)
    requires Absolute(path)
    ensures path != [] && IsRootPart(path[0])
  {
    var m :| 0 <= m <= |path| && IsRoot(path[..m]) && Relative(path[m..]);
    assert path[..m][0] == path[0];
  }

  lemma RelativeIsAnchored(cwd: Path, path: Path)
    requires Absolute(cwd) && Relative(path)
    ensures Absolute(cwd + path)
  {
    var n :| 0 <= n <= |cwd| && IsRoot(cwd[..n]) && Relative(cwd[n..]);
    CutFirst(cwd, path, n);
  }

  lemma AnchoredIsAbsolute(cwd: Path, path: Path)
    requires Absolute(cwd) && (Absolute(path) || Relative(path))
    ensures Absolute(Anchored(cwd, path))
  {
    if Relative(path) {
      assert path != [] ==> path[0] in path;
      RelativeIsAnchored(cwd, path);
    } else {
      AbsoluteStartsAtRoot(path);
    }
  }

  /** Normalising the base followed by the relative path gives exactly the normalised target. */
  lemma RelativePathRoundTrip(cwd: Path, baseDir: Path, target: Path)
    requires Absolute(cwd) && ProperNames(cwd) && ProperNames(baseDir) && ProperNames(target)
    requires (Absolute(baseDir) || Relative(baseDir)) && (Absolute(target) || Relative(target))
    requires RelativePath(cwd, baseDir, target).Success?
    ensures Relative(RelativePath(cwd, baseDir, target).value)
    ensures Normalize(AbsoluteLexical(cwd, baseDir) + RelativePath(cwd, baseDir, target).value)
         == AbsoluteLexical(cwd, target)
  {
    var root, base := AbsoluteShape(cwd, baseDir);
    var goalRoot, goal := AbsoluteShape(cwd, target);
    RelativePartsArrive(base, goal);
    var steps := RelativeParts(base, goal);
    NormalizeFromAppend([], root + Names(base), steps);
    NormalizedStays(root, base);
    NormalizeIsWalk(root, base, steps);
  }

  /** No non-empty component list that leads to the target is shorter than the computed one. */
  lemma RelativePathShortest(cwd: Path, baseDir: Path, target: Path, other: Path)
    requires Absolute(cwd) && ProperNames(cwd) && ProperNames(baseDir) && ProperNames(target)
    requires (Absolute(baseDir) || Relative(baseDir)) && (Absolute(target) || Relative(target))
    requires RelativePath(cwd, baseDir, target).Success?
    requires Relative(other) && other != []
    requires Normalize(AbsoluteLexical(cwd, baseDir) + other) == AbsoluteLexical(cwd, target)
    ensures |RelativePath(cwd, baseDir, target).value| <= |other|
  {
    var root, base := AbsoluteShape(cwd, baseDir);
    var goalRoot, goal := AbsoluteShape(cwd, target);
    NormalizeFromAppend([], root + Names(base), other);
    NormalizedStays(root, base);
    NormalizeIsWalk(root, base, other);
    SplitNames(root, Walk(base, other));
    WalkNeedsDistance(base, other, goal);
    RelativePartsLength(base, goal);
  }

  lemma {:induction false} WalkNames(dir: seq<string>)
    ensures Walk([], Names(dir)) == dir
  {
    if dir != [] {
      WalkNames(dir[..|dir| - 1]);
      assert Names(dir)[..|dir| - 1] == Names(dir[..|dir| - 1]);
    }
  }

  lemma NormalizedStays(root: Path, dir: seq<string>)
    requires IsRoot(root)
    ensures Normalize(root + Names(dir)) == root + Names(dir)
  {
    WalkNames(dir);
    NormalizeAbsolute(root, Names(dir));
  }

  /** The names of the directory a path stands for, walked from the root: an absolute path by itself, a
      relative one from the working directory. */
  ghost predicate StandsFor(cwd: Path, path: Path, root: Path, dir: seq<string>) {
    IsRoot(root)
    && ((exists steps :: Relative(steps) && path == root + steps && dir == Walk([], steps))
        || (Relative(path)
            && exists steps :: Relative(steps) && cwd == root + steps && dir == Walk(Walk([], steps), path)))
  }

  lemma StandsForNormalised(cwd: Path, path: Path, root: Path, dir: seq<string>)
    requires StandsFor(cwd, path, root, dir)
    ensures AbsoluteLexical(cwd, path) == root + Names(dir)
  {
    if Relative(path) {
      assert forall steps :: path == root + steps ==> root[0] in path && IsRootPart(root[0]);
      var steps :| Relative(steps) && cwd == root + steps && dir == Walk(Walk([], steps), path);
      assert path != [] ==> path[0] in path;
      NormalizeAbsolute(root, steps + path);
      WalkAppend([], steps, path);
      assert cwd + path == root + (steps + path);
    } else {
      var steps :| Relative(steps) && path == root + steps && dir == Walk([], steps);
      NormalizeAbsolute(root, steps);
    }
  }

  /** From the directory the base stands for, the computed path walks to the one the target stands for. */
  lemma RelativePathWalks(cwd: Path, baseDir: Path, target: Path, root: Path, a: seq<string>, b: seq<string>)
    requires StandsFor(cwd, baseDir, root, a) && StandsFor(cwd, target, root, b)
    requires ProperNames(cwd) && ProperNames(target)
    ensures RelativePath(cwd, baseDir, target).Success?
    ensures Relative(RelativePath(cwd, baseDir, target).value) && Walk(a, RelativePath(cwd, baseDir, target).value) == b
  {
    hide StandsFor;
    StandsForNormalised(cwd, baseDir, root, a);
    StandsForNormalised(cwd, target, root, b);
    StandsForProper(cwd, target, root, b);
    SplitNames(root, a);
    SplitNames(root, b);
    RelativePartsArrive(a, b);
  }

  lemma StandsForProper(cwd: Path, path: Path, root: Path, dir: seq<string>)
    requires StandsFor(cwd, path, root, dir) && ProperNames(cwd) && ProperNames(path)
    ensures IsRoot(root) && Proper(dir)
  {
    if steps :| Relative(steps) && path == root + steps && dir == Walk([], steps) {
      ProperBelow(path, root, steps);
      WalkProper([], steps);
    } else {
      var steps :| Relative(steps) && cwd == root + steps && dir == Walk(Walk([], steps), path);
      ProperBelow(cwd, root, steps);
      WalkProper([], steps);
      WalkProper(Walk([], steps), path);
    }
  }

  lemma ProperBelow(path: Path, root: Path, steps: Path)
    requires path == root + steps && ProperNames(path)
    ensures ProperNames(steps)
  {
    forall c | c in steps ensures c in path {}
  }

  /** Two arguments fail to relate exactly when their normalised roots differ. */
  lemma RelativePathFailsIff(cwd: Path, baseDir: Path, target: Path)
    requires Absolute(cwd) && ProperNames(cwd) && ProperNames(baseDir) && ProperNames(target)
    requires (Absolute(baseDir) || Relative(baseDir)) && (Absolute(target) || Relative(target))
    ensures RelativePath(cwd, baseDir, target).Failure?
       <==> !(exists root, a, b :: IsRoot(root) && AbsoluteLexical(cwd, baseDir) == root + Names(a)
                                && AbsoluteLexical(cwd, target) == root + Names(b))
  {
    var root, base := AbsoluteShape(cwd, baseDir);
    var goalRoot, goal := AbsoluteShape(cwd, target);
    if r, a, b :| IsRoot(r) && AbsoluteLexical(cwd, baseDir) == r + Names(a)
                  && AbsoluteLexical(cwd, target) == r + Names(b)
    {
      SplitNames(r, a);
      SplitNames(r, b);
    }
  }

  /** Off absolute paths the second `..` cancels the first, which is why every caller makes paths absolute. */
  lemma RelativeNormalisationCollapses()
    ensures Normalize([ParentDir, ParentDir]) == []
  {
    var one := [ParentDir];
    assert one[..0] == [];
    assert Normalize(one) == one;
    assert [ParentDir, ParentDir][..1] == one;
  }
}
