/** Version pins and npm aliases (dependency_inventory.rs). */
module VersionPins {
  import opened Orders
  import opened Text

  // ---- The parsers ----

  const SEPARATORS: string := ".-+"

  predicate IsMark(c: char) { c == '=' || c == 'v' }

  predicate IsAlphanumeric(c: char) { IsDigit(c) || 'a' <= c <= 'z' || 'A' <= c <= 'Z' }

  predicate IsVersionChar(c: char) { IsAlphanumeric(c) || c == '.' || c == '-' || c == '+' || c == '_' }

  predicate IsWildcard(part: string) { part == "*" || part == "x" || part == "X" }

  predicate HasWildcardComponent(s: string) {
    exists part :: part in Split(s, SEPARATORS) && IsWildcard(part)
  }

  function Stripped(spec: string): string { Trim(DropWhile(IsMark, Trim(spec))) }

  function ExactVersion(spec: string): Option<string> {
    var s := Stripped(spec);
    if s != [] && IsDigit(s[0]) && AllOf(IsVersionChar, s) && !HasWildcardComponent(s) then Some(s) else None
  }

  predicate IsNumeric(s: string) { s != [] && AllDigits(s) }

  function ExactSemverPin(spec: string): Option<string> {
    match ExactVersion(spec)
    case None => None
    case Some(pin) =>
      var parts := Split(Split(pin, "-+")[0], ".");
      if |parts| == 3 && IsNumeric(parts[0]) && IsNumeric(parts[1]) && IsNumeric(parts[2]) then Some(pin) else None
  }

  function Find(s: string, c: char): (r: Option<nat>)
    ensures r.Some? ==> r.value < |s|
  {
    if s == [] then None
    else if s[0] == c then Some(0)
    else match Find(s[1..], c) case None => None case Some(i) => Some(i + 1)
  }

  function VersionAt(rest: string): (r: Option<nat>)
    ensures r.Some? ==> r.value < |rest|
  {
    if rest != [] && rest[0] == '@' then
      match Find(rest[1..], '@') case None => None case Some(i) => Some(i + 1)
    else Find(rest, '@')
  }

  function NpmAliasTarget(spec: string): Option<(string, Option<string>)> {
    if !("npm:" <= spec) then None
    else
      var rest := spec[4..];
      match VersionAt(rest)
      case None => Some((rest, None))
      case Some(i) => Some((rest[..i], Some(rest[i + 1..])))
  }

  // ---- What counts as a version ----

  /** A concrete version: starts with a digit, uses the version alphabet, and no part between
      separators is a wildcard. */
  ghost predicate Concrete(p: string) {
    p != [] && IsDigit(p[0]) && AllOf(IsVersionChar, p) && !HasWildcardComponent(p)
  }

  /** `spec` is `p` with white space around it and equals signs or `v`s before it. */
  ghost predicate Spells(spec: string, a: string, marks: string, b: string, p: string, z: string) {
    Blank(a) && AllOf(IsMark, marks) && Blank(b) && Blank(z) && spec == a + marks + b + p + z
  }

  /** Nothing at either end that stripping would remove. */
  ghost predicate Bare(p: string) {
    p != [] && !IsWhitespace(p[0]) && !IsMark(p[0]) && !IsWhitespace(p[|p| - 1])
  }

  lemma ConcreteIsBare(p: string)
    requires p != [] && IsDigit(p[0]) && AllOf(IsVersionChar, p)
    ensures Bare(p)
  {
    assert IsVersionChar(p[|p| - 1]);
  }

  lemma StrippedWithoutMarks(a: string, p: string, z: string)
    requires Blank(a) && Blank(z) && Bare(p)
    ensures Stripped(a + p + z) == p
  {
    TrimDrops(a, p, z);
    DropWhileDrops(IsMark, "", p);
    TrimDrops("", p, "");
    assert "" + p == p && "" + p + "" == p;
  }

  lemma StrippedWithMarks(a: string, marks: string, b: string, p: string, z: string)
    requires Blank(a) && AllOf(IsMark, marks) && Blank(b) && Blank(z) && Bare(p) && marks != []
    ensures Stripped(a + (marks + (b + p)) + z) == p
  {
    var core := marks + (b + p);
    assert core[|core| - 1] == p[|p| - 1] && IsMark(core[0]);
    TrimDrops(a, core, z);
    assert (b + p)[0] == if b == [] then p[0] else b[0];
    assert b != [] ==> IsWhitespace(b[0]);
    DropWhileDrops(IsMark, marks, b + p);
    TrimDrops(b, p, "");
    assert b + p + "" == b + p;
  }

  lemma StrippedIsCore(spec: string, a: string, marks: string, b: string, p: string, z: string)
    requires Spells(spec, a, marks, b, p, z) && Bare(p)
    ensures Stripped(spec) == p
  {
    if marks == [] {
      assert spec == (a + b) + p + z;
      StrippedWithoutMarks(a + b, p, z);
    } else {
      assert spec == a + (marks + (b + p)) + z;
      StrippedWithMarks(a, marks, b, p, z);
    }
  }

  lemma Regroup(a: string, marks: string, b: string, p: string, z: string, y: string)
    ensures a + (marks + (b + p + z)) + y == a + marks + b + p + (z + y)
  {
    Associative(a, marks, b + p + z);
    Associative(a + marks, b + p, z);
    Associative(a + marks, b, p);
    Associative(a + marks + b + p, z, y);
  }

  lemma StrippedIsSpelled(spec: string)
    ensures exists a, marks, b, z :: Spells(spec, a, marks, b, Stripped(spec), z)
  {
    var a, y := TrimKeeps(spec);
    var marks := DropWhileKeeps(IsMark, Trim(spec));
    var b, z := TrimKeeps(DropWhile(IsMark, Trim(spec)));
    var p := Stripped(spec);
    Regroup(a, marks, b, p, z, y);
    assert Spells(spec, a, marks, b, p, z + y);
  }

  /** Exactly the texts that spell a concrete version are accepted, and the version comes back. */
  lemma ExactVersionIff(spec: string, p: string)
    ensures ExactVersion(spec) == Some(p) <==> (Concrete(p) && exists a, marks, b, z :: Spells(spec, a, marks, b, p, z))
  {
    if Concrete(p) && exists a, marks, b, z :: Spells(spec, a, marks, b, p, z) {
      var a, marks, b, z :| Spells(spec, a, marks, b, p, z);
      ConcreteIsBare(p);
      StrippedIsCore(spec, a, marks, b, p, z);
    }
    StrippedIsSpelled(spec);
  }

  /** A text that starts and ends like a version is accepted as it stands, or not at all. */
  lemma ExactVersionOfBare(p: string)
    requires p != [] && IsDigit(p[0]) && AllOf(IsVersionChar, p)
    ensures ExactVersion(p) == if HasWildcardComponent(p) then None else Some(p)
  {
    ConcreteIsBare(p);
    assert p == "" + "" + "" + p + "";
    assert Spells(p, "", "", "", p, "");
    StrippedIsCore(p, "", "", "", p, "");
  }

  /** A pin that came back reads as itself. */
  lemma ExactVersionRetracts(spec: string)
    requires ExactVersion(spec).Some?
    ensures ExactVersion(ExactVersion(spec).value) == ExactVersion(spec)
  {
    ExactVersionOfBare(ExactVersion(spec).value);
  }

  // ---- Wildcards across separators ----

  lemma WildcardConcat(u: string, sep: char, t: string)
    requires sep in SEPARATORS
    ensures HasWildcardComponent(u + [sep] + t) <==> HasWildcardComponent(u) || HasWildcardComponent(t)
  {
    SplitConcat(u, sep, t, SEPARATORS);
    var whole, left, right := Split(u + [sep] + t, SEPARATORS), Split(u, SEPARATORS), Split(t, SEPARATORS);
    assert forall part :: part in whole <==> part in left || part in right;
  }

  lemma WildcardFree(u: string)
    requires Free(u, SEPARATORS)
    ensures HasWildcardComponent(u) <==> IsWildcard(u)
  {
    SplitWhole(u, SEPARATORS);
    assert u in Split(u, SEPARATORS);
  }

  lemma NumericIsFree(u: string)
    requires IsNumeric(u)
    ensures Free(u, SEPARATORS) && Free(u, "-+") && Free(u, ".") && !HasWildcardComponent(u)
  {
    WildcardFree(u);
    assert IsDigit(u[0]);
  }

  // ---- The release grammar ----

  function Core(major: string, minor: string, patch: string): string {
    major + "." + (minor + "." + patch)
  }

  /** A full release with whatever follows its core: nothing, or a part introduced by `-` or `+`. */
  ghost predicate Release(p: string, major: string, minor: string, patch: string, suffix: string) {
    && IsNumeric(major) && IsNumeric(minor) && IsNumeric(patch)
    && p == Core(major, minor, patch) + suffix
    && (suffix == [] || (suffix[0] in "-+" && AllOf(IsVersionChar, suffix) && !HasWildcardComponent(suffix[1..])))
  }

  lemma CoreParts(major: string, minor: string, patch: string)
    requires IsNumeric(major) && IsNumeric(minor) && IsNumeric(patch)
    ensures Split(Core(major, minor, patch), ".") == [major, minor, patch]
    ensures Free(Core(major, minor, patch), "-+") && AllOf(IsVersionChar, Core(major, minor, patch))
    ensures !HasWildcardComponent(Core(major, minor, patch))
  {
    NumericIsFree(major);
    NumericIsFree(minor);
    NumericIsFree(patch);
    SplitField(major, '.', minor + "." + patch, ".");
    SplitField(minor, '.', patch, ".");
    SplitWhole(patch, ".");
    WildcardConcat(minor, '.', patch);
    WildcardConcat(major, '.', minor + "." + patch);
  }

  lemma ReleaseIsConcrete(p: string, major: string, minor: string, patch: string, suffix: string)
    requires Release(p, major, minor, patch, suffix)
    ensures Concrete(p) && Split(p, "-+")[0] == Core(major, minor, patch)
  {
    var core := Core(major, minor, patch);
    CoreParts(major, minor, patch);
    assert core[0] == major[0];
    if suffix == [] {
      assert p == core;
      SplitWhole(core, "-+");
    } else {
      assert p == core + [suffix[0]] + suffix[1..];
      WildcardConcat(core, suffix[0], suffix[1..]);
      SplitField(core, suffix[0], suffix[1..], "-+");
    }
  }

  /** Cutting a text into exactly three parts at the dots. */
  lemma ThreeParts(core: string)
    requires |Split(core, ".")| == 3
    ensures var parts := Split(core, "."); core == Core(parts[0], parts[1], parts[2])
  {
    var rest := DropPart(core);
    var last := DropPart(rest);
    var _ := SplitFirst(last, ".");
  }

  /** A text with several parts is its first part, a dot, and the text of the other parts. */
  lemma DropPart(s: string) returns (rest: string)
    requires |Split(s, ".")| > 1
    ensures s == Split(s, ".")[0] + "." + rest && Split(rest, ".") == Split(s, ".")[1..]
  {
    var t := SplitFirst(s, ".");
    rest := t[1..];
    assert t == "." + rest;
    Associative(Split(s, ".")[0], ".", rest);
  }

  lemma PinIsRelease(p: string)
    requires ExactSemverPin(p) == Some(p) && Concrete(p)
    ensures exists major, minor, patch, suffix :: Release(p, major, minor, patch, suffix)
  {
    var t := SplitFirst(p, "-+");
    var core := Split(p, "-+")[0];
    var parts := Split(core, ".");
    ThreeParts(core);
    var suffix := if |Split(p, "-+")| == 1 then "" else t;
    assert p == core + suffix;
    SuffixOfConcrete(p, core, suffix);
    assert Release(p, parts[0], parts[1], parts[2], suffix);
  }

  /** What a wildcard-free text leaves after a prefix and a separator is wildcard-free. */
  lemma SuffixOfConcrete(p: string, core: string, suffix: string)
    requires AllOf(IsVersionChar, p) && !HasWildcardComponent(p) && p == core + suffix
    requires suffix == [] || suffix[0] in "-+"
    ensures AllOf(IsVersionChar, suffix) && (suffix != [] ==> !HasWildcardComponent(suffix[1..]))
  {
    assert forall i :: 0 <= i < |suffix| ==> suffix[i] == p[|core| + i];
    if suffix != [] {
      assert p == core + [suffix[0]] + suffix[1..];
      WildcardConcat(core, suffix[0], suffix[1..]);
    }
  }

  /** The pins are exactly the texts that spell a full release without a wildcard part. */
  lemma SemverPinIff(spec: string, p: string)
    ensures ExactSemverPin(spec) == Some(p)
       <==> ((exists a, marks, b, z :: Spells(spec, a, marks, b, p, z))
             && exists major, minor, patch, suffix :: Release(p, major, minor, patch, suffix))
  {
    ExactVersionIff(spec, p);
    if exists major, minor, patch, suffix :: Release(p, major, minor, patch, suffix) {
      var major, minor, patch, suffix :| Release(p, major, minor, patch, suffix);
      ReleaseIsConcrete(p, major, minor, patch, suffix);
      CoreParts(major, minor, patch);
    } else if ExactSemverPin(spec) == Some(p) {
      ExactVersionRetracts(spec);
      PinIsRelease(p);
    }
  }

  lemma SemverPinRetracts(spec: string)
    requires ExactSemverPin(spec).Some?
    ensures ExactSemverPin(ExactSemverPin(spec).value) == ExactSemverPin(spec)
  {
    ExactVersionRetracts(spec);
  }

  // ---- Semantic Versioning ----

  /** Sections 2, 9 and 10 of Semantic Versioning 2.0.0: a numeric core, then dot-separated
      pre-release and build identifiers over letters, digits and hyphens. */
  datatype Version = Version(major: nat, minor: nat, patch: nat, pre: seq<string>, build: seq<string>)

  predicate Identifier(s: string) { s != [] && forall i :: 0 <= i < |s| ==> IsAlphanumeric(s[i]) || s[i] == '-' }

  predicate WellFormed(v: Version) {
    (forall s :: s in v.pre ==> Identifier(s)) && (forall s :: s in v.build ==> Identifier(s))
  }

  /** Each identifier preceded by a dot, the first by `lead`. */
  function Tail(lead: char, ids: seq<string>): string
    decreases ids
  {
    if ids == [] then "" else [lead] + ids[0] + Tail('.', ids[1..])
  }

  function Print(v: Version): string {
    Core(Decimal(v.major), Decimal(v.minor), Decimal(v.patch)) + (Tail('-', v.pre) + Tail('+', v.build))
  }

  ghost predicate NoWildcard(ids: seq<string>) { forall s :: s in ids ==> !HasWildcardComponent(s) }

  /** A tail put after any text adds the wildcards of its identifiers. */
  lemma {:induction false} WildcardTail(u: string, lead: char, ids: seq<string>)
    requires lead in SEPARATORS
    ensures HasWildcardComponent(u + Tail(lead, ids)) <==> HasWildcardComponent(u) || !NoWildcard(ids)
    decreases ids
  {
    if ids == [] {
      assert u + Tail(lead, ids) == u;
    } else {
      var v := u + [lead] + ids[0];
      assert u + Tail(lead, ids) == v + Tail('.', ids[1..]);
      WildcardTail(v, '.', ids[1..]);
      WildcardConcat(u, lead, ids[0]);
      assert forall s :: s in ids <==> s == ids[0] || s in ids[1..];
    }
  }

  lemma {:induction false} TailChars(lead: char, ids: seq<string>)
    requires lead in SEPARATORS && forall s :: s in ids ==> Identifier(s)
    ensures AllOf(IsVersionChar, Tail(lead, ids))
    ensures ids != [] ==> Tail(lead, ids) != [] && Tail(lead, ids)[0] == lead
    decreases ids
  {
    if ids != [] {
      TailChars('.', ids[1..]);
      assert Identifier(ids[0]);
    }
  }

  lemma PrintedWildcards(v: Version)
    ensures HasWildcardComponent(Print(v)) <==> !NoWildcard(v.pre) || !NoWildcard(v.build)
  {
    var core := Core(Decimal(v.major), Decimal(v.minor), Decimal(v.patch));
    CoreParts(Decimal(v.major), Decimal(v.minor), Decimal(v.patch));
    WildcardTail(core, '-', v.pre);
    WildcardTail(core + Tail('-', v.pre), '+', v.build);
    assert Print(v) == core + Tail('-', v.pre) + Tail('+', v.build);
  }

  lemma PrintedChars(v: Version)
    requires WellFormed(v)
    ensures Print(v) != [] && IsDigit(Print(v)[0]) && AllOf(IsVersionChar, Print(v))
  {
    var major := Decimal(v.major);
    CoreParts(major, Decimal(v.minor), Decimal(v.patch));
    TailChars('-', v.pre);
    TailChars('+', v.build);
    assert Print(v)[0] == major[0];
  }

  lemma PrintedRelease(v: Version)
    requires WellFormed(v) && NoWildcard(v.pre) && NoWildcard(v.build)
    ensures Release(Print(v), Decimal(v.major), Decimal(v.minor), Decimal(v.patch),
                    Tail('-', v.pre) + Tail('+', v.build))
  {
    var core := Core(Decimal(v.major), Decimal(v.minor), Decimal(v.patch));
    var suffix := Tail('-', v.pre) + Tail('+', v.build);
    TailChars('-', v.pre);
    TailChars('+', v.build);
    if suffix != [] {
      PrintedWildcards(v);
      assert Print(v) == core + [suffix[0]] + suffix[1..];
      WildcardConcat(core, suffix[0], suffix[1..]);
    }
  }

  /** Every semantic version is pinned as printed, unless a hyphen-separated piece of an identifier
      is a bare `x` or `X`; such versions are valid and are refused. */
  lemma PrintedVersionPinnedIff(v: Version)
    requires WellFormed(v)
    ensures ExactSemverPin(Print(v)) == if NoWildcard(v.pre) && NoWildcard(v.build) then Some(Print(v)) else None
  {
    PrintedChars(v);
    PrintedWildcards(v);
    ExactVersionOfBare(Print(v));
    if NoWildcard(v.pre) && NoWildcard(v.build) {
      PrintedRelease(v);
      var suffix := Tail('-', v.pre) + Tail('+', v.build);
      ReleaseIsConcrete(Print(v), Decimal(v.major), Decimal(v.minor), Decimal(v.patch), suffix);
      CoreParts(Decimal(v.major), Decimal(v.minor), Decimal(v.patch));
    }
  }

  /** A printed release without suffixes is always pinned. */
  lemma PrintedReleasePinned(major: nat, minor: nat, patch: nat)
    ensures ExactSemverPin(Core(Decimal(major), Decimal(minor), Decimal(patch)))
         == Some(Core(Decimal(major), Decimal(minor), Decimal(patch)))
  {
    var v := Version(major, minor, patch, [], []);
    PrintedVersionPinnedIff(v);
    var core := Core(Decimal(major), Decimal(minor), Decimal(patch));
    assert Print(v) == core;
  }

  /** A valid pre-release, `1.2.3-x` for one, that is refused. */
  lemma BareXIsRefused(major: nat, minor: nat, patch: nat)
    ensures WellFormed(Version(major, minor, patch, ["x"], []))
    ensures ExactSemverPin(Print(Version(major, minor, patch, ["x"], []))) == None
  {
    var v := Version(major, minor, patch, ["x"], []);
    PrintedVersionPinnedIff(v);
    WildcardFree("x");
    assert v.pre[0] == "x";
  }

  // ---- Which pins are semantic versions ----

  /** No leading zero, unless zero is all there is. */
  predicate Plain(s: string) { |s| <= 1 || s[0] != '0' }

  /** Section 9 of Semantic Versioning 2.0.0 adds that numeric pre-release identifiers are plain. */
  predicate Semantic(v: Version) {
    WellFormed(v) && forall s :: s in v.pre && AllDigits(s) ==> Plain(s)
  }

  /** `str::split_once` */
  function Cut(s: string, c: char): (string, Option<string>) {
    match Find(s, c)
    case None => (s, None)
    case Some(i) => (s[..i], Some(s[i + 1..]))
  }

  /** The text as core, pre-release part and build part: cut at the first plus, then at the first hyphen. */
  function Pieces(p: string): (string, Option<string>, Option<string>) {
    var (head, build) := Cut(p, '+');
    var (core, pre) := Cut(head, '-');
    (core, pre, build)
  }

  /** No dot-separated identifier is empty or leaves letters, digits and hyphens. */
  predicate Identifiers(part: Option<string>) {
    part.Some? ==> forall s :: s in Split(part.value, ".") ==> Identifier(s)
  }

  /** What a pin still has to meet: no empty or ill-spelled identifier, and no leading zeros in the
      core or in a numeric pre-release identifier. */
  predicate SemanticText(p: string) {
    var (core, pre, build) := Pieces(p);
    && (forall n :: n in Split(core, ".") ==> Plain(n))
    && Identifiers(pre) && Identifiers(build)
    && (pre.Some? ==> forall s :: s in Split(pre.value, ".") && AllDigits(s) ==> Plain(s))
  }

  lemma {:induction false} FindFirst(s: string, c: char)
    ensures Find(s, c) == None ==> c !in s
    ensures Find(s, c).Some? ==> Find(s, c).value < |s| && s[Find(s, c).value] == c && c !in s[..Find(s, c).value]
  {
    if s != [] && s[0] != c {
      FindFirst(s[1..], c);
      if Find(s[1..], c).Some? {
        var i := Find(s[1..], c).value;
        assert s[..i + 1] == [s[0]] + s[1..][..i];
      } else {
        assert s == [s[0]] + s[1..];
      }
    }
  }

  lemma CutRejoins(s: string, c: char)
    ensures c !in Cut(s, c).0
    ensures s == Cut(s, c).0 + match Cut(s, c).1 case None => "" case Some(t) => [c] + t
  {
    FindFirst(s, c);
    if Find(s, c).Some? {
      var i := Find(s, c).value;
      assert s == s[..i] + ([s[i]] + s[i + 1..]);
    } else {
      assert s + "" == s;
    }
  }

  lemma {:induction false} FindAfter(a: string, c: char, t: string)
    requires c !in a
    ensures Find(a + [c] + t, c) == Some(|a|)
  {
    var s := a + [c] + t;
    if a != [] {
      FindAfter(a[1..], c, t);
      assert s[1..] == a[1..] + [c] + t;
      assert s[0] == a[0] && a[0] in a;
    }
  }

  lemma {:induction false} NotFound(a: string, c: char)
    requires c !in a
    ensures Find(a, c) == None
  {
    if a != [] {
      NotFound(a[1..], c);
      assert a[0] in a;
    }
  }

  function Introduced(c: char, part: Option<string>): string {
    match part case None => "" case Some(t) => [c] + t
  }

  lemma CutIntroduced(a: string, c: char, part: Option<string>)
    requires c !in a
    ensures Cut(a + Introduced(c, part), c) == (a, part)
  {
    match part
    case None =>
      assert a + "" == a;
      NotFound(a, c);
    case Some(t) =>
      assert a + ([c] + t) == a + [c] + t;
      FindAfter(a, c, t);
  }

  lemma PiecesOf(core: string, pre: Option<string>, build: Option<string>)
    requires '+' !in core && '-' !in core && (pre.Some? ==> '+' !in pre.value)
    ensures Pieces(core + (Introduced('-', pre) + Introduced('+', build))) == (core, pre, build)
  {
    var head := core + Introduced('-', pre);
    Associative(core, Introduced('-', pre), Introduced('+', build));
    CutIntroduced(head, '+', build);
    CutIntroduced(core, '-', pre);
  }

  lemma PiecesRejoin(p: string)
    ensures var (core, pre, build) := Pieces(p);
            '+' !in core && '-' !in core && p == core + (Introduced('-', pre) + Introduced('+', build))
  {
    CutRejoins(p, '+');
    var (head, build) := Cut(p, '+');
    CutRejoins(head, '-');
    var (core, pre) := Cut(head, '-');
    assert forall c :: c in core ==> c in head;
    Associative(core, Introduced('-', pre), Introduced('+', build));
  }

  // ---- Identifiers joined and split ----

  function Join(ids: seq<string>): string
    requires ids != []
  {
    ids[0] + Tail('.', ids[1..])
  }

  lemma IdentifierIsDotFree(s: string)
    requires Identifier(s)
    ensures Free(s, ".") && '+' !in s
  {
  }

  lemma {:induction false} SplitJoin(ids: seq<string>)
    requires ids != [] && forall s :: s in ids ==> Identifier(s)
    ensures Split(Join(ids), ".") == ids && '+' !in Join(ids)
  {
    IdentifierIsDotFree(ids[0]);
    if |ids| == 1 {
      assert ids[0] + Tail('.', ids[1..]) == ids[0];
      SplitWhole(ids[0], ".");
    } else {
      SplitJoin(ids[1..]);
      var rest := Join(ids[1..]);
      assert Tail('.', ids[1..]) == ['.'] + rest;
      assert Join(ids) == ids[0] + ['.'] + rest;
      SplitField(ids[0], '.', rest, ".");
    }
  }

  lemma {:induction false} JoinSplit(t: string)
    ensures Join(Split(t, ".")) == t
    decreases |Split(t, ".")|
  {
    var ids := Split(t, ".");
    if |ids| == 1 {
      var _ := SplitFirst(t, ".");
      assert ids[0] + Tail('.', ids[1..]) == ids[0];
    } else {
      var rest := DropPart(t);
      JoinSplit(rest);
      assert Tail('.', ids[1..]) == ['.'] + Join(ids[1..]);
    }
  }

  /** The part that a list of identifiers prints after its separator. */
  function PartOf(ids: seq<string>): Option<string> { if ids == [] then None else Some(Join(ids)) }

  lemma TailIsIntroduced(c: char, ids: seq<string>)
    ensures Tail(c, ids) == Introduced(c, PartOf(ids))
  {
    if ids != [] {
      Associative([c], ids[0], Tail('.', ids[1..]));
    }
  }

  lemma PartIsSplit(ids: seq<string>)
    requires forall s :: s in ids ==> Identifier(s)
    ensures Identifiers(PartOf(ids))
    ensures ids != [] ==> Split(PartOf(ids).value, ".") == ids && '+' !in PartOf(ids).value
  {
    if ids != [] {
      SplitJoin(ids);
    }
  }

  function IdsOf(part: Option<string>): seq<string> {
    match part case None => [] case Some(t) => Split(t, ".")
  }

  lemma PartOfIds(part: Option<string>)
    ensures PartOf(IdsOf(part)) == part
  {
    if part.Some? {
      JoinSplit(part.value);
    }
  }

  // ---- Plain numbers are printed numbers ----

  lemma PlainDecimal(n: nat)
    ensures Plain(Decimal(n)) && IsNumeric(Decimal(n))
  {
    ValueOfDecimal(n);
  }

  lemma {:induction false} DecimalOfValue(s: string)
    requires IsNumeric(s) && Plain(s)
    ensures Decimal(Value(s)) == s && (s[0] != '0' ==> Value(s) > 0)
  {
    var init, last := s[..|s| - 1], s[|s| - 1];
    if |s| > 1 {
      DecimalOfValue(init);
      assert s == init + [last];
    }
  }

  // ---- The two directions ----

  lemma PrintedPieces(v: Version)
    requires WellFormed(v)
    ensures Pieces(Print(v))
         == (Core(Decimal(v.major), Decimal(v.minor), Decimal(v.patch)), PartOf(v.pre), PartOf(v.build))
  {
    var core := Core(Decimal(v.major), Decimal(v.minor), Decimal(v.patch));
    CoreParts(Decimal(v.major), Decimal(v.minor), Decimal(v.patch));
    assert '+' in "-+" && '-' in "-+" by { assert "-+"[0] == '-' && "-+"[1] == '+'; }
    TailIsIntroduced('-', v.pre);
    TailIsIntroduced('+', v.build);
    PartIsSplit(v.pre);
    PiecesOf(core, PartOf(v.pre), PartOf(v.build));
  }

  lemma PrintIsSemanticText(v: Version)
    requires Semantic(v)
    ensures SemanticText(Print(v))
  {
    PrintedPieces(v);
    PlainDecimal(v.major);
    PlainDecimal(v.minor);
    PlainDecimal(v.patch);
    CoreParts(Decimal(v.major), Decimal(v.minor), Decimal(v.patch));
    PartIsSplit(v.pre);
    PartIsSplit(v.build);
  }

  /** The core of a pin is three numbers. */
  lemma PinnedCore(p: string) returns (major: string, minor: string, patch: string)
    requires ExactSemverPin(p) == Some(p)
    ensures IsNumeric(major) && IsNumeric(minor) && IsNumeric(patch)
    ensures Pieces(p).0 == Core(major, minor, patch) && Split(Pieces(p).0, ".") == [major, minor, patch]
  {
    var (core, pre, build) := Pieces(p);
    PiecesRejoin(p);
    FirstPiece(core, pre, build);
    var parts := Split(core, ".");
    ThreeParts(core);
    major, minor, patch := parts[0], parts[1], parts[2];
  }

  lemma FirstPiece(core: string, pre: Option<string>, build: Option<string>)
    requires '+' !in core && '-' !in core
    ensures Split(core + (Introduced('-', pre) + Introduced('+', build)), "-+")[0] == core
  {
    var rest := Introduced('-', pre) + Introduced('+', build);
    assert Free(core, "-+");
    if rest == [] {
      assert core + rest == core;
      SplitWhole(core, "-+");
    } else {
      assert rest[0] in "-+" by { assert "-+"[0] == '-' && "-+"[1] == '+'; }
      assert core + rest == core + [rest[0]] + rest[1..];
      SplitField(core, rest[0], rest[1..], "-+");
    }
  }

  /** The version a pin with semantic text spells. */
  lemma SpelledVersion(p: string) returns (v: Version)
    requires ExactSemverPin(p) == Some(p) && SemanticText(p)
    ensures Semantic(v) && Print(v) == p
  {
    var (core, pre, build) := Pieces(p);
    var major, minor, patch := PinnedCore(p);
    assert major in Split(core, ".") && minor in Split(core, ".") && patch in Split(core, ".");
    DecimalOfValue(major);
    DecimalOfValue(minor);
    DecimalOfValue(patch);
    v := Version(Value(major), Value(minor), Value(patch), IdsOf(pre), IdsOf(build));
    PartOfIds(pre);
    PartOfIds(build);
    TailIsIntroduced('-', v.pre);
    TailIsIntroduced('+', v.build);
    PiecesRejoin(p);
  }

  /** A pin is the print of a semantic version exactly when none of its numbers has a leading zero,
      and none of its identifiers is empty or has an underscore or a second plus. */
  lemma PinIsSemanticIff(p: string)
    requires ExactSemverPin(p) == Some(p)
    ensures (exists v :: Semantic(v) && Print(v) == p) <==> SemanticText(p)
  {
    if v :| Semantic(v) && Print(v) == p {
      PrintIsSemanticText(v);
    }
    if SemanticText(p) {
      var v := SpelledVersion(p);
    }
  }

  lemma ReleaseIsPinned(p: string, major: string, minor: string, patch: string, suffix: string)
    requires Release(p, major, minor, patch, suffix)
    ensures ExactSemverPin(p) == Some(p)
  {
    ReleaseIsConcrete(p, major, minor, patch, suffix);
    ExactVersionOfBare(p);
    CoreParts(major, minor, patch);
  }

  lemma BareHyphenReleases(a: string, b: string, c: string)
    requires IsNumeric(a) && IsNumeric(b) && IsNumeric(c)
    ensures Release(Core(a, b, c) + "-", a, b, c, "-")
  {
    SplitWhole("", SEPARATORS);
    assert "-"[1..] == "" && "-+"[0] == '-';
  }

  lemma BareHyphenIsNotSemantic(core: string)
    requires '+' !in core && '-' !in core
    ensures !SemanticText(core + "-")
  {
    PiecesOf(core, Some(""), None);
    assert Introduced('-', Some("")) + Introduced('+', None) == "-";
    assert "" in Split("", ".");
  }

  /** A release with a bare hyphen after it is pinned and is no semantic version. */
  lemma BareHyphenIsPinned(major: nat, minor: nat, patch: nat)
    ensures var p := Core(Decimal(major), Decimal(minor), Decimal(patch)) + "-";
            ExactSemverPin(p) == Some(p) && !exists v :: Semantic(v) && Print(v) == p
  {
    hide SemanticText, Release, ExactSemverPin, Semantic, Print;
    var a, b, c := Decimal(major), Decimal(minor), Decimal(patch);
    CoreParts(a, b, c);
    BareHyphenReleases(a, b, c);
    ReleaseIsPinned(Core(a, b, c) + "-", a, b, c, "-");
    assert "-+"[0] == '-' && "-+"[1] == '+';
    BareHyphenIsNotSemantic(Core(a, b, c));
    PinIsSemanticIff(Core(a, b, c) + "-");
  }

  // ---- npm aliases ----

  /** A package name as an alias may carry it: an at sign only in front, for a scope. */
  ghost predicate PackageName(name: string) {
    forall i :: 0 < i < |name| ==> name[i] != '@'
  }

  function PrintAlias(name: string, version: Option<string>): string {
    "npm:" + (name + match version case None => "" case Some(v) => "@" + v)
  }

  /** The version starts at the first at sign that is not the scope's. */
  lemma VersionAtFirst(rest: string)
    ensures VersionAt(rest) == None ==> PackageName(rest)
    ensures VersionAt(rest).Some? ==>
              var i := VersionAt(rest).value; 0 < i < |rest| && rest[i] == '@' && PackageName(rest[..i])
  {
    if rest != [] && rest[0] == '@' {
      FindFirst(rest[1..], '@');
      assert forall k :: 0 < k < |rest| ==> rest[k] == rest[1..][k - 1];
      if Find(rest[1..], '@').Some? {
        var j := Find(rest[1..], '@').value;
        assert forall k :: 0 < k < j + 1 ==> rest[k] == rest[1..][..j][k - 1];
      }
    } else {
      FindFirst(rest, '@');
    }
  }

  /** Aliases are read back exactly as they are printed, for scoped and plain names alike. A name
      may be empty only when no version follows it. */
  lemma AliasIff(spec: string, name: string, version: Option<string>)
    ensures NpmAliasTarget(spec) == Some((name, version))
       <==> (spec == PrintAlias(name, version) && PackageName(name) && (name != [] || version == None))
  {
    if "npm:" <= spec {
      VersionAtFirst(spec[4..]);
      assert spec == "npm:" + spec[4..];
    }
    if spec == PrintAlias(name, version) && PackageName(name) && (name != [] || version == None) {
      AliasReadBack(name, version);
    }
  }

  lemma AliasReadBack(name: string, version: Option<string>)
    requires PackageName(name) && (name != [] || version == None)
    ensures NpmAliasTarget(PrintAlias(name, version)) == Some((name, version))
  {
    var spec := PrintAlias(name, version);
    var rest := spec[4..];
    VersionAtFirst(rest);
    match version
    case None =>
      assert rest == name;
    case Some(v) =>
      assert rest == name + ("@" + v);
      assert rest[|name|] == '@';
      SameFirst(rest, |name|);
      assert rest[..|name|] == name && rest[|name| + 1..] == v;
  }

  lemma SameFirst(rest: string, i: nat)
    requires 0 < i < |rest| && rest[i] == '@' && PackageName(rest[..i])
    ensures VersionAt(rest) == Some(i)
  {
    VersionAtFirst(rest);
    if VersionAt(rest).Some? {
      var j := VersionAt(rest).value;
      assert forall k :: 0 < k < i ==> rest[..i][k] == rest[k];
      assert forall k :: 0 < k < j ==> rest[..j][k] == rest[k];
    }
  }
}
