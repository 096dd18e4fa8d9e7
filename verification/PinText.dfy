/** Version pins by the places of their characters: what is accepted, without naming the parser's parts. */
module PinText {
  import opened Orders
  import opened Text
  import opened VersionPins

  predicate Digits(s: string, a: nat, b: nat)
    requires b <= |s|
  {
    a < b && forall i :: a <= i < b ==> '0' <= s[i] <= '9'
  }

  predicate Separates(c: char) { c == '.' || c == '-' || c == '+' }

  /** A letter `x` or a star at `i`, alone between separators or the ends. */
  predicate LoneAt(s: string, i: nat) {
    && i < |s| && (s[i] == 'x' || s[i] == 'X' || s[i] == '*')
    && (i == 0 || Separates(s[i - 1])) && (i + 1 == |s| || Separates(s[i + 1]))
  }

  ghost predicate LoneWildcard(s: string) {
    exists i: nat :: LoneAt(s, i)
  }

  lemma LoneInJoinAt(u: string, sep: char, t: string, i: nat)
    requires Separates(sep)
    ensures LoneAt(u + [sep] + t, i) <==> LoneAt(u, i) || (i > |u| && LoneAt(t, i - |u| - 1))
  {
    var s := u + [sep] + t;
    if i > |u| && i < |s| {
      assert s[i] == t[i - |u| - 1];
    }
  }

  lemma LoneInJoin(u: string, sep: char, t: string)
    requires Separates(sep)
    ensures LoneWildcard(u + [sep] + t) <==> LoneWildcard(u) || LoneWildcard(t)
  {
    hide LoneAt;
    forall i: nat ensures LoneAt(u + [sep] + t, i) <==> LoneAt(u, i) || (i > |u| && LoneAt(t, i - |u| - 1)) {
      LoneInJoinAt(u, sep, t, i);
    }
    if i: nat :| LoneAt(t, i) {
      assert (i + |u| + 1) - |u| - 1 == i;
      assert LoneAt(u + [sep] + t, i + |u| + 1);
    }
  }

  lemma LoneInFree(s: string)
    requires Free(s, SEPARATORS)
    ensures IsWildcard(s) <==> LoneWildcard(s)
  {
    if IsWildcard(s) {
      assert LoneAt(s, 0);
    }
    if i: nat :| LoneAt(s, i) {
      assert forall n :: 0 <= n < |s| ==> s[n] in s;
      assert s == [s[0]];
    }
  }

  lemma {:induction false} WildcardIsLone(s: string)
    ensures HasWildcardComponent(s) <==> LoneWildcard(s)
  {
    if k: nat :| k < |s| && s[k] in SEPARATORS {
      var u, t := s[..k], s[k + 1..];
      assert s == u + [s[k]] + t;
      WildcardConcat(u, s[k], t);
      WildcardIsLone(u);
      WildcardIsLone(t);
      LoneInJoin(u, s[k], t);
    } else {
      assert Free(s, SEPARATORS);
      WildcardFree(s);
      LoneInFree(s);
    }
  }

  /** The text is `p`, with equals signs and `v`s from `i` to `j` and white space around them and behind `p`. */
  ghost predicate Stands(spec: string, p: string, i: nat, j: nat, k: nat, l: nat) {
    && i <= j <= k <= l <= |spec| && spec[k..l] == p
    && (forall n :: 0 <= n < i ==> IsWhitespace(spec[n]))
    && (forall n :: i <= n < j ==> spec[n] == '=' || spec[n] == 'v')
    && (forall n :: j <= n < k ==> IsWhitespace(spec[n]))
    && (forall n :: l <= n < |spec| ==> IsWhitespace(spec[n]))
  }

  ghost predicate Marked(spec: string, p: string) {
    exists i: nat, j: nat, k: nat, l: nat :: Stands(spec, p, i, j, k, l)
  }

  /** A digit first, then letters, digits and `.-+_`, no wildcard alone between separators. */
  ghost predicate VersionText(p: string) {
    && p != [] && '0' <= p[0] <= '9'
    && (forall n :: 0 <= n < |p| ==>
          '0' <= p[n] <= '9' || 'a' <= p[n] <= 'z' || 'A' <= p[n] <= 'Z' || p[n] in ".-+_")
    && !LoneWildcard(p)
  }

  lemma ConcreteIsVersionText(p: string)
    ensures Concrete(p) <==> VersionText(p)
  {
    WildcardIsLone(p);
    assert forall c :: IsVersionChar(c) <==>
      ('0' <= c <= '9' || 'a' <= c <= 'z' || 'A' <= c <= 'Z' || c in ".-+_");
  }

  lemma SpelledStands(spec: string, a: string, marks: string, b: string, p: string, z: string)
    requires Spells(spec, a, marks, b, p, z)
    ensures Marked(spec, p)
  {
    var i, j, k := |a|, |a| + |marks|, |a| + |marks| + |b|;
    assert Stands(spec, p, i, j, k, k + |p|);
  }

  lemma StandsIsSpelled(spec: string, p: string, i: nat, j: nat, k: nat, l: nat)
    requires Stands(spec, p, i, j, k, l)
    ensures Spells(spec, spec[..i], spec[i..j], spec[j..k], p, spec[l..])
  {
  }

  /** Exactly what is accepted as an exact version, character by character. */
  lemma ExactVersionByCharacter(spec: string, p: string)
    ensures ExactVersion(spec) == Some(p)
       <==> VersionText(p) && Marked(spec, p)
  {
    hide ExactVersion, VersionText, Concrete;
    ExactVersionIff(spec, p);
    ConcreteIsVersionText(p);
    if a, marks, b, z :| Spells(spec, a, marks, b, p, z) {
      SpelledStands(spec, a, marks, b, p, z);
    }
    if Marked(spec, p) {
      var i: nat, j: nat, k: nat, l: nat :| Stands(spec, p, i, j, k, l);
      StandsIsSpelled(spec, p, i, j, k, l);
    }
  }

  ghost predicate StartsWithThreeNumbers(p: string) {
    exists a: nat, b: nat, c: nat :: ThreeNumbers(p, a, b, c)
  }

  /** `p` begins with three numbers, and what follows them starts with `-` or `+`. */
  ghost predicate ThreeNumbers(p: string, a: nat, b: nat, c: nat) {
    && a < b < c <= |p| && p[a] == '.' && p[b] == '.'
    && Digits(p, 0, a) && Digits(p, a + 1, b) && Digits(p, b + 1, c)
    && (c < |p| ==> p[c] in "-+")
  }

  lemma ReleaseHasThreeNumbers(p: string, major: string, minor: string, patch: string, suffix: string)
    requires Release(p, major, minor, patch, suffix)
    ensures StartsWithThreeNumbers(p)
  {
    var a := |major|;
    var b := a + 1 + |minor|;
    var c := b + 1 + |patch|;
    assert forall i :: 0 <= i < a ==> p[i] == major[i];
    assert forall i :: 0 <= i < |minor| ==> p[a + 1 + i] == minor[i];
    assert forall i :: 0 <= i < |patch| ==> p[b + 1 + i] == patch[i];
    forall i | a + 1 <= i < b ensures IsDigit(p[i]) { assert p[i] == minor[i - a - 1]; }
    forall i | b + 1 <= i < c ensures IsDigit(p[i]) { assert p[i] == patch[i - b - 1]; }
    assert ThreeNumbers(p, a, b, c);
  }

  lemma ThreeNumbersIsRelease(p: string, a: nat, b: nat, c: nat)
    requires ThreeNumbers(p, a, b, c) && Concrete(p)
    ensures Release(p, p[..a], p[a + 1..b], p[b + 1..c], p[c..])
  {
    var core := Core(p[..a], p[a + 1..b], p[b + 1..c]);
    assert p[..a] + "." + (p[a + 1..b] + "." + p[b + 1..c]) == p[..c];
    assert p == core + p[c..];
    SuffixOfConcrete(p, core, p[c..]);
  }

  /** A pin is an exact version that begins with three numbers. */
  lemma SemverPinByCharacter(spec: string, p: string)
    ensures ExactSemverPin(spec) == Some(p)
       <==> VersionText(p) && Marked(spec, p) && StartsWithThreeNumbers(p)
  {
    hide ExactVersion, ExactSemverPin, VersionText, Concrete, ThreeNumbers;
    ExactVersionByCharacter(spec, p);
    ExactVersionIff(spec, p);
    SemverPinIff(spec, p);
    ConcreteIsVersionText(p);
    if major, minor, patch, suffix :| Release(p, major, minor, patch, suffix) {
      ReleaseHasThreeNumbers(p, major, minor, patch, suffix);
      ReleaseIsConcrete(p, major, minor, patch, suffix);
    }
    if Concrete(p) && StartsWithThreeNumbers(p) {
      var a: nat, b: nat, c: nat :| ThreeNumbers(p, a, b, c);
      ThreeNumbersIsRelease(p, a, b, c);
    }
  }

  /** A text whose first character that is not white space is no digit, `=` or `v` is never a version,
      let alone a pin: no caret, tilde, comparison or tag is. */
  lemma OtherStartsAreRefused(spec: string, i: nat)
    requires i < |spec| && !IsWhitespace(spec[i]) && forall n :: 0 <= n < i ==> IsWhitespace(spec[n])
    requires !('0' <= spec[i] <= '9') && spec[i] != '=' && spec[i] != 'v'
    ensures ExactVersion(spec) == None && ExactSemverPin(spec) == None
  {
    hide ExactSemverPin, ExactVersion;
    if ExactVersion(spec).Some? {
      ExactVersionByCharacter(spec, ExactVersion(spec).value);
      StandsStart(spec, ExactVersion(spec).value, i);
      assert false;
    }
    PinIsVersion(spec);
  }

  lemma StandsStart(spec: string, p: string, i: nat)
    requires i < |spec| && !IsWhitespace(spec[i]) && forall n :: 0 <= n < i ==> IsWhitespace(spec[n])
    requires VersionText(p) && Marked(spec, p)
    ensures '0' <= spec[i] <= '9' || spec[i] == '=' || spec[i] == 'v'
  {
    var a: nat, j: nat, k: nat, l: nat :| Stands(spec, p, a, j, k, l);
    assert p[0] == spec[k];
    assert !IsWhitespace(p[0]);
    assert a <= i <= k;
  }

  lemma PinIsVersion(spec: string)
    ensures ExactVersion(spec) == None ==> ExactSemverPin(spec) == None
  {
  }
}
