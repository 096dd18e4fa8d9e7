/** The string operations of the standard library that several kernels share. */
module Text {

  /** Unicode White_Space. */
  predicate IsWhitespace(c: char) {
    var n := c as int;
    0x09 <= n <= 0x0D || n == 0x20 || n == 0x85 || n == 0xA0 || n == 0x1680 || 0x2000 <= n <= 0x200A
    || n == 0x2028 || n == 0x2029 || n == 0x202F || n == 0x205F || n == 0x3000
  }

  function DropWhile(p: char -> bool, s: string): string {
    if s != [] && p(s[0]) then DropWhile(p, s[1..]) else s
  }

  function TrimStart(s: string): string { DropWhile(IsWhitespace, s) }

  function TrimEnd(s: string): string {
    if s != [] && IsWhitespace(s[|s| - 1]) then TrimEnd(s[..|s| - 1]) else s
  }

  function Trim(s: string): string { TrimEnd(TrimStart(s)) }

  predicate AllOf(p: char -> bool, s: string) { forall i :: 0 <= i < |s| ==> p(s[i]) }

  predicate Blank(s: string) { AllOf(IsWhitespace, s) }

  lemma {:induction false} DropWhileDrops(p: char -> bool, a: string, s: string)
    requires AllOf(p, a) && (s == [] || !p(s[0]))
    ensures DropWhile(p, a + s) == s
  {
    if a == [] {
      assert a + s == s;
    } else {
      DropWhileDrops(p, a[1..], s);
      assert (a + s)[1..] == a[1..] + s;
    }
  }

  lemma {:induction false} DropWhileKeeps(p: char -> bool, s: string) returns (a: string)
    ensures AllOf(p, a) && s == a + DropWhile(p, s)
    ensures DropWhile(p, s) == [] || !p(DropWhile(p, s)[0])
  {
    if s != [] && p(s[0]) {
      a := DropWhileKeeps(p, s[1..]);
      a := [s[0]] + a;
    } else {
      a := [];
    }
  }

  lemma {:induction false} TrimEndDrops(s: string, z: string)
    requires Blank(z) && (s == [] || !IsWhitespace(s[|s| - 1]))
    ensures TrimEnd(s + z) == s
  {
    if z == [] {
      assert s + z == s;
    } else {
      TrimEndDrops(s, z[..|z| - 1]);
      assert (s + z)[..|s + z| - 1] == s + z[..|z| - 1];
    }
  }

  lemma {:induction false} TrimEndKeeps(s: string) returns (z: string)
    ensures Blank(z) && s == TrimEnd(s) + z
    ensures TrimEnd(s) == [] || !IsWhitespace(TrimEnd(s)[|TrimEnd(s)| - 1])
  {
    if s != [] && IsWhitespace(s[|s| - 1]) {
      z := TrimEndKeeps(s[..|s| - 1]);
      z := z + [s[|s| - 1]];
    } else {
      z := [];
    }
  }

  /** `str::trim` removes exactly the white space around a text that has none at its ends. */
  lemma TrimDrops(a: string, s: string, z: string)
    requires Blank(a) && Blank(z)
    requires s != [] && !IsWhitespace(s[0]) && !IsWhitespace(s[|s| - 1])
    ensures Trim(a + s + z) == s
  {
    assert a + s + z == a + (s + z);
    DropWhileDrops(IsWhitespace, a, s + z);
    TrimEndDrops(s, z);
  }

  lemma TrimKeeps(s: string) returns (a: string, z: string)
    ensures Blank(a) && Blank(z) && s == a + Trim(s) + z
  {
    a := DropWhileKeeps(IsWhitespace, s);
    z := TrimEndKeeps(TrimStart(s));
  }

  function LowerChar(c: char): char {
    if 'A' <= c <= 'Z' then (c as int + 32) as char else c
  }

  function Lower(s: string): string {
    seq(|s|, i requires 0 <= i < |s| => LowerChar(s[i]))
  }

  /** One ASCII letter in two cases, or the same character. */
  predicate SameLetter(a: char, b: char) {
    a == b || ('A' <= a <= 'Z' && b as int == a as int + 32) || ('A' <= b <= 'Z' && a as int == b as int + 32)
  }

  predicate SameUpToCase(a: string, b: string) {
    |a| == |b| && forall i :: 0 <= i < |a| ==> SameLetter(a[i], b[i])
  }

  lemma LowerCharIff(a: char, b: char)
    ensures LowerChar(a) == LowerChar(b) <==> SameLetter(a, b)
  {
  }

  /** Equal in lower case is equal up to ASCII case. */
  lemma LowerEqualIff(a: string, b: string)
    ensures Lower(a) == Lower(b) <==> SameUpToCase(a, b)
  {
    if Lower(a) == Lower(b) {
      forall i | 0 <= i < |a| ensures |a| == |b| && SameLetter(a[i], b[i]) {
        assert |Lower(a)| == |Lower(b)| && Lower(a)[i] == Lower(b)[i];
        LowerCharIff(a[i], b[i]);
      }
      assert |Lower(a)| == |Lower(b)|;
    }
    if SameUpToCase(a, b) {
      forall i | 0 <= i < |a| ensures Lower(a)[i] == Lower(b)[i] {
        LowerCharIff(a[i], b[i]);
      }
    }
  }

  /** Length of the UTF-8 encoding, which is what `str::len` reports. */
  function ByteLength(s: string): nat {
    if s == [] then 0
    else
      var n := s[|s| - 1] as int;
      ByteLength(s[..|s| - 1]) + (if n < 0x80 then 1 else if n < 0x800 then 2 else if n < 0x10000 then 3 else 4)
  }

  // ---- Splitting ----

  /** `str::split` on a set of separator characters: always at least one, possibly empty, part. */
  function Split(s: string, seps: string): (parts: seq<string>)
    ensures parts != []
  {
    if s == [] then [""]
    else if s[0] in seps then [""] + Split(s[1..], seps)
    else Grow(s[0], Split(s[1..], seps))
  }

  /** The parts with one more character at the front of the first. */
  function Grow(c: char, parts: seq<string>): (r: seq<string>)
    requires parts != []
    ensures |r| == |parts| && r[0] == [c] + parts[0] && r[1..] == parts[1..]
  {
    [[c] + parts[0]] + parts[1..]
  }

  lemma GrowConcat(c: char, a: seq<string>, b: seq<string>)
    requires a != []
    ensures Grow(c, a + b) == Grow(c, a) + b
  {
    assert (a + b)[0] == a[0];
    assert (a + b)[1..] == a[1..] + b;
  }

  /** Shares no character with the separators. */
  predicate Free(s: string, seps: string) { forall c :: c in s ==> c !in seps }

  lemma {:induction false} SplitWhole(u: string, seps: string)
    requires Free(u, seps)
    ensures Split(u, seps) == [u]
  {
    if u != [] {
      SplitWhole(u[1..], seps);
      assert [u[0]] + u[1..] == u;
    }
  }

  /** Splitting at one more separator concatenates the parts of the two sides. */
  lemma {:induction false} SplitConcat(u: string, sep: char, t: string, seps: string)
    requires sep in seps
    ensures Split(u + [sep] + t, seps) == Split(u, seps) + Split(t, seps)
  {
    var s := u + [sep] + t;
    if u == [] {
      assert s[1..] == t;
    } else {
      SplitConcat(u[1..], sep, t, seps);
      assert s[1..] == u[1..] + [sep] + t;
      var left, right := Split(u[1..], seps), Split(t, seps);
      if u[0] in seps {
        assert [""] + (left + right) == [""] + left + right;
      } else {
        GrowConcat(u[0], left, right);
      }
    }
  }

  lemma SplitField(u: string, sep: char, t: string, seps: string)
    requires Free(u, seps) && sep in seps
    ensures Split(u + [sep] + t, seps) == [u] + Split(t, seps)
  {
    SplitConcat(u, sep, t, seps);
    SplitWhole(u, seps);
  }

  /** The first part ends at the end of the text or at a separator, and the rest is split alike. */
  lemma {:induction false} SplitFirst(s: string, seps: string) returns (t: string)
    ensures Free(Split(s, seps)[0], seps)
    ensures |Split(s, seps)| == 1 ==> s == Split(s, seps)[0]
    ensures |Split(s, seps)| > 1 ==>
              t != [] && t[0] in seps && s == Split(s, seps)[0] + t && Split(t[1..], seps) == Split(s, seps)[1..]
  {
    if s == [] {
      t := [];
    } else if s[0] in seps {
      t := s;
    } else {
      t := SplitFirst(s[1..], seps);
    }
  }

  // ---- Decimal numbers ----

  predicate IsDigit(c: char) { '0' <= c <= '9' }

  predicate AllDigits(s: string) { AllOf(IsDigit, s) }

  function Value(s: string): nat
    requires AllDigits(s)
  {
    if s == [] then 0 else Value(s[..|s| - 1]) * 10 + (s[|s| - 1] as int - '0' as int)
  }

  function Decimal(n: nat): (s: string)
    ensures s != [] && AllDigits(s)
  {
    var last := ('0' as int + n % 10) as char;
    if n < 10 then [last] else Decimal(n / 10) + [last]
  }

  lemma {:induction false} ValueOfDecimal(n: nat)
    ensures Value(Decimal(n)) == n
    ensures |Decimal(n)| > 1 ==> Decimal(n)[0] != '0'
  {
    if n >= 10 {
      ValueOfDecimal(n / 10);
      var s := Decimal(n);
      assert s[..|s| - 1] == Decimal(n / 10);
      if n / 10 < 10 {
        assert Decimal(n / 10)[0] as int == '0' as int + n / 10;
      }
    }
  }

  lemma {:induction false} DecimalLength(n: nat, bound: nat)
    requires n < Power10(bound) && bound > 0
    ensures |Decimal(n)| <= bound
  {
    if n >= 10 {
      DecimalLength(n / 10, bound - 1);
    }
  }

  ghost function Power10(k: nat): (p: nat)
    ensures p > 0
  {
    if k == 0 then 1 else 10 * Power10(k - 1)
  }
}
