/** The IPv4 noise filter (ioc_extraction.rs): string tests against the numeric ranges they stand for. */
module Ipv4 {
  import opened Orders
  import opened Text

  const KEEP: string := "169.254.169.254"

  const PREFIXES: seq<string> := ["127.", "0.0.0.0", "10.", "192.168.", "169.254."]

  /** `str::parse::<u8>`: one optional plus sign, at least one digit, and no overflow. */
  function ParseU8(s: string): Option<nat> {
    var digits := if s != [] && s[0] == '+' then s[1..] else s;
    if digits != [] && AllDigits(digits) && Value(digits) <= 255 then Some(Value(digits)) else None
  }

  predicate IsRfc1918Block172(ip: string) {
    var parts := Split(ip, ".");
    if |parts| < 2 || parts[0] != "172" then false
    else
      match ParseU8(parts[1])
      case Some(n) => 16 <= n <= 31
      case None => false
  }

  predicate IsNoise(ip: string) {
    if ip == KEEP then false
    else if ip == "0.0.0.0" then true
    else if exists k :: 0 <= k < |PREFIXES| && PREFIXES[k] <= ip then true
    else IsRfc1918Block172(ip)
  }

  // ---- The ranges, as numbers ----

  /** Loopback, the private blocks of section 3 of RFC 1918, the link-local block of section 2.1 of
      RFC 3927 without the metadata address, and the unspecified address. */
  predicate Reserved(a: nat, b: nat, c: nat, d: nat) {
    && (a, b, c, d) != (169, 254, 169, 254)
    && (a == 127 || a == 10 || (a, b) == (192, 168) || (a == 172 && 16 <= b <= 31) || (a, b) == (169, 254)
        || (a, b, c, d) == (0, 0, 0, 0))
  }

  /** What the address pattern lets through as one octet: up to three digits, at most 255, and
      possibly padded with zeros. */
  predicate Octet(s: string) { 1 <= |s| <= 3 && AllDigits(s) && Value(s) <= 255 }

  function Dotted(u: string, v: string, w: string, x: string): string {
    u + "." + (v + "." + (w + "." + x))
  }

  function Print(a: nat, b: nat, c: nat, d: nat): string {
    Dotted(Decimal(a), Decimal(b), Decimal(c), Decimal(d))
  }

  /** The zero-padded spellings on which the string tests and the numbers part: `010` is not the
      text of ten, a padded zero is not the text of zero, and a padded last octet starts like zero. */
  predicate Misread(u: string, v: string, w: string, x: string)
    requires Octet(u) && Octet(v) && Octet(w) && Octet(x)
  {
    || u == "010"
    || (Value(u) == Value(v) == Value(w) == Value(x) == 0 && !(u == v == w == "0"))
    || (u == v == w == "0" && x[0] == '0' && Value(x) != 0)
  }

  // ---- Text of one octet ----

  lemma ValueOfThree(s: string)
    requires AllDigits(s) && 1 <= |s| <= 3
    ensures |s| == 1 ==> Value(s) == D(s[0])
    ensures |s| == 2 ==> Value(s) == 10 * D(s[0]) + D(s[1])
    ensures |s| == 3 ==> Value(s) == 100 * D(s[0]) + 10 * D(s[1]) + D(s[2])
  {
    var t := s[..|s| - 1];
    if |s| >= 2 {
      var r := t[..|t| - 1];
      assert Value(t) == Value(r) * 10 + D(t[|t| - 1]);
      if |s| == 3 {
        assert Value(r) == D(r[0]) by { assert r[..0] == []; }
      }
    }
  }

  function D(c: char): int { c as int - '0' as int }

  /** A three-digit value has one spelling of at most three digits. */
  lemma OneSpelling(s: string, t: string)
    requires Octet(s) && Octet(t) && Value(t) >= 100
    ensures Value(s) == Value(t) <==> s == t
  {
    ValueOfThree(s);
    ValueOfThree(t);
    assert |t| == 3;
    if Value(s) == Value(t) {
      assert |s| == 3;
      assert D(s[0]) == D(t[0]);
      assert D(s[1]) == D(t[1]);
      assert s == t;
    }
  }

  lemma SpellingsOfTen(s: string)
    requires Octet(s)
    ensures Value(s) == 10 <==> s == "10" || s == "010"
  {
    ValueOfThree(s);
    if Value(s) == 10 {
      assert |s| >= 2;
      if |s| == 2 {
        assert s == "10";
      } else {
        assert s == "010";
      }
    }
  }

  lemma Literals()
    ensures Octet("127") && Octet("192") && Octet("168") && Octet("169") && Octet("254") && Octet("172") && Octet("0")
    ensures Value("127") == 127 && Value("192") == 192 && Value("168") == 168
    ensures Value("169") == 169 && Value("254") == 254 && Value("172") == 172 && Value("0") == 0
  {
    ValueOfThree("127");
    ValueOfThree("192");
    ValueOfThree("168");
    ValueOfThree("169");
    ValueOfThree("254");
    ValueOfThree("172");
    ValueOfThree("0");
  }

  // ---- Text of an address ----

  /** A field of digits is compared as a whole because the dot ends it. */
  lemma FieldPrefix(p: string, u: string, s: string, t: string)
    requires AllDigits(p) && AllDigits(u)
    ensures p + "." + s <= u + "." + t <==> p == u && s <= t
  {
    var a, b := p + "." + s, u + "." + t;
    if a <= b {
      var i := if |p| < |u| then |p| else |u|;
      assert a[i] == b[i];
      assert |p| == |u|;
      assert p == a[..|p|] == b[..|u|] == u;
      assert a[|p| + 1..] == s && b[|u| + 1..] == t;
    }
  }

  /** The first two fields of a dotted address. */
  lemma FirstTwoParts(u: string, v: string, w: string, x: string)
    requires AllDigits(u) && AllDigits(v)
    ensures var parts := Split(Dotted(u, v, w, x), "."); |parts| > 2 && parts[0] == u && parts[1] == v
  {
    var t := w + "." + x;
    SplitField(u, '.', v + "." + t, ".");
    SplitField(v, '.', t, ".");
  }

  lemma Block172Agrees(u: string, v: string, w: string, x: string)
    requires Octet(u) && Octet(v)
    ensures IsRfc1918Block172(Dotted(u, v, w, x)) <==> Value(u) == 172 && 16 <= Value(v) <= 31
  {
    FirstTwoParts(u, v, w, x);
    Literals();
    OneSpelling(u, "172");
  }

  /** Which addresses the first-octet prefixes select. */
  lemma OneFieldPrefixes(u: string, v: string, w: string, x: string)
    requires AllDigits(u)
    ensures "127." <= Dotted(u, v, w, x) <==> u == "127"
    ensures "10." <= Dotted(u, v, w, x) <==> u == "10"
  {
    var t := v + "." + (w + "." + x);
    OneField("127", u, t);
    OneField("10", u, t);
    assert "127" + "." == "127." && "10" + "." == "10.";
  }

  /** Which addresses the two-octet prefixes select. */
  lemma TwoFieldPrefixes(u: string, v: string, w: string, x: string)
    requires AllDigits(u) && AllDigits(v)
    ensures "192.168." <= Dotted(u, v, w, x) <==> u == "192" && v == "168"
    ensures "169.254." <= Dotted(u, v, w, x) <==> u == "169" && v == "254"
  {
    var t := w + "." + x;
    TwoFields("192", "168", u, v, t);
    TwoFields("169", "254", u, v, t);
    assert "192" + "." + "168" + "." == "192.168." && "169" + "." + "254" + "." == "169.254.";
  }

  lemma OneField(p: string, u: string, t: string)
    requires AllDigits(p) && AllDigits(u)
    ensures p + "." <= u + "." + t <==> p == u
  {
    FieldPrefix(p, u, "", t);
    assert p + "." + "" == p + ".";
  }

  lemma TwoFields(p: string, q: string, u: string, v: string, t: string)
    requires AllDigits(p) && AllDigits(q) && AllDigits(u) && AllDigits(v)
    ensures p + "." + q + "." <= u + "." + (v + "." + t) <==> p == u && q == v
  {
    FieldPrefix(p, u, q + ".", v + "." + t);
    OneField(q, v, t);
    assert p + "." + (q + ".") == p + "." + q + ".";
  }

  lemma ZeroPrefix(u: string, v: string, w: string, x: string)
    requires AllDigits(u) && AllDigits(v) && AllDigits(w) && x != []
    ensures "0.0.0.0" <= Dotted(u, v, w, x) <==> u == v == w == "0" && x[0] == '0'
  {
    FieldPrefix("0", u, "0.0.0", v + "." + (w + "." + x));
    FieldPrefix("0", v, "0.0", w + "." + x);
    FieldPrefix("0", w, "0", x);
    assert "0" + "." + "0.0.0" == "0.0.0.0" && "0" + "." + "0.0" == "0.0.0" && "0" + "." + "0" == "0.0";
    assert "0" <= x <==> x[0] == '0';
  }

  /** The two exact comparisons. */
  lemma ExactAddresses(u: string, v: string, w: string, x: string)
    requires Octet(u) && Octet(v) && Octet(w) && Octet(x)
    ensures Dotted(u, v, w, x) == KEEP <==> u == "169" && v == "254" && w == "169" && x == "254"
    ensures Dotted(u, v, w, x) == "0.0.0.0" ==> u == v == w == "0" && x[0] == '0'
  {
    Injective(u, v, w, x, "169", "254", "169", "254");
    ZeroPrefix(u, v, w, x);
    assert Dotted("169", "254", "169", "254") == KEEP;
  }

  lemma Injective(u: string, v: string, w: string, x: string, a: string, b: string, c: string, d: string)
    requires AllDigits(u) && AllDigits(v) && AllDigits(w) && AllDigits(a) && AllDigits(b) && AllDigits(c)
    ensures Dotted(u, v, w, x) == Dotted(a, b, c, d) <==> u == a && v == b && w == c && x == d
  {
    FieldPrefix(u, a, v + "." + (w + "." + x), b + "." + (c + "." + d));
    FieldPrefix(v, b, w + "." + x, c + "." + d);
    FieldPrefix(w, c, x, d);
  }

  // ---- The filter against the ranges ----

  /** The filter, field by field. */
  ghost predicate NoiseText(u: string, v: string, w: string, x: string)
    requires Octet(u) && Octet(v) && Octet(w) && Octet(x)
  {
    && !(u == "169" && v == "254" && w == "169" && x == "254")
    && (u == "127" || u == "10" || (u == "192" && v == "168") || (u == "169" && v == "254")
        || (u == "172" && 16 <= Value(v) <= 31) || (u == v == w == "0" && x[0] == '0'))
  }

  lemma NoiseByFields(u: string, v: string, w: string, x: string)
    requires Octet(u) && Octet(v) && Octet(w) && Octet(x)
    ensures IsNoise(Dotted(u, v, w, x)) <==> NoiseText(u, v, w, x)
  {
    OneFieldPrefixes(u, v, w, x);
    TwoFieldPrefixes(u, v, w, x);
    ZeroPrefix(u, v, w, x);
    ExactAddresses(u, v, w, x);
    Block172Agrees(u, v, w, x);
    Literals();
    OneSpelling(u, "172");
    SomePrefix(Dotted(u, v, w, x));
  }

  lemma SomePrefix(ip: string)
    ensures (exists k :: 0 <= k < |PREFIXES| && PREFIXES[k] <= ip)
       <==> ("127." <= ip || "0.0.0.0" <= ip || "10." <= ip || "192.168." <= ip || "169.254." <= ip)
  {
    assert PREFIXES[0] == "127." && PREFIXES[1] == "0.0.0.0" && PREFIXES[2] == "10.";
    assert PREFIXES[3] == "192.168." && PREFIXES[4] == "169.254.";
  }

  lemma SpellingOfZero(s: string)
    requires Octet(s)
    ensures s == "0" ==> Value(s) == 0
    ensures Value(s) == 0 ==> s[0] == '0'
  {
    ValueOfThree(s);
  }

  /** The spellings that matter, each by its value. */
  lemma SpellingsOf(s: string)
    requires Octet(s)
    ensures Value(s) == 127 <==> s == "127"
    ensures Value(s) == 192 <==> s == "192"
    ensures Value(s) == 168 <==> s == "168"
    ensures Value(s) == 169 <==> s == "169"
    ensures Value(s) == 254 <==> s == "254"
    ensures Value(s) == 172 <==> s == "172"
  {
    Literals();
    OneSpelling(s, "127");
    OneSpelling(s, "192");
    OneSpelling(s, "168");
    OneSpelling(s, "169");
    OneSpelling(s, "254");
    OneSpelling(s, "172");
  }

  lemma TextAgainstRanges(u: string, v: string, w: string, x: string)
    requires Octet(u) && Octet(v) && Octet(w) && Octet(x)
    ensures (NoiseText(u, v, w, x) <==> Reserved(Value(u), Value(v), Value(w), Value(x))) <==> !Misread(u, v, w, x)
  {
    SpellingsOf(u);
    SpellingsOf(v);
    SpellingsOf(w);
    SpellingsOf(x);
    SpellingsOfTen(u);
    SpellingOfZero(u);
    SpellingOfZero(v);
    SpellingOfZero(w);
    SpellingOfZero(x);
    ValueOfThree("010");
  }

  /** On any four octets as the pattern spells them, the filter and the numeric ranges give the
      same answer exactly when the spelling is not one of the misread ones. */
  lemma NoiseAgreesIff(u: string, v: string, w: string, x: string)
    requires Octet(u) && Octet(v) && Octet(w) && Octet(x)
    ensures (IsNoise(Dotted(u, v, w, x)) <==> Reserved(Value(u), Value(v), Value(w), Value(x)))
       <==> !Misread(u, v, w, x)
  {
    NoiseByFields(u, v, w, x);
    TextAgainstRanges(u, v, w, x);
  }

  lemma PrintedOctet(n: nat)
    requires n < 256
    ensures Octet(Decimal(n)) && Value(Decimal(n)) == n
    ensures Decimal(n)[0] == '0' <==> n == 0
    ensures n == 0 ==> Decimal(n) == "0"
  {
    ValueOfDecimal(n);
    assert n < Power10(3) by { assert Power10(1) == 10; assert Power10(2) == 100; }
    DecimalLength(n, 3);
  }

  /** On every address as a program prints it, the filter is membership in the ranges. */
  lemma NoiseAgrees(a: nat, b: nat, c: nat, d: nat)
    requires a < 256 && b < 256 && c < 256 && d < 256
    ensures IsNoise(Print(a, b, c, d)) <==> Reserved(a, b, c, d)
  {
    PrintedOctet(a);
    PrintedOctet(b);
    PrintedOctet(c);
    PrintedOctet(d);
    NoiseAgreesIff(Decimal(a), Decimal(b), Decimal(c), Decimal(d));
  }

  /** A padded private address is reported. */
  lemma PaddedTenIsReported(b: nat, c: nat, d: nat)
    requires b < 256 && c < 256 && d < 256
    ensures Value("010") == 10 && Reserved(10, b, c, d)
    ensures !IsNoise(Dotted("010", Decimal(b), Decimal(c), Decimal(d)))
  {
    ValueOfThree("010");
    PrintedOctet(b);
    PrintedOctet(c);
    PrintedOctet(d);
    NoiseAgreesIff("010", Decimal(b), Decimal(c), Decimal(d));
  }
}
