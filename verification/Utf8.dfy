/** Character boundaries of UTF-8 text, from the byte sequences allowed by section 4 of RFC 3629. */
module Utf8 {
  import Text

  type Byte = x: int | 0 <= x < 256

  const SPACE: Byte := 0x20
  const MAX_IOC_SCAN_BYTES: nat := 16 * 1024 * 1024

  predicate Tail(b: Byte) { 0x80 <= b <= 0xBF }

  /** Length of the character at the head of `s`, or 0 if there is none. */
  function HeadLength(s: seq<Byte>): (n: nat)
    ensures n <= 4 && n <= |s|
  {
    if s == [] then 0
    else if s[0] < 0x80 then 1
    else if |s| >= 2 && 0xC2 <= s[0] <= 0xDF && Tail(s[1]) then 2
    else if |s| >= 3 && 0xE0 <= s[0] <= 0xEF && Tail(s[1]) && Tail(s[2])
            && (s[0] == 0xE0 ==> s[1] >= 0xA0) && (s[0] == 0xED ==> s[1] <= 0x9F) then 3
    else if |s| >= 4 && 0xF0 <= s[0] <= 0xF4 && Tail(s[1]) && Tail(s[2]) && Tail(s[3])
            && (s[0] == 0xF0 ==> s[1] >= 0x90) && (s[0] == 0xF4 ==> s[1] <= 0x8F) then 4
    else 0
  }

  predicate Valid(s: seq<Byte>) {
    s == [] || (HeadLength(s) > 0 && Valid(s[HeadLength(s)..]))
  }

  /** Position `i` is reached by reading whole characters. */
  predicate Boundary(s: seq<Byte>, i: nat)
    decreases |s|
  {
    i == 0 || (HeadLength(s) > 0 && i >= HeadLength(s) && Boundary(s[HeadLength(s)..], i - HeadLength(s)))
  }

  /** `str::is_char_boundary`, which looks at one byte. */
  predicate IsCharBoundary(s: seq<Byte>, i: nat) {
    i == 0 || i == |s| || (i < |s| && !Tail(s[i]))
  }

  /** In valid text the one-byte test recognises exactly the places between characters. */
  lemma {:induction false} BoundaryTest(s: seq<Byte>, i: nat)
    requires Valid(s) && i <= |s|
    ensures Boundary(s, i) <==> IsCharBoundary(s, i)
    decreases |s|
  {
    if s != [] && i > 0 {
      var n := HeadLength(s);
      if i >= n {
        BoundaryTest(s[n..], i - n);
        if i < |s| { assert s[n..][i - n] == s[i]; }
      }
    }
  }

  lemma {:induction false} SplitAtBoundary(s: seq<Byte>, i: nat)
    requires Valid(s) && Boundary(s, i)
    ensures i <= |s| && Valid(s[..i]) && Valid(s[i..])
    decreases |s|
  {
    if i > 0 {
      var n := HeadLength(s);
      SplitAtBoundary(s[n..], i - n);
      assert s[n..][i - n..] == s[i..] && s[n..][..i - n] == s[..i][n..];
      SameHead(s, s[..i]);
    } else {
      assert s[0..] == s;
    }
  }

  /** The head character depends only on its own bytes. */
  lemma SameHead(s: seq<Byte>, t: seq<Byte>)
    requires HeadLength(s) > 0 && HeadLength(s) <= |t| && s[..HeadLength(s)] == t[..HeadLength(s)]
    ensures HeadLength(t) == HeadLength(s)
  {
    var n := HeadLength(s);
    assert forall j :: 0 <= j < n ==> s[j] == s[..n][j] == t[..n][j] == t[j];
  }

  lemma {:induction false} ValidConcat(a: seq<Byte>, b: seq<Byte>)
    requires Valid(a) && Valid(b)
    ensures Valid(a + b)
    decreases |a|
  {
    if a == [] {
      assert a + b == b;
    } else {
      var n := HeadLength(a);
      assert (a + b)[..n] == a[..n];
      SameHead(a, a + b);
      assert (a + b)[n..] == a[n..] + b;
      ValidConcat(a[n..], b);
    }
  }

  /** No position is more than three bytes past a boundary. */
  lemma {:induction false} BoundaryNearby(s: seq<Byte>, i: nat) returns (b: nat)
    requires Valid(s) && i <= |s|
    ensures b <= i <= b + 3 && Boundary(s, b)
    decreases |s|
  {
    var n := HeadLength(s);
    if s == [] || i < n {
      b := 0;
    } else {
      var c := BoundaryNearby(s[n..], i - n);
      b := c + n;
    }
  }

  // ---- Encoding ----

  /** Section 3 of RFC 3629: one to four bytes, six bits in each but the first. */
  function Encoded(c: char): (bytes: seq<Byte>)
    ensures 1 <= |bytes| <= 4
  {
    var n := c as int;
    if n < 0x80 then [n]
    else if n < 0x800 then [0xC0 + n / 64, 0x80 + n % 64]
    else if n < 0x10000 then [0xE0 + n / 4096, 0x80 + n / 64 % 64, 0x80 + n % 64]
    else [0xF0 + n / 262144, 0x80 + n / 4096 % 64, 0x80 + n / 64 % 64, 0x80 + n % 64]
  }

  function EncodedText(s: string): seq<Byte> {
    if s == [] then [] else EncodedText(s[..|s| - 1]) + Encoded(s[|s| - 1])
  }

  lemma HeadOfEncoded(c: char)
    ensures HeadLength(Encoded(c)) == |Encoded(c)|
  {
    var n := c as int;
    assert n < 0xD800 || 0xE000 <= n < 0x110000;
    if 0x800 <= n < 0x10000 {
      assert n / 4096 == 0 ==> n / 64 % 64 >= 0x20;
      assert n / 4096 == 13 ==> n / 64 % 64 < 0x20;
    } else if n >= 0x10000 {
      assert n / 262144 == 0 ==> n / 4096 % 64 >= 0x10;
      assert n / 262144 == 4 ==> n / 4096 % 64 < 0x10;
    }
  }

  /** Six-bit digits come back. */
  lemma SixBits(a: nat, b: nat)
    requires b < 64
    ensures (a * 64 + b) / 64 == a && (a * 64 + b) % 64 == b
  {
  }

  lemma TwoBytes(a: nat, b: nat) returns (c: char)
    requires 2 <= a < 0x20 && b < 64
    ensures Encoded(c) == [0xC0 + a, 0x80 + b]
  {
    SixBits(a, b);
    c := (a * 64 + b) as char;
  }

  lemma ThreeBytes(a: nat, b: nat, d: nat) returns (c: char)
    requires a < 0x10 && b < 64 && d < 64 && (a == 0 ==> b >= 0x20) && (a == 0xD ==> b < 0x20)
    ensures Encoded(c) == [0xE0 + a, 0x80 + b, 0x80 + d]
  {
    var n := (a * 64 + b) * 64 + d;
    SixBits(a * 64 + b, d);
    SixBits(a, b);
    assert n / 4096 == n / 64 / 64;
    c := n as char;
  }

  lemma FourBytes(a: nat, b: nat, d: nat, e: nat) returns (c: char)
    requires a <= 4 && b < 64 && d < 64 && e < 64 && (a == 0 ==> b >= 0x10) && (a == 4 ==> b < 0x10)
    ensures Encoded(c) == [0xF0 + a, 0x80 + b, 0x80 + d, 0x80 + e]
  {
    var m := (a * 64 + b) * 64 + d;
    var n := m * 64 + e;
    SixBits(m, e);
    SixBits(a * 64 + b, d);
    SixBits(a, b);
    assert n / 4096 == n / 64 / 64 && n / 262144 == n / 64 / 64 / 64;
    c := n as char;
  }

  /** The character a head sequence encodes. */
  lemma HeadIsEncoded(s: seq<Byte>) returns (c: char)
    requires HeadLength(s) > 0
    ensures s[..HeadLength(s)] == Encoded(c)
  {
    var k := HeadLength(s);
    if k == 1 {
      c := s[0] as char;
    } else if k == 2 {
      c := TwoBytes(s[0] - 0xC0, s[1] - 0x80);
    } else if k == 3 {
      c := ThreeBytes(s[0] - 0xE0, s[1] - 0x80, s[2] - 0x80);
    } else {
      c := FourBytes(s[0] - 0xF0, s[1] - 0x80, s[2] - 0x80, s[3] - 0x80);
    }
  }

  lemma {:induction false} EncodedIsValid(s: string)
    ensures Valid(EncodedText(s))
  {
    if s != [] {
      var c := s[|s| - 1];
      EncodedIsValid(s[..|s| - 1]);
      HeadOfEncoded(c);
      ValidConcat(EncodedText(s[..|s| - 1]), Encoded(c));
    }
  }

  lemma EncodedSnoc(t: string, c: char)
    ensures EncodedText(t + [c]) == EncodedText(t) + Encoded(c)
  {
    assert (t + [c])[..|t|] == t;
  }

  lemma {:induction false} EncodedFront(c: char, t: string)
    ensures EncodedText([c] + t) == Encoded(c) + EncodedText(t)
  {
    hide Encoded, EncodedText;
    if t == [] {
      EncodedSnoc([], c);
      assert [c] + t == [] + [c];
      NothingEncoded();
    } else {
      var init, last := t[..|t| - 1], t[|t| - 1];
      EncodedFront(c, init);
      EncodedSnoc([c] + init, last);
      EncodedSnoc(init, last);
      assert [c] + t == ([c] + init) + [last] && t == init + [last];
    }
  }

  lemma NothingEncoded()
    ensures EncodedText([]) == []
  {
  }

  lemma {:induction false} ValidIsEncoded(bytes: seq<Byte>) returns (s: string)
    requires Valid(bytes)
    ensures bytes == EncodedText(s)
    decreases |bytes|
  {
    s := [];
    if bytes != [] {
      var n := HeadLength(bytes);
      var c := HeadIsEncoded(bytes);
      var t := ValidIsEncoded(bytes[n..]);
      s := [c] + t;
      EncodedFront(c, t);
    }
  }

  /** The valid byte sequences are exactly the encodings of texts. */
  lemma ValidIffEncoded(bytes: seq<Byte>)
    ensures Valid(bytes) <==> exists s: string :: EncodedText(s) == bytes
  {
    if Valid(bytes) {
      var s := ValidIsEncoded(bytes);
    }
    if s: string :| EncodedText(s) == bytes {
      EncodedIsValid(s);
    }
  }

  /** `str::len` counts the bytes of the encoding. */
  lemma {:induction false} ByteLengthIsEncoded(s: string)
    ensures Text.ByteLength(s) == |EncodedText(s)|
  {
    if s != [] {
      ByteLengthIsEncoded(s[..|s| - 1]);
    }
  }

  // ---- Truncation ----

  /** Back off from the cap to a place where the text can be cut. */
  method TruncationPoint(text: seq<Byte>) returns (end: nat)
    requires Valid(text)
    ensures end <= |text| && Boundary(text, end) && Valid(text[..end])
    ensures |text| <= 0x100_0000 ==> end == |text|
    ensures |text| > 0x100_0000 ==> end <= 0x100_0000 <= end + 3
    ensures |text| > 0x100_0000 ==> forall b: nat :: b <= 0x100_0000 && Boundary(text, b) ==> b <= end
  {
    if |text| <= MAX_IOC_SCAN_BYTES {
      BoundaryTest(text, |text|);
      assert text[..|text|] == text;
      return |text|;
    }
    end := MAX_IOC_SCAN_BYTES;
    while end > 0 && !IsCharBoundary(text, end)
      invariant end <= MAX_IOC_SCAN_BYTES
      invariant forall b: nat :: end < b <= MAX_IOC_SCAN_BYTES ==> !IsCharBoundary(text, b)
    {
      end := end - 1;
    }
    BoundaryTest(text, end);
    SplitAtBoundary(text, end);
    var near := BoundaryNearby(text, MAX_IOC_SCAN_BYTES);
    forall b: nat | b <= MAX_IOC_SCAN_BYTES && Boundary(text, b) ensures b <= end {
      BoundaryTest(text, b);
    }
  }

  // ---- Blanking ----

  datatype Span = Span(start: nat, end: nat)

  ghost predicate ProperSpan(text: seq<Byte>, s: Span) {
    s.start <= s.end <= |text| && IsCharBoundary(text, s.start) && IsCharBoundary(text, s.end)
  }

  predicate Covered(spans: seq<Span>, i: int) {
    exists s | s in spans :: s.start <= i < s.end
  }

  function Spaces(n: nat): seq<Byte> { seq(n, _ => SPACE) }

  lemma {:induction false} SpacesValid(n: nat)
    ensures Valid(Spaces(n))
  {
    if n > 0 {
      SpacesValid(n - 1);
      assert Spaces(n)[1..] == Spaces(n - 1);
    }
  }

  /** `String::replace_range`, which panics off character boundaries of the current text. */
  method ReplaceRange(text: seq<Byte>, s: Span, fill: seq<Byte>) returns (r: seq<Byte>)
    requires Valid(text) && Valid(fill) && ProperSpan(text, s)
    ensures r == text[..s.start] + fill + text[s.end..] && Valid(r)
  {
    r := text[..s.start] + fill + text[s.end..];
    BoundaryTest(text, s.start);
    BoundaryTest(text, s.end);
    SplitAtBoundary(text, s.start);
    SplitAtBoundary(text, s.end);
    ValidConcat(text[..s.start], fill);
    ValidConcat(text[..s.start] + fill, text[s.end..]);
  }

  /** `r` is `text` with the covered bytes turned into spaces. */
  ghost predicate Blanked(text: seq<Byte>, spans: seq<Span>, r: seq<Byte>) {
    |r| == |text| && forall i :: 0 <= i < |text| ==> r[i] == if Covered(spans, i) then SPACE else text[i]
  }

  lemma BlankedStep(text: seq<Byte>, spans: seq<Span>, r: seq<Byte>, s: Span)
    requires Blanked(text, spans, r) && s.start <= s.end <= |text|
    ensures Blanked(text, spans + [s], r[..s.start] + Spaces(s.end - s.start) + r[s.end..])
  {
    forall i ensures Covered(spans + [s], i) <==> Covered(spans, i) || s.start <= i < s.end {
      assert s in spans + [s];
      if Covered(spans, i) {
        var t :| t in spans && t.start <= i < t.end;
        assert t in spans + [s];
      }
    }
  }

  /** Blanking keeps the length, the validity and every later offset, and blanks exactly the union. */
  method BlankSpans(text: seq<Byte>, spans: seq<Span>) returns (r: seq<Byte>)
    requires Valid(text) && forall s :: s in spans ==> ProperSpan(text, s)
    ensures Blanked(text, spans, r) && Valid(r)
    ensures forall i: nat :: i <= |text| && IsCharBoundary(text, i) ==> IsCharBoundary(r, i)
  {
    r := text;
    for n := 0 to |spans|
      invariant Valid(r) && Blanked(text, spans[..n], r)
    {
      var s := spans[n];
      assert s in spans;
      assert ProperSpan(r, s);
      SpacesValid(s.end - s.start);
      BlankedStep(text, spans[..n], r, s);
      assert spans[..n + 1] == spans[..n] + [s];
      r := ReplaceRange(r, s, Spaces(s.end - s.start));
    }
    assert spans[..|spans|] == spans;
  }
}
