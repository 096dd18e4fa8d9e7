/** The bounded log event buffer and the terminal sanitiser (observability.rs). */
module LogBuffer {
  import opened Orders
  import opened Text
  import Utf8

  type Byte = Utf8.Byte

  const MAX_LOG_EVENT_BYTES := 64 * 1024
  const TRUNCATED_SUFFIX: string := "...[truncated]"

  // ---- Sanitising ----

  /** Unicode category Cc. */
  predicate IsControl(c: char) {
    var n := c as int;
    n <= 0x1F || 0x7F <= n <= 0x9F
  }

  function SanitisedChar(c: char, last: bool): char {
    if c == '\n' && last then '\n' else if c == '\t' then ' ' else if IsControl(c) then '?' else c
  }

  function Sanitised(text: string): string {
    seq(|text|, i requires 0 <= i < |text| => SanitisedChar(text[i], i == |text| - 1))
  }

  method Sanitise(text: string) returns (out: string)
    ensures out == Sanitised(text)
  {
    out := "";
    var n := 0;
    while n < |text|
      invariant n <= |text|
      invariant out == Sanitised(text)[..n]
    {
      var c := text[n];
      n := n + 1;
      if c == '\n' && n == |text| {
        out := out + "\n";
      } else if c == '\t' {
        out := out + " ";
      } else if IsControl(c) {
        out := out + "?";
      } else {
        out := out + [c];
      }
    }
  }

  /** One line at most: no control character but a newline at the very end. */
  predicate OneLine(text: string) {
    forall i :: 0 <= i < |text| && IsControl(text[i]) ==> i == |text| - 1 && text[i] == '\n'
  }

  lemma SanitisedIsOneLine(text: string)
    ensures |Sanitised(text)| == |text| && OneLine(Sanitised(text))
    ensures forall i :: 0 <= i < |text| && !IsControl(text[i]) ==> Sanitised(text)[i] == text[i]
  {
  }

  /** The texts the sanitiser leaves alone are exactly the ones already on one line. */
  lemma SanitisedFixpointIff(text: string)
    ensures Sanitised(text) == text <==> OneLine(text)
  {
    if Sanitised(text) == text {
      SanitisedIsOneLine(text);
    }
  }

  lemma SanitisedIdempotent(text: string)
    ensures Sanitised(Sanitised(text)) == Sanitised(text)
  {
    SanitisedIsOneLine(text);
    SanitisedFixpointIff(Sanitised(text));
  }

  /** What becomes of each character: a final newline and anything printable stay, a tab becomes a space,
      and every other control character a question mark. */
  lemma SanitisedAt(text: string, i: nat)
    requires i < |text|
    ensures |Sanitised(text)| == |text|
    ensures var c, n, out := text[i], text[i] as int, Sanitised(text)[i];
            && (c == '\n' && i == |text| - 1 ==> out == '\n')
            && (c == '\t' ==> out == ' ')
            && ((n < 0x20 || 0x7F <= n < 0xA0) && c != '\t' && !(c == '\n' && i == |text| - 1) ==> out == '?')
            && (0x20 <= n < 0x7F || 0xA0 <= n ==> out == c)
  {
  }

  // ---- Redaction: three passes of match and replace ----

  predicate EndsLine(s: string) { s != [] && s[|s| - 1] == '\n' }

  /** One match of a pattern and the text put in its place. */
  datatype Match = Match(start: nat, end: nat, fill: string)

  /** What `replace_all` replaces: non-empty matches, in order and apart. */
  predicate Matched(text: string, ms: seq<Match>) {
    && (forall i :: 0 <= i < |ms| ==> ms[i].start < ms[i].end <= |text|)
    && (forall i, j :: 0 <= i < j < |ms| ==> ms[i].end <= ms[j].start)
  }

  function ReplaceAll(text: string, ms: seq<Match>): string
    requires Matched(text, ms)
  {
    if ms == [] then text
    else
      var m := ms[|ms| - 1];
      ReplaceAll(text[..m.start], ms[..|ms| - 1]) + m.fill + text[m.end..]
  }

  /** Letters, digits and a few marks; ignoring case also admits the long s and the Kelvin sign. */
  predicate IsTokenChar(c: char) {
    IsDigit(c) || 'a' <= c <= 'z' || 'A' <= c <= 'Z' || c in "._~+/=-" || c as int == 0x17F || c as int == 0x212A
  }

  predicate IsSecretChar(c: char) { !IsWhitespace(c) && c !in "\"',}]\\&" }

  /** A scheme word, white space and token characters; the scheme is kept. */
  predicate CredentialMatch(text: string, m: Match) {
    m.start < m.end <= |text| && IsTokenChar(text[m.end - 1])
    && |m.fill| >= 11 && m.fill[|m.fill| - 11..] == " <redacted>"
  }

  /** A secret's name, a separator and value characters; name and separator are kept. */
  predicate SecretMatch(text: string, m: Match) {
    m.start < m.end <= |text| && IsSecretChar(text[m.end - 1])
    && |m.fill| >= 10 && m.fill[|m.fill| - 10..] == "<redacted>"
  }

  /** A private key from its first to its last line; both lines, dashes included, are kept. */
  predicate KeyMatch(text: string, m: Match) {
    m.start < m.end <= |text| && text[m.end - 1] == '-' && m.fill != [] && m.fill[|m.fill| - 1] == '-'
  }

  ghost predicate Finds(find: string -> seq<Match>, ok: (string, Match) -> bool) {
    forall text :: Matched(text, find(text)) && forall m :: m in find(text) ==> ok(text, m)
  }

  /** What a search with each of the three patterns may return, on every text. */
  type CredentialFinder = f: string -> seq<Match> | Finds(f, CredentialMatch) witness (_: string) => []
  type SecretFinder = f: string -> seq<Match> | Finds(f, SecretMatch) witness (_: string) => []
  type KeyFinder = f: string -> seq<Match> | Finds(f, KeyMatch) witness (_: string) => []

  /** A line of its own. */
  type Line = s: string | OneLine(s) && EndsLine(s) witness "\n"

  // ---- Rendering one event ----

  /** What is not modelled of rendering: lossy decoding, the pattern searches and the JSON notice's fields. */
  datatype Renderer = Renderer(
    decode: seq<Byte> -> string,
    credentials: CredentialFinder,
    secrets: SecretFinder,
    keys: KeyFinder,
    notice: Line)

  function Redact(r: Renderer, text: string): string {
    var one := ReplaceAll(text, r.credentials(text));
    var two := ReplaceAll(one, r.secrets(one));
    ReplaceAll(two, r.keys(two))
  }

  /** How far the matches that end at or before `p` move what follows them. */
  ghost function Moved(ms: seq<Match>, p: nat): int {
    if ms == [] then 0
    else
      var m := ms[|ms| - 1];
      Moved(ms[..|ms| - 1], p) + if m.end <= p then |m.fill| - (m.end - m.start) else 0
  }

  predicate Inside(ms: seq<Match>, p: nat) {
    exists i :: 0 <= i < |ms| && ms[i].start <= p < ms[i].end
  }

  /** `out` is `text` with each match replaced by its fill and everything else kept, in place. */
  ghost predicate Replaced(text: string, ms: seq<Match>, out: string) {
    && |out| == |text| + Moved(ms, |text|)
    && (forall p: nat :: p < |text| && !Inside(ms, p) ==> KeptAt(text, ms, out, p))
    && (forall i: nat :: i < |ms| ==> FilledAt(ms, out, i))
  }

  ghost predicate KeptAt(text: string, ms: seq<Match>, out: string, p: nat)
    requires p < |text|
  {
    0 <= p + Moved(ms, p) < |out| && out[p + Moved(ms, p)] == text[p]
  }

  ghost predicate FilledAt(ms: seq<Match>, out: string, i: nat)
    requires i < |ms|
  {
    var at := ms[i].start + Moved(ms, ms[i].start);
    0 <= at <= at + |ms[i].fill| <= |out| && out[at..at + |ms[i].fill|] == ms[i].fill
  }

  /** All matches that end by `p` count, so any later place moves as far. */
  lemma {:induction false} MovedSettles(ms: seq<Match>, p: nat, q: nat)
    requires forall i :: 0 <= i < |ms| ==> ms[i].end <= p && ms[i].end <= q
    ensures Moved(ms, p) == Moved(ms, q)
  {
    if ms != [] {
      MovedSettles(ms[..|ms| - 1], p, q);
    }
  }

  lemma KeepsBeforeLast(text: string, ms: seq<Match>, head: string, p: nat)
    requires Matched(text, ms) && ms != [] && p < ms[|ms| - 1].start && !Inside(ms, p)
    requires Replaced(text[..ms[|ms| - 1].start], ms[..|ms| - 1], head)
    ensures KeptAt(text, ms, head + ms[|ms| - 1].fill + text[ms[|ms| - 1].end..], p)
  {
    var m, init := ms[|ms| - 1], ms[..|ms| - 1];
    assert forall i :: 0 <= i < |init| ==> init[i] == ms[i];
    assert !Inside(init, p);
    assert KeptAt(text[..m.start], init, head, p);
    assert Moved(ms, p) == Moved(init, p);
  }

  lemma KeepsAfterLast(text: string, ms: seq<Match>, head: string, p: nat)
    requires Matched(text, ms) && ms != [] && ms[|ms| - 1].end <= p < |text|
    requires Replaced(text[..ms[|ms| - 1].start], ms[..|ms| - 1], head)
    ensures KeptAt(text, ms, head + ms[|ms| - 1].fill + text[ms[|ms| - 1].end..], p)
  {
    var m, init := ms[|ms| - 1], ms[..|ms| - 1];
    MovedSettles(init, m.start, p);
    assert text[p] == text[m.end..][p - m.end];
  }

  lemma FillsBeforeLast(text: string, ms: seq<Match>, head: string, i: nat)
    requires Matched(text, ms) && ms != [] && i < |ms| - 1
    requires Replaced(text[..ms[|ms| - 1].start], ms[..|ms| - 1], head)
    ensures FilledAt(ms, head + ms[|ms| - 1].fill + text[ms[|ms| - 1].end..], i)
  {
    var m, init := ms[|ms| - 1], ms[..|ms| - 1];
    var out := head + m.fill + text[m.end..];
    assert FilledAt(init, head, i) && init[i] == ms[i];
    assert Moved(ms, ms[i].start) == Moved(init, ms[i].start);
    var at, to := ms[i].start + Moved(ms, ms[i].start), ms[i].start + Moved(ms, ms[i].start) + |ms[i].fill|;
    assert out[at..to] == head[at..to];
  }

  lemma FillsLast(text: string, ms: seq<Match>, head: string)
    requires Matched(text, ms) && ms != []
    requires Replaced(text[..ms[|ms| - 1].start], ms[..|ms| - 1], head)
    ensures FilledAt(ms, head + ms[|ms| - 1].fill + text[ms[|ms| - 1].end..], |ms| - 1)
  {
    var m, init := ms[|ms| - 1], ms[..|ms| - 1];
    var out := head + m.fill + text[m.end..];
    assert Moved(ms, m.start) == Moved(init, m.start);
    assert out[|head|..|head| + |m.fill|] == m.fill;
  }

  /** Replacing keeps every character outside the matches and puts the fill in place of each match. */
  lemma {:induction false} ReplaceAllReplaces(text: string, ms: seq<Match>)
    requires Matched(text, ms)
    ensures Replaced(text, ms, ReplaceAll(text, ms))
  {
    if ms != [] {
      var m, init := ms[|ms| - 1], ms[..|ms| - 1];
      var head := ReplaceAll(text[..m.start], init);
      ReplaceAllReplaces(text[..m.start], init);
      MovedSettles(init, m.start, |text|);
      forall p: nat | p < |text| && !Inside(ms, p) ensures KeptAt(text, ms, ReplaceAll(text, ms), p) {
        if p < m.start {
          KeepsBeforeLast(text, ms, head, p);
        } else {
          KeepsAfterLast(text, ms, head, p);
        }
      }
      forall i: nat | i < |ms| ensures FilledAt(ms, ReplaceAll(text, ms), i) {
        if i < |ms| - 1 {
          FillsBeforeLast(text, ms, head, i);
        } else {
          FillsLast(text, ms, head);
        }
      }
    }
  }

  /** Redaction replaces the credentials of the text, then the secrets of what came out, then its keys. */
  lemma RedactReplaces(r: Renderer, text: string)
    ensures exists one, two :: Replaced(text, r.credentials(text), one) && Replaced(one, r.secrets(one), two)
                            && Replaced(two, r.keys(two), Redact(r, text))
  {
    hide Replaced, ReplaceAll;
    var one := ReplaceAll(text, r.credentials(text));
    var two := ReplaceAll(one, r.secrets(one));
    ReplaceAllReplaces(text, r.credentials(text));
    ReplaceAllReplaces(one, r.secrets(one));
    ReplaceAllReplaces(two, r.keys(two));
  }

  /** Replacing matches that neither end in a newline nor are filled so keeps the end of the line. */
  lemma ReplaceKeepsLineEnd(text: string, ms: seq<Match>)
    requires Matched(text, ms)
    requires forall i :: 0 <= i < |ms| ==> text[ms[i].end - 1] != '\n'
    requires forall i :: 0 <= i < |ms| ==> ms[i].fill != [] && !EndsLine(ms[i].fill)
    ensures EndsLine(ReplaceAll(text, ms)) <==> EndsLine(text)
  {
    if ms != [] {
      var m := ms[|ms| - 1];
      if m.end < |text| {
        assert text[m.end..][|text| - m.end - 1] == text[|text| - 1];
      }
    }
  }

  /** No pattern reaches over a final newline, so redaction never joins or splits lines at the end. */
  lemma RedactKeepsLineEnd(r: Renderer, text: string)
    ensures EndsLine(Redact(r, text)) <==> EndsLine(text)
  {
    var one := ReplaceAll(text, r.credentials(text));
    var two := ReplaceAll(one, r.secrets(one));
    CredentialsKeepLineEnd(text, r.credentials);
    SecretsKeepLineEnd(one, r.secrets);
    KeysKeepLineEnd(two, r.keys);
  }

  lemma CredentialsKeepLineEnd(text: string, find: CredentialFinder)
    ensures EndsLine(ReplaceAll(text, find(text))) <==> EndsLine(text)
  {
    forall i | 0 <= i < |find(text)|
      ensures text[find(text)[i].end - 1] != '\n' && find(text)[i].fill != [] && !EndsLine(find(text)[i].fill)
    {
      var m := find(text)[i];
      assert m in find(text) && CredentialMatch(text, m);
      assert m.fill[|m.fill| - 11..][10] == '>';
    }
    ReplaceKeepsLineEnd(text, find(text));
  }

  lemma SecretsKeepLineEnd(text: string, find: SecretFinder)
    ensures EndsLine(ReplaceAll(text, find(text))) <==> EndsLine(text)
  {
    forall i | 0 <= i < |find(text)|
      ensures text[find(text)[i].end - 1] != '\n' && find(text)[i].fill != [] && !EndsLine(find(text)[i].fill)
    {
      var m := find(text)[i];
      assert m in find(text) && SecretMatch(text, m);
      assert m.fill[|m.fill| - 10..][9] == '>';
    }
    ReplaceKeepsLineEnd(text, find(text));
  }

  lemma KeysKeepLineEnd(text: string, find: KeyFinder)
    ensures EndsLine(ReplaceAll(text, find(text))) <==> EndsLine(text)
  {
    forall i | 0 <= i < |find(text)|
      ensures text[find(text)[i].end - 1] != '\n' && find(text)[i].fill != [] && !EndsLine(find(text)[i].fill)
    {
      assert find(text)[i] in find(text) && KeyMatch(text, find(text)[i]);
    }
    ReplaceKeepsLineEnd(text, find(text));
  }

  predicate IsAsciiWhitespace(b: Byte) { b == 0x20 || b == 0x09 || b == 0x0A || b == 0x0C || b == 0x0D }

  predicate LooksLikeJson(buf: seq<Byte>) {
    buf != [] && (if IsAsciiWhitespace(buf[0]) then LooksLikeJson(buf[1..]) else buf[0] == 0x7B)
  }

  function PlainText(r: Renderer, buf: seq<Byte>, truncated: bool): string {
    Redact(r, r.decode(buf) + (if truncated then TRUNCATED_SUFFIX else ""))
  }

  function Render(r: Renderer, buf: seq<Byte>, truncated: bool): string {
    if truncated && LooksLikeJson(buf) then r.notice else Sanitised(PlainText(r, buf, truncated))
  }

  // ---- The writer ----

  /** Where events end up; the lock matters only for a file. */
  class Sink {
    var output: string
    var poisoned: bool
  }

  datatype Destination = Stderr(sink: Sink) | File(sink: Sink) {
    predicate Refuses()
      reads sink
    {
      File? && sink.poisoned
    }
  }

  function FirstBytes(written: seq<Byte>): seq<Byte> {
    if |written| <= MAX_LOG_EVENT_BYTES then written else written[..MAX_LOG_EVENT_BYTES]
  }

  /** The text one event becomes, as a function of everything written for it. */
  function EventText(r: Renderer, written: seq<Byte>): string {
    Render(r, FirstBytes(written), |written| > MAX_LOG_EVENT_BYTES)
  }

  /** What reaches the destination when everything written is emitted. */
  function Delivery(r: Renderer, written: seq<Byte>, accepted: bool): string {
    if accepted && written != [] then EventText(r, written) else ""
  }

  /** The first byte that is not white space opens an object. */
  ghost predicate OpensObject(buf: seq<Byte>) {
    exists i: nat :: i < |buf| && buf[i] == 0x7B
                  && forall j :: 0 <= j < i ==> buf[j] in {0x20, 0x09, 0x0A, 0x0C, 0x0D}
  }

  lemma {:induction false} LooksLikeJsonIff(buf: seq<Byte>)
    ensures LooksLikeJson(buf) <==> OpensObject(buf)
  {
    if buf != [] {
      LooksLikeJsonIff(buf[1..]);
      if OpensObject(buf[1..]) && IsAsciiWhitespace(buf[0]) {
        var i: nat :| i < |buf| - 1 && buf[1..][i] == 0x7B
          && forall j :: 0 <= j < i ==> buf[1..][j] in {0x20, 0x09, 0x0A, 0x0C, 0x0D};
        assert forall j :: 0 < j < i + 1 ==> buf[j] == buf[1..][j - 1];
        assert buf[i + 1] == 0x7B;
      }
      if OpensObject(buf) && buf[0] != 0x7B {
        var i: nat :| i < |buf| && buf[i] == 0x7B
          && forall j :: 0 <= j < i ==> buf[j] in {0x20, 0x09, 0x0A, 0x0C, 0x0D};
        assert buf[1..][i - 1] == 0x7B;
      }
    }
  }

  /** What an event becomes: up to 64 KiB it is decoded, redacted and sanitised whole; beyond that the
      first 64 KiB are, with a mark at the end, or a notice stands in if they open a JSON object. */
  lemma EventTextCases(r: Renderer, written: seq<Byte>)
    ensures |written| <= 65536 ==> EventText(r, written) == Sanitised(Redact(r, r.decode(written)))
    ensures |written| > 65536 && OpensObject(written[..65536]) ==> EventText(r, written) == r.notice
    ensures |written| > 65536 && !OpensObject(written[..65536]) ==>
              EventText(r, written) == Sanitised(Redact(r, r.decode(written[..65536]) + "...[truncated]"))
  {
    hide LooksLikeJson, OpensObject, Sanitised, Redact;
    LooksLikeJsonIff(FirstBytes(written));
    assert r.decode(written) + "" == r.decode(written);
  }

  class SafeEventWriter {
    const destination: Destination
    const renderer: Renderer
    var buffer: seq<Byte>
    var truncated: bool
    /** Everything written since the last emission. */
    ghost var written: seq<Byte>

    ghost predicate Valid()
      reads this
    {
      && buffer == FirstBytes(written)
      && (truncated <==> |written| > MAX_LOG_EVENT_BYTES)
    }

    constructor (destination: Destination, renderer: Renderer)
      ensures Valid() && written == []
      ensures this.destination == destination && this.renderer == renderer
    {
      this.destination := destination;
      this.renderer := renderer;
      buffer := [];
      truncated := false;
      written := [];
    }

    /** Reports everything as written, keeps what fits, and remembers whether anything did not. */
    method Write(buf: seq<Byte>) returns (count: nat)
      requires Valid()
      modifies this`buffer, this`truncated, this`written
      ensures Valid() && written == old(written) + buf
      ensures count == |buf|
    {
      var available: nat := if |buffer| < MAX_LOG_EVENT_BYTES then MAX_LOG_EVENT_BYTES - |buffer| else 0;
      var accepted := if available < |buf| then available else |buf|;
      buffer := buffer + buf[..accepted];
      truncated := truncated || accepted < |buf|;
      written := written + buf;
      count := |buf|;
    }

    /** Clears the buffer before it knows whether the destination takes the event. */
    method Emit() returns (ok: bool)
      requires Valid()
      modifies this`buffer, this`truncated, this`written, destination.sink`output
      ensures Valid() && written == []
      ensures ok <==> old(written) == [] || !old(destination.Refuses())
      ensures destination.sink.output == old(destination.sink.output) + Delivery(renderer, old(written), ok)
    {
      if buffer == [] && !truncated {
        return true;
      }
      var rendered := Render(renderer, buffer, truncated);
      buffer, truncated, written := [], false, [];
      if destination.Refuses() {
        return false;
      }
      destination.sink.output := destination.sink.output + rendered;
      return true;
    }

    method Flush() returns (ok: bool)
      requires Valid()
      modifies this`buffer, this`truncated, this`written, destination.sink`output
      ensures Valid() && written == []
      ensures ok <==> old(written) == [] || !old(destination.Refuses())
      ensures destination.sink.output == old(destination.sink.output) + Delivery(renderer, old(written), ok)
    {
      ok := Emit();
    }
  }

  // ---- Whole runs of one writer ----

  datatype Op = Write(chunk: seq<Byte>) | Flush

  /** Everything written after the last flush. */
  function PendingOf(ops: seq<Op>): seq<Byte> {
    if ops == [] then []
    else match ops[|ops| - 1] case Write(chunk) => PendingOf(ops[..|ops| - 1]) + chunk case Flush => []
  }

  /** The events a run has emitted: what was pending at each flush, unless nothing was. */
  function EventsOf(ops: seq<Op>): seq<seq<Byte>> {
    if ops == [] then []
    else
      var before := ops[..|ops| - 1];
      if ops[|ops| - 1].Flush? && PendingOf(before) != [] then EventsOf(before) + [PendingOf(before)]
      else EventsOf(before)
  }

  function WrittenAfter(pending: seq<Byte>, op: Op): seq<Byte> {
    match op case Write(chunk) => pending + chunk case Flush => []
  }

  lemma OneMore(ops: seq<Op>, op: Op)
    ensures PendingOf(ops + [op]) == WrittenAfter(PendingOf(ops), op)
    ensures EventsOf(ops + [op])
         == EventsOf(ops) + if op.Flush? && PendingOf(ops) != [] then [PendingOf(ops)] else []
  {
    assert (ops + [op])[..|ops|] == ops;
    assert EventsOf(ops) + [] == EventsOf(ops);
  }

  function Texts(r: Renderer, events: seq<seq<Byte>>): string {
    if events == [] then "" else Texts(r, events[..|events| - 1]) + EventText(r, events[|events| - 1])
  }

  lemma TextsSnoc(r: Renderer, events: seq<seq<Byte>>, e: seq<Byte>)
    ensures Texts(r, events + [e]) == Texts(r, events) + EventText(r, e)
  {
    assert (events + [e])[..|events|] == events;
  }

  /** What one operation adds to the output, given what is pending. */
  function Added(r: Renderer, pending: seq<Byte>, op: Op): string {
    if op.Flush? && pending != [] then EventText(r, pending) else ""
  }

  lemma AddedTexts(r: Renderer, start: string, before: seq<Op>, op: Op)
    ensures start + Texts(r, EventsOf(before)) + Added(r, PendingOf(before), op)
         == start + Texts(r, EventsOf(before + [op]))
  {
    OneMore(before, op);
    TextsSnoc(r, EventsOf(before), PendingOf(before));
    Associative(start, Texts(r, EventsOf(before)), Added(r, PendingOf(before), op));
  }

  /** A valid writer for which exactly `pending` was written since its last emission. */
  ghost predicate Pends(w: SafeEventWriter, pending: seq<Byte>)
    reads w
  {
    w.Valid() && w.written == pending
  }

  /** One operation on a writer. An event that the destination refuses is gone all the same. */
  method Apply(w: SafeEventWriter, op: Op, ghost pending: seq<Byte>)
    requires Pends(w, pending)
    modifies w`buffer, w`truncated, w`written, w.destination.sink`output
    ensures Pends(w, WrittenAfter(pending, op))
    ensures w.destination.sink.output
         == if old(w.destination.Refuses()) then old(w.destination.sink.output)
            else old(w.destination.sink.output) + Added(w.renderer, pending, op)
  {
    match op
    case Write(chunk) =>
      var _ := w.Write(chunk);
    case Flush =>
      var _ := w.Flush();
  }

  /** Driving a writer through a run, and dropping it at the end. */
  method Run(w: SafeEventWriter, ops: seq<Op>)
    requires w.Valid() && w.written == []
    modifies w`buffer, w`truncated, w`written, w.destination.sink`output
    ensures w.Valid() && w.written == []
    ensures w.destination.sink.output
         == if old(w.destination.Refuses()) then old(w.destination.sink.output)
            else old(w.destination.sink.output) + Texts(w.renderer, EventsOf(ops + [Flush]))
  {
    RunPending(w, ops + [Flush]);
    OneMore(ops, Flush);
  }

  lemma NothingDone(r: Renderer)
    ensures PendingOf([]) == [] && Texts(r, EventsOf([])) == ""
  {
  }

  method RunPending(w: SafeEventWriter, ops: seq<Op>)
    requires Pends(w, [])
    modifies w`buffer, w`truncated, w`written, w.destination.sink`output
    ensures Pends(w, PendingOf(ops))
    ensures w.destination.sink.output
         == if old(w.destination.Refuses()) then old(w.destination.sink.output)
            else old(w.destination.sink.output) + Texts(w.renderer, EventsOf(ops))
  {
    hide Pends, PendingOf, EventsOf, Texts, EventText, Added, WrittenAfter;
    ghost var start, refused := w.destination.sink.output, w.destination.Refuses();
    ghost var done := [];
    NothingDone(w.renderer);
    var n := 0;
    while n < |ops|
      invariant n <= |ops|
      invariant done == ops[..n]
      invariant Pends(w, PendingOf(done)) && w.destination.Refuses() == refused
      invariant w.destination.sink.output == if refused then start else start + Texts(w.renderer, EventsOf(done))
    {
      OneMore(done, ops[n]);
      AddedTexts(w.renderer, start, done, ops[n]);
      Apply(w, ops[n], PendingOf(done));
      done := done + [ops[n]];
      n := n + 1;
    }
    assert done == ops;
  }

  // ---- Lines ----

  function Newlines(s: string): nat {
    if s == [] then 0 else Newlines(s[..|s| - 1]) + if s[|s| - 1] == '\n' then 1 else 0
  }

  lemma {:induction false} NewlinesConcat(a: string, b: string)
    ensures Newlines(a + b) == Newlines(a) + Newlines(b)
  {
    if b == [] {
      assert a + b == a;
    } else {
      NewlinesConcat(a, b[..|b| - 1]);
      assert (a + b)[..|a + b| - 1] == a + b[..|b| - 1];
    }
  }

  lemma {:induction false} NoNewlines(s: string)
    requires '\n' !in s
    ensures Newlines(s) == 0
  {
    if s != [] {
      NoNewlines(s[..|s| - 1]);
      assert s[|s| - 1] in s;
    }
  }

  lemma NewlinesOfOneLine(s: string)
    requires OneLine(s)
    ensures Newlines(s) == if EndsLine(s) then 1 else 0
  {
    if s != [] {
      assert forall i :: 0 <= i < |s| - 1 ==> !IsControl(s[i]);
      NoNewlines(s[..|s| - 1]);
    }
  }

  function Complete(events: seq<seq<Byte>>, r: Renderer): nat {
    if events == [] then 0
    else Complete(events[..|events| - 1], r) + if EndsLine(EventText(r, events[|events| - 1])) then 1 else 0
  }

  /** The output has as many lines as events that end in a newline. */
  lemma {:induction false} LinesAreCompleteEvents(r: Renderer, events: seq<seq<Byte>>)
    ensures Newlines(Texts(r, events)) == Complete(events, r)
  {
    if events != [] {
      var before, e := events[..|events| - 1], events[|events| - 1];
      LinesAreCompleteEvents(r, before);
      NewlinesConcat(Texts(r, before), EventText(r, e));
      NewlinesOfEvent(r, e);
    }
  }

  lemma NewlinesOfEvent(r: Renderer, e: seq<Byte>)
    ensures Newlines(EventText(r, e)) == if EndsLine(EventText(r, e)) then 1 else 0
  {
    SanitisedIsOneLine(PlainText(r, FirstBytes(e), |e| > MAX_LOG_EVENT_BYTES));
    NewlinesOfOneLine(EventText(r, e));
  }

  /** One line per event exactly when every event ends its line. */
  lemma {:induction false} AllCompleteIff(r: Renderer, events: seq<seq<Byte>>)
    ensures Complete(events, r) <= |events|
    ensures Complete(events, r) == |events| <==> forall e :: e in events ==> EndsLine(EventText(r, e))
  {
    if events != [] {
      var before, e := events[..|events| - 1], events[|events| - 1];
      AllCompleteIff(r, before);
      assert forall x :: x in events <==> x in before || x == e;
    }
  }

  /** An event ends its line exactly when its own text does, or when it was cut and had looked like
      JSON: a cut plain-text event never does. */
  lemma EndsLineIff(r: Renderer, written: seq<Byte>)
    ensures EndsLine(EventText(r, written))
       <==> (if |written| > MAX_LOG_EVENT_BYTES then LooksLikeJson(FirstBytes(written))
             else EndsLine(r.decode(written)))
  {
    var truncated := |written| > MAX_LOG_EVENT_BYTES;
    var text := r.decode(FirstBytes(written)) + (if truncated then TRUNCATED_SUFFIX else "");
    RedactKeepsLineEnd(r, text);
    SanitisedEnd(Redact(r, text));
    if truncated {
      assert text[|text| - 1] == ']';
    } else {
      assert text == r.decode(written);
    }
  }

  /** So the event after a cut plain-text one continues its line: two events, at most one line. */
  lemma CutTextJoinsNextLine(r: Renderer, cut: seq<Byte>, next: seq<Byte>)
    requires |cut| > MAX_LOG_EVENT_BYTES && !LooksLikeJson(FirstBytes(cut))
    ensures Newlines(Texts(r, [cut, next])) <= 1
  {
    hide *;
    EndsLineIff(r, cut);
    LinesAreCompleteEvents(r, [cut, next]);
    AllCompleteIff(r, [cut, next]);
    assert cut in [cut, next];
  }

  /** One byte too many of `a` is such an event. */
  lemma SomeTextIsCut()
    ensures var cut: seq<Byte> := seq(MAX_LOG_EVENT_BYTES + 1, _ => 0x61);
            |cut| > MAX_LOG_EVENT_BYTES && !LooksLikeJson(FirstBytes(cut))
  {
    var cut: seq<Byte> := seq(MAX_LOG_EVENT_BYTES + 1, _ => 0x61);
    assert FirstBytes(cut)[0] == 0x61;
  }

  lemma SanitisedEnd(text: string)
    ensures EndsLine(Sanitised(text)) <==> EndsLine(text)
  {
  }

  // ---- Chunking ----

  function Flatten(chunks: seq<seq<Byte>>): seq<Byte> {
    if chunks == [] then [] else Flatten(chunks[..|chunks| - 1]) + chunks[|chunks| - 1]
  }

  function Writes(chunks: seq<seq<Byte>>): seq<Op> {
    if chunks == [] then [] else Writes(chunks[..|chunks| - 1]) + [Write(chunks[|chunks| - 1])]
  }

  /** The run that writes each group of chunks and flushes after it. */
  function Script(groups: seq<seq<seq<Byte>>>): seq<Op> {
    if groups == [] then [] else Script(groups[..|groups| - 1]) + Writes(groups[|groups| - 1]) + [Flush]
  }

  /** The non-empty concatenations, in order. */
  function NonEmpty(groups: seq<seq<seq<Byte>>>): seq<seq<Byte>> {
    if groups == [] then []
    else
      var rest := NonEmpty(groups[..|groups| - 1]);
      var whole := Flatten(groups[|groups| - 1]);
      if whole == [] then rest else rest + [whole]
  }

  lemma {:induction false} WritesAccumulate(ops: seq<Op>, chunks: seq<seq<Byte>>)
    ensures PendingOf(ops + Writes(chunks)) == PendingOf(ops) + Flatten(chunks)
    ensures EventsOf(ops + Writes(chunks)) == EventsOf(ops)
  {
    if chunks == [] {
      assert ops + Writes(chunks) == ops;
    } else {
      var before, chunk := chunks[..|chunks| - 1], chunks[|chunks| - 1];
      WritesAccumulate(ops, before);
      Associative(ops, Writes(before), [Write(chunk)]);
      OneMore(ops + Writes(before), Write(chunk));
      Associative(PendingOf(ops), Flatten(before), chunk);
    }
  }

  lemma {:induction false} PendingAfterScript(groups: seq<seq<seq<Byte>>>)
    ensures PendingOf(Script(groups)) == []
  {
    if groups != [] {
      assert Script(groups)[|Script(groups)| - 1] == Flush;
    }
  }

  /** One event per group that wrote anything, whatever pieces it was written in. */
  lemma {:induction false} EventsAreWholeGroups(groups: seq<seq<seq<Byte>>>)
    ensures EventsOf(Script(groups)) == NonEmpty(groups)
  {
    if groups != [] {
      var before := groups[..|groups| - 1];
      var chunks := groups[|groups| - 1];
      EventsAreWholeGroups(before);
      PendingAfterScript(before);
      WritesAccumulate(Script(before), chunks);
      OneMore(Script(before) + Writes(chunks), Flush);
      assert [] + Flatten(chunks) == Flatten(chunks);
    }
  }

  /** Output does not depend on how the writes were cut up. */
  lemma {:induction false} OutputIgnoresChunking(a: seq<seq<seq<Byte>>>, b: seq<seq<seq<Byte>>>)
    requires |a| == |b| && forall i :: 0 <= i < |a| ==> Flatten(a[i]) == Flatten(b[i])
    ensures EventsOf(Script(a)) == EventsOf(Script(b))
  {
    if a != [] {
      OutputIgnoresChunking(a[..|a| - 1], b[..|b| - 1]);
    }
    EventsAreWholeGroups(a);
    EventsAreWholeGroups(b);
    if a != [] {
      EventsAreWholeGroups(a[..|a| - 1]);
      EventsAreWholeGroups(b[..|b| - 1]);
    }
  }

  // ---- Writers sharing one destination ----

  /** What every writer has pending, and the events the destination received, with their writers. */
  datatype Shared = Shared(pending: map<nat, seq<Byte>>, log: seq<(nat, seq<Byte>)>)

  function PendingFor(s: Shared, id: nat): seq<Byte> { if id in s.pending then s.pending[id] else [] }

  /** One operation of one writer; the lock makes an emission a single step. */
  function Step(s: Shared, id: nat, op: Op): Shared {
    match op
    case Write(chunk) => s.(pending := s.pending[id := PendingFor(s, id) + chunk])
    case Flush =>
      Shared(s.pending[id := []], if PendingFor(s, id) == [] then s.log else s.log + [(id, PendingFor(s, id))])
  }

  function Interleaved(run: seq<(nat, Op)>): Shared {
    if run == [] then Shared(map[], [])
    else Step(Interleaved(run[..|run| - 1]), run[|run| - 1].0, run[|run| - 1].1)
  }

  /** The entries of one writer, in order. */
  function Own<T>(entries: seq<(nat, T)>, id: nat): seq<T> {
    if entries == [] then []
    else
      var rest := Own(entries[..|entries| - 1], id);
      if entries[|entries| - 1].0 == id then rest + [entries[|entries| - 1].1] else rest
  }

  lemma OwnSnoc<T>(entries: seq<(nat, T)>, e: (nat, T), id: nat)
    ensures Own(entries + [e], id) == if e.0 == id then Own(entries, id) + [e.1] else Own(entries, id)
  {
    assert (entries + [e])[..|entries|] == entries;
  }

  lemma InterleavedSnoc(run: seq<(nat, Op)>, id: nat, op: Op)
    ensures Interleaved(run + [(id, op)]) == Step(Interleaved(run), id, op)
  {
    assert (run + [(id, op)])[..|run|] == run;
  }

  /** What a step does to one writer's share of the state. */
  lemma StepShare(s: Shared, who: nat, op: Op, id: nat)
    ensures PendingFor(Step(s, who, op), id)
         == if who == id then WrittenAfter(PendingFor(s, id), op) else PendingFor(s, id)
    ensures Own(Step(s, who, op).log, id)
         == Own(s.log, id) + if who == id && op.Flush? && PendingFor(s, id) != [] then [PendingFor(s, id)] else []
  {
    if op.Flush? && PendingFor(s, who) != [] {
      OwnSnoc(s.log, (who, PendingFor(s, who)), id);
    }
  }

  /** However writers are interleaved, each one's events arrive whole, in order, and exactly as if
      it had the destination to itself. */
  lemma {:induction false} WritersDoNotInterfere(run: seq<(nat, Op)>, id: nat)
    ensures PendingFor(Interleaved(run), id) == PendingOf(Own(run, id))
    ensures Own(Interleaved(run).log, id) == EventsOf(Own(run, id))
  {
    hide Step, PendingFor, WrittenAfter, PendingOf, EventsOf;
    if run != [] {
      var before := run[..|run| - 1];
      var (who, op) := run[|run| - 1];
      WritersDoNotInterfere(before, id);
      StepShare(Interleaved(before), who, op, id);
      OneMore(Own(before, id), op);
    } else {
      NothingWritten();
    }
  }

  lemma NothingWritten()
    ensures PendingOf([]) == [] && EventsOf([]) == []
    ensures forall id: nat :: PendingFor(Shared(map[], []), id) == []
  {
  }

  // ---- The same, of the writers themselves ----

  function LogTexts(r: Renderer, log: seq<(nat, seq<Byte>)>): string {
    if log == [] then "" else LogTexts(r, log[..|log| - 1]) + EventText(r, log[|log| - 1].1)
  }

  /** One step of the shared state adds to the destination what the stepping writer adds. */
  lemma StepTexts(r: Renderer, start: string, s: Shared, id: nat, op: Op)
    ensures start + LogTexts(r, Step(s, id, op).log) == start + LogTexts(r, s.log) + Added(r, PendingFor(s, id), op)
    ensures PendingFor(Step(s, id, op), id) == WrittenAfter(PendingFor(s, id), op)
    ensures forall other: nat :: other != id ==> PendingFor(Step(s, id, op), other) == PendingFor(s, other)
  {
    hide EventText;
    Associative(start, LogTexts(r, s.log), Added(r, PendingFor(s, id), op));
    if op.Flush? && PendingFor(s, id) != [] {
      assert Step(s, id, op).log[..|s.log|] == s.log;
    }
  }

  /** Writers of one factory: distinct, valid, and with one destination and renderer. */
  ghost predicate Siblings(writers: seq<SafeEventWriter>, d: Destination, r: Renderer)
    reads writers
  {
    && (forall i, j :: 0 <= i < j < |writers| ==> writers[i] != writers[j])
    && (forall i :: 0 <= i < |writers| ==>
          writers[i].destination == d && writers[i].renderer == r && writers[i].Valid())
  }

  ghost predicate HoldPending(writers: seq<SafeEventWriter>, s: Shared)
    reads writers
  {
    forall i :: 0 <= i < |writers| ==> writers[i].written == PendingFor(s, i)
  }

  lemma NothingPending(writers: seq<SafeEventWriter>, r: Renderer)
    requires forall i :: 0 <= i < |writers| ==> writers[i].written == []
    ensures HoldPending(writers, Interleaved([])) && LogTexts(r, Interleaved([]).log) == ""
  {
  }

  method StepWriter(writers: seq<SafeEventWriter>, d: Destination, ghost r: Renderer, id: nat, op: Op, ghost s: Shared)
    requires id < |writers| && Siblings(writers, d, r) && HoldPending(writers, s)
    modifies writers, d.sink`output
    ensures Siblings(writers, d, r) && HoldPending(writers, Step(s, id, op))
    ensures d.sink.output
         == if old(d.Refuses()) then old(d.sink.output) else old(d.sink.output) + Added(r, PendingFor(s, id), op)
  {
    StepTexts(r, "", s, id, op);
    Apply(writers[id], op, PendingFor(s, id));
  }

  /** Any interleaving of writers of one factory leaves each with what the shared state says is
      pending, and the destination with the texts of the shared log, one whole event after another. */
  method RunShared(writers: seq<SafeEventWriter>, d: Destination, ghost r: Renderer, run: seq<(nat, Op)>)
    requires Siblings(writers, d, r) && forall i :: 0 <= i < |writers| ==> writers[i].written == []
    requires forall n :: 0 <= n < |run| ==> run[n].0 < |writers|
    modifies writers, d.sink`output
    ensures Siblings(writers, d, r) && HoldPending(writers, Interleaved(run))
    ensures d.sink.output
         == if old(d.Refuses()) then old(d.sink.output) else old(d.sink.output) + LogTexts(r, Interleaved(run).log)
  {
    hide Siblings, HoldPending, LogTexts, EventText, Added, Step, Interleaved;
    ghost var start, refused := d.sink.output, d.Refuses();
    ghost var done: seq<(nat, Op)> := [];
    NothingPending(writers, r);
    var n := 0;
    while n < |run|
      invariant n <= |run| && done == run[..n]
      invariant Siblings(writers, d, r) && HoldPending(writers, Interleaved(done)) && d.Refuses() == refused
      invariant d.sink.output == if refused then start else start + LogTexts(r, Interleaved(done).log)
    {
      var (id, op) := run[n];
      InterleavedSnoc(done, id, op);
      StepTexts(r, start, Interleaved(done), id, op);
      StepWriter(writers, d, r, id, op, Interleaved(done));
      done := done + [(id, op)];
      n := n + 1;
    }
    assert done == run;
  }
}
