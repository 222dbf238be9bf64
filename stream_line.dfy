/**
 * Matchers shared by the video and audio extractors: the `Stream ...: Video: ...`
 * (or `Audio:`) header line and the tokens both extractors take from it (stream
 * id, language, bit rate, codec), and the filtering of the comma-separated
 * segments that are left over.
 */
module StreamLine {
  import opened Wrappers
  import opened Text
  import opened Numbers
  import opened Media

  /**
   * `:\s+<kind>\s+` at `j`, with `kind` one of "Video:" and "Audio:". Gives the
   * position after the second run of blanks, where the `(.*)` capture begins.
   */
  function KindMarkAt(s: string, j: nat, kind: string): (r: Option<nat>)
    ensures r.Some? ==> j < r.value <= |s|
  {
    if j < |s| && s[j] == ':' then
      var a := SpanEnd(s, j + 1, IsSpace);
      if a > j + 1 && HasAt(s, a, kind) then
        var b := SpanEnd(s, a + |kind|, IsSpace);
        if b > a + |kind| then Some(b) else None
      else None
    else None
  }

  function VideoMarkAt(s: string, j: nat): Option<nat> { KindMarkAt(s, j, "Video:") }

  function AudioMarkAt(s: string, j: nat): Option<nat> { KindMarkAt(s, j, "Audio:") }

  /** What `/Stream(.*):\s+Video:\s+(.*)/` gives: `$matches[0]` and `$matches[2]`. */
  datatype Header = Header(line: string, rest: string)

  /**
   * The header pattern matched at `p`. The `(.*)` after `Stream` cannot cross a
   * line feed and is greedy, so it ends at the last marker on that line; the final
   * `(.*)` runs to the end of the line it starts on.
   */
  function HeaderAt(s: string, p: nat, mark: (string, nat) -> Option<nat>): (r: Option<Header>)
    ensures r.Some? ==> HasAt(s, p, "Stream") && HasAt(s, p, r.value.line)
    ensures r.Some? ==> '\n' !in r.value.rest
    ensures r.Some? ==> |r.value.rest| <= |r.value.line| && r.value.line[|r.value.line| - |r.value.rest|..] == r.value.rest
  {
    if HasAt(s, p, "Stream") then
      match LastIn<nat>(s, p + 6, SpanEnd(s, p + 6, NotNewline), mark)
      case None => None
      case Some(h) =>
        if p <= h.val <= |s| then
          var e := SpanEnd(s, h.val, NotNewline);
          assert forall i :: h.val <= i < e ==> s[i] != '\n';
          assert s[p..e][h.val - p..] == s[h.val..e];
          Some(Header(s[p..e], s[h.val..e]))
        else None
    else None
  }

  function VideoHeaderAt(s: string, p: nat): Option<Header> { HeaderAt(s, p, VideoMarkAt) }

  function AudioHeaderAt(s: string, p: nat): Option<Header> { HeaderAt(s, p, AudioMarkAt) }

  /** `[0-9\:]`. */
  predicate IsStreamIdChar(c: char) { IsDigit(c) || c == ':' }

  /** `/#([0-9\:]{3,})/` at `p`: a `#` followed by at least three digits or colons. */
  function StreamIdAt(s: string, p: nat): (r: Option<string>)
    ensures r.Some? ==> |r.value| >= 3 && forall i :: 0 <= i < |r.value| ==> IsStreamIdChar(r.value[i])
    ensures r.Some? ==> p < |s| && s[p] == '#'
  {
    if p < |s| && s[p] == '#' then
      var e := SpanEnd(s, p + 1, IsStreamIdChar);
      if e - (p + 1) >= 3 then Some(s[p + 1..e]) else None
    else None
  }

  /** `[a-z\_\-]`. */
  predicate IsLanguageChar(c: char) { 'a' <= c <= 'z' || c == '_' || c == '-' }

  /** `/\(([a-z\_\-]{2,})\)/` at `p`: a parenthesised word of at least two such characters. */
  function LanguageAt(s: string, p: nat): (r: Option<string>)
    ensures r.Some? ==> |r.value| >= 2 && forall i :: 0 <= i < |r.value| ==> IsLanguageChar(r.value[i])
    ensures r.Some? ==> HasAt(s, p, "(" + r.value + ")")
  {
    if p < |s| && s[p] == '(' then
      var e := SpanEnd(s, p + 1, IsLanguageChar);
      if e - (p + 1) >= 2 && e < |s| && s[e] == ')' then
        assert s[p..p + |"(" + s[p + 1..e] + ")"|] == "(" + s[p + 1..e] + ")";
        Some(s[p + 1..e])
      else None
    else None
  }

  function StreamId(line: string): Option<string> {
    match FirstFrom(line, 0, StreamIdAt)
    case None => None
    case Some(h) => Some(h.val)
  }

  function Language(line: string): Option<string> {
    match FirstFrom(line, 0, LanguageAt)
    case None => None
    case Some(h) => Some(h.val)
  }

  /** A `/([0-9]{1,4})\s+(kb|mb)\/s/i` match: the digits, the unit, and the whole text. */
  datatype RateMatch = RateMatch(digits: string, megabits: bool, text: string)

  /**
   * The stream bit-rate pattern at `p`. `[0-9]{1,4}` takes at most four digits and
   * must be followed by a blank, so a longer run of digits only matches from its
   * last four.
   */
  function RateAt(s: string, p: nat): (r: Option<RateMatch>)
    ensures r.Some? ==> 1 <= |r.value.digits| <= 4 && AllDigits(r.value.digits)
    ensures r.Some? ==> HasAt(s, p, r.value.digits)
    ensures r.Some? ==> p + |r.value.digits| < |s| && IsSpace(s[p + |r.value.digits|])
    ensures r.Some? ==> |r.value.text| > 0 && IsDigit(r.value.text[0])
  {
    if p < |s| && IsDigit(s[p]) then
      var run := SpanEnd(s, p, IsDigit);
      var d := if run - p <= 4 then run else p + 4;
      var w := SpanEnd(s, d, IsSpace);
      if w > d && (HasAtFolded(s, w, "kb/s") || HasAtFolded(s, w, "mb/s")) then
        assert s[p..p + |s[p..d]|] == s[p..d];
        Some(RateMatch(s[p..d], HasAtFolded(s, w, "mb/s"), s[p..w + 4]))
      else None
    else None
  }

  /** The multiplier the source applies: 8192000 for `mb`, 1000 for `kb`. */
  function RateValue(m: RateMatch): (bps: nat)
    requires AllDigits(m.digits)
    ensures m.megabits ==> bps == DigitsValue(m.digits) * 8192000
    ensures !m.megabits ==> bps == DigitsValue(m.digits) * 1000
  {
    DigitsValue(m.digits) * (if m.megabits then 8192000 else 1000)
  }

  /** The stream's bit rate in bits per second, and the matched text, when a rate is given. */
  function StreamRate(line: string): (r: Option<(nat, string)>)
    ensures r.Some? <==> FirstFrom(line, 0, RateAt).Some?
    ensures r.Some? ==> r.value.0 == RateValue(FirstFrom(line, 0, RateAt).value.val)
    ensures r.Some? ==> r.value.1 == FirstFrom(line, 0, RateAt).value.val.text
  {
    match FirstFrom(line, 0, RateAt)
    case None => None
    case Some(h) => Some((RateValue(h.val), h.val.text))
  }

  /** A text that opens with the digits `ds`, one blank and `unit`. */
  predicate RateLayout(s: string, ds: string, unit: string) {
    && |unit| == 4 && |s| >= |ds| + 5
    && s[..|ds|] == ds && s[|ds|] == ' ' && s[|ds| + 1..|ds| + 5] == unit
  }

  /** `<digits> <unit>` followed by anything is laid out as such a text. */
  lemma RateTextChars(ds: string, unit: string, rest: string)
    requires |unit| == 4
    ensures RateLayout(ds + " " + unit + rest, ds, unit)
  {
    var s := ds + " " + unit + rest;
    assert s[..|ds|] == ds;
    assert s[|ds| + 1..|ds| + 5] == unit;
  }

  /** Every digit run inside the digits ends where they end, and one blank follows. */
  lemma RateTextRuns(s: string, ds: string, unit: string)
    requires AllDigits(ds) && |ds| > 0 && RateLayout(s, ds, unit)
    requires unit == "kb/s" || unit == "mb/s"
    ensures forall q: nat :: q <= |ds| ==> SpanEnd(s, q, IsDigit) == |ds|
    ensures SpanEnd(s, |ds|, IsSpace) == |ds| + 1
  {
    var k := |ds|;
    assert forall i :: 0 <= i < k ==> IsDigit(s[i]) by {
      forall i | 0 <= i < k ensures IsDigit(s[i]) { assert s[i] == s[..k][i]; }
    }
    forall q: nat | q <= k
      ensures SpanEnd(s, q, IsDigit) == k
    {
      SpanEndIs(s, q, IsDigit, k);
    }
    assert s[k + 1] == s[k + 1..k + 5][0];
    SpanEndOne(s, k, IsSpace);
  }

  /** Which of the two units follows the blank, ignoring case. */
  lemma RateTextUnit(s: string, ds: string, unit: string)
    requires RateLayout(s, ds, unit)
    requires unit == "kb/s" || unit == "mb/s"
    ensures HasAtFolded(s, |ds| + 1, "mb/s") <==> unit == "mb/s"
    ensures HasAtFolded(s, |ds| + 1, "kb/s") <==> unit == "kb/s"
  {
    var k := |ds|;
    var u := s[k + 1..k + 5];
    assert forall i :: 0 <= i < 4 ==> s[k + 1 + i] == u[i];
    assert ToLower(s[k + 1]) == unit[0];
  }

  /** Before the last four digits no match starts: four digits are followed by a fifth. */
  lemma NoRateBefore(s: string, ds: string, unit: string)
    requires AllDigits(ds) && |ds| > 4 && RateLayout(s, ds, unit)
    requires unit == "kb/s" || unit == "mb/s"
    ensures forall q: nat :: q < |ds| - 4 ==> RateAt(s, q).None?
  {
    var k := |ds|;
    RateTextRuns(s, ds, unit);
    forall q: nat | q < k - 4
      ensures RateAt(s, q).None?
    {
      assert s[q + 4] == s[..k][q + 4];
      SpanEndIs(s, q + 4, IsSpace, q + 4);
    }
  }

  /** At the last four digits (or all of them, when fewer) the rate pattern matches. */
  lemma RateAtLastDigits(s: string, ds: string, unit: string)
    requires AllDigits(ds) && |ds| > 0 && RateLayout(s, ds, unit)
    requires unit == "kb/s" || unit == "mb/s"
    ensures var p := if |ds| <= 4 then 0 else |ds| - 4;
      RateAt(s, p) == Some(RateMatch(ds[p..], unit == "mb/s", s[p..|ds| + 5]))
  {
    var k := |ds|;
    var p := if k <= 4 then 0 else k - 4;
    RateTextRuns(s, ds, unit);
    RateTextUnit(s, ds, unit);
    DigitsSuffix(s, ds, p);
  }

  /** The digits from `p` on, read in a text that opens with them. */
  lemma DigitsSuffix(s: string, ds: string, p: nat)
    requires AllDigits(ds) && p < |ds| <= |s| && s[..|ds|] == ds
    ensures IsDigit(s[p]) && s[p..|ds|] == ds[p..]
  {
    assert s[p] == s[..|ds|][p];
    assert s[p..|ds|] == s[..|ds|][p..];
  }

  /** In a `<digits> <unit>` text the rate pattern first matches at the last four digits. */
  lemma RateTextFirst(ds: string, unit: string, rest: string)
    requires AllDigits(ds) && |ds| > 0
    requires unit == "kb/s" || unit == "mb/s"
    ensures var s := ds + " " + unit + rest;
      var p := if |ds| <= 4 then 0 else |ds| - 4;
      && FirstFrom(s, 0, RateAt).Some?
      && FirstFrom(s, 0, RateAt).value.val.digits == ds[p..]
      && (FirstFrom(s, 0, RateAt).value.val.megabits <==> unit == "mb/s")
  {
    var s := ds + " " + unit + rest;
    var p := if |ds| <= 4 then 0 else |ds| - 4;
    RateTextChars(ds, unit, rest);
    RateAtLastDigits(s, ds, unit);
    if |ds| > 4 {
      NoRateBefore(s, ds, unit);
    }
    FirstFromIs(s, 0, RateAt, p);
  }

  /**
   * A rate printed as `<n> kb/s` or `<n> mb/s` is read from its last four digits
   * only: `12000 kb/s` gives 2000000, not 12000000.
   */
  lemma StreamRateOfText(n: nat, unit: string, rest: string)
    requires unit == "kb/s" || unit == "mb/s"
    ensures StreamRate(NatToString(n) + " " + unit + rest).Some?
    ensures StreamRate(NatToString(n) + " " + unit + rest).value.0 ==
              (n % 10000) * (if unit == "mb/s" then 8192000 else 1000)
  {
    var ds := NatToString(n);
    RateTextFirst(ds, unit, rest);
    NatToStringRoundTrip(n);
    if |ds| <= 4 {
      assert ds[0..] == ds;
      ShortDigitsValue(ds);
    } else {
      LastFourDigitsValue(ds);
    }
  }

  /** No consumed token can equal a segment that is not empty and opens with none of `firsts`. */
  lemma NotConsumed(t: string, others: Consumed, firsts: char -> bool)
    requires |t| > 0 && !firsts(t[0])
    requires forall i :: 0 <= i < |others| && others[i].Some? && others[i].value != [] ==> firsts(others[i].value[0])
    ensures !InArray(t, others)
  {
  }

  /** A value `in_array` compares against: a string, or `null` (None). */
  type Consumed = seq<Option<string>>

  /**
   * `in_array($part, $other_parts)` with PHP's loose comparison, restricted to what
   * can occur here: equal strings, or an empty string against `null`.
   */
  predicate InArray(part: string, others: Consumed) {
    exists i :: 0 <= i < |others| && (others[i] == Some(part) || (others[i].None? && part == ""))
  }

  /** The trimmed segments that are not among the consumed tokens, in order. */
  function Leftover(parts: seq<string>, others: Consumed): (r: seq<string>)
    ensures |r| <= |parts|
    ensures forall i :: 0 <= i < |r| ==> !InArray(r[i], others)
  {
    if parts == [] then []
    else
      var init := Leftover(parts[..|parts| - 1], others);
      var t := Trim(parts[|parts| - 1]);
      if InArray(t, others) then init else init + [t]
  }

  /** A segment survives exactly when its trimmed form was not consumed. */
  lemma {:induction false} LeftoverKeeps(parts: seq<string>, others: Consumed, t: string)
    ensures t in Leftover(parts, others) <==> !InArray(t, others) && exists i :: 0 <= i < |parts| && Trim(parts[i]) == t
  {
    if parts != [] {
      var init := parts[..|parts| - 1];
      LeftoverKeeps(init, others, t);
      assert forall i :: 0 <= i < |init| ==> init[i] == parts[i];
      if Trim(parts[|parts| - 1]) == t {
        assert Trim(parts[|parts| - 1]) == t;
      }
    }
  }

  /** Segments are judged one at a time, so filtering distributes over concatenation. */
  lemma {:induction false} LeftoverAppend(a: seq<string>, b: seq<string>, others: Consumed)
    ensures Leftover(a + b, others) == Leftover(a, others) + Leftover(b, others)
    decreases |b|
  {
    if b == [] {
      assert a + b == a;
    } else {
      var init := b[..|b| - 1];
      assert (a + b)[..|a + b| - 1] == a + init;
      assert (a + b)[|a + b| - 1] == b[|b| - 1];
      LeftoverAppend(a, init, others);
    }
  }

  /** One segment is kept, trimmed, exactly when its trimmed form was not consumed. */
  lemma LeftoverOne(part: string, others: Consumed)
    ensures Leftover([part], others) == if InArray(Trim(part), others) then [] else [Trim(part)]
  {
    assert [part][..0] == [];
  }

  /**
   * A text that opens with two comma-free segments whose trimmed forms were not
   * consumed leaves those trimmed forms as its first two formats.
   */
  lemma LeadingFormats(a: string, b: string, rest: string, others: Consumed)
    requires ',' !in a && ',' !in b
    requires !InArray(Trim(a), others) && !InArray(Trim(b), others)
    ensures var f := Leftover(Split(a + "," + b + "," + rest, ','), others);
      |f| >= 2 && f[0] == Trim(a) && f[1] == Trim(b)
  {
    SplitTwo(a, b, rest);
    LeftoverTwo(a, b, Split(rest, ','), others);
  }

  /** A comma-free, unconsumed first segment leaves its trimmed form as the first format. */
  lemma LeadingFormat(a: string, rest: string, others: Consumed)
    requires ',' !in a && !InArray(Trim(a), others)
    ensures var f := Leftover(Split(a + "," + rest, ','), others);
      |f| >= 1 && f[0] == Trim(a)
  {
    assert a + "," + rest == a + [','] + rest;
    SplitFront(a, ',', rest);
    var tail := Split(rest, ',');
    LeftoverAppend([a], tail, others);
    LeftoverOne(a, others);
  }

  /** The first two pieces of `a,b,rest` are `a` and `b`. */
  lemma SplitTwo(a: string, b: string, rest: string)
    requires ',' !in a && ',' !in b
    ensures Split(a + "," + b + "," + rest, ',') == [a, b] + Split(rest, ',')
  {
    var text, later := a + "," + b + "," + rest, b + [','] + rest;
    assert text == a + [','] + later;
    SplitFront(a, ',', later);
    SplitFront(b, ',', rest);
    var tail := Split(rest, ',');
    assert Split(text, ',') == [a] + ([b] + tail);
    assert [a] + ([b] + tail) == [a, b] + tail;
  }

  /** Two unconsumed segments in front of `tail` are kept, trimmed, in front of its leftovers. */
  lemma LeftoverTwo(a: string, b: string, tail: seq<string>, others: Consumed)
    requires !InArray(Trim(a), others) && !InArray(Trim(b), others)
    ensures Leftover([a, b] + tail, others) == [Trim(a), Trim(b)] + Leftover(tail, others)
  {
    LeftoverAppend([a, b], tail, others);
    assert [a, b] == [a] + [b];
    LeftoverAppend([a], [b], others);
    LeftoverOne(a, others);
    LeftoverOne(b, others);
  }

  /** The `foreach` that pushes every unconsumed trimmed segment of `rest` onto `$formats`. */
  method Formats(rest: string, others: Consumed) returns (formats: seq<string>)
    ensures formats == Leftover(Split(rest, ','), others)
  {
    var parts := Split(rest, ',');
    formats := [];
    var i := 0;
    while i < |parts|
      invariant 0 <= i <= |parts|
      invariant formats == Leftover(parts[..i], others)
    {
      assert parts[..i + 1][..i] == parts[..i];
      var part := Trim(parts[i]);
      if !InArray(part, others) {
        formats := formats + [part];
      }
      i := i + 1;
    }
    assert parts[..i] == parts;
  }

  /** `([^\s]+)` at `p`: the end of the first word when one starts here. */
  function WordAt(s: string, p: nat): (r: Option<nat>)
    ensures r.Some? ==> p < r.value <= |s|
  {
    if p < |s| && NotSpace(s[p]) then Some(SpanEnd(s, p, NotSpace)) else None
  }

  predicate NotSlashOrClose(c: char) { c != '/' && c != ')' }

  predicate NotSpaceOrClose(c: char) { NotSpace(c) && c != ')' }

  /** `/\(([^\/\)]+)\)/` at `p`: a parenthesised group without `/`. */
  function ProfileAt(s: string, p: nat): (r: Option<string>)
    ensures r.Some? ==> |r.value| > 0 && '/' !in r.value && ')' !in r.value
  {
    if p < |s| && s[p] == '(' then
      var e := SpanEnd(s, p + 1, NotSlashOrClose);
      if e > p + 1 && e < |s| && s[e] == ')' then
        assert forall i :: p + 1 <= i < e ==> NotSlashOrClose(s[i]);
        Some(s[p + 1..e])
      else None
    else None
  }

  /** `/\(([^\s]+)\s\/\s([^\s\)]+)\)/` at `p`: a `(tag / tag_string)` group. */
  function TagAt(s: string, p: nat): (r: Option<(string, string)>)
    ensures r.Some? ==> |r.value.0| > 0 && |r.value.1| > 0
    ensures r.Some? ==> forall i :: 0 <= i < |r.value.1| ==> NotSpaceOrClose(r.value.1[i])
  {
    if p < |s| && s[p] == '(' then
      var e1 := SpanEnd(s, p + 1, NotSpace);
      if e1 > p + 1 && e1 + 3 <= |s| && IsSpace(s[e1]) && s[e1 + 1] == '/' && IsSpace(s[e1 + 2]) then
        var e2 := SpanEnd(s, e1 + 3, NotSpaceOrClose);
        if e2 > e1 + 3 && e2 < |s| && s[e2] == ')' then Some((s[p + 1..e1], s[e1 + 3..e2])) else None
      else None
    else None
  }

  /** `(\s*.*)?` from `e`: the blanks after the word and the rest of the line they reach. */
  function WordTail(text: string, e: nat): (r: string)
    requires e <= |text|
    ensures HasAt(text, e, r)
  {
    text[e..SpanEnd(text, SpanEnd(text, e, IsSpace), NotNewline)]
  }

  /** A profile or tag found in the text after the codec's first word. */
  function Found<T>(h: Option<Hit<T>>): Option<T> {
    if h.Some? then Some(h.value.val) else None
  }

  /**
   * The codec details of the first leftover segment. `name` starts as the raw text
   * and becomes its first word when it has one; `profile` is the first
   * parenthesised group without `/` after that word, and `tag` and `tag_string`
   * the two halves of the first `(tag / tag_string)` group after it.
   */
  function CodecOf(raw: Option<string>): (c: Codec)
    ensures c.raw == raw
    ensures raw.None? ==> c == Codec(None, None, None, None, None)
    ensures raw.Some? && c.name.Some? ==> |c.name.value| <= |raw.value|
    ensures raw.Some? && (exists i :: 0 <= i < |raw.value| && NotSpace(raw.value[i])) ==>
              c.name.Some? && |c.name.value| > 0 && forall i :: 0 <= i < |c.name.value| ==> NotSpace(c.name.value[i])
    ensures raw.Some? && (forall i :: 0 <= i < |raw.value| ==> IsSpace(raw.value[i])) ==>
              c == Codec(raw, None, None, None, raw)
    ensures raw.Some? && FirstFrom(raw.value, 0, WordAt).Some? ==>
              var w := FirstFrom(raw.value, 0, WordAt).value;
              var after := WordTail(raw.value, w.val);
              && c.name == Some(raw.value[w.pos..w.val])
              && c.profile == Found(FirstFrom(after, 0, ProfileAt))
              && c.tag == (if FirstFrom(after, 0, TagAt).Some? then Some(FirstFrom(after, 0, TagAt).value.val.0) else None)
              && c.tagString == (if FirstFrom(after, 0, TagAt).Some? then Some(FirstFrom(after, 0, TagAt).value.val.1) else None)
  {
    match raw
    case None => Codec(None, None, None, None, None)
    case Some(text) =>
      match FirstFrom(text, 0, WordAt)
      case None =>
        assert forall i :: 0 <= i < |text| ==> IsSpace(text[i]) by {
          forall i | 0 <= i < |text| ensures IsSpace(text[i]) {
            assert WordAt(text, i).None?;
          }
        }
        Codec(raw, None, None, None, raw)
      case Some(w) =>
        var after := WordTail(text, w.val);
        var tag := FirstFrom(after, 0, TagAt);
        var name := text[w.pos..w.val];
        assert forall i :: w.pos <= i < w.val ==> NotSpace(text[i]);
        assert forall i :: 0 <= i < |name| ==> name[i] == text[w.pos + i];
        Codec(Some(name),
              Found(FirstFrom(after, 0, ProfileAt)),
              if tag.Some? then Some(tag.value.val.1) else None,
              if tag.Some? then Some(tag.value.val.0) else None,
              raw)
  }

  /** A character of a profile that is also one word: no blank, `/`, `(` or `)`. */
  predicate IsProfileChar(c: char) { NotSpace(c) && c != '/' && c != '(' && c != ')' }

  /**
   * `<name> (<profile>) (<tag> / <tag_string>)`, as ffmpeg prints a codec, gives
   * each of the four pieces in its own field.
   */
  lemma CodecOfLine(name: string, profile: string, tag: string, tagString: string)
    requires |name| > 0 && forall i :: 0 <= i < |name| ==> NotSpace(name[i])
    requires |profile| > 0 && forall i :: 0 <= i < |profile| ==> IsProfileChar(profile[i])
    requires |tag| > 0 && forall i :: 0 <= i < |tag| ==> NotSpace(tag[i])
    requires |tagString| > 0 && forall i :: 0 <= i < |tagString| ==> NotSpaceOrClose(tagString[i])
    ensures var text := name + " (" + profile + ") (" + tag + " / " + tagString + ")";
      CodecOf(Some(text)) == Codec(Some(name), Some(profile), Some(tagString), Some(tag), Some(text))
  {
    var after := " (" + profile + ") (" + tag + " / " + tagString + ")";
    var text := name + after;
    assert text == name + " (" + profile + ") (" + tag + " / " + tagString + ")";
    CodecWord(name, after);
    CodecProfile(profile, tag, tagString);
    CodecTag(profile, tag, tagString);
  }

  /** The first word of `name + after` is `name`, and the rest of the line is `after`. */
  lemma CodecWord(name: string, after: string)
    requires |name| > 0 && forall i :: 0 <= i < |name| ==> NotSpace(name[i])
    requires |after| > 1 && after[0] == ' ' && NotSpace(after[1]) && '\n' !in after
    ensures FirstFrom(name + after, 0, WordAt).Some?
    ensures FirstFrom(name + after, 0, WordAt).value.pos == 0 && FirstFrom(name + after, 0, WordAt).value.val == |name|
    ensures WordTail(name + after, |name|) == after
  {
    var text := name + after;
    var n := |name|;
    assert forall i :: 0 <= i < n ==> NotSpace(text[i]);
    SpanEndIs(text, 0, NotSpace, n);
    FirstFromIs(text, 0, WordAt, 0);
    assert text[n + 1] == after[1];
    SpanEndIs(text, n, IsSpace, n + 1);
    assert forall i :: n + 1 <= i < |text| ==> text[i] == after[i - n];
    SpanEndIs(text, n + 1, NotNewline, |text|);
    assert text[n..] == after;
  }

  /** After the word, the first group without `/` is the profile. */
  lemma CodecProfile(profile: string, tag: string, tagString: string)
    requires |profile| > 0 && forall i :: 0 <= i < |profile| ==> IsProfileChar(profile[i])
    ensures var after := " (" + profile + ") (" + tag + " / " + tagString + ")";
      FirstFrom(after, 0, ProfileAt) == Some(Hit(1, profile))
  {
    var after := " (" + profile + ") (" + tag + " / " + tagString + ")";
    var k := |profile|;
    assert forall i :: 2 <= i < k + 2 ==> after[i] == profile[i - 2];
    assert after[k + 2] == ')';
    SpanEndIs(after, 2, NotSlashOrClose, k + 2);
    assert after[2..k + 2] == profile;
    FirstFromIs(after, 0, ProfileAt, 1);
  }

  /** After the word, the first `(tag / tag_string)` group is the second group. */
  lemma CodecTag(profile: string, tag: string, tagString: string)
    requires |profile| > 0 && forall i :: 0 <= i < |profile| ==> IsProfileChar(profile[i])
    requires |tag| > 0 && forall i :: 0 <= i < |tag| ==> NotSpace(tag[i])
    requires |tagString| > 0 && forall i :: 0 <= i < |tagString| ==> NotSpaceOrClose(tagString[i])
    ensures var after := " (" + profile + ") (" + tag + " / " + tagString + ")";
      FirstFrom(after, 0, TagAt) == Some(Hit(|profile| + 4, (tag, tagString)))
  {
    var group := "(" + tag + " / " + tagString + ")";
    var after := " (" + profile + ") " + group;
    assert after == " (" + profile + ") (" + tag + " / " + tagString + ")";
    var q := |profile| + 4;
    assert after[q..] == group;
    TagAtIs(after, q, tag, tagString);
    NoTagInProfile(profile, group);
    FirstFromIs(after, 0, TagAt, q);
  }

  /** No `(tag / tag_string)` group starts in ` (<profile>) `. */
  lemma NoTagInProfile(profile: string, group: string)
    requires |profile| > 0 && forall i :: 0 <= i < |profile| ==> IsProfileChar(profile[i])
    requires |group| > 0 && group[0] == '('
    ensures forall j :: 0 <= j < |profile| + 4 ==> TagAt(" (" + profile + ") " + group, j).None?
  {
    var after := " (" + profile + ") " + group;
    var k := |profile|;
    assert forall i :: 2 <= i < k + 2 ==> after[i] == profile[i - 2];
    assert after[k + 2] == ')' && after[k + 3] == ' ' && after[k + 4] == '(';
    SpanEndIs(after, 2, NotSpace, k + 3);
    assert TagAt(after, 1).None?;
    forall j | 0 <= j < k + 4
      ensures TagAt(after, j).None?
    {
      if 2 <= j < k + 2 {
        assert after[j] == profile[j - 2];
      }
    }
  }

  /** A `(tag / tag_string)` group at `q` is matched there with its two halves. */
  lemma TagAtIs(s: string, q: nat, tag: string, tagString: string)
    requires |tag| > 0 && forall i :: 0 <= i < |tag| ==> NotSpace(tag[i])
    requires |tagString| > 0 && forall i :: 0 <= i < |tagString| ==> NotSpaceOrClose(tagString[i])
    requires q <= |s| && s[q..] == "(" + tag + " / " + tagString + ")"
    ensures TagAt(s, q) == Some((tag, tagString))
  {
    var t, g := |tag|, |tagString|;
    var u := s[q..];
    assert forall i :: 0 <= i < t ==> u[1 + i] == tag[i];
    assert u[1 + t] == ' ' && u[2 + t] == '/' && u[3 + t] == ' ';
    assert forall i :: 0 <= i < g ==> u[4 + t + i] == tagString[i];
    assert u[4 + t + g] == ')';
    assert forall i :: q <= i < |s| ==> s[i] == u[i - q];
    var e1, e2 := q + 1 + t, q + 4 + t + g;
    SpanEndIs(s, q + 1, NotSpace, e1);
    SpanEndIs(s, e1 + 3, NotSpaceOrClose, e2);
    assert s[q + 1..e1] == tag;
    assert s[e1 + 3..e2] == tagString;
  }

  /** The codec ffmpeg prints for an H.264 stream in the High profile. */
  lemma CodecOfH264()
    ensures CodecOf(Some("h264 (High) (avc1 / 0x31637661)")) ==
            Codec(Some("h264"), Some("High"), Some("0x31637661"), Some("avc1"), Some("h264 (High) (avc1 / 0x31637661)"))
  {
    var name, profile, tag, tagString := "h264", "High", "avc1", "0x31637661";
    CodecOfLine(name, profile, tag, tagString);
    H264Pieces();
  }

  /** The codec text of an H.264 stream, assembled from its four pieces. */
  lemma H264Pieces()
    ensures "h264" + " (" + "High" + ") (" + "avc1" + " / " + "0x31637661" + ")" == "h264 (High) (avc1 / 0x31637661)"
  {
  }
}
