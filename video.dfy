/**
 * getFileVideoComponent: the `video` array built from the first
 * `Stream ...: Video: ...` line of the ffmpeg output and the metadata block
 * printed under it.
 */
module Video {
  import opened Wrappers
  import opened Text
  import opened Numbers
  import opened Media
  import opened Assoc
  import opened Metadata
  import opened StreamLine

  // ---------------------------------------------------------------------------
  // Aspect ratios
  // ---------------------------------------------------------------------------

  /** `[0-9\:\.]`. */
  predicate IsRatioChar(c: char) { IsDigit(c) || c == ':' || c == '.' }

  /** `[P|S]`: the class the source writes also admits the bar. */
  predicate IsRatioKind(c: char) { c == 'P' || c == '|' || c == 'S' }

  /** The pixel (`SAR`/`PAR`) and display (`DAR`) aspect ratios, as printed. */
  datatype Ratios = Ratios(pixel: string, display: string)

  predicate IsRatioText(r: string) {
    |r| > 0 && forall i :: 0 <= i < |r| ==> IsRatioChar(r[i])
  }

  /**
   * `[P|S]AR\s+([0-9\:\.]+)\s+` at `p`: the pixel ratio, and where the blanks after
   * it end. No ratio character is a blank, so the ratio is the whole run of ratio
   * characters.
   */
  function PixelAt(s: string, p: nat): (r: Option<Match<string>>)
    ensures r.Some? ==> IsRatioText(r.value.val) && r.value.end <= |s|
  {
    if p < |s| && IsRatioKind(s[p]) && HasAt(s, p + 1, "AR") then
      var a := SpanEnd(s, p + 3, IsSpace);
      var b := SpanEnd(s, a, IsRatioChar);
      var c := SpanEnd(s, b, IsSpace);
      if a > p + 3 && b > a && c > b then
        assert forall i :: a <= i < b ==> IsRatioChar(s[i]);
        Some(Match(s[a..b], c))
      else None
    else None
  }

  /** `DAR\s+([0-9\:\.]+)` at `c`: the display ratio, and where it ends. */
  function DisplayAt(s: string, c: nat): (r: Option<Match<string>>)
    ensures r.Some? ==> IsRatioText(r.value.val)
    ensures r.Some? ==> r.value.end <= |s| && (r.value.end < |s| ==> !IsRatioChar(s[r.value.end]))
  {
    if HasAt(s, c, "DAR") then
      var d := SpanEnd(s, c + 3, IsSpace);
      var e := SpanEnd(s, d, IsRatioChar);
      if d > c + 3 && e > d then
        assert forall i :: d <= i < e ==> IsRatioChar(s[i]);
        Some(Match(s[d..e], e))
      else None
    else None
  }

  /** `[P|S]AR\s+([0-9\:\.]+)\s+DAR\s+([0-9\:\.]+)` at `p`. */
  function RatiosFrom(s: string, p: nat): (r: Option<Match<Ratios>>)
    ensures r.Some? ==> IsRatioText(r.value.val.pixel) && IsRatioText(r.value.val.display)
    ensures r.Some? ==> r.value.end <= |s| && (r.value.end < |s| ==> !IsRatioChar(s[r.value.end]))
  {
    match PixelAt(s, p)
    case None => None
    case Some(px) =>
      match DisplayAt(s, px.end)
      case None => None
      case Some(dp) => Some(Match(Ratios(px.val, dp.val), dp.end))
  }

  /** The bracketed form `\[[P|S]AR ... DAR ...\]` at `p`. */
  function BracketedRatiosAt(s: string, p: nat): (r: Option<Ratios>)
    ensures r.Some? ==> p < |s| && s[p] == '['
  {
    if p < |s| && s[p] == '[' then
      match RatiosFrom(s, p + 1)
      case None => None
      case Some(m) => if m.end < |s| && s[m.end] == ']' then Some(m.val) else None
    else None
  }

  function PlainRatiosAt(s: string, p: nat): Option<Ratios> {
    match RatiosFrom(s, p)
    case None => None
    case Some(m) => Some(m.val)
  }

  /** The first bracketed pair of ratios on the line, otherwise the first unbracketed one. */
  function RatiosOf(line: string): (r: Option<Ratios>)
    ensures FirstFrom(line, 0, BracketedRatiosAt).Some? ==> r == Some(FirstFrom(line, 0, BracketedRatiosAt).value.val)
    ensures FirstFrom(line, 0, BracketedRatiosAt).None? && FirstFrom(line, 0, PlainRatiosAt).Some? ==>
              r == Some(FirstFrom(line, 0, PlainRatiosAt).value.val)
    ensures r.None? <==> FirstFrom(line, 0, BracketedRatiosAt).None? && FirstFrom(line, 0, PlainRatiosAt).None?
  {
    match FirstFrom(line, 0, BracketedRatiosAt)
    case Some(h) => Some(h.val)
    case None =>
      match FirstFrom(line, 0, PlainRatiosAt)
      case Some(h) => Some(h.val)
      case None => None
  }

  /**
   * The display ratio as the two numbers the source compares: `w.d` (matching
   * `^[0-9]+\.[0-9]+$`) as its value over 1, `n:m` (matching `^[0-9]+:[0-9]+$`) as
   * `n` over `m`; anything else gives no pair and never triggers the swap.
   */
  function DarPair(dar: string): (r: Option<(real, real)>)
    ensures r.Some? ==> exists k :: 0 < k < |dar| - 1 && (dar[k] == '.' || dar[k] == ':')
                                 && AllDigits(dar[..k]) && AllDigits(dar[k + 1..])
  {
    var ip := LeadingDigits(dar);
    var k := |ip|;
    if 0 < k < |dar| - 1 && AllDigits(dar[k + 1..]) then
      if dar[k] == '.' then Some((DecimalValue(ip, dar[k + 1..]), 1.0))
      else if dar[k] == ':' then Some((DigitsValue(ip) as real, DigitsValue(dar[k + 1..]) as real))
      else None
    else None
  }

  /** A display ratio written as digits, one separator that is not a digit, and digits. */
  lemma DarParts(ip: string, sep: char, fp: string)
    requires AllDigits(ip) && AllDigits(fp) && !IsDigit(sep)
    ensures var dar := ip + [sep] + fp;
      && LeadingDigits(dar) == ip && |dar| == |ip| + 1 + |fp|
      && dar[|ip|] == sep && dar[|ip| + 1..] == fp
  {
    var dar := ip + [sep] + fp;
    assert dar == ip + ([sep] + fp);
    LeadingDigitsOf(ip, [sep] + fp);
    assert dar[|ip| + 1..] == fp;
  }

  /** `n:m` reads as the pair (n, m). */
  lemma DarPairOfColon(n: nat, m: nat)
    ensures DarPair(NatToString(n) + ":" + NatToString(m)) == Some((n as real, m as real))
  {
    var a, b := NatToString(n), NatToString(m);
    DarParts(a, ':', b);
    assert a + ":" + b == a + [':'] + b;
    NatToStringRoundTrip(n);
    NatToStringRoundTrip(m);
  }

  /** `w.d` reads as the decimal value over 1. */
  lemma DarPairOfDecimal(ip: string, fp: string)
    requires |ip| > 0 && |fp| > 0 && AllDigits(ip) && AllDigits(fp)
    ensures DarPair(ip + "." + fp) == Some((DecimalValue(ip, fp), 1.0))
  {
    DarParts(ip, '.', fp);
    assert ip + "." + fp == ip + ['.'] + fp;
  }

  // ---------------------------------------------------------------------------
  // Dimensions
  // ---------------------------------------------------------------------------

  predicate IsNonZeroDigit(c: char) { '1' <= c <= '9' }

  /** A `/([1-9][0-9]*)x([1-9][0-9]*)/` match: the two numerals and the whole text. */
  datatype SizeMatch = SizeMatch(width: string, height: string, text: string)

  predicate IsSizeNumeral(t: string) {
    |t| > 0 && IsNonZeroDigit(t[0]) && AllDigits(t)
  }

  /** A size numeral starts with a nonzero digit, so its value is at least one. */
  lemma {:induction false} SizeNumeralPositive(t: string)
    requires IsSizeNumeral(t)
    ensures DigitsValue(t) >= 1
  {
    if |t| > 1 {
      var u := t[..|t| - 1];
      assert u[0] == t[0];
      SizeNumeralPositive(u);
    }
  }

  function SizeAt(s: string, p: nat): (r: Option<SizeMatch>)
    ensures r.Some? ==> IsSizeNumeral(r.value.width) && IsSizeNumeral(r.value.height)
    ensures r.Some? ==> r.value.text == r.value.width + "x" + r.value.height
  {
    if p < |s| && IsNonZeroDigit(s[p]) then
      var e1 := SpanEnd(s, p + 1, IsDigit);
      if e1 + 1 < |s| && s[e1] == 'x' && IsNonZeroDigit(s[e1 + 1]) then
        var e2 := SpanEnd(s, e1 + 2, IsDigit);
        SizeParts(s, p, e1, e2);
        Some(SizeMatch(s[p..e1], s[e1 + 1..e2], s[p..e2]))
      else None
    else None
  }

  /** The two numerals of a size match and the text that joins them. */
  lemma SizeParts(s: string, p: nat, e1: nat, e2: nat)
    requires p < e1 && e1 + 1 < e2 <= |s| && IsNonZeroDigit(s[p]) && s[e1] == 'x' && IsNonZeroDigit(s[e1 + 1])
    requires forall i :: p + 1 <= i < e1 ==> IsDigit(s[i])
    requires forall i :: e1 + 2 <= i < e2 ==> IsDigit(s[i])
    ensures IsSizeNumeral(s[p..e1]) && IsSizeNumeral(s[e1 + 1..e2])
    ensures s[p..e2] == s[p..e1] + "x" + s[e1 + 1..e2]
  {
    var w, h := s[p..e1], s[e1 + 1..e2];
    assert forall i :: 0 <= i < |w| ==> w[i] == s[p + i];
    assert forall i :: 0 <= i < |h| ==> h[i] == s[e1 + 1 + i];
  }

  /** The display ratio is a portrait one: its first number is below its second. */
  predicate PortraitDar(dar: Option<string>) {
    dar.Some? && DarPair(dar.value).Some? && DarPair(dar.value).value.0 < DarPair(dar.value).value.1
  }

  /**
   * The `dimensions` array and the matched text that joins `$other_parts` (null
   * without a match). The fix for rotated videos exchanges width and height when
   * the display ratio is portrait but the printed size is landscape.
   */
  function DimensionsOf(rest: string, dar: Option<string>): (r: (Dimensions, Option<string>))
    ensures FirstFrom(rest, 0, SizeAt).None? ==> r == (Dimensions(None, None, false), None)
    ensures FirstFrom(rest, 0, SizeAt).Some? ==>
              var m := FirstFrom(rest, 0, SizeAt).value.val;
              var w, h := DigitsValue(m.width), DigitsValue(m.height);
              && r.1 == Some(m.text)
              && r.0.width.Some? && r.0.height.Some?
              && (r.0.aspectRatioFixWarning <==> PortraitDar(dar) && w > h)
              && (r.0.aspectRatioFixWarning ==> (r.0.width.value, r.0.height.value) == (h, w) && r.0.width.value < r.0.height.value)
              && (!r.0.aspectRatioFixWarning ==> (r.0.width.value, r.0.height.value) == (w, h))
    ensures r.0.width.Some? ==> r.0.width.value >= 1 && r.0.height.value >= 1
  {
    match FirstFrom(rest, 0, SizeAt)
    case None => (Dimensions(None, None, false), None)
    case Some(hit) =>
      SizeNumeralPositive(hit.val.width);
      SizeNumeralPositive(hit.val.height);
      var w, h := DigitsValue(hit.val.width), DigitsValue(hit.val.height);
      var swap := PortraitDar(dar) && w > h;
      (Dimensions(Some(if swap then h else w), Some(if swap then w else h), swap), Some(hit.val.text))
  }

  // ---------------------------------------------------------------------------
  // Time bases and frames
  // ---------------------------------------------------------------------------

  /** `[0-9\.k]`. */
  predicate IsTimeBaseChar(c: char) { IsDigit(c) || c == '.' || c == 'k' }

  /** The four abbreviations ffmpeg prints after a time base. */
  predicate IsTimeBaseName(a: string) { a == "fps" || a == "tbr" || a == "tbc" || a == "tbn" }

  /** One `/([0-9\.k]+)\s+(fps|tbr|tbc|tbn)/` match: its value, its name and its whole text. */
  datatype TimeBase = TimeBase(value: string, name: string, text: string)

  function TimeBaseAt(s: string, p: nat): (r: Option<Match<TimeBase>>)
    ensures r.Some? ==> IsTimeBaseName(r.value.val.name) && |r.value.val.value| > 0
    ensures r.Some? ==> p < r.value.end <= |s| && r.value.val.text == s[p..r.value.end]
    ensures r.Some? ==> IsTimeBaseChar(r.value.val.text[0])
  {
    if p < |s| && IsTimeBaseChar(s[p]) then
      var e := SpanEnd(s, p, IsTimeBaseChar);
      var w := SpanEnd(s, e, IsSpace);
      if w > e && w + 3 <= |s| && IsTimeBaseName(s[w..w + 3]) then
        Some(Match(TimeBase(s[p..e], s[w..w + 3], s[p..w + 3]), w + 3))
      else None
    else None
  }

  /** `preg_match_all` of the time-base pattern over the header line. */
  function TimeBaseMatches(line: string): seq<TimeBase> {
    AllFrom(line, 0, TimeBaseAt)
  }

  /** Every time base found carries one of the four abbreviations. */
  lemma TimeBaseNames(line: string)
    ensures forall i :: 0 <= i < |TimeBaseMatches(line)| ==> IsTimeBaseName(TimeBaseMatches(line)[i].name)
  {
    AllFromFound(line, 0, TimeBaseAt, (tb: TimeBase) => IsTimeBaseName(tb.name));
  }

  /** Every time base found, and so their `implode`, opens with `[0-9.k]`. */
  lemma TimeBaseTextStarts(line: string)
    ensures var glued := Implode(TimeBaseTexts(TimeBaseMatches(line)), ", ");
      glued != [] ==> IsTimeBaseChar(glued[0])
  {
    var tbs := TimeBaseMatches(line);
    AllFromFound(line, 0, TimeBaseAt, (tb: TimeBase) => |tb.text| > 0 && IsTimeBaseChar(tb.text[0]));
    if tbs != [] {
      ImplodeHead(TimeBaseTexts(tbs), ", ");
    }
  }

  /** The (name, value) pairs assigned into `time_bases`, in match order. */
  function TimeBasePairs(tbs: seq<TimeBase>): (r: seq<(string, string)>)
    ensures |r| == |tbs| && forall i :: 0 <= i < |tbs| ==> r[i] == (tbs[i].name, tbs[i].value)
  {
    if tbs == [] then [] else [(tbs[0].name, tbs[0].value)] + TimeBasePairs(tbs[1..])
  }

  function TimeBaseTexts(tbs: seq<TimeBase>): (r: seq<string>)
    ensures |r| == |tbs| && forall i :: 0 <= i < |tbs| ==> r[i] == tbs[i].text
  {
    if tbs == [] then [] else [tbs[0].text] + TimeBaseTexts(tbs[1..])
  }

  /** The frame rate: the `fps` time base when there is one, else `tbr`, read as a float. */
  function FrameRate(timeBases: Entries): (r: Option<real>)
    ensures Lookup(timeBases, "fps").Some? ==> r == Some(FloatOfNumeral(Lookup(timeBases, "fps").value))
    ensures Lookup(timeBases, "fps").None? && Lookup(timeBases, "tbr").Some? ==>
              r == Some(FloatOfNumeral(Lookup(timeBases, "tbr").value))
    ensures r.None? <==> Lookup(timeBases, "fps").None? && Lookup(timeBases, "tbr").None?
  {
    match Lookup(timeBases, "fps")
    case Some(v) => Some(FloatOfNumeral(v))
    case None =>
      match Lookup(timeBases, "tbr")
      case Some(v) => Some(FloatOfNumeral(v))
      case None => None
  }

  /**
   * The `frames` array: the rate, and the total number of frames, the duration in
   * seconds times the rate rounded up, when the file has a duration.
   */
  function FramesOf(rate: Option<real>, duration: Option<Timecode>): (r: Frames)
    ensures r.rate == rate
    ensures r.total.Some? <==> rate.Some? && duration.Some?
    ensures r.total.Some? ==> duration.value.seconds * rate.value <= r.total.value as real < duration.value.seconds * rate.value + 1.0
  {
    if rate.Some? && duration.Some? then Frames(Some(Ceil(duration.value.seconds * rate.value)), rate)
    else Frames(None, rate)
  }

  /** Ten seconds at 29.97 frames per second make 300 frames. */
  lemma FramesOfNtsc(reader: TimecodeReader)
    ensures FramesOf(Some(FloatOfNumeral("29.97")), Some(Timecode("00:00:10.00", TimecodeInput, 10.0))).total == Some(300)
  {
    NtscRate();
    assert 10.0 * 29.97 == 299.7;
    assert Ceil(299.7) == 300;
  }

  /** The time base `29.97` is read as the frame rate 29.97. */
  lemma NtscRate()
    ensures FloatOfNumeral("29.97") == 29.97
  {
    assert "29.97" == "29" + "." + "97" + "";
    FloatOfDecimal("29", "97", "");
    NtscDecimal();
  }

  /** The digits 29 and 97 on either side of the point stand for 29.97. */
  lemma NtscDecimal()
    ensures DecimalValue("29", "97") == 29.97
  {
    DigitsValueTwo("29");
    DigitsValueTwo("97");
    assert Pow10(2) == 100;
    assert Fraction(97, 100) == 0.97;
  }

  // ---------------------------------------------------------------------------
  // What the extractors read back from the text ffmpeg prints
  // ---------------------------------------------------------------------------

  /** A `SAR <a> DAR <b>` text at `p` of `s`, described by its pieces. */
  predicate RatioTextAt(s: string, p: nat, a: string, b: string) {
    && p + 9 + |a| + |b| <= |s|
    && s[p..p + 4] == "SAR " && s[p + 4..p + 4 + |a|] == a
    && s[p + 4 + |a|..p + 9 + |a|] == " DAR " && s[p + 9 + |a|..p + 9 + |a| + |b|] == b
  }

  lemma RatioTextChars(s: string, p: nat, a: string, b: string)
    requires p + 9 + |a| + |b| <= |s| && s[p..p + 9 + |a| + |b|] == "SAR " + a + " DAR " + b
    ensures RatioTextAt(s, p, a, b)
  {
    assert "SAR " + a + " DAR " + b == ("SAR " + a) + (" DAR " + b);
    SliceSplit(s, p, "SAR " + a, " DAR " + b);
    SliceSplit(s, p, "SAR ", a);
    SliceSplit(s, p + 4 + |a|, " DAR ", b);
  }

  /** A ratio copied into `s` at `q` is one whole run of ratio characters. */
  lemma RatioRun(s: string, q: nat, r: string)
    requires IsRatioText(r) && q + |r| <= |s| && s[q..q + |r|] == r
    requires q + |r| < |s| ==> !IsRatioChar(s[q + |r|])
    ensures SpanEnd(s, q, IsRatioChar) == q + |r|
  {
    SliceChars(s, q, r);
    assert forall i :: q <= i < q + |r| ==> IsRatioChar(s[i]) by {
      forall i | q <= i < q + |r| ensures IsRatioChar(s[i]) {
        assert s[i] == r[i - q];
      }
    }
    SpanEndIs(s, q, IsRatioChar, q + |r|);
  }

  /** `SAR <a> ` followed by a `D` gives the pixel ratio `a`, with the display part at the `D`. */
  lemma PixelOfText(s: string, p: nat, a: string)
    requires IsRatioText(a) && p + 5 + |a| < |s|
    requires s[p..p + 4] == "SAR " && s[p + 4..p + 4 + |a|] == a && s[p + 4 + |a|] == ' ' && s[p + 5 + |a|] == 'D'
    ensures PixelAt(s, p) == Some(Match(a, p + 5 + |a|))
  {
    SliceChars(s, p, "SAR ");
    assert s[p + 1..p + 3] == s[p..p + 4][1..3];
    assert s[p + 4] == s[p + 4..p + 4 + |a|][0];
    SpanEndOne(s, p + 3, IsSpace);
    RatioRun(s, p + 4, a);
    SpanEndOne(s, p + 4 + |a|, IsSpace);
  }

  /** `DAR <b>` at `c`, not followed by a ratio character, gives the display ratio `b`. */
  lemma DisplayOfText(s: string, c: nat, b: string)
    requires IsRatioText(b) && c + 4 + |b| <= |s|
    requires s[c..c + 4] == "DAR " && s[c + 4..c + 4 + |b|] == b
    requires c + 4 + |b| < |s| ==> !IsRatioChar(s[c + 4 + |b|])
    ensures DisplayAt(s, c) == Some(Match(b, c + 4 + |b|))
  {
    assert s[c..c + 3] == s[c..c + 4][..3];
    assert s[c + 3] == s[c..c + 4][3];
    assert s[c + 4] == s[c + 4..c + 4 + |b|][0];
    SpanEndOne(s, c + 3, IsSpace);
    RatioRun(s, c + 4, b);
  }

  /** The pattern matches a `SAR <a> DAR <b>` text at `p`, capturing `a` and `b`. */
  lemma RatiosFromText(s: string, p: nat, a: string, b: string)
    requires IsRatioText(a) && IsRatioText(b)
    requires RatioTextAt(s, p, a, b)
    requires p + 9 + |a| + |b| < |s| ==> !IsRatioChar(s[p + 9 + |a| + |b|])
    ensures RatiosFrom(s, p) == Some(Match(Ratios(a, b), p + 9 + |a| + |b|))
  {
    PixelOfRatioText(s, p, a, b);
    DisplayOfRatioText(s, p, a, b);
    RatiosFromParts(s, p, a, p + 5 + |a|, b, p + 9 + |a| + |b|);
  }

  lemma PixelOfRatioText(s: string, p: nat, a: string, b: string)
    requires IsRatioText(a) && RatioTextAt(s, p, a, b)
    ensures PixelAt(s, p) == Some(Match(a, p + 5 + |a|))
  {
    DarLiteral(s, p + 4 + |a|);
    PixelOfText(s, p, a);
  }

  lemma DisplayOfRatioText(s: string, p: nat, a: string, b: string)
    requires IsRatioText(b) && RatioTextAt(s, p, a, b)
    requires p + 9 + |a| + |b| < |s| ==> !IsRatioChar(s[p + 9 + |a| + |b|])
    ensures DisplayAt(s, p + 5 + |a|) == Some(Match(b, p + 9 + |a| + |b|))
  {
    DarLiteral(s, p + 4 + |a|);
    DisplayOfText(s, p + 5 + |a|, b);
  }

  /** The pieces of the literal ` DAR `. */
  lemma DarLiteral(s: string, x: nat)
    requires x + 5 <= |s| && s[x..x + 5] == " DAR "
    ensures s[x] == ' ' && s[x + 1] == 'D' && s[x + 1..x + 5] == "DAR "
  {
    SliceOfSlice(s, x, x + 5, 1, 5);
    assert s[x] == s[x..x + 5][0];
  }

  /** The pattern matches where its pixel part matches and its display part follows. */
  lemma RatiosFromParts(s: string, p: nat, a: string, c: nat, b: string, e: nat)
    requires PixelAt(s, p) == Some(Match(a, c)) && DisplayAt(s, c) == Some(Match(b, e))
    ensures RatiosFrom(s, p) == Some(Match(Ratios(a, b), e))
  {
  }

  /** `[SAR <a> DAR <b>]` gives the two ratios. */
  lemma RatiosOfBracketed(a: string, b: string, rest: string)
    requires IsRatioText(a) && IsRatioText(b)
    ensures RatiosOf("[SAR " + a + " DAR " + b + "]" + rest) == Some(Ratios(a, b))
  {
    var s := "[SAR " + a + " DAR " + b + "]" + rest;
    var e := 10 + |a| + |b|;
    assert s[1..e] == "SAR " + a + " DAR " + b && s[e] == ']' && s[0] == '[';
    BracketedText(s, a, b);
  }

  /** A line that starts `[SAR <a> DAR <b>]`, described by its slices. */
  lemma BracketedText(s: string, a: string, b: string)
    requires IsRatioText(a) && IsRatioText(b)
    requires 10 + |a| + |b| < |s| && s[0] == '[' && s[10 + |a| + |b|] == ']'
    requires s[1..10 + |a| + |b|] == "SAR " + a + " DAR " + b
    ensures FirstFrom(s, 0, BracketedRatiosAt) == Some(Hit(0, Ratios(a, b)))
  {
    RatioTextChars(s, 1, a, b);
    RatiosFromText(s, 1, a, b);
    BracketedFirst(s, 10 + |a| + |b|, Ratios(a, b));
  }

  /** A bracketed pair of ratios at the start of the line is the first one found. */
  lemma BracketedFirst(s: string, e: nat, r: Ratios)
    requires e < |s| && s[0] == '[' && s[e] == ']' && RatiosFrom(s, 1) == Some(Match(r, e))
    ensures FirstFrom(s, 0, BracketedRatiosAt) == Some(Hit(0, r))
  {
    assert BracketedRatiosAt(s, 0) == Some(r);
    FirstFromIs(s, 0, BracketedRatiosAt, 0);
  }

  /** Without brackets on the line, `SAR <a> DAR <b>` gives the two ratios. */
  lemma RatiosOfPlain(a: string, b: string, rest: string)
    requires IsRatioText(a) && IsRatioText(b)
    requires '[' !in rest && (rest == [] || !IsRatioChar(rest[0]))
    ensures RatiosOf("SAR " + a + " DAR " + b + rest) == Some(Ratios(a, b))
  {
    var t := "SAR " + a + " DAR " + b;
    var s := t + rest;
    var e := 9 + |a| + |b|;
    assert s[..e] == t;
    assert e < |s| ==> s[e] == rest[0];
    NoBracket(a, b);
    PlainText(s, a, b);
  }

  /** A `SAR <a> DAR <b>` text holds no bracket. */
  lemma NoBracket(a: string, b: string)
    requires IsRatioText(a) && IsRatioText(b)
    ensures '[' !in "SAR " + a + " DAR " + b
  {
    assert '[' !in a && '[' !in b by {
      assert forall i :: 0 <= i < |a| ==> IsRatioChar(a[i]);
      assert forall i :: 0 <= i < |b| ==> IsRatioChar(b[i]);
    }
  }

  /** A bracket-free line that starts `SAR <a> DAR <b>`, described by its slices. */
  lemma PlainText(s: string, a: string, b: string)
    requires IsRatioText(a) && IsRatioText(b) && '[' !in s
    requires 9 + |a| + |b| <= |s| && s[..9 + |a| + |b|] == "SAR " + a + " DAR " + b
    requires 9 + |a| + |b| < |s| ==> !IsRatioChar(s[9 + |a| + |b|])
    ensures RatiosOf(s) == Some(Ratios(a, b))
  {
    forall q: nat | q <= |s|
      ensures BracketedRatiosAt(s, q).None?
    {
      assert q < |s| ==> s[q] != '[';
    }
    FirstFromNone(s, 0, BracketedRatiosAt);
    assert s[0..9 + |a| + |b|] == s[..9 + |a| + |b|];
    RatioTextChars(s, 0, a, b);
    RatiosFromText(s, 0, a, b);
    FirstFromIs(s, 0, PlainRatiosAt, 0);
  }

  /** The size pattern reads `<a>x<b>` at the start of the text. */
  lemma SizeAtText(a: string, b: string, rest: string)
    requires IsSizeNumeral(a) && IsSizeNumeral(b)
    requires rest == [] || !IsDigit(rest[0])
    ensures SizeAt(a + "x" + b + rest, 0) == Some(SizeMatch(a, b, a + "x" + b))
  {
    var s := a + "x" + b + rest;
    var n := |a|;
    var e2 := n + 1 + |b|;
    assert IsNonZeroDigit(s[0]) && SpanEnd(s, 1, IsDigit) == n && s[n] == 'x' && IsNonZeroDigit(s[n + 1]) by {
      assert forall i :: 0 <= i < n ==> s[i] == a[i];
      assert s[n] == 'x' && s[n + 1] == b[0];
      SpanEndIs(s, 1, IsDigit, n);
    }
    assert SpanEnd(s, n + 2, IsDigit) == e2 by {
      assert forall i :: n + 1 <= i < e2 ==> s[i] == b[i - n - 1];
      assert e2 < |s| ==> s[e2] == rest[0];
      SpanEndIs(s, n + 2, IsDigit, e2);
    }
    assert s[..n] == a && s[n + 1..e2] == b && s[..e2] == a + "x" + b;
  }

  /** A positive number prints as a size numeral. */
  lemma SizeNumeralOf(w: nat)
    requires w > 0
    ensures IsSizeNumeral(NatToString(w))
  {
  }

  /** `<w>x<h>` gives width `w` and height `h` when the display ratio calls for no fix. */
  lemma DimensionsOfText(w: nat, h: nat, rest: string, dar: Option<string>)
    requires w > 0 && h > 0
    requires rest == [] || !IsDigit(rest[0])
    requires !PortraitDar(dar) || w <= h
    ensures DimensionsOf(NatToString(w) + "x" + NatToString(h) + rest, dar).0 == Dimensions(Some(w), Some(h), false)
  {
    var s := NatToString(w) + "x" + NatToString(h) + rest;
    SizeNumeralOf(w);
    SizeNumeralOf(h);
    SizeAtText(NatToString(w), NatToString(h), rest);
    FirstFromIs(s, 0, SizeAt, 0);
    NatToStringRoundTrip(w);
    NatToStringRoundTrip(h);
  }

  /** `<w>x<h>` under a portrait display ratio, with `w > h`, is taken as `h` wide and `w` high. */
  lemma DimensionsOfRotated(w: nat, h: nat, rest: string, n: nat, m: nat)
    requires w > h > 0 && n < m
    requires rest == [] || !IsDigit(rest[0])
    ensures DimensionsOf(NatToString(w) + "x" + NatToString(h) + rest, Some(NatToString(n) + ":" + NatToString(m))).0
              == Dimensions(Some(h), Some(w), true)
  {
    var s := NatToString(w) + "x" + NatToString(h) + rest;
    SizeNumeralOf(w);
    SizeNumeralOf(h);
    SizeAtText(NatToString(w), NatToString(h), rest);
    FirstFromIs(s, 0, SizeAt, 0);
    NatToStringRoundTrip(w);
    NatToStringRoundTrip(h);
    DarPairOfColon(n, m);
  }

  /** `<v> fps` at the start of the line is the first time base found. */
  lemma TimeBaseOfText(v: string, name: string, rest: string)
    requires |v| > 0 && forall i :: 0 <= i < |v| ==> IsTimeBaseChar(v[i])
    requires IsTimeBaseName(name)
    ensures TimeBaseMatches(v + " " + name + rest) != []
    ensures TimeBaseMatches(v + " " + name + rest)[0] == TimeBase(v, name, v + " " + name)
  {
    var s := v + " " + name + rest;
    var n := |v|;
    assert s[..n] == v && s[n] == ' ' && s[n + 1..n + 4] == name && s[..n + 4] == v + " " + name;
    TimeBaseAtIs(s, v, name);
    FirstFromIs(s, 0, TimeBaseAt, 0);
  }

  /** A time base at the start of `s`, described by its pieces. */
  lemma TimeBaseAtIs(s: string, v: string, name: string)
    requires |v| > 0 && forall i :: 0 <= i < |v| ==> IsTimeBaseChar(v[i])
    requires IsTimeBaseName(name)
    requires |v| + 4 <= |s| && s[..|v|] == v && s[|v|] == ' ' && s[|v| + 1..|v| + 4] == name
    ensures TimeBaseAt(s, 0) == Some(Match(TimeBase(v, name, s[..|v| + 4]), |v| + 4))
  {
    var n := |v|;
    assert s[0] == v[0] && s[n + 1] == name[0];
    assert forall i :: 0 <= i < n ==> IsTimeBaseChar(s[i]) by {
      SliceChars(s, 0, v);
    }
    SpanEndIs(s, 0, IsTimeBaseChar, n);
    SpanEndOne(s, n, IsSpace);
  }

  // ---------------------------------------------------------------------------
  // The component
  // ---------------------------------------------------------------------------

  /** `h264 (High) (avc1 / 0x31637661), yuv420p, ...` gives the H.264 codec and the `yuv420p` pixel format. */
  lemma VideoH264(raw: string, h: Header, duration: Option<Timecode>, rest: string)
    requires h.rest == "h264 (High) (avc1 / 0x31637661)" + "," + " yuv420p" + "," + rest
    ensures VideoOf(raw, h, duration).codec ==
            Codec(Some("h264"), Some("High"), Some("0x31637661"), Some("avc1"), Some("h264 (High) (avc1 / 0x31637661)"))
    ensures VideoOf(raw, h, duration).pixelFormat == Some("yuv420p")
  {
    H264Segment();
    Yuv420pSegment();
    VideoLeadingFormats(raw, h, duration, "h264 (High) (avc1 / 0x31637661)", " yuv420p", rest);
    CodecOfH264();
  }

  /** The codec segment has no comma, and trim() leaves it as it is. */
  lemma H264Segment()
    ensures var codec := "h264 (High) (avc1 / 0x31637661)";
      ',' !in codec && Trim(codec) == codec && codec[0] == 'h'
  {
    var codec := "h264 (High) (avc1 / 0x31637661)";
    assert forall i :: 0 <= i < |codec| ==> codec[i] != ',';
    assert !IsTrimmed(codec[0]) && !IsTrimmed(codec[|codec| - 1]);
    TrimIs(codec, 0, |codec|);
    assert codec[0..|codec|] == codec;
  }

  /** The pixel format segment has no comma, and trim() drops its leading blank. */
  lemma Yuv420pSegment()
    ensures var format := " yuv420p";
      ',' !in format && Trim(format) == "yuv420p"
  {
    var format := " yuv420p";
    assert forall i :: 0 <= i < |format| ==> format[i] != ',';
    TrimIs(format, 1, 8);
    assert format[1..8] == "yuv420p";
  }

  /** The values `$other_parts` holds when the leftover segments are filtered. */
  function VideoConsumed(sizeText: Option<string>, timeBaseText: string, rate: Option<(nat, string)>): Consumed {
    [sizeText, Some(timeBaseText)] + (if rate.Some? then [Some(rate.value.1)] else [])
  }

  /** `$other_parts` for the header line `h`: its size, its time bases and its bit rate. */
  function VideoConsumedOf(h: Header): Consumed {
    var ratios := RatiosOf(h.line);
    var dar := if ratios.Some? then Some(ratios.value.display) else None;
    VideoConsumed(DimensionsOf(h.rest, dar).1, Implode(TimeBaseTexts(TimeBaseMatches(h.line)), ", "), StreamRate(h.line))
  }

  /** The `$formats` of the header line `h`. */
  function VideoFormats(h: Header): seq<string> {
    Leftover(Split(h.rest, ','), VideoConsumedOf(h))
  }

  /**
   * Each consumed token opens with `[0-9.k]`: a size with a digit, a bit rate
   * with a digit, the joined time bases with their first value.
   */
  lemma VideoConsumedStarts(h: Header)
    ensures var others := VideoConsumedOf(h);
      forall i :: 0 <= i < |others| && others[i].Some? && others[i].value != [] ==> IsTimeBaseChar(others[i].value[0])
  {
    var ratios := RatiosOf(h.line);
    var dar := if ratios.Some? then Some(ratios.value.display) else None;
    var size := DimensionsOf(h.rest, dar).1;
    var hit := FirstFrom(h.rest, 0, SizeAt);
    if hit.Some? {
      assert size.value[0] == hit.value.val.width[0];
    }
    TimeBaseTextStarts(h.line);
    ConsumedStarts(size, Implode(TimeBaseTexts(TimeBaseMatches(h.line)), ", "), StreamRate(h.line));
  }

  /** The consumed tokens open with `[0-9.k]` when each of the three does. */
  lemma ConsumedStarts(size: Option<string>, glued: string, rate: Option<(nat, string)>)
    requires size.Some? ==> |size.value| > 0 && IsTimeBaseChar(size.value[0])
    requires glued != [] ==> IsTimeBaseChar(glued[0])
    requires rate.Some? ==> |rate.value.1| > 0 && IsTimeBaseChar(rate.value.1[0])
    ensures var others := VideoConsumed(size, glued, rate);
      forall i :: 0 <= i < |others| && others[i].Some? && others[i].value != [] ==> IsTimeBaseChar(others[i].value[0])
  {
  }

  /**
   * A header whose capture opens with two comma-separated segments that do not
   * start with `[0-9.k]` gives the first as the codec's raw text and the second
   * as the pixel format.
   */
  lemma VideoLeadingFormats(raw: string, h: Header, duration: Option<Timecode>, a: string, b: string, rest: string)
    requires h.rest == a + "," + b + "," + rest && ',' !in a && ',' !in b
    requires |Trim(a)| > 0 && !IsTimeBaseChar(Trim(a)[0])
    requires |Trim(b)| > 0 && !IsTimeBaseChar(Trim(b)[0])
    ensures VideoOf(raw, h, duration).codec == CodecOf(Some(Trim(a)))
    ensures VideoOf(raw, h, duration).pixelFormat == Some(Trim(b))
  {
    VideoConsumedStarts(h);
    NotConsumed(Trim(a), VideoConsumedOf(h), IsTimeBaseChar);
    NotConsumed(Trim(b), VideoConsumedOf(h), IsTimeBaseChar);
    LeadingFormats(a, b, rest, VideoConsumedOf(h));
  }

  /**
   * The `video` array for the header line `h` found in `raw`. `duration` is what
   * getFileDuration gives; it only counts when the line has a frame rate.
   */
  function VideoOf(raw: string, h: Header, duration: Option<Timecode>): (v: VideoComponent)
    ensures UniqueKeys(v.timeBases) && forall i :: 0 <= i < |v.timeBases| ==> IsTimeBaseName(v.timeBases[i].0)
    ensures UniqueKeys(v.metadata)
    ensures v.codec == CodecOf(if |VideoFormats(h)| > 0 then Some(VideoFormats(h)[0]) else None)
    ensures v.pixelFormat == if |VideoFormats(h)| > 1 then Some(VideoFormats(h)[1]) else None
  {
    var ratios := RatiosOf(h.line);
    var par := if ratios.Some? then Some(ratios.value.pixel) else None;
    var dar := if ratios.Some? then Some(ratios.value.display) else None;
    var dims := DimensionsOf(h.rest, dar);
    var tbs := TimeBaseMatches(h.line);
    var pairs := TimeBasePairs(tbs);
    var timeBases := FromPairs(pairs);
    FromPairsLookup(pairs, "");
    TimeBaseNames(h.line);
    TimeBaseKeys(tbs);
    var rate := StreamRate(h.line);
    var formats := VideoFormats(h);
    var metadata := StreamMetadata(raw, h.line, VideoBlockAt);
    VideoComponent(
      StreamId(h.line),
      dims.0,
      if rate.Some? then Some(rate.value.0) else None,
      timeBases,
      FramesOf(FrameRate(timeBases), duration),
      par,
      dar,
      Lookup(metadata, "rotate"),
      if |formats| > 1 then Some(formats[1]) else None,
      Language(h.line),
      CodecOf(if |formats| > 0 then Some(formats[0]) else None),
      metadata)
  }

  /** Every key of `time_bases` is one of the four abbreviations. */
  lemma {:induction false} TimeBaseKeys(tbs: seq<TimeBase>)
    requires forall i :: 0 <= i < |tbs| ==> IsTimeBaseName(tbs[i].name)
    ensures forall i :: 0 <= i < |FromPairs(TimeBasePairs(tbs))| ==> IsTimeBaseName(FromPairs(TimeBasePairs(tbs))[i].0)
  {
    var pairs := TimeBasePairs(tbs);
    forall k | !IsTimeBaseName(k)
      ensures Lookup(FromPairs(pairs), k).None?
    {
      FromPairsLookup(pairs, k);
    }
  }

  /** getFileVideoComponent on the raw output: null without a video stream line. */
  function VideoComponentOf(raw: string, duration: Option<Timecode>): (r: Option<VideoComponent>)
    ensures r.None? <==> FirstFrom(raw, 0, VideoHeaderAt).None?
    ensures r.Some? ==> r.value == VideoOf(raw, FirstFrom(raw, 0, VideoHeaderAt).value.val, duration)
  {
    match FirstFrom(raw, 0, VideoHeaderAt)
    case None => None
    case Some(h) => Some(VideoOf(raw, h.val, duration))
  }

  /** Whether the video line has a frame rate, the one case that needs the duration. */
  predicate NeedsDuration(raw: string) {
    match FirstFrom(raw, 0, VideoHeaderAt)
    case None => false
    case Some(h) => FrameRate(FromPairs(TimeBasePairs(TimeBaseMatches(h.val.line)))).Some?
  }

  /** Without a frame rate the component does not depend on the duration. */
  lemma DurationOnlyForFrames(raw: string, d1: Option<Timecode>, d2: Option<Timecode>)
    requires !NeedsDuration(raw)
    ensures VideoComponentOf(raw, d1) == VideoComponentOf(raw, d2)
  {
  }

  /** The steps getFileVideoComponent takes once the header line has matched. */
  method ParseVideo(raw: string, h: Header, duration: Option<Timecode>) returns (v: VideoComponent)
    ensures v == VideoOf(raw, h, duration)
  {
    var ratios := RatiosOf(h.line);
    var par: Option<string> := None;
    var dar: Option<string> := None;
    if ratios.Some? {
      par := Some(ratios.value.pixel);
      dar := Some(ratios.value.display);
    }
    var dims := DimensionsOf(h.rest, dar);
    var tbs := TimeBaseMatches(h.line);
    var timeBases := Fill(TimeBasePairs(tbs));
    var frames := FramesOf(FrameRate(timeBases), duration);
    var rate := StreamRate(h.line);
    var bitrate: Option<nat> := None;
    if rate.Some? {
      bitrate := Some(rate.value.0);
    }
    var others := VideoConsumed(dims.1, Implode(TimeBaseTexts(tbs), ", "), rate);
    var formats := Formats(h.rest, others);
    var pixelFormat: Option<string> := None;
    if |formats| > 1 {
      pixelFormat := Some(formats[1]);
    }
    var codecRaw: Option<string> := None;
    if |formats| > 0 {
      codecRaw := Some(formats[0]);
    }
    var metadata := ParseStreamMetadata(raw, h.line, VideoBlockAt);
    v := VideoComponent(StreamId(h.line), dims.0, bitrate, timeBases, frames, par, dar,
                        Lookup(metadata, "rotate"), pixelFormat, Language(h.line), CodecOf(codecRaw), metadata);
  }
}
