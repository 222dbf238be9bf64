/**
 * The single-match field extractors of MediaParser: container, duration, start,
 * global bit rate, media type, volume, and the has-audio / has-video flags. Each
 * is a leftmost search for one pattern over the raw ffmpeg output.
 */
module Fields {
  import opened Wrappers
  import opened Text
  import opened Numbers
  import opened Media
  import opened StreamLine

  /**
   * `/Input\s#0,\s+([^\s]+),\s+from/` at `p`. The token is the whole run of
   * non-blanks after the blanks, less the comma that must end it: a shorter
   * token would leave a non-blank where `\s+` is required.
   */
  function ContainerAt(s: string, p: nat): (r: Option<string>)
    ensures r.Some? ==> |r.value| > 0 && forall i :: 0 <= i < |r.value| ==> NotSpace(r.value[i])
    ensures r.Some? ==> HasAt(s, p, "Input")
  {
    if HasAt(s, p, "Input") && p + 5 < |s| && IsSpace(s[p + 5]) && HasAt(s, p + 6, "#0,") then
      var q := SpanEnd(s, p + 9, IsSpace);
      if q > p + 9 then
        var e := SpanEnd(s, q, NotSpace);
        if e >= q + 2 && s[e - 1] == ',' then
          var f := SpanEnd(s, e, IsSpace);
          if f > e && HasAt(s, f, "from") then
            assert forall i :: q <= i < e - 1 ==> NotSpace(s[i]);
            Some(s[q..e - 1])
          else None
        else None
      else None
    else None
  }

  /** getFileContainerFormat: the demuxer name, or '' when the input line is missing. */
  function Container(raw: string): (r: string)
    ensures r == "" <==> FirstFrom(raw, 0, ContainerAt).None?
    ensures r != "" ==> r == FirstFrom(raw, 0, ContainerAt).value.val
    ensures forall i :: 0 <= i < |r| ==> NotSpace(r[i])
  {
    match FirstFrom(raw, 0, ContainerAt)
    case None => ""
    case Some(h) => h.val
  }

  predicate NotComma(c: char) { c != ',' }

  /** `/<label>\s+([^,]*)/` at `p`: the text after the blanks, up to the next comma. */
  function LabelledAt(s: string, p: nat, lit: string): (r: Option<string>)
    ensures r.Some? ==> ',' !in r.value
    ensures r.Some? ==> r.value == [] || NotSpace(r.value[0])
    ensures r.Some? ==> HasAt(s, p, lit)
  {
    if HasAt(s, p, lit) then
      var q := SpanEnd(s, p + |lit|, IsSpace);
      if q > p + |lit| then
        var e := SpanEnd(s, q, NotComma);
        assert forall i :: q <= i < e ==> s[i] != ',';
        Some(s[q..e])
      else None
    else None
  }

  function DurationAt(s: string, p: nat): Option<string> { LabelledAt(s, p, "Duration:") }

  function StartAt(s: string, p: nat): Option<string> { LabelledAt(s, p, "start:") }

  /** getFileDuration: the `Duration:` value, read as clock text by the Timecode class. */
  function Duration(raw: string, reader: TimecodeReader): (r: Option<Timecode>)
    ensures r.None? <==> FirstFrom(raw, 0, DurationAt).None?
    ensures r.Some? ==> r.value.format == TimecodeInput && ',' !in r.value.source
    ensures r.Some? ==> r.value.source == FirstFrom(raw, 0, DurationAt).value.val
  {
    match FirstFrom(raw, 0, DurationAt)
    case None => None
    case Some(h) => Some(NewTimecode(h.val, TimecodeInput, reader))
  }

  /** getFileStart: the `start:` value, read as a number of seconds by the Timecode class. */
  function Start(raw: string, reader: TimecodeReader): (r: Option<Timecode>)
    ensures r.None? <==> FirstFrom(raw, 0, StartAt).None?
    ensures r.Some? ==> r.value.format == SecondsInput && ',' !in r.value.source
    ensures r.Some? ==> r.value.source == FirstFrom(raw, 0, StartAt).value.val
  {
    match FirstFrom(raw, 0, StartAt)
    case None => None
    case Some(h) => Some(NewTimecode(h.val, SecondsInput, reader))
  }

  /** `[0-9\.]`. */
  predicate IsNumeralChar(c: char) { IsDigit(c) || c == '.' }

  /** `[bkBmg\/s]`. */
  predicate IsUnitChar(c: char) {
    c == 'b' || c == 'k' || c == 'B' || c == 'm' || c == 'g' || c == '/' || c == 's'
  }

  /** What the bit-rate pattern captured: the literal `N/A`, or a numeral with its unit. */
  datatype BitrateText = NotAvailable | Numeral(text: string)

  /**
   * `/bitrate:\s+(N\/A|[0-9\.]+\s?[bkBmg\/s]+)/` at `p`. The numeral is the whole run
   * of digits and dots; at most one blank may separate it from the unit.
   */
  function BitrateAt(s: string, p: nat): (r: Option<BitrateText>)
    ensures r.Some? && r.value.Numeral? ==> |r.value.text| > 0 && IsNumeralChar(r.value.text[0])
    ensures r.Some? ==> HasAt(s, p, "bitrate:")
  {
    if HasAt(s, p, "bitrate:") then
      var q := SpanEnd(s, p + 8, IsSpace);
      if q == p + 8 then None
      else if HasAt(s, q, "N/A") then Some(NotAvailable)
      else
        var d := SpanEnd(s, q, IsNumeralChar);
        if d == q then None
        else if d < |s| && IsUnitChar(s[d]) then Some(Numeral(s[q..SpanEnd(s, d, IsUnitChar)]))
        else if d + 1 < |s| && IsSpace(s[d]) && IsUnitChar(s[d + 1]) then Some(Numeral(s[q..SpanEnd(s, d + 1, IsUnitChar)]))
        else None
    else None
  }

  /**
   * getFileBitrate: null without a match, -1 for `N/A`, otherwise PHP's `(int)` of
   * the captured text, which is the value of its leading digits.
   */
  function Bitrate(raw: string): (r: Option<int>)
    ensures r.None? <==> FirstFrom(raw, 0, BitrateAt).None?
    ensures r == Some(-1) <==> FirstFrom(raw, 0, BitrateAt).Some? && FirstFrom(raw, 0, BitrateAt).value.val == NotAvailable
    ensures r.Some? && FirstFrom(raw, 0, BitrateAt).value.val.Numeral? ==>
              r.value == IntOfNumeral(FirstFrom(raw, 0, BitrateAt).value.val.text) && r.value >= 0
  {
    match FirstFrom(raw, 0, BitrateAt)
    case None => None
    case Some(h) =>
      match h.val
      case NotAvailable => Option<int>.Some(-1)
      case Numeral(text) => Some(IntOfNumeral(text))
  }

  /** `/Stream.*:\s+Video:\s+.*\/` matches somewhere in the output. */
  predicate HasVideoStreamLine(raw: string) { FirstFrom(raw, 0, VideoHeaderAt).Some? }

  /** `/Stream.*:\s+Audio:\s+.*\/` matches somewhere in the output. */
  predicate HasAudioStreamLine(raw: string) { FirstFrom(raw, 0, AudioHeaderAt).Some? }

  /**
   * getFileType. A video stream line decides first, with the MIME type telling
   * images and audio files apart; only without one does an audio stream line count.
   */
  function Type(raw: string, mime: string): (r: Option<MediaType>)
    ensures r == Some(Image) <==> HasVideoStreamLine(raw) && Contains(mime, "image/")
    ensures r == Some(Audio) <==> (HasVideoStreamLine(raw) && !Contains(mime, "image/") && Contains(mime, "audio/"))
                                  || (!HasVideoStreamLine(raw) && HasAudioStreamLine(raw))
    ensures r == Some(Video) <==> HasVideoStreamLine(raw) && !Contains(mime, "image/") && !Contains(mime, "audio/")
    ensures r.None? <==> !HasVideoStreamLine(raw) && !HasAudioStreamLine(raw)
  {
    if HasVideoStreamLine(raw) then
      if Contains(mime, "image/") then Some(Image)
      else if Contains(mime, "audio/") then Some(Audio)
      else Some(Video)
    else if HasAudioStreamLine(raw) then Some(Audio)
    else None
  }

  function AudioWordAt(s: string, q: nat): Option<()> { if HasAt(s, q, "Audio") then Some(()) else None }

  function VideoWordAt(s: string, q: nat): Option<()> { if HasAt(s, q, "Video") then Some(()) else None }

  /** `/Stream.+<word>/` at `p`: the word follows `Stream` on the same line, at least one character on. */
  function StreamWordAt(s: string, p: nat, word: (string, nat) -> Option<()>): (r: Option<()>)
    ensures r.Some? ==> HasAt(s, p, "Stream")
  {
    if HasAt(s, p, "Stream") then
      match LastIn(s, p + 7, SpanEnd(s, p + 6, NotNewline), word)
      case None => None
      case Some(_) => Some(())
    else None
  }

  function StreamAudioAt(s: string, p: nat): Option<()> { StreamWordAt(s, p, AudioWordAt) }

  function StreamVideoAt(s: string, p: nat): Option<()> { StreamWordAt(s, p, VideoWordAt) }

  /**
   * `Stream` at `p` and `word` at `q`, with at least one character between them
   * and no line break from the end of `Stream` up to `q`.
   */
  predicate StreamThenAt(raw: string, p: nat, q: nat, word: string) {
    HasAt(raw, p, "Stream") && p + 7 <= q && HasAt(raw, q, word)
    && forall k :: p + 6 <= k < q ==> raw[k] != '\n'
  }

  /** The greedy `.+` finds `word` exactly when some later occurrence on the same line exists. */
  lemma StreamWordIs(s: string, p: nat, lit: string, word: (string, nat) -> Option<()>)
    requires forall q :: word(s, q).Some? <==> HasAt(s, q, lit)
    ensures StreamWordAt(s, p, word).Some? <==> exists q :: StreamThenAt(s, p, q, lit)
  {
    if HasAt(s, p, "Stream") {
      var e := SpanEnd(s, p + 6, NotNewline);
      var l := LastIn(s, p + 7, e, word);
      if l.Some? {
        assert StreamThenAt(s, p, l.value.pos, lit);
      }
      if q :| StreamThenAt(s, p, q, lit) {
        assert q <= e;
        assert word(s, q).Some?;
      }
    }
  }

  /** The leftmost search for `Stream.+Audio` succeeds exactly when such a pair exists. */
  lemma StreamAudioFound(raw: string)
    ensures FirstFrom(raw, 0, StreamAudioAt).Some? <==> exists p, q :: StreamThenAt(raw, p, q, "Audio")
  {
    var f := FirstFrom(raw, 0, StreamAudioAt);
    if f.Some? {
      StreamWordIs(raw, f.value.pos, "Audio", AudioWordAt);
    }
    forall p, q | StreamThenAt(raw, p, q, "Audio")
      ensures f.Some?
    {
      StreamWordIs(raw, p, "Audio", AudioWordAt);
      assert StreamAudioAt(raw, p).Some?;
    }
  }

  /** The leftmost search for `Stream.+Video` succeeds exactly when such a pair exists. */
  lemma StreamVideoFound(raw: string)
    ensures FirstFrom(raw, 0, StreamVideoAt).Some? <==> exists p, q :: StreamThenAt(raw, p, q, "Video")
  {
    var f := FirstFrom(raw, 0, StreamVideoAt);
    if f.Some? {
      StreamWordIs(raw, f.value.pos, "Video", VideoWordAt);
    }
    forall p, q | StreamThenAt(raw, p, q, "Video")
      ensures f.Some?
    {
      StreamWordIs(raw, p, "Video", VideoWordAt);
      assert StreamVideoAt(raw, p).Some?;
    }
  }

  /** getFileHasAudio: some line has `Stream`, then at least one character, then `Audio`. */
  function HasAudio(raw: string): (r: bool)
    ensures r <==> exists p, q :: StreamThenAt(raw, p, q, "Audio")
  {
    StreamAudioFound(raw);
    FirstFrom(raw, 0, StreamAudioAt).Some?
  }

  /** getFileHasVideo: some line has `Stream`, then at least one character, then `Video`. */
  function HasVideo(raw: string): (r: bool)
    ensures r <==> exists p, q :: StreamThenAt(raw, p, q, "Video")
  {
    StreamVideoFound(raw);
    FirstFrom(raw, 0, StreamVideoAt).Some?
  }

  /** `Stream`, a same-line gap of at least one character, and `Audio`, wherever they sit. */
  lemma HasAudioLine(a: string, gap: string, c: string)
    requires |gap| > 0 && forall k :: 0 <= k < |gap| ==> gap[k] != '\n'
    ensures HasAudio(a + "Stream" + gap + "Audio" + c)
  {
    var raw := a + "Stream" + gap + "Audio" + c;
    var p, q := |a|, |a| + 6 + |gap|;
    SliceIs(raw, p, "Stream");
    SliceIs(raw, q, "Audio");
    forall k | p + 6 <= k < q
      ensures raw[k] != '\n'
    {
      assert raw[k] == gap[k - p - 6];
    }
    assert StreamThenAt(raw, p, q, "Audio");
  }

  /** `Audio` on the line after `Stream` does not count. */
  lemma NoAudioAcrossLines()
    ensures !HasAudio("Stream\nAudio")
  {
    var raw := "Stream\nAudio";
    forall p: nat, q: nat | HasAt(raw, p, "Stream") && p + 7 <= q
      ensures !StreamThenAt(raw, p, q, "Audio")
    {
      assert raw[p] == "Stream"[0];
      assert p == 0;
      assert raw[6] == '\n';
    }
  }

  /** `Stream`, a same-line gap of at least one character, and `Video`, wherever they sit. */
  lemma HasVideoLine(a: string, gap: string, c: string)
    requires |gap| > 0 && forall k :: 0 <= k < |gap| ==> gap[k] != '\n'
    ensures HasVideo(a + "Stream" + gap + "Video" + c)
  {
    var raw := a + "Stream" + gap + "Video" + c;
    var p, q := |a|, |a| + 6 + |gap|;
    SliceIs(raw, p, "Stream");
    SliceIs(raw, q, "Video");
    forall k | p + 6 <= k < q
      ensures raw[k] != '\n'
    {
      assert raw[k] == gap[k - p - 6];
    }
    assert StreamThenAt(raw, p, q, "Video");
  }

  /** `Video` on the line after `Stream` does not count. */
  lemma NoVideoAcrossLines()
    ensures !HasVideo("Stream\nVideo")
  {
    var raw := "Stream\nVideo";
    forall p: nat, q: nat | HasAt(raw, p, "Stream") && p + 7 <= q
      ensures !StreamThenAt(raw, p, q, "Video")
    {
      assert raw[p] == "Stream"[0];
      assert p == 0;
      assert raw[6] == '\n';
    }
  }

  /** `[-+0-9\.]`, the characters the negative lookahead forbids after the number. */
  predicate IsNumberContinuation(c: char) { IsDigit(c) || c == '-' || c == '+' || c == '.' }

  /**
   * `(<name>)(:)(\s+)([+-]?\d*\.\d+)(?![-+0-9\.])( )(dB)` at the start of `u`,
   * ignoring case. Every quantifier must take its maximal run for the rest to
   * match, so the match is determined by where it starts. Gives the number
   * followed by the unit text as written.
   */
  function VolumeTailOf(u: string, name: string): (r: Option<string>)
    ensures r.Some? ==> HasAtFolded(u, 0, name)
  {
    if HasAtFolded(u, 0, name) && |name| < |u| && u[|name|] == ':' then
      var a := SpanEnd(u, |name| + 1, IsSpace);
      if a == |name| + 1 || a == |u| then None
      else
        var d0 := if u[a] == '+' || u[a] == '-' then a + 1 else a;
        var d1 := SpanEnd(u, d0, IsDigit);
        if d1 < |u| && u[d1] == '.' then
          var d2 := SpanEnd(u, d1 + 1, IsDigit);
          if d2 > d1 + 1 && d2 < |u| && !IsNumberContinuation(u[d2]) && u[d2] == ' ' && HasAtFolded(u, d2 + 1, "db")
          then Some(u[a..d2] + u[d2 + 1..d2 + 3])
          else None
        else None
    else None
  }

  /** The tail pattern at `j`: what it gives on the text from `j` on. */
  function VolumeTailAt(s: string, j: nat, name: string): (r: Option<string>)
    ensures r.Some? ==> HasAtFolded(s, j, name)
  {
    if j <= |s| then
      var r := VolumeTailOf(s[j..], name);
      assert r.Some? ==> forall i :: 0 <= i < |name| ==> s[j..][i] == s[j + i];
      r
    else None
  }

  function MeanTailAt(s: string, j: nat): Option<string> { VolumeTailAt(s, j, "mean_volume") }

  function MaxTailAt(s: string, j: nat): Option<string> { VolumeTailAt(s, j, "max_volume") }

  /**
   * `/^.*<tail>/im` at `p`: `p` starts a line, and the greedy `.*` ends at the last
   * position of that line where the tail matches.
   */
  function VolumeLineAt(s: string, p: nat, tail: (string, nat) -> Option<string>): (r: Option<string>)
    ensures r.Some? ==> p <= |s| && (p == 0 || s[p - 1] == '\n')
  {
    if p <= |s| && (p == 0 || s[p - 1] == '\n') then
      match LastIn(s, p, SpanEnd(s, p, NotNewline), tail)
      case None => None
      case Some(h) => Some(h.val)
    else None
  }

  function MeanLineAt(s: string, p: nat): Option<string> { VolumeLineAt(s, p, MeanTailAt) }

  function MaxLineAt(s: string, p: nat): Option<string> { VolumeLineAt(s, p, MaxTailAt) }

  /** getFileVolumeComponent: null unless at least one of the two readings is present. */
  function VolumeOf(raw: string): (r: Option<Volume>)
    ensures r.None? <==> FirstFrom(raw, 0, MeanLineAt).None? && FirstFrom(raw, 0, MaxLineAt).None?
    ensures r.Some? ==> (r.value.mean.Some? <==> FirstFrom(raw, 0, MeanLineAt).Some?)
    ensures r.Some? ==> (r.value.max.Some? <==> FirstFrom(raw, 0, MaxLineAt).Some?)
  {
    var mean := FirstFrom(raw, 0, MeanLineAt);
    var max := FirstFrom(raw, 0, MaxLineAt);
    if mean.None? && max.None? then None
    else Some(Volume(if mean.Some? then Some(mean.value.val) else None,
                     if max.Some? then Some(max.value.val) else None))
  }

  // ---------------------------------------------------------------------------
  // What each extractor reads back from the line ffmpeg prints for the field.
  // ---------------------------------------------------------------------------

  /** The demuxer list printed after `Input #0,` is read back without its comma. */
  lemma ContainerOfInputLine(tok: string, rest: string)
    requires |tok| > 0 && forall i :: 0 <= i < |tok| ==> NotSpace(tok[i])
    ensures Container("Input #0, " + tok + ", from " + rest) == tok
  {
    var s := "Input #0, " + tok + ", from " + rest;
    var n := |tok|;
    assert s[..10] == "Input #0, ";
    assert s[10..10 + n] == tok;
    assert s[10 + n..16 + n] == ", from";
    ContainerAtInputLine(s, tok);
    FirstFromIs(s, 0, ContainerAt, 0);
  }

  /** The container pattern at the start of a text laid out as the input line. */
  lemma ContainerAtInputLine(s: string, tok: string)
    requires |tok| > 0 && forall i :: 0 <= i < |tok| ==> NotSpace(tok[i])
    requires |s| >= 16 + |tok|
    requires s[..10] == "Input #0, " && s[10..10 + |tok|] == tok && s[10 + |tok|..16 + |tok|] == ", from"
    ensures ContainerAt(s, 0) == Some(tok)
  {
    var n := |tok|;
    InputLineHead(s);
    InputLineToken(s, tok);
    assert s[10..11 + n - 1] == tok;
  }

  /** `Input`, a blank, `#0,` and the single blank after it. */
  lemma InputLineHead(s: string)
    requires |s| > 10 && s[..10] == "Input #0, "
    requires NotSpace(s[10])
    ensures HasAt(s, 0, "Input") && IsSpace(s[5]) && HasAt(s, 6, "#0,") && SpanEnd(s, 9, IsSpace) == 10
  {
    assert s[..5] == s[..10][..5] && s[6..9] == s[..10][6..9];
    assert s[5] == s[..10][5] && s[9] == s[..10][9];
    SpanEndIs(s, 9, IsSpace, 10);
  }

  /** The token, the comma that ends its run of non-blanks, a blank and `from`. */
  lemma InputLineToken(s: string, tok: string)
    requires |tok| > 0 && forall i :: 0 <= i < |tok| ==> NotSpace(tok[i])
    requires |s| >= 16 + |tok|
    requires s[10..10 + |tok|] == tok && s[10 + |tok|..16 + |tok|] == ", from"
    ensures NotSpace(s[10])
    ensures SpanEnd(s, 10, NotSpace) == 11 + |tok| && s[10 + |tok|] == ','
    ensures SpanEnd(s, 11 + |tok|, IsSpace) == 12 + |tok| && HasAt(s, 12 + |tok|, "from")
  {
    var n := |tok|;
    FromAfterComma(s, 10 + n);
    TokenChars(s, 10, tok);
    SpanEndIs(s, 10, NotSpace, 11 + n);
    SpanEndOne(s, 11 + n, IsSpace);
  }

  /** `, from` at `q`, character by character. */
  lemma FromAfterComma(s: string, q: nat)
    requires q + 6 <= |s| && s[q..q + 6] == ", from"
    ensures s[q] == ',' && s[q + 1] == ' ' && s[q + 2] == 'f' && HasAt(s, q + 2, "from")
  {
    var tail := s[q..q + 6];
    assert s[q] == tail[0] && s[q + 1] == tail[1] && s[q + 2] == tail[2];
    assert s[q + 2..q + 6] == tail[2..];
    assert tail[2..] == "from";
  }

  /** A token of non-blanks at `q` leaves non-blanks at each of its positions. */
  lemma TokenChars(s: string, q: nat, tok: string)
    requires q + |tok| <= |s| && s[q..q + |tok|] == tok
    requires forall i :: 0 <= i < |tok| ==> NotSpace(tok[i])
    ensures forall i :: q <= i < q + |tok| ==> NotSpace(s[i])
  {
    forall i | q <= i < q + |tok| ensures NotSpace(s[i]) {
      assert s[i] == s[q..q + |tok|][i - q];
    }
  }

  /** The clock text after `Duration:` is handed, up to the next comma, to a Timecode. */
  lemma DurationOfLine(d: string, rest: string, reader: TimecodeReader)
    requires ',' !in d && (d == [] || NotSpace(d[0]))
    requires rest == [] || rest[0] == ','
    ensures Duration("Duration: " + d + rest, reader) == Some(NewTimecode(d, TimecodeInput, reader))
  {
    var s := "Duration: " + d + rest;
    assert s[..9] == "Duration:" && s[9] == ' ';
    assert forall i :: 10 <= i < 10 + |d| ==> s[i] == d[i - 10];
    SpanEndIs(s, 9, IsSpace, 10);
    SpanEndIs(s, 10, NotComma, 10 + |d|);
    assert s[10..10 + |d|] == d;
    FirstFromIs(s, 0, DurationAt, 0);
  }

  /** The number after `start:` is handed, up to the next comma, to a Timecode in seconds. */
  lemma StartOfField(st: string, rest: string, reader: TimecodeReader)
    requires ',' !in st && (st == [] || NotSpace(st[0]))
    requires rest == [] || rest[0] == ','
    ensures Start("start: " + st + rest, reader) == Some(NewTimecode(st, SecondsInput, reader))
  {
    var s := "start: " + st + rest;
    assert s[..6] == "start:" && s[6] == ' ';
    assert forall i :: 7 <= i < 7 + |st| ==> s[i] == st[i - 7];
    SpanEndIs(s, 6, IsSpace, 7);
    SpanEndIs(s, 7, NotComma, 7 + |st|);
    assert s[7..7 + |st|] == st;
    FirstFromIs(s, 0, StartAt, 0);
  }

  /** A bit rate printed as `bitrate: <n> kb/s` is read back as `n`. */
  lemma BitrateOfField(n: nat, rest: string)
    ensures Bitrate("bitrate: " + NatToString(n) + " kb/s" + rest) == Some(n)
  {
    var ds := NatToString(n);
    var s := "bitrate: " + ds + " kb/s" + rest;
    BitrateLineChars(ds, rest);
    NumeralBitrateAt(s, ds);
    FirstFromIs(s, 0, BitrateAt, 0);
    NatToStringRoundTrip(n);
  }

  /** The characters of a `bitrate: <ds> kb/s` line followed by `rest`, by position. */
  lemma BitrateLineChars(ds: string, rest: string)
    ensures var s := "bitrate: " + ds + " kb/s" + rest;
      && |s| == |ds| + 14 + |rest|
      && s[..8] == "bitrate:" && s[8] == ' '
      && (forall i :: 9 <= i < 9 + |ds| ==> s[i] == ds[i - 9])
      && s[9 + |ds|] == ' ' && s[10 + |ds|] == 'k'
  {
    var s := "bitrate: " + ds + " kb/s" + rest;
    assert s[..8] == "bitrate:";
  }

  /** The bitrate pattern at the start of a line that gives the digits `ds`, a blank and a unit. */
  lemma NumeralBitrateAt(s: string, ds: string)
    requires AllDigits(ds) && |ds| > 0 && |s| > |ds| + 10
    requires s[..8] == "bitrate:" && s[8] == ' '
    requires forall i :: 9 <= i < 9 + |ds| ==> s[i] == ds[i - 9]
    requires s[9 + |ds|] == ' ' && s[10 + |ds|] == 'k'
    ensures BitrateAt(s, 0).Some? && BitrateAt(s, 0).value.Numeral?
    ensures IntOfNumeral(BitrateAt(s, 0).value.text) == DigitsValue(ds)
  {
    var k := |ds|;
    BitrateHead(s, ds);
    SpanEndIs(s, 9, IsNumeralChar, 9 + k);
    var u := SpanEnd(s, 10 + k, IsUnitChar);
    assert BitrateAt(s, 0) == Some(Numeral(s[9..u]));
    NumeralLeadingDigits(s, ds, u);
  }

  /** The name, the blank and the first digit of a `bitrate: <ds>` line. */
  lemma BitrateHead(s: string, ds: string)
    requires AllDigits(ds) && |ds| > 0 && |s| > |ds| + 10
    requires s[..8] == "bitrate:" && s[8] == ' '
    requires forall i :: 9 <= i < 9 + |ds| ==> s[i] == ds[i - 9]
    ensures HasAt(s, 0, "bitrate:") && SpanEnd(s, 8, IsSpace) == 9 && !HasAt(s, 9, "N/A")
    ensures forall i :: 9 <= i < 9 + |ds| ==> IsNumeralChar(s[i])
  {
    assert s[9] == ds[0];
    SpanEndIs(s, 8, IsSpace, 9);
    assert s[9..12][0] == s[9];
  }

  /** The captured numeral starts with the digits `ds` and a blank, so its value is theirs. */
  lemma NumeralLeadingDigits(s: string, ds: string, u: nat)
    requires AllDigits(ds) && 10 + |ds| < u <= |s|
    requires forall i :: 9 <= i < 9 + |ds| ==> s[i] == ds[i - 9]
    requires s[9 + |ds|] == ' '
    ensures IntOfNumeral(s[9..u]) == DigitsValue(ds)
  {
    var k := |ds|;
    var cap := s[9..u];
    assert cap == ds + cap[k..] by {
      assert forall i :: 0 <= i < k ==> cap[i] == ds[i];
    }
    assert cap[k..][0] == ' ';
    LeadingDigitsOf(ds, cap[k..]);
  }

  /** `bitrate: N/A` is reported as -1. */
  lemma BitrateNotAvailable(rest: string)
    ensures Bitrate("bitrate: N/A" + rest) == Some(-1)
  {
    var s := "bitrate: N/A" + rest;
    assert s[..8] == "bitrate:" && s[8] == ' ' && s[9..12] == "N/A";
    SpanEndIs(s, 8, IsSpace, 9);
    FirstFromIs(s, 0, BitrateAt, 0);
  }

  /** `[+-]?\d*\.\d+` written out as sign, integer digits, dot, fraction digits. */
  predicate IsVolumeNumber(num: string, sign: string, ds: string, fs: string) {
    (sign == "" || sign == "-" || sign == "+") && AllDigits(ds) && AllDigits(fs) && |fs| > 0
    && num == sign + ds + "." + fs
  }

  /**
   * Where the parts of a volume number sit: `ls` sign characters, `ld` integer
   * digits, the dot, then at least one fraction digit.
   */
  predicate NumberLayout(num: string, ls: nat, ld: nat) {
    && ls <= 1 && ls + ld + 1 < |num|
    && (forall j :: 0 <= j < |num| ==> IsNumberContinuation(num[j]))
    && (ls == 1 <==> num[0] == '+' || num[0] == '-')
    && (forall j :: ls <= j < ls + ld ==> IsDigit(num[j]))
    && num[ls + ld] == '.'
    && (forall j :: ls + ld + 1 <= j < |num| ==> IsDigit(num[j]))
  }

  /** The characters of a volume number, by position. */
  lemma VolumeNumberChars(num: string, sign: string, ds: string, fs: string)
    requires IsVolumeNumber(num, sign, ds, fs)
    ensures NumberLayout(num, |sign|, |ds|)
  {
    assert forall j :: |sign| <= j < |sign| + |ds| ==> num[j] == ds[j - |sign|];
    assert forall j :: |sign| + |ds| + 1 <= j < |num| ==> num[j] == fs[j - |sign| - |ds| - 1];
    assert sign != "" ==> num[0] == sign[0];
    assert sign == "" && ds != "" ==> num[0] == ds[0];
    assert sign == "" && ds == "" ==> num[0] == '.';
  }

  /** The two readings volumedetect prints. */
  predicate IsVolumeName(name: string) { name == "mean_volume" || name == "max_volume" }

  /** The letters of a reading's name, as far as the line proofs need them. */
  lemma VolumeNameChars(name: string)
    requires IsVolumeName(name)
    ensures |name| >= 10 && name[0] == 'm' && name[|name| - 2] == 'm' && name[|name| - 1] == 'e'
    ensures name[1] != 'e' || name[2] != ':'
    ensures forall i :: 0 <= i < |name| ==> ToLower(name[i]) == name[i] && NotNewline(name[i])
    ensures forall i :: 0 < i < |name| - 2 ==> name[i] != 'm'
  {
  }

  /** A text that opens with `<name>: <num> dB`. */
  predicate OpensVolumeLine(s: string, name: string, num: string) {
    var n := |name| + 2;
    && |s| >= |num| + n + 3
    && s[..n] == name + ": "
    && s[n..n + |num|] == num
    && s[n + |num|..n + |num| + 3] == " dB"
  }

  /** A `<name>: <num> dB` line followed by `tail` opens as such a line, with `tail` after it. */
  lemma VolumeLineChars(name: string, num: string, tail: string)
    ensures var s := name + ": " + num + " dB" + tail;
      var n := |name| + 2;
      OpensVolumeLine(s, name, num) && |s| == |num| + n + 3 + |tail| && s[n + |num| + 3..] == tail
  {
    var s := name + ": " + num + " dB" + tail;
    var n := |name| + 2;
    assert s == (name + ": ") + num + " dB" + tail;
    assert s[..n] == name + ": ";
    assert s[n..n + |num|] == num;
    assert s[n + |num|..n + |num| + 3] == " dB";
  }

  /**
   * The characters of a text that opens with `<name>: <num> dB`, by position:
   * the number starts at `n` and the blank before the unit is at `e`.
   */
  lemma VolumeLinePositions(s: string, name: string, num: string, n: nat, e: nat)
    requires OpensVolumeLine(s, name, num) && n == |name| + 2 && e == n + |num|
    ensures forall i :: 0 <= i < |name| ==> s[i] == name[i]
    ensures s[n - 2] == ':' && s[n - 1] == ' '
    ensures forall i :: n <= i < e ==> s[i] == num[i - n]
    ensures e + 2 < |s| && s[e] == ' ' && s[e + 1] == 'd' && s[e + 2] == 'B'
  {
    forall i | 0 <= i < n ensures s[i] == (name + ": ")[i] {
      assert s[i] == s[..n][i];
    }
    forall i | n <= i < e ensures s[i] == num[i - n] {
      assert s[i] == s[n..e][i - n];
    }
    var unit := s[e..e + 3];
    assert s[e] == unit[0] && s[e + 1] == unit[1] && s[e + 2] == unit[2];
  }

  /** The tail pattern at the start of `s`, given where each of its runs ends. */
  lemma VolumeTailOfIs(s: string, name: string, a: nat, d0: nat, d1: nat, d2: nat)
    requires HasAtFolded(s, 0, name) && |name| < |s| && s[|name|] == ':'
    requires |name| + 1 < a < |s| && SpanEnd(s, |name| + 1, IsSpace) == a
    requires d0 == (if s[a] == '+' || s[a] == '-' then a + 1 else a)
    requires d0 <= d1 < |s| && SpanEnd(s, d0, IsDigit) == d1 && s[d1] == '.'
    requires d1 + 1 < d2 < |s| && SpanEnd(s, d1 + 1, IsDigit) == d2
    requires s[d2] == ' ' && HasAtFolded(s, d2 + 1, "db")
    ensures VolumeTailOf(s, name) == Some(s[a..d2] + s[d2 + 1..d2 + 3])
  {
    assert !IsNumberContinuation(s[d2]);
  }

  /** The name, colon and blank that open a `<name>: <number> dB` line. */
  lemma VolumeLineHead(s: string, name: string, num: string, ls: nat, ld: nat, n: nat)
    requires IsVolumeName(name) && NumberLayout(num, ls, ld) && OpensVolumeLine(s, name, num)
    requires n == |name| + 2
    ensures HasAtFolded(s, 0, name) && s[n - 2] == ':'
    ensures SpanEnd(s, n - 1, IsSpace) == n
    ensures n + ls == (if s[n] == '+' || s[n] == '-' then n + 1 else n)
  {
    VolumeNameChars(name);
    VolumeLinePositions(s, name, num, n, n + |num|);
    assert s[n] == num[0];
    SpanEndOne(s, n - 1, IsSpace);
  }

  /** The integer digits of the number in a `<name>: <number> dB` line, and its dot. */
  lemma VolumeLineDigits(s: string, name: string, num: string, ls: nat, ld: nat, n: nat, dot: nat)
    requires NumberLayout(num, ls, ld) && OpensVolumeLine(s, name, num)
    requires n == |name| + 2 && dot == n + ls + ld
    ensures dot < |s| && s[dot] == '.' && SpanEnd(s, n + ls, IsDigit) == dot
  {
    VolumeLinePositions(s, name, num, n, n + |num|);
    assert s[dot] == num[ls + ld];
    SpanEndIs(s, n + ls, IsDigit, dot);
  }

  /** The fraction digits of the number in a `<name>: <number> dB` line, and the unit after it. */
  lemma VolumeLineFraction(s: string, name: string, num: string, ls: nat, ld: nat, n: nat, dot: nat, e: nat)
    requires NumberLayout(num, ls, ld) && OpensVolumeLine(s, name, num)
    requires n == |name| + 2 && dot == n + ls + ld && e == n + |num|
    ensures e < |s| && SpanEnd(s, dot + 1, IsDigit) == e && s[e] == ' ' && HasAtFolded(s, e + 1, "db")
  {
    VolumeLinePositions(s, name, num, n, e);
    assert forall i :: dot + 1 <= i < e ==> IsDigit(s[i]) by {
      forall i | dot + 1 <= i < e ensures IsDigit(s[i]) {
        assert s[i] == num[i - n];
      }
    }
    SpanEndIs(s, dot + 1, IsDigit, e);
    assert ToLower(s[e + 1]) == 'd' && ToLower(s[e + 2]) == 'b';
  }

  /** What the two captures of a `<name>: <number> dB` line hold. */
  lemma VolumeLineCapture(s: string, name: string, num: string, n: nat, e: nat)
    requires OpensVolumeLine(s, name, num) && n == |name| + 2 && e == n + |num|
    ensures s[n..e] + s[e + 1..e + 3] == num + "dB"
  {
    VolumeLinePositions(s, name, num, n, e);
    assert s[n..e] == num;
    assert s[e + 1..e + 3] == "dB";
  }

  /** The tail pattern matches at the start of a `<name>: <number> dB` line. */
  lemma VolumeTailOfLine(s: string, name: string, num: string, ls: nat, ld: nat)
    requires IsVolumeName(name) && NumberLayout(num, ls, ld) && OpensVolumeLine(s, name, num)
    ensures VolumeTailAt(s, 0, name) == Some(num + "dB")
  {
    var n := |name| + 2;
    var dot := n + ls + ld;
    var e := n + |num|;
    VolumeLineHead(s, name, num, ls, ld, n);
    VolumeLineDigits(s, name, num, ls, ld, n, dot);
    VolumeLineFraction(s, name, num, ls, ld, n, dot, e);
    VolumeLineCapture(s, name, num, n, e);
    VolumeTailOfIs(s, name, n, n + ls, dot, e);
    assert s[0..] == s;
  }

  /** No later position of that line starts another match of the tail pattern. */
  lemma NoLaterVolumeTail(s: string, name: string, num: string, ls: nat, ld: nat, L: nat)
    requires IsVolumeName(name) && NumberLayout(num, ls, ld) && OpensVolumeLine(s, name, num)
    requires L == |num| + |name| + 5 && (|s| == L || s[L] == '\n')
    ensures forall q :: 0 < q <= L ==> VolumeTailAt(s, q, name).None?
  {
    var n := |name| + 2;
    var e := n + |num|;
    VolumeNameChars(name);
    VolumeLinePositions(s, name, num, n, e);
    forall q | 0 < q <= L
      ensures !HasAtFolded(s, q, name)
    {
      if q + |name| <= |s| {
        if q == n - 4 {
          assert ToLower(s[q + 1]) != name[1] || ToLower(s[q + 2]) != name[2];
        } else if q < n - 2 {
          assert s[q] == name[q];
          assert ToLower(s[q]) != name[0];
        } else if n <= q < e {
          assert s[q] == num[q - n];
          assert ToLower(s[q]) != name[0];
        } else {
          assert ToLower(s[q]) != name[0];
        }
      }
    }
  }

  /** A `<name>: <number> dB` line has no line feed before its end. */
  lemma VolumeLineEnd(s: string, name: string, num: string, L: nat)
    requires IsVolumeName(name) && OpensVolumeLine(s, name, num) && '\n' !in num
    requires L == |num| + |name| + 5 && (|s| == L || s[L] == '\n')
    ensures SpanEnd(s, 0, NotNewline) == L
  {
    var n := |name| + 2;
    var e := n + |num|;
    VolumeNameChars(name);
    VolumeLinePositions(s, name, num, n, e);
    forall i | 0 <= i < L ensures NotNewline(s[i]) {
      if i < n - 2 {
        assert s[i] == name[i];
      } else if n <= i < e {
        assert s[i] == num[i - n];
      } else if i == n - 2 || i == n - 1 {
      } else {
        assert i == e || i == e + 1 || i == e + 2;
      }
    }
    SpanEndIs(s, 0, NotNewline, L);
  }

  /** The two names followed by the colon and blank that open their lines. */
  lemma VolumeHeads()
    ensures "mean_volume" + ": " == "mean_volume: " && "max_volume" + ": " == "max_volume: "
    ensures "mean_volume" + ":" == "mean_volume:" && "max_volume" + ":" == "max_volume:"
  {
  }

  /** The tail pattern read at `k` in the text from `p` on is the one read at `p + k` in the whole. */
  lemma VolumeTailShift(s: string, t: string, p: nat, name: string)
    requires p <= |s| && t == s[p..]
    ensures forall q :: p <= q <= |s| ==> VolumeTailAt(s, q, name) == VolumeTailAt(t, q - p, name)
  {
    forall q | p <= q <= |s|
      ensures VolumeTailAt(s, q, name) == VolumeTailAt(t, q - p, name)
    {
      assert t[q - p..] == s[q..];
    }
  }

  /** Position `q` of a `mean_volume: <number> dB` line, given by its characters, starts no `max_volume`. */
  lemma NoMaxAt(s: string, num: string, q: nat, e: nat)
    requires e == 13 + |num| && e + 3 <= |s| && q <= e + 3
    requires forall i :: 0 <= i < 11 ==> s[i] == "mean_volume"[i]
    requires forall i :: 13 <= i < e ==> s[i] == num[i - 13]
    requires forall j :: 0 <= j < |num| ==> IsNumberContinuation(num[j])
    requires s[11] == ':' && s[12] == ' ' && s[e] == ' ' && s[e + 1] == 'd' && s[e + 2] == 'B'
    requires |s| == e + 3 || s[e + 3] == '\n'
    ensures !HasAtFolded(s, q, "max_volume")
  {
    VolumeNameChars("mean_volume");
    if q + 10 <= |s| {
      if q == 0 || q == 9 {
        assert s[q + 1] == "mean_volume"[q + 1];
        assert ToLower(s[q + 1]) != "max_volume"[1];
      } else if q < 11 {
        assert s[q] == "mean_volume"[q];
        assert ToLower(s[q]) != "max_volume"[0];
      } else if 13 <= q < e {
        assert s[q] == num[q - 13];
        assert ToLower(s[q]) != "max_volume"[0];
      } else {
        assert ToLower(s[q]) != "max_volume"[0];
      }
    }
  }

  /** What a text that opens with a `<name>: <number> dB` line gives on that line. */
  lemma ReadingLineFacts(t: string, name: string, num: string, sign: string, ds: string, fs: string, tail: string, L: nat)
    requires IsVolumeName(name) && t == name + ": " + num + " dB" + tail && L == |num| + |name| + 5
    requires IsVolumeNumber(num, sign, ds, fs) && (tail == [] || tail[0] == '\n')
    ensures L <= |t| && SpanEnd(t, 0, NotNewline) == L
    ensures VolumeTailAt(t, 0, name) == Some(num + "dB")
    ensures forall q :: 0 < q <= L ==> VolumeTailAt(t, q, name).None?
  {
    VolumeLineChars(name, num, tail);
    VolumeNumberChars(num, sign, ds, fs);
    assert |t| == L || t[L] == tail[0];
    assert '\n' !in num by {
      assert forall j :: 0 <= j < |num| ==> IsNumberContinuation(num[j]);
    }
    VolumeLineEnd(t, name, num, L);
    VolumeTailOfLine(t, name, num, |sign|, |ds|);
    NoLaterVolumeTail(t, name, num, |sign|, |ds|, L);
  }

  /** The line that starts at `p` ends where the same line of the text from `p` on ends. */
  lemma LineShift(s: string, p: nat, t: string, L: nat)
    requires p <= |s| && t == s[p..] && L <= |t| && SpanEnd(t, 0, NotNewline) == L
    ensures SpanEnd(s, p, NotNewline) == p + L
  {
    assert forall i :: p <= i < |s| ==> s[i] == t[i - p];
    SpanEndIs(s, p, NotNewline, p + L);
  }

  // ---------------------------------------------------------------------------
  // Readings as ffmpeg prints them: after earlier lines, and after a prefix
  // such as `[Parsed_volumedetect_0 @ 0x...] ` on their own line.
  // ---------------------------------------------------------------------------

  /** `w` occurs somewhere in `u`, ignoring case. */
  predicate Mentions(u: string, w: string) {
    exists j: nat | j <= |u| :: HasAtFolded(u, j, w)
  }

  /** A match of the tail pattern starts with the name and its colon. */
  lemma TailNeedsColon(s: string, j: nat, name: string)
    ensures VolumeTailAt(s, j, name).Some? ==> HasAtFolded(s, j, name + ":")
  {
    if VolumeTailAt(s, j, name).Some? {
      var u := s[j..];
      assert VolumeTailOf(u, name).Some?;
      forall i | 0 <= i < |name| + 1
        ensures ToLower(s[j + i]) == (name + ":")[i]
      {
        assert s[j + i] == u[i];
      }
    }
  }

  /** Lines that never mention `<name>:` hold no match of the tail pattern. */
  lemma NoTailBefore(s: string, before: string, name: string)
    requires IsVolumeName(name) && |before| <= |s| && s[..|before|] == before
    requires before == [] || before[|before| - 1] == '\n'
    requires !Mentions(before, name + ":")
    ensures forall q :: 0 <= q < |before| ==> VolumeTailAt(s, q, name).None?
  {
    var w := name + ":";
    VolumeNameChars(name);
    forall q | 0 <= q < |before|
      ensures !HasAtFolded(s, q, w)
    {
      if q + |w| <= |before| {
        assert !HasAtFolded(before, q, w);
        forall k | q <= k < q + |w|
          ensures s[k] == before[k]
        {
          assert s[..|before|][k] == s[k];
        }
      } else if q + |w| <= |s| {
        var i := |before| - 1 - q;
        assert s[q + i] == s[..|before|][q + i] == '\n';
        assert w[i] != '\n';
      }
    }
    forall q | 0 <= q < |before|
      ensures VolumeTailAt(s, q, name).None?
    {
      TailNeedsColon(s, q, name);
    }
  }

  /** No line of `before` matches the line pattern when none of them holds a tail. */
  lemma NoLineBefore(s: string, before: string, name: string, tailAt: (string, nat) -> Option<string>)
    requires |before| <= |s| && s[..|before|] == before
    requires before == [] || before[|before| - 1] == '\n'
    requires forall q :: 0 <= q < |before| ==> VolumeTailAt(s, q, name).None?
    requires forall q :: 0 <= q <= |s| ==> tailAt(s, q) == VolumeTailAt(s, q, name)
    ensures forall q :: 0 <= q < |before| ==> VolumeLineAt(s, q, tailAt).None?
  {
    forall q | 0 <= q < |before|
      ensures VolumeLineAt(s, q, tailAt).None?
    {
      var e := SpanEnd(s, q, NotNewline);
      assert s[|before| - 1] == s[..|before|][|before| - 1] == '\n';
      assert e < |before|;
      assert forall k :: q <= k <= e ==> tailAt(s, k).None?;
    }
  }

  /** A line of `pre` characters followed by a reading line ends where that reading line ends. */
  lemma PrefixSpan(s: string, p0: nat, pre: string, t: string, L: nat)
    requires p0 <= |s| && s[p0..] == pre + t && '\n' !in pre
    requires L <= |t| && SpanEnd(t, 0, NotNewline) == L
    ensures s[p0 + |pre|..] == t
    ensures SpanEnd(s, p0, NotNewline) == p0 + |pre| + L
  {
    var p := p0 + |pre|;
    assert s[p..] == s[p0..][|pre|..];
    assert (pre + t)[|pre|..] == t;
    LineShift(s, p, t, L);
    forall i | p0 <= i < p
      ensures NotNewline(s[i])
    {
      assert s[i] == s[p0..][i - p0] == pre[i - p0];
    }
    SpanEndIs(s, p0, NotNewline, p + L);
  }

  /** A line that starts at `p0` with `pre` and then a reading: the greedy `^.*` stops at the reading. */
  lemma PrefixedLineAt(s: string, p0: nat, pre: string, t: string, name: string, num: string,
                       sign: string, ds: string, fs: string, tail: string, tailAt: (string, nat) -> Option<string>)
    requires IsVolumeName(name) && IsVolumeNumber(num, sign, ds, fs) && (tail == [] || tail[0] == '\n')
    requires t == name + ": " + num + " dB" + tail
    requires p0 <= |s| && s[p0..] == pre + t && '\n' !in pre
    requires p0 == 0 || s[p0 - 1] == '\n'
    requires forall q :: 0 <= q <= |s| ==> tailAt(s, q) == VolumeTailAt(s, q, name)
    ensures VolumeLineAt(s, p0, tailAt) == Some(num + "dB")
  {
    var L := |num| + |name| + 5;
    ReadingLineFacts(t, name, num, sign, ds, fs, tail, L);
    LineOfReading(s, p0, pre, t, L, name, num + "dB", tailAt);
  }

  /** `PrefixedLineAt` for any line `t` whose reading `v` is its only tail. */
  lemma LineOfReading(s: string, p0: nat, pre: string, t: string, L: nat, name: string, v: string,
                      tailAt: (string, nat) -> Option<string>)
    requires p0 <= |s| && s[p0..] == pre + t && '\n' !in pre
    requires p0 == 0 || s[p0 - 1] == '\n'
    requires L <= |t| && SpanEnd(t, 0, NotNewline) == L
    requires VolumeTailAt(t, 0, name) == Some(v)
    requires forall q :: 0 < q <= L ==> VolumeTailAt(t, q, name).None?
    requires forall q :: 0 <= q <= |s| ==> tailAt(s, q) == VolumeTailAt(s, q, name)
    ensures VolumeLineAt(s, p0, tailAt) == Some(v)
  {
    var p := p0 + |pre|;
    assert s[p..] == t && SpanEnd(s, p0, NotNewline) == p + L by {
      PrefixSpan(s, p0, pre, t, L);
    }
    assert tailAt(s, p) == Some(v) && forall q :: p < q <= p + L ==> tailAt(s, q).None? by {
      ShiftedReading(s, t, p, L, name, v, tailAt);
    }
    LineAtLast(s, p0, p + L, tailAt, p, v);
  }

  /** The tails of a reading line seen from inside a longer text that holds it at `p`. */
  lemma ShiftedReading(s: string, t: string, p: nat, L: nat, name: string, v: string,
                       tailAt: (string, nat) -> Option<string>)
    requires p <= |s| && s[p..] == t && L <= |t|
    requires VolumeTailAt(t, 0, name) == Some(v)
    requires forall q :: 0 < q <= L ==> VolumeTailAt(t, q, name).None?
    requires forall q :: 0 <= q <= |s| ==> tailAt(s, q) == VolumeTailAt(s, q, name)
    ensures tailAt(s, p) == Some(v)
    ensures forall q :: p < q <= p + L ==> tailAt(s, q).None?
  {
    VolumeTailShift(s, t, p, name);
    assert tailAt(s, p) == VolumeTailAt(t, 0, name);
    forall q | p < q <= p + L
      ensures tailAt(s, q).None?
    {
      assert tailAt(s, q) == VolumeTailAt(t, q - p, name);
    }
  }

  /** The line pattern at a line start gives the last tail on that line. */
  lemma LineAtLast(s: string, p0: nat, e: nat, tailAt: (string, nat) -> Option<string>, p: nat, v: string)
    requires p0 <= |s| && (p0 == 0 || s[p0 - 1] == '\n') && SpanEnd(s, p0, NotNewline) == e
    requires p0 <= p <= e && tailAt(s, p) == Some(v)
    requires forall q :: p < q <= e ==> tailAt(s, q).None?
    ensures VolumeLineAt(s, p0, tailAt) == Some(v)
  {
    LastInIs(s, p0, e, tailAt, p);
  }

  /**
   * A reading printed after lines that never mention it, behind a prefix on its
   * own line, is the first match of the line pattern.
   */
  lemma ReadingAfter(s: string, before: string, pre: string, t: string, name: string, num: string,
                     sign: string, ds: string, fs: string, tail: string,
                     tailAt: (string, nat) -> Option<string>, line: (string, nat) -> Option<string>)
    requires IsVolumeName(name) && IsVolumeNumber(num, sign, ds, fs) && (tail == [] || tail[0] == '\n')
    requires t == name + ": " + num + " dB" + tail
    requires s == before + (pre + t) && '\n' !in pre
    requires before == [] || before[|before| - 1] == '\n'
    requires !Mentions(before, name + ":")
    requires forall q :: 0 <= q <= |s| ==> tailAt(s, q) == VolumeTailAt(s, q, name)
    requires forall p :: 0 <= p <= |s| ==> line(s, p) == VolumeLineAt(s, p, tailAt)
    ensures FirstFrom(s, 0, line) == Some(Hit(|before|, num + "dB"))
  {
    var p0 := |before|;
    assert s[..p0] == before && s[p0..] == pre + t;
    NoTailBefore(s, before, name);
    NoLineBefore(s, before, name, tailAt);
    assert p0 > 0 ==> s[p0 - 1] == before[p0 - 1];
    PrefixedLineAt(s, p0, pre, t, name, num, sign, ds, fs, tail, tailAt);
    FirstFromIs(s, 0, line, p0);
  }

  /**
   * ffmpeg's mean reading, `[Parsed_volumedetect_0 @ ...] mean_volume: <num> dB`,
   * after any lines that do not mention `mean_volume:`, gives the mean volume.
   */
  lemma VolumeOfPrefixedMean(before: string, pre: string, num: string, sign: string, ds: string, fs: string, tail: string)
    requires before == [] || before[|before| - 1] == '\n'
    requires !Mentions(before, "mean_volume:") && '\n' !in pre
    requires IsVolumeNumber(num, sign, ds, fs) && (tail == [] || tail[0] == '\n')
    ensures VolumeOf(before + pre + "mean_volume: " + num + " dB" + tail).Some?
    ensures VolumeOf(before + pre + "mean_volume: " + num + " dB" + tail).value.mean == Some(num + "dB")
  {
    var t := "mean_volume: " + num + " dB" + tail;
    var s := before + (pre + t);
    assert s == before + pre + "mean_volume: " + num + " dB" + tail;
    VolumeHeads();
    ReadingAfter(s, before, pre, t, "mean_volume", num, sign, ds, fs, tail, MeanTailAt, MeanLineAt);
  }

  /**
   * ffmpeg's max reading, `[Parsed_volumedetect_0 @ ...] max_volume: <num> dB`,
   * after any lines that do not mention `max_volume:`, gives the max volume.
   */
  lemma VolumeOfPrefixedMax(before: string, pre: string, num: string, sign: string, ds: string, fs: string, tail: string)
    requires before == [] || before[|before| - 1] == '\n'
    requires !Mentions(before, "max_volume:") && '\n' !in pre
    requires IsVolumeNumber(num, sign, ds, fs) && (tail == [] || tail[0] == '\n')
    ensures VolumeOf(before + pre + "max_volume: " + num + " dB" + tail).Some?
    ensures VolumeOf(before + pre + "max_volume: " + num + " dB" + tail).value.max == Some(num + "dB")
  {
    var t := "max_volume: " + num + " dB" + tail;
    var s := before + (pre + t);
    assert s == before + pre + "max_volume: " + num + " dB" + tail;
    VolumeHeads();
    ReadingAfter(s, before, pre, t, "max_volume", num, sign, ds, fs, tail, MaxTailAt, MaxLineAt);
  }

  /** A line break ends every mention: lines that do not mention `w` do not, put together. */
  lemma NoMentionAcrossLines(x: string, y: string, w: string)
    requires x == [] || x[|x| - 1] == '\n'
    requires forall i :: 0 <= i < |w| ==> w[i] != '\n'
    requires !Mentions(x, w) && !Mentions(y, w)
    ensures !Mentions(x + y, w)
  {
    var u := x + y;
    forall j: nat | j <= |u|
      ensures !HasAtFolded(u, j, w)
    {
      if j + |w| <= |x| {
        assert !HasAtFolded(x, j, w);
        forall k | j <= k < j + |w|
          ensures u[k] == x[k]
        {
        }
      } else if j < |x| && j + |w| <= |u| {
        var i := |x| - 1 - j;
        assert u[j + i] == x[|x| - 1] == '\n';
        assert ToLower(u[j + i]) != w[i];
      } else if |x| <= j && j + |w| <= |u| {
        assert !HasAtFolded(y, j - |x|, w);
        var i :| 0 <= i < |w| && ToLower(y[j - |x| + i]) != w[i];
        assert u[j + i] == y[j - |x| + i];
      }
    }
  }

  /** A bare mean reading line never mentions `max_volume:`. */
  lemma MeanLineNoMax(m: string, num: string, sign: string, ds: string, fs: string)
    requires IsVolumeNumber(num, sign, ds, fs) && m == "mean_volume: " + num + " dB" + "\n"
    ensures !Mentions(m, "max_volume:")
  {
    var e := 13 + |num|;
    VolumeHeads();
    VolumeLineChars("mean_volume", num, "\n");
    VolumeLinePositions(m, "mean_volume", num, 13, e);
    VolumeNumberChars(num, sign, ds, fs);
    assert |m| == e + 4 && m[e + 3] == '\n';
    forall q: nat | q <= |m|
      ensures !HasAtFolded(m, q, "max_volume:")
    {
      if q <= e + 3 {
        assert HasAtFolded(m, q, "max_volume:") ==> HasAtFolded(m, q, "max_volume") by {
          assert forall i :: 0 <= i < 10 ==> "max_volume:"[i] == "max_volume"[i];
        }
        NoMaxAt(m, num, q, e);
      }
    }
  }

  /** A mean reading line behind a prefix that does not mention `max_volume:` does not either. */
  lemma PrefixedMeanLineNoMax(pre: string, m: string, num: string, sign: string, ds: string, fs: string)
    requires '\n' !in pre && !Mentions(pre, "max_volume:")
    requires IsVolumeNumber(num, sign, ds, fs) && m == "mean_volume: " + num + " dB" + "\n"
    ensures !Mentions(pre + m, "max_volume:")
  {
    var w := "max_volume:";
    var u := pre + m;
    MeanLineNoMax(m, num, sign, ds, fs);
    assert forall i :: 0 <= i < 11 ==> m[i] == "mean_volume"[i];
    forall j: nat | j <= |u|
      ensures !HasAtFolded(u, j, w)
    {
      if j + |w| <= |pre| {
        assert !HasAtFolded(pre, j, w);
        forall k | j <= k < j + |w|
          ensures u[k] == pre[k]
        {
        }
      } else if j < |pre| {
        var k := |pre| - j;
        var i := if k == 8 then 10 else k;
        assert u[j + i] == m[i - k];
        assert ToLower(u[j + i]) != w[i];
      } else if j + |w| <= |u| {
        assert !HasAtFolded(m, j - |pre|, w);
        var i :| 0 <= i < |w| && ToLower(m[j - |pre| + i]) != w[i];
        assert u[j + i] == m[j - |pre| + i];
      }
    }
  }

  /**
   * The two readings as ffmpeg prints them, each behind its own prefix on its own
   * line, after lines that mention neither, give both volumes.
   */
  lemma VolumeOfPrefixedTwoLines(before: string, pre1: string, a: string, sa: string, da: string, fa: string,
                                 pre2: string, b: string, sb: string, db: string, fb: string, tail: string)
    requires before == [] || before[|before| - 1] == '\n'
    requires !Mentions(before, "mean_volume:") && !Mentions(before, "max_volume:")
    requires '\n' !in pre1 && '\n' !in pre2 && !Mentions(pre1, "max_volume:")
    requires IsVolumeNumber(a, sa, da, fa) && IsVolumeNumber(b, sb, db, fb) && (tail == [] || tail[0] == '\n')
    ensures VolumeOf(before + pre1 + "mean_volume: " + a + " dB" + "\n" + pre2 + "max_volume: " + b + " dB" + tail)
            == Some(Volume(Some(a + "dB"), Some(b + "dB")))
  {
    var m := "mean_volume: " + a + " dB" + "\n";
    VolumeOfPrefixedMean(before, pre1, a, sa, da, fa, "\n" + pre2 + "max_volume: " + b + " dB" + tail);
    MaxAfterMeanLine(before, pre1, m, a, sa, da, fa, pre2, b, sb, db, fb, tail);
    TwoLineGroups(before, pre1, "mean_volume: ", a, " dB", "\n", pre2, "max_volume: ", b, " dB", tail);
  }

  /** The max reading on the line after a prefixed mean reading. */
  lemma MaxAfterMeanLine(before: string, pre1: string, m: string, a: string, sa: string, da: string, fa: string,
                         pre2: string, b: string, sb: string, db: string, fb: string, tail: string)
    requires before == [] || before[|before| - 1] == '\n'
    requires !Mentions(before, "max_volume:") && '\n' !in pre1 && '\n' !in pre2 && !Mentions(pre1, "max_volume:")
    requires IsVolumeNumber(a, sa, da, fa) && m == "mean_volume: " + a + " dB" + "\n"
    requires IsVolumeNumber(b, sb, db, fb) && (tail == [] || tail[0] == '\n')
    ensures VolumeOf(before + (pre1 + m) + pre2 + "max_volume: " + b + " dB" + tail).Some?
    ensures VolumeOf(before + (pre1 + m) + pre2 + "max_volume: " + b + " dB" + tail).value.max == Some(b + "dB")
  {
    PrefixedMeanLineNoMax(pre1, m, a, sa, da, fa);
    NoMentionAcrossLines(before, pre1 + m, "max_volume:");
    VolumeOfPrefixedMax(before + (pre1 + m), pre2, b, sb, db, fb, tail);
  }

  /** The two ways the proof above reads a two-line text: at the mean line, and at the max line. */
  lemma TwoLineGroups(x1: string, x2: string, x3: string, x4: string, x5: string, x6: string,
                      x7: string, x8: string, x9: string, x10: string, x11: string)
    ensures x1 + x2 + x3 + x4 + x5 + x6 + x7 + x8 + x9 + x10 + x11
            == x1 + x2 + x3 + x4 + x5 + (x6 + x7 + x8 + x9 + x10 + x11)
    ensures x1 + x2 + x3 + x4 + x5 + x6 + x7 + x8 + x9 + x10 + x11
            == x1 + (x2 + (x3 + x4 + x5 + x6)) + x7 + x8 + x9 + x10 + x11
    ensures x6 != [] ==> (x1 + (x2 + (x3 + x4 + x5 + x6)))[|x1 + (x2 + (x3 + x4 + x5 + x6))| - 1] == x6[|x6| - 1]
  {
  }
}
