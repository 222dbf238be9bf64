/**
 * getFileAudioComponent: the `audio` array built from the first
 * `Stream ...: Audio: ...` line of the ffmpeg output and the metadata block
 * printed under it.
 */
module Audio {
  import opened Wrappers
  import opened Text
  import opened Numbers
  import opened Media
  import opened Assoc
  import opened Metadata
  import opened StreamLine

  /**
   * `(stereo|mono|5.1)` at `p`, ignoring case; the `.` is any character but a line
   * feed. Gives the text as written.
   */
  function LayoutAt(s: string, p: nat): (r: Option<string>)
    ensures r.Some? ==> HasAt(s, p, r.value)
    ensures r.Some? ==> |r.value| == 6 || |r.value| == 4 || |r.value| == 3
    ensures r.Some? ==> IsLayoutText(r.value)
  {
    if HasAtFolded(s, p, "stereo") then
      var t := s[p..p + 6];
      assert forall i :: 0 <= i < 6 ==> t[i] == s[p + i];
      Some(s[p..p + 6])
    else if HasAtFolded(s, p, "mono") then
      var t := s[p..p + 4];
      assert forall i :: 0 <= i < 4 ==> t[i] == s[p + i];
      Some(s[p..p + 4])
    else if p + 3 <= |s| && s[p] == '5' && s[p + 1] != '\n' && s[p + 2] == '1' then Some(s[p..p + 3])
    else None
  }

  /** A text the layout pattern can give: `stereo` or `mono` in any case, or `5` any `1`. */
  predicate IsLayoutText(t: string) {
    || (|t| == 6 && HasAtFolded(t, 0, "stereo"))
    || (|t| == 4 && HasAtFolded(t, 0, "mono"))
    || (|t| == 3 && t[0] == '5')
  }

  /** The channel count the source derives by exact comparison of the matched text. */
  function Channels(layout: string): (n: nat)
    ensures n == 1 <==> layout == "mono"
    ensures n == 2 <==> layout == "stereo"
    ensures n == 6 <==> layout == "5.1"
    ensures n == 0 <==> layout != "mono" && layout != "stereo" && layout != "5.1"
  {
    if layout == "mono" then 1
    else if layout == "stereo" then 2
    else if layout == "5.1" then 6
    else 0
  }

  /**
   * `([0-9]{3,6})\s+Hz` at `p`. The digits must be followed by a blank, so a run of
   * more than six digits never matches from its start. Gives the rate and the text.
   */
  function SampleAt(s: string, p: nat): (r: Option<(nat, string)>)
    ensures r.Some? ==> 100 <= r.value.0 < 1000000 || (r.value.0 < 100 && p < |s| && s[p] == '0')
    ensures r.Some? ==> HasAt(s, p, r.value.1)
    ensures r.Some? ==> |r.value.1| > 0 && IsDigit(r.value.1[0])
  {
    if p < |s| && IsDigit(s[p]) then
      var run := SpanEnd(s, p, IsDigit);
      var w := SpanEnd(s, run, IsSpace);
      if 3 <= run - p <= 6 && w > run && HasAt(s, w, "Hz") then
        assert s[p..p + |s[p..w + 2]|] == s[p..w + 2];
        var ds := s[p..run];
        DigitsValueBound(ds);
        Pow10Monotone(|ds|, 6);
        assert Pow10(6) == 1000000;
        assert ds[0] == s[p];
        LeadingDigitValue(ds);
        assert s[p..w + 2][0] == s[p];
        Some((DigitsValue(ds), s[p..w + 2]))
      else None
    else None
  }

  /** A numeral of at least three digits that does not start with 0 is at least 100. */
  lemma LeadingDigitValue(ds: string)
    requires AllDigits(ds) && |ds| >= 3
    ensures ds[0] != '0' ==> DigitsValue(ds) >= 100
  {
    var a, b := ds[..1], ds[1..];
    assert ds == a + b;
    DigitsValueAppend(a, b);
    Pow10Monotone(2, |b|);
    assert Pow10(2) == 100;
    assert DigitsValue(a) == DigitValue(ds[0]) by {
      assert a[..0] == [];
    }
  }

  /** What `$other_parts` holds: each matched text, in the order the source pushes them. */
  function AudioConsumed(layout: Option<string>, sample: Option<(nat, string)>, rate: Option<(nat, string)>): (r: Consumed)
    ensures forall i :: 0 <= i < |r| ==> r[i].Some?
  {
    (if layout.Some? then [layout] else [])
    + (if sample.Some? then [Some(sample.value.1)] else [])
    + (if rate.Some? then [Some(rate.value.1)] else [])
  }

  /** `$other_parts` for the header line `h`: its layout, its sample rate and its bit rate. */
  function AudioConsumedOf(h: Header): Consumed {
    var layout := FirstFrom(h.line, 0, LayoutAt);
    var sample := FirstFrom(h.line, 0, SampleAt);
    AudioConsumed(if layout.Some? then Some(layout.value.val) else None,
                  if sample.Some? then Some(sample.value.val) else None,
                  StreamRate(h.line))
  }

  /** The `$formats` of the header line `h`. */
  function AudioFormats(h: Header): seq<string> {
    Leftover(Split(h.rest, ','), AudioConsumedOf(h))
  }

  /** The `audio` array for the header line `h` found in `raw`. */
  function AudioOf(raw: string, h: Header): (a: AudioComponent)
    ensures a.channels.Some? <==> a.stereo.Some?
    ensures a.stereo.Some? ==> a.channels.value == Channels(a.stereo.value)
    ensures a.sampleRate.Some? ==> a.sampleRate.value < 1000000
    ensures UniqueKeys(a.metadata)
    ensures a.codec == CodecOf(if |AudioFormats(h)| > 0 then Some(AudioFormats(h)[0]) else None)
  {
    var layout := FirstFrom(h.line, 0, LayoutAt);
    var stereo := if layout.Some? then Some(layout.value.val) else None;
    var sample := FirstFrom(h.line, 0, SampleAt);
    var sampleRate := if sample.Some? then Some(sample.value.val) else None;
    var rate := StreamRate(h.line);
    var formats := AudioFormats(h);
    AudioComponent(
      StreamId(h.line),
      stereo,
      if stereo.Some? then Some(Channels(stereo.value)) else None,
      if sampleRate.Some? then Some(sampleRate.value.0) else None,
      if rate.Some? then Some(rate.value.0) else None,
      Language(h.line),
      CodecOf(if |formats| > 0 then Some(formats[0]) else None),
      StreamMetadata(raw, h.line, AudioBlockAt))
  }

  /** getFileAudioComponent on the raw output: null without an audio stream line. */
  function AudioComponentOf(raw: string): (r: Option<AudioComponent>)
    ensures r.None? <==> FirstFrom(raw, 0, AudioHeaderAt).None?
    ensures r.Some? ==> r.value == AudioOf(raw, FirstFrom(raw, 0, AudioHeaderAt).value.val)
  {
    match FirstFrom(raw, 0, AudioHeaderAt)
    case None => None
    case Some(h) => Some(AudioOf(raw, h.val))
  }

  /** No consumed token equals a segment that opens with no digit and is not a layout. */
  lemma NotAudioConsumed(h: Header, t: string)
    requires |t| > 0 && !IsDigit(t[0]) && !IsLayoutText(t)
    ensures !InArray(t, AudioConsumedOf(h))
  {
    var layout := FirstFrom(h.line, 0, LayoutAt);
    var sample := FirstFrom(h.line, 0, SampleAt);
    NotConsumedBy(t, if layout.Some? then Some(layout.value.val) else None,
                  if sample.Some? then Some(sample.value.val) else None, StreamRate(h.line));
  }

  /** A layout, a sample rate and a bit rate: none of them equals such a segment. */
  lemma NotConsumedBy(t: string, layout: Option<string>, sample: Option<(nat, string)>, rate: Option<(nat, string)>)
    requires |t| > 0 && !IsDigit(t[0]) && !IsLayoutText(t)
    requires layout.Some? ==> IsLayoutText(layout.value)
    requires sample.Some? ==> |sample.value.1| > 0 && IsDigit(sample.value.1[0])
    requires rate.Some? ==> |rate.value.1| > 0 && IsDigit(rate.value.1[0])
    ensures !InArray(t, AudioConsumed(layout, sample, rate))
  {
  }

  /**
   * A header whose capture opens with a comma-separated segment that starts with
   * no digit and is not a channel layout gives that segment as the codec's raw text.
   */
  lemma AudioLeadingFormat(raw: string, h: Header, a: string, rest: string)
    requires h.rest == a + "," + rest && ',' !in a
    requires |Trim(a)| > 0 && !IsDigit(Trim(a)[0]) && !IsLayoutText(Trim(a))
    ensures AudioOf(raw, h).codec == CodecOf(Some(Trim(a)))
  {
    NotAudioConsumed(h, Trim(a));
    LeadingFormat(a, rest, AudioConsumedOf(h));
  }

  /** `aac (LC) (mp4a / 0x6134706D), ...` gives the AAC codec in the LC profile. */
  lemma AudioAac(raw: string, h: Header, rest: string)
    requires h.rest == "aac (LC) (mp4a / 0x6134706D)" + "," + rest
    ensures AudioOf(raw, h).codec ==
            Codec(Some("aac"), Some("LC"), Some("0x6134706D"), Some("mp4a"), Some("aac (LC) (mp4a / 0x6134706D)"))
  {
    AacSegment();
    AudioLeadingFormat(raw, h, "aac (LC) (mp4a / 0x6134706D)", rest);
    CodecOfAac();
  }

  /** The codec segment has no comma, and trim() leaves it as it is. */
  lemma AacSegment()
    ensures var codec := "aac (LC) (mp4a / 0x6134706D)";
      ',' !in codec && Trim(codec) == codec && codec[0] == 'a' && |codec| == 28
  {
    var codec := "aac (LC) (mp4a / 0x6134706D)";
    assert forall i :: 0 <= i < |codec| ==> codec[i] != ',';
    assert !IsTrimmed(codec[0]) && !IsTrimmed(codec[|codec| - 1]);
    TrimIs(codec, 0, |codec|);
    assert codec[0..|codec|] == codec;
  }

  /** The codec ffmpeg prints for an AAC stream in the LC profile. */
  lemma CodecOfAac()
    ensures CodecOf(Some("aac (LC) (mp4a / 0x6134706D)")) ==
            Codec(Some("aac"), Some("LC"), Some("0x6134706D"), Some("mp4a"), Some("aac (LC) (mp4a / 0x6134706D)"))
  {
    CodecOfLine("aac", "LC", "mp4a", "0x6134706D");
    AacPieces();
  }

  /** The codec text of an AAC stream, assembled from its four pieces. */
  lemma AacPieces()
    ensures "aac" + " (" + "LC" + ") (" + "mp4a" + " / " + "0x6134706D" + ")" == "aac (LC) (mp4a / 0x6134706D)"
  {
  }

  /** The steps getFileAudioComponent takes once the header line has matched. */
  method ParseAudio(raw: string, h: Header) returns (a: AudioComponent)
    ensures a == AudioOf(raw, h)
  {
    var layout := FirstFrom(h.line, 0, LayoutAt);
    var stereo: Option<string> := None;
    var channels: Option<nat> := None;
    if layout.Some? {
      stereo := Some(layout.value.val);
      channels := Some(Channels(layout.value.val));
    }
    var sample := FirstFrom(h.line, 0, SampleAt);
    var sampleRate: Option<(nat, string)> := None;
    if sample.Some? {
      sampleRate := Some(sample.value.val);
    }
    var rate := StreamRate(h.line);
    var bitrate: Option<nat> := None;
    if rate.Some? {
      bitrate := Some(rate.value.0);
    }
    var formats := Formats(h.rest, AudioConsumed(stereo, sampleRate, rate));
    var codecRaw: Option<string> := None;
    if |formats| > 0 {
      codecRaw := Some(formats[0]);
    }
    var metadata := ParseStreamMetadata(raw, h.line, AudioBlockAt);
    a := AudioComponent(StreamId(h.line), stereo, channels,
                        if sampleRate.Some? then Some(sampleRate.value.0) else None,
                        bitrate, Language(h.line), CodecOf(codecRaw), metadata);
  }

  // ---------------------------------------------------------------------------
  // What the extractors read back from the text ffmpeg prints
  // ---------------------------------------------------------------------------

  /** `mono`, `stereo` and `5.1` at the start of the line give 1, 2 and 6 channels. */
  lemma ChannelsOfLayout(word: string, rest: string)
    requires word == "mono" || word == "stereo" || word == "5.1"
    ensures FirstFrom(word + rest, 0, LayoutAt).Some?
    ensures FirstFrom(word + rest, 0, LayoutAt).value.val == word
    ensures Channels(word) == (if word == "mono" then 1 else if word == "stereo" then 2 else 6)
  {
    var s := word + rest;
    assert s[..|word|] == word;
    assert forall i :: 0 <= i < |word| ==> s[i] == word[i];
    assert s[0..|word|] == word;
    if word == "mono" {
      assert s[0] == 'm' && ToLower(s[0]) != "stereo"[0];
      assert !HasAtFolded(s, 0, "stereo");
      assert HasAtFolded(s, 0, "mono");
      assert LayoutAt(s, 0) == Some(word);
    } else if word == "5.1" {
      assert s[0] == '5' && ToLower(s[0]) != "stereo"[0] && ToLower(s[0]) != "mono"[0];
      assert !HasAtFolded(s, 0, "stereo");
      assert !HasAtFolded(s, 0, "mono");
      assert LayoutAt(s, 0) == Some(word);
    } else {
      assert HasAtFolded(s, 0, "stereo");
      assert LayoutAt(s, 0) == Some(word);
    }
    FirstFromIs(s, 0, LayoutAt, 0);
  }

  /** `Stereo`, capitalised, is found by the case-blind pattern but counts 0 channels. */
  lemma CapitalisedLayout(rest: string)
    ensures FirstFrom("Stereo" + rest, 0, LayoutAt).Some?
    ensures Channels(FirstFrom("Stereo" + rest, 0, LayoutAt).value.val) == 0
  {
    var s := "Stereo" + rest;
    assert s[..6] == "Stereo";
    assert forall i :: 0 <= i < 6 ==> s[i] == "Stereo"[i];
    assert HasAtFolded(s, 0, "stereo");
    FirstFromIs(s, 0, LayoutAt, 0);
  }

  /** `<ds> Hz` with three to six digits gives the sample rate `ds` stands for. */
  lemma SampleRateOfText(ds: string, rest: string)
    requires AllDigits(ds) && 3 <= |ds| <= 6
    ensures FirstFrom(ds + " Hz" + rest, 0, SampleAt).Some?
    ensures FirstFrom(ds + " Hz" + rest, 0, SampleAt).value.val.0 == DigitsValue(ds)
  {
    var s := ds + " Hz" + rest;
    var n := |ds|;
    assert forall i :: 0 <= i < n ==> s[i] == ds[i];
    assert s[n] == ' ' && s[n + 1..n + 3] == "Hz";
    SpanEndIs(s, 0, IsDigit, n);
    SpanEndIs(s, n, IsSpace, n + 1);
    assert s[..n] == ds;
    FirstFromIs(s, 0, SampleAt, 0);
  }
}
