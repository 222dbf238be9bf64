/**
 * Metadata blocks: the `key : value` lines ffmpeg prints under a `Metadata:`
 * heading, for the whole file and for each stream.
 */
module Metadata {
  import opened Wrappers
  import opened Text
  import opened Assoc

  /** `[a-z\_]`. */
  predicate IsKeyChar(c: char) { 'a' <= c <= 'z' || c == '_' }

  /**
   * `/([a-z\_]+)\s+\:\s+(.*)/` matched at the start of `u`: a maximal run of key
   * characters, blanks, a colon, blanks, then the rest of the line. Every quantifier
   * here is greedy and nothing after it can succeed on a shorter run, so the match
   * is determined by its start.
   */
  function KeyValueOf(u: string): (r: Option<Match<(string, string)>>)
    ensures r.Some? ==> 0 < r.value.end <= |u|
    ensures r.Some? ==> |r.value.val.0| > 0 && forall i :: 0 <= i < |r.value.val.0| ==> IsKeyChar(r.value.val.0[i])
    ensures r.Some? ==> '\n' !in r.value.val.1
  {
    if 0 < |u| && IsKeyChar(u[0]) then
      var k := SpanEnd(u, 0, IsKeyChar);
      var w := SpanEnd(u, k, IsSpace);
      if k < w < |u| && u[w] == ':' then
        var v := SpanEnd(u, w + 1, IsSpace);
        if v > w + 1 then
          var e := SpanEnd(u, v, NotNewline);
          assert forall i :: v <= i < e ==> u[i] != '\n';
          Some(Match((u[..k], u[v..e]), e))
        else None
      else None
    else None
  }

  /** The key/value pattern matched at `p`: it looks at nothing before `p`. */
  function KeyValueAt(s: string, p: nat): (r: Option<Match<(string, string)>>)
    ensures r.Some? ==> p < r.value.end <= |s|
    ensures r.Some? ==> |r.value.val.0| > 0 && forall i :: 0 <= i < |r.value.val.0| ==> IsKeyChar(r.value.val.0[i])
    ensures r.Some? ==> '\n' !in r.value.val.1
  {
    if p <= |s| then ShiftMatch(KeyValueOf(s[p..]), p) else None
  }

  /** `preg_match_all` of the key/value pattern: every line's pair, in order. */
  function Pairs(text: string): seq<(string, string)> {
    AllFrom(text, 0, KeyValueAt)
  }

  /** Terminator `Duration:` of the global metadata block. */
  function DurationMark(s: string, q: nat): Option<()> {
    if HasAt(s, q, "Duration:") then Some(()) else None
  }

  /** Terminator `Stream` of a video stream's metadata block. */
  function StreamMark(s: string, q: nat): Option<()> {
    if HasAt(s, q, "Stream") then Some(()) else None
  }

  /** Terminator `Stream` or `At\sleast` of an audio stream's metadata block. */
  function StreamOrAtLeastMark(s: string, q: nat): Option<()> {
    if HasAt(s, q, "Stream") || (HasAt(s, q, "At") && q + 2 < |s| && IsSpace(s[q + 2]) && HasAt(s, q + 3, "least"))
    then Some(()) else None
  }

  /**
   * `/Metadata:(.*)<terminator>/ms` matched at `p`: with /s the `.*` spans lines and
   * is greedy, so the block runs up to the LAST terminator in the text.
   */
  function BlockAt(s: string, p: nat, mark: (string, nat) -> Option<()>): (r: Option<string>)
    ensures r.Some? ==> HasAt(s, p, "Metadata:")
    ensures r.Some? ==> exists q :: p + 9 <= q <= |s| && mark(s, q).Some? && r.value == s[p + 9..q]
  {
    if HasAt(s, p, "Metadata:") then
      match LastIn(s, p + 9, |s|, mark)
      case None => None
      case Some(h) => Some(s[p + 9..h.pos])
    else None
  }

  function GlobalBlockAt(s: string, p: nat): Option<string> { BlockAt(s, p, DurationMark) }

  function VideoBlockAt(s: string, p: nat): Option<string> { BlockAt(s, p, StreamMark) }

  function AudioBlockAt(s: string, p: nat): Option<string> { BlockAt(s, p, StreamOrAtLeastMark) }

  /** The parsed pairs of a block, assigned key by key into an empty array. */
  method ParseBlock(block: string) returns (m: Entries)
    ensures m == FromPairs(Pairs(block))
    ensures UniqueKeys(m)
    ensures forall k :: Lookup(m, k) == LastValue(Pairs(block), k)
  {
    var pairs := Pairs(block);
    m := Fill(pairs);
    forall k ensures Lookup(m, k) == LastValue(pairs, k) {
      FromPairsLookup(pairs, k);
    }
    FromPairsLookup(pairs, "");
  }

  /**
   * The global metadata (MediaParser::getFileGlobalMetadata): the pairs between the
   * first `Metadata:` and the last `Duration:`; null when there is no such block or
   * it holds no pair.
   */
  function GlobalMetadata(raw: string): (r: Option<Entries>)
    ensures r.Some? ==> FirstFrom(raw, 0, GlobalBlockAt).Some?
    ensures r.Some? ==> r.value == FromPairs(Pairs(FirstFrom(raw, 0, GlobalBlockAt).value.val))
    ensures r.Some? ==> |r.value| > 0 && UniqueKeys(r.value)
    ensures r.None? <==> (FirstFrom(raw, 0, GlobalBlockAt).None? || Pairs(FirstFrom(raw, 0, GlobalBlockAt).value.val) == [])
  {
    match FirstFrom(raw, 0, GlobalBlockAt)
    case None => None
    case Some(h) =>
      var pairs := Pairs(h.val);
      if pairs == [] then None
      else
        FromPairsLookup(pairs, pairs[0].0);
        Some(FromPairs(pairs))
  }

  /** The loop form of GlobalMetadata, as the source fills `$data`. */
  method ParseGlobalMetadata(raw: string) returns (r: Option<Entries>)
    ensures r == GlobalMetadata(raw)
  {
    r := None;
    var found := FirstFrom(raw, 0, GlobalBlockAt);
    if found.Some? {
      var pairs := Pairs(found.value.val);
      if pairs != [] {
        var m := ParseBlock(found.value.val);
        r := Some(m);
      }
    }
  }

  /**
   * The text a stream's metadata block is searched in: what follows the first
   * occurrence of the stream's header line in the output, trimmed. PHP's `false`
   * from a failed strpos() counts as 0 in the addition, and substr() past the end
   * gives the empty string.
   */
  function AfterHeader(raw: string, line: string): string {
    var from := match IndexFrom(raw, line, 0) case Some(i) => i case None => 0;
    if from + |line| <= |raw| then Trim(raw[from + |line|..]) else ""
  }

  /**
   * The block of a stream's metadata: found only when the text after the header
   * line starts with `Metadata:`, and then the first match of the stream's block
   * pattern in it.
   */
  function StreamBlock(raw: string, line: string, blockAt: (string, nat) -> Option<string>): (r: Option<string>)
    ensures r.Some? ==> StartsWith(AfterHeader(raw, line), "Metadata:")
    ensures r.Some? <==> StartsWith(AfterHeader(raw, line), "Metadata:") && FirstFrom(AfterHeader(raw, line), 0, blockAt).Some?
  {
    var search := AfterHeader(raw, line);
    if StartsWith(search, "Metadata:") then
      match FirstFrom(search, 0, blockAt)
      case None => None
      case Some(h) => Some(h.val)
    else None
  }

  /**
   * A stream's `metadata` array: empty without a block, otherwise each key of the
   * block once, with the value the block gives it last.
   */
  function StreamMetadata(raw: string, line: string, blockAt: (string, nat) -> Option<string>): (r: Entries)
    ensures UniqueKeys(r)
    ensures StreamBlock(raw, line, blockAt).None? ==> r == []
    ensures StreamBlock(raw, line, blockAt).Some? ==>
              forall k :: Lookup(r, k) == LastValue(Pairs(StreamBlock(raw, line, blockAt).value), k)
  {
    match StreamBlock(raw, line, blockAt)
    case None => []
    case Some(block) =>
      var pairs := Pairs(block);
      FromPairsLookup(pairs, "");
      assert forall k :: Lookup(FromPairs(pairs), k) == LastValue(pairs, k) by {
        forall k ensures Lookup(FromPairs(pairs), k) == LastValue(pairs, k) {
          FromPairsLookup(pairs, k);
        }
      }
      FromPairs(pairs)
  }

  /** The source's steps for a stream's metadata: locate the block, then assign its pairs in turn. */
  method ParseStreamMetadata(raw: string, line: string, blockAt: (string, nat) -> Option<string>) returns (m: Entries)
    ensures m == StreamMetadata(raw, line, blockAt)
  {
    m := [];
    var block := StreamBlock(raw, line, blockAt);
    if block.Some? {
      m := ParseBlock(block.value);
    }
  }

  /** A run of one or more blanks, as ffmpeg pads its keys into a column. */
  predicate IsPadding(b: string) {
    |b| > 0 && forall i :: 0 <= i < |b| ==> b[i] == ' '
  }

  /**
   * One `key<padding>:<padding>value` line, such as `    major_brand     : isom`
   * once its indentation is passed, is read as that pair, and the search goes on
   * after it.
   */
  lemma PairOfLine(k: string, b: string, c: string, v: string, rest: string)
    requires |k| > 0 && forall i :: 0 <= i < |k| ==> IsKeyChar(k[i])
    requires IsPadding(b) && IsPadding(c)
    requires |v| > 0 && NotSpace(v[0]) && '\n' !in v
    requires rest == [] || rest[0] == '\n'
    ensures Pairs(k + b + ":" + c + v + rest) == [(k, v)] + Pairs(rest)
  {
    var line := k + b + ":" + c + v;
    var s := line + rest;
    var w := |k| + |b|;
    var p := w + 1 + |c|;
    LineLayout(s, k, b, c, v, rest);
    PairAt(s, k, w, p, v);
    FirstFromIs(s, 0, KeyValueAt, 0);
    AllFromNext(s, 0, KeyValueAt, |line|);
    PairsShift(line, rest);
  }

  /** Where the parts of a `key<padding>:<padding>value` line sit. */
  lemma LineLayout(s: string, k: string, b: string, c: string, v: string, rest: string)
    requires s == k + b + ":" + c + v + rest
    ensures var w := |k| + |b|; var p := w + 1 + |c|;
      && p + |v| <= |s| && s[..|k|] == k && s[w] == ':' && s[p..p + |v|] == v
      && (forall i :: |k| <= i < w ==> s[i] == b[i - |k|])
      && (forall i :: w < i < p ==> s[i] == c[i - w - 1])
      && (p + |v| < |s| ==> s[p + |v|] == rest[0])
  {
  }

  /** A character that cannot start a key is passed over. */
  lemma PairsSkip(c: char, rest: string)
    requires !IsKeyChar(c)
    ensures Pairs([c] + rest) == Pairs(rest)
  {
    AllFromSkip([c] + rest, 0, KeyValueAt);
    PairsShift([c], rest);
  }

  /** Once the search has passed `pre`, what follows is read as on its own. */
  lemma PairsShift(pre: string, t: string)
    ensures AllFrom(pre + t, |pre|, KeyValueAt) == Pairs(t)
  {
    KeyValueAtShifts(pre, t);
    AllFromShift(pre + t, |pre|, t, 0, |pre|, KeyValueAt);
  }

  /** `KeyValueAtShift` at every position of `t`. */
  lemma KeyValueAtShifts(pre: string, t: string)
    ensures forall q :: 0 <= q <= |t| ==> KeyValueAt(pre + t, |pre| + q) == ShiftMatch(KeyValueAt(t, q), |pre|)
  {
    forall q | 0 <= q <= |t|
      ensures KeyValueAt(pre + t, |pre| + q) == ShiftMatch(KeyValueAt(t, q), |pre|)
    {
      KeyValueAtShift(pre, t, q);
    }
  }

  /** The key/value pattern only looks forward from where it starts. */
  lemma KeyValueAtShift(pre: string, t: string, q: nat)
    requires q <= |t|
    ensures KeyValueAt(pre + t, |pre| + q) == ShiftMatch(KeyValueAt(t, q), |pre|)
  {
    assert (pre + t)[|pre| + q..] == t[q..];
  }

  /** A `key<padding>:<padding>value` line at the start of `s`, described by its positions. */
  lemma PairAt(s: string, k: string, w: nat, p: nat, v: string)
    requires |k| > 0 && forall i :: 0 <= i < |k| ==> IsKeyChar(k[i])
    requires |k| < w && w + 1 < p && p + |v| <= |s| && s[..|k|] == k && s[w] == ':'
    requires forall i :: |k| <= i < w ==> s[i] == ' '
    requires forall i :: w < i < p ==> s[i] == ' '
    requires |v| > 0 && NotSpace(v[0]) && '\n' !in v && s[p..p + |v|] == v
    requires p + |v| < |s| ==> s[p + |v|] == '\n'
    ensures KeyValueAt(s, 0) == Some(Match((k, v), p + |v|))
  {
    KeySpans(s, k, w);
    ValueSpans(s, w, p, v);
    assert s[0..] == s;
  }

  /** The key runs up to the padding and the padding up to the colon. */
  lemma KeySpans(s: string, k: string, w: nat)
    requires |k| > 0 && forall i :: 0 <= i < |k| ==> IsKeyChar(k[i])
    requires |k| < w < |s| && s[..|k|] == k && s[w] == ':'
    requires forall i :: |k| <= i < w ==> s[i] == ' '
    ensures SpanEnd(s, 0, IsKeyChar) == |k| && SpanEnd(s, |k|, IsSpace) == w
  {
    var n := |k|;
    assert forall i :: 0 <= i < n ==> IsKeyChar(s[i]) by {
      forall i | 0 <= i < n ensures IsKeyChar(s[i]) {
        assert s[i] == s[..n][i];
      }
    }
    SpanEndIs(s, 0, IsKeyChar, n);
    SpanEndIs(s, n, IsSpace, w);
  }

  /** The padding after the colon runs up to the value, and the value to the end of the line. */
  lemma ValueSpans(s: string, w: nat, p: nat, v: string)
    requires |v| > 0 && NotSpace(v[0]) && '\n' !in v
    requires w < p && p + |v| <= |s| && s[p..p + |v|] == v
    requires forall i :: w < i < p ==> s[i] == ' '
    requires p + |v| < |s| ==> s[p + |v|] == '\n'
    ensures SpanEnd(s, w + 1, IsSpace) == p && SpanEnd(s, p, NotNewline) == p + |v|
  {
    var e := p + |v|;
    assert s[p] == v[0];
    SpanEndIs(s, w + 1, IsSpace, p);
    assert forall i :: p <= i < e ==> NotNewline(s[i]) by {
      forall i | p <= i < e ensures NotNewline(s[i]) {
        assert s[i] == v[i - p];
      }
    }
    SpanEndIs(s, p, NotNewline, e);
  }
}
