/**
 * Character classes and position-based scanning primitives standing in for the
 * PCRE constructs and PHP string functions the parser uses.
 *
 * A pattern of the parser is modelled as a matcher `(s, p) -> Option<..>`: it says
 * whether the pattern matches text `s` when the match starts at position `p`, and
 * what it captures. `FirstFrom` is PCRE's leftmost-match search over such a
 * matcher, `LastIn` picks the largest candidate position (a greedy `.*` that
 * backtracks from the right), and `AllFrom` is `preg_match_all`.
 */
module Text {
  import opened Wrappers

  /** PCRE `\s`: space, tab, line feed, carriage return, vertical tab, form feed. */
  predicate IsSpace(c: char) {
    c == ' ' || c == '\t' || c == '\n' || c == '\r' || c == '\U{B}' || c == '\U{C}'
  }

  predicate NotSpace(c: char) { !IsSpace(c) }

  /** PCRE `.` without the /s flag matches every character except a line feed. */
  predicate NotNewline(c: char) { c != '\n' }

  predicate IsDigit(c: char) { '0' <= c <= '9' }

  /** The characters PHP's trim() strips by default: " \t\n\r\0\x0B". */
  predicate IsTrimmed(c: char) {
    c == ' ' || c == '\t' || c == '\n' || c == '\r' || c == '\0' || c == '\U{B}'
  }

  /** ASCII lower-casing, as PCRE's /i flag and PHP's strtolower apply it. */
  function ToLower(c: char): (r: char)
    ensures 'A' <= c <= 'Z' ==> 'a' <= r <= 'z'
    ensures !('A' <= c <= 'Z') ==> r == c
  {
    if 'A' <= c <= 'Z' then (c as int + 32) as char else c
  }

  /** The literal `lit` occurs in `s` at position `p`. */
  predicate HasAt(s: string, p: nat, lit: string) {
    p + |lit| <= |s| && s[p..p + |lit|] == lit
  }

  /** A slice equals `t` when it agrees with `t` character by character. */
  lemma SliceIs(s: string, x: nat, t: string)
    requires x + |t| <= |s| && forall j :: 0 <= j < |t| ==> s[x + j] == t[j]
    ensures s[x..x + |t|] == t && HasAt(s, x, t)
  {
    forall j | 0 <= j < |t|
      ensures s[x..x + |t|][j] == t[j]
    {
    }
  }

  /** A slice of a slice is a slice of the whole. */
  lemma SliceOfSlice(s: string, p: nat, e: nat, x: nat, y: nat)
    requires p <= e <= |s| && x <= y <= e - p
    ensures s[p..e][x..y] == s[p + x..p + y]
  {
    forall i | 0 <= i < y - x
      ensures s[p..e][x..y][i] == s[p + x..p + y][i]
    {
    }
  }

  /** A slice that is a concatenation splits into its two parts. */
  lemma SliceSplit(s: string, p: nat, u: string, w: string)
    requires p + |u| + |w| <= |s| && s[p..p + |u| + |w|] == u + w
    ensures s[p..p + |u|] == u && s[p + |u|..p + |u| + |w|] == w
  {
    SliceOfSlice(s, p, p + |u| + |w|, 0, |u|);
    SliceOfSlice(s, p, p + |u| + |w|, |u|, |u| + |w|);
    assert (u + w)[..|u|] == u && (u + w)[|u|..] == w;
  }

  /** A slice equal to `t` agrees with `t` character by character. */
  lemma SliceChars(s: string, x: nat, t: string)
    requires x + |t| <= |s| && s[x..x + |t|] == t
    ensures forall i :: x <= i < x + |t| ==> s[i] == t[i - x]
  {
    forall i | x <= i < x + |t|
      ensures s[i] == t[i - x]
    {
      assert s[i] == s[x..x + |t|][i - x];
    }
  }

  /** The lower-case literal `lit` occurs in `s` at position `p`, ignoring ASCII case. */
  predicate HasAtFolded(s: string, p: nat, lit: string) {
    p + |lit| <= |s| && forall i :: 0 <= i < |lit| ==> ToLower(s[p + i]) == lit[i]
  }

  /** End of the maximal run of characters satisfying `P` that starts at `p` (a greedy `P*`). */
  function SpanEnd(s: string, p: nat, P: char -> bool): (e: nat)
    requires p <= |s|
    ensures p <= e <= |s|
    ensures forall i :: p <= i < e ==> P(s[i])
    ensures e < |s| ==> !P(s[e])
    decreases |s| - p
  {
    if p < |s| && P(s[p]) then SpanEnd(s, p + 1, P) else p
  }

  /** The three properties of SpanEnd determine it. */
  lemma SpanEndIs(s: string, p: nat, P: char -> bool, e: nat)
    requires p <= e <= |s|
    requires forall i :: p <= i < e ==> P(s[i])
    requires e < |s| ==> !P(s[e])
    ensures SpanEnd(s, p, P) == e
  {
  }

  /** A run of exactly one character. */
  lemma SpanEndOne(s: string, p: nat, P: char -> bool)
    requires p < |s| && P(s[p])
    requires p + 1 < |s| ==> !P(s[p + 1])
    ensures SpanEnd(s, p, P) == p + 1
  {
    SpanEndIs(s, p, P, p + 1);
  }

  /** Where a match was found, and what it captured. */
  datatype Hit<T> = Hit(pos: nat, val: T)

  /** Leftmost match of `m` at a position `>= p` (PCRE tries start positions left to right). */
  function FirstFrom<T>(s: string, p: nat, m: (string, nat) -> Option<T>): (r: Option<Hit<T>>)
    requires p <= |s|
    ensures r.Some? ==> p <= r.value.pos <= |s| && m(s, r.value.pos) == Some(r.value.val)
    ensures r.Some? ==> forall q :: p <= q < r.value.pos ==> m(s, q).None?
    ensures r.None? ==> forall q :: p <= q <= |s| ==> m(s, q).None?
    decreases |s| - p
  {
    if m(s, p).Some? then Some(Hit(p, m(s, p).value))
    else if p == |s| then None
    else FirstFrom(s, p + 1, m)
  }

  /** Without a match at any position from `p` on, there is no leftmost one. */
  lemma FirstFromNone<T>(s: string, p: nat, m: (string, nat) -> Option<T>)
    requires p <= |s| && forall q :: p <= q <= |s| ==> m(s, q).None?
    ensures FirstFrom(s, p, m).None?
  {
  }

  /** A match at `q` with none before it is the leftmost one. */
  lemma FirstFromIs<T>(s: string, p: nat, m: (string, nat) -> Option<T>, q: nat)
    requires p <= q <= |s| && m(s, q).Some?
    requires forall k :: p <= k < q ==> m(s, k).None?
    ensures FirstFrom(s, p, m) == Some(Hit(q, m(s, q).value))
  {
  }

  /** Largest position in `[lo, hi]` at which `m` matches (a greedy `.*` backtracking from the right). */
  function LastIn<T>(s: string, lo: nat, hi: nat, m: (string, nat) -> Option<T>): (r: Option<Hit<T>>)
    ensures r.Some? ==> lo <= r.value.pos <= hi && m(s, r.value.pos) == Some(r.value.val)
    ensures r.Some? ==> forall q :: r.value.pos < q <= hi ==> m(s, q).None?
    ensures r.None? ==> forall q :: lo <= q <= hi ==> m(s, q).None?
    decreases hi
  {
    if hi < lo then None
    else if m(s, hi).Some? then Some(Hit(hi, m(s, hi).value))
    else if hi == lo then None
    else LastIn(s, lo, hi - 1, m)
  }

  /** A match at `q` with none after it up to `hi` is the one the greedy search picks. */
  lemma {:induction false} LastInIs<T>(s: string, lo: nat, hi: nat, m: (string, nat) -> Option<T>, q: nat)
    requires lo <= q <= hi && m(s, q).Some?
    requires forall k :: q < k <= hi ==> m(s, k).None?
    ensures LastIn(s, lo, hi, m) == Some(Hit(q, m(s, q).value))
    decreases hi
  {
    if hi > q {
      LastInIs(s, lo, hi - 1, m, q);
    }
  }

  /** A match that ends at `end` and captured `val`. */
  datatype Match<T> = Match(val: T, end: nat)

  /**
   * `preg_match_all`: the successive non-overlapping matches, each search resuming
   * where the previous match ended. The matchers given here never match the empty
   * string; for one that did, the search resumes one character further on.
   */
  function AllFrom<T>(s: string, p: nat, m: (string, nat) -> Option<Match<T>>): (r: seq<T>)
    requires p <= |s|
    ensures FirstFrom(s, p, m).None? ==> r == []
    ensures FirstFrom(s, p, m).Some? ==> |r| > 0 && r[0] == FirstFrom(s, p, m).value.val.val
    decreases |s| - p
  {
    match FirstFrom(s, p, m)
    case None => []
    case Some(h) =>
      if h.pos < h.val.end <= |s| then [h.val.val] + AllFrom(s, h.val.end, m)
      else if h.pos < |s| then [h.val.val] + AllFrom(s, h.pos + 1, m)
      else [h.val.val]
  }

  /** Every capture preg_match_all returns is one the pattern gives somewhere in the text. */
  lemma {:induction false} AllFromFound<T>(s: string, p: nat, m: (string, nat) -> Option<Match<T>>, P: T -> bool)
    requires p <= |s|
    requires forall q :: p <= q <= |s| && m(s, q).Some? ==> P(m(s, q).value.val)
    ensures forall i :: 0 <= i < |AllFrom(s, p, m)| ==> P(AllFrom(s, p, m)[i])
    decreases |s| - p
  {
    match FirstFrom(s, p, m)
    case None =>
    case Some(h) =>
      if h.pos < h.val.end <= |s| {
        AllFromFound(s, h.val.end, m, P);
      } else if h.pos < |s| {
        AllFromFound(s, h.pos + 1, m, P);
      }
  }

  /** A match found `d` characters further into a longer text ends `d` characters later. */
  function ShiftMatch<T>(r: Option<Match<T>>, d: nat): Option<Match<T>> {
    match r
    case None => None
    case Some(x) => Some(Match(x.val, d + x.end))
  }

  /** `a` is the hit `b` moved `d` places on. */
  ghost predicate ShiftedHit<T>(a: Option<Hit<Match<T>>>, b: Option<Hit<Match<T>>>, d: nat) {
    && a.Some? == b.Some?
    && (b.Some? ==> a.value.pos == d + b.value.pos && a.value.val.end == d + b.value.val.end && a.value.val.val == b.value.val.val)
  }

  /** The leftmost search in `t` from `q`, and in a text `s` whose matches are those of `t` moved `d` places on, agree. */
  lemma {:induction false} FirstFromShift<T>(s: string, t: string, d: nat, q: nat, m: (string, nat) -> Option<Match<T>>)
    requires q <= |t| && |s| == d + |t|
    requires forall k :: q <= k <= |t| ==> m(s, d + k) == ShiftMatch(m(t, k), d)
    ensures ShiftedHit(FirstFrom(s, d + q, m), FirstFrom(t, q, m), d)
    decreases |t| - q
  {
    if m(t, q).None? && q < |t| {
      FirstFromShift(s, t, d, q + 1, m);
    }
  }

  /** AllFrom unfolded once at a known leftmost hit. */
  lemma AllFromStep<T>(s: string, p: nat, m: (string, nat) -> Option<Match<T>>, h: Hit<Match<T>>)
    requires p <= |s| && FirstFrom(s, p, m) == Some(h)
    ensures h.pos < h.val.end <= |s| ==> AllFrom(s, p, m) == [h.val.val] + AllFrom(s, h.val.end, m)
    ensures !(h.pos < h.val.end <= |s|) && h.pos < |s| ==> AllFrom(s, p, m) == [h.val.val] + AllFrom(s, h.pos + 1, m)
    ensures !(h.pos < h.val.end <= |s|) && h.pos == |s| ==> AllFrom(s, p, m) == [h.val.val]
  {
  }

  /** One step of preg_match_all: the leftmost match, then the search resumed where it ended (one place on after an empty match). */
  lemma AllFromNext<T>(s: string, p: nat, m: (string, nat) -> Option<Match<T>>, n: nat)
    requires p <= |s| && FirstFrom(s, p, m).Some?
    requires n == var h := FirstFrom(s, p, m).value; if h.pos < h.val.end <= |s| then h.val.end else h.pos + 1
    ensures n <= |s| ==> AllFrom(s, p, m) == [FirstFrom(s, p, m).value.val.val] + AllFrom(s, n, m)
    ensures n > |s| ==> AllFrom(s, p, m) == [FirstFrom(s, p, m).value.val.val]
  {
    var h := FirstFrom(s, p, m).value;
    AllFromStep(s, p, m, h);
  }

  /** The leftmost searches from `d + k` in `s` and from `k` in `t` agree up to the shift by `d`. */
  ghost predicate ShiftedFrom<T>(s: string, t: string, k: nat, d: nat, m: (string, nat) -> Option<Match<T>>)
    requires k <= |t| && |s| == d + |t|
  {
    ShiftedHit(FirstFrom(s, d + k, m), FirstFrom(t, k, m), d)
  }

  /**
   * preg_match_all over `s`, whose matches are those of `t` moved `d` places on, lists what it lists over `t`
   * (from `p == d + q` in `s` and from `q` in `t`).
   */
  lemma AllFromShift<T>(s: string, p: nat, t: string, q: nat, d: nat, m: (string, nat) -> Option<Match<T>>)
    requires q <= |t| && |s| == d + |t| && p == d + q
    requires forall k :: q <= k <= |t| ==> m(s, d + k) == ShiftMatch(m(t, k), d)
    ensures AllFrom(s, p, m) == AllFrom(t, q, m)
  {
    forall k | q <= k <= |t|
      ensures ShiftedFrom(s, t, k, d, m)
    {
      FirstFromShift(s, t, d, k, m);
    }
    AllFromShiftHits(s, p, t, q, d, m);
  }

  /** `AllFromShift`, from leftmost matches that agree at every start position. */
  lemma {:induction false} AllFromShiftHits<T>(s: string, p: nat, t: string, q: nat, d: nat, m: (string, nat) -> Option<Match<T>>)
    requires q <= |t| && |s| == d + |t| && p == d + q
    requires forall k :: q <= k <= |t| ==> ShiftedFrom(s, t, k, d, m)
    ensures AllFrom(s, p, m) == AllFrom(t, q, m)
    decreases |t| - q
  {
    assert ShiftedFrom(s, t, q, d, m);
    assert ShiftedHit(FirstFrom(s, p, m), FirstFrom(t, q, m), d);
    if FirstFrom(t, q, m).Some? {
      var h := FirstFrom(t, q, m).value;
      var n := if h.pos < h.val.end <= |t| then h.val.end else h.pos + 1;
      var e := d + n;
      if n <= |t| {
        AllFromShiftHits(s, e, t, n, d, m);
      }
      AllFromShiftStep(s, p, t, q, d, m, n, e);
    }
  }

  /** One step of `AllFromShift`: equal leftmost matches and equal remainders give equal lists. */
  lemma AllFromShiftStep<T>(s: string, p: nat, t: string, q: nat, d: nat, m: (string, nat) -> Option<Match<T>>, n: nat, e: nat)
    requires q <= |t| && |s| == d + |t| && p == d + q && e == d + n
    requires FirstFrom(t, q, m).Some? && ShiftedHit(FirstFrom(s, p, m), FirstFrom(t, q, m), d)
    requires n == var h := FirstFrom(t, q, m).value; if h.pos < h.val.end <= |t| then h.val.end else h.pos + 1
    requires n <= |t| ==> AllFrom(s, e, m) == AllFrom(t, n, m)
    ensures AllFrom(s, p, m) == AllFrom(t, q, m)
  {
    AllFromNext(t, q, m, n);
    AllFromNext(s, p, m, e);
  }

  /** With no match where the search starts, preg_match_all may as well start one further on. */
  lemma AllFromSkip<T>(s: string, p: nat, m: (string, nat) -> Option<Match<T>>)
    requires p < |s| && m(s, p).None?
    ensures AllFrom(s, p, m) == AllFrom(s, p + 1, m)
  {
    assert FirstFrom(s, p, m) == FirstFrom(s, p + 1, m);
  }

  /** `strpos`: the first position at or after `p` where `lit` occurs. */
  function IndexFrom(s: string, lit: string, p: nat): (r: Option<nat>)
    requires p <= |s|
    ensures r.Some? ==> p <= r.value <= |s| && HasAt(s, r.value, lit)
    ensures r.Some? ==> forall q :: p <= q < r.value ==> !HasAt(s, q, lit)
    ensures r.None? ==> forall q :: p <= q <= |s| ==> !HasAt(s, q, lit)
    decreases |s| - p
  {
    if HasAt(s, p, lit) then Some(p)
    else if p == |s| then None
    else IndexFrom(s, lit, p + 1)
  }

  /** `strpos($s, $lit) !== false`. */
  predicate Contains(s: string, lit: string) {
    IndexFrom(s, lit, 0).Some?
  }

  /** `strpos($s, $lit) === 0`. */
  predicate StartsWith(s: string, lit: string) {
    HasAt(s, 0, lit)
  }

  /** `s[i..j]` is what is left of `s` once trim characters are dropped from both ends. */
  predicate TrimmedSlice(s: string, i: nat, j: nat) {
    && i <= j <= |s|
    && (forall k :: 0 <= k < i ==> IsTrimmed(s[k]))
    && (forall k :: j <= k < |s| ==> IsTrimmed(s[k]))
  }

  /** PHP trim(): drops the IsTrimmed characters from both ends. */
  function Trim(s: string): (r: string)
    ensures |r| <= |s|
    ensures exists i: nat, j: nat :: TrimmedSlice(s, i, j) && r == s[i..j]
    ensures r != [] ==> !IsTrimmed(r[0]) && !IsTrimmed(r[|r| - 1])
    ensures (forall i :: 0 <= i < |s| ==> !IsTrimmed(s[i])) ==> r == s
  {
    var i := SpanEnd(s, 0, IsTrimmed);
    var j := TrimmedEnd(s, i);
    assert TrimmedSlice(s, i, j);
    s[i..j]
  }

  /**
   * The slice between the first and the last character trim() keeps is what it
   * returns; when it keeps none, it returns the empty string.
   */
  lemma TrimIs(s: string, i: nat, j: nat)
    requires TrimmedSlice(s, i, j)
    requires i < j ==> !IsTrimmed(s[i]) && !IsTrimmed(s[j - 1])
    requires i == j ==> forall k :: 0 <= k < |s| ==> IsTrimmed(s[k])
    ensures Trim(s) == s[i..j]
  {
    var r := Trim(s);
    var i0: nat, j0: nat :| TrimmedSlice(s, i0, j0) && r == s[i0..j0];
    if i0 < j0 {
      assert s[i0] == r[0] && s[j0 - 1] == r[|r| - 1];
    }
  }

  /** Largest `j >= i` such that `s[j-1]` is kept by trim (or `j == i`). */
  function TrimmedEnd(s: string, i: nat): (j: nat)
    requires i <= |s|
    requires i < |s| ==> !IsTrimmed(s[i])
    ensures i <= j <= |s|
    ensures j > i ==> !IsTrimmed(s[j - 1])
    ensures forall k :: j <= k < |s| ==> IsTrimmed(s[k])
    ensures j == i ==> i == |s|
    decreases |s| - i
  {
    if |s| == i then i
    else if !IsTrimmed(s[|s| - 1]) then |s|
    else
      assert |s| - 1 > i;
      TrimmedEnd(s[..|s| - 1], i)
  }

  /** PHP explode(): the pieces of `s` between occurrences of `d`, empty ones included. */
  function Split(s: string, d: char): (r: seq<string>)
    ensures |r| > 0
    ensures forall k :: 0 <= k < |r| ==> d !in r[k]
    ensures Join(r, d) == s
    decreases |s|
  {
    if d !in s then [s]
    else
      var i := FirstIndexOf(s, d);
      var rest := Split(s[i + 1..], d);
      assert s == s[..i] + [d] + s[i + 1..];
      [s[..i]] + rest
  }

  /** A first piece free of the separator, then the separator, opens the split. */
  lemma SplitFront(a: string, d: char, rest: string)
    requires d !in a
    ensures Split(a + [d] + rest, d) == [a] + Split(rest, d)
  {
    var s := a + [d] + rest;
    assert s[|a|] == d;
    FirstIndexAfter(a, d, rest);
    assert s[..|a|] == a;
    assert s[|a| + 1..] == rest;
  }

  /** The first `d` in `a + [d] + rest` is the one after `a` when `a` has none. */
  lemma {:induction false} FirstIndexAfter(a: string, d: char, rest: string)
    requires d !in a
    ensures d in a + [d] + rest && FirstIndexOf(a + [d] + rest, d) == |a|
  {
    var s := a + [d] + rest;
    assert s[|a|] == d;
    if a != [] {
      assert s[0] == a[0];
      assert s[1..] == a[1..] + [d] + rest;
      FirstIndexAfter(a[1..], d, rest);
    }
  }

  /** Concatenation of `pieces` with `d` between consecutive ones (PHP implode()). */
  function Join(pieces: seq<string>, d: char): string
  {
    if |pieces| == 0 then []
    else if |pieces| == 1 then pieces[0]
    else pieces[0] + [d] + Join(pieces[1..], d)
  }

  /** PHP implode() with a string glue. */
  function Implode(pieces: seq<string>, glue: string): string
  {
    if |pieces| == 0 then []
    else if |pieces| == 1 then pieces[0]
    else pieces[0] + glue + Implode(pieces[1..], glue)
  }

  /** A glued text opens with the first character of its first piece. */
  lemma ImplodeHead(pieces: seq<string>, glue: string)
    requires |pieces| > 0 && |pieces[0]| > 0
    ensures |Implode(pieces, glue)| > 0 && Implode(pieces, glue)[0] == pieces[0][0]
  {
  }

  /** Position of the first occurrence of `c` in `s`. */
  function FirstIndexOf(s: string, c: char): (i: nat)
    requires c in s
    ensures i < |s| && s[i] == c && c !in s[..i]
  {
    if s[0] == c then 0 else
      assert c in s[1..];
      1 + FirstIndexOf(s[1..], c)
  }
}
