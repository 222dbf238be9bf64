/**
 * ProcessUtils::escapeArgument on Windows: the argument is cut at every `"`, each
 * piece is rewritten so that cmd.exe neither ends the quoted argument early nor
 * expands `%VAR%`, and the result is put in double quotes when it holds any
 * ordinary text.
 */
module ProcessUtils {

  /** A string without a double quote. */
  predicate QuoteFree(s: string) {
    forall i :: 0 <= i < |s| ==> s[i] != '"'
  }

  /** The pieces written one after the other. */
  function Concat(ps: seq<string>): string {
    if ps == [] then "" else ps[0] + Concat(ps[1..])
  }

  lemma {:induction false} ConcatAppend(ps: seq<string>, qs: seq<string>)
    ensures Concat(ps + qs) == Concat(ps) + Concat(qs)
    decreases |ps|
  {
    if ps == [] {
      assert ps + qs == qs;
    } else {
      assert (ps + qs)[1..] == ps[1..] + qs;
      ConcatAppend(ps[1..], qs);
    }
  }

  /** The length of the quote-free text `s` starts with. */
  function RunLength(s: string): (n: nat)
    ensures n <= |s|
    ensures forall i :: 0 <= i < n ==> s[i] != '"'
    ensures n < |s| ==> s[n] == '"'
  {
    if s == [] || s[0] == '"' then 0 else 1 + RunLength(s[1..])
  }

  /** Quote-free text up to a quote or the end is the run RunLength measures. */
  lemma {:induction false} RunLengthIs(s: string, n: nat)
    requires n <= |s| && (forall i :: 0 <= i < n ==> s[i] != '"') && (n < |s| ==> s[n] == '"')
    ensures RunLength(s) == n
    decreases n
  {
    if n > 0 {
      RunLengthIs(s[1..], n - 1);
    }
  }

  /** What preg_split may give back here: a lone quote, or non-empty quote-free text. */
  predicate IsPiece(p: string) {
    p == "\"" || (p != "" && QuoteFree(p))
  }

  /** No two pieces of text are next to each other: each ran as far as it could. */
  predicate Maximal(ps: seq<string>) {
    forall i :: 0 <= i < |ps| - 1 ==> ps[i] == "\"" || ps[i + 1] == "\""
  }

  /**
   * `preg_split('/(")/', $argument, -1, PREG_SPLIT_NO_EMPTY | PREG_SPLIT_DELIM_CAPTURE)`:
   * the text between quotes, with each quote kept as a piece of its own and the
   * empty texts between adjacent quotes dropped.
   */
  function Pieces(s: string): (ps: seq<string>)
    ensures Concat(ps) == s
    ensures forall i :: 0 <= i < |ps| ==> IsPiece(ps[i])
    ensures Maximal(ps)
    ensures s != "" ==> ps != [] && (s[0] == '"' <==> ps[0] == "\"")
    decreases |s|
  {
    if s == [] then []
    else if s[0] == '"' then
      assert s == "\"" + s[1..];
      ["\""] + Pieces(s[1..])
    else
      var n := RunLength(s);
      assert s == s[..n] + s[n..];
      [s[..n]] + Pieces(s[n..])
  }

  /** The three properties of Pieces determine it: the split is the only such one. */
  lemma {:induction false} PiecesUnique(s: string, ps: seq<string>)
    requires Concat(ps) == s
    requires forall i :: 0 <= i < |ps| ==> IsPiece(ps[i])
    requires Maximal(ps)
    ensures ps == Pieces(s)
    decreases |ps|
  {
    if ps != [] {
      var rest := ps[1..];
      assert forall i :: 0 <= i < |rest| ==> IsPiece(rest[i]) by {
        forall i | 0 <= i < |rest| ensures IsPiece(rest[i]) {
          assert rest[i] == ps[i + 1];
        }
      }
      assert Maximal(rest) by {
        forall i | 0 <= i < |rest| - 1 ensures rest[i] == "\"" || rest[i + 1] == "\"" {
          assert rest[i] == ps[i + 1] && rest[i + 1] == ps[i + 2];
        }
      }
      var p := ps[0];
      assert s == p + Concat(rest);
      if p == "\"" {
        assert s[0] == '"' && s[1..] == Concat(rest);
        PiecesUnique(s[1..], rest);
      } else {
        var n := |p|;
        assert s[..n] == p && s[n..] == Concat(rest);
        assert forall i :: 0 <= i < n ==> s[i] != '"' by {
          forall i | 0 <= i < n ensures s[i] != '"' {
            assert s[i] == p[i];
          }
        }
        if n < |s| {
          assert rest != [] && rest[0] == "\"";
          assert Concat(rest) == "\"" + Concat(rest[1..]);
          assert s[n] == Concat(rest)[0];
        }
        RunLengthIs(s, n);
        PiecesUnique(s[n..], rest);
      }
    }
  }

  /** Two splits joined where one of them has a quote stay a split. */
  lemma JoinPieces(ps: seq<string>, qs: seq<string>)
    requires forall i :: 0 <= i < |ps| ==> IsPiece(ps[i])
    requires forall i :: 0 <= i < |qs| ==> IsPiece(qs[i])
    requires Maximal(ps) && Maximal(qs)
    requires ps == [] || qs == [] || ps[|ps| - 1] == "\"" || qs[0] == "\""
    ensures forall i :: 0 <= i < |ps + qs| ==> IsPiece((ps + qs)[i])
    ensures Maximal(ps + qs)
  {
    var rs := ps + qs;
    forall i | 0 <= i < |rs| ensures IsPiece(rs[i]) {
      if i < |ps| { assert rs[i] == ps[i]; } else { assert rs[i] == qs[i - |ps|]; }
    }
    forall i | 0 <= i < |rs| - 1 ensures rs[i] == "\"" || rs[i + 1] == "\"" {
      if i + 1 < |ps| {
        assert rs[i] == ps[i] && rs[i + 1] == ps[i + 1];
      } else if i >= |ps| {
        assert rs[i] == qs[i - |ps|] && rs[i + 1] == qs[i + 1 - |ps|];
      } else {
        assert rs[i] == ps[|ps| - 1] && rs[i + 1] == qs[0];
      }
    }
  }

  /** A quote is a cut of its own: the split of `a"b` is the split of `a`, the quote, the split of `b`. */
  lemma PiecesAroundQuote(a: string, b: string)
    ensures Pieces(a + "\"" + b) == Pieces(a) + ["\""] + Pieces(b)
  {
    var pa, pb := Pieces(a), Pieces(b);
    var q: seq<string> := ["\""];
    assert Concat(q) == "\"";
    JoinPieces(pa, q);
    JoinPieces(pa + q, pb);
    ConcatAppend(pa, q);
    ConcatAppend(pa + q, pb);
    PiecesUnique(a + "\"" + b, pa + q + pb);
  }

  /** isSurroundedBy: longer than two characters, with `c` first and last. */
  predicate IsSurroundedBy(arg: string, c: char) {
    2 < |arg| && arg[0] == c && arg[|arg| - 1] == c
  }

  /** A piece that is neither a quote nor a `%...%` variable: it makes the result quoted. */
  predicate Ordinary(part: string) {
    part != "\"" && !IsSurroundedBy(part, '%')
  }

  /** What one piece contributes to the escaped argument. */
  function Rewrite(part: string): (r: string)
    ensures part != "" ==> r != ""
    ensures Ordinary(part) && part != "" ==> r[0] == part[0]
    ensures !Ordinary(part) ==> r[0] == '\\' || r[0] == '^'
  {
    if part == "\"" then "\\\""
    else if IsSurroundedBy(part, '%') then "^%\"" + part[1..|part| - 1] + "\"^%"
    else if part != "" && part[|part| - 1] == '\\' then part + "\\"
    else part
  }

  /** The rewritten pieces, in order. */
  function Body(ps: seq<string>): string {
    if ps == [] then "" else Rewrite(ps[0]) + Body(ps[1..])
  }

  /** Whether some piece is ordinary: the `$quote` flag after the loop. */
  predicate AnyOrdinary(ps: seq<string>) {
    exists i :: 0 <= i < |ps| && Ordinary(ps[i])
  }

  /** The Windows branch for a non-empty argument. */
  function EscapeWindows(arg: string): (r: string)
    ensures arg != "" ==> r != ""
  {
    var ps := Pieces(arg);
    var body := Body(ps);
    if AnyOrdinary(ps) then "\"" + body + "\"" else body
  }

  /**
   * escapeArgument: on Windows a non-empty argument is escaped as above; the empty
   * argument, and every argument elsewhere, goes to escapeshellarg, passed in here.
   */
  function EscapedArgument(arg: string, windows: bool, escapeShellArg: string -> string): string {
    if windows && arg != "" then EscapeWindows(arg) else escapeShellArg(arg)
  }

  method EscapeArgument(argument: string, windows: bool, escapeShellArg: string -> string) returns (escaped: string)
    ensures escaped == EscapedArgument(argument, windows, escapeShellArg)
  {
    if !windows || argument == "" {
      return escapeShellArg(argument);
    }
    var parts := Pieces(argument);
    escaped := "";
    var quote := false;
    for i := 0 to |parts|
      invariant escaped == Body(parts[..i])
      invariant quote <==> AnyOrdinary(parts[..i])
    {
      var part := parts[i];
      assert IsPiece(part);
      ghost var before := escaped;
      if part == "\"" {
        escaped := escaped + "\\\"";
      } else if IsSurroundedBy(part, '%') {
        escaped := escaped + ("^%\"" + part[1..|part| - 1] + "\"^%");
      } else {
        if part[|part| - 1] == '\\' {
          part := part + "\\";
        }
        quote := true;
        escaped := escaped + part;
      }
      assert escaped == before + Rewrite(parts[i]);
      PrefixStep(parts, i);
    }
    assert parts[..|parts|] == parts;
    if quote {
      escaped := "\"" + escaped + "\"";
    }
  }

  /** One more piece through the loop. */
  lemma PrefixStep(ps: seq<string>, i: nat)
    requires i < |ps|
    ensures Body(ps[..i + 1]) == Body(ps[..i]) + Rewrite(ps[i])
    ensures AnyOrdinary(ps[..i + 1]) <==> AnyOrdinary(ps[..i]) || Ordinary(ps[i])
  {
    assert ps[..i + 1] == ps[..i] + [ps[i]];
    BodyAppend(ps[..i], [ps[i]]);
    assert Body([ps[i]]) == Rewrite(ps[i]);
    AnyOrdinaryStep(ps[..i], ps[i]);
  }

  lemma AnyOrdinaryStep(ps: seq<string>, p: string)
    ensures AnyOrdinary(ps + [p]) <==> AnyOrdinary(ps) || Ordinary(p)
  {
    var qs := ps + [p];
    if AnyOrdinary(qs) {
      var i :| 0 <= i < |qs| && Ordinary(qs[i]);
      if i < |ps| { assert qs[i] == ps[i]; }
    }
    if AnyOrdinary(ps) {
      var i :| 0 <= i < |ps| && Ordinary(ps[i]);
      assert qs[i] == ps[i];
    }
    if Ordinary(p) {
      assert qs[|ps|] == p;
    }
  }

  // ---------------------------------------------------------------------------
  // What the escaping does to arguments
  // ---------------------------------------------------------------------------

  lemma {:induction false} BodyAppend(ps: seq<string>, qs: seq<string>)
    ensures Body(ps + qs) == Body(ps) + Body(qs)
    decreases |ps|
  {
    if ps == [] {
      assert ps + qs == qs;
    } else {
      assert (ps + qs)[1..] == ps[1..] + qs;
      BodyAppend(ps[1..], qs);
    }
  }

  lemma AnyOrdinaryAppend(ps: seq<string>, qs: seq<string>)
    ensures AnyOrdinary(ps + qs) <==> AnyOrdinary(ps) || AnyOrdinary(qs)
  {
    var rs := ps + qs;
    if AnyOrdinary(rs) {
      var i :| 0 <= i < |rs| && Ordinary(rs[i]);
      if i < |ps| { assert rs[i] == ps[i]; } else { assert rs[i] == qs[i - |ps|]; }
    }
    if AnyOrdinary(ps) {
      var i :| 0 <= i < |ps| && Ordinary(ps[i]);
      assert rs[i] == ps[i];
    }
    if AnyOrdinary(qs) {
      var i :| 0 <= i < |qs| && Ordinary(qs[i]);
      assert rs[|ps| + i] == qs[i];
    }
  }

  /**
   * Every quote of the argument becomes `\"` where it stands, and the texts on either
   * side are escaped on their own; the whole is quoted when either side asks for it.
   */
  lemma QuoteEscaped(a: string, b: string)
    ensures Body(Pieces(a + "\"" + b)) == Body(Pieces(a)) + "\\\"" + Body(Pieces(b))
    ensures AnyOrdinary(Pieces(a + "\"" + b)) <==> AnyOrdinary(Pieces(a)) || AnyOrdinary(Pieces(b))
  {
    PiecesAroundQuote(a, b);
    var pa, pb := Pieces(a), Pieces(b);
    BodyAppend(pa + ["\""], pb);
    BodyAppend(pa, ["\""]);
    assert Body(["\""]) == "\\\"";
    AnyOrdinaryAppend(pa + ["\""], pb);
    AnyOrdinaryAppend(pa, ["\""]);
    assert !AnyOrdinary(["\""]) by {
      assert forall i :: 0 <= i < |["\""]| ==> !Ordinary(["\""][i]);
    }
  }

  /** A quote-free `%name%` is guarded as `^%"name"^%` and left unquoted. */
  lemma VariableGuarded(name: string)
    requires name != "" && QuoteFree(name)
    ensures EscapeWindows("%" + name + "%") == "^%\"" + name + "\"^%"
  {
    var s := "%" + name + "%";
    assert QuoteFree(s) by {
      forall i | 0 <= i < |s| ensures s[i] != '"' {
        if 0 < i < |s| - 1 { assert s[i] == name[i - 1]; }
      }
    }
    SingleRun(s);
    assert s[1..|s| - 1] == name;
    assert IsSurroundedBy(s, '%');
    assert Body([s]) == Rewrite(s);
    assert !AnyOrdinary([s]) by {
      assert forall i :: 0 <= i < |[s]| ==> !Ordinary([s][i]);
    }
  }

  /** Non-empty quote-free text is one piece. */
  lemma SingleRun(s: string)
    requires s != "" && QuoteFree(s)
    ensures Pieces(s) == [s]
  {
    RunLengthIs(s, |s|);
    assert s[..|s|] == s && s[|s|..] == "";
  }

  /**
   * Ordinary quote-free text is quoted as it stands, with a trailing backslash
   * doubled so that it does not escape the closing quote.
   */
  lemma PlainQuoted(x: string)
    requires x != "" && QuoteFree(x) && !IsSurroundedBy(x, '%')
    ensures EscapeWindows(x) == "\"" + x + (if x[|x| - 1] == '\\' then "\\" else "") + "\""
  {
    SingleRun(x);
    assert Body([x]) == Rewrite(x);
    assert Ordinary([x][0]);
  }

  /** `%%` is too short to be a variable: it is ordinary text, quoted. */
  lemma DoublePercentQuoted()
    ensures EscapeWindows("%%") == "\"%%\""
  {
    PlainQuoted("%%");
  }

  /** An argument of quotes only gives `\"` per quote and is not quoted. */
  lemma {:induction false} QuotesOnly(n: nat)
    ensures Body(Pieces(Quotes(n))) == Repeat("\\\"", n)
    ensures !AnyOrdinary(Pieces(Quotes(n)))
    ensures n > 0 ==> EscapeWindows(Quotes(n)) == Repeat("\\\"", n)
  {
    if n == 0 {
      assert Pieces(Quotes(0)) == [];
    } else {
      assert Quotes(n) == "" + "\"" + Quotes(n - 1);
      QuoteEscaped("", Quotes(n - 1));
      QuotesOnly(n - 1);
      assert Pieces("") == [];
      assert !AnyOrdinary(Pieces(""));
    }
  }

  function Quotes(n: nat): (s: string)
    ensures |s| == n
  {
    if n == 0 then "" else "\"" + Quotes(n - 1)
  }

  function Repeat(t: string, n: nat): string {
    if n == 0 then "" else t + Repeat(t, n - 1)
  }

  /** The escaped body never starts with a quote of its own. */
  lemma {:induction false} BodyStart(ps: seq<string>)
    requires ps != [] && forall i :: 0 <= i < |ps| ==> IsPiece(ps[i])
    ensures Body(ps) != "" && Body(ps)[0] != '"'
  {
    assert Body(ps) == Rewrite(ps[0]) + Body(ps[1..]);
    assert IsPiece(ps[0]);
  }

  /**
   * The escaped argument starts with a quote exactly when some piece is ordinary;
   * then it also ends with one.
   */
  lemma WrappedIff(arg: string)
    requires arg != ""
    ensures EscapeWindows(arg)[0] == '"' <==> AnyOrdinary(Pieces(arg))
    ensures AnyOrdinary(Pieces(arg)) ==> EscapeWindows(arg)[|EscapeWindows(arg)| - 1] == '"'
  {
    BodyStart(Pieces(arg));
  }

  /**
   * Without a `%` in it, an argument is quoted exactly when it has a character that is
   * not a quote.
   */
  lemma {:induction false} QuotedWithoutPercent(s: string)
    requires forall i :: 0 <= i < |s| ==> s[i] != '%'
    ensures AnyOrdinary(Pieces(s)) <==> exists i :: 0 <= i < |s| && s[i] != '"'
    decreases |s|
  {
    if s != [] {
      var ps := Pieces(s);
      if s[0] == '"' {
        var t := s[1..];
        assert ps == ["\""] + Pieces(t);
        assert forall i :: 0 <= i < |t| ==> t[i] != '%' by {
          forall i | 0 <= i < |t| ensures t[i] != '%' { assert t[i] == s[i + 1]; }
        }
        QuotedWithoutPercent(t);
        AnyOrdinaryAppend(["\""], Pieces(t));
        assert !AnyOrdinary(["\""]) by {
          assert forall i :: 0 <= i < |["\""]| ==> !Ordinary(["\""][i]);
        }
        if exists i :: 0 <= i < |s| && s[i] != '"' {
          var i :| 0 <= i < |s| && s[i] != '"';
          assert t[i - 1] == s[i];
        }
        if exists i :: 0 <= i < |t| && t[i] != '"' {
          var i :| 0 <= i < |t| && t[i] != '"';
          assert s[i + 1] == t[i];
        }
      } else {
        assert !IsSurroundedBy(ps[0], '%') by {
          assert ps[0] == s[..RunLength(s)] && ps[0][0] == s[0];
        }
        assert Ordinary(ps[0]);
      }
    }
  }
}
