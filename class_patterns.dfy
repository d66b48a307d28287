/**
 * The ant-style class-name patterns of ClassMatcher.addPattern and the
 * part of java.util.regex they compile to: a pattern is read as a sequence
 * of pieces, the regex `^pieces$` is searched for with the MULTILINE flag,
 * and Matcher.find() is repeated over the class list.
 */
module ClassPatterns {
  import opened Wrappers
  import opened JavaStrings

  /** One element of the compiled regex between its `^` and `$` anchors. */
  datatype Piece =
    | Literal(c: char)   // an ordinary pattern character
    | AnyChar            // a pattern '.': any character but a line terminator
    | EndOfLine          // a pattern '$': the MULTILINE end-of-line anchor
    | Shallow            // a single '*': [\w\$]+
    | Deep               // '**': [\w.\$]+

  /** What `**` is replaced by. */
  const DeepClass: string := "[\\w.\\$]+"
  /** What a remaining `*` is replaced by. */
  const ShallowClass: string := "[\\w\\$]+"

  /** Characters java.util.regex reads as syntax outside a character class. */
  predicate IsRegexSyntax(c: char)
  {
    c in "\\^$.|?*+()[]{}"
  }

  /**
   * A trimmed pattern inside the wildcard subset: besides '.', '*' and '$'
   * it holds no regex syntax, and no line terminator.
   */
  predicate InSubset(p: string)
  {
    forall i :: 0 <= i < |p| ==> (!IsRegexSyntax(p[i]) || p[i] in ".*$") && !IsLineTerminator(p[i])
  }

  /** How the regex compiler reads the translated pattern, piece by piece. */
  function Tokens(p: string): (ps: seq<Piece>)
    ensures |ps| <= |p|
    decreases |p|
  {
    if |p| == 0 then []
    else if p[0] == '*' && |p| > 1 && p[1] == '*' then [Deep] + Tokens(p[2..])
    else if p[0] == '*' then [Shallow] + Tokens(p[1..])
    else if p[0] == '.' then [AnyChar] + Tokens(p[1..])
    else if p[0] == '$' then [EndOfLine] + Tokens(p[1..])
    else [Literal(p[0])] + Tokens(p[1..])
  }

  function RenderPiece(x: Piece): string
  {
    match x
    case Literal(c) => [c]
    case AnyChar => "."
    case EndOfLine => "$"
    case Shallow => ShallowClass
    case Deep => DeepClass
  }

  /** The regex text of a sequence of pieces. */
  function Render(ps: seq<Piece>): string
  {
    if |ps| == 0 then "" else RenderPiece(ps[0]) + Render(ps[1..])
  }

  /** The regex addPattern compiles for a class-name pattern. */
  function RegexText(pattern: string): string
  {
    "^" + Replace(Replace(Trim(pattern), "**", DeepClass), "*", ShallowClass) + "$"
  }

  /**
   * The two replace calls turn the trimmed pattern into exactly the regex
   * text of its pieces, so the compiled regex is `^`, the pieces, `$`.
   */
  lemma RegexTextReadsAsTokens(pattern: string)
    ensures RegexText(pattern) == "^" + Render(Tokens(Trim(pattern))) + "$"
  {
    ReplacedIsRendered(Trim(pattern));
  }

  lemma {:induction false} ReplacedIsRendered(s: string)
    ensures Replace(Replace(s, "**", DeepClass), "*", ShallowClass) == Render(Tokens(s))
    decreases |s|
  {
    if |s| == 0 {
    } else if s[0] == '*' && |s| > 1 && s[1] == '*' {
      ReplacedDeepStep(s);
      ReplacedIsRendered(s[2..]);
    } else if s[0] == '*' {
      ReplacedShallowStep(s);
      ReplacedIsRendered(s[1..]);
    } else {
      ReplacedCharStep(s);
      ReplacedIsRendered(s[1..]);
    }
  }

  /** A leading "**" becomes the deep class, and the second replace leaves that class alone. */
  lemma ReplacedDeepStep(s: string)
    requires |s| > 1 && s[0] == '*' && s[1] == '*'
    ensures Replace(Replace(s, "**", DeepClass), "*", ShallowClass) == DeepClass + Replace(Replace(s[2..], "**", DeepClass), "*", ShallowClass)
    ensures Render(Tokens(s)) == DeepClass + Render(Tokens(s[2..]))
  {
    FirstReplaceTakesPair(s);
    ClassesHaveNoStar();
    ReplaceCharKeepsPrefix(DeepClass, Replace(s[2..], "**", DeepClass), '*', ShallowClass);
    assert Tokens(s) == [Deep] + Tokens(s[2..]);
    RenderStep(Tokens(s), Deep, Tokens(s[2..]));
  }

  /** A leading "**" becomes the deep class in the first replace. */
  lemma FirstReplaceTakesPair(s: string)
    requires |s| > 1 && s[0] == '*' && s[1] == '*'
    ensures Replace(s, "**", DeepClass) == DeepClass + Replace(s[2..], "**", DeepClass)
  {
    assert OccursAt(s, "**", 0) by { assert s[0..2] == "**"; }
    ReplaceHit(s, "**", DeepClass);
  }

  /** Neither character class holds a '*', so the second replace passes them by. */
  lemma ClassesHaveNoStar()
    ensures '*' !in DeepClass && '*' !in ShallowClass
  {
  }

  /** A lone leading '*' survives the first replace and becomes the shallow class in the second. */
  lemma ReplacedShallowStep(s: string)
    requires |s| > 0 && s[0] == '*' && !(|s| > 1 && s[1] == '*')
    ensures Replace(Replace(s, "**", DeepClass), "*", ShallowClass) == ShallowClass + Replace(Replace(s[1..], "**", DeepClass), "*", ShallowClass)
    ensures Render(Tokens(s)) == ShallowClass + Render(Tokens(s[1..]))
  {
    assert !OccursAt(s, "**", 0) by {
      if |s| >= 2 {
        assert s[0..2][1] == s[1];
      }
    }
    ReplaceSkip(s, "**", DeepClass);
    var y := [s[0]] + Replace(s[1..], "**", DeepClass);
    assert OccursAt(y, "*", 0) by { assert y[0..1] == "*"; }
    ReplaceHit(y, "*", ShallowClass);
    assert y[1..] == Replace(s[1..], "**", DeepClass);
    RenderStep(Tokens(s), Shallow, Tokens(s[1..]));
  }

  /** Any other leading character passes both replaces unchanged. */
  lemma ReplacedCharStep(s: string)
    requires |s| > 0 && s[0] != '*'
    ensures Replace(Replace(s, "**", DeepClass), "*", ShallowClass) == [s[0]] + Replace(Replace(s[1..], "**", DeepClass), "*", ShallowClass)
    ensures Render(Tokens(s)) == [s[0]] + Render(Tokens(s[1..]))
  {
    FirstReplaceKeepsChar(s);
    ReplaceCharKeepsPrefix([s[0]], Replace(s[1..], "**", DeepClass), '*', ShallowClass);
    var x := if s[0] == '.' then AnyChar else if s[0] == '$' then EndOfLine else Literal(s[0]);
    assert Tokens(s) == [x] + Tokens(s[1..]);
    assert RenderPiece(x) == [s[0]];
    RenderStep(Tokens(s), x, Tokens(s[1..]));
  }

  /** A leading character other than '*' passes the "**" replace unchanged. */
  lemma FirstReplaceKeepsChar(s: string)
    requires |s| > 0 && s[0] != '*'
    ensures Replace(s, "**", DeepClass) == [s[0]] + Replace(s[1..], "**", DeepClass)
  {
    assert !OccursAt(s, "**", 0) by {
      if |s| >= 2 {
        assert s[0..2][0] == s[0];
      }
    }
    ReplaceSkip(s, "**", DeepClass);
  }

  /** The text of pieces that start with x. */
  lemma RenderStep(ps: seq<Piece>, x: Piece, rest: seq<Piece>)
    requires ps == [x] + rest
    ensures Render(ps) == RenderPiece(x) + Render(rest)
  {
    assert ps[1..] == rest;
  }

  // ---------------------------------------------------------------------
  // Matching, with the anchors read as the MULTILINE flag reads them

  /** `^` at index i: not at the end of input; at the start or after a line terminator (not inside \r\n). */
  predicate Caret(t: string, i: nat)
  {
    i < |t| && (i == 0 || (IsLineTerminator(t[i - 1]) && !(t[i - 1] == '\r' && t[i] == '\n')))
  }

  /** `$` at index i: at the end of input or before a line terminator (not inside \r\n). */
  predicate AtLineEnd(t: string, i: nat)
  {
    i == |t|
    || (i < |t| && t[i] == '\n' && !(i > 0 && t[i - 1] == '\r'))
    || (i < |t| && IsLineTerminator(t[i]) && t[i] != '\n')
  }

  /** The index of the first line terminator at or after i, or |t|. */
  function LineEnd(t: string, i: nat): (e: nat)
    requires i <= |t|
    ensures i <= e <= |t|
    ensures forall k :: i <= k < e ==> !IsLineTerminator(t[k])
    ensures e < |t| ==> IsLineTerminator(t[e])
    decreases |t| - i
  {
    if i == |t| || IsLineTerminator(t[i]) then i else LineEnd(t, i + 1)
  }

  predicate InClass(deep: bool, c: char)
  {
    IsWordChar(c) || c == '$' || (deep && c == '.')
  }

  /** The pieces match t[i..j] exactly, the anchors looking at the whole of t. */
  predicate MatchAt(t: string, ps: seq<Piece>, i: nat, j: nat)
    requires i <= j <= |t|
    decreases |ps|, j - i, 1
  {
    if |ps| == 0 then i == j
    else match ps[0]
      case Literal(c) => i < j && t[i] == c && MatchAt(t, ps[1..], i + 1, j)
      case AnyChar => i < j && !IsLineTerminator(t[i]) && MatchAt(t, ps[1..], i + 1, j)
      case EndOfLine => AtLineEnd(t, i) && MatchAt(t, ps[1..], i, j)
      case Shallow => RunThen(t, false, ps[1..], i, j)
      case Deep => RunThen(t, true, ps[1..], i, j)
  }

  /** One or more characters of the class from i on, then `rest` up to j (any split, as backtracking tries them all). */
  predicate RunThen(t: string, deep: bool, rest: seq<Piece>, i: nat, j: nat)
    requires i <= j <= |t|
    decreases |rest| + 1, j - i, 0
  {
    i < j && InClass(deep, t[i]) && (MatchAt(t, rest, i + 1, j) || RunThen(t, deep, rest, i + 1, j))
  }

  /** No literal piece is a line terminator. */
  predicate SingleLinePieces(ps: seq<Piece>)
  {
    forall k :: 0 <= k < |ps| && ps[k].Literal? ==> !IsLineTerminator(ps[k].c)
  }

  /** Every literal piece is an ordinary character on one line. */
  predicate PlainLiterals(ps: seq<Piece>)
  {
    forall k :: 0 <= k < |ps| && ps[k].Literal? ==> !IsRegexSyntax(ps[k].c) && !IsLineTerminator(ps[k].c)
  }

  lemma {:induction false} TokensPlain(p: string)
    requires InSubset(p)
    ensures PlainLiterals(Tokens(p)) && SingleLinePieces(Tokens(p))
    decreases |p|
  {
    if |p| > 0 {
      var rest := if p[0] == '*' && |p| > 1 && p[1] == '*' then p[2..] else p[1..];
      assert InSubset(rest) by {
        forall i | 0 <= i < |rest| ensures (!IsRegexSyntax(rest[i]) || rest[i] in ".*$") && !IsLineTerminator(rest[i]) {
          assert rest[i] == p[i + |p| - |rest|];
        }
      }
      TokensPlain(rest);
      assert Tokens(p) == [Tokens(p)[0]] + Tokens(rest);
    }
  }

  // ---------------------------------------------------------------------
  // Pattern.compile, for the regexes addPattern builds

  function Prepend(x: Piece, rest: Option<seq<Piece>>): Option<seq<Piece>>
  {
    match rest
    case None => None
    case Some(ps) => Some([x] + ps)
  }

  /** The pieces of a regex body; None for text outside the subset (regex syntax the pieces do not cover). */
  function ParsePieces(s: string): Option<seq<Piece>>
    decreases |s|
  {
    if |s| == 0 then Some([])
    else if |ShallowClass| <= |s| && s[..|ShallowClass|] == ShallowClass then Prepend(Shallow, ParsePieces(s[|ShallowClass|..]))
    else if |DeepClass| <= |s| && s[..|DeepClass|] == DeepClass then Prepend(Deep, ParsePieces(s[|DeepClass|..]))
    else if s[0] == '.' then Prepend(AnyChar, ParsePieces(s[1..]))
    else if s[0] == '$' then Prepend(EndOfLine, ParsePieces(s[1..]))
    else if IsRegexSyntax(s[0]) then None
    else Prepend(Literal(s[0]), ParsePieces(s[1..]))
  }

  /** Pattern.compile of `^body$`: the pieces of the body between the anchors. */
  function Compile(regex: string): Option<seq<Piece>>
  {
    if 2 <= |regex| && regex[0] == '^' && regex[|regex| - 1] == '$' then ParsePieces(regex[1..|regex| - 1])
    else None
  }

  /** Reading back the regex text of pieces gives the pieces again. */
  lemma {:induction false} ParseRendered(ps: seq<Piece>)
    requires PlainLiterals(ps)
    ensures ParsePieces(Render(ps)) == Some(ps)
    decreases |ps|
  {
    if |ps| > 0 {
      PlainLiteralsTail(ps);
      ParsePieceStep(ps[0], Render(ps[1..]));
      ParseRendered(ps[1..]);
      assert ps == [ps[0]] + ps[1..];
    }
  }

  lemma PlainLiteralsTail(ps: seq<Piece>)
    requires PlainLiterals(ps) && |ps| > 0
    ensures PlainLiterals(ps[1..])
    ensures ps[0].Literal? ==> !IsRegexSyntax(ps[0].c) && !IsLineTerminator(ps[0].c)
  {
    forall k | 0 <= k < |ps| - 1 && ps[1..][k].Literal?
      ensures !IsRegexSyntax(ps[1..][k].c) && !IsLineTerminator(ps[1..][k].c)
    {
      assert ps[1..][k] == ps[k + 1];
    }
  }

  /** The regex text of one piece, read back in front of any text, gives that piece first. */
  lemma ParsePieceStep(x: Piece, tail: string)
    requires x.Literal? ==> !IsRegexSyntax(x.c) && !IsLineTerminator(x.c)
    ensures ParsePieces(RenderPiece(x) + tail) == Prepend(x, ParsePieces(tail))
  {
    var head := RenderPiece(x);
    var s := head + tail;
    assert s[|head|..] == tail;
    assert s[0] == head[0];
    match x
    case Shallow =>
      assert s[..|ShallowClass|] == ShallowClass;
    case Deep =>
      assert s[..|DeepClass|] == DeepClass;
      assert s[..|ShallowClass|][3] != ShallowClass[3];
    case AnyChar =>
      assert |ShallowClass| <= |s| ==> s[..|ShallowClass|][0] != ShallowClass[0];
      assert |DeepClass| <= |s| ==> s[..|DeepClass|][0] != DeepClass[0];
    case EndOfLine =>
      assert |ShallowClass| <= |s| ==> s[..|ShallowClass|][0] != ShallowClass[0];
      assert |DeepClass| <= |s| ==> s[..|DeepClass|][0] != DeepClass[0];
    case Literal(c) =>
      assert !IsRegexSyntax(c) && c != '.' && c != '$';
      assert s[1..] == tail;
      assert |ShallowClass| <= |s| ==> s[..|ShallowClass|][0] != ShallowClass[0];
      assert |DeepClass| <= |s| ==> s[..|DeepClass|][0] != DeepClass[0];
  }

  /** The regex addPattern builds compiles to the pattern's pieces. */
  lemma CompileRegexText(pattern: string)
    requires InSubset(Trim(pattern))
    ensures Compile(RegexText(pattern)) == Some(Tokens(Trim(pattern)))
  {
    var ps := Tokens(Trim(pattern));
    RegexTextReadsAsTokens(pattern);
    TokensPlain(Trim(pattern));
    ParseRendered(ps);
    var r := RegexText(pattern);
    assert r[1..|r| - 1] == Render(ps);
  }

  lemma TailSingleLine(ps: seq<Piece>)
    requires |ps| > 0 && SingleLinePieces(ps)
    ensures SingleLinePieces(ps[1..])
  {
    forall k | 0 <= k < |ps| - 1 && ps[1..][k].Literal? ensures !IsLineTerminator(ps[1..][k].c) {
      assert ps[1..][k] == ps[k + 1];
    }
  }

  /** A match never runs over a line terminator. */
  lemma {:induction false} MatchStaysOnLine(t: string, ps: seq<Piece>, i: nat, j: nat)
    requires i <= j <= |t| && SingleLinePieces(ps) && MatchAt(t, ps, i, j)
    ensures forall k :: i <= k < j ==> !IsLineTerminator(t[k])
    decreases |ps|, j - i, 1
  {
    if |ps| > 0 {
      TailSingleLine(ps);
      match ps[0]
      case Literal(c) => MatchStaysOnLine(t, ps[1..], i + 1, j);
      case AnyChar => MatchStaysOnLine(t, ps[1..], i + 1, j);
      case EndOfLine => MatchStaysOnLine(t, ps[1..], i, j);
      case Shallow => RunStaysOnLine(t, false, ps[1..], i, j);
      case Deep => RunStaysOnLine(t, true, ps[1..], i, j);
    }
  }

  lemma {:induction false} RunStaysOnLine(t: string, deep: bool, rest: seq<Piece>, i: nat, j: nat)
    requires i <= j <= |t| && SingleLinePieces(rest) && RunThen(t, deep, rest, i, j)
    ensures forall k :: i <= k < j ==> !IsLineTerminator(t[k])
    decreases |rest| + 1, j - i, 0
  {
    if MatchAt(t, rest, i + 1, j) {
      MatchStaysOnLine(t, rest, i + 1, j);
    } else {
      RunStaysOnLine(t, deep, rest, i + 1, j);
    }
  }

  /**
   * Every match of `^pieces$` is a whole line: it ends at the first line
   * terminator after its start.
   */
  lemma MatchIsWholeLine(t: string, ps: seq<Piece>, p: nat, e: nat)
    requires p <= e <= |t| && SingleLinePieces(ps)
    requires MatchAt(t, ps, p, e) && AtLineEnd(t, e)
    ensures e == LineEnd(t, p)
  {
    MatchStaysOnLine(t, ps, p, e);
    LineEndIsFirst(t, p, e);
  }

  lemma {:induction false} LineEndIsFirst(t: string, p: nat, e: nat)
    requires p <= e <= |t|
    requires forall k :: p <= k < e ==> !IsLineTerminator(t[k])
    requires e == |t| || IsLineTerminator(t[e])
    ensures LineEnd(t, p) == e
    decreases e - p
  {
    if p < e {
      LineEndIsFirst(t, p + 1, e);
    }
  }

  /** A line that starts at a `^` ends where `$` holds. */
  lemma LineEndAnchors(t: string, p: nat)
    requires Caret(t, p)
    ensures AtLineEnd(t, LineEnd(t, p))
  {
    var e := LineEnd(t, p);
    if p < e {
      assert !IsLineTerminator(t[e - 1]);
    }
  }

  // ---------------------------------------------------------------------
  // Matcher.find()

  /**
   * Matcher.find() from index `from`: the first `^` position whose line the
   * pieces match, with the end of that line.
   */
  function Find(t: string, ps: seq<Piece>, from: nat): (r: Option<(nat, nat)>)
    ensures r.Some? ==> from <= r.value.0 < |t| && Caret(t, r.value.0)
                        && r.value.1 == LineEnd(t, r.value.0)
                        && MatchAt(t, ps, r.value.0, r.value.1)
    decreases |t| - from
  {
    if from >= |t| then None
    else if Caret(t, from) && MatchAt(t, ps, from, LineEnd(t, from)) then Some((from, LineEnd(t, from)))
    else Find(t, ps, from + 1)
  }

  /** Find passes over only lines the pieces do not match. */
  lemma {:induction false} FindSkipsOthers(t: string, ps: seq<Piece>, from: nat)
    ensures var r := Find(t, ps, from);
      forall q :: from <= q < (if r.Some? then r.value.0 else |t|) && Caret(t, q)
                  ==> !MatchAt(t, ps, q, LineEnd(t, q))
    decreases |t| - from
  {
    if from < |t| && !(Caret(t, from) && MatchAt(t, ps, from, LineEnd(t, from))) {
      FindSkipsOthers(t, ps, from + 1);
    }
  }

  /**
   * Find is the leftmost match of the regex `^pieces$`: no earlier index
   * starts a match of any length, and none at all when it finds nothing.
   */
  lemma FindIsLeftmostMatch(t: string, ps: seq<Piece>, from: nat)
    requires SingleLinePieces(ps)
    ensures var r := Find(t, ps, from);
      && (r.Some? ==> AtLineEnd(t, r.value.1))
      && forall q, e :: (from <= q <= e <= |t| && (r.None? || q < r.value.0)
                         && Caret(t, q) && MatchAt(t, ps, q, e)) ==> !AtLineEnd(t, e)
  {
    var r := Find(t, ps, from);
    FindSkipsOthers(t, ps, from);
    if r.Some? {
      LineEndAnchors(t, r.value.0);
    }
    forall q, e | from <= q <= e <= |t| && (r.None? || q < r.value.0) && Caret(t, q) && MatchAt(t, ps, q, e)
      ensures !AtLineEnd(t, e)
    {
      if AtLineEnd(t, e) {
        MatchIsWholeLine(t, ps, q, e);
      }
    }
  }

  /** What the `while (matcher.find())` loop visits from `from` on, as matched text. */
  function MatchedLines(t: string, ps: seq<Piece>, from: nat): seq<string>
    decreases |t| + 1 - from
  {
    match Find(t, ps, from)
    case None => []
    case Some((p, e)) => [t[p..e]] + MatchedLines(t, ps, if e == p then e + 1 else e)
  }

  // ---------------------------------------------------------------------
  // Lines and class names

  /** The lines of t that start at index `from` or later, as `^` and `$` delimit them. */
  function LinesFrom(t: string, from: nat): seq<string>
    decreases |t| - from
  {
    if from >= |t| then []
    else (if Caret(t, from) then [t[from..LineEnd(t, from)]] else []) + LinesFrom(t, from + 1)
  }

  /** The pieces match the whole of a class name. */
  predicate NameMatches(ps: seq<Piece>, name: string)
  {
    MatchAt(name, ps, 0, |name|)
  }

  /** The names the pieces match, in order. */
  function Matching(ps: seq<Piece>, names: seq<string>): (r: seq<string>)
    ensures forall n :: n in r <==> n in names && NameMatches(ps, n)
  {
    if |names| == 0 then []
    else (if NameMatches(ps, names[0]) then [names[0]] else []) + Matching(ps, names[1..])
  }

  /** Matching a stretch of t that ends where the anchors of a standalone copy would. */
  lemma {:induction false} MatchLocal(t: string, u: string, o: nat, ps: seq<Piece>, i: nat, j: nat)
    requires o + |u| <= |t| && t[o..o + |u|] == u && i <= j <= |u|
    requires forall k :: 0 <= k <= |u| ==> AtLineEnd(t, o + k) == AtLineEnd(u, k)
    ensures MatchAt(t, ps, o + i, o + j) == MatchAt(u, ps, i, j)
    decreases |ps|, j - i, 1
  {
    if |ps| > 0 {
      if i < j {
        assert t[o + i] == u[i];
      }
      match ps[0]
      case Literal(c) =>
        if i < j { MatchLocal(t, u, o, ps[1..], i + 1, j); }
      case AnyChar =>
        if i < j { MatchLocal(t, u, o, ps[1..], i + 1, j); }
      case EndOfLine => MatchLocal(t, u, o, ps[1..], i, j);
      case Shallow => RunLocal(t, u, o, false, ps[1..], i, j);
      case Deep => RunLocal(t, u, o, true, ps[1..], i, j);
    }
  }

  lemma {:induction false} RunLocal(t: string, u: string, o: nat, deep: bool, rest: seq<Piece>, i: nat, j: nat)
    requires o + |u| <= |t| && t[o..o + |u|] == u && i <= j <= |u|
    requires forall k :: 0 <= k <= |u| ==> AtLineEnd(t, o + k) == AtLineEnd(u, k)
    ensures RunThen(t, deep, rest, o + i, o + j) == RunThen(u, deep, rest, i, j)
    decreases |rest| + 1, j - i, 0
  {
    if i < j {
      assert t[o + i] == u[i];
      MatchLocal(t, u, o, rest, i + 1, j);
      RunLocal(t, u, o, deep, rest, i + 1, j);
    }
  }

  /** Whether a line of t matches depends on that line's text alone. */
  lemma LineMatchesAsName(t: string, ps: seq<Piece>, p: nat)
    requires Caret(t, p)
    ensures MatchAt(t, ps, p, LineEnd(t, p)) == NameMatches(ps, t[p..LineEnd(t, p)])
  {
    var e := LineEnd(t, p);
    var u := t[p..e];
    LineEndAnchors(t, p);
    forall k | 0 <= k <= |u| ensures AtLineEnd(t, p + k) == AtLineEnd(u, k) {
      if k < |u| {
        assert u[k] == t[p + k];
      }
    }
    MatchLocal(t, u, p, ps, 0, |u|);
  }

  /** No line between a and b matches. */
  lemma {:induction false} MatchingSkip(t: string, ps: seq<Piece>, a: nat, b: nat)
    requires a <= b <= |t|
    requires forall q :: a <= q < b && Caret(t, q) ==> !MatchAt(t, ps, q, LineEnd(t, q))
    ensures Matching(ps, LinesFrom(t, a)) == Matching(ps, LinesFrom(t, b))
    decreases b - a
  {
    if a < b {
      MatchingSkip(t, ps, a + 1, b);
      if Caret(t, a) {
        LineMatchesAsName(t, ps, a);
        var line := t[a..LineEnd(t, a)];
        assert LinesFrom(t, a) == [line] + LinesFrom(t, a + 1);
        assert Matching(ps, LinesFrom(t, a)) == Matching(ps, LinesFrom(t, a + 1)) by {
          assert ([line] + LinesFrom(t, a + 1))[1..] == LinesFrom(t, a + 1);
        }
      } else {
        assert LinesFrom(t, a) == LinesFrom(t, a + 1);
      }
    }
  }

  /** No `^` falls strictly inside a line. */
  lemma NoCaretInsideLine(t: string, p: nat, q: nat)
    requires p <= |t| && p < q <= LineEnd(t, p)
    ensures !Caret(t, q)
  {
    assert !IsLineTerminator(t[q - 1]);
  }

  /** One find() step: the lines before the match do not match, the matched one does. */
  lemma MatchedStep(t: string, ps: seq<Piece>, from: nat, p: nat, e: nat)
    requires Find(t, ps, from) == Some((p, e))
    ensures var next := if e == p then e + 1 else e;
      next <= |t| && Matching(ps, LinesFrom(t, from)) == [t[p..e]] + Matching(ps, LinesFrom(t, next))
  {
    FindSkipsOthers(t, ps, from);
    MatchedLineStep(t, ps, from, p);
  }

  /** The same step, for a matching line at p with no matching line from `from` up to it. */
  lemma MatchedLineStep(t: string, ps: seq<Piece>, from: nat, p: nat)
    requires from <= p && Caret(t, p) && MatchAt(t, ps, p, LineEnd(t, p))
    requires forall q :: from <= q < p && Caret(t, q) ==> !MatchAt(t, ps, q, LineEnd(t, q))
    ensures var e := LineEnd(t, p);
      var next := if e == p then e + 1 else e;
      next <= |t| && Matching(ps, LinesFrom(t, from)) == [t[p..e]] + Matching(ps, LinesFrom(t, next))
  {
    MatchingSkip(t, ps, from, p);
    MatchingAtCaret(t, ps, p);
    MatchingRestOfLine(t, ps, p);
  }

  /** Past the start of a line, nothing matches before the next line starts. */
  lemma MatchingRestOfLine(t: string, ps: seq<Piece>, p: nat)
    requires Caret(t, p)
    ensures var e := LineEnd(t, p);
      var next := if e == p then e + 1 else e;
      next <= |t| && Matching(ps, LinesFrom(t, p + 1)) == Matching(ps, LinesFrom(t, next))
  {
    var e := LineEnd(t, p);
    var next := if e == p then e + 1 else e;
    forall q | p + 1 <= q < next ensures !Caret(t, q) {
      NoCaretInsideLine(t, p, q);
    }
    MatchingSkip(t, ps, p + 1, next);
  }

  /** A line that starts at p and matches heads the matching lines from p. */
  lemma MatchingAtCaret(t: string, ps: seq<Piece>, p: nat)
    requires Caret(t, p) && MatchAt(t, ps, p, LineEnd(t, p))
    ensures Matching(ps, LinesFrom(t, p)) == [t[p..LineEnd(t, p)]] + Matching(ps, LinesFrom(t, p + 1))
  {
    LineMatchesAsName(t, ps, p);
    var line := t[p..LineEnd(t, p)];
    assert LinesFrom(t, p) == [line] + LinesFrom(t, p + 1);
    assert ([line] + LinesFrom(t, p + 1))[1..] == LinesFrom(t, p + 1);
  }

  /**
   * The find loop visits exactly the lines of the class list that the
   * pieces match, in order.
   */
  lemma {:induction false} MatchedLinesAreMatchingLines(t: string, ps: seq<Piece>, from: nat)
    ensures MatchedLines(t, ps, from) == Matching(ps, LinesFrom(t, from))
    decreases |t| + 1 - from
  {
    FindSkipsOthers(t, ps, from);
    match Find(t, ps, from)
    case None =>
      if from < |t| {
        MatchingSkip(t, ps, from, |t|);
      }
    case Some((p, e)) =>
      MatchedStep(t, ps, from, p, e);
      MatchedLinesAreMatchingLines(t, ps, if e == p then e + 1 else e);
  }

  // ---------------------------------------------------------------------
  // What the wildcards mean for a class name

  /** A run of class characters followed by nothing: exactly a non-empty string of them. */
  lemma {:induction false} RunAlone(t: string, deep: bool, i: nat, j: nat)
    requires i <= j <= |t|
    ensures RunThen(t, deep, [], i, j) <==> i < j && forall k :: i <= k < j ==> InClass(deep, t[k])
    decreases j - i
  {
    if i < j {
      RunAlone(t, deep, i + 1, j);
    }
  }

  /**
   * A single `*` matches a non-empty name made of word characters and `$`,
   * so never one that contains a `.`; `**` also lets the name contain `.`.
   */
  lemma WildcardNames(name: string)
    ensures NameMatches(Tokens("*"), name) <==> |name| > 0 && forall k :: 0 <= k < |name| ==> InClass(false, name[k])
    ensures NameMatches(Tokens("**"), name) <==> |name| > 0 && forall k :: 0 <= k < |name| ==> InClass(true, name[k])
    ensures NameMatches(Tokens("*"), name) ==> '.' !in name
  {
    assert Tokens("*") == [Shallow];
    assert "**"[2..] == [];
    assert Tokens("**") == [Deep];
    RunAlone(name, false, 0, |name|);
    RunAlone(name, true, 0, |name|);
  }

  /**
   * A pattern without wildcards or `$` matches the names of its own length
   * that agree with it everywhere except under a `.`, which stands for any
   * character but a line terminator.
   */
  lemma PlainPatternNames(p: string, name: string)
    requires forall k :: 0 <= k < |p| ==> p[k] != '*' && p[k] != '$'
    ensures NameMatches(Tokens(p), name) <==>
              |name| == |p| && forall k :: 0 <= k < |p| ==> Fits(p[k], name[k])
  {
    PlainFrom(p, name, 0);
  }

  /** A name character fits a pattern character: anything but a line terminator under '.', itself otherwise. */
  predicate Fits(pc: char, c: char)
  {
    if pc == '.' then !IsLineTerminator(c) else c == pc
  }

  /** The name from index i on fits the plain pattern p character by character. */
  predicate FitsFrom(p: string, name: string, i: nat)
  {
    i <= |name| && |name| - i == |p| && forall k :: 0 <= k < |p| ==> Fits(p[k], name[i + k])
  }

  lemma FitsFromStep(p: string, name: string, i: nat)
    requires |p| > 0 && i < |name|
    ensures FitsFrom(p, name, i) <==> Fits(p[0], name[i]) && FitsFrom(p[1..], name, i + 1)
  {
    if Fits(p[0], name[i]) && FitsFrom(p[1..], name, i + 1) {
      forall k | 0 <= k < |p| ensures Fits(p[k], name[i + k]) {
        if k > 0 {
          assert p[k] == p[1..][k - 1];
        }
      }
    }
  }

  lemma {:induction false} PlainFrom(p: string, name: string, i: nat)
    requires forall k :: 0 <= k < |p| ==> p[k] != '*' && p[k] != '$'
    requires i <= |name|
    ensures MatchAt(name, Tokens(p), i, |name|) <==> FitsFrom(p, name, i)
    decreases |p|
  {
    if |p| > 0 && i < |name| {
      assert forall k :: 0 <= k < |p| - 1 ==> p[1..][k] == p[k + 1];
      PlainFrom(p[1..], name, i + 1);
      FitsFromStep(p, name, i);
      PlainHead(p, name, i);
    } else if |p| > 0 {
      PlainAtEnd(p, name);
    }
  }

  lemma PlainHead(p: string, name: string, i: nat)
    requires |p| > 0 && p[0] != '*' && p[0] != '$' && i < |name|
    ensures MatchAt(name, Tokens(p), i, |name|) <==> Fits(p[0], name[i]) && MatchAt(name, Tokens(p[1..]), i + 1, |name|)
  {
    var ps := Tokens(p);
    assert ps == [if p[0] == '.' then AnyChar else Literal(p[0])] + Tokens(p[1..]);
  }

  lemma PlainAtEnd(p: string, name: string)
    requires |p| > 0 && p[0] != '*' && p[0] != '$'
    ensures !MatchAt(name, Tokens(p), |name|, |name|)
  {
    var ps := Tokens(p);
    assert ps == [if p[0] == '.' then AnyChar else Literal(p[0])] + Tokens(p[1..]);
  }

  /** Some piece that consumes a character directly follows an end-of-line anchor. */
  predicate ConsumesAfterLineEnd(ps: seq<Piece>)
  {
    exists k :: 0 <= k < |ps| - 1 && ps[k] == EndOfLine && ps[k + 1] != EndOfLine
  }

  /** A pattern `$` followed by anything but another `$` leaves such a piece. */
  lemma {:induction false} DollarInsideTokens(p: string, k: nat)
    requires k + 1 < |p| && p[k] == '$' && p[k + 1] != '$'
    ensures ConsumesAfterLineEnd(Tokens(p))
    decreases |p|
  {
    var ps := Tokens(p);
    if k == 0 {
      assert ps == [EndOfLine] + Tokens(p[1..]);
      assert Tokens(p[1..])[0] != EndOfLine;
      assert ps[0] == EndOfLine && ps[1] != EndOfLine;
    } else if p[0] == '*' && p[1] == '*' {
      assert k >= 2;
      DollarInsideTokens(p[2..], k - 2);
      var m :| 0 <= m < |Tokens(p[2..])| - 1 && Tokens(p[2..])[m] == EndOfLine && Tokens(p[2..])[m + 1] != EndOfLine;
      assert ps == [Deep] + Tokens(p[2..]);
      assert ps[m + 1] == EndOfLine && ps[m + 2] != EndOfLine;
    } else {
      DollarInsideTokens(p[1..], k - 1);
      var m :| 0 <= m < |Tokens(p[1..])| - 1 && Tokens(p[1..])[m] == EndOfLine && Tokens(p[1..])[m + 1] != EndOfLine;
      assert ps == [ps[0]] + Tokens(p[1..]);
      assert ps[m + 1] == EndOfLine && ps[m + 2] != EndOfLine;
    }
  }

  /** Pieces that need a character right after the end of a line match nowhere. */
  lemma {:induction false} NoMatchAfterLineEnd(t: string, ps: seq<Piece>, i: nat, j: nat)
    requires i <= j <= |t| && SingleLinePieces(ps) && ConsumesAfterLineEnd(ps)
    ensures !MatchAt(t, ps, i, j)
    decreases |ps|, j - i, 1
  {
    var k :| 0 <= k < |ps| - 1 && ps[k] == EndOfLine && ps[k + 1] != EndOfLine;
    TailSingleLine(ps);
    if k == 0 {
      if MatchAt(t, ps[1..], i, j) {
        ConsumesFirst(t, ps[1..], i, j);
      }
    } else {
      assert ps[1..][k - 1] == EndOfLine && ps[1..][k] != EndOfLine;
      match ps[0]
      case Literal(c) => if i < j { NoMatchAfterLineEnd(t, ps[1..], i + 1, j); }
      case AnyChar => if i < j { NoMatchAfterLineEnd(t, ps[1..], i + 1, j); }
      case EndOfLine => NoMatchAfterLineEnd(t, ps[1..], i, j);
      case Shallow => NoRunAfterLineEnd(t, false, ps[1..], i, j);
      case Deep => NoRunAfterLineEnd(t, true, ps[1..], i, j);
    }
  }

  /** A match of pieces that start with a consuming one begins with a character that does not end a line. */
  lemma ConsumesFirst(t: string, ps: seq<Piece>, i: nat, j: nat)
    requires i <= j <= |t| && |ps| > 0 && ps[0] != EndOfLine && SingleLinePieces(ps)
    requires MatchAt(t, ps, i, j)
    ensures i < j && !IsLineTerminator(t[i])
  {
  }

  lemma {:induction false} NoRunAfterLineEnd(t: string, deep: bool, rest: seq<Piece>, i: nat, j: nat)
    requires i <= j <= |t| && SingleLinePieces(rest) && ConsumesAfterLineEnd(rest)
    ensures !RunThen(t, deep, rest, i, j)
    decreases |rest| + 1, j - i, 0
  {
    if i < j {
      NoMatchAfterLineEnd(t, rest, i + 1, j);
      NoRunAfterLineEnd(t, deep, rest, i + 1, j);
    }
  }

  /**
   * A nested-class pattern such as `a.B$C` is compiled as written, so its
   * `$` is an end-of-line anchor with more pattern after it: it matches
   * nothing at all.
   */
  lemma NestedClassPatternMatchesNothing(pattern: string, k: nat, t: string)
    requires InSubset(Trim(pattern))
    requires k + 1 < |Trim(pattern)| && Trim(pattern)[k] == '$' && Trim(pattern)[k + 1] != '$'
    ensures MatchedLines(t, Tokens(Trim(pattern)), 0) == []
  {
    var ps := Tokens(Trim(pattern));
    DollarInsideTokens(Trim(pattern), k);
    TokensPlain(Trim(pattern));
    if Find(t, ps, 0).Some? {
      var p := Find(t, ps, 0).value.0;
      NoMatchAfterLineEnd(t, ps, p, LineEnd(t, p));
    }
  }
}
