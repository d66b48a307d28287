/**
 * The Python 2 string and file behaviour the log merger relies on, on
 * byte strings seen as `string`: iterating a file by lines, os.path.basename,
 * str.rstrip, str.lower, int() and str() on integers, "%03d", and re.search
 * with a pattern that has no regex syntax in it.
 */
module PyText {
  import opened Wrappers
  import opened JavaStrings

  /** The exceptions the modelled code can raise. */
  datatype PyError = ValueError | NameError | KeyError | UnboundLocalError

  // ---------------------------------------------------------------------
  // Characters

  /** `\d` and str.isdigit on a byte string: '0'..'9'. */
  predicate IsDigit(c: char)
  {
    '0' <= c <= '9'
  }

  /** `\s` and str.isspace on a byte string: space, \t, \n, \v, \f, \r. */
  predicate IsSpace(c: char)
  {
    c == ' ' || c == '\t' || c == '\n' || c == '\U{B}' || c == '\U{C}' || c == '\r'
  }

  predicate AllDigits(s: string)
  {
    forall i :: 0 <= i < |s| ==> IsDigit(s[i])
  }

  /** `n` digits start at index `i`. */
  predicate DigitsAt(s: string, i: nat, n: nat)
  {
    i + n <= |s| && AllDigits(s[i..i + n])
  }

  /** How many digits, at most `max`, start at index `i`: what a greedy `\d{0,max}` takes. */
  function DigitRun(s: string, i: nat, max: nat): (n: nat)
    ensures n <= max && (n == 0 || DigitsAt(s, i, n))
    ensures n < max ==> i + n >= |s| || !IsDigit(s[i + n])
    decreases max
  {
    if max > 0 && i < |s| && IsDigit(s[i]) then
      var n := 1 + DigitRun(s, i + 1, max - 1);
      assert s[i..i + n] == [s[i]] + s[i + 1..i + n];
      n
    else 0
  }

  /** How many whitespace characters start at index `i`: what a greedy `\s*` takes. */
  function SpaceRun(s: string, i: nat): (n: nat)
    ensures i + n <= |s| || n == 0
    ensures forall k :: i <= k < i + n ==> IsSpace(s[k])
    ensures i + n < |s| ==> !IsSpace(s[i + n])
    decreases |s| - i
  {
    if i < |s| && IsSpace(s[i]) then 1 + SpaceRun(s, i + 1) else 0
  }

  // ---------------------------------------------------------------------
  // Files as lines

  function Concat(lines: seq<string>): string
  {
    if |lines| == 0 then "" else lines[0] + Concat(lines[1..])
  }

  lemma {:induction false} ConcatAppend(a: seq<string>, b: seq<string>)
    ensures Concat(a + b) == Concat(a) + Concat(b)
    decreases |a|
  {
    if |a| == 0 {
      assert a + b == b;
    } else {
      assert (a + b)[1..] == a[1..] + b;
      ConcatAppend(a[1..], b);
    }
  }

  /** The shape of a file's lines: none empty, '\n' only at the end of each, and at the end of all but the last. */
  predicate LineShaped(lines: seq<string>)
  {
    && (forall j :: 0 <= j < |lines| ==> |lines[j]| > 0 && '\n' !in lines[j][..|lines[j]| - 1])
    && (forall j :: 0 <= j < |lines| - 1 ==> lines[j][|lines[j]| - 1] == '\n')
  }

  /** Iterating a Python 2 file: each line runs up to and including its '\n'; the last may lack one. */
  function PyLines(s: string): (r: seq<string>)
    ensures Concat(r) == s
    ensures LineShaped(r)
    decreases |s|
  {
    if |s| == 0 then []
    else
      var i := IndexOf(s, '\n');
      var k := if i < 0 then |s| else i + 1;
      assert s[..k][..k - 1] == s[..k - 1];
      assert s == s[..k] + s[k..];
      var rest := PyLines(s[k..]);
      LineShapedCons(s[..k], rest);
      [s[..k]] + rest
  }

  /** A line of that shape, ended by '\n' unless nothing follows, in front of lines of that shape. */
  lemma LineShapedCons(first: string, rest: seq<string>)
    requires |first| > 0 && '\n' !in first[..|first| - 1] && LineShaped(rest)
    requires |rest| > 0 ==> first[|first| - 1] == '\n'
    ensures LineShaped([first] + rest)
  {
    var r := [first] + rest;
    forall j | 1 <= j < |r| ensures r[j] == rest[j - 1] {
    }
  }

  /** Where iterating s cuts its first line, when s starts with a line of that shape. */
  lemma FirstLineCut(s: string, first: string, rest: string)
    requires s == first + rest && |first| > 0 && '\n' !in first[..|first| - 1]
    requires first[|first| - 1] == '\n' || rest == ""
    ensures var i := IndexOf(s, '\n'); (if i < 0 then |s| else i + 1) == |first|
  {
    var i := IndexOf(s, '\n');
    assert s[..|first| - 1] == first[..|first| - 1];
    if first[|first| - 1] == '\n' {
      assert s[|first| - 1] == '\n';
    } else {
      assert s == first[..|first| - 1] + [first[|first| - 1]];
    }
  }

  /** Lines that have the shape of a file's lines are exactly what iterating their concatenation gives back. */
  lemma {:induction false} PyLinesOfConcat(lines: seq<string>)
    requires LineShaped(lines)
    ensures PyLines(Concat(lines)) == lines
    decreases |lines|
  {
    if |lines| > 0 {
      LineShapedTail(lines);
      PyLinesStep(Concat(lines), lines[0], Concat(lines[1..]));
      PyLinesOfConcat(lines[1..]);
      assert lines == [lines[0]] + lines[1..];
    }
  }

  lemma LineShapedTail(lines: seq<string>)
    requires LineShaped(lines) && |lines| > 0
    ensures LineShaped(lines[1..])
    ensures |lines[0]| > 0 && '\n' !in lines[0][..|lines[0]| - 1]
    ensures lines[0][|lines[0]| - 1] == '\n' || Concat(lines[1..]) == ""
  {
    forall j | 0 <= j < |lines[1..]| - 1 ensures lines[1..][j][|lines[1..][j]| - 1] == '\n' {
      assert lines[1..][j] == lines[j + 1];
    }
    if |lines| == 1 {
      assert Concat(lines[1..]) == "";
    }
  }

  /** Iterating a string that starts with a line of the shape of a file's line takes that line off first. */
  lemma PyLinesStep(s: string, first: string, rest: string)
    requires s == first + rest && |first| > 0 && '\n' !in first[..|first| - 1]
    requires first[|first| - 1] == '\n' || rest == ""
    ensures PyLines(s) == [first] + PyLines(rest)
  {
    FirstLineCut(s, first, rest);
    assert s[..|first|] == first && s[|first|..] == rest;
  }

  // ---------------------------------------------------------------------
  // os.path.basename, str.rstrip, str.lower

  /** os.path.basename on a POSIX path: what follows the last '/'. */
  function Basename(path: string): (r: string)
    ensures '/' !in r
    ensures |r| <= |path| && r == path[|path| - |r|..]
    ensures |r| < |path| ==> path[|path| - |r| - 1] == '/'
    decreases |path|
  {
    if |path| == 0 || path[|path| - 1] == '/' then ""
    else
      var r := Basename(path[..|path| - 1]) + [path[|path| - 1]];
      assert path[..|path| - 1][|path| - 1 - (|r| - 1)..] + [path[|path| - 1]] == path[|path| - |r|..];
      r
  }

  /** str.rstrip(): drops the trailing whitespace. */
  function RStrip(s: string): (r: string)
    ensures r <= s
    ensures |r| > 0 ==> !IsSpace(r[|r| - 1])
    ensures forall k :: |r| <= k < |s| ==> IsSpace(s[k])
    decreases |s|
  {
    if |s| > 0 && IsSpace(s[|s| - 1]) then RStrip(s[..|s| - 1]) else s
  }

  function LowerChar(c: char): char
  {
    if 'A' <= c <= 'Z' then (c as int - 'A' as int + 'a' as int) as char else c
  }

  /** str.lower() on a byte string in the C locale: only 'A'..'Z' change. */
  function Lower(s: string): (r: string)
    ensures |r| == |s|
    ensures forall i :: 0 <= i < |s| ==> r[i] == LowerChar(s[i])
  {
    seq(|s|, i requires 0 <= i < |s| => LowerChar(s[i]))
  }

  /** value.lower() == "none" holds exactly for the spellings of "none" in any mix of cases. */
  lemma LowerIsNone(value: string)
    ensures Lower(value) == "none" <==>
      |value| == 4 && forall i :: 0 <= i < 4 ==> value[i] == "none"[i] || value[i] == "NONE"[i]
  {
    if |value| == 4 && forall i :: 0 <= i < 4 ==> value[i] == "none"[i] || value[i] == "NONE"[i] {
      assert Lower(value) == "none" by {
        forall i | 0 <= i < 4 ensures Lower(value)[i] == "none"[i] {
          assert LowerChar(value[i]) == "none"[i];
        }
      }
    }
    if Lower(value) == "none" {
      forall i | 0 <= i < 4 ensures value[i] == "none"[i] || value[i] == "NONE"[i] {
        assert LowerChar(value[i]) == "none"[i];
      }
    }
  }

  // ---------------------------------------------------------------------
  // Decimal integers

  function DigitChar(d: nat): (c: char)
    requires d < 10
    ensures IsDigit(c) && c as int - '0' as int == d
  {
    ('0' as int + d) as char
  }

  /** The value of a string of decimal digits. */
  function DigitsValue(s: string): nat
    requires AllDigits(s)
  {
    if |s| == 0 then 0 else DigitsValue(s[..|s| - 1]) * 10 + (s[|s| - 1] as int - '0' as int)
  }

  /** str(n) for n >= 0. */
  function NatToString(n: nat): (r: string)
    ensures |r| > 0 && AllDigits(r)
    ensures |r| > 1 ==> r[0] != '0'
  {
    if n < 10 then [DigitChar(n)] else NatToString(n / 10) + [DigitChar(n % 10)]
  }

  lemma {:induction false} NatToStringValue(n: nat)
    ensures DigitsValue(NatToString(n)) == n
  {
    if n >= 10 {
      var s := NatToString(n);
      assert s[..|s| - 1] == NatToString(n / 10);
      NatToStringValue(n / 10);
    }
  }

  /** str(n) for an int: a '-' before the digits of a negative number. */
  function IntToString(n: int): (r: string)
    ensures |r| > 0
  {
    if n < 0 then "-" + NatToString(-n) else NatToString(n)
  }

  /**
   * int(s) on a string of an optional '+' or '-' followed by digits;
   * any other string raises ValueError.
   */
  function PyInt(s: string): (r: Result<int, PyError>)
    ensures r.Ok? <==> (|s| > 0 && AllDigits(s)) || (|s| > 1 && (s[0] == '+' || s[0] == '-') && AllDigits(s[1..]))
    ensures r.Ok? && |s| > 0 && AllDigits(s) ==> r.value == DigitsValue(s)
    ensures r.Ok? && s[0] == '-' ==> r.value == -(DigitsValue(s[1..]) as int)
    ensures r.Ok? && s[0] == '+' ==> r.value == DigitsValue(s[1..])
  {
    if |s| > 1 && (s[0] == '+' || s[0] == '-') && AllDigits(s[1..]) then
      Ok(if s[0] == '-' then -(DigitsValue(s[1..]) as int) else DigitsValue(s[1..]))
    else if |s| > 0 && AllDigits(s) then Ok(DigitsValue(s))
    else Err(ValueError)
  }

  /** int(str(n)) == n. */
  lemma IntToStringRoundTrip(n: int)
    ensures PyInt(IntToString(n)) == Ok(n)
  {
    if n < 0 {
      NatToStringValue(-n);
      assert IntToString(n)[1..] == NatToString(-n);
    } else {
      NatToStringValue(n);
    }
  }

  /** "%03d" % n for 0 <= n < 1000. */
  function Pad3(n: nat): (r: string)
    requires n < 1000
    ensures |r| == 3 && AllDigits(r) && DigitsValue(r) == n
  {
    var r := [DigitChar(n / 100), DigitChar(n / 10 % 10), DigitChar(n % 10)];
    assert r[..2][..1] == r[..1] && r[..1][..0] == [];
    assert DigitsValue(r[..1]) == n / 100;
    assert DigitsValue(r[..2]) == n / 100 * 10 + n / 10 % 10;
    r
  }

  // ---------------------------------------------------------------------
  // re.search with a literal pattern

  /** re.search(target, s) for a pattern with no regex syntax: the leftmost occurrence. */
  function Search(s: string, target: string): (r: Option<nat>)
    requires |target| > 0
    ensures r.Some? ==> OccursAt(s, target, r.value)
    ensures forall i :: 0 <= i < (if r.Some? then r.value else |s|) ==> !OccursAt(s, target, i)
  {
    SearchFrom(s, target, 0)
  }

  function SearchFrom(s: string, target: string, from: nat): (r: Option<nat>)
    requires |target| > 0
    ensures r.Some? ==> from <= r.value && OccursAt(s, target, r.value)
    ensures forall i :: from <= i < (if r.Some? then r.value else |s|) ==> !OccursAt(s, target, i)
    decreases |s| - from
  {
    if from + |target| > |s| then None
    else if s[from..from + |target|] == target then Some(from)
    else SearchFrom(s, target, from + 1)
  }
}
