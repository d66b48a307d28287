/**
 * The parts of java.lang.String, java.util.regex character classes and
 * java.util.TreeSet<String> that the class matcher relies on, as values.
 * A Java String is a `string`; a TreeSet<String> is a strictly increasing
 * sequence under String.compareTo.
 */
module JavaStrings {

  // ---------------------------------------------------------------------
  // Characters

  /** The characters java.util.regex treats as line terminators (no UNIX_LINES flag). */
  predicate IsLineTerminator(c: char)
  {
    c == '\n' || c == '\r' || c == '\U{85}' || c == '\U{2028}' || c == '\U{2029}'
  }

  /** The regex class `\w` without UNICODE_CHARACTER_CLASS: [a-zA-Z_0-9]. */
  predicate IsWordChar(c: char)
  {
    ('a' <= c <= 'z') || ('A' <= c <= 'Z') || ('0' <= c <= '9') || c == '_'
  }

  /** No character of `s` ends a line. */
  predicate SingleLine(s: string)
  {
    forall i :: 0 <= i < |s| ==> !IsLineTerminator(s[i])
  }

  // ---------------------------------------------------------------------
  // String.trim, String.indexOf, String.replace

  /** String.trim: drops every leading and trailing character at or below U+0020. */
  function Trim(s: string): (r: string)
    ensures |r| > 0 ==> r[0] > ' ' && r[|r| - 1] > ' '
    ensures exists i, j :: 0 <= i <= j <= |s| && r == s[i..j]
                           && (forall k :: 0 <= k < i || j <= k < |s| ==> s[k] <= ' ')
  {
    var i := TrimStart(s, 0);
    var j := TrimEnd(s, i, |s|);
    s[i..j]
  }

  /** The first index at or after `i` whose character is above U+0020, or |s|. */
  function TrimStart(s: string, i: nat): (k: nat)
    requires i <= |s|
    ensures i <= k <= |s|
    ensures forall m :: i <= m < k ==> s[m] <= ' '
    ensures k < |s| ==> s[k] > ' '
    decreases |s| - i
  {
    if i < |s| && s[i] <= ' ' then TrimStart(s, i + 1) else i
  }

  /** The end of the last character in s[lo..j] above U+0020, or lo. */
  function TrimEnd(s: string, lo: nat, j: nat): (k: nat)
    requires lo <= j <= |s|
    ensures lo <= k <= j
    ensures forall m :: k <= m < j ==> s[m] <= ' '
    ensures k > lo ==> s[k - 1] > ' '
    decreases j
  {
    if j > lo && s[j - 1] <= ' ' then TrimEnd(s, lo, j - 1) else j
  }

  /** String.indexOf(char): the first index of `c`, or -1. */
  function IndexOf(s: string, c: char): (r: int)
    ensures -1 <= r < |s|
    ensures r == -1 <==> c !in s
    ensures r >= 0 ==> s[r] == c && c !in s[..r]
  {
    if |s| == 0 then -1
    else if s[0] == c then 0
    else
      var r := IndexOf(s[1..], c);
      if r == -1 then -1
      else
        assert s[..r + 1] == [s[0]] + s[1..][..r];
        r + 1
  }

  /** Whether `target` occurs in `s` starting at index `i`. */
  predicate OccursAt(s: string, target: string, i: nat)
  {
    i + |target| <= |s| && s[i..i + |target|] == target
  }

  /**
   * String.replace(CharSequence, CharSequence): every occurrence of `target`,
   * found left to right without overlap, is replaced by `replacement`.
   */
  function Replace(s: string, target: string, replacement: string): (r: string)
    requires |target| > 0
    ensures |s| < |target| ==> r == s
    decreases |s|
  {
    if |s| < |target| then s
    else if s[..|target|] == target then replacement + Replace(s[|target|..], target, replacement)
    else [s[0]] + Replace(s[1..], target, replacement)
  }

  /** Where `target` does not start the string, its first character is kept and the search moves on. */
  lemma ReplaceSkip(s: string, target: string, replacement: string)
    requires |target| > 0 && !OccursAt(s, target, 0) && |s| > 0
    ensures Replace(s, target, replacement) == [s[0]] + Replace(s[1..], target, replacement)
  {
    if |s| < |target| {
      assert Replace(s[1..], target, replacement) == s[1..];
      assert s == [s[0]] + s[1..];
    }
  }

  /** Where `target` starts the string, it is replaced and the search resumes after it. */
  lemma ReplaceHit(s: string, target: string, replacement: string)
    requires |target| > 0 && OccursAt(s, target, 0)
    ensures Replace(s, target, replacement) == replacement + Replace(s[|target|..], target, replacement)
  {
    assert s[..|target|] == target;
  }

  /** A string in which `target` does not occur comes back unchanged. */
  lemma {:induction false} ReplaceAbsent(s: string, target: string, replacement: string)
    requires |target| > 0 && forall i :: 0 <= i < |s| ==> !OccursAt(s, target, i)
    ensures Replace(s, target, replacement) == s
    decreases |s|
  {
    if |s| >= |target| {
      assert !OccursAt(s, target, 0);
      forall i | 0 <= i < |s| - 1 ensures !OccursAt(s[1..], target, i) {
        assert !OccursAt(s, target, i + 1);
        if i + |target| <= |s| - 1 {
          assert s[1..][i..i + |target|] == s[i + 1..i + 1 + |target|];
        }
      }
      ReplaceAbsent(s[1..], target, replacement);
      assert s == [s[0]] + s[1..];
    }
  }

  /** A prefix in which `target` (one character long) does not occur is kept as it is. */
  lemma {:induction false} ReplaceCharKeepsPrefix(x: string, y: string, target: char, replacement: string)
    requires target !in x
    ensures Replace(x + y, [target], replacement) == x + Replace(y, [target], replacement)
    decreases |x|
  {
    if |x| > 0 {
      assert (x + y)[..1] == [x[0]] && x[0] != target;
      assert (x + y)[1..] == x[1..] + y;
      ReplaceCharKeepsPrefix(x[1..], y, target, replacement);
      assert x == [x[0]] + x[1..];
    } else {
      assert x + y == y;
    }
  }

  // ---------------------------------------------------------------------
  // String.compareTo

  /** a.compareTo(b) < 0: lexicographic on characters, a proper prefix first. */
  predicate Less(a: string, b: string)
    decreases |a|
  {
    if |a| == 0 then |b| > 0
    else if |b| == 0 then false
    else if a[0] != b[0] then a[0] < b[0]
    else Less(a[1..], b[1..])
  }

  lemma {:induction false} LessIrreflexive(a: string)
    ensures !Less(a, a)
    decreases |a|
  {
    if |a| > 0 {
      LessIrreflexive(a[1..]);
    }
  }

  lemma {:induction false} LessTransitive(a: string, b: string, c: string)
    requires Less(a, b) && Less(b, c)
    ensures Less(a, c)
    decreases |a|
  {
    if |a| > 0 && |b| > 0 && |c| > 0 && a[0] == b[0] && b[0] == c[0] {
      LessTransitive(a[1..], b[1..], c[1..]);
    }
  }

  lemma {:induction false} LessTotal(a: string, b: string)
    requires a != b
    ensures Less(a, b) != Less(b, a)
    decreases |a|
  {
    if |a| > 0 && |b| > 0 && a[0] == b[0] {
      assert a == [a[0]] + a[1..] && b == [b[0]] + b[1..];
      LessTotal(a[1..], b[1..]);
    }
  }

  // ---------------------------------------------------------------------
  // TreeSet<String>

  /** A TreeSet's contents in iteration order: strictly increasing under compareTo. */
  predicate Sorted(s: seq<string>)
  {
    forall i, j :: 0 <= i < j < |s| ==> Less(s[i], s[j])
  }

  function Elems(s: seq<string>): set<string>
  {
    set x | x in s
  }

  /** TreeSet.add. */
  function Insert(s: seq<string>, x: string): (r: seq<string>)
    requires Sorted(s)
    ensures Sorted(r)
    ensures Elems(r) == Elems(s) + {x}
    ensures x in s ==> r == s
  {
    if |s| == 0 then [x]
    else if x == s[0] then s
    else if Less(x, s[0]) then
      InsertFront(s, x);
      [x] + s
    else
      LessTotal(x, s[0]);
      var rest := Insert(s[1..], x);
      InsertBehind(s, x, rest);
      [s[0]] + rest
  }

  /** An element below the first one goes in front. */
  lemma InsertFront(s: seq<string>, x: string)
    requires Sorted(s) && |s| > 0 && Less(x, s[0])
    ensures Sorted([x] + s) && x !in s
  {
    forall j | 0 < j < |s| ensures Less(x, s[j]) {
      LessTransitive(x, s[0], s[j]);
    }
    LessIrreflexive(x);
  }

  /** An element above the first one goes in behind it. */
  lemma InsertBehind(s: seq<string>, x: string, rest: seq<string>)
    requires Sorted(s) && |s| > 0 && Less(s[0], x)
    requires Sorted(rest) && Elems(rest) == Elems(s[1..]) + {x}
    ensures Sorted([s[0]] + rest)
    ensures Elems([s[0]] + rest) == Elems(s) + {x}
    ensures x in s ==> x in s[1..]
  {
    HeadBelowRest(s, x, rest);
    assert Elems(s) == {s[0]} + Elems(s[1..]) by {
      assert s == [s[0]] + s[1..];
    }
    assert Elems([s[0]] + rest) == {s[0]} + Elems(rest) by {
      assert forall y :: y in [s[0]] + rest <==> y == s[0] || y in rest;
    }
    if x in s {
      LessIrreflexive(x);
      assert x != s[0];
    }
  }

  lemma HeadBelowRest(s: seq<string>, x: string, rest: seq<string>)
    requires Sorted(s) && |s| > 0 && Less(s[0], x)
    requires Sorted(rest) && Elems(rest) == Elems(s[1..]) + {x}
    ensures Sorted([s[0]] + rest)
  {
    forall y | y in rest ensures Less(s[0], y) {
      assert y in Elems(rest);
      if y != x {
        var j :| 0 <= j < |s[1..]| && s[1..][j] == y;
        assert s[j + 1] == y;
      }
    }
    forall i, j | 0 <= i < j < |[s[0]] + rest| ensures Less(([s[0]] + rest)[i], ([s[0]] + rest)[j]) {
      if i > 0 {
        assert ([s[0]] + rest)[i] == rest[i - 1];
      }
      assert ([s[0]] + rest)[j] == rest[j - 1] && rest[j - 1] in rest;
    }
  }

  lemma ElemsEmpty(s: seq<string>)
    ensures Elems(s) == {} <==> s == []
  {
    if s != [] {
      assert s[0] in Elems(s);
    }
  }

  /** A TreeSet holds no element twice. */
  lemma SortedDistinct(s: seq<string>)
    requires Sorted(s)
    ensures forall i, j :: 0 <= i < j < |s| ==> s[i] != s[j]
  {
    forall i, j | 0 <= i < j < |s| ensures s[i] != s[j] {
      LessIrreflexive(s[i]);
    }
  }

  /**
   * A TreeSet's iteration order depends only on its elements, not on the
   * order in which they were added.
   */
  lemma {:induction false} SortedUnique(a: seq<string>, b: seq<string>)
    requires Sorted(a) && Sorted(b) && Elems(a) == Elems(b)
    ensures a == b
    decreases |a|
  {
    if |a| == 0 {
      ElemsEmpty(b);
    } else {
      assert a[0] in Elems(b);
      assert |b| > 0;
      assert b[0] in Elems(a);
      if a[0] != b[0] {
        var i :| 0 <= i < |a| && a[i] == b[0];
        var j :| 0 <= j < |b| && b[j] == a[0];
        assert Less(a[0], b[0]) && Less(b[0], a[0]);
        LessTotal(a[0], b[0]);
        assert false;
      }
      SortedDistinct(a);
      SortedDistinct(b);
      assert Elems(a[1..]) == Elems(a) - {a[0]} by {
        assert a == [a[0]] + a[1..];
      }
      assert Elems(b[1..]) == Elems(b) - {b[0]} by {
        assert b == [b[0]] + b[1..];
      }
      SortedUnique(a[1..], b[1..]);
      assert a == [a[0]] + a[1..] && b == [b[0]] + b[1..];
    }
  }
}
