/**
 * ClassMatcher: the class list is loaded once from the classpath, and each
 * pattern adds the classes it matches to a sorted set.
 */
module ClassMatcher {
  import opened Wrappers
  import opened JavaStrings
  import opened ClassPatterns
  import opened ClassFiles

  /** The matches the set keeps: nested classes (a `$` in the name) are skipped. */
  function Kept(found: seq<string>): set<string>
  {
    set m | m in found && '$' !in m
  }

  /** One turn of the find loop: the matched line, then what the loop visits after it. */
  lemma FoundLine(t: string, ps: seq<Piece>, from: nat)
    ensures Find(t, ps, from).None? ==> MatchedLines(t, ps, from) == []
    ensures Find(t, ps, from).Some? ==>
      var (p, e) := Find(t, ps, from).value;
      var next := if e == p then e + 1 else e;
      && from < next <= |t| + 1
      && MatchedLines(t, ps, from) == [t[p..e]] + MatchedLines(t, ps, next)
  {
  }

  lemma KeptCons(x: string, rest: seq<string>)
    ensures Kept([x] + rest) == (if '$' !in x then {x} else {}) + Kept(rest)
    ensures Kept([]) == {}
  {
  }

  /** The text addPattern prints: the pattern cut before its first `$`. */
  function PrintedPattern(pattern: string): (r: string)
    ensures '$' !in r
    ensures r <= pattern
    ensures '$' in pattern ==> pattern[|r|] == '$'
  {
    var i := IndexOf(pattern, '$');
    if i >= 0 then pattern[..i] else pattern
  }

  /** A class list as getAllClassFileNames builds it for this classpath. */
  ghost predicate IsClassList(fs: map<string, Node>, pathParts: seq<string>, list: string)
  {
    exists names :: Sorted(names) && Elems(names) == AllClasses(fs, pathParts) && list == ClassListText(names)
  }

  class ClassMatcher {
    /** The files and directories on the classpath, by path. */
    const fs: map<string, Node>
    /** The class path, split at the path separator. */
    const pathParts: seq<string>
    /** m_classList: None until the classpath has been scanned. */
    var classList: Option<string>
    /** m_classNameMatches, in its iteration order. */
    var matches: seq<string>

    ghost predicate Valid()
      reads this
    {
      Sorted(matches)
    }

    constructor (fs: map<string, Node>, pathParts: seq<string>)
      ensures this.fs == fs && this.pathParts == pathParts
      ensures classList == None && matches == []
      ensures Valid()
    {
      this.fs := fs;
      this.pathParts := pathParts;
      classList := None;
      matches := [];
    }

    /**
     * addPattern: loads the class list on first use, compiles the trimmed
     * pattern with `**` and `*` replaced, and adds every matched line that
     * is not a nested class.
     */
    method AddPattern(classNamePattern: string)
      requires Valid() && InSubset(Trim(classNamePattern))
      modifies this
      ensures Valid()
      ensures old(classList).None? ==> classList.Some? && IsClassList(fs, pathParts, classList.value)
      ensures old(classList).Some? ==> classList == old(classList)
      ensures Elems(matches) == Elems(old(matches))
                                + Kept(MatchedLines(classList.value, Tokens(Trim(classNamePattern)), 0))
      ensures Kept(MatchedLines(classList.value, Tokens(Trim(classNamePattern)), 0)) <= Elems(old(matches))
              ==> matches == old(matches)
    {
      if classList.None? {
        var list := GetAllClassFileNames(fs, pathParts);
        classList := Some(list);
      }

      var preppedName := Trim(classNamePattern);

      // only the printed text is cut at the first '$'
      var printed := classNamePattern;
      var indexOfDollarSign := IndexOf(classNamePattern, '$');
      if indexOfDollarSign >= 0 {
        printed := classNamePattern[..indexOfDollarSign];
      }
      assert printed == PrintedPattern(classNamePattern);

      preppedName := Replace(preppedName, "**", DeepClass);
      preppedName := Replace(preppedName, "*", ShallowClass);
      var regex := "^" + preppedName + "$";

      CompileRegexText(classNamePattern);
      var pattern := Compile(regex).value;

      AddMatches(classList.value, pattern);
    }

    /**
     * The `while (matcher.find())` loop of addPattern over the class list
     * `text`: each matched line without a `$` is added to the set.
     */
    method AddMatches(text: string, pattern: seq<Piece>)
      requires Valid()
      modifies this
      ensures Valid() && classList == old(classList)
      ensures Elems(matches) == Elems(old(matches)) + Kept(MatchedLines(text, pattern, 0))
      ensures Kept(MatchedLines(text, pattern, 0)) <= Elems(old(matches)) ==> matches == old(matches)
    {
      var from := 0;
      var found := Find(text, pattern, from);
      while found.Some?
        invariant from <= |text| + 1 && classList == old(classList)
        invariant found == Find(text, pattern, from)
        invariant Sorted(matches)
        invariant Elems(matches) + Kept(MatchedLines(text, pattern, from))
                  == Elems(old(matches)) + Kept(MatchedLines(text, pattern, 0))
        decreases |text| + 1 - from
      {
        var (start, end) := found.value;
        var group := text[start..end];
        var next := if end == start then end + 1 else end;
        FoundLine(text, pattern, from);
        KeptCons(group, MatchedLines(text, pattern, next));
        if '$' !in group {
          matches := Insert(matches, group);
        }
        from := next;
        found := Find(text, pattern, from);
      }
      KeptCons("", []);
      if Kept(MatchedLines(text, pattern, 0)) <= Elems(old(matches)) {
        SortedUnique(matches, old(matches));
      }
    }

    /** getMatchedClassList: the matches in order, each once. */
    function GetMatchedClassList(): (r: seq<string>)
      reads this
      requires Valid()
      ensures Elems(r) == Elems(matches)
      ensures forall i, j :: 0 <= i < j < |r| ==> Less(r[i], r[j])
      ensures forall i, j :: 0 <= i < j < |r| ==> r[i] != r[j]
    {
      SortedDistinct(matches);
      matches
    }

    /** clear: empties the matches and leaves an empty class list that is never reloaded. */
    method Clear()
      modifies this
      ensures classList == Some("") && matches == []
      ensures Valid()
    {
      classList := Some("");
      matches := [];
    }
  }

  /**
   * On a class list as getAllClassFileNames builds it, a pattern adds
   * exactly the listed classes whose whole name it matches and that are not
   * nested classes.
   */
  lemma PatternAddsMatchingClasses(names: seq<string>, pattern: string)
    requires forall n :: n in names ==> SingleLine(n)
    ensures var ps := Tokens(Trim(pattern));
      Kept(MatchedLines(ClassListText(names), ps, 0))
      == set n | n in names && NameMatches(ps, n) && '$' !in n
  {
    var ps := Tokens(Trim(pattern));
    MatchedLinesAreMatchingLines(ClassListText(names), ps, 0);
    ClassListLines(names);
  }

  /** After clear, the class list is empty and a pattern adds nothing. */
  lemma ClearedListMatchesNothing(ps: seq<Piece>)
    ensures Kept(MatchedLines("", ps, 0)) == {}
  {
    assert MatchedLines("", ps, 0) == [];
  }

  /** Adding the same pattern twice adds nothing the second time. */
  lemma AddPatternIdempotent(list: string, m0: seq<string>, m1: seq<string>, m2: seq<string>, ps: seq<Piece>)
    requires Sorted(m1) && Sorted(m2)
    requires Elems(m1) == Elems(m0) + Kept(MatchedLines(list, ps, 0))
    requires Elems(m2) == Elems(m1) + Kept(MatchedLines(list, ps, 0))
    ensures m2 == m1
  {
    SortedUnique(m2, m1);
  }
}
