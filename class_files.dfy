/**
 * How ClassMatcher lists the class files on the classpath: the directory
 * tree is a value, Package is the source's helper that walks one directory
 * of it, and the result is the sorted class names, each followed by '\n'.
 */
module ClassFiles {
  import opened Wrappers
  import opened JavaStrings
  import opened ClassPatterns

  /** A file or directory as java.io.File reports it; listFiles gives `entries`. */
  datatype Node = File(name: string) | Directory(name: string, entries: seq<Node>)

  /** ClassMatcher.Package: a directory and the package it sits in, if any. */
  datatype Package = Package(parent: Option<Package>, file: Node)

  const ClassSuffix: string := ".class"

  predicate EndsWith(s: string, suffix: string)
  {
    |suffix| <= |s| && s[|s| - |suffix|..] == suffix
  }

  /** A class file's name without its ".class" suffix. */
  function ClassName(fileName: string): (r: string)
    requires EndsWith(fileName, ClassSuffix)
    ensures r + ClassSuffix == fileName
  {
    fileName[..|fileName| - |ClassSuffix|]
  }

  // ---------------------------------------------------------------------
  // Package.getJavaName

  /** The "dot" name of a package: its ancestors' names and its own, outermost first. */
  function JavaName(pkg: Package): string
    decreases pkg
  {
    match pkg.parent
    case None => pkg.file.name
    case Some(q) => JavaName(q) + "." + pkg.file.name
  }

  /** The directory names from the classpath root down to `pkg`. */
  function Chain(pkg: Package): (r: seq<string>)
    ensures |r| > 0 && r[|r| - 1] == pkg.file.name
    decreases pkg
  {
    match pkg.parent
    case None => [pkg.file.name]
    case Some(q) => Chain(q) + [pkg.file.name]
  }

  /** The names joined with `sep` between each two. */
  function Join(xs: seq<string>, sep: string): string
    requires |xs| > 0
  {
    if |xs| == 1 then xs[0] else xs[0] + sep + Join(xs[1..], sep)
  }

  lemma {:induction false} JoinSnoc(xs: seq<string>, x: string, sep: string)
    requires |xs| > 0
    ensures Join(xs + [x], sep) == Join(xs, sep) + sep + x
    decreases |xs|
  {
    if |xs| == 1 {
      assert (xs + [x])[1..] == [x];
    } else {
      assert (xs + [x])[1..] == xs[1..] + [x];
      JoinSnoc(xs[1..], x, sep);
    }
  }

  /** getJavaName joins the directory names from the root down with dots. */
  lemma {:induction false} JavaNameJoinsChain(pkg: Package)
    ensures JavaName(pkg) == Join(Chain(pkg), ".")
    decreases pkg
  {
    match pkg.parent
    case None =>
    case Some(q) =>
      JavaNameJoinsChain(q);
      JoinSnoc(Chain(q), pkg.file.name, ".");
  }

  /** What a package's ancestors put in front of its own name. */
  function Prefix(p: Option<Package>): string
  {
    match p
    case None => ""
    case Some(q) => JavaName(q) + "."
  }

  /** Package.getJavaName: walks up the parent chain, prepending each name and a dot. */
  method GetJavaName(pkg: Package) returns (fullName: string)
    ensures fullName == JavaName(pkg)
  {
    fullName := pkg.file.name;
    var p := pkg.parent;
    while p.Some?
      invariant Prefix(p) + fullName == JavaName(pkg)
      decreases p
    {
      var parentName := p.value.file.name;
      fullName := parentName + "." + fullName;
      p := p.value.parent;
    }
  }

  // ---------------------------------------------------------------------
  // Package.process and processPathPart

  /** The class names process adds for one directory entry of `pkg`. */
  function EntryClasses(pkg: Package, f: Node): set<string>
    decreases f, 3
  {
    if EndsWith(f.name, ClassSuffix) then {JavaName(pkg) + "." + ClassName(f.name)}
    else if f.Directory? then PackageClasses(Package(Some(pkg), f))
    else {}
  }

  /** The class names process adds for the first n entries of `pkg`'s directory. */
  function ClassesUpTo(pkg: Package, n: nat): set<string>
    requires pkg.file.Directory? && n <= |pkg.file.entries|
    decreases pkg.file, 1, n
  {
    if n == 0 then {}
    else ClassesUpTo(pkg, n - 1) + EntryClasses(pkg, pkg.file.entries[n - 1])
  }

  /** The class names process adds for the tree under the directory of `pkg`. */
  function PackageClasses(pkg: Package): set<string>
    decreases pkg.file, 2
  {
    if pkg.file.Directory? then ClassesUpTo(pkg, |pkg.file.entries|) else {}
  }

  /**
   * A class file in a nested directory is named by the package's dot name,
   * a dot, and the file name without ".class"; a directory whose own name
   * ends in ".class" is taken for a class file and not descended into.
   */
  lemma EntryClassNames(pkg: Package, f: Node, i: nat)
    requires pkg.file.Directory? && i < |pkg.file.entries| && pkg.file.entries[i] == f
    ensures EndsWith(f.name, ClassSuffix) ==>
              EntryClasses(pkg, f) == {Join(Chain(pkg) + [ClassName(f.name)], ".")}
    ensures EntryClasses(pkg, f) <= PackageClasses(pkg)
  {
    if EndsWith(f.name, ClassSuffix) {
      JavaNameJoinsChain(pkg);
      JoinSnoc(Chain(pkg), ClassName(f.name), ".");
    }
    UpToGrows(pkg, i + 1, |pkg.file.entries|);
  }

  lemma {:induction false} UpToGrows(pkg: Package, m: nat, n: nat)
    requires pkg.file.Directory? && m <= n <= |pkg.file.entries|
    ensures ClassesUpTo(pkg, m) <= ClassesUpTo(pkg, n)
    decreases n - m
  {
    if m < n {
      UpToGrows(pkg, m, n - 1);
    }
  }

  /**
   * Package.process: every class file under the package's directory is
   * added to `classes` by its dot name; sub-directories are processed as
   * sub-packages.
   */
  method Process(pkg: Package, classes: seq<string>) returns (result: seq<string>)
    requires pkg.file.Directory? && Sorted(classes)
    ensures Sorted(result)
    ensures Elems(result) == Elems(classes) + PackageClasses(pkg)
    decreases pkg.file, 1
  {
    var files := pkg.file.entries;
    result := classes;
    var i := 0;
    while i < |files|
      invariant i <= |files|
      invariant Sorted(result)
      invariant Elems(result) == Elems(classes) + ClassesUpTo(pkg, i)
    {
      var f := files[i];
      var name := f.name;
      if EndsWith(name, ClassSuffix) {
        var className := name[..|name| - |ClassSuffix|];
        var javaName := GetJavaName(pkg);
        javaName := javaName + "." + className;
        result := Insert(result, javaName);
      } else if f.Directory? {
        var p := Package(Some(pkg), f);
        result := Process(p, result);
      }
      i := i + 1;
    }
  }

  /** The class names processPathPart adds for one classpath entry. */
  function PathPartClasses(fs: map<string, Node>, path: string): set<string>
  {
    if path in fs && fs[path].Directory? then RootClassesUpTo(fs[path], |fs[path].entries|) else {}
  }

  /** The class names processPathPart adds for the first n entries of the root directory. */
  function RootClassesUpTo(root: Node, n: nat): set<string>
    requires root.Directory? && n <= |root.entries|
  {
    if n == 0 then {}
    else
      var f := root.entries[n - 1];
      RootClassesUpTo(root, n - 1)
      + (if EndsWith(f.name, ClassSuffix) then {f.name} else {})
      + (if f.Directory? then PackageClasses(Package(None, f)) else {})
  }

  /** What one entry of a classpath directory contributes: its own name if it is a class file, and the classes under it if it is a directory. */
  predicate RootEntryGives(f: Node, c: string)
  {
    (EndsWith(f.name, ClassSuffix) && c == f.name) || (f.Directory? && c in PackageClasses(Package(None, f)))
  }

  /**
   * processPathPart adds a name exactly when the classpath entry is a
   * directory and one of that directory's entries contributes it; an entry
   * that is not a directory adds nothing.
   */
  lemma PathPartMembers(fs: map<string, Node>, path: string, c: string)
    ensures c in PathPartClasses(fs, path) <==>
      path in fs && fs[path].Directory? && exists i :: 0 <= i < |fs[path].entries| && RootEntryGives(fs[path].entries[i], c)
  {
    if path in fs && fs[path].Directory? {
      RootUpToMembers(fs[path], |fs[path].entries|, c);
    }
  }

  lemma {:induction false} RootUpToMembers(root: Node, n: nat, c: string)
    requires root.Directory? && n <= |root.entries|
    ensures c in RootClassesUpTo(root, n) <==> exists i :: 0 <= i < n && RootEntryGives(root.entries[i], c)
    decreases n
  {
    if n > 0 {
      RootUpToMembers(root, n - 1, c);
      if RootEntryGives(root.entries[n - 1], c) {
        assert exists i :: 0 <= i < n && RootEntryGives(root.entries[i], c);
      }
    }
  }

  /** A class file directly in a classpath directory keeps its whole file name, ".class" included. */
  lemma RootClassNames(fs: map<string, Node>, path: string, i: nat)
    requires path in fs && fs[path].Directory? && i < |fs[path].entries|
    requires EndsWith(fs[path].entries[i].name, ClassSuffix)
    ensures fs[path].entries[i].name in PathPartClasses(fs, path)
  {
    RootUpToGrows(fs[path], i + 1, |fs[path].entries|);
  }

  lemma {:induction false} RootUpToGrows(root: Node, m: nat, n: nat)
    requires root.Directory? && m <= n <= |root.entries|
    ensures RootClassesUpTo(root, m) <= RootClassesUpTo(root, n)
    decreases n - m
  {
    if m < n {
      RootUpToGrows(root, m, n - 1);
    }
  }

  /**
   * processPathPart: a classpath entry that is a directory contributes its
   * top-level class files by file name and its sub-directories as packages.
   * `fs` maps each path to the file or directory found there.
   */
  method ProcessPathPart(fs: map<string, Node>, path: string, classes: seq<string>) returns (result: seq<string>)
    requires Sorted(classes)
    ensures Sorted(result)
    ensures Elems(result) == Elems(classes) + PathPartClasses(fs, path)
  {
    result := classes;
    if path !in fs || !fs[path].Directory? {
      return;
    }
    var rootFile := fs[path];
    var files := rootFile.entries;
    var i := 0;
    while i < |files|
      invariant i <= |files|
      invariant Sorted(result)
      invariant Elems(result) == Elems(classes) + RootClassesUpTo(rootFile, i)
    {
      var f := files[i];
      if EndsWith(f.name, ClassSuffix) {
        result := Insert(result, f.name);
      }
      if f.Directory? {
        var p := Package(None, f);
        result := Process(p, result);
      }
      i := i + 1;
    }
  }

  // ---------------------------------------------------------------------
  // getAllClassFileNames

  /** The class names of every classpath entry. */
  function AllClasses(fs: map<string, Node>, pathParts: seq<string>): set<string>
  {
    if |pathParts| == 0 then {}
    else AllClasses(fs, pathParts[..|pathParts| - 1]) + PathPartClasses(fs, pathParts[|pathParts| - 1])
  }

  /** Each name followed by '\n'. */
  function ClassListText(names: seq<string>): string
  {
    if |names| == 0 then "" else names[0] + "\n" + ClassListText(names[1..])
  }

  /**
   * getAllClassFileNames: the class names of all classpath entries, sorted
   * and without repeats, each followed by '\n'. `pathParts` is the class
   * path already split at the path separator.
   */
  method GetAllClassFileNames(fs: map<string, Node>, pathParts: seq<string>) returns (list: string)
    ensures exists names :: Sorted(names) && Elems(names) == AllClasses(fs, pathParts)
                            && list == ClassListText(names)
  {
    var classes: seq<string> := [];
    var k := 0;
    while k < |pathParts|
      invariant k <= |pathParts|
      invariant Sorted(classes)
      invariant Elems(classes) == AllClasses(fs, pathParts[..k])
    {
      assert pathParts[..k + 1][..k] == pathParts[..k];
      classes := ProcessPathPart(fs, pathParts[k], classes);
      k := k + 1;
    }
    assert pathParts[..k] == pathParts;
    var sb := "";
    var j := 0;
    while j < |classes|
      invariant j <= |classes|
      invariant sb + ClassListText(classes[j..]) == ClassListText(classes)
    {
      var className := classes[j];
      assert classes[j..] == [className] + classes[j + 1..];
      sb := sb + className + "\n";
      j := j + 1;
    }
    assert classes[j..] == [];
    list := sb;
  }

  // ---------------------------------------------------------------------
  // The class list read back as lines

  /** No `^` between a and b: the lines from a are those from b. */
  lemma {:induction false} LinesSkip(t: string, a: nat, b: nat)
    requires a <= b <= |t|
    requires forall q :: a <= q < b ==> !Caret(t, q)
    ensures LinesFrom(t, a) == LinesFrom(t, b)
    decreases b - a
  {
    if a < b {
      LinesSkip(t, a + 1, b);
    }
  }

  /**
   * Reading the class list back as lines gives the class names: the `^` of
   * each line is at the start of one name, and its `$` right after it.
   */
  lemma ClassListLines(names: seq<string>)
    requires forall n :: n in names ==> SingleLine(n)
    ensures LinesFrom(ClassListText(names), 0) == names
  {
    LinesAfter([], names);
    assert [] + ClassListText(names) == ClassListText(names);
  }

  lemma {:induction false} LinesAfter(x: string, names: seq<string>)
    requires |x| == 0 || x[|x| - 1] == '\n'
    requires forall n :: n in names ==> SingleLine(n)
    ensures LinesFrom(x + ClassListText(names), |x|) == names
    decreases |names|
  {
    var t := x + ClassListText(names);
    if |names| > 0 {
      var c := names[0];
      var x' := x + c + "\n";
      assert t == x' + ClassListText(names[1..]);
      assert t[|x|..|x| + |c|] == c;
      assert Caret(t, |x|);
      assert c in names;
      assert SingleLine(c);
      forall k | |x| <= k < |x| + |c| ensures !IsLineTerminator(t[k]) {
        assert t[k] == c[k - |x|];
      }
      LineEndIsFirst(t, |x|, |x| + |c|);
      forall q | |x| + 1 <= q < |x'| ensures !Caret(t, q) {
        assert t[q - 1] == c[q - 1 - |x|];
      }
      LinesSkip(t, |x| + 1, |x'|);
      LinesAfter(x', names[1..]);
      assert LinesFrom(t, |x|) == [c] + LinesFrom(t, |x| + 1);
      assert names == [c] + names[1..];
    } else {
      assert |t| == |x|;
    }
  }
}
