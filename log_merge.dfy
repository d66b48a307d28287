/**
 * merge_logs (tools/log_tools/logmerger.py): one decorated_log_split
 * generator per file, merged by heapq.merge into a single stream ordered as
 * Python 2 orders the yielded (new_epoch_ms, entry dict) pairs.
 */
module LogMerge {
  import opened Wrappers
  import opened JavaStrings
  import opened PyText
  import opened LogSplit

  // ---------------------------------------------------------------------
  // Python 2 comparison of the yielded pairs

  /**
   * Two entry dicts with the same four keys compare at the smallest key,
   * in the order datetime < filename < message < newdatetime, whose values
   * differ; the str values compare lexicographically.
   */
  predicate EntryLess(x: Entry, y: Entry)
  {
    if x.datetime != y.datetime then Less(x.datetime, y.datetime)
    else if x.filename != y.filename then Less(x.filename, y.filename)
    else if x.message != y.message then Less(x.message, y.message)
    else Less(x.newdatetime, y.newdatetime)
  }

  lemma EntryLessIrreflexive(x: Entry)
    ensures !EntryLess(x, x)
  {
    LessIrreflexive(x.newdatetime);
  }

  lemma EntryLessTransitive(x: Entry, y: Entry, z: Entry)
    requires EntryLess(x, y) && EntryLess(y, z)
    ensures EntryLess(x, z)
  {
    if x.datetime != y.datetime && y.datetime != z.datetime {
      LessTransitive(x.datetime, y.datetime, z.datetime);
      LessIrreflexive(x.datetime);
    } else if x.datetime != y.datetime || y.datetime != z.datetime {
    } else if x.filename != y.filename && y.filename != z.filename {
      LessTransitive(x.filename, y.filename, z.filename);
      LessIrreflexive(x.filename);
    } else if x.filename != y.filename || y.filename != z.filename {
    } else if x.message != y.message && y.message != z.message {
      LessTransitive(x.message, y.message, z.message);
      LessIrreflexive(x.message);
    } else if x.message != y.message || y.message != z.message {
    } else {
      LessTransitive(x.newdatetime, y.newdatetime, z.newdatetime);
    }
  }

  lemma EntryLessTotal(x: Entry, y: Entry)
    requires x != y
    ensures EntryLess(x, y) != EntryLess(y, x)
  {
    if x.datetime != y.datetime {
      LessTotal(x.datetime, y.datetime);
    } else if x.filename != y.filename {
      LessTotal(x.filename, y.filename);
    } else if x.message != y.message {
      LessTotal(x.message, y.message);
    } else {
      LessTotal(x.newdatetime, y.newdatetime);
    }
  }

  /** (key, dict) < (key', dict'): None is below every number; equal keys defer to the dicts. */
  predicate ItemLess(x: Item, y: Item)
  {
    match x
    case NoTimestamp => y.Stamped?
    case Stamped(k, e) => y.Stamped? && (k < y.key || (k == y.key && EntryLess(e, y.entry)))
  }

  lemma ItemLessIrreflexive(x: Item)
    ensures !ItemLess(x, x)
  {
    if x.Stamped? {
      EntryLessIrreflexive(x.entry);
    }
  }

  lemma ItemLessTransitive(x: Item, y: Item, z: Item)
    requires ItemLess(x, y) && ItemLess(y, z)
    ensures ItemLess(x, z)
  {
    if x.Stamped? && x.key == y.key == z.key {
      EntryLessTransitive(x.entry, y.entry, z.entry);
    }
  }

  lemma ItemLessTotal(x: Item, y: Item)
    requires x != y
    ensures ItemLess(x, y) != ItemLess(y, x)
  {
    if x.Stamped? && y.Stamped? && x.key == y.key {
      EntryLessTotal(x.entry, y.entry);
    }
  }

  /**
   * heapq.merge keeps [value, stream number] in its heap, so of two equal
   * heads the one from the earlier stream comes out first.
   */
  predicate Before(x: Item, i: nat, y: Item, j: nat)
  {
    ItemLess(x, y) || (x == y && i < j)
  }

  lemma BeforeTransitive(x: Item, i: nat, y: Item, j: nat, z: Item, k: nat)
    requires Before(x, i, y, j) && Before(y, j, z, k)
    ensures Before(x, i, z, k)
  {
    if ItemLess(x, y) && ItemLess(y, z) {
      ItemLessTransitive(x, y, z);
    }
  }

  lemma BeforeTotal(x: Item, i: nat, y: Item, j: nat)
    requires i != j
    ensures Before(x, i, y, j) != Before(y, j, x, i)
  {
    if x == y {
      ItemLessIrreflexive(x);
    } else {
      ItemLessTotal(x, y);
    }
  }

  // ---------------------------------------------------------------------
  // heapq.merge

  /** The number of the stream at or after `from` whose head heapq.merge yields next. */
  function Pick(streams: seq<seq<Item>>, from: nat): (r: Option<nat>)
    requires from <= |streams|
    ensures r.None? <==> forall j :: from <= j < |streams| ==> |streams[j]| == 0
    ensures r.Some? ==> from <= r.value < |streams| && |streams[r.value]| > 0
    ensures r.Some? ==> forall j :: from <= j < |streams| && |streams[j]| > 0 && j != r.value ==>
      Before(streams[r.value][0], r.value, streams[j][0], j)
    decreases |streams| - from
  {
    if from == |streams| then None
    else
      var rest := Pick(streams, from + 1);
      if |streams[from]| == 0 then rest
      else if rest.None? then Some(from)
      else if Before(streams[rest.value][0], rest.value, streams[from][0], from) then rest
      else
        var p := rest.value;
        BeforeTotal(streams[p][0], p, streams[from][0], from);
        assert forall j :: from < j < |streams| && |streams[j]| > 0 && j != p ==>
          Before(streams[from][0], from, streams[j][0], j) by {
          forall j | from < j < |streams| && |streams[j]| > 0 && j != p
            ensures Before(streams[from][0], from, streams[j][0], j)
          {
            BeforeTransitive(streams[from][0], from, streams[p][0], p, streams[j][0], j);
          }
        }
        Some(from)
  }

  /** Every item of every stream, with its multiplicity. */
  function Bag(streams: seq<seq<Item>>): multiset<Item>
  {
    if |streams| == 0 then multiset{} else multiset(streams[0]) + Bag(streams[1..])
  }

  lemma {:induction false} BagUpdate(streams: seq<seq<Item>>, i: nat, t: seq<Item>)
    requires i < |streams|
    ensures Bag(streams[i := t]) + multiset(streams[i]) == Bag(streams) + multiset(t)
    decreases |streams|
  {
    if i == 0 {
      assert streams[i := t][1..] == streams[1..];
    } else {
      var u := streams[i := t];
      assert u[0] == streams[0] && u[1..] == streams[1..][i - 1 := t];
      assert streams[1..][i - 1] == streams[i];
      BagUpdate(streams[1..], i - 1, t);
      calc {
        Bag(u) + multiset(streams[i]);
        (multiset(streams[0]) + Bag(streams[1..][i - 1 := t])) + multiset(streams[i]);
        multiset(streams[0]) + (Bag(streams[1..][i - 1 := t]) + multiset(streams[i]));
        multiset(streams[0]) + (Bag(streams[1..]) + multiset(t));
        (multiset(streams[0]) + Bag(streams[1..])) + multiset(t);
      }
    }
  }

  lemma {:induction false} BagEmpty(streams: seq<seq<Item>>)
    requires forall j :: 0 <= j < |streams| ==> |streams[j]| == 0
    ensures Bag(streams) == multiset{}
    decreases |streams|
  {
    if |streams| > 0 {
      BagEmpty(streams[1..]);
    }
  }

  lemma {:induction false} BagMember(streams: seq<seq<Item>>, x: Item)
    requires x in Bag(streams)
    ensures exists j, k :: 0 <= j < |streams| && 0 <= k < |streams[j]| && streams[j][k] == x
    decreases |streams|
  {
    if x in multiset(streams[0]) {
      var k :| 0 <= k < |streams[0]| && streams[0][k] == x;
      assert streams[0][k] == x;
    } else {
      BagMember(streams[1..], x);
      var j, k :| 0 <= j < |streams[1..]| && 0 <= k < |streams[1..][j]| && streams[1..][j][k] == x;
      assert streams[j + 1][k] == x;
    }
  }

  /** Taking the head off stream i leaves the other items. */
  lemma BagTake(streams: seq<seq<Item>>, i: nat)
    requires i < |streams| && |streams[i]| > 0
    ensures Bag(streams) == multiset{streams[i][0]} + Bag(streams[i := streams[i][1..]])
    ensures |Bag(streams[i := streams[i][1..]])| < |Bag(streams)|
  {
    var s := streams[i];
    BagUpdate(streams, i, s[1..]);
    assert s == [s[0]] + s[1..];
    assert multiset(s) == multiset{s[0]} + multiset(s[1..]);
    var rest := Bag(streams[i := s[1..]]);
    forall x ensures Bag(streams)[x] == (multiset{s[0]} + rest)[x] {
      assert (rest + multiset(s))[x] == (Bag(streams) + multiset(s[1..]))[x];
    }
  }

  /**
   * The stream heapq.merge yields: repeatedly the least head, taken off
   * its stream; it holds exactly the items of all the streams.
   */
  function Merge(streams: seq<seq<Item>>): (r: seq<Item>)
    ensures multiset(r) == Bag(streams)
    decreases |Bag(streams)|
  {
    match Pick(streams, 0)
    case None =>
      BagEmpty(streams);
      []
    case Some(i) =>
      var s := streams[i];
      BagTake(streams, i);
      [s[0]] + Merge(streams[i := s[1..]])
  }

  /** x's key is at most y's, None being the least key. */
  predicate KeyLe(x: Item, y: Item)
  {
    x.NoTimestamp? || (y.Stamped? && x.key <= y.key)
  }

  predicate KeySorted(s: seq<Item>)
  {
    forall i, j :: 0 <= i < j < |s| ==> KeyLe(s[i], s[j])
  }

  lemma BeforeKeyLe(x: Item, i: nat, y: Item, j: nat)
    requires Before(x, i, y, j)
    ensures KeyLe(x, y)
  {
  }

  lemma SortedCons(x: Item, m: seq<Item>)
    requires KeySorted(m) && forall y :: y in m ==> KeyLe(x, y)
    ensures KeySorted([x] + m)
  {
    var s := [x] + m;
    forall i, j | 0 <= i < j < |s| ensures KeyLe(s[i], s[j]) {
      if i > 0 {
        assert s[i] == m[i - 1] && s[j] == m[j - 1];
      } else {
        assert s[j] == m[j - 1] && s[j] in m;
      }
    }
  }

  lemma TakeSorted(streams: seq<seq<Item>>, i: nat, next: seq<seq<Item>>)
    requires i < |streams| && |streams[i]| > 0 && next == streams[i := streams[i][1..]]
    requires forall j :: 0 <= j < |streams| ==> KeySorted(streams[j])
    ensures forall j :: 0 <= j < |next| ==> KeySorted(next[j])
  {
    var s := streams[i];
    forall a, b | 0 <= a < b < |s[1..]| ensures KeyLe(s[1..][a], s[1..][b]) {
      assert s[1..][a] == s[a + 1] && s[1..][b] == s[b + 1];
    }
  }

  /** The head heapq.merge takes is at most every item left in the streams. */
  lemma PickedBelow(streams: seq<seq<Item>>, i: nat, next: seq<seq<Item>>, y: Item)
    requires i < |streams| && |streams[i]| > 0 && next == streams[i := streams[i][1..]]
    requires forall j :: 0 <= j < |streams| && |streams[j]| > 0 && j != i ==>
      Before(streams[i][0], i, streams[j][0], j)
    requires forall j :: 0 <= j < |streams| ==> KeySorted(streams[j])
    requires y in Bag(next)
    ensures KeyLe(streams[i][0], y)
  {
    var s := streams[i];
    BagMember(next, y);
    var j, k :| 0 <= j < |next| && 0 <= k < |next[j]| && next[j][k] == y;
    if j == i {
      assert next[j] == s[1..];
      assert KeyLe(s[0], s[k + 1]);
    } else {
      assert next[j] == streams[j];
      BeforeKeyLe(s[0], i, streams[j][0], j);
      assert KeyLe(streams[j][0], y) by {
        if k > 0 {
          assert KeyLe(streams[j][0], streams[j][k]);
        }
      }
    }
  }

  /** heapq.merge's promise: streams sorted by key merge into a stream sorted by key. */
  lemma {:induction false} MergeSorted(streams: seq<seq<Item>>)
    requires forall j :: 0 <= j < |streams| ==> KeySorted(streams[j])
    ensures KeySorted(Merge(streams))
    decreases |Bag(streams)|
  {
    match Pick(streams, 0)
    case None =>
    case Some(i) =>
      var s := streams[i];
      var next := streams[i := s[1..]];
      BagTake(streams, i);
      TakeSorted(streams, i, next);
      MergeSorted(next);
      var m := Merge(next);
      forall y | y in m ensures KeyLe(s[0], y) {
        assert y in multiset(m);
        PickedBelow(streams, i, next, y);
      }
      assert Merge(streams) == [s[0]] + m;
      SortedCons(s[0], m);
  }

  /** An item with no timestamp at the head of any stream is the first item merged. */
  lemma NoTimestampFirst(streams: seq<seq<Item>>, j: nat)
    requires j < |streams| && |streams[j]| > 0 && streams[j][0] == NoTimestamp
    ensures |Merge(streams)| > 0 && Merge(streams)[0] == NoTimestamp
  {
    var p := Pick(streams, 0);
    assert p.Some?;
  }

  // ---------------------------------------------------------------------
  // merge_logs

  /** A file's generator fails exactly when the file is empty. */
  lemma SplitFails(f: LogFile, offset: int, env: Env)
    ensures Split(f, offset, env).Err? <==> f.content == ""
  {
    var lines := PyLines(f.content);
    if |lines| == 0 {
      assert Concat(lines) == "";
    } else {
      assert Concat(lines) == lines[0] + Concat(lines[1..]);
    }
  }

  /**
   * The generators heapq.merge receives; it primes each of them before
   * yielding anything, so one empty file ends the merge.
   */
  function Streams(files: seq<LogFile>, offsets: map<string, int>, env: Env): (r: Result<seq<seq<Item>>, PyError>)
    requires forall j :: 0 <= j < |files| ==> files[j].name in offsets
    ensures r.Err? <==> exists j :: 0 <= j < |files| && files[j].content == ""
    ensures r.Err? ==> r.error == UnboundLocalError
    ensures r.Ok? ==> |r.value| == |files|
    ensures r.Ok? ==> forall j :: 0 <= j < |files| ==> Split(files[j], offsets[files[j].name], env) == Ok(r.value[j])
  {
    if exists j :: 0 <= j < |files| && files[j].content == "" then Err(UnboundLocalError)
    else
      assert forall j :: 0 <= j < |files| ==> Split(files[j], offsets[files[j].name], env).Ok? by {
        forall j | 0 <= j < |files| ensures Split(files[j], offsets[files[j].name], env).Ok? {
          SplitFails(files[j], offsets[files[j].name], env);
        }
      }
      Ok(seq(|files|, j requires 0 <= j < |files| => Split(files[j], offsets[files[j].name], env).value))
  }

  /**
   * merge_logs(files, offsets): every offsets[f.name] is looked up (KeyError)
   * before heapq.merge primes the generators (UnboundLocalError for an empty
   * file); otherwise the merged stream.
   */
  function MergeLogs(files: seq<LogFile>, offsets: map<string, int>, env: Env): (r: Result<seq<Item>, PyError>)
    ensures r.Err? <==> exists j :: 0 <= j < |files| && (files[j].name !in offsets || files[j].content == "")
    ensures r.Err? && (exists j :: 0 <= j < |files| && files[j].name !in offsets) ==> r.error == KeyError
    ensures r.Err? && (forall j :: 0 <= j < |files| ==> files[j].name in offsets) ==> r.error == UnboundLocalError
  {
    if exists j :: 0 <= j < |files| && files[j].name !in offsets then Err(KeyError)
    else
      match Streams(files, offsets, env)
      case Err(e) => Err(e)
      case Ok(streams) => Ok(Merge(streams))
  }

  /** What every file's generator yields, when none fails. */
  predicate SplitsTo(files: seq<LogFile>, offsets: map<string, int>, env: Env, streams: seq<seq<Item>>)
  {
    && |streams| == |files|
    && forall j :: 0 <= j < |files| ==>
         files[j].name in offsets && Split(files[j], offsets[files[j].name], env) == Ok(streams[j])
  }

  lemma StreamsSplit(files: seq<LogFile>, offsets: map<string, int>, env: Env)
    requires forall j :: 0 <= j < |files| ==> files[j].name in offsets && files[j].content != ""
    ensures Streams(files, offsets, env).Ok? && SplitsTo(files, offsets, env, Streams(files, offsets, env).value)
  {
  }

  /** merge_logs yields every item of every file's generator, each once. */
  lemma MergeLogsPermutes(files: seq<LogFile>, offsets: map<string, int>, env: Env, streams: seq<seq<Item>>)
    requires SplitsTo(files, offsets, env, streams)
    ensures MergeLogs(files, offsets, env) == Ok(Merge(streams))
    ensures multiset(Merge(streams)) == Bag(streams)
  {
    forall j | 0 <= j < |files| ensures files[j].content != "" {
      SplitFails(files[j], offsets[files[j].name], env);
    }
    var r := Streams(files, offsets, env);
    assert r.value == streams;
  }

  /** When every file's entries come in key order, merge_logs yields them in key order. */
  lemma MergeLogsSorted(files: seq<LogFile>, offsets: map<string, int>, env: Env, streams: seq<seq<Item>>)
    requires SplitsTo(files, offsets, env, streams)
    requires forall j :: 0 <= j < |streams| ==> KeySorted(streams[j])
    ensures MergeLogs(files, offsets, env).Ok? && KeySorted(MergeLogs(files, offsets, env).value)
  {
    MergeLogsPermutes(files, offsets, env, streams);
    MergeSorted(streams);
  }

  /** Some line of the file is a timestamp line. */
  predicate HasStampLine(f: LogFile)
  {
    exists i :: 0 <= i < |PyLines(f.content)| && IsStampLine(PyLines(f.content)[i])
  }

  /** Every file has an offset and some content. */
  predicate Readable(files: seq<LogFile>, offsets: map<string, int>)
  {
    forall j :: 0 <= j < |files| ==> files[j].name in offsets && files[j].content != ""
  }

  /** A non-empty file without a timestamp line yields only (None, {}). */
  lemma UnstampedSplit(f: LogFile, offset: int, env: Env)
    requires f.content != "" && !HasStampLine(f)
    ensures Split(f, offset, env) == Ok([NoTimestamp])
  {
    SplitFails(f, offset, env);
    var lines := PyLines(f.content);
    var S := Stamps(Parse(lines), |lines|);
    if |S| > 0 {
      StampsAreTimestampLines(lines, S[0]);
    }
  }

  /** A file with a timestamp line yields only timestamped entries. */
  lemma StampedSplit(f: LogFile, offset: int, env: Env)
    requires HasStampLine(f)
    ensures Split(f, offset, env).Ok?
    ensures forall i :: 0 <= i < |Split(f, offset, env).value| ==> Split(f, offset, env).value[i].Stamped?
  {
    var lines := PyLines(f.content);
    var n :| 0 <= n < |lines| && IsStampLine(lines[n]);
    StampsAreTimestampLines(lines, n);
  }

  /** A non-empty file without a timestamp line makes merge_logs yield (None, {}) first. */
  lemma MergeLogsNoTimestamp(files: seq<LogFile>, offsets: map<string, int>, env: Env, j: nat)
    requires Readable(files, offsets)
    requires j < |files| && !HasStampLine(files[j])
    ensures MergeLogs(files, offsets, env).Ok?
    ensures |MergeLogs(files, offsets, env).value| > 0 && MergeLogs(files, offsets, env).value[0] == NoTimestamp
  {
    StreamsSplit(files, offsets, env);
    var streams := Streams(files, offsets, env).value;
    MergeLogsPermutes(files, offsets, env, streams);
    UnstampedSplit(files[j], offsets[files[j].name], env);
    NoTimestampFirst(streams, j);
  }

  /** When every file has a timestamp line, merge_logs yields only timestamped entries. */
  lemma MergeLogsAllStamped(files: seq<LogFile>, offsets: map<string, int>, env: Env)
    requires Readable(files, offsets)
    requires forall j :: 0 <= j < |files| ==> HasStampLine(files[j])
    ensures MergeLogs(files, offsets, env).Ok?
    ensures forall k :: 0 <= k < |MergeLogs(files, offsets, env).value| ==> MergeLogs(files, offsets, env).value[k].Stamped?
  {
    StreamsSplit(files, offsets, env);
    var streams := Streams(files, offsets, env).value;
    MergeLogsPermutes(files, offsets, env, streams);
    var m := Merge(streams);
    forall k | 0 <= k < |m| ensures m[k].Stamped? {
      assert m[k] in multiset(m);
      BagMember(streams, m[k]);
      var j, i :| 0 <= j < |streams| && 0 <= i < |streams[j]| && streams[j][i] == m[k];
      StampedSplit(files[j], offsets[files[j].name], env);
    }
  }
}
