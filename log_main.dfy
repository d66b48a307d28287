/**
 * The log merger's command line (tools/log_tools/logmerger.py): the
 * --tzoffset and --exclude option callbacks, the exclude list read from
 * the exclude file, and the main loop that drops excluded entries and
 * prints the others as tab-separated lines.
 */
module LogMain {
  import opened Wrappers
  import opened JavaStrings
  import opened PyText
  import opened LogSplit
  import opened LogMerge

  // ---------------------------------------------------------------------
  // --tzoffset

  /**
   * The match of `(\+?-?\d{1,2}):(\d{2})` at the start of value, as its two
   * groups. No backtracking can help: dropping a '+' or '-' leaves it where
   * a digit is needed, and one digit where two matched leaves a digit where
   * ':' is needed.
   */
  function TzMatch(value: string): (r: Option<(string, string)>)
    ensures r.Some? ==> |r.value.1| == 2 && AllDigits(r.value.1)
  {
    var i1 := SignEnd(value);
    var n := DigitRun(value, i1, 2);
    var c := i1 + n;
    if n > 0 && c < |value| && value[c] == ':' && DigitsAt(value, c + 1, 2) then
      Some((value[..c], value[c + 1..c + 3]))
    else None
  }

  /** Where the hours start: past an optional '+', then an optional '-'. */
  function SignEnd(value: string): (i: nat)
    ensures i <= |value|
  {
    var i0 := if |value| > 0 && value[0] == '+' then 1 else 0;
    if i0 < |value| && value[i0] == '-' then i0 + 1 else i0
  }

  lemma SignEndOf(sign: string, tail: string)
    requires sign == "" || sign == "+" || sign == "-" || sign == "+-"
    requires |tail| > 0 && IsDigit(tail[0])
    ensures SignEnd(sign + tail) == |sign|
  {
    assert (sign + tail)[|sign|] == tail[0];
  }

  /**
   * tz_offset_callback: the offset in milliseconds, as the string stored in
   * options.tzoffset. A value that does not match raises NameError, because
   * OptionValueError is not imported; "+-" before the hours makes int()
   * raise ValueError.
   */
  function TzOffsetCallback(value: string): (r: Result<string, PyError>)
    ensures r.Err? ==> r.error == NameError || r.error == ValueError
    ensures r == Err(NameError) <==> forall sign, hh, mm, rest :: !OffsetForm(value, sign, hh, mm, rest)
    ensures r == Err(ValueError) <==> exists hh, mm, rest :: OffsetForm(value, "+-", hh, mm, rest)
  {
    match TzMatch(value)
    case None =>
      UnmatchedOutcome(value);
      Err(NameError)
    case Some((hours, minutes)) =>
      MatchedOutcome(value);
      match PyInt(hours)
      case Err(e) => Err(e)
      case Ok(h) => Ok(IntToString(h * 60 * 60 * 1000 + PyInt(minutes).value * 60 * 1000))
  }

  /**
   * value starts with what offset_re matches: an optional '+', an optional
   * '-', one or two digits, ':' and two digits; `rest` is what follows.
   */
  predicate OffsetForm(value: string, sign: string, hh: string, mm: string, rest: string)
  {
    && (sign == "" || sign == "+" || sign == "-" || sign == "+-")
    && 1 <= |hh| <= 2 && AllDigits(hh) && |mm| == 2 && AllDigits(mm)
    && value == sign + hh + ":" + mm + rest
  }

  /** Every value of that form matches, with the sign kept in the hours group. */
  lemma TzMatchForms(value: string)
    ensures forall sign, hh, mm, rest :: OffsetForm(value, sign, hh, mm, rest) ==> TzMatch(value) == Some((sign + hh, mm))
  {
    forall sign, hh, mm, rest | OffsetForm(value, sign, hh, mm, rest)
      ensures TzMatch(value) == Some((sign + hh, mm))
    {
      TzMatchAccepts(sign, hh, mm, rest);
    }
  }

  /** A value that matches has that form: the sign, the hours, the minutes and what follows. */
  lemma TzMatchShape(value: string)
    requires TzMatch(value).Some?
    ensures var i := SignEnd(value); var hours := TzMatch(value).value.0;
      i < |hours| && |hours| + 3 <= |value| && hours == value[..i] + value[i..|hours|]
      && OffsetForm(value, value[..i], value[i..|hours|], TzMatch(value).value.1, value[|hours| + 3..])
  {
    var i := SignEnd(value);
    var n := DigitRun(value, i, 2);
    var c := i + n;
    assert value[..i] == "" || value[..i] == "+" || value[..i] == "-" || value[..i] == "+-" by {
      if i == 1 {
        assert value[..1] == [value[0]];
      } else if i == 2 {
        assert value[..2] == [value[0], value[1]];
      }
    }
    assert value[i..c] == value[i..i + n];
    assert value[..c] == value[..i] + value[i..c];
    assert value == value[..i] + value[i..c] + ":" + value[c + 1..c + 3] + value[c + 3..];
  }

  /** A value that does not match has no part of that form. */
  lemma UnmatchedOutcome(value: string)
    requires TzMatch(value).None?
    ensures forall sign, hh, mm, rest :: !OffsetForm(value, sign, hh, mm, rest)
  {
    TzMatchForms(value);
  }

  /** A value that matches has that form, and int() of its hours fails exactly for the sign "+-". */
  lemma MatchedOutcome(value: string)
    requires TzMatch(value).Some?
    ensures exists sign, hh, mm, rest :: OffsetForm(value, sign, hh, mm, rest)
    ensures PyInt(TzMatch(value).value.0).Err? <==> exists hh, mm, rest :: OffsetForm(value, "+-", hh, mm, rest)
    ensures PyInt(TzMatch(value).value.0).Err? ==> PyInt(TzMatch(value).value.0) == Err(ValueError)
  {
    TzMatchShape(value);
    var i := SignEnd(value);
    var hours := TzMatch(value).value.0;
    var sign, hh, mm, rest := value[..i], value[i..|hours|], TzMatch(value).value.1, value[|hours| + 3..];
    assert OffsetForm(value, sign, hh, mm, rest);
    HoursInt(sign, hh);
    if PyInt(hours).Err? {
      assert OffsetForm(value, "+-", hh, mm, rest);
    }
    if exists hh', mm', rest' :: OffsetForm(value, "+-", hh', mm', rest') {
      var hh', mm', rest' :| OffsetForm(value, "+-", hh', mm', rest');
      TzMatchAccepts("+-", hh', mm', rest');
      HoursInt("+-", hh');
    }
  }

  /** int() of the hours group fails exactly when the sign is "+-". */
  lemma HoursInt(sign: string, hh: string)
    requires sign == "" || sign == "+" || sign == "-" || sign == "+-"
    requires 1 <= |hh| && AllDigits(hh)
    ensures PyInt(sign + hh).Err? <==> sign == "+-"
  {
    if sign == "+-" {
      assert (sign + hh)[1] == '-';
    } else {
      PyIntSigned(sign, hh);
    }
  }

  /** The signed hours and the minutes of an offset, in milliseconds. */
  function OffsetMs(negative: bool, hh: string, mm: string): int
    requires AllDigits(hh) && AllDigits(mm)
  {
    (if negative then -(DigitsValue(hh) as int) else DigitsValue(hh)) * 3600000 + DigitsValue(mm) * 60000
  }

  lemma DigitRunExact(value: string, i: nat, hh: string)
    requires 1 <= |hh| <= 2 && AllDigits(hh)
    requires i + |hh| < |value| && value[i..i + |hh|] == hh && value[i + |hh|] == ':'
    ensures DigitRun(value, i, 2) == |hh|
  {
  }

  /** The regular expression matches sign, hours, ':' and minutes, whatever follows. */
  lemma TzMatchAccepts(sign: string, hh: string, mm: string, rest: string)
    requires sign == "" || sign == "+" || sign == "-" || sign == "+-"
    requires 1 <= |hh| <= 2 && AllDigits(hh) && |mm| == 2 && AllDigits(mm)
    ensures TzMatch(sign + hh + ":" + mm + rest) == Some((sign + hh, mm))
  {
    var tail := hh + ":" + mm + rest;
    assert sign + hh + ":" + mm + rest == sign + tail;
    assert tail[..|hh|] == hh && tail[|hh|] == ':' && tail[|hh| + 1..|hh| + 3] == mm;
    SignEndOf(sign, tail);
    SignedTail(sign, tail, hh, mm);
  }

  lemma SignedTail(sign: string, tail: string, hh: string, mm: string)
    requires SignEnd(sign + tail) == |sign|
    requires 1 <= |hh| <= 2 && AllDigits(hh) && |mm| == 2 && AllDigits(mm)
    requires |hh| + 3 <= |tail| && tail[..|hh|] == hh && tail[|hh|] == ':' && tail[|hh| + 1..|hh| + 3] == mm
    ensures TzMatch(sign + tail) == Some((sign + hh, mm))
  {
    var value := sign + tail;
    var c := |sign| + |hh|;
    assert value[|sign|..] == tail;
    assert value[|sign|..c] == hh && value[c] == ':' && value[c + 1..c + 3] == mm;
    TzMatchAt(value, |sign|, hh, mm);
    assert value[..c] == sign + hh;
  }

  /** Hours, ':' and minutes right after the sign: the match takes them. */
  lemma TzMatchAt(value: string, i: nat, hh: string, mm: string)
    requires SignEnd(value) == i
    requires 1 <= |hh| <= 2 && AllDigits(hh) && |mm| == 2 && AllDigits(mm)
    requires i + |hh| + 3 <= |value| && value[i..i + |hh|] == hh && value[i + |hh|] == ':'
    requires value[i + |hh| + 1..i + |hh| + 3] == mm
    ensures TzMatch(value) == Some((value[..i + |hh|], mm))
  {
    DigitRunExact(value, i, hh);
  }

  lemma PyIntSigned(sign: string, hh: string)
    requires sign == "" || sign == "+" || sign == "-"
    requires 1 <= |hh| && AllDigits(hh)
    ensures PyInt(sign + hh) == Ok(if sign == "-" then -(DigitsValue(hh) as int) else DigitsValue(hh))
  {
    if sign != "" {
      assert (sign + hh)[1..] == hh;
      assert (sign + hh)[0] == sign[0];
    } else {
      assert sign + hh == hh;
    }
  }

  /** "[+|-]h:mm" and "[+|-]hh:mm", with anything after, give the signed offset. */
  lemma TzOffsetAccepts(sign: string, hh: string, mm: string, rest: string)
    requires sign == "" || sign == "+" || sign == "-"
    requires 1 <= |hh| <= 2 && AllDigits(hh) && |mm| == 2 && AllDigits(mm)
    ensures TzOffsetCallback(sign + hh + ":" + mm + rest) == Ok(IntToString(OffsetMs(sign == "-", hh, mm)))
  {
    TzMatchAccepts(sign, hh, mm, rest);
    PyIntSigned(sign, hh);
    TzOffsetOfMatch(sign + hh + ":" + mm + rest, sign + hh, mm,
                    if sign == "-" then -(DigitsValue(hh) as int) else DigitsValue(hh));
  }

  /** Once the match and int() of the hours succeed, the callback yields the offset. */
  lemma TzOffsetOfMatch(value: string, hours: string, minutes: string, h: int)
    requires TzMatch(value) == Some((hours, minutes)) && PyInt(hours) == Ok(h)
    ensures TzOffsetCallback(value) == Ok(IntToString(h * 3600000 + DigitsValue(minutes) * 60000))
  {
    assert PyInt(minutes) == Ok(DigitsValue(minutes));
  }

  /** A '+' before a '-' passes the match but not int(). */
  lemma TzOffsetPlusMinus(hh: string, mm: string, rest: string)
    requires 1 <= |hh| <= 2 && AllDigits(hh) && |mm| == 2 && AllDigits(mm)
    ensures TzOffsetCallback("+-" + hh + ":" + mm + rest) == Err(ValueError)
  {
    TzMatchAccepts("+-", hh, mm, rest);
    assert ("+-" + hh)[1] == '-';
  }

  /** Without a ':' there is no match. */
  lemma TzOffsetNeedsColon(value: string)
    requires ':' !in value
    ensures TzOffsetCallback(value) == Err(NameError)
  {
  }

  /** The stored offset always passes main's int(options.tzoffset), giving the same number. */
  lemma TzOffsetParses(value: string)
    requires TzOffsetCallback(value).Ok?
    ensures exists ms :: TzOffsetCallback(value).value == IntToString(ms) && PyInt(TzOffsetCallback(value).value) == Ok(ms)
  {
    var (hours, minutes) := TzMatch(value).value;
    var ms := PyInt(hours).value * 60 * 60 * 1000 + PyInt(minutes).value * 60 * 1000;
    IntToStringRoundTrip(ms);
  }

  /** offsets[f.name] = int(options.tzoffset) for every input file. */
  function Offsets(files: seq<LogFile>, tz: int): (m: map<string, int>)
    ensures forall j :: 0 <= j < |files| ==> files[j].name in m && m[files[j].name] == tz
    ensures forall n :: n in m ==> exists j :: 0 <= j < |files| && files[j].name == n
  {
    if |files| == 0 then map[]
    else
      var m := Offsets(files[..|files| - 1], tz);
      assert forall j :: 0 <= j < |files| - 1 ==> files[..|files| - 1][j] == files[j];
      m[files[|files| - 1].name := tz]
  }

  // ---------------------------------------------------------------------
  // --exclude and the exclude file

  /** exclude_callback: "none" in any case means no exclude file. */
  function ExcludeCallback(value: string): (r: string)
    ensures r == "" <==>
      (value == "" || (|value| == 4 && forall i :: 0 <= i < 4 ==> value[i] == "none"[i] || value[i] == "NONE"[i]))
    ensures r != "" ==> r == value
  {
    LowerIsNone(value);
    if Lower(value) == "none" then "" else value
  }

  /** The patterns of the exclude file: every line not starting with '#', right-stripped. */
  function ExcludeList(lines: seq<string>): (r: seq<string>)
    requires forall j :: 0 <= j < |lines| ==> |lines[j]| > 0
    ensures |r| <= |lines|
    ensures forall p :: p in r <==> exists j :: 0 <= j < |lines| && lines[j][0] != '#' && RStrip(lines[j]) == p
    ensures forall k :: 0 <= k < |r| ==> |r[k]| == 0 || !IsSpace(r[k][|r[k]| - 1])
  {
    if |lines| == 0 then []
    else
      var rest := ExcludeList(lines[1..]);
      assert forall j :: 1 <= j < |lines| ==> lines[1..][j - 1] == lines[j];
      if lines[0][0] != '#' then [RStrip(lines[0])] + rest else rest
  }

  /** excludes: empty when there is no exclude file, otherwise the file's patterns. */
  function Excludes(excludeFile: string, content: string): (r: seq<string>)
    ensures excludeFile == "" ==> r == []
    ensures excludeFile != "" ==> r == ExcludeList(PyLines(content))
  {
    if excludeFile == "" then [] else ExcludeList(PyLines(content))
  }

  /** A comment line contributes no pattern; any other line contributes itself, right-stripped. */
  lemma ExcludeLineKept(a: seq<string>, line: string, b: seq<string>)
    requires |line| > 0
    requires forall j :: 0 <= j < |a| ==> |a[j]| > 0
    requires forall j :: 0 <= j < |b| ==> |b[j]| > 0
    ensures line[0] == '#' ==> ExcludeList(a + [line] + b) == ExcludeList(a) + ExcludeList(b)
    ensures line[0] != '#' ==> RStrip(line) in ExcludeList(a + [line] + b)
  {
    assert a + [line] + b == a + ([line] + b);
    ExcludeListAppend(a, [line] + b);
    assert ([line] + b)[1..] == b;
    assert ExcludeList([line] + b) == (if line[0] != '#' then [RStrip(line)] else []) + ExcludeList(b);
  }

  lemma {:induction false} ExcludeListAppend(a: seq<string>, b: seq<string>)
    requires forall j :: 0 <= j < |a| ==> |a[j]| > 0
    requires forall j :: 0 <= j < |b| ==> |b[j]| > 0
    ensures ExcludeList(a + b) == ExcludeList(a) + ExcludeList(b)
    decreases |a|
  {
    if |a| == 0 {
      assert a + b == b;
    } else {
      assert (a + b)[1..] == a[1..] + b;
      ExcludeListAppend(a[1..], b);
    }
  }

  // ---------------------------------------------------------------------
  // The main loop

  /** re.search(e, message) finds pattern e somewhere in the message. */
  predicate Occurs(message: string, pattern: string)
  {
    exists p :: 0 <= p <= |message| && OccursAt(message, pattern, p)
  }

  /** Some non-empty exclude pattern occurs in the message. */
  predicate Dropped(excludes: seq<string>, message: string)
  {
    exists k :: 0 <= k < |excludes| && |excludes[k]| > 0 && Occurs(message, excludes[k])
  }

  /** The exclude loop: the first match of a non-empty pattern, if any. */
  method IsExcluded(excludes: seq<string>, message: string) returns (ematch: Option<nat>)
    ensures ematch.Some? <==> Dropped(excludes, message)
    ensures ematch.Some? ==> exists k :: 0 <= k < |excludes| && |excludes[k]| > 0 && OccursAt(message, excludes[k], ematch.value)
  {
    ematch := None;
    var k := 0;
    while k < |excludes|
      invariant 0 <= k <= |excludes|
      invariant ematch.None? ==> forall q :: 0 <= q < k && |excludes[q]| > 0 ==> !Occurs(message, excludes[q])
      invariant ematch.Some? ==> k < |excludes| && |excludes[k]| > 0 && OccursAt(message, excludes[k], ematch.value)
    {
      var e := excludes[k];
      if |e| > 0 {
        ematch := Search(message, e);
        if ematch.Some? {
          break;
        }
        assert !Occurs(message, e) by {
          forall p | 0 <= p <= |message| ensures !OccursAt(message, e, p) {
            if p < |message| {
            }
          }
        }
      }
      k := k + 1;
    }
  }

  /** new_logline: the new timestamp, the file name and the message, tab-separated. */
  function OutputLine(e: Entry): string
  {
    e.newdatetime + "\t" + e.filename + "\t" + e.message
  }

  /** The three tab-separated columns of an output line: up to the first tab, up to the second, the rest. */
  function Columns(line: string): (r: Option<(string, string, string)>)
  {
    var i := IndexOf(line, '\t');
    if i < 0 then None
    else
      var rest := line[i + 1..];
      var j := IndexOf(rest, '\t');
      if j < 0 then None else Some((line[..i], rest[..j], rest[j + 1..]))
  }

  lemma TabAt(s: string, a: string)
    requires |a| < |s| && s[..|a|] == a && s[|a|] == '\t' && '\t' !in a
    ensures IndexOf(s, '\t') == |a|
  {
    var r := IndexOf(s, '\t');
    assert forall k :: 0 <= k < |a| ==> s[k] == a[k];
    assert forall k :: 0 <= k < r ==> s[..r][k] == s[k];
  }

  /** An output line gives its three fields back when the timestamp and file name hold no tab. */
  lemma ColumnsOfOutputLine(e: Entry)
    requires '\t' !in e.newdatetime && '\t' !in e.filename
    ensures Columns(OutputLine(e)) == Some((e.newdatetime, e.filename, e.message))
  {
    var tail := e.filename + "\t" + e.message;
    assert OutputLine(e) == e.newdatetime + "\t" + tail;
    TabSplit(e.newdatetime, tail);
    TabSplit(e.filename, e.message);
  }

  /** A string whose first tab follows `a` splits there into `a` and what follows. */
  lemma TabSplit(a: string, b: string)
    requires '\t' !in a
    ensures var s := a + "\t" + b;
      IndexOf(s, '\t') == |a| && s[..|a|] == a && s[|a| + 1..] == b
  {
    var s := a + "\t" + b;
    assert s[..|a|] == a && s[|a|] == '\t';
    TabAt(s, a);
    assert s[|a| + 1..] == b;
  }

  /**
   * What the main loop prints for the merged items, and the exception that
   * ends it: the item (None, {}) has no "message" nor "newdatetime" key.
   */
  function Printed(items: seq<Item>, excludes: seq<string>): (r: (seq<string>, Option<PyError>))
    ensures |r.0| <= |items|
  {
    if |items| == 0 then ([], None)
    else
      match items[0]
      case NoTimestamp => ([], Some(KeyError))
      case Stamped(_, e) =>
        var rest := Printed(items[1..], excludes);
        ((if Dropped(excludes, e.message) then [] else [OutputLine(e)]) + rest.0, rest.1)
  }

  /** One turn of the main loop. */
  lemma PrintedAt(items: seq<Item>, i: nat, excludes: seq<string>)
    requires i < |items|
    ensures items[i].NoTimestamp? ==> Printed(items[i..], excludes) == ([], Some(KeyError))
    ensures items[i].Stamped? ==>
      && Printed(items[i..], excludes).0 ==
           (if Dropped(excludes, items[i].entry.message) then [] else [OutputLine(items[i].entry)])
           + Printed(items[i + 1..], excludes).0
      && Printed(items[i..], excludes).1 == Printed(items[i + 1..], excludes).1
  {
    assert items[i..][0] == items[i] && items[i..][1..] == items[i + 1..];
  }

  /** The main loop over merge_logs' items. */
  method PrintMerged(items: seq<Item>, excludes: seq<string>) returns (out: seq<string>, err: Option<PyError>)
    ensures out == Printed(items, excludes).0 && err == Printed(items, excludes).1
  {
    out := [];
    err := None;
    var i := 0;
    while i < |items|
      invariant 0 <= i <= |items|
      invariant out + Printed(items[i..], excludes).0 == Printed(items, excludes).0
      invariant Printed(items[i..], excludes).1 == Printed(items, excludes).1
    {
      match items[i]
      case NoTimestamp =>
        // entry["message"] (or entry["newdatetime"]) on the empty dict
        PrintedAt(items, i, excludes);
        assert out == out + Printed(items[i..], excludes).0;
        err := Some(KeyError);
        return;
      case Stamped(_, entry) =>
        PrintedAt(items, i, excludes);
        var ematch := IsExcluded(excludes, entry.message);
        if ematch.None? {
          out := out + [OutputLine(entry)];
        }
        i := i + 1;
    }
    assert items[i..] == [] && out == out + Printed(items[i..], excludes).0;
  }

  /** The loop ends in KeyError exactly when an item has no timestamp. */
  lemma {:induction false} PrintedFails(items: seq<Item>, excludes: seq<string>)
    ensures Printed(items, excludes).1 == (if NoTimestamp in items then Some(KeyError) else None)
    decreases |items|
  {
    if |items| > 0 {
      PrintedFails(items[1..], excludes);
      assert items == [items[0]] + items[1..];
    }
  }

  /**
   * A line is printed exactly when it is the output line of a timestamped
   * entry that no pattern drops and that comes before every item without a
   * timestamp.
   */
  lemma {:induction false} PrintedLines(items: seq<Item>, excludes: seq<string>, line: string)
    ensures line in Printed(items, excludes).0 <==>
      exists i :: 0 <= i < |items| && items[i].Stamped? && NoTimestamp !in items[..i] &&
        !Dropped(excludes, items[i].entry.message) && OutputLine(items[i].entry) == line
    decreases |items|
  {
    if |items| > 0 {
      PrintedLines(items[1..], excludes, line);
      forall i | 1 <= i < |items| ensures items[1..][i - 1] == items[i] && items[1..][..i - 1] == items[1..i] {
      }
      if items[0].Stamped? {
        forall i | 1 <= i < |items| ensures NoTimestamp in items[..i] <==> NoTimestamp in items[1..i] {
          assert items[..i] == [items[0]] + items[1..i];
        }
      } else {
        forall i | 0 < i < |items| ensures NoTimestamp in items[..i] {
          assert items[..i][0] == NoTimestamp;
        }
      }
    }
  }

  /**
   * Item i is printed: it has a timestamp, comes before every item without
   * one, and no pattern drops its message.
   */
  predicate Shown(items: seq<Item>, excludes: seq<string>, i: nat)
  {
    i < |items| && items[i].Stamped? && NoTimestamp !in items[..i] && !Dropped(excludes, items[i].entry.message)
  }

  /** The output lines of the shown items among the first n, in item order. */
  function ShownLines(items: seq<Item>, excludes: seq<string>, n: nat): seq<string>
    requires n <= |items|
  {
    if n == 0 then []
    else ShownLines(items, excludes, n - 1) + (if Shown(items, excludes, n - 1) then [OutputLine(items[n - 1].entry)] else [])
  }

  /** Behind an item without a timestamp nothing is shown. */
  lemma {:induction false} ShownLinesBlocked(items: seq<Item>, excludes: seq<string>, n: nat)
    requires 0 < |items| && items[0].NoTimestamp? && n <= |items|
    ensures ShownLines(items, excludes, n) == []
  {
    if n > 0 {
      ShownLinesBlocked(items, excludes, n - 1);
      if n - 1 > 0 {
        assert items[..n - 1][0] == NoTimestamp;
      }
    }
  }

  /** Behind a timestamped first item, the shown lines are its own, then those of the rest. */
  lemma {:induction false} ShownLinesTail(items: seq<Item>, excludes: seq<string>, n: nat)
    requires 0 < n <= |items| && items[0].Stamped?
    ensures ShownLines(items, excludes, n) ==
      (if Dropped(excludes, items[0].entry.message) then [] else [OutputLine(items[0].entry)])
      + ShownLines(items[1..], excludes, n - 1)
  {
    if n == 1 {
      assert items[..0] == [];
    } else {
      ShownLinesTail(items, excludes, n - 1);
      assert items[1..][n - 2] == items[n - 1];
      assert items[..n - 1] == [items[0]] + items[1..][..n - 2];
      assert Shown(items, excludes, n - 1) == Shown(items[1..], excludes, n - 2);
    }
  }

  /**
   * The main loop prints exactly the output lines of the shown items, each
   * once and in the order merge_logs yields them.
   */
  lemma {:induction false} PrintedInOrder(items: seq<Item>, excludes: seq<string>)
    ensures Printed(items, excludes).0 == ShownLines(items, excludes, |items|)
    decreases |items|
  {
    if |items| > 0 {
      if items[0].NoTimestamp? {
        ShownLinesBlocked(items, excludes, |items|);
      } else {
        PrintedInOrder(items[1..], excludes);
        ShownLinesTail(items, excludes, |items|);
      }
    }
  }

  /** The whole run after the options: merge_logs, then the main loop. */
  function Run(files: seq<LogFile>, offsets: map<string, int>, excludes: seq<string>, env: Env): (seq<string>, Option<PyError>)
  {
    match MergeLogs(files, offsets, env)
    case Err(e) => ([], Some(e))
    case Ok(items) => Printed(items, excludes)
  }

  /** Every file gets offsets[f.name]; an empty file stays empty. */
  lemma OffsetsReadable(files: seq<LogFile>, tz: int)
    requires forall i :: 0 <= i < |files| ==> files[i].content != ""
    ensures Readable(files, Offsets(files, tz))
  {
  }

  /** A non-empty input file without a timestamp line stops the run before any line is printed. */
  lemma RunStopsOnUnstampedFile(files: seq<LogFile>, tz: int, excludes: seq<string>, env: Env, j: nat)
    requires forall i :: 0 <= i < |files| ==> files[i].content != ""
    requires j < |files| && !HasStampLine(files[j])
    ensures Run(files, Offsets(files, tz), excludes, env) == ([], Some(KeyError))
  {
    var offsets := Offsets(files, tz);
    OffsetsReadable(files, tz);
    MergeLogsNoTimestamp(files, offsets, env, j);
  }

  /**
   * When every file has a timestamp line, the run ends normally and prints
   * the output line of each merged entry that no pattern drops.
   */
  lemma RunCompletes(files: seq<LogFile>, tz: int, excludes: seq<string>, env: Env, line: string)
    requires forall i :: 0 <= i < |files| ==> files[i].content != ""
    requires forall j :: 0 <= j < |files| ==> HasStampLine(files[j])
    ensures MergeLogs(files, Offsets(files, tz), env).Ok?
    ensures Run(files, Offsets(files, tz), excludes, env).1 == None
    ensures var items := MergeLogs(files, Offsets(files, tz), env).value;
      line in Run(files, Offsets(files, tz), excludes, env).0 <==>
        exists i :: 0 <= i < |items| && items[i].Stamped? &&
          !Dropped(excludes, items[i].entry.message) && OutputLine(items[i].entry) == line
  {
    var offsets := Offsets(files, tz);
    OffsetsReadable(files, tz);
    MergeLogsAllStamped(files, offsets, env);
    var items := MergeLogs(files, offsets, env).value;
    PrintedFails(items, excludes);
    PrintedLines(items, excludes, line);
    assert forall i :: 0 <= i < |items| ==> NoTimestamp !in items[..i];
  }

  /**
   * When every file has a timestamp line, the printed lines are the output
   * lines of the merged entries that no pattern drops, once each and in the
   * order merge_logs yields them.
   */
  lemma RunInMergeOrder(files: seq<LogFile>, tz: int, excludes: seq<string>, env: Env)
    requires forall i :: 0 <= i < |files| ==> files[i].content != ""
    requires forall j :: 0 <= j < |files| ==> HasStampLine(files[j])
    ensures MergeLogs(files, Offsets(files, tz), env).Ok?
    ensures var items := MergeLogs(files, Offsets(files, tz), env).value;
      && Run(files, Offsets(files, tz), excludes, env).0 == ShownLines(items, excludes, |items|)
      && forall i :: 0 <= i < |items| ==>
           items[i].Stamped? && (Shown(items, excludes, i) <==> !Dropped(excludes, items[i].entry.message))
  {
    var offsets := Offsets(files, tz);
    OffsetsReadable(files, tz);
    MergeLogsAllStamped(files, offsets, env);
    var items := MergeLogs(files, offsets, env).value;
    PrintedInOrder(items, excludes);
    forall i | 0 <= i < |items| ensures NoTimestamp !in items[..i] {
      forall k | 0 <= k < i ensures items[..i][k] != NoTimestamp {
        assert items[..i][k] == items[k];
      }
    }
  }
}
