/**
 * decorated_log_split: a log file's lines are grouped into entries, each
 * started by a line that begins with a timestamp.
 */
module LogSplit {
  import opened Wrappers
  import opened PyText

  /** A log file: the name it was opened under and its bytes. */
  datatype LogFile = LogFile(name: string, content: string)

  /**
   * What the split calls but does not define: the year of datetime.now(),
   * the key function, and strftime("%Y-%m-%d %H:%M:%S") of localtime(seconds).
   */
  datatype Env = Env(year: nat, keyfunc: string -> int, render: int -> string)

  /** currentdict once a timestamp line has been seen. */
  datatype Entry = Entry(datetime: string, newdatetime: string, message: string, filename: string)

  /** A yielded (key, dict) pair; NoTimestamp is (None, {}). */
  datatype Item = Stamped(key: int, entry: Entry) | NoTimestamp

  // ---------------------------------------------------------------------
  // The timestamp pattern
  //   (?P<datetime>\d{0,4}-?\d{2}-\d{2}\s+\d{2}:\d{2}:\d{2},?\d{0,3})\s+(?P<message>.*)
  // matched at the start of a line, with the choices a backtracking matcher makes.

  /** "hh:mm:ss" at index i. */
  predicate TimeAt(s: string, i: nat)
  {
    i + 8 <= |s| && DigitsAt(s, i, 2) && s[i + 2] == ':' && DigitsAt(s, i + 3, 2) && s[i + 5] == ':' && DigitsAt(s, i + 6, 2)
  }

  /**
   * From index p, just past `\d{2}-\d{2}`: `\s+\d{2}:\d{2}:\d{2},?\d{0,3}` and
   * the `\s+` after it. Every greedy run here has one successful length at
   * most (a shorter run leaves a digit or a blank where the next part needs
   * the other), so the first try decides. Some((end of datetime, start of message)).
   */
  function TimeFrom(line: string, p: nat): (r: Option<(nat, nat)>)
    ensures r.Some? ==> p + 9 <= r.value.0 < r.value.1 <= |line|
    ensures r.Some? ==> forall k :: r.value.0 <= k < r.value.1 ==> IsSpace(line[k])
    ensures r.Some? ==> r.value.1 == |line| || !IsSpace(line[r.value.1])
  {
    var w := SpaceRun(line, p);
    var q := p + w;
    if w == 0 || !TimeAt(line, q) then None else AfterSeconds(line, q + 8)
  }

  /** From t, just past the seconds: `,?\d{0,3}` and the `\s+` after it. */
  function AfterSeconds(line: string, t: nat): (r: Option<(nat, nat)>)
    requires t <= |line|
    ensures r.Some? ==> t <= r.value.0 < r.value.1 <= |line|
    ensures r.Some? ==> forall k :: r.value.0 <= k < r.value.1 ==> IsSpace(line[k])
    ensures r.Some? ==> r.value.1 == |line| || !IsSpace(line[r.value.1])
  {
    var e := if t < |line| && line[t] == ',' then t + 1 + DigitRun(line, t + 1, 3) else t + DigitRun(line, t, 3);
    var w := SpaceRun(line, e);
    if w == 0 then None else Some((e, e + w))
  }

  /** `\d{d}`, a '-' when `dash`, then `\d{2}-\d{2}`, from the start of the line. */
  predicate DateFits(line: string, d: nat, dash: bool)
  {
    var p := d + (if dash then 1 else 0);
    && (d == 0 || DigitsAt(line, 0, d))
    && (dash ==> d < |line| && line[d] == '-')
    && DigitsAt(line, p, 2) && p + 2 < |line| && line[p + 2] == '-' && DigitsAt(line, p + 3, 2)
  }

  /**
   * The choices for `\d{0,4}-?` from the k-th on, in the order the matcher
   * tries them: four digits down to none, each with the dash before without.
   */
  function TryFrom(line: string, k: nat): (r: Option<(nat, nat)>)
    requires k <= 10
    ensures r.Some? ==> 14 <= r.value.0 < r.value.1 <= |line|
    ensures r.Some? ==> forall k :: r.value.0 <= k < r.value.1 ==> IsSpace(line[k])
    ensures r.Some? ==> r.value.1 == |line| || !IsSpace(line[r.value.1])
    ensures r.Some? ==> IsDigit(line[0]) || line[0] == '-'
    decreases 10 - k
  {
    if k == 10 then None
    else
      var d := 4 - k / 2;
      var dash := k % 2 == 0;
      var p := d + (if dash then 1 else 0);
      if DateFits(line, d, dash) && TimeFrom(line, p + 5).Some? then
        assert d > 0 ==> IsDigit(line[0..d][0]);
        assert d == 0 && !dash ==> IsDigit(line[0..2][0]);
        TimeFrom(line, p + 5)
      else TryFrom(line, k + 1)
  }

  /**
   * log_re.match(line): Some((end of the datetime group, start of the
   * message group)). The datetime is never shorter than 14 characters, so
   * reading its character at index 4 is always safe.
   */
  function Recognise(line: string): (r: Option<(nat, nat)>)
    ensures r.Some? ==> 14 <= r.value.0 < r.value.1 <= |line|
    ensures r.Some? ==> forall k :: r.value.0 <= k < r.value.1 ==> IsSpace(line[k])
    ensures r.Some? ==> r.value.1 == |line| || !IsSpace(line[r.value.1])
    ensures r.Some? ==> IsDigit(line[0]) || line[0] == '-'
  {
    TryFrom(line, 0)
  }

  predicate IsStampLine(line: string)
  {
    Recognise(line).Some?
  }

  /** Where `.*` stops: at the first '\n' at or after i, or at the end. */
  function MessageEnd(line: string, i: nat): (e: nat)
    requires i <= |line|
    ensures i <= e <= |line|
    ensures forall k :: i <= k < e ==> line[k] != '\n'
    ensures e < |line| ==> line[e] == '\n'
    decreases |line| - i
  {
    if i == |line| || line[i] == '\n' then i else MessageEnd(line, i + 1)
  }

  /** m.groupdict() as a pair: the datetime and message groups. */
  function Fields(line: string): (r: Option<(string, string)>)
    ensures r.Some? <==> IsStampLine(line)
    ensures r.Some? ==> |r.value.0| >= 14 && r.value.0 <= line && '\n' !in r.value.1
  {
    match Recognise(line)
    case None => None
    case Some((e, ms)) =>
      MessageHasNoNewline(line, ms);
      Some((line[..e], line[ms..MessageEnd(line, ms)]))
  }

  lemma MessageHasNoNewline(line: string, i: nat)
    requires i <= |line|
    ensures '\n' !in line[i..MessageEnd(line, i)]
  {
    var msg := line[i..MessageEnd(line, i)];
    forall k | 0 <= k < |msg| ensures msg[k] != '\n' {
      assert msg[k] == line[i + k];
    }
  }

  /** `.*` from i stops at j when j is the first '\n' or the end. */
  lemma {:induction false} MessageEndAt(line: string, i: nat, j: nat)
    requires i <= j <= |line|
    requires forall k :: i <= k < j ==> line[k] != '\n'
    requires j == |line| || line[j] == '\n'
    ensures MessageEnd(line, i) == j
    decreases j - i
  {
    if i < j {
      MessageEndAt(line, i + 1, j);
    }
  }

  /** Digits in a prefix stay digits once more text follows. */
  lemma DigitsAtPrefix(s: string, rest: string, i: nat, n: nat)
    requires DigitsAt(s, i, n)
    ensures DigitsAt(s + rest, i, n)
    ensures n > 0 ==> IsDigit((s + rest)[i])
  {
    assert (s + rest)[i..i + n] == s[i..i + n];
    if n > 0 {
      assert s[i..i + n][0] == s[i];
    }
  }

  /** Three digits are taken whole by `\d{0,3}`. */
  lemma DigitRunThree(s: string, i: nat)
    requires DigitsAt(s, i, 3)
    ensures DigitRun(s, i, 3) == 3
  {
    assert s[i..i + 3][0] == s[i] && s[i..i + 3][1] == s[i + 1] && s[i..i + 3][2] == s[i + 2];
    assert DigitRun(s, i + 3, 0) == 0;
    assert DigitRun(s, i + 2, 1) == 1;
  }

  /** The server log timestamp, "yyyy-mm-dd hh:mm:ss,mmm". */
  predicate ServerStamp(dt: string)
  {
    && |dt| == 23 && DigitsAt(dt, 0, 4) && dt[4] == '-' && DigitsAt(dt, 5, 2) && dt[7] == '-' && DigitsAt(dt, 8, 2)
    && dt[10] == ' ' && TimeAt(dt, 11) && dt[19] == ',' && DigitsAt(dt, 20, 3)
  }

  /** The apprunner log timestamp, "mm-dd hh:mm:ss", without a year. */
  predicate ApprunnerStamp(dt: string)
  {
    |dt| == 14 && DigitsAt(dt, 0, 2) && dt[2] == '-' && DigitsAt(dt, 3, 2) && dt[5] == ' ' && TimeAt(dt, 6)
  }

  lemma TimeAtPrefix(s: string, rest: string, i: nat)
    requires TimeAt(s, i)
    ensures TimeAt(s + rest, i) && IsDigit((s + rest)[i])
  {
    DigitsAtPrefix(s, rest, i, 2);
    DigitsAtPrefix(s, rest, i + 3, 2);
    DigitsAtPrefix(s, rest, i + 6, 2);
  }

  /** From i, where the message and the end of line follow, `\s+` has ended and `.*` takes the message. */
  lemma MessageTail(line: string, i: nat, message: string, eol: string)
    requires i <= |line| && line[i..] == message + eol
    requires (|message| == 0 || !IsSpace(message[0])) && '\n' !in message
    requires eol == "" || eol == "\n"
    ensures var ms := i + SpaceRun(line, i);
      ms <= |line| && line[ms..MessageEnd(line, ms)] == message
  {
    forall k | 0 <= k < |message| ensures line[i + k] == message[k] {
      assert line[i..][k] == line[i + k];
    }
    if |message| > 0 {
      assert SpaceRun(line, i) == 0;
      MessageEndAt(line, i, i + |message|);
      assert line[i..i + |message|] == line[i..][..|message|];
    } else if eol == "" {
      assert SpaceRun(line, i) == 0;
      MessageEndAt(line, i, i);
    } else {
      assert line[i] == line[i..][0];
      assert SpaceRun(line, i) == 1;
      MessageEndAt(line, i + 1, i + 1);
    }
  }

  /** The groups of a line the pattern recognises, as the recogniser delimits them. */
  lemma FieldsAt(line: string, e: nat, ms: nat)
    requires Recognise(line) == Some((e, ms))
    ensures Fields(line) == Some((line[..e], line[ms..MessageEnd(line, ms)]))
  {
  }

  /** A choice whose date part does not fit passes to the next choice. */
  lemma TrySkip(line: string, k: nat)
    requires k < 10 && !DateFits(line, 4 - k / 2, k % 2 == 0)
    ensures TryFrom(line, k) == TryFrom(line, k + 1)
  {
  }

  /** A line starting "mm-dd " has no date part with a year or a leading dash. */
  lemma NoYearDates(line: string)
    requires |line| >= 6 && line[0] != '-' && IsDigit(line[1]) && line[2] == '-' && line[5] == ' '
    ensures !DateFits(line, 4, true) && !DateFits(line, 4, false)
    ensures !DateFits(line, 3, true) && !DateFits(line, 3, false)
    ensures !DateFits(line, 2, true) && !DateFits(line, 2, false)
    ensures !DateFits(line, 1, true) && !DateFits(line, 1, false)
    ensures !DateFits(line, 0, true)
  {
    assert line[0..4][2] == line[2];
    assert line[0..3][2] == line[2];
    assert line[2..4][0] == line[2];
    assert line[1..3][1] == line[2];
  }

  /** A line starting "mm-dd " fails every choice that expects a year. */
  lemma NoYearChoices(line: string)
    requires |line| >= 6 && line[0] != '-' && IsDigit(line[1]) && line[2] == '-' && line[5] == ' '
    ensures TryFrom(line, 0) == TryFrom(line, 9)
  {
    NoYearDates(line);
    TrySkip(line, 0);
    TrySkip(line, 1);
    TrySkip(line, 2);
    TrySkip(line, 3);
    TrySkip(line, 4);
    TrySkip(line, 5);
    TrySkip(line, 6);
    TrySkip(line, 7);
    TrySkip(line, 8);
  }

  /** " hh:mm:ss,mmm " from index 10 of a server line. */
  lemma ServerTimeFrom(line: string)
    requires |line| > 23 && line[10] == ' ' && TimeAt(line, 11) && IsDigit(line[11])
    requires line[19] == ',' && DigitsAt(line, 20, 3) && line[23] == ' '
    ensures TimeFrom(line, 10) == Some((23, 23 + SpaceRun(line, 23)))
  {
    DigitRunThree(line, 20);
    assert SpaceRun(line, 10) == 1;
  }

  /** " hh:mm:ss " from index 5 of an apprunner line. */
  lemma ApprunnerTimeFrom(line: string)
    requires |line| > 14 && line[5] == ' ' && TimeAt(line, 6) && IsDigit(line[6]) && line[14] == ' '
    ensures TimeFrom(line, 5) == Some((14, 14 + SpaceRun(line, 14)))
  {
    assert SpaceRun(line, 5) == 1;
    assert DigitRun(line, 14, 3) == 0;
  }

  /** The characters of a server line up to the blank after the milliseconds. */
  predicate ServerShaped(line: string)
  {
    && |line| > 23 && DigitsAt(line, 0, 4) && line[4] == '-' && DigitsAt(line, 5, 2) && line[7] == '-' && DigitsAt(line, 8, 2)
    && line[10] == ' ' && TimeAt(line, 11) && IsDigit(line[11]) && line[19] == ',' && DigitsAt(line, 20, 3) && line[23] == ' '
  }

  lemma ServerRecognised(line: string)
    requires ServerShaped(line)
    ensures Recognise(line) == Some((23, 23 + SpaceRun(line, 23)))
  {
    ServerTimeFrom(line);
    assert DateFits(line, 4, true);
  }

  /** The characters of an apprunner line up to the blank after the seconds. */
  predicate ApprunnerShaped(line: string)
  {
    && |line| > 14 && DigitsAt(line, 0, 2) && IsDigit(line[0]) && IsDigit(line[1]) && line[2] == '-' && DigitsAt(line, 3, 2)
    && line[5] == ' ' && TimeAt(line, 6) && IsDigit(line[6]) && line[14] == ' '
  }

  lemma ApprunnerRecognised(line: string)
    requires ApprunnerShaped(line)
    ensures Recognise(line) == Some((14, 14 + SpaceRun(line, 14)))
  {
    NoYearChoices(line);
    ApprunnerTimeFrom(line);
    assert DateFits(line, 0, false);
  }

  /** Fields returns the datetime and message found where Recognise says they are. */
  lemma FieldsNamed(line: string, e: nat, ms: nat, dt: string, message: string)
    requires Recognise(line) == Some((e, ms))
    requires line[..e] == dt && line[ms..MessageEnd(line, ms)] == message
    ensures Fields(line) == Some((dt, message))
  {
    FieldsAt(line, e, ms);
  }

  /** The message that follows the blank at `e` starts after the run of blanks there. */
  lemma MessageAfterBlank(line: string, e: nat, message: string, eol: string)
    requires e < |line| && line[e] == ' ' && line[e + 1..] == message + eol
    requires (|message| == 0 || !IsSpace(message[0])) && '\n' !in message
    requires eol == "" || eol == "\n"
    ensures var ms := e + SpaceRun(line, e);
      ms <= |line| && line[ms..MessageEnd(line, ms)] == message
  {
    assert SpaceRun(line, e) == 1 + SpaceRun(line, e + 1);
    MessageTail(line, e + 1, message, eol);
  }

  /** The pieces of a line built from a datetime, a blank, a message and an end of line. */
  lemma Pieces(dt: string, message: string, eol: string)
    ensures var line := dt + " " + message + eol;
      |dt| < |line| && line[..|dt|] == dt && line[|dt|] == ' ' && line[|dt| + 1..] == message + eol
  {
    var line := dt + " " + message + eol;
    assert line == dt + ([' '] + (message + eol));
  }

  lemma Regroup(a: string, b: string, c: string, d: string)
    ensures a + b + c + d == a + (b + c + d)
  {
  }

  lemma ServerShapedLine(dt: string, rest: string)
    requires ServerStamp(dt) && |rest| > 0 && rest[0] == ' '
    ensures ServerShaped(dt + rest)
  {
    DigitsAtPrefix(dt, rest, 0, 4);
    DigitsAtPrefix(dt, rest, 5, 2);
    DigitsAtPrefix(dt, rest, 8, 2);
    TimeAtPrefix(dt, rest, 11);
    DigitsAtPrefix(dt, rest, 20, 3);
  }

  lemma ApprunnerShapedLine(dt: string, rest: string)
    requires ApprunnerStamp(dt) && |rest| > 0 && rest[0] == ' '
    ensures ApprunnerShaped(dt + rest)
  {
    DigitsAtPrefix(dt, rest, 0, 2);
    DigitsAtPrefix(dt, rest, 3, 2);
    TimeAtPrefix(dt, rest, 6);
    assert dt[0..2][1] == dt[1];
  }

  /** A server log line, "yyyy-mm-dd hh:mm:ss,mmm message", is split at the blank after the milliseconds. */
  lemma ServerLineRecognised(dt: string, message: string, eol: string)
    requires ServerStamp(dt)
    requires (|message| == 0 || !IsSpace(message[0])) && '\n' !in message
    requires eol == "" || eol == "\n"
    ensures Fields(dt + " " + message + eol) == Some((dt, message))
  {
    var line := dt + " " + message + eol;
    var ms := 23 + SpaceRun(line, 23);
    assert line[..23] == dt && ms <= |line| && line[ms..MessageEnd(line, ms)] == message by {
      Pieces(dt, message, eol);
      MessageAfterBlank(line, 23, message, eol);
    }
    assert Recognise(line) == Some((23, ms)) by {
      assert ServerShaped(line) by {
        Regroup(dt, " ", message, eol);
        ServerShapedLine(dt, " " + message + eol);
      }
      ServerRecognised(line);
    }
    FieldsNamed(line, 23, ms, dt, message);
  }

  /**
   * An apprunner log line, "mm-dd hh:mm:ss message", is recognised too: every
   * choice with digits or a dash before the month fails, the last succeeds.
   */
  lemma ApprunnerLineRecognised(dt: string, message: string, eol: string)
    requires ApprunnerStamp(dt)
    requires (|message| == 0 || !IsSpace(message[0])) && '\n' !in message
    requires eol == "" || eol == "\n"
    ensures Fields(dt + " " + message + eol) == Some((dt, message))
  {
    var line := dt + " " + message + eol;
    var ms := 14 + SpaceRun(line, 14);
    assert line[..14] == dt && ms <= |line| && line[ms..MessageEnd(line, ms)] == message by {
      Pieces(dt, message, eol);
      MessageAfterBlank(line, 14, message, eol);
    }
    assert Recognise(line) == Some((14, ms)) by {
      assert ApprunnerShaped(line) by {
        Regroup(dt, " ", message, eol);
        ApprunnerShapedLine(dt, " " + message + eol);
      }
      ApprunnerRecognised(line);
    }
    FieldsNamed(line, 14, ms, dt, message);
  }

  /** `.*` from ms takes the rest of a line that has '\n' only at its end, without that '\n'. */
  lemma MessageRest(line: string, ms: nat)
    requires ms <= |line| && |line| > 0 && '\n' !in line[..|line| - 1]
    ensures line[ms..MessageEnd(line, ms)] + (if ms < |line| && line[|line| - 1] == '\n' then "\n" else "") == line[ms..]
  {
    var me := MessageEnd(line, ms);
    if me < |line| {
      assert line[me] == '\n';
      assert me == |line| - 1;
      assert line[ms..] == line[ms..me] + "\n";
    } else {
      assert line[ms..] == line[ms..me];
    }
  }

  /**
   * The message of a timestamp line is the rest of the line without its
   * '\n': a "\r" before the '\n' stays, the '\n' itself is dropped.
   */
  lemma StampMessageDropsNewline(line: string)
    requires IsStampLine(line) && '\n' !in line[..|line| - 1]
    ensures var ms := Recognise(line).value.1;
      Fields(line).value.1 + (if ms < |line| && line[|line| - 1] == '\n' then "\n" else "") == line[ms..]
  {
    var ms := Recognise(line).value.1;
    MessageRest(line, ms);
  }

  // ---------------------------------------------------------------------
  // Entries

  /** What log_re.match gives for each line of a file, in order. */
  function Parse(lines: seq<string>): (r: seq<Option<(string, string)>>)
    ensures |r| == |lines|
    ensures forall i :: 0 <= i < |lines| ==> r[i] == Fields(lines[i])
  {
    seq(|lines|, i requires 0 <= i < |lines| => Fields(lines[i]))
  }

  /** The datetime group with the current year and a '-' put in front when it has no year. */
  function WithYear(dt: string, year: nat): string
    requires |dt| >= 5
  {
    if dt[4] != '-' then NatToString(year) + "-" + dt else dt
  }

  /**
   * "%s,%03d" % (strftime(localtime(ms / 1000)), ms % 1000): Python 2 divides
   * integers rounding down and its remainder takes the divisor's sign,
   * which for 1000 is Dafny's / and %.
   */
  function NewDateTime(ms: int, env: Env): string
  {
    env.render(ms / 1000) + "," + Pad3(ms % 1000)
  }

  /** The entry a timestamp line's groups open, and its new_epoch_ms: the key of the year-completed datetime plus the offset. */
  function Open(groups: (string, string), fname: string, offset: int, env: Env): (r: (Entry, int))
    requires |groups.0| >= 5
    ensures r.0.filename == fname && r.0.message == groups.1
    ensures r.1 == env.keyfunc(r.0.datetime) + offset
    ensures r.0.newdatetime == NewDateTime(r.1, env)
  {
    var dt := WithYear(groups.0, env.year);
    var epoch := env.keyfunc(dt) + offset;
    (Entry(dt, NewDateTime(epoch, env), groups.1, fname), epoch)
  }

  /** Parsed lines whose matches all have a datetime long enough to index. */
  predicate WellParsed(ps: seq<Option<(string, string)>>)
  {
    forall i :: 0 <= i < |ps| && ps[i].Some? ==> |ps[i].value.0| >= 14
  }

  lemma ParseWell(lines: seq<string>)
    ensures WellParsed(Parse(lines))
  {
  }

  /** The indices, below n, of the lines that start an entry. */
  function Stamps(ps: seq<Option<(string, string)>>, n: nat): (r: seq<nat>)
    requires n <= |ps|
    ensures forall j :: 0 <= j < |r| ==> r[j] < n && ps[r[j]].Some?
    ensures forall j, k :: 0 <= j < k < |r| ==> r[j] < r[k]
    decreases n
  {
    if n == 0 then [] else Stamps(ps, n - 1) + (if ps[n - 1].Some? then [n - 1] else [])
  }

  /** The entry opened at line s, with every line up to `end` appended to its message. */
  function EntryFrom(lines: seq<string>, ps: seq<Option<(string, string)>>, s: nat, end: nat,
                     fname: string, offset: int, env: Env): Entry
    requires |ps| == |lines| && WellParsed(ps)
    requires s < end <= |lines| && ps[s].Some?
  {
    var en := Open(ps[s].value, fname, offset, env).0;
    en.(message := en.message + Concat(lines[s + 1..end]))
  }

  /** Stamp indices, increasing, of lines that match. */
  predicate StampList(ps: seq<Option<(string, string)>>, S: seq<nat>)
  {
    && (forall j :: 0 <= j < |S| ==> S[j] < |ps| && ps[S[j]].Some?)
    && (forall j, k :: 0 <= j < k < |S| ==> S[j] < S[k])
  }

  /** The items yielded inside the loop: every entry but the last, keyed by its newdatetime. */
  function Closed(lines: seq<string>, ps: seq<Option<(string, string)>>, S: seq<nat>,
                  fname: string, offset: int, env: Env): (r: seq<Item>)
    requires |ps| == |lines| && WellParsed(ps) && StampList(ps, S) && |S| > 0
    ensures |r| == |S| - 1
    ensures forall j :: 0 <= j < |r| ==> r[j].Stamped?
  {
    seq(|S| - 1, j requires 0 <= j < |S| - 1 => Inner(lines, ps, S[j], S[j + 1], fname, offset, env))
  }

  /** An item yielded inside the loop: keyed by the key of its newdatetime. */
  function Inner(lines: seq<string>, ps: seq<Option<(string, string)>>, s: nat, end: nat,
                 fname: string, offset: int, env: Env): Item
    requires |ps| == |lines| && WellParsed(ps)
    requires s < end <= |lines| && ps[s].Some?
  {
    var en := EntryFrom(lines, ps, s, end, fname, offset, env);
    Stamped(env.keyfunc(en.newdatetime), en)
  }

  /** The items for lines already parsed into ps. */
  function Group(lines: seq<string>, ps: seq<Option<(string, string)>>, fname: string, offset: int, env: Env): (r: Result<seq<Item>, PyError>)
    requires |ps| == |lines| && WellParsed(ps)
    ensures r.Err? <==> |lines| == 0
    ensures r.Err? ==> r.error == UnboundLocalError
    ensures r.Ok? && |Stamps(ps, |ps|)| == 0 ==> r.value == [NoTimestamp]
    ensures r.Ok? && |Stamps(ps, |ps|)| > 0 ==>
      |r.value| == |Stamps(ps, |ps|)| && forall j :: 0 <= j < |r.value| ==> r.value[j].Stamped?
  {
    if |lines| == 0 then Err(UnboundLocalError)
    else
      var S := Stamps(ps, |ps|);
      if |S| == 0 then Ok([NoTimestamp])
      else
        Ok(Closed(lines, ps, S, fname, offset, env) + [Final(lines, ps, S[|S| - 1], fname, offset, env)])
  }

  /** The item of the final yield: the last entry, keyed by new_epoch_ms. */
  function Final(lines: seq<string>, ps: seq<Option<(string, string)>>, s: nat,
                 fname: string, offset: int, env: Env): Item
    requires |ps| == |lines| && WellParsed(ps)
    requires s < |lines| && ps[s].Some?
  {
    Stamped(Open(ps[s].value, fname, offset, env).1, EntryFrom(lines, ps, s, |lines|, fname, offset, env))
  }

  /**
   * What decorated_log_split yields for a file's lines: one item per
   * timestamp line, the last keyed by its new_epoch_ms and the others by the
   * key of their newdatetime; (None, {}) when no line has a timestamp; and
   * UnboundLocalError for an empty file, whose warning names a `line` that
   * was never bound.
   */
  function SplitLines(lines: seq<string>, fname: string, offset: int, env: Env): (r: Result<seq<Item>, PyError>)
    ensures r.Err? <==> |lines| == 0
    ensures r.Err? ==> r.error == UnboundLocalError
    ensures r.Ok? && |Stamps(Parse(lines), |lines|)| == 0 ==> r.value == [NoTimestamp]
    ensures r.Ok? && |Stamps(Parse(lines), |lines|)| > 0 ==>
      |r.value| == |Stamps(Parse(lines), |lines|)| && forall j :: 0 <= j < |r.value| ==> r.value[j].Stamped?
  {
    ParseWell(lines);
    Group(lines, Parse(lines), fname, offset, env)
  }

  /** Every matching line below n is among the stamps. */
  lemma {:induction false} StampsComplete(ps: seq<Option<(string, string)>>, n: nat, i: nat)
    requires i < n <= |ps| && ps[i].Some?
    ensures i in Stamps(ps, n)
    decreases n
  {
    if i < n - 1 {
      StampsComplete(ps, n - 1, i);
    }
  }

  /** The entries are counted by the timestamp lines: an index is a stamp exactly when its line matches. */
  lemma StampsAreTimestampLines(lines: seq<string>, i: nat)
    requires i < |lines|
    ensures i in Stamps(Parse(lines), |lines|) <==> IsStampLine(lines[i])
  {
    if IsStampLine(lines[i]) {
      StampsComplete(Parse(lines), |lines|, i);
    }
  }

  function Split(f: LogFile, offset: int, env: Env): Result<seq<Item>, PyError>
  {
    SplitLines(PyLines(f.content), Basename(f.name), offset, env)
  }

  /** The generator's state after the first i lines: the open entry, its new_epoch_ms and the items yielded so far. */
  predicate Inv(lines: seq<string>, ps: seq<Option<(string, string)>>, i: nat,
                current: Option<Entry>, newEpochMs: Option<int>, items: seq<Item>,
                fname: string, offset: int, env: Env)
    requires |ps| == |lines| && WellParsed(ps) && i <= |lines|
  {
    var S := Stamps(ps, i);
    if |S| == 0 then current == None && newEpochMs == None && items == []
    else
      && current == Some(EntryFrom(lines, ps, S[|S| - 1], i, fname, offset, env))
      && newEpochMs == Some(Open(ps[S[|S| - 1]].value, fname, offset, env).1)
      && items == Closed(lines, ps, S, fname, offset, env)
  }

  /** A timestamp line closes the open entry, if any, and opens its own. */
  lemma StepStamp(lines: seq<string>, ps: seq<Option<(string, string)>>, i: nat,
                  current: Option<Entry>, newEpochMs: Option<int>, items: seq<Item>,
                  fname: string, offset: int, env: Env)
    requires |ps| == |lines| && WellParsed(ps) && i < |lines| && ps[i].Some?
    requires Inv(lines, ps, i, current, newEpochMs, items, fname, offset, env)
    ensures var o := Open(ps[i].value, fname, offset, env);
      Inv(lines, ps, i + 1, Some(o.0), Some(o.1),
          if current.Some? then items + [Stamped(env.keyfunc(current.value.newdatetime), current.value)] else items,
          fname, offset, env)
  {
    var S := Stamps(ps, i);
    assert Stamps(ps, i + 1) == S + [i];
    assert Concat(lines[i + 1..i + 1]) == "";
    var o := Open(ps[i].value, fname, offset, env).0;
    assert EntryFrom(lines, ps, i, i + 1, fname, offset, env) == o.(message := o.message + "");
    assert o.message + "" == o.message;
    if |S| > 0 {
      ClosedSnoc(lines, ps, S, i, fname, offset, env);
    } else {
      assert Closed(lines, ps, [i], fname, offset, env) == [];
    }
  }

  /** Any other line is appended to the open entry's message, or dropped when none is open. */
  lemma StepPlain(lines: seq<string>, ps: seq<Option<(string, string)>>, i: nat,
                  current: Option<Entry>, newEpochMs: Option<int>, items: seq<Item>,
                  fname: string, offset: int, env: Env)
    requires |ps| == |lines| && WellParsed(ps) && i < |lines| && ps[i].None?
    requires Inv(lines, ps, i, current, newEpochMs, items, fname, offset, env)
    ensures Inv(lines, ps, i + 1,
                if current.Some? then Some(current.value.(message := current.value.message + lines[i])) else None,
                newEpochMs, items, fname, offset, env)
  {
    var S := Stamps(ps, i);
    assert Stamps(ps, i + 1) == S;
    if |S| > 0 {
      EntryFromSnoc(lines, ps, S[|S| - 1], i, fname, offset, env);
    }
  }

  /** After the last line, the final yield completes what the split promises. */
  lemma Finish(lines: seq<string>, ps: seq<Option<(string, string)>>,
               current: Option<Entry>, newEpochMs: Option<int>, items: seq<Item>,
               fname: string, offset: int, env: Env)
    requires |ps| == |lines| && WellParsed(ps) && |lines| > 0
    requires Inv(lines, ps, |lines|, current, newEpochMs, items, fname, offset, env)
    ensures current.Some? <==> newEpochMs.Some?
    ensures Group(lines, ps, fname, offset, env)
            == Ok(items + [if current.Some? then Stamped(newEpochMs.value, current.value) else NoTimestamp])
  {
    if |Stamps(ps, |lines|)| == 0 {
      assert items + [NoTimestamp] == [NoTimestamp];
    }
  }

  /**
   * One turn of the loop over the file: a timestamp line yields the open
   * entry, if any, and opens its own; any other line extends the open entry.
   */
  method TakeLine(lines: seq<string>, ghost ps: seq<Option<(string, string)>>, i: nat,
                  current: Option<Entry>, newEpochMs: Option<int>, items: seq<Item>,
                  fname: string, offset: int, env: Env)
    returns (current': Option<Entry>, newEpochMs': Option<int>, items': seq<Item>)
    requires |ps| == |lines| && WellParsed(ps) && i < |lines| && ps[i] == Fields(lines[i])
    requires Inv(lines, ps, i, current, newEpochMs, items, fname, offset, env)
    ensures Inv(lines, ps, i + 1, current', newEpochMs', items', fname, offset, env)
  {
    var line := lines[i];
    var m := Fields(line);
    if m.Some? {
      StepStamp(lines, ps, i, current, newEpochMs, items, fname, offset, env);
      items' := items;
      if current.Some? {
        items' := items + [Stamped(env.keyfunc(current.value.newdatetime), current.value)];
      }
      // a fresh currentdict: the groups, the file name, the year and new_epoch_ms
      var (entry, epoch) := Open(m.value, fname, offset, env);
      current' := Some(entry);
      newEpochMs' := Some(epoch);
    } else {
      StepPlain(lines, ps, i, current, newEpochMs, items, fname, offset, env);
      current', newEpochMs', items' := current, newEpochMs, items;
      if current.Some? {
        current' := Some(current.value.(message := current.value.message + line));
      }
    }
  }

  /** The generator itself: a loop over the file's lines that keeps the open entry and new_epoch_ms. */
  method DecoratedLogSplit(f: LogFile, offset: int, env: Env) returns (r: Result<seq<Item>, PyError>)
    ensures r == Split(f, offset, env)
  {
    var fname := Basename(f.name);
    var lines := PyLines(f.content);
    ghost var ps := Parse(lines);
    ParseWell(lines);
    var current: Option<Entry> := None;
    var newEpochMs: Option<int> := None;
    var items: seq<Item> := [];
    var i := 0;
    while i < |lines|
      invariant 0 <= i <= |lines|
      invariant Inv(lines, ps, i, current, newEpochMs, items, fname, offset, env)
    {
      current, newEpochMs, items := TakeLine(lines, ps, i, current, newEpochMs, items, fname, offset, env);
      i := i + 1;
    }
    if newEpochMs.None? || newEpochMs.value == 0 {
      // the warning names `line`, which an empty file never binds
      if |lines| == 0 {
        return Err(UnboundLocalError);
      }
    }
    Finish(lines, ps, current, newEpochMs, items, fname, offset, env);
    r := Ok(items + [if current.Some? then Stamped(newEpochMs.value, current.value) else NoTimestamp]);
  }

  lemma EntryFromSnoc(lines: seq<string>, ps: seq<Option<(string, string)>>, s: nat, i: nat,
                      fname: string, offset: int, env: Env)
    requires |ps| == |lines| && WellParsed(ps)
    requires s < i < |lines| && ps[s].Some?
    ensures var en := EntryFrom(lines, ps, s, i, fname, offset, env);
      EntryFrom(lines, ps, s, i + 1, fname, offset, env) == en.(message := en.message + lines[i])
  {
    assert lines[s + 1..i + 1] == lines[s + 1..i] + [lines[i]];
    ConcatAppend(lines[s + 1..i], [lines[i]]);
  }

  lemma ClosedSnoc(lines: seq<string>, ps: seq<Option<(string, string)>>, S: seq<nat>, i: nat,
                   fname: string, offset: int, env: Env)
    requires |ps| == |lines| && WellParsed(ps)
    requires StampList(ps, S) && |S| > 0 && S[|S| - 1] < i < |lines| && ps[i].Some?
    ensures StampList(ps, S + [i])
    ensures Closed(lines, ps, S + [i], fname, offset, env)
            == Closed(lines, ps, S, fname, offset, env) + [Inner(lines, ps, S[|S| - 1], i, fname, offset, env)]
  {
  }

  // ---------------------------------------------------------------------
  // Properties of the split

  function Shift(S: seq<nat>, d: nat): (r: seq<nat>)
    ensures |r| == |S|
  {
    seq(|S|, j requires 0 <= j < |S| => S[j] + d)
  }

  lemma ShiftSnoc(S: seq<nat>, x: nat, d: nat)
    ensures Shift(S + [x], d) == Shift(S, d) + [x + d]
  {
  }

  lemma {:induction false} StampsAfterPreamble(pa: seq<Option<(string, string)>>, pb: seq<Option<(string, string)>>, n: nat)
    requires n <= |pb|
    requires forall i :: 0 <= i < |pa| ==> pa[i].None?
    ensures Stamps(pa + pb, |pa| + n) == Shift(Stamps(pb, n), |pa|)
    decreases n
  {
    if n == 0 {
      NoStampsInPreamble(pa, pb, |pa|);
    } else {
      StampsAfterPreamble(pa, pb, n - 1);
      assert (pa + pb)[|pa| + n - 1] == pb[n - 1];
      var T := Stamps(pb, n - 1);
      if pb[n - 1].Some? {
        ShiftSnoc(T, n - 1, |pa|);
      } else {
        assert T + [] == T;
      }
    }
  }

  lemma {:induction false} NoStampsInPreamble(pa: seq<Option<(string, string)>>, pb: seq<Option<(string, string)>>, n: nat)
    requires n <= |pa|
    requires forall i :: 0 <= i < |pa| ==> pa[i].None?
    ensures Stamps(pa + pb, n) == []
    decreases n
  {
    if n > 0 {
      NoStampsInPreamble(pa, pb, n - 1);
      assert (pa + pb)[n - 1] == pa[n - 1];
    }
  }

  lemma ParseAppend(a: seq<string>, b: seq<string>)
    ensures Parse(a + b) == Parse(a) + Parse(b)
  {
    forall k | 0 <= k < |a + b|
      ensures Parse(a + b)[k] == (Parse(a) + Parse(b))[k]
    {
      if k < |a| {
        assert (a + b)[k] == a[k];
      } else {
        assert (a + b)[k] == b[k - |a|];
      }
    }
  }

  lemma EntryFromShift(a: seq<string>, b: seq<string>, pa: seq<Option<(string, string)>>, pb: seq<Option<(string, string)>>,
                       s: nat, e: nat, fname: string, offset: int, env: Env)
    requires |pa| == |a| && |pb| == |b| && WellParsed(pa + pb) && WellParsed(pb)
    requires s < e <= |b| && pb[s].Some?
    ensures (pa + pb)[|a| + s] == pb[s]
    ensures EntryFrom(a + b, pa + pb, |a| + s, |a| + e, fname, offset, env) == EntryFrom(b, pb, s, e, fname, offset, env)
  {
    assert (a + b)[|a| + s + 1..|a| + e] == b[s + 1..e];
  }

  lemma ShiftStampList(pa: seq<Option<(string, string)>>, pb: seq<Option<(string, string)>>, T: seq<nat>)
    requires StampList(pb, T)
    ensures StampList(pa + pb, Shift(T, |pa|))
    ensures forall j :: 0 <= j < |T| ==> (pa + pb)[Shift(T, |pa|)[j]] == pb[T[j]]
  {
    var S := Shift(T, |pa|);
    forall j | 0 <= j < |S| ensures S[j] < |pa + pb| && (pa + pb)[S[j]] == pb[T[j]] {
      assert S[j] == |pa| + T[j];
    }
  }

  lemma InnerShift(a: seq<string>, b: seq<string>, pa: seq<Option<(string, string)>>, pb: seq<Option<(string, string)>>,
                   s: nat, e: nat, fname: string, offset: int, env: Env)
    requires |pa| == |a| && |pb| == |b| && WellParsed(pa + pb) && WellParsed(pb)
    requires s < e <= |b| && pb[s].Some?
    ensures (pa + pb)[|a| + s] == pb[s]
    ensures Inner(a + b, pa + pb, |a| + s, |a| + e, fname, offset, env) == Inner(b, pb, s, e, fname, offset, env)
  {
    EntryFromShift(a, b, pa, pb, s, e, fname, offset, env);
  }

  lemma ShiftAt(T: seq<nat>, d: nat, j: nat)
    requires j < |T|
    ensures Shift(T, d)[j] == T[j] + d
  {
  }

  /** Two closings agree when their entries agree one by one. */
  lemma ClosedEqual(l1: seq<string>, p1: seq<Option<(string, string)>>, S1: seq<nat>,
                    l2: seq<string>, p2: seq<Option<(string, string)>>, S2: seq<nat>, fname: string, offset: int, env: Env)
    requires |p1| == |l1| && WellParsed(p1) && StampList(p1, S1) && |S1| > 0
    requires |p2| == |l2| && WellParsed(p2) && StampList(p2, S2) && |S2| == |S1|
    requires forall j :: 0 <= j < |S1| - 1 ==>
      Inner(l1, p1, S1[j], S1[j + 1], fname, offset, env) == Inner(l2, p2, S2[j], S2[j + 1], fname, offset, env)
    ensures Closed(l1, p1, S1, fname, offset, env) == Closed(l2, p2, S2, fname, offset, env)
  {
  }

  /** The items closed inside the loop are the same once the preamble's lines are put in front. */
  lemma ClosedShift(a: seq<string>, b: seq<string>, pa: seq<Option<(string, string)>>, pb: seq<Option<(string, string)>>,
                    T: seq<nat>, fname: string, offset: int, env: Env)
    requires |pa| == |a| && |pb| == |b| && WellParsed(pa + pb) && WellParsed(pb)
    requires StampList(pb, T) && |T| > 0 && StampList(pa + pb, Shift(T, |a|))
    ensures Closed(a + b, pa + pb, Shift(T, |a|), fname, offset, env) == Closed(b, pb, T, fname, offset, env)
  {
    var S := Shift(T, |a|);
    forall j | 0 <= j < |S| - 1
      ensures Inner(a + b, pa + pb, S[j], S[j + 1], fname, offset, env) == Inner(b, pb, T[j], T[j + 1], fname, offset, env)
    {
      ShiftAt(T, |a|, j);
      ShiftAt(T, |a|, j + 1);
      InnerShift(a, b, pa, pb, T[j], T[j + 1], fname, offset, env);
    }
    ClosedEqual(a + b, pa + pb, S, b, pb, T, fname, offset, env);
  }

  /** Two groupings agree when their stamps close the same items and end on the same final item. */
  lemma GroupEqual(l1: seq<string>, p1: seq<Option<(string, string)>>, S1: seq<nat>, s1: nat,
                   l2: seq<string>, p2: seq<Option<(string, string)>>, S2: seq<nat>, s2: nat,
                   fname: string, offset: int, env: Env)
    requires |p1| == |l1| && WellParsed(p1) && |p2| == |l2| && WellParsed(p2) && |l1| > 0 && |l2| > 0
    requires S1 == Stamps(p1, |p1|) && |S1| > 0 && s1 == S1[|S1| - 1]
    requires S2 == Stamps(p2, |p2|) && |S2| > 0 && s2 == S2[|S2| - 1]
    requires Closed(l1, p1, S1, fname, offset, env) == Closed(l2, p2, S2, fname, offset, env)
    requires Final(l1, p1, s1, fname, offset, env) == Final(l2, p2, s2, fname, offset, env)
    ensures Group(l1, p1, fname, offset, env) == Group(l2, p2, fname, offset, env)
  {
  }

  /** The final item is the same once the preamble's lines are put in front. */
  lemma FinalShift(a: seq<string>, b: seq<string>, pa: seq<Option<(string, string)>>, pb: seq<Option<(string, string)>>,
                   t: nat, fname: string, offset: int, env: Env)
    requires |pa| == |a| && |pb| == |b| && WellParsed(pa + pb) && WellParsed(pb)
    requires t < |b| && pb[t].Some?
    ensures (pa + pb)[|a| + t] == pb[t]
    ensures Final(a + b, pa + pb, |a| + t, fname, offset, env) == Final(b, pb, t, fname, offset, env)
  {
    EntryFromShift(a, b, pa, pb, t, |b|, fname, offset, env);
    assert |a + b| == |a| + |b|;
  }

  /** Grouping ignores lines that come before the first match. */
  lemma GroupAfterPreamble(a: seq<string>, b: seq<string>, pa: seq<Option<(string, string)>>, pb: seq<Option<(string, string)>>,
                           fname: string, offset: int, env: Env)
    requires |pa| == |a| && |pb| == |b| && WellParsed(pa + pb) && WellParsed(pb)
    requires forall i :: 0 <= i < |pa| ==> pa[i].None?
    requires |Stamps(pb, |pb|)| > 0
    ensures Group(a + b, pa + pb, fname, offset, env) == Group(b, pb, fname, offset, env)
  {
    var T := Stamps(pb, |pb|);
    var S := Shift(T, |a|);
    assert S == Stamps(pa + pb, |pa + pb|) by {
      StampsAfterPreamble(pa, pb, |pb|);
      assert |pa + pb| == |pa| + |pb|;
    }
    var t := T[|T| - 1];
    assert S[|S| - 1] == |a| + t by {
      ShiftAt(T, |a|, |T| - 1);
    }
    assert Closed(a + b, pa + pb, S, fname, offset, env) == Closed(b, pb, T, fname, offset, env) by {
      ShiftStampList(pa, pb, T);
      ClosedShift(a, b, pa, pb, T, fname, offset, env);
    }
    assert Final(a + b, pa + pb, |a| + t, fname, offset, env) == Final(b, pb, t, fname, offset, env) by {
      FinalShift(a, b, pa, pb, t, fname, offset, env);
    }
    GroupEqual(a + b, pa + pb, S, |a| + t, b, pb, T, t, fname, offset, env);
  }

  /** Lines before the first timestamp are discarded: the file yields the same items without them. */
  lemma PreambleDiscarded(a: seq<string>, b: seq<string>, fname: string, offset: int, env: Env)
    requires forall i :: 0 <= i < |a| ==> !IsStampLine(a[i])
    requires |Stamps(Parse(b), |b|)| > 0
    ensures SplitLines(a + b, fname, offset, env) == SplitLines(b, fname, offset, env)
  {
    ParseAppend(a, b);
    ParseWell(a + b);
    ParseWell(b);
    GroupAfterPreamble(a, b, Parse(a), Parse(b), fname, offset, env);
  }
}
