# VoltDB promotion, class matching and log merging, modelled in Dafny

This project models three pieces of VoltDB.

- **`MpInitiator`** — the multi-partition initiator (`mp_promotion.dfy`, `mp_initiator.dfy`).
  - `acceptPromotion` creates and starts a term. It then loops: it builds a repair algorithm, installs it in the mailbox, starts it and waits for the result, until a round does not report failure.
  - On success it installs the leader state and rebroadcasts the single interrupted transaction, if there is one. It then writes the leader cache.
  - More than one interrupted transaction sends a dump to every interesting replica and crashes the node. So does an exception.
  - `mp_promotion.dfy` states a whole call as a trace of calls into the collaborators: the `Effect` sequence of a `Run`. The outcomes of the successive repair rounds are an input.
  - `mp_initiator.dfy` is the class itself. It has fields and a `while (!success)` loop that is proved to produce exactly that trace and final state.
- **`ClassMatcher`** — the classpath class matcher (`java_strings.dfy`, `class_patterns.dfy`, `class_files.dfy`, `class_matcher.dfy`).
  - An ant-style pattern (`*`, `**`) is trimmed and rewritten into a regex. The regex is compiled with `MULTILINE` and applied with `Matcher.find()` to a newline-separated list of every class file on the classpath.
  - Matches without `$` go into a `TreeSet<String>`.
  - `String.trim`, `indexOf`, `replace` and `compareTo` are modelled in `JavaStrings`. A `TreeSet<String>` is modelled as a strictly sorted sequence.
  - The part of `java.util.regex` the rewritten patterns use is modelled in `ClassPatterns`: literals, `.`, the `$` line anchor and the two character-class runs.
  - The directory tree the classpath walk visits is a `Node` value, and the walk is `ClassFiles`.
- **`logmerger.py`** — the log merger (`py_text.dfy`, `log_split.dfy`, `log_merge.dfy`, `log_main.dfy`).
  - `decorated_log_split` groups a log file's lines into entries, each started by a line that begins with a timestamp.
  - `merge_logs` merges the per-file streams with `heapq.merge`.
  - The main program reads the `--tzoffset` and `--exclude` options. It drops entries whose message contains an exclude pattern and prints the rest as tab-separated lines.
  - `PyText` holds the Python 2 string functions the script relies on.

Behaviour of the code worth knowing:
- **Nested-class patterns.** The comment at `src/frontend/org/voltdb/compiler/ClassMatcher.java:56-57` says that for nested classes the parent pattern is included. The code does not do that. `addPattern` cuts the pattern at its first `$` only for the line it prints. The regex is built from the whole trimmed pattern, so a pattern such as `a.B$C` matches no class at all (`ClassPatterns.NestedClassPatternMatchesNothing`).
- **Anchors.** The regex is anchored at line starts and line ends of the class list, not at the ends of one class name.
- **Terms.** `createTerm` ignores its partition id argument, so a term carries none.

## Model

| member | source | states |
|---|---|---|
| MpPromotion.SiteBackend | src/frontend/org/voltdb/iv2/MpInitiator.java:78-81 | the IPC and Valgrind-IPC backends are replaced by the JNI backend; every other backend is kept |
| MpPromotion.Deciding | src/frontend/org/voltdb/iv2/MpInitiator.java:102-111 | the loop stops at the first round that did not report failure (it succeeded or threw); every round before it failed; none stops it when all fail |
| MpPromotion.DecidingAt | src/frontend/org/voltdb/iv2/MpInitiator.java:102-153 | when round k is the first that does not fail, the rounds install and start k+1 algorithms and then do what round k's result calls for, after k+1 attempts |
| MpPromotion.Undecided | src/frontend/org/voltdb/iv2/MpInitiator.java:143-152 | when every round fails, the loop is still retrying after one install/start pair per round and has set no leader state |
| MpPromotion.TermCreatedOnceBeforeRepairs | src/frontend/org/voltdb/iv2/MpInitiator.java:98-105 | the term is created and started first and never again; every installed algorithm is built from the term's interesting replicas, the initiator's mailbox and its name |
| MpPromotion.RepairInstalledBeforeStarted | src/frontend/org/voltdb/iv2/MpInitiator.java:103-109 | every repair start is immediately preceded by installing that same algorithm in the mailbox, and each attempt uses a new algorithm (instances strictly increase) |
| MpPromotion.FailedRoundsOnlyRetry | src/frontend/org/voltdb/iv2/MpInitiator.java:143-152 | rounds that report failure only retry: no leader state, no rebroadcast, no dump and no leader-cache write |
| MpPromotion.LeaderStateSetBeforeRestarts | src/frontend/org/voltdb/iv2/MpInitiator.java:111-113 | on success the leader state is set exactly once, right after the deciding round's start, before any rebroadcast, dump or leader-cache write |
| MpPromotion.NoRestartCandidate | src/frontend/org/voltdb/iv2/MpInitiator.java:113-114 | with no interrupted transaction the promotion succeeds without a rebroadcast or a dump |
| MpPromotion.OneRestartCandidate | src/frontend/org/voltdb/iv2/MpInitiator.java:130-131 | with one interrupted transaction it is rebroadcast exactly once, just before the leader-cache write, and the promotion succeeds |
| MpPromotion.ManyRestartCandidatesAreFatal | src/frontend/org/voltdb/iv2/MpInitiator.java:116-129 | with several interrupted transactions a dump goes to the term's interesting replicas as the last call and the node crashes; nothing is rebroadcast and the leader cache is not written |
| MpPromotion.NoCacheWriteInAttempts | src/frontend/org/voltdb/iv2/MpInitiator.java:137-141 | the leader cache is never written while repair attempts are still being made |
| MpPromotion.LeaderCacheWrittenOnlyOnPromotion | src/frontend/org/voltdb/iv2/MpInitiator.java:137-141 | the leader cache is written if and only if the promotion succeeds, and then exactly once, as the last call, mapping the partition to the mailbox's HSId |
| MpInitiator.MpInitiator.constructor | src/frontend/org/voltdb/iv2/MpInitiator.java:49-63 | a new initiator has partition id MP_INIT_PID (16383), no backend, no term, no repair algorithm, no leader state and an empty leader cache |
| MpInitiator.MpInitiator.Configure | src/frontend/org/voltdb/iv2/MpInitiator.java:65-90 | the site gets the replaced backend, the initiator registers as an election participant for its own partition, and nothing else changes |
| MpInitiator.MpInitiator.IsRejoinable | src/frontend/org/voltdb/iv2/MpInitiator.java:159-166 | the multi-partition initiator is never rejoinable |
| MpInitiator.MpInitiator.CreatePromoteAlgo | src/frontend/org/voltdb/iv2/MpInitiator.java:175-180 | the algorithm uses the current term's interesting replicas and the initiator's own mailbox and name, whatever arguments are passed |
| MpInitiator.MpInitiator.RepairRound | src/frontend/org/voltdb/iv2/MpInitiator.java:103-152 | one loop iteration: a new algorithm is installed and started; then, by the result, leader state set, transaction rebroadcast, dump sent or leader cache updated; success is the result's flag |
| MpInitiator.MpInitiator.Round | src/frontend/org/voltdb/iv2/MpInitiator.java:102-153 | after i failed rounds, round i either fails and the state is that of i+1 failed rounds, or ends the loop in the state the specification run gives |
| MpInitiator.MpInitiator.RepairUntilDecided | src/frontend/org/voltdb/iv2/MpInitiator.java:102-153 | the loop leaves log, algorithm count, repair algorithm, leader state and leader cache exactly as the specification's rounds say |
| MpInitiator.MpInitiator.AcceptPromotion | src/frontend/org/voltdb/iv2/MpInitiator.java:92-157 | the stored term and the whole new state are those of the specification run of acceptPromotion |
| JavaStrings.Trim | src/frontend/org/voltdb/compiler/ClassMatcher.java:54 | String.trim: the result is a slice of the input from which only characters up to ' ' were removed, and it starts and ends with neither |
| JavaStrings.IndexOf | src/frontend/org/voltdb/compiler/ClassMatcher.java:58 | String.indexOf: -1 exactly when the character is absent, otherwise its first position |
| JavaStrings.LessIrreflexive | src/frontend/org/voltdb/compiler/ClassMatcher.java:38 | String.compareTo never ranks a string below itself |
| JavaStrings.LessTransitive | src/frontend/org/voltdb/compiler/ClassMatcher.java:38 | the compareTo order is transitive |
| JavaStrings.LessTotal | src/frontend/org/voltdb/compiler/ClassMatcher.java:38 | of two different strings exactly one is below the other |
| JavaStrings.Insert | src/frontend/org/voltdb/compiler/ClassMatcher.java:81 | TreeSet.add keeps the set strictly ordered, adds exactly the new element, and changes nothing when it is present |
| JavaStrings.SortedUnique | src/frontend/org/voltdb/compiler/ClassMatcher.java:38 | two TreeSets with the same elements iterate in the same order |
| ClassPatterns.ReplacedIsRendered | src/frontend/org/voltdb/compiler/ClassMatcher.java:65-66 | replacing "**" first and then "*" yields exactly the regex text of the pattern's pieces: deep runs for "**", shallow runs for the remaining "*" |
| JavaStrings.ReplaceAbsent | src/frontend/org/voltdb/compiler/ClassMatcher.java:65-66 | String.replace returns a pattern in which the target does not occur unchanged, so "*" patterns without a "**" pass the first replace as they are |
| ClassPatterns.RegexTextReadsAsTokens | src/frontend/org/voltdb/compiler/ClassMatcher.java:54-70 | the regex built from a pattern is "^", the text of the trimmed pattern's pieces, "$" |
| ClassPatterns.ParseRendered | src/frontend/org/voltdb/compiler/ClassMatcher.java:72 | reading back the regex text of plain pieces gives the same pieces |
| ClassPatterns.CompileRegexText | src/frontend/org/voltdb/compiler/ClassMatcher.java:65-72 | for a pattern in the wildcard subset, Pattern.compile of the built regex yields the trimmed pattern's pieces |
| ClassPatterns.MatchIsWholeLine | src/frontend/org/voltdb/compiler/ClassMatcher.java:68-72 | a match of single-line pieces that ends at a `$` position ends at the end of the line it started on |
| ClassPatterns.Find | src/frontend/org/voltdb/compiler/ClassMatcher.java:74-75 | a find() result starts at a line start, ends at that line's end and is matched by the pieces |
| ClassPatterns.FindSkipsOthers | src/frontend/org/voltdb/compiler/ClassMatcher.java:75 | no line start before the found one (or before the end, when none is found) begins a matching line |
| ClassPatterns.FindIsLeftmostMatch | src/frontend/org/voltdb/compiler/ClassMatcher.java:68-75 | find() returns the leftmost match of `^pieces$`: no earlier line start begins a match of any length that ends at a `$` position |
| ClassPatterns.Matching | src/frontend/org/voltdb/compiler/ClassMatcher.java:75-82 | the names the pieces match are exactly those among the given names that they match |
| ClassPatterns.MatchedStep | src/frontend/org/voltdb/compiler/ClassMatcher.java:75-76 | one find() step: the lines it skipped do not match and the line it returns does |
| ClassPatterns.MatchedLinesAreMatchingLines | src/frontend/org/voltdb/compiler/ClassMatcher.java:74-82 | the find() loop yields exactly the lines of the class list that the pieces match, in order |
| ClassPatterns.WildcardNames | src/frontend/org/voltdb/compiler/ClassMatcher.java:44-47 | "*" matches exactly the non-empty names of word characters and '$' (so no '.'); "**" also allows '.' |
| ClassPatterns.PlainPatternNames | src/frontend/org/voltdb/compiler/ClassMatcher.java:44-47 | a pattern without wildcards or '$' matches exactly the names of its length that agree with it, a '.' standing for any non-terminator character |
| ClassPatterns.NestedClassPatternMatchesNothing | src/frontend/org/voltdb/compiler/ClassMatcher.java:54-75 | a trimmed pattern with a '$' followed by more text matches no line of any class list, because the regex keeps the `$` anchor before that text |
| ClassFiles.ClassName | src/frontend/org/voltdb/compiler/ClassMatcher.java:134-135 | the class name is the file name without ".class" |
| ClassFiles.JavaNameJoinsChain | src/frontend/org/voltdb/compiler/ClassMatcher.java:114-122 | a package's dot name joins the names of its ancestors, outermost first, and its own with '.' |
| ClassFiles.GetJavaName | src/frontend/org/voltdb/compiler/ClassMatcher.java:115-122 | the loop over the parent chain computes that dot name |
| ClassFiles.EntryClassNames | src/frontend/org/voltdb/compiler/ClassMatcher.java:134-138 | a ".class" entry contributes the package's dot name, '.', and the class name; every entry's classes belong to the package's |
| ClassFiles.Process | src/frontend/org/voltdb/compiler/ClassMatcher.java:129-145 | the set stays ordered and gains exactly the classes of the package and its sub-packages |
| ClassFiles.RootClassNames | src/frontend/org/voltdb/compiler/ClassMatcher.java:159-163 | a class file directly under a classpath root is added under its file name, ".class" included |
| ClassFiles.PathPartMembers | src/frontend/org/voltdb/compiler/ClassMatcher.java:152-169 | a class name comes from a path part exactly when the path is a directory and one of its entries is a ".class" file of that name or a sub-directory whose package yields it; a path that is not a directory adds nothing |
| ClassFiles.ProcessPathPart | src/frontend/org/voltdb/compiler/ClassMatcher.java:152-169 | the set stays ordered and gains exactly the classes found under that classpath entry |
| ClassFiles.GetAllClassFileNames | src/frontend/org/voltdb/compiler/ClassMatcher.java:177-193 | the list is every class of every classpath entry, in compareTo order, each followed by '\n' |
| ClassFiles.ClassListLines | src/frontend/org/voltdb/compiler/ClassMatcher.java:187-192 | the lines of that list are exactly the class names, in order |
| ClassMatcher.PrintedPattern | src/frontend/org/voltdb/compiler/ClassMatcher.java:58-63 | the printed pattern is the prefix before the first '$' |
| ClassMatcher.ClassMatcher.constructor | src/frontend/org/voltdb/compiler/ClassMatcher.java:35-38 | a new matcher has no class list and no matches |
| ClassMatcher.ClassMatcher.AddMatches | src/frontend/org/voltdb/compiler/ClassMatcher.java:74-82 | the matches gain exactly the found lines that contain no '$', and are unchanged when they hold those already |
| ClassMatcher.ClassMatcher.AddPattern | src/frontend/org/voltdb/compiler/ClassMatcher.java:49-83 | the class list is loaded on first use only; the matches gain exactly the lines the pattern finds that contain no '$' |
| ClassMatcher.ClassMatcher.GetMatchedClassList | src/frontend/org/voltdb/compiler/ClassMatcher.java:85-90 | the matched names, each once, in compareTo order |
| ClassMatcher.ClassMatcher.Clear | src/frontend/org/voltdb/compiler/ClassMatcher.java:92-98 | the class list becomes "" (not null) and the matches become empty |
| ClassMatcher.PatternAddsMatchingClasses | src/frontend/org/voltdb/compiler/ClassMatcher.java:49-83 | on a class list of single-line names, a pattern adds exactly the names it matches that contain no '$' |
| ClassMatcher.ClearedListMatchesNothing | src/frontend/org/voltdb/compiler/ClassMatcher.java:95-98 | after clear() the list is "" and not reloaded, so later patterns add nothing |
| ClassMatcher.AddPatternIdempotent | src/frontend/org/voltdb/compiler/ClassMatcher.java:49-83 | adding the same pattern again leaves the matches as they were |
| PyText.PyLines | tools/log_tools/logmerger.py:60 | iterating a file yields lines that concatenate back to its content, each ending in '\n' but possibly the last |
| PyText.PyLinesOfConcat | tools/log_tools/logmerger.py:60 | splitting the concatenation of such lines gives them back |
| PyText.Basename | tools/log_tools/logmerger.py:55-56 | os.path.basename: the part of the path after its last '/' |
| PyText.RStrip | tools/log_tools/logmerger.py:231 | str.rstrip: a prefix that ends in no whitespace, with only whitespace removed |
| PyText.Lower | tools/log_tools/logmerger.py:92 | str.lower, character by character |
| PyText.LowerIsNone | tools/log_tools/logmerger.py:92 | a value lowers to "none" exactly when each of its four letters is that letter in either case |
| PyText.PyInt | tools/log_tools/logmerger.py:107 | int() accepts exactly an optional sign and one or more digits, and gives their signed value |
| PyText.IntToStringRoundTrip | tools/log_tools/logmerger.py:108 | int(str(n)) == n |
| PyText.Pad3 | tools/log_tools/logmerger.py:77-80 | "%03d" of a millisecond count: three digits with that value |
| PyText.Search | tools/log_tools/logmerger.py:259 | re.search of a literal pattern: its first occurrence, and none before |
| LogSplit.Recognise | tools/log_tools/logmerger.py:47-52 | a log_re match puts at least 14 characters in the datetime group, then a non-empty blank run, and the message starts at the first non-blank |
| LogSplit.Fields | tools/log_tools/logmerger.py:61 | log_re.match succeeds exactly on timestamp lines; the datetime group is a prefix of the line and the message holds no newline |
| LogSplit.ServerLineRecognised | tools/log_tools/logmerger.py:26-52 | a server line "yyyy-mm-dd hh:mm:ss,xxx message" gives back its datetime and its message |
| LogSplit.ApprunnerLineRecognised | tools/log_tools/logmerger.py:24-52 | an apprunner line "mm-dd hh:mm:ss message" gives back its datetime and its message |
| LogSplit.StampMessageDropsNewline | tools/log_tools/logmerger.py:51-61 | the message group is the rest of the line without its final newline |
| LogSplit.Open | tools/log_tools/logmerger.py:67-80 | a new entry holds the base file name and the message; its epoch is the key of the year-completed datetime plus the offset, and its new datetime renders that epoch |
| LogSplit.SplitLines | tools/log_tools/logmerger.py:59-89 | an empty file raises UnboundLocalError; a file without a timestamp line yields only (None, {}); otherwise one keyed entry per timestamp line |
| LogSplit.StampsAreTimestampLines | tools/log_tools/logmerger.py:61-62 | entries start exactly at the lines log_re matches |
| LogSplit.StepStamp | tools/log_tools/logmerger.py:62-80 | a timestamp line yields the open entry, if any, and opens a new one |
| LogSplit.StepPlain | tools/log_tools/logmerger.py:82-84 | any other line is appended to the open entry's message, or dropped when no entry is open |
| LogSplit.Finish | tools/log_tools/logmerger.py:86-89 | at the end the open entry is yielded, or (None, {}) when no timestamp line was seen |
| LogSplit.TakeLine | tools/log_tools/logmerger.py:60-84 | one iteration of the line loop keeps the generator's state as described |
| LogSplit.DecoratedLogSplit | tools/log_tools/logmerger.py:40-89 | the generator yields exactly the split of the file |
| LogSplit.PreambleDiscarded | tools/log_tools/logmerger.py:82-84 | lines before the first timestamp line do not change what is yielded |
| LogMerge.EntryLessIrreflexive | tools/log_tools/logmerger.py:115 | the Python 2 comparison of two entry dicts never ranks a dict below itself |
| LogMerge.EntryLessTransitive | tools/log_tools/logmerger.py:115 | that comparison is transitive |
| LogMerge.EntryLessTotal | tools/log_tools/logmerger.py:115 | of two different entries exactly one is below the other |
| LogMerge.ItemLessIrreflexive | tools/log_tools/logmerger.py:115 | the order of (key, entry) pairs, with (None, {}) first, never ranks an item below itself |
| LogMerge.ItemLessTransitive | tools/log_tools/logmerger.py:115 | the order of pairs is transitive |
| LogMerge.ItemLessTotal | tools/log_tools/logmerger.py:115 | of two different pairs exactly one is below the other |
| LogMerge.BeforeTransitive | tools/log_tools/logmerger.py:115 | heapq.merge's order (pairs, then stream index on ties) is transitive |
| LogMerge.BeforeTotal | tools/log_tools/logmerger.py:115 | of the heads of two different streams exactly one comes first |
| LogMerge.Pick | tools/log_tools/logmerger.py:115 | heapq.merge takes the smallest head, the earliest stream among equal heads, and stops when all streams are empty |
| LogMerge.Merge | tools/log_tools/logmerger.py:115 | the merge yields every item of every stream exactly once |
| LogMerge.MergeSorted | tools/log_tools/logmerger.py:115 | merging streams sorted by key gives a stream sorted by key |
| LogMerge.NoTimestampFirst | tools/log_tools/logmerger.py:115 | a (None, {}) at the head of a stream is the first thing merged |
| LogMerge.SplitFails | tools/log_tools/logmerger.py:86-89 | splitting a file fails exactly when it is empty |
| LogMerge.Streams | tools/log_tools/logmerger.py:115 | the per-file generators, each with its file's offset; UnboundLocalError exactly when some file is empty |
| LogMerge.MergeLogs | tools/log_tools/logmerger.py:113-116 | merge_logs fails exactly when some file has no offset (KeyError) or is empty (UnboundLocalError) |
| LogMerge.MergeLogsPermutes | tools/log_tools/logmerger.py:113-116 | otherwise it yields every entry of every file exactly once |
| LogMerge.MergeLogsSorted | tools/log_tools/logmerger.py:113-116 | when each file's keys rise, the merged keys rise |
| LogMerge.UnstampedSplit | tools/log_tools/logmerger.py:86-89 | a non-empty file without a timestamp line yields only (None, {}) |
| LogMerge.StampedSplit | tools/log_tools/logmerger.py:60-89 | a file with a timestamp line yields only keyed entries |
| LogMerge.MergeLogsNoTimestamp | tools/log_tools/logmerger.py:113-116 | if some file has no timestamp line, the merge starts with (None, {}) |
| LogMerge.MergeLogsAllStamped | tools/log_tools/logmerger.py:113-116 | if every file has a timestamp line, everything merged is a keyed entry |
| LogMain.TzOffsetCallback | tools/log_tools/logmerger.py:100-110 | the callback fails only with NameError or ValueError; NameError exactly when the value does not start with an optional sign ("", "+", "-" or "+-"), one or two hour digits, ':' and two minute digits; ValueError exactly when it starts that way with the sign "+-" |
| LogMain.TzMatchAccepts | tools/log_tools/logmerger.py:104-105 | offset_re matches an optional '+', an optional '-', one or two hour digits, ':' and two minute digits, whatever follows; the hours group keeps the sign |
| LogMain.TzMatchShape | tools/log_tools/logmerger.py:104-105 | conversely, every value offset_re matches starts with a sign, one or two hour digits, ':' and two minute digits, and the groups are the signed hours and the minutes |
| LogMain.TzMatchForms | tools/log_tools/logmerger.py:104-105 | every way of reading the value as sign, hours, ':', minutes and a rest gives the same match |
| LogMain.TzOffsetAccepts | tools/log_tools/logmerger.py:100-108 | "[+\|-]h:mm" and "[+\|-]hh:mm" store the signed offset in milliseconds as a decimal string |
| LogMain.TzOffsetPlusMinus | tools/log_tools/logmerger.py:104-107 | "+-hh:mm" passes the regex but int() raises ValueError |
| LogMain.TzOffsetNeedsColon | tools/log_tools/logmerger.py:104-110 | a value without ':' raises NameError, as OptionValueError is not imported |
| LogMain.TzOffsetParses | tools/log_tools/logmerger.py:218 | the offset the callback stores is a decimal string that the later int() reads back as that number |
| LogMain.Offsets | tools/log_tools/logmerger.py:217-218 | every opened file's name maps to the tz offset, and no other name is a key |
| LogMain.ExcludeCallback | tools/log_tools/logmerger.py:91-97 | "none" in any case gives '' (no exclude file); any other value is kept as the file name |
| LogMain.ExcludeList | tools/log_tools/logmerger.py:231 | the patterns are exactly the right-stripped lines that do not start with '#' |
| LogMain.Excludes | tools/log_tools/logmerger.py:227-231 | with no exclude file there are no patterns; otherwise they are the exclude list of the file's lines |
| LogMain.ExcludeLineKept | tools/log_tools/logmerger.py:231 | a '#' line is dropped wherever it is, and any other line contributes its right-stripped text |
| LogMain.ExcludeListAppend | tools/log_tools/logmerger.py:231 | the patterns of two stretches of lines are those of each, in order |
| LogMain.IsExcluded | tools/log_tools/logmerger.py:256-262 | a match is found exactly when some non-empty pattern occurs in the message, and then it is an occurrence of one |
| LogMain.ColumnsOfOutputLine | tools/log_tools/logmerger.py:264-266 | an output line splits back at its tabs into the new datetime, the file name and the message, when the first two hold no tab |
| LogMain.PrintMerged | tools/log_tools/logmerger.py:247-268 | the main loop prints, in merge order, the output line of each keyed entry that no pattern excludes, and stops with KeyError at the first (None, {}) |
| LogMain.PrintedFails | tools/log_tools/logmerger.py:256-266 | printing raises KeyError exactly when a (None, {}) pair reaches it |
| LogMain.PrintedLines | tools/log_tools/logmerger.py:247-268 | a line is printed exactly when it is the output line of a keyed entry that comes before any (None, {}) and matches no exclude pattern |
| LogMain.PrintedInOrder | tools/log_tools/logmerger.py:247-268 | the printed lines are exactly the output lines of the keyed entries that come before any (None, {}) and match no exclude pattern, each once and in merge order |
| LogMain.RunStopsOnUnstampedFile | tools/log_tools/logmerger.py:212-268 | if some file has no timestamp line, nothing is printed and KeyError is raised |
| LogMain.RunCompletes | tools/log_tools/logmerger.py:212-268 | if every file has a timestamp line, the run ends normally and prints exactly the output lines of the merged entries that no pattern excludes |
| LogMain.RunInMergeOrder | tools/log_tools/logmerger.py:212-268 | if every file has a timestamp line, the run prints the output lines of all merged entries that no pattern excludes, each once and in the order merge_logs yields them |

## Left out

- `MpInitiator` collaborators are not modelled: the term, the repair algorithm, the mailbox, the leader cache and the coordination service. They are `Effect` records in a trace, and each round's result is an input.
- The loop retries forever in the source. The model takes a finite sequence of round outcomes, and a run that uses them all ends as `Retrying`.
- Logging (`tmLog`), timing (`System.currentTimeMillis`) and `updateCatalog` are left out; so is `enableWritingIv2FaultLog`. None of them affects the protocol's state.
- `configureCommon` is left out, as are the base class constructor's arguments other than the partition id.
- TxnEgo is not part of this model. `PARTITIONID_MAX_VALUE` is taken as 16383.
- Any exception thrown inside `acceptPromotion`'s try block crashes the node. Only a repair result that throws is modelled as such an exception.
- The term's interesting replicas are taken as fixed for one `acceptPromotion` call. The source reads them from the term again for each repair algorithm and for the dump, so a replica set that changes between rounds is not modelled.
- `ClassMatcher.ClassMatcher.AddPattern` requires the trimmed pattern to be in the wildcard subset: no regex syntax other than `.`, `*` and `$`, and no line terminator. Other regex constructs in a pattern are not modelled.
- `System.err.println` of the cut pattern is modelled as a value (`ClassMatcher.PrintedPattern`), not as output.
- `System.getProperty("java.class.path")` and the file system are parameters: a list of path parts and a map from paths to directory trees.
- Class names are taken to be single lines, as file names on a classpath are.
- `compareTo` on strings is modelled on characters, not UTF-16 code units. Strings in the Python script are treated as sequences of characters rather than byte strings.
- `epochtimemillis_keyfunc`, `datetime.now().year` and `time.strftime(localtime(...))` are parameters (`Env`). The errors the key function raises on a malformed date are not modelled.
- The stderr warning for a file without a timestamp is not modelled; it does not change what is yielded.
- The apprunner tar archive is not modelled: `ApprunnerTarFile`, its per-file offsets and the `name_dict` renaming of file names.
- The option parser, the output-file redirection and the header lines printed before the merge are not modelled.
- The `IOError` exits on opening files and the `EPIPE` handling of the output are not modelled.
- `LogMain.IsExcluded` treats exclude patterns as literal substrings. Patterns holding regex syntax are not modelled.
- `PyText.PyInt` does not accept the surrounding whitespace that `int()` also allows; the script never passes any.
- `LogMerge.Streams` reports UnboundLocalError for an empty file without saying which file it was.
