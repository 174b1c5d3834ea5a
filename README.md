# Conference activity, action log and jail helper — a Dafny model

This project models two parts of a course-management web application:

- **The conference object (`src/conference.php`).**
  - The reviewer activity feed (`reviewerActivity`). It merges two paged, descending streams, comments and reviews. Each stream resumes from a cursor built from the caller's token or from the last row fetched. Rows are filtered per viewer and the result is cut at `limit` items.
  - The comment threading of `comment_rows`.
  - The action log, with its buffering mode (`log`, `save_logs`).
  - The deadline checks (`settingsAfter`, `deadlinesAfter`, `deadlinesBetween`).
  - The bucketing of a remaining time (`printableInterval`).
- **The jail helper (`jail/execjail.cc`).** This set-uid program builds a chroot jail from a textual description and runs a command in it. The model covers:
  - its file-name check (`check_filename`);
  - the `JAIL61` permission-file scan and its tokenizer (`take_word`);
  - the line parser of `construct_jail`;
  - the resolution of symbolic-link targets (`handle_symlink_dst`);
  - the hard-link alias table (`x_link_eexist_ok`);
  - the mount whitelist (`allow_mount`);
  - the command-line parser of `main`.

Pure code is modelled as datatypes and functions. Loops become methods proved against those functions:
- the feed loop;
- the two passes of `comment_rows`;
- `take_word` and the `JAIL61` scan;
- the symlink climb;
- the alias search;
- the option loop.

State that the source updates in place becomes a class:
- the logger's `_save_logs` buffer;
- the jail line parser's current directories;
- the link tables.

Modules:
- `Util`: options, sequence helpers, decimal rendering, PHP integer casts, C string search.
- `Activity`, `CommentThreads`, `ActionLog`, `Deadlines`: the conference object.
- `JailNames`, `JailRules`, `JailFile`, `JailLinks`, `JailArgs`: the jail helper.

The comment at the head of `reviewerActivity` (src/conference.php:1287) promises the most recent activity on or before the token's time. The model follows the code, which does not always do that:
- A missing or falsy activity token makes `reviewerActivity` fetch nothing, so it returns an empty list, not the most recent activity.
- A token that is not three dot-separated numbers is not read as a time of its own. It is passed to SQL as a scalar bound. The model reads it as `time < N` for a decimal integer literal and as admitting nothing otherwise.

## Model

| member | source | states |
|---|---|---|
| Activity.Compare | src/conference.php:1271-1284 | the comparator returns -1, 0 or 1 |
| Activity.SortTime | src/conference.php:1271-1284 | the time a row sorts and pages by; its role in the order is stated by `CompareOrder` |
| Activity.CompareOrder | src/conference.php:1271-1284 | antisymmetric; 0 exactly for two nulls or equal (time, contact, paper) keys; a row sorts before null; otherwise newer time first, then smaller contact id, then smaller paper id |
| Activity.CompareTransitive | src/conference.php:1271-1284 | feed order is transitive, strictly so when either step is strict |
| Activity.ParseToken | src/conference.php:1295-1298 | no cursor exactly when there is no token; a triple exactly when the token matches `\A(\d+)\.(\d+)\.(\d+)\z`, carrying the three numbers; otherwise the raw token |
| Activity.MatchTripleIff | src/conference.php:1295 | the regex matches exactly the strings made of three non-empty digit runs joined by dots |
| Activity.ParseTokenTriple | src/conference.php:1295-1296 | `a.b.c` with digit runs parses to the triple of their values |
| Activity.ParseTokenOther | src/conference.php:1297-1298 | any other token is kept as a scalar cursor |
| Activity.Admits | src/conference.php:1206-1212 | the cursor's WHERE condition; `AdmitsCursorAt` and `AdmitsUpClosed` state what it admits |
| Activity.AdmitsCursorAt | src/conference.php:1206-1212 | the triple condition admits exactly the rows that sort strictly after the row the cursor was made from |
| Activity.AdmitsUpClosed | src/conference.php:1206-1212 | whatever the cursor, what it admits is closed under "comes later in feed order" |
| Activity.Fetch | src/conference.php:1232-1270 | a fetch returns at most `limit` rows: a prefix of the admitted rows, and all of them when it is short |
| Activity.AdmittedIsSuffix | src/conference.php:1246 | on a source sorted like the ORDER BY, the admitted rows are a suffix |
| Activity.RefetchFull | src/conference.php:1315-1319 | on a strictly descending source, paging from the last row of a full batch continues exactly after that batch |
| Activity.DuplicateKeySkipped | src/conference.php:1317 | with two rows of equal key, the cursor of the first skips the second |
| Activity.RefetchShrinks | src/conference.php:1316-1317 | a full batch moves the cursor strictly forward, so the loop ends on any source |
| Activity.Merge | src/conference.php:1345-1353 | the merge has as many items as both sides together |
| Activity.MergeInterleaves | src/conference.php:1345-1353 | the comment-tagged items are exactly the comment side, and the review-tagged items the review side, in order |
| Activity.MergeMembers | src/conference.php:1345-1353 | every merged row comes from one of the sides |
| Activity.MergeSorted | src/conference.php:1345-1353 | merging two sides sorted in feed order gives a list in feed order |
| Activity.FilterSorted | src/conference.php:1309-1313 | dropping rows the viewer cannot see keeps feed order |
| Activity.Feed | src/conference.php:1286-1357 | the feed as a value: the first `limit` items of the merge of the visible admitted rows; `FeedSorted`, `FeedVisible` and `FeedComplete` state its meaning |
| Activity.FeedSorted | src/conference.php:1286-1357 | on sorted sources the feed is in feed order |
| Activity.FeedVisible | src/conference.php:1286-1357 | every feed item is a visible row of the stream its tag names |
| Activity.FeedComplete | src/conference.php:1286-1357 | a feed shorter than `limit` holds every visible admitted row of both streams |
| Activity.RemainingHead | src/conference.php:1307-1313 | a side with a current row emits it before anything else |
| Activity.PopStep | src/conference.php:1309-1313 | popping the newest buffered row keeps what the side still has to emit |
| Activity.FetchStep | src/conference.php:1314-1320 | refilling an empty buffer keeps what the side still has to emit |
| Activity.LoadSide | src/conference.php:1306-1338 | one side's load step: keeps what the side still has to emit; a restart strictly shrinks the side's measure; without a restart, an empty slot means the side is exhausted; a side with a current row, or exhausted, is left as is |
| Activity.EmitLater | src/conference.php:1344-1353 | emitting the earlier of the two current rows adds one visible item and keeps "emitted ++ merge of the rest == merge of everything" |
| Activity.PendingSorted | src/conference.php:1246 | on a sorted source, what a cursor admits is in feed order |
| Activity.RefilledFuture | src/conference.php:1315-1319 | after a refill, a side's future is the batch, then what the new cursor admits |
| Activity.PendingWithin | src/conference.php:1206-1212 | what the cursor made from an admitted row admits was admitted before |
| Activity.FetchWithin | src/conference.php:1314-1320 | a refill only drops rows from a side's future, never adds one |
| Activity.FetchSorted | src/conference.php:1314-1320 | on a sorted source, ties included, the batch followed by what the new cursor admits is in feed order |
| Activity.AfterCursor | src/conference.php:1206-1212 | what a row's cursor admits comes strictly after that row |
| Activity.PopFuture | src/conference.php:1309-1313 | popping the newest buffered row takes it off the front of the side's future |
| Activity.FutureHead | src/conference.php:1344-1353 | a side with no current row has no future; one with a current row has that row first |
| Activity.EmitInOrder | src/conference.php:1344-1353 | emitting the earlier of the two heads keeps the emitted items in feed order and before every row either side may still emit |
| Activity.PopOrder | src/conference.php:1309-1313 | popping a buffered row keeps a side's future in order behind the emitted items |
| Activity.FetchOrder | src/conference.php:1314-1320 | a refill on a sorted source keeps a side's future in order behind the emitted items |
| Activity.LoadBoth | src/conference.php:1306-1338 | loading both sides keeps the loop invariant (visible, completeness on strictly descending sources, order on sorted ones); a restart shrinks the measure; otherwise each side has a current row or is exhausted |
| Activity.StartState | src/conference.php:1299-1305 | the loop invariant holds before the first turn: nothing emitted, each side's future is everything its cursor admits |
| Activity.TakeOfPrefix | src/conference.php:1305 | when the loop stops, what it emitted is the first `limit` items of the whole merge |
| Activity.ActivityLoop | src/conference.php:1299-1356 | at most `limit` items, each visible and from its own stream; nothing for a falsy cursor; on sources sorted like the ORDER BY, ties included, the items are in feed order; on strictly descending sources, exactly the first `limit` items of the merge of the visible admitted rows |
| Activity.ReviewerActivity | src/conference.php:1286-1357 | the same, from the caller's token: bounded, visible, in feed order on sorted sources, complete on strictly descending ones; an absent or falsy token yields no activity |
| CommentThreads.RowMap | src/conference.php:1098 | rows stored by id: each key holds a row with that id, taken from the query result |
| CommentThreads.Walk | src/conference.php:1104-1106 | the `replyTo` walk ends at a loaded comment, no larger than the start, that replies to nothing loaded |
| CommentThreads.LoadComments | src/conference.php:1094-1108 | the first pass stores exactly the rows; each row's head is the end of its walk through the rows loaded before it; every head is a head of itself and holds the contacts of its thread |
| CommentThreads.ShareContacts | src/conference.php:1109-1111 | the second pass keeps the keys; every comment that is not a head gets its head's contact set |
| CommentThreads.CommentRows | src/conference.php:1094-1112 | the result holds exactly the rows; each row got the head its walk found when it was loaded; every head is a head of itself; every comment carries the set of contacts of all comments in its thread |
| CommentThreads.LoadStep | src/conference.php:1097-1108 | one turn of the first pass keeps its invariants |
| CommentThreads.WalkHead | src/conference.php:1104-1107 | a new comment's walk ends at itself or at a head loaded before; with no loaded parent, at itself |
| CommentThreads.LoadThreaded | src/conference.php:1102-1107 | adding a comment keeps every head's set equal to the contacts of its thread |
| CommentThreads.SharedThreads | src/conference.php:1109-1111 | after sharing, rows and heads are kept and every comment carries its thread's contacts |
| ActionLog.WhoText | src/conference.php:1685-1688 | the actor as written into a buffer key has no bar (`\x7c`) |
| ActionLog.PaperIds | src/conference.php:1690-1696 | null gives no ids; a paper object gives its id; a scalar gives itself when positive, else nothing; a list gives each element's paper id, in order |
| ActionLog.NormalizePids | src/conference.php:1690-1696 | the loop over `$pids` computes exactly those ids |
| ActionLog.Truncate | src/conference.php:1712 | `substr($text, 0, 4096)` is a prefix of at most 4096 bytes (one element per byte of the PHP string), the whole text when it fits |
| ActionLog.MakeEntry | src/conference.php:1703-1712 | the row `log` inserts; its meaning is stated by `EntryShape` |
| ActionLog.EntryShape | src/conference.php:1704-1712 | an entry records the contact; a paper id exactly when there is one paper; text within 4096 bytes that starts with the given text when that fits; the text alone for at most one paper; for several papers, when it fits, the text followed by ` (papers ` and the joined ids and `)` |
| ActionLog.Join | src/conference.php:1709 | the ids joined by `, `; `JoinRoundTrip` states its meaning |
| ActionLog.JoinRoundTrip | src/conference.php:1709 | the joined list names every id, in order: reading it back (split at each comma, each piece cast as `(int)` does) gives the ids again |
| ActionLog.IndexOf | src/conference.php:1677 | `strpos` finds the first occurrence, or reports none |
| ActionLog.SplitKey | src/conference.php:1677-1679 | splitting a key at its first bar (`\x7c`) gives back the actor text and the action text |
| ActionLog.IntCastOfString | src/conference.php:1679 | casting the decimal rendering of a number gives the number back |
| ActionLog.FlushEntryOfKey | src/conference.php:1676-1680 | the entry written for the key of actor `who` and text `t` is the one a direct `log(t, who, ids)` writes |
| ActionLog.Flush | src/conference.php:1676-1680 | one entry per buffer key |
| ActionLog.FlushAt | src/conference.php:1676-1680 | entry `i` of a flush is the entry of key `i`, with its ids |
| ActionLog.GroupedCalls | src/conference.php:1698-1701 | two calls with the same actor and text while saving, then a flush, write one entry holding both calls' papers |
| ActionLog.AppendStep | src/conference.php:1699-1700 | adding ids one at a time equals adding them all at once |
| ActionLog.FlushOrigins | src/conference.php:1676-1680 | every flushed entry is the one a direct call by the key's actor with the key's text would write, with the key's papers |
| ActionLog.Logger.constructor | src/conference.php:17 | the logger starts not saving, with an empty buffer and nothing written |
| ActionLog.Logger.Log | src/conference.php:1684-1713 | while saving: nothing is written and the ids are appended to the group keyed by actor and text, a new group going last; otherwise: exactly one entry is written |
| ActionLog.Logger.AddAllToGroup | src/conference.php:1699-1700 | the ids are appended in order to the actor/text group |
| ActionLog.Logger.AddToGroup | src/conference.php:1700 | one id is appended; a new key is added last |
| ActionLog.Logger.SaveLogs | src/conference.php:1670-1682 | turning saving on starts an empty buffer, or keeps the current one if saving is already on; turning it off writes one entry per key, in key order, each equal to a direct call by the key's actor and text with all its ids, and leaves nothing buffered |
| ActionLog.Logger.WriteGroups | src/conference.php:1676-1680 | the loop writes exactly the flush of the detached buffer |
| ActionLog.Logger.WriteGroup | src/conference.php:1677-1679 | one key written as its flush entry |
| ActionLog.Logger.SplitAtBar | src/conference.php:1677-1679 | the two `substr` calls split the key so that logging the parts gives the key's flush entry, also for a key without bar (`\x7c`) |
| Deadlines.SettingsAfter | src/conference.php:548-552 | `settingsAfter`: the setting is set, positive and not in the future; `SettingsAfterStays` states that it stays true |
| Deadlines.DeadlinesAfterAsWritten | src/conference.php:553-558 | `deadlinesAfter` as written, adding the grace name cast to a number; `GraceNameIgnored` and `GraceCounterexample` state what that does |
| Deadlines.DeadlinesBetweenAsWritten | src/conference.php:560-569 | `deadlinesBetween` as written; `GraceNameIgnored` and `GraceCounterexample` state what that does |
| Deadlines.DeadlinesAfter | src/conference.php:553-558 | `deadlinesAfter` with the grace value added; `GraceDelays` and `DeadlinesAfterStays` state its meaning |
| Deadlines.DeadlinesBetween | src/conference.php:560-569 | `deadlinesBetween` with the grace value added; `BetweenIsAfterAndNotAfter` states its meaning |
| Deadlines.SettingsAfterStays | src/conference.php:548-552 | once a setting's time has come, it stays come |
| Deadlines.Deadline | src/conference.php:553-558 | a missing setting stays NULL; a set, positive one is moved by the grace; a non-positive one keeps its value |
| Deadlines.GraceValue | src/conference.php:556-557 | a non-zero grace comes from a truthy grace name whose setting is set and non-zero |
| Deadlines.GraceNameIgnored | src/conference.php:553-569 | as written, a grace whose name does not start with digits changes nothing in either check |
| Deadlines.GraceCounterexample | src/conference.php:553-569 | deadline 100 and grace 50 at time 120: as written the deadline has passed; with the grace value it has not |
| Deadlines.GraceDelays | src/conference.php:553-558 | with a non-negative grace, a deadline passes only after its own time, and at the latest at that time plus the grace |
| Deadlines.DeadlinesAfterStays | src/conference.php:553-558 | a passed deadline stays passed |
| Deadlines.BetweenIsAfterAndNotAfter | src/conference.php:560-569 | "between" means the first deadline has passed (when named) and the second has not, or falls exactly now |
| Deadlines.CeilDiv | src/conference.php:412 | `ceil(a / b)` of positive numbers is positive |
| Deadlines.CeilDivBounds | src/conference.php:412 | `a <= b * ceil(a/b) < a + b` |
| Deadlines.CeilDivMono | src/conference.php:412 | `ceil(a/b)` is monotone in `a` |
| Deadlines.PrintableInterval | src/conference.php:410-429 | the bands of `printableInterval`; `ShownIsRoundedUp`, `IntervalRoundsUp`, `IntervalUnits` and `IntervalMonotone` state its meaning |
| Deadlines.ShownIsRoundedUp | src/conference.php:410-429 | the seconds an interval reads as are the time rounded up to its band's step |
| Deadlines.IntervalRoundsUp | src/conference.php:410-429 | "past" exactly when no time is left; otherwise it reads as at least the time and less than one step more |
| Deadlines.IntervalUnits | src/conference.php:410-429 | days only for more than three days, hours between 1.5 and 72, minutes between 4 and 60, seconds up to 180 |
| Deadlines.IntervalMonotone | src/conference.php:410-429 | more time left never reads as less |
| JailNames.ScanDotDot | jail/execjail.cc:694-700 | the `strstr` loop over `..` occurrences; `ScanFindsComponents` states that it finds a `..` component exactly when one exists |
| JailNames.ScanFindsComponents | jail/execjail.cc:694-700 | the `strstr` loop finds a `..` component exactly when one exists |
| JailNames.CheckFilename | jail/execjail.cc:684-709 | `check_filename`'s verdict; `CheckFilenameMeans` states it as a condition on the name |
| JailNames.CheckFilenameMeans | jail/execjail.cc:684-709 | accepted iff: every character is allowed (slash only when allowed); no leading `~`; no `..` component; no leading `/` unless absolute names are allowed; shorter than 1024 |
| JailNames.AcceptedHasNoParent | jail/execjail.cc:694-700 | no accepted name has a `..` component |
| JailNames.CheckFilenameAccepts | jail/execjail.cc:684-709 | the empty name, `...` and `a..b` are accepted |
| JailNames.CheckFilenameRefusesParent | jail/execjail.cc:694-700 | `..`, `a/..` and `../a` are refused |
| JailNames.CheckFilenameAbsolute | jail/execjail.cc:684-709 | `/a` needs both slash and absolute permission; `~a` is refused |
| JailNames.AllowMount | jail/execjail.cc:254-259 | the mount whitelist; `AllowMountUnique` states which mounts it allows |
| JailNames.AllowMountUnique | jail/execjail.cc:254-259 | only `/proc`, `/sys`, `/dev` and `/dev/pts` are mountable, each with exactly one type |
| JailRules.TakeWordSpec | jail/execjail.cc:820-830 | the position never goes back and never passes the end; a word advances it; no word leaves it at the end or on a newline |
| JailRules.TakeWordMeans | jail/execjail.cc:820-830 | no newline is passed; the word is the maximal non-space run ending at the new position, preceded only by blanks |
| JailRules.TakeWord | jail/execjail.cc:820-830 | the in-place loop computes exactly that word and position |
| JailRules.SkipWords | jail/execjail.cc:1007-1008 | the rest of a line is skipped up to its newline or the end |
| JailRules.DirWord | jail/execjail.cc:1012-1013 | a directory word gets a trailing `/` when it lacks one |
| JailRules.RuleLine | jail/execjail.cc:1005-1013 | one line of a `JAIL61` file as a rule; `RuleLineAdvances` and `ScanLine` state its meaning |
| JailRules.Rules | jail/execjail.cc:1004-1013 | the rules of a `JAIL61` file, in order; `ScanJail61` states that the scan applies exactly these |
| JailRules.RuleLineAdvances | jail/execjail.cc:1004-1010 | every line moves the scan forward |
| JailRules.Decide | jail/execjail.cc:1014-1024 | the rules applied in order; `DecideMeans` states the verdict |
| JailRules.DecideMeans | jail/execjail.cc:1014-1024 | a file refuses the jail exactly when one of its rules denies it; otherwise the last allowing rule's directory is recorded, and with no allowing rule nothing changes |
| JailRules.ScanLine | jail/execjail.cc:1005-1013 | one line of the scan gives its rule and the position after it |
| JailRules.ScanJail61 | jail/execjail.cc:1004-1024 | the scan's verdict is the rules of the file applied in order |
| JailRules.DirMatchesComponents | jail/execjail.cc:1012-1018 | `nojail /ho` does not cover `/home/j`, while `nojail /home` does |
| JailFile.TrimEnd | jail/execjail.cc:619-621 | trimming gives the longest prefix that does not end in a space |
| JailFile.CollapseTrail | jail/execjail.cc:635-636 | a run of trailing slashes is reduced to one: the result is a prefix that keeps a final slash, does not end in two, and drops only slashes |
| JailFile.SourceDir | jail/execjail.cc:626-640 | a `DIR:` line selects a directory that starts with `/` and ends in exactly one `/` |
| JailFile.SourceDirRoot | jail/execjail.cc:627-634 | `.:`, `./:` and `:` select the root |
| JailFile.SourceDirRelative | jail/execjail.cc:629-638 | a leading `./` is dropped and a `/` is added at the end |
| JailFile.SourceDirCollapses | jail/execjail.cc:632-638 | trailing slashes collapse to one |
| JailFile.SplitFlags | jail/execjail.cc:645-658 | no entry exactly when the line has no `[`; otherwise the name is a proper prefix of the line |
| JailFile.CpFlagExamples | jail/execjail.cc:645-658 | `[cp]` and `[ro,cp]` set the copy flag; `[cpio,cp]` does not, since only the first `cp` is looked at |
| JailFile.EntryOf | jail/execjail.cc:660-675 | parent directories are created exactly for absolute names; the flag is kept |
| JailFile.EntryOfMeans | jail/execjail.cc:660-674 | `NAME <- SRC` copies SRC to NAME in the current destination directory; a relative name is copied from the current source directory; an absolute name from itself |
| JailFile.DstRoot | jail/execjail.cc:589-591 | the jail root loses its trailing slashes, except that `/` stays |
| JailFile.InitialDstDirCounterexample | jail/execjail.cc:615 | as written, `bin` before any `DIR:` line in jail `/jail` is copied to `/jailbin`, outside the jail root |
| JailFile.JailParser.constructor | jail/execjail.cc:589-615 | the parser starts at the source root; the destination directory is the bare jail root, as written, or the root followed by `/` when corrected |
| JailFile.JailParser.ReadLine | jail/execjail.cc:618-675 | blank lines change nothing; `DIR:` lines change the source directory only; a flags line with no `[` is skipped; every other line adds exactly its entry; earlier copies are kept; a `DIR:` line sets the destination directory to root + source directory; when it already was that, or the entry is absolute, every new copy's destination starts with the root followed by `/` (`..` components are not resolved) |
| JailFile.JailParser.Trimmed | jail/execjail.cc:619-621 | the in-place trim computes the trimmed line |
| JailFile.JailParser.SplitFlagsOf | jail/execjail.cc:645-658 | the in-place `[FLAGS]` cut computes the name and flag |
| JailFile.JailParser.SourceDirOf | jail/execjail.cc:626-640 | the in-place normalisation computes the selected directory |
| JailFile.EntryUnderRoot | jail/execjail.cc:660-674 | an entry read in a well-formed source directory gets a destination path that starts with the root followed by `/`; `..` components are not resolved |
| JailFile.AbsoluteUnderRoot | jail/execjail.cc:660-674 | with the bare root as destination directory, an absolute entry still gets a destination that starts with the root followed by `/` |
| JailFile.ConstructJail | jail/execjail.cc:588-675 | every copy's destination path starts with the root followed by `/` (`..` components are not resolved): always with the corrected start, and with the start as written when every relative entry follows a `DIR:` line |
| JailFile.ParentNotChecked | jail/execjail.cc:660-674 | the name `../../etc/x` after a `.:` line gives the destination `/jail/../../etc/x`: no `..` check is made |
| JailFile.CorrectedStartAbsolute | jail/execjail.cc:615 | an absolute entry before the first `DIR:` line goes to `/jail/bin/sh` as written and to `/jail//bin/sh` with the corrected start |
| JailFile.RelativeEntryMirrors | jail/execjail.cc:671-674 | a plain relative entry is copied to the same path inside the jail |
| JailLinks.Limit | jail/execjail.cc:386-387 | `length() - 2` as an unsigned bound: the last index but one, or the whole string when shorter than 2 |
| JailLinks.Climb | jail/execjail.cc:380-401 | the `../` climb of a relative link target; `ClimbShape` states its result |
| JailLinks.Resolve | jail/execjail.cc:377-401 | an absolute target inside the jail, or the climb; `ResolveStaysInJail` states where it leads |
| JailLinks.ClimbShape | jail/execjail.cc:380-401 | a relative target resolves to a directory prefix of the link's source and destination paths, followed by the same tail of the target; the destination prefix ends at a slash past the jail root |
| JailLinks.ResolveStaysInJail | jail/execjail.cc:377-401 | when the link's destination starts with the jail root followed by `/`, so does the resolved destination; `..` components left in the target's tail are not resolved |
| JailLinks.HandleSymlinkDst | jail/execjail.cc:371-405 | a copy is requested exactly when resolution succeeds and the target is not under `/proc/`; it is the resolved pair |
| JailLinks.LinkTables.constructor | jail/execjail.cc:39-40 | both tables start empty |
| JailLinks.LinkTables.AddDst | jail/execjail.cc:499 | records a created destination |
| JailLinks.LinkTables.AddDirLink | jail/execjail.cc:406-410 | the directory and the link become aliases of each other; nothing else changes |
| JailLinks.LinkTables.LinkEexistOk | jail/execjail.cc:106-124 | true exactly when, at some slash of the path, an alias of the directory before it holds the rest of the path among the created destinations |
| JailArgs.OptionStep | jail/execjail.cc:847-880 | one option is consumed exactly when the argument is one of the known flags, or `-l` with a value; `-d` and `-m` once set stay set; `-n` brings `-V` |
| JailArgs.ScanOptions | jail/execjail.cc:846-882 | the arguments left are a suffix of the arguments |
| JailArgs.ScanOptionsStops | jail/execjail.cc:846-882 | the arguments left never start with an option |
| JailArgs.Validate | jail/execjail.cc:881-892 | the checks after the option loop; `ParseAccepts` and `ParseRefuses` state them |
| JailArgs.Parse | jail/execjail.cc:846-892 | the command line as a value; `ParseAccepts`, `ParseKillOnly`, `ParseMove`, `ParseKillThenExec` and `ParseRefuses` state its meaning |
| JailArgs.ParseAccepts | jail/execjail.cc:846-892 | every accepted command line has a non-empty first positional argument that is not an option; it is a run with three positional arguments and no `-m`, a teardown with `-d` and one, or a move with `-m` and two, never combined with `-t`, `-s` or `-d` |
| JailArgs.ParseKillOnly | jail/execjail.cc:847-892 | `-d DIR` only tears down |
| JailArgs.ParseMove | jail/execjail.cc:877-892 | `-m OLD NEW` moves |
| JailArgs.ParseKillThenExec | jail/execjail.cc:847-892 | `-d` before the three arguments of a run tears down, then runs |
| JailArgs.ParseRefuses | jail/execjail.cc:881-892 | an unknown option, and `-m` with `-t`, are refused |
| JailArgs.ParseArgs | jail/execjail.cc:846-892 | `main`'s option loop and checks compute exactly the parse |

## Left out

- SQL and the database: each table is a fixed sequence of rows that already meets every WHERE condition except the cursor's. A fetch is the first `limit` admitted rows. The viewer checks `can_view_comment` and `can_view_review` are parameters.
- Activity.ActivityLoop: completeness is stated for strictly descending sources only (distinct keys on each side). With duplicate keys the triple cursor skips rows; `Activity.DuplicateKeySkipped` shows this. Feed order is stated for every sorted source, ties included.
- Activity.ReviewerActivity: the same completeness restriction as `ActivityLoop`.
- Activity: there is no well-formedness predicate tying a row's shape to its table (`timeModified` set on comment rows, absent on review rows). The SQL sort column and the comparator's time are both read as `SortTime` of the row, so every stated property holds for rows of either shape.
- The conversion of a scalar cursor by SQL is modelled only for decimal integer literals. Any other truthy token admits nothing.
- CommentThreads.CommentRows: returns a map keyed by comment id, so the insertion order of the PHP array (the query's order, which `reviewerActivity` reverses at src/conference.php:1316) is not kept. The feed model takes fetched rows as a sequence in query order instead.
- CommentThreads.CommentRows: requires positive, distinct comment ids, and a `replyTo` smaller than the comment id. The code has no such check: a `replyTo` cycle among loaded rows makes its walk loop forever.
- ActionLog.Truncate: counts elements of the text, each standing for one byte of the PHP string. UTF-8 decoding is not modelled, so a cut inside a multi-byte sequence is a valid prefix here.
- ActionLog.EntryShape: the 4096 bound is in bytes, as for `Truncate`; nothing is said about characters.
- ActionLog: the client IP address, SQL quoting and the query itself are left out. Each written row is an `Entry`. PHP numeric strings other than decimal integers are not modelled as actors.
- Deadlines: settings are integers. PHP 8 raises a TypeError when a non-numeric grace name is added to a number; the model follows the older behaviour, which adds 0. `plural()` is not modelled; `printableInterval` returns the amount and the unit, and only for whole seconds.
- Jail helper, system calls: `handle_copy`, mounts, the `openat` walk and all other system calls are out of the model. The jail parser returns the copy requests it would make instead of performing them.
- Jail helper, input: lines are given whole. The `fgets`/`BUFSIZ` splitting of long lines and the single 8192-byte read of a `JAIL61` file are not modelled.
- JailFile.JailParser.constructor: takes the start as a flag. The corrected start gives an absolute entry read before any `DIR:` line a doubled slash after the root (`JailFile.CorrectedStartAbsolute`). The destination table and the link table compare paths as strings (jail/execjail.cc:106-124, 497-499), so this changes which entries count as already created.
- JailFile: names are not checked for `..` components (jail/execjail.cc:660-674), and neither are link targets once the leading `../` are climbed (jail/execjail.cc:398-399). "Starts with the root followed by `/`" is a property of the path string, not of the resolved file.
- JailLinks.HandleSymlinkDst: returns the copy it asks for. Recording a directory link in the tables is the separate `AddDirLink`.
- JailArgs.ParseArgs: the command line is given without the program name. `usage()` is the `Usage` result. Everything after the checks (tty, fork, exec) is out of the model.

## Findings

| source | as written | input that shows it | evidently intended | confidence | as-written member | corrected member |
|---|---|---|---|---|---|---|
| src/conference.php:557 | `$t += $grace` in `deadlinesAfter` adds the grace setting's NAME, as a number (0 for names such as `sub_grace`), not its value | settings `sub_sub = 100`, `sub_grace = 50`; `deadlinesAfter("sub_sub", "sub_grace")` at time 120 reports the deadline as passed | add the grace setting's value, `$t += $g` | not executed | Deadlines.GraceCounterexample | Deadlines.GraceDelays |
| src/conference.php:567 | the same `$t += $grace` in `deadlinesBetween` | the same settings; `deadlinesBetween("", "sub_sub", "sub_grace")` at time 120 reports the period as over | add the grace setting's value, `$t += $g` | not executed | Deadlines.GraceCounterexample | Deadlines.BetweenIsAfterAndNotAfter |
| jail/execjail.cc:615 | `curdstdir` starts as `dstroot`, without the trailing `/` that every later `DIR:` line gives it | jail `/jail` and a first line `bin` request a copy to `/jailbin`, outside the jail | start at `dstroot + cursrcdir`, as after a `.:` line | not executed | JailFile.InitialDstDirCounterexample | JailFile.ConstructJail |
