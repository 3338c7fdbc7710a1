# Bob, a command-line task tracker, in Dafny

Bob keeps a list of tasks. There are three kinds of task:

- a todo, which is only a description;
- a deadline, which has a due time;
- an event, which has a start and an end.

The user types one command per line:

- `list`;
- `mark N`, `unmark N` and `delete N`;
- `todo ...`, `deadline ... /by ...` and `event ... /from ... /to ...`;
- `find ...` and `on yyyy-MM-dd`;
- `bye`.

After every change Bob writes the whole list to a text file, one task per line with fields separated by `" | "`. It reads that file back when it starts.

The program comes in two versions, and this project models both.

- **The `bob` package.** `Bob.processCommand` recognises the command word. A `handle*` method parses the rest of the line, changes the `TaskList`, saves it through `Storage`, and answers with a `CommandResult`. Times are typed in one of six forms and read by `DateTimeUtil`.
- **The single-file program, `src/main/java/Bob.java`.** It is the earlier version. Its `main` loop trims each line, runs one branch of an if-chain and prints the reply between divider lines. It keeps times as the text the user typed.

Modules:

- `Options`: the `Option` and `Outcome` (success or error message) wrappers.
- `Strings`: the parts of `java.lang.String` and `Integer` that the program relies on: `trim`, `indexOf`, `contains`, `toLowerCase`, `equalsIgnoreCase`, `parseInt` and `toString`. Java's 32-bit `int` is written out where it matters.
- `DateTimeUtil`: the six input patterns, the display formats and the storage format.
- `Tasks`: `Task` is a class whose status is changed in place. `TaskData` is the value of a task at one moment, and `Snapshot` reads a sequence of task objects as values. The kind of a task is generic in the type of its times: `Timestamp` in the `bob` package, `string` in the single-file program.
- `TaskLists`: the `TaskList` class and its keyword and on-date searches.
- `Parser`: the argument parsers.
- `Storage`: the line format, its split with the regular expression `\s*\|\s*`, load and save.
- `Commands`: `CommandResult`.
- `Bob`: `processCommand` and its handlers.
  - `Step` is the specification of one command over task values.
  - The class `Bob.Bob` carries the command out on task objects, and each of its methods is proved to do what `Step` says.
- `LegacyBob`: the single-file program's main loop, in the same form.
  - `Step` is one pass of the loop and `RunLines` is the loop.
  - The class `LegacyBob.Session` runs the loop on task objects.

Disk writes are modelled as a parameter: `None` when the file was written, `Some(reason)` when the write threw an `IOException`. The file is a field that holds the lines of the last save that went through. Reading the file is modelled as `Option<seq<string>>`, which is `None` when there is no file.

## Model

| member | source | states |
|---|---|---|
| Strings.Int32Dec | src/main/java/bob/parser/Parser.java:23-24 | `oneBased - 1` in Java `int` arithmetic: the result stays in range, is one less for every input but `Integer.MIN_VALUE`, and wraps that one to `Integer.MAX_VALUE` |
| Strings.Trim | src/main/java/bob/parser/Parser.java:39 | `String.trim()` returns a string with no character at or below U+0020 at either end, and leaves such a string unchanged |
| Strings.TrimPads | src/main/java/bob/parser/Parser.java:39 | trim removes exactly the run of trim-space characters before the result and the run after it, and nothing else |
| Strings.TrimIdempotent | src/main/java/Bob.java:257 | trimming an already trimmed line changes nothing |
| Strings.TrimIsSlice | src/main/java/bob/parser/Parser.java:39 | trim never lengthens a string and never introduces a character |
| Strings.TrimAllSpace | src/main/java/bob/parser/Parser.java:39 | a string made only of blanks trims to the empty string |
| Strings.TrimPadded | src/main/java/bob/parser/Parser.java:39 | a trimmed non-empty text padded with blanks on both sides trims back to itself |
| Strings.IndexOf | src/main/java/bob/parser/Parser.java:53 | `indexOf` gives the first position where the pattern occurs, and -1 exactly when it occurs nowhere |
| Strings.TrimLacks | src/main/java/bob/parser/Parser.java:59-60 | trimming a text that lacks a marker cannot create the marker |
| Strings.ToLower | src/main/java/bob/task/TaskList.java:125-127 | `toLowerCase` keeps the length and lower-cases each character on its own |
| Strings.EqualsIgnoreCaseBye | src/main/java/bob/Bob.java:99 | `equalsIgnoreCase("bye")` accepts exactly the eight letter-case spellings of "bye" |
| Strings.NatToString | src/main/java/bob/Bob.java:223 | `Integer.toString` of a count is one or more digits with no leading zero |
| Strings.NatToStringValue | src/main/java/bob/Bob.java:223 | the decimal text of n reads back as n |
| Strings.PaddedDigits | src/main/java/bob/util/DateTimeUtil.java:11-12 | a zero-padded field of the date patterns has exactly its width in digits |
| Strings.PaddedDigitsValue | src/main/java/bob/util/DateTimeUtil.java:11-12 | a zero-padded field reads back as the number written into it |
| Strings.PaddedOfDigits | src/main/java/bob/util/DateTimeUtil.java:35-36 | a digit field written back at its own width is the field itself, leading zeros included |
| Strings.ParseInt | src/main/java/bob/parser/Parser.java:23 | `Integer.parseInt` accepts exactly an optional sign followed by one or more digits whose signed value fits an `int`; the value is negated after '-', and a value out of range is refused as the `NumberFormatException` refuses it |
| Strings.ParseIntOfNatToString | src/main/java/bob/parser/Parser.java:23 | `parseInt` reads back `toString` of every non-negative `int` |
| Strings.IntToString | src/main/java/bob/parser/Parser.java:23 | `Integer.toString` starts with '-' exactly for a negative number |
| Strings.ParseIntOfIntToString | src/main/java/bob/parser/Parser.java:23 | `parseInt` reads back `toString` of every `int`, negative ones included |
| Strings.ParseIntOverflow | src/main/java/bob/parser/Parser.java:22-27 | a digit string above `Integer.MAX_VALUE`, such as "99999999999", does not parse |
| DateTimeUtil.ParseIsoDate | src/main/java/bob/util/DateTimeUtil.java:50 | `yyyy-MM-dd` accepts only a valid calendar date written in ten characters with '-' at position 4 |
| DateTimeUtil.IsoDateCanonical | src/main/java/bob/util/DateTimeUtil.java:50 | `yyyy-MM-dd` accepts nothing but the exact ten-character text of the date it reads: four-digit year, two-digit month and two-digit day, joined by '-' |
| DateTimeUtil.ParseDmyDate | src/main/java/bob/util/DateTimeUtil.java:51 | `d/M/yyyy` accepts only a valid calendar date with no blank, split at its first two slashes into the day, then the month, then a four-digit year, which are the date's day, month and year |
| DateTimeUtil.DmyDateReads | src/main/java/bob/util/DateTimeUtil.java:51 | conversely, a day, a month and a four-digit year joined by slashes, in that order, read as that date |
| DateTimeUtil.DayFirstText | src/main/java/bob/util/DateTimeUtil.java:51 | `d/M/yyyy` reads back every valid date written day first without leading zeros |
| DateTimeUtil.FormatCompactTime | src/main/java/bob/util/DateTimeUtil.java:21-22 | `HHmm`: two digits of the hour, then two digits of the minute, with their values |
| DateTimeUtil.ParseCompactTime | src/main/java/bob/util/DateTimeUtil.java:35 | `HHmm` accepts only the `HHmm` rendering of a valid time, and reads it as that hour and minute |
| DateTimeUtil.CompactTimeRoundTrip | src/main/java/bob/util/DateTimeUtil.java:35 | `HHmm` reads back every time it writes |
| DateTimeUtil.ParseColonTime | src/main/java/bob/util/DateTimeUtil.java:36 | `HH:mm` accepts only the `HH:mm` rendering of a valid time, and reads it as that hour and minute |
| DateTimeUtil.ColonTimeRoundTrip | src/main/java/bob/util/DateTimeUtil.java:36 | `HH:mm` reads back every time it writes |
| DateTimeUtil.DmyDateTime | src/main/java/bob/util/DateTimeUtil.java:37-38 | the two day-first date-time patterns accept only a valid minute: the date before the blank is read day first, and the text after it is exactly the time in the pattern's form |
| DateTimeUtil.Apply | src/main/java/bob/util/DateTimeUtil.java:34-61 | each of the six patterns yields only valid date-times of its own outward shape; the date-only patterns yield midnight |
| DateTimeUtil.FirstMatch | src/main/java/bob/util/DateTimeUtil.java:41-47 | the loop over a pattern list fails exactly when every pattern fails, and otherwise returns one pattern's reading |
| DateTimeUtil.ParseUserDateTimeTrims | src/main/java/bob/util/DateTimeUtil.java:32 | the input is trimmed before any pattern sees it |
| DateTimeUtil.ShapesDisjoint | src/main/java/bob/util/DateTimeUtil.java:34-52 | no text has the outward form of two different patterns |
| DateTimeUtil.PatternsExclusive | src/main/java/bob/util/DateTimeUtil.java:34-52 | at most one pattern accepts any given text |
| DateTimeUtil.FirstMatchOfOnly | src/main/java/bob/util/DateTimeUtil.java:41-47 | when exactly one pattern reads a text, the first-match loop returns that reading when the pattern is in its list and fails otherwise |
| DateTimeUtil.OrderFreeIf | src/main/java/bob/util/DateTimeUtil.java:31-61 | a pattern that reads the trimmed text decides the result |
| DateTimeUtil.OrderFreeOnlyIf | src/main/java/bob/util/DateTimeUtil.java:31-61 | every result is some pattern's reading of the trimmed text |
| DateTimeUtil.ParseUserDateTimeOrderFree | src/main/java/bob/util/DateTimeUtil.java:31-64 | `parseUserDateTime` returns dt if and only if some pattern reads the trimmed text as dt, so the order of the patterns does not matter |
| DateTimeUtil.NoPatternApplies | src/main/java/bob/util/DateTimeUtil.java:63 | text that no pattern reads is refused |
| DateTimeUtil.DateOnlyIsMidnight | src/main/java/bob/util/DateTimeUtil.java:54-57 | a bare date, in either date-only form, resolves to the start of that day |
| DateTimeUtil.FormatDateForDisplay | src/main/java/bob/util/DateTimeUtil.java:86-88 | `MMM dd yyyy`: the English month abbreviation, the two-digit day and the four-digit year of the date |
| DateTimeUtil.FormatTime | src/main/java/bob/util/DateTimeUtil.java:14-15 | `HH:mm`: two digits of the hour, a colon, two digits of the minute |
| DateTimeUtil.FormatForDisplay | src/main/java/bob/util/DateTimeUtil.java:73-78 | the date alone at exactly midnight, otherwise the date, a blank and the `HH:mm` of the time |
| DateTimeUtil.DateDisplayInjective | src/main/java/bob/util/DateTimeUtil.java:86-88 | two different dates never display alike |
| DateTimeUtil.DisplayInjective | src/main/java/bob/util/DateTimeUtil.java:73-78 | two different date-times never display alike |
| DateTimeUtil.FormatIsoDate | src/main/java/bob/util/DateTimeUtil.java:50 | writing a valid date as `yyyy-MM-dd` gives text that `ParseIsoDate` reads back as that date |
| DateTimeUtil.FormatStorage | src/main/java/bob/util/DateTimeUtil.java:21-22 | `yyyy-MM-dd HHmm` is always fifteen characters, starting and ending in digits |
| DateTimeUtil.ParseStorage | src/main/java/bob/util/DateTimeUtil.java:21-22 | only a fifteen-character text is read by the storage pattern |
| DateTimeUtil.StorageRoundTrip | src/main/java/bob/util/DateTimeUtil.java:21-22 | the storage pattern reads back every date-time it writes |
| DateTimeUtil.ResolverReadsStorageFormat | src/main/java/bob/util/DateTimeUtil.java:34-35 | what the storage pattern writes, the user-facing resolver also accepts unchanged |
| DateTimeUtil.SlashFieldsOf | src/main/java/bob/util/DateTimeUtil.java:51 | slash-free day and month fields split back out of the `d/M/yyyy` text |
| DateTimeUtil.ResolverReadsIsoColon | src/main/java/bob/util/DateTimeUtil.java:36 | the resolver reads every date-time written as `yyyy-MM-dd HH:mm` back as itself |
| DateTimeUtil.ResolverReadsDmyCompact | src/main/java/bob/util/DateTimeUtil.java:37 | the resolver reads every date-time written as `d/M/yyyy HHmm` back as itself: day, month, year, hour, minute |
| DateTimeUtil.ResolverReadsDmyColon | src/main/java/bob/util/DateTimeUtil.java:38 | the resolver reads every date-time written as `d/M/yyyy HH:mm` back as itself: day, month, year, hour, minute |
| DateTimeUtil.ResolverReadsIsoDate | src/main/java/bob/util/DateTimeUtil.java:50-57 | the resolver reads every date written as `yyyy-MM-dd` as the start of that day |
| DateTimeUtil.ResolverReadsDmyDate | src/main/java/bob/util/DateTimeUtil.java:51-57 | the resolver reads every date written as `d/M/yyyy` as the start of that day |
| DateTimeUtil.DmyDateExample | src/test/java/bob/util/DateTimeUtilTest.java:36-40 | "15/1/2025" reads as 15 January 2025: d and M take as many digits as there are |
| DateTimeUtil.IsoCompactExample | src/test/java/bob/util/DateTimeUtilTest.java:22-26 | "2025-01-15 1800" reads as 18:00 on 15 January 2025 |
| DateTimeUtil.IsoColonExample | src/test/java/bob/util/DateTimeUtilTest.java:29-33 | "2025-01-15 18:00" reads as 18:00 on 15 January 2025 |
| DateTimeUtil.DmyCompactExample | src/test/java/bob/util/DateTimeUtilTest.java:36-40 | "15/1/2025 1800" reads as 18:00 on 15 January 2025 |
| DateTimeUtil.DmyColonExample | src/test/java/bob/util/DateTimeUtilTest.java:43-47 | "15/1/2025 18:00" reads as 18:00 on 15 January 2025 |
| DateTimeUtil.IsoDateOnlyExample | src/test/java/bob/util/DateTimeUtilTest.java:50-54 | "2025-01-15" reads as midnight on that day |
| DateTimeUtil.DmyDateOnlyExample | src/test/java/bob/util/DateTimeUtilTest.java:57-61 | "15/1/2025" reads as midnight on that day |
| DateTimeUtil.PaddedInputIgnored | src/test/java/bob/util/DateTimeUtilTest.java:64-68 | blanks around the text make no difference |
| DateTimeUtil.NotADateExample | src/test/java/bob/util/DateTimeUtilTest.java:73-74 | "not-a-date" is refused |
| DateTimeUtil.SlashedIsoExample | src/test/java/bob/util/DateTimeUtilTest.java:75-76 | "2025/01/15 1800", slashes in year-first order, is refused |
| DateTimeUtil.InvalidDmyDateExample | src/test/java/bob/util/DateTimeUtilTest.java:75-76 | "2025/01/15" is not a day-first date |
| DateTimeUtil.StorageFormatExample | src/main/java/bob/util/DateTimeUtil.java:21-22 | 18:00 on 15 January 2025 is stored as "2025-01-15 1800" |
| DateTimeUtil.IsoDateExample | src/main/java/bob/util/DateTimeUtil.java:50 | "2025-01-15" is the ISO form of 15 January 2025 |
| DateTimeUtil.IsoDateFormatExample | src/main/java/bob/util/DateTimeUtil.java:50 | 15 January 2025 is written "2025-01-15" |
| DateTimeUtil.MidnightDisplayExample | src/test/java/bob/util/DateTimeUtilTest.java:82-86 | midnight on 15 January 2025 displays as "Jan 15 2025" |
| DateTimeUtil.JanuaryDisplayExample | src/test/java/bob/util/DateTimeUtilTest.java:82-86 | 15 January 2025 displays as "Jan 15 2025" |
| DateTimeUtil.TimeDisplayExample | src/test/java/bob/util/DateTimeUtilTest.java:89-93 | 18:30 on 15 January 2025 displays as "Jan 15 2025 18:30" |
| DateTimeUtil.EveningTimeExample | src/test/java/bob/util/DateTimeUtilTest.java:89-93 | 18:30 is written "18:30" |
| DateTimeUtil.DateDisplayExample | src/test/java/bob/util/DateTimeUtilTest.java:105-109 | 25 December 2025 displays as "Dec 25 2025" |
| Tasks.Icon | src/main/java/bob/task/Task.java:12-21 | the status icon is one character, "X" exactly for DONE and " " exactly for NOT_DONE |
| Tasks.PlainDisplay | src/main/java/bob/task/Task.java:87-89 | `Task.toString` is "[", the icon, "] " and the description |
| Tasks.Display | src/main/java/bob/tasktype/Deadline.java:26-28 | the toString of each kind is its tag in brackets, the plain display, then the times: none for a todo, " (by: ...)" for a deadline, " (from: ... to: ...)" for an event |
| Tasks.DisplayOnlyIconDepends | src/main/java/bob/task/Task.java:64-66 | changing a task's status changes only the icon character of its display |
| Tasks.DisplayShowsKindAndStatus | src/main/java/bob/tasktype/Event.java:47-50 | two tasks that display alike are of the same kind and have the same status |
| Tasks.Task.Todo | src/main/java/bob/tasktype/Todo.java:14-16 | a new todo holds its description and is not done |
| Tasks.Task.Deadline | src/main/java/bob/tasktype/Deadline.java:20-23 | a new deadline holds its description and due time and is not done |
| Tasks.Task.Event | src/main/java/bob/tasktype/Event.java:22-26 | a new event holds its description and both times, as given, and is not done |
| Tasks.Task.MarkDone | src/main/java/bob/task/Task.java:39-41 | the task is done afterwards |
| Tasks.Task.MarkNotDone | src/main/java/bob/task/Task.java:46-48 | the task is not done afterwards |
| Tasks.Task.SetStatus | src/main/java/bob/task/Task.java:64-66 | the task has the given status afterwards |
| Tasks.Task.Data | src/main/java/bob/task/Task.java:55-75 | the getters: the task's kind, description and status |
| Tasks.SnapshotRemove | src/main/java/bob/task/TaskList.java:71-74 | removing a task object and then reading the list gives the values with that position removed |
| Tasks.DistinctRemove | src/main/java/bob/task/TaskList.java:71-74 | removing a task keeps the other task objects distinct |
| Tasks.DistinctAppend | src/main/java/bob/task/TaskList.java:48-51 | adding a task object that is not yet in the list keeps the objects distinct |
| TaskLists.SelectDataMembers | src/main/java/bob/task/TaskList.java:122-153 | a task is found exactly when it is in the list and the query selects it |
| TaskLists.SelectDataAppend | src/main/java/bob/task/TaskList.java:122-153 | the searches keep list order |
| TaskLists.SnapshotSelect | src/main/java/bob/task/TaskList.java:122-153 | searching the task objects and then reading them is searching their values |
| TaskLists.EmptyKeywordSelectsAll | src/main/java/bob/task/TaskList.java:122-132 | the empty keyword finds every task |
| TaskLists.EmptyKeywordMatches | src/main/java/bob/task/TaskList.java:126-127 | every description contains the empty keyword |
| TaskLists.KeywordIgnoresCase | src/main/java/bob/task/TaskList.java:126-127 | the search ignores letter case on both sides |
| TaskLists.EventOccursOnDates | src/main/java/bob/task/TaskList.java:161-166 | an event falls on a date exactly when the date lies between its start date and its end date, inclusive |
| TaskLists.OvernightEventExample | src/main/java/bob/task/TaskList.java:161-166 | an event from 23:00 to 01:00 the next morning falls on both days and on no other day |
| TaskLists.DeadlineOccursOnlyOnItsDate | src/main/java/bob/task/TaskList.java:157-160 | a deadline falls only on the date it is due, whatever its time of day |
| TaskLists.TaskList.constructor | src/main/java/bob/task/TaskList.java:20-22 | a new list is empty |
| TaskLists.TaskList.Of | src/main/java/bob/task/TaskList.java:29-41 | a list built from given tasks holds them in order |
| TaskLists.TaskList.Add | src/main/java/bob/task/TaskList.java:48-51 | the task is appended at the end, the others are unchanged, and a new object keeps the list distinct |
| TaskLists.TaskList.AddAll | src/main/java/bob/task/TaskList.java:58-63 | the given tasks are appended in order |
| TaskLists.TaskList.Remove | src/main/java/bob/task/TaskList.java:71-74 | the task at the index is returned and removed, and the others keep their order |
| TaskLists.TaskList.Get | src/main/java/bob/task/TaskList.java:82-85 | the task at a valid index |
| TaskLists.TaskList.Size | src/main/java/bob/task/TaskList.java:92-94 | the number of tasks |
| TaskLists.TaskList.IsValidIndex | src/main/java/bob/task/TaskList.java:102-104 | an index is valid exactly when it is in 0 .. size - 1 |
| TaskLists.TaskList.FindTasksByKeyword | src/main/java/bob/task/TaskList.java:122-132 | the tasks whose lower-cased description contains the lower-cased keyword, in list order |
| TaskLists.TaskList.GetTasksOnDate | src/main/java/bob/task/TaskList.java:141-168 | the deadlines due on the date and the events that touch it, in list order; todos never |
| Parser.ParseIndex | src/main/java/bob/parser/Parser.java:18-28 | the result is an `int`; anything but -1 comes from a number with digits after its sign, and a non-negative index below `MAX_VALUE` is the task number typed, minus one |
| Parser.ParseIndexUnchecked | src/main/java/Bob.java:467-475 | the single-file `parseIndex` catches every exception: -1 for a line shorter than the prefix, otherwise the same as the package's `parseIndex` |
| Parser.ParseIndexRoundTrip | src/test/java/bob/parser/ParserTest.java:22-35 | task number n + 1, with any blanks around it, reads as index n |
| Parser.ParseIndexNegativeExample | src/test/java/bob/parser/ParserTest.java:53-56 | "mark -1" gives -2, which the caller must reject |
| Parser.ParseIndexEmptyExample | src/test/java/bob/parser/ParserTest.java:46-50 | nothing after the prefix gives -1 |
| Parser.ParseTodoDescription | src/main/java/bob/parser/Parser.java:36-40 | the description is the argument after "todo ", trimmed, which may be empty; ArgumentRoundTrip reads a padded description back exactly |
| Parser.ParseFindKeyword | src/main/java/bob/parser/Parser.java:118-122 | the keyword is the argument after "find ", trimmed, which may be empty; ArgumentRoundTrip reads a padded keyword back exactly |
| Parser.ArgumentRoundTrip | src/main/java/bob/parser/Parser.java:39 | the argument after a prefix, padded with blanks, is read back as written |
| Parser.BlankArgument | src/main/java/bob/parser/Parser.java:39 | a prefix followed only by blanks has the empty argument |
| Parser.ParseDeadlineArgs | src/main/java/bob/parser/Parser.java:49-73 | it fails only with one of its three messages, and fails with the missing-"/by" message exactly when the argument lacks "/by"; on success the description and time are non-empty and trimmed, and the description holds no "/by" |
| Parser.DeadlineParts | src/main/java/bob/parser/Parser.java:59-67 | the split around the first "/by" succeeds exactly when both trimmed parts are non-empty, and then returns them; an empty description gets the description message, and only a non-empty description with an empty time gets the time message |
| Parser.DeadlineAt | src/main/java/bob/parser/Parser.java:53-57 | once the first "/by" is found, the result is the split around it |
| Parser.DeadlineMessages | src/main/java/bob/parser/Parser.java:53-67 | once "/by" is found, `parseDeadlineArgs` reports an empty description first, and gives the time message exactly when the description is non-empty and the time empty |
| Parser.DeadlineArgsRoundTrip | src/test/java/bob/parser/ParserTest.java:61-72 | "deadline D /by T" with D and T trimmed and D free of "/by" is read back as D and T |
| Parser.DeadlineWithoutTime | src/test/java/bob/parser/ParserTest.java:79-80 | a deadline line ending in "/by" fails on its empty time |
| Parser.MarkersApart | src/main/java/bob/parser/Parser.java:88-91 | a "/to" not before the first "/from" starts at least five characters after it |
| Parser.ParseEventArgs | src/main/java/bob/parser/Parser.java:83-110 | it fails only with one of its three messages, and fails with the shape message exactly when "/from" or "/to" is missing or the first "/to" comes before the first "/from"; on success the three parts are non-empty and trimmed, and each lacks the markers that follow it |
| Parser.EventParts | src/main/java/bob/parser/Parser.java:95-104 | the split around the markers succeeds exactly when all three trimmed parts are non-empty, and then returns them; an empty description gets the description message, and only a non-empty description with an empty start or end gets the time message |
| Parser.EventMessages | src/main/java/bob/parser/Parser.java:88-104 | once both markers are found in order, `parseEventArgs` reports an empty description first, and gives the time message exactly when the description is non-empty and the start or end is empty |
| Parser.EventPartsLack | src/main/java/bob/parser/Parser.java:95-97 | the description lacks both markers and the start lacks "/to" |
| Parser.EventArgsRoundTrip | src/main/java/bob/parser/Parser.java:83-110 | "event D /from S /to E" with trimmed non-empty parts, D free of both markers and S free of "/to", is read back as D, S and E |
| Parser.ParseOnDate | src/main/java/bob/parser/Parser.java:131-136 | only a valid date is accepted, and only when the trimmed text after "on " is exactly that date's `yyyy-MM-dd` text |
| Parser.OnDateRoundTrip | src/main/java/bob/parser/Parser.java:131-136 | every valid date written as `yyyy-MM-dd` after "on ", with blanks around it, is read back |
| Parser.OnDateDayFirstExample | src/main/java/bob/parser/Parser.java:135 | a day-first date such as 15-01-2025 is refused |
| Storage.DropTrailingEmpty | src/main/java/bob/storage/Storage.java:115 | `split` with limit 0 removes only the empty strings at the end |
| Storage.SplitFields | src/main/java/bob/storage/Storage.java:115 | a line without a bar is one field, and no field holds a bar |
| Storage.StatusFlag | src/main/java/bob/storage/Storage.java:86 | the flag is "1" exactly for a done task |
| Storage.Fields | src/main/java/bob/storage/Storage.java:85-104 | a task's line holds its tag, its flag, its description and then its times |
| Storage.ParseStatus | src/main/java/bob/storage/Storage.java:144 | only the flag "1" means done |
| Storage.ParseTaskLine | src/main/java/bob/storage/Storage.java:113-149 | a line is read exactly when it has a known tag, at least three fields and readable times where the tag needs them; the task has the line's tag, description and status |
| Storage.TrimmedIsClean | src/main/java/bob/parser/Parser.java:39 | a trimmed non-empty text without a bar survives the split unchanged |
| Storage.PiecesJoin | src/main/java/bob/storage/Storage.java:115 | splitting clean fields joined with the bar separator gives the fields back |
| Storage.SplitJoin | src/main/java/bob/storage/Storage.java:85-115 | `split` reads back the clean fields that `formatTaskLine` joined |
| Storage.TaskLineRoundTrip | src/main/java/bob/storage/Storage.java:85-149 | every task whose fields are clean and whose times read back is read back from its own line |
| Storage.FieldsClean | src/main/java/bob/storage/Storage.java:85-104 | the fields written for such a task are clean |
| Storage.ParseOwnFields | src/main/java/bob/storage/Storage.java:113-145 | a line that splits into a task's fields is read as that task |
| Storage.BarInDescriptionExample | src/main/java/bob/storage/Storage.java:89-115 | a bar typed into a description ends it: "a", a bar and "b" is read back as "a" |
| Storage.ParseLines | src/main/java/bob/storage/Storage.java:46-53 | load reads at most one task per line |
| Storage.FormatLines | src/main/java/bob/storage/Storage.java:71-75 | save writes exactly one line per task, in list order |
| Storage.ParseLinesAppend | src/main/java/bob/storage/Storage.java:48-53 | load reads line by line: the tasks of two runs of lines are the two runs' tasks, in order |
| Storage.SkipsUnreadableLine | src/main/java/bob/storage/Storage.java:50-52 | a corrupted line is skipped and changes nothing else |
| Storage.SaveThenLoad | src/main/java/bob/storage/Storage.java:39-77 | loading what save wrote gives the same tasks back, in the same order |
| Storage.StorageShape | src/main/java/bob/util/DateTimeUtil.java:21-22 | a stored date-time is digits with '-' at positions 4 and 7 and a blank at 10 |
| Storage.StorageFieldClean | src/main/java/bob/storage/Storage.java:94-101 | a stored date-time is a clean field |
| Storage.TimestampTaskStorable | src/main/java/bob/storage/Storage.java:85-149 | every `bob` task with a clean description can be stored and read back |
| Storage.NewTask | src/main/java/bob/storage/Storage.java:125-142 | parseTaskLine constructs a fresh task object of the line's kind |
| Storage.LoadLine | src/main/java/bob/storage/Storage.java:48-53 | one line of load appends a fresh task object exactly when the line can be read |
| Storage.Load | src/main/java/bob/storage/Storage.java:39-57 | load makes one fresh, distinct task object per readable line, in file order |
| Storage.Save | src/main/java/bob/storage/Storage.java:65-77 | save writes the lines of the tasks' current values |
| Commands.GetMessage | src/main/java/bob/command/CommandResult.java:76-78 | only a message or an error carries text |
| Commands.GetTaskList | src/main/java/bob/command/CommandResult.java:80-82 | only the three listing types carry tasks |
| Commands.GetDate | src/main/java/bob/command/CommandResult.java:84-86 | only an on-date listing carries a date |
| Commands.Values | src/main/java/bob/command/CommandResult.java:52-70 | reading a result's tasks keeps its type, message and date, and replaces each listed task by its value |
| Commands.ExitCarriesNothing | src/main/java/bob/command/CommandResult.java:14 | EXIT carries no message, no tasks and no date |
| Commands.ListingCarriesTasks | src/main/java/bob/command/CommandResult.java:52-58 | `list` and `matchingTasks` carry exactly their tasks |
| Commands.OnDateCarriesBoth | src/main/java/bob/command/CommandResult.java:60-62 | `tasksOnDate` carries its date and its tasks |
| Commands.TextCarriesOnlyText | src/main/java/bob/command/CommandResult.java:64-70 | `message` and `error` carry only their text |
| Bob.Dispatch | src/main/java/bob/Bob.java:98-145 | "bye" in any letter case is recognised exactly; every handler is reached only by a line that starts with its prefix |
| Bob.PrefixesReachHandlers | src/main/java/bob/Bob.java:105-143 | every command prefix leads to its own handler, whatever follows it |
| Bob.CommandWordsAreCaseSensitive | src/main/java/bob/Bob.java:98-145 | a line that starts with a capital letter, and is no spelling of "bye", is an unknown command |
| Bob.ByeExits | src/main/java/bob/Bob.java:99-101 | "bye" in any letter case exits, changes nothing and saves nothing; no other line exits |
| Bob.ChangesUpdateOrRefuse | src/main/java/bob/Bob.java:185-290 | a command that changes the list either updates it or is refused with an error |
| Bob.QueryStep | src/main/java/bob/Bob.java:98-145 | a command that does not change the list is answered, keeps the tasks and saves nothing |
| Bob.DeleteAloneIsRefused | src/main/java/bob/Bob.java:111-113 | "delete" alone asks for a task number; nothing changes or is saved |
| Bob.TodoAloneIsRefused | src/main/java/bob/Bob.java:117-119 | "todo" alone asks for a description; nothing changes or is saved |
| Bob.DeadlineAloneIsRefused | src/main/java/bob/Bob.java:123-125 | "deadline" alone asks for a description; nothing changes or is saved |
| Bob.EventAloneIsRefused | src/main/java/bob/Bob.java:129-131 | "event" alone asks for a description; nothing changes or is saved |
| Bob.FindAloneIsRefused | src/main/java/bob/Bob.java:135-137 | "find" alone asks for a keyword; nothing changes or is saved |
| Bob.MarkAloneIsRefused | src/main/java/bob/Bob.java:105-144 | "mark" alone is an unknown command; nothing changes or is saved |
| Bob.UnmarkAloneIsRefused | src/main/java/bob/Bob.java:108-144 | "unmark" alone is an unknown command; nothing changes or is saved |
| Bob.TodoTask | src/main/java/bob/Bob.java:227-232 | a todo that is built is a new todo that is not done |
| Bob.DeadlineTask | src/main/java/bob/Bob.java:242-256 | a deadline that is built is a new deadline that is not done |
| Bob.EventTask | src/main/java/bob/Bob.java:265-283 | an event that is built is a new event that is not done |
| Bob.Commit | src/main/java/bob/Bob.java:312-319 | a refusal keeps the tasks and saves nothing; a change keeps the new tasks whether or not the save works, and answers with its message when the save works or with the save error when it fails |
| Bob.SaveFailureKeepsChange | src/main/java/bob/Bob.java:312-319 | a failed save is reported, and the change stays in the list all the same |
| Bob.OnlyChangesAreSaved | src/main/java/bob/Bob.java:98-145 | only the commands that change the list save it, and every change is saved when the write works |
| Bob.StatusChangesOnlyThatTask | src/main/java/bob/Bob.java:185-211 | mark and unmark with a number in range set that task's status and change nothing else; any other number is refused with "task not found" |
| Bob.DeleteRemovesThatTask | src/main/java/bob/Bob.java:213-225 | delete with a number in range removes exactly that task and counts what is left; any other number is refused |
| Bob.AddPlanAppends | src/main/java/bob/Bob.java:233-239 | a new task goes after all the others, which keep their places, and the reply counts it |
| Bob.TodoNeedsDescription | src/main/java/bob/Bob.java:227-240 | todo adds a todo that is not done exactly when its trimmed description is not empty |
| Bob.DeadlineNeedsReadableTime | src/main/java/bob/Bob.java:242-263 | deadline reports a refused parse, then an unreadable time, and otherwise adds the deadline |
| Bob.EventOrderDecides | src/main/java/bob/Bob.java:265-290 | event reports a refused parse, then an unreadable time, then an end before the start, and otherwise adds the event |
| Bob.SavedTasksReload | src/main/java/bob/Bob.java:312-319 | the lines a save writes read back as the same tasks when no description could confuse the split |
| Bob.NumberedEntry | src/main/java/bob/Bob.java:331-337 | task k of the list is written on its own line as "k+1." and the task |
| Bob.EntriesSplit | src/main/java/bob/Bob.java:331-337 | numbering two runs of tasks in turn numbers their concatenation |
| Bob.EmptyNumberedList | src/main/java/bob/Bob.java:331-337 | with no tasks, the header alone is the text |
| Bob.FormatNumberedList | src/main/java/bob/Bob.java:331-337 | the loop builds the header followed by every task numbered from 1, trimmed |
| Bob.FormatTasksOnDate | src/main/java/bob/Bob.java:339-347 | the on-date reply for the tasks' current values: the header and "No matching tasks." when there are none, otherwise the numbered list under the header |
| Bob.Bob.constructor | src/main/java/bob/Bob.java:41-50 | Bob starts with the tasks loaded from the file, or with none when there is no file |
| Bob.Bob.SaveAndReply | src/main/java/bob/Bob.java:312-319 | the save, and the reply to a change or its save error |
| Bob.Bob.HandleStatus | src/main/java/bob/Bob.java:185-211 | handleMark and handleUnmark do what `StatusPlan` says on the objects |
| Bob.Bob.SetStatusAndReply | src/main/java/bob/Bob.java:187-196 | a number out of range is refused; otherwise the status is set and saved |
| Bob.Bob.SetStatusAt | src/main/java/bob/Bob.java:190-191 | only the numbered task's status changes |
| Bob.Bob.HandleDelete | src/main/java/bob/Bob.java:213-225 | handleDelete does what `DeletePlan` says on the objects |
| Bob.Bob.RemoveAndReply | src/main/java/bob/Bob.java:215-224 | a number out of range is refused; otherwise the task is removed and the list saved |
| Bob.Bob.RemoveAt | src/main/java/bob/Bob.java:218-224 | the removal, the save and the reply that counts what is left |
| Bob.Bob.NewTask | src/main/java/bob/Bob.java:232 | a new task object of the planned kind |
| Bob.Bob.Append | src/main/java/bob/Bob.java:233-239 | the addition, the save and the reply that counts the tasks |
| Bob.Bob.AddTask | src/main/java/bob/Bob.java:227-290 | a refused line is answered with its error; otherwise a new task object is added and saved |
| Bob.Bob.HandleTodo | src/main/java/bob/Bob.java:227-240 | handleTodo does what `TodoPlan` says on the objects |
| Bob.Bob.HandleDeadline | src/main/java/bob/Bob.java:242-263 | handleDeadline does what `DeadlinePlan` says on the objects |
| Bob.Bob.HandleEvent | src/main/java/bob/Bob.java:265-290 | handleEvent does what `EventPlan` says on the objects |
| Bob.Bob.HandleFind | src/main/java/bob/Bob.java:292-296 | the tasks matching the keyword, ignoring case, in list order; nothing changes |
| Bob.Bob.HandleOn | src/main/java/bob/Bob.java:298-306 | an unreadable date is refused, otherwise the tasks on that date; nothing changes |
| Bob.Bob.ProcessCommand | src/main/java/bob/Bob.java:98-145 | processCommand does what `Step` says: the list holds Step's tasks, the result is Step's result, and the file is written exactly when Step saves |
| Bob.Bob.ProcessChange | src/main/java/bob/Bob.java:105-133 | the branches that change the list do what `ChangePlan` says |
| Bob.Bob.ProcessQuery | src/main/java/bob/Bob.java:99-143 | the branches that only answer leave everything unchanged and return the planned answer |
| Bob.Bob.PlainReply | src/main/java/bob/Bob.java:99-144 | bye, list and the refusals of bare command words and unknown lines |
| LegacyBob.Numbered | src/main/java/Bob.java:271-273 | the list loop numbers task k as k + 1 |
| LegacyBob.NumberedPointwise | src/main/java/Bob.java:271-273 | lines that number every task from 1 are the list |
| LegacyBob.Classify | src/main/java/Bob.java:259-429 | the if-chain takes the package's branches except find and on, which it does not know |
| LegacyBob.TodoTask | src/main/java/Bob.java:343-354 | todo builds a task exactly when its trimmed description is not empty |
| LegacyBob.DeadlineTask | src/main/java/Bob.java:363-389 | deadline is refused as the package parser refuses it, and otherwise keeps the time as typed |
| LegacyBob.EventTask | src/main/java/Bob.java:397-426 | event is refused as the package parser refuses it, and otherwise keeps both times as typed, in either order |
| LegacyBob.Commit | src/main/java/Bob.java:164-177 | a refusal prints and keeps the tasks; a change keeps the new tasks whether or not the save works, and a failed save is printed before the reply |
| LegacyBob.PaddingIsIgnored | src/main/java/Bob.java:257 | blanks around a line make no difference |
| LegacyBob.ByeEnds | src/main/java/Bob.java:260-265 | "bye" in any letter case ends the loop, changes nothing and saves nothing; no other line ends it |
| LegacyBob.FindAndOnAreUnknown | src/main/java/Bob.java:428-429 | find and on lines are unknown commands and change nothing |
| LegacyBob.SaveFailureKeepsChange | src/main/java/Bob.java:173-176 | a failed save is printed first, and the change stays in the list |
| LegacyBob.OnlyChangesAreSaved | src/main/java/Bob.java:256-430 | only the branches that change the list save it, and every change is saved when the write works |
| LegacyBob.StatusChangesOnlyThatTask | src/main/java/Bob.java:278-312 | mark and unmark with a number in range set that task's status and nothing else; any other number is refused |
| LegacyBob.DeleteRemovesThatTask | src/main/java/Bob.java:320-335 | delete with a number in range removes exactly that task and counts what is left; any other number is refused |
| LegacyBob.AnyDeadlineTimeIsAccepted | src/main/java/Bob.java:363-389 | a well-formed deadline line is added whatever its time says |
| LegacyBob.AnyEventTimesAreAccepted | src/main/java/Bob.java:397-426 | a well-formed event line is added even when its end comes before its start |
| LegacyBob.ListNumbersFromOne | src/main/java/Bob.java:267-276 | the list prints task k as "k+1." and its toString, between the header and the divider |
| LegacyBob.SavedRawTasksReload | src/main/java/Bob.java:164-244 | the lines the program writes read back as the same tasks when no field could confuse the split |
| LegacyBob.LinesAfterByeAreIgnored | src/main/java/Bob.java:256-265 | once "bye" is read, the lines after it are never looked at |
| LegacyBob.FileFollowsListWith | src/main/java/Bob.java:164-177 | for any pass that saves its changes, the file keeps holding the list for as long as every save works |
| LegacyBob.FileFollowsList | src/main/java/Bob.java:256-430 | the main loop keeps the file equal to the list for as long as every save works |
| LegacyBob.Session.constructor | src/main/java/Bob.java:137-157 | the session starts with the tasks loaded from the file, or with none when there is no file |
| LegacyBob.Session.SaveAndReport | src/main/java/Bob.java:164-177 | the save, and the reply or the save error before it |
| LegacyBob.Session.HandleStatus | src/main/java/Bob.java:278-312 | the mark and unmark branches do what `StatusPlan` says on the objects |
| LegacyBob.Session.SetStatusAndReport | src/main/java/Bob.java:280-293 | a number out of range is refused; otherwise the status is set, saved and printed |
| LegacyBob.Session.SetStatusAt | src/main/java/Bob.java:282-283 | only the numbered task's status changes |
| LegacyBob.Session.HandleDelete | src/main/java/Bob.java:320-335 | the delete branch does what `DeletePlan` says on the objects |
| LegacyBob.Session.RemoveAt | src/main/java/Bob.java:322-331 | the removal, the save and the reply that counts what is left |
| LegacyBob.Session.Append | src/main/java/Bob.java:343-355 | the addition, the save and printAdded |
| LegacyBob.Session.AddTask | src/main/java/Bob.java:343-426 | a refused line is printed as an error; otherwise a new task object is added and saved |
| LegacyBob.Session.HandleChange | src/main/java/Bob.java:278-426 | the branches that change the list do what `ChangePlan` says |
| LegacyBob.Session.PrintList | src/main/java/Bob.java:267-276 | the list loop prints one numbered line per task between the header and the divider |
| LegacyBob.Session.Answer | src/main/java/Bob.java:259-276 | the branches that only print |
| LegacyBob.Session.Handle | src/main/java/Bob.java:257-429 | one pass of the loop does what `Step` says on the objects |
| LegacyBob.Session.Next | src/main/java/Bob.java:256-430 | one turn of the loop moves the run on by one line |
| LegacyBob.Session.Loop | src/main/java/Bob.java:256-430 | the loop over the input lines does what `RunLines` says: the final list, the file, everything printed, and whether "bye" was read |

## Left out

- Reading and writing files is not modelled as I/O. The file is a field that holds the lines of the last successful save. An `IOException` on save is a parameter. Loading starts from `Option<seq<string>>`, and an `IOException` while loading is not modelled.
- Partial writes are not modelled: a save either writes every line or throws.
- The user interface is not part of this model: `Ui`, the JavaFX window, `Bob.run`'s read loop, `getResponse`, `dispatchToUi` and `formatResult`. The model ends at the `CommandResult` that `processCommand` returns. `formatNumberedList` and `formatTasksOnDate` are modelled because they define the text of a listing.
- `formatUrgentTasks` calls `TaskList.getUrgentTasks`, which is not part of this model because that method does not exist in `TaskList.java`.
- The single-file program's greeting is not modelled. End of input is modelled as the end of the line sequence; in the Java program, `Scanner.nextLine` throws there instead.
- The single-file program's helper classes (`Parser.java`, `TaskList.java`, `Storage.java`, `Task.java`, `Todo.java`, `Deadline.java` and `Event.java` in `src/main/java`) repeat the `bob` package's statements. They are covered by the same members, apart from the root `parseIndex`, which has its own member, `Parser.ParseIndexUnchecked`.
- Java's SMART date resolver is not modelled. That resolver maps an out-of-range day such as 30 February to the month's last day, and reads the hour 24:00 as midnight of the next day, so "2025-01-15 2400" becomes 00:00 on 16 January. The model accepts only real calendar dates, with years 1 to 9999, and hours 0 to 23.
- Strings.ParseInt: only the ASCII digits '0' to '9' are read. `Integer.parseInt` also accepts every other Unicode decimal digit, so "mark ３" with a full-width three marks task 3 in Java, while the model answers that the task number does not exist.
- Case folding covers ASCII letters only. The model's `ToLower` and `EqualsIgnoreCase` leave every other character unchanged, while Java's `toLowerCase` and `equalsIgnoreCase` also fold non-ASCII letters such as 'É'.
- Aliasing is modelled only for the task objects. `getAllTasks` returns the list itself, and the model keeps no separate handle to it.
- Tasks.Display: cited at the deadline's `toString`, it covers the todo's and the event's as well (src/main/java/bob/tasktype/Todo.java:19-21, src/main/java/bob/tasktype/Event.java:47-50).
- Storage.SaveThenLoad: the round trip is proved only for tasks whose fields are clean, meaning non-empty, without '|' and with no blank at either end. Storage.BarInDescriptionExample shows what happens to a description with a '|' in it.
