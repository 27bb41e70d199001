# Middle-school schedule parser, modelled in Dafny

The program reads the text layer of a fixed-layout PDF timetable and turns it
into a JSON object keyed by class. Its one piece of logic is in `parser.py`:

- `parse_schedule` keeps only the lines that name a weekday or hold a
  class-entry token such as `7A - Science & Nature (Smith)`. It strips those
  lines and scans them with two cursors: a day index and a time-block index.
  A day header selects the day and resets the block cursor. A class row emits
  one entry per token, all in the current day and period, and then moves the
  block cursor on by one. Past the eleventh period the time is `"Unknown"`.
- `group_by_class` groups the entries by class identifier. The groups are kept
  in first-seen order, and each group keeps emission order.

The model has four modules:

- `Text` (`text.dfy`) models Python's substring test `sub in s` and
  `str.strip()`. The whitespace set is the full set of characters
  `str.isspace()` accepts.
- `Schedule` (`schedule.dfy`) holds the two constant tables, the line filter,
  the day-header resolution, the time-block lookup, the per-line step, the
  scan and `ParseSchedule`, with their properties.
- `Grouping` (`grouping.dfy`) holds `GroupByClass` and its properties. The
  insertion-ordered dictionary is a key list plus a map.
- `Scenarios` (`scenarios.dfy`) holds the worked examples: a three-line input,
  and a header where "Tuesday" is written before "Monday".

The class-entry regular expression is a parameter `find: string -> seq<Match>`.
It stands for what `finditer` yields on a line. `Search(find, line)` means
`search` succeeds, which is when `find(line)` is non-empty. The subset type
`Match` records what the pattern guarantees of every match. The class group
is one or more digits followed by one upper-case letter. The subject and
teacher groups are non-empty.

The filter tests relevance on the raw line. The scan then classifies the
stripped line. The model keeps that split. `StripKeepsDayLabel` proves that
stripping never changes whether a line holds a day label. If a kept line's
stripped text had neither a day label nor a match, the scan would skip it
without moving either cursor. This follows the `elif` at parser.py:47. The
model allows that path because it never relates `find(Strip(line))` to
`find(line)`. With the real pattern at parser.py:22 the path cannot occur.
Every match starts with a digit and ends with `)`, and the pattern has no
anchors, so stripping whitespace from the ends adds or removes no match. The
model is an over-approximation here, not a behaviour of the program.

Two predicates carry the source's tests directly. `Text.Contains` is Python's
`day in line`, scanning start positions left to right; `Text.ContainsIffOccurs`
relates it to "occurs at some index". `Schedule.HasDayLabel` is
`any(day in line for day in days)` at parser.py:36 and parser.py:44.

## Model

| member | source | states |
|---|---|---|
| Text.ContainsIffOccurs | parser.py:36 | The scanning substring test used for `day in line` holds exactly when the label occurs at some index of the line |
| Text.TrimLeft | parser.py:35 | Left stripping removes the longest all-whitespace prefix: the result is a suffix, every removed character is whitespace, and the result does not start with whitespace |
| Text.TrimRight | parser.py:35 | Right stripping removes the longest all-whitespace suffix, symmetrically |
| Text.Strip | parser.py:35 | A stripped line neither starts nor ends with whitespace |
| Text.StripIsSlice | parser.py:35 | A stripped line is the slice of the raw line between a whitespace prefix and a whitespace suffix |
| Text.StripKeepsWord | parser.py:35-36 | Stripping never changes whether a non-empty word without whitespace occurs in a line |
| Schedule.FirstContained | parser.py:45 | The generator `next(day for day in days if day in line)` yields nothing exactly when no label occurs. Otherwise it yields the label at the first position of the list that occurs in the line |
| Schedule.IndexOf | parser.py:45 | `days.index(x)` gives the first position holding `x` |
| Schedule.ResolveDay | parser.py:44-45 | A header selects the earliest day of the canonical list that occurs in the line, not the label that comes first in the line |
| Schedule.TimeLabel | parser.py:53 | The time is `"Unknown"` exactly when the block index is 11 or more; otherwise it is the block's label, so the lookup never leaves the table |
| Schedule.RowEntries | parser.py:48-58 | A class row yields one entry per match, in match order. All of them share the current day and period, and each carries its match's class, subject and teacher, with grade the first character of the class, a digit |
| Schedule.Step | parser.py:43-59 | A header emits nothing, resets the block cursor to 0 and moves the day cursor to the earliest listed day in the line. A class row emits its entries and advances the block cursor by exactly 1 whatever the number of matches, keeping the day. Any other line changes nothing |
| Schedule.Scan | parser.py:39-61 | Every emitted entry has a listed day, a listed time or `"Unknown"`, a class of the `\d+[A-Z]` shape and a grade equal to the class's first character, which is a digit |
| Schedule.ParseSchedule | parser.py:25-61 | The same well-formedness holds for every entry `parse_schedule` returns |
| Schedule.ScanAppend | parser.py:43-59 | Scanning two runs of lines in turn equals scanning their concatenation. The second run starts from the cursors the first left behind |
| Schedule.EntryCount | parser.py:43-59 | The scan emits exactly as many entries as there are matches on lines without a day label |
| Schedule.HeaderlessScan | parser.py:43-59 | Across lines with no day label, the day cursor stays put, every entry carries that day, and the block cursor grows by the number of class rows |
| Schedule.MondayBeforeFirstHeader | parser.py:40-52 | Every entry emitted before the first day header carries Monday |
| Schedule.LastHeader | parser.py:44 | Finds the last line holding a day label, or reports that there is none |
| Schedule.CursorMatchesReference | parser.py:40-59 | After any prefix, the scan's cursors equal the reference cursors. The day is that of the last header, or Monday if none. The block index is the number of class rows since that header, or since the start |
| Schedule.RowPlacement | parser.py:47-59 | The entries of the class row at index `i` sit together, in match order, right after the entries of the earlier lines. Each carries the last header's day and the time label of the number of class rows between that header and the row |
| Schedule.ExpectedCursorUnderHeader | parser.py:47-59 | Below the last header, appending a line without a header keeps that header's day and adds one block exactly when the line is a class row |
| Schedule.ExpectedCursorAfterOther | parser.py:47-59 | Appending a line without a header keeps the reference day, and adds one block exactly when the line is a class row |
| Schedule.FilterLines | parser.py:34-37 | The list comprehension keeps no line exactly when no line is relevant, and never keeps more lines than it is given. `FilterKeepsRelevantInOrder` gives the full characterization |
| Schedule.FilterAppend | parser.py:34-37 | Filtering distributes over concatenation |
| Schedule.KeptIndices | parser.py:34-37 | The kept indices increase and are exactly the indices of lines holding a day label or a class match |
| Schedule.FilterKeepsRelevantInOrder | parser.py:34-37 | The filtered list is the stripped text of exactly the relevant lines, in their original order |
| Schedule.StripKeepsDayLabel | parser.py:35-44 | A kept line holds a day label after stripping exactly when it did before |
| Schedule.FilteredMatchTotal | parser.py:34-48 | Counting matches over the filtered lines equals counting, over the raw lines, the matches on the stripped text of relevant lines without a day label |
| Schedule.ParseEntryCount | parser.py:34-61 | The number of entries `parse_schedule` returns equals the number of matches on the stripped text of the relevant lines without a day label. Where each row's entries land is stated by `RowPlacement` |
| Grouping.AddSpec | parser.py:67-72 | One `grouped[...].append(...)` keeps the dictionary well formed. It appends the entry's projected row to its class's list, starting from an empty list for a new class. Every other class keeps its list, and the key order is only extended at its end |
| Grouping.GroupByClass | parser.py:64-73 | The key list holds no duplicates and names exactly the keys of the map, and every group is non-empty |
| Grouping.FirstIndex | parser.py:65-67 | Gives the position of a class's first entry in the schedule |
| Grouping.RowsOfAppend | parser.py:66-72 | A class's projected subsequence distributes over concatenation |
| Grouping.GroupsAreSubsequences | parser.py:64-73 | Each class's group is exactly the schedule's entries of that class, projected to day, time, subject and teacher, in emission order. A class with no group has no entries |
| Grouping.KeysAreClasses | parser.py:65-72 | The grouped keys are exactly the distinct classes of the schedule |
| Grouping.FirstIndexAppend | parser.py:66-67 | Appending an entry keeps the first occurrence of every class already seen |
| Grouping.FirstIndexOfNewClass | parser.py:66-67 | A class first seen in the appended entry first occurs at that entry |
| Grouping.KeysInFirstSeenOrder | parser.py:65-72 | The keys are listed in the order their classes first appear in the schedule |
| Grouping.TotalRowsUpdate | parser.py:67-72 | Appending to one group grows the total number of rows by the appended amount. Adding a new key leaves the old keys' total unchanged |
| Grouping.GroupSizesSum | parser.py:64-73 | The group lengths add up to the schedule length |
| Scenarios.CanonicalOrderWins | parser.py:44-45 | The header "Tuesday Monday" resolves to Monday |
| Scenarios.ThreeLineExample | parser.py:34-61 | The lines "Monday", "7A - Math (Lee)" and "8B - Art (Roy) 8C - Art (Roy)" give three Monday entries. 7A falls in 7:50-8:15, and 8B and 8C both fall in 8:15-9:10 |
| Scenarios.ThreeLineExampleGrouped | parser.py:64-73 | Grouping that example gives the keys 7A, 8B, 8C in that order |

## Left out

- PDF opening and per-page text extraction with `fitz` (parser.py:26-31) are a
  foreign library. The model takes the extracted lines as its input, so
  `str.splitlines` is not modelled either.
- The regular expression (parser.py:22, 36, 47-48) is a parameter. Python's
  `re` semantics are not modelled: Unicode `\w`, the backtracking of `[\w &]+`
  and non-overlapping `finditer` scanning. A `Match` only carries the shape
  the pattern guarantees.
- IsClassId: treats `\d` as the ASCII digits only. Python's `\d` on `str`
  patterns also matches other Unicode decimal digits. The "grade is a digit"
  property is stated for ASCII digits.
- Schedule.ResolveDay: requires a day label in the line, because the
  generator's `StopIteration` cannot be raised where the source calls it: the
  `any(...)` test at parser.py:44 guards the call.
- JSON serialisation, the file write and the console message
  (parser.py:76-83) are I/O. So is the JSON round-trip property of the grouped
  mapping.
- The path constants `PDF_PATH` and `OUTPUT_JSON` (parser.py:9-10) are
  configuration only.
- `grade` is a single `char` rather than Python's one-character string.
- Schedule.FilterLines: its own contract states only when nothing is kept and
  the length bound. The in-order characterization is the separate lemma
  `Schedule.FilterKeepsRelevantInOrder`. Stated on the function, every proof
  that mentions the filter would instantiate it.
