/**
 The line classifier and slot assigner of `parse_schedule`: the extracted text
 lines are filtered down to day headers and class rows, then scanned with two
 cursors (a day index and a time-block index). A day header picks the day and
 resets the block cursor; a class row emits one entry per class token, all in
 the current day and block, and then advances the block cursor by one.

 The class-entry regular expression is a parameter `find`: it returns the
 tokens `finditer` would yield for a line, and `Search(find, line)` holds when
 it yields at least one. The type `Match` records what the pattern guarantees
 of every token it yields.
 */
module Schedule {
  import opened Text

  datatype Option<T> = None | Some(value: T)

  /** The eleven period labels, assigned by position within a day. */
  const TimeBlocks: seq<string> := [
    "7:50-8:15", "8:15-9:10", "9:10-10:05", "10:05-10:20", "10:20-10:40",
    "10:40-11:35", "11:35-12:25", "12:25-12:40", "12:40-1:00", "1:00-1:55", "1:55-2:50"
  ]

  /** The five day labels, both detection tokens and day indices. */
  const Days: seq<string> := ["Monday", "Tuesday", "Wednesday", "Thursday", "Friday"]

  /** The time recorded for a row past the last period. */
  const Unknown: string := "Unknown"

  /** A valid index into `Days`. */
  type DayIndex = d: int | 0 <= d < 5

  /* ----- the class-entry pattern ----- */

  /** The named groups `class`, `subject` and `teacher` of one match. */
  datatype MatchGroups = MatchGroups(cls: string, subject: string, teacher: string)

  /** `\d+[A-Z]`: one or more digits followed by one upper-case letter. */
  predicate IsClassId(s: string) {
    && |s| >= 2
    && (forall i :: 0 <= i < |s| - 1 ==> IsDigit(s[i]))
    && IsUpper(s[|s| - 1])
  }

  /** A match of the class-entry pattern: the class group has the `\d+[A-Z]`
      shape, and the subject and teacher groups (`[\w &]+`, `\w+`) are non-empty. */
  type Match = m: MatchGroups | IsClassId(m.cls) && |m.subject| > 0 && |m.teacher| > 0
    witness MatchGroups("7A", "Math", "Lee")

  /** The non-overlapping matches `finditer` yields on a line, left to right. */
  type Matcher = string -> seq<Match>

  /** `class_entry_pattern.search(line)` succeeds. */
  predicate Search(find: Matcher, line: string) {
    |find(line)| > 0
  }

  /* ----- day headers ----- */

  /** `any(day in line for day in days)`. */
  predicate HasDayLabel(line: string) {
    exists d :: 0 <= d < |Days| && Contains(line, Days[d])
  }

  /** `next(day for day in labels if day in line)`, with `None` for an exhausted generator. */
  function FirstContained(line: string, labels: seq<string>): (r: Option<string>)
    ensures r.None? <==> forall i :: 0 <= i < |labels| ==> !Contains(line, labels[i])
    ensures r.Some? ==> exists i :: 0 <= i < |labels| && labels[i] == r.value && Contains(line, labels[i])
                                    && forall j :: 0 <= j < i ==> !Contains(line, labels[j])
  {
    if labels == [] then None
    else if Contains(line, labels[0]) then Some(labels[0])
    else
      var r := FirstContained(line, labels[1..]);
      assert forall i :: 0 <= i < |labels| - 1 ==> labels[1..][i] == labels[i + 1];
      r
  }

  /** `labels.index(x)`: the first position holding `x`. */
  function IndexOf(labels: seq<string>, x: string): (r: nat)
    requires x in labels
    ensures r < |labels| && labels[r] == x
    ensures forall j :: 0 <= j < r ==> labels[j] != x
  {
    if labels[0] == x then 0 else 1 + IndexOf(labels[1..], x)
  }

  lemma DaysDistinct()
    ensures forall i, j :: 0 <= i < j < |Days| ==> Days[i] != Days[j]
  {
  }

  /** `days.index(next(day for day in days if day in line))`: the day a header
      selects is the earliest day of the canonical list that occurs in the line,
      whatever the positions of the labels within the line. */
  function ResolveDay(line: string): (d: DayIndex)
    requires HasDayLabel(line)
    ensures Contains(line, Days[d])
    ensures forall j :: 0 <= j < d ==> !Contains(line, Days[j])
  {
    var first := FirstContained(line, Days);
    DaysDistinct();
    IndexOf(Days, first.value)
  }

  /* ----- the time-block lookup ----- */

  /** `time_blocks[k] if k < len(time_blocks) else "Unknown"`. */
  function TimeLabel(block: nat): (t: string)
    ensures t == Unknown <==> block >= |TimeBlocks|
    ensures block < |TimeBlocks| ==> t == TimeBlocks[block]
    ensures t in TimeBlocks || t == Unknown
  {
    if block < |TimeBlocks| then TimeBlocks[block] else Unknown
  }

  /* ----- entries and the scan ----- */

  /** One schedule record; `grade` is the one-character string `class_name[0]`. */
  datatype Entry = Entry(day: string, time: string, cls: string, grade: char, subject: string, teacher: string)

  /** The two scan cursors. */
  datatype Cursor = Cursor(day: DayIndex, block: nat)

  /** Both cursors start at 0: Monday, first period. */
  const Start: Cursor := Cursor(0, 0)

  /** The cursor after some lines together with the entries they emitted. */
  datatype Scanned = Scanned(cursor: Cursor, entries: seq<Entry>)

  /** What every emitted entry satisfies. */
  predicate WellFormedEntry(e: Entry) {
    && e.day in Days
    && (e.time in TimeBlocks || e.time == Unknown)
    && IsClassId(e.cls)
    && e.grade == e.cls[0]
    && IsDigit(e.grade)
  }

  function MakeEntry(c: Cursor, m: Match): Entry {
    Entry(Days[c.day], TimeLabel(c.block), m.cls, m.cls[0], m.subject, m.teacher)
  }

  /** The entries of one class row: one per token, in token order, all at cursor `c`. */
  function RowEntries(c: Cursor, ms: seq<Match>): (es: seq<Entry>)
    ensures |es| == |ms|
    ensures forall k :: 0 <= k < |es| ==>
      && es[k].day == Days[c.day] && es[k].time == TimeLabel(c.block)
      && es[k].cls == ms[k].cls && es[k].subject == ms[k].subject && es[k].teacher == ms[k].teacher
      && WellFormedEntry(es[k])
  {
    seq(|ms|, k requires 0 <= k < |ms| => MakeEntry(c, ms[k]))
  }

  /** One iteration of the scan loop. A header moves the day cursor and resets the
      block cursor without emitting anything; a class row emits its tokens at the
      current cursor and advances the block cursor by exactly one, however many
      tokens it holds; any other line changes nothing. */
  function Step(c: Cursor, line: string, find: Matcher): (r: Scanned)
    ensures HasDayLabel(line) ==>
      && r.entries == []
      && r.cursor.block == 0
      && Contains(line, Days[r.cursor.day])
      && forall j :: 0 <= j < r.cursor.day ==> !Contains(line, Days[j])
    ensures !HasDayLabel(line) && Search(find, line) ==>
      && r.cursor == Cursor(c.day, c.block + 1)
      && r.entries == RowEntries(c, find(line))
    ensures !HasDayLabel(line) && !Search(find, line) ==> r == Scanned(c, [])
  {
    if HasDayLabel(line) then
      Scanned(Cursor(ResolveDay(line), 0), [])
    else if Search(find, line) then
      Scanned(Cursor(c.day, c.block + 1), RowEntries(c, find(line)))
    else
      Scanned(c, [])
  }

  /** The scan loop over `lines`, starting from cursor `c`. */
  function Scan(lines: seq<string>, c: Cursor, find: Matcher): (r: Scanned)
    ensures forall k :: 0 <= k < |r.entries| ==> WellFormedEntry(r.entries[k])
    decreases |lines|
  {
    if lines == [] then Scanned(c, [])
    else
      var first := Step(c, lines[0], find);
      var rest := Scan(lines[1..], first.cursor, find);
      Scanned(rest.cursor, first.entries + rest.entries)
  }

  /* ----- the line filter ----- */

  /** The filter's test on a raw line. */
  predicate Relevant(find: Matcher, line: string) {
    HasDayLabel(line) || Search(find, line)
  }

  /** The list comprehension building `schedule_lines`: every kept line is the
      stripped text of a relevant line, and nothing is kept exactly when no line
      is relevant. `FilterKeepsRelevantInOrder` gives the full characterization. */
  function FilterLines(lines: seq<string>, find: Matcher): (kept: seq<string>)
    ensures |kept| <= |lines|
    ensures kept == [] <==> forall j :: 0 <= j < |lines| ==> !Relevant(find, lines[j])
    decreases |lines|
  {
    if lines == [] then []
    else
      var rest := FilterLines(lines[1..], find);
      assert forall j :: 0 <= j < |lines| - 1 ==> lines[1..][j] == lines[j + 1];
      if Relevant(find, lines[0]) then [Strip(lines[0])] + rest else rest
  }

  /** `parse_schedule` after text extraction. */
  function ParseSchedule(lines: seq<string>, find: Matcher): (schedule: seq<Entry>)
    ensures forall k :: 0 <= k < |schedule| ==> WellFormedEntry(schedule[k])
  {
    Scan(FilterLines(lines, find), Start, find).entries
  }

  /* ----- properties of the scan ----- */

  /** A line that emits entries: it holds a class token and no day label. */
  predicate IsClassRow(find: Matcher, line: string) {
    !HasDayLabel(line) && Search(find, line)
  }

  /** Scanning a concatenation is scanning the first part, then the second part
      from the cursor the first part left behind. */
  lemma {:induction false} ScanAppend(a: seq<string>, b: seq<string>, c: Cursor, find: Matcher)
    ensures Scan(a + b, c, find)
         == Scanned(Scan(b, Scan(a, c, find).cursor, find).cursor,
                    Scan(a, c, find).entries + Scan(b, Scan(a, c, find).cursor, find).entries)
    decreases |a|
  {
    if a == [] {
      assert a + b == b;
    } else {
      var first := Step(c, a[0], find);
      assert (a + b)[0] == a[0];
      assert (a + b)[1..] == a[1..] + b;
      ScanAppend(a[1..], b, first.cursor, find);
      var ra := Scan(a[1..], first.cursor, find);
      var rb := Scan(b, ra.cursor, find);
      assert first.entries + (ra.entries + rb.entries) == (first.entries + ra.entries) + rb.entries;
    }
  }

  /** The tokens held by the lines that carry no day label. */
  function MatchTotal(lines: seq<string>, find: Matcher): nat {
    if lines == [] then 0
    else (if HasDayLabel(lines[0]) then 0 else |find(lines[0])|) + MatchTotal(lines[1..], find)
  }

  /** The scan emits exactly one entry per token on a line without a day label. */
  lemma {:induction false} EntryCount(lines: seq<string>, c: Cursor, find: Matcher)
    ensures |Scan(lines, c, find).entries| == MatchTotal(lines, find)
    decreases |lines|
  {
    if lines != [] {
      EntryCount(lines[1..], Step(c, lines[0], find).cursor, find);
    }
  }

  /** The number of class rows among `lines`. */
  function ClassRows(lines: seq<string>, find: Matcher): nat
    decreases |lines|
  {
    if lines == [] then 0
    else ClassRows(lines[..|lines| - 1], find) + (if IsClassRow(find, lines[|lines| - 1]) then 1 else 0)
  }

  /** Scanning one line is one step. */
  lemma ScanOne(line: string, c: Cursor, find: Matcher)
    ensures Scan([line], c, find) == Step(c, line, find)
  {
    assert [line][1..] == [];
  }

  /** Within a run of lines holding no day label, the day cursor stays put, every
      entry carries that day, and the block cursor advances once per class row. */
  lemma {:induction false} HeaderlessScan(lines: seq<string>, c: Cursor, find: Matcher)
    requires forall k :: 0 <= k < |lines| ==> !HasDayLabel(lines[k])
    ensures Scan(lines, c, find).cursor == Cursor(c.day, c.block + ClassRows(lines, find))
    ensures forall k :: 0 <= k < |Scan(lines, c, find).entries| ==> Scan(lines, c, find).entries[k].day == Days[c.day]
    decreases |lines|
  {
    if lines != [] {
      var init, last := lines[..|lines| - 1], lines[|lines| - 1];
      assert lines == init + [last];
      HeaderlessScan(init, c, find);
      ScanAppend(init, [last], c, find);
      ScanOne(last, Scan(init, c, find).cursor, find);
    }
  }

  /** Entries emitted before the first day header all fall on Monday. */
  lemma MondayBeforeFirstHeader(lines: seq<string>, find: Matcher, i: int)
    requires 0 <= i <= |lines|
    requires forall k :: 0 <= k < i ==> !HasDayLabel(lines[k])
    ensures |Scan(lines[..i], Start, find).entries| <= |Scan(lines, Start, find).entries|
    ensures forall k :: 0 <= k < |Scan(lines[..i], Start, find).entries| ==>
      Scan(lines, Start, find).entries[k].day == "Monday"
  {
    assert lines[..i] + lines[i..] == lines;
    ScanAppend(lines[..i], lines[i..], Start, find);
    HeaderlessScan(lines[..i], Start, find);
  }

  /** The index of the last line holding a day label. */
  function LastHeader(lines: seq<string>): (r: Option<nat>)
    ensures r.Some? ==> r.value < |lines| && HasDayLabel(lines[r.value])
    ensures r.Some? ==> forall k :: r.value < k < |lines| ==> !HasDayLabel(lines[k])
    ensures r.None? ==> forall k :: 0 <= k < |lines| ==> !HasDayLabel(lines[k])
    decreases |lines|
  {
    if lines == [] then None
    else if HasDayLabel(lines[|lines| - 1]) then Some(|lines| - 1)
    else LastHeader(lines[..|lines| - 1])
  }

  /** The cursors the scan should hold after `lines`, stated without the scan: the
      day of the last header (Monday when there is none) and the number of class
      rows seen since that header (since the start when there is none). */
  function ExpectedCursor(lines: seq<string>, find: Matcher): Cursor {
    match LastHeader(lines)
    case None => Cursor(0, ClassRows(lines, find))
    case Some(j) => Cursor(ResolveDay(lines[j]), ClassRows(lines[j + 1..], find))
  }

  /** Slicing past an index of a sequence with one more element appended. */
  lemma SliceSnoc(init: seq<string>, last: string, j: nat)
    requires j < |init|
    ensures (init + [last])[j + 1..] == init[j + 1..] + [last]
  {
  }

  /** Appending a header makes it the last header; appending any other line
      leaves the last header where it was. */
  lemma LastHeaderSnoc(init: seq<string>, last: string)
    ensures HasDayLabel(last) ==> LastHeader(init + [last]) == Some(|init|)
    ensures !HasDayLabel(last) ==> LastHeader(init + [last]) == LastHeader(init)
  {
    assert (init + [last])[..|init|] == init;
  }

  lemma ClassRowsSnoc(init: seq<string>, last: string, find: Matcher)
    ensures ClassRows(init + [last], find) == ClassRows(init, find) + (if IsClassRow(find, last) then 1 else 0)
  {
    assert (init + [last])[..|init|] == init;
  }

  /** Appending a header resets the reference cursors to the header's day and block 0. */
  lemma ExpectedCursorAfterHeader(init: seq<string>, last: string, find: Matcher)
    requires HasDayLabel(last)
    ensures ExpectedCursor(init + [last], find) == Cursor(ResolveDay(last), 0)
  {
    LastHeaderSnoc(init, last);
    assert (init + [last])[|init|] == last;
    assert (init + [last])[|init| + 1..] == [];
  }

  /** Below a header, appending a line without a header keeps that header's day and
      counts the line when it is a class row. */
  lemma ExpectedCursorUnderHeader(init: seq<string>, last: string, find: Matcher, j: nat)
    requires !HasDayLabel(last) && LastHeader(init) == Some(j)
    ensures ExpectedCursor(init + [last], find)
         == Cursor(ResolveDay(init[j]), ClassRows(init[j + 1..], find) + (if IsClassRow(find, last) then 1 else 0))
  {
    var s := init + [last];
    calc {
      ExpectedCursor(s, find);
    == { LastHeaderSnoc(init, last); }
      Cursor(ResolveDay(s[j]), ClassRows(s[j + 1..], find));
    == { assert s[j] == init[j]; SliceSnoc(init, last, j); }
      Cursor(ResolveDay(init[j]), ClassRows(init[j + 1..] + [last], find));
    == { ClassRowsSnoc(init[j + 1..], last, find); }
      Cursor(ResolveDay(init[j]), ClassRows(init[j + 1..], find) + (if IsClassRow(find, last) then 1 else 0));
    }
  }

  /** Appending a line without a header keeps the reference day and adds one block
      exactly when the line is a class row. */
  lemma ExpectedCursorAfterOther(init: seq<string>, last: string, find: Matcher)
    requires !HasDayLabel(last)
    ensures ExpectedCursor(init + [last], find).day == ExpectedCursor(init, find).day
    ensures ExpectedCursor(init + [last], find).block
         == ExpectedCursor(init, find).block + (if IsClassRow(find, last) then 1 else 0)
  {
    match LastHeader(init)
    case None =>
      LastHeaderSnoc(init, last);
      ClassRowsSnoc(init, last, find);
    case Some(j) =>
      ExpectedCursorUnderHeader(init, last, find, j);
  }

  /** The scan's cursors always equal the reference cursors. */
  lemma {:induction false} CursorMatchesReference(lines: seq<string>, find: Matcher)
    ensures Scan(lines, Start, find).cursor == ExpectedCursor(lines, find)
    decreases |lines|
  {
    if lines != [] {
      var n := |lines| - 1;
      var init, last := lines[..n], lines[n];
      assert lines == init + [last];
      CursorMatchesReference(init, find);
      ScanAppend(init, [last], Start, find);
      ScanOne(last, Scan(init, Start, find).cursor, find);
      if HasDayLabel(last) {
        ExpectedCursorAfterHeader(init, last, find);
      } else {
        ExpectedCursorAfterOther(init, last, find);
      }
    }
  }

  /** The entries of the class row at index `i` sit together in the output, in token
      order, right after the entries of the earlier lines; each carries the day of
      the last header before the row and the time label of the number of class rows
      between that header and the row. */
  lemma RowPlacement(lines: seq<string>, find: Matcher, i: int)
    requires 0 <= i < |lines| && IsClassRow(find, lines[i])
    ensures |Scan(lines[..i], Start, find).entries| + |find(lines[i])| <= |Scan(lines, Start, find).entries|
    ensures forall k :: 0 <= k < |find(lines[i])| ==>
      var e := Scan(lines, Start, find).entries[|Scan(lines[..i], Start, find).entries| + k];
      var c := ExpectedCursor(lines[..i], find);
      && e.day == Days[c.day]
      && e.time == TimeLabel(c.block)
      && e.cls == find(lines[i])[k].cls
      && e.subject == find(lines[i])[k].subject
      && e.teacher == find(lines[i])[k].teacher
  {
    assert lines[..i] + lines[i..] == lines;
    ScanAppend(lines[..i], lines[i..], Start, find);
    CursorMatchesReference(lines[..i], find);
    var c := Scan(lines[..i], Start, find).cursor;
    assert lines[i..] == [lines[i]] + lines[i + 1..];
    ScanAppend([lines[i]], lines[i + 1..], c, find);
    ScanOne(lines[i], c, find);
  }

  /* ----- properties of the filter ----- */

  lemma {:induction false} FilterAppend(a: seq<string>, b: seq<string>, find: Matcher)
    ensures FilterLines(a + b, find) == FilterLines(a, find) + FilterLines(b, find)
    decreases |a|
  {
    if a == [] {
      assert a + b == b;
    } else {
      assert (a + b)[0] == a[0];
      assert (a + b)[1..] == a[1..] + b;
      FilterAppend(a[1..], b, find);
    }
  }

  /** Filtering one line keeps its stripped text exactly when it is relevant. */
  lemma FilterOne(line: string, find: Matcher)
    ensures FilterLines([line], find) == if Relevant(find, line) then [Strip(line)] else []
  {
    assert [line][1..] == [];
  }

  /** The indices of the lines the filter keeps, in increasing order. */
  function KeptIndices(lines: seq<string>, find: Matcher): (idx: seq<nat>)
    ensures forall k :: 0 <= k < |idx| ==> idx[k] < |lines| && Relevant(find, lines[idx[k]])
    ensures forall k, l :: 0 <= k < l < |idx| ==> idx[k] < idx[l]
    ensures forall j :: 0 <= j < |lines| && Relevant(find, lines[j]) ==> j in idx
    decreases |lines|
  {
    if lines == [] then []
    else
      var n := |lines| - 1;
      var rest := KeptIndices(lines[..n], find);
      if Relevant(find, lines[n]) then rest + [n] else rest
  }

  /** The filter keeps exactly the relevant lines, in their original order, stripped. */
  lemma {:induction false} FilterKeepsRelevantInOrder(lines: seq<string>, find: Matcher)
    ensures |FilterLines(lines, find)| == |KeptIndices(lines, find)|
    ensures forall k :: 0 <= k < |KeptIndices(lines, find)| ==>
      FilterLines(lines, find)[k] == Strip(lines[KeptIndices(lines, find)[k]])
    decreases |lines|
  {
    if lines != [] {
      var n := |lines| - 1;
      var init := lines[..n];
      assert lines == init + [lines[n]];
      FilterKeepsRelevantInOrder(init, find);
      FilterAppend(init, [lines[n]], find);
      FilterOne(lines[n], find);
      var f, idx := FilterLines(init, find), KeptIndices(init, find);
      forall k | 0 <= k < |idx|
        ensures Strip(init[idx[k]]) == Strip(lines[idx[k]])
      {
        assert init[idx[k]] == lines[idx[k]];
      }
      if Relevant(find, lines[n]) {
        assert FilterLines(lines, find) == f + [Strip(lines[n])];
        assert KeptIndices(lines, find) == idx + [n];
      } else {
        assert FilterLines(lines, find) == f;
        assert KeptIndices(lines, find) == idx;
      }
    }
  }

  /** Every day label is a non-empty word without whitespace. */
  lemma DayLabelsAreWords()
    ensures forall d :: 0 <= d < |Days| ==> |Days[d]| > 0 && NoSpace(Days[d])
  {
    assert NoSpace(Days[0]);
    assert NoSpace(Days[1]);
    assert NoSpace(Days[2]);
    assert NoSpace(Days[3]);
    assert NoSpace(Days[4]);
  }

  /** Stripping a kept line never turns a header into a non-header or back. */
  lemma StripKeepsDayLabel(line: string)
    ensures HasDayLabel(Strip(line)) <==> HasDayLabel(line)
  {
    DayLabelsAreWords();
    forall d | 0 <= d < |Days|
      ensures Contains(Strip(line), Days[d]) <==> Contains(line, Days[d])
    {
      StripKeepsWord(line, Days[d]);
    }
    if HasDayLabel(line) {
      var d :| 0 <= d < |Days| && Contains(line, Days[d]);
      assert Contains(Strip(line), Days[d]);
    }
    if HasDayLabel(Strip(line)) {
      var d :| 0 <= d < |Days| && Contains(Strip(line), Days[d]);
      assert Contains(line, Days[d]);
    }
  }

  /** The tokens, on their stripped text, of the kept lines that hold no day label. */
  function KeptMatchTotal(lines: seq<string>, find: Matcher): nat {
    if lines == [] then 0
    else (if Relevant(find, lines[0]) && !HasDayLabel(lines[0]) then |find(Strip(lines[0]))| else 0)
         + KeptMatchTotal(lines[1..], find)
  }

  lemma {:induction false} FilteredMatchTotal(lines: seq<string>, find: Matcher)
    ensures MatchTotal(FilterLines(lines, find), find) == KeptMatchTotal(lines, find)
    decreases |lines|
  {
    if lines != [] {
      FilteredMatchTotal(lines[1..], find);
      StripKeepsDayLabel(lines[0]);
      if Relevant(find, lines[0]) {
        assert ([Strip(lines[0])] + FilterLines(lines[1..], find))[1..] == FilterLines(lines[1..], find);
      }
    }
  }

  /** `parse_schedule` emits as many entries as there are tokens on the stripped
      text of the kept lines without a day label; `RowPlacement` says where each
      row's entries go. */
  lemma ParseEntryCount(lines: seq<string>, find: Matcher)
    ensures |ParseSchedule(lines, find)| == KeptMatchTotal(lines, find)
  {
    EntryCount(FilterLines(lines, find), Start, find);
    FilteredMatchTotal(lines, find);
  }
}
