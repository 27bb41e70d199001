/**
 Worked examples of the parser on concrete lines. The matcher below is the
 class-entry pattern written out for the lines of the example: it yields what
 `finditer` yields on them.
 */
module Scenarios {
  import opened Text
  import opened Schedule
  import opened Grouping

  const HeaderLine: string := "Monday"
  const MathRow: string := "7A - Math (Lee)"
  const ArtRow: string := "8B - Art (Roy) 8C - Art (Roy)"

  function ExampleMatcher(line: string): seq<Match> {
    if line == MathRow then [MatchGroups("7A", "Math", "Lee")]
    else if line == ArtRow then [MatchGroups("8B", "Art", "Roy"), MatchGroups("8C", "Art", "Roy")]
    else []
  }

  /** No day label occurs in a line without the letter 'd'. */
  lemma NoDayWithoutD(line: string)
    requires forall i :: 0 <= i < |line| ==> line[i] != 'd'
    ensures !HasDayLabel(line)
  {
    forall d | 0 <= d < |Days|
      ensures !Contains(line, Days[d])
    {
      // Every day label ends in "day", so its third character from the end is 'd'.
      assert Days[d][|Days[d]| - 3] == 'd';
      AbsentCharRulesOut(line, Days[d], |Days[d]| - 3);
    }
  }

  /** A header naming two days resolves to the one earlier in the week, even
      when the later day is written first. */
  lemma CanonicalOrderWins()
    ensures HasDayLabel("Tuesday Monday")
    ensures ResolveDay("Tuesday Monday") == 0
  {
    var line := "Tuesday Monday";
    assert OccursAt(line, Days[0], 8);
    ContainsIffOccurs(line, Days[0]);
  }

  lemma ExampleLinesKept()
    ensures FilterLines([HeaderLine, MathRow, ArtRow], ExampleMatcher) == [HeaderLine, MathRow, ArtRow]
  {
    var lines := [HeaderLine, MathRow, ArtRow];
    assert Contains(HeaderLine, Days[0]);
    StripTrimmed(HeaderLine);
    StripTrimmed(MathRow);
    StripTrimmed(ArtRow);
    assert HasDayLabel(HeaderLine);
    assert Search(ExampleMatcher, MathRow);
    assert Search(ExampleMatcher, ArtRow);
    assert [ArtRow][1..] == [];
    assert FilterLines([ArtRow], ExampleMatcher) == [ArtRow];
    assert [MathRow, ArtRow][1..] == [ArtRow];
    assert FilterLines([MathRow, ArtRow], ExampleMatcher) == [MathRow, ArtRow];
    assert lines[1..] == [MathRow, ArtRow];
  }

  lemma ExampleHeaderStep()
    ensures Step(Start, HeaderLine, ExampleMatcher) == Scanned(Cursor(0, 0), [])
  {
    assert Contains(HeaderLine, Days[0]);
  }

  lemma ExampleMathStep()
    ensures Step(Cursor(0, 0), MathRow, ExampleMatcher)
         == Scanned(Cursor(0, 1), [Entry("Monday", "7:50-8:15", "7A", '7', "Math", "Lee")])
  {
    NoDayWithoutD(MathRow);
    assert ExampleMatcher(MathRow) == [MatchGroups("7A", "Math", "Lee")];
  }

  lemma ArtRowEntries()
    ensures ExampleMatcher(ArtRow) == [MatchGroups("8B", "Art", "Roy"), MatchGroups("8C", "Art", "Roy")]
    ensures RowEntries(Cursor(0, 1), ExampleMatcher(ArtRow))
         == [Entry("Monday", "8:15-9:10", "8B", '8', "Art", "Roy"),
             Entry("Monday", "8:15-9:10", "8C", '8', "Art", "Roy")]
  {
    var es := RowEntries(Cursor(0, 1), ExampleMatcher(ArtRow));
    assert es[0] == Entry("Monday", "8:15-9:10", "8B", '8', "Art", "Roy");
    assert es[1] == Entry("Monday", "8:15-9:10", "8C", '8', "Art", "Roy");
  }

  lemma ExampleArtStep()
    ensures Step(Cursor(0, 1), ArtRow, ExampleMatcher)
         == Scanned(Cursor(0, 2), [Entry("Monday", "8:15-9:10", "8B", '8', "Art", "Roy"),
                                   Entry("Monday", "8:15-9:10", "8C", '8', "Art", "Roy")])
  {
    NoDayWithoutD(ArtRow);
    ArtRowEntries();
  }

  lemma ExampleTailScan()
    ensures Scan([MathRow, ArtRow], Cursor(0, 0), ExampleMatcher).entries == [
      Entry("Monday", "7:50-8:15", "7A", '7', "Math", "Lee"),
      Entry("Monday", "8:15-9:10", "8B", '8', "Art", "Roy"),
      Entry("Monday", "8:15-9:10", "8C", '8', "Art", "Roy")
    ]
  {
    ExampleMathStep();
    ExampleArtStep();
    ScanAppend([MathRow], [ArtRow], Cursor(0, 0), ExampleMatcher);
    ScanOne(MathRow, Cursor(0, 0), ExampleMatcher);
    ScanOne(ArtRow, Cursor(0, 1), ExampleMatcher);
    assert [MathRow] + [ArtRow] == [MathRow, ArtRow];
  }

  /** A header line, a row with one token and a row with two tokens: three entries,
      the two tokens of the second row sharing the second period. */
  lemma ThreeLineExample()
    ensures ParseSchedule([HeaderLine, MathRow, ArtRow], ExampleMatcher) == [
      Entry("Monday", "7:50-8:15", "7A", '7', "Math", "Lee"),
      Entry("Monday", "8:15-9:10", "8B", '8', "Art", "Roy"),
      Entry("Monday", "8:15-9:10", "8C", '8', "Art", "Roy")
    ]
  {
    ExampleLinesKept();
    ExampleHeaderStep();
    ExampleTailScan();
    ScanAppend([HeaderLine], [MathRow, ArtRow], Start, ExampleMatcher);
    ScanOne(HeaderLine, Start, ExampleMatcher);
    assert [HeaderLine] + [MathRow, ArtRow] == [HeaderLine, MathRow, ArtRow];
  }

  lemma GroupStep(s: seq<Entry>, e: Entry)
    ensures GroupByClass(s + [e]) == Add(GroupByClass(s), e)
  {
    assert (s + [e])[..|s|] == s;
  }

  lemma GroupFirst(e0: Entry)
    requires e0.cls == "7A"
    ensures GroupByClass([e0]).keys == ["7A"]
    ensures "8B" !in GroupByClass([e0]).rows && "8C" !in GroupByClass([e0]).rows
  {
    GroupStep([], e0);
    assert [] + [e0] == [e0];
    assert "8B"[0] != "7A"[0] && "8C"[0] != "7A"[0];
  }

  lemma GroupSecond(e0: Entry, e1: Entry)
    requires e0.cls == "7A" && e1.cls == "8B"
    ensures GroupByClass([e0, e1]).keys == ["7A", "8B"]
    ensures "8C" !in GroupByClass([e0, e1]).rows
  {
    GroupFirst(e0);
    GroupStep([e0], e1);
    assert [e0] + [e1] == [e0, e1];
    assert "8C"[1] != "8B"[1];
  }

  lemma GroupExampleEntries(e0: Entry, e1: Entry, e2: Entry)
    requires e0.cls == "7A" && e1.cls == "8B" && e2.cls == "8C"
    ensures GroupByClass([e0, e1, e2]).keys == ["7A", "8B", "8C"]
  {
    calc {
      GroupByClass([e0, e1, e2]).keys;
    == { assert [e0, e1] + [e2] == [e0, e1, e2]; GroupStep([e0, e1], e2); }
      Add(GroupByClass([e0, e1]), e2).keys;
    == { GroupSecond(e0, e1); }
      ["7A", "8B"] + ["8C"];
    }
  }

  /** Grouping the example keeps the classes in the order first seen. */
  lemma ThreeLineExampleGrouped()
    ensures GroupByClass(ParseSchedule([HeaderLine, MathRow, ArtRow], ExampleMatcher)).keys == ["7A", "8B", "8C"]
  {
    ThreeLineExample();
    GroupExampleEntries(Entry("Monday", "7:50-8:15", "7A", '7', "Math", "Lee"),
                        Entry("Monday", "8:15-9:10", "8B", '8', "Art", "Roy"),
                        Entry("Monday", "8:15-9:10", "8C", '8', "Art", "Roy"));
  }
}
