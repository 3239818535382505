/** SchoolSATDetailCell.swift: the cell showing one SAT record as text. */
module SchoolSATDetailCellView {
  import opened Wrappers
  import opened DisplayText
  import opened SchoolSATDetailModel
  import SchoolSATDetailScreen

  const TestTakersPrefix: string := "\nNumber of Test Takers: "
  const TestTakersSuffix: string := " People"
  const MathPrefix: string := "\nAverage Math Score: "
  const ReadingPrefix: string := "\nAverage Reading Score: "
  const WritingPrefix: string := "\nAverage Writing Score: "
  const ScoreSuffix: string := " out of 800"

  /**
   * The label's fields in display order: name, test takers, then the math,
   * reading and writing scores (math before reading, unlike the order the
   * record declares them in).
   */
  function DetailSegments(d: SchoolSATDetail): (r: seq<Segment>)
    ensures |r| == 5
  {
    [Segment("", d.name, ""),
     Segment(TestTakersPrefix, d.testTakerCount, TestTakersSuffix),
     Segment(MathPrefix, d.mathAvgScore, ScoreSuffix),
     Segment(ReadingPrefix, d.readingAvgScore, ScoreSuffix),
     Segment(WritingPrefix, d.writingAvgScore, ScoreSuffix)]
  }

  /** The label's plain text for an optional record: nothing at all for no record. */
  function DetailText(detail: Option<SchoolSATDetail>): (r: string)
    ensures detail.None? ==> r == ""
  {
    match detail
    case None => ""
    case Some(d) => Compose(DetailSegments(d))
  }

  /** A present field between its label and its unit, or nothing. */
  function Labelled(prefix: string, field: Option<string>, suffix: string): string
  {
    if field.Some? then prefix + field.value + suffix else ""
  }

  /** Appending a field's label and then its value and unit appends its segment. */
  lemma AppendLabelled(text: string, prefix: string, field: Option<string>, suffix: string)
    ensures field.Some? ==> text + prefix + (field.value + suffix) == text + Labelled(prefix, field, suffix)
    ensures field.None? ==> text == text + Labelled(prefix, field, suffix)
  {
    if field.None? {
      assert text + "" == text;
    }
  }

  /** The label text, spelled out field by field. */
  lemma DetailTextSpelledOut(d: SchoolSATDetail)
    ensures DetailText(Some(d)) ==
      d.name.GetOr("") +
      Labelled(TestTakersPrefix, d.testTakerCount, TestTakersSuffix) +
      Labelled(MathPrefix, d.mathAvgScore, ScoreSuffix) +
      Labelled(ReadingPrefix, d.readingAvgScore, ScoreSuffix) +
      Labelled(WritingPrefix, d.writingAvgScore, ScoreSuffix)
  {
    var segs := DetailSegments(d);
    ComposeFive(segs[0], segs[1], segs[2], segs[3], segs[4]);
    assert segs == [segs[0], segs[1], segs[2], segs[3], segs[4]];
    if d.name.Some? {
      assert "" + d.name.value + "" == d.name.value;
    }
  }

  /** The text is empty exactly when the name is absent or empty and every count and score is absent. */
  lemma DetailTextEmptyIff(d: SchoolSATDetail)
    ensures DetailText(Some(d)) == "" <==>
      (d.name.None? || d.name == Some("")) && d.testTakerCount.None? &&
      d.mathAvgScore.None? && d.readingAvgScore.None? && d.writingAvgScore.None?
  {
    DetailTextSpelledOut(d);
  }

  /** The record's id is never shown. */
  lemma DetailTextIgnoresId(d: SchoolSATDetail, id: Option<string>)
    ensures DetailText(Some(d)) == DetailText(Some(d.(id := id)))
  {
    assert DetailSegments(d) == DetailSegments(d.(id := id));
  }

  /**
   * With both present, the math line comes right before the reading line,
   * after the name and test-taker lines.
   */
  lemma MathPrecedesReading(d: SchoolSATDetail)
    requires d.mathAvgScore.Some? && d.readingAvgScore.Some?
    ensures var m := |d.name.GetOr("") + Labelled(TestTakersPrefix, d.testTakerCount, TestTakersSuffix)|;
      var math := MathPrefix + d.mathAvgScore.value + ScoreSuffix;
      var reading := ReadingPrefix + d.readingAvgScore.value + ScoreSuffix;
      m + |math| + |reading| <= |DetailText(Some(d))| &&
      DetailText(Some(d))[m..m + |math|] == math &&
      DetailText(Some(d))[m + |math|..m + |math| + |reading|] == reading
  {
    DetailTextSpelledOut(d);
    var before := d.name.GetOr("") + Labelled(TestTakersPrefix, d.testTakerCount, TestTakersSuffix);
    var math := MathPrefix + d.mathAvgScore.value + ScoreSuffix;
    var reading := ReadingPrefix + d.readingAvgScore.value + ScoreSuffix;
    var after := Labelled(WritingPrefix, d.writingAvgScore, ScoreSuffix);
    var text := DetailText(Some(d));
    assert text == before + math + reading + after;
    MiddleSlices(before, math, reading, after);
  }

  lemma MiddleSlices(a: string, b: string, c: string, d: string)
    ensures (a + b + c + d)[|a|..|a| + |b|] == b
    ensures (a + b + c + d)[|a| + |b|..|a| + |b| + |c|] == c
  {
    assert a + b + c + d == a + (b + (c + d));
    assert (a + b + c + d)[|a|..] == b + (c + d);
    assert (b + (c + d))[|b|..] == c + d;
  }

  /** The appends `updateContent` makes to the label's text: each present field's label, then its value and unit. */
  method LabelText(detail: Option<SchoolSATDetail>) returns (text: string)
    ensures text == DetailText(detail)
  {
    text := "";
    if detail.Some? {
      var d := detail.value;
      if d.name.Some? {
        text := text + d.name.value;
      }
      assert text == d.name.GetOr("");
      AppendLabelled(text, TestTakersPrefix, d.testTakerCount, TestTakersSuffix);
      if d.testTakerCount.Some? {
        text := text + TestTakersPrefix;
        text := text + (d.testTakerCount.value + TestTakersSuffix);
      }
      assert text == d.name.GetOr("") + Labelled(TestTakersPrefix, d.testTakerCount, TestTakersSuffix);
      AppendLabelled(text, MathPrefix, d.mathAvgScore, ScoreSuffix);
      if d.mathAvgScore.Some? {
        text := text + MathPrefix;
        text := text + (d.mathAvgScore.value + ScoreSuffix);
      }
      assert text == d.name.GetOr("") + Labelled(TestTakersPrefix, d.testTakerCount, TestTakersSuffix) +
        Labelled(MathPrefix, d.mathAvgScore, ScoreSuffix);
      AppendLabelled(text, ReadingPrefix, d.readingAvgScore, ScoreSuffix);
      if d.readingAvgScore.Some? {
        text := text + ReadingPrefix;
        text := text + (d.readingAvgScore.value + ScoreSuffix);
      }
      assert text == d.name.GetOr("") + Labelled(TestTakersPrefix, d.testTakerCount, TestTakersSuffix) +
        Labelled(MathPrefix, d.mathAvgScore, ScoreSuffix) + Labelled(ReadingPrefix, d.readingAvgScore, ScoreSuffix);
      AppendLabelled(text, WritingPrefix, d.writingAvgScore, ScoreSuffix);
      if d.writingAvgScore.Some? {
        text := text + WritingPrefix;
        text := text + (d.writingAvgScore.value + ScoreSuffix);
      }
      DetailTextSpelledOut(d);
    }
  }

  class SchoolSATDetailCell {
    var schoolSATDetail: Option<SchoolSATDetail>
    var labelText: string

    /** `init(frame:)` and `setup`: no record and an empty label. */
    constructor ()
      ensures schoolSATDetail.None? && labelText == ""
    {
      schoolSATDetail := None;
      labelText := "";
    }

    /** `updateContent(schoolSATDetail:)`: keeps the record and shows its text. */
    method UpdateContent(schoolSATDetail: Option<SchoolSATDetail>)
      modifies this
      ensures this.schoolSATDetail == schoolSATDetail
      ensures labelText == DetailText(schoolSATDetail)
    {
      this.schoolSATDetail := schoolSATDetail;
      labelText := LabelText(schoolSATDetail);
    }
  }

  /** SchoolSATDetailViewController's `cellForItemAt` for its details section: one cell per record. */
  method ConfigureDetailsCell(screen: SchoolSATDetailScreen.SchoolSATDetailViewController, cell: SchoolSATDetailCell,
                              item: int)
    requires 0 <= item < |screen.schoolSATDetails|
    modifies cell
    ensures cell.schoolSATDetail == Some(screen.schoolSATDetails[item])
    ensures cell.labelText == DetailText(Some(screen.schoolSATDetails[item]))
  {
    cell.UpdateContent(Some(screen.schoolSATDetails[item]));
  }
}
