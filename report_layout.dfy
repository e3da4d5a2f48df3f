// The spreadsheet reports of testing.py: a row cursor walks down one worksheet,
// writing a title per exam and a table of its students' marks under it.

module ReportLayout {
  import opened Wrappers
  import Text
  import opened Grading

  /** What a cell holds: text, a whole number or an exact percentage. */
  datatype CellValue = Text(text: string) | Number(number: int) | Decimal(decimal: real)

  /** One write to the worksheet. */
  datatype Cell = Cell(row: nat, col: nat, value: CellValue)

  /** A row of the marks query: the student, the mark and the row's own total. */
  datatype MarkLine = MarkLine(studentName: string, rfid: string, obtained: int, total: Option<int>)

  /** An assessment of the report, with the mark rows fetched for it. `date` is
      `created_at` already formatted as day-month-year. */
  datatype Exam = Exam(id: int, totalMarks: Option<int>, date: Option<string>, marks: seq<MarkLine>)

  /** A subject of the all-subjects report, with its assessments in created_at order. */
  datatype SubjectExams = SubjectExams(subjectId: int, name: string, exams: seq<Exam>)

  /** One line of the table a block writes. */
  datatype DataRow = DataRow(studentName: string, rfid: string, obtained: int, total: int,
                             percentage: real, grade: Grade)

  const Columns: seq<string> := ["Student Name", "RFID", "Marks Achieved", "Total Marks", "Percentage", "Grade"]

  // ---------------------------------------------------------------- one row

  /** Python truthiness of a nullable number: neither NULL nor zero. */
  predicate Truthy(x: Option<int>)
  {
    x.Some? && x.value != 0
  }

  /** `row['total_marks'] or fallback_total_marks or 0`. */
  function EffectiveTotal(rowTotal: Option<int>, fallback: Option<int>): (t: int)
    ensures Truthy(rowTotal) ==> t == rowTotal.value
    ensures !Truthy(rowTotal) && Truthy(fallback) ==> t == fallback.value
    ensures t != 0 <==> Truthy(rowTotal) || Truthy(fallback)
  {
    if Truthy(rowTotal) then rowTotal.value else if Truthy(fallback) then fallback.value else 0
  }

  /** `(obtained / total) * 100 if total > 0 else 0`: it never divides by zero. */
  function SafePercentage(obtained: int, total: int): (p: real)
    ensures total > 0 ==> p * (total as real) == (obtained as real) * 100.0
    ensures total <= 0 ==> p == 0.0
  {
    if total > 0 then Percentage(obtained, total) else 0.0
  }

  /** The table line of one mark row. */
  function FormatRow(m: MarkLine, fallback: Option<int>): (d: DataRow)
    ensures d.studentName == m.studentName && d.rfid == m.rfid && d.obtained == m.obtained
    ensures d.total == EffectiveTotal(m.total, fallback)
    ensures d.percentage == SafePercentage(m.obtained, d.total)
  {
    var total := EffectiveTotal(m.total, fallback);
    var percentage := SafePercentage(m.obtained, total);
    DataRow(m.studentName, m.rfid, m.obtained, total, percentage, CalculateGrade(percentage))
  }

  /** With a positive total a line reaches a band exactly when `obtained * 100`
      reaches the band's threshold times the total; without one it is an F. */
  lemma FormatRowGrade(m: MarkLine, fallback: Option<int>, g: Grade)
    requires g != F
    ensures var d := FormatRow(m, fallback);
      && (d.total > 0 ==> (Rank(d.grade) >= Rank(g) <==> m.obtained * 100 >= Threshold(g).Floor * d.total))
      && (d.total <= 0 ==> d.grade == F)
  {
    var d := FormatRow(m, fallback);
    assert Threshold(g) == Threshold(g).Floor as real by {
      match g
      case APlus => case A => case B => case C => case D =>
    }
    GradeReaches(d.percentage, g);
    if d.total > 0 {
      PercentageAtLeast(m.obtained, d.total, Threshold(g).Floor);
    }
  }

  /** The columns of one table line, in header order. */
  function RowValues(d: DataRow): (vs: seq<CellValue>)
    ensures |vs| == |Columns|
  {
    [Text(d.studentName), Text(d.rfid), Number(d.obtained), Number(d.total), Decimal(d.percentage),
     Text(Label(d.grade))]
  }

  function HeaderValues(): (vs: seq<CellValue>)
    ensures |vs| == |Columns|
  {
    seq(|Columns|, c requires 0 <= c < |Columns| => Text(Columns[c]))
  }

  /** A row of cells written left to right from column 0. */
  function RowCells(row: nat, vs: seq<CellValue>): seq<Cell>
  {
    seq(|vs|, c requires 0 <= c < |vs| => Cell(row, c, vs[c]))
  }

  function FormatRows(marks: seq<MarkLine>, fallback: Option<int>): seq<DataRow>
  {
    seq(|marks|, k requires 0 <= k < |marks| => FormatRow(marks[k], fallback))
  }

  // --------------------------------------------------------------- one block

  /** The data lines of a table, one worksheet row each from `start` on. */
  function DataCells(start: nat, rows: seq<DataRow>): seq<Cell>
    decreases |rows|
  {
    if rows == [] then []
    else DataCells(start, rows[..|rows| - 1]) + RowCells(start + |rows| - 1, RowValues(rows[|rows| - 1]))
  }

  /** `df.to_excel(startrow=start, header=True, index=False)`: the header at
      `start` and the lines under it. A frame built from no rows has no columns,
      so it writes nothing at all. */
  function TableCells(start: nat, rows: seq<DataRow>): seq<Cell>
  {
    if rows == [] then [] else RowCells(start, HeaderValues()) + DataCells(start + 1, rows)
  }

  /** `f"{assessment_type} Exam {idx}"`, with the date in parentheses when there is one. */
  function ExamTitle(assessmentType: string, k: nat, date: Option<string>): string
  {
    assessmentType + " Exam " + Text.NatToString(k) + (if date.Some? then " (" + date.value + ")" else "")
  }

  /** A title reads back as the type, " Exam ", the block number and the date
      in parentheses when there is one. */
  lemma ExamTitleShape(assessmentType: string, k: nat, date: Option<string>)
    ensures var t := ExamTitle(assessmentType, k, date);
      && |t| > |assessmentType| + 6 && t[..|assessmentType| + 6] == assessmentType + " Exam "
      && (date.None? ==> Text.ParseInt(t[|assessmentType| + 6..]) == Some(k))
      && (date.Some? ==> |t| > |date.value| + 3 && t[|t| - |date.value| - 3..] == " (" + date.value + ")")
  {
    var t := ExamTitle(assessmentType, k, date);
    var number := Text.NatToString(k);
    Text.IntToStringRoundTrip(k);
    var head := assessmentType + " Exam " + number;
    assert head[|assessmentType| + 6..] == number;
    if date.Some? {
      assert t == head + " (" + date.value + ")";
    } else {
      assert t == head;
    }
  }

  /** The cells of one exam block whose title is at `row`. */
  function BlockCells(row: nat, assessmentType: string, k: nat, e: Exam): seq<Cell>
  {
    [Cell(row, 0, Text(ExamTitle(assessmentType, k, e.date)))] + TableCells(row + 1, FormatRows(e.marks, e.totalMarks))
  }

  /** The rows a block takes: its title, the header, one per student, three spare. */
  function BlockHeight(e: Exam): nat
  {
    4 + |e.marks|
  }

  /** Rows taken by a run of blocks: the sum of 4 + n over its exams. */
  function Height(exams: seq<Exam>): nat
    decreases |exams|
  {
    if exams == [] then 0 else Height(exams[..|exams| - 1]) + BlockHeight(exams[|exams| - 1])
  }

  /** The blocks of `exams`, numbered from 1, the first title at `start`. */
  function ExamBlocks(assessmentType: string, exams: seq<Exam>, start: nat): seq<Cell>
    decreases |exams|
  {
    if exams == [] then []
    else
      var init := exams[..|exams| - 1];
      ExamBlocks(assessmentType, init, start) + BlockCells(start + Height(init), assessmentType, |exams|, exams[|exams| - 1])
  }

  /** generate_assessment_excel: no workbook at all when no assessment matches. */
  function AssessmentSheet(assessmentType: string, exams: seq<Exam>): Option<seq<Cell>>
  {
    if exams == [] then None else Some(ExamBlocks(assessmentType, exams, 0))
  }

  // -------------------------------------------------------------- all subjects

  function Heading(s: SubjectExams): string
  {
    "Subject: " + s.name + " (ID: " + Text.IntToString(s.subjectId) + ")"
  }

  function NoneFound(assessmentType: string): string
  {
    "No " + assessmentType + " assessments found."
  }

  /** A subject's heading, then either the message or its blocks. */
  function SubjectCells(row: nat, assessmentType: string, s: SubjectExams): seq<Cell>
  {
    [Cell(row, 0, Text(Heading(s)))] +
    (if s.exams == [] then [Cell(row + 1, 0, Text(NoneFound(assessmentType)))]
     else ExamBlocks(assessmentType, s.exams, row + 1))
  }

  /** One row for the heading, then 3 for the message or the blocks' height. */
  function SubjectHeight(s: SubjectExams): nat
  {
    1 + (if s.exams == [] then 3 else Height(s.exams))
  }

  function SubjectsHeight(ss: seq<SubjectExams>): nat
    decreases |ss|
  {
    if ss == [] then 0 else SubjectsHeight(ss[..|ss| - 1]) + SubjectHeight(ss[|ss| - 1])
  }

  function SubjectBlocks(assessmentType: string, ss: seq<SubjectExams>, start: nat): seq<Cell>
    decreases |ss|
  {
    if ss == [] then []
    else
      var init := ss[..|ss| - 1];
      SubjectBlocks(assessmentType, init, start) + SubjectCells(start + SubjectsHeight(init), assessmentType, ss[|ss| - 1])
  }

  /** generate_all_subjects_assessments_excel: no workbook when the campus
      and year have no subjects. */
  function AllSubjectsSheet(assessmentType: string, ss: seq<SubjectExams>): Option<seq<Cell>>
  {
    if ss == [] then None else Some(SubjectBlocks(assessmentType, ss, 0))
  }

  // ------------------------------------------------------------ layout facts

  /** The order the model writes cells in: top to bottom, left to right. */
  predicate Before(c: Cell, d: Cell)
  {
    c.row < d.row || (c.row == d.row && c.col < d.col)
  }

  /** The cells lie inside rows `[lo, hi)` and the six columns of the table,
      strictly ordered by position, so no cell is written twice. */
  predicate Layout(cells: seq<Cell>, lo: nat, hi: nat)
  {
    && (forall i, j :: 0 <= i < j < |cells| ==> Before(cells[i], cells[j]))
    && (forall i :: 0 <= i < |cells| ==> lo <= cells[i].row < hi && cells[i].col < |Columns|)
  }

  /** Within a laid-out run of writes no position is written twice. */
  lemma LayoutDistinct(cells: seq<Cell>, lo: nat, hi: nat)
    requires Layout(cells, lo, hi)
    ensures forall i, j :: 0 <= i < j < |cells| ==> (cells[i].row, cells[i].col) != (cells[j].row, cells[j].col)
  {
    forall i, j | 0 <= i < j < |cells| ensures (cells[i].row, cells[i].col) != (cells[j].row, cells[j].col) {
      assert Before(cells[i], cells[j]);
    }
  }

  lemma LayoutConcat(a: seq<Cell>, b: seq<Cell>, lo: nat, mid: nat, hi: nat)
    requires lo <= mid <= hi && Layout(a, lo, mid) && Layout(b, mid, hi)
    ensures Layout(a + b, lo, hi)
  {
    var ab := a + b;
    forall i, j | 0 <= i < j < |ab| ensures Before(ab[i], ab[j]) {
      if j < |a| {
        assert ab[i] == a[i] && ab[j] == a[j];
      } else if i >= |a| {
        assert ab[i] == b[i - |a|] && ab[j] == b[j - |a|];
      } else {
        assert ab[i] == a[i] && ab[j] == b[j - |a|];
      }
    }
    forall i | 0 <= i < |ab| ensures lo <= ab[i].row < hi && ab[i].col < |Columns| {
      if i < |a| { assert ab[i] == a[i]; } else { assert ab[i] == b[i - |a|]; }
    }
  }

  lemma LayoutWiden(a: seq<Cell>, lo: nat, hi: nat, lo': nat, hi': nat)
    requires Layout(a, lo, hi) && lo' <= lo && hi <= hi'
    ensures Layout(a, lo', hi')
  {
  }

  lemma RowLayout(row: nat, vs: seq<CellValue>)
    requires |vs| <= |Columns|
    ensures Layout(RowCells(row, vs), row, row + 1)
  {
  }

  lemma {:induction false} DataLayout(start: nat, rows: seq<DataRow>)
    ensures Layout(DataCells(start, rows), start, start + |rows|)
    decreases |rows|
  {
    if rows != [] {
      var init := rows[..|rows| - 1];
      DataLayout(start, init);
      RowLayout(start + |rows| - 1, RowValues(rows[|rows| - 1]));
      LayoutConcat(DataCells(start, init), RowCells(start + |rows| - 1, RowValues(rows[|rows| - 1])),
                   start, start + |init|, start + |rows|);
    }
  }

  /** A block stays inside its own band of rows: title, header and one row per student. */
  lemma BlockLayout(row: nat, assessmentType: string, k: nat, e: Exam)
    ensures Layout(BlockCells(row, assessmentType, k, e), row, row + BlockHeight(e))
  {
    var title := [Cell(row, 0, Text(ExamTitle(assessmentType, k, e.date)))];
    var rows := FormatRows(e.marks, e.totalMarks);
    assert Layout(title, row, row + 1);
    if rows != [] {
      RowLayout(row + 1, HeaderValues());
      DataLayout(row + 2, rows);
      LayoutConcat(RowCells(row + 1, HeaderValues()), DataCells(row + 2, rows), row + 1, row + 2, row + 2 + |rows|);
      LayoutConcat(title, TableCells(row + 1, rows), row, row + 1, row + 2 + |rows|);
    }
    LayoutWiden(BlockCells(row, assessmentType, k, e), row, row + 2 + |rows|, row, row + BlockHeight(e));
  }

  /** A run of blocks stays inside `Height` rows from its start, no cell twice. */
  lemma {:induction false} ExamBlocksLayout(assessmentType: string, exams: seq<Exam>, start: nat)
    ensures Layout(ExamBlocks(assessmentType, exams, start), start, start + Height(exams))
    decreases |exams|
  {
    if exams != [] {
      var init := exams[..|exams| - 1];
      var last := exams[|exams| - 1];
      var mid := start + Height(init);
      var a, b := ExamBlocks(assessmentType, init, start), BlockCells(mid, assessmentType, |exams|, last);
      assert ExamBlocks(assessmentType, exams, start) == a + b;
      assert start + Height(exams) == mid + BlockHeight(last);
      ExamBlocksLayout(assessmentType, init, start);
      BlockLayout(mid, assessmentType, |exams|, last);
      LayoutConcat(a, b, start, mid, start + Height(exams));
    }
  }

  /** The blocks of the first k exams are the first cells of the sheet. */
  lemma {:induction false} ExamBlocksPrefix(assessmentType: string, exams: seq<Exam>, start: nat, k: nat)
    requires k <= |exams|
    ensures ExamBlocks(assessmentType, exams[..k], start) <= ExamBlocks(assessmentType, exams, start)
    decreases |exams|
  {
    if k < |exams| {
      var init := exams[..|exams| - 1];
      assert init[..k] == exams[..k];
      ExamBlocksPrefix(assessmentType, init, start, k);
    } else {
      assert exams[..k] == exams;
    }
  }

  /** Block k (numbered from 1) is titled at column 0 of row start + Σ_{i<k}(4 + n_i),
      right after the cells of the blocks before it. */
  lemma TitleRow(assessmentType: string, exams: seq<Exam>, start: nat, k: nat)
    requires k < |exams|
    ensures var before := ExamBlocks(assessmentType, exams[..k], start);
      && |before| < |ExamBlocks(assessmentType, exams, start)|
      && ExamBlocks(assessmentType, exams, start)[|before|]
         == Cell(start + Height(exams[..k]), 0, Text(ExamTitle(assessmentType, k + 1, exams[k].date)))
  {
    var upto := exams[..k + 1];
    assert upto[..k] == exams[..k] && upto[k] == exams[k];
    var before := ExamBlocks(assessmentType, exams[..k], start);
    var block := BlockCells(start + Height(exams[..k]), assessmentType, k + 1, exams[k]);
    assert ExamBlocks(assessmentType, upto, start) == before + block;
    ExamBlocksPrefix(assessmentType, exams, start, k + 1);
    assert ExamBlocks(assessmentType, exams, start)[|before|] == (before + block)[|before|];
  }

  /** After a first block of three students the second title is on row 7. */
  lemma SecondTitleAfterThreeStudents(assessmentType: string, exams: seq<Exam>)
    requires |exams| >= 2 && |exams[0].marks| == 3
    ensures Cell(7, 0, Text(ExamTitle(assessmentType, 2, exams[1].date))) in ExamBlocks(assessmentType, exams, 0)
  {
    assert exams[..1][..0] == [];
    assert Height(exams[..1]) == 7;
    TitleRow(assessmentType, exams, 0, 1);
  }

  lemma SubjectLayout(row: nat, assessmentType: string, s: SubjectExams)
    ensures Layout(SubjectCells(row, assessmentType, s), row, row + SubjectHeight(s))
  {
    var heading := [Cell(row, 0, Text(Heading(s)))];
    assert Layout(heading, row, row + 1);
    if s.exams == [] {
      assert Layout([Cell(row + 1, 0, Text(NoneFound(assessmentType)))], row + 1, row + 4);
      LayoutConcat(heading, [Cell(row + 1, 0, Text(NoneFound(assessmentType)))], row, row + 1, row + 4);
    } else {
      ExamBlocksLayout(assessmentType, s.exams, row + 1);
      LayoutConcat(heading, ExamBlocks(assessmentType, s.exams, row + 1), row, row + 1, row + SubjectHeight(s));
    }
  }

  /** The all-subjects sheet writes no cell twice, each subject inside its own band. */
  lemma {:induction false} SubjectBlocksLayout(assessmentType: string, ss: seq<SubjectExams>, start: nat)
    ensures Layout(SubjectBlocks(assessmentType, ss, start), start, start + SubjectsHeight(ss))
    decreases |ss|
  {
    if ss != [] {
      var init := ss[..|ss| - 1];
      var mid := start + SubjectsHeight(init);
      var a, b := SubjectBlocks(assessmentType, init, start), SubjectCells(mid, assessmentType, ss[|ss| - 1]);
      assert SubjectBlocks(assessmentType, ss, start) == a + b;
      assert start + SubjectsHeight(ss) == mid + SubjectHeight(ss[|ss| - 1]);
      SubjectBlocksLayout(assessmentType, init, start);
      SubjectLayout(mid, assessmentType, ss[|ss| - 1]);
      LayoutConcat(a, b, start, mid, start + SubjectsHeight(ss));
    }
  }

  lemma EmptySubjectCells(row: nat, assessmentType: string, s: SubjectExams)
    requires s.exams == []
    ensures SubjectCells(row, assessmentType, s) == [Cell(row, 0, Text(Heading(s))), Cell(row + 1, 0, Text(NoneFound(assessmentType)))]
    ensures SubjectHeight(s) == 4
  {
  }

  lemma SubjectsHeightStep(ss: seq<SubjectExams>, k: nat)
    requires k < |ss|
    ensures SubjectsHeight(ss[..k + 1]) == SubjectsHeight(ss[..k]) + SubjectHeight(ss[k])
  {
    assert ss[..k + 1][..k] == ss[..k];
  }

  /** The cells of the first k subjects are the first cells of the sheet. */
  lemma {:induction false} SubjectBlocksPrefix(assessmentType: string, ss: seq<SubjectExams>, start: nat, k: nat)
    requires k <= |ss|
    ensures SubjectBlocks(assessmentType, ss[..k], start) <= SubjectBlocks(assessmentType, ss, start)
    decreases |ss|
  {
    if k < |ss| {
      var init := ss[..|ss| - 1];
      assert init[..k] == ss[..k];
      SubjectBlocksPrefix(assessmentType, init, start, k);
    } else {
      assert ss[..k] == ss;
    }
  }

  /** A subject with no assessments: right after the cells of the subjects
      before it come its heading, on its first row, and the message on the
      next; the following subject starts four rows below the heading. */
  lemma EmptySubjectRows(assessmentType: string, ss: seq<SubjectExams>, start: nat, k: nat)
    requires k < |ss| && ss[k].exams == []
    ensures var before := SubjectBlocks(assessmentType, ss[..k], start);
      var sheet := SubjectBlocks(assessmentType, ss, start);
      var row := start + SubjectsHeight(ss[..k]);
      && |before| + 2 <= |sheet|
      && sheet[|before|] == Cell(row, 0, Text(Heading(ss[k])))
      && sheet[|before| + 1] == Cell(row + 1, 0, Text(NoneFound(assessmentType)))
    ensures SubjectsHeight(ss[..k + 1]) == SubjectsHeight(ss[..k]) + 4
  {
    SubjectsHeightStep(ss, k);
    var upto := ss[..k + 1];
    assert upto[..k] == ss[..k] && upto[k] == ss[k];
    var before := SubjectBlocks(assessmentType, ss[..k], start);
    var row := start + SubjectsHeight(ss[..k]);
    var cells := SubjectCells(row, assessmentType, ss[k]);
    EmptySubjectCells(row, assessmentType, ss[k]);
    assert SubjectBlocks(assessmentType, upto, start) == before + cells;
    SubjectBlocksPrefix(assessmentType, ss, start, k + 1);
    var sheet := SubjectBlocks(assessmentType, ss, start);
    assert sheet[|before|] == (before + cells)[|before|];
    assert sheet[|before| + 1] == (before + cells)[|before| + 1];
  }

  // -------------------------------------------------------------- the writer

  /** One more data line adds its row below the earlier ones. */
  lemma DataCellsSnoc(start: nat, rows: seq<DataRow>, i: nat)
    requires i < |rows|
    ensures DataCells(start, rows[..i + 1]) == DataCells(start, rows[..i]) + RowCells(start + i, RowValues(rows[i]))
  {
    assert rows[..i + 1][..i] == rows[..i];
  }

  /** The step of the table loop: the lines written so far plus the next one. */
  lemma DataCellsStep(before: seq<Cell>, start: nat, rows: seq<DataRow>, i: nat)
    requires i < |rows|
    ensures before + DataCells(start, rows[..i]) + RowCells(start + i, RowValues(rows[i]))
         == before + DataCells(start, rows[..i + 1])
  {
    DataCellsSnoc(start, rows, i);
    AppendAssoc(before, DataCells(start, rows[..i]), RowCells(start + i, RowValues(rows[i])));
  }

  lemma AppendAssoc(a: seq<Cell>, b: seq<Cell>, c: seq<Cell>)
    ensures a + b + c == a + (b + c)
  {
  }

  /** The `xlsxwriter` worksheet, as the list of writes made to it. */
  class Worksheet {
    var cells: seq<Cell>

    constructor ()
      ensures cells == []
    {
      cells := [];
    }

    /** `worksheet.write(row, col, value)`. */
    method Write(row: nat, col: nat, value: CellValue)
      modifies this
      ensures cells == old(cells) + [Cell(row, col, value)]
    {
      cells := cells + [Cell(row, col, value)];
    }

    /** One line of a table, one cell per column. */
    method WriteRow(row: nat, vs: seq<CellValue>)
      modifies this
      ensures cells == old(cells) + RowCells(row, vs)
    {
      for c := 0 to |vs|
        invariant cells == old(cells) + RowCells(row, vs[..c])
      {
        assert RowCells(row, vs[..c + 1]) == RowCells(row, vs[..c]) + [Cell(row, c, vs[c])];
        Write(row, c, vs[c]);
      }
      assert vs[..|vs|] == vs;
    }

    /** `df.to_excel(startrow=start, header=True, index=False)`. */
    method WriteTable(start: nat, rows: seq<DataRow>)
      modifies this
      ensures cells == old(cells) + TableCells(start, rows)
    {
      if rows == [] { return; }
      WriteRow(start, HeaderValues());
      ghost var header := cells;
      for i := 0 to |rows|
        invariant cells == header + DataCells(start + 1, rows[..i])
      {
        DataCellsStep(header, start + 1, rows, i);
        WriteRow(start + 1 + i, RowValues(rows[i]));
      }
      assert rows[..|rows|] == rows;
      AppendAssoc(old(cells), RowCells(start, HeaderValues()), DataCells(start + 1, rows));
    }
  }

  /** The loop over `marks_data` that builds `data_rows`. */
  method FormatMarks(marks: seq<MarkLine>, fallback: Option<int>) returns (rows: seq<DataRow>)
    ensures rows == FormatRows(marks, fallback)
  {
    rows := [];
    for i := 0 to |marks|
      invariant rows == FormatRows(marks[..i], fallback)
    {
      var m := marks[i];
      var total := EffectiveTotal(m.total, fallback);
      var percentage := if total > 0 then (m.obtained as real) / (total as real) * 100.0 else 0.0;
      var grade := CalculateGrade(percentage);
      rows := rows + [DataRow(m.studentName, m.rfid, m.obtained, total, percentage, grade)];
    }
    assert marks[..|marks|] == marks;
  }

  /** The body of the loop over assessments: title, table, cursor. */
  method WriteExam(sheet: Worksheet, row: nat, assessmentType: string, k: nat, e: Exam) returns (next: nat)
    modifies sheet
    ensures sheet.cells == old(sheet.cells) + BlockCells(row, assessmentType, k, e)
    ensures next == row + BlockHeight(e)
  {
    var dataRows := FormatMarks(e.marks, e.totalMarks);
    var examTitle := assessmentType + " Exam " + Text.NatToString(k);
    if e.date.Some? {
      examTitle := examTitle + " (" + e.date.value + ")";
    }
    assert examTitle == ExamTitle(assessmentType, k, e.date);
    sheet.Write(row, 0, Text(examTitle));
    var currentRow := row + 1;
    sheet.WriteTable(currentRow, dataRows);
    next := currentRow + |dataRows| + 3;
  }

  /** The loop over a subject's assessments, numbered from 1, from row `row` on. */
  method WriteExams(sheet: Worksheet, row: nat, assessmentType: string, exams: seq<Exam>) returns (next: nat)
    modifies sheet
    ensures sheet.cells == old(sheet.cells) + ExamBlocks(assessmentType, exams, row)
    ensures next == row + Height(exams)
  {
    var currentRow := row;
    ghost var start := sheet.cells;
    for i := 0 to |exams|
      invariant sheet.cells == start + ExamBlocks(assessmentType, exams[..i], row)
      invariant currentRow == row + Height(exams[..i])
    {
      ghost var done := ExamBlocks(assessmentType, exams[..i], row);
      ghost var block := BlockCells(currentRow, assessmentType, i + 1, exams[i]);
      assert exams[..i + 1][..i] == exams[..i];
      assert ExamBlocks(assessmentType, exams[..i + 1], row) == done + block;
      currentRow := WriteExam(sheet, currentRow, assessmentType, i + 1, exams[i]);
      AppendAssoc(start, done, block);
    }
    assert exams[..|exams|] == exams;
    next := currentRow;
  }

  /** generate_assessment_excel over the fetched assessments, in created_at order. */
  method GenerateAssessmentExcel(assessmentType: string, exams: seq<Exam>) returns (sheet: Option<seq<Cell>>)
    ensures sheet == AssessmentSheet(assessmentType, exams)
  {
    if |exams| == 0 { return None; }
    var worksheet := new Worksheet();
    var currentRow := WriteExams(worksheet, 0, assessmentType, exams);
    assert [] + ExamBlocks(assessmentType, exams, 0) == ExamBlocks(assessmentType, exams, 0);
    sheet := Some(worksheet.cells);
  }

  /** The body of the loop over subjects: heading, then the message or the blocks. */
  method WriteSubject(sheet: Worksheet, row: nat, assessmentType: string, s: SubjectExams) returns (next: nat)
    modifies sheet
    ensures sheet.cells == old(sheet.cells) + SubjectCells(row, assessmentType, s)
    ensures next == row + SubjectHeight(s)
  {
    ghost var before := sheet.cells;
    ghost var heading := [Cell(row, 0, Text(Heading(s)))];
    sheet.Write(row, 0, Text(Heading(s)));
    var currentRow := row + 1;
    if |s.exams| == 0 {
      sheet.Write(currentRow, 0, Text(NoneFound(assessmentType)));
      AppendAssoc(before, heading, [Cell(currentRow, 0, Text(NoneFound(assessmentType)))]);
      next := currentRow + 3;
    } else {
      next := WriteExams(sheet, currentRow, assessmentType, s.exams);
      AppendAssoc(before, heading, ExamBlocks(assessmentType, s.exams, currentRow));
    }
  }

  /** generate_all_subjects_assessments_excel over the fetched subjects. */
  method GenerateAllSubjectsExcel(assessmentType: string, subjects: seq<SubjectExams>) returns (sheet: Option<seq<Cell>>)
    ensures sheet == AllSubjectsSheet(assessmentType, subjects)
  {
    if |subjects| == 0 { return None; }
    var worksheet := new Worksheet();
    var currentRow: nat := 0;
    for i := 0 to |subjects|
      invariant fresh(worksheet)
      invariant worksheet.cells == SubjectBlocks(assessmentType, subjects[..i], 0)
      invariant currentRow == SubjectsHeight(subjects[..i])
    {
      assert subjects[..i + 1][..i] == subjects[..i];
      currentRow := WriteSubject(worksheet, currentRow, assessmentType, subjects[i]);
    }
    assert subjects[..|subjects|] == subjects;
    sheet := Some(worksheet.cells);
  }
}
