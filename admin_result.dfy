// The admin result handlers of src/admin/Result.py: a student's marks grouped
// by the month and year of their assessment, and the campus student list.

module AdminResult {
  import opened Wrappers

  // ------------------------------------------------------- grouping by month

  /** A fetched row once `month_year` has been popped off it. */
  datatype Keyed<V> = Keyed(key: string, rest: V)

  /** The `assessments_by_month` dict: its keys in insertion order and its lists. */
  datatype Grouped<V> = Grouped(keys: seq<string>, groups: map<string, seq<V>>)

  /** The month keys in order of first occurrence. */
  function Months<V>(rows: seq<Keyed<V>>): (ks: seq<string>)
    decreases |rows|
  {
    if rows == [] then []
    else
      var ks := Months(rows[..|rows| - 1]);
      if rows[|rows| - 1].key in ks then ks else ks + [rows[|rows| - 1].key]
  }

  /** The rows of one month, in fetch order. */
  function Select<V>(rows: seq<Keyed<V>>, k: string): seq<V>
    decreases |rows|
  {
    if rows == [] then []
    else Select(rows[..|rows| - 1], k) + (if rows[|rows| - 1].key == k then [rows[|rows| - 1].rest] else [])
  }

  /** The dict the two loops build. */
  function GroupedOf<V>(rows: seq<Keyed<V>>): Grouped<V>
  {
    Grouped(Months(rows), map k | k in Months(rows) :: Select(rows, k))
  }

  predicate HasMonth<V>(rows: seq<Keyed<V>>, k: string)
  {
    exists i :: 0 <= i < |rows| && rows[i].key == k
  }

  /** The index of the first row of month `k`. */
  function FirstRow<V>(rows: seq<Keyed<V>>, k: string): (i: nat)
    requires HasMonth(rows, k)
    ensures i < |rows| && rows[i].key == k
    ensures forall j :: 0 <= j < i ==> rows[j].key != k
    decreases |rows|
  {
    if rows[0].key == k then 0
    else
      assert HasMonth(rows[1..], k) by {
        var i :| 0 <= i < |rows| && rows[i].key == k;
        assert rows[1..][i - 1] == rows[i];
      }
      1 + FirstRow(rows[1..], k)
  }

  /** The dict has a key exactly for each month that occurs, each once. */
  lemma {:induction false} MonthsAreTheKeys<V>(rows: seq<Keyed<V>>)
    ensures forall k :: k in Months(rows) <==> HasMonth(rows, k)
    ensures forall i, j :: 0 <= i < j < |Months(rows)| ==> Months(rows)[i] != Months(rows)[j]
    decreases |rows|
  {
    if rows != [] {
      var init := rows[..|rows| - 1];
      MonthsAreTheKeys(init);
      forall k ensures HasMonth(rows, k) <==> HasMonth(init, k) || rows[|rows| - 1].key == k {
        if HasMonth(init, k) {
          var i :| 0 <= i < |init| && init[i].key == k;
          assert rows[i] == init[i];
        }
        if HasMonth(rows, k) && rows[|rows| - 1].key != k {
          var i :| 0 <= i < |rows| && rows[i].key == k;
          assert init[i] == rows[i];
        }
      }
    }
  }

  /** The keys appear in the order of their months' first rows. */
  lemma {:induction false} MonthsInFirstOccurrenceOrder<V>(rows: seq<Keyed<V>>)
    ensures forall k :: k in Months(rows) ==> HasMonth(rows, k)
    ensures forall i, j :: 0 <= i < j < |Months(rows)| ==>
      FirstRow(rows, Months(rows)[i]) < FirstRow(rows, Months(rows)[j])
    decreases |rows|
  {
    MonthsAreTheKeys(rows);
    if rows != [] {
      var init := rows[..|rows| - 1];
      var last := rows[|rows| - 1];
      MonthsInFirstOccurrenceOrder(init);
      MonthsAreTheKeys(init);
      assert init + [last] == rows;
      var ks, ks' := Months(init), Months(rows);
      forall k | k in ks ensures FirstRow(rows, k) == FirstRow(init, k) {
        FirstRowOfPrefix(init, last, k);
      }
      if last.key !in ks {
        FirstRowOfNew(init, last);
      }
      forall i, j | 0 <= i < j < |ks'| ensures FirstRow(rows, ks'[i]) < FirstRow(rows, ks'[j]) {
        if j < |ks| {
          assert ks'[i] == ks[i] && ks'[j] == ks[j];
        } else {
          assert ks'[i] == ks[i];
        }
      }
    }
  }

  /** A month first seen in the last row has that row as its first. */
  lemma FirstRowOfNew<V>(init: seq<Keyed<V>>, last: Keyed<V>)
    requires !HasMonth(init, last.key)
    ensures HasMonth(init + [last], last.key) && FirstRow(init + [last], last.key) == |init|
  {
    var rows := init + [last];
    assert rows[|init|] == last;
  }

  lemma FirstRowOfPrefix<V>(init: seq<Keyed<V>>, last: Keyed<V>, k: string)
    requires HasMonth(init, k)
    ensures HasMonth(init + [last], k) && FirstRow(init + [last], k) == FirstRow(init, k)
  {
    var rows := init + [last];
    var f := FirstRow(init, k);
    assert rows[f] == init[f];
  }

  /** Every row is in the group of its own month, and a month no row has gets
      an empty group. */
  lemma {:induction false} SelectIsFilter<V>(rows: seq<Keyed<V>>, k: string)
    ensures |Select(rows, k)| <= |rows|
    ensures forall i :: 0 <= i < |rows| && rows[i].key == k ==> rows[i].rest in Select(rows, k)
    ensures !HasMonth(rows, k) ==> Select(rows, k) == []
    decreases |rows|
  {
    if rows != [] {
      var init := rows[..|rows| - 1];
      SelectIsFilter(init, k);
      forall i | 0 <= i < |rows| && rows[i].key == k ensures rows[i].rest in Select(rows, k) {
        if i < |init| { assert init[i] == rows[i]; }
      }
      if !HasMonth(rows, k) {
        assert !HasMonth(init, k);
      }
    }
  }

  /** Σ over `ks` of the sizes of their groups. */
  function GroupSizes<V>(rows: seq<Keyed<V>>, ks: seq<string>): nat
    decreases |ks|
  {
    if ks == [] then 0 else GroupSizes(rows, ks[..|ks| - 1]) + |Select(rows, ks[|ks| - 1])|
  }

  function Occurrences(ks: seq<string>, k: string): nat
    decreases |ks|
  {
    if ks == [] then 0 else Occurrences(ks[..|ks| - 1], k) + (if ks[|ks| - 1] == k then 1 else 0)
  }

  lemma {:induction false} GroupSizesAppendRow<V>(rows: seq<Keyed<V>>, r: Keyed<V>, ks: seq<string>)
    ensures GroupSizes(rows + [r], ks) == GroupSizes(rows, ks) + Occurrences(ks, r.key)
    decreases |ks|
  {
    if ks != [] {
      GroupSizesAppendRow(rows, r, ks[..|ks| - 1]);
      assert (rows + [r])[..|rows + [r]| - 1] == rows;
    }
  }

  lemma {:induction false} OccurrencesDistinct(ks: seq<string>, k: string)
    requires forall i, j :: 0 <= i < j < |ks| ==> ks[i] != ks[j]
    ensures Occurrences(ks, k) == if k in ks then 1 else 0
    decreases |ks|
  {
    if ks != [] {
      var init := ks[..|ks| - 1];
      OccurrencesDistinct(init, k);
      if ks[|ks| - 1] == k {
        assert k !in init;
      }
    }
  }

  /** No row is lost or counted twice: the group sizes add up to the row count. */
  lemma {:induction false} GroupSizesSum<V>(rows: seq<Keyed<V>>)
    ensures GroupSizes(rows, Months(rows)) == |rows|
    decreases |rows|
  {
    if rows != [] {
      var init := rows[..|rows| - 1];
      var last := rows[|rows| - 1];
      assert init + [last] == rows;
      GroupSizesSum(init);
      MonthsAreTheKeys(init);
      var ks := Months(init);
      GroupSizesAppendRow(init, last, ks);
      OccurrencesDistinct(ks, last.key);
      if last.key !in ks {
        SelectIsFilter(init, last.key);
        assert Select(rows, last.key) == [last.rest];
        assert (ks + [last.key])[..|ks|] == ks;
      }
    }
  }

  /** The grouping loop: insert a month's list on its first row, then append. */
  method GroupByMonth<V>(rows: seq<Keyed<V>>) returns (g: Grouped<V>)
    ensures g == GroupedOf(rows)
  {
    var byMonth: map<string, seq<V>> := map[];
    var order: seq<string> := [];
    for i := 0 to |rows|
      invariant order == Months(rows[..i])
      invariant forall k :: k in byMonth <==> k in order
      invariant forall k :: k in byMonth ==> byMonth[k] == Select(rows[..i], k)
    {
      var monthYear := rows[i].key;
      assert rows[..i + 1][..i] == rows[..i];
      if monthYear !in byMonth {
        byMonth := byMonth[monthYear := []];
        order := order + [monthYear];
        SelectIsFilter(rows[..i], monthYear);
        MonthsAreTheKeys(rows[..i]);
      }
      byMonth := byMonth[monthYear := byMonth[monthYear] + [rows[i].rest]];
    }
    assert rows[..|rows|] == rows;
    g := Grouped(order, byMonth);
  }

  // ------------------------------------------------------------ the handlers

  /** A row of the Monthly query; the marks may be NULL, quiz columns too for a Monthly without quizzes. */
  datatype MonthlyRow = MonthlyRow(subjectName: string, quizNumber: Option<int>, quizMarks: Option<int>,
                                   assessmentTotal: Option<int>, assessmentMarks: Option<int>, monthYear: string)

  /** A Monthly row without its month. */
  datatype MonthlyEntry = MonthlyEntry(subjectName: string, quizNumber: Option<int>, quizMarks: Option<int>,
                                       assessmentTotal: Option<int>, assessmentMarks: Option<int>)

  /** A row of the query for another assessment type. */
  datatype OtherRow = OtherRow(subjectName: string, assessmentTotal: Option<int>, assessmentMarks: Option<int>,
                               sequence: Option<int>, monthYear: string)

  datatype OtherEntry = OtherEntry(subjectName: string, assessmentTotal: Option<int>, assessmentMarks: Option<int>,
                                   sequence: Option<int>)

  /** A NULL mark reads as 0; any other value is kept. */
  function ZeroIfNull(x: Option<int>): (y: Option<int>)
    ensures x.None? ==> y == Some(0)
    ensures x.Some? ==> y == x
  {
    if x.None? then Some(0) else x
  }

  function PopMonthly(r: MonthlyRow): Keyed<MonthlyEntry>
  {
    Keyed(r.monthYear, MonthlyEntry(r.subjectName, r.quizNumber, r.quizMarks, r.assessmentTotal, r.assessmentMarks))
  }

  function PopOther(r: OtherRow): Keyed<OtherEntry>
  {
    Keyed(r.monthYear, OtherEntry(r.subjectName, r.assessmentTotal, r.assessmentMarks, r.sequence))
  }

  /** get_assessment_monthly over the fetched rows. */
  function MonthlyReply(studentId: Option<string>, fetched: seq<MonthlyRow>): Reply<Grouped<MonthlyEntry>>
  {
    if Blank(studentId) then Fail(400, "Missing student_id")
    else Ok(200, GroupedOf(seq(|fetched|, i requires 0 <= i < |fetched| =>
                               PopMonthly(fetched[i].(quizMarks := ZeroIfNull(fetched[i].quizMarks))))))
  }

  /** get_assessment_else over the fetched rows. */
  function OtherReply(studentId: Option<string>, assessmentType: Option<string>, fetched: seq<OtherRow>)
    : Reply<Grouped<OtherEntry>>
  {
    if Blank(studentId) || Blank(assessmentType) then Fail(400, "Missing student_id or type")
    else Ok(200, GroupedOf(seq(|fetched|, i requires 0 <= i < |fetched| =>
                               PopOther(fetched[i].(assessmentMarks := ZeroIfNull(fetched[i].assessmentMarks))))))
  }

  /** The first loop of get_assessment_monthly, on the row dicts in place. */
  method ZeroNullQuizMarks(data: array<MonthlyRow>)
    modifies data
    ensures forall i :: 0 <= i < data.Length ==> data[i] == old(data[i]).(quizMarks := ZeroIfNull(old(data[i]).quizMarks))
  {
    for i := 0 to data.Length
      invariant forall j :: 0 <= j < i ==> data[j] == old(data[j]).(quizMarks := ZeroIfNull(old(data[j]).quizMarks))
      invariant forall j :: i <= j < data.Length ==> data[j] == old(data[j])
    {
      data[i] := data[i].(quizMarks := if data[i].quizMarks.None? then Some(0) else data[i].quizMarks);
    }
  }

  /** The first loop of get_assessment_else. */
  method ZeroNullAssessmentMarks(data: array<OtherRow>)
    modifies data
    ensures forall i :: 0 <= i < data.Length ==>
      data[i] == old(data[i]).(assessmentMarks := ZeroIfNull(old(data[i]).assessmentMarks))
  {
    for i := 0 to data.Length
      invariant forall j :: 0 <= j < i ==> data[j] == old(data[j]).(assessmentMarks := ZeroIfNull(old(data[j]).assessmentMarks))
      invariant forall j :: i <= j < data.Length ==> data[j] == old(data[j])
    {
      data[i] := data[i].(assessmentMarks := if data[i].assessmentMarks.None? then Some(0) else data[i].assessmentMarks);
    }
  }

  /** GET /get_assessment_monthly: the Monthly rows of one student, NULL quiz
      marks as 0, grouped by month. */
  method GetAssessmentMonthly(studentId: Option<string>, fetched: seq<MonthlyRow>)
    returns (reply: Reply<Grouped<MonthlyEntry>>)
    ensures reply == MonthlyReply(studentId, fetched)
  {
    if Blank(studentId) { return Fail(400, "Missing student_id"); }
    var data := new MonthlyRow[|fetched|](i requires 0 <= i < |fetched| => fetched[i]);
    ZeroNullQuizMarks(data);
    var popped := seq(data.Length, i requires 0 <= i < data.Length reads data => PopMonthly(data[i]));
    var grouped := GroupByMonth(popped);
    assert popped == seq(|fetched|, i requires 0 <= i < |fetched| =>
                         PopMonthly(fetched[i].(quizMarks := ZeroIfNull(fetched[i].quizMarks))));
    reply := Ok(200, grouped);
  }

  /** GET /get_assessment_else: one student's rows of one type, NULL marks as 0, grouped by month. */
  method GetAssessmentElse(studentId: Option<string>, assessmentType: Option<string>, fetched: seq<OtherRow>)
    returns (reply: Reply<Grouped<OtherEntry>>)
    ensures reply == OtherReply(studentId, assessmentType, fetched)
  {
    if Blank(studentId) || Blank(assessmentType) { return Fail(400, "Missing student_id or type"); }
    var data := new OtherRow[|fetched|](i requires 0 <= i < |fetched| => fetched[i]);
    ZeroNullAssessmentMarks(data);
    var popped := seq(data.Length, i requires 0 <= i < data.Length reads data => PopOther(data[i]));
    var grouped := GroupByMonth(popped);
    assert popped == seq(|fetched|, i requires 0 <= i < |fetched| =>
                         PopOther(fetched[i].(assessmentMarks := ZeroIfNull(fetched[i].assessmentMarks))));
    reply := Ok(200, grouped);
  }

  /** Every student's Monthly row is in the group of its month, with its quiz
      mark read as 0 when NULL, and the groups hold exactly the rows fetched. */
  lemma MonthlyReplyGroups(studentId: Option<string>, fetched: seq<MonthlyRow>, i: nat)
    requires !Blank(studentId) && i < |fetched|
    ensures var g := MonthlyReply(studentId, fetched).body;
      var r := fetched[i];
      && r.monthYear in g.groups
      && MonthlyEntry(r.subjectName, r.quizNumber, ZeroIfNull(r.quizMarks), r.assessmentTotal, r.assessmentMarks)
           in g.groups[r.monthYear]
  {
    var rows := seq(|fetched|, i requires 0 <= i < |fetched| =>
                    PopMonthly(fetched[i].(quizMarks := ZeroIfNull(fetched[i].quizMarks))));
    MonthsAreTheKeys(rows);
    SelectIsFilter(rows, fetched[i].monthYear);
    assert rows[i].key == fetched[i].monthYear;
  }

  // ----------------------------------------------------------- get_students

  datatype StudentRow = StudentRow(rfid: string, studentName: string, phoneNumber: string, year: int)

  datatype Student = Student(studentId: string, name: string, phone: string, year: int)

  /** GET /get_students: a renamed record per fetched row, in order; 404 when there is none. */
  function GetStudents(campusId: Option<string>, fetched: seq<StudentRow>): (reply: Reply<seq<Student>>)
    ensures Blank(campusId) <==> reply == Fail(400, "Missing campus_id parameter")
    ensures !Blank(campusId) && fetched == [] <==> reply == Fail(404, "No students found for the given campus")
    ensures reply.Ok? ==> reply.status == 200 && |reply.body| == |fetched|
    ensures reply.Ok? ==> forall i :: 0 <= i < |fetched| ==>
      && reply.body[i].studentId == fetched[i].rfid && reply.body[i].name == fetched[i].studentName
      && reply.body[i].phone == fetched[i].phoneNumber && reply.body[i].year == fetched[i].year
  {
    if Blank(campusId) then Fail(400, "Missing campus_id parameter")
    else if fetched == [] then Fail(404, "No students found for the given campus")
    else Ok(200, seq(|fetched|, i requires 0 <= i < |fetched| =>
                     Student(fetched[i].rfid, fetched[i].studentName, fetched[i].phoneNumber, fetched[i].year)))
  }
}
