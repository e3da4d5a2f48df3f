// The per-subject attendance handlers of src/Teacher/Subject/Attendance.py:
// reading the marks of one (subject, date) and replacing them.

module Attendance {
  import opened Wrappers

  /** A row of `Subject_Attendance`; the date and time are kept as the text the
      client sent. */
  datatype AttendanceRow = AttendanceRow(subjectId: int, rfid: string, date: string, time: string, status: string)

  /** One line of the GET reply. */
  datatype StatusLine = StatusLine(rfid: string, status: string)

  predicate InSlice(r: AttendanceRow, subjectId: int, date: string)
  {
    r.subjectId == subjectId && r.date == date
  }

  /** `WHERE subject_id = %s AND date = %s`, in table order. */
  function Slice(rows: seq<AttendanceRow>, subjectId: int, date: string): (r: seq<AttendanceRow>)
    ensures |r| <= |rows|
    ensures forall i :: 0 <= i < |r| ==> r[i] in rows && InSlice(r[i], subjectId, date)
    ensures forall i :: 0 <= i < |rows| && InSlice(rows[i], subjectId, date) ==> rows[i] in r
  {
    if rows == [] then []
    else (if InSlice(rows[0], subjectId, date) then [rows[0]] else []) + Slice(rows[1..], subjectId, date)
  }

  /** The DELETE: every row outside the slice, in table order. */
  function Without(rows: seq<AttendanceRow>, subjectId: int, date: string): (r: seq<AttendanceRow>)
    ensures |r| <= |rows|
    ensures forall i :: 0 <= i < |r| ==> r[i] in rows && !InSlice(r[i], subjectId, date)
    ensures forall i :: 0 <= i < |rows| && !InSlice(rows[i], subjectId, date) ==> rows[i] in r
  {
    if rows == [] then []
    else (if InSlice(rows[0], subjectId, date) then [] else [rows[0]]) + Without(rows[1..], subjectId, date)
  }

  lemma {:induction false} SliceConcat(a: seq<AttendanceRow>, b: seq<AttendanceRow>, subjectId: int, date: string)
    ensures Slice(a + b, subjectId, date) == Slice(a, subjectId, date) + Slice(b, subjectId, date)
    decreases |a|
  {
    if a != [] {
      assert (a + b)[1..] == a[1..] + b;
      SliceConcat(a[1..], b, subjectId, date);
    } else {
      assert a + b == b;
    }
  }

  lemma {:induction false} WithoutConcat(a: seq<AttendanceRow>, b: seq<AttendanceRow>, subjectId: int, date: string)
    ensures Without(a + b, subjectId, date) == Without(a, subjectId, date) + Without(b, subjectId, date)
    decreases |a|
  {
    if a != [] {
      assert (a + b)[1..] == a[1..] + b;
      WithoutConcat(a[1..], b, subjectId, date);
    } else {
      assert a + b == b;
    }
  }

  /** Deleting a slice leaves every other slice as it was. */
  lemma {:induction false} SliceOfWithout(rows: seq<AttendanceRow>, subjectId: int, date: string, s: int, d: string)
    ensures Slice(Without(rows, subjectId, date), s, d)
            == if s == subjectId && d == date then [] else Slice(rows, s, d)
    decreases |rows|
  {
    if rows != [] {
      SliceOfWithout(rows[1..], subjectId, date, s, d);
      SliceConcat(if InSlice(rows[0], subjectId, date) then [] else [rows[0]],
                  Without(rows[1..], subjectId, date), s, d);
    }
  }

  // ------------------------------------------------------------------- GET

  /** GET /api/subject/<subject_id>/attendance?date=...: 400 without a date,
      otherwise the rfid and status of exactly the rows of that subject and date. */
  function GetSubjectAttendance(rows: seq<AttendanceRow>, subjectId: int, date: Option<string>)
    : (reply: Reply<seq<StatusLine>>)
    ensures Blank(date) <==> reply == Fail(400, "Date parameter is required")
    ensures reply.Ok? ==> reply.status == 200 && |reply.body| == |Slice(rows, subjectId, date.value)|
    ensures reply.Ok? ==> forall i :: 0 <= i < |reply.body| ==>
      var r := Slice(rows, subjectId, date.value)[i];
      reply.body[i] == StatusLine(r.rfid, r.status) && r in rows && r.subjectId == subjectId && r.date == date.value
  {
    if Blank(date) then Fail(400, "Date parameter is required")
    else
      var slice := Slice(rows, subjectId, date.value);
      Ok(200, seq(|slice|, i requires 0 <= i < |slice| => StatusLine(slice[i].rfid, slice[i].status)))
  }

  // ------------------------------------------------------------------ save

  /** One entry of `records`; a key the client left out is None. */
  datatype Record = Record(rfid: Option<string>, time: Option<string>, status: Option<string>)

  /** The JSON body: absent altogether, or with `date` and `records` each present or not. */
  datatype SaveRequest = NoBody | SaveRequest(date: Option<string>, records: Option<seq<Record>>)

  /** The key whose lookup raises KeyError first, in the order the INSERT's
      arguments are built: rfid, time, attendance_status. */
  function MissingKey(rec: Record): (k: Option<string>)
    ensures k.None? <==> rec.rfid.Some? && rec.time.Some? && rec.status.Some?
  {
    if rec.rfid.None? then Some("rfid")
    else if rec.time.None? then Some("time")
    else if rec.status.None? then Some("attendance_status")
    else None
  }

  function RowOf(subjectId: int, date: string, rec: Record): AttendanceRow
    requires MissingKey(rec).None?
  {
    AttendanceRow(subjectId, rec.rfid.value, date, rec.time.value, rec.status.value)
  }

  /** The index of the first record the loop fails on, or |records| when none fails. */
  function FirstIncomplete(records: seq<Record>): (k: nat)
    ensures k <= |records|
    ensures forall i :: 0 <= i < k ==> MissingKey(records[i]).None?
    ensures k < |records| ==> MissingKey(records[k]).Some?
  {
    if records == [] then 0
    else if MissingKey(records[0]).Some? then 0
    else 1 + FirstIncomplete(records[1..])
  }

  /** The rows inserted for `records`, which must all be complete. */
  function Inserted(subjectId: int, date: string, records: seq<Record>): (r: seq<AttendanceRow>)
    requires forall i :: 0 <= i < |records| ==> MissingKey(records[i]).None?
    ensures |r| == |records|
    ensures forall i :: 0 <= i < |records| ==> r[i] == RowOf(subjectId, date, records[i])
  {
    if records == [] then []
    else [RowOf(subjectId, date, records[0])] + Inserted(subjectId, date, records[1..])
  }

  /** save_subject_attendance on the table it writes: the slice is deleted, then
      the records are inserted in order; a record missing a key raises after the
      delete and the earlier inserts, and nothing is rolled back. */
  function Save(rows: seq<AttendanceRow>, subjectId: int, req: SaveRequest): (Reply<bool>, seq<AttendanceRow>)
  {
    if req.NoBody? || req.date.None? || req.records.None? then (Fail(400, "Invalid request data"), rows)
    else
      var date, records := req.date.value, req.records.value;
      var k := FirstIncomplete(records);
      var written := Without(rows, subjectId, date) + Inserted(subjectId, date, records[..k]);
      if k < |records| then (Fail(500, "'" + MissingKey(records[k]).value + "'"), written)
      else (Ok(200, true), written)
  }

  /** A body without `date` or `records` is refused with 400 and nothing is written. */
  lemma SaveRejectsIncompleteBody(rows: seq<AttendanceRow>, subjectId: int, req: SaveRequest)
    requires req.NoBody? || req.date.None? || req.records.None?
    ensures Save(rows, subjectId, req) == (Fail(400, "Invalid request data"), rows)
  {
  }

  /** After a successful save the slice of (subject, date) is one row per record,
      with its rfid, time and status, in record order. */
  lemma SaveSlice(rows: seq<AttendanceRow>, subjectId: int, req: SaveRequest)
    requires Save(rows, subjectId, req).0.Ok?
    ensures var rows' := Save(rows, subjectId, req).1;
      var records := req.records.value;
      && (forall i :: 0 <= i < |records| ==> MissingKey(records[i]).None?)
      && |Slice(rows', subjectId, req.date.value)| == |records|
      && forall i :: 0 <= i < |records| ==>
           Slice(rows', subjectId, req.date.value)[i]
             == AttendanceRow(subjectId, records[i].rfid.value, req.date.value, records[i].time.value, records[i].status.value)
  {
    var date, records := req.date.value, req.records.value;
    assert records[..|records|] == records;
    var ins := Inserted(subjectId, date, records);
    SliceConcat(Without(rows, subjectId, date), ins, subjectId, date);
    SliceOfWithout(rows, subjectId, date, subjectId, date);
    InsertedInSlice(subjectId, date, records);
  }

  lemma {:induction false} InsertedInSlice(subjectId: int, date: string, records: seq<Record>)
    requires forall i :: 0 <= i < |records| ==> MissingKey(records[i]).None?
    ensures Slice(Inserted(subjectId, date, records), subjectId, date) == Inserted(subjectId, date, records)
    ensures forall s, d :: !(s == subjectId && d == date) ==> Slice(Inserted(subjectId, date, records), s, d) == []
    decreases |records|
  {
    if records != [] {
      InsertedInSlice(subjectId, date, records[1..]);
    }
  }

  /** Whatever the outcome, a save leaves the rows of every other subject or date as they were. */
  lemma SaveKeepsOtherSlices(rows: seq<AttendanceRow>, subjectId: int, req: SaveRequest, s: int, d: string)
    requires req.SaveRequest? && req.date.Some? ==> !(s == subjectId && d == req.date.value)
    ensures Slice(Save(rows, subjectId, req).1, s, d) == Slice(rows, s, d)
  {
    if !(req.NoBody? || req.date.None? || req.records.None?) {
      var date, records := req.date.value, req.records.value;
      var k := FirstIncomplete(records);
      var ins := Inserted(subjectId, date, records[..k]);
      SliceConcat(Without(rows, subjectId, date), ins, s, d);
      SliceOfWithout(rows, subjectId, date, s, d);
      InsertedInSlice(subjectId, date, records[..k]);
    }
  }

  /** A record missing a key gives 500, with the slice already deleted and the
      records before it already inserted. */
  lemma SaveFailsPartway(rows: seq<AttendanceRow>, subjectId: int, req: SaveRequest, k: nat)
    requires req.SaveRequest? && req.date.Some? && req.records.Some?
    requires k < |req.records.value| && MissingKey(req.records.value[k]).Some?
    requires forall i :: 0 <= i < k ==> MissingKey(req.records.value[i]).None?
    ensures var (reply, rows') := Save(rows, subjectId, req);
      && reply.Fail? && reply.status == 500
      && rows' == Without(rows, subjectId, req.date.value) + Inserted(subjectId, req.date.value, req.records.value[..k])
  {
  }

  /** Saving the same payload twice leaves the table as saving it once. */
  lemma SaveIdempotent(rows: seq<AttendanceRow>, subjectId: int, req: SaveRequest)
    ensures Save(Save(rows, subjectId, req).1, subjectId, req).1 == Save(rows, subjectId, req).1
  {
    if !(req.NoBody? || req.date.None? || req.records.None?) {
      var date, records := req.date.value, req.records.value;
      var k := FirstIncomplete(records);
      var kept := Without(rows, subjectId, date);
      var ins := Inserted(subjectId, date, records[..k]);
      WithoutConcat(kept, ins, subjectId, date);
      WithoutIdempotent(rows, subjectId, date);
      WithoutInserted(subjectId, date, records[..k]);
      assert Without(kept + ins, subjectId, date) == kept;
    }
  }

  lemma {:induction false} WithoutIdempotent(rows: seq<AttendanceRow>, subjectId: int, date: string)
    ensures Without(Without(rows, subjectId, date), subjectId, date) == Without(rows, subjectId, date)
    decreases |rows|
  {
    if rows != [] {
      WithoutIdempotent(rows[1..], subjectId, date);
      WithoutConcat(if InSlice(rows[0], subjectId, date) then [] else [rows[0]],
                    Without(rows[1..], subjectId, date), subjectId, date);
    }
  }

  lemma {:induction false} WithoutInserted(subjectId: int, date: string, records: seq<Record>)
    requires forall i :: 0 <= i < |records| ==> MissingKey(records[i]).None?
    ensures Without(Inserted(subjectId, date, records), subjectId, date) == []
    decreases |records|
  {
    if records != [] {
      WithoutInserted(subjectId, date, records[1..]);
    }
  }

  /** The `Subject_Attendance` table. */
  class AttendanceTable {
    var rows: seq<AttendanceRow>

    constructor (rows: seq<AttendanceRow>)
      ensures this.rows == rows
    {
      this.rows := rows;
    }

    /** POST /api/subject/<subject_id>/attendance: one DELETE, then one INSERT per record. */
    method SaveSubjectAttendance(subjectId: int, req: SaveRequest) returns (reply: Reply<bool>)
      modifies this
      ensures (reply, rows) == Save(old(rows), subjectId, req)
    {
      if req.NoBody? || req.date.None? || req.records.None? {
        return Fail(400, "Invalid request data");
      }
      var date, records := req.date.value, req.records.value;
      rows := Without(rows, subjectId, date);
      ghost var kept := rows;
      var k := FirstIncomplete(records);
      for i := 0 to |records|
        invariant i <= k
        invariant rows == kept + Inserted(subjectId, date, records[..i])
      {
        var missing := MissingKey(records[i]);
        if missing.Some? {
          return Fail(500, "'" + missing.value + "'");
        }
        assert records[..i + 1] == records[..i] + [records[i]];
        InsertedSnoc(subjectId, date, records[..i], records[i]);
        rows := rows + [RowOf(subjectId, date, records[i])];
      }
      assert records[..|records|] == records;
      reply := Ok(200, true);
    }
  }

  lemma InsertedSnoc(subjectId: int, date: string, records: seq<Record>, rec: Record)
    requires forall i :: 0 <= i < |records| ==> MissingKey(records[i]).None?
    requires MissingKey(rec).None?
    ensures Inserted(subjectId, date, records + [rec]) == Inserted(subjectId, date, records) + [RowOf(subjectId, date, rec)]
  {
  }
}
