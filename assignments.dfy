// The assignment handlers of src/Teacher/Subject/Assignments.py: a subject's
// assignments with their attachments, and grading one submission.

module Assignments {
  import opened Wrappers

  // -------------------------------------------------- assignments with files

  /** A row of the assignments query. The dates are already in ISO form. */
  datatype Assignment = Assignment(id: int, title: string, description: string, dueDate: Option<string>,
                                   postedDate: Option<string>, status: string, totalPoints: int,
                                   submitted: nat, total: nat)

  /** A row of `Assignment_Attachments`. */
  datatype AttachmentRow = AttachmentRow(assignmentId: int, fileName: string, filePath: string)

  datatype Attachment = Attachment(fileName: string, filePath: string)

  /** An assignment as returned, with its files. */
  datatype AssignmentView = AssignmentView(assignment: Assignment, attachments: seq<Attachment>)

  /** The files of one assignment, in fetch order. */
  function AttachmentsOf(rows: seq<AttachmentRow>, id: int): seq<Attachment>
    decreases |rows|
  {
    if rows == [] then []
    else
      var last := rows[|rows| - 1];
      AttachmentsOf(rows[..|rows| - 1], id) + (if last.assignmentId == id then [Attachment(last.fileName, last.filePath)] else [])
  }

  predicate Listed(assignments: seq<Assignment>, id: int)
  {
    exists i :: 0 <= i < |assignments| && assignments[i].id == id
  }

  /** The attachment query: `assignment_id IN (ids)`, or the query that returns
      nothing when the subject has no assignments. */
  function FetchAttachments(table: seq<AttachmentRow>, assignments: seq<Assignment>): seq<AttachmentRow>
    decreases |table|
  {
    if assignments == [] || table == [] then []
    else
      var last := table[|table| - 1];
      FetchAttachments(table[..|table| - 1], assignments) + (if Listed(assignments, last.assignmentId) then [last] else [])
  }

  /** The IN filter keeps every file of a listed assignment, in order. */
  lemma {:induction false} FetchKeepsListedFiles(table: seq<AttachmentRow>, assignments: seq<Assignment>, id: int)
    requires Listed(assignments, id)
    ensures AttachmentsOf(FetchAttachments(table, assignments), id) == AttachmentsOf(table, id)
    decreases |table|
  {
    if table != [] {
      var init := table[..|table| - 1];
      var last := table[|table| - 1];
      FetchKeepsListedFiles(init, assignments, id);
      var fetched := FetchAttachments(init, assignments);
      if Listed(assignments, last.assignmentId) {
        assert (fetched + [last])[..|fetched|] == fetched;
      } else {
        assert FetchAttachments(table, assignments) == fetched + [] == fetched;
      }
    }
  }

  /** The `attachment_map` loop: `setdefault(id, []).append(file)` per fetched row. */
  method BuildAttachmentMap(raw: seq<AttachmentRow>) returns (m: map<int, seq<Attachment>>)
    ensures forall id :: id in m ==> m[id] == AttachmentsOf(raw, id)
    ensures forall id :: id !in m ==> AttachmentsOf(raw, id) == []
  {
    m := map[];
    for i := 0 to |raw|
      invariant forall id :: id in m ==> m[id] == AttachmentsOf(raw[..i], id)
      invariant forall id :: id !in m ==> AttachmentsOf(raw[..i], id) == []
    {
      var att := raw[i];
      assert raw[..i + 1][..i] == raw[..i];
      var files := if att.assignmentId in m then m[att.assignmentId] else [];
      m := m[att.assignmentId := files + [Attachment(att.fileName, att.filePath)]];
    }
    assert raw[..|raw|] == raw;
  }

  /** GET /api/subjects/<id>/assignments over the fetched assignments and the
      attachment table: each assignment with exactly its files, in fetch order. */
  method GetSubjectAssignments(assignments: seq<Assignment>, table: seq<AttachmentRow>)
    returns (views: seq<AssignmentView>)
    ensures |views| == |assignments|
    ensures forall i :: 0 <= i < |assignments| ==>
      views[i] == AssignmentView(assignments[i], AttachmentsOf(table, assignments[i].id))
  {
    var raw := FetchAttachments(table, assignments);
    var attachmentMap := BuildAttachmentMap(raw);
    views := [];
    for i := 0 to |assignments|
      invariant |views| == i
      invariant forall k :: 0 <= k < i ==> views[k] == AssignmentView(assignments[k], AttachmentsOf(table, assignments[k].id))
    {
      var a := assignments[i];
      var files := if a.id in attachmentMap then attachmentMap[a.id] else [];
      FetchKeepsListedFiles(table, assignments, a.id);
      views := views + [AssignmentView(a, files)];
    }
  }

  // ------------------------------------------------------ grading submissions

  datatype Submission = Submission(submissionId: int, assignmentId: int, studentRfid: string,
                                   status: string, grade: Option<int>, feedback: Option<string>)

  /** The JSON body: `grade` and, optionally, `feedback`. */
  datatype GradeRequest = GradeRequest(grade: Option<int>, feedback: Option<string>)

  predicate Exists(rows: seq<Submission>, id: int)
  {
    exists i :: 0 <= i < |rows| && rows[i].submissionId == id
  }

  /** The UPDATE: every row with that id is graded, every other row is kept. */
  function SetGrade(rows: seq<Submission>, id: int, grade: int, feedback: string): (r: seq<Submission>)
    ensures |r| == |rows|
    ensures forall i :: 0 <= i < |rows| && rows[i].submissionId != id ==> r[i] == rows[i]
    ensures forall i :: 0 <= i < |rows| && rows[i].submissionId == id ==>
      r[i] == rows[i].(grade := Some(grade), feedback := Some(feedback), status := "graded")
  {
    seq(|rows|, i requires 0 <= i < |rows| =>
        if rows[i].submissionId == id then rows[i].(grade := Some(grade), feedback := Some(feedback), status := "graded")
        else rows[i])
  }

  /** grade_submission on the table it updates. */
  function Grade(rows: seq<Submission>, id: int, req: GradeRequest): (Reply<int>, seq<Submission>)
  {
    if req.grade.None? then (Fail(400, "Grade is required"), rows)
    else if !Exists(rows, id) then (Fail(404, "Submission not found"), rows)
    else
      var feedback := if req.feedback.Some? then req.feedback.value else "";
      (Ok(200, id), SetGrade(rows, id, req.grade.value, feedback))
  }

  /** A request without a grade or for an unknown submission changes nothing;
      otherwise exactly that submission is graded, with feedback '' by default. */
  lemma GradeEffect(rows: seq<Submission>, id: int, req: GradeRequest)
    ensures var (reply, rows') := Grade(rows, id, req);
      && (req.grade.None? ==> reply == Fail(400, "Grade is required") && rows' == rows)
      && (req.grade.Some? && !Exists(rows, id) ==> reply == Fail(404, "Submission not found") && rows' == rows)
      && (reply.Ok? <==> req.grade.Some? && Exists(rows, id))
      && (reply.Ok? ==> reply.body == id && |rows'| == |rows| && Exists(rows', id))
      && (reply.Ok? ==> forall i :: 0 <= i < |rows| ==>
            if rows[i].submissionId == id
            then (&& rows'[i].status == "graded" && rows'[i].grade == req.grade
                  && rows'[i].feedback == Some(if req.feedback.Some? then req.feedback.value else "")
                  && rows'[i].studentRfid == rows[i].studentRfid && rows'[i].assignmentId == rows[i].assignmentId)
            else rows'[i] == rows[i])
  {
    var (reply, rows') := Grade(rows, id, req);
    if reply.Ok? {
      var i :| 0 <= i < |rows| && rows[i].submissionId == id;
      assert rows'[i].submissionId == id;
    }
  }

  /** Grading twice with the same body leaves the table as grading once. */
  lemma GradeIdempotent(rows: seq<Submission>, id: int, req: GradeRequest)
    ensures Grade(Grade(rows, id, req).1, id, req).1 == Grade(rows, id, req).1
  {
    var once := Grade(rows, id, req).1;
    if req.grade.Some? && Exists(rows, id) {
      GradeEffect(rows, id, req);
      var twice := Grade(once, id, req).1;
      assert |twice| == |once|;
      forall i | 0 <= i < |once| ensures twice[i] == once[i] {
        assert once[i].submissionId == rows[i].submissionId;
      }
    }
  }

  /** The `Submissions` table. */
  class SubmissionTable {
    var rows: seq<Submission>

    constructor (rows: seq<Submission>)
      ensures this.rows == rows
    {
      this.rows := rows;
    }

    /** POST /api/submissions/<id>/grade. */
    method GradeSubmission(submissionId: int, req: GradeRequest) returns (reply: Reply<int>)
      modifies this
      ensures (reply, rows) == Grade(old(rows), submissionId, req)
    {
      var grade := req.grade;
      var feedback := if req.feedback.Some? then req.feedback.value else "";
      if grade.None? { return Fail(400, "Grade is required"); }
      var found := false;
      for i := 0 to |rows|
        invariant found <==> exists k :: 0 <= k < i && rows[k].submissionId == submissionId
      {
        if rows[i].submissionId == submissionId { found := true; }
      }
      if !found { return Fail(404, "Submission not found"); }
      rows := SetGrade(rows, submissionId, grade.value, feedback);
      reply := Ok(200, submissionId);
    }
  }
}
