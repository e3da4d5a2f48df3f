/** The assessment subsystem of src/Teacher/Subject/Results.py: creating an
    assessment (with its sequence number and, for a Monthly, its three quizzes),
    the displayed titles, the JSON report with its grades, and the batch upsert
    of marks.  The database is a value of type Tables; ResultsStore holds one and
    runs the handlers step by step against it. */
module Results {

  import opened Wrappers
  import Text
  import opened Grading

  /** A `created_at` after `strptime(..., '%Y-%m-%dT%H:%M')`. */
  datatype Timestamp = Timestamp(year: int, month: int, day: int, hour: int, minute: int)

  /** A row of Subjects; `teacherId` is the nullable `teacherid` column. */
  datatype Subject = Subject(subjectId: int, teacherId: Option<int>)

  /** A row of Assessments; `gradingCriteria` is the stored `json.dumps` text. */
  datatype Assessment = Assessment(id: nat, teacherId: int, subjectId: int, assessmentType: string,
                                   totalMarks: int, gradingCriteria: string, sequence: int,
                                   createdAt: Timestamp)

  /** A row of quizzes, owned by a Monthly assessment; `totalMarks` is the
      nullable column, which creation leaves unset. */
  datatype Quiz = Quiz(id: nat, monthlyAssessmentId: nat, quizNumber: int, subjectId: int,
                       createdAt: Timestamp, totalMarks: Option<int>)

  /** A row of assessments_marks or quiz_marks; `itemId` is the assessment or quiz id. */
  datatype MarkRow = MarkRow(itemId: int, rfid: string, marksAchieved: int)

  /** The tables this subsystem reads and writes, with the next auto-increment ids. */
  datatype Tables = Tables(subjects: seq<Subject>, assessments: seq<Assessment>, quizzes: seq<Quiz>,
                           assessmentMarks: seq<MarkRow>, quizMarks: seq<MarkRow>,
                           nextAssessmentId: nat, nextQuizId: nat)

  const ValidTypes: seq<string> := ["Monthly", "Send Up", "Mocks", "Other",
                                    "Test Session", "Weekly", "Half Book", "Full Book"]

  /** The types that may be created at most once per calendar month. */
  const PeriodGuardedTypes: seq<string> := ["Monthly", "Send Up"]

  // ---------------------------------------------------------------------------
  // Sequence numbers and titles

  /** `_get_sequence_base`, which tests the hyphenated spelling "Send-Up". */
  function SequenceBase(assessmentType: string): int
  {
    if assessmentType == "Monthly" then 100
    else if assessmentType == "Send-Up" then 150
    else 0
  }

  /** Of the types creation accepts, only Monthly has a reserved band: "Send Up"
      never matches the "Send-Up" test and starts at 0. */
  lemma BaseOfValidTypes(assessmentType: string)
    requires assessmentType in ValidTypes
    ensures SequenceBase(assessmentType) == if assessmentType == "Monthly" then 100 else 0
  {
  }

  /** The 150 band belongs to a spelling the whitelist refuses. */
  lemma SendUpBandUnreachable()
    ensures SequenceBase("Send-Up") == 150 && "Send-Up" !in ValidTypes
    ensures SequenceBase("Send Up") == 0
  {
    assert "Send-Up"[4] == '-';
  }

  /** The number shown after the type in a title. */
  function Ordinal(assessmentType: string, sequence: int): int
  {
    sequence - SequenceBase(assessmentType)
  }

  /** `f"{type} {sequence - base}"`: the type, a space, and the ordinal in decimal. */
  function Title(assessmentType: string, sequence: int): string
  {
    assessmentType + " " + Text.IntToString(Ordinal(assessmentType, sequence))
  }

  /** A title is the type, a space, and text that reads back as the ordinal. */
  lemma TitleParses(assessmentType: string, sequence: int)
    ensures var title := Title(assessmentType, sequence);
      && |title| > |assessmentType| + 1
      && title[..|assessmentType|] == assessmentType && title[|assessmentType|] == ' '
      && Text.ParseInt(title[|assessmentType| + 1..]) == Some(Ordinal(assessmentType, sequence))
  {
    var digits := Text.IntToString(Ordinal(assessmentType, sequence));
    Text.IntToStringRoundTrip(Ordinal(assessmentType, sequence));
    assert Title(assessmentType, sequence)[|assessmentType| + 1..] == digits;
  }

  /** Within one type, the title determines the sequence number. */
  lemma TitleDeterminesSequence(assessmentType: string, s1: int, s2: int)
    requires Title(assessmentType, s1) == Title(assessmentType, s2)
    ensures s1 == s2
  {
    TitleParses(assessmentType, s1);
    TitleParses(assessmentType, s2);
    var n := |assessmentType| + 1;
    assert Title(assessmentType, s1)[n..] == Title(assessmentType, s2)[n..];
  }

  // ---------------------------------------------------------------------------
  // The queries creation runs

  /** `SELECT teacherid FROM Subjects WHERE subject_id = %s`, first row. */
  function FindSubject(subjects: seq<Subject>, subjectId: int): (r: Option<Subject>)
    ensures r.Some? ==> r.value in subjects && r.value.subjectId == subjectId
    ensures r.None? <==> forall i :: 0 <= i < |subjects| ==> subjects[i].subjectId != subjectId
  {
    if subjects == [] then None
    else if subjects[0].subjectId == subjectId then Some(subjects[0])
    else FindSubject(subjects[1..], subjectId)
  }

  /** `not subject_row['teacherid']` is false: the column is set and not 0. */
  predicate HasTeacher(s: Subject)
  {
    s.teacherId.Some? && s.teacherId.value != 0
  }

  /** The duplicate-check filter: same teacher, subject and type, created in the
      same month of the same year. */
  predicate InPeriod(a: Assessment, teacherId: int, subjectId: int, assessmentType: string, at: Timestamp)
  {
    a.teacherId == teacherId && a.subjectId == subjectId && a.assessmentType == assessmentType
    && a.createdAt.month == at.month && a.createdAt.year == at.year
  }

  /** `SELECT COUNT(*) ... WHERE teacherid, subject_id, assessment_type, MONTH, YEAR`. */
  function CountInPeriod(rows: seq<Assessment>, teacherId: int, subjectId: int, assessmentType: string,
                         at: Timestamp): (n: nat)
    ensures n <= |rows|
    ensures n == 0 <==> forall i :: 0 <= i < |rows| ==> !InPeriod(rows[i], teacherId, subjectId, assessmentType, at)
  {
    if rows == [] then 0
    else (if InPeriod(rows[0], teacherId, subjectId, assessmentType, at) then 1 else 0)
         + CountInPeriod(rows[1..], teacherId, subjectId, assessmentType, at)
  }

  predicate SamePair(a: Assessment, subjectId: int, assessmentType: string)
  {
    a.subjectId == subjectId && a.assessmentType == assessmentType
  }

  /** `MAX(sequence) ... WHERE subject_id = %s AND assessment_type = %s`, NULL when no row matches. */
  function MaxSequence(rows: seq<Assessment>, subjectId: int, assessmentType: string): (r: Option<int>)
    ensures r.None? <==> forall i :: 0 <= i < |rows| ==> !SamePair(rows[i], subjectId, assessmentType)
    ensures r.Some? ==> forall i :: 0 <= i < |rows| && SamePair(rows[i], subjectId, assessmentType)
                          ==> rows[i].sequence <= r.value
    ensures r.Some? ==> exists i :: 0 <= i < |rows| && SamePair(rows[i], subjectId, assessmentType)
                          && rows[i].sequence == r.value
  {
    if rows == [] then None
    else
      var rest := MaxSequence(rows[1..], subjectId, assessmentType);
      if !SamePair(rows[0], subjectId, assessmentType) then
        assert forall i :: 1 <= i < |rows| ==> rows[i] == rows[1..][i - 1];
        rest
      else if rest.None? || rest.value < rows[0].sequence then Some(rows[0].sequence)
      else
        assert forall i :: 1 <= i < |rows| ==> rows[i] == rows[1..][i - 1];
        rest
  }

  /** `COALESCE(MAX(sequence), base - 1) + 1`. */
  function NextSequence(rows: seq<Assessment>, subjectId: int, assessmentType: string): int
  {
    var last := match MaxSequence(rows, subjectId, assessmentType)
                case None => SequenceBase(assessmentType) - 1
                case Some(m) => m;
    last + 1
  }

  /** The allocated number is above every number of the pair, and is the base
      itself when the pair has none yet. */
  lemma NextSequenceFresh(rows: seq<Assessment>, subjectId: int, assessmentType: string)
    ensures forall i :: 0 <= i < |rows| && SamePair(rows[i], subjectId, assessmentType)
              ==> rows[i].sequence < NextSequence(rows, subjectId, assessmentType)
    ensures (forall i :: 0 <= i < |rows| ==> !SamePair(rows[i], subjectId, assessmentType))
              ==> NextSequence(rows, subjectId, assessmentType) == SequenceBase(assessmentType)
    ensures (exists i :: 0 <= i < |rows| && SamePair(rows[i], subjectId, assessmentType))
              ==> exists i :: 0 <= i < |rows| && SamePair(rows[i], subjectId, assessmentType)
                    && NextSequence(rows, subjectId, assessmentType) == rows[i].sequence + 1
  {
  }

  // ---------------------------------------------------------------------------
  // create_assessment

  /** The JSON body of POST /api/assessments. */
  datatype CreateRequest = CreateRequest(subjectId: Field<int>, assessmentType: Option<string>,
                                         totalMarks: Field<int>, gradingCriteria: Option<string>,
                                         createdAt: Field<Timestamp>)

  /** The first of the five required fields that is absent, in the order they are checked. */
  function MissingField(req: CreateRequest): Option<string>
  {
    if req.subjectId.Absent? then Some("subject_id")
    else if req.assessmentType.None? then Some("assessment_type")
    else if req.totalMarks.Absent? then Some("total_marks")
    else if req.gradingCriteria.None? then Some("grading_criteria")
    else if req.createdAt.Absent? then Some("created_at")
    else None
  }

  /** Every field is present and `int(...)` and `strptime` accept the converted ones. */
  predicate WellFormed(req: CreateRequest)
  {
    req.subjectId.Given? && req.assessmentType.Some? && req.totalMarks.Given?
    && req.gradingCriteria.Some? && req.createdAt.Given?
  }

  /** The checks of create_assessment, in order, and the row it inserts. */
  function CreatePlan(t: Tables, req: CreateRequest): Reply<Assessment>
  {
    if MissingField(req).Some? then Fail(400, "Missing required field: " + MissingField(req).value)
    else if !WellFormed(req) then Fail(400, "Invalid data format")
    else
      var subjectId, assessmentType, at := req.subjectId.value, req.assessmentType.value, req.createdAt.value;
      if assessmentType !in ValidTypes then Fail(400, "Invalid assessment type")
      else
        var row := FindSubject(t.subjects, subjectId);
        if row.None? || !HasTeacher(row.value) then Fail(404, "Subject not found or teacher not assigned")
        else
          var teacherId := row.value.teacherId.value;
          if assessmentType in PeriodGuardedTypes
             && CountInPeriod(t.assessments, teacherId, subjectId, assessmentType, at) >= 1
          then Fail(400, "An assessment of type " + assessmentType + " already exists this month")
          else Ok(201, Assessment(t.nextAssessmentId, teacherId, subjectId, assessmentType,
                                  req.totalMarks.value, req.gradingCriteria.value,
                                  NextSequence(t.assessments, subjectId, assessmentType), at))
  }

  /** The quizzes inserted with assessment `a`: numbers 1, 2, 3 for a Monthly, none otherwise. */
  function NewQuizzes(a: Assessment, firstId: nat, now: Timestamp): seq<Quiz>
  {
    if a.assessmentType == "Monthly"
    then seq(3, k requires 0 <= k < 3 => Quiz(firstId + k, a.id, k + 1, a.subjectId, now, None))
    else []
  }

  /** create_assessment as one transaction: on any rejection the tables are as they were. */
  function Create(t: Tables, req: CreateRequest, now: Timestamp): (Reply<nat>, Tables)
  {
    match CreatePlan(t, req)
    case Fail(status, message) => (Fail(status, message), t)
    case Ok(_, a) =>
      var qs := NewQuizzes(a, t.nextQuizId, now);
      (Ok(201, a.id), t.(assessments := t.assessments + [a], quizzes := t.quizzes + qs,
                         nextAssessmentId := t.nextAssessmentId + 1, nextQuizId := t.nextQuizId + |qs|))
  }

  /** A missing field is reported by name, with 400, and nothing is written. */
  lemma CreateMissingField(t: Tables, req: CreateRequest, now: Timestamp)
    requires MissingField(req).Some?
    ensures Create(t, req, now) == (Fail(400, "Missing required field: " + MissingField(req).value), t)
  {
  }

  /** A type outside the eight accepted ones is refused with 400 and nothing is written. */
  lemma CreateInvalidType(t: Tables, req: CreateRequest, now: Timestamp)
    requires WellFormed(req) && req.assessmentType.value !in ValidTypes
    ensures Create(t, req, now) == (Fail(400, "Invalid assessment type"), t)
  {
  }

  /** A subject that is absent or has no teacher gives 404 and nothing is written. */
  lemma CreateSubjectNotFound(t: Tables, req: CreateRequest, now: Timestamp)
    requires WellFormed(req) && req.assessmentType.value in ValidTypes
    requires var row := FindSubject(t.subjects, req.subjectId.value); row.None? || !HasTeacher(row.value)
    ensures Create(t, req, now) == (Fail(404, "Subject not found or teacher not assigned"), t)
  {
  }

  /** A second Monthly or Send Up of the same teacher, subject, month and year is refused. */
  lemma CreateDuplicatePeriod(t: Tables, req: CreateRequest, now: Timestamp, i: nat)
    requires WellFormed(req) && req.assessmentType.value in PeriodGuardedTypes
    requires FindSubject(t.subjects, req.subjectId.value).Some?
    requires HasTeacher(FindSubject(t.subjects, req.subjectId.value).value)
    requires i < |t.assessments|
    requires InPeriod(t.assessments[i], FindSubject(t.subjects, req.subjectId.value).value.teacherId.value,
                      req.subjectId.value, req.assessmentType.value, req.createdAt.value)
    ensures Create(t, req, now).0 == Fail(400, "An assessment of type " + req.assessmentType.value
                                               + " already exists this month")
    ensures Create(t, req, now).1 == t
  {
  }

  /** Creation succeeds exactly when the request is complete and well formed, the
      type is accepted, the subject has a teacher and, for a guarded type, that
      teacher has none of that type for the subject in the same month. */
  lemma CreateSucceedsIff(t: Tables, req: CreateRequest, now: Timestamp)
    ensures Create(t, req, now).0.Ok? <==>
      WellFormed(req) && req.assessmentType.value in ValidTypes
      && FindSubject(t.subjects, req.subjectId.value).Some?
      && HasTeacher(FindSubject(t.subjects, req.subjectId.value).value)
      && (req.assessmentType.value in PeriodGuardedTypes ==>
            forall i :: 0 <= i < |t.assessments| ==>
              !InPeriod(t.assessments[i], FindSubject(t.subjects, req.subjectId.value).value.teacherId.value,
                        req.subjectId.value, req.assessmentType.value, req.createdAt.value))
  {
  }

  /** What a successful creation writes: one assessment carrying the request's
      values, the subject's teacher and a fresh sequence number; three quizzes
      numbered 1, 2, 3 owned by it for a Monthly, none otherwise; nothing else. */
  lemma CreateEffect(t: Tables, req: CreateRequest, now: Timestamp)
    requires Create(t, req, now).0.Ok?
    ensures var (reply, t') := Create(t, req, now);
      && reply == Ok(201, t.nextAssessmentId)
      && |t'.assessments| == |t.assessments| + 1
      && t'.assessments[..|t.assessments|] == t.assessments
      && var a := t'.assessments[|t.assessments|];
      && a.id == t.nextAssessmentId
      && a.subjectId == req.subjectId.value && a.assessmentType == req.assessmentType.value
      && a.totalMarks == req.totalMarks.value && a.gradingCriteria == req.gradingCriteria.value
      && a.createdAt == req.createdAt.value
      && Some(a.teacherId) == FindSubject(t.subjects, a.subjectId).value.teacherId
      && a.sequence == NextSequence(t.assessments, a.subjectId, a.assessmentType)
      && t'.quizzes[..|t.quizzes|] == t.quizzes
      && |t'.quizzes| == |t.quizzes| + (if a.assessmentType == "Monthly" then 3 else 0)
      && (forall k :: |t.quizzes| <= k < |t'.quizzes| ==>
            var q := t'.quizzes[k];
            q.quizNumber == k - |t.quizzes| + 1 && q.monthlyAssessmentId == a.id
            && q.subjectId == a.subjectId && q.createdAt == now)
      && t'.subjects == t.subjects && t'.assessmentMarks == t.assessmentMarks
      && t'.quizMarks == t.quizMarks
  {
    var a := CreatePlan(t, req).body;
    var t' := Create(t, req, now).1;
    assert t'.assessments[|t.assessments|] == a;
    assert t'.assessments[..|t.assessments|] == t.assessments;
    assert t'.quizzes[..|t.quizzes|] == t.quizzes;
  }

  /** The first assessment of a subject and type is numbered at its base, so its title shows 0. */
  lemma FirstTitleShowsZero(t: Tables, req: CreateRequest, now: Timestamp)
    requires Create(t, req, now).0.Ok?
    requires forall i :: 0 <= i < |t.assessments| ==>
               !SamePair(t.assessments[i], req.subjectId.value, req.assessmentType.value)
    ensures var a := Create(t, req, now).1.assessments[|t.assessments|];
      a.sequence == SequenceBase(a.assessmentType) && Ordinal(a.assessmentType, a.sequence) == 0
      && Title(a.assessmentType, a.sequence) == a.assessmentType + " 0"
  {
    CreateEffect(t, req, now);
    var a := Create(t, req, now).1.assessments[|t.assessments|];
    NextSequenceFresh(t.assessments, a.subjectId, a.assessmentType);
    assert Text.IntToString(0) == "0";
  }

  // ---------------------------------------------------------------------------
  // Invariants the handlers keep

  predicate SamePeriod(a: Assessment, b: Assessment)
  {
    InPeriod(b, a.teacherId, a.subjectId, a.assessmentType, a.createdAt)
  }

  predicate Owns(a: Assessment, q: Quiz)
  {
    a.id == q.monthlyAssessmentId && a.assessmentType == "Monthly" && a.subjectId == q.subjectId
  }

  /** At most one mark row per (item id, rfid): the unique key the upsert relies on. */
  predicate KeysUnique(rows: seq<MarkRow>)
  {
    forall i, j :: 0 <= i < j < |rows| ==>
      !(rows[i].itemId == rows[j].itemId && rows[i].rfid == rows[j].rfid)
  }

  /** Ids are below the next auto-increment value and distinct. */
  ghost predicate AssessmentIdsFresh(rows: seq<Assessment>, next: nat)
  {
    && (forall i :: 0 <= i < |rows| ==> rows[i].id < next)
    && (forall i, j :: 0 <= i < j < |rows| ==> rows[i].id != rows[j].id)
  }

  ghost predicate QuizIdsFresh(qs: seq<Quiz>, next: nat)
  {
    && (forall i :: 0 <= i < |qs| ==> qs[i].id < next)
    && (forall i, j :: 0 <= i < j < |qs| ==> qs[i].id != qs[j].id)
  }

  /** Only accepted types, each numbered at or above its base. */
  ghost predicate Numbered(rows: seq<Assessment>)
  {
    forall i :: 0 <= i < |rows| ==>
      rows[i].assessmentType in ValidTypes && rows[i].sequence >= SequenceBase(rows[i].assessmentType)
  }

  /** No two assessments of one (subject, type) share a sequence number. */
  ghost predicate SequencesDistinct(rows: seq<Assessment>)
  {
    forall i, j :: 0 <= i < j < |rows| && SamePair(rows[j], rows[i].subjectId, rows[i].assessmentType)
      ==> rows[i].sequence != rows[j].sequence
  }

  /** At most one Monthly (or Send Up) per teacher, subject and calendar month. */
  ghost predicate OnePerPeriod(rows: seq<Assessment>)
  {
    forall i, j :: 0 <= i < j < |rows| && rows[i].assessmentType in PeriodGuardedTypes
      ==> !SamePeriod(rows[i], rows[j])
  }

  /** Every quiz belongs to a Monthly assessment of its subject. */
  ghost predicate QuizzesOwned(qs: seq<Quiz>, rows: seq<Assessment>)
  {
    forall i :: 0 <= i < |qs| ==> OwnedBy(rows, qs[i])
  }

  ghost predicate OwnedBy(rows: seq<Assessment>, q: Quiz)
  {
    exists j :: 0 <= j < |rows| && Owns(rows[j], q)
  }

  /** The state creation and marks submission keep. */
  ghost predicate Consistent(t: Tables)
  {
    && AssessmentIdsFresh(t.assessments, t.nextAssessmentId)
    && QuizIdsFresh(t.quizzes, t.nextQuizId)
    && Numbered(t.assessments)
    && SequencesDistinct(t.assessments)
    && OnePerPeriod(t.assessments)
    && QuizzesOwned(t.quizzes, t.assessments)
    && KeysUnique(t.assessmentMarks) && KeysUnique(t.quizMarks)
  }

  lemma AppendKeepsSequencesDistinct(rows: seq<Assessment>, a: Assessment)
    requires SequencesDistinct(rows)
    requires forall i :: 0 <= i < |rows| && SamePair(rows[i], a.subjectId, a.assessmentType)
               ==> rows[i].sequence < a.sequence
    ensures SequencesDistinct(rows + [a])
  {
    var r := rows + [a];
    forall i, j | 0 <= i < j < |r| && SamePair(r[j], r[i].subjectId, r[i].assessmentType)
      ensures r[i].sequence != r[j].sequence
    {
      if j == |rows| {
        assert r[i] == rows[i] && SamePair(rows[i], a.subjectId, a.assessmentType);
      } else {
        assert r[i] == rows[i] && r[j] == rows[j];
      }
    }
  }

  lemma AppendKeepsOnePerPeriod(rows: seq<Assessment>, a: Assessment)
    requires OnePerPeriod(rows)
    requires a.assessmentType in PeriodGuardedTypes ==>
               forall i :: 0 <= i < |rows| ==> !InPeriod(rows[i], a.teacherId, a.subjectId, a.assessmentType, a.createdAt)
    ensures OnePerPeriod(rows + [a])
  {
    var r := rows + [a];
    forall i, j | 0 <= i < j < |r| && r[i].assessmentType in PeriodGuardedTypes
      ensures !SamePeriod(r[i], r[j])
    {
      assert r[i] == rows[i];
      if j == |rows| {
        if SamePeriod(rows[i], a) {
          assert InPeriod(rows[i], a.teacherId, a.subjectId, a.assessmentType, a.createdAt);
        }
      } else {
        assert r[j] == rows[j];
      }
    }
  }

  lemma AppendKeepsQuizzesOwned(qs: seq<Quiz>, rows: seq<Assessment>, a: Assessment)
    requires QuizzesOwned(qs, rows)
    ensures QuizzesOwned(qs, rows + [a])
  {
    var r := rows + [a];
    forall i | 0 <= i < |qs| ensures OwnedBy(r, qs[i]) {
      assert OwnedBy(rows, qs[i]);
      var j :| 0 <= j < |rows| && Owns(rows[j], qs[i]);
      assert r[j] == rows[j];
    }
  }

  /** The quizzes inserted with a Monthly are owned by it and take fresh ids. */
  lemma NewQuizzesFit(qs: seq<Quiz>, rows: seq<Assessment>, a: Assessment, next: nat, now: Timestamp)
    requires QuizzesOwned(qs, rows) && QuizIdsFresh(qs, next) && |rows| > 0 && rows[|rows| - 1] == a
    ensures QuizzesOwned(qs + NewQuizzes(a, next, now), rows)
    ensures QuizIdsFresh(qs + NewQuizzes(a, next, now), next + |NewQuizzes(a, next, now)|)
  {
    var all := qs + NewQuizzes(a, next, now);
    forall i | 0 <= i < |all| ensures OwnedBy(rows, all[i]) {
      if i < |qs| {
        assert all[i] == qs[i] && OwnedBy(rows, qs[i]);
      } else {
        assert Owns(rows[|rows| - 1], all[i]);
      }
    }
  }

  lemma {:induction false} CreatePreservesConsistency(t: Tables, req: CreateRequest, now: Timestamp)
    requires Consistent(t)
    ensures Consistent(Create(t, req, now).1)
  {
    if CreatePlan(t, req).Ok? {
      var a := CreatePlan(t, req).body;
      var t' := Create(t, req, now).1;
      var rows := t.assessments + [a];
      assert t'.assessments == rows;
      assert t'.quizzes == t.quizzes + NewQuizzes(a, t.nextQuizId, now);
      MaxSequenceBelowBase(t.assessments, a.subjectId, a.assessmentType);
      NextSequenceFresh(t.assessments, a.subjectId, a.assessmentType);
      assert Numbered(rows) by {
        forall i | 0 <= i < |rows|
          ensures rows[i].assessmentType in ValidTypes && rows[i].sequence >= SequenceBase(rows[i].assessmentType)
        {
          if i < |t.assessments| { assert rows[i] == t.assessments[i]; }
        }
      }
      assert AssessmentIdsFresh(rows, t.nextAssessmentId + 1) by {
        forall i, j | 0 <= i < j < |rows| ensures rows[i].id != rows[j].id {
          assert rows[i] == t.assessments[i];
          if j < |t.assessments| { assert rows[j] == t.assessments[j]; }
        }
        forall i | 0 <= i < |rows| ensures rows[i].id < t.nextAssessmentId + 1 {
          if i < |t.assessments| { assert rows[i] == t.assessments[i]; }
        }
      }
      AppendKeepsSequencesDistinct(t.assessments, a);
      AppendKeepsOnePerPeriod(t.assessments, a);
      AppendKeepsQuizzesOwned(t.quizzes, t.assessments, a);
      NewQuizzesFit(t.quizzes, rows, a, t.nextQuizId, now);
    }
  }

  /** When every number of the table is at or above its base, so is the next number of a pair. */
  lemma MaxSequenceBelowBase(rows: seq<Assessment>, subjectId: int, assessmentType: string)
    requires Numbered(rows)
    ensures NextSequence(rows, subjectId, assessmentType) >= SequenceBase(assessmentType)
  {
  }

  // ---------------------------------------------------------------------------
  // submit_marks

  /** One element of `marks`; a key the element lacks raises KeyError. */
  datatype MarkEntry = MarkEntry(rfid: Option<string>, marksAchieved: Option<int>)

  datatype Mark = Mark(rfid: string, marksAchieved: int)

  /** A JSON value as far as Python's truth test sees it: arrays and objects by their size. */
  datatype JsonValue = JsonNull | JsonBool(b: bool) | JsonNumber(n: real) | JsonString(s: string)
                     | JsonArray(size: nat) | JsonObject(size: nat)

  /** `if value:` on a decoded JSON value: null, false, zero and empty containers are false. */
  predicate JsonTruthy(v: JsonValue)
  {
    match v
    case JsonNull => false
    case JsonBool(b) => b
    case JsonNumber(n) => n != 0.0
    case JsonString(s) => s != ""
    case JsonArray(size) => size > 0
    case JsonObject(size) => size > 0
  }

  /** The JSON body of POST /api/submit-marks; `is_quiz` is used as given, by its truth value. */
  datatype SubmitRequest = SubmitRequest(assessmentId: Option<int>, marks: Option<seq<MarkEntry>>,
                                         isQuiz: Option<JsonValue>)

  /** Whether the marks go to `quiz_marks` rather than `assessments_marks`. */
  predicate ToQuizMarks(req: SubmitRequest)
    requires req.isQuiz.Some?
  {
    JsonTruthy(req.isQuiz.value)
  }

  predicate Complete(e: MarkEntry)
  {
    e.rfid.Some? && e.marksAchieved.Some?
  }

  /** The batch, when every element has both keys. */
  function Entries(entries: seq<MarkEntry>): Option<seq<Mark>>
  {
    if forall i :: 0 <= i < |entries| ==> Complete(entries[i])
    then Some(seq(|entries|, i requires 0 <= i < |entries| && Complete(entries[i]) =>
                Mark(entries[i].rfid.value, entries[i].marksAchieved.value)))
    else None
  }

  /** One more complete element extends the batch by its mark. */
  lemma EntriesSnoc(entries: seq<MarkEntry>, e: MarkEntry)
    requires Entries(entries).Some? && Complete(e)
    ensures Entries(entries + [e]) == Some(Entries(entries).value + [Mark(e.rfid.value, e.marksAchieved.value)])
  {
    var es := entries + [e];
    assert forall i :: 0 <= i < |es| ==> Complete(es[i]) by {
      forall i | 0 <= i < |es| ensures Complete(es[i]) {
        if i < |entries| { assert es[i] == entries[i]; }
      }
    }
    assert Entries(es).Some?;
    var l, r := Entries(es).value, Entries(entries).value + [Mark(e.rfid.value, e.marksAchieved.value)];
    assert |l| == |r|;
    forall i | 0 <= i < |l| ensures l[i] == r[i] {
      if i < |entries| { assert es[i] == entries[i]; }
    }
    assert l == r;
  }

  predicate HasKey(rows: seq<MarkRow>, itemId: int, rfid: string)
  {
    exists i :: 0 <= i < |rows| && rows[i].itemId == itemId && rows[i].rfid == rfid
  }

  /** `INSERT ... ON DUPLICATE KEY UPDATE marks_achieved = %s`. */
  function Upsert(rows: seq<MarkRow>, itemId: int, m: Mark): (r: seq<MarkRow>)
    ensures KeysUnique(rows) ==> KeysUnique(r)
    ensures MarkRow(itemId, m.rfid, m.marksAchieved) in r
    ensures forall x: MarkRow :: !(x.itemId == itemId && x.rfid == m.rfid) ==> (x in r <==> x in rows)
    ensures forall i :: 0 <= i < |rows| ==> HasKey(r, rows[i].itemId, rows[i].rfid)
    ensures |r| == if HasKey(rows, itemId, m.rfid) then |rows| else |rows| + 1
  {
    if HasKey(rows, itemId, m.rfid) then
      var r := seq(|rows|, i requires 0 <= i < |rows| =>
                 if rows[i].itemId == itemId && rows[i].rfid == m.rfid
                 then rows[i].(marksAchieved := m.marksAchieved) else rows[i]);
      assert MarkRow(itemId, m.rfid, m.marksAchieved) in r by {
        var i :| 0 <= i < |rows| && rows[i].itemId == itemId && rows[i].rfid == m.rfid;
        assert r[i] == MarkRow(itemId, m.rfid, m.marksAchieved);
      }
      assert forall x: MarkRow :: !(x.itemId == itemId && x.rfid == m.rfid) && x in rows ==> x in r by {
        forall x: MarkRow | !(x.itemId == itemId && x.rfid == m.rfid) && x in rows ensures x in r {
          var i :| 0 <= i < |rows| && rows[i] == x;
          assert r[i] == x;
        }
      }
      assert forall i :: 0 <= i < |rows| ==> HasKey(r, rows[i].itemId, rows[i].rfid) by {
        forall i | 0 <= i < |rows| ensures HasKey(r, rows[i].itemId, rows[i].rfid) {
          assert r[i].itemId == rows[i].itemId && r[i].rfid == rows[i].rfid;
        }
      }
      r
    else
      var r := rows + [MarkRow(itemId, m.rfid, m.marksAchieved)];
      assert forall i :: 0 <= i < |rows| ==> HasKey(r, rows[i].itemId, rows[i].rfid) by {
        forall i | 0 <= i < |rows| ensures HasKey(r, rows[i].itemId, rows[i].rfid) {
          assert r[i] == rows[i];
        }
      }
      r
  }

  /** The rfids a batch mentions. */
  function Rfids(ms: seq<Mark>): set<string>
  {
    set i | 0 <= i < |ms| :: ms[i].rfid
  }

  /** The last mark the batch gives for `rfid`. */
  function LastMark(ms: seq<Mark>, rfid: string): int
    requires rfid in Rfids(ms)
  {
    var last := ms[|ms| - 1];
    if last.rfid == rfid then last.marksAchieved
    else
      assert rfid in Rfids(ms[..|ms| - 1]) by {
        var i :| 0 <= i < |ms| && ms[i].rfid == rfid;
        assert ms[..|ms| - 1][i].rfid == rfid;
      }
      LastMark(ms[..|ms| - 1], rfid)
  }

  /** The loop of submit_marks: one upsert per element, in order. */
  function UpsertAll(rows: seq<MarkRow>, itemId: int, ms: seq<Mark>): seq<MarkRow>
  {
    if ms == [] then rows else Upsert(UpsertAll(rows, itemId, ms[..|ms| - 1]), itemId, ms[|ms| - 1])
  }

  /** After the batch: keys stay unique, each key of the batch holds the last
      mark given for it, and rows of every other key are exactly as before. */
  lemma {:induction false} UpsertAllEffect(rows: seq<MarkRow>, itemId: int, ms: seq<Mark>)
    requires KeysUnique(rows)
    ensures KeysUnique(UpsertAll(rows, itemId, ms))
    ensures forall k :: k in Rfids(ms) ==> MarkRow(itemId, k, LastMark(ms, k)) in UpsertAll(rows, itemId, ms)
    ensures forall x: MarkRow :: !(x.itemId == itemId && x.rfid in Rfids(ms)) ==>
              (x in UpsertAll(rows, itemId, ms) <==> x in rows)
  {
    if ms != [] {
      var init := ms[..|ms| - 1];
      var m := ms[|ms| - 1];
      UpsertAllEffect(rows, itemId, init);
      assert Rfids(ms) == Rfids(init) + {m.rfid} by {
        forall k | k in Rfids(ms) ensures k in Rfids(init) + {m.rfid} {
          var i :| 0 <= i < |ms| && ms[i].rfid == k;
          if i < |ms| - 1 { assert init[i].rfid == k; }
        }
        forall k | k in Rfids(init) ensures k in Rfids(ms) {
          var i :| 0 <= i < |init| && init[i].rfid == k;
          assert ms[i].rfid == k;
        }
      }
    }
  }

  /** Re-submitting keys that already have a row adds no row. */
  lemma {:induction false} UpsertAllKeepsRowCount(rows: seq<MarkRow>, itemId: int, ms: seq<Mark>)
    requires forall i :: 0 <= i < |ms| ==> HasKey(rows, itemId, ms[i].rfid)
    ensures |UpsertAll(rows, itemId, ms)| == |rows|
    ensures forall i :: 0 <= i < |rows| ==> HasKey(UpsertAll(rows, itemId, ms), rows[i].itemId, rows[i].rfid)
  {
    if ms != [] {
      var init := ms[..|ms| - 1];
      var m := ms[|ms| - 1];
      UpsertAllKeepsRowCount(rows, itemId, init);
      var u := UpsertAll(rows, itemId, init);
      assert HasKey(u, itemId, m.rfid) by {
        var j :| 0 <= j < |rows| && rows[j].itemId == itemId && rows[j].rfid == m.rfid;
        assert HasKey(u, rows[j].itemId, rows[j].rfid);
      }
      var r := Upsert(u, itemId, m);
      forall i | 0 <= i < |rows| ensures HasKey(r, rows[i].itemId, rows[i].rfid) {
        var j :| 0 <= j < |u| && u[j].itemId == rows[i].itemId && u[j].rfid == rows[i].rfid;
        assert HasKey(r, u[j].itemId, u[j].rfid);
      }
    }
  }

  /** The first of the three required fields that is absent. */
  function MissingSubmitField(req: SubmitRequest): Option<string>
  {
    if req.assessmentId.None? then Some("assessment_id")
    else if req.marks.None? then Some("marks")
    else if req.isQuiz.None? then Some("is_quiz")
    else None
  }

  /** submit_marks as one transaction: an element without `rfid` or
      `marks_achieved` raises inside it and the rollback leaves both tables as they were. */
  function Submit(t: Tables, req: SubmitRequest): (Reply<string>, Tables)
  {
    if MissingSubmitField(req).Some? then
      (Fail(400, "Missing required field: " + MissingSubmitField(req).value), t)
    else
      var batch := Entries(req.marks.value);
      if batch.None? then (Fail(500, "Database error"), t)
      else if ToQuizMarks(req) then
        (Ok(201, "Marks submitted successfully"),
         t.(quizMarks := UpsertAll(t.quizMarks, req.assessmentId.value, batch.value)))
      else
        (Ok(201, "Marks submitted successfully"),
         t.(assessmentMarks := UpsertAll(t.assessmentMarks, req.assessmentId.value, batch.value)))
  }

  /** The outcome of submit_marks: rejected or rolled back with nothing changed,
      or the chosen table holds, for every rfid of the batch, exactly one row with
      the last mark given, every other row of it unchanged, and the other table untouched. */
  lemma SubmitEffect(t: Tables, req: SubmitRequest)
    requires Consistent(t)
    ensures var (reply, t') := Submit(t, req);
      && Consistent(t')
      && (reply.Fail? ==> t' == t)
      && (reply.Ok? <==> MissingSubmitField(req).None? && Entries(req.marks.value).Some?)
      && (reply.Ok? ==>
            var id, batch := req.assessmentId.value, Entries(req.marks.value).value;
            var (before, after) := if ToQuizMarks(req) then (t.quizMarks, t'.quizMarks)
                                   else (t.assessmentMarks, t'.assessmentMarks);
            && t'.subjects == t.subjects && t'.assessments == t.assessments && t'.quizzes == t.quizzes
            && (if ToQuizMarks(req) then t'.assessmentMarks == t.assessmentMarks else t'.quizMarks == t.quizMarks)
            && (forall k :: k in Rfids(batch) ==> MarkRow(id, k, LastMark(batch, k)) in after)
            && (forall x: MarkRow :: !(x.itemId == id && x.rfid in Rfids(batch)) ==> (x in after <==> x in before)))
  {
    var (reply, t') := Submit(t, req);
    assert t'.assessments == t.assessments && t'.quizzes == t.quizzes;
    if reply.Ok? {
      var id, batch := req.assessmentId.value, Entries(req.marks.value).value;
      if ToQuizMarks(req) {
        UpsertAllEffect(t.quizMarks, id, batch);
      } else {
        UpsertAllEffect(t.assessmentMarks, id, batch);
      }
    }
  }

  /** Submitting the same batch twice leaves the tables as submitting it once left them in size. */
  lemma ResubmitKeepsRowCount(t: Tables, req: SubmitRequest)
    requires Consistent(t) && Submit(t, req).0.Ok?
    ensures var t1 := Submit(t, req).1; var t2 := Submit(t1, req).1;
      |t2.assessmentMarks| == |t1.assessmentMarks| && |t2.quizMarks| == |t1.quizMarks|
  {
    var id, batch := req.assessmentId.value, Entries(req.marks.value).value;
    var t1 := Submit(t, req).1;
    var rows := if ToQuizMarks(req) then t.quizMarks else t.assessmentMarks;
    var rows1 := if ToQuizMarks(req) then t1.quizMarks else t1.assessmentMarks;
    assert rows1 == UpsertAll(rows, id, batch);
    UpsertAllEffect(rows, id, batch);
    forall i | 0 <= i < |batch| ensures HasKey(rows1, id, batch[i].rfid) {
      assert batch[i].rfid in Rfids(batch);
      var x := MarkRow(id, batch[i].rfid, LastMark(batch, batch[i].rfid));
      assert x in rows1;
      var j :| 0 <= j < |rows1| && rows1[j] == x;
      assert rows1[j].itemId == id && rows1[j].rfid == batch[i].rfid;
    }
    UpsertAllKeepsRowCount(rows1, id, batch);
  }

  // ---------------------------------------------------------------------------
  // get_assessments and get_assessment_marks

  /** An assessment row of the listing, with its computed title. */
  datatype AssessmentListing = AssessmentListing(id: nat, assessmentType: string, createdAt: Timestamp,
                                                 totalMarks: int, sequence: int, isMarked: bool,
                                                 title: string)

  /** A quiz row of the listing, with its owning assessment's title. */
  datatype QuizListing = QuizListing(quizId: nat, quizNumber: int, createdAt: Timestamp,
                                     totalMarks: Option<int>, assessmentType: string, sequence: int, isMarked: bool,
                                     monthlyAssessmentTitle: string)

  datatype Listing = Listing(assessments: seq<AssessmentListing>, quizzes: seq<QuizListing>)

  /** An assessment row with its title added; every other field passes through. */
  function ListAssessment(marks: seq<MarkRow>, a: Assessment): (l: AssessmentListing)
    ensures l.id == a.id && l.assessmentType == a.assessmentType && l.createdAt == a.createdAt
    ensures l.totalMarks == a.totalMarks && l.sequence == a.sequence
    ensures l.isMarked <==> exists i :: 0 <= i < |marks| && marks[i].itemId == a.id
    ensures l.title == Title(a.assessmentType, a.sequence)
  {
    AssessmentListing(a.id, a.assessmentType, a.createdAt, a.totalMarks, a.sequence, IsMarked(marks, a.id),
                      Title(a.assessmentType, a.sequence))
  }

  /** A quiz row with the title of its owning assessment added. */
  function ListQuiz(marks: seq<MarkRow>, q: Quiz, owner: Assessment): (l: QuizListing)
    ensures l.quizId == q.id && l.quizNumber == q.quizNumber && l.createdAt == q.createdAt
    ensures l.totalMarks == q.totalMarks
    ensures l.assessmentType == owner.assessmentType && l.sequence == owner.sequence
    ensures l.isMarked <==> exists i :: 0 <= i < |marks| && marks[i].itemId == q.id
    ensures l.monthlyAssessmentTitle == Title(owner.assessmentType, owner.sequence)
  {
    QuizListing(q.id, q.quizNumber, q.createdAt, q.totalMarks, owner.assessmentType, owner.sequence, IsMarked(marks, q.id),
                Title(owner.assessmentType, owner.sequence))
  }

  /** `COUNT(m.rfid) > 0` of the left join with a marks table. */
  predicate IsMarked(marks: seq<MarkRow>, itemId: int)
  {
    exists i :: 0 <= i < |marks| && marks[i].itemId == itemId
  }

  /** The assessments of a subject, in table order. */
  function OfSubject(rows: seq<Assessment>, subjectId: int): (r: seq<Assessment>)
    ensures forall a :: a in r <==> a in rows && a.subjectId == subjectId
  {
    if rows == [] then []
    else (if rows[0].subjectId == subjectId then [rows[0]] else []) + OfSubject(rows[1..], subjectId)
  }

  /** The assessment a quiz points at (the first row with that id). */
  function FindAssessment(rows: seq<Assessment>, id: int): (r: Option<Assessment>)
    ensures r.Some? ==> r.value in rows && r.value.id == id
    ensures r.None? ==> forall i :: 0 <= i < |rows| ==> rows[i].id != id
  {
    if rows == [] then None
    else if rows[0].id == id then Some(rows[0])
    else FindAssessment(rows[1..], id)
  }

  /** The quizzes of a subject joined with their owning assessment; a quiz whose owner is missing drops out. */
  function QuizzesOfSubject(qs: seq<Quiz>, rows: seq<Assessment>, subjectId: int): seq<(Quiz, Assessment)>
  {
    if qs == [] then []
    else
      var owner := FindAssessment(rows, qs[0].monthlyAssessmentId);
      (if qs[0].subjectId == subjectId && owner.Some? then [(qs[0], owner.value)] else [])
      + QuizzesOfSubject(qs[1..], rows, subjectId)
  }

  /** Titles are built from the raw rows, the rest of each row is passed on unchanged. */
  lemma ListedTitlesDistinct(t: Tables, subjectId: int)
    requires Consistent(t)
    ensures var rows := OfSubject(t.assessments, subjectId);
      forall i, j :: 0 <= i < j < |rows| && rows[i].assessmentType == rows[j].assessmentType
        && rows[i].id != rows[j].id
        ==> Title(rows[i].assessmentType, rows[i].sequence) != Title(rows[j].assessmentType, rows[j].sequence)
  {
    var rows := OfSubject(t.assessments, subjectId);
    forall i, j | 0 <= i < j < |rows| && rows[i].assessmentType == rows[j].assessmentType && rows[i].id != rows[j].id
      ensures Title(rows[i].assessmentType, rows[i].sequence) != Title(rows[j].assessmentType, rows[j].sequence)
    {
      assert rows[i] in rows && rows[j] in rows;
      var p :| 0 <= p < |t.assessments| && t.assessments[p] == rows[i];
      var q :| 0 <= q < |t.assessments| && t.assessments[q] == rows[j];
      assert p != q;
      if p < q {
        assert t.assessments[p].sequence != t.assessments[q].sequence;
      } else {
        assert t.assessments[q].sequence != t.assessments[p].sequence;
      }
      if Title(rows[i].assessmentType, rows[i].sequence) == Title(rows[j].assessmentType, rows[j].sequence) {
        TitleDeterminesSequence(rows[i].assessmentType, rows[i].sequence, rows[j].sequence);
      }
    }
  }

  /** What GET /api/assessment-marks reports about the item before its marks. */
  datatype Details =
    | AssessmentDetails(assessmentId: nat, assessmentType: string, createdAt: Timestamp, totalMarks: int,
                        sequence: int, title: string)
    | QuizDetails(quizId: nat, quizNumber: int, createdAt: Timestamp, quizTotalMarks: Option<int>, assessmentType: string,
                  sequence: int, monthlyAssessmentTitle: string)

  function FindQuiz(qs: seq<Quiz>, id: int): (r: Option<Quiz>)
    ensures r.Some? ==> r.value in qs && r.value.id == id
    ensures r.None? ==> forall i :: 0 <= i < |qs| ==> qs[i].id != id
  {
    if qs == [] then None
    else if qs[0].id == id then Some(qs[0])
    else FindQuiz(qs[1..], id)
  }

  /** The details part of get_assessment_marks. A quiz whose owning assessment is
      missing leaves the type and sequence NULL, and building its title raises (500). */
  function GetAssessmentDetails(t: Tables, assessmentId: Option<int>, isQuiz: bool): (r: Reply<Details>)
    ensures assessmentId.None? ==> r == Fail(400, "assessment_id parameter is required")
    ensures assessmentId.Some? && !isQuiz ==>
      && (r.Fail? <==> FindAssessment(t.assessments, assessmentId.value).None?)
      && (FindAssessment(t.assessments, assessmentId.value).None? ==> r == Fail(404, "Assessment not found"))
      && (r.Ok? ==> var a := FindAssessment(t.assessments, assessmentId.value).value;
            && r.body.AssessmentDetails? && r.body.assessmentId == a.id && r.body.assessmentType == a.assessmentType
            && r.body.createdAt == a.createdAt && r.body.totalMarks == a.totalMarks && r.body.sequence == a.sequence
            && r.body.title == Title(a.assessmentType, a.sequence))
    ensures assessmentId.Some? && isQuiz ==>
      && (r.Ok? <==> (FindQuiz(t.quizzes, assessmentId.value).Some?
                      && FindAssessment(t.assessments, FindQuiz(t.quizzes, assessmentId.value).value.monthlyAssessmentId).Some?))
      && (FindQuiz(t.quizzes, assessmentId.value).None? ==> r == Fail(404, "Assessment not found"))
      && (FindQuiz(t.quizzes, assessmentId.value).Some?
          && FindAssessment(t.assessments, FindQuiz(t.quizzes, assessmentId.value).value.monthlyAssessmentId).None?
          ==> r.Fail? && r.status == 500)
      && (r.Ok? ==> var q := FindQuiz(t.quizzes, assessmentId.value).value;
            var owner := FindAssessment(t.assessments, q.monthlyAssessmentId).value;
            && r.body.QuizDetails? && r.body.quizId == q.id && r.body.quizNumber == q.quizNumber
            && r.body.createdAt == q.createdAt && r.body.quizTotalMarks == q.totalMarks
            && r.body.assessmentType == owner.assessmentType && r.body.sequence == owner.sequence
            && r.body.monthlyAssessmentTitle == Title(owner.assessmentType, owner.sequence))
  {
    if assessmentId.None? then Fail(400, "assessment_id parameter is required")
    else if isQuiz then
      match FindQuiz(t.quizzes, assessmentId.value)
      case None => Fail(404, "Assessment not found")
      case Some(q) =>
        match FindAssessment(t.assessments, q.monthlyAssessmentId)
        case None => Fail(500, "Unexpected error")
        case Some(a) => Ok(200, QuizDetails(q.id, q.quizNumber, q.createdAt, q.totalMarks, a.assessmentType, a.sequence,
                                           Title(a.assessmentType, a.sequence)))
    else
      match FindAssessment(t.assessments, assessmentId.value)
      case None => Fail(404, "Assessment not found")
      case Some(a) => Ok(200, AssessmentDetails(a.id, a.assessmentType, a.createdAt, a.totalMarks, a.sequence,
                                               Title(a.assessmentType, a.sequence)))
  }

  // ---------------------------------------------------------------------------
  // generate_report

  /** The body of POST /api/reports/generate. */
  datatype ReportRequest = ReportRequest(subjectId: Option<int>, assessmentType: Option<string>)

  /** A row the report query returns; `totalMarks` is the nullable Assessments column. */
  datatype ReportRow = ReportRow(studentName: string, studentId: string, marksAchieved: int,
                                 totalMarks: Option<int>)

  datatype ReportLine = ReportLine(studentName: string, studentId: string, marksAchieved: int,
                                   totalMarks: int, percentage: real, grade: string)

  datatype Report = Report(reportType: string, generatedAt: string, data: seq<ReportLine>)

  /** The division `marks / total` raises for a NULL or zero total. */
  predicate Divisible(row: ReportRow)
  {
    row.totalMarks.Some? && row.totalMarks.value != 0
  }

  // ---------------------------------------------------------------------------
  // The store

  /** The loop of submit_marks: one upsert per element, in order, on a copy of
      the table; an element without a key aborts the batch (None: the rollback). */
  method UpsertBatch(rows: seq<MarkRow>, itemId: int, marks: seq<MarkEntry>) returns (r: Option<seq<MarkRow>>)
    ensures r.None? <==> Entries(marks).None?
    ensures r.Some? ==> r.value == UpsertAll(rows, itemId, Entries(marks).value)
  {
    var pending := rows;
    for i := 0 to |marks|
      invariant Entries(marks[..i]).Some?
      invariant pending == UpsertAll(rows, itemId, Entries(marks[..i]).value)
    {
      var mark := marks[i];
      if mark.rfid.None? || mark.marksAchieved.None? {
        assert !Complete(marks[i]);
        return None;
      }
      assert marks[..i + 1] == marks[..i] + [mark];
      EntriesSnoc(marks[..i], mark);
      pending := Upsert(pending, itemId, Mark(mark.rfid.value, mark.marksAchieved.value));
    }
    assert marks[..|marks|] == marks;
    r := Some(pending);
  }

  /** The quiz loop of create_assessment: a Monthly gets quizzes 1 to 3, dated now. */
  method InsertQuizzes(quizzes: seq<Quiz>, a: Assessment, firstId: nat, now: Timestamp)
    returns (pending: seq<Quiz>, nextId: nat)
    ensures pending == quizzes + NewQuizzes(a, firstId, now)
    ensures nextId == firstId + |NewQuizzes(a, firstId, now)|
  {
    pending, nextId := quizzes, firstId;
    if a.assessmentType == "Monthly" {
      for quizNumber := 1 to 4
        invariant pending == quizzes + NewQuizzes(a, firstId, now)[..quizNumber - 1]
        invariant nextId == firstId + quizNumber - 1
      {
        pending := pending + [Quiz(nextId, a.id, quizNumber, a.subjectId, now, None)];
        nextId := nextId + 1;
      }
    }
    assert pending == quizzes + NewQuizzes(a, firstId, now);
  }

  class ResultsStore {
    var subjects: seq<Subject>
    var assessments: seq<Assessment>
    var quizzes: seq<Quiz>
    var assessmentMarks: seq<MarkRow>
    var quizMarks: seq<MarkRow>
    var nextAssessmentId: nat
    var nextQuizId: nat

    ghost function State(): Tables
      reads this
    {
      Tables(subjects, assessments, quizzes, assessmentMarks, quizMarks, nextAssessmentId, nextQuizId)
    }

    ghost predicate Valid()
      reads this
    {
      Consistent(State())
    }

    constructor (subjects: seq<Subject>)
      ensures Valid()
      ensures State() == Tables(subjects, [], [], [], [], 1, 1)
    {
      this.subjects := subjects;
      assessments, quizzes, assessmentMarks, quizMarks := [], [], [], [];
      nextAssessmentId, nextQuizId := 1, 1;
    }

    /** The checks and queries create_assessment runs before it inserts:
        required fields, conversions, the whitelist, the subject's teacher, the
        once-a-month count and the sequence number. */
    method PlanAssessment(req: CreateRequest) returns (plan: Reply<Assessment>)
      ensures plan == CreatePlan(State(), req)
    {
      var missing := MissingField(req);
      if missing.Some? { return Fail(400, "Missing required field: " + missing.value); }
      if !req.subjectId.Given? || !req.totalMarks.Given? || !req.createdAt.Given? {
        return Fail(400, "Invalid data format");
      }
      var subjectId := req.subjectId.value;
      var assessmentType := req.assessmentType.value;
      var createdAt := req.createdAt.value;
      if assessmentType !in ValidTypes { return Fail(400, "Invalid assessment type"); }

      var subjectRow := FindSubject(subjects, subjectId);
      if subjectRow.None? || !HasTeacher(subjectRow.value) {
        return Fail(404, "Subject not found or teacher not assigned");
      }
      var teacherId := subjectRow.value.teacherId.value;

      if assessmentType in PeriodGuardedTypes {
        var count := CountInPeriod(assessments, teacherId, subjectId, assessmentType, createdAt);
        if count >= 1 {
          return Fail(400, "An assessment of type " + assessmentType + " already exists this month");
        }
      }

      var baseSequence := SequenceBase(assessmentType);
      var maxSequence := MaxSequence(assessments, subjectId, assessmentType);
      var lastSequence := if maxSequence.None? then baseSequence - 1 else maxSequence.value;
      var sequence := lastSequence + 1;
      plan := Ok(201, Assessment(nextAssessmentId, teacherId, subjectId, assessmentType, req.totalMarks.value,
                                 req.gradingCriteria.value, sequence, createdAt));
    }

    /** POST /api/assessments. The inserts go to a pending copy that is committed
        only at the end, so a rejection leaves the tables untouched. */
    method CreateAssessment(req: CreateRequest, now: Timestamp) returns (reply: Reply<nat>)
      requires Valid()
      modifies this
      ensures Valid()
      ensures (reply, State()) == Create(old(State()), req, now)
    {
      ghost var t := State();
      CreatePreservesConsistency(t, req, now);
      var plan := PlanAssessment(req);
      if plan.Fail? { return Fail(plan.status, plan.message); }
      ghost var expected := Create(t, req, now);
      var a := plan.body;
      var assessmentId := a.id;
      var pendingAssessments := assessments + [a];
      var pendingQuizzes, quizId := InsertQuizzes(quizzes, a, nextQuizId, now);

      assessments, quizzes := pendingAssessments, pendingQuizzes;
      nextAssessmentId, nextQuizId := assessmentId + 1, quizId;
      reply := Ok(201, assessmentId);
      assert State() == expected.1;
    }

    /** POST /api/submit-marks. The upserts go to a pending copy of the chosen
        table, which is committed only when the whole batch went through. */
    method SubmitMarks(req: SubmitRequest) returns (reply: Reply<string>)
      requires Valid()
      modifies this
      ensures Valid()
      ensures (reply, State()) == Submit(old(State()), req)
    {
      SubmitEffect(State(), req);
      var missing := MissingSubmitField(req);
      if missing.Some? { return Fail(400, "Missing required field: " + missing.value); }
      var assessmentId, marks, isQuiz := req.assessmentId.value, req.marks.value, JsonTruthy(req.isQuiz.value);
      var pending := UpsertBatch(if isQuiz then quizMarks else assessmentMarks, assessmentId, marks);
      if pending.None? { return Fail(500, "Database error"); }
      if isQuiz { quizMarks := pending.value; } else { assessmentMarks := pending.value; }
      reply := Ok(201, "Marks submitted successfully");
    }

    /** GET /api/assessments: the subject's assessments and quizzes, each given its title. */
    method GetAssessments(subjectId: Option<int>) returns (reply: Reply<Listing>)
      ensures subjectId.None? ==> reply == Fail(400, "subject_id parameter is required")
      ensures subjectId.Some? ==>
        var raw := OfSubject(assessments, subjectId.value);
        var rawQuizzes := QuizzesOfSubject(quizzes, assessments, subjectId.value);
        && reply.Ok? && reply.status == 200
        && |reply.body.assessments| == |raw| && |reply.body.quizzes| == |rawQuizzes|
        && (forall i :: 0 <= i < |raw| ==> reply.body.assessments[i] == ListAssessment(assessmentMarks, raw[i]))
        && (forall i :: 0 <= i < |rawQuizzes| ==>
              reply.body.quizzes[i] == ListQuiz(quizMarks, rawQuizzes[i].0, rawQuizzes[i].1))
    {
      if subjectId.None? { return Fail(400, "subject_id parameter is required"); }
      var listed := TitleAssessments(assessmentMarks, OfSubject(assessments, subjectId.value));
      var quizRows := TitleQuizzes(quizMarks, QuizzesOfSubject(quizzes, assessments, subjectId.value));
      reply := Ok(200, Listing(listed, quizRows));
    }
  }

  /** The first loop of get_assessments: each assessment row gets its title. */
  method TitleAssessments(marks: seq<MarkRow>, raw: seq<Assessment>) returns (listed: seq<AssessmentListing>)
    ensures |listed| == |raw|
    ensures forall i :: 0 <= i < |raw| ==> listed[i] == ListAssessment(marks, raw[i])
  {
    listed := [];
    for i := 0 to |raw|
      invariant |listed| == i
      invariant forall k :: 0 <= k < i ==> listed[k] == ListAssessment(marks, raw[k])
    {
      var a := raw[i];
      var title := Title(a.assessmentType, a.sequence);
      var entry := AssessmentListing(a.id, a.assessmentType, a.createdAt, a.totalMarks, a.sequence,
                                     IsMarked(marks, a.id), title);
      assert entry == ListAssessment(marks, raw[i]);
      listed := listed + [entry];
    }
  }

  /** The second loop of get_assessments: each quiz gets the title of its Monthly. */
  method TitleQuizzes(marks: seq<MarkRow>, rawQuizzes: seq<(Quiz, Assessment)>) returns (quizRows: seq<QuizListing>)
    ensures |quizRows| == |rawQuizzes|
    ensures forall i :: 0 <= i < |rawQuizzes| ==> quizRows[i] == ListQuiz(marks, rawQuizzes[i].0, rawQuizzes[i].1)
  {
    quizRows := [];
    for i := 0 to |rawQuizzes|
      invariant |quizRows| == i
      invariant forall k :: 0 <= k < i ==> quizRows[k] == ListQuiz(marks, rawQuizzes[k].0, rawQuizzes[k].1)
    {
      var q, owner := rawQuizzes[i].0, rawQuizzes[i].1;
      var title := Title(owner.assessmentType, owner.sequence);
      var entry := QuizListing(q.id, q.quizNumber, q.createdAt, q.totalMarks, owner.assessmentType, owner.sequence,
                               IsMarked(marks, q.id), title);
      assert entry == ListQuiz(marks, q, owner);
      quizRows := quizRows + [entry];
    }
  }

  /** POST /api/reports/generate over the rows its query returns: an unguarded
      `marks / total * 100` per row, so one NULL or zero total fails the whole
      request with 500; otherwise one line per row with its percentage and grade. */
  method GenerateReport(req: ReportRequest, fetched: seq<ReportRow>, now: string) returns (reply: Reply<Report>)
    ensures req.subjectId.None? ==> reply == Fail(400, "Missing required field: subject_id")
    ensures req.subjectId.Some? && req.assessmentType.None? ==>
              reply == Fail(400, "Missing required field: assessment_type")
    ensures req.subjectId.Some? && req.assessmentType.Some? ==>
      && (reply.Fail? <==> exists i :: 0 <= i < |fetched| && !Divisible(fetched[i]))
      && (reply.Fail? ==> reply.status == 500)
      && (reply.Ok? ==>
            && reply.body.reportType == req.assessmentType.value && reply.body.generatedAt == now
            && |reply.body.data| == |fetched|
            && forall i :: 0 <= i < |fetched| ==>
                 var (l, row) := (reply.body.data[i], fetched[i]);
                 && l.studentName == row.studentName && l.studentId == row.studentId
                 && l.marksAchieved == row.marksAchieved && Some(l.totalMarks) == row.totalMarks
                 && l.percentage * (l.totalMarks as real) == (row.marksAchieved as real) * 100.0
                 && l.grade == Label(CalculateGrade(l.percentage)))
  {
    if req.subjectId.None? { return Fail(400, "Missing required field: subject_id"); }
    if req.assessmentType.None? { return Fail(400, "Missing required field: assessment_type"); }
    var formatted: seq<ReportLine> := [];
    for i := 0 to |fetched|
      invariant |formatted| == i
      invariant forall k :: 0 <= k < i ==> Divisible(fetched[k])
      invariant forall k :: 0 <= k < i ==>
        formatted[k] == ReportLine(fetched[k].studentName, fetched[k].studentId, fetched[k].marksAchieved,
                                   fetched[k].totalMarks.value,
                                   Percentage(fetched[k].marksAchieved, fetched[k].totalMarks.value),
                                   Label(CalculateGrade(Percentage(fetched[k].marksAchieved, fetched[k].totalMarks.value))))
    {
      var row := fetched[i];
      if row.totalMarks.None? || row.totalMarks.value == 0 {
        return Fail(500, "Server error");
      }
      var percentage := Percentage(row.marksAchieved, row.totalMarks.value);
      var grade := CalculateGrade(percentage);
      formatted := formatted + [ReportLine(row.studentName, row.studentId, row.marksAchieved,
                                           row.totalMarks.value, percentage, Label(grade))];
    }
    reply := Ok(200, Report(req.assessmentType.value, now, formatted));
  }
}
