# School-management backend: assessments, reports and subject handlers

This project models, in Dafny, the parts of a Flask and MySQL school-management
backend that contain real logic:

- **Assessments** (`src/Teacher/Subject/Results.py`). Creating an assessment is
  one transaction. It checks the required fields and an eight-type whitelist,
  then looks up the subject's teacher. For `Monthly` and `Send Up` it allows one
  per teacher, subject and calendar month. It allocates a sequence number one
  past the pair's maximum, or at a per-type base, and creates three quizzes for
  a `Monthly`. The module also covers displayed titles (`type + " " +
  (sequence - base)`), the six-band grade, the JSON report with its unguarded
  division, and the batch upsert of marks with rollback.
- **Spreadsheet reports** (`testing.py`). A row cursor walks down a worksheet.
  Each block is a title in column 0, then a pandas table (a header row and one
  row per student, columns 0 to 5), then three empty rows. The all-subjects
  variant writes a heading per subject, or a message when a subject has no
  assessment.
- **Admin results** (`src/admin/Result.py`). A student's rows have NULL marks
  read as 0 and are grouped by `month_year` in first-occurrence order. The
  campus student list renames each row.
- **Assignments** (`src/Teacher/Subject/Assignments.py`): attachments grouped
  per assignment, and grading one submission.
- **Attendance** (`src/Teacher/Subject/Attendance.py`): reading one
  (subject, date) slice, and replacing it with no rollback.
- **Queries** (`src/Teacher/Subject/Queries.py`): the name avatar, listing, and
  answering a query.
- **Chat** (`src/Teacher/Subject/Chat.py`): get-or-create of a subject's room,
  listing a room's messages, and sending a message with defaults for an
  unknown sender.

The database is in memory. Each table is a `seq` of records, or a `map` for
the users table. A handler that changes tables is a method of a class holding
those tables as fields. The method is proved equal to a specification function
from old tables to reply and new tables. The properties are lemmas about those
functions. Requests and replies are datatypes: `Reply` is a status with a body,
or a status with the error message. Percentages are exact `real`s.

Points where the code behaves unexpectedly; the model does what the code does:

- The sequence base tests the spelling `"Send-Up"`, but the whitelist only
  accepts `"Send Up"`. So `Send Up` numbers from 0, and the 150 band cannot be
  reached.
- The first assessment of a type gets the base itself as its sequence number.
  Its title therefore shows 0, not 1.
- The once-a-month check also filters on the teacher.
- The JSON report divides by the total without a guard. A NULL or zero total
  fails the whole request with 500, instead of giving a percentage of 0.
- `submit_marks` picks the marks table by the truth value of the JSON
  `is_quiz`, so the string `"false"` selects `quiz_marks`.

## Model

| member | source | states |
|---|---|---|
| Grading.CalculateGrade | src/Teacher/Subject/Results.py:243-249 | the grade is the best band whose threshold (90/80/70/60/50) the percentage reaches; every better band's threshold is not reached |
| Grading.GradeMonotone | src/Teacher/Subject/Results.py:243-249 | a higher percentage never earns a lower grade |
| Grading.GradeReaches | src/Teacher/Subject/Results.py:243-249 | a percentage earns band g or better iff it reaches g's threshold |
| Grading.GradeBoundaries | src/Teacher/Subject/Results.py:243-249 | 100 and 90 give A+, 89.99 gives A, 50 gives D, 49.99 and 0 give F |
| Grading.Percentage | src/Teacher/Subject/Results.py:222 | the percentage times the total equals obtained × 100, exactly |
| Grading.PercentageAtLeast | testing.py:45-59 | for a positive total, percentage ≥ t iff obtained × 100 ≥ t × total |
| Text.IntToStringRoundTrip | src/Teacher/Subject/Results.py:149 | the decimal text of an integer in a title reads back as that integer |
| Results.BaseOfValidTypes | src/Teacher/Subject/Results.py:181-187 | of the eight accepted types, only Monthly has a nonzero base (100) |
| Results.SendUpBandUnreachable | src/Teacher/Subject/Results.py:67-71 | base 150 belongs to "Send-Up", which the whitelist refuses; "Send Up" has base 0 |
| Results.TitleParses | src/Teacher/Subject/Results.py:149 | the title is the type, a space, and text that parses back to sequence − base |
| Results.TitleDeterminesSequence | src/Teacher/Subject/Results.py:168 | within one type, equal titles mean equal sequence numbers |
| Results.FindSubject | src/Teacher/Subject/Results.py:36-37 | the lookup returns a row of the subject, or none iff the subject has no row |
| Results.CountInPeriod | src/Teacher/Subject/Results.py:48-59 | the count is 0 iff no assessment has that teacher, subject, type, month and year |
| Results.MaxSequence | src/Teacher/Subject/Results.py:73-78 | MAX is NULL iff the (subject, type) pair has no row; otherwise it is a sequence of the pair and at least every other one |
| Results.NextSequenceFresh | src/Teacher/Subject/Results.py:73-79 | the new number exceeds every number of the pair; it is the base when the pair is empty, else max + 1 |
| Results.CreateMissingField | src/Teacher/Subject/Results.py:14-17 | an absent required field gives 400 naming it, and the tables are unchanged |
| Results.CreateInvalidType | src/Teacher/Subject/Results.py:26-29 | a type outside the eight gives 400 and the tables are unchanged |
| Results.CreateSubjectNotFound | src/Teacher/Subject/Results.py:36-42 | a missing subject or one without a teacher gives 404 and nothing is inserted |
| Results.CreateDuplicatePeriod | src/Teacher/Subject/Results.py:47-64 | a Monthly/Send Up already present for that teacher, subject, month and year gives 400 and nothing is inserted |
| Results.CreateSucceedsIff | src/Teacher/Subject/Results.py:14-79 | creation succeeds iff fields are well formed, the type is accepted, the subject has a teacher and the period check passes |
| Results.CreateEffect | src/Teacher/Subject/Results.py:82-120 | success appends one assessment with the request's values, the subject's teacher and the allocated sequence. A Monthly also gets quizzes 1, 2, 3 pointing at it; other types get none. No other table changes |
| Results.FirstTitleShowsZero | src/Teacher/Subject/Results.py:74-79 | the first assessment of a (subject, type) is numbered at the base, so its title ends in " 0" |
| Results.NewQuizzesFit | src/Teacher/Subject/Results.py:99-111 | the quizzes created with a Monthly are owned by it and take fresh ids |
| Results.CreatePreservesConsistency | src/Teacher/Subject/Results.py:10-125 | creation keeps unique ids, distinct sequences per pair, one Monthly/Send Up per period, owned quizzes and unique mark keys |
| Results.MaxSequenceBelowBase | src/Teacher/Subject/Results.py:73-79 | when every stored number is at or above its base, so is the next one |
| Results.Upsert | src/Teacher/Subject/Results.py:393-403 | one upsert keeps keys unique and stores the given mark under its key. Other keys' rows are kept. The row count grows only for a new key |
| Results.UpsertAllEffect | src/Teacher/Subject/Results.py:388-403 | after the batch, each batch key holds its last mark and keys stay unique. Rows of other keys are exactly as before |
| Results.UpsertAllKeepsRowCount | src/Teacher/Subject/Results.py:388-403 | re-submitting keys that already have rows adds no row |
| Results.SubmitEffect | src/Teacher/Subject/Results.py:370-414 | a missing field or an element lacking a key leaves the tables unchanged. Otherwise only the marks table chosen by the truth value of `is_quiz` (Python's, on the JSON value) changes, as the batch upsert says |
| Results.ResubmitKeepsRowCount | src/Teacher/Subject/Results.py:388-405 | submitting the same batch twice leaves both marks tables the size one submission left them |
| Results.ListAssessment | src/Teacher/Subject/Results.py:147-151 | a listed assessment carries its row's fields, whether it has marks, and its title |
| Results.ListQuiz | src/Teacher/Subject/Results.py:154-170 | a listed quiz carries its fields (total_marks included), whether it has marks, and its Monthly's title |
| Results.OfSubject | src/Teacher/Subject/Results.py:136-144 | exactly the subject's assessments are listed |
| Results.FindAssessment | src/Teacher/Subject/Results.py:277-281 | the lookup returns a row with that id, or none iff there is none |
| Results.FindQuiz | src/Teacher/Subject/Results.py:264-270 | the lookup returns a quiz with that id, or none iff there is none |
| Results.ListedTitlesDistinct | src/Teacher/Subject/Results.py:147-151 | in a consistent store, two assessments of one subject and type never get the same title |
| Results.GetAssessmentDetails | src/Teacher/Subject/Results.py:253-289 | no id gives 400 and an unknown assessment or quiz 404 "Assessment not found". A quiz whose Monthly is missing fails with 500 (its title is built from NULLs). Otherwise the details carry every selected field and the assessment's title, or the quiz's Monthly title |
| Results.UpsertBatch | src/Teacher/Subject/Results.py:388-413 | the loop yields the batch upsert, or nothing (rollback) iff some element lacks a key |
| Results.InsertQuizzes | src/Teacher/Subject/Results.py:99-111 | the quiz loop appends exactly the quizzes a Monthly gets |
| Results.ResultsStore.PlanAssessment | src/Teacher/Subject/Results.py:12-79 | the checks and queries before the insert produce the planned row or the error |
| Results.ResultsStore.CreateAssessment | src/Teacher/Subject/Results.py:10-125 | the tables and reply become those of the creation function, and consistency is kept |
| Results.ResultsStore.SubmitMarks | src/Teacher/Subject/Results.py:370-414 | the tables and reply become those of the submission function, and consistency is kept |
| Results.ResultsStore.GetAssessments | src/Teacher/Subject/Results.py:128-175 | no subject id gives 400. Otherwise the subject's assessments and quizzes are listed, each with its title |
| Results.TitleAssessments | src/Teacher/Subject/Results.py:147-151 | the loop lists every fetched assessment with its title, in order |
| Results.TitleQuizzes | src/Teacher/Subject/Results.py:166-170 | the loop lists every fetched quiz with its Monthly's title, in order |
| Results.GenerateReport | src/Teacher/Subject/Results.py:191-240 | a missing field gives 400. A row with a NULL or zero total fails with 500. Otherwise each row gets its exact percentage and six-band grade |
| ReportLayout.EffectiveTotal | testing.py:44 | the row's total if truthy, else the assessment's total if truthy, else 0 |
| ReportLayout.SafePercentage | testing.py:45 | obtained/total × 100 for a positive total, else 0: it never divides by zero |
| ReportLayout.FormatRow | testing.py:42-68 | a table line keeps the student's name, rfid and mark, with the effective total and the safe percentage |
| ReportLayout.FormatRowGrade | testing.py:48-59 | with a positive total a line reaches band g iff obtained × 100 ≥ threshold × total; with none it is F |
| ReportLayout.ExamTitleShape | testing.py:71-73 | the title is type + " Exam " + the block number, then " (date)" only when created_at is set |
| ReportLayout.LayoutDistinct | testing.py:74-79 | a laid-out run of writes never writes the same row and column twice |
| ReportLayout.DataLayout | testing.py:78-79 | the data lines fill rows start to start + n − 1, columns 0 to 5, no cell twice |
| ReportLayout.BlockLayout | testing.py:70-81 | a block stays inside its band of 4 + n rows from its title row, no cell twice |
| ReportLayout.ExamBlocksLayout | testing.py:26-81 | the blocks stay inside Σ(4 + nᵢ) rows from the start, no cell twice |
| ReportLayout.TitleRow | testing.py:74-81 | block k is titled "type Exam k" at column 0 of row start + Σ_{i<k}(4 + nᵢ) |
| ReportLayout.SecondTitleAfterThreeStudents | testing.py:74-81 | after a first block of three students the second title is on row 7 |
| ReportLayout.SubjectLayout | testing.py:107-182 | a subject's heading and blocks stay inside its band of rows, no cell twice |
| ReportLayout.SubjectBlocksLayout | testing.py:105-182 | the all-subjects sheet writes no cell twice, subject bands one after another |
| ReportLayout.EmptySubjectCells | testing.py:124-127 | a subject without assessments writes its heading and the message on the next row, and takes 4 rows |
| ReportLayout.EmptySubjectRows | testing.py:111-127 | in the sheet, such a subject's heading and message follow the earlier subjects' cells, and the next subject starts 4 rows lower |
| ReportLayout.Worksheet.Write | testing.py:74 | one write appends one cell |
| ReportLayout.Worksheet.WriteTable | testing.py:78-79 | the table write appends the header at startrow and one line per row below it, or nothing for no rows |
| ReportLayout.FormatMarks | testing.py:41-68 | the loop builds one formatted line per mark row, in order |
| ReportLayout.WriteExam | testing.py:70-81 | one block is written and the cursor advances by 1 + n + 3 |
| ReportLayout.WriteExams | testing.py:27-81 | the blocks numbered from 1 are written and the cursor ends Σ(4 + nᵢ) lower |
| ReportLayout.GenerateAssessmentExcel | testing.py:6-81 | no assessments means no sheet; otherwise the sheet holds exactly the blocks from row 0 |
| ReportLayout.WriteSubject | testing.py:107-182 | a subject's heading and message or blocks are written, and the cursor moves past its band |
| ReportLayout.GenerateAllSubjectsExcel | testing.py:86-182 | no subjects means no sheet; otherwise the sheet holds exactly the subject bands from row 0 |
| AdminResult.MonthsAreTheKeys | src/admin/Result.py:81-85 | the dict has a key exactly for each month that occurs, each once |
| AdminResult.MonthsInFirstOccurrenceOrder | src/admin/Result.py:81-85 | keys appear in the order of their months' first rows |
| AdminResult.SelectIsFilter | src/admin/Result.py:81-85 | every row is in its own month's group; a month with no row has an empty group |
| AdminResult.GroupSizesSum | src/admin/Result.py:81-85 | the group sizes add up to the number of rows |
| AdminResult.GroupByMonth | src/admin/Result.py:81-85 | the loop builds the month dict with the keys in first-occurrence order and each group in fetch order |
| AdminResult.ZeroIfNull | src/admin/Result.py:79 | NULL becomes 0 and any other value is kept |
| AdminResult.ZeroNullQuizMarks | src/admin/Result.py:78-79 | the loop replaces each NULL quiz mark by 0 in place and changes nothing else |
| AdminResult.ZeroNullAssessmentMarks | src/admin/Result.py:122-123 | the loop replaces each NULL assessment mark by 0 in place and changes nothing else |
| AdminResult.GetAssessmentMonthly | src/admin/Result.py:48-88 | a missing student_id gives 400. Otherwise the rows are zeroed and grouped by month |
| AdminResult.GetAssessmentElse | src/admin/Result.py:94-132 | a missing student_id or type gives 400. Otherwise the rows are zeroed and grouped by month |
| AdminResult.MonthlyReplyGroups | src/admin/Result.py:76-88 | each fetched row is in the group of its month, without month_year, with a NULL quiz mark as 0 |
| AdminResult.GetStudents | src/admin/Result.py:8-28 | 400 without campus_id, 404 on an empty result, else one renamed record per row in order |
| Assignments.FetchKeepsListedFiles | src/Teacher/Subject/Assignments.py:37-43 | the IN query keeps every attachment of a listed assignment, in order |
| Assignments.BuildAttachmentMap | src/Teacher/Subject/Assignments.py:44-49 | the map gives each assignment id exactly its attachments in fetch order; absent ids have none |
| Assignments.GetSubjectAssignments | src/Teacher/Subject/Assignments.py:9-56 | each assignment gets exactly its attachments in fetch order, or [] when it has none |
| Assignments.SetGrade | src/Teacher/Subject/Assignments.py:96-102 | the update grades the rows with that id and keeps every other row |
| Assignments.GradeEffect | src/Teacher/Subject/Assignments.py:84-107 | no grade gives 400 and an unknown id 404, both unchanged. Otherwise only that submission gets the grade, the feedback (default '') and status 'graded' |
| Assignments.GradeIdempotent | src/Teacher/Subject/Assignments.py:96-102 | grading twice with the same body equals grading once |
| Assignments.SubmissionTable.GradeSubmission | src/Teacher/Subject/Assignments.py:84-107 | the table and reply become those of the grading function |
| Attendance.Slice | src/Teacher/Subject/Attendance.py:35-40 | the query returns exactly the rows of that subject and date |
| Attendance.Without | src/Teacher/Subject/Attendance.py:60-61 | the DELETE keeps exactly the rows outside the (subject, date) slice |
| Attendance.SliceOfWithout | src/Teacher/Subject/Attendance.py:60-61 | after the DELETE the deleted slice is empty and every other slice is unchanged |
| Attendance.GetSubjectAttendance | src/Teacher/Subject/Attendance.py:29-45 | no date gives 400; otherwise rfid and status of exactly the slice's rows, in order |
| Attendance.MissingKey | src/Teacher/Subject/Attendance.py:69-76 | a record raises iff it lacks rfid, time or attendance_status |
| Attendance.FirstIncomplete | src/Teacher/Subject/Attendance.py:69-79 | the loop stops at the first record lacking a key, or runs through all |
| Attendance.Inserted | src/Teacher/Subject/Attendance.py:64-76 | one row per record, in record order, with the subject, date, rfid, time and status |
| Attendance.SaveRejectsIncompleteBody | src/Teacher/Subject/Attendance.py:51-53 | a missing body, date or records gives 400 and the table is unchanged |
| Attendance.SaveSlice | src/Teacher/Subject/Attendance.py:58-78 | after a successful save the slice is one row per record, with its rfid, time and status, in order |
| Attendance.SaveKeepsOtherSlices | src/Teacher/Subject/Attendance.py:58-80 | whatever the outcome, rows of any other subject or date are unchanged |
| Attendance.SaveFailsPartway | src/Teacher/Subject/Attendance.py:58-80 | a record lacking a key gives 500 after the delete and the earlier inserts, with no rollback |
| Attendance.SaveIdempotent | src/Teacher/Subject/Attendance.py:58-78 | saving the same payload twice leaves the table as saving it once |
| Attendance.AttendanceTable.SaveSubjectAttendance | src/Teacher/Subject/Attendance.py:48-80 | the delete and the insert loop leave the table and reply of the save function |
| Avatars.Avatar | src/Teacher/Subject/Queries.py:9-13 | no or empty name gives 👤; otherwise 👩‍🎓 iff the upper-cased first character is A, E, I, O or U, else 👨‍🎓 |
| Avatars.AvatarOfFirstLetter | src/Teacher/Subject/Queries.py:12-13 | the avatar depends only on the first character, up to case |
| Avatars.VowelAvatarIff | src/Teacher/Subject/Chat.py:9-13 | the vowel avatar goes exactly to names starting with a, e, i, o, u in either case, or the dotless i |
| Queries.ListQueries | src/Teacher/Subject/Queries.py:16-41 | one view per fetched query, in order, with its answer as response and the avatar of the student's name: 👤 iff the name is empty, else the vowel rule |
| Queries.SetAnswer | src/Teacher/Subject/Queries.py:56-62 | the update sets answer, status 'answered' and update time on that id and keeps every other row |
| Queries.RespondEffect | src/Teacher/Subject/Queries.py:44-68 | an empty response gives 400 and an unknown id 404, both without update. Otherwise only that query is answered and 'answered' is echoed |
| Queries.RespondAnswers | src/Teacher/Subject/Queries.py:56-68 | after a successful answer the query is stored answered with that text |
| Queries.RespondIdempotent | src/Teacher/Subject/Queries.py:56-62 | answering twice with the same text and time equals answering once |
| Queries.QueryTable.RespondToQuery | src/Teacher/Subject/Queries.py:44-68 | the table and reply become those of the answer function |
| Chat.FindRoom | src/Teacher/Subject/Chat.py:19 | the lookup returns the id of a room of the subject, or none iff it has none |
| Chat.GetRoomEffect | src/Teacher/Subject/Chat.py:17-26 | the id returned is the subject's room. An existing room means no insert; otherwise one room is appended. One room per subject is kept |
| Chat.GetRoomIdempotent | src/Teacher/Subject/Chat.py:17-26 | a second request returns the same room id and adds no room |
| Chat.View | src/Teacher/Subject/Chat.py:48-56 | a listed message has its sender's name and role, is_teacher iff the role is 'teacher', and the name's avatar |
| Chat.RoomMessagesExact | src/Teacher/Subject/Chat.py:36-46 | the listing holds exactly the room's messages whose sender is a user |
| Chat.SentBy | src/Teacher/Subject/Chat.py:79-88 | the reply echoes the request. An unknown sender reads 'Unknown', 'student', not a teacher, 👤. is_teacher iff a known sender's role is 'teacher' |
| Chat.SendEffect | src/Teacher/Subject/Chat.py:66-77 | a missing text, room_id or sender_rfid gives 400 and stores nothing. Otherwise exactly one message with those values is appended |
| Chat.ChatStore.GetChatRoom | src/Teacher/Subject/Chat.py:17-26 | the rooms and the id become those of the get-or-create function, and one room per subject is kept |
| Chat.ChatStore.GetMessages | src/Teacher/Subject/Chat.py:30-59 | no room_id gives 400; otherwise the loop returns the room's listing |
| Chat.ChatStore.SendMessage | src/Teacher/Subject/Chat.py:63-89 | the messages and reply become those of the send function |

## Left out

- HTTP plumbing is not modelled: blueprints, `jsonify`, request parsing, CORS and routing (`app.py`). Requests and replies are datatypes. A request body that is not JSON at all is not modelled, except where the handler tests `not data`.
- SQL text and the `Database` wrapper are replaced by in-memory tables. Joins are modelled only where the handler's logic depends on them: a quiz's owning assessment, the chat users join, and the attachment `IN` filter. Other joins are taken as given fetched rows: the student joins of the marks queries and reports, and the queries/students join. `ORDER BY`, `LIMIT`, `DATE_FORMAT`, `MONTH()` and `YEAR()` are left out. Rows arrive in the order the model is given; month, year and `month_year` are record fields.
- `get_assessment_students`, `get_assessment_types`, `get_subject_students` (Attendance.py) and `get_assignment_submissions` are left out. Their whole logic is a SQL query with a direct field mapping.
- The marks column spelling mismatch (`marks_acheived` vs `marks_achieved`) is a schema problem. The model uses one field.
- Floating point is left out: `round(percentage, 2)` and float representation. Percentages are exact reals.
- Dates are opaque. `strptime` is a `Field` that is either converted or malformed. `strftime`/`isoformat` output is given text, and `datetime.now()`/`utcnow()` are parameters.
- Transactions are modelled as commit-or-nothing per handler. Database-level failures (connection errors, constraint violations) are not modelled. Only failures the handler's own code raises are: a missing key in a batch element or attendance record, and a NULL or zero divisor.
- Concurrent requests and cross-request sequence races are not modelled.
- pandas and xlsxwriter internals and file output are left out, as are the module-level call at the end of `testing.py` and the `print`s. A table write is a header row at `startrow` then one row per line. Titles, headings and messages are written in column 0; table cells go in columns 0 to 5. An empty table writes no cells. The model writes a table's cells row by row, while pandas emits them column by column; only their positions are claimed (bands of rows, no cell written twice), not the order of the calls.
- Avatars.Upper: only the characters whose Python upper case is A, E, I, O or U are mapped. Every other character keeps its case, which gives the same vowel test.
- Results.GetAssessmentDetails: takes `is_quiz` as the boolean `.lower() == 'true'` gives; the text of the query argument is not modelled. The 500 body's message text, built from the Python exception, is not modelled either.
- JSON `null` values for present keys are not modelled. Examples: a `date` of `null` in an attendance save, or `text: null` in a chat message. A key is either absent or carries a value.
- The chat users table is a map keyed by rfid, so a duplicated rfid in `users` is not modelled. `room_id` query arguments are taken as the integer they denote.
- Auto-increment ids are counters in the model, starting at 1 in every table the model creates empty.
- Not part of this model: `src/Teacher/Subject/Subjects.py` and `src/Teacher/Teacher.py`, whose logic is SQL aggregates, a float attendance rate and random room names; `src/admin/Campus.py`, a query wrapper; and `src/admin/ReportDownload.py`, which does file writes and a database insert.
