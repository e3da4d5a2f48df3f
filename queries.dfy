// The student-query handlers of src/Teacher/Subject/Queries.py: listing a
// subject's queries and answering one.

module Queries {
  import opened Wrappers
  import opened Avatars

  /** A row of `queries`; `updatedAt` is the text of the last update time. */
  datatype QueryRow = QueryRow(id: int, subjectId: int, studentRfid: string, question: string,
                               status: string, answer: Option<string>, updatedAt: Option<string>)

  /** A row of the listing query joined with the student's name; the date is
      already in ISO form, or None for a NULL `created_at`. */
  datatype FetchedQuery = FetchedQuery(id: int, question: string, status: string, answer: Option<string>,
                                       createdAt: Option<string>, studentName: Option<string>)

  /** One query as GET /api/subjects/<id>/queries returns it. */
  datatype QueryView = QueryView(id: int, question: string, status: string, createdAt: Option<string>,
                                 studentName: Option<string>, studentAvatar: string, response: Option<string>)

  /** The list comprehension over the fetched rows: one view per row, in order,
      each carrying the avatar of its student and its answer as `response`. */
  function ListQueries(fetched: seq<FetchedQuery>): (views: seq<QueryView>)
    ensures |views| == |fetched|
    ensures forall i :: 0 <= i < |fetched| ==>
      var q, v := fetched[i], views[i];
      && v.id == q.id && v.question == q.question && v.status == q.status
      && v.createdAt == q.createdAt && v.studentName == q.studentName && v.response == q.answer
      && v.studentAvatar == Avatar(q.studentName)
      && (v.studentAvatar == Anonymous <==> Blank(q.studentName))
      && (!Blank(q.studentName) ==> (v.studentAvatar == VowelStudent <==> IsVowel(Upper(q.studentName.value[0]))))
  {
    seq(|fetched|, i requires 0 <= i < |fetched| =>
      var q := fetched[i];
      QueryView(q.id, q.question, q.status, q.createdAt, q.studentName, Avatar(q.studentName), q.answer))
  }

  // ---------------------------------------------------------------- respond

  /** The JSON reply of a successful answer. */
  datatype Answered = Answered(message: string, queryId: int, status: string)

  predicate Exists(rows: seq<QueryRow>, id: int)
  {
    exists i :: 0 <= i < |rows| && rows[i].id == id
  }

  /** The UPDATE: every row with that id gets the answer, status 'answered' and
      the update time; every other row is kept. */
  function SetAnswer(rows: seq<QueryRow>, id: int, answer: string, now: string): (r: seq<QueryRow>)
    ensures |r| == |rows|
    ensures forall i :: 0 <= i < |rows| && rows[i].id != id ==> r[i] == rows[i]
    ensures forall i :: 0 <= i < |rows| && rows[i].id == id ==>
      r[i] == rows[i].(answer := Some(answer), status := "answered", updatedAt := Some(now))
  {
    seq(|rows|, i requires 0 <= i < |rows| =>
        if rows[i].id == id then rows[i].(answer := Some(answer), status := "answered", updatedAt := Some(now))
        else rows[i])
  }

  /** respond_to_query on the table it updates; `now` is `datetime.utcnow()`. */
  function Respond(rows: seq<QueryRow>, id: int, response: Option<string>, now: string): (Reply<Answered>, seq<QueryRow>)
  {
    if Blank(response) then (Fail(400, "Response text is required"), rows)
    else if !Exists(rows, id) then (Fail(404, "Query not found"), rows)
    else (Ok(200, Answered("Response submitted successfully", id, "answered")),
          SetAnswer(rows, id, response.value, now))
  }

  /** A missing or empty response gives 400 and an unknown id 404, both without
      an update; otherwise exactly that query is answered and marked 'answered',
      and the reply echoes the id and the new status. */
  lemma RespondEffect(rows: seq<QueryRow>, id: int, response: Option<string>, now: string)
    ensures var (reply, rows') := Respond(rows, id, response, now);
      && (Blank(response) ==> reply == Fail(400, "Response text is required") && rows' == rows)
      && (!Blank(response) && !Exists(rows, id) ==> reply == Fail(404, "Query not found") && rows' == rows)
      && (reply.Ok? <==> !Blank(response) && Exists(rows, id))
      && (reply.Ok? ==> reply.body.queryId == id && reply.body.status == "answered" && |rows'| == |rows|)
      && (reply.Ok? ==> forall i :: 0 <= i < |rows| ==>
            if rows[i].id == id
            then (&& rows'[i].answer == response && rows'[i].status == "answered"
                  && rows'[i].question == rows[i].question && rows'[i].studentRfid == rows[i].studentRfid
                  && rows'[i].subjectId == rows[i].subjectId)
            else rows'[i] == rows[i])
  {
  }

  /** After a successful answer the query is found answered with that text. */
  lemma RespondAnswers(rows: seq<QueryRow>, id: int, response: Option<string>, now: string)
    requires Respond(rows, id, response, now).0.Ok?
    ensures var rows' := Respond(rows, id, response, now).1;
      exists i :: 0 <= i < |rows'| && rows'[i].id == id && rows'[i].status == "answered" && rows'[i].answer == response
  {
    var i :| 0 <= i < |rows| && rows[i].id == id;
    var rows' := Respond(rows, id, response, now).1;
    assert rows'[i].id == id;
  }

  /** Answering twice with the same text at the same time is the same as answering once. */
  lemma RespondIdempotent(rows: seq<QueryRow>, id: int, response: Option<string>, now: string)
    ensures var once := Respond(rows, id, response, now).1;
      Respond(once, id, response, now).1 == once
  {
    var once := Respond(rows, id, response, now).1;
    if !Blank(response) && Exists(rows, id) {
      var twice := Respond(once, id, response, now).1;
      var i :| 0 <= i < |rows| && rows[i].id == id;
      assert once[i].id == id;
      assert |twice| == |once|;
      forall j | 0 <= j < |once| ensures twice[j] == once[j] {
        assert once[j].id == rows[j].id;
      }
    }
  }

  /** The `queries` table. */
  class QueryTable {
    var rows: seq<QueryRow>

    constructor (rows: seq<QueryRow>)
      ensures this.rows == rows
    {
      this.rows := rows;
    }

    /** POST /api/queries/<query_id>/respond. */
    method RespondToQuery(queryId: int, response: Option<string>, now: string) returns (reply: Reply<Answered>)
      modifies this
      ensures (reply, rows) == Respond(old(rows), queryId, response, now)
    {
      if response.None? || response.value == "" {
        return Fail(400, "Response text is required");
      }
      var found := false;
      for i := 0 to |rows|
        invariant found <==> exists k :: 0 <= k < i && rows[k].id == queryId
      {
        if rows[i].id == queryId { found := true; }
      }
      if !found { return Fail(404, "Query not found"); }
      rows := SetAnswer(rows, queryId, response.value, now);
      reply := Ok(200, Answered("Response submitted successfully", queryId, "answered"));
    }
  }
}
