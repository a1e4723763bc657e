/**
 * The `POST` handler of web/src/app/api/solve/route.ts with the store and the solver
 * service as parameters: it reads the request, assembles the solver input, calls the
 * solver and either rejects the reply or returns the rows it would persist.
 */
module SolveRoute {
  import opened Opt
  import opened Json
  import opened Seqs
  import opened Store
  import opened Parallels
  import opened AssignmentKeys
  import opened SolveRequest
  import opened Reconcile

  /** What the solver service call gave: a reply body, or an exception with its message. */
  datatype SolverCall = Reply(data: Option<SolverReply>) | TransportError(message: string)

  /** The handler's JSON response. */
  datatype Response =
    | Saved(scheduleId: int, count: int, objectiveScore: Option<int>, notes: Option<seq<string>>)  // ok: true
    | Rejected(status: int, rejectNotes: seq<string>)                                                // no lessons
    | Failed(status: int, error: string)                                                          // an exception

  /** The rows the handler's transaction inserts. */
  datatype Writes = Writes(schedule: Option<ScheduleRecord>, lessons: seq<LessonRow>)

  /**
   * The request body as sent: not JSON at all, the JSON literal `null`, or any other
   * JSON value, seen through its `term` and `config` properties (a number, a string
   * or an array has neither, and reads like `{}`).
   */
  datatype RawBody = NotJson | JsonNull | JsonBody(body: RequestBody)

  /**
   * `req.json().catch(() => ({}))`, then the first property read: a body that is not
   * JSON reads as `{}`; `null` is not caught there, so reading `body.term` on it
   * throws, which is `None` here.
   */
  function ReadBody(raw: RawBody): Option<RequestBody> {
    match raw
    case NotJson => Some(RequestBody(None, None))
    case JsonNull => None
    case JsonBody(body) => Some(body)
  }

  /** The message of the `TypeError` that reading `term` of `null` raises. */
  const NullBodyMessage: string := "Cannot read properties of null (reading 'term')"

  /** The assignment query: rows stored for the request term or without a term. */
  function TermAssignment(term: string): AssignmentRow -> Option<AssignmentRow> {
    (a: AssignmentRow) => if a.term == Some(term) || a.term.None? then Some(a) else None
  }

  /** The parallel-row query: the rows of the request term, as edges. */
  function TermEdge(term: string): ParallelRow -> Option<Edge> {
    (p: ParallelRow) => if p.term == term then Some(Edge(p.groupAId, p.groupBId)) else None
  }

  /**
   * The assignment query keeps, in stored order, exactly the rows stored under the
   * request term and the rows stored without a term.
   */
  lemma TermAssignmentsSelected(rows: seq<AssignmentRow>, term: string)
    ensures var sel, idx := FilterMap(TermAssignment(term), rows), KeptIndices(TermAssignment(term), rows);
      && |sel| == |idx| && StrictlyIncreasing(idx)
      && (forall k :: 0 <= k < |sel| ==> sel[k] == rows[idx[k]])
      && (forall i :: 0 <= i < |rows| ==> (i in idx <==> rows[i].term == Some(term) || rows[i].term.None?))
  {
    FilterMapAt(TermAssignment(term), rows);
  }

  /** The parallel-row query keeps, in stored order, exactly the rows of the request term. */
  lemma TermEdgesSelected(rows: seq<ParallelRow>, term: string)
    ensures var sel, idx := FilterMap(TermEdge(term), rows), KeptIndices(TermEdge(term), rows);
      && |sel| == |idx| && StrictlyIncreasing(idx)
      && (forall k :: 0 <= k < |sel| ==> sel[k] == Edge(rows[idx[k]].groupAId, rows[idx[k]].groupBId))
      && (forall i :: 0 <= i < |rows| ==> (i in idx <==> rows[i].term == term))
  {
    FilterMapAt(TermEdge(term), rows);
  }

  /** The solver input the handler assembles from a snapshot of the store. */
  function InputFor(body: RequestBody, store: Snapshot, env: Option<int>, decode: string -> Option<JsonValue>): InputDocument {
    var term := RequestTerm(body.term);
    BuildInput(store.timeslots, store.rooms, store.teachers, store.subjects, store.groups,
               FilterMap(TermAssignment(term), store.assignments),
               Adjacency(FilterMap(TermEdge(term), store.parallels)),
               MergeConfig(body.config, env), decode)
  }

  /** The document only reads the parallel map through lookups, so maps with equal entries give equal documents. */
  lemma BuildInputSameMap(
    timeslots: seq<TimeslotRow>, rooms: seq<RoomRow>, teachers: seq<TeacherRow>,
    subjects: seq<SubjectRow>, groups: seq<GroupRow>, assignments: seq<AssignmentRow>,
    m: map<int, seq<int>>, m': map<int, seq<int>>, config: SolverConfig,
    decode: string -> Option<JsonValue>)
    requires SameMap(m, m')
    ensures BuildInput(timeslots, rooms, teachers, subjects, groups, assignments, m, config, decode)
         == BuildInput(timeslots, rooms, teachers, subjects, groups, assignments, m', config, decode)
  {
    var d := BuildInput(timeslots, rooms, teachers, subjects, groups, assignments, m, config, decode);
    var d' := BuildInput(timeslots, rooms, teachers, subjects, groups, assignments, m', config, decode);
    assert forall i :: 0 <= i < |groups| ==> d.groups[i] == d'.groups[i];
    assert d.groups == d'.groups;
  }

  /**
   * In the assembled document, a group's `parallelWithIds` lists `h` exactly when a
   * parallel row of the request term links the group and `h`, in either direction.
   */
  lemma InputParallelsLinked(body: RequestBody, store: Snapshot, env: Option<int>,
                             decode: string -> Option<JsonValue>, i: nat, h: int)
    requires i < |store.groups|
    ensures var doc := InputFor(body, store, env, decode);
      var edges := FilterMap(TermEdge(RequestTerm(body.term)), store.parallels);
      && |doc.groups| == |store.groups|
      && (h in doc.groups[i].parallelWithIds <==> Linked(edges, store.groups[i].id, h))
  {
    var edges := FilterMap(TermEdge(RequestTerm(body.term)), store.parallels);
    var g := store.groups[i].id;
    AdjacencyKeys(edges);
    AdjacencyLinks(edges);
    if Linked(edges, g, h) {
      LinkedMentioned(edges, g, h);
    }
  }

  /**
   * `POST`. A `null` body answers 500 with the `TypeError`'s message before anything
   * is read or written. Otherwise the solver is consulted once, on the document built from the snapshot;
   * a transport failure answers 500 with its message and writes nothing; a reply
   * without lessons answers 400 with its notes and writes nothing; otherwise one
   * schedule row under `newScheduleId` and one lesson row per returned lesson, in
   * order, are written, each lesson row pointing at the last stored assignment with
   * its subject, teacher and group under the request term.
   */
  method Post(
    rawBody: RawBody, store: Snapshot, env: Option<int>,
    decode: string -> Option<JsonValue>, solver: InputDocument -> SolverCall, newScheduleId: int)
    returns (response: Response, writes: Writes)
    ensures rawBody.JsonNull? ==> response == Failed(500, NullBodyMessage) && writes == Writes(None, [])
    ensures ReadBody(rawBody).Some? ==>
      var body := ReadBody(rawBody).value;
      var term := RequestTerm(body.term);
      var assignments := FilterMap(TermAssignment(term), store.assignments);
      match solver(InputFor(body, store, env, decode))
      case TransportError(msg) =>
        response == Failed(500, msg) && writes == Writes(None, [])
      case Reply(data) =>
        match CheckReply(data)
        case Reject(notes) =>
          response == Rejected(400, notes) && writes == Writes(None, [])
        case Accept(lessons) =>
          && response == Saved(newScheduleId, |lessons|, data.value.objectiveScore, data.value.notes)
          && writes.schedule == Some(ScheduleRecord(newScheduleId, term, data.value.notes.GetOr([])))
          && |writes.lessons| == |lessons|
          && forall i :: 0 <= i < |lessons| ==>
               writes.lessons[i] == LessonRow(
                 newScheduleId, lessons[i].subjectId, lessons[i].teacherId, lessons[i].groupId,
                 lessons[i].roomId, lessons[i].timeslotId,
                 LastMatch(assignments, lessons[i].subjectId, lessons[i].teacherId, lessons[i].groupId, term))
  {
    var read := ReadBody(rawBody);
    if read.None? {
      return Failed(500, NullBodyMessage), Writes(None, []);  // body.term on null throws
    }
    var body := read.value;
    var term := RequestTerm(body.term);
    var assignments := FilterMap(TermAssignment(term), store.assignments);
    var assignmentMap := BuildAssignmentMap(assignments);
    var edges := FilterMap(TermEdge(term), store.parallels);
    var parallelMap := BuildGroupParallels(edges);
    var input := BuildInput(store.timeslots, store.rooms, store.teachers, store.subjects, store.groups,
                            assignments, parallelMap, MergeConfig(body.config, env), decode);
    BuildInputSameMap(store.timeslots, store.rooms, store.teachers, store.subjects, store.groups,
                      assignments, parallelMap, Adjacency(edges), MergeConfig(body.config, env), decode);
    var call := solver(input);
    if call.TransportError? {
      return Failed(500, call.message), Writes(None, []);
    }
    var data := call.data;
    var verdict := CheckReply(data);
    if verdict.Reject? {
      return Rejected(400, verdict.notes), Writes(None, []);
    }
    var lessons := verdict.lessons;
    var schedule := ScheduleRecord(newScheduleId, term, data.value.notes.GetOr([]));
    var lessonRows := LessonRows(lessons, schedule.id, assignmentMap, term);
    LessonRowsAssignments(lessons, schedule.id, assignments, term);
    writes := Writes(Some(schedule), lessonRows);
    response := Saved(schedule.id, |lessons|, data.value.objectiveScore, data.value.notes);
  }
}
