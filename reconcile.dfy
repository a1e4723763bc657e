/**
 * What the solve route does with the solver's reply: reject a reply without lessons,
 * or turn each returned lesson into a lesson row of the new schedule
 * (web/src/app/api/solve/route.ts).
 */
module Reconcile {
  import opened Opt
  import opened Store
  import opened AssignmentKeys

  datatype LessonOut = LessonOut(subjectId: int, teacherId: int, groupId: int, roomId: int, timeslotId: int)

  /**
   * The reply body; `lessons` is `None` when it is not an array, and `notes` is
   * `None` when missing or `null`.
   */
  datatype SolverReply = SolverReply(lessons: Option<seq<LessonOut>>, objectiveScore: Option<int>, notes: Option<seq<string>>)

  /** The outcome of checking a reply. */
  datatype Verdict = Reject(notes: seq<string>) | Accept(lessons: seq<LessonOut>)

  /**
   * `if (!data || !Array.isArray(data.lessons) || data.lessons.length === 0)`, with
   * `data?.notes ?? []`; `data` is `None` for a `null` body.
   */
  function CheckReply(data: Option<SolverReply>): (v: Verdict)
    ensures v.Reject? <==> data.None? || data.value.lessons.None? || data.value.lessons.value == []
    ensures v.Reject? && data.Some? ==> v.notes == data.value.notes.GetOr([])
    ensures v.Reject? && data.None? ==> v.notes == []
    ensures v.Accept? ==> v.lessons != [] && data.value.lessons == Some(v.lessons)
  {
    if data.None? then Reject([])
    else match data.value.lessons
      case Some(lessons) => if lessons == [] then Reject(data.value.notes.GetOr([])) else Accept(lessons)
      case None => Reject(data.value.notes.GetOr([]))
  }

  /** The schedule row created for an accepted reply. */
  datatype ScheduleRecord = ScheduleRecord(id: int, term: string, notes: seq<string>)

  /** One row of `lessonRows`. */
  datatype LessonRow = LessonRow(
    scheduleId: int, subjectId: int, teacherId: int, groupId: int, roomId: int, timeslotId: int,
    assignmentId: Option<int>)

  /** One returned lesson as a row of schedule `scheduleId`, with its assignment looked up. */
  function LessonRowOf(l: LessonOut, scheduleId: int, assignmentMap: map<string, int>, term: string): LessonRow {
    LessonRow(scheduleId, l.subjectId, l.teacherId, l.groupId, l.roomId, l.timeslotId,
              Lookup(assignmentMap, AssignmentKey(l.subjectId, l.teacherId, l.groupId, Some(term))))
  }

  /** `data.lessons.map(...)`. */
  function LessonRows(lessons: seq<LessonOut>, scheduleId: int, assignmentMap: map<string, int>, term: string): (rows: seq<LessonRow>)
    ensures |rows| == |lessons|
    ensures forall i :: 0 <= i < |rows| ==>
      && rows[i].scheduleId == scheduleId
      && rows[i].subjectId == lessons[i].subjectId && rows[i].teacherId == lessons[i].teacherId
      && rows[i].groupId == lessons[i].groupId && rows[i].roomId == lessons[i].roomId
      && rows[i].timeslotId == lessons[i].timeslotId
  {
    seq(|lessons|, i requires 0 <= i < |lessons| => LessonRowOf(lessons[i], scheduleId, assignmentMap, term))
  }

  /**
   * With the table built from `assignments`, each row's assignment is the last
   * assignment with the lesson's subject, teacher and group stored under the request
   * term, and none when there is no such assignment.
   */
  lemma LessonRowsAssignments(lessons: seq<LessonOut>, scheduleId: int, assignments: seq<AssignmentRow>, term: string)
    ensures var rows := LessonRows(lessons, scheduleId, KeyTable(assignments), term);
      forall i :: 0 <= i < |rows| ==>
        rows[i].assignmentId == LastMatch(assignments, lessons[i].subjectId, lessons[i].teacherId, lessons[i].groupId, term)
  {
    var rows := LessonRows(lessons, scheduleId, KeyTable(assignments), term);
    forall i | 0 <= i < |rows|
      ensures rows[i].assignmentId == LastMatch(assignments, lessons[i].subjectId, lessons[i].teacherId, lessons[i].groupId, term)
    {
      LookupIsLastMatch(assignments, lessons[i].subjectId, lessons[i].teacherId, lessons[i].groupId, term);
    }
  }
}
