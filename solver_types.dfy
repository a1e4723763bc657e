/**
 * The solver service's request and reply models (the pydantic classes of
 * web/solver/main.py), and the "class" tuple the solver schedules.
 */
module SolverTypes {
  import opened Opt

  datatype Unavail = Unavail(day: string, slotIndexes: seq<int>)
  datatype Teacher = Teacher(id: int, name: string, maxHoursPerWeek: int, unavailable: seq<Unavail>)
  datatype Subject = Subject(id: int, code: string, name: string, requiresRoomType: Option<string>)
  datatype Room = Room(id: int, name: string, capacity: int, roomType: string)
  datatype Group = Group(id: int, name: string, size: int)
  datatype Assignment = Assignment(id: int, subjectId: int, teacherId: int, groupId: int, requiredPeriods: int)
  datatype Timeslot = Timeslot(id: int, day: string, index: int)

  datatype SolveInput = SolveInput(
    term: string, teachers: seq<Teacher>, subjects: seq<Subject>, rooms: seq<Room>,
    groups: seq<Group>, assignments: seq<Assignment>, timeslots: seq<Timeslot>)

  datatype Lesson = Lesson(subjectId: int, teacherId: int, groupId: int, roomId: int, timeslotId: int)

  datatype SolveOutput = SolveOutput(lessons: seq<Lesson>, objectiveScore: Option<int>, notes: Option<seq<string>>)

  /** One period to place: `(subjectId, teacherId, groupId, assignId)`. */
  datatype Class = Class(subjectId: int, teacherId: int, groupId: int, assignId: int)

  /** A decision variable `X[(ci, ti, ri)]`: class `c` in timeslot `t` and room `r`, by position. */
  datatype Cell = Cell(c: nat, t: nat, r: nat)
}
