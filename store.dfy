/**
 * The stored records the solve route reads, as plain values. Optional columns are
 * `Option`s; `None` stands for a database `null`.
 */
module Store {
  import opened Opt
  import opened Json

  datatype TeacherRow = TeacherRow(
    id: int, name: Option<string>, maxHoursPerWeek: Option<int>,
    unavailableJson: JsonValue)  // the loosely typed unavailability column

  datatype SubjectRow = SubjectRow(id: int, name: Option<string>, requiresRoomType: Option<string>)

  datatype RoomRow = RoomRow(id: int, name: Option<string>, capacity: int, roomType: Option<string>)

  datatype GroupRow = GroupRow(id: int, name: Option<string>, size: int)

  datatype AssignmentRow = AssignmentRow(
    id: int, subjectId: int, teacherId: int, groupId: int,
    term: Option<string>, requiredPeriods: Option<int>)

  datatype TimeslotRow = TimeslotRow(id: int, day: string, index: int)

  /** A directed "must not overlap" row between two groups, recorded for one term. */
  datatype ParallelRow = ParallelRow(groupAId: int, groupBId: int, term: string)

  /** Everything the route reads from the store, in the order the store returns it. */
  datatype Snapshot = Snapshot(
    teachers: seq<TeacherRow>, subjects: seq<SubjectRow>, rooms: seq<RoomRow>,
    groups: seq<GroupRow>, assignments: seq<AssignmentRow>, timeslots: seq<TimeslotRow>,
    parallels: seq<ParallelRow>)
}
