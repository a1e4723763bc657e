/**
 * The request-side values the solve route derives before calling the solver: the
 * term, the merged solver configuration and the input document
 * (web/src/app/api/solve/route.ts).
 */
module SolveRequest {
  import opened Opt
  import opened Json
  import opened Strings
  import opened Store
  import opened Availability

  const DefaultTerm: string := "2025-T1"

  /** `body.term?.trim() || "2025-T1"`. */
  function RequestTerm(term: Option<string>): string {
    if term.Some? && Trim(term.value) != "" then Trim(term.value) else DefaultTerm
  }

  /**
   * The term is never empty. It is the default exactly when no term was sent or the
   * term is all whitespace; otherwise it is the sent term with the surrounding
   * whitespace cut off, and it neither starts nor ends with whitespace.
   */
  lemma RequestTermSpec(term: Option<string>) returns (i: nat, j: nat)
    ensures RequestTerm(term) != ""
    ensures (term.None? || forall k :: 0 <= k < |term.value| ==> IsJsWhitespace(term.value[k]))
        ==> RequestTerm(term) == DefaultTerm
    ensures term.Some? && (exists k :: 0 <= k < |term.value| && !IsJsWhitespace(term.value[k])) ==>
      && i < j <= |term.value|
      && RequestTerm(term) == term.value[i..j]
      && (forall k :: 0 <= k < i ==> IsJsWhitespace(term.value[k]))
      && (forall k :: j <= k < |term.value| ==> IsJsWhitespace(term.value[k]))
      && !IsJsWhitespace(RequestTerm(term)[0])
      && !IsJsWhitespace(RequestTerm(term)[|RequestTerm(term)| - 1])
  {
    i, j := 0, 0;
    if term.Some? {
      i, j := TrimSpec(term.value);
      TrimEmptyIff(term.value);
    }
  }

  /** The partial configuration a caller may send; `None` is a missing or `null` field. */
  datatype ConfigOverrides = ConfigOverrides(
    subjectPerDayLimit: Option<int>,
    avoidFirstPeriod: Option<bool>,
    avoidLastPeriod: Option<bool>,
    avoidIndices: Option<seq<int>>,
    solverTimeLimitSec: Option<int>,
    randomSeed: Option<int>,
    parallelPolicy: Option<string>)

  datatype SolverConfig = SolverConfig(
    subjectPerDayLimit: int,
    avoidFirstPeriod: bool,
    avoidLastPeriod: bool,
    avoidIndices: seq<int>,
    solverTimeLimitSec: int,
    randomSeed: Option<int>,
    parallelPolicy: string)

  /** The request body as read; a body that is not JSON reads as `{}`. */
  datatype RequestBody = RequestBody(term: Option<string>, config: Option<ConfigOverrides>)

  /**
   * `Number(process.env.SOLVER_TIME_LIMIT_SEC || 15)`, where `env` is the variable's
   * numeric value, `None` when it is unset or empty.
   */
  function EnvTimeLimit(env: Option<int>): int {
    env.GetOr(15)
  }

  /** The config block: each field is the caller's value unless missing, else its default. */
  function MergeConfig(overrides: Option<ConfigOverrides>, env: Option<int>): SolverConfig {
    var o := overrides.GetOr(ConfigOverrides(None, None, None, None, None, None, None));
    SolverConfig(
      o.subjectPerDayLimit.GetOr(1),
      o.avoidFirstPeriod.GetOr(true),
      o.avoidLastPeriod.GetOr(true),
      o.avoidIndices.GetOr([]),
      o.solverTimeLimitSec.GetOr(EnvTimeLimit(env)),
      o.randomSeed,
      o.parallelPolicy.GetOr("BLOCK"))
  }

  /** A complete set of overrides spelling out `c`. */
  function AsOverrides(c: SolverConfig): ConfigOverrides {
    ConfigOverrides(
      Some(c.subjectPerDayLimit), Some(c.avoidFirstPeriod), Some(c.avoidLastPeriod),
      Some(c.avoidIndices), Some(c.solverTimeLimitSec), c.randomSeed, Some(c.parallelPolicy))
  }

  /** Sending every field gives back exactly the configuration sent, whatever the environment. */
  lemma MergeCompleteOverrides(c: SolverConfig, env: Option<int>)
    ensures MergeConfig(Some(AsOverrides(c)), env) == c
  {
  }

  /**
   * With no config at all, every field takes its default: one lesson of a subject a
   * day, avoid the first and the last period, no avoided indices, the environment's
   * time limit or 15 seconds, no seed, and the "BLOCK" parallel policy.
   */
  lemma MergeDefaults(env: Option<int>)
    ensures MergeConfig(None, env) == SolverConfig(1, true, true, [], EnvTimeLimit(env), None, "BLOCK")
    ensures env.None? ==> MergeConfig(None, env).solverTimeLimitSec == 15
  {
  }

  /**
   * The merge goes field by field with `??`: a field the caller sent (any value,
   * `0`, `false`, `[]` and `""` included) is taken as sent, a missing one takes its
   * default, and the seed passes through whether sent or not.
   */
  lemma MergeFieldByField(o: ConfigOverrides, env: Option<int>)
    ensures var c := MergeConfig(Some(o), env);
      && (o.subjectPerDayLimit.Some? ==> c.subjectPerDayLimit == o.subjectPerDayLimit.value)
      && (o.subjectPerDayLimit.None? ==> c.subjectPerDayLimit == 1)
      && (o.avoidFirstPeriod.Some? ==> c.avoidFirstPeriod == o.avoidFirstPeriod.value)
      && (o.avoidFirstPeriod.None? ==> c.avoidFirstPeriod)
      && (o.avoidLastPeriod.Some? ==> c.avoidLastPeriod == o.avoidLastPeriod.value)
      && (o.avoidLastPeriod.None? ==> c.avoidLastPeriod)
      && (o.avoidIndices.Some? ==> c.avoidIndices == o.avoidIndices.value)
      && (o.avoidIndices.None? ==> c.avoidIndices == [])
      && (o.solverTimeLimitSec.Some? ==> c.solverTimeLimitSec == o.solverTimeLimitSec.value)
      && (o.solverTimeLimitSec.None? ==> c.solverTimeLimitSec == EnvTimeLimit(env))
      && (o.parallelPolicy.Some? ==> c.parallelPolicy == o.parallelPolicy.value)
      && (o.parallelPolicy.None? ==> c.parallelPolicy == "BLOCK")
      && c.randomSeed == o.randomSeed
  {
  }

  /**
   * `String(day).toUpperCase()`: the stored day character by character, each
   * lower-case letter replaced by its upper-case counterpart.
   */
  function DayToString(day: string): (r: string)
    ensures |r| == |day|
    ensures forall i :: 0 <= i < |r| ==> !IsLowerAscii(r[i])
    ensures forall i :: 0 <= i < |day| && !IsLowerAscii(day[i]) ==> r[i] == day[i]
    ensures forall i :: 0 <= i < |day| && IsLowerAscii(day[i]) ==> r[i] as int == day[i] as int - 32
  {
    ToUpper(day)
  }

  // The input document sent to the solver.

  datatype TimeslotIn = TimeslotIn(id: int, day: string, index: int)
  datatype RoomIn = RoomIn(id: int, name: Option<string>, capacity: int, roomType: Option<string>)
  datatype TeacherIn = TeacherIn(id: int, name: Option<string>, maxHoursPerWeek: Option<int>, unavailable: seq<Unavail>)
  datatype SubjectIn = SubjectIn(id: int, name: Option<string>, roomType: Option<string>)
  datatype GroupIn = GroupIn(id: int, name: Option<string>, size: int, parallelWithIds: seq<int>)
  datatype AssignmentIn = AssignmentIn(id: int, subjectId: int, teacherId: int, groupId: int, requiredPeriods: int)

  datatype InputDocument = InputDocument(
    timeslots: seq<TimeslotIn>, rooms: seq<RoomIn>, teachers: seq<TeacherIn>,
    subjects: seq<SubjectIn>, groups: seq<GroupIn>, assignments: seq<AssignmentIn>,
    config: SolverConfig)

  /** `s.requiresRoomType ? String(s.requiresRoomType) : undefined`. */
  function SubjectRoomType(required: Option<string>): Option<string> {
    if required.Some? && required.value != "" then required else None
  }

  /** `parallelMap.get(id) ?? []`. */
  function ParallelWith(parallelMap: map<int, seq<int>>, id: int): seq<int> {
    if id in parallelMap then parallelMap[id] else []
  }

  function TimeslotInput(t: TimeslotRow): TimeslotIn {
    TimeslotIn(t.id, DayToString(t.day), t.index)
  }

  function TeacherInput(t: TeacherRow, decode: string -> Option<JsonValue>): TeacherIn {
    TeacherIn(t.id, t.name, t.maxHoursPerWeek, ParsedUnavail(t.unavailableJson, decode))
  }

  function SubjectInput(s: SubjectRow): SubjectIn {
    SubjectIn(s.id, s.name, SubjectRoomType(s.requiresRoomType))
  }

  function GroupInput(g: GroupRow, parallelMap: map<int, seq<int>>): GroupIn {
    GroupIn(g.id, g.name, g.size, ParallelWith(parallelMap, g.id))
  }

  function AssignmentInput(a: AssignmentRow): AssignmentIn {
    AssignmentIn(a.id, a.subjectId, a.teacherId, a.groupId, a.requiredPeriods.GetOr(1))
  }

  /**
   * The `input` object: every list is the corresponding row list mapped element by
   * element, in the order the rows were read.
   */
  function BuildInput(
    timeslots: seq<TimeslotRow>, rooms: seq<RoomRow>, teachers: seq<TeacherRow>,
    subjects: seq<SubjectRow>, groups: seq<GroupRow>, assignments: seq<AssignmentRow>,
    parallelMap: map<int, seq<int>>, config: SolverConfig,
    decode: string -> Option<JsonValue>): (doc: InputDocument)
    ensures |doc.timeslots| == |timeslots| && |doc.rooms| == |rooms| && |doc.teachers| == |teachers|
    ensures |doc.subjects| == |subjects| && |doc.groups| == |groups| && |doc.assignments| == |assignments|
    ensures doc.config == config
  {
    InputDocument(
      seq(|timeslots|, i requires 0 <= i < |timeslots| => TimeslotInput(timeslots[i])),
      seq(|rooms|, i requires 0 <= i < |rooms| => RoomIn(rooms[i].id, rooms[i].name, rooms[i].capacity, rooms[i].roomType)),
      seq(|teachers|, i requires 0 <= i < |teachers| => TeacherInput(teachers[i], decode)),
      seq(|subjects|, i requires 0 <= i < |subjects| => SubjectInput(subjects[i])),
      seq(|groups|, i requires 0 <= i < |groups| => GroupInput(groups[i], parallelMap)),
      seq(|assignments|, i requires 0 <= i < |assignments| => AssignmentInput(assignments[i])),
      config)
  }

  /**
   * Each entry of the document describes the row at the same position: ids and the
   * other plain columns are copied, the day is the stored day upper-cased, a subject asks for a room type only when it stores a non-empty one, a
   * missing `requiredPeriods` becomes 1, the unavailability is the parsed column, and
   * a group's partners are its entry in the parallel map, or `[]` without one.
   */
  lemma BuildInputEntries(
    timeslots: seq<TimeslotRow>, rooms: seq<RoomRow>, teachers: seq<TeacherRow>,
    subjects: seq<SubjectRow>, groups: seq<GroupRow>, assignments: seq<AssignmentRow>,
    parallelMap: map<int, seq<int>>, config: SolverConfig,
    decode: string -> Option<JsonValue>)
    ensures var doc := BuildInput(timeslots, rooms, teachers, subjects, groups, assignments, parallelMap, config, decode);
      && (forall i :: 0 <= i < |timeslots| ==>
            && doc.timeslots[i].id == timeslots[i].id && doc.timeslots[i].index == timeslots[i].index
            && doc.timeslots[i].day == DayToString(timeslots[i].day))
      && (forall i :: 0 <= i < |rooms| ==>
            doc.rooms[i].id == rooms[i].id && doc.rooms[i].name == rooms[i].name
            && doc.rooms[i].capacity == rooms[i].capacity && doc.rooms[i].roomType == rooms[i].roomType)
      && (forall i :: 0 <= i < |teachers| ==>
            doc.teachers[i].id == teachers[i].id && doc.teachers[i].name == teachers[i].name
            && doc.teachers[i].maxHoursPerWeek == teachers[i].maxHoursPerWeek
            && doc.teachers[i].unavailable == ParsedUnavail(teachers[i].unavailableJson, decode))
      && (forall i :: 0 <= i < |subjects| ==>
            && doc.subjects[i].id == subjects[i].id && doc.subjects[i].name == subjects[i].name
            && (doc.subjects[i].roomType.Some? <==> subjects[i].requiresRoomType.Some? && subjects[i].requiresRoomType.value != "")
            && (doc.subjects[i].roomType.Some? ==> doc.subjects[i].roomType == subjects[i].requiresRoomType))
      && (forall i :: 0 <= i < |groups| ==>
            && doc.groups[i].id == groups[i].id && doc.groups[i].name == groups[i].name
            && doc.groups[i].size == groups[i].size
            && (groups[i].id in parallelMap ==> doc.groups[i].parallelWithIds == parallelMap[groups[i].id])
            && (groups[i].id !in parallelMap ==> doc.groups[i].parallelWithIds == []))
      && (forall i :: 0 <= i < |assignments| ==>
            && doc.assignments[i].id == assignments[i].id
            && doc.assignments[i].subjectId == assignments[i].subjectId
            && doc.assignments[i].teacherId == assignments[i].teacherId
            && doc.assignments[i].groupId == assignments[i].groupId
            && (assignments[i].requiredPeriods.None? ==> doc.assignments[i].requiredPeriods == 1)
            && (assignments[i].requiredPeriods.Some? ==> doc.assignments[i].requiredPeriods == assignments[i].requiredPeriods.value))
  {
  }
}
