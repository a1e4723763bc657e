/**
 * `solve` in web/solver/main.py: builds the CP-SAT model's data from the request,
 * asks the search (an oracle here) for a placement, and answers with the lessons of
 * that placement or with an empty, annotated result.
 */
module SolverMain {
  import opened Opt
  import opened Strings
  import opened SolverTypes
  import opened SolverPrep
  import opened SolverConstraints
  import opened SolverExtract

  /** No two cells valued 1 at one timeslot belong to classes listed under the same key. */
  ghost predicate NoClash(index: map<int, seq<nat>>, value: Cell -> int, nt: nat, nr: nat) {
    forall k, c: nat, c': nat, t: nat, r: nat, r': nat ::
      k in index && c in index[k] && c' in index[k] && t < nt && r < nr && r' < nr
      && value(Cell(c, t, r)) == 1 && value(Cell(c', t, r')) == 1
      ==> c == c' && r == r'
  }

  /**
   * The data of the model `solve` builds: the variable grid, the class lists of
   * constraints (2) and (3), the cells constraints (4) and (5) fix to zero, and the
   * cells whose sum the objective minimises.
   */
  datatype CpModel = CpModel(
    numClasses: nat, numSlots: nat, numRooms: nat,
    teacherClasses: map<int, seq<nat>>, groupClasses: map<int, seq<nat>>,
    roomZeros: seq<Cell>, unavailZeros: seq<Cell>, penalty: seq<Cell>)

  /**
   * A 0/1 valuation `value` of the cells meets every constraint of the model: each
   * class has exactly one cell at 1 (1), no teacher (2) and no group (3) has two cells
   * at 1 in one timeslot, and the cells of (4) and (5) are 0.
   */
  ghost predicate Satisfies(m: CpModel, value: Cell -> int) {
    && (forall c: nat :: c < m.numClasses ==> Placed(value, c, m.numSlots, m.numRooms))
    && NoClash(m.teacherClasses, value, m.numSlots, m.numRooms)
    && NoClash(m.groupClasses, value, m.numSlots, m.numRooms)
    && (forall x :: x in m.roomZeros ==> value(x) == 0)
    && (forall x :: x in m.unavailZeros ==> value(x) == 0)
  }

  datatype Status = Optimal | Feasible | Infeasible | Unknown | ModelInvalid

  /** What the search reports: a status, the valuation it found, and the objective value. */
  datatype SearchResult = SearchResult(status: Status, value: Cell -> int, objective: real)

  /** The model `solve` builds for the classes of a request whose ids all resolve. */
  function ModelFor(classes: seq<Class>, maps: Lookups, T: seq<Timeslot>, R: seq<Room>): CpModel
    requires KeysPresent(classes, maps)
  {
    CpModel(|classes|, |T|, |R|, IndexGroups(classes, TeacherOf), IndexGroups(classes, GroupOf),
            RoomZeros(classes, maps, R, |T|), UnavailZeros(classes, maps, T, |R|), Penalty(|classes|, T, |R|))
  }

  /** Python's `int(x)`: truncation toward zero. */
  function TruncToInt(x: real): (n: int)
    ensures x >= 0.0 ==> n as real <= x < n as real + 1.0
    ensures x < 0.0 ==> n as real - 1.0 < x <= n as real
  {
    if x >= 0.0 then x.Floor else -((-x).Floor)
  }

  /** The reply: a `SolveOutput`, or the `KeyError` a class with an unknown id raises. */
  datatype SolveReply = Replied(output: SolveOutput) | KeyError

  const NoFeasibleNote: string := "No feasible solution"

  /** The empty answer when the search finds no placement. */
  function NoFeasibleOutput(): SolveOutput {
    SolveOutput([], None, Some([NoFeasibleNote]))
  }

  /**
   * `solve`. It fails with `KeyError` exactly when a class names a subject, group or
   * teacher missing from the request. Otherwise it searches the model of the
   * request's classes once; unless the search reports `OPTIMAL` or `FEASIBLE` the
   * answer has no lessons and the note "No feasible solution"; else it carries the
   * lessons of the valuation found, the objective truncated to an integer, and the
   * note "classes=<number of classes>".
   */
  method Solve(inp: SolveInput, search: CpModel -> SearchResult) returns (reply: SolveReply)
    ensures var maps, classes := Maps(inp), Expanded(inp.assignments);
      && (reply.KeyError? <==> !KeysPresent(classes, maps))
      && (KeysPresent(classes, maps) ==>
            var res := search(ModelFor(classes, maps, inp.timeslots, inp.rooms));
            if res.status.Optimal? || res.status.Feasible? then
              reply == Replied(SolveOutput(
                Extracted(classes, inp.timeslots, inp.rooms, res.value, |classes|),
                Some(TruncToInt(res.objective)),
                Some(["classes=" + NatToString(|classes|)])))
            else
              reply == Replied(NoFeasibleOutput()))
  {
    var maps := Maps(inp);
    var classes := ExpandClasses(inp.assignments);
    var T := inp.timeslots;
    var R := inp.rooms;
    var teacherToClassIdx := IndexBy(classes, TeacherOf);
    var groupToClassIdx := IndexBy(classes, GroupOf);
    if !KeysPresent(classes, maps) {
      return KeyError;
    }
    var roomZeros := AddRoomZeros(classes, maps, R, |T|);
    var unavailZeros := AddUnavailZeros(classes, maps, T, |R|);
    var penalty := AddPenalty(|classes|, T, |R|);
    var model := CpModel(|classes|, |T|, |R|, teacherToClassIdx, groupToClassIdx, roomZeros, unavailZeros, penalty);
    var res := search(model);
    if !(res.status.Optimal? || res.status.Feasible?) {
      return Replied(SolveOutput([], None, Some(["No feasible solution"])));
    }
    var lessons := ExtractLessons(classes, T, R, res.value);
    var obj := res.objective;
    reply := Replied(SolveOutput(lessons, Some(TruncToInt(obj)), Some(["classes=" + NatToString(|classes|)])));
  }

  /**
   * Under a valuation that meets the model, the lesson of class `c` sits in a room
   * large enough for the class's group and of the type its subject requires, at a
   * timeslot none of the teacher's unavailability records rules out.
   */
  lemma PlacementRespectsRules(inp: SolveInput, value: Cell -> int, c: nat, t: nat, r: nat)
    requires KeysPresent(Expanded(inp.assignments), Maps(inp))
    requires Satisfies(ModelFor(Expanded(inp.assignments), Maps(inp), inp.timeslots, inp.rooms), value)
    requires c < |Expanded(inp.assignments)| && OnePlaced(value, c, |inp.timeslots|, |inp.rooms|, t, r)
    ensures var classes, maps, T, R := Expanded(inp.assignments), Maps(inp), inp.timeslots, inp.rooms;
      var lessons := Extracted(classes, T, R, value, |classes|);
      var req := maps.subj[classes[c].subjectId].requiresRoomType;
      && |lessons| == |classes|
      && lessons[c] == Lesson(classes[c].subjectId, classes[c].teacherId, classes[c].groupId, R[r].id, T[t].id)
      && R[r].capacity >= maps.group[classes[c].groupId].size
      && (req.Some? && req.value != "" ==> R[r].roomType == req.value)
      && !Blocked(maps.teacher[classes[c].teacherId].unavailable, T[t])
  {
    var classes, maps, T, R := Expanded(inp.assignments), Maps(inp), inp.timeslots, inp.rooms;
    ExtractedAt(classes, T, R, value, |classes|, c, t, r);
    RoomZerosCells(classes, maps, R, |T|);
    UnavailZerosCells(classes, maps, T, |R|);
    ghost var x := Cell(c, t, r);
    ghost var inRoomZeros := x in RoomZeros(classes, maps, R, |T|);
    ghost var inUnavailZeros := x in UnavailZeros(classes, maps, T, |R|);
  }

  /** Two classes both placed at timeslot position `t` are listed under different keys of a clash-free index. */
  lemma SharedKeyApart(classes: seq<Class>, key: Class -> int, value: Cell -> int, nt: nat, nr: nat,
                       c: nat, t: nat, r: nat, c': nat, t': nat, r': nat)
    requires NoClash(IndexGroups(classes, key), value, nt, nr)
    requires c < |classes| && c' < |classes| && c != c' && key(classes[c]) == key(classes[c'])
    requires t < nt && r < nr && t' < nt && r' < nr
    requires value(Cell(c, t, r)) == 1 && value(Cell(c', t', r')) == 1
    ensures t != t'
  {
    IndexGroupsCovers(classes, key);
  }

  /**
   * Under a valuation that meets the model, and with distinct timeslot ids, two
   * different lessons of the same teacher, or of the same group, are at different
   * timeslots.
   */
  lemma LessonsDoNotClash(inp: SolveInput, value: Cell -> int, i: nat, j: nat)
    requires KeysPresent(Expanded(inp.assignments), Maps(inp))
    requires Satisfies(ModelFor(Expanded(inp.assignments), Maps(inp), inp.timeslots, inp.rooms), value)
    requires forall a, b :: 0 <= a < b < |inp.timeslots| ==> inp.timeslots[a].id != inp.timeslots[b].id
    requires i < j < |Expanded(inp.assignments)|
    ensures var classes := Expanded(inp.assignments);
      var lessons := Extracted(classes, inp.timeslots, inp.rooms, value, |classes|);
      && |lessons| == |classes|
      && (lessons[i].teacherId == lessons[j].teacherId ==> lessons[i].timeslotId != lessons[j].timeslotId)
      && (lessons[i].groupId == lessons[j].groupId ==> lessons[i].timeslotId != lessons[j].timeslotId)
  {
    var classes, T, R := Expanded(inp.assignments), inp.timeslots, inp.rooms;
    assert Placed(value, i, |T|, |R|) && Placed(value, j, |T|, |R|);
    var t, r :| OnePlaced(value, i, |T|, |R|, t, r);
    var t', r' :| OnePlaced(value, j, |T|, |R|, t', r');
    ExtractedAt(classes, T, R, value, |classes|, i, t, r);
    ExtractedAt(classes, T, R, value, |classes|, j, t', r');
    if classes[i].teacherId == classes[j].teacherId {
      SharedKeyApart(classes, TeacherOf, value, |T|, |R|, i, t, r, j, t', r');
    }
    if classes[i].groupId == classes[j].groupId {
      SharedKeyApart(classes, GroupOf, value, |T|, |R|, i, t, r, j, t', r');
    }
  }
}
