/**
 * The constraint and objective data `solve` in web/solver/main.py hands to CP-SAT:
 * the cells forced to zero by the room rule and by teacher unavailability, and the
 * cells of the first-period penalty. A cell `Cell(c, t, r)` is the decision variable
 * `X[(ci, ti, ri)]`; lists of cells are kept in the order the source adds them.
 */
module SolverConstraints {
  import opened Opt
  import opened SolverTypes
  import opened SolverPrep

  // Cell lists in the shape of the source's nested loops.

  /** `for ri in range(nr)` at class `c` and timeslot `t`. */
  function AcrossRooms(c: nat, t: nat, nr: nat): seq<Cell> {
    seq(nr, (r: int) requires 0 <= r < nr => Cell(c, t, r))
  }

  /** `for ti in range(nt)` at class `c` and room `r`. */
  function AcrossSlots(c: nat, r: nat, nt: nat): seq<Cell> {
    seq(nt, (t: int) requires 0 <= t < nt => Cell(c, t, r))
  }

  /** For class `c`, the timeslots `t < k` that `keep` selects, each across `nr` rooms. */
  function SlotsWhere(c: nat, k: nat, nr: nat, keep: nat -> bool): seq<Cell> {
    if k == 0 then []
    else SlotsWhere(c, k - 1, nr, keep) + (if keep(k - 1) then AcrossRooms(c, k - 1, nr) else [])
  }

  /** For class `c`, the rooms `r < k` that `keep` selects, each across `nt` timeslots. */
  function RoomsWhere(c: nat, k: nat, nt: nat, keep: nat -> bool): seq<Cell> {
    if k == 0 then []
    else RoomsWhere(c, k - 1, nt, keep) + (if keep(k - 1) then AcrossSlots(c, k - 1, nt) else [])
  }

  /** The cells of classes `c < n`, class by class. */
  function PerClass(n: nat, part: nat -> seq<Cell>): seq<Cell> {
    if n == 0 then [] else PerClass(n - 1, part) + part(n - 1)
  }

  lemma SlotsWhereCells(c: nat, k: nat, nr: nat, keep: nat -> bool)
    ensures forall x: Cell :: x in SlotsWhere(c, k, nr, keep) <==> x.c == c && x.t < k && x.r < nr && keep(x.t)
  {
    if k > 0 {
      SlotsWhereCells(c, k - 1, nr, keep);
      forall x: Cell | x.c == c && x.t == k - 1 && x.r < nr
        ensures x in AcrossRooms(c, k - 1, nr)
      {
        assert AcrossRooms(c, k - 1, nr)[x.r] == x;
      }
    }
  }

  lemma RoomsWhereCells(c: nat, k: nat, nt: nat, keep: nat -> bool)
    ensures forall x: Cell :: x in RoomsWhere(c, k, nt, keep) <==> x.c == c && x.r < k && x.t < nt && keep(x.r)
  {
    if k > 0 {
      RoomsWhereCells(c, k - 1, nt, keep);
      forall x: Cell | x.c == c && x.r == k - 1 && x.t < nt
        ensures x in AcrossSlots(c, k - 1, nt)
      {
        assert AcrossSlots(c, k - 1, nt)[x.t] == x;
      }
    }
  }

  /** When every class's part holds only cells of that class, a cell is listed exactly when its own class's part lists it. */
  lemma {:induction false} PerClassCells(n: nat, part: nat -> seq<Cell>)
    requires forall c: nat, x :: x in part(c) ==> x.c == c
    ensures forall x: Cell :: x in PerClass(n, part) <==> x.c < n && x in part(x.c)
  {
    if n > 0 {
      PerClassCells(n - 1, part);
    }
  }

  /** The number of timeslots `t < k` that `keep` selects. */
  function CountWhere(k: nat, keep: nat -> bool): nat {
    if k == 0 then 0 else CountWhere(k - 1, keep) + (if keep(k - 1) then 1 else 0)
  }

  lemma {:induction false} SlotsWhereLength(c: nat, k: nat, nr: nat, keep: nat -> bool)
    ensures |SlotsWhere(c, k, nr, keep)| == nr * CountWhere(k, keep)
  {
    if k > 0 {
      SlotsWhereLength(c, k - 1, nr, keep);
      assert nr * CountWhere(k, keep) == nr * CountWhere(k - 1, keep) + (if keep(k - 1) then nr else 0);
    }
  }

  lemma {:induction false} PerClassLength(n: nat, part: nat -> seq<Cell>, len: nat)
    requires forall c: nat :: |part(c)| == len
    ensures |PerClass(n, part)| == n * len
  {
    if n > 0 {
      PerClassLength(n - 1, part, len);
      assert n * len == (n - 1) * len + len;
    }
  }

  // (4) The room rule.

  /** `r.capacity < size or (req_type and r.roomType != req_type)`: the room is unusable for the class. */
  predicate RoomExcluded(room: Room, requiredType: Option<string>, size: int) {
    room.capacity < size || (requiredType.Some? && requiredType.value != "" && room.roomType != requiredType.value)
  }

  /** Every class names a subject, a group and a teacher that the lookups hold. */
  predicate KeysPresent(classes: seq<Class>, maps: Lookups) {
    forall ci :: 0 <= ci < |classes| ==>
      classes[ci].subjectId in maps.subj && classes[ci].groupId in maps.group && classes[ci].teacherId in maps.teacher
  }

  /** The rooms excluded for class `c`; `false` past the classes, where no cell is asked about. */
  function ExcludedRooms(classes: seq<Class>, maps: Lookups, R: seq<Room>, c: nat): nat -> bool
    requires KeysPresent(classes, maps)
  {
    (r: nat) => c < |classes| && r < |R|
         && RoomExcluded(R[r], maps.subj[classes[c].subjectId].requiresRoomType, maps.group[classes[c].groupId].size)
  }

  function RoomPart(classes: seq<Class>, maps: Lookups, R: seq<Room>, nt: nat): nat -> seq<Cell>
    requires KeysPresent(classes, maps)
  {
    (c: nat) => RoomsWhere(c, |R|, nt, ExcludedRooms(classes, maps, R, c))
  }

  /** The cells of loop (4), in the order it adds them. */
  function RoomZeros(classes: seq<Class>, maps: Lookups, R: seq<Room>, nt: nat): seq<Cell>
    requires KeysPresent(classes, maps)
  {
    PerClass(|classes|, RoomPart(classes, maps, R, nt))
  }

  /** Loop (4): for each class and each excluded room, every timeslot's cell is fixed to 0. */
  method AddRoomZeros(classes: seq<Class>, maps: Lookups, R: seq<Room>, nt: nat) returns (zeros: seq<Cell>)
    requires KeysPresent(classes, maps)
    ensures zeros == RoomZeros(classes, maps, R, nt)
  {
    zeros := [];
    for ci := 0 to |classes|
      invariant zeros == PerClass(ci, RoomPart(classes, maps, R, nt))
    {
      var c := classes[ci];
      var reqType := maps.subj[c.subjectId].requiresRoomType;
      var size := maps.group[c.groupId].size;
      ghost var keep := ExcludedRooms(classes, maps, R, ci);
      ghost var before := zeros;
      for ri := 0 to |R|
        invariant zeros == before + RoomsWhere(ci, ri, nt, keep)
      {
        var r := R[ri];
        if r.capacity < size || (reqType.Some? && reqType.value != "" && r.roomType != reqType.value) {
          assert keep(ri);
          for ti := 0 to nt
            invariant zeros == before + RoomsWhere(ci, ri, nt, keep) + AcrossSlots(ci, ri, ti)
          {
            assert AcrossSlots(ci, ri, ti + 1) == AcrossSlots(ci, ri, ti) + [Cell(ci, ti, ri)];
            zeros := zeros + [Cell(ci, ti, ri)];
          }
        } else {
          assert !keep(ri);
        }
      }
    }
  }

  /**
   * The cells loop (4) fixes to zero are exactly the cells of a class, a timeslot
   * and a room too small for the class's group or not of the type its subject
   * requires.
   */
  lemma RoomZerosCells(classes: seq<Class>, maps: Lookups, R: seq<Room>, nt: nat)
    requires KeysPresent(classes, maps)
    ensures forall x: Cell :: x in RoomZeros(classes, maps, R, nt) <==>
      && x.c < |classes| && x.t < nt && x.r < |R|
      && RoomExcluded(R[x.r], maps.subj[classes[x.c].subjectId].requiresRoomType, maps.group[classes[x.c].groupId].size)
  {
    var part := RoomPart(classes, maps, R, nt);
    forall c: nat
      ensures forall x: Cell :: x in part(c) <==> x.c == c && x.r < |R| && x.t < nt && ExcludedRooms(classes, maps, R, c)(x.r)
    {
      RoomsWhereCells(c, |R|, nt, ExcludedRooms(classes, maps, R, c));
    }
    PerClassCells(|classes|, part);
  }

  // (5) Teacher unavailability.

  /** `ts.day == u.day and ts.index in u.slotIndexes`. */
  predicate Hits(u: Unavail, ts: Timeslot) {
    u.day == ts.day && ts.index in u.slotIndexes
  }

  /** Some record among the first `i` of `unavailable` rules timeslot `ts` out. */
  predicate HitBefore(unavailable: seq<Unavail>, i: nat, ts: Timeslot) {
    exists k :: 0 <= k < i && k < |unavailable| && Hits(unavailable[k], ts)
  }

  /** Some unavailability record rules timeslot `ts` out. */
  predicate Blocked(unavailable: seq<Unavail>, ts: Timeslot) {
    HitBefore(unavailable, |unavailable|, ts)
  }

  /** `forbidden_ts`: the positions of the timeslots that some record of the teacher rules out. */
  method ForbiddenSlots(unavailable: seq<Unavail>, T: seq<Timeslot>) returns (forbidden: set<nat>)
    ensures forall ti: nat :: ti in forbidden <==> ti < |T| && Blocked(unavailable, T[ti])
  {
    forbidden := {};
    for i := 0 to |unavailable|
      invariant forall ti: nat :: ti in forbidden <==> ti < |T| && HitBefore(unavailable, i, T[ti])
    {
      var u := unavailable[i];
      for ti := 0 to |T|
        invariant forall tj: nat :: tj in forbidden <==>
          tj < |T| && (HitBefore(unavailable, i, T[tj]) || (tj < ti && Hits(u, T[tj])))
      {
        var ts := T[ti];
        if ts.day == u.day && ts.index in u.slotIndexes {
          forbidden := forbidden + {ti};
        }
      }
      forall tj: nat | tj < |T|
        ensures HitBefore(unavailable, i + 1, T[tj]) <==> HitBefore(unavailable, i, T[tj]) || Hits(u, T[tj])
      {
        if HitBefore(unavailable, i + 1, T[tj]) && !Hits(u, T[tj]) {
          var k :| 0 <= k < i + 1 && k < |unavailable| && Hits(unavailable[k], T[tj]);
          assert k < i;
        }
      }
    }
  }

  /** The timeslots blocked for class `c`'s teacher; `false` past the classes. */
  function BlockedSlots(classes: seq<Class>, maps: Lookups, T: seq<Timeslot>, c: nat): nat -> bool
    requires KeysPresent(classes, maps)
  {
    (t: nat) => c < |classes| && t < |T| && Blocked(maps.teacher[classes[c].teacherId].unavailable, T[t])
  }

  function UnavailPart(classes: seq<Class>, maps: Lookups, T: seq<Timeslot>, nr: nat): nat -> seq<Cell>
    requires KeysPresent(classes, maps)
  {
    (c: nat) => SlotsWhere(c, |T|, nr, BlockedSlots(classes, maps, T, c))
  }

  /** The cells of loop (5), in the order it adds them (forbidden timeslots in ascending order). */
  function UnavailZeros(classes: seq<Class>, maps: Lookups, T: seq<Timeslot>, nr: nat): seq<Cell>
    requires KeysPresent(classes, maps)
  {
    PerClass(|classes|, UnavailPart(classes, maps, T, nr))
  }

  /** Loop (5): for each class, every room's cell at each forbidden timeslot is fixed to 0. */
  method AddUnavailZeros(classes: seq<Class>, maps: Lookups, T: seq<Timeslot>, nr: nat) returns (zeros: seq<Cell>)
    requires KeysPresent(classes, maps)
    ensures zeros == UnavailZeros(classes, maps, T, nr)
  {
    zeros := [];
    for ci := 0 to |classes|
      invariant zeros == PerClass(ci, UnavailPart(classes, maps, T, nr))
    {
      var t := maps.teacher[classes[ci].teacherId];
      var forbidden := ForbiddenSlots(t.unavailable, T);
      ghost var keep := BlockedSlots(classes, maps, T, ci);
      ghost var before := zeros;
      for ti := 0 to |T|
        invariant zeros == before + SlotsWhere(ci, ti, nr, keep)
      {
        if ti in forbidden {
          assert keep(ti);
          for ri := 0 to nr
            invariant zeros == before + SlotsWhere(ci, ti, nr, keep) + AcrossRooms(ci, ti, ri)
          {
            assert AcrossRooms(ci, ti, ri + 1) == AcrossRooms(ci, ti, ri) + [Cell(ci, ti, ri)];
            zeros := zeros + [Cell(ci, ti, ri)];
          }
        } else {
          assert !keep(ti);
        }
      }
    }
  }

  /**
   * The cells loop (5) fixes to zero are exactly the cells of a class, a room and a
   * timeslot that has the day of one of the teacher's unavailability records and an
   * index that record lists.
   */
  lemma UnavailZerosCells(classes: seq<Class>, maps: Lookups, T: seq<Timeslot>, nr: nat)
    requires KeysPresent(classes, maps)
    ensures forall x: Cell :: x in UnavailZeros(classes, maps, T, nr) <==>
      && x.c < |classes| && x.t < |T| && x.r < nr
      && Blocked(maps.teacher[classes[x.c].teacherId].unavailable, T[x.t])
  {
    var part := UnavailPart(classes, maps, T, nr);
    forall c: nat
      ensures forall x: Cell :: x in part(c) <==> x.c == c && x.t < |T| && x.r < nr && BlockedSlots(classes, maps, T, c)(x.t)
    {
      SlotsWhereCells(c, |T|, nr, BlockedSlots(classes, maps, T, c));
    }
    PerClassCells(|classes|, part);
  }

  // (6) The first-period penalty.

  function FirstPeriod(T: seq<Timeslot>): nat -> bool {
    (t: nat) => t < |T| && T[t].index == 1
  }

  function PenaltyPart(T: seq<Timeslot>, nr: nat): nat -> seq<Cell> {
    (c: nat) => SlotsWhere(c, |T|, nr, FirstPeriod(T))
  }

  /** The cells of `penalty`, in the order loop (6) appends them. */
  function Penalty(n: nat, T: seq<Timeslot>, nr: nat): seq<Cell> {
    PerClass(n, PenaltyPart(T, nr))
  }

  /** Loop (6): every cell whose timeslot has index 1 joins the penalty. */
  method AddPenalty(n: nat, T: seq<Timeslot>, nr: nat) returns (penalty: seq<Cell>)
    ensures penalty == Penalty(n, T, nr)
  {
    penalty := [];
    for ci := 0 to n
      invariant penalty == PerClass(ci, PenaltyPart(T, nr))
    {
      ghost var before := penalty;
      for ti := 0 to |T|
        invariant penalty == before + SlotsWhere(ci, ti, nr, FirstPeriod(T))
      {
        var ts := T[ti];
        if ts.index == 1 {
          for ri := 0 to nr
            invariant penalty == before + SlotsWhere(ci, ti, nr, FirstPeriod(T)) + AcrossRooms(ci, ti, ri)
          {
            assert AcrossRooms(ci, ti, ri + 1) == AcrossRooms(ci, ti, ri) + [Cell(ci, ti, ri)];
            penalty := penalty + [Cell(ci, ti, ri)];
          }
        }
      }
    }
  }

  /** The number of first periods, `|{t : t.index == 1}|`. */
  function FirstPeriodCount(T: seq<Timeslot>): nat {
    if T == [] then 0
    else FirstPeriodCount(T[..|T| - 1]) + (if T[|T| - 1].index == 1 then 1 else 0)
  }

  lemma {:induction false} CountFirstPeriods(T: seq<Timeslot>, k: nat)
    requires k <= |T|
    ensures CountWhere(k, FirstPeriod(T)) == FirstPeriodCount(T[..k])
  {
    if k > 0 {
      CountFirstPeriods(T, k - 1);
      assert T[..k][..k - 1] == T[..k - 1];
    }
  }

  /** The penalty lists exactly the cells whose timeslot has index 1. */
  lemma PenaltyCells(n: nat, T: seq<Timeslot>, nr: nat)
    ensures forall x: Cell :: x in Penalty(n, T, nr) <==> x.c < n && x.t < |T| && x.r < nr && T[x.t].index == 1
  {
    var part := PenaltyPart(T, nr);
    forall c: nat
      ensures forall x: Cell :: x in part(c) <==> x.c == c && x.t < |T| && x.r < nr && FirstPeriod(T)(x.t)
    {
      SlotsWhereCells(c, |T|, nr, FirstPeriod(T));
    }
    PerClassCells(n, part);
  }

  /** Each of those cells is listed once: there are `classes × first periods × rooms` entries. */
  lemma PenaltyLength(n: nat, T: seq<Timeslot>, nr: nat)
    ensures |Penalty(n, T, nr)| == n * FirstPeriodCount(T) * nr
  {
    var part := PenaltyPart(T, nr);
    var len := nr * FirstPeriodCount(T);
    CountFirstPeriods(T, |T|);
    assert T[..|T|] == T;
    forall c: nat
      ensures |part(c)| == len
    {
      SlotsWhereLength(c, |T|, nr, FirstPeriod(T));
    }
    PerClassLength(n, part, len);
    ProductReorder(n, FirstPeriodCount(T), nr);
  }

  lemma ProductReorder(a: nat, b: nat, c: nat)
    ensures a * (c * b) == a * b * c
  {
  }
}
