/**
 * Lesson extraction in web/solver/main.py: after a successful search, one lesson for
 * every cell whose variable the solver set to 1, scanning classes, timeslots and rooms
 * in order.
 */
module SolverExtract {
  import opened SolverTypes

  /** The lesson for cell `x`: the class's ids with the room's and the timeslot's ids. */
  function LessonAt(classes: seq<Class>, T: seq<Timeslot>, R: seq<Room>, x: Cell): Lesson
    requires x.c < |classes| && x.t < |T| && x.r < |R|
  {
    Lesson(classes[x.c].subjectId, classes[x.c].teacherId, classes[x.c].groupId, R[x.r].id, T[x.t].id)
  }

  /** The lessons of class `c` at timeslot `t` in rooms `r < k`. */
  function RoomHits(classes: seq<Class>, T: seq<Timeslot>, R: seq<Room>, value: Cell -> int, c: nat, t: nat, k: nat): seq<Lesson>
    requires c < |classes| && t < |T| && k <= |R|
  {
    if k == 0 then []
    else RoomHits(classes, T, R, value, c, t, k - 1)
         + (if value(Cell(c, t, k - 1)) == 1 then [LessonAt(classes, T, R, Cell(c, t, k - 1))] else [])
  }

  /** The lessons of class `c` at timeslots `t < k`. */
  function SlotHits(classes: seq<Class>, T: seq<Timeslot>, R: seq<Room>, value: Cell -> int, c: nat, k: nat): seq<Lesson>
    requires c < |classes| && k <= |T|
  {
    if k == 0 then []
    else SlotHits(classes, T, R, value, c, k - 1) + RoomHits(classes, T, R, value, c, k - 1, |R|)
  }

  /** The lessons of classes `c < n`. */
  function Extracted(classes: seq<Class>, T: seq<Timeslot>, R: seq<Room>, value: Cell -> int, n: nat): seq<Lesson>
    requires n <= |classes|
  {
    if n == 0 then []
    else Extracted(classes, T, R, value, n - 1) + SlotHits(classes, T, R, value, n - 1, |T|)
  }

  /** The triple loop that appends a lesson for every variable valued 1. */
  method ExtractLessons(classes: seq<Class>, T: seq<Timeslot>, R: seq<Room>, value: Cell -> int) returns (lessons: seq<Lesson>)
    ensures lessons == Extracted(classes, T, R, value, |classes|)
  {
    lessons := [];
    for ci := 0 to |classes|
      invariant lessons == Extracted(classes, T, R, value, ci)
    {
      var cls := classes[ci];
      ghost var before := lessons;
      for ti := 0 to |T|
        invariant lessons == before + SlotHits(classes, T, R, value, ci, ti)
      {
        ghost var mid := lessons;
        for ri := 0 to |R|
          invariant lessons == mid + RoomHits(classes, T, R, value, ci, ti, ri)
        {
          if value(Cell(ci, ti, ri)) == 1 {
            lessons := lessons + [Lesson(cls.subjectId, cls.teacherId, cls.groupId, R[ri].id, T[ti].id)];
          }
        }
      }
    }
  }

  /** `(t, r)` is the one cell of class `c` valued 1 among `nt` timeslots and `nr` rooms. */
  ghost predicate OnePlaced(value: Cell -> int, c: nat, nt: nat, nr: nat, t: nat, r: nat) {
    && t < nt && r < nr && value(Cell(c, t, r)) == 1
    && forall t': nat, r': nat :: t' < nt && r' < nr && value(Cell(c, t', r')) == 1 ==> t' == t && r' == r
  }

  lemma {:induction false} RoomHitsOne(classes: seq<Class>, T: seq<Timeslot>, R: seq<Room>, value: Cell -> int,
                                       c: nat, t0: nat, k: nat, t: nat, r: nat)
    requires c < |classes| && t0 < |T| && k <= |R|
    requires OnePlaced(value, c, |T|, |R|, t, r)
    ensures RoomHits(classes, T, R, value, c, t0, k)
         == if t0 == t && r < k then [LessonAt(classes, T, R, Cell(c, t, r))] else []
  {
    if k > 0 {
      RoomHitsOne(classes, T, R, value, c, t0, k - 1, t, r);
    }
  }

  lemma {:induction false} SlotHitsOne(classes: seq<Class>, T: seq<Timeslot>, R: seq<Room>, value: Cell -> int,
                                       c: nat, k: nat, t: nat, x: Lesson)
    requires c < |classes| && k <= |T|
    requires forall t0: nat :: t0 < |T| ==> RoomHits(classes, T, R, value, c, t0, |R|) == if t0 == t then [x] else []
    ensures SlotHits(classes, T, R, value, c, k) == if t < k then [x] else []
  {
    if k > 0 {
      SlotHitsOne(classes, T, R, value, c, k - 1, t, x);
      OneAtEnd(SlotHits(classes, T, R, value, c, k - 1), RoomHits(classes, T, R, value, c, k - 1, |R|), x, t, k);
    }
  }

  /** A class with exactly one cell valued 1 contributes exactly the lesson of that cell. */
  lemma SlotHitsPlaced(classes: seq<Class>, T: seq<Timeslot>, R: seq<Room>, value: Cell -> int, c: nat, t: nat, r: nat)
    requires c < |classes|
    requires OnePlaced(value, c, |T|, |R|, t, r)
    ensures SlotHits(classes, T, R, value, c, |T|) == [LessonAt(classes, T, R, Cell(c, t, r))]
  {
    var x := LessonAt(classes, T, R, Cell(c, t, r));
    forall t0: nat | t0 < |T|
      ensures RoomHits(classes, T, R, value, c, t0, |R|) == if t0 == t then [x] else []
    {
      RoomHitsOne(classes, T, R, value, c, t0, |R|, t, r);
    }
    SlotHitsOne(classes, T, R, value, c, |T|, t, x);
  }

  /** Splicing a run that holds `x` before position `k - 1` with one that holds it at `k - 1`. */
  lemma OneAtEnd(prev: seq<Lesson>, last: seq<Lesson>, x: Lesson, t: nat, k: nat)
    requires k > 0
    requires prev == (if t < k - 1 then [x] else [])
    requires last == (if t == k - 1 then [x] else [])
    ensures prev + last == if t < k then [x] else []
  {
    if t >= k {
      assert prev + last == [];
    }
  }

  /** Class `c` has exactly one cell valued 1. */
  ghost predicate Placed(value: Cell -> int, c: nat, nt: nat, nr: nat) {
    exists t: nat, r: nat :: OnePlaced(value, c, nt, nr, t, r)
  }

  /** Every class `c < n` contributes exactly one lesson. */
  ghost predicate OneEach(classes: seq<Class>, T: seq<Timeslot>, R: seq<Room>, value: Cell -> int, n: nat)
    requires n <= |classes|
  {
    forall c: nat :: c < n ==> |SlotHits(classes, T, R, value, c, |T|)| == 1
  }

  /** When each class contributes one lesson, the lesson at position `c` is class `c`'s. */
  lemma {:induction false} ExtractedIndex(classes: seq<Class>, T: seq<Timeslot>, R: seq<Room>, value: Cell -> int, n: nat)
    requires n <= |classes| && OneEach(classes, T, R, value, n)
    ensures |Extracted(classes, T, R, value, n)| == n
    ensures forall c: nat :: c < n ==> Extracted(classes, T, R, value, n)[c] == SlotHits(classes, T, R, value, c, |T|)[0]
  {
    if n > 0 {
      ExtractedIndex(classes, T, R, value, n - 1);
      var e0 := Extracted(classes, T, R, value, n - 1);
      var last := SlotHits(classes, T, R, value, n - 1, |T|);
      assert |last| == 1;
      assert Extracted(classes, T, R, value, n) == e0 + last;
      forall c: nat | c < n
        ensures (e0 + last)[c] == SlotHits(classes, T, R, value, c, |T|)[0]
      {
        if c == n - 1 {
          assert (e0 + last)[c] == last[0];
        }
      }
    }
  }

  /**
   * When every class has exactly one cell valued 1 (constraint (1) of the model),
   * there is one lesson per class, in class order: the lesson of class `c` carries the
   * class's subject, teacher and group and the ids of the room and the timeslot of its cell.
   */
  lemma ExtractedAt(classes: seq<Class>, T: seq<Timeslot>, R: seq<Room>, value: Cell -> int,
                    n: nat, c: nat, t: nat, r: nat)
    requires n <= |classes|
    requires forall c: nat :: c < n ==> Placed(value, c, |T|, |R|)
    requires c < n && OnePlaced(value, c, |T|, |R|, t, r)
    ensures |Extracted(classes, T, R, value, n)| == n
    ensures Extracted(classes, T, R, value, n)[c] == LessonAt(classes, T, R, Cell(c, t, r))
  {
    forall c': nat | c' < n
      ensures |SlotHits(classes, T, R, value, c', |T|)| == 1
    {
      assert Placed(value, c', |T|, |R|);
      var t': nat, r': nat :| OnePlaced(value, c', |T|, |R|, t', r');
      SlotHitsPlaced(classes, T, R, value, c', t', r');
    }
    ExtractedIndex(classes, T, R, value, n);
    SlotHitsPlaced(classes, T, R, value, c, t, r);
  }
}
