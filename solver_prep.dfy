/**
 * The solver's pre-processing in web/solver/main.py: the id lookups of `_maps`, the
 * expansion of assignments into one "class" per period, and the per-teacher and
 * per-group lists of class indices.
 */
module SolverPrep {
  import opened Opt
  import opened Seqs
  import opened SolverTypes

  /** `{x.id: x for x in xs}`: a later element with the same id replaces an earlier one. */
  function ById<T>(xs: seq<T>, id: T -> int): map<int, T> {
    if xs == [] then map[]
    else ById(xs[..|xs| - 1], id)[id(xs[|xs| - 1]) := xs[|xs| - 1]]
  }

  /**
   * The ids in the lookup are exactly the ids of the elements, and an id is mapped to
   * the last element that carries it.
   */
  lemma {:induction false} ByIdSpec<T>(xs: seq<T>, id: T -> int)
    ensures forall k :: k in ById(xs, id) <==> exists i :: 0 <= i < |xs| && id(xs[i]) == k
    ensures forall k :: k in ById(xs, id) ==>
      exists i :: 0 <= i < |xs| && id(xs[i]) == k && ById(xs, id)[k] == xs[i]
        && forall j :: i < j < |xs| ==> id(xs[j]) != k
  {
    if xs != [] {
      var n := |xs| - 1;
      var init := xs[..n];
      ByIdSpec(init, id);
      assert forall i :: 0 <= i < n ==> init[i] == xs[i];
      forall k | k in ById(xs, id)
        ensures exists i :: (0 <= i < |xs| && id(xs[i]) == k && ById(xs, id)[k] == xs[i]
                             && forall j :: i < j < |xs| ==> id(xs[j]) != k)
      {
        if k != id(xs[n]) {
          var i :| 0 <= i < n && id(init[i]) == k && ById(init, id)[k] == init[i]
            && forall j :: i < j < n ==> id(init[j]) != k;
          assert id(xs[i]) == k && ById(xs, id)[k] == xs[i];
        }
      }
    }
  }

  function SubjectId(s: Subject): int { s.id }
  function TeacherId(t: Teacher): int { t.id }
  function GroupId(g: Group): int { g.id }
  function RoomId(r: Room): int { r.id }
  function TimeslotId(t: Timeslot): int { t.id }

  /** What `_maps` returns. */
  datatype Lookups = Lookups(
    subj: map<int, Subject>, teacher: map<int, Teacher>, group: map<int, Group>,
    room: map<int, Room>, tslot: map<int, Timeslot>)

  function Maps(inp: SolveInput): Lookups {
    Lookups(ById(inp.subjects, SubjectId), ById(inp.teachers, TeacherId), ById(inp.groups, GroupId),
            ById(inp.rooms, RoomId), ById(inp.timeslots, TimeslotId))
  }

  /** `range(a.requiredPeriods)` is empty for a count below one. */
  function Periods(a: Assignment): nat {
    if a.requiredPeriods > 0 then a.requiredPeriods else 0
  }

  function ClassOf(a: Assignment): Class {
    Class(a.subjectId, a.teacherId, a.groupId, a.id)
  }

  /** `Periods(a)` copies of `a`'s class. */
  function Copies(a: Assignment, k: nat): seq<Class> {
    seq(k, _ => ClassOf(a))
  }

  /** The classes of `assignments`, in order. */
  function Expanded(assignments: seq<Assignment>): seq<Class> {
    if assignments == [] then []
    else
      var n := |assignments| - 1;
      Expanded(assignments[..n]) + Copies(assignments[n], Periods(assignments[n]))
  }

  /** The total number of periods asked for. */
  function TotalPeriods(assignments: seq<Assignment>): nat {
    if assignments == [] then 0
    else
      var n := |assignments| - 1;
      TotalPeriods(assignments[..n]) + Periods(assignments[n])
  }

  /** The nested loop that appends one class per required period. */
  method ExpandClasses(assignments: seq<Assignment>) returns (classes: seq<Class>)
    ensures classes == Expanded(assignments)
  {
    classes := [];
    for i := 0 to |assignments|
      invariant classes == Expanded(assignments[..i])
    {
      var a := assignments[i];
      assert assignments[..i + 1][..i] == assignments[..i];
      for k := 0 to Periods(a)  // range(requiredPeriods)
        invariant classes == Expanded(assignments[..i]) + Copies(a, k)
      {
        assert Copies(a, k + 1) == Copies(a, k) + [ClassOf(a)];
        classes := classes + [Class(a.subjectId, a.teacherId, a.groupId, a.id)];
      }
    }
    assert assignments[..|assignments|] == assignments;
  }

  /** There are as many classes as periods asked for. */
  lemma {:induction false} ExpandedLength(assignments: seq<Assignment>)
    ensures |Expanded(assignments)| == TotalPeriods(assignments)
  {
    if assignments != [] {
      ExpandedLength(assignments[..|assignments| - 1]);
    }
  }

  /**
   * Assignment `i` owns the `Periods` consecutive classes that start after the
   * periods of the assignments before it: each of them is `i`'s subject, teacher,
   * group and id.
   */
  lemma {:induction false} ExpandedLayout(assignments: seq<Assignment>, i: nat)
    requires i < |assignments|
    ensures TotalPeriods(assignments[..i]) + Periods(assignments[i]) <= |Expanded(assignments)|
    ensures Expanded(assignments)[TotalPeriods(assignments[..i])..TotalPeriods(assignments[..i]) + Periods(assignments[i])]
         == Copies(assignments[i], Periods(assignments[i]))
  {
    var n := |assignments| - 1;
    var init := assignments[..n];
    var e0 := Expanded(init);
    assert Expanded(assignments) == e0 + Copies(assignments[n], Periods(assignments[n]));
    if i < n {
      ExpandedLayout(init, i);
      assert assignments[..i] == init[..i];
      assert assignments[i] == init[i];
      var lo := TotalPeriods(init[..i]);
      var hi := lo + Periods(init[i]);
      assert Expanded(assignments)[lo..hi] == e0[lo..hi];
    } else {
      ExpandedLength(init);
      assert assignments[..i] == init;
    }
  }

  /** Every class is the class of an assignment that asks for at least one period. */
  lemma {:induction false} ExpandedFrom(assignments: seq<Assignment>)
    ensures forall ci :: 0 <= ci < |Expanded(assignments)| ==>
      exists i :: 0 <= i < |assignments| && Periods(assignments[i]) > 0
        && Expanded(assignments)[ci] == ClassOf(assignments[i])
  {
    if assignments != [] {
      var n := |assignments| - 1;
      var init := assignments[..n];
      ExpandedFrom(init);
      forall ci | 0 <= ci < |Expanded(assignments)|
        ensures exists i :: (0 <= i < |assignments| && Periods(assignments[i]) > 0
                             && Expanded(assignments)[ci] == ClassOf(assignments[i]))
      {
        if ci < |Expanded(init)| {
          var i :| 0 <= i < n && Periods(init[i]) > 0 && Expanded(init)[ci] == ClassOf(init[i]);
          assert assignments[i] == init[i];
        } else {
          var e0 := Expanded(init);
          var tail := Copies(assignments[n], Periods(assignments[n]));
          assert Expanded(assignments) == e0 + tail;
          assert Expanded(assignments)[ci] == tail[ci - |e0|] == ClassOf(assignments[n]);
          assert Periods(assignments[n]) > 0;
        }
      }
    } else {
      assert Expanded(assignments) == [];
    }
  }

  function TeacherOf(c: Class): int { c.teacherId }
  function GroupOf(c: Class): int { c.groupId }

  /** `key_to_classidx` after the classes in order: each class index appended under its key. */
  function IndexGroups(classes: seq<Class>, key: Class -> int): map<int, seq<nat>> {
    if classes == [] then map[]
    else
      var n := |classes| - 1;
      var m := IndexGroups(classes[..n], key);
      var k := key(classes[n]);
      m[k := (if k in m then m[k] else []) + [n]]
  }

  /** The `enumerate` loop with `setdefault(key, []).append(ci)`. */
  method IndexBy(classes: seq<Class>, key: Class -> int) returns (index: map<int, seq<nat>>)
    ensures index == IndexGroups(classes, key)
  {
    index := map[];
    for ci := 0 to |classes|
      invariant index == IndexGroups(classes[..ci], key)
    {
      var k := key(classes[ci]);
      assert classes[..ci + 1][..ci] == classes[..ci];
      var list := if k in index then index[k] else [];
      index := index[k := list + [ci]];
    }
    assert classes[..|classes|] == classes;
  }

  /** The keys of the lists are exactly the keys of the classes. */
  lemma {:induction false} IndexGroupsKeys(classes: seq<Class>, key: Class -> int)
    ensures forall k :: k in IndexGroups(classes, key) <==> exists ci :: 0 <= ci < |classes| && key(classes[ci]) == k
  {
    if classes != [] {
      var n := |classes| - 1;
      var init := classes[..n];
      IndexGroupsKeys(init, key);
      assert forall ci :: 0 <= ci < n ==> init[ci] == classes[ci];
    } else {
      assert IndexGroups(classes, key) == map[];
    }
  }

  /** An index listed under a key is the index of a class with that key. */
  lemma {:induction false} IndexGroupsListed(classes: seq<Class>, key: Class -> int)
    ensures forall k, j :: k in IndexGroups(classes, key) && 0 <= j < |IndexGroups(classes, key)[k]| ==>
      IndexGroups(classes, key)[k][j] < |classes| && key(classes[IndexGroups(classes, key)[k][j]]) == k
  {
    if classes != [] {
      var n := |classes| - 1;
      var init := classes[..n];
      IndexGroupsListed(init, key);
      var m := IndexGroups(init, key);
      var kn := key(classes[n]);
      var m' := IndexGroups(classes, key);
      assert m' == m[kn := (if kn in m then m[kn] else []) + [n]];
      forall k, j | k in m' && 0 <= j < |m'[k]|
        ensures m'[k][j] < |classes| && key(classes[m'[k][j]]) == k
      {
        var ci := m'[k][j];
        if ci != n {
          assert k in m && 0 <= j < |m[k]| && m[k][j] == ci;
          assert init[ci] == classes[ci];
        }
      }
    } else {
      assert IndexGroups(classes, key) == map[];
    }
  }

  /** Every class index is listed under its class's key. */
  lemma {:induction false} IndexGroupsCovers(classes: seq<Class>, key: Class -> int)
    ensures forall ci :: 0 <= ci < |classes| ==>
      key(classes[ci]) in IndexGroups(classes, key) && ci in IndexGroups(classes, key)[key(classes[ci])]
  {
    if classes != [] {
      var n := |classes| - 1;
      var init := classes[..n];
      IndexGroupsCovers(init, key);
      var m := IndexGroups(init, key);
      var kn := key(classes[n]);
      var m' := IndexGroups(classes, key);
      assert m' == m[kn := (if kn in m then m[kn] else []) + [n]];
      forall ci | 0 <= ci < |classes|
        ensures key(classes[ci]) in m' && ci in m'[key(classes[ci])]
      {
        if ci < n {
          assert init[ci] == classes[ci];
          var k := key(classes[ci]);
          assert k in m && ci in m[k];
          if k == kn {
            assert m'[k] == m[k] + [n];
          }
        }
      }
    }
  }

  /** Every list is strictly ascending, so no index is listed twice. */
  lemma {:induction false} IndexGroupsAscending(classes: seq<Class>, key: Class -> int)
    ensures forall k :: k in IndexGroups(classes, key) ==> StrictlyIncreasing(IndexGroups(classes, key)[k])
  {
    if classes != [] {
      var n := |classes| - 1;
      var init := classes[..n];
      IndexGroupsAscending(init, key);
      IndexGroupsListed(init, key);
      var m := IndexGroups(init, key);
      var kn := key(classes[n]);
      if kn in m {
        var l := m[kn];
        forall j | 0 <= j < |l|
          ensures l[j] < n
        {
        }
        assert StrictlyIncreasing(l + [n]);
      }
    }
  }
}
