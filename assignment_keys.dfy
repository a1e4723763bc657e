/**
 * The composite-key table that resolves a solver lesson back to the teaching
 * assignment it came from (`assignmentKey` and `assignmentMap` in
 * web/src/app/api/solve/route.ts).
 */
module AssignmentKeys {
  import opened Opt
  import opened Strings
  import opened Store

  /** `${subjectId}:${teacherId}:${groupId}:${term ?? ""}`. */
  function AssignmentKey(subjectId: int, teacherId: int, groupId: int, term: Option<string>): string {
    IntToString(subjectId) + ":" + (IntToString(teacherId) + ":" + (IntToString(groupId) + ":" + term.GetOr("")))
  }

  /** Two keys are equal exactly when their three ids and their rendered terms are. */
  lemma KeyInjective(s: int, t: int, g: int, x: Option<string>, s': int, t': int, g': int, y: Option<string>)
    ensures AssignmentKey(s, t, g, x) == AssignmentKey(s', t', g', y)
        <==> s == s' && t == t' && g == g' && x.GetOr("") == y.GetOr("")
  {
    if AssignmentKey(s, t, g, x) == AssignmentKey(s', t', g', y) {
      var a, b, c, d := IntToString(s), IntToString(t), IntToString(g), x.GetOr("");
      var a', b', c', d' := IntToString(s'), IntToString(t'), IntToString(g'), y.GetOr("");
      SplitAtColon(a, b + ":" + (c + ":" + d), a', b' + ":" + (c' + ":" + d'));
      SplitAtColon(b, c + ":" + d, b', c' + ":" + d');
      SplitAtColon(c, d, c', d');
      IntToStringInjective(s, s');
      IntToStringInjective(t, t');
      IntToStringInjective(g, g');
    }
  }

  /** The key an assignment row is registered under. */
  function RowKey(a: AssignmentRow): string {
    AssignmentKey(a.subjectId, a.teacherId, a.groupId, a.term)
  }

  /** The table after registering `rows` in order: a later row overwrites an earlier one. */
  function KeyTable(rows: seq<AssignmentRow>): map<string, int> {
    if rows == [] then map[]
    else KeyTable(rows[..|rows| - 1])[RowKey(rows[|rows| - 1]) := rows[|rows| - 1].id]
  }

  /** The `for` loop that fills `assignmentMap` with `Map.set`. */
  method BuildAssignmentMap(rows: seq<AssignmentRow>) returns (assignmentMap: map<string, int>)
    ensures assignmentMap == KeyTable(rows)
  {
    assignmentMap := map[];
    for i := 0 to |rows|
      invariant assignmentMap == KeyTable(rows[..i])
    {
      var a := rows[i];
      assignmentMap := assignmentMap[AssignmentKey(a.subjectId, a.teacherId, a.groupId, a.term) := a.id];
      assert rows[..i + 1][..i] == rows[..i];
    }
    assert rows[..|rows|] == rows;
  }

  /** `assignmentMap.get(key) ?? null`. */
  function Lookup(table: map<string, int>, key: string): Option<int> {
    if key in table then Some(table[key]) else None
  }

  /** A row answers a lesson of the request term `term` with these three ids. */
  predicate Matches(a: AssignmentRow, subjectId: int, teacherId: int, groupId: int, term: string) {
    a.subjectId == subjectId && a.teacherId == teacherId && a.groupId == groupId && a.term.GetOr("") == term
  }

  /** The id of the last matching row, scanning the rows in order. */
  function LastMatch(rows: seq<AssignmentRow>, subjectId: int, teacherId: int, groupId: int, term: string): Option<int> {
    if rows == [] then None
    else if Matches(rows[|rows| - 1], subjectId, teacherId, groupId, term) then Some(rows[|rows| - 1].id)
    else LastMatch(rows[..|rows| - 1], subjectId, teacherId, groupId, term)
  }

  /**
   * `LastMatch` is `None` exactly when no row matches; otherwise it is the id of a
   * matching row after which no row matches. With a non-empty request term, the
   * matched row carries exactly that term, so a row stored without a term never answers.
   */
  lemma {:induction false} LastMatchSpec(rows: seq<AssignmentRow>, s: int, t: int, g: int, term: string)
    ensures LastMatch(rows, s, t, g, term).None? <==> forall k :: 0 <= k < |rows| ==> !Matches(rows[k], s, t, g, term)
    ensures LastMatch(rows, s, t, g, term).Some? ==>
      exists k :: 0 <= k < |rows| && rows[k].id == LastMatch(rows, s, t, g, term).value
        && Matches(rows[k], s, t, g, term)
        && (term != "" ==> rows[k].term == Some(term))
        && forall j :: k < j < |rows| ==> !Matches(rows[j], s, t, g, term)
  {
    if rows != [] {
      var n := |rows| - 1;
      var init := rows[..n];
      LastMatchSpec(init, s, t, g, term);
      if Matches(rows[n], s, t, g, term) {
        assert rows[n].id == LastMatch(rows, s, t, g, term).value;
      } else {
        assert forall k :: 0 <= k < n ==> rows[k] == init[k];
        if LastMatch(init, s, t, g, term).Some? {
          var k :| 0 <= k < n && init[k].id == LastMatch(init, s, t, g, term).value
            && Matches(init[k], s, t, g, term)
            && (term != "" ==> init[k].term == Some(term))
            && forall j :: k < j < n ==> !Matches(init[j], s, t, g, term);
          assert rows[k] == init[k];
        }
      }
    }
  }

  /**
   * The lookup a lesson row makes with the request term finds exactly the last
   * assignment with the same subject, teacher and group whose stored term renders as
   * the request term.
   */
  lemma {:induction false} LookupIsLastMatch(rows: seq<AssignmentRow>, s: int, t: int, g: int, term: string)
    ensures Lookup(KeyTable(rows), AssignmentKey(s, t, g, Some(term))) == LastMatch(rows, s, t, g, term)
  {
    if rows != [] {
      var n := |rows| - 1;
      var a := rows[n];
      LookupIsLastMatch(rows[..n], s, t, g, term);
      KeyInjective(a.subjectId, a.teacherId, a.groupId, a.term, s, t, g, Some(term));
    }
  }
}
