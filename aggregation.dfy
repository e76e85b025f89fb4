/**
 * How an epic's derived state follows from its live subtasks: which of its
 * listed subtasks still resolve (`getSubtasksByEpic`), the status rule of
 * `updateEpicStatus`, and the two recomputations the manager runs after a
 * subtask changes.
 */
module Aggregation {
  import opened Wrappers
  import opened Model

  /**
   * `getSubtasksByEpic` once the epic is found: each listed id looked up in
   * the store, ids that do not resolve dropped, list order kept.
   */
  function SubtasksOf(ids: seq<int>, subtasks: map<int, Subtask>): (r: seq<Subtask>)
    ensures |r| <= |ids|
  {
    if ids == [] then []
    else (if ids[0] in subtasks then [subtasks[ids[0]]] else []) + SubtasksOf(ids[1..], subtasks)
  }

  /**
   * Exactly the subtasks of resolving listed ids are returned: each result
   * is the stored subtask of some listed id, and each listed id that resolves
   * contributes its subtask.
   */
  lemma {:induction false} SubtasksOfMembers(ids: seq<int>, subtasks: map<int, Subtask>)
    ensures forall s :: s in SubtasksOf(ids, subtasks) ==>
                          exists i :: 0 <= i < |ids| && ids[i] in subtasks && subtasks[ids[i]] == s
    ensures forall i :: 0 <= i < |ids| && ids[i] in subtasks ==> subtasks[ids[i]] in SubtasksOf(ids, subtasks)
  {
    if ids != [] {
      SubtasksOfMembers(ids[1..], subtasks);
      forall s | s in SubtasksOf(ids, subtasks)
        ensures exists i :: 0 <= i < |ids| && ids[i] in subtasks && subtasks[ids[i]] == s
      {
        if !(ids[0] in subtasks && subtasks[ids[0]] == s) {
          assert s in SubtasksOf(ids[1..], subtasks);
          var j :| 0 <= j < |ids[1..]| && ids[1..][j] in subtasks && subtasks[ids[1..][j]] == s;
          assert ids[j + 1] == ids[1..][j];
        }
      }
      forall i | 0 <= i < |ids| && ids[i] in subtasks
        ensures subtasks[ids[i]] in SubtasksOf(ids, subtasks)
      {
        if i > 0 {
          assert ids[1..][i - 1] == ids[i];
        }
      }
    }
  }

  /** Resolving a split list resolves each part, in order. */
  lemma {:induction false} SubtasksOfAppend(a: seq<int>, b: seq<int>, subtasks: map<int, Subtask>)
    ensures SubtasksOf(a + b, subtasks) == SubtasksOf(a, subtasks) + SubtasksOf(b, subtasks)
  {
    if a != [] {
      assert (a + b)[1..] == a[1..] + b;
      SubtasksOfAppend(a[1..], b, subtasks);
    } else {
      assert a + b == b;
    }
  }

  /** One more listed id: its subtask, when it resolves, joins the end. */
  lemma SubtasksOfStep(ids: seq<int>, i: nat, subtasks: map<int, Subtask>)
    requires i < |ids|
    ensures SubtasksOf(ids[..i + 1], subtasks) ==
              SubtasksOf(ids[..i], subtasks) + (if ids[i] in subtasks then [subtasks[ids[i]]] else [])
  {
    assert ids[..i + 1] == ids[..i] + [ids[i]];
    SubtasksOfAppend(ids[..i], [ids[i]], subtasks);
    assert [ids[i]][1..] == [];
  }

  /** With an empty store no listed id resolves. */
  lemma {:induction false} SubtasksOfEmptyStore(ids: seq<int>)
    ensures SubtasksOf(ids, map[]) == []
  {
    if ids != [] {
      SubtasksOfEmptyStore(ids[1..]);
    }
  }

  /**
   * `getSubtasksByEpic(epicId)`: an unknown epic behaves as `new Epic("", "")`,
   * which lists nothing.
   */
  function SubtasksByEpic(epics: map<int, Epic>, subtasks: map<int, Subtask>, epicId: int): (r: seq<Subtask>)
    ensures epicId !in epics ==> r == []
    ensures epicId in epics ==> r == SubtasksOf(epics[epicId].part.subtaskIds, subtasks)
  {
    var epic := if epicId in epics then epics[epicId] else NewEpic("", "");
    SubtasksOf(GetSubtaskIds(epic), subtasks)
  }

  // ---------------------------------------------------------------------
  // The status rule

  predicate All(subs: seq<Task>, s: Status)
  {
    forall i :: 0 <= i < |subs| ==> subs[i].status == s
  }

  predicate Any(subs: seq<Task>, s: Status)
  {
    exists i :: 0 <= i < |subs| && subs[i].status == s
  }

  /**
   * The decision in `updateEpicStatus` as written: none of the three
   * conditions holding would leave the epic's current status in place.
   */
  function DecideStatus(subs: seq<Task>, current: Status): Status
  {
    if |subs| == 0 then New
    else if All(subs, Done) then Done
    else if All(subs, New) then New
    else if Any(subs, InProgress) || (Any(subs, New) && Any(subs, Done)) then InProgress
    else current
  }

  /** The reference rule: no resolved subtask → NEW, all DONE → DONE, all NEW → NEW, else IN_PROGRESS. */
  function EpicStatus(subs: seq<Task>): Status
  {
    if |subs| == 0 then New
    else if All(subs, Done) then Done
    else if All(subs, New) then New
    else InProgress
  }

  /**
   * The three conditions cover every non-empty list, so the decision
   * never falls through to the current status: it is `EpicStatus`.
   */
  lemma DecisionIsTotal(subs: seq<Task>, current: Status)
    ensures DecideStatus(subs, current) == EpicStatus(subs)
  {
    if |subs| > 0 && !All(subs, Done) && !All(subs, New) && !Any(subs, InProgress) {
      var i :| 0 <= i < |subs| && subs[i].status != Done;
      var j :| 0 <= j < |subs| && subs[j].status != New;
      assert subs[i].status == New;
      assert subs[j].status == Done;
    }
  }

  /**
   * What the status means: DONE exactly when there is a subtask and all are
   * DONE; NEW exactly when there is none or all are NEW; IN_PROGRESS exactly
   * when one is IN_PROGRESS or NEW and DONE are mixed.
   */
  lemma EpicStatusMeaning(subs: seq<Task>)
    ensures EpicStatus(subs) == Done <==> |subs| > 0 && All(subs, Done)
    ensures EpicStatus(subs) == New <==> |subs| == 0 || All(subs, New)
    ensures EpicStatus(subs) == InProgress <==>
              Any(subs, InProgress) || (Any(subs, New) && Any(subs, Done))
  {
    DecisionIsTotal(subs, Done);
    DecisionIsTotal(subs, New);
    if |subs| > 0 && All(subs, Done) {
      assert subs[0].status == Done;
    }
    if |subs| > 0 && All(subs, New) {
      assert subs[0].status == New;
    }
  }

  /**
   * `updateEpicStatus` followed by `updateEpicTimeFields` on one epic: the
   * status and the time window recomputed from the subtasks it lists that
   * still resolve.
   */
  function Reaggregate(e: Epic, subtasks: map<int, Subtask>): (r: Epic)
    ensures r.status == EpicStatus(SubtasksOf(e.part.subtaskIds, subtasks))
    ensures r == WithTimeWindow(e.(status := r.status), SubtasksOf(e.part.subtaskIds, subtasks))
  {
    var subs := SubtasksOf(GetSubtaskIds(e), subtasks);
    DecisionIsTotal(subs, e.status);
    WithTimeWindow(e.(status := DecideStatus(subs, e.status)), subs)
  }

  /** Against an empty store every epic becomes NEW with an empty time window. */
  lemma ReaggregateEmptyStore(e: Epic)
    ensures Reaggregate(e, map[]).status == New
    ensures Reaggregate(e, map[]).startTime.None?
    ensures Reaggregate(e, map[]).duration == Some(0)
    ensures Reaggregate(e, map[]).part.endTime.None?
    ensures Reaggregate(e, map[]).part.subtaskIds == e.part.subtaskIds
  {
    SubtasksOfEmptyStore(e.part.subtaskIds);
    assert !HasTimed([]);
  }
}
