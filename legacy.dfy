/**
 * The older stand-alone manager in the default package (`src/TaskManager.java`):
 * three stores keyed by id and an id counter, with no recency tracker and no
 * schedule. Its `Task`, `Epic` and `Subtask` classes are not part of this
 * model; an epic's `getSubtaskIds()` is read as the epic's own list, which
 * the manager clears and appends to in place.
 *
 * Its epic-status rule differs from the newer manager's, and the two are
 * compared here.
 */
module Legacy {
  import opened Wrappers
  import opened Model
  import opened Aggregation
  import opened Manager

  /**
   * The rule of the older `updateEpicStatus`: an empty list gives NEW; over
   * the ids that resolve, all DONE gives DONE, else any IN_PROGRESS gives
   * IN_PROGRESS, else NEW. Ids that do not resolve are skipped.
   */
  function LegacyStatus(ids: seq<int>, subtasks: map<int, Subtask>): Status
  {
    if ids == [] then New
    else
      var subs := SubtasksOf(ids, subtasks);
      if All(subs, Done) then Done
      else if Any(subs, InProgress) then InProgress
      else New
  }

  /** NEW and DONE without IN_PROGRESS: NEW here, IN_PROGRESS under the newer rule. */
  lemma MixIsNew()
    ensures var subtasks := map[2 := NewSubtask("a", "", 1), 3 := NewSubtask("b", "", 1).(status := Done)];
            && LegacyStatus([2, 3], subtasks) == New
            && EpicStatus(SubtasksOf([2, 3], subtasks)) == InProgress
  {
    var subtasks := map[2 := NewSubtask("a", "", 1), 3 := NewSubtask("b", "", 1).(status := Done)];
    var subs := SubtasksOf([2, 3], subtasks);
    assert [2, 3][1..] == [3] && [3][1..] == [];
    assert SubtasksOf([3], subtasks) == [subtasks[3]];
    assert subs == [subtasks[2], subtasks[3]];
    assert subs[0].status == New && subs[1].status == Done;
  }

  /** A non-empty list none of whose ids resolve gives DONE here and NEW under the newer rule. */
  lemma {:induction false} UnresolvedIsDone(ids: seq<int>, subtasks: map<int, Subtask>)
    requires ids != []
    requires forall i :: 0 <= i < |ids| ==> ids[i] !in subtasks
    ensures SubtasksOf(ids, subtasks) == []
    ensures LegacyStatus(ids, subtasks) == Done
    ensures EpicStatus(SubtasksOf(ids, subtasks)) == New
  {
    if ids[1..] != [] {
      UnresolvedIsDone(ids[1..], subtasks);
    }
  }

  /**
   * The two rules disagree exactly when the list is non-empty and either no
   * id resolves or the resolved subtasks mix NEW and DONE with no
   * IN_PROGRESS among them.
   */
  lemma RulesDiffer(ids: seq<int>, subtasks: map<int, Subtask>)
    ensures var subs := SubtasksOf(ids, subtasks);
            LegacyStatus(ids, subtasks) != EpicStatus(subs) <==>
              ids != [] && (subs == [] || (Any(subs, New) && Any(subs, Done) && !Any(subs, InProgress)))
  {
    var subs := SubtasksOf(ids, subtasks);
    EpicStatusMeaning(subs);
    if ids == [] {
      assert subs == [];
    }
  }

  /** The two flags of the loop after one more resolved subtask. */
  lemma FlagsStep(seen: seq<Task>, x: Task)
    ensures All(seen + [x], Done) <==> All(seen, Done) && x.status == Done
    ensures Any(seen + [x], InProgress) <==> Any(seen, InProgress) || x.status == InProgress
  {
    var s := seen + [x];
    assert s[|seen|] == x;
    if Any(seen, InProgress) {
      var i :| 0 <= i < |seen| && seen[i].status == InProgress;
      assert s[i] == seen[i];
    }
    if All(s, Done) {
      forall i | 0 <= i < |seen| ensures seen[i].status == Done {
        assert s[i] == seen[i];
      }
    }
  }

  class TaskManager {
    var tasks: map<int, Task>
    var epics: map<int, Epic>
    var subtasks: map<int, Subtask>
    var nextId: int

    /** Every store is keyed by id below the counter. */
    predicate Valid()
      reads this
    {
      KeyedBelow(tasks, nextId) && KeyedBelow(epics, nextId) && KeyedBelow(subtasks, nextId) && nextId >= 1
    }

    constructor ()
      ensures Valid()
      ensures tasks == map[] && epics == map[] && subtasks == map[] && nextId == 1
    {
      tasks, epics, subtasks := map[], map[], map[];
      nextId := 1;
    }

    /** `generateId`: the counter's value, then the counter moves on. */
    method GenerateId() returns (id: int)
      modifies this`nextId
      ensures id == old(nextId) && nextId == id + 1
    {
      id := nextId;
      nextId := nextId + 1;
    }

    method GetAllTasks() returns (r: seq<Task>)
      ensures IsListing(r, tasks)
    {
      r := Listing(tasks);
    }

    method GetAllEpics() returns (r: seq<Epic>)
      ensures IsListing(r, epics)
    {
      r := Listing(epics);
    }

    method GetAllSubtasks() returns (r: seq<Subtask>)
      ensures IsListing(r, subtasks)
    {
      r := Listing(subtasks);
    }

    /** `getTask`: the stored task, or null for an unknown id. */
    function GetTask(id: int): (r: Option<Task>)
      reads this
      ensures r.Some? <==> id in tasks
      ensures r.Some? ==> r.value == tasks[id]
    {
      if id in tasks then Some(tasks[id]) else None
    }

    function GetEpic(id: int): (r: Option<Epic>)
      reads this
      ensures r.Some? <==> id in epics
      ensures r.Some? ==> r.value == epics[id]
    {
      if id in epics then Some(epics[id]) else None
    }

    function GetSubtask(id: int): (r: Option<Subtask>)
      reads this
      ensures r.Some? <==> id in subtasks
      ensures r.Some? ==> r.value == subtasks[id]
    {
      if id in subtasks then Some(subtasks[id]) else None
    }

    /** The older `updateEpicStatus`: one pass over the list flipping two flags. */
    method UpdateEpicStatus(epicId: int)
      requires Valid()
      modifies this`epics
      ensures Valid()
      ensures epicId !in old(epics) ==> epics == old(epics)
      ensures epicId in old(epics) ==>
                epics == old(epics)[epicId := old(epics)[epicId].(status := LegacyStatus(old(epics)[epicId].part.subtaskIds, subtasks))]
    {
      if epicId !in epics {
        return;
      }
      var epic := epics[epicId];
      var ids := epic.part.subtaskIds;
      if |ids| == 0 {
        epics := epics[epicId := epic.(status := New)];
        return;
      }
      var allDone := true;
      var anyInProgress := false;
      var i := 0;
      while i < |ids|
        invariant 0 <= i <= |ids|
        invariant epics == old(epics)
        invariant allDone <==> All(SubtasksOf(ids[..i], subtasks), Done)
        invariant anyInProgress <==> Any(SubtasksOf(ids[..i], subtasks), InProgress)
      {
        SubtasksOfStep(ids, i, subtasks);
        ghost var seen := SubtasksOf(ids[..i], subtasks);
        if ids[i] in subtasks {
          var subtask := subtasks[ids[i]];
          assert SubtasksOf(ids[..i + 1], subtasks) == seen + [subtask];
          FlagsStep(seen, subtask);
          if subtask.status != Done {
            allDone := false;
          }
          if subtask.status == InProgress {
            anyInProgress := true;
          }
        } else {
          assert SubtasksOf(ids[..i + 1], subtasks) == seen;
        }
        i := i + 1;
      }
      assert ids[..i] == ids;
      var status := if allDone then Done else if anyInProgress then InProgress else New;
      epics := epics[epicId := epic.(status := status)];
    }

    /** `getSubtasksForEpic`: the listed subtasks that resolve, in list order; nothing for an unknown epic. */
    method GetSubtasksForEpic(epicId: int) returns (result: seq<Subtask>)
      ensures result == SubtasksByEpic(epics, subtasks, epicId)
    {
      if epicId !in epics {
        return [];
      }
      var ids := epics[epicId].part.subtaskIds;
      result := [];
      var i := 0;
      while i < |ids|
        invariant 0 <= i <= |ids|
        invariant result == SubtasksOf(ids[..i], subtasks)
      {
        SubtasksOfStep(ids, i, subtasks);
        if ids[i] in subtasks {
          result := result + [subtasks[ids[i]]];
        }
        i := i + 1;
      }
      assert ids[..i] == ids;
    }

    method DeleteAllTasks()
      requires Valid()
      modifies this`tasks
      ensures Valid() && tasks == map[]
    {
      tasks := map[];
    }

    /** `deleteAllEpics`: the subtasks go with their epics. */
    method DeleteAllEpics()
      requires Valid()
      modifies this`epics, this`subtasks
      ensures Valid() && epics == map[] && subtasks == map[]
    {
      epics := map[];
      subtasks := map[];
    }

    /** One epic of `deleteAllSubtasks`: its list cleared in place, then its status recomputed. */
    method ClearEpic(k: int)
      requires Valid() && k in epics
      modifies this`epics
      ensures Valid()
      ensures epics == old(epics)[k := old(epics)[k].(status := New, part := EpicPart([], old(epics)[k].part.endTime))]
    {
      var epic := epics[k];
      epics := epics[k := epic.(part := epic.part.(subtaskIds := []))];
      UpdateEpicStatus(k);
    }

    /** `deleteAllSubtasks`: every epic left with an empty list and status NEW, and the store emptied. */
    method DeleteAllSubtasks()
      requires Valid()
      modifies this`epics, this`subtasks
      ensures Valid() && subtasks == map[]
      ensures epics.Keys == old(epics).Keys
      ensures forall k :: k in epics ==>
                epics[k] == old(epics)[k].(status := New, part := EpicPart([], old(epics)[k].part.endTime))
    {
      var left := epics.Keys;
      while left != {}
        invariant left <= old(epics).Keys && epics.Keys == old(epics).Keys
        invariant forall k :: k in left ==> epics[k] == old(epics)[k]
        invariant forall k :: k in epics && k !in left ==>
                    epics[k] == old(epics)[k].(status := New, part := EpicPart([], old(epics)[k].part.endTime))
        invariant Valid() && subtasks == old(subtasks)
        decreases |left|
      {
        ghost var some := Pick(left);
        var k :| k in left;
        ClearEpic(k);
        left := left - {k};
      }
      subtasks := map[];
    }

    method DeleteTask(id: int)
      requires Valid()
      modifies this`tasks
      ensures Valid() && tasks == old(tasks) - {id}
    {
      tasks := tasks - {id};
    }

    /** `deleteEpic`: the epic and every subtask it lists leave their stores; an unknown id changes nothing. */
    method DeleteEpic(id: int)
      requires Valid()
      modifies this`epics, this`subtasks
      ensures Valid() && epics == old(epics) - {id}
      ensures subtasks == if id in old(epics) then old(subtasks) - Elems(old(epics)[id].part.subtaskIds) else old(subtasks)
    {
      if id !in epics {
        return;
      }
      var ids := epics[id].part.subtaskIds;
      epics := epics - {id};
      var i := 0;
      while i < |ids|
        invariant 0 <= i <= |ids|
        invariant Valid() && epics == old(epics) - {id}
        invariant subtasks == old(subtasks) - Elems(ids[..i])
      {
        ElemsStep(ids, i);
        subtasks := subtasks - {ids[i]};
        i := i + 1;
      }
      assert ids[..i] == ids;
    }

    /**
     * `deleteSubtask`: an unknown id changes nothing; otherwise the subtask
     * leaves the store, and the epic it names, when known, loses the first
     * occurrence of the id from its list and has its status recomputed.
     */
    method DeleteSubtask(id: int)
      requires Valid()
      modifies this`epics, this`subtasks
      ensures Valid() && subtasks == old(subtasks) - {id}
      ensures id !in old(subtasks) ==> epics == old(epics)
      ensures id in old(subtasks) ==>
                var eid := old(subtasks)[id].part.epicId;
                epics == if eid in old(epics)
                         then var e := RemoveSubtaskId(old(epics)[eid], id);
                              old(epics)[eid := e.(status := LegacyStatus(e.part.subtaskIds, subtasks))]
                         else old(epics)
    {
      if id !in subtasks {
        return;
      }
      var eid := subtasks[id].part.epicId;
      subtasks := subtasks - {id};
      if eid in epics {
        epics := epics[eid := RemoveSubtaskId(epics[eid], id)];
        UpdateEpicStatus(eid);
      }
    }

    /** `createTask`: null is ignored; otherwise the task is stored under the next id. */
    method CreateTask(task: Option<Task>)
      requires Valid()
      modifies this`tasks, this`nextId
      ensures Valid()
      ensures task.None? ==> tasks == old(tasks) && nextId == old(nextId)
      ensures task.Some? ==> tasks == old(tasks)[old(nextId) := task.value.(id := old(nextId))] && nextId == old(nextId) + 1
    {
      if task.None? {
        return;
      }
      var id := GenerateId();
      tasks := tasks[id := task.value.(id := id)];
    }

    method CreateEpic(epic: Option<Epic>)
      requires Valid()
      modifies this`epics, this`nextId
      ensures Valid()
      ensures epic.None? ==> epics == old(epics) && nextId == old(nextId)
      ensures epic.Some? ==> epics == old(epics)[old(nextId) := epic.value.(id := old(nextId))] && nextId == old(nextId) + 1
    {
      if epic.None? {
        return;
      }
      var id := GenerateId();
      epics := epics[id := epic.value.(id := id)];
    }

    /**
     * `createSubtask`: null and an unknown epic are ignored silently and take
     * no id; otherwise the subtask is stored under the next id, appended to
     * its epic's list, and the epic's status is recomputed.
     */
    method CreateSubtask(subtask: Option<Subtask>)
      requires Valid()
      modifies this`epics, this`subtasks, this`nextId
      ensures Valid()
      ensures subtask.None? || subtask.value.part.epicId !in old(epics) ==>
                epics == old(epics) && subtasks == old(subtasks) && nextId == old(nextId)
      ensures subtask.Some? && subtask.value.part.epicId in old(epics) ==>
                var s := subtask.value.(id := old(nextId));
                var e := AddSubtaskId(old(epics)[s.part.epicId], s.id);
                && subtasks == old(subtasks)[s.id := s]
                && nextId == old(nextId) + 1
                && epics == old(epics)[s.part.epicId := e.(status := LegacyStatus(e.part.subtaskIds, subtasks))]
    {
      if subtask.None? || subtask.value.part.epicId !in epics {
        return;
      }
      var id := GenerateId();
      var s: Subtask := subtask.value.(id := id);
      subtasks := subtasks[id := s];
      var eid := s.part.epicId;
      epics := epics[eid := AddSubtaskId(epics[eid], id)];
      UpdateEpicStatus(eid);
    }

    method UpdateTask(task: Option<Task>)
      requires Valid()
      modifies this`tasks
      ensures Valid()
      ensures tasks == if task.None? || task.value.id !in old(tasks) then old(tasks) else old(tasks)[task.value.id := task.value]
    {
      if task.None? || task.value.id !in tasks {
        return;
      }
      tasks := tasks[task.value.id := task.value];
    }

    method UpdateEpic(epic: Option<Epic>)
      requires Valid()
      modifies this`epics
      ensures Valid()
      ensures epics == if epic.None? || epic.value.id !in old(epics) then old(epics) else old(epics)[epic.value.id := epic.value]
    {
      if epic.None? || epic.value.id !in epics {
        return;
      }
      epics := epics[epic.value.id := epic.value];
    }

    /**
     * `updateSubtask`: null, unknown ids and unknown epics are ignored;
     * otherwise the subtask is replaced and the status of the epic it names
     * is recomputed. No list is relinked.
     */
    method UpdateSubtask(subtask: Option<Subtask>)
      requires Valid()
      modifies this`epics, this`subtasks
      ensures Valid()
      ensures subtask.None? || subtask.value.id !in old(subtasks) || subtask.value.part.epicId !in old(epics) ==>
                epics == old(epics) && subtasks == old(subtasks)
      ensures subtask.Some? && subtask.value.id in old(subtasks) && subtask.value.part.epicId in old(epics) ==>
                var s := subtask.value;
                var e := old(epics)[s.part.epicId];
                && subtasks == old(subtasks)[s.id := s]
                && epics == old(epics)[s.part.epicId := e.(status := LegacyStatus(e.part.subtaskIds, subtasks))]
    {
      if subtask.None? || subtask.value.id !in subtasks {
        return;
      }
      if subtask.value.part.epicId !in epics {
        return;
      }
      subtasks := subtasks[subtask.value.id := subtask.value];
      UpdateEpicStatus(subtask.value.part.epicId);
    }
  }
}
