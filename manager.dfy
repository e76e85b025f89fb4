/**
 * The in-memory manager (`InMemoryTaskManager`): three stores keyed by id,
 * the id counter, the schedule (`prioritizedTasks`) and the recency tracker
 * it was given.
 *
 * Entities are values, so where the Java code changes a stored epic in
 * place the model stores the changed epic back under its id. The two
 * exceptions the manager throws become outcomes, and a call that throws
 * changes nothing.
 */
module Manager {
  import opened Wrappers
  import opened Model
  import opened Aggregation
  import opened History
  import opened Schedule

  /**
   * How a call ended: normally, normally with the id it assigned, with a
   * `TimeConflictException`, or with the `IllegalArgumentException` of an
   * unknown epic.
   */
  datatype Outcome = Ok | Created(id: int) | TimeConflict | EpicNotFound(epicId: int)

  /** Every stored value carries its own key, and every key is below the next id. */
  predicate KeyedBelow(m: map<int, Task>, nextId: int)
  {
    forall k :: k in m ==> m[k].id == k && k < nextId
  }

  /** The manager's invariant: the stores are keyed by id below the counter; the schedule is ordered and holds ids below it. */
  predicate Consistent(tasks: map<int, Task>, epics: map<int, Epic>, subtasks: map<int, Subtask>, nextId: int, prioritized: seq<Task>)
  {
    && KeyedBelow(tasks, nextId) && KeyedBelow(epics, nextId) && KeyedBelow(subtasks, nextId)
    && Sorted(prioritized)
    && (forall x :: x in prioritized ==> x.id < nextId)
  }

  /** `r` lists the values of `m`, one per key, in an order the hash map decides. */
  predicate IsListing<V(==)>(r: seq<V>, m: map<int, V>)
  {
    && |r| == |m|
    && (forall i :: 0 <= i < |r| ==> exists k :: k in m && m[k] == r[i])
    && (forall k :: k in m ==> m[k] in r)
  }

  /** A non-empty set has a member. */
  lemma Pick<T>(s: set<T>) returns (x: T)
    requires s != {}
    ensures x in s
  {
    x :| x in s;
  }

  /** `new ArrayList<>(map.values())`: the values, in some order. */
  method Listing<V(==)>(m: map<int, V>) returns (r: seq<V>)
    ensures IsListing(r, m)
  {
    r := [];
    var left := m.Keys;
    while left != {}
      invariant left <= m.Keys
      invariant |r| + |left| == |m|
      invariant forall i :: 0 <= i < |r| ==> exists k :: k in m && m[k] == r[i]
      invariant forall k :: k in m && k !in left ==> m[k] in r
      decreases |left|
    {
      ghost var some := Pick(left);
      var k :| k in left;
      r := r + [m[k]];
      left := left - {k};
    }
  }

  /** The ids in a list. */
  function Elems(s: seq<int>): set<int>
  {
    set x | x in s
  }

  lemma ElemsStep(s: seq<int>, i: nat)
    requires i < |s|
    ensures Elems(s[..i + 1]) == Elems(s[..i]) + {s[i]}
  {
    assert s[..i + 1] == s[..i] + [s[i]];
  }

  /** Every id listed by some epic: the `flatMap` of `deleteAllEpics`. */
  function ListedIds(epics: map<int, Epic>): set<int>
  {
    set k, x | k in epics && x in epics[k].part.subtaskIds :: x
  }

  /**
   * The epic after `deleteAllSubtasks`, as the loop evidently intends it: its
   * list of subtask ids emptied, then status and time window recomputed
   * against the emptied store.
   */
  function Emptied(e: Epic): (r: Epic)
  {
    Reaggregate(SetSubtaskIds(e, []), map[])
  }

  /** An emptied epic lists nothing, is NEW and has no time window; its identity is kept. */
  lemma EmptiedMeaning(e: Epic)
    ensures Emptied(e).part.subtaskIds == []
    ensures Emptied(e).status == New
    ensures Emptied(e).startTime.None? && Emptied(e).duration == Some(0)
    ensures EndTime(Emptied(e)).None?
    ensures Emptied(e).id == e.id && Emptied(e).name == e.name && Emptied(e).description == e.description
  {
    ReaggregateEmptyStore(SetSubtaskIds(e, []));
  }

  /** Every epic of `before` emptied, and nothing else, is `after`. */
  predicate AllEmptied(before: map<int, Epic>, after: map<int, Epic>)
  {
    after.Keys == before.Keys && forall k :: k in after ==> after[k] == Emptied(before[k])
  }

  /** The loop of `deleteAllSubtasks` over the epics: each one emptied and recomputed. */
  method EmptyAll(e0: map<int, Epic>) returns (r: map<int, Epic>)
    ensures AllEmptied(e0, r)
  {
    r := e0;
    var left := e0.Keys;
    while left != {}
      invariant left <= e0.Keys && r.Keys == e0.Keys
      invariant forall k :: k in left ==> r[k] == e0[k]
      invariant forall k :: k in r && k !in left ==> r[k] == Emptied(e0[k])
      decreases |left|
    {
      ghost var some := Pick(left);
      var k :| k in left;
      r := r[k := Emptied(r[k])];
      left := left - {k};
    }
  }

  /**
   * `epic.getSubtaskIds().clear()` as written clears the copy the getter
   * returns, so the epic keeps listing the ids of subtasks that are gone.
   */
  function EmptiedAsWritten(e: Epic): (r: Epic)
    ensures r.part.subtaskIds == e.part.subtaskIds
    ensures r.status == New
  {
    ReaggregateEmptyStore(e);
    Reaggregate(e, map[])
  }

  /** An epic that listed subtask 2 still lists it after all subtasks are deleted. */
  lemma EmptiedAsWrittenKeepsIds()
    ensures var e := Task(1, "e", "", Done, None, Some(0), EpicPart([2], None));
            EmptiedAsWritten(e).part.subtaskIds == [2] && Emptied(e).part.subtaskIds == []
  {
    var e := Task(1, "e", "", Done, None, Some(0), EpicPart([2], None));
    EmptiedMeaning(e);
  }

  /**
   * What `deleteAllTasks` leaves behind as written: the ids are first taken
   * out of the trail; then `prioritizedTasks.remove(id)` on the ordered set
   * compares an `Integer` with the set's entries and throws a
   * `ClassCastException`, unless the set is empty and nothing is compared.
   */
  datatype Cleared = Cleared(thrown: bool, tasks: map<int, Task>, schedule: seq<Task>, trail: seq<Task>)

  function DeleteAllTasksAsWritten(tasks: map<int, Task>, schedule: seq<Task>, trail: seq<Task>): (r: Cleared)
    ensures r.trail == Forget(trail, tasks.Keys)
    ensures r.thrown <==> tasks != map[] && schedule != []
    ensures r.schedule == schedule
    ensures r.tasks == if r.thrown then tasks else map[]
  {
    var trail' := Forget(trail, tasks.Keys);
    if tasks != map[] && schedule != [] then Cleared(true, tasks, schedule, trail')
    else Cleared(false, map[], schedule, trail')
  }

  /**
   * With one scheduled task the call throws: the task is still stored and
   * still scheduled, but it is gone from the trail.
   */
  lemma DeleteAllTasksAsWrittenThrows()
    ensures var t := Task(1, "t", "d", New, Some(0), Some(10), Plain);
            var r := DeleteAllTasksAsWritten(map[1 := t], [t], [t]);
            r.thrown && 1 in r.tasks && r.schedule == [t] && r.trail == []
  {
    var t := Task(1, "t", "d", New, Some(0), Some(10), Plain);
    assert Forget([t], {1}) == [] + Forget([], {1});
  }

  /** Each id of the set is taken out of the trail, one `remove` at a time. */
  method ForgetAll(h: InMemoryHistoryManager, ids: set<int>)
    requires h.Valid()
    modifies h, h.Repr`prev, h.Repr`next
    ensures h.Valid() && h.Repr == old(h.Repr)
    ensures h.Items == Forget(old(h.Items), ids)
  {
    var left := ids;
    ForgetNothing(h.Items, ids - left);
    while left != {}
      invariant left <= ids
      invariant h.Valid() && h.Repr == old(h.Repr)
      invariant h.Items == Forget(old(h.Items), ids - left)
      decreases |left|
    {
      ghost var some := Pick(left);
      var id :| id in left;
      h.Remove(id);
      ForgetStep(old(h.Items), ids, left, id);
      left := left - {id};
    }
    assert ids - left == ids;
  }

  lemma ForgetStep(h: seq<Task>, ids: set<int>, left: set<int>, id: int)
    requires id in left && left <= ids
    ensures Forget(Forget(h, ids - left), {id}) == Forget(h, ids - (left - {id}))
  {
    ForgetTwice(h, ids - left, {id});
    assert ids - left + {id} == ids - (left - {id});
  }

  class InMemoryTaskManager {
    var tasks: map<int, Task>
    var epics: map<int, Epic>
    var subtasks: map<int, Subtask>
    var nextId: int
    /** `prioritizedTasks`, in the order the set iterates it. */
    var prioritized: seq<Task>
    const history: InMemoryHistoryManager

    predicate Stores()
      reads this
    {
      Consistent(tasks, epics, subtasks, nextId, prioritized)
    }

    ghost predicate Valid()
      reads this, history, history.Repr`prev, history.Repr`next
    {
      history.Valid() && Stores()
    }

    constructor (historyManager: InMemoryHistoryManager)
      requires historyManager.Valid()
      ensures Valid() && history == historyManager
      ensures tasks == map[] && epics == map[] && subtasks == map[]
      ensures nextId == 1 && prioritized == []
    {
      tasks, epics, subtasks := map[], map[], map[];
      nextId := 1;
      prioritized := [];
      history := historyManager;
    }

    /** `generateId`: the counter's value, then the counter moves on. */
    method GenerateId() returns (id: int)
      modifies this`nextId
      ensures id == old(nextId) && nextId == id + 1
    {
      id := nextId;
      nextId := nextId + 1;
    }

    method GetAllTasks() returns (r: seq<Task>)
      ensures IsListing(r, tasks)
    {
      r := Listing(tasks);
    }

    method GetAllEpics() returns (r: seq<Epic>)
      ensures IsListing(r, epics)
    {
      r := Listing(epics);
    }

    method GetAllSubtasks() returns (r: seq<Subtask>)
      ensures IsListing(r, subtasks)
    {
      r := Listing(subtasks);
    }

    /** The tracker's trail, oldest first. */
    method GetHistory() returns (r: seq<Task>)
      requires Valid()
      ensures r == history.Items
    {
      r := history.GetHistory();
    }

    /** `getPrioritizedTasks`: the schedule, in ascending start order. */
    function GetPrioritizedTasks(): (r: seq<Task>)
      reads this
      requires Stores()
      ensures Sorted(r) && |r| == |prioritized|
      ensures forall x :: x in r <==> x in prioritized
    {
      prioritized
    }

    function GetSubtasksByEpic(epicId: int): seq<Subtask>
      reads this
    {
      SubtasksByEpic(epics, subtasks, epicId)
    }

    // -------------------------------------------------------------------
    // Reads that record into the trail

    method GetTask(id: int) returns (r: Option<Task>)
      requires Valid()
      modifies history, history.Repr`prev, history.Repr`next
      ensures Valid() && fresh(history.Repr - old(history.Repr))
      ensures r == if id in tasks then Some(tasks[id]) else None
      ensures history.Items == if id in tasks then Record(old(history.Items), tasks[id]) else old(history.Items)
    {
      r := if id in tasks then Some(tasks[id]) else None;
      history.Add(r);
    }

    method GetEpic(id: int) returns (r: Option<Epic>)
      requires Valid()
      modifies history, history.Repr`prev, history.Repr`next
      ensures Valid() && fresh(history.Repr - old(history.Repr))
      ensures r == if id in epics then Some(epics[id]) else None
      ensures history.Items == if id in epics then Record(old(history.Items), epics[id]) else old(history.Items)
    {
      r := if id in epics then Some(epics[id]) else None;
      var seen: Option<Task> := if id in epics then Some(epics[id]) else None;
      history.Add(seen);
    }

    method GetSubtask(id: int) returns (r: Option<Subtask>)
      requires Valid()
      modifies history, history.Repr`prev, history.Repr`next
      ensures Valid() && fresh(history.Repr - old(history.Repr))
      ensures r == if id in subtasks then Some(subtasks[id]) else None
      ensures history.Items == if id in subtasks then Record(old(history.Items), subtasks[id]) else old(history.Items)
    {
      r := if id in subtasks then Some(subtasks[id]) else None;
      var seen: Option<Task> := if id in subtasks then Some(subtasks[id]) else None;
      history.Add(seen);
    }

    // -------------------------------------------------------------------
    // The epic's derived state

    /** `updateEpicStatus`: a known epic gets the status of its resolving subtasks. */
    method UpdateEpicStatus(epicId: int)
      modifies this`epics
      ensures epicId !in old(epics) ==> epics == old(epics)
      ensures epicId in old(epics) ==>
                epics == old(epics)[epicId := old(epics)[epicId].(status := EpicStatus(SubtasksByEpic(old(epics), subtasks, epicId)))]
    {
      if epicId !in epics {
        return;
      }
      var epic := epics[epicId];
      var subtasksList := SubtasksByEpic(epics, subtasks, epicId);
      DecisionIsTotal(subtasksList, epic.status);
      epics := epics[epicId := epic.(status := DecideStatus(subtasksList, epic.status))];
    }

    /** `updateEpicTimeFields`: a known epic gets the time window of its resolving subtasks. */
    method UpdateEpicTimeFields(epicId: int)
      modifies this`epics
      ensures epicId !in old(epics) ==> epics == old(epics)
      ensures epicId in old(epics) ==>
                epics == old(epics)[epicId := WithTimeWindow(old(epics)[epicId], SubtasksByEpic(old(epics), subtasks, epicId))]
    {
      if epicId !in epics {
        return;
      }
      var subtasksList := SubtasksByEpic(epics, subtasks, epicId);
      var epic := UpdateTimeFields(epics[epicId], subtasksList);
      epics := epics[epicId := epic];
    }

    /** The two recomputations, in the order every caller runs them. */
    method RefreshEpic(epicId: int)
      requires Stores()
      modifies this`epics
      ensures Stores()
      ensures epicId !in old(epics) ==> epics == old(epics)
      ensures epicId in old(epics) ==> epics == old(epics)[epicId := Reaggregate(old(epics)[epicId], subtasks)]
    {
      UpdateEpicStatus(epicId);
      UpdateEpicTimeFields(epicId);
    }

    // -------------------------------------------------------------------
    // The schedule

    /** `addToPrioritized`: an item with a start time is offered to the ordered set. */
    method Prioritize(t: Task)
      requires Stores() && t.id < nextId
      modifies this`prioritized
      ensures Stores() && prioritized == AddToPrioritized(old(prioritized), t)
    {
      InsertSpec(prioritized, t);
      AddMembers(prioritized, t);
      prioritized := AddToPrioritized(prioritized, t);
    }

    /**
     * The entries with an id of the set are taken out of the schedule: one
     * `removeIf` per id, or the single one the corrected `deleteAllTasks`
     * runs for all task ids.
     */
    method Unschedule(ids: set<int>)
      requires Stores()
      modifies this`prioritized
      ensures Stores() && prioritized == Forget(old(prioritized), ids)
    {
      ForgetSorted(prioritized, ids);
      ForgetMembers(prioritized, ids);
      prioritized := Forget(prioritized, ids);
    }

    // -------------------------------------------------------------------
    // Creation

    /**
     * `createTask`: null is ignored; an item with a start that overlaps a
     * scheduled entry of another id than the caller's is refused; otherwise
     * it is stored under a fresh id and scheduled when it has a start.
     */
    method CreateTask(task: Option<Task>) returns (outcome: Outcome)
      requires Valid()
      modifies this
      ensures Valid()
      ensures task.None? ==> outcome == Ok && unchanged(this)
      ensures task.Some? && Conflicts(old(prioritized), task.value) ==> outcome == TimeConflict && unchanged(this)
      ensures task.Some? && !Conflicts(old(prioritized), task.value) ==>
                var t := task.value.(id := old(nextId));
                && outcome == Created(t.id)
                && tasks == old(tasks)[t.id := t] && epics == old(epics) && subtasks == old(subtasks)
                && nextId == old(nextId) + 1
                && prioritized == AddToPrioritized(old(prioritized), t)
      ensures outcome.Created? ==> outcome.id !in old(tasks) && outcome.id !in old(epics) && outcome.id !in old(subtasks)
    {
      if task.None? {
        return Ok;
      }
      if Conflicts(prioritized, task.value) {
        return TimeConflict;
      }
      var id := GenerateId();
      var t := task.value.(id := id);
      tasks := tasks[id := t];
      Prioritize(t);
      outcome := Created(id);
    }

    /** `createEpic`: null is ignored; otherwise the epic is stored under a fresh id. */
    method CreateEpic(epic: Option<Epic>) returns (outcome: Outcome)
      requires Valid()
      modifies this
      ensures Valid()
      ensures epic.None? ==> outcome == Ok && unchanged(this)
      ensures epic.Some? ==>
                var e := epic.value.(id := old(nextId));
                && outcome == Created(e.id)
                && epics == old(epics)[e.id := e] && tasks == old(tasks) && subtasks == old(subtasks)
                && nextId == old(nextId) + 1 && prioritized == old(prioritized)
      ensures outcome.Created? ==> outcome.id !in old(tasks) && outcome.id !in old(epics) && outcome.id !in old(subtasks)
    {
      if epic.None? {
        return Ok;
      }
      var id := GenerateId();
      epics := epics[id := epic.value.(id := id)];
      outcome := Created(id);
    }

    /** The subtask stored under its id and appended to its known epic, which is recomputed. */
    method Attach(s: Subtask)
      requires Stores() && s.id == nextId - 1 && s.part.epicId in epics
      modifies this`subtasks, this`epics
      ensures Stores()
      ensures subtasks == old(subtasks)[s.id := s]
      ensures epics == old(epics)[s.part.epicId := Reaggregate(AddSubtaskId(old(epics)[s.part.epicId], s.id), subtasks)]
    {
      var eid := s.part.epicId;
      subtasks := subtasks[s.id := s];
      var linked := AddSubtaskId(epics[eid], s.id);
      epics := epics[eid := linked];
      RefreshEpic(eid);
      assert epics == old(epics)[eid := Reaggregate(linked, subtasks)];
    }

    /**
     * `createSubtask`: null is ignored; an unknown epic and a time conflict
     * are refused; otherwise the subtask is stored under a fresh id, appended
     * to its epic's list, the epic is recomputed, and the subtask is
     * scheduled when it has a start.
     */
    method CreateSubtask(subtask: Option<Subtask>) returns (outcome: Outcome)
      requires Valid()
      modifies this
      ensures Valid()
      ensures subtask.None? ==> outcome == Ok && unchanged(this)
      ensures subtask.Some? && subtask.value.part.epicId !in old(epics) ==>
                outcome == EpicNotFound(subtask.value.part.epicId) && unchanged(this)
      ensures subtask.Some? && subtask.value.part.epicId in old(epics) && Conflicts(old(prioritized), subtask.value) ==>
                outcome == TimeConflict && unchanged(this)
      ensures subtask.Some? && subtask.value.part.epicId in old(epics) && !Conflicts(old(prioritized), subtask.value) ==>
                var s := subtask.value.(id := old(nextId));
                var eid := s.part.epicId;
                && outcome == Created(s.id)
                && subtasks == old(subtasks)[s.id := s] && tasks == old(tasks)
                && epics == old(epics)[eid := Reaggregate(AddSubtaskId(old(epics)[eid], s.id), subtasks)]
                && nextId == old(nextId) + 1
                && prioritized == AddToPrioritized(old(prioritized), s)
      ensures outcome.Created? ==> outcome.id !in old(tasks) && outcome.id !in old(epics) && outcome.id !in old(subtasks)
    {
      if subtask.None? {
        return Ok;
      }
      var eid := subtask.value.part.epicId;
      if eid !in epics {
        return EpicNotFound(eid);
      }
      if Conflicts(prioritized, subtask.value) {
        return TimeConflict;
      }
      var id := GenerateId();
      var s := subtask.value.(id := id);
      Attach(s);
      Prioritize(s);
      outcome := Created(id);
    }

    // -------------------------------------------------------------------
    // Updates

    /** The stored task replaced, and its schedule entry with it. */
    method Replace(t: Task)
      requires Stores() && t.id in tasks
      modifies this`tasks, this`prioritized
      ensures Stores()
      ensures tasks == old(tasks)[t.id := t]
      ensures prioritized == AddToPrioritized(Forget(old(prioritized), {t.id}), t)
    {
      Unschedule({t.id});
      tasks := tasks[t.id := t];
      Prioritize(t);
    }

    /**
     * `updateTask`: null and unknown ids are ignored; a time conflict is
     * refused; otherwise the entry is replaced in the store and in the
     * schedule, and the new value is recorded in the trail.
     */
    method UpdateTask(task: Option<Task>) returns (outcome: Outcome)
      requires Valid()
      modifies this, history, history.Repr`prev, history.Repr`next
      ensures Valid() && fresh(history.Repr - old(history.Repr))
      ensures task.None? || task.value.id !in old(tasks) ==>
                outcome == Ok && unchanged(this) && history.Items == old(history.Items)
      ensures task.Some? && task.value.id in old(tasks) && Conflicts(old(prioritized), task.value) ==>
                outcome == TimeConflict && unchanged(this) && history.Items == old(history.Items)
      ensures task.Some? && task.value.id in old(tasks) && !Conflicts(old(prioritized), task.value) ==>
                var t := task.value;
                && outcome == Ok
                && tasks == old(tasks)[t.id := t] && epics == old(epics) && subtasks == old(subtasks)
                && nextId == old(nextId)
                && prioritized == AddToPrioritized(Forget(old(prioritized), {t.id}), t)
                && history.Items == Record(old(history.Items), t)
    {
      if task.None? || task.value.id !in tasks {
        return Ok;
      }
      var t := task.value;
      if Conflicts(prioritized, t) {
        return TimeConflict;
      }
      Replace(t);
      history.Add(Some(t));
      outcome := Ok;
    }

    /** `updateEpic`: null and unknown ids are ignored; otherwise the epic is replaced as given. */
    method UpdateEpic(epic: Option<Epic>)
      requires Valid()
      modifies this`epics
      ensures Valid()
      ensures epics == if epic.None? || epic.value.id !in old(epics) then old(epics)
                       else old(epics)[epic.value.id := epic.value]
    {
      if epic.None? || epic.value.id !in epics {
        return;
      }
      epics := epics[epic.value.id := epic.value];
    }

    /**
     * `updateSubtask`: null, unknown ids and unknown epics are ignored;
     * otherwise the subtask is replaced and the epic it now names is
     * recomputed. The schedule keeps the old value.
     */
    method UpdateSubtask(subtask: Option<Subtask>)
      requires Valid()
      modifies this`subtasks, this`epics
      ensures Valid()
      ensures subtask.None? || subtask.value.id !in old(subtasks) || subtask.value.part.epicId !in old(epics) ==>
                subtasks == old(subtasks) && epics == old(epics)
      ensures subtask.Some? && subtask.value.id in old(subtasks) && subtask.value.part.epicId in old(epics) ==>
                var s := subtask.value;
                && subtasks == old(subtasks)[s.id := s]
                && epics == old(epics)[s.part.epicId := Reaggregate(old(epics)[s.part.epicId], subtasks)]
    {
      if subtask.None? || subtask.value.id !in subtasks {
        return;
      }
      var s := subtask.value;
      if s.part.epicId !in epics {
        return;
      }
      subtasks := subtasks[s.id := s];
      RefreshEpic(s.part.epicId);
    }

    // -------------------------------------------------------------------
    // Deletion

    /** The stores' part of a deletion: keys leave the three stores and ids leave the schedule. */
    method Discard(taskIds: set<int>, epicIds: set<int>, subtaskIds: set<int>, unscheduled: set<int>)
      requires Stores()
      modifies this`tasks, this`epics, this`subtasks, this`prioritized
      ensures Stores()
      ensures tasks == old(tasks) - taskIds && epics == old(epics) - epicIds && subtasks == old(subtasks) - subtaskIds
      ensures prioritized == Forget(old(prioritized), unscheduled)
    {
      tasks, epics, subtasks := tasks - taskIds, epics - epicIds, subtasks - subtaskIds;
      Unschedule(unscheduled);
    }

    /**
     * `deleteAllTasks`, as evidently intended: the task ids leave the trail
     * and the schedule, and the store is emptied.
     */
    method DeleteAllTasks()
      requires Valid()
      modifies this, history, history.Repr`prev, history.Repr`next
      ensures Valid() && history.Repr == old(history.Repr)
      ensures tasks == map[] && epics == old(epics) && subtasks == old(subtasks) && nextId == old(nextId)
      ensures prioritized == Forget(old(prioritized), old(tasks).Keys)
      ensures history.Items == Forget(old(history.Items), old(tasks).Keys)
      ensures forall x :: x in prioritized ==> x.id !in old(tasks)
    {
      ForgetAll(history, tasks.Keys);
      ForgetMembers(prioritized, tasks.Keys);
      Discard(tasks.Keys, {}, {}, tasks.Keys);
    }

    /**
     * `deleteAllEpics`: every id some epic lists leaves the trail and the
     * schedule, the epic ids leave the trail, and both stores are emptied.
     */
    method DeleteAllEpics()
      requires Valid()
      modifies this, history, history.Repr`prev, history.Repr`next
      ensures Valid() && history.Repr == old(history.Repr)
      ensures epics == map[] && subtasks == map[] && tasks == old(tasks) && nextId == old(nextId)
      ensures prioritized == Forget(old(prioritized), ListedIds(old(epics)))
      ensures history.Items == Forget(Forget(old(history.Items), ListedIds(old(epics))), old(epics).Keys)
    {
      var listed := ListedIds(epics);
      ForgetAll(history, listed);
      ForgetAll(history, epics.Keys);
      Discard({}, epics.Keys, subtasks.Keys, listed);
    }

    /** The stores' part of `deleteAllSubtasks`. */
    method ClearSubtasks()
      requires Stores()
      modifies this`tasks, this`epics, this`subtasks, this`prioritized
      ensures Stores()
      ensures subtasks == map[] && tasks == old(tasks)
      ensures AllEmptied(old(epics), epics)
      ensures prioritized == Forget(old(prioritized), old(subtasks).Keys)
    {
      Discard({}, {}, subtasks.Keys, subtasks.Keys);
      EmptyEpics();
    }

    /** Every epic emptied and recomputed against the emptied subtask store. */
    method EmptyEpics()
      requires Stores() && subtasks == map[]
      modifies this`epics
      ensures Stores()
      ensures AllEmptied(old(epics), epics)
    {
      var cleared := EmptyAll(epics);
      forall k | k in cleared
        ensures cleared[k].id == k
      {
        EmptiedMeaning(epics[k]);
      }
      epics := cleared;
    }

    /**
     * `deleteAllSubtasks`, with the epics' lists emptied as the loop
     * evidently intends: the subtask ids leave the trail and the schedule,
     * the store is emptied, and every epic is recomputed.
     */
    method DeleteAllSubtasks()
      requires Valid()
      modifies this, history, history.Repr`prev, history.Repr`next
      ensures Valid() && history.Repr == old(history.Repr)
      ensures subtasks == map[] && tasks == old(tasks) && nextId == old(nextId)
      ensures AllEmptied(old(epics), epics)
      ensures prioritized == Forget(old(prioritized), old(subtasks).Keys)
      ensures history.Items == Forget(old(history.Items), old(subtasks).Keys)
    {
      ForgetAll(history, subtasks.Keys);
      ClearSubtasks();
    }

    /** `deleteTask`: the id leaves the schedule, the task store and the trail, whatever it names. */
    method DeleteTask(id: int)
      requires Valid()
      modifies this, history, history.Repr`prev, history.Repr`next
      ensures Valid() && history.Repr == old(history.Repr)
      ensures tasks == old(tasks) - {id} && epics == old(epics) && subtasks == old(subtasks) && nextId == old(nextId)
      ensures prioritized == Forget(old(prioritized), {id})
      ensures history.Items == Forget(old(history.Items), {id})
    {
      history.Remove(id);
      Discard({id}, {}, {}, {id});
    }

    /** The epic named by a deleted subtask, when known, drops the id and is recomputed. */
    method Detach(eid: int, subtaskId: int)
      requires Stores()
      modifies this`epics
      ensures Stores()
      ensures epics == if eid in old(epics)
                       then old(epics)[eid := Reaggregate(RemoveSubtaskId(old(epics)[eid], subtaskId), subtasks)]
                       else old(epics)
    {
      if eid in epics {
        var unlinked := RemoveSubtaskId(epics[eid], subtaskId);
        epics := epics[eid := unlinked];
        RefreshEpic(eid);
        assert epics == old(epics)[eid := Reaggregate(unlinked, subtasks)];
      }
    }

    /**
     * `deleteSubtask`: an unknown id changes nothing; otherwise the subtask
     * leaves the store, the schedule and the trail, and the epic it names,
     * when known, drops the id from its list and is recomputed.
     */
    method DeleteSubtask(subtaskId: int)
      requires Valid()
      modifies this, history, history.Repr`prev, history.Repr`next
      ensures Valid() && history.Repr == old(history.Repr)
      ensures subtaskId !in old(subtasks) ==> unchanged(this) && history.Items == old(history.Items)
      ensures subtaskId in old(subtasks) ==>
                var eid := old(subtasks)[subtaskId].part.epicId;
                && subtasks == old(subtasks) - {subtaskId}
                && tasks == old(tasks) && nextId == old(nextId)
                && prioritized == Forget(old(prioritized), {subtaskId})
                && history.Items == Forget(old(history.Items), {subtaskId})
                && epics == if eid in old(epics)
                            then old(epics)[eid := Reaggregate(RemoveSubtaskId(old(epics)[eid], subtaskId), subtasks)]
                            else old(epics)
    {
      if subtaskId !in subtasks {
        return;
      }
      history.Remove(subtaskId);
      DropSubtask(subtaskId);
    }

    /** The stores' part of `deleteSubtask`. */
    method DropSubtask(subtaskId: int)
      requires Stores() && subtaskId in subtasks
      modifies this`tasks, this`epics, this`subtasks, this`prioritized
      ensures Stores()
      ensures var eid := old(subtasks)[subtaskId].part.epicId;
              && subtasks == old(subtasks) - {subtaskId}
              && tasks == old(tasks)
              && prioritized == Forget(old(prioritized), {subtaskId})
              && epics == if eid in old(epics)
                          then old(epics)[eid := Reaggregate(RemoveSubtaskId(old(epics)[eid], subtaskId), subtasks)]
                          else old(epics)
    {
      var eid := subtasks[subtaskId].part.epicId;
      Discard({}, {}, {subtaskId}, {subtaskId});
      Detach(eid, subtaskId);
    }

    /**
     * `deleteEpic`: an unknown id changes nothing; otherwise the epic leaves
     * its store, every id it lists leaves the subtask store, the schedule
     * and the trail, and then the epic's own id leaves the trail.
     */
    method DeleteEpic(epicId: int)
      requires Valid()
      modifies this, history, history.Repr`prev, history.Repr`next
      ensures Valid() && history.Repr == old(history.Repr)
      ensures epicId !in old(epics) ==> unchanged(this) && history.Items == old(history.Items)
      ensures epicId in old(epics) ==>
                var ids := Elems(old(epics)[epicId].part.subtaskIds);
                && epics == old(epics) - {epicId}
                && subtasks == old(subtasks) - ids
                && tasks == old(tasks) && nextId == old(nextId)
                && prioritized == Forget(old(prioritized), ids)
                && history.Items == Forget(Forget(old(history.Items), ids), {epicId})
    {
      if epicId !in epics {
        return;
      }
      var ids := Elems(epics[epicId].part.subtaskIds);
      ForgetAll(history, ids);
      history.Remove(epicId);
      Discard({}, {epicId}, ids, ids);
    }
  }
}
