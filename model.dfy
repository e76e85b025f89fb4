/**
 * The entity model of the tracker: tasks, epics and subtasks, their
 * statuses and their time fields.
 *
 * Entities are values. A Java `Task`, `Epic` or `Subtask` object becomes one
 * constructor of `Task`; the Java static types `Epic` and `Subtask` become
 * the subset types below. Times are minutes on a single integer clock and
 * durations are whole minutes; `None` stands for a `null` field.
 */
module Model {
  import opened Wrappers

  datatype Status = New | InProgress | Done

  /** `Task.Type`: what `getType()` answers. */
  datatype Kind = TaskKind | EpicKind | SubtaskKind

  /**
   * What only one kind carries: an epic its list of subtask ids and its own
   * end time, a subtask the id of its epic.
   */
  datatype Part =
    | Plain
    | EpicPart(subtaskIds: seq<int>, endTime: Option<int>)
    | SubtaskPart(epicId: int)

  /** The fields every task has, and the kind-specific part. */
  datatype Task = Task(id: int, name: string, description: string, status: Status,
                       startTime: Option<int>, duration: Option<int>, part: Part)

  type Epic = t: Task | t.part.EpicPart?
    witness Task(0, "", "", New, None, Some(0), EpicPart([], None))

  type Subtask = t: Task | t.part.SubtaskPart?
    witness Task(0, "", "", New, None, None, SubtaskPart(0))

  /** `new Task(name, description)` (Task.java is not part of this model; the
   * defaults are those its tests observe): no id yet (0), status NEW, no time. */
  function NewTask(name: string, description: string): (t: Task)
  {
    Task(0, name, description, New, None, None, Plain)
  }

  /**
   * `new Epic(name, description)`: no subtasks, duration zero, start and
   * end absent.
   */
  function NewEpic(name: string, description: string): (e: Epic)
    ensures e.name == name && e.description == description
    ensures e.id == 0 && e.status == New
    ensures e.part.subtaskIds == []
    ensures e.duration == Some(0) && e.startTime.None? && EndTime(e).None?
  {
    Task(0, name, description, New, None, Some(0), EpicPart([], None))
  }

  /**
   * `new Subtask(name, description, epicID)`. There is no setter for the epic
   * id, so `epicId` is the one given here for the value's whole life.
   */
  function NewSubtask(name: string, description: string, epicId: int): (s: Subtask)
    ensures s.name == name && s.description == description
    ensures s.part.epicId == epicId
    ensures s.id == 0 && s.status == New
    ensures s.startTime.None? && s.duration.None?
    ensures TypeOf(s) == SubtaskKind
  {
    Task(0, name, description, New, None, None, SubtaskPart(epicId))
  }

  /** `getType()`, dispatched on the constructor. */
  function TypeOf(t: Task): (k: Kind)
    ensures k == EpicKind <==> t.part.EpicPart?
    ensures k == SubtaskKind <==> t.part.SubtaskPart?
  {
    match t.part
    case Plain => TaskKind
    case EpicPart(_, _) => EpicKind
    case SubtaskPart(_) => SubtaskKind
  }

  /** The duration in minutes, with an absent duration counted as zero. */
  function Minutes(t: Task): int
  {
    t.duration.GetOr(0)
  }

  /**
   * `getEndTime()`. An epic answers its stored `endTime` field; any other
   * task answers start plus duration, and nothing when it has no start.
   */
  function EndTime(t: Task): (r: Option<int>)
    ensures t.part.EpicPart? ==> r == t.part.endTime
    ensures !t.part.EpicPart? ==> (r.Some? <==> t.startTime.Some?)
    ensures !t.part.EpicPart? && r.Some? ==> r.value - t.startTime.value == Minutes(t)
  {
    if t.part.EpicPart? then t.part.endTime
    else if t.startTime.None? then None
    else Some(t.startTime.value + Minutes(t))
  }

  // ---------------------------------------------------------------------
  // The epic's list of subtask ids

  /**
   * `getSubtaskIds()` returns a copy and `setSubtaskIds` stores one. With
   * values every read and every store is a copy, so the two reduce to
   * reading and replacing the list.
   */
  function GetSubtaskIds(e: Epic): (ids: seq<int>)
    ensures ids == e.part.subtaskIds
  {
    e.part.subtaskIds
  }

  function SetSubtaskIds(e: Epic, ids: seq<int>): (r: Epic)
    ensures GetSubtaskIds(r) == ids
    ensures r == e.(part := e.part.(subtaskIds := ids))
  {
    e.(part := e.part.(subtaskIds := ids))
  }

  /** `addSubtaskId`: appends at the end; nothing else of the epic changes. */
  function AddSubtaskId(e: Epic, id: int): (r: Epic)
    ensures r.part.subtaskIds == e.part.subtaskIds + [id]
    ensures r.part.subtaskIds[..|e.part.subtaskIds|] == e.part.subtaskIds
    ensures r == e.(part := e.part.(subtaskIds := r.part.subtaskIds))
  {
    e.(part := e.part.(subtaskIds := e.part.subtaskIds + [id]))
  }

  /** `List.remove(Object)`: drops the first occurrence of `x`, if any. */
  function RemoveFirst(s: seq<int>, x: int): seq<int>
  {
    if s == [] then []
    else if s[0] == x then s[1..]
    else [s[0]] + RemoveFirst(s[1..], x)
  }

  /** RemoveFirst leaves a list without `x` unchanged. */
  lemma {:induction false} RemoveFirstAbsent(s: seq<int>, x: int)
    requires x !in s
    ensures RemoveFirst(s, x) == s
  {
    if s != [] {
      RemoveFirstAbsent(s[1..], x);
    }
  }

  /**
   * When `k` is the first position holding `x`, RemoveFirst takes out exactly
   * that position and keeps the rest in order.
   */
  lemma {:induction false} RemoveFirstAt(s: seq<int>, x: int, k: nat)
    requires k < |s| && s[k] == x && x !in s[..k]
    ensures RemoveFirst(s, x) == s[..k] + s[k + 1..]
  {
    if k > 0 {
      assert s[0] in s[..k];
      assert s[1..][..k - 1] == s[1..k];
      RemoveFirstAt(s[1..], x, k - 1);
      assert s[..k] == [s[0]] + s[1..k];
      assert s[1..][k..] == s[k + 1..];
    }
  }

  /** `removeSubtaskId`: removes the first occurrence of the id only. */
  function RemoveSubtaskId(e: Epic, id: int): (r: Epic)
    ensures r.part.subtaskIds == RemoveFirst(e.part.subtaskIds, id)
    ensures id !in e.part.subtaskIds ==> r == e
    ensures r == e.(part := e.part.(subtaskIds := r.part.subtaskIds))
  {
    var r := e.(part := e.part.(subtaskIds := RemoveFirst(e.part.subtaskIds, id)));
    if id !in e.part.subtaskIds then RemoveFirstAbsent(e.part.subtaskIds, id); r else r
  }

  // ---------------------------------------------------------------------
  // The epic's time window, as the loop of `updateTimeFields` computes it.
  // Each function folds the list from the front, one element at a time,
  // exactly as the loop does; they are stated on prefixes so that the loop
  // invariant can name them.

  /** The subtasks the loop scans: those with a start time. */
  predicate HasTimed(subs: seq<Task>)
  {
    exists i :: 0 <= i < |subs| && subs[i].startTime.Some?
  }

  /** `earliestStart`: replaced when a strictly earlier start is seen. */
  function EarliestStart(subs: seq<Task>): Option<int>
  {
    if subs == [] then None
    else
      var prev := EarliestStart(subs[..|subs| - 1]);
      var t := subs[|subs| - 1];
      if t.startTime.None? then prev
      else if prev.None? || t.startTime.value < prev.value then t.startTime
      else prev
  }

  /** `latestEnd`: replaced when a present, strictly later end is seen. */
  function LatestEnd(subs: seq<Task>): Option<int>
  {
    if subs == [] then None
    else
      var prev := LatestEnd(subs[..|subs| - 1]);
      var t := subs[|subs| - 1];
      if t.startTime.None? then prev
      else
        var end := EndTime(t);
        if end.Some? && (prev.None? || end.value > prev.value) then end else prev
  }

  /** `totalDuration`: the scanned subtasks' durations, absent ones as zero. */
  function TotalDuration(subs: seq<Task>): int
  {
    if subs == [] then 0
    else
      var t := subs[|subs| - 1];
      TotalDuration(subs[..|subs| - 1]) + (if t.startTime.None? then 0 else Minutes(t))
  }

  /** The epic after `updateTimeFields(subs)`. */
  function WithTimeWindow(e: Epic, subs: seq<Task>): Epic
  {
    if HasTimed(subs) then
      e.(startTime := EarliestStart(subs), duration := Some(TotalDuration(subs)),
         part := e.part.(endTime := LatestEnd(subs)))
    else
      e.(startTime := None, duration := Some(0), part := e.part.(endTime := None))
  }

  /**
   * `updateTimeFields`: one pass over the list with three accumulators and a
   * flag, then the epic's three time fields are set from them.
   */
  method UpdateTimeFields(e: Epic, subs: seq<Task>) returns (r: Epic)
    ensures r == WithTimeWindow(e, subs)
  {
    if |subs| == 0 {
      return e.(startTime := None, duration := Some(0), part := e.part.(endTime := None));
    }
    var earliestStart: Option<int> := None;
    var latestEnd: Option<int> := None;
    var totalDuration := 0;
    var hasValidSubtasks := false;
    var i := 0;
    while i < |subs|
      invariant 0 <= i <= |subs|
      invariant earliestStart == EarliestStart(subs[..i])
      invariant latestEnd == LatestEnd(subs[..i])
      invariant totalDuration == TotalDuration(subs[..i])
      invariant hasValidSubtasks == HasTimed(subs[..i])
    {
      var subtask := subs[i];
      assert subs[..i + 1][..i] == subs[..i];
      assert subs[..i + 1][i] == subtask;
      if subtask.startTime.None? {
        assert HasTimed(subs[..i + 1]) == HasTimed(subs[..i]) by {
          if HasTimed(subs[..i + 1]) {
            var j :| 0 <= j < i + 1 && subs[..i + 1][j].startTime.Some?;
            assert subs[..i][j] == subs[..i + 1][j];
          }
        }
        i := i + 1;
        continue;
      }
      hasValidSubtasks := true;
      if earliestStart.None? || subtask.startTime.value < earliestStart.value {
        earliestStart := subtask.startTime;
      }
      var subtaskEnd := EndTime(subtask);
      if subtaskEnd.Some? && (latestEnd.None? || subtaskEnd.value > latestEnd.value) {
        latestEnd := subtaskEnd;
      }
      totalDuration := totalDuration + Minutes(subtask);
      i := i + 1;
    }
    assert subs[..i] == subs;
    if hasValidSubtasks {
      r := e.(startTime := earliestStart, duration := Some(totalDuration),
              part := e.part.(endTime := latestEnd));
    } else {
      r := e.(startTime := None, duration := Some(0), part := e.part.(endTime := None));
    }
  }

  // ---------------------------------------------------------------------
  // What the time window means

  /**
   * With no timed subtask (in particular with no subtask at all) the window
   * is empty: start absent, duration zero, end absent. The other fields of
   * the epic are kept.
   */
  lemma WindowWithoutTimedSubtasks(e: Epic, subs: seq<Task>)
    requires !HasTimed(subs)
    ensures WithTimeWindow(e, subs).startTime.None?
    ensures WithTimeWindow(e, subs).duration == Some(0)
    ensures EndTime(WithTimeWindow(e, subs)).None?
    ensures WithTimeWindow(e, subs).part.subtaskIds == e.part.subtaskIds
    ensures WithTimeWindow(e, subs).(startTime := e.startTime, duration := e.duration,
                                     part := e.part) == e
  {
  }

  /** The earliest start is the start of a timed subtask and none starts earlier. */
  lemma {:induction false} EarliestStartIsMinimum(subs: seq<Task>)
    ensures EarliestStart(subs).Some? <==> HasTimed(subs)
    ensures EarliestStart(subs).Some? ==>
              (exists i :: 0 <= i < |subs| && subs[i].startTime == EarliestStart(subs)) &&
              (forall i :: 0 <= i < |subs| && subs[i].startTime.Some? ==>
                             EarliestStart(subs).value <= subs[i].startTime.value)
  {
    if subs != [] {
      var n := |subs| - 1;
      var init := subs[..n];
      EarliestStartIsMinimum(init);
      assert forall i :: 0 <= i < n ==> init[i] == subs[i];
      if HasTimed(init) {
        var j :| 0 <= j < n && init[j].startTime.Some?;
        assert subs[j].startTime.Some?;
      }
      if HasTimed(subs) && !subs[n].startTime.Some? {
        var j :| 0 <= j < |subs| && subs[j].startTime.Some?;
        assert init[j].startTime.Some?;
      }
    }
  }

  /**
   * The latest end is the end of a timed subtask, and no timed subtask ends
   * later. Subtasks without an end do not take part.
   */
  lemma {:induction false} LatestEndIsMaximum(subs: seq<Task>)
    ensures LatestEnd(subs).Some? ==>
              exists i :: 0 <= i < |subs| && subs[i].startTime.Some? &&
                          EndTime(subs[i]) == LatestEnd(subs)
    ensures forall i :: 0 <= i < |subs| && subs[i].startTime.Some? && EndTime(subs[i]).Some? ==>
                          LatestEnd(subs).Some? && EndTime(subs[i]).value <= LatestEnd(subs).value
  {
    if subs != [] {
      var n := |subs| - 1;
      var init := subs[..n];
      LatestEndIsMaximum(init);
      assert forall i :: 0 <= i < n ==> init[i] == subs[i];
      if LatestEnd(subs).Some? && LatestEnd(subs) == LatestEnd(init) {
        var j :| 0 <= j < n && init[j].startTime.Some? && EndTime(init[j]) == LatestEnd(init);
        assert subs[j] == init[j];
      }
    }
  }

  /** The sum of the durations of the timed subtasks (a reference definition). */
  function SumOfTimedDurations(subs: seq<Task>): int
  {
    if subs == [] then 0
    else (if subs[0].startTime.Some? then Minutes(subs[0]) else 0) + SumOfTimedDurations(subs[1..])
  }

  lemma {:induction false} SumSplit(a: seq<Task>, b: seq<Task>)
    ensures SumOfTimedDurations(a + b) == SumOfTimedDurations(a) + SumOfTimedDurations(b)
  {
    if a == [] {
      assert a + b == b;
    } else {
      assert (a + b)[1..] == a[1..] + b;
      SumSplit(a[1..], b);
    }
  }

  /** The total duration is the sum over the timed subtasks. */
  lemma {:induction false} TotalDurationIsSum(subs: seq<Task>)
    ensures TotalDuration(subs) == SumOfTimedDurations(subs)
  {
    if subs != [] {
      var n := |subs| - 1;
      TotalDurationIsSum(subs[..n]);
      assert subs == subs[..n] + [subs[n]];
      SumSplit(subs[..n], [subs[n]]);
      assert [subs[n]][1..] == [];
    }
  }

  /**
   * With at least one timed subtask, the epic starts at the minimum start,
   * ends at the maximum present end, and lasts the sum of the durations of
   * the timed subtasks.
   */
  lemma WindowWithTimedSubtasks(e: Epic, subs: seq<Task>)
    requires HasTimed(subs)
    ensures var r := WithTimeWindow(e, subs);
      && r.startTime.Some?
      && (exists i :: 0 <= i < |subs| && subs[i].startTime == r.startTime)
      && (forall i :: 0 <= i < |subs| && subs[i].startTime.Some? ==>
                        r.startTime.value <= subs[i].startTime.value)
      && r.duration == Some(SumOfTimedDurations(subs))
      && (forall i :: 0 <= i < |subs| && subs[i].startTime.Some? && EndTime(subs[i]).Some? ==>
                        EndTime(r).Some? && EndTime(subs[i]).value <= EndTime(r).value)
      && (EndTime(r).Some? ==>
            exists i :: 0 <= i < |subs| && subs[i].startTime.Some? && EndTime(subs[i]) == EndTime(r))
  {
    EarliestStartIsMinimum(subs);
    LatestEndIsMaximum(subs);
    TotalDurationIsSum(subs);
  }
}
