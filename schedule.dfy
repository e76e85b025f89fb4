/**
 * The schedule of `InMemoryTaskManager` (`prioritizedTasks`): a set ordered
 * by start time, with absent starts after every present one, whose
 * comparator looks at nothing else. It is kept here as the sequence the set
 * iterates, in ascending order. Two entries with equal start times compare
 * equal, so the second is never added.
 *
 * Also here: the half-open overlap test of `isTimeOverlap` and the conflict
 * check of `validateTaskTime`.
 */
module Schedule {
  import opened Wrappers
  import opened Model
  import opened History

  /** The comparator: present starts in time order, absent starts last and all equal. */
  predicate StartsBefore(x: Option<int>, y: Option<int>)
  {
    x.Some? && (y.None? || x.value < y.value)
  }

  /** Strictly ascending start times: no two entries compare equal. */
  predicate Sorted(s: seq<Task>)
  {
    forall i, j :: 0 <= i < j < |s| ==> StartsBefore(s[i].startTime, s[j].startTime)
  }

  /** Every entry has a start time. */
  predicate AllTimed(s: seq<Task>)
  {
    forall i :: 0 <= i < |s| ==> s[i].startTime.Some?
  }

  /** Some entry starts when `t` does, so the set treats `t` as present. */
  predicate HasStart(s: seq<Task>, start: Option<int>)
  {
    exists i :: 0 <= i < |s| && s[i].startTime == start
  }

  /**
   * `TreeSet.add`: the entry goes before the first entry that starts later;
   * if an entry with the same start is met first, nothing is added.
   */
  function Insert(s: seq<Task>, t: Task): seq<Task>
  {
    if s == [] then [t]
    else if s[0].startTime == t.startTime then s
    else if StartsBefore(t.startTime, s[0].startTime) then [t] + s
    else [s[0]] + Insert(s[1..], t)
  }

  /** `addToPrioritized`: only entries with a start time are scheduled. */
  function AddToPrioritized(s: seq<Task>, t: Task): seq<Task>
  {
    if t.startTime.Some? then Insert(s, t) else s
  }

  lemma StartsBeforeTrans(x: Option<int>, y: Option<int>, z: Option<int>)
    requires StartsBefore(x, y) && StartsBefore(y, z)
    ensures StartsBefore(x, z)
  {
  }

  lemma SortedTail(s: seq<Task>)
    requires Sorted(s) && s != []
    ensures Sorted(s[1..])
  {
    forall i, j | 0 <= i < j < |s| - 1
      ensures StartsBefore(s[1..][i].startTime, s[1..][j].startTime)
    {
      assert s[1..][i] == s[i + 1] && s[1..][j] == s[j + 1];
    }
  }

  lemma SortedCons(x: Task, s: seq<Task>)
    requires Sorted(s) && forall i :: 0 <= i < |s| ==> StartsBefore(x.startTime, s[i].startTime)
    ensures Sorted([x] + s)
  {
    var c := [x] + s;
    forall i, j | 0 <= i < j < |c| ensures StartsBefore(c[i].startTime, c[j].startTime) {
      assert c[j] == s[j - 1];
      if i > 0 {
        assert c[i] == s[i - 1];
      }
    }
  }

  /** Every entry of the result is an old entry or the new one. */
  lemma {:induction false} InsertMembers(s: seq<Task>, t: Task)
    ensures forall x :: x in Insert(s, t) ==> x in s || x == t
  {
    if s != [] && s[0].startTime != t.startTime && !StartsBefore(t.startTime, s[0].startTime) {
      InsertMembers(s[1..], t);
    }
  }

  /** Insertion keeps the schedule sorted. */
  lemma {:induction false} InsertSorted(s: seq<Task>, t: Task)
    requires Sorted(s)
    ensures Sorted(Insert(s, t))
  {
    if s == [] || s[0].startTime == t.startTime {
    } else if StartsBefore(t.startTime, s[0].startTime) {
      forall i | 0 <= i < |s| ensures StartsBefore(t.startTime, s[i].startTime) {
        if i > 0 {
          StartsBeforeTrans(t.startTime, s[0].startTime, s[i].startTime);
        }
      }
      SortedCons(t, s);
    } else {
      var tail := s[1..];
      SortedTail(s);
      InsertSorted(tail, t);
      InsertMembers(tail, t);
      var r := Insert(tail, t);
      forall i | 0 <= i < |r| ensures StartsBefore(s[0].startTime, r[i].startTime) {
        assert r[i] in r;
        if r[i] != t {
          var j :| 0 <= j < |tail| && tail[j] == r[i];
          assert tail[j] == s[j + 1];
        }
      }
      SortedCons(s[0], r);
    }
  }

  /** An item whose start is already taken leaves a sorted schedule unchanged. */
  lemma {:induction false} InsertTaken(s: seq<Task>, t: Task)
    requires Sorted(s) && HasStart(s, t.startTime)
    ensures Insert(s, t) == s
  {
    var i :| 0 <= i < |s| && s[i].startTime == t.startTime;
    if s[0].startTime == t.startTime {
    } else {
      assert i > 0;
      assert StartsBefore(s[0].startTime, t.startTime);
      assert !StartsBefore(t.startTime, s[0].startTime);
      var tail := s[1..];
      SortedTail(s);
      assert tail[i - 1] == s[i];
      InsertTaken(tail, t);
      assert s == [s[0]] + tail;
    }
  }

  /** An item whose start is free is added, and nothing else changes. */
  lemma {:induction false} InsertFree(s: seq<Task>, t: Task)
    requires !HasStart(s, t.startTime)
    ensures multiset(Insert(s, t)) == multiset(s) + multiset{t}
  {
    if s == [] {
    } else {
      assert s[0].startTime != t.startTime;
      if !StartsBefore(t.startTime, s[0].startTime) {
        var tail := s[1..];
        InsertFree(tail, t);
        assert s == [s[0]] + tail;
      }
    }
  }

  /**
   * Insertion into a sorted schedule: the result is sorted, and it is the
   * old schedule plus `t` when no entry starts when `t` does, and the old
   * schedule unchanged otherwise.
   */
  lemma InsertSpec(s: seq<Task>, t: Task)
    requires Sorted(s)
    ensures Sorted(Insert(s, t))
    ensures HasStart(s, t.startTime) ==> Insert(s, t) == s
    ensures !HasStart(s, t.startTime) ==> multiset(Insert(s, t)) == multiset(s) + multiset{t}
  {
    InsertSorted(s, t);
    if HasStart(s, t.startTime) {
      InsertTaken(s, t);
    } else {
      InsertFree(s, t);
    }
  }

  /** `removeIf(task -> task.getId() == id)` for every id of a set, order kept. */
  lemma {:induction false} ForgetSorted(s: seq<Task>, ids: set<int>)
    requires Sorted(s)
    ensures Sorted(Forget(s, ids))
    ensures AllTimed(s) ==> AllTimed(Forget(s, ids))
  {
    ForgetMembers(s, ids);
    if s != [] {
      SortedTail(s);
      ForgetSorted(s[1..], ids);
      var r := Forget(s[1..], ids);
      ForgetMembers(s[1..], ids);
      forall i | 0 <= i < |r| ensures StartsBefore(s[0].startTime, r[i].startTime) {
        assert r[i] in s[1..];
        var j :| 0 <= j < |s[1..]| && s[1..][j] == r[i];
        assert s[1..][j] == s[j + 1];
      }
      if s[0].id !in ids {
        SortedCons(s[0], r);
      }
      if AllTimed(s) {
        forall i | 0 <= i < |Forget(s, ids)| ensures Forget(s, ids)[i].startTime.Some? {
          var x := Forget(s, ids)[i];
          assert x in Forget(s, ids);
          var j :| 0 <= j < |s| && s[j] == x;
        }
      }
    }
  }

  /** Adding keeps every entry timed, whatever is added. */
  lemma AddKeepsTimed(s: seq<Task>, t: Task)
    requires Sorted(s) && AllTimed(s)
    ensures Sorted(AddToPrioritized(s, t)) && AllTimed(AddToPrioritized(s, t))
  {
    if t.startTime.Some? {
      InsertSpec(s, t);
      var r := Insert(s, t);
      forall i | 0 <= i < |r| ensures r[i].startTime.Some? {
        assert r[i] in multiset(r);
        if r[i] != t {
          assert r[i] in multiset(s);
        }
      }
    }
  }

  // ---------------------------------------------------------------------
  // Overlap and conflicts

  /**
   * `isTimeOverlap(a, b)`: `a` starts before `b` ends and `b` starts before
   * `a` ends. An entry without an end takes no part (see the README).
   */
  predicate Overlap(a: Task, b: Task)
  {
    && a.startTime.Some? && b.startTime.Some?
    && EndTime(a).Some? && EndTime(b).Some?
    && a.startTime.value < EndTime(b).value
    && b.startTime.value < EndTime(a).value
  }

  /** The test is symmetric. */
  lemma OverlapSymmetric(a: Task, b: Task)
    ensures Overlap(a, b) <==> Overlap(b, a)
  {
  }

  /** Minute `m` lies in the half-open interval [start, start + duration) of `a`. */
  predicate Covers(a: Task, m: int)
    requires a.startTime.Some?
  {
    a.startTime.value <= m < a.startTime.value + Minutes(a)
  }

  /**
   * For plain tasks and subtasks of positive length, overlap is the
   * intersection of the half-open intervals [start, start + duration): items
   * that only touch do not overlap.
   */
  lemma OverlapIsIntersection(a: Task, b: Task)
    requires !a.part.EpicPart? && !b.part.EpicPart?
    requires a.startTime.Some? && b.startTime.Some? && Minutes(a) > 0 && Minutes(b) > 0
    ensures Overlap(a, b) <==> exists m :: Covers(a, m) && Covers(b, m)
  {
    var sa, sb := a.startTime.value, b.startTime.value;
    assert EndTime(a) == Some(sa + Minutes(a)) && EndTime(b) == Some(sb + Minutes(b));
    if Overlap(a, b) {
      var m := if sa < sb then sb else sa;
      assert Covers(a, m) && Covers(b, m);
    }
    if exists m :: Covers(a, m) && Covers(b, m) {
      var m :| Covers(a, m) && Covers(b, m);
      assert sa <= m < sb + Minutes(b) && sb <= m < sa + Minutes(a);
    }
  }

  /**
   * Equal starts pass the overlap test only when one of the two has no
   * positive length; so only such an item can be silently left out of the
   * schedule by the equal-start rule.
   */
  lemma EqualStartsWithoutOverlap(a: Task, b: Task)
    requires !a.part.EpicPart? && !b.part.EpicPart?
    requires a.startTime.Some? && a.startTime == b.startTime && !Overlap(a, b)
    ensures Minutes(a) <= 0 || Minutes(b) <= 0
  {
  }

  /**
   * `validateTaskTime`: an item with a start time conflicts when it overlaps
   * a scheduled entry with a different id. One without a start never does.
   */
  predicate Conflicts(s: seq<Task>, t: Task)
  {
    t.startTime.Some? && exists i :: 0 <= i < |s| && s[i].id != t.id && Overlap(t, s[i])
  }

  /** No two scheduled entries overlap. */
  predicate Disjoint(s: seq<Task>)
  {
    forall i, j :: 0 <= i < |s| && 0 <= j < |s| && i != j ==> !Overlap(s[i], s[j])
  }

  /**
   * Scheduling an item that passed validation, when no entry has its id,
   * keeps the schedule free of overlaps.
   */
  lemma {:induction false} AddKeepsDisjoint(s: seq<Task>, t: Task)
    requires Sorted(s) && Disjoint(s) && !Conflicts(s, t)
    requires forall i :: 0 <= i < |s| ==> s[i].id != t.id
    ensures Disjoint(AddToPrioritized(s, t))
  {
    if t.startTime.Some? {
      InsertSpec(s, t);
      var r := Insert(s, t);
      if !HasStart(s, t.startTime) {
        forall i, j | 0 <= i < |r| && 0 <= j < |r| && i != j ensures !Overlap(r[i], r[j]) {
          MemberOfInsert(s, t, r, i);
          MemberOfInsert(s, t, r, j);
          SortedPositionsDiffer(r, i, j);
          if r[i] == t {
            var j' :| 0 <= j' < |s| && s[j'] == r[j];
          } else if r[j] == t {
            var i' :| 0 <= i' < |s| && s[i'] == r[i];
            OverlapSymmetric(r[i], r[j]);
          } else {
            DistinctPositions(s, t, r, i, j);
          }
        }
      }
    }
  }

  lemma MemberOfInsert(s: seq<Task>, t: Task, r: seq<Task>, i: nat)
    requires r == Insert(s, t) && multiset(r) == multiset(s) + multiset{t} && i < |r|
    ensures r[i] == t || exists i' :: 0 <= i' < |s| && s[i'] == r[i]
  {
    assert r[i] in multiset(r);
    if r[i] != t {
      assert r[i] in multiset(s);
      assert r[i] in s;
    }
  }

  /** In a sorted result two positions hold different entries. */
  lemma SortedPositionsDiffer(r: seq<Task>, i: nat, j: nat)
    requires Sorted(r) && i < |r| && j < |r| && i != j
    ensures r[i] != r[j]
  {
    if i < j {
      assert StartsBefore(r[i].startTime, r[j].startTime);
    } else {
      assert StartsBefore(r[j].startTime, r[i].startTime);
    }
  }

  lemma DistinctPositions(s: seq<Task>, t: Task, r: seq<Task>, i: nat, j: nat)
    requires Sorted(s) && Disjoint(s) && r == Insert(s, t) && Sorted(r)
    requires multiset(r) == multiset(s) + multiset{t}
    requires i < |r| && j < |r| && i != j && r[i] != t && r[j] != t
    ensures !Overlap(r[i], r[j])
  {
    assert r[i] in multiset(r) && r[j] in multiset(r);
    assert r[i] in multiset(s) && r[j] in multiset(s);
    var i' :| 0 <= i' < |s| && s[i'] == r[i];
    var j' :| 0 <= j' < |s| && s[j'] == r[j];
    SortedPositionsDiffer(r, i, j);
  }

  /** Taking entries out keeps the schedule free of overlaps. */
  lemma ForgetKeepsDisjoint(s: seq<Task>, ids: set<int>)
    requires Sorted(s) && Disjoint(s)
    ensures Disjoint(Forget(s, ids))
  {
    var f := Forget(s, ids);
    ForgetSorted(s, ids);
    ForgetMembers(s, ids);
    forall i, j | 0 <= i < |f| && 0 <= j < |f| && i != j ensures !Overlap(f[i], f[j]) {
      assert f[i] in s && f[j] in s;
      var i' :| 0 <= i' < |s| && s[i'] == f[i];
      var j' :| 0 <= j' < |s| && s[j'] == f[j];
      SortedPositionsDiffer(f, i, j);
    }
  }

  /** Replacing an entry by one that passed validation keeps the schedule free of overlaps. */
  lemma ReplaceKeepsDisjoint(s: seq<Task>, t: Task)
    requires Sorted(s) && Disjoint(s) && !Conflicts(s, t)
    ensures Disjoint(AddToPrioritized(Forget(s, {t.id}), t))
  {
    var f := Forget(s, {t.id});
    ForgetSorted(s, {t.id});
    ForgetKeepsDisjoint(s, {t.id});
    ForgetMembers(s, {t.id});
    forall i | 0 <= i < |f| && f[i].id != t.id ensures !Overlap(t, f[i]) {
      assert f[i] in s;
      var i' :| 0 <= i' < |s| && s[i'] == f[i];
    }
    forall i | 0 <= i < |f| ensures f[i].id != t.id {
      assert f[i] in Forget(s, {t.id});
    }
    AddKeepsDisjoint(f, t);
  }

  /** Every entry after adding is an old entry or the added one. */
  lemma AddMembers(s: seq<Task>, t: Task)
    ensures forall x :: x in AddToPrioritized(s, t) ==> x in s || x == t
  {
    InsertMembers(s, t);
  }

  /**
   * Creation checks the item under the id the caller gave it and schedules
   * it under a fresh one. When no entry carries the caller's id, the
   * schedule stays free of overlaps.
   */
  lemma CreateKeepsDisjoint(s: seq<Task>, t: Task, newId: int)
    requires Sorted(s) && Disjoint(s) && !Conflicts(s, t)
    requires forall i :: 0 <= i < |s| ==> s[i].id != t.id && s[i].id != newId
    ensures Disjoint(AddToPrioritized(s, t.(id := newId)))
  {
    AddKeepsDisjoint(s, t.(id := newId));
  }

  /**
   * Validation skips every entry that carries the caller's id, so an item
   * created with the id of a scheduled entry can be scheduled on top of it.
   */
  lemma StaleIdSkipsCheck()
    ensures var a := Task(1, "a", "", New, Some(0), Some(10), Plain);
            var t := Task(1, "b", "", New, Some(5), Some(10), Plain);
            && Sorted([a]) && Disjoint([a]) && !Conflicts([a], t)
            && !Disjoint(AddToPrioritized([a], t.(id := 2)))
  {
    var a := Task(1, "a", "", New, Some(0), Some(10), Plain);
    var t := Task(1, "b", "", New, Some(5), Some(10), Plain);
    var r := AddToPrioritized([a], t.(id := 2));
    assert r == [a, t.(id := 2)];
    assert Overlap(r[0], r[1]);
  }
}
