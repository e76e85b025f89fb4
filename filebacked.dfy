/**
 * The file-backed manager (`FileBackedTaskManager`): an in-memory manager
 * that writes every entity to its file after each change, and the loader
 * (`loadFromFile`) that rebuilds a manager from such a file.
 *
 * The file is modelled as its content: `save` replaces it, the loader is
 * given it. Reading and writing the disk, and the `ManagerSaveException`
 * of a failed write, are left out. The loader reads each line with the
 * record decoder that keeps trailing empty fields (`Records.Decode`); the
 * load with the reader as written (`ReplayAsWritten`) is kept beside it,
 * with what it loses of a save.
 */
module FileBacked {
  import opened Wrappers
  import opened Model
  import opened Aggregation
  import opened History
  import opened Schedule
  import opened Manager
  import opened Records

  /** The first line of every saved file. */
  const HEADER := "id,type,name,status,description,epic"

  // ---------------------------------------------------------------------
  // Saving

  /** The lines `save` appends for a listing: each record, then a line break. */
  function Appended(xs: seq<Task>): string
  {
    if xs == [] then "" else ToRecord(xs[0]) + "\n" + Appended(xs[1..])
  }

  /** What `save` writes: the header line, the tasks, the epics, then the subtasks, in the order listed. */
  function Serialize(ts: seq<Task>, es: seq<Epic>, ss: seq<Subtask>): string
  {
    HEADER + "\n" + Appended(ts) + Appended(es) + Appended(ss)
  }

  /** The records of a listing, in its order. */
  function RecordsOf(xs: seq<Task>): (r: seq<string>)
    ensures |r| == |xs|
  {
    seq(|xs|, i requires 0 <= i < |xs| => ToRecord(xs[i]))
  }

  /** The file holds some listing of each store. */
  ghost predicate SavedAs(content: string, tasks: map<int, Task>, epics: map<int, Epic>, subtasks: map<int, Subtask>)
  {
    exists ts: seq<Task>, es: seq<Epic>, ss: seq<Subtask> ::
      IsListing(ts, tasks) && IsListing(es, epics) && IsListing(ss, subtasks) && content == Serialize(ts, es, ss)
  }

  lemma {:induction false} AppendedConcat(a: seq<Task>, b: seq<Task>)
    ensures Appended(a + b) == Appended(a) + Appended(b)
  {
    if a != [] {
      assert (a + b)[1..] == a[1..] + b;
      AppendedConcat(a[1..], b);
    } else {
      assert a + b == b;
    }
  }

  /** A line followed by appended records is the join, by line breaks, of the line, the records and an empty last piece. */
  lemma {:induction false} AppendedJoin(p: string, xs: seq<Task>)
    ensures p + "\n" + Appended(xs) == Join([p] + RecordsOf(xs) + [""], '\n')
    decreases |xs|
  {
    var parts := [p] + RecordsOf(xs) + [""];
    assert parts[0] == p && |parts| >= 2;
    if xs == [] {
      assert parts[1..] == [""];
    } else {
      var r := ToRecord(xs[0]);
      AppendedJoin(r, xs[1..]);
      assert parts[1..] == [r] + RecordsOf(xs[1..]) + [""];
      assert p + "\n" + Appended(xs) == p + "\n" + (r + "\n" + Appended(xs[1..]));
    }
  }

  /** Concatenation of strings regroups. */
  lemma Assoc(x: string, y: string, z: string)
    ensures x + y + z == x + (y + z)
  {
  }

  /** What `save` writes is the join, by line breaks, of the header, the records and an empty last piece. */
  lemma SerializeJoin(ts: seq<Task>, es: seq<Epic>, ss: seq<Subtask>)
    ensures Serialize(ts, es, ss) == Join([HEADER] + RecordsOf(ts + es + ss) + [""], '\n')
  {
    var xs: seq<Task> := ts + es + ss;
    var h, a, b, c := HEADER + "\n", Appended(ts), Appended(es), Appended(ss);
    AppendedConcat(ts, es);
    AppendedConcat(ts + es, ss);
    assert Appended(xs) == a + b + c;
    Assoc(h + a, b, c);
    Assoc(h, a, b + c);
    Assoc(a, b, c);
    AppendedJoin(HEADER, xs);
  }

  /** No record of a well-formed entity, nor the header, holds a line break. */
  lemma RecordsAreLines(xs: seq<Task>)
    requires forall i :: 0 <= i < |xs| ==> WellFormed(xs[i])
    ensures forall i :: 0 <= i < |[HEADER] + RecordsOf(xs) + [""]| ==> '\n' !in ([HEADER] + RecordsOf(xs) + [""])[i]
    ensures xs != [] ==> RecordsOf(xs)[|xs| - 1] != ""
  {
    var parts := [HEADER] + RecordsOf(xs) + [""];
    forall i | 0 <= i < |parts|
      ensures '\n' !in parts[i]
    {
      if 1 <= i <= |xs| {
        RecordIsLine(xs[i - 1]);
      }
    }
    if xs != [] {
      RecordIsLine(xs[|xs| - 1]);
    }
  }

  /** The lines of a file that joins well-formed records: the header, then one record per entity. */
  lemma LinesOfRecords(xs: seq<Task>)
    requires forall i :: 0 <= i < |xs| ==> WellFormed(xs[i])
    ensures JavaSplit(Join([HEADER] + RecordsOf(xs) + [""], '\n'), '\n') == [HEADER] + RecordsOf(xs)
  {
    var body := [HEADER] + RecordsOf(xs);
    RecordsAreLines(xs);
    JavaSplitJoin(body + [""], '\n');
    assert body[|body| - 1] != "";
    assert DropTrailing(body + [""]) == body by {
      assert (body + [""])[..|body|] == body;
    }
  }

  /** The lines of a saved file: the header, then one record per entity saved. */
  lemma SavedLines(ts: seq<Task>, es: seq<Epic>, ss: seq<Subtask>)
    requires forall i :: 0 <= i < |ts + es + ss| ==> WellFormed((ts + es + ss)[i])
    ensures JavaSplit(Serialize(ts, es, ss), '\n') == [HEADER] + RecordsOf(ts + es + ss)
  {
    SerializeJoin(ts, es, ss);
    LinesOfRecords(ts + es + ss);
  }

  // ---------------------------------------------------------------------
  // Loading

  /** The local maps of `loadFromFile`, the schedule it fills and the largest id read. */
  datatype LoadState = LoadState(tasks: map<int, Task>, epics: map<int, Epic>, subtasks: map<int, Subtask>,
                                 schedule: seq<Task>, maxId: int)

  const Start := LoadState(map[], map[], map[], [], 0)

  /**
   * One turn of the loop of `loadFromFile`: a line that does not parse is
   * skipped; otherwise the largest id moves up, a task goes to its map and
   * straight into the schedule (whether timed or not), an epic to its map,
   * and a subtask to its map, into the schedule and onto the list of its
   * epic when that epic was read earlier.
   */
  function Absorb(st: LoadState, entry: Option<Task>): (r: LoadState)
    ensures entry.Some? ==> r.maxId >= entry.value.id
    ensures r.maxId >= st.maxId
  {
    match entry
    case None => st
    case Some(t) =>
      var top := if t.id > st.maxId then t.id else st.maxId;
      match t.part
      case Plain => st.(tasks := st.tasks[t.id := t], schedule := Insert(st.schedule, t), maxId := top)
      case EpicPart(_, _) => st.(epics := st.epics[t.id := t], maxId := top)
      case SubtaskPart(epicId) =>
        var linked := if epicId in st.epics then st.epics[epicId := AddSubtaskId(st.epics[epicId], t.id)] else st.epics;
        st.(subtasks := st.subtasks[t.id := t], schedule := Insert(st.schedule, t), epics := linked, maxId := top)
  }

  /** The loop over the lines after the header. */
  function Replay(lines: seq<string>): LoadState
  {
    if lines == [] then Start else Absorb(Replay(lines[..|lines| - 1]), Decode(lines[|lines| - 1]))
  }

  /** The same loop with each line read by `fromString` as written, whose `split(",")` drops trailing empty fields. */
  function ReplayAsWritten(lines: seq<string>): LoadState
  {
    if lines == [] then Start else Absorb(ReplayAsWritten(lines[..|lines| - 1]), FromRecord(lines[|lines| - 1]))
  }

  /** What the loader hands to the manager meets the manager's invariant once the counter is one past the largest id. */
  predicate Loadable(st: LoadState)
  {
    st.maxId >= 0 && Consistent(st.tasks, st.epics, st.subtasks, st.maxId + 1, st.schedule)
  }

  lemma AbsorbLoadable(st: LoadState, entry: Option<Task>)
    requires Loadable(st)
    ensures Loadable(Absorb(st, entry))
  {
    if entry.Some? {
      var t := entry.value;
      var r := Absorb(st, entry);
      var n := r.maxId + 1;
      KeyedRaise(st.tasks, st.maxId + 1, n);
      KeyedRaise(st.epics, st.maxId + 1, n);
      KeyedRaise(st.subtasks, st.maxId + 1, n);
      match t.part
      case Plain =>
        assert r.epics == st.epics && r.subtasks == st.subtasks;
        assert r.tasks == st.tasks[t.id := t] && r.schedule == Insert(st.schedule, t);
        KeyedPut(st.tasks, t, n);
        ScheduleInsert(st.schedule, t, n);
      case EpicPart(_, _) =>
        assert r.tasks == st.tasks && r.subtasks == st.subtasks && r.schedule == st.schedule;
        assert r.epics == st.epics[t.id := t];
        KeyedPut(st.epics, t, n);
      case SubtaskPart(epicId) =>
        assert r.tasks == st.tasks && r.schedule == Insert(st.schedule, t);
        assert r.subtasks == st.subtasks[t.id := t];
        KeyedPut(st.subtasks, t, n);
        ScheduleInsert(st.schedule, t, n);
        if epicId in st.epics {
          assert r.epics == st.epics[epicId := AddSubtaskId(st.epics[epicId], t.id)];
          KeyedPut(st.epics, AddSubtaskId(st.epics[epicId], t.id), n);
        } else {
          assert r.epics == st.epics;
        }
    }
  }

  lemma KeyedPut(m: map<int, Task>, t: Task, n: int)
    requires KeyedBelow(m, n) && t.id < n
    ensures KeyedBelow(m[t.id := t], n)
  {
  }

  lemma KeyedRaise(m: map<int, Task>, below: int, above: int)
    requires KeyedBelow(m, below) && below <= above
    ensures KeyedBelow(m, above)
  {
  }

  /** Inserting into an ordered schedule of ids below `n` an entry with an id below `n`. */
  lemma ScheduleInsert(s: seq<Task>, t: Task, n: int)
    requires Sorted(s) && (forall x :: x in s ==> x.id < n) && t.id < n
    ensures Sorted(Insert(s, t)) && forall x :: x in Insert(s, t) ==> x.id < n
  {
    InsertSorted(s, t);
    InsertMembers(s, t);
  }

  /** Whatever the file holds, the loaded stores are keyed below the new counter and the schedule is ordered. */
  lemma {:induction false} ReplayLoadable(lines: seq<string>)
    ensures Loadable(Replay(lines))
  {
    if lines != [] {
      ReplayLoadable(lines[..|lines| - 1]);
      AbsorbLoadable(Replay(lines[..|lines| - 1]), Decode(lines[|lines| - 1]));
    }
  }

  /** The epics after the loader's last loop: each recomputed against the loaded subtasks. */
  predicate AllRefreshed(before: map<int, Epic>, subtasks: map<int, Subtask>, after: map<int, Epic>)
  {
    after.Keys == before.Keys && forall k :: k in before ==> after[k] == Reaggregate(before[k], subtasks)
  }

  /** The last loop of `loadFromFile`: `updateEpicStatus` and `updateEpicTimeFields` for every epic loaded. */
  method RefreshEpics(manager: InMemoryTaskManager)
    requires manager.Stores()
    modifies manager`epics
    ensures manager.Stores()
    ensures AllRefreshed(old(manager.epics), manager.subtasks, manager.epics)
  {
    var left := manager.epics.Keys;
    while left != {}
      invariant left <= old(manager.epics).Keys
      invariant manager.Stores()
      invariant manager.epics.Keys == old(manager.epics).Keys
      invariant forall k :: k in old(manager.epics) ==>
        manager.epics[k] == if k in left then old(manager.epics)[k] else Reaggregate(old(manager.epics)[k], manager.subtasks)
      decreases |left|
    {
      ghost var some := Pick(left);
      var k :| k in left;
      manager.RefreshEpic(k);
      left := left - {k};
    }
  }

  /**
   * `loadFromFile`: a fresh manager on the file; when the file has a line
   * after the header, the stores are the replayed maps, the counter is one
   * past the largest id read, the schedule the one filled, and every epic
   * recomputed. The recency tracker starts empty.
   */
  method LoadFromFile(content: string) returns (m: FileBackedTaskManager)
    ensures fresh(m) && fresh(m.manager) && m.Valid() && m.file == content
    ensures m.manager.history.Items == []
    ensures |JavaSplit(content, '\n')| <= 1 ==>
      && m.manager.tasks == map[] && m.manager.epics == map[] && m.manager.subtasks == map[]
      && m.manager.nextId == 1 && m.manager.prioritized == []
    ensures |JavaSplit(content, '\n')| > 1 ==>
      var st := Replay(JavaSplit(content, '\n')[1..]);
      && m.manager.tasks == st.tasks && m.manager.subtasks == st.subtasks
      && AllRefreshed(st.epics, st.subtasks, m.manager.epics)
      && m.manager.nextId == st.maxId + 1 && m.manager.prioritized == st.schedule
  {
    var history := new InMemoryHistoryManager();
    m := new FileBackedTaskManager(history, content);
    var lines := JavaSplit(content, '\n');
    if |lines| > 1 {
      var st := ReadLines(lines);
      Adopt(m.manager, st);
    }
  }

  /** The loop of `loadFromFile` over the lines after the header. */
  method ReadLines(lines: seq<string>) returns (st: LoadState)
    requires lines != []
    ensures st == Replay(lines[1..]) && Loadable(st)
  {
    st := Start;
    var i := 1;
    while i < |lines|
      invariant 1 <= i <= |lines|
      invariant st == Replay(lines[1..i])
    {
      assert lines[1..i + 1][..i - 1] == lines[1..i];
      st := Absorb(st, Decode(lines[i]));
      i := i + 1;
    }
    assert lines[1..i] == lines[1..];
    ReplayLoadable(lines[1..]);
  }

  /** Hands the loaded maps, the counter and the schedule to the manager, then recomputes every epic. */
  method Adopt(manager: InMemoryTaskManager, st: LoadState)
    requires Loadable(st)
    modifies manager`tasks, manager`epics, manager`subtasks, manager`nextId, manager`prioritized
    ensures manager.Stores()
    ensures manager.tasks == st.tasks && manager.subtasks == st.subtasks
    ensures AllRefreshed(st.epics, st.subtasks, manager.epics)
    ensures manager.nextId == st.maxId + 1 && manager.prioritized == st.schedule
  {
    manager.tasks := st.tasks;
    manager.epics := st.epics;
    manager.subtasks := st.subtasks;
    manager.nextId := st.maxId + 1;
    manager.prioritized := st.schedule;
    RefreshEpics(manager);
  }

  // ---------------------------------------------------------------------
  // Loading what was saved

  /** The loop run on records of whole entities, each read back as `Reloaded`. */
  function Rebuild(st: LoadState, xs: seq<Task>): LoadState
  {
    if xs == [] then st else Absorb(Rebuild(st, xs[..|xs| - 1]), Some(Reloaded(xs[|xs| - 1])))
  }

  /** The ids of a listing. */
  function IdsOf(xs: seq<Task>): set<int>
  {
    set i | 0 <= i < |xs| :: xs[i].id
  }

  lemma IdsOfLast(p: seq<Task>)
    requires p != []
    ensures IdsOf(p) == IdsOf(p[..|p| - 1]) + {p[|p| - 1].id}
  {
    var n := |p| - 1;
    forall i | 0 <= i < n
      ensures p[..n][i] == p[i]
    {
    }
    forall k | k in IdsOf(p)
      ensures k in IdsOf(p[..n]) + {p[n].id}
    {
      var i :| 0 <= i < |p| && p[i].id == k;
      if i < n {
        assert p[..n][i] == p[i];
      }
    }
  }

  /** The part of a store under the given ids. */
  function Only<V>(m: map<int, V>, ids: set<int>): map<int, V>
  {
    map k | k in ids && k in m :: m[k]
  }

  /** The ids of the subtasks of a listing that name the epic, in listing order. */
  function ChildIds(ss: seq<Subtask>, epicId: int): seq<int>
  {
    if ss == [] then []
    else
      var last := ss[|ss| - 1];
      ChildIds(ss[..|ss| - 1], epicId) + (if last.part.epicId == epicId then [last.id] else [])
  }

  lemma {:induction false} ReplayRecords(xs: seq<Task>)
    requires forall i :: 0 <= i < |xs| ==> WellFormed(xs[i])
    ensures Replay(RecordsOf(xs)) == Rebuild(Start, xs)
  {
    if xs != [] {
      var n := |xs| - 1;
      assert RecordsOf(xs)[..n] == RecordsOf(xs[..n]);
      ReplayRecords(xs[..n]);
      DecodeRecord(xs[n]);
    }
  }

  lemma {:induction false} RebuildConcat(st: LoadState, a: seq<Task>, b: seq<Task>)
    ensures Rebuild(st, a + b) == Rebuild(Rebuild(st, a), b)
  {
    if b == [] {
      assert a + b == a;
    } else {
      var n := |b| - 1;
      assert (a + b)[..|a + b| - 1] == a + b[..n];
      RebuildConcat(st, a, b[..n]);
    }
  }

  /** The largest id read is at least every id in the listing, and is one of them unless it was already reached. */
  lemma {:induction false} RebuildMax(st: LoadState, xs: seq<Task>)
    ensures var r := Rebuild(st, xs);
      && r.maxId >= st.maxId
      && (forall i :: 0 <= i < |xs| ==> xs[i].id <= r.maxId)
      && (r.maxId == st.maxId || r.maxId in IdsOf(xs))
  {
    if xs != [] {
      var n := |xs| - 1;
      RebuildMax(st, xs[..n]);
      assert IdsOf(xs) == IdsOf(xs[..n]) + {xs[n].id};
    }
  }

  /** Reading the tasks rebuilds the task store under the ids read. */
  lemma {:induction false} TasksPhase(p: seq<Task>, tasks: map<int, Task>)
    requires forall i :: 0 <= i < |p| ==> p[i].part.Plain? && p[i].id in tasks && tasks[p[i].id] == p[i]
    ensures var r := Rebuild(Start, p);
      r.tasks == Only(tasks, IdsOf(p)) && r.epics == map[] && r.subtasks == map[]
  {
    if p != [] {
      var n := |p| - 1;
      TasksPhase(p[..n], tasks);
      IdsOfLast(p);
    }
  }

  /** Reading the epics then fills the epic store with each epic as reloaded. */
  lemma {:induction false} EpicsPhase(st: LoadState, p: seq<Epic>, epics: map<int, Epic>)
    requires st.epics == map[]
    requires forall i :: 0 <= i < |p| ==> p[i].id in epics && epics[p[i].id] == p[i]
    ensures var r := Rebuild(st, p);
      && r.tasks == st.tasks && r.subtasks == st.subtasks
      && r.epics.Keys == IdsOf(p)
      && forall k :: k in r.epics ==> r.epics[k] == Reloaded(epics[k])
  {
    if p != [] {
      var n := |p| - 1;
      EpicsPhase(st, p[..n], epics);
      var q := Rebuild(st, p[..n]);
      assert Rebuild(st, p) == Absorb(q, Some(Reloaded(p[n])));
      AbsorbEpic(q, p[n]);
      IdsOfLast(p);
    }
  }

  lemma AbsorbEpic(q: LoadState, e: Epic)
    ensures var r := Absorb(q, Some(Reloaded(e)));
      r.tasks == q.tasks && r.subtasks == q.subtasks && r.epics == q.epics[e.id := Reloaded(e)]
  {
  }

  /** Reading the subtasks last fills their store and appends each to the list of the epic it names. */
  lemma {:induction false} SubtasksPhase(st: LoadState, p: seq<Subtask>, subtasks: map<int, Subtask>)
    requires st.subtasks == map[]
    requires forall i :: 0 <= i < |p| ==> p[i].id in subtasks && subtasks[p[i].id] == p[i]
    ensures var r := Rebuild(st, p);
      && r.tasks == st.tasks && r.subtasks == Only(subtasks, IdsOf(p))
      && r.epics.Keys == st.epics.Keys
      && forall k :: k in st.epics ==> r.epics[k] == SetSubtaskIds(st.epics[k], st.epics[k].part.subtaskIds + ChildIds(p, k))
  {
    if p == [] {
      forall k | k in st.epics
        ensures st.epics[k] == SetSubtaskIds(st.epics[k], st.epics[k].part.subtaskIds + ChildIds(p, k))
      {
        assert st.epics[k].part.subtaskIds + [] == st.epics[k].part.subtaskIds;
      }
    } else {
      var n := |p| - 1;
      var s := p[n];
      SubtasksPhase(st, p[..n], subtasks);
      var q := Rebuild(st, p[..n]);
      assert Rebuild(st, p) == Absorb(q, Some(s));
      AbsorbSubtask(q, s);
      IdsOfLast(p);
      OnlyStep(subtasks, IdsOf(p[..n]), s.id);
      forall k | k in st.epics
        ensures Absorb(q, Some(s)).epics[k] == SetSubtaskIds(st.epics[k], st.epics[k].part.subtaskIds + ChildIds(p, k))
      {
        LinkStep(st.epics[k], p, k);
      }
    }
  }

  /** A subtask read while every epic is present changes its own store and the list of the epic it names, nothing else. */
  lemma AbsorbSubtask(q: LoadState, s: Subtask)
    ensures var r := Absorb(q, Some(s));
      && r.tasks == q.tasks && r.subtasks == q.subtasks[s.id := s] && r.epics.Keys == q.epics.Keys
      && forall k :: k in q.epics ==> r.epics[k] == if s.part.epicId == k then AddSubtaskId(q.epics[k], s.id) else q.epics[k]
  {
  }

  lemma LinkStep(e: Epic, p: seq<Subtask>, k: int)
    requires p != []
    ensures var n := |p| - 1;
      var before := SetSubtaskIds(e, e.part.subtaskIds + ChildIds(p[..n], k));
      SetSubtaskIds(e, e.part.subtaskIds + ChildIds(p, k))
        == if p[n].part.epicId == k then AddSubtaskId(before, p[n].id) else before
  {
    var n := |p| - 1;
    if p[n].part.epicId == k {
      assert e.part.subtaskIds + ChildIds(p, k) == (e.part.subtaskIds + ChildIds(p[..n], k)) + [p[n].id];
    } else {
      assert ChildIds(p, k) == ChildIds(p[..n], k) + [];
    }
  }

  /** Adding a key of the store to the ids adds its entry. */
  lemma OnlyStep<V>(m: map<int, V>, ids: set<int>, k: int)
    requires k in m
    ensures Only(m, ids + {k}) == Only(m, ids)[k := m[k]]
  {
  }

  /** A listing of a store keyed by id lists every value under its own id and covers every key. */
  lemma ListingKeyed<V>(xs: seq<V>, m: map<int, V>, key: V -> int)
    requires IsListing(xs, m) && forall k :: k in m ==> key(m[k]) == k
    ensures forall i :: 0 <= i < |xs| ==> key(xs[i]) in m && m[key(xs[i])] == xs[i]
    ensures (set i | 0 <= i < |xs| :: key(xs[i])) == m.Keys
  {
    forall i | 0 <= i < |xs|
      ensures key(xs[i]) in m && m[key(xs[i])] == xs[i]
    {
      var x := xs[i];
      assert exists k :: k in m && m[k] == x;
      var k :| k in m && m[k] == x;
    }
    forall k | k in m
      ensures k in (set i | 0 <= i < |xs| :: key(xs[i]))
    {
      var v := m[k];
      assert v in xs;
      assert exists i :: 0 <= i < |xs| && xs[i] == v;
      var i :| 0 <= i < |xs| && xs[i] == v;
    }
  }

  lemma {:induction false} IdsOfConcat(a: seq<Task>, b: seq<Task>)
    ensures IdsOf(a + b) == IdsOf(a) + IdsOf(b)
  {
    var c := a + b;
    forall i | 0 <= i < |c|
      ensures c[i].id in IdsOf(a) + IdsOf(b)
    {
      if i >= |a| {
        assert c[i] == b[i - |a|];
      }
    }
    forall i | 0 <= i < |b|
      ensures b[i].id in IdsOf(c)
    {
      assert c[|a| + i] == b[i];
    }
    forall i | 0 <= i < |a|
      ensures a[i].id in IdsOf(c)
    {
      assert c[i] == a[i];
    }
  }

  /** The lines after the header of a saved file replay as the tasks, then the epics, then the subtasks, each reloaded. */
  lemma SavedReplay(ts: seq<Task>, es: seq<Epic>, ss: seq<Subtask>)
    requires forall i :: 0 <= i < |ts| ==> WellFormed(ts[i])
    requires forall i :: 0 <= i < |es| ==> WellFormed(es[i])
    requires forall i :: 0 <= i < |ss| ==> WellFormed(ss[i])
    ensures var lines := JavaSplit(Serialize(ts, es, ss), '\n');
      && |lines| == 1 + |ts| + |es| + |ss|
      && Replay(lines[1..]) == Rebuild(Rebuild(Rebuild(Start, ts), es), ss)
      && Replay(lines[1..]) == Rebuild(Start, ts + es + ss)
  {
    var xs: seq<Task> := ts + es + ss;
    forall i | 0 <= i < |xs|
      ensures WellFormed(xs[i])
    {
      if i < |ts| {
        assert xs[i] == ts[i];
      } else if i < |ts| + |es| {
        assert xs[i] == es[i - |ts|];
      } else {
        assert xs[i] == ss[i - |ts| - |es|];
      }
    }
    SavedLines(ts, es, ss);
    assert ([HEADER] + RecordsOf(xs))[1..] == RecordsOf(xs);
    ReplayRecords(xs);
    RebuildConcat(Start, ts + es, ss);
    RebuildConcat(Start, ts, es);
  }

  /** What a file can carry back: stores keyed by id, only plain tasks in the task store, and well-formed entities. */
  predicate Savable(tasks: map<int, Task>, epics: map<int, Epic>, subtasks: map<int, Subtask>)
  {
    && (forall k :: k in tasks ==> tasks[k].id == k && tasks[k].part.Plain? && WellFormed(tasks[k]))
    && (forall k :: k in epics ==> epics[k].id == k && WellFormed(epics[k]))
    && (forall k :: k in subtasks ==> subtasks[k].id == k && WellFormed(subtasks[k]))
  }

  /**
   * Loading what `save` wrote. The file has one line per entity after the
   * header; the tasks and the subtasks come back as they were; every epic
   * comes back with its id, name, description and status and no time
   * window, listing the saved subtasks that name it in the order they were
   * saved; and the largest id read is the largest id saved (0 when nothing
   * was), so the counter resumes past every saved id.
   */
  lemma LoadAfterSave(tasks: map<int, Task>, epics: map<int, Epic>, subtasks: map<int, Subtask>,
                      ts: seq<Task>, es: seq<Epic>, ss: seq<Subtask>)
    requires Savable(tasks, epics, subtasks)
    requires IsListing(ts, tasks) && IsListing(es, epics) && IsListing(ss, subtasks)
    ensures var lines := JavaSplit(Serialize(ts, es, ss), '\n');
      && |lines| == 1 + |tasks| + |epics| + |subtasks|
      && var st := Replay(lines[1..]);
      && st.tasks == tasks && st.subtasks == subtasks && st.epics.Keys == epics.Keys
      && (forall k :: k in epics ==> st.epics[k] == SetSubtaskIds(Reloaded(epics[k]), ChildIds(ss, k)))
      && (forall k :: k in tasks || k in epics || k in subtasks ==> k <= st.maxId)
      && (st.maxId == 0 || st.maxId in tasks || st.maxId in epics || st.maxId in subtasks)
  {
    ListedSavable(tasks, epics, subtasks, ts, es, ss);
    StoresOfSaved(tasks, epics, subtasks, ts, es, ss);
    SavedReplay(ts, es, ss);
    MaxOfSaved(tasks, epics, subtasks, ts, es, ss);
  }

  /** The listings of savable stores cover their keys and hold well-formed entities. */
  lemma ListedSavable(tasks: map<int, Task>, epics: map<int, Epic>, subtasks: map<int, Subtask>,
                      ts: seq<Task>, es: seq<Epic>, ss: seq<Subtask>)
    requires Savable(tasks, epics, subtasks)
    requires IsListing(ts, tasks) && IsListing(es, epics) && IsListing(ss, subtasks)
    ensures IdsOf(ts) == tasks.Keys && IdsOf(es) == epics.Keys && IdsOf(ss) == subtasks.Keys
    ensures forall i :: 0 <= i < |ts| ==> WellFormed(ts[i])
    ensures forall i :: 0 <= i < |es| ==> WellFormed(es[i])
    ensures forall i :: 0 <= i < |ss| ==> WellFormed(ss[i])
  {
    ListingKeyed(ts, tasks, (t: Task) => t.id);
    assert IdsOf(ts) == tasks.Keys;
    ListingKeyed(es, epics, (e: Epic) => e.id);
    assert IdsOf(es) == epics.Keys;
    ListingKeyed(ss, subtasks, (s: Subtask) => s.id);
    assert IdsOf(ss) == subtasks.Keys;
  }

  /** Replaying the saved entities rebuilds the stores. */
  lemma StoresOfSaved(tasks: map<int, Task>, epics: map<int, Epic>, subtasks: map<int, Subtask>,
                      ts: seq<Task>, es: seq<Epic>, ss: seq<Subtask>)
    requires Savable(tasks, epics, subtasks)
    requires IsListing(ts, tasks) && IsListing(es, epics) && IsListing(ss, subtasks)
    ensures var st := Rebuild(Rebuild(Rebuild(Start, ts), es), ss);
      && st.tasks == tasks && st.subtasks == subtasks && st.epics.Keys == epics.Keys
      && (forall k :: k in epics ==> st.epics[k] == SetSubtaskIds(Reloaded(epics[k]), ChildIds(ss, k)))
  {
    TasksLoaded(ts, tasks);
    var a := Rebuild(Start, ts);
    EpicsLoaded(a, es, epics);
    var b := Rebuild(a, es);
    SubtasksLoaded(b, ss, subtasks);
    EpicsLinked(b.epics, Rebuild(b, ss).epics, ss, epics);
  }

  /** Epics read back empty, then given the saved subtasks that name them, list exactly those. */
  lemma EpicsLinked(read: map<int, Epic>, linked: map<int, Epic>, ss: seq<Subtask>, epics: map<int, Epic>)
    requires read.Keys == epics.Keys && forall k :: k in read ==> read[k] == Reloaded(epics[k])
    requires linked.Keys == read.Keys
    requires forall k :: k in read ==> linked[k] == SetSubtaskIds(read[k], read[k].part.subtaskIds + ChildIds(ss, k))
    ensures forall k :: k in epics ==> linked[k] == SetSubtaskIds(Reloaded(epics[k]), ChildIds(ss, k))
  {
    forall k | k in epics
      ensures linked[k] == SetSubtaskIds(Reloaded(epics[k]), ChildIds(ss, k))
    {
      var e := Reloaded(epics[k]);
      assert k in read && read[k] == e;
      assert e.part.subtaskIds + ChildIds(ss, k) == ChildIds(ss, k);
    }
  }

  lemma TasksLoaded(ts: seq<Task>, tasks: map<int, Task>)
    requires IsListing(ts, tasks)
    requires forall k :: k in tasks ==> tasks[k].id == k && tasks[k].part.Plain?
    ensures var r := Rebuild(Start, ts);
      r.tasks == tasks && r.epics == map[] && r.subtasks == map[]
  {
    ListingKeyed(ts, tasks, (t: Task) => t.id);
    assert IdsOf(ts) == tasks.Keys;
    TasksPhase(ts, tasks);
    assert Only(tasks, tasks.Keys) == tasks;
  }

  lemma EpicsLoaded(st: LoadState, es: seq<Epic>, epics: map<int, Epic>)
    requires st.epics == map[]
    requires IsListing(es, epics)
    requires forall k :: k in epics ==> epics[k].id == k
    ensures var r := Rebuild(st, es);
      && r.tasks == st.tasks && r.subtasks == st.subtasks
      && r.epics.Keys == epics.Keys
      && forall k :: k in r.epics ==> r.epics[k] == Reloaded(epics[k])
  {
    ListingKeyed(es, epics, (e: Epic) => e.id);
    assert IdsOf(es) == epics.Keys;
    EpicsPhase(st, es, epics);
  }

  lemma SubtasksLoaded(st: LoadState, ss: seq<Subtask>, subtasks: map<int, Subtask>)
    requires st.subtasks == map[]
    requires IsListing(ss, subtasks)
    requires forall k :: k in subtasks ==> subtasks[k].id == k
    ensures var r := Rebuild(st, ss);
      && r.tasks == st.tasks && r.subtasks == subtasks
      && r.epics.Keys == st.epics.Keys
      && forall k :: k in st.epics ==> r.epics[k] == SetSubtaskIds(st.epics[k], st.epics[k].part.subtaskIds + ChildIds(ss, k))
  {
    ListingKeyed(ss, subtasks, (s: Subtask) => s.id);
    assert IdsOf(ss) == subtasks.Keys;
    SubtasksPhase(st, ss, subtasks);
    assert Only(subtasks, subtasks.Keys) == subtasks;
  }

  /** A child id names a subtask of the listing that names the epic, and each such subtask is listed. */
  lemma {:induction false} ChildIdsMembers(ss: seq<Subtask>, k: int)
    ensures forall x :: x in ChildIds(ss, k) ==> exists i :: 0 <= i < |ss| && ss[i].id == x && ss[i].part.epicId == k
    ensures forall i :: 0 <= i < |ss| && ss[i].part.epicId == k ==> ss[i].id in ChildIds(ss, k)
  {
    if ss != [] {
      var n := |ss| - 1;
      var p := ss[..n];
      ChildIdsMembers(p, k);
      forall x | x in ChildIds(ss, k)
        ensures exists i :: 0 <= i < |ss| && ss[i].id == x && ss[i].part.epicId == k
      {
        if x in ChildIds(p, k) {
          assert exists i :: 0 <= i < |p| && p[i].id == x && p[i].part.epicId == k;
          var i :| 0 <= i < |p| && p[i].id == x && p[i].part.epicId == k;
          assert ss[i] == p[i];
        } else {
          assert ss[n].id == x && ss[n].part.epicId == k;
        }
      }
      forall i | 0 <= i < |ss| && ss[i].part.epicId == k
        ensures ss[i].id in ChildIds(ss, k)
      {
        if i < n {
          assert p[i] == ss[i];
        }
      }
    }
  }

  /** Over a listing of the subtask store, the child ids of an epic are the stored subtasks that name it. */
  lemma ChildrenOfListing(ss: seq<Subtask>, subtasks: map<int, Subtask>, k: int)
    requires IsListing(ss, subtasks) && forall j :: j in subtasks ==> subtasks[j].id == j
    ensures forall x :: x in ChildIds(ss, k) <==> x in subtasks && subtasks[x].part.epicId == k
  {
    ListingKeyed(ss, subtasks, (s: Subtask) => s.id);
    ChildIdsMembers(ss, k);
    forall x | x in ChildIds(ss, k)
      ensures x in subtasks && subtasks[x].part.epicId == k
    {
      assert exists i :: 0 <= i < |ss| && ss[i].id == x && ss[i].part.epicId == k;
      var i :| 0 <= i < |ss| && ss[i].id == x && ss[i].part.epicId == k;
      assert ss[i].id in subtasks && subtasks[ss[i].id] == ss[i];
    }
    forall x | x in subtasks && subtasks[x].part.epicId == k
      ensures x in ChildIds(ss, k)
    {
      var v := subtasks[x];
      assert v in ss;
      assert exists i :: 0 <= i < |ss| && ss[i] == v;
      var i :| 0 <= i < |ss| && ss[i] == v;
      assert ss[i].id == x && ss[i].part.epicId == k;
    }
  }

  /**
   * Loading a file that `save` wrote for savable stores: one line per
   * entity after the header; the tasks and the subtasks come back as they
   * were; each epic comes back as reloaded, listing exactly the stored
   * subtasks that name it; and the counter resumes past every saved id.
   */
  lemma ReloadSaved(content: string, tasks: map<int, Task>, epics: map<int, Epic>, subtasks: map<int, Subtask>)
    requires SavedAs(content, tasks, epics, subtasks) && Savable(tasks, epics, subtasks)
    ensures var lines := JavaSplit(content, '\n');
      && |lines| == 1 + |tasks| + |epics| + |subtasks|
      && var st := Replay(lines[1..]);
      && st.tasks == tasks && st.subtasks == subtasks
      && EpicsReloaded(st.epics, epics, subtasks)
      && (forall k :: k in tasks || k in epics || k in subtasks ==> k <= st.maxId)
  {
    assert exists ts: seq<Task>, es: seq<Epic>, ss: seq<Subtask> ::
      IsListing(ts, tasks) && IsListing(es, epics) && IsListing(ss, subtasks) && content == Serialize(ts, es, ss);
    var ts: seq<Task>, es: seq<Epic>, ss: seq<Subtask> :|
      IsListing(ts, tasks) && IsListing(es, epics) && IsListing(ss, subtasks) && content == Serialize(ts, es, ss);
    LoadAfterSave(tasks, epics, subtasks, ts, es, ss);
    ReloadedEpics(Replay(JavaSplit(content, '\n')[1..]).epics, epics, ss, subtasks);
  }

  /** Each loaded epic is the saved one as reloaded, listing exactly the stored subtasks that name it. */
  ghost predicate EpicsReloaded(loaded: map<int, Epic>, epics: map<int, Epic>, subtasks: map<int, Subtask>)
  {
    && loaded.Keys == epics.Keys
    && (forall k :: k in epics ==> SetSubtaskIds(loaded[k], []) == Reloaded(epics[k]))
    && (forall k, x :: k in epics ==> (x in loaded[k].part.subtaskIds <==> x in subtasks && subtasks[x].part.epicId == k))
  }

  lemma ReloadedEpics(loaded: map<int, Epic>, epics: map<int, Epic>, ss: seq<Subtask>, subtasks: map<int, Subtask>)
    requires IsListing(ss, subtasks) && forall j :: j in subtasks ==> subtasks[j].id == j
    requires loaded.Keys == epics.Keys
    requires forall k :: k in epics ==> loaded[k] == SetSubtaskIds(Reloaded(epics[k]), ChildIds(ss, k))
    ensures EpicsReloaded(loaded, epics, subtasks)
  {
    forall k | k in epics
      ensures SetSubtaskIds(loaded[k], []) == Reloaded(epics[k])
      ensures forall x :: x in loaded[k].part.subtaskIds <==> x in subtasks && subtasks[x].part.epicId == k
    {
      ChildrenOfListing(ss, subtasks, k);
    }
  }

  /** The largest id replayed is the largest id saved. */
  lemma MaxOfSaved(tasks: map<int, Task>, epics: map<int, Epic>, subtasks: map<int, Subtask>,
                   ts: seq<Task>, es: seq<Epic>, ss: seq<Subtask>)
    requires IdsOf(ts) == tasks.Keys && IdsOf(es) == epics.Keys && IdsOf(ss) == subtasks.Keys
    ensures var st := Rebuild(Start, ts + es + ss);
      && (forall k :: k in tasks || k in epics || k in subtasks ==> k <= st.maxId)
      && (st.maxId == 0 || st.maxId in tasks || st.maxId in epics || st.maxId in subtasks)
  {
    var xs: seq<Task> := ts + es + ss;
    RebuildMax(Start, xs);
    IdsOfConcat(ts, es);
    IdsOfConcat(ts + es, ss);
    forall k | k in IdsOf(xs)
      ensures k <= Rebuild(Start, xs).maxId
    {
      var i :| 0 <= i < |xs| && xs[i].id == k;
    }
  }

  // ---------------------------------------------------------------------
  // Loading a save with the reader as written

  /** The entities of a listing that `fromString` as written reads back, in listing order. */
  function Kept(xs: seq<Task>): (r: seq<Task>)
    ensures forall t :: t in r <==> t in xs && !Lost(t)
  {
    if xs == [] then []
    else Kept(xs[..|xs| - 1]) + (if Lost(xs[|xs| - 1]) then [] else [xs[|xs| - 1]])
  }

  /** Replaying saved records as written rebuilds exactly the entities that are not lost. */
  lemma {:induction false} ReplayAsWrittenRecords(xs: seq<Task>)
    requires forall i :: 0 <= i < |xs| ==> WellFormed(xs[i])
    ensures ReplayAsWritten(RecordsOf(xs)) == Rebuild(Start, Kept(xs))
  {
    if xs != [] {
      var n := |xs| - 1;
      assert RecordsOf(xs)[..n] == RecordsOf(xs[..n]);
      var lines := RecordsOf(xs);
      assert lines[n] == ToRecord(xs[n]);
      ReplayAsWrittenRecords(xs[..n]);
      FromRecordRecord(xs[n]);
      var k := Kept(xs[..n]);
      assert ReplayAsWritten(lines) == Absorb(Rebuild(Start, k), FromRecord(ToRecord(xs[n])));
      if Lost(xs[n]) {
        assert Kept(xs) == k;
      } else {
        assert Kept(xs) == k + [xs[n]];
        assert (k + [xs[n]])[..|k|] == k;
      }
    }
  }

  lemma {:induction false} KeptConcat(a: seq<Task>, b: seq<Task>)
    ensures Kept(a + b) == Kept(a) + Kept(b)
  {
    if b == [] {
      assert a + b == a;
    } else {
      var n := |b| - 1;
      assert (a + b)[..|a + b| - 1] == a + b[..n];
      KeptConcat(a, b[..n]);
    }
  }

  /** A subtask is never lost. */
  lemma {:induction false} KeptSubtasks(ss: seq<Subtask>)
    ensures Kept(ss) == ss
  {
    if ss != [] {
      var n := |ss| - 1;
      var p: seq<Task> := ss[..n];
      KeptSubtasks(ss[..n]);
      assert !Lost(ss[n]);
      assert Kept(ss) == Kept(p) + [ss[n]];
      assert p + [ss[n]] == ss;
    }
  }

  /** The ids of the entries of a store that are not lost. */
  function Survivors(m: map<int, Task>): set<int>
  {
    set k | k in m && !Lost(m[k])
  }

  /** Over a keyed listing, the ids of the kept entities are the survivors of the store. */
  lemma KeptIds(xs: seq<Task>, m: map<int, Task>)
    requires forall i :: 0 <= i < |xs| ==> xs[i].id in m && m[xs[i].id] == xs[i]
    requires forall k :: k in m ==> m[k].id == k && m[k] in xs
    ensures IdsOf(Kept(xs)) == Survivors(m)
    ensures forall i :: 0 <= i < |Kept(xs)| ==> Kept(xs)[i].id in m && m[Kept(xs)[i].id] == Kept(xs)[i]
  {
    var r := Kept(xs);
    forall i | 0 <= i < |r|
      ensures r[i].id in m && m[r[i].id] == r[i] && !Lost(r[i])
    {
      assert r[i] in r;
      assert exists j :: 0 <= j < |xs| && xs[j] == r[i];
    }
    forall k | k in Survivors(m)
      ensures k in IdsOf(r)
    {
      var v := m[k];
      assert v in xs;
      assert v in r;
      assert exists i :: 0 <= i < |r| && r[i] == v;
      var i :| 0 <= i < |r| && r[i] == v;
      assert r[i].id == k;
    }
  }

  /** The lines after the header of a saved file replay, as written, as the kept tasks, the kept epics, then every subtask. */
  lemma SavedReplayAsWritten(ts: seq<Task>, es: seq<Epic>, ss: seq<Subtask>)
    requires forall i :: 0 <= i < |ts| ==> WellFormed(ts[i])
    requires forall i :: 0 <= i < |es| ==> WellFormed(es[i])
    requires forall i :: 0 <= i < |ss| ==> WellFormed(ss[i])
    ensures var lines := JavaSplit(Serialize(ts, es, ss), '\n');
      && |lines| == 1 + |ts| + |es| + |ss|
      && ReplayAsWritten(lines[1..]) == Rebuild(Rebuild(Rebuild(Start, Kept(ts)), Kept(es)), ss)
  {
    var xs: seq<Task> := ts + es + ss;
    forall i | 0 <= i < |xs|
      ensures WellFormed(xs[i])
    {
      if i < |ts| {
        assert xs[i] == ts[i];
      } else if i < |ts| + |es| {
        assert xs[i] == es[i - |ts|];
      } else {
        assert xs[i] == ss[i - |ts| - |es|];
      }
    }
    SavedLines(ts, es, ss);
    assert ([HEADER] + RecordsOf(xs))[1..] == RecordsOf(xs);
    ReplayAsWrittenRecords(xs);
    KeptConcat(ts + es, ss);
    KeptConcat(ts, es);
    KeptSubtasks(ss);
    RebuildConcat(Start, Kept(ts) + Kept(es), ss);
    RebuildConcat(Start, Kept(ts), Kept(es));
  }

  /** Replaying the kept entities rebuilds the surviving part of the stores. */
  lemma StoresOfKept(tasks: map<int, Task>, epics: map<int, Epic>, subtasks: map<int, Subtask>,
                     ts: seq<Task>, es: seq<Epic>, ss: seq<Subtask>)
    requires Savable(tasks, epics, subtasks)
    requires IsListing(ts, tasks) && IsListing(es, epics) && IsListing(ss, subtasks)
    ensures var st := Rebuild(Rebuild(Rebuild(Start, Kept(ts)), Kept(es)), ss);
      && st.tasks == Only(tasks, Survivors(tasks)) && st.subtasks == subtasks
      && st.epics.Keys == Survivors(epics)
      && (forall k :: k in st.epics ==> st.epics[k] == SetSubtaskIds(Reloaded(epics[k]), ChildIds(ss, k)))
  {
    KeptTasksLoaded(ts, tasks);
    var a := Rebuild(Start, Kept(ts));
    KeptEpicsLoaded(a, es, epics);
    var b := Rebuild(a, Kept(es));
    SubtasksLoaded(b, ss, subtasks);
    EpicsLinked(b.epics, Rebuild(b, ss).epics, ss, Only(epics, Survivors(epics)));
  }

  lemma KeptTasksLoaded(ts: seq<Task>, tasks: map<int, Task>)
    requires IsListing(ts, tasks)
    requires forall k :: k in tasks ==> tasks[k].id == k && tasks[k].part.Plain?
    ensures var r := Rebuild(Start, Kept(ts));
      r.tasks == Only(tasks, Survivors(tasks)) && r.epics == map[] && r.subtasks == map[]
  {
    ListingKeyed(ts, tasks, (t: Task) => t.id);
    KeptIds(ts, tasks);
    TasksPhase(Kept(ts), tasks);
  }

  lemma KeptEpicsLoaded(st: LoadState, es: seq<Epic>, epics: map<int, Epic>)
    requires st.epics == map[]
    requires IsListing(es, epics)
    requires forall k :: k in epics ==> epics[k].id == k
    ensures var r := Rebuild(st, Kept(es));
      && r.tasks == st.tasks && r.subtasks == st.subtasks
      && r.epics.Keys == Survivors(epics)
      && forall k :: k in r.epics ==> r.epics[k] == Reloaded(epics[k])
  {
    ListingKeyed(es, epics, (e: Epic) => e.id);
    KeptIds(es, epics);
    var ke: seq<Epic> := Kept(es);
    EpicsPhase(st, ke, Only(epics, Survivors(epics)));
  }

  /**
   * Loading what `save` wrote with the reader as written: every task and
   * epic with an empty description, no start and no duration is dropped,
   * the rest of the tasks and epics come back as with the corrected
   * reader, and every subtask comes back.
   */
  lemma LoadAfterSaveAsWritten(tasks: map<int, Task>, epics: map<int, Epic>, subtasks: map<int, Subtask>,
                               ts: seq<Task>, es: seq<Epic>, ss: seq<Subtask>)
    requires Savable(tasks, epics, subtasks)
    requires IsListing(ts, tasks) && IsListing(es, epics) && IsListing(ss, subtasks)
    ensures var lines := JavaSplit(Serialize(ts, es, ss), '\n');
      && |lines| == 1 + |tasks| + |epics| + |subtasks|
      && var st := ReplayAsWritten(lines[1..]);
      && st.tasks == Only(tasks, Survivors(tasks)) && st.subtasks == subtasks
      && st.epics.Keys == Survivors(epics)
      && (forall k :: k in st.epics ==> st.epics[k] == SetSubtaskIds(Reloaded(epics[k]), ChildIds(ss, k)))
  {
    ListedSavable(tasks, epics, subtasks, ts, es, ss);
    SavedReplayAsWritten(ts, es, ss);
    StoresOfKept(tasks, epics, subtasks, ts, es, ss);
  }

  /** A file holding only the record of a bare task (`BareTaskRecord`): no task as written, the task with the corrected reader. */
  lemma BareTaskFileAsWritten()
    ensures var t := NewTask("a", "").(id := 1);
      && ReplayAsWritten([ToRecord(t)]).tasks == map[]
      && Replay([ToRecord(t)]).tasks == map[1 := t]
  {
    var t := NewTask("a", "").(id := 1);
    var lines := [ToRecord(t)];
    BareTaskIsLost();
    assert lines[..0] == [];
    assert ReplayAsWritten(lines) == Absorb(Start, None);
    assert Replay(lines) == Absorb(Start, Some(t));
  }

  // ---------------------------------------------------------------------
  // The manager

  /** `FileBackedTaskManager`: the in-memory manager it extends, and its file. */
  class FileBackedTaskManager {
    const manager: InMemoryTaskManager
    /** The content of the file. */
    var file: string

    ghost predicate Valid()
      reads manager, manager.history, manager.history.Repr`prev, manager.history.Repr`next
    {
      manager.Valid()
    }

    /** The file holds the current stores. */
    ghost predicate Saved()
      reads this, manager
    {
      SavedAs(file, manager.tasks, manager.epics, manager.subtasks)
    }

    /** A manager on an existing file; nothing is read or written yet. */
    constructor (historyManager: InMemoryHistoryManager, file: string)
      requires historyManager.Valid()
      ensures Valid() && fresh(manager) && manager.history == historyManager && this.file == file
      ensures manager.tasks == map[] && manager.epics == map[] && manager.subtasks == map[]
      ensures manager.nextId == 1 && manager.prioritized == []
    {
      manager := new InMemoryTaskManager(historyManager);
      this.file := file;
    }

    /** `save`: the header, then every task, epic and subtask as listed by the manager. */
    method Save()
      modifies this`file
      ensures Saved()
    {
      var ts := manager.GetAllTasks();
      var es := manager.GetAllEpics();
      var ss := manager.GetAllSubtasks();
      file := Serialize(ts, es, ss);
    }

    /** Saves unless the operation threw, in which case the file is left as it was. */
    method SaveUnless(thrown: bool)
      modifies this`file
      ensures thrown ==> file == old(file)
      ensures !thrown ==> Saved()
    {
      if !thrown {
        Save();
      }
    }

    /** `createTask`, then `save` unless the in-memory manager threw. */
    method CreateTask(task: Option<Task>) returns (outcome: Outcome)
      requires Valid()
      modifies this`file, manager
      ensures Valid()
      ensures outcome == TimeConflict ==> file == old(file)
      ensures outcome != TimeConflict ==> Saved()
      ensures task.None? ==> outcome == Ok && unchanged(manager)
      ensures task.Some? && Conflicts(old(manager.prioritized), task.value) ==> outcome == TimeConflict && unchanged(manager)
      ensures task.Some? && !Conflicts(old(manager.prioritized), task.value) ==>
        var t := task.value.(id := old(manager.nextId));
        && outcome == Created(t.id)
        && manager.tasks == old(manager.tasks)[t.id := t]
        && manager.epics == old(manager.epics) && manager.subtasks == old(manager.subtasks)
        && manager.nextId == old(manager.nextId) + 1
        && manager.prioritized == AddToPrioritized(old(manager.prioritized), t)
    {
      outcome := manager.CreateTask(task);
      SaveUnless(outcome == TimeConflict);
    }

    /** `createEpic`, then `save`. */
    method CreateEpic(epic: Option<Epic>) returns (outcome: Outcome)
      requires Valid()
      modifies this`file, manager
      ensures Valid() && Saved()
      ensures epic.None? ==> outcome == Ok && unchanged(manager)
      ensures epic.Some? ==>
        var e := epic.value.(id := old(manager.nextId));
        && outcome == Created(e.id)
        && manager.epics == old(manager.epics)[e.id := e]
        && manager.tasks == old(manager.tasks) && manager.subtasks == old(manager.subtasks)
        && manager.nextId == old(manager.nextId) + 1 && manager.prioritized == old(manager.prioritized)
    {
      outcome := manager.CreateEpic(epic);
      Save();
    }

    /** `createSubtask`, then `save` unless the in-memory manager threw. */
    method CreateSubtask(subtask: Option<Subtask>) returns (outcome: Outcome)
      requires Valid()
      modifies this`file, manager
      ensures Valid()
      ensures outcome.EpicNotFound? || outcome == TimeConflict ==> file == old(file)
      ensures !(outcome.EpicNotFound? || outcome == TimeConflict) ==> Saved()
      ensures subtask.None? ==> outcome == Ok && unchanged(manager)
      ensures subtask.Some? && subtask.value.part.epicId !in old(manager.epics) ==>
        outcome == EpicNotFound(subtask.value.part.epicId) && unchanged(manager)
      ensures subtask.Some? && subtask.value.part.epicId in old(manager.epics) && Conflicts(old(manager.prioritized), subtask.value) ==>
        outcome == TimeConflict && unchanged(manager)
      ensures subtask.Some? && subtask.value.part.epicId in old(manager.epics) && !Conflicts(old(manager.prioritized), subtask.value) ==>
        var s := subtask.value.(id := old(manager.nextId));
        var eid := s.part.epicId;
        && outcome == Created(s.id)
        && manager.subtasks == old(manager.subtasks)[s.id := s] && manager.tasks == old(manager.tasks)
        && manager.epics == old(manager.epics)[eid := Reaggregate(AddSubtaskId(old(manager.epics)[eid], s.id), manager.subtasks)]
        && manager.nextId == old(manager.nextId) + 1
        && manager.prioritized == AddToPrioritized(old(manager.prioritized), s)
    {
      outcome := manager.CreateSubtask(subtask);
      SaveUnless(outcome.EpicNotFound? || outcome == TimeConflict);
    }

    /** `updateTask`, then `save` unless the in-memory manager threw. */
    method UpdateTask(task: Option<Task>) returns (outcome: Outcome)
      requires Valid()
      modifies this`file, manager, manager.history, manager.history.Repr`prev, manager.history.Repr`next
      ensures Valid() && fresh(manager.history.Repr - old(manager.history.Repr))
      ensures outcome == TimeConflict ==> file == old(file)
      ensures outcome != TimeConflict ==> Saved()
      ensures task.None? || task.value.id !in old(manager.tasks) ==>
        outcome == Ok && unchanged(manager) && manager.history.Items == old(manager.history.Items)
      ensures task.Some? && task.value.id in old(manager.tasks) && Conflicts(old(manager.prioritized), task.value) ==>
        outcome == TimeConflict && unchanged(manager) && manager.history.Items == old(manager.history.Items)
      ensures task.Some? && task.value.id in old(manager.tasks) && !Conflicts(old(manager.prioritized), task.value) ==>
        var t := task.value;
        && outcome == Ok
        && manager.tasks == old(manager.tasks)[t.id := t]
        && manager.epics == old(manager.epics) && manager.subtasks == old(manager.subtasks)
        && manager.nextId == old(manager.nextId)
        && manager.prioritized == AddToPrioritized(Forget(old(manager.prioritized), {t.id}), t)
        && manager.history.Items == Record(old(manager.history.Items), t)
    {
      outcome := manager.UpdateTask(task);
      SaveUnless(outcome == TimeConflict);
    }

    /** `updateEpic`, then `save`. */
    method UpdateEpic(epic: Option<Epic>)
      requires Valid()
      modifies this`file, manager`epics
      ensures Valid() && Saved()
      ensures manager.epics == if epic.None? || epic.value.id !in old(manager.epics) then old(manager.epics)
        else old(manager.epics)[epic.value.id := epic.value]
    {
      manager.UpdateEpic(epic);
      Save();
    }

    /** `updateSubtask`, then `save`. */
    method UpdateSubtask(subtask: Option<Subtask>)
      requires Valid()
      modifies this`file, manager`subtasks, manager`epics
      ensures Valid() && Saved()
      ensures subtask.None? || subtask.value.id !in old(manager.subtasks) || subtask.value.part.epicId !in old(manager.epics) ==>
        manager.subtasks == old(manager.subtasks) && manager.epics == old(manager.epics)
      ensures subtask.Some? && subtask.value.id in old(manager.subtasks) && subtask.value.part.epicId in old(manager.epics) ==>
        var s := subtask.value;
        && manager.subtasks == old(manager.subtasks)[s.id := s]
        && manager.epics == old(manager.epics)[s.part.epicId := Reaggregate(old(manager.epics)[s.part.epicId], manager.subtasks)]
    {
      manager.UpdateSubtask(subtask);
      Save();
    }

    /** `deleteTask`, then `save`. */
    method DeleteTask(id: int)
      requires Valid()
      modifies this`file, manager, manager.history, manager.history.Repr`prev, manager.history.Repr`next
      ensures Valid() && manager.history.Repr == old(manager.history.Repr) && Saved()
      ensures manager.tasks == old(manager.tasks) - {id}
      ensures manager.epics == old(manager.epics) && manager.subtasks == old(manager.subtasks)
      ensures manager.nextId == old(manager.nextId)
      ensures manager.prioritized == Forget(old(manager.prioritized), {id})
      ensures manager.history.Items == Forget(old(manager.history.Items), {id})
    {
      manager.DeleteTask(id);
      Save();
    }

    /** `deleteEpic`, then `save`. */
    method DeleteEpic(epicId: int)
      requires Valid()
      modifies this`file, manager, manager.history, manager.history.Repr`prev, manager.history.Repr`next
      ensures Valid() && manager.history.Repr == old(manager.history.Repr) && Saved()
      ensures epicId !in old(manager.epics) ==> unchanged(manager) && manager.history.Items == old(manager.history.Items)
      ensures epicId in old(manager.epics) ==>
        var ids := Elems(old(manager.epics)[epicId].part.subtaskIds);
        && manager.epics == old(manager.epics) - {epicId}
        && manager.subtasks == old(manager.subtasks) - ids
        && manager.tasks == old(manager.tasks) && manager.nextId == old(manager.nextId)
        && manager.prioritized == Forget(old(manager.prioritized), ids)
        && manager.history.Items == Forget(Forget(old(manager.history.Items), ids), {epicId})
    {
      manager.DeleteEpic(epicId);
      Save();
    }

    /** `deleteSubtask`, then `save`. */
    method DeleteSubtask(subtaskId: int)
      requires Valid()
      modifies this`file, manager, manager.history, manager.history.Repr`prev, manager.history.Repr`next
      ensures Valid() && manager.history.Repr == old(manager.history.Repr) && Saved()
      ensures subtaskId !in old(manager.subtasks) ==> unchanged(manager) && manager.history.Items == old(manager.history.Items)
      ensures subtaskId in old(manager.subtasks) ==>
        var eid := old(manager.subtasks)[subtaskId].part.epicId;
        && manager.subtasks == old(manager.subtasks) - {subtaskId}
        && manager.tasks == old(manager.tasks) && manager.nextId == old(manager.nextId)
        && manager.prioritized == Forget(old(manager.prioritized), {subtaskId})
        && manager.history.Items == Forget(old(manager.history.Items), {subtaskId})
        && manager.epics == if eid in old(manager.epics)
          then old(manager.epics)[eid := Reaggregate(RemoveSubtaskId(old(manager.epics)[eid], subtaskId), manager.subtasks)]
          else old(manager.epics)
    {
      manager.DeleteSubtask(subtaskId);
      Save();
    }

    /** `deleteAllTasks` as evidently intended, then `save`. */
    method DeleteAllTasks()
      requires Valid()
      modifies this`file, manager, manager.history, manager.history.Repr`prev, manager.history.Repr`next
      ensures Valid() && manager.history.Repr == old(manager.history.Repr) && Saved()
      ensures manager.tasks == map[] && manager.epics == old(manager.epics) && manager.subtasks == old(manager.subtasks)
      ensures manager.nextId == old(manager.nextId)
      ensures manager.prioritized == Forget(old(manager.prioritized), old(manager.tasks).Keys)
      ensures manager.history.Items == Forget(old(manager.history.Items), old(manager.tasks).Keys)
    {
      manager.DeleteAllTasks();
      Save();
    }

    /** `deleteAllEpics`, then `save`. */
    method DeleteAllEpics()
      requires Valid()
      modifies this`file, manager, manager.history, manager.history.Repr`prev, manager.history.Repr`next
      ensures Valid() && manager.history.Repr == old(manager.history.Repr) && Saved()
      ensures manager.epics == map[] && manager.subtasks == map[]
      ensures manager.tasks == old(manager.tasks) && manager.nextId == old(manager.nextId)
      ensures manager.prioritized == Forget(old(manager.prioritized), ListedIds(old(manager.epics)))
      ensures manager.history.Items == Forget(Forget(old(manager.history.Items), ListedIds(old(manager.epics))), old(manager.epics).Keys)
    {
      manager.DeleteAllEpics();
      Save();
    }

    /** `deleteAllSubtasks` as evidently intended, then `save`. */
    method DeleteAllSubtasks()
      requires Valid()
      modifies this`file, manager, manager.history, manager.history.Repr`prev, manager.history.Repr`next
      ensures Valid() && manager.history.Repr == old(manager.history.Repr) && Saved()
      ensures manager.subtasks == map[] && manager.tasks == old(manager.tasks) && manager.nextId == old(manager.nextId)
      ensures AllEmptied(old(manager.epics), manager.epics)
      ensures manager.prioritized == Forget(old(manager.prioritized), old(manager.subtasks).Keys)
      ensures manager.history.Items == Forget(old(manager.history.Items), old(manager.subtasks).Keys)
    {
      manager.DeleteAllSubtasks();
      Save();
    }
  }
}
