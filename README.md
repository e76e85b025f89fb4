# java-kanban in Dafny

This project models the core of java-kanban, a task tracker with three kinds of work item: tasks, epics, and subtasks that belong to an epic. It proves properties of that model. The modelled core is:

- **the entities** (`Epic.java`, `Subtask.java`): an epic keeps the ids of its subtasks, and recomputes its start, duration and end from them;
- **the recency tracker** (`InMemoryHistoryManager.java`): a doubly linked list of viewed tasks plus a map from id to node; a task seen again moves to the end;
- **the in-memory manager** (`InMemoryTaskManager.java`):
  - three hash-map stores and an id counter, plus a schedule (a `TreeSet` ordered by start, with absent starts last);
  - create, read, update and delete for the three kinds;
  - epic status and time aggregation;
  - time-overlap validation for scheduled tasks;
- **the older stand-alone manager** (`src/TaskManager.java`), which has its own epic-status rule;
- **the file-backed manager** (`FileBackedTaskManager.java`):
  - a CSV record codec (`toString` / `fromString`);
  - `save` after every change;
  - `loadFromFile`, which parses the file and rebuilds the stores, the schedule, the counter and the epics.

Modelling choices:

- **Entities are values.** `Model.Task` has one constructor with a kind-specific `Part`; `Epic` and `Subtask` are subset types. An epic's in-place updates (`addSubtaskId`, `removeSubtaskId`, `updateTimeFields`) become functions returning the updated epic, which the manager stores back under its id.
- **Time is integer minutes.** Times are minutes on one integer clock and durations are whole minutes; `None` stands for `null`.
- **The managers and the tracker are classes** whose fields the methods update:
  - the manager has map fields, the counter, and the schedule as an ordered `seq`;
  - the tracker has real doubly linked `Node` objects, with ghost `Items` and a ghost footprint.
- **Methods are proved against value-level specifications:**
  - the history against `Forget` and `Record`;
  - the schedule against `Insert`, `AddToPrioritized` and `Forget`;
  - epic aggregation against `EpicStatus` and `WithTimeWindow`;
  - the loader against `Absorb` and `Replay`.
- **HashMap iteration order is not fixed.** Listing a store returns some sequence satisfying `IsListing`: one entry per key, in an order the model leaves open.
- **File I/O becomes a string field.** The file is the `file` field of `FileBackedTaskManager`. `LoadFromFile` takes the file's content as a parameter.

## Model

| member | source | states |
|---|---|---|
| Model.NewTask | src/Main.java:13 | `new Task(name, description)`: id 0, status NEW, no start and no duration (`Task.java` is not part of this model) |
| Model.NewEpic | src/tracker/model/Epic.java:12-18 | a new epic has the given name and description, id 0, status NEW, no subtask ids, duration zero, and neither start nor end |
| Model.NewSubtask | src/tracker/model/Subtask.java:6-9 | a new subtask belongs to the given epic, has status NEW and no times, and reports type SUBTASK |
| Model.TypeOf | src/tracker/model/Epic.java:36-39 | the type is EPIC exactly for epics and SUBTASK exactly for subtasks |
| Model.EndTime | src/tracker/model/Epic.java:41-44 | an epic's end is its own stored field. Another task has an end exactly when it has a start, and the end is the start plus its duration, an absent duration counting as zero |
| Model.GetSubtaskIds | src/tracker/model/Epic.java:24-26 | returns the epic's id list |
| Model.SetSubtaskIds | src/tracker/model/Epic.java:20-22 | the epic's list becomes the given one; nothing else of the epic changes |
| Model.AddSubtaskId | src/tracker/model/Epic.java:28-30 | appends the id at the end, keeps the old list as a prefix, and changes nothing else |
| Model.RemoveSubtaskId | src/tracker/model/Epic.java:32-34 | removes the first occurrence of the id; an absent id leaves the epic unchanged |
| Model.RemoveFirstAt | src/tracker/model/Epic.java:32-34 | removing the first occurrence at position k splices out exactly position k |
| Model.RemoveFirstAbsent | src/tracker/model/Epic.java:32-34 | removing an id that is not in the list leaves the list as it is |
| Model.UpdateTimeFields | src/tracker/model/Epic.java:46-87 | the loop over the subtasks computes exactly the epic's time window over those subtasks |
| Model.WithTimeWindow | src/tracker/model/Epic.java:46-87 | the epic's window over its subtasks, stated by `Model.WindowWithTimedSubtasks` and `Model.WindowWithoutTimedSubtasks` and computed by `Model.UpdateTimeFields` |
| Model.WindowWithoutTimedSubtasks | src/tracker/model/Epic.java:47-86 | with no subtask that has a start, the epic has no start, duration zero and no end, keeps its subtask ids, and nothing else changes |
| Model.EarliestStartIsMinimum | src/tracker/model/Epic.java:54-68 | the earliest start exists exactly when some subtask has a start. It is one of the subtasks' starts, and no subtask with a start begins before it |
| Model.LatestEndIsMaximum | src/tracker/model/Epic.java:70-73 | the latest end is the end of some subtask that has a start, and is at least every such subtask's end |
| Model.TotalDurationIsSum | src/tracker/model/Epic.java:56-76 | the accumulated duration is the sum of the durations of the subtasks that have a start |
| Model.WindowWithTimedSubtasks | src/tracker/model/Epic.java:78-81 | with a timed subtask, the epic's start is the minimum start, its duration the sum of the timed durations, and its end the maximum end, attained by some subtask |
| Aggregation.SubtasksOfMembers | src/tracker/controllers/InMemoryTaskManager.java:199-201 | the resolved list holds exactly the stored subtasks that the ids name; ids with no stored subtask are dropped |
| Aggregation.SubtasksOfAppend | src/tracker/controllers/InMemoryTaskManager.java:199-201 | resolving a concatenation of id lists gives the concatenation of the resolved lists |
| Aggregation.SubtasksByEpic | src/tracker/controllers/InMemoryTaskManager.java:199-201 | an unknown epic gives the empty list; a known epic gives its ids resolved against the store, in list order |
| Aggregation.DecideStatus | src/tracker/controllers/InMemoryTaskManager.java:203-228 | the if/else-if chain of `updateEpicStatus`, keeping the current status if no branch assigned; `Aggregation.DecisionIsTotal` shows one always does |
| Aggregation.EpicStatus | src/tracker/controllers/InMemoryTaskManager.java:208-227 | the reference rule the chain decides, stated both ways by `Aggregation.EpicStatusMeaning` |
| Aggregation.DecisionIsTotal | src/tracker/controllers/InMemoryTaskManager.java:203-228 | the if/else-if chain of `updateEpicStatus` always assigns, and its result equals the reference rule `EpicStatus` |
| Aggregation.EpicStatusMeaning | src/tracker/controllers/InMemoryTaskManager.java:208-227 | the rule, both ways. DONE iff there are subtasks and all are DONE. NEW iff there are none or all are NEW. IN_PROGRESS iff some subtask is IN_PROGRESS, or some is NEW and some is DONE |
| Aggregation.Reaggregate | src/tracker/controllers/InMemoryTaskManager.java:203-236 | `updateEpicStatus` then `updateEpicTimeFields`: the status follows the rule over the epic's resolved subtasks, and the time window is recomputed over them |
| Aggregation.ReaggregateEmptyStore | src/tracker/controllers/InMemoryTaskManager.java:69-73 | against an empty subtask store, an epic becomes NEW with no start, zero duration and no end, and keeps its id list |
| History.Node.constructor | src/tracker/controllers/InMemoryHistoryManager.java:15-19 | the node holds the task and the given neighbours |
| History.InMemoryHistoryManager.constructor | src/tracker/controllers/InMemoryHistoryManager.java:22-24 | a fresh tracker is well linked and empty |
| History.InMemoryHistoryManager.Add | src/tracker/controllers/InMemoryHistoryManager.java:26-32 | a null task changes nothing. Otherwise the trail becomes `Record(old, t)`: any earlier entry for t's id is dropped and t is appended last |
| History.InMemoryHistoryManager.Remove | src/tracker/controllers/InMemoryHistoryManager.java:34-40 | the trail becomes `Forget(old, {id})`, the id leaves the map, and no node is allocated |
| History.InMemoryHistoryManager.GetHistory | src/tracker/controllers/InMemoryHistoryManager.java:42-51 | the walk from the head returns exactly the trail, in order |
| History.InMemoryHistoryManager.LinkLast | src/tracker/controllers/InMemoryHistoryManager.java:53-62 | for an id not yet tracked, a new node is linked after the tail, the tracker stays well linked and indexed, and the trail gains the task at the end |
| History.InMemoryHistoryManager.RemoveNode | src/tracker/controllers/InMemoryHistoryManager.java:64-81 | unlinking the node at position k keeps the rest linked, and moves the head or tail when the node was at an end |
| History.InMemoryHistoryManager.UniqueTrail | src/tracker/controllers/InMemoryHistoryManager.java:22-24 | because the map has one node per id, no id appears twice in the trail |
| History.Record | src/tracker/controllers/InMemoryHistoryManager.java:26-32 | `add` on the trail: drop any entry with the task's id, then append the task (`History.RecordSpec`) |
| History.Forget | src/tracker/controllers/InMemoryHistoryManager.java:34-40 | `remove` on the trail, for a set of ids (`History.ForgetMembers`, `History.ForgetKeepsUnique`) |
| History.RecordSpec | src/tracker/controllers/InMemoryHistoryManager.java:26-32 | after recording t: ids stay unique, t is last, the id set gains t's id, and t's id appears nowhere before the end |
| History.ForgetMembers | src/tracker/controllers/InMemoryHistoryManager.java:34-40 | an entry survives removal iff it was present and its id is not removed |
| History.ForgetKeepsUnique | src/tracker/controllers/InMemoryHistoryManager.java:34-40 | removal keeps ids unique and removes exactly the given ids from the id set |
| History.ForgetTwice | src/tracker/controllers/InMemoryTaskManager.java:124-135 | removing one id set and then another equals removing their union |
| History.UniqueLength | src/tracker/controllers/InMemoryHistoryManager.java:22-24 | with unique ids, the trail is exactly as long as its id set |
| History.OrderAfterMixedOperations | test/tracker/controllers/InMemoryHistoryManagerTest.java:87-101 | add 1, add 2, remove 1, add 3, add 1 leaves the trail [2, 3, 1] |
| Schedule.Insert | src/tracker/controllers/InMemoryTaskManager.java:19 | `TreeSet.add` under the start comparator; its contract is `Schedule.InsertSpec` |
| Schedule.AddToPrioritized | src/tracker/controllers/InMemoryTaskManager.java:238-240 | `addToPrioritized`: insert only a timed task (`Schedule.AddKeepsTimed`, `Schedule.AddMembers`) |
| Schedule.InsertSpec | src/tracker/controllers/InMemoryTaskManager.java:19 | `TreeSet.add` under the start comparator keeps the schedule ordered. Where an entry already has the same start, the set is unchanged; otherwise the entry is added and nothing else changes (as multisets) |
| Schedule.AddKeepsTimed | src/tracker/controllers/InMemoryTaskManager.java:238-240 | `addToPrioritized` inserts only timed entries, so an ordered, all-timed schedule stays so |
| Schedule.AddMembers | src/tracker/controllers/InMemoryTaskManager.java:238-240 | after `addToPrioritized` the schedule holds only old entries and the new one |
| Schedule.ForgetSorted | src/tracker/controllers/InMemoryTaskManager.java:104 | `removeIf` by id keeps the schedule ordered, and all-timed if it was |
| Schedule.Overlap | src/tracker/controllers/InMemoryTaskManager.java:252-259 | `isTimeOverlap`: each starts before the other ends; its meaning is `Schedule.OverlapIsIntersection` |
| Schedule.Conflicts | src/tracker/controllers/InMemoryTaskManager.java:242-250 | `validateTaskTime` throws: the task has a start and overlaps a scheduled entry with another id (`Schedule.AddKeepsDisjoint`, `Schedule.StaleIdSkipsCheck`) |
| Schedule.OverlapSymmetric | src/tracker/controllers/InMemoryTaskManager.java:252-259 | `isTimeOverlap` is symmetric |
| Schedule.OverlapIsIntersection | src/tracker/controllers/InMemoryTaskManager.java:252-259 | for timed tasks of positive duration, overlap holds iff some minute lies in both half-open intervals |
| Schedule.EqualStartsWithoutOverlap | src/tracker/controllers/InMemoryTaskManager.java:252-259 | two tasks with the same start that do not overlap must include one of zero (or negative) duration |
| Schedule.AddKeepsDisjoint | src/tracker/controllers/InMemoryTaskManager.java:242-250 | adding an entry that passed validation, with an id not yet scheduled, keeps the schedule free of overlaps |
| Schedule.CreateKeepsDisjoint | src/tracker/controllers/InMemoryTaskManager.java:137-144 | validating and then inserting under a fresh id keeps the schedule free of overlaps |
| Schedule.ReplaceKeepsDisjoint | src/tracker/controllers/InMemoryTaskManager.java:169-177 | `updateTask`'s remove-by-id, then add of a validated task, keeps the schedule free of overlaps |
| Schedule.ForgetKeepsDisjoint | src/tracker/controllers/InMemoryTaskManager.java:102-107 | removal by id keeps the schedule free of overlaps |
| Schedule.StaleIdSkipsCheck | src/tracker/controllers/InMemoryTaskManager.java:242-250 | validation skips scheduled entries whose id equals the incoming task's pre-assignment id. An overlapping task can therefore pass and, once renumbered, overlap |
| Manager.Listing | src/tracker/controllers/InMemoryTaskManager.java:29-42 | copying `values()` yields one entry per key, each one a stored value, and every stored value appears |
| Manager.InMemoryTaskManager.constructor | src/tracker/controllers/InMemoryTaskManager.java:14-23 | empty stores, counter 1, empty schedule, the given tracker |
| Manager.InMemoryTaskManager.GenerateId | src/tracker/controllers/InMemoryTaskManager.java:25-27 | returns the counter, then increments it |
| Manager.InMemoryTaskManager.GetAllTasks | src/tracker/controllers/InMemoryTaskManager.java:29-32 | a listing of the task store |
| Manager.InMemoryTaskManager.GetAllEpics | src/tracker/controllers/InMemoryTaskManager.java:34-37 | a listing of the epic store |
| Manager.InMemoryTaskManager.GetAllSubtasks | src/tracker/controllers/InMemoryTaskManager.java:39-42 | a listing of the subtask store |
| Manager.InMemoryTaskManager.GetTask | src/tracker/controllers/InMemoryTaskManager.java:76-81 | the stored task or null. A found task is recorded in the trail; a miss leaves the trail alone |
| Manager.InMemoryTaskManager.GetEpic | src/tracker/controllers/InMemoryTaskManager.java:83-88 | the same for epics |
| Manager.InMemoryTaskManager.GetSubtask | src/tracker/controllers/InMemoryTaskManager.java:90-95 | the same for subtasks |
| Manager.InMemoryTaskManager.GetHistory | src/tracker/controllers/InMemoryTaskManager.java:97-100 | the tracker's trail |
| Manager.InMemoryTaskManager.GetPrioritizedTasks | src/tracker/controllers/InMemoryTaskManager.java:195-197 | a copy of the schedule: ordered by start, with the same entries and length |
| Manager.InMemoryTaskManager.UpdateEpicStatus | src/tracker/controllers/InMemoryTaskManager.java:203-228 | an unknown epic is left alone. A known one gets the rule's status over its resolved subtasks, and every other epic is unchanged |
| Manager.InMemoryTaskManager.UpdateEpicTimeFields | src/tracker/controllers/InMemoryTaskManager.java:230-236 | an unknown epic is left alone; a known one gets the time window of its resolved subtasks |
| Manager.InMemoryTaskManager.RefreshEpic | src/tracker/controllers/InMemoryTaskManager.java:203-236 | both recomputations in turn, keeping the manager invariant |
| Manager.InMemoryTaskManager.Prioritize | src/tracker/controllers/InMemoryTaskManager.java:238-240 | the schedule becomes `AddToPrioritized(old, t)` and stays ordered |
| Manager.InMemoryTaskManager.CreateTask | src/tracker/controllers/InMemoryTaskManager.java:137-144 | null: nothing changes. An overlap: `TimeConflictException`, nothing changes. Otherwise the task is stored under the counter's value, which is no key in use; the counter moves on and the task is scheduled if timed |
| Manager.InMemoryTaskManager.CreateEpic | src/tracker/controllers/InMemoryTaskManager.java:146-151 | null: nothing changes. Otherwise the epic is stored under a fresh id and the counter moves on |
| Manager.InMemoryTaskManager.CreateSubtask | src/tracker/controllers/InMemoryTaskManager.java:153-167 | null: nothing changes. An unknown epic: `IllegalArgumentException`, nothing changes. An overlap: `TimeConflictException`, nothing changes. Otherwise stored under a fresh id, appended to its epic's list, the epic recomputed, and the subtask scheduled if timed |
| Manager.InMemoryTaskManager.UpdateTask | src/tracker/controllers/InMemoryTaskManager.java:169-177 | null or unknown id: nothing changes. An overlap: `TimeConflictException`, nothing changes. Otherwise the task is replaced, unscheduled and rescheduled, and recorded in the trail |
| Manager.InMemoryTaskManager.UpdateEpic | src/tracker/controllers/InMemoryTaskManager.java:179-183 | replaces a known epic as given (no recomputation); ignores null or unknown ids |
| Manager.InMemoryTaskManager.UpdateSubtask | src/tracker/controllers/InMemoryTaskManager.java:185-193 | a known subtask of a known epic is replaced and that epic recomputed. Otherwise nothing changes. The schedule is not touched |
| Manager.InMemoryTaskManager.DeleteAllTasks | src/tracker/controllers/InMemoryTaskManager.java:44-49 | corrected version: the task store is emptied, and its ids leave both the trail and the schedule |
| Manager.DeleteAllTasksAsWritten | src/tracker/controllers/InMemoryTaskManager.java:44-49 | as written: it throws exactly when both the task store and the schedule are non-empty, after the trail was already purged. In that case the tasks stay |
| Manager.DeleteAllTasksAsWrittenThrows | src/tracker/controllers/InMemoryTaskManager.java:47 | one scheduled task: the call throws, the task stays and stays scheduled, and the trail is emptied |
| Manager.InMemoryTaskManager.DeleteAllEpics | src/tracker/controllers/InMemoryTaskManager.java:51-60 | both the epic and the subtask stores are emptied. The ids the epics list leave the trail and the schedule, then the epic ids leave the trail |
| Manager.InMemoryTaskManager.DeleteAllSubtasks | src/tracker/controllers/InMemoryTaskManager.java:62-74 | the subtask store is emptied and its ids leave the trail and the schedule. Every epic is emptied as the evident intent requires (see Findings) |
| Manager.EmptyAll | src/tracker/controllers/InMemoryTaskManager.java:69-73 | the loop over the epics leaves every epic emptied and recomputed, and no other key |
| Manager.EmptiedMeaning | src/tracker/controllers/InMemoryTaskManager.java:69-73 | an emptied epic has no subtask ids, status NEW, no start, zero duration and no end, and keeps its id, name and description |
| Manager.EmptiedAsWritten | src/tracker/controllers/InMemoryTaskManager.java:70 | as written, clearing the copy that `getSubtaskIds()` returns leaves the epic's list intact |
| Manager.EmptiedAsWrittenKeepsIds | src/tracker/controllers/InMemoryTaskManager.java:69-73 | an epic listing subtask 2 still lists 2 after the as-written clear, but not after the corrected one |
| Manager.InMemoryTaskManager.DeleteTask | src/tracker/controllers/InMemoryTaskManager.java:102-107 | the id leaves the task store, the schedule and the trail; nothing else changes |
| Manager.InMemoryTaskManager.DeleteSubtask | src/tracker/controllers/InMemoryTaskManager.java:109-122 | unknown id: nothing changes. Otherwise the subtask leaves its store, the schedule and the trail; its epic, if stored, drops the id and is recomputed |
| Manager.InMemoryTaskManager.DeleteEpic | src/tracker/controllers/InMemoryTaskManager.java:124-135 | unknown id: nothing changes. Otherwise the epic goes, its listed subtasks leave the store, the schedule and the trail, and then the epic's id leaves the trail |
| Manager.ForgetAll | src/tracker/controllers/InMemoryTaskManager.java:128-133 | removing each id of a set from the tracker, one at a time, removes exactly that set from the trail |
| Legacy.TaskManager.constructor | src/TaskManager.java:8-11 | empty stores and counter 1 |
| Legacy.TaskManager.GenerateId | src/TaskManager.java:14-16 | returns the counter, then increments it |
| Legacy.TaskManager.GetAllTasks | src/TaskManager.java:19-21 | a listing of the task store |
| Legacy.TaskManager.GetAllEpics | src/TaskManager.java:23-25 | a listing of the epic store |
| Legacy.TaskManager.GetAllSubtasks | src/TaskManager.java:27-29 | a listing of the subtask store |
| Legacy.TaskManager.DeleteAllTasks | src/TaskManager.java:31-33 | the task store is emptied |
| Legacy.TaskManager.DeleteAllEpics | src/TaskManager.java:35-38 | epics and subtasks are emptied |
| Legacy.TaskManager.DeleteAllSubtasks | src/TaskManager.java:40-46 | subtasks emptied; every epic keeps its key, loses its ids and becomes NEW |
| Legacy.TaskManager.GetTask | src/TaskManager.java:49-51 | a result exactly when the id is stored, and then the stored task |
| Legacy.TaskManager.GetEpic | src/TaskManager.java:53-55 | the same for epics |
| Legacy.TaskManager.GetSubtask | src/TaskManager.java:57-59 | the same for subtasks |
| Legacy.TaskManager.DeleteTask | src/TaskManager.java:62-64 | the id leaves the task store |
| Legacy.TaskManager.DeleteEpic | src/TaskManager.java:66-73 | the epic goes, and with it the subtasks it lists |
| Legacy.TaskManager.DeleteSubtask | src/TaskManager.java:75-84 | the subtask goes. Its epic, if stored, drops the id and takes the older rule's status |
| Legacy.TaskManager.CreateTask | src/TaskManager.java:87-91 | null: nothing. Otherwise stored under the counter's value, and the counter moves on |
| Legacy.TaskManager.CreateEpic | src/TaskManager.java:93-97 | the same for epics |
| Legacy.TaskManager.CreateSubtask | src/TaskManager.java:99-108 | null or unknown epic: nothing. Otherwise stored under a fresh id, appended to its epic's list, and the epic's status recomputed by the older rule |
| Legacy.TaskManager.UpdateTask | src/TaskManager.java:110-113 | replaces a known task; ignores the rest |
| Legacy.TaskManager.UpdateEpic | src/TaskManager.java:115-118 | replaces a known epic; ignores the rest |
| Legacy.TaskManager.UpdateSubtask | src/TaskManager.java:120-126 | a known subtask of a known epic is replaced, and that epic's status recomputed by the older rule |
| Legacy.TaskManager.GetSubtasksForEpic | src/TaskManager.java:128-140 | the loop returns the epic's ids resolved against the store (empty for an unknown epic), the same as the newer manager's lookup |
| Legacy.TaskManager.UpdateEpicStatus | src/TaskManager.java:142-174 | the loop computes the older rule's status for a known epic; other epics are untouched |
| Legacy.LegacyStatus | src/TaskManager.java:142-174 | the older `updateEpicStatus`: NEW for no ids; otherwise DONE when all resolved subtasks are DONE, IN_PROGRESS when one is IN_PROGRESS, else NEW; compared with the newer rule by `Legacy.RulesDiffer` |
| Legacy.FlagsStep | src/TaskManager.java:155-165 | the loop's two flags after one more subtask: all-done and any-in-progress |
| Legacy.UnresolvedIsDone | src/TaskManager.java:146-168 | an epic whose ids all fail to resolve is DONE under the older rule, and NEW under the newer one |
| Legacy.MixIsNew | src/TaskManager.java:167-173 | one NEW and one DONE subtask: NEW under the older rule, IN_PROGRESS under the newer |
| Legacy.RulesDiffer | src/TaskManager.java:142-174 | the two rules disagree exactly when the list is non-empty and either nothing resolves, or NEW and DONE occur without IN_PROGRESS |
| Records.JavaSplit | src/tracker/controllers/FileBackedTaskManager.java:31 | `String.split` with limit zero: a text without the separator is a single piece, itself; with it, the pieces without the trailing empty ones (`Records.DropTrailing`, `Records.JavaSplitJoin`) |
| Records.DropTrailing | src/tracker/controllers/FileBackedTaskManager.java:31 | `split` drops trailing empty pieces: the result is a prefix, it does not end in an empty piece, and only empty pieces are dropped |
| Records.JoinSplitAll | src/tracker/controllers/FileBackedTaskManager.java:108 | joining the pieces of a split gives back the text |
| Records.SplitAllJoin | src/tracker/controllers/FileBackedTaskManager.java:108 | splitting a join of separator-free pieces gives back the pieces |
| Records.JavaSplitJoin | src/tracker/controllers/FileBackedTaskManager.java:31 | `split` of a join of at least two separator-free pieces gives the pieces without the trailing empty ones |
| Records.ParseIntegerText | src/tracker/controllers/FileBackedTaskManager.java:112 | the decimal text `String.valueOf` writes parses back to the same integer |
| Records.ParseIntegerRefuses | src/tracker/controllers/FileBackedTaskManager.java:112 | any character that is neither a digit nor a leading sign makes parsing fail |
| Records.ParseInt | src/tracker/controllers/FileBackedTaskManager.java:112 | `Integer.parseInt` succeeds iff the syntax is right and the value is within 32 bits |
| Records.ParseLong | src/tracker/controllers/FileBackedTaskManager.java:126 | `Long.parseLong` succeeds iff the syntax is right and the value is within 64 bits |
| Records.ParseKindName | src/tracker/controllers/FileBackedTaskManager.java:113 | `valueOf(name())` gives back the type |
| Records.ParseStatusName | src/tracker/controllers/FileBackedTaskManager.java:115 | `valueOf(name())` gives back the status |
| Records.ToRecord | src/tracker/controllers/FileBackedTaskManager.java:103-105 | `toString`: the eight fields joined by commas; a line for a well-formed entity (`Records.RecordIsLine`), read back by `Records.DecodeRecord` |
| Records.FromRecord | src/tracker/controllers/FileBackedTaskManager.java:107-165 | `fromString` as written, splitting with `split(",")`; what it gives back of a record is `Records.FromRecordRecord` |
| Records.Decode | src/tracker/controllers/FileBackedTaskManager.java:107-165 | the corrected `fromString`, which keeps every field as `split(",", -1)` does; what it gives back of a record is `Records.DecodeRecord` |
| Records.RecordIsLine | src/tracker/controllers/FileBackedTaskManager.java:103-105 | the record of a well-formed entity is one non-empty line |
| Records.TimeFields | src/tracker/controllers/FileBackedTaskManager.java:118-127 | a written start and duration read back as the same optional values, without an exception |
| Records.Reloaded | src/tracker/controllers/FileBackedTaskManager.java:129-153 | what reading gives back: a task or subtask unchanged; an epic with its id, name, description and status, but no subtask ids and no time window |
| Records.AssembleFields | src/tracker/controllers/FileBackedTaskManager.java:107-165 | parsing the eight fields of a well-formed entity gives back the entity as reloaded |
| Records.DecodeRecord | src/tracker/controllers/FileBackedTaskManager.java:107-165 | the corrected reader gives back every well-formed entity from its record |
| Records.FromRecordRecord | src/tracker/controllers/FileBackedTaskManager.java:107-165 | the reader as written gives back a well-formed entity as reloaded, except exactly when it is a task or epic with an empty description, no start and no duration: its record then splits into four pieces and is refused |
| Records.AssembleAgrees | src/tracker/controllers/FileBackedTaskManager.java:121-127 | missing trailing fields read like empty fields, except for the subtask's sixth field |
| Records.BareTaskIsLost | src/tracker/controllers/FileBackedTaskManager.java:108-109 | a plain task with an empty description, no start and no duration is lost by the reader as written and kept by the corrected one |
| FileBacked.Serialize | src/tracker/controllers/FileBackedTaskManager.java:88-101 | what `save` writes: the header line, then a record line per task, epic and subtask (`FileBacked.SavedLines`) |
| FileBacked.SerializeJoin | src/tracker/controllers/FileBackedTaskManager.java:88-101 | the saved text is the header and each record, joined by line breaks, with a final line break |
| FileBacked.SavedLines | src/tracker/controllers/FileBackedTaskManager.java:31 | splitting the saved text into lines gives the header, then exactly one record per entity |
| FileBacked.FileBackedTaskManager.Save | src/tracker/controllers/FileBackedTaskManager.java:88-101 | the file holds the header plus a listing of the tasks, then the epics, then the subtasks, as records |
| FileBacked.Absorb | src/tracker/controllers/FileBackedTaskManager.java:41-67 | one turn of the load loop, whichever reader produced the entry: the running maximum id never falls and covers the id read |
| FileBacked.AbsorbLoadable | src/tracker/controllers/FileBackedTaskManager.java:44-67 | one turn keeps every map keyed by its entities' ids, all ids and scheduled ids at most the maximum, and the schedule ordered |
| FileBacked.ReplayLoadable | src/tracker/controllers/FileBackedTaskManager.java:40-73 | whatever the file holds, the loaded state meets the manager's invariant once the counter is the maximum + 1 |
| FileBacked.Replay | src/tracker/controllers/FileBackedTaskManager.java:40-68 | the load loop over the lines after the header, with the corrected reader (see Findings); what it gives back of a save is `FileBacked.LoadAfterSave` |
| FileBacked.ReadLines | src/tracker/controllers/FileBackedTaskManager.java:40-68 | the loop over the lines after the header computes the replay of those lines, with the corrected reader (see Findings) |
| FileBacked.Adopt | src/tracker/controllers/FileBackedTaskManager.java:70-79 | the maps, the counter and the schedule are handed over, then every epic is recomputed |
| FileBacked.RefreshEpics | src/tracker/controllers/FileBackedTaskManager.java:76-79 | every loaded epic gets status and time window recomputed against the loaded subtasks; the key set is unchanged |
| FileBacked.LoadFromFile | src/tracker/controllers/FileBackedTaskManager.java:26-86 | with the corrected reader (see Findings): a file of at most one line gives an empty manager. Otherwise the stores are the replayed maps, every epic recomputed, the counter one past the largest id read, and the schedule the one filled. The trail is empty |
| FileBacked.ReplayRecords | src/tracker/controllers/FileBackedTaskManager.java:40-68 | replaying records of well-formed entities is the loop run on the entities as reloaded |
| FileBacked.RebuildConcat | src/tracker/controllers/FileBackedTaskManager.java:40-68 | the loop over two runs of lines is the loop over the first and then over the second |
| FileBacked.RebuildMax | src/tracker/controllers/FileBackedTaskManager.java:44-46 | the maximum after the loop is at least every id read, and is either the starting value or one of them |
| FileBacked.TasksPhase | src/tracker/controllers/FileBackedTaskManager.java:49-52 | reading the tasks first fills just the task store |
| FileBacked.EpicsPhase | src/tracker/controllers/FileBackedTaskManager.java:53-55 | reading the epics then fills the epic store with each one as reloaded |
| FileBacked.SubtasksPhase | src/tracker/controllers/FileBackedTaskManager.java:56-66 | reading the subtasks last fills their store, and appends each one's id to the list of the epic it names, in order |
| FileBacked.ChildIdsMembers | src/tracker/controllers/FileBackedTaskManager.java:61-65 | the ids appended to an epic are exactly those of the subtasks read that name it |
| FileBacked.ChildrenOfListing | src/tracker/controllers/FileBackedTaskManager.java:61-65 | read from a listing of the store, an epic's appended ids are exactly the stored subtasks that name it |
| FileBacked.StoresOfSaved | src/tracker/controllers/FileBackedTaskManager.java:40-68 | replaying listings of savable stores gives back the task and subtask stores exactly, and every epic as reloaded, listing the saved subtasks that name it in saved order |
| FileBacked.SavedReplay | src/tracker/controllers/FileBackedTaskManager.java:26-101 | loading saved text: one line per entity after the header, replayed as tasks, then epics, then subtasks |
| FileBacked.LoadAfterSave | src/tracker/controllers/FileBackedTaskManager.java:26-101 | for savable stores, loading what `save` wrote gives back the tasks and subtasks exactly. Each epic comes back as reloaded, listing its saved subtasks in saved order. The maximum id read is the maximum id saved, or 0 |
| FileBacked.ReloadSaved | src/tracker/controllers/FileBackedTaskManager.java:26-101 | for any file a save left behind: the same round trip, with each epic listing exactly the stored subtasks that name it, and every saved id at most the maximum read |
| FileBacked.MaxOfSaved | src/tracker/controllers/FileBackedTaskManager.java:73 | the counter resumes past every saved id, and the maximum is 0 or a saved id |
| FileBacked.ReplayAsWritten | src/tracker/controllers/FileBackedTaskManager.java:40-68 | the load loop with the reader as written; what it gives back of a save is `FileBacked.LoadAfterSaveAsWritten` |
| FileBacked.Kept | src/tracker/controllers/FileBackedTaskManager.java:107-109 | the entities of a listing that the reader as written reads back: exactly those that are not lost, in listing order |
| FileBacked.ReplayAsWrittenRecords | src/tracker/controllers/FileBackedTaskManager.java:40-68 | replaying records as written is the loop run on the kept entities as reloaded |
| FileBacked.KeptConcat | src/tracker/controllers/FileBackedTaskManager.java:88-101 | keeping distributes over the three runs of a save |
| FileBacked.KeptSubtasks | src/tracker/controllers/FileBackedTaskManager.java:107-109 | no subtask is lost: its epic field makes the record long enough |
| FileBacked.KeptIds | src/tracker/controllers/FileBackedTaskManager.java:107-109 | over a listing of a store, the kept ids are the ids of the store's entries that are not lost |
| FileBacked.KeptTasksLoaded | src/tracker/controllers/FileBackedTaskManager.java:49-52 | reading the kept tasks fills the task store with exactly the tasks that are not lost |
| FileBacked.KeptEpicsLoaded | src/tracker/controllers/FileBackedTaskManager.java:53-55 | reading the kept epics fills the epic store with exactly the epics that are not lost, each as reloaded |
| FileBacked.SavedReplayAsWritten | src/tracker/controllers/FileBackedTaskManager.java:26-101 | loading saved text as written: one line per entity after the header, replayed as the kept tasks, the kept epics and every subtask |
| FileBacked.StoresOfKept | src/tracker/controllers/FileBackedTaskManager.java:40-68 | replaying those keeps the tasks that are not lost, every subtask, and exactly the epics that are not lost, each listing the saved subtasks that name it |
| FileBacked.LoadAfterSaveAsWritten | src/tracker/controllers/FileBackedTaskManager.java:26-109 | for savable stores, loading what `save` wrote with the reader as written drops exactly the tasks and epics with an empty description, no start and no duration; the rest come back as with the corrected reader, and so does every subtask |
| Records.BareTaskFields | src/tracker/controllers/FileBackedTaskManager.java:103-105 | the fields of a bare task with id 1 and name `a` are `1`, `TASK`, `a`, `NEW` and four empty ones |
| Records.BareTaskRecord | src/tracker/controllers/FileBackedTaskManager.java:103-105 | that task's record is `1,TASK,a,NEW,,,,` |
| FileBacked.BareTaskFileAsWritten | src/tracker/controllers/FileBackedTaskManager.java:40-68 | after the header, a file holding only that record loads no task as written, and that task with the corrected reader |
| FileBacked.FileBackedTaskManager.constructor | src/tracker/controllers/FileBackedTaskManager.java:21-24 | an empty in-memory manager on the given tracker, and the given file |
| FileBacked.FileBackedTaskManager.CreateTask | src/tracker/controllers/FileBackedTaskManager.java:167-171 | `createTask`, then `save` unless it threw. Null: nothing. A conflict (exactly when validation fails): neither the manager nor the file changes. Otherwise the task is stored under the counter's value with `Created` of that id, the counter moves on, the schedule gains the task if timed, the other stores are unchanged, and the file is saved |
| FileBacked.FileBackedTaskManager.CreateEpic | src/tracker/controllers/FileBackedTaskManager.java:173-177 | null: nothing and a save. Otherwise the epic is stored under the counter's value with `Created` of that id, the counter moves on, the task and subtask stores and the schedule are unchanged, and the file is saved |
| FileBacked.FileBackedTaskManager.CreateSubtask | src/tracker/controllers/FileBackedTaskManager.java:179-183 | null: nothing and a save. The unknown-epic outcome occurs exactly when the named epic is not stored; a conflict exactly when validation fails; after either, neither the manager nor the file changes. Otherwise the subtask is stored under the counter's value with `Created` of that id, appended to its epic, which is recomputed; the counter moves on, the schedule gains the subtask if timed, the task store is unchanged, and the file is saved |
| FileBacked.FileBackedTaskManager.UpdateTask | src/tracker/controllers/FileBackedTaskManager.java:185-189 | an unknown or null task: nothing and a save. A conflict: neither the manager nor the file changes. Otherwise the task replaces the stored one, the schedule drops the old entry and gains the new one if timed, the trail records the task, the other stores and the counter are unchanged, and the file is saved |
| FileBacked.FileBackedTaskManager.UpdateEpic | src/tracker/controllers/FileBackedTaskManager.java:191-195 | a known epic replaces the stored one; an unknown or null one changes nothing; only the epic store may change, and the file is saved |
| FileBacked.FileBackedTaskManager.UpdateSubtask | src/tracker/controllers/FileBackedTaskManager.java:197-201 | a known subtask of a stored epic replaces the stored one and that epic is recomputed; otherwise nothing changes; only the subtask and epic stores may change, and the file is saved |
| FileBacked.FileBackedTaskManager.DeleteTask | src/tracker/controllers/FileBackedTaskManager.java:203-207 | the id leaves the task store, the schedule and the trail; the other stores and the counter are unchanged; the file is saved |
| FileBacked.FileBackedTaskManager.DeleteEpic | src/tracker/controllers/FileBackedTaskManager.java:209-213 | an unknown id changes nothing. Otherwise the epic and the subtasks it lists leave their stores and the trail, and those subtasks leave the schedule; the task store and the counter are unchanged; the file is saved |
| FileBacked.FileBackedTaskManager.DeleteSubtask | src/tracker/controllers/FileBackedTaskManager.java:215-219 | an unknown id changes nothing. Otherwise the subtask leaves its store, the schedule and the trail, and its epic, if stored, drops the id and is recomputed; the task store and the counter are unchanged; the file is saved |
| FileBacked.FileBackedTaskManager.DeleteAllTasks | src/tracker/controllers/FileBackedTaskManager.java:221-225 | the task store is emptied and its ids leave the schedule and the trail; the other stores and the counter are unchanged; the file is saved |
| FileBacked.FileBackedTaskManager.DeleteAllEpics | src/tracker/controllers/FileBackedTaskManager.java:227-231 | epics and subtasks are emptied; every listed subtask id leaves the schedule, and those ids and every epic id leave the trail; the task store and the counter are unchanged; the file is saved |
| FileBacked.FileBackedTaskManager.DeleteAllSubtasks | src/tracker/controllers/FileBackedTaskManager.java:233-237 | the subtask store is emptied; every epic is emptied and recomputed (`AllEmptied`); the subtask ids leave the schedule and the trail; the task store and the counter are unchanged; the file is saved |

## Left out

- `Task.java`, `TimeConflictException`, `ManagerSaveException`, `Managers`, the HTTP server and handlers, and `Main` are not part of this model.
  - A new task has id 0 and status NEW, as its tests observe (test/tracker/model/TaskTest.java:9-16). That it has no start and no duration is assumed; it agrees with the null checks on both in `toString` (src/tracker/controllers/FileBackedTaskManager.java:104) and in `addToPrioritized` and `validateTaskTime` (src/tracker/controllers/InMemoryTaskManager.java:239, 243).
  - A task's end is its start plus its duration, with an absent duration counted as zero minutes (`Model.Minutes`).
- Exceptions become outcomes. `Outcome` records the `TimeConflictException` of create and update, and the `IllegalArgumentException` of `createSubtask` on an unknown epic. The state is unchanged in each case.
- File I/O is not modelled.
  - The file is a string field, and `loadFromFile` takes the content as a parameter.
  - I/O errors and `ManagerSaveException` are left out, and so are the messages `fromString` prints to `System.err`.
- Times are integer minutes, and the record writes a start as a decimal minute count. `LocalDateTime` and its ISO-8601 text are not modelled, so a date that fails to parse is modelled only as a start field that fails to parse.
- Decimal parsing accepts only the ASCII digits, with an optional leading sign; the non-ASCII digits Java also accepts are left out.
- HashMap iteration order is not modelled. Listings are any order satisfying `IsListing`, so `save` writes some order of each store.
- Aliasing is not modelled, because entities are values.
  - A caller who keeps a reference to a stored task and mutates it is outside the model.
  - `createTask` setting the id on the caller's object is shown only as the stored copy carrying the new id.
- A subtask with a start but no duration counts as zero minutes in the epic total. Java's `Duration.plus(null)` would throw there.
- Model.EndTime, Schedule.Overlap: a task with a start but no duration is treated as zero-length, ending at its start, so computing its end never throws and validation compares it by the instant of its start: it conflicts only with an entry whose window holds that instant strictly inside. `Task.java` is not part of this model; a `getEndTime` computing `startTime.plus(duration)` would throw there on a null duration, and so would `isTimeOverlap`.
- An untimed entry in the schedule counts as no conflict during validation. Only a load can put one there. Java's `isTimeOverlap` would throw on it.
- An untimed task or subtask read from a file enters the schedule, where the `TreeSet` ordering puts it last. This follows `loadFromFile`, which adds every task and subtask directly rather than through `addToPrioritized`.
- Manager.InMemoryTaskManager.DeleteEpic, Manager.InMemoryTaskManager.DeleteAllEpics: the stores are updated in one step, after the per-id tracker removals. The Java removes from the stores id by id inside the same loop. The end state is the same.
- Manager.InMemoryTaskManager.DeleteAllSubtasks: the loop over the epics is modelled on the epic map as a value (`EmptyAll`), not as a loop that writes the manager's field at each step.
- FileBacked.LoadFromFile, FileBacked.ReadLines, FileBacked.Replay: each line is read with the corrected reader (see Findings). The reader as written is `FileBacked.ReplayAsWritten`, whose load of a save `FileBacked.LoadAfterSaveAsWritten` states; the manager's own loader is not given it.
- FileBacked.LoadFromFile: the schedule is built in the loop's local state and handed to the manager after the loop. The Java adds to the manager's set inside the loop. Nothing reads the set in between.
- FileBacked.LoadAfterSave, FileBacked.ReloadSaved: the round trip is proved for savable stores only. Every entity is stored under its own id, and the task store holds only plain tasks. Names and descriptions contain no `,` or line break. Ids and epic ids fit in 32 bits, and durations are within what `Duration.ofMinutes` accepts. Other content does not survive the CSV format as written.
- Legacy.TaskManager: the older `Epic` class is not part of this model. Its `getSubtaskIds()` is taken to return the epic's own list, so the older manager's `clear()` and `add` change the epic. If it returned a copy, as the newer `Epic` does, those calls would change nothing.
- Schedule.CreateKeepsDisjoint, Schedule.AddKeepsDisjoint: freedom from overlaps is kept only when the incoming task's id, before assignment, matches no scheduled entry. The code filters by that id (`Schedule.StaleIdSkipsCheck`).

## Findings

| source | as written | input that shows it | evidently intended | confidence | as-written member | corrected member |
|---|---|---|---|---|---|---|
| src/tracker/controllers/InMemoryTaskManager.java:47 | `tasks.keySet().forEach(prioritizedTasks::remove)` passes `Integer` keys to a `TreeSet<Task>` whose comparator reads `getStartTime`, so it throws `ClassCastException` | one stored task, which is also scheduled | remove the deleted tasks from the schedule and clear the store | not executed | Manager.DeleteAllTasksAsWritten, Manager.DeleteAllTasksAsWrittenThrows | Manager.InMemoryTaskManager.DeleteAllTasks |
| src/tracker/controllers/InMemoryTaskManager.java:70 | `epic.getSubtaskIds().clear()` clears the copy `getSubtaskIds` returns, so each epic keeps listing deleted subtasks | an epic listing subtask 2, then `deleteAllSubtasks` | every epic's list is emptied, then the epic is recomputed | not executed | Manager.EmptiedAsWritten, Manager.EmptiedAsWrittenKeepsIds | Manager.Emptied, Manager.EmptiedMeaning |
| src/tracker/controllers/FileBackedTaskManager.java:108 | `value.split(",")` drops trailing empty fields, so a record with empty trailing fields can come out with fewer than five pieces and be rejected | a plain task named "a" with empty description, no start and no duration: `1,TASK,a,NEW,,,,` splits into four pieces | read every field, as `split(",", -1)` does, so every saved entity loads | not executed | Records.FromRecord, Records.FromRecordRecord, Records.BareTaskIsLost, FileBacked.LoadAfterSaveAsWritten, FileBacked.BareTaskFileAsWritten | Records.Decode, Records.DecodeRecord, FileBacked.LoadAfterSave |
