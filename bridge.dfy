/**
 * The task registry of multitask_bridge.py: `MultiTaskManager` with its
 * three dictionaries, and `load_tasks_for_userbot`.
 *
 * Python dictionaries remember insertion order, and `get_enabled_tasks`
 * and `load_tasks_for_userbot` depend on it, so the manager keeps the
 * order in which task ids were first inserted next to the maps.
 */
module Bridge {
  import opened Wrappers

  /** `TaskConfig` of multitask_bridge.py, every field. */
  datatype TaskConfig = TaskConfig(
    taskId: string,
    name: string,
    sourceChat: string,
    targetChat: string,
    enabled: bool,
    forwardDelay: real,
    maxRetries: int,
    forwardMode: string,
    forwardText: bool,
    forwardPhotos: bool,
    forwardVideos: bool,
    forwardFiles: bool,
    headerEnabled: bool,
    footerEnabled: bool,
    headerText: string,
    footerText: string,
    blacklistEnabled: bool,
    whitelistEnabled: bool,
    blacklistWords: string,
    whitelistWords: string,
    cleanLinks: bool)

  datatype Status = Ready | Running | Stopped

  /** A `task_stats` entry; `last_activity` is the timestamp of the last counter update. */
  datatype StatsRecord = StatsRecord(processed: int, forwarded: int, failed: int, lastActivity: Option<string>, status: Status)

  const FreshStats: StatsRecord := StatsRecord(0, 0, 0, None, Ready)

  /** The names `update_task_stats` accepts as `stat_type`. */
  const MessagesProcessed: string := "messages_processed"
  const MessagesForwarded: string := "messages_forwarded"
  const MessagesFailed: string := "messages_failed"
  const LastActivity: string := "last_activity"
  const StatusKey: string := "status"

  /** The three dictionaries, plus the insertion order of `tasks`. */
  datatype ManagerState = ManagerState(
    order: seq<string>,
    tasks: map<string, TaskConfig>,
    runningTasks: map<string, bool>,
    taskStats: map<string, StatsRecord>)

  const Empty: ManagerState := ManagerState([], map[], map[], map[])

  predicate Distinct(s: seq<string>) {
    forall i, j :: 0 <= i < j < |s| ==> s[i] != s[j]
  }

  /** `order` lists each key of `tasks` once; statistics exist only for known tasks. */
  predicate WellFormed(st: ManagerState) {
    && Distinct(st.order)
    && (forall i :: 0 <= i < |st.order| ==> st.order[i] in st.tasks)
    && (forall id :: id in st.tasks ==> id in st.order)
    && st.taskStats.Keys <= st.tasks.Keys
  }

  // ---------------------------------------------------------------------------
  // Loading (`_load_tasks`)

  /**
   * One element of the list in the tasks file, as `_load_tasks` meets it:
   * an object `TaskConfig(**task_data)` accepts; an object it rejects
   * (a missing required key, an unknown key), which is logged and skipped;
   * or something that is not an object at all (`null`, a number, a
   * string, a list), where both `TaskConfig(**task_data)` and the
   * `task_data.get` of the error handler raise, so the outer handler ends
   * the whole loop.
   */
  datatype TaskRecord = Fits(task: TaskConfig) | Misfit | NotObject

  /** Filing one task: it is (re)registered as not running, with fresh statistics. */
  function LoadOne(st: ManagerState, t: TaskConfig): ManagerState {
    ManagerState(
      if t.taskId in st.tasks then st.order else st.order + [t.taskId],
      st.tasks[t.taskId := t],
      st.runningTasks[t.taskId := false],
      st.taskStats[t.taskId := FreshStats])
  }

  /** The records in file order, up to the first one that is not an object. */
  function LoadAll(st: ManagerState, recs: seq<TaskRecord>): ManagerState
    decreases |recs|
  {
    if recs == [] then st
    else
      match recs[0]
      case NotObject => st
      case Misfit => LoadAll(st, recs[1..])
      case Fits(t) => LoadAll(LoadOne(st, t), recs[1..])
  }

  lemma LoadOneWellFormed(st: ManagerState, t: TaskConfig)
    requires WellFormed(st)
    ensures WellFormed(LoadOne(st, t))
  {
  }

  /** The ids of the records that are loaded: the fitting ones before the first non-object. */
  function LoadedIds(recs: seq<TaskRecord>): set<string>
    decreases |recs|
  {
    if recs == [] then {}
    else
      match recs[0]
      case NotObject => {}
      case Misfit => LoadedIds(recs[1..])
      case Fits(t) => {t.taskId} + LoadedIds(recs[1..])
  }

  /** Every task is filed under its own id, is not running, and has untouched statistics. */
  predicate AllReady(st: ManagerState) {
    && st.runningTasks.Keys == st.tasks.Keys && st.taskStats.Keys == st.tasks.Keys
    && (forall id :: id in st.tasks ==> st.tasks[id].taskId == id && !st.runningTasks[id] && st.taskStats[id] == FreshStats)
  }

  lemma LoadOneReady(st: ManagerState, t: TaskConfig)
    requires AllReady(st)
    ensures AllReady(LoadOne(st, t))
    ensures LoadOne(st, t).tasks.Keys == st.tasks.Keys + {t.taskId}
  {
  }

  /**
   * Loading keeps every task ready and adds exactly the ids of the records
   * that are loaded.
   */
  lemma LoadAllReady(st: ManagerState, recs: seq<TaskRecord>)
    requires WellFormed(st) && AllReady(st)
    ensures var r := LoadAll(st, recs);
      WellFormed(r) && AllReady(r) && r.tasks.Keys == st.tasks.Keys + LoadedIds(recs)
  {
    LoadAllWellFormed(st, recs);
    LoadAllFresh(st, recs);
  }

  lemma {:induction false} LoadAllWellFormed(st: ManagerState, recs: seq<TaskRecord>)
    requires WellFormed(st)
    ensures WellFormed(LoadAll(st, recs))
    decreases |recs|
  {
    if recs != [] {
      match recs[0]
      case NotObject =>
      case Misfit =>
        assert LoadAll(st, recs) == LoadAll(st, recs[1..]);
        LoadAllWellFormed(st, recs[1..]);
      case Fits(t) =>
        assert LoadAll(st, recs) == LoadAll(LoadOne(st, t), recs[1..]);
        LoadOneWellFormed(st, t);
        LoadAllWellFormed(LoadOne(st, t), recs[1..]);
    }
  }

  lemma {:induction false} LoadAllFresh(st: ManagerState, recs: seq<TaskRecord>)
    requires AllReady(st)
    ensures var r := LoadAll(st, recs);
      AllReady(r) && r.tasks.Keys == st.tasks.Keys + LoadedIds(recs)
    decreases |recs|
  {
    if recs != [] {
      match recs[0]
      case NotObject =>
      case Misfit =>
        assert LoadAll(st, recs) == LoadAll(st, recs[1..]) && LoadedIds(recs) == LoadedIds(recs[1..]);
        LoadAllFresh(st, recs[1..]);
      case Fits(t) =>
        assert LoadAll(st, recs) == LoadAll(LoadOne(st, t), recs[1..]);
        assert LoadedIds(recs) == {t.taskId} + LoadedIds(recs[1..]);
        LoadOneReady(st, t);
        LoadAllFresh(LoadOne(st, t), recs[1..]);
    }
  }

  /**
   * Loading into an empty manager: the tasks are exactly the loaded
   * records (a later record with the same id replaces an earlier one), and
   * every loaded task is not running, with zero counters and status ready.
   */
  lemma LoadedTasksStartReady(recs: seq<TaskRecord>)
    ensures var st := LoadAll(Empty, recs);
      WellFormed(st) && AllReady(st) && st.tasks.Keys == LoadedIds(recs)
  {
    LoadAllReady(Empty, recs);
  }

  /**
   * A record that is not an object ends loading: the state is what the
   * records before it made, whatever follows (`[null, {...}]` loads nothing).
   */
  lemma {:induction false} NonObjectStopsLoading(st: ManagerState, recs: seq<TaskRecord>, i: nat)
    requires i < |recs| && recs[i].NotObject?
    ensures LoadAll(st, recs) == LoadAll(st, recs[..i])
    decreases i
  {
    if i > 0 {
      assert recs[..i][0] == recs[0] && recs[..i][1..] == recs[1..][..i - 1];
      match recs[0]
      case NotObject =>
      case Misfit =>
        NonObjectStopsLoading(st, recs[1..], i - 1);
      case Fits(t) =>
        NonObjectStopsLoading(LoadOne(st, t), recs[1..], i - 1);
    }
  }

  /** Records that are all objects are loaded one after another. */
  lemma {:induction false} LoadAllAppend(st: ManagerState, recs: seq<TaskRecord>, more: seq<TaskRecord>)
    requires forall j :: 0 <= j < |recs| ==> !recs[j].NotObject?
    ensures LoadAll(st, recs + more) == LoadAll(LoadAll(st, recs), more)
    decreases |recs|
  {
    if recs != [] {
      assert (recs + more)[0] == recs[0] && (recs + more)[1..] == recs[1..] + more;
      assert !recs[0].NotObject?;
      if recs[0].Misfit? {
        LoadAllAppend(st, recs[1..], more);
        assert LoadAll(st, recs + more) == LoadAll(st, recs[1..] + more);
        assert LoadAll(st, recs) == LoadAll(st, recs[1..]);
      } else {
        var t := recs[0].task;
        LoadAllAppend(LoadOne(st, t), recs[1..], more);
        assert LoadAll(st, recs + more) == LoadAll(LoadOne(st, t), recs[1..] + more);
        assert LoadAll(st, recs) == LoadAll(LoadOne(st, t), recs[1..]);
      }
    } else {
      assert recs + more == more;
    }
  }

  /** When no earlier record stops the loop, the last record for an id is the one kept. */
  lemma LaterRecordWins(st: ManagerState, recs: seq<TaskRecord>, t: TaskConfig)
    requires forall j :: 0 <= j < |recs| ==> !recs[j].NotObject?
    ensures var r := LoadAll(st, recs + [Fits(t)]);
      t.taskId in r.tasks && r.tasks[t.taskId] == t
  {
    LoadAllAppend(st, recs, [Fits(t)]);
    assert [Fits(t)][1..] == [];
    assert LoadAll(LoadAll(st, recs), [Fits(t)]) == LoadOne(LoadAll(st, recs), t);
  }

  // ---------------------------------------------------------------------------
  // Queries

  /** The enabled tasks of `tasks`, in insertion order. */
  function EnabledIn(order: seq<string>, tasks: map<string, TaskConfig>): (r: seq<TaskConfig>)
    ensures |r| <= |order|
    ensures forall i :: 0 <= i < |r| ==> r[i].enabled && r[i] in tasks.Values
    decreases |order|
  {
    if order == [] then []
    else
      var id := order[|order| - 1];
      EnabledIn(order[..|order| - 1], tasks) + (if id in tasks && tasks[id].enabled then [tasks[id]] else [])
  }

  function EnabledTasks(st: ManagerState): seq<TaskConfig> {
    EnabledIn(st.order, st.tasks)
  }

  lemma {:induction false} EnabledInComplete(order: seq<string>, tasks: map<string, TaskConfig>, id: string)
    requires id in order && id in tasks && tasks[id].enabled
    ensures tasks[id] in EnabledIn(order, tasks)
    decreases |order|
  {
    if order[|order| - 1] != id {
      assert id in order[..|order| - 1] by {
        var i :| 0 <= i < |order| && order[i] == id;
        assert order[..|order| - 1][i] == id;
      }
      EnabledInComplete(order[..|order| - 1], tasks, id);
    }
  }

  /** `get_enabled_tasks` returns exactly the enabled tasks. */
  lemma EnabledTasksExact(st: ManagerState)
    requires WellFormed(st)
    ensures forall t :: t in EnabledTasks(st) <==> t.enabled && t in st.tasks.Values
  {
    forall t: TaskConfig | t.enabled && t in st.tasks.Values ensures t in EnabledTasks(st) {
      var id :| id in st.tasks && st.tasks[id] == t;
      EnabledInComplete(st.order, st.tasks, id);
    }
  }

  /** The first enabled task in insertion order. */
  lemma {:induction false} FirstEnabled(order: seq<string>, tasks: map<string, TaskConfig>)
    requires forall id :: id in order ==> id in tasks
    ensures EnabledIn(order, tasks) != [] <==> exists i :: 0 <= i < |order| && tasks[order[i]].enabled
    ensures EnabledIn(order, tasks) != [] ==>
      exists i :: (0 <= i < |order| && tasks[order[i]].enabled && EnabledIn(order, tasks)[0] == tasks[order[i]]
                   && forall j :: 0 <= j < i ==> !tasks[order[j]].enabled)
    decreases |order|
  {
    if order != [] {
      var init := order[..|order| - 1];
      FirstEnabled(init, tasks);
      if EnabledIn(init, tasks) != [] {
        var i :| 0 <= i < |init| && tasks[init[i]].enabled && EnabledIn(init, tasks)[0] == tasks[init[i]]
                 && forall j :: 0 <= j < i ==> !tasks[init[j]].enabled;
        assert order[i] == init[i];
        assert forall j :: 0 <= j < i ==> order[j] == init[j];
      } else {
        assert forall j :: 0 <= j < |init| ==> order[j] == init[j];
        var n := |order| - 1;
        if tasks[order[n]].enabled {
          assert forall j :: 0 <= j < n ==> !tasks[order[j]].enabled;
        }
      }
    }
  }

  function TaskById(st: ManagerState, id: string): (r: Option<TaskConfig>)
    ensures r.None? <==> id !in st.tasks
    ensures r.Some? ==> r.value == st.tasks[id]
  {
    if id in st.tasks then Some(st.tasks[id]) else None
  }

  function IsRunning(st: ManagerState, id: string): (r: bool)
    ensures r <==> id in st.runningTasks && st.runningTasks[id]
  {
    if id in st.runningTasks then st.runningTasks[id] else false
  }

  // ---------------------------------------------------------------------------
  // Updates

  function SetRunning(st: ManagerState, id: string, running: bool): ManagerState {
    st.(runningTasks := st.runningTasks[id := running],
        taskStats := if id in st.taskStats then st.taskStats[id := st.taskStats[id].(status := if running then Running else Stopped)]
                     else st.taskStats)
  }

  /**
   * `set_task_running` records the flag for any id, known or not, and sets
   * the status only of a task that has a statistics entry; nothing else
   * changes.
   */
  lemma SetRunningEffect(st: ManagerState, id: string, running: bool, other: string)
    requires other != id
    ensures var s := SetRunning(st, id, running);
      && IsRunning(s, id) == running
      && IsRunning(s, other) == IsRunning(st, other)
      && s.order == st.order && s.tasks == st.tasks
      && s.taskStats.Keys == st.taskStats.Keys
      && (id in st.taskStats ==> s.taskStats[id] == st.taskStats[id].(status := if running then Running else Stopped))
      && (other in st.taskStats ==> s.taskStats[other] == st.taskStats[other])
  {
  }

  /**
   * `update_task_stats`: an unknown task is ignored; a counter name adds
   * `increment` to that counter and stamps `last_activity`; `status` and
   * `last_activity` hold a string or `None`, so adding to them raises
   * `TypeError`; any other name raises `KeyError`.
   */
  function UpdateStats(st: ManagerState, id: string, statType: string, increment: int, now: string): (r: Result<ManagerState, string>)
  {
    if id !in st.taskStats then Ok(st)
    else
      var s := st.taskStats[id];
      if statType == MessagesProcessed then
        Ok(st.(taskStats := st.taskStats[id := s.(processed := s.processed + increment, lastActivity := Some(now))]))
      else if statType == MessagesForwarded then
        Ok(st.(taskStats := st.taskStats[id := s.(forwarded := s.forwarded + increment, lastActivity := Some(now))]))
      else if statType == MessagesFailed then
        Ok(st.(taskStats := st.taskStats[id := s.(failed := s.failed + increment, lastActivity := Some(now))]))
      else if statType == LastActivity || statType == StatusKey then Err("TypeError")
      else Err("KeyError")
  }

  predicate IsCounter(statType: string) {
    statType == MessagesProcessed || statType == MessagesForwarded || statType == MessagesFailed
  }

  function Counter(s: StatsRecord, statType: string): int
    requires IsCounter(statType)
  {
    if statType == MessagesProcessed then s.processed
    else if statType == MessagesForwarded then s.forwarded
    else s.failed
  }

  /**
   * On a known task, a counter name adds `increment` to that counter only,
   * leaves the other two counters, the status and every other task alone;
   * any other name fails and changes nothing.
   */
  lemma UpdateOnlyNamedCounter(st: ManagerState, id: string, statType: string, increment: int, now: string)
    requires id in st.taskStats
    ensures var r := UpdateStats(st, id, statType, increment, now);
      && (r.Ok? <==> IsCounter(statType))
      && (r.Ok? ==>
            && r.value.order == st.order && r.value.tasks == st.tasks && r.value.runningTasks == st.runningTasks
            && r.value.taskStats.Keys == st.taskStats.Keys
            && (forall other :: other in st.taskStats && other != id ==> r.value.taskStats[other] == st.taskStats[other])
            && (forall name :: IsCounter(name) ==>
                  Counter(r.value.taskStats[id], name) == Counter(st.taskStats[id], name) + (if name == statType then increment else 0))
            && r.value.taskStats[id].status == st.taskStats[id].status
            && r.value.taskStats[id].lastActivity == Some(now))
  {
  }

  /** An unknown task leaves the whole manager unchanged, whatever the stat name. */
  lemma UpdateUnknownIgnored(st: ManagerState, id: string, statType: string, increment: int, now: string)
    requires id !in st.taskStats
    ensures UpdateStats(st, id, statType, increment, now) == Ok(st)
  {
  }

  // ---------------------------------------------------------------------------
  // Reports

  /** One entry of `get_task_stats`; `stats` is `None` where the source gives `{}`. */
  datatype TaskReport = TaskReport(name: string, sourceChat: string, targetChat: string, enabled: bool, running: bool, stats: Option<StatsRecord>)

  function Report(st: ManagerState, id: string): TaskReport
    requires id in st.tasks
  {
    var t := st.tasks[id];
    TaskReport(t.name, t.sourceChat, t.targetChat, t.enabled, IsRunning(st, id),
               if id in st.taskStats then Some(st.taskStats[id]) else None)
  }

  function StatsReport(st: ManagerState): (r: map<string, TaskReport>)
    ensures r.Keys == st.tasks.Keys
    ensures forall id :: id in r ==> r[id].name == st.tasks[id].name && r[id].enabled == st.tasks[id].enabled
    ensures forall id :: id in r ==>
      r[id].sourceChat == st.tasks[id].sourceChat && r[id].targetChat == st.tasks[id].targetChat
    ensures forall id :: id in r ==> (r[id].running <==> id in st.runningTasks && st.runningTasks[id])
    ensures forall id :: id in r ==> r[id].stats == (if id in st.taskStats then Some(st.taskStats[id]) else None)
  {
    map id | id in st.tasks :: Report(st, id)
  }

  /** The settings `load_tasks_for_userbot` hands to the legacy single-task mode. */
  datatype LegacyConfig = LegacyConfig(
    sourceChat: string, targetChat: string, forwardMode: string, forwardDelay: real, maxRetries: int,
    cleanLinks: bool, headerEnabled: bool, footerEnabled: bool, headerText: string, footerText: string)

  function Legacy(t: TaskConfig): LegacyConfig {
    LegacyConfig(t.sourceChat, t.targetChat, t.forwardMode, t.forwardDelay, t.maxRetries,
                 t.cleanLinks, t.headerEnabled, t.footerEnabled, t.headerText, t.footerText)
  }

  function LegacyFor(st: ManagerState): Option<LegacyConfig> {
    var enabled := EnabledTasks(st);
    if enabled == [] then None else Some(Legacy(enabled[0]))
  }

  /**
   * `load_tasks_for_userbot` returns `None` exactly when no task is enabled,
   * and otherwise the settings of the first enabled task in insertion order.
   */
  lemma LegacyIsFirstEnabled(st: ManagerState)
    requires WellFormed(st)
    ensures LegacyFor(st).None? <==> forall id :: id in st.tasks ==> !st.tasks[id].enabled
    ensures LegacyFor(st).Some? ==>
      exists i :: (0 <= i < |st.order| && st.tasks[st.order[i]].enabled && LegacyFor(st) == Some(Legacy(st.tasks[st.order[i]]))
                   && forall j :: 0 <= j < i ==> !st.tasks[st.order[j]].enabled)
  {
    FirstEnabled(st.order, st.tasks);
    if LegacyFor(st).None? {
      forall id | id in st.tasks ensures !st.tasks[id].enabled {
        assert id in st.order;
      }
    }
  }

  // ---------------------------------------------------------------------------
  // The manager object

  class MultiTaskManager {
    var order: seq<string>
    var tasks: map<string, TaskConfig>
    var runningTasks: map<string, bool>
    var taskStats: map<string, StatsRecord>

    function State(): ManagerState
      reads this
    {
      ManagerState(order, tasks, runningTasks, taskStats)
    }

    predicate Valid()
      reads this
    {
      WellFormed(State())
    }

    constructor()
      ensures State() == Empty && Valid()
    {
      order := [];
      tasks := map[];
      runningTasks := map[];
      taskStats := map[];
    }

    /** The loop of `_load_tasks` over the records of the tasks file. */
    method LoadTasks(recs: seq<TaskRecord>)
      requires Valid()
      modifies this
      ensures Valid()
      ensures State() == LoadAll(old(State()), recs)
    {
      ghost var whole := LoadAll(State(), recs);
      var i := 0;
      while i < |recs|
        invariant i <= |recs|
        invariant Valid()
        invariant LoadAll(State(), recs[i..]) == whole
      {
        assert recs[i..][0] == recs[i] && recs[i..][1..] == recs[i + 1..];
        match recs[i] {
          case NotObject =>
            return;
          case Misfit =>
          case Fits(t) =>
            LoadOneWellFormed(State(), t);
            if t.taskId !in tasks {
              order := order + [t.taskId];
            }
            tasks := tasks[t.taskId := t];
            runningTasks := runningTasks[t.taskId := false];
            taskStats := taskStats[t.taskId := FreshStats];
        }
        i := i + 1;
      }
    }

    /** `get_enabled_tasks` */
    method GetEnabledTasks() returns (r: seq<TaskConfig>)
      ensures r == EnabledTasks(State())
    {
      r := [];
      var i := 0;
      while i < |order|
        invariant i <= |order|
        invariant r == EnabledIn(order[..i], tasks)
      {
        assert order[..i + 1][..i] == order[..i];
        var id := order[i];
        if id in tasks && tasks[id].enabled {
          r := r + [tasks[id]];
        }
        i := i + 1;
      }
      assert order[..i] == order;
    }

    /** `get_task_by_id` */
    function GetTaskById(id: string): (r: Option<TaskConfig>)
      reads this
      ensures r.None? <==> id !in tasks
      ensures r.Some? ==> r.value == tasks[id]
    {
      TaskById(State(), id)
    }

    /** `is_task_running`: `False` for an id never flagged. */
    function IsTaskRunning(id: string): (r: bool)
      reads this
      ensures r <==> id in runningTasks && runningTasks[id]
    {
      IsRunning(State(), id)
    }

    /** `set_task_running` */
    method SetTaskRunning(id: string, running: bool)
      requires Valid()
      modifies this
      ensures Valid()
      ensures State() == SetRunning(old(State()), id, running)
    {
      runningTasks := runningTasks[id := running];
      if id in taskStats {
        taskStats := taskStats[id := taskStats[id].(status := if running then Running else Stopped)];
      }
    }

    /** `update_task_stats`; `now` stands for `datetime.now().isoformat()`. */
    method UpdateTaskStats(id: string, statType: string, increment: int, now: string) returns (r: Result<(), string>)
      requires Valid()
      modifies this
      ensures Valid()
      ensures var u := UpdateStats(old(State()), id, statType, increment, now);
        && (r.Ok? <==> u.Ok?)
        && (u.Ok? ==> State() == u.value)
        && (u.Err? ==> State() == old(State()) && r.error == u.error)
    {
      if id !in taskStats {
        return Ok(());
      }
      var s := taskStats[id];
      if statType == MessagesProcessed {
        taskStats := taskStats[id := s.(processed := s.processed + increment, lastActivity := Some(now))];
        assert State() == UpdateStats(old(State()), id, statType, increment, now).value;
      } else if statType == MessagesForwarded {
        taskStats := taskStats[id := s.(forwarded := s.forwarded + increment, lastActivity := Some(now))];
        assert State() == UpdateStats(old(State()), id, statType, increment, now).value;
      } else if statType == MessagesFailed {
        taskStats := taskStats[id := s.(failed := s.failed + increment, lastActivity := Some(now))];
        assert State() == UpdateStats(old(State()), id, statType, increment, now).value;
      } else if statType == LastActivity || statType == StatusKey {
        return Err("TypeError");
      } else {
        return Err("KeyError");
      }
      return Ok(());
    }

    /** `get_task_stats`: one report per task, built in insertion order. */
    method GetTaskStats() returns (r: map<string, TaskReport>)
      requires Valid()
      ensures r == StatsReport(State())
    {
      r := map[];
      var i := 0;
      while i < |order|
        invariant i <= |order|
        invariant r.Keys == set j | 0 <= j < i :: order[j]
        invariant forall id :: id in r ==> id in tasks && r[id] == Report(State(), id)
      {
        var id := order[i];
        r := r[id := Report(State(), id)];
        i := i + 1;
      }
      assert r.Keys == tasks.Keys by {
        forall id | id in tasks ensures id in r {
          var j :| 0 <= j < |order| && order[j] == id;
        }
      }
    }
  }

  /** `load_tasks_for_userbot` on the manager's current contents. */
  method LoadTasksForUserbot(m: MultiTaskManager) returns (r: Option<LegacyConfig>)
    ensures r == LegacyFor(m.State())
  {
    var enabled := m.GetEnabledTasks();
    if enabled == [] {
      return None;
    }
    return Some(Legacy(enabled[0]));
  }
}
