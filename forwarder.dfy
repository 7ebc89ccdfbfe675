/**
 * The task registry of `TelegramForwarder` in userbot.py: the configured
 * tasks, keyed by id, and the live task objects of the tasks that run.
 */
module Forwarder {
  import opened Wrappers
  import opened TaskConfigs
  import opened Steering

  /** One entry of `get_task_stats`. */
  datatype TaskSummary = TaskSummary(name: string, status: string, sourceChat: string, targetChat: string, stats: Option<TaskStats>)

  const Running: string := "running"
  const Stopped: string := "stopped"

  /** `get_task_stats` looks every live task up in `task_configs`; a missing id raises `KeyError`. */
  const KeyError: string := "KeyError"

  class TelegramForwarder {
    var taskConfigs: map<string, SteeringTaskConfig>
    var steeringTasks: map<string, SteeringTask>

    /**
     * Configurations are keyed by their own id; every live task runs, was
     * started for the id it is filed under, and is a separate object.
     */
    predicate Valid()
      reads this, steeringTasks.Values
    {
      && (forall id :: id in taskConfigs ==> taskConfigs[id].taskId == id)
      && (forall id :: id in steeringTasks ==> steeringTasks[id].isRunning && steeringTasks[id].config.taskId == id && steeringTasks[id].Valid())
      && (forall a, b :: a in steeringTasks && b in steeringTasks && a != b ==> steeringTasks[a] != steeringTasks[b])
    }

    constructor()
      ensures taskConfigs == map[] && steeringTasks == map[]
      ensures Valid()
    {
      taskConfigs := map[];
      steeringTasks := map[];
    }

    /** `start_steering_task`: only a configured task that is not already live is started. */
    method StartSteeringTask(id: string) returns (ok: bool)
      requires Valid()
      modifies this
      ensures Valid()
      ensures taskConfigs == old(taskConfigs)
      ensures ok <==> id in old(taskConfigs) && id !in old(steeringTasks)
      ensures !ok ==> steeringTasks == old(steeringTasks)
      ensures ok ==> id in steeringTasks && fresh(steeringTasks[id])
                     && steeringTasks == old(steeringTasks)[id := steeringTasks[id]]
                     && steeringTasks[id].config == taskConfigs[id]
                     && steeringTasks[id].State() == TaskState(true, {}, NoStats)
    {
      if id !in taskConfigs {
        return false;
      }
      if id in steeringTasks {
        return false;
      }
      var task := new SteeringTask(taskConfigs[id]);
      ok := task.Start();
      if ok {
        steeringTasks := steeringTasks[id := task];
      }
    }

    /**
     * The task-starting loop of `start`: every enabled configuration is
     * started unless it is already live; `started` counts the successes.
     */
    method StartEnabledTasks() returns (started: nat)
      requires Valid()
      modifies this
      ensures Valid()
      ensures taskConfigs == old(taskConfigs)
      ensures steeringTasks.Keys == old(steeringTasks.Keys) + EnabledIds(taskConfigs)
      ensures forall id :: id in old(steeringTasks) ==> steeringTasks[id] == old(steeringTasks[id])
      ensures forall id :: id in steeringTasks && id !in old(steeringTasks) ==>
                fresh(steeringTasks[id]) && steeringTasks[id].config == taskConfigs[id]
      ensures started == |EnabledIds(taskConfigs) - old(steeringTasks.Keys)|
    {
      started := 0;
      var todo := taskConfigs.Keys;
      ghost var done: set<string> := {};
      ghost var en := EnabledIds(taskConfigs);
      ghost var base := steeringTasks.Keys;
      while todo != {}
        invariant Valid()
        invariant taskConfigs == old(taskConfigs)
        invariant todo + done == taskConfigs.Keys && todo !! done
        invariant steeringTasks.Keys == base + (en * done)
        invariant forall id :: id in base ==> steeringTasks[id] == old(steeringTasks[id])
        invariant forall id :: id in steeringTasks && id !in base ==>
                    fresh(steeringTasks[id]) && steeringTasks[id].config == taskConfigs[id]
        invariant started == |(en * done) - base|
        decreases todo
      {
        var id :| id in todo;
        ghost var prev := steeringTasks;
        var added := StartIfEnabled(id);
        if added {
          started := started + 1;
        }
        Bookkeeping(base, en, done, id, prev.Keys, steeringTasks.Keys, taskConfigs[id].enabled, added);
        forall x | x in steeringTasks && x !in base
          ensures fresh(steeringTasks[x]) && steeringTasks[x].config == taskConfigs[x]
        {
          if x != id || !added {
            assert x in prev && steeringTasks[x] == prev[x];
          }
        }
        MoveOne(todo, done, id);
        todo := todo - {id};
        done := done + {id};
      }
      assert done == taskConfigs.Keys;
      EnabledAreConfigured(taskConfigs);
    }

    /** One turn of that loop: start the task if its configuration is enabled. */
    method StartIfEnabled(id: string) returns (added: bool)
      requires Valid() && id in taskConfigs
      modifies this
      ensures Valid()
      ensures taskConfigs == old(taskConfigs)
      ensures added <==> taskConfigs[id].enabled && id !in old(steeringTasks)
      ensures steeringTasks.Keys == if taskConfigs[id].enabled then old(steeringTasks.Keys) + {id} else old(steeringTasks.Keys)
      ensures forall x :: x in old(steeringTasks) ==> steeringTasks[x] == old(steeringTasks[x])
      ensures added ==> fresh(steeringTasks[id]) && steeringTasks[id].config == taskConfigs[id]
    {
      added := false;
      if taskConfigs[id].enabled {
        ghost var prev := steeringTasks;
        added := StartSteeringTask(id);
        if !added {
          AbsorbOne(prev.Keys, id);
        }
      }
    }

    /** `stop_steering_task`: stops a live task and forgets it. */
    method StopSteeringTask(id: string) returns (ok: bool)
      requires Valid()
      modifies this, if id in steeringTasks then {steeringTasks[id]} else {}
      ensures Valid()
      ensures taskConfigs == old(taskConfigs)
      ensures ok <==> id in old(steeringTasks)
      ensures steeringTasks == old(steeringTasks) - {id}
      ensures ok ==> !old(steeringTasks[id]).isRunning && old(steeringTasks[id]).stats == old(steeringTasks[id].stats)
    {
      if id !in steeringTasks {
        return false;
      }
      var task := steeringTasks[id];
      task.Stop();
      steeringTasks := steeringTasks - {id};
      return true;
    }

    /** `restart_steering_task`: stop if live, then start afresh from the current configuration. */
    method RestartSteeringTask(id: string) returns (ok: bool)
      requires Valid()
      modifies this, if id in steeringTasks then {steeringTasks[id]} else {}
      ensures Valid()
      ensures taskConfigs == old(taskConfigs)
      ensures ok <==> id in taskConfigs
      ensures !ok ==> steeringTasks == old(steeringTasks) - {id}
      ensures ok ==> id in steeringTasks && fresh(steeringTasks[id])
                     && steeringTasks == (old(steeringTasks) - {id})[id := steeringTasks[id]]
                     && steeringTasks[id].config == taskConfigs[id]
                     && steeringTasks[id].State() == TaskState(true, {}, NoStats)
    {
      var _ := StopSteeringTask(id);
      ok := StartSteeringTask(id);
    }

    /** `add_steering_task`: files the configuration under its id, replacing any earlier one. */
    method AddSteeringTask(config: SteeringTaskConfig)
      requires Valid()
      modifies this
      ensures Valid()
      ensures taskConfigs == old(taskConfigs)[config.taskId := config]
      ensures steeringTasks == old(steeringTasks)
    {
      taskConfigs := taskConfigs[config.taskId := config];
    }

    /**
     * `remove_steering_task`: forgets the configuration at once; stopping a
     * live task is only scheduled (`stopScheduled`), and the task stays in
     * `steeringTasks` until that stop runs.
     */
    method RemoveSteeringTask(id: string) returns (stopScheduled: bool)
      requires Valid()
      modifies this
      ensures Valid()
      ensures stopScheduled <==> id in steeringTasks
      ensures taskConfigs == old(taskConfigs) - {id}
      ensures steeringTasks == old(steeringTasks)
    {
      stopScheduled := id in steeringTasks;
      taskConfigs := taskConfigs - {id};
    }

    /** The entries `get_task_stats` returns, or the `KeyError` it raises. */
    function StatsView(): (r: Result<map<string, TaskSummary>, string>)
      reads this, steeringTasks.Values
      ensures r.Err? <==> exists id :: id in steeringTasks && id !in taskConfigs
      ensures r.Ok? ==> r.value.Keys == taskConfigs.Keys
      ensures r.Ok? ==> forall id :: id in r.value ==>
                && r.value[id].name == taskConfigs[id].name
                && r.value[id].sourceChat == taskConfigs[id].sourceChat
                && r.value[id].targetChat == taskConfigs[id].targetChat
                && (r.value[id].stats.Some? <==> id in steeringTasks)
                && (id in steeringTasks ==> r.value[id].stats == Some(steeringTasks[id].stats))
                && r.value[id].status == (if id in steeringTasks && steeringTasks[id].isRunning then Running else Stopped)
    {
      if !(steeringTasks.Keys <= taskConfigs.Keys) then Err(KeyError)
      else Ok(map id | id in taskConfigs :: SummaryOf(id))
    }

    /** The entry of one configured task: its live statistics when it has a task, an idle entry otherwise. */
    function SummaryOf(id: string): TaskSummary
      reads this, steeringTasks.Values
      requires id in taskConfigs
    {
      if id in steeringTasks then LiveSummary(taskConfigs[id], steeringTasks[id]) else IdleSummary(taskConfigs[id])
    }

    /** `get_task_stats`: first the live tasks, then every configured task not yet listed. */
    method GetTaskStats() returns (r: Result<map<string, TaskSummary>, string>)
      ensures r == StatsView()
    {
      var stats: map<string, TaskSummary> := map[];
      var live := steeringTasks.Keys;
      while live != {}
        invariant live <= steeringTasks.Keys
        invariant stats.Keys == steeringTasks.Keys - live
        invariant forall id :: id in stats ==> id in taskConfigs && stats[id] == SummaryOf(id)
        decreases live
      {
        var id :| id in live;
        if id !in taskConfigs {
          return Err(KeyError);
        }
        stats := stats[id := SummaryOf(id)];
        live := live - {id};
      }
      var configured := taskConfigs.Keys;
      while configured != {}
        invariant configured <= taskConfigs.Keys
        invariant steeringTasks.Keys <= taskConfigs.Keys
        invariant stats.Keys == steeringTasks.Keys + (taskConfigs.Keys - configured)
        invariant forall id :: id in stats ==> id in taskConfigs && stats[id] == SummaryOf(id)
        decreases configured
      {
        var id :| id in configured;
        if id !in stats {
          stats := stats[id := IdleSummary(taskConfigs[id])];
        }
        configured := configured - {id};
      }
      assert stats == StatsView().value;
      return Ok(stats);
    }
  }

  lemma MoveOne(todo: set<string>, done: set<string>, id: string)
    requires id in todo && todo !! done
    ensures (todo - {id}) + (done + {id}) == todo + done && (todo - {id}) !! (done + {id})
  {
  }

  lemma EnabledAreConfigured(configs: map<string, SteeringTaskConfig>)
    ensures EnabledIds(configs) * configs.Keys == EnabledIds(configs)
  {
  }

  /** The set arithmetic of one turn of the starting loop. */
  lemma Bookkeeping(base: set<string>, en: set<string>, done: set<string>, id: string,
                    before: set<string>, after: set<string>, enabled: bool, added: bool)
    requires before == base + (en * done) && id !in done
    requires enabled <==> id in en
    requires after == if enabled then before + {id} else before
    requires added <==> enabled && id !in before
    ensures after == base + (en * (done + {id}))
    ensures |(en * (done + {id})) - base| == |(en * done) - base| + (if added then 1 else 0)
  {
    if enabled {
      AddDone(base, en, done, id);
    } else {
      SkipDone(en, done, id);
    }
  }

  lemma AbsorbOne(x: set<string>, id: string)
    requires id in x
    ensures x + {id} == x
  {
  }

  lemma SkipDone(e: set<string>, done: set<string>, id: string)
    requires id !in e
    ensures e * (done + {id}) == e * done
  {
  }

  lemma AddDone(base: set<string>, e: set<string>, done: set<string>, id: string)
    requires id in e && id !in done
    ensures base + e * (done + {id}) == (base + e * done) + {id}
    ensures id !in base ==> |(e * (done + {id})) - base| == |(e * done) - base| + 1
    ensures id in base ==> |(e * (done + {id})) - base| == |(e * done) - base|
  {
    if id !in base {
      assert (e * (done + {id})) - base == ((e * done) - base) + {id};
    } else {
      assert (e * (done + {id})) - base == (e * done) - base;
    }
  }

  function EnabledIds(configs: map<string, SteeringTaskConfig>): set<string> {
    set id | id in configs && configs[id].enabled
  }

  function LiveSummary(c: SteeringTaskConfig, t: SteeringTask): TaskSummary
    reads t
  {
    TaskSummary(c.name, if t.isRunning then Running else Stopped, c.sourceChat, c.targetChat, Some(t.stats))
  }

  function IdleSummary(c: SteeringTaskConfig): TaskSummary {
    TaskSummary(c.name, Stopped, c.sourceChat, c.targetChat, None)
  }

  /** In a consistent registry every live task is reported as running. */
  lemma LiveTasksReportedRunning(f: TelegramForwarder)
    requires f.Valid() && f.StatsView().Ok?
    ensures forall id :: id in f.StatsView().value ==> (f.StatsView().value[id].status == Running <==> id in f.steeringTasks)
  {
  }

  /**
   * Between `remove_steering_task` of a live task and the stop it
   * schedules, `get_task_stats` raises `KeyError`.
   */
  lemma RemovedLiveTaskBreaksStats(f: TelegramForwarder, id: string)
    requires id in f.steeringTasks && id !in f.taskConfigs
    ensures f.StatsView().Err?
  {
  }
}
