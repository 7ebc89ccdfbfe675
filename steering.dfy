/**
 * One steering task (`SteeringTask` in userbot.py): its running flag, the
 * set of message keys it has already handled, and its counters.
 */
module Steering {
  import opened Wrappers
  import opened PyStr
  import opened TaskConfigs
  import opened Filters
  import opened Transform
  import opened Delivery

  /** `TaskStats` without its timestamps. */
  datatype TaskStats = TaskStats(processed: nat, forwarded: nat, failed: nat, errors: seq<string>)

  const NoStats: TaskStats := TaskStats(0, 0, 0, [])

  /** A `NewMessage` event: the chat, the message id, the sender (absent for channel posts) and the message. */
  datatype NewMessage = NewMessage(chatId: int, messageId: int, senderId: Option<int>, message: Message)

  /** `f"{task_id}_{chat_id}_{message_id}"` */
  function MessageKey(taskId: string, chatId: int, messageId: int): string {
    taskId + "_" + IntToStr(chatId) + "_" + IntToStr(messageId)
  }

  /** Two events of one task share a key only if they are the same message of the same chat. */
  lemma MessageKeyInjective(taskId: string, c1: int, m1: int, c2: int, m2: int)
    requires MessageKey(taskId, c1, m1) == MessageKey(taskId, c2, m2)
    ensures c1 == c2 && m1 == m2
  {
    var a1, b1 := IntToStr(c1), IntToStr(m1);
    var a2, b2 := IntToStr(c2), IntToStr(m2);
    IntToStrNoUnderscore(c1);
    IntToStrNoUnderscore(c2);
    var n := |taskId| + 1;
    assert MessageKey(taskId, c1, m1)[n..] == a1 + "_" + b1;
    assert MessageKey(taskId, c2, m2)[n..] == a2 + "_" + b2;
    SplitAtFirstUnderscore(a1, b1, a2, b2);
    IntToStrInjective(c1, c2);
    IntToStrInjective(m1, m2);
  }

  lemma SplitAtFirstUnderscore(a1: string, b1: string, a2: string, b2: string)
    requires '_' !in a1 && '_' !in a2
    requires a1 + "_" + b1 == a2 + "_" + b2
    ensures a1 == a2 && b1 == b2
  {
    var s := a1 + "_" + b1;
    FirstUnderscoreAt(a1, b1);
    FirstUnderscoreAt(a2, b2);
    assert a1 == s[..|a1|] == a2;
    assert b1 == s[|a1| + 1..] == b2;
  }

  lemma FirstUnderscoreAt(a: string, b: string)
    requires '_' !in a
    ensures (a + "_" + b)[|a|] == '_'
    ensures forall i :: 0 <= i < |a| ==> (a + "_" + b)[i] != '_'
  {
    forall i | 0 <= i < |a| ensures (a + "_" + b)[i] != '_' {
      assert (a + "_" + b)[i] == a[i];
    }
  }

  /**
   * The counters after `_process_message`. `me` is what `get_me` answers:
   * the account's own id, or the error it raised (logged with a timestamp in
   * the source, here the error text itself).
   */
  function Processed(s: TaskStats, c: SteeringTaskConfig, rx: Strippers, ev: NewMessage,
                     me: Result<int, string>, send: Oracle): TaskStats
  {
    match me
    case Err(e) => s.(failed := s.failed + 1, errors := s.errors + [e])
    case Ok(id) =>
      if ev.senderId == Some(id) then s
      else if !ShouldForward(c, ev.message) then s.(processed := s.processed + 1)
      else if Retry(c, rx, ev.message, send).delivered then s.(processed := s.processed + 1, forwarded := s.forwarded + 1)
      else s.(processed := s.processed + 1, failed := s.failed + 1)
  }

  /** What a task's handler can change. */
  datatype TaskState = TaskState(running: bool, processedKeys: set<string>, stats: TaskStats)

  /** The registered handler: the running/enabled guard, the dedup set, then `_process_message`. */
  function OnNewMessage(st: TaskState, c: SteeringTaskConfig, rx: Strippers, ev: NewMessage,
                  me: Result<int, string>, send: Oracle): TaskState
  {
    if !st.running || !c.enabled then st
    else
      var key := MessageKey(c.taskId, ev.chatId, ev.messageId);
      if key in st.processedKeys then st
      else TaskState(st.running, st.processedKeys + {key}, Processed(st.stats, c, rx, ev, me, send))
  }

  /**
   * Every counted outcome comes from a distinct handled key, every
   * forwarded or failed message was counted as processed or as an error,
   * and every error is also a failure.
   */
  predicate ConsistentStats(st: TaskState) {
    && st.stats.forwarded + st.stats.failed <= st.stats.processed + |st.stats.errors|
    && st.stats.processed + |st.stats.errors| <= |st.processedKeys|
    && |st.stats.errors| <= st.stats.failed
  }

  lemma HandleKeepsStatsConsistent(st: TaskState, c: SteeringTaskConfig, rx: Strippers, ev: NewMessage,
                                   me: Result<int, string>, send: Oracle)
    requires ConsistentStats(st)
    ensures ConsistentStats(OnNewMessage(st, c, rx, ev, me, send))
  {
    var key := MessageKey(c.taskId, ev.chatId, ev.messageId);
    if st.running && c.enabled && key !in st.processedKeys {
      assert |st.processedKeys + {key}| == |st.processedKeys| + 1;
    }
  }

  /**
   * While running and enabled, a message is processed at most once: after
   * the first event its key is recorded, and a second delivery of the same
   * message changes nothing, whatever the client answers then.
   */
  lemma HandledAtMostOnce(st: TaskState, c: SteeringTaskConfig, rx: Strippers, ev: NewMessage,
                          me: Result<int, string>, send: Oracle, me2: Result<int, string>, send2: Oracle)
    ensures var st1 := OnNewMessage(st, c, rx, ev, me, send);
      && (st.running && c.enabled ==> MessageKey(c.taskId, ev.chatId, ev.messageId) in st1.processedKeys)
      && OnNewMessage(st1, c, rx, ev, me2, send2) == st1
  {
  }

  /** A stopped or disabled task ignores every event. */
  lemma IdleTaskIgnoresEvents(st: TaskState, c: SteeringTaskConfig, rx: Strippers, ev: NewMessage,
                              me: Result<int, string>, send: Oracle)
    requires !st.running || !c.enabled
    ensures OnNewMessage(st, c, rx, ev, me, send) == st
  {
  }

  /**
   * Each new message moves exactly one counter, or none when it is the
   * account's own message: a filtered message is processed only, an
   * allowed one is processed and then forwarded or failed.
   */
  lemma ProcessedCounts(s: TaskStats, c: SteeringTaskConfig, rx: Strippers, ev: NewMessage, id: int, send: Oracle)
    ensures var r := Processed(s, c, rx, ev, Ok(id), send);
      && r.errors == s.errors
      && (ev.senderId == Some(id) ==> r == s)
      && (ev.senderId != Some(id) ==> r.processed == s.processed + 1)
      && r.forwarded + r.failed == s.forwarded + s.failed + (if ev.senderId != Some(id) && ShouldForward(c, ev.message) then 1 else 0)
      && (r.forwarded > s.forwarded <==> ev.senderId != Some(id) && ShouldForward(c, ev.message) && Retry(c, rx, ev.message, send).delivered)
  {
  }

  /** A live task object. */
  class SteeringTask {
    const config: SteeringTaskConfig
    var isRunning: bool
    var processedMessages: set<string>
    var stats: TaskStats

    function State(): TaskState
      reads this
    {
      TaskState(isRunning, processedMessages, stats)
    }

    predicate Valid()
      reads this
    {
      ConsistentStats(State())
    }

    /** A new task is stopped, has seen no message and has zero counters. */
    constructor(c: SteeringTaskConfig)
      ensures config == c && State() == TaskState(false, {}, NoStats)
      ensures Valid()
    {
      config := c;
      isRunning := false;
      processedMessages := {};
      stats := NoStats;
    }

    /**
     * `start`: refuses only when already running; chat validation swallows
     * its own errors, so it never makes the start fail.
     */
    method Start() returns (ok: bool)
      modifies this
      ensures ok == !old(isRunning)
      ensures isRunning
      ensures processedMessages == old(processedMessages) && stats == old(stats)
    {
      if isRunning {
        return false;
      }
      isRunning := true;
      return true;
    }

    method Stop()
      modifies this
      ensures !isRunning
      ensures processedMessages == old(processedMessages) && stats == old(stats)
    {
      isRunning := false;
    }

    /** The handler registered for the source chat. */
    method HandleMessage(ev: NewMessage, me: Result<int, string>, rx: Strippers, send: Oracle)
      requires Valid()
      modifies this
      ensures Valid()
      ensures State() == OnNewMessage(old(State()), config, rx, ev, me, send)
    {
      HandleKeepsStatsConsistent(State(), config, rx, ev, me, send);
      if !isRunning || !config.enabled {
        return;
      }
      var key := MessageKey(config.taskId, ev.chatId, ev.messageId);
      if key in processedMessages {
        return;
      }
      processedMessages := processedMessages + {key};
      ProcessMessage(ev, me, rx, send);
    }

    /** `_process_message`: skip own messages, count, filter, deliver, count the outcome. */
    method ProcessMessage(ev: NewMessage, me: Result<int, string>, rx: Strippers, send: Oracle)
      modifies this
      ensures isRunning == old(isRunning) && processedMessages == old(processedMessages)
      ensures stats == Processed(old(stats), config, rx, ev, me, send)
    {
      if me.Err? {
        stats := stats.(failed := stats.failed + 1, errors := stats.errors + [me.error]);
        return;
      }
      if ev.senderId == Some(me.value) {
        return;
      }
      stats := stats.(processed := stats.processed + 1);
      if !ShouldForward(config, ev.message) {
        return;
      }
      var ok, _, _ := ForwardMessageToTarget(config, rx, ev.message, send);
      if ok {
        stats := stats.(forwarded := stats.forwarded + 1);
      } else {
        stats := stats.(failed := stats.failed + 1);
      }
    }
  }
}
