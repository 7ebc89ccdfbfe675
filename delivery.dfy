/**
 * Delivery of one message to the task's target
 * (`SteeringTask._forward_message_to_target` and `_copy_message`).
 *
 * Every call into the Telegram client is one use of a send oracle: the
 * outcome of the `k`-th send of the run, given the target and the request.
 * Sleeping is not performed; every sleep the source would take is recorded
 * as an event in a log.
 */
module Delivery {
  import opened Wrappers
  import opened PyStr
  import opened TaskConfigs
  import opened Filters
  import opened Transform

  // ---------------------------------------------------------------------------
  // Target candidates

  /** An entity the client is asked to send to: the raw setting or a numeric chat id. */
  datatype Target = Handle(name: string) | ChatId(id: int)

  const ChannelPrefix: string := "-100"

  /** `target_chat.replace('-100', '')`: every occurrence of the prefix removed. */
  function Unprefixed(target: string): string {
    ReplaceAll(target, ChannelPrefix, [])
  }

  /** The setting starts with `-100` and reads as a number once every `-100` is removed. */
  predicate HasChannelId(target: string) {
    ChannelPrefix <= target && ParseInt(Unprefixed(target)).Some?
  }

  /**
   * The candidate list exactly as `_forward_message_to_target` builds it:
   * `int(target_chat)` is evaluated while the list is built, so a setting
   * that is not a number raises before anything is sent, and so does a
   * `-100…` setting whose `.replace('-100', '')` is not a number.
   */
  function CandidatesAsWritten(target: string): (r: Result<seq<Target>, string>)
    ensures r.Ok? <==> ParseInt(target).Some? && (ChannelPrefix <= target ==> HasChannelId(target))
    ensures r.Ok? ==> |r.value| == (if ChannelPrefix <= target then 3 else 2)
    ensures r.Ok? ==> r.value[0] == Handle(target) && r.value[1] == ChatId(ParseInt(target).value)
    ensures r.Ok? && ChannelPrefix <= target ==> r.value[2] == ChatId(ParseInt(Unprefixed(target)).value)
  {
    match ParseInt(target)
    case None => Err("invalid literal for int()")
    case Some(n) =>
      if ChannelPrefix <= target then
        match ParseInt(Unprefixed(target))
        case None => Err("invalid literal for int()")
        case Some(bare) => Ok([Handle(target), ChatId(n), ChatId(bare)])
      else Ok([Handle(target), ChatId(n)])
  }

  /**
   * The candidate list as evidently intended: the raw setting first, then
   * its integer reading when there is one, then its `-100`-stripped reading
   * when the setting starts with `-100` and that reading exists.
   */
  function TargetCandidates(target: string): (r: seq<Target>)
    ensures |r| == 1 + (if ParseInt(target).Some? then 1 else 0) + (if HasChannelId(target) then 1 else 0)
    ensures r[0] == Handle(target)
    ensures ParseInt(target).Some? ==> r[1] == ChatId(ParseInt(target).value)
    ensures HasChannelId(target) ==> r[|r| - 1] == ChatId(ParseInt(Unprefixed(target)).value)
  {
    [Handle(target)]
    + (match ParseInt(target) case None => [] case Some(n) => [ChatId(n)])
    + (if ChannelPrefix <= target then
         match ParseInt(Unprefixed(target)) case None => [] case Some(bare) => [ChatId(bare)]
       else [])
  }

  /** A bare `-100` is an integer literal, yet the source's list fails: `int("")` raises. */
  lemma BarePrefixFails()
    ensures ParseInt(ChannelPrefix).Some?
    ensures CandidatesAsWritten(ChannelPrefix).Err?
  {
    StripUnpadded(ChannelPrefix);
    assert ChannelPrefix[1..] == "100";
    assert WellFormedDigits("100");
    assert ReplaceAll(ChannelPrefix, ChannelPrefix, []) == [];
  }

  /** Wherever the source's list can be built at all, the corrected list is the same list. */
  lemma CandidatesAgree(target: string)
    ensures CandidatesAsWritten(target).Ok? ==> CandidatesAsWritten(target).value == TargetCandidates(target)
  {
  }

  // ---------------------------------------------------------------------------
  // What is sent (`_copy_message`, or `forward_messages` outside copy mode)

  datatype Request =
    | ForwardOriginal
    | SendMessage(text: string, withMedia: bool, buttons: Option<seq<seq<Button>>>)
    | SendFile

  const CopyMode: string := "copy"

  /** The client call one send makes, with the processed text and the custom buttons. */
  function SendRequest(c: SteeringTaskConfig, rx: Strippers, m: Message): (r: Request)
    ensures r.ForwardOriginal? <==> c.forwardMode != CopyMode
    ensures r.SendMessage? ==> r.text == ProcessText(c, rx, MessageText(m)) && r.withMedia == m.hasMedia
    ensures r.SendMessage? ==> r.buttons == (if c.buttonsEnabled then InlineButtons(c) else None)
    ensures r.SendFile? <==> c.forwardMode == CopyMode && m.hasMedia && ProcessText(c, rx, MessageText(m)) == []
                             && !(c.buttonsEnabled && InlineButtons(c).Some?)
  {
    if c.forwardMode != CopyMode then ForwardOriginal
    else
      var text := ProcessText(c, rx, MessageText(m));
      var buttons := if c.buttonsEnabled then InlineButtons(c) else None;
      if m.hasMedia then
        if text != [] || buttons.Some? then SendMessage(text, true, buttons) else SendFile
      else SendMessage(text, false, buttons)
  }

  /** In copy mode the media of a message is always carried along, and never invented. */
  lemma CopyKeepsMedia(c: SteeringTaskConfig, rx: Strippers, m: Message)
    requires c.forwardMode == CopyMode
    ensures var r := SendRequest(c, rx, m); m.hasMedia <==> (r.SendFile? || (r.SendMessage? && r.withMedia))
  {
  }

  // ---------------------------------------------------------------------------
  // Pacing after a successful send

  function Max(a: real, b: real): real {
    if a >= b then a else b
  }

  /** The pause after a delivery: shorter for plain text, longer for media. */
  function PacingDelay(c: SteeringTaskConfig, m: Message): (r: Option<real>)
    ensures r.Some? <==> c.forwardDelay > 0.0
    ensures r.Some? ==> r.value > 0.0
    ensures r.Some? && m.text != [] && !m.hasMedia ==> r.value >= 0.1 && r.value <= Max(0.1, c.forwardDelay)
    ensures r.Some? && m.hasMedia ==> r.value > c.forwardDelay
  {
    if c.forwardDelay <= 0.0 then None
    else if m.text != [] && !m.hasMedia then Some(Max(0.1, c.forwardDelay * 0.3))
    else if m.hasMedia then Some(c.forwardDelay * 1.5)
    else Some(c.forwardDelay)
  }

  // ---------------------------------------------------------------------------
  // The retry loop

  /**
   * What one client call does: succeed, raise `FloodWaitError`, raise another
   * error, or raise `ValueError` (the entity could not be used).
   */
  datatype SendOutcome = Sent | FloodWait(seconds: nat) | RpcError | BadEntity

  type Oracle = (nat, Target, Request) -> SendOutcome

  datatype Event =
    | Tried(attempt: nat, target: Target, outcome: SendOutcome)
    | ListFailed(attempt: nat)
    | FloodSleep(attempt: nat, seconds: nat)
    | Backoff(attempt: nat, seconds: nat)
    | Paced(delay: real)

  /** How one pass over the candidates ended, how many sends it used, what it logged. */
  datatype PassOutcome = Forwarded | Flood(seconds: nat) | Failed
  datatype Pass = Pass(outcome: PassOutcome, sends: nat, log: seq<Event>)

  /** A run of the retry loop: delivered or not, attempts made, events logged. */
  datatype Run = Run(delivered: bool, attempts: nat, log: seq<Event>)

  /**
   * The candidates in order: a `ValueError` moves on to the next one; any
   * other outcome ends the pass. Exhausting the list raises `ValueError`.
   */
  function TryTargets(ts: seq<Target>, attempt: nat, req: Request, send: Oracle, k: nat): (p: Pass)
    ensures |p.log| == p.sends <= |ts|
    decreases |ts|
  {
    if ts == [] then Pass(Failed, 0, [])
    else
      var o := send(k, ts[0], req);
      var e := Tried(attempt, ts[0], o);
      match o
      case Sent => Pass(Forwarded, 1, [e])
      case FloodWait(n) => Pass(Flood(n), 1, [e])
      case RpcError => Pass(Failed, 1, [e])
      case BadEntity =>
        var p := TryTargets(ts[1..], attempt, req, send, k + 1);
        Pass(p.outcome, p.sends + 1, [e] + p.log)
  }

  /**
   * A pass asks for the candidates in list order, one send each, and moves
   * past a candidate only when it was refused with `ValueError`.
   */
  /** The `i`-th send of a pass goes to the `i`-th candidate, as the `k + i`-th send overall. */
  predicate SendsInOrder(log: seq<Event>, ts: seq<Target>, attempt: nat, req: Request, send: Oracle, k: nat)
    requires |log| <= |ts|
  {
    forall i {:trigger log[i]} :: 0 <= i < |log| ==> log[i] == Tried(attempt, ts[i], send(k + i, ts[i], req))
  }

  /** Every event of `log` but the last is a send refused with `ValueError`. */
  predicate RefusedUntilLast(log: seq<Event>) {
    forall i {:trigger log[i]} :: 0 <= i < |log| - 1 ==> log[i].Tried? && log[i].outcome == BadEntity
  }

  lemma {:induction false} TriesInOrder(ts: seq<Target>, attempt: nat, req: Request, send: Oracle, k: nat)
    ensures var p := TryTargets(ts, attempt, req, send, k);
      && SendsInOrder(p.log, ts, attempt, req, send, k)
      && (forall i :: 0 <= i < |p.log| - 1 ==> p.log[i].outcome == BadEntity)
  {
    TriedInListOrder(ts, attempt, req, send, k);
    RefusedBeforeLast(ts, attempt, req, send, k);
  }

  lemma {:induction false} TriedInListOrder(ts: seq<Target>, attempt: nat, req: Request, send: Oracle, k: nat)
    ensures var p := TryTargets(ts, attempt, req, send, k);
      SendsInOrder(p.log, ts, attempt, req, send, k)
    decreases |ts|
  {
    if ts != [] && send(k, ts[0], req) == BadEntity {
      var q := TryTargets(ts[1..], attempt, req, send, k + 1);
      var p := TryTargets(ts, attempt, req, send, k);
      assert p.log == [Tried(attempt, ts[0], BadEntity)] + q.log;
      TriedInListOrder(ts[1..], attempt, req, send, k + 1);
      forall i | 1 <= i < |p.log| ensures p.log[i] == Tried(attempt, ts[i], send(k + i, ts[i], req)) {
        assert p.log[i] == q.log[i - 1] && ts[1..][i - 1] == ts[i] && k + 1 + (i - 1) == k + i;
      }
    }
  }

  /** Every send of a pass but the last one was refused with `ValueError`. */
  lemma {:induction false} RefusedBeforeLast(ts: seq<Target>, attempt: nat, req: Request, send: Oracle, k: nat)
    ensures RefusedUntilLast(TryTargets(ts, attempt, req, send, k).log)
    decreases |ts|
  {
    if ts != [] && send(k, ts[0], req) == BadEntity {
      var q := TryTargets(ts[1..], attempt, req, send, k + 1);
      var p := TryTargets(ts, attempt, req, send, k);
      assert p.log == [Tried(attempt, ts[0], BadEntity)] + q.log;
      RefusedBeforeLast(ts[1..], attempt, req, send, k + 1);
      forall i | 1 <= i < |p.log| - 1 ensures p.log[i].Tried? && p.log[i].outcome == BadEntity {
        assert p.log[i] == q.log[i - 1];
      }
    }
  }

  /** A pass that fails before the end of the list was stopped by an error other than `ValueError`. */
  lemma {:induction false} EarlyFailureIsError(ts: seq<Target>, attempt: nat, req: Request, send: Oracle, k: nat)
    ensures var p := TryTargets(ts, attempt, req, send, k);
      p.outcome.Failed? && p.sends < |ts| ==> p.sends > 0 && p.log[p.sends - 1] == Tried(attempt, ts[p.sends - 1], RpcError)
    decreases |ts|
  {
    if ts != [] && send(k, ts[0], req) == BadEntity {
      var q := TryTargets(ts[1..], attempt, req, send, k + 1);
      var p := TryTargets(ts, attempt, req, send, k);
      assert p.log == [Tried(attempt, ts[0], BadEntity)] + q.log;
      EarlyFailureIsError(ts[1..], attempt, req, send, k + 1);
      if p.outcome.Failed? && p.sends < |ts| {
        assert p.log[p.sends - 1] == q.log[q.sends - 1] && ts[p.sends - 1] == ts[1..][q.sends - 1];
      }
    }
  }

  function Min(a: nat, b: nat): nat {
    if a <= b then a else b
  }

  function Pow2(n: nat): nat {
    if n == 0 then 1 else 2 * Pow2(n - 1)
  }

  const FloodCap: nat := 60

  function PaceLog(pace: Option<real>): seq<Event> {
    match pace case None => [] case Some(d) => [Paced(d)]
  }

  /** One attempt's pass; when the candidate list cannot be built, the attempt fails before any send. */
  function PassOf(cands: Result<seq<Target>, string>, attempt: nat, req: Request, send: Oracle, k: nat): Pass {
    match cands
    case Err(_) => Pass(Failed, 0, [ListFailed(attempt)])
    case Ok(ts) => TryTargets(ts, attempt, req, send, k)
  }

  /**
   * One attempt, given its pass and the run of the attempts after it:
   * success paces and ends the loop; a flood wait sleeps at most a minute
   * and goes on; any other failure ends the loop on the last attempt and
   * otherwise backs off `2**attempt` seconds and goes on.
   */
  function Step(p: Pass, pace: Option<real>, rest: Run, attempt: nat, maxRetries: int): Run {
    match p.outcome
    case Forwarded => Run(true, 1, p.log + PaceLog(pace))
    case Flood(n) => Run(rest.delivered, 1 + rest.attempts, p.log + [FloodSleep(attempt, Min(n, FloodCap))] + rest.log)
    case Failed =>
      if attempt == maxRetries - 1 then Run(false, 1, p.log)
      else Run(rest.delivered, 1 + rest.attempts, p.log + [Backoff(attempt, Pow2(attempt))] + rest.log)
  }

  /** The retry loop from `attempt` on, with `k` sends already made. */
  function Attempts(cands: Result<seq<Target>, string>, maxRetries: int, pace: Option<real>,
                    req: Request, send: Oracle, attempt: nat, k: nat): Run
    decreases maxRetries - attempt
  {
    if attempt >= maxRetries then Run(false, 0, [])
    else
      var p := PassOf(cands, attempt, req, send, k);
      Step(p, pace, Attempts(cands, maxRetries, pace, req, send, attempt + 1, k + p.sends), attempt, maxRetries)
  }

  function RetryWith(cands: Result<seq<Target>, string>, c: SteeringTaskConfig, rx: Strippers, m: Message, send: Oracle): Run {
    Attempts(cands, c.maxRetries, PacingDelay(c, m), SendRequest(c, rx, m), send, 0, 0)
  }

  /**
   * The source's retry loop, with the candidate list as the source builds
   * it: where that list can be built it behaves as the corrected loop, and
   * where it cannot, nothing is ever sent.
   */
  function RetryAsWritten(c: SteeringTaskConfig, rx: Strippers, m: Message, send: Oracle): (r: Run)
    ensures CandidatesAsWritten(c.targetChat).Ok? ==> r == Retry(c, rx, m, send)
    ensures CandidatesAsWritten(c.targetChat).Err? ==> !r.delivered && forall i :: 0 <= i < |r.log| ==> !r.log[i].Tried?
  {
    CandidatesAgree(c.targetChat);
    NoSendsWhenListFails(c.maxRetries, PacingDelay(c, m), SendRequest(c, rx, m), send, 0, 0);
    RetryWith(CandidatesAsWritten(c.targetChat), c, rx, m, send)
  }

  /** The retry loop with the corrected candidate list. */
  function Retry(c: SteeringTaskConfig, rx: Strippers, m: Message, send: Oracle): Run {
    RetryWith(Ok(TargetCandidates(c.targetChat)), c, rx, m, send)
  }

  /** One pass over the candidates: the inner `for target_entity in …` loop. */
  method SendToTargets(ts: seq<Target>, attempt: nat, req: Request, send: Oracle, k: nat) returns (p: Pass)
    ensures p == TryTargets(ts, attempt, req, send, k)
  {
    ghost var whole := TryTargets(ts, attempt, req, send, k);
    ghost var rest := whole;
    var log: seq<Event> := [];
    var i := 0;
    while i < |ts|
      invariant i <= |ts| && |log| == i
      invariant rest == TryTargets(ts[i..], attempt, req, send, k + i)
      invariant whole == PassAfter(log, rest)
    {
      var o := send(k + i, ts[i], req);
      var e := Tried(attempt, ts[i], o);
      TryTargetsAt(ts, i, attempt, req, send, k);
      if o.Sent? {
        return Pass(Forwarded, i + 1, log + [e]);
      } else if o.FloodWait? {
        return Pass(Flood(o.seconds), i + 1, log + [e]);
      } else if o.RpcError? {
        return Pass(Failed, i + 1, log + [e]);
      }
      PassAfterAppend(log, e, TryTargets(ts[i + 1..], attempt, req, send, k + i + 1));
      log := log + [e];
      i := i + 1;
      rest := TryTargets(ts[i..], attempt, req, send, k + i);
    }
    assert ts[i..] == [] && log + [] == log;
    p := Pass(Failed, i, log);
  }

  /** The pass from candidate `i` on: its first send, then the rest when that send raised `ValueError`. */
  lemma TryTargetsAt(ts: seq<Target>, i: nat, attempt: nat, req: Request, send: Oracle, k: nat)
    requires i < |ts|
    ensures var o := send(k + i, ts[i], req);
      var e := Tried(attempt, ts[i], o);
      var q := TryTargets(ts[i + 1..], attempt, req, send, k + i + 1);
      TryTargets(ts[i..], attempt, req, send, k + i)
        == match o
           case Sent => Pass(Forwarded, 1, [e])
           case FloodWait(n) => Pass(Flood(n), 1, [e])
           case RpcError => Pass(Failed, 1, [e])
           case BadEntity => Pass(q.outcome, q.sends + 1, [e] + q.log)
  {
    assert ts[i..][0] == ts[i] && ts[i..][1..] == ts[i + 1..];
  }

  function PassAfter(log: seq<Event>, p: Pass): Pass {
    Pass(p.outcome, |log| + p.sends, log + p.log)
  }

  lemma PassAfterAppend(log: seq<Event>, e: Event, p: Pass)
    ensures PassAfter(log, Pass(p.outcome, p.sends + 1, [e] + p.log)) == PassAfter(log + [e], p)
  {
    assert log + ([e] + p.log) == (log + [e]) + p.log;
  }

  function RunAfter(attempts: nat, log: seq<Event>, r: Run): Run {
    Run(r.delivered, attempts + r.attempts, log + r.log)
  }

  /**
   * `_forward_message_to_target`: at most `max_retries` attempts; a flood
   * wait sleeps at most a minute and retries; another error backs off
   * `2**attempt` seconds unless it was the last attempt.
   */
  method ForwardMessageToTarget(c: SteeringTaskConfig, rx: Strippers, m: Message, send: Oracle)
    returns (ok: bool, attempts: nat, log: seq<Event>)
    ensures Run(ok, attempts, log) == Retry(c, rx, m, send)
  {
    var req := SendRequest(c, rx, m);
    var pace := PacingDelay(c, m);
    var ts := TargetCandidates(c.targetChat);
    ok, attempts, log := RetryLoop(ts, c.maxRetries, pace, req, send);
  }

  /** The `for attempt in range(max_retries)` loop over a fixed candidate list. */
  method RetryLoop(ts: seq<Target>, maxRetries: int, pace: Option<real>, req: Request, send: Oracle)
    returns (ok: bool, attempts: nat, log: seq<Event>)
    ensures Run(ok, attempts, log) == Attempts(Ok(ts), maxRetries, pace, req, send, 0, 0)
  {
    ghost var whole := Attempts(Ok(ts), maxRetries, pace, req, send, 0, 0);
    ghost var rest := whole;
    var k: nat := 0;
    log := [];
    var attempt: nat := 0;
    while attempt < maxRetries
      invariant rest == Attempts(Ok(ts), maxRetries, pace, req, send, attempt, k)
      invariant whole == RunAfter(attempt, log, rest)
      decreases maxRetries - attempt
    {
      var p := SendToTargets(ts, attempt, req, send, k);
      ghost var next := Attempts(Ok(ts), maxRetries, pace, req, send, attempt + 1, k + p.sends);
      LoopTurn(ts, maxRetries, pace, req, send, attempt, k, p, log, whole, rest, next);
      if p.outcome.Forwarded? {
        return true, attempt + 1, log + p.log + PaceLog(pace);
      } else if p.outcome.Failed? && attempt == maxRetries - 1 {
        return false, attempt + 1, log + p.log;
      }
      var sleep := SleepAfter(p, attempt);
      log := log + p.log + sleep;
      k := k + p.sends;
      attempt := attempt + 1;
      rest := next;
    }
    assert rest == Run(false, 0, []) && log + [] == log;
    ok, attempts := false, attempt;
  }

  /** The sleep after an attempt that neither delivered nor was the last to fail. */
  function SleepAfter(p: Pass, attempt: nat): seq<Event> {
    if p.outcome.Flood? then [FloodSleep(attempt, Min(p.outcome.seconds, FloodCap))]
    else [Backoff(attempt, Pow2(attempt))]
  }

  /**
   * One turn of the loop: the run from `attempt` on is this attempt's pass,
   * then either the end of the loop or a sleep and the attempts after it.
   */
  lemma LoopTurn(ts: seq<Target>, maxRetries: int, pace: Option<real>, req: Request, send: Oracle,
                 attempt: nat, k: nat, p: Pass, log: seq<Event>, whole: Run, rest: Run, next: Run)
    requires attempt < maxRetries && p == TryTargets(ts, attempt, req, send, k)
    requires rest == Attempts(Ok(ts), maxRetries, pace, req, send, attempt, k)
    requires next == Attempts(Ok(ts), maxRetries, pace, req, send, attempt + 1, k + p.sends)
    requires whole == RunAfter(attempt, log, rest)
    ensures p.outcome.Forwarded? ==> whole == Run(true, attempt + 1, log + p.log + PaceLog(pace))
    ensures p.outcome.Failed? && attempt == maxRetries - 1 ==> whole == Run(false, attempt + 1, log + p.log)
    ensures p.outcome.Flood? || (p.outcome.Failed? && attempt != maxRetries - 1) ==>
      whole == RunAfter(attempt + 1, log + p.log + SleepAfter(p, attempt), next)
  {
    AttemptsUnfold(ts, maxRetries, pace, req, send, attempt, k, p);
    if p.outcome.Forwarded? || (p.outcome.Failed? && attempt == maxRetries - 1) {
      StepEnds(p, pace, next, attempt, maxRetries, log);
    } else {
      StepGoesOn(p, pace, next, attempt, maxRetries, log, SleepAfter(p, attempt));
    }
  }

  /** One turn of the loop: the pass of this attempt, then the attempts after it. */
  lemma AttemptsUnfold(ts: seq<Target>, maxRetries: int, pace: Option<real>, req: Request, send: Oracle,
                       attempt: nat, k: nat, p: Pass)
    requires attempt < maxRetries && p == TryTargets(ts, attempt, req, send, k)
    ensures Attempts(Ok(ts), maxRetries, pace, req, send, attempt, k)
         == Step(p, pace, Attempts(Ok(ts), maxRetries, pace, req, send, attempt + 1, k + p.sends), attempt, maxRetries)
  {
    assert PassOf(Ok(ts), attempt, req, send, k) == p;
  }

  /** The attempt that delivers, or the last one that fails, ends the loop. */
  lemma StepEnds(p: Pass, pace: Option<real>, rest: Run, attempt: nat, maxRetries: int, log: seq<Event>)
    requires p.outcome.Forwarded? || (p.outcome.Failed? && attempt == maxRetries - 1)
    ensures RunAfter(attempt, log, Step(p, pace, rest, attempt, maxRetries))
         == if p.outcome.Forwarded? then Run(true, attempt + 1, log + p.log + PaceLog(pace))
            else Run(false, attempt + 1, log + p.log)
  {
  }

  /** A flood wait or an earlier failure sleeps and hands over to the next attempt. */
  lemma StepGoesOn(p: Pass, pace: Option<real>, rest: Run, attempt: nat, maxRetries: int, log: seq<Event>, sleep: seq<Event>)
    requires p.outcome.Flood? || (p.outcome.Failed? && attempt != maxRetries - 1)
    requires sleep == if p.outcome.Flood? then [FloodSleep(attempt, Min(p.outcome.seconds, FloodCap))]
                      else [Backoff(attempt, Pow2(attempt))]
    ensures RunAfter(attempt, log, Step(p, pace, rest, attempt, maxRetries))
         == RunAfter(attempt + 1, log + p.log + sleep, rest)
  {
    assert log + (p.log + sleep + rest.log) == (log + p.log + sleep) + rest.log;
  }

  // ---------------------------------------------------------------------------
  // Properties of the retry loop

  /** At most `max_retries` attempts; none at all when it is zero or negative. */
  lemma {:induction false} AttemptsBounded(cands: Result<seq<Target>, string>, maxRetries: int, pace: Option<real>,
                                          req: Request, send: Oracle, attempt: nat, k: nat)
    ensures var r := Attempts(cands, maxRetries, pace, req, send, attempt, k);
      (attempt >= maxRetries ==> r == Run(false, 0, [])) && (attempt < maxRetries ==> 1 <= r.attempts <= maxRetries - attempt)
    decreases maxRetries - attempt
  {
    if attempt < maxRetries {
      var p := PassOf(cands, attempt, req, send, k);
      AttemptsBounded(cands, maxRetries, pace, req, send, attempt + 1, k + p.sends);
    }
  }

  lemma RetryBounded(c: SteeringTaskConfig, rx: Strippers, m: Message, send: Oracle)
    ensures c.maxRetries <= 0 ==> Retry(c, rx, m, send) == Run(false, 0, [])
    ensures c.maxRetries > 0 ==> 1 <= Retry(c, rx, m, send).attempts <= c.maxRetries
  {
    AttemptsBounded(Ok(TargetCandidates(c.targetChat)), c.maxRetries, PacingDelay(c, m), SendRequest(c, rx, m), send, 0, 0);
  }

  /** A pass only records sends (or the failed list); it never sleeps. */
  predicate NoSleeps(log: seq<Event>) {
    forall i :: 0 <= i < |log| ==> log[i].Tried? || log[i].ListFailed?
  }

  lemma {:induction false} PassNeverSleeps(cands: Result<seq<Target>, string>, attempt: nat, req: Request, send: Oracle, k: nat)
    ensures NoSleeps(PassOf(cands, attempt, req, send, k).log)
  {
    if cands.Ok? {
      TryTargetsOnlyTries(cands.value, attempt, req, send, k);
    }
  }

  lemma {:induction false} TryTargetsOnlyTries(ts: seq<Target>, attempt: nat, req: Request, send: Oracle, k: nat)
    ensures NoSleeps(TryTargets(ts, attempt, req, send, k).log)
    decreases |ts|
  {
    if ts != [] && send(k, ts[0], req) == BadEntity {
      TryTargetsOnlyTries(ts[1..], attempt, req, send, k + 1);
    }
  }

  /**
   * No flood wait sleeps longer than a minute, and every back-off sleeps
   * `2**attempt` seconds and is followed by another attempt.
   */
  predicate SleepOk(e: Event, maxRetries: int) {
    && (e.FloodSleep? ==> e.seconds <= FloodCap)
    && (e.Backoff? ==> e.seconds == Pow2(e.attempt) && e.attempt < maxRetries - 1)
  }

  predicate SleepsBounded(log: seq<Event>, maxRetries: int) {
    forall i :: 0 <= i < |log| ==> SleepOk(log[i], maxRetries)
  }

  lemma {:induction false} AttemptsSleepsBounded(cands: Result<seq<Target>, string>, maxRetries: int, pace: Option<real>,
                                                req: Request, send: Oracle, attempt: nat, k: nat)
    ensures SleepsBounded(Attempts(cands, maxRetries, pace, req, send, attempt, k).log, maxRetries)
    decreases maxRetries - attempt
  {
    if attempt < maxRetries {
      var p := PassOf(cands, attempt, req, send, k);
      var rest := Attempts(cands, maxRetries, pace, req, send, attempt + 1, k + p.sends);
      PassNeverSleeps(cands, attempt, req, send, k);
      AttemptsSleepsBounded(cands, maxRetries, pace, req, send, attempt + 1, k + p.sends);
      StepSleepsBounded(p, pace, rest, attempt, maxRetries, Attempts(cands, maxRetries, pace, req, send, attempt, k));
    }
  }

  lemma StepSleepsBounded(p: Pass, pace: Option<real>, rest: Run, attempt: nat, maxRetries: int, whole: Run)
    requires attempt < maxRetries && whole == Step(p, pace, rest, attempt, maxRetries)
    requires NoSleeps(p.log) && SleepsBounded(rest.log, maxRetries)
    ensures SleepsBounded(whole.log, maxRetries)
  {
  }

  lemma RetrySleepsBounded(c: SteeringTaskConfig, rx: Strippers, m: Message, send: Oracle)
    ensures SleepsBounded(Retry(c, rx, m, send).log, c.maxRetries)
  {
    AttemptsSleepsBounded(Ok(TargetCandidates(c.targetChat)), c.maxRetries, PacingDelay(c, m), SendRequest(c, rx, m), send, 0, 0);
  }

  /**
   * What follows a failed pass of attempt `a` in the log: the back-off of
   * `2**a` seconds, or, after the last attempt, nothing.
   */
  predicate AfterFailure(log: seq<Event>, i: nat, a: nat, maxRetries: int)
    requires i < |log|
  {
    || (a < maxRetries - 1 && i + 1 < |log| && log[i + 1] == Backoff(a, Pow2(a)))
    || (a == maxRetries - 1 && i + 1 == |log|)
  }

  /**
   * The event after position `i` is the one the source's loop takes next:
   * a success is followed only by the pacing delay; a flood wait of `n`
   * seconds by a sleep of `min(n, 60)`; a `ValueError` by the next candidate
   * of the same attempt or, at the end of the list, by what follows a
   * failure; any other error or a failed list by what follows a failure.
   */
  predicate NextOk(log: seq<Event>, i: nat, maxRetries: int, pace: Option<real>)
    requires i < |log|
  {
    match log[i]
    case Tried(a, _, o) =>
      (match o
       case Sent => log[i + 1..] == PaceLog(pace)
       case FloodWait(n) => i + 1 < |log| && log[i + 1] == FloodSleep(a, Min(n, FloodCap))
       case BadEntity => (i + 1 < |log| && log[i + 1].Tried? && log[i + 1].attempt == a) || AfterFailure(log, i, a, maxRetries)
       case RpcError => AfterFailure(log, i, a, maxRetries))
    case ListFailed(a) => AfterFailure(log, i, a, maxRetries)
    case _ => true
  }

  predicate Sequenced(log: seq<Event>, maxRetries: int, pace: Option<real>) {
    forall i :: 0 <= i < |log| ==> NextOk(log, i, maxRetries, pace)
  }

  /** What a pass ending in `outcome` must be followed by. */
  predicate PassTail(outcome: PassOutcome, attempt: nat, tail: seq<Event>, maxRetries: int, pace: Option<real>) {
    match outcome
    case Forwarded => tail == PaceLog(pace)
    case Flood(n) => tail != [] && tail[0] == FloodSleep(attempt, Min(n, FloodCap))
    case Failed =>
      || (attempt < maxRetries - 1 && tail != [] && tail[0] == Backoff(attempt, Pow2(attempt)))
      || (attempt == maxRetries - 1 && tail == [])
  }

  lemma NextOkShift(pre: seq<Event>, suf: seq<Event>, j: nat, maxRetries: int, pace: Option<real>)
    requires j < |suf| && NextOk(suf, j, maxRetries, pace)
    ensures NextOk(pre + suf, |pre| + j, maxRetries, pace)
  {
    var log := pre + suf;
    assert log[|pre| + j] == suf[j];
    assert log[|pre| + j + 1..] == suf[j + 1..];
    if j + 1 < |suf| {
      assert log[|pre| + j + 1] == suf[j + 1];
    }
  }

  /** A refused candidate followed by another send of the same attempt, or by what follows a failure. */
  lemma BadEntityHead(e: Event, rest: seq<Event>, maxRetries: int, pace: Option<real>)
    requires e.Tried? && e.outcome == BadEntity
    requires || (rest != [] && rest[0].Tried? && rest[0].attempt == e.attempt)
             || PassTail(Failed, e.attempt, rest, maxRetries, pace)
    ensures NextOk([e] + rest, 0, maxRetries, pace)
  {
    var log := [e] + rest;
    assert log[0] == e;
    if rest != [] {
      assert log[1] == rest[0];
    }
  }

  /** A send that ends the pass, followed by what its outcome calls for. */
  lemma LastTriedHead(e: Event, tail: seq<Event>, outcome: PassOutcome, maxRetries: int, pace: Option<real>)
    requires e.Tried? && e.outcome != BadEntity
    requires outcome == (match e.outcome case Sent => Forwarded case FloodWait(n) => Flood(n) case _ => Failed)
    requires PassTail(outcome, e.attempt, tail, maxRetries, pace)
    ensures NextOk([e] + tail, 0, maxRetries, pace)
  {
    var log := [e] + tail;
    assert log[0] == e && log[1..] == tail;
    if tail != [] {
      assert log[1] == tail[0];
    }
  }

  lemma ConsSequenced(e: Event, rest: seq<Event>, n: nat, maxRetries: int, pace: Option<real>)
    requires n <= |rest| && NextOk([e] + rest, 0, maxRetries, pace)
    requires forall i :: 0 <= i < n ==> NextOk(rest, i, maxRetries, pace)
    ensures forall i :: 0 <= i < n + 1 ==> NextOk([e] + rest, i, maxRetries, pace)
  {
    forall i | 1 <= i < n + 1 ensures NextOk([e] + rest, i, maxRetries, pace) {
      NextOkShift([e], rest, i - 1, maxRetries, pace);
    }
  }

  /** Inside one pass and at its end, each event is followed as the source's loop goes on. */
  lemma {:induction false} TryTargetsSequenced(ts: seq<Target>, attempt: nat, req: Request, send: Oracle, k: nat,
                                              tail: seq<Event>, maxRetries: int, pace: Option<real>)
    requires PassTail(TryTargets(ts, attempt, req, send, k).outcome, attempt, tail, maxRetries, pace)
    ensures var p := TryTargets(ts, attempt, req, send, k);
      forall i :: 0 <= i < |p.log| ==> NextOk(p.log + tail, i, maxRetries, pace)
    decreases |ts|
  {
    if ts != [] {
      var p := TryTargets(ts, attempt, req, send, k);
      var o := send(k, ts[0], req);
      var e := Tried(attempt, ts[0], o);
      if o == BadEntity {
        var q := TryTargets(ts[1..], attempt, req, send, k + 1);
        assert p.log == [e] + q.log && p.outcome == q.outcome;
        TryTargetsSequenced(ts[1..], attempt, req, send, k + 1, tail, maxRetries, pace);
        if q.log != [] {
          TriesInOrder(ts[1..], attempt, req, send, k + 1);
          assert q.log[0] == Tried(attempt, ts[1..][0], send(k + 1, ts[1..][0], req));
          assert (q.log + tail)[0] == q.log[0];
        } else {
          assert ts[1..] == [];
        }
        BadEntityHead(e, q.log + tail, maxRetries, pace);
        ConsSequenced(e, q.log + tail, |q.log|, maxRetries, pace);
        assert p.log + tail == [e] + (q.log + tail);
      } else {
        assert p.log == [e];
        LastTriedHead(e, tail, p.outcome, maxRetries, pace);
      }
    }
  }

  /** The pass of one attempt, followed by whatever the outcome calls for. */
  lemma PassSequenced(cands: Result<seq<Target>, string>, attempt: nat, req: Request, send: Oracle, k: nat,
                      tail: seq<Event>, maxRetries: int, pace: Option<real>)
    requires PassTail(PassOf(cands, attempt, req, send, k).outcome, attempt, tail, maxRetries, pace)
    ensures var p := PassOf(cands, attempt, req, send, k);
      forall i :: 0 <= i < |p.log| ==> NextOk(p.log + tail, i, maxRetries, pace)
  {
    if cands.Ok? {
      assert PassOf(cands, attempt, req, send, k) == TryTargets(cands.value, attempt, req, send, k);
      TryTargetsSequenced(cands.value, attempt, req, send, k, tail, maxRetries, pace);
    } else {
      var p := PassOf(cands, attempt, req, send, k);
      assert (p.log + tail)[0] == ListFailed(attempt) && (p.log + tail)[1..] == tail;
    }
  }

  /**
   * Across the whole loop, every send is followed by what the source does
   * next: after a flood wait of `n` seconds comes a sleep of `min(n, 60)`,
   * after a failed attempt that is not the last a back-off of `2**attempt`
   * seconds, after the last failed attempt nothing, and after a success
   * only the pacing delay.
   */
  lemma {:induction false} AttemptsSequenced(cands: Result<seq<Target>, string>, maxRetries: int, pace: Option<real>,
                                            req: Request, send: Oracle, attempt: nat, k: nat)
    ensures Sequenced(Attempts(cands, maxRetries, pace, req, send, attempt, k).log, maxRetries, pace)
    decreases maxRetries - attempt
  {
    if attempt < maxRetries {
      var p := PassOf(cands, attempt, req, send, k);
      var rest := Attempts(cands, maxRetries, pace, req, send, attempt + 1, k + p.sends);
      AttemptsSequenced(cands, maxRetries, pace, req, send, attempt + 1, k + p.sends);
      StepSequenced(p, pace, rest, attempt, maxRetries);
      assert Attempts(cands, maxRetries, pace, req, send, attempt, k) == Step(p, pace, rest, attempt, maxRetries);
      var tail := Step(p, pace, rest, attempt, maxRetries).log[|p.log|..];
      assert Step(p, pace, rest, attempt, maxRetries).log == p.log + tail;
      PassSequenced(cands, attempt, req, send, k, tail, maxRetries, pace);
    }
  }

  /** A sleep between two attempts, followed by the later attempts in order. */
  lemma SleepThenRest(pre: seq<Event>, sleep: Event, rest: seq<Event>, maxRetries: int, pace: Option<real>)
    requires sleep.FloodSleep? || sleep.Backoff?
    requires Sequenced(rest, maxRetries, pace)
    ensures forall i :: |pre| <= i < |pre| + 1 + |rest| ==> NextOk(pre + [sleep] + rest, i, maxRetries, pace)
  {
    forall i | |pre| <= i < |pre| + 1 + |rest| ensures NextOk(pre + [sleep] + rest, i, maxRetries, pace) {
      if i == |pre| {
        assert (pre + [sleep] + rest)[i] == sleep;
      } else {
        NextOkShift(pre + [sleep], rest, i - |pre| - 1, maxRetries, pace);
      }
    }
  }

  /** The events after the pass in one attempt: the sleep and the later attempts are in order. */
  lemma StepSequenced(p: Pass, pace: Option<real>, rest: Run, attempt: nat, maxRetries: int)
    requires attempt < maxRetries && Sequenced(rest.log, maxRetries, pace)
    ensures var log := Step(p, pace, rest, attempt, maxRetries).log;
      && log[..|p.log|] == p.log
      && PassTail(p.outcome, attempt, log[|p.log|..], maxRetries, pace)
      && forall i :: |p.log| <= i < |log| ==> NextOk(log, i, maxRetries, pace)
  {
    var log := Step(p, pace, rest, attempt, maxRetries).log;
    match p.outcome
    case Forwarded =>
      assert log[|p.log|..] == PaceLog(pace);
    case Flood(n) =>
      var sleep := FloodSleep(attempt, Min(n, FloodCap));
      assert log == p.log + [sleep] + rest.log;
      SleepThenRest(p.log, sleep, rest.log, maxRetries, pace);
    case Failed =>
      if attempt != maxRetries - 1 {
        var sleep := Backoff(attempt, Pow2(attempt));
        assert log == p.log + [sleep] + rest.log;
        SleepThenRest(p.log, sleep, rest.log, maxRetries, pace);
      }
  }

  lemma RetrySequenced(c: SteeringTaskConfig, rx: Strippers, m: Message, send: Oracle)
    ensures Sequenced(Retry(c, rx, m, send).log, c.maxRetries, PacingDelay(c, m))
  {
    AttemptsSequenced(Ok(TargetCandidates(c.targetChat)), c.maxRetries, PacingDelay(c, m), SendRequest(c, rx, m), send, 0, 0);
  }
  /** Position `j` of the log opens attempt `a`, or the log ends there when no attempt `a` is left. */
  predicate Opens(log: seq<Event>, j: nat, a: nat, maxRetries: int) {
    if a < maxRetries then j < |log| && (log[j] == ListFailed(a) || (log[j].Tried? && log[j].attempt == a))
    else j == |log|
  }

  /**
   * After a sleep of attempt `a` the loop goes on with attempt `a + 1`, or
   * ends when that was the last one; the pacing delay is the last event.
   */
  predicate ResumeOk(log: seq<Event>, i: nat, maxRetries: int)
    requires i < |log|
  {
    match log[i]
    case FloodSleep(a, _) => Opens(log, i + 1, a + 1, maxRetries)
    case Backoff(a, _) => Opens(log, i + 1, a + 1, maxRetries)
    case Paced(_) => i + 1 == |log|
    case _ => true
  }

  predicate Resumes(log: seq<Event>, maxRetries: int) {
    forall i :: 0 <= i < |log| ==> ResumeOk(log, i, maxRetries)
  }

  lemma ResumeOkShift(pre: seq<Event>, suf: seq<Event>, j: nat, maxRetries: int)
    requires j < |suf| && ResumeOk(suf, j, maxRetries)
    ensures ResumeOk(pre + suf, |pre| + j, maxRetries)
  {
    var log := pre + suf;
    assert log[|pre| + j] == suf[j];
    if j + 1 < |suf| {
      assert log[|pre| + j + 1] == suf[j + 1];
    }
  }

  /** Every attempt's events start with that attempt's first send or its failed list. */
  lemma {:induction false} AttemptsOpen(cands: Result<seq<Target>, string>, maxRetries: int, pace: Option<real>,
                                       req: Request, send: Oracle, attempt: nat, k: nat)
    requires cands.Ok? ==> cands.value != []
    ensures Opens(Attempts(cands, maxRetries, pace, req, send, attempt, k).log, 0, attempt, maxRetries)
  {
    if attempt < maxRetries {
      var p := PassOf(cands, attempt, req, send, k);
      var rest := Attempts(cands, maxRetries, pace, req, send, attempt + 1, k + p.sends);
      assert Attempts(cands, maxRetries, pace, req, send, attempt, k) == Step(p, pace, rest, attempt, maxRetries);
      var log := Step(p, pace, rest, attempt, maxRetries).log;
      if cands.Ok? {
        assert p == TryTargets(cands.value, attempt, req, send, k);
        assert p.log != [] && p.log[0] == Tried(attempt, cands.value[0], send(k, cands.value[0], req));
      }
      assert log[0] == p.log[0];
    }
  }

  /** A sleep followed by the later attempts, which open with attempt `a + 1`. */
  lemma SleepResumes(pre: seq<Event>, sleep: Event, rest: seq<Event>, maxRetries: int)
    requires sleep.FloodSleep? || sleep.Backoff?
    requires Resumes(rest, maxRetries) && Opens(rest, 0, sleep.attempt + 1, maxRetries)
    ensures forall i :: |pre| <= i < |pre| + 1 + |rest| ==> ResumeOk(pre + [sleep] + rest, i, maxRetries)
  {
    var log := pre + [sleep] + rest;
    forall i | |pre| <= i < |pre| + 1 + |rest| ensures ResumeOk(log, i, maxRetries) {
      if i == |pre| {
        assert log[i] == sleep;
        if rest != [] {
          assert log[i + 1] == rest[0];
        }
      } else {
        ResumeOkShift(pre + [sleep], rest, i - |pre| - 1, maxRetries);
      }
    }
  }

  lemma StepResumes(p: Pass, pace: Option<real>, rest: Run, attempt: nat, maxRetries: int, whole: Run)
    requires attempt < maxRetries && NoSleeps(p.log) && whole == Step(p, pace, rest, attempt, maxRetries)
    requires Resumes(rest.log, maxRetries) && Opens(rest.log, 0, attempt + 1, maxRetries)
    ensures Resumes(whole.log, maxRetries)
  {
    var log := whole.log;
    match p.outcome
    case Forwarded =>
      assert log == p.log + PaceLog(pace);
      forall i | 0 <= i < |log| ensures ResumeOk(log, i, maxRetries) {
        if i < |p.log| {
          assert log[i] == p.log[i];
        }
      }
    case Flood(n) =>
      var sleep := FloodSleep(attempt, Min(n, FloodCap));
      assert log == p.log + [sleep] + rest.log;
      SleepResumes(p.log, sleep, rest.log, maxRetries);
      forall i | 0 <= i < |p.log| ensures ResumeOk(log, i, maxRetries) {
        assert log[i] == p.log[i];
      }
    case Failed =>
      if attempt != maxRetries - 1 {
        var sleep := Backoff(attempt, Pow2(attempt));
        assert log == p.log + [sleep] + rest.log;
        SleepResumes(p.log, sleep, rest.log, maxRetries);
      }
      forall i | 0 <= i < |p.log| ensures ResumeOk(log, i, maxRetries) {
        assert log[i] == p.log[i];
      }
  }

  /**
   * With a non-empty candidate list (or one that cannot be built), every
   * sleep is followed by the next attempt, or ends the loop after the last
   * attempt, and nothing follows the pacing delay.
   */
  lemma {:induction false} AttemptsResume(cands: Result<seq<Target>, string>, maxRetries: int, pace: Option<real>,
                                         req: Request, send: Oracle, attempt: nat, k: nat)
    requires cands.Ok? ==> cands.value != []
    ensures Resumes(Attempts(cands, maxRetries, pace, req, send, attempt, k).log, maxRetries)
    decreases maxRetries - attempt
  {
    if attempt < maxRetries {
      var p := PassOf(cands, attempt, req, send, k);
      var rest := Attempts(cands, maxRetries, pace, req, send, attempt + 1, k + p.sends);
      PassNeverSleeps(cands, attempt, req, send, k);
      AttemptsResume(cands, maxRetries, pace, req, send, attempt + 1, k + p.sends);
      AttemptsOpen(cands, maxRetries, pace, req, send, attempt + 1, k + p.sends);
      StepResumes(p, pace, rest, attempt, maxRetries, Attempts(cands, maxRetries, pace, req, send, attempt, k));
    }
  }


  lemma RetryResumes(c: SteeringTaskConfig, rx: Strippers, m: Message, send: Oracle)
    ensures Resumes(Retry(c, rx, m, send).log, c.maxRetries)
  {
    AttemptsResume(Ok(TargetCandidates(c.targetChat)), c.maxRetries, PacingDelay(c, m), SendRequest(c, rx, m), send, 0, 0);
  }


  predicate IsSent(e: Event) {
    e.Tried? && e.outcome == Sent
  }

  /** Number of successful sends in a log. */
  function SentCount(log: seq<Event>): nat
    decreases |log|
  {
    if log == [] then 0 else (if IsSent(log[0]) then 1 else 0) + SentCount(log[1..])
  }

  lemma {:induction false} SentCountAppend(a: seq<Event>, b: seq<Event>)
    ensures SentCount(a + b) == SentCount(a) + SentCount(b)
    decreases |a|
  {
    if a == [] {
      assert a + b == b;
    } else {
      assert (a + b)[1..] == a[1..] + b;
      SentCountAppend(a[1..], b);
    }
  }

  lemma {:induction false} NoSleepsNoSends(log: seq<Event>)
    requires forall i :: 0 <= i < |log| ==> !log[i].Tried?
    ensures SentCount(log) == 0
    decreases |log|
  {
    if log != [] {
      NoSleepsNoSends(log[1..]);
    }
  }

  lemma {:induction false} PassSentCount(ts: seq<Target>, attempt: nat, req: Request, send: Oracle, k: nat)
    ensures var p := TryTargets(ts, attempt, req, send, k);
      SentCount(p.log) == if p.outcome.Forwarded? then 1 else 0
    decreases |ts|
  {
    if ts != [] && send(k, ts[0], req) == BadEntity {
      PassSentCount(ts[1..], attempt, req, send, k + 1);
      var e := Tried(attempt, ts[0], BadEntity);
      assert ([e] + TryTargets(ts[1..], attempt, req, send, k + 1).log)[1..] == TryTargets(ts[1..], attempt, req, send, k + 1).log;
    }
  }

  /** A run is delivered exactly when one send succeeded, and then no other did. */
  predicate DeliveredOnce(r: Run) {
    SentCount(r.log) == if r.delivered then 1 else 0
  }

  lemma {:induction false} DeliveredIffOneSent(cands: Result<seq<Target>, string>, maxRetries: int, pace: Option<real>,
                                              req: Request, send: Oracle, attempt: nat, k: nat)
    ensures DeliveredOnce(Attempts(cands, maxRetries, pace, req, send, attempt, k))
    decreases maxRetries - attempt
  {
    if attempt >= maxRetries {
      assert Attempts(cands, maxRetries, pace, req, send, attempt, k) == Run(false, 0, []);
    } else {
      var p := PassOf(cands, attempt, req, send, k);
      var rest := Attempts(cands, maxRetries, pace, req, send, attempt + 1, k + p.sends);
      PassOfSentCount(cands, attempt, req, send, k);
      DeliveredIffOneSent(cands, maxRetries, pace, req, send, attempt + 1, k + p.sends);
      StepSentCount(p, pace, rest, attempt, maxRetries);
      assert Attempts(cands, maxRetries, pace, req, send, attempt, k) == Step(p, pace, rest, attempt, maxRetries);
    }
  }

  lemma PassOfSentCount(cands: Result<seq<Target>, string>, attempt: nat, req: Request, send: Oracle, k: nat)
    ensures var p := PassOf(cands, attempt, req, send, k);
      SentCount(p.log) == if p.outcome.Forwarded? then 1 else 0
  {
    if cands.Ok? {
      PassSentCount(cands.value, attempt, req, send, k);
    } else {
      NoSleepsNoSends(PassOf(cands, attempt, req, send, k).log);
    }
  }

  /** One attempt keeps "delivered iff exactly one send succeeded". */
  lemma StepSentCount(p: Pass, pace: Option<real>, rest: Run, attempt: nat, maxRetries: int)
    requires SentCount(p.log) == if p.outcome.Forwarded? then 1 else 0
    requires DeliveredOnce(rest)
    ensures DeliveredOnce(Step(p, pace, rest, attempt, maxRetries))
  {
    match p.outcome
    case Forwarded =>
      SentCountAppend(p.log, PaceLog(pace));
      NoSleepsNoSends(PaceLog(pace));
    case Flood(n) =>
      var s := [FloodSleep(attempt, Min(n, FloodCap))];
      NoSleepsNoSends(s);
      SentCountStep(p.log, s, rest.log);
    case Failed =>
      if attempt != maxRetries - 1 {
        var s := [Backoff(attempt, Pow2(attempt))];
        NoSleepsNoSends(s);
        SentCountStep(p.log, s, rest.log);
      }
  }

  lemma SentCountStep(a: seq<Event>, s: seq<Event>, b: seq<Event>)
    requires SentCount(s) == 0
    ensures SentCount(a + s + b) == SentCount(a) + SentCount(b)
  {
    SentCountAppend(a + s, b);
    SentCountAppend(a, s);
  }

  lemma RetryDeliveredIffOneSent(c: SteeringTaskConfig, rx: Strippers, m: Message, send: Oracle)
    ensures var r := Retry(c, rx, m, send); SentCount(r.log) == if r.delivered then 1 else 0
  {
    DeliveredIffOneSent(Ok(TargetCandidates(c.targetChat)), c.maxRetries, PacingDelay(c, m), SendRequest(c, rx, m), send, 0, 0);
  }

  /**
   * A flood wait of 100 seconds on the first send and success on the second:
   * the loop sleeps the capped 60 seconds and delivers on its second attempt.
   */
  lemma FloodThenDelivered(t: Target, maxRetries: int, req: Request, send: Oracle)
    requires maxRetries >= 2
    requires send(0, t, req) == FloodWait(100) && send(1, t, req) == Sent
    ensures Attempts(Ok([t]), maxRetries, None, req, send, 0, 0)
         == Run(true, 2, [Tried(0, t, FloodWait(100)), FloodSleep(0, 60), Tried(1, t, Sent)])
  {
    assert [t][1..] == [];
  }

  /** A target that keeps failing: every attempt is used and backs off 1, 2, … seconds in turn. */
  lemma AlwaysFailingUsesEveryAttempt(t: Target, req: Request, send: Oracle)
    requires forall k :: send(k, t, req) == RpcError
    ensures Attempts(Ok([t]), 3, None, req, send, 0, 0)
         == Run(false, 3, [Tried(0, t, RpcError), Backoff(0, 1), Tried(1, t, RpcError), Backoff(1, 2), Tried(2, t, RpcError)])
  {
    assert [t][1..] == [];
    assert Pow2(1) == 2;
  }

  // ---------------------------------------------------------------------------
  // The candidate-list defect

  /**
   * As written, a target given by user name (here `@news`) is never reached,
   * whatever the client would answer: each attempt fails while building the
   * candidate list, before any send.
   */
  lemma HandleTargetNeverSent(c: SteeringTaskConfig, rx: Strippers, m: Message, send: Oracle)
    requires c.targetChat == "@news" && c.maxRetries > 0
    ensures !RetryAsWritten(c, rx, m, send).delivered
    ensures forall i :: 0 <= i < |RetryAsWritten(c, rx, m, send).log| ==> !RetryAsWritten(c, rx, m, send).log[i].Tried?
  {
    assert Strip("@news") == "@news" by {
      StripUnpadded("@news");
    }
    assert !IsDigit('@');
    assert ParseInt("@news") == None;
    NoSendsWhenListFails(c.maxRetries, PacingDelay(c, m), SendRequest(c, rx, m), send, 0, 0);
  }

  lemma {:induction false} NoSendsWhenListFails(maxRetries: int, pace: Option<real>, req: Request, send: Oracle, attempt: nat, k: nat)
    ensures var r := Attempts(Err("invalid literal for int()"), maxRetries, pace, req, send, attempt, k);
      !r.delivered && forall i :: 0 <= i < |r.log| ==> !r.log[i].Tried?
    decreases maxRetries - attempt
  {
    if attempt < maxRetries {
      NoSendsWhenListFails(maxRetries, pace, req, send, attempt + 1, k);
    }
  }

  /** With the corrected list the same target is delivered as soon as the client accepts the handle. */
  lemma HandleTargetDelivered(c: SteeringTaskConfig, rx: Strippers, m: Message, send: Oracle)
    requires c.targetChat == "@news" && c.maxRetries > 0
    requires send(0, Handle("@news"), SendRequest(c, rx, m)) == Sent
    ensures Retry(c, rx, m, send).delivered
  {
    assert TargetCandidates("@news")[0] == Handle("@news");
  }
}
