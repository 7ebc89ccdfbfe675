# Steering tasks of a Telegram forwarding userbot, in Dafny

The userbot runs several *steering tasks* side by side. Each task watches one
source chat and forwards or copies its new messages to one target chat. A
task's settings decide the following:

- **Filters.** A blacklist or whitelist of words, and one flag per media kind.
- **Text transforms.** Replacement rules `old->new`, then line cleaning, then a
  header and a footer.
- **Buttons.** Up to three inline URL buttons.
- **Delivery.** A retry loop with flood-wait handling and exponential back-off.

The `TelegramForwarder` keeps two maps: task configurations, and the tasks that
are live. The `MultiTaskManager` bridge loads task records and keeps
running flags and per-task counters for them.

The model is split by component:

| file | module | models |
|---|---|---|
| `wrappers.dfy` | `Wrappers` | `Option`, `Result` |
| `pystr.dfy` | `PyStr` | the Python `str` operations the source relies on: `strip`, `lower`, `in`, `find`, `split`, `join`, `replace`, `int()` and `str()` of an integer |
| `config.dfy` | `TaskConfigs` | `SteeringTaskConfig` |
| `filters.dfy` | `Filters` | `SteeringTask._should_forward_message` |
| `transform.dfy` | `Transform` | `_replace_text_content`, `_clean_message_text`, `_add_header_footer`, `_process_text_content`, `_create_inline_buttons` |
| `delivery.dfy` | `Delivery` | `_forward_message_to_target` and `_copy_message`: the candidate targets, the request sent, the retry loop and its sleeps |
| `steering.dfy` | `Steering` | `TaskStats`; the class `SteeringTask` with `start`, `stop`, the deduplicating handler and `_process_message` |
| `forwarder.dfy` | `Forwarder` | the class `TelegramForwarder` and its task-map operations |
| `bridge.dfy` | `Bridge` | the class `MultiTaskManager` and `load_tasks_for_userbot` |

### How the Telegram side is modelled

Every send goes through an oracle `send(k, target, request)`. Here `k` counts
the send calls made so far in one delivery. The oracle answers with one of four
outcomes:

- `Sent`.
- `FloodWait(n)`: Telethon's `FloodWaitError`.
- `BadEntity`: the `ValueError` Telethon raises for a target it cannot resolve.
- `RpcError`: any other exception.

Sleeps are not performed. They are recorded in the log of events a delivery
returns. The regular expressions that strip links and hashtags are function
parameters (`Transform.Strippers`). Stripping formatting characters is
modelled concretely.

## Model

| member | source | states |
|---|---|---|
| Filters.MediaDecisionIsLookup | userbot.py:252-278 | the media chain returns the forward flag of the first matching kind in the source's precedence order (text-only, photo, gif, video, sticker, voice, round video, music, audio, file, contact, location, poll, game, link, otherwise true) |
| Filters.ClassifyFrom | userbot.py:252-284 | the kind chosen for a message is one whose rule the message actually matches |
| Filters.ShouldForwardIsLookup | userbot.py:227-284 | a message is forwarded exactly when it passes the word filters and the flag of its kind is set |
| Filters.BlacklistRejects | userbot.py:233-240 | with the blacklist on, a message whose lower-cased text contains a listed word, lower-cased, is never forwarded |
| Filters.WhitelistRejects | userbot.py:242-249 | with the whitelist on and a non-empty setting, a message that contains none of the listed words is never forwarded; a setting with no words at all (only commas and blanks) rejects every text |
| Filters.NoTextSkipsContentFilter | userbot.py:229-230 | a message without text or caption skips both word lists and is decided by its kind's flag alone |
| Filters.TextOnlyUsesTextFlag | userbot.py:252-253 | a text message without media that passes the word filters is decided by `forward_text` |
| Filters.OnlyOwnFlagMatters | userbot.py:252-284 | two configurations with the same word lists and the same flag for a message's kind decide that message alike |
| Filters.TrimmedParts | userbot.py:234 | the word list holds only non-empty stripped pieces of the comma-separated setting, every non-blank piece appears in it stripped, and it is never longer than the list of pieces |
| Filters.TrimmedPartsAppend | userbot.py:234 | the pieces of a list are kept in order: the kept pieces of `a + b` are those of `a` followed by those of `b` |
| Filters.TrimmedPartsOne | userbot.py:234 | a single piece is kept, stripped, exactly when it is not blank |
| Transform.ReplaceTextContent | userbot.py:424-438 | the rule loop returns `ReplaceText` of the `replacements` setting |
| Transform.RulesApplyInOrder | userbot.py:430-434 | rules apply one after another in list order: the rules after a comma see the output of the rules before it |
| Transform.EntryWithoutArrowIgnored | userbot.py:430 | an entry without `->` leaves the text unchanged |
| Transform.ChainedRules | userbot.py:431-434 | `x->y,y->z` turns `x` into `z` |
| Transform.OneRule | userbot.py:424-434 | for any setting with one entry that contains `->`, the text has every occurrence of the stripped left side replaced by the stripped right side, the entry being stripped and split at its first `->` |
| Transform.CharRule | userbot.py:430-434 | the rule `x->y` on single characters turns the text `x` into `y` |
| Transform.StripFormatting | userbot.py:471-473 | removing `*`, `_`, `` ` `` and `~` never lengthens a line, leaves none of them, and is the identity on a line without them |
| Transform.StripFormattingAppend | userbot.py:473 | stripping a concatenation strips each part: every other character is kept, in its order |
| Transform.StripFormattingOne | userbot.py:473 | a single character disappears exactly when it is one of `*`, `_`, `` ` `` and `~` |
| Transform.KeptLines | userbot.py:448-457 | exactly the lines that are neither blank (when empty lines are cleaned) nor contain a listed word (when word lines are cleaned) survive, and no line is invented |
| Transform.KeptLinesAppend | userbot.py:448-457 | the lines kept from a concatenation are the lines kept from each part, so the surviving lines keep their order and multiplicity |
| Transform.KeptLinesOne | userbot.py:448-457 | a single line survives exactly when it is not dropped, and then unchanged |
| Transform.CleanLinesSnoc | userbot.py:448-475 | cleaning one more line appends its cleaned form to the cleaned list, or nothing when the line is dropped |
| Transform.CleanMessageText | userbot.py:440-477 | the cleaning loop returns `CleanText`: the kept lines, each stripped of links, hashtags and formatting as configured, joined by newlines |
| Transform.BlankLinesDropped | userbot.py:450-451 | with `clean_empty_lines`, no surviving line is blank |
| Transform.WordLinesDropped | userbot.py:454-457 | with `clean_lines_with_words`, no surviving line contains a listed word |
| Transform.CleaningOffIsIdentity | userbot.py:440-477 | with every cleaning option off the text is returned unchanged |
| Transform.LineCountNeverGrows | userbot.py:445-477 | cleaning never yields more lines than the input had, provided the link and hashtag strippers add no newline |
| Transform.CleanLinesNeverMore | userbot.py:448-475 | the cleaned list is never longer than the input list |
| Transform.ComposeAll | userbot.py:387-400 | with header, body and footer present the result is header, blank line, body, blank line, footer |
| Transform.ComposeNone | userbot.py:387-400 | with neither header nor footer the body is returned as is |
| Transform.HeaderFirstFooterLast | userbot.py:391-400 | an enabled non-empty header starts the text, and an enabled non-empty footer ends it |
| Transform.ProcessTextContent | userbot.py:370-385 | the chain returns `ProcessText`: replacement (only when enabled and non-empty), then cleaning, then header and footer |
| Transform.EmptyTextStaysEmpty | userbot.py:372-373 | an empty text bypasses the chain, header and footer included |
| Transform.ProcessTextAllOff | userbot.py:370-385 | with every transform off the text is unchanged |
| Transform.InlineButtons | userbot.py:402-422 | no buttons exactly when no button has both a label and a URL; the first row is exactly the complete ones among buttons 1 and 2, in that order, whenever there is one; button 3 is alone in the last row; there are two rows exactly when that first row and button 3 both exist; read row by row, the buttons are exactly the complete ones among 1, 2 and 3, in that order, each once |
| Delivery.CandidatesAsWritten | userbot.py:292-298 | the list as the source builds it: it can be built exactly when the target is an integer literal and, if it starts with `-100`, the target with every `-100` removed is one too; it is then the raw setting, its integer, and for a `-100` target the integer of the target without `-100`, so `"-1001234"` gives three entries |
| Delivery.BarePrefixFails | userbot.py:297-298 | `"-100"` itself parses as an integer, but the list cannot be built because the empty remainder does not |
| Delivery.TargetCandidates | userbot.py:292-298 | the corrected list: the raw setting first, then its integer exactly when it parses, then the integer of the target without `-100` exactly when the target starts with `-100` and that parses; one to three entries in that order |
| Delivery.CandidatesAgree | userbot.py:292-298 | when the source's list can be built it equals the corrected list |
| Delivery.SendRequest | userbot.py:343-368 | forward mode sends the original; copy mode sends the processed text with the media and the buttons, or the bare file when the text is empty and there are no buttons |
| Delivery.CopyKeepsMedia | userbot.py:343-368 | in copy mode the media is sent exactly when the message has media |
| Delivery.PacingDelay | userbot.py:320-327 | a delay only when `forward_delay > 0`: at least 0.1 s for text-only messages, longer than the setting for media |
| Delivery.TryTargets | userbot.py:302-315 | one attempt makes at most one send per candidate and logs each of them |
| Delivery.TriesInOrder | userbot.py:302-315 | the candidates are tried in list order, each one only after the previous one raised `ValueError` |
| Delivery.EarlyFailureIsError | userbot.py:314-318 | an attempt that stops before the end of the list stopped on an error other than `ValueError` |
| Delivery.SendToTargets | userbot.py:302-318 | the inner loop returns `TryTargets` |
| Delivery.RetryLoop | userbot.py:290-341 | the outer loop returns `Attempts`: delivered or not, the number of attempts made, and the sends and sleeps in order |
| Delivery.ForwardMessageToTarget | userbot.py:286-341 | delivery of one message is `Retry` (with the corrected candidate list) |
| Delivery.RetryAsWritten | userbot.py:286-341 | the loop with the list as the source builds it: the same run as `Retry` whenever that list can be built, and otherwise no send at all and no delivery |
| Delivery.RetryBounded | userbot.py:290 | no attempt at all when `max_retries <= 0`; otherwise between 1 and `max_retries` attempts |
| Delivery.RetrySleepsBounded | userbot.py:331-339 | every flood wait sleeps at most 60 s, and every back-off sleeps `2**attempt` s and is never taken after the last attempt |
| Delivery.RetrySequenced | userbot.py:302-341 | in the log of a delivery, a send that hit a flood wait of `n` s is followed by a sleep of `min(n, 60)` s; a failed attempt `a` (a send error other than `ValueError`, the last candidate refused, or a list that cannot be built) is followed by a back-off of `2**a` s, or by nothing when it was the last attempt; a refused candidate that is not the last is followed by the next send of the same attempt; a success is followed only by the pacing delay |
| Delivery.AttemptsSequenced | userbot.py:290-341 | the same for the loop started at any attempt and any candidate list |
| Delivery.RetryResumes | userbot.py:290-341 | after a flood-wait sleep or a back-off of attempt `a` the log goes on with a send (or the failed list) of attempt `a + 1`, or ends when `a + 1` is `max_retries`; nothing follows the pacing delay |
| Delivery.AttemptsResume | userbot.py:331-339 | the same for the loop started at any attempt, for any candidate list that is not empty or cannot be built |
| Delivery.RetryDeliveredIffOneSent | userbot.py:311-329 | the result is `True` exactly when one send succeeded, and then no other send succeeded |
| Delivery.DeliveredIffOneSent | userbot.py:290-341 | the same for the loop started at any attempt |
| Delivery.FloodThenDelivered | userbot.py:331-334 | a 100 s flood wait sleeps the capped 60 s and the next attempt delivers |
| Delivery.AlwaysFailingUsesEveryAttempt | userbot.py:335-339 | a target that always errors is tried 3 times for `max_retries = 3`, with back-offs of 1 s and 2 s, and the result is `False` |
| Delivery.HandleTargetNeverSent | userbot.py:292-295 | as written, a target given as a handle such as `@news` is never sent to and never delivered |
| Delivery.HandleTargetDelivered | userbot.py:292-298 | with the corrected list, that target is delivered when the first send to the handle succeeds |
| Steering.MessageKeyInjective | userbot.py:185 | for one task, the key `task_chat_message` determines the chat id and the message id |
| Steering.ProcessedCounts | userbot.py:193-225 | own messages change nothing; any other message counts as processed; a message that passes the filter counts as forwarded or failed, and as forwarded exactly when its delivery succeeded |
| Steering.HandleKeepsStatsConsistent | userbot.py:181-225 | the counters never exceed the handled keys, forwarded plus failed never exceed processed plus errors, and every error is a failure |
| Steering.HandledAtMostOnce | userbot.py:181-191 | a running enabled task records the key of a handled message, and a second delivery of the same message changes nothing |
| Steering.IdleTaskIgnoresEvents | userbot.py:182-183 | a stopped or disabled task ignores messages |
| Steering.SteeringTask.constructor | userbot.py:114-122 | a new task is stopped, has handled nothing and has zero counters |
| Steering.SteeringTask.Start | userbot.py:124-144 | start succeeds exactly when the task was not running; afterwards it runs, and its keys and counters are kept |
| Steering.SteeringTask.Stop | userbot.py:146-151 | the task is stopped, and its keys and counters are kept |
| Steering.SteeringTask.HandleMessage | userbot.py:181-191 | the handler moves the task to `OnNewMessage` of its old state |
| Steering.SteeringTask.ProcessMessage | userbot.py:193-225 | the counters become `Processed` of the old counters |
| Forwarder.TelegramForwarder.constructor | userbot.py:482-500 | no configurations and no live tasks |
| Forwarder.TelegramForwarder.StartSteeringTask | userbot.py:626-643 | succeeds exactly for a configured task that is not live; it then adds one fresh running task with that configuration and changes nothing else |
| Forwarder.TelegramForwarder.StartEnabledTasks | userbot.py:613-618 | afterwards every enabled task is live, older live tasks are untouched, and the count is the number of enabled tasks that were not live before |
| Forwarder.TelegramForwarder.StopSteeringTask | userbot.py:645-655 | succeeds exactly for a live task, which is stopped and dropped from the live map |
| Forwarder.TelegramForwarder.RestartSteeringTask | userbot.py:657-660 | the task is dropped if live, then started again exactly when it is configured |
| Forwarder.TelegramForwarder.AddSteeringTask | userbot.py:662-666 | the configuration is stored under its id, replacing an older one; live tasks are untouched |
| Forwarder.TelegramForwarder.RemoveSteeringTask | userbot.py:668-676 | the configuration is removed; the stop is only scheduled, so a live task stays in the live map |
| Forwarder.TelegramForwarder.StatsView | userbot.py:678-702 | one entry per configured task with its name and chats; counters exactly for live tasks; status `running` for live running tasks and `stopped` for every other task; a `KeyError` exactly when a live task has no configuration |
| Forwarder.TelegramForwarder.GetTaskStats | userbot.py:678-702 | the two loops return `StatsView` |
| Forwarder.LiveTasksReportedRunning | userbot.py:683-686 | in a consistent forwarder the report says `running` exactly for the live tasks |
| Forwarder.RemovedLiveTaskBreaksStats | userbot.py:668-686 | after removing a live task's configuration, the statistics report fails with `KeyError` |
| Bridge.MultiTaskManager.constructor | multitask_bridge.py:60-63 | a new manager has no tasks, no running flags and no counters (the load `__init__` runs next is `LoadTasks`) |
| Bridge.LoadAllReady | multitask_bridge.py:83-104 | loading keeps every task filed under its own id, not running and with fresh `ready` counters, and adds exactly the ids of the loaded records: the objects that fit `TaskConfig`, up to the first record that is not an object |
| Bridge.LoadedTasksStartReady | multitask_bridge.py:83-104 | the same, starting from the empty manager: the loaded ids are exactly the tasks |
| Bridge.NonObjectStopsLoading | multitask_bridge.py:83-104 | a record that is not an object ends the load: the records after it are never loaded, so `[null, {...}]` loads nothing |
| Bridge.LoadAllAppend | multitask_bridge.py:83-97 | records that are all objects are loaded one after another |
| Bridge.LaterRecordWins | multitask_bridge.py:84-86 | when no earlier record ends the load, a later record with the same id replaces the earlier one |
| Bridge.MultiTaskManager.LoadTasks | multitask_bridge.py:76-104 | the loading loop moves the state to `LoadAll` of the old state |
| Bridge.EnabledIn | multitask_bridge.py:136-138 | the enabled list holds only enabled loaded tasks |
| Bridge.EnabledTasksExact | multitask_bridge.py:136-138 | a task is in the enabled list exactly when it is loaded and enabled |
| Bridge.FirstEnabled | multitask_bridge.py:136-138 | the list is empty exactly when no task is enabled; otherwise its head is the first enabled task in load order |
| Bridge.MultiTaskManager.GetEnabledTasks | multitask_bridge.py:136-138 | the loop returns `EnabledTasks` |
| Bridge.TaskById | multitask_bridge.py:140-142 | `None` exactly for an unknown id, otherwise the record |
| Bridge.MultiTaskManager.GetTaskById | multitask_bridge.py:140-142 | `None` exactly for an id that is not in `tasks`, otherwise its record |
| Bridge.IsRunning | multitask_bridge.py:144-146 | true exactly when the id has a running flag set to true; unknown ids are not running |
| Bridge.MultiTaskManager.IsTaskRunning | multitask_bridge.py:144-146 | true exactly when `running_tasks` has the id with the flag set |
| Bridge.SetRunningEffect | multitask_bridge.py:148-152 | the flag is set even for an unknown id; the status of known counters becomes `running` or `stopped`; nothing else changes |
| Bridge.MultiTaskManager.SetTaskRunning | multitask_bridge.py:148-152 | the state becomes `SetRunning` of the old state |
| Bridge.UpdateOnlyNamedCounter | multitask_bridge.py:154-159 | for a known id, the update succeeds exactly for the three counters; it then adds the increment to the named counter only, stamps `last_activity`, and leaves other tasks alone |
| Bridge.UpdateUnknownIgnored | multitask_bridge.py:155 | an unknown id is ignored |
| Bridge.MultiTaskManager.UpdateTaskStats | multitask_bridge.py:154-159 | the state becomes the update's result, or stays the same when the update raises |
| Bridge.StatsReport | multitask_bridge.py:161-173 | one entry per loaded task with its name, source chat, target chat and enabled flag, `running` from the flags and defaulting to false, and the task's counters when it has them, absent otherwise |
| Bridge.MultiTaskManager.GetTaskStats | multitask_bridge.py:161-173 | the loop returns `StatsReport` |
| Bridge.LegacyIsFirstEnabled | multitask_bridge.py:192-215 | `None` exactly when no task is enabled; otherwise the ten legacy settings of the first enabled task in load order |
| Bridge.LoadTasksForUserbot | multitask_bridge.py:192-215 | returns `LegacyFor` of the manager's state |

## Left out

- Telethon. Every call to the client is either the send oracle or a parameter, or it is not modelled. That covers `get_entity`, `get_me`, `forward_messages`, `send_message`, `send_file` and handler registration.
- Time. Asyncio sleeps, `RateLimiter`, and `datetime.now()` timestamps are not performed. Sleeps appear as log events, and the timestamp of `update_task_stats` is a parameter.
- Floats. `forward_delay` is an exact real, so float rounding is not modelled.
- Regular expressions. The link and hashtag regular expressions of `_clean_message_text` are parameters. Only their line-by-line use is modelled.
- `lower()` on non-ASCII text. `lower()` folds ASCII letters only.
- `int()` on non-ASCII digits. `int()` accepts surrounding whitespace, an optional sign and ASCII digits with single underscores between them. Non-ASCII digits are not accepted.
- `SteeringTask._validate_chats`. It is not modelled: it swallows every error, so `start` can only fail when the task is already running.
- File I/O. This covers reading and writing `steering_tasks.json` and `config.ini`, `_create_sample_file`, `_save_steering_tasks` and `save_tasks`. `_load_tasks` is modelled from the already parsed records. Each one is an object that fits `TaskConfig`, an object that does not (logged and skipped), or a value that is not an object (it ends the whole load).
- `TaskStats.errors`. Its entries are the error texts, without the timestamp prefix.
- `TaskStats.start_time` and `last_activity` on the userbot side. These are timestamps only.
- `Steering.SteeringTask.Start`: a failure during handler registration is not modelled. The source would return `False` without changing state.
- `TelegramForwarder.start` before the task loop. The client login and the admin command handlers (`/ping`, `/tasks`) are I/O.
- `TelegramForwarder.start` loop order. It iterates `task_configs` in dictionary order. `Forwarder.TelegramForwarder.StartEnabledTasks` states the resulting set of live tasks, not the order in which they were started.
- `Forwarder.TelegramForwarder.RemoveSteeringTask`: the stop it schedules with `asyncio.create_task` is not run. Only the synchronous effect is stated.
- Aliasing in the bridge. `MultiTaskManager.get_task_stats` returns the live counter dictionaries by reference. The model returns copies.
- `update_config_with_task`, `get_task_manager` and the global instance. These are I/O or plumbing around the modelled manager.
- `Transform.ReplaceTextContent`: the `try`/`except` around the rules is not modelled, because the modelled operations cannot raise.
- Task records. The field types of a fitting record are not checked by the source. The model gives every field its declared type, so a record with, say, a numeric `task_id` is not represented.
- Delivery.ForwardMessageToTarget, Steering.SteeringTask.ProcessMessage: both deliver through the corrected candidate list, as `Retry` does (see Findings), so a handle target can be delivered where the source never sends. `RetryAsWritten` keeps the list as the source builds it.

## Findings

| source | as written | input that shows it | evidently intended | confidence | as-written member | corrected member |
|---|---|---|---|---|---|---|
| userbot.py:292-295 | `int(self.config.target_chat)` is evaluated while the candidate list is built, inside the attempt's `try`, so a non-numeric target raises `ValueError` before any send; every attempt fails and backs off, and the message is never delivered | `target_chat = "@news"`, `max_retries = 3`, and a client that would accept the handle | try the handle as given, and add the integer forms only when they parse | not executed | Delivery.HandleTargetNeverSent | Delivery.HandleTargetDelivered |
