# lightsy presence lighting, modelled in Dafny

lightsy listens to the ISAPI event stream of a camera DVR and switches lights
on when a camera reports motion. Each light is switched off again by a timer.
This project models the logic of `src/utils.py`:

- **`EventStream.start`** keeps an accumulation buffer. It appends each
  decoded chunk to the buffer. When the buffer ends with
  `</EventNotificationAlert>`, it cuts out the record that starts at the FIRST
  `<EventNotificationAlert` and clears the buffer. The record goes to the
  handler before the next chunk is read (`framing.dfy`).
- **`EventStream.run`** is the reconnect loop. A counter starts at
  `max_retries`. A normal return of `start` resets it, and a failure
  decrements it. The loop gives up when a failure brings it to exactly 0
  (`supervisor.dfy`).
- **`EventStream.parse_event`** is modelled from the children of the root
  element onwards. Each child's tag loses its `{namespace}` prefix, and the
  dictionary maps the local name to the child's text (`event_parse.dfy`).
- **`PresenceLighting.__init__`**:
  - builds a channel → rule-list mapping by concatenation;
  - refuses a channel whose list names a light twice;
  - creates one empty timer slot per mapped light.

  See `presence_config.dfy` and `PresenceEngine.PresenceLighting.Create`.
- **`handle_event`, `turn_on`, `set_timer`, `turn_off`** and the expiry of a
  timer. `presence_machine.dfy` specifies them on values. State is
  `State(slots, pending, nextId, calls, faults)`:
  - `slots` is the `timers` dictionary;
  - `pending` holds the timers still live;
  - `calls` and `faults` are the light driver's call log and its script of
    outcomes.

  `presence_engine.dfy` holds the classes `LightDriver` and
  `PresenceLighting`. Their methods update fields in place, and each method
  is proved equal to its step function.

Shared helpers in `text.dfy` model the Python string operations the code
uses:

- `str.endswith`;
- `str.find`, which returns -1 when the text is absent;
- slicing with a negative start;
- `split(c)[1]`, where a string without `c` raises IndexError;
- `replace(c, "")`, `[:4]` and `int()`.

`wrappers.dfy` holds `Option` and `Result`.

Where the written code and the documented intent differ, the model follows
the code:

- The record is cut at the first begin tag in the buffer, not the latest.
  `Framing.Record` and `Framing.TwoRecordsInOneChunk` show this.
- The end marker is only looked for at the end of the buffer. Two complete
  notifications in one chunk are therefore handed over as one record.
- A buffer that ends with the end marker but has no begin tag yields the
  record `">"`. This is because `find` returns -1 and the slice keeps the
  last character (`Framing.RecordWithoutBeginTag`).
- Exceptions raised by parsing or by the handler propagate out of `start`,
  so `run` counts them as a failed attempt. The buffer has already been
  cleared, and no further chunk is read (`Framing.HandlerRaiseStopsReading`).
- A stream that ends normally resets the counter.
- With `max_retries <= 0` the loop never gives up.
- When the driver raises in `turn_off`, the exception escapes before the
  slot is cleared. The slot keeps the spent timer, and later `turn_on` calls
  skip the driver (`PresenceMachine.StaleSlotBlocksTurnOn`).
- `turn_off` on a light that has no slot creates one.

## Model

| member | source | states |
|---|---|---|
| Framing.Record | src/utils.py:81 | the record is a suffix of the buffer; when the begin tag occurs, it starts with the begin tag and no earlier occurrence lies before the cut; otherwise it has at most one character |
| Framing.FeedStep | src/utils.py:79-82 | a record is emitted iff the joined buffer ends with the end marker; the buffer then becomes empty and the record is its suffix cut at the first begin tag; otherwise the buffer is the old buffer followed by the chunk |
| Framing.Start | src/utils.py:77-83 | given the chunks and, per record, whether parsing or the handler raises, the loop's final buffer, its trace of reads and hand-overs, and whether it raised equal the framing function; it returns at the first raising hand-over |
| Framing.HandledIsFramePrefix | src/utils.py:78-83 | the trace with handler outcomes is a prefix of the trace without them, all of it when nothing raised; a raise comes right after a hand-over, with the buffer empty |
| Framing.HandledOutcomes | src/utils.py:83 | with n records handed over, the loop raised exactly when the n-th outcome is a raise, and every earlier outcome was a success |
| Framing.HandlerWithoutErrors | src/utils.py:78-83 | when no outcome is a raise, the loop ends like the framing loop and does not raise |
| Framing.HandledReadsPrefix | src/utils.py:78-83 | the chunks read before the loop stops are a prefix of the stream |
| Framing.HandlerRaiseStopsReading | src/utils.py:78-83 | when the handler raises on the record the first chunk completes, the loop raises and the second chunk is never read, though the loop without a raise reads both |
| Framing.FrameTraceShape | src/utils.py:78-83 | the trace reads exactly the given chunks in order, and every record is handed over right after the read that completed it, before the next read |
| Framing.OneRecordAnyChunking | src/utils.py:78-83 | however one notification (end marker only at its end) is split into chunks, exactly one record is emitted, the buffer ends empty, and a record starting with the begin tag is emitted unchanged |
| Framing.RecordsInStreamOrder | src/utils.py:78-83 | a stream of notifications, each split into chunks arbitrarily, leaves the buffer empty, and each notification is handed over as the record cut from it, in stream order |
| Framing.FrameAppend | src/utils.py:77-83 | framing a stream in two pieces equals framing the first and carrying its buffer into the second |
| Framing.EmptyChunksEmitNothing | src/utils.py:78-80 | chunks that add up to nothing emit nothing and leave the buffer empty |
| Framing.WholeRecordIsKept | src/utils.py:81 | a buffer that starts with the begin tag is emitted whole |
| Framing.RecordWithoutBeginTag | src/utils.py:80-81 | a complete buffer without any begin tag yields the one-character record ">" |
| Framing.TwoRecordsInOneChunk | src/utils.py:80-83 | two notifications arriving in one chunk are handed over as a single record holding both |
| Supervisor.Run | src/utils.py:43-56 | the loop gives up exactly at the first point where the counter hits 0 after `maxRetries` consecutive failures, only from the failure branch and with the counter at 0; it never gives up when `maxRetries <= 0`; the counter is `maxRetries` minus the number of trailing failures |
| Supervisor.TrailingFailuresStep | src/utils.py:47-51 | a normal return resets the failure run to 0, and a failure extends it by one |
| Supervisor.GivesUpAfterMaxFailures | src/utils.py:43-54 | with `maxRetries >= 1`, after a success or at the start, `maxRetries` consecutive failures end the loop after exactly those attempts and not before |
| Supervisor.TrailingFailures | src/utils.py:48-51 | the counted attempts at the end of the history all failed, and the attempt before them succeeded |
| EventParse.LocalNameOfQualified | src/utils.py:66 | `tag.split('}')[1]` of `{ns}name` is `name` |
| EventParse.ParseEventFailsIff | src/utils.py:66 | parsing fails exactly when some child's tag has no '}' |
| EventParse.ParseEventCoversChildren | src/utils.py:66 | on success, every child's local name is a key |
| EventParse.ParseEventKeysFromChildren | src/utils.py:66 | on success, every key is some child's local name |
| EventParse.ParseEventLastWins | src/utils.py:66 | on success, each key maps to the text of the last child with that local name |
| EventParse.ParseQualifiedField | src/utils.py:66 | a single child `{ns}name` parses to the one-entry map from `name` to its text |
| PresenceConfig.BuildMapping | src/utils.py:179-184 | the mapping's channels are exactly the named channels; each channel's list is the in-order concatenation of the lights of every group naming it, once per time it is named; the key order holds each channel once |
| PresenceConfig.AddGroup | src/utils.py:181-184 | one group extends each channel it names by its lights, once per naming, creating the missing lists |
| PresenceConfig.FindDuplicate | src/utils.py:187-192 | no error is reported iff no channel's list repeats a light; a reported light really repeats in the reported channel's list |
| PresenceConfig.RulesFor | src/utils.py:179-184 | a channel that no group names has an empty list |
| PresenceConfig.Count | src/utils.py:181 | the count is positive iff the channel is listed |
| PresenceConfig.SameLightOnTwoChannels | src/utils.py:186-192 | the same light on two different channels is accepted |
| PresenceConfig.SameLightTwiceOnOneChannel | src/utils.py:186-192 | two groups giving one channel the same light are refused |
| PresenceConfig.ChannelListedTwice | src/utils.py:181-192 | a group that lists a channel twice gives it its lights twice and is refused |
| PresenceEngine.PresenceLighting.Create | src/utils.py:179-196 | construction succeeds iff no channel's list repeats a light; a refusal names a channel and a light that repeats there; on success the mapping is the concatenated lists, every mapped light has an empty slot, no timer is live and the engine is valid |
| PresenceEngine.PresenceLighting.Init | src/utils.py:195-196 | the new engine's state is the initial state: one empty slot per mapped light |
| PresenceMachine.InitialSlots | src/utils.py:195-196 | the timer map's keys are exactly the lights of some channel's list, every slot is empty, and the state is valid |
| PresenceEngine.PresenceLighting.TurnOn | src/utils.py:234-241 | the method's new state and exception are those of the `turn_on` step; validity is kept |
| PresenceEngine.PresenceLighting.SetTimer | src/utils.py:250-254 | the method's new state and exception are those of the `set_timer` step; validity is kept |
| PresenceEngine.PresenceLighting.TurnOff | src/utils.py:264-265 | the method's new state and exception are those of the `turn_off` step |
| PresenceEngine.PresenceLighting.Fire | src/utils.py:253 | a timer's expiry runs `turn_off` for its light through the expiry step; validity is kept |
| PresenceEngine.PresenceLighting.HandleEvent | src/utils.py:204-224 | the method's new state and exception are those of the handle step; validity is kept |
| PresenceEngine.PresenceLighting.ApplyRules | src/utils.py:212-224 | the loop over a channel's rules issues the rules' triggers in list order and stops at an exception |
| PresenceEngine.PresenceLighting.ApplyRule | src/utils.py:213-224 | a rule calls `turn_on` once when its active time is empty or some window holds the time, and otherwise changes nothing |
| PresenceEngine.LightDriver.TurnOn | src/utils.py:236 | the call is logged and fails as the fault script says |
| PresenceEngine.LightDriver.TurnOff | src/utils.py:264 | the call is logged and fails as the fault script says |
| PresenceMachine.AtMostOneLiveTimer | src/utils.py:250-254 | in a valid state no light has two live timers |
| PresenceMachine.SetTimerReplaces | src/utils.py:250-254 | `set_timer` leaves exactly one live timer for the light, the new one with the given duration; other lights' slots and timers, and the driver, are untouched |
| PresenceMachine.SetTimerPreservesValid | src/utils.py:250-254 | `set_timer` keeps the state valid |
| PresenceMachine.TurnOnCallsDriverIffNoTimer | src/utils.py:234-236 | `turn_on` calls the driver exactly when the light's slot is empty |
| PresenceMachine.TurnOnFailureArmsNothing | src/utils.py:235-239 | a driver failure in `turn_on` is caught and arms no timer |
| PresenceMachine.TurnOnArmsFreshTimer | src/utils.py:240-241 | a nonzero duration, once the light is on, leaves one live timer for the light: a fresh one of that duration |
| PresenceMachine.TurnOnZeroDuration | src/utils.py:240 | a duration of 0 leaves the slots and timers unchanged |
| PresenceMachine.TurnOnPreservesValid | src/utils.py:234-241 | `turn_on` keeps the state valid |
| PresenceMachine.StepsLeaveOtherLights | src/utils.py:234-265 | `turn_on`, `set_timer`, `turn_off` and the expiry of another light's timer never change another light's slot |
| PresenceMachine.TurnOffEmptiesSlot | src/utils.py:264-265 | `turn_off` logs a driver call and then empties the slot; a driver failure escapes and leaves the slot unchanged |
| PresenceMachine.FireClearsSlot | src/utils.py:253-265 | a live timer that expires turns its light off, empties the slot and leaves no live timer for it |
| PresenceMachine.FireFailureKeepsSlot | src/utils.py:253-265 | if the driver raises at expiry, the slot keeps the spent timer and the exception escapes |
| PresenceMachine.StaleSlotBlocksTurnOn | src/utils.py:234-265 | after a failed expiry, the next `turn_on` for that light skips the driver |
| PresenceMachine.TurnOffPreservesValid | src/utils.py:264-265 | `turn_off` of a light without live timers keeps the state valid |
| PresenceMachine.FirePreservesValid | src/utils.py:253-265 | an expiry keeps the state valid |
| PresenceMachine.CancelledTimerDoesNotFire | src/utils.py:250-251 | a timer replaced by `set_timer` does nothing when it expires |
| PresenceMachine.Retrigger | src/utils.py:234-254 | motion twice on a light that was off calls the driver once, and only the latest timer is live |
| PresenceMachine.HandleIgnores | src/utils.py:204-209 | an unmapped channel or an event type other than "VMD" changes nothing and makes no driver call |
| PresenceMachine.HandleBadEventChangesNothing | src/utils.py:204-210 | a malformed notification raises before any light is touched |
| PresenceMachine.MotionTimeOfIsoDateTime | src/utils.py:210 | for any date-time whose text after the first 'T' starts with HH:MM, whatever follows (seconds, fraction, zone offset), the motion time is HHMM as an integer |
| PresenceMachine.DecideMotion | src/utils.py:204-212 | a motion event on a mapped channel whose date-time after the first 'T' starts with HH:MM issues that channel's triggers for HHMM |
| PresenceMachine.TriggersIff | src/utils.py:212-224 | a trigger is issued iff some rule in the list is active at the time, with that rule's light and duration; there are no more triggers than rules |
| PresenceMachine.UnconditionalRuleTriggers | src/utils.py:223-224 | a rule without active times always triggers |
| PresenceMachine.TriggersDistinct | src/utils.py:213-220 | each rule triggers at most once: a list without a repeated light gives triggers without a repeated light |
| PresenceMachine.TriggersAppend | src/utils.py:212 | the triggers of two rule lists in a row are the first list's triggers followed by the second's |
| PresenceMachine.TriggerAllAppend | src/utils.py:212-224 | running triggers in two parts is running the first part, then the second unless the first raised |
| PresenceMachine.TriggerAllPreservesValid | src/utils.py:212-224 | with every triggered light configured, the triggers raise nothing and keep the state valid |
| PresenceMachine.TriggerAllLeavesOtherLights | src/utils.py:212-224 | lights that the triggers do not name keep their slots |
| PresenceMachine.HandlePreservesValid | src/utils.py:204-224 | in a valid engine, `handle_event` raises only for a malformed notification and keeps the engine valid |
| PresenceMachine.TriggersOfMappedChannel | src/utils.py:212 | every light the handler triggers is a configured light |
| Text.Find | src/utils.py:81 | the result is -1 or the lowest index at which the text occurs |
| Text.SliceFrom | src/utils.py:81 | `s[i:]` is a suffix of `s` whose length follows Python's clamping of negative and out-of-range starts |
| Text.SecondField | src/utils.py:66 | the result is absent iff the separator does not occur, and it never contains the separator |
| Text.SecondFieldOfJoin | src/utils.py:66 | the second field of `pre c mid rest` is `mid` |
| Text.RemoveAll | src/utils.py:210 | the result holds no occurrence of the removed character |
| Text.RemoveAllAppend | src/utils.py:210 | removal distributes over concatenation |
| Text.RemoveAllAbsent | src/utils.py:210 | removing a character that does not occur leaves the text unchanged |
| Text.ParseIntRoundTrip | src/utils.py:204 | `int(str(n)) == n` |
| Text.ParseFourDigits | src/utils.py:210 | `int` of four digits is the number they spell |

## Left out

- The HTTP GET with Digest authentication, `iter_content` and the status-code check (src/utils.py:74-75, 85) are network I/O. The finite chunk sequence and the outcomes of `start` are inputs instead.
- `chunk.decode("utf-8")` is left out: chunks arrive as decoded text. A multi-byte character split across chunks is not modelled.
- Within `Framing.Start`, the call `self.handle_event(self.parse_event(event))` (src/utils.py:83) is a script of outcomes, one per record, saying whether it raises. What parsing and handling do with the record is modelled separately, in event_parse.dfy and presence_machine.dfy.
- `etree.fromstring` is a foreign XML parser. Its output is the input list of children, each a tag and an optional text.
- `LightControl` and tinytuya (src/utils.py:88-163) are device calls. They are replaced by `LightDriver`, which logs calls and fails from a script of outcomes.
- `threading.Timer` threads, real elapsed time, `time.sleep(1)` and the race between a timer firing and its cancellation are concurrency and wall-clock time. A timer's expiry is the explicit `Fire` step, and a cancelled timer never fires.
- `print` logging is output only.
- `int()` is modelled on an optional sign followed by ASCII digits. Surrounding whitespace, underscores and non-ASCII digits, which Python also accepts, are not modelled.
- Malformed configuration shapes are not modelled: a missing "channels", "lights", "light" or "duration" key, or an active-time entry that is not a pair. The rule datatype fixes the shape shown in src/config.example.py:17-26, and a missing `activeTime` is the empty list, since both are falsy.
- The default `duration` of 120 in `turn_on` is not modelled: every call passes the duration explicitly.
- `EventStream.__init__` calling `run` is not modelled.
- src/config.example.py and src/main.py hold configuration and process start-up only.
- Supervisor.Run: the `while True` loop is modelled over a finite sequence of outcomes, so when the outcomes run out without a give-up, the model stops where the program would go on connecting.
