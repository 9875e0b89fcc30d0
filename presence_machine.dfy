/** The behaviour of `PresenceLighting` on values: the timer slots kept by
    `turn_on`, `set_timer` and `turn_off`, the expiry of a timer as an
    explicit step, and the decision `handle_event` takes on one notification.
    The light driver is a log of the calls made to it and a script of
    outcomes (`true`: the call raises; an exhausted script succeeds). A
    timer is an id; `pending` holds the timers that were started and have
    neither been cancelled nor fired. */
module PresenceMachine {
  import opened Wrappers
  import opened Text
  import opened EventParse
  import opened PresenceConfig

  /** A started `threading.Timer` that will call `turn_off(light)`. */
  datatype Timer = Timer(light: string, duration: int)

  /** A call made to the light driver. */
  datatype Call = TurnOnCall(light: string) | TurnOffCall(light: string)

  /** `slots` is `self.timers`: each light's current timer, or none. */
  datatype State = State(slots: map<string, Option<nat>>, pending: map<nat, Timer>, nextId: nat,
                         calls: seq<Call>, faults: seq<bool>)

  /** The problems `handle_event` meets on a malformed notification. */
  datatype EventError =
    | MissingField(name: string)     // KeyError on `event[name]`
    | NoText(name: string)           // the field is `None`: TypeError / AttributeError
    | NotAnInteger(name: string)     // ValueError from `int`
    | NoTimeSeparator                // IndexError from `split("T")[1]`

  /** What escapes a step as an exception. */
  datatype EngineError =
    | UnknownLight(light: string)    // KeyError on `self.timers[light]`
    | DriverFailed(light: string)    // the driver raised in `turn_off`
    | BadEvent(error: EventError)

  /** The state after a step and the exception it raised, if any. */
  datatype Outcome = Outcome(state: State, raised: Option<EngineError>)

  /** The next driver call raises. */
  predicate Raises(faults: seq<bool>) {
    faults != [] && faults[0]
  }

  /** The driver call `c` is made: it is logged and consumes one outcome. */
  function Drive(e: State, c: Call): State {
    e.(calls := e.calls + [c], faults := if e.faults == [] then [] else e.faults[1..])
  }

  /** The state right after construction: one empty slot per light that some
      channel's list names, no timers, no driver calls. */
  function Initial(mapping: Mapping, calls: seq<Call>, faults: seq<bool>): State {
    State(map light | light in Lights(mapping) :: None, map[], 0, calls, faults)
  }

  /** The slots name every configured light; every pending timer is the
      current timer of its light; ids are below `nextId`. */
  predicate Valid(e: State, lights: set<string>) {
    && lights <= e.slots.Keys
    && (forall id :: id in e.pending ==> id < e.nextId)
    && (forall id :: id in e.pending ==> e.pending[id].light in e.slots && e.slots[e.pending[id].light] == Some(id))
    && (forall light :: light in e.slots && e.slots[light].Some? ==> e.slots[light].value < e.nextId)
    && (forall light :: light in e.slots && e.slots[light].Some? && e.slots[light].value in e.pending ==>
          e.pending[e.slots[light].value].light == light)
  }

  /** `set_timer`: cancel the light's current timer, if any, and start a
      fresh one. */
  function SetTimerStep(e: State, light: string, duration: int): Outcome {
    if light !in e.slots then Outcome(e, Some(UnknownLight(light)))
    else
      var live := match e.slots[light]
        case Some(id) => e.pending - {id}
        case None => e.pending;
      Outcome(e.(slots := e.slots[light := Some(e.nextId)],
                 pending := live[e.nextId := Timer(light, duration)],
                 nextId := e.nextId + 1), None)
  }

  /** `turn_on`: the driver is called only when the light has no timer; a
      driver failure is caught and ends the call; a nonzero duration then
      re-arms the light's timer. */
  function TurnOnStep(e: State, light: string, duration: int): Outcome {
    if light !in e.slots then Outcome(e, Some(UnknownLight(light)))
    else if e.slots[light].None? && Raises(e.faults) then Outcome(Drive(e, TurnOnCall(light)), None)
    else
      var e1 := if e.slots[light].None? then Drive(e, TurnOnCall(light)) else e;
      if duration != 0 then SetTimerStep(e1, light, duration) else Outcome(e1, None)
  }

  /** `turn_off`: the driver is called first; if it raises, the exception
      escapes and the slot keeps its timer. Otherwise the slot is emptied
      (and created, for a light the map did not hold). */
  function TurnOffStep(e: State, light: string): Outcome {
    var e1 := Drive(e, TurnOffCall(light));
    if Raises(e.faults) then Outcome(e1, Some(DriverFailed(light)))
    else Outcome(e1.(slots := e1.slots[light := None]), None)
  }

  /** Timer `id` expires: a timer that was cancelled or already fired does
      nothing; a pending one stops being pending and turns its light off. */
  function FireStep(e: State, id: nat): Outcome {
    if id !in e.pending then Outcome(e, None)
    else TurnOffStep(e.(pending := e.pending - {id}), e.pending[id].light)
  }

  // ---------------------------------------------------------------------
  // The decision of `handle_event`

  /** `event[name]` as text. */
  function Field(event: Event, name: string): Result<string, EventError> {
    if name !in event then Failure(MissingField(name))
    else if event[name].None? then Failure(NoText(name))
    else Success(event[name].value)
  }

  function IntegerOf(s: string, name: string): Result<int, EventError> {
    match ParseInt(s)
    case None => Failure(NotAnInteger(name))
    case Some(n) => Success(n)
  }

  /** `int(dateTime.split("T")[1].replace(":", "")[:4])`. */
  function MotionTime(dateTime: string): Result<int, EventError> {
    match SecondField(dateTime, 'T')
    case None => Failure(NoTimeSeparator)
    case Some(clock) =>
      var digits := RemoveAll(clock, ':');
      IntegerOf(digits[..if |digits| < 4 then |digits| else 4], "dateTime")
  }

  /** `start <= t <= end`, both ends included. */
  predicate InWindow(w: Window, t: int) {
    w.start <= t <= w.end
  }

  /** A rule triggers when it has no active time, or when some window holds
      `t` (the loop stops at the first such window, so it triggers once). */
  predicate RuleActive(rule: LightRule, t: int) {
    rule.activeTime == [] || exists i :: 0 <= i < |rule.activeTime| && InWindow(rule.activeTime[i], t)
  }

  /** A `turn_on(light, duration)` that the handler issues. */
  datatype Trigger = Trigger(light: string, duration: int)

  /** The `turn_on` calls for the channel's rules, in list order. */
  function Triggers(rules: seq<LightRule>, t: int): seq<Trigger> {
    if rules == [] then []
    else
      var rule := rules[|rules| - 1];
      Triggers(rules[..|rules| - 1], t) + (if RuleActive(rule, t) then [Trigger(rule.light, rule.duration)] else [])
  }

  /** What `handle_event` does with one notification: the `turn_on` calls it
      makes, or the exception it raises before making any. */
  function Decide(mapping: Mapping, event: Event): Result<seq<Trigger>, EventError> {
    var id :- Field(event, "channelID");
    var channel :- IntegerOf(id, "channelID");
    if channel !in mapping then Success([])
    else if "eventType" !in event then Failure(MissingField("eventType"))
    else if event["eventType"] != Some("VMD") then Success([])
    else
      var dateTime :- Field(event, "dateTime");
      var t :- MotionTime(dateTime);
      Success(Triggers(mapping[channel], t))
  }

  /** The `turn_on` calls one after the other; an exception ends the run. */
  function TriggerAll(e: State, ts: seq<Trigger>): Outcome {
    if ts == [] then Outcome(e, None)
    else
      var before := TriggerAll(e, ts[..|ts| - 1]);
      if before.raised.Some? then before
      else TurnOnStep(before.state, ts[|ts| - 1].light, ts[|ts| - 1].duration)
  }

  /** `handle_event` on the engine state. */
  function HandleStep(e: State, mapping: Mapping, event: Event): Outcome {
    match Decide(mapping, event)
    case Failure(err) => Outcome(e, Some(BadEvent(err)))
    case Success(ts) => TriggerAll(e, ts)
  }

  // ---------------------------------------------------------------------
  // Construction

  /** The timer map of a new engine has exactly the mapped lights as keys,
      all empty, and it is valid. */
  lemma InitialSlots(mapping: Mapping, calls: seq<Call>, faults: seq<bool>)
    ensures Initial(mapping, calls, faults).slots.Keys == Lights(mapping)
    ensures forall light :: light in Initial(mapping, calls, faults).slots ==> Initial(mapping, calls, faults).slots[light] == None
    ensures Valid(Initial(mapping, calls, faults), Lights(mapping))
  {
  }

  // ---------------------------------------------------------------------
  // The slot state machine

  /** No light has two live timers. */
  lemma AtMostOneLiveTimer(e: State, lights: set<string>, i: nat, j: nat)
    requires Valid(e, lights)
    requires i in e.pending && j in e.pending && e.pending[i].light == e.pending[j].light
    ensures i == j
  {
    assert e.slots[e.pending[i].light] == Some(i);
  }

  /** `set_timer` on a known light leaves exactly one live timer for it, the
      new one, and touches no other light. */
  lemma SetTimerReplaces(e: State, lights: set<string>, light: string, duration: int)
    requires Valid(e, lights) && light in e.slots
    ensures var o := SetTimerStep(e, light, duration);
      && o.raised.None?
      && o.state.slots[light] == Some(e.nextId)
      && o.state.pending[e.nextId] == Timer(light, duration)
      && (forall id :: id in o.state.pending && o.state.pending[id].light == light ==> id == e.nextId)
      && (forall l :: l in e.slots && l != light ==> o.state.slots[l] == e.slots[l])
      && (forall id :: id in e.pending && e.pending[id].light != light ==> id in o.state.pending && o.state.pending[id] == e.pending[id])
      && o.state.calls == e.calls && o.state.faults == e.faults
  {
  }

  lemma SetTimerPreservesValid(e: State, lights: set<string>, light: string, duration: int)
    requires Valid(e, lights)
    ensures Valid(SetTimerStep(e, light, duration).state, lights)
  {
    if light in e.slots {
      var o := SetTimerStep(e, light, duration).state;
      forall id | id in o.pending
        ensures o.pending[id].light in o.slots && o.slots[o.pending[id].light] == Some(id)
      {
        if id != e.nextId {
          assert id in e.pending;
        }
      }
    }
  }

  /** `turn_on` calls the driver exactly when the light has no timer. */
  lemma TurnOnCallsDriverIffNoTimer(e: State, light: string, duration: int)
    requires light in e.slots
    ensures var o := TurnOnStep(e, light, duration);
      && o.raised.None?
      && (e.slots[light].None? ==> o.state.calls == e.calls + [TurnOnCall(light)])
      && (e.slots[light].Some? ==> o.state.calls == e.calls)
  {
  }

  /** A driver failure in `turn_on` is swallowed and arms no timer. */
  lemma TurnOnFailureArmsNothing(e: State, light: string, duration: int)
    requires light in e.slots && e.slots[light].None? && Raises(e.faults)
    ensures var o := TurnOnStep(e, light, duration);
      && o.raised.None?
      && o.state.slots == e.slots && o.state.pending == e.pending
  {
  }

  /** A nonzero duration, once the light is on, leaves the light with one
      live timer: a fresh one of that duration. */
  lemma TurnOnArmsFreshTimer(e: State, lights: set<string>, light: string, duration: int)
    requires Valid(e, lights) && light in e.slots && duration != 0
    requires e.slots[light].Some? || !Raises(e.faults)
    ensures var o := TurnOnStep(e, light, duration);
      && o.raised.None?
      && o.state.slots[light] == Some(e.nextId)
      && o.state.pending[e.nextId] == Timer(light, duration)
      && (forall id :: id in o.state.pending && o.state.pending[id].light == light ==> id == e.nextId)
  {
    var e1 := if e.slots[light].None? then Drive(e, TurnOnCall(light)) else e;
    assert Valid(e1, lights);
    SetTimerReplaces(e1, lights, light, duration);
  }

  /** A duration of 0 leaves the slots and the timers as they were. */
  lemma TurnOnZeroDuration(e: State, light: string)
    ensures TurnOnStep(e, light, 0).state.slots == e.slots
    ensures TurnOnStep(e, light, 0).state.pending == e.pending
  {
  }

  lemma TurnOnPreservesValid(e: State, lights: set<string>, light: string, duration: int)
    requires Valid(e, lights)
    ensures Valid(TurnOnStep(e, light, duration).state, lights)
  {
    if light in e.slots {
      var e1 := if e.slots[light].None? then Drive(e, TurnOnCall(light)) else e;
      assert Valid(e1, lights);
      SetTimerPreservesValid(e1, lights, light, duration);
    }
  }

  /** `turn_on`, `set_timer` and `turn_off` never change another light's
      slot. */
  lemma StepsLeaveOtherLights(e: State, light: string, other: string, duration: int, id: nat)
    requires other != light && other in e.slots
    ensures TurnOnStep(e, light, duration).state.slots[other] == e.slots[other]
    ensures SetTimerStep(e, light, duration).state.slots[other] == e.slots[other]
    ensures TurnOffStep(e, light).state.slots[other] == e.slots[other]
    ensures id in e.pending && e.pending[id].light != other ==> FireStep(e, id).state.slots[other] == e.slots[other]
  {
  }

  /** `turn_off` calls the driver, then empties the slot; a driver failure
      escapes and leaves the slot as it was. */
  lemma TurnOffEmptiesSlot(e: State, light: string)
    ensures var o := TurnOffStep(e, light);
      && o.state.calls == e.calls + [TurnOffCall(light)]
      && (!Raises(e.faults) ==> o.raised.None? && o.state.slots == e.slots[light := None])
      && (Raises(e.faults) ==> o.raised == Some(DriverFailed(light)) && o.state.slots == e.slots)
      && o.state.pending == e.pending
  {
  }

  /** A live timer that expires turns its light off and empties its slot. */
  lemma FireClearsSlot(e: State, lights: set<string>, id: nat)
    requires Valid(e, lights) && id in e.pending && !Raises(e.faults)
    ensures var o := FireStep(e, id);
      && o.raised.None?
      && o.state.calls == e.calls + [TurnOffCall(e.pending[id].light)]
      && o.state.slots[e.pending[id].light] == None
      && (forall j :: j in o.state.pending ==> o.state.pending[j].light != e.pending[id].light)
  {
    var light := e.pending[id].light;
    var o := FireStep(e, id);
    forall j | j in o.state.pending
      ensures o.state.pending[j].light != light
    {
      if o.state.pending[j].light == light {
        AtMostOneLiveTimer(e, lights, id, j);
      }
    }
  }

  /** If the driver raises when a timer expires, the slot keeps the spent
      timer: the light counts as on although no timer is live. */
  lemma FireFailureKeepsSlot(e: State, lights: set<string>, id: nat)
    requires Valid(e, lights) && id in e.pending && Raises(e.faults)
    ensures var o := FireStep(e, id);
      && o.raised == Some(DriverFailed(e.pending[id].light))
      && o.state.slots[e.pending[id].light] == Some(id)
      && id !in o.state.pending
  {
  }

  /** A slot holding a spent timer makes later `turn_on` calls skip the
      driver. */
  lemma StaleSlotBlocksTurnOn(e: State, lights: set<string>, id: nat, duration: int)
    requires Valid(e, lights) && id in e.pending && Raises(e.faults)
    ensures var o := FireStep(e, id);
      TurnOnStep(o.state, e.pending[id].light, duration).state.calls == o.state.calls
  {
    FireFailureKeepsSlot(e, lights, id);
  }

  lemma TurnOffPreservesValid(e: State, lights: set<string>, light: string)
    requires Valid(e, lights)
    requires forall id :: id in e.pending ==> e.pending[id].light != light
    ensures Valid(TurnOffStep(e, light).state, lights)
  {
  }

  lemma FirePreservesValid(e: State, lights: set<string>, id: nat)
    requires Valid(e, lights)
    ensures Valid(FireStep(e, id).state, lights)
  {
    if id in e.pending {
      var light := e.pending[id].light;
      var e1 := e.(pending := e.pending - {id});
      forall j | j in e1.pending
        ensures e1.pending[j].light != light
      {
        if e1.pending[j].light == light {
          AtMostOneLiveTimer(e, lights, id, j);
        }
      }
      TurnOffPreservesValid(e1, lights, light);
    }
  }

  /** A timer that `set_timer` replaced does nothing when it expires. */
  lemma CancelledTimerDoesNotFire(e: State, lights: set<string>, light: string, duration: int)
    requires Valid(e, lights) && light in e.slots && e.slots[light].Some?
    ensures var o := SetTimerStep(e, light, duration);
      FireStep(o.state, e.slots[light].value) == Outcome(o.state, None)
  {
    var old_ := e.slots[light].value;
    var o := SetTimerStep(e, light, duration);
    assert old_ < e.nextId;
  }

  /** Motion on a light that is already on only pushes its turn-off back:
      the driver is called once, and one timer, the latest, is live. */
  lemma Retrigger(e: State, lights: set<string>, light: string, d1: int, d2: int)
    requires Valid(e, lights) && light in e.slots && e.slots[light].None? && !Raises(e.faults)
    requires d1 != 0 && d2 != 0
    ensures var o1 := TurnOnStep(e, light, d1);
      var o2 := TurnOnStep(o1.state, light, d2);
      && o2.raised.None?
      && o2.state.calls == e.calls + [TurnOnCall(light)]
      && (forall id :: id in o2.state.pending && o2.state.pending[id].light == light ==> id == o1.state.nextId)
      && o1.state.nextId in o2.state.pending
  {
    var o1 := TurnOnStep(e, light, d1);
    TurnOnArmsFreshTimer(e, lights, light, d1);
    TurnOnPreservesValid(e, lights, light, d1);
    TurnOnArmsFreshTimer(o1.state, lights, light, d2);
  }

  // ---------------------------------------------------------------------
  // handle_event

  /** An unmapped channel or a non-motion event changes nothing and makes no
      driver call. */
  lemma HandleIgnores(e: State, mapping: Mapping, event: Event, channel: int)
    requires "channelID" in event && event["channelID"] == Some(Decimal(channel))
    requires channel !in mapping || ("eventType" in event && event["eventType"] != Some("VMD"))
    ensures HandleStep(e, mapping, event) == Outcome(e, None)
  {
    ParseIntRoundTrip(channel);
  }

  /** A malformed notification raises before any light is touched. */
  lemma HandleBadEventChangesNothing(e: State, mapping: Mapping, event: Event)
    requires Decide(mapping, event).Failure?
    ensures HandleStep(e, mapping, event).state == e
    ensures HandleStep(e, mapping, event).raised == Some(BadEvent(Decide(mapping, event).error))
  {
  }

  /** The time of day of an ISO-8601 date-time: `HH:MM` after the `T`
      gives the number HHMM. */
  lemma MotionTimeOfIsoDateTime(date: string, h1: char, h2: char, m1: char, m2: char, rest: string)
    requires 'T' !in date
    requires IsDigit(h1) && IsDigit(h2) && IsDigit(m1) && IsDigit(m2)
    ensures MotionTime(date + "T" + [h1, h2, ':', m1, m2] + rest)
            == Success(1000 * DigitValue(h1) + 100 * DigitValue(h2) + 10 * DigitValue(m1) + DigitValue(m2))
  {
    var hm := [h1, h2, ':', m1, m2];
    var f := FirstField(rest, 'T');
    var tail := rest[|f|..];
    assert rest == f + tail;
    assert tail == [] || tail[0] == 'T';
    assert 'T' !in hm + f;
    assert date + "T" + hm + rest == date + ['T'] + (hm + f) + tail;
    SecondFieldOfJoin(date, hm + f, tail, 'T');
    RemoveAllAppend(hm, f, ':');
    RemoveAllOfClock(h1, h2, m1, m2);
    var digits := RemoveAll(hm + f, ':');
    assert digits == [h1, h2, m1, m2] + RemoveAll(f, ':');
    assert digits[..4] == [h1, h2, m1, m2];
    ParseFourDigits(h1, h2, m1, m2);
  }

  lemma RemoveAllOfClock(h1: char, h2: char, m1: char, m2: char)
    requires IsDigit(h1) && IsDigit(h2) && IsDigit(m1) && IsDigit(m2)
    ensures RemoveAll([h1, h2, ':', m1, m2], ':') == [h1, h2, m1, m2]
  {
    assert [m2][1..] == [];
    assert RemoveAll([m2], ':') == [m2];
    assert [m1, m2][1..] == [m2];
    assert RemoveAll([m1, m2], ':') == [m1, m2];
    assert [':', m1, m2][1..] == [m1, m2];
    assert RemoveAll([':', m1, m2], ':') == [m1, m2];
    assert [h2, ':', m1, m2][1..] == [':', m1, m2];
    assert RemoveAll([h2, ':', m1, m2], ':') == [h2, m1, m2];
    assert [h1, h2, ':', m1, m2][1..] == [h2, ':', m1, m2];
  }

  /** A motion notification on a mapped channel issues the channel's
      triggers for the time of day it carries. */
  lemma DecideMotion(mapping: Mapping, event: Event, channel: int, date: string,
                     h1: char, h2: char, m1: char, m2: char, rest: string)
    requires channel in mapping
    requires "channelID" in event && event["channelID"] == Some(Decimal(channel))
    requires "eventType" in event && event["eventType"] == Some("VMD")
    requires "dateTime" in event && event["dateTime"] == Some(date + "T" + [h1, h2, ':', m1, m2] + rest)
    requires 'T' !in date
    requires IsDigit(h1) && IsDigit(h2) && IsDigit(m1) && IsDigit(m2)
    ensures Decide(mapping, event)
            == Success(Triggers(mapping[channel], 1000 * DigitValue(h1) + 100 * DigitValue(h2) + 10 * DigitValue(m1) + DigitValue(m2)))
  {
    ParseIntRoundTrip(channel);
    MotionTimeOfIsoDateTime(date, h1, h2, m1, m2, rest);
  }

  /** The handler triggers a rule's light exactly for the active rules, in
      list order: the triggers are the active rules, one each. */
  lemma {:induction false} TriggersIff(rules: seq<LightRule>, t: int)
    ensures |Triggers(rules, t)| <= |rules|
    ensures forall tr :: tr in Triggers(rules, t) <==>
              exists i :: 0 <= i < |rules| && RuleActive(rules[i], t) && tr == Trigger(rules[i].light, rules[i].duration)
    decreases |rules|
  {
    if rules != [] {
      var n := |rules| - 1;
      var init := rules[..n];
      TriggersIff(init, t);
      assert forall i :: 0 <= i < n ==> init[i] == rules[i];
      forall tr | tr in Triggers(rules, t)
        ensures exists i :: 0 <= i < |rules| && RuleActive(rules[i], t) && tr == Trigger(rules[i].light, rules[i].duration)
      {
        if tr !in Triggers(init, t) {
          assert RuleActive(rules[n], t) && tr == Trigger(rules[n].light, rules[n].duration);
        }
      }
    }
  }

  /** Every rule without an active time triggers, whatever the time. */
  lemma UnconditionalRuleTriggers(rules: seq<LightRule>, t: int, i: nat)
    requires i < |rules| && rules[i].activeTime == []
    ensures Trigger(rules[i].light, rules[i].duration) in Triggers(rules, t)
  {
    TriggersIff(rules, t);
  }

  /** Each rule triggers at most once: a rule list without a repeated light
      gives triggers without a repeated light. */
  lemma {:induction false} TriggersDistinct(rules: seq<LightRule>, t: int)
    requires !HasDuplicateLight(rules)
    ensures forall a, b :: 0 <= a < b < |Triggers(rules, t)| ==> Triggers(rules, t)[a].light != Triggers(rules, t)[b].light
    decreases |rules|
  {
    if rules != [] {
      var n := |rules| - 1;
      var init := rules[..n];
      assert forall i :: 0 <= i < n ==> init[i] == rules[i];
      TriggersDistinct(init, t);
      TriggersIff(init, t);
      var ts := Triggers(rules, t);
      var ti := Triggers(init, t);
      forall a, b | 0 <= a < b < |ts|
        ensures ts[a].light != ts[b].light
      {
        if b >= |ti| {
          assert ts[a] in ti;
          var i :| 0 <= i < n && RuleActive(init[i], t) && ts[a] == Trigger(init[i].light, init[i].duration);
          assert ts[b].light == rules[n].light;
        } else {
          assert ts[a] == ti[a] && ts[b] == ti[b];
        }
      }
    }
  }

  /** Running triggers one after another is running the first part, then
      the rest; once a call has raised, nothing more happens. */
  lemma {:induction false} TriggerAllAppend(e: State, a: seq<Trigger>, b: seq<Trigger>)
    ensures TriggerAll(e, a + b) ==
              if TriggerAll(e, a).raised.Some? then TriggerAll(e, a) else TriggerAll(TriggerAll(e, a).state, b)
    decreases |b|
  {
    if b == [] {
      assert a + b == a;
    } else {
      var n := |b| - 1;
      TriggerAllAppend(e, a, b[..n]);
      assert (a + b)[..|a + b| - 1] == a + b[..n];
    }
  }

  lemma {:induction false} TriggersAppend(a: seq<LightRule>, b: seq<LightRule>, t: int)
    ensures Triggers(a + b, t) == Triggers(a, t) + Triggers(b, t)
    decreases |b|
  {
    if b == [] {
      assert a + b == a;
    } else {
      var n := |b| - 1;
      TriggersAppend(a, b[..n], t);
      assert (a + b)[..|a + b| - 1] == a + b[..n];
    }
  }

  /** With every triggered light configured, running the triggers raises
      nothing and keeps the state valid. */
  lemma {:induction false} TriggerAllPreservesValid(e: State, lights: set<string>, ts: seq<Trigger>)
    requires Valid(e, lights)
    requires forall i :: 0 <= i < |ts| ==> ts[i].light in lights
    ensures TriggerAll(e, ts).raised.None?
    ensures Valid(TriggerAll(e, ts).state, lights)
    decreases |ts|
  {
    if ts != [] {
      var n := |ts| - 1;
      TriggerAllPreservesValid(e, lights, ts[..n]);
      TurnOnPreservesValid(TriggerAll(e, ts[..n]).state, lights, ts[n].light, ts[n].duration);
    }
  }

  /** Lights the triggers do not name keep their slots. */
  lemma {:induction false} TriggerAllLeavesOtherLights(e: State, ts: seq<Trigger>, other: string)
    requires other in e.slots
    requires forall i :: 0 <= i < |ts| ==> ts[i].light != other
    ensures other in TriggerAll(e, ts).state.slots
    ensures TriggerAll(e, ts).state.slots[other] == e.slots[other]
    decreases |ts|
  {
    if ts != [] {
      var n := |ts| - 1;
      TriggerAllLeavesOtherLights(e, ts[..n], other);
      StepsLeaveOtherLights(TriggerAll(e, ts[..n]).state, ts[n].light, other, ts[n].duration, 0);
    }
  }

  /** In a valid engine, a handled event raises only for a malformed
      notification, and leaves the engine valid. */
  lemma HandlePreservesValid(e: State, mapping: Mapping, event: Event)
    requires Valid(e, Lights(mapping))
    ensures Valid(HandleStep(e, mapping, event).state, Lights(mapping))
    ensures HandleStep(e, mapping, event).raised.Some? ==> HandleStep(e, mapping, event).raised.value.BadEvent?
  {
    match Decide(mapping, event)
    case Failure(_) =>
    case Success(ts) =>
      TriggersOfMappedChannel(mapping, event);
      TriggerAllPreservesValid(e, Lights(mapping), ts);
  }

  /** Every light the handler triggers is a configured light. */
  lemma TriggersOfMappedChannel(mapping: Mapping, event: Event)
    requires Decide(mapping, event).Success?
    ensures forall i :: 0 <= i < |Decide(mapping, event).value| ==> Decide(mapping, event).value[i].light in Lights(mapping)
  {
    var ts := Decide(mapping, event).value;
    if ts != [] {
      var channel := IntegerOf(Field(event, "channelID").value, "channelID").value;
      var ds := Field(event, "dateTime").value;
      var t := MotionTime(ds).value;
      assert ts == Triggers(mapping[channel], t);
      TriggersIff(mapping[channel], t);
      forall i | 0 <= i < |ts|
        ensures ts[i].light in Lights(mapping)
      {
        assert ts[i] in Triggers(mapping[channel], t);
        var k :| 0 <= k < |mapping[channel]| && RuleActive(mapping[channel][k], t)
                 && ts[i] == Trigger(mapping[channel][k].light, mapping[channel][k].duration);
        assert mapping[channel][k] in mapping[channel];
      }
    }
  }
}
