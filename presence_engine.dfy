/** `PresenceLighting` and the light driver as objects whose methods update
    their fields: the engine's `timers` dictionary, its live timers and the
    driver's call log change in place. Each method is tied to the step of
    the value model that it performs. */
module PresenceEngine {
  import opened Wrappers
  import opened EventParse
  import opened PresenceConfig
  import opened PresenceMachine

  /** The light driver: it records every call and raises as its script of
      outcomes says. */
  class LightDriver {
    var calls: seq<Call>
    var faults: seq<bool>

    constructor (faults: seq<bool>)
      ensures this.calls == [] && this.faults == faults
    {
      calls := [];
      this.faults := faults;
    }

    /** `turn_on(light)`; `ok` is false where the device call raises. */
    method TurnOn(light: string) returns (ok: bool)
      modifies this
      ensures ok == !Raises(old(faults))
      ensures calls == old(calls) + [TurnOnCall(light)]
      ensures faults == if old(faults) == [] then [] else old(faults)[1..]
    {
      ok := !Raises(faults);
      calls := calls + [TurnOnCall(light)];
      if faults != [] {
        faults := faults[1..];
      }
    }

    /** `turn_off(light)`; `ok` is false where the device call raises. */
    method TurnOff(light: string) returns (ok: bool)
      modifies this
      ensures ok == !Raises(old(faults))
      ensures calls == old(calls) + [TurnOffCall(light)]
      ensures faults == if old(faults) == [] then [] else old(faults)[1..]
    {
      ok := !Raises(faults);
      calls := calls + [TurnOffCall(light)];
      if faults != [] {
        faults := faults[1..];
      }
    }
  }

  class PresenceLighting {
    const driver: LightDriver
    /** `self.light_mapping`: channel to its ordered rule list. */
    const mapping: Mapping
    /** `self.timers`: each light's current timer, or none. */
    var timers: map<string, Option<nat>>
    /** The timers started and neither cancelled nor fired. */
    var pending: map<nat, Timer>
    var nextId: nat

    function View(): State
      reads this, driver
    {
      State(timers, pending, nextId, driver.calls, driver.faults)
    }

    predicate Valid()
      reads this, driver
    {
      MappingValid(mapping) && PresenceMachine.Valid(View(), Lights(mapping))
    }

    /** The end of `__init__` once the mapping has passed its check: one
        empty timer slot per mapped light. */
    constructor Init(driver: LightDriver, mapping: Mapping)
      requires MappingValid(mapping)
      ensures this.driver == driver && this.mapping == mapping
      ensures View() == Initial(mapping, driver.calls, driver.faults)
      ensures Valid()
    {
      this.driver := driver;
      this.mapping := mapping;
      timers := map light | light in Lights(mapping) :: None;
      pending := map[];
      nextId := 0;
      new;
      InitialSlots(mapping, driver.calls, driver.faults);
    }

    /** `__init__`: build the channel mapping, refuse a light named twice on
        one channel, and start with every mapped light's slot empty. */
    static method Create(driver: LightDriver, groups: seq<Group>) returns (r: Result<PresenceLighting, ConfigError>)
      ensures r.Success? <==> ConfigValid(groups)
      ensures r.Failure? ==>
                && r.error.channel in NamedChannels(groups)
                && Repeats(RulesFor(groups, r.error.channel), r.error.light)
      ensures r.Success? ==>
                && fresh(r.value)
                && r.value.driver == driver
                && r.value.mapping.Keys == NamedChannels(groups)
                && (forall channel :: channel in r.value.mapping ==> r.value.mapping[channel] == RulesFor(groups, channel))
                && r.value.View() == Initial(r.value.mapping, driver.calls, driver.faults)
                && r.value.Valid()
    {
      var mapping, order := BuildMapping(groups);
      var dup := FindDuplicate(mapping, order);
      if dup.Some? {
        return Failure(dup.value);
      }
      var engine := new PresenceLighting.Init(driver, mapping);
      return Success(engine);
    }

    /** `set_timer(light, duration)`. */
    method SetTimer(light: string, duration: int) returns (raised: Option<EngineError>)
      modifies this
      ensures Outcome(View(), raised) == SetTimerStep(old(View()), light, duration)
      ensures old(Valid()) ==> Valid()
    {
      ghost var v0 := View();
      ghost var valid0 := Valid();
      if light !in timers {
        return Some(UnknownLight(light));
      }
      if timers[light].Some? {
        pending := pending - {timers[light].value};
      }
      pending := pending[nextId := Timer(light, duration)];
      timers := timers[light := Some(nextId)];
      nextId := nextId + 1;
      raised := None;
      if valid0 {
        SetTimerPreservesValid(v0, Lights(mapping), light, duration);
      }
    }

    /** `turn_on(light, duration)`. */
    method TurnOn(light: string, duration: int) returns (raised: Option<EngineError>)
      modifies this, driver
      ensures Outcome(View(), raised) == TurnOnStep(old(View()), light, duration)
      ensures old(Valid()) ==> Valid()
    {
      ghost var v0 := View();
      ghost var valid0 := Valid();
      if light !in timers {
        return Some(UnknownLight(light));
      }
      if timers[light].None? {
        var ok := driver.TurnOn(light);
        if !ok {
          if valid0 {
            TurnOnPreservesValid(v0, Lights(mapping), light, duration);
          }
          return None;
        }
      }
      if duration != 0 {
        raised := SetTimer(light, duration);
      } else {
        raised := None;
      }
      if valid0 {
        TurnOnPreservesValid(v0, Lights(mapping), light, duration);
      }
    }

    /** `turn_off(light)`: the driver first; its exception escapes before the
        slot is emptied. */
    method TurnOff(light: string) returns (raised: Option<EngineError>)
      modifies this, driver
      ensures Outcome(View(), raised) == TurnOffStep(old(View()), light)
    {
      var ok := driver.TurnOff(light);
      if !ok {
        return Some(DriverFailed(light));
      }
      timers := timers[light := None];
      raised := None;
    }

    /** Timer `id` expires and calls `turn_off` for its light. */
    method Fire(id: nat) returns (raised: Option<EngineError>)
      modifies this, driver
      ensures Outcome(View(), raised) == FireStep(old(View()), id)
      ensures old(Valid()) ==> Valid()
    {
      ghost var v0 := View();
      ghost var valid0 := Valid();
      if id !in pending {
        return None;
      }
      var light := pending[id].light;
      pending := pending - {id};
      raised := TurnOff(light);
      if valid0 {
        FirePreservesValid(v0, Lights(mapping), id);
      }
    }

    /** `handle_event(event)`. */
    method HandleEvent(event: Event) returns (raised: Option<EngineError>)
      modifies this, driver
      ensures Outcome(View(), raised) == HandleStep(old(View()), mapping, event)
      ensures old(Valid()) ==> Valid()
    {
      ghost var v0 := View();
      ghost var valid0 := Valid();
      var id := Field(event, "channelID");
      if id.Failure? {
        return Some(BadEvent(id.error));
      }
      var channel := IntegerOf(id.value, "channelID");
      if channel.Failure? {
        return Some(BadEvent(channel.error));
      }
      if channel.value !in mapping {
        return None;
      }
      if "eventType" !in event {
        return Some(BadEvent(MissingField("eventType")));
      }
      if event["eventType"] != Some("VMD") {
        return None;
      }
      var dateTime := Field(event, "dateTime");
      if dateTime.Failure? {
        return Some(BadEvent(dateTime.error));
      }
      var time := MotionTime(dateTime.value);
      if time.Failure? {
        return Some(BadEvent(time.error));
      }
      raised := ApplyRules(mapping[channel.value], time.value);
      if valid0 {
        HandlePreservesValid(v0, mapping, event);
      }
    }

    /** The loop over a channel's rules: `turn_on` for every rule whose
        active time is empty or holds `t`, stopping at an exception. */
    method ApplyRules(rules: seq<LightRule>, t: int) returns (raised: Option<EngineError>)
      modifies this, driver
      ensures Outcome(View(), raised) == TriggerAll(old(View()), Triggers(rules, t))
    {
      ghost var v0 := View();
      var i := 0;
      while i < |rules|
        invariant 0 <= i <= |rules|
        invariant TriggerAll(v0, Triggers(rules[..i], t)) == Outcome(View(), None)
      {
        var rule := rules[i];
        ghost var vi := View();
        var r := ApplyRule(rule, t);
        RulesStep(v0, rules, i, t, vi);
        if r.Some? {
          RulesStop(v0, rules, i, t);
          return r;
        }
        i := i + 1;
      }
      assert rules[..i] == rules;
      raised := None;
    }

    /** One rule: the scan of its windows in order, stopping at the first
        that holds `t`. */
    method ApplyRule(rule: LightRule, t: int) returns (r: Option<EngineError>)
      modifies this, driver
      ensures Outcome(View(), r) ==
                if RuleActive(rule, t) then TurnOnStep(old(View()), rule.light, rule.duration) else Outcome(old(View()), None)
    {
      ghost var v0 := View();
      r := None;
      if rule.activeTime != [] {
        var k := 0;
        while k < |rule.activeTime|
          invariant 0 <= k <= |rule.activeTime|
          invariant forall j :: 0 <= j < k ==> !InWindow(rule.activeTime[j], t)
          invariant View() == v0 && r == None
        {
          if InWindow(rule.activeTime[k], t) {
            r := TurnOn(rule.light, rule.duration);
            return;
          }
          k := k + 1;
        }
      } else {
        r := TurnOn(rule.light, rule.duration);
      }
    }
  }

  /** One more rule extends the run of triggers by that rule's trigger. */
  lemma RulesStep(v0: State, rules: seq<LightRule>, i: nat, t: int, vi: State)
    requires i < |rules|
    ensures TriggerAll(v0, Triggers(rules[..i + 1], t)) ==
              var before := TriggerAll(v0, Triggers(rules[..i], t));
              if before.raised.Some? then before
              else if RuleActive(rules[i], t) then TurnOnStep(before.state, rules[i].light, rules[i].duration)
              else before
  {
    var rule := rules[i];
    assert rules[..i + 1] == rules[..i] + [rule];
    TriggersAppend(rules[..i], [rule], t);
    assert [rule][..0] == [];
    var step := if RuleActive(rule, t) then [Trigger(rule.light, rule.duration)] else [];
    assert Triggers([rule], t) == step;
    TriggerAllAppend(v0, Triggers(rules[..i], t), step);
    if step != [] {
      assert step[..0] == [];
    }
  }

  /** An exception after rule `i` is the outcome of the whole loop. */
  lemma RulesStop(v0: State, rules: seq<LightRule>, i: nat, t: int)
    requires i < |rules|
    requires TriggerAll(v0, Triggers(rules[..i + 1], t)).raised.Some?
    ensures TriggerAll(v0, Triggers(rules, t)) == TriggerAll(v0, Triggers(rules[..i + 1], t))
  {
    assert rules == rules[..i + 1] + rules[i + 1..];
    TriggersAppend(rules[..i + 1], rules[i + 1..], t);
    TriggerAllAppend(v0, Triggers(rules[..i + 1], t), Triggers(rules[i + 1..], t));
  }
}
