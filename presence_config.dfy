/** The light mapping of `PresenceLighting.__init__`: channel groups from the
    configuration become one ordered rule list per camera channel, and
    construction is refused when a channel's list names a light twice. */
module PresenceConfig {
  import opened Wrappers

  /** An active-time window, inclusive HHMM bounds. */
  datatype Window = Window(start: int, end: int)

  /** One light of a channel group: the light's name, the seconds it stays on
      (0: no auto-off), and its active windows. A rule whose `activeTime` is
      missing and one whose list is empty behave the same (both are falsy),
      so both are the empty sequence here. */
  datatype LightRule = LightRule(light: string, duration: int, activeTime: seq<Window>)

  /** One entry of the mapping configuration: camera channels and the lights
      they drive. */
  datatype Group = Group(channels: seq<int>, lights: seq<LightRule>)

  /** The ValueError raised for a light named twice in one channel's list. */
  datatype ConfigError = DuplicateLight(channel: int, light: string)

  type Mapping = map<int, seq<LightRule>>

  /** How often `x` occurs in `xs`. */
  function Count(xs: seq<int>, x: int): (n: nat)
    ensures n > 0 <==> x in xs
    ensures n <= |xs|
  {
    if xs == [] then 0
    else Count(xs[..|xs| - 1], x) + (if xs[|xs| - 1] == x then 1 else 0)
  }

  /** `n` copies of `rules`, one after the other. */
  function Repeat(rules: seq<LightRule>, n: nat): seq<LightRule> {
    if n == 0 then [] else Repeat(rules, n - 1) + rules
  }

  function Elements(xs: seq<int>): (r: set<int>)
    ensures forall x :: x in r <==> x in xs
  {
    set i | 0 <= i < |xs| :: xs[i]
  }

  /** Every channel some group names. */
  function NamedChannels(groups: seq<Group>): set<int> {
    if groups == [] then {}
    else NamedChannels(groups[..|groups| - 1]) + Elements(groups[|groups| - 1].channels)
  }

  /** A channel's rule list: the lights of every group that names the
      channel, in configuration order, once for each time it is named. */
  function RulesFor(groups: seq<Group>, channel: int): (r: seq<LightRule>)
    ensures channel !in NamedChannels(groups) ==> r == []
  {
    if groups == [] then []
    else
      var last := groups[|groups| - 1];
      RulesFor(groups[..|groups| - 1], channel) + Repeat(last.lights, Count(last.channels, channel))
  }

  /** `light` is the light of two different rules in the list. */
  predicate Repeats(rules: seq<LightRule>, light: string) {
    exists i, j :: 0 <= i < j < |rules| && rules[i].light == light && rules[j].light == light
  }

  predicate HasDuplicateLight(rules: seq<LightRule>) {
    exists i, j :: 0 <= i < j < |rules| && rules[i].light == rules[j].light
  }

  /** Construction succeeds: no channel's rule list names a light twice. */
  predicate ConfigValid(groups: seq<Group>) {
    forall channel :: channel in NamedChannels(groups) ==> !HasDuplicateLight(RulesFor(groups, channel))
  }

  /** Every light some channel's rule list names. */
  function Lights(mapping: Mapping): set<string> {
    set channel, rule | channel in mapping && rule in mapping[channel] :: rule.light
  }

  /** No channel's list names a light twice. */
  predicate MappingValid(mapping: Mapping) {
    forall channel :: channel in mapping ==> !HasDuplicateLight(mapping[channel])
  }

  /** The first loop of `__init__`: for every group, for every channel it
      names, start the channel's list if it has none and extend it with the
      group's lights. `order` is the dictionary's key order (first
      appearance). */
  method BuildMapping(groups: seq<Group>) returns (mapping: Mapping, order: seq<int>)
    ensures mapping.Keys == NamedChannels(groups)
    ensures forall channel :: channel in mapping ==> mapping[channel] == RulesFor(groups, channel)
    ensures forall channel :: channel in order <==> channel in mapping
    ensures forall i, j :: 0 <= i < j < |order| ==> order[i] != order[j]
  {
    mapping := map[];
    order := [];
    var i := 0;
    while i < |groups|
      invariant 0 <= i <= |groups|
      invariant mapping.Keys == NamedChannels(groups[..i])
      invariant forall channel :: channel in mapping ==> mapping[channel] == RulesFor(groups[..i], channel)
      invariant forall channel :: channel in order <==> channel in mapping
      invariant forall a, b :: 0 <= a < b < |order| ==> order[a] != order[b]
    {
      ghost var before := mapping;
      mapping, order := AddGroup(mapping, order, groups[i]);
      forall c | c in mapping
        ensures mapping[c] == RulesFor(groups[..i + 1], c)
      {
        RulesForSnoc(groups, i, c);
      }
      RulesForSnoc(groups, i, 0);
      i := i + 1;
    }
    assert groups[..i] == groups;
  }

  /** One pass of the outer loop: every channel the group names gets the
      group's lights appended, once per time it is named. */
  method AddGroup(mapping0: Mapping, order0: seq<int>, group: Group) returns (mapping: Mapping, order: seq<int>)
    requires forall channel :: channel in order0 <==> channel in mapping0
    requires forall a, b :: 0 <= a < b < |order0| ==> order0[a] != order0[b]
    ensures mapping.Keys == mapping0.Keys + Elements(group.channels)
    ensures forall channel :: channel in mapping ==>
              mapping[channel] == (if channel in mapping0 then mapping0[channel] else [])
                                  + Repeat(group.lights, Count(group.channels, channel))
    ensures forall channel :: channel in order <==> channel in mapping
    ensures forall a, b :: 0 <= a < b < |order| ==> order[a] != order[b]
  {
    mapping, order := mapping0, order0;
    var j := 0;
    while j < |group.channels|
      invariant 0 <= j <= |group.channels|
      invariant mapping.Keys == mapping0.Keys + Elements(group.channels[..j])
      invariant forall channel :: channel in mapping ==>
                  mapping[channel] == (if channel in mapping0 then mapping0[channel] else [])
                                      + Repeat(group.lights, Count(group.channels[..j], channel))
      invariant forall channel :: channel in order <==> channel in mapping
      invariant forall a, b :: 0 <= a < b < |order| ==> order[a] != order[b]
    {
      var channel := group.channels[j];
      ghost var before := mapping;
      var lights := if channel in mapping then mapping[channel] else [];
      if channel !in mapping {
        order := order + [channel];
      }
      mapping := mapping[channel := lights + group.lights];
      AddGroupStep(mapping0, before, mapping, group, j);
      j := j + 1;
    }
    assert group.channels[..j] == group.channels;
  }

  lemma AddGroupStep(mapping0: Mapping, before: Mapping, after: Mapping, group: Group, j: nat)
    requires j < |group.channels|
    requires before.Keys == mapping0.Keys + Elements(group.channels[..j])
    requires forall channel :: channel in before ==>
               before[channel] == (if channel in mapping0 then mapping0[channel] else [])
                                  + Repeat(group.lights, Count(group.channels[..j], channel))
    requires after == before[group.channels[j] :=
               (if group.channels[j] in before then before[group.channels[j]] else []) + group.lights]
    ensures after.Keys == mapping0.Keys + Elements(group.channels[..j + 1])
    ensures forall channel :: channel in after ==>
              after[channel] == (if channel in mapping0 then mapping0[channel] else [])
                                + Repeat(group.lights, Count(group.channels[..j + 1], channel))
  {
    ElementsSnoc(group.channels, j);
    AddGroupEntries(mapping0, before, after, group, j);
  }

  lemma AddGroupEntries(mapping0: Mapping, before: Mapping, after: Mapping, group: Group, j: nat)
    requires j < |group.channels|
    requires before.Keys == mapping0.Keys + Elements(group.channels[..j])
    requires forall channel :: channel in before ==>
               before[channel] == (if channel in mapping0 then mapping0[channel] else [])
                                  + Repeat(group.lights, Count(group.channels[..j], channel))
    requires after == before[group.channels[j] :=
               (if group.channels[j] in before then before[group.channels[j]] else []) + group.lights]
    ensures forall channel :: channel in after ==>
              after[channel] == (if channel in mapping0 then mapping0[channel] else [])
                                + Repeat(group.lights, Count(group.channels[..j + 1], channel))
  {
    forall c | c in after
      ensures after[c] == (if c in mapping0 then mapping0[c] else [])
                          + Repeat(group.lights, Count(group.channels[..j + 1], c))
    {
      CountSnoc(group.channels, j, c);
      if c == group.channels[j] {
        AppendedEntry(if c in mapping0 then mapping0[c] else [], group.lights, Count(group.channels[..j], c));
      }
    }
  }

  /** Extending a channel's list by the group's lights once more. */
  lemma AppendedEntry(base: seq<LightRule>, lights: seq<LightRule>, n: nat)
    ensures (base + Repeat(lights, n)) + lights == base + Repeat(lights, n + 1)
    ensures n == 0 ==> base + Repeat(lights, n + 1) == base + lights
  {
    assert Repeat(lights, 0) == [];
  }

  lemma CountSnoc(xs: seq<int>, j: nat, x: int)
    requires j < |xs|
    ensures Count(xs[..j + 1], x) == Count(xs[..j], x) + (if xs[j] == x then 1 else 0)
  {
    assert xs[..j + 1][..j] == xs[..j];
  }

  lemma ElementsSnoc(xs: seq<int>, j: nat)
    requires j < |xs|
    ensures Elements(xs[..j + 1]) == Elements(xs[..j]) + {xs[j]}
  {
    assert xs[..j + 1][..j] == xs[..j];
  }

  lemma RulesForSnoc(groups: seq<Group>, i: nat, channel: int)
    requires i < |groups|
    ensures RulesFor(groups[..i + 1], channel)
            == RulesFor(groups[..i], channel) + Repeat(groups[i].lights, Count(groups[i].channels, channel))
    ensures NamedChannels(groups[..i + 1]) == NamedChannels(groups[..i]) + Elements(groups[i].channels)
  {
    assert groups[..i + 1][..i] == groups[..i];
  }

  /** The second loop of `__init__`: channel by channel in dictionary order,
      collect light names in a set and report the first one seen twice. */
  method FindDuplicate(mapping: Mapping, order: seq<int>) returns (dup: Option<ConfigError>)
    requires forall channel :: channel in order <==> channel in mapping
    ensures dup.None? <==> MappingValid(mapping)
    ensures dup.Some? ==> dup.value.channel in mapping && Repeats(mapping[dup.value.channel], dup.value.light)
  {
    var i := 0;
    while i < |order|
      invariant 0 <= i <= |order|
      invariant forall k :: 0 <= k < i ==> order[k] in mapping && !HasDuplicateLight(mapping[order[k]])
    {
      var channel := order[i];
      var lights := mapping[channel];
      var seen: set<string> := {};
      var j := 0;
      while j < |lights|
        invariant 0 <= j <= |lights|
        invariant seen == set k | 0 <= k < j :: lights[k].light
        invariant forall a, b :: 0 <= a < b < j ==> lights[a].light != lights[b].light
      {
        if lights[j].light in seen {
          var k :| 0 <= k < j && lights[k].light == lights[j].light;
          assert Repeats(lights, lights[j].light);
          return Some(DuplicateLight(channel, lights[j].light));
        }
        seen := seen + {lights[j].light};
        j := j + 1;
      }
      i := i + 1;
    }
    forall channel | channel in mapping
      ensures !HasDuplicateLight(mapping[channel])
    {
      var k :| 0 <= k < |order| && order[k] == channel;
    }
    return None;
  }

  /** The same light on two different channels is accepted. */
  lemma SameLightOnTwoChannels(c1: int, c2: int, rule: LightRule)
    requires c1 != c2
    ensures ConfigValid([Group([c1], [rule]), Group([c2], [rule])])
  {
    var groups := [Group([c1], [rule]), Group([c2], [rule])];
    assert groups[..1][..0] == [];
    assert groups[..1] == [Group([c1], [rule])];
    assert [c1][..0] == [] && [c2][..0] == [];
    assert Repeat([rule], 1) == [rule];
    forall channel | channel in NamedChannels(groups)
      ensures !HasDuplicateLight(RulesFor(groups, channel))
    {
      assert RulesFor(groups[..1], channel) == Repeat([rule], Count([c1], channel));
      assert RulesFor(groups, channel) == RulesFor(groups[..1], channel) + Repeat([rule], Count([c2], channel));
      assert Count([c1], channel) == (if c1 == channel then 1 else 0);
      assert Count([c2], channel) == (if c2 == channel then 1 else 0);
    }
  }

  /** Two groups that give one channel the same light are refused. */
  lemma SameLightTwiceOnOneChannel(c: int, r1: LightRule, r2: LightRule)
    requires r1.light == r2.light
    ensures !ConfigValid([Group([c], [r1]), Group([c], [r2])])
  {
    var groups := [Group([c], [r1]), Group([c], [r2])];
    assert groups[..1][..0] == [];
    assert groups[..1] == [Group([c], [r1])];
    assert [c][..0] == [];
    assert Repeat([r1], 0) == [] && Repeat([r2], 0) == [];
    assert Repeat([r1], 1) == [r1] && Repeat([r2], 1) == [r2];
    assert Count([c], c) == 1;
    assert RulesFor(groups[..1], c) == [r1];
    assert RulesFor(groups, c) == [r1] + [r2];
    var rules := RulesFor(groups, c);
    assert rules[0].light == rules[1].light;
    assert c in Elements([c]);
    assert c in NamedChannels(groups);
  }

  /** A group that lists one channel twice gives that channel its lights
      twice, so construction is refused. */
  lemma ChannelListedTwice(group: Group, c: int)
    requires Count(group.channels, c) >= 2 && group.lights != []
    ensures !ConfigValid([group])
  {
    var groups := [group];
    assert groups[..0] == [];
    var n := Count(group.channels, c);
    var rules := RulesFor(groups, c);
    assert rules == Repeat(group.lights, n);
    RepeatTwice(group.lights, n);
    var k := |group.lights|;
    assert rules[0].light == rules[k].light;
    assert c in NamedChannels(groups);
  }

  lemma {:induction false} RepeatTwice(rules: seq<LightRule>, n: nat)
    requires n >= 2 && rules != []
    ensures |Repeat(rules, n)| >= 2 * |rules|
    ensures Repeat(rules, n)[0] == rules[0] && Repeat(rules, n)[|rules|] == rules[0]
    decreases n
  {
    if n == 2 {
      assert Repeat(rules, 1) == rules;
      assert Repeat(rules, 2) == rules + rules;
    } else {
      RepeatTwice(rules, n - 1);
      assert Repeat(rules, n) == Repeat(rules, n - 1) + rules;
    }
  }
}
