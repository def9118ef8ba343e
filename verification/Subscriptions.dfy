/** Which channels the relay is asked for, and with which coarse filter. */
module Subscriptions {
  import opened Wrappers

  /** A channel id. How it is written is left to a codec that reads back what it prints,
      and may read other spellings as well. */
  type Uuid = nat

  datatype UuidCodec = UuidCodec(parse: string -> Option<Uuid>, render: Uuid -> string)
  {
    ghost predicate Lawful() {
      forall u: Uuid :: parse(render(u)) == Some(u)
    }
  }

  /** `All` applies to every channel when its text is exactly "all". */
  datatype ChannelScope = All(text: string) | List(ids: seq<string>)

  datatype Rule = Rule(
    name: string, channels: ChannelScope, kinds: seq<nat>, requireMention: bool,
    hasFilter: bool, promptTag: Option<string>)

  /** The coarse filter of one channel; no kinds means every kind. */
  datatype ChannelFilter = ChannelFilter(kinds: Option<seq<nat>>, requireMention: bool)

  datatype Mode = Mentions | AllMessages | ConfiguredRules

  datatype Config = Config(
    mode: Mode, kindsOverride: Option<seq<nat>>, channelsOverride: Option<seq<string>>, noMentionFilter: bool)

  const KIND_STREAM_MESSAGE := 9
  const KIND_STREAM_REMINDER := 40007
  const KIND_WORKFLOW_APPROVAL_REQUESTED := 46010
  const DEFAULT_KINDS: seq<nat> := [KIND_STREAM_MESSAGE, KIND_WORKFLOW_APPROVAL_REQUESTED, KIND_STREAM_REMINDER]

  predicate Lists(codec: UuidCodec, ids: seq<string>, ch: Uuid) {
    exists i :: 0 <= i < |ids| && codec.parse(ids[i]) == Some(ch)
  }

  /** The resolver's test: listed ids are parsed. */
  predicate RuleApplies(codec: UuidCodec, rule: Rule, ch: Uuid) {
    match rule.channels
    case All(text) => text == "all"
    case List(ids) => Lists(codec, ids, ch)
  }

  // ----- The filter of one channel

  function Push(kinds: seq<nat>, k: nat): seq<nat> {
    if k in kinds then kinds else kinds + [k]
  }

  function PushAll(kinds: seq<nat>, more: seq<nat>): seq<nat> {
    if more == [] then kinds else Push(PushAll(kinds, more[..|more| - 1]), more[|more| - 1])
  }

  /** Rules merged so far for a channel. */
  datatype Merged = Merged(kinds: Option<seq<nat>>, requireMention: bool, hasRule: bool)

  function MergeRule(codec: UuidCodec, acc: Merged, rule: Rule, ch: Uuid): Merged {
    if !RuleApplies(codec, rule, ch) then acc else
    Merged(
      if rule.kinds == [] || acc.kinds.None? then None else Some(PushAll(acc.kinds.value, rule.kinds)),
      acc.requireMention && rule.requireMention,
      true)
  }

  function MergeRules(codec: UuidCodec, rules: seq<Rule>, ch: Uuid): Merged {
    if rules == [] then Merged(Some([]), true, false)
    else MergeRule(codec, MergeRules(codec, rules[..|rules| - 1], ch), rules[|rules| - 1], ch)
  }

  /** The filter a channel gets, or none when it is out of scope. */
  function Resolve(codec: UuidCodec, config: Config, rules: seq<Rule>, ch: Uuid): Option<ChannelFilter> {
    match config.mode
    case ConfiguredRules =>
      var m := MergeRules(codec, rules, ch);
      if m.hasRule then Some(ChannelFilter(m.kinds, m.requireMention)) else None
    case mode =>
      if config.channelsOverride.Some? && !Lists(codec, config.channelsOverride.value, ch) then None
      else if mode.Mentions? then
        Some(ChannelFilter(Some(if config.kindsOverride.Some? then config.kindsOverride.value else DEFAULT_KINDS),
                           !config.noMentionFilter))
      else Some(ChannelFilter(config.kindsOverride, false))
  }

  // ----- What the merge means

  predicate NoDuplicates(xs: seq<nat>) {
    forall i, j :: 0 <= i < j < |xs| ==> xs[i] != xs[j]
  }

  /** Some rule for the channel lists the kind. */
  ghost predicate SomeRuleHasKind(codec: UuidCodec, rules: seq<Rule>, ch: Uuid, k: nat) {
    exists r :: r in rules && RuleApplies(codec, r, ch) && k in r.kinds
  }

  ghost predicate SomeRuleIsWildcard(codec: UuidCodec, rules: seq<Rule>, ch: Uuid) {
    exists r :: r in rules && RuleApplies(codec, r, ch) && r.kinds == []
  }

  lemma {:induction false} PushAllIsUnion(kinds: seq<nat>, more: seq<nat>, k: nat)
    ensures k in PushAll(kinds, more) <==> k in kinds || k in more
  {
    if more != [] {
      PushAllIsUnion(kinds, more[..|more| - 1], k);
      assert more == more[..|more| - 1] + [more[|more| - 1]];
    }
  }

  lemma {:induction false} PushAllKeepsDistinct(kinds: seq<nat>, more: seq<nat>)
    requires NoDuplicates(kinds)
    ensures NoDuplicates(PushAll(kinds, more))
  {
    if more != [] {
      PushAllKeepsDistinct(kinds, more[..|more| - 1]);
    }
  }

  /** The merge of any rule list, stated without its order: a channel has a filter when
      some rule applies; it is a wildcard when some applying rule is; otherwise it lists
      every kind of an applying rule exactly once; and it requires a mention when every
      applying rule does. */
  lemma {:induction false} MergeMeaning(codec: UuidCodec, rules: seq<Rule>, ch: Uuid, k: nat)
    ensures var m := MergeRules(codec, rules, ch);
            && (m.hasRule <==> exists r :: r in rules && RuleApplies(codec, r, ch))
            && (m.kinds.None? <==> SomeRuleIsWildcard(codec, rules, ch))
            && (m.kinds.Some? ==> NoDuplicates(m.kinds.value))
            && (m.kinds.Some? ==> (k in m.kinds.value <==> SomeRuleHasKind(codec, rules, ch, k)))
            && (m.requireMention <==> forall r :: r in rules && RuleApplies(codec, r, ch) ==> r.requireMention)
  {
    if rules != [] {
      var before, rule := rules[..|rules| - 1], rules[|rules| - 1];
      MergeMeaning(codec, before, ch, k);
      assert rules == before + [rule];
      assert forall r :: r in rules <==> r in before || r == rule;
      var acc := MergeRules(codec, before, ch);
      if RuleApplies(codec, rule, ch) && acc.kinds.Some? {
        PushAllIsUnion(acc.kinds.value, rule.kinds, k);
        PushAllKeepsDistinct(acc.kinds.value, rule.kinds);
      }
    }
  }

  /** Two filters that admit the same events. */
  ghost predicate SameFilter(a: Merged, b: Merged) {
    && a.hasRule == b.hasRule && a.requireMention == b.requireMention && a.kinds.None? == b.kinds.None?
    && (a.kinds.Some? ==> forall k :: k in a.kinds.value <==> k in b.kinds.value)
  }

  /** Reordering or repeating rules does not change what the filter admits. */
  lemma OrderDoesNotMatter(codec: UuidCodec, rules: seq<Rule>, other: seq<Rule>, ch: Uuid)
    requires forall r :: r in rules <==> r in other
    ensures SameFilter(MergeRules(codec, rules, ch), MergeRules(codec, other, ch))
  {
    var a, b := MergeRules(codec, rules, ch), MergeRules(codec, other, ch);
    forall k
      ensures a.hasRule == b.hasRule && a.requireMention == b.requireMention && a.kinds.None? == b.kinds.None?
      ensures a.kinds.Some? ==> (k in a.kinds.value <==> k in b.kinds.value)
    {
      MergeMeaning(codec, rules, ch, k);
      MergeMeaning(codec, other, ch, k);
    }
    MergeMeaning(codec, rules, ch, 0);
    MergeMeaning(codec, other, ch, 0);
  }

  // ----- What a channel gets, in the fields of the configuration

  /** Outside the rules mode a channel is in scope exactly when there is no override or one
      of its ids is the channel. The filter then comes from the two override fields, and
      the rules do not matter. */
  lemma ModeDecidesTheFilter(codec: UuidCodec, config: Config, rules: seq<Rule>, ch: Uuid)
    requires !config.mode.ConfiguredRules?
    ensures var f, ids, kinds := Resolve(codec, config, rules, ch), config.channelsOverride, config.kindsOverride;
            && (f.Some? <==> ids.None? || exists i :: 0 <= i < |ids.value| && codec.parse(ids.value[i]) == Some(ch))
            && (f.Some? && config.mode.AllMessages? ==> f.value.kinds == kinds && !f.value.requireMention)
            && (f.Some? && config.mode.Mentions? ==>
                  && f.value.kinds == Some(if kinds.Some? then kinds.value else [9, 46010, 40007])
                  && (f.value.requireMention <==> !config.noMentionFilter))
  {
  }

  /** In the rules mode the overrides do not matter: a channel is in scope exactly when some
      rule covers all channels or lists an id that parses to it; it admits every kind when
      some such rule names none, and otherwise the kinds they name; and it requires a
      mention when all of them do. */
  lemma RulesDecideTheFilter(codec: UuidCodec, config: Config, rules: seq<Rule>, ch: Uuid, mine: set<Rule>, k: nat)
    requires config.mode.ConfiguredRules?
    requires forall r :: r in mine <==>
               r in rules && match r.channels
                             case All(text) => text == "all"
                             case List(ids) => exists i :: 0 <= i < |ids| && codec.parse(ids[i]) == Some(ch)
    ensures var f := Resolve(codec, config, rules, ch);
            && (f.Some? <==> mine != {})
            && (f.Some? ==>
                  && (f.value.kinds.None? <==> exists r :: r in mine && r.kinds == [])
                  && (f.value.kinds.Some? ==> (k in f.value.kinds.value <==> exists r :: r in mine && k in r.kinds))
                  && (f.value.requireMention <==> forall r :: r in mine ==> r.requireMention))
  {
    MergeMeaning(codec, rules, ch, k);
    assert forall r :: r in mine <==> r in rules && RuleApplies(codec, r, ch);
  }

  // ----- The two resolvers

  method AddKinds(kinds: seq<nat>, more: seq<nat>) returns (all: seq<nat>)
    ensures all == PushAll(kinds, more)
  {
    all := kinds;
    for i := 0 to |more|
      invariant all == PushAll(kinds, more[..i])
    {
      assert more[..i + 1][..i] == more[..i];
      if more[i] !in all {
        all := all + [more[i]];
      }
    }
    assert more[..|more|] == more;
  }

  /** The parsed overrides that were discovered, or every discovered channel. */
  method TargetChannels(codec: UuidCodec, config: Config, discovered: seq<Uuid>) returns (targets: seq<Uuid>)
    ensures forall ch :: ch in targets <==>
              ch in discovered && (config.channelsOverride.Some? ==> Lists(codec, config.channelsOverride.value, ch))
  {
    if config.channelsOverride.None? {
      return discovered;
    }
    var ids := config.channelsOverride.value;
    targets := [];
    for i := 0 to |ids|
      invariant forall ch :: ch in targets <==> ch in discovered && Lists(codec, ids[..i], ch)
    {
      var u := codec.parse(ids[i]);
      if u.Some? && u.value in discovered {
        targets := targets + [u.value];
      }
      forall ch: Uuid ensures Lists(codec, ids[..i + 1], ch) <==> Lists(codec, ids[..i], ch) || u == Some(ch) {
        ListsSnoc(codec, ids, i, ch);
      }
    }
    assert ids[..|ids|] == ids;
  }

  lemma ListsSnoc(codec: UuidCodec, ids: seq<string>, i: nat, ch: Uuid)
    requires i < |ids|
    ensures Lists(codec, ids[..i + 1], ch) <==> Lists(codec, ids[..i], ch) || codec.parse(ids[i]) == Some(ch)
  {
    if Lists(codec, ids[..i], ch) {
      var j :| 0 <= j < i && codec.parse(ids[..i][j]) == Some(ch);
      assert codec.parse(ids[..i + 1][j]) == Some(ch);
    }
    if Lists(codec, ids[..i + 1], ch) {
      var j :| 0 <= j < i + 1 && codec.parse(ids[..i + 1][j]) == Some(ch);
      assert j < i ==> codec.parse(ids[..i][j]) == Some(ch);
    }
    if codec.parse(ids[i]) == Some(ch) {
      assert codec.parse(ids[..i + 1][i]) == Some(ch);
    }
  }

  function Get(m: map<Uuid, ChannelFilter>, ch: Uuid): Option<ChannelFilter> {
    if ch in m then Some(m[ch]) else None
  }

  /** The batch resolver, at startup: every discovered channel gets exactly the filter
      that the incremental resolver would give it, and no other channel gets one. */
  method ResolveChannelFilters(codec: UuidCodec, config: Config, discovered: seq<Uuid>, rules: seq<Rule>)
    returns (result: map<Uuid, ChannelFilter>)
    ensures forall ch :: ch in discovered ==> Get(result, ch) == Resolve(codec, config, rules, ch)
    ensures forall ch :: ch in result ==> ch in discovered
  {
    result := map[];
    var targets := TargetChannels(codec, config, discovered);
    match config.mode {
      case Mentions =>
        var kinds := if config.kindsOverride.Some? then config.kindsOverride.value else DEFAULT_KINDS;
        result := GiveAll(targets, ChannelFilter(Some(kinds), !config.noMentionFilter));
      case AllMessages =>
        result := GiveAll(targets, ChannelFilter(config.kindsOverride, false));
      case ConfiguredRules =>
        result := ResolveByRules(codec, config, discovered, rules);
    }
  }

  method GiveAll(targets: seq<Uuid>, filter: ChannelFilter) returns (result: map<Uuid, ChannelFilter>)
    ensures forall ch :: Get(result, ch) == if ch in targets then Some(filter) else None
  {
    result := map[];
    for i := 0 to |targets|
      invariant forall ch :: Get(result, ch) == if ch in targets[..i] then Some(filter) else None
    {
      result := result[targets[i] := filter];
      assert targets[..i + 1] == targets[..i] + [targets[i]];
    }
    assert targets[..|targets|] == targets;
  }

  method ResolveByRules(codec: UuidCodec, config: Config, discovered: seq<Uuid>, rules: seq<Rule>)
    returns (result: map<Uuid, ChannelFilter>)
    requires config.mode.ConfiguredRules?
    ensures forall ch :: Get(result, ch) == if ch in discovered then Resolve(codec, config, rules, ch) else None
  {
    result := map[];
    for c := 0 to |discovered|
      invariant forall ch :: Get(result, ch) == if ch in discovered[..c] then Resolve(codec, config, rules, ch) else None
    {
      var ch := discovered[c];
      var mergedKinds: Option<seq<nat>> := Some([]);
      var requireMention := true;
      var hasRule := false;
      for i := 0 to |rules|
        invariant Merged(mergedKinds, requireMention, hasRule) == MergeRules(codec, rules[..i], ch)
      {
        var rule := rules[i];
        assert rules[..i + 1][..i] == rules[..i];
        if RuleApplies(codec, rule, ch) {
          hasRule := true;
          if rule.kinds == [] {
            mergedKinds := None;
          } else if mergedKinds.Some? {
            var kinds := AddKinds(mergedKinds.value, rule.kinds);
            mergedKinds := Some(kinds);
          }
          if !rule.requireMention {
            requireMention := false;
          }
        }
      }
      assert rules[..|rules|] == rules;
      if hasRule {
        result := result[ch := ChannelFilter(mergedKinds, requireMention)];
      }
      assert discovered[..c + 1] == discovered[..c] + [ch];
    }
    assert discovered[..|discovered|] == discovered;
  }

  /** The incremental resolver, for one channel discovered later. */
  method ResolveDynamicChannelFilter(codec: UuidCodec, config: Config, ch: Uuid, rules: seq<Rule>)
    returns (filter: Option<ChannelFilter>)
    ensures filter == Resolve(codec, config, rules, ch)
  {
    if !config.mode.ConfiguredRules? && config.channelsOverride.Some? {
      var ids := config.channelsOverride.value;
      var allowed := exists i :: 0 <= i < |ids| && codec.parse(ids[i]) == Some(ch);
      if !allowed {
        return None;
      }
    }
    match config.mode {
      case Mentions =>
        var kinds := if config.kindsOverride.Some? then config.kindsOverride.value else DEFAULT_KINDS;
        filter := Some(ChannelFilter(Some(kinds), !config.noMentionFilter));
      case AllMessages =>
        filter := Some(ChannelFilter(config.kindsOverride, false));
      case ConfiguredRules =>
        var acc := Merged(Some([]), true, false);
        for i := 0 to |rules|
          invariant acc == MergeRules(codec, rules[..i], ch)
        {
          var rule := rules[i];
          assert rules[..i + 1][..i] == rules[..i];
          if !RuleApplies(codec, rule, ch) {
            continue;
          }
          acc := acc.(hasRule := true);
          if rule.kinds == [] {
            acc := acc.(kinds := None);
          } else if acc.kinds.Some? {
            var kinds := AddKinds(acc.kinds.value, rule.kinds);
            acc := acc.(kinds := Some(kinds));
          }
          if !rule.requireMention {
            acc := acc.(requireMention := false);
          }
        }
        assert rules[..|rules|] == rules;
        if !acc.hasRule {
          return None;
        }
        filter := Some(ChannelFilter(acc.kinds, acc.requireMention));
    }
  }
}

/** The local matcher behind the coarse filter: ordered rules, first match wins, and
    anything wrong with a filter expression fails closed. */
module RuleMatching {
  import opened Wrappers
  import opened Subscriptions

  const MAX_CONSECUTIVE_TIMEOUTS := 5

  datatype Event = Event(kind: nat, tags: seq<seq<string>>)

  /** What evaluating a rule's expression on an event gives. */
  datatype Verdict = True | False | Timeout | Error

  /** An event as it arrives, with the verdict each rule's expression would give on it. */
  datatype Occurrence = Occurrence(event: Event, channel: Uuid, agent: string, verdict: nat -> Verdict)

  datatype MatchedRule = MatchedRule(index: nat, promptTag: string)

  predicate Mentioned(event: Event, agent: string) {
    exists i :: 0 <= i < |event.tags| && |event.tags[i]| >= 2 && event.tags[i][0] == "p" && event.tags[i][1] == agent
  }

  /** The matcher's channel test: listed ids are compared as text. */
  predicate ScopeMatches(codec: UuidCodec, scope: ChannelScope, ch: Uuid) {
    match scope
    case All(text) => text == "all"
    case List(ids) => codec.render(ch) in ids
  }

  /** The checks before the filter expression. */
  predicate Reaches(codec: UuidCodec, rule: Rule, o: Occurrence) {
    && ScopeMatches(codec, rule.channels, o.channel)
    && (rule.kinds == [] || o.event.kind in rule.kinds)
    && (rule.requireMention ==> Mentioned(o.event, o.agent))
  }

  /** What a rule does to an event that no earlier rule has decided. */
  datatype Outcome = Pass | Win | FailClosed

  function OutcomeOf(codec: UuidCodec, rule: Rule, timeouts: nat, o: Occurrence, i: nat): Outcome {
    if !Reaches(codec, rule, o) then Pass
    else if !rule.hasFilter then Win
    else if timeouts >= MAX_CONSECUTIVE_TIMEOUTS then FailClosed
    else match o.verdict(i)
         case True => Win
         case False => Pass
         case _ => FailClosed
  }

  /** The rule's timeout counter after it was asked. */
  function TimeoutsAfter(codec: UuidCodec, rule: Rule, timeouts: nat, o: Occurrence, i: nat): nat {
    if !Reaches(codec, rule, o) || !rule.hasFilter || timeouts >= MAX_CONSECUTIVE_TIMEOUTS then timeouts
    else match o.verdict(i)
         case Timeout => timeouts + 1
         case Error => timeouts
         case _ => 0
  }

  /** Rule `i` is the first that does not let the event pass. */
  predicate Decides(codec: UuidCodec, rules: seq<Rule>, timeouts: seq<nat>, o: Occurrence, i: nat)
    requires |timeouts| == |rules|
  {
    i < |rules| && OutcomeOf(codec, rules[i], timeouts[i], o, i) != Pass
    && forall j :: 0 <= j < i ==> OutcomeOf(codec, rules[j], timeouts[j], o, j) == Pass
  }

  function DecidingRule(codec: UuidCodec, rules: seq<Rule>, timeouts: seq<nat>, o: Occurrence, from: nat): (d: nat)
    requires |timeouts| == |rules| && from <= |rules|
    requires forall j :: 0 <= j < from ==> OutcomeOf(codec, rules[j], timeouts[j], o, j) == Pass
    ensures d < |rules| ==> Decides(codec, rules, timeouts, o, d)
    ensures d >= |rules| ==> d == |rules| && forall j :: 0 <= j < |rules| ==> OutcomeOf(codec, rules[j], timeouts[j], o, j) == Pass
    decreases |rules| - from
  {
    if from == |rules| || OutcomeOf(codec, rules[from], timeouts[from], o, from) != Pass then from
    else DecidingRule(codec, rules, timeouts, o, from + 1)
  }

  function Match(codec: UuidCodec, rules: seq<Rule>, timeouts: seq<nat>, o: Occurrence): Option<nat>
    requires |timeouts| == |rules|
  {
    var d := DecidingRule(codec, rules, timeouts, o, 0);
    if d < |rules| && OutcomeOf(codec, rules[d], timeouts[d], o, d).Win? then Some(d) else None
  }

  /** The counters after the event: only rules up to the deciding one were asked. */
  function Counters(codec: UuidCodec, rules: seq<Rule>, timeouts: seq<nat>, o: Occurrence): (after: seq<nat>)
    requires |timeouts| == |rules|
    ensures |after| == |rules|
  {
    var d := DecidingRule(codec, rules, timeouts, o, 0);
    seq(|rules|, i requires 0 <= i < |rules| && |timeouts| == |rules| =>
      if i <= d then TimeoutsAfter(codec, rules[i], timeouts[i], o, i) else timeouts[i])
  }

  class RuleMatcher {
    const rules: seq<Rule>
    var consecutiveTimeouts: seq<nat>

    predicate Valid()
      reads this
    {
      |consecutiveTimeouts| == |rules| && forall i :: 0 <= i < |rules| ==> consecutiveTimeouts[i] <= MAX_CONSECUTIVE_TIMEOUTS
    }

    constructor (rules: seq<Rule>)
      ensures Valid() && this.rules == rules && consecutiveTimeouts == seq(|rules|, _ => 0)
    {
      this.rules := rules;
      consecutiveTimeouts := seq(|rules|, _ => 0);
    }

    /** The first rule whose checks all pass; none at all once a filter is disabled,
        times out or errs before that. */
    method MatchEvent(codec: UuidCodec, o: Occurrence) returns (r: Option<MatchedRule>)
      requires Valid()
      modifies this`consecutiveTimeouts
      ensures Valid()
      ensures r.Some? <==> Match(codec, rules, old(consecutiveTimeouts), o).Some?
      ensures r.Some? ==>
                && Match(codec, rules, old(consecutiveTimeouts), o) == Some(r.value.index)
                && r.value.index < |rules|
                && var rule := rules[r.value.index];
                   r.value.promptTag == if rule.promptTag.Some? then rule.promptTag.value else rule.name
      ensures consecutiveTimeouts == Counters(codec, rules, old(consecutiveTimeouts), o)
    {
      ghost var before := consecutiveTimeouts;
      ghost var d := DecidingRule(codec, rules, before, o, 0);
      var index := 0;
      while index < |rules|
        invariant 0 <= index <= |rules| && index <= d && Valid()
        invariant forall i :: 0 <= i < |rules| ==>
                    consecutiveTimeouts[i] == if i < index then TimeoutsAfter(codec, rules[i], before[i], o, i) else before[i]
      {
        var rule := rules[index];
        if !ScopeMatches(codec, rule.channels, o.channel) {
          index := index + 1;
          continue;
        }
        if rule.kinds != [] && o.event.kind !in rule.kinds {
          index := index + 1;
          continue;
        }
        if rule.requireMention && !Mentioned(o.event, o.agent) {
          index := index + 1;
          continue;
        }
        if rule.hasFilter {
          if consecutiveTimeouts[index] >= MAX_CONSECUTIVE_TIMEOUTS {
            return None;
          }
          match o.verdict(index) {
            case True =>
              consecutiveTimeouts := consecutiveTimeouts[index := 0];
            case False =>
              consecutiveTimeouts := consecutiveTimeouts[index := 0];
              index := index + 1;
              continue;
            case Timeout =>
              consecutiveTimeouts := consecutiveTimeouts[index := consecutiveTimeouts[index] + 1];
              return None;
            case Error =>
              return None;
          }
        }
        return Some(MatchedRule(index, if rule.promptTag.Some? then rule.promptTag.value else rule.name));
      }
      return None;
    }
  }

  // ----- First match, fail closed

  /** The rule passes every check, its filter expression included. */
  predicate PassesAll(codec: UuidCodec, rule: Rule, timeouts: nat, o: Occurrence, i: nat) {
    Reaches(codec, rule, o) && (rule.hasFilter ==> timeouts < MAX_CONSECUTIVE_TIMEOUTS && o.verdict(i).True?)
  }

  /** The event reaches the rule's filter, which is disabled, times out or errs. */
  predicate Broken(codec: UuidCodec, rule: Rule, timeouts: nat, o: Occurrence, i: nat) {
    Reaches(codec, rule, o) && rule.hasFilter
    && (timeouts >= MAX_CONSECUTIVE_TIMEOUTS || o.verdict(i).Timeout? || o.verdict(i).Error?)
  }

  /** The matcher picks rule `i` exactly when `i` passes every check and every earlier rule
      neither passes them nor is broken for the event. */
  lemma FirstMatchFailsClosed(codec: UuidCodec, rules: seq<Rule>, timeouts: seq<nat>, o: Occurrence, i: nat)
    requires |timeouts| == |rules| && i < |rules|
    ensures Match(codec, rules, timeouts, o) == Some(i) <==>
              && PassesAll(codec, rules[i], timeouts[i], o, i)
              && forall j :: 0 <= j < i ==>
                   !PassesAll(codec, rules[j], timeouts[j], o, j) && !Broken(codec, rules[j], timeouts[j], o, j)
  {
    var d := DecidingRule(codec, rules, timeouts, o, 0);
    forall j | 0 <= j < |rules|
      ensures OutcomeOf(codec, rules[j], timeouts[j], o, j).Win? <==> PassesAll(codec, rules[j], timeouts[j], o, j)
      ensures OutcomeOf(codec, rules[j], timeouts[j], o, j).FailClosed? <==> Broken(codec, rules[j], timeouts[j], o, j)
    {
    }
    assert Decides(codec, rules, timeouts, o, i) ==> d == i;
  }

  /** One rule against one event, in their fields: the channel is covered or listed as
      printed, the kind is among the rule's unless it has none, a required mention is a `p`
      tag with the agent's key, and a filter is enabled and gives true. */
  lemma RuleMatchesByFields(codec: UuidCodec, rule: Rule, timeouts: nat, o: Occurrence)
    ensures Match(codec, [rule], [timeouts], o) == Some(0) <==>
              && (rule.channels == All("all") || (rule.channels.List? && codec.render(o.channel) in rule.channels.ids))
              && (rule.kinds == [] || o.event.kind in rule.kinds)
              && (rule.requireMention ==>
                    exists t :: t in o.event.tags && |t| >= 2 && t[0] == "p" && t[1] == o.agent)
              && (rule.hasFilter ==> timeouts < 5 && o.verdict(0).True?)
  {
    FirstMatchFailsClosed(codec, [rule], [timeouts], o, 0);
    if t :| t in o.event.tags && |t| >= 2 && t[0] == "p" && t[1] == o.agent {
      var i :| 0 <= i < |o.event.tags| && o.event.tags[i] == t;
      assert Mentioned(o.event, o.agent);
    }
  }

  function CountersAfter(codec: UuidCodec, rules: seq<Rule>, timeouts: seq<nat>, run: seq<Occurrence>): (after: seq<nat>)
    requires |timeouts| == |rules|
    ensures |after| == |rules|
  {
    if run == [] then timeouts
    else Counters(codec, rules, CountersAfter(codec, rules, timeouts, run[..|run| - 1]), run[|run| - 1])
  }

  /** Over every run the counters stay within five, and a rule that reached five stays
      there for good. */
  lemma {:induction false} DisabledForGood(codec: UuidCodec, rules: seq<Rule>, timeouts: seq<nat>, run: seq<Occurrence>, i: nat)
    requires |timeouts| == |rules| && i < |rules| && timeouts[i] <= MAX_CONSECUTIVE_TIMEOUTS
    ensures CountersAfter(codec, rules, timeouts, run)[i] <= MAX_CONSECUTIVE_TIMEOUTS
    ensures timeouts[i] == MAX_CONSECUTIVE_TIMEOUTS ==>
              CountersAfter(codec, rules, timeouts, run)[i] == MAX_CONSECUTIVE_TIMEOUTS
  {
    if run != [] {
      DisabledForGood(codec, rules, timeouts, run[..|run| - 1], i);
    }
  }

  // ----- What the counters count

  /** The counters of a new matcher after a run of events. */
  function CountersOf(codec: UuidCodec, rules: seq<Rule>, run: seq<Occurrence>): (now: seq<nat>)
    ensures |now| == |rules|
  {
    CountersAfter(codec, rules, seq(|rules|, _ => 0), run)
  }

  /** Event `t` of the run has rule `i` evaluate its filter: it reaches the rule, which is
      not disabled, and no earlier rule took the event or is broken for it. */
  predicate EvaluatedAt(codec: UuidCodec, rules: seq<Rule>, run: seq<Occurrence>, i: nat, t: int) {
    0 <= t < |run| && i < |rules| &&
    var now, o := CountersOf(codec, rules, run[..t]), run[t];
    && rules[i].hasFilter && Reaches(codec, rules[i], o) && now[i] < 5
    && forall j :: 0 <= j < i ==> !PassesAll(codec, rules[j], now[j], o, j) && !Broken(codec, rules[j], now[j], o, j)
  }

  predicate TimedOutAt(codec: UuidCodec, rules: seq<Rule>, run: seq<Occurrence>, i: nat, t: int) {
    EvaluatedAt(codec, rules, run, i, t) && run[t].verdict(i).Timeout?
  }

  /** The evaluation gave true or false. */
  predicate AnsweredAt(codec: UuidCodec, rules: seq<Rule>, run: seq<Occurrence>, i: nat, t: int) {
    EvaluatedAt(codec, rules, run, i, t) && (run[t].verdict(i).True? || run[t].verdict(i).False?)
  }

  /** What the last event of a run did to a counter: an answer resets it, a timeout raises
      it, and nothing else touches it, in particular no event decided by an earlier rule. */
  lemma CounterStep(codec: UuidCodec, rules: seq<Rule>, run: seq<Occurrence>, i: nat)
    requires run != [] && i < |rules|
    ensures var n := |run| - 1;
            CountersOf(codec, rules, run)[i] ==
              if AnsweredAt(codec, rules, run, i, n) then 0
              else CountersOf(codec, rules, run[..n])[i] + if TimedOutAt(codec, rules, run, i, n) then 1 else 0
  {
    var now, o := CountersOf(codec, rules, run[..|run| - 1]), run[|run| - 1];
    var d := DecidingRule(codec, rules, now, o, 0);
    assert i <= d <==> forall j :: 0 <= j < i ==> OutcomeOf(codec, rules[j], now[j], o, j) == Pass;
    assert forall j :: 0 <= j < |rules| ==>
      (OutcomeOf(codec, rules[j], now[j], o, j) == Pass <==>
       !PassesAll(codec, rules[j], now[j], o, j) && !Broken(codec, rules[j], now[j], o, j));
  }

  /** The timeouts of rule `i` from event `s` of the run on. */
  ghost function TimeoutsFrom(codec: UuidCodec, rules: seq<Rule>, run: seq<Occurrence>, i: nat, s: int): set<int> {
    set t | s <= t < |run| && TimedOutAt(codec, rules, run, i, t)
  }

  lemma SameEvaluation(codec: UuidCodec, rules: seq<Rule>, run: seq<Occurrence>, i: nat, t: int)
    requires run != [] && t < |run| - 1
    ensures EvaluatedAt(codec, rules, run, i, t) <==> EvaluatedAt(codec, rules, run[..|run| - 1], i, t)
  {
    if 0 <= t {
      assert run[..|run| - 1][..t] == run[..t];
    }
  }

  lemma TimeoutsFromStep(codec: UuidCodec, rules: seq<Rule>, run: seq<Occurrence>, i: nat, s: int)
    requires 0 <= s < |run|
    ensures var n := |run| - 1;
            |TimeoutsFrom(codec, rules, run, i, s)| ==
              |TimeoutsFrom(codec, rules, run[..n], i, s)| + if TimedOutAt(codec, rules, run, i, n) then 1 else 0
  {
    var n := |run| - 1;
    forall t | t < n ensures TimedOutAt(codec, rules, run, i, t) <==> TimedOutAt(codec, rules, run[..n], i, t) {
      SameEvaluation(codec, rules, run, i, t);
    }
    var before := TimeoutsFrom(codec, rules, run[..n], i, s);
    assert TimeoutsFrom(codec, rules, run, i, s) == before + if TimedOutAt(codec, rules, run, i, n) then {n} else {};
  }

  /** Events `s` on of the run are those since rule `i` last gave an answer. */
  ghost predicate SinceLastAnswer(codec: UuidCodec, rules: seq<Rule>, run: seq<Occurrence>, i: nat, s: int) {
    && 0 <= s <= |run| && (s == 0 || AnsweredAt(codec, rules, run, i, s - 1))
    && forall t :: s <= t ==> !AnsweredAt(codec, rules, run, i, t)
  }

  /** Over every run the counter of a rule is the number of its evaluations that timed out
      since the last one that gave an answer. */
  lemma {:induction false} CounterCountsTimeouts(codec: UuidCodec, rules: seq<Rule>, run: seq<Occurrence>, i: nat, s: int)
    requires i < |rules| && SinceLastAnswer(codec, rules, run, i, s)
    ensures CountersOf(codec, rules, run)[i] == |TimeoutsFrom(codec, rules, run, i, s)|
  {
    if s == |run| {
      assert TimeoutsFrom(codec, rules, run, i, s) == {};
      if run != [] {
        CounterStep(codec, rules, run, i);
      }
    } else {
      var n := |run| - 1;
      forall t | t < n ensures AnsweredAt(codec, rules, run, i, t) <==> AnsweredAt(codec, rules, run[..n], i, t) {
        SameEvaluation(codec, rules, run, i, t);
      }
      assert !AnsweredAt(codec, rules, run, i, n);
      assert SinceLastAnswer(codec, rules, run[..n], i, s);
      CounterCountsTimeouts(codec, rules, run[..n], i, s);
      CounterStep(codec, rules, run, i);
      TimeoutsFromStep(codec, rules, run, i, s);
    }
  }

  lemma {:induction false} LastAnswerExists(codec: UuidCodec, rules: seq<Rule>, run: seq<Occurrence>, i: nat, from: nat) returns (s: int)
    requires from <= |run| && forall t :: from <= t ==> !AnsweredAt(codec, rules, run, i, t)
    ensures s <= from && SinceLastAnswer(codec, rules, run, i, s)
  {
    if from == 0 || AnsweredAt(codec, rules, run, i, from - 1) {
      s := from;
    } else {
      s := LastAnswerExists(codec, rules, run, i, from - 1);
    }
  }

  /** A rule is disabled exactly when five of its evaluations timed out with no answer
      after the first of them. */
  lemma DisabledExactlyWhen(codec: UuidCodec, rules: seq<Rule>, run: seq<Occurrence>, i: nat)
    requires i < |rules|
    ensures CountersOf(codec, rules, run)[i] >= 5 <==>
              exists s :: 0 <= s <= |run| && (forall t :: s <= t ==> !AnsweredAt(codec, rules, run, i, t))
                && |TimeoutsFrom(codec, rules, run, i, s)| >= 5
  {
    if s :| 0 <= s <= |run| && (forall t :: s <= t ==> !AnsweredAt(codec, rules, run, i, t))
            && |TimeoutsFrom(codec, rules, run, i, s)| >= 5
    {
      var last := LastAnswerExists(codec, rules, run, i, s);
      CounterCountsTimeouts(codec, rules, run, i, last);
      SubsetIsSmaller(TimeoutsFrom(codec, rules, run, i, s), TimeoutsFrom(codec, rules, run, i, last));
    }
    var last := LastAnswerExists(codec, rules, run, i, |run|);
    CounterCountsTimeouts(codec, rules, run, i, last);
  }

  lemma {:induction false} SubsetIsSmaller(a: set<int>, b: set<int>)
    requires a <= b
    ensures |a| <= |b|
  {
    assert b == a + (b - a);
  }

  /** After a disabled rule, no later rule is ever picked for an event that reaches it. */
  lemma {:induction false} DisabledRuleShieldsLaterRules(
    codec: UuidCodec, rules: seq<Rule>, timeouts: seq<nat>, run: seq<Occurrence>, o: Occurrence, i: nat)
    requires |timeouts| == |rules| && i < |rules| && timeouts[i] == MAX_CONSECUTIVE_TIMEOUTS
    requires rules[i].hasFilter && Reaches(codec, rules[i], o)
    ensures var picked := Match(codec, rules, CountersAfter(codec, rules, timeouts, run), o);
            picked.Some? ==> picked.value < i
  {
    DisabledForGood(codec, rules, timeouts, run, i);
    var now := CountersAfter(codec, rules, timeouts, run);
    assert Broken(codec, rules[i], now[i], o, i);
    var picked := Match(codec, rules, now, o);
    if picked.Some? {
      FirstMatchFailsClosed(codec, rules, now, o, picked.value);
    }
  }

  // ----- The coarse filter covers the fine one

  predicate Admits(filter: ChannelFilter, o: Occurrence) {
    && (filter.kinds.Some? ==> o.event.kind in filter.kinds.value)
    && (filter.requireMention ==> Mentioned(o.event, o.agent))
  }

  /** Whatever the matcher would pick, the relay was asked for: the channel has a filter
      and it admits the event. */
  lemma SubscriptionCoversMatching(codec: UuidCodec, config: Config, rules: seq<Rule>, timeouts: seq<nat>, o: Occurrence)
    requires codec.Lawful() && config.mode.ConfiguredRules? && |timeouts| == |rules|
    requires Match(codec, rules, timeouts, o).Some?
    ensures var filter := Resolve(codec, config, rules, o.channel);
            filter.Some? && Admits(filter.value, o)
  {
    var i := Match(codec, rules, timeouts, o).value;
    var rule := rules[i];
    MatchedScopeApplies(codec, rule, o.channel);
    assert rule in rules && RuleApplies(codec, rule, o.channel);
    MergeMeaning(codec, rules, o.channel, o.event.kind);
  }

  lemma MatchedScopeApplies(codec: UuidCodec, rule: Rule, ch: Uuid)
    requires codec.Lawful() && ScopeMatches(codec, rule.channels, ch)
    ensures RuleApplies(codec, rule, ch)
  {
    if rule.channels.List? {
      var i :| 0 <= i < |rule.channels.ids| && rule.channels.ids[i] == codec.render(ch);
      assert codec.parse(rule.channels.ids[i]) == Some(ch);
    }
  }

  /** Every listed id that names a channel is accompanied by the printed form of that
      channel. A config author can check this before any channel is known. */
  predicate Canonical(codec: UuidCodec, ids: seq<string>) {
    forall i :: 0 <= i < |ids| && codec.parse(ids[i]).Some? ==> codec.render(codec.parse(ids[i]).value) in ids
  }

  /** The parsed and the textual channel test agree on every channel exactly when the rule
      covers all channels or lists its ids canonically. */
  lemma ChannelTestsAgreeExactlyWhen(codec: UuidCodec, rule: Rule)
    requires codec.Lawful()
    ensures (forall ch: Uuid :: RuleApplies(codec, rule, ch) <==> ScopeMatches(codec, rule.channels, ch)) <==>
              (rule.channels.List? ==> Canonical(codec, rule.channels.ids))
  {
    forall ch: Uuid | ScopeMatches(codec, rule.channels, ch) ensures RuleApplies(codec, rule, ch) {
      MatchedScopeApplies(codec, rule, ch);
    }
    if rule.channels.List? {
      var ids := rule.channels.ids;
      if forall ch: Uuid :: RuleApplies(codec, rule, ch) <==> ScopeMatches(codec, rule.channels, ch) {
        forall i | 0 <= i < |ids| && codec.parse(ids[i]).Some? ensures codec.render(codec.parse(ids[i]).value) in ids {
          assert RuleApplies(codec, rule, codec.parse(ids[i]).value);
        }
      }
    }
  }

  /** The channel is listed by some rule, but by none in its printed form. */
  predicate OnlyMisspelt(codec: UuidCodec, rules: seq<Rule>, ch: Uuid) {
    && (exists i :: 0 <= i < |rules| && RuleApplies(codec, rules[i], ch))
    && forall i :: 0 <= i < |rules| ==> !ScopeMatches(codec, rules[i].channels, ch)
  }

  /** Every such channel is subscribed, and no event on it is ever matched. */
  lemma MisspeltChannelIsSubscribedAndNeverMatched(
    codec: UuidCodec, config: Config, rules: seq<Rule>, timeouts: seq<nat>, o: Occurrence)
    requires config.mode.ConfiguredRules? && |timeouts| == |rules| && OnlyMisspelt(codec, rules, o.channel)
    ensures Resolve(codec, config, rules, o.channel).Some?
    ensures Match(codec, rules, timeouts, o).None?
  {
    var i :| 0 <= i < |rules| && RuleApplies(codec, rules[i], o.channel);
    assert rules[i] in rules;
    MergeMeaning(codec, rules, o.channel, 0);
  }

  /** With fresh counters, some event on a channel is matched exactly when some rule lists
      the channel in its printed form or covers all channels. */
  lemma MatchableExactlyWhen(codec: UuidCodec, rules: seq<Rule>, ch: Uuid, agent: string)
    ensures var zeros := seq(|rules|, _ => 0);
            (exists o: Occurrence :: o.channel == ch && o.agent == agent && Match(codec, rules, zeros, o).Some?) <==>
            exists i :: 0 <= i < |rules| && ScopeMatches(codec, rules[i].channels, ch)
  {
    var zeros := seq(|rules|, _ => 0);
    if exists i :: 0 <= i < |rules| && ScopeMatches(codec, rules[i].channels, ch) {
      var i := FirstMatching(codec, rules, ch, 0);
      var kind := if rules[i].kinds == [] then 0 else rules[i].kinds[0];
      var o := Occurrence(Event(kind, [["p", agent]]), ch, agent, (_: nat) => True);
      assert Mentioned(o.event, agent) by {
        assert |o.event.tags[0]| >= 2 && o.event.tags[0][0] == "p" && o.event.tags[0][1] == agent;
      }
      FirstMatchFailsClosed(codec, rules, zeros, o, i);
      assert Match(codec, rules, zeros, o) == Some(i);
    }
  }

  ghost function FirstMatching(codec: UuidCodec, rules: seq<Rule>, ch: Uuid, from: nat): (i: nat)
    requires from <= |rules| && exists i :: from <= i < |rules| && ScopeMatches(codec, rules[i].channels, ch)
    requires forall j :: 0 <= j < from ==> !ScopeMatches(codec, rules[j].channels, ch)
    ensures i < |rules| && ScopeMatches(codec, rules[i].channels, ch)
    ensures forall j :: 0 <= j < i ==> !ScopeMatches(codec, rules[j].channels, ch)
    decreases |rules| - from
  {
    if ScopeMatches(codec, rules[from].channels, ch) then from else FirstMatching(codec, rules, ch, from + 1)
  }

  /** For every lawful codec with a second spelling of some channel, listing the channel by
      that spelling subscribes to it and matches nothing on it. */
  lemma SecondSpellingIsNeverMatched(codec: UuidCodec, config: Config, s: string, rule: Rule, timeouts: nat, o: Occurrence)
    requires codec.Lawful() && config.mode.ConfiguredRules?
    requires codec.parse(s) == Some(o.channel) && s != codec.render(o.channel) && rule.channels == List([s])
    ensures Resolve(codec, config, [rule], o.channel).Some? && Match(codec, [rule], [timeouts], o).None?
  {
    assert codec.parse(rule.channels.ids[0]) == Some(o.channel);
    assert RuleApplies(codec, [rule][0], o.channel);
    MisspeltChannelIsSubscribedAndNeverMatched(codec, config, [rule], [timeouts], o);
  }
}
