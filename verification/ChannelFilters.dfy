/** The relay filter of each channel, merged from the subscription rules: resolved for all
  discovered channels at once, or for one channel found later. */
module ChannelFilters {
  import opened Wrappers
  import opened EventFilter
  import opened Texts

  const KIND_STREAM_MESSAGE := 9
  const KIND_WORKFLOW_APPROVAL_REQUESTED := 46010
  const KIND_STREAM_REMINDER := 40007
  const DEFAULT_KINDS: seq<nat> := [KIND_STREAM_MESSAGE, KIND_WORKFLOW_APPROVAL_REQUESTED, KIND_STREAM_REMINDER]

  datatype Mode = Mentions | All | Config

  datatype Settings = Settings(
    mode: Mode,
    channelsOverride: Option<seq<string>>,
    kindsOverride: Option<seq<nat>>,
    noMentionFilter: bool)

  /** No kinds at all stands for every kind; an empty list admits none. */
  datatype ChannelFilter = ChannelFilter(kinds: Option<seq<nat>>, requireMention: bool)

  predicate Lists(lib: Uuids, ids: seq<string>, channel: Uuid) {
    exists id | id in ids :: lib.parse(id) == Some(channel)
  }

  /** `rule_applies_to_channel`. */
  predicate Applies(lib: Uuids, scope: Scope, channel: Uuid) {
    match scope
    case All(word) => word == "all"
    case List(ids) => Lists(lib, ids, channel)
  }

  /** What the relay lets through. */
  predicate Passes(filter: ChannelFilter, event: Event, me: string) {
    && (filter.kinds.Some? ==> event.kind in filter.kinds.value)
    && (filter.requireMention ==> EventFilter.Mentions(event, me))
  }

  // ---------------------------------------------------------------- what merging means

  ghost predicate AnyApplies(lib: Uuids, rules: seq<Rule>, channel: Uuid) {
    exists rule | rule in rules :: Applies(lib, rule.channels, channel)
  }

  /** A rule for the channel takes events of this kind. */
  ghost predicate TakesKind(lib: Uuids, rules: seq<Rule>, channel: Uuid, kind: nat) {
    exists rule | rule in rules :: Applies(lib, rule.channels, channel) && (rule.kinds == [] || kind in rule.kinds)
  }

  ghost predicate Wildcard(lib: Uuids, rules: seq<Rule>, channel: Uuid) {
    exists rule | rule in rules :: Applies(lib, rule.channels, channel) && rule.kinds == []
  }

  ghost predicate AllRequireMention(lib: Uuids, rules: seq<Rule>, channel: Uuid) {
    forall rule | rule in rules :: Applies(lib, rule.channels, channel) ==> rule.requireMention
  }

  ghost predicate Distinct(kinds: seq<nat>) {
    forall i, j | 0 <= i < j < |kinds| :: kinds[i] != kinds[j]
  }

  /** `more` behind `before`, each kind where it comes first. */
  function AddAll(before: seq<nat>, more: seq<nat>): seq<nat> {
    if more == [] then before
    else
      var kinds := AddAll(before, more[..|more| - 1]);
      if more[|more| - 1] in kinds then kinds else kinds + [more[|more| - 1]]
  }

  lemma {:induction false} AddAllAdds(before: seq<nat>, more: seq<nat>)
    requires Distinct(before)
    ensures Distinct(AddAll(before, more)) && before <= AddAll(before, more)
    ensures forall kind :: kind in AddAll(before, more) <==> kind in before || kind in more
    decreases |more|
  {
    if more != [] {
      var init, last := more[..|more| - 1], more[|more| - 1];
      AddAllAdds(before, init);
      assert forall kind :: kind in more <==> kind in init || kind == last by {
        assert more == init + [last];
      }
    }
  }

  /** The filter merged from the rules that apply to the channel. */
  function Merged(lib: Uuids, rules: seq<Rule>, channel: Uuid): ChannelFilter {
    if rules == [] then ChannelFilter(Some([]), true)
    else
      var before, rule := Merged(lib, rules[..|rules| - 1], channel), rules[|rules| - 1];
      if !Applies(lib, rule.channels, channel) then before
      else
        ChannelFilter(
          if rule.kinds == [] || before.kinds.None? then None else Some(AddAll(before.kinds.value, rule.kinds)),
          before.requireMention && rule.requireMention)
  }

  /** `kinds` is the union of the kinds of the rules for the channel, each once, or a
    wildcard if one of them is; the mention is required if all of them require it. */
  ghost predicate IsMerge(lib: Uuids, rules: seq<Rule>, channel: Uuid, filter: ChannelFilter) {
    && (filter.kinds.None? <==> Wildcard(lib, rules, channel))
    && (filter.kinds.Some? ==> Distinct(filter.kinds.value) &&
                               forall kind :: kind in filter.kinds.value <==> TakesKind(lib, rules, channel, kind))
    && (filter.requireMention <==> AllRequireMention(lib, rules, channel))
  }

  lemma MergeBegins(lib: Uuids, channel: Uuid)
    ensures IsMerge(lib, [], channel, ChannelFilter(Some([]), true)) && !AnyApplies(lib, [], channel)
  {
  }

  /** One more rule turns the merge of the earlier ones into the merge of them all. */
  lemma MergeGrows(lib: Uuids, rules: seq<Rule>, rule: Rule, channel: Uuid, before: ChannelFilter, after: ChannelFilter)
    requires IsMerge(lib, rules, channel, before)
    requires !Applies(lib, rule.channels, channel) ==> after == before
    requires Applies(lib, rule.channels, channel) ==>
               && after.requireMention == (before.requireMention && rule.requireMention)
               && (after.kinds.None? <==> before.kinds.None? || rule.kinds == [])
               && (after.kinds.Some? ==> Distinct(after.kinds.value) &&
                                         forall kind :: kind in after.kinds.value <==> kind in before.kinds.value || kind in rule.kinds)
    ensures IsMerge(lib, rules + [rule], channel, after)
  {
    hide Applies, Distinct;
    var all := rules + [rule];
    assert forall r :: r in all <==> r in rules || r == rule;
    assert Wildcard(lib, all, channel) <==>
           Wildcard(lib, rules, channel) || (Applies(lib, rule.channels, channel) && rule.kinds == []);
    forall kind
      ensures TakesKind(lib, all, channel, kind) <==>
              TakesKind(lib, rules, channel, kind) ||
              (Applies(lib, rule.channels, channel) && (rule.kinds == [] || kind in rule.kinds))
    {
    }
  }

  /** What the merged filter means. */
  lemma {:induction false} MergedMeans(lib: Uuids, rules: seq<Rule>, channel: Uuid)
    ensures IsMerge(lib, rules, channel, Merged(lib, rules, channel))
    decreases |rules|
  {
    if rules == [] {
      MergeBegins(lib, channel);
    } else {
      hide IsMerge, Applies;
      var init, rule := rules[..|rules| - 1], rules[|rules| - 1];
      MergedMeans(lib, init, channel);
      var before := Merged(lib, init, channel);
      if before.kinds.Some? {
        MergeIsDistinct(lib, init, channel, before);
        AddAllAdds(before.kinds.value, rule.kinds);
      }
      MergeGrows(lib, init, rule, channel, before, Merged(lib, rules, channel));
      assert rules == init + [rule];
    }
  }

  lemma MergeIsDistinct(lib: Uuids, rules: seq<Rule>, channel: Uuid, filter: ChannelFilter)
    requires IsMerge(lib, rules, channel, filter) && filter.kinds.Some?
    ensures Distinct(filter.kinds.value)
  {
  }

  predicate Allowed(lib: Uuids, config: Settings, channel: Uuid) {
    config.mode != Config && config.channelsOverride.Some? ==> Lists(lib, config.channelsOverride.value, channel)
  }

  function SimpleKinds(config: Settings): seq<nat> {
    if config.kindsOverride.Some? then config.kindsOverride.value else DEFAULT_KINDS
  }

  /** What the configuration means for a channel: nothing when it is out of scope,
    otherwise the filter of the mode. */
  ghost function Resolved(lib: Uuids, config: Settings, rules: seq<Rule>, channel: Uuid): Option<ChannelFilter> {
    if !Allowed(lib, config, channel) then None
    else
      match config.mode
      case Mentions => Some(ChannelFilter(Some(SimpleKinds(config)), !config.noMentionFilter))
      case All => Some(ChannelFilter(config.kindsOverride, false))
      case Config => if AnyApplies(lib, rules, channel) then Some(Merged(lib, rules, channel)) else None
  }

  // ---------------------------------------------------------------- the program

  /** The innermost loop of both resolvers. */
  method AddKinds(before: seq<nat>, more: seq<nat>) returns (kinds: seq<nat>)
    ensures kinds == AddAll(before, more)
  {
    kinds := before;
    for i := 0 to |more|
      invariant kinds == AddAll(before, more[..i])
    {
      assert more[..i + 1][..i] == more[..i];
      if more[i] !in kinds {
        kinds := kinds + [more[i]];
      }
    }
    assert more[..|more|] == more;
  }

  lemma PrefixApplies(lib: Uuids, rules: seq<Rule>, i: nat, channel: Uuid)
    requires i < |rules|
    ensures rules[..i + 1][..i] == rules[..i]
    ensures AnyApplies(lib, rules[..i + 1], channel) <==>
              AnyApplies(lib, rules[..i], channel) || Applies(lib, rules[i].channels, channel)
  {
    hide Applies;
    assert rules[..i + 1] == rules[..i] + [rules[i]];
    assert forall r :: r in rules[..i + 1] <==> r in rules[..i] || r == rules[i];
  }

  /** The merge for one channel in `resolve_channel_filters`. */
  method MergeRules(lib: Uuids, rules: seq<Rule>, channel: Uuid) returns (filter: Option<ChannelFilter>)
    ensures filter == if AnyApplies(lib, rules, channel) then Some(Merged(lib, rules, channel)) else None
  {
    hide Applies, AnyApplies, AddAll;
    var mergedKinds: Option<seq<nat>>, requireMention, hasRule := Some([]), true, false;
    MergeBegins(lib, channel);
    assert rules[..0] == [];
    for i := 0 to |rules|
      invariant ChannelFilter(mergedKinds, requireMention) == Merged(lib, rules[..i], channel)
      invariant hasRule <==> AnyApplies(lib, rules[..i], channel)
    {
      var rule := rules[i];
      PrefixApplies(lib, rules, i, channel);
      if Applies(lib, rule.channels, channel) {
        hasRule := true;
        if rule.kinds == [] {
          mergedKinds := None;
        } else if mergedKinds.Some? {
          var kinds := AddKinds(mergedKinds.value, rule.kinds);
          mergedKinds := Some(kinds);
        }
        if !rule.requireMention {
          requireMention := false;
        }
      }
    }
    assert rules[..|rules|] == rules;
    return if hasRule then Some(ChannelFilter(mergedKinds, requireMention)) else None;
  }

  /** `resolve_dynamic_channel_filter`, with its own copy of the merge. */
  method ResolveDynamicChannelFilter(lib: Uuids, config: Settings, rules: seq<Rule>, channel: Uuid)
    returns (filter: Option<ChannelFilter>)
    ensures filter == Resolved(lib, config, rules, channel)
  {
    hide Applies, AnyApplies, AddAll, Lists;
    if config.mode != Config && config.channelsOverride.Some? && !Lists(lib, config.channelsOverride.value, channel) {
      return None;
    }
    if config.mode.Mentions? {
      return Some(ChannelFilter(Some(SimpleKinds(config)), !config.noMentionFilter));
    }
    if config.mode.All? {
      return Some(ChannelFilter(config.kindsOverride, false));
    }
    var mergedKinds: Option<seq<nat>>, requireMention, hasRule := Some([]), true, false;
    MergeBegins(lib, channel);
    assert rules[..0] == [];
    for i := 0 to |rules|
      invariant ChannelFilter(mergedKinds, requireMention) == Merged(lib, rules[..i], channel)
      invariant hasRule <==> AnyApplies(lib, rules[..i], channel)
    {
      var rule := rules[i];
      PrefixApplies(lib, rules, i, channel);
      if Applies(lib, rule.channels, channel) {
        hasRule := true;
        if rule.kinds == [] {
          mergedKinds := None;
        } else if mergedKinds.Some? {
          var kinds := AddKinds(mergedKinds.value, rule.kinds);
          mergedKinds := Some(kinds);
        }
        if !rule.requireMention {
          requireMention := false;
        }
      }
    }
    assert rules[..|rules|] == rules;
    if !hasRule {
      return None;
    }
    return Some(ChannelFilter(mergedKinds, requireMention));
  }

  method TargetChannels(lib: Uuids, config: Settings, discovered: seq<Uuid>) returns (targets: seq<Uuid>)
    ensures forall channel :: channel in targets <==>
                               (channel in discovered && (config.channelsOverride.Some? ==> Lists(lib, config.channelsOverride.value, channel)))
  {
    if config.channelsOverride.None? {
      return discovered;
    }
    var overrides := config.channelsOverride.value;
    targets := [];
    for i := 0 to |overrides|
      invariant forall channel :: channel in targets <==> channel in discovered && Lists(lib, overrides[..i], channel)
    {
      var id := lib.parse(overrides[i]);
      forall channel ensures Lists(lib, overrides[..i + 1], channel) <==> Lists(lib, overrides[..i], channel) || id == Some(channel) {
        assert overrides[..i + 1] == overrides[..i] + [overrides[i]];
      }
      if id.Some? && id.value in discovered {
        targets := targets + [id.value];
      }
    }
    assert overrides[..|overrides|] == overrides;
  }

  function FilterOf(result: map<Uuid, ChannelFilter>, channel: Uuid): Option<ChannelFilter> {
    if channel in result then Some(result[channel]) else None
  }

  /** `resolve_channel_filters`: every discovered channel gets what the configuration
    means for it, and no other channel gets anything. */
  method ResolveChannelFilters(lib: Uuids, config: Settings, discovered: seq<Uuid>, rules: seq<Rule>)
    returns (result: map<Uuid, ChannelFilter>)
    ensures forall channel :: FilterOf(result, channel) ==
                              if channel in discovered then Resolved(lib, config, rules, channel) else None
  {
    hide AnyApplies, Lists, Merged;
    var targets := TargetChannels(lib, config, discovered);
    result := map[];
    match config.mode {
      case Mentions =>
        result := InsertAll(targets, ChannelFilter(Some(SimpleKinds(config)), !config.noMentionFilter));
      case All =>
        result := InsertAll(targets, ChannelFilter(config.kindsOverride, false));
      case Config =>
        for i := 0 to |discovered|
          invariant forall channel :: FilterOf(result, channel) ==
                                      if channel in discovered[..i] then Resolved(lib, config, rules, channel) else None
        {
          var channel := discovered[i];
          assert discovered[..i + 1] == discovered[..i] + [channel];
          var merged := MergeRules(lib, rules, channel);
          if merged.Some? {
            result := result[channel := merged.value];
          }
        }
        assert discovered[..|discovered|] == discovered;
    }
  }

  method InsertAll(targets: seq<Uuid>, filter: ChannelFilter) returns (result: map<Uuid, ChannelFilter>)
    ensures forall channel :: channel in result <==> channel in targets
    ensures forall channel | channel in result :: result[channel] == filter
  {
    result := map[];
    for i := 0 to |targets|
      invariant forall channel :: channel in result <==> channel in targets[..i]
      invariant forall channel | channel in result :: result[channel] == filter
    {
      assert targets[..i + 1] == targets[..i] + [targets[i]];
      result := result[targets[i] := filter];
    }
    assert targets[..|targets|] == targets;
  }

  /** Asked for any discovered channel, the two resolvers return the same filter, its kinds
    in the same order. */
  method ResolversAgree(lib: Uuids, config: Settings, discovered: seq<Uuid>, rules: seq<Rule>, channel: Uuid)
    returns (batch: Option<ChannelFilter>, dynamic: Option<ChannelFilter>)
    requires channel in discovered
    ensures batch == dynamic == Resolved(lib, config, rules, channel)
  {
    hide AnyApplies, Merged;
    var all := ResolveChannelFilters(lib, config, discovered, rules);
    batch := FilterOf(all, channel);
    dynamic := ResolveDynamicChannelFilter(lib, config, rules, channel);
  }

  // ---------------------------------------------------------------- scope

  /** The matcher's scope lies inside the resolver's. */
  lemma InScopeApplies(lib: Uuids, scope: Scope, channel: Uuid)
    requires lib.Lawful()
    ensures InScope(lib, scope, channel) ==> Applies(lib, scope, channel)
  {
    if scope.List? && InScope(lib, scope, channel) {
      assert lib.parse(lib.show(channel)) == Some(channel);
    }
  }

  /** Every entry that names a channel stands beside the canonical spelling of it. */
  ghost predicate Canonical(lib: Uuids, ids: seq<string>) {
    forall id | id in ids :: lib.parse(id).Some? ==> lib.show(lib.parse(id).value) in ids
  }

  /** The two readings of a list agree on every channel exactly when each entry that
    parses is accompanied by its canonical spelling. */
  lemma ScopesAgreeExactlyWhenCanonical(lib: Uuids, ids: seq<string>)
    requires lib.Lawful()
    ensures Canonical(lib, ids) <==>
            forall channel :: InScope(lib, List(ids), channel) <==> Applies(lib, List(ids), channel)
  {
    forall channel ensures InScope(lib, List(ids), channel) ==> Applies(lib, List(ids), channel) {
      InScopeApplies(lib, List(ids), channel);
    }
    if !Canonical(lib, ids) {
      var id :| id in ids && lib.parse(id).Some? && lib.show(lib.parse(id).value) !in ids;
      var channel := lib.parse(id).value;
      assert Applies(lib, List(ids), channel) && !InScope(lib, List(ids), channel);
    }
  }

  /** A rule whose list spells a channel in any other way subscribes to the channel and
    matches none of its events. */
  lemma OtherSpellingNeverMatches(lib: Uuids, rule: Rule, other: string, channel: Uuid, call: Call)
    requires lib.parse(other) == Some(channel) && other != lib.show(channel)
    requires rule.channels == List([other]) && call.channel == channel
    ensures Applies(lib, rule.channels, channel)
    ensures !Concerns(lib, rule, call)
  {
    assert other in [other];
  }

  // ---------------------------------------------------------------- what the relay lets through

  /** The rule is for the channel: all are meant, or some entry is read as this one. */
  ghost predicate Covers(lib: Uuids, rule: Rule, channel: Uuid) {
    || rule.channels == Scope.All("all")
    || (rule.channels.List? && exists id | id in rule.channels.ids :: lib.parse(id) == Some(channel))
  }

  /** A rule for the channel lists the kind, or lists none. */
  ghost predicate SomeTakes(lib: Uuids, rules: seq<Rule>, channel: Uuid, kind: nat) {
    exists rule | rule in rules :: Covers(lib, rule, channel) && (kind in rule.kinds || |rule.kinds| == 0)
  }

  ghost predicate SomeAnonymous(lib: Uuids, rules: seq<Rule>, channel: Uuid) {
    exists rule | rule in rules :: Covers(lib, rule, channel) && !rule.requireMention
  }

  ghost predicate SomeCovers(lib: Uuids, rules: seq<Rule>, channel: Uuid) {
    exists rule | rule in rules :: Covers(lib, rule, channel)
  }

  /** The channel is among those given by option, if any were. */
  ghost predicate Chosen(lib: Uuids, config: Settings, channel: Uuid) {
    config.channelsOverride.Some? ==> exists id | id in config.channelsOverride.value :: lib.parse(id) == Some(channel)
  }

  lemma CoversIsApplies(lib: Uuids, rules: seq<Rule>, channel: Uuid)
    ensures forall rule | rule in rules :: Covers(lib, rule, channel) <==> Applies(lib, rule.channels, channel)
  {
  }

  /** What the filter resolved for a channel lets through, mode by mode. In the first mode a
    mention is required unless that is switched off, and without an option the kinds are
    stream messages, approval requests and reminders; in the second mode only an option
    limits the kinds; in the third the rules for the channel decide. */
  lemma ResolvedLetsThrough(lib: Uuids, config: Settings, rules: seq<Rule>, channel: Uuid, event: Event, me: string)
    ensures var filter := Resolved(lib, config, rules, channel);
            && (filter.Some? <==> if config.mode.Config? then SomeCovers(lib, rules, channel) else Chosen(lib, config, channel))
            && (filter.Some? ==>
                  (Passes(filter.value, event, me) <==>
                   match config.mode
                   case Mentions =>
                     && (config.noMentionFilter || Named(event, me))
                     && (if config.kindsOverride.Some? then event.kind in config.kindsOverride.value
                         else event.kind in [9, 46010, 40007])
                   case All => config.kindsOverride.Some? ==> event.kind in config.kindsOverride.value
                   case Config =>
                     && SomeTakes(lib, rules, channel, event.kind)
                     && (SomeAnonymous(lib, rules, channel) || Named(event, me))))
  {
    NamedIsMentioned(event, me);
    if config.mode.Config? {
      MergedMeans(lib, rules, channel);
      CoversIsApplies(lib, rules, channel);
      hide Covers, Applies, Named, EventFilter.Mentions, Merged, Distinct;
      MergePasses(lib, rules, channel, Merged(lib, rules, channel), event, me);
    } else {
      hide Named, EventFilter.Mentions;
    }
  }

  lemma MergePasses(lib: Uuids, rules: seq<Rule>, channel: Uuid, filter: ChannelFilter, event: Event, me: string)
    requires IsMerge(lib, rules, channel, filter)
    ensures Passes(filter, event, me) <==>
            TakesKind(lib, rules, channel, event.kind)
            && (AllRequireMention(lib, rules, channel) ==> EventFilter.Mentions(event, me))
  {
    hide Applies, EventFilter.Mentions, Distinct;
    if filter.kinds.None? {
      var rule :| rule in rules && Applies(lib, rule.channels, channel) && rule.kinds == [];
    }
  }

  // ---------------------------------------------------------------- soundness

  /** The rules the agent starts with: its own for the two simple modes, otherwise those of
    the rule file. */
  function StartupRules(config: Settings, loaded: seq<Rule>): (rules: seq<Rule>)
    ensures config.mode != Config ==> |rules| == 1
  {
    match config.mode
    case Mentions =>
      var kinds := if config.kindsOverride.Some? then config.kindsOverride.value else DEFAULT_KINDS;
      [Rule("mentions", Scope.All("all"), kinds, !config.noMentionFilter, None, Some("@mention"), 0)]
    case All =>
      var kinds := if config.kindsOverride.Some? then config.kindsOverride.value else [];
      [Rule("all", Scope.All("all"), kinds, false, None, Some("all"), 0)]
    case Config => loaded
  }

  /** Every event that a rule can match on the channel passes the channel's filter. */
  ghost predicate Sound(lib: Uuids, rules: seq<Rule>, channel: Uuid, filter: Option<ChannelFilter>) {
    forall call: Call, k: nat | k < |rules| && call.channel == channel && Concerns(lib, rules[k], call) ::
      filter.Some? && Passes(filter.value, call.event, call.me)
  }

  /** In Config mode the merged filter of a channel misses no event that the matcher can
    match there. */
  lemma MergeIsSound(lib: Uuids, config: Settings, rules: seq<Rule>, channel: Uuid)
    requires lib.Lawful() && config.mode == Config
    ensures Sound(lib, rules, channel, Resolved(lib, config, rules, channel))
  {
    var filter := Resolved(lib, config, rules, channel);
    MergedMeans(lib, rules, channel);
    forall call: Call, k: nat | k < |rules| && call.channel == channel && Concerns(lib, rules[k], call)
      ensures filter.Some? && Passes(filter.value, call.event, call.me)
    {
      ConcernsIsApplicable(lib, rules[k], call);
      InScopeApplies(lib, rules[k].channels, channel);
      hide Applies, InScope, Merged;
      assert rules[k] in rules && AnyApplies(lib, rules, channel);
      assert TakesKind(lib, rules, channel, call.event.kind);
    }
  }

  /** The start-up rules and the resolved filter fit together in every mode, but for an
    empty list of kinds: to a rule it means every kind, to the filter none. */
  lemma SoundExactlyUnlessKindsEmpty(lib: Uuids, config: Settings, loaded: seq<Rule>, channel: Uuid)
    requires lib.Lawful() && Allowed(lib, config, channel)
    ensures Sound(lib, StartupRules(config, loaded), channel, Resolved(lib, config, StartupRules(config, loaded), channel)) <==>
            (config.mode == Config || config.kindsOverride != Some([]))
  {
    var rules := StartupRules(config, loaded);
    if config.mode == Config {
      MergeIsSound(lib, config, rules, channel);
    } else if config.kindsOverride == Some([]) {
      var me := "";
      var call := Call(Event(KIND_STREAM_MESSAGE, [["p", me]]), channel, me, i => Yes);
      MentionedBy(call.event, me);
      ConcernsIsApplicable(lib, rules[0], call);
      assert Concerns(lib, rules[0], call) && !Passes(Resolved(lib, config, rules, channel).value, call.event, me);
    }
  }

  /** The numbers in a comma-separated list, if every piece is one. */
  function NumbersIn(pieces: seq<string>, parseU32: string -> Option<nat>): Option<seq<nat>> {
    if pieces == [] then Some([])
    else
      var before := NumbersIn(pieces[..|pieces| - 1], parseU32);
      var last := parseU32(pieces[|pieces| - 1]);
      if before.None? || last.None? then None else Some(before.value + [last.value])
  }

  function Pieces(values: seq<string>): seq<string> {
    if values == [] then [] else Pieces(values[..|values| - 1]) + Split(values[|values| - 1], ',')
  }

  /** The `--kinds` option: every value given, or else the environment's, is cut at commas,
    and each piece has to be a number. `None` is a refused command line. */
  function KindsOption(values: seq<string>, env: Option<string>, parseU32: string -> Option<nat>): Option<Option<seq<nat>>> {
    var given := if values != [] then values else if env.Some? then [env.value] else [];
    if given == [] then Some(None)
    else
      var kinds := NumbersIn(Pieces(given), parseU32);
      if kinds.None? then None else Some(Some(kinds.value))
  }

  lemma {:induction false} NumbersKeepCount(pieces: seq<string>, parseU32: string -> Option<nat>)
    ensures NumbersIn(pieces, parseU32).Some? ==> |NumbersIn(pieces, parseU32).value| == |pieces|
    decreases |pieces|
  {
    if pieces != [] {
      NumbersKeepCount(pieces[..|pieces| - 1], parseU32);
    }
  }

  lemma {:induction false} NumbersReadBack(pieces: seq<string>, kinds: seq<nat>, parseU32: string -> Option<nat>)
    requires |pieces| == |kinds| && forall i | 0 <= i < |pieces| :: parseU32(pieces[i]) == Some(kinds[i])
    ensures NumbersIn(pieces, parseU32) == Some(kinds)
    decreases |pieces|
  {
    if pieces != [] {
      var n := |pieces| - 1;
      NumbersReadBack(pieces[..n], kinds[..n], parseU32);
      assert kinds == kinds[..n] + [kinds[n]];
    }
  }

  /** Numbers written with commas between them are read back in their order, from the option
    or, without one, from the environment; without either there is no list. */
  lemma KindsReadBack(pieces: seq<string>, kinds: seq<nat>, env: Option<string>, parseU32: string -> Option<nat>)
    requires pieces != [] && |pieces| == |kinds|
    requires forall i | 0 <= i < |pieces| :: ',' !in pieces[i] && parseU32(pieces[i]) == Some(kinds[i])
    ensures KindsOption([Join(pieces, ',')], env, parseU32) == Some(Some(kinds))
    ensures KindsOption([], Some(Join(pieces, ',')), parseU32) == Some(Some(kinds))
    ensures KindsOption([], None, parseU32) == Some(None)
  {
    hide Split, Join, NumbersIn, Pieces;
    SplitOfJoin(pieces, ',');
    NumbersReadBack(pieces, kinds, parseU32);
    PiecesOfOne(Join(pieces, ','));
  }

  lemma PiecesOfOne(value: string)
    ensures Pieces([value]) == Split(value, ',')
  {
    hide Split;
    assert [value][..0] == [] && Pieces([]) == [] && [] + Split(value, ',') == Split(value, ',');
  }

  /** From the command line and the environment no empty list comes, so with the settings
    they give the start-up rules and the resolved filter always fit together. */
  lemma SoundFromCommandLine(lib: Uuids, config: Settings, loaded: seq<Rule>, channel: Uuid,
                             values: seq<string>, env: Option<string>, parseU32: string -> Option<nat>)
    requires lib.Lawful() && Allowed(lib, config, channel)
    requires KindsOption(values, env, parseU32) == Some(config.kindsOverride)
    ensures Sound(lib, StartupRules(config, loaded), channel, Resolved(lib, config, StartupRules(config, loaded), channel))
  {
    hide Sound, Resolved;
    SoundExactlyUnlessKindsEmpty(lib, config, loaded, channel);
    var given := if values != [] then values else if env.Some? then [env.value] else [];
    if given != [] {
      assert |Pieces(given)| > 0;
      NumbersKeepCount(Pieces(given), parseU32);
    }
  }

  lemma MentionedBy(event: Event, me: string)
    requires event.tags == [["p", me]]
    ensures EventFilter.Mentions(event, me)
  {
    assert event.tags[0] in event.tags;
  }

  /** What the matcher matches, the relay has let through. */
  lemma MatchedPassesFilter(lib: Uuids, config: Settings, loaded: seq<Rule>, call: Call, timeouts: seq<nat>, log: seq<Entry>)
    requires lib.Lawful() && Allowed(lib, config, call.channel)
    requires config.mode == Config || config.kindsOverride != Some([])
    requires Fits(StartupRules(config, loaded), timeouts)
    requires Matching(lib, StartupRules(config, loaded), call, 0, timeouts, log).winner.Some?
    ensures var filter := Resolved(lib, config, StartupRules(config, loaded), call.channel);
            filter.Some? && Passes(filter.value, call.event, call.me)
  {
    var rules := StartupRules(config, loaded);
    SoundExactlyUnlessKindsEmpty(lib, config, loaded, call.channel);
    LosesExactly(lib, rules, call, timeouts, log);
    hide Resolved, Concerns, Passes;
    var k :| 0 <= k < |rules| && Reaches(lib, rules, call, timeouts, k) && StepAt(lib, rules, call, timeouts, k) == Pass;
    assert Concerns(lib, rules[k], call);
  }

  /** In the two simple modes the matcher takes exactly what the relay lets through, under
    the tag of the mode. */
  lemma SimpleModesMatch(lib: Uuids, config: Settings, loaded: seq<Rule>, call: Call, timeouts: seq<nat>, log: seq<Entry>)
    requires config.mode != Config && config.kindsOverride != Some([]) && Chosen(lib, config, call.channel)
    requires Fits(StartupRules(config, loaded), timeouts)
    ensures var rules := StartupRules(config, loaded);
            var filter := Resolved(lib, config, rules, call.channel);
            && filter.Some?
            && Matching(lib, rules, call, 0, timeouts, log).winner
                 == if !Passes(filter.value, call.event, call.me) then None
                    else Some(MatchedRule(0, if config.mode.Mentions? then "@mention" else "all"))
  {
    var rules := StartupRules(config, loaded);
    NamedIsMentioned(call.event, call.me);
    hide Named, EventFilter.Mentions, Matching;
    WinsExactly(lib, rules, call, timeouts, log, 0);
    LosesExactly(lib, rules, call, timeouts, log);
    assert Reaches(lib, rules, call, timeouts, 0);
  }

  // ---------------------------------------------------------------- how coarse the merge is

  /** Some rule for the channel takes this event. */
  ghost predicate Wanted(lib: Uuids, rules: seq<Rule>, channel: Uuid, event: Event, me: string) {
    exists rule | rule in rules ::
      Applies(lib, rule.channels, channel) && (rule.kinds == [] || event.kind in rule.kinds) &&
      (rule.requireMention ==> EventFilter.Mentions(event, me))
  }

  /** A rule for the channel takes this kind from anyone. */
  ghost predicate TakesFreely(lib: Uuids, rules: seq<Rule>, channel: Uuid, kind: nat) {
    exists rule | rule in rules ::
      Applies(lib, rule.channels, channel) && (rule.kinds == [] || kind in rule.kinds) && !rule.requireMention
  }

  /** The merge keeps kinds and mentions apart, so it lets through what no rule wants,
    except where all rules require a mention or every kind of event taken is taken freely. */
  lemma MergeIsExactWhen(lib: Uuids, rules: seq<Rule>, channel: Uuid, filter: ChannelFilter)
    requires IsMerge(lib, rules, channel, filter) && AnyApplies(lib, rules, channel)
    ensures (forall event, me :: Passes(filter, event, me) <==> Wanted(lib, rules, channel, event, me)) <==>
            AllRequireMention(lib, rules, channel) ||
            forall kind: U16 :: TakesKind(lib, rules, channel, kind) ==> TakesFreely(lib, rules, channel, kind)
  {
    forall event, me | Wanted(lib, rules, channel, event, me) ensures Passes(filter, event, me) {
      WantedPasses(lib, rules, channel, filter, event, me);
    }
    if AllRequireMention(lib, rules, channel) {
      forall event, me ensures Passes(filter, event, me) ==> Wanted(lib, rules, channel, event, me) {
        PassedKindIsTaken(lib, rules, channel, filter, event, me);
      }
    } else if forall kind: U16 :: TakesKind(lib, rules, channel, kind) ==> TakesFreely(lib, rules, channel, kind) {
      forall event, me ensures Passes(filter, event, me) ==> Wanted(lib, rules, channel, event, me) {
        PassedKindIsTaken(lib, rules, channel, filter, event, me);
        assert Passes(filter, event, me) ==> TakesFreely(lib, rules, channel, event.kind);
      }
    } else {
      var kind: U16 :| TakesKind(lib, rules, channel, kind) && !TakesFreely(lib, rules, channel, kind);
      var event := Event(kind, []);
      assert Passes(filter, event, "") && !Wanted(lib, rules, channel, event, "");
    }
  }

  lemma WantedPasses(lib: Uuids, rules: seq<Rule>, channel: Uuid, filter: ChannelFilter, event: Event, me: string)
    requires IsMerge(lib, rules, channel, filter) && Wanted(lib, rules, channel, event, me)
    ensures Passes(filter, event, me)
  {
    hide Applies;
    assert TakesKind(lib, rules, channel, event.kind);
  }

  lemma PassedKindIsTaken(lib: Uuids, rules: seq<Rule>, channel: Uuid, filter: ChannelFilter, event: Event, me: string)
    requires IsMerge(lib, rules, channel, filter)
    ensures Passes(filter, event, me) ==> TakesKind(lib, rules, channel, event.kind)
  {
    hide Applies;
    if filter.kinds.None? {
      var rule :| rule in rules && Applies(lib, rule.channels, channel) && rule.kinds == [];
    }
  }
}
