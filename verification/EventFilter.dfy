/** Matching of events against the ordered subscription rules, and the timeout counters
  that the rules keep from one event to the next. */
module EventFilter {
  import opened Wrappers

  const MAX_EXPR_LEN := 4096
  const MAX_CONSECUTIVE_TIMEOUTS := 5

  type U128 = n: nat | n < 0x1_0000_0000_0000_0000_0000_0000_0000_0000

  datatype Uuid = Uuid(bits: U128)

  /** The library that reads and writes UUIDs; a UUID has one canonical spelling and may
    have others. */
  datatype Uuids = Uuids(parse: string -> Option<Uuid>, show: Uuid -> string) {
    ghost predicate Lawful() {
      forall u :: parse(show(u)) == Some(u)
    }
  }

  datatype Scope = All(word: string) | List(ids: seq<string>)

  /** `counter` names the shared cell with the consecutive timeouts; copies of a rule
    share theirs. */
  datatype Rule = Rule(
    name: string,
    channels: Scope,
    kinds: seq<nat>,
    requireMention: bool,
    filter: Option<string>,
    promptTag: Option<string>,
    counter: nat)

  /** Event kinds have sixteen bits; the kinds that rules list may be larger. */
  type U16 = n: nat | n <= 65535

  datatype Event = Event(kind: U16, tags: seq<seq<string>>)

  datatype Verdict = Yes | No | Timeout | Failed

  /** One call: the event, its channel, the agent's key, and what evaluation of the filter
    of each rule would say. */
  datatype Call = Call(event: Event, channel: Uuid, me: string, says: nat -> Verdict)

  datatype MatchedRule = MatchedRule(index: nat, promptTag: string)

  predicate InScope(lib: Uuids, scope: Scope, channel: Uuid) {
    match scope
    case All(word) => word == "all"
    case List(ids) => lib.show(channel) in ids
  }

  predicate Mentions(event: Event, me: string) {
    exists tag | tag in event.tags :: |tag| >= 2 && tag[0] == "p" && tag[1] == me
  }

  /** The checks on a rule that evaluate nothing. */
  predicate Applicable(lib: Uuids, rule: Rule, call: Call) {
    && InScope(lib, rule.channels, call.channel)
    && (rule.kinds == [] || call.event.kind in rule.kinds)
    && (rule.requireMention ==> Mentions(call.event, call.me))
  }

  function Evaluated(filter: string, says: Verdict): Verdict {
    if |filter| > MAX_EXPR_LEN then Failed else says
  }

  predicate Fits(rules: seq<Rule>, timeouts: seq<nat>) {
    forall i | 0 <= i < |rules| :: rules[i].counter < |timeouts|
  }

  datatype Entry = Entry(counter: nat, verdict: Verdict)

  /** What a call leaves: the rule that won, the counters, and the evaluations made. */
  datatype Outcome = Outcome(winner: Option<MatchedRule>, timeouts: seq<nat>, log: seq<Entry>)

  function Winner(rules: seq<Rule>, i: nat): MatchedRule
    requires i < |rules|
  {
    MatchedRule(i, if rules[i].promptTag.Some? then rules[i].promptTag.value else rules[i].name)
  }

  function Counted(before: nat, verdict: Verdict): nat {
    match verdict
    case Yes => 0
    case No => 0
    case Timeout => before + 1
    case Failed => before
  }

  /** The call from rule `i` on. */
  function Matching(lib: Uuids, rules: seq<Rule>, call: Call, i: nat, timeouts: seq<nat>, log: seq<Entry>): (out: Outcome)
    requires i <= |rules| && Fits(rules, timeouts)
    ensures |out.timeouts| == |timeouts|
    decreases |rules| - i
  {
    if i == |rules| then Outcome(None, timeouts, log)
    else
      var rule := rules[i];
      if !Applicable(lib, rule, call) then Matching(lib, rules, call, i + 1, timeouts, log)
      else if rule.filter.None? then Outcome(Some(Winner(rules, i)), timeouts, log)
      else if timeouts[rule.counter] >= MAX_CONSECUTIVE_TIMEOUTS then Outcome(None, timeouts, log)
      else
        var verdict := Evaluated(rule.filter.value, call.says(i));
        var timeouts' := timeouts[rule.counter := Counted(timeouts[rule.counter], verdict)];
        var log' := log + [Entry(rule.counter, verdict)];
        match verdict
        case Yes => Outcome(Some(Winner(rules, i)), timeouts', log')
        case No => Matching(lib, rules, call, i + 1, timeouts', log')
        case _ => Outcome(None, timeouts', log')
  }

  // ---------------------------------------------------------------- the program

  class Matcher {
    const lib: Uuids
    const rules: seq<Rule>
    var timeouts: seq<nat>
    ghost var log: seq<Entry>

    ghost predicate Valid()
      reads this
    {
      Fits(rules, timeouts) && Kept(timeouts, log)
    }

    /** `load_rules`: every counter starts at zero. */
    constructor (lib: Uuids, rules: seq<Rule>, counters: nat)
      requires forall i | 0 <= i < |rules| :: rules[i].counter < counters
      ensures Valid() && this.lib == lib && this.rules == rules && log == []
      ensures timeouts == seq(counters, _ => 0)
    {
      this.lib, this.rules, this.timeouts := lib, rules, seq(counters, _ => 0);
      this.log := [];
    }

    method MatchEvent(call: Call) returns (winner: Option<MatchedRule>)
      requires Valid()
      modifies this
      ensures Valid()
      ensures Matching(lib, rules, call, 0, old(timeouts), old(log)) == Outcome(winner, timeouts, log)
    {
      hide Applicable, Kept;
      KeepsCount(lib, rules, call, 0, timeouts, log);
      var i := 0;
      while i < |rules|
        invariant i <= |rules| && Fits(rules, timeouts)
        invariant Matching(lib, rules, call, i, timeouts, log) == Matching(lib, rules, call, 0, old(timeouts), old(log))
      {
        var rule := rules[i];
        if Applicable(lib, rule, call) {
          if rule.filter.None? {
            return Some(Winner(rules, i));
          }
          if timeouts[rule.counter] >= MAX_CONSECUTIVE_TIMEOUTS {
            return None;
          }
          var verdict := Evaluated(rule.filter.value, call.says(i));
          log := log + [Entry(rule.counter, verdict)];
          match verdict {
            case Yes =>
              timeouts := timeouts[rule.counter := 0];
              return Some(Winner(rules, i));
            case No =>
              timeouts := timeouts[rule.counter := 0];
            case Timeout =>
              timeouts := timeouts[rule.counter := timeouts[rule.counter] + 1];
              return None;
            case Failed =>
              assert timeouts == timeouts[rule.counter := timeouts[rule.counter]];
              return None;
          }
        }
        i := i + 1;
      }
      return None;
    }
  }

  // ---------------------------------------------------------------- one call

  datatype Step = Pass | Next | Stop

  /** Among the event's tags is one that names the agent. */
  predicate Named(event: Event, me: string) {
    exists tag, more | tag in event.tags && more == tag[Min(2, |tag|)..] :: tag == ["p", me] + more
  }

  /** The event is one the rule is about: its channel is listed in its canonical spelling, or
    all are meant; its kind is listed, or none is; and it names the agent where it has to. */
  predicate Concerns(lib: Uuids, rule: Rule, call: Call) {
    && (rule.channels == All("all") || (rule.channels.List? && lib.show(call.channel) in rule.channels.ids))
    && (call.event.kind in rule.kinds || |rule.kinds| == 0)
    && (Named(call.event, call.me) || !rule.requireMention)
  }

  lemma NamedIsMentioned(event: Event, me: string)
    ensures Named(event, me) <==> Mentions(event, me)
  {
    if Mentions(event, me) {
      var tag :| tag in event.tags && |tag| >= 2 && tag[0] == "p" && tag[1] == me;
      assert tag == ["p", me] + tag[Min(2, |tag|)..];
    }
    if Named(event, me) {
      var tag, more :| tag in event.tags && more == tag[Min(2, |tag|)..] && tag == ["p", me] + more;
      assert tag[0] == "p" && tag[1] == me;
    }
  }

  lemma ConcernsIsApplicable(lib: Uuids, rule: Rule, call: Call)
    ensures Concerns(lib, rule, call) <==> Applicable(lib, rule, call)
  {
    hide Named, Mentions;
    NamedIsMentioned(call.event, call.me);
  }

  /** What rule `i` decides, read off the counters the call started with: one that is not
    concerned lets the call by, and so does one whose filter says no. */
  function StepAt(lib: Uuids, rules: seq<Rule>, call: Call, timeouts: seq<nat>, i: nat): Step
    requires i < |rules| && Fits(rules, timeouts)
  {
    var rule := rules[i];
    if !Concerns(lib, rule, call) then Next
    else if rule.filter.None? then Pass
    else if timeouts[rule.counter] >= 5 || |rule.filter.value| > 4096 then Stop
    else if call.says(i).Yes? then Pass
    else if call.says(i).No? then Next
    else Stop
  }

  /** A call reaches rule `i` when every earlier rule let it by. */
  predicate Reaches(lib: Uuids, rules: seq<Rule>, call: Call, timeouts: seq<nat>, i: nat)
    requires i <= |rules| && Fits(rules, timeouts)
  {
    forall j | 0 <= j < i :: StepAt(lib, rules, call, timeouts, j) == Next
  }

  /** Counters that differ only where both are below the limit. */
  ghost predicate SameLimit(a: seq<nat>, b: seq<nat>) {
    |a| == |b| && forall s | 0 <= s < |a| :: a[s] >= MAX_CONSECUTIVE_TIMEOUTS <==> b[s] >= MAX_CONSECUTIVE_TIMEOUTS
  }

  lemma {:induction false} DecidedBy(lib: Uuids, rules: seq<Rule>, call: Call, i: nat, start: seq<nat>, timeouts: seq<nat>,
                                     log: seq<Entry>, k: nat)
    requires i <= k < |rules| && Fits(rules, start) && Fits(rules, timeouts) && SameLimit(start, timeouts)
    requires forall j | i <= j < k :: StepAt(lib, rules, call, start, j) == Next
    ensures StepAt(lib, rules, call, start, k) == Pass ==>
              Matching(lib, rules, call, i, timeouts, log).winner == Some(Winner(rules, k))
    ensures StepAt(lib, rules, call, start, k) == Stop ==> Matching(lib, rules, call, i, timeouts, log).winner == None
    decreases k - i
  {
    hide Applicable, Concerns, Winner;
    if i < |rules| {
      ConcernsIsApplicable(lib, rules[i], call);
    }
    if i < k {
      assert StepAt(lib, rules, call, start, i) == Next;
      if !Applicable(lib, rules[i], call) {
        DecidedBy(lib, rules, call, i + 1, start, timeouts, log, k);
      } else {
        var c := rules[i].counter;
        DecidedBy(lib, rules, call, i + 1, start, timeouts[c := 0], log + [Entry(c, No)], k);
      }
    }
  }

  lemma {:induction false} UndecidedIs(lib: Uuids, rules: seq<Rule>, call: Call, i: nat, start: seq<nat>, timeouts: seq<nat>, log: seq<Entry>)
    requires i <= |rules| && Fits(rules, start) && Fits(rules, timeouts) && SameLimit(start, timeouts)
    requires forall j | i <= j < |rules| :: StepAt(lib, rules, call, start, j) == Next
    ensures Matching(lib, rules, call, i, timeouts, log).winner == None
    decreases |rules| - i
  {
    hide Applicable, Concerns, Winner;
    if i < |rules| {
      ConcernsIsApplicable(lib, rules[i], call);
    }
    if i < |rules| {
      assert StepAt(lib, rules, call, start, i) == Next;
      if !Applicable(lib, rules[i], call) {
        UndecidedIs(lib, rules, call, i + 1, start, timeouts, log);
      } else {
        var c := rules[i].counter;
        UndecidedIs(lib, rules, call, i + 1, start, timeouts[c := 0], log + [Entry(c, No)]);
      }
    }
  }

  function FirstDecision(lib: Uuids, rules: seq<Rule>, call: Call, timeouts: seq<nat>, i: nat): (k: nat)
    requires i <= |rules| && Fits(rules, timeouts)
    ensures i <= k <= |rules| && forall j | i <= j < k :: StepAt(lib, rules, call, timeouts, j) == Next
    ensures k < |rules| ==> StepAt(lib, rules, call, timeouts, k) != Next
    decreases |rules| - i
  {
    if i == |rules| || StepAt(lib, rules, call, timeouts, i) != Next then i
    else FirstDecision(lib, rules, call, timeouts, i + 1)
  }

  /** Rule `k` wins exactly when it passes and every earlier rule is inapplicable or was
    evaluated false: an earlier timeout, error or disabled rule lets nothing win. */
  lemma WinsExactly(lib: Uuids, rules: seq<Rule>, call: Call, timeouts: seq<nat>, log: seq<Entry>, k: nat)
    requires Fits(rules, timeouts) && k < |rules|
    ensures Matching(lib, rules, call, 0, timeouts, log).winner
              == Some(MatchedRule(k, if rules[k].promptTag.None? then rules[k].name else rules[k].promptTag.value)) <==>
            Reaches(lib, rules, call, timeouts, k) && StepAt(lib, rules, call, timeouts, k) == Pass
  {
    hide StepAt;
    var first := FirstDecision(lib, rules, call, timeouts, 0);
    if first < |rules| {
      DecidedBy(lib, rules, call, 0, timeouts, timeouts, log, first);
      assert Winner(rules, first).index == first && Winner(rules, k).index == k;
    } else {
      UndecidedIs(lib, rules, call, 0, timeouts, timeouts, log);
    }
  }

  /** A call comes back empty-handed exactly when no rule that it reaches passes. */
  lemma LosesExactly(lib: Uuids, rules: seq<Rule>, call: Call, timeouts: seq<nat>, log: seq<Entry>)
    requires Fits(rules, timeouts)
    ensures Matching(lib, rules, call, 0, timeouts, log).winner == None <==>
            forall k | 0 <= k < |rules| ::
              Reaches(lib, rules, call, timeouts, k) ==> StepAt(lib, rules, call, timeouts, k) != Pass
  {
    hide StepAt;
    var first := FirstDecision(lib, rules, call, timeouts, 0);
    if first < |rules| {
      DecidedBy(lib, rules, call, 0, timeouts, timeouts, log, first);
      assert Reaches(lib, rules, call, timeouts, first);
      forall k | first < k < |rules| ensures !Reaches(lib, rules, call, timeouts, k) {
        assert StepAt(lib, rules, call, timeouts, first) != Next;
      }
    } else {
      UndecidedIs(lib, rules, call, 0, timeouts, timeouts, log);
    }
  }

  // ---------------------------------------------------------------- runs of calls

  /** Timeouts logged for counter `s` since its last evaluation that succeeded. */
  function Streak(log: seq<Entry>, s: nat): nat {
    if log == [] then 0
    else
      var last := log[|log| - 1];
      var before := log[..|log| - 1];
      if last.counter != s || last.verdict.Failed? then Streak(before, s)
      else if last.verdict.Timeout? then Streak(before, s) + 1
      else 0
  }

  /** Each counter holds its streak, which never passes the limit. */
  ghost predicate Kept(timeouts: seq<nat>, log: seq<Entry>) {
    forall s | 0 <= s < |timeouts| :: timeouts[s] == Streak(log, s) <= 5
  }

  lemma KeptByEntry(timeouts: seq<nat>, log: seq<Entry>, c: nat, verdict: Verdict)
    requires Kept(timeouts, log) && c < |timeouts| && timeouts[c] < MAX_CONSECUTIVE_TIMEOUTS
    ensures Kept(timeouts[c := Counted(timeouts[c], verdict)], log + [Entry(c, verdict)])
  {
    hide Streak;
    forall s | 0 <= s < |timeouts|
      ensures timeouts[c := Counted(timeouts[c], verdict)][s] == Streak(log + [Entry(c, verdict)], s) <= MAX_CONSECUTIVE_TIMEOUTS
    {
      assert timeouts[s] == Streak(log, s);
      StreakStep(log, Entry(c, verdict), s);
    }
  }

  lemma StreakStep(log: seq<Entry>, entry: Entry, s: nat)
    ensures Streak(log + [entry], s) == if entry.counter == s then Counted(Streak(log, s), entry.verdict) else Streak(log, s)
  {
    assert (log + [entry])[..|log|] == log;
  }

  /** Full counters stay full. */
  ghost predicate FullStays(before: seq<nat>, after: seq<nat>) {
    |before| == |after| &&
    forall s | 0 <= s < |before| :: before[s] >= MAX_CONSECUTIVE_TIMEOUTS ==> after[s] == before[s]
  }

  lemma {:induction false} KeepsCount(lib: Uuids, rules: seq<Rule>, call: Call, i: nat, timeouts: seq<nat>, log: seq<Entry>)
    requires i <= |rules| && Fits(rules, timeouts) && Kept(timeouts, log)
    ensures var out := Matching(lib, rules, call, i, timeouts, log);
            Kept(out.timeouts, out.log) && FullStays(timeouts, out.timeouts) && Fits(rules, out.timeouts)
    decreases |rules| - i
  {
    hide Applicable, Kept, Winner, Evaluated;
    if i < |rules| {
      var rule := rules[i];
      if !Applicable(lib, rule, call) {
        KeepsCount(lib, rules, call, i + 1, timeouts, log);
      } else if rule.filter.Some? && timeouts[rule.counter] < MAX_CONSECUTIVE_TIMEOUTS {
        var verdict := Evaluated(rule.filter.value, call.says(i));
        KeptByEntry(timeouts, log, rule.counter, verdict);
        if verdict == No {
          KeepsCount(lib, rules, call, i + 1, timeouts[rule.counter := 0], log + [Entry(rule.counter, No)]);
        }
      }
    }
  }

  datatype Book = Book(timeouts: seq<nat>, log: seq<Entry>)

  /** Where a run of calls, one after another, leaves the counters. */
  function After(lib: Uuids, rules: seq<Rule>, calls: seq<Call>, book: Book): (out: Book)
    requires Fits(rules, book.timeouts)
    ensures |out.timeouts| == |book.timeouts|
  {
    if calls == [] then book
    else
      var before := After(lib, rules, calls[..|calls| - 1], book);
      var out := Matching(lib, rules, calls[|calls| - 1], 0, before.timeouts, before.log);
      Book(out.timeouts, out.log)
  }

  /** Over every run, a counter is the number of timeouts since the last evaluation that
    succeeded, at most five, and once at five it stays there. */
  lemma {:induction false} CountersTellStreaks(lib: Uuids, rules: seq<Rule>, calls: seq<Call>, book: Book)
    requires Fits(rules, book.timeouts) && Kept(book.timeouts, book.log)
    ensures var out := After(lib, rules, calls, book);
            Kept(out.timeouts, out.log) && FullStays(book.timeouts, out.timeouts)
    decreases |calls|
  {
    hide Kept;
    if calls != [] {
      var earlier := calls[..|calls| - 1];
      CountersTellStreaks(lib, rules, earlier, book);
      var before := After(lib, rules, earlier, book);
      KeepsCount(lib, rules, calls[|calls| - 1], 0, before.timeouts, before.log);
    }
  }

  /** Once the counter of rule `k` is full, then after any further calls no event that the
    rule applies to is matched by it or by a rule behind it, and if it reaches the rule it
    is not matched at all. */
  lemma DisabledForever(lib: Uuids, rules: seq<Rule>, calls: seq<Call>, book: Book, k: nat, call: Call)
    requires Fits(rules, book.timeouts) && Kept(book.timeouts, book.log) && k < |rules|
    requires rules[k].filter.Some? && book.timeouts[rules[k].counter] == 5
    requires Concerns(lib, rules[k], call)
    ensures var later := After(lib, rules, calls, book);
            var winner := Matching(lib, rules, call, 0, later.timeouts, later.log).winner;
            && (winner.Some? ==> winner.value.index < k)
            && (Reaches(lib, rules, call, later.timeouts, k) ==> winner == None)
  {
    hide Concerns, Kept;
    CountersTellStreaks(lib, rules, calls, book);
    var later := After(lib, rules, calls, book);
    assert StepAt(lib, rules, call, later.timeouts, k) == Stop;
    hide StepAt;
    var first := FirstDecision(lib, rules, call, later.timeouts, 0);
    DecidedBy(lib, rules, call, 0, later.timeouts, later.timeouts, later.log, first);
  }
}
