/** Where the inline modules of a Rust source begin and end: brace matching over the
  sanitized text, and the module headers found in it. */
module ModuleRanges {
  import opened Wrappers
  import opened RustScanner
  import S = RustSourceLaws

  // ---------------------------------------------------------------- braces

  function Weight(c: char): int {
    if c == '{' then 1 else if c == '}' then -1 else 0
  }

  /** Opening braces less closing ones in `t[a..b]`. */
  function Balance(t: string, a: nat, b: nat): int
    requires b <= |t|
    decreases b
  {
    if b <= a then 0 else Balance(t, a, b - 1) + Weight(t[b - 1])
  }

  /** What stands between the brace at `o` and `k` does not close more than it opens. */
  predicate Within(t: string, o: nat, k: nat) {
    k <= |t| && Balance(t, o + 1, k) >= 0
  }

  /** Nothing before `e` closes the brace at `o`. */
  ghost predicate Unclosed(t: string, o: nat, e: nat) {
    o < e <= |t| && t[o] == '{' && forall k | o < k <= e :: Within(t, o, k)
  }

  /** The brace at `c` closes the one at `o`. */
  ghost predicate Matches(t: string, o: nat, c: nat) {
    c < |t| && t[c] == '}' && Unclosed(t, o, c) && Balance(t, o + 1, c) == 0
  }

  lemma {:induction false} BalanceSplit(t: string, a: nat, m: nat, b: nat)
    requires a <= m <= b <= |t|
    ensures Balance(t, a, b) == Balance(t, a, m) + Balance(t, m, b)
    decreases b
  {
    if m < b {
      BalanceSplit(t, a, m, b - 1);
    }
  }

  /** A brace is closed by one brace at most. */
  lemma MatchUnique(t: string, o: nat, c: nat, e: nat)
    requires Matches(t, o, c) && Unclosed(t, o, e)
    ensures e <= c
  {
    assert Balance(t, o + 1, c + 1) == -1 && !Within(t, o, c + 1);
  }

  /** Two matched pairs are nested or apart, never interleaved. */
  lemma NestedOrApart(t: string, o1: nat, c1: nat, o2: nat, c2: nat)
    requires Matches(t, o1, c1) && Matches(t, o2, c2) && o1 < o2
    ensures c1 < o2 || c2 < c1
  {
    if o2 < c1 {
      BalanceSplit(t, o1 + 1, o2, c1);
      BalanceSplit(t, o2, o2 + 1, c1);
      assert Balance(t, o2, o2 + 1) == 1 && Within(t, o1, o2);
      assert !Within(t, o2, c1);
    }
  }

  /** The stack holds the unclosed braces before `i`, each as deep as it stands. */
  ghost predicate Levels(t: string, i: nat, stack: seq<nat>) {
    && i <= |t|
    && (forall j | 0 <= j < |stack| :: Unclosed(t, stack[j], i))
    && (forall j | 0 <= j < |stack| :: Balance(t, stack[j] + 1, i) == |stack| - 1 - j)
  }

  /** Every brace before `i` is on the stack or paired with the brace that closes it. */
  ghost predicate Paired(t: string, i: nat, stack: seq<nat>, pairs: map<nat, nat>) {
    && i <= |t|
    && (forall o | o in pairs :: pairs[o] < i && Matches(t, o, pairs[o]))
    && (forall o | 0 <= o < i && t[o] == '{' :: o in stack || o in pairs)
  }

  lemma UnclosedStep(t: string, o: nat, i: nat)
    requires Unclosed(t, o, i) && i < |t|
    ensures Balance(t, o + 1, i + 1) == Balance(t, o + 1, i) + Weight(t[i])
    ensures Unclosed(t, o, i + 1) <==> Balance(t, o + 1, i + 1) >= 0
    ensures Matches(t, o, i) <==> Balance(t, o + 1, i + 1) < 0
  {
    assert Within(t, o, i) && (Within(t, o, i + 1) <==> Balance(t, o + 1, i + 1) >= 0);
  }

  lemma PushKeepsLevels(t: string, i: nat, stack: seq<nat>)
    requires Levels(t, i, stack) && i < |t| && t[i] == '{'
    ensures Levels(t, i + 1, stack + [i])
  {
    hide Balance, Unclosed;
    forall j | 0 <= j < |stack|
      ensures Unclosed(t, stack[j], i + 1) && Balance(t, stack[j] + 1, i + 1) == |stack| - j
    {
      UnclosedStep(t, stack[j], i);
    }
    JustOpened(t, i);
  }

  lemma JustOpened(t: string, i: nat)
    requires i < |t| && t[i] == '{'
    ensures Unclosed(t, i, i + 1) && Balance(t, i + 1, i + 1) == 0
  {
  }

  lemma PopKeepsLevels(t: string, i: nat, stack: seq<nat>)
    requires Levels(t, i, stack) && i < |t| && t[i] == '}' && stack != []
    ensures Levels(t, i + 1, stack[..|stack| - 1])
    ensures Matches(t, stack[|stack| - 1], i)
  {
    hide Balance, Unclosed, Matches;
    forall j | 0 <= j < |stack| - 1
      ensures Unclosed(t, stack[j], i + 1) && Balance(t, stack[j] + 1, i + 1) == |stack| - 2 - j
    {
      UnclosedStep(t, stack[j], i);
    }
    UnclosedStep(t, stack[|stack| - 1], i);
  }

  lemma OtherKeepsLevels(t: string, i: nat, stack: seq<nat>)
    requires Levels(t, i, stack) && i < |t| && (Weight(t[i]) == 0 || stack == [])
    ensures Levels(t, i + 1, stack)
  {
    hide Balance, Unclosed;
    forall j | 0 <= j < |stack|
      ensures Unclosed(t, stack[j], i + 1) && Balance(t, stack[j] + 1, i + 1) == |stack| - 1 - j
    {
      UnclosedStep(t, stack[j], i);
    }
  }

  /** The first loop of `module_ranges`: it pairs each brace with the one that closes it,
    and no brace that nothing closes. */
  method BracePairs(t: string) returns (pairs: map<nat, nat>)
    ensures forall o, c :: Matches(t, o, c) <==> o in pairs && pairs[o] == c
  {
    hide Matches, Unclosed, Balance;
    pairs := map[];
    var stack: seq<nat> := [];
    for i := 0 to |t|
      invariant Levels(t, i, stack)
      invariant Paired(t, i, stack, pairs)
    {
      if t[i] == '{' {
        PushKeepsLevels(t, i, stack);
        stack := stack + [i];
      } else if t[i] == '}' && stack != [] {
        PopKeepsLevels(t, i, stack);
        var o := stack[|stack| - 1];
        assert stack == stack[..|stack| - 1] + [o];
        stack := stack[..|stack| - 1];
        pairs := pairs[o := i];
      } else {
        OtherKeepsLevels(t, i, stack);
      }
    }
    forall o, c ensures Matches(t, o, c) <==> o in pairs && pairs[o] == c {
      PairsAreMatches(t, stack, pairs, o, c);
    }
  }

  lemma PairsAreMatches(t: string, stack: seq<nat>, pairs: map<nat, nat>, o: nat, c: nat)
    requires Levels(t, |t|, stack) && Paired(t, |t|, stack, pairs)
    ensures Matches(t, o, c) <==> o in pairs && pairs[o] == c
  {
    if Matches(t, o, c) {
      if o in pairs {
        MatchUnique(t, o, c, pairs[o]);
        MatchUnique(t, o, pairs[o], c);
      } else {
        MatchUnique(t, o, c, |t|);
      }
    }
  }

  // ---------------------------------------------------------------- headers

  predicate NameStart(c: char) {
    'A' <= c <= 'Z' || 'a' <= c <= 'z' || c == '_'
  }

  predicate NamePart(c: char) {
    NameStart(c) || '0' <= c <= '9'
  }

  /** `\w`; what it matches outside ASCII is given by `wide`. */
  predicate WordPart(wide: char -> bool, c: char) {
    if c < '\U{80}' then NamePart(c) else wide(c)
  }

  function NameEnd(t: string, i: nat): (e: nat)
    requires i <= |t|
    ensures i <= e <= |t| && forall j | i <= j < e :: NamePart(t[j])
    ensures e < |t| ==> !NamePart(t[e])
    decreases |t| - i
  {
    if i < |t| && NamePart(t[i]) then NameEnd(t, i + 1) else i
  }

  datatype Header = Header(name: string, end: nat)

  /** The module header that starts at `i`, with the place behind its brace. */
  function HeaderAt(wide: char -> bool, t: string, i: nat): (h: Option<Header>)
    ensures h.Some? ==> i + 3 < h.value.end <= |t| && t[h.value.end - 1] == '{'
    ensures h.Some? ==> forall j | i <= j < h.value.end - 1 :: t[j] != '{'
  {
    if At(t, i, 'm') && Pair(t, i + 1, 'o', 'd') && (i == 0 || !WordPart(wide, t[i - 1])) then
      var name := SkipSpaces(t, i + 3);
      var behind := NameEnd(t, name);
      var brace := SkipSpaces(t, behind);
      if name > i + 3 && name < behind && NameStart(t[name]) && At(t, brace, '{') then
        Some(Header(t[name..behind], brace + 1))
      else None
    else None
  }

  predicate Spaces(text: string) {
    forall j | 0 <= j < |text| :: Isspace(text[j])
  }

  predicate IsName(text: string) {
    && text != "" && !('0' <= text[0] <= '9')
    && forall j | 0 <= j < |text| ::
         'A' <= text[j] <= 'Z' || 'a' <= text[j] <= 'z' || '0' <= text[j] <= '9' || text[j] == '_'
  }

  /** At `i` stands the keyword, white space, a name, perhaps more white space and a brace. */
  predicate HeaderSpelled(t: string, i: nat, h: Header, before: string, behind: string) {
    && before != "" && Spaces(before) && IsName(h.name) && Spaces(behind)
    && S.Occurs(t, i, "mod" + (before + (h.name + (behind + "{"))))
    && h.end == i + 4 + |before| + |h.name| + |behind|
  }

  ghost predicate IsHeader(t: string, i: nat, h: Header) {
    exists before, behind :: HeaderSpelled(t, i, h, before, behind)
  }

  lemma {:induction false} NameEndIs(t: string, i: nat, e: nat)
    requires i <= e <= |t| && (e < |t| ==> !NamePart(t[e])) && forall j | i <= j < e :: NamePart(t[j])
    ensures NameEnd(t, i) == e
    decreases e - i
  {
    if i < e {
      NameEndIs(t, i + 1, e);
    }
  }

  lemma KeywordAt(t: string, i: nat)
    ensures S.Occurs(t, i, "mod") <==> At(t, i, 'm') && Pair(t, i + 1, 'o', 'd')
  {
    assert "mod" == ['m'] + ['o', 'd'];
    S.OccursBoth(t, i, ['m'], ['o', 'd']);
    S.Occurs1(t, i, 'm');
    S.Occurs2(t, i + 1, 'o', 'd');
  }

  /** The four texts of a header one behind the other. */
  lemma InFour(t: string, i: nat, before: string, name: string, behind: string)
    ensures S.Occurs(t, i, "mod" + (before + (name + (behind + "{")))) <==>
            var n := i + 3 + |before|;
            && S.Occurs(t, i, "mod") && S.Occurs(t, i + 3, before) && S.Occurs(t, n, name)
            && S.Occurs(t, n + |name|, behind) && At(t, n + |name| + |behind|, '{')
  {
    hide S.Occurs;
    var n := i + 3 + |before|;
    S.OccursBoth(t, i, "mod", before + (name + (behind + "{")));
    S.OccursBoth(t, i + 3, before, name + (behind + "{"));
    S.OccursBoth(t, n, name, behind + "{");
    S.OccursBoth(t, n + |name|, behind, "{");
    S.Occurs1(t, n + |name| + |behind|, '{');
  }

  lemma SpacesEnd(t: string, i: nat, text: string)
    requires S.Occurs(t, i, text) && Spaces(text) && (i + |text| < |t| ==> !Isspace(t[i + |text|]))
    ensures i + |text| <= |t| && SkipSpaces(t, i) == i + |text|
  {
    hide Isspace;
    forall j | i <= j < i + |text| ensures Isspace(t[j]) {
      assert t[i + (j - i)] == text[j - i];
    }
    SpacesSkipped(t, i, i + |text|);
  }

  lemma NameEnds(t: string, i: nat, name: string)
    requires S.Occurs(t, i, name) && IsName(name) && (i + |name| < |t| ==> !NamePart(t[i + |name|]))
    ensures i + |name| <= |t| && NameEnd(t, i) == i + |name| && NameStart(t[i])
  {
    assert t[i + 0] == name[0];
    forall j | i <= j < i + |name| ensures NamePart(t[j]) {
      assert t[i + (j - i)] == name[j - i];
    }
    NameEndIs(t, i, i + |name|);
  }

  lemma NeitherBoth(c: char)
    ensures NamePart(c) ==> !Isspace(c)
    ensures !Isspace('{') && !NamePart('{')
  {
  }

  lemma NameBegins(t: string, n: nat, name: string)
    requires S.Occurs(t, n, name) && IsName(name)
    ensures n < |t| && NameStart(t[n]) && !Isspace(t[n]) && n + |name| <= |t| && t[n..n + |name|] == name
  {
    assert t[n + 0] == name[0];
    S.OccursIsSlice(t, n, name);
    hide S.Occurs;
    NeitherBoth(t[n]);
    hide Isspace;
  }

  lemma NameStops(t: string, e: nat, behind: string)
    requires S.Occurs(t, e, behind) && Spaces(behind) && At(t, e + |behind|, '{')
    ensures e < |t| && !NamePart(t[e])
  {
    if behind != "" {
      assert t[e + 0] == behind[0];
      hide S.Occurs;
      NeitherBoth(t[e]);
      hide Isspace;
    }
  }

  lemma SpelledIsFound(wide: char -> bool, t: string, i: nat, h: Header, before: string, behind: string)
    requires i <= |t| && HeaderSpelled(t, i, h, before, behind) && (i == 0 || !WordPart(wide, t[i - 1]))
    ensures HeaderAt(wide, t, i) == Some(h)
  {
    hide S.Occurs, Isspace, NamePart, NameStart, WordPart, IsName, SkipSpaces, NameEnd, Spaces;
    InFour(t, i, before, h.name, behind);
    KeywordAt(t, i);
    var n := i + 3 + |before|;
    var e := n + |h.name|;
    NameBegins(t, n, h.name);
    NameStops(t, e, behind);
    NameEnds(t, n, h.name);
    NeitherBoth('{');
    SpacesEnd(t, i + 3, before);
    SpacesEnd(t, e, behind);
    assert HeaderAt(wide, t, i) == Some(Header(t[n..e], e + |behind| + 1));
  }

  lemma FoundParts(wide: char -> bool, t: string, i: nat)
    requires HeaderAt(wide, t, i).Some?
    ensures var n := SkipSpaces(t, i + 3);
            var e := NameEnd(t, n);
            var brace := SkipSpaces(t, e);
            && i + 3 < n < e && At(t, brace, '{') && At(t, i, 'm') && Pair(t, i + 1, 'o', 'd') && NameStart(t[n])
            && HeaderAt(wide, t, i) == Some(Header(t[n..e], brace + 1)) && (i == 0 || !WordPart(wide, t[i - 1]))
  {
    hide Isspace, NamePart, NameStart, WordPart, SkipSpaces, NameEnd;
  }

  lemma RunIsName(t: string, n: nat)
    requires n < |t| && NameStart(t[n])
    ensures NameEnd(t, n) > n && IsName(t[n..NameEnd(t, n)])
  {
    assert NamePart(t[n]);
    hide NameEnd;
  }

  lemma RunIsSpaces(t: string, i: nat)
    requires i <= |t|
    ensures Spaces(t[i..SkipSpaces(t, i)]) && S.Occurs(t, i, t[i..SkipSpaces(t, i)])
  {
    hide Isspace, SkipSpaces;
  }

  lemma PartsSpell(t: string, i: nat, before: string, name: string, behind: string)
    requires before != "" && Spaces(before) && IsName(name) && Spaces(behind)
    requires S.Occurs(t, i, "mod") && S.Occurs(t, i + 3, before)
    requires var n := i + 3 + |before|;
             S.Occurs(t, n, name) && S.Occurs(t, n + |name|, behind) && At(t, n + |name| + |behind|, '{')
    ensures HeaderSpelled(t, i, Header(name, i + 4 + |before| + |name| + |behind|), before, behind)
  {
    hide S.Occurs, Spaces, IsName;
    InFour(t, i, before, name, behind);
  }

  lemma FoundIsSpelled(wide: char -> bool, t: string, i: nat)
    requires HeaderAt(wide, t, i).Some?
    ensures (i == 0 || !WordPart(wide, t[i - 1])) && IsHeader(t, i, HeaderAt(wide, t, i).value)
  {
    FoundParts(wide, t, i);
    hide HeaderAt, HeaderSpelled, S.Occurs, Isspace, NamePart, NameStart, WordPart, IsName, SkipSpaces, NameEnd, Spaces;
    var n := SkipSpaces(t, i + 3);
    var e := NameEnd(t, n);
    var brace := SkipSpaces(t, e);
    RunIsName(t, n);
    RunIsSpaces(t, i + 3);
    RunIsSpaces(t, e);
    S.OccursSlice(t, n, e);
    KeywordAt(t, i);
    PartsSpell(t, i, t[i + 3..n], t[n..e], t[e..brace]);
  }

  /** A header is found exactly where one is written and no word runs into it. */
  lemma HeadersExactly(wide: char -> bool, t: string, i: nat, h: Header)
    requires i <= |t|
    ensures HeaderAt(wide, t, i) == Some(h) <==> ((i == 0 || !WordPart(wide, t[i - 1])) && IsHeader(t, i, h))
  {
    hide HeaderAt, HeaderSpelled, WordPart;
    if HeaderAt(wide, t, i) == Some(h) {
      FoundIsSpelled(wide, t, i);
    }
    if (i == 0 || !WordPart(wide, t[i - 1])) && IsHeader(t, i, h) {
      var before, behind :| HeaderSpelled(t, i, h, before, behind);
      SpelledIsFound(wide, t, i, h, before, behind);
    }
  }

  /** No header starts inside another one. */
  lemma HeadersApart(wide: char -> bool, t: string, i: nat, k: nat)
    requires HeaderAt(wide, t, i).Some? && i < k < HeaderAt(wide, t, i).value.end
    ensures HeaderAt(wide, t, k).None?
  {
    var name := SkipSpaces(t, i + 3);
    var behind := NameEnd(t, name);
    assert name < |t| && !NamePart(t[name - 1]);
    if k != name {
      assert t[k] != 'm' || NamePart(t[k - 1]);
    } else if k + 3 < |t| {
      if behind > k + 3 {
        assert NamePart(t[k + 3]);
        NoSpace(t, k + 3);
      }
    }
  }

  lemma NoSpace(t: string, i: nat)
    requires i < |t| && NamePart(t[i])
    ensures SkipSpaces(t, i) == i
  {
  }

  datatype Range = Range(open: nat, close: nat, name: string)

  /** `r` is the range of a module: its header ends at a brace that the other closes. */
  ghost predicate IsModule(wide: char -> bool, t: string, r: Range) {
    Matches(t, r.open, r.close) && exists i :: HeaderAt(wide, t, i) == Some(Header(r.name, r.open + 1))
  }

  ghost predicate HeaderBefore(wide: char -> bool, t: string, i: nat, r: Range) {
    exists k | 0 <= k < i :: HeaderAt(wide, t, k) == Some(Header(r.name, r.open + 1))
  }

  function FindBrace(t: string, i: nat): (e: nat)
    requires i <= |t|
    ensures i <= e <= |t| && (e < |t| ==> t[e] == '{') && forall j | i <= j < e :: t[j] != '{'
    decreases |t| - i
  {
    if i == |t| || t[i] == '{' then i else FindBrace(t, i + 1)
  }

  /** Every range found is a module whose header starts before `i`, and all are found. */
  ghost predicate Found(wide: char -> bool, t: string, i: nat, ranges: seq<Range>) {
    forall r :: r in ranges <==> Matches(t, r.open, r.close) && HeaderBefore(wide, t, i, r)
  }

  ghost predicate Ordered(ranges: seq<Range>) {
    forall j, k | 0 <= j < k < |ranges| :: ranges[j].open < ranges[k].open
  }

  lemma HeaderSkips(wide: char -> bool, t: string, i: nat, e: nat, r: Range)
    requires i < e && forall k | i < k < e :: HeaderAt(wide, t, k).None?
    ensures HeaderBefore(wide, t, e, r) <==>
            HeaderBefore(wide, t, i, r) || HeaderAt(wide, t, i) == Some(Header(r.name, r.open + 1))
  {
    hide HeaderAt;
    if HeaderBefore(wide, t, e, r) {
      var k :| 0 <= k < e && HeaderAt(wide, t, k) == Some(Header(r.name, r.open + 1));
      assert k <= i;
    }
  }

  /** `module_ranges`: in the order of the text, the range of every inline module of the
    source outside its comments and literals. */
  method ModuleRanges(wide: char -> bool, source: string) returns (ranges: seq<Range>)
    ensures forall r :: r in ranges <==> IsModule(wide, Sanitized(source), r)
    ensures Ordered(ranges)
  {
    hide Matches, HeaderAt, Sanitized;
    var t := SanitizeRust(source);
    var pairs := BracePairs(t);
    ranges := [];
    var i := 0;
    while i < |t|
      invariant Found(wide, t, i, ranges) && Ordered(ranges)
      invariant forall r | r in ranges :: r.open < i
      decreases |t| - i
    {
      var header := HeaderAt(wide, t, i);
      if header.Some? {
        var open := FindBrace(t, i);
        assert open == header.value.end - 1;
        forall k | i < k < header.value.end ensures HeaderAt(wide, t, k).None? {
          HeadersApart(wide, t, i, k);
        }
        ghost var before := ranges;
        if open in pairs {
          ranges := ranges + [Range(open, pairs[open], header.value.name)];
        }
        FoundStep(wide, t, i, header.value.end, before, ranges);
        i := header.value.end;
      } else {
        FoundStep(wide, t, i, i + 1, ranges, ranges);
        i := i + 1;
      }
    }
    forall r ensures r in ranges <==> IsModule(wide, t, r) {
      AllFound(wide, t, i, ranges, r);
    }
  }

  lemma FoundStep(wide: char -> bool, t: string, i: nat, e: nat, before: seq<Range>, after: seq<Range>)
    requires Found(wide, t, i, before) && i < e
    requires forall k | i < k < e :: HeaderAt(wide, t, k).None?
    requires forall r :: r in after <==> r in before ||
                                          (Matches(t, r.open, r.close) && HeaderAt(wide, t, i) == Some(Header(r.name, r.open + 1)))
    ensures Found(wide, t, e, after)
  {
    hide Matches, HeaderAt, HeaderBefore;
    forall r ensures r in after <==> Matches(t, r.open, r.close) && HeaderBefore(wide, t, e, r) {
      HeaderSkips(wide, t, i, e, r);
    }
  }

  lemma AllFound(wide: char -> bool, t: string, i: nat, ranges: seq<Range>, r: Range)
    requires |t| <= i && Found(wide, t, i, ranges)
    ensures r in ranges <==> IsModule(wide, t, r)
  {
    hide Matches;
  }

  /** The modules found are nested in one another or apart, and each range starts and
    ends on a brace of the source itself. */
  lemma ModulesNestOrPart(wide: char -> bool, source: string, a: Range, b: Range)
    requires IsModule(wide, Sanitized(source), a) && IsModule(wide, Sanitized(source), b) && a.open < b.open
    ensures a.close < b.open || b.close < a.close
    ensures a.open < a.close < |source| && source[a.open] == '{' && source[a.close] == '}'
  {
    hide Sanitized, HeaderAt;
    NestedOrApart(Sanitized(source), a.open, a.close, b.open, b.close);
    SanitizedKeeps(source, a.open);
    SanitizedKeeps(source, a.close);
  }
}
