/** The owner-attestation conditions: their grammar and the time window they set. */
module Conditions {
  import opened Wrappers
  import opened Decimals
  import opened Texts

  datatype Clause = Kind(n: nat) | Before(n: nat) | After(n: nat)

  const KIND := "kind="
  const BEFORE := "created_at<"
  const AFTER := "created_at>"

  predicate ValidClause(c: Clause) {
    c.n <= if c.Kind? then 65535 else U32_MAX
  }

  predicate ValidClauses(cs: seq<Clause>) {
    forall i | 0 <= i < |cs| :: ValidClause(cs[i])
  }

  function PrintClause(c: Clause): string {
    match c
    case Kind(n) => KIND + Decimal(n)
    case Before(n) => BEFORE + Decimal(n)
    case After(n) => AFTER + Decimal(n)
  }

  function PrintClauses(cs: seq<Clause>): seq<string> {
    seq(|cs|, i requires 0 <= i < |cs| => PrintClause(cs[i]))
  }

  function PrintConditions(cs: seq<Clause>): string {
    Join(PrintClauses(cs), '&')
  }

  // ---------------------------------------------------------------- the code's checks

  /** `strip_prefix`. */
  function StripPrefix(s: string, prefix: string): Option<string> {
    if prefix <= s then Some(s[|prefix|..]) else None
  }

  predicate ClauseAccepted(text: string) {
    text != "" &&
    if StripPrefix(text, KIND).Some? then
      var n := ParseDecimalU32(StripPrefix(text, KIND).value);
      n.Some? && n.value <= 65535
    else if StripPrefix(text, BEFORE).Some? then ParseDecimalU32(StripPrefix(text, BEFORE).value).Some?
    else if StripPrefix(text, AFTER).Some? then ParseDecimalU32(StripPrefix(text, AFTER).value).Some?
    else false
  }

  /** `validate_conditions`. */
  predicate ValidateConditions(s: string) {
    s == "" || forall i | 0 <= i < |Split(s, '&')| :: ClauseAccepted(Split(s, '&')[i])
  }

  /** The clause a timestamp violates, if the text is a time bound. */
  function Violation(text: string, t: nat): Option<Clause> {
    if StripPrefix(text, BEFORE).Some? then
      var limit := ParseDecimalU32(StripPrefix(text, BEFORE).value);
      if limit.Some? && t >= limit.value then Some(Before(limit.value)) else None
    else if StripPrefix(text, AFTER).Some? then
      var limit := ParseDecimalU32(StripPrefix(text, AFTER).value);
      if limit.Some? && t <= limit.value then Some(After(limit.value)) else None
    else None
  }

  function FirstViolation(texts: seq<string>, t: nat): Option<Clause> {
    if texts == [] then None
    else if Violation(texts[0], t).Some? then Violation(texts[0], t)
    else FirstViolation(texts[1..], t)
  }

  /** `enforce_conditions`: the error carries the bound that is violated. */
  function EnforceConditions(s: string, t: nat): Result<(), Clause> {
    if s == "" then Ok(())
    else
      var v := FirstViolation(Split(s, '&'), t);
      if v.Some? then Err(v.value) else Ok(())
  }

  // ---------------------------------------------------------------- grammar

  lemma PrefixesDisjoint(c: Clause)
    ensures var s := PrintClause(c);
            && (StripPrefix(s, KIND) == if c.Kind? then Some(Decimal(c.n)) else None)
            && (StripPrefix(s, BEFORE) == if c.Before? then Some(Decimal(c.n)) else None)
            && (StripPrefix(s, AFTER) == if c.After? then Some(Decimal(c.n)) else None)
            && '&' !in s && s != ""
  {
    var s := PrintClause(c);
    assert s[0] == if c.Kind? then 'k' else 'c';
    if !c.Kind? {
      assert s[10] == if c.Before? then '<' else '>';
    }
    assert '&' !in Decimal(c.n);
  }

  lemma PrintIsAccepted(c: Clause)
    requires ValidClause(c)
    ensures ClauseAccepted(PrintClause(c)) && ClauseOf(PrintClause(c)) == c
  {
    PrefixesDisjoint(c);
    ParsesExactlyDecimals(Decimal(c.n), c.n);
  }

  function ClauseOf(text: string): Clause
    requires ClauseAccepted(text)
  {
    if StripPrefix(text, KIND).Some? then Kind(ParseDecimalU32(StripPrefix(text, KIND).value).value)
    else if StripPrefix(text, BEFORE).Some? then Before(ParseDecimalU32(StripPrefix(text, BEFORE).value).value)
    else After(ParseDecimalU32(StripPrefix(text, AFTER).value).value)
  }

  lemma AcceptedIsPrint(text: string)
    requires ClauseAccepted(text)
    ensures ValidClause(ClauseOf(text)) && text == PrintClause(ClauseOf(text))
  {
    var c := ClauseOf(text);
    if c.Kind? {
      ParsesExactlyDecimals(StripPrefix(text, KIND).value, c.n);
    } else if c.Before? {
      ParsesExactlyDecimals(StripPrefix(text, BEFORE).value, c.n);
    } else {
      ParsesExactlyDecimals(StripPrefix(text, AFTER).value, c.n);
    }
  }

  /** A clause is accepted, and read as `c`, exactly if it is the print of the valid clause `c`. */
  lemma AcceptsExactlyPrints(text: string, c: Clause)
    ensures (ClauseAccepted(text) && ClauseOf(text) == c) <==> (ValidClause(c) && text == PrintClause(c))
  {
    hide ClauseAccepted, ClauseOf, PrintClause;
    if ClauseAccepted(text) && ClauseOf(text) == c {
      AcceptedIsPrint(text);
    }
    if ValidClause(c) && text == PrintClause(c) {
      PrintIsAccepted(c);
    }
  }

  lemma PrintClauseInjective(c: Clause, d: Clause)
    requires PrintClause(c) == PrintClause(d)
    ensures c == d
  {
    PrefixesDisjoint(c);
    PrefixesDisjoint(d);
    DecimalInjective(c.n, d.n);
  }

  /** The clauses of an accepted text. */
  function ClausesOf(s: string): seq<Clause>
    requires ValidateConditions(s)
  {
    if s == "" then []
    else
      var parts := Split(s, '&');
      seq(|parts|, i requires 0 <= i < |parts| => ClauseOf(parts[i]))
  }

  lemma AcceptedConditionsPrint(s: string)
    requires ValidateConditions(s)
    ensures ValidClauses(ClausesOf(s)) && s == PrintConditions(ClausesOf(s))
  {
    if s != "" {
      var parts := Split(s, '&');
      var cs := ClausesOf(s);
      forall i | 0 <= i < |parts| ensures ValidClause(cs[i]) && parts[i] == PrintClause(cs[i]) {
        AcceptedIsPrint(parts[i]);
      }
      assert PrintClauses(cs) == parts;
      SplitLoses(s, '&');
    }
  }

  lemma SplitOfPrint(cs: seq<Clause>)
    requires cs != []
    ensures Split(PrintConditions(cs), '&') == PrintClauses(cs)
    ensures PrintConditions(cs) != ""
  {
    forall i | 0 <= i < |cs| ensures '&' !in PrintClause(cs[i]) && PrintClause(cs[i]) != "" {
      PrefixesDisjoint(cs[i]);
    }
    SplitOfJoin(PrintClauses(cs), '&');
    assert PrintClauses(cs)[0] != "" == Split("", '&')[0];
  }

  /** `validate_conditions` accepts exactly the printed clause lists. */
  lemma ValidatesExactlyPrints(s: string)
    ensures ValidateConditions(s) <==> exists cs :: ValidClauses(cs) && s == PrintConditions(cs)
  {
    if ValidateConditions(s) {
      AcceptedConditionsPrint(s);
    }
    if exists cs :: ValidClauses(cs) && s == PrintConditions(cs) {
      var cs :| ValidClauses(cs) && s == PrintConditions(cs);
      if cs != [] {
        SplitOfPrint(cs);
        forall i | 0 <= i < |cs| ensures ClauseAccepted(PrintClauses(cs)[i]) {
          AcceptsExactlyPrints(PrintClauses(cs)[i], cs[i]);
        }
      }
    }
  }

  /** No text prints two clause lists. */
  lemma PrintConditionsInjective(cs: seq<Clause>, ds: seq<Clause>)
    requires PrintConditions(cs) == PrintConditions(ds)
    ensures cs == ds
  {
    if cs != [] && ds != [] {
      SplitOfPrint(cs);
      SplitOfPrint(ds);
      forall i | 0 <= i < |cs| ensures cs[i] == ds[i] {
        assert PrintClauses(cs)[i] == PrintClauses(ds)[i];
        PrintClauseInjective(cs[i], ds[i]);
      }
    } else if cs != [] {
      SplitOfPrint(cs);
    } else if ds != [] {
      SplitOfPrint(ds);
    }
  }

  // ---------------------------------------------------------------- enforcement

  predicate Satisfied(c: Clause, t: nat) {
    match c
    case Kind(_) => true
    case Before(n) => t < n
    case After(n) => t > n
  }

  /** The greatest lower and the least upper bound of a clause list; a list without
    one leaves that side open (timestamps are below 2^64). */
  function Latest(cs: seq<Clause>): int {
    if cs == [] then -1
    else if cs[0].After? && cs[0].n > Latest(cs[1..]) then cs[0].n
    else Latest(cs[1..])
  }

  function Earliest(cs: seq<Clause>): nat {
    if cs == [] then 0x1_0000_0000_0000_0000
    else if cs[0].Before? && cs[0].n < Earliest(cs[1..]) then cs[0].n
    else Earliest(cs[1..])
  }

  lemma ViolationOfClause(text: string, t: nat)
    requires ClauseAccepted(text)
    ensures Violation(text, t) == if Satisfied(ClauseOf(text), t) then None else Some(ClauseOf(text))
  {
    AcceptedIsPrint(text);
    PrefixesDisjoint(ClauseOf(text));
  }

  /** The clause at `i` is the first that `t` violates. */
  predicate FirstViolated(cs: seq<Clause>, t: nat, i: int) {
    0 <= i < |cs| && !Satisfied(cs[i], t) && forall j | 0 <= j < i :: Satisfied(cs[j], t)
  }

  predicate AllSatisfied(cs: seq<Clause>, t: nat) {
    forall i | 0 <= i < |cs| :: Satisfied(cs[i], t)
  }

  lemma ViolatedBehind(cs: seq<Clause>, t: nat)
    requires cs != [] && Satisfied(cs[0], t)
    ensures AllSatisfied(cs, t) <==> AllSatisfied(cs[1..], t)
    ensures forall i | FirstViolated(cs[1..], t, i) :: FirstViolated(cs, t, i + 1) && cs[i + 1] == cs[1..][i]
  {
    hide Satisfied;
    if AllSatisfied(cs[1..], t) {
      forall i | 0 <= i < |cs| ensures Satisfied(cs[i], t) {
        assert i > 0 ==> cs[i] == cs[1..][i - 1];
      }
    }
    forall i | FirstViolated(cs[1..], t, i) ensures FirstViolated(cs, t, i + 1) {
      forall j | 0 <= j < i + 1 ensures Satisfied(cs[j], t) {
        assert j > 0 ==> cs[j] == cs[1..][j - 1];
      }
    }
  }

  lemma {:induction false} FirstViolationIs(texts: seq<string>, cs: seq<Clause>, t: nat)
    requires |texts| == |cs| && forall i | 0 <= i < |texts| :: ClauseAccepted(texts[i]) && cs[i] == ClauseOf(texts[i])
    ensures FirstViolation(texts, t).None? ==> AllSatisfied(cs, t)
    ensures FirstViolation(texts, t).Some? ==> exists i :: FirstViolated(cs, t, i) && cs[i] == FirstViolation(texts, t).value
    decreases |texts|
  {
    hide ClauseAccepted, ClauseOf, Violation, Satisfied;
    if texts != [] {
      ViolationOfClause(texts[0], t);
      FirstViolationIs(texts[1..], cs[1..], t);
      if Violation(texts[0], t).None? {
        ViolatedBehind(cs, t);
        hide FirstViolated, AllSatisfied;
        if FirstViolation(texts, t).Some? {
          var i :| FirstViolated(cs[1..], t, i) && cs[1..][i] == FirstViolation(texts[1..], t).value;
          assert FirstViolated(cs, t, i + 1) && cs[i + 1] == FirstViolation(texts, t).value;
        }
      } else {
        assert FirstViolated(cs, t, 0);
      }
    }
  }

  lemma {:induction false} WindowIsAllClauses(cs: seq<Clause>, t: nat)
    requires t < 0x1_0000_0000_0000_0000
    ensures (Latest(cs) < t < Earliest(cs)) <==> AllSatisfied(cs, t)
  {
    if cs != [] {
      WindowIsAllClauses(cs[1..], t);
      if Satisfied(cs[0], t) {
        ViolatedBehind(cs, t);
      }
    }
  }

  /** On an accepted text, enforcement succeeds exactly inside the open window its
    bounds leave, and otherwise names the first bound violated. */
  lemma EnforcesExactlyTheWindow(s: string, t: nat)
    requires ValidateConditions(s) && t < 0x1_0000_0000_0000_0000
    ensures EnforceConditions(s, t).Ok? <==> Latest(ClausesOf(s)) < t < Earliest(ClausesOf(s))
    ensures EnforceConditions(s, t).Err? ==>
              exists i :: FirstViolated(ClausesOf(s), t, i) && ClausesOf(s)[i] == EnforceConditions(s, t).error
  {
    var cs := ClausesOf(s);
    WindowIsAllClauses(cs, t);
    if s != "" {
      hide ClauseAccepted, ClauseOf, FirstViolation, Latest, Earliest, Satisfied;
      FirstViolationIs(Split(s, '&'), cs, t);
    }
  }

  /** Accepted texts hold nothing that JSON would escape and nothing but ASCII. */
  predicate PlainChar(c: char) {
    ' ' < c <= '~' && c != '"' && c != '\\'
  }

  lemma {:induction false} JoinPlain(parts: seq<string>)
    requires forall i | 0 <= i < |parts| :: forall c | c in parts[i] :: PlainChar(c) && c != ':'
    ensures forall c | c in Join(parts, '&') :: PlainChar(c) && c != ':'
  {
    if |parts| > 1 {
      JoinPlain(parts[1..]);
    }
  }

  lemma AcceptedIsPlain(s: string)
    requires ValidateConditions(s)
    ensures forall c | c in s :: PlainChar(c) && c != ':'
  {
    AcceptedConditionsPrint(s);
    var cs := ClausesOf(s);
    hide ClausesOf, ValidateConditions;
    forall i | 0 <= i < |PrintClauses(cs)| ensures forall c | c in PrintClauses(cs)[i] :: PlainChar(c) && c != ':' {
      ClauseIsPlain(cs[i]);
    }
    hide PrintClauses, PlainChar;
    JoinPlain(PrintClauses(cs));
  }

  lemma ClauseIsPlain(d: Clause)
    ensures forall c | c in PrintClause(d) :: PlainChar(c) && c != ':'
  {
    assert forall c | c in Decimal(d.n) :: IsDigit(c);
    hide Decimal;
    assert forall c | c in KIND :: PlainChar(c) && c != ':';
    assert forall c | c in BEFORE :: PlainChar(c) && c != ':';
    assert forall c | c in AFTER :: PlainChar(c) && c != ':';
  }
}
