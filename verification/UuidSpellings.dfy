/** The textual forms of UUIDs. The library prints the canonical one (section 4 of RFC 9562)
  and reads it in either case, without its hyphens, in braces or as a URN. */
module UuidSpellings {
  import opened Wrappers
  import opened EventFilter
  import opened ChannelFilters

  function HexChar(d: nat): char
    requires d < 16
  {
    if d < 10 then (('0' as int) + d) as char else (('a' as int) + d - 10) as char
  }

  function HexDigit(c: char): (d: Option<nat>)
    ensures d.Some? ==> d.value < 16
  {
    if '0' <= c <= '9' then Some((c as int) - ('0' as int))
    else if 'a' <= c <= 'f' then Some((c as int) - ('a' as int) + 10)
    else if 'A' <= c <= 'F' then Some((c as int) - ('A' as int) + 10)
    else None
  }

  function Pow16(k: nat): (p: nat)
    ensures p > 0
  {
    if k == 0 then 1 else 16 * Pow16(k - 1)
  }

  /** The last `k` hex digits of `n`. */
  function Digits(n: nat, k: nat): (s: string)
    ensures |s| == k
  {
    if k == 0 then "" else Digits(n / 16, k - 1) + [HexChar(n % 16)]
  }

  function Value(s: string): Option<nat> {
    if s == "" then Some(0)
    else
      var before, d := Value(s[..|s| - 1]), HexDigit(s[|s| - 1]);
      if before.None? || d.None? then None else Some(16 * before.value + d.value)
  }

  lemma {:induction false} ValueBelow(s: string)
    ensures Value(s).Some? ==> Value(s).value < Pow16(|s|)
    decreases |s|
  {
    if s != "" {
      ValueBelow(s[..|s| - 1]);
    }
  }

  lemma {:induction false} ValueOfDigits(n: nat, k: nat)
    requires n < Pow16(k)
    ensures Value(Digits(n, k)) == Some(n)
    decreases k
  {
    if k > 0 {
      ValueOfDigits(n / 16, k - 1);
      assert Digits(n, k)[..k - 1] == Digits(n / 16, k - 1);
    }
  }

  lemma Pow16Is128Bits()
    ensures Pow16(32) == 0x1_0000_0000_0000_0000_0000_0000_0000_0000
  {
    assert Pow16(4) == 0x1_0000;
    hide Pow16;
    Pow16Word(4);
    Pow16Word(8);
    Pow16Word(12);
    Pow16Word(16);
    Pow16Word(20);
    Pow16Word(24);
    Pow16Word(28);
  }

  lemma Pow16Word(k: nat)
    ensures Pow16(k + 4) == 0x1_0000 * Pow16(k)
  {
    assert Pow16(k + 2) == 256 * Pow16(k);
    assert Pow16(k + 4) == 256 * Pow16(k + 2);
  }

  function Hyphenated(digits: string): string
    requires |digits| == 32
  {
    digits[..8] + "-" + digits[8..12] + "-" + digits[12..16] + "-" + digits[16..20] + "-" + digits[20..]
  }

  predicate HasHyphens(s: string) {
    |s| == 36 && s[8] == '-' && s[13] == '-' && s[18] == '-' && s[23] == '-'
  }

  function Unhyphenated(s: string): (digits: string)
    requires HasHyphens(s)
    ensures |digits| == 32
  {
    s[..8] + s[9..13] + s[14..18] + s[19..23] + s[24..]
  }

  lemma HyphensCancel(digits: string)
    requires |digits| == 32
    ensures HasHyphens(Hyphenated(digits)) && Unhyphenated(Hyphenated(digits)) == digits
  {
    var s := Hyphenated(digits);
    assert s[..8] == digits[..8] && s[9..13] == digits[8..12] && s[14..18] == digits[12..16];
    assert s[19..23] == digits[16..20] && s[24..] == digits[20..];
  }

  function ParseSimple(s: string): Option<Uuid> {
    if |s| != 32 || Value(s).None? then None
    else
      ValueBelow(s);
      Pow16Is128Bits();
      Some(Uuid(Value(s).value))
  }

  function ParseHyphenated(s: string): Option<Uuid> {
    if HasHyphens(s) then ParseSimple(Unhyphenated(s)) else None
  }

  const URN := "urn:uuid:"

  function Parse(s: string): Option<Uuid> {
    if |s| == 32 then ParseSimple(s)
    else if |s| == 36 then ParseHyphenated(s)
    else if |s| == 38 && s[0] == '{' && s[37] == '}' then ParseHyphenated(s[1..37])
    else if |s| == 45 && URN <= s then ParseHyphenated(s[9..])
    else None
  }

  function Show(u: Uuid): (s: string)
    ensures |s| == 36
  {
    Hyphenated(Digits(u.bits, 32))
  }

  function Standard(): Uuids {
    Uuids(Parse, Show)
  }

  lemma ParseOfShow(u: Uuid)
    ensures Parse(Show(u)) == Some(u)
  {
    hide Pow16, Value, Digits, Hyphenated, Unhyphenated, HasHyphens;
    Pow16Is128Bits();
    ValueOfDigits(u.bits, 32);
    HyphensCancel(Digits(u.bits, 32));
  }

  /** Every UUID is read back from its canonical spelling. */
  lemma StandardIsLawful()
    ensures Standard().Lawful()
  {
    hide Parse, Show;
    forall u ensures Standard().parse(Standard().show(u)) == Some(u) {
      ParseOfShow(u);
    }
  }

  /** The canonical spelling in braces names the same UUID, whichever it is. */
  lemma BracedIsOtherSpelling(u: Uuid)
    ensures Standard().parse("{" + Standard().show(u) + "}") == Some(u)
    ensures "{" + Standard().show(u) + "}" != Standard().show(u)
  {
    hide Show;
    ParseOfShow(u);
    var other := "{" + Show(u) + "}";
    assert |other| == 38 && other[0] == '{' && other[37] == '}' && other[1..37] == Show(u);
    hide ParseHyphenated;
  }

  function Upper(s: string): (t: string)
    ensures |t| == |s|
  {
    seq(|s|, i requires 0 <= i < |s| => if 'a' <= s[i] <= 'f' then (s[i] as int - 32) as char else s[i])
  }

  lemma {:induction false} UpperHasSameValue(s: string)
    ensures Value(Upper(s)) == Value(s)
    decreases |s|
  {
    if s != "" {
      UpperHasSameValue(s[..|s| - 1]);
      assert Upper(s)[..|s| - 1] == Upper(s[..|s| - 1]);
      assert HexDigit(Upper(s)[|s| - 1]) == HexDigit(s[|s| - 1]);
    }
  }

  lemma HyphenatedAt(digits: string, i: nat)
    requires |digits| == 32 && i < 36
    ensures Hyphenated(digits)[i] ==
            if i == 8 || i == 13 || i == 18 || i == 23 then '-'
            else digits[i - if i < 8 then 0 else if i < 13 then 1 else if i < 18 then 2 else if i < 23 then 3 else 4]
  {
  }

  lemma UpperOfHyphenated(digits: string)
    requires |digits| == 32
    ensures Upper(Hyphenated(digits)) == Hyphenated(Upper(digits))
  {
    assert |Hyphenated(digits)| == |Hyphenated(Upper(digits))| == 36;
    hide Hyphenated;
    forall i: nat | i < 36 ensures Upper(Hyphenated(digits))[i] == Hyphenated(Upper(digits))[i] {
      HyphenatedAt(digits, i);
      HyphenatedAt(Upper(digits), i);
    }
  }

  lemma UpperDiffers(s: string)
    ensures Upper(s) != s <==> exists c | c in s :: 'a' <= c <= 'f'
  {
    if c :| c in s && 'a' <= c <= 'f' {
      var i :| 0 <= i < |s| && s[i] == c;
      assert Upper(s)[i] != s[i];
    } else {
      forall i | 0 <= i < |s| ensures Upper(s)[i] == s[i] {
        assert s[i] in s;
      }
    }
  }

  /** In capitals the canonical spelling names the same UUID, and it is another spelling
    exactly if the canonical one has a letter in it. */
  lemma CapitalsSpellTheSame(u: Uuid)
    ensures Standard().parse(Upper(Standard().show(u))) == Some(u)
    ensures Upper(Standard().show(u)) != Standard().show(u) <==> exists c | c in Standard().show(u) :: 'a' <= c <= 'f'
  {
    var digits := Digits(u.bits, 32);
    UpperOfHyphenated(digits);
    UpperHasSameValue(digits);
    HyphensCancel(digits);
    HyphensCancel(Upper(digits));
    UpperDiffers(Show(u));
    ParseOfShow(u);
    hide Value, Digits, Upper, Hyphenated, Unhyphenated, HasHyphens, Pow16;
  }

  /** So a rule that lists a channel in capitals subscribes to it and matches none of its
    events: the UUID 10 has such a spelling. */
  lemma CapitalsNeverMatch(rule: Rule, call: Call)
    requires call.channel == Uuid(10) && rule.channels == List([Upper(Standard().show(Uuid(10)))])
    ensures Applies(Standard(), rule.channels, call.channel) && !Concerns(Standard(), rule, call)
  {
    CapitalsSpellTheSame(Uuid(10));
    var digits, shown := Digits(10, 32), Show(Uuid(10));
    assert digits[31] == 'a' && shown[35] == digits[31];
    hide Show, Upper, Parse;
    assert shown[35] in shown;
    OtherSpellingNeverMatches(Standard(), rule, Upper(Standard().show(Uuid(10))), Uuid(10), call);
  }
}
