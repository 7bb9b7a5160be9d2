/** The scanner that blanks comments and literals of Rust source while keeping every
  offset, with the two token patterns it matches written out by hand. */
module RustScanner {
  import opened Wrappers

  predicate At(s: string, i: nat, c: char) {
    i < |s| && s[i] == c
  }

  predicate Pair(s: string, i: nat, c: char, d: char) {
    At(s, i, c) && At(s, i + 1, d)
  }

  // ---------------------------------------------------------------- patterns

  predicate IsHex(c: char) {
    '0' <= c <= '9' || 'A' <= c <= 'F' || 'a' <= c <= 'f'
  }

  /** End of the run of hex digits and underscores from `i`. */
  function HexRun(s: string, i: nat): (e: nat)
    requires i <= |s|
    ensures i <= e <= |s|
    ensures forall j | i <= j < e :: IsHex(s[j]) || s[j] == '_'
    ensures e < |s| ==> !IsHex(s[e]) && s[e] != '_'
    decreases |s| - i
  {
    if i < |s| && (IsHex(s[i]) || s[i] == '_') then HexRun(s, i + 1) else i
  }

  /** End of the rest of a character literal whose quote stands just before `j`. */
  function CharBodyEnd(s: string, j: nat): Option<nat> {
    if At(s, j, '\\') then
      if Pair(s, j + 1, 'u', '{') && HexRun(s, j + 3) > j + 3 && Pair(s, HexRun(s, j + 3), '}', '\'') then
        Some(HexRun(s, j + 3) + 2)
      else if At(s, j + 1, 'x') && j + 3 < |s| && IsHex(s[j + 2]) && IsHex(s[j + 3]) && At(s, j + 4, '\'') then
        Some(j + 5)
      else if j + 1 < |s| && s[j + 1] != '\n' && At(s, j + 2, '\'') then Some(j + 3)
      else None
    else if j < |s| && s[j] != '\'' && s[j] != '\n' && At(s, j + 1, '\'') then Some(j + 2)
    else None
  }

  function CharLiteralEnd(s: string, i: nat): Option<nat> {
    if Pair(s, i, 'b', '\'') then CharBodyEnd(s, i + 2)
    else if At(s, i, '\'') then CharBodyEnd(s, i + 1)
    else None
  }

  function HashRun(s: string, i: nat): (n: nat)
    requires i <= |s|
    ensures i + n <= |s|
    ensures forall j | i <= j < i + n :: s[j] == '#'
    decreases |s| - i
  {
    if At(s, i, '#') then 1 + HashRun(s, i + 1) else 0
  }

  datatype Raw = Raw(hashes: nat, content: nat)

  function RawHashes(s: string, j: nat): Option<Raw>
    requires j <= |s|
  {
    var n := HashRun(s, j);
    if n <= 255 && At(s, j + n, '"') then Some(Raw(n, j + n + 1)) else None
  }

  function RawStart(s: string, i: nat): Option<Raw> {
    if Pair(s, i, 'b', 'r') then RawHashes(s, i + 2)
    else if At(s, i, 'r') then RawHashes(s, i + 1)
    else None
  }

  predicate Terminates(s: string, i: nat, n: nat) {
    At(s, i, '"') && HashRun(s, i + 1) >= n
  }

  /** First place at or after `i` with a quote and `n` hashes behind it. */
  function FindTerminator(s: string, i: nat, n: nat): (p: Option<nat>)
    requires i <= |s|
    ensures p.Some? ==> i <= p.value && p.value + 1 + n <= |s| && Terminates(s, p.value, n)
    ensures forall q | i <= q < (if p.Some? then p.value else |s|) :: !Terminates(s, q, n)
    decreases |s| - i
  {
    if i == |s| then None
    else if Terminates(s, i, n) then Some(i)
    else FindTerminator(s, i + 1, n)
  }

  // ---------------------------------------------------------------- tokens

  function FindNewline(s: string, i: nat): (e: nat)
    requires i <= |s|
    ensures i <= e <= |s|
    ensures forall j | i <= j < e :: s[j] != '\n'
    decreases |s| - i
  {
    if i == |s| || s[i] == '\n' then i else FindNewline(s, i + 1)
  }

  /** End of a block comment read up to `i` at nesting `depth`. */
  function BlockEnd(s: string, i: nat, depth: nat): (e: nat)
    requires i <= |s|
    ensures i <= e <= |s|
    decreases |s| - i
  {
    if i == |s| || depth == 0 then i
    else if Pair(s, i, '/', '*') then BlockEnd(s, i + 2, depth + 1)
    else if Pair(s, i, '*', '/') then BlockEnd(s, i + 2, depth - 1)
    else BlockEnd(s, i + 1, depth)
  }

  /** End of a string read up to `i`; past the end after a trailing backslash. */
  function StringEnd(s: string, i: nat): (e: nat)
    ensures i <= e && (i < |s| ==> i < e) && (i <= |s| ==> e <= |s| + 1)
    decreases |s| - i
  {
    if i >= |s| then i
    else if s[i] == '\\' then StringEnd(s, i + 2)
    else if s[i] == '"' then i + 1
    else StringEnd(s, i + 1)
  }

  /** End of the comment or literal that starts at `i`, or `i` if none does. */
  function TokenEnd(s: string, i: nat): (e: nat)
    requires i < |s|
    ensures i <= e <= |s|
  {
    if Pair(s, i, '/', '/') then FindNewline(s, i + 2)
    else if Pair(s, i, '/', '*') then BlockEnd(s, i + 2, 1)
    else if CharLiteralEnd(s, i).Some? then CharLiteralEnd(s, i).value
    else if RawStart(s, i).Some? then
      var raw := RawStart(s, i).value;
      var p := FindTerminator(s, raw.content, raw.hashes);
      if p.None? then |s| else p.value + 1 + raw.hashes
    else if Pair(s, i, 'b', '"') then Min(StringEnd(s, i + 2), |s|)
    else if s[i] == '"' then Min(StringEnd(s, i + 1), |s|)
    else i
  }

  function Blanked(s: string): (out: string)
    ensures |out| == |s|
  {
    seq(|s|, i requires 0 <= i < |s| => if s[i] == '\n' then '\n' else ' ')
  }

  function SanitizedFrom(s: string, i: nat): (out: string)
    requires i <= |s|
    ensures |out| == |s| - i
    decreases |s| - i
  {
    if i == |s| then ""
    else if TokenEnd(s, i) > i then Blanked(s[i..TokenEnd(s, i)]) + SanitizedFrom(s, TokenEnd(s, i))
    else [s[i]] + SanitizedFrom(s, i + 1)
  }

  function Sanitized(s: string): (out: string)
    ensures |out| == |s|
  {
    SanitizedFrom(s, 0)
  }

  // ---------------------------------------------------------------- the program

  function BlankedIn(chars: string, start: nat, end: nat): (out: string)
    requires start <= end <= |chars|
    ensures |out| == |chars|
  {
    chars[..start] + Blanked(chars[start..end]) + chars[end..]
  }

  /** Blank `chars[start..end]`, newlines excepted. */
  method BlankRange(chars: array<char>, start: nat, end: nat)
    requires start <= end <= chars.Length
    modifies chars
    ensures chars[..] == BlankedIn(old(chars[..]), start, end)
  {
    for offset := start to end
      invariant forall j | 0 <= j < chars.Length ::
                  chars[j] == if start <= j < offset then (if old(chars[j]) == '\n' then '\n' else ' ') else old(chars[j])
    {
      if chars[offset] != '\n' {
        chars[offset] := ' ';
      }
    }
  }

  /** The scan has come to `i`: what is before it is done, what is behind it untouched. */
  ghost predicate Scanned(s: string, chars: string, i: nat) {
    && i <= |s| == |chars|
    && chars[..i] + SanitizedFrom(s, i) == Sanitized(s)
    && chars[i..] == s[i..]
  }

  /** Blanking the token at `i` takes the scan behind it. */
  lemma Advance(s: string, i: nat, chars: string)
    requires Scanned(s, chars, i) && i < |s| && TokenEnd(s, i) > i
    ensures Scanned(s, BlankedIn(chars, i, TokenEnd(s, i)), TokenEnd(s, i))
  {
    hide TokenEnd, Blanked, Sanitized;
    var e := TokenEnd(s, i);
    assert SanitizedFrom(s, i) == Blanked(s[i..e]) + SanitizedFrom(s, e);
    hide SanitizedFrom;
    Suffixes(s, i, chars, e);
    Joined(chars[..i], Blanked(s[i..e]), chars[e..], SanitizedFrom(s, e));
  }

  lemma Suffixes(s: string, i: nat, chars: string, e: nat)
    requires i <= e <= |s| == |chars| && chars[i..] == s[i..]
    ensures chars[i..e] == s[i..e] && chars[e..] == s[e..]
  {
    assert chars[i..e] == chars[i..][..e - i] && s[i..e] == s[i..][..e - i];
    assert chars[e..] == chars[i..][e - i..] && s[e..] == s[i..][e - i..];
  }

  lemma Joined(a: string, b: string, before: string, after: string)
    ensures (a + b + before)[..|a| + |b|] + after == a + (b + after)
    ensures (a + b + before)[|a| + |b|..] == before
  {
  }

  lemma Skip(s: string, i: nat, chars: string)
    requires Scanned(s, chars, i) && i < |s| && TokenEnd(s, i) == i
    ensures Scanned(s, chars, i + 1)
  {
    hide TokenEnd, Sanitized;
    assert SanitizedFrom(s, i) == [s[i]] + SanitizedFrom(s, i + 1);
    hide SanitizedFrom;
    Suffixes(s, i, chars, i + 1);
    Rejoined(chars, i);
    assert chars[i] == chars[i..][0] == s[i];
    Joined(chars[..i], [s[i]], chars[i + 1..], SanitizedFrom(s, i + 1));
  }

  lemma ScanBegins(s: string)
    ensures Scanned(s, s, 0)
  {
    assert s[..0] == "" && s[0..] == s && "" + SanitizedFrom(s, 0) == SanitizedFrom(s, 0);
  }

  lemma ScanEnds(s: string, chars: string)
    requires Scanned(s, chars, |s|)
    ensures chars == Sanitized(s)
  {
    assert chars[..|s|] == chars && SanitizedFrom(s, |s|) == "" && chars + "" == chars;
  }

  lemma Rejoined(chars: string, i: nat)
    requires i < |chars|
    ensures chars == chars[..i] + [chars[i]] + chars[i + 1..]
  {
  }

  method ScanBlockComment(s: string, start: nat) returns (index: nat)
    requires Pair(s, start, '/', '*')
    ensures index == BlockEnd(s, start + 2, 1)
  {
    var depth := 1;
    index := start + 2;
    while index < |s| && depth > 0
      invariant index <= |s| && BlockEnd(s, index, depth) == BlockEnd(s, start + 2, 1)
    {
      if Pair(s, index, '/', '*') {
        depth := depth + 1;
        index := index + 2;
      } else if Pair(s, index, '*', '/') {
        depth := depth - 1;
        index := index + 2;
      } else {
        index := index + 1;
      }
    }
  }

  method ScanString(s: string, content: nat) returns (index: nat)
    requires content <= |s|
    ensures index == StringEnd(s, content)
  {
    index := content;
    while index < |s|
      invariant StringEnd(s, index) == StringEnd(s, content)
      decreases |s| - index
    {
      if s[index] == '\\' {
        index := index + 2;
      } else if s[index] == '"' {
        return index + 1;
      } else {
        index := index + 1;
      }
    }
  }

  /** End of the token at `index`, by the scanner's own loops; `index` if there is none. */
  method ScanToken(s: string, index: nat) returns (end: nat)
    requires index < |s|
    ensures Min(end, |s|) == TokenEnd(s, index)
  {
    if Pair(s, index, '/', '/') {
      return FindNewline(s, index + 2);
    }
    if Pair(s, index, '/', '*') {
      end := ScanBlockComment(s, index);
      return;
    }
    var character := CharLiteralEnd(s, index);
    if character.Some? {
      return character.value;
    }
    var raw := RawStart(s, index);
    if raw.Some? {
      var p := FindTerminator(s, raw.value.content, raw.value.hashes);
      return if p.None? then |s| else p.value + 1 + raw.value.hashes;
    }
    var quote := if Pair(s, index, 'b', '"') then index + 1 else index;
    if s[quote] == '"' {
      end := ScanString(s, quote + 1);
      return;
    }
    return index;
  }

  /** `sanitize_rust`. */
  method SanitizeRust(source: string) returns (out: string)
    ensures out == Sanitized(source)
  {
    hide Sanitized, Scanned, TokenEnd, BlankedIn;
    var chars := new char[|source|](i requires 0 <= i < |source| => source[i]);
    assert chars[..] == source;
    ScanBegins(source);
    var index := 0;
    while index < |source|
      invariant index <= |source| == chars.Length && Scanned(source, chars[..], index)
      decreases |source| - index
    {
      var end := ScanToken(source, index);
      end := Min(end, |source|);
      if end > index {
        Advance(source, index, chars[..]);
        BlankRange(chars, index, end);
        index := end;
      } else {
        Skip(source, index, chars[..]);
        index := index + 1;
      }
    }
    ScanEnds(source, chars[..]);
    return chars[..];
  }

  // ---------------------------------------------------------------- what is kept

  /** The scan from `i` passes over `k` as a character of no token. */
  predicate Plain(s: string, i: nat, k: nat): (plain: bool)
    requires i <= |s|
    ensures plain ==> i <= k < |s|
    decreases |s| - i
  {
    i <= k < |s| &&
    if TokenEnd(s, i) > i then Plain(s, TokenEnd(s, i), k) else k == i || Plain(s, i + 1, k)
  }

  lemma {:induction false} SanitizedAt(s: string, i: nat, k: nat)
    requires i <= k < |s|
    ensures SanitizedFrom(s, i)[k - i] == if Plain(s, i, k) then s[k] else if s[k] == '\n' then '\n' else ' '
    ensures Plain(s, i, k) ==> TokenEnd(s, k) == k
    decreases |s| - i
  {
    hide TokenEnd, SanitizedFrom;
    var e := TokenEnd(s, i);
    StepAt(s, i, k);
    if e > i {
      if k >= e {
        SanitizedAt(s, e, k);
      }
    } else if k > i {
      SanitizedAt(s, i + 1, k);
    }
  }

  lemma StepAt(s: string, i: nat, k: nat)
    requires i <= k < |s|
    ensures var e := TokenEnd(s, i);
            SanitizedFrom(s, i)[k - i] ==
            if i <= k < e then (if s[k] == '\n' then '\n' else ' ')
            else if e > i then SanitizedFrom(s, e)[k - e]
            else if k == i then s[k]
            else SanitizedFrom(s, i + 1)[k - i - 1]
  {
    hide TokenEnd, Blanked;
    var e := TokenEnd(s, i);
    if e > i {
      assert SanitizedFrom(s, i) == Blanked(s[i..e]) + SanitizedFrom(s, e);
      hide SanitizedFrom;
      CharOf(Blanked(s[i..e]), SanitizedFrom(s, e), k - i);
      if k < e {
        BlankedAt(s[i..e], k - i);
      }
    } else {
      assert SanitizedFrom(s, i) == [s[i]] + SanitizedFrom(s, i + 1);
      hide SanitizedFrom;
      CharOf([s[i]], SanitizedFrom(s, i + 1), k - i);
    }
  }

  lemma CharOf(a: string, b: string, k: nat)
    requires k < |a| + |b|
    ensures (a + b)[k] == if k < |a| then a[k] else b[k - |a|]
  {
  }

  lemma BlankedAt(s: string, k: nat)
    requires k < |s|
    ensures Blanked(s)[k] == if s[k] == '\n' then '\n' else ' '
  {
  }

  /** Right after a plain character the next one starts a token or is plain, and a
    token makes all its characters other than plain. */
  lemma {:induction false} AfterPlain(s: string, i: nat, k: nat, m: nat)
    requires i <= k && k + 1 < |s| && Plain(s, i, k)
    ensures Plain(s, i, k + 1) <==> TokenEnd(s, k + 1) == k + 1
    ensures k + 1 <= m < TokenEnd(s, k + 1) ==> !Plain(s, i, m)
    decreases |s| - i
  {
    hide TokenEnd;
    var e := TokenEnd(s, i);
    if e > i {
      AfterPlain(s, e, k, m);
    } else if k > i {
      AfterPlain(s, i + 1, k, m);
    } else {
      var next := TokenEnd(s, i + 1);
      assert Plain(s, i, i + 1) == Plain(s, i + 1, i + 1);
      if next > i + 1 {
        assert !Plain(s, next, i + 1) && !Plain(s, i + 1, i + 1);
        if i < m < next {
          assert Plain(s, i, m) == Plain(s, i + 1, m) == Plain(s, next, m);
        }
      }
    }
  }

  lemma TokenLength(s: string, i: nat)
    requires i < |s|
    ensures TokenEnd(s, i) > i ==> TokenEnd(s, i) >= i + 2 || TokenEnd(s, i) == |s|
  {
  }

  /** No single blanked character stands between two plain ones. */
  lemma NoLoneBlank(s: string, k: nat)
    requires k > 0 && k + 1 < |s| && Plain(s, 0, k - 1) && !Plain(s, 0, k)
    ensures !Plain(s, 0, k + 1)
  {
    hide TokenEnd;
    AfterPlain(s, 0, k - 1, k + 1);
    TokenLength(s, k);
  }

  /** Same length; every character is the original or a blank; newlines stay. */
  lemma SanitizedKeeps(s: string, k: nat)
    requires k < |s|
    ensures |Sanitized(s)| == |s|
    ensures Sanitized(s)[k] == s[k] || Sanitized(s)[k] == ' '
    ensures Sanitized(s)[k] == '\n' <==> s[k] == '\n'
  {
    SanitizedAt(s, 0, k);
  }

  /** A character of the output that a blank cannot be comes from no token. */
  lemma Survives(s: string, k: nat)
    requires k < |s| && Sanitized(s)[k] != ' ' && Sanitized(s)[k] != '\n'
    ensures Plain(s, 0, k) && s[k] == Sanitized(s)[k] && TokenEnd(s, k) == k
  {
    SanitizedAt(s, 0, k);
  }

  lemma NoQuoteSurvives(s: string, k: nat)
    requires k < |s|
    ensures Sanitized(s)[k] != '"'
  {
    hide Sanitized, SanitizedFrom;
    if Sanitized(s)[k] == '"' {
      Survives(s, k);
    }
  }

  lemma NoCommentSurvives(s: string, k: nat)
    requires k < |s|
    ensures !Pair(Sanitized(s), k, '/', '/') && !Pair(Sanitized(s), k, '/', '*')
  {
    SanitizedKeeps(s, k);
    hide Sanitized, SanitizedFrom;
    var out := Sanitized(s);
    if Pair(out, k, '/', '/') || Pair(out, k, '/', '*') {
      Survives(s, k);
      Survives(s, k + 1);
    }
  }

  /** In the output a blank stands for itself in the source unless the characters
    around it were blanked with it. */
  lemma BetweenSurvivors(s: string, k: nat)
    requires k > 0 && k + 1 < |s|
    requires Sanitized(s)[k - 1] != ' ' && Sanitized(s)[k - 1] != '\n'
    requires Sanitized(s)[k + 1] != ' ' && Sanitized(s)[k + 1] != '\n'
    ensures Plain(s, 0, k) && s[k] == Sanitized(s)[k]
  {
    hide Sanitized, SanitizedFrom;
    Survives(s, k - 1);
    Survives(s, k + 1);
    if !Plain(s, 0, k) {
      NoLoneBlank(s, k);
    }
    SanitizedAtStart(s, k);
  }

  lemma SanitizedAtStart(s: string, k: nat)
    requires k < |s| && Plain(s, 0, k)
    ensures Sanitized(s)[k] == s[k]
  {
    SanitizedAt(s, 0, k);
  }

  lemma HexRunSurvives(s: string, i: nat)
    requires i <= |s|
    ensures HexRun(Sanitized(s), i) > i && At(Sanitized(s), HexRun(Sanitized(s), i), '}') ==>
              HexRun(s, i) == HexRun(Sanitized(s), i)
  {
    var out := Sanitized(s);
    hide Sanitized, SanitizedFrom, TokenEnd;
    var e := HexRun(out, i);
    if e > i && At(out, e, '}') {
      forall j | i <= j < e ensures s[j] == out[j] {
        Survives(s, j);
      }
      Survives(s, e);
      HexRunIs(s, i, e);
    }
  }

  lemma {:induction false} HexRunIs(s: string, i: nat, e: nat)
    requires i <= e <= |s| && (forall j | i <= j < e :: IsHex(s[j]) || s[j] == '_')
    requires e < |s| ==> !IsHex(s[e]) && s[e] != '_'
    ensures HexRun(s, i) == e
    decreases e - i
  {
    if i < e {
      HexRunIs(s, i + 1, e);
    }
  }

  /** The rest of a character literal in the output was one in the source. */
  lemma CharBodySurvives(s: string, j: nat)
    requires 0 < j && At(Sanitized(s), j - 1, '\'')
    requires CharBodyEnd(Sanitized(s), j).Some?
    ensures CharBodyEnd(s, j).Some?
  {
    var out := Sanitized(s);
    hide Sanitized, SanitizedFrom, TokenEnd;
    if At(out, j, '\\') {
      Survives(s, j);
      if Pair(out, j + 1, 'u', '{') && HexRun(out, j + 3) > j + 3 && Pair(out, HexRun(out, j + 3), '}', '\'') {
        Survives(s, j + 1);
        Survives(s, j + 2);
        HexRunSurvives(s, j + 3);
        Survives(s, HexRun(out, j + 3));
        Survives(s, HexRun(out, j + 3) + 1);
      } else if At(out, j + 1, 'x') && j + 3 < |out| && IsHex(out[j + 2]) && IsHex(out[j + 3]) && At(out, j + 4, '\'') {
        Survives(s, j + 1);
        Survives(s, j + 2);
        Survives(s, j + 3);
        Survives(s, j + 4);
      } else {
        Survives(s, j + 2);
        BetweenSurvivors(s, j + 1);
      }
    } else {
      Survives(s, j + 1);
      BetweenSurvivors(s, j);
    }
  }

  lemma NoCharLiteralSurvives(s: string, k: nat)
    requires k < |s|
    ensures CharLiteralEnd(Sanitized(s), k).None?
  {
    SanitizedKeeps(s, k);
    var out := Sanitized(s);
    hide Sanitized, SanitizedFrom, CharBodyEnd, HexRun;
    if CharLiteralEnd(out, k).Some? {
      Survives(s, k);
      if Pair(out, k, 'b', '\'') {
        Survives(s, k + 1);
        CharBodySurvives(s, k + 2);
      } else {
        CharBodySurvives(s, k + 1);
      }
      CharLiteralIsToken(s, k);
    }
  }

  lemma CharLiteralIsToken(s: string, k: nat)
    requires k < |s| && CharLiteralEnd(s, k).Some?
    ensures TokenEnd(s, k) > k
  {
  }

  /** The output holds no comment and no literal, so nothing in it starts a token. */
  lemma NoTokenSurvives(s: string, k: nat)
    requires k < |s|
    ensures TokenEnd(Sanitized(s), k) == k
  {
    SanitizedKeeps(s, k);
    NoCommentSurvives(s, k);
    NoCharLiteralSurvives(s, k);
    var out := Sanitized(s);
    hide Sanitized, SanitizedFrom, CharLiteralEnd;
    forall j | 0 <= j < |out| ensures out[j] != '"' {
      NoQuoteSurvives(s, j);
    }
    assert RawStart(out, k).None?;
  }

  lemma {:induction false} CleanStays(s: string, i: nat)
    requires i <= |s| && forall k | i <= k < |s| :: TokenEnd(s, k) == k
    ensures SanitizedFrom(s, i) == s[i..]
    decreases |s| - i
  {
    hide TokenEnd;
    if i < |s| {
      CleanStays(s, i + 1);
      assert s[i..] == [s[i]] + s[i + 1..];
    }
  }

  /** Sanitizing twice is sanitizing once. */
  lemma SanitizeIdempotent(s: string)
    ensures Sanitized(Sanitized(s)) == Sanitized(s)
  {
    var out := Sanitized(s);
    if s != "" {
      SanitizedKeeps(s, 0);
    }
    forall k | 0 <= k < |out| ensures TokenEnd(out, k) == k {
      NoTokenSurvives(s, k);
    }
    hide TokenEnd;
    CleanStays(out, 0);
    assert out[0..] == out;
  }

  // ---------------------------------------------------------------- literal values

  /** `str.isspace`, which is also what `\s` matches. */
  predicate Isspace(c: char) {
    || '\t' <= c <= '\r' || '\U{1C}' <= c <= ' ' || c == '\U{85}' || c == '\U{A0}' || c == '\U{1680}'
    || '\U{2000}' <= c <= '\U{200A}' || c == '\U{2028}' || c == '\U{2029}' || c == '\U{202F}'
    || c == '\U{205F}' || c == '\U{3000}'
  }

  function SkipSpaces(s: string, i: nat): (e: nat)
    requires i <= |s|
    ensures i <= e <= |s| && forall j | i <= j < e :: Isspace(s[j])
    ensures e < |s| ==> !Isspace(s[e])
    decreases |s| - i
  {
    if i < |s| && Isspace(s[i]) then SkipSpaces(s, i + 1) else i
  }

  datatype Literal = Literal(content: string, end: nat)

  /** The characters of an ordinary string up to its closing quote, each backslash
    dropped in favour of the character behind it. */
  function StringContent(s: string, i: nat): Option<Literal>
    requires i <= |s|
    decreases |s| - i
  {
    if i == |s| then None
    else if s[i] == '\\' then
      if i + 1 == |s| then None else Prefixed([s[i + 1]], StringContent(s, i + 2))
    else if s[i] == '"' then Some(Literal("", i + 1))
    else Prefixed([s[i]], StringContent(s, i + 1))
  }

  /** The literal with `front` before its content. */
  function Prefixed(front: string, rest: Option<Literal>): (r: Option<Literal>)
    ensures r.Some? == rest.Some? && (r.Some? ==> r.value.end == rest.value.end)
  {
    if rest.None? then None else Some(Literal(front + rest.value.content, rest.value.end))
  }

  function ParsedLiteral(s: string, start: nat): Option<Literal>
    requires start <= |s|
  {
    var i := SkipSpaces(s, start);
    if RawStart(s, i).Some? then
      var raw := RawStart(s, i).value;
      var p := FindTerminator(s, raw.content, raw.hashes);
      if p.None? then None else Some(Literal(s[raw.content..p.value], p.value + 1 + raw.hashes))
    else if !At(s, i, '"') then None
    else StringContent(s, i + 1)
  }

  /** `parse_rust_string_literal`. */
  method ParseRustStringLiteral(s: string, start: nat) returns (r: Option<Literal>)
    requires start <= |s|
    ensures r == ParsedLiteral(s, start)
  {
    var index := start;
    while index < |s| && Isspace(s[index])
      invariant index <= |s| && SkipSpaces(s, index) == SkipSpaces(s, start)
    {
      index := index + 1;
    }
    var raw := RawStart(s, index);
    if raw.Some? {
      var p := FindTerminator(s, raw.value.content, raw.value.hashes);
      if p.None? {
        return None;
      }
      return Some(Literal(s[raw.value.content..p.value], p.value + 1 + raw.value.hashes));
    }
    if !At(s, index, '"') {
      return None;
    }
    index := index + 1;
    ghost var first := index;
    var content := "";
    PrefixedStep("", ' ', StringContent(s, first));
    while index < |s|
      invariant index <= |s| && StringContent(s, first) == Prefixed(content, StringContent(s, index))
    {
      hide Prefixed;
      if s[index] == '\\' {
        if index + 1 >= |s| {
          PrefixedNone(content);
          return None;
        }
        PrefixedStep(content, s[index + 1], StringContent(s, index + 2));
        content := content + [s[index + 1]];
        index := index + 2;
      } else if s[index] == '"' {
        PrefixedEnd(content, index + 1);
        return Some(Literal(content, index + 1));
      } else {
        PrefixedStep(content, s[index], StringContent(s, index + 1));
        content := content + [s[index]];
        index := index + 1;
      }
    }
    return None;
  }

  lemma PrefixedStep(content: string, c: char, rest: Option<Literal>)
    ensures Prefixed("", rest) == rest
    ensures Prefixed(content, Prefixed([c], rest)) == Prefixed(content + [c], rest)
  {
    if rest.Some? {
      assert "" + rest.value.content == rest.value.content;
      assert content + ([c] + rest.value.content) == content + [c] + rest.value.content;
    }
  }

  lemma PrefixedNone(content: string)
    ensures Prefixed(content, None) == None
  {
  }

  lemma PrefixedEnd(content: string, end: nat)
    ensures Prefixed(content, Some(Literal("", end))) == Some(Literal(content, end))
  {
    assert content + "" == content;
  }

  lemma {:induction false} ContentEndsWithString(s: string, i: nat)
    requires i <= |s|
    ensures StringContent(s, i).Some? ==> StringContent(s, i).value.end == StringEnd(s, i) <= |s|
    decreases |s| - i
  {
    if i < |s| {
      if s[i] == '\\' {
        if i + 1 < |s| {
          ContentEndsWithString(s, i + 2);
        }
      } else if s[i] != '"' {
        ContentEndsWithString(s, i + 1);
      }
    }
  }

  /** `content` written as an ordinary string literal. */
  function Quoted(content: string): string {
    "\"" + Escaped(content) + "\""
  }

  function Escaped(content: string): string {
    if content == "" then ""
    else (if content[0] == '"' || content[0] == '\\' then ['\\', content[0]] else [content[0]]) + Escaped(content[1..])
  }

  lemma {:induction false} EscapedContent(pre: string, content: string, post: string)
    ensures StringContent(pre + Escaped(content) + "\"" + post, |pre|) ==
            Some(Literal(content, |pre| + |Escaped(content)| + 1))
    decreases content
  {
    var s := pre + Escaped(content) + "\"" + post;
    if content == "" {
      assert s[|pre|] == '"';
    } else {
      var piece := if content[0] == '"' || content[0] == '\\' then ['\\', content[0]] else [content[0]];
      assert s == (pre + piece) + Escaped(content[1..]) + "\"" + post;
      assert s[|pre|] == piece[0] && s[|pre| + |piece| - 1] == content[0];
      EscapedContent(pre + piece, content[1..], post);
      assert [content[0]] + content[1..] == content;
    }
  }

  /** Any text written as a literal, behind any white space and before any other text,
    is read back whole, and reading stops just behind its closing quote. */
  lemma QuotedLiteralParses(space: string, content: string, post: string)
    requires forall j | 0 <= j < |space| :: Isspace(space[j])
    ensures ParsedLiteral(space + Quoted(content) + post, 0) == Some(Literal(content, |space| + |Quoted(content)|))
  {
    var s := space + Quoted(content) + post;
    assert s == (space + "\"") + Escaped(content) + "\"" + post;
    assert s[|space|] == '"';
    SpacesSkipped(s, 0, |space|);
    EscapedContent(space + "\"", content, post);
  }

  lemma {:induction false} SpacesSkipped(s: string, i: nat, e: nat)
    requires i <= e <= |s| && (e < |s| ==> !Isspace(s[e]))
    requires forall j | i <= j < e :: Isspace(s[j])
    ensures SkipSpaces(s, i) == e
    decreases e - i
  {
    if i < e {
      SpacesSkipped(s, i + 1, e);
    }
  }

  /** Text of a block comment: runs free of its two marks, and comments inside it. */
  datatype Comment = Done | Run(text: string, rest: Comment) | Nested(inner: Comment, rest: Comment)

  predicate MarkFree(c: Comment) {
    match c
    case Done => true
    case Run(text, rest) => '/' !in text && '*' !in text && MarkFree(rest)
    case Nested(inner, rest) => MarkFree(inner) && MarkFree(rest)
  }

  function CommentText(c: Comment): string {
    match c
    case Done => ""
    case Run(text, rest) => text + CommentText(rest)
    case Nested(inner, rest) => "/*" + CommentText(inner) + "*/" + CommentText(rest)
  }

  lemma {:induction false} RunPassed(s: string, i: nat, e: nat, depth: nat)
    requires i <= e <= |s| && depth > 0 && forall j | i <= j < e :: s[j] != '/' && s[j] != '*'
    ensures BlockEnd(s, i, depth) == BlockEnd(s, e, depth)
    decreases e - i
  {
    if i < e {
      RunPassed(s, i + 1, e, depth);
    }
  }

  lemma {:induction false} CommentPassed(pre: string, c: Comment, post: string, depth: nat)
    requires MarkFree(c) && depth > 0
    ensures BlockEnd(pre + CommentText(c) + post, |pre|, depth) ==
            BlockEnd(pre + CommentText(c) + post, |pre + CommentText(c)|, depth)
    decreases c
  {
    hide BlockEnd;
    var s := pre + CommentText(c) + post;
    match c {
      case Done =>
        assert pre + CommentText(c) == pre;
      case Run(text, rest) =>
        assert s == (pre + text) + CommentText(rest) + post;
        assert pre + CommentText(c) == (pre + text) + CommentText(rest);
        RunPassed(s, |pre|, |pre + text|, depth);
        CommentPassed(pre + text, rest, post, depth);
      case Nested(inner, rest) =>
        NestedPassed(pre, CommentText(inner), CommentText(rest), post, depth);
        CommentPassed(pre + "/*", inner, "*/" + (CommentText(rest) + post), depth + 1);
        CommentPassed(pre + "/*" + CommentText(inner) + "*/", rest, post, depth);
    }
  }

  lemma NestedPassed(pre: string, inner: string, rest: string, post: string, depth: nat)
    requires depth > 0
    ensures var before := pre + "/*";
            var behind := before + inner + "*/";
            var s := pre + ("/*" + inner + "*/" + rest) + post;
            && s == before + inner + ("*/" + (rest + post)) == behind + rest + post
            && pre + ("/*" + inner + "*/" + rest) == behind + rest
            && BlockEnd(s, |pre|, depth) == BlockEnd(s, |before|, depth + 1)
            && BlockEnd(s, |before + inner|, depth + 1) == BlockEnd(s, |behind|, depth)
  {
    hide BlockEnd;
    var before := pre + "/*";
    var behind := before + inner + "*/";
    var s := pre + ("/*" + inner + "*/" + rest) + post;
    assert s == before + inner + ("*/" + (rest + post)) == behind + rest + post;
    Mark(s, |pre|, depth);
    Mark(s, |before + inner|, depth + 1);
  }

  lemma Mark(s: string, i: nat, depth: nat)
    requires i + 2 <= |s| && depth > 0
    ensures s[i..i + 2] == "/*" ==> BlockEnd(s, i, depth) == BlockEnd(s, i + 2, depth + 1)
    ensures s[i..i + 2] == "*/" ==> BlockEnd(s, i, depth) == BlockEnd(s, i + 2, depth - 1)
  {
    assert s[i] == s[i..i + 2][0] && s[i + 1] == s[i..i + 2][1];
  }

  /** A block comment ends with the mark that closes it, not with the first one of a
    comment inside it. */
  lemma NestedCommentEnds(pre: string, c: Comment, post: string)
    requires MarkFree(c)
    ensures var comment := "/*" + CommentText(c) + "*/";
            TokenEnd(pre + comment + post, |pre|) == |pre + comment|
  {
    hide BlockEnd, CommentText;
    var text := CommentText(c);
    var comment := "/*" + text + "*/";
    var s := pre + comment + post;
    BetweenMarks(pre, text, post);
    CommentPassed(pre + "/*", c, "*/" + post, 1);
    Mark(s, |pre| + 2 + |text|, 1);
    ClosedAt(s, |pre + comment|);
  }

  lemma BetweenMarks(pre: string, text: string, post: string)
    ensures var s, close := pre + ("/*" + text + "*/") + post, |pre| + 2 + |text|;
            && s == (pre + "/*") + text + ("*/" + post) && Pair(s, |pre|, '/', '*')
            && close + 2 <= |s| && s[close..close + 2] == "*/"
  {
    var s, close := pre + ("/*" + text + "*/") + post, |pre| + 2 + |text|;
    assert s[close] == '*' && s[close + 1] == '/';
  }

  lemma ClosedAt(s: string, i: nat)
    requires i <= |s|
    ensures BlockEnd(s, i, 0) == i
  {
  }

  /** Where a literal can be parsed without leading space, the scanner blanks exactly
    the characters the parser consumes. */
  lemma ParserAndScannerAgree(s: string, i: nat)
    requires i < |s| && !Isspace(s[i])
    ensures ParsedLiteral(s, i).Some? ==> TokenEnd(s, i) == ParsedLiteral(s, i).value.end
  {
    hide FindTerminator, HashRun, BlockEnd, CharBodyEnd;
    if At(s, i, '"') {
      ContentEndsWithString(s, i + 1);
    }
  }
}
