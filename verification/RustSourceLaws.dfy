/** What the scanner makes of a source, told by the tokens the source is written in: code
  in which nothing starts is kept, comments and literals are blanked, and every source
  can be read so. */
module RustSourceLaws {
  import opened Wrappers
  import opened RustScanner

  predicate Occurs(s: string, i: nat, text: string) {
    i + |text| <= |s| && forall j | 0 <= j < |text| :: s[i + j] == text[j]
  }

  lemma OccursBoth(s: string, i: nat, a: string, b: string)
    ensures Occurs(s, i, a + b) <==> Occurs(s, i, a) && Occurs(s, i + |a|, b)
  {
    var t := a + b;
    assert forall j | 0 <= j < |a| :: t[j] == a[j];
    assert forall j | 0 <= j < |b| :: t[|a| + j] == b[j];
    if Occurs(s, i, t) && i + |a| + |b| <= |s| {
      forall j | 0 <= j < |b| ensures s[i + |a| + j] == b[j] {
        assert s[i + (|a| + j)] == t[|a| + j];
      }
      forall j | 0 <= j < |a| ensures s[i + j] == a[j] {
        assert s[i + j] == t[j];
      }
    }
  }

  lemma OccursSlice(s: string, i: nat, e: nat)
    requires i <= e <= |s|
    ensures Occurs(s, i, s[i..e])
  {
  }

  lemma Occurs1(s: string, i: nat, c: char)
    ensures Occurs(s, i, [c]) <==> At(s, i, c)
  {
    assert [c][0] == c;
  }

  lemma Occurs2(s: string, i: nat, c: char, d: char)
    ensures Occurs(s, i, [c, d]) <==> Pair(s, i, c, d)
  {
    assert [c, d][0] == c && [c, d][1] == d;
    assert Occurs(s, i, [c, d]) ==> s[i + 0] == c && s[i + 1] == d;
  }

  // ---------------------------------------------------------------- character literals

  datatype CharBody = Char(c: char) | Escape(c: char) | Byte(high: char, low: char) | Unicode(digits: string)

  predicate ProperBody(body: CharBody) {
    match body
    case Char(c) => c != '\\' && c != '\'' && c != '\n'
    case Escape(c) => c != '\n'
    case Byte(high, low) => HexDigit(high) && HexDigit(low)
    case Unicode(digits) => digits != "" && forall j | 0 <= j < |digits| :: HexDigit(digits[j]) || digits[j] == '_'
  }

  predicate HexDigit(c: char) {
    '0' <= c <= '9' || 'a' <= c <= 'f' || 'A' <= c <= 'F'
  }

  function BodyText(body: CharBody): string {
    match body
    case Char(c) => [c]
    case Escape(c) => ['\\', c]
    case Byte(high, low) => ['\\', 'x', high, low]
    case Unicode(digits) => "\\u{" + digits + "}"
  }

  /** A character literal, with or without a `b` in front. */
  function CharText(b: bool, body: CharBody): string {
    (if b then "b'" else "'") + (BodyText(body) + "'")
  }

  ghost predicate CharAt(s: string, i: nat, b: bool, body: CharBody) {
    ProperBody(body) && Occurs(s, i, CharText(b, body))
  }

  ghost predicate CharStarts(s: string, i: nat) {
    exists b, body :: CharAt(s, i, b, body)
  }

  lemma {:induction false} HexRunFits(s: string, i: nat, digits: string)
    requires Occurs(s, i, digits) && forall j | 0 <= j < |digits| :: IsHex(digits[j]) || digits[j] == '_'
    requires At(s, i + |digits|, '}')
    ensures HexRun(s, i) == i + |digits|
  {
    forall j | i <= j < i + |digits| ensures IsHex(s[j]) || s[j] == '_' {
      assert s[i + (j - i)] == digits[j - i];
    }
    HexRunIs(s, i, i + |digits|);
  }

  lemma ShortFound(s: string, j: nat, body: CharBody)
    requires (body.Char? || body.Escape?) && ProperBody(body)
    requires Occurs(s, j, BodyText(body)) && At(s, j + |BodyText(body)|, '\'')
    ensures CharBodyEnd(s, j) == Some(j + |BodyText(body)| + 1)
  {
    if body.Char? {
      Occurs1(s, j, body.c);
    } else {
      Occurs2(s, j, '\\', body.c);
    }
    hide Occurs, HexRun;
  }

  lemma ByteFound(s: string, j: nat, high: char, low: char)
    requires HexDigit(high) && HexDigit(low) && Occurs(s, j, ['\\', 'x', high, low]) && At(s, j + 4, '\'')
    ensures CharBodyEnd(s, j) == Some(j + 5)
  {
    var t := ['\\', 'x', high, low];
    assert s[j + 0] == t[0] && s[j + 1] == t[1] && s[j + 2] == t[2] && s[j + 3] == t[3];
    hide Occurs, HexRun;
  }

  /** A body that occurs is found by the pattern, to its own end. */
  lemma BodyFound(s: string, j: nat, body: CharBody)
    requires ProperBody(body) && Occurs(s, j, BodyText(body) + "'")
    ensures CharBodyEnd(s, j) == Some(j + |BodyText(body)| + 1)
  {
    hide Occurs, HexRun, CharBodyEnd;
    OccursBoth(s, j, BodyText(body), "'");
    Occurs1(s, j + |BodyText(body)|, '\'');
    match body {
      case Char(_) => ShortFound(s, j, body);
      case Escape(_) => ShortFound(s, j, body);
      case Byte(high, low) => ByteFound(s, j, high, low);
      case Unicode(digits) => UnicodeFound(s, j, digits);
    }
  }

  lemma UnicodeFound(s: string, j: nat, digits: string)
    requires ProperBody(Unicode(digits)) && Occurs(s, j, BodyText(Unicode(digits))) && At(s, j + 4 + |digits|, '\'')
    ensures CharBodyEnd(s, j) == Some(j + |digits| + 5)
  {
    UnicodeOccurs(s, j, digits);
    hide Occurs, HexRun, BodyText;
  }

  lemma UnicodeOccurs(s: string, j: nat, digits: string)
    requires ProperBody(Unicode(digits)) && Occurs(s, j, BodyText(Unicode(digits))) && At(s, j + 4 + |digits|, '\'')
    ensures At(s, j, '\\') && Pair(s, j + 1, 'u', '{') && HexRun(s, j + 3) == j + 3 + |digits|
    ensures At(s, j + 3 + |digits|, '}')
  {
    OccursBoth(s, j, "\\u{" + digits, "}");
    OccursBoth(s, j, "\\u{", digits);
    Occurs1(s, j + 3 + |digits|, '}');
    assert s[j + 0] == "\\u{"[0] && s[j + 1] == "\\u{"[1] && s[j + 2] == "\\u{"[2];
    forall k | 0 <= k < |digits| ensures IsHex(digits[k]) || digits[k] == '_' {
    }
    HexRunFits(s, j + 3, digits);
  }

  lemma RunIsDigits(s: string, i: nat)
    requires i <= |s| && HexRun(s, i) > i
    ensures ProperBody(Unicode(s[i..HexRun(s, i)]))
  {
    var digits := s[i..HexRun(s, i)];
    forall k | 0 <= k < |digits| ensures HexDigit(digits[k]) || digits[k] == '_' {
    }
    hide HexRun;
  }

  lemma UnicodeThere(s: string, j: nat) returns (body: CharBody)
    requires At(s, j, '\\') && Pair(s, j + 1, 'u', '{') && HexRun(s, j + 3) > j + 3 && At(s, HexRun(s, j + 3), '}')
    ensures ProperBody(body) && Occurs(s, j, BodyText(body)) && j + |BodyText(body)| == HexRun(s, j + 3) + 1
  {
    hide Occurs, HexRun, ProperBody;
    var e := HexRun(s, j + 3);
    var digits := s[j + 3..e];
    body := Unicode(digits);
    RunIsDigits(s, j + 3);
    OccursSlice(s, j + 3, e);
    Occurs1(s, e, '}');
    MarkThere(s, j);
    OccursBoth(s, j, "\\u{", digits);
    OccursBoth(s, j, "\\u{" + digits, "}");
  }

  lemma MarkThere(s: string, j: nat)
    requires At(s, j, '\\') && Pair(s, j + 1, 'u', '{')
    ensures Occurs(s, j, "\\u{")
  {
    var t := "\\u{";
    assert t[0] == '\\' && t[1] == 'u' && t[2] == '{';
  }

  lemma ByteThere(s: string, j: nat) returns (body: CharBody)
    requires At(s, j, '\\') && At(s, j + 1, 'x') && j + 3 < |s| && IsHex(s[j + 2]) && IsHex(s[j + 3])
    ensures ProperBody(body) && Occurs(s, j, BodyText(body)) && |BodyText(body)| == 4
  {
    body := Byte(s[j + 2], s[j + 3]);
    Occurs2(s, j, '\\', 'x');
    Occurs2(s, j + 2, s[j + 2], s[j + 3]);
    OccursBoth(s, j, ['\\', 'x'], [s[j + 2], s[j + 3]]);
    assert BodyText(body) == ['\\', 'x'] + [s[j + 2], s[j + 3]];
  }

  lemma ShortThere(s: string, j: nat) returns (body: CharBody)
    requires if At(s, j, '\\') then j + 1 < |s| && s[j + 1] != '\n' else j < |s| && s[j] != '\'' && s[j] != '\n'
    ensures ProperBody(body) && Occurs(s, j, BodyText(body)) && |BodyText(body)| == if At(s, j, '\\') then 2 else 1
  {
    if At(s, j, '\\') {
      body := Escape(s[j + 1]);
      Occurs2(s, j, '\\', s[j + 1]);
    } else {
      body := Char(s[j]);
      Occurs1(s, j, s[j]);
    }
    hide Occurs;
  }

  /** Where the pattern finds a body, one occurs. */
  lemma BodyThere(s: string, j: nat) returns (body: CharBody)
    requires CharBodyEnd(s, j).Some?
    ensures ProperBody(body) && Occurs(s, j, BodyText(body) + "'") && CharBodyEnd(s, j) == Some(j + |BodyText(body)| + 1)
  {
    hide Occurs, HexRun;
    if At(s, j, '\\') {
      if Pair(s, j + 1, 'u', '{') && HexRun(s, j + 3) > j + 3 && Pair(s, HexRun(s, j + 3), '}', '\'') {
        body := UnicodeThere(s, j);
      } else if At(s, j + 1, 'x') && j + 3 < |s| && IsHex(s[j + 2]) && IsHex(s[j + 3]) && At(s, j + 4, '\'') {
        body := ByteThere(s, j);
      } else {
        body := ShortThere(s, j);
      }
    } else {
      body := ShortThere(s, j);
    }
    hide CharBodyEnd, BodyText, ProperBody;
    OccursBoth(s, j, BodyText(body), "'");
    Occurs1(s, j + |BodyText(body)|, '\'');
  }

  lemma QuoteFirst(s: string, i: nat, b: bool, rest: string)
    ensures var t := (if b then "b'" else "'") + rest;
            Occurs(s, i, t) <==>
            if b then Pair(s, i, 'b', '\'') && Occurs(s, i + 2, rest) else At(s, i, '\'') && Occurs(s, i + 1, rest)
  {
    OccursBoth(s, i, if b then "b'" else "'", rest);
    if b {
      Occurs2(s, i, 'b', '\'');
    } else {
      Occurs1(s, i, '\'');
    }
  }

  lemma CharFound(s: string, i: nat, b: bool, body: CharBody)
    requires CharAt(s, i, b, body)
    ensures CharLiteralEnd(s, i) == Some(i + |CharText(b, body)|)
  {
    hide BodyText, ProperBody, CharBodyEnd;
    QuoteFirst(s, i, b, BodyText(body) + "'");
    BodyFound(s, if b then i + 2 else i + 1, body);
  }

  lemma CharThere(s: string, i: nat) returns (b: bool, body: CharBody)
    requires CharLiteralEnd(s, i).Some?
    ensures CharAt(s, i, b, body) && CharLiteralEnd(s, i) == Some(i + |CharText(b, body)|)
  {
    hide BodyText, ProperBody, CharBodyEnd, Occurs;
    b := Pair(s, i, 'b', '\'');
    body := BodyThere(s, if b then i + 2 else i + 1);
    QuoteFirst(s, i, b, BodyText(body) + "'");
  }

  /** The pattern of a character literal finds exactly the literals of the grammar. */
  lemma CharLiteralsExactly(s: string, i: nat)
    ensures CharLiteralEnd(s, i).Some? <==> CharStarts(s, i)
    ensures forall b, body | CharAt(s, i, b, body) :: CharLiteralEnd(s, i) == Some(i + |CharText(b, body)|)
  {
    hide CharAt, CharText, CharLiteralEnd;
    forall b, body | CharAt(s, i, b, body) ensures CharLiteralEnd(s, i) == Some(i + |CharText(b, body)|) {
      CharFound(s, i, b, body);
    }
    if CharLiteralEnd(s, i).Some? {
      var b, body := CharThere(s, i);
    }
  }

  // ---------------------------------------------------------------- raw strings

  function Hashes(n: nat): string {
    seq(n, _ => '#')
  }

  function Terminator(n: nat): string {
    "\"" + Hashes(n)
  }

  function RawOpen(b: bool, n: nat): string {
    (if b then "br" else "r") + (Hashes(n) + "\"")
  }

  ghost predicate RawAt(s: string, i: nat, b: bool, n: nat) {
    n <= 255 && Occurs(s, i, RawOpen(b, n))
  }

  ghost predicate RawStarts(s: string, i: nat) {
    exists b, n: nat :: RawAt(s, i, b, n)
  }

  lemma {:induction false} HashRunIs(s: string, i: nat, n: nat)
    requires i + n <= |s| && Occurs(s, i, Hashes(n))
    ensures HashRun(s, i) >= n && (!At(s, i + n, '#') ==> HashRun(s, i) == n)
    decreases n
  {
    if n > 0 {
      assert s[i + 0] == Hashes(n)[0] == '#';
      var fewer := Hashes(n - 1);
      forall j | 0 <= j < n - 1 ensures s[i + 1 + j] == fewer[j] {
        assert s[i + (j + 1)] == Hashes(n)[j + 1];
      }
      HashRunIs(s, i + 1, n - 1);
    }
  }

  lemma RunOccurs(s: string, i: nat, n: nat)
    requires i <= |s| && n <= HashRun(s, i)
    ensures Occurs(s, i, Hashes(n))
  {
  }

  lemma TerminatorOccurs(s: string, q: nat, n: nat)
    ensures Terminates(s, q, n) <==> Occurs(s, q, Terminator(n))
  {
    OccursBoth(s, q, "\"", Hashes(n));
    Occurs1(s, q, '"');
    if Occurs(s, q, Terminator(n)) {
      HashRunIs(s, q + 1, n);
    }
    if Terminates(s, q, n) {
      RunOccurs(s, q + 1, n);
    }
  }

  lemma HashesThenQuote(s: string, j: nat, n: nat)
    requires j <= |s|
    ensures n <= 255 && Occurs(s, j, Hashes(n) + "\"") <==> RawHashes(s, j) == Some(Raw(n, j + n + 1))
  {
    OccursBoth(s, j, Hashes(n), "\"");
    Occurs1(s, j + n, '"');
    if n <= 255 && Occurs(s, j, Hashes(n) + "\"") {
      HashRunIs(s, j, n);
    }
    if RawHashes(s, j) == Some(Raw(n, j + n + 1)) {
      RunOccurs(s, j, n);
    }
  }

  lemma RawOpens(s: string, i: nat, b: bool, n: nat)
    ensures RawAt(s, i, b, n) <==>
            n <= 255
            && if b then Pair(s, i, 'b', 'r') && Occurs(s, i + 2, Hashes(n) + "\"") else At(s, i, 'r') && Occurs(s, i + 1, Hashes(n) + "\"")
  {
    OccursBoth(s, i, if b then "br" else "r", Hashes(n) + "\"");
    if b {
      Occurs2(s, i, 'b', 'r');
    } else {
      Occurs1(s, i, 'r');
    }
  }

  lemma RawFound(s: string, i: nat, b: bool, n: nat)
    requires RawAt(s, i, b, n)
    ensures RawStart(s, i) == Some(Raw(n, i + |RawOpen(b, n)|))
  {
    RawOpens(s, i, b, n);
    hide RawAt, RawHashes, Occurs;
    HashesThenQuote(s, if b then i + 2 else i + 1, n);
  }

  /** The pattern of a raw string finds exactly `r`, or `br`, with at most 255 hashes and
    a quote behind it. */
  lemma RawStringsExactly(s: string, i: nat)
    ensures RawStart(s, i).Some? <==> RawStarts(s, i)
    ensures forall b, n: nat | RawAt(s, i, b, n) :: RawStart(s, i) == Some(Raw(n, i + |RawOpen(b, n)|))
  {
    forall b, n: nat | RawAt(s, i, b, n) ensures RawStart(s, i) == Some(Raw(n, i + |RawOpen(b, n)|)) {
      RawFound(s, i, b, n);
    }
    if RawStart(s, i).Some? {
      var b, n := RawThere(s, i);
    }
  }

  lemma RawThere(s: string, i: nat) returns (b: bool, n: nat)
    requires RawStart(s, i).Some?
    ensures RawAt(s, i, b, n) && RawStart(s, i) == Some(Raw(n, i + |RawOpen(b, n)|))
  {
    hide RawAt, RawHashes, Occurs;
    b, n := Pair(s, i, 'b', 'r'), RawStart(s, i).value.hashes;
    var j := if b then i + 2 else i + 1;
    RawContent(s, j);
    HashesThenQuote(s, j, n);
    RawOpens(s, i, b, n);
  }

  lemma RawContent(s: string, j: nat)
    requires j <= |s| && RawHashes(s, j).Some?
    ensures RawHashes(s, j).value.content == j + RawHashes(s, j).value.hashes + 1 && RawHashes(s, j).value.hashes <= 255
  {
  }

  // ---------------------------------------------------------------- the grammar

  /** What stands in a block comment: marks and other characters. */
  datatype Item = Other(c: char) | Open | Close

  function ItemText(item: Item): string {
    match item
    case Other(c) => [c]
    case Open => "/*"
    case Close => "*/"
  }

  function ItemsText(items: seq<Item>): string {
    if items == [] then "" else ItemText(items[0]) + ItemsText(items[1..])
  }

  function DepthAfter(item: Item, depth: nat): nat
    requires depth > 0
  {
    if item.Open? then depth + 1 else if item.Close? then depth - 1 else depth
  }

  /** From `k` on, inside `depth` comments, the source holds these items, each mark where
    one occurs; they end with the mark that closes the last comment, or with the source. */
  ghost predicate InComment(s: string, k: nat, items: seq<Item>, depth: nat)
    decreases |items|
  {
    if items == [] then depth == 0 || k == |s|
    else
      && depth > 0 && Occurs(s, k, ItemText(items[0]))
      && (items[0].Other? ==> !Occurs(s, k, "/*") && !Occurs(s, k, "*/"))
      && InComment(s, k + |ItemText(items[0])|, items[1..], DepthAfter(items[0], depth))
  }

  /** A character of a string, or a backslash with the character behind it. */
  datatype StringItem = Itself(c: char) | Backslash(c: char)

  predicate ProperItem(item: StringItem) {
    item.Itself? ==> item.c != '"' && item.c != '\\'
  }

  function StringItemText(item: StringItem): string {
    if item.Itself? then [item.c] else ['\\', item.c]
  }

  function StringText(body: seq<StringItem>): string {
    if body == [] then "" else StringItemText(body[0]) + StringText(body[1..])
  }

  /** A piece of a source. A literal whose tail is not its closing mark runs to the end of
    the source; that of a string may be a lone backslash. */
  datatype Piece =
    | Code(text: string)
    | LineComment(text: string)
    | BlockComment(items: seq<Item>)
    | CharLiteral(b: bool, body: CharBody)
    | String(b: bool, chars: seq<StringItem>, tail: string)
    | RawString(b: bool, hashes: nat, content: string, tail: string)

  function StringOpen(b: bool): string {
    if b then "b\"" else "\""
  }

  function PieceText(p: Piece): string {
    match p
    case Code(text) => text
    case LineComment(text) => "//" + text
    case BlockComment(items) => "/*" + ItemsText(items)
    case CharLiteral(b, body) => CharText(b, body)
    case String(b, chars, tail) => StringOpen(b) + (StringText(chars) + tail)
    case RawString(b, hashes, content, tail) => RawOpen(b, hashes) + (content + tail)
  }

  /** No comment and no literal starts at `k`. */
  ghost predicate Quiet(s: string, k: nat) {
    && !Occurs(s, k, "//") && !Occurs(s, k, "/*") && !Occurs(s, k, "\"") && !Occurs(s, k, "b\"")
    && !CharStarts(s, k) && !RawStarts(s, k)
  }

  ghost predicate AllQuiet(s: string, i: nat, e: nat) {
    forall k | i <= k < e :: Quiet(s, k)
  }

  ghost predicate NoTerminator(s: string, i: nat, e: nat, n: nat) {
    forall q | i <= q < e :: !Occurs(s, q, Terminator(n))
  }

  /** The piece stands at `i` as what it is. */
  ghost predicate Stands(s: string, i: nat, p: Piece) {
    && Occurs(s, i, PieceText(p)) &&
    var e := i + |PieceText(p)|;
    match p
    case Code(_) => AllQuiet(s, i, e)
    case LineComment(text) => '\n' !in text && (e < |s| ==> s[e] == '\n')
    case BlockComment(items) => InComment(s, i + 2, items, 1)
    case CharLiteral(_, body) => ProperBody(body)
    case String(b, chars, tail) =>
      && (forall j | 0 <= j < |chars| :: ProperItem(chars[j]))
      && (tail == "\"" || (e == |s| && (tail == "" || tail == "\\")))
    case RawString(b, hashes, content, tail) =>
      && hashes <= 255 && NoTerminator(s, e - |content| - |tail|, e - |tail|, hashes)
      && (tail == Terminator(hashes) || (e == |s| && tail == ""))
  }

  /** From `i` on the source is written in these pieces. */
  ghost predicate WrittenIn(s: string, i: nat, pieces: seq<Piece>)
    decreases |pieces|
  {
    if pieces == [] then i == |s|
    else Stands(s, i, pieces[0]) && WrittenIn(s, i + |PieceText(pieces[0])|, pieces[1..])
  }

  function Blank(text: string): (out: string)
    ensures |out| == |text|
  {
    seq(|text|, i requires 0 <= i < |text| => if text[i] == '\n' then '\n' else ' ')
  }

  /** Code as it is, and blanks for everything else. */
  function Shown(p: Piece): string {
    if p.Code? then p.text else Blank(PieceText(p))
  }

  function Kept(pieces: seq<Piece>): string {
    if pieces == [] then ""
    else Shown(pieces[0]) + Kept(pieces[1..])
  }

  // ---------------------------------------------------------------- tokens end where the grammar says

  lemma QuietIsPlain(s: string, k: nat)
    requires k < |s| && Quiet(s, k)
    ensures TokenEnd(s, k) == k
  {
    Occurs2(s, k, '/', '/');
    Occurs2(s, k, '/', '*');
    Occurs1(s, k, '"');
    Occurs2(s, k, 'b', '"');
    CharLiteralsExactly(s, k);
    RawStringsExactly(s, k);
    hide CharStarts, RawStarts, CharLiteralEnd, RawStart, Occurs;
  }

  lemma {:induction false} NewlineAt(s: string, i: nat, e: nat)
    requires i <= e <= |s| && (e < |s| ==> s[e] == '\n') && forall j | i <= j < e :: s[j] != '\n'
    ensures FindNewline(s, i) == e
    decreases e - i
  {
    if i < e {
      NewlineAt(s, i + 1, e);
    }
  }

  lemma LineEnds(s: string, i: nat, text: string)
    requires Stands(s, i, LineComment(text))
    ensures i < |s| && TokenEnd(s, i) == i + 2 + |text|
  {
    OccursBoth(s, i, "//", text);
    Occurs2(s, i, '/', '/');
    assert forall j | 0 <= j < |text| :: s[i + 2 + j] == text[j];
    forall j | i + 2 <= j < i + 2 + |text| ensures s[j] != '\n' {
      assert s[i + 2 + (j - i - 2)] == text[j - i - 2];
    }
    hide Stands, Occurs;
    NewlineAt(s, i + 2, i + 2 + |text|);
  }

  lemma ItemPassed(s: string, k: nat, item: Item, depth: nat)
    requires depth > 0 && Occurs(s, k, ItemText(item))
    requires item.Other? ==> !Occurs(s, k, "/*") && !Occurs(s, k, "*/")
    ensures k + |ItemText(item)| <= |s| && BlockEnd(s, k, depth) == BlockEnd(s, k + |ItemText(item)|, DepthAfter(item, depth))
  {
    Occurs2(s, k, '/', '*');
    Occurs2(s, k, '*', '/');
    if item.Other? {
      Occurs1(s, k, item.c);
    }
    hide Occurs;
  }

  lemma {:induction false} ItemsEnd(s: string, k: nat, items: seq<Item>, depth: nat)
    requires k <= |s| && InComment(s, k, items, depth)
    ensures BlockEnd(s, k, depth) == k + |ItemsText(items)|
    decreases |items|
  {
    hide Occurs, ItemText;
    if items != [] {
      hide BlockEnd;
      ItemPassed(s, k, items[0], depth);
      ItemsEnd(s, k + |ItemText(items[0])|, items[1..], DepthAfter(items[0], depth));
    }
  }

  lemma BlockEnds(s: string, i: nat, items: seq<Item>)
    requires Stands(s, i, BlockComment(items))
    ensures i < |s| && TokenEnd(s, i) == i + 2 + |ItemsText(items)|
  {
    OccursBoth(s, i, "/*", ItemsText(items));
    Occurs2(s, i, '/', '*');
    hide Occurs, InComment, BlockEnd, ItemsText;
    ItemsEnd(s, i + 2, items, 1);
  }

  lemma CharEnds(s: string, i: nat, b: bool, body: CharBody)
    requires Stands(s, i, CharLiteral(b, body))
    ensures i < |s| && TokenEnd(s, i) == i + |CharText(b, body)|
  {
    assert CharAt(s, i, b, body);
    QuoteFirst(s, i, b, BodyText(body) + "'");
    hide CharBodyEnd, BodyText, ProperBody, Occurs;
    CharFound(s, i, b, body);
  }

  lemma ItemEnds(s: string, k: nat, item: StringItem)
    requires ProperItem(item) && Occurs(s, k, StringItemText(item))
    ensures k + |StringItemText(item)| <= |s| && StringEnd(s, k) == StringEnd(s, k + |StringItemText(item)|)
  {
    if item.Itself? {
      Occurs1(s, k, item.c);
    } else {
      Occurs2(s, k, '\\', item.c);
    }
    hide Occurs;
  }

  lemma TailEnds(s: string, k: nat, tail: string)
    requires k <= |s| && Occurs(s, k, tail)
    requires tail == "\"" || (k + |tail| == |s| && (tail == "" || tail == "\\"))
    ensures Min(StringEnd(s, k), |s|) == k + |tail|
  {
    if tail != "" {
      assert tail == [tail[0]];
      Occurs1(s, k, tail[0]);
    }
    hide Occurs;
  }

  lemma {:induction false} BodyEnds(s: string, k: nat, chars: seq<StringItem>, tail: string)
    requires k <= |s| && Occurs(s, k, StringText(chars) + tail) && forall j | 0 <= j < |chars| :: ProperItem(chars[j])
    requires tail == "\"" || (k + |StringText(chars) + tail| == |s| && (tail == "" || tail == "\\"))
    ensures Min(StringEnd(s, k), |s|) == k + |StringText(chars)| + |tail|
    decreases |chars|
  {
    hide Occurs, StringEnd, StringItemText, ProperItem;
    if chars == [] {
      assert StringText(chars) + tail == tail;
      TailEnds(s, k, tail);
    } else {
      var item := chars[0];
      assert StringText(chars) + tail == StringItemText(item) + (StringText(chars[1..]) + tail);
      OccursBoth(s, k, StringItemText(item), StringText(chars[1..]) + tail);
      ItemEnds(s, k, item);
      BodyEnds(s, k + |StringItemText(item)|, chars[1..], tail);
    }
  }

  lemma StringToken(s: string, i: nat, b: bool)
    requires if b then Pair(s, i, 'b', '"') else At(s, i, '"')
    ensures i < |s| && TokenEnd(s, i) == Min(StringEnd(s, i + |StringOpen(b)|), |s|)
  {
    hide StringEnd, CharBodyEnd, RawHashes;
  }

  lemma OpensString(s: string, i: nat, b: bool)
    requires Occurs(s, i, StringOpen(b))
    ensures if b then Pair(s, i, 'b', '"') else At(s, i, '"')
    ensures i + |StringOpen(b)| <= |s|
  {
    Occurs2(s, i, 'b', '"');
    Occurs1(s, i, '"');
  }

  lemma StringEnds(s: string, i: nat, b: bool, chars: seq<StringItem>, tail: string)
    requires Stands(s, i, String(b, chars, tail))
    ensures i < |s| && TokenEnd(s, i) == i + |StringOpen(b)| + |StringText(chars)| + |tail|
  {
    hide StringText, StringEnd, StringOpen, TokenEnd, Occurs, ProperItem;
    OccursBoth(s, i, StringOpen(b), StringText(chars) + tail);
    OpensString(s, i, b);
    BodyEnds(s, i + |StringOpen(b)|, chars, tail);
    StringToken(s, i, b);
  }

  lemma {:induction false} TerminatorAt(s: string, i: nat, p: nat, n: nat)
    requires i <= p <= |s| && NoTerminator(s, i, p, n)
    ensures p < |s| && Occurs(s, p, Terminator(n)) ==> FindTerminator(s, i, n) == Some(p)
    ensures p == |s| ==> FindTerminator(s, i, n) == None
    decreases p - i
  {
    TerminatorOccurs(s, i, n);
    hide Occurs, Terminates;
    if i < p {
      TerminatorAt(s, i + 1, p, n);
    }
  }

  lemma RawToken(s: string, i: nat, raw: Raw)
    requires RawStart(s, i) == Some(raw) && raw.content <= |s|
    ensures i < |s|
    ensures var p := FindTerminator(s, raw.content, raw.hashes);
            TokenEnd(s, i) == if p.None? then |s| else p.value + 1 + raw.hashes
  {
    hide FindTerminator, RawHashes, CharBodyEnd;
  }

  lemma RawStands(s: string, i: nat, b: bool, n: nat, content: string, tail: string)
    requires Stands(s, i, RawString(b, n, content, tail))
    ensures var start := i + |RawOpen(b, n)|;
            var stop := start + |content|;
            && RawAt(s, i, b, n) && Occurs(s, start, content) && Occurs(s, stop, tail) && stop + |tail| <= |s|
            && NoTerminator(s, start, stop, n)
            && (tail == Terminator(n) || (stop == |s| && tail == ""))
  {
    hide Occurs, NoTerminator, RawOpen, Hashes, Terminator;
    OccursBoth(s, i, RawOpen(b, n), content + tail);
    OccursBoth(s, i + |RawOpen(b, n)|, content, tail);
    OccursLength(s, i + |RawOpen(b, n)| + |content|, tail);
  }

  lemma RawSpan(s: string, i: nat, n: nat, start: nat, stop: nat, tail: string)
    requires RawStart(s, i) == Some(Raw(n, start))
    requires start <= stop <= |s| && NoTerminator(s, start, stop, n) && Occurs(s, stop, tail)
    requires tail == Terminator(n) || (stop == |s| && tail == "")
    ensures i < |s| && TokenEnd(s, i) == stop + |tail|
  {
    assert |Terminator(n)| == n + 1;
    OccursLength(s, stop, tail);
    hide Terminator, Occurs, NoTerminator, Terminates, HashRun, RawStart, FindTerminator, TokenEnd;
    RawToken(s, i, Raw(n, start));
    TerminatorAt(s, start, stop, n);
  }

  lemma RawEnds(s: string, i: nat, b: bool, n: nat, content: string, tail: string)
    requires Stands(s, i, RawString(b, n, content, tail))
    ensures i < |s| && TokenEnd(s, i) == i + |RawOpen(b, n)| + |content| + |tail|
  {
    var start := i + |RawOpen(b, n)|;
    hide Terminator, Stands, Occurs, RawAt, NoTerminator, RawStart, TokenEnd, RawOpen;
    RawStands(s, i, b, n, content, tail);
    RawFound(s, i, b, n);
    RawSpan(s, i, n, start, start + |content|, tail);
  }

  lemma OccursLength(s: string, i: nat, text: string)
    requires Occurs(s, i, text)
    ensures i + |text| <= |s|
  {
  }

  /** A comment or a literal ends where the grammar says. */
  lemma TokenEnds(s: string, i: nat, p: Piece)
    requires Stands(s, i, p) && !p.Code?
    ensures i < |s| && TokenEnd(s, i) == i + |PieceText(p)| > i
  {
    hide Stands, TokenEnd, RawOpen, CharText, ItemsText, StringText;
    match p
    case LineComment(text) => LineEnds(s, i, text);
    case BlockComment(items) => BlockEnds(s, i, items);
    case CharLiteral(b, body) =>
      CharEnds(s, i, b, body);
      CharTextLong(b, body);
    case String(b, chars, tail) => StringEnds(s, i, b, chars, tail);
    case RawString(b, n, content, tail) =>
      RawEnds(s, i, b, n, content, tail);
      RawOpenLong(b, n);
  }

  lemma CharTextLong(b: bool, body: CharBody)
    ensures |CharText(b, body)| > 0
  {
  }

  lemma RawOpenLong(b: bool, n: nat)
    ensures |RawOpen(b, n)| > 0
  {
  }

  /** A line comment ends at its line. */
  lemma LineCommentEnds(pre: string, text: string, post: string)
    requires '\n' !in text
    ensures TokenEnd(pre + "//" + text + "\n" + post, |pre|) == |pre| + 2 + |text|
  {
    var s := pre + "//" + text + "\n" + post;
    var t := "//" + text;
    assert s == pre + t + ("\n" + post);
    assert s[|pre|..|pre| + |t|] == t;
    OccursSlice(s, |pre|, |pre| + |t|);
    assert s[|pre| + |t|] == '\n';
    LineEnds(s, |pre|, text);
  }

  // ---------------------------------------------------------------- code is kept, the rest is blanked

  lemma {:induction false} QuietKept(s: string, i: nat, e: nat)
    requires i <= e <= |s| && AllQuiet(s, i, e)
    ensures SanitizedFrom(s, i) == s[i..e] + SanitizedFrom(s, e)
    decreases e - i
  {
    hide TokenEnd, Quiet;
    if i < e {
      QuietIsPlain(s, i);
      QuietKept(s, i + 1, e);
      assert s[i..e] == [s[i]] + s[i + 1..e];
      hide SanitizedFrom;
      Reassociated([s[i]], s[i + 1..e], SanitizedFrom(s, e));
    }
  }

  lemma Reassociated(a: string, b: string, c: string)
    ensures a + b + c == a + (b + c)
  {
  }

  lemma OccursIsSlice(s: string, i: nat, text: string)
    requires Occurs(s, i, text)
    ensures i + |text| <= |s| && s[i..i + |text|] == text
  {
  }

  lemma StandsOccurs(s: string, i: nat, p: Piece)
    requires Stands(s, i, p)
    ensures i + |PieceText(p)| <= |s| && s[i..i + |PieceText(p)|] == PieceText(p)
    ensures p.Code? ==> AllQuiet(s, i, i + |p.text|)
  {
    hide PieceText, Occurs;
    OccursIsSlice(s, i, PieceText(p));
    if p.Code? {
      CodeIsText(p);
    }
  }

  lemma CodeIsText(p: Piece)
    requires p.Code?
    ensures PieceText(p) == p.text
  {
  }

  lemma BlankIsBlanked(text: string)
    ensures Blank(text) == Blanked(text)
  {
  }

  lemma PieceSanitized(s: string, i: nat, p: Piece)
    requires i <= |s| && Stands(s, i, p)
    ensures i + |PieceText(p)| <= |s| && SanitizedFrom(s, i) == Shown(p) + SanitizedFrom(s, i + |PieceText(p)|)
  {
    hide Stands, TokenEnd, PieceText, Blanked, Blank, AllQuiet;
    StandsOccurs(s, i, p);
    if p.Code? {
      CodeIsText(p);
      hide SanitizedFrom;
      QuietKept(s, i, i + |p.text|);
    } else {
      TokenEnds(s, i, p);
      BlankIsBlanked(PieceText(p));
    }
  }

  lemma {:induction false} SanitizedFromIs(s: string, i: nat, pieces: seq<Piece>)
    requires i <= |s| && WrittenIn(s, i, pieces)
    ensures SanitizedFrom(s, i) == Kept(pieces)
    decreases |pieces|
  {
    hide Stands, PieceText, Shown;
    if pieces != [] {
      hide SanitizedFrom;
      PieceSanitized(s, i, pieces[0]);
      SanitizedFromIs(s, i + |PieceText(pieces[0])|, pieces[1..]);
    }
  }

  /** However a source is written in pieces, sanitizing keeps the code and blanks exactly
    the comments and the literals. */
  lemma SanitizedIsKept(s: string, pieces: seq<Piece>)
    requires WrittenIn(s, 0, pieces)
    ensures Sanitized(s) == Kept(pieces)
  {
    hide WrittenIn, Kept, SanitizedFrom;
    SanitizedFromIs(s, 0, pieces);
  }

  // ---------------------------------------------------------------- every source is written so

  lemma {:induction false} ItemsThere(s: string, k: nat, depth: nat) returns (items: seq<Item>)
    requires k <= |s|
    ensures InComment(s, k, items, depth)
    ensures Occurs(s, k, ItemsText(items))
    decreases |s| - k
  {
    Occurs2(s, k, '/', '*');
    Occurs2(s, k, '*', '/');
    if k == |s| || depth == 0 {
      items := [];
    } else {
      Occurs1(s, k, s[k]);
      hide Occurs;
      var item := if Pair(s, k, '/', '*') then Open else if Pair(s, k, '*', '/') then Close else Other(s[k]);
      var rest := ItemsThere(s, k + |ItemText(item)|, DepthAfter(item, depth));
      items := [item] + rest;
      assert items[1..] == rest;
      OccursBoth(s, k, ItemText(item), ItemsText(rest));
    }
  }

  lemma StringItemThere(s: string, k: nat) returns (item: StringItem)
    requires k < |s| && s[k] != '"' && (s[k] == '\\' ==> k + 1 < |s|)
    ensures ProperItem(item) && Occurs(s, k, StringItemText(item)) && 0 < |StringItemText(item)| <= |s| - k
  {
    item := if s[k] == '\\' then Backslash(s[k + 1]) else Itself(s[k]);
    if item.Itself? {
      Occurs1(s, k, item.c);
    } else {
      Occurs2(s, k, '\\', item.c);
    }
    hide Occurs;
  }

  lemma {:induction false} BodyOf(s: string, k: nat) returns (chars: seq<StringItem>, tail: string)
    requires k <= |s|
    ensures forall j | 0 <= j < |chars| :: ProperItem(chars[j])
    ensures Occurs(s, k, StringText(chars) + tail)
    ensures tail == "\"" || (k + |StringText(chars) + tail| == |s| && (tail == "" || tail == "\\"))
    decreases |s| - k
  {
    hide Occurs, StringItemText, ProperItem;
    if k == |s| || s[k] == '"' || (s[k] == '\\' && k + 1 == |s|) {
      chars, tail := [], if k == |s| then "" else [s[k]];
      assert StringText(chars) + tail == tail;
      OccursSlice(s, k, k + |tail|);
      assert s[k..k + |tail|] == tail;
    } else {
      var item := StringItemThere(s, k);
      var rest, end := BodyOf(s, k + |StringItemText(item)|);
      chars, tail := [item] + rest, end;
      assert chars[1..] == rest;
      assert StringText(chars) + tail == StringItemText(item) + (StringText(rest) + tail);
      hide StringText;
      OccursBoth(s, k, StringItemText(item), StringText(rest) + tail);
    }
  }

  lemma LineThere(s: string, i: nat) returns (p: Piece)
    requires Occurs(s, i, "//")
    ensures !p.Code? && Stands(s, i, p)
  {
    var e := FindNewline(s, i + 2);
    NewlineFound(s, i + 2);
    p := LineComment(s[i + 2..e]);
    OccursSlice(s, i + 2, e);
    OccursBoth(s, i, "//", s[i + 2..e]);
  }

  lemma {:induction false} NewlineFound(s: string, i: nat)
    requires i <= |s|
    ensures FindNewline(s, i) < |s| ==> s[FindNewline(s, i)] == '\n'
    decreases |s| - i
  {
    if i < |s| && s[i] != '\n' {
      NewlineFound(s, i + 1);
    }
  }

  lemma BlockThere(s: string, i: nat) returns (p: Piece)
    requires Occurs(s, i, "/*")
    ensures !p.Code? && Stands(s, i, p)
  {
    hide ItemsText, InComment;
    var items := ItemsThere(s, i + 2, 1);
    p := BlockComment(items);
    OccursBoth(s, i, "/*", ItemsText(items));
  }

  lemma StringThere(s: string, i: nat, b: bool) returns (p: Piece)
    requires Occurs(s, i, StringOpen(b))
    ensures !p.Code? && Stands(s, i, p)
  {
    assert i + |StringOpen(b)| <= |s|;
    hide StringText, Occurs, StringOpen, ProperItem;
    var chars, tail := BodyOf(s, i + |StringOpen(b)|);
    p := String(b, chars, tail);
    OccursBoth(s, i, StringOpen(b), StringText(chars) + tail);
  }

  /** Where a raw string with `n` hashes ends that is open at `start`. */
  lemma RawTail(s: string, start: nat, n: nat) returns (stop: nat, tail: string)
    requires start <= |s|
    ensures start <= stop <= |s| && NoTerminator(s, start, stop, n) && Occurs(s, stop, tail)
    ensures tail == Terminator(n) || (stop == |s| && tail == "")
  {
    var found := FindTerminator(s, start, n);
    stop := if found.None? then |s| else found.value;
    hide Occurs, Terminates, Hashes, FindTerminator;
    forall q | start <= q < stop ensures !Occurs(s, q, Terminator(n)) {
      TerminatorOccurs(s, q, n);
    }
    if found.Some? {
      TerminatorOccurs(s, stop, n);
      tail := Terminator(n);
    } else {
      OccursSlice(s, stop, stop);
      tail := s[stop..stop];
    }
  }

  lemma RawPiece(s: string, i: nat, b: bool, n: nat) returns (p: Piece)
    requires RawAt(s, i, b, n)
    ensures !p.Code? && Stands(s, i, p)
  {
    var start := i + |RawOpen(b, n)|;
    hide RawOpen, Hashes, Occurs, NoTerminator;
    OpensWithin(s, i, b, n);
    var stop, tail := RawTail(s, start, n);
    OccursSlice(s, start, stop);
    p := RawString(b, n, s[start..stop], tail);
    OccursBoth(s, start, s[start..stop], tail);
    OccursBoth(s, i, RawOpen(b, n), s[start..stop] + tail);
  }

  lemma OpensWithin(s: string, i: nat, b: bool, n: nat)
    requires RawAt(s, i, b, n)
    ensures i + |RawOpen(b, n)| <= |s|
  {
    hide RawOpen;
  }

  lemma PieceThere(s: string, i: nat) returns (p: Piece)
    requires i < |s|
    ensures Stands(s, i, p) && PieceText(p) != ""
  {
    hide Stands, CharStarts, RawStarts, Occurs;
    if Occurs(s, i, "//") {
      p := LineThere(s, i);
    } else if Occurs(s, i, "/*") {
      p := BlockThere(s, i);
    } else if Occurs(s, i, StringOpen(true)) {
      p := StringThere(s, i, true);
    } else if Occurs(s, i, StringOpen(false)) {
      p := StringThere(s, i, false);
    } else if CharStarts(s, i) {
      p := CharPiece(s, i);
    } else if RawStarts(s, i) {
      p := AnyRaw(s, i);
    } else {
      p := QuietPiece(s, i);
    }
    if !p.Code? {
      TokenEnds(s, i, p);
    }
  }

  lemma CharPiece(s: string, i: nat) returns (p: Piece)
    requires CharStarts(s, i)
    ensures !p.Code? && Stands(s, i, p)
  {
    hide CharText, Occurs, ProperBody;
    var b, body :| CharAt(s, i, b, body);
    p := CharLiteral(b, body);
  }

  lemma AnyRaw(s: string, i: nat) returns (p: Piece)
    requires RawStarts(s, i)
    ensures !p.Code? && Stands(s, i, p)
  {
    hide RawAt, Stands;
    var b, n: nat :| RawAt(s, i, b, n);
    p := RawPiece(s, i, b, n);
  }

  lemma QuietPiece(s: string, i: nat) returns (p: Piece)
    requires i < |s| && Quiet(s, i)
    ensures p == Code([s[i]]) && Stands(s, i, p)
  {
    hide Quiet;
    p := Code([s[i]]);
    Occurs1(s, i, s[i]);
  }

  lemma {:induction false} WrittenFrom(s: string, i: nat) returns (pieces: seq<Piece>)
    requires i <= |s|
    ensures WrittenIn(s, i, pieces)
    decreases |s| - i
  {
    if i == |s| {
      pieces := [];
    } else {
      hide Stands, PieceText;
      var p := PieceThere(s, i);
      StandsOccurs(s, i, p);
      var rest := WrittenFrom(s, i + |PieceText(p)|);
      pieces := [p] + rest;
      assert pieces[1..] == rest;
    }
  }

  /** Every text is written in such pieces, so the law above leaves no source out. */
  lemma EverySourceIsWritten(s: string)
    ensures exists pieces :: WrittenIn(s, 0, pieces) && Sanitized(s) == Kept(pieces)
  {
    hide WrittenIn, Kept, Sanitized;
    var pieces := WrittenFrom(s, 0);
    SanitizedIsKept(s, pieces);
  }

  // ---------------------------------------------------------------- what a literal means

  /** The characters a string stands for: each escaped character for itself. */
  function Meant(chars: seq<StringItem>): string {
    if chars == [] then "" else [chars[0].c] + Meant(chars[1..])
  }

  lemma {:induction false} ContentIs(s: string, k: nat, chars: seq<StringItem>, tail: string)
    requires k <= |s| && Occurs(s, k, StringText(chars) + tail) && forall j | 0 <= j < |chars| :: ProperItem(chars[j])
    requires tail == "\"" || (k + |StringText(chars) + tail| == |s| && (tail == "" || tail == "\\"))
    ensures StringContent(s, k) == if tail == "\"" then Some(Literal(Meant(chars), k + |StringText(chars)| + 1)) else None
    decreases |chars|
  {
    hide Occurs, StringContent, StringItemText, ProperItem;
    if chars == [] {
      assert StringText(chars) + tail == tail;
      TailIs(s, k, tail);
    } else {
      var item := chars[0];
      assert StringText(chars) + tail == StringItemText(item) + (StringText(chars[1..]) + tail);
      OccursBoth(s, k, StringItemText(item), StringText(chars[1..]) + tail);
      ItemIs(s, k, item);
      OccursLength(s, k + |StringItemText(item)|, StringText(chars[1..]) + tail);
      ContentIs(s, k + |StringItemText(item)|, chars[1..], tail);
    }
  }

  lemma TailIs(s: string, k: nat, tail: string)
    requires k <= |s| && Occurs(s, k, tail)
    requires tail == "\"" || (k + |tail| == |s| && (tail == "" || tail == "\\"))
    ensures StringContent(s, k) == if tail == "\"" then Some(Literal("", k + 1)) else None
  {
    if tail != "" {
      assert tail == [tail[0]];
      Occurs1(s, k, tail[0]);
    }
    hide Occurs;
  }

  lemma ItemIs(s: string, k: nat, item: StringItem)
    requires ProperItem(item) && Occurs(s, k, StringItemText(item))
    ensures k + |StringItemText(item)| <= |s|
    ensures StringContent(s, k) == Prefixed([item.c], StringContent(s, k + |StringItemText(item)|))
  {
    if item.Itself? {
      Occurs1(s, k, item.c);
    } else {
      Occurs2(s, k, '\\', item.c);
    }
    hide Occurs;
  }

  /** What the literal parser is to return for a piece: the text an ordinary or a raw string
    stands for and the place behind it, and nothing for one that is not closed, for a
    byte string in quotes, or for anything else. */
  function ParsedPiece(i: nat, p: Piece): Option<Literal> {
    match p
    case String(b, chars, tail) =>
      if !b && tail == "\"" then Some(Literal(Meant(chars), i + |PieceText(p)|)) else None
    case RawString(_, _, content, tail) =>
      if tail != "" then Some(Literal(content, i + |PieceText(p)|)) else None
    case _ => None
  }

  lemma RawLiteral(s: string, i: nat, raw: Raw)
    requires i < |s| && !Isspace(s[i]) && RawStart(s, i) == Some(raw) && raw.content <= |s|
    ensures var p := FindTerminator(s, raw.content, raw.hashes);
            ParsedLiteral(s, i)
              == if p.None? then None else Some(Literal(s[raw.content..p.value], p.value + 1 + raw.hashes))
  {
    hide FindTerminator, RawHashes, Isspace, SkipSpaces, StringContent;
    NoSpaceAt(s, i);
  }

  lemma RawLength(b: bool, n: nat, content: string, tail: string)
    ensures |PieceText(RawString(b, n, content, tail))| == |RawOpen(b, n)| + |content| + |tail|
  {
    hide RawOpen;
  }

  lemma RawValue(s: string, i: nat, n: nat, start: nat, stop: nat, tail: string)
    requires i < |s| && !Isspace(s[i]) && RawStart(s, i) == Some(Raw(n, start))
    requires start <= stop <= |s| && NoTerminator(s, start, stop, n) && Occurs(s, stop, tail)
    requires tail == Terminator(n) || (stop == |s| && tail == "")
    ensures tail != "" ==> ParsedLiteral(s, i) == Some(Literal(s[start..stop], stop + |tail|))
    ensures tail == "" ==> ParsedLiteral(s, i) == None
  {
    assert |Terminator(n)| == n + 1;
    OccursLength(s, stop, tail);
    hide Terminator, Occurs, NoTerminator, Terminates, HashRun, RawStart, FindTerminator, ParsedLiteral, Isspace;
    RawLiteral(s, i, Raw(n, start));
    TerminatorAt(s, start, stop, n);
  }

  lemma RawParses(s: string, i: nat, b: bool, n: nat, content: string, tail: string)
    requires i < |s| && !Isspace(s[i]) && Stands(s, i, RawString(b, n, content, tail))
    ensures ParsedLiteral(s, i) == ParsedPiece(i, RawString(b, n, content, tail))
  {
    var start := i + |RawOpen(b, n)|;
    hide Terminator, Stands, Occurs, RawAt, NoTerminator, RawStart, RawOpen, ParsedLiteral, Isspace, PieceText;
    RawStands(s, i, b, n, content, tail);
    RawFound(s, i, b, n);
    RawValue(s, i, n, start, start + |content|, tail);
    RawLength(b, n, content, tail);
    OccursIsSlice(s, start, content);
  }

  /** The characters passed over before a literal, by code point. */
  lemma SpacesAre(c: char)
    ensures Isspace(c) <==>
            var n := c as int;
            || n in {9, 10, 11, 12, 13, 28, 29, 30, 31, 32, 133, 160, 5760, 8232, 8233, 8239, 8287, 12288}
            || 8192 <= n <= 8202
  {
  }

  lemma NoSpaceAt(s: string, i: nat)
    requires i < |s| && !Isspace(s[i])
    ensures SkipSpaces(s, i) == i
  {
  }

  lemma StringParses(s: string, i: nat, b: bool, chars: seq<StringItem>, tail: string)
    requires i < |s| && !Isspace(s[i]) && Stands(s, i, String(b, chars, tail))
    ensures ParsedLiteral(s, i) == ParsedPiece(i, String(b, chars, tail))
  {
    hide StringText, StringContent, StringOpen, Occurs, ProperItem, Isspace, Meant;
    OccursBoth(s, i, StringOpen(b), StringText(chars) + tail);
    OpensString(s, i, b);
    NoSpaceAt(s, i);
    if !b {
      OneQuote();
      ContentIs(s, i + 1, chars, tail);
    }
  }

  lemma OneQuote()
    ensures |StringOpen(false)| == 1
  {
  }

  lemma OthersDoNotParse(s: string, i: nat, p: Piece)
    requires i < |s| && !Isspace(s[i]) && Stands(s, i, p) && PieceText(p) != "" && !p.String? && !p.RawString?
    ensures ParsedLiteral(s, i) == None
  {
    NoSpaceAt(s, i);
    if p.Code? {
      CodeIsText(p);
      hide Stands, Isspace, CharStarts, RawStarts, Occurs, RawStart, PieceText;
      StandsOccurs(s, i, p);
      assert Quiet(s, i);
      Occurs1(s, i, '"');
      RawStringsExactly(s, i);
    } else {
      StartsOtherwise(s, i, p);
      hide Isspace, Stands, RawHashes, PieceText;
    }
  }

  lemma StartsOtherwise(s: string, i: nat, p: Piece)
    requires Stands(s, i, p) && (p.LineComment? || p.BlockComment? || p.CharLiteral?)
    ensures At(s, i, '/') || At(s, i, '\'') || Pair(s, i, 'b', '\'')
  {
    hide BodyText, ItemsText, InComment;
    match p {
      case LineComment(text) =>
        OccursBoth(s, i, "//", text);
        Occurs2(s, i, '/', '/');
      case BlockComment(items) =>
        OccursBoth(s, i, "/*", ItemsText(items));
        Occurs2(s, i, '/', '*');
      case CharLiteral(b, body) =>
        QuoteFirst(s, i, b, BodyText(body) + "'");
    }
  }

  /** Where a piece stands, the literal parser returns what the piece stands for. */
  lemma ParsesExactly(s: string, i: nat, p: Piece)
    requires i < |s| && !Isspace(s[i]) && Stands(s, i, p) && PieceText(p) != ""
    ensures ParsedLiteral(s, i) == ParsedPiece(i, p)
  {
    hide Stands, ParsedLiteral, Isspace, PieceText;
    match p
    case String(b, chars, tail) => StringParses(s, i, b, chars, tail);
    case RawString(b, n, content, tail) => RawParses(s, i, b, n, content, tail);
    case _ => OthersDoNotParse(s, i, p);
  }
}
