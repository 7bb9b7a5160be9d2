/** What the reply reader accepts and refuses, told by the bytes on the wire. */
module RespLaws {
  import opened Wrappers
  import opened Decimals
  import opened Utf8
  import opened Resp

  // ---------------------------------------------------------------- numbers

  predicate Spaces(s: string) {
    forall i | 0 <= i < |s| :: s[i] in " \t\n\r" || s[i] == '\U{0B}' || s[i] == '\U{0C}'
  }

  /** Space, a sign if any, digits in groups, and space. */
  predicate SpelledAs(line: string, n: int, left: string, sign: string, digits: string, right: string) {
    && Spaces(left) && Spaces(right) && sign in ["", "-", "+"] && Grouped(digits)
    && line == left + (sign + digits) + right
    && n == if sign == "-" then -(DigitsValue(digits) as int) else DigitsValue(digits)
  }

  ghost predicate Spells(line: string, n: int) {
    exists left, sign, digits, right :: SpelledAs(line, n, left, sign, digits, right)
  }

  predicate Blank(s: string) {
    forall i | 0 <= i < |s| :: IsSpace(s[i])
  }

  lemma SpacesAreBlank(s: string)
    ensures Spaces(s) <==> Blank(s)
  {
    forall i | 0 <= i < |s| ensures (s[i] in " \t\n\r" || s[i] == '\U{0B}' || s[i] == '\U{0C}') <==> IsSpace(s[i]) {
      assert s[i] in " \t\n\r" <==> s[i] in [' ', '\t', '\n', '\r'];
    }
  }

  predicate Core(s: string) {
    s != "" ==> !IsSpace(s[0]) && !IsSpace(s[|s| - 1])
  }

  lemma {:induction false} StripLeftIs(left: string, s: string)
    requires Blank(left) && (s != "" ==> !IsSpace(s[0]))
    ensures StripLeft(left + s) == s
    decreases |left|
  {
    if left == "" {
      assert left + s == s;
    } else {
      assert (left + s)[1..] == left[1..] + s;
      StripLeftIs(left[1..], s);
    }
  }

  lemma {:induction false} StripRightIs(s: string, right: string)
    requires Blank(right) && (s != "" ==> !IsSpace(s[|s| - 1]))
    ensures StripRight(s + right) == s
    decreases |right|
  {
    if right == "" {
      assert s + right == s;
    } else {
      assert (s + right)[..|s + right| - 1] == s + right[..|right| - 1];
      StripRightIs(s, right[..|right| - 1]);
    }
  }

  lemma {:induction false} StripLeftLeaves(s: string) returns (left: string)
    ensures Blank(left) && s == left + StripLeft(s) && (StripLeft(s) != "" ==> !IsSpace(StripLeft(s)[0]))
    decreases |s|
  {
    if s != "" && IsSpace(s[0]) {
      var more := StripLeftLeaves(s[1..]);
      left := [s[0]] + more;
    } else {
      left := "";
    }
  }

  lemma {:induction false} StripRightLeaves(s: string) returns (right: string)
    ensures Blank(right) && s == StripRight(s) + right && (StripRight(s) != "" ==> !IsSpace(StripRight(s)[|StripRight(s)| - 1]))
    decreases |s|
  {
    if s != "" && IsSpace(s[|s| - 1]) {
      var more := StripRightLeaves(s[..|s| - 1]);
      right := more + [s[|s| - 1]];
    } else {
      right := "";
    }
  }

  lemma CoreOf(sign: string, digits: string)
    requires sign in ["", "-", "+"] && Grouped(digits)
    ensures Core(sign + digits) && sign + digits != ""
  {
    var s := sign + digits;
    assert s[|s| - 1] == digits[|digits| - 1];
    if sign != "" {
      assert s[0] == sign[0];
    } else {
      assert s == digits;
    }
  }

  lemma SpelledParses(line: string, n: int)
    requires Spells(line, n)
    ensures ParseInt(line) == Some(n)
  {
    hide Grouped, DigitsValue, Spaces;
    var left, sign, digits, right :| SpelledAs(line, n, left, sign, digits, right);
    SpacesAreBlank(left);
    SpacesAreBlank(right);
    CoreOf(sign, digits);
    var body := sign + digits;
    hide IsSpace, Blank;
    StripBoth(left, body, right);
    BodyParses(line, sign, digits);
  }

  lemma StripBoth(left: string, body: string, right: string)
    requires Blank(left) && Blank(right) && Core(body) && body != ""
    ensures StripRight(StripLeft(left + body + right)) == body
  {
    hide IsSpace, Blank, StripLeft, StripRight;
    assert left + body + right == left + (body + right);
    assert (body + right)[0] == body[0];
    StripLeftIs(left, body + right);
    StripRightIs(body, right);
  }

  lemma BodyParses(line: string, sign: string, digits: string)
    requires sign in ["", "-", "+"] && Grouped(digits) && StripRight(StripLeft(line)) == sign + digits
    ensures ParseInt(line) == Some(if sign == "-" then -(DigitsValue(digits) as int) else DigitsValue(digits))
  {
    hide StripLeft, StripRight, DigitsValue;
    var body := sign + digits;
    if sign == "" {
      assert body == digits;
      assert IsDigit(digits[0]);
    } else {
      assert body[0] == sign[0] && body[1..] == digits;
    }
  }

  lemma ParsedIsSpelled(line: string)
    requires ParseInt(line).Some?
    ensures Spells(line, ParseInt(line).value)
  {
    var left := StripLeftLeaves(line);
    var right := StripRightLeaves(StripLeft(line));
    SpacesAreBlank(left);
    SpacesAreBlank(right);
    var body := StripRight(StripLeft(line));
    hide StripLeft, StripRight, DigitsValue, Grouped, Spaces, Blank, IsSpace;
    assert line == left + (body + right) == left + body + right;
    if body != "" && (body[0] == '-' || body[0] == '+') {
      assert body == [body[0]] + body[1..];
      assert SpelledAs(line, ParseInt(line).value, left, [body[0]], body[1..], right);
    } else {
      assert body == "" + body;
      assert SpelledAs(line, ParseInt(line).value, left, "", body, right);
    }
  }

  /** A number is read exactly where one is spelled. */
  lemma ParsesExactlySpelled(line: string, n: int)
    ensures ParseInt(line) == Some(n) <==> Spells(line, n)
  {
    hide Spells, ParseInt;
    if ParseInt(line) == Some(n) {
      ParsedIsSpelled(line);
    }
    if Spells(line, n) {
      SpelledParses(line, n);
    }
  }

  // ---------------------------------------------------------------- replies on the wire

  /** A reply as it may be written: every number in any spelling, no reply as a string or a
    list of length -1, and a list of a length below -1 for an empty one. */
  datatype Wire =
    | Simple(text: string)
    | Integer(number: string, value: int)
    | Counted(number: string, text: string)
    | NoString(number: string)
    | NoList(number: string)
    | List(number: string, items: seq<Wire>)
    | Below(number: string, count: int)

  ghost predicate Proper(w: Wire) {
    match w
    case Simple(text) => '\n' !in text && ValidUtf8(text)
    case Integer(number, value) => '\n' !in number && Spells(number, value)
    case Counted(number, text) => '\n' !in number && Spells(number, |text|) && ValidUtf8(text)
    case NoString(number) => '\n' !in number && Spells(number, -1)
    case NoList(number) => '\n' !in number && Spells(number, -1)
    case List(number, items) => '\n' !in number && Spells(number, |items|) && forall i | 0 <= i < |items| :: Proper(items[i])
    case Below(number, count) => '\n' !in number && Spells(number, count) && count < -1
  }

  function WireText(w: Wire): string
    decreases w, 0
  {
    match w
    case Simple(text) => "+" + (text + "\r\n")
    case Integer(number, _) => ":" + (number + "\r\n")
    case Counted(number, text) => "$" + (number + "\r\n" + (text + "\r\n"))
    case NoString(number) => "$" + (number + "\r\n")
    case NoList(number) => "*" + (number + "\r\n")
    case List(number, items) => "*" + (number + "\r\n" + WiresText(items))
    case Below(number, _) => "*" + (number + "\r\n")
  }

  function WiresText(ws: seq<Wire>): string
    decreases ws, 1
  {
    if ws == [] then "" else WireText(ws[0]) + WiresText(ws[1..])
  }

  function Meaning(w: Wire): Reply
    decreases w, 0
  {
    match w
    case Simple(text) => Text(text)
    case Integer(_, value) => Number(value)
    case Counted(_, text) => Text(text)
    case NoString(_) => Null
    case NoList(_) => Null
    case List(_, items) => Many(Meanings(items))
    case Below(_, _) => Many([])
  }

  function Meanings(ws: seq<Wire>): (rs: seq<Reply>)
    ensures |rs| == |ws|
    decreases ws, 1
  {
    if ws == [] then [] else [Meaning(ws[0])] + Meanings(ws[1..])
  }

  lemma Ahead(c: char, line: string, rest: string)
    requires '\n' !in line
    ensures var b := [c] + (line + "\r\n" + rest);
            b != "" && b[0] == c && b[1..] == line + CRLF + rest && LineRead(b[1..]) == Outcome(Ok(line), rest)
  {
    var b := [c] + (line + "\r\n" + rest);
    assert b[1..] == line + CRLF + rest;
    LineReads(line, rest);
  }

  /** What a line of a number gives, by the first byte. */
  lemma NumberLine(c: char, number: string, n: int, rest: string)
    requires '\n' !in number && Spells(number, n)
    ensures var out := Read([c] + (number + "\r\n" + rest));
            && (c == ':' ==> out == Outcome(Ok(Number(n)), rest))
            && (c == '$' ==> out == BulkRead(rest, n))
            && (c == '*' && n == -1 ==> out == Outcome(Ok(Null), rest))
            && (c == '*' && n < -1 ==> out == Outcome(Ok(Many([])), rest))
            && (c == '*' && n >= 0 ==>
                  var items := ReadMany(rest, n);
                  out == Outcome(if items.result.Ok? then Ok(Many(items.result.value)) else Err(items.result.error), items.rest))
  {
    Ahead(c, number, rest);
    ParsesExactlySpelled(number, n);
    if c == '*' && n < -1 {
      assert ReadMany(rest, 0) == Outcome(Ok([]), rest);
    }
    hide LineRead, ParseInt, BulkRead, ReadMany, Spells;
  }

  lemma BodyParts(text: string, rest: string)
    ensures var b := text + "\r\n" + rest;
            b[..|text|] == text && b[|text|..] == "\r\n" + rest
    ensures ("\r\n" + rest)[..2] == "\r\n" && ("\r\n" + rest)[2..] == rest
  {
  }

  lemma BodyReads(text: string, rest: string)
    ensures BulkRead(text + "\r\n" + rest, |text|) == Outcome(if ValidUtf8(text) then Ok(Text(text)) else Err(NotUtf8), rest)
  {
    hide ValidUtf8;
    BodyParts(text, rest);
    var b := text + "\r\n" + rest;
    assert Min(|text|, |b|) == |text| && Min(2, |"\r\n" + rest|) == 2;
  }

  /** The first byte and what is behind it. */
  lemma Headed(b: string, tail: string)
    requires b != "" && b[1..] == tail
    ensures b == [b[0]] + tail
  {
  }

  lemma Behind(w: Wire, rest: string)
    ensures w.Simple? ==> WireText(w) + rest == "+" + (w.text + "\r\n" + rest)
    ensures w.Integer? ==> WireText(w) + rest == ":" + (w.number + "\r\n" + rest)
    ensures w.NoString? ==> WireText(w) + rest == "$" + (w.number + "\r\n" + rest)
    ensures w.NoList? || w.Below? ==> WireText(w) + rest == "*" + (w.number + "\r\n" + rest)
  {
    match w
    case Simple(text) => Regrouped("+", text, rest);
    case Integer(number, _) => Regrouped(":", number, rest);
    case NoString(number) => Regrouped("$", number, rest);
    case NoList(number) => Regrouped("*", number, rest);
    case Below(number, _) => Regrouped("*", number, rest);
    case _ =>
  }

  lemma Regrouped(c: string, line: string, rest: string)
    ensures c + (line + "\r\n") + rest == c + (line + "\r\n" + rest)
  {
  }

  lemma BehindCounted(number: string, text: string, rest: string)
    ensures WireText(Counted(number, text)) + rest == "$" + (number + "\r\n" + (text + "\r\n" + rest))
  {
    var line, body := number + "\r\n", text + "\r\n";
    assert WireText(Counted(number, text)) + rest == "$" + ((line + body) + rest);
    assert (line + body) + rest == line + (body + rest);
  }

  lemma BehindList(number: string, items: seq<Wire>, rest: string)
    ensures WireText(List(number, items)) + rest == "*" + (number + "\r\n" + (WiresText(items) + rest))
  {
    hide WiresText;
    var line, all := number + "\r\n", WiresText(items);
    assert WireText(List(number, items)) + rest == "*" + ((line + all) + rest);
    assert (line + all) + rest == line + (all + rest);
  }

  /** Every reply so written is read, to its end. */
  lemma {:induction false} WireReads(w: Wire, rest: string)
    requires Proper(w)
    ensures Read(WireText(w) + rest) == Outcome(Ok(Meaning(w)), rest)
    decreases w, 0
  {
    hide Read, ReadMany, LineRead, WireText, WiresText, Spells, ValidUtf8, BulkRead;
    Behind(w, rest);
    match w {
      case Simple(text) => SimpleReads(text, rest);
      case Integer(number, value) => NumberLine(':', number, value, rest);
      case Counted(number, text) =>
        BehindCounted(number, text, rest);
        NumberLine('$', number, |text|, text + "\r\n" + rest);
        BodyReads(text, rest);
      case NoString(number) =>
        NumberLine('$', number, -1, rest);
        NoBody(rest);
      case NoList(number) => NumberLine('*', number, -1, rest);
      case List(number, items) =>
        BehindList(number, items, rest);
        WiresRead(items, rest);
        NumberLine('*', number, |items|, WiresText(items) + rest);
      case Below(number, count) => NumberLine('*', number, count, rest);
    }
  }

  lemma NoBody(rest: string)
    ensures BulkRead(rest, -1) == Outcome(Ok(Null), rest)
  {
  }

  lemma SimpleReads(text: string, rest: string)
    requires '\n' !in text
    ensures Read("+" + (text + "\r\n" + rest)) == Outcome(if ValidUtf8(text) then Ok(Text(text)) else Err(NotUtf8), rest)
  {
    Ahead('+', text, rest);
    assert "+" == ['+'];
    hide LineRead, ValidUtf8, BulkRead, ReadMany;
  }

  lemma {:induction false} WiresRead(ws: seq<Wire>, rest: string)
    requires forall i | 0 <= i < |ws| :: Proper(ws[i])
    ensures ReadMany(WiresText(ws) + rest, |ws|) == Outcome(Ok(Meanings(ws)), rest)
    decreases ws, 1
  {
    hide Read, WireText, Meaning, Proper;
    if ws == [] {
      assert WiresText(ws) + rest == rest;
    } else {
      var behind := WiresText(ws[1..]) + rest;
      assert WiresText(ws) + rest == WireText(ws[0]) + behind;
      WireReads(ws[0], behind);
      WiresRead(ws[1..], rest);
    }
  }

  // ---------------------------------------------------------------- nothing else is read

  lemma LineWas(b: string)
    requires LineRead(b).result.Ok?
    ensures var line := LineRead(b).result.value;
            '\n' !in line && b == line + "\r\n" + LineRead(b).rest
  {
    var e := LineEnd(b, 0);
    var line := b[..e];
    FirstLineEnd(b, 0);
    assert line == line[..|line| - 2] + line[|line| - 2..];
    assert b == b[..e] + b[e..];
  }

  lemma {:induction false} FirstLineEnd(b: string, i: nat)
    requires i <= |b|
    ensures forall j | i <= j < LineEnd(b, i) - 1 :: b[j] != '\n'
    decreases |b| - i
  {
    if i < |b| && b[i] != '\n' {
      FirstLineEnd(b, i + 1);
    }
  }

  lemma BodyWas(b: string, length: int)
    requires BulkRead(b, length).result.Ok? && length != -1
    ensures var out := BulkRead(b, length);
            && length >= 0 && out.result.value.Text? && |out.result.value.text| == length && ValidUtf8(out.result.value.text)
            && b == out.result.value.text + "\r\n" + out.rest
  {
    hide ValidUtf8;
    var data, behind := b[..Min(length, |b|)], b[Min(length, |b|)..];
    assert b == data + behind && behind == behind[..2] + behind[2..];
  }

  lemma NumberWas(b: string)
    requires LineNumber(b).Ok?
    ensures var line := LineRead(b).result.value;
            LineRead(b).result.Ok? && '\n' !in line && Spells(line, LineNumber(b).value) && b == line + "\r\n" + LineRead(b).rest
  {
    LineWas(b);
    ParsesExactlySpelled(LineRead(b).result.value, LineNumber(b).value);
    hide LineRead, ParseInt, Spells;
  }

  /** What a successful read was, by the first byte. */
  lemma ReadWas(b: string)
    requires Read(b).result.Ok?
    ensures b != "" && b[0] in "+:$*"
    ensures var out, line := Read(b), b[1..];
            && (b[0] == '+' ==> LineRead(line).result.Ok? && ValidUtf8(LineRead(line).result.value)
                                && out == Outcome(Ok(Text(LineRead(line).result.value)), LineRead(line).rest))
            && (b[0] != '+' ==> LineNumber(line).Ok?)
            && (b[0] == ':' ==> out == Outcome(Ok(Number(LineNumber(line).value)), LineRead(line).rest))
            && (b[0] == '$' ==> out == BulkRead(LineRead(line).rest, LineNumber(line).value))
            && (b[0] == '*' && LineNumber(line).value == -1 ==> out == Outcome(Ok(Null), LineRead(line).rest))
            && (b[0] == '*' && LineNumber(line).value != -1 ==>
                  var n := LineNumber(line).value;
                  var items := ReadMany(LineRead(line).rest, if n < 0 then 0 else n);
                  items.result.Ok? && out == Outcome(Ok(Many(items.result.value)), items.rest))
  {
    hide LineRead, LineNumber, BulkRead, ReadMany, ValidUtf8;
  }

  lemma SimpleIsWire(b: string) returns (w: Wire)
    requires Read(b).result.Ok? && b != "" && b[0] == '+'
    ensures Proper(w) && Read(b).result.value == Meaning(w) && b == WireText(w) + Read(b).rest
  {
    ReadWas(b);
    hide Read, LineRead, WireText, ValidUtf8;
    LineWas(b[1..]);
    w := Simple(LineRead(b[1..]).result.value);
    Behind(w, Read(b).rest);
    Headed(b, b[1..]);
  }

  lemma IntegerIsWire(b: string) returns (w: Wire)
    requires Read(b).result.Ok? && b != "" && b[0] == ':'
    ensures Proper(w) && Read(b).result.value == Meaning(w) && b == WireText(w) + Read(b).rest
  {
    ReadWas(b);
    hide Read, LineRead, LineNumber, WireText, Spells;
    NumberWas(b[1..]);
    w := Integer(LineRead(b[1..]).result.value, LineNumber(b[1..]).value);
    Behind(w, Read(b).rest);
    Headed(b, b[1..]);
  }

  lemma StringIsWire(b: string) returns (w: Wire)
    requires Read(b).result.Ok? && b != "" && b[0] == '$'
    ensures Proper(w) && Read(b).result.value == Meaning(w) && b == WireText(w) + Read(b).rest
  {
    ReadWas(b);
    hide Read, LineRead, LineNumber, BulkRead, WireText, Proper, Meaning, Spells;
    NumberWas(b[1..]);
    var number, rest := LineRead(b[1..]).result.value, LineRead(b[1..]).rest;
    w := BulkIsWire(number, LineNumber(b[1..]).value, rest);
    Headed(b, number + "\r\n" + rest);
  }

  lemma NoListIsWire(b: string) returns (w: Wire)
    requires Read(b).result.Ok? && b != "" && b[0] == '*' && LineNumber(b[1..]).Ok? && LineNumber(b[1..]).value < 0
    ensures Proper(w) && Read(b).result.value == Meaning(w) && b == WireText(w) + Read(b).rest
  {
    ReadWas(b);
    NoItems(LineRead(b[1..]).rest);
    hide Read, ReadMany, LineRead, LineNumber, WireText, Spells;
    NumberWas(b[1..]);
    var number, n := LineRead(b[1..]).result.value, LineNumber(b[1..]).value;
    w := if n == -1 then NoList(number) else Below(number, n);
    Behind(w, Read(b).rest);
    Headed(b, b[1..]);
  }

  lemma ListIs(b: string, number: string, items: seq<Wire>)
    requires Read(b).result.Ok? && b != "" && b[0] == '*'
    requires LineNumber(b[1..]) == Ok(|items|) && LineRead(b[1..]).result == Ok(number)
    requires var many := ReadMany(LineRead(b[1..]).rest, |items|);
             many.result == Ok(Meanings(items)) && LineRead(b[1..]).rest == WiresText(items) + many.rest
    requires forall i | 0 <= i < |items| :: Proper(items[i])
    ensures var w := List(number, items);
            Proper(w) && Read(b).result.value == Meaning(w) && b == WireText(w) + Read(b).rest
  {
    ReadWas(b);
    NumberWas(b[1..]);
    ProperList(number, items);
    hide Read, ReadMany, LineRead, LineNumber, WireText, WiresText, Meanings, Proper, Spells;
    var rest := Read(b).rest;
    BehindList(number, items, rest);
    Headed(b, number + "\r\n" + (WiresText(items) + rest));
  }

  lemma ProperList(number: string, items: seq<Wire>)
    requires '\n' !in number && Spells(number, |items|) && forall i | 0 <= i < |items| :: Proper(items[i])
    ensures Proper(List(number, items)) && Meaning(List(number, items)) == Many(Meanings(items))
  {
    hide Spells, Meanings;
  }

  /** Whatever is read as a reply was written as one. */
  lemma {:induction false} ReadIsWire(b: string) returns (w: Wire)
    requires Read(b).result.Ok?
    ensures Proper(w) && Read(b).result.value == Meaning(w) && b == WireText(w) + Read(b).rest
    decreases |b|, 0, 0
  {
    ReadWas(b);
    hide Read, ReadMany, LineRead, LineNumber, WireText, WiresText, Proper, Meaning, BulkRead;
    if b[0] == '+' {
      w := SimpleIsWire(b);
    } else if b[0] == ':' {
      w := IntegerIsWire(b);
    } else if b[0] == '$' {
      w := StringIsWire(b);
    } else if LineNumber(b[1..]).value < 0 {
      w := NoListIsWire(b);
    } else {
      NumberWas(b[1..]);
      var number := LineRead(b[1..]).result.value;
      var items := ManyAreWires(LineRead(b[1..]).rest, LineNumber(b[1..]).value);
      ListIs(b, number, items);
      w := List(number, items);
    }
  }

  lemma NoItems(rest: string)
    ensures ReadMany(rest, 0) == Outcome(Ok([]), rest)
  {
  }

  lemma BulkIsWire(number: string, n: int, rest: string) returns (w: Wire)
    requires '\n' !in number && Spells(number, n) && BulkRead(rest, n).result.Ok?
    ensures Proper(w) && BulkRead(rest, n).result.value == Meaning(w)
    ensures "$" + (number + "\r\n" + rest) == WireText(w) + BulkRead(rest, n).rest
  {
    hide WireText, Spells, ValidUtf8, BulkRead;
    if n == -1 {
      w := NoString(number);
      Behind(w, rest);
      NoBody(rest);
    } else {
      BodyWas(rest, n);
      w := Counted(number, BulkRead(rest, n).result.value.text);
      BehindCounted(number, w.text, BulkRead(rest, n).rest);
    }
  }

  lemma {:induction false} ManyAreWires(b: string, count: nat) returns (ws: seq<Wire>)
    requires ReadMany(b, count).result.Ok?
    ensures |ws| == count && forall i | 0 <= i < |ws| :: Proper(ws[i])
    ensures ReadMany(b, count).result.value == Meanings(ws) && b == WiresText(ws) + ReadMany(b, count).rest
    decreases |b|, 1, count
  {
    hide Read, WireText, Meaning, Proper;
    if count == 0 {
      ws := [];
      assert b == "" + b;
    } else {
      var first := Read(b);
      var w := ReadIsWire(b);
      var more := ManyAreWires(first.rest, count - 1);
      ws := [w] + more;
      assert ws[1..] == more;
      var last := ReadMany(b, count).rest;
      assert WireText(w) + (WiresText(more) + last) == WireText(w) + WiresText(more) + last;
    }
  }

  /** The reader returns a reply exactly for the bytes of one, and leaves what stands
    behind it. */
  lemma ReadsExactlyWires(b: string, r: Reply, rest: string)
    ensures Read(b) == Outcome(Ok(r), rest) <==> exists w :: Proper(w) && Meaning(w) == r && b == WireText(w) + rest
  {
    hide Read, Proper, Meaning, WireText;
    if Read(b) == Outcome(Ok(r), rest) {
      var w := ReadIsWire(b);
    }
    if exists w :: Proper(w) && Meaning(w) == r && b == WireText(w) + rest {
      var w :| Proper(w) && Meaning(w) == r && b == WireText(w) + rest;
      WireReads(w, rest);
    }
  }

  // ---------------------------------------------------------------- what is refused, and how

  predicate Prefix(c: char) {
    c == '+' || c == '-' || c == ':' || c == '$' || c == '*'
  }

  lemma CutShort(c: char, line: string)
    requires '\n' !in line && Prefix(c)
    ensures Read([c] + line) == Outcome(Err(if line == "" then Closed else Malformed), "")
  {
    assert ([c] + line)[1..] == line;
    UnendedLine(line);
    hide LineRead, BulkRead, ReadMany, ParseInt, ValidUtf8;
  }

  lemma BareEnd(c: char, line: string, rest: string)
    requires '\n' !in line && Prefix(c) && (line != "" ==> line[|line| - 1] != '\r')
    ensures Read([c] + (line + "\n" + rest)) == Outcome(Err(Malformed), rest)
  {
    assert ([c] + (line + "\n" + rest))[1..] == line + "\n" + rest;
    BareLine(line, rest);
    hide LineRead, BulkRead, ReadMany, ParseInt, ValidUtf8;
  }

  lemma UnknownByte(c: char, rest: string)
    requires !Prefix(c)
    ensures Read([c] + rest) == Outcome(Err(Malformed), rest)
  {
    assert ([c] + rest)[1..] == rest;
    hide LineRead, BulkRead, ReadMany, ParseInt, ValidUtf8;
  }

  /** No bytes, or no line behind the first one, is a closed stream; a line cut short, one that
    a line feed alone ends, and an unknown first byte are malformed, and only that much is
    taken. */
  lemma FramingErrors(c: char, line: string, rest: string)
    requires '\n' !in line
    ensures Read("") == Outcome(Err(Closed), "")
    ensures Prefix(c) ==> Read([c] + line) == Outcome(Err(if line == "" then Closed else Malformed), "")
    ensures Prefix(c) && (line != "" ==> line[|line| - 1] != '\r') ==>
              Read([c] + (line + "\n" + rest)) == Outcome(Err(Malformed), rest)
    ensures !Prefix(c) ==> Read([c] + rest) == Outcome(Err(Malformed), rest)
  {
    assert Read("") == Outcome(Err(Closed), "");
    hide Read, Prefix;
    if Prefix(c) {
      CutShort(c, line);
      if line != "" ==> line[|line| - 1] != '\r' {
        BareEnd(c, line, rest);
      }
    } else {
      UnknownByte(c, rest);
    }
  }

  lemma {:induction false} NoLineEnd(b: string, i: nat)
    requires i <= |b| && '\n' !in b
    ensures LineEnd(b, i) == |b|
    decreases |b| - i
  {
    if i < |b| {
      NoLineEnd(b, i + 1);
    }
  }

  lemma UnendedLine(line: string)
    requires '\n' !in line
    ensures LineRead(line) == Outcome(Err(if line == "" then Closed else Malformed), "")
  {
    NoLineEnd(line, 0);
    assert line[..|line|] == line;
    if |line| >= 2 {
      assert line[|line| - 2..][1] == line[|line| - 1] != CRLF[1];
    }
  }

  lemma BareLine(line: string, rest: string)
    requires '\n' !in line && (line != "" ==> line[|line| - 1] != '\r')
    ensures LineRead(line + "\n" + rest) == Outcome(Err(Malformed), rest)
  {
    var b := line + "\n" + rest;
    LineEndIs(b, 0, |line|);
    var read := b[..|line| + 1];
    assert read == line + "\n" && b[|line| + 1..] == rest;
    if |read| >= 2 {
      assert read[|read| - 2..][0] == line[|line| - 1] != CRLF[0];
    }
  }

  /** In a line that is complete, text has to be UTF-8, and where a number has to stand, one
    has to be spelled; an error reply is the server's error. */
  lemma LineErrors(line: string, rest: string)
    requires '\n' !in line
    ensures Read("-" + (line + "\r\n" + rest)) == Outcome(Err(if ValidUtf8(line) then Server(line) else NotUtf8), rest)
    ensures !ValidUtf8(line) ==> Read("+" + (line + "\r\n" + rest)) == Outcome(Err(NotUtf8), rest)
    ensures (forall n :: !Spells(line, n)) ==>
              && Read(":" + (line + "\r\n" + rest)) == Outcome(Err(Malformed), rest)
              && Read("$" + (line + "\r\n" + rest)) == Outcome(Err(Malformed), rest)
              && Read("*" + (line + "\r\n" + rest)) == Outcome(Err(Malformed), rest)
  {
    Ahead('-', line, rest);
    Ahead('+', line, rest);
    Ahead(':', line, rest);
    Ahead('$', line, rest);
    Ahead('*', line, rest);
    if ParseInt(line).Some? {
      ParsesExactlySpelled(line, ParseInt(line).value);
    }
    hide LineRead, BulkRead, ReadMany, ParseInt, ValidUtf8, Spells;
  }

  /** A string has to have the length announced, which cannot be below -1, and the two bytes
    behind it have to end a line; only then is it looked at as text. */
  lemma StringErrors(number: string, n: int, body: string)
    requires '\n' !in number && Spells(number, n)
    ensures n < -1 ==> Read("$" + (number + "\r\n" + body)) == Outcome(Err(Malformed), body)
    ensures n >= 0 && |body| < n + 2 ==> Read("$" + (number + "\r\n" + body)) == Outcome(Err(Malformed), "")
    ensures n >= 0 && |body| >= n + 2 && body[n..n + 2] != "\r\n" ==>
              Read("$" + (number + "\r\n" + body)) == Outcome(Err(Malformed), body[n + 2..])
    ensures n >= 0 && |body| >= n + 2 && body[n..n + 2] == "\r\n" && !ValidUtf8(body[..n]) ==>
              Read("$" + (number + "\r\n" + body)) == Outcome(Err(NotUtf8), body[n + 2..])
  {
    NumberLine('$', number, n, body);
    BodyErrors(n, body);
    hide Read, BulkRead, Spells, ValidUtf8;
  }

  lemma BodyErrors(n: int, body: string)
    ensures n < -1 ==> BulkRead(body, n) == Outcome(Err(Malformed), body)
    ensures n >= 0 && |body| < n + 2 ==> BulkRead(body, n) == Outcome(Err(Malformed), "")
    ensures n >= 0 && |body| >= n + 2 && body[n..n + 2] != "\r\n" ==> BulkRead(body, n) == Outcome(Err(Malformed), body[n + 2..])
    ensures n >= 0 && |body| >= n + 2 && body[n..n + 2] == "\r\n" && !ValidUtf8(body[..n]) ==>
              BulkRead(body, n) == Outcome(Err(NotUtf8), body[n + 2..])
  {
    hide ValidUtf8;
    if n >= 0 {
      var behind := body[Min(n, |body|)..];
      if |body| >= n + 2 {
        assert behind[..2] == body[n..n + 2] && behind[2..] == body[n + 2..];
      } else {
        assert behind[..Min(2, |behind|)] == behind && |behind| < 2;
      }
    }
  }

  /** A list ends at the first of its replies that is an error: the error is the list's, and
    what stands behind that reply is left. */
  lemma {:induction false} ListErrors(number: string, n: int, ws: seq<Wire>, wrong: string)
    requires '\n' !in number && Spells(number, n) && |ws| < n && forall i | 0 <= i < |ws| :: Proper(ws[i])
    requires Read(wrong).result.Err?
    ensures Read("*" + (number + "\r\n" + (WiresText(ws) + wrong))) == Outcome(Err(Read(wrong).result.error), Read(wrong).rest)
  {
    NumberLine('*', number, n, WiresText(ws) + wrong);
    ManyErrs(ws, n, wrong);
    hide Read, ReadMany, WiresText, Spells;
  }

  lemma {:induction false} ManyErrs(ws: seq<Wire>, n: nat, wrong: string)
    requires |ws| < n && forall i | 0 <= i < |ws| :: Proper(ws[i])
    requires Read(wrong).result.Err?
    ensures ReadMany(WiresText(ws) + wrong, n) == Outcome(Err(Read(wrong).result.error), Read(wrong).rest)
  {
    hide Read, WireText, Meaning, Proper;
    if ws == [] {
      assert WiresText(ws) + wrong == wrong;
    } else {
      var behind := WiresText(ws[1..]) + wrong;
      assert WiresText(ws) + wrong == WireText(ws[0]) + behind;
      WireReads(ws[0], behind);
      ManyErrs(ws[1..], n - 1, wrong);
    }
  }
}
