/** The Redis serialization protocol, as the benchmark client writes commands and reads
  replies. Bytes are kept one `char` each; text is well-formed UTF-8. */
module Resp {
  import opened Wrappers
  import opened Decimals
  import opened Utf8

  const CRLF: string := "\r\n"

  datatype Reply = Null | Text(text: string) | Number(value: int) | Many(items: seq<Reply>)

  datatype Error = Closed | Malformed | NotUtf8 | Server(text: string)

  /** What a read returns and what it leaves unread. */
  datatype Outcome<T> = Outcome(result: Result<T, Error>, rest: string)

  // ---------------------------------------------------------------- integers

  predicate IsSpace(c: char) {
    c == ' ' || '\t' <= c <= '\r'
  }

  function StripLeft(s: string): string {
    if s != "" && IsSpace(s[0]) then StripLeft(s[1..]) else s
  }

  function StripRight(s: string): string {
    if s != "" && IsSpace(s[|s| - 1]) then StripRight(s[..|s| - 1]) else s
  }

  /** Digits, with single underscores between them. */
  predicate Grouped(s: string) {
    && s != "" && s[0] != '_' && s[|s| - 1] != '_'
    && (forall i | 0 <= i < |s| :: IsDigit(s[i]) || s[i] == '_')
    && (forall i | 0 < i < |s| :: s[i - 1] != '_' || s[i] != '_')
  }

  function DigitsValue(s: string): nat
    requires forall i | 0 <= i < |s| :: IsDigit(s[i]) || s[i] == '_'
  {
    if s == "" then 0
    else if s[|s| - 1] == '_' then DigitsValue(s[..|s| - 1])
    else 10 * DigitsValue(s[..|s| - 1]) + DigitValue(s[|s| - 1])
  }

  /** `int` of a byte string. */
  function ParseInt(s: string): Option<int> {
    var body := StripRight(StripLeft(s));
    if body != "" && (body[0] == '-' || body[0] == '+') then
      if !Grouped(body[1..]) then None
      else
        var value: int := DigitsValue(body[1..]);
        Some(if body[0] == '-' then -value else value)
    else if Grouped(body) then Some(DigitsValue(body))
    else None
  }

  function Numeral(n: int): string {
    if n < 0 then "-" + Decimal(-n) else Decimal(n)
  }

  lemma {:induction false} DigitsOfDecimal(n: nat)
    ensures Grouped(Decimal(n)) && DigitsValue(Decimal(n)) == n
  {
    if n < 10 {
      assert Decimal(n)[..0] == "";
    } else {
      DigitsOfDecimal(n / 10);
      assert Decimal(n)[..|Decimal(n)| - 1] == Decimal(n / 10);
    }
  }

  predicate AllDigits(s: string) {
    s != "" && forall i | 0 <= i < |s| :: IsDigit(s[i])
  }

  lemma Unstripped(s: string)
    requires s != "" && !IsSpace(s[0]) && !IsSpace(s[|s| - 1])
    ensures StripRight(StripLeft(s)) == s
  {
  }

  lemma UnsignedParses(digits: string)
    requires AllDigits(digits) && Grouped(digits)
    ensures ParseInt(digits) == Some(DigitsValue(digits))
  {
    assert IsDigit(digits[0]) && IsDigit(digits[|digits| - 1]);
    Unstripped(digits);
    hide StripLeft, StripRight, DigitsValue, AllDigits;
  }

  lemma SignedParses(digits: string)
    requires AllDigits(digits) && Grouped(digits)
    ensures ParseInt("-" + digits) == Some(-(DigitsValue(digits) as int))
  {
    var s := "-" + digits;
    assert s[0] == '-' && s[1..] == digits && s[|s| - 1] == digits[|digits| - 1] && IsDigit(s[|s| - 1]);
    Unstripped(s);
    hide StripLeft, StripRight, DigitsValue, Grouped, AllDigits;
  }

  /** Every number is read back from its numeral. */
  lemma NumeralParses(n: int)
    ensures ParseInt(Numeral(n)) == Some(n)
    ensures forall i | 0 <= i < |Numeral(n)| :: Numeral(n)[i] != '\n'
  {
    hide ParseInt, Decimal, Grouped, DigitsValue;
    var size: nat := if n < 0 then -n else n;
    DigitsOfDecimal(size);
    assert AllDigits(Decimal(size));
    UnsignedParses(Decimal(size));
    SignedParses(Decimal(size));
  }

  // ---------------------------------------------------------------- writing

  function Bulk(part: string): string {
    "$" + Decimal(|part|) + CRLF + part + CRLF
  }

  function Bulks(parts: seq<string>): string {
    if parts == [] then "" else Bulk(parts[0]) + Bulks(parts[1..])
  }

  function Encoded(parts: seq<string>): string {
    "*" + Decimal(|parts|) + CRLF + Bulks(parts)
  }

  function Joined(frame: seq<string>): string {
    if frame == [] then "" else Joined(frame[..|frame| - 1]) + frame[|frame| - 1]
  }

  lemma JoinedStep(frame: seq<string>, piece: string)
    ensures Joined(frame + [piece]) == Joined(frame) + piece
  {
    assert (frame + [piece])[..|frame|] == frame;
  }

  lemma {:induction false} BulksStep(parts: seq<string>, part: string)
    ensures Bulks(parts + [part]) == Bulks(parts) + Bulk(part)
    decreases |parts|
  {
    hide Bulk;
    if parts == [] {
      BulksOfOne(part);
      assert parts + [part] == [part];
    } else {
      BulksStep(parts[1..], part);
      assert (parts + [part])[1..] == parts[1..] + [part];
      assert Bulks(parts + [part]) == Bulk(parts[0]) + Bulks(parts[1..] + [part]);
      assert Bulks(parts) == Bulk(parts[0]) + Bulks(parts[1..]);
      hide Bulks;
      Reassociated(Bulk(parts[0]), Bulks(parts[1..]), Bulk(part));
    }
  }

  lemma BulksOfOne(part: string)
    ensures Bulks([]) == "" && Bulks([part]) == "" + Bulk(part)
  {
    hide Bulk;
    assert [part][1..] == [] && Bulk(part) + "" == Bulk(part) == "" + Bulk(part);
  }

  lemma Reassociated(a: string, b: string, c: string)
    ensures a + (b + c) == a + b + c
  {
  }

  /** `encode_command`, on parts already encoded. */
  method EncodeCommand(parts: seq<string>) returns (bytes: string)
    ensures bytes == Encoded(parts)
  {
    hide Bulk;
    var frame := ["*" + Decimal(|parts|) + CRLF];
    JoinedStep([], frame[0]);
    assert [] + frame == frame;
    assert parts[..0] == [];
    for i := 0 to |parts|
      invariant Joined(frame) == "*" + Decimal(|parts|) + CRLF + Bulks(parts[..i])
    {
      var part := parts[i];
      ghost var before := frame;
      frame := frame + ["$" + Decimal(|part|) + CRLF];
      frame := frame + [part];
      frame := frame + [CRLF];
      FrameStep(before, part);
      BulksStep(parts[..i], part);
      assert parts[..i + 1] == parts[..i] + [part];
    }
    assert parts[..|parts|] == parts;
    return Joined(frame);
  }

  lemma FrameStep(frame: seq<string>, part: string)
    ensures Joined(frame + ["$" + Decimal(|part|) + CRLF] + [part] + [CRLF]) == Joined(frame) + Bulk(part)
  {
    var header := "$" + Decimal(|part|) + CRLF;
    JoinedStep(frame, header);
    JoinedStep(frame + [header], part);
    JoinedStep(frame + [header] + [part], CRLF);
  }

  // ---------------------------------------------------------------- reading

  function LineEnd(b: string, i: nat): (e: nat)
    requires i <= |b|
    ensures i <= e <= |b| && (i < |b| ==> i < e)
    decreases |b| - i
  {
    if i == |b| then i else if b[i] == '\n' then i + 1 else LineEnd(b, i + 1)
  }

  predicate EndsLine(line: string) {
    |line| >= 2 && line[|line| - 2..] == CRLF
  }

  function LineRead(b: string): (out: Outcome<string>)
    ensures |out.rest| <= |b| && (out.result.Ok? ==> |out.rest| < |b|)
  {
    var line, rest := b[..LineEnd(b, 0)], b[LineEnd(b, 0)..];
    if line == "" then Outcome(Err(Closed), rest)
    else if !EndsLine(line) then Outcome(Err(Malformed), rest)
    else Outcome(Ok(line[..|line| - 2]), rest)
  }

  function Decoded(bytes: string): Result<string, Error> {
    if ValidUtf8(bytes) then Ok(bytes) else Err(NotUtf8)
  }

  /** A line as text, or the error of reading it. */
  function LineText(b: string): Result<string, Error> {
    if LineRead(b).result.Err? then LineRead(b).result else Decoded(LineRead(b).result.value)
  }

  function LineNumber(b: string): Result<int, Error> {
    if LineRead(b).result.Err? then Err(LineRead(b).result.error)
    else if ParseInt(LineRead(b).result.value).None? then Err(Malformed)
    else Ok(ParseInt(LineRead(b).result.value).value)
  }

  /** The body of a bulk string of the announced length. */
  function BulkRead(b: string, length: int): (out: Outcome<Reply>)
    ensures |out.rest| <= |b|
  {
    if length == -1 then Outcome(Ok(Null), b)
    else if length < -1 then Outcome(Err(Malformed), b)
    else
      var data, behind := b[..Min(length, |b|)], b[Min(length, |b|)..];
      var terminator, rest := behind[..Min(2, |behind|)], behind[Min(2, |behind|)..];
      if |data| != length || terminator != CRLF then Outcome(Err(Malformed), rest)
      else if Decoded(data).Err? then Outcome(Err(Decoded(data).error), rest)
      else Outcome(Ok(Text(data)), rest)
  }

  function Read(b: string): (out: Outcome<Reply>)
    ensures |out.rest| <= |b| && (out.result.Ok? ==> |out.rest| < |b|)
    decreases |b|, 0, 0
  {
    if b == "" then Outcome(Err(Closed), b)
    else
      var behind := b[1..];
      var rest := LineRead(behind).rest;
      if b[0] == '+' then
        Outcome(if LineText(behind).Ok? then Ok(Text(LineText(behind).value)) else Err(LineText(behind).error), rest)
      else if b[0] == '-' then
        Outcome(Err(if LineText(behind).Ok? then Server(LineText(behind).value) else LineText(behind).error), rest)
      else if b[0] == ':' then
        Outcome(if LineNumber(behind).Ok? then Ok(Number(LineNumber(behind).value)) else Err(LineNumber(behind).error), rest)
      else if b[0] == '$' then
        if LineNumber(behind).Err? then Outcome(Err(LineNumber(behind).error), rest) else BulkRead(rest, LineNumber(behind).value)
      else if b[0] == '*' then
        if LineNumber(behind).Err? then Outcome(Err(LineNumber(behind).error), rest)
        else if LineNumber(behind).value == -1 then Outcome(Ok(Null), rest)
        else
          var count := LineNumber(behind).value;
          var items := ReadMany(rest, if count < 0 then 0 else count);
          Outcome(if items.result.Ok? then Ok(Many(items.result.value)) else Err(items.result.error), items.rest)
      else Outcome(Err(Malformed), behind)
  }

  function ReadMany(b: string, count: nat): (out: Outcome<seq<Reply>>)
    ensures |out.rest| <= |b|
    decreases |b|, 1, count
  {
    if count == 0 then Outcome(Ok([]), b)
    else
      var first := Read(b);
      if first.result.Err? then Outcome(Err(first.result.error), first.rest)
      else
        var more := ReadMany(first.rest, count - 1);
        Outcome(if more.result.Ok? then Ok([first.result.value] + more.result.value) else more.result, more.rest)
  }

  /** A buffered stream: the bytes not yet read. */
  class Stream {
    var unread: string

    constructor (bytes: string)
      ensures unread == bytes
    {
      unread := bytes;
    }

    method Take(count: nat) returns (bytes: string)
      modifies this
      ensures bytes == old(unread)[..Min(count, |old(unread)|)] && unread == old(unread)[Min(count, |old(unread)|)..]
    {
      var n := Min(count, |unread|);
      bytes := unread[..n];
      unread := unread[n..];
    }

    method ReadLine() returns (line: string)
      modifies this
      ensures line == old(unread)[..LineEnd(old(unread), 0)] && unread == old(unread)[LineEnd(old(unread), 0)..]
    {
      var end := LineEnd(unread, 0);
      line := unread[..end];
      unread := unread[end..];
    }
  }

  /** `_read_line`. */
  method ReadLine(stream: Stream) returns (line: Result<string, Error>)
    modifies stream
    ensures Outcome(line, stream.unread) == LineRead(old(stream.unread))
  {
    var bytes := stream.ReadLine();
    if bytes == "" {
      return Err(Closed);
    }
    if !EndsLine(bytes) {
      return Err(Malformed);
    }
    return Ok(bytes[..|bytes| - 2]);
  }

  method ReadNumber(stream: Stream) returns (number: Result<int, Error>)
    modifies stream
    ensures number == LineNumber(old(stream.unread)) && stream.unread == LineRead(old(stream.unread)).rest
  {
    var line := ReadLine(stream);
    if line.Err? {
      return Err(line.error);
    }
    var parsed := ParseInt(line.value);
    return if parsed.None? then Err(Malformed) else Ok(parsed.value);
  }

  function Prepended(items: seq<Reply>, out: Outcome<seq<Reply>>): Outcome<seq<Reply>> {
    if out.result.Ok? then Outcome(Ok(items + out.result.value), out.rest) else out
  }

  /** `read_resp`. */
  method ReadResp(stream: Stream) returns (reply: Result<Reply, Error>)
    modifies stream
    ensures Outcome(reply, stream.unread) == Read(old(stream.unread))
    decreases |stream.unread|, 0
  {
    hide LineRead, LineNumber, ParseInt, ValidUtf8;
    var prefix := stream.Take(1);
    if prefix == "" {
      return Err(Closed);
    }
    if prefix[0] == '+' || prefix[0] == '-' {
      var line := ReadLine(stream);
      if line.Err? {
        return Err(line.error);
      }
      var text := Decoded(line.value);
      if text.Err? {
        return Err(text.error);
      }
      return if prefix[0] == '+' then Ok(Text(text.value)) else Err(Server(text.value));
    }
    if prefix[0] == ':' {
      var number := ReadNumber(stream);
      return if number.Err? then Err(number.error) else Ok(Number(number.value));
    }
    if prefix[0] == '$' {
      var length := ReadNumber(stream);
      if length.Err? {
        return Err(length.error);
      }
      if length.value == -1 {
        return Ok(Null);
      }
      if length.value < -1 {
        return Err(Malformed);
      }
      var data := stream.Take(length.value);
      var terminator := stream.Take(2);
      if |data| != length.value || terminator != CRLF {
        return Err(Malformed);
      }
      var text := Decoded(data);
      return if text.Err? then Err(text.error) else Ok(Text(text.value));
    }
    if prefix[0] == '*' {
      var length := ReadNumber(stream);
      if length.Err? {
        return Err(length.error);
      }
      if length.value == -1 {
        return Ok(Null);
      }
      reply := ReadItems(stream, if length.value < 0 then 0 else length.value);
      return;
    }
    return Err(Malformed);
  }

  /** The comprehension in `read_resp` that reads the items of an array. */
  method ReadItems(stream: Stream, count: nat) returns (reply: Result<Reply, Error>)
    modifies stream
    ensures var out := ReadMany(old(stream.unread), count);
            stream.unread == out.rest && reply == if out.result.Ok? then Ok(Many(out.result.value)) else Err(out.result.error)
    decreases |stream.unread|, 1
  {
    hide Read;
    var items: seq<Reply> := [];
    ghost var start := stream.unread;
    PrependedStep([], [], ReadMany(start, count));
    for i := 0 to count
      invariant |stream.unread| <= |start|
      invariant Prepended(items, ReadMany(stream.unread, count - i)) == ReadMany(start, count)
    {
      var item := ReadResp(stream);
      if item.Err? {
        return Err(item.error);
      }
      PrependedStep(items, [item.value], ReadMany(stream.unread, count - i - 1));
      items := items + [item.value];
    }
    assert items + [] == items;
    return Ok(Many(items));
  }

  lemma PrependedStep(items: seq<Reply>, item: seq<Reply>, out: Outcome<seq<Reply>>)
    ensures Prepended([], out) == out
    ensures Prepended(items, Prepended(item, out)) == Prepended(items + item, out)
  {
    if out.result.Ok? {
      assert [] + out.result.value == out.result.value;
      assert items + (item + out.result.value) == items + item + out.result.value;
    }
  }

  // ---------------------------------------------------------------- round trips

  predicate Readable(r: Reply) {
    match r
    case Text(text) => ValidUtf8(text)
    case Many(items) => forall i | 0 <= i < |items| :: Readable(items[i])
    case _ => true
  }

  /** A reply as the server prints it. */
  function Printed(r: Reply): string
    decreases r, 0
  {
    match r
    case Null => "$-1\r\n"
    case Text(text) => Bulk(text)
    case Number(value) => ":" + Numeral(value) + CRLF
    case Many(items) => "*" + Decimal(|items|) + CRLF + PrintedAll(items)
  }

  function PrintedAll(items: seq<Reply>): string
    decreases items, 1
  {
    if items == [] then "" else Printed(items[0]) + PrintedAll(items[1..])
  }

  lemma {:induction false} LineEndIs(b: string, i: nat, e: nat)
    requires i <= e < |b| && b[e] == '\n' && forall j | i <= j < e :: b[j] != '\n'
    ensures LineEnd(b, i) == e + 1
    decreases e - i
  {
    if i < e {
      LineEndIs(b, i + 1, e);
    }
  }

  lemma LineReads(line: string, rest: string)
    requires forall i | 0 <= i < |line| :: line[i] != '\n'
    ensures LineRead(line + CRLF + rest) == Outcome(Ok(line), rest)
  {
    var b := line + CRLF + rest;
    LineEndIs(b, 0, |line| + 1);
    assert b[..|line| + 2] == line + CRLF;
    assert b[|line| + 2..] == rest;
    assert (line + CRLF)[|line|..] == CRLF && (line + CRLF)[..|line|] == line;
  }

  lemma NumberReads(n: int, rest: string)
    ensures LineRead(Numeral(n) + CRLF + rest).rest == rest && LineNumber(Numeral(n) + CRLF + rest) == Ok(n)
  {
    NumeralParses(n);
    LineReads(Numeral(n), rest);
  }

  /** Any text, line ends and all, comes back from its bulk string. */
  lemma BulkReads(text: string, rest: string)
    requires ValidUtf8(text)
    ensures Read(Bulk(text) + rest) == Outcome(Ok(Text(text)), rest)
  {
    hide LineRead, LineNumber, Decimal, ValidUtf8, Read;
    var behind := text + CRLF + rest;
    NumberReads(|text|, behind);
    assert (Bulk(text) + rest)[1..] == Decimal(|text|) + CRLF + behind;
    assert Read(Bulk(text) + rest) == BulkRead(behind, |text|) by { ReadsBulk(Bulk(text) + rest); }
    assert behind[..|text|] == text && behind[|text|..] == CRLF + rest;
    assert (CRLF + rest)[..2] == CRLF && (CRLF + rest)[2..] == rest;
  }

  lemma ReadsBulk(b: string)
    requires b != "" && b[0] == '$' && LineNumber(b[1..]).Ok?
    ensures Read(b) == BulkRead(LineRead(b[1..]).rest, LineNumber(b[1..]).value)
  {
  }

  lemma ReadsMany(b: string)
    requires b != "" && b[0] == '*' && LineNumber(b[1..]).Ok? && LineNumber(b[1..]).value >= 0
    ensures var out := ReadMany(LineRead(b[1..]).rest, LineNumber(b[1..]).value);
            Read(b) == Outcome(if out.result.Ok? then Ok(Many(out.result.value)) else Err(out.result.error), out.rest)
  {
  }

  lemma NullReads(rest: string)
    ensures Read("$-1\r\n" + rest) == Outcome(Ok(Null), rest)
  {
    var b := "$-1\r\n" + rest;
    assert Decimal(1) == "1";
    assert b[1..] == Numeral(-1) + CRLF + rest;
    NumberReads(-1, rest);
    hide LineRead, LineNumber, Read;
    ReadsBulk(b);
  }

  lemma IntReads(n: int, rest: string)
    ensures Read(":" + Numeral(n) + CRLF + rest) == Outcome(Ok(Number(n)), rest)
  {
    var b := ":" + Numeral(n) + CRLF + rest;
    assert b[1..] == Numeral(n) + CRLF + rest;
    NumberReads(n, rest);
    hide LineRead, LineNumber, Numeral;
  }

  /** Every reply, however deep, is read back from its print, and the bytes behind it are
    left alone. */
  lemma {:induction false} ReplyRoundTrip(r: Reply, rest: string)
    requires Readable(r)
    ensures Read(Printed(r) + rest) == Outcome(Ok(r), rest)
    decreases r, 0
  {
    hide Read, ReadMany, LineRead, LineNumber, Decimal, Numeral, Bulk, ValidUtf8;
    match r {
      case Null => NullReads(rest);
      case Text(text) => BulkReads(text, rest);
      case Number(value) => IntReads(value, rest);
      case Many(items) =>
        var b := Printed(r) + rest;
        ManyHeader(items, rest);
        RepliesRoundTrip(items, rest);
        ReadsMany(b);
    }
  }

  lemma ManyHeader(items: seq<Reply>, rest: string)
    ensures var b := Printed(Many(items)) + rest;
            && b != "" && b[0] == '*' && LineNumber(b[1..]) == Ok(|items|) && LineRead(b[1..]).rest == PrintedAll(items) + rest
  {
    var count, all := Decimal(|items|), PrintedAll(items);
    assert Printed(Many(items)) == "*" + count + CRLF + all;
    NumberReads(|items|, all + rest);
    hide LineRead, LineNumber, PrintedAll, Printed, Decimal;
    HeaderBehind(count, all, rest);
  }

  lemma HeaderBehind(count: string, all: string, rest: string)
    ensures ("*" + count + CRLF + all + rest)[1..] == count + CRLF + (all + rest)
  {
  }

  lemma {:induction false} RepliesRoundTrip(items: seq<Reply>, rest: string)
    requires forall i | 0 <= i < |items| :: Readable(items[i])
    ensures ReadMany(PrintedAll(items) + rest, |items|) == Outcome(Ok(items), rest)
    decreases items, 1
  {
    hide Read, Printed, Readable;
    if items == [] {
      assert PrintedAll(items) + rest == rest;
    } else {
      var behind := PrintedAll(items[1..]) + rest;
      assert PrintedAll(items) + rest == Printed(items[0]) + behind;
      ReplyRoundTrip(items[0], behind);
      RepliesRoundTrip(items[1..], rest);
      assert [items[0]] + items[1..] == items;
    }
  }

  function AsReply(parts: seq<string>): Reply {
    Many(seq(|parts|, i requires 0 <= i < |parts| => Text(parts[i])))
  }

  lemma {:induction false} BulksArePrinted(parts: seq<string>)
    ensures PrintedAll(AsReply(parts).items) == Bulks(parts)
  {
    hide Bulk;
    if parts != [] {
      BulksArePrinted(parts[1..]);
      assert AsReply(parts).items[1..] == AsReply(parts[1..]).items;
    }
  }

  /** A command is read back as its parts, whatever bytes come behind it. */
  lemma CommandRoundTrip(parts: seq<string>, rest: string)
    requires forall i | 0 <= i < |parts| :: ValidUtf8(parts[i])
    ensures Read(Encoded(parts) + rest) == Outcome(Ok(AsReply(parts)), rest)
  {
    hide Read, ValidUtf8, PrintedAll, Bulks, Decimal;
    BulksArePrinted(parts);
    ReplyRoundTrip(AsReply(parts), rest);
  }

  function Pipeline(commands: seq<seq<string>>): string {
    if commands == [] then "" else Encoded(commands[0]) + Pipeline(commands[1..])
  }

  /** Commands written one after another are read back in that order. */
  lemma {:induction false} PipelineRoundTrip(commands: seq<seq<string>>, rest: string)
    requires forall k, i | 0 <= k < |commands| && 0 <= i < |commands[k]| :: ValidUtf8(commands[k][i])
    ensures ReadMany(Pipeline(commands) + rest, |commands|) ==
            Outcome(Ok(seq(|commands|, k requires 0 <= k < |commands| => AsReply(commands[k]))), rest)
    decreases |commands|
  {
    hide Read, Encoded, AsReply, ValidUtf8;
    if commands == [] {
      assert Pipeline(commands) + rest == rest;
      assert seq(|commands|, k requires 0 <= k < |commands| => AsReply(commands[k])) == [];
    } else {
      var behind := Pipeline(commands[1..]) + rest;
      assert Pipeline(commands) + rest == Encoded(commands[0]) + behind;
      CommandRoundTrip(commands[0], behind);
      PipelineRoundTrip(commands[1..], rest);
      var tail := seq(|commands[1..]|, k requires 0 <= k < |commands[1..]| => AsReply(commands[1..][k]));
      assert [AsReply(commands[0])] + tail == seq(|commands|, k requires 0 <= k < |commands| => AsReply(commands[k]));
    }
  }

  /** No command is the beginning of another one. */
  lemma CommandsPrefixFree(a: seq<string>, x: string, b: seq<string>, y: string)
    requires (forall i | 0 <= i < |a| :: ValidUtf8(a[i])) && (forall i | 0 <= i < |b| :: ValidUtf8(b[i]))
    requires Encoded(a) + x == Encoded(b) + y
    ensures a == b && x == y
  {
    CommandRoundTrip(a, x);
    CommandRoundTrip(b, y);
    hide Read, Encoded, ValidUtf8;
    assert AsReply(a) == AsReply(b);
    assert |a| == |AsReply(a).items| == |b|;
    forall i | 0 <= i < |a| ensures a[i] == b[i] {
      assert AsReply(a).items[i] == AsReply(b).items[i];
    }
  }

  /** After an error reply the stream stands at the next reply. */
  lemma ServerErrorConsumesItsLine(text: string, rest: string)
    requires ValidUtf8(text) && forall i | 0 <= i < |text| :: text[i] != '\n'
    ensures Read("-" + text + CRLF + rest) == Outcome(Err(Server(text)), rest)
    ensures Read("+" + text + CRLF + rest) == Outcome(Ok(Text(text)), rest)
  {
    assert ("-" + text + CRLF + rest)[1..] == text + CRLF + rest;
    assert ("+" + text + CRLF + rest)[1..] == text + CRLF + rest;
    LineReads(text, rest);
    hide LineRead, ValidUtf8;
  }

  // ---------------------------------------------------------------- truncation

  lemma {:induction false} LineEndExtends(b: string, x: string, i: nat)
    requires i < |b|
    ensures b[LineEnd(b, i) - 1] == '\n' ==> LineEnd(b + x, i) == LineEnd(b, i)
    decreases |b| - i
  {
    if b[i] != '\n' && i + 1 < |b| {
      LineEndExtends(b, x, i + 1);
    }
  }

  lemma LineExtends(b: string, x: string)
    requires LineRead(b).result.Ok?
    ensures LineRead(b + x) == Outcome(LineRead(b).result, LineRead(b).rest + x)
  {
    var e := LineEnd(b, 0);
    var line := b[..e];
    assert line[|line| - 1] == line[|line| - 2..][1] == '\n';
    LineEndExtends(b, x, 0);
    assert (b + x)[..e] == line && (b + x)[e..] == b[e..] + x;
  }

  lemma BulkExtends(b: string, length: int, x: string)
    requires BulkRead(b, length).result.Ok?
    ensures BulkRead(b + x, length) == Outcome(BulkRead(b, length).result, BulkRead(b, length).rest + x)
  {
    hide ValidUtf8;
    if length >= 0 {
      assert (b + x)[..length] == b[..length] && (b + x)[length..] == b[length..] + x;
      var behind := b[length..];
      assert (behind + x)[..2] == behind[..2] && (behind + x)[2..] == behind[2..] + x;
    }
  }

  /** Bytes behind a reply change neither the reply nor how much is read of it. */
  lemma {:induction false} ReadExtends(b: string, x: string)
    requires Read(b).result.Ok?
    ensures Read(b + x) == Outcome(Read(b).result, Read(b).rest + x)
    decreases |b|, 0, 0
  {
    hide LineRead, BulkRead, ParseInt, ValidUtf8, ReadMany;
    var behind := b[1..];
    assert (b + x)[1..] == behind + x && (b + x)[0] == b[0];
    LineExtends(behind, x);
    var rest := LineRead(behind).rest;
    if b[0] == '$' {
      BulkExtends(rest, LineNumber(behind).value, x);
    } else if b[0] == '*' && LineNumber(behind).value != -1 {
      var count := LineNumber(behind).value;
      ReadManyExtends(rest, if count < 0 then 0 else count, x);
    }
  }

  lemma {:induction false} ReadManyExtends(b: string, count: nat, x: string)
    requires ReadMany(b, count).result.Ok?
    ensures ReadMany(b + x, count) == Outcome(ReadMany(b, count).result, ReadMany(b, count).rest + x)
    decreases |b|, 1, count
  {
    hide Read;
    if count > 0 {
      ReadExtends(b, x);
      ReadManyExtends(Read(b).rest, count - 1, x);
    }
  }

  /** A reply cut short anywhere is read as an error, never as another reply. */
  lemma TruncationIsAnError(r: Reply, cut: nat)
    requires Readable(r) && cut < |Printed(r)|
    ensures Read(Printed(r)[..cut]).result.Err?
  {
    var part, missing := Printed(r)[..cut], Printed(r)[cut..];
    hide Read, Readable, Printed;
    assert part + missing == Printed(r) == Printed(r) + "";
    ReplyRoundTrip(r, "");
    if Read(part).result.Ok? {
      ReadExtends(part, missing);
    }
  }
}
