/** The signature envelope: its canonical print, its parser, the armor around it and
  the preimage that binds it to the signed object. */
module Envelopes {
  import opened Wrappers
  import opened JsonValues
  import opened Decimals
  import opened Texts
  import opened Conditions
  import opened Base64

  datatype Attestation = Attestation(owner: string, conditions: string, signature: string)

  datatype Envelope = Envelope(pk: string, sig: string, t: nat, oa: Option<Attestation>)

  predicate IsHexDigit(c: char) {
    '0' <= c <= '9' || 'a' <= c <= 'f'
  }

  /** `validate_hex_field`. */
  predicate IsHex(s: string, n: nat) {
    |s| == n && forall i | 0 <= i < |s| :: IsHexDigit(s[i])
  }

  predicate ValidAttestation(a: Attestation) {
    IsHex(a.owner, 64) && IsHex(a.signature, 128) && ValidateConditions(a.conditions)
  }

  predicate Printable(e: Envelope) {
    && IsHex(e.pk, 64) && IsHex(e.sig, 128) && e.t <= U32_MAX
    && (e.oa.Some? ==> ValidAttestation(e.oa.value))
  }

  predicate ValidEnvelope(e: Envelope, isKey: string -> bool) {
    Printable(e) && (e.oa.Some? ==> isKey(e.oa.value.owner) && e.oa.value.owner != e.pk)
  }

  // ---------------------------------------------------------------- canonical print

  const OPEN := "{\"v\":1,\"pk\":\""
  const SIG := "\",\"sig\":\""
  const TIME := "\",\"t\":"
  const OA := ",\"oa\":[\""
  const NEXT := "\",\""
  const CLOSE := "\"]}"

  function PrintAttestation(oa: Option<Attestation>): string {
    if oa.None? then "}"
    else OA + (oa.value.owner + (NEXT + (oa.value.conditions + (NEXT + (oa.value.signature + CLOSE)))))
  }

  /** `build_envelope`. */
  function BuildEnvelope(e: Envelope): string {
    OPEN + (e.pk + (SIG + (e.sig + (TIME + (Decimal(e.t) + PrintAttestation(e.oa))))))
  }

  lemma PrintAttestationInjective(a: Option<Attestation>, b: Option<Attestation>)
    requires a.Some? ==> ValidAttestation(a.value)
    requires b.Some? ==> ValidAttestation(b.value)
    requires PrintAttestation(a) == PrintAttestation(b)
    ensures a == b
  {
    assert PrintAttestation(a)[0] == if a.None? then '}' else ',';
    assert PrintAttestation(b)[0] == if b.None? then '}' else ',';
    if a.Some? {
      var x, y := a.value, b.value;
      var x3, y3 := NEXT + (x.signature + CLOSE), NEXT + (y.signature + CLOSE);
      var x2, y2 := NEXT + (x.conditions + x3), NEXT + (y.conditions + y3);
      FixedUnique(OA, x.owner + x2, OA, y.owner + y2);
      FixedUnique(x.owner, x2, y.owner, y2);
      FixedUnique(NEXT, x.conditions + x3, NEXT, y.conditions + y3);
      AcceptedIsPlain(x.conditions);
      AcceptedIsPlain(y.conditions);
      CutUnique(x.conditions, x3, y.conditions, y3, {'"'});
      FixedUnique(NEXT, x.signature + CLOSE, NEXT, y.signature + CLOSE);
      FixedUnique(x.signature, CLOSE, y.signature, CLOSE);
    }
  }

  /** No text is the print of two envelopes. */
  lemma BuildEnvelopeInjective(d: Envelope, e: Envelope)
    requires Printable(d) && Printable(e) && BuildEnvelope(d) == BuildEnvelope(e)
    ensures d == e
  {
    hide PrintAttestation, ValidateConditions;
    var d3, e3 := Decimal(d.t) + PrintAttestation(d.oa), Decimal(e.t) + PrintAttestation(e.oa);
    var d2, e2 := TIME + d3, TIME + e3;
    var d1, e1 := SIG + (d.sig + d2), SIG + (e.sig + e2);
    FixedUnique(OPEN, d.pk + d1, OPEN, e.pk + e1);
    FixedUnique(d.pk, d1, e.pk, e1);
    FixedUnique(SIG, d.sig + d2, SIG, e.sig + e2);
    FixedUnique(d.sig, d2, e.sig, e2);
    FixedUnique(TIME, d3, TIME, e3);
    AttestationStart(d.oa);
    AttestationStart(e.oa);
    CutUnique(Decimal(d.t), PrintAttestation(d.oa), Decimal(e.t), PrintAttestation(e.oa), {'}', ','});
    DecimalInjective(d.t, e.t);
    PrintAttestationInjective(d.oa, e.oa);
  }

  lemma AttestationStart(oa: Option<Attestation>)
    ensures PrintAttestation(oa) != "" && PrintAttestation(oa)[0] == if oa.None? then '}' else ','
  {
  }

  // ---------------------------------------------------------------- parser

  function HexField(v: Json, key: string, n: nat): Result<string, string> {
    if v.Get(key).None? then Err("missing required field")
    else if !v.Get(key).value.Str? then Err("must be a string")
    else if !IsHex(v.Get(key).value.s, n) then Err("must be lowercase hex of the exact length")
    else Ok(v.Get(key).value.s)
  }

  function ParseAttestation(v: Json, pk: string, isKey: string -> bool): Result<Option<Attestation>, string> {
    if v.Get("oa").None? then Ok(None)
    else
      var oa := v.Get("oa").value;
      if !oa.Arr? then Err("oa must be an array")
      else if |oa.items| != 3 then Err("oa must have exactly 3 elements")
      else if !(oa.items[0].Str? && oa.items[1].Str? && oa.items[2].Str?) then Err("oa elements must be strings")
      else
        var a := Attestation(oa.items[0].s, oa.items[1].s, oa.items[2].s);
        if !ValidAttestation(a) then Err("oa field malformed")
        else if !isKey(a.owner) then Err("oa[0] is not a valid BIP-340 public key")
        else if a.owner == pk then Err("oa[0] must not equal pk")
        else Ok(Some(a))
  }

  /** `parse_envelope`, on the value the JSON parser returned. */
  function ParseEnvelope(v: Json, isKey: string -> bool): Result<Envelope, string> {
    if !v.Obj? then Err("JSON must be an object")
    else if !(v.fields.Keys <= {"v", "pk", "sig", "t", "oa"}) then Err("unknown key in v=1 envelope")
    else if v.Get("v") != Some(Int(1)) then Err("v must be the integer 1")
    else
      var pk := HexField(v, "pk", 64);
      var sig := HexField(v, "sig", 128);
      if pk.Err? then Err(pk.error)
      else if sig.Err? then Err(sig.error)
      else if v.Get("t").None? then Err("missing required field: t")
      else if !v.Get("t").value.Int? || v.Get("t").value.n < 0 then Err("t must be a non-negative integer")
      else if v.Get("t").value.n > U32_MAX then Err("t out of range")
      else
        var oa := ParseAttestation(v, pk.value, isKey);
        if oa.Err? then Err(oa.error) else Ok(Envelope(pk.value, sig.value, v.Get("t").value.n, oa.value))
  }

  /** The JSON value of an envelope. */
  function EnvelopeJson(e: Envelope): Json {
    var base := map["v" := Int(1), "pk" := Str(e.pk), "sig" := Str(e.sig), "t" := Int(e.t)];
    if e.oa.None? then Obj(base)
    else Obj(base["oa" := Arr([Str(e.oa.value.owner), Str(e.oa.value.conditions), Str(e.oa.value.signature)])])
  }

  lemma ParseReturnsValid(v: Json, e: Envelope, isKey: string -> bool)
    requires ParseEnvelope(v, isKey) == Ok(e)
    ensures ValidEnvelope(e, isKey) && v == EnvelopeJson(e)
  {
    hide ValidateConditions;
    var f := v.fields;
    if "oa" in f {
      var items := f["oa"].items;
      assert items == [items[0], items[1], items[2]];
      assert f.Keys == {"v", "pk", "sig", "t", "oa"};
    } else {
      assert f.Keys == {"v", "pk", "sig", "t"};
    }
    assert f == EnvelopeJson(e).fields;
  }

  lemma ParseOfEnvelopeJson(e: Envelope, isKey: string -> bool)
    requires ValidEnvelope(e, isKey)
    ensures ParseEnvelope(EnvelopeJson(e), isKey) == Ok(e)
  {
    hide ValidateConditions;
  }

  /** The parser accepts exactly the values of valid envelopes. */
  lemma ParsesExactlyEnvelopes(v: Json, e: Envelope, isKey: string -> bool)
    ensures ParseEnvelope(v, isKey) == Ok(e) <==> (ValidEnvelope(e, isKey) && v == EnvelopeJson(e))
  {
    hide ParseEnvelope, ValidEnvelope, EnvelopeJson;
    if ParseEnvelope(v, isKey) == Ok(e) {
      ParseReturnsValid(v, e, isKey);
    }
    if ValidEnvelope(e, isKey) && v == EnvelopeJson(e) {
      ParseOfEnvelopeJson(e, isKey);
    }
  }

  /** Parse and rebuild: the check that the text was canonical. */
  function OpenEnvelope(text: string, parseJson: string -> Option<Json>, isKey: string -> bool): Result<Envelope, string> {
    if parseJson(text).None? then Err("invalid JSON")
    else
      var e := ParseEnvelope(parseJson(text).value, isKey);
      if e.Ok? && BuildEnvelope(e.value) != text then Err("JSON is not in canonical form") else e
  }

  /** Whatever the JSON parser does, a text that passes is the print of a valid
    envelope and of no other, so two parsers that let it pass read the same envelope. */
  lemma OpensOnlyItsPrint(text: string, parseJson: string -> Option<Json>, isKey: string -> bool, e: Envelope)
    requires OpenEnvelope(text, parseJson, isKey).Ok?
    ensures var found := OpenEnvelope(text, parseJson, isKey).value;
            && ValidEnvelope(found, isKey)
            && (Printable(e) ==> (BuildEnvelope(e) == text <==> e == found))
  {
    hide ParseEnvelope, BuildEnvelope;
    var found := OpenEnvelope(text, parseJson, isKey).value;
    ParseReturnsValid(parseJson(text).value, found, isKey);
    if Printable(e) && BuildEnvelope(e) == text {
      BuildEnvelopeInjective(e, found);
    }
  }

  // ---------------------------------------------------------------- compactness

  predicate IsBlank(c: char) {
    c == ' ' || c == '\t' || c == '\n' || c == '\r' || c == '\U{0C}'
  }

  /** Whether the scanner is inside a string, and whether it just met a backslash there. */
  datatype ScanState = ScanState(inString: bool, escape: bool)

  function ScanChar(st: ScanState, c: char): ScanState {
    if st.escape then st.(escape := false)
    else if st.inString then
      if c == '\\' then st.(escape := true)
      else if c == '"' then st.(inString := false)
      else st
    else if c == '"' then st.(inString := true)
    else st
  }

  function ScanStateAfter(s: string): ScanState {
    if s == "" then ScanState(false, false) else ScanChar(ScanStateAfter(s[..|s| - 1]), s[|s| - 1])
  }

  /** Some blank stands outside every string value. */
  ghost predicate BlankOutsideStrings(s: string) {
    exists i | 0 <= i < |s| :: IsBlank(s[i]) && ScanStateAfter(s[..i]) == ScanState(false, false)
  }

  /** `has_non_string_whitespace`. */
  method HasNonStringWhitespace(s: string) returns (found: bool)
    ensures found <==> BlankOutsideStrings(s)
  {
    var inString, escape := false, false;
    for i := 0 to |s|
      invariant ScanState(inString, escape) == ScanStateAfter(s[..i])
      invariant forall j | 0 <= j < i :: !(IsBlank(s[j]) && ScanStateAfter(s[..j]) == ScanState(false, false))
    {
      assert s[..i + 1][..i] == s[..i];
      if escape {
        escape := false;
        continue;
      }
      if inString {
        if s[i] == '\\' {
          escape := true;
        } else if s[i] == '"' {
          inString := false;
        }
      } else if s[i] == '"' {
        inString := true;
      } else if IsBlank(s[i]) {
        return true;
      }
    }
    return false;
  }

  // What "outside strings" means, told by the grammar of JSON texts instead of a scan.

  /** A character of a string value, or a backslash with the character behind it. */
  datatype StringChar = Itself(c: char) | Escaped(c: char)

  /** A JSON text is made of string values and of what stands between them. */
  datatype Piece = Between(text: string) | Quoted(body: seq<StringChar>)

  predicate WellFormed(p: Piece) {
    match p
    case Between(text) => '"' !in text
    case Quoted(body) => forall ch | ch in body :: ch.Itself? ==> ch.c != '"' && ch.c != '\\'
  }

  function BodyText(body: seq<StringChar>): string {
    if body == [] then ""
    else
      var last := body[|body| - 1];
      BodyText(body[..|body| - 1]) + if last.Itself? then [last.c] else ['\\', last.c]
  }

  function PieceText(p: Piece): string {
    match p
    case Between(text) => text
    case Quoted(body) => "\"" + BodyText(body) + "\""
  }

  function PiecesText(pieces: seq<Piece>): string {
    if pieces == [] then "" else PiecesText(pieces[..|pieces| - 1]) + PieceText(pieces[|pieces| - 1])
  }

  /** A space, a tab, or one of the characters that end a line or a page. */
  predicate BlankChar(c: char) {
    c in {' ', '\t', '\n', '\r', '\U{0C}'}
  }

  ghost predicate BlankBetween(pieces: seq<Piece>) {
    exists p, c | p in pieces :: p.Between? && c in p.text && BlankChar(c)
  }

  const OUTSIDE := ScanState(false, false)

  lemma {:induction false} ScanOnwards(a: string, b: string)
    requires ScanStateAfter(a) == OUTSIDE
    ensures ScanStateAfter(a + b) == ScanStateAfter(b)
    decreases |b|
  {
    if b == "" {
      assert a + b == a;
    } else {
      ScanOnwards(a, b[..|b| - 1]);
      assert (a + b)[..|a + b| - 1] == a + b[..|b| - 1];
    }
  }

  /** Behind a text that ends outside strings a scan starts afresh. */
  lemma BlankInEither(a: string, b: string)
    requires ScanStateAfter(a) == OUTSIDE
    ensures BlankOutsideStrings(a + b) <==> BlankOutsideStrings(a) || BlankOutsideStrings(b)
  {
    hide ScanStateAfter;
    forall i | 0 <= i < |b| ensures ScanStateAfter((a + b)[..|a| + i]) == ScanStateAfter(b[..i]) {
      assert (a + b)[..|a| + i] == a + b[..i];
      ScanOnwards(a, b[..i]);
    }
    forall i | 0 <= i < |a| ensures (a + b)[..i] == a[..i] {
    }
    if BlankOutsideStrings(b) {
      var i :| 0 <= i < |b| && IsBlank(b[i]) && ScanStateAfter(b[..i]) == OUTSIDE;
      assert (a + b)[|a| + i] == b[i];
    }
    if BlankOutsideStrings(a + b) {
      var i :| 0 <= i < |a + b| && IsBlank((a + b)[i]) && ScanStateAfter((a + b)[..i]) == OUTSIDE;
      if i >= |a| {
        assert ScanStateAfter(b[..i - |a|]) == OUTSIDE && IsBlank(b[i - |a|]);
      } else {
        assert (a + b)[..i] == a[..i] && IsBlank(a[i]);
      }
    }
  }

  lemma {:induction false} BetweenStaysOutside(text: string)
    requires '"' !in text
    ensures ScanStateAfter(text) == OUTSIDE
    decreases |text|
  {
    if text != "" {
      BetweenStaysOutside(text[..|text| - 1]);
    }
  }

  /** From its first character on, the text is inside a string. */
  ghost predicate Inside(s: string) {
    s != "" && forall i | 0 < i <= |s| :: ScanStateAfter(s[..i]).inString
  }

  lemma InsideGrows(s: string, c: char)
    requires Inside(s) && ScanChar(ScanStateAfter(s), c).inString
    ensures Inside(s + [c]) && ScanStateAfter(s + [c]) == ScanChar(ScanStateAfter(s), c)
  {
    var more := s + [c];
    assert more[..|s|] == s;
    assert ScanStateAfter(more) == ScanChar(ScanStateAfter(s), c);
    hide ScanStateAfter;
    forall i | 0 < i <= |more| ensures ScanStateAfter(more[..i]).inString {
      if i <= |s| {
        assert more[..i] == s[..i];
      } else {
        assert more[..i] == more;
      }
    }
  }

  lemma QuoteOpens()
    ensures Inside("\"") && ScanStateAfter("\"") == ScanState(true, false)
  {
    assert "\""[..0] == "" && "\""[..1] == "\"";
  }

  lemma {:induction false} BodyStaysInside(body: seq<StringChar>)
    requires WellFormed(Quoted(body))
    ensures Inside("\"" + BodyText(body)) && ScanStateAfter("\"" + BodyText(body)) == ScanState(true, false)
    decreases |body|
  {
    hide ScanStateAfter, Inside;
    if body == [] {
      QuoteOpens();
      assert "\"" + BodyText(body) == "\"";
    } else {
      var init, last := body[..|body| - 1], body[|body| - 1];
      var before := "\"" + BodyText(init);
      BodyStaysInside(init);
      assert last in body;
      if last.Itself? {
        InsideGrows(before, last.c);
        assert "\"" + BodyText(body) == before + [last.c];
      } else {
        InsideGrows(before, '\\');
        InsideGrows(before + ['\\'], last.c);
        assert "\"" + BodyText(body) == before + ['\\'] + [last.c];
      }
    }
  }

  lemma PieceScan(p: Piece)
    requires WellFormed(p)
    ensures ScanStateAfter(PieceText(p)) == OUTSIDE
    ensures BlankOutsideStrings(PieceText(p)) <==> p.Between? && exists c | c in p.text :: IsBlank(c)
  {
    var text := PieceText(p);
    match p {
      case Between(text) =>
        BetweenStaysOutside(text);
        forall i | 0 <= i < |text| ensures ScanStateAfter(text[..i]) == OUTSIDE {
          BetweenStaysOutside(text[..i]);
        }
        hide ScanStateAfter;
        if exists c | c in text :: IsBlank(c) {
          var c :| c in text && IsBlank(c);
          var i :| 0 <= i < |text| && text[i] == c;
          assert ScanStateAfter(text[..i]) == OUTSIDE;
        }
      case Quoted(body) =>
        var inner := "\"" + BodyText(body);
        BodyStaysInside(body);
        assert text == inner + ['"'] && text[..|inner|] == inner;
        assert ScanStateAfter(text) == OUTSIDE;
        hide ScanStateAfter;
        forall i | 0 <= i < |text| ensures !(IsBlank(text[i]) && ScanStateAfter(text[..i]) == OUTSIDE) {
          if 0 < i {
            assert text[..i] == inner[..i];
          }
        }
    }
  }

  /** The scan finds a blank exactly in texts that have one between their string values,
    whatever the values hold, quotes and blanks among it. */
  lemma {:induction false} ScanFindsExactlyBlanksBetween(pieces: seq<Piece>)
    requires forall p | p in pieces :: WellFormed(p)
    ensures BlankOutsideStrings(PiecesText(pieces)) <==> BlankBetween(pieces)
    ensures ScanStateAfter(PiecesText(pieces)) == OUTSIDE
    decreases |pieces|
  {
    hide BlankOutsideStrings, BlankBetween, PieceText, WellFormed, ScanChar;
    if pieces == [] {
      NoPieces(pieces);
    } else {
      var init, last := pieces[..|pieces| - 1], pieces[|pieces| - 1];
      assert pieces == init + [last];
      ScanFindsExactlyBlanksBetween(init);
      PieceScan(last);
      BlankInEither(PiecesText(init), PieceText(last));
      ScanOnwards(PiecesText(init), PieceText(last));
      BlankBetweenStep(init, last);
    }
  }

  lemma NoPieces(pieces: seq<Piece>)
    requires pieces == []
    ensures !BlankOutsideStrings(PiecesText(pieces)) && !BlankBetween(pieces) && ScanStateAfter(PiecesText(pieces)) == OUTSIDE
  {
  }

  lemma BlankBetweenStep(init: seq<Piece>, last: Piece)
    ensures BlankBetween(init + [last]) <==> BlankBetween(init) || (last.Between? && exists c | c in last.text :: IsBlank(c))
  {
    assert forall c :: BlankChar(c) <==> IsBlank(c);
    hide IsBlank, BlankChar;
    var pieces := init + [last];
    assert forall p :: p in pieces <==> p in init || p == last;
  }

  predicate Compact(s: string) {
    forall i | 0 <= i < |s| :: ' ' < s[i] <= '~'
  }

  lemma CompactConcat(a: string, b: string)
    requires Compact(a) && Compact(b)
    ensures Compact(a + b)
  {
  }

  lemma HexIsCompact(s: string, n: nat)
    requires IsHex(s, n)
    ensures Compact(s)
  {
  }

  lemma ConditionsCompact(s: string)
    requires ValidateConditions(s)
    ensures Compact(s)
  {
    AcceptedIsPlain(s);
    hide ValidateConditions;
    forall i | 0 <= i < |s| ensures ' ' < s[i] <= '~' {
      assert s[i] in s && PlainChar(s[i]);
    }
  }

  lemma PunctuationCompact()
    ensures Compact(OPEN) && Compact(SIG) && Compact(TIME) && Compact(OA) && Compact(NEXT) && Compact(CLOSE) && Compact("}")
    ensures |OPEN| == 13 && |SIG| == 9 && |TIME| == 6 && |OA| == 8 && |NEXT| == 3 && |CLOSE| == 3
  {
  }

  lemma AttestationShape(oa: Option<Attestation>)
    requires oa.Some? ==> ValidAttestation(oa.value)
    ensures Compact(PrintAttestation(oa))
    ensures |PrintAttestation(oa)| == if oa.None? then 1 else 209 + |oa.value.conditions|
  {
    PunctuationCompact();
    hide OA, NEXT, CLOSE, Compact, ValidateConditions;
    if oa.Some? {
      var a := oa.value;
      HexIsCompact(a.owner, 64);
      HexIsCompact(a.signature, 128);
      ConditionsCompact(a.conditions);
      CompactConcat(a.signature, CLOSE);
      CompactConcat(NEXT, a.signature + CLOSE);
      CompactConcat(a.conditions, NEXT + (a.signature + CLOSE));
      CompactConcat(NEXT, a.conditions + (NEXT + (a.signature + CLOSE)));
      CompactConcat(a.owner, NEXT + (a.conditions + (NEXT + (a.signature + CLOSE))));
      CompactConcat(OA, a.owner + (NEXT + (a.conditions + (NEXT + (a.signature + CLOSE)))));
    }
  }

  /** The print of an envelope is compact ASCII, and at most 439 bytes longer than its
    conditions. */
  lemma EnvelopeShape(e: Envelope)
    requires Printable(e)
    ensures Compact(BuildEnvelope(e))
    ensures |BuildEnvelope(e)| <= if e.oa.None? then 231 else 439 + |e.oa.value.conditions|
  {
    PunctuationCompact();
    AttestationShape(e.oa);
    U32Length(e.t);
    HexIsCompact(e.pk, 64);
    HexIsCompact(e.sig, 128);
    assert Compact(Decimal(e.t)) by {
      assert forall i | 0 <= i < |Decimal(e.t)| :: IsDigit(Decimal(e.t)[i]);
    }
    hide OPEN, SIG, TIME, Compact, PrintAttestation, Decimal, ValidateConditions;
    var x := Decimal(e.t) + PrintAttestation(e.oa);
    CompactConcat(Decimal(e.t), PrintAttestation(e.oa));
    CompactConcat(TIME, x);
    CompactConcat(e.sig, TIME + x);
    CompactConcat(SIG, e.sig + (TIME + x));
    CompactConcat(e.pk, SIG + (e.sig + (TIME + x)));
    CompactConcat(OPEN, e.pk + (SIG + (e.sig + (TIME + x))));
  }

  // ---------------------------------------------------------------- armor

  const ARMOR_BEGIN := "-----BEGIN SIGNED MESSAGE-----"
  const ARMOR_END := "-----END SIGNED MESSAGE-----"

  function ArmorLine(line: string): string {
    ARMOR_BEGIN + ['\n'] + (line + ['\n'] + (ARMOR_END + ['\n']))
  }

  /** `armor`. */
  function Armor(json: string): string
    requires AreBytes(json)
  {
    ArmorLine(Encode(json))
  }

  predicate EndsBlank(line: string) {
    line != "" && (line[|line| - 1] == ' ' || line[|line| - 1] == '\t' || line[|line| - 1] == '\r')
  }

  /** `parse_armor`. */
  function ParseArmor(content: string): Result<string, string> {
    if content == "" || content[|content| - 1] != '\n' then Err("armor must end with a newline")
    else
      var lines := Split(content[..|content| - 1], '\n');
      if |lines| != 3 then Err("armor must have exactly 3 lines")
      else if lines[0] != ARMOR_BEGIN then Err("missing or malformed BEGIN marker")
      else if lines[2] != ARMOR_END then Err("missing or malformed END marker")
      else if exists i | 0 <= i < 3 :: EndsBlank(lines[i]) then Err("trailing whitespace")
      else Ok(lines[1])
  }

  lemma MarkersPlain()
    ensures '\n' !in ARMOR_BEGIN && '\n' !in ARMOR_END && !EndsBlank(ARMOR_BEGIN) && !EndsBlank(ARMOR_END)
    ensures |ARMOR_BEGIN| == 30 && |ARMOR_END| == 28
  {
  }

  /** The armor parser accepts exactly the armored lines without a line break or a
    blank at the end, and returns the line. */
  lemma ParsesExactlyArmor(content: string, line: string)
    ensures ParseArmor(content) == Ok(line) <==> (content == ArmorLine(line) && '\n' !in line && !EndsBlank(line))
  {
    MarkersPlain();
    hide ARMOR_BEGIN, ARMOR_END;
    if ParseArmor(content) == Ok(line) {
      var body := content[..|content| - 1];
      var lines := Split(body, '\n');
      SplitLoses(body, '\n');
      JoinThree(lines);
      assert content == body + ['\n'];
      assert content == ArmorLine(line);
    }
    if content == ArmorLine(line) && '\n' !in line && !EndsBlank(line) {
      var body := content[..|content| - 1];
      assert body == ARMOR_BEGIN + ['\n'] + (line + ['\n'] + ARMOR_END);
      SplitHead(ARMOR_BEGIN, '\n', line + ['\n'] + ARMOR_END);
      SplitHead(line, '\n', ARMOR_END);
      SplitOne(ARMOR_END, '\n');
      assert Split(body, '\n') == [ARMOR_BEGIN, line, ARMOR_END];
    }
  }

  lemma JoinThree(lines: seq<string>)
    requires |lines| == 3
    ensures Join(lines, '\n') == lines[0] + ['\n'] + (lines[1] + ['\n'] + lines[2])
  {
    assert lines[1..][1..] == [lines[2]];
    assert Join(lines[1..], '\n') == lines[1] + ['\n'] + Join([lines[2]], '\n');
  }

  // ---------------------------------------------------------------- signing preimage

  const DOMAIN_SEPARATOR := "nostr:git:v1:"

  /** The payload behind the attestation that is bound to it, if there is one. */
  function Bound(oa: Option<Attestation>, payload: string): string {
    if oa.None? then payload
    else oa.value.owner + ([':'] + (oa.value.conditions + ([':'] + (oa.value.signature + ([':'] + payload)))))
  }

  function Preimage(t: nat, oa: Option<Attestation>, payload: string): string {
    DOMAIN_SEPARATOR + (Decimal(t) + ([':'] + Bound(oa, payload)))
  }

  /** `compute_signing_hash`, fed piece by piece. */
  method ComputeSigningHash(t: nat, oa: Option<Attestation>, payload: string, hash: string -> string)
    returns (digest: string)
    ensures digest == hash(Preimage(t, oa, payload))
  {
    hide Decimal, DOMAIN_SEPARATOR;
    var engine := DOMAIN_SEPARATOR;
    engine := engine + Decimal(t);
    engine := engine + [':'];
    if oa.Some? {
      engine := engine + oa.value.owner;
      engine := engine + [':'];
      engine := engine + oa.value.conditions;
      engine := engine + [':'];
      engine := engine + oa.value.signature;
      engine := engine + [':'];
    }
    engine := engine + payload;
    assert engine == Preimage(t, oa, payload);
    digest := hash(engine);
  }

  lemma TimesAgree(t: nat, x: string, u: nat, y: string)
    requires DOMAIN_SEPARATOR + (Decimal(t) + ([':'] + x)) == DOMAIN_SEPARATOR + (Decimal(u) + ([':'] + y))
    ensures t == u && x == y
  {
    hide DOMAIN_SEPARATOR;
    FixedUnique(DOMAIN_SEPARATOR, Decimal(t) + ([':'] + x), DOMAIN_SEPARATOR, Decimal(u) + ([':'] + y));
    CutUnique(Decimal(t), [':'] + x, Decimal(u), [':'] + y, {':'});
    DecimalInjective(t, u);
    FixedUnique([':'], x, [':'], y);
  }

  lemma BoundDecodes(a: Attestation, p: string, b: Attestation, q: string)
    requires ValidAttestation(a) && ValidAttestation(b)
    requires Bound(Some(a), p) == Bound(Some(b), q)
    ensures a == b && p == q
  {
    AcceptedIsPlain(a.conditions);
    AcceptedIsPlain(b.conditions);
    hide ValidateConditions;
    var a3, b3 := [':'] + p, [':'] + q;
    var a2, b2 := [':'] + (a.signature + a3), [':'] + (b.signature + b3);
    var a1, b1 := [':'] + (a.conditions + a2), [':'] + (b.conditions + b2);
    FixedUnique(a.owner, a1, b.owner, b1);
    FixedUnique([':'], a.conditions + a2, [':'], b.conditions + b2);
    CutUnique(a.conditions, a2, b.conditions, b2, {':'});
    FixedUnique([':'], a.signature + a3, [':'], b.signature + b3);
    FixedUnique(a.signature, a3, b.signature, b3);
    FixedUnique([':'], p, [':'], q);
  }

  /** Among inputs that agree on the presence of an attestation, the preimage decides
    time, attestation and payload. */
  lemma PreimageDecodes(t: nat, a: Option<Attestation>, p: string, u: nat, b: Option<Attestation>, q: string)
    requires a.Some? == b.Some?
    requires a.Some? ==> ValidAttestation(a.value) && ValidAttestation(b.value)
    requires Preimage(t, a, p) == Preimage(u, b, q)
    ensures t == u && a == b && p == q
  {
    hide ValidateConditions, Decimal, DOMAIN_SEPARATOR;
    TimesAgree(t, Bound(a, p), u, Bound(b, q));
    if a.Some? {
      BoundDecodes(a.value, p, b.value, q);
    }
  }

  /** Across presence two preimages agree exactly when the payload signed without an
    attestation starts with the binding of the other's. */
  lemma PreimageAcrossPresence(t: nat, p: string, u: nat, b: Attestation, q: string)
    ensures Preimage(t, None, p) == Preimage(u, Some(b), q) <==> (t == u && p == Bound(Some(b), q))
  {
    hide Decimal, DOMAIN_SEPARATOR;
    if Preimage(t, None, p) == Preimage(u, Some(b), q) {
      TimesAgree(t, Bound(None, p), u, Bound(Some(b), q));
    }
  }

  /** So for a payload that does not start with a lowercase hex digit, as a git object
    does not, the preimage decides everything. */
  lemma PreimageDecodesGitObjects(t: nat, a: Option<Attestation>, p: string, u: nat, b: Option<Attestation>, q: string)
    requires a.Some? ==> ValidAttestation(a.value)
    requires b.Some? ==> ValidAttestation(b.value)
    requires p == "" || !IsHexDigit(p[0])
    requires q == "" || !IsHexDigit(q[0])
    ensures Preimage(t, a, p) == Preimage(u, b, q) <==> (t == u && a == b && p == q)
  {
    hide ValidateConditions, Preimage;
    if a.Some? && b.None? {
      PreimageAcrossPresence(u, q, t, a.value, p);
      assert Bound(a, p)[0] == a.value.owner[0] && IsHexDigit(a.value.owner[0]);
    } else if a.None? && b.Some? {
      PreimageAcrossPresence(t, p, u, b.value, q);
      assert Bound(b, q)[0] == b.value.owner[0] && IsHexDigit(b.value.owner[0]);
    } else if Preimage(t, a, p) == Preimage(u, b, q) {
      PreimageDecodes(t, a, p, u, b, q);
    }
  }
}
