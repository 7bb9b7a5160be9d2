/** What signing and verifying mean, told by the texts themselves: the bytes an owner
  signs, the bytes a signer signs, the JSON text of an envelope and the file around it
  are written out here, and the two programs are proved to accept exactly those. */
module GitSignatureLaws {
  import opened Wrappers
  import opened JsonValues
  import opened Decimals
  import opened Texts
  import opened Conditions
  import opened Base64
  import opened Utf8
  import opened Envelopes
  import opened GitSignatures

  // ---------------------------------------------------------------- conditions, read as text

  predicate KindClause(text: string, n: nat) {
    n <= 65535 && text == "kind=" + Decimal(n)
  }

  predicate BeforeClause(text: string, n: nat) {
    n <= 4_294_967_295 && text == "created_at<" + Decimal(n)
  }

  predicate AfterClause(text: string, n: nat) {
    n <= 4_294_967_295 && text == "created_at>" + Decimal(n)
  }

  /** The text is a clause, and time `t` is within it: a kind clause bounds no time. */
  ghost predicate Allows(text: string, t: nat) {
    || (exists n: nat :: KindClause(text, n))
    || (exists n: nat :: BeforeClause(text, n) && t < n)
    || (exists n: nat :: AfterClause(text, n) && t > n)
  }

  /** The clauses stand between ampersands; no text at all is no clause at all. */
  ghost predicate Permits(conditions: string, t: nat) {
    conditions == "" || forall i | 0 <= i < |Split(conditions, '&')| :: Allows(Split(conditions, '&')[i], t)
  }

  lemma ClauseSpelled(text: string, t: nat)
    requires ClauseAccepted(text)
    ensures Allows(text, t) <==> Violation(text, t).None?
  {
    AcceptedIsPrint(text);
    ViolationOfClause(text, t);
    var c := ClauseOf(text);
    hide ClauseAccepted, ClauseOf, Violation, Decimal;
    match c
    case Kind(n) =>
      assert KindClause(text, n);
    case Before(n) =>
      assert BeforeClause(text, n);
      forall m: nat | KindClause(text, m) || BeforeClause(text, m) || AfterClause(text, m) ensures BeforeClause(text, m) && m == n {
        ClauseIsOne(text, m, c);
      }
    case After(n) =>
      assert AfterClause(text, n);
      forall m: nat | KindClause(text, m) || BeforeClause(text, m) || AfterClause(text, m) ensures AfterClause(text, m) && m == n {
        ClauseIsOne(text, m, c);
      }
  }

  lemma ClauseIsOne(text: string, m: nat, c: Clause)
    requires text == PrintClause(c)
    ensures KindClause(text, m) ==> c == Kind(m)
    ensures BeforeClause(text, m) ==> c == Before(m)
    ensures AfterClause(text, m) ==> c == After(m)
  {
    if KindClause(text, m) {
      PrintClauseInjective(c, Kind(m));
    }
    if BeforeClause(text, m) {
      PrintClauseInjective(c, Before(m));
    }
    if AfterClause(text, m) {
      PrintClauseInjective(c, After(m));
    }
  }

  lemma {:induction false} NoneViolated(texts: seq<string>, t: nat)
    requires forall i | 0 <= i < |texts| :: ClauseAccepted(texts[i])
    ensures FirstViolation(texts, t).None? <==> forall i | 0 <= i < |texts| :: Allows(texts[i], t)
  {
    hide ClauseAccepted, Violation, Allows;
    if texts != [] {
      ClauseSpelled(texts[0], t);
      NoneViolated(texts[1..], t);
      assert forall i | 0 < i < |texts| :: texts[i] == texts[1..][i - 1];
    }
  }

  /** Enforcement succeeds exactly on the times the clauses permit, as they read. */
  lemma EnforcementSpelled(conditions: string, t: nat)
    requires ValidateConditions(conditions)
    ensures EnforceConditions(conditions, t).Ok? <==> Permits(conditions, t)
  {
    if conditions != "" {
      NoneViolated(Split(conditions, '&'), t);
    }
  }

  // ---------------------------------------------------------------- the envelope as JSON text

  function Quote(text: string): string {
    "\"" + text + "\""
  }

  function Quotes(items: seq<Json>): seq<string>
    requires forall i | 0 <= i < |items| :: items[i].Str?
  {
    seq(|items|, i requires 0 <= i < |items| => Quote(items[i].s))
  }

  /** The values an envelope has: natural numbers, texts without anything to escape, and lists
    of such texts. */
  predicate Simple(j: Json) {
    j.Str? || (j.Int? && j.n >= 0) || (j.Arr? && forall i | 0 <= i < |j.items| :: j.items[i].Str?)
  }

  function ValueText(j: Json): string
    requires Simple(j)
  {
    match j
    case Str(s) => Quote(s)
    case Int(n) => Decimal(n)
    case Arr(items) => "[" + Join(Quotes(items), ',') + "]"
  }

  function Member(key: string, value: string): string {
    Quote(key) + ":" + value
  }

  /** The fields of an envelope, in their order: `oa` is there only with an attestation. */
  function Fields(e: Envelope): (fields: seq<(string, Json)>)
    ensures forall i | 0 <= i < |fields| :: Simple(fields[i].1)
  {
    [("v", Int(1)), ("pk", Str(e.pk)), ("sig", Str(e.sig)), ("t", Int(e.t))]
    + if e.oa.None? then []
      else [("oa", Arr([Str(e.oa.value.owner), Str(e.oa.value.conditions), Str(e.oa.value.signature)]))]
  }

  function Members(e: Envelope): seq<string> {
    var fields := Fields(e);
    seq(|fields|, i requires 0 <= i < |fields| => Member(fields[i].0, ValueText(fields[i].1)))
  }

  function JsonText(e: Envelope): string {
    "{" + Join(Members(e), ',') + "}"
  }

  lemma MembersAre(e: Envelope)
    ensures Members(e)
         == [Member("v", "1"), Member("pk", Quote(e.pk)), Member("sig", Quote(e.sig)), Member("t", Decimal(e.t))]
            + if e.oa.None? then []
              else [Member("oa", "[" + Join([Quote(e.oa.value.owner), Quote(e.oa.value.conditions), Quote(e.oa.value.signature)], ',') + "]")]
  {
    assert Decimal(1) == "1";
    if e.oa.Some? {
      var a := e.oa.value;
      assert Quotes([Str(a.owner), Str(a.conditions), Str(a.signature)]) == [Quote(a.owner), Quote(a.conditions), Quote(a.signature)];
    }
    hide Join, Quote, Decimal;
  }

  /** The value that an envelope's text stands for, which is what its parser accepts, has
    exactly these fields. */
  lemma JsonHasFields(e: Envelope, key: string, value: Json)
    ensures EnvelopeJson(e).Obj? && (EnvelopeJson(e).Get(key) == Some(value) <==> (key, value) in Fields(e))
  {
    var fields := Fields(e);
    assert fields[0] == ("v", Int(1)) && fields[1] == ("pk", Str(e.pk)) && fields[2] == ("sig", Str(e.sig)) && fields[3] == ("t", Int(e.t));
    if e.oa.Some? {
      assert fields[4] == ("oa", Arr([Str(e.oa.value.owner), Str(e.oa.value.conditions), Str(e.oa.value.signature)]));
    }
  }

  lemma JoinMany(parts: seq<string>)
    requires |parts| == 3
    ensures Join(parts, ',') == parts[0] + [','] + (parts[1] + [','] + parts[2])
  {
    assert parts[1..][1..] == [parts[2]];
    assert Join(parts[1..], ',') == parts[1] + [','] + Join([parts[2]], ',');
  }

  /** One more member, or one more element, in front of a text that ends in `tail`. */
  lemma InFront(x: string, rest: string, tail: string, lead: string, y: string)
    requires rest + tail == lead + y
    ensures (Quote(x) + [','] + rest) + tail == "\"" + (x + (("\"," + lead) + y))
  {
    assert (Quote(x) + [','] + rest) + tail == Quote(x) + [','] + (rest + tail);
    assert Quote(x) + [','] == "\"" + (x + "\",");
    assert ("\"," + lead) + y == "\"," + (lead + y);
    assert ("\"" + (x + "\",")) + (lead + y) == "\"" + (x + ("\"," + (lead + y)));
  }

  lemma MemberInFront(key: string, x: string, rest: string, tail: string, lead: string, y: string)
    requires rest + tail == lead + y
    ensures (Member(key, Quote(x)) + [','] + rest) + tail == (Quote(key) + ":" + "\"") + (x + (("\"," + lead) + y))
  {
    InFront(x, rest, tail, lead, y);
    var inner := Quote(x) + [','] + rest;
    var k := Quote(key) + ":";
    assert (k + Quote(x)) + [','] + rest == k + inner;
    assert (k + inner) + tail == k + (inner + tail);
    assert k + ("\"" + (x + (("\"," + lead) + y))) == (k + "\"") + (x + (("\"," + lead) + y));
  }

  lemma ArrayEnds(x: string)
    ensures Quote(x) + "]}" == "\"" + (x + CLOSE)
  {
  }

  lemma ArrayText(a: Attestation)
    ensures Join([Quote(a.owner), Quote(a.conditions), Quote(a.signature)], ',') + "]}"
         == "\"" + (a.owner + (NEXT + (a.conditions + (NEXT + (a.signature + CLOSE)))))
  {
    JoinMany([Quote(a.owner), Quote(a.conditions), Quote(a.signature)]);
    ArrayEnds(a.signature);
    assert NEXT == "\"," + "\"";
    hide Join, Quote, NEXT, CLOSE;
    var y := a.signature + CLOSE;
    InFront(a.conditions, Quote(a.signature), "]}", "\"", y);
    InFront(a.owner, Quote(a.conditions) + [','] + Quote(a.signature), "]}", "\"", a.conditions + (NEXT + y));
  }

  lemma AttestationIsArray(a: Attestation)
    ensures PrintAttestation(Some(a))
         == [','] + (Member("oa", "[" + Join([Quote(a.owner), Quote(a.conditions), Quote(a.signature)], ',') + "]") + "}")
  {
    ArrayText(a);
    var j := Join([Quote(a.owner), Quote(a.conditions), Quote(a.signature)], ',');
    var y := a.owner + (NEXT + (a.conditions + (NEXT + (a.signature + CLOSE))));
    assert OA == "," + (Quote("oa") + ":" + "[") + "\"";
    var k := Quote("oa") + ":";
    hide Join, Quote, OA, NEXT, CLOSE;
    Bracketed(k, j, y);
  }

  lemma Bracketed(k: string, j: string, y: string)
    requires j + "]}" == "\"" + y
    ensures ("," + (k + "[") + "\"") + y == [','] + ((k + ("[" + j + "]")) + "}")
  {
    assert (k + ("[" + j + "]")) + "}" == (k + "[") + (j + "]}");
    assert ("," + (k + "[") + "\"") + y == "," + ((k + "[") + ("\"" + y));
  }

  lemma LastMembers(e: Envelope)
    ensures Join(Members(e)[3..], ',') + "}" == (Quote("t") + ":") + (Decimal(e.t) + PrintAttestation(e.oa))
  {
    MembersAre(e);
    var last := Members(e)[3..];
    var k := Quote("t") + ":";
    hide Quote, Decimal, PrintAttestation, Members;
    assert last[0] == k + Decimal(e.t);
    if e.oa.None? {
      assert last == [last[0]];
      AttestationStart(e.oa);
      NoAttestation();
      Trailing(k, Decimal(e.t), "}");
    } else {
      AttestationIsArray(e.oa.value);
      hide Member;
      assert last == [last[0], Members(e)[4]] && last[1..] == [Members(e)[4]];
      assert Join(last, ',') == last[0] + [','] + Members(e)[4];
      hide Join;
      OneMore(k, Decimal(e.t), Members(e)[4], PrintAttestation(e.oa));
    }
  }

  lemma OneMore(k: string, number: string, member: string, rest: string)
    requires rest == [','] + (member + "}")
    ensures ((k + number) + [','] + member) + "}" == k + (number + rest)
  {
    Trailing((k + number) + [','], member, "}");
    Trailing(k + number, [','], member + "}");
    Trailing(k, number, rest);
  }

  lemma NoAttestation()
    ensures PrintAttestation(None) == "}"
  {
  }

  lemma Trailing(a: string, b: string, c: string)
    ensures (a + b) + c == a + (b + c)
  {
  }

  lemma JoinStep(parts: seq<string>)
    requires |parts| > 3
    ensures Join(parts, ',') == parts[0] + [','] + (parts[1] + [','] + (parts[2] + [','] + Join(parts[3..], ',')))
  {
    var a, b := parts[1..], parts[2..];
    assert a[1..] == b && b[1..] == parts[3..];
    assert Join(b, ',') == b[0] + [','] + Join(b[1..], ',');
    assert Join(a, ',') == a[0] + [','] + Join(b, ',');
  }

  /** The print of an envelope is the JSON text without blanks of the object with these
    members in this order. */
  lemma PrintIsJson(e: Envelope)
    ensures BuildEnvelope(e) == JsonText(e)
  {
    MembersAre(e);
    JoinStep(Members(e));
    LastMembers(e);
    assert OPEN == "{" + (Quote("v") + ":" + "1" + [',']) + (Quote("pk") + ":" + "\"");
    assert SIG == "\"," + (Quote("sig") + ":" + "\"");
    assert TIME == "\"," + (Quote("t") + ":");
    hide Join, Decimal, Quote, OPEN, SIG, TIME, PrintAttestation, Members;
    var ms := Members(e);
    var r := Join(ms[3..], ',');
    var y := Decimal(e.t) + PrintAttestation(e.oa);
    MemberInFront("sig", e.sig, r, "}", Quote("t") + ":", y);
    MemberInFront("pk", e.pk, ms[2] + [','] + r, "}", Quote("sig") + ":" + "\"", e.sig + (TIME + y));
    FirstMember(Quote("v") + ":" + "1", ms[1] + [','] + (ms[2] + [','] + r), Quote("pk") + ":" + "\"", e.pk + (SIG + (e.sig + (TIME + y))));
  }

  lemma FirstMember(m: string, rest: string, lead: string, y: string)
    requires rest + "}" == lead + y
    ensures ("{" + (m + [',']) + lead) + y == "{" + (m + [','] + rest) + "}"
  {
    assert "{" + (m + [','] + rest) + "}" == ("{" + (m + [','])) + (rest + "}");
    assert ("{" + (m + [',']) + lead) + y == ("{" + (m + [','])) + (lead + y);
  }

  /** Lowercase hexadecimal digits, so many of them. */
  predicate LowerHexText(s: string, n: nat) {
    |s| == n && forall i | 0 <= i < |s| :: '0' <= s[i] <= '9' || 'a' <= s[i] <= 'f'
  }

  /** The conditions read as clauses: there are none, or each is one with a number in range. */
  ghost predicate Clauses(conditions: string) {
    conditions == "" || forall i | 0 <= i < |Split(conditions, '&')| :: IsClause(Split(conditions, '&')[i])
  }

  ghost predicate IsClause(text: string) {
    exists n: nat :: KindClause(text, n) || BeforeClause(text, n) || AfterClause(text, n)
  }

  lemma ClauseIsSpelled(text: string)
    ensures ClauseAccepted(text) <==> IsClause(text)
  {
    hide ClauseAccepted, ClauseOf, Decimal;
    if ClauseAccepted(text) {
      AcceptedIsPrint(text);
      var n := ClauseOf(text).n;
      assert KindClause(text, n) || BeforeClause(text, n) || AfterClause(text, n);
    }
    if IsClause(text) {
      var n: nat :| KindClause(text, n) || BeforeClause(text, n) || AfterClause(text, n);
      var c := if KindClause(text, n) then Kind(n) else if BeforeClause(text, n) then Before(n) else After(n);
      AcceptsExactlyPrints(text, c);
    }
  }

  /** What makes an envelope valid. */
  lemma ValidMeans(e: Envelope, isKey: string -> bool)
    ensures ValidEnvelope(e, isKey) <==>
            && LowerHexText(e.pk, 64) && LowerHexText(e.sig, 128) && e.t <= 4_294_967_295
            && (e.oa.Some? ==>
                  var a := e.oa.value;
                  && LowerHexText(a.owner, 64) && LowerHexText(a.signature, 128) && Clauses(a.conditions)
                  && isKey(a.owner) && a.owner != e.pk)
  {
    if e.oa.Some? {
      var texts := Split(e.oa.value.conditions, '&');
      forall i | 0 <= i < |texts| ensures ClauseAccepted(texts[i]) <==> IsClause(texts[i]) {
        ClauseIsSpelled(texts[i]);
      }
    }
    hide ClauseAccepted, IsClause, Split;
  }

  // ---------------------------------------------------------------- the file

  /** The signature file of an envelope. */
  function FileText(line: string): string {
    "-----BEGIN SIGNED MESSAGE-----\n" + line + "\n-----END SIGNED MESSAGE-----\n"
  }

  /** The file holds the envelope and keeps the limits. */
  ghost predicate Holds(w: World, content: string, e: Envelope) {
    && ValidEnvelope(e, w.isKey) && w.isKey(e.pk) && AreBytes(JsonText(e))
    && content == FileText(Encode(JsonText(e)))
    && |content| <= 8192 && |Encode(JsonText(e))| <= 4096 && |JsonText(e)| <= 2048
  }

  lemma BeginLine()
    ensures ARMOR_BEGIN + ['\n'] == "-----BEGIN SIGNED MESSAGE-----\n"
  {
  }

  lemma EndLine()
    ensures ['\n'] + (ARMOR_END + ['\n']) == "\n-----END SIGNED MESSAGE-----\n"
  {
  }

  lemma FileIsArmor(line: string)
    ensures FileText(line) == ArmorLine(line)
  {
    BeginLine();
    EndLine();
    hide ARMOR_BEGIN, ARMOR_END;
    var lead, tail := ARMOR_BEGIN + ['\n'], ['\n'] + (ARMOR_END + ['\n']);
    assert FileText(line) == lead + line + tail;
    hide FileText;
    Sandwiched(lead, line, ['\n'], ARMOR_END + ['\n']);
  }

  lemma Sandwiched(a: string, b: string, c: string, d: string)
    ensures a + b + (c + d) == a + (b + c + d)
  {
  }

  /** The parser may not go wrong on the print of an envelope; nothing else is asked. */
  ghost predicate ReadsPrints(w: World) {
    forall e: Envelope | ValidEnvelope(e, w.isKey) :: w.parseJson(BuildEnvelope(e)) == Some(EnvelopeJson(e))
  }

  /** Compact text that keeps the limits is read back out of its file. */
  lemma FileUnwraps(json: string)
    requires Compact(json) && AreBytes(json) && |FileText(Encode(json))| <= 8192 && |Encode(json)| <= 4096 && |json| <= 2048
    ensures Unwrap(FileText(Encode(json))) == Ok(json)
  {
    EncodingShape(json);
    DecodeOfEncode(json);
    var line := Encode(json);
    FileIsArmor(line);
    hide Encode, Decode, ParseArmor, ValidUtf8, FileText;
    VisibleLine(line);
    ParsesExactlyArmor(FileText(line), line);
    hide ArmorLine, Compact;
    CompactIsUtf8(json);
    ArmorIsAscii(line);
    AsciiIsUtf8(FileText(line));
  }

  lemma HeldUnwraps(w: World, content: string, e: Envelope)
    requires Holds(w, content, e)
    ensures Unwrap(content) == Ok(BuildEnvelope(e)) && !BlankOutsideStrings(BuildEnvelope(e))
  {
    hide JsonText, BuildEnvelope, BlankOutsideStrings, FileText, Encode, ValidateConditions, Unwrap;
    PrintIsJson(e);
    EnvelopeShape(e);
    NoBlanks(BuildEnvelope(e));
    FileUnwraps(BuildEnvelope(e));
  }

  /** The bytes a signature covers. */
  function SignedText(e: Envelope, payload: string): string {
    "nostr:git:v1:" + Decimal(e.t) + ":"
    + (if e.oa.None? then "" else e.oa.value.owner + ":" + e.oa.value.conditions + ":" + e.oa.value.signature + ":")
    + payload
  }

  lemma SignedIsPreimage(e: Envelope, payload: string)
    ensures Preimage(e.t, e.oa, payload) == SignedText(e, payload)
  {
    hide Decimal;
    assert SignedText(e, payload)
        == "nostr:git:v1:" + (Decimal(e.t) + ([':']
           + ((if e.oa.None? then "" else e.oa.value.owner + ":" + e.oa.value.conditions + ":" + e.oa.value.signature + ":") + payload)));
    if e.oa.Some? {
      var a := e.oa.value;
      assert (a.owner + ":" + a.conditions + ":" + a.signature + ":") + payload == Bound(e.oa, payload);
    } else {
      assert "" + payload == payload;
    }
  }

  /** The owner's own signature over the delegate's key and the conditions. */
  predicate OwnerSigned(w: World, pk: string, a: Attestation) {
    w.verifies(a.owner, w.hash("nostr:agent-auth:" + pk + ":" + a.conditions), a.signature)
  }

  ghost function StatusOf(w: World, e: Envelope): OaStatus {
    if e.oa.None? then Absent
    else if !OwnerSigned(w, e.pk, e.oa.value) then InvalidSignature
    else if Permits(e.oa.value.conditions, e.t) then Valid
    else ConditionsViolated
  }

  lemma StatusSpelled(w: World, e: Envelope)
    requires ValidEnvelope(e, w.isKey)
    ensures AttestationStatus(w, e) == StatusOf(w, e)
  {
    hide Permits, EnforceConditions, ValidateConditions;
    if e.oa.Some? {
      EnforcementSpelled(e.oa.value.conditions, e.t);
    }
  }

  /** On a file that holds an envelope the verdict is exactly this. */
  lemma VerifiesExactly(w: World, content: string, payload: string, e: Envelope)
    requires ReadsPrints(w) && Holds(w, content, e)
    ensures Verify(w, content, payload)
         == if |payload| > 104_857_600 then Err(ErrSig("payload exceeds limit"))
            else if w.verifies(e.pk, w.hash(SignedText(e, payload)), e.sig) then Ok(Verified(e.pk, e.t, StatusOf(w, e)))
            else Err(BadSig(e.pk))
  {
    hide ValidateConditions, BuildEnvelope, Preimage, SignedText, AttestationStatus, Unwrap, BlankOutsideStrings, JsonText,
      FileText, Encode, StatusOf;
    HeldUnwraps(w, content, e);
    StatusSpelled(w, e);
    SignedIsPreimage(e, payload);
    ParseOfEnvelopeJson(e, w.isKey);
    hide ParseEnvelope, EnvelopeJson;
    assert OpenEnvelope(BuildEnvelope(e), w.parseJson, w.isKey) == Ok(e);
  }

  /** On any other file there is no verdict on a signature, whatever the JSON parser
    does: a file that is accepted, or whose signature is called bad, holds an envelope
    whose signature covers time, attestation and payload, or does not. */
  lemma VerdictNeedsEnvelope(w: World, content: string, payload: string) returns (e: Envelope)
    requires var v := Verify(w, content, payload); v.Ok? || v.error.BadSig?
    ensures Holds(w, content, e) && |payload| <= 104_857_600
    ensures Verify(w, content, payload)
         == if w.verifies(e.pk, w.hash(SignedText(e, payload)), e.sig) then Ok(Verified(e.pk, e.t, StatusOf(w, e)))
            else Err(BadSig(e.pk))
  {
    hide BuildEnvelope, Preimage, ParseEnvelope, ParseArmor, Decode, Encode, ValidateConditions, EnforceConditions,
      BlankOutsideStrings, ValidUtf8, AttestationStatus, JsonText, FileText, SignedText, StatusOf;
    var text := Unwrap(content).value;
    e := OpenEnvelope(text, w.parseJson, w.isKey).value;
    OpensOnlyItsPrint(text, w.parseJson, w.isKey, e);
    ParsesExactlyArmor(content, ParseArmor(content).value);
    DecodesExactlyEncodings(ParseArmor(content).value, text);
    PrintIsJson(e);
    FileIsArmor(ParseArmor(content).value);
    SignedIsPreimage(e, payload);
    StatusSpelled(w, e);
  }

  lemma UnwrapFatal(content: string)
    ensures (Unwrap(content).Err? && Unwrap(content).error.Fatal?) <==> (|content| > 8192 || !ValidUtf8(content))
  {
    hide ParseArmor, Decode, ValidUtf8;
  }

  /** The verdict is fatal exactly on a file that is too long or no text. */
  lemma FatalExactly(w: World, content: string, payload: string)
    ensures var v := Verify(w, content, payload);
            (v.Err? && v.error.Fatal?) <==> (|content| > 8192 || !ValidUtf8(content))
  {
    UnwrapFatal(content);
    hide Unwrap, BuildEnvelope, Preimage, OpenEnvelope, BlankOutsideStrings, ValidUtf8, AttestationStatus;
  }

  /** What an accepted signature file is, whatever the JSON parser does: the file of one
    valid envelope whose signature covers time, attestation and payload; and the
    attestation is reported valid exactly when its owner signed this delegate's key with
    these conditions and the conditions permit the time. */
  lemma VerifiedMeans(w: World, content: string, payload: string) returns (e: Envelope)
    requires Verify(w, content, payload).Ok?
    ensures Holds(w, content, e)
    ensures w.verifies(e.pk, w.hash(SignedText(e, payload)), e.sig)
    ensures var v := Verify(w, content, payload).value;
            && v.pk == e.pk && v.t == e.t
            && (v.oa.Absent? <==> e.oa.None?)
            && (e.oa.Some? ==>
                  var a := e.oa.value;
                  var signed := w.verifies(a.owner, w.hash("nostr:agent-auth:" + e.pk + ":" + a.conditions), a.signature);
                  && (v.oa.InvalidSignature? <==> !signed)
                  && (v.oa.Valid? <==> signed && Permits(a.conditions, e.t))
                  && (v.oa.ConditionsViolated? <==> signed && !Permits(a.conditions, e.t)))
  {
    hide Verify, Holds, Permits, SignedText;
    e := VerdictNeedsEnvelope(w, content, payload);
  }

  lemma HeldIsOne(w: World, content: string, e: Envelope, f: Envelope)
    requires Holds(w, content, e) && Holds(w, content, f)
    ensures e == f
  {
    hide JsonText, FileText, Encode, BuildEnvelope, ValidateConditions, ArmorLine;
    PrintIsJson(e);
    PrintIsJson(f);
    FileIsArmor(Encode(JsonText(e)));
    FileIsArmor(Encode(JsonText(f)));
    ArmorInjective(BuildEnvelope(e), BuildEnvelope(f));
    BuildEnvelopeInjective(e, f);
  }

  /** A signature file accepted for two payloads shows its envelope's signature to verify on
    the digests of two different texts: either the hash collides on them, or one
    signature covers two digests. */
  lemma SignatureBindsPayload(w: World, content: string, p: string, q: string) returns (e: Envelope)
    requires Verify(w, content, p).Ok? && Verify(w, content, q).Ok? && p != q
    ensures Holds(w, content, e)
    ensures SignedText(e, p) != SignedText(e, q)
    ensures w.verifies(e.pk, w.hash(SignedText(e, p)), e.sig)
    ensures w.verifies(e.pk, w.hash(SignedText(e, q)), e.sig)
  {
    hide Verify, Holds, SignedText, Preimage, ValidateConditions, Permits;
    e := VerifiedMeans(w, content, p);
    var f := VerifiedMeans(w, content, q);
    HeldIsOne(w, content, e, f);
    SignedIsPreimage(e, p);
    SignedIsPreimage(e, q);
    if Preimage(e.t, e.oa, p) == Preimage(e.t, e.oa, q) {
      HeldIsValid(w, content, e);
      PreimageDecodes(e.t, e.oa, p, e.t, e.oa, q);
    }
  }

  lemma HeldIsValid(w: World, content: string, e: Envelope)
    requires Holds(w, content, e)
    ensures ValidEnvelope(e, w.isKey)
  {
    hide ValidEnvelope, JsonText, FileText, Encode;
  }

  // ---------------------------------------------------------------- what an owner's signature binds

  /** Keys have one length, so the signed bytes tell delegate and conditions apart. */
  lemma OwnerTextDecodes(pk: string, c: string, pk': string, c': string)
    requires |pk| == |pk'| == 64
    requires "nostr:agent-auth:" + pk + ":" + c == "nostr:agent-auth:" + pk' + ":" + c'
    ensures pk == pk' && c == c'
  {
    var lead := "nostr:agent-auth:";
    assert lead + pk + ":" + c == lead + (pk + (":" + c));
    assert lead + pk' + ":" + c' == lead + (pk' + (":" + c'));
    FixedUnique(lead, pk + (":" + c), lead, pk' + (":" + c'));
    FixedUnique(pk, ":" + c, pk', ":" + c');
    FixedUnique(":", c, ":", c');
  }

  /** One signature of one owner, accepted in two files for two delegates or for two
    conditions, shows two different texts it verifies on: the hash collides on them, or
    one signature covers two digests. */
  lemma AttestationBinds(w: World, file: string, p: string, file': string, p': string) returns (e: Envelope, e': Envelope)
    requires Verify(w, file, p).Ok? && Verify(w, file, p).value.oa in {Valid, ConditionsViolated}
    requires Verify(w, file', p').Ok? && Verify(w, file', p').value.oa in {Valid, ConditionsViolated}
    ensures Holds(w, file, e) && e.oa.Some? && Holds(w, file', e') && e'.oa.Some?
    ensures var a, b := e.oa.value, e'.oa.value;
            (a.owner == b.owner && a.signature == b.signature && (e.pk != e'.pk || a.conditions != b.conditions)) ==>
              var s, u := "nostr:agent-auth:" + e.pk + ":" + a.conditions, "nostr:agent-auth:" + e'.pk + ":" + b.conditions;
              && s != u
              && w.verifies(a.owner, w.hash(s), a.signature)
              && w.verifies(a.owner, w.hash(u), a.signature)
  {
    hide Verify, Permits, ValidateConditions, JsonText, FileText, Encode;
    e := VerifiedMeans(w, file, p);
    e' := VerifiedMeans(w, file', p');
    var a, b := e.oa.value, e'.oa.value;
    if "nostr:agent-auth:" + e.pk + ":" + a.conditions == "nostr:agent-auth:" + e'.pk + ":" + b.conditions {
      OwnerTextDecodes(e.pk, a.conditions, e'.pk, b.conditions);
    }
  }

  // ---------------------------------------------------------------- signing

  /** The argument names the key: in either spelling, the hexadecimal one in either case. */
  predicate Names(w: World, id: string, pk: string) {
    if "npub1" <= id then w.npub(id) == Some(pk)
    else |id| == |pk| && forall i | 0 <= i < |pk| :: id[i] == pk[i] || ('a' <= pk[i] <= 'f' && id[i] as int + 32 == pk[i] as int)
  }

  lemma NormalizedIs(w: World, id: string, pk: string)
    requires IsHex(pk, 64)
    ensures NormalizeKeyId(w, id) == Some(pk) <==> Names(w, id, pk)
  {
    if !("npub1" <= id) && |id| == 64 {
      if Names(w, id, pk) {
        assert LowerHex(id) == pk;
      }
      if LowerHex(id) == pk {
        forall i | 0 <= i < |pk| ensures id[i] == pk[i] || ('a' <= pk[i] <= 'f' && id[i] as int + 32 == pk[i] as int) {
          assert LowerHex(id)[i] == pk[i];
        }
      }
    }
  }

  /** The configured tag is this attestation. */
  predicate TagHolds(w: World, raw: string, a: Attestation) {
    && |raw| <= 1024
    && w.parseJson(raw) == Some(Arr([Str("auth"), Str(a.owner), Str(a.conditions), Str(a.signature)]))
    && ValidAttestation(a)
  }

  lemma TagLoads(w: World, raw: string, a: Attestation)
    ensures ReadAuthTag(w, raw) == Ok(a) <==> TagHolds(w, raw, a)
  {
    hide ValidAttestation;
    if w.parseJson(raw).Some? && w.parseJson(raw).value.Arr? && |w.parseJson(raw).value.items| == 4 {
      var items := w.parseJson(raw).value.items;
      assert items == [items[0], items[1], items[2], items[3]];
    }
  }

  /** The attestation, if any, is the configured one, names another valid key, carries
    that owner's signature for this delegate, and permits the time. */
  ghost predicate MayEmbed(w: World, pk: string, t: nat, authTag: Option<string>, oa: Option<Attestation>) {
    && oa.Some? == authTag.Some?
    && (oa.Some? ==>
          && TagHolds(w, authTag.value, oa.value)
          && w.isKey(oa.value.owner) && oa.value.owner != pk
          && OwnerSigned(w, pk, oa.value) && Permits(oa.value.conditions, t))
  }

  lemma EmbedsExactly(w: World, pk: string, t: nat, authTag: Option<string>, oa: Option<Attestation>)
    ensures (LoadAuthTag(w, authTag) == Ok(oa) && AttestationFault(w, pk, t, oa).None?) <==> MayEmbed(w, pk, t, authTag, oa)
  {
    hide ReadAuthTag, TagHolds, Permits, EnforceConditions, ValidateConditions;
    if authTag.Some? && oa.Some? {
      TagLoads(w, authTag.value, oa.value);
      if TagHolds(w, authTag.value, oa.value) {
        TagIsValid(w, authTag.value, oa.value);
        EnforcementSpelled(oa.value.conditions, t);
      }
    }
  }

  lemma TagIsValid(w: World, raw: string, a: Attestation)
    requires TagHolds(w, raw, a)
    ensures ValidateConditions(a.conditions)
  {
    hide ValidateConditions;
  }

  /** The envelope that signing this payload at this time with this attestation gives. */
  function SignedBy(w: World, secret: string, payload: string, t: nat, oa: Option<Attestation>): Envelope {
    var pk := w.publicKey(secret);
    Envelope(pk, w.sign(secret, w.hash(SignedText(Envelope(pk, "", t, oa), payload))), t, oa)
  }

  ghost predicate MaySign(w: World, secretText: string, keyId: Option<string>, payload: string, clock: nat,
                          authTag: Option<string>, oa: Option<Attestation>) {
    w.parseSecret(secretText).Some? &&
    var pk := w.publicKey(w.parseSecret(secretText).value);
    && (keyId.Some? ==> Names(w, keyId.value, pk))
    && |payload| <= 104_857_600 && clock <= 4_294_967_295
    && MayEmbed(w, pk, clock, authTag, oa)
  }

  /** Signing succeeds exactly when key, key argument, payload, clock and attestation
    are in order, and what it emits is then the file of exactly this envelope. */
  lemma SignsExactly(w: World, secretText: string, keyId: Option<string>, payload: string, clock: nat, authTag: Option<string>,
                     oa: Option<Attestation>)
    ensures (Sign(w, secretText, keyId, payload, clock, authTag).Ok?
             && Sign(w, secretText, keyId, payload, clock, authTag).value.oa == oa)
       <==> MaySign(w, secretText, keyId, payload, clock, authTag, oa)
    ensures MaySign(w, secretText, keyId, payload, clock, authTag, oa) ==>
              var s := Sign(w, secretText, keyId, payload, clock, authTag).value;
              var e := SignedBy(w, w.parseSecret(secretText).value, payload, clock, oa);
              && s.pk == e.pk && s.t == clock
              && AreBytes(JsonText(e)) && s.armored == FileText(Encode(JsonText(e)))
  {
    hide LoadAuthTag, AttestationFault, MayEmbed, NormalizeKeyId, Names, BuildEnvelope, Preimage, SignedText, JsonText, FileText,
      ArmorLine, Encode;
    if w.parseSecret(secretText).Some? {
      var secret := w.parseSecret(secretText).value;
      var pk := w.publicKey(secret);
      if keyId.Some? {
        NormalizedIs(w, keyId.value, pk);
      }
      EmbedsExactly(w, pk, clock, authTag, oa);
      SignedIsPreimage(Envelope(pk, "", clock, oa), payload);
      var e := SignedBy(w, secret, payload, clock, oa);
      PrintIsJson(e);
      if MaySign(w, secretText, keyId, payload, clock, authTag, oa) {
        EmbeddedIsPrintable(w, secret, payload, clock, authTag, oa);
        EnvelopeShape(e);
        FileIsArmor(Encode(BuildEnvelope(e)));
      }
    }
  }

  lemma EmbeddedIsPrintable(w: World, secret: string, payload: string, t: nat, authTag: Option<string>, oa: Option<Attestation>)
    requires MayEmbed(w, w.publicKey(secret), t, authTag, oa) && t <= U32_MAX
    ensures Printable(SignedBy(w, secret, payload, t, oa))
  {
    hide ValidateConditions, SignedText, Permits;
  }
}
