/** Signing and verifying a git object. The elliptic-curve and hash primitives, the
  JSON parser and the key formats are parameters, collected in `World`; reading
  keys, files and the clock is left to the arguments. */
module GitSignatures {
  import opened Wrappers
  import opened JsonValues
  import opened Decimals
  import opened Conditions
  import opened Base64
  import opened Utf8
  import opened Envelopes

  const MAX_PAYLOAD: nat := 104_857_600
  const MAX_SIG_FILE: nat := 8192
  const MAX_JSON_DECODED: nat := 2048
  const MAX_BASE64_LINE: nat := 4096
  const MAX_AUTH_TAG: nat := 1024

  /** Keys and signatures come out of the hex encoder. */
  type Hex64 = s: string | IsHex(s, 64) witness seq(64, _ => '0')
  type Hex128 = s: string | IsHex(s, 128) witness seq(128, _ => '0')

  datatype World = World(
    parseSecret: string -> Option<string>,
    publicKey: string -> Hex64,
    sign: (string, string) -> Hex128,
    verifies: (string, string, string) -> bool,
    hash: string -> string,
    isKey: string -> bool,
    npub: string -> Option<string>,
    parseJson: string -> Option<Json>)

  // ---------------------------------------------------------------- signing

  /** The checks of `load_auth_tag` on a configured tag. */
  function ReadAuthTag(w: World, raw: string): Result<Attestation, string> {
    if |raw| > MAX_AUTH_TAG then Err("auth tag exceeds size limit")
    else if w.parseJson(raw).None? then Err("auth tag is not valid JSON")
    else
      var tag := w.parseJson(raw).value;
      if !tag.Arr? then Err("auth tag must be a JSON array")
      else if |tag.items| != 4 then Err("auth tag must have exactly 4 elements")
      else if tag.items[0] != Str("auth") then Err("auth tag[0] must be \"auth\"")
      else if !(tag.items[1].Str? && tag.items[2].Str? && tag.items[3].Str?) then Err("auth tag elements must be strings")
      else
        var a := Attestation(tag.items[1].s, tag.items[2].s, tag.items[3].s);
        if !ValidAttestation(a) then Err("auth tag field malformed") else Ok(a)
  }

  function LoadAuthTag(w: World, raw: Option<string>): Result<Option<Attestation>, string> {
    if raw.None? then Ok(None)
    else if ReadAuthTag(w, raw.value).Err? then Err(ReadAuthTag(w, raw.value).error)
    else Ok(Some(ReadAuthTag(w, raw.value).value))
  }

  function LowerHex(s: string): string {
    seq(|s|, i requires 0 <= i < |s| => if 'A' <= s[i] <= 'F' then (s[i] as int + 32) as char else s[i])
  }

  /** `normalize_key_id`, on a trimmed argument. */
  function NormalizeKeyId(w: World, id: string): Option<string> {
    if "npub1" <= id then w.npub(id)
    else if |id| == 64 && forall i | 0 <= i < |id| :: IsHexDigit(id[i]) || 'A' <= id[i] <= 'F' then Some(LowerHex(id))
    else None
  }

  /** `verify_oa`. */
  predicate VerifyAttestation(w: World, pk: string, a: Attestation) {
    && w.isKey(a.owner)
    && w.verifies(a.owner, w.hash("nostr:agent-auth:" + pk + ":" + a.conditions), a.signature)
  }

  datatype Signed = Signed(pk: string, t: nat, oa: Option<Attestation>, armored: string)

  /** Why a configured attestation must not be embedded. */
  function AttestationFault(w: World, pk: string, t: nat, oa: Option<Attestation>): Option<string> {
    if oa.None? then None
    else if !w.isKey(oa.value.owner) then Some("auth tag owner is not a valid key")
    else if oa.value.owner == pk then Some("auth tag owner must not equal signing key")
    else if !VerifyAttestation(w, pk, oa.value) then Some("auth tag signature verification failed")
    else if EnforceConditions(oa.value.conditions, t).Err? then Some("auth tag conditions not satisfied")
    else None
  }

  /** `do_sign`: `keyId` is the trimmed `-u` argument, `None` when it is empty. */
  function Sign(w: World, secretText: string, keyId: Option<string>, payload: string, clock: nat, authTag: Option<string>)
    : Result<Signed, string>
  {
    var secret := w.parseSecret(secretText);
    if secret.None? then Err("invalid nostr private key")
    else
      var pk := w.publicKey(secret.value);
      if keyId.Some? && NormalizeKeyId(w, keyId.value) != Some(pk) then Err("signing key argument does not match")
      else if |payload| > MAX_PAYLOAD then Err("payload exceeds limit")
      else if clock > U32_MAX then Err("timestamp exceeds u32 range")
      else
        var oa := LoadAuthTag(w, authTag);
        if oa.Err? then Err(oa.error)
        else if AttestationFault(w, pk, clock, oa.value).Some? then Err(AttestationFault(w, pk, clock, oa.value).value)
        else
          var sig := w.sign(secret.value, w.hash(Preimage(clock, oa.value, payload)));
          var e := Envelope(pk, sig, clock, oa.value);
          EnvelopeShape(e);
          Ok(Signed(pk, clock, oa.value, Armor(BuildEnvelope(e))))
  }

  // ---------------------------------------------------------------- verifying

  datatype OaStatus = Absent | Valid | InvalidSignature | ConditionsViolated

  datatype Verified = Verified(pk: string, t: nat, oa: OaStatus)

  datatype VerifyError = Fatal(msg: string) | ErrSig(msg: string) | BadSig(pk: string)

  function AttestationStatus(w: World, e: Envelope): OaStatus {
    if e.oa.None? then Absent
    else if !VerifyAttestation(w, e.pk, e.oa.value) then InvalidSignature
    else if EnforceConditions(e.oa.value.conditions, e.t).Err? then ConditionsViolated
    else Valid
  }

  /** The envelope text inside an armored signature file. */
  function Unwrap(content: string): Result<string, VerifyError> {
    if |content| > MAX_SIG_FILE || !ValidUtf8(content) then Err(Fatal("cannot read signature file"))
    else if ParseArmor(content).Err? then Err(ErrSig(ParseArmor(content).error))
    else
      var line := ParseArmor(content).value;
      if |line| > MAX_BASE64_LINE then Err(ErrSig("base64 line too long"))
      else if Decode(line).None? then Err(ErrSig("invalid base64"))
      else if |Decode(line).value| > MAX_JSON_DECODED then Err(ErrSig("decoded JSON too long"))
      else if !ValidUtf8(Decode(line).value) then Err(ErrSig("decoded bytes are not valid UTF-8"))
      else Ok(Decode(line).value)
  }

  /** `do_verify`. */
  ghost function Verify(w: World, content: string, payload: string): Result<Verified, VerifyError> {
    var text := Unwrap(content);
    if text.Err? then Err(text.error)
    else if BlankOutsideStrings(text.value) then Err(ErrSig("JSON contains whitespace outside string values"))
    else
      var e := OpenEnvelope(text.value, w.parseJson, w.isKey);
      if e.Err? then Err(ErrSig(e.error))
      else if !w.isKey(e.value.pk) then Err(ErrSig("pk is not a valid BIP-340 public key"))
      else if |payload| > MAX_PAYLOAD then Err(ErrSig("payload exceeds limit"))
      else if !w.verifies(e.value.pk, w.hash(Preimage(e.value.t, e.value.oa, payload)), e.value.sig) then
        Err(BadSig(e.value.pk))
      else if e.value.oa.Some? && !w.isKey(e.value.oa.value.owner) then Err(ErrSig("oa[0] is not a valid key"))
      else Ok(Verified(e.value.pk, e.value.t, AttestationStatus(w, e.value)))
  }

  // ---------------------------------------------------------------- the two programs

  method DoSign(w: World, secretText: string, keyId: Option<string>, payload: string, clock: nat, authTag: Option<string>)
    returns (r: Result<Signed, string>)
    ensures r == Sign(w, secretText, keyId, payload, clock, authTag)
  {
    hide BuildEnvelope, Preimage, Armor, NormalizeKeyId, LoadAuthTag, EnforceConditions, VerifyAttestation;
    var secret := w.parseSecret(secretText);
    if secret.None? {
      return Err("invalid nostr private key");
    }
    var pk := w.publicKey(secret.value);
    if keyId.Some? && NormalizeKeyId(w, keyId.value) != Some(pk) {
      return Err("signing key argument does not match");
    }
    if |payload| > MAX_PAYLOAD {
      return Err("payload exceeds limit");
    }
    if clock > U32_MAX {
      return Err("timestamp exceeds u32 range");
    }
    var oa := LoadAuthTag(w, authTag);
    if oa.Err? {
      return Err(oa.error);
    }
    if oa.value.Some? {
      var a := oa.value.value;
      if !w.isKey(a.owner) {
        return Err("auth tag owner is not a valid key");
      }
      if a.owner == pk {
        return Err("auth tag owner must not equal signing key");
      }
      if !VerifyAttestation(w, pk, a) {
        return Err("auth tag signature verification failed");
      }
      if EnforceConditions(a.conditions, clock).Err? {
        return Err("auth tag conditions not satisfied");
      }
    }
    LoadedTagIsValid(w, authTag);
    var digest := ComputeSigningHash(clock, oa.value, payload, w.hash);
    var e := Envelope(pk, w.sign(secret.value, digest), clock, oa.value);
    EnvelopeShape(e);
    return Ok(Signed(pk, clock, oa.value, Armor(BuildEnvelope(e))));
  }

  lemma LoadedTagIsValid(w: World, raw: Option<string>)
    ensures LoadAuthTag(w, raw).Ok? && LoadAuthTag(w, raw).value.Some? ==> ValidAttestation(LoadAuthTag(w, raw).value.value)
  {
    hide ValidateConditions;
  }

  method DoVerify(w: World, content: string, payload: string) returns (r: Result<Verified, VerifyError>)
    ensures r == Verify(w, content, payload)
  {
    hide Unwrap, BuildEnvelope, Preimage, ParseEnvelope, AttestationStatus, BlankOutsideStrings;
    var text := Unwrap(content);
    if text.Err? {
      return Err(text.error);
    }
    var blank := HasNonStringWhitespace(text.value);
    if blank {
      return Err(ErrSig("JSON contains whitespace outside string values"));
    }
    var envelope := OpenEnvelope(text.value, w.parseJson, w.isKey);
    if envelope.Err? {
      return Err(ErrSig(envelope.error));
    }
    var e := envelope.value;
    if !w.isKey(e.pk) {
      return Err(ErrSig("pk is not a valid BIP-340 public key"));
    }
    if |payload| > MAX_PAYLOAD {
      return Err(ErrSig("payload exceeds limit"));
    }
    var digest := ComputeSigningHash(e.t, e.oa, payload, w.hash);
    if !w.verifies(e.pk, digest, e.sig) {
      return Err(BadSig(e.pk));
    }
    if e.oa.Some? && !w.isKey(e.oa.value.owner) {
      return Err(ErrSig("oa[0] is not a valid key"));
    }
    return Ok(Verified(e.pk, e.t, AttestationStatus(w, e)));
  }

  // ---------------------------------------------------------------- sign, then verify

  /** What the primitives are trusted for. */
  ghost predicate Ideal(w: World) {
    && (forall secret: string, m: string :: w.verifies(w.publicKey(secret), m, w.sign(secret, m)))
    && (forall secret: string :: w.isKey(w.publicKey(secret)))
    && (forall e: Envelope :: ValidEnvelope(e, w.isKey) ==> w.parseJson(BuildEnvelope(e)) == Some(EnvelopeJson(e)))
    && (forall text: string, i: nat ::
          (w.parseJson(text).Some? && w.parseJson(text).value.Arr? && i < |w.parseJson(text).value.items|
           && w.parseJson(text).value.items[i].Str?) ==> |w.parseJson(text).value.items[i].s| <= |text|)
  }

  /** A JSON parser that knows the prints of envelopes and nothing else. */
  ghost function ParsePrints(text: string): Option<Json> {
    if exists e: Envelope :: Printable(e) && BuildEnvelope(e) == text then
      var e: Envelope :| Printable(e) && BuildEnvelope(e) == text;
      Some(EnvelopeJson(e))
    else None
  }

  /** Primitives that can be trusted so exist. */
  lemma IdealIsMet()
    ensures exists w: World :: Ideal(w)
  {
    var zeros64: Hex64 := seq(64, _ => '0');
    var zeros128: Hex128 := seq(128, _ => '0');
    var w := World(text => Some(text), secret => zeros64, (secret, m) => zeros128, (pk, m, sig) => true, m => m, pk => true,
                   id => None, ParsePrints);
    forall e: Envelope | ValidEnvelope(e, w.isKey) ensures w.parseJson(BuildEnvelope(e)) == Some(EnvelopeJson(e)) {
      PrintsParse(e);
    }
    assert Ideal(w);
  }

  lemma PrintsParse(e: Envelope)
    requires Printable(e)
    ensures ParsePrints(BuildEnvelope(e)) == Some(EnvelopeJson(e))
  {
    hide BuildEnvelope, Printable, EnvelopeJson;
    var f: Envelope :| Printable(f) && BuildEnvelope(f) == BuildEnvelope(e) && ParsePrints(BuildEnvelope(e)) == Some(EnvelopeJson(f));
    BuildEnvelopeInjective(e, f);
  }

  /** The envelope a successful signing puts in the armor. */
  lemma SignedEnvelope(w: World, secretText: string, keyId: Option<string>, payload: string, clock: nat, authTag: Option<string>)
    returns (e: Envelope)
    requires Ideal(w)
    requires Sign(w, secretText, keyId, payload, clock, authTag).Ok?
    ensures var s := Sign(w, secretText, keyId, payload, clock, authTag).value;
            && e.pk == s.pk && e.t == s.t && e.oa == s.oa && |payload| <= MAX_PAYLOAD
            && ValidEnvelope(e, w.isKey) && w.isKey(e.pk)
            && (e.oa.Some? ==> |e.oa.value.conditions| <= MAX_AUTH_TAG && w.isKey(e.oa.value.owner))
            && AreBytes(BuildEnvelope(e)) && s.armored == Armor(BuildEnvelope(e))
            && w.verifies(e.pk, w.hash(Preimage(e.t, e.oa, payload)), e.sig)
            && AttestationStatus(w, e) == (if authTag.None? then Absent else Valid)
  {
    hide BuildEnvelope, Preimage, EnforceConditions, ValidateConditions, Armor, NormalizeKeyId;
    var secret := w.parseSecret(secretText).value;
    var pk := w.publicKey(secret);
    var oa := LoadAuthTag(w, authTag).value;
    e := Envelope(pk, w.sign(secret, w.hash(Preimage(clock, oa, payload))), clock, oa);
    EnvelopeShape(e);
  }

  lemma NoBlanks(s: string)
    requires Compact(s)
    ensures !BlankOutsideStrings(s)
  {
  }

  lemma ArmorFits(e: Envelope)
    requires Printable(e) && (e.oa.Some? ==> |e.oa.value.conditions| <= MAX_AUTH_TAG)
    ensures var json := BuildEnvelope(e);
            && AreBytes(json) && Unwrap(Armor(json)) == Ok(json) && !BlankOutsideStrings(json)
  {
    hide BuildEnvelope, Printable, BlankOutsideStrings, Unwrap, Armor;
    EnvelopeShape(e);
    NoBlanks(BuildEnvelope(e));
    CompactFits(BuildEnvelope(e));
  }

  /** Compact text of at most 1463 bytes passes through the armor and its three limits. */
  lemma CompactFits(json: string)
    requires Compact(json) && |json| <= 1463
    ensures AreBytes(json) && Unwrap(Armor(json)) == Ok(json)
  {
    assert AreBytes(json);
    EncodingShape(json);
    DecodeOfEncode(json);
    var line := Encode(json);
    hide Encode, Decode, ParseArmor, ValidUtf8;
    VisibleLine(line);
    ParsesExactlyArmor(Armor(json), line);
    hide ArmorLine, Compact;
    CompactIsUtf8(json);
    ArmorIsAscii(line);
    AsciiIsUtf8(Armor(json));
  }

  lemma VisibleLine(line: string)
    requires Visible(line)
    ensures '\n' !in line && !EndsBlank(line)
  {
  }

  lemma CompactIsUtf8(s: string)
    requires Compact(s)
    ensures ValidUtf8(s)
  {
    hide ValidUtf8;
    AsciiIsUtf8(s);
  }

  lemma ArmorIsAscii(line: string)
    requires Visible(line)
    ensures forall i | 0 <= i < |ArmorLine(line)| :: ArmorLine(line)[i] as int < 128
    ensures |ArmorLine(line)| == 61 + |line|
  {
    assert forall i | 0 <= i < |ARMOR_BEGIN| :: ARMOR_BEGIN[i] as int < 128;
    assert forall i | 0 <= i < |ARMOR_END| :: ARMOR_END[i] as int < 128;
    MarkersPlain();
  }

  lemma SignedWhen(w: World, secretText: string, keyId: Option<string>, payload: string, clock: nat, authTag: Option<string>)
    requires Sign(w, secretText, keyId, payload, clock, authTag).Ok?
    ensures Sign(w, secretText, keyId, payload, clock, authTag).value.t == clock
  {
    hide BuildEnvelope, Preimage, Armor, NormalizeKeyId, AttestationFault, LoadAuthTag;
  }

  /** Every valid envelope of permitted size whose signature covers the payload verifies. */
  lemma SoundEnvelopeVerifies(w: World, e: Envelope, payload: string)
    requires Ideal(w) && ValidEnvelope(e, w.isKey) && w.isKey(e.pk) && |payload| <= MAX_PAYLOAD
    requires e.oa.Some? ==> |e.oa.value.conditions| <= MAX_AUTH_TAG
    requires w.verifies(e.pk, w.hash(Preimage(e.t, e.oa, payload)), e.sig)
    ensures AreBytes(BuildEnvelope(e))
    ensures Verify(w, Armor(BuildEnvelope(e)), payload) == Ok(Verified(e.pk, e.t, AttestationStatus(w, e)))
  {
    hide ValidateConditions, BuildEnvelope, Preimage, AttestationStatus, Unwrap, BlankOutsideStrings, Armor;
    ArmorFits(e);
    ParseOfEnvelopeJson(e, w.isKey);
    hide ParseEnvelope, EnvelopeJson;
    assert OpenEnvelope(BuildEnvelope(e), w.parseJson, w.isKey) == Ok(e);
  }

  /** Whatever signing emits verifies on the same payload, and the attestation it
    embeds, if any, is reported valid. */
  lemma SignThenVerify(w: World, secretText: string, keyId: Option<string>, payload: string, clock: nat, authTag: Option<string>)
    requires Ideal(w)
    requires Sign(w, secretText, keyId, payload, clock, authTag).Ok?
    ensures var s := Sign(w, secretText, keyId, payload, clock, authTag).value;
            Verify(w, s.armored, payload) == Ok(Verified(s.pk, clock, if authTag.None? then Absent else Valid))
  {
    hide Sign, ValidEnvelope, BuildEnvelope, Preimage, AttestationStatus, Verify, Armor;
    SignedWhen(w, secretText, keyId, payload, clock, authTag);
    var e := SignedEnvelope(w, secretText, keyId, payload, clock, authTag);
    SoundEnvelopeVerifies(w, e, payload);
  }

  lemma ArmorInjective(a: string, b: string)
    requires AreBytes(a) && AreBytes(b) && Armor(a) == Armor(b)
    ensures a == b
  {
    DecodeOfEncode(a);
    DecodeOfEncode(b);
    EncodingShape(a);
    EncodingShape(b);
    hide Encode, Decode;
    VisibleLine(Encode(a));
    VisibleLine(Encode(b));
    ParsesExactlyArmor(Armor(a), Encode(a));
    ParsesExactlyArmor(Armor(b), Encode(b));
  }
}
