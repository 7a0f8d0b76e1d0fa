/** Signed apply grants: issuing, verifying, and verifying with one-shot consumption. */
module ApplyGrant {
  import opened Text
  import opened Utf8
  import Base64Url
  import opened Json
  import opened ReplayStore

  const DEFAULT_RISK := "reversible"
  const RISK_CLASSES := {"read_only", "reversible", "boundary", "governance"}
  const MAX_GRANT_TTL: int := 3600

  /**
   * What the code takes from Python's library: HMAC-SHA-256, printing and parsing of ISO dates, and the
   * library's reading of base64 texts and JSON texts outside the forms that grants use.
   */
  datatype Library = Library(
    hmac: (string, string) -> seq<Byte>,
    iso: real -> string,
    parseIso: string -> Option<real>,
    looseBase64: string -> Option<seq<Byte>>,
    looseJson: string -> Option<map<string, string>>)

  /** The three variables secrets come from; an unset one is empty. */
  datatype Environment = Environment(hmacSecret: string, tokenPepper: string, hmacSecretNext: string)

  /** The current secret and the one being rotated in; empty means there is none. */
  datatype Secrets = Secrets(primary: string, next: string)

  function ResolveSecrets(env: Environment): Secrets {
    Secrets(Strip(if env.hmacSecret != "" then env.hmacSecret else env.tokenPepper), Strip(env.hmacSecretNext))
  }

  datatype Claims = Claims(
    runId: string, actor: string, intentPack: string, planHash: string, artifactSha256: string,
    target: string, expiresAt: string, riskClass: string, jti: string, iat: string)

  datatype Error =
    | SecretMissing | TtlInvalid | TtlExceedsMax | RiskClassInvalid | FieldRequired(field: string)
    | GrantRequired | BadSignature | Expired | PlanHashMismatch | TargetMismatch | ArtifactMismatch
    | ActorMismatch | PackMismatch | GrantReplay

  // ----- claims -----

  /** The members of the signed object, in the canonical order. */
  function MembersOf(c: Claims): Pairs {
    [("run_id", c.runId), ("actor", c.actor), ("intent_pack", c.intentPack), ("plan_hash", c.planHash),
     ("artifact_sha256", c.artifactSha256), ("target", c.target), ("expires_at", c.expiresAt),
     ("risk_class", c.riskClass), ("jti", c.jti), ("iat", c.iat)]
  }

  function CanonicalClaims(d: map<string, string>): Claims {
    Claims(Get(d, "run_id"), Get(d, "actor"), Get(d, "intent_pack"), Get(d, "plan_hash"),
           Get(d, "artifact_sha256"), Get(d, "target"), Get(d, "expires_at"), Get(d, "risk_class"),
           Get(d, "jti"), Get(d, "iat"))
  }

  function SigningPayload(c: Claims): string { Print(ObjectOf(MembersOf(c))) }

  function FormatIntentPack(packId: string, packVersion: string): string {
    var id, version := Strip(packId), Strip(packVersion);
    if id == "" then "" else if version == "" then id else id + "@" + version
  }

  /** Milliseconds are what an ISO date keeps of an instant. */
  function ToMilliseconds(t: real): real { (t * 1000.0).Floor as real / 1000.0 }

  lemma WholeMilliseconds(t: real) returns (n: int)
    ensures ToMilliseconds(t) == n as real / 1000.0 && n as real <= t * 1000.0 < n as real + 1.0
  {
    n := (t * 1000.0).Floor;
  }

  // ----- issuing -----

  datatype Request = Request(
    runId: string, actor: string, planHash: string, artifactSha256: string, target: string,
    intentPack: string, packId: string, packVersion: string, riskClass: string, ttlSeconds: int, jti: string)

  datatype Issued = Granted(token: string, claims: Claims) | Refused(error: Error)

  const HEADER: Pairs := [("alg", "HS256"), ("typ", "apply-grant")]

  function Part(text: string): string { Base64Url.Encode(Utf8.Encode(text)) }

  function SigningInput(c: Claims): string { Part(Print(ObjectOf(HEADER))) + "." + Part(SigningPayload(c)) }

  function Token(lib: Library, secret: string, c: Claims): string {
    SigningInput(c) + "." + Base64Url.Encode(lib.hmac(secret, SigningInput(c)))
  }

  /** The first required field that is blank, if any. */
  function MissingField(c: Claims): Option<string> {
    if c.runId == "" then Some("run_id")
    else if c.actor == "" then Some("actor")
    else if c.intentPack == "" then Some("intent_pack")
    else if c.planHash == "" then Some("plan_hash")
    else if c.artifactSha256 == "" then Some("artifact_sha256")
    else if c.target == "" then Some("target")
    else None
  }

  /** `random` are the sixteen bytes drawn for a grant without an identifier of its own. */
  function ClaimsFor(lib: Library, r: Request, now: real, random: seq<Byte>): Claims {
    Claims(
      Strip(r.runId), Strip(r.actor),
      Strip(if r.intentPack != "" then r.intentPack else FormatIntentPack(r.packId, r.packVersion)),
      Strip(r.planHash), Strip(r.artifactSha256), Strip(r.target),
      lib.iso(now + r.ttlSeconds as real),
      Strip(if r.riskClass != "" then r.riskClass else DEFAULT_RISK),
      if Strip(r.jti) != "" then Strip(r.jti) else Base64Url.Encode(random),
      lib.iso(now))
  }

  function Issue(lib: Library, keys: Secrets, r: Request, now: real, random: seq<Byte>): Issued {
    IssueClaims(lib, keys, ClaimsFor(lib, r, now, random), r.ttlSeconds)
  }

  function IssueClaims(lib: Library, keys: Secrets, c: Claims, ttlSeconds: int): Issued {
    if keys.primary == "" then Refused(SecretMissing)
    else if ttlSeconds <= 0 then Refused(TtlInvalid)
    else if ttlSeconds > MAX_GRANT_TTL then Refused(TtlExceedsMax)
    else if c.riskClass !in RISK_CLASSES then Refused(RiskClassInvalid)
    else
      match MissingField(c)
      case Some(field) => Refused(FieldRequired(field))
      case None => Granted(Token(lib, keys.primary, c), c)
  }

  // ----- verifying -----

  /** What the caller expects of the claims, stripped and, for hashes, in lower case; blank means any. */
  datatype Expectation = Expectation(
    planHash: string, target: string, artifactSha256: string, actor: string, intentPack: string)

  function Expect(
    planHash: string, target: string, artifactSha256: string, actor: string,
    intentPack: string, packId: string, packVersion: string): Expectation
  {
    Expectation(
      Lower(Strip(planHash)), Strip(target), Lower(Strip(artifactSha256)), Strip(actor),
      Strip(if intentPack != "" then intentPack else FormatIntentPack(packId, packVersion)))
  }

  datatype Verification = Valid(claims: Claims) | Invalid(error: Error)

  function LoadsObject(lib: Library, text: string): Option<map<string, string>> {
    match ReadDict(text)
    case Some(d) => Some(d)
    case None => lib.looseJson(text)
  }

  function DecodeObject(lib: Library, part: string): Option<map<string, string>> {
    match Base64Url.Decode(part, lib.looseBase64)
    case None => None
    case Some(raw) =>
      match Utf8.Decode(raw)
      case None => None
      case Some(text) => LoadsObject(lib, text)
  }

  /** Some configured secret, current or next, signs the input with this signature. */
  predicate SignedBy(lib: Library, keys: Secrets, input: string, signature: seq<Byte>) {
    || (keys.primary != "" && lib.hmac(keys.primary, input) == signature)
    || (keys.next != "" && lib.hmac(keys.next, input) == signature)
  }

  /** The claims of a well-signed token. */
  function Open(lib: Library, keys: Secrets, token: string): Verification {
    var raw := Strip(token);
    if keys.primary == "" && keys.next == "" then Invalid(SecretMissing)
    else if raw == "" then Invalid(GrantRequired)
    else OpenParts(lib, keys, Split(raw, '.'))
  }

  function OpenParts(lib: Library, keys: Secrets, parts: seq<string>): Verification {
    if |parts| != 3 then Invalid(BadSignature)
    else
      var header, payload := DecodeObject(lib, parts[0]), DecodeObject(lib, parts[1]);
      if header.None? || Get(header.value, "alg") != "HS256" || payload.None? then Invalid(BadSignature)
      else
        match Base64Url.Decode(parts[2], lib.looseBase64)
        case None => Invalid(BadSignature)
        case Some(signature) =>
          if SignedBy(lib, keys, parts[0] + "." + parts[1], signature) then Valid(CanonicalClaims(payload.value))
          else Invalid(BadSignature)
  }

  function Expiry(lib: Library, c: Claims): Option<real> {
    var text := Strip(c.expiresAt);
    if text == "" then None else lib.parseIso(text)
  }

  function CheckClaims(lib: Library, c: Claims, want: Expectation, now: real): Verification {
    var exp := Expiry(lib, c);
    if exp.None? then Invalid(BadSignature)
    else if now > exp.value + CLOCK_SKEW_SECONDS then Invalid(Expired)
    else if want.planHash != "" && want.planHash != Lower(c.planHash) then Invalid(PlanHashMismatch)
    else if want.target != "" && want.target != c.target then Invalid(TargetMismatch)
    else if want.artifactSha256 != "" && want.artifactSha256 != Lower(c.artifactSha256) then Invalid(ArtifactMismatch)
    else if want.actor != "" && want.actor != c.actor then Invalid(ActorMismatch)
    else if want.intentPack != "" && want.intentPack != c.intentPack then Invalid(PackMismatch)
    else if c.riskClass !in RISK_CLASSES || c.jti == "" then Invalid(BadSignature)
    else Valid(c)
  }

  function Verify(lib: Library, keys: Secrets, token: string, want: Expectation, now: real): Verification {
    match Open(lib, keys, token)
    case Invalid(error) => Invalid(error)
    case Valid(c) => CheckClaims(lib, c, want, now)
  }

  // ----- the round trip -----

  lemma ClaimKeysDistinct(c: Claims)
    ensures forall i, j | 0 <= i < j < |MembersOf(c)| :: MembersOf(c)[i].0 != MembersOf(c)[j].0
  {
    var keys := ["run_id", "actor", "intent_pack", "plan_hash", "artifact_sha256", "target", "expires_at",
                 "risk_class", "jti", "iat"];
    assert keys[0][0] == 'r' && keys[5][0] == 't';
    assert keys[6][0] == 'e' && keys[7][0] == 'r';
    assert keys[8][0] == 'j' && keys[9][0] == 'i';
    assert forall i | 0 <= i < |MembersOf(c)| :: MembersOf(c)[i].0 == keys[i];
    assert forall i, j | 0 <= i < j < |keys| :: keys[i] != keys[j];
  }

  /** The printed claims read back as the same claims. */
  lemma ClaimsRoundTrip(c: Claims)
    ensures var d := ReadDict(SigningPayload(c)); d.Some? && CanonicalClaims(d.value) == c
  {
    ClaimKeysDistinct(c);
    var ms := MembersOf(c);
    forall i | 0 <= i < |ms|
      ensures var d := ReadDict(SigningPayload(c)); d.Some? && Get(d.value, ms[i].0) == ms[i].1
    {
      PrintedPairRead(ms, i);
    }
    PrintedPairRead(ms, 0);
    var d := ReadDict(SigningPayload(c)).value;
    assert Get(d, ms[0].0) == c.runId && Get(d, ms[1].0) == c.actor;
    assert Get(d, ms[2].0) == c.intentPack && Get(d, ms[3].0) == c.planHash;
    assert Get(d, ms[4].0) == c.artifactSha256 && Get(d, ms[5].0) == c.target;
    assert Get(d, ms[6].0) == c.expiresAt && Get(d, ms[7].0) == c.riskClass;
    assert Get(d, ms[8].0) == c.jti && Get(d, ms[9].0) == c.iat;
  }

  lemma DecodePart(lib: Library, text: string)
    requires ReadDict(text).Some?
    ensures DecodeObject(lib, Part(text)) == ReadDict(text)
  {
    Base64Url.RoundTrip(Utf8.Encode(text), lib.looseBase64);
    Utf8.DecodeEncode(text);
  }

  /** Parts in the base64url alphabet are free of dots and of white space. */
  lemma EncodedClean(b: seq<Byte>)
    ensures '.' !in Base64Url.Encode(b)
    ensures forall c | c in Base64Url.Encode(b) :: !IsSpace(c)
  {
    Base64Url.EncodeShape(b);
  }

  lemma SplitThree(a: string, b: string, c: string)
    requires '.' !in a && '.' !in b && '.' !in c
    ensures Split(a + "." + b + "." + c, '.') == [a, b, c]
  {
    assert a + "." + b + "." + c == a + ['.'] + (b + ['.'] + c);
    SplitAt(a, '.', b + ['.'] + c);
    SplitAt(b, '.', c);
    SplitWhole(c, '.');
    assert [a] + ([b] + [c]) == [a, b, c];
  }

  lemma TokenParts(lib: Library, secret: string, c: Claims)
    ensures Strip(Token(lib, secret, c)) == Token(lib, secret, c) != ""
    ensures Split(Token(lib, secret, c), '.')
         == [Part(Print(ObjectOf(HEADER))), Part(SigningPayload(c)),
             Base64Url.Encode(lib.hmac(secret, SigningInput(c)))]
  {
    var a, b := Part(Print(ObjectOf(HEADER))), Part(SigningPayload(c));
    var s := Base64Url.Encode(lib.hmac(secret, SigningInput(c)));
    EncodedClean(Utf8.Encode(Print(ObjectOf(HEADER))));
    EncodedClean(Utf8.Encode(SigningPayload(c)));
    EncodedClean(lib.hmac(secret, SigningInput(c)));
    SplitThree(a, b, s);
    TokenStrips(a, b, s);
  }

  lemma TokenStrips(a: string, b: string, c: string)
    requires forall x | x in a || x in c :: !IsSpace(x)
    ensures Strip(a + "." + b + "." + c) == a + "." + b + "." + c
  {
    var t := a + "." + b + "." + c;
    assert t[0] == if a != "" then a[0] else '.';
    assert t[|t| - 1] == if c != "" then c[|c| - 1] else '.';
    StripClean(t);
  }

  lemma HeaderAlg()
    ensures var d := ReadDict(Print(ObjectOf(HEADER))); d.Some? && Get(d.value, "alg") == "HS256"
  {
    assert HEADER[1].0 != HEADER[0].0;
    PrintedPairRead(HEADER, 0);
  }

  lemma TokenPieces(lib: Library, secret: string, c: Claims) returns (p0: string, p1: string, p2: string)
    ensures var token := Token(lib, secret, c);
            Strip(token) == token && token != "" && Split(token, '.') == [p0, p1, p2]
    ensures DecodeObject(lib, p0).Some? && Get(DecodeObject(lib, p0).value, "alg") == "HS256"
    ensures DecodeObject(lib, p1).Some? && CanonicalClaims(DecodeObject(lib, p1).value) == c
    ensures p0 + "." + p1 == SigningInput(c)
    ensures Base64Url.Decode(p2, lib.looseBase64) == Some(lib.hmac(secret, SigningInput(c)))
  {
    p0, p1 := Part(Print(ObjectOf(HEADER))), Part(SigningPayload(c));
    p2 := Base64Url.Encode(lib.hmac(secret, SigningInput(c)));
    TokenParts(lib, secret, c);
    HeaderAlg();
    ClaimsRoundTrip(c);
    DecodePart(lib, Print(ObjectOf(HEADER)));
    DecodePart(lib, SigningPayload(c));
    Base64Url.RoundTrip(lib.hmac(secret, SigningInput(c)), lib.looseBase64);
  }

  lemma OpenBySignature(lib: Library, keys: Secrets, secret: string, c: Claims)
    requires keys.primary != "" || keys.next != ""
    ensures Open(lib, keys, Token(lib, secret, c))
         == if SignedBy(lib, keys, SigningInput(c), lib.hmac(secret, SigningInput(c))) then Valid(c)
            else Invalid(BadSignature)
  {
    var p0, p1, p2 := TokenPieces(lib, secret, c);
  }

  /** Some secret in use gives the same HMAC as this one. */
  ghost predicate SameHmac(lib: Library, keys: Secrets, secret: string, input: string) {
    || (keys.primary != "" && lib.hmac(keys.primary, input) == lib.hmac(secret, input))
    || (keys.next != "" && lib.hmac(keys.next, input) == lib.hmac(secret, input))
  }

  lemma SignedByHmac(lib: Library, keys: Secrets, secret: string, input: string)
    ensures SignedBy(lib, keys, input, lib.hmac(secret, input)) <==> SameHmac(lib, keys, secret, input)
  {
  }

  /** A token made from claims opens to exactly those claims, by a current or next secret with the same HMAC. */
  lemma OpenToken(lib: Library, keys: Secrets, secret: string, c: Claims)
    requires keys.primary != "" || keys.next != ""
    ensures Open(lib, keys, Token(lib, secret, c))
         == if SameHmac(lib, keys, secret, SigningInput(c)) then Valid(c) else Invalid(BadSignature)
  {
    OpenBySignature(lib, keys, secret, c);
    SignedByHmac(lib, keys, secret, SigningInput(c));
  }

  /** Printing an instant and parsing it back truncates it to milliseconds. */
  ghost predicate IsoLaw(lib: Library, t: real) {
    Strip(lib.iso(t)) == lib.iso(t) != "" && lib.parseIso(lib.iso(t)) == Some(ToMilliseconds(t))
  }

  ghost predicate Meets(c: Claims, want: Expectation) {
    && (want.planHash == "" || want.planHash == Lower(c.planHash))
    && (want.target == "" || want.target == c.target)
    && (want.artifactSha256 == "" || want.artifactSha256 == Lower(c.artifactSha256))
    && (want.actor == "" || want.actor == c.actor)
    && (want.intentPack == "" || want.intentPack == c.intentPack)
  }

  lemma ClaimsForShape(lib: Library, r: Request, now: real, random: seq<Byte>)
    requires random != []
    ensures var c := ClaimsFor(lib, r, now, random);
            c.jti != "" && c.expiresAt == lib.iso(now + r.ttlSeconds as real)
  {
    Base64Url.EncodeShape(random);
  }

  /** A token is accepted exactly with its own claims and by secrets that know its signature. */
  lemma TokenAccepted(lib: Library, secret: string, c: Claims, verifier: Secrets, want: Expectation, now: real)
    requires c.jti != "" && c.riskClass in RISK_CLASSES
    ensures var token := Token(lib, secret, c);
      && (Verify(lib, verifier, token, want, now).Valid?
          <==> && SameHmac(lib, verifier, secret, SigningInput(c))
               && Expiry(lib, c).Some? && now <= Expiry(lib, c).value + CLOCK_SKEW_SECONDS
               && Meets(c, want))
      && (Verify(lib, verifier, token, want, now).Valid? ==> Verify(lib, verifier, token, want, now) == Valid(c))
  {
    CheckClaimsExactly(lib, c, want, now);
    if verifier.primary != "" || verifier.next != "" {
      OpenToken(lib, verifier, secret, c);
    }
  }

  lemma CheckClaimsExactly(lib: Library, c: Claims, want: Expectation, now: real)
    ensures CheckClaims(lib, c, want, now).Valid?
       <==> && Expiry(lib, c).Some? && now <= Expiry(lib, c).value + CLOCK_SKEW_SECONDS
            && Meets(c, want) && c.riskClass in RISK_CLASSES && c.jti != ""
    ensures CheckClaims(lib, c, want, now).Valid? ==> CheckClaims(lib, c, want, now).claims == c
  {
  }

  /**
   * An issued grant is accepted exactly by the secrets that know its signature, up to sixty seconds after
   * its expiry in milliseconds, and always with its own claims, which must meet the expectation.
   */
  lemma IssuedGrantAccepted(
    lib: Library, keys: Secrets, r: Request, issuedAt: real, random: seq<Byte>,
    verifier: Secrets, want: Expectation, now: real)
    requires random != [] && Issue(lib, keys, r, issuedAt, random).Granted?
    requires IsoLaw(lib, issuedAt + r.ttlSeconds as real)
    ensures var Granted(token, c) := Issue(lib, keys, r, issuedAt, random);
      && c == ClaimsFor(lib, r, issuedAt, random)
      && (Verify(lib, verifier, token, want, now).Valid?
          <==> && SameHmac(lib, verifier, keys.primary, SigningInput(c))
               && now <= ToMilliseconds(issuedAt + r.ttlSeconds as real) + CLOCK_SKEW_SECONDS
               && Meets(c, want))
      && (Verify(lib, verifier, token, want, now).Valid? ==> Verify(lib, verifier, token, want, now) == Valid(c))
  {
    ClaimsForShape(lib, r, issuedAt, random);
    TokenAccepted(lib, keys.primary, Issue(lib, keys, r, issuedAt, random).claims, verifier, want, now);
  }

  /** What a caller passes to verification, before anything is stripped. */
  datatype Arguments = Arguments(
    planHash: string, target: string, artifactSha256: string, actor: string,
    intentPack: string, packId: string, packVersion: string)

  function ExpectOf(a: Arguments): Expectation {
    Expect(a.planHash, a.target, a.artifactSha256, a.actor, a.intentPack, a.packId, a.packVersion)
  }

  function Pack(intentPack: string, packId: string, packVersion: string): string {
    Strip(if intentPack != "" then intentPack else FormatIntentPack(packId, packVersion))
  }

  /** Each argument is blank or, stripped and for hashes in lower case, what the grant was requested for. */
  ghost predicate AsksFor(a: Arguments, r: Request) {
    && (Strip(a.planHash) == "" || Lower(Strip(a.planHash)) == Lower(Strip(r.planHash)))
    && (Strip(a.target) == "" || Strip(a.target) == Strip(r.target))
    && (Strip(a.artifactSha256) == "" || Lower(Strip(a.artifactSha256)) == Lower(Strip(r.artifactSha256)))
    && (Strip(a.actor) == "" || Strip(a.actor) == Strip(r.actor))
    && (Pack(a.intentPack, a.packId, a.packVersion) == ""
        || Pack(a.intentPack, a.packId, a.packVersion) == Pack(r.intentPack, r.packId, r.packVersion))
  }

  lemma ArgumentsMeet(lib: Library, a: Arguments, r: Request, now: real, random: seq<Byte>)
    ensures Meets(ClaimsFor(lib, r, now, random), ExpectOf(a)) <==> AsksFor(a, r)
  {
  }

  /** The text of the current secret: the pepper stands in where no secret is set. */
  function CurrentText(env: Environment): string {
    if env.hmacSecret == "" then env.tokenPepper else env.hmacSecret
  }

  /**
   * From request to acceptance on raw arguments and raw environments: a grant is accepted, up to its expiry plus
   * sixty seconds, by whoever has the issuing secret as current or next secret and asks for nothing else than was
   * requested; and asking for anything else it is refused.
   */
  lemma GrantSurvivesRotation(
    lib: Library, issuer: Environment, r: Request, issuedAt: real, random: seq<Byte>,
    verifier: Environment, a: Arguments, now: real)
    requires random != [] && Issue(lib, ResolveSecrets(issuer), r, issuedAt, random).Granted?
    requires IsoLaw(lib, issuedAt + r.ttlSeconds as real)
    requires Strip(CurrentText(issuer)) in {Strip(CurrentText(verifier)), Strip(verifier.hmacSecretNext)}
    requires now <= ToMilliseconds(issuedAt + r.ttlSeconds as real) + CLOCK_SKEW_SECONDS
    ensures var g := Issue(lib, ResolveSecrets(issuer), r, issuedAt, random);
            var v := Verify(lib, ResolveSecrets(verifier), g.token, ExpectOf(a), now);
            (v.Valid? <==> AsksFor(a, r)) && (v.Valid? ==> v == Valid(g.claims))
  {
    IssuedGrantAccepted(lib, ResolveSecrets(issuer), r, issuedAt, random, ResolveSecrets(verifier), ExpectOf(a), now);
    ArgumentsMeet(lib, a, r, issuedAt, random);
  }

  lemma IssuedToken(lib: Library, keys: Secrets, c: Claims, ttlSeconds: int)
    requires IssueClaims(lib, keys, c, ttlSeconds).Granted?
    ensures IssueClaims(lib, keys, c, ttlSeconds) == Granted(Token(lib, keys.primary, c), c)
  {
  }

  lemma GrantedToken(lib: Library, keys: Secrets, r: Request, now: real, random: seq<Byte>) returns (c: Claims)
    requires Issue(lib, keys, r, now, random).Granted?
    ensures Issue(lib, keys, r, now, random) == Granted(Token(lib, keys.primary, c), c)
  {
    c := ClaimsFor(lib, r, now, random);
    IssuedToken(lib, keys, c, r.ttlSeconds);
  }

  lemma UnopenedIsRefused(lib: Library, keys: Secrets, token: string, want: Expectation, now: real)
    requires Open(lib, keys, token).Invalid?
    ensures Verify(lib, keys, token, want, now) == Open(lib, keys, token)
  {
  }

  lemma StrangersToken(lib: Library, verifier: Secrets, secret: string, c: Claims, want: Expectation, now: real)
    requires !SameHmac(lib, verifier, secret, SigningInput(c))
    ensures Verify(lib, verifier, Token(lib, secret, c), want, now)
         == Invalid(if verifier.primary == "" && verifier.next == "" then SecretMissing else BadSignature)
  {
    if verifier.primary != "" || verifier.next != "" {
      OpenToken(lib, verifier, secret, c);
    }
    UnopenedIsRefused(lib, verifier, Token(lib, secret, c), want, now);
  }

  /** The converse: a verifier none of whose secrets gives the issuer's HMAC on the token's input refuses it. */
  lemma GrantRefusedByStrangers(
    lib: Library, keys: Secrets, r: Request, issuedAt: real, random: seq<Byte>,
    verifier: Secrets, want: Expectation, now: real)
    requires Issue(lib, keys, r, issuedAt, random).Granted?
    requires !SameHmac(lib, verifier, keys.primary, SigningInput(Issue(lib, keys, r, issuedAt, random).claims))
    ensures Verify(lib, verifier, Issue(lib, keys, r, issuedAt, random).token, want, now)
         == Invalid(if verifier.primary == "" && verifier.next == "" then SecretMissing else BadSignature)
  {
    var c := GrantedToken(lib, keys, r, issuedAt, random);
    StrangersToken(lib, verifier, keys.primary, c, want, now);
  }

  /** What it takes to open an arbitrary token, with the signature written out. */
  ghost predicate Opens(lib: Library, keys: Secrets, token: string, c: Claims) {
    var parts := Split(Strip(token), '.');
    && |parts| == 3
    && DecodeObject(lib, parts[0]).Some? && Get(DecodeObject(lib, parts[0]).value, "alg") == "HS256"
    && DecodeObject(lib, parts[1]).Some?
    && (var d := DecodeObject(lib, parts[1]).value;
        c == Claims(Get(d, "run_id"), Get(d, "actor"), Get(d, "intent_pack"), Get(d, "plan_hash"),
                    Get(d, "artifact_sha256"), Get(d, "target"), Get(d, "expires_at"), Get(d, "risk_class"),
                    Get(d, "jti"), Get(d, "iat")))
    && exists s | s == keys.primary || s == keys.next ::
         s != "" && Base64Url.Decode(parts[2], lib.looseBase64) == Some(lib.hmac(s, parts[0] + "." + parts[1]))
  }

  lemma OpenExactly(lib: Library, keys: Secrets, token: string, c: Claims)
    ensures Open(lib, keys, token) == Valid(c) <==> Opens(lib, keys, token, c)
  {
    var parts := Split(Strip(token), '.');
    assert Strip(token) == "" ==> |parts| == 1;
    if |parts| == 3 && Base64Url.Decode(parts[2], lib.looseBase64).Some? {
      SignedExactly(lib, keys, parts[0] + "." + parts[1], Base64Url.Decode(parts[2], lib.looseBase64).value);
    }
  }

  lemma SignedExactly(lib: Library, keys: Secrets, input: string, signature: seq<Byte>)
    ensures SignedBy(lib, keys, input, signature)
       <==> exists s | s == keys.primary || s == keys.next :: s != "" && lib.hmac(s, input) == signature
  {
    if SignedBy(lib, keys, input, signature) {
      var s := if keys.primary != "" && lib.hmac(keys.primary, input) == signature then keys.primary else keys.next;
      assert s != "" && lib.hmac(s, input) == signature;
    }
  }

  /**
   * An arbitrary token is accepted with these claims exactly if it has three parts, header and payload read as the
   * algorithm and the claims, the third part is the HMAC of the first two under a configured secret, and the claims
   * are current, as expected and complete. Nothing forged is.
   */
  lemma VerifiedExactly(lib: Library, keys: Secrets, token: string, want: Expectation, now: real, c: Claims)
    ensures Verify(lib, keys, token, want, now) == Valid(c)
       <==> && Opens(lib, keys, token, c)
            && Expiry(lib, c).Some? && now <= Expiry(lib, c).value + CLOCK_SKEW_SECONDS
            && Meets(c, want) && c.riskClass in RISK_CLASSES && c.jti != ""
  {
    OpenExactly(lib, keys, token, c);
    CheckClaimsExactly(lib, c, want, now);
    var opening := Open(lib, keys, token);
    if opening.Valid? {
      CheckClaimsExactly(lib, opening.claims, want, now);
    }
  }

  /** Without any secret, and then without a token, nothing is read. */
  lemma UnreadExactly(lib: Library, keys: Secrets, token: string)
    ensures Open(lib, keys, token) == Invalid(SecretMissing) <==> keys.primary == "" && keys.next == ""
    ensures Open(lib, keys, token) == Invalid(GrantRequired)
       <==> (keys.primary != "" || keys.next != "") && Strip(token) == ""
    ensures Open(lib, keys, token).Invalid? ==>
      Open(lib, keys, token).error in {SecretMissing, GrantRequired, BadSignature}
  {
  }

  /** What may be wrong with claims, in the order of the checks, with the refusal for it. */
  ghost function Objections(lib: Library, c: Claims, want: Expectation, now: real): seq<(bool, Error)>
    requires Expiry(lib, c).Some?
  {
    [(now > Expiry(lib, c).value + CLOCK_SKEW_SECONDS, Expired),
     (want.planHash != "" && want.planHash != Lower(c.planHash), PlanHashMismatch),
     (want.target != "" && want.target != c.target, TargetMismatch),
     (want.artifactSha256 != "" && want.artifactSha256 != Lower(c.artifactSha256), ArtifactMismatch),
     (want.actor != "" && want.actor != c.actor, ActorMismatch),
     (want.intentPack != "" && want.intentPack != c.intentPack, PackMismatch),
     (c.riskClass !in RISK_CLASSES || c.jti == "", BadSignature)]
  }

  /** Claims get the refusal of the first objection that applies. */
  lemma RefusedExactly(lib: Library, c: Claims, want: Expectation, now: real, i: nat)
    requires Expiry(lib, c).Some?
    requires var o := Objections(lib, c, want, now); i < |o| && o[i].0 && forall k | 0 <= k < i :: !o[k].0
    ensures CheckClaims(lib, c, want, now) == Invalid(Objections(lib, c, want, now)[i].1)
  {
    var o := Objections(lib, c, want, now);
    assert i > 0 ==> !o[0].0;
    assert i > 1 ==> !o[1].0;
    assert i > 2 ==> !o[2].0;
    assert i > 3 ==> !o[3].0;
    assert i > 4 ==> !o[4].0;
    assert i > 5 ==> !o[5].0;
  }

  lemma GrantedClaims(lib: Library, keys: Secrets, c: Claims, ttlSeconds: int)
    ensures IssueClaims(lib, keys, c, ttlSeconds).Granted?
       <==> && keys.primary != "" && 0 < ttlSeconds <= 3600
            && c.riskClass in {"read_only", "reversible", "boundary", "governance"}
            && c.runId != "" && c.actor != "" && c.intentPack != "" && c.planHash != "" && c.artifactSha256 != ""
            && c.target != ""
    ensures var issued := IssueClaims(lib, keys, c, ttlSeconds);
      issued.Refused? ==>
        && (issued.error == SecretMissing <==> keys.primary == "")
        && (issued.error == TtlInvalid <==> keys.primary != "" && ttlSeconds <= 0)
        && (issued.error == TtlExceedsMax <==> keys.primary != "" && ttlSeconds > 3600)
  {
  }

  /** Of the blank fields the first is named, once lifetime and risk class are in order. */
  lemma FieldRequiredExactly(lib: Library, keys: Secrets, c: Claims, ttlSeconds: int)
    requires keys.primary != "" && 0 < ttlSeconds <= 3600 && c.riskClass in RISK_CLASSES
    ensures var issued := IssueClaims(lib, keys, c, ttlSeconds);
      && (issued == Refused(FieldRequired("run_id")) <==> c.runId == "")
      && (issued == Refused(FieldRequired("actor")) <==> c.runId != "" && c.actor == "")
      && (issued == Refused(FieldRequired("intent_pack")) <==> c.runId != "" && c.actor != "" && c.intentPack == "")
  {
    assert "run_id"[0] == 'r' && "actor"[0] == 'a' && "intent_pack"[0] == 'i';
    assert "plan_hash"[0] == 'p' && "artifact_sha256"[1] == 'r' && "target"[0] == 't' && "actor"[1] == 'c';
  }

  lemma FieldsOfRequest(lib: Library, r: Request, now: real, random: seq<Byte>) returns (c: Claims)
    ensures c == ClaimsFor(lib, r, now, random)
    ensures c.runId == Strip(r.runId) && c.actor == Strip(r.actor) && c.planHash == Strip(r.planHash)
    ensures c.artifactSha256 == Strip(r.artifactSha256) && c.target == Strip(r.target)
    ensures c.intentPack == Pack(r.intentPack, r.packId, r.packVersion)
    ensures c.riskClass == if r.riskClass == "" then "reversible" else Strip(r.riskClass)
    ensures c.iat == lib.iso(now) && c.expiresAt == lib.iso(now + r.ttlSeconds as real)
    ensures c.jti == if Strip(r.jti) == "" then Base64Url.Encode(random) else Strip(r.jti)
  {
    StripClean(DEFAULT_RISK);
    c := ClaimsFor(lib, r, now, random);
  }

  /**
   * Exactly which requests are granted: within the longest lifetime, with a known risk class and no blank field.
   * The grant is for what was requested, from now on and for as long as asked, under its own identifier if it has one.
   */
  lemma GrantedExactly(lib: Library, keys: Secrets, r: Request, now: real, random: seq<Byte>)
    ensures Issue(lib, keys, r, now, random).Granted?
       <==> && keys.primary != "" && 0 < r.ttlSeconds <= 3600
            && (r.riskClass == "" || Strip(r.riskClass) in {"read_only", "reversible", "boundary", "governance"})
            && Strip(r.runId) != "" && Strip(r.actor) != "" && Pack(r.intentPack, r.packId, r.packVersion) != ""
            && Strip(r.planHash) != "" && Strip(r.artifactSha256) != "" && Strip(r.target) != ""
    ensures var issued := Issue(lib, keys, r, now, random);
      issued.Granted? ==>
        && issued.claims.planHash == Strip(r.planHash) && issued.claims.artifactSha256 == Strip(r.artifactSha256)
        && issued.claims.target == Strip(r.target) && issued.claims.actor == Strip(r.actor)
        && issued.claims.intentPack == Pack(r.intentPack, r.packId, r.packVersion)
        && issued.claims.iat == lib.iso(now) && issued.claims.expiresAt == lib.iso(now + r.ttlSeconds as real)
        && (Strip(r.jti) != "" ==> issued.claims.jti == Strip(r.jti))
  {
    var c := FieldsOfRequest(lib, r, now, random);
    GrantedClaims(lib, keys, c, r.ttlSeconds);
  }

  /** A pack may be named by its identifier and version, or by both in one text. */
  lemma PackSpellings(id: string, version: string)
    requires Strip(id) != "" && Strip(version) != ""
    ensures Pack("", id, version) == Pack(Strip(id) + "@" + Strip(version), "", "") == Strip(id) + "@" + Strip(version)
  {
    var a := StrippedEnds(id);
    var b := StrippedEnds(version);
    StripClean(a + "@" + b);
  }

  lemma StrippedEnds(s: string) returns (r: string)
    ensures r == Strip(s) && (r != "" ==> !IsSpace(r[0]) && !IsSpace(r[|r| - 1]))
  {
    r := Strip(s);
    TrimLeftCuts(s, IsSpace);
    TrimRightCuts(TrimLeft(s, IsSpace), IsSpace);
  }

  /** A token alone fixes the claims it is accepted with, and they have an expiry that has not passed. */
  lemma VerifiedClaims(lib: Library, keys: Secrets, token: string, want: Expectation, now: real, c: Claims)
    requires Verify(lib, keys, token, want, now) == Valid(c)
    ensures Open(lib, keys, token) == Valid(c) && Meets(c, want)
    ensures Expiry(lib, c).Some? && now <= Expiry(lib, c).value + CLOCK_SKEW_SECONDS
  {
    var Valid(held) := Open(lib, keys, token);
    CheckClaimsExactly(lib, held, want, now);
  }

  // ----- verify and consume -----

  function VerdictError(v: Verdict): Error
    requires !v.Accepted?
  {
    if v.Replay? then GrantReplay else BadSignature
  }

  function VerifyAndConsume(
    lib: Library, keys: Secrets, token: string, want: Expectation, now: real, entries: Entries): Verification
  {
    match Verify(lib, keys, token, want, now)
    case Invalid(error) => Invalid(error)
    case Valid(c) =>
      var verdict := Judge(entries, Strip(c.jti), now);
      if verdict.Accepted? then Valid(c) else Invalid(VerdictError(verdict))
  }

  /**
   * What a presentation of a grant that verifies is answered: a replay exactly if the identifier is recorded for a
   * later instant, a bad signature exactly if it is blank, and its claims otherwise.
   */
  lemma ConsumptionAnswers(
    lib: Library, keys: Secrets, token: string, want: Expectation, now: real, entries: Entries, c: Claims)
    requires Verify(lib, keys, token, want, now) == Valid(c)
    ensures var key, answer := Strip(c.jti), VerifyAndConsume(lib, keys, token, want, now, entries);
      && (answer == Invalid(GrantReplay) <==> key != "" && key in entries && now < entries[key])
      && (answer == Invalid(BadSignature) <==> key == "")
      && (answer == Valid(c) <==> key != "" && (key in entries ==> entries[key] <= now))
  {
    JudgedAs(entries, Strip(c.jti), now);
  }

  lemma JudgedAs(entries: Entries, key: string, now: real)
    ensures Judge(entries, key, now)
         == if key == "" then SignatureInvalid else if key in entries && now < entries[key] then Replay else Accepted
  {
  }

  /** What a verify-and-consume asks of the store: nothing, unless the grant verifies. */
  function StoreCall(
    lib: Library, keys: Secrets, token: string, want: Expectation, now: real): Call
  {
    match Verify(lib, keys, token, want, now)
    case Invalid(_) => Idle(now)
    case Valid(c) => Consume(Strip(c.jti), Expiry(lib, c), now)
  }

  method VerifyAndConsumeApplyGrant(
    lib: Library, keys: Secrets, token: string, want: Expectation, now: real, store: MemoryJtiReplayStore)
    returns (r: Verification)
    modifies store
    ensures r == VerifyAndConsume(lib, keys, token, want, now, old(store.entries))
    ensures store.entries == MemoryNext(old(store.entries), StoreCall(lib, keys, token, want, now))
  {
    r := Verify(lib, keys, token, want, now);
    if r.Invalid? {
      return;
    }
    var verdict := store.Consume(r.claims.jti, Expiry(lib, r.claims), now);
    if !verdict.Accepted? {
      r := Invalid(VerdictError(verdict));
    }
  }

  /** One presentation of a token; the expectation may differ from presentation to presentation. */
  datatype Attempt = Attempt(token: string, want: Expectation, now: real)

  function StoreCalls(lib: Library, keys: Secrets, attempts: seq<Attempt>): seq<Call> {
    seq(|attempts|, i requires 0 <= i < |attempts| =>
      StoreCall(lib, keys, attempts[i].token, attempts[i].want, attempts[i].now))
  }

  /** Attempt `i` of a run on this store, in memory or on file, is accepted with these claims. */
  ghost predicate AcceptedAttempt(
    lib: Library, keys: Secrets, store: Store, attempts: seq<Attempt>, i: nat, c: Claims)
  {
    && i < |attempts|
    && VerifyAndConsume(lib, keys, attempts[i].token, attempts[i].want, attempts[i].now,
                        Held(StoreBefore(store, StoreCalls(lib, keys, attempts), i))) == Valid(c)
  }

  lemma AcceptedAttemptCalls(
    lib: Library, keys: Secrets, store: Store, attempts: seq<Attempt>, i: nat, c: Claims)
    requires AcceptedAttempt(lib, keys, store, attempts, i, c)
    ensures var a := attempts[i];
      && AcceptedAt(store, StoreCalls(lib, keys, attempts), i)
      && StoreCalls(lib, keys, attempts)[i] == Consume(Strip(c.jti), Expiry(lib, c), a.now)
      && Open(lib, keys, a.token) == Valid(c)
      && Expiry(lib, c).Some? && a.now <= Expiry(lib, c).value + CLOCK_SKEW_SECONDS
  {
    var a := attempts[i];
    assert Verify(lib, keys, a.token, a.want, a.now) == Valid(c);
    var Valid(held) := Open(lib, keys, a.token);
    CheckClaimsExactly(lib, held, a.want, a.now);
    assert Judge(Held(StoreBefore(store, StoreCalls(lib, keys, attempts), i)), Strip(c.jti), a.now).Accepted?;
  }

  /**
   * Single use despite purging: when two presentations with one identifier are both accepted, however the tokens
   * are spelled and whatever is expected of them, the second is not before the first grant's expiry plus sixty
   * seconds, the very last instant at which that grant verifies.
   */
  lemma AcceptedTwiceOnlyAtTheEnd(
    lib: Library, keys: Secrets, store: Store, attempts: seq<Attempt>, i: nat, j: nat, c: Claims, d: Claims)
    requires forall p, q | 0 <= p <= q < |attempts| :: attempts[p].now <= attempts[q].now
    requires i < j && AcceptedAttempt(lib, keys, store, attempts, i, c)
    requires AcceptedAttempt(lib, keys, store, attempts, j, d)
    requires Strip(c.jti) == Strip(d.jti)
    ensures Expiry(lib, c).Some? && Expiry(lib, d).Some?
    ensures Expiry(lib, c).value + CLOCK_SKEW_SECONDS <= attempts[j].now <= Expiry(lib, d).value + CLOCK_SKEW_SECONDS
  {
    AcceptedAttemptCalls(lib, keys, store, attempts, i, c);
    AcceptedAttemptCalls(lib, keys, store, attempts, j, d);
    OrderedCalls(lib, keys, attempts);
    ConsumedOnceInOrder(store, StoreCalls(lib, keys, attempts), i, j);
  }

  /** One grant: the same identifier with the same expiry. */
  ghost predicate SameGrant(lib: Library, c: Claims, d: Claims) {
    Strip(c.jti) == Strip(d.jti) && Expiry(lib, c) == Expiry(lib, d)
  }

  /** One grant is accepted a second time at that very instant only. */
  lemma SameGrantAcceptedTwice(
    lib: Library, keys: Secrets, store: Store, attempts: seq<Attempt>, i: nat, j: nat, c: Claims, d: Claims)
    requires forall p, q | 0 <= p <= q < |attempts| :: attempts[p].now <= attempts[q].now
    requires i < j && AcceptedAttempt(lib, keys, store, attempts, i, c)
    requires AcceptedAttempt(lib, keys, store, attempts, j, d)
    requires SameGrant(lib, c, d)
    ensures Expiry(lib, c).Some? && attempts[j].now == Expiry(lib, c).value + CLOCK_SKEW_SECONDS
  {
    AcceptedTwiceOnlyAtTheEnd(lib, keys, store, attempts, i, j, c, d);
  }

  lemma OpensAlike(lib: Library, keys: Secrets, token: string, other: string)
    requires Strip(token) == Strip(other)
    ensures Open(lib, keys, token) == Open(lib, keys, other)
  {
  }

  /** White space around a token makes no difference to its verification. */
  lemma RespelledToken(
    lib: Library, keys: Secrets, before: string, token: string, after: string, want: Expectation, now: real)
    requires forall i | 0 <= i < |before| :: IsSpace(before[i])
    requires forall i | 0 <= i < |after| :: IsSpace(after[i])
    ensures Verify(lib, keys, before + token + after, want, now) == Verify(lib, keys, token, want, now)
  {
    StripPadded(before, token, after);
    OpensAlike(lib, keys, before + token + after, token);
  }

  /** So for one token, with or without white space around it. */
  lemma TokenAcceptedTwice(
    lib: Library, keys: Secrets, store: Store, attempts: seq<Attempt>, i: nat, j: nat, c: Claims, d: Claims)
    requires forall p, q | 0 <= p <= q < |attempts| :: attempts[p].now <= attempts[q].now
    requires i < j && AcceptedAttempt(lib, keys, store, attempts, i, c)
    requires AcceptedAttempt(lib, keys, store, attempts, j, d)
    requires Strip(attempts[i].token) == Strip(attempts[j].token)
    ensures c == d && Expiry(lib, c).Some? && attempts[j].now == Expiry(lib, c).value + CLOCK_SKEW_SECONDS
  {
    OpensAlike(lib, keys, attempts[i].token, attempts[j].token);
    AcceptedAttemptCalls(lib, keys, store, attempts, i, c);
    AcceptedAttemptCalls(lib, keys, store, attempts, j, d);
    SameGrantAcceptedTwice(lib, keys, store, attempts, i, j, c, d);
  }

  lemma VerifiedAttemptCalls(lib: Library, keys: Secrets, attempts: seq<Attempt>, i: nat, c: Claims)
    requires i < |attempts| && Verify(lib, keys, attempts[i].token, attempts[i].want, attempts[i].now) == Valid(c)
    ensures StoreCalls(lib, keys, attempts)[i] == Consume(Strip(c.jti), Expiry(lib, c), attempts[i].now)
    ensures Expiry(lib, c).Some? && attempts[i].now <= Expiry(lib, c).value + CLOCK_SKEW_SECONDS
  {
    VerifiedClaims(lib, keys, attempts[i].token, attempts[i].want, attempts[i].now, c);
  }

  /** Whatever verifies with this identifier between `i` and `j` is this grant. */
  ghost predicate NamesOneGrant(lib: Library, keys: Secrets, attempts: seq<Attempt>, c: Claims, i: nat, j: nat) {
    forall m, d | i < m < j && m < |attempts|
      && Verify(lib, keys, attempts[m].token, attempts[m].want, attempts[m].now) == Valid(d)
      && Strip(d.jti) == Strip(c.jti) :: Expiry(lib, d) == Expiry(lib, c)
  }

  lemma OneGrantOneInstant(
    lib: Library, keys: Secrets, store: Store, attempts: seq<Attempt>, i: nat, j: nat, c: Claims)
    requires i < j <= |attempts| && AcceptedAttempt(lib, keys, store, attempts, i, c)
    requires NamesOneGrant(lib, keys, attempts, c, i, j)
    ensures var calls := StoreCalls(lib, keys, attempts);
            calls[i] == Consume(Strip(c.jti), Expiry(lib, c), attempts[i].now) && OneInstant(store, calls, i, j)
    ensures Expiry(lib, c).Some? && AcceptedAt(store, StoreCalls(lib, keys, attempts), i)
  {
    var calls := StoreCalls(lib, keys, attempts);
    AcceptedAttemptCalls(lib, keys, store, attempts, i, c);
    forall m | i < m < j && AcceptedAt(store, calls, m) && calls[m].key == calls[i].key
      ensures Until(calls[m]) == Until(calls[i])
    {
      var v := Verify(lib, keys, attempts[m].token, attempts[m].want, attempts[m].now);
      assert calls[m] == StoreCall(lib, keys, attempts[m].token, attempts[m].want, attempts[m].now);
      VerifiedAttemptCalls(lib, keys, attempts, m, v.claims);
    }
  }

  /**
   * Exactly when a consumed grant is accepted again: in any run with instants in order, a later presentation that
   * verifies is accepted if and only if it comes at the last instant at which it verifies, expiry plus sixty
   * seconds; every presentation at that instant is, however many there were before it.
   */
  lemma AcceptedAgainExactlyAtTheEnd(
    lib: Library, keys: Secrets, store: Store, attempts: seq<Attempt>, i: nat, j: nat, c: Claims, d: Claims)
    requires forall p, q | 0 <= p <= q < |attempts| :: attempts[p].now <= attempts[q].now
    requires i < j < |attempts| && AcceptedAttempt(lib, keys, store, attempts, i, c)
    requires Verify(lib, keys, attempts[j].token, attempts[j].want, attempts[j].now) == Valid(d)
    requires SameGrant(lib, c, d) && NamesOneGrant(lib, keys, attempts, c, i, j)
    ensures Expiry(lib, c).Some?
    ensures AcceptedAttempt(lib, keys, store, attempts, j, d)
       <==> attempts[j].now == Expiry(lib, c).value + CLOCK_SKEW_SECONDS
  {
    var calls := StoreCalls(lib, keys, attempts);
    OneGrantOneInstant(lib, keys, store, attempts, i, j, c);
    VerifiedAttemptCalls(lib, keys, attempts, j, d);
    OrderedCalls(lib, keys, attempts);
    AcceptedAgainWhenDue(store, calls, i, j);
    VerifiedAccepted(lib, keys, store, attempts, j, d);
  }

  lemma OrderedCalls(lib: Library, keys: Secrets, attempts: seq<Attempt>)
    requires forall p, q | 0 <= p <= q < |attempts| :: attempts[p].now <= attempts[q].now
    ensures Monotone(StoreCalls(lib, keys, attempts))
  {
    forall p | 0 <= p < |attempts| ensures StoreCalls(lib, keys, attempts)[p].now == attempts[p].now {
      StoreCallInstant(lib, keys, attempts[p].token, attempts[p].want, attempts[p].now);
    }
  }

  lemma StoreCallInstant(lib: Library, keys: Secrets, token: string, want: Expectation, now: real)
    ensures StoreCall(lib, keys, token, want, now).now == now
  {
  }

  lemma VerifiedAccepted(
    lib: Library, keys: Secrets, store: Store, attempts: seq<Attempt>, j: nat, d: Claims)
    requires j < |attempts|
    requires Verify(lib, keys, attempts[j].token, attempts[j].want, attempts[j].now) == Valid(d)
    requires StoreCalls(lib, keys, attempts)[j] == Consume(Strip(d.jti), Expiry(lib, d), attempts[j].now)
    ensures AcceptedAttempt(lib, keys, store, attempts, j, d)
       <==> AcceptedAt(store, StoreCalls(lib, keys, attempts), j)
  {
  }

  /** At that last instant the second acceptance does happen: the purge has just dropped the entry. */
  lemma AcceptedAgainAtTheEnd(
    lib: Library, keys: Secrets, entries: Entries, token: string, want: Expectation, first: real, c: Claims)
    requires VerifyAndConsume(lib, keys, token, want, first, entries) == Valid(c)
    ensures Expiry(lib, c).Some?
    ensures var last := Expiry(lib, c).value + CLOCK_SKEW_SECONDS;
            var after := MemoryNext(entries, StoreCall(lib, keys, token, want, first));
            VerifyAndConsume(lib, keys, token, want, last, after)
            == Valid(c)
  {
    assert Verify(lib, keys, token, want, first) == Valid(c);
    var Valid(held) := Open(lib, keys, token);
    CheckClaimsExactly(lib, held, want, first);
    var last := Expiry(lib, c).value + CLOCK_SKEW_SECONDS;
    CheckClaimsExactly(lib, c, want, last);
  }
}
