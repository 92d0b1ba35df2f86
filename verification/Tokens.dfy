/** Transaction tokens: creating, verifying and exchanging them. A signature is modelled by
    the key that made it; JSON and JWT encoding are left to their libraries. */
module Tokens {
  import opened Wrappers
  import opened Json
  import opened Jwk
  import opened Keys
  import opened Scope
  import opened Issuance

  const NANOS: int := 1_000_000_000
  const TYPE_HEADER := "txntoken+jwt"
  const ALGORITHM := "RS256"
  const GRANT_TYPE := "urn:ietf:params:oauth:grant-type:token-exchange"
  const TXN_TOKEN_TYPE := "urn:ietf:params:oauth:token-type:txn_token"

  datatype Claims = Claims(
    iss: string, iat: int, exp: int, aud: string, txn: string, sub: string, scope: string, reqWl: string,
    tctx: Option<Object>, rctx: Option<Object>)

  /** A signed token: header fields, the signing key and the claims as JSON. */
  datatype Token = Token(alg: string, typ: string, kid: string, signer: RsaKey, claims: Object)

  // ----- creating -----

  /** Whole seconds since the epoch, rounded down. Times are in nanoseconds. */
  function UnixSeconds(t: int): int { t / NANOS }

  predicate RequiredPresent(c: Claims) {
    c.iss != "" && c.aud != "" && c.sub != "" && c.scope != "" && c.reqWl != ""
  }

  function JwtClaims(c: Claims, txn: string, now: int, lifetime: int): (o: Object)
  {
    var required := map[
      "iss" := String(c.iss), "iat" := Number(UnixSeconds(now) as real),
      "exp" := Number(UnixSeconds(now + lifetime) as real), "aud" := String(c.aud), "txn" := String(txn),
      "sub" := String(c.sub), "scope" := String(c.scope), "req_wl" := String(c.reqWl)];
    var withTctx := if c.tctx.Some? then required["tctx" := Obj(c.tctx.value)] else required;
    if c.rctx.Some? then withTctx["rctx" := Obj(c.rctx.value)] else withTctx
  }

  /** `uuid` is what the generator returns; it is used only where no transaction id is given. */
  function NewToken(c: Claims, signing: KeyEntry, lifetime: int, now: int, uuid: string): Option<Token> {
    if !RequiredPresent(c) then None
    else
      var txn := if c.txn == "" then uuid else c.txn;
      Some(Token(ALGORITHM, TYPE_HEADER, signing.kid, signing.key, JwtClaims(c, txn, now, lifetime)))
  }

  // ----- verifying -----

  function StringAt(o: Object, k: string): string {
    if k in o && o[k].String? then o[k].s else ""
  }

  /** Conversion of a JSON number to an integer, dropping any fraction. */
  function IntAt(o: Object, k: string): int {
    if k in o && o[k].Number? then (if o[k].n >= 0.0 then o[k].n.Floor else -((-o[k].n).Floor)) else 0
  }

  function ObjectAt(o: Object, k: string): Option<Object> {
    if k in o && o[k].Obj? then Some(o[k].fields) else None
  }

  function ExtractClaims(o: Object): Claims {
    Claims(StringAt(o, "iss"), IntAt(o, "iat"), IntAt(o, "exp"), StringAt(o, "aud"), StringAt(o, "txn"),
           StringAt(o, "sub"), StringAt(o, "scope"), StringAt(o, "req_wl"), ObjectAt(o, "tctx"), ObjectAt(o, "rctx"))
  }

  predicate IsRsa(alg: string) { alg == "RS256" || alg == "RS384" || alg == "RS512" }

  /** Section 4.1.4 of RFC 7519: the current time must be before the expiration time. */
  predicate NotExpired(o: Object, now: int) {
    "exp" in o ==> o["exp"].Number? && (now as real) < o["exp"].n * (NANOS as real)
  }

  predicate HasAudience(o: Object, audience: string) {
    && audience != "" && "aud" in o
    && (o["aud"] == String(audience) || (o["aud"].Array? && String(audience) in o["aud"].items))
  }

  /** What a client presents: a well-formed token, or some other string. */
  datatype Presented = TxToken(token: Token) | Opaque(text: string)

  datatype VerifyError = EmptyToken | Rejected | WrongType

  /** The checks on a parsed token, given the key its id resolves to. */
  function VerifyWithKey(key: Option<RsaKey>, audience: string, t: Token, now: int): Result<Claims, VerifyError> {
    if !IsRsa(t.alg) || key != Some(t.signer) || !NotExpired(t.claims, now) || !HasAudience(t.claims, audience) then
      Err(Rejected)
    else if t.typ != TYPE_HEADER then Err(WrongType)
    else Ok(ExtractClaims(t.claims))
  }

  /** The service's own verifier, which resolves ids among its live keys. */
  function Verify(keys: seq<PublicKey>, audience: string, p: Presented, now: int): Result<Claims, VerifyError> {
    match p
    case Opaque(text) => if text == "" then Err(EmptyToken) else Err(Rejected)
    case TxToken(t) =>
      var key := Resolve(keys, t.kid);
      VerifyWithKey(if key.Ok? then Some(key.value) else None, audience, t, now)
  }

  /** The claims written into a token are the claims read out of it, with the times filled in
      and the transaction id chosen. */
  lemma ClaimsRoundTrip(c: Claims, txn: string, now: int, lifetime: int)
    ensures ExtractClaims(JwtClaims(c, txn, now, lifetime)) ==
            c.(txn := txn, iat := UnixSeconds(now), exp := UnixSeconds(now + lifetime))
  {
  }

  /** When a token signed at a time is good: its issue time is that time and its expiry the time plus
      the lifetime, both rounded down to seconds, so every clock up to a second before the end of
      the lifetime accepts it and every clock from its end on rejects it. */
  lemma SignedTimes(c: Claims, signing: KeyEntry, lifetime: int, now: int, uuid: string)
    requires NewToken(c, signing, lifetime, now, uuid).Some?
    ensures var o := NewToken(c, signing, lifetime, now, uuid).value.claims;
            var iat, exp := ExtractClaims(o).iat, ExtractClaims(o).exp;
            && iat * 1_000_000_000 <= now < (iat + 1) * 1_000_000_000
            && exp * 1_000_000_000 <= now + lifetime < (exp + 1) * 1_000_000_000
            && (forall clock: int :: clock <= now + lifetime - 1_000_000_000 ==> NotExpired(o, clock))
            && (forall clock: int :: now + lifetime <= clock ==> !NotExpired(o, clock))
  {
    ClaimsRoundTrip(c, if c.txn == "" then uuid else c.txn, now, lifetime);
    ExpiryIsWritten(c, if c.txn == "" then uuid else c.txn, now, lifetime);
  }

  lemma ExpiryIsWritten(c: Claims, txn: string, now: int, lifetime: int)
    ensures var o := JwtClaims(c, txn, now, lifetime);
            forall clock: int :: NotExpired(o, clock) <==> clock < UnixSeconds(now + lifetime) * NANOS
  {
    var o, exp := JwtClaims(c, txn, now, lifetime), UnixSeconds(now + lifetime);
    assert o["exp"].n == exp as real;
    forall clock: int ensures NotExpired(o, clock) <==> clock < exp * NANOS {
      assert (exp * NANOS) as real == (exp as real) * (NANOS as real);
    }
  }

  /** A verifier reads exactly the RSA-signed, unexpired tokens of its audience and of the right type
      under the key their id resolves to. A token without an expiry never expires. */
  lemma VerifierAcceptsIff(key: Option<RsaKey>, audience: string, t: Token, now: int)
    ensures VerifyWithKey(key, audience, t, now).Ok? <==>
            && t.alg in {"RS256", "RS384", "RS512"} && key == Some(t.signer) && t.typ == "txntoken+jwt"
            && ("exp" in t.claims ==> t.claims["exp"].Number? && now as real < t.claims["exp"].n * 1_000_000_000.0)
            && audience != "" && "aud" in t.claims
            && (t.claims["aud"] == String(audience) || (t.claims["aud"].Array? && String(audience) in t.claims["aud"].items))
  {
  }

  // ----- the token endpoint -----

  /** An optional JSON form field. */
  datatype JsonField = Absent | Malformed | Parsed(obj: Option<Object>)

  datatype Form = Form(
    post: bool, grantType: string, subjectToken: Presented, subjectTokenType: string,
    requestedTokenType: string, scope: string, details: JsonField, context: JsonField)

  datatype Headers = Headers(workload: string, bearer: bool)

  datatype Config = Config(issuer: string, trustDomain: string, lifetime: int, hasVerifier: bool)

  datatype ServeError =
    | MethodNotAllowed | InvalidRequest | InvalidToken | PolicyDenied(denial: Denial)
    | NotConfigured | InvalidScope | ServerError

  function IdentifyWorkload(h: Headers): (w: string)
    ensures w != ""
  {
    if h.workload != "" then h.workload else if h.bearer then "authenticated-workload" else "unknown"
  }

  predicate WellFormed(f: Form) {
    && f.grantType == GRANT_TYPE && f.subjectToken != Opaque("") && f.subjectTokenType != ""
    && f.requestedTokenType == TXN_TOKEN_TYPE && f.scope != "" && !f.details.Malformed? && !f.context.Malformed?
  }

  function FieldObject(j: JsonField): Option<Object> { if j.Parsed? then j.obj else None }

  /** Replacement: verify the presented token, check the scope, keep txn, sub, tctx and rctx. */
  function AdmitReplacement(cfg: Config, ks: KeyState, f: Form, h: Headers, now: int): Result<Claims, ServeError> {
    if !cfg.hasVerifier then Err(NotConfigured)
    else
      var existing := Verify(PublicKeys(ks), cfg.trustDomain, f.subjectToken, now);
      if existing.Err? then Err(InvalidToken)
      else if !Covers(existing.value.scope, f.scope) then Err(InvalidScope)
      else
        var c := existing.value;
        Ok(Claims(cfg.issuer, 0, 0, cfg.trustDomain, c.txn, c.sub, f.scope, IdentifyWorkload(h), c.tctx, c.rctx))
  }

  /** Exchange: `subject` is the authenticators' answer for the subject token. The workload
      namespace given to the rules is always empty here. */
  function AdmitExchange(cfg: Config, cel: Cel, rules: seq<CompiledRule>, f: Form, h: Headers, subject: Option<string>): Result<Claims, ServeError> {
    if subject.None? then Err(InvalidToken)
    else
      var tctx, rctx := FieldObject(f.details), FieldObject(f.context);
      var denial := FirstDenial(cel, rules, IssuanceContext(subject.value, f.scope, tctx, rctx, IdentifyWorkload(h), ""));
      if denial.Some? then Err(PolicyDenied(denial.value))
      else Ok(Claims(cfg.issuer, 0, 0, cfg.trustDomain, "", subject.value, f.scope, IdentifyWorkload(h), tctx, rctx))
  }

  predicate IsReplacement(f: Form) { f.subjectTokenType == TXN_TOKEN_TYPE }

  /** A request up to the point where its token is signed: the claims to sign, or an error. */
  function Admit(cfg: Config, cel: Cel, rules: seq<CompiledRule>, ks: KeyState, f: Form, h: Headers,
                 subject: Option<string>, now: int): Result<Claims, ServeError>
  {
    if !f.post then Err(MethodNotAllowed)
    else if !WellFormed(f) then Err(InvalidRequest)
    else if IsReplacement(f) then AdmitReplacement(cfg, ks, f, h, now)
    else AdmitExchange(cfg, cel, rules, f, h, subject)
  }

  /** Signing with the manager's current key. */
  function Sign(cfg: Config, ks: KeyState, c: Claims, now: int, uuid: string): Result<Token, ServeError> {
    var t := NewToken(c, ks.current, cfg.lifetime, now, uuid);
    if t.None? then Err(ServerError) else Ok(t.value)
  }

  /** A whole request, admitted at `now` with the keys `ks` and signed at `signed` with the keys
      `later`: the clock moves and keys may rotate in between. */
  function Serve(cfg: Config, cel: Cel, rules: seq<CompiledRule>, ks: KeyState, f: Form, h: Headers,
                 subject: Option<string>, now: int, later: KeyState, signed: int, uuid: string): Result<Token, ServeError>
  {
    match Admit(cfg, cel, rules, ks, f, h, subject, now)
    case Err(e) => Err(e)
    case Ok(c) => Sign(cfg, later, c, signed, uuid)
  }
}
