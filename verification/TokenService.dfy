/** The token service as its clients see it: when a request succeeds, how it is refused, what the
    token carries and how long it is honoured. */
module TokenService {
  import opened Wrappers
  import opened Keys
  import opened Scope
  import opened Issuance
  import opened Tokens
  import opened TokenRuns
  import opened Jwk
  import Json

  /** The identifiers of the protocol. */
  lemma Identifiers()
    ensures GRANT_TYPE == "urn:ietf:params:oauth:grant-type:token-exchange"
    ensures TXN_TOKEN_TYPE == "urn:ietf:params:oauth:token-type:txn_token"
    ensures TYPE_HEADER == "txntoken+jwt" && ALGORITHM == "RS256"
  {
  }

  /** The form conditions of the token endpoint, field by field. */
  predicate ValidForm(f: Form) {
    && f.grantType == GRANT_TYPE && f.subjectToken != Opaque("") && f.subjectTokenType != ""
    && f.requestedTokenType == TXN_TOKEN_TYPE && f.scope != ""
    && f.details != Malformed && f.context != Malformed
  }

  /** What the token carries of an optional JSON field: nothing when it is absent, and what was parsed
      otherwise. */
  predicate Carries(j: JsonField, o: Option<Json.Object>) {
    (j == Absent ==> o == None) && (j.Parsed? ==> o == j.obj)
  }

  /** The requesting workload: the workload header when there is one, else a placeholder that only
      tells whether there was a bearer token. */
  predicate NamesWorkload(h: Headers, w: string) {
    && (h.workload != "" ==> w == h.workload)
    && (h.workload == "" && h.bearer ==> w == "authenticated-workload")
    && (h.workload == "" && !h.bearer ==> w == "unknown")
  }

  /** The context the issuance rules see for an exchange. */
  predicate ContextFor(f: Form, h: Headers, subject: string, ctx: IssuanceContext) {
    && ctx.subject == subject && ctx.scope == f.scope && Carries(f.details, ctx.tctx) && Carries(f.context, ctx.rctx)
    && NamesWorkload(h, ctx.workload) && ctx.workloadNs == ""
  }

  /** The claims of an exchanged token. */
  predicate ExchangeClaims(cfg: Config, f: Form, h: Headers, subject: string, uuid: string, c: Claims) {
    && c.iss == cfg.issuer && c.aud == cfg.trustDomain && c.txn == uuid && c.sub == subject && c.scope == f.scope
    && NamesWorkload(h, c.reqWl) && Carries(f.details, c.tctx) && Carries(f.context, c.rctx)
  }

  /** The times of a token signed at a time. */
  predicate TimesFor(cfg: Config, signed: int, c: Claims) {
    && c.iat * 1_000_000_000 <= signed < (c.iat + 1) * 1_000_000_000
    && c.exp * 1_000_000_000 <= signed + cfg.lifetime < (c.exp + 1) * 1_000_000_000
  }

  function ContextOfExchange(f: Form, h: Headers, subject: string): (ctx: IssuanceContext)
    requires ValidForm(f)
    ensures ContextFor(f, h, subject, ctx)
  {
    IssuanceContext(subject, f.scope, FieldObject(f.details), FieldObject(f.context), IdentifyWorkload(h), "")
  }

  /** An exchange succeeds exactly for a valid form, posted, whose subject is authenticated, whose
      issuance rules all pass in the context of the request and for which issuer, trust domain and
      subject are known; the token then carries the request's claims under the fresh transaction id. */
  lemma ExchangeIff(cfg: Config, cel: Cel, rules: seq<CompiledRule>, ks: KeyState, f: Form, h: Headers, subject: Option<string>, now: int,
                    later: KeyState, signed: int, uuid: string)
    requires f.subjectTokenType != TXN_TOKEN_TYPE
    ensures var r := Serve(cfg, cel, rules, ks, f, h, subject, now, later, signed, uuid);
            && (r.Ok? <==>
                && f.post && ValidForm(f) && subject.Some? && subject.value != "" && cfg.issuer != "" && cfg.trustDomain != ""
                && forall i, ctx :: 0 <= i < |rules| && ContextFor(f, h, subject.value, ctx) ==> Passes(cel, rules[i], ctx))
            && (r.Ok? ==>
                var c := ExtractClaims(r.value.claims);
                Stamped(cfg, later.current, r.value, signed) && ExchangeClaims(cfg, f, h, subject.value, uuid, c) && TimesFor(cfg, signed, c))
  {
    if f.post && ValidForm(f) && subject.Some? {
      assert ContextFor(f, h, subject.value, ContextOfExchange(f, h, subject.value));
      assert forall ctx :: ContextFor(f, h, subject.value, ctx) ==> ctx == ContextOfExchange(f, h, subject.value);
    }
    var admitted := Admit(cfg, cel, rules, ks, f, h, subject, now);
    if admitted.Ok? && Sign(cfg, later, admitted.value, signed, uuid).Ok? {
      SignedToken(cfg, later, admitted.value, signed, uuid);
      SignedTimes(admitted.value, later.current, cfg.lifetime, signed, uuid);
    }
  }

  /** How an exchange is refused: the first condition that fails decides. */
  lemma ExchangeRefusals(cfg: Config, cel: Cel, rules: seq<CompiledRule>, ks: KeyState, f: Form, h: Headers, subject: Option<string>, now: int,
                         later: KeyState, signed: int, uuid: string)
    requires f.subjectTokenType != TXN_TOKEN_TYPE
    ensures var r := Serve(cfg, cel, rules, ks, f, h, subject, now, later, signed, uuid);
            && (!f.post ==> r == Err(MethodNotAllowed))
            && (f.post && !ValidForm(f) ==> r == Err(InvalidRequest))
            && (f.post && ValidForm(f) && subject.None? ==> r == Err(InvalidToken))
            && (f.post && ValidForm(f) && subject.Some? ==>
                  var denial := FirstDenial(cel, rules, ContextOfExchange(f, h, subject.value));
                  var incomplete := subject.value == "" || cfg.issuer == "" || cfg.trustDomain == "";
                  && (denial.Some? ==> r == Err(PolicyDenied(denial.value)))
                  && (denial.None? && incomplete ==> r == Err(ServerError)))
  {
  }

  /** A replacement is admitted exactly for a current token and no word beyond its scope. */
  lemma AdmitReplacementIff(cfg: Config, s: State, f: Form, h: Headers, now: int)
    requires Inv(cfg, s) && cfg.hasVerifier && f.subjectToken.TxToken? && Genuine(s, f.subjectToken.token)
    ensures var p := IndexOfToken(s.issued, f.subjectToken.token);
            var r := AdmitReplacement(cfg, StateAfter(s.entries), f, h, now);
            && (r.Ok? <==> p < |s.issued| && Current(s, p, f.subjectToken.token, now) && Covers(s.issued[p].claims.scope, f.scope))
            && (p < |s.issued| && Current(s, p, f.subjectToken.token, now) && !Covers(s.issued[p].claims.scope, f.scope) ==> r == Err(InvalidScope))
            && (!(p < |s.issued| && Current(s, p, f.subjectToken.token, now)) ==> r == Err(InvalidToken))
  {
    VerifyIff(cfg, s, f.subjectToken.token, now);
  }

  lemma SignSucceeds(cfg: Config, s: State, p: nat, c: Claims, later: KeyState, signed: int, uuid: string)
    requires Inv(cfg, s) && p < |s.issued| && c.iss == cfg.issuer && c.aud == cfg.trustDomain
    requires c.sub == s.issued[p].claims.sub && c.scope != "" && c.reqWl != ""
    ensures Sign(cfg, later, c, signed, uuid).Ok?
  {
    assert WellSigned(cfg, s, s.issued[p]);
  }

  /** The form presents one of the service's current tokens and asks for no word beyond its scope. */
  predicate Presents(s: State, f: Form, now: int) {
    && f.subjectToken.TxToken?
    && var p := IndexOfToken(s.issued, f.subjectToken.token);
    p < |s.issued| && Current(s, p, f.subjectToken.token, now) && Covers(s.issued[p].claims.scope, f.scope)
  }

  /** The claims of a token that replaces another. */
  predicate ReplacementClaims(cfg: Config, f: Form, h: Headers, parent: Claims, c: Claims) {
    && c.iss == cfg.issuer && c.aud == cfg.trustDomain && c.scope == f.scope && NamesWorkload(h, c.reqWl)
    && c.txn == parent.txn && c.sub == parent.sub && c.tctx == parent.tctx && c.rctx == parent.rctx
  }

  /** After any run, a replacement succeeds exactly for a valid form, posted to a service with a
      verifier, that presents one of the service's current tokens and asks for no word beyond its
      scope; issuance rules have no say, and a rotation before signing does no harm. The new token
      carries the old one's txn, sub, tctx and rctx, the requested scope, the requesting workload and
      fresh times. */
  lemma ReplacementIff(cfg: Config, cel: Cel, first: KeyEntry, run: seq<Step>, f: Form, h: Headers, subject: Option<string>, now: int,
                       later: KeyState, signed: int, uuid: string)
    requires Usable(first) && f.subjectTokenType == TXN_TOKEN_TYPE
    requires f.subjectToken.TxToken? ==> Genuine(After(cfg, cel, first, run), f.subjectToken.token)
    ensures var s := After(cfg, cel, first, run);
            var r := Serve(cfg, cel, s.rules, StateAfter(s.entries), f, h, subject, now, later, signed, uuid);
            && (r.Ok? <==> f.post && ValidForm(f) && cfg.hasVerifier && Presents(s, f, now))
            && (r.Ok? ==>
                && Stamped(cfg, later.current, r.value, signed) && TimesFor(cfg, signed, ExtractClaims(r.value.claims))
                && ReplacementClaims(cfg, f, h, s.issued[IndexOfToken(s.issued, f.subjectToken.token)].claims, ExtractClaims(r.value.claims)))
  {
    RunKeepsInv(cfg, cel, first, run);
    ReplacementAt(cfg, cel, After(cfg, cel, first, run), f, h, subject, now, later, signed, uuid);
  }

  lemma ReplacementAt(cfg: Config, cel: Cel, s: State, f: Form, h: Headers, subject: Option<string>, now: int, later: KeyState, signed: int, uuid: string)
    requires Inv(cfg, s) && f.subjectTokenType == TXN_TOKEN_TYPE && (f.subjectToken.TxToken? ==> Genuine(s, f.subjectToken.token))
    ensures var r := Serve(cfg, cel, s.rules, StateAfter(s.entries), f, h, subject, now, later, signed, uuid);
            && (r.Ok? <==> f.post && ValidForm(f) && cfg.hasVerifier && Presents(s, f, now))
            && (r.Ok? ==>
                && Stamped(cfg, later.current, r.value, signed) && TimesFor(cfg, signed, ExtractClaims(r.value.claims))
                && ReplacementClaims(cfg, f, h, s.issued[IndexOfToken(s.issued, f.subjectToken.token)].claims, ExtractClaims(r.value.claims)))
  {
    ServeReplacement(cfg, cel, s.rules, StateAfter(s.entries), f, h, subject, now, later, signed, uuid);
    if f.post && ValidForm(f) && cfg.hasVerifier && f.subjectToken.TxToken? {
      AdmitReplacementIff(cfg, s, f, h, now);
      if AdmitReplacement(cfg, StateAfter(s.entries), f, h, now).Ok? {
        ReplacedToken(cfg, s, f, h, now, later, signed, uuid);
      }
    }
  }

  /** A replacement request step by step: form, admission, signing. */
  lemma ServeReplacement(cfg: Config, cel: Cel, rules: seq<CompiledRule>, ks: KeyState, f: Form, h: Headers, subject: Option<string>, now: int,
                         later: KeyState, signed: int, uuid: string)
    requires f.subjectTokenType == TXN_TOKEN_TYPE
    ensures var r, admitted := Serve(cfg, cel, rules, ks, f, h, subject, now, later, signed, uuid), AdmitReplacement(cfg, ks, f, h, now);
            && (r.Ok? ==> f.post && ValidForm(f) && cfg.hasVerifier && f.subjectToken.TxToken? && admitted.Ok?)
            && (f.post && ValidForm(f) && admitted.Ok? ==> r == Sign(cfg, later, admitted.value, signed, uuid))
  {
  }

  /** What an admitted replacement is signed into. */
  lemma ReplacedToken(cfg: Config, s: State, f: Form, h: Headers, now: int, later: KeyState, signed: int, uuid: string)
    requires Inv(cfg, s) && f.subjectToken.TxToken? && Genuine(s, f.subjectToken.token) && f.scope != ""
    requires AdmitReplacement(cfg, StateAfter(s.entries), f, h, now).Ok?
    ensures var r := Sign(cfg, later, AdmitReplacement(cfg, StateAfter(s.entries), f, h, now).value, signed, uuid);
            && IndexOfToken(s.issued, f.subjectToken.token) < |s.issued| && r.Ok?
            && Stamped(cfg, later.current, r.value, signed) && TimesFor(cfg, signed, ExtractClaims(r.value.claims))
            && ReplacementClaims(cfg, f, h, s.issued[IndexOfToken(s.issued, f.subjectToken.token)].claims, ExtractClaims(r.value.claims))
  {
    var c := AdmitReplacement(cfg, StateAfter(s.entries), f, h, now).value;
    ReplacedFrom(cfg, s, f, h, now);
    SignSucceeds(cfg, s, IndexOfToken(s.issued, f.subjectToken.token), c, later, signed, uuid);
    SignedToken(cfg, later, c, signed, uuid);
    SignedTimes(c, later.current, cfg.lifetime, signed, uuid);
  }

  /** How a replacement is refused after any run: the first condition that fails decides. */
  lemma ReplacementRefusals(cfg: Config, cel: Cel, first: KeyEntry, run: seq<Step>, f: Form, h: Headers, subject: Option<string>, now: int,
                            later: KeyState, signed: int, uuid: string)
    requires Usable(first) && f.subjectTokenType == TXN_TOKEN_TYPE
    requires f.subjectToken.TxToken? ==> Genuine(After(cfg, cel, first, run), f.subjectToken.token)
    ensures var s := After(cfg, cel, first, run);
            var r := Serve(cfg, cel, s.rules, StateAfter(s.entries), f, h, subject, now, later, signed, uuid);
            var p := if f.subjectToken.TxToken? then IndexOfToken(s.issued, f.subjectToken.token) else |s.issued|;
            var current := p < |s.issued| && Current(s, p, s.issued[p].token, now);
            && (!f.post ==> r == Err(MethodNotAllowed))
            && (f.post && !ValidForm(f) ==> r == Err(InvalidRequest))
            && (f.post && ValidForm(f) && !cfg.hasVerifier ==> r == Err(NotConfigured))
            && (f.post && ValidForm(f) && cfg.hasVerifier && !current ==> r == Err(InvalidToken))
            && (f.post && ValidForm(f) && cfg.hasVerifier && current && !Covers(s.issued[p].claims.scope, f.scope) ==> r == Err(InvalidScope))
  {
    var s := After(cfg, cel, first, run);
    RunKeepsInv(cfg, cel, first, run);
    if cfg.hasVerifier && f.subjectToken.TxToken? { AdmitReplacementIff(cfg, s, f, h, now); }
  }

  // ----- tokens are honoured -----

  lemma AfterAppend(cfg: Config, cel: Cel, first: KeyEntry, run: seq<Step>, step: Step)
    ensures After(cfg, cel, first, run + [step]) == Next(cfg, cel, After(cfg, cel, first, run), step)
  {
    assert (run + [step])[..|run|] == run;
  }

  lemma StepGrows(cfg: Config, cel: Cel, s: State, step: Step)
    requires s.entries != []
    ensures s.entries <= Next(cfg, cel, s, step).entries && s.issued <= Next(cfg, cel, s, step).issued
  {
  }

  /** What has been generated and issued stays. */
  lemma {:induction false} RunGrows(cfg: Config, cel: Cel, first: KeyEntry, run: seq<Step>, more: seq<Step>)
    ensures var s, s' := After(cfg, cel, first, run), After(cfg, cel, first, run + more);
            s.entries <= s'.entries && s.issued <= s'.issued
    decreases more
  {
    if more == [] {
      assert run + more == run;
    } else {
      var front, last := more[..|more| - 1], more[|more| - 1];
      RunGrows(cfg, cel, first, run, front);
      AfterAppend(cfg, cel, first, run + front, last);
      StepGrows(cfg, cel, After(cfg, cel, first, run + front), last);
      assert run + more == run + front + [last];
    }
  }

  /** No step signs the request. */
  predicate Leaves(steps: seq<Step>, id: nat) {
    forall i :: 0 <= i < |steps| ==> !(steps[i].Signing? && steps[i].id == id)
  }

  /** An admitted request waits until it is signed. */
  lemma {:induction false} WorkWaits(cfg: Config, cel: Cel, first: KeyEntry, run: seq<Step>, more: seq<Step>, id: nat)
    requires id in After(cfg, cel, first, run).work && Leaves(more, id)
    ensures var s, s' := After(cfg, cel, first, run), After(cfg, cel, first, run + more);
            id in s'.work && s'.work[id] == s.work[id]
    decreases more
  {
    if more == [] {
      assert run + more == run;
    } else {
      var front, last := more[..|more| - 1], more[|more| - 1];
      WorkWaits(cfg, cel, first, run, front, id);
      AfterAppend(cfg, cel, first, run + front, last);
      WorkStays(cfg, cel, After(cfg, cel, first, run + front), last, id);
      assert run + more == run + front + [last];
    }
  }

  lemma WorkStays(cfg: Config, cel: Cel, s: State, step: Step, id: nat)
    requires s.entries != [] && id in s.work && !(step.Signing? && step.id == id)
    ensures var s' := Next(cfg, cel, s, step); id in s'.work && s'.work[id] == s.work[id]
  {
  }

  /** An entry was issued with these claims, by this request's signing. */
  predicate IssuedWith(s: State, n: nat, c: Claims, signed: int) {
    n < |s.issued| && s.issued[n].claims == c && s.issued[n].at == signed
  }

  lemma SigningIssues(cfg: Config, cel: Cel, s: State, id: nat, signed: int, uuid: string)
    requires s.entries != [] && id in s.work && uuid != "" && uuid !in s.uuids
    requires Sign(cfg, StateAfter(s.entries), s.work[id].claims, signed, uuid).Ok?
    ensures var s' := Next(cfg, cel, s, Signing(id, signed, uuid));
            var t := Sign(cfg, StateAfter(s.entries), s.work[id].claims, signed, uuid).value;
            && IssuedWith(s', |s.issued|, ExtractClaims(t.claims), signed)
            && s'.issued[|s.issued|].token == t && s'.issued[|s.issued|].epoch == |s.entries| - 1 && s'.entries == s.entries
  {
  }

  /** After any run, an entry that was issued is accepted exactly before its expiry and while at most
      one rotation has followed its signing. */
  lemma EntryIsHonoured(cfg: Config, cel: Cel, first: KeyEntry, run: seq<Step>, n: nat, clock: int)
    requires Usable(first) && n < |After(cfg, cel, first, run).issued|
    ensures var s := After(cfg, cel, first, run);
            var verdict := Verify(PublicKeys(StateAfter(s.entries)), cfg.trustDomain, TxToken(s.issued[n].token), clock);
            && (verdict.Ok? <==> |s.entries| - 1 - s.issued[n].epoch <= 1 && clock < s.issued[n].claims.exp * 1_000_000_000)
            && (verdict.Ok? ==> verdict.value == s.issued[n].claims)
  {
    var s := After(cfg, cel, first, run);
    RunKeepsInv(cfg, cel, first, run);
    var t := s.issued[n].token;
    assert Genuine(s, t);
    VerifyIff(cfg, s, t, clock);
    SameEpoch(cfg, s, n, IndexOfToken(s.issued, t));
    assert WellSigned(cfg, s, s.issued[n]) && WellSigned(cfg, s, s.issued[IndexOfToken(s.issued, t)]);
  }

  /** The n-th token was signed at a time, and the service honours it: while at most one rotation has
      followed the keys it was signed under, every clock up to a second before the end of its lifetime
      accepts it with its claims; every clock from the end of its lifetime on rejects it, and after two
      rotations every clock does. */
  ghost predicate Honoured(cfg: Config, s: State, keys: nat, n: nat, signed: int, clock: int)
    requires s.entries != []
  {
    && n < |s.issued| && s.issued[n].at == signed && TimesFor(cfg, signed, s.issued[n].claims)
    && var verdict := Verify(PublicKeys(StateAfter(s.entries)), cfg.trustDomain, TxToken(s.issued[n].token), clock);
    && (|s.entries| <= keys + 1 && clock <= signed + cfg.lifetime - 1_000_000_000 ==> verdict == Ok(s.issued[n].claims))
    && (signed + cfg.lifetime <= clock || |s.entries| > keys + 1 ==> verdict.Err?)
  }

  /** An admitted request whose claims are complete is signed and honoured, whatever happens between its
      admission and its signing and afterwards. */
  lemma WorkIsHonoured(cfg: Config, cel: Cel, first: KeyEntry, run: seq<Step>, id: nat, mid: seq<Step>, signed: int, uuid: string,
                       more: seq<Step>, clock: int)
    requires Usable(first) && id in After(cfg, cel, first, run).work && Leaves(mid, id)
    requires var c := After(cfg, cel, first, run).work[id].claims;
             RequiredPresent(c) && c.iss == cfg.issuer && c.aud == cfg.trustDomain
    requires uuid != "" && uuid !in After(cfg, cel, first, run + mid).uuids
    ensures var before, s := After(cfg, cel, first, run + mid), After(cfg, cel, first, run + mid + [Signing(id, signed, uuid)] + more);
            var c := After(cfg, cel, first, run).work[id].claims;
            && Honoured(cfg, s, |before.entries|, |before.issued|, signed, clock)
            && var got := s.issued[|before.issued|].claims;
            got == c.(txn := if c.txn == "" then uuid else c.txn, iat := got.iat, exp := got.exp)
  {
    WorkWaits(cfg, cel, first, run, mid, id);
    var before := After(cfg, cel, first, run + mid);
    var c := before.work[id].claims;
    SignedToken(cfg, StateAfter(before.entries), c, signed, uuid);
    SignedTimes(c, StateAfter(before.entries).current, cfg.lifetime, signed, uuid);
    SigningIssues(cfg, cel, before, id, signed, uuid);
    AfterAppend(cfg, cel, first, run + mid, Signing(id, signed, uuid));
    var signing := run + mid + [Signing(id, signed, uuid)];
    RunGrows(cfg, cel, first, signing, more);
    EntryIsHonoured(cfg, cel, first, signing + more, |before.issued|, clock);
  }

  /** Whatever happens between admission and signing and afterwards, a valid exchange whose rules pass
      yields a token with the request's claims, and the service honours it. */
  lemma ExchangeIsHonoured(cfg: Config, cel: Cel, first: KeyEntry, run: seq<Step>, id: nat, f: Form, h: Headers, subject: string, now: int,
                           mid: seq<Step>, signed: int, uuid: string, more: seq<Step>, clock: int)
    requires Usable(first) && f.post && ValidForm(f) && f.subjectTokenType != TXN_TOKEN_TYPE
    requires subject != "" && cfg.issuer != "" && cfg.trustDomain != ""
    requires var s := After(cfg, cel, first, run);
             && id !in s.work && (f.subjectToken.TxToken? ==> Genuine(s, f.subjectToken.token))
             && forall i :: 0 <= i < |s.rules| ==> Passes(cel, s.rules[i], ContextOfExchange(f, h, subject))
    requires Leaves(mid, id) && uuid != "" && uuid !in After(cfg, cel, first, run + [Admitting(id, f, h, Some(subject), now)] + mid).uuids
    ensures var before := After(cfg, cel, first, run + [Admitting(id, f, h, Some(subject), now)] + mid);
            var s := After(cfg, cel, first, run + [Admitting(id, f, h, Some(subject), now)] + mid + [Signing(id, signed, uuid)] + more);
            && Honoured(cfg, s, |before.entries|, |before.issued|, signed, clock)
            && ExchangeClaims(cfg, f, h, subject, uuid, s.issued[|before.issued|].claims)
  {
    var step := Admitting(id, f, h, Some(subject), now);
    AfterAppend(cfg, cel, first, run, step);
    WorkIsHonoured(cfg, cel, first, run + [step], id, mid, signed, uuid, more, clock);
  }

  lemma ReplacementAdmitted(cfg: Config, cel: Cel, s: State, id: nat, f: Form, h: Headers, subject: Option<string>, now: int)
    requires Inv(cfg, s) && f.post && ValidForm(f) && f.subjectTokenType == TXN_TOKEN_TYPE && cfg.hasVerifier && id !in s.work
    requires Presents(s, f, now) && Genuine(s, f.subjectToken.token)
    ensures var s' := Next(cfg, cel, s, Admitting(id, f, h, subject, now));
            var parent := s.issued[IndexOfToken(s.issued, f.subjectToken.token)].claims;
            && id in s'.work && RequiredPresent(s'.work[id].claims) && s'.work[id].claims.txn != ""
            && ReplacementClaims(cfg, f, h, parent, s'.work[id].claims)
  {
    AdmitReplacementIff(cfg, s, f, h, now);
    ReplacedFrom(cfg, s, f, h, now);
    ParentIsComplete(cfg, s, IndexOfToken(s.issued, f.subjectToken.token));
    AdmittedWork(cfg, cel, s, id, f, h, subject, now);
  }

  lemma ParentIsComplete(cfg: Config, s: State, p: nat)
    requires Inv(cfg, s) && p < |s.issued|
    ensures s.issued[p].claims.sub != "" && cfg.issuer != "" && cfg.trustDomain != ""
  {
    assert WellSigned(cfg, s, s.issued[p]);
  }

  /** A replacement that is admitted is what waits to be signed. */
  lemma AdmittedWork(cfg: Config, cel: Cel, s: State, id: nat, f: Form, h: Headers, subject: Option<string>, now: int)
    requires s.entries != [] && f.post && ValidForm(f) && f.subjectTokenType == TXN_TOKEN_TYPE && id !in s.work
    requires f.subjectToken.TxToken? ==> Genuine(s, f.subjectToken.token)
    requires AdmitReplacement(cfg, StateAfter(s.entries), f, h, now).Ok?
    ensures var s' := Next(cfg, cel, s, Admitting(id, f, h, subject, now));
            id in s'.work && s'.work[id].claims == AdmitReplacement(cfg, StateAfter(s.entries), f, h, now).value
  {
  }

  /** The same for a valid replacement: the new token continues the presented one and is honoured for a
      lifetime of its own, even if the presented token expires or its key is rotated away meanwhile. */
  lemma ReplacementIsHonoured(cfg: Config, cel: Cel, first: KeyEntry, run: seq<Step>, id: nat, f: Form, h: Headers, subject: Option<string>, now: int,
                              mid: seq<Step>, signed: int, uuid: string, more: seq<Step>, clock: int)
    requires Usable(first) && f.post && ValidForm(f) && f.subjectTokenType == TXN_TOKEN_TYPE && cfg.hasVerifier
    requires var s := After(cfg, cel, first, run);
             id !in s.work && Presents(s, f, now) && Genuine(s, f.subjectToken.token)
    requires Leaves(mid, id) && uuid != "" && uuid !in After(cfg, cel, first, run + [Admitting(id, f, h, subject, now)] + mid).uuids
    ensures var start := After(cfg, cel, first, run);
            var before := After(cfg, cel, first, run + [Admitting(id, f, h, subject, now)] + mid);
            var s := After(cfg, cel, first, run + [Admitting(id, f, h, subject, now)] + mid + [Signing(id, signed, uuid)] + more);
            && Honoured(cfg, s, |before.entries|, |before.issued|, signed, clock)
            && ReplacementClaims(cfg, f, h, start.issued[IndexOfToken(start.issued, f.subjectToken.token)].claims, s.issued[|before.issued|].claims)
  {
    var step := Admitting(id, f, h, subject, now);
    RunKeepsInv(cfg, cel, first, run);
    ReplacementAdmitted(cfg, cel, After(cfg, cel, first, run), id, f, h, subject, now);
    AfterAppend(cfg, cel, first, run, step);
    WorkIsHonoured(cfg, cel, first, run + [step], id, mid, signed, uuid, more, clock);
  }

  /** A token of the service is good for its own trust domain only. */
  lemma OtherAudiencesReject(cfg: Config, cel: Cel, first: KeyEntry, run: seq<Step>, n: nat, key: Option<RsaKey>, audience: string, clock: int)
    requires Usable(first) && n < |After(cfg, cel, first, run).issued| && audience != cfg.trustDomain
    ensures VerifyWithKey(key, audience, After(cfg, cel, first, run).issued[n].token, clock).Err?
  {
    RunKeepsInv(cfg, cel, first, run);
    assert WellSigned(cfg, After(cfg, cel, first, run), After(cfg, cel, first, run).issued[n]);
  }

  /** No step replaces the issuance rules. */
  predicate KeepsRules(steps: seq<Step>) { forall i :: 0 <= i < |steps| ==> !steps[i].SetRules? }

  /** The rules last set stay in force, whatever else happens. */
  lemma {:induction false} LastRulesStay(cfg: Config, cel: Cel, first: KeyEntry, run: seq<Step>, rules: seq<CompiledRule>, more: seq<Step>)
    requires KeepsRules(more)
    ensures After(cfg, cel, first, run + [SetRules(rules)] + more).rules == rules
    decreases more
  {
    if more == [] {
      assert run + [SetRules(rules)] + more == run + [SetRules(rules)];
      AfterAppend(cfg, cel, first, run, SetRules(rules));
    } else {
      var front, last := more[..|more| - 1], more[|more| - 1];
      LastRulesStay(cfg, cel, first, run, rules, front);
      AfterAppend(cfg, cel, first, run + [SetRules(rules)] + front, last);
      RulesStay(cfg, cel, After(cfg, cel, first, run + [SetRules(rules)] + front), last);
      assert run + [SetRules(rules)] + more == run + [SetRules(rules)] + front + [last];
    }
  }

  lemma RulesStay(cfg: Config, cel: Cel, s: State, step: Step)
    requires s.entries != [] && !step.SetRules?
    ensures Next(cfg, cel, s, step).rules == s.rules
  {
  }

  /** An exchange that one of the rules last set does not let pass is never admitted. */
  lemma DeniedIsNotAdmitted(cfg: Config, cel: Cel, first: KeyEntry, run: seq<Step>, rules: seq<CompiledRule>, more: seq<Step>,
                            id: nat, f: Form, h: Headers, subject: string, now: int, i: nat)
    requires KeepsRules(more) && f.subjectTokenType != TXN_TOKEN_TYPE && ValidForm(f)
    requires i < |rules| && !Passes(cel, rules[i], ContextOfExchange(f, h, subject))
    requires id !in After(cfg, cel, first, run + [SetRules(rules)] + more).work
    ensures var all := run + [SetRules(rules)] + more + [Admitting(id, f, h, Some(subject), now)];
            After(cfg, cel, first, all) == After(cfg, cel, first, run + [SetRules(rules)] + more)
  {
    LastRulesStay(cfg, cel, first, run, rules, more);
    AfterAppend(cfg, cel, first, run + [SetRules(rules)] + more, Admitting(id, f, h, Some(subject), now));
  }
}
