/** Auto-narrowing of token scopes. */
module Narrowing {
  import opened Wrappers
  import opened Rules
  import opened RuleList
  import opened Sorting
  import opened Text
  import opened Scope
  import opened Keys
  import opened Issuance
  import opened Tokens
  import opened CelVerify
  import opened ExtAuth
  import TokenRuns
  import TokenService

  /** A rule asks for a narrower token. */
  predicate Wants(r: VerificationRule, scope: string) {
    r.autoNarrow && r.requiredScope != "" && scope != r.requiredScope && Broader(scope, r.requiredScope)
  }

  /** The first rule that asks for a narrower token. */
  function Trigger(sets: seq<RuleSet>, scope: string): (r: Option<VerificationRule>)
  {
    if sets == [] then None
    else if Wants(sets[0].rule, scope) then Some(sets[0].rule)
    else Trigger(sets[1..], scope)
  }

  /** The triggering rule asks for a narrower token, and no rule before it does. */
  lemma {:induction false} TriggerWants(sets: seq<RuleSet>, scope: string) returns (i: nat)
    requires Trigger(sets, scope).Some?
    ensures i < |sets| && sets[i].rule == Trigger(sets, scope).value && Wants(sets[i].rule, scope)
    ensures forall j :: 0 <= j < i ==> !Wants(sets[j].rule, scope)
  {
    if Wants(sets[0].rule, scope) {
      i := 0;
    } else {
      var k := TriggerWants(sets[1..], scope);
      i := k + 1;
      assert forall j :: 1 <= j < i ==> sets[j] == sets[1..][j - 1];
    }
  }

  /** A triggering rule is found whenever some rule asks for a narrower token. */
  lemma {:induction false} TriggerFound(sets: seq<RuleSet>, scope: string, i: nat)
    requires i < |sets| && Wants(sets[i].rule, scope)
    ensures Trigger(sets, scope).Some?
  {
    if i > 0 { TriggerFound(sets[1..], scope, i - 1); }
  }

  /** Under a stored list the scope asked for is that of the least rule, by namespace and name, that
      wants narrowing, and one is asked for exactly when some rule does. */
  lemma LeastRuleTriggers(env: Env, m: map<RuleKey, VerificationRule>, flat: seq<VerificationRule>, scope: string)
    requires Enumerates(VerificationKey, m, flat)
    ensures var r := Trigger(Stored(env, flat), scope);
            && (r.Some? <==> exists x :: x in flat && Wants(x, scope))
            && (r.Some? ==> r.value in flat && Wants(r.value, scope) && NarrowTo(Stored(env, flat), scope) == Some(r.value.requiredScope)
                            && forall x :: x in flat && Wants(x, scope) && x != r.value ==> RuleKeyLess(VerificationKey(r.value), VerificationKey(x)))
  {
    StoredTriggers(env, flat, scope);
    if Trigger(Stored(env, flat), scope).Some? {
      var i := TriggerWants(Stored(env, flat), scope);
      forall x | x in flat && Wants(x, scope) && x != Trigger(Stored(env, flat), scope).value
        ensures RuleKeyLess(VerificationKey(Trigger(Stored(env, flat), scope).value), VerificationKey(x))
      {
        TriggerIsLeast(env, m, flat, scope, x);
      }
    }
  }

  lemma TriggerIsLeast(env: Env, m: map<RuleKey, VerificationRule>, flat: seq<VerificationRule>, scope: string, x: VerificationRule)
    requires Enumerates(VerificationKey, m, flat) && x in flat && Wants(x, scope)
    requires Trigger(Stored(env, flat), scope).Some? && x != Trigger(Stored(env, flat), scope).value
    ensures RuleKeyLess(VerificationKey(Trigger(Stored(env, flat), scope).value), VerificationKey(x))
  {
    var sets, sorted := Stored(env, flat), Sort(VerificationKey, RuleKeyLess, flat);
    var i := TriggerWants(sets, scope);
    StoredMembers(flat, x);
    var j :| 0 <= j < |sorted| && sorted[j] == x;
    assert sorted[i] == sets[i].rule && sets[j].rule == x && i < j;
    SortedStrictly(m, flat);
  }

  lemma SortedStrictly(m: map<RuleKey, VerificationRule>, flat: seq<VerificationRule>)
    requires Enumerates(VerificationKey, m, flat)
    ensures StrictlySorted(VerificationKey, RuleKeyLess, Sort(VerificationKey, RuleKeyLess, flat))
  {
    RuleKeyOrder();
    SortIsSorted(VerificationKey, RuleKeyLess, flat);
    SortIsCanonical(VerificationKey, RuleKeyLess, m, flat, Sort(VerificationKey, RuleKeyLess, flat), flat);
  }

  /** A stored list triggers narrowing exactly when some rule of the pushed list wants it. */
  lemma StoredTriggers(env: Env, rules: seq<VerificationRule>, scope: string)
    ensures Trigger(Stored(env, rules), scope).Some? <==> exists x :: x in rules && Wants(x, scope)
    ensures Trigger(Stored(env, rules), scope).Some? ==> Trigger(Stored(env, rules), scope).value in rules
  {
    var sets, sorted := Stored(env, rules), Sort(VerificationKey, RuleKeyLess, rules);
    if Trigger(sets, scope).Some? {
      var i := TriggerWants(sets, scope);
      StoredMembers(rules, sorted[i]);
    }
    if x :| x in rules && Wants(x, scope) {
      StoredMembers(rules, x);
      var j :| 0 <= j < |sorted| && sorted[j] == x;
      TriggerFound(sets, scope, j);
    }
  }

  /** The scope requested for the replacement. */
  function NarrowTo(sets: seq<RuleSet>, scope: string): (target: Option<string>) {
    var r := Trigger(sets, scope);
    if r.Some? then Some(r.value.requiredScope) else None
  }

  /** The loop over rules, up to the exchange it triggers. */
  method AutoNarrow(hasClient: bool, sets: seq<RuleSet>, scope: string) returns (target: Option<string>)
    ensures target == if hasClient then NarrowTo(sets, scope) else None
  {
    if !hasClient {
      return None;
    }
    var i := 0;
    while i < |sets|
      invariant 0 <= i <= |sets| && Trigger(sets, scope) == Trigger(sets[i..], scope)
    {
      var rule := sets[i].rule;
      assert sets[i..][0] == sets[i] && sets[i..][1..] == sets[i + 1..];
      if rule.autoNarrow && rule.requiredScope != "" && scope != rule.requiredScope {
        var broader := ScopeIsBroader(scope, rule.requiredScope);
        if broader {
          return Some(rule.requiredScope);
        }
      }
      i := i + 1;
    }
    assert sets[|sets|..] == [];
    return None;
  }

  /** The exchange request the adapter sends. */
  function NarrowForm(t: Token, scope: string): Form {
    Form(true, GRANT_TYPE, TxToken(t), TXN_TOKEN_TYPE, TXN_TOKEN_TYPE, scope, Absent, Absent)
  }

  /** After any run of the token service, every auto-narrow request for a token the service
      still accepts succeeds, whatever the rules in force: the new token has the requested
      scope, strictly fewer words, and the old token's txn, sub, tctx and rctx. */
  lemma NarrowingSucceeds(cfg: Config, cel: Cel, first: KeyEntry, run: seq<TokenRuns.Step>, t: Token, sets: seq<RuleSet>,
                          h: Headers, subject: Option<string>, now: int, later: KeyState, signed: int, uuid: string)
    requires Usable(first) && cfg.hasVerifier
    requires var s := TokenRuns.After(cfg, cel, first, run);
             var verdict := Verify(PublicKeys(StateAfter(s.entries)), cfg.trustDomain, TxToken(t), now);
             TokenRuns.Genuine(s, t) && verdict.Ok? && NarrowTo(sets, verdict.value.scope).Some?
    ensures var s := TokenRuns.After(cfg, cel, first, run);
            var c := Verify(PublicKeys(StateAfter(s.entries)), cfg.trustDomain, TxToken(t), now).value;
            var scope := NarrowTo(sets, c.scope).value;
            var r := Serve(cfg, cel, s.rules, StateAfter(s.entries), NarrowForm(t, scope), h, subject, now, later, signed, uuid);
            && r.Ok?
            && var c' := ExtractClaims(r.value.claims);
            && c'.scope == scope && |Fields(c'.scope)| < |Fields(c.scope)| && Covers(c.scope, c'.scope)
            && c'.txn == c.txn && c'.sub == c.sub && c'.tctx == c.tctx && c'.rctx == c.rctx
  {
    var s := TokenRuns.After(cfg, cel, first, run);
    TokenRuns.RunKeepsInv(cfg, cel, first, run);
    TokenRuns.VerifyIff(cfg, s, t, now);
    var c := s.issued[TokenRuns.IndexOfToken(s.issued, t)].claims;
    var i := TriggerWants(sets, c.scope);
    TokenService.ReplacementIff(cfg, cel, first, run, NarrowForm(t, NarrowTo(sets, c.scope).value), h, subject, now, later, signed, uuid);
  }

  /** Some rule set narrows one scope to the other. */
  ghost predicate Narrows(scope: string, target: string) {
    exists sets: seq<RuleSet> :: NarrowTo(sets, scope) == Some(target)
  }

  ghost predicate NarrowingChain(scopes: seq<string>) {
    scopes != [] && forall k :: 0 < k < |scopes| ==> Narrows(scopes[k - 1], scopes[k])
  }

  /** A chain of auto-narrowings loses at least one word per link, so it is no longer than the
      first scope has words. */
  lemma {:induction false} NarrowingChainIsShort(scopes: seq<string>)
    requires NarrowingChain(scopes)
    ensures |scopes| - 1 + |Fields(scopes[|scopes| - 1])| <= |Fields(scopes[0])|
    ensures forall k :: 0 <= k < |scopes| ==> Covers(scopes[0], scopes[k])
  {
    var n := |scopes| - 1;
    if n > 0 {
      NarrowingChainIsShort(scopes[..n]);
      assert Narrows(scopes[n - 1], scopes[n]);
      var sets: seq<RuleSet> :| NarrowTo(sets, scopes[n - 1]) == Some(scopes[n]);
      var i := TriggerWants(sets, scopes[n - 1]);
      CoversTransitive(scopes[0], scopes[n - 1], scopes[n]);
      assert forall k :: 0 <= k < n ==> scopes[..n][k] == scopes[k];
    }
  }

  /** A narrowed scope satisfies the rule that asked for it exactly when the rule's scope is a
      single word. */
  lemma NarrowedMeetsItsRuleIff(scope: string)
    ensures Contains(scope, scope) <==> IsWord(scope)
  {
    FieldsOfWord(scope);
  }

  // ----- the narrowed token under the rules that led to it -----

  predicate FieldsPresent(r: VerificationRule, c: Claims) {
    forall i :: 0 <= i < |r.requiredTctxFields| ==> HasField(c, r.requiredTctxFields[i])
  }

  predicate ExpressionsHold(env: Env, r: VerificationRule, c: Claims, req: HttpRequest) {
    forall i :: 0 <= i < |r.celRules| && CelVerify.Compilable(env.cel, r.celRules[i]) ==>
      env.cel.eval(r.celRules[i].cel, ContextOf(c, req)) == CelVerify.Holds
  }

  /** Some expression of the rule compiles. */
  predicate HasExpression(compiles: string -> bool, r: VerificationRule) {
    exists i :: 0 <= i < |r.celRules| && r.celRules[i].cel != "" && compiles(r.celRules[i].cel)
  }

  /** What a replacement with the rule's scope keeps; its times and requesting workload are new. */
  predicate NarrowedBy(r: VerificationRule, c: Claims, c': Claims) {
    c'.scope == r.requiredScope && c'.txn == c.txn && c'.sub == c.sub && c'.tctx == c.tctx && c'.rctx == c.rctx
  }

  /** A rule that the claims meet is met by the narrowed claims exactly when the rule's
      expressions hold for them: scope and context fields carry over. */
  lemma NarrowedMeetsIff(env: Env, r: VerificationRule, c: Claims, c': Claims, req: HttpRequest)
    requires Wants(r, c.scope) && NarrowedBy(r, c, c') && MeetsRule(env, r, c, req)
    ensures MeetsRule(env, r, c', req) <==> ExpressionsHold(env, r, c', req)
  {
    FieldsOfWord(r.requiredScope);
    assert IsWord(r.requiredScope);
  }

  function WithEval(compiles: string -> bool, fold: char -> char, eval: (string, RequestContext) -> Outcome): Env {
    Env(VerifierCel(compiles, eval), fold)
  }

  /** Meeting the rule carries over to the narrowed claims. */
  ghost predicate CarriesOver(env: Env, r: VerificationRule, c: Claims, c': Claims, req: HttpRequest) {
    MeetsRule(env, r, c, req) ==> MeetsRule(env, r, c', req)
  }

  /** An expression can read the scope. Whatever expressions evaluate to, a token that meets the
      rule that narrows it still meets the rule afterwards exactly when the rule has no
      compiling expression, or could not be met in the first place: its scope is not a single
      word or a required field is missing. */
  lemma NarrowingKeepsRuleIff(compiles: string -> bool, fold: char -> char, r: VerificationRule, c: Claims, c': Claims, req: HttpRequest)
    requires Wants(r, c.scope) && NarrowedBy(r, c, c')
    ensures (forall eval: (string, RequestContext) -> Outcome :: CarriesOver(WithEval(compiles, fold, eval), r, c, c', req))
            <==>
            !HasExpression(compiles, r) || !IsWord(r.requiredScope) || !FieldsPresent(r, c)
  {
    FieldsOfWord(r.requiredScope);
    if !HasExpression(compiles, r) || !IsWord(r.requiredScope) || !FieldsPresent(r, c) {
      forall eval: (string, RequestContext) -> Outcome ensures CarriesOver(WithEval(compiles, fold, eval), r, c, c', req) {
        var env := WithEval(compiles, fold, eval);
        if MeetsRule(env, r, c, req) { NarrowedMeetsIff(env, r, c, c', req); }
      }
    } else {
      var eval := (e: string, ctx: RequestContext) => if ctx.claims.scope == c.scope then CelVerify.Holds else CelVerify.Fails;
      ScopeReadingRule(WithEval(compiles, fold, eval), r, c, c', req);
      assert !CarriesOver(WithEval(compiles, fold, eval), r, c, c', req);
    }
  }

  /** Expressions that accept only the old scope. */
  lemma ScopeReadingRule(env: Env, r: VerificationRule, c: Claims, c': Claims, req: HttpRequest)
    requires Wants(r, c.scope) && NarrowedBy(r, c, c') && HasExpression(env.cel.compiles, r) && IsWord(r.requiredScope) && FieldsPresent(r, c)
    requires forall e, ctx :: env.cel.eval(e, ctx) == if ctx.claims.scope == c.scope then CelVerify.Holds else CelVerify.Fails
    ensures MeetsRule(env, r, c, req) && !MeetsRule(env, r, c', req)
  {
    FieldsOfWord(r.requiredScope);
    assert Contains(c.scope, r.requiredScope) by { assert Fields(r.requiredScope)[0] in Fields(c.scope); }
    var i :| 0 <= i < |r.celRules| && r.celRules[i].cel != "" && env.cel.compiles(r.celRules[i].cel);
    assert CelVerify.Compilable(env.cel, r.celRules[i]);
  }

  /** After any run of the token service, under one rule list: the token that an auto-narrowing
      returns for a token that passed the list meets the rule that asked for it exactly when
      that rule's expressions hold for the new claims, and it does so whatever expressions
      evaluate to exactly when that rule has none that compiles. */
  lemma NarrowedUnderOneSnapshot(cfg: Config, cel: Cel, first: KeyEntry, run: seq<TokenRuns.Step>, t: Token, env: Env, rules: seq<VerificationRule>,
                                 req: HttpRequest, h: Headers, subject: Option<string>, now: int, later: KeyState, signed: int, uuid: string)
    requires Usable(first) && cfg.hasVerifier
    requires var s := TokenRuns.After(cfg, cel, first, run);
             var verdict := Verify(PublicKeys(StateAfter(s.entries)), cfg.trustDomain, TxToken(t), now);
             && TokenRuns.Genuine(s, t) && verdict.Ok? && Trigger(Stored(env, rules), verdict.value.scope).Some?
             && FirstFailure(env, Stored(env, rules), verdict.value, req).None?
    ensures var s := TokenRuns.After(cfg, cel, first, run);
            var c := Verify(PublicKeys(StateAfter(s.entries)), cfg.trustDomain, TxToken(t), now).value;
            var r := Trigger(Stored(env, rules), c.scope).value;
            var token := Serve(cfg, cel, s.rules, StateAfter(s.entries), NarrowForm(t, r.requiredScope), h, subject, now, later, signed, uuid);
            && r in rules && token.Ok?
            && var c' := ExtractClaims(token.value.claims);
            && (MeetsRule(env, r, c', req) <==> ExpressionsHold(env, r, c', req))
            && ((forall eval: (string, RequestContext) -> Outcome :: CarriesOver(WithEval(env.cel.compiles, env.fold, eval), r, c, c', req))
                <==> !HasExpression(env.cel.compiles, r))
  {
    var s := TokenRuns.After(cfg, cel, first, run);
    var c := Verify(PublicKeys(StateAfter(s.entries)), cfg.trustDomain, TxToken(t), now).value;
    var r := Trigger(Stored(env, rules), c.scope).value;
    NarrowingSucceeds(cfg, cel, first, run, t, Stored(env, rules), h, subject, now, later, signed, uuid);
    var token := Serve(cfg, cel, s.rules, StateAfter(s.entries), NarrowForm(t, r.requiredScope), h, subject, now, later, signed, uuid);
    TriggerIsMet(env, rules, c, req);
    NarrowedMeetsIff(env, r, c, ExtractClaims(token.value.claims), req);
    NarrowingKeepsRuleIff(env.cel.compiles, env.fold, r, c, ExtractClaims(token.value.claims), req);
  }

  lemma TriggerIsMet(env: Env, rules: seq<VerificationRule>, c: Claims, req: HttpRequest)
    requires Trigger(Stored(env, rules), c.scope).Some? && FirstFailure(env, Stored(env, rules), c, req).None?
    ensures var r := Trigger(Stored(env, rules), c.scope).value;
            r in rules && Wants(r, c.scope) && MeetsRule(env, r, c, req) && IsWord(r.requiredScope) && FieldsPresent(r, c)
  {
    var sets := Stored(env, rules);
    var r := Trigger(sets, c.scope).value;
    var i := TriggerWants(sets, c.scope);
    StoredMembers(rules, r);
    StoredEnforces(env, rules, c, req);
    assert IsWord(r.requiredScope) by { assert r.requiredScope in Fields(c.scope); }
  }

  /** A narrowed token has the scopes all rules of a list require exactly when no rule requires
      another scope than the one asked for. */
  lemma NarrowedScopesIff(env: Env, rules: seq<VerificationRule>, c: Claims, c': Claims, req: HttpRequest)
    requires Trigger(Stored(env, rules), c.scope).Some? && FirstFailure(env, Stored(env, rules), c, req).None?
    requires c'.scope == Trigger(Stored(env, rules), c.scope).value.requiredScope
    ensures (forall r :: r in rules ==> ScopeOk(r, c')) <==> (forall r :: r in rules ==> r.requiredScope == "" || r.requiredScope == c'.scope)
  {
    TriggerIsMet(env, rules, c, req);
    FieldsOfWord(c'.scope);
    assert Fields(c'.scope) == [c'.scope];
    assert forall r: VerificationRule :: ScopeOk(r, c') <==> r.requiredScope == "" || r.requiredScope == c'.scope;
  }
}
