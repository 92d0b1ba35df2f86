/** The ext-auth verification server: its rule snapshot and the checks of one request. */
module ExtAuth {
  import opened Wrappers
  import opened Rules
  import opened RuleList
  import opened Sorting
  import opened Text
  import opened Scope
  import opened Tokens
  import opened CelVerify

  /** Library behaviour the server relies on: CEL, and the representative of a character
      under Unicode case folding. */
  datatype Env = Env(cel: VerifierCel, fold: char -> char)

  /** A verification rule with its compiled programs. */
  datatype RuleSet = RuleSet(rule: VerificationRule, programs: seq<Program>)

  datatype HttpRequest = HttpRequest(path: string, verb: string, headers: map<string, string>)

  // ----- storing rules -----

  function Bundle(env: Env, r: VerificationRule): RuleSet { RuleSet(r, Programs(env.cel, r.celRules)) }

  function Bundles(env: Env, rules: seq<VerificationRule>): seq<RuleSet> {
    seq(|rules|, i requires 0 <= i < |rules| => Bundle(env, rules[i]))
  }

  /** What the server stores for a pushed rule list. */
  function Stored(env: Env, rules: seq<VerificationRule>): seq<RuleSet> {
    Bundles(env, Sort(VerificationKey, RuleKeyLess, rules))
  }

  class Server {
    var verificationRules: Option<seq<RuleSet>>

    constructor ()
      ensures verificationRules == None
    {
      verificationRules := None;
    }

    /** Sorts a copy, compiles every rule and swaps the snapshot. */
    method SetVerificationRules(env: Env, rules: seq<VerificationRule>)
      modifies this
      ensures verificationRules == Some(Stored(env, rules))
    {
      var sorted := Sort(VerificationKey, RuleKeyLess, rules);
      var snapshot: seq<RuleSet> := [];
      for i := 0 to |sorted|
        invariant snapshot == Bundles(env, sorted[..i])
      {
        var programs := CompileVerificationRuleCel(env.cel, sorted[i]);
        snapshot := snapshot + [RuleSet(sorted[i], programs)];
      }
      assert sorted[..|sorted|] == sorted;
      verificationRules := Some(snapshot);
    }
  }

  /** Any two orders in which a map's entries are pushed store the same snapshot. */
  lemma StoredIsCanonical(env: Env, m: map<RuleKey, VerificationRule>, flat: seq<VerificationRule>, flat': seq<VerificationRule>)
    requires Enumerates(VerificationKey, m, flat) && Enumerates(VerificationKey, m, flat')
    ensures Stored(env, flat) == Stored(env, flat')
  {
    RuleKeyOrder();
    SortIsSorted(VerificationKey, RuleKeyLess, flat);
    SortIsCanonical(VerificationKey, RuleKeyLess, m, flat, Sort(VerificationKey, RuleKeyLess, flat), flat');
  }

  lemma StoredMembers(rules: seq<VerificationRule>, r: VerificationRule)
    ensures r in Sort(VerificationKey, RuleKeyLess, rules) <==> r in rules
  {
    RuleKeyOrder();
    SortIsSorted(VerificationKey, RuleKeyLess, rules);
    assert r in multiset(Sort(VerificationKey, RuleKeyLess, rules)) <==> r in multiset(rules);
  }

  // ----- excluded endpoints -----

  function StripQuery(path: string): string { path[..IndexOf(path, '?')] }

  /** The pattern itself, or anything below it. */
  predicate MatchPath(path: string, pattern: string) {
    StripQuery(path) == pattern || HasPrefix(StripQuery(path), pattern + "/")
  }

  /** The segments of a path, or of a pattern. */
  function Segments(path: string): seq<string> { Split(path, '/') }

  /** A pattern matches exactly the paths whose segments start with the pattern's segments. */
  lemma MatchPathIff(path: string, pattern: string)
    ensures MatchPath(path, pattern) <==> Segments(pattern) <= Segments(StripQuery(path))
  {
    PartsExtendIff(StripQuery(path), pattern, '/');
    SamePartsIff(StripQuery(path), pattern, '/');
  }

  /** An empty pattern matches the empty path and every path that starts with a slash. */
  lemma EmptyPatternMatchesIff(path: string)
    ensures MatchPath(path, "") <==> StripQuery(path) == "" || HasPrefix(path, "/")
  {
    var s := StripQuery(path);
    assert "" + "/" == "/";
    if s == "" && path != "" {
      assert path[0] == '?';
    } else if path != "" {
      assert s[0] == path[0];
    }
  }

  /** The matching the comment on the code describes: the pattern itself, or below it when the
      pattern ends in a slash and a star. */
  predicate MatchesAsDocumented(path: string, pattern: string) {
    if HasSuffix(pattern, "/*") then HasPrefix(StripQuery(path), pattern[..|pattern| - 1])
    else StripQuery(path) == pattern
  }

  /** Code and comment agree on a request exactly when, for a pattern that ends in a star, the
      path is not below the rest of the pattern or goes on with a literal star, and for any
      other pattern the path is not below the pattern. */
  lemma MatchesAsDocumentedIff(path: string, pattern: string)
    ensures var segments := Segments(StripQuery(path));
            (MatchPath(path, pattern) <==> MatchesAsDocumented(path, pattern)) <==>
            if HasSuffix(pattern, "/*") then
              var base := Segments(pattern[..|pattern| - 2]);
              !(base < segments) || segments[|base|] == "*"
            else !(Segments(pattern) < segments)
  {
    var s := StripQuery(path);
    MatchPathIff(path, pattern);
    if HasSuffix(pattern, "/*") {
      var base := pattern[..|pattern| - 2];
      assert pattern == base + ['/'] + "*" && pattern[..|pattern| - 1] == base + ['/'];
      SplitConcat(base, '/', "*");
      assert Segments("*") == ["*"];
      PartsExtendIff(s, base, '/');
      StarFollows(Segments(base), Segments(s));
    } else {
      PartsExtendIff(s, pattern, '/');
      SamePartsIff(s, pattern, '/');
    }
  }

  lemma StarFollows(base: seq<string>, segments: seq<string>)
    ensures base + ["*"] <= segments <==> base < segments && segments[|base|] == "*"
  {
    if base < segments && segments[|base|] == "*" {
      assert (base + ["*"])[..|base|] == base;
    }
    if base + ["*"] <= segments {
      assert segments[|base|] == (base + ["*"])[|base|];
    }
  }

  /** A star is not a wildcard, and a pattern without one matches below itself. */
  lemma StarIsNoWildcard(base: string)
    requires Free(base, '?')
    ensures !MatchPath(base + "/x", base + "/*") && MatchesAsDocumented(base + "/x", base + "/*")
    ensures !HasSuffix(base, "/*") ==> MatchPath(base + "/x", base) && !MatchesAsDocumented(base + "/x", base)
  {
    var path := base + "/x";
    assert Free(path, '?');
    IndexOfFree(path, '?');
    assert StripQuery(path) == path;
    assert path[..|base| + 1] == base + "/" && (base + "/*")[..|base| + 1] == base + "/";
    assert (base + "/*")[|base| + 1] == '*' && path[|base| + 1] == 'x';
    assert HasSuffix(base + "/*", "/*");
  }

  /** Code and comment agree on all requests exactly for patterns with a question mark, which
      match nothing. */
  lemma DocumentedPatternIff(pattern: string)
    ensures (forall path :: MatchPath(path, pattern) <==> MatchesAsDocumented(path, pattern)) <==> !Free(pattern, '?')
  {
    if Free(pattern, '?') {
      var base := if HasSuffix(pattern, "/*") then pattern[..|pattern| - 2] else pattern;
      StarIsNoWildcard(base);
      assert HasSuffix(pattern, "/*") ==> pattern == base + "/*";
      var path := base + "/x";
      assert MatchPath(path, pattern) != MatchesAsDocumented(path, pattern);
    } else {
      forall path ensures !MatchPath(path, pattern) && !MatchesAsDocumented(path, pattern) { QueryNeverMatches(path, pattern); }
    }
  }

  lemma QueryNeverMatches(path: string, pattern: string)
    requires !Free(pattern, '?')
    ensures !MatchPath(path, pattern) && !MatchesAsDocumented(path, pattern)
  {
    var i :| 0 <= i < |pattern| && pattern[i] == '?';
    assert Free(StripQuery(path), '?');
    assert (pattern + "/")[i] == '?';
    if HasSuffix(pattern, "/*") {
      assert pattern[|pattern| - 2..][1] == '*';
      assert pattern[..|pattern| - 1][i] == '?';
    }
  }

  predicate EqualFold(env: Env, a: string, b: string) {
    |a| == |b| && forall i :: 0 <= i < |a| ==> env.fold(a[i]) == env.fold(b[i])
  }

  predicate EndpointMatches(env: Env, ep: EndpointSpec, req: HttpRequest) {
    MatchPath(req.path, ep.path) && EqualFold(env, req.verb, ep.verb)
  }

  predicate RuleExcludes(env: Env, r: VerificationRule, req: HttpRequest) {
    exists i :: 0 <= i < |r.excludedEndpoints| && EndpointMatches(env, r.excludedEndpoints[i], req)
  }

  predicate Excluded(env: Env, sets: seq<RuleSet>, req: HttpRequest) {
    exists i :: 0 <= i < |sets| && RuleExcludes(env, sets[i].rule, req)
  }

  method IsExcluded(env: Env, sets: seq<RuleSet>, req: HttpRequest) returns (yes: bool)
    ensures yes == Excluded(env, sets, req)
  {
    for i := 0 to |sets|
      invariant forall k :: 0 <= k < i ==> !RuleExcludes(env, sets[k].rule, req)
    {
      var eps := sets[i].rule.excludedEndpoints;
      for j := 0 to |eps|
        invariant forall k :: 0 <= k < j ==> !EndpointMatches(env, eps[k], req)
      {
        if MatchPath(req.path, eps[j].path) && EqualFold(env, req.verb, eps[j].verb) {
          assert EndpointMatches(env, eps[j], req);
          assert RuleExcludes(env, sets[i].rule, req);
          return true;
        }
      }
    }
    return false;
  }

  // ----- checking rules -----

  datatype Failure =
    | ScopeMissing(rule: string) | TctxAbsent(field: string, rule: string) | TctxMissing(field: string, rule: string)
    | CelDenial(denial: Denial)

  predicate ScopeOk(r: VerificationRule, c: Claims) { r.requiredScope == "" || Contains(c.scope, r.requiredScope) }

  predicate HasField(c: Claims, field: string) { c.tctx.Some? && field in c.tctx.value }

  function FieldFailure(c: Claims, fields: seq<string>, rule: string): (f: Option<Failure>)
    ensures f.None? <==> forall i :: 0 <= i < |fields| ==> HasField(c, fields[i])
  {
    if fields == [] then None
    else if c.tctx.None? then Some(TctxAbsent(fields[0], rule))
    else if fields[0] !in c.tctx.value then Some(TctxMissing(fields[0], rule))
    else FieldFailure(c, fields[1..], rule)
  }

  function ContextOf(c: Claims, req: HttpRequest): RequestContext { RequestContext(c, req.path, req.verb, req.headers) }

  /** The first requirement of one rule that the claims do not meet. */
  function RuleFailure(env: Env, s: RuleSet, c: Claims, req: HttpRequest): (f: Option<Failure>) {
    if !ScopeOk(s.rule, c) then Some(ScopeMissing(s.rule.name))
    else
      var field := FieldFailure(c, s.rule.requiredTctxFields, s.rule.name);
      if field.Some? then field
      else
        var d := FirstDenial(env.cel, s.programs, ContextOf(c, req));
        if d.Some? then Some(CelDenial(d.value)) else None
  }

  /** The failure of the first rule that is not met. */
  function FirstFailure(env: Env, sets: seq<RuleSet>, c: Claims, req: HttpRequest): (f: Option<Failure>)
    ensures f.None? <==> forall i :: 0 <= i < |sets| ==> RuleFailure(env, sets[i], c, req).None?
  {
    if sets == [] then None
    else if RuleFailure(env, sets[0], c, req).Some? then RuleFailure(env, sets[0], c, req)
    else FirstFailure(env, sets[1..], c, req)
  }

  method CheckVerificationRules(env: Env, sets: seq<RuleSet>, c: Claims, req: HttpRequest) returns (f: Option<Failure>)
    ensures f == FirstFailure(env, sets, c, req)
  {
    var i := 0;
    while i < |sets|
      invariant 0 <= i <= |sets| && FirstFailure(env, sets, c, req) == FirstFailure(env, sets[i..], c, req)
    {
      var rs := sets[i];
      assert sets[i..][0] == rs && sets[i..][1..] == sets[i + 1..];
      if rs.rule.requiredScope != "" {
        var ok := ScopeContains(c.scope, rs.rule.requiredScope);
        if !ok {
          return Some(ScopeMissing(rs.rule.name));
        }
      }
      var missing := CheckFields(c, rs.rule.requiredTctxFields, rs.rule.name);
      if missing.Some? {
        return missing;
      }
      var d := Evaluate(env.cel, rs.programs, ContextOf(c, req));
      if d.Some? {
        return Some(CelDenial(d.value));
      }
      i := i + 1;
    }
    assert sets[|sets|..] == [];
    return None;
  }

  method CheckFields(c: Claims, fields: seq<string>, rule: string) returns (f: Option<Failure>)
    ensures f == FieldFailure(c, fields, rule)
  {
    var i := 0;
    while i < |fields|
      invariant 0 <= i <= |fields| && FieldFailure(c, fields, rule) == FieldFailure(c, fields[i..], rule)
    {
      assert fields[i..][0] == fields[i] && fields[i..][1..] == fields[i + 1..];
      if c.tctx.None? {
        return Some(TctxAbsent(fields[i], rule));
      }
      if fields[i] !in c.tctx.value {
        return Some(TctxMissing(fields[i], rule));
      }
      i := i + 1;
    }
    assert fields[|fields|..] == [];
    return None;
  }

  // ----- what a rule list demands, said without order or compilation -----

  /** The claims meet a rule: scope, context fields, and every expression that compiles. */
  predicate MeetsRule(env: Env, r: VerificationRule, c: Claims, req: HttpRequest) {
    && ScopeOk(r, c)
    && (forall i :: 0 <= i < |r.requiredTctxFields| ==> HasField(c, r.requiredTctxFields[i]))
    && (forall i :: 0 <= i < |r.celRules| && Compilable(env.cel, r.celRules[i]) ==>
          env.cel.eval(r.celRules[i].cel, ContextOf(c, req)) == Holds)
  }

  ghost predicate Meets(env: Env, rules: seq<VerificationRule>, c: Claims, req: HttpRequest) {
    forall r :: r in rules ==> MeetsRule(env, r, c, req)
  }

  ghost predicate Excludes(env: Env, rules: seq<VerificationRule>, req: HttpRequest) {
    exists r :: r in rules && RuleExcludes(env, r, req)
  }

  /** What a rule asks of claims in a context. */
  ghost predicate Grants(env: Env, r: VerificationRule, c: Claims, ctx: RequestContext) {
    && (r.requiredScope != "" ==> r.requiredScope in Fields(c.scope))
    && (forall field :: field in r.requiredTctxFields ==> c.tctx.Some? && field in c.tctx.value)
    && (forall rule :: rule in r.celRules && rule.cel != "" && env.cel.compiles(rule.cel) ==> env.cel.eval(rule.cel, ctx) == Holds)
  }

  /** A rule is met exactly when its required scope, if any, is one of the scope's words, every
      required field is in the transaction context, and every compiling expression holds for the
      claims and the request's path, method and headers. */
  lemma MeetsRuleIff(env: Env, r: VerificationRule, c: Claims, req: HttpRequest, ctx: RequestContext)
    requires ctx.claims == c && ctx.path == req.path && ctx.verb == req.verb && ctx.headers == req.headers
    ensures MeetsRule(env, r, c, req) <==> Grants(env, r, c, ctx)
  {
    assert ctx == ContextOf(c, req);
    if MeetsRule(env, r, c, req) {
      forall field | field in r.requiredTctxFields ensures c.tctx.Some? && field in c.tctx.value {
        var i :| 0 <= i < |r.requiredTctxFields| && r.requiredTctxFields[i] == field;
        assert HasField(c, r.requiredTctxFields[i]);
      }
      forall rule | rule in r.celRules && rule.cel != "" && env.cel.compiles(rule.cel) ensures env.cel.eval(rule.cel, ctx) == Holds {
        var i :| 0 <= i < |r.celRules| && r.celRules[i] == rule;
        assert Compilable(env.cel, r.celRules[i]);
      }
    }
    if Grants(env, r, c, ctx) {
      forall i | 0 <= i < |r.requiredTctxFields| ensures HasField(c, r.requiredTctxFields[i]) {
        assert r.requiredTctxFields[i] in r.requiredTctxFields;
      }
      forall i | 0 <= i < |r.celRules| && Compilable(env.cel, r.celRules[i]) ensures env.cel.eval(r.celRules[i].cel, ctx) == Holds {
        assert r.celRules[i] in r.celRules;
      }
    }
  }

  /** A rule excludes a request exactly when one of its endpoints has a method equal to the request's
      but for case and a path whose segments begin the request's. */
  lemma RuleExcludesIff(env: Env, r: VerificationRule, req: HttpRequest)
    ensures RuleExcludes(env, r, req) <==>
            exists i :: && 0 <= i < |r.excludedEndpoints|
                        && Segments(r.excludedEndpoints[i].path) <= Segments(StripQuery(req.path))
                        && |r.excludedEndpoints[i].verb| == |req.verb|
                        && forall k :: 0 <= k < |req.verb| ==> env.fold(r.excludedEndpoints[i].verb[k]) == env.fold(req.verb[k])
  {
    forall i | 0 <= i < |r.excludedEndpoints|
      ensures MatchPath(req.path, r.excludedEndpoints[i].path) <==> Segments(r.excludedEndpoints[i].path) <= Segments(StripQuery(req.path))
    {
      MatchPathIff(req.path, r.excludedEndpoints[i].path);
    }
    if RuleExcludes(env, r, req) {
      var i :| 0 <= i < |r.excludedEndpoints| && EndpointMatches(env, r.excludedEndpoints[i], req);
      assert MatchPath(req.path, r.excludedEndpoints[i].path);
    }
    if i :| && 0 <= i < |r.excludedEndpoints|
            && Segments(r.excludedEndpoints[i].path) <= Segments(StripQuery(req.path))
            && |r.excludedEndpoints[i].verb| == |req.verb|
            && forall k :: 0 <= k < |req.verb| ==> env.fold(r.excludedEndpoints[i].verb[k]) == env.fold(req.verb[k]) {
      assert EndpointMatches(env, r.excludedEndpoints[i], req);
    }
  }

  lemma BundleFailsIff(env: Env, r: VerificationRule, c: Claims, req: HttpRequest)
    ensures RuleFailure(env, Bundle(env, r), c, req).None? <==> MeetsRule(env, r, c, req)
  {
    ProgramsHold(env.cel, r.celRules, ContextOf(c, req));
  }

  /** The stored snapshot enforces exactly what the pushed list demands. */
  lemma StoredEnforces(env: Env, rules: seq<VerificationRule>, c: Claims, req: HttpRequest)
    ensures FirstFailure(env, Stored(env, rules), c, req).None? <==> Meets(env, rules, c, req)
  {
    var sorted := Sort(VerificationKey, RuleKeyLess, rules);
    var sets := Stored(env, rules);
    forall i | 0 <= i < |sets| ensures RuleFailure(env, sets[i], c, req).None? <==> MeetsRule(env, sorted[i], c, req) {
      BundleFailsIff(env, sorted[i], c, req);
    }
    if Meets(env, rules, c, req) {
      forall i | 0 <= i < |sets| ensures RuleFailure(env, sets[i], c, req).None? {
        StoredMembers(rules, sorted[i]);
      }
    }
    if FirstFailure(env, sets, c, req).None? {
      forall r | r in rules ensures MeetsRule(env, r, c, req) {
        StoredMembers(rules, r);
        var i :| 0 <= i < |sorted| && sorted[i] == r;
        assert RuleFailure(env, sets[i], c, req).None?;
      }
    }
  }

  lemma StoredExcludes(env: Env, rules: seq<VerificationRule>, req: HttpRequest)
    ensures Excluded(env, Stored(env, rules), req) <==> Excludes(env, rules, req)
  {
    var sorted := Sort(VerificationKey, RuleKeyLess, rules);
    var sets := Stored(env, rules);
    if Excluded(env, sets, req) {
      var i :| 0 <= i < |sets| && RuleExcludes(env, sets[i].rule, req);
      StoredMembers(rules, sorted[i]);
    }
    if Excludes(env, rules, req) {
      var r :| r in rules && RuleExcludes(env, r, req);
      StoredMembers(rules, r);
      var i :| 0 <= i < |sorted| && sorted[i] == r;
      assert sets[i].rule == r;
    }
  }

  /** The failure reported is that of the least failing rule in (namespace, name) order,
      whatever order the rules were pushed in. */
  lemma LeastFailureIsReported(env: Env, m: map<RuleKey, VerificationRule>, flat: seq<VerificationRule>, c: Claims, req: HttpRequest)
    requires Enumerates(VerificationKey, m, flat) && FirstFailure(env, Stored(env, flat), c, req).Some?
    ensures exists r ::
              && r in flat && !MeetsRule(env, r, c, req)
              && FirstFailure(env, Stored(env, flat), c, req) == RuleFailure(env, Bundle(env, r), c, req)
              && forall other :: other in flat && !MeetsRule(env, other, c, req) && other != r ==> RuleKeyLess(VerificationKey(r), VerificationKey(other))
  {
    var sorted := Sort(VerificationKey, RuleKeyLess, flat);
    RuleKeyOrder();
    SortIsSorted(VerificationKey, RuleKeyLess, flat);
    SortIsCanonical(VerificationKey, RuleKeyLess, m, flat, sorted, flat);
    var i := FirstFailing(env, sorted, c, req);
    var r := sorted[i];
    StoredMembers(flat, r);
    forall other | other in flat && !MeetsRule(env, other, c, req) && other != r
      ensures RuleKeyLess(VerificationKey(r), VerificationKey(other))
    {
      StoredMembers(flat, other);
      var j :| 0 <= j < |sorted| && sorted[j] == other;
      assert i < j;
    }
  }

  lemma {:induction false} FirstFailing(env: Env, rules: seq<VerificationRule>, c: Claims, req: HttpRequest) returns (i: nat)
    requires FirstFailure(env, Bundles(env, rules), c, req).Some?
    ensures i < |rules| && !MeetsRule(env, rules[i], c, req)
    ensures FirstFailure(env, Bundles(env, rules), c, req) == RuleFailure(env, Bundle(env, rules[i]), c, req)
    ensures forall j :: 0 <= j < |rules| && !MeetsRule(env, rules[j], c, req) ==> i <= j
  {
    var sets := Bundles(env, rules);
    assert sets[0] == Bundle(env, rules[0]);
    BundleFailsIff(env, rules[0], c, req);
    if RuleFailure(env, sets[0], c, req).Some? {
      i := 0;
    } else {
      assert sets[1..] == Bundles(env, rules[1..]);
      var k := FirstFailing(env, rules[1..], c, req);
      i := k + 1;
      assert forall j :: 1 <= j < |rules| ==> rules[j] == rules[1..][j - 1];
    }
  }
}
