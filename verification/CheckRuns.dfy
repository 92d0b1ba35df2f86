/** Many `Check` calls running concurrently with each other and with rule swaps. A call loads
    the rule snapshot three times: for exclusions, for verification and for narrowing. */
module CheckRuns {
  import opened Wrappers
  import opened Rules
  import opened Tokens
  import opened ExtAuth
  import opened Narrowing

  datatype Response = Allow(replacement: Option<Token>) | Unauthenticated | PermissionDenied(failure: Failure)

  /** Where a call stands; `Done` also keeps the claims it verified, if it got that far. */
  datatype Phase =
    | Started
    | NotExcluded
    | Verified(claims: Claims)
    | Passed(claims: Claims)
    | Done(response: Response, checked: Option<Claims>, end: nat)

  /** `begin` and `end` are positions in the history of rule lists; `given` is what the verifier
      said of the token and `offered` what the token service answered, once they were asked. */
  datatype Call = Call(req: HttpRequest, token: Presented, begin: nat, phase: Phase, given: Option<Claims>, offered: Option<Token>)

  /** `lists` are all rule lists pushed so far, the last of which is in force; before the
      first push the server has no rules. */
  datatype State = State(lists: seq<seq<VerificationRule>>, calls: map<nat, Call>)

  datatype Step =
    | Swap(rules: seq<VerificationRule>)
    | Begin(id: nat, req: HttpRequest, token: Presented)
    | LoadExclusions(id: nat)
    | VerifyToken(id: nat, verdict: Option<Claims>)
    | LoadRules(id: nat)
    | LoadNarrowing(id: nat, answer: Option<Token>)

  /** The snapshot a load sees. */
  function InForce(env: Env, s: State): seq<RuleSet>
    requires s.lists != []
  {
    Stored(env, s.lists[|s.lists| - 1])
  }

  function Advance(env: Env, s: State, c: Call, step: Step): Phase
    requires s.lists != []
  {
    var now := |s.lists| - 1;
    match (step, c.phase)
    case (LoadExclusions(_), Started) =>
      if Excluded(env, InForce(env, s), c.req) then Done(Allow(None), None, now) else NotExcluded
    case (VerifyToken(_, verdict), NotExcluded) =>
      if c.token == Opaque("") || verdict.None? then Done(Unauthenticated, None, now) else Verified(verdict.value)
    case (LoadRules(_), Verified(claims)) =>
      var failure := FirstFailure(env, InForce(env, s), claims, c.req);
      if failure.Some? then Done(PermissionDenied(failure.value), Some(claims), now) else Passed(claims)
    case (LoadNarrowing(_, answer), Passed(claims)) =>
      Done(Allow(if NarrowTo(InForce(env, s), claims.scope).Some? then answer else None), Some(claims), now)
    case _ => c.phase
  }

  /** A call after a step of its own. */
  function Stepped(env: Env, s: State, c: Call, step: Step): Call
    requires s.lists != []
  {
    c.(phase := Advance(env, s, c, step),
       given := if step.VerifyToken? && c.phase == NotExcluded then step.verdict else c.given,
       offered := if step.LoadNarrowing? && c.phase.Passed? then step.answer else c.offered)
  }

  /** A step that does not fit the phase of its call changes nothing. */
  function Next(env: Env, s: State, step: Step): (s': State)
    requires s.lists != []
    ensures s'.lists != []
  {
    match step
    case Swap(rules) => s.(lists := s.lists + [rules])
    case Begin(id, req, token) =>
      if id in s.calls then s else s.(calls := s.calls[id := Call(req, token, |s.lists| - 1, Started, None, None)])
    case _ =>
      if step.id !in s.calls then s
      else s.(calls := s.calls[step.id := Stepped(env, s, s.calls[step.id], step)])
  }

  function After(env: Env, run: seq<Step>): (s: State)
    ensures s.lists != []
  {
    if run == [] then State([[]], map[]) else Next(env, After(env, run[..|run| - 1]), run[|run| - 1])
  }

  // ----- justification -----

  /** Some list in force between two moments excludes (or does not exclude) the endpoint. */
  ghost predicate ExcludedWithin(env: Env, s: State, from: nat, to: nat, req: HttpRequest, yes: bool) {
    exists w :: from <= w <= to && w < |s.lists| && Excludes(env, s.lists[w], req) == yes
  }

  /** Some whole list in force between two moments is met by the claims. */
  ghost predicate MetWithin(env: Env, s: State, from: nat, to: nat, c: Claims, req: HttpRequest) {
    exists w :: from <= w <= to && w < |s.lists| && Meets(env, s.lists[w], c, req)
  }

  /** Some whole list in force between two moments is not met, and this is its first failure. */
  ghost predicate FailedWithin(env: Env, s: State, from: nat, to: nat, c: Claims, req: HttpRequest, f: Failure) {
    exists w :: from <= w <= to && w < |s.lists| && Fails(env, s.lists[w], c, req, f)
  }

  ghost predicate Fails(env: Env, rules: seq<VerificationRule>, c: Claims, req: HttpRequest, f: Failure) {
    !Meets(env, rules, c, req) && FirstFailure(env, Stored(env, rules), c, req) == Some(f)
  }

  ghost predicate NarrowedWithin(env: Env, s: State, from: nat, to: nat, c: Claims) {
    exists w :: from <= w <= to && w < |s.lists| && NarrowTo(Stored(env, s.lists[w]), c.scope).Some?
  }

  /** What a finished call rests on. */
  ghost predicate Justified(env: Env, s: State, c: Call, response: Response, claims: Option<Claims>, end: nat) {
    match response
    case Allow(replacement) =>
      && (claims.None? ==> ExcludedWithin(env, s, c.begin, end, c.req, true) && replacement.None?)
      && (claims.Some? ==>
            && c.token != Opaque("") && c.given == claims
            && MetWithin(env, s, c.begin, end, claims.value, c.req)
            && (replacement.Some? ==> replacement == c.offered && NarrowedWithin(env, s, c.begin, end, claims.value)))
    case Unauthenticated => (c.token == Opaque("") || c.given.None?) && ExcludedWithin(env, s, c.begin, end, c.req, false)
    case PermissionDenied(failure) =>
      && claims.Some? && c.token != Opaque("") && c.given == claims && ExcludedWithin(env, s, c.begin, end, c.req, false)
      && FailedWithin(env, s, c.begin, end, claims.value, c.req, failure)
  }

  ghost predicate CallInv(env: Env, s: State, c: Call) {
    var now := |s.lists| - 1;
    && c.begin <= now
    && match c.phase
       case Started => true
       case NotExcluded => ExcludedWithin(env, s, c.begin, now, c.req, false)
       case Verified(claims) => c.token != Opaque("") && c.given == Some(claims) && ExcludedWithin(env, s, c.begin, now, c.req, false)
       case Passed(claims) => c.token != Opaque("") && c.given == Some(claims) && MetWithin(env, s, c.begin, now, claims, c.req)
       case Done(response, claims, end) => end <= now && Justified(env, s, c, response, claims, end)
  }

  /** More history keeps what was found in it. */
  lemma HistoryGrows(env: Env, s: State, s': State, c: Call)
    requires CallInv(env, s, c) && s.lists <= s'.lists
    ensures CallInv(env, s', c)
  {
    assert forall w :: 0 <= w < |s.lists| ==> s'.lists[w] == s.lists[w];
    match c.phase
    case Started =>
    case NotExcluded => KeepExcluded(env, s, s', c.begin, |s.lists| - 1, |s'.lists| - 1, c.req, false);
    case Verified(_) => KeepExcluded(env, s, s', c.begin, |s.lists| - 1, |s'.lists| - 1, c.req, false);
    case Passed(claims) => KeepMet(env, s, s', c.begin, |s.lists| - 1, |s'.lists| - 1, claims, c.req);
    case Done(response, claims, end) => KeepJustified(env, s, s', c, response, claims, end);
  }

  lemma KeepExcluded(env: Env, s: State, s': State, from: nat, to: nat, to': nat, req: HttpRequest, yes: bool)
    requires s.lists <= s'.lists && to <= to' && ExcludedWithin(env, s, from, to, req, yes)
    ensures ExcludedWithin(env, s', from, to', req, yes)
  {
    var w :| from <= w <= to && w < |s.lists| && Excludes(env, s.lists[w], req) == yes;
    assert s'.lists[w] == s.lists[w];
  }

  lemma KeepMet(env: Env, s: State, s': State, from: nat, to: nat, to': nat, c: Claims, req: HttpRequest)
    requires s.lists <= s'.lists && to <= to' && MetWithin(env, s, from, to, c, req)
    ensures MetWithin(env, s', from, to', c, req)
  {
    var w :| from <= w <= to && w < |s.lists| && Meets(env, s.lists[w], c, req);
    assert s'.lists[w] == s.lists[w];
  }

  lemma KeepFailed(env: Env, s: State, s': State, from: nat, to: nat, c: Claims, req: HttpRequest, f: Failure)
    requires s.lists <= s'.lists && FailedWithin(env, s, from, to, c, req, f)
    ensures FailedWithin(env, s', from, to, c, req, f)
  {
    var w :| from <= w <= to && w < |s.lists| && Fails(env, s.lists[w], c, req, f);
    assert s'.lists[w] == s.lists[w];
  }

  lemma KeepNarrowed(env: Env, s: State, s': State, from: nat, to: nat, c: Claims)
    requires s.lists <= s'.lists && NarrowedWithin(env, s, from, to, c)
    ensures NarrowedWithin(env, s', from, to, c)
  {
    var w :| from <= w <= to && w < |s.lists| && NarrowTo(Stored(env, s.lists[w]), c.scope).Some?;
    assert s'.lists[w] == s.lists[w];
  }

  lemma KeepJustified(env: Env, s: State, s': State, c: Call, response: Response, claims: Option<Claims>, end: nat)
    requires s.lists <= s'.lists && Justified(env, s, c, response, claims, end)
    ensures Justified(env, s', c, response, claims, end)
  {
    match response
    case Allow(replacement) =>
      if claims.None? {
        KeepExcluded(env, s, s', c.begin, end, end, c.req, true);
      } else {
        KeepMet(env, s, s', c.begin, end, end, claims.value, c.req);
        if replacement.Some? { KeepNarrowed(env, s, s', c.begin, end, claims.value); }
      }
    case Unauthenticated =>
      KeepExcluded(env, s, s', c.begin, end, end, c.req, false);
    case PermissionDenied(failure) =>
      KeepExcluded(env, s, s', c.begin, end, end, c.req, false);
      KeepFailed(env, s, s', c.begin, end, claims.value, c.req, failure);
  }

  lemma ExclusionsFound(env: Env, s: State, c: Call)
    requires s.lists != [] && c.begin < |s.lists|
    ensures ExcludedWithin(env, s, c.begin, |s.lists| - 1, c.req, Excluded(env, InForce(env, s), c.req))
  {
    StoredExcludes(env, s.lists[|s.lists| - 1], c.req);
  }

  lemma RulesFound(env: Env, s: State, c: Call, claims: Claims)
    requires s.lists != [] && c.begin < |s.lists|
    ensures var failure := FirstFailure(env, InForce(env, s), claims, c.req);
            && (failure.None? ==> MetWithin(env, s, c.begin, |s.lists| - 1, claims, c.req))
            && (failure.Some? ==> FailedWithin(env, s, c.begin, |s.lists| - 1, claims, c.req, failure.value))
  {
    LoadedVerdict(env, s.lists[|s.lists| - 1], claims, c.req);
  }

  lemma LoadedVerdict(env: Env, rules: seq<VerificationRule>, c: Claims, req: HttpRequest)
    ensures var failure := FirstFailure(env, Stored(env, rules), c, req);
            (failure.None? ==> Meets(env, rules, c, req)) && (failure.Some? ==> Fails(env, rules, c, req, failure.value))
  {
    StoredEnforces(env, rules, c, req);
  }

  lemma NarrowingFound(env: Env, s: State, c: Call, claims: Claims)
    requires s.lists != [] && c.begin < |s.lists| && NarrowTo(InForce(env, s), claims.scope).Some?
    ensures NarrowedWithin(env, s, c.begin, |s.lists| - 1, claims)
  {
    var w := |s.lists| - 1;
    assert NarrowTo(Stored(env, s.lists[w]), claims.scope).Some?;
  }

  /** Each phase of a call records what it found in the list in force at that moment. */
  lemma AdvanceKeepsInv(env: Env, s: State, c: Call, step: Step)
    requires s.lists != [] && CallInv(env, s, c)
    ensures CallInv(env, s, Stepped(env, s, c, step))
  {
    match (step, c.phase)
    case (LoadExclusions(_), Started) => ExclusionsFound(env, s, c);
    case (LoadRules(_), Verified(claims)) => RulesFound(env, s, c, claims);
    case (LoadNarrowing(_, answer), Passed(claims)) =>
      if NarrowTo(InForce(env, s), claims.scope).Some? { NarrowingFound(env, s, c, claims); }
    case _ =>
  }

  ghost predicate AllInv(env: Env, s: State) {
    forall id :: id in s.calls ==> CallInv(env, s, s.calls[id])
  }

  lemma {:induction false} RunKeepsInv(env: Env, run: seq<Step>)
    ensures AllInv(env, After(env, run))
  {
    if run != [] {
      var s, step := After(env, run[..|run| - 1]), run[|run| - 1];
      var s' := After(env, run);
      RunKeepsInv(env, run[..|run| - 1]);
      forall id | id in s'.calls ensures CallInv(env, s', s'.calls[id]) {
        if id in s.calls {
          if !step.Swap? && !step.Begin? && step.id == id {
            AdvanceKeepsInv(env, s, s.calls[id], step);
            HistoryGrows(env, s, s', s'.calls[id]);
          } else {
            HistoryGrows(env, s, s', s.calls[id]);
          }
        }
      }
    }
  }

  /** In every interleaving of requests and rule swaps, whichever lists the three loads of a
      call happen to see: an allowed call rests on one whole list that was in force at some
      moment of the call, which either excludes the endpoint or is met in full by the verified
      claims, compiled expressions included; and a denied call rests on a list it did not
      meet, and reports the first failure under that list. A call is unauthenticated only without
      a token or when the verifier rejected it, and the claims of every other call are those the
      verifier returned. */
  lemma EveryAnswerIsJustified(env: Env, run: seq<Step>, id: nat)
    requires id in After(env, run).calls && After(env, run).calls[id].phase.Done?
    ensures var s := After(env, run);
            var c := s.calls[id];
            && c.begin <= c.phase.end < |s.lists|
            && Justified(env, s, c, c.phase.response, c.phase.checked, c.phase.end)
            && (c.phase.response.Allow? ==>
                exists w :: c.begin <= w <= c.phase.end &&
                  (Excludes(env, s.lists[w], c.req) || (c.phase.checked.Some? && Meets(env, s.lists[w], c.phase.checked.value, c.req))))
  {
    RunKeepsInv(env, run);
    var s := After(env, run);
    var c := s.calls[id];
    assert CallInv(env, s, c);
    if c.phase.response.Allow? {
      if c.phase.checked.None? {
        var w :| c.begin <= w <= c.phase.end && w < |s.lists| && Excludes(env, s.lists[w], c.req) == true;
      } else {
        var w :| c.begin <= w <= c.phase.end && w < |s.lists| && Meets(env, s.lists[w], c.phase.checked.value, c.req);
      }
    }
  }

  // ----- calls without a swap -----

  /** What one list decides for a call, given what the verifier says of the token and what the token
      service answers. */
  ghost predicate Decides(env: Env, list: seq<VerificationRule>, req: HttpRequest, token: Presented, verdict: Option<Claims>,
                          answer: Option<Token>, response: Response)
  {
    if Excludes(env, list, req) then response == Allow(None)
    else if token == Opaque("") || verdict.None? then response == Unauthenticated
    else if !Meets(env, list, verdict.value, req) then response.PermissionDenied? && Fails(env, list, verdict.value, req, response.failure)
    else response == Allow(if exists r :: r in list && Wants(r, verdict.value.scope) then answer else None)
  }

  /** What a call knows about the list in force since it began. */
  ghost predicate CallExact(env: Env, s: State, c: Call) {
    && c.begin < |s.lists|
    && match c.phase
       case Done(response, _, end) => end == c.begin ==> Decides(env, s.lists[c.begin], c.req, c.token, c.given, c.offered, response)
       case Started => true
       case NotExcluded => |s.lists| - 1 == c.begin ==> !Excludes(env, s.lists[c.begin], c.req)
       case Verified(claims) =>
         && c.token != Opaque("") && c.given == Some(claims)
         && (|s.lists| - 1 == c.begin ==> !Excludes(env, s.lists[c.begin], c.req))
       case Passed(claims) =>
         && c.token != Opaque("") && c.given == Some(claims)
         && (|s.lists| - 1 == c.begin ==> !Excludes(env, s.lists[c.begin], c.req) && Meets(env, s.lists[c.begin], claims, c.req))
  }

  lemma SteppedExact(env: Env, s: State, c: Call, step: Step)
    requires s.lists != [] && CallExact(env, s, c)
    ensures CallExact(env, s, Stepped(env, s, c, step))
  {
    match (step, c.phase)
    case (LoadExclusions(_), Started) => ExclusionsLoaded(env, s, c, step);
    case (LoadRules(_), Verified(claims)) => RulesLoaded(env, s, c, claims, step);
    case (LoadNarrowing(_, _), Passed(claims)) => NarrowingLoaded(env, s, c, claims, step);
    case _ =>
  }

  lemma ExclusionsLoaded(env: Env, s: State, c: Call, step: Step)
    requires s.lists != [] && CallExact(env, s, c) && c.phase == Started && step.LoadExclusions?
    ensures CallExact(env, s, Stepped(env, s, c, step))
  {
    StoredExcludes(env, s.lists[|s.lists| - 1], c.req);
  }

  lemma NarrowingLoaded(env: Env, s: State, c: Call, claims: Claims, step: Step)
    requires s.lists != [] && CallExact(env, s, c) && c.phase == Passed(claims) && step.LoadNarrowing?
    ensures CallExact(env, s, Stepped(env, s, c, step))
  {
    StoredTriggers(env, s.lists[|s.lists| - 1], claims.scope);
  }

  lemma RulesLoaded(env: Env, s: State, c: Call, claims: Claims, step: Step)
    requires s.lists != [] && CallExact(env, s, c) && c.phase == Verified(claims) && step.LoadRules?
    ensures CallExact(env, s, Stepped(env, s, c, step))
  {
    var list := s.lists[|s.lists| - 1];
    LoadedVerdict(env, list, claims, c.req);
    StoredEnforces(env, list, claims, c.req);
  }

  lemma ExactGrows(env: Env, s: State, s': State, c: Call)
    requires s.lists != [] && CallExact(env, s, c) && s.lists <= s'.lists
    ensures CallExact(env, s', c)
  {
    assert s'.lists[c.begin] == s.lists[c.begin];
  }

  ghost predicate AllExact(env: Env, s: State) {
    forall id :: id in s.calls ==> CallExact(env, s, s.calls[id])
  }

  lemma {:induction false} RunKeepsExact(env: Env, run: seq<Step>)
    ensures AllExact(env, After(env, run))
  {
    if run != [] {
      var s, step := After(env, run[..|run| - 1]), run[|run| - 1];
      var s' := After(env, run);
      RunKeepsExact(env, run[..|run| - 1]);
      forall id | id in s'.calls ensures CallExact(env, s', s'.calls[id]) {
        if id in s.calls {
          if !step.Swap? && !step.Begin? && step.id == id {
            SteppedExact(env, s, s.calls[id], step);
          } else {
            ExactGrows(env, s, s', s.calls[id]);
          }
        }
      }
    }
  }

  /** In every interleaving, a finished call into which no swap fell is decided by the list in force:
      it is allowed when the list excludes the endpoint, else unauthenticated exactly without a token
      or a verdict, else denied, with the first failure, exactly when the list is not met, else
      allowed, with the token service's answer exactly when some rule wants narrowing. */
  lemma QuietCallIsDecided(env: Env, run: seq<Step>, id: nat)
    requires var calls := After(env, run).calls;
             id in calls && calls[id].phase.Done? && calls[id].phase.end == calls[id].begin
    ensures var s := After(env, run);
            var c := s.calls[id];
            c.begin < |s.lists| && Decides(env, s.lists[c.begin], c.req, c.token, c.given, c.offered, c.phase.response)
  {
    RunKeepsExact(env, run);
    assert CallExact(env, After(env, run), After(env, run).calls[id]);
  }

  /** A call after the four steps that follow its beginning. */
  function FourSteps(env: Env, s: State, c: Call, verdict: Option<Claims>, answer: Option<Token>, id: nat): Call
    requires s.lists != []
  {
    var c2 := Stepped(env, s, c, LoadExclusions(id));
    var c3 := Stepped(env, s, c2, VerifyToken(id, verdict));
    var c4 := Stepped(env, s, c3, LoadRules(id));
    Stepped(env, s, c4, LoadNarrowing(id, answer))
  }

  lemma FourStepsFinish(env: Env, s: State, c: Call, verdict: Option<Claims>, answer: Option<Token>, id: nat)
    requires s.lists != [] && c.phase == Started
    ensures var c' := FourSteps(env, s, c, verdict, answer, id);
            && c'.phase.Done? && c'.phase.end == |s.lists| - 1 && c' == c.(phase := c'.phase, given := c'.given, offered := c'.offered)
            && (c'.phase.response == Allow(None) || c'.given == verdict)
            && (c'.phase.response.Allow? && c'.given == verdict && c'.phase.checked.Some? ==> c'.offered == answer)
            && (c'.phase.checked.None? ==> c'.phase.response == Allow(None) || c'.phase.response == Unauthenticated)
            && (c'.phase.response == Allow(None) && c'.phase.checked.None? ==> Excluded(env, InForce(env, s), c.req))
  {
  }

  lemma FourStepsDecide(env: Env, s: State, c: Call, verdict: Option<Claims>, answer: Option<Token>, id: nat)
    requires s.lists != [] && c.phase == Started && c.begin == |s.lists| - 1
    ensures var c' := FourSteps(env, s, c, verdict, answer, id);
            c'.phase.Done? && Decides(env, s.lists[c.begin], c.req, c.token, verdict, answer, c'.phase.response)
  {
    var c2 := Stepped(env, s, c, LoadExclusions(id));
    var c3 := Stepped(env, s, c2, VerifyToken(id, verdict));
    var c4 := Stepped(env, s, c3, LoadRules(id));
    var c5 := Stepped(env, s, c4, LoadNarrowing(id, answer));
    SteppedExact(env, s, c, LoadExclusions(id));
    SteppedExact(env, s, c2, VerifyToken(id, verdict));
    SteppedExact(env, s, c3, LoadRules(id));
    SteppedExact(env, s, c4, LoadNarrowing(id, answer));
    FourStepsFinish(env, s, c, verdict, answer, id);
    StoredExcludes(env, s.lists[c.begin], c.req);
    assert Decides(env, s.lists[c.begin], c.req, c.token, c5.given, c5.offered, c5.phase.response);
  }

  /** A step of a call is that call's alone. */
  lemma CallStep(env: Env, s: State, s0: State, c: Call, step: Step)
    requires s.lists != [] && s0.lists == s.lists && !step.Swap? && !step.Begin? && step.id in s.calls && s.calls[step.id] == c
    ensures var s' := Next(env, s, step); s'.lists == s.lists && step.id in s'.calls && s'.calls[step.id] == Stepped(env, s0, c, step)
  {
  }

  /** The state after the steps of one call, one after the other. */
  function AfterCall(env: Env, s: State, id: nat, req: HttpRequest, token: Presented, verdict: Option<Claims>, answer: Option<Token>): State
    requires s.lists != []
  {
    var s1 := Next(env, s, Begin(id, req, token));
    var s2 := Next(env, s1, LoadExclusions(id));
    var s3 := Next(env, s2, VerifyToken(id, verdict));
    var s4 := Next(env, s3, LoadRules(id));
    Next(env, s4, LoadNarrowing(id, answer))
  }

  /** In every state, reachable or not, a call that takes its steps in a row ends with what the list
      in force decides. */
  lemma WholeCallIsDecided(env: Env, s: State, id: nat, req: HttpRequest, token: Presented, verdict: Option<Claims>, answer: Option<Token>)
    requires s.lists != [] && id !in s.calls
    ensures var s' := AfterCall(env, s, id, req, token, verdict, answer);
            && s'.lists == s.lists && id in s'.calls && s'.calls[id].phase.Done?
            && Decides(env, s.lists[|s.lists| - 1], req, token, verdict, answer, s'.calls[id].phase.response)
  {
    var c := Call(req, token, |s.lists| - 1, Started, None, None);
    var s1 := Next(env, s, Begin(id, req, token));
    var s2 := Next(env, s1, LoadExclusions(id));
    var s3 := Next(env, s2, VerifyToken(id, verdict));
    var s4 := Next(env, s3, LoadRules(id));
    CallStep(env, s1, s, c, LoadExclusions(id));
    CallStep(env, s2, s, s2.calls[id], VerifyToken(id, verdict));
    CallStep(env, s3, s, s3.calls[id], LoadRules(id));
    CallStep(env, s4, s, s4.calls[id], LoadNarrowing(id, answer));
    FourStepsDecide(env, s, c, verdict, answer, id);
  }
}
