/** One gateway in the whole system: the token service, the distribution of verification rules,
    the gateway's key cache and its `Check` calls, all running concurrently. */
module GatewaySystem {
  import opened Wrappers
  import opened Rules
  import opened RuleList
  import opened Streams
  import opened Naming
  import opened Wire
  import opened Keys
  import opened Issuance
  import opened Tokens
  import opened Scope
  import opened ExtAuth
  import opened Narrowing
  import opened VerificationEndToEnd
  import Distribution
  import DistributionProofs
  import TokenRuns
  import KeyCache
  import GatewayRuns
  import CheckRuns

  type RuleSystem = Distribution.System<VerificationRule, RuleKey, WireVerification>

  /** What is fixed for a run; `client` is the gateway's rule client. */
  datatype World = World(cfg: Config, cel: Cel, first: KeyEntry, env: Env, client: nat)

  /** `verifiedAt` records when the token of a call was verified. */
  datatype State = State(gate: GatewayRuns.State, rules: RuleSystem, checks: CheckRuns.State, verifiedAt: map<nat, int>)

  /** Unlike in the run of the checks alone, the verdict on a token is the gateway's own, the
      lists swapped in are those handed over by the rule client, and the answer to a narrowing
      request is a token the service issued, given by its position. */
  datatype Step =
    | Service(request: TokenRuns.Step)
    | Distribute(move: Distribution.Step<VerificationRule>)
    | Begin(id: nat, req: HttpRequest, token: Presented)
    | LoadExclusions(id: nat)
    | VerifyToken(id: nat, now: int, reachable: bool)
    | LoadRules(id: nat)
    | LoadNarrowing(id: nat, answer: Option<nat>)

  ghost predicate Ready(s: State) { s.gate.tts.entries != [] && s.checks.lists != [] }

  /** The token of a call that is about to be verified, if it is a token at all. Signatures
      cannot be forged. */
  predicate Verifies(s: State, id: nat) {
    && id in s.checks.calls && s.checks.calls[id].phase == CheckRuns.NotExcluded && s.checks.calls[id].token.TxToken?
    && TokenRuns.Genuine(s.gate.tts, s.checks.calls[id].token.token)
  }

  /** The token at the position replaces the call's token with the scope the rules ask for. */
  ghost predicate Answers(w: World, s: State, id: nat, j: nat)
    requires Ready(s)
  {
    && id in s.checks.calls && s.checks.calls[id].phase.Passed? && s.checks.calls[id].token.TxToken?
    && Replaces(s.gate.tts, s.checks.calls[id].token.token, j)
    && NarrowTo(CheckRuns.InForce(w.env, s.checks), s.checks.calls[id].phase.claims.scope) == Some(s.gate.tts.issued[j].claims.scope)
  }

  ghost predicate Replaces(tts: TokenRuns.State, t: Token, j: nat) {
    && j < |tts.issued| && tts.issued[j].parent.Some? && tts.issued[j].parent.value < |tts.issued|
    && tts.issued[tts.issued[j].parent.value].token == t
  }

  // ----- the parts a step moves -----

  ghost function GateStep(s: State, step: Step): Option<GatewayRuns.Step> {
    match step
    case Service(inner) => Some(GatewayRuns.Service(inner))
    case VerifyToken(id, _, reachable) =>
      if Verifies(s, id) && IsRsa(s.checks.calls[id].token.token.alg)
      then Some(GatewayRuns.Lookup(s.checks.calls[id].token.token.kid, reachable)) else None
    case _ => None
  }

  ghost function RulesAfter(s: State, step: Step): RuleSystem {
    if step.Distribute? then Distribution.Next(VerificationStream, s.rules, step.move) else s.rules
  }

  /** The rule list a distribution step hands to the gateway. */
  ghost function HandedOver(w: World, s: State, step: Step): Option<seq<VerificationRule>> {
    var log, log' := s.rules.log, RulesAfter(s, step).log;
    if |log'| > |log| && log'[|log|].client == w.client then Some(log'[|log|].rules) else None
  }

  ghost function CheckStep(w: World, s: State, step: Step): Option<CheckRuns.Step>
    requires Ready(s)
  {
    match step
    case Service(_) => None
    case Distribute(_) => var list := HandedOver(w, s, step); if list.Some? then Some(CheckRuns.Swap(list.value)) else None
    case Begin(id, req, token) => Some(CheckRuns.Begin(id, req, token))
    case LoadExclusions(id) => Some(CheckRuns.LoadExclusions(id))
    case VerifyToken(id, now, reachable) =>
      if Verifies(s, id) then
        var verdict := GatewayRuns.GatewayVerify(w.cfg, s.gate, s.checks.calls[id].token.token, now, reachable);
        Some(CheckRuns.VerifyToken(id, if verdict.Ok? then Some(verdict.value) else None))
      else if id in s.checks.calls && s.checks.calls[id].token.Opaque? then Some(CheckRuns.VerifyToken(id, None))
      else None
    case LoadRules(id) => Some(CheckRuns.LoadRules(id))
    case LoadNarrowing(id, answer) =>
      if answer.None? then Some(CheckRuns.LoadNarrowing(id, None))
      else if Answers(w, s, id, answer.value) then Some(CheckRuns.LoadNarrowing(id, Some(s.gate.tts.issued[answer.value].token)))
      else None
  }

  ghost function Next(w: World, s: State, step: Step): (s': State)
    requires Ready(s)
    ensures Ready(s')
  {
    var gate, check := GateStep(s, step), CheckStep(w, s, step);
    State(
      if gate.Some? then GatewayRuns.Next(w.cfg, w.cel, s.gate, gate.value) else s.gate,
      RulesAfter(s, step),
      if check.Some? then CheckRuns.Next(w.env, s.checks, check.value) else s.checks,
      if step.VerifyToken? && Verifies(s, step.id) then s.verifiedAt[step.id := step.now] else s.verifiedAt)
  }

  ghost function After(w: World, run: seq<Step>): (s: State)
    ensures Ready(s)
  {
    if run == [] then State(GatewayRuns.After(w.cfg, w.cel, w.first, []), Distribution.Init(), CheckRuns.After(w.env, []), map[])
    else Next(w, After(w, run[..|run| - 1]), run[|run| - 1])
  }

  // ----- projections -----

  ghost function RuleRun(run: seq<Step>): seq<Distribution.Step<VerificationRule>> {
    if run == [] then []
    else
      var last := run[|run| - 1];
      if last.Distribute? then RuleRun(run[..|run| - 1]) + [last.move] else RuleRun(run[..|run| - 1])
  }

  ghost function GateRun(w: World, run: seq<Step>): seq<GatewayRuns.Step> {
    if run == [] then []
    else
      var front := run[..|run| - 1];
      var step := GateStep(After(w, front), run[|run| - 1]);
      if step.Some? then GateRun(w, front) + [step.value] else GateRun(w, front)
  }

  ghost function CheckRun(w: World, run: seq<Step>): seq<CheckRuns.Step> {
    if run == [] then []
    else
      var front := run[..|run| - 1];
      var step := CheckStep(w, After(w, front), run[|run| - 1]);
      if step.Some? then CheckRun(w, front) + [step.value] else CheckRun(w, front)
  }

  lemma GateAppend(w: World, run: seq<GatewayRuns.Step>, step: GatewayRuns.Step)
    ensures GatewayRuns.After(w.cfg, w.cel, w.first, run + [step]) ==
            GatewayRuns.Next(w.cfg, w.cel, GatewayRuns.After(w.cfg, w.cel, w.first, run), step)
  {
    assert (run + [step])[..|run|] == run;
  }

  lemma CheckAppend(env: Env, run: seq<CheckRuns.Step>, step: CheckRuns.Step)
    ensures CheckRuns.After(env, run + [step]) == CheckRuns.Next(env, CheckRuns.After(env, run), step)
  {
    assert (run + [step])[..|run|] == run;
  }

  lemma RuleAppend(run: seq<Distribution.Step<VerificationRule>>, step: Distribution.Step<VerificationRule>)
    ensures Distribution.After(VerificationStream, run + [step]) == Distribution.Next(VerificationStream, Distribution.After(VerificationStream, run), step)
  {
    assert (run + [step])[..|run|] == run;
  }

  lemma {:induction false} GateProjects(w: World, run: seq<Step>)
    ensures After(w, run).gate == GatewayRuns.After(w.cfg, w.cel, w.first, GateRun(w, run))
  {
    if run != [] {
      var front, last := run[..|run| - 1], run[|run| - 1];
      GateProjects(w, front);
      var step := GateStep(After(w, front), last);
      if step.Some? { GateAppend(w, GateRun(w, front), step.value); }
    }
  }

  lemma {:induction false} ChecksProject(w: World, run: seq<Step>)
    ensures After(w, run).checks == CheckRuns.After(w.env, CheckRun(w, run))
  {
    if run != [] {
      var front, last := run[..|run| - 1], run[|run| - 1];
      ChecksProject(w, front);
      var step := CheckStep(w, After(w, front), last);
      if step.Some? { CheckAppend(w.env, CheckRun(w, front), step.value); }
    }
  }

  lemma {:induction false} RulesProject(w: World, run: seq<Step>)
    ensures After(w, run).rules == Distribution.After(VerificationStream, RuleRun(run))
  {
    if run != [] {
      var front, last := run[..|run| - 1], run[|run| - 1];
      RulesProject(w, front);
      if last.Distribute? { RuleAppend(RuleRun(front), last.move); }
    }
  }

  /** Each part of the system goes through a run of its own. */
  lemma Projects(w: World, run: seq<Step>)
    ensures var s := After(w, run);
            && s.gate == GatewayRuns.After(w.cfg, w.cel, w.first, GateRun(w, run))
            && s.rules == Distribution.After(VerificationStream, RuleRun(run))
            && s.checks == CheckRuns.After(w.env, CheckRun(w, run))
  {
    GateProjects(w, run);
    RulesProject(w, run);
    ChecksProject(w, run);
  }

  // ----- the lists in force are those handed over -----

  /** The lists a log hands to a client, in order. */
  ghost function Handed(client: nat, log: seq<Distribution.Handoff<VerificationRule>>): seq<seq<VerificationRule>> {
    if log == [] then []
    else
      var e := log[|log| - 1];
      Handed(client, log[..|log| - 1]) + if e.client == client then [e.rules] else []
  }

  lemma LogGrowsByOne(s: RuleSystem, step: Distribution.Step<VerificationRule>)
    ensures var s' := Distribution.Next(VerificationStream, s, step);
            s'.log == s.log || (|s'.log| == |s.log| + 1 && s'.log[..|s.log|] == s.log)
  {
  }

  lemma ChecksKeepLists(env: Env, s: CheckRuns.State, step: CheckRuns.Step)
    requires s.lists != []
    ensures CheckRuns.Next(env, s, step).lists == s.lists + if step.Swap? then [step.rules] else []
  {
  }

  lemma {:induction false} ListsAreHandedOver(w: World, run: seq<Step>)
    ensures var s := After(w, run); s.checks.lists == [[]] + Handed(w.client, s.rules.log)
  {
    if run != [] {
      var s, step := After(w, run[..|run| - 1]), run[|run| - 1];
      ListsAreHandedOver(w, run[..|run| - 1]);
      var check := CheckStep(w, s, step);
      if check.Some? { ChecksKeepLists(w.env, s.checks, check.value); }
      if step.Distribute? { LogGrowsByOne(s.rules, step.move); }
    }
  }

  lemma {:induction false} HandedFrom(client: nat, log: seq<Distribution.Handoff<VerificationRule>>, i: nat) returns (at: nat)
    requires i < |Handed(client, log)|
    ensures at < |log| && log[at].client == client && log[at].rules == Handed(client, log)[i]
  {
    var front, e := log[..|log| - 1], log[|log| - 1];
    if i < |Handed(client, front)| {
      at := HandedFrom(client, front, i);
    } else {
      at := |log| - 1;
    }
  }

  // ----- the claims of a call are those of its token -----

  /** The claims a call has verified. */
  function ClaimsOf(p: CheckRuns.Phase): Option<Claims> {
    match p
    case Verified(claims) => Some(claims)
    case Passed(claims) => Some(claims)
    case Done(_, checked, _) => checked
    case _ => None
  }

  function AnswerOf(p: CheckRuns.Phase): Option<Token> {
    if p.Done? && p.response.Allow? then p.response.replacement else None
  }

  /** The token was issued with these claims and had not expired at the time. */
  ghost predicate Issued(tts: TokenRuns.State, p: Presented, c: Claims, at: int) {
    p.TxToken? && at < c.exp * NANOS && exists i :: 0 <= i < |tts.issued| && tts.issued[i].token == p.token && tts.issued[i].claims == c
  }

  /** The answer was issued as a replacement of the presented token. */
  ghost predicate Answered(tts: TokenRuns.State, p: Presented, answer: Token) {
    p.TxToken? && exists j :: 0 <= j < |tts.issued| && tts.issued[j].token == answer && Replaces(tts, p.token, j)
  }

  ghost predicate CallBacked(s: State, id: nat)
    requires id in s.checks.calls
  {
    var c := s.checks.calls[id];
    && (ClaimsOf(c.phase).Some? ==> id in s.verifiedAt && Issued(s.gate.tts, c.token, ClaimsOf(c.phase).value, s.verifiedAt[id]))
    && (AnswerOf(c.phase).Some? ==> Answered(s.gate.tts, c.token, AnswerOf(c.phase).value))
  }

  ghost predicate AllBacked(s: State) {
    forall id :: id in s.checks.calls ==> CallBacked(s, id)
  }

  lemma IssuedGrows(cfg: Config, cel: Cel, s: TokenRuns.State, step: TokenRuns.Step)
    requires s.entries != []
    ensures s.issued <= TokenRuns.Next(cfg, cel, s, step).issued
  {
  }

  lemma GateGrows(w: World, s: State, step: Step)
    requires Ready(s)
    ensures s.gate.tts.issued <= Next(w, s, step).gate.tts.issued
  {
    if step.Service? { IssuedGrows(w.cfg, w.cel, s.gate.tts, step.request); }
  }

  /** A call that a step does not advance, or only onward with the same claims. */
  lemma BackedKeeps(s: State, s': State, id: nat)
    requires id in s.checks.calls && CallBacked(s, id) && s.gate.tts.issued <= s'.gate.tts.issued
    requires id in s'.checks.calls && s'.checks.calls[id].token == s.checks.calls[id].token
    requires ClaimsOf(s'.checks.calls[id].phase).Some? ==>
               ClaimsOf(s'.checks.calls[id].phase) == ClaimsOf(s.checks.calls[id].phase) && id in s'.verifiedAt && id in s.verifiedAt
               && s'.verifiedAt[id] == s.verifiedAt[id]
    requires AnswerOf(s'.checks.calls[id].phase).Some? ==> AnswerOf(s'.checks.calls[id].phase) == AnswerOf(s.checks.calls[id].phase)
    ensures CallBacked(s', id)
  {
    var c := s.checks.calls[id];
    if ClaimsOf(s'.checks.calls[id].phase).Some? { IssuedKeeps(s.gate.tts, s'.gate.tts, c.token, ClaimsOf(c.phase).value, s.verifiedAt[id]); }
    if AnswerOf(s'.checks.calls[id].phase).Some? { AnsweredKeeps(s.gate.tts, s'.gate.tts, c.token, AnswerOf(c.phase).value); }
  }

  lemma IssuedKeeps(a: TokenRuns.State, b: TokenRuns.State, p: Presented, c: Claims, at: int)
    requires Issued(a, p, c, at) && a.issued <= b.issued
    ensures Issued(b, p, c, at)
  {
    var i :| 0 <= i < |a.issued| && a.issued[i].token == p.token && a.issued[i].claims == c;
    assert b.issued[i] == a.issued[i];
  }

  lemma AnsweredKeeps(a: TokenRuns.State, b: TokenRuns.State, p: Presented, answer: Token)
    requires Answered(a, p, answer) && a.issued <= b.issued
    ensures Answered(b, p, answer)
  {
    var j :| 0 <= j < |a.issued| && a.issued[j].token == answer && Replaces(a, p.token, j);
    assert b.issued[j] == a.issued[j] && Replaces(b, p.token, j);
  }

  /** What the phases of a call do to its claims and its answer. */
  lemma AdvanceKeepsClaims(env: Env, s: CheckRuns.State, c: CheckRuns.Call, step: CheckRuns.Step)
    requires s.lists != []
    ensures var p := CheckRuns.Advance(env, s, c, step);
            && (ClaimsOf(p).Some? ==> ClaimsOf(p) == ClaimsOf(c.phase) || (step.VerifyToken? && c.phase == CheckRuns.NotExcluded && ClaimsOf(p) == step.verdict))
            && (AnswerOf(p).Some? ==> AnswerOf(p) == AnswerOf(c.phase) || (step.LoadNarrowing? && c.phase.Passed? && AnswerOf(p) == step.answer))
  {
  }

  lemma VerifiedIsIssued(w: World, run: seq<Step>, id: nat, now: int, reachable: bool)
    requires Usable(w.first) && Verifies(After(w, run), id)
    ensures var s := After(w, run);
            var t := s.checks.calls[id].token.token;
            var verdict := GatewayRuns.GatewayVerify(w.cfg, s.gate, t, now, reachable);
            verdict.Ok? ==> Issued(s.gate.tts, TxToken(t), verdict.value, now)
  {
    Projects(w, run);
    var s := After(w, run);
    GatewayRuns.GatewayAcceptsOnlyDescendants(w.cfg, w.cel, w.first, GateRun(w, run), s.checks.calls[id].token.token, now, reachable);
  }

  lemma {:induction false} RunKeepsBacked(w: World, run: seq<Step>)
    requires Usable(w.first)
    ensures AllBacked(After(w, run))
  {
    if run != [] {
      var front, step := run[..|run| - 1], run[|run| - 1];
      RunKeepsBacked(w, front);
      StepKeepsBacked(w, front, step);
    }
  }

  lemma StepKeepsBacked(w: World, run: seq<Step>, step: Step)
    requires Usable(w.first) && AllBacked(After(w, run))
    ensures AllBacked(Next(w, After(w, run), step))
  {
    var s := After(w, run);
    var s' := Next(w, s, step);
    GateGrows(w, s, step);
    forall id | id in s'.checks.calls ensures CallBacked(s', id) {
      if id in s.checks.calls {
        assert CallBacked(s, id);
        CallStep(w, run, step, id);
      }
    }
  }

  lemma CallStep(w: World, run: seq<Step>, step: Step, id: nat)
    requires Usable(w.first) && id in After(w, run).checks.calls && CallBacked(After(w, run), id)
    ensures var s' := Next(w, After(w, run), step); id in s'.checks.calls && CallBacked(s', id)
  {
    var s := After(w, run);
    var s', check := Next(w, s, step), CheckStep(w, s, step);
    var c := s.checks.calls[id];
    GateGrows(w, s, step);
    if check.None? || check.value.Swap? || check.value.Begin? || check.value.id != id {
      assert s'.checks.calls[id] == c;
      OtherCall(w, s, step, id);
      BackedKeeps(s, s', id);
    } else {
      AdvanceKeepsClaims(w.env, s.checks, c, check.value);
      OwnCall(w, run, step, id);
    }
  }

  /** Verification times of other calls stay. */
  lemma OtherCall(w: World, s: State, step: Step, id: nat)
    requires Ready(s) && id in s.checks.calls && (id in s.verifiedAt || ClaimsOf(s.checks.calls[id].phase).None?)
    requires var check := CheckStep(w, s, step);
             check.None? || check.value.Swap? || check.value.Begin? || check.value.id != id
    ensures var s' := Next(w, s, step);
            ClaimsOf(s.checks.calls[id].phase).Some? ==> id in s'.verifiedAt && s'.verifiedAt[id] == s.verifiedAt[id]
  {
  }

  lemma OwnCall(w: World, run: seq<Step>, step: Step, id: nat)
    requires Usable(w.first) && id in After(w, run).checks.calls && CallBacked(After(w, run), id)
    requires var check := CheckStep(w, After(w, run), step);
             check.Some? && !check.value.Swap? && !check.value.Begin? && check.value.id == id
    ensures CallBacked(Next(w, After(w, run), step), id)
  {
    var s := After(w, run);
    var s', check := Next(w, s, step), CheckStep(w, s, step).value;
    var c := s.checks.calls[id];
    var p := s'.checks.calls[id].phase;
    GateGrows(w, s, step);
    AdvanceKeepsClaims(w.env, s.checks, c, check);
    if step.VerifyToken? && c.phase == CheckRuns.NotExcluded && ClaimsOf(p).Some? {
      VerifiedIsIssued(w, run, id, step.now, step.reachable);
      IssuedKeeps(s.gate.tts, s'.gate.tts, c.token, ClaimsOf(p).value, step.now);
    } else if step.LoadNarrowing? && c.phase.Passed? && AnswerOf(p).Some? {
      NarrowedCall(w, s, step, id);
    } else {
      BackedKeeps(s, s', id);
    }
  }

  lemma NarrowedCall(w: World, s: State, step: Step, id: nat)
    requires Ready(s) && id in s.checks.calls && CallBacked(s, id) && s.checks.calls[id].phase.Passed?
    requires step.LoadNarrowing? && step.id == id && AnswerOf(Next(w, s, step).checks.calls[id].phase).Some?
    ensures CallBacked(Next(w, s, step), id)
  {
    var s' := Next(w, s, step);
    assert step.answer.Some? && Answers(w, s, id, step.answer.value);
    assert Answered(s.gate.tts, s.checks.calls[id].token, AnswerOf(s'.checks.calls[id].phase).value);
  }

  // ----- main theorems -----

  /** Where a list in force came from: the first is empty, and every later one was handed to the
      gateway's rule client and, if nothing was lost, lists what the server held at a published
      version. */
  ghost predicate FromServer(w: World, s: State, v: nat)
    requires v < |s.checks.lists|
  {
    if v == 0 then s.checks.lists[0] == [] else exists at :: 0 <= at < |s.rules.log| && HandedAt(w, s.rules, s.checks.lists[v], at)
  }

  ghost predicate HandedAt(w: World, rules: RuleSystem, list: seq<VerificationRule>, at: nat)
    requires at < |rules.log|
  {
    var e := rules.log[at];
    && e.client == w.client && e.rules == list && e.version < |rules.hist|
    && (e.intact ==> Enumerates(VerificationKey, View(VerificationKey, rules.hist[e.version]), list))
  }

  lemma ListFromServer(w: World, run: seq<Step>, i: nat)
    requires DistributionProofs.SafeRun(VerificationStream, RuleRun(run)) && i < |After(w, run).checks.lists|
    ensures FromServer(w, After(w, run), i)
  {
    ListsAreHandedOver(w, run);
    RulesProject(w, run);
    ListAt(w, RuleRun(run), After(w, run), i);
  }

  lemma ListAt(w: World, moves: seq<Distribution.Step<VerificationRule>>, s: State, i: nat)
    requires DistributionProofs.SafeRun(VerificationStream, moves) && s.rules == Distribution.After(VerificationStream, moves)
    requires s.checks.lists == [[]] + Handed(w.client, s.rules.log) && i < |s.checks.lists|
    ensures FromServer(w, s, i)
  {
    if i > 0 {
      var at := HandedOverAt(w, moves, s.rules, s.checks.lists[i], i - 1);
    }
  }

  lemma HandedOverAt(w: World, moves: seq<Distribution.Step<VerificationRule>>, rules: RuleSystem, list: seq<VerificationRule>, k: nat) returns (at: nat)
    requires DistributionProofs.SafeRun(VerificationStream, moves) && rules == Distribution.After(VerificationStream, moves)
    requires k < |Handed(w.client, rules.log)| && list == Handed(w.client, rules.log)[k]
    ensures at < |rules.log| && HandedAt(w, rules, list, at)
  {
    StreamsAreFaithful();
    DistributionProofs.RunKeepsLog(VerificationStream, moves);
    at := HandedFrom(w.client, rules.log, k);
    assert DistributionProofs.TrueHandoff(VerificationStream, rules, rules.log[at]);
  }

  /** The token a call rests on: issued at this position with these claims, unexpired when it was
      verified, and descending from one root. */
  ghost predicate RestsOn(w: World, s: State, c: CheckRuns.Call, claims: Claims, at: int, i: nat) {
    && i < |s.gate.tts.issued| && c.token == TxToken(s.gate.tts.issued[i].token) && s.gate.tts.issued[i].claims == claims
    && at < claims.exp * NANOS && TokenRuns.Descends(w.cfg, s.gate.tts, i, claims)
  }

  /** The replacement returned with an allow continues the transaction of the presented token. */
  ghost predicate Narrower(s: State, c: CheckRuns.Call, answer: Token, i: nat, j: nat) {
    && i < |s.gate.tts.issued| && j < |s.gate.tts.issued| && c.token == TxToken(s.gate.tts.issued[i].token) && s.gate.tts.issued[j].token == answer
    && s.gate.tts.issued[j].root == s.gate.tts.issued[i].root && s.gate.tts.issued[j].claims.txn == s.gate.tts.issued[i].claims.txn
    && Covers(s.gate.tts.issued[i].claims.scope, s.gate.tts.issued[j].claims.scope)
  }

  lemma GateInv(w: World, run: seq<Step>)
    requires Usable(w.first)
    ensures TokenRuns.Inv(w.cfg, After(w, run).gate.tts)
  {
    GateProjects(w, run);
    GatewayRuns.RunKeepsInv(w.cfg, w.cel, w.first, GateRun(w, run));
  }

  lemma CallRests(w: World, run: seq<Step>, id: nat) returns (i: nat)
    requires Usable(w.first) && id in After(w, run).checks.calls && ClaimsOf(After(w, run).checks.calls[id].phase).Some?
    ensures var s := After(w, run);
            id in s.verifiedAt && RestsOn(w, s, s.checks.calls[id], ClaimsOf(s.checks.calls[id].phase).value, s.verifiedAt[id], i)
  {
    var s := After(w, run);
    RunKeepsBacked(w, run);
    GateInv(w, run);
    assert CallBacked(s, id);
    var c := s.checks.calls[id];
    i :| 0 <= i < |s.gate.tts.issued| && s.gate.tts.issued[i].token == c.token.token && s.gate.tts.issued[i].claims == ClaimsOf(c.phase).value;
    assert TokenRuns.WellPlaced(w.cfg, s.gate.tts, i);
  }

  lemma AnswerContinues(w: World, run: seq<Step>, id: nat) returns (i: nat, j: nat)
    requires Usable(w.first) && id in After(w, run).checks.calls && AnswerOf(After(w, run).checks.calls[id].phase).Some?
    ensures var s := After(w, run); Narrower(s, s.checks.calls[id], AnswerOf(s.checks.calls[id].phase).value, i, j)
  {
    var s := After(w, run);
    RunKeepsBacked(w, run);
    GateInv(w, run);
    assert CallBacked(s, id);
    var c := s.checks.calls[id];
    j :| 0 <= j < |s.gate.tts.issued| && s.gate.tts.issued[j].token == AnswerOf(c.phase).value && Replaces(s.gate.tts, c.token.token, j);
    i := s.gate.tts.issued[j].parent.value;
    assert TokenRuns.WellPlaced(w.cfg, s.gate.tts, i) && TokenRuns.WellPlaced(w.cfg, s.gate.tts, j);
  }

  /** The rule list justifies letting the request through with these claims, or without any. */
  ghost predicate Admits(env: Env, list: seq<VerificationRule>, req: HttpRequest, claims: Option<Claims>) {
    if claims.None? then Excludes(env, list, req) else Meets(env, list, claims.value, req)
  }

  /** In every interleaving of token requests, rotations, rule edits, deliveries, losses,
      reconnects and checks: a request the gateway lets through rests on one whole list in force
      during the call, which is the empty list before anything was handed over and otherwise
      what the server's stream handed to this gateway; the list excludes the endpoint, or the request
      bears a token that the service issued, that was unexpired when verified and descends from
      one root, whose own claims meet the list. A token returned with the answer continues the
      presented token's transaction with no more words. */
  lemma EveryAllowIsBacked(w: World, run: seq<Step>, id: nat)
    requires Usable(w.first) && DistributionProofs.SafeRun(VerificationStream, RuleRun(run))
    requires var calls := After(w, run).checks.calls;
             id in calls && calls[id].phase.Done? && calls[id].phase.response.Allow?
    ensures var s := After(w, run);
            var c := s.checks.calls[id];
            var claims := c.phase.checked;
            && (exists v :: c.begin <= v <= c.phase.end && v < |s.checks.lists| && Admits(w.env, s.checks.lists[v], c.req, claims)
                            && FromServer(w, s, v))
            && (claims.Some? ==> id in s.verifiedAt && exists i :: RestsOn(w, s, c, claims.value, s.verifiedAt[id], i))
            && (c.phase.response.replacement.Some? ==> exists i, j :: Narrower(s, c, c.phase.response.replacement.value, i, j))
  {
    var s := After(w, run);
    var c := s.checks.calls[id];
    var v := AllowedByList(w, run, id);
    ListFromServer(w, run, v);
    if c.phase.checked.Some? {
      var i := CallRests(w, run, id);
    }
    if c.phase.response.replacement.Some? {
      var i, j := AnswerContinues(w, run, id);
    }
  }

  lemma AllowedByList(w: World, run: seq<Step>, id: nat) returns (v: nat)
    requires var calls := After(w, run).checks.calls;
             id in calls && calls[id].phase.Done? && calls[id].phase.response.Allow?
    ensures var s := After(w, run);
            var c := s.checks.calls[id];
            c.begin <= v <= c.phase.end && v < |s.checks.lists| && Admits(w.env, s.checks.lists[v], c.req, c.phase.checked)
  {
    ChecksProject(w, run);
    CheckRuns.EveryAnswerIsJustified(w.env, CheckRun(w, run), id);
    v := AdmittingList(w, After(w, run), After(w, run).checks.calls[id]);
  }

  lemma AdmittingList(w: World, s: State, c: CheckRuns.Call) returns (v: nat)
    requires c.phase.Done? && c.phase.response.Allow? && c.begin <= c.phase.end < |s.checks.lists|
    requires CheckRuns.Justified(w.env, s.checks, c, c.phase.response, c.phase.checked, c.phase.end)
    ensures c.begin <= v <= c.phase.end && Admits(w.env, s.checks.lists[v], c.req, c.phase.checked)
  {
    if c.phase.checked.None? {
      v :| c.begin <= v <= c.phase.end && v < |s.checks.lists| && Excludes(w.env, s.checks.lists[v], c.req) == true;
    } else {
      v :| c.begin <= v <= c.phase.end && v < |s.checks.lists| && Meets(w.env, s.checks.lists[v], c.phase.checked.value, c.req);
    }
  }

  /** The server's view at a version lets the request through with these claims. */
  ghost predicate ViewAdmits(env: Env, view: map<RuleKey, VerificationRule>, req: HttpRequest, claims: Option<Claims>) {
    if claims.None? then ViewExcludes(env, view, req) else ViewMet(env, view, claims.value, req)
  }

  /** The server's view of a list lets the request through, and so does the list itself when no two
      of its rules agree in both namespace and name. */
  ghost predicate PublishedAdmits(env: Env, list: seq<VerificationRule>, req: HttpRequest, claims: Option<Claims>) {
    && ViewAdmits(env, View(VerificationKey, list), req, claims)
    && (VerificationNamesDiffer(list) ==> Admits(env, list, req, claims))
  }

  /** With the shipped reconcilers, which only replace, every request let through by a gateway
      that had received rules when the call began is let through by the server's rules at one
      published version, whatever was dropped. */
  lemma AllowFollowsThePublishedRules(w: World, run: seq<Step>, id: nat)
    requires Usable(w.first) && DistributionProofs.OnlyReplaces(RuleRun(run))
    requires var calls := After(w, run).checks.calls;
             id in calls && calls[id].phase.Done? && calls[id].phase.response.Allow? && calls[id].begin > 0
    ensures var s := After(w, run);
            var c := s.checks.calls[id];
            exists version :: 0 <= version < |s.rules.hist| && PublishedAdmits(w.env, s.rules.hist[version], c.req, c.phase.checked)
  {
    var s := After(w, run);
    var c := s.checks.calls[id];
    DistributionProofs.RunOnlySnapshots(VerificationStream, RuleRun(run));
    RulesProject(w, run);
    var v := AllowedByList(w, run, id);
    ListFromServer(w, run, v);
    var at :| 0 <= at < |s.rules.log| && HandedAt(w, s.rules, s.checks.lists[v], at);
    assert s.rules.log[at].intact;
    var version := s.rules.log[at].version;
    AdmitsEnumeration(w.env, View(VerificationKey, s.rules.hist[version]), s.checks.lists[v], c.req, c.phase.checked);
    PublishedListAdmits(w.env, s.rules.hist[version], c.req, c.phase.checked);
  }

  lemma PublishedListAdmits(env: Env, list: seq<VerificationRule>, req: HttpRequest, claims: Option<Claims>)
    requires ViewAdmits(env, View(VerificationKey, list), req, claims)
    ensures PublishedAdmits(env, list, req, claims)
  {
    if VerificationNamesDiffer(list) {
      VerificationDistinct(list);
      AdmitsEnumeration(env, View(VerificationKey, list), list, req, claims);
    }
  }

  lemma AdmitsEnumeration(env: Env, view: map<RuleKey, VerificationRule>, list: seq<VerificationRule>, req: HttpRequest, claims: Option<Claims>)
    requires Enumerates(VerificationKey, view, list)
    ensures Admits(env, list, req, claims) <==> ViewAdmits(env, view, req, claims)
  {
    if claims.None? { ExcludesEnumeration(env, view, list, req); } else { MeetsEnumeration(env, view, list, claims.value, req); }
  }

  // ----- the parts move, and calls get through -----

  /** The requests to the token service in a run. */
  ghost function ServiceRun(run: seq<Step>): seq<TokenRuns.Step> {
    if run == [] then []
    else
      var last := run[|run| - 1];
      if last.Service? then ServiceRun(run[..|run| - 1]) + [last.request] else ServiceRun(run[..|run| - 1])
  }

  /** The token service takes every step it is given and is disturbed by no other. */
  lemma {:induction false} ServiceRunsAlone(w: World, run: seq<Step>)
    ensures After(w, run).gate.tts == TokenRuns.After(w.cfg, w.cel, w.first, ServiceRun(run))
  {
    if run != [] {
      var front, last := run[..|run| - 1], run[|run| - 1];
      ServiceRunsAlone(w, front);
      if last.Service? { GatewayRuns.ServiceAppend(w.cfg, w.cel, w.first, ServiceRun(front), last.request); }
    }
  }

  /** What the gateway's verifier says of a token. */
  ghost function Verdict(w: World, s: State, token: Presented, now: int, reachable: bool): Option<Claims>
    requires Ready(s)
  {
    if token.Opaque? then None
    else
      var r := GatewayRuns.GatewayVerify(w.cfg, s.gate, token.token, now, reachable);
      if r.Ok? then Some(r.value) else None
  }

  ghost function AfterCall(w: World, s: State, id: nat, req: HttpRequest, token: Presented, now: int, reachable: bool): State
    requires Ready(s)
  {
    var s1 := Next(w, s, Begin(id, req, token));
    var s2 := Next(w, s1, LoadExclusions(id));
    var s3 := Next(w, s2, VerifyToken(id, now, reachable));
    var s4 := Next(w, s3, LoadRules(id));
    Next(w, s4, LoadNarrowing(id, None))
  }

  lemma CheckOnly(w: World, s: State, step: Step)
    requires Ready(s) && (step.Begin? || step.LoadExclusions? || step.LoadRules? || (step.LoadNarrowing? && step.answer.None?))
    ensures var s' := Next(w, s, step);
            && s'.gate == s.gate && s'.rules == s.rules
            && s'.checks == CheckRuns.Next(w.env, s.checks,
                 match step
                 case Begin(id, req, token) => CheckRuns.Begin(id, req, token)
                 case LoadExclusions(id) => CheckRuns.LoadExclusions(id)
                 case LoadRules(id) => CheckRuns.LoadRules(id)
                 case _ => CheckRuns.LoadNarrowing(step.id, None))
  {
  }

  /** Verifying a token is the check's step with the gateway's own verdict; in another phase it does
      nothing, whatever the verdict would be. */
  lemma VerifyStep(w: World, s: State, id: nat, now: int, reachable: bool)
    requires Ready(s) && id in s.checks.calls && (s.checks.calls[id].token.TxToken? ==> TokenRuns.Genuine(s.gate.tts, s.checks.calls[id].token.token))
    requires s.checks.calls[id].phase == CheckRuns.NotExcluded || s.checks.calls[id].phase.Done?
    ensures var s' := Next(w, s, VerifyToken(id, now, reachable));
            && s'.gate.tts == s.gate.tts && s'.rules == s.rules
            && s'.checks.lists == s.checks.lists
            && id in s'.checks.calls
            && s'.checks.calls[id] == CheckRuns.Stepped(w.env, s.checks, s.checks.calls[id],
                                        CheckRuns.VerifyToken(id, Verdict(w, s, s.checks.calls[id].token, now, reachable)))
  {
  }

  /** After any run, verifying an RSA-signed token with the service reachable leaves its key cached when
      its id is live, so that afterwards the gateway can do without the service. */
  lemma VerifyingCaches(w: World, run: seq<Step>, id: nat, now: int)
    requires Usable(w.first) && Verifies(After(w, run), id) && IsRsa(After(w, run).checks.calls[id].token.token.alg)
    ensures var s, s' := After(w, run), Next(w, After(w, run), VerifyToken(id, now, true));
            var kid := s.checks.calls[id].token.token.kid;
            var live := Resolve(JwksAfter(s.gate.tts.entries), kid);
            live.Ok? ==> kid in s'.gate.cache && s'.gate.cache[kid] == live.value
  {
    var s := After(w, run);
    GateProjects(w, run);
    GatewayRuns.RunKeepsInv(w.cfg, w.cel, w.first, GateRun(w, run));
    var kid := s.checks.calls[id].token.token.kid;
    KeyCache.LookupAgainstLive(s.gate.tts.entries, s.gate.cache, kid, Some(JwksAfter(s.gate.tts.entries)));
  }

  /** In every state of the system a call that takes its steps in a row is decided by the list in force
      and the gateway's own verdict on the token, whether its key was cached or had to be fetched. */
  lemma CallIsDecided(w: World, s: State, id: nat, req: HttpRequest, token: Presented, now: int, reachable: bool)
    requires Ready(s) && id !in s.checks.calls && (token.TxToken? ==> TokenRuns.Genuine(s.gate.tts, token.token))
    ensures var s' := AfterCall(w, s, id, req, token, now, reachable);
            && id in s'.checks.calls && s'.checks.calls[id].phase.Done?
            && CheckRuns.Decides(w.env, s.checks.lists[|s.checks.lists| - 1], req, token, Verdict(w, s, token, now, reachable), None,
                                 s'.checks.calls[id].phase.response)
  {
    var verdict := Verdict(w, s, token, now, reachable);
    var c := CheckRuns.Call(req, token, |s.checks.lists| - 1, CheckRuns.Started, None, None);
    var c3 := CallVerified(w, s, id, req, token, now, reachable);
    var s3 := Next(w, Next(w, Next(w, s, Begin(id, req, token)), LoadExclusions(id)), VerifyToken(id, now, reachable));
    CallConcluded(w, s, s3, id, c3);
    CheckRuns.FourStepsDecide(w.env, s.checks, c, verdict, None, id);
  }

  /** A call from its beginning through verification. */
  lemma CallVerified(w: World, s: State, id: nat, req: HttpRequest, token: Presented, now: int, reachable: bool) returns (c3: CheckRuns.Call)
    requires Ready(s) && id !in s.checks.calls && (token.TxToken? ==> TokenRuns.Genuine(s.gate.tts, token.token))
    ensures var c := CheckRuns.Call(req, token, |s.checks.lists| - 1, CheckRuns.Started, None, None);
            var c2 := CheckRuns.Stepped(w.env, s.checks, c, CheckRuns.LoadExclusions(id));
            c3 == CheckRuns.Stepped(w.env, s.checks, c2, CheckRuns.VerifyToken(id, Verdict(w, s, token, now, reachable)))
    ensures var s3 := Next(w, Next(w, Next(w, s, Begin(id, req, token)), LoadExclusions(id)), VerifyToken(id, now, reachable));
            s3.checks.lists == s.checks.lists && id in s3.checks.calls && s3.checks.calls[id] == c3
  {
    var c := CheckRuns.Call(req, token, |s.checks.lists| - 1, CheckRuns.Started, None, None);
    var s1 := Next(w, s, Begin(id, req, token));
    CheckOnly(w, s, Begin(id, req, token));
    var s2 := Next(w, s1, LoadExclusions(id));
    CheckOnly(w, s1, LoadExclusions(id));
    CheckRuns.CallStep(w.env, s1.checks, s.checks, c, CheckRuns.LoadExclusions(id));
    VerifyStep(w, s2, id, now, reachable);
    SteppedElsewhere(w.env, s2.checks, s.checks, s2.checks.calls[id], CheckRuns.VerifyToken(id, Verdict(w, s, token, now, reachable)));
    c3 := Next(w, s2, VerifyToken(id, now, reachable)).checks.calls[id];
  }

  /** A call from its verification to its end. */
  lemma CallConcluded(w: World, s: State, s3: State, id: nat, c3: CheckRuns.Call)
    requires Ready(s) && Ready(s3) && s3.checks.lists == s.checks.lists && id in s3.checks.calls && s3.checks.calls[id] == c3
    ensures var s5 := Next(w, Next(w, s3, LoadRules(id)), LoadNarrowing(id, None));
            var c4 := CheckRuns.Stepped(w.env, s.checks, c3, CheckRuns.LoadRules(id));
            id in s5.checks.calls && s5.checks.calls[id] == CheckRuns.Stepped(w.env, s.checks, c4, CheckRuns.LoadNarrowing(id, None))
  {
    var s4 := Next(w, s3, LoadRules(id));
    CheckOnly(w, s3, LoadRules(id));
    CheckRuns.CallStep(w.env, s3.checks, s.checks, c3, CheckRuns.LoadRules(id));
    CheckOnly(w, s4, LoadNarrowing(id, None));
    CheckRuns.CallStep(w.env, s4.checks, s.checks, s4.checks.calls[id], CheckRuns.LoadNarrowing(id, None));
  }

  lemma SteppedElsewhere(env: Env, a: CheckRuns.State, b: CheckRuns.State, c: CheckRuns.Call, step: CheckRuns.Step)
    requires a.lists == b.lists && a.lists != []
    ensures CheckRuns.Stepped(env, a, c, step) == CheckRuns.Stepped(env, b, c, step)
  {
  }

  /** The answer of the token service reaches the caller: a call that has passed ends with the token
      that replaces its own with the scope asked for. */
  lemma AnswerIsReturned(w: World, s: State, id: nat, j: nat)
    requires Ready(s) && Answers(w, s, id, j)
    ensures var s' := Next(w, s, LoadNarrowing(id, Some(j)));
            && id in s'.checks.calls && s'.checks.calls[id].phase.Done?
            && s'.checks.calls[id].phase.response == CheckRuns.Allow(Some(s.gate.tts.issued[j].token))
  {
  }
}
