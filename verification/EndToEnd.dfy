/** From TokenPolicies to token issuance: reconciler, rule server, stream, client, setter and
    handler composed over whole runs. */
module EndToEnd {
  import opened Wrappers
  import opened Rules
  import opened RuleList
  import opened Sorting
  import opened Distribution
  import opened DistributionProofs
  import opened Streams
  import opened Issuance
  import opened IssuanceHandler
  import opened PolicyReconciler

  // ----- the handler over a history of handoffs -----

  /** What a handler evaluates and whether its client reports ready. */
  datatype Tts = Tts(rules: Option<seq<CompiledRule>>, ready: bool)

  function InOrder(flat: seq<IssuanceRule>): seq<IssuanceRule> {
    Sort(KeyFor, IssuanceKeyLess, flat)
  }

  /** A list handed to the setter: in force as a whole if it compiles, else ignored. */
  function Accept(cel: Cel, t: Tts, flat: seq<IssuanceRule>): Tts {
    match Compiled(cel, Configs(InOrder(flat)))
    case Ok(rules) => Tts(Some(rules), true)
    case Err(_) => t
  }

  /** A client's handler after the setter calls of a log. */
  function Handled(cel: Cel, client: nat, log: seq<Handoff<IssuanceRule>>): Tts {
    if log == [] then Tts(None, false)
    else
      var before := Handled(cel, client, log[..|log| - 1]);
      var e := log[|log| - 1];
      if e.client == client then Accept(cel, before, e.rules) else before
  }

  predicate Accepted(cel: Cel, client: nat, e: Handoff<IssuanceRule>) {
    e.client == client && Compiled(cel, Configs(InOrder(e.rules))).Ok?
  }

  /** The last setter call of a client that was accepted. */
  function LastAccepted(cel: Cel, client: nat, log: seq<Handoff<IssuanceRule>>): (at: Option<nat>)
    ensures at.Some? ==> at.value < |log| && Accepted(cel, client, log[at.value])
    ensures forall j :: (if at.Some? then at.value + 1 else 0) <= j < |log| ==> !Accepted(cel, client, log[j])
  {
    if log == [] then None
    else if Accepted(cel, client, log[|log| - 1]) then Some(|log| - 1)
    else LastAccepted(cel, client, log[..|log| - 1])
  }

  /** At every point of a run the handler holds nothing, or the complete compilation of the
      last set its client received that compiles as a whole; rejected sets change nothing.
      Ready means that some set has been accepted. */
  lemma {:induction false} HandlerHoldsOneWholeSet(cel: Cel, client: nat, log: seq<Handoff<IssuanceRule>>)
    ensures var at := LastAccepted(cel, client, log);
            Handled(cel, client, log) ==
              if at.None? then Tts(None, false)
              else Tts(Some(Compiled(cel, Configs(InOrder(log[at.value].rules))).value), true)
  {
    if log != [] {
      HandlerHoldsOneWholeSet(cel, client, log[..|log| - 1]);
    }
  }

  /** Once ready, a client stays ready. */
  lemma {:induction false} ReadyNeverReverts(cel: Cel, client: nat, log: seq<Handoff<IssuanceRule>>, n: nat)
    requires n <= |log| && Handled(cel, client, log[..n]).ready
    ensures Handled(cel, client, log).ready
  {
    if n == |log| {
      assert log[..n] == log;
    } else {
      assert log[..|log| - 1][..n] == log[..n];
      ReadyNeverReverts(cel, client, log[..|log| - 1], n);
    }
  }

  // ----- evaluating a distributed set -----

  /** A published rule does not stand in the way of issuance. */
  predicate Satisfied(cel: Cel, r: IssuanceRule, ctx: IssuanceContext) {
    Applies(r.targetNamespaces, ctx.workloadNs) ==> cel.eval(r.cel, ctx) == Holds
  }

  lemma SortedMembers(flat: seq<IssuanceRule>, r: IssuanceRule)
    ensures r in InOrder(flat) <==> r in flat
  {
    IssuanceKeyOrder();
    SortIsSorted(KeyFor, IssuanceKeyLess, flat);
    assert r in multiset(InOrder(flat)) <==> r in multiset(flat);
  }

  /** A list is accepted exactly when each of its rules compiles, in whatever order it came;
      then issuance passes exactly when each of its rules is satisfied. */
  lemma AcceptedAndEvaluated(cel: Cel, flat: seq<IssuanceRule>, ctx: IssuanceContext)
    ensures Compiled(cel, Configs(InOrder(flat))).Ok? <==> forall r :: r in flat ==> Compilable(cel, r.cel)
    ensures Compiled(cel, Configs(InOrder(flat))).Ok? ==>
              (FirstDenial(cel, Compiled(cel, Configs(InOrder(flat))).value, ctx).None?
               <==> forall r :: r in flat ==> Satisfied(cel, r, ctx))
  {
    var sorted := InOrder(flat);
    var configs := Configs(sorted);
    assert forall i :: 0 <= i < |sorted| ==> configs[i].cel == sorted[i].cel;
    forall r ensures r in sorted <==> r in flat { SortedMembers(flat, r); }
    if Compiled(cel, configs).Ok? {
      forall r | r in flat ensures Compilable(cel, r.cel) {
        var i :| 0 <= i < |sorted| && sorted[i] == r;
        assert Compilable(cel, configs[i].cel);
      }
      var rules := Compiled(cel, configs).value;
      assert forall i :: 0 <= i < |rules| ==> (Passes(cel, rules[i], ctx) <==> Satisfied(cel, sorted[i], ctx));
      forall r | r in flat && FirstDenial(cel, rules, ctx).None? ensures Satisfied(cel, r, ctx) {
        var i :| 0 <= i < |sorted| && sorted[i] == r;
        assert Passes(cel, rules[i], ctx);
      }
    }
  }

  /** The denial for a rule: its message under its qualified name, or why it could not be evaluated. */
  function DenialFor(cel: Cel, r: IssuanceRule, ctx: IssuanceContext): Denial {
    match cel.eval(r.cel, ctx)
    case EvalError(reason) => Broken(QualifiedName(r), reason)
    case _ => Denied(QualifiedName(r), r.message)
  }

  /** The reported denial is that of the least failing rule in key order, whatever order the
      rules were received in. */
  lemma LeastFailureIsReported(cel: Cel, m: map<IssuanceKey, IssuanceRule>, flat: seq<IssuanceRule>, ctx: IssuanceContext)
    requires Enumerates(KeyFor, m, flat) && Compiled(cel, Configs(InOrder(flat))).Ok?
    requires FirstDenial(cel, Compiled(cel, Configs(InOrder(flat))).value, ctx).Some?
    ensures exists r ::
              && r in flat && !Satisfied(cel, r, ctx)
              && FirstDenial(cel, Compiled(cel, Configs(InOrder(flat))).value, ctx) == Some(DenialFor(cel, r, ctx))
              && forall other :: other in flat && !Satisfied(cel, other, ctx) && other != r ==> IssuanceKeyLess(KeyFor(r), KeyFor(other))
  {
    var sorted := InOrder(flat);
    IssuanceKeyOrder();
    SortIsSorted(KeyFor, IssuanceKeyLess, flat);
    SortIsCanonical(KeyFor, IssuanceKeyLess, m, flat, sorted, flat);
    var i := FirstFailing(cel, sorted, ctx);
    var r := sorted[i];
    SortedMembers(flat, r);
    forall other | other in flat && !Satisfied(cel, other, ctx) && other != r
      ensures IssuanceKeyLess(KeyFor(r), KeyFor(other))
    {
      SortedMembers(flat, other);
      var j :| 0 <= j < |sorted| && sorted[j] == other;
      assert i < j;
    }
  }

  lemma FirstFailing(cel: Cel, rules: seq<IssuanceRule>, ctx: IssuanceContext) returns (i: nat)
    requires FirstDenial(cel, AllCompiled(Configs(rules)), ctx).Some?
    ensures i < |rules| && !Satisfied(cel, rules[i], ctx)
    ensures FirstDenial(cel, AllCompiled(Configs(rules)), ctx) == Some(DenialOf(cel, CompiledOf(ConfigFor(rules[i])), ctx))
    ensures forall j :: 0 <= j < |rules| && !Satisfied(cel, rules[j], ctx) ==> i <= j
  {
    var compiled := AllCompiled(Configs(rules));
    assert forall k :: 0 <= k < |rules| ==> compiled[k] == CompiledOf(ConfigFor(rules[k]));
    assert forall k :: 0 <= k < |rules| ==> (Passes(cel, compiled[k], ctx) <==> Satisfied(cel, rules[k], ctx));
    var d := FirstDenial(cel, compiled, ctx);
    i :| && 0 <= i < |compiled| && !Passes(cel, compiled[i], ctx) && d.value == DenialOf(cel, compiled[i], ctx)
         && forall j :: 0 <= j < i ==> Passes(cel, compiled[j], ctx);
  }

  // ----- whole runs -----

  /** Every rule of a view is satisfied. */
  ghost predicate ViewSatisfied(cel: Cel, view: map<IssuanceKey, IssuanceRule>, ctx: IssuanceContext) {
    forall k :: k in view ==> Satisfied(cel, view[k], ctx)
  }

  ghost predicate ListSatisfied(cel: Cel, rules: seq<IssuanceRule>, ctx: IssuanceContext) {
    forall i :: 0 <= i < |rules| ==> Satisfied(cel, rules[i], ctx)
  }

  /** Enumerating a view does not change what it demands. */
  lemma EnumerationDemands(cel: Cel, view: map<IssuanceKey, IssuanceRule>, flat: seq<IssuanceRule>, ctx: IssuanceContext)
    requires Enumerates(KeyFor, view, flat)
    ensures ViewSatisfied(cel, view, ctx) <==> ListSatisfied(cel, flat, ctx)
  {
    if ViewSatisfied(cel, view, ctx) {
      forall i | 0 <= i < |flat| ensures Satisfied(cel, flat[i], ctx) {
        EnumeratedMember(view, flat, flat[i]);
      }
    }
    if ListSatisfied(cel, flat, ctx) {
      forall k | k in view ensures Satisfied(cel, view[k], ctx) {
        ViewLookup(KeyFor, flat, k);
      }
    }
  }

  ghost predicate FromPolicies(cel: Cel, rules: seq<IssuanceRule>) {
    exists policies :: rules == Rebuilt(cel, policies)
  }

  /** The reconciler is the only publisher of the run. */
  ghost predicate ReconcilerRun(cel: Cel, run: seq<Step<IssuanceRule>>) {
    forall i :: 0 <= i < |run| && run[i].Publish? ==> run[i].edit.Replace? && FromPolicies(cel, run[i].edit.rules)
  }

  lemma {:induction false} HistoryIsPublished(cel: Cel, run: seq<Step<IssuanceRule>>)
    requires ReconcilerRun(cel, run)
    ensures forall v :: 0 <= v < |After(IssuanceStream, run).hist| ==> FromPolicies(cel, After(IssuanceStream, run).hist[v])
  {
    if run == [] {
      assert Rebuilt(cel, []) == [];
      assert FromPolicies(cel, []);
    } else {
      HistoryIsPublished(cel, run[..|run| - 1]);
    }
  }

  /** The last setter call of a client in a log. */
  predicate IsLatest(client: nat, log: seq<Handoff<IssuanceRule>>, at: nat) {
    at < |log| && log[at].client == client && forall j :: at < j < |log| ==> log[j].client != client
  }

  /** In every run in which the reconciler publishes, for every client and every policy list:
      no set is ever rejected, so the handler evaluates exactly the latest set received, and
      issuance passes for a context exactly when the rules the server's list maps its keys to,
      at that set's version, are satisfied. */
  lemma PoliciesReachTheHandler(cel: Cel, run: seq<Step<IssuanceRule>>, client: nat, at: nat, ctx: IssuanceContext)
    requires ReconcilerRun(cel, run) && IsLatest(client, After(IssuanceStream, run).log, at)
    ensures var s := After(IssuanceStream, run);
            var t := Handled(cel, client, s.log);
            && t.ready && t.rules.Some? && s.log[at].version < |s.hist|
            && (forall i :: 0 <= i < |s.log| ==> Compiled(cel, Configs(InOrder(s.log[i].rules))).Ok?)
            && (FirstDenial(cel, t.rules.value, ctx).None? <==> ViewSatisfied(cel, View(KeyFor, s.hist[s.log[at].version]), ctx))
  {
    var s := After(IssuanceStream, run);
    forall i | 0 <= i < |s.log| ensures Compiled(cel, Configs(InOrder(s.log[i].rules))).Ok? {
      HandoffOfRun(cel, run, i, ctx);
    }
    HandoffOfRun(cel, run, at, ctx);
    LatestIsInForce(cel, client, s.log, at);
  }

  /** When no set is rejected, the latest one is in force. */
  lemma LatestIsInForce(cel: Cel, client: nat, log: seq<Handoff<IssuanceRule>>, at: nat)
    requires IsLatest(client, log, at)
    requires forall i :: 0 <= i < |log| ==> Compiled(cel, Configs(InOrder(log[i].rules))).Ok?
    ensures Handled(cel, client, log) == Tts(Some(Compiled(cel, Configs(InOrder(log[at].rules))).value), true)
  {
    HandlerHoldsOneWholeSet(cel, client, log);
    assert Accepted(cel, client, log[at]);
  }

  lemma HandoffOfRun(cel: Cel, run: seq<Step<IssuanceRule>>, i: nat, ctx: IssuanceContext)
    requires ReconcilerRun(cel, run) && i < |After(IssuanceStream, run).log|
    ensures var s := After(IssuanceStream, run);
            && s.log[i].version < |s.hist|
            && Compiled(cel, Configs(InOrder(s.log[i].rules))).Ok?
            && (FirstDenial(cel, Compiled(cel, Configs(InOrder(s.log[i].rules))).value, ctx).None?
                <==> ViewSatisfied(cel, View(KeyFor, s.hist[s.log[i].version]), ctx))
  {
    var s := After(IssuanceStream, run);
    StreamsAreFaithful();
    SnapshotRunsFollowTheServer(IssuanceStream, run);
    HistoryIsPublished(cel, run);
    HandoffCompiles(cel, s.hist[s.log[i].version], s.log[i].rules, ctx);
  }

  lemma HandoffCompiles(cel: Cel, published: seq<IssuanceRule>, flat: seq<IssuanceRule>, ctx: IssuanceContext)
    requires FromPolicies(cel, published) && Enumerates(KeyFor, View(KeyFor, published), flat)
    ensures Compiled(cel, Configs(InOrder(flat))).Ok?
    ensures FirstDenial(cel, Compiled(cel, Configs(InOrder(flat))).value, ctx).None? <==> ViewSatisfied(cel, View(KeyFor, published), ctx)
  {
    var policies :| published == Rebuilt(cel, policies);
    var view := View(KeyFor, published);
    PublishedRulesCompile(cel, policies);
    forall r | r in flat ensures Compilable(cel, r.cel) {
      EnumeratedMember(view, flat, r);
      ViewLookup(KeyFor, published, KeyFor(r));
    }
    AcceptedAndEvaluated(cel, flat, ctx);
    EnumerationDemands(cel, view, flat, ctx);
    assert ListSatisfied(cel, flat, ctx) <==> forall r :: r in flat ==> Satisfied(cel, r, ctx);
  }

  lemma EnumeratedMember(view: map<IssuanceKey, IssuanceRule>, flat: seq<IssuanceRule>, r: IssuanceRule)
    requires Enumerates(KeyFor, view, flat)
    ensures r in flat <==> KeyFor(r) in view && view[KeyFor(r)] == r
  {
    ViewLookup(KeyFor, flat, KeyFor(r));
    if r in flat {
      var i :| 0 <= i < |flat| && flat[i] == r;
      LookupOfDistinct(KeyFor, flat, i);
    }
  }

  /** With distinct names issuance passes exactly when every published rule that applies in the
      workload's namespace evaluates to true. */
  lemma PublishedRulesGateIssuance(cel: Cel, run: seq<Step<IssuanceRule>>, client: nat, at: nat, policies: seq<TokenPolicy>, ctx: IssuanceContext)
    requires ReconcilerRun(cel, run) && IsLatest(client, After(IssuanceStream, run).log, at)
    requires WellNamed(policies)
    requires var s := After(IssuanceStream, run);
             s.log[at].version < |s.hist| && s.hist[s.log[at].version] == Rebuilt(cel, policies)
    ensures var t := Handled(cel, client, After(IssuanceStream, run).log);
            && t.rules.Some?
            && (FirstDenial(cel, t.rules.value, ctx).None? <==>
                forall r :: r in Rebuilt(cel, policies) && Applies(r.targetNamespaces, ctx.workloadNs) ==> cel.eval(r.cel, ctx) == Holds)
  {
    var published := Rebuilt(cel, policies);
    var view := View(KeyFor, published);
    PoliciesReachTheHandler(cel, run, client, at, ctx);
    RebuiltIsDistinct(cel, policies);
    EnumerationDemands(cel, view, published, ctx);
    assert ListSatisfied(cel, published, ctx) <==> forall r :: r in published ==> Satisfied(cel, r, ctx);
  }

  /** The policy is cluster-wide or lists the namespace of a workload that is known. */
  predicate Targets(p: TokenPolicy, ns: string) {
    p.targets.None? || p.targets.value.matchNames == [] || (ns != "" && ns in p.targets.value.matchNames)
  }

  /** Every compiling rule of every policy that targets the namespace evaluates to true. */
  ghost predicate PoliciesPass(cel: Cel, policies: seq<TokenPolicy>, ctx: IssuanceContext) {
    forall i, j :: 0 <= i < |policies| && 0 <= j < |policies[i].rules| && Targets(policies[i], ctx.workloadNs) ==>
      var expr := policies[i].rules[j].cel; expr != "" && cel.compiles(expr) ==> cel.eval(expr, ctx) == Holds
  }

  lemma PublishedMeansPolicies(cel: Cel, policies: seq<TokenPolicy>, ctx: IssuanceContext)
    requires WellNamed(policies)
    ensures (forall r :: r in Rebuilt(cel, policies) && Applies(r.targetNamespaces, ctx.workloadNs) ==> cel.eval(r.cel, ctx) == Holds)
            <==> PoliciesPass(cel, policies, ctx)
  {
    if PoliciesPass(cel, policies, ctx) {
      forall r | r in Rebuilt(cel, policies) && Applies(r.targetNamespaces, ctx.workloadNs) ensures cel.eval(r.cel, ctx) == Holds {
        RebuiltMembers(cel, policies, r);
        var i, j :| 0 <= i < |policies| && 0 <= j < |policies[i].rules| && Good(cel, policies[i].rules[j]) && r == IssuanceRuleOf(policies[i], policies[i].rules[j]);
        assert Targets(policies[i], ctx.workloadNs) && policies[i].rules[j].cel == r.cel;
      }
    } else {
      var i, j :| 0 <= i < |policies| && 0 <= j < |policies[i].rules| && Targets(policies[i], ctx.workloadNs)
                  && policies[i].rules[j].cel != "" && cel.compiles(policies[i].rules[j].cel) && cel.eval(policies[i].rules[j].cel, ctx) != Holds;
      var r := IssuanceRuleOf(policies[i], policies[i].rules[j]);
      assert Good(cel, policies[i].rules[j]);
      RebuiltMembers(cel, policies, r);
      assert Applies(r.targetNamespaces, ctx.workloadNs);
    }
  }

  /** With distinct names issuance passes, for every context, exactly when every compiling rule of
      every policy that is cluster-wide or lists the workload's namespace evaluates to true. */
  lemma DistinctNamesGateIssuance(cel: Cel, run: seq<Step<IssuanceRule>>, client: nat, at: nat, policies: seq<TokenPolicy>, ctx: IssuanceContext)
    requires ReconcilerRun(cel, run) && IsLatest(client, After(IssuanceStream, run).log, at)
    requires WellNamed(policies)
    requires var s := After(IssuanceStream, run);
             s.log[at].version < |s.hist| && s.hist[s.log[at].version] == Rebuilt(cel, policies)
    ensures var t := Handled(cel, client, After(IssuanceStream, run).log);
            t.rules.Some? && (FirstDenial(cel, t.rules.value, ctx).None? <==> PoliciesPass(cel, policies, ctx))
  {
    PublishedRulesGateIssuance(cel, run, client, at, policies, ctx);
    PublishedMeansPolicies(cel, policies, ctx);
  }

  // ----- repeated names -----

  /** A surviving rule with this expression applies in the namespace. */
  ghost predicate Survives(view: map<IssuanceKey, IssuanceRule>, expr: string, ns: string) {
    exists k :: k in view && view[k].cel == expr && Applies(view[k].targetNamespaces, ns)
  }

  /** Every published rule is backed, in each namespace it applies to, by a surviving rule
      with the same expression. */
  ghost predicate Backed(published: seq<IssuanceRule>) {
    forall i, ns :: 0 <= i < |published| && Applies(published[i].targetNamespaces, ns) ==>
      Survives(View(KeyFor, published), published[i].cel, ns)
  }

  /** The surviving rules decide like the published ones for this evaluation and context. */
  ghost predicate SameDecision(cel: Cel, published: seq<IssuanceRule>, ctx: IssuanceContext) {
    ViewSatisfied(cel, View(KeyFor, published), ctx) <==> ListSatisfied(cel, published, ctx)
  }

  /** Where names repeat, rules shadow each other on the way. Whatever the expressions evaluate
      to, the decision stays that of the published list exactly when it is backed. */
  lemma ShadowingIsHarmlessIff(compiles: string -> bool, published: seq<IssuanceRule>)
    ensures (forall eval: (string, IssuanceContext) -> Verdict, ctx :: SameDecision(Cel(compiles, eval), published, ctx))
            <==>
            Backed(published)
  {
    if Backed(published) {
      forall eval: (string, IssuanceContext) -> Verdict, ctx ensures SameDecision(Cel(compiles, eval), published, ctx) {
        BackedDecides(Cel(compiles, eval), published, ctx);
      }
    } else {
      var view := View(KeyFor, published);
      var i, ns :| 0 <= i < |published| && Applies(published[i].targetNamespaces, ns) && !Survives(view, published[i].cel, ns);
      var expr := published[i].cel;
      var eval := (e: string, c: IssuanceContext) => if e == expr then Fails else Holds;
      var cel := Cel(compiles, eval);
      var ctx := IssuanceContext("", "", None, None, "", ns);
      assert !Satisfied(cel, published[i], ctx);
      forall k | k in view ensures Satisfied(cel, view[k], ctx) {
        assert view[k].cel == expr && Applies(view[k].targetNamespaces, ns) ==> Survives(view, expr, ns);
      }
      assert !SameDecision(Cel(compiles, eval), published, ctx);
    }
  }

  lemma BackedDecides(cel: Cel, published: seq<IssuanceRule>, ctx: IssuanceContext)
    requires Backed(published)
    ensures SameDecision(cel, published, ctx)
  {
    var view := View(KeyFor, published);
    if ListSatisfied(cel, published, ctx) {
      forall k | k in view ensures Satisfied(cel, view[k], ctx) {
        ViewLookup(KeyFor, published, k);
      }
    }
    if ViewSatisfied(cel, view, ctx) {
      forall i | 0 <= i < |published| ensures Satisfied(cel, published[i], ctx) {
        if Applies(published[i].targetNamespaces, ctx.workloadNs) {
          assert Survives(view, published[i].cel, ctx.workloadNs);
          var k :| k in view && view[k].cel == published[i].cel && Applies(view[k].targetNamespaces, ctx.workloadNs);
          assert Satisfied(cel, view[k], ctx);
        }
      }
    }
  }
}
