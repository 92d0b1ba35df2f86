/** The TokenPolicy reconciler: validating issuance rules and publishing the compiling ones. */
module PolicyReconciler {
  import opened Wrappers
  import opened Rules
  import opened RuleList
  import opened Issuance

  /** A rule inside a TokenPolicy. Nothing in the API makes names distinct. */
  datatype PolicyRule = PolicyRule(name: string, cel: string, message: string)

  datatype NamespaceSelector = NamespaceSelector(matchNames: seq<string>)

  datatype TokenPolicy = TokenPolicy(name: string, rules: seq<PolicyRule>, targets: Option<NamespaceSelector>)

  datatype CelError = CelError(ruleName: string, error: CompileError)

  function ConfigOf(r: PolicyRule): RuleConfig { RuleConfig(r.name, r.cel, r.message, []) }

  predicate Good(cel: Cel, r: PolicyRule) { Compilable(cel, r.cel) }

  predicate AllGood(cel: Cel, rules: seq<PolicyRule>) {
    forall i :: 0 <= i < |rules| ==> Good(cel, rules[i])
  }

  /** The errors of all broken rules, in order. */
  function BrokenRules(cel: Cel, rules: seq<PolicyRule>): (errs: seq<CelError>)
  {
    if rules == [] then []
    else
      var r := rules[|rules| - 1];
      var single := Compiled(cel, [ConfigOf(r)]);
      BrokenRules(cel, rules[..|rules| - 1]) + if single.Err? then [CelError(r.name, single.error)] else []
  }

  lemma CompiledAlone(cel: Cel, r: PolicyRule)
    ensures Compiled(cel, [ConfigOf(r)]).Ok? <==> Good(cel, r)
  {
    assert [ConfigOf(r)][0].cel == r.cel;
  }

  /** No error is reported exactly when every rule compiles on its own. */
  lemma {:induction false} NoErrorIff(cel: Cel, rules: seq<PolicyRule>)
    ensures BrokenRules(cel, rules) == [] <==> AllGood(cel, rules)
  {
    if rules != [] {
      var front, last := rules[..|rules| - 1], rules[|rules| - 1];
      NoErrorIff(cel, front);
      CompiledAlone(cel, last);
      AllGoodStep(cel, rules);
    }
  }

  lemma AllGoodStep(cel: Cel, rules: seq<PolicyRule>)
    requires rules != []
    ensures AllGood(cel, rules) <==> AllGood(cel, rules[..|rules| - 1]) && Good(cel, rules[|rules| - 1])
  {
    var front := rules[..|rules| - 1];
    assert forall i :: 0 <= i < |front| ==> front[i] == rules[i];
  }

  /** Compiles the whole set first and falls back to rule by rule; the fast path answers
      exactly what the slow path would. */
  method ValidateIssuanceCel(cel: Cel, rules: seq<PolicyRule>) returns (errs: seq<CelError>)
    ensures errs == BrokenRules(cel, rules)
  {
    if |rules| == 0 {
      return [];
    }
    var configs := seq(|rules|, i requires 0 <= i < |rules| => ConfigOf(rules[i]));
    var whole := CompileIssuanceRules(cel, configs);
    if whole.Ok? {
      forall i | 0 <= i < |rules| ensures Good(cel, rules[i]) {
        assert Compilable(cel, configs[i].cel);
      }
      NoErrorIff(cel, rules);
      return [];
    }
    errs := [];
    for i := 0 to |configs|
      invariant errs == BrokenRules(cel, rules[..i])
    {
      assert rules[..i + 1][..i] == rules[..i];
      var single := CompileIssuanceRules(cel, [configs[i]]);
      if single.Err? {
        errs := errs + [CelError(configs[i].name, single.error)];
      }
    }
    assert rules[..|rules|] == rules;
  }

  function TargetNames(sel: Option<NamespaceSelector>): seq<string> {
    if sel.None? then [] else sel.value.matchNames
  }

  /** No selector, and one without names, mean cluster-wide; else the names are copied. */
  method ResolveTargetNamespaces(sel: Option<NamespaceSelector>) returns (out: seq<string>)
    ensures out == TargetNames(sel)
  {
    if sel.None? {
      return [];
    }
    if |sel.value.matchNames| == 0 {
      return [];
    }
    out := [];
    for i := 0 to |sel.value.matchNames|
      invariant out == sel.value.matchNames[..i]
    {
      out := out + [sel.value.matchNames[i]];
    }
  }

  /** No rule of the policy under this name is broken. */
  predicate NameIsClean(cel: Cel, rules: seq<PolicyRule>, name: string) {
    forall i :: 0 <= i < |rules| && rules[i].name == name ==> Good(cel, rules[i])
  }

  function IssuanceRuleOf(p: TokenPolicy, r: PolicyRule): IssuanceRule {
    IssuanceRule("", p.name, r.name, r.cel, r.message, TargetNames(p.targets))
  }

  /** The published rules among the first n of a policy: those whose name is clean. */
  function PolicyRules(cel: Cel, p: TokenPolicy, n: nat): (out: seq<IssuanceRule>)
    requires n <= |p.rules|
  {
    if n == 0 then []
    else
      var r := p.rules[n - 1];
      PolicyRules(cel, p, n - 1) + if NameIsClean(cel, p.rules, r.name) then [IssuanceRuleOf(p, r)] else []
  }

  /** Everything published for a list of policies. */
  function Rebuilt(cel: Cel, policies: seq<TokenPolicy>): (out: seq<IssuanceRule>)
  {
    if policies == [] then []
    else
      var p := policies[|policies| - 1];
      Rebuilt(cel, policies[..|policies| - 1]) + PolicyRules(cel, p, |p.rules|)
  }

  method RebuildIssuanceRules(cel: Cel, policies: seq<TokenPolicy>) returns (rules: seq<IssuanceRule>)
    ensures rules == Rebuilt(cel, policies)
  {
    rules := [];
    for i := 0 to |policies|
      invariant rules == Rebuilt(cel, policies[..i])
    {
      rules := AppendPolicy(cel, policies[i], rules);
      assert policies[..i + 1][..i] == policies[..i];
    }
    assert policies[..|policies|] == policies;
  }

  /** The body of the loop over policies: drop the rules marked broken, append the others. */
  method AppendPolicy(cel: Cel, p: TokenPolicy, before: seq<IssuanceRule>) returns (rules: seq<IssuanceRule>)
    ensures rules == before + PolicyRules(cel, p, |p.rules|)
  {
    var errs := ValidateIssuanceCel(cel, p.rules);
    var broken: set<string> := {};
    for j := 0 to |errs|
      invariant broken == NamesIn(errs[..j])
    {
      broken := broken + {errs[j].ruleName};
      assert errs[..j + 1][..j] == errs[..j];
    }
    assert errs[..|errs|] == errs;
    var targets := ResolveTargetNamespaces(p.targets);
    rules := before;
    for j := 0 to |p.rules|
      invariant rules == before + PolicyRules(cel, p, j)
    {
      var r := p.rules[j];
      CleanIffNotBroken(cel, p.rules, r.name);
      if r.name !in broken {
        rules := rules + [IssuanceRule("", p.name, r.name, r.cel, r.message, targets)];
      }
    }
  }

  function NamesIn(errs: seq<CelError>): set<string> {
    if errs == [] then {} else NamesIn(errs[..|errs| - 1]) + {errs[|errs| - 1].ruleName}
  }

  /** A name is marked broken exactly when some rule under it is. */
  lemma {:induction false} CleanIffNotBroken(cel: Cel, rules: seq<PolicyRule>, name: string)
    ensures name !in NamesIn(BrokenRules(cel, rules)) <==> NameIsClean(cel, rules, name)
  {
    if rules != [] {
      var front, last := rules[..|rules| - 1], rules[|rules| - 1];
      CleanIffNotBroken(cel, front, name);
      CompiledAlone(cel, last);
      assert NameIsClean(cel, rules, name) <==> NameIsClean(cel, front, name) && (last.name == name ==> Good(cel, last)) by {
        assert forall i :: 0 <= i < |front| ==> front[i] == rules[i];
      }
      var errs := BrokenRules(cel, rules);
      if Good(cel, last) {
        assert errs == BrokenRules(cel, front);
      } else {
        assert errs[..|errs| - 1] == BrokenRules(cel, front);
      }
    }
  }

  // ----- what is published -----

  predicate DistinctNames(rules: seq<PolicyRule>) {
    forall i, j :: 0 <= i < j < |rules| ==> rules[i].name != rules[j].name
  }

  /** The compiling rules among the first n of a policy, in order. */
  function GoodRules(cel: Cel, p: TokenPolicy, n: nat): (out: seq<IssuanceRule>)
    requires n <= |p.rules|
  {
    if n == 0 then []
    else GoodRules(cel, p, n - 1) + if Good(cel, p.rules[n - 1]) then [IssuanceRuleOf(p, p.rules[n - 1])] else []
  }

  lemma {:induction false} PublishedLength(cel: Cel, p: TokenPolicy, n: nat)
    requires n <= |p.rules|
    ensures |PolicyRules(cel, p, n)| <= |GoodRules(cel, p, n)|
    ensures |PolicyRules(cel, p, n)| == |GoodRules(cel, p, n)| <==>
            forall i :: 0 <= i < n && Good(cel, p.rules[i]) ==> NameIsClean(cel, p.rules, p.rules[i].name)
    ensures (forall i :: 0 <= i < n && Good(cel, p.rules[i]) ==> NameIsClean(cel, p.rules, p.rules[i].name))
            ==> PolicyRules(cel, p, n) == GoodRules(cel, p, n)
  {
    if n > 0 {
      PublishedLength(cel, p, n - 1);
    }
  }

  /** A policy's published rules are exactly its compiling rules, in order, if and only if no
      compiling rule shares its name with a broken one; distinct names are enough. */
  lemma PublishesAllCompilingIff(cel: Cel, p: TokenPolicy)
    ensures (PolicyRules(cel, p, |p.rules|) == GoodRules(cel, p, |p.rules|))
            <==>
            (forall i :: 0 <= i < |p.rules| && Good(cel, p.rules[i]) ==> NameIsClean(cel, p.rules, p.rules[i].name))
    ensures DistinctNames(p.rules) ==> PolicyRules(cel, p, |p.rules|) == GoodRules(cel, p, |p.rules|)
  {
    PublishedLength(cel, p, |p.rules|);
    if DistinctNames(p.rules) {
      forall i | 0 <= i < |p.rules| && Good(cel, p.rules[i]) ensures NameIsClean(cel, p.rules, p.rules[i].name) {
      }
    }
  }

  lemma {:induction false} PolicyRulesFrom(cel: Cel, p: TokenPolicy, n: nat)
    requires n <= |p.rules|
    ensures forall r :: r in PolicyRules(cel, p, n) ==>
              Compilable(cel, r.cel) && r.policyNamespace == "" && r.policyName == p.name
              && exists i :: 0 <= i < n && r.ruleName == p.rules[i].name
  {
    if n > 0 {
      PolicyRulesFrom(cel, p, n - 1);
      var last := p.rules[n - 1];
      forall r | r in PolicyRules(cel, p, n)
        ensures Compilable(cel, r.cel) && r.policyNamespace == "" && r.policyName == p.name
                && exists i :: 0 <= i < n && r.ruleName == p.rules[i].name
      {
        if r !in PolicyRules(cel, p, n - 1) {
          assert r == IssuanceRuleOf(p, last) && NameIsClean(cel, p.rules, last.name);
        }
      }
    }
  }

  /** Only compiling rules are ever published, whatever the policies say. */
  lemma {:induction false} PublishedRulesCompile(cel: Cel, policies: seq<TokenPolicy>)
    ensures forall r :: r in Rebuilt(cel, policies) ==>
              Compilable(cel, r.cel) && r.policyNamespace == "" && exists i :: 0 <= i < |policies| && policies[i].name == r.policyName
  {
    if policies != [] {
      var front, p := policies[..|policies| - 1], policies[|policies| - 1];
      PublishedRulesCompile(cel, front);
      PolicyRulesFrom(cel, p, |p.rules|);
      forall r | r in Rebuilt(cel, policies)
        ensures Compilable(cel, r.cel) && r.policyNamespace == "" && exists i :: 0 <= i < |policies| && policies[i].name == r.policyName
      {
        if r in Rebuilt(cel, front) {
          var i :| 0 <= i < |front| && front[i].name == r.policyName;
          assert policies[i].name == r.policyName;
        } else {
          assert policies[|policies| - 1].name == r.policyName;
        }
      }
    }
  }

  /** Cluster-scoped policies have distinct names; here each also has distinct rule names. */
  predicate WellNamed(policies: seq<TokenPolicy>) {
    && (forall i, j :: 0 <= i < j < |policies| ==> policies[i].name != policies[j].name)
    && (forall i :: 0 <= i < |policies| ==> DistinctNames(policies[i].rules))
  }

  lemma {:induction false} GoodMembers(cel: Cel, p: TokenPolicy, n: nat, r: IssuanceRule)
    requires n <= |p.rules|
    ensures r in GoodRules(cel, p, n) <==> exists j :: 0 <= j < n && Good(cel, p.rules[j]) && r == IssuanceRuleOf(p, p.rules[j])
  {
    if n > 0 { GoodMembers(cel, p, n - 1, r); }
  }

  /** The rule is published for some rule of some policy. */
  predicate StemsFrom(cel: Cel, policies: seq<TokenPolicy>, r: IssuanceRule) {
    exists i, j :: 0 <= i < |policies| && 0 <= j < |policies[i].rules| && Good(cel, policies[i].rules[j]) && r == IssuanceRuleOf(policies[i], policies[i].rules[j])
  }

  /** With distinct names the published rules are those of all compiling rules of all policies. */
  lemma {:induction false} RebuiltMembers(cel: Cel, policies: seq<TokenPolicy>, r: IssuanceRule)
    requires WellNamed(policies)
    ensures r in Rebuilt(cel, policies) <==> StemsFrom(cel, policies, r)
  {
    if policies != [] {
      var front, p := policies[..|policies| - 1], policies[|policies| - 1];
      RebuiltMembers(cel, front, r);
      PublishesAllCompilingIff(cel, p);
      GoodMembers(cel, p, |p.rules|, r);
      StemsFromStep(cel, policies, r);
    }
  }

  lemma StemsFromStep(cel: Cel, policies: seq<TokenPolicy>, r: IssuanceRule)
    requires policies != []
    ensures var p := policies[|policies| - 1];
            StemsFrom(cel, policies, r) <==>
            || StemsFrom(cel, policies[..|policies| - 1], r)
            || exists j :: 0 <= j < |p.rules| && Good(cel, p.rules[j]) && r == IssuanceRuleOf(p, p.rules[j])
  {
    var front, p := policies[..|policies| - 1], policies[|policies| - 1];
    assert forall i :: 0 <= i < |front| ==> front[i] == policies[i];
    if j :| 0 <= j < |p.rules| && Good(cel, p.rules[j]) && r == IssuanceRuleOf(p, p.rules[j]) {
      assert policies[|policies| - 1].rules[j] == p.rules[j];
    }
  }

  lemma {:induction false} PolicyRulesDistinct(cel: Cel, p: TokenPolicy, n: nat)
    requires n <= |p.rules| && DistinctNames(p.rules)
    ensures Distinct(KeyFor, PolicyRules(cel, p, n))
  {
    if n > 0 {
      PolicyRulesDistinct(cel, p, n - 1);
      PolicyRulesFrom(cel, p, n - 1);
      var front := PolicyRules(cel, p, n - 1);
      forall i | 0 <= i < |front| ensures KeyFor(front[i]) != KeyFor(IssuanceRuleOf(p, p.rules[n - 1])) {
        assert front[i] in front;
      }
    }
  }

  /** Published lists have distinct keys when names are distinct. */
  lemma {:induction false} RebuiltIsDistinct(cel: Cel, policies: seq<TokenPolicy>)
    requires WellNamed(policies)
    ensures Distinct(KeyFor, Rebuilt(cel, policies))
  {
    if policies != [] {
      var front, p := policies[..|policies| - 1], policies[|policies| - 1];
      RebuiltIsDistinct(cel, front);
      PolicyRulesDistinct(cel, p, |p.rules|);
      PublishedRulesCompile(cel, front);
      PolicyRulesFrom(cel, p, |p.rules|);
      var a, b := Rebuilt(cel, front), PolicyRules(cel, p, |p.rules|);
      forall i, j | 0 <= i < |a| && 0 <= j < |b| ensures KeyFor(a[i]) != KeyFor(b[j]) {
        assert a[i] in a && b[j] in b;
      }
    }
  }
}
