/** Compiling and evaluating CEL issuance rules (pkg/tts/cel.go). The CEL library itself is a
    parameter: whether an expression compiles to a boolean program, and what the program
    yields on a context. */
module Issuance {
  import opened Wrappers
  import opened Json

  datatype IssuanceContext = IssuanceContext(
    subject: string, scope: string, tctx: Option<Object>, rctx: Option<Object>,
    workload: string, workloadNs: string)

  /** Outcome of running one program. */
  datatype Verdict = Holds | Fails | EvalError(reason: string)

  /** The CEL library as the handler sees it. */
  datatype Cel = Cel(compiles: string -> bool, eval: (string, IssuanceContext) -> Verdict)

  datatype RuleConfig = RuleConfig(name: string, cel: string, message: string, targetNamespaces: seq<string>)

  /** A compiled rule; its program is named by its expression. */
  datatype CompiledRule = CompiledRule(name: string, program: string, message: string, targetNamespaces: seq<string>)

  datatype CompileError = EmptyExpression(index: nat, name: string) | BadExpression(name: string)

  datatype Denial = Denied(ruleName: string, message: string) | Broken(ruleName: string, reason: string)

  predicate Compilable(cel: Cel, expr: string) { expr != "" && cel.compiles(expr) }

  function CompiledOf(cfg: RuleConfig): CompiledRule {
    CompiledRule(cfg.name, cfg.cel, cfg.message, cfg.targetNamespaces)
  }

  function AllCompiled(configs: seq<RuleConfig>): seq<CompiledRule> {
    seq(|configs|, i requires 0 <= i < |configs| => CompiledOf(configs[i]))
  }

  /** Position of the first rule that does not compile, or the length. */
  function FirstBad(cel: Cel, configs: seq<RuleConfig>): (i: nat)
    ensures i <= |configs|
    ensures forall j :: 0 <= j < i ==> Compilable(cel, configs[j].cel)
    ensures i < |configs| ==> !Compilable(cel, configs[i].cel)
  {
    if configs == [] || !Compilable(cel, configs[0].cel) then 0 else 1 + FirstBad(cel, configs[1..])
  }

  /** All or nothing: the whole list compiled, or the error of the first bad rule. */
  function Compiled(cel: Cel, configs: seq<RuleConfig>): (r: Result<seq<CompiledRule>, CompileError>)
    ensures r.Ok? <==> forall i :: 0 <= i < |configs| ==> Compilable(cel, configs[i].cel)
  {
    var i := FirstBad(cel, configs);
    if i == |configs| then Ok(AllCompiled(configs))
    else if configs[i].cel == "" then Err(EmptyExpression(i, configs[i].name))
    else Err(BadExpression(configs[i].name))
  }

  method CompileIssuanceRules(cel: Cel, configs: seq<RuleConfig>) returns (r: Result<seq<CompiledRule>, CompileError>)
    ensures r == Compiled(cel, configs)
  {
    var rules: seq<CompiledRule> := [];
    for i := 0 to |configs|
      invariant i <= FirstBad(cel, configs)
      invariant rules == AllCompiled(configs[..i])
    {
      var cfg := configs[i];
      if cfg.cel == "" {
        return Err(EmptyExpression(i, cfg.name));
      }
      if !cel.compiles(cfg.cel) {
        return Err(BadExpression(cfg.name));
      }
      rules := rules + [CompiledRule(cfg.name, cfg.cel, cfg.message, cfg.targetNamespaces)];
    }
    assert configs[..|configs|] == configs;
    return Ok(rules);
  }

  /** Cluster-wide rules always apply; targeted rules only to a known, listed namespace. */
  predicate Applies(targets: seq<string>, ns: string) {
    targets == [] || (ns != "" && ns in targets)
  }

  method RuleAppliesToNamespace(targets: seq<string>, ns: string) returns (yes: bool)
    ensures yes == Applies(targets, ns)
  {
    if |targets| == 0 {
      return true;
    }
    if ns == "" {
      return false;
    }
    for i := 0 to |targets|
      invariant ns !in targets[..i]
    {
      if targets[i] == ns {
        return true;
      }
    }
    return false;
  }

  /** The rule does not stand in the way of issuance. */
  predicate Passes(cel: Cel, rule: CompiledRule, ctx: IssuanceContext) {
    Applies(rule.targetNamespaces, ctx.workloadNs) ==> cel.eval(rule.program, ctx) == Holds
  }

  function DenialOf(cel: Cel, rule: CompiledRule, ctx: IssuanceContext): Denial {
    match cel.eval(rule.program, ctx)
    case EvalError(reason) => Broken(rule.name, reason)
    case _ => Denied(rule.name, rule.message)
  }

  /** The denial of the first rule that does not pass, if any. */
  function FirstDenial(cel: Cel, rules: seq<CompiledRule>, ctx: IssuanceContext): (d: Option<Denial>)
    ensures d.None? <==> forall i :: 0 <= i < |rules| ==> Passes(cel, rules[i], ctx)
    ensures d.Some? ==> exists i ::
              && 0 <= i < |rules| && !Passes(cel, rules[i], ctx) && d.value == DenialOf(cel, rules[i], ctx)
              && forall j :: 0 <= j < i ==> Passes(cel, rules[j], ctx)
  {
    if rules == [] then None
    else if !Passes(cel, rules[0], ctx) then Some(DenialOf(cel, rules[0], ctx))
    else
      var rest := FirstDenial(cel, rules[1..], ctx);
      assert rest.Some? ==> exists i ::
          && 1 <= i < |rules| && !Passes(cel, rules[i], ctx) && rest.value == DenialOf(cel, rules[i], ctx)
          && forall j :: 0 <= j < i ==> Passes(cel, rules[j], ctx) by {
        if rest.Some? {
          var i :| && 0 <= i < |rules[1..]| && !Passes(cel, rules[1..][i], ctx) && rest.value == DenialOf(cel, rules[1..][i], ctx)
                   && forall j :: 0 <= j < i ==> Passes(cel, rules[1..][j], ctx);
          assert forall j :: 1 <= j < i + 1 ==> rules[j] == rules[1..][j - 1];
          assert rules[i + 1] == rules[1..][i];
        }
      }
      rest
  }

  method EvaluateIssuanceRules(cel: Cel, rules: seq<CompiledRule>, ctx: IssuanceContext) returns (d: Option<Denial>)
    ensures d == FirstDenial(cel, rules, ctx)
  {
    var i := 0;
    while i < |rules|
      invariant 0 <= i <= |rules|
      invariant FirstDenial(cel, rules, ctx) == FirstDenial(cel, rules[i..], ctx)
    {
      var rule := rules[i];
      assert rules[i..][0] == rule && rules[i..][1..] == rules[i + 1..];
      var applies := RuleAppliesToNamespace(rule.targetNamespaces, ctx.workloadNs);
      if applies {
        match cel.eval(rule.program, ctx) {
          case Holds =>
          case Fails => return Some(Denied(rule.name, rule.message));
          case EvalError(reason) => return Some(Broken(rule.name, reason));
        }
      }
      i := i + 1;
    }
    assert rules[|rules|..] == [];
    return None;
  }
}
