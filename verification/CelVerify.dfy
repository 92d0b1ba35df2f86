/** CEL expressions attached to verification rules (pkg/extauth/celverify). The library's
    compiler and evaluator are parameters. */
module CelVerify {
  import opened Wrappers
  import opened Rules
  import opened Tokens

  /** What an expression can see: the token's claims and the request. */
  datatype RequestContext = RequestContext(claims: Claims, path: string, verb: string, headers: map<string, string>)

  datatype Outcome = Holds | Fails | EvalError(reason: string)

  datatype VerifierCel = VerifierCel(compiles: string -> bool, eval: (string, RequestContext) -> Outcome)

  /** A compiled rule; its program is named by its expression. */
  datatype Program = Program(name: string, program: string, message: string)

  datatype CompileError = EmptyExpression(index: nat, name: string) | BadExpression(name: string)

  datatype Denial = Denied(ruleName: string, message: string) | Broken(ruleName: string, reason: string)

  predicate Compilable(cel: VerifierCel, r: CelRule) { r.cel != "" && cel.compiles(r.cel) }

  function ProgramOf(r: CelRule): Program { Program(r.name, r.cel, r.message) }

  /** Compiles all rules or fails on the first invalid one. */
  method Compile(cel: VerifierCel, rules: seq<CelRule>) returns (r: Result<seq<Program>, CompileError>)
    ensures r.Ok? <==> forall i :: 0 <= i < |rules| ==> Compilable(cel, rules[i])
    ensures r.Ok? ==> r.value == seq(|rules|, i requires 0 <= i < |rules| => ProgramOf(rules[i]))
    ensures r.Err? ==> exists i ::
              && 0 <= i < |rules| && !Compilable(cel, rules[i]) && (forall j :: 0 <= j < i ==> Compilable(cel, rules[j]))
              && r.error == if rules[i].cel == "" then EmptyExpression(i, rules[i].name) else BadExpression(rules[i].name)
  {
    var out: seq<Program> := [];
    for i := 0 to |rules|
      invariant forall j :: 0 <= j < i ==> Compilable(cel, rules[j])
      invariant |out| == i && forall j :: 0 <= j < i ==> out[j] == ProgramOf(rules[j])
    {
      var rule := rules[i];
      if rule.cel == "" {
        return Err(EmptyExpression(i, rule.name));
      }
      if !cel.compiles(rule.cel) {
        return Err(BadExpression(rule.name));
      }
      out := out + [Program(rule.name, rule.cel, rule.message)];
    }
    return Ok(out);
  }

  /** The programs of a rule's compiling expressions, in order; the others are dropped. */
  function Programs(cel: VerifierCel, rules: seq<CelRule>): (out: seq<Program>)
  {
    if rules == [] then []
    else Programs(cel, rules[..|rules| - 1]) + if Compilable(cel, rules[|rules| - 1]) then [ProgramOf(rules[|rules| - 1])] else []
  }

  /** Compiles each expression on its own, skipping those that fail. */
  method CompileVerificationRuleCel(cel: VerifierCel, rule: VerificationRule) returns (out: seq<Program>)
    ensures out == Programs(cel, rule.celRules)
  {
    out := [];
    for i := 0 to |rule.celRules|
      invariant out == Programs(cel, rule.celRules[..i])
    {
      var single := [rule.celRules[i]];
      assert rule.celRules[..i + 1][..i] == rule.celRules[..i];
      var r := Compile(cel, single);
      assert r.Ok? <==> Compilable(cel, single[0]);
      if r.Ok? {
        out := out + r.value;
      }
    }
    assert rule.celRules[..|rule.celRules|] == rule.celRules;
  }

  function DenialOf(cel: VerifierCel, p: Program, ctx: RequestContext): Denial {
    match cel.eval(p.program, ctx)
    case EvalError(reason) => Broken(p.name, reason)
    case _ => Denied(p.name, p.message)
  }

  /** The denial of the first program that does not hold. */
  function FirstDenial(cel: VerifierCel, programs: seq<Program>, ctx: RequestContext): (d: Option<Denial>)
    ensures d.None? <==> forall i :: 0 <= i < |programs| ==> cel.eval(programs[i].program, ctx) == Holds
  {
    if programs == [] then None
    else if cel.eval(programs[0].program, ctx) != Holds then Some(DenialOf(cel, programs[0], ctx))
    else FirstDenial(cel, programs[1..], ctx)
  }

  method Evaluate(cel: VerifierCel, programs: seq<Program>, ctx: RequestContext) returns (d: Option<Denial>)
    ensures d == FirstDenial(cel, programs, ctx)
  {
    var i := 0;
    while i < |programs|
      invariant 0 <= i <= |programs| && FirstDenial(cel, programs, ctx) == FirstDenial(cel, programs[i..], ctx)
    {
      var p := programs[i];
      assert programs[i..][0] == p && programs[i..][1..] == programs[i + 1..];
      match cel.eval(p.program, ctx) {
        case Holds =>
        case Fails => return Some(Denied(p.name, p.message));
        case EvalError(reason) => return Some(Broken(p.name, reason));
      }
      i := i + 1;
    }
    assert programs[|programs|..] == [];
    return None;
  }

  /** The compiled programs hold exactly when every compiling expression holds. */
  lemma {:induction false} ProgramsHold(cel: VerifierCel, rules: seq<CelRule>, ctx: RequestContext)
    ensures (forall i :: 0 <= i < |Programs(cel, rules)| ==> cel.eval(Programs(cel, rules)[i].program, ctx) == Holds)
            <==>
            (forall i :: 0 <= i < |rules| && Compilable(cel, rules[i]) ==> cel.eval(rules[i].cel, ctx) == Holds)
  {
    if rules != [] {
      var front, last := rules[..|rules| - 1], rules[|rules| - 1];
      ProgramsHold(cel, front, ctx);
      var before, all := Programs(cel, front), Programs(cel, rules);
      assert forall i :: 0 <= i < |front| ==> front[i] == rules[i];
      assert forall i :: 0 <= i < |before| ==> all[i] == before[i];
      if Compilable(cel, last) {
        assert all[|before|] == ProgramOf(last);
      }
    }
  }
}
