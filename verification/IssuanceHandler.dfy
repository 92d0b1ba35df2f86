/** The TTS handler's issuance rule set and the setter that feeds it. */
module IssuanceHandler {
  import opened Wrappers
  import opened Rules
  import opened RuleList
  import opened Distribution
  import opened Wire
  import opened Issuance
  import opened Sorting
  import opened Text
  import RuleClient
  import Streams

  /** A compiled rule as stored: its namespaces are a slice that a caller could still write to. */
  datatype StoredRule = StoredRule(name: string, program: string, message: string, targets: array<string>)

  ghost function ValueOf(r: StoredRule): CompiledRule
    reads r.targets
  {
    CompiledRule(r.name, r.program, r.message, r.targets[..])
  }

  ghost predicate SameRules(stored: seq<StoredRule>, rules: seq<CompiledRule>)
    reads set r | r in stored :: r.targets
  {
    |stored| == |rules| && forall i :: 0 <= i < |stored| ==> ValueOf(stored[i]) == rules[i]
  }

  /** The handler's pointer to an immutable snapshot; `owned` are the arrays it is made of. */
  class Handler {
    var snapshot: array?<StoredRule>
    ghost var owned: set<object>
    ghost var loaded: seq<CompiledRule>

    ghost predicate Valid()
      reads this, owned
    {
      if snapshot == null then loaded == []
      else
        && snapshot in owned
        && (forall i :: 0 <= i < snapshot.Length ==> snapshot[i].targets in owned)
        && SameRules(snapshot[..], loaded)
    }

    constructor ()
      ensures Valid() && snapshot == null && loaded == [] && owned == {}
    {
      snapshot, owned, loaded := null, {}, [];
    }

    /** Copies the rules and their namespaces into fresh arrays and swaps the pointer: the
        handler then owns nothing the caller can reach. */
    method SetIssuanceRules(rules: array<StoredRule>, ghost values: seq<CompiledRule>)
      requires SameRules(rules[..], values)
      modifies this
      ensures Valid() && fresh(owned) && snapshot != null
      ensures loaded == values
    {
      var copy := new StoredRule[rules.Length](i requires 0 <= i < rules.Length reads rules => rules[i]);
      ghost var mine: set<object> := {copy};
      for i := 0 to rules.Length
        invariant fresh(copy) && fresh(mine) && copy in mine
        invariant SameRules(rules[..], values)
        invariant forall j :: 0 <= j < i ==> copy[j].targets in mine && copy[j].targets != copy as object
        invariant forall j :: 0 <= j < i ==> ValueOf(copy[j]) == values[j]
        invariant forall j :: i <= j < copy.Length ==> copy[j] == rules[j]
      {
        var r := rules[i];
        var ns := new string[r.targets.Length](j requires 0 <= j < r.targets.Length reads r.targets => r.targets[j]);
        assert ns[..] == r.targets[..];
        mine := mine + {ns};
        assert ValueOf(rules[..][i]) == values[i];
        copy[i] := r.(targets := ns);
      }
      snapshot := copy;
      owned := mine;
      loaded := values;
    }
  }

  /** A caller that hands rules over and afterwards overwrites its own arrays does not change
      what the handler evaluates. */
  method HandOverThenMutate(h: Handler, rules: array<StoredRule>, ghost values: seq<CompiledRule>, i: nat, junk: StoredRule, name: string)
    requires SameRules(rules[..], values) && i < rules.Length && rules[i].targets.Length > 0
    modifies h, rules, rules[i].targets
    ensures h.Valid() && h.loaded == values
  {
    var targets := rules[i].targets;
    h.SetIssuanceRules(rules, values);
    targets[0] := name;
    rules[i] := junk;
  }

  // ----- the setter -----

  /** "[namespace/][policy/]rule". */
  function QualifiedName(r: IssuanceRule): string {
    var name := if r.policyName != "" then r.policyName + "/" + r.ruleName else r.ruleName;
    if r.policyNamespace != "" then r.policyNamespace + "/" + name else name
  }

  lemma CutAtSlash(a: string, x: string, b: string, y: string)
    requires Free(a, '/') && Free(b, '/') && a + "/" + x == b + "/" + y
    ensures a == b && x == y
  {
    IndexOfConcat(a, '/', x);
    IndexOfConcat(b, '/', y);
    assert a == (a + ['/'] + x)[..|a|] && b == (b + ['/'] + y)[..|b|];
    assert x == (a + ['/'] + x)[|a| + 1..] && y == (b + ['/'] + y)[|b| + 1..];
  }

  /** A rule with a namespace and one without, whose policy is named like that namespace and
      whose own name spells out the other's policy and name. */
  predicate Clash(a: IssuanceRule, b: IssuanceRule) {
    && a.policyNamespace != "" && b.policyNamespace == "" && b.policyName == a.policyNamespace
    && b.ruleName == a.policyName + "/" + a.ruleName
  }

  predicate WellNamedRule(r: IssuanceRule) {
    r.policyName != "" && Free(r.policyName, '/') && Free(r.policyNamespace, '/')
  }

  /** With slash-free namespaces and present, slash-free policy names, two rules share an
      identifier exactly when they have the same key or clash. */
  lemma QualifiedNameIff(a: IssuanceRule, b: IssuanceRule)
    requires WellNamedRule(a) && WellNamedRule(b)
    ensures QualifiedName(a) == QualifiedName(b) <==> KeyFor(a) == KeyFor(b) || Clash(a, b) || Clash(b, a)
  {
    var x, y := a.policyName + "/" + a.ruleName, b.policyName + "/" + b.ruleName;
    if QualifiedName(a) == QualifiedName(b) {
      if a.policyNamespace != "" && b.policyNamespace != "" {
        CutAtSlash(a.policyNamespace, x, b.policyNamespace, y);
        CutAtSlash(a.policyName, a.ruleName, b.policyName, b.ruleName);
      } else if a.policyNamespace != "" {
        CutAtSlash(a.policyNamespace, x, b.policyName, b.ruleName);
      } else if b.policyNamespace != "" {
        CutAtSlash(b.policyNamespace, y, a.policyName, a.ruleName);
      } else {
        CutAtSlash(a.policyName, a.ruleName, b.policyName, b.ruleName);
      }
    }
  }

  /** Every well-named rule with a namespace clashes with some well-named rule without one. */
  lemma QualifiedNamesCollide(r: IssuanceRule)
    requires WellNamedRule(r) && r.policyNamespace != ""
    ensures var other := r.(policyNamespace := "", policyName := r.policyNamespace, ruleName := r.policyName + "/" + r.ruleName);
            WellNamedRule(other) && QualifiedName(other) == QualifiedName(r) && KeyFor(other) != KeyFor(r)
  {
    var other := r.(policyNamespace := "", policyName := r.policyNamespace, ruleName := r.policyName + "/" + r.ruleName);
    QualifiedNameIff(r, other);
  }

  function ConfigFor(r: IssuanceRule): RuleConfig {
    RuleConfig(QualifiedName(r), r.cel, r.message, r.targetNamespaces)
  }

  function Configs(rules: seq<IssuanceRule>): seq<RuleConfig> {
    seq(|rules|, i requires 0 <= i < |rules| => ConfigFor(rules[i]))
  }

  datatype SetterError = HandlerMissing | CompileFailed(error: CompileError)

  /** All or nothing: either the complete compilation of the list is in force afterwards, or
      nothing has changed. */
  method SetterSetIssuanceRules(cel: Cel, h: Handler?, rules: seq<IssuanceRule>) returns (err: Option<SetterError>)
    requires h != null ==> h.Valid()
    modifies h
    ensures h == null <==> err == Some(HandlerMissing)
    ensures h != null ==> h.Valid()
    ensures h != null ==> (err.None? <==> Compiled(cel, Configs(rules)).Ok?)
    ensures h != null && err.None? ==> fresh(h.owned)
    ensures h != null && err.None? ==> h.snapshot != null && h.loaded == Compiled(cel, Configs(rules)).value
    ensures h != null && err.Some? ==> unchanged(h)
  {
    if h == null {
      return Some(HandlerMissing);
    }
    var configs: seq<RuleConfig> := [];
    for i := 0 to |rules|
      invariant configs == Configs(rules[..i])
    {
      var r := rules[i];
      var name := r.ruleName;
      if r.policyName != "" {
        name := r.policyName + "/" + name;
      }
      if r.policyNamespace != "" {
        name := r.policyNamespace + "/" + name;
      }
      configs := configs + [RuleConfig(name, r.cel, r.message, r.targetNamespaces)];
    }
    assert rules[..|rules|] == rules;
    var compiled := CompileIssuanceRules(cel, configs);
    match compiled {
      case Err(error) => return Some(CompileFailed(error));
      case Ok(value) =>
        var stored := Store(value);
        h.SetIssuanceRules(stored, value);
        return None;
    }
  }

  method Store(rules: seq<CompiledRule>) returns (stored: array<StoredRule>)
    ensures fresh(stored) && SameRules(stored[..], rules)
  {
    var out: seq<StoredRule> := [];
    for i := 0 to |rules|
      invariant |out| == i && forall j :: 0 <= j < i ==> ValueOf(out[j]) == rules[j]
      invariant forall j :: 0 <= j < i ==> fresh(out[j].targets)
    {
      var r := rules[i];
      var ns := new string[|r.targetNamespaces|](j requires 0 <= j < |r.targetNamespaces| => r.targetNamespaces[j]);
      assert ns[..] == r.targetNamespaces;
      out := out + [StoredRule(r.name, r.program, r.message, ns)];
    }
    stored := new StoredRule[|out|](j requires 0 <= j < |out| => out[j]);
    assert stored[..] == out;
  }

  /** The TTS side of the issuance stream: map, sort, set, become ready. */
  class TtsRuleClient {
    const stream: RuleClient.RuleClient<IssuanceRule, IssuanceKey, WireIssuance>
    const handler: Handler
    var synced: bool

    ghost predicate Valid()
      reads this, stream, handler, handler.owned
    {
      && stream.st == Streams.IssuanceStream && KeyedBy(KeyFor, stream.view)
      && handler.Valid() && {stream, this} !! handler.owned
    }

    constructor (h: Handler)
      requires h.Valid()
      ensures Valid() && handler == h && !synced && stream.view == map[] && fresh(stream)
    {
      stream := new RuleClient.RuleClient(Streams.IssuanceStream);
      handler := h;
      synced := false;
    }

    predicate Ready()
      reads this
    {
      synced
    }

    /** One message from the controller. Ranging over the map yields some enumeration of it;
        sorted, it is compiled as a whole and put in force, or rejected without any change. */
    method Receive(cel: Cel, update: Update<WireIssuance>, ghost s: System<IssuanceRule, IssuanceKey, WireIssuance>, ghost id: nat)
      returns (ghost flat: seq<IssuanceRule>, accepted: bool)
      requires Valid()
      modifies this, stream, handler
      ensures Valid()
      ensures stream.view == ApplyUpdate(Streams.IssuanceStream, old(stream.view), update)
      ensures Enumerates(KeyFor, stream.view, flat)
      ensures old(stream.Awaits(s, id, update)) ==> Enabled(Streams.IssuanceStream, s, Recv(id, flat))
      ensures var compiled := Compiled(cel, Configs(Sort(KeyFor, IssuanceKeyLess, flat)));
              && accepted == compiled.Ok?
              && Ready() == (old(Ready()) || accepted)
              && handler.loaded == if accepted then compiled.value else old(handler.loaded)
    {
      var listed := stream.Receive(update, s, id);
      flat := listed;
      var sorted := Sort(KeyFor, IssuanceKeyLess, listed);
      var err := SetterSetIssuanceRules(cel, handler, sorted);
      accepted := err.None?;
      if accepted {
        synced := true;
      }
    }
  }
}
