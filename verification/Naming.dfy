/** Rules by their names: what the keys of the three streams are for. */
module Naming {
  import opened Rules
  import opened RuleList
  import opened Distribution
  import opened Streams

  // ----- verification rules -----

  predicate SameVerificationName(a: VerificationRule, b: VerificationRule) { a.namespace == b.namespace && a.name == b.name }

  /** No two rules agree in both namespace and name. */
  predicate VerificationNamesDiffer(rules: seq<VerificationRule>) {
    forall i, j :: 0 <= i < j < |rules| ==> !SameVerificationName(rules[i], rules[j])
  }

  lemma VerificationDistinct(rules: seq<VerificationRule>)
    ensures VerificationNamesDiffer(rules) <==> Distinct(VerificationKey, rules)
  {
    assert forall a, b :: SameVerificationName(a, b) <==> VerificationKey(a) == VerificationKey(b);
  }

  /** Among verification rules whose names differ an upsert replaces exactly the rule of that
      namespace and name, and a removal drops exactly the rule its reference names. */
  lemma VerificationEditsByName(rules: seq<VerificationRule>, rule: VerificationRule, ref: RuleRef, r: VerificationRule)
    requires VerificationNamesDiffer(rules)
    ensures r in EditRules(VerificationStream, rules, Upsert(rule)) <==> r == rule || (r in rules && !SameVerificationName(r, rule))
    ensures r in EditRules(VerificationStream, rules, Remove(ref)) <==> r in rules && !(r.namespace == ref.namespace && r.name == ref.name)
  {
    VerificationDistinct(rules);
    UpsertMembers(VerificationKey, rules, rule, r);
    RemoveMembers(VerificationKey, rules, RefKey(ref), r);
  }

  // ----- generation rules -----

  predicate SameGenerationName(a: GenerationRule, b: GenerationRule) { a.namespace == b.namespace && a.name == b.name }

  predicate GenerationNamesDiffer(rules: seq<GenerationRule>) {
    forall i, j :: 0 <= i < j < |rules| ==> !SameGenerationName(rules[i], rules[j])
  }

  lemma GenerationDistinct(rules: seq<GenerationRule>)
    ensures GenerationNamesDiffer(rules) <==> Distinct(GenerationKey, rules)
  {
    assert forall a, b :: SameGenerationName(a, b) <==> GenerationKey(a) == GenerationKey(b);
  }

  /** The same for generation rules. */
  lemma GenerationEditsByName(rules: seq<GenerationRule>, rule: GenerationRule, ref: RuleRef, r: GenerationRule)
    requires GenerationNamesDiffer(rules)
    ensures r in EditRules(GenerationStream, rules, Upsert(rule)) <==> r == rule || (r in rules && !SameGenerationName(r, rule))
    ensures r in EditRules(GenerationStream, rules, Remove(ref)) <==> r in rules && !(r.namespace == ref.namespace && r.name == ref.name)
  {
    GenerationDistinct(rules);
    UpsertMembers(GenerationKey, rules, rule, r);
    RemoveMembers(GenerationKey, rules, RefKey(ref), r);
  }

  // ----- issuance rules -----

  predicate SameIssuanceName(a: IssuanceRule, b: IssuanceRule) {
    a.policyNamespace == b.policyNamespace && a.policyName == b.policyName && a.ruleName == b.ruleName
  }

  predicate IssuanceNamesDiffer(rules: seq<IssuanceRule>) {
    forall i, j :: 0 <= i < j < |rules| ==> !SameIssuanceName(rules[i], rules[j])
  }

  lemma IssuanceDistinct(rules: seq<IssuanceRule>)
    ensures IssuanceNamesDiffer(rules) <==> Distinct(KeyFor, rules)
  {
    assert forall a, b :: SameIssuanceName(a, b) <==> KeyFor(a) == KeyFor(b);
  }

  /** Among issuance rules whose names differ an upsert replaces exactly the rule of that policy and
      name. A removal drops exactly the rules of the policy its reference names, whatever repeats. */
  lemma IssuanceEditsByName(rules: seq<IssuanceRule>, rule: IssuanceRule, ref: RuleRef, r: IssuanceRule)
    ensures IssuanceNamesDiffer(rules) ==>
              (r in EditRules(IssuanceStream, rules, Upsert(rule)) <==> r == rule || (r in rules && !SameIssuanceName(r, rule)))
    ensures r in EditRules(IssuanceStream, rules, Remove(ref)) <==> r in rules && !(r.policyNamespace == ref.namespace && r.policyName == ref.name)
  {
    IssuanceDistinct(rules);
    if IssuanceNamesDiffer(rules) { UpsertMembers(KeyFor, rules, rule, r); }
    FilterMembers(KeyFor, rules, RefPolicy(ref), r);
  }
}
