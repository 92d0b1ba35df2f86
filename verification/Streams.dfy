/** The three rule streams as instances of the distribution protocol. */
module Streams {
  import opened Rules
  import opened Wire
  import opened RuleList
  import opened Distribution
  import opened DistributionProofs

  function RefKey(ref: RuleRef): RuleKey { RuleKey(ref.namespace, ref.name) }

  /** A removed policy covers all of its rules. */
  function RefPolicy(ref: RuleRef): IssuanceKey -> bool {
    (k: IssuanceKey) => k.policyNamespace == ref.namespace && k.policyName == ref.name
  }

  const GenerationStream: Stream<GenerationRule, RuleKey, WireGeneration> :=
    Stream(GenerationKey, GenerationToWire, WireToGeneration, FirstMatch(RefKey))

  const VerificationStream: Stream<VerificationRule, RuleKey, WireVerification> :=
    Stream(VerificationKey, VerificationToWire, WireToVerification, FirstMatch(RefKey))

  const IssuanceStream: Stream<IssuanceRule, IssuanceKey, WireIssuance> :=
    Stream(KeyFor, IssuanceToWire, WireToIssuance, AllMatches(RefPolicy))

  /** All three streams carry every rule unchanged, so every theorem about the protocol
      applies to each of them. */
  lemma StreamsAreFaithful()
    ensures Faithful(GenerationStream) && Faithful(VerificationStream) && Faithful(IssuanceStream)
  {
    forall r: GenerationRule ensures WireToGeneration(GenerationToWire(r)) == r {
      GenerationRoundTrip(r, GenerationToWire(r));
    }
    forall r: VerificationRule ensures WireToVerification(VerificationToWire(r)) == r {
      VerificationRoundTrip(r, VerificationToWire(r));
    }
  }

  /** Why edits must be safe: two rules under one key, then an upsert under it. The server's
      last holder shadows the new rule, while a client that applied the delta holds it. */
  lemma RepeatedKeysDisagree(r: IssuanceRule, message: string)
    requires message != r.message
    ensures var rules, rule := [r, r], r.(message := message);
            && !SafeEdit(IssuanceStream, rules, Upsert(rule))
            && ApplyUpdate(IssuanceStream, View(KeyFor, rules), EditUpdate(IssuanceStream, Upsert(rule)))[KeyFor(r)] == rule
            && View(KeyFor, EditRules(IssuanceStream, rules, Upsert(rule)))[KeyFor(r)] == r
  {
    StreamsAreFaithful();
    var rules, rule := [r, r], r.(message := message);
    ApplyUpsert(IssuanceStream, View(KeyFor, rules), rule);
    assert rules[1..] == [r];
    assert Lookup(KeyFor, [r], KeyFor(r)).Some?;
    assert FirstIndex(KeyFor, rules, KeyFor(rule)) == 0;
    var edited := EditRules(IssuanceStream, rules, Upsert(rule));
    assert edited == [rule, r] && edited[1..] == [r];
    assert View(KeyFor, [r]) == map[KeyFor(r) := r];
  }
}
