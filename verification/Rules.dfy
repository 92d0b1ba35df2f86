/** The three kinds of rules the controller distributes, as the controller holds them. */
module Rules {

  datatype EndpointSpec = EndpointSpec(path: string, verb: string)

  datatype TctxFieldMapping = TctxFieldMapping(source: string, field: string, required: bool)

  datatype TctxEnrichment = TctxEnrichment(field: string, enricher: string)

  datatype CelRule = CelRule(name: string, cel: string, message: string)

  datatype GenerationRule = GenerationRule(
    namespace: string, name: string, endpoint: EndpointSpec, purpose: string, scope: string,
    tctxMapping: map<string, TctxFieldMapping>, tctxEnrichments: seq<TctxEnrichment>,
    rctxFields: seq<string>, tokenLifetime: string)

  datatype VerificationRule = VerificationRule(
    namespace: string, name: string, serviceName: string, requiredScope: string,
    requiredTctxFields: seq<string>, celRules: seq<CelRule>,
    excludedEndpoints: seq<EndpointSpec>, autoNarrow: bool)

  datatype IssuanceRule = IssuanceRule(
    policyNamespace: string, policyName: string, ruleName: string,
    cel: string, message: string, targetNamespaces: seq<string>)

  /** The namespace/name reference carried by a removal. */
  datatype RuleRef = RuleRef(namespace: string, name: string)

  /** Key of a generation or verification rule. */
  datatype RuleKey = RuleKey(namespace: string, name: string)

  /** Key of an issuance rule. */
  datatype IssuanceKey = IssuanceKey(policyNamespace: string, policyName: string, ruleName: string)

  function GenerationKey(r: GenerationRule): RuleKey { RuleKey(r.namespace, r.name) }

  function VerificationKey(r: VerificationRule): RuleKey { RuleKey(r.namespace, r.name) }

  function KeyFor(r: IssuanceRule): IssuanceKey {
    IssuanceKey(r.policyNamespace, r.policyName, r.ruleName)
  }
}
