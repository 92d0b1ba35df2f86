/** The protobuf messages that carry rules, and the conversions on both ends. An unset and
    an empty repeated field or map are the same value here, as they are on the wire. */
module Wire {
  import opened Wrappers
  import opened Rules

  datatype Endpoint = Endpoint(path: string, verb: string)

  datatype FieldMapping = FieldMapping(source: string, field: string, required: bool)

  datatype Enrichment = Enrichment(field: string, enricher: string)

  datatype WireCel = WireCel(name: string, cel: string, message: string)

  datatype WireGeneration = WireGeneration(
    namespace: string, name: string, endpoint: Option<Endpoint>, purpose: string, scope: string,
    tctxMapping: map<string, FieldMapping>, tctxEnrichments: seq<Enrichment>,
    rctxFields: seq<string>, tokenLifetime: string)

  datatype WireVerification = WireVerification(
    namespace: string, name: string, serviceName: string, requiredScope: string,
    requiredTctxFields: seq<string>, celRules: seq<WireCel>,
    excludedEndpoints: seq<Endpoint>, autoNarrow: bool)

  datatype WireIssuance = WireIssuance(
    policyNamespace: string, policyName: string, ruleName: string,
    cel: string, message: string, targetNamespaces: seq<string>)

  function EndpointToWire(e: EndpointSpec): Endpoint { Endpoint(e.path, e.verb) }

  function WireToEndpoint(e: Endpoint): EndpointSpec { EndpointSpec(e.path, e.verb) }

  /** An endpoint with neither path nor method is left unset. */
  function GenerationToWire(r: GenerationRule): WireGeneration
  {
    WireGeneration(
      r.namespace, r.name,
      if r.endpoint.path != "" || r.endpoint.verb != "" then Some(EndpointToWire(r.endpoint)) else None,
      r.purpose, r.scope,
      map k | k in r.tctxMapping :: var m := r.tctxMapping[k]; FieldMapping(m.source, m.field, m.required),
      seq(|r.tctxEnrichments|, i requires 0 <= i < |r.tctxEnrichments| =>
            var e := r.tctxEnrichments[i]; Enrichment(e.field, e.enricher)),
      r.rctxFields, r.tokenLifetime)
  }

  function WireToGeneration(p: WireGeneration): GenerationRule
  {
    GenerationRule(
      p.namespace, p.name,
      if p.endpoint.Some? then WireToEndpoint(p.endpoint.value) else EndpointSpec("", ""),
      p.purpose, p.scope,
      map k | k in p.tctxMapping :: var m := p.tctxMapping[k]; TctxFieldMapping(m.source, m.field, m.required),
      seq(|p.tctxEnrichments|, i requires 0 <= i < |p.tctxEnrichments| =>
            var e := p.tctxEnrichments[i]; TctxEnrichment(e.field, e.enricher)),
      p.rctxFields, p.tokenLifetime)
  }

  function VerificationToWire(r: VerificationRule): WireVerification
  {
    WireVerification(
      r.namespace, r.name, r.serviceName, r.requiredScope, r.requiredTctxFields,
      seq(|r.celRules|, i requires 0 <= i < |r.celRules| =>
            var c := r.celRules[i]; WireCel(c.name, c.cel, c.message)),
      seq(|r.excludedEndpoints|, i requires 0 <= i < |r.excludedEndpoints| => EndpointToWire(r.excludedEndpoints[i])),
      r.autoNarrow)
  }

  function WireToVerification(p: WireVerification): VerificationRule
  {
    VerificationRule(
      p.namespace, p.name, p.serviceName, p.requiredScope, p.requiredTctxFields,
      seq(|p.celRules|, i requires 0 <= i < |p.celRules| =>
            var c := p.celRules[i]; CelRule(c.name, c.cel, c.message)),
      seq(|p.excludedEndpoints|, i requires 0 <= i < |p.excludedEndpoints| => WireToEndpoint(p.excludedEndpoints[i])),
      p.autoNarrow)
  }

  function IssuanceToWire(r: IssuanceRule): WireIssuance
  {
    WireIssuance(r.policyNamespace, r.policyName, r.ruleName, r.cel, r.message, r.targetNamespaces)
  }

  function WireToIssuance(p: WireIssuance): IssuanceRule
  {
    IssuanceRule(p.policyNamespace, p.policyName, p.ruleName, p.cel, p.message, p.targetNamespaces)
  }

  /** A generation rule survives the wire; a message survives the controller form exactly
      when it does not carry a present but empty endpoint. */
  lemma GenerationRoundTrip(r: GenerationRule, p: WireGeneration)
    ensures WireToGeneration(GenerationToWire(r)) == r
    ensures GenerationToWire(WireToGeneration(p)) == p <==> p.endpoint != Some(Endpoint("", ""))
  {
    var back := WireToGeneration(GenerationToWire(r));
    assert back.tctxMapping == r.tctxMapping;
    assert back.tctxEnrichments == r.tctxEnrichments;
    var again := GenerationToWire(WireToGeneration(p));
    assert again.tctxMapping == p.tctxMapping;
    assert again.tctxEnrichments == p.tctxEnrichments;
  }

  lemma VerificationRoundTrip(r: VerificationRule, p: WireVerification)
    ensures WireToVerification(VerificationToWire(r)) == r
    ensures VerificationToWire(WireToVerification(p)) == p
  {
    var back := WireToVerification(VerificationToWire(r));
    assert back.celRules == r.celRules;
    assert back.excludedEndpoints == r.excludedEndpoints;
    var again := VerificationToWire(WireToVerification(p));
    assert again.celRules == p.celRules;
    assert again.excludedEndpoints == p.excludedEndpoints;
  }

  /** Issuance rules: the two conversions are mutually inverse. */
  lemma IssuanceRoundTrip(r: IssuanceRule, p: WireIssuance)
    ensures WireToIssuance(IssuanceToWire(r)) == r
    ensures IssuanceToWire(WireToIssuance(p)) == p
  {
  }
}
