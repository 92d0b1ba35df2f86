/** From published generation rules to the rule a gateway chooses. */
module GenerationEndToEnd {
  import opened Wrappers
  import opened Rules
  import opened RuleList
  import opened Distribution
  import opened DistributionProofs
  import opened Streams
  import opened Naming
  import opened ExtAuth
  import Endpoints

  lemma EnumerationMembers(published: seq<GenerationRule>, flat: seq<GenerationRule>, r: GenerationRule)
    requires GenerationNamesDiffer(published) && Enumerates(GenerationKey, View(GenerationKey, published), flat)
    ensures r in flat <==> r in published
  {
    GenerationDistinct(published);
    DistinctViewMembers(GenerationKey, published, r);
    DistinctViewMembers(GenerationKey, flat, r);
  }

  /** In every run with safe edits, a gateway handed an unbroken list of rules whose names differ
      finds a rule for a request exactly when some rule the server held at that version matches it,
      and the one it finds is such a rule; when only one matches, it is the one. */
  lemma DistributedRulesAreChosen(env: Env, run: seq<Step<GenerationRule>>, i: nat, path: string, verb: string)
    requires SafeRun(GenerationStream, run)
    requires var s := After(GenerationStream, run);
             i < |s.log| && s.log[i].intact && s.log[i].version < |s.hist| && GenerationNamesDiffer(s.hist[s.log[i].version])
    ensures var s := After(GenerationStream, run);
            var published := s.hist[s.log[i].version];
            var chosen := Endpoints.FirstMatch(env, s.log[i].rules, path, verb);
            && (chosen.Some? <==> exists r :: r in published && Endpoints.RuleMatches(env, r, path, verb))
            && (chosen.Some? ==> chosen.value in published && Endpoints.RuleMatches(env, chosen.value, path, verb))
            && (forall r :: r in published && Endpoints.RuleMatches(env, r, path, verb) && Endpoints.Unambiguous(env, published, path, verb) ==>
                  chosen == Some(r))
  {
    var s := After(GenerationStream, run);
    StreamsAreFaithful();
    AgreementOnEveryRun(GenerationStream, run);
    forall r ensures r in s.log[i].rules <==> r in s.hist[s.log[i].version] {
      EnumerationMembers(s.hist[s.log[i].version], s.log[i].rules, r);
    }
  }
}
