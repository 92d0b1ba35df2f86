/** From published verification rules to enforcement at a gateway. */
module VerificationEndToEnd {
  import opened Rules
  import opened RuleList
  import opened Distribution
  import opened DistributionProofs
  import opened Streams
  import opened Naming
  import opened Tokens
  import opened ExtAuth

  /** Every rule of a view is met. */
  ghost predicate ViewMet(env: Env, view: map<RuleKey, VerificationRule>, c: Claims, req: HttpRequest) {
    forall k :: k in view ==> MeetsRule(env, view[k], c, req)
  }

  lemma MeetsEnumeration(env: Env, view: map<RuleKey, VerificationRule>, flat: seq<VerificationRule>, c: Claims, req: HttpRequest)
    requires Enumerates(VerificationKey, view, flat)
    ensures Meets(env, flat, c, req) <==> ViewMet(env, view, c, req)
  {
    if ViewMet(env, view, c, req) {
      forall r | r in flat ensures MeetsRule(env, r, c, req) {
        var i :| 0 <= i < |flat| && flat[i] == r;
        LookupOfDistinct(VerificationKey, flat, i);
        ViewLookup(VerificationKey, flat, VerificationKey(r));
      }
    }
    if Meets(env, flat, c, req) {
      forall k | k in view ensures MeetsRule(env, view[k], c, req) {
        ViewLookup(VerificationKey, flat, k);
      }
    }
  }

  /** Some rule of a view excludes the endpoint. */
  ghost predicate ViewExcludes(env: Env, view: map<RuleKey, VerificationRule>, req: HttpRequest) {
    exists k :: k in view && RuleExcludes(env, view[k], req)
  }

  lemma ExcludesEnumeration(env: Env, view: map<RuleKey, VerificationRule>, flat: seq<VerificationRule>, req: HttpRequest)
    requires Enumerates(VerificationKey, view, flat)
    ensures Excludes(env, flat, req) <==> ViewExcludes(env, view, req)
  {
    if r :| r in flat && RuleExcludes(env, r, req) {
      var i :| 0 <= i < |flat| && flat[i] == r;
      LookupOfDistinct(VerificationKey, flat, i);
      ViewLookup(VerificationKey, flat, VerificationKey(r));
      assert view[VerificationKey(r)] == r;
    }
    if k :| k in view && RuleExcludes(env, view[k], req) {
      ViewLookup(VerificationKey, flat, k);
    }
  }

  /** When names differ, the view of a list demands and excludes what the list does. */
  lemma ViewIsTheList(env: Env, list: seq<VerificationRule>, c: Claims, req: HttpRequest)
    requires VerificationNamesDiffer(list)
    ensures ViewMet(env, View(VerificationKey, list), c, req) <==> Meets(env, list, c, req)
    ensures ViewExcludes(env, View(VerificationKey, list), req) <==> Excludes(env, list, req)
  {
    VerificationDistinct(list);
    MeetsEnumeration(env, View(VerificationKey, list), list, c, req);
    ExcludesEnumeration(env, View(VerificationKey, list), list, req);
  }

  /** In every run with safe edits, the snapshot a gateway stores on an intact handoff enforces
      exactly the server's rules at that version, and two gateways that were handed the same
      version store the same snapshot. When no two rules of the server's list agree in both
      namespace and name, the claims pass exactly when they meet every rule of the list, and the
      endpoint is excluded exactly when some rule of the list excludes it. */
  lemma DistributedRulesAreEnforced(env: Env, run: seq<Step<VerificationRule>>, i: nat, j: nat, c: Claims, req: HttpRequest)
    requires SafeRun(VerificationStream, run)
    requires var log := After(VerificationStream, run).log;
             i < |log| && j < |log| && log[i].intact && log[j].intact && log[i].version == log[j].version
    ensures var s := After(VerificationStream, run);
            && s.log[i].version < |s.hist|
            && Stored(env, s.log[i].rules) == Stored(env, s.log[j].rules)
            && (FirstFailure(env, Stored(env, s.log[i].rules), c, req).None?
                <==> ViewMet(env, View(VerificationKey, s.hist[s.log[i].version]), c, req))
            && (VerificationNamesDiffer(s.hist[s.log[i].version]) ==>
                && (FirstFailure(env, Stored(env, s.log[i].rules), c, req).None? <==> Meets(env, s.hist[s.log[i].version], c, req))
                && (Excluded(env, Stored(env, s.log[i].rules), req) <==> Excludes(env, s.hist[s.log[i].version], req)))
  {
    var s := After(VerificationStream, run);
    StreamsAreFaithful();
    AgreementOnEveryRun(VerificationStream, run);
    var view := View(VerificationKey, s.hist[s.log[i].version]);
    StoredIsCanonical(env, view, s.log[i].rules, s.log[j].rules);
    StoredEnforces(env, s.log[i].rules, c, req);
    MeetsEnumeration(env, view, s.log[i].rules, c, req);
    StoredExcludes(env, s.log[i].rules, req);
    ExcludesEnumeration(env, view, s.log[i].rules, req);
    if VerificationNamesDiffer(s.hist[s.log[i].version]) { ViewIsTheList(env, s.hist[s.log[i].version], c, req); }
  }
}
