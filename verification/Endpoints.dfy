/** Matching requests against generation rules (pkg/extauth/generate.go). */
module Endpoints {
  import opened Wrappers
  import opened Rules
  import opened Text
  import opened ExtAuth

  predicate IsWildcard(part: string) { HasPrefix(part, "{") && HasSuffix(part, "}") }

  function Parts(path: string): (parts: seq<string>)
    ensures parts != [] && forall i :: 0 <= i < |parts| ==> Free(parts[i], '/')
  {
    Split(Trim(path, '/'), '/')
  }

  predicate PartMatches(req: string, pat: string) { IsWildcard(pat) || req == pat }

  /** Segment by segment, with `{...}` segments as wildcards. */
  predicate PathMatches(path: string, pattern: string) {
    var req, pat := Parts(StripQuery(path)), Parts(pattern);
    |req| == |pat| && forall i :: 0 <= i < |pat| ==> PartMatches(req[i], pat[i])
  }

  method MatchEndpointPath(path: string, pattern: string) returns (yes: bool)
    ensures yes == PathMatches(path, pattern)
  {
    var req := Split(Trim(StripQuery(path), '/'), '/');
    var pat := Split(Trim(pattern, '/'), '/');
    if |req| != |pat| {
      return false;
    }
    for i := 0 to |pat|
      invariant forall j :: 0 <= j < i ==> PartMatches(req[j], pat[j])
    {
      if !(HasPrefix(pat[i], "{") && HasSuffix(pat[i], "}")) && req[i] != pat[i] {
        assert !PartMatches(req[i], pat[i]);
        return false;
      }
    }
    return true;
  }

  /** A pattern with its wildcards filled in. */
  function Fill(pat: seq<string>, values: seq<string>): seq<string>
    requires |values| == |pat|
  {
    seq(|pat|, i requires 0 <= i < |pat| => if IsWildcard(pat[i]) then values[i] else pat[i])
  }

  ghost predicate IsInstance(path: string, pattern: string, values: seq<string>) {
    && |values| == |Parts(pattern)| && (forall i :: 0 <= i < |values| ==> Free(values[i], '/'))
    && Trim(StripQuery(path), '/') == Join(Fill(Parts(pattern), values), '/')
  }

  /** A path matches exactly when, stripped of its query and outer slashes, it is the pattern
      with each wildcard segment replaced by some slash-free string. */
  lemma MatchesIffInstance(path: string, pattern: string)
    ensures PathMatches(path, pattern) <==> exists values :: IsInstance(path, pattern, values)
  {
    var trimmed := Trim(StripQuery(path), '/');
    var req, pat := Parts(StripQuery(path)), Parts(pattern);
    if PathMatches(path, pattern) {
      assert Fill(pat, req) == req by {
        forall i | 0 <= i < |pat| ensures Fill(pat, req)[i] == req[i] {
          assert PartMatches(req[i], pat[i]);
        }
      }
      JoinSplit(trimmed, '/');
      assert IsInstance(path, pattern, req);
    }
    if values :| IsInstance(path, pattern, values) {
      var filled := Fill(pat, values);
      SplitJoin(filled, '/');
      assert req == filled;
    }
  }

  // ----- against the comment on the code -----

  /** The matching the comment describes: segments that start with a brace are wildcards. */
  predicate MatchesAsCommented(path: string, pattern: string) {
    var req, pat := Parts(StripQuery(path)), Parts(pattern);
    |req| == |pat| && forall i :: 0 <= i < |pat| ==> HasPrefix(pat[i], "{") || req[i] == pat[i]
  }

  /** A brace that is not closed. */
  predicate HalfOpen(part: string) { HasPrefix(part, "{") && !HasSuffix(part, "}") }

  /** Some literal segment can occur in no path. */
  predicate Unmatchable(pat: seq<string>) {
    exists i :: 0 <= i < |pat| && !HasPrefix(pat[i], "{") && !Free(pat[i], '?')
  }

  lemma PartsHaveNoQuery(path: string)
    ensures AllFree(Parts(StripQuery(path)), '?')
  {
    var s := StripQuery(path);
    var lo, hi := TrimSpec(s, '/');
    assert Free(s[lo..hi], '?');
    SplitKeepsFree(Trim(s, '/'), '/', '?');
  }

  /** Any slash-free, query-free segments with non-empty ends are the segments of some path. */
  lemma PathWithParts(values: seq<string>) returns (path: string)
    requires values != [] && AllFree(values, '/') && AllFree(values, '?') && values[0] != "" && values[|values| - 1] != ""
    ensures Parts(StripQuery(path)) == values
  {
    path := Join(values, '/');
    JoinKeepsFree(values, '/', '?');
    IndexOfFree(path, '?');
    assert StripQuery(path) == path;
    EndsOfJoin(values, '/');
    assert Free(values[0], '/') && Free(values[|values| - 1], '/');
    assert Trim(path, '/') == path;
    SplitJoin(values, '/');
  }

  /** The pattern with every opened segment replaced by one letter. */
  function Sample(pat: seq<string>): seq<string> {
    seq(|pat|, i requires 0 <= i < |pat| => if HasPrefix(pat[i], "{") then "x" else pat[i])
  }

  lemma SamplePath(pattern: string, i: nat) returns (path: string)
    requires i < |Parts(pattern)| && HalfOpen(Parts(pattern)[i]) && !Unmatchable(Parts(pattern))
    ensures MatchesAsCommented(path, pattern) && !PathMatches(path, pattern)
  {
    var pat := Parts(pattern);
    var values := Sample(pat);
    var t := Trim(pattern, '/');
    assert Split("", '/') == [""] && t != "";
    EndsOfSplit(t, '/');
    assert AllFree(values, '/') && AllFree(values, '?');
    path := PathWithParts(values);
    assert values[i] == "x" && pat[i][0] == '{';
    assert !PartMatches(values[i], pat[i]);
  }

  /** Code and comment agree on all paths exactly when every opened brace of the pattern is closed,
      or a literal segment with a question mark keeps the pattern from matching anything. */
  lemma CommentHoldsIff(pattern: string)
    ensures (forall path :: PathMatches(path, pattern) <==> MatchesAsCommented(path, pattern))
            <==>
            (forall i :: 0 <= i < |Parts(pattern)| ==> !HalfOpen(Parts(pattern)[i])) || Unmatchable(Parts(pattern))
  {
    var pat := Parts(pattern);
    if Unmatchable(pat) {
      forall path ensures !PathMatches(path, pattern) && !MatchesAsCommented(path, pattern) { PartsHaveNoQuery(path); }
    } else if i :| 0 <= i < |pat| && HalfOpen(pat[i]) {
      var path := SamplePath(pattern, i);
    } else {
      forall path ensures PathMatches(path, pattern) <==> MatchesAsCommented(path, pattern) {
        assert forall j, r :: 0 <= j < |pat| ==> (PartMatches(r, pat[j]) <==> HasPrefix(pat[j], "{") || r == pat[j]);
      }
    }
  }

  // ----- choosing a rule -----

  predicate RuleMatches(env: Env, r: GenerationRule, path: string, verb: string) {
    EqualFold(env, r.endpoint.verb, verb) && PathMatches(StripQuery(path), r.endpoint.path)
  }

  /** A rule matches a request exactly when the methods are equal but for case and the path is an
      instance of the rule's pattern. */
  lemma RuleMatchesIff(env: Env, r: GenerationRule, path: string, verb: string)
    ensures RuleMatches(env, r, path, verb) <==>
            && |r.endpoint.verb| == |verb| && (forall k :: 0 <= k < |verb| ==> env.fold(r.endpoint.verb[k]) == env.fold(verb[k]))
            && exists values :: IsInstance(path, r.endpoint.path, values)
  {
    var s := StripQuery(path);
    IndexOfFree(s, '?');
    assert StripQuery(s) == s;
    MatchesIffInstance(path, r.endpoint.path);
  }

  /** The first rule that matches. */
  function FirstMatch(env: Env, rules: seq<GenerationRule>, path: string, verb: string): (r: Option<GenerationRule>)
    ensures r.Some? ==> r.value in rules && RuleMatches(env, r.value, path, verb)
    ensures r.None? ==> forall x :: x in rules ==> !RuleMatches(env, x, path, verb)
  {
    if rules == [] then None
    else if RuleMatches(env, rules[0], path, verb) then Some(rules[0])
    else
      assert forall x :: x in rules ==> x == rules[0] || x in rules[1..];
      FirstMatch(env, rules[1..], path, verb)
  }

  method FindMatchingRule(env: Env, rules: seq<GenerationRule>, path: string, verb: string) returns (r: Option<GenerationRule>)
    ensures r == FirstMatch(env, rules, path, verb)
  {
    var stripped := StripQuery(path);
    var i := 0;
    while i < |rules|
      invariant 0 <= i <= |rules| && FirstMatch(env, rules, path, verb) == FirstMatch(env, rules[i..], path, verb)
    {
      assert rules[i..][0] == rules[i] && rules[i..][1..] == rules[i + 1..];
      if EqualFold(env, rules[i].endpoint.verb, verb) {
        var yes := MatchEndpointPath(stripped, rules[i].endpoint.path);
        if yes {
          return Some(rules[i]);
        }
      }
      i := i + 1;
    }
    assert rules[|rules|..] == [];
    return None;
  }

  /** At most one rule matches the request. */
  ghost predicate Unambiguous(env: Env, rules: seq<GenerationRule>, path: string, verb: string) {
    forall a, b :: a in rules && b in rules && RuleMatches(env, a, path, verb) && RuleMatches(env, b, path, verb) ==> a == b
  }

  /** Generation rules are stored in map order. The rule chosen for a request is the same for
      every order exactly when at most one rule matches it. */
  lemma ChoiceIgnoresOrderIff(env: Env, rules: seq<GenerationRule>, path: string, verb: string)
    ensures (forall other: seq<GenerationRule> :: multiset(other) == multiset(rules) ==>
               FirstMatch(env, other, path, verb) == FirstMatch(env, rules, path, verb))
            <==>
            Unambiguous(env, rules, path, verb)
  {
    if Unambiguous(env, rules, path, verb) {
      forall other: seq<GenerationRule> | multiset(other) == multiset(rules)
        ensures FirstMatch(env, other, path, verb) == FirstMatch(env, rules, path, verb)
      {
        SameMembers(rules, other);
      }
    } else {
      var a, b :| a in rules && b in rules && RuleMatches(env, a, path, verb) && RuleMatches(env, b, path, verb) && a != b;
      var chosen := FirstMatch(env, rules, path, verb);
      var rival := if chosen == Some(a) then b else a;
      var other := BringToFront(rules, rival);
      assert FirstMatch(env, other, path, verb) == Some(rival);
    }
  }

  lemma SameMembers(a: seq<GenerationRule>, b: seq<GenerationRule>)
    requires multiset(a) == multiset(b)
    ensures forall x :: x in a <==> x in b
  {
    forall x ensures x in a <==> x in b {
      assert x in multiset(a) <==> x in multiset(b);
    }
  }

  lemma BringToFront(rules: seq<GenerationRule>, r: GenerationRule) returns (other: seq<GenerationRule>)
    requires r in rules
    ensures multiset(other) == multiset(rules) && other != [] && other[0] == r
  {
    var i :| 0 <= i < |rules| && rules[i] == r;
    other := [r] + rules[..i] + rules[i + 1..];
    assert rules == rules[..i] + [r] + rules[i + 1..];
  }
}
