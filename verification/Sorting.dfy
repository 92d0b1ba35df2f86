/** Sorting rules by key before they are stored, so that the order no longer depends on how
    a map was ranged over. */
module Sorting {
  import opened Rules
  import opened Text
  import opened RuleList

  // ----- key orders -----

  predicate RuleKeyLess(a: RuleKey, b: RuleKey) {
    if a.namespace != b.namespace then StringLess(a.namespace, b.namespace)
    else StringLess(a.name, b.name)
  }

  predicate IssuanceKeyLess(a: IssuanceKey, b: IssuanceKey) {
    if a.policyNamespace != b.policyNamespace then StringLess(a.policyNamespace, b.policyNamespace)
    else if a.policyName != b.policyName then StringLess(a.policyName, b.policyName)
    else StringLess(a.ruleName, b.ruleName)
  }

  ghost predicate StrictOrder<K(!new)>(less: (K, K) -> bool) {
    && (forall a :: !less(a, a))
    && (forall a, b, c :: less(a, b) && less(b, c) ==> less(a, c))
    && (forall a, b :: a == b || less(a, b) || less(b, a))
  }

  lemma StringOrder()
    ensures StrictOrder(StringLess)
  {
    forall a ensures !StringLess(a, a) { StringIrreflexive(a); }
    forall a, b, c | StringLess(a, b) && StringLess(b, c) ensures StringLess(a, c) { StringTransitive(a, b, c); }
    forall a, b ensures a == b || StringLess(a, b) || StringLess(b, a) { StringConnected(a, b); }
  }

  lemma RuleKeyOrder()
    ensures StrictOrder(RuleKeyLess)
  {
    StringOrder();
  }

  lemma IssuanceKeyOrder()
    ensures StrictOrder(IssuanceKeyLess)
  {
    StringOrder();
  }

  /** Verification rules come in the order of their namespaces, and within one of their names. */
  lemma RuleKeyLessIff(a: RuleKey, b: RuleKey)
    ensures RuleKeyLess(a, b) <==> StringLess(a.namespace, b.namespace) || (a.namespace == b.namespace && StringLess(a.name, b.name))
  {
    StringIrreflexive(a.namespace);
  }

  /** Issuance rules come in the order of policy namespace, policy and rule name. */
  lemma IssuanceKeyLessIff(a: IssuanceKey, b: IssuanceKey)
    ensures IssuanceKeyLess(a, b) <==>
            || StringLess(a.policyNamespace, b.policyNamespace)
            || (a.policyNamespace == b.policyNamespace && StringLess(a.policyName, b.policyName))
            || (a.policyNamespace == b.policyNamespace && a.policyName == b.policyName && StringLess(a.ruleName, b.ruleName))
  {
    StringIrreflexive(a.policyNamespace);
    StringIrreflexive(a.policyName);
  }

  // ----- sorting -----

  /** No later rule has a smaller key. */
  ghost predicate Sorted<R, K>(key: R -> K, less: (K, K) -> bool, rules: seq<R>) {
    forall i, j :: 0 <= i < j < |rules| ==> !less(key(rules[j]), key(rules[i]))
  }

  function Insert<R, K>(key: R -> K, less: (K, K) -> bool, rule: R, rules: seq<R>): (out: seq<R>)
  {
    if rules == [] || !less(key(rules[0]), key(rule)) then [rule] + rules
    else [rules[0]] + Insert(key, less, rule, rules[1..])
  }

  /** The rules in key order. */
  function Sort<R, K>(key: R -> K, less: (K, K) -> bool, rules: seq<R>): (out: seq<R>)
  {
    if rules == [] then [] else Insert(key, less, rules[0], Sort(key, less, rules[1..]))
  }

  lemma {:induction false} InsertKeeps<R, K>(key: R -> K, less: (K, K) -> bool, rule: R, rules: seq<R>)
    ensures multiset(Insert(key, less, rule, rules)) == multiset([rule] + rules)
  {
    if rules != [] && less(key(rules[0]), key(rule)) {
      InsertKeeps(key, less, rule, rules[1..]);
      assert [rule] + rules == [rule] + ([rules[0]] + rules[1..]);
    }
  }

  lemma {:induction false} InsertSorts<R, K(!new)>(key: R -> K, less: (K, K) -> bool, rule: R, rules: seq<R>)
    requires StrictOrder(less) && Sorted(key, less, rules)
    ensures Sorted(key, less, Insert(key, less, rule, rules))
  {
    if rules != [] && less(key(rules[0]), key(rule)) {
      var rest := Insert(key, less, rule, rules[1..]);
      InsertSorts(key, less, rule, rules[1..]);
      InsertKeeps(key, less, rule, rules[1..]);
      forall j | 0 <= j < |rest| ensures !less(key(rest[j]), key(rules[0])) {
        assert rest[j] in multiset(rest);
        assert rest[j] == rule || rest[j] in rules[1..];
      }
    }
  }

  /** Sorting yields a sorted permutation. */
  lemma {:induction false} SortIsSorted<R, K(!new)>(key: R -> K, less: (K, K) -> bool, rules: seq<R>)
    requires StrictOrder(less)
    ensures Sorted(key, less, Sort(key, less, rules)) && multiset(Sort(key, less, rules)) == multiset(rules)
  {
    if rules != [] {
      SortIsSorted(key, less, rules[1..]);
      InsertSorts(key, less, rules[0], Sort(key, less, rules[1..]));
      InsertKeeps(key, less, rules[0], Sort(key, less, rules[1..]));
      assert rules == [rules[0]] + rules[1..];
    }
  }

  // ----- the sorted order is canonical -----

  ghost predicate StrictlySorted<R, K>(key: R -> K, less: (K, K) -> bool, rules: seq<R>) {
    forall i, j :: 0 <= i < j < |rules| ==> less(key(rules[i]), key(rules[j]))
  }

  ghost predicate SameMembers<R>(a: seq<R>, b: seq<R>) {
    (forall i :: 0 <= i < |a| ==> a[i] in b) && (forall i :: 0 <= i < |b| ==> b[i] in a)
  }

  lemma {:induction false} StrictOrderIsUnique<R, K(!new)>(key: R -> K, less: (K, K) -> bool, a: seq<R>, b: seq<R>)
    requires StrictOrder(less) && StrictlySorted(key, less, a) && StrictlySorted(key, less, b) && SameMembers(a, b)
    ensures a == b
  {
    if a == [] {
      assert forall r :: r !in a;
    } else {
      assert a[0] in b && b[0] in a;
      var i :| 0 <= i < |b| && b[i] == a[0];
      var j :| 0 <= j < |a| && a[j] == b[0];
      SameFirst(key, less, a, b, i, j);
      TailsMatch(key, less, a, b);
      TailsMatch(key, less, b, a);
      StrictOrderIsUnique(key, less, a[1..], b[1..]);
      assert a == [a[0]] + a[1..] && b == [b[0]] + b[1..];
    }
  }

  lemma SameFirst<R, K(!new)>(key: R -> K, less: (K, K) -> bool, a: seq<R>, b: seq<R>, i: nat, j: nat)
    requires StrictOrder(less) && StrictlySorted(key, less, a) && StrictlySorted(key, less, b)
    requires i < |b| && j < |a| && b[i] == a[0] && a[j] == b[0]
    ensures i == 0
  {
  }

  lemma TailsMatch<R, K(!new)>(key: R -> K, less: (K, K) -> bool, a: seq<R>, b: seq<R>)
    requires StrictOrder(less) && StrictlySorted(key, less, a) && a != [] && b != [] && a[0] == b[0]
    requires forall i :: 0 <= i < |a| ==> a[i] in b
    ensures forall i :: 0 <= i < |a[1..]| ==> a[1..][i] in b[1..]
  {
    forall i | 0 <= i < |a[1..]| ensures a[1..][i] in b[1..] {
      var r := a[i + 1];
      assert less(key(a[0]), key(r)) && r in b;
      var j :| 0 <= j < |b| && b[j] == r;
      assert j > 0 && b[1..][j - 1] == r;
    }
  }

  lemma SortedIsStrict<R, K(!new)>(key: R -> K, less: (K, K) -> bool, rules: seq<R>)
    requires StrictOrder(less) && Sorted(key, less, rules) && Distinct(key, rules)
    ensures StrictlySorted(key, less, rules)
  {
    forall i, j | 0 <= i < j < |rules| ensures less(key(rules[i]), key(rules[j])) {
      var a, b := key(rules[i]), key(rules[j]);
      assert a != b && !less(b, a);
    }
  }

  /** A permutation of a list with distinct keys has distinct keys. */
  lemma PermutationKeepsDistinct<R, K>(key: R -> K, a: seq<R>, b: seq<R>)
    requires multiset(a) == multiset(b) && Distinct(key, a)
    ensures Distinct(key, b)
  {
    forall i, j | 0 <= i < j < |b| ensures key(b[i]) != key(b[j]) {
      assert b[i] in multiset(a) && b[j] in multiset(a);
      if key(b[i]) == key(b[j]) {
        var x :| 0 <= x < |a| && a[x] == b[i];
        var y :| 0 <= y < |a| && a[y] == b[j];
        assert x == y;
        AppearsOnce(key, a, x);
        AppearsTwice(b, i, j);
        assert false;
      }
    }
  }

  lemma AppearsOnce<R, K>(key: R -> K, a: seq<R>, x: nat)
    requires Distinct(key, a) && x < |a|
    ensures multiset(a)[a[x]] == 1
  {
    assert a == a[..x] + [a[x]] + a[x + 1..];
    assert a[x] !in a[..x] && a[x] !in a[x + 1..];
  }

  lemma AppearsTwice<R>(b: seq<R>, i: nat, j: nat)
    requires i < j < |b| && b[i] == b[j]
    ensures multiset(b)[b[i]] >= 2
  {
    assert b == b[..i] + [b[i]] + b[i + 1..];
    assert b[i] in b[i + 1..] by { assert b[i + 1..][j - i - 1] == b[i]; }
  }

  /** The order of the input never shows: whatever sequence enumerates a keyed map, any
      sorted permutation of it is the same sequence. */
  lemma SortIsCanonical<R, K(!new)>(key: R -> K, less: (K, K) -> bool, m: map<K, R>, flat: seq<R>, out: seq<R>, flat': seq<R>)
    requires StrictOrder(less) && Enumerates(key, m, flat) && Enumerates(key, m, flat')
    requires multiset(out) == multiset(flat) && Sorted(key, less, out)
    ensures out == Sort(key, less, flat')
    ensures StrictlySorted(key, less, out)
  {
    var out' := Sort(key, less, flat');
    SortIsSorted(key, less, flat');
    PermutationKeepsDistinct(key, flat, out);
    PermutationKeepsDistinct(key, flat', out');
    SortedIsStrict(key, less, out);
    SortedIsStrict(key, less, out');
    MembersOfEnumerations(key, m, flat, flat', out, out');
    MembersOfEnumerations(key, m, flat', flat, out', out);
    StrictOrderIsUnique(key, less, out, out');
  }

  lemma MembersOfEnumerations<R, K>(key: R -> K, m: map<K, R>, flat: seq<R>, flat': seq<R>, out: seq<R>, out': seq<R>)
    requires Enumerates(key, m, flat) && Enumerates(key, m, flat')
    requires multiset(out) == multiset(flat) && multiset(out') == multiset(flat')
    ensures forall i :: 0 <= i < |out| ==> out[i] in out'
  {
    forall i | 0 <= i < |out| ensures out[i] in out' {
      assert out[i] in multiset(flat);
      var j :| 0 <= j < |flat| && flat[j] == out[i];
      LookupOfDistinct(key, flat, j);
      ViewLookup(key, flat, key(flat[j]));
      ViewLookup(key, flat', key(flat[j]));
      assert out[i] in multiset(out');
    }
  }
}
