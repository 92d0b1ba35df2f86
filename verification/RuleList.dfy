/** Keyed rule lists: what the rule server's slice edits do to the key-to-rule view
    that a stream client rebuilds in a Go map. */
module RuleList {
  import opened Wrappers

  /** The map a client builds by storing the rules of a list one after the other: on a
      repeated key the last rule wins. */
  function View<R, K(==)>(key: R -> K, rules: seq<R>): (m: map<K, R>)
  {
    if rules == [] then map[] else map[key(rules[0]) := rules[0]] + View(key, rules[1..])
  }

  /** The last rule of the list under a key. */
  function Lookup<R, K(==)>(key: R -> K, rules: seq<R>, k: K): (r: Option<R>)
    ensures r.Some? ==> r.value in rules && key(r.value) == k
  {
    if rules == [] then None
    else
      var later := Lookup(key, rules[1..], k);
      if later.Some? then later else if key(rules[0]) == k then Some(rules[0]) else None
  }

  /** No two positions of the list carry the same key. */
  ghost predicate Distinct<R, K>(key: R -> K, rules: seq<R>) {
    forall i, j :: 0 <= i < j < |rules| ==> key(rules[i]) != key(rules[j])
  }

  /** At most one position of the list carries this key. */
  predicate AtMostOnce<R, K(==)>(key: R -> K, rules: seq<R>, k: K) {
    rules == [] || (AtMostOnce(key, rules[1..], k) && (key(rules[0]) == k ==> Lookup(key, rules[1..], k).None?))
  }

  /** A list that enumerates a keyed map: every entry once, in some order. This is what
      ranging over a Go map produces. */
  ghost predicate Enumerates<R, K>(key: R -> K, m: map<K, R>, flat: seq<R>) {
    Distinct(key, flat) && View(key, flat) == m
  }

  /** Every entry of the map sits under its own key. */
  ghost predicate KeyedBy<R, K>(key: R -> K, m: map<K, R>) {
    forall k :: k in m ==> key(m[k]) == k
  }

  /** Position of the first rule under a key, or the length of the list. */
  function FirstIndex<R, K(==)>(key: R -> K, rules: seq<R>, k: K): (i: nat)
    ensures i <= |rules|
    ensures i < |rules| ==> key(rules[i]) == k
    ensures forall j :: 0 <= j < i ==> key(rules[j]) != k
  {
    if rules == [] || key(rules[0]) == k then 0 else 1 + FirstIndex(key, rules[1..], k)
  }

  /** The server's upsert: overwrite the first rule with the same key, or append. */
  function UpsertFirst<R, K(==)>(key: R -> K, rules: seq<R>, rule: R): (out: seq<R>)
  {
    var i := FirstIndex(key, rules, key(rule));
    if i < |rules| then rules[i := rule] else rules + [rule]
  }

  /** The server's single removal: cut out the first rule under the key. */
  function RemoveFirst<R, K(==)>(key: R -> K, rules: seq<R>, k: K): (out: seq<R>)
  {
    var i := FirstIndex(key, rules, k);
    if i < |rules| then rules[..i] + rules[i + 1..] else rules
  }

  /** The server's policy removal: keep the rules whose key is not covered, in order. */
  function FilterOut<R, K>(key: R -> K, rules: seq<R>, covered: K -> bool): (out: seq<R>)
  {
    if rules == [] then []
    else (if covered(key(rules[0])) then [] else [rules[0]]) + FilterOut(key, rules[1..], covered)
  }

  /** Deleting from a view every key the predicate covers. */
  function Without<R, K(==)>(m: map<K, R>, covered: K -> bool): (out: map<K, R>)
  {
    map k | k in m && !covered(k) :: m[k]
  }

  // ----- the view -----

  /** The view is the map of all lookups. */
  lemma {:induction false} ViewLookup<R, K>(key: R -> K, rules: seq<R>, k: K)
    ensures k in View(key, rules) <==> Lookup(key, rules, k).Some?
    ensures k in View(key, rules) ==> View(key, rules)[k] == Lookup(key, rules, k).value
  {
    if rules != [] {
      ViewLookup(key, rules[1..], k);
    }
  }

  /** Lists that look up the same under every key have the same view. */
  lemma SameLookups<R, K>(key: R -> K, a: seq<R>, m: map<K, R>)
    requires forall k :: k in m <==> Lookup(key, a, k).Some?
    requires forall k :: k in m ==> m[k] == Lookup(key, a, k).value
    ensures View(key, a) == m
  {
    var v := View(key, a);
    forall k | k in v ensures k in m {
      ViewLookup(key, a, k);
      assert Lookup(key, a, k).Some? <==> k in m;
    }
    forall k | k in m ensures k in v && v[k] == m[k] {
      ViewLookup(key, a, k);
    }
    assert v.Keys == m.Keys;
  }

  lemma ViewKeyed<R, K>(key: R -> K, rules: seq<R>)
    ensures KeyedBy(key, View(key, rules))
  {
    forall k | k in View(key, rules) ensures key(View(key, rules)[k]) == k {
      ViewLookup(key, rules, k);
    }
  }

  lemma {:induction false} ViewConcat<R, K>(key: R -> K, a: seq<R>, b: seq<R>)
    ensures View(key, a + b) == View(key, a) + View(key, b)
  {
    if a == [] {
      assert a + b == b;
    } else {
      assert (a + b)[1..] == a[1..] + b;
      ViewConcat(key, a[1..], b);
    }
  }

  lemma {:induction false} LookupNone<R, K>(key: R -> K, rules: seq<R>, k: K)
    ensures Lookup(key, rules, k).None? <==> forall i :: 0 <= i < |rules| ==> key(rules[i]) != k
  {
    if rules != [] {
      LookupNone(key, rules[1..], k);
      assert forall i :: 0 < i < |rules| ==> rules[i] == rules[1..][i - 1];
      if i :| 0 <= i < |rules| && key(rules[i]) == k {
        if i > 0 { assert key(rules[1..][i - 1]) == k; }
      }
    }
  }

  /** In a list with distinct keys every rule is the one its key maps to. */
  lemma {:induction false} LookupOfDistinct<R, K>(key: R -> K, rules: seq<R>, i: nat)
    requires Distinct(key, rules) && i < |rules|
    ensures Lookup(key, rules, key(rules[i])) == Some(rules[i])
  {
    if i == 0 {
      LookupNone(key, rules[1..], key(rules[0]));
    } else {
      LookupOfDistinct(key, rules[1..], i - 1);
    }
  }

  // ----- the three edits against the map operations -----

  /** What an upsert does under every key: the first holder of the key is overwritten, so
      a later holder shadows the new rule. */
  lemma {:induction false} LookupUpserted<R, K>(key: R -> K, rules: seq<R>, rule: R, k: K)
    ensures k != key(rule) ==> Lookup(key, UpsertFirst(key, rules, rule), k) == Lookup(key, rules, k)
    ensures k == key(rule) && AtMostOnce(key, rules, k) ==> Lookup(key, UpsertFirst(key, rules, rule), k) == Some(rule)
    ensures k == key(rule) && !AtMostOnce(key, rules, k) ==> Lookup(key, UpsertFirst(key, rules, rule), k) == Lookup(key, rules, k)
  {
    var out := UpsertFirst(key, rules, rule);
    if rules == [] {
      assert out == [rule];
    } else if key(rules[0]) == key(rule) {
      assert out[1..] == rules[1..];
      OnceTail(key, rules[1..], key(rule));
    } else {
      LookupUpserted(key, rules[1..], rule, k);
      assert out[0] == rules[0] && out[1..] == UpsertFirst(key, rules[1..], rule);
      OnceTail(key, rules, key(rule));
    }
  }

  /** A key that occurs twice is present; a key that does not occur occurs at most once. */
  lemma {:induction false} OnceTail<R, K>(key: R -> K, rules: seq<R>, k: K)
    ensures Lookup(key, rules, k).None? ==> AtMostOnce(key, rules, k)
  {
    if rules != [] {
      OnceTail(key, rules[1..], k);
    }
  }

  /** The server's upsert acts on the view as an update of one key exactly when that key
      is held at most once or its last holder already is the new rule. */
  lemma UpsertIsMapUpdateIff<R, K>(key: R -> K, rules: seq<R>, rule: R)
    ensures (View(key, UpsertFirst(key, rules, rule)) == View(key, rules)[key(rule) := rule])
            <==>
            (AtMostOnce(key, rules, key(rule)) || Lookup(key, rules, key(rule)) == Some(rule))
  {
    var out := UpsertFirst(key, rules, rule);
    var target := View(key, rules)[key(rule) := rule];
    LookupUpserted(key, rules, rule, key(rule));
    OnceTail(key, rules, key(rule));
    ViewLookup(key, out, key(rule));
    if AtMostOnce(key, rules, key(rule)) || Lookup(key, rules, key(rule)) == Some(rule) {
      forall k ensures k in target <==> Lookup(key, out, k).Some? {
        LookupUpserted(key, rules, rule, k);
        ViewLookup(key, rules, k);
      }
      forall k | k in target ensures target[k] == Lookup(key, out, k).value {
        LookupUpserted(key, rules, rule, k);
        ViewLookup(key, rules, k);
      }
      SameLookups(key, out, target);
    }
  }

  lemma {:induction false} LookupFiltered<R, K>(key: R -> K, rules: seq<R>, covered: K -> bool, k: K)
    ensures Lookup(key, FilterOut(key, rules, covered), k) == if covered(k) then None else Lookup(key, rules, k)
  {
    if rules != [] {
      LookupFiltered(key, rules[1..], covered, k);
      var rest := FilterOut(key, rules[1..], covered);
      if covered(key(rules[0])) {
        assert FilterOut(key, rules, covered) == rest;
      } else {
        assert FilterOut(key, rules, covered)[1..] == rest;
      }
    }
  }

  /** Policy removal realises deletion on the view for every list, repeated keys included. */
  lemma FilterIsMapDelete<R, K>(key: R -> K, rules: seq<R>, covered: K -> bool)
    ensures View(key, FilterOut(key, rules, covered)) == Without(View(key, rules), covered)
  {
    var target := Without(View(key, rules), covered);
    var out := FilterOut(key, rules, covered);
    forall k ensures k in target <==> Lookup(key, out, k).Some? {
      LookupFiltered(key, rules, covered, k);
      ViewLookup(key, rules, k);
    }
    forall k | k in target ensures target[k] == Lookup(key, out, k).value {
      LookupFiltered(key, rules, covered, k);
      ViewLookup(key, rules, k);
    }
    SameLookups(key, out, target);
  }

  lemma {:induction false} LookupRemoved<R, K>(key: R -> K, rules: seq<R>, gone: K, k: K)
    ensures k != gone ==> Lookup(key, RemoveFirst(key, rules, gone), k) == Lookup(key, rules, k)
    ensures Lookup(key, RemoveFirst(key, rules, gone), gone).None? <==> AtMostOnce(key, rules, gone)
  {
    if rules != [] {
      var out := RemoveFirst(key, rules, gone);
      if key(rules[0]) == gone {
        assert out == rules[1..];
        OnceTail(key, rules[1..], gone);
      } else {
        LookupRemoved(key, rules[1..], gone, k);
        assert out == [rules[0]] + RemoveFirst(key, rules[1..], gone);
      }
    }
  }

  /** Removing the first match deletes its key from the view exactly when the key is held
      at most once. */
  lemma RemoveIsMapDeleteIff<R, K>(key: R -> K, rules: seq<R>, gone: K)
    ensures (View(key, RemoveFirst(key, rules, gone)) == View(key, rules) - {gone})
            <==>
            AtMostOnce(key, rules, gone)
  {
    var out := RemoveFirst(key, rules, gone);
    var target := View(key, rules) - {gone};
    LookupRemoved(key, rules, gone, gone);
    ViewLookup(key, out, gone);
    if AtMostOnce(key, rules, gone) {
      forall k ensures k in target <==> Lookup(key, out, k).Some? {
        LookupRemoved(key, rules, gone, k);
        ViewLookup(key, rules, k);
      }
      forall k | k in target ensures target[k] == Lookup(key, out, k).value {
        LookupRemoved(key, rules, gone, k);
        ViewLookup(key, rules, k);
      }
      SameLookups(key, out, target);
    }
  }

  // ----- distinct keys -----

  /** Distinct lists are those in which every key is held at most once. */
  lemma {:induction false} DistinctIsAtMostOnce<R, K>(key: R -> K, rules: seq<R>, k: K)
    requires Distinct(key, rules)
    ensures AtMostOnce(key, rules, k)
  {
    if rules != [] {
      DistinctIsAtMostOnce(key, rules[1..], k);
      LookupNone(key, rules[1..], k);
    }
  }

  lemma {:induction false} FilterMembers<R, K>(key: R -> K, rules: seq<R>, covered: K -> bool, r: R)
    ensures r in FilterOut(key, rules, covered) <==> r in rules && !covered(key(r))
  {
    if rules != [] {
      FilterMembers(key, rules[1..], covered, r);
      assert r in rules <==> r == rules[0] || r in rules[1..];
    }
  }

  lemma {:induction false} FilterKeepsDistinct<R, K>(key: R -> K, rules: seq<R>, covered: K -> bool)
    requires Distinct(key, rules)
    ensures Distinct(key, FilterOut(key, rules, covered))
  {
    if rules != [] {
      var rest := FilterOut(key, rules[1..], covered);
      FilterKeepsDistinct(key, rules[1..], covered);
      forall j | 0 <= j < |rest| ensures key(rules[0]) != key(rest[j]) {
        FilterMembers(key, rules[1..], covered, rest[j]);
        var i :| 0 <= i < |rules[1..]| && rules[1..][i] == rest[j];
        assert rules[i + 1] == rest[j];
      }
    }
  }

  /** In a list with distinct keys an upsert replaces the rule under the key and adds or drops no
      other. */
  lemma {:induction false} UpsertMembers<R, K>(key: R -> K, rules: seq<R>, rule: R, r: R)
    requires Distinct(key, rules)
    ensures r in UpsertFirst(key, rules, rule) <==> r == rule || (r in rules && key(r) != key(rule))
  {
    var out, at := UpsertFirst(key, rules, rule), FirstIndex(key, rules, key(rule));
    if at < |rules| {
      assert out[at] == rule;
      forall j | 0 <= j < |rules| && j != at ensures key(rules[j]) != key(rule) && rules[j] in out { assert out[j] == rules[j]; }
    } else {
      assert out[|rules|] == rule;
    }
  }

  /** In a list with distinct keys a removal drops exactly the rule under the key. */
  lemma {:induction false} RemoveMembers<R, K>(key: R -> K, rules: seq<R>, gone: K, r: R)
    requires Distinct(key, rules)
    ensures r in RemoveFirst(key, rules, gone) <==> r in rules && key(r) != gone
  {
    var at := FirstIndex(key, rules, gone);
    if at < |rules| {
      assert rules == rules[..at] + [rules[at]] + rules[at + 1..];
      assert forall j :: 0 <= j < |rules| && j != at ==> key(rules[j]) != gone;
      assert forall x :: x in rules[..at] || x in rules[at + 1..] ==> key(x) != gone;
    }
  }

  /** The view of a list with distinct keys holds every rule of the list and no other. */
  lemma DistinctViewMembers<R, K>(key: R -> K, rules: seq<R>, r: R)
    requires Distinct(key, rules)
    ensures r in rules <==> key(r) in View(key, rules) && View(key, rules)[key(r)] == r
  {
    ViewLookup(key, rules, key(r));
    if r in rules {
      var i :| 0 <= i < |rules| && rules[i] == r;
      LookupOfDistinct(key, rules, i);
    }
  }

  /** All three server edits keep keys distinct. */
  lemma EditsKeepDistinct<R, K>(key: R -> K, rules: seq<R>, rule: R, gone: K, covered: K -> bool)
    requires Distinct(key, rules)
    ensures Distinct(key, UpsertFirst(key, rules, rule))
    ensures Distinct(key, RemoveFirst(key, rules, gone))
    ensures Distinct(key, FilterOut(key, rules, covered))
  {
    FilterKeepsDistinct(key, rules, covered);
  }

  lemma EnumerateLast<R, K>(key: R -> K, m: map<K, R>, flat: seq<R>, r: R)
    requires Enumerates(key, m, flat) && key(r) !in m
    ensures Enumerates(key, m[key(r) := r], flat + [r])
  {
    ViewConcat(key, flat, [r]);
    assert View(key, [r]) == map[key(r) := r];
    forall j | 0 <= j < |flat| ensures key(flat[j]) != key(r) {
      LookupOfDistinct(key, flat, j);
      ViewLookup(key, flat, key(flat[j]));
    }
  }

  lemma FewerKeys<R, K>(m: map<K, R>, k: K)
    requires k in m
    ensures |m - {k}| < |m|
  {
    assert m.Keys == (m - {k}).Keys + {k};
  }

  /** Every keyed map can be enumerated. */
  lemma {:induction false} EnumerationExists<R, K>(key: R -> K, m: map<K, R>) returns (flat: seq<R>)
    requires KeyedBy(key, m)
    ensures Enumerates(key, m, flat)
    decreases |m|
  {
    if m == map[] {
      flat := [];
    } else {
      var k :| k in m;
      var rest := m - {k};
      FewerKeys(m, k);
      var tail := EnumerationExists(key, rest);
      flat := tail + [m[k]];
      EnumerateLast(key, rest, tail, m[k]);
      assert rest[k := m[k]] == m;
    }
  }
}
