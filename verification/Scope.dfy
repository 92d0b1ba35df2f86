/** Scopes: space-delimited words (section 3.3 of RFC 6749). */
module Scope {
  import opened Text

  /** Every word of the requested scope is a word of the existing one. */
  predicate Covers(existing: string, requested: string) {
    forall i :: 0 <= i < |Fields(requested)| ==> Fields(requested)[i] in Fields(existing)
  }

  lemma CoversTransitive(a: string, b: string, c: string)
    requires Covers(a, b) && Covers(b, c)
    ensures Covers(a, c)
  {
  }

  method WordSet(scope: string) returns (words: set<string>)
    ensures forall w :: w in words <==> w in Fields(scope)
  {
    words := {};
    var fields := Fields(scope);
    for i := 0 to |fields|
      invariant forall w :: w in words <==> w in fields[..i]
    {
      words := words + {fields[i]};
      assert fields[..i + 1] == fields[..i] + [fields[i]];
    }
    assert fields[..|fields|] == fields;
  }

  /** The TTS's subset check. */
  method IsScopeSubset(requested: string, existing: string) returns (yes: bool)
    ensures yes <==> Covers(existing, requested)
  {
    var have := WordSet(existing);
    var fields := Fields(requested);
    for i := 0 to |fields|
      invariant forall j :: 0 <= j < i ==> fields[j] in Fields(existing)
    {
      if fields[i] !in have {
        return false;
      }
    }
    return true;
  }

  /** One word of the scope string is the required scope. */
  predicate Contains(scope: string, required: string) { required in Fields(scope) }

  method ScopeContains(scope: string, required: string) returns (yes: bool)
    ensures yes <==> Contains(scope, required)
  {
    var fields := Fields(scope);
    for i := 0 to |fields|
      invariant required !in fields[..i]
    {
      if fields[i] == required {
        return true;
      }
    }
    return false;
  }

  /** Covering, with more words; repeated words count. */
  predicate Broader(broader: string, narrower: string) {
    Covers(broader, narrower) && |Fields(broader)| > |Fields(narrower)|
  }

  method ScopeIsBroader(broader: string, narrower: string) returns (yes: bool)
    ensures yes <==> Broader(broader, narrower)
  {
    yes := IsScopeSubset(narrower, broader);
    if yes {
      yes := |Fields(broader)| > |Fields(narrower)|;
    }
  }

  predicate NoRepeats(words: seq<string>) {
    forall i, j :: 0 <= i < j < |words| ==> words[i] != words[j]
  }

  lemma {:induction false} SetSize(words: seq<string>)
    ensures |set w | w in words| <= |words|
    ensures NoRepeats(words) ==> |set w | w in words| == |words|
  {
    if words != [] {
      var front, last := words[..|words| - 1], words[|words| - 1];
      SetSize(front);
      assert (set w | w in words) == (set w | w in front) + {last};
      if NoRepeats(words) {
        assert last !in front;
      }
    }
  }

  /** All words of the second scope and at least one more. */
  predicate Exceeds(a: string, b: string) {
    Covers(a, b) && exists w :: w in Fields(a) && w !in Fields(b)
  }

  /** The words without repetitions, each at its last place. */
  function Dedup(words: seq<string>): (out: seq<string>)
    ensures NoRepeats(out) && |out| <= |words| && (forall w :: w in out <==> w in words)
    ensures |out| == |words| <==> NoRepeats(words)
  {
    if words == [] then []
    else
      assert forall w :: w in words <==> w == words[0] || w in words[1..];
      var rest := Dedup(words[1..]);
      assert NoRepeats(words) <==> words[0] !in words[1..] && NoRepeats(words[1..]) by { NoRepeatsStep(words); }
      if words[0] in words[1..] then rest
      else
        assert NoRepeats([words[0]] + rest);
        [words[0]] + rest
  }

  lemma NoRepeatsStep(words: seq<string>)
    requires words != []
    ensures NoRepeats(words) <==> words[0] !in words[1..] && NoRepeats(words[1..])
  {
    assert forall i :: 1 <= i < |words| ==> words[i] == words[1..][i - 1];
    if NoRepeats(words) {
      assert forall i, j :: 0 <= i < j < |words[1..]| ==> words[1..][i] == words[i + 1] && words[1..][j] == words[j + 1];
    }
  }

  /** A word longer than every word of a list. */
  function LongerWord(words: seq<string>): (w: string)
    ensures IsWord(w) && forall i :: 0 <= i < |words| ==> |words[i]| < |w|
  {
    if words == [] then "x"
    else
      var rest := LongerWord(words[1..]);
      if |words[0]| < |rest| then rest else Repeat('x', |words[0]| + 1)
  }

  function Repeat(c: char, n: nat): (s: string)
    ensures |s| == n && forall i :: 0 <= i < n ==> s[i] == c
  {
    if n == 0 then "" else [c] + Repeat(c, n - 1)
  }

  /** Any scope without repetitions that has all words of a, in a's words only. */
  lemma OnceEach(a: string) returns (once: string)
    ensures Fields(once) == Dedup(Fields(a))
  {
    once := Join(Dedup(Fields(a)), ' ');
    WordsOf(a, Dedup(Fields(a)));
    FieldsOfJoin(Dedup(Fields(a)));
  }

  lemma WordsOf(a: string, words: seq<string>)
    requires forall w :: w in words ==> w in Fields(a)
    ensures forall i :: 0 <= i < |words| ==> IsWord(words[i])
  {
    forall i | 0 <= i < |words| ensures IsWord(words[i]) {
      assert words[i] in Fields(a);
    }
  }

  /** A scope that has all words of b and one more, but no more words than b counts. */
  lemma OneMoreWord(b: string) returns (a: string)
    requires !NoRepeats(Fields(b))
    ensures Exceeds(a, b) && !Broader(a, b)
  {
    var extra := LongerWord(Fields(b));
    var words := Dedup(Fields(b)) + [extra];
    WordsOf(b, Dedup(Fields(b)));
    a := Join(words, ' ');
    FieldsOfJoin(words);
    assert extra in Fields(a) && extra !in Fields(b);
    assert Covers(a, b) by {
      forall i | 0 <= i < |Fields(b)| ensures Fields(b)[i] in Fields(a) {
        assert Fields(b)[i] in Dedup(Fields(b));
      }
    }
  }

  lemma ExceedsIsBroader(a: string, b: string)
    requires NoRepeats(Fields(b)) && Exceeds(a, b)
    ensures Broader(a, b)
  {
    var x, y := set w | w in Fields(a), set w | w in Fields(b);
    SetSize(Fields(a));
    SetSize(Fields(b));
    var w :| w in Fields(a) && w !in Fields(b);
    assert y <= x && w in x - y && |x| == |y| + |x - y|;
  }

  lemma SameWordsNotBroader(a: string, b: string)
    requires NoRepeats(Fields(a)) && Covers(a, b) && !Exceeds(a, b)
    ensures !Broader(a, b)
  {
    SetSize(Fields(a));
    SetSize(Fields(b));
    assert (set w | w in Fields(a)) == (set w | w in Fields(b));
  }

  /** The comparison counts words, repeated ones too. Every scope that has an extra word is
      found broader exactly when the narrower scope repeats no word. */
  lemma FindsAllBroaderIff(b: string)
    ensures (forall a :: Exceeds(a, b) ==> Broader(a, b)) <==> NoRepeats(Fields(b))
  {
    if NoRepeats(Fields(b)) {
      forall a | Exceeds(a, b) ensures Broader(a, b) { ExceedsIsBroader(a, b); }
    } else {
      var a := OneMoreWord(b);
    }
  }

  /** Every scope found narrower than a lacks one of its words exactly when a repeats no word. */
  lemma FindsOnlyBroaderIff(a: string)
    ensures (forall b :: Broader(a, b) ==> Exceeds(a, b)) <==> NoRepeats(Fields(a))
  {
    if NoRepeats(Fields(a)) {
      forall b | Broader(a, b) ensures Exceeds(a, b) {
        if !Exceeds(a, b) { SameWordsNotBroader(a, b); }
      }
    } else {
      var b := OnceEach(a);
      assert Broader(a, b) && !Exceeds(a, b);
    }
  }

  /** Between scopes without repetitions the comparison is exact. */
  lemma BroaderIffExceeds(a: string, b: string)
    requires NoRepeats(Fields(a)) && NoRepeats(Fields(b))
    ensures Broader(a, b) <==> Exceeds(a, b)
  {
    FindsAllBroaderIff(b);
    FindsOnlyBroaderIff(a);
  }

  /** Repetition in either scope misleads the count: a scope is found broader than itself
      without the repetition, and not broader than one of its words said twice. */
  lemma RepeatsMislead(v: string, w: string)
    requires IsWord(v) && IsWord(w) && v != w
    ensures Broader(w + " " + w, w) && !Exceeds(w + " " + w, w)
    ensures !Broader(v + " " + w, w + " " + w) && Exceeds(v + " " + w, w + " " + w)
  {
    FieldsOfWord(v);
    FieldsOfWord(w);
    FieldsOfConcat(w, ' ', w);
    FieldsOfConcat(v, ' ', w);
    assert Fields(v + " " + w) == [v, w] && Fields(w + " " + w) == [w, w];
    assert v in [v, w] && v !in [w, w];
  }
}
