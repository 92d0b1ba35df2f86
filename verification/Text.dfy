/** The string operations the code relies on. Strings are sequences of characters; Go compares
    them by bytes, which for UTF-8 is the order of the characters. */
module Text {

  // ----- order -----

  predicate StringLess(a: string, b: string)
  {
    if b == "" then false
    else if a == "" then true
    else a[0] < b[0] || (a[0] == b[0] && StringLess(a[1..], b[1..]))
  }

  lemma {:induction false} StringIrreflexive(a: string)
    ensures !StringLess(a, a)
  {
    if a != "" { StringIrreflexive(a[1..]); }
  }

  lemma {:induction false} StringTransitive(a: string, b: string, c: string)
    requires StringLess(a, b) && StringLess(b, c)
    ensures StringLess(a, c)
  {
    if a != "" && a[0] == b[0] == c[0] { StringTransitive(a[1..], b[1..], c[1..]); }
  }

  lemma {:induction false} StringConnected(a: string, b: string)
    ensures a == b || StringLess(a, b) || StringLess(b, a)
  {
    if a != "" && b != "" && a[0] == b[0] {
      StringConnected(a[1..], b[1..]);
      assert a == [a[0]] + a[1..] && b == [b[0]] + b[1..];
    }
  }

  /** One string is less than another when, after a common prefix, it ends first or has the smaller
      character. */
  lemma {:induction false} StringLessIff(a: string, b: string)
    ensures StringLess(a, b) <==> exists i :: 0 <= i <= |a| && i < |b| && a[..i] == b[..i] && (i == |a| || a[i] < b[i])
  {
    if a != "" && b != "" && a[0] == b[0] {
      StringLessIff(a[1..], b[1..]);
      if i :| 0 <= i <= |a[1..]| && i < |b[1..]| && a[1..][..i] == b[1..][..i] && (i == |a[1..]| || a[1..][i] < b[1..][i]) {
        assert a[..i + 1] == [a[0]] + a[1..][..i] && b[..i + 1] == [b[0]] + b[1..][..i];
      }
      if i :| 0 <= i <= |a| && i < |b| && a[..i] == b[..i] && (i == |a| || a[i] < b[i]) {
        FirstDifference(a, b, i);
      }
    } else if b != "" {
      assert a[..0] == b[..0];
      if i :| 0 <= i <= |a| && i < |b| && a[..i] == b[..i] && (i == |a| || a[i] < b[i]) {
        if i > 0 { assert a[..i][0] == b[..i][0]; }
      }
    }
  }

  lemma FirstDifference(a: string, b: string, i: nat)
    requires a != "" && b != "" && a[0] == b[0] && i <= |a| && i < |b| && a[..i] == b[..i] && (i == |a| || a[i] < b[i])
    ensures i > 0 && a[1..][..i - 1] == b[1..][..i - 1] && (i - 1 == |a[1..]| || a[1..][i - 1] < b[1..][i - 1])
  {
    assert a[1..][..i - 1] == a[..i][1..] && b[1..][..i - 1] == b[..i][1..];
  }

  // ----- words -----

  /** White space as in Unicode's White_Space property. */
  predicate IsSpace(c: char) {
    var u := c as int;
    || 9 <= u <= 13 || u == 0x20 || u == 0x85 || u == 0xA0 || u == 0x1680
    || 0x2000 <= u <= 0x200A || u == 0x2028 || u == 0x2029 || u == 0x202F || u == 0x205F || u == 0x3000
  }

  /** The white space characters one by one. */
  lemma SpacesAre(c: char)
    ensures IsSpace(c) <==> c in {'\t', '\n', '\U{0B}', '\U{0C}', '\r', ' ', '\U{85}', '\U{A0}', '\U{1680}', '\U{2000}', '\U{2001}', '\U{2002}',
                                  '\U{2003}', '\U{2004}', '\U{2005}', '\U{2006}', '\U{2007}', '\U{2008}', '\U{2009}', '\U{200A}', '\U{2028}',
                                  '\U{2029}', '\U{202F}', '\U{205F}', '\U{3000}'}
  {
  }

  /** Length of the space-free prefix. */
  function WordLength(s: string): (n: nat)
    ensures n <= |s|
    ensures forall i :: 0 <= i < n ==> !IsSpace(s[i])
    ensures n < |s| ==> IsSpace(s[n])
  {
    if s == "" || IsSpace(s[0]) then 0 else 1 + WordLength(s[1..])
  }

  /** The space-separated words of a string, in order. */
  function Fields(s: string): (words: seq<string>)
    ensures forall i :: 0 <= i < |words| ==> IsWord(words[i])
    decreases |s|
  {
    if s == "" then []
    else if IsSpace(s[0]) then Fields(s[1..])
    else
      var n := WordLength(s);
      [s[..n]] + Fields(s[n..])
  }

  predicate IsWord(w: string) {
    w != "" && forall i :: 0 <= i < |w| ==> !IsSpace(w[i])
  }

  /** A string is its own only word exactly when it is a word. */
  lemma FieldsOfWord(s: string)
    ensures IsWord(s) <==> Fields(s) == [s]
  {
    assert Fields(s) != [] ==> IsWord(Fields(s)[0]);
    if IsWord(s) {
      assert WordLength(s) == |s|;
      assert s[..|s|] == s && s[|s|..] == "";
    }
  }

  /** Words are collected part by part: a space separates. Together with the words of the
      empty string and of a word, this determines the words of every string. */
  lemma {:induction false} FieldsOfConcat(a: string, space: char, b: string)
    requires IsSpace(space)
    ensures Fields(a + [space] + b) == Fields(a) + Fields(b)
    decreases |a|
  {
    var s := a + [space] + b;
    if a == "" {
      assert s[1..] == b;
    } else if IsSpace(a[0]) {
      SlicesOfConcat(a, space, b, 1);
      FieldsOfConcat(a[1..], space, b);
    } else {
      var n := WordLength(a);
      WordLengthOfConcat(a, space, b);
      SlicesOfConcat(a, space, b, n);
      FieldsOfConcat(a[n..], space, b);
    }
  }

  /** Words written with single spaces between them are the words of the string. */
  lemma {:induction false} FieldsOfJoin(words: seq<string>)
    requires forall i :: 0 <= i < |words| ==> IsWord(words[i])
    ensures Fields(Join(words, ' ')) == words
  {
    if words != [] {
      FieldsOfWord(words[0]);
      FieldsOfJoin(words[1..]);
      if |words| > 1 { FieldsOfConcat(words[0], ' ', Join(words[1..], ' ')); }
      assert words == [words[0]] + words[1..];
    }
  }

  lemma SlicesOfConcat(a: string, c: char, b: string, n: nat)
    requires n <= |a|
    ensures (a + [c] + b)[..n] == a[..n] && (a + [c] + b)[n..] == a[n..] + [c] + b
  {
  }

  lemma {:induction false} WordLengthOfConcat(a: string, space: char, b: string)
    requires IsSpace(space)
    ensures WordLength(a + [space] + b) == WordLength(a)
  {
    if a != "" && !IsSpace(a[0]) {
      assert (a + [space] + b)[1..] == a[1..] + [space] + b;
      WordLengthOfConcat(a[1..], space, b);
    }
  }

  // ----- splitting -----

  predicate Free(s: string, c: char) {
    forall i :: 0 <= i < |s| ==> s[i] != c
  }

  /** Position of the first occurrence of a character, or the length. */
  function IndexOf(s: string, c: char): (i: nat)
    ensures i <= |s| && Free(s[..i], c)
    ensures i < |s| ==> s[i] == c
  {
    if s == "" || s[0] == c then 0
    else
      var rest := IndexOf(s[1..], c);
      assert forall j :: 1 <= j < 1 + rest ==> s[j] == s[1..][..rest][j - 1];
      1 + rest
  }

  /** Splitting at every separator: one part more than there are separators. */
  function Split(s: string, c: char): (parts: seq<string>)
    ensures parts != [] && forall i :: 0 <= i < |parts| ==> Free(parts[i], c)
    decreases |s|
  {
    var i := IndexOf(s, c);
    if i == |s| then
      assert s[..i] == s;
      [s]
    else [s[..i]] + Split(s[i + 1..], c)
  }

  function Join(parts: seq<string>, c: char): (s: string)
  {
    if parts == [] then ""
    else if |parts| == 1 then parts[0]
    else parts[0] + [c] + Join(parts[1..], c)
  }

  lemma JoinCons(part: string, parts: seq<string>, c: char)
    requires parts != []
    ensures Join([part] + parts, c) == part + [c] + Join(parts, c)
  {
    assert ([part] + parts)[1..] == parts;
  }

  lemma CutAt(s: string, i: nat)
    requires i < |s|
    ensures s == s[..i] + [s[i]] + s[i + 1..]
  {
  }

  lemma {:induction false} JoinSplit(s: string, c: char)
    ensures Join(Split(s, c), c) == s
    decreases |s|
  {
    var i := IndexOf(s, c);
    if i < |s| {
      JoinSplit(s[i + 1..], c);
      JoinCons(s[..i], Split(s[i + 1..], c), c);
      CutAt(s, i);
    }
  }

  lemma {:induction false} IndexOfConcat(a: string, c: char, rest: string)
    requires Free(a, c)
    ensures IndexOf(a + [c] + rest, c) == |a|
  {
    var s := a + [c] + rest;
    if a != "" {
      assert s[0] == a[0] && s[1..] == a[1..] + [c] + rest;
      IndexOfConcat(a[1..], c, rest);
    }
  }

  lemma IndexOfFree(a: string, c: char)
    requires Free(a, c)
    ensures IndexOf(a, c) == |a|
  {
  }

  /** Splitting at the first separator. */
  lemma SplitStep(a: string, c: char, rest: string)
    requires Free(a, c)
    ensures Split(a + [c] + rest, c) == [a] + Split(rest, c)
  {
    var s := a + [c] + rest;
    IndexOfConcat(a, c, rest);
    assert s[..|a|] == a && s[|a| + 1..] == rest;
  }

  /** Splitting undoes joining: parts are determined by the joined string. */
  lemma {:induction false} SplitJoin(parts: seq<string>, c: char)
    requires parts != [] && forall i :: 0 <= i < |parts| ==> Free(parts[i], c)
    ensures Split(Join(parts, c), c) == parts
  {
    if |parts| == 1 {
      IndexOfFree(parts[0], c);
    } else {
      SplitJoin(parts[1..], c);
      SplitStep(parts[0], c, Join(parts[1..], c));
    }
  }

  lemma {:induction false} JoinConcat(a: seq<string>, b: seq<string>, c: char)
    requires a != [] && b != []
    ensures Join(a + b, c) == Join(a, c) + [c] + Join(b, c)
  {
    assert a == [a[0]] + a[1..] && a + b == [a[0]] + (a[1..] + b);
    JoinCons(a[0], a[1..] + b, c);
    if |a| == 1 {
      assert a[1..] + b == b;
    } else {
      JoinConcat(a[1..], b, c);
      JoinCons(a[0], a[1..], c);
    }
  }

  /** Splitting distributes over a separator. */
  lemma SplitConcat(a: string, c: char, b: string)
    ensures Split(a + [c] + b, c) == Split(a, c) + Split(b, c)
  {
    var parts := Split(a, c) + Split(b, c);
    JoinSplit(a, c);
    JoinSplit(b, c);
    JoinConcat(Split(a, c), Split(b, c), c);
    SplitJoin(parts, c);
  }

  /** The parts of one string start with the parts of another, and go on, exactly when the
      string starts with the other and a separator. */
  lemma PartsExtendIff(s: string, p: string, c: char)
    ensures Split(p, c) < Split(s, c) <==> HasPrefix(s, p + [c])
  {
    if HasPrefix(s, p + [c]) {
      assert s == p + [c] + s[|p| + 1..];
      SplitConcat(p, c, s[|p| + 1..]);
    }
    if Split(p, c) < Split(s, c) {
      var more := Split(s, c)[|Split(p, c)|..];
      assert Split(s, c) == Split(p, c) + more;
      JoinConcat(Split(p, c), more, c);
      JoinSplit(s, c);
      JoinSplit(p, c);
    }
  }

  /** Equal parts make equal strings. */
  lemma SamePartsIff(s: string, p: string, c: char)
    ensures Split(p, c) == Split(s, c) <==> s == p
  {
    JoinSplit(s, c);
    JoinSplit(p, c);
  }

  predicate AllFree(parts: seq<string>, d: char) {
    forall i :: 0 <= i < |parts| ==> Free(parts[i], d)
  }

  /** Splitting and joining neither add nor hide characters other than the separator. */
  lemma {:induction false} SplitKeepsFree(s: string, c: char, d: char)
    requires Free(s, d)
    ensures AllFree(Split(s, c), d)
    decreases |s|
  {
    var i := IndexOf(s, c);
    if i < |s| { SplitKeepsFree(s[i + 1..], c, d); }
  }

  lemma {:induction false} JoinKeepsFree(parts: seq<string>, c: char, d: char)
    requires AllFree(parts, d) && c != d
    ensures Free(Join(parts, c), d)
  {
    if |parts| > 1 { JoinKeepsFree(parts[1..], c, d); }
  }

  /** The first and the last part hold the ends of the string. */
  lemma {:induction false} EndsOfSplit(s: string, c: char)
    requires s != "" && s[0] != c && s[|s| - 1] != c
    ensures Split(s, c)[0] != "" && Split(s, c)[|Split(s, c)| - 1] != ""
    decreases |s|
  {
    LastOfSplit(s, c);
  }

  lemma {:induction false} LastOfSplit(s: string, c: char)
    requires s != "" && s[|s| - 1] != c
    ensures Split(s, c)[|Split(s, c)| - 1] != ""
    decreases |s|
  {
    var i := IndexOf(s, c);
    if i < |s| { LastOfSplit(s[i + 1..], c); }
  }

  lemma {:induction false} EndsOfJoin(parts: seq<string>, c: char)
    requires parts != [] && parts[0] != "" && parts[|parts| - 1] != ""
    ensures var s := Join(parts, c);
            s != "" && s[0] == parts[0][0] && s[|s| - 1] == parts[|parts| - 1][|parts[|parts| - 1]| - 1]
  {
    LastOfJoin(parts, c);
  }

  lemma {:induction false} LastOfJoin(parts: seq<string>, c: char)
    requires parts != [] && parts[|parts| - 1] != ""
    ensures var s := Join(parts, c);
            s != "" && s[|s| - 1] == parts[|parts| - 1][|parts[|parts| - 1]| - 1]
  {
    if |parts| > 1 { LastOfJoin(parts[1..], c); }
  }

  predicate HasPrefix(s: string, p: string) { p <= s }

  predicate HasSuffix(s: string, p: string) { |p| <= |s| && s[|s| - |p|..] == p }

  /** Stripping a character from both ends. */
  function Trim(s: string, c: char): (t: string)
    ensures t != "" ==> t[0] != c && t[|t| - 1] != c
    decreases |s|
  {
    if s == "" then ""
    else if s[0] == c then Trim(s[1..], c)
    else if s[|s| - 1] == c then Trim(s[..|s| - 1], c)
    else s
  }

  predicate OnlyAround(s: string, c: char, lo: nat, hi: nat) {
    forall i :: 0 <= i < |s| && (i < lo || hi <= i) ==> s[i] == c
  }

  /** Trimming leaves a middle part and removes only that character around it. */
  lemma {:induction false} TrimSpec(s: string, c: char) returns (lo: nat, hi: nat)
    ensures lo <= hi <= |s| && Trim(s, c) == s[lo..hi] && OnlyAround(s, c, lo, hi)
    decreases |s|
  {
    if s == "" {
      lo, hi := 0, 0;
    } else if s[0] == c {
      var l, h := TrimSpec(s[1..], c);
      lo, hi := l + 1, h + 1;
      OnlyAroundFront(s, c, l, h);
    } else if s[|s| - 1] == c {
      lo, hi := TrimSpec(s[..|s| - 1], c);
      OnlyAroundBack(s, c, lo, hi);
    } else {
      lo, hi := 0, |s|;
    }
  }

  lemma OnlyAroundFront(s: string, c: char, lo: nat, hi: nat)
    requires s != "" && s[0] == c && lo <= hi <= |s| - 1 && OnlyAround(s[1..], c, lo, hi)
    ensures OnlyAround(s, c, lo + 1, hi + 1) && s[1..][lo..hi] == s[lo + 1..hi + 1]
  {
    assert forall i :: 1 <= i < |s| ==> s[i] == s[1..][i - 1];
  }

  lemma OnlyAroundBack(s: string, c: char, lo: nat, hi: nat)
    requires s != "" && s[|s| - 1] == c && lo <= hi <= |s| - 1 && OnlyAround(s[..|s| - 1], c, lo, hi)
    ensures OnlyAround(s, c, lo, hi) && s[..|s| - 1][lo..hi] == s[lo..hi]
  {
    assert forall i :: 0 <= i < |s| - 1 ==> s[i] == s[..|s| - 1][i];
  }
}
