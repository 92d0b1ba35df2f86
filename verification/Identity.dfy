/** Workload identity from SPIFFE principals (pkg/extauth/identity.go). */
module Identity {
  import opened Wrappers
  import opened Text

  datatype WorkloadIdentity = WorkloadIdentity(subject: string, namespace: string, serviceAccount: string)

  datatype IdentityError = EmptyPrincipal | NotSpiffe | NoPath | BadPath

  const SCHEME := "spiffe://"

  function Subject(ns: string, sa: string): string { "system:serviceaccount:" + ns + ":" + sa }

  function ResolveFromPrincipal(principal: string): Result<WorkloadIdentity, IdentityError> {
    if principal == "" then Err(EmptyPrincipal)
    else if !HasPrefix(principal, SCHEME) then Err(NotSpiffe)
    else
      var rest := principal[|SCHEME|..];
      var slash := IndexOf(rest, '/');
      if slash == |rest| then Err(NoPath)
      else
        var parts := Split(rest[slash + 1..], '/');
        if |parts| < 4 || parts[0] != "ns" || parts[2] != "sa" then Err(BadPath)
        else Ok(WorkloadIdentity(Subject(parts[1], parts[3]), parts[1], parts[3]))
  }

  /** Slash-free path segments that start with ns, a namespace, sa and a service account. */
  predicate WorkloadPath(parts: seq<string>, ns: string, sa: string) {
    && |parts| >= 4 && parts[0] == "ns" && parts[1] == ns && parts[2] == "sa" && parts[3] == sa
    && forall i :: 0 <= i < |parts| ==> Free(parts[i], '/')
  }

  /** The principal is the scheme, a slash-free trust domain and the path, joined by slashes. */
  predicate Spiffe(principal: string, td: string, parts: seq<string>) {
    Free(td, '/') && principal == "spiffe://" + Join([td] + parts, '/')
  }

  /** The first segment and the rest, cut apart at the first slash. */
  lemma FirstSegment(td: string, parts: seq<string>)
    requires Free(td, '/') && parts != []
    ensures var s := Join([td] + parts, '/');
            IndexOf(s, '/') == |td| && |td| < |s| && s[|td| + 1..] == Join(parts, '/')
  {
    JoinCons(td, parts, '/');
    IndexOfConcat(td, '/', Join(parts, '/'));
  }

  lemma AcceptsSpiffe(principal: string, td: string, parts: seq<string>, ns: string, sa: string)
    requires Spiffe(principal, td, parts) && WorkloadPath(parts, ns, sa)
    ensures ResolveFromPrincipal(principal) == Ok(WorkloadIdentity(Subject(ns, sa), ns, sa))
  {
    var rest := Join([td] + parts, '/');
    PrefixCut(SCHEME, rest);
    FirstSegment(td, parts);
    SplitJoin(parts, '/');
  }

  lemma SegmentsJoin(s: string)
    requires IndexOf(s, '/') < |s|
    ensures var slash := IndexOf(s, '/'); s == Join([s[..slash]] + Split(s[slash + 1..], '/'), '/')
  {
    var slash := IndexOf(s, '/');
    JoinSplit(s[slash + 1..], '/');
    JoinCons(s[..slash], Split(s[slash + 1..], '/'), '/');
    CutAt(s, slash);
  }

  lemma AcceptedIsSpiffe(principal: string, ns: string, sa: string) returns (td: string, parts: seq<string>)
    requires ResolveFromPrincipal(principal) == Ok(WorkloadIdentity(Subject(ns, sa), ns, sa))
    ensures Spiffe(principal, td, parts) && WorkloadPath(parts, ns, sa)
  {
    var rest := principal[|SCHEME|..];
    var slash := IndexOf(rest, '/');
    td, parts := rest[..slash], Split(rest[slash + 1..], '/');
    SegmentsJoin(rest);
    PrefixJoin(SCHEME, principal);
  }

  lemma PrefixCut(p: string, rest: string)
    ensures HasPrefix(p + rest, p) && (p + rest)[|p|..] == rest
  {
  }

  lemma PrefixJoin(p: string, s: string)
    requires HasPrefix(s, p)
    ensures s == p + s[|p|..]
  {
  }

  /** A principal is accepted exactly when it is spiffe://td/ns/N/sa/S, possibly followed by
      further segments, with slash-free td, N and S; the identity is then that N and S. */
  lemma AcceptedIffSpiffe(principal: string, ns: string, sa: string)
    ensures ResolveFromPrincipal(principal) == Ok(WorkloadIdentity(Subject(ns, sa), ns, sa))
            <==>
            exists td, parts :: Spiffe(principal, td, parts) && WorkloadPath(parts, ns, sa)
  {
    if ResolveFromPrincipal(principal) == Ok(WorkloadIdentity(Subject(ns, sa), ns, sa)) {
      var td, parts := AcceptedIsSpiffe(principal, ns, sa);
    }
    if td, parts :| Spiffe(principal, td, parts) && WorkloadPath(parts, ns, sa) {
      AcceptsSpiffe(principal, td, parts, ns, sa);
    }
  }

  /** Why a principal is refused: the first thing missing. */
  lemma RefusedIff(principal: string)
    ensures var r := ResolveFromPrincipal(principal);
            && (r == Err(EmptyPrincipal) <==> principal == "")
            && (r == Err(NotSpiffe) <==> principal != "" && !HasPrefix(principal, "spiffe://"))
            && (r == Err(NoPath) <==> HasPrefix(principal, "spiffe://") && Free(principal[9..], '/'))
            && (r == Err(BadPath) <==> HasPrefix(principal, "spiffe://") && !Free(principal[9..], '/') && r.Err?)
  {
    if HasPrefix(principal, SCHEME) {
      var rest := principal[|SCHEME|..];
      assert IndexOf(rest, '/') == |rest| <==> Free(rest, '/') by {
        if Free(rest, '/') { IndexOfFree(rest, '/'); }
        assert rest[..|rest|] == rest;
      }
    }
  }

  lemma SubjectPair(ns: string, sa: string, ns': string, sa': string)
    ensures Subject(ns, sa) == Subject(ns', sa') <==> ns + [':'] + sa == ns' + [':'] + sa'
  {
    var p := "system:serviceaccount:";
    var a, b := ns + [':'] + sa, ns' + [':'] + sa';
    assert Subject(ns, sa) == p + a && Subject(ns', sa') == p + b;
    assert a == (p + a)[|p|..] && b == (p + b)[|p|..];
  }

  /** A pair without colons can be read back from the subject. */
  lemma SubjectReadsBack(ns: string, sa: string, ns': string, sa': string)
    requires Free(ns, ':') && Free(sa, ':') && ns + [':'] + sa == ns' + [':'] + sa'
    ensures ns == ns' && sa == sa'
  {
    var a, b := ns + [':'] + sa, ns' + [':'] + sa';
    assert b[|ns'|] == ':';
    assert forall i :: 0 <= i < |a| && a[i] == ':' ==> i == |ns|;
    assert ns == a[..|ns|] && ns' == b[..|ns'|];
    assert sa == a[|ns| + 1..] && sa' == b[|ns'| + 1..];
  }

  /** With a colon in either part another pair has the same subject. */
  lemma ColonCollides(ns: string, sa: string) returns (ns': string, sa': string)
    requires !Free(ns, ':') || !Free(sa, ':')
    ensures Subject(ns, sa) == Subject(ns', sa') && ns != ns'
  {
    if !Free(ns, ':') {
      var i :| 0 <= i < |ns| && ns[i] == ':';
      ns', sa' := ns[..i], ns[i + 1..] + [':'] + sa;
      CutAt(ns, i);
      assert ns + [':'] + sa == ns' + [':'] + sa';
    } else {
      var i :| 0 <= i < |sa| && sa[i] == ':';
      ns', sa' := ns + [':'] + sa[..i], sa[i + 1..];
      CutAt(sa, i);
      assert ns + [':'] + sa == ns' + [':'] + sa';
    }
    SubjectPair(ns, sa, ns', sa');
  }

  /** A workload shares its subject with no other exactly when neither its namespace nor its
      service account contains a colon. */
  lemma SubjectIsUniqueIff(ns: string, sa: string)
    ensures (forall ns', sa' :: Subject(ns, sa) == Subject(ns', sa') ==> ns == ns' && sa == sa')
            <==>
            Free(ns, ':') && Free(sa, ':')
  {
    if Free(ns, ':') && Free(sa, ':') {
      forall ns', sa' | Subject(ns, sa) == Subject(ns', sa') ensures ns == ns' && sa == sa' {
        SubjectPair(ns, sa, ns', sa');
        SubjectReadsBack(ns, sa, ns', sa');
      }
    } else {
      var ns', sa' := ColonCollides(ns, sa);
    }
  }

  /** Among colon-free namespaces subjects are injective, whatever the service accounts are. */
  lemma SubjectIsInjective(ns: string, sa: string, ns': string, sa': string)
    requires Free(ns, ':') && Free(ns', ':') && Subject(ns, sa) == Subject(ns', sa')
    ensures ns == ns' && sa == sa'
  {
    SubjectPair(ns, sa, ns', sa');
    var a, b := ns + [':'] + sa, ns' + [':'] + sa';
    IndexOfConcat(ns, ':', sa);
    IndexOfConcat(ns', ':', sa');
    assert ns == a[..|ns|] && ns' == b[..|ns'|];
    assert sa == a[|ns| + 1..] && sa' == b[|ns'| + 1..];
  }
}
