/** The token service over whole runs: exchanges and replacements of any length interleaved
    with key rotations and rule swaps. */
module TokenRuns {
  import opened Wrappers
  import opened Keys
  import opened Scope
  import opened Issuance
  import opened Tokens

  /** A token the service has issued, the claims a verifier reads from it, and its history:
      when it was signed and when its request was admitted, from which earlier token, the root
      of its chain, its position in the chain, how many rotations preceded it, and the time
      the replacements of its chain spent between admission and signing. */
  datatype Issued = Issued(
    token: Token, claims: Claims, at: int, admitted: int, parent: Option<nat>, root: nat, depth: nat, epoch: nat, late: int)

  /** An admitted request whose token has not been signed yet; `parent` is the position of the
      token it replaces. */
  datatype Work = Work(claims: Claims, parent: Option<nat>, admitted: int)

  datatype State = State(entries: seq<KeyEntry>, rules: seq<CompiledRule>, issued: seq<Issued>, uuids: set<string>, work: map<nat, Work>)

  /** Requests run concurrently: between the admission of one and its signing anything else
      can happen. `now` is the clock and `uuid` the identifier generated for the request. */
  datatype Step =
    | Rotate(entry: KeyEntry)
    | SetRules(rules: seq<CompiledRule>)
    | Admitting(id: nat, form: Form, headers: Headers, subject: Option<string>, now: int)
    | Signing(id: nat, now: int, uuid: string)

  /** Position of a token among those issued, or their number. */
  function IndexOfToken(issued: seq<Issued>, t: Token): (i: nat)
    ensures i <= |issued| && (i < |issued| ==> issued[i].token == t)
    ensures i == |issued| ==> forall j :: 0 <= j < |issued| ==> issued[j].token != t
  {
    if issued == [] || issued[0].token == t then 0 else 1 + IndexOfToken(issued[1..], t)
  }

  /** Signatures cannot be forged: a token under one of the service's keys was issued by it. */
  predicate Genuine(s: State, t: Token) {
    (exists i :: 0 <= i < |s.entries| && s.entries[i].key == t.signer) ==> IndexOfToken(s.issued, t) < |s.issued|
  }

  predicate Enabled(s: State, step: Step) {
    match step
    case Rotate(entry) => Generations(s.entries + [entry])
    case SetRules(_) => true
    case Admitting(id, form, _, _, _) => id !in s.work && (form.subjectToken.TxToken? ==> Genuine(s, form.subjectToken.token))
    case Signing(id, _, uuid) => id in s.work && uuid != "" && uuid !in s.uuids
  }

  /** The token a request replaces, if it is one of the service's. */
  function ParentOf(s: State, form: Form): Option<nat> {
    if !IsReplacement(form) || !form.subjectToken.TxToken? then None
    else
      var p := IndexOfToken(s.issued, form.subjectToken.token);
      if p < |s.issued| then Some(p) else None
  }

  /** The history entry of a token signed for an admitted request. */
  function Record(s: State, w: Work, t: Token, now: int): Issued
    requires s.entries != []
  {
    var epoch := |s.entries| - 1;
    if w.parent.Some? && w.parent.value < |s.issued| then
      var p := s.issued[w.parent.value];
      Issued(t, ExtractClaims(t.claims), now, w.admitted, w.parent, p.root, p.depth + 1, epoch, p.late + (now - w.admitted))
    else Issued(t, ExtractClaims(t.claims), now, w.admitted, None, |s.issued|, 0, epoch, 0)
  }

  function Admitted(cfg: Config, cel: Cel, s: State, id: nat, form: Form, headers: Headers, subject: Option<string>, now: int): State
    requires s.entries != []
  {
    match Admit(cfg, cel, s.rules, StateAfter(s.entries), form, headers, subject, now)
    case Err(_) => s
    case Ok(c) => s.(work := s.work[id := Work(c, ParentOf(s, form), now)])
  }

  function Signed(cfg: Config, s: State, id: nat, now: int, uuid: string): State
    requires s.entries != [] && id in s.work
  {
    var s' := s.(work := s.work - {id}, uuids := s.uuids + {uuid});
    match Sign(cfg, StateAfter(s.entries), s.work[id].claims, now, uuid)
    case Err(_) => s'
    case Ok(t) => s'.(issued := s.issued + [Record(s, s.work[id], t, now)])
  }

  /** The effect of a step; a step that is not enabled changes nothing. */
  function Next(cfg: Config, cel: Cel, s: State, step: Step): (s': State)
    requires s.entries != []
    ensures s'.entries != []
  {
    if !Enabled(s, step) then s else
    match step
    case Rotate(entry) => s.(entries := s.entries + [entry])
    case SetRules(rules) => s.(rules := rules)
    case Admitting(id, form, headers, subject, now) => Admitted(cfg, cel, s, id, form, headers, subject, now)
    case Signing(id, now, uuid) => Signed(cfg, s, id, now, uuid)
  }

  function After(cfg: Config, cel: Cel, first: KeyEntry, run: seq<Step>): (s: State)
    ensures s.entries != []
  {
    if run == [] then State([first], [], [], {}, map[])
    else Next(cfg, cel, After(cfg, cel, first, run[..|run| - 1]), run[|run| - 1])
  }

  // ----- the invariant -----

  /** That many lifetimes, one after the other. */
  function Lifetimes(count: nat, lifetime: int): int {
    if count == 0 then 0 else Lifetimes(count - 1, lifetime) + lifetime
  }

  lemma {:induction false} LifetimesIsProduct(count: nat, lifetime: int)
    ensures Lifetimes(count, lifetime) == count * lifetime
  {
    if count > 0 {
      LifetimesIsProduct(count - 1, lifetime);
      assert count * lifetime == (count - 1) * lifetime + lifetime;
    }
  }

  /** Immutable claims are those of the root, and the scope's words are among the root's. */
  predicate Inherits(c: Claims, root: Claims) {
    && c.txn == root.txn && c.sub == root.sub && c.tctx == root.tctx && c.rctx == root.rctx
    && Covers(root.scope, c.scope)
  }

  /** The token is what the service writes for its claims when it signs with this key at this time. */
  ghost predicate Stamped(cfg: Config, key: KeyEntry, t: Token, at: int) {
    var c := ExtractClaims(t.claims);
    && t.alg == ALGORITHM && t.typ == TYPE_HEADER && t.kid == key.kid && t.signer == key.key
    && cfg.trustDomain != "" && HasAudience(t.claims, cfg.trustDomain)
    && c.aud == cfg.trustDomain && c.iss == cfg.issuer && RequiredPresent(c) && c.exp == UnixSeconds(at + cfg.lifetime)
    && (forall clock: int :: NotExpired(t.claims, clock) <==> clock < c.exp * NANOS)
  }

  /** The token was written at its time with the key of its epoch. */
  ghost predicate WellSigned(cfg: Config, s: State, e: Issued) {
    && e.epoch < |s.entries| && e.claims == ExtractClaims(e.token.claims)
    && Stamped(cfg, s.entries[e.epoch], e.token, e.at)
  }

  /** The token against the root of its chain. */
  predicate UnderRoot(cfg: Config, s: State, i: nat)
    requires i < |s.issued|
  {
    var e := s.issued[i];
    && e.root <= i && s.issued[e.root].root == e.root && s.issued[e.root].parent.None?
    && Inherits(e.claims, s.issued[e.root].claims)
    && e.claims.txn != "" && e.claims.txn in s.uuids
    && e.claims.exp * NANOS <= s.issued[e.root].at + Lifetimes(e.depth + 1, cfg.lifetime) + e.late
  }

  /** The token against the token it replaced. */
  predicate AfterParent(s: State, i: nat)
    requires i < |s.issued|
  {
    var e := s.issued[i];
    && (e.parent.None? <==> e.root == i) && (e.parent.None? <==> e.depth == 0) && (e.parent.None? ==> e.late == 0)
    && (e.parent.Some? ==>
          var p := e.parent.value;
          && p < i && s.issued[p].root == e.root && e.depth == s.issued[p].depth + 1 && LinkOk(s, p, i))
  }

  /** A replacement narrows the scope and is admitted before the replaced token expires. */
  predicate LinkOk(s: State, p: nat, i: nat)
    requires p < |s.issued| && i < |s.issued|
  {
    && Covers(s.issued[p].claims.scope, s.issued[i].claims.scope)
    && s.issued[i].admitted < s.issued[p].claims.exp * NANOS
    && s.issued[i].late == s.issued[p].late + (s.issued[i].at - s.issued[i].admitted)
  }

  /** The token's place in its chain. */
  predicate WellPlaced(cfg: Config, s: State, i: nat)
    requires i < |s.issued|
  {
    UnderRoot(cfg, s, i) && AfterParent(s, i)
  }

  ghost predicate Inv(cfg: Config, s: State) {
    && Generations(s.entries)
    && EntriesOk(cfg, s, |s.issued|)
    && RootsDiffer(s.issued)
  }

  ghost predicate EntriesOk(cfg: Config, s: State, n: nat)
    requires n <= |s.issued|
  {
    forall i :: 0 <= i < n ==> WellSigned(cfg, s, s.issued[i]) && WellPlaced(cfg, s, i)
  }

  /** What is to be signed for an admitted request. */
  predicate WorkOk(cfg: Config, s: State, w: Work) {
    && w.claims.iss == cfg.issuer && w.claims.aud == cfg.trustDomain
    && (w.parent.None? ==> w.claims.txn == "")
    && (w.parent.Some? ==>
          && w.parent.value < |s.issued| && Continues(w.claims, s.issued[w.parent.value].claims)
          && w.claims.txn != "" && w.admitted < s.issued[w.parent.value].claims.exp * NANOS)
  }

  /** The claims of a replacement against those of the token it replaces. */
  predicate Continues(c: Claims, parent: Claims) {
    c.txn == parent.txn && c.sub == parent.sub && c.tctx == parent.tctx && c.rctx == parent.rctx && Covers(parent.scope, c.scope)
  }

  ghost predicate AllWorkOk(cfg: Config, s: State) {
    forall id :: id in s.work ==> WorkOk(cfg, s, s.work[id])
  }

  ghost predicate RunInv(cfg: Config, s: State) { Inv(cfg, s) && AllWorkOk(cfg, s) }

  /** No two roots share a transaction id. */
  predicate RootsDiffer(issued: seq<Issued>) {
    forall i, j :: 0 <= i < j < |issued| && issued[i].parent.None? && issued[j].parent.None? ==>
      issued[i].claims.txn != issued[j].claims.txn
  }

  lemma CoversItself(scope: string)
    ensures Covers(scope, scope)
  {
  }

  /** What signing puts into a token. */
  lemma SignedToken(cfg: Config, ks: KeyState, c: Claims, now: int, uuid: string)
    requires Sign(cfg, ks, c, now, uuid).Ok? && c.aud == cfg.trustDomain && c.iss == cfg.issuer
    ensures var t := Sign(cfg, ks, c, now, uuid).value;
            && Stamped(cfg, ks.current, t, now)
            && ExtractClaims(t.claims) == c.(txn := if c.txn == "" then uuid else c.txn, iat := UnixSeconds(now), exp := UnixSeconds(now + cfg.lifetime))
  {
    var txn := if c.txn == "" then uuid else c.txn;
    ClaimsRoundTrip(c, txn, now, cfg.lifetime);
    ExpiryIsWritten(c, txn, now, cfg.lifetime);
  }

  /** The service verifies exactly its own unexpired tokens of the last two key generations. */
  lemma VerifyIff(cfg: Config, s: State, t: Token, now: int)
    requires Inv(cfg, s) && Genuine(s, t)
    ensures var i := IndexOfToken(s.issued, t);
            Verify(PublicKeys(StateAfter(s.entries)), cfg.trustDomain, TxToken(t), now) ==
              if i < |s.issued| && |s.entries| - 1 - s.issued[i].epoch <= 1 && now < s.issued[i].claims.exp * NANOS
              then Ok(s.issued[i].claims) else Err(Rejected)
  {
    var i := IndexOfToken(s.issued, t);
    if i < |s.issued| {
      var e := s.issued[i];
      assert WellSigned(cfg, s, e);
      ResolvesForTwoGenerations(s.entries, e.epoch);
    } else {
      ResolveIsLookup(StateAfter(s.entries), t.kid);
    }
  }

  // ----- steps -----

  /** Admitted requests outlive whatever else happens. */
  lemma WorkKeeps(cfg: Config, s: State, s': State)
    requires AllWorkOk(cfg, s) && s.issued <= s'.issued
    requires forall id :: id in s'.work ==> id in s.work && s'.work[id] == s.work[id]
    ensures AllWorkOk(cfg, s')
  {
    forall id | id in s'.work ensures WorkOk(cfg, s', s'.work[id]) {
      assert WorkOk(cfg, s, s.work[id]);
    }
  }

  /** Entries issued earlier keep their place when more is issued. */
  lemma OldEntriesKeep(cfg: Config, s: State, s': State)
    requires Inv(cfg, s)
    requires s.entries <= s'.entries && s.issued <= s'.issued && s.uuids <= s'.uuids
    ensures EntriesOk(cfg, s', |s.issued|)
  {
    forall i | 0 <= i < |s.issued| ensures WellSigned(cfg, s', s'.issued[i]) && WellPlaced(cfg, s', i) {
      SignedKeeps(cfg, s, s', s.issued[i]);
      PlacedKeeps(cfg, s, s', i);
    }
  }

  lemma SignedKeeps(cfg: Config, s: State, s': State, e: Issued)
    requires WellSigned(cfg, s, e) && s.entries <= s'.entries
    ensures WellSigned(cfg, s', e)
  {
  }

  lemma PlacedKeeps(cfg: Config, s: State, s': State, i: nat)
    requires i < |s.issued| && WellPlaced(cfg, s, i) && s.issued <= s'.issued && s.uuids <= s'.uuids
    ensures WellPlaced(cfg, s', i)
  {
    assert forall j :: 0 <= j < |s.issued| ==> s'.issued[j] == s.issued[j];
  }

  /** Adding a well-signed, well-placed entry, with a fresh transaction id if it is a root. */
  lemma InvGrows(cfg: Config, s: State, s': State)
    requires Inv(cfg, s) && s'.entries == s.entries && s.uuids <= s'.uuids
    requires |s'.issued| == |s.issued| + 1 && s.issued <= s'.issued
    requires var e := s'.issued[|s.issued|];
             && WellSigned(cfg, s', e) && WellPlaced(cfg, s', |s.issued|)
             && (e.parent.None? ==> e.claims.txn !in s.uuids)
    ensures Inv(cfg, s')
  {
    OldEntriesKeep(cfg, s, s');
    OneMoreEntry(cfg, s', |s.issued|);
    TxnsAreUsed(cfg, s);
    RootsStillDiffer(s.issued, s'.issued, s.uuids);
  }

  lemma OneMoreEntry(cfg: Config, s: State, n: nat)
    requires n < |s.issued| && EntriesOk(cfg, s, n) && WellSigned(cfg, s, s.issued[n]) && WellPlaced(cfg, s, n)
    ensures EntriesOk(cfg, s, n + 1)
  {
    forall i | 0 <= i < n + 1 ensures WellSigned(cfg, s, s.issued[i]) && WellPlaced(cfg, s, i) {
    }
  }

  lemma TxnsAreUsed(cfg: Config, s: State)
    requires Inv(cfg, s)
    ensures forall i :: 0 <= i < |s.issued| ==> s.issued[i].claims.txn in s.uuids
  {
    forall i | 0 <= i < |s.issued| ensures s.issued[i].claims.txn in s.uuids {
      assert WellPlaced(cfg, s, i);
    }
  }

  lemma RootsStillDiffer(issued: seq<Issued>, more: seq<Issued>, uuids: set<string>)
    requires RootsDiffer(issued) && (forall i :: 0 <= i < |issued| ==> issued[i].claims.txn in uuids)
    requires |more| == |issued| + 1 && issued <= more
    requires more[|issued|].parent.None? ==> more[|issued|].claims.txn !in uuids
    ensures RootsDiffer(more)
  {
  }

  /** What an admitted replacement was made from, and what it keeps. */
  lemma ReplacedFrom(cfg: Config, s: State, f: Form, h: Headers, now: int)
    requires Inv(cfg, s) && (f.subjectToken.TxToken? ==> Genuine(s, f.subjectToken.token))
    requires AdmitReplacement(cfg, StateAfter(s.entries), f, h, now).Ok?
    ensures f.subjectToken.TxToken?
    ensures var p := IndexOfToken(s.issued, f.subjectToken.token);
            && p < |s.issued|
            && var parent := s.issued[p].claims;
            && parent.txn != "" && now < parent.exp * NANOS && Covers(parent.scope, f.scope)
            && AdmitReplacement(cfg, StateAfter(s.entries), f, h, now).value ==
                 Claims(cfg.issuer, 0, 0, cfg.trustDomain, parent.txn, parent.sub, f.scope, IdentifyWorkload(h), parent.tctx, parent.rctx)
  {
    VerifyIff(cfg, s, f.subjectToken.token, now);
    assert WellPlaced(cfg, s, IndexOfToken(s.issued, f.subjectToken.token));
  }

  lemma AdmittingKeepsInv(cfg: Config, cel: Cel, s: State, step: Step)
    requires RunInv(cfg, s) && step.Admitting? && Enabled(s, step)
    ensures RunInv(cfg, Next(cfg, cel, s, step))
  {
    var s' := Next(cfg, cel, s, step);
    OldEntriesKeep(cfg, s, s');
    var r := Admit(cfg, cel, s.rules, StateAfter(s.entries), step.form, step.headers, step.subject, step.now);
    if r.Ok? {
      if IsReplacement(step.form) { ReplacedFrom(cfg, s, step.form, step.headers, step.now); }
      assert WorkOk(cfg, s, s'.work[step.id]);
      forall id | id in s'.work ensures WorkOk(cfg, s', s'.work[id]) {
        if id != step.id { assert WorkOk(cfg, s, s.work[id]); }
      }
    }
  }

  lemma SigningKeepsInv(cfg: Config, cel: Cel, s: State, step: Step)
    requires RunInv(cfg, s) && step.Signing? && Enabled(s, step)
    ensures RunInv(cfg, Next(cfg, cel, s, step))
  {
    var s' := Next(cfg, cel, s, step);
    var w := s.work[step.id];
    WorkKeeps(cfg, s, s');
    assert WorkOk(cfg, s, w);
    var r := Sign(cfg, StateAfter(s.entries), w.claims, step.now, step.uuid);
    if r.Ok? {
      SignedToken(cfg, StateAfter(s.entries), w.claims, step.now, step.uuid);
      if w.parent.None? {
        RootRecorded(cfg, s, s', w, r.value, step.now, step.uuid);
      } else {
        ReplacementRecorded(cfg, s, s', w, r.value, step.now);
      }
    } else {
      OldEntriesKeep(cfg, s, s');
    }
  }

  lemma RootRecorded(cfg: Config, s: State, s': State, w: Work, t: Token, now: int, uuid: string)
    requires Inv(cfg, s) && w.parent.None? && uuid != "" && uuid !in s.uuids
    requires s'.entries == s.entries && s'.uuids == s.uuids + {uuid} && s'.issued == s.issued + [Record(s, w, t, now)]
    requires Stamped(cfg, StateAfter(s.entries).current, t, now) && ExtractClaims(t.claims).txn == uuid
    ensures Inv(cfg, s')
  {
    CoversItself(ExtractClaims(t.claims).scope);
    assert Lifetimes(1, cfg.lifetime) == cfg.lifetime;
    assert WellPlaced(cfg, s', |s.issued|);
    InvGrows(cfg, s, s');
  }

  lemma ReplacementRecorded(cfg: Config, s: State, s': State, w: Work, t: Token, now: int)
    requires Inv(cfg, s) && w.parent.Some? && w.parent.value < |s.issued|
    requires s'.entries == s.entries && s.uuids <= s'.uuids && s'.issued == s.issued + [Record(s, w, t, now)]
    requires Continues(ExtractClaims(t.claims), s.issued[w.parent.value].claims) && w.admitted < s.issued[w.parent.value].claims.exp * NANOS
    requires Stamped(cfg, StateAfter(s.entries).current, t, now)
    ensures Inv(cfg, s')
  {
    OldEntriesKeep(cfg, s, s');
    PlaceChild(cfg, s', w.parent.value, |s.issued|);
    InvGrows(cfg, s, s');
  }

  /** A replacement takes its place behind the token it was made from. */
  lemma PlaceChild(cfg: Config, s: State, p: nat, n: nat)
    requires p < n < |s.issued| && WellPlaced(cfg, s, p)
    requires var e, parent := s.issued[n], s.issued[p];
             && e.parent == Some(p) && e.root == parent.root && e.depth == parent.depth + 1 && e.late == parent.late + (e.at - e.admitted)
             && Continues(e.claims, parent.claims) && e.admitted < parent.claims.exp * NANOS
             && e.claims.exp == UnixSeconds(e.at + cfg.lifetime)
    ensures WellPlaced(cfg, s, n)
  {
    var e, parent := s.issued[n], s.issued[p];
    var root := s.issued[parent.root];
    InheritsOn(e.claims, parent.claims, root.claims);
    ExpiryStep(root.at + parent.late, parent.depth, cfg.lifetime, parent.claims.exp, e.admitted, e.at);
  }

  lemma InheritsOn(c: Claims, parent: Claims, root: Claims)
    requires Inherits(parent, root) && Continues(c, parent)
    ensures Inherits(c, root)
  {
    CoversTransitive(root.scope, parent.scope, c.scope);
  }

  /** Expiry grows by at most one lifetime per replacement, rounding included, and the time
      between admission and signing. */
  lemma ExpiryStep(start: int, depth: nat, lifetime: int, exp: int, admitted: int, signed: int)
    requires exp * NANOS <= start + Lifetimes(depth + 1, lifetime) && admitted < exp * NANOS
    ensures UnixSeconds(signed + lifetime) * NANOS <= start + Lifetimes(depth + 2, lifetime) + (signed - admitted)
  {
  }

  lemma StepKeepsInv(cfg: Config, cel: Cel, s: State, step: Step)
    requires RunInv(cfg, s)
    ensures RunInv(cfg, Next(cfg, cel, s, step)) && s.entries <= Next(cfg, cel, s, step).entries
  {
    var s' := Next(cfg, cel, s, step);
    if Enabled(s, step) {
      match step {
        case Rotate(_) => OldEntriesKeep(cfg, s, s'); WorkKeeps(cfg, s, s');
        case SetRules(_) => OldEntriesKeep(cfg, s, s'); WorkKeeps(cfg, s, s');
        case Admitting(_, _, _, _, _) => AdmittingKeepsInv(cfg, cel, s, step);
        case Signing(_, _, _) => SigningKeepsInv(cfg, cel, s, step);
      }
    }
  }

  lemma {:induction false} RunKeepsInv(cfg: Config, cel: Cel, first: KeyEntry, run: seq<Step>)
    requires Usable(first)
    ensures RunInv(cfg, After(cfg, cel, first, run))
  {
    if run != [] {
      RunKeepsInv(cfg, cel, first, run[..|run| - 1]);
      StepKeepsInv(cfg, cel, After(cfg, cel, first, run[..|run| - 1]), run[|run| - 1]);
    }
  }

  // ----- main theorems -----

  /** The i-th issued token is this one, unexpired, and at most one rotation has followed it. */
  predicate Current(s: State, i: nat, t: Token, now: int)
    requires i < |s.issued|
  {
    s.issued[i].token == t && |s.entries| - 1 - s.issued[i].epoch <= 1 && now < s.issued[i].claims.exp * NANOS
  }

  /** What is known of an accepted token: the immutable claims and scope bound of its chain's
      root, and an expiry of at most one lifetime per link after the root was signed, counting
      out the time requests spent between admission and signing. */
  predicate Descends(cfg: Config, s: State, i: nat, c: Claims)
    requires i < |s.issued|
  {
    var e := s.issued[i];
    && e.root < |s.issued| && s.issued[e.root].parent.None?
    && Inherits(c, s.issued[e.root].claims)
    && c.exp * NANOS <= s.issued[e.root].at + Lifetimes(e.depth + 1, cfg.lifetime) + e.late
  }

  /** Equal tokens were signed in the same epoch. */
  lemma SameEpoch(cfg: Config, s: State, i: nat, k: nat)
    requires Inv(cfg, s) && i < |s.issued| && k < |s.issued| && s.issued[i].token == s.issued[k].token
    ensures s.issued[i].epoch == s.issued[k].epoch
  {
    assert WellSigned(cfg, s, s.issued[i]) && WellSigned(cfg, s, s.issued[k]);
  }

  /** After any run, the service's verifier accepts a token at a time exactly when the service
      issued it, the time is before its expiry and at most one rotation has followed its
      signing; what it then reads descends from one root. */
  lemma AcceptedTokensDescendFromOneRoot(cfg: Config, cel: Cel, first: KeyEntry, run: seq<Step>, t: Token, now: int)
    requires Usable(first) && Genuine(After(cfg, cel, first, run), t)
    ensures var s := After(cfg, cel, first, run);
            var verdict := Verify(PublicKeys(StateAfter(s.entries)), cfg.trustDomain, TxToken(t), now);
            && (verdict.Ok? <==> exists i :: 0 <= i < |s.issued| && Current(s, i, t, now))
            && (forall i :: 0 <= i < |s.issued| && Current(s, i, t, now) ==> verdict == Ok(s.issued[i].claims) && Descends(cfg, s, i, verdict.value))
  {
    var s := After(cfg, cel, first, run);
    RunKeepsInv(cfg, cel, first, run);
    VerifyIff(cfg, s, t, now);
    AcceptanceIn(cfg, s, t, now, Verify(PublicKeys(StateAfter(s.entries)), cfg.trustDomain, TxToken(t), now));
  }

  lemma AcceptanceIn(cfg: Config, s: State, t: Token, now: int, verdict: Result<Claims, VerifyError>)
    requires Inv(cfg, s)
    requires var k := IndexOfToken(s.issued, t);
             verdict == if k < |s.issued| && |s.entries| - 1 - s.issued[k].epoch <= 1 && now < s.issued[k].claims.exp * NANOS
                        then Ok(s.issued[k].claims) else Err(Rejected)
    ensures verdict.Ok? <==> exists i :: 0 <= i < |s.issued| && Current(s, i, t, now)
    ensures forall i :: 0 <= i < |s.issued| && Current(s, i, t, now) ==> verdict == Ok(s.issued[i].claims) && Descends(cfg, s, i, verdict.value)
  {
    var k := IndexOfToken(s.issued, t);
    if verdict.Ok? {
      assert Current(s, k, t, now);
    }
    forall i | 0 <= i < |s.issued| && Current(s, i, t, now)
      ensures verdict == Ok(s.issued[i].claims) && Descends(cfg, s, i, s.issued[i].claims)
    {
      SameEpoch(cfg, s, i, k);
      assert WellPlaced(cfg, s, i);
    }
  }

  /** Two tokens carry the same transaction id exactly when their chains have the same root. */
  lemma SameTransactionIff(cfg: Config, cel: Cel, first: KeyEntry, run: seq<Step>, i: nat, j: nat)
    requires Usable(first) && i < |After(cfg, cel, first, run).issued| && j < |After(cfg, cel, first, run).issued|
    ensures var s := After(cfg, cel, first, run);
            s.issued[i].claims.txn == s.issued[j].claims.txn <==> s.issued[i].root == s.issued[j].root
  {
    RunKeepsInv(cfg, cel, first, run);
    var s := After(cfg, cel, first, run);
    assert WellPlaced(cfg, s, i) && WellPlaced(cfg, s, j);
  }

  /** The chain of an issued token, from its root on. */
  ghost function Line(cfg: Config, s: State, i: nat): seq<nat>
    requires Inv(cfg, s) && i < |s.issued|
  {
    assert WellPlaced(cfg, s, i);
    if s.issued[i].parent.None? then [i] else Line(cfg, s, s.issued[i].parent.value) + [i]
  }

  /** The time the replacements of a line spent between admission and signing. */
  function Delays(s: State, line: seq<nat>): int
    requires forall k :: 0 <= k < |line| ==> line[k] < |s.issued|
  {
    if |line| <= 1 then 0
    else Delays(s, line[..|line| - 1]) + (s.issued[line[|line| - 1]].at - s.issued[line[|line| - 1]].admitted)
  }

  /** A line of tokens, each made from the one before; the last expires at most one lifetime
      per token after the first was signed, plus the delays. */
  predicate Bounded(cfg: Config, s: State, line: seq<nat>) {
    && line != [] && (forall k :: 0 <= k < |line| ==> line[k] < |s.issued|)
    && (forall k :: 0 < k < |line| ==> LinkOk(s, line[k - 1], line[k]))
    && var last := s.issued[line[|line| - 1]];
    && last.late == Delays(s, line)
    && last.claims.exp * NANOS <= s.issued[line[0]].at + Lifetimes(|line|, cfg.lifetime) + Delays(s, line)
  }

  lemma BoundedExtends(cfg: Config, s: State, line: seq<nat>, i: nat)
    requires Bounded(cfg, s, line) && i < |s.issued| && LinkOk(s, line[|line| - 1], i)
    requires s.issued[i].claims.exp * NANOS <= s.issued[line[0]].at + Lifetimes(|line| + 1, cfg.lifetime) + s.issued[i].late
    ensures Bounded(cfg, s, line + [i])
  {
    var all := line + [i];
    assert all[..|line|] == line;
    forall k | 0 < k < |all| ensures LinkOk(s, all[k - 1], all[k]) {
      if k == |line| { assert all[k] == i; }
    }
  }

  /** A token of depth d ends a line of d + 1 tokens that starts at its root and is bounded. */
  lemma {:induction false} ChainIsBounded(cfg: Config, s: State, i: nat)
    requires Inv(cfg, s) && i < |s.issued|
    ensures var line := Line(cfg, s, i);
            && |line| == s.issued[i].depth + 1 && line[0] == s.issued[i].root && line[|line| - 1] == i
            && Bounded(cfg, s, line)
  {
    assert WellPlaced(cfg, s, i);
    if s.issued[i].parent.Some? {
      ChainIsBounded(cfg, s, s.issued[i].parent.value);
      BoundedExtends(cfg, s, Line(cfg, s, s.issued[i].parent.value), i);
    }
  }

  /** After any run, every issued token ends a line of tokens that starts at a root, each link
      narrowing the scope and admitted before the previous token's expiry. A line of n tokens
      expires at most n lifetimes after its root was signed, plus the time its replacements
      spent between admission and signing. */
  lemma EveryChainIsBounded(cfg: Config, cel: Cel, first: KeyEntry, run: seq<Step>, i: nat)
    requires Usable(first) && i < |After(cfg, cel, first, run).issued|
    ensures var s := After(cfg, cel, first, run);
            && Inv(cfg, s)
            && var line := Line(cfg, s, i);
            && line[0] == s.issued[i].root && s.issued[line[0]].parent.None? && line[|line| - 1] == i && Bounded(cfg, s, line)
            && s.issued[i].claims.exp * NANOS <= s.issued[line[0]].at + |line| * cfg.lifetime + Delays(s, line)
  {
    RunKeepsInv(cfg, cel, first, run);
    var s := After(cfg, cel, first, run);
    ChainIsBounded(cfg, s, i);
    assert WellPlaced(cfg, s, i);
    LifetimesIsProduct(|Line(cfg, s, i)|, cfg.lifetime);
  }
}
