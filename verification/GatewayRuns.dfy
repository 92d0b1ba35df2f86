/** The token service together with a gateway that verifies tokens through its key cache. */
module GatewayRuns {
  import opened Wrappers
  import opened Jwk
  import opened Keys
  import opened Issuance
  import opened Tokens
  import KeyCache
  import TokenRuns

  /** The service's state and the gateway's cached keys. */
  datatype State = State(tts: TokenRuns.State, cache: KeyCache.Cache)

  /** A step of the service, or a key lookup of the gateway, which may fail to reach it. */
  datatype Step = Service(step: TokenRuns.Step) | Lookup(kid: string, reachable: bool)

  function Answer(s: State, reachable: bool): Option<seq<PublicKey>>
    requires s.tts.entries != []
  {
    if reachable then Some(JwksAfter(s.tts.entries)) else None
  }

  function Next(cfg: Config, cel: Cel, s: State, step: Step): (s': State)
    requires s.tts.entries != []
    ensures s'.tts.entries != []
  {
    match step
    case Service(step) => s.(tts := TokenRuns.Next(cfg, cel, s.tts, step))
    case Lookup(kid, reachable) => s.(cache := KeyCache.CacheAfter(s.cache, kid, Answer(s, reachable)))
  }

  function After(cfg: Config, cel: Cel, first: KeyEntry, run: seq<Step>): (s: State)
    ensures s.tts.entries != []
  {
    if run == [] then State(TokenRuns.After(cfg, cel, first, []), map[])
    else Next(cfg, cel, After(cfg, cel, first, run[..|run| - 1]), run[|run| - 1])
  }

  /** The gateway's verification of a token at a time. */
  function GatewayVerify(cfg: Config, s: State, t: Token, now: int, reachable: bool): Result<Claims, VerifyError>
    requires s.tts.entries != []
  {
    var key := KeyCache.LookupResult(s.cache, t.kid, Answer(s, reachable));
    VerifyWithKey(if key.Ok? then Some(key.value) else None, cfg.trustDomain, t, now)
  }

  lemma {:induction false} RunKeepsInv(cfg: Config, cel: Cel, first: KeyEntry, run: seq<Step>)
    requires Usable(first)
    ensures var s := After(cfg, cel, first, run);
            TokenRuns.RunInv(cfg, s.tts) && KeyCache.OnlyPublished(s.tts.entries, s.cache)
  {
    if run == [] {
      TokenRuns.RunKeepsInv(cfg, cel, first, []);
    } else {
      var s, step := After(cfg, cel, first, run[..|run| - 1]), run[|run| - 1];
      RunKeepsInv(cfg, cel, first, run[..|run| - 1]);
      match step {
        case Service(inner) =>
          TokenRuns.StepKeepsInv(cfg, cel, s.tts, inner);
          KeyCache.MoreKeys(s.tts.entries, TokenRuns.Next(cfg, cel, s.tts, inner).entries, s.cache);
        case Lookup(kid, reachable) =>
          KeyCache.FreshCache(s.tts.entries, s.cache, kid, Answer(s, reachable));
      }
    }
  }

  /** Acceptance under any key ever published. */
  lemma AcceptedUnderKey(cfg: Config, s: TokenRuns.State, key: RsaKey, t: Token, now: int)
    requires TokenRuns.Inv(cfg, s) && TokenRuns.Genuine(s, t) && KeyCache.Published(s.entries, key, t.kid)
    requires VerifyWithKey(Some(key), cfg.trustDomain, t, now).Ok?
    ensures var c := VerifyWithKey(Some(key), cfg.trustDomain, t, now).value;
            var i := TokenRuns.IndexOfToken(s.issued, t);
            && i < |s.issued| && c == s.issued[i].claims && now < c.exp * NANOS && TokenRuns.Descends(cfg, s, i, c)
  {
    var i := TokenRuns.IndexOfToken(s.issued, t);
    assert TokenRuns.WellSigned(cfg, s, s.issued[i]) && TokenRuns.WellPlaced(cfg, s, i);
  }

  /** After any interleaving of exchanges, rotations and lookups, with the service reachable or
      not: whatever a gateway accepts was issued by the service, is unexpired and descends from
      one root, even if its key has long been rotated away; and a gateway that reaches the
      service accepts everything the service itself accepts. */
  lemma GatewayAcceptsOnlyDescendants(cfg: Config, cel: Cel, first: KeyEntry, run: seq<Step>, t: Token, now: int, reachable: bool)
    requires Usable(first) && TokenRuns.Genuine(After(cfg, cel, first, run).tts, t)
    ensures var s := After(cfg, cel, first, run);
            var verdict := GatewayVerify(cfg, s, t, now, reachable);
            && (verdict.Ok? ==>
                var i := TokenRuns.IndexOfToken(s.tts.issued, t);
                && i < |s.tts.issued| && verdict.value == s.tts.issued[i].claims
                && now < verdict.value.exp * NANOS && TokenRuns.Descends(cfg, s.tts, i, verdict.value))
            && (reachable && Verify(JwksAfter(s.tts.entries), cfg.trustDomain, TxToken(t), now).Ok? ==>
                verdict == Verify(JwksAfter(s.tts.entries), cfg.trustDomain, TxToken(t), now))
  {
    var s := After(cfg, cel, first, run);
    RunKeepsInv(cfg, cel, first, run);
    var key := KeyCache.LookupResult(s.cache, t.kid, Answer(s, reachable));
    KeyCache.LookupAgainstLive(s.tts.entries, s.cache, t.kid, Answer(s, reachable));
    if GatewayVerify(cfg, s, t, now, reachable).Ok? {
      AcceptedUnderKey(cfg, s.tts, key.value, t, now);
    }
  }

  // ----- the parts -----

  /** The steps of the token service in a run. */
  function ServiceSteps(run: seq<Step>): seq<TokenRuns.Step> {
    if run == [] then []
    else
      var last := run[|run| - 1];
      if last.Service? then ServiceSteps(run[..|run| - 1]) + [last.step] else ServiceSteps(run[..|run| - 1])
  }

  /** What a key cache notices of a run: rotations and its own lookups. */
  function CacheEvents(run: seq<Step>): seq<KeyCache.Event> {
    if run == [] then []
    else
      var front, last := CacheEvents(run[..|run| - 1]), run[|run| - 1];
      if last.Lookup? then front + [KeyCache.Lookup(last.kid, last.reachable)]
      else if last.step.Rotate? then front + [KeyCache.Rotate(last.step.entry)]
      else front
  }

  lemma ServiceAppend(cfg: Config, cel: Cel, first: KeyEntry, run: seq<TokenRuns.Step>, step: TokenRuns.Step)
    ensures TokenRuns.After(cfg, cel, first, run + [step]) == TokenRuns.Next(cfg, cel, TokenRuns.After(cfg, cel, first, run), step)
  {
    assert (run + [step])[..|run|] == run;
  }

  /** In every run the service goes through its own steps and the cache through its own events; neither
      disturbs the other. */
  lemma {:induction false} PartsRunAlone(cfg: Config, cel: Cel, first: KeyEntry, run: seq<Step>)
    ensures var s := After(cfg, cel, first, run);
            && s.tts == TokenRuns.After(cfg, cel, first, ServiceSteps(run))
            && KeyCache.State(s.tts.entries, s.cache) == KeyCache.After(first, CacheEvents(run))
  {
    if run != [] {
      var front, last := run[..|run| - 1], run[|run| - 1];
      PartsRunAlone(cfg, cel, first, front);
      if last.Service? {
        ServiceAppend(cfg, cel, first, ServiceSteps(front), last.step);
        ServiceKeys(cfg, cel, After(cfg, cel, first, front).tts, last.step);
        if last.step.Rotate? { KeyCache.AfterEvent(first, CacheEvents(front), KeyCache.Rotate(last.step.entry)); }
      } else {
        KeyCache.AfterEvent(first, CacheEvents(front), KeyCache.Lookup(last.kid, last.reachable));
      }
    }
  }

  /** Only a rotation changes the keys. */
  lemma ServiceKeys(cfg: Config, cel: Cel, s: TokenRuns.State, step: TokenRuns.Step)
    requires s.entries != []
    ensures TokenRuns.Next(cfg, cel, s, step).entries ==
            if step.Rotate? && Generations(s.entries + [step.entry]) then s.entries + [step.entry] else s.entries
  {
  }
}
