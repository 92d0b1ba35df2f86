/** The SDK's verifier: a cache of the published key set, refetched on a miss. */
module KeyCache {
  import opened Wrappers
  import opened Jwk
  import opened Keys

  type Cache = map<string, RsaKey>

  /** The cache after storing a key set: keys of another type or use, and keys that do not
      decode, are skipped. */
  function Cached(keys: seq<PublicKey>): Cache {
    if keys == [] then map[]
    else
      var before := Cached(keys[..|keys| - 1]);
      var k := keys[|keys| - 1];
      var key := DecodeKey(k.n, k.e);
      if k.kty != "RSA" || k.use != "sig" || key.None? then before else before[k.kid := key.value]
  }

  datatype CacheError = NoKid | FetchFailed | NotInKeySet

  /** A lookup against a cache and an endpoint that answers with a key set or fails. */
  function CacheAfter(cache: Cache, kid: string, answer: Option<seq<PublicKey>>): Cache {
    if kid == "" || kid in cache || answer.None? then cache else Cached(answer.value)
  }

  function LookupResult(cache: Cache, kid: string, answer: Option<seq<PublicKey>>): Result<RsaKey, CacheError> {
    if kid == "" then Err(NoKid)
    else if kid in cache then Ok(cache[kid])
    else if answer.None? then Err(FetchFailed)
    else if kid in Cached(answer.value) then Ok(Cached(answer.value)[kid])
    else Err(NotInKeySet)
  }

  class Verifier {
    var keys: Cache

    constructor ()
      ensures keys == map[]
    {
      keys := map[];
    }

    /** Replaces all cached keys with the fetched ones. */
    method FetchJwks(answer: Option<seq<PublicKey>>) returns (ok: bool)
      modifies this
      ensures ok == answer.Some? && keys == if ok then Cached(answer.value) else old(keys)
    {
      if answer.None? {
        return false;
      }
      var jwks := answer.value;
      keys := map[];
      for i := 0 to |jwks|
        invariant keys == Cached(jwks[..i])
      {
        var k := jwks[i];
        assert jwks[..i + 1][..i] == jwks[..i];
        if k.kty == "RSA" && k.use == "sig" {
          var key := DecodeKey(k.n, k.e);
          if key.Some? {
            keys := keys[k.kid := key.value];
          }
        }
      }
      assert jwks[..|jwks|] == jwks;
      return true;
    }

    method KeyFunc(kid: string, answer: Option<seq<PublicKey>>) returns (r: Result<RsaKey, CacheError>)
      modifies this
      ensures r == LookupResult(old(keys), kid, answer) && keys == CacheAfter(old(keys), kid, answer)
    {
      if kid == "" {
        return Err(NoKid);
      }
      if kid in keys {
        return Ok(keys[kid]);
      }
      var ok := FetchJwks(answer);
      if !ok {
        return Err(FetchFailed);
      }
      if kid !in keys {
        return Err(NotInKeySet);
      }
      return Ok(keys[kid]);
    }
  }

  // ----- runs -----

  datatype Event = Rotate(entry: KeyEntry) | Lookup(kid: string, reachable: bool)

  /** The generated keys and the cache. */
  datatype State = State(entries: seq<KeyEntry>, cache: Cache)

  /** A rotation is to a fresh key; a lookup sees the key set of its moment, or no answer. */
  function Next(s: State, e: Event): State
    requires s.entries != []
  {
    match e
    case Rotate(entry) => if Generations(s.entries + [entry]) then s.(entries := s.entries + [entry]) else s
    case Lookup(kid, reachable) => s.(cache := CacheAfter(s.cache, kid, Answer(s, reachable)))
  }

  function Answer(s: State, reachable: bool): Option<seq<PublicKey>>
    requires s.entries != []
  {
    if reachable then Some(JwksAfter(s.entries)) else None
  }

  function After(first: KeyEntry, run: seq<Event>): (s: State)
    ensures s.entries != []
  {
    if run == [] then State([first], map[]) else Next(After(first, run[..|run| - 1]), run[|run| - 1])
  }

  /** Every cached key was generated under its id. */
  predicate OnlyPublished(entries: seq<KeyEntry>, cache: Cache) {
    forall kid :: kid in cache ==> Published(entries, cache[kid], kid)
  }

  predicate Published(entries: seq<KeyEntry>, key: RsaKey, kid: string) {
    exists i :: 0 <= i < |entries| && entries[i] == KeyEntry(key, kid)
  }

  /** Storing one published key. */
  lemma CachedStep(keys: seq<PublicKey>, e: KeyEntry)
    requires Usable(e)
    ensures Cached(keys + [NewPublicKey(e.key, e.kid)]) == Cached(keys)[e.kid := e.key]
  {
    JwkRoundTrip(e.key, e.kid);
    assert (keys + [NewPublicKey(e.key, e.kid)])[..|keys|] == keys;
  }

  /** A fetched key set caches the current key and the previous one. */
  lemma CachedPair(ks: KeyState)
    requires Usable(ks.current) && (ks.previous.Some? ==> Usable(ks.previous.value))
    ensures Cached(PublicKeys(ks)) == LiveKeys(ks)
  {
    var first := [NewPublicKey(ks.current.key, ks.current.kid)];
    CachedStep([], ks.current);
    assert [] + first == first;
    if ks.previous.Some? {
      CachedStep(first, ks.previous.value);
    }
  }

  function LiveKeys(ks: KeyState): Cache {
    var current: Cache := map[ks.current.kid := ks.current.key];
    if ks.previous.None? then current else current[ks.previous.value.kid := ks.previous.value.key]
  }

  /** A fetched key set caches exactly the live keys. */
  lemma CachedIsLive(entries: seq<KeyEntry>, kid: string)
    requires Generations(entries)
    ensures kid in Cached(JwksAfter(entries)) <==> exists i :: 0 <= i < |entries| && |entries| - 1 - i <= 1 && entries[i].kid == kid
    ensures forall i :: 0 <= i < |entries| && |entries| - 1 - i <= 1 ==>
              entries[i].kid in Cached(JwksAfter(entries)) && Cached(JwksAfter(entries))[entries[i].kid] == entries[i].key
  {
    var n, ks := |entries|, StateAfter(entries);
    assert Usable(entries[n - 1]) && (n > 1 ==> Usable(entries[n - 2]));
    CachedPair(ks);
    LastTwo(entries, LiveKeys(ks), kid);
  }

  lemma LastTwo(entries: seq<KeyEntry>, live: Cache, kid: string)
    requires entries != [] && (|entries| > 1 ==> entries[|entries| - 2].kid != entries[|entries| - 1].kid)
    requires live == LiveKeys(KeyState(entries[|entries| - 1], if |entries| == 1 then None else Some(entries[|entries| - 2])))
    ensures kid in live <==> exists i :: 0 <= i < |entries| && |entries| - 1 - i <= 1 && entries[i].kid == kid
    ensures forall i :: 0 <= i < |entries| && |entries| - 1 - i <= 1 ==> entries[i].kid in live && live[entries[i].kid] == entries[i].key
  {
  }

  /** Later generations do not take back what was published. */
  lemma MoreKeys(entries: seq<KeyEntry>, entries': seq<KeyEntry>, cache: Cache)
    requires OnlyPublished(entries, cache) && entries <= entries'
    ensures OnlyPublished(entries', cache)
  {
    forall kid | kid in cache ensures Published(entries', cache[kid], kid) {
      assert Published(entries, cache[kid], kid);
      var i :| 0 <= i < |entries| && entries[i] == KeyEntry(cache[kid], kid);
      assert entries'[i] == entries[i];
    }
  }

  /** A lookup caches published keys only. */
  lemma FreshCache(entries: seq<KeyEntry>, cache: Cache, kid: string, answer: Option<seq<PublicKey>>)
    requires Generations(entries) && OnlyPublished(entries, cache) && (answer.Some? ==> answer.value == JwksAfter(entries))
    ensures OnlyPublished(entries, CacheAfter(cache, kid, answer))
  {
    var cache' := CacheAfter(cache, kid, answer);
    if cache' != cache {
      forall k | k in cache' ensures Published(entries, cache'[k], k) {
        CachedIsLive(entries, k);
        var i :| 0 <= i < |entries| && |entries| - 1 - i <= 1 && entries[i].kid == k;
        assert entries[i] == KeyEntry(cache'[k], k);
      }
    }
  }

  lemma {:induction false} RunCachesOnlyPublished(first: KeyEntry, run: seq<Event>)
    requires Usable(first)
    ensures OnlyPublished(After(first, run).entries, After(first, run).cache) && Generations(After(first, run).entries)
  {
    if run != [] {
      var s := After(first, run[..|run| - 1]);
      RunCachesOnlyPublished(first, run[..|run| - 1]);
      match run[|run| - 1] {
        case Rotate(entry) => MoreKeys(s.entries, s.entries + [entry], s.cache);
        case Lookup(kid, reachable) => FreshCache(s.entries, s.cache, kid, Answer(s, reachable));
      }
    }
  }

  /** What a lookup returns was generated under the id, and is the live key if there is one.
      A reachable endpoint leaves only one way to differ from the live lookup: a cached key
      that has been rotated away. */
  lemma LookupAgainstLive(entries: seq<KeyEntry>, cache: Cache, kid: string, answer: Option<seq<PublicKey>>)
    requires Generations(entries) && OnlyPublished(entries, cache) && (answer.Some? ==> answer.value == JwksAfter(entries))
    ensures var live, got := Resolve(JwksAfter(entries), kid), LookupResult(cache, kid, answer);
            && (got.Ok? ==> Published(entries, got.value, kid))
            && (answer.Some? && live.Ok? ==> got == Ok(live.value))
            && (answer.Some? && kid != "" ==> ((live.Ok? == got.Ok?) <==> (live.Ok? || kid !in cache)))
  {
    FreshCache(entries, cache, kid, answer);
    CachedIsLive(entries, kid);
    if i :| 0 <= i < |entries| && entries[i].kid == kid {
      ResolvesForTwoGenerations(entries, i);
    } else {
      ForeignIdsDoNotResolve(entries, kid);
    }
  }

  /** The caching verifier against the live one, after any run of rotations and lookups: with
      the endpoint reachable they agree on an id exactly when the id is live or not cached; a
      live id always yields the live key, and any key ever returned was generated under that
      id. */
  lemma CacheAgainstLive(first: KeyEntry, run: seq<Event>, kid: string)
    requires Usable(first) && kid != ""
    ensures var s := After(first, run);
            var live := Resolve(JwksAfter(s.entries), kid);
            var got := LookupResult(s.cache, kid, Answer(s, true));
            && (live.Ok? ==> got == Ok(live.value))
            && ((live.Ok? == got.Ok?) <==> (live.Ok? || kid !in s.cache))
            && (got.Ok? ==> Published(s.entries, got.value, kid))
  {
    var s := After(first, run);
    RunCachesOnlyPublished(first, run);
    LookupAgainstLive(s.entries, s.cache, kid, Answer(s, true));
  }

  lemma AfterEvent(first: KeyEntry, run: seq<Event>, e: Event)
    ensures After(first, run + [e]) == Next(After(first, run), e)
  {
    assert (run + [e])[..|run|] == run;
  }

  /** After any run, a rotation to a fresh key makes the verifier find that key under its id as soon as
      it can reach the endpoint, and a lookup that reaches the endpoint leaves every live id it asked
      for cached. */
  lemma NewKeysAreFound(first: KeyEntry, run: seq<Event>, entry: KeyEntry, kid: string)
    requires Usable(first) && Generations(After(first, run).entries + [entry])
    ensures var s := After(first, run + [Rotate(entry)]);
            && s.entries == After(first, run).entries + [entry]
            && LookupResult(s.cache, entry.kid, Answer(s, true)) == Ok(entry.key)
    ensures var s, s' := After(first, run), After(first, run + [Lookup(kid, true)]);
            Resolve(JwksAfter(s.entries), kid).Ok? ==> kid in s'.cache && s'.cache[kid] == Resolve(JwksAfter(s.entries), kid).value
  {
    AfterEvent(first, run, Rotate(entry));
    AfterEvent(first, run, Lookup(kid, true));
    var s := After(first, run + [Rotate(entry)]);
    RunCachesOnlyPublished(first, run + [Rotate(entry)]);
    ResolvesForTwoGenerations(s.entries, |s.entries| - 1);
    LookupAgainstLive(s.entries, s.cache, entry.kid, Answer(s, true));
    RunCachesOnlyPublished(first, run);
    LookupAgainstLive(After(first, run).entries, After(first, run).cache, kid, Answer(After(first, run), true));
  }
}
