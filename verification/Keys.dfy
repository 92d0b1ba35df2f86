/** Signing keys: the manager that rotates them and the verifier that reads the live manager. */
module Keys {
  import opened Wrappers
  import opened Jwk

  datatype KeyEntry = KeyEntry(key: RsaKey, kid: string)

  /** The manager's state: the signing key and the one it replaced. */
  datatype KeyState = KeyState(current: KeyEntry, previous: Option<KeyEntry>)

  function Rotated(ks: KeyState, entry: KeyEntry): KeyState { KeyState(entry, Some(ks.current)) }

  /** The published key set. */
  function PublicKeys(ks: KeyState): (keys: seq<PublicKey>) {
    [NewPublicKey(ks.current.key, ks.current.kid)]
    + if ks.previous.Some? then [NewPublicKey(ks.previous.value.key, ks.previous.value.kid)] else []
  }

  class Manager {
    var current: KeyEntry
    var previous: Option<KeyEntry>

    ghost function State(): KeyState
      reads this
    {
      KeyState(current, previous)
    }

    constructor (entry: KeyEntry)
      ensures State() == KeyState(entry, None)
    {
      current, previous := entry, None;
    }

    /** `generated` is the outcome of key generation; a failure leaves the keys alone. */
    method Rotate(generated: Option<KeyEntry>) returns (ok: bool)
      modifies this
      ensures ok == generated.Some?
      ensures State() == if ok then Rotated(old(State()), generated.value) else old(State())
    {
      if generated.None? {
        return false;
      }
      previous := Some(current);
      current := generated.value;
      return true;
    }

    method SigningKey() returns (entry: KeyEntry)
      ensures entry == State().current
    {
      entry := current;
    }
  }

  // ----- the live verifier's key lookup -----

  datatype KeyError = MissingKid | UndecodableKey | UnknownKid

  /** The first published key under the id, decoded. */
  function Resolve(keys: seq<PublicKey>, kid: string): Result<RsaKey, KeyError> {
    if kid == "" then Err(MissingKid) else ResolveIn(keys, kid)
  }

  function ResolveIn(keys: seq<PublicKey>, kid: string): Result<RsaKey, KeyError> {
    if keys == [] then Err(UnknownKid)
    else if keys[0].kid != kid then ResolveIn(keys[1..], kid)
    else
      var key := DecodeKey(keys[0].n, keys[0].e);
      if key.None? then Err(UndecodableKey) else Ok(key.value)
  }

  method KeyFunc(keys: seq<PublicKey>, kid: string) returns (r: Result<RsaKey, KeyError>)
    ensures r == Resolve(keys, kid)
  {
    if kid == "" {
      return Err(MissingKid);
    }
    var i := 0;
    while i < |keys|
      invariant 0 <= i <= |keys| && ResolveIn(keys, kid) == ResolveIn(keys[i..], kid)
    {
      var pk := keys[i];
      assert keys[i..][0] == pk && keys[i..][1..] == keys[i + 1..];
      if pk.kid == kid {
        var key := DecodeKey(pk.n, pk.e);
        if key.None? {
          return Err(UndecodableKey);
        }
        return Ok(key.value);
      }
      i := i + 1;
    }
    assert keys[|keys|..] == [];
    return Err(UnknownKid);
  }

  // ----- generations of keys -----

  /** A key as generated: positive modulus and exponent, and an id. */
  predicate Usable(e: KeyEntry) { e.key.n > 0 && e.key.e > 0 && e.kid != "" }

  /** All keys ever generated, oldest first. Ids and keys never repeat. */
  predicate Generations(entries: seq<KeyEntry>) {
    && entries != []
    && (forall i :: 0 <= i < |entries| ==> Usable(entries[i]))
    && (forall i, j :: 0 <= i < j < |entries| ==> entries[i].kid != entries[j].kid && entries[i].key != entries[j].key)
  }

  /** The manager's state after generating the first key and rotating to each later one. */
  function StateAfter(entries: seq<KeyEntry>): (ks: KeyState)
    requires entries != []
    ensures ks.current == entries[|entries| - 1]
    ensures ks.previous == if |entries| == 1 then None else Some(entries[|entries| - 2])
  {
    if |entries| == 1 then KeyState(entries[0], None)
    else Rotated(StateAfter(entries[..|entries| - 1]), entries[|entries| - 1])
  }

  function JwksAfter(entries: seq<KeyEntry>): seq<PublicKey>
    requires entries != []
  {
    PublicKeys(StateAfter(entries))
  }

  /** The lookup through published and decoded keys is a lookup among the two live entries. */
  lemma ResolveIsLookup(ks: KeyState, kid: string)
    requires Usable(ks.current) && (ks.previous.Some? ==> Usable(ks.previous.value))
    ensures Resolve(PublicKeys(ks), kid) ==
            if kid == "" then Err(MissingKid)
            else if kid == ks.current.kid then Ok(ks.current.key)
            else if ks.previous.Some? && kid == ks.previous.value.kid then Ok(ks.previous.value.key)
            else Err(UnknownKid)
  {
    var current := NewPublicKey(ks.current.key, ks.current.kid);
    Published(ks.current);
    if ks.previous.Some? {
      var previous := NewPublicKey(ks.previous.value.key, ks.previous.value.kid);
      Published(ks.previous.value);
      SearchTwo(current, previous, kid);
    } else {
      SearchOne(current, kid);
      assert PublicKeys(ks) == [current];
    }
  }

  function Found(k: PublicKey): Result<RsaKey, KeyError> {
    var key := DecodeKey(k.n, k.e);
    if key.None? then Err(UndecodableKey) else Ok(key.value)
  }

  lemma Published(e: KeyEntry)
    requires Usable(e)
    ensures Found(NewPublicKey(e.key, e.kid)) == Ok(e.key)
  {
    JwkRoundTrip(e.key, e.kid);
  }

  lemma SearchOne(a: PublicKey, kid: string)
    ensures ResolveIn([a], kid) == if a.kid == kid then Found(a) else Err(UnknownKid)
  {
    assert [a][1..] == [];
  }

  lemma SearchTwo(a: PublicKey, b: PublicKey, kid: string)
    ensures ResolveIn([a] + [b], kid) == if a.kid == kid then Found(a) else if b.kid == kid then Found(b) else Err(UnknownKid)
  {
    assert ([a] + [b])[1..] == [b];
    SearchOne(b, kid);
  }

  /** Over any run of rotations a key id resolves, and to its own key, exactly while at most
      one rotation has followed the generation of the key. */
  lemma ResolvesForTwoGenerations(entries: seq<KeyEntry>, i: nat)
    requires Generations(entries) && i < |entries|
    ensures Resolve(JwksAfter(entries), entries[i].kid) ==
            if |entries| - 1 - i <= 1 then Ok(entries[i].key) else Err(UnknownKid)
  {
    ResolveIsLookup(StateAfter(entries), entries[i].kid);
  }

  /** An id that was never generated never resolves. */
  lemma ForeignIdsDoNotResolve(entries: seq<KeyEntry>, kid: string)
    requires Generations(entries) && forall i :: 0 <= i < |entries| ==> entries[i].kid != kid
    ensures Resolve(JwksAfter(entries), kid).Err?
  {
    ResolveIsLookup(StateAfter(entries), kid);
  }
}
