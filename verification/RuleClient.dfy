/** The receive loop of a rule stream client. */
module RuleClient {
  import opened Rules
  import opened RuleList
  import opened Distribution
  import Convergence

  class RuleClient<R, K(==), P> {
    const st: Stream<R, K, P>
    var view: map<K, R>
    var synced: bool

    constructor (st: Stream<R, K, P>)
      ensures this.st == st && view == map[] && !synced
    {
      this.st := st;
      view, synced := map[], false;
    }

    /** Opening a stream starts from an empty map, as the connection does that a subscription of
        this client makes in any state `s` of the whole system; readiness survives. */
    method Reconnect(ghost s: System<R, K, P>, ghost client: nat)
      modifies this`view
      ensures (forall other :: other in s.conns && s.conns[other].open ==> s.conns[other].client != client) ==>
                var conns := Next(st, s, Step.Subscribe(client)).conns;
                s.server.nextId in conns && view == conns[s.server.nextId].view
      ensures view == map[]
    {
      view := map[];
    }

    method Store(rules: seq<P>)
      modifies this`view
      ensures view == old(view) + View(st.key, FromWire(st, rules))
    {
      ghost var decoded := FromWire(st, rules);
      for i := 0 to |rules|
        invariant view == old(view) + View(st.key, decoded[..i])
      {
        var r := st.fromWire(rules[i]);
        StoreOne(st.key, old(view), decoded[..i], r);
        assert decoded[..i + 1] == decoded[..i] + [r];
        view := view[st.key(r) := r];
      }
      assert decoded[..|rules|] == decoded;
    }

    method Delete(ref: RuleRef)
      modifies this`view
      ensures view == ApplyRemovals(st, old(view), [ref])
    {
      match st.removal {
        case FirstMatch(refKey) =>
          view := view - {refKey(ref)};
        case AllMatches(covers) =>
          var covered := covers(ref);
          var todo := view.Keys;
          while todo != {}
            invariant todo <= view.Keys <= old(view).Keys
            invariant forall k :: k in old(view) ==> (k in view <==> k in todo || !covered(k))
            invariant forall k :: k in view ==> view[k] == old(view)[k]
            decreases todo
          {
            var k :| k in todo;
            if covered(k) {
              view := view - {k};
            }
            todo := todo - {k};
          }
          assert view == Without(old(view), covered);
      }
    }

    method DeleteAll(refs: seq<RuleRef>)
      modifies this`view
      ensures view == ApplyRemovals(st, old(view), refs)
    {
      for i := 0 to |refs|
        invariant view == ApplyRemovals(st, old(view), refs[..i])
      {
        RemovalsAppend(st, old(view), refs[..i], refs[i]);
        assert refs[..i + 1] == refs[..i] + [refs[i]];
        Delete(refs[i]);
      }
      assert refs[..|refs|] == refs;
    }

    /** Ranging over the map in whatever order it yields its entries. */
    method Flatten() returns (flat: seq<R>)
      requires KeyedBy(st.key, view)
      ensures Enumerates(st.key, view, flat)
    {
      flat := [];
      var todo := view.Keys;
      var done: map<K, R> := map[];
      while todo != {}
        invariant todo !! done.Keys && todo + done.Keys == view.Keys
        invariant forall k :: k in done ==> done[k] == view[k]
        invariant Enumerates(st.key, done, flat)
        decreases todo
      {
        var k :| k in todo;
        EnumerateLast(st.key, done, flat, view[k]);
        flat := flat + [view[k]];
        done := done[k := view[k]];
        todo := todo - {k};
      }
      assert done == view;
    }

    /** The client's map is that of an open connection whose oldest message carries the update. */
    ghost predicate Awaits(s: System<R, K, P>, id: nat, update: Update<P>)
      reads this
    {
      && id in s.conns && s.conns[id].open && s.conns[id].view == view
      && s.conns[id].wire != [] && s.conns[id].wire[0].update == update
    }

    /** One message: rebuild the map, list its entries for the setter, become ready. In any state
        `s` of the whole system in which connection `id` awaits the message, this is a receive
        step, and the list is the one recorded as handed over. */
    method Receive(update: Update<P>, ghost s: System<R, K, P>, ghost id: nat) returns (flat: seq<R>)
      requires KeyedBy(st.key, view)
      modifies this
      ensures old(Awaits(s, id, update)) ==>
                && Enabled(st, s, Recv(id, flat)) && view == Next(st, s, Recv(id, flat)).conns[id].view
                && |Next(st, s, Recv(id, flat)).log| == |s.log| + 1 && Next(st, s, Recv(id, flat)).log[|s.log|].rules == flat
      ensures view == ApplyUpdate(st, old(view), update) && KeyedBy(st.key, view)
      ensures Enumerates(st.key, view, flat)
      ensures synced
    {
      Convergence.ApplyKeepsKeyed(st, view, update);
      match update {
        case Snapshot(rules) =>
          view := map[];
          Store(rules);
          assert view == View(st.key, FromWire(st, rules));
        case Delta(upserted, removed) =>
          Store(upserted);
          DeleteAll(removed);
      }
      flat := Flatten();
      synced := true;
    }
  }

  lemma {:induction false} RemovalsAppend<R, K, P>(st: Stream<R, K, P>, view: map<K, R>, refs: seq<RuleRef>, ref: RuleRef)
    ensures ApplyRemovals(st, view, refs + [ref]) == ApplyRemovals(st, ApplyRemovals(st, view, refs), [ref])
    decreases refs
  {
    if refs == [] {
      assert refs + [ref] == [ref];
    } else {
      assert (refs + [ref])[1..] == refs[1..] + [ref];
      var first := match st.removal
        case FirstMatch(refKey) => view - {refKey(refs[0])}
        case AllMatches(covers) => Without(view, covers(refs[0]));
      RemovalsAppend(st, first, refs[1..], ref);
    }
  }

  lemma StoreOne<R, K>(key: R -> K, view: map<K, R>, stored: seq<R>, r: R)
    ensures view + View(key, stored + [r]) == (view + View(key, stored))[key(r) := r]
  {
    ViewConcat(key, stored, [r]);
    assert View(key, [r]) == map[key(r) := r];
  }
}
