/** The rule server of the controller, one instance per rule kind: its methods run under the
    server's lock, so each is one step of the distribution protocol. */
module RuleServer {
  import opened Rules
  import opened RuleList
  import opened Distribution

  lemma {:induction false} FilterOutAppend<R, K>(key: R -> K, rules: seq<R>, r: R, covered: K -> bool)
    ensures FilterOut(key, rules + [r], covered) == FilterOut(key, rules, covered) + if covered(key(r)) then [] else [r]
    ensures |FilterOut(key, rules, covered)| <= |rules|
  {
    if rules == [] {
      assert rules + [r] == [r];
    } else {
      assert (rules + [r])[1..] == rules[1..] + [r];
      FilterOutAppend(key, rules[1..], r, covered);
    }
  }

  /** Policy removal compacts a slice in its own backing array: the kept rules end up in front
      in their old order, and nothing behind them is written. */
  method CompactInPlace<R, K>(key: R -> K, a: array<R>, len: nat, covered: K -> bool) returns (n: nat)
    requires len <= a.Length
    modifies a
    ensures n <= len
    ensures a[..n] == FilterOut(key, old(a[..len]), covered)
    ensures a[n..] == old(a[n..])
  {
    n := 0;
    ghost var was := a[..];
    for i := 0 to len
      invariant n <= i
      invariant a[..n] == FilterOut(key, was[..i], covered)
      invariant forall j :: n <= j < a.Length ==> a[j] == was[j]
    {
      FilterOutAppend(key, was[..i], was[i], covered);
      assert was[..i + 1] == was[..i] + [was[i]];
      if !covered(key(a[i])) {
        a[n] := a[i];
        n := n + 1;
      }
    }
  }

  /** The rule list is a slice: a backing array, possibly shared with whoever handed it over, and
      a length. */
  class RuleServer<R, K(==), P> {
    const st: Stream<R, K, P>
    var backing: array<R>
    var len: nat
    var version: nat
    var queues: map<nat, seq<Msg<P>>>
    var nextId: nat

    ghost predicate Valid()
      reads this
    {
      len <= backing.Length
    }

    function Rules(): seq<R>
      requires Valid()
      reads this, backing
    {
      backing[..len]
    }

    ghost function State(): Server<R, P>
      requires Valid()
      reads this, backing
    {
      Server(Rules(), version, queues, nextId)
    }

    constructor (st: Stream<R, K, P>)
      ensures Valid() && this.st == st && State() == Server([], 0, map[], 0) && fresh(backing)
    {
      this.st := st;
      backing := new R[0];
      len, version, queues, nextId := 0, 0, map[], 0;
    }

    /** Registers a subscriber and builds its snapshot under the same lock: the server's part of a
        subscription in any state `s` of the whole system, with the snapshot in hand. */
    method Subscribe(ghost s: System<R, K, P>, ghost client: nat) returns (id: nat, snapshot: Msg<P>)
      requires Valid() && s.server == State()
      modifies this`queues, this`nextId
      ensures Valid() && id == old(nextId)
      ensures (forall other :: other in s.conns && s.conns[other].open ==> s.conns[other].client != client) ==>
                && State() == Next(st, s, Step.Subscribe(client)).server
                && id in Next(st, s, Step.Subscribe(client)).conns && Next(st, s, Step.Subscribe(client)).conns[id].hand == [snapshot]
      ensures snapshot == CurrentSnapshot(st, old(State()))
      ensures State() == old(State()).(queues := old(queues)[id := []], nextId := id + 1)
    {
      id := nextId;
      nextId := nextId + 1;
      queues := queues[id := []];
      snapshot := Msg(version, Snapshot(ToWire(st, backing[..len])));
    }

    /** Offers a message to every subscriber in turn; full queues drop it. */
    method Push(msg: Msg<P>)
      modifies this`queues
      ensures queues == Broadcast(old(queues), msg)
    {
      var todo := queues.Keys;
      while todo != {}
        invariant todo <= queues.Keys && queues.Keys == old(queues).Keys
        invariant forall id :: id in queues ==>
                    queues[id] == if id in todo then old(queues)[id] else Offer(old(queues)[id], msg)
        decreases todo
      {
        var id :| id in todo;
        if |queues[id]| < 64 {
          queues := queues[id := queues[id] + [msg]];
        }
        todo := todo - {id};
      }
    }

    /** Keeps the caller's slice itself, not a copy. */
    method UpdateRules(all: array<R>, n: nat)
      requires Valid() && n <= all.Length
      modifies this
      ensures Valid() && backing == all && len == n
      ensures State() == ServerEdit(st, old(State()), Replace(all[..n]))
    {
      backing, len := all, n;
      version := version + 1;
      Push(Msg(version, Snapshot(ToWire(st, all[..n]))));
    }

    /** Overwrites the first rule under the key in the backing array, or appends. */
    method UpsertRule(rule: R)
      requires Valid()
      modifies this, backing
      ensures Valid() && (backing == old(backing) || fresh(backing))
      ensures FirstIndex(st.key, old(Rules()), st.key(rule)) < old(len) ==> backing == old(backing) && len == old(len)
      ensures State() == ServerEdit(st, old(State()), Upsert(rule))
    {
      var i := 0;
      ghost var at := FirstIndex(st.key, Rules(), st.key(rule));
      while i < len && st.key(backing[i]) != st.key(rule)
        invariant 0 <= i <= len && i <= at
      {
        i := i + 1;
      }
      if i < len {
        backing[i] := rule;
        assert backing[..len] == old(backing[..len])[i := rule];
      } else {
        Append(rule);
      }
      version := version + 1;
      Push(Msg(version, Delta(ToWire(st, [rule]), [])));
    }

    /** Appends in the backing array while it has room, else in a larger copy of it. */
    method Append(rule: R)
      requires Valid()
      modifies this`backing, this`len, backing
      ensures Valid() && Rules() == old(Rules()) + [rule]
      ensures if old(len < backing.Length) then backing == old(backing) else fresh(backing)
    {
      if len < backing.Length {
        backing[len] := rule;
      } else {
        var all := backing[..len] + [rule];
        backing := new R[|all|](i requires 0 <= i < |all| => all[i]);
        assert backing[..] == all;
      }
      len := len + 1;
    }

    method RemoveRule(ref: RuleRef)
      requires Valid()
      modifies this, backing
      ensures Valid() && backing == old(backing)
      ensures State() == ServerEdit(st, old(State()), Remove(ref))
    {
      match st.removal {
        case FirstMatch(refKey) => CutFirst(refKey(ref));
        case AllMatches(covers) => CutAll(covers(ref));
      }
      version := version + 1;
      Push(Msg(version, Delta([], [ref])));
    }

    /** Cuts out the first rule under the key by moving the later ones down in place. */
    method CutFirst(k: K)
      requires Valid()
      modifies this`len, backing
      ensures Valid() && Rules() == RemoveFirst(st.key, old(Rules()), k)
    {
      ghost var was := Rules();
      var i := 0;
      while i < len && st.key(backing[i]) != k
        invariant 0 <= i <= len && i <= FirstIndex(st.key, was, k)
      {
        i := i + 1;
      }
      if i < len {
        MoveDown(i);
      }
    }

    /** Moves everything behind a position one place down. */
    method MoveDown(i: nat)
      requires Valid() && i < len
      modifies this`len, backing
      ensures Valid() && Rules() == old(Rules())[..i] + old(Rules())[i + 1..]
    {
      for j := i to len - 1
        invariant len == old(len) && backing == old(backing)
        invariant forall k :: 0 <= k < len ==> backing[k] == old(backing[if i <= k < j then k + 1 else k])
      {
        backing[j] := backing[j + 1];
      }
      len := len - 1;
      assert forall k :: 0 <= k < len ==> backing[k] == old(backing[if k < i then k else k + 1]);
    }

    /** Drops every rule the policy covers, compacting in place. */
    method CutAll(covered: K -> bool)
      requires Valid()
      modifies this`len, backing
      ensures Valid() && Rules() == FilterOut(st.key, old(Rules()), covered)
      ensures backing[len..] == old(backing[..])[len..]
    {
      len := CompactInPlace(st.key, backing, len, covered);
    }

    /** The handler goroutine of a subscriber takes the next message from its queue: the server's
        part of a take in any state `s` of the whole system, with the message in hand. */
    method TakeNext(id: nat, ghost s: System<R, K, P>) returns (msg: Msg<P>)
      requires Valid() && id in queues && queues[id] != [] && s.server == State()
      modifies this`queues
      ensures Valid()
      ensures id in s.conns && s.conns[id].hand == [] ==>
                && id in Next(st, s, Take(id)).conns && State() == Next(st, s, Take(id)).server && Next(st, s, Take(id)).conns[id].hand == [msg]
      ensures msg == old(queues)[id][0] && id in queues && [msg] + queues[id] == old(queues)[id] && queues - {id} == old(queues) - {id}
    {
      msg := queues[id][0];
      queues := queues[id := queues[id][1..]];
    }

    /** The deferred clean-up of a subscriber: the server's part of a deregistration in any state
        `s` of the whole system. What was queued is lost for the connection. */
    method Unsubscribe(id: nat, ghost s: System<R, K, P>)
      requires Valid() && s.server == State()
      modifies this`queues
      ensures Valid()
      ensures id in s.conns && id in old(queues) ==>
                && id in Next(st, s, Deregister(id)).conns && State() == Next(st, s, Deregister(id)).server
                && VersionsOf(old(queues)[id]) <= Next(st, s, Deregister(id)).conns[id].lost
      ensures queues == old(queues) - {id}
    {
      queues := queues - {id};
    }
  }

  /** A caller that hands a slice over shares it: an upsert of a key the slice holds writes to
      the caller's own array. */
  method HandedSliceIsShared<R, K(==), P>(server: RuleServer<R, K, P>, a: array<R>, n: nat, rule: R)
    requires server.Valid() && n <= a.Length && FirstIndex(server.st.key, a[..n], server.st.key(rule)) < n
    modifies server, a
    ensures server.backing == a && a[..n] == UpsertFirst(server.st.key, old(a[..n]), rule)
  {
    server.UpdateRules(a, n);
    server.UpsertRule(rule);
  }
}
