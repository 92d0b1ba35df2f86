/** Agreement, history and convergence of the rule distribution protocol, for every run. */
module DistributionProofs {
  import opened Wrappers
  import opened Rules
  import opened RuleList
  import opened Distribution

  // ----- one edit -----

  /** The lists on which an edit and the update sent for it agree: an upserted key is held
      at most once or already last held by the new rule, and a removed key is held at most
      once. Replacements and policy removals always agree. */
  predicate SafeEdit<R(==), K(==), P>(st: Stream<R, K, P>, rules: seq<R>, edit: Edit<R>) {
    match edit
    case Replace(_) => true
    case Upsert(rule) => AtMostOnce(st.key, rules, st.key(rule)) || Lookup(st.key, rules, st.key(rule)) == Some(rule)
    case Remove(ref) => st.removal.FirstMatch? ==> AtMostOnce(st.key, rules, st.removal.refKey(ref))
  }

  lemma WireIdentity<R(!new), K, P>(st: Stream<R, K, P>, rules: seq<R>)
    requires Faithful(st)
    ensures FromWire(st, ToWire(st, rules)) == rules
  {
  }

  lemma ApplyUpsert<R(!new), K, P>(st: Stream<R, K, P>, view: map<K, R>, rule: R)
    requires Faithful(st)
    ensures ApplyUpdate(st, view, EditUpdate(st, Upsert(rule))) == view[st.key(rule) := rule]
  {
    WireIdentity(st, [rule]);
    assert View(st.key, [rule]) == map[st.key(rule) := rule];
    assert view + map[st.key(rule) := rule] == view[st.key(rule) := rule];
  }

  lemma ApplyRemove<R(!new), K, P>(st: Stream<R, K, P>, view: map<K, R>, ref: RuleRef)
    ensures ApplyUpdate(st, view, EditUpdate(st, Remove(ref))) == ApplyRemovals(st, view, [ref])
  {
    assert FromWire(st, []) == [];
    var none: map<K, R> := map[];
    assert view + none == view;
  }

  /** A client at the server's old view that applies the update sent for an edit reaches the
      server's new view exactly when the edit is safe. */
  lemma EditAgreesIff<R(!new), K, P>(st: Stream<R, K, P>, rules: seq<R>, edit: Edit<R>)
    requires Faithful(st)
    ensures (ApplyUpdate(st, View(st.key, rules), EditUpdate(st, edit)) == View(st.key, EditRules(st, rules, edit)))
            <==>
            SafeEdit(st, rules, edit)
  {
    match edit
    case Replace(all) =>
      WireIdentity(st, all);
    case Upsert(rule) =>
      UpsertIsMapUpdateIff(st.key, rules, rule);
      ApplyUpsert(st, View(st.key, rules), rule);
    case Remove(ref) =>
      RemoveAgreesIff(st, rules, ref);
  }

  lemma RemoveAgreesIff<R(!new), K, P>(st: Stream<R, K, P>, rules: seq<R>, ref: RuleRef)
    ensures (ApplyUpdate(st, View(st.key, rules), EditUpdate(st, Remove(ref))) == View(st.key, EditRules(st, rules, Remove(ref))))
            <==>
            SafeEdit(st, rules, Remove(ref))
  {
    var view := View(st.key, rules);
    ApplyRemove(st, view, ref);
    match st.removal {
      case FirstMatch(refKey) =>
        assert ApplyRemovals(st, view, [ref]) == view - {refKey(ref)};
        RemoveIsMapDeleteIff(st.key, rules, refKey(ref));
      case AllMatches(covers) =>
        assert ApplyRemovals(st, view, [ref]) == Without(view, covers(ref));
        FilterIsMapDelete(st.key, rules, covers(ref));
    }
  }

  /** Lists with distinct keys stay distinct under upserts and removals, and every edit of
      them is safe. */
  lemma DistinctEditsAreSafe<R, K, P>(st: Stream<R, K, P>, rules: seq<R>, edit: Edit<R>)
    requires Distinct(st.key, rules)
    ensures SafeEdit(st, rules, edit)
    ensures !edit.Replace? ==> Distinct(st.key, EditRules(st, rules, edit))
  {
    match edit
    case Replace(_) =>
    case Upsert(rule) =>
      DistinctIsAtMostOnce(st.key, rules, st.key(rule));
    case Remove(ref) =>
      if st.removal.FirstMatch? {
        DistinctIsAtMostOnce(st.key, rules, st.removal.refKey(ref));
      } else {
        FilterKeepsDistinct(st.key, rules, st.removal.covers(ref));
      }
  }

  // ----- one connection -----

  ghost predicate AllLost(lo: int, hi: int, lost: set<nat>) {
    forall v: nat :: lo < v <= hi ==> v in lost
  }

  /** The pending messages carry increasing versions after `prev` and up to `upto`, and every
      version in between that is not pending is lost. */
  ghost predicate Chain<P>(prev: int, msgs: seq<Msg<P>>, upto: nat, lost: set<nat>)
    decreases msgs
  {
    if msgs == [] then prev <= upto && AllLost(prev, upto, lost)
    else
      && prev < msgs[0].version <= upto
      && AllLost(prev, msgs[0].version - 1, lost)
      && Chain(msgs[0].version, msgs[1..], upto, lost)
  }

  lemma {:induction false} ChainAppend<P>(prev: int, msgs: seq<Msg<P>>, upto: nat, lost: set<nat>, m: Msg<P>)
    requires Chain(prev, msgs, upto, lost) && m.version == upto + 1
    ensures Chain(prev, msgs + [m], upto + 1, lost)
    decreases msgs
  {
    if msgs == [] {
      assert (msgs + [m])[1..] == [];
    } else {
      assert (msgs + [m])[1..] == msgs[1..] + [m];
      ChainAppend(msgs[0].version, msgs[1..], upto, lost, m);
    }
  }

  lemma {:induction false} ChainLose<P>(prev: int, msgs: seq<Msg<P>>, upto: nat, lost: set<nat>)
    requires Chain(prev, msgs, upto, lost)
    ensures Chain(prev, msgs, upto + 1, lost + {upto + 1})
    decreases msgs
  {
    if msgs != [] {
      ChainLose(msgs[0].version, msgs[1..], upto, lost);
    }
  }

  lemma {:induction false} ChainAbove<P>(prev: int, msgs: seq<Msg<P>>, upto: nat, lost: set<nat>, i: nat)
    requires Chain(prev, msgs, upto, lost) && i < |msgs|
    ensures prev < msgs[i].version <= upto
    decreases msgs
  {
    if i > 0 { ChainAbove(msgs[0].version, msgs[1..], upto, lost, i - 1); }
  }

  /** Dropping the back of the pending messages turns their versions into lost ones. */
  lemma {:induction false} ChainTruncate<P>(prev: int, front: seq<Msg<P>>, back: seq<Msg<P>>, upto: nat, lost: set<nat>, gone: set<nat>)
    requires Chain(prev, front + back, upto, lost)
    requires VersionsOf(back) <= gone
    ensures Chain(prev, front, upto, lost + gone)
    decreases |front| + |back|
  {
    if front != [] {
      assert (front + back)[1..] == front[1..] + back;
      ChainTruncate(front[0].version, front[1..], back, upto, lost, gone);
    } else if back != [] {
      assert front + back == back;
      assert back[0].version in VersionsOf(back);
      forall v | v in VersionsOf(back[1..]) ensures v in VersionsOf(back) {
        var i :| 0 <= i < |back[1..]| && back[1..][i].version == v;
        assert back[i + 1].version == v;
      }
      assert [] + back[1..] == back[1..];
      ChainTruncate(back[0].version, [], back[1..], upto, lost, gone);
    } else {
      assert front + back == [];
    }
  }

  /** A message says what the server's history says about its version. */
  ghost predicate Truthful<R, K, P>(st: Stream<R, K, P>, hist: seq<seq<R>>, m: Msg<P>) {
    && m.version < |hist|
    && (m.update.Snapshot? ==> FromWire(st, m.update.rules) == hist[m.version])
    && (m.update.Delta? ==>
          && m.version >= 1
          && ApplyUpdate(st, View(st.key, hist[m.version - 1]), m.update) == View(st.key, hist[m.version]))
  }

  ghost predicate ConnInv<R, K, P>(st: Stream<R, K, P>, hist: seq<seq<R>>, c: Conn<R, K, P>, pending: seq<Msg<P>>) {
    && -1 <= c.snap <= c.seen <= c.upto < |hist|
    && Chain(c.seen, pending, c.upto, c.lost)
    && (forall i :: 0 <= i < |pending| ==> Truthful(st, hist, pending[i]))
    && (c.snap < 0 && pending != [] ==> pending[0].update.Snapshot?)
    && (Intact(c) ==> c.view == View(st.key, hist[c.seen]))
  }

  lemma ConnExtend<R, K, P>(st: Stream<R, K, P>, hist: seq<seq<R>>, more: seq<seq<R>>, c: Conn<R, K, P>, pending: seq<Msg<P>>)
    requires ConnInv(st, hist, c, pending)
    ensures ConnInv(st, hist + more, c, pending)
  {
    forall i | 0 <= i < |pending| ensures Truthful(st, hist + more, pending[i]) {
      assert Truthful(st, hist, pending[i]);
    }
  }

  lemma ConnPublished<R, K, P>(st: Stream<R, K, P>, hist: seq<seq<R>>, rules: seq<R>, c: Conn<R, K, P>,
                               front: seq<Msg<P>>, queue: seq<Msg<P>>, m: Msg<P>)
    requires ConnInv(st, hist, c, front + queue)
    requires c.upto == |hist| - 1 && m.version == |hist|
    requires Truthful(st, hist + [rules], m)
    requires m.update.Delta? ==> c.snap >= 0 || front + queue != []
    ensures ConnInv(st, hist + [rules], Published(c, queue, m.version), front + Offer(queue, m))
  {
    ConnExtend(st, hist, [rules], c, front + queue);
    if |queue| < QUEUE_CAPACITY {
      assert front + (queue + [m]) == (front + queue) + [m];
      ChainAppend(c.seen, front + queue, c.upto, c.lost, m);
    } else {
      ChainLose(c.seen, front + queue, c.upto, c.lost);
    }
  }

  /** Receiving the oldest pending message keeps the connection's invariant and always
      leaves an applied snapshot behind. */
  lemma ConnReceived<R, K, P>(st: Stream<R, K, P>, hist: seq<seq<R>>, c: Conn<R, K, P>, pending: seq<Msg<P>>)
    requires ConnInv(st, hist, c, pending)
    requires c.wire != [] && pending != [] && pending[0] == c.wire[0]
    ensures ConnInv(st, hist, Received(st, c, c.wire[0]), pending[1..])
    ensures Received(st, c, c.wire[0]).snap >= 0
    ensures c.seen < c.wire[0].version
  {
    var m := c.wire[0];
    assert Truthful(st, hist, m);
    if m.update.Delta? && Intact(Received(st, c, m)) {
      DeltaApplied(st, hist, c, m);
    }
  }

  /** An intact connection that applies a delta was intact at the version before it. */
  lemma DeltaApplied<R, K, P>(st: Stream<R, K, P>, hist: seq<seq<R>>, c: Conn<R, K, P>, m: Msg<P>)
    requires m.update.Delta? && c.wire != [] && c.seen < m.version && c.snap <= c.seen < |hist| && Truthful(st, hist, m)
    requires AllLost(c.seen, m.version - 1, c.lost) && Intact(Received(st, c, m))
    requires Intact(c) ==> c.view == View(st.key, hist[c.seen])
    ensures Received(st, c, m).view == View(st.key, hist[m.version])
  {
    assert c.seen < m.version - 1 ==> m.version - 1 in c.lost;
    assert c.seen == m.version - 1;
    assert Intact(c) by {
      forall v | c.snap < v <= c.seen ensures v !in c.lost {
        assert c.snap < v <= m.version;
      }
    }
  }

  // ----- the system -----

  ghost predicate ConnAt<R, K, P>(st: Stream<R, K, P>, s: System<R, K, P>, id: nat) {
    id in s.conns && id < s.server.nextId && ConnInv(st, s.hist, s.conns[id], Pending(s, id))
  }

  ghost predicate QueueAt<R, K, P>(s: System<R, K, P>, id: nat) {
    && id in s.conns && id in s.server.queues
    && |s.server.queues[id]| <= QUEUE_CAPACITY
    && s.conns[id].upto == s.server.version
    && (s.conns[id].snap >= 0 || Pending(s, id) != [])
  }

  ghost predicate SysInv<R, K, P>(st: Stream<R, K, P>, s: System<R, K, P>) {
    && |s.hist| == s.server.version + 1 && s.hist[s.server.version] == s.server.rules
    && (forall id :: id in s.conns ==> ConnAt(st, s, id))
    && (forall id :: id in s.server.queues ==> QueueAt(s, id))
  }

  /** The update sent for a safe edit is truthful in the history the edit makes. */
  lemma EditIsTruthful<R(!new), K, P>(st: Stream<R, K, P>, hist: seq<seq<R>>, edit: Edit<R>)
    requires Faithful(st) && hist != [] && SafeEdit(st, hist[|hist| - 1], edit)
    ensures Truthful(st, hist + [EditRules(st, hist[|hist| - 1], edit)], Msg(|hist|, EditUpdate(st, edit)))
  {
    EditAgreesIff(st, hist[|hist| - 1], edit);
    if edit.Replace? { WireIdentity(st, edit.rules); }
  }

  /** A registered connection after a publication. */
  lemma PublishRegistered<R, K, P>(st: Stream<R, K, P>, s: System<R, K, P>, s': System<R, K, P>, rules: seq<R>, m: Msg<P>, id: nat)
    requires ConnAt(st, s, id) && QueueAt(s, id) && m.version == s.server.version + 1 == |s.hist|
    requires Truthful(st, s.hist + [rules], m)
    requires s'.hist == s.hist + [rules] && s'.server.nextId == s.server.nextId && s'.server.version == m.version
    requires id in s'.conns && s'.conns[id] == Published(s.conns[id], s.server.queues[id], m.version)
    requires id in s'.server.queues && s'.server.queues[id] == Offer(s.server.queues[id], m)
    ensures ConnAt(st, s', id) && QueueAt(s', id)
  {
    var c := s.conns[id];
    ConnPublished(st, s.hist, rules, c, c.wire + c.hand, s.server.queues[id], m);
    assert Pending(s', id) == (c.wire + c.hand) + Offer(s.server.queues[id], m);
  }

  /** A connection no longer registered does not notice a publication. */
  lemma PublishUnregistered<R, K, P>(st: Stream<R, K, P>, s: System<R, K, P>, s': System<R, K, P>, rules: seq<R>, id: nat)
    requires ConnAt(st, s, id) && id !in s.server.queues && id !in s'.server.queues
    requires s'.hist == s.hist + [rules] && s'.server.nextId == s.server.nextId
    requires id in s'.conns && s'.conns[id] == s.conns[id]
    ensures ConnAt(st, s', id)
  {
    ConnExtend(st, s.hist, [rules], s.conns[id], Pending(s, id));
    assert Pending(s', id) == Pending(s, id);
  }

  /** What publishing a message does: it is offered to every registered queue. */
  ghost predicate Publishes<R, K, P>(s: System<R, K, P>, s': System<R, K, P>, rules: seq<R>, m: Msg<P>) {
    && m.version == s.server.version + 1
    && s'.hist == s.hist + [rules] && s'.sent == s.sent + [m.update]
    && s'.server.nextId == s.server.nextId && s'.server.version == m.version && s'.server.rules == rules
    && s'.server.queues.Keys == s.server.queues.Keys && s'.conns.Keys == s.conns.Keys
    && (forall id :: id in s'.server.queues ==> s'.server.queues[id] == Offer(s.server.queues[id], m))
    && (forall id :: id in s'.conns ==>
          s'.conns[id] == if id in s.server.queues then Published(s.conns[id], s.server.queues[id], m.version) else s.conns[id])
  }

  lemma PublishEffect<R, K, P>(st: Stream<R, K, P>, s: System<R, K, P>, edit: Edit<R>)
    ensures Publishes(s, Next(st, s, Publish(edit)), EditRules(st, s.server.rules, edit), Msg(s.server.version + 1, EditUpdate(st, edit)))
  {
  }

  lemma PublishedKeepsInv<R, K, P>(st: Stream<R, K, P>, s: System<R, K, P>, s': System<R, K, P>, rules: seq<R>, m: Msg<P>)
    requires SysInv(st, s) && Publishes(s, s', rules, m) && Truthful(st, s.hist + [rules], m)
    ensures SysInv(st, s')
  {
    forall id | id in s'.conns ensures ConnAt(st, s', id) {
      assert ConnAt(st, s, id);
      if id in s.server.queues {
        assert QueueAt(s, id);
        PublishRegistered(st, s, s', rules, m, id);
      } else {
        PublishUnregistered(st, s, s', rules, id);
      }
    }
    forall id | id in s'.server.queues ensures QueueAt(s', id) {
      assert QueueAt(s, id) && ConnAt(st, s, id);
      PublishRegistered(st, s, s', rules, m, id);
    }
  }

  lemma PublishKeepsInv<R(!new), K, P>(st: Stream<R, K, P>, s: System<R, K, P>, edit: Edit<R>)
    requires Faithful(st) && SysInv(st, s) && SafeEdit(st, s.server.rules, edit)
    ensures SysInv(st, Next(st, s, Publish(edit)))
  {
    EditIsTruthful(st, s.hist, edit);
    PublishEffect(st, s, edit);
    PublishedKeepsInv(st, s, Next(st, s, Publish(edit)), EditRules(st, s.server.rules, edit), Msg(s.server.version + 1, EditUpdate(st, edit)));
  }

  lemma FreshConn<R, K, P>(st: Stream<R, K, P>, hist: seq<seq<R>>, c: Conn<R, K, P>, m: Msg<P>)
    requires hist != [] && m.version == |hist| - 1 && m.update.Snapshot? && FromWire(st, m.update.rules) == hist[|hist| - 1]
    requires c.seen == |hist| - 2 && c.snap == -1 && c.upto == |hist| - 1 && c.lost == {}
    ensures ConnInv(st, hist, c, [m])
  {
    assert [m][1..] == [];
    assert Truthful(st, hist, [m][0]);
  }

  /** A new connection starts with the current snapshot in hand. */
  lemma SubscribeConn<R(!new), K, P>(st: Stream<R, K, P>, s: System<R, K, P>, client: nat)
    requires Faithful(st) && SysInv(st, s) && Enabled(st, s, Subscribe(client))
    ensures var s' := Next(st, s, Subscribe(client)); ConnAt(st, s', s.server.nextId) && QueueAt(s', s.server.nextId)
  {
    var s' := Next(st, s, Subscribe(client));
    var id := s.server.nextId;
    WireIdentity(st, s.server.rules);
    FreshConn(st, s.hist, s'.conns[id], CurrentSnapshot(st, s.server));
    assert Pending(s', id) == [CurrentSnapshot(st, s.server)];
  }

  /** Connections that a step does not touch keep their invariant. */
  lemma Untouched<R, K, P>(st: Stream<R, K, P>, s: System<R, K, P>, s': System<R, K, P>, id: nat)
    requires ConnAt(st, s, id) && s'.hist == s.hist && s.server.nextId <= s'.server.nextId && s'.server.version == s.server.version
    requires id in s'.conns && s'.conns[id] == s.conns[id]
    requires id in s.server.queues <==> id in s'.server.queues
    requires id in s.server.queues ==> s'.server.queues[id] == s.server.queues[id]
    ensures ConnAt(st, s', id)
    ensures QueueAt(s, id) ==> QueueAt(s', id)
  {
    assert Pending(s', id) == Pending(s, id);
  }

  lemma SubscribeKeepsInv<R(!new), K, P>(st: Stream<R, K, P>, s: System<R, K, P>, client: nat)
    requires Faithful(st) && SysInv(st, s)
    ensures SysInv(st, Next(st, s, Subscribe(client)))
  {
    var s' := Next(st, s, Subscribe(client));
    if Enabled(st, s, Subscribe(client)) {
      var fresh' := s.server.nextId;
      SubscribeConn(st, s, client);
      forall id | id in s'.conns ensures ConnAt(st, s', id) {
        if id != fresh' {
          assert ConnAt(st, s, id);
          Untouched(st, s, s', id);
        }
      }
      forall id | id in s'.server.queues ensures QueueAt(s', id) {
        if id != fresh' {
          assert QueueAt(s, id) && ConnAt(st, s, id);
          Untouched(st, s, s', id);
        }
      }
    }
  }

  /** A step that touches one connection only has to keep that connection's invariant. */
  lemma OneConnChanged<R, K, P>(st: Stream<R, K, P>, s: System<R, K, P>, s': System<R, K, P>, id: nat)
    requires SysInv(st, s) && id in s.conns && id in s'.conns
    requires s'.hist == s.hist && s'.conns == s.conns[id := s'.conns[id]]
    requires s'.server == s.server.(queues := s'.server.queues)
    requires forall other :: other != id ==> (other in s.server.queues <==> other in s'.server.queues)
    requires forall other :: other in s.server.queues && other != id ==> s'.server.queues[other] == s.server.queues[other]
    requires ConnInv(st, s.hist, s'.conns[id], Pending(s', id))
    requires id in s'.server.queues ==> QueueAt(s', id)
    ensures SysInv(st, s')
  {
    assert ConnAt(st, s, id);
    forall other | other in s'.conns ensures ConnAt(st, s', other) && (other in s'.server.queues ==> QueueAt(s', other)) {
      if other != id {
        assert ConnAt(st, s, other);
        if other in s.server.queues { assert QueueAt(s, other); }
        Untouched(st, s, s', other);
      }
    }
    forall other | other in s'.server.queues ensures QueueAt(s', other) {
      if other != id { assert QueueAt(s, other); }
    }
  }

  /** Where a message sits between server and client does not matter to the invariant. */
  lemma Relocated<R, K, P>(st: Stream<R, K, P>, hist: seq<seq<R>>, c: Conn<R, K, P>, c': Conn<R, K, P>, pending: seq<Msg<P>>)
    requires ConnInv(st, hist, c, pending) && c' == c.(wire := c'.wire, hand := c'.hand, open := c'.open)
    ensures ConnInv(st, hist, c', pending)
  {
    assert Intact(c') <==> Intact(c);
  }

  /** A step that only moves messages of one connection forward, or closes it. */
  lemma MoveKeepsInv<R, K, P>(st: Stream<R, K, P>, s: System<R, K, P>, s': System<R, K, P>, id: nat)
    requires SysInv(st, s) && id in s.conns && id in s'.conns
    requires s'.hist == s.hist && s'.conns == s.conns[id := s'.conns[id]]
    requires s'.conns[id] == s.conns[id].(wire := s'.conns[id].wire, hand := s'.conns[id].hand, open := s'.conns[id].open)
    requires s'.server == s.server.(queues := s'.server.queues) && s'.server.queues.Keys == s.server.queues.Keys
    requires forall other :: other in s.server.queues && other != id ==> s'.server.queues[other] == s.server.queues[other]
    requires id in s.server.queues ==> |s'.server.queues[id]| <= |s.server.queues[id]|
    requires Pending(s', id) == Pending(s, id)
    ensures SysInv(st, s')
  {
    assert ConnAt(st, s, id);
    assert id in s.server.queues ==> QueueAt(s, id);
    Relocated(st, s.hist, s.conns[id], s'.conns[id], Pending(s, id));
    OneConnChanged(st, s, s', id);
  }

  lemma TakeMoves<P>(wire: seq<Msg<P>>, queue: seq<Msg<P>>)
    requires queue != []
    ensures wire + [queue[0]] + queue[1..] == wire + [] + queue
  {
  }

  lemma SendMoves<P>(wire: seq<Msg<P>>, hand: seq<Msg<P>>, queue: seq<Msg<P>>)
    ensures (wire + hand) + [] + queue == wire + hand + queue
  {
  }

  lemma MovesKeepInv<R, K, P>(st: Stream<R, K, P>, s: System<R, K, P>, step: Step<R>)
    requires SysInv(st, s) && (step.Take? || step.Send? || step.Close?)
    ensures SysInv(st, Next(st, s, step))
  {
    if Enabled(st, s, step) {
      var id := step.id;
      var c := s.conns[id];
      if step.Take? {
        TakeMoves(c.wire, s.server.queues[id]);
      } else if step.Send? {
        SendMoves(c.wire, c.hand, s.server.queues[id]);
      }
      MoveKeepsInv(st, s, Next(st, s, step), id);
    }
  }

  lemma RecvKeepsInv<R, K, P>(st: Stream<R, K, P>, s: System<R, K, P>, id: nat, flat: seq<R>)
    requires SysInv(st, s)
    ensures SysInv(st, Next(st, s, Recv(id, flat)))
    ensures Enabled(st, s, Recv(id, flat)) ==> Next(st, s, Recv(id, flat)).conns[id].snap >= 0
                                               && s.conns[id].seen < s.conns[id].wire[0].version
  {
    if Enabled(st, s, Recv(id, flat)) {
      ReceivedKeepsInv(st, s, Next(st, s, Recv(id, flat)), id);
    }
  }

  lemma ReceivedKeepsInv<R, K, P>(st: Stream<R, K, P>, s: System<R, K, P>, s': System<R, K, P>, id: nat)
    requires SysInv(st, s) && id in s.conns && s.conns[id].wire != []
    requires s'.hist == s.hist && s'.server == s.server
    requires s'.conns == s.conns[id := Received(st, s.conns[id], s.conns[id].wire[0])]
    ensures SysInv(st, s') && s'.conns[id].snap >= 0 && s.conns[id].seen < s.conns[id].wire[0].version
  {
    var c := s.conns[id];
    assert ConnAt(st, s, id);
    var queue := if id in s.server.queues then s.server.queues[id] else [];
    DropFirst(c.wire, c.hand, queue);
    ConnReceived(st, s.hist, c, c.wire + c.hand + queue);
    assert Pending(s', id) == c.wire[1..] + c.hand + queue;
    if id in s.server.queues {
      assert QueueAt(s, id);
      assert QueueAt(s', id);
    }
    OneConnChanged(st, s, s', id);
  }

  lemma DropFirst<P>(wire: seq<Msg<P>>, hand: seq<Msg<P>>, queue: seq<Msg<P>>)
    requires wire != []
    ensures (wire + hand + queue)[0] == wire[0] && (wire + hand + queue)[1..] == wire[1..] + hand + queue
  {
  }

  lemma DeregisterKeepsInv<R, K, P>(st: Stream<R, K, P>, s: System<R, K, P>, id: nat)
    requires SysInv(st, s)
    ensures SysInv(st, Next(st, s, Deregister(id)))
  {
    if Enabled(st, s, Deregister(id)) {
      DeregisteredKeepsInv(st, s, Next(st, s, Deregister(id)), id);
    }
  }

  lemma DeregisteredKeepsInv<R, K, P>(st: Stream<R, K, P>, s: System<R, K, P>, s': System<R, K, P>, id: nat)
    requires SysInv(st, s) && id in s.conns && id in s.server.queues && id in s'.conns
    requires s'.hist == s.hist && s'.server == s.server.(queues := s.server.queues - {id})
    requires s'.conns == s.conns[id := s'.conns[id]]
    requires var c := s.conns[id];
             s'.conns[id] == c.(hand := [], lost := c.lost + VersionsOf(c.hand) + VersionsOf(s.server.queues[id]))
    ensures SysInv(st, s')
  {
    var c := s.conns[id];
    var queue := s.server.queues[id];
    assert ConnAt(st, s, id);
    assert Pending(s, id) == c.wire + (c.hand + queue);
    DeregisteredConn(st, s.hist, c, s'.conns[id], queue);
    assert Pending(s', id) == c.wire;
    OneConnChanged(st, s, s', id);
  }

  lemma VersionsConcat<P>(a: seq<Msg<P>>, b: seq<Msg<P>>)
    ensures VersionsOf(a + b) <= VersionsOf(a) + VersionsOf(b)
  {
    forall v | v in VersionsOf(a + b) ensures v in VersionsOf(a) + VersionsOf(b) {
      var i :| 0 <= i < |a + b| && (a + b)[i].version == v;
      if i < |a| { assert a[i].version == v; } else { assert b[i - |a|].version == v; }
    }
  }

  lemma DeregisteredConn<R, K, P>(st: Stream<R, K, P>, hist: seq<seq<R>>, c: Conn<R, K, P>, c': Conn<R, K, P>, queue: seq<Msg<P>>)
    requires ConnInv(st, hist, c, c.wire + (c.hand + queue))
    requires c' == c.(hand := [], lost := c.lost + VersionsOf(c.hand) + VersionsOf(queue))
    ensures ConnInv(st, hist, c', c'.wire)
  {
    var back := c.hand + queue;
    var gone := VersionsOf(c.hand) + VersionsOf(queue);
    VersionsConcat(c.hand, queue);
    ChainTruncate(c.seen, c.wire, back, c.upto, c.lost, gone);
    assert c'.lost == c.lost + gone;
    forall i | 0 <= i < |c.wire| ensures Truthful(st, hist, c.wire[i]) {
      assert c.wire[i] == (c.wire + back)[i];
    }
    if Intact(c') {
      assert Intact(c);
    }
  }

  lemma NextKeepsInv<R(!new), K, P>(st: Stream<R, K, P>, s: System<R, K, P>, step: Step<R>)
    requires Faithful(st) && SysInv(st, s)
    requires step.Publish? ==> SafeEdit(st, s.server.rules, step.edit)
    ensures SysInv(st, Next(st, s, step))
  {
    match step
    case Publish(edit) => PublishKeepsInv(st, s, edit);
    case Subscribe(client) => SubscribeKeepsInv(st, s, client);
    case Take(_) => MovesKeepInv(st, s, step);
    case Send(_) => MovesKeepInv(st, s, step);
    case Recv(id, flat) => RecvKeepsInv(st, s, id, flat);
    case Close(_) => MovesKeepInv(st, s, step);
    case Deregister(id) => DeregisterKeepsInv(st, s, id);
  }

  /** Every edit of the run is safe on the list it meets. */
  ghost predicate SafeRun<R, K, P>(st: Stream<R, K, P>, run: seq<Step<R>>) {
    run == [] || (
      var last := run[|run| - 1];
      && SafeRun(st, run[..|run| - 1])
      && (last.Publish? ==> SafeEdit(st, After(st, run[..|run| - 1]).server.rules, last.edit)))
  }

  lemma {:induction false} RunKeepsInv<R(!new), K, P>(st: Stream<R, K, P>, run: seq<Step<R>>)
    requires Faithful(st) && SafeRun(st, run)
    ensures SysInv(st, After(st, run))
  {
    if run != [] {
      RunKeepsInv(st, run[..|run| - 1]);
      NextKeepsInv(st, After(st, run[..|run| - 1]), run[|run| - 1]);
    }
  }

  /** Every replacement of the run has distinct keys. */
  ghost predicate DistinctReplacements<R, K, P>(st: Stream<R, K, P>, run: seq<Step<R>>) {
    forall i :: 0 <= i < |run| && run[i].Publish? && run[i].edit.Replace? ==> Distinct(st.key, run[i].edit.rules)
  }

  /** A run whose replacements have distinct keys is safe, and every list the server ever held
      has distinct keys. */
  lemma {:induction false} DistinctRunIsSafe<R(!new), K, P>(st: Stream<R, K, P>, run: seq<Step<R>>)
    requires DistinctReplacements(st, run)
    ensures SafeRun(st, run)
    ensures forall v :: 0 <= v < |After(st, run).hist| ==> Distinct(st.key, After(st, run).hist[v])
  {
    if run != [] {
      var front, last := run[..|run| - 1], run[|run| - 1];
      var s := After(st, front);
      DistinctRunIsSafe(st, front);
      HistoryIsThePast(st, front, |front|);
      if last.Publish? {
        DistinctEditsAreSafe(st, s.server.rules, last.edit);
        if last.edit.Replace? { assert Distinct(st.key, run[|run| - 1].edit.rules); }
      }
    }
  }

  // ----- what clients hand to their setters -----

  /** Setter calls of one client never go back in version, and strictly advance within one
      connection. */
  ghost predicate Ordered<R>(log: seq<Handoff<R>>) {
    forall i, j :: 0 <= i < j < |log| && log[i].client == log[j].client ==>
      log[i].version <= log[j].version && (log[i].conn == log[j].conn ==> log[i].version < log[j].version)
  }

  /** An intact handoff is an enumeration of the server's view at its version. */
  ghost predicate TrueHandoff<R, K, P>(st: Stream<R, K, P>, s: System<R, K, P>, e: Handoff<R>) {
    && e.version < |s.hist|
    && (e.intact ==> Enumerates(st.key, View(st.key, s.hist[e.version]), e.rules))
  }

  /** A handoff stems from a connection of its client, which has since seen its version. */
  ghost predicate Recorded<R, K, P>(s: System<R, K, P>, e: Handoff<R>) {
    e.conn in s.conns && s.conns[e.conn].client == e.client && e.version <= s.conns[e.conn].seen
  }

  /** An open connection is the only one of its client and at least as recent as every
      earlier setter call of the client. */
  ghost predicate Newest<R, K, P>(s: System<R, K, P>, id: nat)
    requires id in s.conns
  {
    var c := s.conns[id];
    && (forall i :: 0 <= i < |s.log| && s.log[i].client == c.client ==> s.log[i].version <= if c.snap < 0 then c.seen + 1 else c.seen)
    && (forall other :: other in s.conns && s.conns[other].open && s.conns[other].client == c.client ==> other == id)
  }

  ghost predicate LogInv<R, K, P>(st: Stream<R, K, P>, s: System<R, K, P>) {
    && Ordered(s.log)
    && (forall i :: 0 <= i < |s.log| ==> TrueHandoff(st, s, s.log[i]) && Recorded(s, s.log[i]))
    && (forall id :: id in s.conns && s.conns[id].open ==> Newest(s, id))
  }

  /** A connection as far as the log is concerned. */
  predicate SameForLog<R, K, P>(c: Conn<R, K, P>, c': Conn<R, K, P>) {
    c'.client == c.client && c'.seen == c.seen && c'.snap == c.snap && (c'.open ==> c.open)
  }

  lemma QuietConns<R, K, P>(st: Stream<R, K, P>, s: System<R, K, P>, step: Step<R>)
    requires !step.Recv? && !step.Subscribe?
    ensures var s' := Next(st, s, step);
            s'.log == s.log && s.hist <= s'.hist && s'.conns.Keys == s.conns.Keys
    ensures forall id :: id in s.conns ==> SameForLog(s.conns[id], Next(st, s, step).conns[id])
  {
  }

  /** Steps that neither receive nor subscribe leave the log valid. */
  lemma QuietKeepsLog<R, K, P>(st: Stream<R, K, P>, s: System<R, K, P>, step: Step<R>)
    requires LogInv(st, s) && !step.Recv? && !step.Subscribe?
    ensures LogInv(st, Next(st, s, step))
  {
    QuietConns(st, s, step);
    SameLog(st, s, Next(st, s, step));
  }

  lemma SameLog<R, K, P>(st: Stream<R, K, P>, s: System<R, K, P>, s': System<R, K, P>)
    requires LogInv(st, s) && s'.log == s.log && s.hist <= s'.hist && s'.conns.Keys == s.conns.Keys
    requires forall id :: id in s.conns ==> SameForLog(s.conns[id], s'.conns[id])
    ensures LogInv(st, s')
  {
    forall i | 0 <= i < |s'.log| ensures TrueHandoff(st, s', s'.log[i]) && Recorded(s', s'.log[i]) {
      assert TrueHandoff(st, s, s.log[i]) && Recorded(s, s.log[i]);
    }
    forall id | id in s'.conns && s'.conns[id].open ensures Newest(s', id) {
      assert SameForLog(s.conns[id], s'.conns[id]) && Newest(s, id);
    }
  }

  lemma SubscribeKeepsLog<R, K, P>(st: Stream<R, K, P>, s: System<R, K, P>, client: nat)
    requires SysInv(st, s) && LogInv(st, s)
    ensures LogInv(st, Next(st, s, Subscribe(client)))
  {
    var s' := Next(st, s, Subscribe(client));
    if Enabled(st, s, Subscribe(client)) {
      forall i | 0 <= i < |s'.log| ensures TrueHandoff(st, s', s'.log[i]) && Recorded(s', s'.log[i]) {
        assert TrueHandoff(st, s, s.log[i]) && Recorded(s, s.log[i]);
      }
      forall id | id in s'.conns && s'.conns[id].open ensures Newest(s', id) {
        if id != s.server.nextId {
          assert Newest(s, id);
        } else {
          forall i | 0 <= i < |s'.log| ensures s'.log[i].version <= s'.conns[id].seen + 1 {
            assert TrueHandoff(st, s, s.log[i]);
          }
        }
      }
    }
  }

  /** The setter call made by a receive is true and later than all of the client's others. */
  lemma RecvHandoff<R, K, P>(st: Stream<R, K, P>, s: System<R, K, P>, id: nat, flat: seq<R>)
    requires SysInv(st, s) && LogInv(st, s) && Enabled(st, s, Recv(id, flat))
    ensures var s' := Next(st, s, Recv(id, flat));
            && |s'.log| == |s.log| + 1 && s'.log[..|s.log|] == s.log
            && var e := s'.log[|s.log|];
            && e.conn == id && e.client == s.conns[id].client && e.version == s'.conns[id].seen
            && TrueHandoff(st, s', e) && s'.conns[id].snap >= 0 && s.conns[id].seen < e.version
            && forall i :: 0 <= i < |s.log| && s.log[i].client == e.client ==>
                 s.log[i].version <= e.version && (s.log[i].conn == id ==> s.log[i].version < e.version)
  {
    var s' := Next(st, s, Recv(id, flat));
    RecvKeepsInv(st, s, id, flat);
    assert ConnAt(st, s', id);
    assert Newest(s, id);
    var e := s'.log[|s.log|];
    forall i | 0 <= i < |s.log| && s.log[i].client == e.client
      ensures s.log[i].version <= e.version && (s.log[i].conn == id ==> s.log[i].version < e.version)
    {
      assert Recorded(s, s.log[i]);
    }
  }

  lemma RecvKeepsLog<R, K, P>(st: Stream<R, K, P>, s: System<R, K, P>, id: nat, flat: seq<R>)
    requires SysInv(st, s) && LogInv(st, s)
    ensures LogInv(st, Next(st, s, Recv(id, flat)))
  {
    var s' := Next(st, s, Recv(id, flat));
    if Enabled(st, s, Recv(id, flat)) {
      RecvHandoff(st, s, id, flat);
      LogGrows(st, s, s', id);
    }
  }

  lemma LogGrows<R, K, P>(st: Stream<R, K, P>, s: System<R, K, P>, s': System<R, K, P>, id: nat)
    requires LogInv(st, s) && id in s.conns && s.conns[id].open
    requires id in s'.conns && s'.hist == s.hist && s'.conns == s.conns[id := s'.conns[id]] && |s'.log| == |s.log| + 1 && s'.log[..|s.log|] == s.log
    requires s'.conns[id].client == s.conns[id].client && s'.conns[id].snap >= 0 && s.conns[id].seen < s'.conns[id].seen
    requires var e := s'.log[|s.log|];
             && e.conn == id && e.client == s.conns[id].client && e.version == s'.conns[id].seen
             && TrueHandoff(st, s', e)
             && forall i :: 0 <= i < |s.log| && s.log[i].client == e.client ==>
                  s.log[i].version <= e.version && (s.log[i].conn == id ==> s.log[i].version < e.version)
    ensures LogInv(st, s')
  {
    assert Newest(s, id);
    assert forall i :: 0 <= i < |s.log| ==> s'.log[i] == s.log[i];
    forall i | 0 <= i < |s'.log| ensures TrueHandoff(st, s', s'.log[i]) && Recorded(s', s'.log[i]) {
      if i < |s.log| { assert TrueHandoff(st, s, s.log[i]) && Recorded(s, s.log[i]); }
    }
    forall other | other in s'.conns && s'.conns[other].open ensures Newest(s', other) {
      assert Newest(s, other);
    }
  }

  lemma {:induction false} RunKeepsLog<R(!new), K, P>(st: Stream<R, K, P>, run: seq<Step<R>>)
    requires Faithful(st) && SafeRun(st, run)
    ensures LogInv(st, After(st, run))
  {
    if run != [] {
      var s := After(st, run[..|run| - 1]);
      var step := run[|run| - 1];
      RunKeepsLog(st, run[..|run| - 1]);
      RunKeepsInv(st, run[..|run| - 1]);
      match step {
        case Subscribe(client) => SubscribeKeepsLog(st, s, client);
        case Recv(id, flat) => RecvKeepsLog(st, s, id, flat);
        case _ => QuietKeepsLog(st, s, step);
      }
    }
  }

  // ----- main theorems -----

  /** The history is the server's own past: the list the server holds after any prefix of a
      run is what the history records at the version it then has, and versions only grow. */
  lemma {:induction false} HistoryIsThePast<R(!new), K, P>(st: Stream<R, K, P>, run: seq<Step<R>>, n: nat)
    requires n <= |run|
    ensures var past, now := After(st, run[..n]), After(st, run);
            && past.server.version <= now.server.version < |now.hist|
            && now.hist[past.server.version] == past.server.rules
            && now.hist[now.server.version] == now.server.rules
            && |now.hist| == now.server.version + 1
  {
    if n < |run| {
      var before := run[..|run| - 1];
      HistoryIsThePast(st, before, n);
      assert before[..n] == run[..n];
    } else if n > 0 {
      var before := run[..|run| - 1];
      HistoryIsThePast(st, before, |before|);
      assert run[..n] == run && before[..|before|] == before;
    }
  }

  /** In every run with any number of subscribers and any mix of snapshots, upserts and
      removals whose edits are safe: a client that has lost nothing since its last snapshot
      holds exactly the server's key-to-rule view at the version it last applied, and every
      list it handed over in that condition enumerates the view at its version. Setter calls
      advance in version, and queues stay within their capacity. */
  lemma AgreementOnEveryRun<R(!new), K, P>(st: Stream<R, K, P>, run: seq<Step<R>>)
    requires Faithful(st) && SafeRun(st, run)
    ensures var s := After(st, run);
            && (forall id :: id in s.conns && Intact(s.conns[id]) ==>
                  0 <= s.conns[id].seen < |s.hist| && s.conns[id].view == View(st.key, s.hist[s.conns[id].seen]))
            && (forall i :: 0 <= i < |s.log| && s.log[i].intact ==>
                  s.log[i].version < |s.hist| && Enumerates(st.key, View(st.key, s.hist[s.log[i].version]), s.log[i].rules))
            && Ordered(s.log)
            && (forall id :: id in s.server.queues ==> |s.server.queues[id]| <= 64)
  {
    RunKeepsInv(st, run);
    RunKeepsLog(st, run);
    var s := After(st, run);
    forall id | id in s.conns && Intact(s.conns[id])
      ensures 0 <= s.conns[id].seen < |s.hist| && s.conns[id].view == View(st.key, s.hist[s.conns[id].seen])
    {
      assert ConnAt(st, s, id);
    }
    forall id | id in s.server.queues ensures |s.server.queues[id]| <= QUEUE_CAPACITY {
      assert QueueAt(s, id);
    }
    forall i | 0 <= i < |s.log| && s.log[i].intact
      ensures s.log[i].version < |s.hist| && Enumerates(st.key, View(st.key, s.hist[s.log[i].version]), s.log[i].rules)
    {
      assert TrueHandoff(st, s, s.log[i]);
    }
  }

  /** A registered client with nothing left to receive, and nothing lost since its last
      snapshot, holds the server's current view. */
  lemma DrainedIsCurrent<R(!new), K, P>(st: Stream<R, K, P>, run: seq<Step<R>>, id: nat)
    requires Faithful(st) && SafeRun(st, run)
    requires var s := After(st, run);
             && id in s.server.queues && id in s.conns && Pending(s, id) == []
             && forall v: nat :: s.conns[id].snap < v <= s.server.version ==> v !in s.conns[id].lost
    ensures var s := After(st, run);
            s.conns[id].seen == s.server.version && s.conns[id].view == View(st.key, s.server.rules)
  {
    RunKeepsInv(st, run);
    var s := After(st, run);
    var c := s.conns[id];
    assert ConnAt(st, s, id) && QueueAt(s, id);
    assert c.seen < s.server.version ==> s.server.version in c.lost;
    assert Intact(c);
  }

  // ----- runs that only replace -----

  /** The shipped reconcilers only ever replace a whole rule list. */
  predicate OnlyReplaces<R>(run: seq<Step<R>>) {
    forall i :: 0 <= i < |run| && run[i].Publish? ==> run[i].edit.Replace?
  }

  predicate Snapshots<P>(msgs: seq<Msg<P>>) {
    forall i :: 0 <= i < |msgs| ==> msgs[i].update.Snapshot?
  }

  ghost predicate AllSnapshots<R, K, P>(s: System<R, K, P>) {
    && (forall id :: id in s.conns ==>
          && (s.conns[id].snap >= 0 ==> s.conns[id].snap == s.conns[id].seen)
          && Snapshots(s.conns[id].wire) && Snapshots(s.conns[id].hand))
    && (forall id :: id in s.server.queues ==> Snapshots(s.server.queues[id]))
    && (forall i :: 0 <= i < |s.log| ==> s.log[i].intact)
  }

  lemma SnapshotPublish<R, K, P>(st: Stream<R, K, P>, s: System<R, K, P>, rules: seq<R>)
    requires AllSnapshots(s)
    ensures AllSnapshots(Next(st, s, Publish(Replace(rules))))
  {
  }

  lemma SnapshotRecv<R, K, P>(st: Stream<R, K, P>, s: System<R, K, P>, id: nat, flat: seq<R>)
    requires AllSnapshots(s)
    ensures AllSnapshots(Next(st, s, Recv(id, flat)))
  {
  }

  lemma SnapshotStep<R, K, P>(st: Stream<R, K, P>, s: System<R, K, P>, step: Step<R>)
    requires AllSnapshots(s) && (step.Publish? ==> step.edit.Replace?)
    ensures AllSnapshots(Next(st, s, step))
  {
    match step
    case Publish(edit) => SnapshotPublish(st, s, edit.rules);
    case Recv(id, flat) => SnapshotRecv(st, s, id, flat);
    case Subscribe(client) => SnapshotSubscribe(st, s, client);
    case _ => SnapshotMove(st, s, step);
  }

  lemma SnapshotSubscribe<R, K, P>(st: Stream<R, K, P>, s: System<R, K, P>, client: nat)
    requires AllSnapshots(s)
    ensures AllSnapshots(Next(st, s, Subscribe(client)))
  {
  }

  lemma SnapshotMove<R, K, P>(st: Stream<R, K, P>, s: System<R, K, P>, step: Step<R>)
    requires AllSnapshots(s) && (step.Take? || step.Send? || step.Close? || step.Deregister?)
    ensures AllSnapshots(Next(st, s, step))
  {
  }

  lemma {:induction false} RunOnlySnapshots<R, K, P>(st: Stream<R, K, P>, run: seq<Step<R>>)
    requires OnlyReplaces(run)
    ensures AllSnapshots(After(st, run)) && SafeRun(st, run)
  {
    if run != [] {
      RunOnlySnapshots(st, run[..|run| - 1]);
      SnapshotStep(st, After(st, run[..|run| - 1]), run[|run| - 1]);
    }
  }

  /** In runs that only replace, with any queue overflows and whatever keys repeat: every list
      a client hands to its setter enumerates the server's view at a published version,
      versions advance, and a drained client whose latest update was not dropped holds the
      current view. */
  lemma SnapshotRunsFollowTheServer<R(!new), K, P>(st: Stream<R, K, P>, run: seq<Step<R>>)
    requires Faithful(st) && OnlyReplaces(run)
    ensures var s := After(st, run);
            && (forall i :: 0 <= i < |s.log| ==>
                  s.log[i].version < |s.hist| && Enumerates(st.key, View(st.key, s.hist[s.log[i].version]), s.log[i].rules))
            && Ordered(s.log)
            && (forall id :: id in s.server.queues ==> |s.server.queues[id]| <= 64)
            && (forall id :: id in s.server.queues && id in s.conns && Pending(s, id) == [] && s.server.version !in s.conns[id].lost ==>
                  s.conns[id].view == View(st.key, s.server.rules))
  {
    RunOnlySnapshots(st, run);
    AgreementOnEveryRun(st, run);
    RunKeepsInv(st, run);
    var s := After(st, run);
    forall id | id in s.server.queues && id in s.conns && Pending(s, id) == [] && s.server.version !in s.conns[id].lost
      ensures s.conns[id].view == View(st.key, s.server.rules)
    {
      SnapshotDrained(st, s, id);
    }
  }

  lemma SnapshotDrained<R, K, P>(st: Stream<R, K, P>, s: System<R, K, P>, id: nat)
    requires SysInv(st, s) && AllSnapshots(s) && id in s.server.queues && id in s.conns
    requires Pending(s, id) == [] && s.server.version !in s.conns[id].lost
    ensures s.conns[id].view == View(st.key, s.server.rules)
  {
    assert ConnAt(st, s, id) && QueueAt(s, id);
    assert s.conns[id].seen == s.server.version;
    assert Intact(s.conns[id]);
  }
}
