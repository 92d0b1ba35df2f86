/** Agreement key by key: what a client that lost deltas still knows. */
module KeyAgreement {
  import opened Wrappers
  import opened Rules
  import opened RuleList
  import opened Distribution
  import opened DistributionProofs

  function At<R, K(==)>(m: map<K, R>, k: K): Option<R> {
    if k in m then Some(m[k]) else None
  }

  predicate Removes<R, K(==), P>(st: Stream<R, K, P>, ref: RuleRef, k: K) {
    match st.removal
    case FirstMatch(refKey) => refKey(ref) == k
    case AllMatches(covers) => covers(ref)(k)
  }

  predicate RemovesAny<R, K(==), P>(st: Stream<R, K, P>, refs: seq<RuleRef>, k: K) {
    exists i :: 0 <= i < |refs| && Removes(st, refs[i], k)
  }

  /** The update decides what a client holds under the key. */
  predicate Touches<R, K(==), P>(st: Stream<R, K, P>, update: Update<P>, k: K) {
    match update
    case Snapshot(_) => true
    case Delta(upserted, removed) => k in View(st.key, FromWire(st, upserted)) || RemovesAny(st, removed, k)
  }

  lemma {:induction false} RemovalsAt<R, K, P>(st: Stream<R, K, P>, view: map<K, R>, refs: seq<RuleRef>, k: K)
    ensures At(ApplyRemovals(st, view, refs), k) == if RemovesAny(st, refs, k) then None else At(view, k)
    decreases refs
  {
    if refs != [] {
      var first := match st.removal
        case FirstMatch(refKey) => view - {refKey(refs[0])}
        case AllMatches(covers) => Without(view, covers(refs[0]));
      RemovalsAt(st, first, refs[1..], k);
      assert At(first, k) == if Removes(st, refs[0], k) then None else At(view, k);
      RemovesAnyStep(st, refs, k);
    }
  }

  lemma RemovesAnyStep<R, K, P>(st: Stream<R, K, P>, refs: seq<RuleRef>, k: K)
    requires refs != []
    ensures RemovesAny(st, refs, k) <==> Removes(st, refs[0], k) || RemovesAny(st, refs[1..], k)
  {
    assert forall i :: 1 <= i < |refs| ==> refs[i] == refs[1..][i - 1];
    if i :| 0 <= i < |refs[1..]| && Removes(st, refs[1..][i], k) {
      assert Removes(st, refs[i + 1], k);
    }
  }

  /** An update sets a key it touches and keeps any other. */
  lemma AppliedAt<R, K, P>(st: Stream<R, K, P>, a: map<K, R>, b: map<K, R>, update: Update<P>, k: K)
    ensures Touches(st, update, k) ==> At(ApplyUpdate(st, a, update), k) == At(ApplyUpdate(st, b, update), k)
    ensures !Touches(st, update, k) ==> At(ApplyUpdate(st, a, update), k) == At(a, k)
  {
    if update.Delta? {
      var more := View(st.key, FromWire(st, update.upserted));
      RemovalsAt(st, a + more, update.removed, k);
      RemovalsAt(st, b + more, update.removed, k);
    }
  }

  // ----- what a connection knows about one key -----

  /** A later update that touches the key was received. */
  ghost predicate Overtaken<R, K, P>(st: Stream<R, K, P>, sent: seq<Update<P>>, c: Conn<R, K, P>, v: nat, k: K) {
    exists w: nat :: v < w <= c.seen && w < |sent| && w !in c.lost && Touches(st, sent[w], k)
  }

  /** Since the last snapshot applied, the last update that touches the key was received, or
      there was none: every lost one has been overtaken. */
  ghost predicate KeyCurrent<R, K, P>(st: Stream<R, K, P>, sent: seq<Update<P>>, c: Conn<R, K, P>, k: K) {
    && c.snap >= 0
    && forall v: nat :: c.snap < v <= c.seen && v < |sent| && v in c.lost && Touches(st, sent[v], k) ==> Overtaken(st, sent, c, v, k)
  }

  ghost predicate KeyOk<R, K, P>(st: Stream<R, K, P>, hist: seq<seq<R>>, sent: seq<Update<P>>, c: Conn<R, K, P>, k: K) {
    KeyCurrent(st, sent, c, k) ==> 0 <= c.seen < |hist| && At(c.view, k) == At(View(st.key, hist[c.seen]), k)
  }

  /** Every delta on its way is the one that was broadcast for its version. */
  ghost predicate AsSent<P>(sent: seq<Update<P>>, pending: seq<Msg<P>>) {
    forall i :: 0 <= i < |pending| && pending[i].update.Delta? ==> pending[i].version < |sent| && sent[pending[i].version] == pending[i].update
  }

  ghost predicate SentInv<R, K, P>(st: Stream<R, K, P>, hist: seq<seq<R>>, sent: seq<Update<P>>) {
    |sent| == |hist| && forall v :: 1 <= v < |hist| ==> Truthful(st, hist, Msg(v, sent[v]))
  }

  ghost predicate KeyAt<R, K, P>(st: Stream<R, K, P>, s: System<R, K, P>, id: nat, k: K)
    requires id in s.conns
  {
    KeyOk(st, s.hist, s.sent, s.conns[id], k) && AsSent(s.sent, Pending(s, id))
  }

  ghost predicate KeyInv<R, K, P>(st: Stream<R, K, P>, s: System<R, K, P>, k: K) {
    forall id :: id in s.conns ==> KeyAt(st, s, id, k)
  }

  /** Only losses after the version seen, and more history, leave a connection as it was. */
  lemma SameKey<R, K, P>(st: Stream<R, K, P>, hist: seq<seq<R>>, sent: seq<Update<P>>, hist': seq<seq<R>>, sent': seq<Update<P>>,
                         c: Conn<R, K, P>, c': Conn<R, K, P>, k: K)
    requires KeyOk(st, hist, sent, c, k) && hist <= hist' && sent <= sent' && c.seen < |sent|
    requires c'.view == c.view && c'.seen == c.seen && c'.snap == c.snap
    requires forall v: nat :: v <= c.seen ==> (v in c.lost <==> v in c'.lost)
    ensures KeyOk(st, hist', sent', c', k)
  {
    if KeyCurrent(st, sent', c', k) {
      forall v: nat | c.snap < v <= c.seen && v < |sent| && v in c.lost && Touches(st, sent[v], k) ensures Overtaken(st, sent, c, v, k) {
        assert Overtaken(st, sent', c', v, k);
        var w: nat :| v < w <= c'.seen && w < |sent'| && w !in c'.lost && Touches(st, sent'[w], k);
        assert w !in c.lost && sent[w] == sent'[w];
      }
      assert KeyCurrent(st, sent, c, k);
    }
  }

  /** The server's view under a key does not change over versions that do not touch it. */
  lemma {:induction false} QuietVersions<R, K, P>(st: Stream<R, K, P>, hist: seq<seq<R>>, sent: seq<Update<P>>, lo: nat, hi: nat, k: K)
    requires SentInv(st, hist, sent) && lo <= hi < |hist|
    requires forall v: nat :: lo < v <= hi ==> !Touches(st, sent[v], k)
    ensures At(View(st.key, hist[lo]), k) == At(View(st.key, hist[hi]), k)
    decreases hi
  {
    if lo < hi {
      QuietVersions(st, hist, sent, lo, hi - 1, k);
      assert Truthful(st, hist, Msg(hi, sent[hi])) && !Touches(st, sent[hi], k);
      AppliedAt(st, View(st.key, hist[hi - 1]), View(st.key, hist[hi - 1]), sent[hi], k);
    }
  }

  /** A delta that does not touch the key: the connection was current on it before, and nothing
      lost in between touches it. */
  lemma UntouchedReceive<R, K, P>(st: Stream<R, K, P>, hist: seq<seq<R>>, sent: seq<Update<P>>, c: Conn<R, K, P>, m: Msg<P>, k: K)
    requires SentInv(st, hist, sent) && c.wire != [] && -1 <= c.snap <= c.seen < m.version < |hist| && AllLost(c.seen, m.version - 1, c.lost)
    requires m.update.Delta? && sent[m.version] == m.update && !Touches(st, m.update, k)
    requires KeyCurrent(st, sent, Received(st, c, m), k)
    ensures KeyCurrent(st, sent, c, k)
    ensures forall v: nat :: c.seen < v <= m.version ==> !Touches(st, sent[v], k)
  {
    var c' := Received(st, c, m);
    forall v: nat | c.snap < v <= m.version && v in c.lost && Touches(st, sent[v], k) ensures v <= c.seen && Overtaken(st, sent, c, v, k) {
      assert Overtaken(st, sent, c', v, k);
      var w: nat :| v < w <= c'.seen && w < |sent| && w !in c'.lost && Touches(st, sent[w], k);
      assert w != m.version && w <= c.seen;
    }
    forall v: nat | c.seen < v <= m.version ensures !Touches(st, sent[v], k) {
      if v < m.version { assert v in c.lost; }
    }
  }

  lemma ReceivedKey<R, K, P>(st: Stream<R, K, P>, hist: seq<seq<R>>, sent: seq<Update<P>>, c: Conn<R, K, P>, m: Msg<P>, k: K)
    requires SentInv(st, hist, sent) && KeyOk(st, hist, sent, c, k) && c.wire != []
    requires -1 <= c.snap <= c.seen < m.version < |hist| && AllLost(c.seen, m.version - 1, c.lost) && Truthful(st, hist, m)
    requires m.update.Delta? ==> sent[m.version] == m.update
    ensures KeyOk(st, hist, sent, Received(st, c, m), k)
  {
    var c' := Received(st, c, m);
    if KeyCurrent(st, sent, c', k) && m.update.Delta? {
      AppliedAt(st, c.view, View(st.key, hist[m.version - 1]), m.update, k);
      if !Touches(st, m.update, k) {
        UntouchedReceive(st, hist, sent, c, m, k);
        QuietVersions(st, hist, sent, c.seen, m.version, k);
      }
    }
  }

  // ----- steps -----

  lemma RecvKeepsKey<R, K, P>(st: Stream<R, K, P>, s: System<R, K, P>, s': System<R, K, P>, id: nat, k: K)
    requires SysInv(st, s) && SentInv(st, s.hist, s.sent) && KeyInv(st, s, k) && id in s.conns && s.conns[id].wire != []
    requires s'.hist == s.hist && s'.sent == s.sent && s'.server == s.server
    requires s'.conns == s.conns[id := Received(st, s.conns[id], s.conns[id].wire[0])]
    ensures KeyAt(st, s', id, k)
  {
    var c := s.conns[id];
    assert ConnAt(st, s, id) && KeyAt(st, s, id, k);
    var queue := if id in s.server.queues then s.server.queues[id] else [];
    DropFirst(c.wire, c.hand, queue);
    assert Pending(s, id)[0] == c.wire[0] && Pending(s', id) == Pending(s, id)[1..];
    ReceivedKey(st, s.hist, s.sent, c, c.wire[0], k);
  }

  lemma DeregisterKeepsKey<R, K, P>(st: Stream<R, K, P>, s: System<R, K, P>, s': System<R, K, P>, id: nat, k: K)
    requires SysInv(st, s) && KeyInv(st, s, k) && |s.sent| == |s.hist| && id in s.conns && id in s.server.queues && id in s'.conns
    requires s'.hist == s.hist && s'.sent == s.sent && id !in s'.server.queues
    requires var c := s.conns[id];
             s'.conns[id] == c.(hand := [], lost := c.lost + VersionsOf(c.hand) + VersionsOf(s.server.queues[id]))
    ensures KeyAt(st, s', id, k)
  {
    var c := s.conns[id];
    var pending := Pending(s, id);
    assert ConnAt(st, s, id) && KeyAt(st, s, id, k);
    forall v | v in VersionsOf(c.hand) || v in VersionsOf(s.server.queues[id]) ensures v > c.seen {
      var i := PendingIndex(c.wire, c.hand, s.server.queues[id], v);
      ChainAbove(c.seen, pending, c.upto, c.lost, i);
    }
    SameKey(st, s.hist, s.sent, s'.hist, s'.sent, c, s'.conns[id], k);
    assert forall i :: 0 <= i < |c.wire| ==> c.wire[i] == pending[i];
    assert Pending(s', id) == c.wire;
  }

  lemma PendingIndex<P>(wire: seq<Msg<P>>, hand: seq<Msg<P>>, queue: seq<Msg<P>>, v: nat) returns (i: nat)
    requires v in VersionsOf(hand) || v in VersionsOf(queue)
    ensures i < |wire + hand + queue| && (wire + hand + queue)[i].version == v
  {
    if v in VersionsOf(hand) {
      var j :| 0 <= j < |hand| && hand[j].version == v;
      i := |wire| + j;
    } else {
      var j :| 0 <= j < |queue| && queue[j].version == v;
      i := |wire| + |hand| + j;
    }
  }

  lemma AsSentGrows<P>(sent: seq<Update<P>>, pending: seq<Msg<P>>, m: Msg<P>)
    requires AsSent(sent, pending) && m.version == |sent|
    ensures AsSent(sent + [m.update], pending) && AsSent(sent + [m.update], pending + [m])
  {
  }

  lemma PublishKeepsKey<R, K, P>(st: Stream<R, K, P>, s: System<R, K, P>, s': System<R, K, P>, rules: seq<R>, m: Msg<P>, id: nat, k: K)
    requires SysInv(st, s) && |s.sent| == |s.hist| && Publishes(s, s', rules, m) && id in s.conns && KeyAt(st, s, id, k)
    ensures KeyAt(st, s', id, k)
  {
    assert ConnAt(st, s, id);
    SameKey(st, s.hist, s.sent, s'.hist, s'.sent, s.conns[id], s'.conns[id], k);
    AsSentGrows(s.sent, Pending(s, id), m);
    if id in s.server.queues && |s.server.queues[id]| < QUEUE_CAPACITY {
      assert Pending(s', id) == Pending(s, id) + [m];
    } else {
      assert Pending(s', id) == Pending(s, id);
    }
  }

  /** Where a message sits does not matter. */
  lemma MoveKeepsKey<R, K, P>(st: Stream<R, K, P>, s: System<R, K, P>, s': System<R, K, P>, id: nat, k: K)
    requires SysInv(st, s) && KeyInv(st, s, k) && |s.sent| == |s.hist| && id in s.conns && id in s'.conns
    requires s'.hist == s.hist && s'.sent == s.sent && Pending(s', id) == Pending(s, id)
    requires s'.conns[id] == s.conns[id].(wire := s'.conns[id].wire, hand := s'.conns[id].hand, open := s'.conns[id].open)
    ensures KeyAt(st, s', id, k)
  {
    assert ConnAt(st, s, id) && KeyAt(st, s, id, k);
    SameKey(st, s.hist, s.sent, s'.hist, s'.sent, s.conns[id], s'.conns[id], k);
  }

  lemma PublishedKeepsKey<R, K, P>(st: Stream<R, K, P>, s: System<R, K, P>, s': System<R, K, P>, rules: seq<R>, m: Msg<P>, k: K)
    requires SysInv(st, s) && KeyInv(st, s, k) && |s.sent| == |s.hist| && Publishes(s, s', rules, m)
    ensures KeyInv(st, s', k)
  {
    forall id | id in s'.conns ensures KeyAt(st, s', id, k) {
      PublishKeepsKey(st, s, s', rules, m, id, k);
    }
  }

  lemma PublishStepKeepsKey<R, K, P>(st: Stream<R, K, P>, s: System<R, K, P>, edit: Edit<R>, k: K)
    requires SysInv(st, s) && KeyInv(st, s, k) && |s.sent| == |s.hist|
    ensures KeyInv(st, Next(st, s, Publish(edit)), k)
  {
    PublishEffect(st, s, edit);
    PublishedKeepsKey(st, s, Next(st, s, Publish(edit)), EditRules(st, s.server.rules, edit), Msg(s.server.version + 1, EditUpdate(st, edit)), k);
  }

  lemma SubscribeKeepsKey<R, K, P>(st: Stream<R, K, P>, s: System<R, K, P>, client: nat, k: K)
    requires SysInv(st, s) && KeyInv(st, s, k) && |s.sent| == |s.hist| && Enabled(st, s, Subscribe(client))
    ensures KeyInv(st, Next(st, s, Subscribe(client)), k)
  {
    var s' := Next(st, s, Subscribe(client));
    forall id | id in s'.conns ensures KeyAt(st, s', id, k) {
      if id == s.server.nextId {
        assert Pending(s', id) == [CurrentSnapshot(st, s.server)];
      } else {
        assert Pending(s', id) == Pending(s, id);
        MoveKeepsKey(st, s, s', id, k);
      }
    }
  }

  /** A step of one connection, whose own knowledge is kept, keeps everybody's. */
  lemma OneStepKeepsKey<R, K, P>(st: Stream<R, K, P>, s: System<R, K, P>, s': System<R, K, P>, id: nat, k: K)
    requires SysInv(st, s) && KeyInv(st, s, k) && |s.sent| == |s.hist| && id in s.conns && id in s'.conns && KeyAt(st, s', id, k)
    requires s'.hist == s.hist && s'.sent == s.sent && s'.conns == s.conns[id := s'.conns[id]]
    requires forall other :: other != id ==> (other in s.server.queues <==> other in s'.server.queues)
    requires forall other :: other in s.server.queues && other != id ==> s'.server.queues[other] == s.server.queues[other]
    ensures KeyInv(st, s', k)
  {
    forall other | other in s'.conns ensures KeyAt(st, s', other, k) {
      if other != id {
        assert Pending(s', other) == Pending(s, other);
        MoveKeepsKey(st, s, s', other, k);
      }
    }
  }

  lemma MovesKeepKey<R, K, P>(st: Stream<R, K, P>, s: System<R, K, P>, step: Step<R>, k: K)
    requires SysInv(st, s) && KeyInv(st, s, k) && |s.sent| == |s.hist| && (step.Take? || step.Send? || step.Close?) && Enabled(st, s, step)
    ensures KeyInv(st, Next(st, s, step), k)
  {
    var s', c := Next(st, s, step), s.conns[step.id];
    if step.Take? {
      TakeMoves(c.wire, s.server.queues[step.id]);
    } else if step.Send? {
      SendMoves(c.wire, c.hand, s.server.queues[step.id]);
    }
    MoveKeepsKey(st, s, s', step.id, k);
    OneStepKeepsKey(st, s, s', step.id, k);
  }

  lemma StepKeepsKey<R, K, P>(st: Stream<R, K, P>, s: System<R, K, P>, step: Step<R>, k: K)
    requires SysInv(st, s) && SentInv(st, s.hist, s.sent) && KeyInv(st, s, k)
    ensures KeyInv(st, Next(st, s, step), k)
  {
    var s' := Next(st, s, step);
    if Enabled(st, s, step) {
      match step {
        case Publish(edit) => PublishStepKeepsKey(st, s, edit, k);
        case Subscribe(client) => SubscribeKeepsKey(st, s, client, k);
        case Recv(id, _) =>
          RecvKeepsKey(st, s, s', id, k);
          OneStepKeepsKey(st, s, s', id, k);
        case Deregister(id) =>
          DeregisterKeepsKey(st, s, s', id, k);
          OneStepKeepsKey(st, s, s', id, k);
        case _ => MovesKeepKey(st, s, step, k);
      }
    }
  }

  // ----- runs -----

  lemma SentGrows<R, K, P>(st: Stream<R, K, P>, hist: seq<seq<R>>, sent: seq<Update<P>>, rules: seq<R>, update: Update<P>)
    requires SentInv(st, hist, sent) && Truthful(st, hist + [rules], Msg(|hist|, update))
    ensures SentInv(st, hist + [rules], sent + [update])
  {
    var hist', sent' := hist + [rules], sent + [update];
    forall v | 1 <= v < |hist'| ensures Truthful(st, hist', Msg(v, sent'[v])) {
      if v < |hist| { assert Truthful(st, hist, Msg(v, sent[v])); }
    }
  }

  lemma SameSent<R, K, P>(st: Stream<R, K, P>, s: System<R, K, P>, step: Step<R>)
    requires !step.Publish?
    ensures Next(st, s, step).hist == s.hist && Next(st, s, step).sent == s.sent
  {
  }

  /** The updates recorded are what the server broadcast, and true of their versions. */
  lemma {:induction false} RunKeepsSent<R(!new), K, P>(st: Stream<R, K, P>, run: seq<Step<R>>)
    requires Faithful(st) && SafeRun(st, run)
    ensures SentInv(st, After(st, run).hist, After(st, run).sent)
  {
    if run != [] {
      var s, step := After(st, run[..|run| - 1]), run[|run| - 1];
      RunKeepsSent(st, run[..|run| - 1]);
      if step.Publish? {
        RunKeepsInv(st, run[..|run| - 1]);
        PublishKeepsSent(st, s, Next(st, s, step), step.edit);
      } else {
        SameSent(st, s, step);
      }
    }
  }

  lemma PublishKeepsSent<R(!new), K, P>(st: Stream<R, K, P>, s: System<R, K, P>, s': System<R, K, P>, edit: Edit<R>)
    requires Faithful(st) && SysInv(st, s) && SafeEdit(st, s.server.rules, edit) && s' == Next(st, s, Publish(edit))
    requires SentInv(st, s.hist, s.sent)
    ensures SentInv(st, s'.hist, s'.sent)
  {
    PublishEffect(st, s, edit);
    EditIsTruthful(st, s.hist, edit);
    SentGrows(st, s.hist, s.sent, EditRules(st, s.server.rules, edit), EditUpdate(st, edit));
  }

  lemma {:induction false} RunKeepsKey<R(!new), K, P>(st: Stream<R, K, P>, run: seq<Step<R>>, k: K)
    requires Faithful(st) && SafeRun(st, run)
    ensures KeyInv(st, After(st, run), k)
  {
    if run != [] {
      RunKeepsKey(st, run[..|run| - 1], k);
      RunKeepsInv(st, run[..|run| - 1]);
      RunKeepsSent(st, run[..|run| - 1]);
      StepKeepsKey(st, After(st, run[..|run| - 1]), run[|run| - 1], k);
    }
  }

  // ----- main theorem -----

  /** In every run with safe edits, whatever a connection lost: a client that has applied a
      snapshot holds under a key what the server held at the version the client last applied,
      provided that the last update since the snapshot that touches the key was received. A
      connection that lost nothing is current on every key. */
  lemma AgreementPerKey<R(!new), K, P>(st: Stream<R, K, P>, run: seq<Step<R>>, id: nat, k: K)
    requires Faithful(st) && SafeRun(st, run) && id in After(st, run).conns
    ensures var s := After(st, run);
            var c := s.conns[id];
            && (KeyCurrent(st, s.sent, c, k) ==> 0 <= c.seen < |s.hist| && At(c.view, k) == At(View(st.key, s.hist[c.seen]), k))
            && (Intact(c) ==> KeyCurrent(st, s.sent, c, k))
  {
    RunKeepsKey(st, run, k);
    assert KeyAt(st, After(st, run), id, k);
  }
}
