/** What a full queue does to a stream of deltas: the client is not told, keeps receiving, and
    stays without the dropped rule. */
module Divergence {
  import opened Rules
  import opened RuleList
  import opened Distribution
  import opened DistributionProofs
  import opened Convergence

  /** The update puts a rule under the key into a client's map. */
  predicate Mentions<R, K(==), P>(st: Stream<R, K, P>, update: Update<P>, k: K) {
    k in View(st.key, FromWire(st, if update.Snapshot? then update.rules else update.upserted))
  }

  /** Neither the client's map nor anything on its way mentions the key. */
  ghost predicate Unaware<R, K, P>(st: Stream<R, K, P>, s: System<R, K, P>, id: nat, k: K) {
    && id in s.conns && k !in s.conns[id].view
    && forall i :: 0 <= i < |Pending(s, id)| ==> !Mentions(st, Pending(s, id)[i].update, k)
  }

  lemma {:induction false} RemovalsAddNothing<R, K, P>(st: Stream<R, K, P>, view: map<K, R>, refs: seq<RuleRef>, k: K)
    requires k !in view
    ensures k !in ApplyRemovals(st, view, refs)
    decreases refs
  {
    if refs != [] {
      match st.removal {
        case FirstMatch(refKey) => RemovalsAddNothing(st, view - {refKey(refs[0])}, refs[1..], k);
        case AllMatches(covers) => RemovalsAddNothing(st, Without(view, covers(refs[0])), refs[1..], k);
      }
    }
  }

  lemma AppliedUnaware<R, K, P>(st: Stream<R, K, P>, view: map<K, R>, update: Update<P>, k: K)
    requires k !in view && !Mentions(st, update, k)
    ensures k !in ApplyUpdate(st, view, update)
  {
    if update.Delta? {
      RemovalsAddNothing(st, view + View(st.key, FromWire(st, update.upserted)), update.removed, k);
    }
  }

  /** Deliveries do not make a client aware of a key. */
  lemma DeliveryUnaware<R, K, P>(st: Stream<R, K, P>, s: System<R, K, P>, step: Step<R>, id: nat, k: K)
    requires Unaware(st, s, id, k) && IsDelivery(step)
    ensures Unaware(st, Next(st, s, step), id, k)
  {
    if Enabled(st, s, step) {
      var s' := Next(st, s, step);
      var c := s.conns[id];
      var queue := if id in s.server.queues then s.server.queues[id] else [];
      if step.id != id {
        assert Pending(s', id) == Pending(s, id);
      } else if step.Take? {
        TakeMoves(c.wire, queue);
        assert Pending(s', id) == Pending(s, id);
      } else if step.Send? {
        SendMoves(c.wire, c.hand, queue);
        assert Pending(s', id) == Pending(s, id);
      } else {
        DropFirst(c.wire, c.hand, queue);
        assert Pending(s', id) == Pending(s, id)[1..];
        assert !Mentions(st, Pending(s, id)[0].update, k);
        AppliedUnaware(st, c.view, c.wire[0].update, k);
      }
    }
  }

  lemma {:induction false} DeliveriesUnaware<R, K, P>(st: Stream<R, K, P>, run: seq<Step<R>>, more: seq<Step<R>>, id: nat, k: K)
    requires Unaware(st, After(st, run), id, k) && Deliveries(more)
    ensures Unaware(st, After(st, run + more), id, k)
    decreases more
  {
    if more == [] {
      assert run + more == run;
    } else {
      var front, last := more[..|more| - 1], more[|more| - 1];
      DeliveriesUnaware(st, run, front, id, k);
      DeliveryUnaware(st, After(st, run + front), last, id, k);
      AfterStep(st, run + front, last);
      assert run + more == run + front + [last];
    }
  }

  /** A publication that does not mention the key, or that finds the queue full, does not
      make the client aware of it. */
  lemma PublishUnaware<R, K, P>(st: Stream<R, K, P>, s: System<R, K, P>, edit: Edit<R>, id: nat, k: K)
    requires Unaware(st, s, id, k) && id in s.server.queues
    requires |s.server.queues[id]| >= QUEUE_CAPACITY || !Mentions(st, EditUpdate(st, edit), k)
    ensures Unaware(st, Next(st, s, Publish(edit)), id, k)
  {
    var s' := Next(st, s, Publish(edit));
    var m := Msg(s.server.version + 1, EditUpdate(st, edit));
    if |s.server.queues[id]| < QUEUE_CAPACITY {
      assert Pending(s', id) == Pending(s, id) + [m];
    } else {
      assert Pending(s', id) == Pending(s, id);
    }
  }

  /** A live client that has not heard of the key, behind a server whose keys are distinct. */
  ghost predicate Setup<R, K, P>(st: Stream<R, K, P>, run: seq<Step<R>>, id: nat, k: K) {
    var s := After(st, run);
    SafeRun(st, run) && Live(s, id) && Distinct(st.key, s.server.rules) && Unaware(st, s, id, k)
  }

  /** One more upsert, and what it does to the server's view and the client's queue. */
  lemma UpsertSetup<R(!new), K, P>(st: Stream<R, K, P>, run: seq<Step<R>>, id: nat, k: K, rule: R)
    requires Faithful(st) && Setup(st, run, id, k)
    requires st.key(rule) != k || |After(st, run).server.queues[id]| == QUEUE_CAPACITY
    ensures var s, s' := After(st, run), After(st, run + [Publish(Upsert(rule))]);
            && Setup(st, run + [Publish(Upsert(rule))], id, k)
            && s'.server.version == s.server.version + 1
            && View(st.key, s'.server.rules) == View(st.key, s.server.rules)[st.key(rule) := rule]
            && |s'.server.queues[id]| == (if |s.server.queues[id]| < QUEUE_CAPACITY then |s.server.queues[id]| + 1 else |s.server.queues[id]|)
            && s'.conns[id].lost == (if |s.server.queues[id]| < QUEUE_CAPACITY then s.conns[id].lost else s.conns[id].lost + {s'.server.version})
  {
    var s, step := After(st, run), Publish(Upsert(rule));
    AfterStep(st, run, step);
    DistinctEditsAreSafe(st, s.server.rules, Upsert(rule));
    UpsertIsMapUpdateIff(st.key, s.server.rules, rule);
    WireIdentity(st, [rule]);
    assert View(st.key, [rule]) == map[st.key(rule) := rule];
    PublishUnaware(st, s, Upsert(rule), id, k);
    assert (run + [step])[..|run|] == run;
  }

  /** Upserting one rule over and over fills the queue. */
  lemma {:induction false} FillQueue<R(!new), K, P>(st: Stream<R, K, P>, run: seq<Step<R>>, id: nat, k: K, rule: R) returns (full: seq<Step<R>>)
    requires Faithful(st) && Setup(st, run, id, k) && st.key(rule) != k && After(st, run).conns[id].lost == {}
    ensures var s := After(st, full);
            Setup(st, full, id, k) && |s.server.queues[id]| == QUEUE_CAPACITY && s.conns[id].lost == {}
    decreases QUEUE_CAPACITY - |After(st, run).server.queues[id]|
  {
    RunKeepsInv(st, run);
    assert QueueAt(After(st, run), id);
    if |After(st, run).server.queues[id]| == QUEUE_CAPACITY {
      full := run;
    } else {
      UpsertSetup(st, run, id, k, rule);
      full := FillQueue(st, run + [Publish(Upsert(rule))], id, k, rule);
    }
  }

  /** Delivering everything keeps the client unaware. */
  lemma DrainSetup<R(!new), K, P>(st: Stream<R, K, P>, run: seq<Step<R>>, id: nat, k: K) returns (drained: seq<Step<R>>)
    requires Faithful(st) && Setup(st, run, id, k)
    ensures var s, s' := After(st, run), After(st, drained);
            && Setup(st, drained, id, k) && Pending(s', id) == []
            && s'.server.rules == s.server.rules && s'.server.version == s.server.version && s'.conns[id].lost == s.conns[id].lost
  {
    var more := CanDrain(st, run, id);
    DeliveriesUnaware(st, run, more, id, k);
    drained := run + more;
  }

  lemma FirstClient<R(!new), K, P>(st: Stream<R, K, P>, k: K) returns (run: seq<Step<R>>)
    requires Faithful(st)
    ensures Setup(st, run, 0, k) && After(st, run).conns[0].lost == {}
  {
    run := [Subscribe(0)];
    assert run == [] + [Subscribe(0)];
    AfterStep(st, [], Subscribe(0));
    var s := After(st, run);
    assert Pending(s, 0) == [CurrentSnapshot(st, Init<R, K, P>().server)];
    assert FromWire(st, ToWire(st, [])) == [];
  }

  /** After any run, an edit that is published reaches a registered client, that is, its message is
      on its way, exactly when the client's queue has room; otherwise its version is lost. */
  lemma BroadcastReachesIff<R(!new), K, P>(st: Stream<R, K, P>, run: seq<Step<R>>, edit: Edit<R>, id: nat)
    requires Faithful(st) && SafeRun(st, run) && id in After(st, run).server.queues && id in After(st, run).conns
    ensures var s, s' := After(st, run), Next(st, After(st, run), Publish(edit));
            var m := Msg(s'.server.version, EditUpdate(st, edit));
            && id in s'.conns
            && (m in Pending(s', id) <==> |s.server.queues[id]| < 64)
            && (m !in Pending(s', id) ==> m.version in s'.conns[id].lost)
  {
    var s := After(st, run);
    RunKeepsInv(st, run);
    assert ConnAt(st, s, id) && QueueAt(s, id);
    PublishEffect(st, s, edit);
    var s', m := Next(st, s, Publish(edit)), Msg(s.server.version + 1, EditUpdate(st, edit));
    if |s.server.queues[id]| < QUEUE_CAPACITY {
      assert Pending(s', id) == Pending(s, id) + [m];
    } else {
      assert Pending(s', id) == Pending(s, id);
      forall i | 0 <= i < |Pending(s, id)| ensures Pending(s, id)[i] != m {
        ChainAbove(s.conns[id].seen, Pending(s, id), s.conns[id].upto, s.conns[id].lost, i);
      }
    }
  }

  /** Not every delta reaches every connected client: for any two rules under different keys
      there is a run, all of its edits safe, after which a live client has received everything
      there is to receive, up to the server's newest version, and lacks a rule the server
      holds. */
  lemma DroppedDeltaDiverges<R(!new), K, P>(st: Stream<R, K, P>, kept: R, dropped: R) returns (run: seq<Step<R>>, id: nat)
    requires Faithful(st) && st.key(kept) != st.key(dropped)
    ensures SafeRun(st, run)
    ensures var s := After(st, run);
            && Live(s, id) && Pending(s, id) == [] && s.conns[id].seen == s.server.version
            && st.key(dropped) in View(st.key, s.server.rules) && st.key(dropped) !in s.conns[id].view
  {
    var k := st.key(dropped);
    id := 0;
    var first := FirstClient(st, k);
    var full := FillQueue(st, first, id, k, kept);
    UpsertSetup(st, full, id, k, dropped);
    var read := DrainSetup(st, full + [Publish(Upsert(dropped))], id, k);
    UpsertSetup(st, read, id, k, kept);
    run := DrainSetup(st, read + [Publish(Upsert(kept))], id, k);
    RunKeepsInv(st, run);
    UpToDate(st, After(st, run), id);
  }

  lemma UpToDate<R, K, P>(st: Stream<R, K, P>, s: System<R, K, P>, id: nat)
    requires SysInv(st, s) && id in s.server.queues && id in s.conns && Pending(s, id) == [] && s.server.version !in s.conns[id].lost
    ensures s.conns[id].seen == s.server.version
  {
    assert ConnAt(st, s, id) && QueueAt(s, id);
  }
}
