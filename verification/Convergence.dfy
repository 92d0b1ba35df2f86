/** Convergence of the rule distribution protocol: what is published always can reach a
    registered client, and a reconnect repairs any loss. */
module Convergence {
  import opened Rules
  import opened RuleList
  import opened Distribution
  import opened DistributionProofs

  lemma AfterStep<R, K, P>(st: Stream<R, K, P>, run: seq<Step<R>>, step: Step<R>)
    ensures After(st, run + [step]) == Next(st, After(st, run), step)
    ensures !step.Publish? && SafeRun(st, run) ==> SafeRun(st, run + [step])
  {
    var all := run + [step];
    assert all[..|all| - 1] == run;
  }

  ghost predicate KeyedViews<R, K, P>(st: Stream<R, K, P>, s: System<R, K, P>) {
    forall id :: id in s.conns ==> KeyedBy(st.key, s.conns[id].view)
  }

  lemma {:induction false} RemovalsKeepKeyed<R, K, P>(st: Stream<R, K, P>, view: map<K, R>, refs: seq<RuleRef>)
    requires KeyedBy(st.key, view)
    ensures KeyedBy(st.key, ApplyRemovals(st, view, refs))
    decreases refs
  {
    if refs != [] {
      match st.removal {
        case FirstMatch(refKey) => RemovalsKeepKeyed(st, view - {refKey(refs[0])}, refs[1..]);
        case AllMatches(covers) => RemovalsKeepKeyed(st, Without(view, covers(refs[0])), refs[1..]);
      }
    }
  }

  lemma ApplyKeepsKeyed<R, K, P>(st: Stream<R, K, P>, view: map<K, R>, update: Update<P>)
    requires KeyedBy(st.key, view)
    ensures KeyedBy(st.key, ApplyUpdate(st, view, update))
  {
    match update
    case Snapshot(rules) =>
      ViewKeyed(st.key, FromWire(st, rules));
    case Delta(upserted, removed) =>
      ViewKeyed(st.key, FromWire(st, upserted));
      RemovalsKeepKeyed(st, view + View(st.key, FromWire(st, upserted)), removed);
  }

  lemma {:induction false} RunKeepsKeyed<R, K, P>(st: Stream<R, K, P>, run: seq<Step<R>>)
    ensures KeyedViews(st, After(st, run))
  {
    if run != [] {
      var s, step := After(st, run[..|run| - 1]), run[|run| - 1];
      RunKeepsKeyed(st, run[..|run| - 1]);
      if step.Recv? && Enabled(st, s, step) {
        ApplyKeepsKeyed(st, s.conns[step.id].view, s.conns[step.id].wire[0].update);
      }
    }
  }

  /** A connection that is registered at the server and open at the client. */
  ghost predicate Live<R, K, P>(s: System<R, K, P>, id: nat) {
    id in s.server.queues && id in s.conns && s.conns[id].open
  }

  ghost function Backlog<R, K, P>(s: System<R, K, P>, id: nat): nat
    requires Live(s, id)
  {
    3 * |s.server.queues[id]| + 2 * |s.conns[id].hand| + |s.conns[id].wire|
  }

  /** A step that moves a message towards a client. */
  predicate IsDelivery<R>(step: Step<R>) { step.Take? || step.Send? || step.Recv? }

  predicate Deliveries<R>(steps: seq<Step<R>>) {
    forall i :: 0 <= i < |steps| ==> IsDelivery(steps[i])
  }

  lemma OneMoreDelivery<R>(run: seq<Step<R>>, step: Step<R>, rest: seq<Step<R>>)
    requires IsDelivery(step) && Deliveries(rest)
    ensures Deliveries([step] + rest) && run + ([step] + rest) == run + [step] + rest
  {
  }

  /** The step that moves a live connection's oldest message forward. */
  lemma Progress<R, K, P>(st: Stream<R, K, P>, s: System<R, K, P>, id: nat) returns (step: Step<R>)
    requires Live(s, id) && KeyedViews(st, s) && Pending(s, id) != []
    ensures IsDelivery(step) && Enabled(st, s, step)
    ensures var s' := Next(st, s, step);
            && Live(s', id) && Backlog(s', id) < Backlog(s, id)
            && s'.server.rules == s.server.rules && s'.server.version == s.server.version
            && s'.conns[id].lost == s.conns[id].lost && s'.conns[id].client == s.conns[id].client
  {
    var c := s.conns[id];
    if c.wire != [] {
      ApplyKeepsKeyed(st, c.view, c.wire[0].update);
      var flat := EnumerationExists(st.key, Received(st, c, c.wire[0]).view);
      step := Recv(id, flat);
    } else if c.hand != [] {
      step := Send(id);
    } else {
      step := Take(id);
    }
  }

  /** From every reachable state, the pending messages of a live connection can all be
      delivered without any further publication and without losing anything. */
  lemma {:induction false} CanDrain<R(!new), K, P>(st: Stream<R, K, P>, run: seq<Step<R>>, id: nat) returns (more: seq<Step<R>>)
    requires Faithful(st) && SafeRun(st, run) && Live(After(st, run), id)
    ensures SafeRun(st, run + more) && Deliveries(more)
    ensures var s, s' := After(st, run), After(st, run + more);
            && Live(s', id) && Pending(s', id) == []
            && s'.server.rules == s.server.rules && s'.server.version == s.server.version
            && s'.conns[id].lost == s.conns[id].lost && s'.conns[id].client == s.conns[id].client
    decreases Backlog(After(st, run), id)
  {
    var s := After(st, run);
    if Pending(s, id) == [] {
      more := [];
      assert run + more == run;
    } else {
      RunKeepsKeyed(st, run);
      var step := Progress(st, s, id);
      AfterStep(st, run, step);
      var rest := CanDrain(st, run + [step], id);
      more := [step] + rest;
      OneMoreDelivery(run, step, rest);
    }
  }

  /** A reconnect heals: after any run, whatever was dropped, closing a client's connection
      and subscribing again leads to a state in which the client holds the server's current
      view, with no publication in between. */
  lemma ReconnectHeals<R(!new), K, P>(st: Stream<R, K, P>, run: seq<Step<R>>, client: nat)
    returns (more: seq<Step<R>>, id: nat)
    requires Faithful(st) && SafeRun(st, run)
    ensures SafeRun(st, run + more)
    ensures var s, s' := After(st, run), After(st, run + more);
            && Live(s', id) && s'.conns[id].client == client
            && s'.server.rules == s.server.rules && s'.server.version == s.server.version
            && s'.conns[id].view == View(st.key, s.server.rules)
  {
    var closing := CloseAll(st, run, client);
    var closed := run + closing;
    id := FreshSubscription(st, closed, client);
    var subscribed := closed + [Subscribe(client)];
    var rest := CanDrain(st, subscribed, id);
    DrainedIsCurrent(st, subscribed + rest, id);
    more := closing + [Subscribe(client)] + rest;
    Regroup(run, closing, [Subscribe(client)], rest);
  }

  lemma Regroup<R>(a: seq<Step<R>>, b: seq<Step<R>>, c: seq<Step<R>>, d: seq<Step<R>>)
    ensures a + (b + c + d) == a + b + c + d
  {
  }

  /** A new subscription is live and has lost nothing. */
  lemma FreshSubscription<R, K, P>(st: Stream<R, K, P>, run: seq<Step<R>>, client: nat) returns (id: nat)
    requires SafeRun(st, run) && Enabled(st, After(st, run), Subscribe(client))
    ensures SafeRun(st, run + [Subscribe(client)])
    ensures var s, s' := After(st, run), After(st, run + [Subscribe(client)]);
            && Live(s', id) && s'.conns[id].client == client && s'.conns[id].lost == {}
            && s'.server.rules == s.server.rules && s'.server.version == s.server.version
  {
    AfterStep(st, run, Subscribe(client));
    id := After(st, run).server.nextId;
  }

  /** Closing every open connection of a client. */
  lemma {:induction false} CloseAll<R(!new), K, P>(st: Stream<R, K, P>, run: seq<Step<R>>, client: nat) returns (more: seq<Step<R>>)
    requires Faithful(st) && SafeRun(st, run)
    ensures SafeRun(st, run + more) && Enabled(st, After(st, run + more), Subscribe(client))
    ensures After(st, run + more).server == After(st, run).server
  {
    var s := After(st, run);
    if id :| id in s.conns && s.conns[id].open && s.conns[id].client == client {
      AfterStep(st, run, Close(id));
      RunKeepsLog(st, run);
      assert Newest(s, id);
      more := [Close(id)];
    } else {
      more := [];
      assert run + more == run;
    }
  }
}
