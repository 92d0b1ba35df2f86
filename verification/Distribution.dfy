/** The rule distribution protocol: one rule server, any number of subscribers with bounded
    queues, reliable FIFO transports, and stream clients that rebuild a keyed map and hand a
    list of its entries to a setter. One instance of the protocol models one of the three
    rule kinds; `Stream` says what is particular to a kind. */
module Distribution {
  import opened Rules
  import opened RuleList

  /** Capacity of a subscriber's queue. */
  const QUEUE_CAPACITY: nat := 64

  /** How a removal reference selects rules: the first rule under one key (generation and
      verification rules), or every rule whose key the reference covers (issuance rules). */
  datatype Removal<!K> = FirstMatch(refKey: RuleRef -> K) | AllMatches(covers: RuleRef -> K -> bool)

  /** What distinguishes the three rule kinds: key, wire form and removal. */
  datatype Stream<!R, !K, !P> = Stream(key: R -> K, toWire: R -> P, fromWire: P -> R, removal: Removal<K>)

  /** Rules survive the wire. */
  ghost predicate Faithful<R(!new), K, P>(st: Stream<R, K, P>) {
    forall r :: st.fromWire(st.toWire(r)) == r
  }

  datatype Update<+P> = Snapshot(rules: seq<P>) | Delta(upserted: seq<P>, removed: seq<RuleRef>)

  datatype Msg<+P> = Msg(version: nat, update: Update<P>)

  /** A call on the rule server that changes its rules. */
  datatype Edit<+R> = Replace(rules: seq<R>) | Upsert(rule: R) | Remove(ref: RuleRef)

  // ----- server -----

  /** `queues` holds one bounded queue per registered subscriber. */
  datatype Server<R, P> = Server(rules: seq<R>, version: nat, queues: map<nat, seq<Msg<P>>>, nextId: nat)

  function ToWire<R, K, P>(st: Stream<R, K, P>, rules: seq<R>): seq<P> {
    seq(|rules|, i requires 0 <= i < |rules| => st.toWire(rules[i]))
  }

  function FromWire<R, K, P>(st: Stream<R, K, P>, rules: seq<P>): seq<R> {
    seq(|rules|, i requires 0 <= i < |rules| => st.fromWire(rules[i]))
  }

  /** The server's rule list after an edit. */
  function EditRules<R, K(==), P>(st: Stream<R, K, P>, rules: seq<R>, edit: Edit<R>): seq<R> {
    match edit
    case Replace(all) => all
    case Upsert(rule) => UpsertFirst(st.key, rules, rule)
    case Remove(ref) =>
      match st.removal
      case FirstMatch(refKey) => RemoveFirst(st.key, rules, refKey(ref))
      case AllMatches(covers) => FilterOut(st.key, rules, covers(ref))
  }

  /** What the server sends for an edit: a full snapshot for a replacement, a delta otherwise. */
  function EditUpdate<R, K, P>(st: Stream<R, K, P>, edit: Edit<R>): Update<P> {
    match edit
    case Replace(all) => Snapshot(ToWire(st, all))
    case Upsert(rule) => Delta(ToWire(st, [rule]), [])
    case Remove(ref) => Delta([], [ref])
  }

  /** A non-blocking send: a full queue drops the message. */
  function Offer<P>(queue: seq<Msg<P>>, msg: Msg<P>): seq<Msg<P>> {
    if |queue| < QUEUE_CAPACITY then queue + [msg] else queue
  }

  function Broadcast<P>(queues: map<nat, seq<Msg<P>>>, msg: Msg<P>): map<nat, seq<Msg<P>>> {
    map id | id in queues :: Offer(queues[id], msg)
  }

  function ServerEdit<R, K(==), P>(st: Stream<R, K, P>, s: Server<R, P>, edit: Edit<R>): Server<R, P> {
    var msg := Msg(s.version + 1, EditUpdate(st, edit));
    Server(EditRules(st, s.rules, edit), s.version + 1, Broadcast(s.queues, msg), s.nextId)
  }

  /** The snapshot a new subscriber is sent ahead of its queue. */
  function CurrentSnapshot<R, K, P>(st: Stream<R, K, P>, s: Server<R, P>): Msg<P> {
    Msg(s.version, Snapshot(ToWire(st, s.rules)))
  }

  // ----- client -----

  /** Removing the rules a list of references names from a client's map. */
  function ApplyRemovals<R, K(==), P>(st: Stream<R, K, P>, view: map<K, R>, refs: seq<RuleRef>): map<K, R> {
    if refs == [] then view
    else
      ApplyRemovals(st,
        match st.removal
        case FirstMatch(refKey) => view - {refKey(refs[0])}
        case AllMatches(covers) => Without(view, covers(refs[0])),
        refs[1..])
  }

  /** A client's map after one message. */
  function ApplyUpdate<R, K(==), P>(st: Stream<R, K, P>, view: map<K, R>, update: Update<P>): map<K, R> {
    match update
    case Snapshot(rules) => View(st.key, FromWire(st, rules))
    case Delta(upserted, removed) =>
      ApplyRemovals(st, view + View(st.key, FromWire(st, upserted)), removed)
  }

  // ----- the whole system -----

  /** One stream connection. `hand` is the message the server's handler goroutine is about
      to send (at most one), `wire` the transport, `view` the client's map. The other fields
      are history: `seen` is the version last applied (before the first message, one less
      than the version subscribed at), `snap` the version of the last snapshot applied or
      -1, `upto` the last version published while registered, and `lost` the versions
      published for this connection that will never be delivered. */
  datatype Conn<R, K, P> = Conn(
    client: nat, open: bool, hand: seq<Msg<P>>, wire: seq<Msg<P>>, view: map<K, R>,
    seen: int, snap: int, upto: nat, lost: set<nat>)

  /** One call of a client's setter. `intact` records whether nothing published between the
      last snapshot applied and this version was lost. */
  datatype Handoff<+R> = Handoff(client: nat, conn: nat, version: nat, intact: bool, rules: seq<R>)

  /** `hist[v]` is the server's list at version v and `sent[v]` the update that was broadcast for
      it; `log` lists the setter calls in order. */
  datatype System<R, K, P> = System(
    server: Server<R, P>, conns: map<nat, Conn<R, K, P>>, hist: seq<seq<R>>, sent: seq<Update<P>>, log: seq<Handoff<R>>)

  /** `Recv` carries the order in which the client's map happens to be ranged over. */
  datatype Step<+R> =
    | Publish(edit: Edit<R>)
    | Subscribe(client: nat)
    | Take(id: nat)
    | Send(id: nat)
    | Recv(id: nat, flat: seq<R>)
    | Close(id: nat)
    | Deregister(id: nat)

  function Init<R, K, P>(): System<R, K, P> {
    System(Server([], 0, map[], 0), map[], [[]], [Snapshot([])], [])
  }

  /** Messages on their way to the client, oldest first. */
  function Pending<R, K, P>(s: System<R, K, P>, id: nat): seq<Msg<P>>
    requires id in s.conns
  {
    s.conns[id].wire + s.conns[id].hand + if id in s.server.queues then s.server.queues[id] else []
  }

  function VersionsOf<P>(msgs: seq<Msg<P>>): set<nat> {
    set i | 0 <= i < |msgs| :: msgs[i].version
  }

  /** Nothing published after the last applied snapshot, up to the version applied, was lost. */
  predicate Intact<R, K, P>(c: Conn<R, K, P>) {
    c.snap >= 0 && forall v :: c.snap < v <= c.seen ==> v !in c.lost
  }

  function Received<R, K(==), P>(st: Stream<R, K, P>, c: Conn<R, K, P>, msg: Msg<P>): Conn<R, K, P>
    requires c.wire != []
  {
    c.(wire := c.wire[1..], view := ApplyUpdate(st, c.view, msg.update), seen := msg.version,
       snap := if msg.update.Snapshot? then msg.version else c.snap)
  }

  ghost predicate Enabled<R, K, P>(st: Stream<R, K, P>, s: System<R, K, P>, step: Step<R>) {
    match step
    case Publish(_) => true
    case Subscribe(client) => forall id :: id in s.conns && s.conns[id].open ==> s.conns[id].client != client
    case Take(id) => id in s.server.queues && id in s.conns && s.conns[id].hand == [] && s.server.queues[id] != []
    case Send(id) => id in s.server.queues && id in s.conns && s.conns[id].hand != []
    case Recv(id, flat) =>
      && id in s.conns && s.conns[id].open && s.conns[id].wire != []
      && Enumerates(st.key, Received(st, s.conns[id], s.conns[id].wire[0]).view, flat)
    case Close(id) => id in s.conns
    case Deregister(id) => id in s.server.queues && id in s.conns
  }

  function Published<R, K, P>(c: Conn<R, K, P>, queue: seq<Msg<P>>, version: nat): Conn<R, K, P> {
    c.(upto := version, lost := if |queue| < QUEUE_CAPACITY then c.lost else c.lost + {version})
  }

  /** The effect of a step; a step that is not enabled changes nothing. */
  ghost function Next<R, K, P>(st: Stream<R, K, P>, s: System<R, K, P>, step: Step<R>): System<R, K, P>
  {
    if !Enabled(st, s, step) then s else
    match step
    case Publish(edit) =>
      var server := ServerEdit(st, s.server, edit);
      var conns := map id | id in s.conns ::
          if id in s.server.queues then Published(s.conns[id], s.server.queues[id], server.version) else s.conns[id];
      System(server, conns, s.hist + [server.rules], s.sent + [EditUpdate(st, edit)], s.log)
    case Subscribe(client) =>
      var id := s.server.nextId;
      var conn := Conn(client, true, [CurrentSnapshot(st, s.server)], [], map[],
                       s.server.version - 1, -1, s.server.version, {});
      s.(server := s.server.(queues := s.server.queues[id := []], nextId := id + 1), conns := s.conns[id := conn])
    case Take(id) =>
      var queue := s.server.queues[id];
      s.(server := s.server.(queues := s.server.queues[id := queue[1..]]),
         conns := s.conns[id := s.conns[id].(hand := [queue[0]])])
    case Send(id) =>
      var c := s.conns[id];
      s.(conns := s.conns[id := c.(wire := c.wire + c.hand, hand := [])])
    case Recv(id, flat) =>
      var msg := s.conns[id].wire[0];
      var c := Received(st, s.conns[id], msg);
      s.(conns := s.conns[id := c], log := s.log + [Handoff(c.client, id, msg.version, Intact(c), flat)])
    case Close(id) =>
      s.(conns := s.conns[id := s.conns[id].(open := false)])
    case Deregister(id) =>
      var c := s.conns[id];
      s.(server := s.server.(queues := s.server.queues - {id}),
         conns := s.conns[id := c.(hand := [], lost := c.lost + VersionsOf(c.hand) + VersionsOf(s.server.queues[id]))])
  }

  /** The state after a run: any sequence of steps from the initial state. */
  ghost function After<R, K, P>(st: Stream<R, K, P>, run: seq<Step<R>>): System<R, K, P> {
    if run == [] then Init()
    else Next(st, After(st, run[..|run| - 1]), run[|run| - 1])
  }
}
