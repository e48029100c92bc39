/** Many DHT nodes exchanging requests and responses, with every interleaving, loss, duplication,
    delay and timeout: a lookup only ever returns what some node stored under the key it looked up.
    The wire is the set of all messages ever sent. */
module DhtNetwork {
  import opened Wrappers
  import opened NodeId
  import opened RoutingTable
  import opened KademliaNode

  datatype Envelope = Envelope(from: Handle, to: Handle, msg: Message)

  /** The nodes and the wire, with what is needed to state the theorem: what was passed to `store`,
      which key each value request is about, which requests were fulfilled, and what `findValue`
      returned. */
  datatype State = State(nodes: map<Handle, Node>, wire: set<Envelope>,
                         stored: set<(Id, Bytes)>, goal: map<Rid, Id>, fulfilled: multiset<Rid>,
                         returned: set<(Id, Bytes)>)

  const INITIAL := State(map[], {}, {}, map[], multiset{}, {})

  function At(s: State, h: Handle): Node {
    if h in s.nodes then s.nodes[h] else NEW_NODE
  }

  function With(s: State, h: Handle, n: Node): State {
    s.(nodes := s.nodes[h := n])
  }

  function Sent(s: State, from: Handle, to: Handle, msg: Message): State {
    s.(wire := s.wire + {Envelope(from, to, msg)})
  }

  function NextRid(s: State, h: Handle): Rid {
    Rid(h, At(s, h).nextRid)
  }

  /** A request takes the requester's next id; the message may or may not get through. */
  function Request(s: State, h: Handle, expected: Expected): State {
    With(s, h, Requested(At(s, h), h, expected))
  }

  datatype Event =
    | StoreCall(h: Handle, key: Id, value: Bytes)
    | SendStore(h: Handle, to: Handle, key: Id)
    | AskValue(h: Handle, to: Handle, key: Id)
    | AskNodes(h: Handle, to: Handle, target: Id)
    | RefusedSend(h: Handle)
    | Timeout(h: Handle, rid: Rid)
    | Stop(h: Handle)
    | FindLocal(h: Handle, key: Id)
    | Receive(e: Envelope, contacts: seq<Contact>)

  ghost predicate Step(s: State, ev: Event, s': State) {
    match ev
    case StoreCall(h, key, value) =>
      s' == With(s, h, Kept(At(s, h), key, value)).(stored := s.stored + {(key, value)})
    case SendStore(h, to, key) =>
      key in At(s, h).storage
      && s' == Sent(Request(s, h, ExpectAck), h, to, Store(NextRid(s, h), key, Some(At(s, h).storage[key])))
    case AskValue(h, to, key) =>
      s' == Sent(Request(s, h, ExpectValue), h, to, FindValue(NextRid(s, h), key)).(
              goal := s.goal[NextRid(s, h) := key])
    case AskNodes(h, to, target) =>
      s' == Sent(Request(s, h, ExpectNodes), h, to, FindNode(NextRid(s, h), target))
    case RefusedSend(h) =>
      s' == With(s, h, Expired(Requested(At(s, h), h, ExpectAck), NextRid(s, h)))
    case Timeout(h, rid) =>
      rid in At(s, h).pending && s' == With(s, h, Expired(At(s, h), rid))
    case Stop(h) => s' == With(s, h, At(s, h).(pending := map[]))
    case FindLocal(h, key) =>
      key in At(s, h).storage && s' == s.(returned := s.returned + {(key, At(s, h).storage[key])})
    case Receive(e, contacts) => e in s.wire && s' == Received(s, e, contacts)
  }

  // ---------- messages ----------

  function Received(s: State, e: Envelope, contacts: seq<Contact>): State {
    var outcome := Handled(At(s, e.to), e.msg, contacts);
    var t := With(s, e.to, outcome.node);
    var u := if outcome.reply.Some? then Sent(t, e.to, e.from, outcome.reply.value) else t;
    if outcome.fulfilled then Fulfilled(u, e.msg) else u
  }

  /** A lookup returns the value of the first nonempty answer to one of its requests. */
  function Fulfilled(s: State, msg: Message): State {
    var t := s.(fulfilled := s.fulfilled + multiset{msg.rid});
    if msg.FindValueResponse? && msg.found.Some? && msg.found.value != [] && msg.rid in s.goal
    then t.(returned := s.returned + {(s.goal[msg.rid], msg.found.value)}) else t
  }

  ghost predicate Next(s: State, s': State) {
    exists ev :: Step(s, ev, s')
  }

  ghost predicate IsRun(run: seq<State>) {
    && |run| > 0 && run[0] == INITIAL
    && forall i :: 0 <= i < |run| - 1 ==> Next(run[i], run[i + 1])
  }

  // ---------- what every step keeps ----------

  ghost predicate HonestNode(s: State, h: Handle) {
    var n := At(s, h);
    && (forall key :: key in n.storage ==> (key, n.storage[key]) in s.stored)
    && (forall rid :: rid in n.pending ==> rid.handle == h && rid.n < n.nextRid && s.fulfilled[rid] == 0)
  }

  ghost predicate HonestMessage(s: State, msg: Message) {
    match msg
    case Store(_, key, Some(value)) => (key, value) in s.stored
    case FindValue(rid, key) => rid in s.goal && s.goal[rid] == key
    case FindValueResponse(rid, Some(value), _) => rid in s.goal && (s.goal[rid], value) in s.stored
    case _ => true
  }

  ghost predicate UsedOnce(s: State, rid: Rid) {
    s.fulfilled[rid] <= 1 && (rid in s.goal || s.fulfilled[rid] > 0 ==> rid.n < At(s, rid.handle).nextRid)
  }

  ghost predicate Inv(s: State) {
    && (forall h :: HonestNode(s, h))
    && (forall e :: e in s.wire ==> HonestMessage(s, e.msg))
    && (forall rid :: UsedOnce(s, rid))
    && s.returned <= s.stored
  }

  /** More history never makes an honest message dishonest. */
  lemma MessagesStayHonest(s: State, s': State)
    requires forall e :: e in s.wire ==> HonestMessage(s, e.msg)
    requires s.stored <= s'.stored && forall rid :: rid in s.goal ==> rid in s'.goal && s'.goal[rid] == s.goal[rid]
    ensures forall e :: e in s.wire ==> HonestMessage(s', e.msg)
  {
  }

  /** A fresh request id is nobody's yet. */
  lemma RidIsFresh(s: State, h: Handle)
    requires Inv(s)
    ensures NextRid(s, h) !in s.goal && s.fulfilled[NextRid(s, h)] == 0
  {
    assert UsedOnce(s, NextRid(s, h));
  }

  lemma RidTaken(s: State, h: Handle, expected: Expected)
    requires Inv(s)
    ensures Inv(Request(s, h, expected))
  {
    var s' := Request(s, h, expected);
    RidIsFresh(s, h);
    MessagesStayHonest(s, s');
    forall g ensures HonestNode(s', g) {
      assert HonestNode(s, g);
    }
    forall r ensures UsedOnce(s', r) {
      assert UsedOnce(s, r);
    }
  }

  lemma GoalSet(s: State, rid: Rid, key: Id)
    requires Inv(s) && rid !in s.goal && rid.n < At(s, rid.handle).nextRid
    ensures Inv(s.(goal := s.goal[rid := key]))
  {
    var s' := s.(goal := s.goal[rid := key]);
    MessagesStayHonest(s, s');
    forall g ensures HonestNode(s', g) {
      assert HonestNode(s, g);
    }
    forall r ensures UsedOnce(s', r) {
      assert UsedOnce(s, r);
    }
  }

  lemma RequestKeeps(s: State, ev: Event, s': State)
    requires Inv(s) && Step(s, ev, s') && (ev.SendStore? || ev.AskValue? || ev.AskNodes?)
    ensures Inv(s')
  {
    assert HonestNode(s, ev.h);
    RidIsFresh(s, ev.h);
    var rid := NextRid(s, ev.h);
    match ev {
      case SendStore(h, to, key) =>
        RidTaken(s, h, ExpectAck);
        SendKeeps(Request(s, h, ExpectAck), h, to, Store(rid, key, Some(At(s, h).storage[key])));
      case AskValue(h, to, key) =>
        var t := Request(s, h, ExpectValue);
        RidTaken(s, h, ExpectValue);
        GoalSet(t, rid, key);
        SendKeeps(t.(goal := t.goal[rid := key]), h, to, FindValue(rid, key));
      case AskNodes(h, to, target) =>
        RidTaken(s, h, ExpectNodes);
        SendKeeps(Request(s, h, ExpectNodes), h, to, FindNode(rid, target));
    }
    hide Inv;
  }

  lemma LocalKeeps(s: State, ev: Event, s': State)
    requires Inv(s) && Step(s, ev, s')
    requires ev.StoreCall? || ev.RefusedSend? || ev.Timeout? || ev.Stop? || ev.FindLocal?
    ensures Inv(s')
  {
    assert HonestNode(s, ev.h);
    match ev {
      case StoreCall(h, key, value) =>
        StoredGrows(s, key, value);
        NodeMoves(s.(stored := s.stored + {(key, value)}), h, Kept(At(s, h), key, value));
      case RefusedSend(h) =>
        NodeMoves(s, h, Expired(Requested(At(s, h), h, ExpectAck), NextRid(s, h)));
      case Timeout(h, rid) =>
        NodeMoves(s, h, Expired(At(s, h), rid));
      case Stop(h) =>
        NodeMoves(s, h, At(s, h).(pending := map[]));
      case FindLocal(h, key) =>
        ReturnedGrows(s, key, At(s, h).storage[key]);
    }
    hide Inv;
  }

  lemma StoredGrows(s: State, key: Id, value: Bytes)
    requires Inv(s)
    ensures Inv(s.(stored := s.stored + {(key, value)}))
  {
    var s' := s.(stored := s.stored + {(key, value)});
    MessagesStayHonest(s, s');
    forall g ensures HonestNode(s', g) {
      assert HonestNode(s, g);
    }
    forall r ensures UsedOnce(s', r) {
      assert UsedOnce(s, r);
    }
  }

  lemma ReturnedGrows(s: State, key: Id, value: Bytes)
    requires Inv(s) && (key, value) in s.stored
    ensures Inv(s.(returned := s.returned + {(key, value)}))
  {
    var s' := s.(returned := s.returned + {(key, value)});
    MessagesStayHonest(s, s');
    forall g ensures HonestNode(s', g) {
      assert HonestNode(s, g);
    }
    forall r ensures UsedOnce(s', r) {
      assert UsedOnce(s, r);
    }
  }

  lemma ReceiveKeeps(s: State, e: Envelope, contacts: seq<Contact>)
    requires Inv(s) && e in s.wire
    ensures Inv(Received(s, e, contacts))
  {
    var outcome := Handled(At(s, e.to), e.msg, contacts);
    assert HonestMessage(s, e.msg) && HonestNode(s, e.to);
    if outcome.reply.Some? {
      NodeMoves(s, e.to, outcome.node);
      SendKeeps(With(s, e.to, outcome.node), e.to, e.from, outcome.reply.value);
    } else {
      AnswerKeeps(s, e.to, e.msg, contacts);
    }
  }

  lemma SendKeeps(s: State, from: Handle, to: Handle, msg: Message)
    requires Inv(s) && HonestMessage(s, msg)
    ensures Inv(Sent(s, from, to, msg))
  {
    var s' := Sent(s, from, to, msg);
    MessagesStayHonest(s, s');
    forall h ensures HonestNode(s', h) {
      assert HonestNode(s, h);
    }
    forall r ensures UsedOnce(s', r) {
      assert UsedOnce(s, r);
    }
  }

  lemma NodeMoves(s: State, h: Handle, n: Node)
    requires Inv(s) && n.nextRid >= At(s, h).nextRid && forall rid :: rid in n.pending ==> rid in At(s, h).pending
    requires forall key :: key in n.storage ==> (key, n.storage[key]) in s.stored
    ensures Inv(With(s, h, n))
  {
    var s' := With(s, h, n);
    assert HonestNode(s, h);
    MessagesStayHonest(s, s');
    forall g ensures HonestNode(s', g) {
      assert HonestNode(s, g);
    }
    forall r ensures UsedOnce(s', r) {
      assert UsedOnce(s, r);
    }
  }

  lemma AnswerKeeps(s: State, h: Handle, msg: Message, contacts: seq<Contact>)
    requires Inv(s) && HonestMessage(s, msg) && Handled(At(s, h), msg, contacts).reply.None?
    ensures var outcome := Handled(At(s, h), msg, contacts);
            var t := With(s, h, outcome.node);
            Inv(if outcome.fulfilled then Fulfilled(t, msg) else t)
  {
    var outcome := Handled(At(s, h), msg, contacts);
    var t := With(s, h, outcome.node);
    var s' := if outcome.fulfilled then Fulfilled(t, msg) else t;
    assert HonestNode(s, h) && UsedOnce(s, msg.rid);
    MessagesStayHonest(s, s');
    forall g ensures HonestNode(s', g) {
      assert HonestNode(s, g);
    }
    forall r ensures UsedOnce(s', r) {
      assert UsedOnce(s, r);
    }
  }

  lemma StepKeepsInv(s: State, ev: Event, s': State)
    requires Inv(s) && Step(s, ev, s')
    ensures Inv(s')
  {
    if ev.Receive? {
      ReceiveKeeps(s, ev.e, ev.contacts);
    } else if ev.SendStore? || ev.AskValue? || ev.AskNodes? {
      RequestKeeps(s, ev, s');
    } else {
      LocalKeeps(s, ev, s');
    }
  }

  lemma {:induction false} RunKeepsInv(run: seq<State>, i: nat)
    requires IsRun(run) && i < |run|
    ensures Inv(run[i])
  {
    if i > 0 {
      RunKeepsInv(run, i - 1);
      var ev :| Step(run[i - 1], ev, run[i]);
      StepKeepsInv(run[i - 1], ev, run[i]);
    }
  }

  /** Integrity: whatever `findValue` returned for a key, some node had passed to `store` for it. */
  lemma ReturnedWasStored(run: seq<State>, i: nat, key: Id, value: Bytes)
    requires IsRun(run) && i < |run| && (key, value) in run[i].returned
    ensures (key, value) in run[i].stored
  {
    RunKeepsInv(run, i);
  }

  /** Every request is fulfilled at most once, and not after it stopped waiting. */
  lemma FulfilledAtMostOnce(run: seq<State>, i: nat, rid: Rid)
    requires IsRun(run) && i < |run|
    ensures run[i].fulfilled[rid] <= 1
    ensures forall h :: rid in At(run[i], h).pending ==> h == rid.handle && run[i].fulfilled[rid] == 0
  {
    RunKeepsInv(run, i);
    assert UsedOnce(run[i], rid);
    forall h | rid in At(run[i], h).pending ensures h == rid.handle && run[i].fulfilled[rid] == 0 {
      assert HonestNode(run[i], h);
    }
  }

  // ---------- what is published can be found ----------

  /** Somebody was asked by `to` to store a value under this id, and has one under that key. */
  ghost predicate KeptFor(s: State, from: Handle, to: Handle, rid: Rid) {
    exists e :: e in s.wire && e.from == to && e.to == from && e.msg.Store? && e.msg.rid == rid
      && e.msg.value.Some? && e.msg.key in At(s, from).storage
  }

  ghost predicate AcksAreKept(s: State) {
    forall e :: e in s.wire && e.msg.StoreAck? && e.msg.ok ==> KeptFor(s, e.from, e.to, e.msg.rid)
  }

  /** Nothing is ever unsent or thrown away. */
  lemma NothingIsDropped(s: State, ev: Event, s': State)
    requires Step(s, ev, s')
    ensures s.wire <= s'.wire && forall h, key :: key in At(s, h).storage ==> key in At(s', h).storage
  {
    if ev.Receive? {
      ReceivingDropsNothing(s, ev.e, ev.contacts);
    }
    hide Received;
  }

  lemma ReceivingDropsNothing(s: State, e: Envelope, contacts: seq<Contact>)
    ensures var t := Received(s, e, contacts);
            s.wire <= t.wire && forall h, key :: key in At(s, h).storage ==> key in At(t, h).storage
  {
  }

  /** A confirmation is only ever sent by a node that has kept a value under the key, for good. */
  lemma StepKeepsAcks(s: State, ev: Event, s': State)
    requires AcksAreKept(s) && Step(s, ev, s')
    ensures AcksAreKept(s')
  {
    NothingIsDropped(s, ev, s');
    forall e | e in s'.wire && e.msg.StoreAck? && e.msg.ok ensures KeptFor(s', e.from, e.to, e.msg.rid) {
      if e in s.wire {
        var d :| d in s.wire && d.from == e.to && d.to == e.from && d.msg.Store? && d.msg.rid == e.msg.rid
          && d.msg.value.Some? && d.msg.key in At(s, e.from).storage;
        assert d in s'.wire && d.msg.key in At(s', e.from).storage;
      } else {
        assert ev.Receive? && ev.e.msg.Store? && ev.e in s'.wire;
      }
    }
  }

  /** Each confirmed copy exists: in every interleaving, a store confirmed under a request's id was asked
      for by that message, and the node that confirmed it has a value under the key. */
  lemma {:induction false} ConfirmedMeansKept(run: seq<State>, i: nat)
    requires IsRun(run) && i < |run|
    ensures AcksAreKept(run[i])
  {
    if i > 0 {
      ConfirmedMeansKept(run, i - 1);
      var ev :| Step(run[i - 1], ev, run[i]);
      StepKeepsAcks(run[i - 1], ev, run[i]);
    }
  }

  ghost predicate Path(path: seq<State>, from: State, to: State) {
    && |path| > 0 && path[0] == from && path[|path| - 1] == to
    && forall i :: 0 <= i < |path| - 1 ==> Next(path[i], path[i + 1])
  }

  lemma Deliver(s: State, e: Envelope) returns (t: State)
    requires Inv(s) && e in s.wire
    ensures t == Received(s, e, []) && Next(s, t) && Inv(t)
  {
    t := Received(s, e, []);
    assert Step(s, Receive(e, []), t);
    StepKeepsInv(s, Receive(e, []), t);
  }

  /** a keeps a value and offers it to b. */
  lemma Offer(s: State, a: Handle, b: Handle, key: Id, value: Bytes) returns (m: State, t: State)
    requires Inv(s)
    ensures Next(s, m) && Next(m, t) && Inv(t) && t.fulfilled == s.fulfilled
    ensures Envelope(a, b, Store(NextRid(s, a), key, Some(value))) in t.wire
    ensures NextRid(s, a) in At(t, a).pending && At(t, a).pending[NextRid(s, a)] == ExpectAck
  {
    m := With(s, a, Kept(At(s, a), key, value)).(stored := s.stored + {(key, value)});
    assert Step(s, StoreCall(a, key, value), m);
    StepKeepsInv(s, StoreCall(a, key, value), m);
    t := Sent(Request(m, a, ExpectAck), a, b, Store(NextRid(s, a), key, Some(value)));
    assert Step(m, SendStore(a, b, key), t);
    StepKeepsInv(m, SendStore(a, b, key), t);
  }

  lemma OfferArrives(s: State, e: Envelope)
    requires e.msg.Store? && e.msg.value.Some? && e.msg.rid in At(s, e.from).pending
    requires At(s, e.from).pending[e.msg.rid] == ExpectAck
    ensures var t := Received(s, e, []);
            && Envelope(e.to, e.from, StoreAck(e.msg.rid, true)) in t.wire && t.fulfilled == s.fulfilled
            && e.msg.key in At(t, e.to).storage && At(t, e.to).storage[e.msg.key] == e.msg.value.value
            && e.msg.rid in At(t, e.from).pending && At(t, e.from).pending[e.msg.rid] == ExpectAck
  {
  }

  lemma ConfirmationArrives(s: State, e: Envelope)
    requires e.msg.StoreAck? && e.msg.rid in At(s, e.to).pending && At(s, e.to).pending[e.msg.rid] == ExpectAck
    ensures var t := Received(s, e, []);
            && t.fulfilled == s.fulfilled + multiset{e.msg.rid} && forall h :: At(t, h).storage == At(s, h).storage
  {
  }

  /** a publishes a value, and b confirms to it that it has the value. */
  lemma Publish(s: State, a: Handle, b: Handle, key: Id, value: Bytes) returns (path: seq<State>, t: State)
    requires Inv(s)
    ensures Path(path, s, t) && Inv(t) && key in At(t, b).storage && At(t, b).storage[key] == value
    ensures t.fulfilled == s.fulfilled + multiset{NextRid(s, a)}
  {
    hide Inv, Next, Received, At;
    var rid := NextRid(s, a);
    var s1, s2 := Offer(s, a, b, key, value);
    OfferArrives(s2, Envelope(a, b, Store(rid, key, Some(value))));
    var s3 := Deliver(s2, Envelope(a, b, Store(rid, key, Some(value))));
    ConfirmationArrives(s3, Envelope(b, a, StoreAck(rid, true)));
    t := Deliver(s3, Envelope(b, a, StoreAck(rid, true)));
    path := [s, s1, s2, s3, t];
  }

  /** c asks b for a value that b has. */
  lemma Ask(s: State, c: Handle, b: Handle, key: Id) returns (path: seq<State>, t: State)
    requires Inv(s) && key in At(s, b).storage && At(s, b).storage[key] != []
    ensures Path(path, s, t) && Inv(t) && (key, At(s, b).storage[key]) in t.returned
  {
    var value, rid := At(s, b).storage[key], NextRid(s, c);
    var ask := Envelope(c, b, FindValue(rid, key));
    var s1 := Sent(Request(s, c, ExpectValue), c, b, ask.msg).(goal := s.goal[rid := key]);
    assert Step(s, AskValue(c, b, key), s1);
    StepKeepsInv(s, AskValue(c, b, key), s1);
    hide Inv, Next;
    var s2 := Deliver(s1, ask);
    var answer := Envelope(b, c, FindValueResponse(rid, Some(value), []));
    assert answer in s2.wire;
    t := Deliver(s2, answer);
    path := [s, s1, s2, t];
  }

  /** Availability: at any moment of any run, any node can publish any nonempty value with any node, and
      any node can then find it there. */
  lemma PublishedCanBeFound(run: seq<State>, a: Handle, b: Handle, c: Handle, key: Id, value: Bytes)
      returns (more: seq<State>)
    requires IsRun(run) && value != []
    ensures IsRun(run + more) && more != [] && (key, value) in more[|more| - 1].returned
  {
    var s := run[|run| - 1];
    RunKeepsInv(run, |run| - 1);
    hide Inv, Next;
    var p, m := Publish(s, a, b, key, value);
    var q, t := Ask(m, c, b, key);
    more := p[1..] + q[1..];
    forall i | 0 <= i < |run + more| - 1 ensures Next((run + more)[i], (run + more)[i + 1]) {
      var k := i - |run| + 1;
      if k < 0 {
        assert Next(run[i], run[i + 1]);
      } else if k < |p| - 1 {
        assert Next(p[k], p[k + 1]);
      } else {
        assert Next(q[k - |p| + 1], q[k - |p| + 2]);
      }
    }
  }
}
