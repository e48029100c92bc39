/** One DHT node: its storage, its pending requests, and its message handler. Keys are the ids they
    name; the hexadecimal form they travel in is covered by `NodeId.HexRoundTrip`. */
module KademliaNode {
  import opened Bits
  import opened Wrappers
  import opened NodeId
  import opened RoutingTable

  type Handle = string
  type Bytes = seq<byte>

  /** A request id: the requester's handle and a number the requester uses once. */
  datatype Rid = Rid(handle: Handle, n: nat)

  datatype Message =
    | Ping(rid: Rid)
    | Pong(rid: Rid)
    | FindNode(rid: Rid, target: Id)
    | FindNodeResponse(rid: Rid, contacts: seq<Contact>)
    | FindValue(rid: Rid, key: Id)
    | FindValueResponse(rid: Rid, found: Option<Bytes>, contacts: seq<Contact>)
    | Store(rid: Rid, key: Id, value: Option<Bytes>)  // None: bytes that cannot be decoded
    | StoreAck(rid: Rid, ok: bool)

  /** Which response a pending request waits for. */
  datatype Expected = ExpectNodes | ExpectValue | ExpectAck

  datatype Node = Node(storage: map<Id, Bytes>, pending: map<Rid, Expected>, nextRid: nat)

  const NEW_NODE := Node(map[], map[], 1)

  /** The next request id is used up and waits for its response. */
  function Requested(n: Node, h: Handle, expected: Expected): Node {
    n.(pending := n.pending[Rid(h, n.nextRid) := expected], nextRid := n.nextRid + 1)
  }

  function Expired(n: Node, rid: Rid): Node {
    n.(pending := n.pending - {rid})
  }

  function Kept(n: Node, key: Id, value: Bytes): Node {
    n.(storage := n.storage[key := value])
  }

  function StoredAt(n: Node, key: Id): Option<Bytes> {
    if key in n.storage then Some(n.storage[key]) else None
  }

  predicate Matches(msg: Message, expected: Expected) {
    match msg
    case FindNodeResponse(_, _) => expected == ExpectNodes
    case FindValueResponse(_, _, _) => expected == ExpectValue
    case StoreAck(_, _) => expected == ExpectAck
    case _ => false
  }

  datatype Outcome = Outcome(node: Node, reply: Option<Message>, fulfilled: bool)

  /** What a message does. Requests are answered; a response counts only if its id is pending and it is
      of the expected kind, and either way the id is no longer pending. */
  function Handled(n: Node, msg: Message, contacts: seq<Contact>): Outcome {
    match msg
    case Ping(rid) => Outcome(n, Some(Pong(rid)), false)
    case FindNode(rid, _) => Outcome(n, Some(FindNodeResponse(rid, contacts)), false)
    case FindValue(rid, key) => Outcome(n, Some(FindValueResponse(rid, StoredAt(n, key), contacts)), false)
    case Store(rid, key, Some(value)) => Outcome(Kept(n, key, value), Some(StoreAck(rid, true)), false)
    case Store(rid, _, None) => Outcome(n, Some(StoreAck(rid, false)), false)
    case _ =>
      if msg.rid in n.pending then Outcome(Expired(n, msg.rid), None, Matches(msg, n.pending[msg.rid]))
      else Outcome(n, None, false)
  }

  // ---------- what a node does over time ----------

  datatype Heard = Heard(msg: Message, contacts: seq<Contact>)

  function AfterHearing(n: Node, heard: seq<Heard>): Node {
    if heard == [] then n
    else
      var last := heard[|heard| - 1];
      Handled(AfterHearing(n, heard[..|heard| - 1]), last.msg, last.contacts).node
  }

  predicate Stores(msg: Message, key: Id) {
    msg.Store? && msg.key == key && msg.value.Some?
  }

  /** A node answers with the bytes last stored with it under the key, whatever else it heard before
      and after; and with what it had at first if none were. */
  lemma {:induction false} LastStoreIsFound(n: Node, heard: seq<Heard>, i: nat, key: Id, rid: Rid,
                                            contacts: seq<Contact>)
    requires i <= |heard| && forall j :: i <= j < |heard| ==> !Stores(heard[j].msg, key)
    requires i == 0 || Stores(heard[i - 1].msg, key)
    ensures Handled(AfterHearing(n, heard), FindValue(rid, key), contacts).reply.value
         == FindValueResponse(rid, if i > 0 then heard[i - 1].msg.value
                                   else if key in n.storage then Some(n.storage[key]) else None, contacts)
  {
    if i < |heard| {
      var front := heard[..|heard| - 1];
      LastStoreIsFound(n, front, i, key, rid, contacts);
    }
  }

  /** A store is confirmed exactly if its bytes are found from then on. */
  lemma StoreThenFind(n: Node, rid: Rid, key: Id, value: Option<Bytes>, cs: seq<Contact>, rid': Rid, key': Id,
                      contacts: seq<Contact>)
    ensures var stored := Handled(n, Store(rid, key, value), cs);
            var found := Handled(stored.node, FindValue(rid', key'), contacts).reply;
            && stored.reply == Some(StoreAck(rid, value.Some?))
            && (value.Some? && key' == key ==> found == Some(FindValueResponse(rid', value, contacts)))
            && (value.None? || key' != key ==> found == Handled(n, FindValue(rid', key'), contacts).reply)
  {
  }

  /** The response that a request waits for. */
  function Awaits(request: Message): Expected {
    match request
    case FindNode(_, _) => ExpectNodes
    case FindValue(_, _) => ExpectValue
    case _ => ExpectAck
  }

  /** Whatever node answers, its answer fulfils the request, once: a second copy does nothing. The
      requester is as it was before, but for the number it used. */
  lemma ExchangeCompletes(a: Node, h: Handle, request: Message, b: Node, cs: seq<Contact>, contacts: seq<Contact>)
    requires request.FindNode? || request.FindValue? || request.Store?
    requires request.rid == Rid(h, a.nextRid) && request.rid !in a.pending
    ensures var answer := Handled(b, request, cs).reply;
            answer.Some?
            && var done := Handled(Requested(a, h, Awaits(request)), answer.value, contacts);
               && done == Outcome(a.(nextRid := a.nextRid + 1), None, true)
               && Handled(done.node, answer.value, contacts) == Outcome(done.node, None, false)
  {
    var answer := Handled(b, request, cs).reply.value;
    var done := Handled(Requested(a, h, Awaits(request)), answer, contacts);
    assert done.node.pending == a.pending;
  }

  /** An answer of another kind does not fulfil a request, but ends the wait for it. */
  lemma OtherAnswersEndTheWait(n: Node, request: Message, answer: Message, contacts: seq<Contact>)
    requires request.FindNode? || request.FindValue? || request.Store?
    requires answer.Pong? || answer.FindNodeResponse? || answer.FindValueResponse? || answer.StoreAck?
    requires answer.rid in n.pending && n.pending[answer.rid] == Awaits(request)
    ensures var done := Handled(n, answer, contacts);
            && done.node.pending == n.pending - {answer.rid} && done.node.storage == n.storage && done.reply.None?
            && (done.fulfilled <==> (request.FindNode? && answer.FindNodeResponse?)
                                    || (request.FindValue? && answer.FindValueResponse?)
                                    || (request.Store? && answer.StoreAck?))
  {
  }

  function Target(msg: Message): Option<Id> {
    match msg
    case FindNode(_, target) => Some(target)
    case FindValue(_, key) => Some(key)
    case _ => None
  }

  class KademliaNode {
    const id: Id
    const handle: Handle
    const table: Routing
    var storage: map<Id, Bytes>
    var pending: map<Rid, Expected>
    var nextRid: nat

    function State(): Node
      reads this
    {
      Node(storage, pending, nextRid)
    }

    constructor (id: Id, handle: Handle, k: nat)
      ensures State() == NEW_NODE && table.Valid() && fresh(table) && fresh(table.buckets)
    {
      this.id, this.handle := id, handle;
      table := new Routing(id, k);
      storage, pending, nextRid := map[], map[], 1;
    }

    /** Registers a waiter; if the transport refuses the message, the waiter is dropped at once. */
    method Request(expected: Expected, sent: bool) returns (rid: Rid)
      modifies this
      ensures rid == Rid(handle, old(nextRid))
      ensures State() == if sent then Requested(old(State()), handle, expected)
                         else Expired(Requested(old(State()), handle, expected), rid)
    {
      rid := Rid(handle, nextRid);
      nextRid := nextRid + 1;
      pending := pending[rid := expected];
      if !sent {
        pending := pending - {rid};
      }
    }

    method Expire(rid: Rid)
      modifies this
      ensures State() == Expired(old(State()), rid)
    {
      pending := pending - {rid};
    }

    /** The contacts a request is answered with: the nearest to its target, once the sender is known. */
    ghost function Answer(msg: Message): seq<Contact>
      reads table, table.buckets
    {
      if Target(msg).Some? then Closest(table.buckets[..], Target(msg).value, table.k) else []
    }

    /** Records the sender, unless it is the node itself or its id is malformed, and does what the
        message asks. */
    method HandleMessage(from: Handle, fromId: Option<Id>, now: int, msg: Message)
        returns (reply: Option<Message>, fulfilled: bool)
      requires table.Valid()
      modifies this, table.buckets
      ensures table.Valid()
      ensures table.buckets[..] == if from == handle || fromId.None? then old(table.buckets[..])
                                   else Observed(old(table.buckets[..]), table.self, table.k,
                                                 Contact(fromId.value, from, now))
      ensures Outcome(State(), reply, fulfilled) == Handled(old(State()), msg, Answer(msg))
      // the contacts of an answer are the nearest to what was asked for, the sender perhaps among them
      ensures msg.FindNode? ==>
                reply == Some(FindNodeResponse(msg.rid, Closest(table.buckets[..], msg.target, table.k)))
      ensures msg.FindValue? ==> reply.Some? && reply.value.FindValueResponse?
                                 && reply.value.contacts == Closest(table.buckets[..], msg.key, table.k)
    {
      if from != handle && fromId.Some? {
        var _ := table.Observe(Contact(fromId.value, from, now));
      }
      reply, fulfilled := None, false;
      match msg {
        case Ping(rid) => reply := Some(Pong(rid));
        case FindNode(rid, target) =>
          var closest := table.ClosestTo(target, table.k);
          reply := Some(FindNodeResponse(rid, closest));
        case FindValue(rid, key) =>
          var local := if key in storage then Some(storage[key]) else None;
          var closest := table.ClosestTo(key, table.k);
          reply := Some(FindValueResponse(rid, local, closest));
        case Store(rid, key, value) =>
          if value.Some? {
            storage := storage[key := value.value];
          }
          reply := Some(StoreAck(rid, value.Some?));
        case _ =>
          if msg.rid in pending {
            fulfilled := Matches(msg, pending[msg.rid]);
            pending := pending - {msg.rid};
          }
      }
    }
  }
}
