/** Finding a value: the node's own storage first, then the iterative lookup. What comes back is what
    some node had stored. */
module DhtLookup {
  import opened Wrappers
  import opened NodeId
  import opened KademliaNode
  import Lookup
  import DhtNetwork

  /** Every value among the answers came in a response to a request for this key. */
  ghost predicate HonestAnswers(s: DhtNetwork.State, key: Id, respond: Lookup.Respond) {
    forall round, h :: Lookup.HasValue(respond(round, h)) ==> CameFor(s, key, respond(round, h).value.value)
  }

  ghost predicate CameFor(s: DhtNetwork.State, key: Id, value: Option<Bytes>) {
    exists e :: e in s.wire && e.msg.FindValueResponse? && e.msg.found == value
      && e.msg.rid in s.goal && s.goal[e.msg.rid] == key
  }

  /** In every interleaving, an honest answer carries what some node had passed to `store` for the key. */
  lemma AnswerWasStored(run: seq<DhtNetwork.State>, i: nat, key: Id, value: Bytes)
    requires DhtNetwork.IsRun(run) && i < |run| && CameFor(run[i], key, Some(value))
    ensures (key, value) in run[i].stored
  {
    var s := run[i];
    DhtNetwork.RunKeepsInv(run, i);
    var e :| e in s.wire && e.msg.FindValueResponse? && e.msg.found == Some(value)
      && e.msg.rid in s.goal && s.goal[e.msg.rid] == key;
    assert DhtNetwork.HonestMessage(s, e.msg);
  }

  /** A lookup that found a value found one of the answers. */
  lemma FoundIsAnswer(respond: Lookup.Respond, self: string, alpha: nat, t: Lookup.Trace, value: Option<Bytes>)
    requires Lookup.Explained(respond, self, true, alpha, t, value) && value.Some?
    ensures exists round, h :: Lookup.HasValue(respond(round, h)) && respond(round, h).value.value == value
  {
    var n := |t.batches| - 1;
    assert Lookup.FirstAnswer(respond, n, t.batches[n], value.value);
    hide Lookup.Taught, Lookup.RoundDone;
  }

  /** The node's own copy if it has one; otherwise the first value that an asked node answers with. In
      any run of the network, with this node in it and honest answers, that is what was stored. */
  method FindValue(node: KademliaNode, key: Id, alpha: nat, respond: Lookup.Respond, others: Lookup.Others,
                   ghost run: seq<DhtNetwork.State>, ghost i: nat)
      returns (value: Option<Bytes>, ghost trace: Lookup.Trace)
    requires node.table.Valid()
    modifies node.table.buckets
    ensures node.table.Valid()
    ensures key in node.storage ==> value == Some(node.storage[key])
    ensures key !in node.storage ==> Lookup.Explained(respond, node.handle, true, alpha, trace, value)
    ensures DhtNetwork.IsRun(run) && i < |run| && HonestAnswers(run[i], key, respond)
            && node.State() == DhtNetwork.At(run[i], node.handle) && value.Some? ==>
              (key, value.value) in run[i].stored
  {
    if key in node.storage {
      value, trace := Some(node.storage[key]), Lookup.Trace([], [], [], [], Lookup.AllAsked);
      if DhtNetwork.IsRun(run) && i < |run| && node.State() == DhtNetwork.At(run[i], node.handle) {
        DhtNetwork.RunKeepsInv(run, i);
        assert DhtNetwork.HonestNode(run[i], node.handle);
      }
      return;
    }
    var closest;
    value, closest, trace := Lookup.IterativeFind(node.table, node.handle, key, true, alpha, respond, others);
    hide *;
    if value.Some? && DhtNetwork.IsRun(run) && i < |run| && HonestAnswers(run[i], key, respond) {
      LookupWasStored(run, i, key, value.value, respond, node.handle, alpha, trace);
    }
  }

  lemma LookupWasStored(run: seq<DhtNetwork.State>, i: nat, key: Id, value: Bytes, respond: Lookup.Respond,
                        self: string, alpha: nat, trace: Lookup.Trace)
    requires DhtNetwork.IsRun(run) && i < |run| && HonestAnswers(run[i], key, respond)
    requires Lookup.Explained(respond, self, true, alpha, trace, Some(value))
    ensures (key, value) in run[i].stored
  {
    FoundIsAnswer(respond, self, alpha, trace, Some(value));
    var round, h :| Lookup.HasValue(respond(round, h)) && respond(round, h).value.value == Some(value);
    AnswerWasStored(run, i, key, value);
  }
}
