/** Liveness of peers, probed by pings: unanswered pings are misses, and enough misses in a row make a
    peer stale, unhealthy - when the owner is told once - and dead. */
module Heartbeat {
  import opened Bits
  import opened Wrappers

  datatype Status = Healthy | Stale | Unhealthy | Dead

  datatype Options = Options(intervalMs: nat, staleAfter: nat, unhealthyAfter: nat, deadAfter: nat)

  /** What is kept per peer; `pending` maps an unanswered ping to the time it was sent. */
  datatype Entry = Entry(rttMs: Option<nat>, lastPongAt: Option<int>, misses: nat, status: Status,
                         pending: map<nat, int>, nextPingId: nat, unhealthyFired: bool)

  const FRESH := Entry(None, None, 0, Healthy, map[], 1, false)

  type Peers = map<string, Entry>

  function Classify(o: Options, misses: nat): Status {
    if misses >= o.deadAfter then Dead
    else if misses >= o.unhealthyAfter then Unhealthy
    else if misses >= o.staleAfter then Stale
    else Healthy
  }

  // ---------- what the operations do to one peer ----------

  function Missed(o: Options, e: Entry): Entry {
    e.(misses := e.misses + 1, status := Classify(o, e.misses + 1))
  }

  function Cutoff(o: Options, now: int): int {
    now - o.intervalMs * (o.deadAfter + 1)
  }

  /** Pings that are still worth waiting for. */
  function Recent(o: Options, pending: map<nat, int>, now: int): map<nat, int> {
    map id | id in pending && pending[id] >= Cutoff(o, now) :: pending[id]
  }

  /** Is the owner told, on this tick, that the peer is unhealthy? */
  predicate Fires(o: Options, e: Entry) {
    e.pending != map[] && Classify(o, e.misses + 1) == Unhealthy && !e.unhealthyFired
  }

  function Settled(o: Options, e: Entry, now: int): Entry {
    if e.pending == map[] then e
    else Missed(o, e).(pending := Recent(o, e.pending, now), unhealthyFired := e.unhealthyFired || Fires(o, e))
  }

  function Pinged(o: Options, e: Entry, now: int, writable: bool): Entry {
    (if writable then e.(pending := e.pending[e.nextPingId := now]) else Missed(o, e)).(nextPingId := e.nextPingId + 1)
  }

  function Ticked(o: Options, e: Entry, now: int, writable: bool): Entry {
    Pinged(o, Settled(o, e, now), now, writable)
  }

  function Refreshed(e: Entry): Entry {
    e.(unhealthyFired := false, misses := 0, status := Healthy)
  }

  function Ponged(e: Entry, id: nat, now: int): Entry
    requires id in e.pending
  {
    e.(pending := e.pending - {id}, rttMs := Some(if now > e.pending[id] then now - e.pending[id] else 0),
       lastPongAt := Some(now), misses := 0, status := Healthy, unhealthyFired := false)
  }

  // ---------- what the operations do to all peers ----------

  function Added(peers: Peers, id: string): Peers {
    peers[id := if id in peers then Refreshed(peers[id]) else FRESH]
  }

  function Answered(peers: Peers, id: string, ping: nat, now: int): Peers {
    if id in peers && ping in peers[id].pending then peers[id := Ponged(peers[id], ping, now)] else peers
  }

  function AllTicked(o: Options, peers: Peers, now: int, writable: string -> bool): Peers {
    map id | id in peers :: Ticked(o, peers[id], now, writable(id))
  }

  class HeartbeatTracker {
    const opts: Options
    var peers: Peers

    constructor (opts: Options)
      ensures this.opts == opts && peers == map[]
    {
      this.opts := opts;
      peers := map[];
    }

    method AddPeer(id: string)
      modifies this
      ensures peers == Added(old(peers), id)
    {
      if id in peers {
        var entry := peers[id];
        entry := entry.(unhealthyFired := false);
        entry := entry.(misses := 0, status := Healthy);
        peers := peers[id := entry];
        return;
      }
      peers := peers[id := FRESH];
    }

    method RemovePeer(id: string)
      modifies this
      ensures peers == old(peers) - {id}
    {
      peers := peers - {id};
    }

    method HandlePong(id: string, ping: nat, now: int) returns (accepted: bool)
      modifies this
      ensures peers == Answered(old(peers), id, ping, now)
      ensures accepted <==> id in old(peers) && ping in old(peers)[id].pending
    {
      if id !in peers { return false; }
      var entry := peers[id];
      if ping !in entry.pending { return false; }
      var sentAt := entry.pending[ping];
      entry := entry.(pending := entry.pending - {ping});
      entry := entry.(rttMs := Some(if now - sentAt > 0 then now - sentAt else 0));
      entry := entry.(lastPongAt := Some(now), misses := 0, status := Healthy);
      entry := entry.(unhealthyFired := false);
      peers := peers[id := entry];
      return true;
    }

    /** One probing round over all peers, in any order. `fired` lists the peers reported as unhealthy. */
    method Tick(now: int, writable: string -> bool) returns (fired: seq<string>)
      modifies this
      ensures peers == AllTicked(opts, old(peers), now, writable)
      ensures Distinct(fired) && forall id :: id in fired <==> id in old(peers) && Fires(opts, old(peers)[id])
    {
      hide Ticked, Fires;
      fired := [];
      ghost var before := peers;
      var todo := peers.Keys;
      while todo != {}
        invariant todo <= before.Keys == peers.Keys
        invariant forall id :: id in before ==>
                    peers[id] == if id in todo then before[id] else Ticked(opts, before[id], now, writable(id))
        invariant Distinct(fired)
        invariant forall id :: id in fired <==> id in before && id !in todo && Fires(opts, before[id])
        decreases |todo|
      {
        var id :| id in todo;
        var entry, tell := TickPeer(peers[id], now, writable(id));
        peers := peers[id := entry];
        if tell {
          fired := fired + [id];
        }
        todo := todo - {id};
      }
    }

    method TickPeer(e: Entry, now: int, writable: bool) returns (entry: Entry, fired: bool)
      ensures entry == Ticked(opts, e, now, writable) && fired == Fires(opts, e)
    {
      entry, fired := e, false;
      if |entry.pending| > 0 {
        var cutoff := now - opts.intervalMs * (opts.deadAfter + 1);
        var kept := map id | id in entry.pending && !(entry.pending[id] < cutoff) :: entry.pending[id];
        assert kept == Recent(opts, e.pending, now);
        entry := entry.(pending := kept, misses := entry.misses + 1);
        entry := entry.(status := Classify(opts, entry.misses));
        if entry.status == Unhealthy && !entry.unhealthyFired {
          entry := entry.(unhealthyFired := true);
          fired := true;
        }
      }
      var id := entry.nextPingId;
      entry := entry.(nextPingId := id + 1);
      if writable {
        entry := entry.(pending := entry.pending[id := now]);
      } else {
        entry := entry.(misses := entry.misses + 1);
        entry := entry.(status := Classify(opts, entry.misses));
      }
    }
  }

  // ---------- whole runs ----------

  datatype Event =
    | Add(id: string)
    | Remove(id: string)
    | Pong(id: string, ping: nat, now: int)
    | Tick(now: int, writable: string -> bool)

  function Step(o: Options, peers: Peers, ev: Event): Peers {
    match ev
    case Add(id) => Added(peers, id)
    case Remove(id) => peers - {id}
    case Pong(id, ping, now) => Answered(peers, id, ping, now)
    case Tick(now, writable) => AllTicked(o, peers, now, writable)
  }

  function After(o: Options, run: seq<Event>): Peers {
    if run == [] then map[] else Step(o, After(o, run[..|run| - 1]), run[|run| - 1])
  }

  /** Every peer's status is the class of its misses. */
  ghost predicate Classified(o: Options, peers: Peers) {
    forall id :: id in peers ==> peers[id].status == Classify(o, peers[id].misses)
  }

  /** A peer's status is the class of its misses - in every run exactly when no threshold is zero. */
  lemma StatusIsClass(o: Options)
    ensures o.staleAfter > 0 && o.unhealthyAfter > 0 && o.deadAfter > 0
       <==> forall run: seq<Event> :: Classified(o, After(o, run))
  {
    hide Classified, After;
    if o.staleAfter > 0 && o.unhealthyAfter > 0 && o.deadAfter > 0 {
      forall run: seq<Event> ensures Classified(o, After(o, run)) {
        RunIsClassified(o, run);
      }
    } else {
      FreshIsUnclassified(o);
    }
  }

  lemma FreshIsUnclassified(o: Options)
    requires o.staleAfter == 0 || o.unhealthyAfter == 0 || o.deadAfter == 0
    ensures !Classified(o, After(o, [Add("")]))
  {
    var run := [Add("")];
    assert run[..|run| - 1] == [];
    assert "" in After(o, run) && After(o, run)[""] == FRESH;
  }

  lemma RunIsClassified(o: Options, run: seq<Event>)
    requires o.staleAfter > 0 && o.unhealthyAfter > 0 && o.deadAfter > 0
    ensures Classified(o, After(o, run))
  {
    forall id | id in After(o, run) ensures After(o, run)[id].status == Classify(o, After(o, run)[id].misses) {
      StatusStaysClass(o, run, id);
    }
  }

  lemma {:induction false} StatusStaysClass(o: Options, run: seq<Event>, id: string)
    requires o.staleAfter > 0 && o.unhealthyAfter > 0 && o.deadAfter > 0 && id in After(o, run)
    ensures After(o, run)[id].status == Classify(o, After(o, run)[id].misses)
  {
    var front, ev := run[..|run| - 1], run[|run| - 1];
    if id in After(o, front) {
      StatusStaysClass(o, front, id);
    }
    StepKeepsClass(o, After(o, front), ev, id);
    hide Step, Classify;
  }

  lemma StepKeepsClass(o: Options, peers: Peers, ev: Event, id: string)
    requires o.staleAfter > 0 && o.unhealthyAfter > 0 && o.deadAfter > 0 && id in Step(o, peers, ev)
    requires id in peers ==> peers[id].status == Classify(o, peers[id].misses)
    ensures Step(o, peers, ev)[id].status == Classify(o, Step(o, peers, ev)[id].misses)
  {
  }

  /** With the thresholds in order, the class of a number of misses is the last threshold it reaches. */
  lemma Classes(o: Options, misses: nat)
    requires o.staleAfter <= o.unhealthyAfter <= o.deadAfter
    ensures Classify(o, misses) == Healthy <==> misses < o.staleAfter
    ensures Classify(o, misses) == Stale <==> o.staleAfter <= misses < o.unhealthyAfter
    ensures Classify(o, misses) == Unhealthy <==> o.unhealthyAfter <= misses < o.deadAfter
    ensures Classify(o, misses) == Dead <==> o.deadAfter <= misses
  {
  }

  // ---------- pings that are answered ----------

  /** The last moment at which a tick still waits for a ping sent then. */
  function Deadline(o: Options, sent: int): int {
    sent + o.intervalMs * (o.deadAfter + 1)
  }

  /** The events neither remove the peer nor answer this ping. */
  ghost predicate LeavesOpen(events: seq<Event>, id: string, ping: nat) {
    forall i :: 0 <= i < |events| ==>
      match events[i]
      case Remove(a) => a != id
      case Pong(a, p, _) => a != id || p != ping
      case _ => true
  }

  ghost predicate NoTickAfter(events: seq<Event>, deadline: int) {
    forall i :: 0 <= i < |events| && events[i].Tick? ==> events[i].now <= deadline
  }

  /** A ping is waited for until the first tick after its deadline, whatever else happens meanwhile, and
      not a moment less. */
  lemma {:induction false} PingIsAwaited(o: Options, run: seq<Event>, id: string, more: seq<Event>)
    requires run != [] && run[|run| - 1].Tick? && run[|run| - 1].writable(id) && id in After(o, run[..|run| - 1])
    requires LeavesOpen(more, id, After(o, run[..|run| - 1])[id].nextPingId)
    ensures var ping, sent, peers :=
              After(o, run[..|run| - 1])[id].nextPingId, run[|run| - 1].now, After(o, run + more);
            && id in peers && peers[id].nextPingId > ping
            && (ping in peers[id].pending <==> NoTickAfter(more, Deadline(o, sent)))
            && (ping in peers[id].pending ==> peers[id].pending[ping] == sent)
  {
    hide *;
    var ping, sent := After(o, run[..|run| - 1])[id].nextPingId, run[|run| - 1].now;
    if more == [] {
      assert run + more == run;
      PingGoesOut(o, run, id);
      NoneLeft(o, more, sent);
    } else {
      var front, ev := more[..|more| - 1], more[|more| - 1];
      LastOf(o, run, more, id, ping, sent);
      PingIsAwaited(o, run, id, front);
      StaysOpen(o, After(o, run + front), ev, id, ping, sent);
    }
  }

  lemma PingGoesOut(o: Options, run: seq<Event>, id: string)
    requires run != [] && run[|run| - 1].Tick? && run[|run| - 1].writable(id) && id in After(o, run[..|run| - 1])
    ensures var ping := After(o, run[..|run| - 1])[id].nextPingId;
            && id in After(o, run) && After(o, run)[id].nextPingId > ping && ping in After(o, run)[id].pending
            && After(o, run)[id].pending[ping] == run[|run| - 1].now
  {
    hide Classify, Fires, Recent;
  }

  lemma NoneLeft(o: Options, more: seq<Event>, sent: int)
    requires more == []
    ensures NoTickAfter(more, Deadline(o, sent))
  {
  }

  lemma LastOf(o: Options, run: seq<Event>, more: seq<Event>, id: string, ping: nat, sent: int)
    requires more != [] && LeavesOpen(more, id, ping)
    ensures var front, ev := more[..|more| - 1], more[|more| - 1];
            && LeavesOpen(front, id, ping) && LeavesOpen([ev], id, ping)
            && After(o, run + more) == Step(o, After(o, run + front), ev)
            && (NoTickAfter(more, Deadline(o, sent)) <==>
                NoTickAfter(front, Deadline(o, sent)) && (ev.Tick? ==> ev.now <= Deadline(o, sent)))
  {
    hide Step, Deadline;
    var front, ev := more[..|more| - 1], more[|more| - 1];
    assert (run + more)[..|run + more| - 1] == run + front;
    assert more == front + [ev];
  }

  lemma StaysOpen(o: Options, peers: Peers, ev: Event, id: string, ping: nat, sent: int)
    requires id in peers && peers[id].nextPingId > ping && LeavesOpen([ev], id, ping)
    requires ping in peers[id].pending ==> peers[id].pending[ping] == sent
    ensures var after := Step(o, peers, ev);
            && id in after && after[id].nextPingId > ping
            && (ping in after[id].pending <==>
                ping in peers[id].pending && (ev.Tick? ==> ev.now <= Deadline(o, sent)))
            && (ping in after[id].pending ==> after[id].pending[ping] == sent)
  {
    assert LeavesOpen([ev], id, ping) ==> match [ev][0]
      case Remove(a) => a != id
      case Pong(a, p, _) => a != id || p != ping
      case _ => true;
    hide Classify;
  }

  /** The pong of a ping that is waited for brings the peer back to full health, and the round trip is the
      time since that ping was sent. No other peer notices. A pong that is too late changes nothing. */
  lemma RoundTripIsMeasured(o: Options, run: seq<Event>, id: string, more: seq<Event>, now: int)
    requires run != [] && run[|run| - 1].Tick? && run[|run| - 1].writable(id) && id in After(o, run[..|run| - 1])
    requires LeavesOpen(more, id, After(o, run[..|run| - 1])[id].nextPingId)
    ensures var ping, sent := After(o, run[..|run| - 1])[id].nextPingId, run[|run| - 1].now;
            var before, after := After(o, run + more), Step(o, After(o, run + more), Pong(id, ping, now));
            if NoTickAfter(more, Deadline(o, sent)) then
              && id in before && id in after && after.Keys == before.Keys
              && (now >= sent ==> after[id].rttMs == Some(now - sent)) && (now < sent ==> after[id].rttMs == Some(0))
              && after[id].lastPongAt == Some(now) && after[id].misses == 0 && after[id].status == Healthy
              && !after[id].unhealthyFired && after[id].pending == before[id].pending - {ping}
              && forall other :: other in before && other != id ==> after[other] == before[other]
            else after == before
  {
    PingIsAwaited(o, run, id, more);
    hide After, NoTickAfter, LeavesOpen;
  }

  /** Adding a peer again revives it as a pong does, but it still waits for its pings. */
  lemma AddRevives(o: Options, run: seq<Event>, id: string)
    ensures var before, after := After(o, run), After(o, run + [Add(id)]);
            && after.Keys == before.Keys + {id} && after[id].misses == 0 && after[id].status == Healthy
            && !after[id].unhealthyFired
            && (id in before ==> after[id].pending == before[id].pending && after[id].rttMs == before[id].rttMs
                                 && after[id].lastPongAt == before[id].lastPongAt
                                 && after[id].nextPingId == before[id].nextPingId)
            && (id !in before ==> after[id].pending == map[] && after[id].rttMs == None && after[id].lastPongAt == None)
            && forall other :: other in before && other != id ==> after[other] == before[other]
  {
    assert (run + [Add(id)])[..|run|] == run;
  }

  /** Does the event bring the peer back to life, or into or out of the tracker? */
  predicate Recovers(o: Options, peers: Peers, ev: Event, id: string) {
    match ev
    case Add(a) => a == id
    case Remove(a) => a == id
    case Pong(a, ping, _) => a == id && id in peers && ping in peers[id].pending
    case Tick(_, _) => false
  }

  /** How often the owner was told about a peer since it last recovered. */
  function Calls(o: Options, run: seq<Event>, id: string): nat {
    if run == [] then 0
    else
      var front, ev := run[..|run| - 1], run[|run| - 1];
      var peers := After(o, front);
      if Recovers(o, peers, ev, id) then 0
      else Calls(o, front, id) + if ev.Tick? && id in peers && Fires(o, peers[id]) then 1 else 0
  }

  /** At most one report between recoveries, and the flag says whether there was one. */
  lemma {:induction false} ReportedOnce(o: Options, run: seq<Event>, id: string)
    ensures Calls(o, run, id) == if id in After(o, run) && After(o, run)[id].unhealthyFired then 1 else 0
  {
    if run != [] {
      ReportedOnce(o, run[..|run| - 1], id);
    }
  }

  // ---------- the number of pings waited for ----------

  /** Ticks come at least an interval apart. */
  ghost predicate Spaced(o: Options, run: seq<Event>) {
    forall i, j :: 0 <= i < j < |run| && run[i].Tick? && run[j].Tick? ==> run[j].now >= run[i].now + o.intervalMs
  }

  /** Ping `id` went out at least `age` intervals before `now`, one interval for each later ping. */
  ghost predicate SentBefore(o: Options, e: Entry, now: int) {
    && (forall id :: id in e.pending ==> id < e.nextPingId)
    && (forall id :: id in e.pending ==> e.pending[id] + (e.nextPingId - 1 - id) * o.intervalMs <= now)
  }

  ghost predicate Bounded(o: Options, e: Entry) {
    forall id :: id in e.pending ==> e.nextPingId - 1 - id <= o.deadAfter + 1
  }

  ghost predicate LastTickBy(run: seq<Event>, now: int) {
    forall i :: 0 <= i < |run| && run[i].Tick? ==> run[i].now <= now
  }

  lemma OneIntervalLater(age: nat, interval: nat, deadAfter: nat, sent: int, last: int, now: int)
    requires sent + age * interval <= last && last + interval <= now && interval > 0
    ensures sent + (age + 1) * interval <= now
    ensures sent >= now - interval * (deadAfter + 1) ==> age + 1 <= deadAfter + 1
  {
    assert (age + 1) * interval == age * interval + interval;
    if age > deadAfter {
      LargerProduct(deadAfter + 1, age, interval);
    }
  }

  lemma LargerProduct(a: nat, b: nat, c: nat)
    requires a <= b
    ensures a * c <= b * c
  {
  }

  lemma TickKeepsAges(o: Options, e: Entry, last: int, now: int, writable: bool)
    requires SentBefore(o, e, last) && last + o.intervalMs <= now && o.intervalMs > 0
    ensures SentBefore(o, Ticked(o, e, now, writable), now) && Bounded(o, Ticked(o, e, now, writable))
  {
    var r, n := Ticked(o, e, now, writable), e.nextPingId;
    forall id | id in r.pending
      ensures id <= n && r.pending[id] + (n - id) * o.intervalMs <= now && n - id <= o.deadAfter + 1
    {
      if id != n || !writable {
        StillPending(o, e, now, writable, id);
        OneIntervalLater(n - 1 - id, o.intervalMs, o.deadAfter, e.pending[id], last, now);
      }
    }
  }

  lemma StillPending(o: Options, e: Entry, now: int, writable: bool, id: nat)
    requires id in Ticked(o, e, now, writable).pending && (id != e.nextPingId || !writable)
    ensures id in e.pending && Ticked(o, e, now, writable).pending[id] == e.pending[id] >= Cutoff(o, now)
  {
  }

  lemma OthersKeepAges(o: Options, peers: Peers, ev: Event, id: string, now: int)
    requires !ev.Tick? && id in Step(o, peers, ev)
    requires id in peers ==> SentBefore(o, peers[id], now) && Bounded(o, peers[id])
    ensures SentBefore(o, Step(o, peers, ev)[id], now) && Bounded(o, Step(o, peers, ev)[id])
  {
  }

  lemma {:induction false} PendingAges(o: Options, run: seq<Event>, id: string, now: int)
    requires Spaced(o, run) && o.intervalMs > 0 && LastTickBy(run, now) && id in After(o, run)
    ensures SentBefore(o, After(o, run)[id], now) && Bounded(o, After(o, run)[id])
  {
    var front, ev := run[..|run| - 1], run[|run| - 1];
    if id in After(o, front) {
      PendingAges(o, front, id, if ev.Tick? then ev.now - o.intervalMs else now);
    }
    if ev.Tick? {
      TickKeepsAges(o, After(o, front)[id], ev.now - o.intervalMs, ev.now, ev.writable(id));
      hide Ticked;
    } else {
      OthersKeepAges(o, After(o, front), ev, id, now);
    }
  }

  lemma BoundedSize(o: Options, e: Entry, now: int)
    requires SentBefore(o, e, now) && Bounded(o, e)
    ensures |e.pending| <= o.deadAfter + 2
  {
    var lo := e.nextPingId - o.deadAfter - 2;
    PositiveSize(e.pending.Keys, lo, e.nextPingId);
  }

  lemma PositiveSize(s: set<nat>, lo: int, hi: int)
    requires lo <= hi && forall x :: x in s ==> lo <= x < hi
    ensures |s| <= hi - lo
  {
    var wide: set<int> := s;
    IntervalSize(lo, hi);
    SubsetSize(wide, Interval(lo, hi));
  }

  /** With ticks at least an interval apart, never more than a few pings are waited for. */
  lemma PendingIsBounded(o: Options, run: seq<Event>, id: string)
    requires Spaced(o, run) && o.intervalMs > 0 && id in After(o, run)
    ensures |After(o, run)[id].pending| <= o.deadAfter + 2
  {
    PendingAges(o, run, id, Latest(run));
    BoundedSize(o, After(o, run)[id], Latest(run));
  }

  function Latest(run: seq<Event>): (now: int)
    ensures LastTickBy(run, now)
  {
    if run == [] then 0
    else
      var t, ev := Latest(run[..|run| - 1]), run[|run| - 1];
      if ev.Tick? && ev.now > t then ev.now else t
  }

  // ---------- a peer that no longer answers ----------

  /** A tick as one peer sees it. */
  datatype Probe = Probe(now: int, writable: bool)

  /** The entry after some ticks without a pong. */
  function Unanswered(o: Options, e: Entry, ticks: seq<Probe>): Entry {
    if ticks == [] then e
    else Ticked(o, Unanswered(o, e, ticks[..|ticks| - 1]), ticks[|ticks| - 1].now, ticks[|ticks| - 1].writable)
  }

  /** How often the owner is told about the peer in them. */
  function Reports(o: Options, e: Entry, ticks: seq<Probe>): nat {
    if ticks == [] then 0
    else Reports(o, e, ticks[..|ticks| - 1]) + if Fires(o, Unanswered(o, e, ticks[..|ticks| - 1])) then 1 else 0
  }

  /** The first tick that found the channel writable, or the number of ticks. */
  function FirstWritable(ticks: seq<Probe>): (w: nat)
    ensures w <= |ticks| && (w < |ticks| ==> ticks[w].writable)
    ensures forall i :: 0 <= i < w ==> !ticks[i].writable
  {
    if ticks == [] || ticks[0].writable then 0 else 1 + FirstWritable(ticks[1..])
  }

  /** The number of ticks that did not. */
  function Refusals(ticks: seq<Probe>): (n: nat)
    ensures n <= |ticks|
  {
    if ticks == [] then 0 else Refusals(ticks[..|ticks| - 1]) + if ticks[|ticks| - 1].writable then 0 else 1
  }

  // ---------- which pings are still waited for ----------

  /** The ping of tick j is still waited for after all these ticks: no later one gave it up as too old. */
  ghost predicate StillAwaited(o: Options, ticks: seq<Probe>, j: nat)
    requires j < |ticks|
  {
    ticks[j].writable && forall i :: j < i < |ticks| ==> ticks[j].now >= Cutoff(o, ticks[i].now)
  }

  ghost predicate Awaiting(o: Options, ticks: seq<Probe>) {
    exists j :: 0 <= j < |ticks| && StillAwaited(o, ticks, j)
  }

  /** The number of ticks that found a ping unanswered. */
  ghost function Rounds(o: Options, ticks: seq<Probe>): nat {
    if ticks == [] then 0
    else Rounds(o, ticks[..|ticks| - 1]) + if Awaiting(o, ticks[..|ticks| - 1]) then 1 else 0
  }

  /** The pending pings of a peer that had none are those still waited for. */
  ghost predicate PendingAre(o: Options, e: Entry, u: Entry, ticks: seq<Probe>) {
    && u.nextPingId == e.nextPingId + |ticks|
    && (forall id :: id in u.pending ==> e.nextPingId <= id < u.nextPingId)
    && forall j :: 0 <= j < |ticks| ==>
         (e.nextPingId + j in u.pending <==> StillAwaited(o, ticks, j))
         && (e.nextPingId + j in u.pending ==> u.pending[e.nextPingId + j] == ticks[j].now)
  }

  lemma StillAwaitedGrows(o: Options, front: seq<Probe>, last: Probe, j: nat)
    requires j <= |front|
    ensures StillAwaited(o, front + [last], j)
       <==> if j < |front| then StillAwaited(o, front, j) && front[j].now >= Cutoff(o, last.now) else last.writable
  {
    var all := front + [last];
    if j < |front| && StillAwaited(o, all, j) {
      assert all[|front|] == last && all[j] == front[j];
      forall i | j < i < |front| ensures front[j].now >= Cutoff(o, front[i].now) {
        assert all[i] == front[i];
      }
    }
  }

  lemma PendingGoOn(o: Options, e: Entry, u: Entry, front: seq<Probe>, last: Probe)
    requires PendingAre(o, e, u, front)
    ensures PendingAre(o, e, Ticked(o, u, last.now, last.writable), front + [last])
  {
    var all, t := front + [last], Ticked(o, u, last.now, last.writable);
    assert u.pending == map[] ==> Recent(o, u.pending, last.now) == u.pending;
    forall j | 0 <= j < |all|
      ensures e.nextPingId + j in t.pending <==> StillAwaited(o, all, j)
      ensures e.nextPingId + j in t.pending ==> t.pending[e.nextPingId + j] == all[j].now
    {
      StillAwaitedGrows(o, front, last, j);
    }
  }

  /** Every refusal is a miss, and so is every tick that found a ping unanswered. */
  lemma {:induction false} MissesAdd(o: Options, e: Entry, ticks: seq<Probe>)
    requires e.pending == map[]
    ensures var u := Unanswered(o, e, ticks);
            && u.misses == e.misses + Refusals(ticks) + Rounds(o, ticks)
            && (u.pending != map[] <==> Awaiting(o, ticks)) && PendingAre(o, e, u, ticks)
            && (e.status == Classify(o, e.misses) ==> u.status == Classify(o, u.misses))
  {
    if ticks != [] {
      var front, last := ticks[..|ticks| - 1], ticks[|ticks| - 1];
      assert ticks == front + [last];
      MissesAdd(o, e, front);
      PendingGoOn(o, e, Unanswered(o, e, front), front, last);
    }
    AwaitingIsPending(o, e, Unanswered(o, e, ticks), ticks);
  }

  lemma AwaitingIsPending(o: Options, e: Entry, u: Entry, ticks: seq<Probe>)
    requires PendingAre(o, e, u, ticks)
    ensures u.pending != map[] <==> Awaiting(o, ticks)
  {
    if u.pending != map[] {
      var id :| id in u.pending;
      assert StillAwaited(o, ticks, id - e.nextPingId);
    }
    if Awaiting(o, ticks) {
      var j :| 0 <= j < |ticks| && StillAwaited(o, ticks, j);
      assert e.nextPingId + j in u.pending;
    }
  }

  lemma {:induction false} ReportsAreFlag(o: Options, e: Entry, ticks: seq<Probe>)
    ensures var u := Unanswered(o, e, ticks);
            Reports(o, e, ticks) == if u.unhealthyFired && !e.unhealthyFired then 1 else 0
    ensures e.unhealthyFired ==> Unanswered(o, e, ticks).unhealthyFired
  {
    if ticks != [] {
      ReportsAreFlag(o, e, ticks[..|ticks| - 1]);
    }
  }

  /** Exactly when the owner is told, whatever the thresholds and the times: some tick that finds a ping
      unanswered counts the misses to an unhealthy number. A refusal counts too, and can step over it. */
  lemma {:induction false} ReportedExactly(o: Options, e: Entry, ticks: seq<Probe>)
    requires e.pending == map[] && !e.unhealthyFired
    ensures Unanswered(o, e, ticks).unhealthyFired
       <==> exists t :: 0 <= t < |ticks| && CountsUnhealthy(o, e, ticks[..t])
  {
    if ticks != [] {
      var n, front, last := |ticks| - 1, ticks[..|ticks| - 1], ticks[|ticks| - 1];
      ReportedExactly(o, e, front);
      forall t | 0 <= t < n ensures front[..t] == ticks[..t] {
      }
      CountFires(o, e, front);
      hide CountsUnhealthy, Fires, Recent, Missed;
    }
  }

  /** Does the next tick find a ping unanswered, and count the misses to an unhealthy number? */
  ghost predicate CountsUnhealthy(o: Options, e: Entry, ticks: seq<Probe>) {
    Awaiting(o, ticks) && o.unhealthyAfter <= e.misses + Refusals(ticks) + Rounds(o, ticks) + 1 < o.deadAfter
  }

  lemma CountFires(o: Options, e: Entry, ticks: seq<Probe>)
    requires e.pending == map[]
    ensures var u := Unanswered(o, e, ticks);
            CountsUnhealthy(o, e, ticks) <==> u.pending != map[] && Classify(o, u.misses + 1) == Unhealthy
  {
    MissesAdd(o, e, ticks);
  }

  // ---------- while some ping is always waited for ----------

  /** From the first ping on, every tick finds one unanswered. */
  ghost predicate Steady(o: Options, ticks: seq<Probe>) {
    forall t :: FirstWritable(ticks) < t < |ticks| ==> Awaiting(o, ticks[..t])
  }

  /** So it is if all ticks come before the first ping is given up as too old. */
  lemma SoonIsSteady(o: Options, start: int, ticks: seq<Probe>)
    requires forall i :: 0 <= i < |ticks| ==> start <= ticks[i].now && start >= Cutoff(o, ticks[i].now)
    ensures Steady(o, ticks)
  {
    var w := FirstWritable(ticks);
    forall t | w < t < |ticks| ensures Awaiting(o, ticks[..t]) {
      assert StillAwaited(o, ticks[..t], w);
    }
  }

  lemma FirstWritableGrows(front: seq<Probe>, last: Probe)
    ensures FirstWritable(front + [last]) ==
            if FirstWritable(front) < |front| || last.writable then FirstWritable(front) else |front| + 1
  {
    var all, w := front + [last], FirstWritable(front);
    assert forall i :: 0 <= i < |front| ==> all[i] == front[i];
    assert all[|front|] == last;
  }

  lemma SteadyFront(o: Options, front: seq<Probe>, last: Probe)
    requires Steady(o, front + [last])
    ensures Steady(o, front) && (FirstWritable(front) < |front| ==> Awaiting(o, front))
  {
    var all := front + [last];
    FirstWritableGrows(front, last);
    forall t | FirstWritable(front) < t < |front| ensures Awaiting(o, front[..t]) {
      assert all[..t] == front[..t];
    }
    assert all[..|front|] == front;
  }

  lemma AwaitingMeansPinged(o: Options, ticks: seq<Probe>)
    requires Awaiting(o, ticks)
    ensures FirstWritable(ticks) < |ticks|
  {
    var j :| 0 <= j < |ticks| && StillAwaited(o, ticks, j);
  }

  lemma {:induction false} SteadyRounds(o: Options, ticks: seq<Probe>)
    requires Steady(o, ticks)
    ensures var n, w := |ticks|, FirstWritable(ticks); Rounds(o, ticks) == if w < n then n - 1 - w else 0
  {
    if ticks != [] {
      var front, last := ticks[..|ticks| - 1], ticks[|ticks| - 1];
      assert ticks == front + [last];
      SteadyFront(o, front, last);
      SteadyRounds(o, front);
      FirstWritableGrows(front, last);
      if Awaiting(o, front) {
        AwaitingMeansPinged(o, front);
      }
      hide Awaiting, FirstWritable;
    }
  }

  lemma {:induction false} RefusalsFirst(ticks: seq<Probe>, t: nat)
    requires FirstWritable(ticks) <= t <= |ticks|
    ensures Refusals(ticks[..t]) >= FirstWritable(ticks)
  {
    var w := FirstWritable(ticks);
    AllRefused(ticks[..w]);
    RefusalsGrow(ticks, w, t);
  }

  lemma {:induction false} AllRefused(ticks: seq<Probe>)
    requires forall i :: 0 <= i < |ticks| ==> !ticks[i].writable
    ensures Refusals(ticks) == |ticks|
  {
    if ticks != [] {
      AllRefused(ticks[..|ticks| - 1]);
    }
  }

  lemma {:induction false} RefusalsGrow(ticks: seq<Probe>, s: nat, t: nat)
    requires s <= t <= |ticks|
    ensures Refusals(ticks[..s]) <= Refusals(ticks[..t])
  {
    if s < t {
      RefusalsGrow(ticks, s, t - 1);
      assert ticks[..t][..t - 1] == ticks[..t - 1];
    }
  }

  /** With two unhealthy numbers at least between stale and dead, they cannot be stepped over: until it
      is reported, a peer that was pinged in time is short of dead by two. */
  lemma {:induction false} UnreportedIsAlive(o: Options, e: Entry, ticks: seq<Probe>)
    requires e.pending == map[] && Steady(o, ticks) && o.unhealthyAfter + 2 <= o.deadAfter
    requires FirstWritable(ticks) < |ticks| && e.misses + FirstWritable(ticks) + 2 <= o.deadAfter
    ensures var u := Unanswered(o, e, ticks); u.unhealthyFired || u.misses + 2 <= o.deadAfter
  {
    var front, last := ticks[..|ticks| - 1], ticks[|ticks| - 1];
    assert ticks == front + [last];
    SteadyFront(o, front, last);
    FirstWritableGrows(front, last);
    MissesAdd(o, e, front);
    if FirstWritable(front) < |front| {
      UnreportedIsAlive(o, e, front);
    } else {
      AllRefused(front);
      SteadyRounds(o, front);
      if Awaiting(o, front) {
        AwaitingMeansPinged(o, front);
      }
    }
    hide Awaiting, FirstWritable, Rounds, Refusals, PendingAre, Recent;
  }

  /** A peer with nothing pending that falls silent and dies was reported if and only if one of the first
      ticks - as many as it was short of one miss before dead - found its channel writable. */
  lemma ReportedBeforeDeath(o: Options, e: Entry, ticks: seq<Probe>)
    requires e.pending == map[] && !e.unhealthyFired && Steady(o, ticks)
    requires o.unhealthyAfter + 2 <= o.deadAfter <= Unanswered(o, e, ticks).misses
    ensures Reports(o, e, ticks) == 1
       <==> exists i :: 0 <= i < |ticks| && i < o.deadAfter - 1 - e.misses && ticks[i].writable
  {
    var w := FirstWritable(ticks);
    ReportsAreFlag(o, e, ticks);
    if e.misses + w + 2 <= o.deadAfter {
      if w < |ticks| {
        UnreportedIsAlive(o, e, ticks);
      } else {
        MissesAdd(o, e, ticks);
        SteadyRounds(o, ticks);
      }
    } else {
      ReportedExactly(o, e, ticks);
      forall t | 0 <= t < |ticks| ensures !CountsUnhealthy(o, e, ticks[..t]) {
        PingedTooLate(o, e, ticks, t);
      }
    }
  }

  lemma PingedTooLate(o: Options, e: Entry, ticks: seq<Probe>, t: nat)
    requires t <= |ticks| && e.misses + FirstWritable(ticks) + 2 > o.deadAfter
    ensures !CountsUnhealthy(o, e, ticks[..t])
  {
    if Awaiting(o, ticks[..t]) {
      AwaitingMeansPinged(o, ticks[..t]);
      assert ticks[FirstWritable(ticks[..t])].writable;
      RefusalsFirst(ticks, t);
    }
  }

  /** Without that, it does not hold: a ping that was given up as too old, because the next tick came
      late, no longer leads to a report. */
  lemma ForgottenPingMissesReport(o: Options, e: Entry, ticks: seq<Probe>)
    requires e.pending == map[] && e.misses == 0 && !e.unhealthyFired && o.unhealthyAfter >= 2
    requires |ticks| >= 2 && forall i :: 0 <= i < |ticks| ==> (ticks[i].writable <==> i == 0)
    requires ticks[0].now < Cutoff(o, ticks[1].now)
    ensures Unanswered(o, e, ticks).misses == |ticks| && Reports(o, e, ticks) == 0
  {
    ReportsAreFlag(o, e, ticks);
    ReportedExactly(o, e, ticks);
    forall t | 0 <= t < |ticks| ensures !CountsUnhealthy(o, e, ticks[..t]) {
      Forgotten(o, ticks, t);
      RefusalsAfter(ticks, 1, t);
    }
    MissesAdd(o, e, ticks);
    Forgotten(o, ticks, |ticks|);
    RefusalsAfter(ticks, 1, |ticks|);
    assert ticks[..|ticks|] == ticks;
  }

  lemma {:induction false} Forgotten(o: Options, ticks: seq<Probe>, t: nat)
    requires 2 <= |ticks| && t <= |ticks| && forall i :: 0 <= i < |ticks| ==> (ticks[i].writable <==> i == 0)
    requires ticks[0].now < Cutoff(o, ticks[1].now)
    ensures (Awaiting(o, ticks[..t]) <==> t == 1) && Rounds(o, ticks[..t]) == if t <= 1 then 0 else 1
  {
    if t == 1 {
      assert StillAwaited(o, ticks[..1], 0);
    }
    if t > 1 {
      assert forall j :: 0 <= j < t && StillAwaited(o, ticks[..t], j) ==> j == 0 && ticks[..t][1] == ticks[1];
    }
    if t > 0 {
      Forgotten(o, ticks, t - 1);
      assert ticks[..t][..t - 1] == ticks[..t - 1];
    }
  }

  /** With only one unhealthy number, a peer that is pinged and then loses its channel turns unhealthy and
      dead without a report, though the first pings went out. */
  lemma NarrowThresholdsMissReport(o: Options, e: Entry, ticks: seq<Probe>)
    requires e.pending == map[] && e.misses == 0 && e.status == Classify(o, 0) && !e.unhealthyFired
    requires Steady(o, ticks) && o.unhealthyAfter >= 2 && o.deadAfter == o.unhealthyAfter + 1
    requires |ticks| == o.unhealthyAfter + 1
    requires forall i :: 0 <= i < |ticks| ==> (ticks[i].writable <==> i < o.unhealthyAfter - 1)
    ensures Unanswered(o, e, ticks[..o.unhealthyAfter]).status == Unhealthy
    ensures Unanswered(o, e, ticks).status == Dead && Reports(o, e, ticks) == 0
  {
    var u := o.unhealthyAfter;
    NarrowCount(o, ticks, u - 1, u);
    NarrowCount(o, ticks, u - 1, u + 1);
    assert ticks[..u + 1] == ticks;
    hide PendingAre, Awaiting, FirstWritable, Refusals, Rounds, Unanswered, Reports, CountsUnhealthy;
    MissesAdd(o, e, ticks[..u]);
    MissesAdd(o, e, ticks);
    ReportedExactly(o, e, ticks);
    ReportsAreFlag(o, e, ticks);
    hide Steady;
    forall t | 0 <= t < |ticks| ensures !CountsUnhealthy(o, e, ticks[..t]) {
      NarrowMissesWindow(o, e, ticks, t);
    }
  }

  lemma NarrowMissesWindow(o: Options, e: Entry, ticks: seq<Probe>, t: nat)
    requires e.misses == 0 && Steady(o, ticks) && o.unhealthyAfter >= 2 && o.deadAfter == o.unhealthyAfter + 1
    requires t < |ticks| == o.unhealthyAfter + 1
    requires forall i :: 0 <= i < |ticks| ==> (ticks[i].writable <==> i < o.unhealthyAfter - 1)
    ensures !CountsUnhealthy(o, e, ticks[..t])
  {
    NarrowCount(o, ticks, o.unhealthyAfter - 1, t);
    hide Steady, Awaiting, FirstWritable, Refusals, Rounds;
  }

  lemma NarrowCount(o: Options, ticks: seq<Probe>, s: nat, t: nat)
    requires 0 < s < |ticks| && t <= |ticks| && Steady(o, ticks)
    requires forall i :: 0 <= i < |ticks| ==> (ticks[i].writable <==> i < s)
    ensures Refusals(ticks[..t]) == (if t < s then 0 else t - s) && Rounds(o, ticks[..t]) == if t == 0 then 0 else t - 1
  {
    RefusalsAfter(ticks, s, t);
    assert ticks[0].writable && FirstWritable(ticks) == 0;
    SteadyPrefix(o, ticks, t);
    SteadyRounds(o, ticks[..t]);
    if t > 0 {
      assert ticks[..t][0].writable && FirstWritable(ticks[..t]) == 0;
    }
  }

  lemma SteadyPrefix(o: Options, ticks: seq<Probe>, t: nat)
    requires Steady(o, ticks) && t <= |ticks| && FirstWritable(ticks) == 0
    ensures Steady(o, ticks[..t])
  {
    forall s | FirstWritable(ticks[..t]) < s < t ensures Awaiting(o, ticks[..t][..s]) {
      assert ticks[..t][..s] == ticks[..s];
    }
  }

  lemma {:induction false} RefusalsAfter(ticks: seq<Probe>, s: nat, t: nat)
    requires t <= |ticks| && forall i :: 0 <= i < |ticks| ==> (ticks[i].writable <==> i < s)
    ensures Refusals(ticks[..t]) == if t < s then 0 else t - s
  {
    if t > 0 {
      RefusalsAfter(ticks, s, t - 1);
      assert ticks[..t][..t - 1] == ticks[..t - 1];
    }
  }

  /** A peer with nothing pending whose channel is closed dies unreported, whatever came before: every
      refused ping is a miss, and only an unanswered one leads to a report. */
  lemma {:induction false} BlockedPeerDiesUnreported(o: Options, e: Entry, ticks: seq<Probe>)
    requires e.pending == map[] && forall i :: 0 <= i < |ticks| ==> !ticks[i].writable
    ensures var u := Unanswered(o, e, ticks);
            && u.misses == e.misses + |ticks| && u.pending == map[] && Reports(o, e, ticks) == 0
            && (ticks != [] ==> u.status == Classify(o, u.misses))
  {
    if ticks != [] {
      BlockedPeerDiesUnreported(o, e, ticks[..|ticks| - 1]);
    }
  }

  /** A fresh, silent peer misses one ping per tick after the first: it turns stale, unhealthy and dead at
      exact ticks, and is reported exactly once - unless the thresholds leave no room for unhealthy. */
  lemma {:induction false} SilentPeerDies(o: Options, ticks: seq<Probe>)
    requires ticks != [] && forall i :: 0 <= i < |ticks| ==> ticks[i].writable
    requires o.staleAfter > 0 && o.unhealthyAfter > 0 && o.deadAfter > 0
    ensures var e, n := Unanswered(o, FRESH, ticks), |ticks|;
            && e.misses == n - 1 && e.pending != map[]
            && e.status == (if n - 1 >= o.deadAfter then Dead else if n - 1 >= o.unhealthyAfter then Unhealthy
                            else if n - 1 >= o.staleAfter then Stale else Healthy)
            && (e.unhealthyFired <==> Reports(o, FRESH, ticks) == 1)
            && Reports(o, FRESH, ticks) == if o.unhealthyAfter < o.deadAfter && n - 1 >= o.unhealthyAfter then 1 else 0
  {
    var front, last := ticks[..|ticks| - 1], ticks[|ticks| - 1];
    var e := Unanswered(o, FRESH, ticks);
    assert e.nextPingId - 1 in e.pending;
    if front != [] {
      SilentPeerDies(o, front);
    }
  }

  // ---------- the same in a run of the tracker ----------

  /** None of the events brings the peer back to life. */
  ghost predicate NoRecovery(o: Options, before: seq<Event>, quiet: seq<Event>, id: string) {
    forall i :: 0 <= i < |quiet| ==> !Recovers(o, After(o, before + quiet[..i]), quiet[i], id)
  }

  /** The ticks among some events, as one peer sees them. */
  function Probes(events: seq<Event>, id: string): seq<Probe> {
    if events == [] then []
    else
      var front, ev := Probes(events[..|events| - 1], id), events[|events| - 1];
      if ev.Tick? then front + [Probe(ev.now, ev.writable(id))] else front
  }

  /** In any run of the tracker, a peer is a peer that no longer answers until it next recovers, and the
      owner is told about it as often. */
  lemma {:induction false} QuietPeerIsUnanswered(o: Options, before: seq<Event>, quiet: seq<Event>, id: string)
    requires id in After(o, before) && NoRecovery(o, before, quiet, id)
    ensures var e, run := After(o, before)[id], before + quiet;
            && id in After(o, run) && After(o, run)[id] == Unanswered(o, e, Probes(quiet, id))
            && Calls(o, run, id) == Calls(o, before, id) + Reports(o, e, Probes(quiet, id))
  {
    hide *;
    if quiet == [] {
      assert before + quiet == before;
      NothingHappens(o, After(o, before)[id], quiet, id);
    } else {
      var front, ev := quiet[..|quiet| - 1], quiet[|quiet| - 1];
      FrontHasNoRecovery(o, before, quiet, id);
      QuietPeerIsUnanswered(o, before, front, id);
      assert before + quiet == before + front + [ev] && quiet == front + [ev];
      RunStep(o, before + front, ev, id);
      ProbesGrow(front, ev, id);
      if ev.Tick? {
        UnansweredStep(o, After(o, before)[id], Probes(front, id), ev, id);
      }
    }
  }

  lemma NothingHappens(o: Options, e: Entry, quiet: seq<Event>, id: string)
    requires quiet == []
    ensures Unanswered(o, e, Probes(quiet, id)) == e && Reports(o, e, Probes(quiet, id)) == 0
  {
  }

  lemma FrontHasNoRecovery(o: Options, before: seq<Event>, quiet: seq<Event>, id: string)
    requires NoRecovery(o, before, quiet, id) && quiet != []
    ensures var front, ev := quiet[..|quiet| - 1], quiet[|quiet| - 1];
            NoRecovery(o, before, front, id) && !Recovers(o, After(o, before + front), ev, id)
  {
    var front := quiet[..|quiet| - 1];
    hide Recovers, After;
    forall i | 0 <= i < |front| ensures !Recovers(o, After(o, before + front[..i]), front[i], id) {
      assert front[..i] == quiet[..i] && front[i] == quiet[i];
    }
  }

  lemma RunStep(o: Options, run: seq<Event>, ev: Event, id: string)
    requires id in After(o, run) && !Recovers(o, After(o, run), ev, id)
    ensures var e := After(o, run)[id];
            && id in After(o, run + [ev])
            && After(o, run + [ev])[id] == (if ev.Tick? then Ticked(o, e, ev.now, ev.writable(id)) else e)
            && Calls(o, run + [ev], id) == Calls(o, run, id) + if ev.Tick? && Fires(o, e) then 1 else 0
  {
    assert (run + [ev])[..|run|] == run;
    StepWithoutRecovery(o, After(o, run), ev, id);
    hide Step, Recovers, Ticked, Fires;
  }

  lemma UnansweredStep(o: Options, e: Entry, ticks: seq<Probe>, ev: Event, id: string)
    requires ev.Tick?
    ensures var u, more := Unanswered(o, e, ticks), ticks + [Probe(ev.now, ev.writable(id))];
            && Unanswered(o, e, more) == Ticked(o, u, ev.now, ev.writable(id))
            && Reports(o, e, more) == Reports(o, e, ticks) + if Fires(o, u) then 1 else 0
  {
    assert (ticks + [Probe(ev.now, ev.writable(id))])[..|ticks|] == ticks;
    hide Ticked, Fires;
  }

  lemma StepWithoutRecovery(o: Options, peers: Peers, ev: Event, id: string)
    requires id in peers && !Recovers(o, peers, ev, id)
    ensures id in Step(o, peers, ev)
    ensures Step(o, peers, ev)[id] == if ev.Tick? then Ticked(o, peers[id], ev.now, ev.writable(id)) else peers[id]
  {
  }

  lemma ProbesGrow(front: seq<Event>, ev: Event, id: string)
    ensures Probes(front + [ev], id)
         == if ev.Tick? then Probes(front, id) + [Probe(ev.now, ev.writable(id))] else Probes(front, id)
  {
    assert (front + [ev])[..|front|] == front;
  }
}
