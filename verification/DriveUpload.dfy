/** The distribution of an upload's shards as a protocol: offer, offer-ack, store, store-ack, over a
    wire that may lose, delay, duplicate and reorder messages, with timeouts at any moment.

    Holders are honest: each runs the handler of the source. Other uploads go on at the same time under
    other file ids; file ids are random and taken to be unique. A wire is the set of all messages ever
    sent, any of which may be delivered any number of times or never. */
module DriveUpload {
  import opened Bits
  import opened Wrappers
  import opened GFTables
  import opened ReedSolomon
  import opened Sharding
  import opened Drive

  type FileId = string

  datatype Message =
    | Offer(file: FileId, index: nat, size: nat, digest: Digest)
    | OfferAck(file: FileId, index: nat, accept: bool)
    | Store(file: FileId, index: nat, data: seq<byte>)
    | StoreAck(file: FileId, index: nat, ok: bool)

  datatype Envelope = Envelope(from: PeerId, to: PeerId, msg: Message)

  datatype StoredShard = StoredShard(data: seq<byte>, digest: Digest)

  type PeerStore = map<(FileId, nat), StoredShard>

  /** One distribution task: idle until started, then waiting for one of the two acknowledgements, and
      in the end stored, or given up before or after the holder accepted. */
  datatype Task = Idle | Offering | Storing | Stored | Declined | Abandoned

  /** What is fixed for an upload. */
  datatype Upload = Upload(file: FileId, self: PeerId, peers: seq<PeerId>, shards: seq<seq<byte>>, k: nat,
                           hash: seq<byte> -> Digest) {
    function Pool(): seq<PeerId> {
      [self] + peers
    }

    function HolderOf(i: nat): PeerId {
      Holder(i, Pool())
    }
  }

  datatype State = State(tasks: seq<Task>, accepted: nat, stored: nat, stores: map<PeerId, PeerStore>,
                         wire: set<Envelope>)

  function StoreOf(s: State, p: PeerId): PeerStore {
    if p in s.stores then s.stores[p] else map[]
  }

  function Put(s: State, u: Upload, p: PeerId, file: FileId, index: nat, data: seq<byte>): State {
    s.(stores := s.stores[p := StoreOf(s, p)[(file, index) := StoredShard(data, u.hash(data))]])
  }

  ghost predicate Init(u: Upload, s: State) {
    && s.tasks == seq(|u.shards|, _ => Idle) && s.accepted == 0 && s.stored == 0
    && forall e :: e in s.wire ==> e.msg.file != u.file
  }

  // ---------- the uploader ----------

  /** A shard of the uploader's own is stored at once; any other is offered to its holder. */
  ghost predicate Start(u: Upload, s: State, s': State, i: nat) {
    && i < |s.tasks| == |u.shards| && s.tasks[i] == Idle
    && if u.HolderOf(i) == u.self then
         s' == Put(s, u, u.self, u.file, i, u.shards[i]).(
           tasks := s.tasks[i := Stored], accepted := s.accepted + 1, stored := s.stored + 1)
       else
         var offer := Offer(u.file, i, |u.shards[i]|, u.hash(u.shards[i]));
         s' == s.(tasks := s.tasks[i := Offering], wire := s.wire + {Envelope(u.self, u.HolderOf(i), offer)})
  }

  /** An answer counts only if it comes from the allocated holder and names this file and shard,
      while the shard's task waits for it. */
  ghost predicate Answers(u: Upload, s: State, e: Envelope, waiting: Task) {
    && e in s.wire && e.to == u.self && e.msg.file == u.file
    && e.msg.index < |s.tasks| == |u.shards| && s.tasks[e.msg.index] == waiting && e.from == u.HolderOf(e.msg.index)
  }

  ghost predicate OnOfferAck(u: Upload, s: State, s': State, e: Envelope) {
    && e.msg.OfferAck? && Answers(u, s, e, Offering)
    && if e.msg.accept then
         s' == s.(tasks := s.tasks[e.msg.index := Storing], accepted := s.accepted + 1,
                  wire := s.wire + {Envelope(u.self, e.from, Store(u.file, e.msg.index, u.shards[e.msg.index]))})
       else s' == s.(tasks := s.tasks[e.msg.index := Declined])
  }

  ghost predicate OnStoreAck(u: Upload, s: State, s': State, e: Envelope) {
    && e.msg.StoreAck? && Answers(u, s, e, Storing)
    && s' == if e.msg.ok then s.(tasks := s.tasks[e.msg.index := Stored], stored := s.stored + 1)
             else s.(tasks := s.tasks[e.msg.index := Abandoned])
  }

  ghost predicate Timeout(u: Upload, s: State, s': State, i: nat) {
    && i < |s.tasks| && s.tasks[i] in {Offering, Storing}
    && s' == s.(tasks := s.tasks[i := if s.tasks[i] == Offering then Declined else Abandoned])
  }

  // ---------- the holders ----------

  /** Every offer is accepted. */
  ghost predicate HolderOffered(u: Upload, s: State, s': State, e: Envelope) {
    && e in s.wire && e.msg.Offer?
    && s' == s.(wire := s.wire + {Envelope(e.to, e.from, OfferAck(e.msg.file, e.msg.index, true))})
  }

  /** The bytes are kept with their own hash, and the store is acknowledged. */
  ghost predicate HolderStores(u: Upload, s: State, s': State, e: Envelope) {
    && e in s.wire && e.msg.Store?
    && s' == Put(s, u, e.to, e.msg.file, e.msg.index, e.msg.data).(
         wire := s.wire + {Envelope(e.to, e.from, StoreAck(e.msg.file, e.msg.index, true))})
  }

  /** Storing can fail; the holder says so. */
  ghost predicate HolderFails(u: Upload, s: State, s': State, e: Envelope) {
    && e in s.wire && e.msg.Store?
    && s' == s.(wire := s.wire + {Envelope(e.to, e.from, StoreAck(e.msg.file, e.msg.index, false))})
  }

  /** Messages of other uploads. */
  ghost predicate Elsewhere(u: Upload, s: State, s': State, e: Envelope) {
    e.msg.file != u.file && s' == s.(wire := s.wire + {e})
  }

  /** A holder handles a message, or one of another upload is sent. */
  ghost predicate HolderActs(u: Upload, s: State, s': State, e: Envelope) {
    HolderOffered(u, s, s', e) || HolderStores(u, s, s', e) || HolderFails(u, s, s', e) || Elsewhere(u, s, s', e)
  }

  ghost predicate Step(u: Upload, s: State, s': State) {
    || (exists i :: Start(u, s, s', i))
    || (exists e :: OnOfferAck(u, s, s', e))
    || (exists e :: OnStoreAck(u, s, s', e))
    || (exists i :: Timeout(u, s, s', i))
    || (exists e :: HolderActs(u, s, s', e))
  }

  ghost predicate IsRun(u: Upload, run: seq<State>) {
    && |run| > 0 && Init(u, run[0])
    && forall i :: 0 <= i < |run| - 1 ==> Step(u, run[i], run[i + 1])
  }

  // ---------- what every step keeps ----------

  /** The allocated holder of shard i has its bytes, under their hash. */
  ghost predicate Held(u: Upload, s: State, i: nat) {
    && i < |u.shards| && (u.file, i) in StoreOf(s, u.HolderOf(i))
    && StoreOf(s, u.HolderOf(i))[(u.file, i)] == StoredShard(u.shards[i], u.hash(u.shards[i]))
  }

  /** A message about this file says only what the protocol has established. */
  ghost predicate Truthful(u: Upload, s: State, e: Envelope) {
    e.msg.file == u.file ==>
      && (e.msg.Store? ==>
            e.msg.index < |u.shards| && e.to == u.HolderOf(e.msg.index) && e.msg.data == u.shards[e.msg.index])
      && (e.msg.StoreAck? && e.msg.ok && e.msg.index < |u.shards| && e.from == u.HolderOf(e.msg.index) ==>
            Held(u, s, e.msg.index))
  }

  /** The tasks in one of the given conditions. */
  ghost function Those(tasks: seq<Task>, which: set<Task>): set<int> {
    set i | 0 <= i < |tasks| && tasks[i] in which
  }

  ghost function StoredSet(s: State): set<int> {
    Those(s.tasks, {Stored})
  }

  ghost function AcceptedSet(s: State): set<int> {
    Those(s.tasks, {Storing, Stored, Abandoned})
  }

  ghost predicate Inv(u: Upload, s: State) {
    && |s.tasks| == |u.shards|
    && (forall e :: e in s.wire ==> Truthful(u, s, e))
    && (forall i :: 0 <= i < |s.tasks| && s.tasks[i] == Stored ==> Held(u, s, i))
    && s.stored == |StoredSet(s)| && s.accepted == |AcceptedSet(s)|
  }

  lemma InitInv(u: Upload, s: State)
    requires Init(u, s)
    ensures Inv(u, s)
  {
    assert StoredSet(s) == {} && AcceptedSet(s) == {};
  }

  /** Bytes put by an honest holder never disturb what is held. */
  lemma PutKeepsHeld(u: Upload, s: State, p: PeerId, file: FileId, index: nat, data: seq<byte>, i: nat)
    requires Held(u, s, i)
    requires file == u.file ==> index < |u.shards| && data == u.shards[index]
    ensures Held(u, Put(s, u, p, file, index, data), i)
  {
  }

  lemma PutHolds(u: Upload, s: State, i: nat)
    requires i < |u.shards|
    ensures Held(u, Put(s, u, u.HolderOf(i), u.file, i, u.shards[i]), i)
  {
  }

  /** Whatever keeps the stores keeps what was said about them. */
  lemma TruthStays(u: Upload, s: State, s': State)
    requires forall e :: e in s.wire ==> Truthful(u, s, e)
    requires forall i :: Held(u, s, i) ==> Held(u, s', i)
    ensures forall e :: e in s.wire ==> Truthful(u, s', e)
  {
    hide Held;
  }

  lemma TaskMoves(tasks: seq<Task>, i: nat, to: Task, which: set<Task>)
    requires i < |tasks|
    ensures var before, after := Those(tasks, which), Those(tasks[i := to], which);
            |after| == |before| + (if to in which then 1 else 0) - (if tasks[i] in which then 1 else 0)
  {
    var before, after := Those(tasks, which), Those(tasks[i := to], which);
    var rest := before - {i};
    assert after - {i} == rest;
    assert before == if tasks[i] in which then rest + {i} else rest;
    assert after == if to in which then rest + {i} else rest;
  }

  lemma TaskCounts(s: State, s': State, i: nat, to: Task)
    requires i < |s.tasks| && s.tasks[i] in {Idle, Offering, Storing} && s'.tasks == s.tasks[i := to]
    ensures |StoredSet(s')| == |StoredSet(s)| + if to == Stored then 1 else 0
    ensures |AcceptedSet(s')| == |AcceptedSet(s)| + (if to in {Storing, Stored, Abandoned} then 1 else 0)
                                 - (if s.tasks[i] == Storing then 1 else 0)
  {
    TaskMoves(s.tasks, i, to, {Stored});
    TaskMoves(s.tasks, i, to, {Storing, Stored, Abandoned});
  }

  lemma StartKeeps(u: Upload, s: State, s': State, i: nat)
    requires Inv(u, s) && Start(u, s, s', i)
    ensures Inv(u, s')
  {
    TaskCounts(s, s', i, s'.tasks[i]);
    if u.HolderOf(i) == u.self {
      forall j | Held(u, s, j) ensures Held(u, s', j) {
        PutKeepsHeld(u, s, u.self, u.file, i, u.shards[i], j);
      }
      PutHolds(u, s, i);
    }
    TruthStays(u, s, s');
    hide Held, Put, StoreOf, StoredSet, AcceptedSet;
  }

  lemma AnswerKeeps(u: Upload, s: State, s': State, e: Envelope)
    requires Inv(u, s) && (OnOfferAck(u, s, s', e) || OnStoreAck(u, s, s', e))
    ensures Inv(u, s')
  {
    TaskCounts(s, s', e.msg.index, s'.tasks[e.msg.index]);
    assert Truthful(u, s, e);
    assert forall j :: Held(u, s, j) ==> Held(u, s', j);
    hide Held, StoredSet, AcceptedSet;
    TruthStays(u, s, s');
  }

  lemma TimeoutKeeps(u: Upload, s: State, s': State, i: nat)
    requires Inv(u, s) && Timeout(u, s, s', i)
    ensures Inv(u, s')
  {
    TaskCounts(s, s', i, s'.tasks[i]);
    assert forall j :: Held(u, s, j) ==> Held(u, s', j);
    hide Held, StoredSet, AcceptedSet;
    TruthStays(u, s, s');
  }

  lemma HolderKeeps(u: Upload, s: State, s': State, e: Envelope)
    requires Inv(u, s)
    requires HolderActs(u, s, s', e)
    ensures Inv(u, s')
  {
    assert StoredSet(s') == StoredSet(s) && AcceptedSet(s') == AcceptedSet(s);
    if HolderStores(u, s, s', e) {
      assert Truthful(u, s, e);
      forall j | Held(u, s, j) ensures Held(u, s', j) {
        PutKeepsHeld(u, s, e.to, e.msg.file, e.msg.index, e.msg.data, j);
      }
      if e.msg.file == u.file {
        PutHolds(u, s, e.msg.index);
      }
    } else {
      assert forall j :: Held(u, s, j) ==> Held(u, s', j);
    }
    hide Held, Put, StoreOf, StoredSet, AcceptedSet;
    TruthStays(u, s, s');
  }

  lemma StepKeepsInv(u: Upload, s: State, s': State)
    requires Inv(u, s) && Step(u, s, s')
    ensures Inv(u, s')
  {
    hide Inv, Start, OnOfferAck, OnStoreAck, Timeout, HolderActs;
    if i :| Start(u, s, s', i) {
      StartKeeps(u, s, s', i);
    } else if i :| Timeout(u, s, s', i) {
      TimeoutKeeps(u, s, s', i);
    } else if e :| OnOfferAck(u, s, s', e) || OnStoreAck(u, s, s', e) {
      AnswerKeeps(u, s, s', e);
    } else {
      var e :| HolderActs(u, s, s', e);
      HolderKeeps(u, s, s', e);
    }
  }

  lemma {:induction false} RunKeepsInv(u: Upload, run: seq<State>, n: nat)
    requires IsRun(u, run) && n < |run|
    ensures Inv(u, run[n])
  {
    if n == 0 {
      InitInv(u, run[0]);
    } else {
      RunKeepsInv(u, run, n - 1);
      StepKeepsInv(u, run[n - 1], run[n]);
    }
  }

  // ---------- an upload can always be finished ----------

  /** Every task that waits for its holder has asked it: the offer, or the bytes, are on the wire. */
  ghost predicate Asked(u: Upload, s: State, i: nat) {
    && |s.tasks| == |u.shards| && i < |s.tasks|
    && (s.tasks[i] == Offering ==>
          Envelope(u.self, u.HolderOf(i), Offer(u.file, i, |u.shards[i]|, u.hash(u.shards[i]))) in s.wire)
    && (s.tasks[i] == Storing ==> Envelope(u.self, u.HolderOf(i), Store(u.file, i, u.shards[i])) in s.wire)
  }

  ghost predicate AllAsked(u: Upload, s: State) {
    |s.tasks| == |u.shards| && forall i :: 0 <= i < |s.tasks| ==> Asked(u, s, i)
  }

  lemma StepKeepsAsked(u: Upload, s: State, s': State)
    requires AllAsked(u, s) && Step(u, s, s')
    ensures AllAsked(u, s')
  {
    hide Inv;
    assert s.wire <= s'.wire && |s'.tasks| == |s.tasks|;
    forall i | 0 <= i < |s'.tasks| ensures Asked(u, s', i) {
      assert Asked(u, s, i);
    }
  }

  lemma {:induction false} RunKeepsAsked(u: Upload, run: seq<State>, n: nat)
    requires IsRun(u, run) && n < |run|
    ensures AllAsked(u, run[n])
  {
    hide Step;
    if n > 0 {
      RunKeepsAsked(u, run, n - 1);
      StepKeepsAsked(u, run[n - 1], run[n]);
    }
  }

  ghost predicate Path(u: Upload, path: seq<State>, from: State, to: State) {
    && |path| > 0 && path[0] == from && path[|path| - 1] == to
    && forall i :: 0 <= i < |path| - 1 ==> Step(u, path[i], path[i + 1])
  }

  lemma JoinPaths(u: Upload, p: seq<State>, q: seq<State>, a: State, b: State, c: State)
    requires Path(u, p, a, b) && Path(u, q, b, c)
    ensures Path(u, p + q[1..], a, c)
  {
    hide Step;
    var r := p + q[1..];
    forall i | 0 <= i < |r| - 1 ensures Step(u, r[i], r[i + 1]) {
      if i >= |p| - 1 {
        assert r[i] == q[i - (|p| - 1)] && r[i + 1] == q[i - (|p| - 1) + 1];
      }
    }
  }

  lemma PathKeepsAsked(u: Upload, path: seq<State>, from: State, to: State)
    requires Path(u, path, from, to) && AllAsked(u, from)
    ensures AllAsked(u, to)
    decreases |path|
  {
    hide Step;
    if |path| > 1 {
      StepKeepsAsked(u, path[0], path[1]);
      PathKeepsAsked(u, path[1..], path[1], to);
    }
  }

  /** A task that was not begun is stored at once or offered. */
  lemma BeginTask(u: Upload, s: State, i: nat) returns (s': State)
    requires AllAsked(u, s) && i < |s.tasks| && s.tasks[i] == Idle
    ensures Path(u, [s, s'], s, s')
    ensures s'.tasks == s.tasks[i := if u.HolderOf(i) == u.self then Stored else Offering]
  {
    var offer := Offer(u.file, i, |u.shards[i]|, u.hash(u.shards[i]));
    s' := if u.HolderOf(i) == u.self then
            Put(s, u, u.self, u.file, i, u.shards[i]).(
              tasks := s.tasks[i := Stored], accepted := s.accepted + 1, stored := s.stored + 1)
          else s.(tasks := s.tasks[i := Offering], wire := s.wire + {Envelope(u.self, u.HolderOf(i), offer)});
    assert Start(u, s, s', i);
  }

  /** The holder accepts, and the bytes go out. */
  lemma OfferIsAccepted(u: Upload, s: State, i: nat) returns (m: State, s': State)
    requires Asked(u, s, i) && s.tasks[i] == Offering
    ensures Path(u, [s, m, s'], s, s') && s'.tasks == s.tasks[i := Storing]
  {
    var offer := Envelope(u.self, u.HolderOf(i), Offer(u.file, i, |u.shards[i]|, u.hash(u.shards[i])));
    var answer := Envelope(u.HolderOf(i), u.self, OfferAck(u.file, i, true));
    var store := Envelope(u.self, u.HolderOf(i), Store(u.file, i, u.shards[i]));
    m := s.(wire := s.wire + {answer});
    assert HolderOffered(u, s, m, offer);
    assert HolderActs(u, s, m, offer);
    s' := m.(tasks := m.tasks[i := Storing], accepted := m.accepted + 1, wire := m.wire + {store});
    assert OnOfferAck(u, m, s', answer);
  }

  /** The holder keeps the bytes, and says so. */
  lemma BytesAreKept(u: Upload, s: State, i: nat) returns (m: State, s': State)
    requires Asked(u, s, i) && s.tasks[i] == Storing
    ensures Path(u, [s, m, s'], s, s') && s'.tasks == s.tasks[i := Stored]
  {
    var store := Envelope(u.self, u.HolderOf(i), Store(u.file, i, u.shards[i]));
    var answer := Envelope(u.HolderOf(i), u.self, StoreAck(u.file, i, true));
    m := Put(s, u, u.HolderOf(i), u.file, i, u.shards[i]).(wire := s.wire + {answer});
    assert HolderStores(u, s, m, store);
    assert HolderActs(u, s, m, store);
    s' := m.(tasks := m.tasks[i := Stored], stored := m.stored + 1);
    assert OnStoreAck(u, m, s', answer);
  }

  lemma FinishTask(u: Upload, s: State, i: nat) returns (path: seq<State>, s': State)
    requires AllAsked(u, s) && i < |s.tasks| && s.tasks[i] in {Idle, Offering, Storing, Stored}
    ensures path != [] && Path(u, path, s, s') && AllAsked(u, s') && s'.tasks == s.tasks[i := Stored]
    decreases match s.tasks[i] case Idle => 3 case Offering => 2 case Storing => 1 case _ => 0
  {
    hide Step, Path, AllAsked;
    AskedAt(u, s, i);
    if s.tasks[i] == Stored {
      path, s' := [s], s;
      NoStep(u, s);
    } else {
      var p, m, last;
      if s.tasks[i] == Idle {
        last := BeginTask(u, s, i);
        p := [s, last];
      } else if s.tasks[i] == Offering {
        m, last := OfferIsAccepted(u, s, i);
        p := [s, m, last];
      } else {
        m, last := BytesAreKept(u, s, i);
        p := [s, m, last];
      }
      PathKeepsAsked(u, p, s, last);
      path, s' := FinishTask(u, last, i);
      JoinPaths(u, p, path, s, last, s');
      path := p + path[1..];
    }
  }

  lemma AskedAt(u: Upload, s: State, i: nat)
    requires AllAsked(u, s) && i < |s.tasks|
    ensures Asked(u, s, i)
  {
  }

  lemma NoStep(u: Upload, s: State)
    ensures Path(u, [s], s, s)
  {
  }

  ghost predicate NoneGivenUp(s: State) {
    forall i :: 0 <= i < |s.tasks| ==> s.tasks[i] != Declined && s.tasks[i] != Abandoned
  }

  lemma FinishTasks(u: Upload, s: State, n: nat) returns (path: seq<State>, s': State)
    requires AllAsked(u, s) && n <= |s.tasks|
    requires NoneGivenUp(s) && forall i :: 0 <= i < n ==> s.tasks[i] == Stored
    ensures path != [] && Path(u, path, s, s') && |s'.tasks| == |s.tasks|
    ensures forall i :: 0 <= i < |s'.tasks| ==> s'.tasks[i] == Stored
    decreases |s.tasks| - n
  {
    hide Step, Path, AllAsked;
    if n == |s.tasks| {
      path, s' := [s], s;
      NoStep(u, s);
    } else {
      var p, m := FinishTask(u, s, n);
      var q;
      q, s' := FinishTasks(u, m, n + 1);
      JoinPaths(u, p, q, s, m, s');
      path := p + q[1..];
    }
  }

  /** As long as no task was given up, the upload can still come to its end with every shard stored - if
      the holders answer. */
  lemma AllCanBeStored(u: Upload, run: seq<State>) returns (more: seq<State>, s: State)
    requires IsRun(u, run)
    requires NoneGivenUp(run[|run| - 1])
    ensures IsRun(u, run + more) && s == (run + more)[|run + more| - 1]
    ensures s.stored == s.accepted == |u.shards| && forall i :: 0 <= i < |u.shards| ==> Held(u, s, i)
  {
    hide Step, Init, Asked, Held;
    RunKeepsAsked(u, run, |run| - 1);
    var path;
    path, s := FinishTasks(u, run[|run| - 1], 0);
    more := path[1..];
    RunGoesOn(u, run, path, s);
    RunKeepsInv(u, run + more, |run + more| - 1);
    AllStored(u, s);
  }

  lemma RunGoesOn(u: Upload, run: seq<State>, path: seq<State>, s': State)
    requires IsRun(u, run) && Path(u, path, run[|run| - 1], s')
    ensures IsRun(u, run + path[1..]) && (run + path[1..])[|run + path[1..]| - 1] == s'
  {
    hide Step, Init;
    var all := run + path[1..];
    forall i | 0 <= i < |all| - 1 ensures Step(u, all[i], all[i + 1]) {
      if i >= |run| - 1 {
        assert all[i] == path[i - (|run| - 1)] && all[i + 1] == path[i - (|run| - 1) + 1];
      }
    }
  }

  lemma AllStored(u: Upload, s: State)
    requires Inv(u, s) && forall i :: 0 <= i < |s.tasks| ==> s.tasks[i] == Stored
    ensures s.stored == s.accepted == |u.shards| && forall i :: 0 <= i < |u.shards| ==> Held(u, s, i)
  {
    hide Held;
    IntervalSize(0, |u.shards|);
    assert StoredSet(s) == Interval(0, |u.shards|) == AcceptedSet(s);
  }

  // ---------- what a finished upload means ----------

  /** The upload publishes its manifest exactly when k tasks were fulfilled: then k shards sit with
      their allocated holders, as the manifest describes them. */
  lemma PublishedMeansHeld(u: Upload, run: seq<State>, n: nat)
    requires IsRun(u, run) && n < |run| && run[n].stored >= u.k
    ensures var held := StoredSet(run[n]); |held| >= u.k && forall i :: i in held ==> Held(u, run[n], i)
  {
    hide Held;
    RunKeepsInv(u, run, n);
  }

  /** The slots that a download can fill once the peers in `lost` are gone. */
  ghost function Reachable(u: Upload, s: State, lost: set<PeerId>): Shards {
    seq(|u.shards|, i requires 0 <= i < |u.shards| =>
      var p := u.HolderOf(i);
      if p !in lost && (u.file, i) in StoreOf(s, p) then Some(StoreOf(s, p)[(u.file, i)].data) else None)
  }

  /** If every shard was stored, then whatever holders are lost within the redundancy, what is left
      is enough to recover the file. */
  lemma StoredSurvivesLoss(u: Upload, run: seq<State>, n: nat, lost: set<PeerId>, manifest: Manifest,
                           data: seq<seq<byte>>, len: nat, sealed: seq<byte>)
    requires IsRun(u, run) && n < |run| && run[n].stored == |u.shards|
    requires Describes(manifest, data, len, sealed, u.hash) && |u.shards| == manifest.k + manifest.m
    requires forall i :: 0 <= i < |u.shards| ==> u.shards[i] == Shard(data, manifest.k, len, i)
    requires |Places(u.Pool(), lost)| * CeilDiv(|u.shards|, |u.Pool()|) <= manifest.m
    ensures |Intact(manifest, Reachable(u, run[n], lost), u.hash)| >= manifest.k
  {
    hide Shard, Describes, Intact, Held, Reachable, Remaining;
    RunKeepsInv(u, run, n);
    AllHeld(u, run[n]);
    ReachableIsRemaining(u, run[n], lost);
    LossLeavesEnough(manifest, u.shards, u.Pool(), lost, data, len, sealed, u.hash);
  }

  lemma ReachableIsRemaining(u: Upload, s: State, lost: set<PeerId>)
    requires forall i :: 0 <= i < |u.shards| ==> Held(u, s, i)
    ensures Reachable(u, s, lost) == Remaining(u.shards, u.Pool(), lost)
  {
    forall i | 0 <= i < |u.shards| ensures Reachable(u, s, lost)[i] == Remaining(u.shards, u.Pool(), lost)[i] {
      assert Held(u, s, i);
    }
  }

  lemma AllHeld(u: Upload, s: State)
    requires Inv(u, s) && s.stored == |u.shards|
    ensures forall i :: 0 <= i < |u.shards| ==> Held(u, s, i)
  {
    hide Held;
    var all := Interval(0, |u.shards|);
    IntervalSize(0, |u.shards|);
    SubsetSize(StoredSet(s), all);
    forall i | 0 <= i < |u.shards| ensures Held(u, s, i) {
      assert i in StoredSet(s);
    }
  }

  /** Durability, end to end: after `PrepareShards` and a run that stored every shard, whatever holders
      are lost within the redundancy, a download from the rest opens exactly the bytes that were sealed. */
  method RecoverAfterLoss(t: Tables, u: Upload, ghost run: seq<State>, ghost n: nat, ghost lost: set<PeerId>,
                          manifest: Manifest, collected: array<Option<seq<byte>>>,
                          open: seq<byte> -> Option<seq<byte>>,
                          ghost data: seq<seq<byte>>, ghost len: nat, ghost sealed: seq<byte>)
      returns (r: Outcome<seq<byte>>)
    requires t.Valid() && IsRun(u, run) && n < |run| && run[n].stored == |u.shards|
    // what `PrepareShards` ensures of the shards and the manifest
    requires Describes(manifest, data, len, sealed, u.hash) && |u.shards| == manifest.k + manifest.m
    requires forall i :: 0 <= i < |u.shards| ==> u.shards[i] == Shard(data, manifest.k, len, i)
    requires |Places(u.Pool(), lost)| * CeilDiv(|u.shards|, |u.Pool()|) <= manifest.m && Injective(u.hash)
    requires collected[..] == Reachable(u, run[n], lost)
    modifies collected
    ensures r == Opened(sealed, manifest.size, open)
  {
    StoredSurvivesLoss(u, run, n, lost, manifest, data, len, sealed);
    hide Shard, Describes, Intact, Held, Reachable, Filtered;
    r := Finalize(t, manifest, collected, u.hash, open);
  }
}
