/** The Kademlia routing table: 160 buckets of at most k contacts, least recently seen first. */
module RoutingTable {
  import opened NodeId
  import opened Sorting

  datatype Contact = Contact(id: Id, handle: string, lastSeen: int)

  type Bucket = seq<Contact>
  type Table = seq<seq<Contact>>

  // ---------- what the operations do ----------

  predicate SameNode(a: Contact, b: Contact) {
    a.handle == b.handle || a.id == b.id
  }

  /** The first entry that shares a handle or an id with c, or -1. */
  function Find(bucket: Bucket, c: Contact): (i: int)
    ensures -1 <= i < |bucket|
    ensures i >= 0 ==> SameNode(bucket[i], c)
    ensures forall j :: 0 <= j < (if i == -1 then |bucket| else i) ==> !SameNode(bucket[j], c)
  {
    if bucket == [] then -1
    else
      var i := Find(bucket[..|bucket| - 1], c);
      if i >= 0 then i else if SameNode(bucket[|bucket| - 1], c) then |bucket| - 1 else -1
  }

  function FindHandle(bucket: Bucket, handle: string): (i: int)
    ensures -1 <= i < |bucket|
    ensures i >= 0 ==> bucket[i].handle == handle
    ensures forall j :: 0 <= j < (if i == -1 then |bucket| else i) ==> bucket[j].handle != handle
  {
    if bucket == [] then -1
    else
      var i := FindHandle(bucket[..|bucket| - 1], handle);
      if i >= 0 then i else if bucket[|bucket| - 1].handle == handle then |bucket| - 1 else -1
  }

  /** A known contact moves to the tail; a new one is appended if there is room. */
  function Refreshed(bucket: Bucket, k: nat, c: Contact): Bucket {
    var i := Find(bucket, c);
    if i >= 0 then Without(bucket, i) + [bucket[i].(lastSeen := c.lastSeen)]
    else if |bucket| >= k then bucket
    else bucket + [c]
  }

  function Observed(t: Table, self: Id, k: nat, c: Contact): Table {
    var b := BucketOf(self, c.id);
    if 0 <= b < |t| then t[b := Refreshed(t[b], k, c)] else t
  }

  /** Is c new to the table, and is there room for it? */
  predicate Admits(t: Table, self: Id, k: nat, c: Contact) {
    var b := BucketOf(self, c.id);
    0 <= b < |t| && Find(t[b], c) == -1 && |t[b]| < k
  }

  predicate HandleListed(t: Table, handle: string) {
    exists b :: 0 <= b < |t| && FindHandle(t[b], handle) >= 0
  }

  /** The bucket without its i-th contact. */
  function Without(bucket: Bucket, i: nat): Bucket
    requires i < |bucket|
  {
    bucket[..i] + bucket[i + 1..]
  }

  /** Removes the first contact under a handle, searching the buckets in order. */
  function RemovedFrom(t: Table, handle: string, b: nat): Table
    requires b <= |t|
    decreases |t| - b
  {
    if b == |t| then t
    else
      var i := FindHandle(t[b], handle);
      if i >= 0 then t[b := Without(t[b], i)] else RemovedFrom(t, handle, b + 1)
  }

  ghost predicate NotListedBelow(t: Table, handle: string, b: nat) {
    forall c :: 0 <= c < b && c < |t| ==> FindHandle(t[c], handle) < 0
  }

  lemma {:induction false} RemovedLater(t: Table, handle: string, b: nat)
    requires b <= |t| && NotListedBelow(t, handle, b)
    ensures RemovedFrom(t, handle, 0) == RemovedFrom(t, handle, b)
  {
    if b > 0 {
      RemovedLater(t, handle, b - 1);
    }
  }

  lemma FirstListed(t: Table, self: Id, k: nat, handle: string, b: nat)
    requires Healthy(t, self, k) && b < |t| && NotListedBelow(t, handle, b) && FindHandle(t[b], handle) >= 0
    ensures RemovedFrom(t, handle, 0) == t[b := Without(t[b], FindHandle(t[b], handle))] && HandleListed(t, handle)
    ensures Healthy(RemovedFrom(t, handle, 0), self, k)
  {
    RemovedLater(t, handle, b);
    RemoveKeeps(t, self, k, handle, 0);
  }

  lemma NowhereListed(t: Table, handle: string)
    requires NotListedBelow(t, handle, |t|)
    ensures RemovedFrom(t, handle, 0) == t && !HandleListed(t, handle)
  {
    RemovedLater(t, handle, |t|);
  }

  function All(t: Table): seq<Contact> {
    if t == [] then [] else All(t[..|t| - 1]) + t[|t| - 1]
  }

  function Far(c: Contact, target: Id): nat {
    Distance(c.id, target)
  }

  function ByDistance(target: Id): Contact -> nat {
    c => Far(c, target)
  }

  function Closest(t: Table, target: Id, count: nat): seq<Contact> {
    Take(Sorted(All(t), ByDistance(target)), count)
  }

  // ---------- the table object ----------

  class Routing {
    const self: Id
    const k: nat
    const buckets: array<Bucket>

    ghost predicate Valid()
      reads this, buckets
    {
      buckets.Length == NODE_ID_BITS && Healthy(buckets[..], self, k)
    }

    constructor (self: Id, k: nat)
      ensures Valid() && fresh(buckets) && this.self == self && this.k == k
      ensures buckets[..] == Empty()
    {
      this.self, this.k := self, k;
      buckets := new Bucket[NODE_ID_BITS](_ => []);
      new;
      assert buckets[..] == Empty();
      EmptyIsHealthy(self, k);
    }

    method Observe(c: Contact) returns (added: bool)
      requires Valid()
      modifies buckets
      ensures Valid()
      ensures buckets[..] == Observed(old(buckets[..]), self, k, c)
      ensures added == Admits(old(buckets[..]), self, k, c)
    {
      ghost var t := buckets[..];
      ObserveKeeps(t, self, k, c);
      var idx := BucketIndex(self, c.id);
      if idx < 0 { return false; }
      var bucket := buckets[idx];
      var existingIdx := FindExisting(bucket, c);
      if existingIdx >= 0 {
        var existing := bucket[existingIdx].(lastSeen := c.lastSeen);
        buckets[idx] := Without(bucket, existingIdx) + [existing];
        assert buckets[..] == Observed(t, self, k, c);
        return false;
      }
      if |bucket| >= k {
        assert buckets[..] == Observed(t, self, k, c);
        return false;
      }
      buckets[idx] := bucket + [c];
      assert buckets[..] == Observed(t, self, k, c);
      return true;
    }

    method FindExisting(bucket: Bucket, c: Contact) returns (i: int)
      ensures i == Find(bucket, c)
    {
      for j := 0 to |bucket|
        invariant Find(bucket[..j], c) == -1
      {
        assert bucket[..j + 1][..j] == bucket[..j];
        if bucket[j].handle == c.handle || bucket[j].id == c.id {
          return j;
        }
      }
      assert bucket[..|bucket|] == bucket;
      return -1;
    }

    method Remove(handle: string) returns (removed: bool)
      requires Valid()
      modifies buckets
      ensures Valid()
      ensures buckets[..] == RemovedFrom(old(buckets[..]), handle, 0)
      ensures removed <==> HandleListed(old(buckets[..]), handle)
    {
      hide Healthy, RemovedFrom, Without, HandleListed, FindHandle;
      ghost var t := buckets[..];
      for b := 0 to buckets.Length
        invariant buckets[..] == t && NotListedBelow(t, handle, b)
      {
        var i := FindHandle(buckets[b], handle);
        if i >= 0 {
          buckets[b] := Without(buckets[b], i);
          FirstListed(t, self, k, handle, b);
          assert buckets[..] == t[b := Without(t[b], i)];
          return true;
        }
      }
      NowhereListed(t, handle);
      return false;
    }

    /** Up to `count` contacts, nearest to the target first. */
    method ClosestTo(target: Id, count: nat) returns (cs: seq<Contact>)
      requires Valid()
      ensures cs == Closest(buckets[..], target, count)
    {
      var all: seq<Contact> := [];
      for b := 0 to buckets.Length
        invariant all == All(buckets[..b])
      {
        assert buckets[..b + 1][..b] == buckets[..b];
        all := all + buckets[b];
      }
      assert buckets[..buckets.Length] == buckets[..];
      cs := Take(Sorted(all, ByDistance(target)), count);
    }
  }

  // ---------- what every run of operations keeps ----------

  function Empty(): Table {
    seq(NODE_ID_BITS, _ => [])
  }

  ghost predicate HealthyBucket(bucket: Bucket, self: Id, k: nat, b: int) {
    && |bucket| <= k
    && (forall i :: 0 <= i < |bucket| ==> BucketOf(self, bucket[i].id) == b)
    && (forall i, j :: 0 <= i < j < |bucket| ==> !SameNode(bucket[i], bucket[j]))
  }

  /** Every contact sits in the bucket of its distance, in at most one place; no bucket is overfull. */
  ghost predicate Healthy(t: Table, self: Id, k: nat) {
    |t| == NODE_ID_BITS && forall b :: 0 <= b < |t| ==> HealthyBucket(t[b], self, k, b)
  }

  lemma EmptyIsHealthy(self: Id, k: nat)
    ensures Healthy(Empty(), self, k)
  {
  }

  lemma RefreshKeeps(bucket: Bucket, self: Id, k: nat, b: int, c: Contact)
    requires HealthyBucket(bucket, self, k, b) && BucketOf(self, c.id) == b
    ensures HealthyBucket(Refreshed(bucket, k, c), self, k, b)
  {
    hide BucketOf;
    var i := Find(bucket, c);
    if i >= 0 {
      var r := Refreshed(bucket, k, c);
      forall x, y | 0 <= x < y < |r| ensures !SameNode(r[x], r[y]) {
        var x', y' := if x < i then x else x + 1, if y < i then y else if y < |r| - 1 then y + 1 else i;
        assert r[x] == bucket[x'] && r[y].id == bucket[y'].id && r[y].handle == bucket[y'].handle;
      }
    }
  }

  lemma ObserveKeeps(t: Table, self: Id, k: nat, c: Contact)
    requires Healthy(t, self, k)
    ensures Healthy(Observed(t, self, k, c), self, k)
  {
    hide Refreshed;
    var b := BucketOf(self, c.id);
    if 0 <= b < |t| {
      RefreshKeeps(t[b], self, k, b, c);
      hide HealthyBucket;
    }
  }

  lemma {:induction false} RemoveKeeps(t: Table, self: Id, k: nat, handle: string, b: nat)
    requires Healthy(t, self, k) && b <= |t|
    ensures Healthy(RemovedFrom(t, handle, b), self, k)
    decreases |t| - b
  {
    if b < |t| {
      var i := FindHandle(t[b], handle);
      if i < 0 {
        RemoveKeeps(t, self, k, handle, b + 1);
      }
    }
  }

  datatype Op = Observe(c: Contact) | Remove(handle: string)

  function Applied(t: Table, self: Id, k: nat, op: Op): Table {
    match op
    case Observe(c) => Observed(t, self, k, c)
    case Remove(handle) => RemovedFrom(t, handle, 0)
  }

  function After(ops: seq<Op>, self: Id, k: nat): Table {
    if ops == [] then Empty() else Applied(After(ops[..|ops| - 1], self, k), self, k, ops[|ops| - 1])
  }

  /** After any operations: bounded buckets, contacts in the buckets of their distances, ids unique in
      the whole table, and never the node itself. */
  lemma {:induction false} TableStaysHealthy(ops: seq<Op>, self: Id, k: nat)
    ensures Healthy(After(ops, self, k), self, k)
  {
    if ops == [] {
      EmptyIsHealthy(self, k);
    } else {
      var t := After(ops[..|ops| - 1], self, k);
      TableStaysHealthy(ops[..|ops| - 1], self, k);
      match ops[|ops| - 1] {
        case Observe(c) => ObserveKeeps(t, self, k, c);
        case Remove(handle) => RemoveKeeps(t, self, k, handle, 0);
      }
    }
  }

  lemma IdsAreUnique(t: Table, self: Id, k: nat, b: nat, i: nat, b': nat, i': nat)
    requires Healthy(t, self, k) && b < |t| && i < |t[b]| && b' < |t| && i' < |t[b']|
    requires t[b][i].id == t[b'][i'].id
    ensures b == b' && i == i' && t[b][i].id != self
  {
    hide BucketOf;
    assert BucketOf(self, t[b][i].id) == b && BucketOf(self, t[b'][i'].id) == b';
    var forth, back := SameNode(t[b][i], t[b][i']), SameNode(t[b][i'], t[b][i]);
    SelfHasNoBucket(self);
  }

  lemma SelfHasNoBucket(self: Id)
    ensures BucketOf(self, self) == -1
  {
    DistanceIsMetric(self, self, self);
  }

  ghost predicate Has(bucket: Bucket, id: Id, handle: string) {
    exists i :: 0 <= i < |bucket| && bucket[i].id == id && bucket[i].handle == handle
  }

  ghost predicate Knows(t: Table, id: Id, handle: string) {
    exists b :: 0 <= b < |t| && Has(t[b], id, handle)
  }

  lemma RefreshDisplacesNobody(bucket: Bucket, k: nat, c: Contact, id: Id, handle: string)
    ensures Has(Refreshed(bucket, k, c), id, handle)
       <==> Has(bucket, id, handle) || (Find(bucket, c) == -1 && |bucket| < k && id == c.id && handle == c.handle)
  {
    hide Has, Without;
    var f := Find(bucket, c);
    if f >= 0 {
      MoveToTail(bucket, f, c.lastSeen, id, handle);
    } else {
      HasOne(c, id, handle);
      HasAppend(bucket, [c], id, handle);
    }
  }

  lemma MoveToTail(bucket: Bucket, f: nat, lastSeen: int, id: Id, handle: string)
    requires f < |bucket|
    ensures Has(Without(bucket, f) + [bucket[f].(lastSeen := lastSeen)], id, handle) <==> Has(bucket, id, handle)
  {
    hide Has;
    var before, x, after, y := bucket[..f], bucket[f], bucket[f + 1..], bucket[f].(lastSeen := lastSeen);
    assert bucket == before + [x] + after;
    HasOne(x, id, handle);
    HasOne(y, id, handle);
    HasAppend(before, [x], id, handle);
    HasAppend(before + [x], after, id, handle);
    HasAppend(before, after, id, handle);
    HasAppend(before + after, [y], id, handle);
  }

  lemma HasOne(c: Contact, id: Id, handle: string)
    ensures Has([c], id, handle) <==> c.id == id && c.handle == handle
  {
    assert [c][0] == c;
  }

  lemma HasAppend(a: Bucket, b: Bucket, id: Id, handle: string)
    ensures Has(a + b, id, handle) <==> Has(a, id, handle) || Has(b, id, handle)
  {
    if i :| 0 <= i < |a| && a[i].id == id && a[i].handle == handle {
      assert (a + b)[i] == a[i];
    }
    if i :| 0 <= i < |b| && b[i].id == id && b[i].handle == handle {
      assert (a + b)[|a| + i] == b[i];
    }
  }

  /** No newcomer displaces a contact, and nobody but the newcomer enters. */
  lemma ObserveDisplacesNobody(t: Table, self: Id, k: nat, c: Contact, id: Id, handle: string)
    ensures Knows(Observed(t, self, k, c), id, handle)
       <==> Knows(t, id, handle) || (Admits(t, self, k, c) && id == c.id && handle == c.handle)
  {
    hide BucketOf, Refreshed, Has;
    var u: Table := Observed(t, self, k, c);
    var b0: int := BucketOf(self, c.id);
    if 0 <= b0 < |t| {
      RefreshDisplacesNobody(t[b0], k, c, id, handle);
      assert u[b0] == Refreshed(t[b0], k, c) && forall b :: 0 <= b < |t| && b != b0 ==> u[b] == t[b];
    }
  }

  /** The contacts of a table with two of them, in different buckets. */
  lemma {:induction false} TwoListed(t: Table, p: nat, q: nat, a: Contact, b: Contact)
    requires p < |t| && t[p] == [a] && p < q && (q < |t| ==> t[q] == [b])
    requires forall i :: 0 <= i < |t| && i != p && i != q ==> t[i] == []
    ensures All(t) == if q < |t| then [a, b] else [a]
  {
    var n := |t| - 1;
    if p < n {
      TwoListed(t[..n], p, q, a, b);
    } else {
      NobodyIn(t[..n]);
    }
  }

  lemma {:induction false} NobodyIn(t: Table)
    requires forall b :: 0 <= b < |t| ==> t[b] == []
    ensures All(t) == []
  {
    if t != [] {
      NobodyIn(t[..|t| - 1]);
    }
  }

  // ---------- least recently seen first ----------

  ghost predicate InOrder(bucket: Bucket) {
    forall i, j :: 0 <= i < j < |bucket| ==> bucket[i].lastSeen <= bucket[j].lastSeen
  }

  ghost predicate SeenBy(bucket: Bucket, now: int) {
    forall i :: 0 <= i < |bucket| ==> bucket[i].lastSeen <= now
  }

  /** Sightings come in the order of their times. */
  ghost predicate Chronological(ops: seq<Op>) {
    forall i, j :: 0 <= i < j < |ops| && ops[i].Observe? && ops[j].Observe? ==> ops[i].c.lastSeen <= ops[j].c.lastSeen
  }

  ghost predicate AllInOrder(t: Table) {
    forall b :: 0 <= b < |t| ==> InOrder(t[b])
  }

  ghost predicate AllSeenBy(t: Table, now: int) {
    forall b :: 0 <= b < |t| ==> SeenBy(t[b], now)
  }

  lemma ObserveKeepsOrder(t: Table, self: Id, k: nat, c: Contact)
    requires AllInOrder(t) && AllSeenBy(t, c.lastSeen)
    ensures AllInOrder(Observed(t, self, k, c)) && AllSeenBy(Observed(t, self, k, c), c.lastSeen)
  {
    hide BucketOf, Refreshed, InOrder, SeenBy;
    var b := BucketOf(self, c.id);
    if 0 <= b < |t| {
      RefreshKeepsOrder(t[b], k, c);
    }
  }

  lemma RefreshKeepsOrder(bucket: Bucket, k: nat, c: Contact)
    requires InOrder(bucket) && SeenBy(bucket, c.lastSeen)
    ensures InOrder(Refreshed(bucket, k, c)) && SeenBy(Refreshed(bucket, k, c), c.lastSeen)
  {
    hide Find, InOrder, SeenBy, Without;
    var i := Find(bucket, c);
    if i >= 0 {
      WithoutKeepsOrder(bucket, i, c.lastSeen);
      LatestLast(Without(bucket, i), bucket[i].(lastSeen := c.lastSeen));
    } else if |bucket| < k {
      LatestLast(bucket, c);
    }
  }

  lemma WithoutKeepsOrder(bucket: Bucket, f: nat, now: int)
    requires InOrder(bucket) && f < |bucket|
    ensures InOrder(Without(bucket, f)) && (SeenBy(bucket, now) ==> SeenBy(Without(bucket, f), now))
  {
    var r := Without(bucket, f);
    assert forall i :: 0 <= i < |r| ==> r[i] == bucket[if i < f then i else i + 1];
  }

  lemma LatestLast(bucket: Bucket, c: Contact)
    requires InOrder(bucket) && SeenBy(bucket, c.lastSeen)
    ensures InOrder(bucket + [c]) && SeenBy(bucket + [c], c.lastSeen)
  {
  }

  lemma {:induction false} RemoveKeepsOrder(t: Table, handle: string, b: nat, now: int)
    requires b <= |t| && AllInOrder(t)
    ensures AllInOrder(RemovedFrom(t, handle, b))
    ensures AllSeenBy(t, now) ==> AllSeenBy(RemovedFrom(t, handle, b), now)
    decreases |t| - b
  {
    if b < |t| && FindHandle(t[b], handle) < 0 {
      RemoveKeepsOrder(t, handle, b + 1, now);
    } else if b < |t| {
      WithoutKeepsOrder(t[b], FindHandle(t[b], handle), now);
    }
    hide FindHandle, Without, InOrder, SeenBy;
  }

  /** Whatever was seen and removed, in the order of the times: each bucket lists its contacts by when
      they were last seen, the most recent at its tail. */
  lemma {:induction false} LeastRecentFirst(ops: seq<Op>, self: Id, k: nat, now: int)
    requires Chronological(ops)
    requires forall i :: 0 <= i < |ops| && ops[i].Observe? ==> ops[i].c.lastSeen <= now
    ensures AllInOrder(After(ops, self, k)) && AllSeenBy(After(ops, self, k), now)
  {
    if ops != [] {
      var front, op := ops[..|ops| - 1], ops[|ops| - 1];
      LeastRecentFirst(front, self, k, if op.Observe? then op.c.lastSeen else now);
      hide Observed, RemovedFrom, InOrder;
      match op {
        case Observe(c) => ObserveKeepsOrder(After(front, self, k), self, k, c);
        case Remove(handle) => RemoveKeepsOrder(After(front, self, k), handle, 0, now);
      }
    }
  }

  /** Seeing a contact that is known, under its id or its handle, moves it to the tail with the new time;
      a new one comes last if there is room. The others keep their order. */
  lemma SeenLast(t: Table, self: Id, k: nat, c: Contact, b: nat, i: nat)
    requires Healthy(t, self, k) && b < |t| && BucketOf(self, c.id) == b && i <= |t[b]|
    requires i < |t[b]| ==> SameNode(t[b][i], c) && forall j :: 0 <= j < i ==> !SameNode(t[b][j], c)
    requires i == |t[b]| ==> forall j :: 0 <= j < i ==> !SameNode(t[b][j], c)
    ensures var before, after := t[b], Observed(t, self, k, c)[b];
            && (i < |before| ==>
                  after == before[..i] + before[i + 1..] + [Contact(before[i].id, before[i].handle, c.lastSeen)])
            && (i == |before| < k ==> after == before + [c]) && (i == |before| == k ==> after == before)
    ensures forall b' :: 0 <= b' < |t| && b' != b ==> Observed(t, self, k, c)[b'] == t[b']
  {
    hide BucketOf;
    assert Find(t[b], c) == if i < |t[b]| then i else -1;
  }

  /** The contact has an entry under its id or its handle, or there was no room for it. */
  ghost predicate Placed(t: Table, self: Id, k: nat, c: Contact) {
    var b := BucketOf(self, c.id);
    0 <= b < |t| ==> |t[b]| >= k || Listed(t[b], c)
  }

  ghost predicate Listed(bucket: Bucket, c: Contact) {
    exists i :: 0 <= i < |bucket| && SameNode(bucket[i], c)
  }

  lemma ObservePlaces(t: Table, self: Id, k: nat, c: Contact)
    ensures Placed(Observed(t, self, k, c), self, k, c)
  {
    hide BucketOf;
    var b := BucketOf(self, c.id);
    if 0 <= b < |t| {
      var r := Refreshed(t[b], k, c);
      assert r != [] ==> SameNode(r[|r| - 1], c) || |r| >= k;
    }
  }

  lemma ObserveKeepsPlaced(t: Table, self: Id, k: nat, x: Contact, c: Contact)
    requires Placed(t, self, k, c)
    ensures Placed(Observed(t, self, k, x), self, k, c)
  {
    hide BucketOf, Refreshed, Listed;
    var b := BucketOf(self, x.id);
    if 0 <= b < |t| {
      RefreshKeepsListed(t[b], k, x, c);
    }
  }

  lemma RefreshKeepsSize(bucket: Bucket, k: nat, x: Contact)
    ensures |Refreshed(bucket, k, x)| >= |bucket|
  {
    hide Find;
  }

  lemma RefreshKeepsListed(bucket: Bucket, k: nat, x: Contact, c: Contact)
    ensures |Refreshed(bucket, k, x)| >= |bucket|
    ensures Listed(bucket, c) ==> Listed(Refreshed(bucket, k, x), c)
  {
    hide Find, Refreshed;
    var r := Refreshed(bucket, k, x);
    RefreshKeepsSize(bucket, k, x);
    if i :| 0 <= i < |bucket| && SameNode(bucket[i], c) {
      var id, handle := bucket[i].id, bucket[i].handle;
      RefreshDisplacesNobody(bucket, k, x, id, handle);
      assert Has(bucket, id, handle);
      var j :| 0 <= j < |r| && r[j].id == id && r[j].handle == handle;
      assert SameNode(r[j], c);
    }
  }

  // ---------- removal ----------

  lemma {:induction false} AllOf(t: Table, b: nat)
    requires b < |t|
    ensures All(t) == All(t[..b]) + t[b] + All(t[b + 1..])
  {
    var n := |t| - 1;
    if b < n {
      AllOf(t[..n], b);
      assert t[..n][..b] == t[..b] && t[b + 1..][..n - b - 1] == t[..n][b + 1..];
      assert All(t[b + 1..]) == All(t[b + 1..][..n - b - 1]) + t[n];
    } else {
      assert t[..n] == t[..b] && t[b + 1..] == [];
    }
  }

  /** The first of these contacts under the handle was taken out, and no other. */
  ghost predicate FirstTaken(all: seq<Contact>, rest: seq<Contact>, handle: string, i: nat) {
    && i < |all| && all[i].handle == handle && (forall j :: 0 <= j < i ==> all[j].handle != handle)
    && rest == all[..i] + all[i + 1..]
  }

  /** Removing a handle takes out the first contact listed under it, and nobody else; it does nothing if
      there is none. */
  lemma RemovesFirst(t: Table, handle: string)
    ensures var u := RemovedFrom(t, handle, 0);
            if forall c :: c in All(t) ==> c.handle != handle then u == t
            else exists i :: FirstTaken(All(t), All(u), handle, i)
  {
    hide RemovedFrom, FindHandle, All;
    var b := FirstBucket(t, handle);
    RemovedLater(t, handle, b);
    NoneBelow(t, handle, b);
    RemovedHere(t, handle, b);
    if b < |t| {
      var i := FindHandle(t[b], handle);
      TakenFromBucket(t, handle, b, i);
    } else {
      assert t[..b] == t;
    }
  }

  lemma RemovedHere(t: Table, handle: string, b: nat)
    requires b <= |t| && (b < |t| ==> FindHandle(t[b], handle) >= 0)
    ensures RemovedFrom(t, handle, b) == if b < |t| then t[b := Without(t[b], FindHandle(t[b], handle))] else t
  {
  }

  lemma TakenFromBucket(t: Table, handle: string, b: nat, i: nat)
    requires b < |t| && i < |t[b]| && t[b][i].handle == handle
    requires forall j :: 0 <= j < i ==> t[b][j].handle != handle
    requires forall c :: c in All(t[..b]) ==> c.handle != handle
    ensures FirstTaken(All(t), All(t[b := Without(t[b], i)]), handle, |All(t[..b])| + i)
    ensures t[b][i] in All(t)
  {
    hide All;
    var u := t[b := Without(t[b], i)];
    AllOf(t, b);
    AllOf(u, b);
    assert u[..b] == t[..b] && u[b + 1..] == t[b + 1..];
    var front, back := All(t[..b]), All(t[b + 1..]);
    TakenInside(front, t[b], back, handle, i);
  }

  lemma TakenInside(front: seq<Contact>, bucket: Bucket, back: seq<Contact>, handle: string, i: nat)
    requires i < |bucket| && bucket[i].handle == handle && forall j :: 0 <= j < i ==> bucket[j].handle != handle
    requires forall c :: c in front ==> c.handle != handle
    ensures FirstTaken(front + bucket + back, front + Without(bucket, i) + back, handle, |front| + i)
    ensures bucket[i] in front + bucket + back
  {
    var all := front + bucket + back;
    assert all[|front| + i] == bucket[i];
    assert all[..|front| + i] == front + bucket[..i] && all[|front| + i + 1..] == bucket[i + 1..] + back;
    forall j | 0 <= j < |front| + i ensures all[j].handle != handle {
      if j < |front| {
        assert all[j] == front[j] && front[j] in front;
      }
    }
  }

  function FirstBucket(t: Table, handle: string): (b: nat)
    ensures b <= |t| && NotListedBelow(t, handle, b) && (b < |t| ==> FindHandle(t[b], handle) >= 0)
  {
    if t == [] then 0
    else
      var b := FirstBucket(t[..|t| - 1], handle);
      if b < |t| - 1 then b else if FindHandle(t[b], handle) >= 0 then b else |t|
  }

  lemma {:induction false} NoneBelow(t: Table, handle: string, b: nat)
    requires b <= |t| && NotListedBelow(t, handle, b)
    ensures forall c :: c in All(t[..b]) ==> c.handle != handle
  {
    if b > 0 {
      NoneBelow(t, handle, b - 1);
      assert t[..b][..b - 1] == t[..b - 1];
    }
  }

  // ---------- the nearest contacts ----------

  ghost predicate UniqueIds(cs: seq<Contact>) {
    forall i, j :: 0 <= i < j < |cs| ==> cs[i].id != cs[j].id
  }

  lemma {:induction false} AllUnique(t: Table, self: Id, k: nat, n: nat)
    requires Healthy(t, self, k) && n <= |t|
    ensures UniqueIds(All(t[..n]))
    ensures forall c :: c in All(t[..n]) <==> exists b :: 0 <= b < n && c in t[b]
  {
    hide BucketOf;
    if n > 0 {
      AllUnique(t, self, k, n - 1);
      assert t[..n][..n - 1] == t[..n - 1];
      var front, last := All(t[..n - 1]), t[n - 1];
      assert HealthyBucket(last, self, k, n - 1);
      forall i, j | 0 <= i < |front| && 0 <= j < |last| ensures front[i].id != last[j].id {
        assert front[i] in front;
        var b :| 0 <= b < n - 1 && front[i] in t[b];
        assert HealthyBucket(t[b], self, k, b);
      }
      forall i, j | 0 <= i < j < |last| ensures last[i].id != last[j].id {
        assert !SameNode(last[i], last[j]);
      }
    }
  }

  lemma FarIsInjective(a: Contact, b: Contact, target: Id)
    requires Far(a, target) == Far(b, target)
    ensures a.id == b.id
  {
    DistanceIsMetric(a.id, target, target);
    DistanceIsMetric(b.id, target, target);
    DistanceIsMetric(target, a.id, b.id);
  }

  /** `ClosestTo` returns exactly the nearest contacts of the whole table, nearest first. */
  lemma ClosestAreNearest(t: Table, self: Id, k: nat, target: Id, count: nat)
    requires Healthy(t, self, k)
    ensures var cs, all := Closest(t, target, count), All(t);
            && |cs| == (if count < |all| then count else |all|)
            && (forall i, j :: 0 <= i < j < |cs| ==> Far(cs[i], target) < Far(cs[j], target))
            && (forall c :: c in cs ==> c in all)
            && (forall x, c :: x in cs && c in all && c !in cs ==> Far(x, target) < Far(c, target))
    ensures forall c :: c in All(t) <==> exists b :: 0 <= b < |t| && c in t[b]
  {
    hide Far, Sorted;
    assert t[..|t|] == t;
    AllUnique(t, self, k, |t|);
    var all, key := All(t), ByDistance(target);
    forall i, j | 0 <= i < j < |all| ensures key(all[i]) != key(all[j]) {
      if Far(all[i], target) == Far(all[j], target) {
        FarIsInjective(all[i], all[j], target);
      }
    }
    hide All;
    FirstAreLeast(all, key, count);
  }
}
