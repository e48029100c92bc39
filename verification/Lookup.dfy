/** The iterative lookup: rounds of parallel queries to the nearest candidates not yet asked. What the
    asked nodes answer - or that they do not - is a parameter. */
module Lookup {
  import opened Bits
  import opened Wrappers
  import opened NodeId
  import opened Sorting
  import opened RoutingTable

  const MAX_ROUNDS := 16

  datatype Cand = Cand(contact: Contact, queried: bool)

  /** A find-node or find-value response. */
  datatype Reply = Reply(value: Option<seq<byte>>, contacts: seq<Contact>)

  function HandleOf(c: Cand): string {
    c.contact.handle
  }

  function CandDistance(target: Id): Cand -> nat {
    (c: Cand) => Far(c.contact, target)
  }

  function Fresh(cs: seq<Contact>): (cands: seq<Cand>)
    ensures |cands| == |cs| && forall i :: 0 <= i < |cs| ==> cands[i] == Cand(cs[i], false)
  {
    seq(|cs|, i requires 0 <= i < |cs| => Cand(cs[i], false))
  }

  function Contacts(cands: seq<Cand>): (cs: seq<Contact>)
    ensures |cs| == |cands| && forall i :: 0 <= i < |cs| ==> cs[i] == cands[i].contact
  {
    seq(|cands|, i requires 0 <= i < |cands| => cands[i].contact)
  }

  ghost function Handles(cands: seq<Cand>): set<string> {
    set c | c in cands :: HandleOf(c)
  }

  /** The handles of the candidates that were asked, each as often as it was. */
  ghost function QueriedBag(cands: seq<Cand>): multiset<string> {
    if cands == [] then multiset{}
    else
      var last := cands[|cands| - 1];
      QueriedBag(cands[..|cands| - 1]) + if last.queried then multiset{HandleOf(last)} else multiset{}
  }

  lemma BagSnoc(a: seq<Cand>, c: Cand)
    ensures QueriedBag(a + [c]) == QueriedBag(a) + if c.queried then multiset{HandleOf(c)} else multiset{}
  {
    assert (a + [c])[..|a|] == a;
  }

  lemma {:induction false} BagJoin(a: seq<Cand>, b: seq<Cand>)
    ensures QueriedBag(a + b) == QueriedBag(a) + QueriedBag(b)
  {
    hide *;
    if b == [] {
      EmptyBag(a, b);
    } else {
      var front, last := b[..|b| - 1], b[|b| - 1];
      BagJoin(a, front);
      BagSnoc(a + front, last);
      BagSnoc(front, last);
      assert a + b == a + front + [last] && b == front + [last];
      SumsAssociate(QueriedBag(a), QueriedBag(front), if last.queried then multiset{HandleOf(last)} else multiset{});
    }
  }

  lemma EmptyBag(a: seq<Cand>, b: seq<Cand>)
    requires b == []
    ensures QueriedBag(a + b) == QueriedBag(a) + QueriedBag(b)
  {
    assert a + b == a;
    assert QueriedBag(b) == multiset{};
  }

  lemma SumsAssociate<T>(x: multiset<T>, y: multiset<T>, z: multiset<T>)
    ensures (x + y) + z == x + (y + z)
  {
  }

  lemma {:induction false} NoneQueried(cands: seq<Cand>)
    requires forall c :: c in cands ==> !c.queried
    ensures QueriedBag(cands) == multiset{}
  {
    if cands != [] {
      NoneQueried(cands[..|cands| - 1]);
    }
  }

  /** The bookkeeping of a lookup: candidate handles are distinct, nobody is asked twice, and exactly
      the candidates that were asked are marked. */
  ghost predicate Tracks(cands: seq<Cand>, asked: seq<string>) {
    && DistinctBy(cands, HandleOf) && Distinct(asked)
    && (forall c :: c in cands ==> (c.queried <==> HandleOf(c) in asked))
    && (forall h :: h in asked ==> h in Handles(cands))
  }

  /** Every contact is known, or is the node itself. */
  ghost predicate Known(contacts: seq<Contact>, self: string, seen: set<string>) {
    forall c :: c in contacts ==> c.handle == self || c.handle in seen
  }

  // ---------- which contacts of a reply are taken ----------

  function HandlesIn(cs: seq<Contact>): set<string> {
    set c | c in cs :: c.handle
  }

  /** Where the handle first occurs; past the end if it does not. */
  function FirstAt(contacts: seq<Contact>, handle: string): (i: nat)
    ensures i <= |contacts| && (i < |contacts| ==> contacts[i].handle == handle)
    ensures forall j :: 0 <= j < i ==> contacts[j].handle != handle
  {
    if contacts == [] || contacts[0].handle == handle then 0 else 1 + FirstAt(contacts[1..], handle)
  }

  /** Of the contacts, exactly those under new handles were taken: the first under each, as it came, in
      the order they came. */
  ghost predicate TakenFrom(contacts: seq<Contact>, seen: set<string>, self: string, taken: seq<Contact>) {
    && (forall p :: 0 <= p < |taken| ==> TakenAt(contacts, taken[p]) && Unseen(taken[p], seen, self))
    && (forall p, q :: 0 <= p < q < |taken| ==>
          FirstAt(contacts, taken[p].handle) < FirstAt(contacts, taken[q].handle))
    && Known(contacts, self, seen + HandlesIn(taken))
  }

  predicate TakenAt(contacts: seq<Contact>, c: Contact) {
    FirstAt(contacts, c.handle) < |contacts| && contacts[FirstAt(contacts, c.handle)] == c
  }

  predicate Unseen(c: Contact, seen: set<string>, self: string) {
    c.handle !in seen && c.handle != self
  }

  lemma FirstInJoin(a: seq<Contact>, b: seq<Contact>, handle: string)
    ensures FirstAt(a + b, handle)
         == if FirstAt(a, handle) < |a| then FirstAt(a, handle) else |a| + FirstAt(b, handle)
  {
    var i, k := FirstAt(a, handle), FirstAt(a + b, handle);
    var j := if i < |a| then i else |a| + FirstAt(b, handle);
    hide FirstAt;
    assert j < |a + b| ==> (a + b)[j].handle == handle;
    assert forall l :: 0 <= l < j ==> (a + b)[l].handle != handle;
  }

  lemma NotBefore(contacts: seq<Contact>, seen: set<string>, self: string, taken: seq<Contact>, c: Contact)
    requires TakenFrom(contacts, seen, self, taken) && Unseen(c, seen + HandlesIn(taken), self)
    ensures FirstAt(contacts, c.handle) == |contacts|
  {
    forall j | 0 <= j < |contacts| ensures contacts[j].handle != c.handle {
      assert contacts[j] in contacts;
    }
  }

  /** Reading one list after another takes what reading both at once would. */
  lemma TakenInTurn(a: seq<Contact>, b: seq<Contact>, seen: set<string>, self: string, first: seq<Contact>,
                    second: seq<Contact>)
    requires TakenFrom(a, seen, self, first) && TakenFrom(b, seen + HandlesIn(first), self, second)
    ensures TakenFrom(a + b, seen, self, first + second)
    ensures HandlesIn(first + second) == HandlesIn(first) + HandlesIn(second)
  {
    hide FirstAt;
    var taken := first + second;
    assert HandlesIn(taken) == HandlesIn(first) + HandlesIn(second);
    forall p | 0 <= p < |taken|
      ensures TakenAt(a + b, taken[p]) && Unseen(taken[p], seen, self)
      ensures FirstAt(a + b, taken[p].handle)
           == if p < |first| then FirstAt(a, taken[p].handle) else |a| + FirstAt(b, taken[p].handle)
    {
      var c := taken[p];
      FirstInJoin(a, b, c.handle);
      if p < |first| {
        assert c == first[p] && TakenAt(a, c);
      } else {
        assert c == second[p - |first|] && TakenAt(b, c);
        NotBefore(a, seen, self, first, c);
      }
    }
    forall c | c in a + b ensures c.handle == self || c.handle in seen + HandlesIn(taken) {
      assert c in a || c in b;
    }
  }

  lemma NothingTaken(seen: set<string>, self: string)
    ensures TakenFrom([], seen, self, []) && HandlesIn([]) == {}
  {
  }

  lemma TakenOne(c: Contact, seen: set<string>, self: string)
    ensures TakenFrom([c], seen, self, if Unseen(c, seen, self) then [c] else [])
  {
    var taken := if Unseen(c, seen, self) then [c] else [];
    assert Unseen(c, seen, self) ==> taken[0] in taken;
    assert FirstAt([c], c.handle) == 0;
  }

  // ---------- one round ----------

  /** Marks the first n candidates that were not asked yet, and lists their handles. */
  method TakeBatch(cands: seq<Cand>, n: nat) returns (batch: seq<string>, marked: seq<Cand>, ghost at: seq<nat>)
    ensures |at| == |batch| <= n && |marked| == |cands|
    ensures forall p, q :: 0 <= p < q < |at| ==> at[p] < at[q]
    ensures forall p :: 0 <= p < |at| ==> at[p] < |cands| && !cands[at[p]].queried && batch[p] == HandleOf(cands[at[p]])
    ensures forall i :: 0 <= i < |cands| ==> marked[i] == Cand(cands[i].contact, cands[i].queried || i in at)
    ensures |batch| < n ==> forall i :: 0 <= i < |cands| ==> marked[i].queried
    ensures QueriedBag(marked) == QueriedBag(cands) + multiset(batch)
    ensures forall p, i :: 0 <= p < |at| && 0 <= i < |cands| && !marked[i].queried ==> at[p] < i
  {
    hide BatchMarked;
    batch, marked, at := [], [], [];
    NoneMarked(cands);
    for i := 0 to |cands|
      invariant |at| == |batch| <= n && |marked| == i
      invariant forall p, q :: 0 <= p < q < |at| ==> at[p] < at[q]
      invariant forall p :: 0 <= p < |at| ==> at[p] < i && !cands[at[p]].queried && batch[p] == HandleOf(cands[at[p]])
      invariant forall j :: 0 <= j < i ==> marked[j] == Cand(cands[j].contact, cands[j].queried || j in at)
      invariant |batch| < n ==> forall j :: 0 <= j < i ==> marked[j].queried
      invariant BatchMarked(cands, marked, batch, i)
      invariant forall p, j :: 0 <= p < |at| && 0 <= j < i && !marked[j].queried ==> at[p] < j
    {
      OneMarked(cands, marked, batch, i);
      if !cands[i].queried && |batch| < n {
        batch := batch + [cands[i].contact.handle];
        marked := marked + [Cand(cands[i].contact, true)];
        at := at + [i];
      } else {
        marked := marked + [cands[i]];
      }
    }
    AllMarked(cands, marked, batch);
  }

  /** Among the first i candidates, exactly the batch is newly marked. */
  ghost predicate BatchMarked(cands: seq<Cand>, marked: seq<Cand>, batch: seq<string>, i: nat)
    requires i <= |cands|
  {
    QueriedBag(marked) == QueriedBag(cands[..i]) + multiset(batch)
  }

  lemma NoneMarked(cands: seq<Cand>)
    ensures BatchMarked(cands, [], [], 0)
  {
    assert cands[..0] == [];
  }

  lemma OneMarked(cands: seq<Cand>, marked: seq<Cand>, batch: seq<string>, i: nat)
    requires i < |cands| && BatchMarked(cands, marked, batch, i)
    ensures BatchMarked(cands, marked + [cands[i]], batch, i + 1)
    ensures !cands[i].queried ==>
              BatchMarked(cands, marked + [Cand(cands[i].contact, true)], batch + [cands[i].contact.handle], i + 1)
  {
    assert cands[..i + 1][..i] == cands[..i];
    assert (marked + [cands[i]])[..|marked|] == marked;
    assert (marked + [Cand(cands[i].contact, true)])[..|marked|] == marked;
  }

  lemma AllMarked(cands: seq<Cand>, marked: seq<Cand>, batch: seq<string>)
    requires BatchMarked(cands, marked, batch, |cands|)
    ensures QueriedBag(marked) == QueriedBag(cands) + multiset(batch)
  {
    assert cands[..|cands|] == cands;
  }

  lemma BatchTracks(cands: seq<Cand>, asked: seq<string>, batch: seq<string>, marked: seq<Cand>, at: seq<nat>)
    requires Tracks(cands, asked) && |marked| == |cands| && |at| == |batch|
    requires forall p, q :: 0 <= p < q < |at| ==> at[p] < at[q]
    requires forall p :: 0 <= p < |at| ==>
               at[p] < |cands| && !cands[at[p]].queried && batch[p] == HandleOf(cands[at[p]])
    requires forall i :: 0 <= i < |cands| ==> marked[i] == Cand(cands[i].contact, cands[i].queried || i in at)
    ensures Tracks(marked, asked + batch)
  {
    forall p | 0 <= p < |batch| ensures batch[p] !in asked && batch[p] in Handles(marked) {
      assert cands[at[p]] in cands && marked[at[p]] in marked;
    }
    forall h | h in asked ensures h in Handles(marked) {
      var c :| c in cands && HandleOf(c) == h;
      var i :| 0 <= i < |cands| && cands[i] == c;
      assert marked[i] in marked && HandleOf(marked[i]) == h;
    }
    forall c | c in marked ensures c.queried <==> HandleOf(c) in asked + batch {
      var i :| 0 <= i < |marked| && marked[i] == c;
      assert cands[i] in cands;
      InBatch(cands, batch, at, i);
    }
  }

  lemma InBatch(cands: seq<Cand>, batch: seq<string>, at: seq<nat>, i: nat)
    requires DistinctBy(cands, HandleOf) && |at| == |batch| && i < |cands|
    requires forall p :: 0 <= p < |at| ==> at[p] < |cands| && batch[p] == HandleOf(cands[at[p]])
    ensures HandleOf(cands[i]) in batch <==> i in at
  {
    if HandleOf(cands[i]) in batch {
      var p :| 0 <= p < |batch| && batch[p] == HandleOf(cands[i]);
      assert at[p] == i;
    }
    if i in at {
      var p :| 0 <= p < |at| && at[p] == i;
      assert batch[p] == HandleOf(cands[i]);
    }
  }

  lemma SortTracks(cands: seq<Cand>, asked: seq<string>, target: Id)
    requires Tracks(cands, asked)
    ensures Tracks(Sorted(cands, CandDistance(target)), asked)
  {
    var key := CandDistance(target);
    SortKeepsMembers(cands, key);
    SortKeepsDistinct(cands, key, HandleOf);
    hide Sorted;
    forall h | h in asked ensures h in Handles(Sorted(cands, key)) {
      var c :| c in cands && HandleOf(c) == h;
      assert c in Sorted(cands, key);
    }
  }

  lemma AdditionsUnasked(cands: seq<Cand>, more: seq<Cand>, seen: set<string>, self: string)
    requires Additions(more, seen, self)
    ensures QueriedBag(cands + more) == QueriedBag(cands)
  {
    hide QueriedBag;
    BagJoin(cands, more);
    NoneQueried(more);
  }

  /** The routing table after it was told about some contacts in turn. */
  function ObservedAll(t: Table, self: Id, k: nat, cs: seq<Contact>): Table {
    if cs == [] then t else Observed(ObservedAll(t, self, k, cs[..|cs| - 1]), self, k, cs[|cs| - 1])
  }

  /** `more` is what one or more replies added to the candidates. */
  ghost predicate Additions(more: seq<Cand>, seen: set<string>, self: string) {
    && (forall c :: c in more ==> !c.queried && HandleOf(c) !in seen && HandleOf(c) != self)
    && DistinctBy(more, HandleOf)
  }

  /** Adds the contacts of one reply that are new, and tells the routing table about them. */
  method Absorb(table: Routing, self: string, cands: seq<Cand>, seen: set<string>, contacts: seq<Contact>)
      returns (cands': seq<Cand>, seen': set<string>)
    requires table.Valid()
    modifies table.buckets
    ensures table.Valid()
    ensures cands <= cands' && Additions(cands'[|cands|..], seen, self)
    ensures seen' == seen + Handles(cands'[|cands|..])
    ensures TakenFrom(contacts, seen, self, Contacts(cands'[|cands|..]))
    ensures table.buckets[..] == ObservedAll(old(table.buckets[..]), table.self, table.k, Contacts(cands'[|cands|..]))
  {
    hide Handles, HandlesIn, Additions, ObservedAll, Healthy, TakenFrom;
    NothingTaken(seen, self);
    ghost var more: seq<Cand> := [];
    ObservedNone(table.buckets[..], table.self, table.k);
    assert Contacts(more) == [];
    NoAdditions(seen, self);
    cands', seen' := cands, seen;
    for i := 0 to |contacts|
      invariant table.Valid()
      invariant cands' == cands + more && Additions(more, seen, self) && seen' == seen + Handles(more)
      invariant table.buckets[..] == ObservedAll(old(table.buckets[..]), table.self, table.k, Contacts(more))
      invariant TakenFrom(contacts[..i], seen, self, Contacts(more))
    {
      var c := contacts[i];
      TakeNext(contacts, i, seen, self, more);
      if c.handle !in seen' && c.handle != self {
        var _ := table.Observe(c);
        NewHandle(more, Cand(c, false), seen, self);
        ObservedOne(old(table.buckets[..]), table.self, table.k, more, c);
        more := more + [Cand(c, false)];
        cands' := cands' + [Cand(c, false)];
        seen' := seen' + {c.handle};
      }
    }
    assert cands'[|cands|..] == more;
    assert contacts[..|contacts|] == contacts;
  }

  lemma SameHandles(more: seq<Cand>)
    ensures HandlesIn(Contacts(more)) == Handles(more)
  {
    forall h | h in Handles(more) ensures h in HandlesIn(Contacts(more)) {
      var c :| c in more && HandleOf(c) == h;
      var i :| 0 <= i < |more| && more[i] == c;
      assert Contacts(more)[i] in Contacts(more);
    }
    forall h | h in HandlesIn(Contacts(more)) ensures h in Handles(more) {
      var c :| c in Contacts(more) && c.handle == h;
      var i :| 0 <= i < |more| && Contacts(more)[i] == c;
      assert more[i] in more;
    }
  }

  lemma TakeNext(contacts: seq<Contact>, i: nat, seen: set<string>, self: string, more: seq<Cand>)
    requires i < |contacts| && TakenFrom(contacts[..i], seen, self, Contacts(more))
    ensures var c := contacts[i];
            TakenFrom(contacts[..i + 1], seen, self,
                      Contacts(if Unseen(c, seen + Handles(more), self) then more + [Cand(c, false)] else more))
  {
    var c := contacts[i];
    var known := seen + Handles(more);
    SameHandles(more);
    hide TakenFrom;
    TakenOne(c, known, self);
    TakenInTurn(contacts[..i], [c], seen, self, Contacts(more), if Unseen(c, known, self) then [c] else []);
    assert contacts[..i + 1] == contacts[..i] + [c];
    assert Contacts(more) + [] == Contacts(more);
    assert Contacts(more + [Cand(c, false)]) == Contacts(more) + [c];
  }

  lemma ObservedNone(t: Table, self: Id, k: nat)
    ensures ObservedAll(t, self, k, []) == t
  {
  }

  lemma ObservedOne(t: Table, self: Id, k: nat, more: seq<Cand>, c: Contact)
    ensures ObservedAll(t, self, k, Contacts(more + [Cand(c, false)]))
         == Observed(ObservedAll(t, self, k, Contacts(more)), self, k, c)
  {
    hide Observed;
    assert Contacts(more + [Cand(c, false)]) == Contacts(more) + [c];
  }

  lemma NoAdditions(seen: set<string>, self: string)
    ensures Additions([], seen, self) && Handles([]) == {}
  {
  }

  lemma NewHandle(cands: seq<Cand>, c: Cand, seen: set<string>, self: string)
    requires Additions(cands, seen, self)
    requires HandleOf(c) !in seen + Handles(cands) && HandleOf(c) != self && !c.queried
    ensures Handles(cands + [c]) == Handles(cands) + {HandleOf(c)}
    ensures Additions(cands + [c], seen, self)
  {
    assert Handles(cands + [c]) == Handles(cands) + {HandleOf(c)} by {
      HandlesJoin(cands, [c]);
      assert Handles([c]) == {HandleOf(c)};
    }
    forall i | 0 <= i < |cands| ensures HandleOf(cands[i]) in Handles(cands) {
      assert cands[i] in cands;
    }
  }

  lemma HandlesJoin(a: seq<Cand>, b: seq<Cand>)
    ensures Handles(a + b) == Handles(a) + Handles(b)
  {
    forall h | h in Handles(a) + Handles(b) ensures h in Handles(a + b) {
      var c :| (c in a || c in b) && HandleOf(c) == h;
      assert c in a + b;
    }
  }

  // ---------- the lookup ----------

  type Respond = (nat, string) -> Option<Reply>

  datatype Ending = Found | NothingNew | AllAsked | OutOfRounds

  /** What a lookup leaves behind: whom it asked in each round, the handles known before each round,
      the contacts each round taught it, every candidate it saw, and why it ended. */
  datatype Trace = Trace(batches: seq<seq<string>>, known: seq<set<string>>, learned: seq<seq<Contact>>,
                         cands: seq<Cand>, ending: Ending)

  function Flat<T>(parts: seq<seq<T>>): seq<T> {
    if parts == [] then [] else Flat(parts[..|parts| - 1]) + parts[|parts| - 1]
  }

  lemma FlatGrows<T>(parts: seq<seq<T>>, last: seq<T>)
    ensures Flat(parts + [last]) == Flat(parts) + last
  {
    assert (parts + [last])[..|parts|] == parts;
  }

  /** An empty value counts as no answer. */
  predicate HasValue(answer: Option<Reply>) {
    answer.Some? && answer.value.value.Some? && answer.value.value.value != []
  }

  /** The contacts read in a round: those of the replies, in order, up to the first that has the value. */
  function Read(respond: Respond, wantValue: bool, round: nat, batch: seq<string>): seq<Contact> {
    if batch == [] || (wantValue && HasValue(respond(round, batch[0]))) then []
    else ContactsOf(respond(round, batch[0])) + Read(respond, wantValue, round, batch[1..])
  }

  function ContactsOf(answer: Option<Reply>): seq<Contact> {
    if answer.Some? then answer.value.contacts else []
  }

  /** What is read comes from the replies of the batch; and without a value, each of them is read. */
  lemma {:induction false} ReadIsReplies(respond: Respond, wantValue: bool, round: nat, batch: seq<string>)
    ensures forall c :: c in Read(respond, wantValue, round, batch) ==>
              exists h :: h in batch && respond(round, h).Some? && c in respond(round, h).value.contacts
    ensures (forall h :: h in batch ==> !(wantValue && HasValue(respond(round, h)))) ==>
              forall h, c :: h in batch && respond(round, h).Some? && c in respond(round, h).value.contacts ==>
                c in Read(respond, wantValue, round, batch)
  {
    if batch != [] {
      ReadIsReplies(respond, wantValue, round, batch[1..]);
      assert batch[0] in batch;
      assert forall h :: h in batch ==> h == batch[0] || h in batch[1..];
    }
  }

  /** One more reply is read. */
  lemma ReadNext(respond: Respond, wantValue: bool, round: nat, batch: seq<string>, i: nat, read: seq<Contact>)
    requires i < |batch|
    requires Read(respond, wantValue, round, batch) == read + Read(respond, wantValue, round, batch[i..])
    ensures var answer := respond(round, batch[i]);
            if wantValue && HasValue(answer) then Read(respond, wantValue, round, batch) == read
            else Read(respond, wantValue, round, batch)
                 == read + ContactsOf(answer) + Read(respond, wantValue, round, batch[i + 1..])
  {
    var rest := batch[i..];
    assert rest[0] == batch[i] && rest[1..] == batch[i + 1..];
    assert wantValue && HasValue(respond(round, batch[i])) ==> Read(respond, wantValue, round, rest) == [];
    assert read + [] == read;
  }

  lemma AllRead(respond: Respond, wantValue: bool, round: nat, batch: seq<string>, read: seq<Contact>)
    requires Read(respond, wantValue, round, batch) == read + Read(respond, wantValue, round, batch[|batch|..])
    ensures Read(respond, wantValue, round, batch) == read
  {
    assert read + [] == read;
  }

  /** What each round taught the lookup, and what it knew before: first the starting contacts. */
  ghost predicate LearnedFrom(respond: Respond, self: string, wantValue: bool, start: seq<Contact>,
                              batches: seq<seq<string>>, known: seq<set<string>>, learned: seq<seq<Contact>>) {
    && |learned| == |batches| && |known| >= |batches| && |known| > 0 && known[0] == HandlesIn(start)
    && (forall r :: 0 <= r < |batches| ==>
          TakenFrom(Read(respond, wantValue, r, batches[r]), known[r], self, learned[r]))
    && (forall r :: 0 <= r < |known| - 1 && r < |batches| ==> known[r + 1] == known[r] + HandlesIn(learned[r]))
  }

  lemma LearnedMore(respond: Respond, self: string, wantValue: bool, start: seq<Contact>, batches: seq<seq<string>>,
                    known: seq<set<string>>, learned: seq<seq<Contact>>, batch: seq<string>, more: seq<Contact>,
                    seen: set<string>)
    requires LearnedFrom(respond, self, wantValue, start, batches, known, learned) && |known| == |batches| + 1
    requires TakenFrom(Read(respond, wantValue, |batches|, batch), known[|batches|], self, more)
    requires seen == known[|batches|] + HandlesIn(more)
    ensures LearnedFrom(respond, self, wantValue, start, batches + [batch], known, learned + [more])
    ensures LearnedFrom(respond, self, wantValue, start, batches + [batch], known + [seen], learned + [more])
  {
    hide TakenFrom, HandlesIn, Read;
  }

  /** Every contact that a lookup learned stands, as it is, in a reply of a node asked in that round. */
  lemma LearnedWasReplied(respond: Respond, self: string, wantValue: bool, start: seq<Contact>,
                          batches: seq<seq<string>>, known: seq<set<string>>, learned: seq<seq<Contact>>, r: nat,
                          c: Contact)
    requires LearnedFrom(respond, self, wantValue, start, batches, known, learned) && r < |batches| && c in learned[r]
    ensures exists h :: h in batches[r] && respond(r, h).Some? && c in respond(r, h).value.contacts
  {
    var contacts := Read(respond, wantValue, r, batches[r]);
    var p :| 0 <= p < |learned[r]| && learned[r][p] == c;
    assert TakenAt(contacts, c);
    ReadIsReplies(respond, wantValue, r, batches[r]);
    hide FirstAt, Read;
    assert c in contacts;
  }

  /** All replies of the round were read: every contact in them is known now, and none had the value. */
  ghost predicate RoundDone(respond: Respond, self: string, wantValue: bool, round: nat, batch: seq<string>,
                            seen: set<string>) {
    forall h :: h in batch && respond(round, h).Some? ==>
      Known(respond(round, h).value.contacts, self, seen) && !(wantValue && HasValue(respond(round, h)))
  }

  /** The first n rounds were read in full, and each one taught the lookup a new handle. */
  ghost predicate Taught(respond: Respond, self: string, wantValue: bool, batches: seq<seq<string>>,
                         known: seq<set<string>>, n: nat) {
    n <= |batches| && |known| == n + 1
    && forall r :: 0 <= r < n ==>
         known[r] < known[r + 1] && RoundDone(respond, self, wantValue, r, batches[r], known[r + 1])
  }

  /** v is the first value among the answers of the round. */
  ghost predicate FirstAnswer(respond: Respond, round: nat, batch: seq<string>, v: seq<byte>) {
    exists i :: 0 <= i < |batch|
      && HasValue(respond(round, batch[i])) && respond(round, batch[i]).value.value == Some(v)
      && forall j :: 0 <= j < i ==> !HasValue(respond(round, batch[j]))
  }

  /** Why the lookup ended. It gives up after a round that taught it nothing, even with candidates left. */
  ghost predicate Explained(respond: Respond, self: string, wantValue: bool, alpha: nat, t: Trace,
                            value: Option<seq<byte>>) {
    var n := |t.batches|;
    match t.ending
    case Found =>
      wantValue && value.Some? && n > 0 && Taught(respond, self, wantValue, t.batches, t.known, n - 1)
      && FirstAnswer(respond, n - 1, t.batches[n - 1], value.value)
    case NothingNew =>
      value.None? && n > 0 && Taught(respond, self, wantValue, t.batches, t.known, n - 1)
      && t.known[n - 1] == Handles(t.cands)
      && RoundDone(respond, self, wantValue, n - 1, t.batches[n - 1], t.known[n - 1])
    case AllAsked =>
      value.None? && Taught(respond, self, wantValue, t.batches, t.known, n)
      && t.known[n] == Handles(t.cands) && (alpha > 0 ==> forall c :: c in t.cands ==> c.queried)
    case OutOfRounds =>
      value.None? && n == MAX_ROUNDS && Taught(respond, self, wantValue, t.batches, t.known, n)
      && t.known[n] == Handles(t.cands)
  }

  /** This answer holds some bytes. */
  ghost predicate Holds(answer: Option<Reply>, v: seq<byte>) {
    answer.Some? && answer.value.value == Some(v) && v != []
  }

  /** A lookup that found nothing got no bytes from anyone it asked. */
  lemma NothingWasAnswered(respond: Respond, self: string, alpha: nat, t: Trace, r: nat, h: string, v: seq<byte>)
    requires Explained(respond, self, true, alpha, t, None) && r < |t.batches| && h in t.batches[r]
    ensures !Holds(respond(r, h), v)
  {
    hide Known;
    assert t.ending != NothingNew || r < |t.batches| - 1 ==>
      RoundDone(respond, self, true, r, t.batches[r], t.known[r + 1]);
  }

  /** A lookup that found a value found the first bytes that anyone answered with: nobody asked in an
      earlier round, or earlier in this one, had any. */
  lemma FirstIsFound(respond: Respond, self: string, alpha: nat, t: Trace, v: seq<byte>) returns (i: nat)
    requires Explained(respond, self, true, alpha, t, Some(v))
    ensures var n := |t.batches| - 1;
            && n >= 0 && i < |t.batches[n]| && Holds(respond(n, t.batches[n][i]), v)
            && (forall j, w :: 0 <= j < i ==> !Holds(respond(n, t.batches[n][j]), w))
            && forall r, h, w :: 0 <= r < n && h in t.batches[r] ==> !Holds(respond(r, h), w)
  {
    hide Known;
    var n := |t.batches| - 1;
    assert FirstAnswer(respond, n, t.batches[n], v);
    i :| 0 <= i < |t.batches[n]|
      && HasValue(respond(n, t.batches[n][i])) && respond(n, t.batches[n][i]).value.value == Some(v)
      && forall j :: 0 <= j < i ==> !HasValue(respond(n, t.batches[n][j]));
    forall r, h, w | 0 <= r < n && h in t.batches[r] ensures !Holds(respond(r, h), w) {
      assert RoundDone(respond, self, true, r, t.batches[r], t.known[r + 1]);
    }
  }

  /** No two contacts share a handle. */
  ghost predicate Fair(start: seq<Contact>) {
    forall i, j :: 0 <= i < j < |start| ==> start[i].handle != start[j].handle
  }

  /** The handles known so far are those of the candidates; the starting contacts are among them. */
  ghost predicate Covers(cands: seq<Cand>, seen: set<string>, start: seq<Contact>) {
    seen == Handles(cands) && forall c :: c in start ==> c in Contacts(cands)
  }

  lemma StartTracks(start: seq<Contact>)
    ensures Covers(Fresh(start), set c | c in start :: c.handle, start)
    ensures Fair(start) ==> Tracks(Fresh(start), [])
  {
    var cands := Fresh(start);
    assert Contacts(cands) == start;
    forall h | h in Handles(cands) ensures exists c :: c in start && c.handle == h {
      var c :| c in cands && HandleOf(c) == h;
      assert c.contact in start;
    }
    forall c | c in start ensures c.handle in Handles(cands) {
      var i :| 0 <= i < |start| && start[i] == c;
      assert cands[i] in cands && HandleOf(cands[i]) == c.handle;
    }
  }

  lemma SortCovers(cands: seq<Cand>, seen: set<string>, start: seq<Contact>, target: Id)
    requires Covers(cands, seen, start)
    ensures var s := Sorted(cands, CandDistance(target));
            && Covers(s, seen, start) && Ascending(Contacts(s), ByDistance(target))
            && multiset(Contacts(s)) == multiset(Contacts(cands)) && QueriedBag(s) == QueriedBag(cands)
  {
    var key := CandDistance(target);
    var s := Sorted(cands, key);
    SortKeepsMembers(cands, key);
    SortedIsSorted(cands, key);
    hide Sorted;
    SameContacts(s, cands);
    assert Handles(s) == Handles(cands);
    forall c | c in start ensures c in Contacts(s) {
      var i :| 0 <= i < |cands| && Contacts(cands)[i] == c;
      assert cands[i] in s;
      var j :| 0 <= j < |s| && s[j] == cands[i];
      assert Contacts(s)[j] == c;
    }
    assert forall i :: 0 <= i < |s| ==> key(s[i]) == ByDistance(target)(Contacts(s)[i]);
  }

  lemma {:induction false} SameContacts(a: seq<Cand>, b: seq<Cand>)
    requires multiset(a) == multiset(b)
    ensures multiset(Contacts(a)) == multiset(Contacts(b)) && QueriedBag(a) == QueriedBag(b)
  {
    if a == [] {
      assert |multiset(b)| == |b| == 0;
      assert a == b;
    } else {
      assert a[0] in multiset(b);
      var j :| 0 <= j < |b| && b[j] == a[0];
      hide Contacts, QueriedBag;
      WithoutOne(a, b, j);
      SameContacts(a[..0] + a[1..], b[..j] + b[j + 1..]);
      WithOne(a, b, j);
    }
  }

  lemma {:induction false} WithoutOne(a: seq<Cand>, b: seq<Cand>, j: nat)
    requires multiset(a) == multiset(b) && a != [] && j < |b| && b[j] == a[0]
    ensures multiset(a[..0] + a[1..]) == multiset(b[..j] + b[j + 1..])
  {
    TakeOut(a, 0);
    TakeOut(b, j);
  }

  lemma {:induction false} WithOne(a: seq<Cand>, b: seq<Cand>, j: nat)
    requires a != [] && j < |b| && b[j] == a[0]
    requires multiset(Contacts(a[..0] + a[1..])) == multiset(Contacts(b[..j] + b[j + 1..]))
    requires QueriedBag(a[..0] + a[1..]) == QueriedBag(b[..j] + b[j + 1..])
    ensures multiset(Contacts(a)) == multiset(Contacts(b)) && QueriedBag(a) == QueriedBag(b)
  {
    hide Contacts, QueriedBag;
    TakeOut(a, 0);
    TakeOut(b, j);
    TakeOutOfBag(a, 0);
    TakeOutOfBag(b, j);
  }

  lemma {:induction false} TakeOut(a: seq<Cand>, j: nat)
    requires j < |a|
    ensures multiset(a[..j] + a[j + 1..]) == multiset(a) - multiset{a[j]}
    ensures multiset(Contacts(a)) == multiset(Contacts(a[..j] + a[j + 1..])) + multiset{a[j].contact}
  {
    var cs := Contacts(a);
    assert a == a[..j] + [a[j]] + a[j + 1..];
    assert cs == cs[..j] + [cs[j]] + cs[j + 1..];
    assert Contacts(a[..j] + a[j + 1..]) == cs[..j] + cs[j + 1..];
  }

  lemma {:induction false} TakeOutOfBag(a: seq<Cand>, j: nat)
    requires j < |a|
    ensures QueriedBag(a) == QueriedBag(a[..j] + a[j + 1..]) + QueriedBag([a[j]])
  {
    hide QueriedBag;
    var before, c, after := a[..j], a[j], a[j + 1..];
    assert a == before + [c] + after;
    BagJoin(before, after);
    BagJoin(before, [c]);
    BagJoin(before + [c], after);
  }

  lemma MarkCovers(cands: seq<Cand>, marked: seq<Cand>, seen: set<string>, start: seq<Contact>)
    requires Covers(cands, seen, start) && |marked| == |cands|
    requires forall i :: 0 <= i < |cands| ==> marked[i].contact == cands[i].contact
    ensures Covers(marked, seen, start) && Contacts(marked) == Contacts(cands)
  {
    assert Contacts(marked) == Contacts(cands);
    forall h ensures h in Handles(marked) <==> h in Handles(cands) {
      if h in Handles(marked) {
        var c :| c in marked && HandleOf(c) == h;
        var i :| 0 <= i < |marked| && marked[i] == c;
        assert cands[i] in cands && HandleOf(cands[i]) == h;
      }
      if h in Handles(cands) {
        var c :| c in cands && HandleOf(c) == h;
        var i :| 0 <= i < |cands| && cands[i] == c;
        assert marked[i] in marked && HandleOf(marked[i]) == h;
      }
    }
  }

  lemma AbsorbCovers(cands: seq<Cand>, more: seq<Cand>, asked: seq<string>, self: string, seen: set<string>,
                     start: seq<Contact>)
    requires Covers(cands, seen, start) && Additions(more, seen, self)
    ensures Covers(cands + more, seen + Handles(more), start)
    ensures Tracks(cands, asked) ==> Tracks(cands + more, asked)
    ensures more != [] ==> seen < seen + Handles(more)
    ensures more == [] ==> Handles(more) == {}
    ensures Contacts(cands + more) == Contacts(cands) + Contacts(more)
  {
    HandlesJoin(cands, more);
    assert Contacts(cands + more) == Contacts(cands) + Contacts(more);
    forall i | 0 <= i < |cands| ensures HandleOf(cands[i]) in seen {
      assert cands[i] in cands;
    }
    forall j | 0 <= j < |more| ensures HandleOf(more[j]) !in seen && HandleOf(more[j]) in Handles(more) {
      assert more[j] in more;
    }
    if more != [] {
      assert HandleOf(more[0]) in Handles(more);
    }
  }

  /** What other handlers do to the table while a round waits for its replies. */
  type Others = nat -> seq<Op>

  function AppliedAll(t: Table, self: Id, k: nat, ops: seq<Op>): Table {
    if ops == [] then t else Applied(AppliedAll(t, self, k, ops[..|ops| - 1]), self, k, ops[|ops| - 1])
  }

  /** The table after some rounds: in each, the others' operations and then the contacts learned. */
  function TableAfter(t: Table, self: Id, k: nat, others: Others, learned: seq<seq<Contact>>): Table {
    if learned == [] then t
    else
      var n := |learned| - 1;
      ObservedAll(AppliedAll(TableAfter(t, self, k, others, learned[..n]), self, k, others(n)), self, k, learned[n])
  }

  lemma TableAtFirst(t: Table, self: Id, k: nat, others: Others)
    ensures TableAfter(t, self, k, others, []) == t
  {
  }

  lemma TableGoesOn(t: Table, self: Id, k: nat, others: Others, learned: seq<seq<Contact>>, more: seq<Contact>)
    ensures TableAfter(t, self, k, others, learned + [more])
         == ObservedAll(AppliedAll(TableAfter(t, self, k, others, learned), self, k, others(|learned|)), self, k, more)
  {
    assert (learned + [more])[..|learned|] == learned;
  }

  /** Lets the other handlers run. */
  method Interfere(table: Routing, ops: seq<Op>)
    requires table.Valid()
    modifies table.buckets
    ensures table.Valid() && table.buckets[..] == AppliedAll(old(table.buckets[..]), table.self, table.k, ops)
  {
    for i := 0 to |ops|
      invariant table.Valid() && table.buckets[..] == AppliedAll(old(table.buckets[..]), table.self, table.k, ops[..i])
    {
      hide Healthy, Observed, RemovedFrom;
      assert ops[..i + 1][..i] == ops[..i];
      match ops[i] {
        case Observe(c) => var _ := table.Observe(c);
        case Remove(handle) => var _ := table.Remove(handle);
      }
    }
    assert ops[..|ops|] == ops;
  }

  /** What a round teaches the lookup, the routing table gets to know as well: each contact has its entry
      afterwards, unless its bucket is full. */
  lemma {:induction false} LearnedArePlaced(t: Table, self: Id, k: nat, cs: seq<Contact>, c: Contact)
    requires c in cs
    ensures Placed(ObservedAll(t, self, k, cs), self, k, c)
  {
    hide Observed, Placed;
    var front, last := cs[..|cs| - 1], cs[|cs| - 1];
    if c in front {
      LearnedArePlaced(t, self, k, front, c);
      ObserveKeepsPlaced(ObservedAll(t, self, k, front), self, k, last, c);
    } else {
      ObservePlaces(ObservedAll(t, self, k, front), self, k, c);
    }
  }

  lemma {:induction false} ObservedInTurn(t: Table, self: Id, k: nat, a: seq<Contact>, b: seq<Contact>)
    ensures ObservedAll(t, self, k, a + b) == ObservedAll(ObservedAll(t, self, k, a), self, k, b)
  {
    hide Observed;
    if b == [] {
      assert a + b == a;
    } else {
      ObservedInTurn(t, self, k, a, b[..|b| - 1]);
      assert (a + b)[..|a + b| - 1] == a + b[..|b| - 1];
    }
  }

  lemma KnownStays(respond: Respond, self: string, wantValue: bool, round: nat, batch: seq<string>, seen: set<string>,
                   seen': set<string>)
    requires RoundDone(respond, self, wantValue, round, batch, seen) && seen <= seen'
    ensures RoundDone(respond, self, wantValue, round, batch, seen')
  {
  }

  lemma RoundGoesOn(respond: Respond, self: string, wantValue: bool, round: nat, batch: seq<string>, i: nat,
                    seen: set<string>)
    requires i < |batch| && RoundDone(respond, self, wantValue, round, batch[..i], seen)
    requires var answer := respond(round, batch[i]);
             answer.Some? ==> Known(answer.value.contacts, self, seen) && !(wantValue && HasValue(answer))
    ensures RoundDone(respond, self, wantValue, round, batch[..i + 1], seen)
  {
    assert batch[..i + 1] == batch[..i] + [batch[i]];
  }

  /** Takes in the contacts of one reply. */
  method TakeReply(table: Routing, self: string, cands: seq<Cand>, seen: set<string>, contacts: seq<Contact>,
                   ghost asked: seq<string>, ghost start: seq<Contact>, ghost was: Table, ghost before: seq<Contact>)
      returns (cands': seq<Cand>, seen': set<string>, ghost taught: seq<Contact>)
    requires table.Valid() && Covers(cands, seen, start)
    requires table.buckets[..] == ObservedAll(was, table.self, table.k, before)
    modifies table.buckets
    ensures table.Valid() && Covers(cands', seen', start)
    ensures table.buckets[..] == ObservedAll(was, table.self, table.k, before + taught)
    ensures Contacts(cands') == Contacts(cands) + taught && |cands'| >= |cands|
    ensures QueriedBag(cands') == QueriedBag(cands)
    ensures Tracks(cands, asked) ==> Tracks(cands', asked)
    ensures if |cands'| > |cands| then seen < seen' else cands' == cands && seen' == seen
    ensures TakenFrom(contacts, seen, self, taught) && seen' == seen + HandlesIn(taught)
    ensures Known(contacts, self, seen')
  {
    hide Covers, Tracks, Handles, HandlesIn, Additions, Known, ObservedAll, Healthy, QueriedBag, FirstAt;
    cands', seen' := Absorb(table, self, cands, seen, contacts);
    ghost var more := cands'[|cands|..];
    assert cands' == cands + more;
    AbsorbCovers(cands, more, asked, self, seen, start);
    AdditionsUnasked(cands, more, seen, self);
    taught := Contacts(more);
    SameHandles(more);
    if more == [] {
      assert cands + more == cands && seen + Handles(more) == seen;
    }
    ObservedInTurn(was, table.self, table.k, before, taught);
  }

  /** Works through the replies of one round, up to the first that carries the value. */
  method AskRound(table: Routing, self: string, round: nat, batch: seq<string>, cands: seq<Cand>, seen: set<string>,
                  wantValue: bool, respond: Respond, ghost asked: seq<string>, ghost start: seq<Contact>)
      returns (value: Option<seq<byte>>, cands': seq<Cand>, seen': set<string>, learned: bool,
               ghost taught: seq<Contact>)
    requires table.Valid() && Covers(cands, seen, start)
    modifies table.buckets
    ensures table.Valid() && Covers(cands', seen', start)
    ensures table.buckets[..] == ObservedAll(old(table.buckets[..]), table.self, table.k, taught)
    ensures Contacts(cands') == Contacts(cands) + taught && QueriedBag(cands') == QueriedBag(cands)
    ensures Tracks(cands, asked) ==> Tracks(cands', asked)
    ensures learned ==> seen < seen'
    ensures !learned ==> cands' == cands && seen' == seen
    ensures value.None? ==> RoundDone(respond, self, wantValue, round, batch, seen')
    ensures value.Some? ==> wantValue && FirstAnswer(respond, round, batch, value.value)
    // what the round teaches is what its replies list under new handles
    ensures TakenFrom(Read(respond, wantValue, round, batch), seen, self, taught) && seen' == seen + HandlesIn(taught)
  {
    hide Covers, Tracks, RoundDone, Known, ObservedAll, Contacts, Healthy, QueriedBag, TakenFrom, HandlesIn, Read;
    ghost var read: seq<Contact> := [];
    assert batch[0..] == batch;
    assert read + Read(respond, wantValue, round, batch) == Read(respond, wantValue, round, batch);
    NothingTaken(seen, self);
    value, cands', seen', learned, taught := None, cands, seen, false, [];
    ObservedNone(table.buckets[..], table.self, table.k);
    NothingAskedYet(respond, self, wantValue, round, batch[..0], seen);
    for i := 0 to |batch|
      invariant table.Valid() && Covers(cands', seen', start)
      invariant table.buckets[..] == ObservedAll(old(table.buckets[..]), table.self, table.k, taught)
      invariant Contacts(cands') == Contacts(cands) + taught && QueriedBag(cands') == QueriedBag(cands)
      invariant Tracks(cands, asked) ==> Tracks(cands', asked)
      invariant learned ==> seen < seen'
      invariant !learned ==> cands' == cands && seen' == seen
      invariant value.None? && RoundDone(respond, self, wantValue, round, batch[..i], seen')
      invariant wantValue ==> forall j :: 0 <= j < i ==> !HasValue(respond(round, batch[j]))
      invariant Read(respond, wantValue, round, batch) == read + Read(respond, wantValue, round, batch[i..])
      invariant TakenFrom(read, seen, self, taught) && seen' == seen + HandlesIn(taught)
    {
      var answer := respond(round, batch[i]);
      ReadNext(respond, wantValue, round, batch, i, read);
      if answer.Some? {
        var reply := answer.value;
        if wantValue && reply.value.Some? && reply.value.value != [] {
          value := reply.value;
          return;
        }
        var before := |cands'|;
        ghost var known, more := seen', [];
        cands', seen', more := TakeReply(
          table, self, cands', seen', reply.contacts, asked, start, old(table.buckets[..]), taught);
        KnownStays(respond, self, wantValue, round, batch[..i], known, seen');
        TakenInTurn(read, reply.contacts, seen, self, taught, more);
        taught := taught + more;
        if |cands'| > before {
          learned := true;
        }
      }
      assert answer.None? ==> read + [] == read;
      read := read + ContactsOf(answer);
      RoundGoesOn(respond, self, wantValue, round, batch, i, seen');
    }
    assert batch[..|batch|] == batch;
    AllRead(respond, wantValue, round, batch, read);
  }

  lemma NothingAskedYet(respond: Respond, self: string, wantValue: bool, round: nat, batch: seq<string>,
                        seen: set<string>)
    requires batch == []
    ensures RoundDone(respond, self, wantValue, round, batch, seen)
  {
  }

  /** Sorts the candidates and picks whom to ask in this round: the nearest not asked yet. */
  method NextBatch(cands: seq<Cand>, alpha: nat, target: Id, ghost asked: seq<string>, ghost seen: set<string>,
                   ghost start: seq<Contact>)
      returns (marked: seq<Cand>, batch: seq<string>, ghost at: seq<nat>)
    requires Covers(cands, seen, start)
    ensures Covers(marked, seen, start) && Ascending(Contacts(marked), ByDistance(target))
    ensures multiset(Contacts(marked)) == multiset(Contacts(cands))
    // exactly the batch is newly marked
    ensures QueriedBag(marked) == QueriedBag(cands) + multiset(batch)
    ensures Tracks(cands, asked) ==> Tracks(marked, asked + batch)
    ensures |at| == |batch| <= alpha
    ensures forall p :: 0 <= p < |at| ==> at[p] < |marked| && batch[p] == HandleOf(marked[at[p]])
    ensures forall p, i :: 0 <= p < |at| && 0 <= i < |marked| && !marked[i].queried ==> at[p] < i
    ensures |batch| < alpha ==> forall c :: c in marked ==> c.queried
  {
    hide Covers, Tracks, Sorted, Ascending, QueriedBag;
    var sorted := Sorted(cands, CandDistance(target));
    SortCovers(cands, seen, start, target);
    batch, marked, at := TakeBatch(sorted, alpha);
    MarkCovers(sorted, marked, seen, start);
    if Tracks(cands, asked) {
      SortTracks(cands, asked, target);
      BatchTracks(sorted, asked, batch, marked, at);
    }
  }

  method IterativeFind(table: Routing, self: string, target: Id, wantValue: bool, alpha: nat, respond: Respond,
                       others: Others)
      returns (value: Option<seq<byte>>, closest: seq<Contact>, ghost trace: Trace)
    requires table.Valid()
    modifies table.buckets
    ensures table.Valid()
    ensures table.buckets[..] == TableAfter(old(table.buckets[..]), table.self, table.k, others, trace.learned)
    ensures |trace.learned| == |trace.batches|
    // at most 16 rounds of alpha requests, and a stated reason to end
    ensures |trace.batches| <= MAX_ROUNDS && forall r :: 0 <= r < |trace.batches| ==> |trace.batches[r]| <= alpha
    ensures Explained(respond, self, wantValue, alpha, trace, value)
    // each round learns what its replies list under new handles, as they list it
    ensures LearnedFrom(respond, self, wantValue, Closest(old(table.buckets[..]), target, table.k), trace.batches,
                        trace.known, trace.learned)
    // the candidates are the starting contacts and those learned
    ensures multiset(Contacts(trace.cands))
         == multiset(Closest(old(table.buckets[..]), target, table.k) + Flat(trace.learned))
    // each candidate is marked once for each time it was asked
    ensures QueriedBag(trace.cands) == multiset(Flat(trace.batches))
    // no node is listed twice or asked twice if and only if the starting contacts have distinct handles
    ensures Tracks(trace.cands, Flat(trace.batches)) <==> Fair(Closest(old(table.buckets[..]), target, table.k))
    ensures trace.ending == AllAsked && alpha > 0 ==>
              (Distinct(Flat(trace.batches)) <==> Fair(Closest(old(table.buckets[..]), target, table.k)))
    // unless it ended early, a lookup returns the nearest of all candidates, nearest first
    ensures trace.ending == NothingNew || trace.ending == AllAsked ==>
              Ascending(Contacts(trace.cands), ByDistance(target))
    ensures closest == Take(Contacts(trace.cands), table.k)
  {
    var start := table.ClosestTo(target, table.k);
    hide Closest, Covers, Tracks, Fair, Explained, TableAfter, QueriedBag;
    assert HandlesIn([]) == {};
    StartTracks(start);
    NoneQueried(Fresh(start));
    TableAtFirst(table.buckets[..], table.self, table.k, others);
    if start == [] {
      value, closest, trace := None, [], Trace([], [{}], [], [], AllAsked);
      assert Fresh(start) == [];
      NobodyToAsk(respond, self, wantValue, alpha);
      UnfairRepeats(trace, start, respond, self, wantValue, alpha, None);
      return;
    }
    var cands;
    value, cands, trace := Search(table, self, target, wantValue, alpha, respond, others, start);
    closest := Take(Contacts(cands), table.k);
    UnfairRepeats(trace, start, respond, self, wantValue, alpha, value);
  }

  lemma NobodyToAsk(respond: Respond, self: string, wantValue: bool, alpha: nat)
    ensures Explained(respond, self, wantValue, alpha, Trace([], [{}], [], [], AllAsked), None)
  {
  }

  /** What holds between rounds. */
  ghost predicate Going(respond: Respond, self: string, wantValue: bool, alpha: nat, start: seq<Contact>,
                        cands: seq<Cand>, seen: set<string>, batches: seq<seq<string>>,
                        known: seq<set<string>>, taught: seq<seq<Contact>>) {
    && Covers(cands, seen, start) && |known| == |batches| + 1 && known[|batches|] == seen
    && Taught(respond, self, wantValue, batches, known, |batches|)
    && (forall r :: 0 <= r < |batches| ==> |batches[r]| <= alpha)
    && |taught| == |batches| && Tallied(cands, Flat(batches), start, Flat(taught))
    && LearnedFrom(respond, self, wantValue, start, batches, known, taught)
  }

  /** The candidates are the starting contacts and those learned, and are marked as often as asked. */
  ghost predicate Tallied(cands: seq<Cand>, asked: seq<string>, start: seq<Contact>, taught: seq<Contact>) {
    && multiset(Contacts(cands)) == multiset(start + taught) && QueriedBag(cands) == multiset(asked)
    && (Fair(start) ==> Tracks(cands, asked))
  }

  lemma TalliedBatch(cands: seq<Cand>, marked: seq<Cand>, asked: seq<string>, batch: seq<string>, start: seq<Contact>,
                     taught: seq<Contact>)
    requires Tallied(cands, asked, start, taught) && multiset(Contacts(marked)) == multiset(Contacts(cands))
    requires QueriedBag(marked) == QueriedBag(cands) + multiset(batch)
    requires Tracks(cands, asked) ==> Tracks(marked, asked + batch)
    ensures Tallied(marked, asked + batch, start, taught)
  {
    hide Contacts, QueriedBag, Tracks, Fair;
  }

  lemma TalliedRound(cands: seq<Cand>, cands': seq<Cand>, asked: seq<string>, start: seq<Contact>,
                     taught: seq<Contact>, more: seq<Contact>)
    requires Tallied(cands, asked, start, taught)
    requires Contacts(cands') == Contacts(cands) + more && QueriedBag(cands') == QueriedBag(cands)
    requires Tracks(cands, asked) ==> Tracks(cands', asked)
    ensures Tallied(cands', asked, start, taught + more)
  {
    hide Contacts, QueriedBag, Tracks, Fair;
    BagGrows(start, taught, more);
  }

  /** The rounds of a lookup. */
  method Search(table: Routing, self: string, target: Id, wantValue: bool, alpha: nat, respond: Respond,
                others: Others, start: seq<Contact>)
      returns (value: Option<seq<byte>>, cands: seq<Cand>, ghost trace: Trace)
    requires table.Valid()
    modifies table.buckets
    ensures table.Valid() && trace.cands == cands
    ensures table.buckets[..] == TableAfter(old(table.buckets[..]), table.self, table.k, others, trace.learned)
    ensures |trace.learned| == |trace.batches|
    ensures |trace.batches| <= MAX_ROUNDS && forall r :: 0 <= r < |trace.batches| ==> |trace.batches[r]| <= alpha
    ensures Explained(respond, self, wantValue, alpha, trace, value)
    ensures LearnedFrom(respond, self, wantValue, start, trace.batches, trace.known, trace.learned)
    ensures Tallied(cands, Flat(trace.batches), start, Flat(trace.learned))
    ensures trace.ending == NothingNew || trace.ending == AllAsked ==> Ascending(Contacts(cands), ByDistance(target))
  {
    hide Going, TableAfter, Explained, Healthy, Tallied, LearnedFrom;
    ghost var batches: seq<seq<string>>, known: seq<set<string>>, taught: seq<seq<Contact>>;
    var seen := set c | c in start :: c.handle;
    batches, known, taught, cands, value := [], [seen], [], Fresh(start), None;
    GoingAtFirst(respond, self, wantValue, alpha, start);
    TableAtFirst(table.buckets[..], table.self, table.k, others);
    for round := 0 to MAX_ROUNDS
      invariant table.Valid() && value.None? && |batches| == round
      invariant Going(respond, self, wantValue, alpha, start, cands, seen, batches, known, taught)
      invariant table.buckets[..] == TableAfter(old(table.buckets[..]), table.self, table.k, others, taught)
    {
      var done;
      value, cands, seen, done, batches, known, taught, trace := OneRound(
        table, self, target, wantValue, alpha, respond, others, start,
        round, cands, seen, batches, known, taught, old(table.buckets[..]));
      if done {
        return;
      }
    }
    trace := Trace(batches, known, taught, cands, OutOfRounds);
    ExplainOutOfRounds(respond, self, wantValue, alpha, trace, start, seen);
  }

  /** One round, and whether the lookup ends with it. */
  method OneRound(table: Routing, self: string, target: Id, wantValue: bool, alpha: nat, respond: Respond,
                  others: Others, start: seq<Contact>, round: nat, cands: seq<Cand>, seen: set<string>,
                  ghost batches: seq<seq<string>>, ghost known: seq<set<string>>, ghost taught: seq<seq<Contact>>,
                  ghost was: Table)
      returns (value: Option<seq<byte>>, cands': seq<Cand>, seen': set<string>, done: bool,
               ghost batches': seq<seq<string>>, ghost known': seq<set<string>>, ghost taught': seq<seq<Contact>>,
               ghost trace: Trace)
    requires table.Valid() && Going(respond, self, wantValue, alpha, start, cands, seen, batches, known, taught)
    requires |batches| == round < MAX_ROUNDS
    requires table.buckets[..] == TableAfter(was, table.self, table.k, others, taught)
    modifies table.buckets
    ensures table.Valid()
    ensures table.buckets[..] == TableAfter(was, table.self, table.k, others, taught') && |taught'| == |batches'|
    ensures !done ==> value.None? && |batches'| == round + 1
                      && Going(respond, self, wantValue, alpha, start, cands', seen', batches', known', taught')
    ensures done ==> trace == Trace(batches', trace.known, taught', cands', trace.ending)
                     && Explained(respond, self, wantValue, alpha, trace, value) && |batches'| <= MAX_ROUNDS
                     && LearnedFrom(respond, self, wantValue, start, batches', trace.known, taught')
    ensures forall r :: 0 <= r < |batches'| ==> |batches'[r]| <= alpha
    ensures Tallied(cands', Flat(batches'), start, Flat(taught'))
    ensures done && (trace.ending == NothingNew || trace.ending == AllAsked) ==>
              Ascending(Contacts(cands'), ByDistance(target))
  {
    hide Covers, Tracks, Ascending, RoundDone, FirstAnswer, ObservedAll, Explained, Flat, Taught, HasValue, Healthy,
         HandleOf, Far, QueriedBag, Tallied, Contacts, TableAfter, AppliedAll, LearnedFrom, TakenFrom, HandlesIn, Read;
    ghost var at, more;
    var batch, learned;
    cands', batch, at := NextBatch(cands, alpha, target, Flat(batches), seen, start);
    TalliedBatch(cands, cands', Flat(batches), batch, start, Flat(taught));
    value, seen', done, batches', known', taught' := None, seen, true, batches, known, taught;
    if |batch| == 0 {
      assert Flat(batches) + batch == Flat(batches);
      trace := Trace(batches, known, taught, cands', AllAsked);
      ExplainAllAsked(respond, self, wantValue, alpha, trace, start);
      return;
    }
    AskedGrows(respond, self, wantValue, batches, batch, known);
    batches' := batches + [batch];
    ghost var marked := cands';
    Interfere(table, others(round));
    value, cands', seen', learned, more := AskRound(
      table, self, round, batch, cands', seen, wantValue, respond, Flat(batches'), start);
    TableGoesOn(was, table.self, table.k, others, taught, more);
    FlatGrows(taught, more);
    TalliedRound(marked, cands', Flat(batches'), start, Flat(taught), more);
    LearnedMore(respond, self, wantValue, start, batches, known, taught, batch, more, seen');
    taught' := taught + [more];
    if value.Some? {
      trace := Trace(batches', known, taught', cands', Found);
      ExplainFound(respond, self, wantValue, alpha, trace, value.value);
    } else if !learned {
      trace := Trace(batches', known, taught', cands', NothingNew);
      ExplainNothingNew(respond, self, wantValue, alpha, trace, start);
    } else {
      done, trace := false, Trace(batches', known, taught', cands', OutOfRounds);
      TaughtMore(respond, self, wantValue, batches', known, seen', round);
      known' := known + [seen'];
    }
  }

  lemma GoingAtFirst(respond: Respond, self: string, wantValue: bool, alpha: nat, start: seq<Contact>)
    ensures Going(respond, self, wantValue, alpha, start, Fresh(start), set c | c in start :: c.handle, [],
                  [set c | c in start :: c.handle], [])
  {
    hide Covers, Tracks;
    StartTracks(start);
    assert Contacts(Fresh(start)) == start == start + [];
    assert Flat<string>([]) == [] && Flat<Contact>([]) == [];
    NoneQueried(Fresh(start));
  }

  lemma BagGrows(start: seq<Contact>, taught: seq<Contact>, more: seq<Contact>)
    ensures multiset(start + (taught + more)) == multiset(start + taught) + multiset(more)
  {
    assert start + (taught + more) == start + taught + more;
  }

  lemma AskedGrows(respond: Respond, self: string, wantValue: bool, batches: seq<seq<string>>, batch: seq<string>,
                   known: seq<set<string>>)
    ensures Flat(batches + [batch]) == Flat(batches) + batch
    ensures Taught(respond, self, wantValue, batches, known, |batches|) ==>
              Taught(respond, self, wantValue, batches + [batch], known, |batches|)
  {
    assert (batches + [batch])[..|batches|] == batches;
    hide RoundDone;
  }

  lemma TaughtMore(respond: Respond, self: string, wantValue: bool, batches: seq<seq<string>>, known: seq<set<string>>,
                   seen: set<string>, n: nat)
    requires Taught(respond, self, wantValue, batches, known, n) && n < |batches|
    requires known[n] < seen && RoundDone(respond, self, wantValue, n, batches[n], seen)
    ensures Taught(respond, self, wantValue, batches, known + [seen], n + 1)
  {
    hide RoundDone;
    forall r | 0 <= r < n + 1 ensures (known + [seen])[r] < (known + [seen])[r + 1]
      && RoundDone(respond, self, wantValue, r, batches[r], (known + [seen])[r + 1]) {
    }
  }

  lemma ExplainAllAsked(respond: Respond, self: string, wantValue: bool, alpha: nat, t: Trace, start: seq<Contact>)
    requires t.ending == AllAsked && Taught(respond, self, wantValue, t.batches, t.known, |t.batches|)
    requires Covers(t.cands, t.known[|t.batches|], start) && (alpha > 0 ==> forall c :: c in t.cands ==> c.queried)
    ensures Explained(respond, self, wantValue, alpha, t, None)
  {
  }

  lemma ExplainNothingNew(respond: Respond, self: string, wantValue: bool, alpha: nat, t: Trace, start: seq<Contact>)
    requires t.ending == NothingNew && |t.batches| > 0
    requires Taught(respond, self, wantValue, t.batches, t.known, |t.batches| - 1)
    requires Covers(t.cands, t.known[|t.batches| - 1], start)
    requires RoundDone(respond, self, wantValue, |t.batches| - 1, t.batches[|t.batches| - 1], t.known[|t.batches| - 1])
    ensures Explained(respond, self, wantValue, alpha, t, None)
  {
  }

  lemma ExplainFound(respond: Respond, self: string, wantValue: bool, alpha: nat, t: Trace, v: seq<byte>)
    requires t.ending == Found && |t.batches| > 0
    requires Taught(respond, self, wantValue, t.batches, t.known, |t.batches| - 1)
    requires wantValue && FirstAnswer(respond, |t.batches| - 1, t.batches[|t.batches| - 1], v)
    ensures Explained(respond, self, wantValue, alpha, t, Some(v))
  {
  }

  lemma ExplainOutOfRounds(respond: Respond, self: string, wantValue: bool, alpha: nat, t: Trace, start: seq<Contact>,
                           seen: set<string>)
    requires t.ending == OutOfRounds && |t.batches| == MAX_ROUNDS
    requires Going(respond, self, wantValue, alpha, start, t.cands, seen, t.batches, t.known, t.learned)
    ensures Explained(respond, self, wantValue, alpha, t, None)
    ensures Tallied(t.cands, Flat(t.batches), start, Flat(t.learned)) && |t.learned| == |t.batches|
    ensures LearnedFrom(respond, self, wantValue, start, t.batches, t.known, t.learned)
    ensures forall r :: 0 <= r < |t.batches| ==> |t.batches[r]| <= alpha
  {
  }

  /** At most 16 alpha requests in all. */
  lemma {:induction false} RequestsAreBounded(batches: seq<seq<string>>, alpha: nat)
    requires forall r :: 0 <= r < |batches| ==> |batches[r]| <= alpha
    ensures |Flat(batches)| <= |batches| * alpha
  {
    if batches != [] {
      var n := |batches| - 1;
      RequestsAreBounded(batches[..n], alpha);
      assert (n + 1) * alpha == n * alpha + alpha;
    }
  }

  // ---------- when the starting contacts are distinct ----------

  lemma QueriedIsCounted(cands: seq<Cand>, i: nat)
    requires i < |cands| && cands[i].queried
    ensures HandleOf(cands[i]) in QueriedBag(cands)
  {
    BagJoin(cands[..i + 1], cands[i + 1..]);
    assert cands == cands[..i + 1] + cands[i + 1..];
  }

  lemma {:induction false} DistinctCountsOnce(s: seq<string>, h: string)
    requires Distinct(s)
    ensures multiset(s)[h] <= 1
  {
    if s != [] {
      var n := |s| - 1;
      DistinctCountsOnce(s[..n], h);
      assert s == s[..n] + [s[n]];
      assert s[n] !in s[..n];
    }
  }

  /** If everyone listed was asked, and nobody twice, then nobody was listed twice. */
  lemma AskedOnceIsListedOnce(cands: seq<Cand>, asked: seq<string>)
    requires QueriedBag(cands) == multiset(asked) && Distinct(asked) && forall c :: c in cands ==> c.queried
    ensures DistinctBy(cands, HandleOf)
  {
    forall i, j | 0 <= i < j < |cands| ensures HandleOf(cands[i]) != HandleOf(cands[j]) {
      var front, back := cands[..j], cands[j..];
      assert cands == front + back && front[i] == cands[i] && back[0] == cands[j];
      assert cands[i] in cands && cands[j] in cands;
      BagJoin(front, back);
      QueriedIsCounted(front, i);
      QueriedIsCounted(back, 0);
      DistinctCountsOnce(asked, HandleOf(cands[i]));
    }
  }

  /** Candidates with distinct handles can only come from starting contacts with distinct handles. */
  lemma DistinctFromFair(cands: seq<Cand>, start: seq<Contact>, learned: seq<Contact>)
    requires DistinctBy(cands, HandleOf) && multiset(Contacts(cands)) == multiset(start + learned)
    ensures Fair(start)
  {
    assert Fair(Contacts(cands));
    SameMultisetIsFair(Contacts(cands), start + learned);
    forall i, j | 0 <= i < j < |start| ensures start[i].handle != start[j].handle {
      assert (start + learned)[i] == start[i] && (start + learned)[j] == start[j];
    }
  }

  lemma UnfairRepeats(t: Trace, start: seq<Contact>, respond: Respond, self: string, wantValue: bool, alpha: nat,
                      value: Option<seq<byte>>)
    requires multiset(Contacts(t.cands)) == multiset(start + Flat(t.learned))
    requires QueriedBag(t.cands) == multiset(Flat(t.batches))
    requires Fair(start) ==> Tracks(t.cands, Flat(t.batches))
    requires Explained(respond, self, wantValue, alpha, t, value)
    ensures Tracks(t.cands, Flat(t.batches)) <==> Fair(start)
    ensures t.ending == AllAsked && alpha > 0 ==> (Distinct(Flat(t.batches)) <==> Fair(start))
  {
    hide QueriedBag, Fair, Flat, Contacts, Taught;
    if Tracks(t.cands, Flat(t.batches)) {
      DistinctFromFair(t.cands, start, Flat(t.learned));
    }
    if t.ending == AllAsked && alpha > 0 && Distinct(Flat(t.batches)) {
      AskedOnceIsListedOnce(t.cands, Flat(t.batches));
      DistinctFromFair(t.cands, start, Flat(t.learned));
    }
  }

  /** With distinct handles in the whole table, every lookup starts from distinct handles; the converse
      holds for lookups that start from the whole table. */
  lemma FairWhenHandlesAreUnique(t: Table, self: Id, k: nat, target: Id, count: nat)
    requires Healthy(t, self, k)
    ensures Fair(All(t)) ==> Fair(Closest(t, target, count))
    ensures |All(t)| <= count && Fair(Closest(t, target, count)) ==> Fair(All(t))
  {
    hide Sorted, All;
    var all, sorted := All(t), Sorted(All(t), ByDistance(target));
    var handle: Contact -> string := (c: Contact) => c.handle;
    SortedIsSorted(all, ByDistance(target));
    if Fair(all) {
      assert DistinctBy(all, handle);
      SortKeepsDistinct(all, ByDistance(target), handle);
      assert DistinctBy(sorted, handle);
      assert Fair(sorted);
    }
    if |all| <= count && Fair(Closest(t, target, count)) {
      SameMultisetIsFair(sorted, all);
    }
  }

  /** A table can come to list one handle in two buckets, when a peer is seen under two ids. Lookups
      that start from both entries are not fair. */
  lemma OneHandleTwice(self: Id, k: nat, a: Contact, b: Contact, target: Id, count: nat)
    requires k > 0 && count >= 2 && a.handle == b.handle
    requires BucketOf(self, a.id) != BucketOf(self, b.id) && a.id != self && b.id != self
    ensures var t := After([Observe(a), Observe(b)], self, k);
            && Healthy(t, self, k) && multiset(All(t)) == multiset{a, b}
            && !Fair(All(t)) && !Fair(Closest(t, target, count))
  {
    hide *;
    var t := After([Observe(a), Observe(b)], self, k);
    TableStaysHealthy([Observe(a), Observe(b)], self, k);
    ListedTwice(self, k, a, b);
    SortedIsSorted(All(t), ByDistance(target));
    BothListed(All(t), a, b);
    BothListed(Sorted(All(t), ByDistance(target)), a, b);
    ClosestIsAll(t, target, count);
  }

  lemma ListedTwice(self: Id, k: nat, a: Contact, b: Contact)
    requires k > 0 && BucketOf(self, a.id) != BucketOf(self, b.id) && a.id != self && b.id != self
    ensures multiset(All(After([Observe(a), Observe(b)], self, k))) == multiset{a, b}
  {
    var p, q, t := BucketOf(self, a.id), BucketOf(self, b.id), After([Observe(a), Observe(b)], self, k);
    SeenTwice(self, k, a, b);
    if p < q {
      TwoListed(t, p, q, a, b);
    } else {
      TwoListed(t, q, p, b, a);
    }
  }

  lemma ClosestIsAll(t: Table, target: Id, count: nat)
    requires |Sorted(All(t), ByDistance(target))| <= count
    ensures Closest(t, target, count) == Sorted(All(t), ByDistance(target))
  {
  }

  lemma SeenTwice(self: Id, k: nat, a: Contact, b: Contact)
    requires k > 0 && BucketOf(self, a.id) != BucketOf(self, b.id) && a.id != self && b.id != self
    ensures var p, q := BucketOf(self, a.id), BucketOf(self, b.id);
            && 0 <= p < |Empty()| && 0 <= q < |Empty()| && p != q
            && After([Observe(a), Observe(b)], self, k) == Empty()[p := [a]][q := [b]]
  {
    var ops := [Observe(a), Observe(b)];
    assert ops[..1] == [Observe(a)] && ops[..1][..0] == [] && |ops| == 2;
    DistanceIsMetric(self, a.id, a.id);
    DistanceIsMetric(self, b.id, b.id);
    BucketInRange(self, a.id);
    BucketInRange(self, b.id);
    FirstInBucket(Empty(), self, k, a);
    FirstInBucket(Empty()[BucketOf(self, a.id) := [a]], self, k, b);
    hide Observed, BucketOf;
    assert After(ops[..1], self, k) == Empty()[BucketOf(self, a.id) := [a]];
  }

  lemma FirstInBucket(t: Table, self: Id, k: nat, c: Contact)
    requires k > 0 && 0 <= BucketOf(self, c.id) < |t| && t[BucketOf(self, c.id)] == []
    ensures Observed(t, self, k, c) == t[BucketOf(self, c.id) := [c]]
  {
    var none: Bucket := [];
    assert none + [c] == [c];
    assert Find(none, c) == -1;
  }

  lemma BothListed(cs: seq<Contact>, a: Contact, b: Contact)
    requires multiset(cs) == multiset{a, b} && a.handle == b.handle
    ensures |cs| == 2 && !Fair(cs)
  {
    assert multiset{a, b} == multiset{a} + multiset{b};
    assert |cs| == |multiset(cs)| == 2;
    assert cs[0] in multiset(cs) && cs[1] in multiset(cs);
    assert cs[0].handle == cs[1].handle;
  }

  /** Such sightings exist. */
  lemma TwoBuckets(handle: string)
    ensures exists self: Id, a: Contact, b: Contact ::
              && a.handle == handle == b.handle && a.id != self && b.id != self
              && BucketOf(self, a.id) != BucketOf(self, b.id)
  {
    var zero, one, two := SmallId(0), SmallId(1), SmallId(2);
    SmallIdDistance(1);
    SmallIdDistance(2);
    DistanceIsMetric(zero, one, two);
    DistanceIsMetric(zero, two, one);
    HighestBitIs(Distance(zero, one), 0);
    HighestBitIs(Distance(zero, two), 1);
    var a, b := Contact(one, handle, 0), Contact(two, handle, 0);
    assert BucketOf(zero, a.id) == 0 && BucketOf(zero, b.id) == 1;
  }

  lemma SameMultisetIsFair(a: seq<Contact>, b: seq<Contact>)
    requires Fair(a) && multiset(a) == multiset(b)
    ensures Fair(b)
  {
    forall i, j | 0 <= i < j < |b| ensures b[i].handle != b[j].handle {
      if b[i].handle == b[j].handle {
        assert b[i] in multiset(a) && b[j] in multiset(a);
        var p :| 0 <= p < |a| && a[p] == b[i];
        var q :| 0 <= q < |a| && a[q] == b[j];
        assert p == q;
        TwiceInMultiset(b, i, j);
        OnceInMultiset(a, p);
      }
    }
  }

  lemma TwiceInMultiset(b: seq<Contact>, i: nat, j: nat)
    requires i < j < |b| && b[i] == b[j]
    ensures multiset(b)[b[i]] >= 2
  {
    assert b == b[..j] + b[j..];
    assert b[..j][i] == b[i] && b[j..][0] == b[i];
    assert b[i] in multiset(b[..j]) && b[i] in multiset(b[j..]);
  }

  lemma OnceInMultiset(a: seq<Contact>, p: nat)
    requires Fair(a) && p < |a|
    ensures multiset(a)[a[p]] == 1
  {
    assert a == a[..p] + [a[p]] + a[p + 1..];
    assert a[p] !in a[..p] && a[p] !in a[p + 1..];
  }

  /** With ids derived from handles, as honest nodes derive them, it never happens. */
  lemma HonestIsFair(t: Table, self: Id, k: nat, target: Id, count: nat, idOf: string -> Id)
    requires Healthy(t, self, k) && forall c :: c in All(t) ==> c.id == idOf(c.handle)
    ensures Fair(Closest(t, target, count))
  {
    ClosestAreNearest(t, self, k, target, count);
    var cs := Closest(t, target, count);
    hide Closest, All;
    forall i, j | 0 <= i < j < |cs| ensures cs[i].handle != cs[j].handle {
      assert cs[i] in cs && cs[j] in cs;
    }
  }
}
