/** Which shards a download asks for. It fetches in two waves: first the lowest missing indices, as
    many as it still needs, then as many more as the first wave left it short. It never asks a third
    time, so having k shards within reach is not enough. */
module DriveDownload {
  import opened Bits
  import opened Wrappers

  /** The bytes a fetch of shard i brings, if any. */
  type Fetch = nat -> Option<seq<byte>>

  /** The first n indices from i on, below total, that are not taken. */
  function Wave(i: nat, total: nat, taken: set<nat>, n: nat): (w: seq<nat>)
    ensures |w| <= n
    ensures forall j :: 0 <= j < |w| ==> i <= w[j] < total && w[j] !in taken
    ensures Distinct(w)
    decreases total - i
  {
    if i >= total || n == 0 then []
    else if i in taken then Wave(i + 1, total, taken, n)
    else [i] + Wave(i + 1, total, taken, n - 1)
  }

  ghost function Filled(slots: seq<Option<seq<byte>>>): set<nat> {
    set i: nat | i < |slots| && slots[i].Some?
  }

  lemma FillOne(slots: seq<Option<seq<byte>>>, i: nat, data: Option<seq<byte>>)
    requires i < |slots| && slots[i].None? && data.Some?
    ensures |Filled(slots[i := data])| == |Filled(slots)| + 1
  {
    assert Filled(slots[i := data]) == Filled(slots) + {i};
  }

  function Hits(w: seq<nat>, fetch: Fetch): (n: nat)
    ensures n <= |w|
  {
    if w == [] then 0 else Hits(w[..|w| - 1], fetch) + if fetch(w[|w| - 1]).Some? then 1 else 0
  }

  function Present(local: Fetch, total: nat): set<nat> {
    set i: nat | i < total && local(i).Some?
  }

  function Shortfall(k: nat, have: nat): nat {
    if have < k then k - have else 0
  }

  /** The indices from i on that the local store lacks, in order. */
  function Absent(i: nat, total: nat, local: Fetch): seq<nat>
    decreases total - i
  {
    if i >= total then [] else (if local(i).None? then [i] else []) + Absent(i + 1, total, local)
  }

  function UpTo<T>(w: seq<T>, n: nat): seq<T> {
    if n < |w| then w[..n] else w
  }

  /** The first `short` of these shards leave some number unanswered, and that many right after them all
      answer. */
  ghost predicate NextOnesAnswer(absent: seq<nat>, short: nat, fetch: Fetch) {
    && short <= |absent|
    && var unanswered := short - Hits(absent[..short], fetch);
       short + unanswered <= |absent| && forall j :: short <= j < short + unanswered ==> fetch(absent[j]).Some?
  }

  /** The download succeeds exactly when this holds of the shards it lacks, in order, and of the number
      it is short of k. */
  ghost predicate WavesSuffice(k: nat, total: nat, local: Fetch, fetch: Fetch) {
    NextOnesAnswer(Absent(0, total, local), Shortfall(k, |Present(local, total)|), fetch)
  }

  // ---------- the waves as they run ----------

  function FirstWave(k: nat, total: nat, local: Fetch): seq<nat> {
    Wave(0, total, Present(local, total), Shortfall(k, |Present(local, total)|))
  }

  /** The second wave, after the given first one. */
  ghost function SecondWave(k: nat, total: nat, local: Fetch, fetch: Fetch, first: seq<nat>): seq<nat> {
    Wave(0, total, Present(local, total) + Elements(first), Shortfall(k, |Present(local, total)| + Hits(first, fetch)))
  }

  method PlanWave(collected: array<Option<seq<byte>>>, exclude: seq<nat>, want: nat, ghost taken: set<nat>)
      returns (w: seq<nat>)
    requires taken == set i: nat | i < collected.Length && (collected[i].Some? || i in exclude)
    ensures w == Wave(0, collected.Length, taken, want)
  {
    hide Wave;
    w := [];
    var i := 0;
    while i < collected.Length && |w| < want
      invariant 0 <= i <= collected.Length && |w| <= want
      invariant Wave(0, collected.Length, taken, want) == w + Wave(i, collected.Length, taken, want - |w|)
    {
      WaveStep(i, collected.Length, taken, want - |w|);
      if collected[i].None? && i !in exclude {
        w := w + [i];
      }
      i := i + 1;
    }
    WaveEnds(i, collected.Length, taken, want - |w|);
  }

  lemma WaveStep(i: nat, total: nat, taken: set<nat>, n: nat)
    requires i < total && n > 0
    ensures Wave(i, total, taken, n)
         == if i in taken then Wave(i + 1, total, taken, n) else [i] + Wave(i + 1, total, taken, n - 1)
  {
  }

  lemma WaveEnds(i: nat, total: nat, taken: set<nat>, n: nat)
    requires i >= total || n == 0
    ensures Wave(i, total, taken, n) == []
  {
  }

  method FetchWave(collected: array<Option<seq<byte>>>, w: seq<nat>, fetch: Fetch) returns (hits: nat)
    requires Distinct(w) && forall j :: 0 <= j < |w| ==> w[j] < collected.Length && collected[w[j]].None?
    modifies collected
    ensures hits == Hits(w, fetch) && |Filled(collected[..])| == |Filled(old(collected[..]))| + hits
    ensures forall i :: 0 <= i < collected.Length ==>
              collected[i] == if i in w && fetch(i).Some? then fetch(i) else old(collected[i])
  {
    hits := 0;
    for j := 0 to |w|
      invariant hits == Hits(w[..j], fetch)
      invariant |Filled(collected[..])| == |Filled(old(collected[..]))| + hits
      invariant forall i :: 0 <= i < collected.Length ==>
                  collected[i] == if i in w[..j] && fetch(i).Some? then fetch(i) else old(collected[i])
    {
      var data := fetch(w[j]);
      assert w[..j + 1] == w[..j] + [w[j]];
      assert w[j] !in w[..j];
      if data.Some? {
        FillOne(collected[..], w[j], data);
        assert collected[..][w[j] := data] == collected[..w[j]] + [data] + collected[w[j] + 1..];
        collected[w[j]] := data;
        hits := hits + 1;
      }
    }
    assert w[..|w|] == w;
  }

  method CollectLocal(collected: array<Option<seq<byte>>>, local: Fetch) returns (count: nat)
    modifies collected
    ensures count == |Present(local, collected.Length)|
    ensures forall i :: 0 <= i < collected.Length ==> collected[i] == local(i)
    ensures Filled(collected[..]) == Present(local, collected.Length)
  {
    count := 0;
    for i := 0 to collected.Length
      invariant count == |Present(local, i)|
      invariant forall j :: 0 <= j < i ==> collected[j] == local(j)
    {
      PresentGrows(local, i);
      collected[i] := local(i);
      if local(i).Some? {
        count := count + 1;
      }
    }
  }

  /** Collects shards: local ones first, then the two waves. */
  method CollectShards(k: nat, total: nat, local: Fetch, fetch: Fetch)
      returns (collected: array<Option<seq<byte>>>, ok: bool)
    ensures fresh(collected) && collected.Length == total
    ensures ok <==> |Filled(collected[..])| >= k
    ensures ok <==> WavesSuffice(k, total, local, fetch)
    ensures forall i :: 0 <= i < total && collected[i].Some? ==> collected[i] == local(i) || collected[i] == fetch(i)
  {
    collected := new Option<seq<byte>>[total](_ => None);
    var count := CollectLocal(collected, local);
    ghost var taken := Present(local, total);
    assert taken == set i: nat | i < total && (collected[i].Some? || i in []);
    var needed := PlanWave(collected, [], Shortfall(k, count), taken);
    var hits := FetchWave(collected, needed, fetch);
    hide Wave, Hits, FirstWave, SecondWave, Present, WavesSuffice;
    ok := FetchRest(collected, needed, count + hits, k, local, fetch);
  }

  /** The second wave, if the first left the download short. */
  method FetchRest(collected: array<Option<seq<byte>>>, needed: seq<nat>, count: nat, k: nat, local: Fetch,
                   fetch: Fetch)
      returns (ok: bool)
    requires needed == FirstWave(k, collected.Length, local)
    requires count == |Present(local, collected.Length)| + Hits(needed, fetch) == |Filled(collected[..])|
    requires forall i :: 0 <= i < collected.Length ==>
               collected[i] == if i in needed && fetch(i).Some? then fetch(i) else local(i)
    modifies collected
    ensures ok <==> |Filled(collected[..])| >= k
    ensures ok <==> WavesSuffice(k, collected.Length, local, fetch)
    ensures forall i :: 0 <= i < collected.Length && collected[i].Some? ==>
              collected[i] == local(i) || collected[i] == fetch(i)
  {
    hide *;
    SufficesMeans(k, collected.Length, local, fetch);
    if count >= k {
      FirstIsEnough(k, collected.Length, local, fetch, needed);
      return true;
    }
    ghost var taken := Present(local, collected.Length) + Elements(needed);
    WaveInBounds(k, collected.Length, local);
    TakenAre(collected, needed, local, fetch, taken);
    var additional := PlanWave(collected, needed, k - count, taken);
    SecondIsWave(k, collected.Length, local, fetch, needed, count);
    var hits := FetchWave(collected, additional, fetch);
    ok := count + hits >= k;
  }

  lemma WaveInBounds(k: nat, total: nat, local: Fetch)
    ensures forall j :: 0 <= j < |FirstWave(k, total, local)| ==> FirstWave(k, total, local)[j] < total
  {
  }

  lemma FirstIsEnough(k: nat, total: nat, local: Fetch, fetch: Fetch, first: seq<nat>)
    requires |Present(local, total)| + Hits(first, fetch) >= k
    ensures Hits(SecondWave(k, total, local, fetch, first), fetch) == 0
  {
    WaveEnds(0, total, Present(local, total) + Elements(first), 0);
  }

  lemma SecondIsWave(k: nat, total: nat, local: Fetch, fetch: Fetch, first: seq<nat>, count: nat)
    requires count == |Present(local, total)| + Hits(first, fetch) < k
    ensures SecondWave(k, total, local, fetch, first)
         == Wave(0, total, Present(local, total) + Elements(first), k - count)
  {
  }

  lemma {:induction false} WaveIsAbsent(i: nat, total: nat, taken: set<nat>, local: Fetch, n: nat)
    requires forall j: nat :: i <= j < total ==> (j in taken <==> local(j).Some?)
    ensures Wave(i, total, taken, n) == UpTo(Absent(i, total, local), n)
    decreases total - i
  {
    if i < total {
      WaveIsAbsent(i + 1, total, taken, local, if n > 0 && i !in taken then n - 1 else n);
    }
  }

  /** A wave that leaves out the first s absent shards takes the next ones. */
  lemma {:induction false} WaveGoesOn(i: nat, total: nat, taken: set<nat>, local: Fetch, s: nat, n: nat)
    requires s <= |Absent(i, total, local)|
    requires forall j: nat :: i <= j < total ==> (j in taken <==> local(j).Some? || j in Absent(i, total, local)[..s])
    ensures Wave(i, total, taken, n) == UpTo(Absent(i, total, local)[s..], n)
    decreases total - i
  {
    if i < total && (local(i).Some? || s > 0) {
      var rest, s' := Absent(i + 1, total, local), if local(i).Some? then s else s - 1;
      AbsentStep(i, total, local, s);
      WaveSkips(i, total, taken, n);
      hide *;
      WaveGoesOn(i + 1, total, taken, local, s', n);
    } else {
      assert Absent(i, total, local)[..0] == [] && Absent(i, total, local)[0..] == Absent(i, total, local);
      WaveIsAbsent(i, total, taken, local, n);
    }
  }

  lemma WaveSkips(i: nat, total: nat, taken: set<nat>, n: nat)
    requires i < total && i in taken
    ensures Wave(i, total, taken, n) == Wave(i + 1, total, taken, n)
  {
    if n == 0 {
      WaveEnds(i, total, taken, n);
      WaveEnds(i + 1, total, taken, n);
    }
  }

  lemma AbsentStep(i: nat, total: nat, local: Fetch, s: nat)
    requires i < total && s <= |Absent(i, total, local)| && (local(i).Some? || s > 0)
    ensures var absent, rest := Absent(i, total, local), Absent(i + 1, total, local);
            var s' := if local(i).Some? then s else s - 1;
            && s' <= |rest| && absent[s..] == rest[s'..]
            && absent[..s] == (if local(i).None? then [i] else []) + rest[..s']
  {
    var rest := Absent(i + 1, total, local);
    AbsentUnfolds(i, total, local);
    hide Absent;
    if local(i).None? {
      assert ([i] + rest)[..s] == [i] + rest[..s - 1];
    } else {
      assert [] + rest[..s] == rest[..s];
    }
  }

  lemma AbsentUnfolds(i: nat, total: nat, local: Fetch)
    requires i < total
    ensures Absent(i, total, local)
         == if local(i).None? then [i] + Absent(i + 1, total, local) else Absent(i + 1, total, local)
  {
    assert [] + Absent(i + 1, total, local) == Absent(i + 1, total, local);
  }

  lemma {:induction false} AbsentCount(i: nat, total: nat, local: Fetch)
    requires i <= total
    ensures |Absent(i, total, local)| + |PresentFrom(i, total, local)| == total - i
    decreases total - i
  {
    if i < total {
      AbsentCount(i + 1, total, local);
      assert PresentFrom(i, total, local) == PresentFrom(i + 1, total, local) + if local(i).Some? then {i} else {};
    } else {
      assert PresentFrom(i, total, local) == {};
    }
  }

  function PresentFrom(i: nat, total: nat, local: Fetch): set<nat> {
    set j: nat | i <= j < total && local(j).Some?
  }

  lemma PresentAndAbsent(total: nat, local: Fetch)
    ensures |Absent(0, total, local)| + |Present(local, total)| == total
  {
    AbsentCount(0, total, local);
    assert Present(local, total) == PresentFrom(0, total, local);
  }

  lemma FirstIsFirst(k: nat, total: nat, local: Fetch)
    ensures FirstWave(k, total, local) == UpTo(Absent(0, total, local), Shortfall(k, |Present(local, total)|))
  {
    WaveIsAbsent(0, total, Present(local, total), local, Shortfall(k, |Present(local, total)|));
  }

  lemma SecondIsNext(k: nat, total: nat, local: Fetch, fetch: Fetch, first: seq<nat>)
    requires |first| <= |Absent(0, total, local)| && first == Absent(0, total, local)[..|first|]
    ensures SecondWave(k, total, local, fetch, first)
         == UpTo(Absent(0, total, local)[|first|..], Shortfall(k, |Present(local, total)| + Hits(first, fetch)))
  {
    NextWave(total, local, first, |first|, Shortfall(k, |Present(local, total)| + Hits(first, fetch)));
    hide UpTo;
  }

  lemma NextWave(total: nat, local: Fetch, first: seq<nat>, s: nat, n: nat)
    requires s <= |Absent(0, total, local)| && first == Absent(0, total, local)[..s]
    ensures Wave(0, total, Present(local, total) + Elements(first), n) == UpTo(Absent(0, total, local)[s..], n)
  {
    var taken := Present(local, total) + Elements(first);
    TakenOrPresent(total, local, first, taken);
    hide Wave, Absent, Present;
    WaveGoesOn(0, total, taken, local, s, n);
  }

  lemma TakenOrPresent(total: nat, local: Fetch, first: seq<nat>, taken: set<nat>)
    requires taken == Present(local, total) + Elements(first)
    ensures forall j: nat :: j < total ==> (j in taken <==> local(j).Some? || j in first)
  {
  }

  /** The condition on the shards is the outcome of the waves. */
  lemma SufficesMeans(k: nat, total: nat, local: Fetch, fetch: Fetch)
    ensures var first := FirstWave(k, total, local);
            var have := |Present(local, total)| + Hits(first, fetch);
            WavesSuffice(k, total, local, fetch) <==> have + Hits(SecondWave(k, total, local, fetch, first), fetch) >= k
  {
    hide *;
    var absent, short := Absent(0, total, local), Shortfall(k, |Present(local, total)|);
    var first := UpTo(absent, short);
    FirstIsFirst(k, total, local);
    UpToIsPrefix(absent, short);
    SecondIsNext(k, total, local, fetch, first);
    SufficesUnfolds(k, total, local, fetch);
    Outcome(k, |Present(local, total)|, absent, first, SecondWave(k, total, local, fetch, first), fetch);
  }

  lemma UpToIsPrefix(w: seq<nat>, n: nat)
    ensures |UpTo(w, n)| <= |w| && UpTo(w, n) == w[..|UpTo(w, n)|]
  {
  }

  lemma SufficesUnfolds(k: nat, total: nat, local: Fetch, fetch: Fetch)
    ensures WavesSuffice(k, total, local, fetch)
       <==> NextOnesAnswer(Absent(0, total, local), Shortfall(k, |Present(local, total)|), fetch)
  {
  }

  lemma Outcome(k: nat, present: nat, absent: seq<nat>, first: seq<nat>, second: seq<nat>, fetch: Fetch)
    requires first == UpTo(absent, Shortfall(k, present))
    requires second == UpTo(absent[|first|..], Shortfall(k, present + Hits(first, fetch)))
    ensures NextOnesAnswer(absent, Shortfall(k, present), fetch)
       <==> present + Hits(first, fetch) + Hits(second, fetch) >= k
  {
    var short := Shortfall(k, present);
    AllHit(second, fetch);
    if short <= |absent| {
      assert first == absent[..short];
      NextOnes(absent, short, short - Hits(first, fetch), second, fetch);
    } else {
      NoneLeft(absent, Shortfall(k, present + Hits(first, fetch)), second, fetch);
    }
    hide Hits;
  }

  lemma NoneLeft(absent: seq<nat>, n: nat, second: seq<nat>, fetch: Fetch)
    requires second == UpTo(absent[|absent|..], n)
    ensures Hits(second, fetch) == 0
  {
  }

  lemma NextOnes(absent: seq<nat>, short: nat, n: nat, second: seq<nat>, fetch: Fetch)
    requires short <= |absent| && second == UpTo(absent[short..], n)
    ensures |second| == n && (forall i :: i in second ==> fetch(i).Some?)
       <==> short + n <= |absent| && forall j :: short <= j < short + n ==> fetch(absent[j]).Some?
  {
    if short + n <= |absent| {
      assert second == absent[short..short + n];
      if forall i :: i in second ==> fetch(i).Some? {
        forall j | short <= j < short + n ensures fetch(absent[j]).Some? {
          assert second[j - short] == absent[j];
        }
      }
    }
  }

  lemma TakenAre(collected: array<Option<seq<byte>>>, needed: seq<nat>, local: Fetch, fetch: Fetch, taken: set<nat>)
    requires taken == Present(local, collected.Length) + Elements(needed)
    requires forall j :: 0 <= j < |needed| ==> needed[j] < collected.Length
    requires forall i :: 0 <= i < collected.Length ==>
               collected[i] == if i in needed && fetch(i).Some? then fetch(i) else local(i)
    ensures taken == set i: nat | i < collected.Length && (collected[i].Some? || i in needed)
  {
  }

  lemma PresentGrows(local: Fetch, i: nat)
    ensures |Present(local, i + 1)| == |Present(local, i)| + if local(i).Some? then 1 else 0
  {
    assert Present(local, i + 1) == Present(local, i) + if local(i).Some? then {i} else {};
  }

  lemma {:induction false} AllHit(w: seq<nat>, fetch: Fetch)
    ensures Hits(w, fetch) == |w| <==> forall i :: i in w ==> fetch(i).Some?
  {
    if w != [] {
      AllHit(w[..|w| - 1], fetch);
      assert w == w[..|w| - 1] + [w[|w| - 1]];
    }
  }

  /** Nothing is stored locally, and every shard is within reach but those in `missing`. */
  ghost predicate AllBut(missing: set<nat>, total: nat, local: Fetch, fetch: Fetch) {
    forall i: nat :: i < total ==> local(i).None? && (fetch(i).None? <==> i in missing)
  }

  /** With nothing local, d unanswered among the first k shards must be made up for by the next d. */
  lemma WithNothingLocal(k: nat, m: nat, local: Fetch, fetch: Fetch)
    requires forall i: nat :: i < k + m ==> local(i).None?
    ensures var d := k - Hits(From(0, k), fetch);
            WavesSuffice(k, k + m, local, fetch) <==> d <= m && forall j :: k <= j < k + d ==> fetch(j).Some?
  {
    assert Present(local, k + m) == {};
    AllAbsent(0, k + m, local);
    assert From(0, k + m)[..k] == From(0, k);
    var d := k - Hits(From(0, k), fetch);
    if d <= m && WavesSuffice(k, k + m, local, fetch) {
      forall j | k <= j < k + d ensures fetch(j).Some? {
        assert Absent(0, k + m, local)[j] == j;
      }
    }
  }

  /** Whichever single shard is missing, the download finds k. */
  lemma OneLossIsTolerated(k: nat, m: nat, gone: nat, local: Fetch, fetch: Fetch)
    requires k > 0 && m > 0 && AllBut({gone}, k + m, local, fetch)
    ensures WavesSuffice(k, k + m, local, fetch)
  {
    WithNothingLocal(k, m, local, fetch);
    HitsCount(k, {gone}, fetch);
  }

  /** But some two missing shards defeat it, however many more parity shards are within reach: the
      second wave asks for one shard only, and not for the next. */
  lemma TwoLossesCanDefeat(k: nat, m: nat, local: Fetch, fetch: Fetch)
    requires k > 0 && m > 1 && AllBut({0, k}, k + m, local, fetch)
    ensures !WavesSuffice(k, k + m, local, fetch)
  {
    WithNothingLocal(k, m, local, fetch);
    HitsCount(k, {0, k}, fetch);
    assert fetch(k).None?;
  }

  /** The n indices from i on. */
  function From(i: nat, n: nat): (w: seq<nat>)
    ensures |w| == n
  {
    seq(n, j requires 0 <= j < n => i + j)
  }

  lemma {:induction false} AllAbsent(i: nat, total: nat, local: Fetch)
    requires i <= total && forall j: nat :: i <= j < total ==> local(j).None?
    ensures Absent(i, total, local) == From(i, total - i)
    decreases total - i
  {
    if i < total {
      AllAbsent(i + 1, total, local);
      assert From(i, total - i) == [i] + From(i + 1, total - i - 1);
    }
  }

  /** Among the first k shards, all answer but the missing one, if it is among them. */
  lemma {:induction false} HitsCount(k: nat, missing: set<nat>, fetch: Fetch)
    requires forall i: nat :: i < k ==> (fetch(i).None? <==> i in missing)
    requires forall i, j :: i in missing && j in missing && i < k && j < k ==> i == j
    ensures Hits(From(0, k), fetch) == if exists i: nat :: i in missing && i < k then k - 1 else k
  {
    if k > 0 {
      HitsCount(k - 1, missing, fetch);
      assert From(0, k)[..k - 1] == From(0, k - 1);
    }
  }

  /** When every shard is within reach and there are at least k, the download finds k. */
  lemma AllReachableIsFound(k: nat, total: nat, local: Fetch, fetch: Fetch)
    requires k <= total && forall i: nat :: i < total ==> fetch(i).Some?
    ensures WavesSuffice(k, total, local, fetch)
  {
    var absent, short := Absent(0, total, local), Shortfall(k, |Present(local, total)|);
    PresentAndAbsent(total, local);
    AbsentInRange(0, total, local);
    AllHit(absent[..short], fetch);
  }

  lemma {:induction false} AbsentInRange(i: nat, total: nat, local: Fetch)
    ensures forall j :: 0 <= j < |Absent(i, total, local)| ==> i <= Absent(i, total, local)[j] < total
    decreases total - i
  {
    if i < total {
      AbsentInRange(i + 1, total, local);
    }
  }
}
