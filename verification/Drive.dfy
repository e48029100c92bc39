/** The distributed drive: which peer gets which shard, what an upload prepares, and what a download
    makes of the shards it collected. Hashing and decryption are parameters. */
module Drive {
  import opened Bits
  import opened Buffers
  import opened Wrappers
  import opened GFTables
  import opened Cauchy
  import opened ReedSolomon
  import opened Sharding

  type PeerId = string
  type Digest = seq<byte>

  // ---------- allocation ----------

  function Holder(i: nat, peers: seq<PeerId>): PeerId {
    if |peers| == 0 then "" else peers[i % |peers|]
  }

  method AllocateShards(totalShards: nat, peerIds: seq<PeerId>) returns (out: seq<PeerId>)
    ensures |out| == totalShards && forall i :: 0 <= i < totalShards ==> out[i] == Holder(i, peerIds)
    ensures |peerIds| > 0 ==> forall i :: 0 <= i < totalShards ==> out[i] == peerIds[i % |peerIds|]
    ensures |peerIds| == 0 ==> forall i :: 0 <= i < totalShards ==> out[i] == ""
  {
    if |peerIds| == 0 {
      return seq(totalShards, _ => "");
    }
    out := [];
    for i := 0 to totalShards
      invariant |out| == i && forall j :: 0 <= j < i ==> out[j] == Holder(j, peerIds)
    {
      out := out + [peerIds[i % |peerIds|]];
    }
  }

  /** The shards allocated to any of a set of peers. */
  ghost function SharesOf(total: nat, peers: seq<PeerId>, lost: set<PeerId>): set<int> {
    set i: int | 0 <= i < total && Holder(i, peers) in lost
  }

  /** The places in the pool that a set of peers holds. */
  ghost function Places(peers: seq<PeerId>, lost: set<PeerId>): set<int> {
    set p | 0 <= p < |peers| && peers[p] in lost
  }

  /** The shards that fall to some places of a pool of n. */
  ghost function SharesAt(total: nat, n: nat, places: set<int>): set<int>
    requires n > 0
  {
    set i: int | 0 <= i < total && i % n in places
  }

  /** Round robin is balanced: no set of peers holds more than ceil(total / n) shards for each place it
      has in the pool of n. */
  lemma SharesAreBalanced(total: nat, peers: seq<PeerId>, lost: set<PeerId>)
    requires |peers| > 0
    ensures |SharesOf(total, peers, lost)| <= |Places(peers, lost)| * CeilDiv(total, |peers|)
  {
    PlacesAreBalanced(total, |peers|, Places(peers, lost));
    assert SharesOf(total, peers, lost) == SharesAt(total, |peers|, Places(peers, lost));
  }

  lemma {:induction false} PlacesAreBalanced(total: nat, n: nat, places: set<int>)
    requires n > 0 && forall p :: p in places ==> 0 <= p < n
    ensures |SharesAt(total, n, places)| <= |places| * CeilDiv(total, n)
  {
    if places == {} {
      assert SharesAt(total, n, places) == {};
    } else {
      hide CeilDiv;
      var p := Element(places);
      var rest := places - {p};
      PlacesAreBalanced(total, n, rest);
      OnePlace(total, n, p);
      assert SharesAt(total, n, places) == SharesAt(total, n, rest) + SharesAt(total, n, {p});
      UnionBound(SharesAt(total, n, rest), SharesAt(total, n, {p}));
      OneMoreTimes(|rest|, CeilDiv(total, n));
    }
  }

  lemma Element<T>(s: set<T>) returns (x: T)
    requires s != {}
    ensures x in s
  {
    x :| x in s;
  }

  lemma OneMoreTimes(a: nat, c: nat)
    ensures (a + 1) * c == a * c + c
  {
  }

  /** Peers that are listed only once have one place each. */
  lemma {:induction false} OnePlaceEach(peers: seq<PeerId>, lost: set<PeerId>)
    requires Distinct(peers)
    ensures |Places(peers, lost)| <= |lost|
  {
    if lost == {} {
      assert Places(peers, lost) == {};
    } else {
      var x :| x in lost;
      OnePlaceEach(peers, lost - {x});
      if p :| 0 <= p < |peers| && peers[p] == x {
        assert Places(peers, lost) == Places(peers, lost - {x}) + {p};
      } else {
        assert Places(peers, lost) == Places(peers, lost - {x});
      }
    }
  }

  /** The loss of any m holders costs at most m shards if and only if every shard has its own holder. */
  lemma HoldersMayBeLost(k: nat, m: nat, peers: seq<PeerId>)
    requires k > 0 && m > 0 && |peers| > 0 && Distinct(peers)
    ensures (forall lost: set<PeerId> :: |lost| <= m ==> |SharesOf(k + m, peers, lost)| <= m) <==> |peers| >= k + m
  {
    if |peers| >= k + m {
      forall lost: set<PeerId> | |lost| <= m ensures |SharesOf(k + m, peers, lost)| <= m {
        SharesAreBalanced(k + m, peers, lost);
        OnePlaceEach(peers, lost);
        OneEach(k + m, |peers|);
      }
    } else {
      var lost := FirstHolders(m, peers);
      CrowdedHolders(k, m, peers);
      assert |lost| <= m && |SharesOf(k + m, peers, lost)| > m;
    }
  }

  lemma OneEach(total: nat, n: nat)
    requires 0 < total <= n
    ensures CeilDiv(total, n) == 1
  {
    CeilDivBounds(total, n);
    if CeilDiv(total, n) >= 2 {
      MulMonotone(2, CeilDiv(total, n), n);
    }
  }

  /** The first m peers, or all of them. */
  ghost function FirstHolders(m: nat, peers: seq<PeerId>): set<PeerId> {
    Elements(if m < |peers| then peers[..m] else peers)
  }

  lemma CrowdedHolders(k: nat, m: nat, peers: seq<PeerId>)
    requires k > 0 && m > 0 && 0 < |peers| < k + m && Distinct(peers)
    ensures var lost := FirstHolders(m, peers); |lost| <= m && |SharesOf(k + m, peers, lost)| > m
  {
    DistinctSize(if m < |peers| then peers[..m] else peers);
    CrowdHeld(k, m, peers);
    CrowdSize(k, m, |peers|);
    SubsetSize(Crowd(k, m, |peers|), SharesOf(k + m, peers, FirstHolders(m, peers)));
  }

  lemma CrowdHeld(k: nat, m: nat, peers: seq<PeerId>)
    requires k > 0 && m > 0 && 0 < |peers| < k + m
    ensures Crowd(k, m, |peers|) <= SharesOf(k + m, peers, FirstHolders(m, peers))
  {
    hide Holder;
    var first := if m < |peers| then peers[..m] else peers;
    forall i | i in Crowd(k, m, |peers|) ensures 0 <= i < k + m && Holder(i, peers) in Elements(first) {
      HeldByFirst(i, peers, first);
    }
  }

  /** Shards held by the first m of n peers: one each, and one more. */
  ghost function Crowd(k: nat, m: nat, n: nat): set<int> {
    if m < n then Interval(0, m) + {n} else Interval(0, k + m)
  }

  lemma CrowdSize(k: nat, m: nat, n: nat)
    requires k > 0
    ensures |Crowd(k, m, n)| > m
  {
    IntervalSize(0, k + m);
    if m < n {
      OneBeyond(m, n);
    }
    hide Interval;
  }

  lemma OneBeyond(m: nat, n: nat)
    requires m < n
    ensures |Interval(0, m) + {n}| == m + 1
  {
    IntervalSize(0, m);
    hide Interval;
    OneMore(Interval(0, m), n);
  }

  lemma OneMore(s: set<int>, x: int)
    requires x !in s
    ensures |s + {x}| == |s| + 1
  {
  }

  lemma HeldByFirst(i: nat, peers: seq<PeerId>, first: seq<PeerId>)
    requires 0 < |first| <= |peers| && first == peers[..|first|]
    requires 0 <= i && (i < |first| || i == |peers| || first == peers)
    ensures Holder(i, peers) in Elements(first)
  {
    assert i < |peers| ==> i % |peers| == i;
    var p := i % |peers|;
    assert p < |first| && first[p] == peers[p];
  }

  lemma UnionBound(a: set<int>, b: set<int>)
    ensures |a + b| <= |a| + |b|
  {
    assert a + b == a + (b - a);
    SubsetSize(b - a, b);
  }

  lemma OnePlace(total: nat, n: nat, p: int)
    requires 0 <= p < n
    ensures |SharesAt(total, n, {p})| <= CeilDiv(total, n)
  {
    var mine, c := SharesAt(total, n, {p}), CeilDiv(total, n);
    forall j | j in mine ensures j in Progression(p, n, c) {
      TurnsOfPeer(j, total, n);
    }
    ProgressionSize(p, n, c);
    SubsetSize(mine, Progression(p, n, c));
  }

  /** Shard j falls to its peer in some round before the last. */
  lemma TurnsOfPeer(j: nat, total: nat, n: nat)
    requires n > 0 && j < total
    ensures j in Progression(j % n, n, CeilDiv(total, n))
  {
    hide CeilDiv;
    RoundBound(j, total, n);
    assert j == j % n + n * (j / n);
    InProgression(j % n, n, CeilDiv(total, n), j / n);
  }

  ghost function Progression(p: nat, n: nat, c: nat): set<int> {
    if c == 0 then {} else Progression(p, n, c - 1) + {p + n * (c - 1)}
  }

  lemma {:induction false} InProgression(p: nat, n: nat, c: nat, t: nat)
    requires t < c
    ensures p + n * t in Progression(p, n, c)
  {
    if t < c - 1 {
      InProgression(p, n, c - 1, t);
    }
  }

  lemma {:induction false} ProgressionSize(p: nat, n: nat, c: nat)
    ensures |Progression(p, n, c)| <= c
  {
    if c > 0 {
      ProgressionSize(p, n, c - 1);
    }
  }

  lemma RoundBound(j: nat, total: nat, n: nat)
    requires n > 0 && j < total
    ensures j / n < CeilDiv(total, n)
  {
    var q, c := j / n, CeilDiv(total, n);
    CeilDivBounds(total, n);
    assert q * n <= j;
    if c <= q {
      MulMonotone(c, q, n);
    }
  }

  lemma MulMonotone(a: nat, b: nat, n: nat)
    requires a <= b
    ensures a * n <= b * n
  {
  }

  // ---------- upload ----------

  /** The part of a manifest that a download uses. */
  datatype Manifest = Manifest(k: nat, m: nat, size: nat, sealedSize: nat, hashes: seq<Digest>)

  ghost predicate Injective(hash: seq<byte> -> Digest) {
    forall x, y :: hash(x) == hash(y) ==> x == y
  }

  /** Equal data shards that spell out the sealed bytes, up to padding. */
  ghost predicate Spells(data: seq<seq<byte>>, k: nat, len: nat, sealed: seq<byte>) {
    IsData(data, k, len) && sealed <= Concat(data)
  }

  /** The manifest truthfully describes the code word of `data`. */
  ghost predicate Describes(manifest: Manifest, data: seq<seq<byte>>, len: nat, sealed: seq<byte>,
                            hash: seq<byte> -> Digest) {
    && Sizes(manifest.k, manifest.m) && Spells(data, manifest.k, len, sealed)
    && manifest.sealedSize == |sealed| && |manifest.hashes| == manifest.k + manifest.m
    && forall i :: 0 <= i < manifest.k + manifest.m ==> manifest.hashes[i] == hash(Shard(data, manifest.k, len, i))
  }

  /** Splits and encodes sealed bytes, and describes every shard. */
  method PrepareShards(codec: Codec, sealed: seq<byte>, size: nat, hash: seq<byte> -> Digest)
      returns (allShards: seq<seq<byte>>, manifest: Manifest, ghost data: seq<seq<byte>>, ghost len: nat)
    requires codec.Valid()
    ensures manifest.k == codec.k && manifest.m == codec.m && manifest.size == size
    ensures Describes(manifest, data, len, sealed, hash)
    ensures |allShards| == codec.k + codec.m
    ensures forall i :: 0 <= i < |allShards| ==> allShards[i] == Shard(data, codec.k, len, i)
  {
    hide Shard;
    var k, m := codec.k, codec.m;
    var shards, sealedSize := SplitIntoShards(sealed, k);
    data, len := shards, CeilDiv(|sealed|, k);
    var parity := codec.Encode(shards);
    forall i | 0 <= i < k ensures shards[i] == Shard(data, k, len, i) {
      DataShard(data, k, len, i);
    }
    allShards := shards + parity.value;
    manifest := Manifest(k, m, size, sealedSize, seq(k + m, i requires 0 <= i < k + m => hash(allShards[i])));
  }

  // ---------- download ----------

  datatype DownloadError = TooFewFound | Codec(error: RsError) | OpenFailed | WrongSize

  datatype Outcome<T> = Done(value: T) | Failed(why: DownloadError)

  /** The slots whose bytes have the hash the manifest lists for them. */
  ghost function Intact(manifest: Manifest, slots: Shards, hash: seq<byte> -> Digest): set<int> {
    set i | 0 <= i < |slots| && i < |manifest.hashes| && slots[i].Some? && hash(slots[i].value) == manifest.hashes[i]
  }

  function Filtered(manifest: Manifest, slots: Shards, hash: seq<byte> -> Digest): (kept: Shards)
    ensures |kept| == |slots|
  {
    seq(|slots|, i requires 0 <= i < |slots| =>
      if slots[i].Some? && i < |manifest.hashes| && hash(slots[i].value) == manifest.hashes[i] then slots[i] else None)
  }

  /** Opens sealed bytes and checks the plaintext's length. */
  function Opened(sealed: seq<byte>, size: nat, open: seq<byte> -> Option<seq<byte>>): Outcome<seq<byte>> {
    match open(sealed)
    case None => Failed(OpenFailed)
    case Some(plain) => if |plain| == size then Done(plain) else Failed(WrongSize)
  }

  /** Empties the slots whose bytes do not match the manifest. */
  method DropTampered(manifest: Manifest, collected: array<Option<seq<byte>>>, hash: seq<byte> -> Digest)
    modifies collected
    ensures collected[..] == Filtered(manifest, old(collected[..]), hash)
  {
    ghost var slots := collected[..];
    for i := 0 to collected.Length
      invariant forall j :: 0 <= j < i ==> collected[j] == Filtered(manifest, slots, hash)[j]
      invariant forall j :: i <= j < collected.Length ==> collected[j] == slots[j]
    {
      if collected[i].Some? {
        if i >= |manifest.hashes| || hash(collected[i].value) != manifest.hashes[i] {
          collected[i] := None;
        }
      }
    }
  }

  /** Drops tampered shards in place, reconstructs, recombines and opens. Whatever bytes were
      collected, an honest manifest yields exactly the uploaded sealed bytes - or an error, when fewer
      than k slots are intact. Under no manifest is anything returned that has another size than the
      manifest's, or that fewer than k matching shards were found for. */
  method Finalize(t: Tables, manifest: Manifest, collected: array<Option<seq<byte>>>, hash: seq<byte> -> Digest,
                  open: seq<byte> -> Option<seq<byte>>)
      returns (r: Outcome<seq<byte>>)
    requires t.Valid()
    modifies collected
    ensures collected[..] == Filtered(manifest, old(collected[..]), hash)
    ensures manifest.k < 1 ==> r == Failed(Codec(BadK))
    ensures manifest.k >= 1 > manifest.m ==> r == Failed(Codec(BadM))
    ensures manifest.k >= 1 && manifest.m >= 1 && manifest.k + manifest.m > 256 ==> r == Failed(Codec(TooManyShards))
    ensures Sizes(manifest.k, manifest.m) && collected.Length != manifest.k + manifest.m ==>
              r == Failed(Codec(WrongShardCount))
    ensures r.Done? ==> |r.value| == manifest.size && |Intact(manifest, old(collected[..]), hash)| >= manifest.k
    ensures forall data, len, sealed ::
              Describes(manifest, data, len, sealed, hash) && Injective(hash)
              && collected.Length == manifest.k + manifest.m ==>
                r == if |Intact(manifest, old(collected[..]), hash)| < manifest.k then Failed(Codec(TooFewShards))
                     else Opened(sealed, manifest.size, open)
  {
    ghost var slots := collected[..];
    DropTampered(manifest, collected, hash);
    forall data, len, sealed | Describes(manifest, data, len, sealed, hash) && Injective(hash)
      && |slots| == manifest.k + manifest.m
      ensures Agrees(Filtered(manifest, slots, hash), data, manifest.k, len)
    {
      FilteredAgrees(manifest, slots, hash, data, len, sealed);
    }
    FilteredSurvivors(manifest, slots, hash);
    hide Shard, Filtered, Intact, Agrees, Survivors, Injective;
    var rebuilt := Rebuild(t, manifest, collected[..]);
    match rebuilt {
      case Failed(why) => r := Failed(why);
      case Done(bytes) => r := Opened(bytes, manifest.size, open);
    }
  }

  /** Reconstructs and recombines the sealed bytes. */
  method Rebuild(t: Tables, manifest: Manifest, kept: Shards) returns (r: Outcome<seq<byte>>)
    requires t.Valid()
    ensures manifest.k < 1 ==> r == Failed(Codec(BadK))
    ensures manifest.k >= 1 > manifest.m ==> r == Failed(Codec(BadM))
    ensures manifest.k >= 1 && manifest.m >= 1 && manifest.k + manifest.m > 256 ==> r == Failed(Codec(TooManyShards))
    ensures Sizes(manifest.k, manifest.m) && |kept| != manifest.k + manifest.m ==> r == Failed(Codec(WrongShardCount))
    ensures r.Done? ==> |Survivors(kept)| >= manifest.k
    ensures forall data, len, sealed ::
              Spells(data, manifest.k, len, sealed) && Sizes(manifest.k, manifest.m)
              && |kept| == manifest.k + manifest.m && manifest.sealedSize == |sealed|
              && Agrees(kept, data, manifest.k, len) ==>
                r == if |Survivors(kept)| < manifest.k then Failed(Codec(TooFewShards)) else Done(sealed)
  {
    AgreesSameLengths(kept, manifest.k);
    hide Agrees, Survivors, MixedLengths, SameLengths, Fits;
    var made := ReedSolomon.Codec.Make(t, manifest.k, manifest.m);
    if made.Err? {
      return Failed(Codec(made.error));
    }
    var recovered, _ := made.value.Reconstruct(kept);
    if recovered.Err? {
      return Failed(Codec(recovered.error));
    }
    var joined := RecombineShards(recovered.value, manifest.sealedSize);
    forall data, len, sealed | Spells(data, manifest.k, len, sealed) && manifest.sealedSize == |sealed|
      && recovered.value == data
      ensures joined == Ok(sealed)
    {
      assert |data[0]| == len && Concat(data)[..|sealed|] == sealed;
    }
    r := if joined.Ok? then Done(joined.value) else Failed(Codec(joined.error));
  }

  lemma FilteredAgrees(manifest: Manifest, slots: Shards, hash: seq<byte> -> Digest,
                       data: seq<seq<byte>>, len: nat, sealed: seq<byte>)
    requires Injective(hash) && Describes(manifest, data, len, sealed, hash) && |slots| == manifest.k + manifest.m
    ensures var kept := Filtered(manifest, slots, hash);
            Agrees(kept, data, manifest.k, len)
  {
    hide Shard;
  }

  lemma FilteredSurvivors(manifest: Manifest, slots: Shards, hash: seq<byte> -> Digest)
    ensures Survivors(Filtered(manifest, slots, hash)) == Intact(manifest, slots, hash)
  {
  }

  // ---------- durability ----------

  /** What a download finds when every shard was stored and the peers in `lost` are gone. */
  ghost function Remaining(shards: seq<seq<byte>>, peers: seq<PeerId>, lost: set<PeerId>): Shards {
    seq(|shards|, i requires 0 <= i < |shards| => if Holder(i, peers) in lost then None else Some(shards[i]))
  }

  /** Any loss of holders that costs at most m shards by the round-robin bound leaves k intact. */
  lemma LossLeavesEnough(manifest: Manifest, shards: seq<seq<byte>>, peers: seq<PeerId>, lost: set<PeerId>,
                         data: seq<seq<byte>>, len: nat, sealed: seq<byte>, hash: seq<byte> -> Digest)
    requires Describes(manifest, data, len, sealed, hash) && |shards| == manifest.k + manifest.m
    requires forall i :: 0 <= i < |shards| ==> shards[i] == Shard(data, manifest.k, len, i)
    requires |peers| > 0 && |Places(peers, lost)| * CeilDiv(|shards|, |peers|) <= manifest.m
    ensures |Intact(manifest, Remaining(shards, peers, lost), hash)| >= manifest.k
  {
    hide Shard;
    var gone, total := SharesOf(|shards|, peers, lost), Interval(0, |shards|);
    SharesAreBalanced(|shards|, peers, lost);
    IntervalSize(0, |shards|);
    var intact := Intact(manifest, Remaining(shards, peers, lost), hash);
    assert intact == total - gone;
    SubsetSize(gone, total);
    assert |total - gone| == |total| - |gone|;
  }
}
