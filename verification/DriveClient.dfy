/** A whole download: two waves of fetches, then recovery from what they brought. */
module DriveClient {
  import opened Bits
  import opened Wrappers
  import opened GFTables
  import opened ReedSolomon
  import opened Drive
  import opened DriveUpload
  import DriveDownload

  type Fetch = DriveDownload.Fetch

  /** What this source brings for any shard has the hash that the manifest lists. */
  ghost predicate Genuine(manifest: Manifest, source: Fetch, hash: seq<byte> -> Digest) {
    forall i: nat :: i < |manifest.hashes| && source(i).Some? ==> hash(source(i).value) == manifest.hashes[i]
  }

  lemma GenuineIsIntact(manifest: Manifest, slots: Shards, hash: seq<byte> -> Digest)
    requires |slots| == |manifest.hashes|
    requires forall i :: 0 <= i < |slots| && slots[i].Some? ==> hash(slots[i].value) == manifest.hashes[i]
    ensures |Intact(manifest, slots, hash)| == |DriveDownload.Filled(slots)|
  {
    var filled: set<int> := DriveDownload.Filled(slots);
    assert Intact(manifest, slots, hash) == filled;
  }

  /** Fetches and recovers a file. It fails when the two waves do not bring k shards; if they do, and
      all they bring is genuine, it opens exactly the bytes that were sealed. */
  method DownloadFile(t: Tables, manifest: Manifest, local: Fetch, fetch: Fetch, hash: seq<byte> -> Digest,
                      open: seq<byte> -> Option<seq<byte>>) returns (r: Outcome<seq<byte>>)
    requires t.Valid()
    ensures var found := DriveDownload.WavesSuffice(manifest.k, manifest.k + manifest.m, local, fetch);
            && (!found ==> r == Failed(TooFewFound))
            && (r.Done? ==> |r.value| == manifest.size)
            && (found && Injective(hash) && Genuine(manifest, local, hash) && Genuine(manifest, fetch, hash) ==>
                  forall data, len, sealed :: Describes(manifest, data, len, sealed, hash) ==>
                    r == Opened(sealed, manifest.size, open))
  {
    var collected, ok := DriveDownload.CollectShards(manifest.k, manifest.k + manifest.m, local, fetch);
    if !ok {
      return Failed(TooFewFound);
    }
    ghost var slots := collected[..];
    r := Finalize(t, manifest, collected, hash, open);
    forall data, len, sealed | Describes(manifest, data, len, sealed, hash) && Injective(hash)
      && Genuine(manifest, local, hash) && Genuine(manifest, fetch, hash)
      ensures r == Opened(sealed, manifest.size, open)
    {
      assert |slots| == |manifest.hashes|;
      GenuineIsIntact(manifest, slots, hash);
    }
  }

  /** What a source brings comes from the holders that are left. */
  ghost predicate ServedBy(u: Upload, s: State, lost: set<PeerId>, source: Fetch) {
    forall i: nat :: i < |u.shards| && source(i).Some? ==> source(i) == Reachable(u, s, lost)[i]
  }

  lemma ServedIsGenuine(u: Upload, s: State, lost: set<PeerId>, manifest: Manifest, source: Fetch,
                        data: seq<seq<byte>>, len: nat, sealed: seq<byte>)
    requires Inv(u, s) && s.stored == |u.shards| && ServedBy(u, s, lost, source)
    requires Describes(manifest, data, len, sealed, u.hash) && |u.shards| == manifest.k + manifest.m
    requires forall i :: 0 <= i < |u.shards| ==> u.shards[i] == Shard(data, manifest.k, len, i)
    ensures Genuine(manifest, source, u.hash)
  {
    AllHeld(u, s);
    hide Shard, Inv;
    forall i: nat | i < |manifest.hashes| && source(i).Some?
      ensures u.hash(source(i).value) == manifest.hashes[i]
    {
      assert Held(u, s, i) && source(i) == Reachable(u, s, lost)[i];
    }
  }

  /** A fully stored file, downloaded from the holders that are left after any loss: the download opens
      exactly the bytes that were sealed if the two waves suffice, and fails otherwise. */
  method DownloadAfterLoss(t: Tables, u: Upload, ghost run: seq<State>, ghost n: nat, ghost lost: set<PeerId>,
                           manifest: Manifest, local: Fetch, fetch: Fetch, open: seq<byte> -> Option<seq<byte>>,
                           ghost data: seq<seq<byte>>, ghost len: nat, ghost sealed: seq<byte>)
      returns (r: Outcome<seq<byte>>)
    requires t.Valid() && IsRun(u, run) && n < |run| && run[n].stored == |u.shards| && Injective(u.hash)
    requires Describes(manifest, data, len, sealed, u.hash) && |u.shards| == manifest.k + manifest.m
    requires forall i :: 0 <= i < |u.shards| ==> u.shards[i] == Shard(data, manifest.k, len, i)
    requires ServedBy(u, run[n], lost, local) && ServedBy(u, run[n], lost, fetch)
    ensures r == if DriveDownload.WavesSuffice(manifest.k, manifest.k + manifest.m, local, fetch)
                 then Opened(sealed, manifest.size, open) else Failed(TooFewFound)
  {
    RunKeepsInv(u, run, n);
    hide Inv, Shard, Describes, Genuine, ServedBy, DriveDownload.WavesSuffice;
    ServedIsGenuine(u, run[n], lost, manifest, local, data, len, sealed);
    ServedIsGenuine(u, run[n], lost, manifest, fetch, data, len, sealed);
    r := DownloadFile(t, manifest, local, fetch, u.hash, open);
  }
}
