/** The device side of one archive: the raw-chunk cache, `assemble`, and the round
    trip from published input to staged archive. */
module Assembly {
  import opened Common
  import opened Chunker
  import opened Split
  import opened Format
  import opened Publish
  import Gear

  /** A cached file counts only if its bytes have the signed size and digest. */
  predicate ValidChunk(c: Codec, cache: map<string, Bytes>, ch: Chunk) {
    ch.sha in cache && |cache[ch.sha]| == ch.size && c.sha(cache[ch.sha]) == ch.sha
  }

  ghost predicate AllValid(c: Codec, cache: map<string, Bytes>, cs: seq<Chunk>) {
    forall ch | ch in cs :: ValidChunk(c, cache, ch)
  }

  /** Every descriptor has a cached file of its size. */
  predicate Complete(cache: map<string, Bytes>, cs: seq<Chunk>) {
    forall i | 0 <= i < |cs| :: cs[i].sha in cache && |cache[cs[i].sha]| == cs[i].size
  }

  /** The cached files of the descriptors, in order. */
  function Files(cache: map<string, Bytes>, cs: seq<Chunk>): (fs: seq<Bytes>)
    requires Complete(cache, cs)
    ensures |fs| == |cs|
  {
    seq(|cs|, i requires 0 <= i < |cs| => cache[cs[i].sha])
  }

  /** What assemble accepts: only size and whole-archive digest are checked. */
  predicate Assembles(c: Codec, cache: map<string, Bytes>, m: Manifest) {
    && Complete(cache, m.chunks)
    && |Flatten(Files(cache, m.chunks))| == m.artifactSize
    && c.sha(Flatten(Files(cache, m.chunks))) == m.artifactSha
  }

  /** The staged file is an archive of m as far as size and digest tell. */
  predicate ArchiveValid(c: Codec, staged: map<string, Bytes>, m: Manifest) {
    && m.artifactSha in staged
    && |staged[m.artifactSha]| == m.artifactSize && c.sha(staged[m.artifactSha]) == m.artifactSha
  }

  datatype AssembleError = ChunkMissing | ChunkSizeChanged | ArtifactIntegrity | StageFailed

  class Device {
    var cache: map<string, Bytes>    // raw chunks, by digest
    var staged: map<string, Bytes>   // assembled archives, by digest

    constructor ()
      ensures cache == map[] && staged == map[]
    {
      cache, staged := map[], map[];
    }

    /** assemble: copy the chunks in signed order, check the whole, then rename. */
    method Assemble(c: Codec, m: Manifest, fault: Fault) returns (r: Result<(), AssembleError>)
      modifies this`staged
      ensures r.Ok? <==> Assembles(c, cache, m) && fault == NoFault
      ensures Assembles(c, cache, m) && fault != FailBefore ==>
                staged == old(staged)[m.artifactSha := Flatten(Files(cache, m.chunks))]
      ensures !(Assembles(c, cache, m) && fault != FailBefore) ==> staged == old(staged)
    {
      var out: Bytes, total := [], 0;
      for i := 0 to |m.chunks|
        invariant staged == old(staged) && Complete(cache, m.chunks[..i])
        invariant out == Flatten(Files(cache, m.chunks[..i])) && total == |out|
      {
        var ch := m.chunks[i];
        if ch.sha !in cache {
          return Err(ChunkMissing);
        }
        var src := cache[ch.sha];
        var limit := if ch.size < 0 then 0 else ch.size + 1;
        var part := if |src| < limit then src else src[..limit];
        if |part| != ch.size {
          return Err(ChunkSizeChanged);
        }
        FilesSnoc(cache, m.chunks, i);
        out, total := out + part, total + |part|;
      }
      assert m.chunks[..|m.chunks|] == m.chunks;
      if total != m.artifactSize || c.sha(out) != m.artifactSha {
        return Err(ArtifactIntegrity);
      }
      if fault != FailBefore {
        staged := staged[m.artifactSha := out];
      }
      return if fault == NoFault then Ok(()) else Err(StageFailed);
    }

    /** Commit one fetched body: decode it, then write the raw bytes. */
    method Commit(c: Codec, body: Bytes, ch: Chunk, fault: Fault) returns (ok: bool)
      modifies this`cache
      ensures ok ==> ValidChunk(c, cache, ch) && |body| == ch.encSize
      ensures ok <==> Decode(c, body, ch).Ok? && fault == NoFault
      ensures cache == if Decode(c, body, ch).Ok? && fault != FailBefore
                       then old(cache)[ch.sha := Decode(c, body, ch).value] else old(cache)
      ensures forall d: Chunk | d.sha != ch.sha || d == ch :: old(ValidChunk(c, cache, d)) ==> ValidChunk(c, cache, d)
    {
      var raw := Decode(c, body, ch);
      if raw.Err? {
        return false;
      }
      DecodeExact(c, body, ch, raw.value);
      if fault != FailBefore {
        cache := cache[ch.sha := raw.value];
      }
      return fault == NoFault;
    }
  }

  lemma FilesSnoc(cache: map<string, Bytes>, cs: seq<Chunk>, i: nat)
    requires i < |cs| && Complete(cache, cs[..i])
    requires cs[i].sha in cache && |cache[cs[i].sha]| == cs[i].size
    ensures Complete(cache, cs[..i + 1])
    ensures Flatten(Files(cache, cs[..i + 1])) == Flatten(Files(cache, cs[..i])) + cache[cs[i].sha]
  {
    assert Files(cache, cs[..i + 1])[..i] == Files(cache, cs[..i]);
  }

  // ------------------------------------------------------------------ round trip

  /** Decoding what Publish stored gives the raw chunk back. */
  lemma DecodePublished(c: Codec, raw: Bytes)
    requires c.gunzip(c.gzip(raw)) == Stream(raw, true)
    ensures Decode(c, c.gzip(raw), Describe(c, raw)) == Ok(raw)
  {
    DecodeExact(c, c.gzip(raw), Describe(c, raw), raw);
  }

  ghost predicate NoChunkCollision(c: Codec, cache: map<string, Bytes>, raws: seq<Bytes>) {
    forall raw, b | raw in raws && b in cache.Values && c.sha(raw) == c.sha(b) :: raw == b
  }

  /** Any cache in which every descriptor is valid holds the published chunks. */
  lemma CacheHoldsChunks(c: Codec, cache: map<string, Bytes>, raws: seq<Bytes>)
    requires AllValid(c, cache, DescribeAll(c, raws)) && NoChunkCollision(c, cache, raws)
    ensures Complete(cache, DescribeAll(c, raws)) && Files(cache, DescribeAll(c, raws)) == raws
  {
    var ds := DescribeAll(c, raws);
    forall i | 0 <= i < |raws| ensures ds[i].sha in cache && cache[ds[i].sha] == raws[i] {
      assert ds[i] in ds && raws[i] in raws;
      assert cache[ds[i].sha] in cache.Values;
    }
  }

  /** Round trip: for every input and legal parameters, however the cache was filled
      and whatever else it holds, assembling the published manifest succeeds and
      yields exactly the input. */
  lemma RoundTrip(c: Codec, g: Gear.Table, o: Options, input: Bytes, cache: map<string, Bytes>)
    requires o.params.Legal()
    requires AllValid(c, cache, ManifestOf(c, g, o, input).chunks)
    requires NoChunkCollision(c, cache, o.params.Rule(g).Chunks(input))
    ensures Assembles(c, cache, ManifestOf(c, g, o, input))
    ensures Flatten(Files(cache, ManifestOf(c, g, o, input).chunks)) == input
  {
    var raws := o.params.Rule(g).Chunks(input);
    CacheHoldsChunks(c, cache, raws);
    ChunksIsSplit(o.params.Rule(g), input);
  }

  /** Validity is needed only for the deduplicated list that the device plans with. */
  lemma ValidUniqueSuffices(c: Codec, cache: map<string, Bytes>, cs: seq<Chunk>)
    requires Consistent(cs) && AllValid(c, cache, Unique(cs))
    ensures AllValid(c, cache, cs)
  {
    forall ch | ch in cs ensures ValidChunk(c, cache, ch) {
      UniqueKeepsDescriptors(cs, ch);
    }
  }

  /** With no hypothesis on chunks at all: whatever assemble stages, or is found
      staged and valid, is the input unless whole archives collide. */
  lemma StagedIsInput(c: Codec, g: Gear.Table, o: Options, input: Bytes, staged: map<string, Bytes>)
    requires o.params.Legal() && ArchiveValid(c, staged, ManifestOf(c, g, o, input))
    requires c.Injective({input, staged[c.sha(input)]})
    ensures staged[c.sha(input)] == input
  {
  }

  // ------------------------------------------------- which publications are accepted

  /** The manifest Publish builds passes Verify exactly when the caller's options are
      acceptable, the input is neither empty nor over the limit, the digests have
      their shape, every encoding fits, and no two chunks collide. */
  ghost predicate Acceptable(c: Codec, g: Gear.Table, o: Options, input: Bytes) {
    && o.params.Legal() && IsSafeRelease(o.release) && o.sequence != 0
    && (o.kind == "raw" || o.kind == "docker-archive")
    && 0 < |input| <= PUBLISH_LIMIT && IsDigest(c.sha(input))
    && (forall i | 0 <= i < |o.imageIDs| :: IsImageID(o.imageIDs[i]))
    && var raws := o.params.Rule(g).Chunks(input);
       && (forall raw | raw in raws :: IsDigest(c.sha(raw)) && IsDigest(c.sha(c.gzip(raw)))
                                       && 0 < |c.gzip(raw)| <= o.params.max + 65536)
       && (forall a, b | a in raws && b in raws && c.sha(a) == c.sha(b) :: Describe(c, a) == Describe(c, b))
  }

  lemma PublishedIsWellFormed(c: Codec, g: Gear.Table, o: Options, input: Bytes)
    requires o.params.Legal()
    ensures WellFormed(ManifestOf(c, g, o, input), PUBLISH_LIMIT) <==> Acceptable(c, g, o, input)
  {
    var r := o.params.Rule(g);
    var raws, ds := r.Chunks(input), ManifestOf(c, g, o, input).chunks;
    DescribedSum(c, raws);
    ChunksIsSplit(r, input);
    GearRuleIsLocal(g, o.params);
    forall i | 0 <= i < |raws| ensures 1 <= |raws[i]| <= o.params.max {
      ChunkBounds(r, input, i);
    }
    DescriptorsOk(c, raws, o.params.max);
    ConsistentDescriptors(c, raws);
  }

  lemma DescriptorsOk(c: Codec, raws: seq<Bytes>, max: int)
    requires forall i | 0 <= i < |raws| :: 1 <= |raws[i]| <= max
    ensures (forall i | 0 <= i < |raws| :: IsDescriptor(DescribeAll(c, raws)[i], max)) <==>
            forall raw | raw in raws :: IsDigest(c.sha(raw)) && IsDigest(c.sha(c.gzip(raw)))
                                        && 0 < |c.gzip(raw)| <= max + 65536
  {
    var ds := DescribeAll(c, raws);
    if forall i | 0 <= i < |raws| :: IsDescriptor(ds[i], max) {
      forall raw | raw in raws
        ensures IsDigest(c.sha(raw)) && IsDigest(c.sha(c.gzip(raw))) && 0 < |c.gzip(raw)| <= max + 65536 {
        var i :| 0 <= i < |raws| && raws[i] == raw;
        assert IsDescriptor(ds[i], max);
      }
    }
  }

  lemma ConsistentDescriptors(c: Codec, raws: seq<Bytes>)
    ensures Consistent(DescribeAll(c, raws)) <==>
            forall a, b | a in raws && b in raws && c.sha(a) == c.sha(b) :: Describe(c, a) == Describe(c, b)
  {
    var ds := DescribeAll(c, raws);
    if Consistent(ds) {
      forall a, b | a in raws && b in raws && c.sha(a) == c.sha(b) ensures Describe(c, a) == Describe(c, b) {
        var i :| 0 <= i < |raws| && raws[i] == a;
        var j :| 0 <= j < |raws| && raws[j] == b;
        assert ds[i].sha == ds[j].sha;
        assert i < j || j < i || i == j;
      }
    } else {
      var i, j :| 0 <= i < j < |ds| && ds[i].sha == ds[j].sha && ds[i] != ds[j];
      assert raws[i] in raws && raws[j] in raws;
    }
  }
}
