/** `Publish`: chunks first, then the immutable signed release. */
module Publish {
  import opened Common
  import opened Chunker
  import opened Split
  import opened Format
  import Gear

  /** The largest artifact the publisher itself accepts. */
  const PUBLISH_LIMIT := 0x4_0000_0000_0000

  /** What happens to one atomic write: it succeeds, it fails and leaves the old
      file, or it fails after the rename. A crash is a failure nobody sees. */
  datatype Fault = NoFault | FailBefore | FailAfter

  datatype Options = Options(
    release: string, sequence: nat, kind: string, source: string,
    imageIDs: seq<string>, params: Params)

  datatype PublishError = BadRelease | Unreadable | SplitFailed | WriteFailed | Rejected | Immutable

  function Describe(c: Codec, raw: Bytes): (ch: Chunk) {
    Chunk(c.sha(raw), |raw|, c.sha(c.gzip(raw)), |c.gzip(raw)|)
  }

  function DescribeAll(c: Codec, raws: seq<Bytes>): (cs: seq<Chunk>)
    ensures |cs| == |raws|
  {
    seq(|raws|, i requires 0 <= i < |raws| => Describe(c, raws[i]))
  }

  /** The manifest of an input: its chunks in order, its size and its digest. */
  function ManifestOf(c: Codec, g: Gear.Table, o: Options, input: Bytes): (m: Manifest)
    requires o.params.Legal()
  {
    Manifest(FORMAT_VERSION, o.release, o.sequence, o.kind, c.sha(input), |input|, o.imageIDs,
             o.source, GEAR_CHUNKER, o.params, DescribeAll(c, o.params.Rule(g).Chunks(input)))
  }

  /** The stored object has the size and digest its descriptor states. */
  predicate Present(c: Codec, blobs: map<string, Bytes>, ch: Chunk) {
    ch.encSha in blobs && |blobs[ch.encSha]| == ch.encSize && c.sha(blobs[ch.encSha]) == ch.encSha
  }

  /** The descriptors a release file refers to. */
  ghost function Refers(c: Codec, file: Bytes): (cs: seq<Chunk>) {
    var v := Verified(c, file, PUBLISH_LIMIT);
    if v.Some? then v.value.manifest.chunks else []
  }

  /** Every release file refers only to objects that are present. */
  ghost predicate Intact(c: Codec, blobs: map<string, Bytes>, releases: map<string, Bytes>) {
    forall name | name in releases :: AllPresent(c, blobs, Refers(c, releases[name]))
  }

  ghost predicate AllPresent(c: Codec, blobs: map<string, Bytes>, cs: seq<Chunk>) {
    forall ch | ch in cs :: Present(c, blobs, ch)
  }

  /** The encodings of these chunks are stored under their digests, byte for byte. */
  ghost predicate StoresAll(c: Codec, blobs: map<string, Bytes>, raws: seq<Bytes>) {
    forall i | 0 <= i < |raws| :: c.sha(c.gzip(raws[i])) in blobs && blobs[c.sha(c.gzip(raws[i]))] == c.gzip(raws[i])
  }

  lemma StoredStays(c: Codec, blobs: map<string, Bytes>, enc: Bytes, raws: seq<Bytes>, encodings: set<Bytes>)
    requires c.Injective(encodings) && blobs.Values <= encodings && enc in encodings && StoresAll(c, blobs, raws)
    ensures StoresAll(c, blobs[c.sha(enc) := enc], raws)
  {
    forall i | 0 <= i < |raws| ensures blobs[c.sha(enc) := enc][c.sha(c.gzip(raws[i]))] == c.gzip(raws[i]) {
      assert blobs[c.sha(c.gzip(raws[i]))] in blobs.Values;
    }
  }

  lemma StoredNext(c: Codec, before: map<string, Bytes>, blobs: map<string, Bytes>, raws: seq<Bytes>, i: nat,
                   universe: set<Bytes>)
    requires i < |raws| && StoresAll(c, before, raws[..i]) && c.Injective(universe) && before.Values <= universe
    requires c.gzip(raws[i]) in universe
    requires blobs == before || blobs == before[c.sha(c.gzip(raws[i])) := c.gzip(raws[i])]
    requires c.sha(c.gzip(raws[i])) in blobs && blobs[c.sha(c.gzip(raws[i]))] == c.gzip(raws[i])
    ensures StoresAll(c, blobs, raws[..i + 1])
  {
    StoredStays(c, before, c.gzip(raws[i]), raws[..i], universe);
    forall k | 0 <= k <= i
      ensures c.sha(c.gzip(raws[k])) in blobs && blobs[c.sha(c.gzip(raws[k]))] == c.gzip(raws[k]) {
      if k < i { assert raws[..i][k] == raws[k]; }
    }
  }

  /** Storing an encoding under its digest keeps every other object present, unless
      two different stored encodings collide. */
  lemma PutKeepsPresent(c: Codec, blobs: map<string, Bytes>, enc: Bytes, cs: seq<Chunk>)
    requires c.Injective(blobs.Values + {enc}) && AllPresent(c, blobs, cs)
    ensures AllPresent(c, blobs[c.sha(enc) := enc], cs)
  {
    forall ch | ch in cs ensures Present(c, blobs[c.sha(enc) := enc], ch) {
      assert blobs[ch.encSha] in blobs.Values;
    }
  }

  lemma PutKeepsIntact(c: Codec, blobs: map<string, Bytes>, enc: Bytes, releases: map<string, Bytes>)
    requires c.Injective(blobs.Values + {enc}) && Intact(c, blobs, releases)
    ensures Intact(c, blobs[c.sha(enc) := enc], releases)
  {
    forall name | name in releases
      ensures AllPresent(c, blobs[c.sha(enc) := enc], Refers(c, releases[name])) {
      PutKeepsPresent(c, blobs, enc, Refers(c, releases[name]));
    }
  }

  lemma {:induction false} DescribedSum(c: Codec, raws: seq<Bytes>)
    ensures Sum(Sizes(DescribeAll(c, raws))) == |Flatten(raws)|
  {
    if raws != [] {
      var init := raws[..|raws| - 1];
      DescribedSum(c, init);
      var ds := DescribeAll(c, raws);
      assert ds[..|init|] == DescribeAll(c, init);
      SumSnoc(ds, |init|);
      assert ds[..|raws|] == ds;
    }
  }

  lemma DescribeSnoc(c: Codec, calls: seq<Bytes>, i: nat)
    requires i < |calls|
    ensures DescribeAll(c, calls[..i + 1]) == DescribeAll(c, calls[..i]) + [Describe(c, calls[i])]
    ensures Sum(Sizes(DescribeAll(c, calls[..i + 1]))) == Sum(Sizes(DescribeAll(c, calls[..i]))) + |calls[i]|
  {
    var ds := DescribeAll(c, calls[..i + 1]);
    SumSnoc(ds, i);
    assert ds[..i] == DescribeAll(c, calls[..i]) && ds[..i + 1] == ds;
  }

  /** The envelope is accepted by its own reader, and no other file has its name. */
  ghost predicate Publishable(c: Codec, m: Manifest, releases: map<string, Bytes>) {
    && Verified(c, c.seal(m), PUBLISH_LIMIT).Some?
    && (m.release in releases ==> releases[m.release] == c.seal(m))
  }

  class Origin {
    var blobs: map<string, Bytes>      // encoded objects, by encoded digest
    var releases: map<string, Bytes>   // release and channel files, by name

    constructor ()
      ensures blobs == map[] && releases == map[]
    {
      blobs, releases := map[], map[];
    }

    /** One chunk: an object that already has the right bytes is left alone. */
    method PutChunk(c: Codec, raw: Bytes, fault: Fault) returns (ch: Chunk, ok: bool)
      requires c.Injective(blobs.Values + {c.gzip(raw)}) && Intact(c, blobs, releases)
      modifies this`blobs
      ensures ch == Describe(c, raw)
      ensures ok ==> Present(c, blobs, ch)
      ensures ok ==> c.sha(c.gzip(raw)) in blobs && blobs[c.sha(c.gzip(raw))] == c.gzip(raw)
      ensures ok <==> fault == NoFault || old(Present(c, blobs, ch))
      ensures Intact(c, blobs, releases)
      ensures blobs == old(blobs) || blobs == old(blobs)[ch.encSha := c.gzip(raw)]
      ensures forall cs :: old(AllPresent(c, blobs, cs)) ==> AllPresent(c, blobs, cs)
    {
      var encoded := c.gzip(raw);
      assert c.sha(encoded) in blobs ==> blobs[c.sha(encoded)] in blobs.Values;
      ch, ok := Describe(c, raw), true;
      if !(ch.encSha in blobs && c.sha(blobs[ch.encSha]) == ch.encSha && |blobs[ch.encSha]| == ch.encSize) {
        forall cs | AllPresent(c, blobs, cs) ensures AllPresent(c, blobs[ch.encSha := encoded], cs) {
          PutKeepsPresent(c, blobs, encoded, cs);
        }
        PutKeepsIntact(c, blobs, encoded, releases);
        if fault != FailBefore { blobs := blobs[ch.encSha := encoded]; }
        ok := fault == NoFault;
      }
    }

    /** The emit calls of one Split, in order. */
    method PutChunks(c: Codec, calls: seq<Bytes>, fault: nat -> Fault, ghost universe: set<Bytes>)
        returns (chunks: seq<Chunk>, artifactSize: int, ok: bool)
      requires c.Injective(universe) && blobs.Values <= universe && forall raw | raw in calls :: c.gzip(raw) in universe
      requires Intact(c, blobs, releases)
      modifies this`blobs
      ensures Intact(c, blobs, releases) && blobs.Values <= universe
      ensures ok ==> chunks == DescribeAll(c, calls) && AllPresent(c, blobs, chunks) && artifactSize == |Flatten(calls)|
      ensures ok ==> StoresAll(c, blobs, calls)
      ensures !ok ==> exists k :: fault(k) != NoFault
    {
      chunks, artifactSize := [], 0;
      for i := 0 to |calls|
        invariant chunks == DescribeAll(c, calls[..i]) && artifactSize == Sum(Sizes(chunks))
        invariant Intact(c, blobs, releases) && AllPresent(c, blobs, chunks) && blobs.Values <= universe
        invariant StoresAll(c, blobs, calls[..i])
      {
        assert blobs.Values + {c.gzip(calls[i])} <= universe;
        ghost var before := blobs;
        var ch;
        ch, ok := PutChunk(c, calls[i], fault(i));
        assert blobs.Values <= before.Values + {c.gzip(calls[i])};
        if !ok {
          return chunks, artifactSize, false;
        }
        DescribeSnoc(c, calls, i);
        StoredNext(c, before, blobs, calls, i, universe);
        chunks := chunks + [ch];
        artifactSize := artifactSize + ch.size;
      }
      assert calls[..|calls|] == calls;
      DescribedSum(c, calls);
      return chunks, artifactSize, true;
    }

    /** Publish. `fault(k)` is the fate of the k-th atomic write; since the run ends
        at the first one that fails, every state a crash can leave behind is the
        final state of some fault assignment. */
    method Publish(c: Codec, g: Gear.Table, o: Options, input: Bytes, usable: bool,
                   readFails: bool, fault: nat -> Fault, ghost universe: set<Bytes>)
        returns (r: Result<Manifest, PublishError>)
      requires c.Compact() && (o.params.Legal() ==> c.SealsFaithfully(ManifestOf(c, g, o, input)))
      requires c.Injective(universe) && blobs.Values <= universe
      requires o.params.Legal() ==> forall raw | raw in Calls(o.params.Rule(g), input, readFails) ::
               c.gzip(raw) in universe
      requires Intact(c, blobs, releases)
      modifies this
      ensures Intact(c, blobs, releases) && blobs.Values <= universe
      ensures releases == old(releases) ||
              (o.params.Legal() && o.release !in old(releases) &&
               releases == old(releases)[o.release := c.seal(ManifestOf(c, g, o, input))])
      ensures r.Ok? ==>
                && o.params.Legal() && r.value == ManifestOf(c, g, o, input)
                && WellFormed(r.value, PUBLISH_LIMIT)
                && o.release in releases && releases[o.release] == c.seal(r.value)
      ensures r.Ok? ==>
                var m, raws := r.value, o.params.Rule(g).Chunks(input);
                && m.version == 1 && m.chunker == "gear64-lab-v1" && m.params == o.params
                && m.release == o.release && m.sequence == o.sequence && m.kind == o.kind
                && m.source == o.source && m.imageIDs == o.imageIDs
                && m.artifactSha == c.sha(input) && m.artifactSize == |input| == |Flatten(raws)|
                && StoresAll(c, blobs, raws)
      ensures (&& usable && !readFails && (forall k :: fault(k) == NoFault) && o.params.Legal()
               && var file := c.seal(ManifestOf(c, g, o, input));
                  && Verified(c, file, 0x4_0000_0000_0000).Some?
                  && (o.release in old(releases) ==> old(releases)[o.release] == file))
              ==> r.Ok?
    {
      if !IsSafeRelease(o.release) || o.sequence == 0 {
        return Err(BadRelease);
      }
      if !usable {
        return Err(Unreadable);
      }
      var calls, split := Split.Split(g, o.params, input, readFails, None);
      var chunks, artifactSize, ok := PutChunks(c, calls, fault, universe);
      if !ok {
        return Err(WriteFailed);
      }
      if split.Err? {
        return Err(SplitFailed);
      }
      ChunksIsSplit(o.params.Rule(g), input);
      var m := Manifest(FORMAT_VERSION, o.release, o.sequence, o.kind, c.sha(input), artifactSize,
                        o.imageIDs, o.source, GEAR_CHUNKER, o.params, chunks);
      assert m == ManifestOf(c, g, o, input);
      r := WriteRelease(c, m, fault(|calls|));
    }

    /** The signed release: verified by its own publisher, immutable by name, last. */
    method WriteRelease(c: Codec, m: Manifest, fault: Fault) returns (r: Result<Manifest, PublishError>)
      requires c.Compact() && c.SealsFaithfully(m) && Intact(c, blobs, releases) && AllPresent(c, blobs, m.chunks)
      modifies this`releases
      ensures Intact(c, blobs, releases)
      ensures releases == old(releases)
              || (m.release !in old(releases) && releases == old(releases)[m.release := c.seal(m)])
      ensures r.Ok? ==>
                r.value == m && WellFormed(m, PUBLISH_LIMIT) && m.release in releases
                && releases[m.release] == c.seal(m)
      ensures r.Ok? <==> Publishable(c, m, old(releases)) && fault == NoFault
    {
      var envelope := c.seal(m);
      var verified := Verify(c, envelope, PUBLISH_LIMIT);
      if verified.Err? {
        return Err(Rejected);
      }
      if m.release in releases && releases[m.release] != envelope {
        return Err(Immutable);
      }
      assert releases[m.release := envelope] == releases || m.release !in releases;
      if fault != FailBefore {
        releases := releases[m.release := envelope];
      }
      return if fault == NoFault then Ok(m) else Err(WriteFailed);
    }
  }
}
