/** The signed release format: chunk descriptors, manifests, envelopes, and the
    checks every reader makes. Hashing, signatures, gzip and JSON are the fields of
    a Codec: nothing is known about them but the hypotheses a lemma names. */
module Format {
  import opened Common
  import opened Split
  import opened Bits

  const FORMAT_VERSION := 1
  const MAX_MANIFEST_BYTES := 33554432
  const GEAR_CHUNKER := "gear64-lab-v1"

  datatype Chunk = Chunk(sha: string, size: int, encSha: string, encSize: int)

  datatype Manifest = Manifest(
    version: int, release: string, sequence: nat, kind: string,
    artifactSha: string, artifactSize: int, imageIDs: seq<string>, source: string,
    chunker: string, params: Params, chunks: seq<Chunk>)

  /** A decompressed stream: the bytes it yields and whether it ends without error. */
  datatype Stream = Stream(out: Bytes, clean: bool)

  datatype Codec = Codec(
    sha: Bytes -> string,
    open: Bytes -> Option<Bytes>,       // envelope to payload, if its signature verifies
    read: Bytes -> Option<Manifest>,    // payload to manifest
    seal: Manifest -> Bytes,            // manifest to signed envelope
    gzip: Bytes -> Bytes,
    gunzip: Bytes -> Stream)
  {
    /** No two of the given byte strings share a digest. */
    ghost predicate Injective(s: set<Bytes>) {
      forall a, b | a in s && b in s && sha(a) == sha(b) :: a == b
    }

    /** Signing and then opening gives the manifest back. */
    ghost predicate SealsFaithfully(m: Manifest) {
      open(seal(m)).Some? && read(open(seal(m)).value) == Some(m)
    }

    /** An envelope is no shorter than its payload, and a payload spends at least
        one byte on each chunk descriptor. */
    ghost predicate Compact() {
      && (forall d {:trigger open(d)} :: open(d).Some? ==> |open(d).value| <= |d|)
      && (forall p {:trigger read(p)} :: read(p).Some? ==> |read(p).value.chunks| <= |p|)
    }
  }

  // ------------------------------------------------------------------- shapes

  predicate IsLowerHex(ch: char) {
    '0' <= ch <= '9' || 'a' <= ch <= 'f'
  }

  predicate IsDigest(s: string) {
    |s| == 64 && forall i | 0 <= i < |s| :: IsLowerHex(s[i])
  }

  predicate IsAlnum(ch: char) {
    '0' <= ch <= '9' || 'a' <= ch <= 'z' || 'A' <= ch <= 'Z'
  }

  predicate IsNameChar(ch: char) {
    IsAlnum(ch) || ch == '_' || ch == '.' || ch == '-'
  }

  predicate IsSafeRelease(s: string) {
    1 <= |s| <= 101 && IsAlnum(s[0]) && forall i | 0 <= i < |s| :: IsNameChar(s[i])
  }

  predicate IsImageID(s: string) {
    |s| == 71 && s[..7] == "sha256:" && IsDigest(s[7..])
  }

  function BlobRel(c: Chunk): (path: string)
    requires |c.encSha| >= 2
  {
    "chunks/" + c.encSha[..2] + "/" + c.encSha + ".gz"
  }

  function CachePath(state: string, c: Chunk): (path: string)
    requires |c.sha| >= 2
  {
    state + "/cache/" + c.sha[..2] + "/" + c.sha
  }

  /** Object and cache paths are as injective as the digests in them. */
  lemma PathsAreInjective(state: string, c: Chunk, d: Chunk)
    requires IsDigest(c.sha) && IsDigest(c.encSha) && IsDigest(d.sha) && IsDigest(d.encSha)
    ensures BlobRel(c) == BlobRel(d) ==> c.encSha == d.encSha
    ensures CachePath(state, c) == CachePath(state, d) ==> c.sha == d.sha
  {
    assert BlobRel(c)[10..74] == c.encSha && BlobRel(d)[10..74] == d.encSha;
    var n := |state| + 10;
    assert CachePath(state, c)[n..] == c.sha && CachePath(state, d)[n..] == d.sha;
  }

  // ------------------------------------------------------------------- Verify

  function Sizes(cs: seq<Chunk>): (s: seq<int>)
    ensures |s| == |cs|
  {
    seq(|cs|, i requires 0 <= i < |cs| => cs[i].size)
  }

  predicate IsDescriptor(c: Chunk, max: int) {
    && IsDigest(c.sha) && IsDigest(c.encSha)
    && 0 < c.size <= max && 0 < c.encSize <= max + 65536
  }

  /** One descriptor per raw digest. */
  ghost predicate Consistent(cs: seq<Chunk>) {
    forall i, j | 0 <= i < j < |cs| && cs[i].sha == cs[j].sha :: cs[i] == cs[j]
  }

  /** What an accepted chunk list is: valid descriptors, one per digest, whose sizes
      add up to the artifact. */
  ghost predicate ChunkListOk(cs: seq<Chunk>, max: int, artifactSize: int) {
    && (forall i | 0 <= i < |cs| :: IsDescriptor(cs[i], max))
    && Consistent(cs)
    && Sum(Sizes(cs)) == artifactSize
  }

  predicate HeaderOk(m: Manifest, maxArtifact: int) {
    && m.version == FORMAT_VERSION && m.chunker == GEAR_CHUNKER
    && IsSafeRelease(m.release) && m.sequence != 0
    && (m.kind == "raw" || m.kind == "docker-archive")
    && m.params.Legal()
    && 0 < m.artifactSize <= maxArtifact && IsDigest(m.artifactSha)
  }

  ghost predicate WellFormed(m: Manifest, maxArtifact: int) {
    && HeaderOk(m, maxArtifact)
    && ChunkListOk(m.chunks, m.params.max, m.artifactSize)
    && (forall i | 0 <= i < |m.imageIDs| :: IsImageID(m.imageIDs[i]))
  }

  /** A manifest with the digest of its signed payload. */
  datatype Signed = Signed(manifest: Manifest, digest: string)

  /** What Verify accepts, and what it then returns. */
  ghost function Verified(c: Codec, data: Bytes, maxArtifact: int): (r: Option<Signed>) {
    if |data| > MAX_MANIFEST_BYTES || c.open(data).None? then None
    else
      var p := c.open(data).value;
      if c.read(p).Some? && WellFormed(c.read(p).value, maxArtifact)
      then Some(Signed(c.read(p).value, c.sha(p)))
      else None
  }

  /** Two's-complement 64-bit addition. */
  function Add64(a: int, b: int): (r: int) {
    var s := (a + b) % 0x1_0000_0000_0000_0000;
    if s >= 0x8000_0000_0000_0000 then s - 0x1_0000_0000_0000_0000 else s
  }

  datatype VerifyError =
    | TooLarge | BadEnvelope | BadPayload | BadHeader
    | BadDescriptor | InconsistentDescriptor | SizesExceedArtifact | SizesDiffer | BadImageID

  lemma SumSnoc(cs: seq<Chunk>, i: nat)
    requires i < |cs|
    ensures Sum(Sizes(cs[..i + 1])) == Sum(Sizes(cs[..i])) + cs[i].size
  {
    assert Sizes(cs[..i + 1])[..i] == Sizes(cs[..i]);
  }

  lemma {:induction false} PartialSum(cs: seq<Chunk>, i: nat)
    requires i <= |cs| && forall k | 0 <= k < |cs| :: cs[k].size >= 0
    ensures Sum(Sizes(cs[..i])) <= Sum(Sizes(cs))
    decreases |cs| - i
  {
    if i < |cs| {
      SumSnoc(cs, i);
      PartialSum(cs, i + 1);
    } else {
      assert cs[..i] == cs;
    }
  }

  lemma Add64IsExact(a: int, b: int)
    requires 0 <= a && 0 <= b && a + b < 0x8000_0000_0000_0000
    ensures Add64(a, b) == a + b
  {
  }

  /** The map of descriptors met so far, by digest. */
  ghost predicate Seen(cs: seq<Chunk>, seen: map<string, Chunk>) {
    && (forall c | c in cs :: c.sha in seen && seen[c.sha] == c)
    && (forall s | s in seen :: seen[s] in cs && seen[s].sha == s)
  }

  lemma SeenStep(cs: seq<Chunk>, c: Chunk, seen: map<string, Chunk>)
    requires Seen(cs, seen) && (c.sha in seen ==> seen[c.sha] == c)
    ensures Seen(cs + [c], seen[c.sha := c])
  {
  }

  lemma SeenMeansConsistent(cs: seq<Chunk>, seen: map<string, Chunk>)
    requires Seen(cs, seen)
    ensures Consistent(cs)
  {
    assert forall i | 0 <= i < |cs| :: cs[i] in cs;
  }

  lemma Clash(cs: seq<Chunk>, i: nat, seen: map<string, Chunk>)
    requires i < |cs| && Seen(cs[..i], seen)
    requires cs[i].sha in seen && seen[cs[i].sha] != cs[i]
    ensures !Consistent(cs)
  {
    var k :| 0 <= k < i && cs[k] == seen[cs[i].sha];
  }

  /** What the descriptor loop knows after i descriptors. */
  ghost predicate Checked(cs: seq<Chunk>, max: int, i: nat, seen: map<string, Chunk>, n: int) {
    && i <= |cs| && n == Sum(Sizes(cs[..i])) && 0 <= n <= i * MAX_CHUNK_BYTES
    && (forall k | 0 <= k < i :: IsDescriptor(cs[k], max)) && Seen(cs[..i], seen)
  }

  lemma CheckedStep(cs: seq<Chunk>, max: int, i: nat, seen: map<string, Chunk>, n: int)
    requires Checked(cs, max, i, seen, n) && i < |cs| <= MAX_MANIFEST_BYTES && max <= MAX_CHUNK_BYTES
    requires IsDescriptor(cs[i], max) && (cs[i].sha in seen ==> seen[cs[i].sha] == cs[i])
    ensures Checked(cs, max, i + 1, seen[cs[i].sha := cs[i]], Add64(n, cs[i].size))
    ensures Add64(n, cs[i].size) == n + cs[i].size
  {
    SeenStep(cs[..i], cs[i], seen);
    assert cs[..i] + [cs[i]] == cs[..i + 1];
    SumSnoc(cs, i);
    Add64IsExact(n, cs[i].size);
  }

  lemma CheckedAll(cs: seq<Chunk>, max: int, seen: map<string, Chunk>, n: int, artifactSize: int)
    requires Checked(cs, max, |cs|, seen, n)
    ensures ChunkListOk(cs, max, artifactSize) <==> n == artifactSize
  {
    assert cs[..|cs|] == cs;
    SeenMeansConsistent(cs, seen);
  }

  /** The descriptor loop. The running sum is kept in 64 bits; because a manifest is
      at most MAX_MANIFEST_BYTES long it never wraps, so the loop accepts exactly the
      chunk lists of ChunkListOk, for every artifact size. */
  method CheckChunks(cs: seq<Chunk>, max: int, artifactSize: int) returns (r: Result<(), VerifyError>)
    requires |cs| <= MAX_MANIFEST_BYTES && max <= MAX_CHUNK_BYTES
    ensures r.Ok? <==> ChunkListOk(cs, max, artifactSize)
  {
    var seen: map<string, Chunk> := map[];
    var n := 0;
    for i := 0 to |cs|
      invariant Checked(cs, max, i, seen, n)
    {
      var c := cs[i];
      if !IsDescriptor(c, max) {
        return Err(BadDescriptor);
      }
      if c.sha in seen && seen[c.sha] != c {
        Clash(cs, i, seen);
        return Err(InconsistentDescriptor);
      }
      CheckedStep(cs, max, i, seen, n);
      seen := seen[c.sha := c];
      n := Add64(n, c.size);
      if n > artifactSize {
        NotExceeding(cs, max, artifactSize, i + 1);
        return Err(SizesExceedArtifact);
      }
    }
    CheckedAll(cs, max, seen, n, artifactSize);
    return if n == artifactSize then Ok(()) else Err(SizesDiffer);
  }

  lemma NotExceeding(cs: seq<Chunk>, max: int, artifactSize: int, i: nat)
    requires i <= |cs| && Sum(Sizes(cs[..i])) > artifactSize
    ensures !ChunkListOk(cs, max, artifactSize)
  {
    if forall k | 0 <= k < |cs| :: IsDescriptor(cs[k], max) {
      PartialSum(cs, i);
    }
  }

  method Verify(c: Codec, data: Bytes, maxArtifact: int) returns (r: Result<Signed, VerifyError>)
    requires c.Compact()
    ensures r.Ok? <==> Verified(c, data, maxArtifact).Some?
    ensures r.Ok? ==> r.value == Verified(c, data, maxArtifact).value
    ensures r.Ok? ==> |data| <= MAX_MANIFEST_BYTES && c.open(data).Some?
                      && c.read(c.open(data).value) == Some(r.value.manifest)
                      && r.value.digest == c.sha(c.open(data).value)
  {
    if |data| > MAX_MANIFEST_BYTES {
      return Err(TooLarge);
    }
    var payload := c.open(data);
    if payload.None? {
      return Err(BadEnvelope);
    }
    var manifest := c.read(payload.value);
    if manifest.None? {
      return Err(BadPayload);
    }
    var m := manifest.value;
    if !HeaderOk(m, maxArtifact) {
      return Err(BadHeader);
    }
    var chunks := CheckChunks(m.chunks, m.params.max, m.artifactSize);
    if chunks.Err? {
      return Err(chunks.error);
    }
    for i := 0 to |m.imageIDs|
      invariant forall k | 0 <= k < i :: IsImageID(m.imageIDs[k])
    {
      if !IsImageID(m.imageIDs[i]) {
        return Err(BadImageID);
      }
    }
    return Ok(Signed(m, c.sha(payload.value)));
  }

  lemma LegalAverage(p: Params)
    ensures p.Legal() <==> 64 <= p.min <= p.avg <= p.max <= 4194304 && exists k: nat :: p.avg == Pow2(k)
  {
    PowersOfTwo(p.avg);
  }

  lemma OnePerDigest(cs: seq<Chunk>)
    ensures Consistent(cs) <==> forall a, b | a in cs && b in cs && a.sha == b.sha :: a == b
  {
    if Consistent(cs) {
      forall a, b | a in cs && b in cs && a.sha == b.sha ensures a == b {
        var i :| 0 <= i < |cs| && cs[i] == a;
        var j :| 0 <= j < |cs| && cs[j] == b;
        assert i < j || j < i || i == j;
      }
    }
  }

  /** An envelope is accepted exactly when it is no longer than 32 MiB, its signature
      verifies, its payload is a manifest, and that manifest meets every rule of the format. */
  lemma VerifiedExactly(c: Codec, data: Bytes, maxArtifact: int)
    ensures Verified(c, data, maxArtifact).Some? <==>
              && |data| <= 33554432 && c.open(data).Some? && c.read(c.open(data).value).Some?
              && var m := c.read(c.open(data).value).value;
              && m.version == 1 && m.chunker == "gear64-lab-v1" && IsSafeRelease(m.release) && m.sequence > 0
              && m.kind in {"raw", "docker-archive"}
              && 64 <= m.params.min <= m.params.avg <= m.params.max <= 4194304
              && (exists k: nat :: m.params.avg == Pow2(k))
              && 0 < m.artifactSize <= maxArtifact && IsDigest(m.artifactSha)
              && (forall ch | ch in m.chunks ::
                    && IsDigest(ch.sha) && IsDigest(ch.encSha)
                    && 0 < ch.size <= m.params.max && 0 < ch.encSize <= m.params.max + 65536)
              && (forall a, b | a in m.chunks && b in m.chunks && a.sha == b.sha :: a == b)
              && Sum(seq(|m.chunks|, i requires 0 <= i < |m.chunks| => m.chunks[i].size)) == m.artifactSize
              && (forall id | id in m.imageIDs :: IsImageID(id))
  {
    if c.open(data).Some? && c.read(c.open(data).value).Some? {
      var m := c.read(c.open(data).value).value;
      LegalAverage(m.params);
      OnePerDigest(m.chunks);
      assert Sizes(m.chunks) == seq(|m.chunks|, i requires 0 <= i < |m.chunks| => m.chunks[i].size);
    }
  }

  /** The digest is that of the payload: envelopes that carry the same payload, in whatever
      layout, get the same answer. */
  lemma SamePayloadSameAnswer(c: Codec, a: Bytes, b: Bytes, maxArtifact: int)
    requires |a| <= MAX_MANIFEST_BYTES && |b| <= MAX_MANIFEST_BYTES && c.open(a) == c.open(b)
    ensures Verified(c, a, maxArtifact) == Verified(c, b, maxArtifact)
    ensures Verified(c, a, maxArtifact).Some? ==>
              c.open(a).Some? && Verified(c, a, maxArtifact).value.digest == c.sha(c.open(a).value)
  {
  }

  /** A larger artifact limit accepts at least as much, with the same answer. */
  lemma VerifiedMonotone(c: Codec, data: Bytes, small: int, large: int)
    requires small <= large && Verified(c, data, small).Some?
    ensures Verified(c, data, large) == Verified(c, data, small)
  {
  }

  // ------------------------------------------------------------------- Unique

  predicate HasSha(cs: seq<Chunk>, sha: string) {
    exists k | 0 <= k < |cs| :: cs[k].sha == sha
  }

  /** The first descriptor of every digest, in manifest order. */
  function Unique(cs: seq<Chunk>): (out: seq<Chunk>) {
    if cs == [] then []
    else
      var init, c := Unique(cs[..|cs| - 1]), cs[|cs| - 1];
      if HasSha(init, c.sha) then init else init + [c]
  }

  ghost predicate Distinct(cs: seq<Chunk>) {
    forall i, j | 0 <= i < j < |cs| :: cs[i].sha != cs[j].sha
  }

  lemma HasShaSnoc(cs: seq<Chunk>, c: Chunk, sha: string)
    ensures HasSha(cs + [c], sha) == (HasSha(cs, sha) || c.sha == sha)
  {
    if HasSha(cs, sha) {
      var k :| 0 <= k < |cs| && cs[k].sha == sha;
      assert (cs + [c])[k].sha == sha;
    }
    assert (cs + [c])[|cs|] == c;
  }

  lemma {:induction false} UniqueFacts(cs: seq<Chunk>)
    ensures Distinct(Unique(cs))
    ensures forall c | c in Unique(cs) :: c in cs
  {
    if cs != [] {
      UniqueFacts(cs[..|cs| - 1]);
    }
  }

  lemma {:induction false} UniqueCovers(cs: seq<Chunk>, sha: string)
    ensures HasSha(Unique(cs), sha) == HasSha(cs, sha)
  {
    if cs != [] {
      var init, c := cs[..|cs| - 1], cs[|cs| - 1];
      UniqueCovers(init, sha);
      HasShaSnoc(init, c, sha);
      HasShaSnoc(Unique(init), c, sha);
      assert init + [c] == cs;
    }
  }

  /** With one descriptor per digest, deduplication loses no descriptor. */
  lemma UniqueKeepsDescriptors(cs: seq<Chunk>, c: Chunk)
    requires Consistent(cs) && c in cs
    ensures c in Unique(cs)
  {
    UniqueFacts(cs);
    UniqueCovers(cs, c.sha);
    var i :| 0 <= i < |cs| && cs[i] == c;
    var k :| 0 <= k < |Unique(cs)| && Unique(cs)[k].sha == c.sha;
    assert Unique(cs)[k] in cs;
    var j :| 0 <= j < |cs| && cs[j] == Unique(cs)[k];
    assert i < j || j < i || i == j;
  }

  method UniqueChunks(cs: seq<Chunk>) returns (out: seq<Chunk>)
    ensures out == Unique(cs) && Distinct(out)
    ensures forall sha :: HasSha(out, sha) == HasSha(cs, sha)
  {
    var seen: set<string> := {};
    out := [];
    for i := 0 to |cs|
      invariant out == Unique(cs[..i])
      invariant forall sha :: sha in seen <==> HasSha(out, sha)
    {
      assert cs[..i + 1][..i] == cs[..i];
      var c := cs[i];
      if c.sha !in seen {
        forall sha ensures HasSha(out + [c], sha) == (HasSha(out, sha) || c.sha == sha) {
          HasShaSnoc(out, c, sha);
        }
        seen := seen + {c.sha};
        out := out + [c];
      }
    }
    assert cs[..|cs|] == cs;
    UniqueFacts(cs);
    forall sha ensures HasSha(out, sha) == HasSha(cs, sha) { UniqueCovers(cs, sha); }
  }

  // ------------------------------------------------------------------- Decode

  datatype DecodeError = EncodedIntegrity | BadStream | RawIntegrity

  /** Decode reads at most size + 1 bytes of the stream, so an error that lies
      behind an overlong output is never met. */
  function Decode(c: Codec, encoded: Bytes, ch: Chunk): (r: Result<Bytes, DecodeError>) {
    if |encoded| != ch.encSize || c.sha(encoded) != ch.encSha then Err(EncodedIntegrity)
    else
      var z := c.gunzip(encoded);
      var limit := if ch.size < 0 then 0 else ch.size + 1;
      if |z.out| < limit && !z.clean then Err(BadStream)
      else
        var raw := if |z.out| < limit then z.out else z.out[..limit];
        if |raw| != ch.size || c.sha(raw) != ch.sha then Err(RawIntegrity) else Ok(raw)
  }

  /** Decode returns a value exactly when both digests and both sizes match and the
      stream ends cleanly; the value is then the whole stream. */
  lemma DecodeExact(c: Codec, encoded: Bytes, ch: Chunk, raw: Bytes)
    ensures Decode(c, encoded, ch) == Ok(raw) <==>
              && |encoded| == ch.encSize && c.sha(encoded) == ch.encSha
              && c.gunzip(encoded) == Stream(raw, true)
              && |raw| == ch.size && c.sha(raw) == ch.sha
  {
    var z := c.gunzip(encoded);
    if ch.size >= 0 && |z.out| >= ch.size + 1 {
      assert |z.out[..ch.size + 1]| == ch.size + 1;
    }
  }
}
