/** What every publisher step keeps, and what follows for whole histories. */
module PublisherSafety {
  import opened Common
  import opened Chunker
  import opened Split
  import opened Format
  import opened Publish
  import opened Naming
  import opened Publisher

  /** A release file verifies to a manifest that names the job which wrote it: its
      name, source, sequence, the archive that was exported and the one image in it. */
  ghost predicate Signs(w: World, file: Bytes, j: Job) {
    var v := Verified(w.c, file, PUBLISH_LIMIT);
    && v.Some?
    && var m := v.value.manifest;
       && m.release == w.Name(j.req) && m.source == w.Source(j.req) && m.kind == "docker-archive"
       && m.sequence == j.seqno && m.artifactSha == w.c.sha(j.input) && m.artifactSize == |j.input|
       && m.imageIDs == [j.imageID]
  }

  ghost predicate Written(w: World, p: Pub, name: string) {
    && name in p.releases && name in p.made
    && p.made[name].req in w.requests && w.Name(p.made[name].req) == name
    && 0 < p.made[name].seqno <= p.seqFile
    && Signs(w, p.releases[name], p.made[name])
  }

  ghost predicate ReleasesOk(w: World, p: Pub) {
    && (forall n | n in p.releases :: Written(w, p, n))
    && (forall n, k | n in p.releases && k in p.releases && n in p.made && k in p.made && n != k ::
          p.made[n].seqno != p.made[k].seqno)
  }

  /** The channel has reached at least the sequence of this release. */
  ghost predicate ChannelCovers(c: Codec, p: Pub, name: string) {
    && name in p.releases && p.channel.Some?
    && SeqOf(c, p.channel.value) >= SeqOf(c, p.releases[name])
  }

  ghost predicate AcksOk(w: World, p: Pub) {
    forall k: (string, string) | k in p.acks :: ChannelCovers(w.c, p, w.Name(Req(k.0, k.1, p.acks[k])))
  }

  ghost predicate JobOk(w: World, p: Pub)
    requires w.params.Legal()
  {
    var name := w.Name(p.job.req);
    match p.pc
    case Idle => true
    case Asked => p.job.req in w.requests
    case Exported => p.job.req in w.requests && name !in p.releases
    case Allocated =>
      && p.job.req in w.requests && name !in p.releases
      && p.job.seqno == p.seqFile > 0 && (forall n | n in p.releases && n in p.made :: p.made[n].seqno < p.seqFile)
      && p.written <= |w.ManifestFor(p.job).chunks|
      && AllPresent(w.c, p.blobs, w.ManifestFor(p.job).chunks[..p.written])
    case ReleaseReady => name in p.releases && p.envelope == p.releases[name]
    case Promoted => ChannelCovers(w.c, p, name)
    case SequenceClash => false
    case IdentityMismatch => false
  }

  ghost predicate Inv(w: World, p: Pub)
    requires w.params.Legal()
  {
    && ReleasesOk(w, p)
    && (p.channel.Some? ==> p.channel.value in p.releases.Values)
    && Intact(w.c, p.blobs, p.releases) && p.blobs.Values <= w.encodings
    && AcksOk(w, p)
    && JobOk(w, p)
  }

  /** Between an earlier and a later state: release files are immutable, the sequence
      file and the channel's sequence never decrease. */
  ghost predicate Extends(c: Codec, p: Pub, p': Pub) {
    && (forall n | n in p.releases :: n in p'.releases && p'.releases[n] == p.releases[n])
    && p.seqFile <= p'.seqFile
    && (p.channel.Some? ==> p'.channel.Some? && SeqOf(c, p.channel.value) <= SeqOf(c, p'.channel.value))
  }

  lemma InitInv(w: World, p: Pub)
    requires w.params.Legal() && Init(p)
    ensures Inv(w, p)
  {
  }

  /** Two release files with the same signed sequence are the same file. */
  lemma SequenceIsUnique(w: World, p: Pub, a: Bytes, b: Bytes)
    requires ReleasesOk(w, p) && a in p.releases.Values && b in p.releases.Values
    requires SeqOf(w.c, a) == SeqOf(w.c, b)
    ensures a == b
  {
    var n :| n in p.releases && p.releases[n] == a;
    var k :| k in p.releases && p.releases[k] == b;
    assert Written(w, p, n) && Written(w, p, k);
  }

  lemma ReleaseVerifies(w: World, p: Pub, file: Bytes)
    requires ReleasesOk(w, p) && file in p.releases.Values
    ensures Verified(w.c, file, PUBLISH_LIMIT).Some?
  {
    var n :| n in p.releases && p.releases[n] == file;
    assert Written(w, p, n);
  }

  // ------------------------------------------------------------- one step at a time

  lemma AskSteps(w: World, p: Pub, step: Step)
    requires w.params.Legal() && Inv(w, p) && Enabled(w, p, step)
    requires step.Request? || step.Export? || step.Halt?
    ensures Inv(w, Next(w, p, step)) && Extends(w.c, p, Next(w, p, step))
  {
  }

  /** A release that exists under the requested name was made for the same request,
      so the identity check of a retry never fails. */
  lemma ReuseStep(w: World, p: Pub)
    requires w.Sane() && Inv(w, p) && Enabled(w, p, Reuse)
    ensures Inv(w, Next(w, p, Reuse)) && Extends(w.c, p, Next(w, p, Reuse))
  {
    var name := w.Name(p.job.req);
    assert Written(w, p, name);
    ReleaseNameInjective(w.prefix, w.identity, p.made[name].req, p.job.req);
    assert Matches(w, p, p.releases[name]);
  }

  /** Steps that leave release files alone keep them in order. */
  lemma ReleasesFrame(w: World, p: Pub, p': Pub)
    requires ReleasesOk(w, p)
    requires p'.releases == p.releases && p'.made == p.made && p'.seqFile >= p.seqFile
    ensures ReleasesOk(w, p')
  {
    forall n | n in p'.releases ensures Written(w, p', n) { assert Written(w, p, n); }
  }

  /** Acknowledged releases stay covered while files only extend. */
  lemma AcksFrame(w: World, p: Pub, p': Pub)
    requires AcksOk(w, p) && Extends(w.c, p, p') && p'.acks == p.acks
    ensures AcksOk(w, p')
  {
    forall k: (string, string) | k in p'.acks ensures ChannelCovers(w.c, p', w.Name(Req(k.0, k.1, p'.acks[k]))) {
      assert ChannelCovers(w.c, p, w.Name(Req(k.0, k.1, p.acks[k])));
    }
  }

  lemma AllocateStep(w: World, p: Pub)
    requires w.params.Legal() && Inv(w, p) && Enabled(w, p, Allocate)
    ensures Inv(w, Next(w, p, Allocate)) && Extends(w.c, p, Next(w, p, Allocate))
  {
    var p' := Next(w, p, Allocate);
    ReleasesFrame(w, p, p');
    assert w.ManifestFor(p'.job).chunks[..0] == [];
  }

  lemma PutBlobKeepsObjects(w: World, p: Pub)
    requires w.Sane() && Inv(w, p) && Enabled(w, p, PutBlob)
    ensures var p' := Next(w, p, PutBlob);
            && Intact(w.c, p'.blobs, p.releases) && p'.blobs.Values <= w.encodings
            && AllPresent(w.c, p'.blobs, w.ManifestFor(p.job).chunks[..p.written + 1])
  {
    var p', i := Next(w, p, PutBlob), p.written;
    var cs, raw := w.ManifestFor(p.job).chunks, w.params.Rule(w.g).Chunks(p.job.input)[i];
    var enc := w.c.gzip(raw);
    assert p.blobs.Values + {enc} <= w.encodings;
    PutKeepsPresent(w.c, p.blobs, enc, cs[..i]);
    PutKeepsIntact(w.c, p.blobs, enc, p.releases);
    assert cs[i] == Describe(w.c, raw) && Present(w.c, p'.blobs, cs[i]);
    assert cs[..i + 1] == cs[..i] + [cs[i]];
  }

  lemma PutBlobStep(w: World, p: Pub)
    requires w.Sane() && Inv(w, p) && Enabled(w, p, PutBlob)
    ensures Inv(w, Next(w, p, PutBlob)) && Extends(w.c, p, Next(w, p, PutBlob))
  {
    PutBlobKeepsObjects(w, p);
    ReleasesFrame(w, p, Next(w, p, PutBlob));
  }

  lemma NewReleaseSigns(w: World, j: Job)
    requires w.Sane() && Verified(w.c, w.c.seal(w.ManifestFor(j)), PUBLISH_LIMIT).Some?
    ensures Signs(w, w.c.seal(w.ManifestFor(j)), j)
  {
    assert w.c.SealsFaithfully(w.ManifestFor(j));
  }

  lemma AddRelease(w: World, p: Pub, p': Pub, name: string, file: Bytes, j: Job)
    requires ReleasesOk(w, p) && Signs(w, file, j) && j.req in w.requests && w.Name(j.req) == name
    requires name !in p.releases && 0 < j.seqno <= p.seqFile
    requires forall n | n in p.releases && n in p.made :: p.made[n].seqno < j.seqno
    requires p'.releases == p.releases[name := file] && p'.made == p.made[name := j] && p'.seqFile == p.seqFile
    ensures ReleasesOk(w, p')
  {
    forall n | n in p'.releases ensures Written(w, p', n) {
      if n != name { assert Written(w, p, n); }
    }
  }

  lemma ReleaseKeepsReleases(w: World, p: Pub)
    requires w.Sane() && ReleasesOk(w, p) && JobOk(w, p) && Enabled(w, p, WriteRelease)
    ensures ReleasesOk(w, Next(w, p, WriteRelease))
  {
    NewReleaseSigns(w, p.job);
    AddRelease(w, p, Next(w, p, WriteRelease), w.Name(p.job.req), w.c.seal(w.ManifestFor(p.job)), p.job);
  }

  lemma ReleaseKeepsIntact(w: World, p: Pub)
    requires w.Sane() && JobOk(w, p) && Intact(w.c, p.blobs, p.releases) && Enabled(w, p, WriteRelease)
    ensures Intact(w.c, p.blobs, Next(w, p, WriteRelease).releases)
  {
    var p', m := Next(w, p, WriteRelease), w.ManifestFor(p.job);
    assert w.c.SealsFaithfully(m) && m.chunks[..p.written] == m.chunks;
    assert Refers(w.c, p'.releases[w.Name(p.job.req)]) == m.chunks;
  }

  lemma ReleaseExtends(w: World, p: Pub)
    requires w.params.Legal() && JobOk(w, p) && Enabled(w, p, WriteRelease)
    ensures Extends(w.c, p, Next(w, p, WriteRelease))
    ensures p.releases.Values <= Next(w, p, WriteRelease).releases.Values
  {
    var p' := Next(w, p, WriteRelease);
    forall b | b in p.releases.Values ensures b in p'.releases.Values {
      var n :| n in p.releases && p.releases[n] == b;
      assert p'.releases[n] == b;
    }
  }

  lemma ReleaseStep(w: World, p: Pub)
    requires w.Sane() && Inv(w, p) && Enabled(w, p, WriteRelease)
    ensures Inv(w, Next(w, p, WriteRelease)) && Extends(w.c, p, Next(w, p, WriteRelease))
  {
    ReleaseKeepsReleases(w, p);
    ReleaseKeepsIntact(w, p);
    ReleaseExtends(w, p);
    AcksFrame(w, p, Next(w, p, WriteRelease));
  }

  /** promote decides by sequence alone: the equal-sequence error would need two
      different files with one sequence. */
  lemma PromotionOutcome(w: World, p: Pub)
    requires ReleasesOk(w, p) && p.envelope in p.releases.Values
    requires p.channel.Some? ==> p.channel.value in p.releases.Values
    ensures var p' := Promotion(w.c, p);
            && p'.pc == Promoted && p'.channel.Some? && p'.channel.value in p.releases.Values
            && SeqOf(w.c, p'.channel.value) >= SeqOf(w.c, p.envelope)
            && (p.channel.Some? ==> SeqOf(w.c, p'.channel.value) >= SeqOf(w.c, p.channel.value))
            && p' == p.(pc := Promoted, channel := p'.channel)
  {
    ReleaseVerifies(w, p, p.envelope);
    if p.channel.Some? {
      ReleaseVerifies(w, p, p.channel.value);
      if SeqOf(w.c, p.channel.value) == SeqOf(w.c, p.envelope) {
        SequenceIsUnique(w, p, p.channel.value, p.envelope);
      }
    }
  }

  lemma PromoteStep(w: World, p: Pub)
    requires w.params.Legal() && Inv(w, p) && Enabled(w, p, Promote)
    ensures Inv(w, Next(w, p, Promote)) && Extends(w.c, p, Next(w, p, Promote))
  {
    var p' := Promotion(w.c, p);
    assert p.releases[w.Name(p.job.req)] in p.releases.Values;
    PromotionOutcome(w, p);
    ReleasesFrame(w, p, p');
    AcksFrame(w, p, p');
  }

  lemma AckStep(w: World, p: Pub)
    requires w.params.Legal() && Inv(w, p) && Enabled(w, p, Ack)
    ensures Inv(w, Next(w, p, Ack)) && Extends(w.c, p, Next(w, p, Ack))
  {
    var p', q := Next(w, p, Ack), p.job.req;
    assert Req(q.repo, q.tag, q.digest) == q;
    ReleasesFrame(w, p, p');
  }

  lemma StepKeepsInv(w: World, p: Pub, step: Step)
    requires w.Sane() && Inv(w, p) && Enabled(w, p, step)
    ensures Inv(w, Next(w, p, step)) && Extends(w.c, p, Next(w, p, step))
  {
    match step
    case Reuse => ReuseStep(w, p);
    case Allocate => AllocateStep(w, p);
    case PutBlob => PutBlobStep(w, p);
    case WriteRelease => ReleaseStep(w, p);
    case Promote => PromoteStep(w, p);
    case Ack => AckStep(w, p);
    case _ => AskSteps(w, p, step);
  }

  // --------------------------------------------------------------- whole histories

  lemma {:induction false} HistoryKeepsInv(w: World, p: Pub, steps: seq<Step>)
    requires w.Sane() && Inv(w, p) && Runs(w, p, steps)
    ensures Inv(w, After(w, p, steps)) && Extends(w.c, p, After(w, p, steps))
    decreases |steps|
  {
    if steps != [] {
      StepKeepsInv(w, p, steps[0]);
      HistoryKeepsInv(w, Next(w, p, steps[0]), steps[1..]);
    }
  }

  /** Publisher retry, over every crash and restart of one writer: a request's release
      is written at most once and never changes, different requests never share a
      release, distinct release files never share a sequence, the channel is one of
      them and never goes back, and neither error state of a retry is reached. */
  lemma PublisherIsSafe(w: World, p0: Pub, steps: seq<Step>, more: seq<Step>, q: Req, r: Req)
    requires w.Sane() && Init(p0) && Runs(w, p0, steps) && Runs(w, After(w, p0, steps), more)
    requires q in w.requests && r in w.requests
    ensures var p, p' := After(w, p0, steps), After(w, After(w, p0, steps), more);
            && (w.Name(q) in p.releases ==> w.Name(q) in p'.releases && p'.releases[w.Name(q)] == p.releases[w.Name(q)])
            && (w.Name(q) == w.Name(r) ==> q == r)
            && (forall a, b | a in p.releases.Values && b in p.releases.Values && SeqOf(w.c, a) == SeqOf(w.c, b) ::
               a == b)
            && (p.channel.Some? ==> p.channel.value in p.releases.Values)
            && (p.channel.Some? ==> p'.channel.Some? && SeqOf(w.c, p.channel.value) <= SeqOf(w.c, p'.channel.value))
            && p.pc != SequenceClash && p.pc != IdentityMismatch
  {
    InitInv(w, p0);
    HistoryKeepsInv(w, p0, steps);
    var p := After(w, p0, steps);
    HistoryKeepsInv(w, p, more);
    if w.Name(q) == w.Name(r) { ReleaseNameInjective(w.prefix, w.identity, q, r); }
    forall a, b | a in p.releases.Values && b in p.releases.Values && SeqOf(w.c, a) == SeqOf(w.c, b) ensures a == b {
      SequenceIsUnique(w, p, a, b);
    }
  }

  /** Every release that exists in a reachable state is signed for one job: the registry
      source of its request, its sequence, the archive exported for it, and the ID of the
      image in that archive, without which no device could ever load it. */
  lemma ReleasesSignTheirImage(w: World, p0: Pub, steps: seq<Step>, name: string)
    requires w.Sane() && Init(p0) && Runs(w, p0, steps) && name in After(w, p0, steps).releases
    ensures var p := After(w, p0, steps);
            var v := Verified(w.c, p.releases[name], PUBLISH_LIMIT);
            && name in p.made && v.Some?
            && var m, j := v.value.manifest, p.made[name];
               && m.imageIDs == [j.imageID] && m.kind == "docker-archive" && m.sequence == j.seqno
               && m.release == name == ReleaseName(w.prefix, w.identity, j.req)
               && m.source == "registry://" + w.registry + "/" + j.req.repo + "@" + j.req.digest
               && m.artifactSha == w.c.sha(j.input) && m.artifactSize == |j.input|
  {
    InitInv(w, p0);
    HistoryKeepsInv(w, p0, steps);
    assert Written(w, After(w, p0, steps), name);
  }

  /** At every reachable origin state each release file, and so the channel file, refers
      only to objects present with the stated size and digest. */
  lemma OriginIsIntact(w: World, p0: Pub, steps: seq<Step>)
    requires w.Sane() && Init(p0) && Runs(w, p0, steps)
    ensures var p := After(w, p0, steps);
            && Intact(w.c, p.blobs, p.releases)
            && (p.channel.Some? ==> AllPresent(w.c, p.blobs, Refers(w.c, p.channel.value)))
  {
    InitInv(w, p0);
    HistoryKeepsInv(w, p0, steps);
    var p := After(w, p0, steps);
    if p.channel.Some? {
      var n :| n in p.releases && p.releases[n] == p.channel.value;
    }
  }

  /** Acknowledgement soundness: an acknowledged request has its signed release on disk
      and the channel has reached its sequence. */
  lemma AcknowledgedIsPublished(w: World, p0: Pub, steps: seq<Step>, repo: string, tag: string)
    requires w.Sane() && Init(p0) && Runs(w, p0, steps)
    ensures var p := After(w, p0, steps);
            (repo, tag) in p.acks ==> ChannelCovers(w.c, p, w.Name(Req(repo, tag, p.acks[(repo, tag)])))
  {
    InitInv(w, p0);
    HistoryKeepsInv(w, p0, steps);
  }
}
