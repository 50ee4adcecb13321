/** Publisher and device together. Moves of the two interleave freely; the device
    receives manifests only by reading the channel file. */
module Protocol {
  import opened Common
  import opened Format
  import opened Publish
  import opened Assembly
  import P = Publisher
  import PS = PublisherSafety
  import D = Reconcile
  import DS = ReconcileSafety

  datatype Net = Net(pub: P.Pub, dev: D.Sys)

  datatype Move = PubMove(p: P.Step) | DevMove(d: D.Step)

  ghost predicate Sane(w: P.World) {
    w.Sane() && DS.Binding(w.c)
  }

  ghost predicate Init(n: Net) {
    P.Init(n.pub) && D.Init(n.dev)
  }

  /** A body is whatever the channel holds when it is read; a 304, an error and a
      crash may come at any time. */
  ghost predicate Enabled(w: P.World, n: Net, move: Move)
    requires w.params.Legal()
  {
    match move
    case PubMove(p) => P.Enabled(w, n.pub, p)
    case DevMove(d) => D.Enabled(w.c, n.dev, d) && (d.Receive? ==> n.pub.channel == Some(d.body))
  }

  ghost function Next(w: P.World, n: Net, move: Move): (n': Net)
    requires w.params.Legal() && Enabled(w, n, move)
  {
    match move
    case PubMove(p) => n.(pub := P.Next(w, n.pub, p))
    case DevMove(d) => n.(dev := D.Next(w.c, n.dev, d))
  }

  ghost predicate Runs(w: P.World, n: Net, moves: seq<Move>)
    requires w.params.Legal()
    decreases |moves|
  {
    moves == [] || (Enabled(w, n, moves[0]) && Runs(w, Next(w, n, moves[0]), moves[1..]))
  }

  ghost function After(w: P.World, n: Net, moves: seq<Move>): (n': Net)
    requires w.params.Legal() && Runs(w, n, moves)
    decreases |moves|
  {
    if moves == [] then n else After(w, Next(w, n, moves[0]), moves[1..])
  }

  // -------------------------------------------------------------------- the link

  /** The channel has reached this sequence. */
  ghost predicate Reached(c: Codec, pub: P.Pub, sequence: nat) {
    pub.channel.Some? && P.SeqOf(c, pub.channel.value) >= sequence
  }

  /** This file is a release and verifies to this digest and sequence. */
  ghost predicate IsRelease(c: Codec, pub: P.Pub, file: Bytes, digest: string, sequence: nat) {
    && file in pub.releases.Values
    && Verified(c, file, D.LIMIT).Some? && Verified(c, file, D.LIMIT).value.digest == digest
    && P.SeqOf(c, file) == sequence == Verified(c, file, D.LIMIT).value.manifest.sequence
  }

  /** The publisher made this digest at this sequence, and the channel has reached it. */
  ghost predicate Offered(c: Codec, pub: P.Pub, digest: string, sequence: nat) {
    Reached(c, pub, sequence) && exists file :: IsRelease(c, pub, file, digest, sequence)
  }

  /** What a device may be holding in its hands right after a reply. */
  ghost predicate Honest(c: Codec, pub: P.Pub, dev: D.Sys) {
    var e, was, v := dev.run.envelope, dev.run.before, Verified(c, dev.run.envelope, D.LIMIT);
    || (e in pub.releases.Values && P.SeqOf(c, e) >= was.sequence && Reached(c, pub, P.SeqOf(c, e)))
    || (was.sequence > 0 && v.Some? && v.value.digest == was.digest && v.value.manifest.sequence == was.sequence)
  }

  ghost predicate Linked(c: Codec, pub: P.Pub, dev: D.Sys) {
    var j := dev.disk.journal;
    && (j.sequence > 0 ==> Offered(c, pub, j.digest, j.sequence))
    && (dev.pc == D.Received ==> Honest(c, pub, dev))
    && (dev.pc in {D.Accepted, D.ManifestStored} ==>
          Offered(c, pub, dev.run.signed.digest, dev.run.signed.manifest.sequence))
    && dev.pc !in {D.Rollback, D.Equivocation}
  }

  ghost predicate Inv(w: P.World, n: Net)
    requires w.params.Legal()
  {
    PS.Inv(w, n.pub) && DS.Inv(w.c, n.dev) && Linked(w.c, n.pub, n.dev)
  }

  // ------------------------------------------------------------- publisher moves

  lemma OfferStays(c: Codec, pub: P.Pub, pub': P.Pub, digest: string, sequence: nat)
    requires PS.Extends(c, pub, pub') && pub.releases.Values <= pub'.releases.Values
    requires Offered(c, pub, digest, sequence)
    ensures Offered(c, pub', digest, sequence)
  {
    var file :| IsRelease(c, pub, file, digest, sequence);
    assert IsRelease(c, pub', file, digest, sequence);
  }

  lemma ValuesGrow(c: Codec, pub: P.Pub, pub': P.Pub)
    requires PS.Extends(c, pub, pub')
    ensures pub.releases.Values <= pub'.releases.Values
  {
    forall b | b in pub.releases.Values ensures b in pub'.releases.Values {
      var n :| n in pub.releases && pub.releases[n] == b;
      assert pub'.releases[n] == b;
    }
  }

  lemma LinkSurvivesPublisher(c: Codec, pub: P.Pub, pub': P.Pub, dev: D.Sys)
    requires PS.Extends(c, pub, pub') && Linked(c, pub, dev)
    ensures Linked(c, pub', dev)
  {
    ValuesGrow(c, pub, pub');
    var j, s := dev.disk.journal, dev.run.signed;
    if j.sequence > 0 { OfferStays(c, pub, pub', j.digest, j.sequence); }
    if dev.pc in {D.Accepted, D.ManifestStored} { OfferStays(c, pub, pub', s.digest, s.manifest.sequence); }
  }

  // ---------------------------------------------------------------- device moves

  lemma ReplyIsHonest(w: P.World, n: Net, step: D.Step)
    requires w.params.Legal() && Inv(w, n) && Enabled(w, n, DevMove(step))
    requires step.ReadOffline? || step.Receive? || step.NotModified?
    ensures Honest(w.c, n.pub, D.Next(w.c, n.dev, step))
  {
  }

  /** The heart of the protocol: an honest envelope passes both checks. */
  lemma JudgeAccepts(w: P.World, n: Net)
    requires PS.ReleasesOk(w, n.pub) && DS.JournalOk(w.c, n.dev.disk) && DS.RunOk(w.c, n.dev)
    requires n.dev.pc == D.Received && Linked(w.c, n.pub, n.dev)
    ensures Linked(w.c, n.pub, D.Judged(w.c, n.dev))
  {
    var c, pub, dev := w.c, n.pub, n.dev;
    var e, was := dev.run.envelope, dev.run.before;
    if Verified(c, e, dev.run.o.maxArtifact).Some? {
      VerifiedMonotone(c, e, dev.run.o.maxArtifact, D.LIMIT);
      var v := Verified(c, e, D.LIMIT).value;
      if e in pub.releases.Values && P.SeqOf(c, e) >= was.sequence && Reached(c, pub, P.SeqOf(c, e)) {
        ReleaseOffered(w, pub, e);
        if v.manifest.sequence == was.sequence && was.digest != "" {
          SameSequenceSameDigest(w, pub, e, was.digest);
        }
      }
    }
  }

  lemma ReleaseOffered(w: P.World, pub: P.Pub, file: Bytes)
    requires PS.ReleasesOk(w, pub) && file in pub.releases.Values && Reached(w.c, pub, P.SeqOf(w.c, file))
    ensures Verified(w.c, file, D.LIMIT).Some?
    ensures var v := Verified(w.c, file, D.LIMIT).value;
            Offered(w.c, pub, v.digest, v.manifest.sequence) && v.manifest.sequence == P.SeqOf(w.c, file)
  {
    PS.ReleaseVerifies(w, pub, file);
    VerifiedMonotone(w.c, file, PUBLISH_LIMIT, D.LIMIT);
    assert IsRelease(w.c, pub, file, Verified(w.c, file, D.LIMIT).value.digest, P.SeqOf(w.c, file));
  }

  lemma SameSequenceSameDigest(w: P.World, pub: P.Pub, e: Bytes, digest: string)
    requires PS.ReleasesOk(w, pub) && e in pub.releases.Values && Offered(w.c, pub, digest, P.SeqOf(w.c, e))
    ensures Verified(w.c, e, D.LIMIT).Some? && Verified(w.c, e, D.LIMIT).value.digest == digest
  {
    var file :| IsRelease(w.c, pub, file, digest, P.SeqOf(w.c, e));
    PS.SequenceIsUnique(w, pub, file, e);
  }

  lemma OtherDeviceMoves(c: Codec, pub: P.Pub, dev: D.Sys, step: D.Step)
    requires Linked(c, pub, dev) && D.Enabled(c, dev, step)
    requires !step.ReadOffline? && !step.Receive? && !step.NotModified? && !step.Judge?
    ensures Linked(c, pub, D.Next(c, dev, step))
  {
    var dev' := D.Next(c, dev, step);
    assert dev'.pc !in {D.Received, D.Rollback, D.Equivocation, D.Accepted} || step.Rot?;
    if step.StoreManifest? || step.WritePlanning? || step.Rot? {
    } else {
      assert dev'.disk.journal.sequence == dev.disk.journal.sequence
             && dev'.disk.journal.digest == dev.disk.journal.digest;
    }
  }

  lemma MoveKeepsInv(w: P.World, n: Net, move: Move)
    requires Sane(w) && Inv(w, n) && Enabled(w, n, move)
    ensures Inv(w, Next(w, n, move))
  {
    match move
    case PubMove(p) =>
      PS.StepKeepsInv(w, n.pub, p);
      LinkSurvivesPublisher(w.c, n.pub, P.Next(w, n.pub, p), n.dev);
    case DevMove(d) =>
      DS.StepKeepsInv(w.c, n.dev, d);
      if d.Judge? {
        JudgeAccepts(w, n);
      } else if d.ReadOffline? || d.Receive? || d.NotModified? {
        ReplyIsHonest(w, n, d);
      } else {
        OtherDeviceMoves(w.c, n.pub, n.dev, d);
      }
  }

  lemma {:induction false} RunKeepsInv(w: P.World, n: Net, moves: seq<Move>)
    requires Sane(w) && Inv(w, n) && Runs(w, n, moves)
    ensures Inv(w, After(w, n, moves))
    decreases |moves|
  {
    if moves != [] {
      MoveKeepsInv(w, n, moves[0]);
      RunKeepsInv(w, Next(w, n, moves[0]), moves[1..]);
    }
  }

  lemma InitInv(w: P.World, n: Net)
    requires Sane(w) && Init(n)
    ensures Inv(w, n)
  {
    PS.InitInv(w, n.pub);
    DS.InitInv(w.c, n.dev);
  }

  // ------------------------------------------------------------------ the theorems

  /** In every interleaving of publisher steps and device runs, with crashes on both
      sides, a device that starts fresh and reads only the channel file never meets
      the rollback or the same-sequence rejection. */
  lemma NeverRejected(w: P.World, n: Net, moves: seq<Move>)
    requires Sane(w) && Init(n) && Runs(w, n, moves)
    ensures After(w, n, moves).dev.pc !in {D.Rollback, D.Equivocation}
  {
    InitInv(w, n);
    RunKeepsInv(w, n, moves);
  }

  /** The job whose archive a digest stands for. */
  ghost predicate PublishedAs(w: P.World, pub: P.Pub, digest: string, job: P.Job) {
    exists name :: name in pub.releases && name in pub.made && pub.made[name] == job
                   && Verified(w.c, pub.releases[name], D.LIMIT).Some?
                   && Verified(w.c, pub.releases[name], D.LIMIT).value.digest == digest
  }

  lemma OfferedJob(w: P.World, pub: P.Pub, signed: Signed, file: Bytes) returns (job: P.Job)
    requires Sane(w) && PS.ReleasesOk(w, pub) && Verified(w.c, file, D.LIMIT) == Some(signed)
    requires Offered(w.c, pub, signed.digest, signed.manifest.sequence)
    ensures PublishedAs(w, pub, signed.digest, job)
    ensures signed.manifest.artifactSha == w.c.sha(job.input) && signed.manifest.artifactSize == |job.input|
    ensures signed.manifest.imageIDs == [job.imageID]
  {
    var rel :| IsRelease(w.c, pub, rel, signed.digest, signed.manifest.sequence);
    var name :| name in pub.releases && pub.releases[name] == rel;
    assert PS.Written(w, pub, name);
    VerifiedMonotone(w.c, rel, PUBLISH_LIMIT, D.LIMIT);
    job := pub.made[name];
  }

  /** End to end: whenever a device reports "staged" or "loaded", the file it has
      staged is byte for byte the archive the publisher exported for that release,
      unless those two archives collide. */
  lemma DeliveredIsPublished(w: P.World, n: Net, moves: seq<Move>) returns (job: P.Job)
    requires Sane(w) && Init(n) && Runs(w, n, moves)
    requires After(w, n, moves).dev.disk.journal.phase in {D.Staged, D.Loaded}
    ensures var n' := After(w, n, moves);
            var j, staged := n'.dev.disk.journal, n'.dev.disk.staged;
            && PublishedAs(w, n'.pub, j.digest, job)
            && j.artifact in staged
            && (w.c.Injective({staged[j.artifact], job.input}) ==> staged[j.artifact] == job.input)
  {
    InitInv(w, n);
    RunKeepsInv(w, n, moves);
    var n' := After(w, n, moves);
    var disk := n'.dev.disk;
    var signed := DS.Held(w.c, disk).value;
    job := OfferedJob(w, n'.pub, signed, disk.manifests[disk.journal.digest]);
  }

  /** Nothing a device still has to fetch is missing at the origin. */
  lemma PendingIsServed(w: P.World, n: Net, moves: seq<Move>, ch: Chunk)
    requires Sane(w) && Init(n) && Runs(w, n, moves)
    requires After(w, n, moves).dev.pc == D.FetchingPc && ch in After(w, n, moves).dev.run.signed.manifest.chunks
    ensures Present(w.c, After(w, n, moves).pub.blobs, ch)
  {
    InitInv(w, n);
    RunKeepsInv(w, n, moves);
    var n' := After(w, n, moves);
    OfferedIsPresent(w, n'.pub, n'.dev.run.signed, n'.dev.disk.manifests[n'.dev.run.signed.digest]);
  }

  lemma OfferedIsPresent(w: P.World, pub: P.Pub, signed: Signed, file: Bytes)
    requires Sane(w) && PS.ReleasesOk(w, pub) && Intact(w.c, pub.blobs, pub.releases)
    requires Verified(w.c, file, D.LIMIT) == Some(signed) && Offered(w.c, pub, signed.digest, signed.manifest.sequence)
    ensures AllPresent(w.c, pub.blobs, signed.manifest.chunks)
  {
    var rel :| IsRelease(w.c, pub, rel, signed.digest, signed.manifest.sequence);
    var name :| name in pub.releases && pub.releases[name] == rel;
    PS.ReleaseVerifies(w, pub, rel);
    VerifiedMonotone(w.c, rel, PUBLISH_LIMIT, D.LIMIT);
    assert Refers(w.c, pub.releases[name]) == signed.manifest.chunks;
  }
}
