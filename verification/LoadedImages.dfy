/** From the image that was exported to the image that a device reports as loaded. */
module LoadedImages {
  import opened Common
  import opened Format
  import opened LoadProof
  import opened Protocol
  import P = Publisher
  import D = Reconcile
  import DS = ReconcileSafety

  /** Some envelope verifies to this manifest. */
  ghost predicate Authentic(c: Codec, signed: Signed) {
    exists envelope :: Verified(c, envelope, D.LIMIT) == Some(signed)
  }

  /** Every proof in the Docker log is of a manifest that was signed. */
  ghost predicate AllAuthentic(c: Codec, events: seq<D.Event>) {
    forall k | 0 <= k < |events| && events[k].Proved? :: Authentic(c, events[k].signed)
  }

  lemma StepKeepsAuthentic(c: Codec, s: D.Sys, step: D.Step)
    requires DS.RunOk(c, s) && AllAuthentic(c, s.events) && D.Enabled(c, s, step)
    ensures AllAuthentic(c, D.Next(c, s, step).events)
  {
    var s' := D.Next(c, s, step);
    if step.Prove? {
      assert Verified(c, s.disk.manifests[s.run.signed.digest], D.LIMIT) == Some(s.run.signed);
      forall k | 0 <= k < |s'.events| && s'.events[k].Proved? ensures Authentic(c, s'.events[k].signed) {
        if k < |s.events| { assert s'.events[k] == s.events[k]; }
      }
    } else if !step.DockerLoad? {
      OtherStepsKeepLog(c, s, step);
    }
  }

  lemma OtherStepsKeepLog(c: Codec, s: D.Sys, step: D.Step)
    requires D.Enabled(c, s, step) && !step.Prove? && !step.DockerLoad?
    ensures D.Next(c, s, step).events == s.events
  {
  }

  lemma {:induction false} RunKeepsAuthentic(w: P.World, n: Net, moves: seq<Move>)
    requires Sane(w) && Inv(w, n) && AllAuthentic(w.c, n.dev.events) && Runs(w, n, moves)
    ensures Inv(w, After(w, n, moves)) && AllAuthentic(w.c, After(w, n, moves).dev.events)
    decreases |moves|
  {
    if moves != [] {
      MoveKeepsInv(w, n, moves[0]);
      if moves[0].DevMove? { StepKeepsAuthentic(w.c, n.dev, moves[0].d); }
      RunKeepsAuthentic(w, Next(w, n, moves[0]), moves[1..]);
    }
  }

  /** In a sound state that reports "loaded", some proof in the log is of the very manifest
      that the journal has accepted. */
  lemma LoadedIsProved(c: Codec, s: D.Sys) returns (signed: Signed, k: nat)
    requires DS.Binding(c) && DS.Inv(c, s) && AllAuthentic(c, s.events)
    requires s.disk.journal.phase == D.Loaded && s.disk.journal.digest != ""
    ensures s.disk.journal.digest in s.disk.manifests
    ensures Verified(c, s.disk.manifests[s.disk.journal.digest], D.LIMIT) == Some(signed)
    ensures signed.digest == s.disk.journal.digest && signed.manifest.sequence == s.disk.journal.sequence > 0
    ensures 0 < k < |s.events| && s.events[k].Proved? && s.events[k].signed == signed
    ensures DS.ProofOk(c, s.events[k - 1], s.events[k])
  {
    signed := DS.Held(c, s.disk).value;
    k :| 0 <= k < |s.events| && s.events[k].Proved? && s.events[k].signed.digest == signed.digest;
    var envelope :| Verified(c, envelope, D.LIMIT) == Some(s.events[k].signed);
  }

  lemma ProofNames(c: Codec, load: D.Event, e: D.Event, input: Bytes, id: string)
    requires e.Proved? && DS.ProofOk(c, load, e) && e.signed.manifest.imageIDs == [id]
    requires e.signed.manifest.artifactSha == c.sha(input)
    ensures load == D.Invoked(e.signed, e.archive)
    ensures e.refs != [] && forall ref | ref in e.refs :: e.saved(ref) == Some(id)
    ensures c.Injective({e.archive, input}) ==> e.archive == input
  {
  }

  lemma HeldJob(w: P.World, n: Net, signed: Signed) returns (job: P.Job)
    requires Sane(w) && Inv(w, n) && n.dev.disk.journal.sequence == signed.manifest.sequence > 0
    requires n.dev.disk.journal.digest == signed.digest && signed.digest in n.dev.disk.manifests
    requires Verified(w.c, n.dev.disk.manifests[signed.digest], D.LIMIT) == Some(signed)
    ensures PublishedAs(w, n.pub, signed.digest, job)
    ensures signed.manifest.imageIDs == [job.imageID] && signed.manifest.artifactSha == w.c.sha(job.input)
  {
    job := OfferedJob(w, n.pub, signed, n.dev.disk.manifests[signed.digest]);
  }

  /** End to end, for the image: whenever a device reports "loaded", its Docker log holds a
      load of the archive that the manifest describes, right before a proof that is not
      empty and in which every image Docker reported saves back to exactly the image that
      the publisher exported for this release. */
  lemma LoadedIsTheImage(w: P.World, n: Net, moves: seq<Move>) returns (job: P.Job, k: nat)
    requires Sane(w) && Init(n) && Runs(w, n, moves)
    requires After(w, n, moves).dev.disk.journal.phase == D.Loaded && After(w, n, moves).dev.disk.journal.digest != ""
    ensures var n' := After(w, n, moves);
            var events, digest := n'.dev.events, n'.dev.disk.journal.digest;
            && PublishedAs(w, n'.pub, digest, job)
            && 0 < k < |events| && events[k].Proved? && events[k].signed.digest == digest
            && events[k - 1] == D.Invoked(events[k].signed, events[k].archive)
            && events[k].signed.manifest.imageIDs == [job.imageID]
            && events[k].refs != [] && (forall ref | ref in events[k].refs :: events[k].saved(ref) == Some(job.imageID))
            && (w.c.Injective({events[k].archive, job.input}) ==> events[k].archive == job.input)
  {
    InitInv(w, n);
    RunKeepsAuthentic(w, n, moves);
    var n' := After(w, n, moves);
    var signed;
    signed, k := LoadedIsProved(w.c, n'.dev);
    job := HeldJob(w, n', signed);
    ProofNames(w.c, n'.dev.events[k - 1], n'.dev.events[k], job.input, job.imageID);
  }
}
