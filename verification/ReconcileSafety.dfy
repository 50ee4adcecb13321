/** What every step of Sync keeps, and what follows for whole histories of runs. */
module ReconcileSafety {
  import opened Common
  import opened Split
  import opened Format
  import opened Publish
  import opened Assembly
  import opened LoadProof
  import opened Reconcile

  /** A payload digest names one signed manifest: no collision among signed payloads. */
  ghost predicate Binding(c: Codec) {
    forall a, b {:trigger Verified(c, a, LIMIT), Verified(c, b, LIMIT)} ::
      var v, w := Verified(c, a, LIMIT), Verified(c, b, LIMIT);
      v.Some? && w.Some? && v.value.digest == w.value.digest ==> v == w
  }

  /** The stored envelope of this digest verifies to it. */
  ghost predicate Backs(c: Codec, manifests: map<string, Bytes>, signed: Signed) {
    signed.digest in manifests && Verified(c, manifests[signed.digest], LIMIT) == Some(signed)
  }

  /** The manifest the journal has accepted. */
  ghost predicate Holds(c: Codec, d: Disk, signed: Signed) {
    && Backs(c, d.manifests, signed)
    && d.journal.digest == signed.digest && d.journal.sequence == signed.manifest.sequence
    && d.journal.release == signed.manifest.release && d.journal.artifact == signed.manifest.artifactSha
  }

  ghost function Held(c: Codec, d: Disk): (v: Option<Signed>) {
    if d.journal.digest in d.manifests then Verified(c, d.manifests[d.journal.digest], LIMIT) else None
  }

  ghost predicate JournalOk(c: Codec, d: Disk) {
    var j := d.journal;
    if j.sequence == 0 then j.digest == "" && j.phase == NoPhase && j.loaded == ""
    else
      && Held(c, d).Some? && Holds(c, d, Held(c, d).value)
      && (j.phase == Loaded ==> j.loaded == j.digest)
      && (j.phase in {Staged, Loaded} ==> ArchiveValid(c, d.staged, Held(c, d).value.manifest))
  }

  /** Every proof in the Docker log was made right after loading the archive that
      the manifest describes, and accounts for exactly the signed image IDs. */
  ghost predicate ProofOk(c: Codec, load: Event, e: Event)
    requires e.Proved?
  {
    && load == Invoked(e.signed, e.archive)
    && |e.archive| == e.signed.manifest.artifactSize && c.sha(e.archive) == e.signed.manifest.artifactSha
    && Proves(e.refs, e.saved, e.signed.manifest.imageIDs)
  }

  ghost predicate LogOk(c: Codec, events: seq<Event>) {
    forall j | 0 <= j < |events| && events[j].Proved? :: j > 0 && ProofOk(c, events[j - 1], events[j])
  }

  ghost predicate ProvedIn(events: seq<Event>, digest: string) {
    exists j | 0 <= j < |events| :: events[j].Proved? && events[j].signed.digest == digest
  }

  lemma AppendEvent(c: Codec, events: seq<Event>, e: Event)
    requires LogOk(c, events)
    requires e.Proved? ==> events != [] && ProofOk(c, events[|events| - 1], e)
    ensures LogOk(c, events + [e])
    ensures forall d | ProvedIn(events, d) :: ProvedIn(events + [e], d)
    ensures e.Proved? ==> ProvedIn(events + [e], e.signed.digest)
  {
    var all := events + [e];
    assert forall j | 0 <= j < |events| :: all[j] == events[j];
    assert all[|events|] == e;
  }

  ghost predicate RunOk(c: Codec, s: Sys) {
    var r, d := s.run, s.disk;
    match s.pc
    case Idle => true
    case Rollback => true
    case Equivocation => true
    case Begun => r.before == d.journal && 0 < r.o.maxArtifact <= LIMIT
    case Received => r.before == d.journal && 0 < r.o.maxArtifact <= LIMIT
    case Accepted => r.before == d.journal && Judgement(c, s)
    case ManifestStored => r.before == d.journal && Judgement(c, s) && Backs(c, d.manifests, r.signed)
    case Journaled => Holds(c, d, r.signed) && d.journal.phase == Planning
    case Planned => Holds(c, d, r.signed) && d.journal.phase == Planning && Flag(c, s)
    case FetchingPc => Holds(c, d, r.signed) && d.journal.phase == Fetching && Flag(c, s)
    case AssemblingPc => Holds(c, d, r.signed) && d.journal.phase == Assembling && Flag(c, s)
    case ArchiveReady => Holds(c, d, r.signed) && d.journal.phase == Assembling && Have(c, s)
    case MarkerCleared => Holds(c, d, r.signed) && d.journal.phase == Loading && Have(c, s) && d.journal.loaded == ""
    case DockerLoaded => Holds(c, d, r.signed) && d.journal.phase == Loading && Have(c, s) && d.journal.loaded == ""
                         && s.events != []
                         && s.events[|s.events| - 1] == Invoked(r.signed, d.staged[r.signed.manifest.artifactSha])
    case IdentityProved => Holds(c, d, r.signed) && d.journal.phase == Loading && Have(c, s) && d.journal.loaded == ""
                           && ProvedIn(s.events, r.signed.digest)
  }

  ghost predicate Judgement(c: Codec, s: Sys) {
    var was, m := s.run.before, s.run.signed.manifest;
    && Verified(c, s.run.envelope, LIMIT) == Some(s.run.signed)
    && m.sequence >= was.sequence
    && (m.sequence == was.sequence && was.digest != "" ==> s.run.signed.digest == was.digest)
  }

  ghost predicate Flag(c: Codec, s: Sys) {
    s.run.archiveValid ==> Have(c, s)
  }

  ghost predicate Have(c: Codec, s: Sys) {
    ArchiveValid(c, s.disk.staged, s.run.signed.manifest)
  }

  ghost predicate Inv(c: Codec, s: Sys) {
    && JournalOk(c, s.disk)
    && LogOk(c, s.events)
    && (s.disk.journal.loaded != "" ==> ProvedIn(s.events, s.disk.journal.loaded))
    && RunOk(c, s)
  }

  /** The anti-rollback relation between an earlier and a later journal: the sequence
      never decreases, and one sequence keeps one digest. */
  ghost predicate Advances(j: Journal, k: Journal) {
    j.sequence <= k.sequence && (j.sequence == k.sequence && j.digest != "" ==> j.digest == k.digest)
  }

  lemma InitInv(c: Codec, s: Sys)
    requires Init(s)
    ensures Inv(c, s)
  {
  }

  // ------------------------------------------------------------- one step at a time

  /** The journal stays in order while it, the envelopes and any archive it vouches
      for are left alone. */
  lemma JournalFrame(c: Codec, d: Disk, d': Disk)
    requires JournalOk(c, d) && d'.journal == d.journal && d'.manifests == d.manifests
    requires d'.staged == d.staged || d.journal.phase !in {Staged, Loaded}
    ensures JournalOk(c, d')
  {
    assert Held(c, d') == Held(c, d);
  }

  lemma ReadSteps(c: Codec, s: Sys, step: Step)
    requires Inv(c, s) && Enabled(c, s, step)
    requires step.Begin? || step.ReadOffline? || step.Receive? || step.NotModified? || step.Stop? || step.Rot?
    ensures Inv(c, Next(c, s, step)) && Next(c, s, step).disk.journal == s.disk.journal
  {
    JournalFrame(c, s.disk, Next(c, s, step).disk);
  }

  lemma JudgeStep(c: Codec, s: Sys)
    requires Inv(c, s) && Enabled(c, s, Judge)
    ensures Inv(c, Next(c, s, Judge)) && Next(c, s, Judge).disk == s.disk
  {
    if Verified(c, s.run.envelope, s.run.o.maxArtifact).Some? {
      VerifiedMonotone(c, s.run.envelope, s.run.o.maxArtifact, LIMIT);
    }
  }

  lemma StoreStep(c: Codec, s: Sys)
    requires Binding(c) && Inv(c, s) && Enabled(c, s, StoreManifest)
    ensures Inv(c, Next(c, s, StoreManifest)) && Next(c, s, StoreManifest).disk.journal == s.disk.journal
  {
    var s' := Next(c, s, StoreManifest);
    assert Backs(c, s'.disk.manifests, s.run.signed);
    assert Held(c, s'.disk) == Held(c, s.disk) || s.disk.journal.digest == "";
  }

  lemma JournalStep(c: Codec, s: Sys)
    requires Inv(c, s) && Enabled(c, s, WritePlanning)
    ensures Inv(c, Next(c, s, WritePlanning))
    ensures Advances(s.disk.journal, Next(c, s, WritePlanning).disk.journal)
  {
    var s' := Next(c, s, WritePlanning);
    assert Held(c, s'.disk) == Some(s.run.signed);
  }

  lemma FetchSteps(c: Codec, s: Sys, step: Step)
    requires Inv(c, s) && Enabled(c, s, step)
    requires step.Plan? || step.WriteFetching? || step.Commit? || step.WriteAssembling?
    ensures Inv(c, Next(c, s, step)) && Advances(s.disk.journal, Next(c, s, step).disk.journal)
  {
    var s' := Next(c, s, step);
    assert Held(c, s'.disk) == Held(c, s.disk);
  }

  lemma StageStep(c: Codec, s: Sys)
    requires Inv(c, s) && Enabled(c, s, Stage)
    ensures Inv(c, Next(c, s, Stage)) && Next(c, s, Stage).disk.journal == s.disk.journal
  {
    JournalFrame(c, s.disk, Next(c, s, Stage).disk);
  }

  lemma FinishSteps(c: Codec, s: Sys, step: Step)
    requires Inv(c, s) && Enabled(c, s, step)
    requires step.FinishStaged? || step.SkipLoad? || step.ClearMarker? || step.FinishLoaded?
    ensures Inv(c, Next(c, s, step)) && Advances(s.disk.journal, Next(c, s, step).disk.journal)
  {
    var s' := Next(c, s, step);
    assert Held(c, s'.disk) == Held(c, s.disk) == Some(s.run.signed);
  }

  lemma DockerSteps(c: Codec, s: Sys, step: Step)
    requires Inv(c, s) && Enabled(c, s, step)
    requires step.DockerLoad? || step.Prove?
    ensures Inv(c, Next(c, s, step)) && Next(c, s, step).disk.journal == s.disk.journal
  {
    var s', archive := Next(c, s, step), s.disk.staged[s.run.signed.manifest.artifactSha];
    if step.DockerLoad? {
      AppendEvent(c, s.events, Invoked(s.run.signed, archive));
    } else {
      AppendEvent(c, s.events, Proved(s.run.signed, archive, step.refs, step.saved));
    }
    assert Held(c, s'.disk) == Held(c, s.disk);
  }

  lemma StepKeepsInv(c: Codec, s: Sys, step: Step)
    requires Binding(c) && Inv(c, s) && Enabled(c, s, step)
    ensures Inv(c, Next(c, s, step))
    ensures Advances(s.disk.journal, Next(c, s, step).disk.journal)
  {
    if step.StoreManifest? {
      StoreStep(c, s);
    } else if step.Judge? {
      JudgeStep(c, s);
    } else if step.WritePlanning? {
      JournalStep(c, s);
    } else if step.Plan? || step.WriteFetching? || step.Commit? || step.WriteAssembling? {
      FetchSteps(c, s, step);
    } else if step.Stage? {
      StageStep(c, s);
    } else if step.FinishStaged? || step.SkipLoad? || step.ClearMarker? || step.FinishLoaded? {
      FinishSteps(c, s, step);
    } else if step.DockerLoad? || step.Prove? {
      DockerSteps(c, s, step);
    } else {
      ReadSteps(c, s, step);
    }
  }

  // --------------------------------------------------------------- whole histories

  /** Over any history of runs, crashes and adversarial replies the invariant holds,
      the accepted sequence never decreases and keeps its digest. */
  lemma {:induction false} AntiRollback(c: Codec, s: Sys, steps: seq<Step>)
    requires Binding(c) && Inv(c, s) && Runs(c, s, steps)
    ensures Inv(c, After(c, s, steps))
    ensures Advances(s.disk.journal, After(c, s, steps).disk.journal)
    decreases |steps|
  {
    if steps != [] {
      StepKeepsInv(c, s, steps[0]);
      AntiRollback(c, Next(c, s, steps[0]), steps[1..]);
    }
  }

  /** What a device that started fresh can rely on in every durable state: the
      accepted digest has a stored envelope that verifies to it; a non-empty marker
      names a manifest that was loaded and proved; "loaded" means the marker is the
      accepted digest; and a finished phase means a verified archive is staged. */
  lemma DurableStateIsSound(c: Codec, s0: Sys, steps: seq<Step>)
    requires Binding(c) && Init(s0) && Runs(c, s0, steps)
    ensures var s := After(c, s0, steps);
            var j := s.disk.journal;
            && (j.sequence > 0 ==> Held(c, s.disk).Some? && Holds(c, s.disk, Held(c, s.disk).value))
            && (j.loaded != "" ==> exists k | 0 < k < |s.events| ::
                  s.events[k].Proved? && s.events[k].signed.digest == j.loaded
                  && ProofOk(c, s.events[k - 1], s.events[k]))
            && (j.phase == Loaded ==> j.loaded == j.digest)
            && (j.phase in {Staged, Loaded} ==>
                 Held(c, s.disk).Some?
                 && ArchiveValid(c, s.disk.staged, Held(c, s.disk).value.manifest))
  {
    AntiRollback(c, s0, steps);
    var s := After(c, s0, steps);
    if s.disk.journal.loaded != "" {
      var k :| 0 <= k < |s.events| && s.events[k].Proved? && s.events[k].signed.digest == s.disk.journal.loaded;
      assert 0 < k && ProofOk(c, s.events[k - 1], s.events[k]);
    }
  }

  // ------------------------------------------------------------ no second Docker load

  /** Import of `done` is complete and can never be needed again. */
  ghost predicate Finished(c: Codec, s: Sys, done: Signed) {
    var j := s.disk.journal;
    && done.digest != "" && Backs(c, s.disk.manifests, done)
    && j.sequence >= done.manifest.sequence
    && (j.sequence == done.manifest.sequence ==> j.digest == done.digest == j.loaded)
  }

  ghost predicate LoadsOnly(before: seq<Event>, after: seq<Event>, digest: string) {
    before <= after && forall k | |before| <= k < |after| && after[k].Invoked? :: after[k].signed.digest != digest
  }

  predicate Quiet(step: Step) {
    !(step.StoreManifest? || step.WritePlanning? || step.ClearMarker? || step.FinishLoaded?
      || step.DockerLoad? || step.Prove?)
  }

  lemma QuietStep(c: Codec, s: Sys, step: Step)
    requires Enabled(c, s, step) && Quiet(step)
    ensures var s' := Next(c, s, step);
            && s'.events == s.events && s'.disk.manifests == s.disk.manifests
            && s'.disk.journal == s.disk.journal.(phase := s'.disk.journal.phase)
  {
  }

  lemma FinishedJournal(c: Codec, s: Sys, done: Signed)
    requires Inv(c, s) && Finished(c, s, done)
    ensures Held(c, s.disk).Some? && Holds(c, s.disk, Held(c, s.disk).value)
    ensures s.disk.journal.digest == done.digest ==> s.disk.journal.sequence == done.manifest.sequence
  {
    assert done.manifest.sequence != 0;
  }

  lemma FinishedStays(c: Codec, s: Sys, step: Step, done: Signed)
    requires Binding(c) && Inv(c, s) && Enabled(c, s, step) && Finished(c, s, done)
    ensures Finished(c, Next(c, s, step), done)
    ensures LoadsOnly(s.events, Next(c, s, step).events, done.digest)
  {
    FinishedJournal(c, s, done);
    if Quiet(step) {
      QuietStep(c, s, step);
    } else if step.StoreManifest? || step.WritePlanning? {
      FinishedAccept(c, s, step, done);
    } else {
      FinishedImport(c, s, step, done);
    }
  }

  lemma FinishedAccept(c: Codec, s: Sys, step: Step, done: Signed)
    requires Binding(c) && Inv(c, s) && Enabled(c, s, step) && Finished(c, s, done)
    requires step.StoreManifest? || step.WritePlanning?
    ensures Finished(c, Next(c, s, step), done) && Next(c, s, step).events == s.events
  {
  }

  lemma FinishedImport(c: Codec, s: Sys, step: Step, done: Signed)
    requires Inv(c, s) && Enabled(c, s, step) && Finished(c, s, done)
    requires step.ClearMarker? || step.FinishLoaded? || step.DockerLoad? || step.Prove?
    ensures Finished(c, Next(c, s, step), done)
    ensures LoadsOnly(s.events, Next(c, s, step).events, done.digest)
  {
    FinishedJournal(c, s, done);
    assert s.disk.journal.sequence != done.manifest.sequence;
  }

  /** Once completion for a digest is durable, no later run in any history invokes
      Docker load for that digest again. */
  lemma {:induction false} NeverLoadedAgain(c: Codec, s: Sys, steps: seq<Step>, done: Signed)
    requires Binding(c) && Inv(c, s) && Runs(c, s, steps) && Finished(c, s, done)
    ensures LoadsOnly(s.events, After(c, s, steps).events, done.digest)
    decreases |steps|
  {
    if steps != [] {
      FinishedStays(c, s, steps[0], done);
      StepKeepsInv(c, s, steps[0]);
      NeverLoadedAgain(c, Next(c, s, steps[0]), steps[1..], done);
    }
  }

  /** A durable "loaded" phase is such a completion. */
  lemma LoadedIsFinished(c: Codec, s: Sys)
    requires Inv(c, s) && s.disk.journal.phase == Loaded && s.disk.journal.digest != ""
    ensures Held(c, s.disk).Some? && Finished(c, s, Held(c, s.disk).value)
  {
  }

  /** From a fresh device: after a run has recorded "loaded", no continuation of its
      history loads the same digest again. */
  lemma LoadedOnce(c: Codec, s0: Sys, steps: seq<Step>, more: seq<Step>)
    requires Binding(c) && Init(s0) && Runs(c, s0, steps) && Runs(c, After(c, s0, steps), more)
    requires var j := After(c, s0, steps).disk.journal; j.phase == Loaded && j.digest != ""
    ensures var s := After(c, s0, steps);
            LoadsOnly(s.events, After(c, s, more).events, s.disk.journal.digest)
  {
    AntiRollback(c, s0, steps);
    var s := After(c, s0, steps);
    LoadedIsFinished(c, s);
    NeverLoadedAgain(c, s, more, Held(c, s.disk).value);
  }
}
