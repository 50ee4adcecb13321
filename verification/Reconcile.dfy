/** `Sync` as a state machine over its durable steps. Each write is one atomic step;
    `Stop` ends a run between any two steps and stands for a crash, a cancellation
    and every error return. A write that fails after the rename is the write followed
    by Stop. Network replies are arbitrary. */
module Reconcile {
  import opened Common
  import opened Split
  import opened Format
  import opened Publish
  import opened Assembly
  import opened LoadProof

  /** Largest int64: no run can be configured with a higher artifact limit. */
  const LIMIT := 0x7fff_ffff_ffff_ffff

  datatype Phase = NoPhase | Planning | Fetching | Assembling | Loading | Staged | Loaded

  /** state.json. */
  datatype Journal = Journal(
    sequence: nat, digest: string, url: string, release: string,
    phase: Phase, artifact: string, loaded: string)

  datatype Disk = Disk(
    journal: Journal,
    manifests: map<string, Bytes>, cache: map<string, Bytes>, staged: map<string, Bytes>)

  datatype RunOptions = RunOptions(url: string, offline: bool, dockerLoad: bool, maxArtifact: int)

  /** The local Docker daemon as the agent uses it, in order. */
  datatype Event =
    | Invoked(signed: Signed, archive: Bytes)
    | Proved(signed: Signed, archive: Bytes, refs: seq<string>, saved: string -> Option<string>)

  /** Where a run stands: the name says what it has just done. */
  datatype Pc =
    | Idle | Rollback | Equivocation
    | Begun | Received | Accepted | ManifestStored | Journaled | Planned
    | FetchingPc | AssemblingPc | ArchiveReady | MarkerCleared | DockerLoaded | IdentityProved

  datatype Run = Run(
    o: RunOptions, before: Journal, url: string, envelope: Bytes, signed: Signed,
    pending: seq<Chunk>, archiveValid: bool)

  datatype Sys = Sys(disk: Disk, events: seq<Event>, pc: Pc, run: Run)

  datatype Step =
    | Begin(o: RunOptions) | ReadOffline | Receive(body: Bytes) | NotModified | Judge
    | StoreManifest | WritePlanning | Plan | WriteFetching | Commit(ch: Chunk, body: Bytes)
    | WriteAssembling | Stage | FinishStaged | SkipLoad | ClearMarker | DockerLoad
    | Prove(refs: seq<string>, saved: string -> Option<string>) | FinishLoaded
    | Stop | Rot(cache: map<string, Bytes>)

  const FRESH := Journal(0, "", "", "", NoPhase, "", "")

  ghost predicate Init(s: Sys) {
    s.disk == Disk(FRESH, map[], map[], map[]) && s.events == [] && s.pc == Idle
  }

  // -------------------------------------------------------------------- the steps

  /** The stored envelope of a journal may be offered for revalidation (If-None-Match). */
  ghost predicate HasCopy(c: Codec, j: Journal, manifests: map<string, Bytes>, o: RunOptions) {
    && j.url == o.url && j.digest != "" && j.digest in manifests
    && var v := Verified(c, manifests[j.digest], o.maxArtifact);
       v.Some? && v.value.digest == j.digest
  }

  ghost function Got(s: Sys, url: string, envelope: Bytes): (s': Sys) {
    s.(pc := Received, run := s.run.(url := url, envelope := envelope))
  }

  datatype Rejection = Unverified | OlderSequence | OtherDigest

  /** The signature check and the two anti-rollback rules. */
  ghost function Verdict(c: Codec, was: Journal, o: RunOptions, envelope: Bytes): (r: Result<Signed, Rejection>) {
    var v := Verified(c, envelope, o.maxArtifact);
    if v.None? then Err(Unverified)
    else if v.value.manifest.sequence < was.sequence then Err(OlderSequence)
    else if v.value.manifest.sequence == was.sequence && was.digest != "" && v.value.digest != was.digest
    then Err(OtherDigest)
    else Ok(v.value)
  }

  ghost function Judged(c: Codec, s: Sys): (s': Sys) {
    match Verdict(c, s.run.before, s.run.o, s.run.envelope)
    case Ok(signed) => s.(pc := Accepted, run := s.run.(signed := signed))
    case Err(Unverified) => s.(pc := Idle)
    case Err(OlderSequence) => s.(pc := Rollback)
    case Err(OtherDigest) => s.(pc := Equivocation)
  }

  ghost function WithJournal(s: Sys, j: Journal, pc: Pc): (s': Sys) {
    s.(disk := s.disk.(journal := j), pc := pc)
  }

  ghost function WithPhase(s: Sys, phase: Phase, pc: Pc): (s': Sys) {
    WithJournal(s, s.disk.journal.(phase := phase), pc)
  }

  /** The journal of an accepted manifest. */
  ghost function Recorded(signed: Signed, url: string, loaded: string): (j: Journal) {
    var m := signed.manifest;
    Journal(m.sequence, signed.digest, url, m.release, Planning, m.artifactSha, loaded)
  }

  /** The deduplicated descriptors whose cached file is missing or wrong. */
  ghost function Missing(c: Codec, cache: map<string, Bytes>, cs: seq<Chunk>): (out: seq<Chunk>) {
    if cs == [] then []
    else
      var init := Missing(c, cache, cs[..|cs| - 1]);
      if ValidChunk(c, cache, cs[|cs| - 1]) then init else init + [cs[|cs| - 1]]
  }

  ghost function PlanFetch(c: Codec, s: Sys): (s': Sys) {
    var m := s.run.signed.manifest;
    var missing := Missing(c, s.disk.cache, Unique(m.chunks));
    if s.run.o.offline && missing != [] then s.(pc := Idle)
    else s.(pc := Planned, run := s.run.(pending := missing, archiveValid := ArchiveValid(c, s.disk.staged, m)))
  }

  ghost function Without(cs: seq<Chunk>, ch: Chunk): (out: seq<Chunk>)
    requires ch in cs
  {
    if cs[|cs| - 1] == ch then cs[..|cs| - 1] else Without(cs[..|cs| - 1], ch) + [cs[|cs| - 1]]
  }

  ghost function Staging(c: Codec, s: Sys): (s': Sys) {
    var m := s.run.signed.manifest;
    if s.run.archiveValid then s.(pc := ArchiveReady)
    else if Assembles(c, s.disk.cache, m) then
      s.(pc := ArchiveReady, disk := s.disk.(staged :=
        s.disk.staged[m.artifactSha := Flatten(Files(s.disk.cache, m.chunks))]))
    else s.(pc := Idle)
  }

  ghost predicate MayLoad(s: Sys) {
    s.run.o.dockerLoad && s.run.signed.manifest.kind == "docker-archive" && s.run.signed.manifest.imageIDs != []
  }

  ghost predicate Enabled(c: Codec, s: Sys, step: Step) {
    var r, d := s.run, s.disk;
    match step
    case Begin(o) => s.pc in {Idle, Rollback, Equivocation} && 0 < o.maxArtifact <= LIMIT
    case ReadOffline => s.pc == Begun && r.o.offline && r.before.digest != "" && r.before.digest in d.manifests
                        && (r.o.url == "" || r.o.url == r.before.url)
    case Receive(_) => s.pc == Begun && !r.o.offline
    case NotModified => s.pc == Begun && !r.o.offline && HasCopy(c, r.before, d.manifests, r.o)
    case Judge => s.pc == Received
    case StoreManifest => s.pc == Accepted
    case WritePlanning => s.pc == ManifestStored
    case Plan => s.pc == Journaled
    case WriteFetching => s.pc == Planned
    case Commit(ch, body) => s.pc == FetchingPc && ch in r.pending && Decode(c, body, ch).Ok?
    case WriteAssembling => s.pc == FetchingPc && r.pending == []
    case Stage => s.pc == AssemblingPc
    case FinishStaged => s.pc == ArchiveReady && !r.o.dockerLoad
    case SkipLoad => s.pc == ArchiveReady && MayLoad(s) && d.journal.loaded == r.signed.digest
    case ClearMarker => s.pc == ArchiveReady && MayLoad(s) && d.journal.loaded != r.signed.digest
    case DockerLoad => s.pc == MarkerCleared && r.signed.manifest.artifactSha in d.staged
    case Prove(refs, saved) => s.pc == DockerLoaded && Proves(refs, saved, r.signed.manifest.imageIDs)
                               && r.signed.manifest.artifactSha in d.staged
    case FinishLoaded => s.pc == IdentityProved
    case Stop => true
    case Rot(_) => true
  }

  ghost function Next(c: Codec, s: Sys, step: Step): (s': Sys)
    requires Enabled(c, s, step)
  {
    var r, d := s.run, s.disk;
    match step
    case Begin(o) => s.(pc := Begun, run := r.(o := o, before := d.journal))
    case ReadOffline => Got(s, r.before.url, d.manifests[r.before.digest])
    case Receive(body) => Got(s, r.o.url, body)
    case NotModified => Got(s, r.o.url, d.manifests[r.before.digest])
    case Judge => Judged(c, s)
    case StoreManifest => s.(pc := ManifestStored, disk := d.(manifests := d.manifests[r.signed.digest := r.envelope]))
    case WritePlanning => WithJournal(s, Recorded(r.signed, r.url, r.before.loaded), Journaled)
    case Plan => PlanFetch(c, s)
    case WriteFetching => WithPhase(s, Fetching, FetchingPc)
    case Commit(ch, body) =>
      s.(disk := d.(cache := d.cache[ch.sha := Decode(c, body, ch).value]),
         run := r.(pending := Without(r.pending, ch)))
    case WriteAssembling => WithPhase(s, Assembling, AssemblingPc)
    case Stage => Staging(c, s)
    case FinishStaged => WithPhase(s, Staged, Idle)
    case SkipLoad => WithPhase(s, Loaded, Idle)
    case ClearMarker => WithJournal(s, d.journal.(phase := Loading, loaded := ""), MarkerCleared)
    case DockerLoad =>
      s.(pc := DockerLoaded, events := s.events + [Invoked(r.signed, d.staged[r.signed.manifest.artifactSha])])
    case Prove(refs, saved) =>
      s.(pc := IdentityProved,
         events := s.events + [Proved(r.signed, d.staged[r.signed.manifest.artifactSha], refs, saved)])
    case FinishLoaded => WithJournal(s, d.journal.(phase := Loaded, loaded := r.signed.digest), Idle)
    case Stop => s.(pc := Idle)
    case Rot(cache) => s.(disk := d.(cache := cache))
  }

  /** A finite history: the steps taken from s, each enabled where it is taken. */
  ghost predicate Runs(c: Codec, s: Sys, steps: seq<Step>)
    decreases |steps|
  {
    steps == [] || (Enabled(c, s, steps[0]) && Runs(c, Next(c, s, steps[0]), steps[1..]))
  }

  ghost function After(c: Codec, s: Sys, steps: seq<Step>): (s': Sys)
    requires Runs(c, s, steps)
    decreases |steps|
  {
    if steps == [] then s else After(c, Next(c, s, steps[0]), steps[1..])
  }
}
