/** `Trigger`, `promote`, `nextSequence` and `Acknowledge` as a state machine over
    their durable steps, for one writer. `Halt` ends a publication between any two
    steps and stands for a crash and for every error return. */
module Publisher {
  import opened Common
  import opened Chunker
  import opened Split
  import opened Format
  import opened Publish
  import opened Naming
  import Gear

  const SEQUENCES := 0x1_0000_0000_0000_0000

  /** What the publisher works with: the codec and table, its configuration, and the
      finite sets of encodings and requests that ever occur. */
  datatype World = World(
    c: Codec, g: Gear.Table, prefix: string, registry: string, params: Params,
    identity: string -> string, encodings: set<Bytes>, requests: set<Req>)
  {
    /** The hypotheses: signing can be undone, and no digests collide among the
        encodings and among the request identities that occur. */
    ghost predicate Sane() {
      && params.Legal() && c.Injective(encodings)
      && (forall m {:trigger c.seal(m)} :: c.SealsFaithfully(m))
      && (forall q | q in requests :: NoNul(q.repo) && IsImageID(q.digest) && IsDigest(identity(Identity(q))))
      && (forall p, q | p in requests && q in requests && identity(Identity(p)) == identity(Identity(q)) ::
            Identity(p) == Identity(q))
    }

    function Name(q: Req): (r: string) {
      ReleaseName(prefix, identity, q)
    }

    function Source(q: Req): (r: string) {
      "registry://" + registry + "/" + q.repo + "@" + q.digest
    }

    function ManifestFor(j: Job): (m: Manifest)
      requires params.Legal()
    {
      ManifestOf(c, g, Options(Name(j.req), j.seqno, "docker-archive", Source(j.req), [j.imageID], params), j.input)
    }
  }

  /** One publication: what was asked, what was exported, the allocated sequence. */
  datatype Job = Job(req: Req, input: Bytes, imageID: string, seqno: nat)

  datatype Pc = Idle | Asked | Exported | Allocated | ReleaseReady | Promoted | SequenceClash | IdentityMismatch

  /** Files of the publication root and of the watcher; `made` records which job
      wrote each release file. */
  datatype Pub = Pub(
    seqFile: nat, blobs: map<string, Bytes>, releases: map<string, Bytes>, channel: Option<Bytes>,
    acks: map<(string, string), string>, made: map<string, Job>,
    pc: Pc, job: Job, written: nat, envelope: Bytes)

  datatype Step =
    | Request(req: Req) | Reuse | Export(input: Bytes, imageID: string) | Allocate | PutBlob
    | WriteRelease | Promote | Ack | Halt

  ghost predicate Init(p: Pub) {
    && p.seqFile == 0 && p.blobs == map[] && p.releases == map[] && p.channel == None
    && p.acks == map[] && p.made == map[] && p.pc == Idle
  }

  /** The sequence a file was signed with, 0 if it does not verify. */
  ghost function SeqOf(c: Codec, file: Bytes): (n: nat) {
    var v := Verified(c, file, PUBLISH_LIMIT);
    if v.Some? then v.value.manifest.sequence else 0
  }

  ghost predicate Matches(w: World, p: Pub, file: Bytes) {
    var v := Verified(w.c, file, PUBLISH_LIMIT);
    && v.Some? && v.value.manifest.release == w.Name(p.job.req)
    && v.value.manifest.source == w.Source(p.job.req) && v.value.manifest.kind == "docker-archive"
  }

  /** promote: never backwards, and a different envelope of equal sequence is an error. */
  ghost function Promotion(c: Codec, p: Pub): (p': Pub) {
    if p.channel == None then p.(channel := Some(p.envelope), pc := Promoted)
    else if p.channel.value == p.envelope then p.(pc := Promoted)
    else
      var was, next := Verified(c, p.channel.value, PUBLISH_LIMIT), Verified(c, p.envelope, PUBLISH_LIMIT);
      if was.None? || next.None? then p.(pc := Idle)
      else if was.value.manifest.sequence > next.value.manifest.sequence then p.(pc := Promoted)
      else if was.value.manifest.sequence == next.value.manifest.sequence then p.(pc := SequenceClash)
      else p.(channel := Some(p.envelope), pc := Promoted)
  }

  ghost predicate Enabled(w: World, p: Pub, step: Step)
    requires w.params.Legal()
  {
    var name := w.Name(p.job.req);
    match step
    case Request(req) => p.pc == Idle && req in w.requests
    case Reuse => p.pc == Asked && name in p.releases
    case Export(_, _) => p.pc == Asked && name !in p.releases
    case Allocate => p.pc == Exported && p.seqFile + 1 < SEQUENCES
    case PutBlob => p.pc == Allocated && p.written < |w.ManifestFor(p.job).chunks|
                    && w.c.gzip(w.params.Rule(w.g).Chunks(p.job.input)[p.written]) in w.encodings
    case WriteRelease => p.pc == Allocated && p.written == |w.ManifestFor(p.job).chunks|
                         && Verified(w.c, w.c.seal(w.ManifestFor(p.job)), PUBLISH_LIMIT).Some?
                         && (name in p.releases ==> p.releases[name] == w.c.seal(w.ManifestFor(p.job)))
    case Promote => p.pc == ReleaseReady
    case Ack => p.pc == Promoted
    case Halt => true
  }

  ghost function Next(w: World, p: Pub, step: Step): (p': Pub)
    requires w.params.Legal() && Enabled(w, p, step)
  {
    var name := w.Name(p.job.req);
    match step
    case Request(req) => p.(pc := Asked, job := Job(req, [], "", 0))
    case Reuse =>
      if Matches(w, p, p.releases[name]) then p.(pc := ReleaseReady, envelope := p.releases[name])
      else p.(pc := IdentityMismatch)
    case Export(input, imageID) => p.(pc := Exported, job := p.job.(input := input, imageID := imageID))
    case Allocate => p.(pc := Allocated, seqFile := p.seqFile + 1, job := p.job.(seqno := p.seqFile + 1), written := 0)
    case PutBlob =>
      var enc := w.c.gzip(w.params.Rule(w.g).Chunks(p.job.input)[p.written]);
      p.(blobs := p.blobs[w.c.sha(enc) := enc], written := p.written + 1)
    case WriteRelease =>
      var envelope := w.c.seal(w.ManifestFor(p.job));
      p.(pc := ReleaseReady, envelope := envelope,
         releases := p.releases[name := envelope], made := p.made[name := p.job])
    case Promote => Promotion(w.c, p)
    case Ack => p.(pc := Idle, acks := p.acks[(p.job.req.repo, p.job.req.tag) := p.job.req.digest])
    case Halt => p.(pc := Idle)
  }

  ghost predicate Runs(w: World, p: Pub, steps: seq<Step>)
    requires w.params.Legal()
    decreases |steps|
  {
    steps == [] || (Enabled(w, p, steps[0]) && Runs(w, Next(w, p, steps[0]), steps[1..]))
  }

  ghost function After(w: World, p: Pub, steps: seq<Step>): (p': Pub)
    requires w.params.Legal() && Runs(w, p, steps)
    decreases |steps|
  {
    if steps == [] then p else After(w, Next(w, p, steps[0]), steps[1..])
  }
}
