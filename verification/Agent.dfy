/** `Sync` as the imperative code it is: one run over the durable files, which stops at
    the first failed write, reply or check. Every run is a history of the state machine
    in Reconcile, so what holds for all histories holds for all sequences of runs. */
module Agent {
  import opened Common
  import opened Split
  import opened Format
  import opened Publish
  import opened Assembly
  import opened LoadProof
  import opened Reconcile
  import Gear
  import FetchPool
  import Resume
  import ReconcileSafety

  datatype Reply = Body(bytes: Bytes) | Unchanged | Unreachable

  /** The places where a run writes. */
  datatype Site = AtManifest | AtPlanning | AtFetching | AtChunk(ch: Chunk) | AtAssembling | AtStaging | AtLoading
      | AtFinish

  /** Everything outside the process during one run: the manifest reply, the body finally
      received for each chunk, the fate of each atomic write, disk space, and Docker. */
  datatype World = World(
    reply: Reply, body: Chunk -> Option<Bytes>, fault: Site -> Fault, space: bool,
    loads: bool, refs: seq<string>, saved: string -> Option<string>)

  datatype Outcome = Ready(phase: Phase) | RollbackRejected | EquivocationRejected | Broken

  /** `steps` is a history from s0 to s. */
  ghost predicate Follows(c: Codec, s0: Sys, steps: seq<Step>, s: Sys) {
    Runs(c, s0, steps) && After(c, s0, steps) == s
  }

  lemma {:induction false} Extend(c: Codec, s0: Sys, steps: seq<Step>, s: Sys, step: Step)
    requires Follows(c, s0, steps, s) && Enabled(c, s, step)
    ensures Follows(c, s0, steps + [step], Next(c, s, step))
    decreases |steps|
  {
    var all := steps + [step];
    if steps == [] {
      assert all[1..] == [] && all[0] == step;
    } else {
      assert all[0] == steps[0] && all[1..] == steps[1..] + [step];
      Extend(c, Next(c, s0, steps[0]), steps[1..], s, step);
    }
  }

  lemma {:induction false} WithoutFirst(cs: seq<Chunk>)
    requires cs != [] && Distinct(cs)
    ensures Without(cs, cs[0]) == cs[1..]
  {
    var init, last := cs[..|cs| - 1], cs[|cs| - 1];
    if |cs| > 1 {
      assert cs[0].sha != last.sha;
      WithoutFirst(init);
      assert init[1..] + [last] == cs[1..];
    } else {
      assert init == cs[1..];
    }
  }

  // ------------------------------------------------- what a run comes to, as a function

  /** The envelope a run works with, and the URL it is recorded under. */
  ghost function Offer(c: Codec, j: Journal, manifests: map<string, Bytes>, o: RunOptions,
                       reply: Reply): (r: Option<(Bytes, string)>) {
    if o.offline then
      if j.digest == "" || (o.url != "" && o.url != j.url) || j.digest !in manifests then None
      else Some((manifests[j.digest], j.url))
    else
      match reply
      case Body(b) => Some((b, o.url))
      case Unchanged => if HasCopy(c, j, manifests, o) then Some((manifests[j.digest], o.url)) else None
      case Unreachable => None
  }

  function Reported(e: Rejection): (r: Outcome) {
    match e
    case Unverified => Broken
    case OlderSequence => RollbackRejected
    case OtherDigest => EquivocationRejected
  }

  ghost function Acceptance(c: Codec, j: Journal, manifests: map<string, Bytes>, o: RunOptions,
                            w: World): (r: Result<Signed, Outcome>) {
    var offer := Offer(c, j, manifests, o, w.reply);
    if offer.None? then Err(Broken)
    else
      match Verdict(c, j, o, offer.value.0)
      case Err(e) => Err(Reported(e))
      case Ok(signed) => if w.fault(AtManifest) == w.fault(AtPlanning) == NoFault then Ok(signed) else Err(Broken)
  }

  /** The body that arrives for a chunk decodes, and its write succeeds. */
  predicate Arrives(c: Codec, w: World, ch: Chunk) {
    w.body(ch).Some? && Decode(c, w.body(ch).value, ch).Ok? && w.fault(AtChunk(ch)) == NoFault
  }

  ghost predicate AllArrive(c: Codec, w: World, missing: seq<Chunk>) {
    forall i | 0 <= i < |missing| :: Arrives(c, w, missing[i])
  }

  /** The cache after one chunk was asked for. */
  function WithChunk(c: Codec, w: World, cache: map<string, Bytes>, ch: Chunk): (r: map<string, Bytes>) {
    if w.body(ch).Some? && Decode(c, w.body(ch).value, ch).Ok? && w.fault(AtChunk(ch)) != FailBefore
    then cache[ch.sha := Decode(c, w.body(ch).value, ch).value] else cache
  }

  /** The cache after the fetch phase, which ends at the first chunk that fails. */
  function Fetched(c: Codec, w: World, cache: map<string, Bytes>, missing: seq<Chunk>): (r: map<string, Bytes>)
    decreases |missing|
  {
    if missing == [] then cache
    else
      var next := WithChunk(c, w, cache, missing[0]);
      if Arrives(c, w, missing[0]) then Fetched(c, w, next, missing[1..]) else next
  }

  /** The cache a run assembles from. */
  ghost function CacheFor(c: Codec, w: World, cache: map<string, Bytes>, m: Manifest): (r: map<string, Bytes>) {
    Fetched(c, w, cache, Missing(c, cache, Unique(m.chunks)))
  }

  /** The staged archives after assembling from this cache. */
  function StagedBy(c: Codec, w: World, m: Manifest, staged: map<string, Bytes>,
                    cache: map<string, Bytes>): (r: map<string, Bytes>) {
    if !ArchiveValid(c, staged, m) && Assembles(c, cache, m) && w.fault(AtStaging) != FailBefore
    then staged[m.artifactSha := Flatten(Files(cache, m.chunks))] else staged
  }

  /** The plan is allowed to fetch. */
  predicate PlanHolds(o: RunOptions, w: World, missing: seq<Chunk>) {
    !(o.offline && |missing| > 0) && w.space && w.fault(AtFetching) == NoFault
  }

  /** A run that starts from these files gets as far as a verified archive. */
  ghost predicate Stages(c: Codec, o: RunOptions, w: World, m: Manifest, staged: map<string, Bytes>,
                         cache: map<string, Bytes>) {
    var missing := Missing(c, cache, Unique(m.chunks));
    && PlanHolds(o, w, missing) && AllArrive(c, w, missing) && w.fault(AtAssembling) == NoFault
    && (ArchiveValid(c, staged, m) || (Assembles(c, CacheFor(c, w, cache, m), m) && w.fault(AtStaging) == NoFault))
  }

  /** Docker takes the archive and what it stored is proved, or the marker says so. */
  ghost predicate Imports(w: World, signed: Signed, loaded: string) {
    && signed.manifest.kind == "docker-archive" && signed.manifest.imageIDs != [] && w.fault(AtFinish) == NoFault
    && (loaded == signed.digest
        || (w.fault(AtLoading) == NoFault && w.loads && Proves(w.refs, w.saved, signed.manifest.imageIDs)))
  }

  ghost predicate Finishes(o: RunOptions, w: World, signed: Signed, loaded: string) {
    if o.dockerLoad then Imports(w, signed, loaded) else w.fault(AtFinish) == NoFault
  }

  /** The Docker log of one import: the load, and then what was proved of it. */
  ghost function Proof(w: World, signed: Signed, archive: Bytes): (events: seq<Event>) {
    [Invoked(signed, archive), Proved(signed, archive, w.refs, w.saved)]
  }

  /** What a finished import has done: nothing if the marker names the manifest already;
      otherwise it has loaded the staged archive and proved what Docker then reported. */
  ghost predicate Imported(w: World, signed: Signed, staged: map<string, Bytes>, loaded: string,
                           before: seq<Event>, after: seq<Event>) {
    && signed.manifest.kind == "docker-archive" && signed.manifest.imageIDs != []
    && (loaded == signed.digest ==> after == before)
    && (loaded != signed.digest ==>
          && signed.manifest.artifactSha in staged && w.loads && w.refs != []
          && after == before + Proof(w, signed, staged[signed.manifest.artifactSha])
          && (forall ref | ref in w.refs :: w.saved(ref).Some? && w.saved(ref).value in signed.manifest.imageIDs)
          && (forall id | id in signed.manifest.imageIDs :: exists ref | ref in w.refs :: w.saved(ref) == Some(id)))
  }

  /** The outcome of a run, as a function of the files it starts from and of the world. */
  ghost function Expected(c: Codec, o: RunOptions, w: World, d: Disk): (r: Outcome) {
    var a := Acceptance(c, d.journal, d.manifests, o, w);
    if o.maxArtifact <= 0 then Broken
    else if a.Err? then a.error
    else if Stages(c, o, w, a.value.manifest, d.staged, d.cache) && Finishes(o, w, a.value, d.journal.loaded)
    then Ready(if o.dockerLoad then Loaded else Staged) else Broken
  }

  /** What a successful run leaves behind: the journal of the accepted manifest, its
      envelope, and exactly the fetched chunks and the assembled archive added. */
  ghost predicate Delivered(c: Codec, o: RunOptions, w: World, d: Disk, now: Disk,
                            before: seq<Event>, after: seq<Event>) {
    var offer, a := Offer(c, d.journal, d.manifests, o, w.reply), Acceptance(c, d.journal, d.manifests, o, w);
    && offer.Some? && a.Ok?
    && var signed := a.value;
       && now.journal == Recorded(signed, offer.value.1, if o.dockerLoad then signed.digest else d.journal.loaded).(
                           phase := if o.dockerLoad then Loaded else Staged)
       && now.manifests == d.manifests[signed.digest := offer.value.0]
       && AllArrive(c, w, Missing(c, d.cache, Unique(signed.manifest.chunks)))
       && now.cache == CacheFor(c, w, d.cache, signed.manifest)
       && now.staged == StagedBy(c, w, signed.manifest, d.staged, now.cache)
       && ArchiveValid(c, now.staged, signed.manifest)
       && (o.dockerLoad ==> Imported(w, signed, now.staged, d.journal.loaded, before, after))
  }

  /** The files of a device that is done with a manifest: the stored envelope of the journal
      verifies to it, the archive and every chunk are there, and "loaded" is marked. */
  ghost predicate Settled(c: Codec, maxArtifact: int, d: Disk) {
    && d.journal.digest in d.manifests
    && var v := Verified(c, d.manifests[d.journal.digest], maxArtifact);
    && v.Some? && v.value.digest == d.journal.digest
    && var m := v.value.manifest;
    && d.journal.sequence == m.sequence && d.journal.release == m.release && d.journal.artifact == m.artifactSha
    && ArchiveValid(c, d.staged, m) && AllValid(c, d.cache, m.chunks)
    && (d.journal.phase == Loaded ==>
          d.journal.loaded == d.journal.digest && m.kind == "docker-archive" && m.imageIDs != [])
  }

  /** The same manifest again: the stored envelope offline, a 304 for its URL, or a body
      with the same payload. */
  ghost predicate SameAgain(c: Codec, o: RunOptions, w: World, d: Disk) {
    if o.offline then d.journal.digest != "" && (o.url == "" || o.url == d.journal.url)
    else match w.reply
      case Body(b) => |b| <= MAX_MANIFEST_BYTES && d.journal.digest in d.manifests
                      && c.open(b) == c.open(d.manifests[d.journal.digest])
      case Unchanged => d.journal.digest != "" && o.url == d.journal.url
      case Unreachable => false
  }

  /** A run that gets the same manifest again on the files of a device that is done with it,
      and that has imported it if it has to. */
  ghost predicate Again(c: Codec, o: RunOptions, w: World, d: Disk) {
    && o.maxArtifact > 0 && Settled(c, o.maxArtifact, d) && SameAgain(c, o, w, d)
    && w.space && (forall site :: w.fault(site) == NoFault)
    && (o.dockerLoad ==> d.journal.phase == Loaded)
  }

  /** A body is refused for rollback or equivocation exactly when it verifies and is older,
      or as old and another. */
  ghost predicate RejectsOnly(c: Codec, o: RunOptions, w: World, d: Disk, r: Outcome) {
    o.maxArtifact > 0 && !o.offline && w.reply.Body? ==>
      var v := Verified(c, w.reply.bytes, o.maxArtifact);
      && (r == RollbackRejected <==> v.Some? && v.value.manifest.sequence < d.journal.sequence)
      && (r == EquivocationRejected <==>
            && v.Some? && v.value.manifest.sequence == d.journal.sequence
            && d.journal.digest != "" && v.value.digest != d.journal.digest)
  }

  lemma RejectsExactly(c: Codec, o: RunOptions, w: World, d: Disk)
    ensures RejectsOnly(c, o, w, d, Expected(c, o, w, d))
  {
  }

  /** The envelope that a successful run has settled on: online the body of the reply, or the
      stored one after a 304 for the URL it is recorded with; offline the stored one, with
      every chunk cached before. */
  ghost predicate SettledOn(c: Codec, o: RunOptions, w: World, was: Disk, now: Disk) {
    && Settled(c, o.maxArtifact, now)
    && now.journal.phase == (if o.dockerLoad then Loaded else Staged)
    && var envelope := now.manifests[now.journal.digest];
       if o.offline then
         && was.journal.digest in was.manifests && envelope == was.manifests[was.journal.digest]
         && now.journal.url == was.journal.url && (o.url == "" || o.url == now.journal.url)
       else
         match w.reply
         case Body(b) => envelope == b && now.journal.url == o.url
         case Unchanged => now.manifests == was.manifests && now.journal.digest == was.journal.digest
                           && now.journal.url == was.journal.url == o.url
         case Unreachable => false
  }

  /** What a finished import has done for the manifest settled on. */
  ghost predicate ImportedBy(c: Codec, o: RunOptions, w: World, was: Disk, now: Disk, before: seq<Event>,
                             after: seq<Event>) {
    && now.journal.digest in now.manifests
    && var v := Verified(c, now.manifests[now.journal.digest], o.maxArtifact);
       v.Some? && Imported(w, v.value, now.staged, was.journal.loaded, before, after)
  }

  /** Only the phase, and the URL asked for, may differ. */
  ghost predicate Unchanging(was: Disk, now: Disk) {
    && now.cache == was.cache && now.staged == was.staged
    && now.journal == was.journal.(url := now.journal.url, phase := now.journal.phase)
  }

  class Agent {
    const c: Codec
    var journal: Journal
    var manifests: map<string, Bytes>
    var cache: map<string, Bytes>
    var staged: map<string, Bytes>
    var events: seq<Event>          // what Docker was asked to do

    ghost var start: Sys            // where the device began
    ghost var steps: seq<Step>      // its history since then
    ghost var sys: Sys              // the state that history leads to

    /** The files are those of the state machine after the recorded history. */
    ghost predicate Valid()
      reads this
    {
      && Follows(c, start, steps, sys) && c.Compact()
      && sys.disk == Disk(journal, manifests, cache, staged) && sys.events == events
    }

    constructor (c: Codec, ghost s0: Sys)
      requires c.Compact() && Init(s0)
      ensures Valid() && this.c == c && start == s0 && sys == s0
    {
      this.c := c;
      journal, manifests, cache, staged, events := FRESH, map[], map[], map[], [];
      start, steps, sys := s0, [], s0;
    }

    /** Record a step of the state machine that the code has just performed. */
    ghost method Take(step: Step)
      requires Follows(c, start, steps, sys) && Enabled(c, sys, step)
      modifies this`steps, this`sys
      ensures Follows(c, start, steps, sys) && sys == Next(c, old(sys), step) && steps == old(steps) + [step]
    {
      Extend(c, start, steps, sys, step);
      steps, sys := steps + [step], Next(c, sys, step);
    }

    /** Where the envelope comes from: the stored one when offline or on a 304 that
        answers a verified copy, otherwise the reply. */
    method Obtain(o: RunOptions, reply: Reply) returns (envelope: Option<Bytes>, url: string)
      requires Valid() && sys.pc == Begun && sys.run.o == o && sys.run.before == journal
      modifies this`steps, this`sys
      ensures Valid() && start == old(start) && old(steps) <= steps
      ensures envelope.Some? ==> sys == Got(old(sys), url, envelope.value)
      ensures envelope.None? ==> sys == old(sys)
      ensures Offer(c, journal, manifests, o, reply) == if envelope.Some? then Some((envelope.value, url)) else None
    {
      envelope, url := None, o.url;
      if o.offline {
        if journal.digest == "" || (o.url != "" && o.url != journal.url) || journal.digest !in manifests {
          return;
        }
        Take(ReadOffline);
        return Some(manifests[journal.digest]), journal.url;
      }
      var cached: Option<Bytes> := None;
      if journal.url == o.url && journal.digest != "" && journal.digest in manifests {
        var v := Verify(c, manifests[journal.digest], o.maxArtifact);
        if v.Ok? && v.value.digest == journal.digest {
          cached := Some(manifests[journal.digest]);
        }
      }
      if reply.Body? {
        Take(Receive(reply.bytes));
        return Some(reply.bytes), o.url;
      }
      if reply.Unchanged? && cached.Some? {
        Take(NotModified);
        return cached, o.url;
      }
    }

    /** The signature and anti-rollback checks. */
    method Check(o: RunOptions, envelope: Bytes) returns (r: Result<Signed, Rejection>)
      requires Valid() && sys.pc == Received
      requires sys.run.o == o && sys.run.before == journal && sys.run.envelope == envelope
      modifies this`steps, this`sys
      ensures Valid() && start == old(start) && old(steps) <= steps
      ensures r.Ok? ==> sys == old(sys).(pc := Accepted, run := old(sys).run.(signed := r.value))
      ensures r == Verdict(c, journal, o, envelope)
      ensures r.Err? ==> sys.pc == (match r.error
                                    case Unverified => Idle
                                    case OlderSequence => Rollback
                                    case OtherDigest => Equivocation)
    {
      Take(Judge);
      var v := Verify(c, envelope, o.maxArtifact);
      if v.Err? {
        return Err(Unverified);
      }
      var m := v.value.manifest;
      if m.sequence < journal.sequence {
        return Err(OlderSequence);
      }
      if m.sequence == journal.sequence && journal.digest != "" && v.value.digest != journal.digest {
        return Err(OtherDigest);
      }
      return Ok(v.value);
    }

    /** The two writes that record acceptance: the envelope, then the high-water mark. */
    method Record(w: World, envelope: Bytes, url: string, signed: Signed) returns (ok: bool)
      requires Valid() && sys.pc == Accepted
      requires sys.run.before == journal && sys.run.envelope == envelope && sys.run.url == url
               && sys.run.signed == signed
      modifies this`journal, this`manifests, this`steps, this`sys
      ensures Valid() && start == old(start) && old(steps) <= steps && sys.run == old(sys).run
      ensures sys.pc in {Accepted, ManifestStored, Journaled}
      ensures ok <==> w.fault(AtManifest) == w.fault(AtPlanning) == NoFault
      ensures ok ==> sys.pc == Journaled && journal == Recorded(signed, url, old(journal).loaded)
      ensures ok ==> manifests == old(manifests)[signed.digest := envelope]
    {
      var m := signed.manifest;
      if w.fault(AtManifest) != FailBefore {
        manifests := manifests[signed.digest := envelope];
        Take(StoreManifest);
      }
      if w.fault(AtManifest) != NoFault {
        return false;
      }
      if w.fault(AtPlanning) != FailBefore {
        journal := Journal(m.sequence, signed.digest, url, m.release, Planning, m.artifactSha, journal.loaded);
        Take(WritePlanning);
      }
      return w.fault(AtPlanning) == NoFault;
    }

    /** The plan: nothing is fetched offline, and nothing without space. */
    method MakePlan(o: RunOptions, w: World, m: Manifest) returns (missing: seq<Chunk>, valid: bool, ok: bool)
      requires Valid() && sys.pc == Journaled && sys.run.o == o && sys.run.signed.manifest == m
      modifies this`journal, this`steps, this`sys
      ensures Valid() && start == old(start) && old(steps) <= steps && sys.run.signed == old(sys).run.signed
              && sys.run.o == o
      ensures ok ==>
                sys.pc == FetchingPc && sys.run.pending == missing && sys.run.archiveValid == valid
                && Distinct(missing)
      ensures valid == ArchiveValid(c, staged, m) && missing == Missing(c, cache, Unique(m.chunks))
      ensures ok <==> PlanHolds(o, w, missing)
      ensures ok ==> journal == old(journal).(phase := Fetching)
    {
      missing := ListMissing(m);
      valid := ArchiveValid(c, staged, m);
      Take(Plan);
      ok := false;
      if !(o.offline && |missing| > 0) && w.space {
        ok := StartFetching(w);
      }
    }

    method ListMissing(m: Manifest) returns (missing: seq<Chunk>)
      ensures missing == Missing(c, cache, Unique(m.chunks)) && Distinct(missing)
    {
      var unique := UniqueChunks(m.chunks);
      var reused, reusedBytes, missingBytes;
      missing, reused, reusedBytes, missingBytes := FetchPool.PlanChunks(c, cache, unique);
      Resume.MissingDistinct(c, cache, unique);
    }

    method StartFetching(w: World) returns (ok: bool)
      requires Valid() && sys.pc == Planned
      modifies this`journal, this`steps, this`sys
      ensures Valid() && start == old(start) && old(steps) <= steps && sys.run == old(sys).run
      ensures ok ==> sys.pc == FetchingPc && journal == old(journal).(phase := Fetching)
      ensures ok <==> w.fault(AtFetching) == NoFault
    {
      if w.fault(AtFetching) != FailBefore {
        journal := journal.(phase := Fetching);
        Take(WriteFetching);
      }
      return w.fault(AtFetching) == NoFault;
    }

    /** Fetch and commit; the pool's interleavings are those of FetchPool. */
    method Fetch(w: World, missing: seq<Chunk>) returns (ok: bool)
      requires Valid() && sys.pc == FetchingPc && sys.run.pending == missing && Distinct(missing)
      modifies this`journal, this`cache, this`steps, this`sys
      ensures Valid() && start == old(start) && old(steps) <= steps
              && sys.run == old(sys).run.(pending := sys.run.pending)
      ensures ok ==> sys.pc == AssemblingPc && journal == old(journal).(phase := Assembling)
      ensures ok <==> AllArrive(c, w, missing) && w.fault(AtAssembling) == NoFault
      ensures cache == Fetched(c, w, old(cache), missing)
    {
      for i := 0 to |missing|
        invariant Valid() && start == old(start) && old(steps) <= steps && sys.pc == FetchingPc
        invariant sys.run == old(sys).run.(pending := missing[i..]) && journal == old(journal)
        invariant forall k | 0 <= k < i :: Arrives(c, w, missing[k])
        invariant Fetched(c, w, cache, missing[i..]) == Fetched(c, w, old(cache), missing)
      {
        ok := FetchChunk(w, missing[i..]);
        if !ok {
          return false;
        }
      }
      ok := StartAssembling(w);
    }

    method StartAssembling(w: World) returns (ok: bool)
      requires Valid() && sys.pc == FetchingPc && sys.run.pending == []
      modifies this`journal, this`steps, this`sys
      ensures Valid() && start == old(start) && old(steps) <= steps && sys.run == old(sys).run
      ensures ok ==> sys.pc == AssemblingPc && journal == old(journal).(phase := Assembling)
      ensures ok <==> w.fault(AtAssembling) == NoFault
    {
      if w.fault(AtAssembling) != FailBefore {
        journal := journal.(phase := Assembling);
        Take(WriteAssembling);
      }
      return w.fault(AtAssembling) == NoFault;
    }

    /** Fetch and commit the first pending chunk. */
    method FetchChunk(w: World, pending: seq<Chunk>) returns (ok: bool)
      requires Valid() && sys.pc == FetchingPc && sys.run.pending == pending != [] && Distinct(pending)
      modifies this`cache, this`steps, this`sys
      ensures Valid() && start == old(start) && old(steps) <= steps && sys.pc == FetchingPc
      ensures sys.run == old(sys).run.(pending := if ok then pending[1..] else sys.run.pending)
      ensures ok <==> Arrives(c, w, pending[0])
      ensures cache == WithChunk(c, w, old(cache), pending[0])
    {
      var ch := pending[0];
      var body := w.body(ch);
      if body.None? {
        return false;
      }
      var raw := Decode(c, body.value, ch);
      if raw.Err? {
        return false;
      }
      if w.fault(AtChunk(ch)) != FailBefore {
        WithoutFirst(pending);
        cache := cache[ch.sha := raw.value];
        Take(Commit(ch, body.value));
      }
      return w.fault(AtChunk(ch)) == NoFault;
    }

    /** Assemble unless the staged archive is already valid. */
    method StageArchive(w: World, m: Manifest, valid: bool) returns (ok: bool)
      requires Valid() && sys.pc == AssemblingPc && sys.run.signed.manifest == m && sys.run.archiveValid == valid
      requires valid == ArchiveValid(c, staged, m)
      modifies this`staged, this`steps, this`sys
      ensures Valid() && start == old(start) && old(steps) <= steps && sys.run == old(sys).run
      ensures ok ==> sys.pc == ArchiveReady && ArchiveValid(c, staged, m)
      ensures ok <==> valid || (Assembles(c, cache, m) && w.fault(AtStaging) == NoFault)
      ensures staged == StagedBy(c, w, m, old(staged), cache)
    {
      if valid {
        Take(Stage);
        return true;
      }
      if !Assembles(c, cache, m) || w.fault(AtStaging) == FailBefore {
        return false;
      }
      staged := staged[m.artifactSha := Flatten(Files(cache, m.chunks))];
      Take(Stage);
      return w.fault(AtStaging) == NoFault;
    }

    /** The import: skip it if the marker is there; otherwise clear the marker, load,
        prove, and only then record completion. */
    method Import(w: World, signed: Signed) returns (r: Outcome)
      requires Valid() && sys.pc == ArchiveReady && sys.run.signed == signed && sys.run.o.dockerLoad
      requires signed.manifest.artifactSha in staged
      modifies this`journal, this`events, this`steps, this`sys
      ensures Valid() && start == old(start) && old(steps) <= steps
      ensures r.Ready? ==> journal == old(journal).(phase := Loaded, loaded := signed.digest) && sys.pc == Idle
      ensures r == if Imports(w, signed, old(journal).loaded) then Ready(Loaded) else Broken
      ensures r.Ready? ==> Imported(w, signed, staged, old(journal).loaded, old(events), events)
    {
      if signed.manifest.kind != "docker-archive" || signed.manifest.imageIDs == [] {
        return Broken;
      }
      if journal.loaded == signed.digest {
        r := SkipImport(w, signed);
        return;
      }
      var ok := ClearLoaded(w, signed);
      if !ok {
        return Broken;
      }
      r := LoadAndProve(w, signed);
    }

    method SkipImport(w: World, signed: Signed) returns (r: Outcome)
      requires Valid() && sys.pc == ArchiveReady && sys.run.signed == signed && MayLoad(sys)
               && journal.loaded == signed.digest
      modifies this`journal, this`steps, this`sys
      ensures Valid() && start == old(start) && old(steps) <= steps
      ensures r.Ready? ==> journal == old(journal).(phase := Loaded, loaded := signed.digest) && sys.pc == Idle
      ensures r == if w.fault(AtFinish) == NoFault then Ready(Loaded) else Broken
    {
      if w.fault(AtFinish) != FailBefore {
        journal := journal.(phase := Loaded);
        Take(SkipLoad);
      }
      return if w.fault(AtFinish) == NoFault then Ready(Loaded) else Broken;
    }

    method ClearLoaded(w: World, signed: Signed) returns (ok: bool)
      requires Valid() && sys.pc == ArchiveReady && sys.run.signed == signed && MayLoad(sys)
               && journal.loaded != signed.digest
      modifies this`journal, this`steps, this`sys
      ensures Valid() && start == old(start) && old(steps) <= steps && sys.run == old(sys).run
      ensures ok ==> sys.pc == MarkerCleared && journal == old(journal).(phase := Loading, loaded := "")
      ensures ok <==> w.fault(AtLoading) == NoFault
    {
      if w.fault(AtLoading) != FailBefore {
        journal := journal.(phase := Loading, loaded := "");
        Take(ClearMarker);
      }
      return w.fault(AtLoading) == NoFault;
    }

    method LoadAndProve(w: World, signed: Signed) returns (r: Outcome)
      requires Valid() && sys.pc == MarkerCleared && sys.run.signed == signed && signed.manifest.artifactSha in staged
      modifies this`journal, this`events, this`steps, this`sys
      ensures Valid() && start == old(start) && old(steps) <= steps
      ensures r.Ready? ==> journal == old(journal).(phase := Loaded, loaded := signed.digest) && sys.pc == Idle
      ensures r == if w.loads && Proves(w.refs, w.saved, signed.manifest.imageIDs) && w.fault(AtFinish) == NoFault
              then Ready(Loaded) else Broken
      ensures r.Ready? ==> events == old(events) + Proof(w, signed, staged[signed.manifest.artifactSha])
    {
      var archive := staged[signed.manifest.artifactSha];
      events := events + [Invoked(signed, archive)];
      Take(DockerLoad);
      if !w.loads {
        return Broken;
      }
      var proved := VerifyLoadedConfigIdentity(w.refs, w.saved, signed.manifest.imageIDs);
      if !proved {
        return Broken;
      }
      events := events + [Proved(signed, archive, w.refs, w.saved)];
      Take(Prove(w.refs, w.saved));
      assert events == old(events) + Proof(w, signed, archive);
      r := MarkLoaded(w, signed);
    }

    method MarkLoaded(w: World, signed: Signed) returns (r: Outcome)
      requires Valid() && sys.pc == IdentityProved && sys.run.signed == signed
      modifies this`journal, this`steps, this`sys
      ensures Valid() && start == old(start) && old(steps) <= steps
      ensures r.Ready? ==> journal == old(journal).(phase := Loaded, loaded := signed.digest) && sys.pc == Idle
      ensures r == if w.fault(AtFinish) == NoFault then Ready(Loaded) else Broken
    {
      if w.fault(AtFinish) != FailBefore {
        journal := journal.(phase := Loaded, loaded := signed.digest);
        Take(FinishLoaded);
      }
      return if w.fault(AtFinish) == NoFault then Ready(Loaded) else Broken;
    }

    /** From an idle device to a recorded acceptance. */
    method AcceptManifest(o: RunOptions, w: World) returns (r: Result<Signed, Outcome>, url: string)
      requires Valid() && sys.pc in {Idle, Rollback, Equivocation} && 0 < o.maxArtifact <= LIMIT
      modifies this`journal, this`manifests, this`steps, this`sys
      ensures Valid() && start == old(start) && old(steps) <= steps
      ensures r.Ok? ==> sys.pc == Journaled && sys.run.o == o && sys.run.signed == r.value
      ensures r == Acceptance(c, old(journal), old(manifests), o, w)
      ensures r.Ok? ==> journal == Recorded(r.value, url, old(journal).loaded)
      ensures r.Ok? ==> var offer := Offer(c, old(journal), old(manifests), o, w.reply);
                        && offer.Some? && url == offer.value.1
                        && manifests == old(manifests)[r.value.digest := offer.value.0]
      ensures r.Err? ==> !r.error.Ready? && (r.error == RollbackRejected <==> sys.pc == Rollback)
                         && (r.error == EquivocationRejected <==> sys.pc == Equivocation)
      ensures r.Err? && r.error != Broken ==> journal == old(journal) && manifests == old(manifests)
    {
      Take(Begin(o));
      var envelope;
      envelope, url := Obtain(o, w.reply);
      if envelope.None? {
        return Err(Broken), url;
      }
      var verdict := Check(o, envelope.value);
      if verdict.Err? {
        return Err(Reported(verdict.error)), url;
      }
      var ok := Record(w, envelope.value, url, verdict.value);
      r := if ok then Ok(verdict.value) else Err(Broken);
    }

    /** From a recorded acceptance to a verified archive on disk. */
    method Assemble(o: RunOptions, w: World, m: Manifest) returns (ok: bool)
      requires Valid() && sys.pc == Journaled && sys.run.o == o && sys.run.signed.manifest == m
      modifies this`journal, this`cache, this`staged, this`steps, this`sys
      ensures Valid() && start == old(start) && old(steps) <= steps && sys.run.o == o
              && sys.run.signed == old(sys).run.signed
      ensures ok ==>
                sys.pc == ArchiveReady && ArchiveValid(c, staged, m)
                && journal == old(journal).(phase := Assembling)
      ensures ok <==> Stages(c, o, w, m, old(staged), old(cache))
      ensures ok ==> cache == CacheFor(c, w, old(cache), m) && staged == StagedBy(c, w, m, old(staged), cache)
      ensures o.offline ==> cache == old(cache)
    {
      var missing, valid;
      missing, valid, ok := MakePlan(o, w, m);
      if ok {
        ok := Fetch(w, missing);
        if ok {
          ok := StageArchive(w, m, valid);
        }
      }
    }

    /** The end of a run: import, or record that the archive is staged. */
    method Finish(o: RunOptions, w: World, signed: Signed) returns (r: Outcome)
      requires Valid() && sys.pc == ArchiveReady && sys.run.o == o && sys.run.signed == signed
      requires ArchiveValid(c, staged, signed.manifest)
      modifies this`journal, this`events, this`steps, this`sys
      ensures Valid() && start == old(start) && old(steps) <= steps
      ensures r == if Finishes(o, w, signed, old(journal).loaded) then Ready(if o.dockerLoad then Loaded else Staged)
              else Broken
      ensures r.Ready? ==> sys.pc == Idle && journal == old(journal).(phase := r.phase, loaded := journal.loaded)
                           && journal.loaded == if o.dockerLoad then signed.digest else old(journal).loaded
      ensures r.Ready? && o.dockerLoad ==> Imported(w, signed, staged, old(journal).loaded, old(events), events)
      ensures !o.dockerLoad ==> events == old(events)
    {
      if o.dockerLoad {
        r := Import(w, signed);
        return;
      }
      if w.fault(AtFinish) != FailBefore {
        journal := journal.(phase := Staged);
        Take(FinishStaged);
      }
      return if w.fault(AtFinish) == NoFault then Ready(Staged) else Broken;
    }

    /** From a recorded acceptance to the end. */
    method Deliver(o: RunOptions, w: World, signed: Signed) returns (r: Outcome)
      requires Valid() && sys.pc == Journaled && sys.run.o == o && sys.run.signed == signed
      modifies this`journal, this`cache, this`staged, this`events, this`steps, this`sys
      ensures Valid() && start == old(start) && old(steps) <= steps
      ensures r == if Stages(c, o, w, signed.manifest, old(staged), old(cache))
              && Finishes(o, w, signed, old(journal).loaded)
                   then Ready(if o.dockerLoad then Loaded else Staged) else Broken
      ensures r.Ready? ==> cache == CacheFor(c, w, old(cache), signed.manifest)
                           && staged == StagedBy(c, w, signed.manifest, old(staged), cache)
      ensures r.Ready? ==> sys.pc == Idle && ArchiveValid(c, staged, signed.manifest)
                           && journal == old(journal).(phase := r.phase, loaded := journal.loaded)
                           && journal.loaded == if o.dockerLoad then signed.digest else old(journal).loaded
      ensures r.Ready? && o.dockerLoad ==> Imported(w, signed, staged, old(journal).loaded, old(events), events)
      ensures !o.dockerLoad ==> events == old(events)
      ensures o.offline ==> cache == old(cache)
    {
      var ok := Assemble(o, w, signed.manifest);
      if !ok {
        return Broken;
      }
      r := Finish(o, w, signed);
    }

    /** A run up to the point where it succeeds or stops. */
    method RunOnce(o: RunOptions, w: World) returns (r: Outcome)
      requires Valid() && sys.pc in {Idle, Rollback, Equivocation} && 0 < o.maxArtifact <= LIMIT
      modifies this`journal, this`manifests, this`cache, this`staged, this`events, this`steps, this`sys
      ensures Valid() && start == old(start) && old(steps) <= steps
      ensures r.RollbackRejected? ==> sys.pc == Rollback
      ensures r.EquivocationRejected? ==> sys.pc == Equivocation
      ensures var d, now := Disk(old(journal), old(manifests), old(cache), old(staged)),
                            Disk(journal, manifests, cache, staged);
              && r == Expected(c, o, w, d)
              && (r.Ready? ==> sys.pc == Idle && Delivered(c, o, w, d, now, old(events), events))
              && (r.RollbackRejected? || r.EquivocationRejected? ==> now == d && events == old(events))
              && (o.offline ==> cache == old(cache)) && (!o.dockerLoad ==> events == old(events))
    {
      var signed, url := AcceptManifest(o, w);
      if signed.Err? {
        return signed.error;
      }
      r := Deliver(o, w, signed.value);
    }

    /** Sync. The files after the run are those of a longer history of the machine, which
        ends in a rejection exactly when one is reported. The outcome is a function of the
        files at the start and of the world. A run that is ready has settled on an envelope
        that verifies: online the body of the reply, or the stored one after a 304 for the
        same URL; offline the stored one, with every chunk cached before. It is recorded
        with its URL in the phase asked for. Docker is asked only for an import that is not
        marked as done, and then exactly the signed images were proved. */
    method Sync(o: RunOptions, w: World) returns (r: Outcome)
      requires Valid() && sys.pc in {Idle, Rollback, Equivocation} && o.maxArtifact <= LIMIT
      modifies this`journal, this`manifests, this`cache, this`staged, this`events, this`steps, this`sys
      ensures Valid() && start == old(start) && old(steps) <= steps && sys.pc in {Idle, Rollback, Equivocation}
      ensures (r == RollbackRejected <==> sys.pc == Rollback) && (r == EquivocationRejected <==> sys.pc == Equivocation)
      ensures r == Expected(c, o, w, Disk(old(journal), old(manifests), old(cache), old(staged)))
      ensures var was, now := Disk(old(journal), old(manifests), old(cache), old(staged)),
                              Disk(journal, manifests, cache, staged);
              && (RejectsOnly(c, o, w, was, r) && (r.RollbackRejected? || r.EquivocationRejected? ==> now == was))
              && (r.Ready? ==> r.phase == now.journal.phase && SettledOn(c, o, w, was, now)
                               && Delivered(c, o, w, was, now, old(events), events))
              && (r.Ready? && o.dockerLoad ==> ImportedBy(c, o, w, was, now, old(events), events))
              && (!o.dockerLoad ==> events == old(events)) && (o.offline ==> cache == old(cache))
              && (Again(c, o, w, was) ==> r.Ready? && Unchanging(was, now) && (o.dockerLoad ==> events == old(events)))
    {
      r := Broken;
      ghost var was := Disk(journal, manifests, cache, staged);
      RejectsExactly(c, o, w, was);
      if o.maxArtifact > 0 {
        r := RunOnce(o, w);
        if r.Ready? {
          DeliveredMeans(c, o, w, was, Disk(journal, manifests, cache, staged), old(events), events);
        }
        RerunChangesNothing(c, o, w, was, Disk(journal, manifests, cache, staged), old(events), events);
      }
      if r == Broken { Take(Stop); }
    }
  }

  lemma {:induction false} FollowsOn(c: Codec, s0: Sys, steps: seq<Step>, s: Sys, more: seq<Step>, s': Sys)
    requires Follows(c, s0, steps, s) && Follows(c, s0, steps + more, s')
    ensures Follows(c, s, more, s')
    decreases |steps|
  {
    if steps == [] {
      assert steps + more == more;
    } else {
      assert (steps + more)[0] == steps[0] && (steps + more)[1..] == steps[1..] + more;
      FollowsOn(c, Next(c, s0, steps[0]), steps[1..], s, more, s');
    }
  }

  /** Whatever runs a fresh device has made, with whatever failures, its files satisfy
      the invariant; and between any two points of its life the journal only advances. */
  lemma FilesAreSound(c: Codec, s0: Sys, early: seq<Step>, s: Sys, late: seq<Step>, s': Sys)
    requires ReconcileSafety.Binding(c) && Init(s0)
    requires early <= late && Follows(c, s0, early, s) && Follows(c, s0, late, s')
    ensures ReconcileSafety.Inv(c, s) && ReconcileSafety.Inv(c, s')
    ensures ReconcileSafety.Advances(s.disk.journal, s'.disk.journal)
  {
    ReconcileSafety.InitInv(c, s0);
    ReconcileSafety.AntiRollback(c, s0, early);
    var more := late[|early|..];
    assert early + more == late;
    FollowsOn(c, s0, early, s, more, s');
    ReconcileSafety.AntiRollback(c, s, more);
  }

  /** The pool of workers does what one run of the machine does: in whatever order a
      successful pool has committed, those commits are steps of the machine, after which
      nothing is pending and every chunk of the manifest is validly cached. */
  lemma PoolIsARun(c: Codec, s: Sys, p: FetchPool.Pool, workers: nat, maxAttempts: int,
                   moves: seq<FetchPool.Step>, bodies: seq<Bytes>)
    requires s.pc == FetchingPc && Resume.PendingOk(c, s) && Consistent(s.run.signed.manifest.chunks)
    requires s.run.pending == Missing(c, s.disk.cache, Unique(s.run.signed.manifest.chunks))
    requires workers >= 1 && FetchPool.Start(p, s.run.pending, workers) && FetchPool.Runs(p, maxAttempts, moves)
    requires FetchPool.Success(FetchPool.After(p, maxAttempts, moves))
    requires var committed := FetchPool.After(p, maxAttempts, moves).committed;
             |bodies| == |committed| && forall i | 0 <= i < |committed| :: Decode(c, bodies[i], committed[i]).Ok?
    ensures var steps := Resume.CommitSteps(FetchPool.After(p, maxAttempts, moves).committed, bodies);
            && Runs(c, s, steps) && Enabled(c, After(c, s, steps), WriteAssembling)
            && AllValid(c, After(c, s, steps).disk.cache, s.run.signed.manifest.chunks)
  {
    var committed := FetchPool.After(p, maxAttempts, moves).committed;
    FetchPool.EachCommittedOnce(p, workers, maxAttempts, moves);
    Resume.PermutationIsRearranged(committed, s.run.pending);
    Resume.CommitsInAnyOrder(c, s, committed, bodies);
    var steps := Resume.CommitSteps(committed, bodies);
    Resume.FilledIsComplete(c, s.disk.cache, s.run.signed.manifest, committed, After(c, s, steps).disk.cache);
  }

  /** So does a pool that fails or is cancelled: whatever it has committed by any point of
      any schedule, those commits are steps of the machine, and a crash or an error return
      may follow. */
  lemma PoolIsAlwaysARun(c: Codec, s: Sys, p: FetchPool.Pool, workers: nat, maxAttempts: int,
                         moves: seq<FetchPool.Step>, bodies: seq<Bytes>)
    requires s.pc == FetchingPc && Resume.PendingOk(c, s)
    requires workers >= 1 && FetchPool.Start(p, s.run.pending, workers) && FetchPool.Runs(p, maxAttempts, moves)
    requires var committed := FetchPool.After(p, maxAttempts, moves).committed;
             |bodies| == |committed| && forall i | 0 <= i < |committed| :: Decode(c, bodies[i], committed[i]).Ok?
    ensures var committed := FetchPool.After(p, maxAttempts, moves).committed;
            var steps := Resume.CommitSteps(committed, bodies);
            && Runs(c, s, steps) && Resume.PendingOk(c, After(c, s, steps))
            && Resume.Filled(c, s.disk.cache, committed, After(c, s, steps).disk.cache)
  {
    var committed := FetchPool.After(p, maxAttempts, moves).committed;
    forall x ensures multiset(committed)[x] <= multiset(s.run.pending)[x] {
      FetchPool.NeverCommittedTwice(p, workers, maxAttempts, moves, x);
    }
    Resume.BoundedIsPicked(committed, s.run.pending);
    Resume.CommitsOfSome(c, s, committed, bodies);
  }

  // ------------------------------------------------------------- an honest run succeeds

  /** When everything arrives, the fetch leaves all that was asked for, and all that was
      there under another digest, validly cached. */
  lemma {:induction false} FetchedIsFilled(c: Codec, w: World, cache: map<string, Bytes>, missing: seq<Chunk>)
    requires AllArrive(c, w, missing) && Distinct(missing)
    ensures Resume.Filled(c, cache, missing, Fetched(c, w, cache, missing))
    decreases |missing|
  {
    if missing != [] {
      var ch, rest := missing[0], missing[1..];
      var raw := Decode(c, w.body(ch).value, ch).value;
      assert forall i | 0 <= i < |rest| :: rest[i] == missing[i + 1];
      FetchedIsFilled(c, w, cache[ch.sha := raw], rest);
      DecodeExact(c, w.body(ch).value, ch, raw);
      Resume.FilledRest(c, cache, missing, raw, Fetched(c, w, cache, missing));
    }
  }

  /** So every chunk of a verified manifest is then valid. */
  lemma FetchedIsComplete(c: Codec, w: World, cache: map<string, Bytes>, m: Manifest)
    requires Consistent(m.chunks) && AllArrive(c, w, Missing(c, cache, Unique(m.chunks)))
    ensures AllValid(c, CacheFor(c, w, cache, m), m.chunks)
  {
    var missing := Missing(c, cache, Unique(m.chunks));
    UniqueFacts(m.chunks);
    Resume.MissingDistinct(c, cache, Unique(m.chunks));
    FetchedIsFilled(c, w, cache, missing);
    Resume.FilledIsComplete(c, cache, m, missing, CacheFor(c, w, cache, m));
  }

  lemma DeliveredMeans(c: Codec, o: RunOptions, w: World, d: Disk, now: Disk, before: seq<Event>, after: seq<Event>)
    requires Delivered(c, o, w, d, now, before, after)
    ensures SettledOn(c, o, w, d, now)
    ensures o.dockerLoad ==> ImportedBy(c, o, w, d, now, before, after)
  {
    var m := Acceptance(c, d.journal, d.manifests, o, w).value.manifest;
    FetchedIsComplete(c, w, d.cache, m);
  }

  /** What a server of the published objects sends always arrives. */
  lemma ServedArrives(c: Codec, w: World, raws: seq<Bytes>, cache: map<string, Bytes>)
    requires forall raw | raw in raws :: c.gunzip(c.gzip(raw)) == Stream(raw, true)
    requires forall raw | raw in raws ::
               w.body(Describe(c, raw)) == Some(c.gzip(raw))
               && w.fault(AtChunk(Describe(c, raw))) == NoFault
    ensures AllArrive(c, w, Missing(c, cache, Unique(DescribeAll(c, raws))))
  {
    var cs := DescribeAll(c, raws);
    var missing := Missing(c, cache, Unique(cs));
    UniqueFacts(cs);
    forall i | 0 <= i < |missing| ensures Arrives(c, w, missing[i]) {
      Resume.MissingMembers(c, cache, Unique(cs), missing[i]);
      var k :| 0 <= k < |cs| && cs[k] == missing[i];
      assert raws[k] in raws;
      DecodePublished(c, raws[k]);
    }
  }

  /** A run that accepts the manifest of an input, whose missing chunks all arrive and
      whose writes succeed, is ready exactly when it can finish; and then the archive it
      has staged is the input, byte for byte, whatever was cached or staged before. */
  lemma HonestRunSucceeds(c: Codec, g: Gear.Table, p: Options, input: Bytes, o: RunOptions, w: World, d: Disk,
                          signed: Signed)
    requires o.maxArtifact > 0 && Acceptance(c, d.journal, d.manifests, o, w) == Ok(signed)
    requires p.params.Legal() && signed.manifest == ManifestOf(c, g, p, input)
    requires var missing := Missing(c, d.cache, Unique(signed.manifest.chunks));
             PlanHolds(o, w, missing) && AllArrive(c, w, missing)
    requires w.fault(AtAssembling) == w.fault(AtStaging) == NoFault
    requires NoChunkCollision(c, CacheFor(c, w, d.cache, signed.manifest), p.params.Rule(g).Chunks(input))
    requires c.sha(input) in d.staged ==> c.Injective({input, d.staged[c.sha(input)]})
    ensures Expected(c, o, w, d) == if Finishes(o, w, signed, d.journal.loaded)
                                    then Ready(if o.dockerLoad then Loaded else Staged) else Broken
    ensures var staged := StagedBy(c, w, signed.manifest, d.staged, CacheFor(c, w, d.cache, signed.manifest));
            c.sha(input) in staged && staged[c.sha(input)] == input
  {
    var m := signed.manifest;
    FetchedIsComplete(c, w, d.cache, m);
    RoundTrip(c, g, p, input, CacheFor(c, w, d.cache, m));
    if ArchiveValid(c, d.staged, m) {
      StagedIsInput(c, g, p, input, d.staged);
    }
  }

  lemma {:induction false} FetchedStaysIn(c: Codec, w: World, cache: map<string, Bytes>, missing: seq<Chunk>,
                                          universe: set<Bytes>)
    requires cache.Values <= universe
    requires forall i | 0 <= i < |missing| ::
               Arrives(c, w, missing[i]) && Decode(c, w.body(missing[i]).value, missing[i]).value in universe
    ensures Fetched(c, w, cache, missing).Values <= universe
    decreases |missing|
  {
    if missing != [] {
      assert forall i | 0 <= i < |missing[1..]| :: missing[1..][i] == missing[i + 1];
      FetchedStaysIn(c, w, WithChunk(c, w, cache, missing[0]), missing[1..], universe);
    }
  }

  /** A server of the published objects, and no write that fails. */
  ghost predicate Serves(c: Codec, w: World, raws: seq<Bytes>) {
    && w.space && (forall site :: w.fault(site) == NoFault)
    && forall raw | raw in raws ::
         c.gunzip(c.gzip(raw)) == Stream(raw, true) && w.body(Describe(c, raw)) == Some(c.gzip(raw))
  }

  lemma ServedCache(c: Codec, w: World, raws: seq<Bytes>, cache: map<string, Bytes>, universe: set<Bytes>)
    requires Serves(c, w, raws) && c.Injective(universe) && cache.Values <= universe
    requires forall raw | raw in raws :: raw in universe
    ensures var missing := Missing(c, cache, Unique(DescribeAll(c, raws)));
            AllArrive(c, w, missing) && NoChunkCollision(c, Fetched(c, w, cache, missing), raws)
  {
    var cs := DescribeAll(c, raws);
    var missing := Missing(c, cache, Unique(cs));
    ServedArrives(c, w, raws, cache);
    UniqueFacts(cs);
    forall i | 0 <= i < |missing|
      ensures Arrives(c, w, missing[i]) && Decode(c, w.body(missing[i]).value, missing[i]).value in universe {
      Resume.MissingMembers(c, cache, Unique(cs), missing[i]);
      var k :| 0 <= k < |cs| && cs[k] == missing[i];
      assert raws[k] in raws;
      DecodePublished(c, raws[k]);
    }
    FetchedStaysIn(c, w, cache, missing, universe);
  }

  /** What Docker reports after a load is what was signed. */
  ghost predicate Reports(w: World, ids: seq<string>) {
    && w.loads && w.refs != []
    && (forall ref | ref in w.refs :: w.saved(ref).Some? && w.saved(ref).value in ids)
    && (forall id | id in ids :: exists ref | ref in w.refs :: w.saved(ref) == Some(id))
  }

  lemma ReportsProve(w: World, ids: seq<string>)
    ensures w.loads && Proves(w.refs, w.saved, ids) <==> Reports(w, ids)
  {
  }

  /** This signed manifest is what an online run gets: in a body, if it is newer than what
      the journal holds or the same; or by a 304 for the URL it is recorded with, if the
      stored envelope is intact, however far the last run got. */
  ghost predicate Gets(c: Codec, o: RunOptions, w: World, d: Disk, signed: Signed) {
    match w.reply
    case Body(b) =>
      && Verified(c, b, o.maxArtifact) == Some(signed)
      && (signed.manifest.sequence > d.journal.sequence
          || (signed.manifest.sequence == d.journal.sequence && d.journal.digest in {"", signed.digest}))
    case Unchanged =>
      && d.journal.url == o.url && d.journal.digest == signed.digest != "" && signed.digest in d.manifests
      && Verified(c, d.manifests[signed.digest], o.maxArtifact) == Some(signed)
      && d.journal.sequence == signed.manifest.sequence
    case Unreachable => false
  }

  lemma GetsIsAccepted(c: Codec, o: RunOptions, w: World, d: Disk, signed: Signed)
    requires !o.offline && Gets(c, o, w, d, signed) && w.fault(AtManifest) == w.fault(AtPlanning) == NoFault
    ensures Acceptance(c, d.journal, d.manifests, o, w) == Ok(signed)
  {
  }

  /** An online run that gets the signed manifest of an input delivers it: with a server of
      the published objects and no failing write it stages the input, whatever was cached or
      staged before, and if it has to load, it is ready exactly when the manifest allows it
      and the marker is set or Docker reports what was signed. */
  lemma OnlineRunDelivers(c: Codec, g: Gear.Table, p: Options, input: Bytes, o: RunOptions, w: World, d: Disk,
                          signed: Signed, universe: set<Bytes>)
    requires !o.offline && o.maxArtifact > 0 && Gets(c, o, w, d, signed)
    requires p.params.Legal() && signed.manifest == ManifestOf(c, g, p, input)
    requires Serves(c, w, p.params.Rule(g).Chunks(input))
    requires c.Injective(universe) && d.cache.Values <= universe && d.staged.Values <= universe
    requires input in universe && forall raw | raw in p.params.Rule(g).Chunks(input) :: raw in universe
    ensures Expected(c, o, w, d) ==
            if !o.dockerLoad then Ready(Staged)
            else if p.kind == "docker-archive" && p.imageIDs != []
                    && (d.journal.loaded == signed.digest || Reports(w, p.imageIDs)) then Ready(Loaded)
            else Broken
    ensures var staged := StagedBy(c, w, signed.manifest, d.staged, CacheFor(c, w, d.cache, signed.manifest));
            c.sha(input) in staged && staged[c.sha(input)] == input
  {
    ServedCache(c, w, p.params.Rule(g).Chunks(input), d.cache, universe);
    if c.sha(input) in d.staged { assert d.staged[c.sha(input)] in d.staged.Values; }
    GetsIsAccepted(c, o, w, d, signed);
    HonestRunSucceeds(c, g, p, input, o, w, d, signed);
    ReportsProve(w, p.imageIDs);
  }

  lemma {:induction false} NothingMissing(c: Codec, cache: map<string, Bytes>, cs: seq<Chunk>)
    requires forall ch | ch in cs :: ValidChunk(c, cache, ch)
    ensures Missing(c, cache, cs) == []
  {
    if cs != [] { NothingMissing(c, cache, cs[..|cs| - 1]); }
  }

  lemma SettledMissesNothing(c: Codec, cache: map<string, Bytes>, m: Manifest)
    requires AllValid(c, cache, m.chunks)
    ensures Missing(c, cache, Unique(m.chunks)) == []
  {
    UniqueFacts(m.chunks);
    NothingMissing(c, cache, Unique(m.chunks));
  }

  /** What a settled device gets again is accepted. */
  lemma AgainIsAccepted(c: Codec, o: RunOptions, w: World, d: Disk)
    requires o.maxArtifact > 0 && Settled(c, o.maxArtifact, d) && SameAgain(c, o, w, d)
    requires w.fault(AtManifest) == w.fault(AtPlanning) == NoFault
    ensures var signed := Verified(c, d.manifests[d.journal.digest], o.maxArtifact).value;
            Acceptance(c, d.journal, d.manifests, o, w) == Ok(signed)
  {
    if !o.offline && w.reply.Body? {
      SamePayloadSameAnswer(c, w.reply.bytes, d.manifests[d.journal.digest], o.maxArtifact);
    }
  }

  /** A device that has settled on a manifest and gets it again is ready again, online or
      offline, whatever the chunk server and Docker would answer: nothing is fetched or
      staged, and an import that is marked as done is not repeated. */
  lemma RerunIsReady(c: Codec, o: RunOptions, w: World, d: Disk)
    requires Again(c, o, w, d)
    ensures Expected(c, o, w, d) == Ready(if o.dockerLoad then Loaded else Staged)
    ensures var signed := Verified(c, d.manifests[d.journal.digest], o.maxArtifact).value;
            Acceptance(c, d.journal, d.manifests, o, w) == Ok(signed)
    ensures var m := Verified(c, d.manifests[d.journal.digest], o.maxArtifact).value.manifest;
            && CacheFor(c, w, d.cache, m) == d.cache
            && StagedBy(c, w, m, d.staged, d.cache) == d.staged
  {
    var signed := Verified(c, d.manifests[d.journal.digest], o.maxArtifact).value;
    AgainIsAccepted(c, o, w, d);
    SettledMissesNothing(c, d.cache, signed.manifest);
    SettledRun(c, o, w, d, signed);
  }

  lemma SettledRun(c: Codec, o: RunOptions, w: World, d: Disk, signed: Signed)
    requires o.maxArtifact > 0 && Acceptance(c, d.journal, d.manifests, o, w) == Ok(signed)
    requires Missing(c, d.cache, Unique(signed.manifest.chunks)) == [] && ArchiveValid(c, d.staged, signed.manifest)
    requires w.space && forall site :: w.fault(site) == NoFault
    requires o.dockerLoad ==> signed.manifest.kind == "docker-archive" && signed.manifest.imageIDs != []
                              && d.journal.loaded == signed.digest
    ensures Expected(c, o, w, d) == Ready(if o.dockerLoad then Loaded else Staged)
  {
  }

  lemma RerunChangesNothing(c: Codec, o: RunOptions, w: World, d: Disk, now: Disk, before: seq<Event>,
                            after: seq<Event>)
    requires Expected(c, o, w, d).Ready? ==> Delivered(c, o, w, d, now, before, after)
    ensures Again(c, o, w, d) ==>
              Expected(c, o, w, d).Ready? && Unchanging(d, now) && (o.dockerLoad ==> after == before)
  {
    if Again(c, o, w, d) {
      RerunIsReady(c, o, w, d);
    }
  }

  /** A run is ready only if there was space, every chunk of the manifest was validly cached
      or has arrived intact, and every write that recorded progress succeeded; an import
      that was not marked as done has also cleared the marker first and been proved. */
  lemma ReadyNeeds(c: Codec, o: RunOptions, w: World, d: Disk, signed: Signed)
    requires Expected(c, o, w, d).Ready? && Acceptance(c, d.journal, d.manifests, o, w) == Ok(signed)
    ensures o.maxArtifact > 0 && w.space
    ensures forall ch | ch in signed.manifest.chunks && !ValidChunk(c, d.cache, ch) ::
              && !o.offline && w.body(ch).Some? && |w.body(ch).value| == ch.encSize
              && c.sha(w.body(ch).value) == ch.encSha && w.fault(AtChunk(ch)) == NoFault
    ensures forall site | site in {AtManifest, AtPlanning, AtFetching, AtAssembling, AtFinish} ::
            w.fault(site) == NoFault
    ensures !ArchiveValid(c, d.staged, signed.manifest) ==> w.fault(AtStaging) == NoFault
    ensures o.dockerLoad ==> signed.manifest.kind == "docker-archive" && signed.manifest.imageIDs != []
    ensures o.dockerLoad && d.journal.loaded != signed.digest ==>
              w.fault(AtLoading) == NoFault && Reports(w, signed.manifest.imageIDs)
  {
    var m := signed.manifest;
    var missing := Missing(c, d.cache, Unique(m.chunks));
    forall ch | ch in m.chunks && !ValidChunk(c, d.cache, ch)
      ensures !o.offline && Arrives(c, w, ch) && |w.body(ch).value| == ch.encSize
              && c.sha(w.body(ch).value) == ch.encSha {
      UniqueKeepsDescriptors(m.chunks, ch);
      Resume.MissingMembers(c, d.cache, Unique(m.chunks), ch);
      var k :| 0 <= k < |missing| && missing[k] == ch;
      DecodeExact(c, w.body(ch).value, ch, Decode(c, w.body(ch).value, ch).value);
    }
    ReportsProve(w, m.imageIDs);
  }
}
