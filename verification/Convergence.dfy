/** From every reachable state of publisher and device, a run of the device on its own can
    bring it to the archive the channel offers. */
module Convergence {
  import opened Common
  import opened Chunker
  import opened Split
  import opened Format
  import opened Publish
  import opened Assembly
  import Gear
  import P = Publisher
  import PS = PublisherSafety
  import D = Reconcile
  import DS = ReconcileSafety
  import Resume
  import Protocol

  // ---------------------------------------------------- what the origin holds, in bytes

  function Raws(w: P.World, j: P.Job): (raws: seq<Bytes>)
    requires w.params.Legal()
  {
    w.params.Rule(w.g).Chunks(j.input)
  }

  /** A release file is the sealed manifest of the job that made it, and all its objects
      are stored. */
  ghost predicate Genuine(w: P.World, p: P.Pub, name: string)
    requires w.params.Legal()
  {
    name in p.releases && name in p.made ==>
      && p.releases[name] == w.c.seal(w.ManifestFor(p.made[name]))
      && StoresAll(w.c, p.blobs, Raws(w, p.made[name]))
  }

  ghost predicate Contents(w: P.World, p: P.Pub)
    requires w.params.Legal()
  {
    && (forall name | name in p.made :: Genuine(w, p, name))
    && (p.pc == P.Allocated ==> p.written <= |Raws(w, p.job)| && StoresAll(w.c, p.blobs, Raws(w, p.job)[..p.written]))
  }

  lemma GenuineStays(w: P.World, p: P.Pub, p': P.Pub, enc: Bytes)
    requires w.params.Legal() && w.c.Injective(w.encodings) && p.blobs.Values <= w.encodings && enc in w.encodings
    requires forall name | name in p.made :: Genuine(w, p, name)
    requires p'.made == p.made && p'.releases == p.releases && p'.blobs == p.blobs[w.c.sha(enc) := enc]
    ensures forall name | name in p'.made :: Genuine(w, p', name)
  {
    forall name | name in p'.made ensures Genuine(w, p', name) {
      assert Genuine(w, p, name);
      if name in p.releases { StoredStays(w.c, p.blobs, enc, Raws(w, p.made[name]), w.encodings); }
    }
  }

  lemma StoredOneMore(c: Codec, blobs: map<string, Bytes>, raws: seq<Bytes>, k: nat, encodings: set<Bytes>)
    requires k < |raws| && StoresAll(c, blobs, raws[..k]) && c.Injective(encodings)
    requires blobs.Values <= encodings && c.gzip(raws[k]) in encodings
    ensures StoresAll(c, blobs[c.sha(c.gzip(raws[k])) := c.gzip(raws[k])], raws[..k + 1])
  {
    StoredStays(c, blobs, c.gzip(raws[k]), raws[..k], encodings);
    assert forall i | 0 <= i < k :: raws[..k + 1][i] == raws[..k][i];
  }

  lemma PutBlobContents(w: P.World, p: P.Pub)
    requires w.params.Legal() && w.c.Injective(w.encodings) && p.blobs.Values <= w.encodings
    requires Contents(w, p) && P.Enabled(w, p, P.PutBlob)
    ensures Contents(w, P.Next(w, p, P.PutBlob))
  {
    var raws := Raws(w, p.job);
    GenuineStays(w, p, P.Next(w, p, P.PutBlob), w.c.gzip(raws[p.written]));
    StoredOneMore(w.c, p.blobs, raws, p.written, w.encodings);
  }

  lemma ReleaseContents(w: P.World, p: P.Pub)
    requires w.params.Legal() && Contents(w, p) && P.Enabled(w, p, P.WriteRelease)
    ensures Contents(w, P.Next(w, p, P.WriteRelease))
  {
    var p', raws := P.Next(w, p, P.WriteRelease), Raws(w, p.job);
    assert |w.ManifestFor(p.job).chunks| == |raws| && raws[..|raws|] == raws;
    forall name | name in p'.made ensures Genuine(w, p', name) {
      if name != w.Name(p.job.req) { assert Genuine(w, p, name); }
    }
  }

  lemma StepKeepsContents(w: P.World, p: P.Pub, step: P.Step)
    requires w.Sane() && PS.Inv(w, p) && Contents(w, p) && P.Enabled(w, p, step)
    ensures Contents(w, P.Next(w, p, step))
  {
    if step.PutBlob? {
      PutBlobContents(w, p);
    } else if step.WriteRelease? {
      ReleaseContents(w, p);
    } else {
      OtherSteps(w, p, step);
      SameContents(w, p, P.Next(w, p, step));
    }
  }

  ghost predicate SameFiles(p: P.Pub, p': P.Pub) {
    p'.releases == p.releases && p'.made == p.made && p'.blobs == p.blobs
  }

  /** The other steps leave files and objects alone. */
  lemma OtherSteps(w: P.World, p: P.Pub, step: P.Step)
    requires w.params.Legal() && P.Enabled(w, p, step) && !step.PutBlob? && !step.WriteRelease?
    ensures var p' := P.Next(w, p, step);
            SameFiles(p, p') && (p'.pc == P.Allocated ==> p'.written == 0)
  {
    match step
    case Promote => PromoteFrame(w.c, p);
    case Reuse => ReuseFrame(w, p);
    case _ =>
  }

  lemma PromoteFrame(c: Codec, p: P.Pub)
    ensures SameFiles(p, P.Promotion(c, p)) && P.Promotion(c, p).pc != P.Allocated
  {
  }

  lemma ReuseFrame(w: P.World, p: P.Pub)
    requires w.params.Legal() && P.Enabled(w, p, P.Reuse)
    ensures SameFiles(p, P.Next(w, p, P.Reuse)) && P.Next(w, p, P.Reuse).pc != P.Allocated
  {
  }

  lemma SameContents(w: P.World, p: P.Pub, p': P.Pub)
    requires w.params.Legal() && Contents(w, p)
    requires SameFiles(p, p') && (p'.pc == P.Allocated ==> p'.written == 0)
    ensures Contents(w, p')
  {
    forall name | name in p'.made ensures Genuine(w, p', name) { assert Genuine(w, p, name); }
  }

  lemma {:induction false} HistoryKeepsContents(w: P.World, n: Protocol.Net, moves: seq<Protocol.Move>)
    requires Protocol.Sane(w) && Protocol.Inv(w, n) && Contents(w, n.pub) && Protocol.Runs(w, n, moves)
    ensures Protocol.Inv(w, Protocol.After(w, n, moves)) && Contents(w, Protocol.After(w, n, moves).pub)
    decreases |moves|
  {
    if moves != [] {
      Protocol.MoveKeepsInv(w, n, moves[0]);
      if moves[0].PubMove? { StepKeepsContents(w, n.pub, moves[0].p); }
      HistoryKeepsContents(w, Protocol.Next(w, n, moves[0]), moves[1..]);
    }
  }

  // ------------------------------------------------------------- runs of a device alone

  lemma {:induction false} RunsConcat(c: Codec, s: D.Sys, a: seq<D.Step>, b: seq<D.Step>)
    requires D.Runs(c, s, a) && D.Runs(c, D.After(c, s, a), b)
    ensures D.Runs(c, s, a + b) && D.After(c, s, a + b) == D.After(c, D.After(c, s, a), b)
    decreases |a|
  {
    if a == [] {
      assert a + b == b;
    } else {
      assert (a + b)[0] == a[0] && (a + b)[1..] == a[1..] + b;
      RunsConcat(c, D.Next(c, s, a[0]), a[1..], b);
    }
  }

  function DevMoves(steps: seq<D.Step>): (moves: seq<Protocol.Move>)
    ensures |moves| == |steps|
  {
    seq(|steps|, i requires 0 <= i < |steps| => Protocol.DevMove(steps[i]))
  }

  /** The bodies that the device is given are what the origin holds: the channel file, and
      the objects by their digest. */
  ghost predicate Served(pub: P.Pub, steps: seq<D.Step>) {
    forall i | 0 <= i < |steps| ::
      && (steps[i].Receive? ==> pub.channel == Some(steps[i].body))
      && (steps[i].Commit? ==> steps[i].ch.encSha in pub.blobs && steps[i].body == pub.blobs[steps[i].ch.encSha])
  }

  lemma {:induction false} DeviceAlone(w: P.World, n: Protocol.Net, steps: seq<D.Step>)
    requires w.params.Legal() && D.Runs(w.c, n.dev, steps) && Served(n.pub, steps)
    ensures Protocol.Runs(w, n, DevMoves(steps))
    ensures Protocol.After(w, n, DevMoves(steps)) == n.(dev := D.After(w.c, n.dev, steps))
    decreases |steps|
  {
    if steps != [] {
      var rest, moves := steps[1..], DevMoves(steps);
      assert moves[0] == Protocol.DevMove(steps[0]) && moves[1..] == DevMoves(rest);
      assert forall i | 0 <= i < |rest| :: rest[i] == steps[i + 1];
      DeviceAlone(w, n.(dev := D.Next(w.c, n.dev, steps[0])), rest);
    }
  }

  // ------------------------------------------------------------------- accepting

  /** Whatever a device has accepted before, it accepts what the channel holds. */
  lemma ChannelIsAccepted(w: P.World, n: Protocol.Net, o: D.RunOptions) returns (signed: Signed)
    requires w.params.Legal() && Protocol.Inv(w, n) && n.pub.channel.Some? && o.maxArtifact == D.LIMIT
    ensures D.Verdict(w.c, n.dev.disk.journal, o, n.pub.channel.value) == Ok(signed)
    ensures Verified(w.c, n.pub.channel.value, PUBLISH_LIMIT) == Some(signed)
  {
    var c, file, j := w.c, n.pub.channel.value, n.dev.disk.journal;
    PS.ReleaseVerifies(w, n.pub, file);
    VerifiedMonotone(c, file, PUBLISH_LIMIT, D.LIMIT);
    signed := Verified(c, file, D.LIMIT).value;
    if j.sequence > 0 && signed.manifest.sequence == j.sequence {
      Protocol.SameSequenceSameDigest(w, n.pub, file, j.digest);
    }
  }

  /** A device that has just planned what to fetch for a manifest it accepted. */
  ghost predicate Fetching(c: Codec, s: D.Sys, o: D.RunOptions, signed: Signed, s': D.Sys) {
    && s'.pc == D.FetchingPc && s'.run.signed == signed && s'.run.o == o
    && s'.run.pending == D.Missing(c, s.disk.cache, Unique(signed.manifest.chunks))
    && s'.run.archiveValid == ArchiveValid(c, s.disk.staged, signed.manifest)
    && s'.disk.cache == s.disk.cache && s'.disk.staged == s.disk.staged
    && s'.disk.journal == D.Recorded(signed, o.url, s.disk.journal.loaded).(phase := D.Fetching)
  }

  function AcceptSteps(o: D.RunOptions, file: Bytes): (steps: seq<D.Step>) {
    [D.Stop] + ([D.Begin(o)] + ([D.Receive(file)] + ([D.Judge] + [])))
  }

  lemma AcceptRun(c: Codec, s: D.Sys, o: D.RunOptions, file: Bytes, signed: Signed) returns (s': D.Sys)
    requires !o.offline && 0 < o.maxArtifact <= D.LIMIT && D.Verdict(c, s.disk.journal, o, file) == Ok(signed)
    ensures D.Runs(c, s, AcceptSteps(o, file)) && D.After(c, s, AcceptSteps(o, file)) == s'
    ensures s'.pc == D.Accepted && s'.disk == s.disk && s'.run.o == o && s'.run.before == s.disk.journal
    ensures s'.run.url == o.url && s'.run.envelope == file && s'.run.signed == signed
  {
    var s1 := D.Next(c, s, D.Stop);
    var s2 := D.Next(c, s1, D.Begin(o));
    var s3 := D.Next(c, s2, D.Receive(file));
    s' := D.Next(c, s3, D.Judge);
    Resume.RunsCons(c, s3, D.Judge, s', [], s');
    Resume.RunsCons(c, s2, D.Receive(file), s3, [D.Judge] + [], s');
    Resume.RunsCons(c, s1, D.Begin(o), s2, [D.Receive(file)] + ([D.Judge] + []), s');
    Resume.RunsCons(c, s, D.Stop, s1, [D.Begin(o)] + ([D.Receive(file)] + ([D.Judge] + [])), s');
  }

  function PlanSteps(): (steps: seq<D.Step>) {
    [D.StoreManifest] + ([D.WritePlanning] + ([D.Plan] + ([D.WriteFetching] + [])))
  }

  lemma PlanRun(c: Codec, s: D.Sys, o: D.RunOptions, signed: Signed) returns (s': D.Sys)
    requires s.pc == D.Accepted && s.run.o == o && !o.offline && s.run.before == s.disk.journal
    requires s.run.url == o.url && s.run.signed == signed
    ensures D.Runs(c, s, PlanSteps()) && D.After(c, s, PlanSteps()) == s'
    ensures Fetching(c, s, o, signed, s') && Resume.PendingOk(c, s')
  {
    var s1 := D.Next(c, s, D.StoreManifest);
    var s2 := D.Next(c, s1, D.WritePlanning);
    var s3 := D.Next(c, s2, D.Plan);
    s' := D.Next(c, s3, D.WriteFetching);
    Resume.PlanMakesPending(c, s2);
    Resume.StepKeepsPending(c, s3, D.WriteFetching);
    Resume.RunsCons(c, s3, D.WriteFetching, s', [], s');
    Resume.RunsCons(c, s2, D.Plan, s3, [D.WriteFetching] + [], s');
    Resume.RunsCons(c, s1, D.WritePlanning, s2, [D.Plan] + ([D.WriteFetching] + []), s');
    Resume.RunsCons(c, s, D.StoreManifest, s1, [D.WritePlanning] + ([D.Plan] + ([D.WriteFetching] + [])), s');
  }

  // --------------------------------------------------------------------- fetching

  /** Commits change the cache and the list of pending chunks, and nothing else. */
  ghost predicate OnlyCache(s: D.Sys, s': D.Sys) {
    s' == s.(disk := s.disk.(cache := s'.disk.cache), run := s.run.(pending := s'.run.pending))
  }

  lemma {:induction false} CommitFrame(c: Codec, s: D.Sys, cs: seq<Chunk>, bodies: seq<Bytes>, universe: set<Bytes>)
    requires |cs| == |bodies| && D.Runs(c, s, Resume.CommitSteps(cs, bodies)) && s.disk.cache.Values <= universe
    requires forall i | 0 <= i < |cs| ::
               Decode(c, bodies[i], cs[i]).Ok?
               && Decode(c, bodies[i], cs[i]).value in universe
    ensures var s' := D.After(c, s, Resume.CommitSteps(cs, bodies));
            OnlyCache(s, s') && s'.disk.cache.Values <= universe
    decreases |cs|
  {
    var steps := Resume.CommitSteps(cs, bodies);
    if cs != [] {
      var rest, others := cs[1..], bodies[1..];
      assert steps[0] == D.Commit(cs[0], bodies[0]) && steps[1..] == Resume.CommitSteps(rest, others);
      assert forall i | 0 <= i < |rest| :: rest[i] == cs[i + 1] && others[i] == bodies[i + 1];
      CommitFrame(c, D.Next(c, s, steps[0]), rest, others, universe);
    }
  }

  /** What the origin serves for these chunks. */
  function Bodies(blobs: map<string, Bytes>, cs: seq<Chunk>): (bodies: seq<Bytes>)
    requires forall i | 0 <= i < |cs| :: cs[i].encSha in blobs
    ensures |bodies| == |cs|
  {
    seq(|cs|, i requires 0 <= i < |cs| => blobs[cs[i].encSha])
  }

  lemma ServedDecodes(c: Codec, blobs: map<string, Bytes>, raws: seq<Bytes>, ch: Chunk)
    requires StoresAll(c, blobs, raws) && ch in DescribeAll(c, raws)
    requires forall raw {:trigger c.gzip(raw)} :: c.gunzip(c.gzip(raw)) == Stream(raw, true)
    ensures ch.encSha in blobs && Decode(c, blobs[ch.encSha], ch).Ok? && Decode(c, blobs[ch.encSha], ch).value in raws
  {
    var i :| 0 <= i < |raws| && DescribeAll(c, raws)[i] == ch;
    DecodePublished(c, raws[i]);
  }

  /** The whole fetch phase, every body from the origin. */
  lemma FetchRun(c: Codec, s: D.Sys, blobs: map<string, Bytes>, raws: seq<Bytes>, universe: set<Bytes>)
      returns (steps: seq<D.Step>, s': D.Sys)
    requires s.pc == D.FetchingPc && Resume.PendingOk(c, s) && Consistent(s.run.signed.manifest.chunks)
    requires s.run.pending == D.Missing(c, s.disk.cache, Unique(s.run.signed.manifest.chunks))
    requires s.run.signed.manifest.chunks == DescribeAll(c, raws) && StoresAll(c, blobs, raws)
    requires forall raw {:trigger c.gzip(raw)} :: c.gunzip(c.gzip(raw)) == Stream(raw, true)
    requires s.disk.cache.Values <= universe && forall raw | raw in raws :: raw in universe
    ensures D.Runs(c, s, steps) && D.After(c, s, steps) == s'
    ensures forall i | 0 <= i < |steps| ::
              steps[i].Commit? && steps[i].ch.encSha in blobs
              && steps[i].body == blobs[steps[i].ch.encSha]
    ensures OnlyCache(s, s') && s'.disk.cache.Values <= universe && s'.run.pending == []
    ensures AllValid(c, s'.disk.cache, s.run.signed.manifest.chunks)
  {
    var m, cs := s.run.signed.manifest, s.run.pending;
    UniqueFacts(m.chunks);
    forall i | 0 <= i < |cs|
      ensures cs[i].encSha in blobs && Decode(c, blobs[cs[i].encSha], cs[i]).Ok?
              && Decode(c, blobs[cs[i].encSha], cs[i]).value in universe {
      Resume.MissingMembers(c, s.disk.cache, Unique(m.chunks), cs[i]);
      ServedDecodes(c, blobs, raws, cs[i]);
    }
    var bodies := Bodies(blobs, cs);
    Resume.CommitsInAnyOrder(c, s, cs, bodies);
    steps := Resume.CommitSteps(cs, bodies);
    s' := D.After(c, s, steps);
    CommitFrame(c, s, cs, bodies, universe);
    Resume.FilledIsComplete(c, s.disk.cache, m, cs, s'.disk.cache);
  }

  // -------------------------------------------------------------------- finishing

  function FinishSteps(): (steps: seq<D.Step>) {
    [D.WriteAssembling] + ([D.Stage] + ([D.FinishStaged] + []))
  }

  lemma FinishRun(c: Codec, s: D.Sys) returns (s': D.Sys)
    requires s.pc == D.FetchingPc && s.run.pending == [] && !s.run.o.dockerLoad
    requires s.run.archiveValid || Assembles(c, s.disk.cache, s.run.signed.manifest)
    ensures D.Runs(c, s, FinishSteps()) && D.After(c, s, FinishSteps()) == s'
    ensures s'.pc == D.Idle && s'.disk.journal == s.disk.journal.(phase := D.Staged)
    ensures s'.disk.staged == if s.run.archiveValid then s.disk.staged
                              else s.disk.staged[s.run.signed.manifest.artifactSha :=
                                                 Flatten(Files(s.disk.cache, s.run.signed.manifest.chunks))]
  {
    var s1 := D.Next(c, s, D.WriteAssembling);
    var s2 := D.Next(c, s1, D.Stage);
    s' := D.Next(c, s2, D.FinishStaged);
    Resume.RunsCons(c, s2, D.FinishStaged, s', [], s');
    Resume.RunsCons(c, s1, D.Stage, s2, [D.FinishStaged] + [], s');
    Resume.RunsCons(c, s, D.WriteAssembling, s1, [D.Stage] + ([D.FinishStaged] + []), s');
  }

  // ----------------------------------------------------------------- the whole run

  /** The device holds the archive: staged, journaled, and byte for byte the input. */
  ghost predicate Holds(s: D.Sys, signed: Signed, input: Bytes) {
    && s.pc == D.Idle && s.disk.journal.phase == D.Staged
    && s.disk.journal.digest == signed.digest && s.disk.journal.sequence == signed.manifest.sequence
    && s.disk.journal.artifact in s.disk.staged && s.disk.staged[s.disk.journal.artifact] == input
  }

  /** The collision-freedom hypothesis: the universe holds what is cached and staged, the
      input and its chunks. */
  ghost predicate Covers(c: Codec, universe: set<Bytes>, d: D.Disk, input: Bytes, raws: seq<Bytes>) {
    && c.Injective(universe) && d.cache.Values <= universe && d.staged.Values <= universe
    && input in universe && forall raw | raw in raws :: raw in universe
  }

  lemma StageIsInput(c: Codec, g: Gear.Table, p: Options, input: Bytes, s: D.Sys, staged: map<string, Bytes>,
                     universe: set<Bytes>)
    requires p.params.Legal() && s.run.signed.manifest == ManifestOf(c, g, p, input)
    requires s.run.archiveValid ==> ArchiveValid(c, staged, s.run.signed.manifest)
    requires AllValid(c, s.disk.cache, s.run.signed.manifest.chunks) && s.disk.cache.Values <= universe
    requires c.Injective(universe) && staged.Values <= universe && input in universe
    requires forall raw | raw in p.params.Rule(g).Chunks(input) :: raw in universe
    ensures s.run.archiveValid || Assembles(c, s.disk.cache, s.run.signed.manifest)
    ensures if s.run.archiveValid then c.sha(input) in staged && staged[c.sha(input)] == input
            else Flatten(Files(s.disk.cache, s.run.signed.manifest.chunks)) == input
  {
    if s.run.archiveValid {
      assert staged[c.sha(input)] in staged.Values;
    } else {
      RoundTrip(c, g, p, input, s.disk.cache);
    }
  }

  /** Every body is the given file or an object of the origin. */
  ghost predicate FromOrigin(steps: seq<D.Step>, file: Bytes, blobs: map<string, Bytes>) {
    forall i | 0 <= i < |steps| ::
      && (steps[i].Receive? ==> steps[i].body == file)
      && (steps[i].Commit? ==> steps[i].ch.encSha in blobs && steps[i].body == blobs[steps[i].ch.encSha])
  }

  lemma Then(c: Codec, s: D.Sys, a: seq<D.Step>, m: D.Sys, b: seq<D.Step>, s': D.Sys, file: Bytes,
             blobs: map<string, Bytes>)
    requires D.Runs(c, s, a) && D.After(c, s, a) == m && D.Runs(c, m, b) && D.After(c, m, b) == s'
    requires FromOrigin(a, file, blobs) && FromOrigin(b, file, blobs)
    ensures D.Runs(c, s, a + b) && D.After(c, s, a + b) == s' && FromOrigin(a + b, file, blobs)
  {
    RunsConcat(c, s, a, b);
  }

  /** From a planned fetch to the staged archive. */
  lemma FetchAndFinish(c: Codec, g: Gear.Table, p: Options, input: Bytes, blobs: map<string, Bytes>,
                       s: D.Sys, o: D.RunOptions, before: D.Sys, signed: Signed, file: Bytes, universe: set<Bytes>)
      returns (steps: seq<D.Step>, s': D.Sys)
    requires Fetching(c, before, o, signed, s) && Resume.PendingOk(c, s) && !o.dockerLoad
             && Consistent(signed.manifest.chunks)
    requires p.params.Legal() && signed.manifest == ManifestOf(c, g, p, input)
    requires StoresAll(c, blobs, p.params.Rule(g).Chunks(input))
    requires forall raw {:trigger c.gzip(raw)} :: c.gunzip(c.gzip(raw)) == Stream(raw, true)
    requires Covers(c, universe, before.disk, input, p.params.Rule(g).Chunks(input))
    ensures D.Runs(c, s, steps) && D.After(c, s, steps) == s' && Holds(s', signed, input)
            && FromOrigin(steps, file, blobs)
  {
    var commits, s1 := FetchRun(c, s, blobs, p.params.Rule(g).Chunks(input), universe);
    StageIsInput(c, g, p, input, s1, s1.disk.staged, universe);
    s' := FinishRun(c, s1);
    Then(c, s, commits, s1, FinishSteps(), s', file, blobs);
    steps := commits + FinishSteps();
  }

  lemma AcceptedIsConsistent(c: Codec, j: D.Journal, o: D.RunOptions, file: Bytes, signed: Signed)
    requires D.Verdict(c, j, o, file) == Ok(signed)
    ensures Consistent(signed.manifest.chunks)
  {
  }

  /** A device run from any state, on an accepted manifest of an input whose objects the
      origin stores. */
  lemma DeliveryRun(c: Codec, g: Gear.Table, p: Options, input: Bytes, blobs: map<string, Bytes>,
                    s: D.Sys, o: D.RunOptions, file: Bytes, signed: Signed, universe: set<Bytes>)
      returns (steps: seq<D.Step>, s': D.Sys)
    requires !o.offline && !o.dockerLoad && 0 < o.maxArtifact <= D.LIMIT
    requires D.Verdict(c, s.disk.journal, o, file) == Ok(signed)
    requires p.params.Legal() && signed.manifest == ManifestOf(c, g, p, input)
    requires StoresAll(c, blobs, p.params.Rule(g).Chunks(input))
    requires forall raw {:trigger c.gzip(raw)} :: c.gunzip(c.gzip(raw)) == Stream(raw, true)
    requires Covers(c, universe, s.disk, input, p.params.Rule(g).Chunks(input))
    ensures D.Runs(c, s, steps) && D.After(c, s, steps) == s' && Holds(s', signed, input)
            && FromOrigin(steps, file, blobs)
  {
    AcceptedIsConsistent(c, s.disk.journal, o, file, signed);
    var first, m := AcceptAndPlan(c, s, o, file, signed, blobs);
    var rest;
    rest, s' := FetchAndFinish(c, g, p, input, blobs, m, o, s, signed, file, universe);
    Then(c, s, first, m, rest, s', file, blobs);
    steps := first + rest;
  }

  lemma AcceptAndPlan(c: Codec, s: D.Sys, o: D.RunOptions, file: Bytes, signed: Signed, blobs: map<string, Bytes>)
      returns (steps: seq<D.Step>, s': D.Sys)
    requires !o.offline && 0 < o.maxArtifact <= D.LIMIT && D.Verdict(c, s.disk.journal, o, file) == Ok(signed)
    ensures D.Runs(c, s, steps) && D.After(c, s, steps) == s' && FromOrigin(steps, file, blobs)
    ensures Fetching(c, s, o, signed, s') && Resume.PendingOk(c, s')
  {
    var m := AcceptRun(c, s, o, file, signed);
    s' := PlanRun(c, m, o, signed);
    Then(c, s, AcceptSteps(o, file), m, PlanSteps(), s', file, blobs);
    steps := AcceptSteps(o, file) + PlanSteps();
  }

  const DIRECT := D.RunOptions("channel", false, false, D.LIMIT)

  /** Convergence. From every reachable state of publisher and device, whatever the device
      was doing, if there is a channel then some moves of the device alone, with bodies as
      the origin holds them, bring it to "staged" on the manifest the channel holds, with
      exactly the archive exported for it. */
  lemma Converges(w: P.World, n0: Protocol.Net, moves: seq<Protocol.Move>, universe: set<Bytes>)
      returns (steps: seq<D.Step>, job: P.Job, signed: Signed)
    requires Protocol.Sane(w) && Protocol.Init(n0) && Protocol.Runs(w, n0, moves)
    requires forall raw {:trigger w.c.gzip(raw)} :: w.c.gunzip(w.c.gzip(raw)) == Stream(raw, true)
    requires var n := Protocol.After(w, n0, moves);
             && n.pub.channel.Some?
             && (forall name | name in n.pub.made ::
                   Covers(w.c, universe, n.dev.disk, n.pub.made[name].input, Raws(w, n.pub.made[name])))
    ensures var n := Protocol.After(w, n0, moves);
            && Protocol.Runs(w, n, DevMoves(steps)) && Served(n.pub, steps)
            && Verified(w.c, n.pub.channel.value, PUBLISH_LIMIT) == Some(signed)
            && Protocol.PublishedAs(w, n.pub, signed.digest, job)
            && var n' := Protocol.After(w, n, DevMoves(steps));
               n'.pub == n.pub && Holds(n'.dev, signed, job.input)
  {
    Protocol.InitInv(w, n0);
    HistoryKeepsContents(w, n0, moves);
    var n := Protocol.After(w, n0, moves);
    var file := n.pub.channel.value;
    signed := ChannelIsAccepted(w, n, DIRECT);
    var name := ChannelJob(w, n.pub, file, signed);
    job := n.pub.made[name];
    var s';
    steps, s' := DeliveryRun(w.c, w.g, JobOptions(w, job), job.input, n.pub.blobs, n.dev, DIRECT, file, signed,
        universe);
    DeviceAlone(w, n, steps);
  }

  function JobOptions(w: P.World, j: P.Job): (o: Options) {
    Options(w.Name(j.req), j.seqno, "docker-archive", w.Source(j.req), [j.imageID], w.params)
  }

  /** The channel file is the manifest of one job, whose objects are stored. */
  lemma ChannelJob(w: P.World, pub: P.Pub, file: Bytes, signed: Signed) returns (name: string)
    requires w.Sane() && PS.Inv(w, pub) && Contents(w, pub) && pub.channel == Some(file)
    requires Verified(w.c, file, PUBLISH_LIMIT) == Some(signed)
    ensures name in pub.made && signed.manifest == w.ManifestFor(pub.made[name])
    ensures StoresAll(w.c, pub.blobs, Raws(w, pub.made[name]))
    ensures Protocol.PublishedAs(w, pub, signed.digest, pub.made[name])
  {
    name :| name in pub.releases && pub.releases[name] == file;
    assert PS.Written(w, pub, name) && Genuine(w, pub, name);
    assert w.c.SealsFaithfully(w.ManifestFor(pub.made[name]));
    VerifiedMonotone(w.c, file, PUBLISH_LIMIT, D.LIMIT);
  }
}
