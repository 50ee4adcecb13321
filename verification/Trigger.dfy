/** `Trigger`, `nextSequence`, `promote` and the acknowledgement as the imperative code
    they are. Every call, however its writes fail, is a history of the state machine in
    Publisher and keeps its invariant. */
module Trigger {
  import opened Common
  import opened Chunker
  import opened Split
  import opened Format
  import opened Publish
  import opened Naming
  import opened Publisher
  import PS = PublisherSafety

  datatype Site = AtSequence | AtObject(i: nat) | AtRelease | AtChannel | AtAck

  ghost predicate Follows(w: World, p0: Pub, steps: seq<Step>, p: Pub)
    requires w.params.Legal()
  {
    Runs(w, p0, steps) && After(w, p0, steps) == p
  }

  lemma {:induction false} Extend(w: World, p0: Pub, steps: seq<Step>, p: Pub, step: Step)
    requires w.params.Legal() && Follows(w, p0, steps, p) && Enabled(w, p, step)
    ensures Follows(w, p0, steps + [step], Next(w, p, step))
    decreases |steps|
  {
    var all := steps + [step];
    if steps == [] {
      assert all[1..] == [] && all[0] == step;
    } else {
      assert all[0] == steps[0] && all[1..] == steps[1..] + [step];
      Extend(w, Next(w, p0, steps[0]), steps[1..], p, step);
    }
  }

  /** An object that already has the right digest and size has the right bytes. */
  lemma SameObject(w: World, blobs: map<string, Bytes>, enc: Bytes)
    requires w.c.Injective(w.encodings) && blobs.Values <= w.encodings && enc in w.encodings
    requires w.c.sha(enc) in blobs && w.c.sha(blobs[w.c.sha(enc)]) == w.c.sha(enc)
    ensures blobs[w.c.sha(enc) := enc] == blobs
  {
    assert blobs[w.c.sha(enc)] in blobs.Values;
  }

  lemma ObjectsAreKnown(w: World, p0: Pub, steps: seq<Step>, p: Pub)
    requires w.Sane() && Init(p0) && Follows(w, p0, steps, p)
    ensures p.blobs.Values <= w.encodings
  {
    PS.InitInv(w, p0);
    PS.HistoryKeepsInv(w, p0, steps);
  }

  /** The release that a retry finds is the one made for its request. */
  lemma RetryMatches(w: World, p0: Pub, steps: seq<Step>, p: Pub)
    requires w.Sane() && Init(p0) && Follows(w, p0, steps, p) && p.pc == Asked && w.Name(p.job.req) in p.releases
    ensures Matches(w, p, p.releases[w.Name(p.job.req)])
  {
    PS.InitInv(w, p0);
    PS.HistoryKeepsInv(w, p0, steps);
    PS.ReuseStep(w, p);
  }

  /** promote never meets a channel it has to refuse. */
  lemma NeverRefused(w: World, p0: Pub, steps: seq<Step>, p: Pub)
    requires w.Sane() && Init(p0) && Follows(w, p0, steps, p) && p.pc == ReleaseReady
    ensures p.channel.Some? ==> Keeps(w.c, p.channel.value, p.envelope) || Replaces(w.c, p.channel.value, p.envelope)
  {
    PS.InitInv(w, p0);
    PS.HistoryKeepsInv(w, p0, steps);
    Comparable(w, p);
  }

  lemma Comparable(w: World, p: Pub)
    requires w.params.Legal() && PS.Inv(w, p) && p.pc == ReleaseReady
    ensures p.channel.Some? ==> Keeps(w.c, p.channel.value, p.envelope) || Replaces(w.c, p.channel.value, p.envelope)
  {
    assert p.releases[w.Name(p.job.req)] in p.releases.Values;
    PS.ReleaseVerifies(w, p, p.envelope);
    if p.channel.Some? {
      PS.ReleaseVerifies(w, p, p.channel.value);
      if SeqOf(w.c, p.channel.value) == SeqOf(w.c, p.envelope) {
        PS.SequenceIsUnique(w, p, p.channel.value, p.envelope);
      }
    }
  }

  /** No write fails. */
  ghost predicate Calm(fault: Site -> Fault) {
    forall site :: fault(site) == NoFault
  }

  /** What is written for a first publication: the sealed manifest of the exported archive,
      under the next sequence, from the registry source of the request, signed for exactly
      the image that was exported. */
  ghost function SignedFile(w: World, job: Job): (file: Bytes)
    requires w.params.Legal()
  {
    w.c.seal(ManifestOf(w.c, w.g, Options(
      ReleaseName(w.prefix, w.identity, job.req), job.seqno, "docker-archive",
      "registry://" + w.registry + "/" + job.req.repo + "@" + job.req.digest, [job.imageID], w.params), job.input))
  }

  /** What an attempt at a first publication does to the release files: it adds the file of
      this job and no other, if any, and it is done if nothing stands against it. */
  ghost predicate Made(w: World, job: Job, was: map<string, Bytes>, now: map<string, Bytes>, done: bool, calm: bool)
    requires w.params.Legal()
  {
    var file := SignedFile(w, job);
    && (now == was || now == was[w.Name(job.req) := file])
    && (done ==> now == was[w.Name(job.req) := file])
    && (calm && job.seqno < 0x1_0000_0000_0000_0000 && Verified(w.c, file, PUBLISH_LIMIT).Some? ==> done)
  }

  lemma SignedFileIs(w: World, job: Job)
    requires w.params.Legal()
    ensures w.c.seal(w.ManifestFor(job)) == SignedFile(w, job)
  {
  }

  class Root {
    const w: World
    var seqFile: nat                          // 0 before the first allocation
    var blobs: map<string, Bytes>
    var releases: map<string, Bytes>
    var channel: Option<Bytes>
    var acks: map<(string, string), string>

    ghost var start: Pub
    ghost var steps: seq<Step>
    ghost var pub: Pub

    /** The files are those of the state machine after the recorded history. */
    ghost predicate Shows()
      reads this
    {
      && pub.seqFile == seqFile && pub.blobs == blobs && pub.releases == releases
      && pub.channel == channel && pub.acks == acks
    }

    ghost predicate Tracked()
      reads this
    {
      w.params.Legal() && w.c.Compact() && Init(start) && Follows(w, start, steps, pub)
    }

    ghost predicate Valid()
      reads this
    {
      Tracked() && Shows()
    }

    constructor (w: World, ghost p0: Pub)
      requires w.params.Legal() && w.c.Compact() && Init(p0)
      ensures Valid() && this.w == w && start == p0 && pub == p0
    {
      this.w := w;
      seqFile, blobs, releases, channel, acks := 0, map[], map[], None, map[];
      start, steps, pub := p0, [], p0;
    }

    /** The publisher accepts its own release. */
    ghost predicate Fits(job: Job) {
      w.params.Legal() && Verified(w.c, w.c.seal(w.ManifestFor(job)), PUBLISH_LIMIT).Some?
    }

    ghost method Take(step: Step)
      requires Tracked() && Enabled(w, pub, step)
      modifies this`steps, this`pub
      ensures Tracked() && pub == Next(w, old(pub), step) && steps == old(steps) + [step]
    {
      Extend(w, start, steps, pub, step);
      steps, pub := steps + [step], Next(w, pub, step);
    }

    /** nextSequence: the number is consumed once the file is replaced, even if the
        call then fails. A number of more than 64 bits does not parse, and the last one
        cannot be incremented. */
    method NextSequence(fault: Fault) returns (seqno: Option<nat>)
      requires Valid() && pub.pc == Exported
      modifies this`seqFile, this`steps, this`pub
      ensures Valid() && start == old(start) && old(steps) <= steps
      ensures seqno.Some? ==> pub.pc == Allocated && pub.job == old(pub).job.(seqno := seqno.value) && pub.written == 0
      ensures seqno == if old(seqFile) + 1 < SEQUENCES && fault == NoFault then Some(old(seqFile) + 1) else None
      ensures seqFile == if old(seqFile) + 1 < SEQUENCES && fault != FailBefore then old(seqFile) + 1 else old(seqFile)
    {
      var next := (seqFile + 1) % SEQUENCES;
      if next == 0 || seqFile >= SEQUENCES {
        return None;
      }
      if fault != FailBefore {
        seqFile := next;
        Take(Publisher.Allocate);
      }
      return if fault == NoFault then Some(next) else None;
    }

    /** The closure of Publish: one object per chunk, written unless it is there. */
    method PutObjects(raws: seq<Bytes>, fault: Site -> Fault) returns (ok: bool)
      requires w.Sane() && Valid() && pub.pc == Allocated && pub.written == 0
      requires raws == w.params.Rule(w.g).Chunks(pub.job.input) && forall raw | raw in raws ::
               w.c.gzip(raw) in w.encodings
      modifies this`blobs, this`steps, this`pub
      ensures Valid() && start == old(start) && old(steps) <= steps
      ensures pub.pc == Allocated && pub.job == old(pub).job && (ok ==> pub.written == |raws|) && (Calm(fault) ==> ok)
    {
      for i := 0 to |raws|
        invariant Valid() && start == old(start) && old(steps) <= steps
        invariant pub.pc == Allocated && pub.job == old(pub).job && pub.written == i
      {
        ok := PutObject(raws[i], fault(AtObject(i)));
        if !ok {
          return false;
        }
      }
      return true;
    }

    method PutObject(raw: Bytes, fault: Fault) returns (ok: bool)
      requires w.Sane() && Valid() && pub.pc == Allocated && pub.written < |w.params.Rule(w.g).Chunks(pub.job.input)|
      requires raw == w.params.Rule(w.g).Chunks(pub.job.input)[pub.written] && w.c.gzip(raw) in w.encodings
      modifies this`blobs, this`steps, this`pub
      ensures Valid() && start == old(start) && old(steps) <= steps
      ensures pub.pc == Allocated && pub.job == old(pub).job && (ok ==> pub.written == old(pub).written + 1)
      ensures fault == NoFault ==> ok
    {
      var enc := w.c.gzip(raw);
      var key := w.c.sha(enc);
      if key in blobs && w.c.sha(blobs[key]) == key && |blobs[key]| == |enc| {
        ObjectsAreKnown(w, start, steps, pub);
        SameObject(w, blobs, enc);
        Take(PutBlob);
        return true;
      }
      if fault != FailBefore {
        blobs := blobs[key := enc];
        Take(PutBlob);
      }
      return fault == NoFault;
    }

    /** What promote decides about the channel as it is. */
    method Decide(envelope: Bytes) returns (verdict: Verdict)
      requires w.Sane() && Valid() && pub.pc == ReleaseReady && pub.envelope == envelope
      ensures verdict != Refuse
      ensures verdict == Keep ==>
                AtOrAhead(w.c, channel, channel, envelope)
                && Promotion(w.c, pub) == pub.(pc := Promoted)
      ensures verdict == Replace ==> Promotion(w.c, pub) == pub.(pc := Promoted, channel := Some(envelope))
    {
      NeverRefused(w, start, steps, pub);
      verdict := Replace;
      if channel.Some? {
        verdict := Compare(w.c, channel.value, envelope);
      }
      PromotionIs(w.c, pub, verdict);
    }

    /** promote: the channel moves to the envelope unless it is already there or ahead. */
    method Promote(envelope: Bytes, fault: Fault) returns (ok: bool)
      requires w.Sane() && Valid() && pub.pc == ReleaseReady && pub.envelope == envelope
      modifies this`channel, this`steps, this`pub
      ensures Valid() && start == old(start) && old(steps) <= steps
      ensures ok ==> pub.pc == Promoted && pub.job == old(pub).job
      ensures channel == old(channel) || channel == Some(envelope)
      ensures ok ==> AtOrAhead(w.c, old(channel), channel, envelope)
      ensures fault == NoFault ==> ok
    {
      var verdict := Decide(envelope);
      if verdict == Refuse {
        return false;
      }
      if verdict == Keep {
        Take(Publisher.Promote);
        return true;
      }
      if fault != FailBefore {
        channel := Some(envelope);
        Take(Publisher.Promote);
      }
      return fault == NoFault;
    }

    /** The release file, unless another one has the name already. */
    method WriteRelease(name: string, envelope: Bytes, fault: Fault) returns (ok: bool)
      requires name == w.Name(pub.job.req) && Valid() && pub.pc == Allocated
               && envelope == w.c.seal(w.ManifestFor(pub.job))
      requires pub.written == |w.ManifestFor(pub.job).chunks|
      modifies this`releases, this`steps, this`pub
      ensures Valid() && start == old(start) && old(steps) <= steps
      ensures ok ==> pub.pc == ReleaseReady && pub.envelope == envelope && pub.job == old(pub).job
      ensures ok <==> Publishable(w.c, w.ManifestFor(old(pub).job), old(releases)) && fault == NoFault
      ensures releases == old(releases) || releases == old(releases)[name := envelope]
      ensures ok ==> releases == old(releases)[name := envelope]
    {
      var v := Verify(w.c, envelope, PUBLISH_LIMIT);
      if v.Err? || (name in releases && releases[name] != envelope) {
        return false;
      }
      if fault != FailBefore {
        releases := releases[name := envelope];
        Take(Publisher.WriteRelease);
      }
      return fault == NoFault;
    }

    /** A retry: the release exists, so its exact bytes are promoted again. */
    method ReuseRelease(q: Req) returns (envelope: Option<Bytes>)
      requires w.Sane() && Valid() && pub.pc == Asked && pub.job.req == q && w.Name(q) in releases
      modifies this`steps, this`pub
      ensures Valid() && start == old(start) && old(steps) <= steps
      ensures envelope == Some(releases[w.Name(q)]) && pub.pc == ReleaseReady && pub.envelope == envelope.value
      ensures pub.job == old(pub).job
    {
      RetryMatches(w, start, steps, pub);
      var file := releases[w.Name(q)];
      Take(Reuse);
      var v := Verify(w.c, file, PUBLISH_LIMIT);
      if v.Err? || v.value.manifest.release != w.Name(q) || v.value.manifest.source != w.Source(q)
         || v.value.manifest.kind != "docker-archive" {
        return None;
      }
      return Some(file);
    }

    /** A first publication: export, allocate, write the objects, then the release. */
    method NewRelease(q: Req, input: Bytes, imageID: string, fault: Site -> Fault) returns (envelope: Option<Bytes>)
      requires w.Sane() && Valid() && pub.pc == Asked && pub.job.req == q && w.Name(q) !in releases
      requires forall raw | raw in w.params.Rule(w.g).Chunks(input) :: w.c.gzip(raw) in w.encodings
      modifies this`seqFile, this`blobs, this`releases, this`steps, this`pub
      ensures Valid() && start == old(start) && old(steps) <= steps
      ensures envelope.Some? ==> pub.pc == ReleaseReady && pub.envelope == envelope.value && pub.job.req == q
      ensures var job := Job(q, input, imageID, old(seqFile) + 1);
              && Made(w, job, old(releases), releases, envelope.Some?, Calm(fault))
              && (envelope.Some? ==> seqFile == job.seqno && envelope.value == SignedFile(w, job))
    {
      SignedFileIs(w, Job(q, input, imageID, seqFile + 1));
      var job := Allocate(q, input, imageID, fault(AtSequence));
      if job.None? {
        return None;
      }
      envelope := Fill(job.value, fault);
    }

    method Allocate(q: Req, input: Bytes, imageID: string, fault: Fault) returns (job: Option<Job>)
      requires Valid() && pub.pc == Asked && pub.job.req == q && w.Name(q) !in releases
      modifies this`seqFile, this`steps, this`pub
      ensures Valid() && start == old(start) && old(steps) <= steps
      ensures job == if old(seqFile) + 1 < SEQUENCES && fault == NoFault
              then Some(Job(q, input, imageID, old(seqFile) + 1)) else None
      ensures job.Some? ==>
                pub.pc == Allocated && pub.job == job.value && pub.written == 0
                && seqFile == job.value.seqno
    {
      Take(Export(input, imageID));
      var seqno := NextSequence(fault);
      return if seqno.Some? then Some(Job(q, input, imageID, seqno.value)) else None;
    }

    /** Publish with an allocated sequence. */
    method Fill(job: Job, fault: Site -> Fault) returns (envelope: Option<Bytes>)
      requires w.Sane() && Valid() && pub.pc == Allocated && pub.job == job && pub.written == 0
      requires forall raw | raw in w.params.Rule(w.g).Chunks(job.input) :: w.c.gzip(raw) in w.encodings
      modifies this`blobs, this`releases, this`steps, this`pub
      ensures Valid() && start == old(start) && old(steps) <= steps
      ensures envelope.Some? ==> pub.pc == ReleaseReady && pub.envelope == envelope.value && pub.job == job
      ensures Calm(fault) && Fits(job) && w.Name(job.req) !in old(releases) ==> envelope.Some?
      ensures releases == old(releases) || releases == old(releases)[w.Name(job.req) := w.c.seal(w.ManifestFor(job))]
      ensures envelope.Some? ==> envelope.value == w.c.seal(w.ManifestFor(job))
                                 && releases == old(releases)[w.Name(job.req) := envelope.value]
    {
      var raws, split := Split.Split(w.g, w.params, job.input, false, None);
      var ok := PutObjects(raws, fault);
      if !ok {
        return None;
      }
      var sealed := w.c.seal(w.ManifestFor(job));
      ok := WriteRelease(w.Name(job.req), sealed, fault(AtRelease));
      return if ok then Some(sealed) else None;
    }

    /** Trigger: a retry promotes the exact bytes of the release that exists, without a new
        sequence; otherwise the exported archive is published first. */
    method Trigger(q: Req, exported: Option<(Bytes, string)>, fault: Site -> Fault) returns (ok: bool)
      requires w.Sane() && Valid() && pub.pc == Idle && q in w.requests
      requires exported.Some? ==> forall raw | raw in w.params.Rule(w.g).Chunks(exported.value.0) ::
               w.c.gzip(raw) in w.encodings
      modifies this`seqFile, this`blobs, this`releases, this`channel, this`steps, this`pub
      ensures Valid() && start == old(start) && old(steps) <= steps
      ensures ok ==> pub.pc == Promoted && pub.job.req == q
      ensures ok ==> w.Name(q) in releases && AtOrAhead(w.c, old(channel), channel, releases[w.Name(q)])
      ensures w.Name(q) in old(releases) ==>
                releases == old(releases) && seqFile == old(seqFile) && (Calm(fault) ==> ok)
      ensures w.Name(q) !in old(releases) && exported.None? ==> releases == old(releases) && !ok
      ensures w.Name(q) !in old(releases) && exported.Some? ==>
                var job := Job(q, exported.value.0, exported.value.1, old(seqFile) + 1);
                Made(w, job, old(releases), releases, ok, Calm(fault)) && (ok ==> seqFile == job.seqno)
    {
      Take(Request(q));
      var envelope := Obtain(q, exported, fault);
      if envelope.None? {
        return false;
      }
      ok := Promote(envelope.value, fault(AtChannel));
    }

    /** Trigger, followed on success by the acknowledgement of the same request. Whatever
        failed before, a retry whose own writes succeed succeeds: it meets neither the
        identity error nor the equal-sequence error. */
    method TriggerAndAck(q: Req, exported: Option<(Bytes, string)>, fault: Site -> Fault) returns (ok: bool)
      requires w.Sane() && Valid() && pub.pc == Idle && q in w.requests
      requires exported.Some? ==> forall raw | raw in w.params.Rule(w.g).Chunks(exported.value.0) ::
               w.c.gzip(raw) in w.encodings
      modifies this`seqFile, this`blobs, this`releases, this`channel, this`acks, this`steps, this`pub
      ensures Valid() && start == old(start) && old(steps) <= steps && pub.pc == Idle
      ensures acks == old(acks) || acks == old(acks)[(q.repo, q.tag) := q.digest]
      ensures ok ==> acks == old(acks)[(q.repo, q.tag) := q.digest]
      ensures ok ==> w.Name(q) in releases && AtOrAhead(w.c, old(channel), channel, releases[w.Name(q)])
      ensures w.Name(q) in old(releases) ==>
                releases == old(releases) && seqFile == old(seqFile) && (Calm(fault) ==> ok)
      ensures w.Name(q) !in old(releases) && exported.None? ==> releases == old(releases) && !ok
      ensures w.Name(q) !in old(releases) && exported.Some? ==>
                var job := Job(q, exported.value.0, exported.value.1, old(seqFile) + 1);
                Made(w, job, old(releases), releases, ok, Calm(fault)) && (ok ==> seqFile == job.seqno)
    {
      ok := Trigger(q, exported, fault);
      if ok {
        ok := Acknowledge(q, fault(AtAck));
      } else {
        Take(Halt);
      }
    }

    /** The same for any request: a malformed digest is refused before anything is read. */
    method HandleRequest(q: Req, exported: Option<(Bytes, string)>, fault: Site -> Fault) returns (ok: bool)
      requires w.Sane() && Valid() && pub.pc == Idle && (IsImageID(q.digest) ==> q in w.requests)
      requires exported.Some? ==> forall raw | raw in w.params.Rule(w.g).Chunks(exported.value.0) ::
               w.c.gzip(raw) in w.encodings
      modifies this`seqFile, this`blobs, this`releases, this`channel, this`acks, this`steps, this`pub
      ensures Valid() && start == old(start) && old(steps) <= steps && pub.pc == Idle
      ensures ok ==> IsImageID(q.digest) && acks == old(acks)[(q.repo, q.tag) := q.digest]
      ensures Calm(fault) && IsImageID(q.digest) && w.Name(q) in old(releases) ==> ok
      ensures IsImageID(q.digest) && w.Name(q) !in old(releases) && exported.Some? ==>
                Made(w, Job(q, exported.value.0, exported.value.1, old(seqFile) + 1), old(releases), releases, ok,
                    Calm(fault))
      ensures !IsImageID(q.digest) ==> steps == old(steps) && pub == old(pub)
    {
      if !IsImageID(q.digest) {
        return false;
      }
      ok := TriggerAndAck(q, exported, fault);
    }

    method Obtain(q: Req, exported: Option<(Bytes, string)>, fault: Site -> Fault) returns (envelope: Option<Bytes>)
      requires w.Sane() && Valid() && pub.pc == Asked && pub.job.req == q
      requires exported.Some? ==> forall raw | raw in w.params.Rule(w.g).Chunks(exported.value.0) ::
               w.c.gzip(raw) in w.encodings
      modifies this`seqFile, this`blobs, this`releases, this`steps, this`pub
      ensures Valid() && start == old(start) && old(steps) <= steps
      ensures envelope.Some? ==> pub.pc == ReleaseReady && pub.envelope == envelope.value && pub.job.req == q
      ensures w.Name(q) in old(releases) ==>
                releases == old(releases) && seqFile == old(seqFile) && envelope == Some(releases[w.Name(q)])
      ensures w.Name(q) !in old(releases) && exported.None? ==> releases == old(releases) && envelope.None?
      ensures w.Name(q) !in old(releases) && exported.Some? ==>
                var job := Job(q, exported.value.0, exported.value.1, old(seqFile) + 1);
                && Made(w, job, old(releases), releases, envelope.Some?, Calm(fault))
                && (envelope.Some? ==> seqFile == job.seqno && envelope.value == SignedFile(w, job))
    {
      if w.Name(q) in releases {
        envelope := ReuseRelease(q);
      } else if exported.Some? {
        envelope := NewRelease(q, exported.value.0, exported.value.1, fault);
      } else {
        return None;
      }
    }

    method Acknowledge(q: Req, fault: Fault) returns (ok: bool)
      requires Valid() && pub.pc == Promoted && pub.job.req == q
      modifies this`acks, this`steps, this`pub
      ensures Valid() && start == old(start) && old(steps) <= steps && pub.pc == Idle
      ensures ok <==> fault == NoFault
      ensures acks == if fault == FailBefore then old(acks) else old(acks)[(q.repo, q.tag) := q.digest]
    {
      if fault != FailBefore {
        acks := acks[(q.repo, q.tag) := q.digest];
        Take(Ack);
      } else {
        Take(Halt);
      }
      return fault == NoFault;
    }
  }

  datatype Verdict = Keep | Replace | Refuse

  lemma PromotionIs(c: Codec, p: Pub, verdict: Verdict)
    requires verdict == Keep ==> p.channel.Some? && Keeps(c, p.channel.value, p.envelope)
    requires verdict == Replace ==> p.channel == None || Replaces(c, p.channel.value, p.envelope)
    ensures verdict == Keep ==> Promotion(c, p) == p.(pc := Promoted) && AtOrAhead(c, p.channel, p.channel, p.envelope)
    ensures verdict == Replace ==> Promotion(c, p) == p.(pc := Promoted, channel := Some(p.envelope))
  {
  }

  ghost predicate Keeps(c: Codec, current: Bytes, envelope: Bytes) {
    current == envelope || (BothVerify(c, current, envelope) && SeqOf(c, current) > SeqOf(c, envelope))
  }

  ghost predicate Replaces(c: Codec, current: Bytes, envelope: Bytes) {
    current != envelope && BothVerify(c, current, envelope) && SeqOf(c, current) < SeqOf(c, envelope)
  }

  /** After a promotion the channel is this release, or it was left on one of a higher
      sequence. */
  ghost predicate AtOrAhead(c: Codec, was: Option<Bytes>, channel: Option<Bytes>, file: Bytes) {
    && channel.Some?
    && (channel.value == file ||
        (channel == was && BothVerify(c, channel.value, file)
         && Verified(c, channel.value, PUBLISH_LIMIT).value.manifest.sequence
            > Verified(c, file, PUBLISH_LIMIT).value.manifest.sequence))
  }

  ghost predicate BothVerify(c: Codec, a: Bytes, b: Bytes) {
    Verified(c, a, PUBLISH_LIMIT).Some? && Verified(c, b, PUBLISH_LIMIT).Some?
  }

  /** What promote decides about a channel that exists. */
  method Compare(c: Codec, current: Bytes, envelope: Bytes) returns (verdict: Verdict)
    requires c.Compact()
    ensures verdict == Keep <==> Keeps(c, current, envelope)
    ensures verdict == Replace <==> Replaces(c, current, envelope)
  {
    if current == envelope {
      return Keep;
    }
    var was := Verify(c, current, PUBLISH_LIMIT);
    if was.Err? {
      return Refuse;
    }
    var next := Verify(c, envelope, PUBLISH_LIMIT);
    if next.Err? {
      return Refuse;
    }
    return if was.value.manifest.sequence > next.value.manifest.sequence then Keep
           else if was.value.manifest.sequence == next.value.manifest.sequence then Refuse
           else Replace;
  }
}
