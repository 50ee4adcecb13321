/** What loads of a key whose value never changes return, and which writes to a body that
    a leader handed out are harmless. */
module HubBodies {
  import opened Common
  import opened Lru
  import opened Hub

  /** A load that leads, waits for or copies a slice. */
  predicate Uses(l: Load) {
    l.pc != Start && l.pc != Missed && l.pc != Finished
  }

  /** Slice k is still in the cache, or some load still depends on it. */
  ghost predicate Reaches(s: State, k: nat) {
    || (exists i | 0 <= i < |s.cache| :: s.cache[i].data.id == k)
    || (exists t: nat | t < |s.loads| :: Uses(s.loads[t]) && s.loads[t].id == k)
  }

  /** What slice k now holds is the value of its key, if that never changes. */
  predicate SliceOk(calls: seq<Call>, stable: map<string, Bytes>, k: nat) {
    k < |calls| && calls[k].res.Some? ==> Truthful(stable, calls[k].rel, calls[k].res.value)
  }

  /** All that can still be delivered is right. */
  ghost predicate Agreed(s: State, stable: map<string, Bytes>) {
    && (forall i | 0 <= i < |s.cache| :: SliceOk(s.calls, stable, s.cache[i].data.id))
    && (forall t: nat | t < |s.loads| && Uses(s.loads[t]) :: SliceOk(s.calls, stable, s.loads[t].id))
  }

  /** All that was returned is right. */
  ghost predicate Answered(s: State, stable: map<string, Bytes>) {
    forall t: nat | At(s, t, Finished) :: Truthful(stable, s.loads[t].rel, s.loads[t].res)
  }

  // ----------------------------------------------------------------- steps without writes

  ghost predicate CacheAgrees(calls: seq<Call>, cache: seq<Entry>, stable: map<string, Bytes>) {
    forall e | e in cache :: SliceOk(calls, stable, e.data.id)
  }

  lemma AgreedCache(s: State, stable: map<string, Bytes>)
    requires forall i | 0 <= i < |s.cache| :: SliceOk(s.calls, stable, s.cache[i].data.id)
    ensures CacheAgrees(s.calls, s.cache, stable)
  {
  }

  lemma FrontAgrees(calls: seq<Call>, cache: seq<Entry>, stable: map<string, Bytes>, e: Entry, maxBytes: int)
    requires CacheAgrees(calls, cache, stable) && SliceOk(calls, stable, e.data.id)
    ensures CacheAgrees(calls, Front(cache, e), stable) && CacheAgrees(calls, Fit(Front(cache, e), maxBytes), stable)
  {
    forall x ensures x in Front(cache, e) ==> x == e || x in cache
             ensures x in Fit(Front(cache, e), maxBytes) ==> x in Front(cache, e) {
      FrontInside(cache, e, maxBytes, x);
    }
  }

  /** The calls a step leaves: unchanged in result, new, or just read truthfully. */
  ghost predicate CallsAgree(calls: seq<Call>, calls': seq<Call>, stable: map<string, Bytes>) {
    && |calls| <= |calls'|
    && forall k: nat | k < |calls'| ::
         || (k < |calls| && calls'[k].rel == calls[k].rel && calls'[k].res == calls[k].res)
         || SliceOk(calls', stable, k)
  }

  lemma CacheStep(s: State, stable: map<string, Bytes>, maxBytes: int, step: Step)
    requires Sane(s) && Agreed(s, stable) && Enabled(s, stable, step) && !step.Write?
    ensures CacheAgrees(s.calls, Next(s, stable, maxBytes, step).cache, stable)
  {
    AgreedCache(s, stable);
    if (step.Probe? || step.Wake?) && HasKey(s.cache, s.loads[step.t].rel) {
      LookupFinds(s.cache, s.loads[step.t].rel);
      FrontAgrees(s.calls, s.cache, stable, Lookup(s.cache, s.loads[step.t].rel), maxBytes);
    } else if step.Insert? && s.loads[step.t].res.Ok? {
      var l := s.loads[step.t];
      FrontAgrees(s.calls, s.cache, stable, Entry(l.rel, Slice(l.id, l.res.value)), maxBytes);
    } else if step.Invalidate? {
      forall e | e in Drop(s.cache, step.prefix) ensures e in s.cache { DropIsExact(s.cache, step.prefix, e); }
    }
  }

  lemma CallsStep(s: State, stable: map<string, Bytes>, maxBytes: int, step: Step)
    requires Flights(s) && Enabled(s, stable, step) && !step.Write?
    ensures CallsAgree(s.calls, Next(s, stable, maxBytes, step).calls, stable)
  {
    if step.ReadReturns? { assert LoadOk(s, step.t); }
  }

  /** A load takes up only slices that could be delivered before, or a new one. */
  lemma LoadStep(s: State, stable: map<string, Bytes>, maxBytes: int, step: Step, t: nat)
    requires Sane(s) && Agreed(s, stable) && Enabled(s, stable, step) && !step.Write?
    requires t < |Next(s, stable, maxBytes, step).loads| && Uses(Next(s, stable, maxBytes, step).loads[t])
    ensures SliceOk(s.calls, stable, Next(s, stable, maxBytes, step).loads[t].id)
  {
    if !step.Spawn? && !step.Invalidate? && t == step.t {
      MoverStep(s, stable, maxBytes, step);
    }
  }

  lemma MoverStep(s: State, stable: map<string, Bytes>, maxBytes: int, step: Step)
    requires Sane(s) && Agreed(s, stable) && Enabled(s, stable, step)
    requires !step.Write? && !step.Spawn? && !step.Invalidate?
    requires Uses(Next(s, stable, maxBytes, step).loads[step.t])
    ensures SliceOk(s.calls, stable, Next(s, stable, maxBytes, step).loads[step.t].id)
  {
    var rel := s.loads[step.t].rel;
    if (step.Probe? || step.Wake?) && HasKey(s.cache, rel) {
      LookupAgrees(s, stable, rel);
    } else if step.Join? {
      JoinAgrees(s, stable, rel);
    }
  }

  lemma LookupAgrees(s: State, stable: map<string, Bytes>, rel: string)
    requires Agreed(s, stable) && HasKey(s.cache, rel)
    ensures SliceOk(s.calls, stable, Lookup(s.cache, rel).data.id)
  {
    AgreedCache(s, stable);
    LookupFinds(s.cache, rel);
  }

  lemma JoinAgrees(s: State, stable: map<string, Bytes>, rel: string)
    requires Flights(s) && Agreed(s, stable) && rel in s.inflight
    ensures SliceOk(s.calls, stable, s.inflight[rel])
  {
    var k := s.inflight[rel];
    assert InflightOk(s, rel) && CallOk(s, k);
    assert Uses(s.loads[s.calls[k].leader]);
  }

  lemma AgreedKept(s: State, stable: map<string, Bytes>, maxBytes: int, step: Step)
    requires Sane(s) && Agreed(s, stable) && Enabled(s, stable, step) && !step.Write?
    ensures Agreed(Next(s, stable, maxBytes, step), stable)
  {
    var s' := Next(s, stable, maxBytes, step);
    CallsStep(s, stable, maxBytes, step);
    CacheStep(s, stable, maxBytes, step);
    forall i | 0 <= i < |s'.cache| ensures SliceOk(s'.calls, stable, s'.cache[i].data.id) {
      assert s'.cache[i] in s'.cache;
      SameSlice(s.calls, s'.calls, stable, s'.cache[i].data.id);
    }
    forall t: nat | t < |s'.loads| && Uses(s'.loads[t]) ensures SliceOk(s'.calls, stable, s'.loads[t].id) {
      LoadStep(s, stable, maxBytes, step, t);
      SameSlice(s.calls, s'.calls, stable, s'.loads[t].id);
    }
  }

  lemma SameSlice(calls: seq<Call>, calls': seq<Call>, stable: map<string, Bytes>, k: nat)
    requires CallsAgree(calls, calls', stable) && SliceOk(calls, stable, k)
    ensures SliceOk(calls', stable, k)
  {
  }

  lemma AnsweredKept(s: State, stable: map<string, Bytes>, maxBytes: int, step: Step)
    requires Flights(s) && Agreed(s, stable) && Answered(s, stable) && Enabled(s, stable, step)
    ensures Answered(Next(s, stable, maxBytes, step), stable)
  {
    var s' := Next(s, stable, maxBytes, step);
    forall t: nat | At(s', t, Finished) ensures Truthful(stable, s'.loads[t].rel, s'.loads[t].res) {
      AnswerStep(s, stable, maxBytes, step, t);
    }
  }

  /** A load that has just finished returns what its slice holds, or an error. */
  lemma AnswerStep(s: State, stable: map<string, Bytes>, maxBytes: int, step: Step, t: nat)
    requires Flights(s) && Agreed(s, stable) && Answered(s, stable) && Enabled(s, stable, step)
    requires At(Next(s, stable, maxBytes, step), t, Finished)
    ensures var l := Next(s, stable, maxBytes, step).loads[t];
            Truthful(stable, l.rel, l.res)
  {
    if t < |s.loads| && !At(s, t, Finished) {
      assert LoadOk(s, t);
      assert Uses(s.loads[t]);
    }
  }

  // ---------------------------------------------------------------------------- writes

  /** The bytes written are the value again, or nobody can get at the slice any more. */
  ghost predicate Harmless(s: State, stable: map<string, Bytes>, step: Step)
    requires Enabled(s, stable, step)
  {
    step.Write? ==> Truthful(stable, s.loads[step.t].rel, Ok(step.bytes)) || !Reaches(s, s.loads[step.t].id)
  }

  /** A write by the caller of a leader keeps agreement exactly when it is harmless. */
  lemma WriteKeepsAgreed(s: State, stable: map<string, Bytes>, maxBytes: int, t: nat, bytes: Bytes)
    requires Agreed(s, stable) && Enabled(s, stable, Write(t, bytes))
    ensures Agreed(Next(s, stable, maxBytes, Write(t, bytes)), stable) <==> Harmless(s, stable, Write(t, bytes))
  {
    var s', k := Next(s, stable, maxBytes, Write(t, bytes)), s.loads[t].id;
    assert forall j: nat | j != k :: SliceOk(s'.calls, stable, j) == SliceOk(s.calls, stable, j);
    assert SliceOk(s'.calls, stable, k) == Truthful(stable, s.loads[t].rel, Ok(bytes));
    if exists i | 0 <= i < |s.cache| :: s.cache[i].data.id == k {
      var i :| 0 <= i < |s.cache| && s.cache[i].data.id == k;
      assert s'.cache[i].data.id == k;
    }
    forall i | 0 <= i < |s'.cache| ensures s'.cache[i].data.id == s.cache[i].data.id {
    }
  }

  /** Every write in the history is harmless where it is made. */
  ghost predicate Clean(s: State, stable: map<string, Bytes>, maxBytes: int, steps: seq<Step>)
    requires Runs(s, stable, maxBytes, steps)
    decreases |steps|
  {
    steps == [] ||
    (Clean(s, stable, maxBytes, steps[..|steps| - 1])
     && Harmless(After(s, stable, maxBytes, steps[..|steps| - 1]), stable, steps[|steps| - 1]))
  }

  lemma {:induction false} CleanRun(s: State, stable: map<string, Bytes>, maxBytes: int, steps: seq<Step>)
    requires Inv(s) && Agreed(s, stable) && Answered(s, stable)
    requires Runs(s, stable, maxBytes, steps) && Clean(s, stable, maxBytes, steps)
    ensures var s' := After(s, stable, maxBytes, steps);
            Inv(s') && Agreed(s', stable) && Answered(s', stable)
    decreases |steps|
  {
    if steps != [] {
      var init, last := steps[..|steps| - 1], steps[|steps| - 1];
      CleanRun(s, stable, maxBytes, init);
      var m := After(s, stable, maxBytes, init);
      StepKeepsInv(m, stable, maxBytes, last);
      AnsweredKept(m, stable, maxBytes, last);
      if last.Write? {
        WriteKeepsAgreed(m, stable, maxBytes, last.t, last.bytes);
      } else {
        AgreedKept(m, stable, maxBytes, last);
      }
    }
  }

  predicate NoWrites(steps: seq<Step>) {
    forall i | 0 <= i < |steps| :: !steps[i].Write?
  }

  lemma {:induction false} NoWritesIsClean(s: State, stable: map<string, Bytes>, maxBytes: int, steps: seq<Step>)
    requires Runs(s, stable, maxBytes, steps) && NoWrites(steps)
    ensures Clean(s, stable, maxBytes, steps)
    decreases |steps|
  {
    if steps != [] { NoWritesIsClean(s, stable, maxBytes, steps[..|steps| - 1]); }
  }

  /** In every interleaving of any number of loads, invalidations and harmless writes: at
      most one underlying read per key is running, and a successful load of a key whose
      value never changes returns that value. */
  lemma HubIsTransparent(stable: map<string, Bytes>, maxBytes: int, steps: seq<Step>)
    requires Runs(EMPTY, stable, maxBytes, steps) && Clean(EMPTY, stable, maxBytes, steps)
    ensures var s := After(EMPTY, stable, maxBytes, steps);
            && (forall t: nat, u: nat | At(s, t, Reading) && At(s, u, Reading) && s.loads[t].rel == s.loads[u].rel ::
               t == u)
            && (forall t: nat | At(s, t, Finished) :: Truthful(stable, s.loads[t].rel, s.loads[t].res))
  {
    CleanRun(EMPTY, stable, maxBytes, steps);
    var s := After(EMPTY, stable, maxBytes, steps);
    forall t: nat, u: nat | At(s, t, Reading) && At(s, u, Reading) && s.loads[t].rel == s.loads[u].rel ensures t == u {
      OneReadPerKey(s, t, u);
    }
  }

  // ------------------------------------------------------------------------- failures

  /** A finished load belongs to one read of its key: it fails exactly if that read failed,
      a hit never does, and otherwise it returns as many bytes as were read. */
  predicate AnswersFor(calls: seq<Call>, l: Load) {
    && l.id < |calls| && calls[l.id].rel == l.rel && calls[l.id].res.Some?
    && (l.res.Err? <==> calls[l.id].res.value.Err?)
    && (l.kind == Hit ==> l.res.Ok?)
    && (l.res.Ok? ==> |l.res.value| == |calls[l.id].res.value.value|)
  }

  ghost predicate AllAnswer(s: State) {
    forall t: nat | At(s, t, Finished) :: AnswersFor(s.calls, s.loads[t])
  }

  /** Whether and how a read has ended, and how many bytes it gave, stays. */
  lemma ReadsStay(s: State, stable: map<string, Bytes>, maxBytes: int, step: Step, l: Load)
    requires Flights(s) && Enabled(s, stable, step) && AnswersFor(s.calls, l)
    ensures AnswersFor(Next(s, stable, maxBytes, step).calls, l)
  {
    if step.ReadReturns? {
      assert LoadOk(s, step.t);
    }
  }

  lemma AnswerMade(s: State, stable: map<string, Bytes>, maxBytes: int, step: Step)
    requires Flights(s) && KindsOk(s) && Enabled(s, stable, step)
    requires step.Release? || step.Wake? || step.Copy?
    requires At(Next(s, stable, maxBytes, step), step.t, Finished)
    ensures AnswersFor(Next(s, stable, maxBytes, step).calls, Next(s, stable, maxBytes, step).loads[step.t])
  {
    assert LoadOk(s, step.t) && KindOk(s.loads[step.t]);
  }

  /** A finished load is left alone, and only these steps finish one. */
  lemma FinishedBy(s: State, stable: map<string, Bytes>, maxBytes: int, step: Step, t: nat)
    requires Enabled(s, stable, step) && At(Next(s, stable, maxBytes, step), t, Finished)
    ensures At(s, t, Finished) ==> Next(s, stable, maxBytes, step).loads[t] == s.loads[t]
    ensures !At(s, t, Finished) ==> (step.Release? || step.Wake? || step.Copy?) && t == step.t
  {
  }

  lemma AllAnswerKept(s: State, stable: map<string, Bytes>, maxBytes: int, step: Step)
    requires Inv(s) && AllAnswer(s) && Enabled(s, stable, step)
    ensures AllAnswer(Next(s, stable, maxBytes, step))
  {
    var s' := Next(s, stable, maxBytes, step);
    forall t: nat | At(s', t, Finished) ensures AnswersFor(s'.calls, s'.loads[t]) {
      FinishedBy(s, stable, maxBytes, step, t);
      if At(s, t, Finished) {
        ReadsStay(s, stable, maxBytes, step, s.loads[t]);
      } else {
        AnswerMade(s, stable, maxBytes, step);
      }
    }
  }

  /** In every interleaving, with whatever writes, a load fails only with the read it led or
      waited for, and never if it was a hit. */
  lemma {:induction false} FailsOnlyWithItsRead(stable: map<string, Bytes>, maxBytes: int, steps: seq<Step>)
    requires Runs(EMPTY, stable, maxBytes, steps)
    ensures Inv(After(EMPTY, stable, maxBytes, steps)) && AllAnswer(After(EMPTY, stable, maxBytes, steps))
    decreases |steps|
  {
    if steps != [] {
      var init, last := steps[..|steps| - 1], steps[|steps| - 1];
      FailsOnlyWithItsRead(stable, maxBytes, init);
      StepKeepsInv(After(EMPTY, stable, maxBytes, init), stable, maxBytes, last);
      AllAnswerKept(After(EMPTY, stable, maxBytes, init), stable, maxBytes, last);
    }
  }

  // --------------------------------------------------------------- a harmful write is seen

  /** The steps of a load that hits entry i. */
  lemma HitSteps(s: State, stable: map<string, Bytes>, maxBytes: int, i: nat)
      returns (s1: State, s2: State, s3: State, s4: State)
    requires CacheOk(s.calls, s.cache) && i < |s.cache|
    ensures var n, e := |s.loads|, s.cache[i];
            && Enabled(s, stable, Spawn(e.rel)) && s1 == Next(s, stable, maxBytes, Spawn(e.rel))
            && Enabled(s1, stable, Probe(n)) && s2 == Next(s1, stable, maxBytes, Probe(n))
            && Enabled(s2, stable, CountHit(n)) && s3 == Next(s2, stable, maxBytes, CountHit(n))
            && Enabled(s3, stable, Copy(n)) && s4 == Next(s3, stable, maxBytes, Copy(n))
            && s4.loads == s.loads + [Load(e.rel, Finished, Hit, e.data.id, Ok(e.data.bytes))]
  {
    var n := |s.loads|;
    s1, s2 := HitFirst(s, stable, maxBytes, i);
    s3 := Next(s2, stable, maxBytes, CountHit(n));
    s4 := Next(s3, stable, maxBytes, Copy(n));
  }

  lemma HitFirst(s: State, stable: map<string, Bytes>, maxBytes: int, i: nat) returns (s1: State, s2: State)
    requires CacheOk(s.calls, s.cache) && i < |s.cache|
    ensures var n, e := |s.loads|, s.cache[i];
            && Enabled(s, stable, Spawn(e.rel)) && s1 == Next(s, stable, maxBytes, Spawn(e.rel))
            && Enabled(s1, stable, Probe(n)) && s2 == Next(s1, stable, maxBytes, Probe(n))
            && s2.loads == s.loads + [Load(e.rel, Found, NoKind, e.data.id, Err(()))] && s2.calls == s.calls
            && EntryOk(s.calls, e)
  {
    var n, e := |s.loads|, s.cache[i];
    LookupIs(s.cache, i);
    s1 := Next(s, stable, maxBytes, Spawn(e.rel));
    s2 := Next(s1, stable, maxBytes, Probe(n));
  }

  /** A cached entry can be hit: four steps deliver its slice to a new load. */
  lemma HitLater(s: State, stable: map<string, Bytes>, maxBytes: int, i: nat) returns (steps: seq<Step>, s': State)
    requires CacheOk(s.calls, s.cache) && i < |s.cache|
    ensures Path(s, stable, maxBytes, steps, s') && NoWrites(steps)
    ensures s'.loads == s.loads + [Load(s.cache[i].rel, Finished, Hit, s.cache[i].data.id, Ok(s.cache[i].data.bytes))]
  {
    var n, rel := |s.loads|, s.cache[i].rel;
    var s1, s2, s3, s4 := HitSteps(s, stable, maxBytes, i);
    GoThree(s, stable, maxBytes, Spawn(rel), s1, Probe(n), s2, CountHit(n), s3);
    Go(s, stable, maxBytes, [] + [Spawn(rel)] + [Probe(n)] + [CountHit(n)], s3, Copy(n), s4);
    steps, s' := [] + [Spawn(rel)] + [Probe(n)] + [CountHit(n)] + [Copy(n)], s4;
  }

  lemma {:induction false} LookupIs(cache: seq<Entry>, i: nat)
    requires Distinct(cache) && i < |cache|
    ensures HasKey(cache, cache[i].rel) && Lookup(cache, cache[i].rel) == cache[i]
  {
    LookupFinds(cache, cache[i].rel);
    var j :| 0 <= j < |cache| && cache[j] == Lookup(cache, cache[i].rel);
    assert i == j || i < j || j < i;
  }

  lemma CopyNow(s: State, stable: map<string, Bytes>, maxBytes: int, v: nat) returns (s': State)
    requires At(s, v, Copying) && HasRead(s, s.loads[v].id, s.loads[v].rel)
    ensures Enabled(s, stable, Copy(v)) && s' == Next(s, stable, maxBytes, Copy(v))
    ensures s'.loads == s.loads[v := s.loads[v].(pc := Finished, res := s.calls[s.loads[v].id].res.value)]
  {
    s' := Next(s, stable, maxBytes, Copy(v));
  }

  /** A load that holds a slice whose leader has returned can finish with its bytes. */
  lemma UseLater(s: State, stable: map<string, Bytes>, maxBytes: int, v: nat) returns (steps: seq<Step>, s': State)
    requires v < |s.loads| && Uses(s.loads[v]) && !Leading(s.loads[v])
    requires HasRead(s, s.loads[v].id, s.loads[v].rel) && s.calls[s.loads[v].id].done
    ensures Path(s, stable, maxBytes, steps, s') && NoWrites(steps)
    ensures At(s', v, Finished) && s'.loads[v].res == s.calls[s.loads[v].id].res.value
            && s'.loads[v].rel == s.loads[v].rel
  {
    if s.loads[v].pc == Found {
      var s1 := Next(s, stable, maxBytes, CountHit(v));
      s' := CopyNow(s1, stable, maxBytes, v);
      Go(s, stable, maxBytes, [], s, CountHit(v), s1);
      Go(s, stable, maxBytes, [] + [CountHit(v)], s1, Copy(v), s');
      steps := [] + [CountHit(v)] + [Copy(v)];
    } else if s.loads[v].pc == Copying {
      s' := CopyNow(s, stable, maxBytes, v);
      Go(s, stable, maxBytes, [], s, Copy(v), s');
      steps := [] + [Copy(v)];
    } else {
      steps, s' := WaitLater(s, stable, maxBytes, v);
    }
  }

  /** A waiter that finds the entry gone copies from the call. */
  lemma WaitSteps(s: State, stable: map<string, Bytes>, maxBytes: int, v: nat) returns (s1: State, s2: State, s3: State)
    requires At(s, v, Waiting) && HasRead(s, s.loads[v].id, s.loads[v].rel) && s.calls[s.loads[v].id].done
    ensures var rel := s.loads[v].rel;
            && Enabled(s, stable, Invalidate(rel)) && s1 == Next(s, stable, maxBytes, Invalidate(rel))
            && Enabled(s1, stable, Wake(v)) && s2 == Next(s1, stable, maxBytes, Wake(v))
            && Enabled(s2, stable, Copy(v)) && s3 == Next(s2, stable, maxBytes, Copy(v))
            && s3.loads == s.loads[v := s.loads[v].(pc := Finished, res := s.calls[s.loads[v].id].res.value)]
  {
    var l := s.loads[v];
    NotAfterDrop(s.cache, l.rel);
    s1 := Next(s, stable, maxBytes, Invalidate(l.rel));
    s2 := Next(s1, stable, maxBytes, Wake(v));
    assert s2.loads == s.loads[v := l.(pc := Copying)] && s2.calls == s.calls;
    s3 := Next(s2, stable, maxBytes, Copy(v));
  }

  lemma WaitLater(s: State, stable: map<string, Bytes>, maxBytes: int, v: nat) returns (steps: seq<Step>, s': State)
    requires At(s, v, Waiting) && HasRead(s, s.loads[v].id, s.loads[v].rel) && s.calls[s.loads[v].id].done
    ensures Path(s, stable, maxBytes, steps, s') && NoWrites(steps)
    ensures s'.loads == s.loads[v := s.loads[v].(pc := Finished, res := s.calls[s.loads[v].id].res.value)]
  {
    var rel := s.loads[v].rel;
    var s1, s2, s3 := WaitSteps(s, stable, maxBytes, v);
    GoThree(s, stable, maxBytes, Invalidate(rel), s1, Wake(v), s2, Copy(v), s3);
    steps, s' := [] + [Invalidate(rel)] + [Wake(v)] + [Copy(v)], s3;
  }

  lemma NotAfterDrop(cache: seq<Entry>, rel: string)
    ensures !HasKey(Drop(cache, rel), rel)
  {
    if HasKey(Drop(cache, rel), rel) {
      var i :| 0 <= i < |Drop(cache, rel)| && Drop(cache, rel)[i].rel == rel;
      DropIsExact(cache, rel, Drop(cache, rel)[i]);
    }
  }

  /** While anybody can get at the slice, some continuation delivers what was written. */
  lemma WrittenIsSeen(s: State, stable: map<string, Bytes>, maxBytes: int, t: nat, bytes: Bytes)
      returns (steps: seq<Step>, s': State, u: nat)
    requires Inv(s) && Enabled(s, stable, Write(t, bytes)) && Reaches(s, s.loads[t].id)
    ensures Path(Next(s, stable, maxBytes, Write(t, bytes)), stable, maxBytes, steps, s') && NoWrites(steps)
    ensures At(s', u, Finished) && s'.loads[u].rel == s.loads[t].rel && s'.loads[u].res == Ok(bytes)
            && !At(s, u, Finished)
  {
    var s1, k := Next(s, stable, maxBytes, Write(t, bytes)), s.loads[t].id;
    StepKeepsInv(s, stable, maxBytes, Write(t, bytes));
    if i :| 0 <= i < |s.cache| && s.cache[i].data.id == k {
      assert EntryOk(s.calls, s.cache[i]);
      steps, s' := HitLater(s1, stable, maxBytes, i);
      u := |s.loads|;
    } else {
      var v: nat :| v < |s.loads| && Uses(s.loads[v]) && s.loads[v].id == k;
      assert LoadOk(s, v) && LoadOk(s, t);
      steps, s' := UseLater(s1, stable, maxBytes, v);
      u := v;
    }
  }

  /** The exact condition: after a write to a leader's body every continuation without
      further writes answers right if and only if the bytes written are the value of the
      key, or no cache entry carries the slice and no load waits for it or copies it. */
  lemma WriteIsHarmless(s: State, stable: map<string, Bytes>, maxBytes: int, t: nat, bytes: Bytes)
    requires Inv(s) && Agreed(s, stable) && Answered(s, stable) && Enabled(s, stable, Write(t, bytes))
    ensures (forall steps | Runs(Next(s, stable, maxBytes, Write(t, bytes)), stable, maxBytes, steps)
            && NoWrites(steps) ::
               Answered(After(Next(s, stable, maxBytes, Write(t, bytes)), stable, maxBytes, steps), stable))
            <==> Harmless(s, stable, Write(t, bytes))
  {
    var s1 := Next(s, stable, maxBytes, Write(t, bytes));
    if Harmless(s, stable, Write(t, bytes)) {
      StepKeepsInv(s, stable, maxBytes, Write(t, bytes));
      WriteKeepsAgreed(s, stable, maxBytes, t, bytes);
      AnsweredKept(s, stable, maxBytes, Write(t, bytes));
      forall steps | Runs(s1, stable, maxBytes, steps) && NoWrites(steps)
             ensures Answered(After(s1, stable, maxBytes, steps), stable) {
        NoWritesIsClean(s1, stable, maxBytes, steps);
        CleanRun(s1, stable, maxBytes, steps);
      }
    } else {
      var steps, s', u := WrittenIsSeen(s, stable, maxBytes, t, bytes);
      assert !Answered(After(s1, stable, maxBytes, steps), stable);
    }
  }

  // ------------------------------------------------------------------- injected corruption

  /** Exclusive or with 0x40. */
  function Flip(b: byte): (r: byte)
    ensures r != b
  {
    if (b / 64) % 2 == 1 then b - 64 else b + 64
  }

  /** The fault injected into a chunk body: its middle byte is flipped in place. */
  function Corrupt(data: Bytes): (r: Bytes)
    ensures |r| == |data| && (r == data <==> data == [])
  {
    if data == [] then data
    else
      var r := data[|data| / 2 := Flip(data[|data| / 2])];
      assert r[|data| / 2] != data[|data| / 2];
      r
  }
}
