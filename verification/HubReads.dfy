/** When a key is read again, and what an invalidation guarantees. */
module HubReads {
  import opened Common
  import opened Lru
  import opened Hub
  import opened HubBodies

  // ------------------------------------------------------------ after an invalidation

  /** A read of this key is under way, or has succeeded and is not yet cached. */
  predicate Unsettled(l: Load) {
    l.pc == Reading || ((l.pc == Returned || l.pc == Retired) && l.res.Ok?)
  }

  ghost predicate Pending(s: State, rel: string) {
    exists t: nat | t < |s.loads| :: s.loads[t].rel == rel && Unsettled(s.loads[t])
  }

  /** Every successful load of the key that was started as number m or later got bytes
      whose read began as number n or later. */
  ghost predicate Fresh(s: State, rel: string, n: nat, m: nat) {
    forall t: nat | m <= t && At(s, t, Finished) && s.loads[t].rel == rel && s.loads[t].res.Ok? :: s.loads[t].id >= n
  }

  predicate Failed(s: State, k: nat) {
    k < |s.calls| && s.calls[k].res.Some? && s.calls[k].res.value.Err?
  }

  /** What one load contributes to that. */
  predicate LoadFresh(s: State, rel: string, n: nat, m: nat, t: nat)
    requires t < |s.loads|
  {
    var l := s.loads[t];
    l.rel == rel ==>
      && (Unsettled(l) ==> l.id >= n)
      && (m <= t && l.pc != Start && l.pc != Missed ==>
           l.id >= n
           || (Failed(s, l.id) && !(l.pc == Finished && l.res.Ok?)))
  }

  ghost predicate FreshInv(s: State, rel: string, n: nat, m: nat) {
    && n <= |s.calls| && m <= |s.loads|
    && (forall i | 0 <= i < |s.cache| && s.cache[i].rel == rel :: s.cache[i].data.id >= n)
    && (forall t: nat | t < |s.loads| :: LoadFresh(s, rel, n, m, t))
  }

  ghost predicate CacheFresh(cache: seq<Entry>, rel: string, n: nat) {
    forall e | e in cache && e.rel == rel :: e.data.id >= n
  }

  lemma FrontFresh(cache: seq<Entry>, e: Entry, maxBytes: int, rel: string, n: nat)
    requires CacheFresh(cache, rel, n) && (e.rel == rel ==> e.data.id >= n)
    ensures CacheFresh(Front(cache, e), rel, n) && CacheFresh(Fit(Front(cache, e), maxBytes), rel, n)
  {
    forall x ensures x in Front(cache, e) ==> x == e || x in cache
             ensures x in Fit(Front(cache, e), maxBytes) ==> x in Front(cache, e) {
      FrontInside(cache, e, maxBytes, x);
    }
  }

  lemma CacheStepFresh(s: State, stable: map<string, Bytes>, maxBytes: int, step: Step, rel: string, n: nat, m: nat)
    requires Enabled(s, stable, step) && FreshInv(s, rel, n, m)
    ensures CacheFresh(Next(s, stable, maxBytes, step).cache, rel, n)
  {
    var s' := Next(s, stable, maxBytes, step);
    assert CacheFresh(s.cache, rel, n);
    if (step.Probe? || step.Wake?) && HasKey(s.cache, s.loads[step.t].rel) {
      LookupFinds(s.cache, s.loads[step.t].rel);
      FrontFresh(s.cache, Lookup(s.cache, s.loads[step.t].rel), maxBytes, rel, n);
    } else if step.Insert? && s.loads[step.t].res.Ok? {
      var l := s.loads[step.t];
      assert LoadFresh(s, rel, n, m, step.t);
      FrontFresh(s.cache, Entry(l.rel, Slice(l.id, l.res.value)), maxBytes, rel, n);
    } else if step.Invalidate? {
      forall e | e in s'.cache ensures e in s.cache { DropIsExact(s.cache, step.prefix, e); }
    } else if step.Write? {
      forall e | e in s'.cache && e.rel == rel ensures e.data.id >= n {
        var i :| 0 <= i < |s'.cache| && s'.cache[i] == e;
        assert s.cache[i].rel == rel && s.cache[i].data.id == e.data.id;
      }
    }
  }

  /** A failed call stays failed. */
  lemma FailedStays(s: State, stable: map<string, Bytes>, maxBytes: int, step: Step, k: nat)
    requires Flights(s) && Enabled(s, stable, step) && Failed(s, k)
    ensures Failed(Next(s, stable, maxBytes, step), k)
  {
    if step.ReadReturns? { assert LoadOk(s, step.t); }
  }

  lemma JoinFresh(s: State, rel: string, n: nat, m: nat)
    requires Flights(s) && FreshInv(s, rel, n, m) && rel in s.inflight
    ensures s.inflight[rel] >= n || Failed(s, s.inflight[rel])
  {
    var k := s.inflight[rel];
    assert InflightOk(s, rel) && CallOk(s, k);
    var u := s.calls[k].leader;
    assert LoadOk(s, u) && LoadFresh(s, rel, n, m, u);
  }

  /** A load that takes up a slice, or none. */
  lemma TakerFresh(s: State, stable: map<string, Bytes>, maxBytes: int, step: Step, rel: string, n: nat, m: nat)
    requires Sane(s) && Enabled(s, stable, step) && FreshInv(s, rel, n, m)
    requires step.Probe? || step.Wake?
    ensures LoadFresh(Next(s, stable, maxBytes, step), rel, n, m, step.t)
  {
    var t, l := step.t, s.loads[step.t];
    assert LoadFresh(s, rel, n, m, t);
    if l.rel == rel && HasKey(s.cache, rel) {
      LookupFinds(s.cache, rel);
      var i :| 0 <= i < |s.cache| && s.cache[i] == Lookup(s.cache, rel);
      assert s.cache[i].data.id >= n;
    }
  }

  lemma StarterFresh(s: State, stable: map<string, Bytes>, maxBytes: int, step: Step, rel: string, n: nat, m: nat)
    requires Flights(s) && Enabled(s, stable, step) && FreshInv(s, rel, n, m) && (step.Join? || step.Lead?)
    ensures LoadFresh(Next(s, stable, maxBytes, step), rel, n, m, step.t)
  {
    if step.Join? && s.loads[step.t].rel == rel { JoinFresh(s, rel, n, m); }
  }

  /** A load that goes on with the slice it has. */
  lemma HolderFresh(s: State, stable: map<string, Bytes>, maxBytes: int, step: Step, rel: string, n: nat, m: nat)
    requires Flights(s) && Enabled(s, stable, step) && FreshInv(s, rel, n, m)
    requires step.CountHit? || step.ReadReturns? || step.Retire? || step.Insert?
    ensures LoadFresh(Next(s, stable, maxBytes, step), rel, n, m, step.t)
  {
    var l := s.loads[step.t];
    assert LoadOk(s, step.t) && LoadFresh(s, rel, n, m, step.t);
    if Failed(s, l.id) { FailedStays(s, stable, maxBytes, step, l.id); }
  }

  /** A load that returns the slice it has, or its copy. */
  lemma FinisherFresh(s: State, stable: map<string, Bytes>, maxBytes: int, step: Step, rel: string, n: nat, m: nat)
    requires Flights(s) && Enabled(s, stable, step) && FreshInv(s, rel, n, m) && (step.Release? || step.Copy?)
    ensures LoadFresh(Next(s, stable, maxBytes, step), rel, n, m, step.t)
  {
    var l := s.loads[step.t];
    assert LoadOk(s, step.t) && LoadFresh(s, rel, n, m, step.t);
    if Failed(s, l.id) { FailedStays(s, stable, maxBytes, step, l.id); }
  }

  lemma MovedFresh(s: State, stable: map<string, Bytes>, maxBytes: int, step: Step, rel: string, n: nat, m: nat)
    requires Sane(s) && Enabled(s, stable, step) && FreshInv(s, rel, n, m)
    requires !step.Spawn? && !step.Invalidate? && !step.Write?
    ensures LoadFresh(Next(s, stable, maxBytes, step), rel, n, m, step.t)
  {
    if step.Probe? || step.Wake? {
      TakerFresh(s, stable, maxBytes, step, rel, n, m);
    } else if step.Join? || step.Lead? {
      StarterFresh(s, stable, maxBytes, step, rel, n, m);
    } else if step.Release? || step.Copy? {
      FinisherFresh(s, stable, maxBytes, step, rel, n, m);
    } else {
      HolderFresh(s, stable, maxBytes, step, rel, n, m);
    }
  }

  /** A load that the step does not move. */
  lemma OtherFresh(s: State, stable: map<string, Bytes>, maxBytes: int, step: Step, rel: string, n: nat, m: nat, t: nat)
    requires Flights(s) && Enabled(s, stable, step) && t < |s.loads| && LoadFresh(s, rel, n, m, t)
    requires Next(s, stable, maxBytes, step).loads[t] == s.loads[t]
    ensures LoadFresh(Next(s, stable, maxBytes, step), rel, n, m, t)
  {
    if Failed(s, s.loads[t].id) { FailedStays(s, stable, maxBytes, step, s.loads[t].id); }
  }

  lemma FreshKept(s: State, stable: map<string, Bytes>, maxBytes: int, step: Step, rel: string, n: nat, m: nat)
    requires Inv(s) && Enabled(s, stable, step) && FreshInv(s, rel, n, m)
    ensures FreshInv(Next(s, stable, maxBytes, step), rel, n, m)
  {
    var s' := Next(s, stable, maxBytes, step);
    CacheStepFresh(s, stable, maxBytes, step, rel, n, m);
    forall t: nat | t < |s'.loads| ensures LoadFresh(s', rel, n, m, t) {
      if !step.Spawn? && !step.Invalidate? && !step.Write? && t == step.t {
        MovedFresh(s, stable, maxBytes, step, rel, n, m);
      } else if t < |s.loads| {
        OtherFresh(s, stable, maxBytes, step, rel, n, m, t);
      }
    }
  }

  lemma {:induction false} FreshRun(s: State, stable: map<string, Bytes>, maxBytes: int, steps: seq<Step>,
                                    rel: string, n: nat, m: nat)
    requires Inv(s) && FreshInv(s, rel, n, m) && Runs(s, stable, maxBytes, steps)
    ensures Inv(After(s, stable, maxBytes, steps)) && FreshInv(After(s, stable, maxBytes, steps), rel, n, m)
    decreases |steps|
  {
    if steps != [] {
      var init, last := steps[..|steps| - 1], steps[|steps| - 1];
      FreshRun(s, stable, maxBytes, init, rel, n, m);
      FreshKept(After(s, stable, maxBytes, init), stable, maxBytes, last, rel, n, m);
      StepKeepsInv(After(s, stable, maxBytes, init), stable, maxBytes, last);
    }
  }

  lemma {:induction false} PathJoin(s: State, stable: map<string, Bytes>, maxBytes: int, a: seq<Step>, m: State,
                                    b: seq<Step>, s': State)
    requires Path(s, stable, maxBytes, a, m) && Path(m, stable, maxBytes, b, s')
    ensures Path(s, stable, maxBytes, a + b, s')
    decreases |b|
  {
    if b == [] {
      assert a + b == a;
    } else {
      var init, last := b[..|b| - 1], b[|b| - 1];
      var p := PathInit(m, stable, maxBytes, b, s');
      PathJoin(s, stable, maxBytes, a, m, init, p);
      Go(s, stable, maxBytes, a + init, p, last, s');
      assert a + init + [last] == a + b;
    }
  }

  lemma PathInit(s: State, stable: map<string, Bytes>, maxBytes: int, steps: seq<Step>, s': State) returns (m: State)
    requires steps != [] && Path(s, stable, maxBytes, steps, s')
    ensures Path(s, stable, maxBytes, steps[..|steps| - 1], m)
    ensures Enabled(m, stable, steps[|steps| - 1]) && s' == Next(m, stable, maxBytes, steps[|steps| - 1])
  {
    m := After(s, stable, maxBytes, steps[..|steps| - 1]);
  }

  /** A read that is unsettled can be inserted, whatever is cached. */
  lemma InsertLater(s: State, stable: map<string, Bytes>, maxBytes: int, t: nat) returns (steps: seq<Step>, s': State)
    requires Inv(s) && t < |s.loads| && Unsettled(s.loads[t])
    ensures Path(s, stable, maxBytes, steps, s') && Inv(s') && |s'.loads| == |s.loads|
    ensures s'.cache != [] && s'.cache[0].rel == s.loads[t].rel && s'.cache[0].data.id == s.loads[t].id
  {
    var l := s.loads[t];
    assert LoadOk(s, t);
    if l.pc == Reading {
      var v := if l.rel in stable then stable[l.rel] else [];
      var s1 := Next(s, stable, maxBytes, ReadReturns(t, Ok(v)));
      Go(s, stable, maxBytes, [], s, ReadReturns(t, Ok(v)), s1);
      StepKeepsInv(s, stable, maxBytes, ReadReturns(t, Ok(v)));
      var rest;
      rest, s' := RetireLater(s1, stable, maxBytes, t);
      PathJoin(s, stable, maxBytes, [] + [ReadReturns(t, Ok(v))], s1, rest, s');
      steps := [] + [ReadReturns(t, Ok(v))] + rest;
    } else {
      steps, s' := RetireLater(s, stable, maxBytes, t);
    }
  }

  lemma RetireLater(s: State, stable: map<string, Bytes>, maxBytes: int, t: nat) returns (steps: seq<Step>, s': State)
    requires Inv(s) && t < |s.loads| && Unsettled(s.loads[t]) && s.loads[t].pc != Reading
    ensures Path(s, stable, maxBytes, steps, s') && Inv(s') && |s'.loads| == |s.loads|
    ensures s'.cache != [] && s'.cache[0].rel == s.loads[t].rel && s'.cache[0].data.id == s.loads[t].id
  {
    if s.loads[t].pc == Returned {
      var s1 := Next(s, stable, maxBytes, Retire(t));
      Go(s, stable, maxBytes, [], s, Retire(t), s1);
      StepKeepsInv(s, stable, maxBytes, Retire(t));
      s' := InsertNow(s1, stable, maxBytes, t);
      Go(s, stable, maxBytes, [] + [Retire(t)], s1, Insert(t), s');
      steps := [] + [Retire(t)] + [Insert(t)];
    } else {
      s' := InsertNow(s, stable, maxBytes, t);
      Go(s, stable, maxBytes, [], s, Insert(t), s');
      steps := [] + [Insert(t)];
    }
  }

  lemma InsertNow(s: State, stable: map<string, Bytes>, maxBytes: int, t: nat) returns (s': State)
    requires Inv(s) && At(s, t, Retired) && s.loads[t].res.Ok?
    ensures s' == Next(s, stable, maxBytes, Insert(t)) && Inv(s') && |s'.loads| == |s.loads|
    ensures s'.cache != [] && s'.cache[0].rel == s.loads[t].rel && s'.cache[0].data.id == s.loads[t].id
  {
    var l := s.loads[t];
    s' := Next(s, stable, maxBytes, Insert(t));
    StepKeepsInv(s, stable, maxBytes, Insert(t));
    FitIsLongest(Front(s.cache, Entry(l.rel, Slice(l.id, l.res.value))), maxBytes);
  }

  /** What an invalidation guarantees: every load of a matching key that starts after it
      gets bytes read after it, in every continuation, if and only if no read of that key
      was under way, or done and not yet cached, when it was made. */
  lemma InvalidationIsExact(s: State, stable: map<string, Bytes>, maxBytes: int, prefix: string, rel: string)
    requires Inv(s) && prefix <= rel
    ensures (forall steps | Runs(Next(s, stable, maxBytes, Invalidate(prefix)), stable, maxBytes, steps) ::
               Fresh(After(Next(s, stable, maxBytes, Invalidate(prefix)), stable, maxBytes, steps), rel, |s.calls|,
                   |s.loads|))
            <==> !Pending(s, rel)
  {
    if !Pending(s, rel) {
      forall steps | Runs(Next(s, stable, maxBytes, Invalidate(prefix)), stable, maxBytes, steps)
        ensures Fresh(After(Next(s, stable, maxBytes, Invalidate(prefix)), stable, maxBytes, steps), rel, |s.calls|,
                |s.loads|) {
        SettledIsFresh(s, stable, maxBytes, prefix, rel, steps);
      }
    } else {
      var steps := PendingIsServed(s, stable, maxBytes, prefix, rel);
    }
  }

  lemma SettledIsFresh(s: State, stable: map<string, Bytes>, maxBytes: int, prefix: string, rel: string,
                       steps: seq<Step>)
    requires Inv(s) && prefix <= rel && !Pending(s, rel)
    requires Runs(Next(s, stable, maxBytes, Invalidate(prefix)), stable, maxBytes, steps)
    ensures Fresh(After(Next(s, stable, maxBytes, Invalidate(prefix)), stable, maxBytes, steps), rel, |s.calls|,
            |s.loads|)
  {
    var s1, n, m := Next(s, stable, maxBytes, Invalidate(prefix)), |s.calls|, |s.loads|;
    StepKeepsInv(s, stable, maxBytes, Invalidate(prefix));
    InvalidatedIsFresh(s, stable, maxBytes, prefix, rel);
    FreshRun(s1, stable, maxBytes, steps, rel, n, m);
    InvGivesFresh(After(s1, stable, maxBytes, steps), rel, n, m);
  }

  /** A pending read can be cached after the invalidation, and then be hit. */
  lemma PendingIsServed(s: State, stable: map<string, Bytes>, maxBytes: int, prefix: string, rel: string)
      returns (steps: seq<Step>)
    requires Inv(s) && Pending(s, rel)
    ensures Runs(Next(s, stable, maxBytes, Invalidate(prefix)), stable, maxBytes, steps)
    ensures !Fresh(After(Next(s, stable, maxBytes, Invalidate(prefix)), stable, maxBytes, steps), rel, |s.calls|,
            |s.loads|)
  {
    var s1 := Next(s, stable, maxBytes, Invalidate(prefix));
    StepKeepsInv(s, stable, maxBytes, Invalidate(prefix));
    var t: nat :| t < |s.loads| && s.loads[t].rel == rel && Unsettled(s.loads[t]);
    assert LoadOk(s, t);
    var a, s2 := InsertLater(s1, stable, maxBytes, t);
    var b, s3 := HitLater(s2, stable, maxBytes, 0);
    PathJoin(s1, stable, maxBytes, a, s2, b, s3);
    steps := a + b;
    NotFresh(s3, rel, |s.calls|, |s.loads|);
  }

  lemma NotFresh(s: State, rel: string, n: nat, m: nat)
    requires At(s, m, Finished) && s.loads[m].rel == rel && s.loads[m].res.Ok? && s.loads[m].id < n
    ensures !Fresh(s, rel, n, m)
  {
  }

  lemma InvGivesFresh(s: State, rel: string, n: nat, m: nat)
    requires FreshInv(s, rel, n, m)
    ensures Fresh(s, rel, n, m)
  {
    forall t: nat | m <= t && At(s, t, Finished) && s.loads[t].rel == rel && s.loads[t].res.Ok?
           ensures s.loads[t].id >= n {
      assert LoadFresh(s, rel, n, m, t);
    }
  }

  lemma InvalidatedIsFresh(s: State, stable: map<string, Bytes>, maxBytes: int, prefix: string, rel: string)
    requires Inv(s) && prefix <= rel && !Pending(s, rel)
    ensures FreshInv(Next(s, stable, maxBytes, Invalidate(prefix)), rel, |s.calls|, |s.loads|)
  {
    var s1 := Next(s, stable, maxBytes, Invalidate(prefix));
    forall i | 0 <= i < |s1.cache| ensures s1.cache[i].rel != rel {
      DropIsExact(s.cache, prefix, s1.cache[i]);
    }
  }

  // ------------------------------------------------------------- when a key is read again

  /** Step i of a history is taken in state f(i). */
  ghost predicate TraceStep(stable: map<string, Bytes>, maxBytes: int, steps: seq<Step>, f: nat -> State, i: nat) {
    i < |steps| ==> Enabled(f(i), stable, steps[i]) && f(i + 1) == Next(f(i), stable, maxBytes, steps[i])
  }

  /** f gives the states of a history from an empty hub. */
  ghost predicate Trace(stable: map<string, Bytes>, maxBytes: int, steps: seq<Step>, f: nat -> State) {
    f(0) == EMPTY && forall i: nat :: TraceStep(stable, maxBytes, steps, f, i)
  }

  lemma {:induction false} RunsPrefix(stable: map<string, Bytes>, maxBytes: int, steps: seq<Step>, i: nat)
    requires Runs(EMPTY, stable, maxBytes, steps) && i <= |steps|
    ensures Runs(EMPTY, stable, maxBytes, steps[..i])
    decreases |steps| - i
  {
    if i == |steps| {
      assert steps[..i] == steps;
    } else {
      RunsPrefix(stable, maxBytes, steps, i + 1);
      assert steps[..i + 1][..i] == steps[..i];
    }
  }

  /** The states of a history are those of its prefixes. */
  lemma HistoryIsTrace(stable: map<string, Bytes>, maxBytes: int, steps: seq<Step>, f: nat -> State)
    requires Runs(EMPTY, stable, maxBytes, steps)
    requires forall i: nat | i <= |steps| :: Path(EMPTY, stable, maxBytes, steps[..i], f(i))
    ensures Trace(stable, maxBytes, steps, f)
  {
    assert steps[..0] == [];
    assert Path(EMPTY, stable, maxBytes, steps[..0], f(0));
    forall i: nat ensures TraceStep(stable, maxBytes, steps, f, i) {
      if i < |steps| {
        PrefixStep(stable, maxBytes, steps, i, f(i), f(i + 1));
      }
    }
  }

  lemma PrefixStep(stable: map<string, Bytes>, maxBytes: int, steps: seq<Step>, i: nat, s: State, s': State)
    requires i < |steps| && Path(EMPTY, stable, maxBytes, steps[..i], s)
             && Path(EMPTY, stable, maxBytes, steps[..i + 1], s')
    ensures Enabled(s, stable, steps[i]) && s' == Next(s, stable, maxBytes, steps[i])
  {
    assert steps[..i + 1][..i] == steps[..i];
  }

  /** Every history has such a trace. */
  lemma TraceOf(stable: map<string, Bytes>, maxBytes: int, steps: seq<Step>) returns (f: nat -> State)
    requires Runs(EMPTY, stable, maxBytes, steps)
    ensures Trace(stable, maxBytes, steps, f) && f(|steps|) == After(EMPTY, stable, maxBytes, steps)
  {
    f := (i: nat) => if i <= |steps| && Runs(EMPTY, stable, maxBytes, steps[..i])
              then After(EMPTY, stable, maxBytes, steps[..i]) else EMPTY;
    forall i: nat | i <= |steps| ensures Path(EMPTY, stable, maxBytes, steps[..i], f(i)) {
      RunsPrefix(stable, maxBytes, steps, i);
    }
    HistoryIsTrace(stable, maxBytes, steps, f);
    assert steps[..|steps|] == steps;
  }

  lemma {:induction false} TraceInv(stable: map<string, Bytes>, maxBytes: int, steps: seq<Step>, f: nat -> State,
                                    i: nat)
    requires Trace(stable, maxBytes, steps, f) && i <= |steps|
    ensures Inv(f(i))
    decreases i
  {
    if i == 0 {
      EmptyInv();
    } else {
      TraceInv(stable, maxBytes, steps, f, i - 1);
      assert TraceStep(stable, maxBytes, steps, f, i - 1);
      StepKeepsInv(f(i - 1), stable, maxBytes, steps[i - 1]);
    }
  }

  /** A step that caches bytes for the key, and one that takes them away. */
  predicate Caches(s: State, step: Step, rel: string) {
    step.Insert? && At(s, step.t, Retired) && s.loads[step.t].rel == rel && s.loads[step.t].res.Ok?
  }

  predicate TakesAway(s: State, s': State, rel: string) {
    HasKey(s.cache, rel) && !HasKey(s'.cache, rel)
  }

  lemma KeysOfCons(e: Entry, order: seq<Entry>, rel: string)
    ensures HasKey([e] + order, rel) == (e.rel == rel || HasKey(order, rel))
  {
    var r := [e] + order;
    assert r[0] == e;
    if HasKey(order, rel) {
      var i :| 0 <= i < |order| && order[i].rel == rel;
      assert r[i + 1] == order[i];
    }
    if HasKey(r, rel) && e.rel != rel {
      var i :| 0 <= i < |r| && r[i].rel == rel;
      assert order[i - 1] == r[i];
    }
  }

  lemma KeysOfFront(cache: seq<Entry>, e: Entry, rel: string)
    ensures HasKey(Front(cache, e), rel) == (e.rel == rel || HasKey(cache, rel))
  {
    WithoutFacts(cache, e.rel, rel);
    KeysOfCons(e, Without(cache, e.rel), rel);
  }

  lemma KeysOfFit(cache: seq<Entry>, e: Entry, maxBytes: int, rel: string)
    ensures HasKey(Fit(Front(cache, e), maxBytes), rel) ==> e.rel == rel || HasKey(cache, rel)
    ensures HasKey(Fit(Front(cache, e), maxBytes), e.rel)
  {
    FitIsLongest(Front(cache, e), maxBytes);
    KeysOfFront(cache, e, rel);
    var f := Fit(Front(cache, e), maxBytes);
    assert f[0] == e;
    if HasKey(f, rel) {
      var i :| 0 <= i < |f| && f[i].rel == rel;
      assert Front(cache, e)[i].rel == rel;
    }
  }

  lemma KeysOfDrop(cache: seq<Entry>, prefix: string, rel: string)
    ensures HasKey(Drop(cache, prefix), rel) ==> HasKey(cache, rel)
  {
    if HasKey(Drop(cache, prefix), rel) {
      var i :| 0 <= i < |Drop(cache, prefix)| && Drop(cache, prefix)[i].rel == rel;
      DropIsExact(cache, prefix, Drop(cache, prefix)[i]);
      var j :| 0 <= j < |cache| && cache[j] == Drop(cache, prefix)[i];
    }
  }

  lemma KeysOfWrite(cache: seq<Entry>, k: nat, bytes: Bytes, rel: string)
    ensures HasKey(Rewrite(cache, k, bytes), rel) == HasKey(cache, rel)
  {
    var r := Rewrite(cache, k, bytes);
    assert forall i | 0 <= i < |cache| :: r[i].rel == cache[i].rel;
    if HasKey(cache, rel) {
      var i :| 0 <= i < |cache| && cache[i].rel == rel;
      assert r[i].rel == rel;
    }
  }

  /** Only an insert of the key caches it, and it does. */
  lemma KeyStep(s: State, stable: map<string, Bytes>, maxBytes: int, step: Step, rel: string)
    requires Enabled(s, stable, step)
    ensures var s' := Next(s, stable, maxBytes, step);
            HasKey(s'.cache, rel) <==> Caches(s, step, rel) || (HasKey(s.cache, rel) && !TakesAway(s, s', rel))
  {
    match step
    case Probe(t) =>
      if HasKey(s.cache, s.loads[t].rel) {
        LookupFinds(s.cache, s.loads[t].rel);
        KeysOfFront(s.cache, Lookup(s.cache, s.loads[t].rel), rel);
      }
    case Wake(t) =>
      if HasKey(s.cache, s.loads[t].rel) {
        LookupFinds(s.cache, s.loads[t].rel);
        KeysOfFront(s.cache, Lookup(s.cache, s.loads[t].rel), rel);
      }
    case Insert(t) =>
      var l := s.loads[t];
      if l.res.Ok? { KeysOfFit(s.cache, Entry(l.rel, Slice(l.id, l.res.value)), maxBytes, rel); }
    case Write(t, bytes) => KeysOfWrite(s.cache, s.loads[t].id, bytes, rel);
    case Invalidate(prefix) => KeysOfDrop(s.cache, prefix, rel);
    case _ =>
  }

  ghost predicate CachesAt(steps: seq<Step>, f: nat -> State, i: nat, rel: string) {
    i < |steps| && Caches(f(i), steps[i], rel)
  }

  ghost predicate TakesAwayAt(f: nat -> State, i: nat, rel: string) {
    TakesAway(f(i), f(i + 1), rel)
  }

  /** The insert at i has not been undone by step p. */
  ghost predicate Lasts(f: nat -> State, i: nat, p: nat, rel: string) {
    forall j: nat | i < j < p :: !TakesAwayAt(f, j, rel)
  }

  /** A flag that c sets and r clears is up at p exactly when some c before p was not
      followed by an r. */
  lemma {:induction false} UpExactly(k: nat -> bool, c: nat -> bool, r: nat -> bool, p: nat)
    requires !k(0) && forall q: nat | q < p :: k(q + 1) <==> c(q) || (k(q) && !r(q))
    ensures k(p) <==> exists i: nat | i < p :: c(i) && forall j: nat | i < j < p :: !r(j)
    decreases p
  {
    if p > 0 {
      var q := p - 1;
      UpExactly(k, c, r, q);
      assert k(q + 1) <==> c(q) || (k(q) && !r(q));
      if k(p) && !c(q) {
        var i: nat :| i < q && c(i) && forall j: nat | i < j < q :: !r(j);
        assert forall j: nat | i < j < p :: !r(j);
      }
      if !k(p) {
        forall i: nat | i < p && c(i) ensures exists j: nat | i < j < p :: r(j) {
          if forall j: nat | i < j < q :: !r(j) {
            assert r(q);
          }
        }
      }
    }
  }

  lemma CachedStep(stable: map<string, Bytes>, maxBytes: int, steps: seq<Step>, f: nat -> State, q: nat, rel: string)
    requires Trace(stable, maxBytes, steps, f) && q < |steps|
    ensures HasKey(f(q + 1).cache, rel) <==>
            CachesAt(steps, f, q, rel) || (HasKey(f(q).cache, rel) && !TakesAwayAt(f, q, rel))
  {
    assert TraceStep(stable, maxBytes, steps, f, q);
    KeyStep(f(q), stable, maxBytes, steps[q], rel);
  }

  /** A key is cached exactly when some insert of it was not undone since. */
  lemma CachedExactly(stable: map<string, Bytes>, maxBytes: int, steps: seq<Step>, f: nat -> State, p: nat, rel: string)
    requires Trace(stable, maxBytes, steps, f) && p <= |steps|
    ensures HasKey(f(p).cache, rel) <==> exists i: nat | i < p :: CachesAt(steps, f, i, rel) && Lasts(f, i, p, rel)
  {
    var k := (i: nat) => HasKey(f(i).cache, rel);
    var c := (i: nat) => CachesAt(steps, f, i, rel);
    var r := (i: nat) => TakesAwayAt(f, i, rel);
    forall q: nat | q < p ensures k(q + 1) <==> c(q) || (k(q) && !r(q)) {
      CachedStep(stable, maxBytes, steps, f, q, rel);
    }
    UpExactly(k, c, r, p);
    assert forall j: nat :: r(j) == TakesAwayAt(f, j, rel);
    assert forall i: nat :: c(i) == CachesAt(steps, f, i, rel);
    assert forall i: nat :: Lasts(f, i, p, rel) <==> forall j: nat | i < j < p :: !r(j);
    if k(p) {
      var i: nat :| i < p && c(i) && forall j: nat | i < j < p :: !r(j);
      assert CachesAt(steps, f, i, rel) && Lasts(f, i, p, rel);
    }
  }

  /** The step is one of load u. */
  predicate StepOf(step: Step, u: nat) {
    !step.Spawn? && !step.Invalidate? && step.t == u
  }

  lemma {:induction false} Idle(stable: map<string, Bytes>, maxBytes: int, steps: seq<Step>, f: nat -> State,
                                p: nat, b: nat, u: nat)
    requires Trace(stable, maxBytes, steps, f) && p < b <= |steps| && u < |f(p + 1).loads|
    requires forall j: nat | p < j < b :: !StepOf(steps[j], u)
    ensures u < |f(b).loads| && f(b).loads[u] == f(p + 1).loads[u]
    decreases b
  {
    if p + 1 < b {
      Idle(stable, maxBytes, steps, f, p, b - 1, u);
      assert TraceStep(stable, maxBytes, steps, f, b - 1);
      Unmoved(f(b - 1), stable, maxBytes, steps[b - 1], u);
    }
  }

  lemma Unmoved(s: State, stable: map<string, Bytes>, maxBytes: int, step: Step, u: nat)
    requires Enabled(s, stable, step) && u < |s.loads| && !StepOf(step, u)
    ensures var s' := Next(s, stable, maxBytes, step);
            u < |s'.loads| && s'.loads[u] == s.loads[u]
  {
  }

  /** No leader of the key is between its registration and its retirement. */
  ghost predicate NoneInFlight(s: State, rel: string) {
    forall t: nat | t < |s.loads| && Registered(s.loads[t]) :: s.loads[t].rel != rel
  }

  lemma InFlightExactly(s: State, rel: string)
    requires Flights(s)
    ensures rel !in s.inflight <==> NoneInFlight(s, rel)
  {
    if rel in s.inflight {
      var k := s.inflight[rel];
      assert InflightOk(s, rel) && CallOk(s, k) && LoadOk(s, s.calls[k].leader);
    } else {
      forall t: nat | t < |s.loads| && Registered(s.loads[t]) ensures s.loads[t].rel != rel { assert LoadOk(s, t); }
    }
  }

  /** When a key is read, the first time or again. In every history a load that probes the
      cache at step p and goes on at step b reads the key itself exactly when every
      earlier insert of the key had been undone by an eviction or an invalidation before
      the probe, and no other read of it is in flight at b. In particular a key that was
      read successfully is read again only by a load that probed before the insert, or
      after the entry was gone. */
  lemma ReadsExactly(stable: map<string, Bytes>, maxBytes: int, steps: seq<Step>, f: nat -> State, p: nat, b: nat,
                     u: nat)
    requires Trace(stable, maxBytes, steps, f) && p < b < |steps|
    requires steps[p] == Probe(u) && StepOf(steps[b], u) && !steps[b].Write?
    requires forall j: nat | p < j < b :: !StepOf(steps[j], u)
    ensures u < |f(p).loads|
    ensures var rel := f(p).loads[u].rel;
            steps[b] == Lead(u) <==>
              && (forall i: nat | i < p && CachesAt(steps, f, i, rel) :: !Lasts(f, i, p, rel))
              && NoneInFlight(f(b), rel)
  {
    assert TraceStep(stable, maxBytes, steps, f, p) && TraceStep(stable, maxBytes, steps, f, b);
    var rel := f(p).loads[u].rel;
    CachedExactly(stable, maxBytes, steps, f, p, rel);
    Idle(stable, maxBytes, steps, f, p, b, u);
    TraceInv(stable, maxBytes, steps, f, b);
    InFlightExactly(f(b), rel);
  }

  lemma EmptyInv()
    ensures Inv(EMPTY)
  {
  }

  /** What undoes an insert: an invalidation that matches, or an eviction. */
  lemma UndoneBy(s: State, stable: map<string, Bytes>, maxBytes: int, step: Step, rel: string)
    requires Distinct(s.cache) && Enabled(s, stable, step) && TakesAway(s, Next(s, stable, maxBytes, step), rel)
    ensures (step.Invalidate? && step.prefix <= rel)
            || (step.Insert? && s.loads[step.t].rel != rel && Next(s, stable, maxBytes, step).evictions > s.evictions)
  {
    KeyStep(s, stable, maxBytes, step, rel);
    if step.Invalidate? {
      if !(step.prefix <= rel) { UnmatchedStays(s.cache, step.prefix, rel); }
    } else if step.Insert? {
      var l := s.loads[step.t];
      var front := Front(s.cache, Entry(l.rel, Slice(l.id, l.res.value)));
      KeysOfFront(s.cache, Entry(l.rel, Slice(l.id, l.res.value)), rel);
      FitIsLongest(front, maxBytes);
      assert front[..|front|] == front;
    } else {
      StaysCached(s, stable, maxBytes, step, rel);
    }
  }

  lemma UnmatchedStays(cache: seq<Entry>, prefix: string, rel: string)
    requires HasKey(cache, rel) && !(prefix <= rel)
    ensures HasKey(Drop(cache, prefix), rel)
  {
    var i :| 0 <= i < |cache| && cache[i].rel == rel;
    DropIsExact(cache, prefix, cache[i]);
    var j :| 0 <= j < |Drop(cache, prefix)| && Drop(cache, prefix)[j] == cache[i];
  }

  lemma StaysCached(s: State, stable: map<string, Bytes>, maxBytes: int, step: Step, rel: string)
    requires Enabled(s, stable, step) && !step.Invalidate? && !step.Insert?
    ensures HasKey(Next(s, stable, maxBytes, step).cache, rel) == HasKey(s.cache, rel)
  {
    if step.Write? {
      KeysOfWrite(s.cache, s.loads[step.t].id, step.bytes, rel);
    } else if (step.Probe? || step.Wake?) && HasKey(s.cache, s.loads[step.t].rel) {
      LookupFinds(s.cache, s.loads[step.t].rel);
      KeysOfFront(s.cache, Lookup(s.cache, s.loads[step.t].rel), rel);
      var i :| 0 <= i < |s.cache| && s.cache[i] == Lookup(s.cache, s.loads[step.t].rel);
      assert HasKey(s.cache, s.loads[step.t].rel);
    }
  }
}
