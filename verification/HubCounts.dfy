/** What the hub's counters count. */
module HubCounts {
  import opened Common
  import opened Lru
  import opened Hub

  /** The ways a load is accounted for. A leader whose read has returned and whose mark is
      gone has read, or has failed. */
  datatype Tag = AsHit | AsCoalesced | AsRead | AsFailed | AsLeading

  predicate Has(l: Load, tag: Tag) {
    match tag
    case AsHit => l.kind == Hit
    case AsCoalesced => l.kind == Coalesced
    case AsRead => l.kind == Leader && !Registered(l) && l.res.Ok?
    case AsFailed => l.kind == Leader && !Registered(l) && l.res.Err?
    case AsLeading => l.kind == Leader && Registered(l)
  }

  function One(b: bool): (n: int) {
    if b then 1 else 0
  }

  function Marks(loads: seq<Load>, tag: Tag): (s: seq<int>)
    ensures |s| == |loads|
  {
    seq(|loads|, i requires 0 <= i < |loads| => One(Has(loads[i], tag)))
  }

  function Count(loads: seq<Load>, tag: Tag): (n: int) {
    Sum(Marks(loads, tag))
  }

  lemma CountUpdate(loads: seq<Load>, t: nat, l: Load, tag: Tag)
    requires t < |loads|
    ensures Count(loads[t := l], tag) == Count(loads, tag) - One(Has(loads[t], tag)) + One(Has(l, tag))
  {
    SumUpdate(Marks(loads, tag), t, One(Has(l, tag)));
    assert Marks(loads[t := l], tag) == Marks(loads, tag)[t := One(Has(l, tag))];
  }

  lemma CountAppend(loads: seq<Load>, l: Load, tag: Tag)
    ensures Count(loads + [l], tag) == Count(loads, tag) + One(Has(l, tag))
  {
    assert Marks(loads + [l], tag)[..|loads|] == Marks(loads, tag);
  }

  ghost predicate Counted(s: State) {
    && Count(s.loads, AsHit) == s.cacheHits
    && Count(s.loads, AsCoalesced) == s.coalesced
    && Count(s.loads, AsRead) == s.diskReads
    && Count(s.loads, AsRead) + Count(s.loads, AsFailed) + Count(s.loads, AsLeading) == |s.calls|
  }

  /** One load moves; the counters move with its tags. */
  lemma MoveCounted(s: State, s': State, t: nat)
    requires Counted(s) && t < |s.loads| && t < |s'.loads| && s'.loads == s.loads[t := s'.loads[t]]
    requires var k, l := s.loads[t], s'.loads[t];
             && s'.cacheHits == s.cacheHits - One(Has(k, AsHit)) + One(Has(l, AsHit))
             && s'.coalesced == s.coalesced - One(Has(k, AsCoalesced)) + One(Has(l, AsCoalesced))
             && s'.diskReads == s.diskReads - One(Has(k, AsRead)) + One(Has(l, AsRead))
             && |s'.calls| == |s.calls| - One(k.kind == Leader) + One(l.kind == Leader)
    ensures Counted(s')
  {
    CountUpdate(s.loads, t, s'.loads[t], AsHit);
    CountUpdate(s.loads, t, s'.loads[t], AsCoalesced);
    CountUpdate(s.loads, t, s'.loads[t], AsRead);
    CountUpdate(s.loads, t, s'.loads[t], AsFailed);
    CountUpdate(s.loads, t, s'.loads[t], AsLeading);
  }

  lemma SpawnCounted(s: State, l: Load)
    requires Counted(s) && l.kind == NoKind
    ensures Counted(s.(loads := s.loads + [l]))
  {
    CountAppend(s.loads, l, AsHit);
    CountAppend(s.loads, l, AsCoalesced);
    CountAppend(s.loads, l, AsRead);
    CountAppend(s.loads, l, AsFailed);
    CountAppend(s.loads, l, AsLeading);
  }

  lemma CountedKept(s: State, stable: map<string, Bytes>, maxBytes: int, step: Step)
    requires Counted(s) && KindsOk(s) && Enabled(s, stable, step)
    ensures Counted(Next(s, stable, maxBytes, step))
  {
    if step.Spawn? {
      SpawnCounted(s, Load(step.rel, Start, NoKind, 0, Err(())));
    } else if step.Lead? || step.ReadReturns? || step.Retire? || step.Insert? || step.Release? {
      LeaderCounted(s, stable, maxBytes, step);
    } else if !step.Invalidate? && !step.Write? {
      OtherCounted(s, stable, maxBytes, step);
    }
  }

  lemma LeaderCounted(s: State, stable: map<string, Bytes>, maxBytes: int, step: Step)
    requires Counted(s) && KindsOk(s) && Enabled(s, stable, step)
    requires step.Lead? || step.ReadReturns? || step.Retire? || step.Insert? || step.Release?
    ensures Counted(Next(s, stable, maxBytes, step))
  {
    assert KindOk(s.loads[step.t]);
    MoveCounted(s, Next(s, stable, maxBytes, step), step.t);
  }

  lemma OtherCounted(s: State, stable: map<string, Bytes>, maxBytes: int, step: Step)
    requires Counted(s) && KindsOk(s) && Enabled(s, stable, step)
    requires step.Probe? || step.CountHit? || step.Join? || step.Wake? || step.Copy?
    ensures Counted(Next(s, stable, maxBytes, step))
  {
    assert KindOk(s.loads[step.t]);
    MoveCounted(s, Next(s, stable, maxBytes, step), step.t);
  }

  lemma {:induction false} RunIsCounted(stable: map<string, Bytes>, maxBytes: int, steps: seq<Step>)
    requires Runs(EMPTY, stable, maxBytes, steps)
    ensures Counted(After(EMPTY, stable, maxBytes, steps)) && KindsOk(After(EMPTY, stable, maxBytes, steps))
    decreases |steps|
  {
    if steps != [] {
      var init, last := steps[..|steps| - 1], steps[|steps| - 1];
      RunIsCounted(stable, maxBytes, init);
      CountedKept(After(EMPTY, stable, maxBytes, init), stable, maxBytes, last);
      KindsKept(After(EMPTY, stable, maxBytes, init), stable, maxBytes, last);
    }
  }

  lemma {:induction false} EveryLoadHasOneTag(loads: seq<Load>)
    requires forall t: nat | t < |loads| :: loads[t].kind != NoKind
    ensures Count(loads, AsHit) + Count(loads, AsCoalesced) + Count(loads, AsRead) + Count(loads, AsFailed)
            + Count(loads, AsLeading) == |loads|
  {
    if loads != [] {
      var init, l := loads[..|loads| - 1], loads[|loads| - 1];
      EveryLoadHasOneTag(init);
      assert init + [l] == loads && l.kind != NoKind;
      CountAppend(init, l, AsHit);
      CountAppend(init, l, AsCoalesced);
      CountAppend(init, l, AsRead);
      CountAppend(init, l, AsFailed);
      CountAppend(init, l, AsLeading);
    }
  }

  lemma {:induction false} NoneLeading(loads: seq<Load>)
    requires forall t: nat | t < |loads| :: !Registered(loads[t])
    ensures Count(loads, AsLeading) == 0
  {
    if loads != [] {
      var init, l := loads[..|loads| - 1], loads[|loads| - 1];
      NoneLeading(init);
      CountAppend(init, l, AsLeading);
      assert init + [l] == loads;
    }
  }

  /** The counters are the numbers of hits, of coalesced loads and of retired leaders that
      have read; and once all loads have finished, hits, coalesced loads, disk reads and
      failed leaders together are all the loads there were. */
  ghost predicate Accounted(s: State) {
    && s.cacheHits == Count(s.loads, AsHit) && s.coalesced == Count(s.loads, AsCoalesced)
    && s.diskReads == Count(s.loads, AsRead)
    && ((forall t: nat | t < |s.loads| :: s.loads[t].pc == Finished) ==>
          s.cacheHits + s.coalesced + s.diskReads + Count(s.loads, AsFailed) == |s.loads|)
  }

  /** So it is in every interleaving. */
  lemma LoadsAreCounted(stable: map<string, Bytes>, maxBytes: int, steps: seq<Step>)
    requires Runs(EMPTY, stable, maxBytes, steps)
    ensures Accounted(After(EMPTY, stable, maxBytes, steps))
  {
    RunIsCounted(stable, maxBytes, steps);
    CountedIsAccounted(After(EMPTY, stable, maxBytes, steps));
  }

  lemma CountedIsAccounted(s: State)
    requires Counted(s) && KindsOk(s)
    ensures Accounted(s)
  {
    if forall t: nat | t < |s.loads| :: s.loads[t].pc == Finished {
      AllCounted(s);
    }
  }

  lemma AllCounted(s: State)
    requires Counted(s) && KindsOk(s) && forall t: nat | t < |s.loads| :: s.loads[t].pc == Finished
    ensures s.cacheHits + s.coalesced + s.diskReads + Count(s.loads, AsFailed) == |s.loads|
  {
    forall t: nat | t < |s.loads| ensures s.loads[t].kind != NoKind { assert KindOk(s.loads[t]); }
    EveryLoadHasOneTag(s.loads);
    NoneLeading(s.loads);
  }

  // ------------------------------------------------------------------------- evictions

  /** How many inserts of a history put a key that was not cached, and how many entries
      its invalidations dropped. */
  ghost function NewKeys(stable: map<string, Bytes>, maxBytes: int, steps: seq<Step>): (n: int)
    requires Runs(EMPTY, stable, maxBytes, steps)
    decreases |steps|
  {
    if steps == [] then 0
    else
      var init, last := steps[..|steps| - 1], steps[|steps| - 1];
      var s := After(EMPTY, stable, maxBytes, init);
      NewKeys(stable, maxBytes, init)
      + One(last.Insert? && s.loads[last.t].res.Ok? && !HasKey(s.cache, s.loads[last.t].rel))
  }

  ghost function Dropped(stable: map<string, Bytes>, maxBytes: int, steps: seq<Step>): (n: int)
    requires Runs(EMPTY, stable, maxBytes, steps)
    decreases |steps|
  {
    if steps == [] then 0
    else
      var init, last := steps[..|steps| - 1], steps[|steps| - 1];
      var s := After(EMPTY, stable, maxBytes, init);
      Dropped(stable, maxBytes, init) + if last.Invalidate? then |s.cache| - |Drop(s.cache, last.prefix)| else 0
  }

  /** One step: an insert of a new key adds an entry, an eviction or a drop removes one. */
  lemma EntriesStep(s: State, stable: map<string, Bytes>, maxBytes: int, step: Step)
    requires Distinct(s.cache) && Enabled(s, stable, step)
    ensures var s' := Next(s, stable, maxBytes, step);
            |s'.cache| + s'.evictions ==
            |s.cache| + s.evictions
            + One(step.Insert? && s.loads[step.t].res.Ok? && !HasKey(s.cache, s.loads[step.t].rel))
            - (if step.Invalidate? then |s.cache| - |Drop(s.cache, step.prefix)| else 0)
  {
    if (step.Probe? || step.Wake?) && HasKey(s.cache, s.loads[step.t].rel) {
      LookupFinds(s.cache, s.loads[step.t].rel);
      FrontKeepsDistinct(s.cache, Lookup(s.cache, s.loads[step.t].rel));
    } else if step.Insert? && s.loads[step.t].res.Ok? {
      var l := s.loads[step.t];
      FrontKeepsDistinct(s.cache, Entry(l.rel, Slice(l.id, l.res.value)));
    }
  }

  /** The eviction counter: over every history the keys newly cached are still cached, were
      evicted, or were dropped by an invalidation. */
  lemma {:induction false} EvictionsAreCounted(stable: map<string, Bytes>, maxBytes: int, steps: seq<Step>)
    requires Runs(EMPTY, stable, maxBytes, steps)
    ensures var s := After(EMPTY, stable, maxBytes, steps);
            NewKeys(stable, maxBytes, steps) == |s.cache| + s.evictions + Dropped(stable, maxBytes, steps)
    decreases |steps|
  {
    if steps != [] {
      var init, last := steps[..|steps| - 1], steps[|steps| - 1];
      EvictionsAreCounted(stable, maxBytes, init);
      RunKeepsInv(EMPTY, stable, maxBytes, init);
      EntriesStep(After(EMPTY, stable, maxBytes, init), stable, maxBytes, last);
    }
  }
}
