/** Histories from an empty hub on which a property one might expect of it fails. */
module HubHistories {
  import opened Common
  import opened Lru
  import opened Hub
  import opened HubBodies

  // ------------------------------------------------------------------ the first load

  function Alone(l: Load): (s: State) {
    State([l], [], map[], [], 0, 0, 0, 0)
  }

  function Begun(key: string): (s: State) {
    State([Load(key, Reading, Leader, 0, Err(()))], [Call(key, 0, false, None)], map[key := 0], [], 0, 0, 0, 0)
  }

  function HasReturned(key: string, v: Bytes): (s: State) {
    State([Load(key, Returned, Leader, 0, Ok(v))], [Call(key, 0, false, Some(Ok(v)))], map[key := 0], [], 0, 0, 0, 0)
  }

  function HasRetired(key: string, v: Bytes): (s: State) {
    State([Load(key, Retired, Leader, 0, Ok(v))], [Call(key, 0, false, Some(Ok(v)))], map[], [], 1, 0, 0, 0)
  }

  function HasInserted(key: string, v: Bytes): (s: State) {
    State([Load(key, Inserted, Leader, 0, Ok(v))], [Call(key, 0, false, Some(Ok(v)))], map[],
        [Entry(key, Slice(0, v))], 1, 0, 0, 0)
  }

  function Led(key: string, v: Bytes): (s: State) {
    State([Load(key, Finished, Leader, 0, Ok(v))], [Call(key, 0, true, Some(Ok(v)))], map[],
        [Entry(key, Slice(0, v))], 1, 0, 0, 0)
  }

  function ReadSteps(key: string, v: Bytes): (steps: seq<Step>) {
    [] + [Spawn(key)] + [Probe(0)] + [Lead(0)] + [ReadReturns(0, Ok(v))]
  }

  lemma FirstStates(key: string, v: Bytes, stable: map<string, Bytes>, maxBytes: int, a: State, b: State)
    requires Truthful(stable, key, Ok(v))
    requires a == Alone(Load(key, Start, NoKind, 0, Err(()))) && b == Alone(Load(key, Missed, NoKind, 0, Err(())))
    ensures Next(EMPTY, stable, maxBytes, Spawn(key)) == a
    ensures Enabled(a, stable, Probe(0)) && Next(a, stable, maxBytes, Probe(0)) == b
    ensures Enabled(b, stable, Lead(0)) && Next(b, stable, maxBytes, Lead(0)) == Begun(key)
    ensures Enabled(Begun(key), stable, ReadReturns(0, Ok(v)))
    ensures Next(Begun(key), stable, maxBytes, ReadReturns(0, Ok(v))) == HasReturned(key, v)
  {
    assert [] + [Load(key, Start, NoKind, 0, Err(()))] == a.loads;
    assert [] + [Call(key, 0, false, None)] == Begun(key).calls;
  }

  lemma FirstRead(key: string, v: Bytes, stable: map<string, Bytes>, maxBytes: int)
    requires Truthful(stable, key, Ok(v))
    ensures Path(EMPTY, stable, maxBytes, ReadSteps(key, v), HasReturned(key, v))
  {
    var a, b := Alone(Load(key, Start, NoKind, 0, Err(()))), Alone(Load(key, Missed, NoKind, 0, Err(())));
    FirstStates(key, v, stable, maxBytes, a, b);
    Go(EMPTY, stable, maxBytes, [], EMPTY, Spawn(key), a);
    Go(EMPTY, stable, maxBytes, [] + [Spawn(key)], a, Probe(0), b);
    Go(EMPTY, stable, maxBytes, [] + [Spawn(key)] + [Probe(0)], b, Lead(0), Begun(key));
    Go(EMPTY, stable, maxBytes, [] + [Spawn(key)] + [Probe(0)] + [Lead(0)], Begun(key), ReadReturns(0, Ok(v)),
        HasReturned(key, v));
  }

  lemma RetireAndInsert(key: string, v: Bytes, stable: map<string, Bytes>, maxBytes: int)
    ensures Enabled(HasReturned(key, v), stable, Retire(0))
    ensures Next(HasReturned(key, v), stable, maxBytes, Retire(0)) == HasRetired(key, v)
    ensures Enabled(HasRetired(key, v), stable, Insert(0))
    ensures Next(HasRetired(key, v), stable, maxBytes, Insert(0)) == HasInserted(key, v)
    ensures Enabled(HasInserted(key, v), stable, Release(0))
    ensures Next(HasInserted(key, v), stable, maxBytes, Release(0)) == Led(key, v)
  {
    assert map[key := 0 as nat] - {key} == map[];
    assert Front([], Entry(key, Slice(0, v))) == [Entry(key, Slice(0, v))];
  }

  // ------------------------------------------------------ a corrupted body is cached

  const CHUNK := "chunks/00/0.gz"

  function CorruptSteps(): (steps: seq<Step>) {
    ReadSteps(CHUNK, [1]) + [Retire(0)] + [Insert(0)] + [Release(0)] + [Write(0, Corrupt([1]))]
    + [Spawn(CHUNK)] + [Probe(1)] + [CountHit(1)] + [Copy(1)]
  }

  /** A leader's body is corrupted on its way out, as fault injection does it, and the
      next load of the same chunk, which never changes, returns the corrupted bytes. */
  lemma CorruptionIsServed(stable: map<string, Bytes>, maxBytes: int) returns (s: State)
    requires stable == map[CHUNK := [1]]
    ensures Path(EMPTY, stable, maxBytes, CorruptSteps(), s)
    ensures At(s, 1, Finished) && s.loads[1] == Load(CHUNK, Finished, Hit, 0, Ok([0x41])) && stable[CHUNK] == [1]
  {
    var h, led, bad := ReadSteps(CHUNK, [1]), Led(CHUNK, [1]), Corrupt([1]);
    FirstRead(CHUNK, [1], stable, maxBytes);
    RetireAndInsert(CHUNK, [1], stable, maxBytes);
    Go(EMPTY, stable, maxBytes, h, HasReturned(CHUNK, [1]), Retire(0), HasRetired(CHUNK, [1]));
    Go(EMPTY, stable, maxBytes, h + [Retire(0)], HasRetired(CHUNK, [1]), Insert(0), HasInserted(CHUNK, [1]));
    Go(EMPTY, stable, maxBytes, h + [Retire(0)] + [Insert(0)], HasInserted(CHUNK, [1]), Release(0), led);
    var h1 := h + [Retire(0)] + [Insert(0)] + [Release(0)];
    var s0 := Next(led, stable, maxBytes, Write(0, bad));
    Go(EMPTY, stable, maxBytes, h1, led, Write(0, bad), s0);
    s := HitWritten(stable, maxBytes, h1 + [Write(0, bad)], s0);
  }

  lemma WrittenState(stable: map<string, Bytes>, maxBytes: int, s0: State)
    requires Enabled(Led(CHUNK, [1]), stable, Write(0, Corrupt([1])))
             && s0 == Next(Led(CHUNK, [1]), stable, maxBytes, Write(0, Corrupt([1])))
    ensures s0.loads == Led(CHUNK, [1]).loads && s0.cache == [Entry(CHUNK, Slice(0, [0x41]))]
            && CacheOk(s0.calls, s0.cache)
  {
    assert Corrupt([1]) == [0x41];
    assert s0.calls == [Call(CHUNK, 0, true, Some(Ok([0x41])))];
    assert EntryOk(s0.calls, s0.cache[0]);
  }

  lemma HitWritten(stable: map<string, Bytes>, maxBytes: int, h: seq<Step>, s0: State) returns (s: State)
    requires Path(EMPTY, stable, maxBytes, h, s0)
    requires Enabled(Led(CHUNK, [1]), stable, Write(0, Corrupt([1])))
             && s0 == Next(Led(CHUNK, [1]), stable, maxBytes, Write(0, Corrupt([1])))
    ensures Path(EMPTY, stable, maxBytes, h + [Spawn(CHUNK)] + [Probe(1)] + [CountHit(1)] + [Copy(1)], s)
    ensures At(s, 1, Finished) && s.loads[1] == Load(CHUNK, Finished, Hit, 0, Ok([0x41]))
  {
    WrittenState(stable, maxBytes, s0);
    var s1, s2, s3, s4 := HitSteps(s0, stable, maxBytes, 0);
    Go(EMPTY, stable, maxBytes, h, s0, Spawn(CHUNK), s1);
    Go(EMPTY, stable, maxBytes, h + [Spawn(CHUNK)], s1, Probe(1), s2);
    Go(EMPTY, stable, maxBytes, h + [Spawn(CHUNK)] + [Probe(1)], s2, CountHit(1), s3);
    Go(EMPTY, stable, maxBytes, h + [Spawn(CHUNK)] + [Probe(1)] + [CountHit(1)], s3, Copy(1), s4);
    s := s4;
  }

  // --------------------------------------------- an insert that follows an invalidation

  const CHANNEL := "releases/stable.json"

  function StaleSteps(): (steps: seq<Step>) {
    ReadSteps(CHANNEL, [1]) + [Invalidate("releases/")] + [Retire(0)] + [Insert(0)]
    + [Spawn(CHANNEL)] + [Probe(1)] + [CountHit(1)] + [Copy(1)]
  }

  /** A read that began before an invalidation is inserted after it: a load that starts
      later still hits the bytes from before. */
  lemma StaleIsServed(maxBytes: int) returns (s: State)
    ensures Path(EMPTY, map[], maxBytes, StaleSteps(), s)
    ensures At(s, 1, Finished) && s.loads[1] == Load(CHANNEL, Finished, Hit, 0, Ok([1]))
  {
    var h, r := ReadSteps(CHANNEL, [1]), HasReturned(CHANNEL, [1]);
    FirstRead(CHANNEL, [1], map[], maxBytes);
    RetireAndInsert(CHANNEL, [1], map[], maxBytes);
    assert Next(r, map[], maxBytes, Invalidate("releases/")) == r;
    Go(EMPTY, map[], maxBytes, h, r, Invalidate("releases/"), r);
    Go(EMPTY, map[], maxBytes, h + [Invalidate("releases/")], r, Retire(0), HasRetired(CHANNEL, [1]));
    var h1 := h + [Invalidate("releases/")] + [Retire(0)];
    Go(EMPTY, map[], maxBytes, h1, HasRetired(CHANNEL, [1]), Insert(0), HasInserted(CHANNEL, [1]));
    s := HitInserted(maxBytes, h1 + [Insert(0)]);
  }

  lemma HitInserted(maxBytes: int, h: seq<Step>) returns (s: State)
    requires Path(EMPTY, map[], maxBytes, h, HasInserted(CHANNEL, [1]))
    ensures Path(EMPTY, map[], maxBytes, h + [Spawn(CHANNEL)] + [Probe(1)] + [CountHit(1)] + [Copy(1)], s)
    ensures At(s, 1, Finished) && s.loads[1] == Load(CHANNEL, Finished, Hit, 0, Ok([1]))
  {
    var s0 := HasInserted(CHANNEL, [1]);
    assert EntryOk(s0.calls, s0.cache[0]);
    var s1, s2, s3, s4 := HitSteps(s0, map[], maxBytes, 0);
    Go(EMPTY, map[], maxBytes, h, s0, Spawn(CHANNEL), s1);
    Go(EMPTY, map[], maxBytes, h + [Spawn(CHANNEL)], s1, Probe(1), s2);
    Go(EMPTY, map[], maxBytes, h + [Spawn(CHANNEL)] + [Probe(1)], s2, CountHit(1), s3);
    Go(EMPTY, map[], maxBytes, h + [Spawn(CHANNEL)] + [Probe(1)] + [CountHit(1)], s3, Copy(1), s4);
    s := s4;
  }

  // --------------------------------------------------------- two reads of one key

  function TwiceSteps(): (steps: seq<Step>) {
    ReadSteps(CHUNK, [1]) + [Retire(0)] + [Spawn(CHUNK)] + [Probe(1)] + [Lead(1)] + [ReadReturns(1, Ok([1]))]
        + [Retire(1)]
  }

  /** The mark of a read goes before its result is cached: a load that comes in between
      reads the key a second time, with no eviction and no invalidation. */
  lemma ReadTwice(maxBytes: int) returns (s: State)
    ensures Path(EMPTY, map[], maxBytes, TwiceSteps(), s)
    ensures s.diskReads == 2 && s.evictions == 0 && |s.calls| == 2 && s.calls[0].rel == s.calls[1].rel == CHUNK
  {
    var h, r := ReadSteps(CHUNK, [1]), HasRetired(CHUNK, [1]);
    FirstRead(CHUNK, [1], map[], maxBytes);
    RetireAndInsert(CHUNK, [1], map[], maxBytes);
    Go(EMPTY, map[], maxBytes, h, HasReturned(CHUNK, [1]), Retire(0), r);
    s := ReadAgain(maxBytes, h + [Retire(0)]);
  }

  /** A second load leads while the first has not cached what it read. */
  function Again(): (s: State) {
    var r := HasRetired(CHUNK, [1]);
    r.(loads := r.loads + [Load(CHUNK, Reading, Leader, 1, Err(()))],
       calls := r.calls + [Call(CHUNK, 1, false, None)], inflight := map[CHUNK := 1])
  }

  lemma SecondLead(maxBytes: int) returns (s1: State, s2: State)
    ensures var r := HasRetired(CHUNK, [1]);
            && Enabled(r, map[], Spawn(CHUNK)) && s1 == Next(r, map[], maxBytes, Spawn(CHUNK))
            && Enabled(s1, map[], Probe(1)) && s2 == Next(s1, map[], maxBytes, Probe(1))
            && Enabled(s2, map[], Lead(1)) && Again() == Next(s2, map[], maxBytes, Lead(1))
  {
    var r := HasRetired(CHUNK, [1]);
    s1 := Next(r, map[], maxBytes, Spawn(CHUNK));
    s2 := Next(s1, map[], maxBytes, Probe(1));
    assert s2.loads == r.loads + [Load(CHUNK, Missed, NoKind, 0, Err(()))];
    assert Next(s2, map[], maxBytes, Lead(1)).loads == Again().loads;
  }

  lemma SecondRead(maxBytes: int) returns (s4: State, s5: State)
    ensures Enabled(Again(), map[], ReadReturns(1, Ok([1])))
            && s4 == Next(Again(), map[], maxBytes, ReadReturns(1, Ok([1])))
    ensures Enabled(s4, map[], Retire(1)) && s5 == Next(s4, map[], maxBytes, Retire(1))
    ensures s5.diskReads == 2 && s5.evictions == 0 && |s5.calls| == 2 && s5.calls[0].rel == s5.calls[1].rel == CHUNK
  {
    s4 := Next(Again(), map[], maxBytes, ReadReturns(1, Ok([1])));
    s5 := Next(s4, map[], maxBytes, Retire(1));
  }

  lemma ReadAgain(maxBytes: int, h: seq<Step>) returns (s: State)
    requires Path(EMPTY, map[], maxBytes, h, HasRetired(CHUNK, [1]))
    ensures Path(EMPTY, map[], maxBytes, h + [Spawn(CHUNK)] + [Probe(1)] + [Lead(1)] + [ReadReturns(1, Ok([1]))]
            + [Retire(1)], s)
    ensures s.diskReads == 2 && s.evictions == 0 && |s.calls| == 2 && s.calls[0].rel == s.calls[1].rel == CHUNK
  {
    var s3 := Again();
    var s1, s2 := SecondLead(maxBytes);
    var s4, s5 := SecondRead(maxBytes);
    Go(EMPTY, map[], maxBytes, h, HasRetired(CHUNK, [1]), Spawn(CHUNK), s1);
    Go(EMPTY, map[], maxBytes, h + [Spawn(CHUNK)], s1, Probe(1), s2);
    Go(EMPTY, map[], maxBytes, h + [Spawn(CHUNK)] + [Probe(1)], s2, Lead(1), s3);
    Go(EMPTY, map[], maxBytes, h + [Spawn(CHUNK)] + [Probe(1)] + [Lead(1)], s3, ReadReturns(1, Ok([1])), s4);
    Go(EMPTY, map[], maxBytes, h + [Spawn(CHUNK)] + [Probe(1)] + [Lead(1)] + [ReadReturns(1, Ok([1]))], s4, Retire(1),
        s5);
    s := s5;
  }
}
