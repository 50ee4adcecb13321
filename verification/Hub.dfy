/** `Hub.load` under concurrency: a cache in front of reads that identical concurrent
    requests share. Each step is one critical section of one goroutine, or one copy. Bodies
    are slices: the one that call k has read is handed to its leader's caller, to the cache
    and to the waiters, so that a write by that caller is seen wherever it is still held. */
module Hub {
  import opened Common
  import opened Lru

  datatype Kind = NoKind | Hit | Coalesced | Leader

  datatype Pc = Start | Found | Missed | Waiting | Reading | Returned | Retired | Inserted | Copying | Finished

  /** One load: where it stands, how it was counted, the call whose slice it leads, waits
      for or copies, and what it returns. */
  datatype Load = Load(rel: string, pc: Pc, kind: Kind, id: nat, res: Result<Bytes, ()>)

  /** A shared read: its leader, whether the waiters are released, and once the read has
      returned its error or the bytes now in its slice. */
  datatype Call = Call(rel: string, leader: nat, done: bool, res: Option<Result<Bytes, ()>>)

  datatype State = State(
    loads: seq<Load>, calls: seq<Call>, inflight: map<string, nat>, cache: seq<Entry>,
    diskReads: int, cacheHits: int, coalesced: int, evictions: int)

  datatype Step =
    | Spawn(rel: string) | Probe(t: nat) | CountHit(t: nat) | Join(t: nat) | Lead(t: nat)
    | ReadReturns(t: nat, res: Result<Bytes, ()>) | Retire(t: nat) | Insert(t: nat)
    | Release(t: nat) | Wake(t: nat) | Copy(t: nat) | Write(t: nat, bytes: Bytes) | Invalidate(prefix: string)

  const EMPTY := State([], [], map[], [], 0, 0, 0, 0)

  predicate At(s: State, t: nat, pc: Pc) {
    t < |s.loads| && s.loads[t].pc == pc
  }

  /** Call k has read bytes for this key. */
  predicate HasRead(s: State, k: nat, rel: string) {
    k < |s.calls| && s.calls[k].rel == rel && s.calls[k].res.Some? && s.calls[k].res.value.Ok?
  }

  /** `stable` gives the keys whose underlying value never changes; for those a read
      yields that value or an error. Only a caller that has its body may write it, and a
      write does not change its length. */
  predicate Enabled(s: State, stable: map<string, Bytes>, step: Step) {
    match step
    case Spawn(_) => true
    case Probe(t) => At(s, t, Start)
    case CountHit(t) => At(s, t, Found)
    case Join(t) => At(s, t, Missed) && s.loads[t].rel in s.inflight
    case Lead(t) => At(s, t, Missed) && s.loads[t].rel !in s.inflight
    case ReadReturns(t, res) => At(s, t, Reading) && s.loads[t].id < |s.calls| && Truthful(stable, s.loads[t].rel, res)
    case Retire(t) => At(s, t, Returned)
    case Insert(t) => At(s, t, Retired)
    case Release(t) => At(s, t, Inserted) && s.loads[t].id < |s.calls|
    case Wake(t) => At(s, t, Waiting) && s.loads[t].id < |s.calls| && s.calls[s.loads[t].id].done
                    && s.calls[s.loads[t].id].res.Some?
    case Copy(t) => At(s, t, Copying) && HasRead(s, s.loads[t].id, s.loads[t].rel)
    case Write(t, bytes) => At(s, t, Finished) && s.loads[t].kind == Leader && HasRead(s, s.loads[t].id, s.loads[t].rel)
                            && |bytes| == |s.calls[s.loads[t].id].res.value.value|
    case Invalidate(_) => true
  }

  predicate Truthful(stable: map<string, Bytes>, rel: string, res: Result<Bytes, ()>) {
    res.Ok? && rel in stable ==> res.value == stable[rel]
  }

  function Set(s: State, t: nat, l: Load): (s': State)
    requires t < |s.loads|
  {
    s.(loads := s.loads[t := l])
  }

  /** The cached entries that share slice k after bytes were written to it. */
  function Rewrite(cache: seq<Entry>, k: nat, bytes: Bytes): (r: seq<Entry>)
    ensures |r| == |cache|
    ensures forall i | 0 <= i < |cache| ::
              r[i] == if cache[i].data.id == k then Entry(cache[i].rel, Slice(k, bytes)) else cache[i]
  {
    seq(|cache|, i requires 0 <= i < |cache| => if cache[i].data.id == k then Entry(cache[i].rel, Slice(k, bytes))
        else cache[i])
  }

  function Next(s: State, stable: map<string, Bytes>, maxBytes: int, step: Step): (s': State)
    requires Enabled(s, stable, step)
  {
    match step
    case Spawn(rel) => s.(loads := s.loads + [Load(rel, Start, NoKind, 0, Err(()))])
    case Probe(t) =>
      var l := s.loads[t];
      if HasKey(s.cache, l.rel) then
        var e := Lookup(s.cache, l.rel);
        Set(s, t, l.(pc := Found, id := e.data.id)).(cache := Front(s.cache, e))
      else Set(s, t, l.(pc := Missed))
    case CountHit(t) => Set(s, t, s.loads[t].(pc := Copying, kind := Hit)).(cacheHits := s.cacheHits + 1)
    case Join(t) =>
      var l := s.loads[t];
      Set(s, t, l.(pc := Waiting, kind := Coalesced, id := s.inflight[l.rel])).(coalesced := s.coalesced + 1)
    case Lead(t) =>
      var l, id := s.loads[t], |s.calls|;
      Set(s, t, l.(pc := Reading, kind := Leader, id := id))
        .(calls := s.calls + [Call(l.rel, t, false, None)], inflight := s.inflight[l.rel := id])
    case ReadReturns(t, res) =>
      var l := s.loads[t];
      Set(s, t, l.(pc := Returned, res := res)).(calls := s.calls[l.id := s.calls[l.id].(res := Some(res))])
    case Retire(t) =>
      var l := s.loads[t];
      Set(s, t, l.(pc := Retired))
        .(inflight := s.inflight - {l.rel}, diskReads := s.diskReads + if l.res.Ok? then 1 else 0)
    case Insert(t) =>
      var l, s1 := s.loads[t], Set(s, t, s.loads[t].(pc := Inserted));
      if l.res.Err? then s1
      else
        var front := Front(s.cache, Entry(l.rel, Slice(l.id, l.res.value)));
        s1.(cache := Fit(front, maxBytes), evictions := s.evictions + |front| - |Fit(front, maxBytes)|)
    case Release(t) =>
      var l := s.loads[t];
      Set(s, t, l.(pc := Finished)).(calls := s.calls[l.id := s.calls[l.id].(done := true)])
    case Wake(t) =>
      var l := s.loads[t];
      if s.calls[l.id].res.value.Err? then Set(s, t, l.(pc := Finished, res := Err(())))
      else if !HasKey(s.cache, l.rel) then Set(s, t, l.(pc := Copying))
      else
        var e := Lookup(s.cache, l.rel);
        Set(s, t, l.(pc := Copying, id := e.data.id)).(cache := Front(s.cache, e))
    case Copy(t) =>
      var l := s.loads[t];
      Set(s, t, l.(pc := Finished, res := s.calls[l.id].res.value))
    case Write(t, bytes) =>
      var k := s.loads[t].id;
      s.(cache := Rewrite(s.cache, k, bytes), calls := s.calls[k := s.calls[k].(res := Some(Ok(bytes)))])
    case Invalidate(prefix) => s.(cache := Drop(s.cache, prefix))
  }

  // ------------------------------------------------------------------- histories

  /** A history: the steps taken from s, each enabled where it is taken. */
  ghost predicate Runs(s: State, stable: map<string, Bytes>, maxBytes: int, steps: seq<Step>)
    decreases |steps|, 0
  {
    steps == [] ||
    (Runs(s, stable, maxBytes, steps[..|steps| - 1])
     && Enabled(After(s, stable, maxBytes, steps[..|steps| - 1]), stable, steps[|steps| - 1]))
  }

  ghost function After(s: State, stable: map<string, Bytes>, maxBytes: int, steps: seq<Step>): (s': State)
    requires Runs(s, stable, maxBytes, steps)
    decreases |steps|, 1
  {
    if steps == [] then s
    else Next(After(s, stable, maxBytes, steps[..|steps| - 1]), stable, maxBytes, steps[|steps| - 1])
  }

  /** The history leads from s to s'. */
  ghost predicate Path(s: State, stable: map<string, Bytes>, maxBytes: int, steps: seq<Step>, s': State) {
    Runs(s, stable, maxBytes, steps) && After(s, stable, maxBytes, steps) == s'
  }

  lemma Go(s: State, stable: map<string, Bytes>, maxBytes: int, steps: seq<Step>, m: State, step: Step, m': State)
    requires Path(s, stable, maxBytes, steps, m) && Enabled(m, stable, step) && m' == Next(m, stable, maxBytes, step)
    ensures Path(s, stable, maxBytes, steps + [step], m')
  {
    assert (steps + [step])[..|steps|] == steps;
  }

  lemma GoThree(s: State, stable: map<string, Bytes>, maxBytes: int,
                a: Step, s1: State, b: Step, s2: State, c: Step, s3: State)
    requires Enabled(s, stable, a) && s1 == Next(s, stable, maxBytes, a)
    requires Enabled(s1, stable, b) && s2 == Next(s1, stable, maxBytes, b)
    requires Enabled(s2, stable, c) && s3 == Next(s2, stable, maxBytes, c)
    ensures Path(s, stable, maxBytes, [] + [a] + [b] + [c], s3)
  {
    Go(s, stable, maxBytes, [], s, a, s1);
    Go(s, stable, maxBytes, [] + [a], s1, b, s2);
    Go(s, stable, maxBytes, [] + [a] + [b], s2, c, s3);
  }

  // ------------------------------------------------------------ leaders, calls and slices

  /** A leader between registering its call and taking the registration back. */
  predicate Registered(l: Load) {
    l.pc == Reading || l.pc == Returned
  }

  predicate Leading(l: Load) {
    Registered(l) || l.pc == Retired || l.pc == Inserted
  }

  /** A leading load and its call point at each other; the call is not released, and holds
      what the load has read. */
  predicate LeadsCall(s: State, t: nat)
    requires t < |s.loads|
  {
    var l := s.loads[t];
    && l.id < |s.calls| && s.calls[l.id].leader == t && s.calls[l.id].rel == l.rel && !s.calls[l.id].done
    && s.calls[l.id].res == if l.pc == Reading then None else Some(l.res)
  }

  predicate LoadOk(s: State, t: nat)
    requires t < |s.loads|
  {
    var l := s.loads[t];
    && (Leading(l) ==> LeadsCall(s, t))
    && (Registered(l) ==> l.rel in s.inflight && s.inflight[l.rel] == l.id)
    && (l.pc == Waiting ==> l.id < |s.calls| && s.calls[l.id].rel == l.rel)
    && (l.pc == Found || l.pc == Copying ==> HasRead(s, l.id, l.rel))
    && (l.pc == Finished && l.kind == Leader ==> l.id < |s.calls| && s.calls[l.id].leader == t && s.calls[l.id].done)
  }

  /** An unreleased call has a leading load; a released one has been read. */
  predicate CallOk(s: State, k: nat)
    requires k < |s.calls|
  {
    var c := s.calls[k];
    && (!c.done ==> c.leader < |s.loads| && Leading(s.loads[c.leader]) && s.loads[c.leader].id == k)
    && (c.done ==> c.res.Some?)
  }

  predicate InflightOk(s: State, rel: string)
    requires rel in s.inflight
  {
    var k := s.inflight[rel];
    && k < |s.calls| && s.calls[k].rel == rel && !s.calls[k].done
    && s.calls[k].leader < |s.loads| && Registered(s.loads[s.calls[k].leader])
  }

  ghost predicate Flights(s: State) {
    && (forall t: nat | t < |s.loads| :: LoadOk(s, t))
    && (forall k: nat | k < |s.calls| :: CallOk(s, k))
    && (forall rel | rel in s.inflight :: InflightOk(s, rel))
  }

  /** A cached entry is a slice that was read for its key. */
  predicate EntryOk(calls: seq<Call>, e: Entry) {
    && e.data.id < |calls| && calls[e.data.id].rel == e.rel
    && calls[e.data.id].res == Some(Ok(e.data.bytes))
  }

  ghost predicate CacheOk(calls: seq<Call>, cache: seq<Entry>) {
    Distinct(cache) && forall i | 0 <= i < |cache| :: EntryOk(calls, cache[i])
  }

  ghost predicate Sane(s: State) {
    Flights(s) && CacheOk(s.calls, s.cache)
  }

  /** Steps of a load that neither leads nor registers. */
  lemma QuietFlights(s: State, s': State, t: nat)
    requires Flights(s) && t < |s.loads| == |s'.loads| && !Leading(s.loads[t]) && !Leading(s'.loads[t])
    requires s'.loads == s.loads[t := s'.loads[t]] && s'.calls == s.calls && s'.inflight == s.inflight
    requires s'.loads[t].pc == Waiting ==> s'.loads[t].id < |s.calls| && s.calls[s'.loads[t].id].rel == s'.loads[t].rel
    requires s'.loads[t].pc == Found || s'.loads[t].pc == Copying ==> HasRead(s, s'.loads[t].id, s'.loads[t].rel)
    requires s'.loads[t].pc == Finished ==> s'.loads[t].kind != Leader
    ensures Flights(s')
  {
    forall i: nat | i < |s'.loads| ensures LoadOk(s', i) { assert LoadOk(s, i); }
    forall k: nat | k < |s'.calls| ensures CallOk(s', k) { assert CallOk(s, k); }
    forall rel | rel in s'.inflight ensures InflightOk(s', rel) { assert InflightOk(s, rel); }
  }

  lemma SpawnFlights(s: State, l: Load)
    requires Flights(s) && l.pc == Start
    ensures Flights(s.(loads := s.loads + [l]))
  {
    var s' := s.(loads := s.loads + [l]);
    forall i: nat | i < |s'.loads| ensures LoadOk(s', i) { if i < |s.loads| { assert LoadOk(s, i); } }
    forall k: nat | k < |s'.calls| ensures CallOk(s', k) { assert CallOk(s, k); }
    forall rel | rel in s'.inflight ensures InflightOk(s', rel) { assert InflightOk(s, rel); }
  }

  lemma LeadFlights(s: State, t: nat, l: Load)
    requires Flights(s) && At(s, t, Missed) && s.loads[t].rel !in s.inflight
    requires l.pc == Reading && l.rel == s.loads[t].rel && l.id == |s.calls|
    ensures Flights(Set(s, t, l).(calls := s.calls + [Call(l.rel, t, false, None)],
            inflight := s.inflight[l.rel := l.id]))
  {
    var s' := Set(s, t, l).(calls := s.calls + [Call(l.rel, t, false, None)], inflight := s.inflight[l.rel := l.id]);
    forall i: nat | i < |s'.loads| ensures LoadOk(s', i) { assert LoadOk(s, i); }
    forall k: nat | k < |s'.calls| ensures CallOk(s', k) { if k < |s.calls| { assert CallOk(s, k); } }
    forall rel | rel in s'.inflight ensures InflightOk(s', rel) { if rel != l.rel { assert InflightOk(s, rel); } }
  }

  lemma ReadFlights(s: State, t: nat, res: Result<Bytes, ()>)
    requires Flights(s) && At(s, t, Reading) && s.loads[t].id < |s.calls|
    ensures var l := s.loads[t];
            Flights(Set(s, t, l.(pc := Returned, res := res))
                    .(calls := s.calls[l.id := s.calls[l.id].(res := Some(res))]))
  {
    var l := s.loads[t];
    var s' := Set(s, t, l.(pc := Returned, res := res)).(calls := s.calls[l.id := s.calls[l.id].(res := Some(res))]);
    assert LoadOk(s, t);
    forall i: nat | i < |s'.loads| ensures LoadOk(s', i) { assert LoadOk(s, i); }
    forall k: nat | k < |s'.calls| ensures CallOk(s', k) { assert CallOk(s, k); }
    forall rel | rel in s'.inflight ensures InflightOk(s', rel) { assert InflightOk(s, rel); }
  }

  /** A leader moves on without touching calls; its registration goes when it retires. */
  lemma LeaderFlights(s: State, t: nat, l: Load)
    requires Flights(s) && t < |s.loads| && Leading(s.loads[t]) && Leading(l) && s.loads[t].pc != Reading
             && l.pc != Reading
    requires l.rel == s.loads[t].rel && l.id == s.loads[t].id && l.res == s.loads[t].res && !Registered(l)
    ensures Flights(Set(s, t, l).(inflight := if Registered(s.loads[t]) then s.inflight - {l.rel} else s.inflight))
  {
    var s' := Set(s, t, l).(inflight := if Registered(s.loads[t]) then s.inflight - {l.rel} else s.inflight);
    assert LoadOk(s, t);
    forall i: nat | i < |s'.loads| ensures LoadOk(s', i) { assert LoadOk(s, i); }
    forall k: nat | k < |s'.calls| ensures CallOk(s', k) { assert CallOk(s, k); }
    forall rel | rel in s'.inflight ensures InflightOk(s', rel) {
      assert InflightOk(s, rel);
      assert CallOk(s, s.inflight[rel]);
    }
  }

  lemma ReleaseFlights(s: State, t: nat)
    requires Flights(s) && At(s, t, Inserted) && s.loads[t].id < |s.calls|
    ensures var l := s.loads[t];
            Flights(Set(s, t, l.(pc := Finished)).(calls := s.calls[l.id := s.calls[l.id].(done := true)]))
  {
    var l := s.loads[t];
    var s' := Set(s, t, l.(pc := Finished)).(calls := s.calls[l.id := s.calls[l.id].(done := true)]);
    assert LoadOk(s, t);
    forall i: nat | i < |s'.loads| ensures LoadOk(s', i) { assert LoadOk(s, i); }
    forall k: nat | k < |s'.calls| ensures CallOk(s', k) { assert CallOk(s, k); }
    forall rel | rel in s'.inflight ensures InflightOk(s', rel) { assert InflightOk(s, rel); }
  }

  /** A write to a slice whose leader has returned. */
  lemma WriteFlights(s: State, t: nat, bytes: Bytes)
    requires Flights(s) && At(s, t, Finished) && s.loads[t].kind == Leader && HasRead(s, s.loads[t].id, s.loads[t].rel)
    ensures var k := s.loads[t].id;
            Flights(s.(calls := s.calls[k := s.calls[k].(res := Some(Ok(bytes)))]))
  {
    var k0 := s.loads[t].id;
    var s' := s.(calls := s.calls[k0 := s.calls[k0].(res := Some(Ok(bytes)))]);
    assert LoadOk(s, t);
    forall i: nat | i < |s'.loads| ensures LoadOk(s', i) { assert LoadOk(s, i); }
    forall k: nat | k < |s'.calls| ensures CallOk(s', k) { assert CallOk(s, k); }
    forall rel | rel in s'.inflight ensures InflightOk(s', rel) { assert InflightOk(s, rel); }
  }

  lemma SameFlights(s: State, s': State)
    requires Flights(s) && s'.loads == s.loads && s'.calls == s.calls && s'.inflight == s.inflight
    ensures Flights(s')
  {
    forall i: nat | i < |s'.loads| ensures LoadOk(s', i) { assert LoadOk(s, i); }
    forall k: nat | k < |s'.calls| ensures CallOk(s', k) { assert CallOk(s, k); }
    forall rel | rel in s'.inflight ensures InflightOk(s', rel) { assert InflightOk(s, rel); }
  }

  lemma LeaderStepFlights(s: State, stable: map<string, Bytes>, maxBytes: int, step: Step)
    requires Flights(s) && Enabled(s, stable, step) && (step.Retire? || step.Insert?)
    ensures Flights(Next(s, stable, maxBytes, step))
  {
    var s' := Next(s, stable, maxBytes, step);
    LeaderFlights(s, step.t, s'.loads[step.t]);
    SameFlights(Set(s, step.t, s'.loads[step.t]).(inflight := s'.inflight), s');
  }

  /** A load that takes a reference to a slice takes one that was read for its key. */
  lemma TakesSlice(s: State, rel: string)
    requires CacheOk(s.calls, s.cache) && HasKey(s.cache, rel)
    ensures HasRead(s, Lookup(s.cache, rel).data.id, rel)
  {
    LookupFinds(s.cache, rel);
    var i :| 0 <= i < |s.cache| && s.cache[i] == Lookup(s.cache, rel);
    assert EntryOk(s.calls, s.cache[i]);
  }

  lemma ProbeFlights(s: State, stable: map<string, Bytes>, maxBytes: int, t: nat)
    requires Sane(s) && Enabled(s, stable, Probe(t)) && s.loads[t].kind != Leader
    ensures Flights(Next(s, stable, maxBytes, Probe(t)))
  {
    if HasKey(s.cache, s.loads[t].rel) { TakesSlice(s, s.loads[t].rel); }
    QuietFlights(s, Next(s, stable, maxBytes, Probe(t)), t);
  }

  lemma WakeFlights(s: State, stable: map<string, Bytes>, maxBytes: int, t: nat)
    requires Sane(s) && Enabled(s, stable, Wake(t)) && s.loads[t].kind != Leader
    ensures Flights(Next(s, stable, maxBytes, Wake(t)))
  {
    var s', rel := Next(s, stable, maxBytes, Wake(t)), s.loads[t].rel;
    assert LoadOk(s, t);
    assert s'.loads[t].pc == Copying ==> HasRead(s, s'.loads[t].id, rel) by {
      if HasKey(s.cache, rel) { TakesSlice(s, rel); }
    }
    QuietFlights(s, s', t);
  }

  lemma PassFlights(s: State, stable: map<string, Bytes>, maxBytes: int, step: Step)
    requires Flights(s) && Enabled(s, stable, step) && (step.CountHit? || step.Join? || step.Copy?)
             && s.loads[step.t].kind != Leader
    ensures Flights(Next(s, stable, maxBytes, step))
  {
    var s', l := Next(s, stable, maxBytes, step), s.loads[step.t];
    assert LoadOk(s, step.t);
    if step.Join? { assert InflightOk(s, l.rel); }
    QuietFlights(s, s', step.t);
  }

  lemma FlightsKept(s: State, stable: map<string, Bytes>, maxBytes: int, step: Step)
    requires Sane(s) && KindsOk(s) && Enabled(s, stable, step)
    ensures Flights(Next(s, stable, maxBytes, step))
  {
    var s' := Next(s, stable, maxBytes, step);
    match step
    case Spawn(rel) => SpawnFlights(s, Load(rel, Start, NoKind, 0, Err(())));
    case Lead(t) => LeadFlights(s, t, s'.loads[t]);
    case ReadReturns(t, res) => ReadFlights(s, t, res);
    case Retire(t) => LeaderStepFlights(s, stable, maxBytes, step);
    case Insert(t) => LeaderStepFlights(s, stable, maxBytes, step);
    case Release(t) => ReleaseFlights(s, t);
    case Write(t, bytes) =>
      WriteFlights(s, t, bytes);
      SameFlights(s.(calls := s'.calls), s');
    case Invalidate(_) => SameFlights(s, s');
    case Probe(t) => assert KindOk(s.loads[t]); ProbeFlights(s, stable, maxBytes, t);
    case Wake(t) => assert KindOk(s.loads[t]); WakeFlights(s, stable, maxBytes, t);
    case CountHit(t) => assert KindOk(s.loads[t]); PassFlights(s, stable, maxBytes, step);
    case Join(t) => assert KindOk(s.loads[t]); PassFlights(s, stable, maxBytes, step);
    case Copy(t) => assert KindOk(s.loads[t]); PassFlights(s, stable, maxBytes, step);
  }

  /** At most one underlying read of a key runs at a time. */
  lemma OneReadPerKey(s: State, t: nat, u: nat)
    requires Flights(s) && At(s, t, Reading) && At(s, u, Reading) && s.loads[t].rel == s.loads[u].rel
    ensures t == u
  {
    assert LoadOk(s, t) && LoadOk(s, u);
  }

  // ------------------------------------------------------------------ how loads are counted

  predicate KindOk(l: Load) {
    match l.pc
    case Start => l.kind == NoKind
    case Found => l.kind == NoKind
    case Missed => l.kind == NoKind
    case Waiting => l.kind == Coalesced
    case Copying => l.kind == Hit || l.kind == Coalesced
    case Finished => l.kind != NoKind
    case _ => l.kind == Leader
  }

  ghost predicate KindsOk(s: State) {
    forall t: nat | t < |s.loads| :: KindOk(s.loads[t])
  }

  lemma KindMoved(s: State, stable: map<string, Bytes>, maxBytes: int, step: Step)
    requires Enabled(s, stable, step) && !step.Spawn? && !step.Invalidate? && KindOk(s.loads[step.t])
    ensures KindOk(Next(s, stable, maxBytes, step).loads[step.t])
  {
  }

  lemma KindsKept(s: State, stable: map<string, Bytes>, maxBytes: int, step: Step)
    requires KindsOk(s) && Enabled(s, stable, step)
    ensures KindsOk(Next(s, stable, maxBytes, step))
  {
    var s' := Next(s, stable, maxBytes, step);
    forall t: nat | t < |s'.loads| ensures KindOk(s'.loads[t]) {
      if !step.Spawn? && !step.Invalidate? && t == step.t {
        KindMoved(s, stable, maxBytes, step);
      } else if t < |s.loads| {
        assert KindOk(s.loads[t]);
      }
    }
  }

  // ------------------------------------------------------------------------- the cache

  /** Calls only ever gain a result, but for a write. */
  lemma CallsKeepCache(calls: seq<Call>, calls': seq<Call>, cache: seq<Entry>)
    requires CacheOk(calls, cache) && |calls| <= |calls'|
    requires forall k: nat | k < |calls| && calls[k].res.Some? ::
               calls'[k].rel == calls[k].rel
               && calls'[k].res == calls[k].res
    ensures CacheOk(calls', cache)
  {
    forall i | 0 <= i < |cache| ensures EntryOk(calls', cache[i]) { assert EntryOk(calls, cache[i]); }
  }

  lemma SubsetOk(calls: seq<Call>, cache: seq<Entry>, cache': seq<Entry>)
    requires CacheOk(calls, cache) && Distinct(cache') && forall e | e in cache' :: e in cache || EntryOk(calls, e)
    ensures CacheOk(calls, cache')
  {
    forall i | 0 <= i < |cache'| ensures EntryOk(calls, cache'[i]) {
      assert cache'[i] in cache';
      if cache'[i] in cache {
        var j :| 0 <= j < |cache| && cache[j] == cache'[i];
        assert EntryOk(calls, cache[j]);
      }
    }
  }

  lemma {:induction false} WithoutSubset(order: seq<Entry>, rel: string, e: Entry)
    requires e in Without(order, rel)
    ensures e in order && e.rel != rel
  {
    if order != [] && e in Without(order[..|order| - 1], rel) {
      WithoutSubset(order[..|order| - 1], rel, e);
    }
  }

  lemma FrontInside(cache: seq<Entry>, e: Entry, maxBytes: int, x: Entry)
    ensures x in Front(cache, e) ==> x == e || x in cache
    ensures x in Fit(Front(cache, e), maxBytes) ==> x in Front(cache, e)
    ensures e in Fit(Front(cache, e), maxBytes)
  {
    if x in Without(cache, e.rel) { WithoutSubset(cache, e.rel, x); }
    FitIsLongest(Front(cache, e), maxBytes);
    assert Fit(Front(cache, e), maxBytes)[0] == e;
  }

  lemma FrontOk(calls: seq<Call>, cache: seq<Entry>, e: Entry, maxBytes: int)
    requires CacheOk(calls, cache) && EntryOk(calls, e)
    ensures CacheOk(calls, Front(cache, e)) && CacheOk(calls, Fit(Front(cache, e), maxBytes))
  {
    FrontKeepsDistinct(cache, e);
    FitIsLongest(Front(cache, e), maxBytes);
    forall x | x in Front(cache, e) ensures x in cache || EntryOk(calls, x) { FrontInside(cache, e, maxBytes, x); }
    SubsetOk(calls, cache, Front(cache, e));
    forall x | x in Fit(Front(cache, e), maxBytes) ensures x in Front(cache, e) { FrontInside(cache, e, maxBytes, x); }
    SubsetOk(calls, Front(cache, e), Fit(Front(cache, e), maxBytes));
  }

  lemma DropOk(calls: seq<Call>, cache: seq<Entry>, prefix: string)
    requires CacheOk(calls, cache)
    ensures CacheOk(calls, Drop(cache, prefix))
  {
    DropKeepsDistinct(cache, prefix);
    forall x | x in Drop(cache, prefix) ensures x in cache { DropIsExact(cache, prefix, x); }
    SubsetOk(calls, cache, Drop(cache, prefix));
  }

  lemma WriteOk(calls: seq<Call>, cache: seq<Entry>, k: nat, bytes: Bytes)
    requires CacheOk(calls, cache) && k < |calls|
    ensures CacheOk(calls[k := calls[k].(res := Some(Ok(bytes)))], Rewrite(cache, k, bytes))
  {
    var calls', r := calls[k := calls[k].(res := Some(Ok(bytes)))], Rewrite(cache, k, bytes);
    forall i | 0 <= i < |r| ensures EntryOk(calls', r[i]) { assert EntryOk(calls, cache[i]); }
    forall i, j | 0 <= i < j < |r| ensures r[i].rel != r[j].rel { assert cache[i].rel != cache[j].rel; }
  }

  lemma LookupOk(calls: seq<Call>, cache: seq<Entry>, rel: string, maxBytes: int)
    requires CacheOk(calls, cache) && HasKey(cache, rel)
    ensures CacheOk(calls, Front(cache, Lookup(cache, rel)))
  {
    LookupFinds(cache, rel);
    var i :| 0 <= i < |cache| && cache[i] == Lookup(cache, rel);
    assert EntryOk(calls, cache[i]);
    FrontOk(calls, cache, Lookup(cache, rel), maxBytes);
  }

  lemma CacheKept(s: State, stable: map<string, Bytes>, maxBytes: int, step: Step)
    requires Sane(s) && Enabled(s, stable, step)
    ensures CacheOk(Next(s, stable, maxBytes, step).calls, Next(s, stable, maxBytes, step).cache)
  {
    match step
    case Probe(t) => if HasKey(s.cache, s.loads[t].rel) { LookupOk(s.calls, s.cache, s.loads[t].rel, maxBytes); }
    case Wake(t) => if HasKey(s.cache, s.loads[t].rel) { LookupOk(s.calls, s.cache, s.loads[t].rel, maxBytes); }
    case Insert(t) =>
      var l := s.loads[t];
      assert LoadOk(s, t);
      if l.res.Ok? { FrontOk(s.calls, s.cache, Entry(l.rel, Slice(l.id, l.res.value)), maxBytes); }
    case ReadReturns(t, res) =>
      assert LoadOk(s, t);
      CallsKeepCache(s.calls, Next(s, stable, maxBytes, step).calls, s.cache);
    case Lead(t) => CallsKeepCache(s.calls, Next(s, stable, maxBytes, step).calls, s.cache);
    case Release(t) => CallsKeepCache(s.calls, Next(s, stable, maxBytes, step).calls, s.cache);
    case Write(t, bytes) => WriteOk(s.calls, s.cache, s.loads[t].id, bytes);
    case Invalidate(prefix) => DropOk(s.calls, s.cache, prefix);
    case _ =>
  }

  /** Every step keeps leaders, calls, marks, slices and kinds in order. */
  lemma StepKeepsInv(s: State, stable: map<string, Bytes>, maxBytes: int, step: Step)
    requires Inv(s) && Enabled(s, stable, step)
    ensures Inv(Next(s, stable, maxBytes, step))
  {
    FlightsKept(s, stable, maxBytes, step);
    CacheKept(s, stable, maxBytes, step);
    KindsKept(s, stable, maxBytes, step);
  }

  ghost predicate Inv(s: State) {
    Sane(s) && KindsOk(s)
  }

  lemma {:induction false} RunKeepsInv(s: State, stable: map<string, Bytes>, maxBytes: int, steps: seq<Step>)
    requires Inv(s) && Runs(s, stable, maxBytes, steps)
    ensures Inv(After(s, stable, maxBytes, steps))
    decreases |steps|
  {
    if steps != [] {
      RunKeepsInv(s, stable, maxBytes, steps[..|steps| - 1]);
      StepKeepsInv(After(s, stable, maxBytes, steps[..|steps| - 1]), stable, maxBytes, steps[|steps| - 1]);
    }
  }

  // ------------------------------------------------------------------------- progress

  /** No load is ever stuck: while one has not finished, some load can move. A waiter
      waits for a leader that is still under way. */
  lemma NeverStuck(s: State, stable: map<string, Bytes>, t: nat) returns (step: Step)
    requires Flights(s) && t < |s.loads| && s.loads[t].pc != Finished
    ensures Enabled(s, stable, step) && !step.Spawn? && !step.Invalidate? && !step.Write?
  {
    assert LoadOk(s, t);
    if s.loads[t].pc == Waiting {
      var k := s.loads[t].id;
      assert CallOk(s, k);
      if s.calls[k].done {
        step := Wake(t);
      } else {
        assert LoadOk(s, s.calls[k].leader);
        step := LeaderStep(s, stable, s.calls[k].leader);
      }
    } else if Leading(s.loads[t]) {
      step := LeaderStep(s, stable, t);
    } else if s.loads[t].pc == Start {
      step := Probe(t);
    } else if s.loads[t].pc == Found {
      step := CountHit(t);
    } else if s.loads[t].pc == Copying {
      step := Copy(t);
    } else {
      step := if s.loads[t].rel in s.inflight then Join(t) else Lead(t);
    }
  }

  lemma LeaderStep(s: State, stable: map<string, Bytes>, t: nat) returns (step: Step)
    requires t < |s.loads| && Leading(s.loads[t]) && LoadOk(s, t)
    ensures Enabled(s, stable, step) && !step.Spawn? && !step.Invalidate? && !step.Write?
  {
    var pc := s.loads[t].pc;
    step := if pc == Reading then ReadReturns(t, Err(()))
            else if pc == Returned then Retire(t)
            else if pc == Retired then Insert(t)
            else Release(t);
  }
}
