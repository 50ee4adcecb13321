/** Crash resume: committed chunks are never fetched again, however often a run is
    interrupted, as long as nobody else changes the cache. */
module Resume {
  import opened Common
  import opened Split
  import opened Bits
  import opened Format
  import opened Publish
  import opened Assembly
  import opened Reconcile
  import opened ReconcileSafety

  /** What the fetch pool still has to fetch: exactly the distinct descriptors of the
      accepted manifest that are not validly cached. */
  ghost predicate PendingOk(c: Codec, s: Sys) {
    s.pc in {Planned, FetchingPc} ==>
      && Distinct(s.run.pending)
      && (forall ch :: ch in s.run.pending <==>
           ch in Unique(s.run.signed.manifest.chunks)
           && !ValidChunk(c, s.disk.cache, ch))
  }

  // --------------------------------------------------------- the list of missing chunks

  lemma DistinctSnoc(cs: seq<Chunk>, ch: Chunk)
    ensures Distinct(cs + [ch]) <==> Distinct(cs) && !HasSha(cs, ch.sha)
    ensures HasSha(cs, ch.sha) <==> exists d | d in cs :: d.sha == ch.sha
  {
    var all := cs + [ch];
    assert all[|cs|] == ch && forall i | 0 <= i < |cs| :: all[i] == cs[i] && cs[i] in cs;
    if d :| d in cs && d.sha == ch.sha {
      var k :| 0 <= k < |cs| && cs[k] == d;
    }
  }

  lemma {:induction false} MissingMembers(c: Codec, cache: map<string, Bytes>, cs: seq<Chunk>, ch: Chunk)
    ensures ch in Missing(c, cache, cs) <==> ch in cs && !ValidChunk(c, cache, ch)
  {
    if cs != [] {
      MissingMembers(c, cache, cs[..|cs| - 1], ch);
      assert cs[..|cs| - 1] + [cs[|cs| - 1]] == cs;
    }
  }

  lemma {:induction false} MissingAtMost(c: Codec, cache: map<string, Bytes>, cs: seq<Chunk>)
    ensures |Missing(c, cache, cs)| <= |cs|
  {
    if cs != [] { MissingAtMost(c, cache, cs[..|cs| - 1]); }
  }

  lemma {:induction false} MissingDistinct(c: Codec, cache: map<string, Bytes>, cs: seq<Chunk>)
    requires Distinct(cs)
    ensures Distinct(Missing(c, cache, cs))
  {
    if cs != [] {
      var init, last := cs[..|cs| - 1], cs[|cs| - 1];
      assert init + [last] == cs;
      var m := Missing(c, cache, init);
      MissingDistinct(c, cache, init);
      DistinctSnoc(init, last);
      DistinctSnoc(m, last);
      forall d | d in m ensures d in init { MissingMembers(c, cache, init, d); }
    }
  }

  /** A descriptor of this digest and size is on the list. */
  predicate Lists(cs: seq<Chunk>, sha: string, size: int) {
    exists k | 0 <= k < |cs| :: cs[k].sha == sha && cs[k].size == size
  }

  lemma ListsSnoc(cs: seq<Chunk>, ch: Chunk, sha: string, size: int)
    ensures Lists(cs + [ch], sha, size) == (Lists(cs, sha, size) || (ch.sha == sha && ch.size == size))
  {
    var all := cs + [ch];
    if Lists(cs, sha, size) {
      var k :| 0 <= k < |cs| && cs[k].sha == sha && cs[k].size == size;
      assert all[k] == cs[k];
    }
    assert all[|cs|] == ch;
  }

  /** The cached file of this digest has this digest, whatever its size. */
  predicate Occupied(c: Codec, cache: map<string, Bytes>, sha: string) {
    sha in cache && c.sha(cache[sha]) == sha
  }

  /** Filling a vacant entry: the missing count falls by one exactly if the list holds the
      digest with the size of the new bytes. */
  lemma {:induction false} MissingAfterPut(c: Codec, cache: map<string, Bytes>, cs: seq<Chunk>, sha: string, raw: Bytes)
    requires Distinct(cs) && !Occupied(c, cache, sha) && c.sha(raw) == sha
    ensures |Missing(c, cache[sha := raw], cs)| == |Missing(c, cache, cs)| - if Lists(cs, sha, |raw|) then 1 else 0
  {
    if cs != [] {
      var init, last := cs[..|cs| - 1], cs[|cs| - 1];
      assert init + [last] == cs;
      MissingAfterPut(c, cache, init, sha, raw);
      ListsSnoc(init, last, sha, |raw|);
      DistinctSnoc(init, last);
      if last.sha == sha { NotListed(init, sha, |raw|); }
    }
  }

  lemma NotListed(cs: seq<Chunk>, sha: string, size: int)
    requires !HasSha(cs, sha)
    ensures !Lists(cs, sha, size)
  {
  }

  /** How many digests on the list have no cached file with that digest. */
  function Vacant(c: Codec, cache: map<string, Bytes>, cs: seq<Chunk>): (n: nat)
    ensures n <= |cs|
  {
    if cs == [] then 0
    else Vacant(c, cache, cs[..|cs| - 1]) + if Occupied(c, cache, cs[|cs| - 1].sha) then 0 else 1
  }

  lemma {:induction false} VacantAfterPut(c: Codec, cache: map<string, Bytes>, cs: seq<Chunk>, sha: string, raw: Bytes)
    requires Distinct(cs) && !Occupied(c, cache, sha) && c.sha(raw) == sha
    ensures Vacant(c, cache[sha := raw], cs) == Vacant(c, cache, cs) - if HasSha(cs, sha) then 1 else 0
  {
    if cs != [] {
      var init, last := cs[..|cs| - 1], cs[|cs| - 1];
      assert init + [last] == cs;
      VacantAfterPut(c, cache, init, sha, raw);
      HasShaSnoc(init, last, sha);
      DistinctSnoc(init, last);
    }
  }

  lemma {:induction false} WithoutFacts(cs: seq<Chunk>, ch: Chunk)
    requires ch in cs && Distinct(cs)
    ensures Distinct(Without(cs, ch))
    ensures forall d :: d in Without(cs, ch) <==> d in cs && d.sha != ch.sha
  {
    var init, last := cs[..|cs| - 1], cs[|cs| - 1];
    assert init + [last] == cs;
    DistinctSnoc(init, last);
    if last != ch {
      WithoutFacts(init, ch);
      DistinctSnoc(Without(init, ch), last);
    }
  }

  // ---------------------------------------------------------------------- one step

  lemma SameShaSameChunk(cs: seq<Chunk>, a: Chunk, b: Chunk)
    requires Distinct(cs) && a in cs && b in cs && a.sha == b.sha
    ensures a == b
  {
    var i :| 0 <= i < |cs| && cs[i] == a;
    var j :| 0 <= j < |cs| && cs[j] == b;
    assert i < j || j < i || i == j;
  }

  lemma CommitKeepsPending(c: Codec, s: Sys, ch: Chunk, body: Bytes)
    requires PendingOk(c, s) && Enabled(c, s, Commit(ch, body))
    ensures PendingOk(c, Next(c, s, Commit(ch, body)))
    ensures ValidChunk(c, Next(c, s, Commit(ch, body)).disk.cache, ch)
  {
    var s', unique := Next(c, s, Commit(ch, body)), Unique(s.run.signed.manifest.chunks);
    DecodeExact(c, body, ch, Decode(c, body, ch).value);
    WithoutFacts(s.run.pending, ch);
    UniqueFacts(s.run.signed.manifest.chunks);
    forall d ensures d in s'.run.pending <==> d in unique && !ValidChunk(c, s'.disk.cache, d) {
      if d in unique && d.sha == ch.sha { SameShaSameChunk(unique, d, ch); }
    }
  }

  lemma PlanMakesPending(c: Codec, s: Sys)
    requires Enabled(c, s, Plan)
    ensures PendingOk(c, Next(c, s, Plan))
  {
    UniqueFacts(s.run.signed.manifest.chunks);
    var cs := Unique(s.run.signed.manifest.chunks);
    MissingDistinct(c, s.disk.cache, cs);
    forall ch ensures ch in Missing(c, s.disk.cache, cs) <==> ch in cs && !ValidChunk(c, s.disk.cache, ch) {
      MissingMembers(c, s.disk.cache, cs, ch);
    }
  }

  lemma StepKeepsPending(c: Codec, s: Sys, step: Step)
    requires PendingOk(c, s) && Enabled(c, s, step) && !step.Rot?
    ensures PendingOk(c, Next(c, s, step))
    ensures !step.Commit? ==> Next(c, s, step).disk.cache == s.disk.cache
  {
    if step.Commit? {
      CommitKeepsPending(c, s, step.ch, step.body);
    } else if step.Plan? {
      PlanMakesPending(c, s);
    }
  }

  /** Without collisions only a vacant digest can be committed: a cached file with the
      digest would be the very bytes that arrived. */
  lemma CommitFillsVacancy(c: Codec, s: Sys, ch: Chunk, body: Bytes, universe: set<Bytes>)
    requires PendingOk(c, s) && Enabled(c, s, Commit(ch, body))
    requires c.Injective(universe) && s.disk.cache.Values <= universe && Decode(c, body, ch).value in universe
    ensures var raw := Decode(c, body, ch).value;
            && !Occupied(c, s.disk.cache, ch.sha) && c.sha(raw) == ch.sha && |raw| == ch.size
            && Next(c, s, Commit(ch, body)).disk.cache == s.disk.cache[ch.sha := raw]
  {
    DecodeExact(c, body, ch, Decode(c, body, ch).value);
    OccupiedBytes(c, s.disk.cache, Decode(c, body, ch).value, universe);
  }

  lemma OccupiedBytes(c: Codec, cache: map<string, Bytes>, raw: Bytes, universe: set<Bytes>)
    requires c.Injective(universe) && cache.Values <= universe && raw in universe
    ensures Occupied(c, cache, c.sha(raw)) ==> cache[c.sha(raw)] == raw
  {
    assert Occupied(c, cache, c.sha(raw)) ==> cache[c.sha(raw)] in cache.Values;
  }

  // ----------------------------------------------------------------- whole histories

  predicate NoRot(steps: seq<Step>) {
    forall i | 0 <= i < |steps| :: !steps[i].Rot?
  }

  /** The bytes that are ever cached. */
  ghost predicate Inside(c: Codec, cache: map<string, Bytes>, steps: seq<Step>, universe: set<Bytes>) {
    && cache.Values <= universe
    && forall i | 0 <= i < |steps| && steps[i].Commit? && Decode(c, steps[i].body, steps[i].ch).Ok? ::
         Decode(c, steps[i].body, steps[i].ch).value in universe
  }

  lemma InsideRest(c: Codec, s: Sys, steps: seq<Step>, universe: set<Bytes>)
    requires steps != [] && NoRot(steps) && Inside(c, s.disk.cache, steps, universe)
    requires Enabled(c, s, steps[0]) && (!steps[0].Commit? ==> Next(c, s, steps[0]).disk.cache == s.disk.cache)
    ensures NoRot(steps[1..]) && Inside(c, Next(c, s, steps[0]).disk.cache, steps[1..], universe)
  {
    var rest := steps[1..];
    assert forall i | 0 <= i < |rest| :: rest[i] == steps[i + 1];
  }

  /** How many commits in a history were of a digest in cs, and how many of those were
      under another size than cs gives. */
  ghost function Commits(steps: seq<Step>, cs: seq<Chunk>): (n: nat) {
    if steps == [] then 0
    else (if steps[0].Commit? && HasSha(cs, steps[0].ch.sha) then 1 else 0) + Commits(steps[1..], cs)
  }

  ghost function Misfits(steps: seq<Step>, cs: seq<Chunk>): (n: nat) {
    if steps == [] then 0
    else
      (if steps[0].Commit? && HasSha(cs, steps[0].ch.sha) && !Lists(cs, steps[0].ch.sha, steps[0].ch.size)
       then 1 else 0)
      + Misfits(steps[1..], cs)
  }

  lemma ListsHasSha(cs: seq<Chunk>, sha: string, size: int)
    ensures Lists(cs, sha, size) ==> HasSha(cs, sha)
  {
  }

  /** One step: a commit fills one vacancy, and nothing else changes a count. */
  lemma StepCounts(c: Codec, s: Sys, step: Step, cs: seq<Chunk>, universe: set<Bytes>)
    requires PendingOk(c, s) && Enabled(c, s, step) && !step.Rot? && Distinct(cs)
    requires c.Injective(universe) && s.disk.cache.Values <= universe
    requires step.Commit? ==> Decode(c, step.body, step.ch).value in universe
    ensures var cache, cache' := s.disk.cache, Next(c, s, step).disk.cache;
            var hit := step.Commit? && HasSha(cs, step.ch.sha);
            && Vacant(c, cache', cs) == Vacant(c, cache, cs) - (if hit then 1 else 0)
            && |Missing(c, cache', cs)| ==
               |Missing(c, cache, cs)| - (if hit && Lists(cs, step.ch.sha, step.ch.size) then 1 else 0)
  {
    StepKeepsPending(c, s, step);
    if step.Commit? {
      var raw := Decode(c, step.body, step.ch).value;
      CommitFillsVacancy(c, s, step.ch, step.body, universe);
      VacantAfterPut(c, s.disk.cache, cs, step.ch.sha, raw);
      MissingAfterPut(c, s.disk.cache, cs, step.ch.sha, raw);
      ListsHasSha(cs, step.ch.sha, step.ch.size);
    }
  }

  /** Conservation over any number of runs, crashes and releases, whatever is signed: the
      commits of the digests in cs plus the digests still vacant equal those vacant at the
      start. What is missing is conserved likewise, but for commits of a digest under
      another size than cs gives, which leave it missing. */
  lemma {:induction false} CommitsPlusVacant(c: Codec, s: Sys, steps: seq<Step>, cs: seq<Chunk>, universe: set<Bytes>)
    requires PendingOk(c, s) && Runs(c, s, steps) && NoRot(steps) && Distinct(cs)
    requires c.Injective(universe) && Inside(c, s.disk.cache, steps, universe)
    ensures var cache, cache' := s.disk.cache, After(c, s, steps).disk.cache;
            && Commits(steps, cs) + Vacant(c, cache', cs) == Vacant(c, cache, cs)
            && Commits(steps, cs) + |Missing(c, cache', cs)| == |Missing(c, cache, cs)| + Misfits(steps, cs)
    ensures PendingOk(c, After(c, s, steps))
    decreases |steps|
  {
    if steps != [] {
      StepKeepsPending(c, s, steps[0]);
      StepCounts(c, s, steps[0], cs, universe);
      InsideRest(c, s, steps, universe);
      CommitsPlusVacant(c, Next(c, s, steps[0]), steps[1..], cs, universe);
    }
  }

  /** The total for a manifest never exceeds its number of distinct chunks. */
  lemma CommitsBounded(c: Codec, s: Sys, steps: seq<Step>, m: Manifest, universe: set<Bytes>)
    requires Init(s) && Runs(c, s, steps) && NoRot(steps)
    requires c.Injective(universe) && Inside(c, s.disk.cache, steps, universe)
    ensures Commits(steps, Unique(m.chunks)) <= |Unique(m.chunks)|
  {
    UniqueFacts(m.chunks);
    CommitsPlusVacant(c, s, steps, Unique(m.chunks), universe);
  }

  lemma {:induction false} OccupiedStays(c: Codec, s: Sys, steps: seq<Step>, sha: string, universe: set<Bytes>)
    requires PendingOk(c, s) && Runs(c, s, steps) && NoRot(steps) && Occupied(c, s.disk.cache, sha)
    requires c.Injective(universe) && Inside(c, s.disk.cache, steps, universe)
    ensures var cache := After(c, s, steps).disk.cache;
            sha in cache && cache[sha] == s.disk.cache[sha]
    ensures PendingOk(c, After(c, s, steps))
    decreases |steps|
  {
    if steps != [] {
      StepKeepsPending(c, s, steps[0]);
      if steps[0].Commit? {
        CommitFillsVacancy(c, s, steps[0].ch, steps[0].body, universe);
      }
      InsideRest(c, s, steps, universe);
      OccupiedStays(c, Next(c, s, steps[0]), steps[1..], sha, universe);
    }
  }

  /** A chunk that is validly cached stays so and is never committed again. A later run
      asks for its digest exactly when the manifest it has accepted states another size
      for it; with the same size it is never requested. */
  lemma NeverRequestedAgain(c: Codec, s: Sys, steps: seq<Step>, ch: Chunk, universe: set<Bytes>)
    requires PendingOk(c, s) && Runs(c, s, steps) && NoRot(steps) && ValidChunk(c, s.disk.cache, ch)
    requires c.Injective(universe) && Inside(c, s.disk.cache, steps, universe)
    ensures Commits(steps, [ch]) == 0
    ensures var s' := After(c, s, steps);
            && ValidChunk(c, s'.disk.cache, ch)
            && (s'.pc in {Planned, FetchingPc} ==>
                  (HasSha(s'.run.pending, ch.sha) <==> RestatesSize(Unique(s'.run.signed.manifest.chunks), ch)))
  {
    var s' := After(c, s, steps);
    CommitsPlusVacant(c, s, steps, [ch], universe);
    assert [ch][..0] == [];
    OccupiedStays(c, s, steps, ch.sha, universe);
    if s'.pc in {Planned, FetchingPc} {
      AskedExactly(c, s', ch);
    }
  }

  /** Another size for the digest of ch is on the list. */
  ghost predicate RestatesSize(cs: seq<Chunk>, ch: Chunk) {
    exists d :: d in cs && d.sha == ch.sha && d.size != ch.size
  }

  lemma AskedExactly(c: Codec, s: Sys, ch: Chunk)
    requires PendingOk(c, s) && s.pc in {Planned, FetchingPc} && ValidChunk(c, s.disk.cache, ch)
    ensures HasSha(s.run.pending, ch.sha) <==> RestatesSize(Unique(s.run.signed.manifest.chunks), ch)
  {
    var unique := Unique(s.run.signed.manifest.chunks);
    if HasSha(s.run.pending, ch.sha) {
      var k :| 0 <= k < |s.run.pending| && s.run.pending[k].sha == ch.sha;
      assert s.run.pending[k] in s.run.pending;
    }
    if RestatesSize(unique, ch) {
      var d :| d in unique && d.sha == ch.sha && d.size != ch.size;
      assert d in s.run.pending;
      var k :| 0 <= k < |s.run.pending| && s.run.pending[k] == d;
    }
  }

  // ------------------------------------------------------------ commits in any order

  function CommitSteps(cs: seq<Chunk>, bodies: seq<Bytes>): (steps: seq<Step>)
    requires |cs| == |bodies|
    ensures |steps| == |cs|
  {
    seq(|cs|, i requires 0 <= i < |cs| => Commit(cs[i], bodies[i]))
  }

  /** The same descriptors, each once. */
  ghost predicate Rearranged(cs: seq<Chunk>, pending: seq<Chunk>) {
    Distinct(cs) && forall ch :: ch in cs <==> ch in pending
  }

  lemma RearrangedRest(cs: seq<Chunk>, pending: seq<Chunk>)
    requires cs != [] && Rearranged(cs, pending) && Distinct(pending)
    ensures cs[0] in pending && Rearranged(cs[1..], Without(pending, cs[0]))
  {
    assert cs[0] in cs;
    WithoutFacts(pending, cs[0]);
    var rest := cs[1..];
    assert forall i | 0 <= i < |rest| :: rest[i] == cs[i + 1];
    forall ch ensures ch in rest <==> ch in Without(pending, cs[0]) {
      if ch in rest {
        var i :| 0 <= i < |rest| && rest[i] == ch;
        assert cs[i + 1] == ch && cs[0].sha != cs[i + 1].sha;
      }
      if ch in cs && ch.sha != cs[0].sha {
        var i :| 0 <= i < |cs| && cs[i] == ch;
        assert i > 0 && rest[i - 1] == ch;
      }
    }
  }

  /** All of cs, and all that was valid under another digest, is valid afterwards. */
  ghost predicate Filled(c: Codec, cache: map<string, Bytes>, cs: seq<Chunk>, cache': map<string, Bytes>) {
    forall ch :: ch in cs || (ValidChunk(c, cache, ch) && !HasSha(cs, ch.sha)) ==> ValidChunk(c, cache', ch)
  }

  lemma FilledRest(c: Codec, cache: map<string, Bytes>, cs: seq<Chunk>, raw: Bytes, cache': map<string, Bytes>)
    requires cs != [] && Distinct(cs) && ValidChunk(c, cache[cs[0].sha := raw], cs[0])
    requires Filled(c, cache[cs[0].sha := raw], cs[1..], cache')
    ensures Filled(c, cache, cs, cache')
  {
    var rest := cs[1..];
    assert forall i | 0 <= i < |rest| :: rest[i] == cs[i + 1];
    assert cs == [cs[0]] + rest;
    assert !HasSha(rest, cs[0].sha);
  }

  /** Whatever order the workers commit in, the commits are a history of the machine: it
      leaves nothing to fetch, so the run goes on to assembling, and everything valid. */
  lemma {:induction false} CommitsInAnyOrder(c: Codec, s: Sys, cs: seq<Chunk>, bodies: seq<Bytes>)
    requires PendingOk(c, s) && s.pc == FetchingPc && Rearranged(cs, s.run.pending) && |cs| == |bodies|
    requires forall i | 0 <= i < |cs| :: Decode(c, bodies[i], cs[i]).Ok?
    ensures Runs(c, s, CommitSteps(cs, bodies))
    ensures var s' := After(c, s, CommitSteps(cs, bodies));
            && s'.pc == FetchingPc && s'.run.pending == [] && Enabled(c, s', WriteAssembling)
            && Filled(c, s.disk.cache, cs, s'.disk.cache)
    decreases |cs|
  {
    if cs == [] {
      NothingLeft(s.run.pending);
    } else {
      var rest, others := cs[1..], bodies[1..];
      RearrangedRest(cs, s.run.pending);
      var s1 := FirstCommit(c, s, cs[0], bodies[0]);
      assert forall i | 0 <= i < |rest| :: rest[i] == cs[i + 1] && others[i] == bodies[i + 1];
      CommitsInAnyOrder(c, s1, rest, others);
      CommitsCons(c, s, s1, cs, bodies);
      FilledRest(c, s.disk.cache, cs, Decode(c, bodies[0], cs[0]).value,
          After(c, s1, CommitSteps(rest, others)).disk.cache);
    }
  }

  lemma NothingLeft(pending: seq<Chunk>)
    requires Rearranged([], pending)
    ensures pending == []
  {
    if pending != [] { HasMember(pending); }
  }

  lemma HasMember(cs: seq<Chunk>)
    requires cs != []
    ensures exists ch :: ch in cs
  {
    assert cs[0] in cs;
  }

  lemma FirstCommit(c: Codec, s: Sys, ch: Chunk, body: Bytes) returns (s1: Sys)
    requires PendingOk(c, s) && s.pc == FetchingPc && ch in s.run.pending && Decode(c, body, ch).Ok?
    ensures Enabled(c, s, Commit(ch, body)) && s1 == Next(c, s, Commit(ch, body))
    ensures PendingOk(c, s1) && s1.pc == FetchingPc && s1.run.pending == Without(s.run.pending, ch)
    ensures s1.disk.cache == s.disk.cache[ch.sha := Decode(c, body, ch).value] && ValidChunk(c, s1.disk.cache, ch)
  {
    CommitKeepsPending(c, s, ch, body);
    s1 := Next(c, s, Commit(ch, body));
  }

  lemma CommitsCons(c: Codec, s: Sys, s1: Sys, cs: seq<Chunk>, bodies: seq<Bytes>)
    requires cs != [] && |cs| == |bodies| && Enabled(c, s, Commit(cs[0], bodies[0]))
             && s1 == Next(c, s, Commit(cs[0], bodies[0]))
    requires Runs(c, s1, CommitSteps(cs[1..], bodies[1..]))
    ensures Runs(c, s, CommitSteps(cs, bodies))
    ensures After(c, s, CommitSteps(cs, bodies)) == After(c, s1, CommitSteps(cs[1..], bodies[1..]))
  {
    var steps := CommitSteps(cs, bodies);
    assert steps[0] == Commit(cs[0], bodies[0]) && steps[1..] == CommitSteps(cs[1..], bodies[1..]);
  }

  lemma {:induction false} DistinctOnce(cs: seq<Chunk>, x: Chunk)
    requires Distinct(cs)
    ensures multiset(cs)[x] <= 1
  {
    if cs != [] {
      var init, last := cs[..|cs| - 1], cs[|cs| - 1];
      DistinctOnce(init, x);
      DistinctSnoc(init, last);
      assert init + [last] == cs;
      assert x == last ==> x !in init;
    }
  }

  lemma Twice(cs: seq<Chunk>, i: nat, j: nat)
    requires i < j < |cs| && cs[i] == cs[j]
    ensures multiset(cs)[cs[i]] >= 2
  {
    assert cs == cs[..j] + [cs[j]] + cs[j + 1..];
    assert cs[..j][i] == cs[i] && cs[i] in multiset(cs[..j]);
  }

  /** What occurs in cs no more often than in distinct descriptors is picked from them. */
  lemma BoundedIsPicked(cs: seq<Chunk>, pending: seq<Chunk>)
    requires Distinct(pending) && forall x :: multiset(cs)[x] <= multiset(pending)[x]
    ensures Picked(cs, pending)
  {
    forall ch | ch in cs ensures ch in pending {
      assert multiset(cs)[ch] > 0;
      assert ch in multiset(pending);
    }
    forall i, j | 0 <= i < j < |cs| ensures cs[i].sha != cs[j].sha {
      assert cs[i] in cs && cs[j] in cs;
      if cs[i].sha == cs[j].sha {
        SameShaSameChunk(pending, cs[i], cs[j]);
        DistinctOnce(pending, cs[i]);
        Twice(cs, i, j);
      }
    }
  }

  /** A permutation of distinct descriptors is a rearrangement. */
  lemma PermutationIsRearranged(cs: seq<Chunk>, pending: seq<Chunk>)
    requires multiset(cs) == multiset(pending) && Distinct(pending)
    ensures Rearranged(cs, pending)
  {
    forall ch ensures ch in cs <==> ch in pending {
      assert ch in multiset(cs) <==> ch in multiset(pending);
    }
    forall i, j | 0 <= i < j < |cs| ensures cs[i].sha != cs[j].sha {
      if cs[i].sha == cs[j].sha {
        SameShaSameChunk(pending, cs[i], cs[j]);
        DistinctOnce(pending, cs[i]);
        Twice(cs, i, j);
      }
    }
  }

  /** Some of the pending descriptors, each once. */
  ghost predicate Picked(cs: seq<Chunk>, pending: seq<Chunk>) {
    Distinct(cs) && forall ch | ch in cs :: ch in pending
  }

  lemma PickedRest(cs: seq<Chunk>, pending: seq<Chunk>)
    requires cs != [] && Picked(cs, pending) && Distinct(pending)
    ensures cs[0] in pending && Picked(cs[1..], Without(pending, cs[0]))
  {
    assert cs[0] in cs;
    WithoutFacts(pending, cs[0]);
    var rest := cs[1..];
    assert forall i | 0 <= i < |rest| :: rest[i] == cs[i + 1];
    forall ch | ch in rest ensures ch in Without(pending, cs[0]) {
      var i :| 0 <= i < |rest| && rest[i] == ch;
      assert cs[i + 1] in cs && cs[0].sha != cs[i + 1].sha;
    }
  }

  /** Commits of some pending chunks, in any order, are a history of the machine, whether
      or not the rest follow. */
  lemma {:induction false} CommitsOfSome(c: Codec, s: Sys, cs: seq<Chunk>, bodies: seq<Bytes>)
    requires PendingOk(c, s) && s.pc == FetchingPc && Picked(cs, s.run.pending) && |cs| == |bodies|
    requires forall i | 0 <= i < |cs| :: Decode(c, bodies[i], cs[i]).Ok?
    ensures Runs(c, s, CommitSteps(cs, bodies))
    ensures var s' := After(c, s, CommitSteps(cs, bodies));
            s'.pc == FetchingPc && PendingOk(c, s') && Filled(c, s.disk.cache, cs, s'.disk.cache)
    decreases |cs|
  {
    if cs != [] {
      var rest, others := cs[1..], bodies[1..];
      PickedRest(cs, s.run.pending);
      var s1 := FirstCommit(c, s, cs[0], bodies[0]);
      assert forall i | 0 <= i < |rest| :: rest[i] == cs[i + 1] && others[i] == bodies[i + 1];
      CommitsOfSome(c, s1, rest, others);
      CommitsCons(c, s, s1, cs, bodies);
      FilledRest(c, s.disk.cache, cs, Decode(c, bodies[0], cs[0]).value,
                 After(c, s1, CommitSteps(rest, others)).disk.cache);
    }
  }

  /** Once every missing chunk has been committed, in any order, each chunk of the
      manifest is validly cached: the hypothesis of the round trip. */
  lemma FilledIsComplete(c: Codec, cache: map<string, Bytes>, m: Manifest, cs: seq<Chunk>, cache': map<string, Bytes>)
    requires Consistent(m.chunks) && Rearranged(cs, Missing(c, cache, Unique(m.chunks))) && Filled(c, cache, cs, cache')
    ensures AllValid(c, cache', m.chunks)
  {
    var unique := Unique(m.chunks);
    UniqueFacts(m.chunks);
    forall ch | ch in unique ensures ValidChunk(c, cache', ch) {
      MissingMembers(c, cache, unique, ch);
      if HasSha(cs, ch.sha) {
        var k :| 0 <= k < |cs| && cs[k].sha == ch.sha;
        assert cs[k] in cs;
        MissingMembers(c, cache, unique, cs[k]);
        SameShaSameChunk(unique, ch, cs[k]);
      }
    }
    ValidUniqueSuffices(c, cache', m.chunks);
  }

  // ------------------------------------------------------ a digest that is asked for again

  const DIGEST := seq(64, i => '0')
  const OTHER := seq(64, i => '1')

  /** One chunk of one byte, cached; and a signed manifest that says it has two. */
  const CACHED := Chunk(DIGEST, 1, OTHER, 1)
  const RESTATED := Chunk(DIGEST, 2, OTHER, 1)
  const LATER := Manifest(FORMAT_VERSION, "r", 1, "raw", OTHER, 2, [], "", GEAR_CHUNKER, Params(64, 64, 64), [RESTATED])

  const WITNESS := Codec(
    b => if b == [7] then DIGEST else OTHER,
    b => if b == [2] then Some([2]) else None,
    b => if b == [2] then Some(LATER) else None,
    m => [2], b => b, b => Stream(b, true))

  lemma DigestsAreDigests()
    ensures IsDigest(DIGEST) && IsDigest(OTHER) && DIGEST != OTHER
  {
    assert DIGEST[0] != OTHER[0];
  }

  lemma LaterIsWellFormed()
    ensures WellFormed(LATER, LIMIT)
  {
    DigestsAreDigests();
    assert IsPowerOfTwo(2) && IsPowerOfTwo(8) && IsPowerOfTwo(32) && IsPowerOfTwo(64);
    assert Sizes(LATER.chunks) == [2] && [2][..0] == [];
  }

  lemma LaterVerifies()
    ensures Verified(WITNESS, [2], LIMIT) == Some(Signed(LATER, OTHER))
    ensures ReconcileSafety.Binding(WITNESS) && WITNESS.Injective({[7]})
  {
    DigestsAreDigests();
    LaterIsWellFormed();
  }

  const ONLINE := RunOptions("u", false, false, LIMIT)

  const ASKING: seq<Step> := [Begin(ONLINE)]
        + ([Receive([2])] + ([Judge] + ([StoreManifest] + ([WritePlanning] + ([Plan] + [])))))

  lemma RunsCons(c: Codec, s: Sys, step: Step, s1: Sys, rest: seq<Step>, s2: Sys)
    requires Enabled(c, s, step) && s1 == Next(c, s, step) && Runs(c, s1, rest) && After(c, s1, rest) == s2
    ensures Runs(c, s, [step] + rest) && After(c, s, [step] + rest) == s2
  {
    assert ([step] + rest)[1..] == rest;
  }

  lemma AcceptsLater(s: Sys) returns (s1: Sys, s2: Sys, s3: Sys)
    requires s.disk == Disk(FRESH, map[], map[DIGEST := [7]], map[]) && s.pc == Idle
    ensures Enabled(WITNESS, s, Begin(ONLINE)) && s1 == Next(WITNESS, s, Begin(ONLINE))
    ensures Enabled(WITNESS, s1, Receive([2])) && s2 == Next(WITNESS, s1, Receive([2]))
    ensures Enabled(WITNESS, s2, Judge) && s3 == Next(WITNESS, s2, Judge)
    ensures s3.pc == Accepted && s3.run.signed == Signed(LATER, OTHER) && s3.run.o == ONLINE && s3.disk == s.disk
  {
    LaterVerifies();
    s1 := Next(WITNESS, s, Begin(ONLINE));
    s2 := Next(WITNESS, s1, Receive([2]));
    s3 := Next(WITNESS, s2, Judge);
  }

  lemma PlansLater(s3: Sys) returns (s4: Sys, s5: Sys, s6: Sys)
    requires s3.pc == Accepted && s3.run.signed == Signed(LATER, OTHER) && s3.run.o == ONLINE
             && s3.disk.cache == map[DIGEST := [7]]
    ensures Enabled(WITNESS, s3, StoreManifest) && s4 == Next(WITNESS, s3, StoreManifest)
    ensures Enabled(WITNESS, s4, WritePlanning) && s5 == Next(WITNESS, s4, WritePlanning)
    ensures Enabled(WITNESS, s5, Plan) && s6 == Next(WITNESS, s5, Plan) && s6.run.pending == [RESTATED]
  {
    RestatedIsMissing(WITNESS, s3.disk.cache);
    s4 := Next(WITNESS, s3, StoreManifest);
    s5 := Next(WITNESS, s4, WritePlanning);
    s6 := Next(WITNESS, s5, Plan);
  }

  lemma HoldsChunk(s: Sys)
    requires s.disk == Disk(FRESH, map[], map[DIGEST := [7]], map[]) && s.pc == Idle && s.events == []
    ensures ReconcileSafety.Inv(WITNESS, s) && PendingOk(WITNESS, s) && ValidChunk(WITNESS, s.disk.cache, CACHED)
  {
  }

  /** The failing input: a device that holds the chunk validly accepts that manifest and
      plans to fetch the digest again. */
  lemma AskedAgain(s: Sys)
    requires s.disk == Disk(FRESH, map[], map[DIGEST := [7]], map[]) && s.pc == Idle && s.events == []
    ensures ReconcileSafety.Inv(WITNESS, s) && PendingOk(WITNESS, s) && ValidChunk(WITNESS, s.disk.cache, CACHED)
    ensures Runs(WITNESS, s, ASKING) && After(WITNESS, s, ASKING).run.pending == [RESTATED]
  {
    var c := WITNESS;
    HoldsChunk(s);
    var s1, s2, s3 := AcceptsLater(s);
    var s4, s5, s6 := PlansLater(s3);
    var r5: seq<Step> := [Plan] + [];
    RunsCons(c, s5, Plan, s6, [], s6);
    RunsCons(c, s4, WritePlanning, s5, r5, s6);
    RunsCons(c, s3, StoreManifest, s4, [WritePlanning] + r5, s6);
    RunsCons(c, s2, Judge, s3, [StoreManifest] + ([WritePlanning] + r5), s6);
    RunsCons(c, s1, Receive([2]), s2, [Judge] + ([StoreManifest] + ([WritePlanning] + r5)), s6);
    RunsCons(c, s, Begin(ONLINE), s1, [Receive([2])] + ([Judge] + ([StoreManifest] + ([WritePlanning] + r5))), s6);
  }

  lemma RestatedIsMissing(c: Codec, cache: map<string, Bytes>)
    requires c == WITNESS && cache == map[DIGEST := [7]]
    ensures Missing(c, cache, Unique(LATER.chunks)) == [RESTATED]
  {
    assert LATER.chunks[..0] == [] && [RESTATED][..0] == [];
    assert Unique(LATER.chunks) == [RESTATED];
  }
}
