/** The fetch phase of one run: the plan, then one sender and a pool of workers on an
    unbuffered channel, with one cancellation shared by all. */
module FetchPool {
  import opened Common
  import opened Split
  import opened Format
  import opened Assembly
  import Reconcile

  // --------------------------------------------------------------------- the plan

  /** The planning loop: which unique chunks are reused and which are missing. */
  method PlanChunks(c: Codec, cache: map<string, Bytes>, unique: seq<Chunk>)
      returns (missing: seq<Chunk>, reused: nat, reusedBytes: int, missingBytes: int)
    ensures missing == Reconcile.Missing(c, cache, unique)
    ensures reused + |missing| == |unique|
    ensures missingBytes == Sum(Sizes(missing)) && reusedBytes + missingBytes == Sum(Sizes(unique))
  {
    missing, reused, reusedBytes, missingBytes := [], 0, 0, 0;
    for i := 0 to |unique|
      invariant missing == Reconcile.Missing(c, cache, unique[..i]) && reused + |missing| == i
      invariant missingBytes == Sum(Sizes(missing)) && reusedBytes + missingBytes == Sum(Sizes(unique[..i]))
    {
      var ch := unique[i];
      assert unique[..i + 1][..i] == unique[..i];
      SumSnoc(unique, i);
      if ValidChunk(c, cache, ch) {
        reused, reusedBytes := reused + 1, reusedBytes + ch.size;
      } else {
        SizesSnoc(missing, ch);
        missing, missingBytes := missing + [ch], missingBytes + ch.size;
      }
    }
    assert unique[..|unique|] == unique;
  }

  lemma SizesSnoc(cs: seq<Chunk>, ch: Chunk)
    ensures Sum(Sizes(cs + [ch])) == Sum(Sizes(cs)) + ch.size
  {
    SumSnoc(cs + [ch], |cs|);
    assert (cs + [ch])[..|cs|] == cs && (cs + [ch])[..|cs| + 1] == cs + [ch];
  }

  // --------------------------------------------------------------------- the pool

  /** A worker waits for a chunk, works on one, or is gone: because of an error on a
      chunk, or because the channel was closed. */
  datatype Worker = Waiting | Busy(ch: Chunk, attempts: nat) | Failed(ch: Chunk) | Done

  datatype Pool = Pool(
    missing: seq<Chunk>, sent: nat, closed: bool,
    outer: bool, cancelled: bool, firstErr: bool,
    workers: seq<Worker>, committed: seq<Chunk>,
    wire: int, useful: int, raw: int, count: nat)

  /** One reply as seen by retry: committed, worth another attempt, or final. */
  datatype Outcome = Committed | Retryable | Permanent

  datatype Step =
    | Handoff(i: nat) | SendAborted | SendFinished | Attempt(i: nat, bytes: nat, outcome: Outcome)
    | Aborted(i: nat) | Exit(i: nat) | CancelOuter

  predicate Start(p: Pool, missing: seq<Chunk>, workers: nat) {
    && p == Pool(missing, 0, false, false, false, false, p.workers, [], 0, 0, 0, 0)
    && |p.workers| == workers && forall i | 0 <= i < workers :: p.workers[i] == Waiting
  }

  predicate Gone(w: Worker) {
    w.Failed? || w.Done?
  }

  predicate Finished(p: Pool) {
    p.closed && forall i | 0 <= i < |p.workers| :: Gone(p.workers[i])
  }

  /** The phase succeeds when no worker reported an error and the run was not cancelled. */
  predicate Success(p: Pool) {
    Finished(p) && !p.firstErr && !p.outer
  }

  predicate Enabled(p: Pool, maxAttempts: int, step: Step) {
    match step
    case Handoff(i) => i < |p.workers| && p.workers[i].Waiting? && !p.closed && p.sent < |p.missing|
    case SendAborted => !p.closed && p.sent < |p.missing| && p.cancelled
    case SendFinished => !p.closed && p.sent == |p.missing|
    case Attempt(i, bytes, outcome) => i < |p.workers| && p.workers[i].Busy?
                                       && (outcome == Committed ==> bytes == p.workers[i].ch.encSize)
    case Aborted(i) => i < |p.workers| && p.workers[i].Busy? && p.cancelled
    case Exit(i) => i < |p.workers| && p.workers[i].Waiting? && p.closed
    case CancelOuter => !p.outer
  }

  function Fail(p: Pool, i: nat): (p': Pool)
    requires i < |p.workers| && p.workers[i].Busy?
  {
    p.(workers := p.workers[i := Failed(p.workers[i].ch)], firstErr := true, cancelled := true)
  }

  function Next(p: Pool, maxAttempts: int, step: Step): (p': Pool)
    requires Enabled(p, maxAttempts, step)
  {
    match step
    case Handoff(i) => p.(workers := p.workers[i := Busy(p.missing[p.sent], 0)], sent := p.sent + 1)
    case SendAborted => p.(closed := true)
    case SendFinished => p.(closed := true)
    case Attempt(i, bytes, outcome) =>
      var w, q := p.workers[i], p.(wire := p.wire + bytes);
      if outcome == Committed then
        q.(workers := p.workers[i := Waiting], committed := p.committed + [w.ch], count := p.count + 1,
           raw := p.raw + w.ch.size, useful := p.useful + w.ch.encSize)
      else if outcome == Permanent || (maxAttempts > 0 && w.attempts + 1 >= maxAttempts) then Fail(q, i)
      else q.(workers := p.workers[i := Busy(w.ch, w.attempts + 1)])
    case Aborted(i) => Fail(p, i)
    case Exit(i) => p.(workers := p.workers[i := Done])
    case CancelOuter => p.(outer := true, cancelled := true)
  }

  // ------------------------------------------------------------------- invariant

  predicate Holds(w: Worker, x: Chunk) {
    (w.Busy? || w.Failed?) && w.ch == x
  }

  function Holdings(ws: seq<Worker>, x: Chunk): (s: seq<int>)
    ensures |s| == |ws|
  {
    seq(|ws|, i requires 0 <= i < |ws| => if Holds(ws[i], x) then 1 else 0)
  }

  /** How many workers took x from the channel and have not committed it. */
  function InHand(ws: seq<Worker>, x: Chunk): (n: int) {
    Sum(Holdings(ws, x))
  }

  lemma InHandUpdate(ws: seq<Worker>, i: nat, w: Worker, x: Chunk)
    requires i < |ws|
    ensures InHand(ws[i := w], x) ==
            InHand(ws, x) - (if Holds(ws[i], x) then 1 else 0) + (if Holds(w, x) then 1 else 0)
  {
    SumUpdate(Holdings(ws, x), i, if Holds(w, x) then 1 else 0);
    assert Holdings(ws[i := w], x) == Holdings(ws, x)[i := if Holds(w, x) then 1 else 0];
  }

  function EncSizes(cs: seq<Chunk>): (s: seq<int>)
    ensures |s| == |cs|
  {
    seq(|cs|, i requires 0 <= i < |cs| => cs[i].encSize)
  }

  lemma EncSizesSnoc(cs: seq<Chunk>, ch: Chunk)
    ensures Sum(EncSizes(cs + [ch])) == Sum(EncSizes(cs)) + ch.encSize
  {
    assert EncSizes(cs + [ch])[..|cs|] == EncSizes(cs);
  }

  /** Every chunk sent is committed, being worked on, or lost with a failed worker. */
  ghost predicate Conserved(p: Pool) {
    && p.sent <= |p.missing|
    && forall x: Chunk :: ConservedAt(p.missing, p.sent, p.committed, p.workers, x)
  }

  ghost predicate Accounted(p: Pool) {
    && p.count == |p.committed| && p.raw == Sum(Sizes(p.committed))
    && p.useful == Sum(EncSizes(p.committed)) && p.wire >= p.useful
  }

  ghost predicate Signals(p: Pool) {
    && (p.cancelled <==> p.firstErr || p.outer)
    && (p.closed ==> p.sent == |p.missing| || p.cancelled)
    && (forall i | 0 <= i < |p.workers| :: p.workers[i].Failed? ==> p.firstErr)
    && (forall i | 0 <= i < |p.workers| :: p.workers[i].Done? ==> p.closed)
    && p.workers != []
  }

  ghost predicate Inv(p: Pool) {
    Conserved(p) && Accounted(p) && Signals(p)
  }

  lemma IdleHandsEmpty(ws: seq<Worker>, x: Chunk)
    requires forall i | 0 <= i < |ws| :: ws[i].Waiting? || ws[i].Done?
    ensures InHand(ws, x) == 0
  {
    AllZero(Holdings(ws, x));
  }

  lemma {:induction false} AllZero(s: seq<int>)
    requires forall i | 0 <= i < |s| :: s[i] == 0
    ensures Sum(s) == 0
  {
    if s != [] { AllZero(s[..|s| - 1]); }
  }

  lemma StartInv(p: Pool, missing: seq<Chunk>, workers: nat)
    requires Start(p, missing, workers) && workers >= 1
    ensures Inv(p)
  {
    forall x ensures InHand(p.workers, x) == 0 { IdleHandsEmpty(p.workers, x); }
    assert p.missing[..0] == [];
  }

  lemma SignalsKept(p: Pool, maxAttempts: int, step: Step)
    requires Signals(p) && p.sent <= |p.missing| && Enabled(p, maxAttempts, step)
    ensures Signals(Next(p, maxAttempts, step))
  {
  }

  lemma AccountedKept(p: Pool, maxAttempts: int, step: Step)
    requires Accounted(p) && Enabled(p, maxAttempts, step)
    ensures Accounted(Next(p, maxAttempts, step))
  {
    if step.Attempt? && step.outcome == Committed {
      SizesSnoc(p.committed, p.workers[step.i].ch);
      EncSizesSnoc(p.committed, p.workers[step.i].ch);
    }
  }

  ghost predicate ConservedAt(missing: seq<Chunk>, sent: nat, committed: seq<Chunk>, ws: seq<Worker>, x: Chunk) {
    sent <= |missing| && multiset(missing[..sent])[x] == multiset(committed)[x] + InHand(ws, x)
  }

  lemma HandoffConserves(p: Pool, i: nat, x: Chunk)
    requires Conserved(p) && i < |p.workers| && p.workers[i].Waiting? && p.sent < |p.missing|
    ensures ConservedAt(p.missing, p.sent + 1, p.committed, p.workers[i := Busy(p.missing[p.sent], 0)], x)
  {
    assert ConservedAt(p.missing, p.sent, p.committed, p.workers, x);
    InHandUpdate(p.workers, i, Busy(p.missing[p.sent], 0), x);
    assert p.missing[..p.sent + 1] == p.missing[..p.sent] + [p.missing[p.sent]];
  }

  lemma CommitConserves(p: Pool, i: nat, x: Chunk)
    requires Conserved(p) && i < |p.workers| && p.workers[i].Busy?
    ensures ConservedAt(p.missing, p.sent, p.committed + [p.workers[i].ch], p.workers[i := Waiting], x)
  {
    assert ConservedAt(p.missing, p.sent, p.committed, p.workers, x);
    InHandUpdate(p.workers, i, Waiting, x);
  }

  lemma SameHandConserves(p: Pool, i: nat, w: Worker, x: Chunk)
    requires Conserved(p) && i < |p.workers| && Holds(w, x) == Holds(p.workers[i], x)
    ensures ConservedAt(p.missing, p.sent, p.committed, p.workers[i := w], x)
  {
    assert ConservedAt(p.missing, p.sent, p.committed, p.workers, x);
    InHandUpdate(p.workers, i, w, x);
  }

  lemma ConservedKept(p: Pool, maxAttempts: int, step: Step)
    requires Conserved(p) && Enabled(p, maxAttempts, step)
    ensures Conserved(Next(p, maxAttempts, step))
  {
    var p' := Next(p, maxAttempts, step);
    forall x: Chunk ensures ConservedAt(p'.missing, p'.sent, p'.committed, p'.workers, x) {
      if step.Handoff? {
        HandoffConserves(p, step.i, x);
      } else if step.Attempt? && step.outcome == Committed {
        CommitConserves(p, step.i, x);
      } else if step.Attempt? || step.Aborted? || step.Exit? {
        SameHandConserves(p, step.i, p'.workers[step.i], x);
      }
    }
  }

  lemma StepKeepsInv(p: Pool, maxAttempts: int, step: Step)
    requires Inv(p) && Enabled(p, maxAttempts, step)
    ensures Inv(Next(p, maxAttempts, step))
  {
    ConservedKept(p, maxAttempts, step);
    AccountedKept(p, maxAttempts, step);
    SignalsKept(p, maxAttempts, step);
  }

  // -------------------------------------------------------------------- no deadlock

  /** With at least one worker the pool is never stuck: until it has finished, some
      step other than an outer cancellation is possible. In particular a sender whose
      workers are all gone sees the cancellation. */
  lemma NeverStuck(p: Pool, maxAttempts: int) returns (step: Step)
    requires Inv(p) && !Finished(p)
    ensures Enabled(p, maxAttempts, step) && !step.CancelOuter?
  {
    if i :| 0 <= i < |p.workers| && p.workers[i].Busy? {
      step := Attempt(i, 0, Permanent);
    } else if p.closed {
      var i :| 0 <= i < |p.workers| && !Gone(p.workers[i]);
      step := Exit(i);
    } else if p.sent == |p.missing| {
      step := SendFinished;
    } else if i :| 0 <= i < |p.workers| && p.workers[i].Waiting? {
      step := Handoff(i);
    } else {
      assert p.workers[0].Failed?;
      step := SendAborted;
    }
  }

  // -------------------------------------------------------------------- termination

  function Weight(w: Worker, maxAttempts: int): (n: int) {
    match w
    case Waiting => 1
    case Busy(_, k) => maxAttempts - k + 2
    case Failed(_) => 0
    case Done => 0
  }

  function Weights(ws: seq<Worker>, maxAttempts: int): (s: seq<int>)
    ensures |s| == |ws|
  {
    seq(|ws|, i requires 0 <= i < |ws| => Weight(ws[i], maxAttempts))
  }

  function Measure(p: Pool, maxAttempts: int): (n: int) {
    Left(|p.missing| - p.sent, Sum(Weights(p.workers, maxAttempts)), maxAttempts, p.closed, p.outer)
  }

  /** No worker has used up its attempts. */
  ghost predicate Fresh(p: Pool, maxAttempts: int) {
    p.sent <= |p.missing| && forall i | 0 <= i < |p.workers| && p.workers[i].Busy? ::
        p.workers[i].attempts < maxAttempts
  }

  lemma {:induction false} SumNonNegative(s: seq<int>)
    requires forall i | 0 <= i < |s| :: s[i] >= 0
    ensures Sum(s) >= 0
  {
    if s != [] { SumNonNegative(s[..|s| - 1]); }
  }

  lemma WeightsUpdate(ws: seq<Worker>, i: nat, w: Worker, maxAttempts: int)
    requires i < |ws|
    ensures Sum(Weights(ws[i := w], maxAttempts)) ==
            Sum(Weights(ws, maxAttempts)) - Weight(ws[i], maxAttempts) + Weight(w, maxAttempts)
  {
    SumUpdate(Weights(ws, maxAttempts), i, Weight(w, maxAttempts));
    assert Weights(ws[i := w], maxAttempts) == Weights(ws, maxAttempts)[i := Weight(w, maxAttempts)];
  }

  lemma MeasureNonNegative(p: Pool, maxAttempts: int)
    requires Fresh(p, maxAttempts) && maxAttempts > 0
    ensures Measure(p, maxAttempts) >= 0
  {
    SumNonNegative(Weights(p.workers, maxAttempts));
    assert (|p.missing| - p.sent) * (maxAttempts + 2) >= 0;
  }

  lemma FreshKept(p: Pool, maxAttempts: int, step: Step)
    requires Fresh(p, maxAttempts) && maxAttempts > 0 && Enabled(p, maxAttempts, step)
    ensures Fresh(Next(p, maxAttempts, step), maxAttempts)
  {
  }

  /** What is left to do when k chunks are unsent and the workers weigh w. */
  function Left(k: int, w: int, maxAttempts: int, closed: bool, outer: bool): (n: int) {
    k * (maxAttempts + 2) + w + (if closed then 0 else 1) + if outer then 0 else 1
  }

  lemma SendingCosts(k: int, a: int)
    ensures (k - 1) * a == k * a - a
  {
  }

  lemma HandoffDecreases(p: Pool, maxAttempts: int, i: nat)
    requires maxAttempts > 0 && Enabled(p, maxAttempts, Handoff(i))
    ensures Measure(Next(p, maxAttempts, Handoff(i)), maxAttempts) < Measure(p, maxAttempts)
  {
    WeightsUpdate(p.workers, i, Busy(p.missing[p.sent], 0), maxAttempts);
    SendingCosts(|p.missing| - p.sent, maxAttempts + 2);
  }

  /** A worker that moves on becomes lighter. */
  lemma WorkerDecreases(p: Pool, maxAttempts: int, step: Step)
    requires Fresh(p, maxAttempts) && maxAttempts > 0 && Enabled(p, maxAttempts, step)
    requires step.Attempt? || step.Aborted? || step.Exit?
    ensures Measure(Next(p, maxAttempts, step), maxAttempts) < Measure(p, maxAttempts)
  {
    var p' := Next(p, maxAttempts, step);
    WeightsUpdate(p.workers, step.i, p'.workers[step.i], maxAttempts);
    assert Weight(p'.workers[step.i], maxAttempts) < Weight(p.workers[step.i], maxAttempts);
  }

  lemma MeasureDecreases(p: Pool, maxAttempts: int, step: Step)
    requires Fresh(p, maxAttempts) && maxAttempts > 0 && Enabled(p, maxAttempts, step)
    ensures Measure(Next(p, maxAttempts, step), maxAttempts) < Measure(p, maxAttempts)
  {
    if step.Handoff? {
      HandoffDecreases(p, maxAttempts, step.i);
    } else if step.Attempt? || step.Aborted? || step.Exit? {
      WorkerDecreases(p, maxAttempts, step);
    }
  }

  // ------------------------------------------------------------------- whole runs

  ghost predicate Runs(p: Pool, maxAttempts: int, steps: seq<Step>)
    decreases |steps|
  {
    steps == [] || (Enabled(p, maxAttempts, steps[0]) && Runs(Next(p, maxAttempts, steps[0]), maxAttempts, steps[1..]))
  }

  ghost function After(p: Pool, maxAttempts: int, steps: seq<Step>): (p': Pool)
    requires Runs(p, maxAttempts, steps)
    decreases |steps|
  {
    if steps == [] then p else After(Next(p, maxAttempts, steps[0]), maxAttempts, steps[1..])
  }

  lemma {:induction false} RunKeepsInv(p: Pool, maxAttempts: int, steps: seq<Step>)
    requires Inv(p) && Runs(p, maxAttempts, steps)
    ensures Inv(After(p, maxAttempts, steps)) && After(p, maxAttempts, steps).missing == p.missing
    decreases |steps|
  {
    if steps != [] {
      StepKeepsInv(p, maxAttempts, steps[0]);
      RunKeepsInv(Next(p, maxAttempts, steps[0]), maxAttempts, steps[1..]);
    }
  }

  lemma {:induction false} RunIsShort(p: Pool, maxAttempts: int, steps: seq<Step>)
    requires Fresh(p, maxAttempts) && maxAttempts > 0 && Runs(p, maxAttempts, steps) && Measure(p, maxAttempts) >= 0
    ensures |steps| <= Measure(p, maxAttempts)
    decreases |steps|
  {
    if steps != [] {
      FreshKept(p, maxAttempts, steps[0]);
      MeasureDecreases(p, maxAttempts, steps[0]);
      MeasureNonNegative(Next(p, maxAttempts, steps[0]), maxAttempts);
      RunIsShort(Next(p, maxAttempts, steps[0]), maxAttempts, steps[1..]);
    }
  }

  /** With a bound on attempts every schedule ends within (attempts + 2) steps per
      missing chunk, one per worker, and two more. */
  lemma FetchTerminates(p: Pool, missing: seq<Chunk>, workers: nat, maxAttempts: int, steps: seq<Step>)
    requires Start(p, missing, workers) && maxAttempts > 0 && Runs(p, maxAttempts, steps)
    ensures |steps| <= |missing| * (maxAttempts + 2) + workers + 2
  {
    AllOnes(Weights(p.workers, maxAttempts));
    assert |missing| * (maxAttempts + 2) >= 0;
    RunIsShort(p, maxAttempts, steps);
  }

  lemma {:induction false} AllOnes(s: seq<int>)
    requires forall i | 0 <= i < |s| :: s[i] == 1
    ensures Sum(s) == |s|
  {
    if s != [] { AllOnes(s[..|s| - 1]); }
  }

  lemma RemoveOne(a: seq<Chunk>, b: seq<Chunk>) returns (k: nat)
    requires a != [] && multiset(a) == multiset(b)
    ensures k < |b| && b[k] == a[|a| - 1]
    ensures multiset(a[..|a| - 1]) == multiset(b[..k] + b[k + 1..])
  {
    var x := a[|a| - 1];
    assert x in multiset(b);
    k :| 0 <= k < |b| && b[k] == x;
    TakeOut(a, |a| - 1);
    assert a[..|a| - 1] + a[|a| - 1 + 1..] == a[..|a| - 1];
    TakeOut(b, k);
  }

  lemma TakeOut(b: seq<Chunk>, k: nat)
    requires k < |b|
    ensures multiset(b[..k] + b[k + 1..]) == multiset(b) - multiset{b[k]}
  {
    assert b == b[..k] + [b[k]] + b[k + 1..];
  }

  lemma {:induction false} SizesOfPermutation(a: seq<Chunk>, b: seq<Chunk>)
    requires multiset(a) == multiset(b)
    ensures |a| == |b| && Sum(Sizes(a)) == Sum(Sizes(b))
    decreases |a|
  {
    assert |multiset(a)| == |a| && |multiset(b)| == |b|;
    if a != [] {
      var k := RemoveOne(a, b);
      SizesOfPermutation(a[..|a| - 1], b[..k] + b[k + 1..]);
      SizesSnoc(a[..|a| - 1], a[|a| - 1]);
      assert a == a[..|a| - 1] + [a[|a| - 1]];
      SizesWithout(b, k);
    }
  }

  lemma SizesWithout(b: seq<Chunk>, k: nat)
    requires k < |b|
    ensures Sum(Sizes(b)) == Sum(Sizes(b[..k] + b[k + 1..])) + b[k].size
  {
    SumSnoc(b, k);
    assert Sizes(b) == Sizes(b[..k + 1]) + Sizes(b[k + 1..]);
    assert Sizes(b[..k] + b[k + 1..]) == Sizes(b[..k]) + Sizes(b[k + 1..]);
    SumAppend(Sizes(b[..k + 1]), Sizes(b[k + 1..]));
    SumAppend(Sizes(b[..k]), Sizes(b[k + 1..]));
  }

  /** In every interleaving, finished or not, no chunk is committed more often than it is
      on the list. */
  lemma NeverCommittedTwice(p: Pool, workers: nat, maxAttempts: int, steps: seq<Step>, x: Chunk)
    requires workers >= 1 && Start(p, p.missing, workers) && Runs(p, maxAttempts, steps)
    ensures multiset(After(p, maxAttempts, steps).committed)[x] <= multiset(p.missing)[x]
  {
    StartInv(p, p.missing, workers);
    RunKeepsInv(p, maxAttempts, steps);
    var q := After(p, maxAttempts, steps);
    assert ConservedAt(q.missing, q.sent, q.committed, q.workers, x);
    SumNonNegative(Holdings(q.workers, x));
    assert q.missing == q.missing[..q.sent] + q.missing[q.sent..];
  }

  /** In every interleaving that succeeds each missing chunk was committed exactly once. */
  lemma EachCommittedOnce(p: Pool, workers: nat, maxAttempts: int, steps: seq<Step>)
    requires workers >= 1 && Start(p, p.missing, workers) && Runs(p, maxAttempts, steps)
    requires Success(After(p, maxAttempts, steps))
    ensures multiset(After(p, maxAttempts, steps).committed) == multiset(p.missing)
    ensures Inv(After(p, maxAttempts, steps))
  {
    StartInv(p, p.missing, workers);
    RunKeepsInv(p, maxAttempts, steps);
    var q := After(p, maxAttempts, steps);
    assert q.missing[..q.sent] == q.missing;
    forall x: Chunk ensures multiset(q.missing)[x] == multiset(q.committed)[x] {
      assert ConservedAt(q.missing, q.sent, q.committed, q.workers, x);
      IdleHandsEmpty(q.workers, x);
    }
  }

  /** The figures of a successful fetch: reused plus downloaded is the number of unique
      chunks and their raw bytes; the useful bytes are the committed encoded sizes, and
      no more than the wire bytes. */
  lemma FetchAccounting(c: Codec, cache: map<string, Bytes>, unique: seq<Chunk>,
                        p: Pool, workers: nat, maxAttempts: int, steps: seq<Step>,
                        reused: nat, reusedBytes: int)
    requires workers >= 1 && Start(p, Reconcile.Missing(c, cache, unique), workers) && Runs(p, maxAttempts, steps)
    requires reused + |p.missing| == |unique| && reusedBytes + Sum(Sizes(p.missing)) == Sum(Sizes(unique))
    requires Success(After(p, maxAttempts, steps))
    ensures var q := After(p, maxAttempts, steps);
            && reused + q.count == |unique| && reusedBytes + q.raw == Sum(Sizes(unique))
            && q.useful == Sum(EncSizes(q.committed)) && q.wire >= q.useful
  {
    EachCommittedOnce(p, workers, maxAttempts, steps);
    SizesOfPermutation(After(p, maxAttempts, steps).committed, p.missing);
  }

  // ----------------------------------------------------------- when the phase succeeds

  lemma {:induction false} RunsConcat(p: Pool, maxAttempts: int, a: seq<Step>, b: seq<Step>)
    requires Runs(p, maxAttempts, a) && Runs(After(p, maxAttempts, a), maxAttempts, b)
    ensures Runs(p, maxAttempts, a + b)
    ensures After(p, maxAttempts, a + b) == After(After(p, maxAttempts, a), maxAttempts, b)
    decreases |a|
  {
    if a == [] {
      assert a + b == b;
    } else {
      assert (a + b)[0] == a[0] && (a + b)[1..] == a[1..] + b;
      RunsConcat(Next(p, maxAttempts, a[0]), maxAttempts, a[1..], b);
    }
  }

  lemma OneStep(p: Pool, maxAttempts: int, step: Step)
    requires Enabled(p, maxAttempts, step)
    ensures Runs(p, maxAttempts, [step]) && After(p, maxAttempts, [step]) == Next(p, maxAttempts, step)
  {
    assert [step][1..] == [];
  }

  /** These attempts of one worker, each of which fails with an error worth another. */
  function Retries(i: nat, bytes: seq<nat>): (steps: seq<Step>)
    ensures |steps| == |bytes|
  {
    seq(|bytes|, k requires 0 <= k < |bytes| => Attempt(i, bytes[k], Retryable))
  }

  lemma {:induction false} RetryRun(p: Pool, maxAttempts: int, i: nat, bytes: seq<nat>)
    requires i < |p.workers| && p.workers[i].Busy?
    requires maxAttempts > 0 ==> p.workers[i].attempts + |bytes| < maxAttempts
    ensures Runs(p, maxAttempts, Retries(i, bytes))
    ensures var w, p' := p.workers[i], After(p, maxAttempts, Retries(i, bytes));
            p' == p.(workers := p.workers[i := Busy(w.ch, w.attempts + |bytes|)], wire := p'.wire)
    decreases |bytes|
  {
    var steps := Retries(i, bytes);
    if bytes == [] {
      assert p.workers[i := p.workers[i]] == p.workers;
    } else {
      var next := Next(p, maxAttempts, steps[0]);
      assert steps[1..] == Retries(i, bytes[1..]);
      RetryRun(next, maxAttempts, i, bytes[1..]);
      assert next.workers[i := Busy(p.workers[i].ch, p.workers[i].attempts + |bytes|)]
          == p.workers[i := Busy(p.workers[i].ch, p.workers[i].attempts + |bytes|)];
    }
  }

  /** A worker that takes a chunk may meet any number of retryable errors below the bound on
      attempts, or any number at all without one: if the next attempt commits, the chunk is
      committed, and neither an error nor a cancellation has been raised. */
  lemma CommitsBelowBound(p: Pool, maxAttempts: int, i: nat, bytes: seq<nat>)
    requires Enabled(p, maxAttempts, Handoff(i)) && p.missing[p.sent].encSize >= 0
    requires maxAttempts > 0 ==> |bytes| < maxAttempts
    ensures var ch := p.missing[p.sent];
            var steps := [Handoff(i)] + Retries(i, bytes) + [Attempt(i, ch.encSize, Committed)];
            && Runs(p, maxAttempts, steps)
            && var p' := After(p, maxAttempts, steps);
               && p'.committed == p.committed + [ch] && p'.sent == p.sent + 1
               && p'.missing == p.missing && p'.workers == p.workers && p'.closed == p.closed
               && p'.outer == p.outer && p'.cancelled == p.cancelled && p'.firstErr == p.firstErr
  {
    var ch := p.missing[p.sent];
    OneStep(p, maxAttempts, Handoff(i));
    var p1 := Next(p, maxAttempts, Handoff(i));
    RetryRun(p1, maxAttempts, i, bytes);
    RunsConcat(p, maxAttempts, [Handoff(i)], Retries(i, bytes));
    var p2 := After(p1, maxAttempts, Retries(i, bytes));
    var last := Attempt(i, ch.encSize, Committed);
    OneStep(p2, maxAttempts, last);
    RunsConcat(p, maxAttempts, [Handoff(i)] + Retries(i, bytes), [last]);
    assert Next(p2, maxAttempts, last).workers == p.workers;
  }

  lemma {:induction false} CommitAll(p: Pool, maxAttempts: int) returns (steps: seq<Step>, p': Pool)
    requires !p.closed && p.sent <= |p.missing| && p.workers != [] && p.workers[0].Waiting?
    requires forall k | 0 <= k < |p.missing| :: p.missing[k].encSize >= 0
    ensures Runs(p, maxAttempts, steps) && After(p, maxAttempts, steps) == p'
    ensures p'.sent == |p'.missing| && p'.missing == p.missing && p'.workers == p.workers && !p'.closed
    ensures p'.outer == p.outer && p'.cancelled == p.cancelled && p'.firstErr == p.firstErr
    decreases |p.missing| - p.sent
  {
    if p.sent == |p.missing| {
      steps, p' := [], p;
    } else {
      CommitsBelowBound(p, maxAttempts, 0, []);
      var first := [Handoff(0)] + Retries(0, []) + [Attempt(0, p.missing[p.sent].encSize, Committed)];
      var rest;
      rest, p' := CommitAll(After(p, maxAttempts, first), maxAttempts);
      RunsConcat(p, maxAttempts, first, rest);
      steps := first + rest;
    }
  }

  lemma {:induction false} ExitAll(p: Pool, maxAttempts: int, i: nat) returns (steps: seq<Step>, p': Pool)
    requires p.closed && i <= |p.workers|
    requires forall k | 0 <= k < |p.workers| :: p.workers[k] == if k < i then Done else Waiting
    ensures Runs(p, maxAttempts, steps) && After(p, maxAttempts, steps) == p' == p.(workers := p'.workers)
    ensures Finished(p')
    decreases |p.workers| - i
  {
    if i == |p.workers| {
      steps, p' := [], p;
    } else {
      OneStep(p, maxAttempts, Exit(i));
      var rest;
      rest, p' := ExitAll(Next(p, maxAttempts, Exit(i)), maxAttempts, i + 1);
      RunsConcat(p, maxAttempts, [Exit(i)], rest);
      steps := [Exit(i)] + rest;
    }
  }

  /** Whatever is missing, whatever the number of workers and the bound on attempts, some
      schedule of a fresh pool succeeds. */
  lemma CanSucceed(p: Pool, missing: seq<Chunk>, workers: nat, maxAttempts: int) returns (steps: seq<Step>)
    requires workers >= 1 && Start(p, missing, workers)
    requires forall k | 0 <= k < |missing| :: missing[k].encSize >= 0
    ensures Runs(p, maxAttempts, steps) && Success(After(p, maxAttempts, steps))
  {
    var sending, p1 := CommitAll(p, maxAttempts);
    OneStep(p1, maxAttempts, SendFinished);
    RunsConcat(p, maxAttempts, sending, [SendFinished]);
    var leaving, p2 := ExitAll(Next(p1, maxAttempts, SendFinished), maxAttempts, 0);
    RunsConcat(p, maxAttempts, sending + [SendFinished], leaving);
    steps := sending + [SendFinished] + leaving;
  }

  /** What ends a phase: a cancellation from outside, an error that is final, and a
      retryable one on the last attempt. */
  predicate Mishap(p: Pool, maxAttempts: int, step: Step) {
    step.CancelOuter?
    || (step.Attempt? && step.i < |p.workers| && p.workers[step.i].Busy?
        && (step.outcome == Permanent
            || (step.outcome == Retryable && maxAttempts > 0 && p.workers[step.i].attempts + 1 >= maxAttempts)))
  }

  ghost predicate Smooth(p: Pool, maxAttempts: int, steps: seq<Step>)
    requires Runs(p, maxAttempts, steps)
    decreases |steps|
  {
    steps == [] ||
    (!Mishap(p, maxAttempts, steps[0]) && Smooth(Next(p, maxAttempts, steps[0]), maxAttempts, steps[1..]))
  }

  lemma {:induction false} StaysBroken(p: Pool, maxAttempts: int, steps: seq<Step>)
    requires Runs(p, maxAttempts, steps) && (p.firstErr || p.outer)
    ensures After(p, maxAttempts, steps).firstErr || After(p, maxAttempts, steps).outer
    decreases |steps|
  {
    if steps != [] {
      StaysBroken(Next(p, maxAttempts, steps[0]), maxAttempts, steps[1..]);
    }
  }

  /** A phase that has ended has succeeded exactly when nothing of that kind happened. */
  lemma {:induction false} FailsByMishap(p: Pool, maxAttempts: int, steps: seq<Step>)
    requires Runs(p, maxAttempts, steps) && !p.cancelled && !p.firstErr && !p.outer
    ensures !After(p, maxAttempts, steps).firstErr && !After(p, maxAttempts, steps).outer <==>
            Smooth(p, maxAttempts, steps)
    ensures Finished(After(p, maxAttempts, steps)) ==>
              (Success(After(p, maxAttempts, steps)) <==> Smooth(p, maxAttempts, steps))
    decreases |steps|
  {
    if steps != [] {
      var next := Next(p, maxAttempts, steps[0]);
      if Mishap(p, maxAttempts, steps[0]) {
        StaysBroken(next, maxAttempts, steps[1..]);
      } else {
        FailsByMishap(next, maxAttempts, steps[1..]);
      }
    }
  }
}
