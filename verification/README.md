# Edge delivery: a verified model

The system delivers signed, content-chunked archives from a publisher to devices over bad
links, with restarts and crashes expected everywhere. This project models its hard core in
Dafny and proves what the design promises, for every input, every run and every reachable
state:

- **Chunking** (`Bits`, `Gear`, `Chunker`, `Split`): the rolling-hash chunker, its bounds, and the
  delta law that a local edit changes only a bounded stretch of chunks.
- **One archive** (`Format`, `Publish`, `Assembly`, `LoadProof`): verification, publication
  and assembly, and the round trip from input to staged archive.
- **The device** (`Reconcile`, `ReconcileSafety`, `Resume`, `FetchPool`, `Retry`, `Agent`):
  `Sync` as a state machine over atomic writes with a crash possible between any two of
  them, its fetch pool under every schedule, and the imperative code refining the machine.
- **The publisher** (`Naming`, `Publisher`, `PublisherSafety`, `Trigger`, `Watcher`): the same
  for sequence allocation, release, promotion and acknowledgement.
- **The protocol** (`Protocol`, `LoadedImages`, `Convergence`): publisher and device
  interleaved, the image that ends up loaded, and the run that brings a device to what the
  channel offers.
- **Around them**: the hub cache (`Lru`, `Hub`, `HubBodies`, `HubReads`, `HubCounts`,
  `HubHistories`), the event log (`EventLog`), the pacer
  (`Pacer`), the receipt outbox (`Receipts`) and the sender's view (`Sender`).

`Common` holds shared values. `dafny verify dfyconfig.toml` checks everything.

## Hypotheses

Hashing, Ed25519 (section 5.1.7 of RFC 8032), gzip (RFC 1952) and JSON are function-valued
fields of a `Codec`, so a theorem assumes about them only what its `requires` names:

- *Collision freedom* is assumed only among the finitely many byte strings a theorem speaks
  of (`Injective`, `NoChunkCollision`, `NoCollision`, `World.Sane`), and for the device as
  `Binding`: one payload digest names one signed manifest.
- `Compact`: a payload is no longer than its envelope, and a manifest has no more chunks than
  its payload has bytes. This is what keeps the 64-bit running sum of `Verify` from wrapping.
- `SealsFaithfully`: opening a signed manifest gives it back. Where bodies are fetched from
  the origin, decompressing a compressed body gives it back.
- A write is one atomic step (`AtomicWrite`, internal/lab/storage.go:43). It may fail and
  leave the old file, or fail after the rename (`Fault`); a crash is the end of a run at any
  point.
- Configured repository names are free of NUL, the separator of the watcher's keys.
- One publisher works on a root at a time, and one agent on a state directory, as the locks
  in the code enforce.

## Where the code does less than its comments say

For each of these there is an input or a history on which the promise fails, and a theorem
that says exactly when it holds.

- A cache budget of zero or less does not disable caching (comment at
  internal/hub/hub.go:128): one entry always stays. Fails: `Lru.ZeroBudgetCaches`. Exact:
  `Lru.BudgetHolds`.
- Identical requests do not always share one read (comment at internal/hub/hub.go:94), since
  the in-flight mark goes before the cache insert. Fails: `HubHistories.ReadTwice`. Exact:
  `HubReads.ReadsExactly`. What does hold is one read per key at a time
  (`Hub.OneReadPerKey`).
- After an invalidation a fresh channel write can still be shadowed by stale metadata (comment
  at internal/hub/hub.go:206). Fails: `HubHistories.StaleIsServed`. Exact:
  `HubReads.InvalidationIsExact`.
- A leader hands out the very slice it cached, and injected corruption writes it
  (internal/lab/server.go:213), so hits and waiters return corrupted bytes. Fails:
  `HubHistories.CorruptionIsServed`. Exact: `HubBodies.WriteIsHarmless`.
- Event sequences are not always monotonic across restarts (comment at
  internal/admin/admin.go:32): recovery reads the last 64 KiB of the current generation only.
  Fails: `EventLog.TwoRestarts`. Exact: `EventLog.ReopenExact`.
- An event emitted behind a torn record is lost although `Emit` succeeded, and so is the torn
  record if only its newline was missing. Fails: `EventLog.TornAppendIsLost`. Exact:
  `EventLog.EmitContiguous`.
- Disk use is not bounded by twice the limit (comment at internal/admin/admin.go:31). A
  generation may exceed it by its last record, and, since a failed write or sync leaves bytes
  in the file that the kept size does not count, by any number of bytes. Fails:
  `EventLog.OverLimit`, `EventLog.UnboundedGeneration`. Exact: `EventLog.SizeExact` for one
  append, `EventLog.HistoryIsBounded` over histories.
- After a failed write the sequence is taken back, but a record that lacks only its newline
  can be read all the same. Fails: `EventLog.ShortOfNewline`. Exact: `EventLog.EmitExact` for
  one append, `EventLog.HistoryIsContiguous` over histories.
- A cached chunk is requested again if a later signed manifest states another size for its
  digest, since verification compares descriptors within one manifest only. Fails:
  `Resume.AskedAgain`. Exact: `Resume.NeverRequestedAgain`. It is never committed twice.

## Model

| member | source | states |
|---|---|---|
| `Bits.PowersOfTwo` | internal/lab/chunker.go:24 | the power-of-two test of the parameters holds exactly for the numbers 2^k |
| `Bits.MaskTest` | internal/lab/chunker.go:24 | n & (n-1) == 0 holds exactly for powers of two |
| `Bits.AndMask` | internal/lab/chunker.go:43 | masking with 2^k - 1 is the remainder by 2^k |
| `Gear.RollIsWeighted` | internal/lab/chunker.go:42 | the 64-bit rolling word of a buffer is the sum of g(s[i]) * 2^(n-1-i) modulo 2^64 |
| `Gear.RollIsLocal` | internal/lab/chunker.go:42 | despite wrap-around, the n lowest bits of the rolling word depend on the last n bytes only |
| `Gear.SumIsLocal` | internal/lab/chunker.go:42-43 | whether 2^k divides that sum is decided by the last k bytes |
| `Gear.MaskIsDivisible` | internal/lab/chunker.go:43 | the masked word is zero exactly when 2^k, for k up to 63, divides the sum |
| `Gear.RollStep` | internal/lab/chunker.go:42 | the word of a longer buffer is the shifted word plus the table entry |
| `Chunker.ChunksIsSplit` | internal/lab/chunker.go:30-50 | the chunk list satisfies a declarative definition: it concatenates to the input, every chunk but the last fires the cut test, and no proper prefix of a chunk does |
| `Chunker.SplitIsUnique` | internal/lab/chunker.go:30-50 | that definition has no other solution |
| `Chunker.ChunkBounds` | internal/lab/chunker.go:43 | no chunk is empty or above max; only the last may be below min |
| `Chunker.Restart` | internal/lab/chunker.go:47-48 | after a cut the chunker behaves as on a fresh input |
| `Chunker.DoneGrows` | internal/lab/chunker.go:30-50 | what is cut while reading a prefix is cut for every continuation |
| `Chunker.CutByWindow` | internal/lab/chunker.go:43 | whether there is a cut at a position is decided by the distance from the last cut and the window of bytes before the position |
| `Chunker.SyncPairCuts` | internal/lab/chunker.go:43-48 | after two consecutive candidates between min and max-min apart there is a cut whatever came before |
| `Chunker.CutsInPrefix` | internal/lab/chunker.go:23-51 | files with a shared prefix have the same cuts up to its end |
| `Chunker.CandidateInSuffix` | internal/lab/chunker.go:23-51 | candidate cuts inside a shared suffix, beyond one window, are the same in every file that ends in it |
| `Chunker.CommonCut` | internal/lab/chunker.go:23-51 | after the first common cut inside a shared suffix all cuts and chunks are the same |
| `Chunker.Delta` | internal/lab/chunker.go:23-51 | replacing x by y between a shared prefix and a suffix with a synchronising pair ending at j leaves a common head and tail; the middle covers less than max bytes of the prefix, the edit, and j bytes of the suffix |
| `Split.TriggerIsWord` | internal/lab/chunker.go:43 | the cut test as coded, on length and rolling word, is the cut rule of all chunking laws |
| `Split.CutTest` | internal/lab/chunker.go:42-43 | in whole numbers: a buffer is cut exactly when it has max bytes, or at least min and the sum of g(s[i]) * 2^(n-1-i) is a multiple of avg |
| `Split.WindowBound` | internal/lab/chunker.go:24 | for legal parameters the window is 6 to 22 bytes |
| `Split.GearRuleIsLocal` | internal/lab/chunker.go:24-43 | the Gear rule meets the hypotheses of all chunking laws |
| `Split.Push` | internal/lab/chunker.go:41-49 | one turn of the loop on the reused buffer: the exact new buffer, word and emitted chunk |
| `Split.ReadAll` | internal/lab/chunker.go:27-50 | the loop on one array of capacity max computes the specified scan, up to a refused emit call |
| `Split.Split` | internal/lab/chunker.go:23-51 | for every input, read error and failing emit call: exactly which chunks are emitted and which error is returned |
| `Split.CallsOnError` | internal/lab/chunker.go:37-39 | when reading fails, what was emitted is all that was read but for a rest that is shorter than max and holds no cut |
| `Format.PathsAreInjective` | internal/lab/format.go:164-167 | different digests give different object and cache paths |
| `Format.CheckChunks` | internal/lab/format.go:139-156 | the descriptor loop with its 64-bit sum accepts exactly the lists of valid, consistent descriptors whose true sizes add up to the artifact |
| `Format.CheckedStep` | internal/lab/format.go:145-149 | the running sum never wraps |
| `Format.Verify` | internal/lab/format.go:104-163 | accepts exactly the envelopes that are verified; the manifest returned is what the signed payload holds, and the digest is that of the payload, not of the envelope |
| `Format.VerifiedExactly` | internal/lab/format.go:104-163 | an envelope is accepted exactly when it is at most 32 MiB long, its signature verifies, its payload is a manifest, and that manifest meets every rule of the format, written out |
| `Format.SamePayloadSameAnswer` | internal/lab/format.go:104-163 | two envelopes with the same signed payload get the same manifest and digest |
| `Format.VerifiedMonotone` | internal/lab/format.go:136 | a larger artifact limit gives the same answer on what a smaller one accepts |
| `Format.UniqueFacts` | internal/lab/format.go:200-210 | deduplication leaves one descriptor per digest and invents none |
| `Format.UniqueCovers` | internal/lab/format.go:200-210 | it keeps exactly the digests there are |
| `Format.UniqueKeepsDescriptors` | internal/lab/format.go:200-210 | on a verified list it loses no descriptor |
| `Format.UniqueChunks` | internal/lab/format.go:200-210 | the loop with its seen set computes that list |
| `Format.DecodeExact` | internal/lab/format.go:182-199 | decoding yields a value exactly when both sizes and digests match and the stream ends cleanly, in spite of the read limit |
| `Publish.PutKeepsIntact` | internal/lab/publish.go:40-48 | storing one more object keeps every release's objects present |
| `Publish.DescribedSum` | internal/lab/publish.go:50-51 | the descriptor sizes add up to the length of the chunks |
| `Publish.Origin.PutChunk` | internal/lab/publish.go:36-49 | on success the object holds exactly the encoding of the chunk; it is written only if it was not there, and no release loses an object |
| `Publish.Origin.PutChunks` | internal/lab/publish.go:35-53 | all descriptors in order, and the encodings of all chunks stored byte for byte; fails only if a write does |
| `Publish.Origin.WriteRelease` | internal/lab/publish.go:57-69 | succeeds exactly when the envelope verifies, the name is free or holds the same bytes, and the write succeeds |
| `Publish.Origin.Publish` | internal/lab/publish.go:20-70 | whatever writes fail, every release refers to present objects only and no release changes; on success the release is a sealed manifest with every option, the size and digest of the input and its chunks stored byte for byte; without failures it succeeds whenever that file verifies and its name is free or holds it |
| `Assembly.Device.Assemble` | internal/lab/agent.go:733-778 | succeeds exactly when sizes and whole digest fit; stages exactly the concatenation in manifest order |
| `Assembly.Device.Commit` | internal/lab/agent.go:636-652 | commits exactly the decoded bytes, which are then a valid chunk |
| `Assembly.DecodePublished` | internal/lab/format.go:168-199 | decoding what was published gives the raw chunk |
| `Assembly.CacheHoldsChunks` | internal/lab/storage.go:92-95 | a cache in which every descriptor is valid holds the published chunks |
| `Assembly.RoundTrip` | internal/lab/agent.go:733-778 | for every input, legal parameters and any cache whose manifest chunks are valid, assembly succeeds and yields exactly the input |
| `Assembly.ValidUniqueSuffices` | internal/lab/agent.go:577-592 | it is enough that the deduplicated chunks are valid |
| `Assembly.StagedIsInput` | internal/lab/agent.go:597-598 | a staged archive with the right size and digest is the input |
| `Assembly.PublishedIsWellFormed` | internal/lab/publish.go:57-64 | the publisher's own manifest verifies exactly when options, input size, encodings and digests are acceptable |
| `LoadProof.VerifyLoadedConfigIdentity` | internal/lab/agent.go:186-226 | accepts exactly when there is a report, every reported reference saves back to a signed ID, and every signed ID is saved by some reference |
| `ReconcileSafety.StepKeepsInv` | internal/lab/agent.go:406-732 | every step of a run, and a crash after it, keeps the invariant and only advances the journal |
| `ReconcileSafety.JudgeStep` | internal/lab/agent.go:553-562 | what passes the checks is verified, no older, and of the same digest at an equal sequence |
| `ReconcileSafety.StoreStep` | internal/lab/agent.go:563-566 | writing the envelope before the journal leaves the accepted digest backed |
| `ReconcileSafety.JournalStep` | internal/lab/agent.go:567-571 | the high-water mark advances and is backed by a stored envelope |
| `ReconcileSafety.StageStep` | internal/lab/agent.go:686-690 | staging keeps every archive the journal vouches for |
| `ReconcileSafety.FinishSteps` | internal/lab/agent.go:696-728 | marker and phase writes keep "loaded" equal to the accepted digest and proved |
| `ReconcileSafety.DockerSteps` | internal/lab/agent.go:704-716 | a proof is recorded only right after a load of the verified archive |
| `ReconcileSafety.AntiRollback` | internal/lab/agent.go:553-571 | over any history of runs, crashes and adversarial replies the accepted sequence never decreases and one sequence keeps one digest |
| `ReconcileSafety.DurableStateIsSound` | internal/lab/agent.go:500-571 | in every durable state the accepted digest has a stored envelope that verifies to it; a marker names a loaded and proved manifest; "loaded" means marker equals digest; a finished phase means a verified archive |
| `ReconcileSafety.FinishedStays` | internal/lab/agent.go:692-728 | completed import stays complete under every step, none of which loads that digest |
| `ReconcileSafety.NeverLoadedAgain` | internal/lab/agent.go:692-728 | after completion no later run in any history invokes Docker load for that digest |
| `ReconcileSafety.LoadedIsFinished` | internal/lab/agent.go:720-728 | a durable "loaded" phase is such a completion |
| `ReconcileSafety.LoadedOnce` | internal/lab/agent.go:692-728 | from a fresh device: once "loaded" is durable, no continuation loads the digest again |
| `Resume.MissingAfterPut` | internal/lab/agent.go:577-592 | filling a vacant digest lowers the missing count by one exactly if the list gives it that size |
| `Resume.CommitFillsVacancy` | internal/lab/agent.go:636-652 | without collisions only a digest with no cached file of its own can be committed |
| `Resume.CommitsPlusVacant` | internal/lab/agent.go:577-658 | over any number of runs, crashes and releases on an untouched cache, whatever is signed, commits plus vacant digests is constant, and commits plus missing chunks grows by the commits under another size only |
| `Resume.CommitsBounded` | internal/lab/agent.go:577-658 | so a manifest's commits never exceed its number of distinct chunks |
| `Resume.NeverRequestedAgain` | internal/lab/agent.go:577-592 | a validly cached chunk stays so, is never committed again, and is asked for exactly when the accepted manifest states another size for its digest |
| `Resume.AskedAgain` | internal/lab/storage.go:92-95 | a device, a signed manifest and a run in which that happens |
| `Resume.CommitsInAnyOrder` | internal/lab/agent.go:620-675 | commits of the pending chunks in any order are a history of the machine that leaves nothing to fetch |
| `Resume.FilledIsComplete` | internal/lab/agent.go:577-592 | after them every chunk of the manifest is valid |
| `Resume.PermutationIsRearranged` | internal/lab/agent.go:666-675 | a permutation of the distinct pending chunks commits each exactly once |
| `FetchPool.PlanChunks` | internal/lab/agent.go:577-592 | the planning loop lists exactly the missing chunks; reused plus missing is unique in count and bytes |
| `FetchPool.ConservedKept` | internal/lab/agent.go:620-675 | under every schedule each chunk sent is committed, in hand, or lost with a failed worker |
| `FetchPool.AccountedKept` | internal/lab/agent.go:625-652 | the counters are the committed count, raw and encoded sizes, and wire bytes are no fewer |
| `FetchPool.StepKeepsInv` | internal/lab/agent.go:614-681 | every step of sender and workers keeps the pool invariant |
| `FetchPool.NeverStuck` | internal/lab/agent.go:659-675 | until the pool has finished some step is possible; a sender whose workers are gone sees the cancellation |
| `FetchPool.MeasureDecreases` | internal/lab/agent.go:366-405 | with bounded attempts every step lowers a measure |
| `FetchPool.FetchTerminates` | internal/lab/agent.go:620-675 | so every schedule is shorter than an explicit bound |
| `FetchPool.EachCommittedOnce` | internal/lab/agent.go:620-681 | success means each missing chunk was committed exactly once |
| `FetchPool.NeverCommittedTwice` | internal/lab/agent.go:620-675 | under every schedule, finished or not, no chunk is committed more often than it is missing |
| `FetchPool.FetchAccounting` | internal/lab/agent.go:427-438 | success means reused plus downloaded is unique in count and bytes, useful bytes are the committed encoded sizes, and wire bytes are at least that |
| `FetchPool.CommitsBelowBound` | internal/lab/agent.go:366-405 | a worker may meet any number of retryable errors below the bound: if the next attempt commits, the chunk is committed and no error is raised |
| `FetchPool.CanSucceed` | internal/lab/agent.go:614-681 | whatever is missing, whatever the workers and the bound, some schedule of a fresh pool succeeds |
| `FetchPool.FailsByMishap` | internal/lab/agent.go:659-681 | a phase that has ended has succeeded exactly when nothing was cancelled, no error was final and no last attempt failed |
| `Retry.BackoffIsExponential` | internal/lab/agent.go:399-403 | closed form of the delay: it doubles while the half maximum is not reached, then is the maximum; never decreasing |
| `Retry.WaitFor` | internal/lab/agent.go:384-390 | bounds of one wait from both sides, from jitter, maximum and the server's request |
| `Retry.Retry` | internal/lab/agent.go:366-405 | which attempts are made and how the loop ends, for every sequence of outcomes and cancellations, with the bounds of every wait |
| `Agent.Agent.Obtain` | internal/lab/agent.go:500-552 | the envelope and URL a run works with, offline, on a 304 and on a fresh reply |
| `Agent.Agent.Check` | internal/lab/agent.go:553-562 | the verdict on an envelope and the machine state it leads to |
| `Agent.Agent.Record` | internal/lab/agent.go:563-571 | the two acceptance writes, in order, with every failure |
| `Agent.Agent.MakePlan` | internal/lab/agent.go:577-613 | the plan is exactly the missing chunks, and when it is refused |
| `Agent.Agent.Fetch` | internal/lab/agent.go:614-685 | succeeds exactly when every missing chunk arrives, decodes and is written; the cache is the old one with exactly the decoded chunks up to the first failure |
| `Agent.Agent.FetchChunk` | internal/lab/agent.go:625-658 | one chunk is committed exactly when it arrives, with exactly the decoded bytes |
| `Agent.Agent.StageArchive` | internal/lab/agent.go:686-690 | a valid archive is kept, otherwise exactly the concatenation of the cached chunks is staged |
| `Agent.Agent.Import` | internal/lab/agent.go:692-722 | succeeds exactly when the marker is there, or Docker loads the archive and the stored identity is proved; it asks Docker nothing in the first case, and in the second for exactly one load of the staged archive |
| `Agent.Agent.ClearLoaded` | internal/lab/agent.go:696-703 | the marker is cleared durably before Docker is invoked |
| `Agent.Agent.LoadAndProve` | internal/lab/agent.go:704-728 | the marker is written only after load and proof |
| `Agent.Agent.Sync` | internal/lab/agent.go:406-732 | every run is a history of the machine and its outcome a function of the files and of the world. A body is rejected exactly if it verifies and is older, or as old and another, and then nothing changes. A ready run has settled on the body of the reply, or the stored envelope of the same URL after a 304, or offline the stored one with all chunks cached: it verifies, its digest, sequence and URL are journaled, its archive and all its chunks are there, and a load was proved of exactly the signed images unless marked. Run again on the same manifest without failing writes it is ready again and changes nothing |
| `Agent.OnlineRunDelivers` | internal/lab/agent.go:544-732 | an online run that gets the signed manifest of an input, in a body that is newer or the same or by a 304, with the published objects served and no failing write, stages the input byte for byte whatever was there before; with a load it is ready exactly when the manifest allows it and the marker is set or Docker reports what was signed |
| `Agent.RerunIsReady` | internal/lab/agent.go:500-732 | a device that has settled on a manifest and gets it again, offline, by a 304 or in a body, is ready again whatever servers and Docker would answer: nothing is missing and an import marked as done is not repeated |
| `Agent.ReadyNeeds` | internal/lab/agent.go:577-732 | a run is ready only if there was space, every chunk was validly cached or arrived intact (never offline), every write of its progress succeeded, and an unmarked import was proved |
| `Agent.RejectsExactly` | internal/lab/agent.go:557-562 | rollback and equivocation are reported exactly for a verified body that is older, or as old and another |
| `Agent.HonestRunSucceeds` | internal/lab/agent.go:553-732 | a run that accepts the manifest of an input, gets the missing chunks and can write is ready exactly when it can finish, and has staged the input byte for byte |
| `Agent.FetchedIsComplete` | internal/lab/agent.go:577-681 | when every missing chunk arrives, every chunk of the manifest is valid afterwards |
| `Agent.ServedArrives` | internal/lab/agent.go:625-658 | what a server of the published objects sends always arrives |
| `Agent.FilesAreSound` | internal/lab/agent.go:406-732 | after any runs of a fresh device its files satisfy the invariant, and the journal has only advanced |
| `Agent.PoolIsARun` | internal/lab/agent.go:614-681 | a successful pool under any schedule is a run of the machine that makes every chunk of the manifest valid |
| `Agent.PoolIsAlwaysARun` | internal/lab/agent.go:614-681 | what a pool has committed by any point of any schedule, also one that fails, is a run of the machine |
| `Naming.StateKeyInjective` | internal/registry/watcher.go:71 | state keys of NUL-free repositories determine repository and tag |
| `Naming.IdentityInjective` | internal/registry/publish.go:248 | the identity string determines the request, even for tags with NUL |
| `Naming.ReleaseNameInjective` | internal/registry/publish.go:238-253 | two requests share a release name only if they are equal, whatever sanitising and truncation do |
| `Naming.SanitizeIsSafe` | internal/registry/publish.go:256-266 | sanitised text uses the release alphabet only |
| `Naming.SanitizeExact` | internal/registry/publish.go:256-266 | other characters become dashes, then exactly the leading and trailing dashes and dots go |
| `Naming.ReleaseNameReads` | internal/registry/publish.go:238-253 | a release name is the readable text of prefix, repository and tag cut at 36 characters, a dash, and the hash of the identity |
| `Naming.ReleaseNameIsSafe` | internal/registry/publish.go:238-253 | a release name has at most 101 legal characters and is accepted exactly when its first is alphanumeric |
| `PublisherSafety.StepKeepsInv` | internal/registry/publish.go:41-181 | every publisher step keeps the invariant and only extends releases, sequence and channel |
| `PublisherSafety.ReuseStep` | internal/registry/publish.go:52-72 | the release a retry finds passes the identity check |
| `PublisherSafety.SequenceIsUnique` | internal/registry/publish.go:269-287 | two releases with one signed sequence are the same file |
| `PublisherSafety.ReleasesSignTheirImage` | internal/registry/publish.go:108-132 | every release of a reachable state verifies to a manifest that names its own file, the registry source of its request, its sequence, the exported archive, and exactly the ID of the exported image |
| `PublisherSafety.PromotionOutcome` | internal/registry/publish.go:149-181 | promotion always succeeds, never lowers the channel and reaches the envelope's sequence |
| `PublisherSafety.HistoryKeepsInv` | internal/registry/publish.go:41-181 | the invariant and the extension hold over every history with crashes |
| `PublisherSafety.PublisherIsSafe` | internal/registry/publish.go:41-287 | at most one immutable envelope per request, no shared sequences, a monotone channel, and both retry errors unreachable |
| `PublisherSafety.OriginIsIntact` | internal/lab/publish.go:35-69 | in every reachable origin state releases and channel refer only to objects present with the stated size and digest |
| `PublisherSafety.AcknowledgedIsPublished` | internal/registry/watcher.go:111-132 | an acknowledged request has its release on disk and the channel has reached its sequence |
| `Trigger.RetryMatches` | internal/registry/publish.go:62-64 | the identity mismatch is unreachable |
| `Trigger.NeverRefused` | internal/registry/publish.go:171-176 | the channel can always be kept or replaced: the equal-sequence error is unreachable |
| `Trigger.Compare` | internal/registry/publish.go:153-176 | the decision about an existing channel, both ways |
| `Trigger.Root.NextSequence` | internal/registry/publish.go:269-287 | the next number, consumed even if the write reports failure, and exhaustion at 64 bits |
| `Trigger.Root.PutObject` | internal/lab/publish.go:36-49 | one object of a publication is one step of the machine, also when it is skipped |
| `Trigger.Root.WriteRelease` | internal/lab/publish.go:57-69 | succeeds exactly when the envelope is publishable and the write succeeds |
| `Trigger.Root.ReuseRelease` | internal/registry/publish.go:52-72 | a retry always gets the exact bytes of the existing release |
| `Trigger.Root.Promote` | internal/registry/publish.go:149-181 | afterwards the channel is the envelope, or it was left on one of a higher sequence; fails only if the write does |
| `Trigger.Root.NewRelease` | internal/registry/publish.go:89-139 | export, allocation, objects and release in that order; the file written is the sealed manifest of the archive under the next sequence, signed for exactly the exported image; succeeds if nothing fails and that file verifies |
| `Trigger.Root.TriggerAndAck` | internal/registry/publish.go:41-147 | every call is a history of the machine. A retry of an existing release takes no sequence, changes no release file and cannot fail without a failing write; a first publication adds exactly the file sealed for the exported archive and image; success acknowledges exactly the request and leaves the channel on its release or a higher one |
| `Trigger.Root.HandleRequest` | internal/registry/publish.go:238-241 | the same for any request: a malformed digest changes nothing |
| `Protocol.JudgeAccepts` | internal/lab/agent.go:557-562 | an envelope read from the channel passes both anti-rollback checks |
| `Protocol.MoveKeepsInv` | internal/lab/agent.go:406-732 | every move of publisher or device keeps both invariants and the link between them |
| `Protocol.NeverRejected` | internal/lab/agent.go:557-562 | in every interleaving with crashes on both sides a fresh device reading the channel never meets rollback or equivocation |
| `Protocol.DeliveredIsPublished` | internal/registry/publish.go:119-147 | whenever a device reports "staged" or "loaded", its staged file is byte for byte the exported archive of that release |
| `Protocol.PendingIsServed` | internal/lab/publish.go:35-69 | everything a fetching device needs is present at the origin |
| `LoadedImages.LoadedIsTheImage` | internal/registry/publish.go:108-132 | whenever a device reports "loaded", its Docker log holds a load of the archive of that release and right behind it a non-empty proof in which every reported image is exactly the image the publisher exported |
| `LoadedImages.RunKeepsAuthentic` | internal/lab/agent.go:704-716 | in every interleaving each proof in the Docker log is of a manifest that was signed |
| `Convergence.HistoryKeepsContents` | internal/registry/publish.go:119-133 | in every reachable state each release file is the sealed manifest of its job and the origin stores all its objects byte for byte |
| `Convergence.ChannelIsAccepted` | internal/lab/agent.go:553-562 | whatever a device accepted before, it accepts what the channel holds |
| `Convergence.DeliveryRun` | internal/lab/agent.go:553-728 | from any state a run on an accepted manifest, with objects as stored, ends staged with the input |
| `Convergence.Converges` | internal/lab/agent.go:406-732 | from every reachable state with a channel some moves of the device alone, with bodies as the origin holds them, end in "staged" on the channel's manifest with exactly the exported archive |
| `Watcher.DueAllExact` | internal/registry/watcher.go:136-173 | a scan reports exactly the eligible tags whose digest is not the acknowledged one |
| `Watcher.ReportedOnce` | internal/registry/watcher.go:136-173 | no request is reported twice in one scan, if no repository is configured and no tag listed twice |
| `Watcher.Quiescent` | internal/registry/watcher.go:111-173 | after acknowledging all of a scan, the same registry yields nothing |
| `Watcher.Watcher.Acknowledge` | internal/registry/watcher.go:113-132 | file first, then memory, with each way to fail |
| `Watcher.Watcher.PollOnce` | internal/registry/watcher.go:136-173 | emits the specified requests in order and reports an error exactly when some answer was missing |
| `Watcher.Watcher.Round` | internal/registry/watcher.go:176-198 | after a round without failure nothing is due, also for a restarted process; a round in which all is answered and succeeds does not fail, and one that fails has acknowledged a prefix of its requests |
| `Lru.FitIsLongest` | internal/hub/hub.go:57-67 | eviction leaves exactly the longest recency prefix that fits, or the newest entry |
| `Lru.BudgetHolds` | internal/hub/hub.go:57 | the budget holds exactly when the newest entry alone fits it |
| `Lru.ZeroBudgetCaches` | internal/hub/hub.go:57 | an input on which a zero budget still caches |
| `Lru.DropIsExact` | internal/hub/hub.go:211-233 | invalidation removes exactly the keys with the prefix |
| `Lru.LRU.Get` | internal/hub/hub.go:38-45 | hit exactly when cached; moves the entry to the front; map, list and byte count stay in agreement |
| `Lru.LRU.Put` | internal/hub/hub.go:47-69 | the new list and the number of evictions, for new and existing keys |
| `Lru.LRU.InvalidatePrefix` | internal/hub/hub.go:211-233 | the restarting loop removes all matches, keeps order, and counts them |
| `Lru.InsertsBalance` | internal/hub/hub.go:47-69 | over every sequence of operations, keys inserted are cached, evicted or dropped |
| `Hub.StepKeepsInv` | internal/hub/hub.go:144-233 | every critical section and copy, and every write to a returned body, keeps leaders, calls, in-flight marks and cached slices in step |
| `Hub.FlightsKept` | internal/hub/hub.go:159-202 | the part of it about leaders, calls and marks |
| `Hub.CacheKept` | internal/hub/hub.go:146-199 | every cached entry is a slice that was read for its key, with the bytes now in it |
| `Hub.OneReadPerKey` | internal/hub/hub.go:160-185 | at most one underlying read of a key runs at a time |
| `Hub.NeverStuck` | internal/hub/hub.go:163-202 | while a load is unfinished some load can move |
| `HubBodies.AgreedKept` | internal/hub/hub.go:144-204 | all that can still be delivered for an unchanging key stays its value |
| `HubBodies.AnsweredKept` | internal/hub/hub.go:153-203 | all that was returned for it is its value |
| `HubBodies.WriteKeepsAgreed` | internal/hub/hub.go:193-203 | a write to a leader's body keeps agreement exactly when it is harmless |
| `HubBodies.HubIsTransparent` | internal/hub/hub.go:144-204 | in every interleaving with harmless writes only: one read per key at a time, and every successful load of an unchanging key returns its value |
| `HubBodies.FailsOnlyWithItsRead` | internal/hub/hub.go:144-204 | in every interleaving a finished load fails exactly if the read it led or waited for failed, never on a hit, and otherwise returns as many bytes as were read |
| `HubBodies.WrittenIsSeen` | internal/hub/hub.go:167-175 | while the slice is cached, waited for or being copied, some continuation makes a load return the bytes written |
| `HubBodies.WriteIsHarmless` | internal/hub/hub.go:144-204 | all continuations answer right if and only if the bytes are the value, or no cache entry carries the slice and no load waits for it or copies it |
| `HubBodies.Corrupt` | internal/lab/server.go:211-213 | the injected corruption changes every body but the empty one, and no length |
| `HubHistories.CorruptionIsServed` | internal/lab/server.go:211-217 | a history from an empty hub in which a load of an unchanging chunk returns the corrupted bytes |
| `HubReads.ReadsExactly` | internal/hub/hub.go:146-185 | in every history a load reads the key itself exactly when every earlier insert was undone before its probe and no read of the key is in flight |
| `HubReads.TraceOf` | internal/hub/hub.go:144-233 | every history has the states that the previous statement speaks of |
| `HubReads.CachedExactly` | internal/hub/hub.go:191-199 | a key is cached exactly when some insert of it was not undone since |
| `HubReads.UndoneBy` | internal/hub/hub.go:57-66 | only a matching invalidation or an eviction undoes an insert |
| `HubHistories.ReadTwice` | internal/hub/hub.go:184-199 | a history with two reads of one key and no eviction or invalidation |
| `HubReads.FreshKept` | internal/hub/hub.go:144-233 | loads started after an invalidation keep getting bytes read after it |
| `HubReads.InvalidationIsExact` | internal/hub/hub.go:206-233 | they do so in every continuation if and only if no read of the key was under way, or done and not yet cached, at the invalidation |
| `HubHistories.StaleIsServed` | internal/hub/hub.go:182-233 | a history in which a load started after an invalidation hits bytes read before it |
| `HubCounts.CountedKept` | internal/hub/hub.go:149-188 | the counters move with the kinds and results of loads |
| `HubCounts.LoadsAreCounted` | internal/hub/hub.go:149-188 | in every interleaving cacheHits, coalesced and diskReads are the hits, the coalesced loads and the leaders that have read; with the failed leaders they are all finished loads |
| `HubCounts.EvictionsAreCounted` | internal/hub/hub.go:193-197 | over every history the newly cached keys are still cached, counted as evicted, or dropped |
| `EventLog.LargestSeq` | internal/admin/admin.go:107-117 | the tail scan finds the largest sequence |
| `EventLog.EmitContiguous` | internal/admin/admin.go:149-179 | after a successful append the retained events are one range ending at its sequence exactly when the generation was just rotated or holds no torn record |
| `EventLog.EmitExact` | internal/admin/admin.go:149-187 | the same exact condition for every end of an append, also a failed one after which the process goes on |
| `EventLog.EmitConsecutive` | internal/admin/admin.go:149-179 | however an append ends, the retained events have no gap |
| `EventLog.TornAppendIsLost` | internal/admin/admin.go:161-179 | a history of an event, a crash inside an append, a restart and a successful append that cannot be read |
| `EventLog.ReopenExact` | internal/admin/admin.go:51-118 | for whole and torn files, with or without gaps, the sequence goes on from the last retained one exactly when the tail of the current file holds a complete record or nothing is retained |
| `EventLog.ReopenRange` | internal/admin/admin.go:51-80 | when a restart leaves one range ending at the last sequence, both ways |
| `EventLog.TwoRestarts` | internal/admin/admin.go:68-78 | two restarts around a full generation always reset the sequence |
| `EventLog.SizeExact` | internal/admin/admin.go:155-179 | however an append ends, and whatever size is kept, the generation is within the limit exactly when the bytes written fit into the rest of the file |
| `EventLog.OverLimit` | internal/admin/admin.go:155-179 | a generation above its limit |
| `EventLog.UnboundedGeneration` | internal/admin/admin.go:170-179 | with a limit of ten bytes, k failed syncs of nine bytes leave a generation of 9k bytes that counts as empty |
| `EventLog.HistoryIsBounded` | internal/admin/admin.go:51-187 | over every history the kept size is short of the file by exactly the bytes of failed appends since the last rotation or restart, and each generation is shorter than the limit, those bytes and its last line |
| `EventLog.NoFailureNoSlack` | internal/admin/admin.go:149-187 | without failed appends in a process that goes on those bytes are none |
| `EventLog.ShortOfNewline` | internal/admin/admin.go:170-174 | a failed write whose record can be read although its sequence was taken back |
| `EventLog.StepExact` | internal/admin/admin.go:51-187 | every kind of step keeps the range under exactly stated conditions |
| `EventLog.HistoryIsContiguous` | internal/admin/admin.go:51-187 | over every history of appends, failed appends, restarts and crashes the retained events are one range ending at the last sequence throughout if and only if every step finds what it needs |
| `EventLog.HistoryIsOrdered` | internal/admin/admin.go:51-187 | whatever appends fail or are lost, the retained sequences ascend as long as every restart finds a complete record |
| `EventLog.PagingOverHistory` | internal/admin/admin.go:189-248 | after any such history cursor paging yields every retained event behind the cursor exactly once, in order |
| `EventLog.Log.Rotate` | internal/admin/admin.go:120-134 | the current generation, torn or not, becomes the previous one |
| `EventLog.Log.Emit` | internal/admin/admin.go:149-187 | the whole new state for a durable, a short and an unsynced append, behind whatever is in the file |
| `EventLog.Log.Reopen` | internal/admin/admin.go:51-80 | the whole new state after a restart, also after a crash inside an append |
| `EventLog.Log.Query` | internal/admin/admin.go:194-248 | the first events behind the cursor over both generations, torn bytes included: as many as there are up to the limit, 200 for none given, 1000 at most; the oldest event retained, also for an empty page; fails exactly when a line too long for the scanner comes before a full page |
| `EventLog.SinceExact` | internal/admin/admin.go:225-236 | the events behind a cursor are exactly those with a larger sequence |
| `EventLog.ScanLines` | internal/admin/admin.go:221-241 | where the scan stops and what it has collected |
| `EventLog.QueryLines` | internal/admin/admin.go:211-247 | the scan as filter then take, with its failure condition |
| `EventLog.NextPage` | internal/admin/admin.go:189-193 | the next page continues right behind the last event |
| `EventLog.PagingIsComplete` | internal/admin/admin.go:189-193 | cursor paging yields every retained event behind the cursor exactly once, in order |
| `Pacer.Pacer.Wait` | internal/lab/server.go:53-66 | the transmission begins at the old deadline or now, whichever is later, and the new deadline is as much later as its bits take at the rate, to the nanosecond |
| `Pacer.WindowHolds` | internal/lab/server.go:57-65 | the transmission times of all calls in a window fit in it one after the other |
| `Pacer.RateBound` | internal/lab/server.go:53-66 | for any concurrent callers the bits sent in a window are at most rate times time plus under one nanosecond of rounding per call |
| `Pacer.NoTimeIsLost` | internal/lab/server.go:57-65 | the other side: while calls come before the deadline, the last deadline is no later than the bits of all of them take at the rate |
| `Receipts.SameIdSameReceipt` | internal/lab/telemetry.go:30-45 | valid receipts with one ID are equal |
| `Receipts.DeliverStep` | internal/lab/telemetry.go:164-182 | storing a receipt again, in any order, keeps every queued receipt safe |
| `Receipts.RemoveStep` | internal/lab/telemetry.go:107-115 | removing an answered receipt keeps every queued receipt safe |
| `Receipts.NoReceiptIsLost` | internal/lab/telemetry.go:30-118 | over lost replies, replays and crashes every queued receipt is in the outbox or the store, which holds exactly that receipt under its ID |
| `Receipts.Courier.Flush` | internal/lab/telemetry.go:68-118 | removes exactly the receipts answered before the first failure, all of which are stored; nothing else changes |
| `Sender.RankIsTotal` | scripts/sender.py:97-100 | rows with different IDs are ranked one way or the other |
| `Sender.RankIsTransitive` | scripts/sender.py:97-100 | the rank is transitive |
| `Sender.CollectReleases` | scripts/sender.py:81-103 | the first loop keeps of every identity one row: loaded if any is, then of the latest time, then of the greatest ID |
| `Sender.BestTops` | scripts/sender.py:97-103 | what the highest rank means: no row of the identity is loaded while it is not, none of its phase is later, none that agrees in both has a greater ID |
| `Sender.BeforeIsLex` | scripts/sender.py:97-103 | the order of IDs is the lexicographic one, by the first character in which they differ |
| `Sender.DecideDevices` | scripts/sender.py:104-119 | the second loop settles each device by its highest sequence and collects all conflicts |
| `Sender.Acknowledgements` | scripts/sender.py:78-121 | a device is reported exactly when its highest sequence has one identity, and then with the row of it that is loaded if any is, then latest, then of greatest ID; conflicts are exactly the sequences with two identities |
| `Sender.AnsweredExactly` | scripts/sender.py:104-119 | a device has an answer exactly when some row of it has no higher sequence and no other identity beside it |
| `Sender.UnreportedIsConflict` | scripts/sender.py:117-119 | a device without an answer conflicts at its highest sequence: no older one is used |
| `Sender.OrderDoesNotMatter` | scripts/sender.py:78-121 | the same rows in any order give the same receipts, devices and conflicts |

## Left out

- HTTP, TLS, websockets, redirects and URL checks: replies are arbitrary values.
- Announcements and the receiver loop, which only wake `Sync`.
- The formats behind the codec: JSON, base64, tar, gzip, SHA-256 and Ed25519 themselves.
- Docker's own behaviour: load, report and saved configs are arbitrary inputs. Trimming of
  signed image IDs is the identity on verified manifests.
- The free-space arithmetic of the plan is one boolean of the world.
- The manual `edgelab promote` command, which does no sequence check, and a channel that has
  the name of a release.
- Several devices, or several publishers on one root, at once.
- Fault plans of the test server, except as arbitrary network failure.
- Telemetry, events, notifiers, TUI, exporter, admin socket, CLI and configuration.
- `Agent.Agent.Fetch`: fetches one chunk after the other, so commits of other workers after a failure are not in the cache it describes; the schedules of the worker pool are in FetchPool, and PoolIsARun and PoolIsAlwaysARun relate them to the machine.
- `Agent.Agent.StageArchive`: uses what assembly computes; the copying loop is Assembly.Device.Assemble.
- `Lru.LRU.Put`: the linked list is a sequence, so a moved element is removed and inserted; pointer identity of elements is not captured.
- `EventLog.Log.Emit`: a rotation that fails half way is not modelled, and hooks and closing are left out; a torn record parses only if nothing but its newline is missing, and never together with the record behind it.
- `Watcher.Watcher.Round`: the wait and backoff between rounds are left out, and a registry lists its tags in sorted order.
- `Sender.Acknowledgements`: lists sorted for output are maps and sets here; ages and freshness labels are left out.
- `Pacer.Pacer.Wait`: division is exact with truncation to nanoseconds, not floating point.
- `Retry.Retry`: jitter is an exact real in its stated range, not floating point.
- `Receipts.Courier.Flush`: a directory sync that fails after a removal is not modelled; a receipt that comes back is one queued again.
- `Format.PathsAreInjective`: the state directory is taken to be a clean path.
