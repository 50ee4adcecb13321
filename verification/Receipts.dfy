/** Delivery receipts: a durable outbox on the device, an idempotent store at the
    sender, and a lossy, repeating link between them. */
module Receipts {
  import opened Common
  import opened Format

  datatype Receipt = Receipt(
    id: string, device: string, release: string, phase: string,
    artifact: string, recordedAt: string, summary: string)

  /** SHA-256 of the canonical JSON, and the timestamp parser. */
  datatype Codec = Codec(hash: Receipt -> string, isTime: string -> bool)

  /** The content-derived ID: the digest of the receipt with an empty ID. */
  function DigestOf(c: Codec, r: Receipt): (d: string) {
    c.hash(r.(id := ""))
  }

  predicate IsValid(c: Codec, r: Receipt) {
    && IsSafeRelease(r.device) && IsSafeRelease(r.release) && IsDigest(r.artifact)
    && (r.phase == "staged" || r.phase == "loaded")
    && r.id == DigestOf(c, r) && c.isTime(r.recordedAt)
  }

  /** No two of the receipts that occur share a digest unless they agree in content. */
  ghost predicate NoCollision(c: Codec, all: set<Receipt>) {
    forall r, q | r in all && q in all && DigestOf(c, r) == DigestOf(c, q) :: r.(id := "") == q.(id := "")
  }

  lemma SameIdSameReceipt(c: Codec, all: set<Receipt>, r: Receipt, q: Receipt)
    requires NoCollision(c, all) && r in all && q in all && IsValid(c, r) && IsValid(c, q) && r.id == q.id
    ensures r == q
  {
    assert r.(id := "").device == q.(id := "").device;
  }

  // ------------------------------------------------------------ the protocol, step by step

  /** `wire` holds every body ever sent and may deliver any of them again; `answers`
      are the accepted replies a flush has read and not yet acted on. */
  datatype State = State(
    outbox: map<string, Receipt>, store: map<string, Receipt>,
    wire: set<Receipt>, answers: set<string>, queued: set<Receipt>)

  datatype Step = Queue(r: Receipt) | Post(id: string) | Deliver(r: Receipt, heard: bool) | Remove(id: string) | Crash

  const START := State(map[], map[], {}, {}, {})

  predicate Enabled(c: Codec, all: set<Receipt>, s: State, step: Step) {
    match step
    case Queue(r) => r in all && IsValid(c, r)
    case Post(id) => id in s.outbox
    case Deliver(r, _) => r in s.wire && IsValid(c, r)
    case Remove(id) => id in s.answers
    case Crash => true
  }

  function Next(c: Codec, all: set<Receipt>, s: State, step: Step): (s': State)
    requires Enabled(c, all, s, step)
  {
    match step
    case Queue(r) => s.(outbox := s.outbox[r.id := r], queued := s.queued + {r})
    case Post(id) => s.(wire := s.wire + {s.outbox[id]})
    case Deliver(r, heard) =>
      s.(store := s.store[r.id := r], answers := if heard then s.answers + {r.id} else s.answers)
    case Remove(id) => s.(outbox := s.outbox - {id}, answers := s.answers - {id})
    case Crash => s.(answers := {})
  }

  ghost predicate Safe(s: State, r: Receipt) {
    (r.id in s.outbox && s.outbox[r.id] == r) || (r.id in s.store && s.store[r.id] == r)
  }

  ghost predicate Inv(c: Codec, all: set<Receipt>, s: State) {
    && (forall r | r in s.queued :: r in all && IsValid(c, r) && Safe(s, r))
    && (forall id | id in s.outbox :: s.outbox[id] in s.queued && s.outbox[id].id == id)
    && (forall id | id in s.store :: s.store[id] in s.queued && s.store[id].id == id)
    && s.wire <= s.queued && s.answers <= s.store.Keys
  }

  lemma QueueStep(c: Codec, all: set<Receipt>, s: State, r: Receipt)
    requires NoCollision(c, all) && Inv(c, all, s) && r in all && IsValid(c, r)
    ensures Inv(c, all, Next(c, all, s, Queue(r)))
  {
    var s' := Next(c, all, s, Queue(r));
    forall q | q in s'.queued ensures q in all && IsValid(c, q) && Safe(s', q) {
      if q.id == r.id { SameIdSameReceipt(c, all, q, r); }
    }
  }

  /** Storing one receipt leaves every other one where it was. */
  lemma SafeAfterDeliver(c: Codec, all: set<Receipt>, s: State, r: Receipt, q: Receipt, s': State)
    requires NoCollision(c, all) && r in all && q in all && IsValid(c, r) && IsValid(c, q)
    requires Safe(s, q) && s'.outbox == s.outbox && s'.store == s.store[r.id := r]
    ensures Safe(s', q)
  {
    if q.id == r.id { SameIdSameReceipt(c, all, q, r); }
  }

  lemma DeliverStep(c: Codec, all: set<Receipt>, s: State, r: Receipt, heard: bool)
    requires NoCollision(c, all) && Inv(c, all, s) && r in s.wire && IsValid(c, r)
    ensures Inv(c, all, Next(c, all, s, Deliver(r, heard)))
  {
    var s' := Next(c, all, s, Deliver(r, heard));
    forall q | q in s.queued ensures Safe(s', q) {
      SafeAfterDeliver(c, all, s, r, q, s');
    }
  }

  lemma RemoveStep(c: Codec, all: set<Receipt>, s: State, id: string)
    requires NoCollision(c, all) && Inv(c, all, s) && id in s.answers
    ensures Inv(c, all, Next(c, all, s, Remove(id)))
  {
    var s' := Next(c, all, s, Remove(id));
    forall q | q in s'.queued ensures q in all && IsValid(c, q) && Safe(s', q) {
      if q.id == id { SameIdSameReceipt(c, all, q, s.store[id]); }
    }
  }

  ghost predicate Runs(c: Codec, all: set<Receipt>, s: State, steps: seq<Step>)
    decreases |steps|
  {
    steps == [] || (Enabled(c, all, s, steps[0]) && Runs(c, all, Next(c, all, s, steps[0]), steps[1..]))
  }

  ghost function After(c: Codec, all: set<Receipt>, s: State, steps: seq<Step>): (s': State)
    requires Runs(c, all, s, steps)
    decreases |steps|
  {
    if steps == [] then s else After(c, all, Next(c, all, s, steps[0]), steps[1..])
  }

  lemma {:induction false} RunKeepsInv(c: Codec, all: set<Receipt>, s: State, steps: seq<Step>)
    requires NoCollision(c, all) && Inv(c, all, s) && Runs(c, all, s, steps)
    ensures Inv(c, all, After(c, all, s, steps)) && s.queued <= After(c, all, s, steps).queued
    decreases |steps|
  {
    if steps != [] {
      match steps[0] {
        case Queue(r) => QueueStep(c, all, s, r);
        case Deliver(r, heard) => DeliverStep(c, all, s, r, heard);
        case Remove(id) => RemoveStep(c, all, s, id);
        case _ =>
      }
      RunKeepsInv(c, all, Next(c, all, s, steps[0]), steps[1..]);
    }
  }

  /** At least once, and only once: over lost replies, replays and crashes every queued
      receipt is in the outbox or in the store, and the store holds under an ID exactly
      the receipt that was queued with it. */
  lemma NoReceiptIsLost(c: Codec, all: set<Receipt>, steps: seq<Step>)
    requires NoCollision(c, all) && Runs(c, all, START, steps)
    ensures var s := After(c, all, START, steps);
            && (forall r | r in s.queued :: Safe(s, r))
            && (forall id | id in s.store :: s.store[id] in s.queued && s.store[id].id == id)
            && (forall r | r in s.queued && r.id in s.store :: s.store[r.id] == r)
  {
    RunKeepsInv(c, all, START, steps);
    var s := After(c, all, START, steps);
    forall r | r in s.queued && r.id in s.store ensures s.store[r.id] == r {
      SameIdSameReceipt(c, all, r, s.store[r.id]);
    }
  }

  // --------------------------------------------------------------------- the flush loop

  /** One POST: whether the sender stored it, and whether an accepting status arrived. */
  datatype Reply = Reply(stored: bool, accepted: bool)

  class Courier {
    var outbox: map<string, Receipt>
    var store: map<string, Receipt>

    constructor ()
      ensures outbox == map[] && store == map[]
    {
      outbox, store := map[], map[];
    }

    /** FlushReceipts over the directory listing: send, and remove after an accepting
        status; stop at the first failure. The sender accepts only what it has stored. */
    method Flush(names: seq<string>, reply: nat -> Reply) returns (sent: nat, ok: bool)
      requires forall i: nat :: reply(i).accepted ==> reply(i).stored
      requires forall i | 0 <= i < |names| :: names[i] in outbox && outbox[names[i]].id == names[i]
      requires forall i, j | 0 <= i < j < |names| :: names[i] != names[j]
      modifies this
      ensures sent <= |names| && (ok <==> sent == |names|)
      ensures forall i: nat | i < sent :: reply(i).accepted
      ensures !ok ==> !reply(sent).accepted
      ensures outbox == old(outbox) - (set i | 0 <= i < sent :: names[i])
      ensures forall i | 0 <= i < sent :: names[i] in store && store[names[i]] == old(outbox)[names[i]]
      ensures forall id | id in old(store) && id !in names[..if ok then sent else sent + 1] ::
                id in store
                && store[id] == old(store)[id]
      ensures forall id | id in store ::
                (id in old(store) && store[id] == old(store)[id])
                || (id in names && store[id] == old(outbox)[id])
    {
      sent := 0;
      while sent < |names|
        invariant 0 <= sent <= |names| && forall i: nat | i < sent :: reply(i).accepted
        invariant outbox == old(outbox) - (set i | 0 <= i < sent :: names[i])
        invariant forall i | 0 <= i < sent :: names[i] in store && store[names[i]] == old(outbox)[names[i]]
        invariant forall id | id in old(store) && id !in names[..sent] :: id in store && store[id] == old(store)[id]
        invariant forall id | id in store ::
                    (id in old(store) && store[id] == old(store)[id])
                    || (id in names && store[id] == old(outbox)[id])
      {
        var name := names[sent];
        assert name in outbox && names[..sent + 1] == names[..sent] + [name];
        var body := outbox[name];
        if reply(sent).stored {
          store := store[body.id := body];
        }
        if !reply(sent).accepted {
          return sent, false;
        }
        outbox := outbox - {name};
        sent := sent + 1;
      }
      return sent, true;
    }
  }
}
