/** The hub's byte-budgeted LRU of object bodies, front of the list most recent. */
module Lru {
  import opened Common

  /** A body in memory: which backing array it is, and the bytes in it. */
  datatype Slice = Slice(id: nat, bytes: Bytes)

  datatype Entry = Entry(rel: string, data: Slice)

  // ---------------------------------------------------------- values of the recency list

  predicate HasKey(order: seq<Entry>, rel: string) {
    exists i | 0 <= i < |order| :: order[i].rel == rel
  }

  ghost predicate Distinct(order: seq<Entry>) {
    forall i, j | 0 <= i < j < |order| :: order[i].rel != order[j].rel
  }

  function Total(order: seq<Entry>): (n: nat) {
    if order == [] then 0 else Total(order[..|order| - 1]) + |order[|order| - 1].data.bytes|
  }

  /** The list without one key, and without all keys under a prefix. */
  function Without(order: seq<Entry>, rel: string): (r: seq<Entry>) {
    if order == [] then []
    else
      var init, last := Without(order[..|order| - 1], rel), order[|order| - 1];
      if last.rel == rel then init else init + [last]
  }

  function Drop(order: seq<Entry>, prefix: string): (r: seq<Entry>) {
    if order == [] then []
    else
      var init, last := Drop(order[..|order| - 1], prefix), order[|order| - 1];
      if prefix <= last.rel then init else init + [last]
  }

  /** The list with an entry put in front, replacing any older entry of its key. */
  function Front(order: seq<Entry>, e: Entry): (r: seq<Entry>) {
    [e] + Without(order, e.rel)
  }

  /** Evict from the back until the budget holds or one entry is left. */
  function Fit(order: seq<Entry>, maxBytes: int): (r: seq<Entry>) {
    if Total(order) > maxBytes && |order| > 1 then Fit(order[..|order| - 1], maxBytes) else order
  }

  lemma {:induction false} TotalAppend(a: seq<Entry>, b: seq<Entry>)
    ensures Total(a + b) == Total(a) + Total(b)
  {
    if b == [] {
      assert a + b == a;
    } else {
      assert (a + b)[..|a + b| - 1] == a + b[..|b| - 1];
      TotalAppend(a, b[..|b| - 1]);
    }
  }

  lemma TotalPrefix(order: seq<Entry>, n: nat)
    requires n <= |order|
    ensures Total(order[..n]) <= Total(order)
  {
    TotalAppend(order[..n], order[n..]);
    assert order[..n] + order[n..] == order;
  }

  /** Fit leaves exactly the longest recency prefix that fits the budget, or the single
      newest entry when not even that fits. So a budget of zero or less still keeps
      one entry. */
  lemma {:induction false} FitIsLongest(order: seq<Entry>, maxBytes: int)
    requires order != []
    ensures var r := Fit(order, maxBytes);
            && 1 <= |r| <= |order| && r == order[..|r|]
            && (Total(r) <= maxBytes || |r| == 1)
            && forall k | |r| < k <= |order| :: Total(order[..k]) > maxBytes
    decreases |order|
  {
    if Total(order) > maxBytes && |order| > 1 {
      var init := order[..|order| - 1];
      FitIsLongest(init, maxBytes);
      assert order[..|order|] == order;
      assert forall k | 0 <= k <= |init| :: order[..k] == init[..k];
    } else {
      assert order[..|order|] == order;
    }
  }

  /** The budget holds after eviction exactly when the newest entry fits it alone. */
  lemma BudgetHolds(order: seq<Entry>, maxBytes: int)
    requires order != []
    ensures Total(Fit(order, maxBytes)) <= maxBytes <==> |order[0].data.bytes| <= maxBytes
  {
    FitIsLongest(order, maxBytes);
    var r := Fit(order, maxBytes);
    assert r[..1] == [order[0]] && [order[0]][..0] == [];
    assert Total([order[0]]) == |order[0].data.bytes|;
    TotalPrefix(r, 1);
    if |r| == 1 { assert r == [order[0]]; }
  }

  /** A budget of zero does not disable the cache. */
  lemma ZeroBudgetCaches(e: Entry)
    requires e == Entry("k", Slice(0, [1]))
    ensures Fit([e], 0) == [e] && Total(Fit([e], 0)) == 1
  {
    assert [e][..0] == [];
  }

  lemma HasKeySnoc(order: seq<Entry>, e: Entry, rel: string)
    ensures HasKey(order + [e], rel) == (HasKey(order, rel) || e.rel == rel)
  {
    if HasKey(order, rel) {
      var i :| 0 <= i < |order| && order[i].rel == rel;
      assert (order + [e])[i].rel == rel;
    }
    assert (order + [e])[|order|] == e;
  }

  lemma {:induction false} WithoutAbsent(order: seq<Entry>, rel: string)
    requires !HasKey(order, rel)
    ensures Without(order, rel) == order
  {
    if order != [] {
      var init, last := order[..|order| - 1], order[|order| - 1];
      assert init + [last] == order;
      HasKeySnoc(init, last, rel);
      WithoutAbsent(init, rel);
    }
  }

  /** Without removes the one entry of its key and keeps the others in order. */
  lemma {:induction false} WithoutAt(order: seq<Entry>, k: nat)
    requires Distinct(order) && k < |order|
    ensures Without(order, order[k].rel) == Cut(order, k)
  {
    var init, last, rel := order[..|order| - 1], order[|order| - 1], order[k].rel;
    assert init + [last] == order;
    if k == |init| {
      assert !HasKey(init, rel);
      WithoutAbsent(init, rel);
    } else {
      WithoutAt(init, k);
      assert Cut(init, k) + [last] == Cut(order, k);
    }
  }

  lemma {:induction false} WithoutFacts(order: seq<Entry>, rel: string, other: string)
    ensures HasKey(Without(order, rel), other) == (other != rel && HasKey(order, other))
  {
    if order != [] {
      var init, last := order[..|order| - 1], order[|order| - 1];
      assert init + [last] == order;
      WithoutFacts(init, rel, other);
      HasKeySnoc(init, last, other);
      HasKeySnoc(Without(init, rel), last, other);
    }
  }

  lemma {:induction false} DropAt(order: seq<Entry>, k: nat, prefix: string)
    requires k < |order| && prefix <= order[k].rel
    ensures Drop(Cut(order, k), prefix) == Drop(order, prefix)
  {
    var init, last := order[..|order| - 1], order[|order| - 1];
    if k == |init| {
      assert Cut(order, k) == init;
    } else {
      DropAt(init, k, prefix);
      var cut := Cut(order, k);
      assert cut[..|cut| - 1] == Cut(init, k) && cut[|cut| - 1] == last;
    }
  }

  lemma {:induction false} DropNothing(order: seq<Entry>, prefix: string)
    requires forall i | 0 <= i < |order| :: !(prefix <= order[i].rel)
    ensures Drop(order, prefix) == order
  {
    if order != [] {
      DropNothing(order[..|order| - 1], prefix);
      assert order[..|order| - 1] + [order[|order| - 1]] == order;
    }
  }

  /** Drop removes exactly the matching keys. */
  lemma {:induction false} DropIsExact(order: seq<Entry>, prefix: string, e: Entry)
    ensures e in Drop(order, prefix) <==> e in order && !(prefix <= e.rel)
  {
    if order != [] {
      DropIsExact(order[..|order| - 1], prefix, e);
      assert order[..|order| - 1] + [order[|order| - 1]] == order;
    }
  }

  function Cut(order: seq<Entry>, k: nat): (r: seq<Entry>)
    requires k < |order|
    ensures |r| == |order| - 1
    ensures forall i | 0 <= i < k :: r[i] == order[i]
    ensures forall i | k <= i < |r| :: r[i] == order[i + 1]
  {
    order[..k] + order[k + 1..]
  }

  lemma CutTotal(order: seq<Entry>, k: nat)
    requires k < |order|
    ensures Total(Cut(order, k)) == Total(order) - |order[k].data.bytes|
  {
    var a, b := order[..k], order[k + 1..];
    TotalAppend(a, b);
    TotalAppend(a + [order[k]], b);
    TotalAppend(a, [order[k]]);
    assert order == a + [order[k]] + b;
    assert [order[k]][..0] == [];
  }

  lemma CutKeys(order: seq<Entry>, k: nat)
    requires Distinct(order) && k < |order|
    ensures Distinct(Cut(order, k)) && !HasKey(Cut(order, k), order[k].rel)
  {
  }

  // ------------------------------------------------------------------------- the class

  /** The map finds exactly the entries of the list. */
  ghost predicate Agrees(items: map<string, Entry>, order: seq<Entry>) {
    && (forall i | 0 <= i < |order| :: order[i].rel in items && items[order[i].rel] == order[i])
    && (forall rel | rel in items :: HasKey(order, rel))
  }

  lemma KeyAfterCut(order: seq<Entry>, k: nat, rel: string)
    requires k < |order| && HasKey(order, rel) && rel != order[k].rel
    ensures HasKey(Cut(order, k), rel)
  {
    var i :| 0 <= i < |order| && order[i].rel == rel;
    assert if i < k then Cut(order, k)[i].rel == rel else Cut(order, k)[i - 1].rel == rel;
  }

  lemma AgreesCut(items: map<string, Entry>, order: seq<Entry>, k: nat)
    requires Distinct(order) && Agrees(items, order) && k < |order|
    ensures Agrees(items - {order[k].rel}, Cut(order, k))
  {
    forall rel | rel in items && rel != order[k].rel ensures HasKey(Cut(order, k), rel) {
      KeyAfterCut(order, k, rel);
    }
    forall i | 0 <= i < |Cut(order, k)| ensures Cut(order, k)[i] in order && Cut(order, k)[i].rel != order[k].rel {
      var j := if i < k then i else i + 1;
      assert Cut(order, k)[i] == order[j];
    }
    assert forall e | e in order :: e.rel in items && items[e.rel] == e;
  }

  lemma AgreesPush(items: map<string, Entry>, order: seq<Entry>, e: Entry)
    requires Agrees(items, order) && !HasKey(order, e.rel) && Distinct(order)
    ensures Agrees(items[e.rel := e], [e] + order) && Distinct([e] + order)
    ensures Total([e] + order) == |e.data.bytes| + Total(order)
  {
    var r := [e] + order;
    assert forall i | 0 < i < |r| :: r[i] == order[i - 1];
    forall rel | rel in items[e.rel := e] ensures HasKey(r, rel) {
      if rel == e.rel {
        assert r[0].rel == rel;
      } else {
        var i :| 0 <= i < |order| && order[i].rel == rel;
        assert r[i + 1].rel == rel;
      }
    }
    TotalAppend([e], order);
    assert [e][..0] == [];
  }

  class LRU {
    const maxBytes: int
    var curBytes: int
    var items: map<string, Entry>   // by key
    var order: seq<Entry>           // front = most recent

    ghost predicate Valid()
      reads this
    {
      Distinct(order) && Agrees(items, order) && curBytes == Total(order)
    }

    constructor (maxBytes: int)
      ensures Valid() && order == [] && this.maxBytes == maxBytes
    {
      this.maxBytes := maxBytes;
      curBytes, items, order := 0, map[], [];
    }

    /** Unlink one element; the caller re-inserts it or not. */
    method Remove(k: nat)
      requires Valid() && k < |order|
      modifies this
      ensures Valid() && order == old(Cut(order, k)) == old(Without(order, order[k].rel))
      ensures !HasKey(order, old(order[k].rel))
    {
      CutTotal(order, k);
      CutKeys(order, k);
      AgreesCut(items, order, k);
      WithoutAt(order, k);
      curBytes := curBytes - |order[k].data.bytes|;
      items := items - {order[k].rel};
      order := Cut(order, k);
    }

    method Push(e: Entry)
      requires Valid() && !HasKey(order, e.rel)
      modifies this
      ensures Valid() && order == [e] + old(order)
    {
      AgreesPush(items, order, e);
      items := items[e.rel := e];
      order := [e] + order;
      curBytes := curBytes + |e.data.bytes|;
    }

    method Find(rel: string) returns (k: nat)
      requires Valid() && rel in items
      ensures k < |order| && order[k] == items[rel] && order[k].rel == rel
    {
      k := 0;
      while order[k].rel != rel
        invariant k < |order| && forall i | 0 <= i < k :: order[i].rel != rel
        decreases |order| - k
      {
        k := k + 1;
      }
    }

    method Get(rel: string) returns (r: Option<Slice>)
      requires Valid()
      modifies this
      ensures Valid()
      ensures r.Some? <==> old(HasKey(order, rel))
      ensures r.Some? ==> Entry(rel, r.value) in old(order) && order == Front(old(order), Entry(rel, r.value))
      ensures r.None? ==> order == old(order)
    {
      if rel !in items {
        return None;
      }
      var k := Find(rel);
      var e := order[k];
      Remove(k);
      Push(e);
      return Some(e.data);
    }

    method Put(rel: string, data: Slice) returns (evicted: nat)
      requires Valid()
      modifies this
      ensures Valid()
      ensures order == Fit(Front(old(order), Entry(rel, data)), maxBytes)
      ensures evicted == |Front(old(order), Entry(rel, data))| - |order|
    {
      if rel in items {
        var k := Find(rel);
        Remove(k);
      } else {
        WithoutAbsent(order, rel);
      }
      Push(Entry(rel, data));
      ghost var front := order;
      evicted := 0;
      while curBytes > maxBytes && |order| > 1
        invariant Valid() && |order| >= 1 && evicted == |front| - |order|
        invariant Fit(order, maxBytes) == Fit(front, maxBytes)
        decreases |order|
      {
        var last := |order| - 1;
        assert Cut(order, last) == order[..last];
        Remove(last);
        evicted := evicted + 1;
      }
    }

    /** InvalidatePrefix: drop the first match, start over, until nothing matches. */
    method InvalidatePrefix(prefix: string) returns (dropped: nat)
      requires Valid()
      modifies this
      ensures Valid() && order == Drop(old(order), prefix) && dropped == |old(order)| - |order|
    {
      dropped := 0;
      var removed := true;
      while removed
        invariant Valid() && dropped == |old(order)| - |order|
        invariant Drop(order, prefix) == Drop(old(order), prefix)
        invariant !removed ==> forall i | 0 <= i < |order| :: !(prefix <= order[i].rel)
        decreases |order|, removed
      {
        removed := false;
        var k := 0;
        while k < |order| && !(prefix <= order[k].rel)
          invariant k <= |order| && forall i | 0 <= i < k :: !(prefix <= order[i].rel)
        {
          k := k + 1;
        }
        if k < |order| {
          DropAt(order, k, prefix);
          Remove(k);
          dropped, removed := dropped + 1, true;
        }
      }
      DropNothing(order, prefix);
    }
  }

  // ----------------------------------------------------------- sequences of operations

  datatype Op = GetOp(rel: string) | PutOp(e: Entry) | DropOp(prefix: string)

  /** The list with the running counts of new keys, evictions and drops. */
  datatype Tally = Tally(order: seq<Entry>, inserted: nat, evicted: nat, dropped: nat)

  function Lookup(order: seq<Entry>, rel: string): (e: Entry)
    requires HasKey(order, rel)
  {
    if order[|order| - 1].rel == rel then order[|order| - 1]
    else
      assert order == order[..|order| - 1] + [order[|order| - 1]];
      HasKeySnoc(order[..|order| - 1], order[|order| - 1], rel);
      Lookup(order[..|order| - 1], rel)
  }

  function Do(t: Tally, op: Op, maxBytes: int): (t': Tally) {
    match op
    case GetOp(rel) => if HasKey(t.order, rel) then t.(order := Front(t.order, Lookup(t.order, rel))) else t
    case PutOp(e) =>
      var front := Front(t.order, e);
      var order := Fit(front, maxBytes);
      FitIsLongest(front, maxBytes);
      t.(order := order, inserted := t.inserted + if HasKey(t.order, e.rel) then 0 else 1,
         evicted := t.evicted + |front| - |order|)
    case DropOp(prefix) =>
      DropShrinks(t.order, prefix);
      t.(order := Drop(t.order, prefix), dropped := t.dropped + |t.order| - |Drop(t.order, prefix)|)
  }

  lemma {:induction false} DropShrinks(order: seq<Entry>, prefix: string)
    ensures |Drop(order, prefix)| <= |order|
  {
    if order != [] { DropShrinks(order[..|order| - 1], prefix); }
  }

  function DoAll(t: Tally, ops: seq<Op>, maxBytes: int): (t': Tally) {
    if ops == [] then t else Do(DoAll(t, ops[..|ops| - 1], maxBytes), ops[|ops| - 1], maxBytes)
  }

  ghost predicate Balanced(t: Tally) {
    Distinct(t.order) && t.inserted == |t.order| + t.evicted + t.dropped
  }

  lemma {:induction false} WithoutKeepsDistinct(order: seq<Entry>, rel: string)
    requires Distinct(order)
    ensures Distinct(Without(order, rel)) && !HasKey(Without(order, rel), rel)
    ensures |Without(order, rel)| == |order| - if HasKey(order, rel) then 1 else 0
  {
    if k :| 0 <= k < |order| && order[k].rel == rel {
      WithoutAt(order, k);
      CutKeys(order, k);
    } else {
      WithoutAbsent(order, rel);
    }
  }

  lemma {:induction false} DropKeepsDistinct(order: seq<Entry>, prefix: string)
    requires Distinct(order)
    ensures Distinct(Drop(order, prefix))
  {
    if order != [] {
      var init, last := order[..|order| - 1], order[|order| - 1];
      DropKeepsDistinct(init, prefix);
      var d := Drop(init, prefix);
      forall i | 0 <= i < |d| ensures d[i].rel != last.rel {
        DropIsExact(init, prefix, d[i]);
        var k :| 0 <= k < |init| && init[k] == d[i];
        assert order[k].rel != order[|init|].rel;
      }
    }
  }

  lemma DoKeepsBalance(t: Tally, op: Op, maxBytes: int)
    requires Balanced(t)
    ensures Balanced(Do(t, op, maxBytes))
  {
    match op
    case GetOp(rel) =>
      if HasKey(t.order, rel) {
        LookupFinds(t.order, rel);
        FrontKeepsDistinct(t.order, Lookup(t.order, rel));
      }
    case PutOp(e) =>
      FrontKeepsDistinct(t.order, e);
      FitIsLongest(Front(t.order, e), maxBytes);
    case DropOp(prefix) =>
      DropKeepsDistinct(t.order, prefix);
  }

  lemma {:induction false} LookupFinds(order: seq<Entry>, rel: string)
    requires HasKey(order, rel)
    ensures Lookup(order, rel) in order && Lookup(order, rel).rel == rel
  {
    if order[|order| - 1].rel != rel {
      assert order == order[..|order| - 1] + [order[|order| - 1]];
      HasKeySnoc(order[..|order| - 1], order[|order| - 1], rel);
      LookupFinds(order[..|order| - 1], rel);
    }
  }

  lemma FrontKeepsDistinct(order: seq<Entry>, e: Entry)
    requires Distinct(order)
    ensures Distinct(Front(order, e))
    ensures |Front(order, e)| == |order| + if HasKey(order, e.rel) then 0 else 1
  {
    WithoutKeepsDistinct(order, e.rel);
    var w, r := Without(order, e.rel), Front(order, e);
    assert forall i | 0 < i < |r| :: r[i] == w[i - 1];
  }

  /** Conservation over every sequence of operations: each key ever inserted is still
      cached, was evicted, or was dropped by an invalidation. */
  lemma {:induction false} InsertsBalance(ops: seq<Op>, maxBytes: int)
    ensures Balanced(DoAll(Tally([], 0, 0, 0), ops, maxBytes))
  {
    if ops != [] {
      InsertsBalance(ops[..|ops| - 1], maxBytes);
      DoKeepsBalance(DoAll(Tally([], 0, 0, 0), ops[..|ops| - 1], maxBytes), ops[|ops| - 1], maxBytes);
    }
  }
}
