/** The sender's view of deliveries: one best receipt per release identity, and one
    answer per device that never depends on the order in which receipts were read. */
module Sender {
  import opened Common

  datatype Phase = Staged | Loaded

  /** One stored receipt; `recorded` is its parsed timestamp, if it has a usable one. */
  datatype Row = Row(
    id: string, device: string, sequence: int, release: string, artifact: string,
    phase: Phase, recorded: Option<real>)

  datatype Key = Key(device: string, sequence: int, release: string, artifact: string)

  function KeyOf(r: Row): (k: Key) {
    Key(r.device, r.sequence, r.release, r.artifact)
  }

  /** The same immutable identity. */
  predicate SameIdentity(q: Row, r: Row) {
    q.device == r.device && q.sequence == r.sequence && q.release == r.release && q.artifact == r.artifact
  }

  // ------------------------------------------------------------------------ the rank

  predicate Before(a: string, b: string) {
    b != [] && (a == [] || a[0] < b[0] || (a[0] == b[0] && Before(a[1..], b[1..])))
  }

  /** A missing time ranks below every time. */
  predicate Earlier(a: Option<real>, b: Option<real>) {
    b.Some? && (a.None? || a.value < b.value)
  }

  /** Phase, then time, then ID. */
  predicate Outranked(r: Row, q: Row) {
    if r.phase != q.phase then r.phase == Staged
    else if r.recorded != q.recorded then Earlier(r.recorded, q.recorded)
    else Before(r.id, q.id)
  }

  lemma {:induction false} BeforeIsTotal(a: string, b: string)
    ensures a == b || Before(a, b) || Before(b, a)
    ensures !(Before(a, b) && Before(b, a)) && !Before(a, a)
  {
    if a != [] && b != [] {
      BeforeIsTotal(a[1..], b[1..]);
      assert a == [a[0]] + a[1..] && b == [b[0]] + b[1..];
    }
    if a != [] { BeforeSelf(a); }
  }

  lemma {:induction false} BeforeSelf(a: string)
    ensures !Before(a, a)
  {
    if a != [] { BeforeSelf(a[1..]); }
  }

  lemma {:induction false} BeforeIsTransitive(a: string, b: string, c: string)
    requires Before(a, b) && Before(b, c)
    ensures Before(a, c)
  {
    if a != [] && a[0] == b[0] && b[0] == c[0] {
      BeforeIsTransitive(a[1..], b[1..], c[1..]);
    }
  }

  /** a comes before b in the dictionary: they agree up to some place, where a ends or has
      the smaller character. */
  ghost predicate LexLess(a: string, b: string) {
    exists k: nat :: k <= |a| && k < |b| && a[..k] == b[..k] && (k < |a| ==> a[k] < b[k])
  }

  lemma {:induction false} BeforeIsLex(a: string, b: string)
    ensures Before(a, b) <==> LexLess(a, b)
    decreases |a|
  {
    if a != [] && b != [] && a[0] == b[0] {
      BeforeIsLex(a[1..], b[1..]);
      LexRest(a, b);
    } else if b != [] && (a == [] || a[0] < b[0]) {
      assert a[..0] == b[..0];
      assert LexLess(a, b);
    } else if LexLess(a, b) {
      LexFirst(a, b);
    }
  }

  lemma LexFirst(a: string, b: string)
    requires LexLess(a, b)
    ensures b != [] && (a == [] || a[0] <= b[0])
  {
    var k: nat :| k <= |a| && k < |b| && a[..k] == b[..k] && (k < |a| ==> a[k] < b[k]);
    if k > 0 { assert a[..k][0] == b[..k][0]; }
  }

  lemma LexRest(a: string, b: string)
    requires a != [] && b != [] && a[0] == b[0]
    ensures LexLess(a, b) <==> LexLess(a[1..], b[1..])
  {
    if LexLess(a, b) {
      var k: nat :| k <= |a| && k < |b| && a[..k] == b[..k] && (k < |a| ==> a[k] < b[k]);
      assert a[1..][..k - 1] == a[..k][1..] && b[1..][..k - 1] == b[..k][1..];
    }
    if LexLess(a[1..], b[1..]) {
      var k: nat :| k <= |a[1..]| && k < |b[1..]| && a[1..][..k] == b[1..][..k]
          && (k < |a[1..]| ==> a[1..][k] < b[1..][k]);
      assert a[..k + 1] == [a[0]] + a[1..][..k] && b[..k + 1] == [b[0]] + b[1..][..k];
      assert k + 1 < |a| ==> a[k + 1] < b[k + 1];
    }
  }

  lemma RankIsTotal(r: Row, q: Row)
    requires r.id != q.id
    ensures Outranked(r, q) != Outranked(q, r)
  {
    BeforeIsTotal(r.id, q.id);
  }

  lemma RankIsTransitive(r: Row, q: Row, p: Row)
    requires Outranked(r, q) && Outranked(q, p)
    ensures Outranked(r, p)
  {
    if r.phase == q.phase == p.phase && r.recorded == q.recorded == p.recorded {
      BeforeIsTransitive(r.id, q.id, p.id);
    }
  }

  // ------------------------------------------------------- best receipt per identity

  /** IDs are unique among the rows of one origin (the table's primary key). */
  ghost predicate DistinctIds(rows: seq<Row>) {
    forall i, j | 0 <= i < j < |rows| :: rows[i].id != rows[j].id
  }

  /** r is the highest-ranking row of its identity. */
  ghost predicate Best(rows: seq<Row>, r: Row) {
    r in rows && forall q | q in rows && KeyOf(q) == KeyOf(r) :: q == r || Outranked(q, r)
  }

  /** What that means: it is loaded if any row of the identity is; among the rows of its
      phase none is later, or has a time where it has none; and among the rows that also
      have its time none has a greater ID. */
  ghost predicate Tops(rows: seq<Row>, r: Row) {
    forall q | q in rows && SameIdentity(q, r) ::
      && (q.phase == Loaded ==> r.phase == Loaded)
      && (q.phase == r.phase && q.recorded.Some? ==> r.recorded.Some? && q.recorded.value <= r.recorded.value)
      && (q.phase == r.phase && q.recorded == r.recorded ==> !LexLess(r.id, q.id))
  }

  lemma BestTops(rows: seq<Row>, r: Row)
    requires Best(rows, r)
    ensures Tops(rows, r)
  {
    forall q | q in rows && SameIdentity(q, r)
      ensures (q.phase == Loaded ==> r.phase == Loaded)
      ensures q.phase == r.phase && q.recorded.Some? ==> r.recorded.Some? && q.recorded.value <= r.recorded.value
      ensures q.phase == r.phase && q.recorded == r.recorded ==> !LexLess(r.id, q.id) {
      assert KeyOf(q) == KeyOf(r);
      BeforeIsTotal(r.id, q.id);
      BeforeIsLex(r.id, q.id);
    }
  }

  lemma BestIsUnique(rows: seq<Row>, r: Row, q: Row)
    requires DistinctIds(rows) && Best(rows, r) && Best(rows, q) && KeyOf(r) == KeyOf(q)
    ensures r == q
  {
    if r != q {
      var i :| 0 <= i < |rows| && rows[i] == r;
      var j :| 0 <= j < |rows| && rows[j] == q;
      assert i < j || j < i;
      RankIsTotal(r, q);
    }
  }

  /** The map of best rows for the rows read so far. */
  ghost predicate Bests(rows: seq<Row>, releases: map<Key, Row>) {
    && (forall k | k in releases :: KeyOf(releases[k]) == k && Best(rows, releases[k]))
    && (forall r | r in rows :: KeyOf(r) in releases)
  }

  lemma BestsStep(rows: seq<Row>, releases: map<Key, Row>, r: Row)
    requires DistinctIds(rows + [r]) && Bests(rows, releases)
    ensures var k := KeyOf(r);
            Bests(rows + [r], if k in releases && !Outranked(releases[k], r) then releases else releases[k := r])
  {
    var k, all := KeyOf(r), rows + [r];
    forall q | q in rows ensures q.id != r.id {
      var i :| 0 <= i < |rows| && rows[i] == q;
      assert all[i].id != all[|rows|].id;
    }
    if k in releases {
      var was := releases[k];
      RankIsTotal(was, r);
      if Outranked(was, r) {
        forall q | q in all && KeyOf(q) == k ensures q == r || Outranked(q, r) {
          if q != r && q != was { RankIsTransitive(q, was, r); }
        }
      }
    }
  }

  /** The first loop: keep the best row of every identity. */
  method CollectReleases(rows: seq<Row>) returns (releases: map<Key, Row>)
    requires DistinctIds(rows)
    ensures Bests(rows, releases)
    ensures forall k | k in releases :: Tops(rows, releases[k])
  {
    releases := map[];
    for i := 0 to |rows|
      invariant Bests(rows[..i], releases)
    {
      var r := rows[i];
      var k := KeyOf(r);
      BestsStep(rows[..i], releases, r);
      assert rows[..i] + [r] == rows[..i + 1];
      if k !in releases || Outranked(releases[k], r) {
        releases := releases[k := r];
      }
    }
    assert rows[..|rows|] == rows;
    forall k | k in releases ensures Tops(rows, releases[k]) { BestTops(rows, releases[k]); }
  }

  // -------------------------------------------------------------- one answer per device

  /** The identities a device claims for a sequence. */
  function Candidates(releases: map<Key, Row>, device: string, sequence: int): (s: set<Key>) {
    set k | k in releases && k.device == device && k.sequence == sequence
  }

  /** The answer for a device is its unambiguous receipt at its highest sequence. */
  ghost predicate Reported(rows: seq<Row>, r: Row) {
    && Best(rows, r)
    && forall q | q in rows && q.device == r.device ::
         q.sequence <= r.sequence && (q.sequence == r.sequence ==> SameIdentity(q, r))
  }

  /** A device claims two identities for one sequence. */
  ghost predicate Conflicting(rows: seq<Row>, device: string, sequence: int) {
    exists r, q :: r in rows && q in rows && r.device == q.device == device
                   && r.sequence == q.sequence == sequence && !SameIdentity(r, q)
  }

  lemma LowestExists(s: set<(string, int)>) returns (p: (string, int))
    requires s != {}
    ensures p in s && forall q | q in s && q.0 == p.0 :: p.1 <= q.1
    decreases |s|
  {
    p :| p in s;
    var rest := s - {p};
    if rest != {} {
      var m := LowestExists(rest);
      if m.0 == p.0 && m.1 < p.1 {
        p := m;
      } else if m.0 != p.0 {
        p := LowestOf(s, p);
      }
    }
  }

  lemma LowestOf(s: set<(string, int)>, p: (string, int)) returns (m: (string, int))
    requires p in s
    ensures m in s && m.0 == p.0 && forall q | q in s && q.0 == p.0 :: m.1 <= q.1
    decreases |s|
  {
    if q :| q in s && q.0 == p.0 && q.1 < p.1 {
      m := LowestOf(s - {p}, q);
    } else {
      m := p;
    }
  }

  /** What has been decided once the sequences in `seen` were processed in ascending
      order: each device has the answer for the highest sequence seen. */
  ghost predicate Decided(releases: map<Key, Row>, seen: set<(string, int)>, devices: map<string, Option<Row>>) {
    && (forall p | p in seen :: p.0 in devices)
    && (forall d | d in devices :: exists n :: Settles(releases, seen, devices, d, n))
  }

  ghost predicate Settles(releases: map<Key, Row>, seen: set<(string, int)>, devices: map<string, Option<Row>>,
                          d: string, n: int)
    requires d in devices
  {
    && (d, n) in seen && (forall q | q in seen && q.0 == d :: q.1 <= n)
    && Answer(releases, d, n, devices[d])
  }

  ghost predicate Answer(releases: map<Key, Row>, d: string, n: int, a: Option<Row>) {
    if a.None? then exists k, l :: k in Candidates(releases, d, n) && l in Candidates(releases, d, n) && k != l
    else exists k :: Candidates(releases, d, n) == {k} && a.value == releases[k]
  }

  lemma PairOrOne(s: set<Key>)
    requires s != {}
    ensures if |s| > 1 then exists k, l :: k in s && l in s && k != l else exists k :: s == {k}
  {
    var k :| k in s;
    if |s| > 1 {
      var rest := s - {k};
      var l :| l in rest;
      assert l in s && k != l;
    } else {
      assert |s - {k}| == 0;
      assert s == {k};
    }
  }

  /** The last loop, in any order that is ascending within each device. */
  method DecideDevices(releases: map<Key, Row>)
      returns (devices: map<string, Option<Row>>, conflicts: set<(string, int)>)
    ensures Decided(releases, set k | k in releases :: (k.device, k.sequence), devices)
    ensures conflicts == set k | k in releases && |Candidates(releases, k.device, k.sequence)| > 1 ::
            (k.device, k.sequence)
  {
    var all := set k | k in releases :: (k.device, k.sequence);
    var remaining := all;
    devices, conflicts := map[], {};
    while remaining != {}
      invariant remaining <= all
      invariant forall p, q | p in all - remaining && q in remaining && p.0 == q.0 :: p.1 <= q.1
      invariant Decided(releases, all - remaining, devices)
      invariant forall p :: p in conflicts <==> p in all - remaining && |Candidates(releases, p.0, p.1)| > 1
      decreases remaining
    {
      ghost var lowest := LowestExists(remaining);
      var p: (string, int) :| p in remaining && forall q | q in remaining && q.0 == p.0 :: p.1 <= q.1;
      var cs := Candidates(releases, p.0, p.1);
      var k0 :| k0 in releases && (k0.device, k0.sequence) == p;
      assert k0 in cs;
      PairOrOne(cs);
      ghost var seen, before := all - remaining, devices;
      if |cs| > 1 {
        devices, conflicts := devices[p.0 := None], conflicts + {p};
      } else {
        var k :| k in cs;
        devices := devices[p.0 := Some(releases[k])];
      }
      remaining := remaining - {p};
      assert all - remaining == seen + {p};
      DecideStep(releases, seen, before, p, devices[p.0]);
    }
    assert all - remaining == all;
  }

  lemma DecideStep(releases: map<Key, Row>, seen: set<(string, int)>, devices: map<string, Option<Row>>,
                   p: (string, int), a: Option<Row>)
    requires Decided(releases, seen, devices) && Answer(releases, p.0, p.1, a)
    requires forall q | q in seen && q.0 == p.0 :: q.1 <= p.1
    ensures Decided(releases, seen + {p}, devices[p.0 := a])
  {
    var devices', seen' := devices[p.0 := a], seen + {p};
    forall d | d in devices' ensures exists n :: Settles(releases, seen', devices', d, n) {
      if d == p.0 {
        assert Settles(releases, seen', devices', d, p.1);
      } else {
        var n :| Settles(releases, seen, devices, d, n);
        assert Settles(releases, seen', devices', d, n);
      }
    }
  }

  /** A device is reported exactly when its highest sequence has a single identity; the
      receipt is the best of that identity; a conflict there never falls back to an
      older sequence. */
  method Acknowledgements(rows: seq<Row>)
      returns (devices: map<string, Option<Row>>, releases: map<Key, Row>, conflicts: set<(string, int)>)
    requires DistinctIds(rows)
    ensures Complete(rows, releases, devices)
    ensures ConflictsOf(rows, conflicts)
    ensures forall d :: d in devices <==> exists r :: r in rows && r.device == d
    ensures forall d, r :: Answers(devices, d, r) <==> r.device == d && Reported(rows, r)
    ensures forall d, r | Answers(devices, d, r) :: r in rows && r.device == d && Highest(rows, r) && Tops(rows, r)
    ensures forall d :: (d in devices && devices[d].Some?) <==>
                        exists r :: r in rows && r.device == d && Highest(rows, r)
  {
    releases := CollectReleases(rows);
    devices, conflicts := DecideDevices(releases);
    forall d, n ensures (d, n) in conflicts <==> Conflicting(rows, d, n) {
      ConflictExact(rows, releases, d, n);
    }
    DevicesAreRows(rows, releases, devices);
    forall d, r ensures Answers(devices, d, r) <==> r.device == d && Reported(rows, r) {
      ViewAt(rows, releases, devices, d, r);
    }
    forall d, r | Answers(devices, d, r) ensures r in rows && r.device == d && Highest(rows, r) && Tops(rows, r) {
      BestTops(rows, r);
    }
    forall d
      ensures (d in devices && devices[d].Some?) <==> exists r :: r in rows && r.device == d && Highest(rows, r) {
      AnsweredExactly(rows, releases, devices, d);
    }
  }

  /** The device of this row claims no higher sequence, and for its sequence no other
      identity. */
  ghost predicate Highest(rows: seq<Row>, r: Row) {
    forall q | q in rows && q.device == r.device ::
      q.sequence <= r.sequence && (q.sequence == r.sequence ==> SameIdentity(q, r))
  }

  lemma AnsweredExactly(rows: seq<Row>, releases: map<Key, Row>, devices: map<string, Option<Row>>, d: string)
    requires DistinctIds(rows) && Complete(rows, releases, devices)
    ensures (d in devices && devices[d].Some?) <==> exists r :: r in rows && r.device == d && Highest(rows, r)
  {
    if d in devices && devices[d].Some? {
      AnswerIsReported(rows, releases, devices, d, devices[d].value);
    }
    if r :| r in rows && r.device == d && Highest(rows, r) {
      var best := releases[KeyOf(r)];
      assert KeyOf(best) == KeyOf(r) && Best(rows, best);
      assert Reported(rows, best);
      ReportedIsAnswer(rows, releases, devices, best);
    }
  }

  predicate Answers(devices: map<string, Option<Row>>, d: string, r: Row) {
    d in devices && devices[d] == Some(r)
  }

  lemma ViewAt(rows: seq<Row>, releases: map<Key, Row>, devices: map<string, Option<Row>>, d: string, r: Row)
    requires DistinctIds(rows) && Complete(rows, releases, devices)
    ensures Answers(devices, d, r) <==> r.device == d && Reported(rows, r)
  {
    if Answers(devices, d, r) {
      AnswerIsReported(rows, releases, devices, d, r);
    }
    if r.device == d && Reported(rows, r) {
      ReportedIsAnswer(rows, releases, devices, r);
    }
  }

  ghost predicate Complete(rows: seq<Row>, releases: map<Key, Row>, devices: map<string, Option<Row>>) {
    Bests(rows, releases) && Decided(releases, set k | k in releases :: (k.device, k.sequence), devices)
  }

  lemma DevicesAreRows(rows: seq<Row>, releases: map<Key, Row>, devices: map<string, Option<Row>>)
    requires Complete(rows, releases, devices)
    ensures forall d :: d in devices <==> exists r :: r in rows && r.device == d
  {
    var all := set k | k in releases :: (k.device, k.sequence);
    forall d | d in devices ensures exists r :: r in rows && r.device == d {
      var n :| Settles(releases, all, devices, d, n);
      var k :| k in releases && (k.device, k.sequence) == (d, n);
      assert releases[k] in rows && releases[k].device == d;
    }
    forall r | r in rows ensures r.device in devices {
      assert KeyOf(r) in releases && (r.device, r.sequence) in all;
    }
  }

  lemma AnswerIsReported(rows: seq<Row>, releases: map<Key, Row>, devices: map<string, Option<Row>>, d: string, r: Row)
    requires Complete(rows, releases, devices) && d in devices && devices[d] == Some(r)
    ensures r.device == d && Reported(rows, r)
  {
    var all := set k | k in releases :: (k.device, k.sequence);
    var n :| Settles(releases, all, devices, d, n);
    var k :| Candidates(releases, d, n) == {k} && r == releases[k];
    assert k in Candidates(releases, d, n);
    forall q | q in rows && q.device == d ensures q.sequence <= n && (q.sequence == n ==> KeyOf(q) == k) {
      assert KeyOf(q) in releases && (q.device, q.sequence) in all;
      assert q.sequence == n ==> KeyOf(q) in Candidates(releases, d, n);
    }
  }

  lemma ReportedIsAnswer(rows: seq<Row>, releases: map<Key, Row>, devices: map<string, Option<Row>>, r: Row)
    requires DistinctIds(rows) && Complete(rows, releases, devices) && Reported(rows, r)
    ensures r.device in devices && devices[r.device] == Some(r)
  {
    var all, k := set k | k in releases :: (k.device, k.sequence), KeyOf(r);
    assert k in releases && (r.device, r.sequence) in all;
    var n :| Settles(releases, all, devices, r.device, n);
    var l :| l in releases && (l.device, l.sequence) == (r.device, n);
    assert releases[l] in rows;
    assert n == r.sequence;
    forall c | c in Candidates(releases, r.device, n) ensures c == k { assert releases[c] in rows; }
    BestIsUnique(rows, r, releases[k]);
  }

  lemma PairConflicts(rows: seq<Row>, releases: map<Key, Row>, d: string, n: int, k: Key, l: Key)
    requires Bests(rows, releases) && k in Candidates(releases, d, n) && l in Candidates(releases, d, n) && k != l
    ensures Conflicting(rows, d, n)
  {
    assert releases[k] in rows && releases[l] in rows;
    assert KeyOf(releases[k]) == k && KeyOf(releases[l]) == l;
    assert !SameIdentity(releases[k], releases[l]);
  }

  lemma ConflictExact(rows: seq<Row>, releases: map<Key, Row>, d: string, n: int)
    requires Bests(rows, releases)
    ensures |Candidates(releases, d, n)| > 1 <==> Conflicting(rows, d, n)
    ensures Conflicting(rows, d, n) ==> exists k :: k in releases && (k.device, k.sequence) == (d, n)
  {
    var cs := Candidates(releases, d, n);
    if Conflicting(rows, d, n) {
      var r, q :| r in rows && q in rows && r.device == q.device == d && r.sequence == q.sequence == n
          && !SameIdentity(r, q);
      assert KeyOf(r) in cs && KeyOf(q) in cs;
      assert |cs - {KeyOf(r)}| > 0;
    }
    if |cs| > 1 {
      PairOrOne(cs);
      var k, l :| k in cs && l in cs && k != l;
      PairConflicts(rows, releases, d, n, k, l);
    }
  }

  lemma SameRowsSameBests(rows: seq<Row>, other: seq<Row>, a: map<Key, Row>, b: map<Key, Row>)
    requires SameRows(rows, other) && DistinctIds(rows) && Bests(rows, a) && Bests(other, b)
    ensures a == b
  {
    forall k ensures k in a <==> k in b {
      if k in a { assert a[k] in other; }
      if k in b { assert b[k] in rows; }
    }
    forall k | k in a ensures a[k] == b[k] {
      assert Best(rows, b[k]);
      BestIsUnique(rows, a[k], b[k]);
    }
  }

  /** The view depends on which rows there are, not on the order they are read in. */
  lemma OrderDoesNotMatter(rows: seq<Row>, other: seq<Row>, a: map<Key, Row>, b: map<Key, Row>,
                           da: map<string, Option<Row>>, db: map<string, Option<Row>>,
                           ca: set<(string, int)>, cb: set<(string, int)>)
    requires SameRows(rows, other) && DistinctIds(rows) && DistinctIds(other)
    requires Complete(rows, a, da) && Complete(other, b, db) && ConflictsOf(rows, ca) && ConflictsOf(other, cb)
    ensures a == b && da == db && ca == cb
  {
    SameConflicts(rows, other, ca, cb);
    SameRowsSameBests(rows, other, a, b);
    SameDevices(rows, other, a, b, da, db);
    forall d, r ensures Answers(da, d, r) <==> Answers(db, d, r) {
      SameAnswerAt(rows, other, a, b, da, db, d, r);
    }
    SameAnswers(da, db);
  }

  /** The conflict list is complete and holds nothing else. */
  ghost predicate ConflictsOf(rows: seq<Row>, conflicts: set<(string, int)>) {
    forall d, n :: (d, n) in conflicts <==> Conflicting(rows, d, n)
  }

  lemma SameConflicts(rows: seq<Row>, other: seq<Row>, ca: set<(string, int)>, cb: set<(string, int)>)
    requires SameRows(rows, other) && ConflictsOf(rows, ca) && ConflictsOf(other, cb)
    ensures ca == cb
  {
    forall p: (string, int) ensures p in ca <==> p in cb {
      assert p == (p.0, p.1);
      assert Conflicting(rows, p.0, p.1) <==> Conflicting(other, p.0, p.1);
    }
  }

  ghost predicate SameRows(rows: seq<Row>, other: seq<Row>) {
    forall q :: q in rows <==> q in other
  }

  lemma SameReported(rows: seq<Row>, other: seq<Row>, r: Row)
    requires SameRows(rows, other)
    ensures Reported(rows, r) == Reported(other, r)
  {
  }

  lemma SameAnswerAt(rows: seq<Row>, other: seq<Row>, a: map<Key, Row>, b: map<Key, Row>,
                     da: map<string, Option<Row>>, db: map<string, Option<Row>>, d: string, r: Row)
    requires SameRows(rows, other) && DistinctIds(rows) && DistinctIds(other)
    requires Complete(rows, a, da) && Complete(other, b, db)
    ensures Answers(da, d, r) == Answers(db, d, r)
  {
    SameReported(rows, other, r);
    ViewAt(rows, a, da, d, r);
    ViewAt(other, b, db, d, r);
  }

  lemma SameDevices(rows: seq<Row>, other: seq<Row>, a: map<Key, Row>, b: map<Key, Row>,
                    da: map<string, Option<Row>>, db: map<string, Option<Row>>)
    requires SameRows(rows, other) && Complete(rows, a, da) && Complete(other, b, db)
    ensures da.Keys == db.Keys
  {
    DevicesAreRows(rows, a, da);
    DevicesAreRows(other, b, db);
  }

  lemma SameAnswers(da: map<string, Option<Row>>, db: map<string, Option<Row>>)
    requires da.Keys == db.Keys && forall d, r :: Answers(da, d, r) <==> Answers(db, d, r)
    ensures da == db
  {
    forall d | d in da ensures da[d] == db[d] {
      if da[d].Some? { assert Answers(da, d, da[d].value); }
      if db[d].Some? { assert Answers(db, d, db[d].value); }
    }
  }

  /** A device without an answer is in conflict at its highest sequence. */
  lemma UnreportedIsConflict(rows: seq<Row>, releases: map<Key, Row>, devices: map<string, Option<Row>>, d: string)
      returns (n: int)
    requires Complete(rows, releases, devices) && d in devices && devices[d] == None
    ensures Conflicting(rows, d, n) && forall q | q in rows && q.device == d :: q.sequence <= n
  {
    var all := set k | k in releases :: (k.device, k.sequence);
    n :| Settles(releases, all, devices, d, n);
    var k, l :| k in Candidates(releases, d, n) && l in Candidates(releases, d, n) && k != l;
    PairConflicts(rows, releases, d, n, k, l);
    forall q | q in rows && q.device == d ensures q.sequence <= n {
      assert KeyOf(q) in releases && (q.device, q.sequence) in all;
    }
  }
}
