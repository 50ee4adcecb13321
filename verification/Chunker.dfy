/** Content-defined chunking: a buffer is cut as soon as the cut test fires on it,
    and the test starts afresh after every cut. The laws below hold for any content
    test that looks at a fixed window; module Split instantiates them with Gear. */
module Chunker {
  import opened Common

  /** The open buffer and the chunks cut so far. */
  datatype State = State(open: Bytes, done: seq<Bytes>)

  /** The cut rule: length limits and the content test on the bytes of a buffer. */
  datatype Rule = Rule(min: nat, max: nat, window: nat, hit: Bytes -> bool) {
    predicate Legal() {
      1 <= min <= max && window <= min
    }

    predicate Trigger(buf: Bytes) {
      |buf| >= max || (|buf| >= min && hit(buf))
    }

    /** The content test depends on the last `window` bytes only. */
    ghost predicate Local() {
      forall a: Bytes, w: Bytes {:trigger hit(a + w)} :: |w| == window ==> hit(a + w) == hit(w)
    }

    function Feed(st: State, b: byte): (st': State) {
      var buf := st.open + [b];
      if Trigger(buf) then State([], st.done + [buf]) else State(buf, st.done)
    }

    /** The state after reading s from a fresh start. */
    function Scan(s: Bytes): (st: State) {
      if s == [] then State([], []) else Feed(Scan(s[..|s| - 1]), s[|s| - 1])
    }

    /** The chunks of a whole input: the rest of the buffer is flushed at its end. */
    function Chunks(s: Bytes): (cs: seq<Bytes>) {
      Flush(Scan(s))
    }

    /** A cut is made right after the first `pos` bytes of f. */
    predicate CutAt(f: Bytes, pos: nat)
      requires pos <= |f|
    {
      pos > 0 && Scan(f[..pos]).open == []
    }

    /** The window that ends at `pos` passes the content test. */
    predicate Candidate(f: Bytes, pos: nat)
      requires pos <= |f|
    {
      window <= pos && hit(f[pos - window..pos])
    }
  }

  function Flush(st: State): (cs: seq<Bytes>) {
    if st.open == [] then st.done else st.done + [st.open]
  }

  lemma ScanStep(r: Rule, s: Bytes, b: byte)
    ensures r.Scan(s + [b]) == r.Feed(r.Scan(s), b)
  {
    assert (s + [b])[..|s|] == s;
  }

  lemma ScanLast(r: Rule, f: Bytes, pos: nat)
    requires 0 < pos <= |f|
    ensures r.Scan(f[..pos]) == r.Feed(r.Scan(f[..pos - 1]), f[pos - 1])
  {
    assert f[..pos][..pos - 1] == f[..pos - 1];
  }

  // ------------------------------------------------- what a split is, declaratively

  /** No shorter prefix of the buffer fires the cut test. */
  ghost predicate Greedy(r: Rule, c: Bytes) {
    forall n | 0 < n < |c| :: !r.Trigger(c[..n])
  }

  ghost predicate IsChunk(r: Rule, c: Bytes) {
    c != [] && r.Trigger(c) && Greedy(r, c)
  }

  /** The defining property of the chunk list, with no reference to scanning. */
  ghost predicate IsSplit(r: Rule, s: Bytes, cs: seq<Bytes>) {
    && Flatten(cs) == s
    && (forall i | 0 <= i < |cs| :: cs[i] != [] && Greedy(r, cs[i]))
    && (forall i | 0 <= i < |cs| - 1 :: r.Trigger(cs[i]))
  }

  lemma GreedyStep(r: Rule, c: Bytes, b: byte)
    requires Greedy(r, c) && (c != [] ==> !r.Trigger(c))
    ensures Greedy(r, c + [b])
  {
    forall n | 0 < n < |c + [b]| ensures !r.Trigger((c + [b])[..n]) {
      assert (c + [b])[..n] == c[..n];
      assert c[..|c|] == c;
    }
  }

  lemma {:induction false} ScanFacts(r: Rule, s: Bytes)
    ensures forall c | c in r.Scan(s).done :: IsChunk(r, c)
    ensures Greedy(r, r.Scan(s).open)
    ensures r.Scan(s).open != [] ==> !r.Trigger(r.Scan(s).open)
  {
    if s != [] {
      var init, b := s[..|s| - 1], s[|s| - 1];
      ScanFacts(r, init);
      GreedyStep(r, r.Scan(init).open, b);
    }
  }

  lemma {:induction false} ScanCovers(r: Rule, s: Bytes)
    ensures Flatten(r.Scan(s).done) + r.Scan(s).open == s
  {
    if s != [] {
      var init, b := s[..|s| - 1], s[|s| - 1];
      ScanCovers(r, init);
      var st := r.Scan(init);
      FlattenSnoc(st.done, st.open + [b]);
      assert init + [b] == s;
      assert Flatten(st.done) + (st.open + [b]) == s;
    }
  }

  /** Chunks satisfies the defining property. */
  lemma ChunksIsSplit(r: Rule, s: Bytes)
    ensures IsSplit(r, s, r.Chunks(s))
  {
    ScanCovers(r, s);
    ScanFacts(r, s);
    var st := r.Scan(s);
    FlattenSnoc(st.done, st.open);
    assert forall i | 0 <= i < |st.done| :: IsChunk(r, st.done[i]);
  }

  /** Bounds: no chunk is empty or over the maximum; only the last may be short. */
  lemma ChunkBounds(r: Rule, s: Bytes, i: nat)
    requires r.Legal() && i < |r.Chunks(s)|
    ensures 1 <= |r.Chunks(s)[i]| <= r.max
    ensures i < |r.Chunks(s)| - 1 ==> r.min <= |r.Chunks(s)[i]|
  {
    ChunksIsSplit(r, s);
    var c := r.Chunks(s)[i];
    assert |c| > r.max ==> !r.Trigger(c[..r.max]);
  }

  // ------------------------------------------------------------------ restart law

  /** After a cut the chunker behaves as on a fresh input. */
  lemma {:induction false} Restart(r: Rule, a: Bytes, t: Bytes)
    requires r.Scan(a).open == []
    ensures r.Scan(a + t).open == r.Scan(t).open
    ensures r.Scan(a + t).done == r.Scan(a).done + r.Scan(t).done
  {
    if t == [] {
      assert a + t == a;
    } else {
      var init, b := t[..|t| - 1], t[|t| - 1];
      Restart(r, a, init);
      assert (a + init) + [b] == a + t;
      ScanStep(r, a + init, b);
    }
  }

  lemma RestartChunks(r: Rule, a: Bytes, t: Bytes)
    requires r.Scan(a).open == []
    ensures r.Chunks(a + t) == r.Scan(a).done + r.Chunks(t)
  {
    Restart(r, a, t);
  }

  /** What is cut while reading a prefix is cut for every continuation. */
  lemma {:induction false} DoneGrows(r: Rule, a: Bytes, t: Bytes)
    ensures r.Scan(a).done <= r.Scan(a + t).done
  {
    if t == [] {
      assert a + t == a;
    } else {
      var init, b := t[..|t| - 1], t[|t| - 1];
      DoneGrows(r, a, init);
      assert (a + init) + [b] == a + t;
      ScanStep(r, a + init, b);
    }
  }

  /** What reading i bytes says about the whole input. */
  lemma ScanSoFar(r: Rule, s: Bytes, i: nat)
    requires i <= |s|
    ensures r.Scan(s[..i]).done <= r.Scan(s).done
    ensures i == |s| ==> r.Scan(s[..i]) == r.Scan(s)
  {
    DoneGrows(r, s[..i], s[i..]);
    assert s[..i] + s[i..] == s && (i == |s| ==> s[..i] == s);
  }

  /** A buffer with no firing prefix stays open until it fires itself. */
  lemma {:induction false} FirstChunk(r: Rule, c: Bytes)
    requires Greedy(r, c) && c != []
    ensures r.Scan(c) == if r.Trigger(c) then State([], [c]) else State(c, [])
  {
    var init, b := c[..|c| - 1], c[|c| - 1];
    assert init + [b] == c;
    if init != [] {
      assert forall n | 0 < n < |init| :: init[..n] == c[..n];
      FirstChunk(r, init);
      assert !r.Trigger(c[..|init|]);
    }
  }

  /** The defining property has one solution: Chunks. */
  lemma {:induction false} SplitIsUnique(r: Rule, s: Bytes, cs: seq<Bytes>)
    requires IsSplit(r, s, cs)
    ensures cs == r.Chunks(s)
    decreases |cs|
  {
    if cs != [] {
      var c, rest := cs[0], cs[1..];
      assert cs == [c] + rest;
      FlattenAppend([c], rest);
      FlattenOne(c);
      FirstChunk(r, c);
      if rest != [] {
        assert r.Trigger(cs[0]);
        assert forall i | 0 <= i < |rest| :: rest[i] == cs[i + 1];
        SplitIsUnique(r, Flatten(rest), rest);
        RestartChunks(r, c, Flatten(rest));
      }
    }
  }

  // ------------------------------------------------------------------- delta laws

  /** The length of the open buffer after the first `pos` bytes. */
  function OpenAt(r: Rule, f: Bytes, pos: nat): (n: nat)
    requires pos <= |f|
  {
    |r.Scan(f[..pos]).open|
  }

  lemma OpenIsSuffix(r: Rule, f: Bytes, pos: nat)
    requires pos <= |f|
    ensures OpenAt(r, f, pos) <= pos
    ensures r.Scan(f[..pos]).open == f[pos - OpenAt(r, f, pos)..pos]
  {
    ScanCovers(r, f[..pos]);
    var st := r.Scan(f[..pos]);
    assert f[pos - |st.open|..pos] == f[..pos][pos - |st.open|..];
  }

  /** The distance from the last cut and the candidate window at `pos` decide
      whether there is a cut at `pos`. */
  lemma CutByWindow(r: Rule, f: Bytes, pos: nat)
    requires r.Legal() && r.Local() && 0 < pos <= |f|
    ensures var n := OpenAt(r, f, pos - 1) + 1;
            && r.CutAt(f, pos) == (n >= r.max || (n >= r.min && r.Candidate(f, pos)))
            && OpenAt(r, f, pos) == if r.CutAt(f, pos) then 0 else n
  {
    OpenIsSuffix(r, f, pos - 1);
    ScanLast(r, f, pos);
    var n, before := OpenAt(r, f, pos - 1) + 1, r.Scan(f[..pos - 1]).open;
    assert before + [f[pos - 1]] == f[pos - n..pos];
    if n >= r.min {
      HitByWindow(r, f, pos, n);
    }
  }

  lemma HitByWindow(r: Rule, f: Bytes, pos: nat, n: nat)
    requires r.Local() && r.window <= n <= pos <= |f|
    ensures r.hit(f[pos - n..pos]) == r.Candidate(f, pos)
  {
    assert f[pos - n..pos] == f[pos - n..pos - r.window] + f[pos - r.window..pos];
  }

  /** Two consecutive candidates whose distance is between `min` and `max - min`. */
  ghost predicate SyncPair(r: Rule, f: Bytes, c1: nat, c2: nat) {
    && c1 < c2 <= |f|
    && r.Candidate(f, c1) && r.Candidate(f, c2)
    && (forall j | c1 < j < c2 :: !r.Candidate(f, j))
    && r.min <= c2 - c1 <= r.max - r.min
  }

  lemma {:induction false} QuietStretch(r: Rule, f: Bytes, c1: nat, j: nat)
    requires r.Legal() && r.Local() && c1 <= j <= |f|
    requires forall i | c1 < i <= j :: !r.Candidate(f, i)
    requires OpenAt(r, f, c1) + j - c1 < r.max
    ensures OpenAt(r, f, j) == OpenAt(r, f, c1) + j - c1
  {
    if c1 < j {
      QuietStretch(r, f, c1, j - 1);
      CutByWindow(r, f, j);
    }
  }

  /** Whatever was cut before, there is a cut at the end of a synchronising pair. */
  lemma SyncPairCuts(r: Rule, f: Bytes, c1: nat, c2: nat)
    requires r.Legal() && r.Local() && SyncPair(r, f, c1, c2)
    ensures r.CutAt(f, c2)
  {
    if c1 > 0 {
      CutByWindow(r, f, c1);
    }
    QuietStretch(r, f, c1, c2 - 1);
    CutByWindow(r, f, c2);
  }

  /** Candidates inside a shared suffix are the same in every file that ends in it. */
  lemma CandidateInSuffix(r: Rule, a: Bytes, s: Bytes, j: nat)
    requires r.window <= j <= |s|
    ensures r.Candidate(a + s, |a| + j) == r.Candidate(s, j)
  {
    assert (a + s)[|a| + j - r.window..|a| + j] == s[j - r.window..j];
  }

  /** Cuts up to the end of a shared prefix are the same. */
  lemma CutsInPrefix(r: Rule, p: Bytes, x: Bytes, y: Bytes, pos: nat)
    requires pos <= |p|
    ensures r.CutAt(p + x, pos) == r.CutAt(p + y, pos)
  {
    assert (p + x)[..pos] == p[..pos] == (p + y)[..pos];
  }

  /** Once two files with the same suffix are cut at the same place inside it, every
      later cut and every later chunk is the same. */
  lemma CommonCut(r: Rule, a: Bytes, b: Bytes, s: Bytes, i: nat, j: nat)
    requires i < j <= |s|
    requires r.CutAt(a + s, |a| + i) && r.CutAt(b + s, |b| + i)
    ensures r.CutAt(a + s, |a| + j) == r.CutAt(b + s, |b| + j)
    ensures r.Chunks(a + s) == r.Scan(a + s[..i]).done + r.Chunks(s[i..])
    ensures r.Chunks(b + s) == r.Scan(b + s[..i]).done + r.Chunks(s[i..])
  {
    CutAfterCut(r, a, s, i, j);
    CutAfterCut(r, b, s, i, j);
    ChunksAfterCut(r, a, s, i);
    ChunksAfterCut(r, b, s, i);
  }

  lemma CutAfterCut(r: Rule, a: Bytes, s: Bytes, i: nat, j: nat)
    requires i < j <= |s| && r.CutAt(a + s, |a| + i)
    ensures r.CutAt(a + s, |a| + j) == r.CutAt(s[i..], j - i)
  {
    assert (a + s)[..|a| + i] == a + s[..i];
    assert (a + s)[..|a| + j] == (a + s[..i]) + s[i..][..j - i];
    Restart(r, a + s[..i], s[i..][..j - i]);
  }

  lemma ChunksAfterCut(r: Rule, a: Bytes, s: Bytes, i: nat)
    requires i <= |s| && r.CutAt(a + s, |a| + i)
    ensures r.Chunks(a + s) == r.Scan(a + s[..i]).done + r.Chunks(s[i..])
  {
    assert (a + s)[..|a| + i] == a + s[..i];
    assert a + s == (a + s[..i]) + s[i..];
    RestartChunks(r, a + s[..i], s[i..]);
  }

  /** The delta law. Replace x by y between a shared prefix p and a shared suffix s
      that holds a synchronising pair ending at j. Then both chunk lists are
      head + middle + tail with the same head and tail, and the middle of each file
      covers less than `max` bytes of p, the replaced bytes, and j bytes of s. */
  lemma Delta(r: Rule, p: Bytes, x: Bytes, y: Bytes, s: Bytes, i: nat, j: nat)
      returns (head: seq<Bytes>, midX: seq<Bytes>, midY: seq<Bytes>, tail: seq<Bytes>)
    requires r.Legal() && r.Local() && SyncPair(r, s, i, j)
    ensures r.Chunks(p + x + s) == head + midX + tail
    ensures r.Chunks(p + y + s) == head + midY + tail
    ensures |Flatten(midX)| < r.max + |x| + j
    ensures |Flatten(midY)| < r.max + |y| + j
    ensures Flatten(head) + r.Scan(p).open == p && |r.Scan(p).open| < r.max
    ensures tail == r.Chunks(s[j..])
  {
    head, tail := r.Scan(p).done, r.Chunks(s[j..]);
    midX := OneMiddle(r, p, x, s, i, j);
    midY := OneMiddle(r, p, y, s, i, j);
    ScanFacts(r, p);
    ScanCovers(r, p);
  }

  lemma PairInSuffix(r: Rule, a: Bytes, s: Bytes, i: nat, j: nat)
    requires SyncPair(r, s, i, j)
    ensures SyncPair(r, a + s, |a| + i, |a| + j)
  {
    forall n | |a| + i <= n <= |a| + j ensures r.Candidate(a + s, n) == r.Candidate(s, n - |a|) {
      CandidateInSuffix(r, a, s, n - |a|);
    }
  }

  lemma OneMiddle(r: Rule, p: Bytes, x: Bytes, s: Bytes, i: nat, j: nat) returns (mid: seq<Bytes>)
    requires r.Legal() && r.Local() && SyncPair(r, s, i, j)
    ensures r.Chunks(p + x + s) == r.Scan(p).done + mid + r.Chunks(s[j..])
    ensures |Flatten(mid)| == |r.Scan(p).open| + |x| + j
  {
    var a := p + x;
    PairInSuffix(r, a, s, i, j);
    SyncPairCuts(r, a + s, |a| + i, |a| + j);
    ChunksAfterCut(r, a, s, j);
    var whole := a + s[..j];
    assert whole == p + (x + s[..j]) && whole == (a + s)[..|a| + j];
    DoneGrows(r, p, x + s[..j]);
    mid := r.Scan(whole).done[|r.Scan(p).done|..];
    MiddleLength(r, p, whole, mid);
  }

  lemma MiddleLength(r: Rule, p: Bytes, whole: Bytes, mid: seq<Bytes>)
    requires r.Scan(whole).open == [] && r.Scan(whole).done == r.Scan(p).done + mid
    ensures |Flatten(mid)| == |whole| - |p| + |r.Scan(p).open|
  {
    FlattenAppend(r.Scan(p).done, mid);
    ScanCovers(r, p);
    ScanCovers(r, whole);
  }
}
