/** `Split`: the Gear rule and the reading loop around it. */
module Split {
  import opened Common
  import opened Chunker
  import opened Bits
  import Gear

  const MAX_CHUNK_BYTES := 4194304

  datatype Params = Params(min: int, avg: int, max: int) {
    /** The parameters that Split and Verify accept. */
    predicate Legal() {
      64 <= min <= avg <= max <= MAX_CHUNK_BYTES && IsPowerOfTwo(avg)
    }

    /** The cut rule. Its content test is stated in whole numbers. */
    function Rule(g: Gear.Table): (r: Chunker.Rule)
      requires Legal()
    {
      Chunker.Rule(min, max, Log2(avg), s => Gear.Weighted(g, s) % avg == 0)
    }
  }

  /** The cut test looks at 6 to 22 bytes, never more than the shortest chunk. */
  lemma WindowBound(p: Params)
    requires p.Legal()
    ensures 6 <= Log2(p.avg) <= 22
  {
    var k := Log2(p.avg);
    Log2IsInverse(p.avg);
    assert Pow2(5) == 32 && Pow2(11) == 2048 && Pow2(17) == 131072 && Pow2(23) == 8388608;
    if k < 6 { Pow2Grows(k, 5); }
    if k > 22 { Pow2Grows(23, k); }
  }

  /** The Gear rule satisfies the hypotheses of every law in Chunker: in particular
      its content test is decided by the last log2(avg) bytes. */
  lemma GearRuleIsLocal(g: Gear.Table, p: Params)
    requires p.Legal()
    ensures p.Rule(g).Legal() && p.Rule(g).Local()
  {
    WindowBound(p);
    Log2IsInverse(p.avg);
    var r := p.Rule(g);
    forall a: Bytes, w: Bytes | |w| == r.window ensures r.hit(a + w) == r.hit(w) {
      Gear.SumIsLocal(g, a, w);
    }
  }

  /** The cut test as the source makes it, on the length and the rolling word. */
  predicate WordFires(p: Params, n: nat, word: Gear.Word)
    requires p.Legal()
  {
    n >= p.max || (n >= p.min && And(word, p.avg - 1) == 0)
  }

  /** It is the cut test of the rule. */
  lemma TriggerIsWord(g: Gear.Table, p: Params, buf: Bytes)
    requires p.Legal()
    ensures p.Rule(g).Trigger(buf) <==> WordFires(p, |buf|, Gear.Roll(g, buf))
  {
    WindowBound(p);
    Log2IsInverse(p.avg);
    Gear.MaskIsDivisible(g, buf, Log2(p.avg));
  }

  /** It cuts a buffer exactly when the buffer has its full length, or at least the least
      one and the weighted sum of its bytes is a multiple of the average. */
  lemma CutTest(g: Gear.Table, p: Params, buf: Bytes)
    requires p.Legal()
    ensures WordFires(p, |buf|, Gear.Roll(g, buf)) <==>
            |buf| >= p.max ||
            (|buf| >= p.min && Sum(seq(|buf|, i requires 0 <= i < |buf| =>
                g(buf[i]) * Pow2(|buf| - 1 - i))) % p.avg == 0)
  {
    TriggerIsWord(g, p, buf);
    assert Gear.Terms(g, buf) == seq(|buf|, i requires 0 <= i < |buf| => g(buf[i]) * Pow2(|buf| - 1 - i));
  }

  datatype SplitError = InvalidParameters | ReadFailed | EmitFailed

  /** The emit calls of a run in which every emit call succeeds. */
  function Calls(r: Rule, input: Bytes, readFails: bool): (cs: seq<Bytes>) {
    if readFails then r.Scan(input).done else r.Chunks(input)
  }

  /** What is emitted when the input fails: all chunks of what was read but for a rest that
      is shorter than the maximum and holds no chunk. */
  lemma CallsOnError(r: Rule, input: Bytes) returns (rest: Bytes)
    requires r.Legal()
    ensures Flatten(Calls(r, input, true)) + rest == input
    ensures |rest| < r.max && (forall n | 0 < n <= |rest| :: !r.Trigger(rest[..n]))
    ensures forall c | c in Calls(r, input, true) :: IsChunk(r, c)
  {
    ScanCovers(r, input);
    ScanFacts(r, input);
    rest := r.Scan(input).open;
    NothingFires(r, rest);
  }

  lemma NothingFires(r: Rule, rest: Bytes)
    requires r.Legal() && Greedy(r, rest) && (rest != [] ==> !r.Trigger(rest))
    ensures |rest| < r.max && forall n | 0 < n <= |rest| :: !r.Trigger(rest[..n])
  {
    assert rest[..|rest|] == rest;
  }

  /** Where the reading loop stands after i bytes. */
  ghost predicate Reading(g: Gear.Table, p: Params, input: Bytes, i: nat, open: Bytes, calls: seq<Bytes>,
                          rolling: Gear.Word) {
    p.Legal() && i <= |input| && p.Rule(g).Scan(input[..i]) == State(open, calls) && rolling == Gear.Roll(g, open)
  }

  lemma ReadByte(g: Gear.Table, p: Params, input: Bytes, i: nat, open: Bytes, calls: seq<Bytes>, rolling: Gear.Word)
    requires Reading(g, p, input, i, open, calls, rolling) && i < |input|
    ensures var buf, word := open + [input[i]], Gear.Shift(rolling, g(input[i]));
            if p.Rule(g).Trigger(buf) then Reading(g, p, input, i + 1, [], calls + [buf], 0)
            else Reading(g, p, input, i + 1, buf, calls, word)
  {
    ScanLast(p.Rule(g), input, i + 1);
    Gear.RollStep(g, open, input[i]);
  }

  lemma ReadStart(g: Gear.Table, p: Params, input: Bytes)
    requires p.Legal()
    ensures Reading(g, p, input, 0, [], [], 0)
  {
    assert input[..0] == [];
  }

  lemma PushFires(g: Gear.Table, p: Params, open: Bytes, rolling: Gear.Word, b: byte)
    requires p.Legal() && rolling == Gear.Roll(g, open)
    ensures p.Rule(g).Trigger(open + [b]) <==> WordFires(p, |open| + 1, Gear.Shift(rolling, g(b)))
  {
    Gear.RollStep(g, open, b);
    TriggerIsWord(g, p, open + [b]);
  }

  /** One turn of the reading loop on the buffer array. */
  method Push(g: Gear.Table, p: Params, buf: array<byte>, n: nat, rolling: Gear.Word, b: byte)
      returns (n': nat, rolling': Gear.Word, cut: Option<Bytes>)
    requires p.Legal() && n < p.max == buf.Length && rolling == Gear.Roll(g, buf[..n])
    modifies buf
    ensures var open, word := old(buf[..n]) + [b], Gear.Shift(rolling, g(b));
            if p.Rule(g).Trigger(open)
            then cut == Some(open) && n' == 0 && rolling' == 0
            else cut == None && n' == n + 1 < p.max && buf[..n'] == open && rolling' == word
  {
    buf[n] := b;
    n', rolling', cut := n + 1, Gear.Shift(rolling, g(b)), None;
    assert buf[..n'] == old(buf[..n]) + [b];
    PushFires(g, p, old(buf[..n]), rolling, b);
    if WordFires(p, n', rolling') {
      cut := Some(buf[..n']);
      n', rolling' := 0, 0;
    }
  }

  /** The reading loop up to the end of the delivered bytes. The buffer is one array
      of capacity `max`, reused in place and never outgrown. */
  method ReadAll(g: Gear.Table, p: Params, input: Bytes, refuse: Option<nat>)
      returns (calls: seq<Bytes>, tail: Bytes, refused: bool)
    requires p.Legal()
    ensures refused ==> refuse.Some? && refuse.value + 1 == |calls| && calls <= p.Rule(g).Scan(input).done
    ensures !refused ==> p.Rule(g).Scan(input) == State(tail, calls)
    ensures !refused && refuse.Some? ==> |calls| <= refuse.value
  {
    var buf := new byte[p.max];
    var n, rolling: Gear.Word, i := 0, 0, 0;
    ghost var open: Bytes := [];
    calls, refused := [], false;
    ReadStart(g, p, input);
    while i < |input| && !refused
      invariant 0 <= i <= |input| && 0 <= n < p.max && buf[..n] == open
      invariant Reading(g, p, input, i, open, calls, rolling)
      invariant refuse.Some? ==> if refused then |calls| == refuse.value + 1 else |calls| <= refuse.value
      invariant refused ==> refuse.Some?
    {
      ReadByte(g, p, input, i, open, calls, rolling);
      var cut;
      n, rolling, cut := Push(g, p, buf, n, rolling, input[i]);
      open := buf[..n];
      i := i + 1;
      if cut.Some? {
        calls := calls + [cut.value];
        refused := refuse == Some(|calls| - 1);
      }
    }
    ScanSoFar(p.Rule(g), input, i);
    tail := if refused then [] else buf[..n];
  }

  /** Split. `input` is what the reader delivers before it ends or, when `readFails`,
      before it fails; `refuse` is the index of the emit call that fails, if any.
      `calls` are the buffers passed to emit, in order. */
  method Split(g: Gear.Table, p: Params, input: Bytes, readFails: bool, refuse: Option<nat>)
      returns (calls: seq<Bytes>, res: Result<(), SplitError>)
    ensures !p.Legal() ==> calls == [] && res == Err(InvalidParameters)
    ensures p.Legal() ==>
              var all := Calls(p.Rule(g), input, readFails);
              if refuse.Some? && refuse.value < |all|
              then calls == all[..refuse.value + 1] && res == Err(EmitFailed)
              else calls == all && res == if readFails then Err(ReadFailed) else Ok(())
  {
    if p.min < 64 || p.min > p.avg || p.avg > p.max || p.max > MAX_CHUNK_BYTES {
      return [], Err(InvalidParameters);
    }
    MaskTest(p.avg);
    if And(p.avg, p.avg - 1) != 0 {
      return [], Err(InvalidParameters);
    }
    var tail, refused;
    calls, tail, refused := ReadAll(g, p, input, refuse);
    if refused {
      return calls, Err(EmitFailed);
    }
    if readFails {
      return calls, Err(ReadFailed);
    }
    if |tail| > 0 {
      calls := calls + [tail];
      if refuse == Some(|calls| - 1) {
        return calls, Err(EmitFailed);
      }
    }
    return calls, Ok(());
  }
}
