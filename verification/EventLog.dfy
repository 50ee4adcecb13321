/** The size-capped event log: a current and a previous generation of JSON lines, which
    an interrupted append may leave torn; sequence recovery on open, and the cursor query. */
module EventLog {
  import opened Common

  const TAIL_BYTES := 65536
  const MAX_LINE := 1048576

  datatype Event = Event(seqno: int, body: string)

  /** A line: its length with the newline, and its event if it parses. */
  datatype Line = Line(ev: Option<Event>, len: nat)

  /** Terminated lines, then the bytes an interrupted append left behind them. Those parse
      only if nothing but the newline is missing. */
  datatype File = File(lines: seq<Line>, torn: Line)

  const NO_FILE := File([], Line(None, 0))

  predicate Whole(f: File) {
    f.torn.len == 0
  }

  predicate Sound(f: File) {
    Whole(f) ==> f.torn.ev == None
  }

  function Len(lines: seq<Line>): (n: nat) {
    if lines == [] then 0 else Len(lines[..|lines| - 1]) + lines[|lines| - 1].len
  }

  function Size(f: File): (n: nat) {
    Len(f.lines) + f.torn.len
  }

  function Events(lines: seq<Line>): (evs: seq<Event>) {
    if lines == [] then []
    else
      var last := lines[|lines| - 1];
      Events(lines[..|lines| - 1]) + if last.ev.Some? then [last.ev.value] else []
  }

  /** The lines a reader sees: the torn bytes are one more line, ended by the end of the
      file in place of a newline. */
  function Read(f: File): (lines: seq<Line>) {
    f.lines + if Whole(f) then [] else [Line(f.torn.ev, f.torn.len + 1)]
  }

  lemma {:induction false} EventsAppend(a: seq<Line>, b: seq<Line>)
    ensures Events(a + b) == Events(a) + Events(b)
  {
    if b == [] {
      assert a + b == a;
    } else {
      assert (a + b)[..|a + b| - 1] == a + b[..|b| - 1];
      EventsAppend(a, b[..|b| - 1]);
    }
  }

  lemma EventsSnoc(lines: seq<Line>, l: Line)
    ensures Events(lines + [l]) == Events(lines) + if l.ev.Some? then [l.ev.value] else []
    ensures Len(lines + [l]) == Len(lines) + l.len
  {
    assert (lines + [l])[..|lines|] == lines;
  }

  function Only(ev: Option<Event>): (evs: seq<Event>) {
    if ev.Some? then [ev.value] else []
  }

  lemma ReadEvents(f: File)
    requires Sound(f)
    ensures Events(Read(f)) == Events(f.lines) + Only(f.torn.ev)
  {
    if Whole(f) {
      assert Read(f) == f.lines;
    } else {
      EventsSnoc(f.lines, Line(f.torn.ev, f.torn.len + 1));
    }
  }

  /** The first n of the len bytes of a record reach the file. Behind torn bytes they share
      a line with them, which does not parse. */
  function Put(f: File, ev: Event, len: nat, n: nat): (f': File)
    requires n <= len
  {
    if n == 0 then f
    else if n == len then File(f.lines + [Line(if Whole(f) then Some(ev) else None, f.torn.len + len)], Line(None, 0))
    else File(f.lines, Line(if Whole(f) && n == len - 1 then Some(ev) else None, f.torn.len + n))
  }

  /** What can be read after a write: a whole record behind whole lines is added; behind a
      torn record it is lost, and so is the torn record. */
  lemma PutEvents(f: File, ev: Event, len: nat, n: nat)
    requires Sound(f) && 0 < n <= len
    ensures Sound(Put(f, ev, len, n)) && Size(Put(f, ev, len, n)) == Size(f) + n
    ensures Events(Read(Put(f, ev, len, n))) == Events(f.lines) + if Whole(f) && n >= len - 1 then [ev] else []
  {
    ReadEvents(Put(f, ev, len, n));
    EventsSnoc(f.lines, Line(if Whole(f) then Some(ev) else None, f.torn.len + len));
  }

  // ---------------------------------------------------------- ranges of sequences

  ghost predicate Ascending(evs: seq<Event>) {
    (forall i | 0 <= i < |evs| :: evs[i].seqno > 0) && forall i, j | 0 <= i < j < |evs| :: evs[i].seqno < evs[j].seqno
  }

  /** One range of sequences without a gap. */
  ghost predicate Consecutive(evs: seq<Event>) {
    forall i | 0 <= i < |evs| :: evs[i].seqno == evs[0].seqno + i > 0
  }

  function First(evs: seq<Event>): (n: int) {
    if evs == [] then 0 else evs[0].seqno
  }

  function Last(evs: seq<Event>): (n: int) {
    if evs == [] then 0 else evs[|evs| - 1].seqno
  }

  /** The events are one range that ends at this sequence. */
  ghost predicate EndsAt(evs: seq<Event>, last: int) {
    Consecutive(evs) && Last(evs) == last
  }

  lemma ConsecutiveParts(a: seq<Event>, b: seq<Event>)
    requires Consecutive(a + b)
    ensures Consecutive(a) && Consecutive(b) && (b != [] ==> Last(b) == Last(a + b))
    ensures a != [] && b != [] ==> Last(a) < Last(b)
  {
    var all := a + b;
    assert forall i | 0 <= i < |a| :: a[i] == all[i];
    assert forall i | 0 <= i < |b| :: b[i] == all[|a| + i];
    assert b != [] ==> b[0] == all[|a|];
  }

  lemma ConsecutiveSnoc(evs: seq<Event>, ev: Event)
    requires Consecutive(evs) && ev.seqno > 0 && (evs == [] || ev.seqno == Last(evs) + 1)
    ensures EndsAt(evs + [ev], ev.seqno)
  {
    var all := evs + [ev];
    assert forall i | 0 <= i < |evs| :: all[i] == evs[i];
  }

  lemma ConsecutiveAscends(evs: seq<Event>)
    requires Consecutive(evs)
    ensures Ascending(evs)
  {
  }

  lemma AscendingParts(a: seq<Event>, b: seq<Event>)
    requires Ascending(a + b)
    ensures Ascending(a) && Ascending(b) && (b != [] ==> Last(b) == Last(a + b) > 0) && Last(a) <= Last(a + b)
    ensures b == [] ==> Last(a) == Last(a + b)
  {
    var all := a + b;
    assert forall i | 0 <= i < |a| :: a[i] == all[i];
    assert forall i | 0 <= i < |b| :: b[i] == all[|a| + i];
  }

  lemma AscendingSnoc(evs: seq<Event>, ev: Event)
    requires Ascending(evs) && Last(evs) < ev.seqno && ev.seqno > 0
    ensures Ascending(evs + [ev]) && Last(evs + [ev]) == ev.seqno
  {
    var all := evs + [ev];
    assert forall i | 0 <= i < |evs| :: all[i] == evs[i] && evs[i].seqno <= evs[|evs| - 1].seqno;
  }

  // ------------------------------------------------------------------ recovery

  /** Where the lines begin that lie wholly within the last n bytes. */
  function TailStart(lines: seq<Line>, n: int): (k: nat)
    ensures k <= |lines|
  {
    if lines == [] || lines[|lines| - 1].len > n then |lines|
    else TailStart(lines[..|lines| - 1], n - lines[|lines| - 1].len)
  }

  /** What recovery looks at: the lines within the last TAIL_BYTES of a file. */
  function TailLines(f: File): (r: seq<Line>) {
    Read(f)[TailStart(Read(f), if Whole(f) then TAIL_BYTES else TAIL_BYTES + 1)..]
  }

  lemma EventsSplit(lines: seq<Line>, k: nat)
    requires k <= |lines|
    ensures Events(lines) == Events(lines[..k]) + Events(lines[k..])
  {
    EventsAppend(lines[..k], lines[k..]);
    assert lines[..k] + lines[k..] == lines;
  }

  lemma TailIsSuffix(f: File) returns (pre: seq<Event>)
    ensures Events(Read(f)) == pre + Events(TailLines(f))
  {
    var k := TailStart(Read(f), if Whole(f) then TAIL_BYTES else TAIL_BYTES + 1);
    EventsSplit(Read(f), k);
    pre := Events(Read(f)[..k]);
  }

  function Largest(evs: seq<Event>): (n: int) {
    if evs == [] then 0
    else
      var n := Largest(evs[..|evs| - 1]);
      if evs[|evs| - 1].seqno > n then evs[|evs| - 1].seqno else n
  }

  lemma {:induction false} LargestIs(evs: seq<Event>)
    ensures Largest(evs) >= 0 && forall e | e in evs :: e.seqno <= Largest(evs)
    ensures Largest(evs) > 0 ==> exists e | e in evs :: e.seqno == Largest(evs)
  {
    if evs != [] {
      var init, last := evs[..|evs| - 1], evs[|evs| - 1];
      LargestIs(init);
      assert init + [last] == evs && last in evs;
      if Largest(init) > 0 {
        var e :| e in init && e.seqno == Largest(init);
        assert e in evs;
      }
    }
  }

  /** The largest of ascending sequences is the last. */
  lemma LargestIsLast(evs: seq<Event>)
    requires Ascending(evs)
    ensures Largest(evs) == Last(evs)
  {
    LargestIs(evs);
    if evs != [] {
      assert evs[|evs| - 1] in evs;
    }
  }

  /** The scan of lastSeq: the largest sequence among the records, 0 without any. */
  method LargestSeq(tail: seq<Line>) returns (seqno: int)
    ensures seqno == Largest(Events(tail))
    ensures seqno >= 0 && forall e | e in Events(tail) :: e.seqno <= seqno
    ensures seqno > 0 ==> exists e | e in Events(tail) :: e.seqno == seqno
  {
    seqno := 0;
    for i := 0 to |tail|
      invariant seqno == Largest(Events(tail[..i]))
    {
      EventsSnoc(tail[..i], tail[i]);
      assert tail[..i] + [tail[i]] == tail[..i + 1];
      if tail[i].ev.Some? {
        assert Events(tail[..i + 1])[..|Events(tail[..i])|] == Events(tail[..i]);
        if tail[i].ev.value.seqno > seqno {
          seqno := tail[i].ev.value.seqno;
        }
      } else {
        assert Events(tail[..i + 1]) == Events(tail[..i]);
      }
    }
    assert tail[..|tail|] == tail;
    LargestIs(Events(tail));
  }

  // ------------------------------------------------------------------- the log

  /** Both generations, the size kept for the current one, and the last sequence. */
  datatype State = State(previous: File, current: File, size: int, seqno: int)

  const START := State(NO_FILE, NO_FILE, 0, 0)

  /** How an append ends: durable; short of n bytes, with an error or by a crash; or
      complete, with an error from the sync or a crash before it. */
  datatype Fate = Durable | Short(n: nat) | Unsynced

  predicate SoundState(s: State) {
    Sound(s.previous) && Sound(s.current) && s.seqno >= 0
  }

  ghost function Retained(s: State): (evs: seq<Event>) {
    Events(Read(s.previous)) + Events(Read(s.current))
  }

  predicate Full(s: State, maxBytes: int) {
    s.size >= maxBytes
  }

  function Rotated(s: State): (s': State) {
    State(s.current, NO_FILE, 0, s.seqno)
  }

  /** Where the record goes: rotation comes first. */
  function Opened(s: State, maxBytes: int): (s': State) {
    if Full(s, maxBytes) then Rotated(s) else s
  }

  predicate Possible(len: nat, fate: Fate) {
    len > 0 && (fate.Short? ==> fate.n < len)
  }

  function Emitted(s: State, maxBytes: int, body: string, len: nat, fate: Fate): (s': State)
    requires Possible(len, fate)
  {
    var o := Opened(s, maxBytes);
    var ev := Event(o.seqno + 1, body);
    match fate
    case Durable => o.(current := Put(o.current, ev, len, len), size := o.size + len, seqno := o.seqno + 1)
    case Short(n) => o.(current := Put(o.current, ev, len, n))
    case Unsynced => o.(current := Put(o.current, ev, len, len), seqno := o.seqno + 1)
  }

  function Reopened(s: State, maxBytes: int): (s': State) {
    Opened(s.(size := Size(s.current), seqno := Largest(Events(TailLines(s.current)))), maxBytes)
  }

  // ----------------------------------------------------- what an append retains

  lemma RotatedRetains(s: State)
    ensures Retained(Rotated(s)) == Events(Read(s.current))
  {
    assert Read(NO_FILE) == [];
  }

  /** Rotation drops the older part of the range. */
  lemma OpenedRetains(s: State, maxBytes: int)
    requires Consecutive(Retained(s)) && SoundState(s)
    ensures var o := Opened(s, maxBytes);
            && SoundState(o) && o.seqno == s.seqno && Consecutive(Retained(o))
            && (Retained(o) == [] || Last(Retained(o)) == Last(Retained(s)))
  {
    ConsecutiveParts(Events(Read(s.previous)), Events(Read(s.current)));
    RotatedRetains(s);
  }

  /** The retained events after writing n bytes of a record to the current file. */
  lemma PutRetains(o: State, ev: Event, len: nat, n: nat)
    requires SoundState(o) && 0 < n <= len
    ensures var o' := o.(current := Put(o.current, ev, len, n));
            && SoundState(o')
            && (Whole(o.current) && n >= len - 1 ==> Retained(o') == Retained(o) + [ev])
            && (Whole(o.current) && n < len - 1 ==> Retained(o') == Retained(o))
            && (!Whole(o.current) ==> Retained(o) == Retained(o') + Only(o.current.torn.ev))
  {
    PutEvents(o.current, ev, len, n);
    ReadEvents(o.current);
    var a, b := Events(Read(o.previous)), Events(o.current.lines);
    Regroup(a, b, [ev]);
    Regroup(a, b, Only(o.current.torn.ev));
  }

  lemma Regroup(a: seq<Event>, b: seq<Event>, c: seq<Event>)
    ensures a + (b + c) == (a + b) + c && b + [] == b
  {
  }

  /** A successful append leaves the retained events one range that ends at the sequence
      it handed out exactly when it was written behind whole lines: the generation was
      just rotated, or holds no torn record. */
  lemma EmitContiguous(s: State, maxBytes: int, body: string, len: nat)
    requires SoundState(s) && EndsAt(Retained(s), s.seqno) && len > 0
    ensures var s' := Emitted(s, maxBytes, body, len, Durable);
            && SoundState(s') && s'.seqno == s.seqno + 1
            && (Full(s, maxBytes) ==> Retained(s') == Events(Read(s.current)) + [Event(s.seqno + 1, body)])
            && (!Full(s, maxBytes) && Whole(s.current) ==> Retained(s') == Retained(s) + [Event(s.seqno + 1, body)])
            && (EndsAt(Retained(s'), s'.seqno) <==> Full(s, maxBytes) || Whole(s.current))
  {
    var o, s' := Opened(s, maxBytes), Emitted(s, maxBytes, body, len, Durable);
    var ev := Event(s.seqno + 1, body);
    OpenedRetains(s, maxBytes);
    PutRetains(o, ev, len, len);
    SameRetained(o.(current := Put(o.current, ev, len, len)), s');
    RotatedRetains(s);
    AppendRange(Retained(o), Retained(s'), ev, Only(o.current.torn.ev), Whole(o.current));
  }

  /** A range is extended to its next sequence, or loses what was torn and is not. */
  lemma AppendRange(before: seq<Event>, now: seq<Event>, ev: Event, lost: seq<Event>, whole: bool)
    requires Consecutive(before) && ev.seqno > 0 && (before == [] || ev.seqno == Last(before) + 1)
    requires if whole then now == before + [ev] else before == now + lost
    ensures Consecutive(now) && (EndsAt(now, ev.seqno) <==> whole)
  {
    if whole {
      ConsecutiveSnoc(before, ev);
    } else {
      LastOfPrefix(now, lost);
    }
  }

  lemma SameRetained(s: State, s': State)
    requires s.previous == s'.previous && s.current == s'.current
    ensures Retained(s) == Retained(s')
  {
  }

  lemma LastOfPrefix(a: seq<Event>, b: seq<Event>)
    requires Consecutive(a + b)
    ensures Consecutive(a) && Last(a) <= Last(a + b)
  {
    ConsecutiveParts(a, b);
    if b == [] {
      assert a + b == a;
    } else {
      assert (a + b)[|a + b| - 1].seqno > 0;
    }
  }

  lemma EmittedIsSound(s: State, maxBytes: int, body: string, len: nat, fate: Fate)
    requires SoundState(s) && Possible(len, fate)
    ensures SoundState(Emitted(s, maxBytes, body, len, fate))
  {
  }

  lemma PutConsecutive(o: State, ev: Event, len: nat, n: nat)
    requires SoundState(o) && Consecutive(Retained(o)) && 0 < n <= len
    requires ev.seqno > 0 && (Retained(o) == [] || ev.seqno == Last(Retained(o)) + 1)
    ensures Consecutive(Retained(o.(current := Put(o.current, ev, len, n))))
  {
    var now := Retained(o.(current := Put(o.current, ev, len, n)));
    PutRetains(o, ev, len, n);
    if !(Whole(o.current) && n < len - 1) {
      AppendRange(Retained(o), now, ev, Only(o.current.torn.ev), Whole(o.current));
    }
  }

  /** However an append ends, no gap opens before what is retained. */
  lemma EmitConsecutive(s: State, maxBytes: int, body: string, len: nat, fate: Fate)
    requires SoundState(s) && EndsAt(Retained(s), s.seqno) && Possible(len, fate)
    ensures var s' := Emitted(s, maxBytes, body, len, fate);
            SoundState(s') && Consecutive(Retained(s'))
  {
    OpenedRetains(s, maxBytes);
    EmittedIsSound(s, maxBytes, body, len, fate);
    var n := EmittedFiles(s, maxBytes, body, len, fate);
    if n > 0 { PutConsecutive(Opened(s, maxBytes), Event(s.seqno + 1, body), len, n); }
  }

  /** The files after an append are those after some of its bytes. */
  lemma EmittedFiles(s: State, maxBytes: int, body: string, len: nat, fate: Fate) returns (n: nat)
    requires Possible(len, fate)
    ensures n <= len
    ensures var o := Opened(s, maxBytes);
            Retained(Emitted(s, maxBytes, body, len, fate)) ==
            Retained(o.(current := Put(o.current, Event(s.seqno + 1, body), len, n)))
    ensures n == 0 ==> Retained(Emitted(s, maxBytes, body, len, fate)) == Retained(Opened(s, maxBytes))
  {
    n := if fate.Short? then fate.n else len;
  }

  /** How many bytes of a record of this length reach the file. */
  function Written(len: nat, fate: Fate): (n: nat) {
    if fate.Short? then fate.n else len
  }

  /** What an append has to find to leave the retained events a range that ends at the
      last sequence. A complete record needs whole lines to go behind. A short one, whose
      sequence is taken back, must not complete a line by itself, nor cut off a complete
      one, and the rotation before it must leave an event. */
  ghost predicate KeepsRange(s: State, maxBytes: int, len: nat, fate: Fate) {
    if !fate.Short? then Full(s, maxBytes) || Whole(s.current)
    else
      && (Full(s, maxBytes) ==> Events(Read(s.current)) != [] || s.seqno == 0)
      && (fate.n > 0 ==> if Full(s, maxBytes) || Whole(s.current) then fate.n < len - 1 else s.current.torn.ev == None)
  }

  /** An append, whether it succeeds or the process goes on after its failure, keeps the
      range exactly then. */
  lemma EmitExact(s: State, maxBytes: int, body: string, len: nat, fate: Fate)
    requires SoundState(s) && EndsAt(Retained(s), s.seqno) && Possible(len, fate)
    ensures var s' := Emitted(s, maxBytes, body, len, fate);
            EndsAt(Retained(s'), s'.seqno) <==> KeepsRange(s, maxBytes, len, fate)
  {
    if fate.Short? {
      ShortExact(s, maxBytes, body, len, fate.n);
    } else {
      EmitContiguous(s, maxBytes, body, len);
      SameRetained(Emitted(s, maxBytes, body, len, Durable), Emitted(s, maxBytes, body, len, fate));
    }
  }

  lemma ShortExact(s: State, maxBytes: int, body: string, len: nat, n: nat)
    requires SoundState(s) && EndsAt(Retained(s), s.seqno) && n < len
    ensures EndsAt(Retained(Emitted(s, maxBytes, body, len, Short(n))), s.seqno) <==>
            KeepsRange(s, maxBytes, len, Short(n))
  {
    OpenedRetains(s, maxBytes);
    OpenedRange(s, maxBytes);
    ShortPut(Opened(s, maxBytes), Event(s.seqno + 1, body), len, n);
    EmittedIs(s, maxBytes, body, len, Short(n));
  }

  lemma OpenedRange(s: State, maxBytes: int)
    requires SoundState(s) && EndsAt(Retained(s), s.seqno)
    ensures EndsAt(Retained(Opened(s, maxBytes)), s.seqno) <==>
            (Full(s, maxBytes) ==> Events(Read(s.current)) != [] || s.seqno == 0)
  {
    OpenedRetains(s, maxBytes);
    RotatedRetains(s);
  }

  lemma ShortPut(o: State, ev: Event, len: nat, n: nat)
    requires SoundState(o) && Consecutive(Retained(o)) && n < len
    requires ev.seqno > 0 && (Retained(o) == [] || ev.seqno == Last(Retained(o)) + 1)
    ensures var kept := n == 0 || if Whole(o.current) then n < len - 1 else o.current.torn.ev == None;
            EndsAt(Retained(o.(current := Put(o.current, ev, len, n))), ev.seqno - 1) <==>
            kept && EndsAt(Retained(o), ev.seqno - 1)
  {
    var now := Retained(o.(current := Put(o.current, ev, len, n)));
    if n > 0 {
      PutRetains(o, ev, len, n);
      ShortRange(Retained(o), now, ev, Only(o.current.torn.ev), Whole(o.current), n >= len - 1);
    }
  }

  /** An append puts bytes into the opened file and moves the two counters. */
  lemma EmittedIs(s: State, maxBytes: int, body: string, len: nat, fate: Fate)
    requires Possible(len, fate)
    ensures var o, s' := Opened(s, maxBytes), Emitted(s, maxBytes, body, len, fate);
            && s'.previous == o.previous && s'.current == Put(o.current, Event(s.seqno + 1, body), len,
               Written(len, fate))
            && s'.seqno == (if fate.Short? then s.seqno else s.seqno + 1)
            && s'.size == (if fate == Durable then o.size + len else o.size)
  {
  }

  /** A short record leaves a range alone, extends it too far, or cuts its end off. */
  lemma ShortRange(before: seq<Event>, now: seq<Event>, ev: Event, lost: seq<Event>, whole: bool, complete: bool)
    requires Consecutive(before) && ev.seqno > 0 && (before == [] || ev.seqno == Last(before) + 1)
    requires if whole then now == (if complete then before + [ev] else before) else before == now + lost
    ensures var kept := if whole then !complete else lost == [];
            EndsAt(now, ev.seqno - 1) <==> kept && EndsAt(before, ev.seqno - 1)
  {
    if !whole {
      if lost == [] {
        assert now + lost == now;
      } else {
        ConsecutiveParts(now, lost);
        assert before[|before| - 1].seqno > 0;
      }
    }
  }

  // ------------------------------------------------------------------- restarts

  /** Recovery has something to go by. */
  ghost predicate Recoverable(s: State) {
    Retained(s) == [] || Events(TailLines(s.current)) != []
  }

  /** A restart: the sequence goes on from the last retained one exactly when the tail of
      the current file holds a complete record, or nothing is retained. If there is no gap
      before, the retained events are then a range that ends at it. Torn bytes may be
      there or not. */
  lemma ReopenExact(s: State, maxBytes: int)
    requires SoundState(s) && Ascending(Retained(s))
    ensures var s' := Reopened(s, maxBytes);
            && SoundState(s') && Ascending(Retained(s'))
            && (s'.seqno == Last(Retained(s)) <==> Recoverable(s))
            && (!Recoverable(s) ==> s'.seqno == 0 < Last(Retained(s)))
            && (Recoverable(s) ==> Last(Retained(s')) == s'.seqno)
  {
    var a, b, t := Events(Read(s.previous)), Events(Read(s.current)), Events(TailLines(s.current));
    var pre := TailIsSuffix(s.current);
    TailLast(a, pre, t);
    AscendingParts(a, b);
    RotatedRetains(s);
    SameRetained(s, s.(size := Size(s.current), seqno := Largest(t)));
    SameRetained(Rotated(s), Rotated(s.(size := Size(s.current), seqno := Largest(t))));
  }

  /** A restart leaves a range that ends at the last sequence exactly when recovery has
      something to go by, or rotates away all events there are. */
  lemma ReopenRange(s: State, maxBytes: int)
    requires SoundState(s) && Consecutive(Retained(s))
    ensures var s' := Reopened(s, maxBytes);
            EndsAt(Retained(s'), s'.seqno) <==>
            Recoverable(s) || (Size(s.current) >= maxBytes && Events(Read(s.current)) == [])
  {
    ConsecutiveAscends(Retained(s));
    ReopenExact(s, maxBytes);
    ConsecutiveParts(Events(Read(s.previous)), Events(Read(s.current)));
    RotatedRetains(s);
    var r := s.(size := Size(s.current), seqno := Largest(Events(TailLines(s.current))));
    SameRetained(s, r);
    SameRetained(Rotated(s), Rotated(r));
    LastPositive(Retained(Reopened(s, maxBytes)));
  }

  lemma LastPositive(evs: seq<Event>)
    requires Ascending(evs)
    ensures Last(evs) == 0 <==> evs == []
  {
    assert evs != [] ==> evs[|evs| - 1].seqno > 0;
  }

  lemma TailLast(a: seq<Event>, pre: seq<Event>, t: seq<Event>)
    requires Ascending(a + (pre + t))
    ensures Largest(t) == if t == [] then 0 else Last(a + (pre + t))
    ensures a + (pre + t) != [] ==> Last(a + (pre + t)) > 0
  {
    AscendingParts(a, pre + t);
    AscendingParts(pre, t);
    LargestIsLast(t);
    LastPositive(a + (pre + t));
  }

  /** Two restarts with no event between them: the first rotates a full generation away,
      the second finds an empty one and starts counting at zero again, so sequences that
      are still retained are handed out a second time. */
  lemma TwoRestarts(s: State, maxBytes: int)
    requires Size(s.current) >= maxBytes > 0 && Events(TailLines(s.current)) != []
    ensures var s2 := Reopened(Reopened(s, maxBytes), maxBytes);
            s2.seqno == 0 && s2.previous == s.current && s2.current == NO_FILE && Retained(s2) != []
  {
    RestartEmpty(Reopened(s, maxBytes), maxBytes);
    var pre := TailIsSuffix(s.current);
    StillRetained(Reopened(Reopened(s, maxBytes), maxBytes), pre, Events(TailLines(s.current)));
  }

  lemma RestartEmpty(s: State, maxBytes: int)
    requires s.current == NO_FILE && maxBytes > 0
    ensures Reopened(s, maxBytes) == State(s.previous, NO_FILE, 0, 0)
  {
    NothingToRead();
  }

  lemma NothingToRead()
    ensures Events(TailLines(NO_FILE)) == [] && Size(NO_FILE) == 0
  {
    assert |TailLines(NO_FILE)| == 0;
  }

  lemma StillRetained(s: State, pre: seq<Event>, t: seq<Event>)
    requires Events(Read(s.previous)) == pre + t && t != []
    ensures Retained(s) != []
  {
  }

  // ------------------------------------------------------------------------ size

  /** The last line of a generation, which may be torn. */
  function LastLen(f: File): (n: nat) {
    if !Whole(f) then f.torn.len else if f.lines == [] then 0 else f.lines[|f.lines| - 1].len
  }

  /** However an append ends, the generation is within the limit afterwards exactly when
      the bytes written fit into what was left of the file it was opened on. */
  lemma SizeExact(s: State, maxBytes: int, body: string, len: nat, fate: Fate)
    requires SoundState(s) && Possible(len, fate)
    ensures var s' := Emitted(s, maxBytes, body, len, fate);
            && Size(s'.current) == (if Full(s, maxBytes) then 0 else Size(s.current)) + Written(len, fate)
            && (Size(s'.current) <= maxBytes <==>
                (if Full(s, maxBytes) then 0 else Size(s.current)) + Written(len, fate) <= maxBytes)
            && (Written(len, fate) > 0 ==> LastLen(s'.current) >= Written(len, fate))
  {
    var o, n := Opened(s, maxBytes), Written(len, fate);
    if n > 0 { PutEvents(o.current, Event(s.seqno + 1, body), len, n); }
    assert Size(NO_FILE) == 0;
  }

  /** A generation above its limit: ten bytes allowed, fourteen written. */
  lemma OverLimit()
    ensures Size(Emitted(Emitted(START, 10, "a", 9, Durable), 10, "b", 5, Durable).current) == 14
  {
    SizeExact(START, 10, "a", 9, Durable);
    SizeExact(Emitted(START, 10, "a", 9, Durable), 10, "b", 5, Durable);
  }

  // ------------------------------------------------------------------- histories

  /** What can happen to a log: a successful append; a failed one after which the process
      goes on; a restart; and a crash after n bytes of an append, with the restart that
      follows it. */
  datatype Step =
    | Append(body: string, len: nat) | Fail(body: string, len: nat, fate: Fate)
    | Restart | Crash(body: string, len: nat, n: nat)

  predicate Legal(step: Step) {
    match step
    case Append(_, len) => len > 0
    case Fail(_, len, fate) => Possible(len, fate) && fate != Durable
    case Restart => true
    case Crash(_, len, n) => 0 <= n <= len && len > 0
  }

  /** What a crash after n bytes leaves. */
  function CrashFate(len: nat, n: nat): (fate: Fate) {
    if n < len then Short(n) else Unsynced
  }

  function Next(s: State, maxBytes: int, step: Step): (s': State)
    requires Legal(step)
  {
    match step
    case Append(body, len) => Emitted(s, maxBytes, body, len, Durable)
    case Fail(body, len, fate) => Emitted(s, maxBytes, body, len, fate)
    case Restart => Reopened(s, maxBytes)
    case Crash(body, len, n) => Reopened(Emitted(s, maxBytes, body, len, CrashFate(len, n)), maxBytes)
  }

  predicate AllLegal(steps: seq<Step>) {
    forall i | 0 <= i < |steps| :: Legal(steps[i])
  }

  function After(maxBytes: int, steps: seq<Step>): (s: State)
    requires AllLegal(steps)
  {
    if steps == [] then START else Next(After(maxBytes, steps[..|steps| - 1]), maxBytes, steps[|steps| - 1])
  }

  lemma NextIsSound(s: State, maxBytes: int, step: Step)
    requires SoundState(s) && Legal(step)
    ensures SoundState(Next(s, maxBytes, step))
  {
    LargestIs(Events(TailLines(s.current)));
    if step.Crash? {
      var m := Emitted(s, maxBytes, step.body, step.len, CrashFate(step.len, step.n));
      EmittedIsSound(s, maxBytes, step.body, step.len, CrashFate(step.len, step.n));
      LargestIs(Events(TailLines(m.current)));
    }
  }

  lemma {:induction false} AlwaysSound(maxBytes: int, steps: seq<Step>)
    requires AllLegal(steps)
    ensures SoundState(After(maxBytes, steps))
  {
    if steps != [] {
      AlwaysSound(maxBytes, steps[..|steps| - 1]);
      NextIsSound(After(maxBytes, steps[..|steps| - 1]), maxBytes, steps[|steps| - 1]);
    }
  }

  // --------------------------------------------------------------- one range throughout

  ghost predicate InRange(s: State) {
    EndsAt(Retained(s), s.seqno)
  }

  ghost predicate RestartKeepsRange(s: State, maxBytes: int) {
    Recoverable(s) || (Size(s.current) >= maxBytes && Events(Read(s.current)) == [])
  }

  /** What a step has to find to keep the range. */
  ghost predicate Keeps(s: State, maxBytes: int, step: Step)
    requires Legal(step)
  {
    match step
    case Append(_, len) => KeepsRange(s, maxBytes, len, Durable)
    case Fail(_, len, fate) => KeepsRange(s, maxBytes, len, fate)
    case Restart => RestartKeepsRange(s, maxBytes)
    case Crash(body, len, n) => RestartKeepsRange(Emitted(s, maxBytes, body, len, CrashFate(len, n)), maxBytes)
  }

  /** Every kind of step keeps the range exactly then. */
  lemma StepExact(s: State, maxBytes: int, step: Step)
    requires SoundState(s) && InRange(s) && Legal(step)
    ensures InRange(Next(s, maxBytes, step)) <==> Keeps(s, maxBytes, step)
  {
    match step
    case Append(body, len) => EmitExact(s, maxBytes, body, len, Durable);
    case Fail(body, len, fate) => EmitExact(s, maxBytes, body, len, fate);
    case Restart => ReopenRange(s, maxBytes);
    case Crash(body, len, n) =>
      EmitConsecutive(s, maxBytes, body, len, CrashFate(len, n));
      ReopenRange(Emitted(s, maxBytes, body, len, CrashFate(len, n)), maxBytes);
  }

  /** In every state of the history the retained events are one range that ends at the
      last sequence. */
  ghost predicate AlwaysInRange(maxBytes: int, steps: seq<Step>)
    requires AllLegal(steps)
  {
    InRange(After(maxBytes, steps)) && (steps == [] || AlwaysInRange(maxBytes, steps[..|steps| - 1]))
  }

  ghost predicate AllKeep(maxBytes: int, steps: seq<Step>)
    requires AllLegal(steps)
  {
    steps == [] ||
    (AllKeep(maxBytes, steps[..|steps| - 1])
        && Keeps(After(maxBytes, steps[..|steps| - 1]), maxBytes, steps[|steps| - 1]))
  }

  /** Over every history of appends, failed appends, restarts and crashes: the retained
      events are one range that ends at the last sequence throughout if and only if every
      step finds what it needs. */
  lemma {:induction false} HistoryIsContiguous(maxBytes: int, steps: seq<Step>)
    requires AllLegal(steps)
    ensures AlwaysInRange(maxBytes, steps) <==> AllKeep(maxBytes, steps)
  {
    if steps == [] {
      assert Read(NO_FILE) == [];
    } else {
      var init, last := steps[..|steps| - 1], steps[|steps| - 1];
      HistoryIsContiguous(maxBytes, init);
      AlwaysSound(maxBytes, init);
      if AlwaysInRange(maxBytes, init) {
        RangeNow(maxBytes, init);
        StepExact(After(maxBytes, init), maxBytes, last);
      }
    }
  }

  lemma RangeNow(maxBytes: int, steps: seq<Step>)
    requires AllLegal(steps) && AlwaysInRange(maxBytes, steps)
    ensures InRange(After(maxBytes, steps))
  {
  }

  /** The failing input for a failed append: all but the newline is written, the sequence
      is taken back, and the record can be read all the same. */
  lemma ShortOfNewline()
    ensures var s := Next(START, 1000, Fail("a", 40, Short(39)));
            s.seqno == 0 && Retained(s) == [Event(1, "a")] && !InRange(s)
  {
    var s := Next(START, 1000, Fail("a", 40, Short(39)));
    PutEvents(NO_FILE, Event(1, "a"), 40, 39);
    assert Read(NO_FILE) == [];
    assert Retained(s) == [Event(1, "a")];
  }

  // ---------------------------------------------------------------- order throughout

  /** What is in the files but for a torn record at the end. */
  ghost function Settled(s: State): (evs: seq<Event>) {
    Events(Read(s.previous)) + Events(s.current.lines)
  }

  lemma RetainedIs(s: State)
    requires SoundState(s)
    ensures Retained(s) == Settled(s) + Only(s.current.torn.ev)
  {
    ReadEvents(s.current);
    Regroup(Events(Read(s.previous)), Events(s.current.lines), Only(s.current.torn.ev));
  }

  /** The retained sequences ascend, none is above the last one handed out but that of a
      torn record, and such a record is not rotated away before it is written over. */
  ghost predicate Ordered(s: State, maxBytes: int) {
    && SoundState(s) && Ascending(Retained(s)) && Last(Settled(s)) <= s.seqno
    && (s.current.torn.ev.Some? ==> s.current.torn.ev.value.seqno <= s.seqno || !Full(s, maxBytes))
  }

  lemma OpenedOrdered(s: State, maxBytes: int)
    requires Ordered(s, maxBytes) && maxBytes > 0
    ensures var o := Opened(s, maxBytes);
            && Ordered(o, maxBytes) && !Full(o, maxBytes) && o.seqno == s.seqno
  {
    if Full(s, maxBytes) { RotatedOrdered(s, maxBytes); }
  }

  lemma RotatedOrdered(s: State, maxBytes: int)
    requires Ordered(s, maxBytes) && Full(s, maxBytes)
    ensures Ordered(Rotated(s), maxBytes)
  {
    RotatedRetains(s);
    RotatedSettled(s);
    RetainedIs(s);
    LastOfAll(Settled(s), Only(s.current.torn.ev), s.seqno);
    SuffixOrdered(Events(Read(s.previous)), Events(Read(s.current)), s.seqno);
  }

  lemma SuffixOrdered(a: seq<Event>, b: seq<Event>, n: int)
    requires Ascending(a + b) && Last(a + b) <= n && n >= 0
    ensures Ascending(b) && Last(b) <= n
  {
    AscendingParts(a, b);
  }

  lemma RotatedSettled(s: State)
    ensures Settled(Rotated(s)) == Events(Read(s.current))
  {
  }

  lemma LastOfAll(a: seq<Event>, b: seq<Event>, n: int)
    requires Last(a) <= n && |b| <= 1 && (b != [] ==> b[0].seqno <= n)
    ensures Last(a + b) <= n
  {
    if b == [] { assert a + b == a; }
  }

  /** Some or all bytes of the next record, to a generation that is not full. */
  lemma PutOrdered(o: State, maxBytes: int, ev: Event, len: nat, n: nat, size: int, seqno: int)
    requires Ordered(o, maxBytes) && !Full(o, maxBytes) && ev.seqno == o.seqno + 1 && n <= len && len > 0
    requires if n == len then seqno == o.seqno + 1 else seqno == o.seqno && size == o.size
    ensures Ordered(o.(current := Put(o.current, ev, len, n), size := size, seqno := seqno), maxBytes)
  {
    var s := o.(current := Put(o.current, ev, len, n), size := size, seqno := seqno);
    if n == 0 {
      assert s == o;
    } else {
      PutEvents(o.current, ev, len, n);
      PutAscends(o, s, ev, len, n);
    }
  }

  lemma PutAscends(o: State, s: State, ev: Event, len: nat, n: nat)
    requires SoundState(o) && SoundState(s) && Ascending(Retained(o)) && Last(Settled(o)) < ev.seqno && ev.seqno > 0
    requires 0 < n <= len && s.previous == o.previous && s.current == Put(o.current, ev, len, n)
    ensures Ascending(Retained(s)) && Last(Settled(s)) <= if n == len then ev.seqno else ev.seqno - 1
  {
    PutSettled(o, ev, len, n);
    RetainedIs(s);
    RetainedIs(o);
    AscendingParts(Settled(o), Only(o.current.torn.ev));
    NextOrdered(Settled(o), ev, Settled(s), Only(s.current.torn.ev));
  }

  /** The next sequence goes behind the settled events, or is torn, or is lost. */
  lemma NextOrdered(base: seq<Event>, ev: Event, now: seq<Event>, torn: seq<Event>)
    requires Ascending(base) && Last(base) < ev.seqno && ev.seqno > 0
    requires (now == base + [ev] && torn == []) || (now == base + [] && (torn == [] || torn == [ev]))
    ensures Ascending(now + torn) && Last(now) <= if now == base + [ev] then ev.seqno else ev.seqno - 1
  {
    AscendingSnoc(base, ev);
    assert base + [] == base;
    assert now + [] == now;
  }

  lemma PutSettled(o: State, ev: Event, len: nat, n: nat)
    requires 0 < n <= len
    ensures Settled(o.(current := Put(o.current, ev, len, n))) ==
            Settled(o) + if n == len && Whole(o.current) then [ev] else []
    ensures Only(Put(o.current, ev, len, n).torn.ev) == if n == len - 1 && Whole(o.current) then [ev] else []
  {
    EventsSnoc(o.current.lines, Line(if Whole(o.current) then Some(ev) else None, o.current.torn.len + len));
    Regroup(Events(Read(o.previous)), Events(o.current.lines), [ev]);
    Regroup(Events(Read(o.previous)), Events(o.current.lines), []);
  }

  lemma EmitOrdered(s: State, maxBytes: int, body: string, len: nat, fate: Fate)
    requires Ordered(s, maxBytes) && maxBytes > 0 && Possible(len, fate)
    ensures Ordered(Emitted(s, maxBytes, body, len, fate), maxBytes)
  {
    var o, s' := Opened(s, maxBytes), Emitted(s, maxBytes, body, len, fate);
    OpenedOrdered(s, maxBytes);
    EmittedIs(s, maxBytes, body, len, fate);
    PutOrdered(o, maxBytes, Event(s.seqno + 1, body), len, Written(len, fate), s'.size, s'.seqno);
    SameOrdered(o.(current := s'.current, size := s'.size, seqno := s'.seqno), s', maxBytes);
  }

  lemma SameOrdered(s: State, s': State, maxBytes: int)
    requires s == s' && Ordered(s, maxBytes)
    ensures Ordered(s', maxBytes)
  {
  }

  lemma ReopenOrdered(s: State, maxBytes: int)
    requires Ordered(s, maxBytes) && Recoverable(s) && maxBytes > 0
    ensures Ordered(Reopened(s, maxBytes), maxBytes)
  {
    var r := s.(size := Size(s.current), seqno := Largest(Events(TailLines(s.current))));
    ReopenExact(s, maxBytes);
    SameRetained(s, r);
    RetainedIs(r);
    AscendingParts(Settled(r), Only(r.current.torn.ev));
    LargestIs(Events(TailLines(s.current)));
    OpenedOrdered(r, maxBytes);
  }

  /** Every restart of the history finds a complete record. */
  ghost predicate AllRecover(maxBytes: int, steps: seq<Step>)
    requires AllLegal(steps)
  {
    steps == [] ||
    (&& AllRecover(maxBytes, steps[..|steps| - 1])
     && var s, last := After(maxBytes, steps[..|steps| - 1]), steps[|steps| - 1];
        match last
        case Restart => Recoverable(s)
        case Crash(body, len, n) => Recoverable(Emitted(s, maxBytes, body, len, CrashFate(len, n)))
        case _ => true)
  }

  /** Whatever appends are lost to torn records or fail half way, the retained sequences
      ascend as long as every restart finds a complete record. */
  lemma {:induction false} HistoryIsOrdered(maxBytes: int, steps: seq<Step>)
    requires maxBytes > 0 && AllLegal(steps) && AllRecover(maxBytes, steps)
    ensures Ordered(After(maxBytes, steps), maxBytes)
  {
    if steps == [] {
      assert Read(NO_FILE) == [];
    } else {
      var s := After(maxBytes, steps[..|steps| - 1]);
      HistoryIsOrdered(maxBytes, steps[..|steps| - 1]);
      match steps[|steps| - 1]
      case Append(body, len) => EmitOrdered(s, maxBytes, body, len, Durable);
      case Fail(body, len, fate) => EmitOrdered(s, maxBytes, body, len, fate);
      case Restart => ReopenOrdered(s, maxBytes);
      case Crash(body, len, n) =>
        EmitOrdered(s, maxBytes, body, len, CrashFate(len, n));
        ReopenOrdered(Emitted(s, maxBytes, body, len, CrashFate(len, n)), maxBytes);
    }
  }

  /** So after any such history cursor paging yields every retained event behind the
      cursor exactly once, in order. */
  lemma PagingOverHistory(maxBytes: int, steps: seq<Step>, after: int, n: nat, rounds: nat)
    requires maxBytes > 0 && AllLegal(steps) && AllRecover(maxBytes, steps) && n > 0
    requires rounds >= |Since(Retained(After(maxBytes, steps)), after)|
    ensures var evs := Retained(After(maxBytes, steps));
            Ascending(evs) && Collect(evs, after, n, rounds) == Since(evs, after)
  {
    HistoryIsOrdered(maxBytes, steps);
    PagingIsComplete(Retained(After(maxBytes, steps)), after, n, rounds);
  }

  // ---------------------------------------------------------------------- disk use

  /** The bytes of failed appends in each generation that its kept size does not count. */
  datatype Slack = Slack(current: nat, previous: nat)

  function OpenedSlack(s: State, maxBytes: int, k: Slack): (k': Slack) {
    if Full(s, maxBytes) then Slack(0, k.current) else k
  }

  /** A restart measures the current file, and may rotate it. */
  function ReopenedSlack(s: State, maxBytes: int, k: Slack): (k': Slack) {
    if Size(s.current) >= maxBytes then Slack(0, k.current) else Slack(0, k.previous)
  }

  function NextSlack(s: State, maxBytes: int, step: Step, k: Slack): (k': Slack)
    requires Legal(step)
  {
    var o := OpenedSlack(s, maxBytes, k);
    match step
    case Append(_, _) => o
    case Fail(_, len, fate) => o.(current := o.current + Written(len, fate))
    case Restart => ReopenedSlack(s, maxBytes, k)
    case Crash(body, len, n) => ReopenedSlack(Emitted(s, maxBytes, body, len, CrashFate(len, n)), maxBytes, o)
  }

  function SlackOf(maxBytes: int, steps: seq<Step>): (k: Slack)
    requires AllLegal(steps)
  {
    if steps == [] then Slack(0, 0)
    else
      NextSlack(After(maxBytes, steps[..|steps| - 1]), maxBytes, steps[|steps| - 1],
          SlackOf(maxBytes, steps[..|steps| - 1]))
  }

  ghost predicate Within(f: File, maxBytes: int, slack: nat) {
    Size(f) < maxBytes + slack + LastLen(f)
  }

  ghost predicate Sized(s: State, maxBytes: int, k: Slack) {
    && SoundState(s) && Size(s.current) == s.size + k.current
    && Within(s.current, maxBytes, k.current) && Within(s.previous, maxBytes, k.previous)
  }

  lemma OpenedSized(s: State, maxBytes: int, k: Slack)
    requires Sized(s, maxBytes, k) && maxBytes > 0
    ensures Sized(Opened(s, maxBytes), maxBytes, OpenedSlack(s, maxBytes, k)) && Opened(s, maxBytes).size < maxBytes
  {
    assert Size(NO_FILE) == 0;
  }

  /** After an append the file is within the limit, the slack it had and the bytes written. */
  lemma EmitSized(s: State, maxBytes: int, body: string, len: nat, fate: Fate, k: Slack)
    requires Sized(s, maxBytes, k) && maxBytes > 0 && Possible(len, fate)
    ensures var s', o := Emitted(s, maxBytes, body, len, fate), OpenedSlack(s, maxBytes, k);
            && SoundState(s') && Within(s'.previous, maxBytes, o.previous) && Within(s'.current, maxBytes, o.current)
            && Size(s'.current) == s'.size + o.current + if fate == Durable then 0 else Written(len, fate)
  {
    OpenedSized(s, maxBytes, k);
    EmittedIsSound(s, maxBytes, body, len, fate);
    SizeExact(s, maxBytes, body, len, fate);
    assert Size(NO_FILE) == 0;
  }

  lemma ReopenSized(s: State, maxBytes: int, k: Slack)
    requires SoundState(s) && Within(s.current, maxBytes, k.current) && Within(s.previous, maxBytes, k.previous)
             && maxBytes > 0
    ensures Sized(Reopened(s, maxBytes), maxBytes, ReopenedSlack(s, maxBytes, k))
  {
    LargestIs(Events(TailLines(s.current)));
    assert Size(NO_FILE) == 0;
  }

  lemma StepSized(s: State, maxBytes: int, step: Step, k: Slack)
    requires Sized(s, maxBytes, k) && maxBytes > 0 && Legal(step)
    ensures Sized(Next(s, maxBytes, step), maxBytes, NextSlack(s, maxBytes, step, k))
  {
    match step
    case Append(body, len) => EmitSized(s, maxBytes, body, len, Durable, k);
    case Fail(body, len, fate) => EmitSized(s, maxBytes, body, len, fate, k);
    case Restart => ReopenSized(s, maxBytes, k);
    case Crash(body, len, n) =>
      EmitSized(s, maxBytes, body, len, CrashFate(len, n), k);
      ReopenSized(Emitted(s, maxBytes, body, len, CrashFate(len, n)), maxBytes, OpenedSlack(s, maxBytes, k));
  }

  /** Disk use over every history: the kept size of the current generation is short of the
      file by exactly the bytes of failed appends since the last rotation or restart, and
      each generation is shorter than the limit, those bytes and its last line together. */
  lemma {:induction false} HistoryIsBounded(maxBytes: int, steps: seq<Step>)
    requires maxBytes > 0 && AllLegal(steps)
    ensures Sized(After(maxBytes, steps), maxBytes, SlackOf(maxBytes, steps))
  {
    if steps == [] {
      assert Size(NO_FILE) == 0;
    } else {
      var init := steps[..|steps| - 1];
      HistoryIsBounded(maxBytes, init);
      StepSized(After(maxBytes, init), maxBytes, steps[|steps| - 1], SlackOf(maxBytes, init));
    }
  }

  /** Without failed appends in a process that goes on, there is no slack. */
  lemma {:induction false} NoFailureNoSlack(maxBytes: int, steps: seq<Step>)
    requires AllLegal(steps) && forall i | 0 <= i < |steps| :: !steps[i].Fail?
    ensures SlackOf(maxBytes, steps) == Slack(0, 0)
  {
    if steps != [] { NoFailureNoSlack(maxBytes, steps[..|steps| - 1]); }
  }

  /** k appends in a row whose sync fails. */
  function Unlucky(k: nat): (steps: seq<Step>)
    ensures |steps| == k && AllLegal(steps)
  {
    seq(k, i => Fail("a", 9, Unsynced))
  }

  /** No bound holds for all histories: with ten bytes allowed, k failed syncs of nine
      bytes leave a generation of 9 * k bytes that counts as empty and is not rotated. */
  lemma {:induction false} UnboundedGeneration(k: nat)
    ensures var s := After(10, Unlucky(k));
            s.size == 0 && Size(s.current) == 9 * k && s.previous == NO_FILE
  {
    if k == 0 {
      assert Size(NO_FILE) == 0;
    } else {
      var steps := Unlucky(k);
      assert steps[..k - 1] == Unlucky(k - 1);
      UnboundedGeneration(k - 1);
      AlwaysSound(10, Unlucky(k - 1));
      SizeExact(After(10, Unlucky(k - 1)), 10, "a", 9, Unsynced);
    }
  }

  // -------------------------------------------------------------- a torn record, in bytes

  /** A file of one record and seven bytes of the next. */
  lemma TornFile(e: Event, f: File)
    requires e.seqno > 0 && f == File([Line(Some(e), 40)], Line(None, 7))
    ensures Events(Read(f)) == [e] && Size(f) == 47 && Events(TailLines(f)) == [e] && Largest([e]) == e.seqno
  {
    EventsSnoc([], f.lines[0]);
    assert [] + [f.lines[0]] == f.lines;
    ReadEvents(f);
    EventsSnoc(f.lines, Line(None, 8));
    ShortTail(Read(f), TAIL_BYTES + 1);
    LargestIsLast([e]);
  }

  /** A file that is shorter than the tail is all tail. */
  lemma {:induction false} ShortTail(lines: seq<Line>, n: int)
    requires Len(lines) <= n
    ensures TailStart(lines, n) == 0
  {
    if lines != [] {
      ShortTail(lines[..|lines| - 1], n - lines[|lines| - 1].len);
    }
  }

  /** The failing input: an event, a crash seven bytes into the next, a restart that
      recovers sequence 1, and an append that succeeds as sequence 2 and cannot be read. */
  lemma TornAppendIsLost()
    ensures var s := Next(Next(START, 1000, Append("a", 40)), 1000, Crash("b", 40, 7));
            && s.seqno == 1 && Retained(s) == [Event(1, "a")] && !Whole(s.current)
            && var s' := Next(s, 1000, Append("c", 40));
               s'.seqno == 2 && Retained(s') == [Event(1, "a")] && !EndsAt(Retained(s'), s'.seqno)
  {
    var e, f := Event(1, "a"), File([Line(Some(Event(1, "a")), 40)], Line(None, 7));
    var s1 := Next(START, 1000, Append("a", 40));
    assert s1.current.lines == f.lines;
    assert Emitted(s1, 1000, "b", 40, Short(7)) == State(NO_FILE, f, 40, 1);
    TornFile(e, f);
    var s := State(NO_FILE, f, 47, 1);
    assert Next(s1, 1000, Crash("b", 40, 7)) == s;
    assert Read(NO_FILE) == [] && Retained(s) == [e];
    LosesNext(s, e);
  }

  lemma LosesNext(s: State, e: Event)
    requires SoundState(s) && s.size == 47 && s.seqno == 1 && !Whole(s.current) && s.current.torn.ev == None
    requires Retained(s) == [e] && e.seqno == 1
    ensures var s' := Next(s, 1000, Append("c", 40));
            s'.seqno == 2 && Retained(s') == [e] && !EndsAt(Retained(s'), s'.seqno)
  {
    EmitContiguous(s, 1000, "c", 40);
    PutRetains(s, Event(2, "c"), 40, 40);
    SameRetained(s.(current := Put(s.current, Event(2, "c"), 40, 40)), Next(s, 1000, Append("c", 40)));
    Regroup([], Retained(Next(s, 1000, Append("c", 40))), []);
  }

  // -------------------------------------------------------------------- the query

  function Since(evs: seq<Event>, after: int): (r: seq<Event>) {
    if evs == [] then []
    else
      var last := evs[|evs| - 1];
      Since(evs[..|evs| - 1], after) + if last.seqno > after then [last] else []
  }

  /** The filter keeps exactly the events behind the cursor. */
  lemma {:induction false} SinceExact(evs: seq<Event>, after: int, e: Event)
    ensures e in Since(evs, after) <==> e in evs && e.seqno > after
  {
    if evs != [] {
      SinceExact(evs[..|evs| - 1], after, e);
      assert evs[..|evs| - 1] + [evs[|evs| - 1]] == evs;
    }
  }

  function Take(evs: seq<Event>, n: nat): (r: seq<Event>) {
    if |evs| <= n then evs else evs[..n]
  }

  function Clamp(limit: int): (n: nat)
    ensures 1 <= n <= 1000
  {
    if limit <= 0 then 200 else if limit > 1000 then 1000 else limit
  }

  /** The lines a scanner reads before it meets one that is too long. */
  function Readable(lines: seq<Line>): (r: seq<Line>) {
    if lines == [] || lines[0].len > MAX_LINE then [] else [lines[0]] + Readable(lines[1..])
  }

  lemma {:induction false} ReadableIs(lines: seq<Line>, k: nat)
    requires k <= |lines| && (forall i | 0 <= i < k :: lines[i].len <= MAX_LINE)
    requires k < |lines| ==> lines[k].len > MAX_LINE
    ensures Readable(lines) == lines[..k]
    decreases |lines|
  {
    if k > 0 {
      ReadableIs(lines[1..], k - 1);
      assert [lines[0]] + lines[1..][..k - 1] == lines[..k];
    }
  }

  lemma {:induction false} ReadablePrefix(lines: seq<Line>, k: nat)
    requires k <= |lines| && (forall i | 0 <= i < k :: lines[i].len <= MAX_LINE)
    ensures lines[..k] <= Readable(lines)
    decreases |lines|
  {
    if k > 0 {
      ReadablePrefix(lines[1..], k - 1);
      assert [lines[0]] + lines[1..][..k - 1] == lines[..k];
    }
  }

  lemma {:induction false} SinceAppend(a: seq<Event>, b: seq<Event>, after: int)
    ensures Since(a + b, after) == Since(a, after) + Since(b, after)
    decreases |b|
  {
    if b == [] {
      assert a + b == a;
    } else {
      assert (a + b)[..|a + b| - 1] == a + b[..|b| - 1];
      SinceAppend(a, b[..|b| - 1], after);
    }
  }

  class Log {
    const maxBytes: int
    var previous: File
    var current: File
    var size: int      // kept for the current generation
    var seqno: int     // last sequence handed out

    function View(): (s: State)
      reads this
    {
      State(previous, current, size, seqno)
    }

    ghost predicate Valid()
      reads this
    {
      maxBytes > 0 && SoundState(View())
    }

    constructor (limit: int)
      ensures Valid() && View() == START
      ensures maxBytes == if limit <= 0 then 8388608 else limit
    {
      maxBytes := if limit <= 0 then 8388608 else limit;
      previous, current, size, seqno := NO_FILE, NO_FILE, 0, 0;
    }

    method Rotate()
      requires Valid()
      modifies this
      ensures Valid() && View() == Rotated(old(View())) && Retained(View()) == Events(Read(old(current)))
    {
      RotatedRetains(View());
      previous, current, size := current, NO_FILE, 0;
    }

    /** Emit: rotate first when the generation is full, then append, behind whatever is
        there. `len` is the length of the record and `fate` what becomes of its bytes. */
    method Emit(body: string, len: nat, fate: Fate) returns (ok: bool)
      requires Valid() && Possible(len, fate)
      modifies this
      ensures Valid() && View() == Emitted(old(View()), maxBytes, body, len, fate)
      ensures ok <==> fate == Durable
      ensures old(InRange(View())) ==> (InRange(View()) <==> KeepsRange(old(View()), maxBytes, len, fate))
    {
      if InRange(View()) { EmitExact(View(), maxBytes, body, len, fate); }
      ok := Write(body, len, fate);
    }

    method Write(body: string, len: nat, fate: Fate) returns (ok: bool)
      requires Valid() && Possible(len, fate)
      modifies this
      ensures Valid() && View() == Emitted(old(View()), maxBytes, body, len, fate) && (ok <==> fate == Durable)
    {
      EmittedIsSound(View(), maxBytes, body, len, fate);
      if size >= maxBytes {
        Rotate();
      }
      seqno := seqno + 1;
      current := Put(current, Event(seqno, body), len, if fate.Short? then fate.n else len);
      if fate.Short? {
        seqno := seqno - 1;
        return false;
      }
      if fate.Unsynced? {
        return false;
      }
      size := size + len;
      return true;
    }

    /** A process restart, also after a crash inside an append. The sequence goes on from
        the last retained one exactly when recovery has something to go by. */
    method Reopen()
      requires Valid()
      modifies this
      ensures View() == Reopened(old(View()), maxBytes)
      ensures old(Ascending(Retained(View()))) ==>
                && Valid()
                && (seqno == Last(old(Retained(View()))) <==> old(Recoverable(View())))
      ensures old(Consecutive(Retained(View()))) ==>
                (InRange(View()) <==> old(RestartKeepsRange(View(), maxBytes)))
    {
      ghost var s := View();
      if Ascending(Retained(s)) { ReopenExact(s, maxBytes); }
      if Consecutive(Retained(s)) { ReopenRange(s, maxBytes); }
      Measure();
    }

    method Measure()
      requires Valid()
      modifies this
      ensures Valid() && View() == Reopened(old(View()), maxBytes)
    {
      size := Size(current);
      seqno := LargestSeq(TailLines(current));
      if size >= maxBytes {
        Rotate();
      }
    }

    /** Query: the retained events behind the cursor, oldest first, up to the limit; and
        the oldest one retained. It fails only if it meets a line the scanner cannot hold,
        torn or not, before the page is full. */
    method Query(after: int, limit: int) returns (events: seq<Event>, oldest: int, ok: bool)
      ensures var lines := Read(previous) + Read(current);
              && events == Take(Since(Events(Readable(lines)), after), Clamp(limit))
              && (ok <==> Readable(lines) == lines || |events| == Clamp(limit))
              && (Ascending(Events(lines)) ==> oldest == First(Events(Readable(lines))))
      ensures var behind := Since(Events(Readable(Read(previous) + Read(current))), after);
              && |events| <= |behind| && events == behind[..|events|]
              && (limit <= 0 ==> |events| == if |behind| < 200 then |behind| else 200)
              && (1 <= limit <= 1000 ==> |events| == if |behind| < limit then |behind| else limit)
              && (limit > 1000 ==> |events| == if |behind| < 1000 then |behind| else 1000)
      ensures Fits(previous) && Fits(current) ==>
                && ok && events == Take(Since(Retained(View()), after), Clamp(limit))
                && (Ascending(Retained(View())) ==> oldest == First(Retained(View())))
    {
      var lines := Read(previous) + Read(current);
      EventsAppend(Read(previous), Read(current));
      events, oldest, ok := QueryLines(lines, after, limit);
      if Fits(previous) && Fits(current) {
        assert forall k | 0 <= k < |lines| :: lines[k].len <= MAX_LINE;
        ReadableIs(lines, |lines|);
        assert lines[..|lines|] == lines;
      }
    }
  }

  /** The scanner can hold every line, and the torn bytes. */
  predicate Fits(f: File) {
    forall k | 0 <= k < |Read(f)| :: Read(f)[k].len <= MAX_LINE
  }

  /** The scan loop: stop at a full page or at a line that is too long. */
  method ScanLines(lines: seq<Line>, after: int, n: nat) returns (events: seq<Event>, oldest: int, stop: nat)
    requires n > 0
    ensures stop <= |lines| && events == Since(Events(lines[..stop]), after)
    ensures (forall k | 0 <= k < stop :: lines[k].len <= MAX_LINE) && |events| <= n
    ensures |events| < n && stop < |lines| ==> lines[stop].len > MAX_LINE
    ensures Ascending(Events(lines)) ==> oldest == First(Events(lines[..stop]))
  {
    events, oldest, stop := [], 0, 0;
    while stop < |lines| && lines[stop].len <= MAX_LINE && |events| < n
      invariant 0 <= stop <= |lines| && (forall k | 0 <= k < stop :: lines[k].len <= MAX_LINE)
      invariant events == Since(Events(lines[..stop]), after) && |events| <= n
      invariant Ascending(Events(lines)) ==> oldest == First(Events(lines[..stop]))
    {
      ScanLine(lines, stop, after, oldest);
      if lines[stop].ev.Some? {
        var ev := lines[stop].ev.value;
        if oldest == 0 || ev.seqno < oldest {
          oldest := ev.seqno;
        }
        if ev.seqno > after {
          events := events + [ev];
        }
      }
      stop := stop + 1;
    }
  }

  /** Query over the lines of the previous and then the current generation. */
  method QueryLines(lines: seq<Line>, after: int, limit: int) returns (events: seq<Event>, oldest: int, ok: bool)
    ensures events == Take(Since(Events(Readable(lines)), after), Clamp(limit))
    ensures ok <==> Readable(lines) == lines || |events| == Clamp(limit)
    ensures Ascending(Events(lines)) ==> oldest == First(Events(Readable(lines)))
  {
    var n, stop := Clamp(limit), 0;
    events, oldest, stop := ScanLines(lines, after, n);
    ok := |events| == n || stop == |lines|;
    PageIs(lines, stop, after, n);
  }

  lemma PageIs(lines: seq<Line>, stop: nat, after: int, n: nat)
    requires stop <= |lines| && n > 0 && (forall k | 0 <= k < stop :: lines[k].len <= MAX_LINE)
    requires var page := Since(Events(lines[..stop]), after);
             |page| <= n && (|page| < n && stop < |lines| ==> lines[stop].len > MAX_LINE)
    ensures var page := Since(Events(lines[..stop]), after);
            && page == Take(Since(Events(Readable(lines)), after), n)
            && (|page| < n ==> (stop == |lines| <==> Readable(lines) == lines))
            && First(Events(lines[..stop])) == First(Events(Readable(lines)))
  {
    if |Since(Events(lines[..stop]), after)| == n {
      PageFull(lines, stop, after, n);
    } else {
      ReadableIs(lines, stop);
      assert lines[..|lines|] == lines;
    }
  }

  lemma ScanLine(lines: seq<Line>, i: nat, after: int, oldest: int)
    requires i < |lines|
    ensures var ev := lines[i].ev;
            && Since(Events(lines[..i + 1]), after) ==
               Since(Events(lines[..i]), after) + (if ev.Some? && ev.value.seqno > after then [ev.value] else [])
            && (Ascending(Events(lines)) && oldest == First(Events(lines[..i])) ==>
                  First(Events(lines[..i + 1])) ==
                  if ev.Some? && (oldest == 0 || ev.value.seqno < oldest) then ev.value.seqno else oldest)
  {
    EventsSnoc(lines[..i], lines[i]);
    assert lines[..i] + [lines[i]] == lines[..i + 1];
    if lines[i].ev.Some? {
      SinceSnoc(Events(lines[..i]), lines[i].ev.value, after);
      Located(lines, i);
    } else {
      assert Events(lines[..i + 1]) == Events(lines[..i]);
    }
  }

  lemma SinceSnoc(evs: seq<Event>, ev: Event, after: int)
    ensures Since(evs + [ev], after) == Since(evs, after) + if ev.seqno > after then [ev] else []
  {
    assert (evs + [ev])[..|evs|] == evs;
  }

  /** Where the event of line i stands in the list of all events. */
  lemma Located(lines: seq<Line>, i: nat)
    requires i < |lines| && lines[i].ev.Some?
    ensures |Events(lines[..i])| < |Events(lines)|
    ensures Events(lines)[|Events(lines[..i])|] == lines[i].ev.value
    ensures Events(lines[..i]) <= Events(lines)
  {
    EventsSnoc(lines[..i], lines[i]);
    EventsAppend(lines[..i + 1], lines[i + 1..]);
    assert lines[..i] + [lines[i]] == lines[..i + 1];
    assert lines[..i + 1] + lines[i + 1..] == lines;
  }

  /** Stopping at a full page gives what filtering everything readable would give. */
  lemma PageFull(lines: seq<Line>, i: nat, after: int, n: nat)
    requires i <= |lines| && (forall k | 0 <= k < i :: lines[k].len <= MAX_LINE)
    requires |Since(Events(lines[..i]), after)| == n > 0
    ensures Since(Events(lines[..i]), after) == Take(Since(Events(Readable(lines)), after), n)
    ensures Events(lines[..i]) != [] && Events(lines[..i]) <= Events(Readable(lines))
  {
    ReadablePrefix(lines, i);
    var r := Readable(lines);
    assert r == lines[..i] + r[i..];
    EventsAppend(lines[..i], r[i..]);
    SinceAppend(Events(lines[..i]), Events(r[i..]), after);
  }

  // -------------------------------------------------------------------- paging

  /** The filter leaves everything from k on. */
  ghost predicate SplitsAt(evs: seq<Event>, after: int, k: nat) {
    && k <= |evs| && Since(evs, after) == evs[k..]
    && (forall i | 0 <= i < k :: evs[i].seqno <= after) && (forall i | k <= i < |evs| :: evs[i].seqno > after)
  }

  /** Over ascending sequences the filter is a suffix. */
  lemma {:induction false} SinceSplits(evs: seq<Event>, after: int) returns (k: nat)
    requires Ascending(evs)
    ensures SplitsAt(evs, after, k)
  {
    if evs == [] {
      k := 0;
    } else {
      var init, last := evs[..|evs| - 1], evs[|evs| - 1];
      var j := SinceSplits(init, after);
      assert init + [last] == evs;
      if last.seqno <= after {
        k := |evs|;
        DropSplit(init, last, after);
      } else {
        k := j;
        KeepSplit(init, last, after, j);
      }
    }
  }

  lemma KeepSplit(init: seq<Event>, last: Event, after: int, j: nat)
    requires SplitsAt(init, after, j) && last.seqno > after
    ensures SplitsAt(init + [last], after, j)
  {
    SinceSnoc(init, last, after);
    SuffixSnoc(init, last, j);
  }

  lemma DropSplit(init: seq<Event>, last: Event, after: int)
    requires last.seqno <= after && (forall i | 0 <= i < |init| :: init[i].seqno <= last.seqno)
    ensures SplitsAt(init + [last], after, |init| + 1)
  {
    SinceSnoc(init, last, after);
    NoneSince(init, after);
  }

  lemma SuffixSnoc(init: seq<Event>, last: Event, j: nat)
    requires j <= |init|
    ensures init[j..] + [last] == (init + [last])[j..]
  {
  }

  lemma {:induction false} NoneSince(evs: seq<Event>, after: int)
    requires forall i | 0 <= i < |evs| :: evs[i].seqno <= after
    ensures Since(evs, after) == []
  {
    if evs != [] { NoneSince(evs[..|evs| - 1], after); }
  }

  lemma SinceMember(evs: seq<Event>, p: nat)
    requires Ascending(evs) && p < |evs|
    ensures Since(evs, evs[p].seqno) == evs[p + 1..]
  {
    var j := SinceSplits(evs, evs[p].seqno);
    assert j > p;
    assert p + 1 < |evs| ==> evs[p + 1].seqno > evs[p].seqno;
  }

  /** The next page continues right behind the last event of this one. */
  lemma NextPage(evs: seq<Event>, after: int, n: nat)
    requires Ascending(evs) && n > 0 && Since(evs, after) != []
    ensures var page := Take(Since(evs, after), n);
            page != [] && page + Since(evs, page[|page| - 1].seqno) == Since(evs, after)
  {
    var page := Take(Since(evs, after), n);
    var k := SinceSplits(evs, after);
    assert page == evs[k..k + |page|];
    SinceMember(evs, k + |page| - 1);
  }

  /** What a client collects that always asks behind the last event it has seen. */
  function Collect(evs: seq<Event>, after: int, n: nat, rounds: nat): (r: seq<Event>)
    decreases rounds
  {
    var page := Take(Since(evs, after), n);
    if page == [] || rounds == 0 then [] else page + Collect(evs, page[|page| - 1].seqno, n, rounds - 1)
  }

  /** Paging with a cursor yields every retained event behind it exactly once, in
      order, within as many rounds as there are events. */
  lemma {:induction false} PagingIsComplete(evs: seq<Event>, after: int, n: nat, rounds: nat)
    requires Ascending(evs) && n > 0 && rounds >= |Since(evs, after)|
    ensures Collect(evs, after, n, rounds) == Since(evs, after)
    decreases rounds
  {
    if Since(evs, after) != [] {
      NextPage(evs, after, n);
      var page := Take(Since(evs, after), n);
      PagingIsComplete(evs, page[|page| - 1].seqno, n, rounds - 1);
    }
  }
}
