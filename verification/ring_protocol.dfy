/** The whole run of emu4 as a function of the schedule and of the guests' time-stamp
    counters: three copies of the ring, the copies made between them, and what is printed.
    The run is refined to an unbounded FIFO queue. */
module RingProtocol {
  import opened Memory
  import opened RingState

  /** What rdtsc returns in each guest, as a function of how often it was read. */
  datatype Dice = Dice(prod: nat -> word, cons: nat -> word)

  /** One printed line; n is the number the line announces. */
  datatype Line =
    | Produced(n: int, values: seq<int32>)
    | Consumed(n: int, values: seq<int32>)
    | Hypvsr(values: seq<int32>)

  /** The state between two turns: the hypervisor's record, the record at 0x400 in each
      guest, and how many time stamps each guest has read. */
  datatype Sys = Sys(shared: BufferState, m1: BufferState, m2: BufferState, r1: nat, r2: nat)

  /** Which copies a turn makes: into the scheduled guest before it runs, and into the
      other guest afterwards. emu4 makes both. */
  datatype Copies = Copies(before: bool, after: bool)

  const BOTH := Copies(true, true)

  ghost predicate Sound(w: Sys) {
    WellFormed(w.shared) && WellFormed(w.m1) && WellFormed(w.m2)
  }

  ghost predicate Coherent(w: Sys) {
    WellFormed(w.shared) && w.m1 == w.shared && w.m2 == w.shared
  }

  const START := Sys(ZERO_STATE, ZERO_STATE, ZERO_STATE, 0, 0)

  // ---------- The guests' turns ----------

  /** How many items the producer will make of a fill level and a time stamp: as many as the
      stamp asks for, fewer only if the ring is full with them. */
  function ProduceCount(t: word, count: int): (n: nat)
    requires 0 <= count <= SLOTS
    ensures n <= t % 11 <= 10 && count + n <= SLOTS
    ensures n < t % 11 ==> count + n == SLOTS
  {
    if t % 11 > SLOTS - count then SLOTS - count else t % 11
  }

  /** How many items the consumer will take: fewer than asked for only if it takes all. */
  function ConsumeCount(t: word, count: int): (n: nat)
    requires 0 <= count
    ensures n <= t % 11 <= 10 && n <= count
    ensures n < t % 11 ==> n == count
  {
    if t % 11 > count then count else t % 11
  }

  /** The items made of n consecutive time stamps. */
  function Draw(tsc: nat -> word, r: nat, n: nat): (items: seq<int32>)
    ensures |items| == n
  {
    if n == 0 then [] else Draw(tsc, r, n - 1) + [tsc(r + (n - 1)) % 100]
  }

  /** The items of one producer turn: the first time stamp decides how many. */
  function Items(tsc: nat -> word, r: nat, count: int): (items: seq<int32>)
    requires 0 <= count <= SLOTS
    ensures |items| == ProduceCount(tsc(r), count)
  {
    Draw(tsc, r + 1, ProduceCount(tsc(r), count))
  }

  // ---------- The hypervisor's reports ----------

  /** Printed from the two snapshots alone: what lies from the old prod_p on. */
  function ReportProduced(before: BufferState, now: BufferState): Line
    requires |now.buf| == SLOTS && before.prodP >= 0
  {
    var n := now.count - before.count;
    Produced(n, Window(now.buf, before.prodP, if n > 0 then n else 0))
  }

  /** Printed from the two snapshots alone: what lay from the old cons_p on. */
  function ReportConsumed(before: BufferState, now: BufferState): Line
    requires |before.buf| == SLOTS && before.consP >= 0
  {
    var n := before.count - now.count;
    Consumed(n, Window(before.buf, before.consP, if n > 0 then n else 0))
  }

  // ---------- Turns and runs ----------

  function ProducerTurn(w: Sys, cp: Copies, dice: Dice): (r: (Sys, seq<Line>))
    requires Sound(w)
    ensures Sound(r.0)
  {
    var m1 := if cp.before then w.shared else w.m1;
    var items := Items(dice.prod, w.r1, m1.count);
    var now := PutAll(m1, items);
    (Sys(now, now, if cp.after then now else w.m2, w.r1 + 1 + |items|, w.r2),
     [ReportProduced(w.shared, now), Hypvsr(Live(now))])
  }

  function ConsumerTurn(w: Sys, cp: Copies, dice: Dice): (r: (Sys, seq<Line>))
    requires Sound(w)
    ensures Sound(r.0)
  {
    var m2 := if cp.before then w.shared else w.m2;
    var now := DropMany(m2, ConsumeCount(dice.cons(w.r2), m2.count));
    (Sys(now, if cp.after then now else w.m1, now, w.r1, w.r2 + 1),
     [ReportConsumed(w.shared, now), Hypvsr(Live(now))])
  }

  function Turn(c: char, w: Sys, cp: Copies, dice: Dice): (r: (Sys, seq<Line>))
    requires Sound(w)
    ensures Sound(r.0)
  {
    if c == '1' then ProducerTurn(w, cp, dice)
    else if c == '2' then ConsumerTurn(w, cp, dice)
    else (w, [])
  }

  function Run(sched: string, w: Sys, cp: Copies, dice: Dice): (r: (Sys, seq<Line>))
    requires Sound(w)
    ensures Sound(r.0)
  {
    if sched == "" then (w, []) else
      var (w1, log1) := Run(sched[..|sched| - 1], w, cp, dice);
      var (w2, log2) := Turn(sched[|sched| - 1], w1, cp, dice);
      (w2, log1 + log2)
  }

  // ---------- The reports are exact ----------

  /** The line printed after a producer turn lists exactly the items the guest wrote. */
  lemma {:induction false} ReportProducedExact(s: BufferState, items: seq<int32>)
    requires WellFormed(s) && s.count + |items| <= SLOTS
    ensures ReportProduced(s, PutAll(s, items)) == Produced(|items|, items)
  {
    hide *;
    var now := PutAll(s, items);
    FilledWindow(s, now, items);
    ProducedLine(s, now);
  }

  lemma ProducedLine(s: BufferState, now: BufferState)
    requires WellFormed(s) && WellFormed(now) && now.count >= s.count
    ensures s.prodP >= 0 && ReportProduced(s, now) == Produced(now.count - s.count, Window(now.buf, s.prodP, now.count - s.count))
  {
  }

  lemma FilledWindow(s: BufferState, now: BufferState, items: seq<int32>)
    requires WellFormed(s) && WellFormed(now) && now.consP == s.consP && now.count == s.count + |items|
    requires Live(now) == Live(s) + items
    ensures s.prodP >= 0 && Window(now.buf, s.prodP, |items|) == items
  {
    hide Slot, Window;
    SuffixWindow(now.buf, s.consP, s.count, Live(s), items);
  }

  lemma SuffixWindow(buf: seq<int32>, p: nat, n: nat, q: seq<int32>, items: seq<int32>)
    requires |buf| == SLOTS && |q| == n && Window(buf, p, n + |items|) == q + items
    ensures Window(buf, Slot(p + n), |items|) == items
  {
    hide Slot, Window;
    WindowSplit(buf, p, n, |items|);
    SuffixesEqual(Window(buf, p, n), Window(buf, Slot(p + n), |items|), q, items);
  }

  /** The line printed after a consumer turn lists exactly the oldest items, in order. */
  lemma {:induction false} ReportConsumedExact(s: BufferState, k: nat)
    requires WellFormed(s) && k <= s.count
    ensures ReportConsumed(s, DropMany(s, k)) == Consumed(k, Live(s)[..k])
  {
    hide Slot;
    WindowSplit(s.buf, s.consP, k, s.count - k);
  }

  lemma SuffixesEqual<T>(a: seq<T>, b: seq<T>, c: seq<T>, d: seq<T>)
    requires a + b == c + d && |b| == |d|
    ensures b == d
  {
    assert b == (a + b)[|a|..] && d == (c + d)[|c|..];
  }

  // ---------- The unbounded queue ----------

  /** The same system with one queue and no ring: 20 only bounds what may be added. */
  datatype Fifo = Fifo(queue: seq<int32>, r1: nat, r2: nat)

  function FifoTurn(c: char, f: Fifo, dice: Dice): (r: (Fifo, seq<Line>))
    requires |f.queue| <= SLOTS
    ensures |r.0.queue| <= SLOTS
  {
    if c == '1' then
      var items := Items(dice.prod, f.r1, |f.queue|);
      var queue := f.queue + items;
      (Fifo(queue, f.r1 + 1 + |items|, f.r2), [Produced(|items|, items), Hypvsr(queue)])
    else if c == '2' then
      var k := ConsumeCount(dice.cons(f.r2), |f.queue|);
      (Fifo(f.queue[k..], f.r1, f.r2 + 1), [Consumed(k, f.queue[..k]), Hypvsr(f.queue[k..])])
    else (f, [])
  }

  function FifoRun(sched: string, f: Fifo, dice: Dice): (r: (Fifo, seq<Line>))
    requires |f.queue| <= SLOTS
    ensures |r.0.queue| <= SLOTS
  {
    if sched == "" then (f, []) else
      var (f1, log1) := FifoRun(sched[..|sched| - 1], f, dice);
      var (f2, log2) := FifoTurn(sched[|sched| - 1], f1, dice);
      (f2, log1 + log2)
  }

  /** The queue a coherent system stands for. */
  function Abs(w: Sys): Fifo
    requires Sound(w)
  {
    Fifo(Live(w.shared), w.r1, w.r2)
  }

  lemma {:induction false} TurnRefinesFifo(c: char, w: Sys, dice: Dice)
    requires Coherent(w)
    ensures Coherent(Turn(c, w, BOTH, dice).0)
    ensures FifoTurn(c, Abs(w), dice) == (Abs(Turn(c, w, BOTH, dice).0), Turn(c, w, BOTH, dice).1)
  {
    hide Slot, Window, Draw, PutAll, DropMany;
    if c == '1' {
      ReportProducedExact(w.shared, Items(dice.prod, w.r1, w.shared.count));
    } else if c == '2' {
      ReportConsumedExact(w.shared, ConsumeCount(dice.cons(w.r2), w.shared.count));
    }
  }

  /** MAIN RESULT. For every schedule and every choice of the guests, emu4 prints exactly
      what the queue prints, ends with all three copies equal, and stands for the queue. */
  lemma {:induction false} RunRefinesFifo(sched: string, w: Sys, dice: Dice)
    requires Coherent(w)
    ensures Coherent(Run(sched, w, BOTH, dice).0)
    ensures FifoRun(sched, Abs(w), dice) == (Abs(Run(sched, w, BOTH, dice).0), Run(sched, w, BOTH, dice).1)
  {
    if sched != "" {
      RunRefinesFifo(sched[..|sched| - 1], w, dice);
      TurnRefinesFifo(sched[|sched| - 1], Run(sched[..|sched| - 1], w, BOTH, dice).0, dice);
    }
  }

  // ---------- Conservation over whole runs ----------

  function ProducedIn(l: Line): seq<int32> {
    if l.Produced? then l.values else []
  }

  function ConsumedIn(l: Line): seq<int32> {
    if l.Consumed? then l.values else []
  }

  /** Every value printed as produced, in order. */
  function AllProduced(log: seq<Line>): seq<int32> {
    if log == [] then [] else AllProduced(log[..|log| - 1]) + ProducedIn(log[|log| - 1])
  }

  /** Every value printed as consumed, in order. */
  function AllConsumed(log: seq<Line>): seq<int32> {
    if log == [] then [] else AllConsumed(log[..|log| - 1]) + ConsumedIn(log[|log| - 1])
  }

  /** The last list printed after HYPVSR, or what is given when there is none. */
  function LastRing(log: seq<Line>, none: seq<int32>): seq<int32> {
    if log == [] then none
    else if log[|log| - 1].Hypvsr? then log[|log| - 1].values
    else LastRing(log[..|log| - 1], none)
  }

  lemma LogAppend(l1: seq<Line>, l2: seq<Line>, none: seq<int32>)
    ensures AllProduced(l1 + l2) == AllProduced(l1) + AllProduced(l2)
    ensures AllConsumed(l1 + l2) == AllConsumed(l1) + AllConsumed(l2)
    ensures LastRing(l1 + l2, none) == LastRing(l2, LastRing(l1, none))
  {
    ProducedAppend(l1, l2);
    ConsumedAppend(l1, l2);
    RingAppend(l1, l2, none);
  }

  lemma ProducedLast(log: seq<Line>)
    ensures AllProduced(log) == if log == [] then [] else AllProduced(log[..|log| - 1]) + ProducedIn(log[|log| - 1])
  {
  }

  lemma {:induction false} ProducedAppend(l1: seq<Line>, l2: seq<Line>)
    ensures AllProduced(l1 + l2) == AllProduced(l1) + AllProduced(l2)
  {
    hide *;
    ProducedLast(l2);
    ProducedLast(l1 + l2);
    if l2 == [] {
      assert l1 + l2 == l1;
    } else {
      var init := l2[..|l2| - 1];
      assert (l1 + l2)[..|l1 + l2| - 1] == l1 + init;
      ProducedAppend(l1, init);
      assert AllProduced(l1) + AllProduced(init) + ProducedIn(l2[|l2| - 1])
          == AllProduced(l1) + (AllProduced(init) + ProducedIn(l2[|l2| - 1]));
    }
  }

  lemma ConsumedLast(log: seq<Line>)
    ensures AllConsumed(log) == if log == [] then [] else AllConsumed(log[..|log| - 1]) + ConsumedIn(log[|log| - 1])
  {
  }

  lemma {:induction false} ConsumedAppend(l1: seq<Line>, l2: seq<Line>)
    ensures AllConsumed(l1 + l2) == AllConsumed(l1) + AllConsumed(l2)
  {
    hide *;
    ConsumedLast(l2);
    ConsumedLast(l1 + l2);
    if l2 == [] {
      assert l1 + l2 == l1;
    } else {
      var init := l2[..|l2| - 1];
      assert (l1 + l2)[..|l1 + l2| - 1] == l1 + init;
      ConsumedAppend(l1, init);
      assert AllConsumed(l1) + AllConsumed(init) + ConsumedIn(l2[|l2| - 1])
          == AllConsumed(l1) + (AllConsumed(init) + ConsumedIn(l2[|l2| - 1]));
    }
  }

  lemma {:induction false} RingAppend(l1: seq<Line>, l2: seq<Line>, none: seq<int32>)
    ensures LastRing(l1 + l2, none) == LastRing(l2, LastRing(l1, none))
  {
    if l2 == [] {
      assert l1 + l2 == l1;
    } else {
      RingAppend(l1, l2[..|l2| - 1], none);
      assert (l1 + l2)[..|l1 + l2| - 1] == l1 + l2[..|l2| - 1];
    }
  }

  /** What one turn's two lines add to each total. */
  lemma TurnLog(a: Line, b: Line, none: seq<int32>)
    requires b.Hypvsr?
    ensures AllProduced([a, b]) == ProducedIn(a)
    ensures AllConsumed([a, b]) == ConsumedIn(a)
    ensures LastRing([a, b], none) == b.values
  {
    assert [a, b][..1] == [a] && [a][..0] == [];
    assert AllProduced([a]) == [] + ProducedIn(a) == ProducedIn(a);
    assert AllConsumed([a]) == [] + ConsumedIn(a) == ConsumedIn(a);
  }

  lemma FifoTurnConserves(c: char, f: Fifo, dice: Dice)
    requires |f.queue| <= SLOTS
    ensures var (g, log) := FifoTurn(c, f, dice);
            && f.queue + AllProduced(log) == AllConsumed(log) + g.queue
            && LastRing(log, f.queue) == g.queue
            && |AllProduced(log)| <= (if c == '1' then 10 else 0)
            && |AllConsumed(log)| <= (if c == '2' then 10 else 0)
  {
    var (g, log) := FifoTurn(c, f, dice);
    if c in "12" {
      TurnLog(log[0], log[1], f.queue);
      assert log == [log[0], log[1]];
      var k := |f.queue| - |g.queue|;
      assert c == '2' ==> f.queue == f.queue[..k] + f.queue[k..];
    }
    assert f.queue + [] == f.queue == [] + f.queue;
    assert [] + g.queue == g.queue;
  }

  lemma {:induction false} FifoConserves(sched: string, f: Fifo, dice: Dice)
    requires |f.queue| <= SLOTS
    ensures var (g, log) := FifoRun(sched, f, dice);
            && f.queue + AllProduced(log) == AllConsumed(log) + g.queue
            && LastRing(log, f.queue) == g.queue
  {
    if sched == "" {
      assert f.queue + [] == f.queue == [] + f.queue;
    } else {
      FifoConserves(sched[..|sched| - 1], f, dice);
      var (f1, log1) := FifoRun(sched[..|sched| - 1], f, dice);
      var (f2, log2) := FifoTurn(sched[|sched| - 1], f1, dice);
      FifoTurnConserves(sched[|sched| - 1], f1, dice);
      LogAppend(log1, log2, f.queue);
      Exchange(f.queue, AllProduced(log1), AllConsumed(log1), f1.queue,
               AllProduced(log2), AllConsumed(log2), f2.queue);
    }
  }

  lemma Exchange(q: seq<int32>, p1: seq<int32>, c1: seq<int32>, q1: seq<int32>,
                 p2: seq<int32>, c2: seq<int32>, q2: seq<int32>)
    requires q + p1 == c1 + q1 && q1 + p2 == c2 + q2
    ensures q + (p1 + p2) == c1 + c2 + q2
  {
    assert q + (p1 + p2) == q + p1 + p2 == c1 + q1 + p2 == c1 + (q1 + p2) == c1 + (c2 + q2);
  }

  /** MAIN RESULT. The items in the ring at the start and everything printed as produced are
      everything printed as consumed followed by the last ring printed: nothing is lost,
      duplicated or reordered. From an empty ring the first and the default list are empty. */
  lemma {:induction false} WholeRunFifo(sched: string, w: Sys, dice: Dice)
    requires Coherent(w)
    ensures var log := Run(sched, w, BOTH, dice).1;
            && Live(w.shared) + AllProduced(log) == AllConsumed(log) + LastRing(log, Live(w.shared))
            && (w.shared.count == 0 ==> AllProduced(log) == AllConsumed(log) + LastRing(log, []))
  {
    hide Run, FifoRun, AllProduced, AllConsumed, LastRing, Window;
    RunRefinesFifo(sched, w, dice);
    FifoConserves(sched, Abs(w), dice);
    var log := Run(sched, w, BOTH, dice).1;
    assert [] + AllProduced(log) == AllProduced(log);
  }

  /** MAIN RESULT. Any run keeps the slot law in all three copies, its history growing by
      exactly what is printed. */
  lemma {:induction false} RunKeepsSlotLaw(sched: string, w: Sys, dice: Dice, made: seq<int32>, consumed: nat)
    requires Coherent(w) && SlotLaw(w.shared, made, consumed)
    ensures var (v, log) := Run(sched, w, BOTH, dice);
            && v.m1 == v.shared == v.m2
            && SlotLaw(v.shared, made + AllProduced(log), consumed + |AllConsumed(log)|)
  {
    hide Run, FifoRun, AllProduced, AllConsumed, LastRing, Window, Slot;
    var (v, log) := Run(sched, w, BOTH, dice);
    RunRefinesFifo(sched, w, dice);
    FifoConserves(sched, Abs(w), dice);
    ConsumerPointer(sched, w, dice);
    HistoryGrows(w.shared, v.shared, made, consumed, AllProduced(log), AllConsumed(log));
  }

  lemma HistoryGrows(s: BufferState, t: BufferState, made: seq<int32>, consumed: nat,
                     put: seq<int32>, taken: seq<int32>)
    requires SlotLaw(s, made, consumed) && WellFormed(s) && WellFormed(t)
    requires Live(s) + put == taken + Live(t)
    requires t.consP == Slot(s.consP + |taken|)
    ensures SlotLaw(t, made + put, consumed + |taken|)
  {
    LiveIsHistory(s, made, consumed);
    SlotAdd(consumed, |taken|);
    assert (made + put)[consumed..] == made[consumed..] + put;
    assert (made + put)[consumed + |taken|..] == (taken + Live(t))[|taken|..];
    HistoryIsLive(t, made + put, consumed + |taken|);
  }

  /** The slot law from the empty ring on: the history is the whole log. */
  lemma {:induction false} SlotLawAlways(sched: string, dice: Dice)
    ensures Coherent(START)
    ensures var (w, log) := Run(sched, START, BOTH, dice);
            && w.m1 == w.shared == w.m2
            && SlotLaw(w.shared, AllProduced(log), |AllConsumed(log)|)
  {
    hide Run, AllProduced, AllConsumed;
    RunKeepsSlotLaw(sched, START, dice, [], 0);
    var log := Run(sched, START, BOTH, dice).1;
    assert [] + AllProduced(log) == AllProduced(log);
  }

  /** cons_p advances by the number of consumed items, modulo 20. */
  lemma {:induction false} ConsumerPointer(sched: string, w: Sys, dice: Dice)
    requires Coherent(w)
    ensures var (v, log) := Run(sched, w, BOTH, dice);
            v.shared.consP == Slot(w.shared.consP + |AllConsumed(log)|)
  {
    hide Turn, FifoRun, Abs, AllProduced, Window, Slot;
    SlotSmall(w.shared.consP);
    if sched != "" {
      var init, c := sched[..|sched| - 1], sched[|sched| - 1];
      ConsumerPointer(init, w, dice);
      RunRefinesFifo(init, w, dice);
      var r1 := Run(init, w, BOTH, dice);
      var r2 := Turn(c, r1.0, BOTH, dice);
      assert Run(sched, w, BOTH, dice) == (r2.0, r1.1 + r2.1);
      TurnPointer(c, r1.0, dice);
      PointersAdd(w.shared.consP, r1.1, r2.1);
    }
  }

  lemma PointersAdd(p: nat, log1: seq<Line>, log2: seq<Line>)
    ensures Slot(Slot(p + |AllConsumed(log1)|) + |AllConsumed(log2)|) == Slot(p + |AllConsumed(log1 + log2)|)
  {
    hide *;
    LogAppend(log1, log2, []);
    SlotAdd(p + |AllConsumed(log1)|, |AllConsumed(log2)|);
  }

  lemma TurnPointer(c: char, w: Sys, dice: Dice)
    requires Coherent(w)
    ensures var (v, log) := Turn(c, w, BOTH, dice);
            v.shared.consP == Slot(w.shared.consP + |AllConsumed(log)|)
  {
    hide Slot, Window, PutAll, Items;
    SlotSmall(w.shared.consP);
    var (v, log) := Turn(c, w, BOTH, dice);
    TurnRefinesFifo(c, w, dice);
    if c in "12" {
      TurnLog(log[0], log[1], []);
      assert log == [log[0], log[1]];
    }
    if c == '2' {
      DropManyPointer(w.shared, ConsumeCount(dice.cons(w.r2), w.shared.count));
    }
  }

  lemma {:induction false} DropManyPointer(s: BufferState, k: nat)
    requires WellFormed(s) && k <= s.count
    ensures DropMany(s, k).consP == Slot(s.consP + k)
  {
    hide Slot, Window;
    SlotSmall(s.consP);
    if k != 0 {
      DropManyPointer(s, k - 1);
      SlotAdd(s.consP + k - 1, 1);
    }
  }

  // ---------- Only the live window matters ----------

  /** MAIN RESULT. Two coherent systems with the same live items, wherever they lie in the
      buffer and whatever the dead slots hold, print the same and keep the same live items. */
  lemma {:induction false} SameLiveSameOutput(sched: string, w: Sys, v: Sys, dice: Dice)
    requires Coherent(w) && Coherent(v)
    requires Live(w.shared) == Live(v.shared) && w.r1 == v.r1 && w.r2 == v.r2
    ensures Run(sched, w, BOTH, dice).1 == Run(sched, v, BOTH, dice).1
    ensures Live(Run(sched, w, BOTH, dice).0.shared) == Live(Run(sched, v, BOTH, dice).0.shared)
  {
    RunRefinesFifo(sched, w, dice);
    RunRefinesFifo(sched, v, dice);
  }

  /** The record with the buffer and both pointers turned by d slots. */
  function Rotate(s: BufferState, d: nat): (r: BufferState)
    requires WellFormed(s) && d <= SLOTS
  {
    BufferState(Slot(s.prodP + d), Slot(s.consP + d), s.count,
                seq(SLOTS, i requires 0 <= i < SLOTS => s.buf[Slot(i + SLOTS - d)]))
  }

  /** Turning the ring keeps the live items. */
  lemma {:induction false} RotateKeepsLive(s: BufferState, d: nat)
    requires WellFormed(s) && d <= SLOTS
    ensures WellFormed(Rotate(s, d)) && Live(Rotate(s, d)) == Live(s)
  {
    hide Slot;
    var r := Rotate(s, d);
    SlotAdd(s.consP + s.count, d);
    SlotAdd(s.consP + d, s.count);
    assert s.consP + d + s.count == s.consP + s.count + d;
    forall j: nat | j < s.count
      ensures At(r.buf, r.consP, j) == At(s.buf, s.consP, j)
    {
      RotatedSlot(s.consP + j, d);
      SlotAdd(s.consP + d, j);
      assert s.consP + d + j == s.consP + j + d;
    }
    WindowSame(r.buf, r.consP, s.buf, s.consP, s.count);
  }

  lemma RotatedSlot(a: nat, d: nat)
    requires d <= SLOTS
    ensures Slot(Slot(a + d) + SLOTS - d) == Slot(a)
  {
    SlotAdd(a + d, SLOTS - d);
    assert Slot(a + SLOTS) == Slot(a);
  }

  /** MAIN RESULT. A run does not see by how far the ring is turned. */
  lemma {:induction false} RotationInvisible(sched: string, w: Sys, d: nat, dice: Dice)
    requires Coherent(w) && d <= SLOTS
    ensures var s := Rotate(w.shared, d);
            var v := Sys(s, s, s, w.r1, w.r2);
            Coherent(v) && Run(sched, v, BOTH, dice).1 == Run(sched, w, BOTH, dice).1
  {
    RotateKeepsLive(w.shared, d);
    var s := Rotate(w.shared, d);
    SameLiveSameOutput(sched, w, Sys(s, s, s, w.r1, w.r2), dice);
  }

  // ---------- Which copies are needed ----------

  /** MAIN RESULT. From a coherent start the copy made before a turn never changes
      anything: all states and all output are the same without it. */
  lemma {:induction false} CopyBeforeRedundant(sched: string, w: Sys, dice: Dice)
    requires Coherent(w)
    ensures Run(sched, w, Copies(false, true), dice) == Run(sched, w, BOTH, dice)
  {
    if sched != "" {
      var init := sched[..|sched| - 1];
      CopyBeforeRedundant(init, w, dice);
      RunRefinesFifo(init, w, dice);
      TurnIgnoresCopyBefore(sched[|sched| - 1], Run(init, w, BOTH, dice).0, dice);
    }
  }

  lemma TurnIgnoresCopyBefore(c: char, w: Sys, dice: Dice)
    requires Coherent(w)
    ensures Turn(c, w, Copies(false, true), dice) == Turn(c, w, BOTH, dice)
  {
  }

  /** The copy made after a turn is redundant for the output once the one before is made. */
  lemma {:induction false} CopyAfterRedundant(sched: string, w: Sys, dice: Dice)
    requires Coherent(w)
    ensures var (a, b) := (Run(sched, w, Copies(true, false), dice), Run(sched, w, BOTH, dice));
            a.1 == b.1 && a.0.shared == b.0.shared && a.0.r1 == b.0.r1 && a.0.r2 == b.0.r2
  {
    if sched != "" {
      CopyAfterRedundant(sched[..|sched| - 1], w, dice);
    }
  }

  /** One of the two is needed. With both, the third turn of "121" reports the one item that
      the guest makes when every time stamp is 1. */
  lemma {:induction false} ThirdTurnWithCopies(dice: Dice)
    requires forall i :: dice.prod(i) == 1 && dice.cons(i) == 1
    ensures Coherent(START)
    ensures var w := Run("12", START, BOTH, dice).0;
            ReportProduced(w.shared, ProducerTurn(w, BOTH, dice).0.shared) == Produced(1, [1])
  {
    OneThenTwo(BOTH, dice);
    RunRefinesFifo("12", START, dice);
    var w := Run("12", START, BOTH, dice).0;
    BatchOfOne(dice, 0);
    BatchOfOne(dice, w.r1);
    assert w.shared.count == 0;
    ReportProducedExact(w.shared, [1]);
  }

  /** Without them the producer never hears that its first item was taken, and the same
      third turn is reported as two items. */
  lemma {:induction false} ThirdTurnWithoutCopies(dice: Dice)
    requires forall i :: dice.prod(i) == 1 && dice.cons(i) == 1
    ensures Coherent(START)
    ensures var v := Run("12", START, Copies(false, false), dice).0;
            ReportProduced(v.shared, ProducerTurn(v, Copies(false, false), dice).0.shared) == Produced(2, [1, 1])
  {
    OneThenTwo(Copies(false, false), dice);
    BatchOfOne(dice, 0);
    BatchOfOne(dice, 2);
    TwoOnes();
  }

  lemma TwoOnes()
    ensures WellFormed(ZERO_STATE)
    ensures ReportProduced(ZERO_STATE, PutAll(PutAll(ZERO_STATE, [1]), [1])) == Produced(2, [1, 1])
  {
    hide Window, PutAll;
    var t := PutAll(PutAll(ZERO_STATE, [1]), [1]);
    assert Live(ZERO_STATE) == [];
    assert Live(t) == [] + [1] + [1] == [1, 1];
  }

  lemma BatchOfOne(dice: Dice, r: nat)
    requires forall i :: dice.prod(i) == 1
    ensures forall n | 0 <= n < SLOTS :: Items(dice.prod, r, n) == [1]
  {
    assert Draw(dice.prod, r + 1, 0) == [];
    assert Draw(dice.prod, r + 1, 1) == [] + [dice.prod(r + 1) % 100];
  }

  lemma OneThenTwo(cp: Copies, dice: Dice)
    requires Sound(START)
    ensures Run("12", START, cp, dice).0 == ConsumerTurn(ProducerTurn(START, cp, dice).0, cp, dice).0
  {
    assert "12"[..1] == "1" && "1"[..0] == "";
    assert Run("1", START, cp, dice).0 == ProducerTurn(START, cp, dice).0;
  }

  // ---------- What of the schedule matters, and how much moves ----------

  function Filtered(sched: string): string {
    if sched == "" then "" else
      Filtered(sched[..|sched| - 1]) +
      (if sched[|sched| - 1] in "12" then [sched[|sched| - 1]] else "")
  }

  /** A run depends only on the '1's and '2's of its schedule. */
  lemma {:induction false} ScheduleStutters(sched: string, w: Sys, cp: Copies, dice: Dice)
    requires Sound(w)
    ensures Run(sched, w, cp, dice) == Run(Filtered(sched), w, cp, dice)
  {
    if sched != "" {
      var init, c := sched[..|sched| - 1], sched[|sched| - 1];
      ScheduleStutters(init, w, cp, dice);
      if c in "12" {
        assert (Filtered(init) + [c])[..|Filtered(init)|] == Filtered(init);
      } else {
        var (w1, log1) := Run(init, w, cp, dice);
        assert log1 + [] == log1;
        assert Filtered(init) + "" == Filtered(init);
      }
    }
  }

  function Turns(sched: string, c: char): nat {
    if sched == "" then 0 else
      Turns(sched[..|sched| - 1], c) + (if sched[|sched| - 1] == c then 1 else 0)
  }

  lemma {:induction false} FifoTotals(sched: string, f: Fifo, dice: Dice)
    requires |f.queue| <= SLOTS
    ensures var log := FifoRun(sched, f, dice).1;
            && |AllProduced(log)| <= 10 * Turns(sched, '1')
            && |AllConsumed(log)| <= 10 * Turns(sched, '2')
  {
    if sched != "" {
      FifoTotals(sched[..|sched| - 1], f, dice);
      var (f1, log1) := FifoRun(sched[..|sched| - 1], f, dice);
      FifoTurnConserves(sched[|sched| - 1], f1, dice);
      LogAppend(log1, FifoTurn(sched[|sched| - 1], f1, dice).1, []);
    }
  }

  /** At most ten items move in a turn, so the totals are bounded by the schedule. */
  lemma {:induction false} TotalsBounded(sched: string, w: Sys, dice: Dice)
    requires Coherent(w)
    ensures var log := Run(sched, w, BOTH, dice).1;
            && |AllProduced(log)| <= 10 * Turns(sched, '1')
            && |AllConsumed(log)| <= 10 * Turns(sched, '2')
  {
    RunRefinesFifo(sched, w, dice);
    FifoTotals(sched, Abs(w), dice);
  }
}
