/** What each turn of emu4 prints, said in terms of the time stamps and of the lines printed
    before it alone: by induction on the schedule this fixes the whole output. */
module RingBatches {
  import opened Memory
  import opened RingState
  import opened RingProtocol

  /** n items move: as many as wanted, or, if there is no room for that many, all that fit. */
  ghost predicate CutTo(n: nat, wanted: nat, room: nat) {
    n <= wanted && n <= room && (n < wanted ==> n == room)
  }

  lemma {:induction false} DrawAt(tsc: nat -> word, r: nat, n: nat, i: nat)
    requires i < n
    ensures Draw(tsc, r, n)[i] == tsc(r + i) % 100
  {
    if i < n - 1 {
      DrawAt(tsc, r, n - 1, i);
    }
  }

  /** The items of a batch are the stamps after the one that fixed its length, modulo 100. */
  lemma ItemsAt(tsc: nat -> word, r: nat, count: int)
    requires 0 <= count <= SLOTS
    ensures var items := Items(tsc, r, count);
            && CutTo(|items|, tsc(r) % 11, SLOTS - count)
            && forall i :: 0 <= i < |items| ==> items[i] == tsc(r + 1 + i) % 100
  {
    var items := Items(tsc, r, count);
    forall i | 0 <= i < |items|
      ensures items[i] == tsc(r + 1 + i) % 100
    {
      DrawAt(tsc, r + 1, |items|, i);
    }
  }

  /** Every producer turn reads one time stamp for its length and one for each item, every
      consumer turn reads one. */
  lemma {:induction false} StampsRead(sched: string, f: Fifo, dice: Dice)
    requires |f.queue| <= SLOTS
    ensures var (g, log) := FifoRun(sched, f, dice);
            && g.r1 == f.r1 + Turns(sched, '1') + |AllProduced(log)|
            && g.r2 == f.r2 + Turns(sched, '2')
  {
    hide Items, AllProduced, AllConsumed, ConsumeCount;
    if sched == "" {
      assert AllProduced([]) == [] by { ProducedLast([]); }
    } else {
      var init, c := sched[..|sched| - 1], sched[|sched| - 1];
      StampsRead(init, f, dice);
      var (f1, log1) := FifoRun(init, f, dice);
      var log2 := FifoTurn(c, f1, dice).1;
      ProducedAppend(log1, log2);
      ProducedByTurn(c, f1, dice);
    }
  }

  lemma ProducedByTurn(c: char, f: Fifo, dice: Dice)
    requires |f.queue| <= SLOTS
    ensures AllProduced(FifoTurn(c, f, dice).1)
         == if c == '1' then Items(dice.prod, f.r1, |f.queue|) else []
  {
    hide Items, AllConsumed, ConsumeCount, LastRing;
    var log := FifoTurn(c, f, dice).1;
    if c in "12" {
      assert log == [log[0], log[1]];
      TurnLog(log[0], log[1], []);
    }
  }

  lemma RunSnoc(sched: string, c: char, w: Sys, dice: Dice)
    requires Coherent(w)
    ensures Coherent(Run(sched, w, BOTH, dice).0)
    ensures var w1 := Run(sched, w, BOTH, dice).0;
            Run(sched + [c], w, BOTH, dice).1 == Run(sched, w, BOTH, dice).1 + FifoTurn(c, Abs(w1), dice).1
  {
    hide Turn, FifoTurn, FifoRun, Abs;
    RunRefinesFifo(sched, w, dice);
    TurnRefinesFifo(c, Run(sched, w, BOTH, dice).0, dice);
    assert (sched + [c])[..|sched|] == sched;
  }

  /** The state a run has reached, as its output and its schedule show it. */
  lemma {:induction false} StateFromLog(sched: string, w: Sys, dice: Dice)
    requires Coherent(w)
    ensures Coherent(Run(sched, w, BOTH, dice).0)
    ensures var (v, log) := Run(sched, w, BOTH, dice);
            && Abs(v) == Fifo(Live(v.shared), w.r1 + Turns(sched, '1') + |AllProduced(log)|, w.r2 + Turns(sched, '2'))
            && Live(w.shared) + AllProduced(log) == AllConsumed(log) + Live(v.shared)
  {
    hide Run, FifoRun, AllProduced, AllConsumed, Window;
    RunRefinesFifo(sched, w, dice);
    FifoConserves(sched, Abs(w), dice);
    StampsRead(sched, Abs(w), dice);
  }

  /** The two lines of a producer turn that finds a queue and reads the stamps from r on. */
  ghost predicate ProducerLines(lines: seq<Line>, queue: seq<int32>, tsc: nat -> word, r: nat) {
    && |queue| <= SLOTS && |lines| == 2 && lines[0].Produced?
    && var vs := lines[0].values;
    && lines[0].n == |vs| && CutTo(|vs|, tsc(r) % 11, SLOTS - |queue|)
    && (forall i :: 0 <= i < |vs| ==> vs[i] == tsc(r + 1 + i) % 100)
    && lines[1] == Hypvsr(queue + vs)
  }

  /** The two lines of a consumer turn that finds a queue and reads the stamp t. */
  ghost predicate ConsumerLines(lines: seq<Line>, queue: seq<int32>, t: word) {
    && |lines| == 2 && lines[0].Consumed?
    && var k := |lines[0].values|;
    && lines[0].n == k && CutTo(k, t % 11, |queue|)
    && lines[0].values == queue[..k] && lines[1] == Hypvsr(queue[k..])
  }

  lemma FifoProducerLines(f: Fifo, dice: Dice)
    requires |f.queue| <= SLOTS
    ensures ProducerLines(FifoTurn('1', f, dice).1, f.queue, dice.prod, f.r1)
  {
    hide Items;
    ItemsAt(dice.prod, f.r1, |f.queue|);
  }

  lemma FifoConsumerLines(f: Fifo, dice: Dice)
    requires |f.queue| <= SLOTS
    ensures ConsumerLines(FifoTurn('2', f, dice).1, f.queue, dice.cons(f.r2))
  {
  }

  /** MAIN RESULT. What the next '1' prints after any schedule: the first stamp not yet read
      says how many items, the ring's free space alone cuts that number, the items are the
      stamps that follow, and the ring shown is everything produced and not yet consumed. */
  lemma {:induction false} ProducerBatch(sched: string, w: Sys, dice: Dice)
    requires Coherent(w)
    ensures var (log, next) := (Run(sched, w, BOTH, dice).1, Run(sched + "1", w, BOTH, dice).1);
            var made, taken := Live(w.shared) + AllProduced(log), |AllConsumed(log)|;
            && taken <= |made| && log <= next
            && ProducerLines(next[|log|..], made[taken..], dice.prod,
                             w.r1 + Turns(sched, '1') + |AllProduced(log)|)
  {
    hide Run, FifoRun, FifoTurn, AllProduced, AllConsumed, Turns, Live, Slot, ProducerLines, ConsumerLines;
    var (v, log) := Run(sched, w, BOTH, dice);
    StateFromLog(sched, w, dice);
    RunSnoc(sched, '1', w, dice);
    QueueFits(v);
    FifoProducerLines(Abs(v), dice);
    assert sched + "1" == sched + ['1'];
    assert (Live(w.shared) + AllProduced(log))[|AllConsumed(log)|..] == Live(v.shared);
  }

  /** MAIN RESULT. What the next '2' prints after any schedule: its stamp says how many items,
      what is in the ring alone cuts that number, and the items are the oldest ones that were
      produced and not yet consumed. */
  lemma {:induction false} ConsumerBatch(sched: string, w: Sys, dice: Dice)
    requires Coherent(w)
    ensures var (log, next) := (Run(sched, w, BOTH, dice).1, Run(sched + "2", w, BOTH, dice).1);
            var made, taken := Live(w.shared) + AllProduced(log), |AllConsumed(log)|;
            && taken <= |made| && log <= next
            && ConsumerLines(next[|log|..], made[taken..], dice.cons(w.r2 + Turns(sched, '2')))
  {
    hide Run, FifoRun, FifoTurn, AllProduced, AllConsumed, Turns, Live, Slot, ProducerLines, ConsumerLines;
    var (v, log) := Run(sched, w, BOTH, dice);
    StateFromLog(sched, w, dice);
    RunSnoc(sched, '2', w, dice);
    QueueFits(v);
    FifoConsumerLines(Abs(v), dice);
    assert sched + "2" == sched + ['2'];
    assert (Live(w.shared) + AllProduced(log))[|AllConsumed(log)|..] == Live(v.shared);
  }

  lemma QueueFits(w: Sys)
    requires Coherent(w)
    ensures Sound(w) && Abs(w).queue == Live(w.shared) && |Abs(w).queue| <= SLOTS
  {
  }
}
