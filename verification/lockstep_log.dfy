/** The joint logs of emu1 and emu2: in what order the lines about the two machines are
    printed, and what the lines say about how a run ended. */
module LockstepLog {
  import opened Memory
  import opened Lockstep

  // ---------- Any two guests: order and status ----------

  predicate Failed(log: seq<Event>) {
    Unexpected1 in log || Unexpected2 in log
  }

  /** A value costs the consumer n exits, unless one of them ends its turn. */
  lemma {:induction false} ConsumeStatus(b: seq<Instr>, c: Cpu, val: int32, n: nat)
    requires GoodProgram(b) && GoodCpu(b, c)
    ensures var (_, evs, st) := Consume(b, c, val, n);
            && (Unexpected2 in evs <==> st.Aborted?) && (Down2 in evs <==> st.Stopped?)
            && (st.Running? ==> |evs| == n)
            && Unexpected1 !in evs && Down1 !in evs
    decreases n
  {
    hide Resume, GoodProgram, GoodCpu;
    if n != 0 {
      ConsumeStatus(b, c, val, n - 1);
    }
  }

  lemma {:induction false} DrainStatus(b: seq<Instr>, c: Cpu, vals: seq<int32>)
    requires GoodProgram(b) && GoodCpu(b, c)
    ensures var (_, evs, ok) := Drain(b, c, vals);
            && (Unexpected2 in evs <==> !ok)
            && Unexpected1 !in evs && Down1 !in evs
  {
    hide Consume, GoodProgram, GoodCpu;
    if vals != [] {
      var init := vals[..|vals| - 1];
      DrainStatus(b, c, init);
      ConsumeStatus(b, Drain(b, c, init).0, vals[|vals| - 1], 2);
    }
  }

  lemma {:induction false} BurstStatus(a: seq<Instr>, p: Cpu, k: nat)
    requires GoodProgram(a) && GoodCpu(a, p)
    ensures var (_, evs, _, st) := Burst(a, p, k);
            && (Unexpected1 in evs <==> st.Aborted?)
            && Unexpected2 !in evs
  {
    hide Produce, GoodProgram, GoodCpu;
    if k != 0 {
      BurstStatus(a, p, k - 1);
    }
  }

  /** For any guest programs: emu1 ends with the producer's shutdown or at an unexpected exit,
      and at nothing else. */
  lemma {:induction false} AlternationStops(a: seq<Instr>, b: seq<Instr>, s: Pair, n: nat)
    requires GoodPair(a, b, s) && s.log == [] && s.status.Running?
    ensures var t := AltRounds(a, b, s, n);
            && (t.status.Stopped? <==> Down1 in t.log)
            && (t.status.Aborted? <==> Failed(t.log))
  {
    hide Produce, Consume, GoodProgram, GoodCpu;
    if n != 0 {
      AlternationStops(a, b, s, n - 1);
      var t := AltRounds(a, b, s, n - 1);
      var ev := Produce(a, t.p).1;
      if t.status.Running? && ev.Produced? {
        ConsumeStatus(b, t.c, ev.v, 2);
      }
    }
  }

  /** For any guest programs: emu2 goes on after the producer's shutdown and ends only at an
      unexpected exit. */
  lemma {:induction false} BurstsStop(a: seq<Instr>, b: seq<Instr>, s: Pair, k: nat, n: nat)
    requires GoodPair(a, b, s) && s.log == [] && s.status.Running?
    ensures var t := BurstRounds(a, b, s, k, n);
            !t.status.Stopped? && (t.status.Aborted? <==> Failed(t.log))
  {
    hide Burst, Drain, GoodProgram, GoodCpu;
    if n != 0 {
      BurstsStop(a, b, s, k, n - 1);
      var t := BurstRounds(a, b, s, k, n - 1);
      BurstStatus(a, t.p, k);
      DrainStatus(b, t.c, Burst(a, t.p, k).2);
    }
  }

  /** For any guest programs: one burst prints all its lines about the producer before any line
      about the consumer. */
  lemma {:induction false} BurstOrder(a: seq<Instr>, b: seq<Instr>, s: Pair, k: nat)
    requires GoodPair(a, b, s)
    ensures var t := BurstRound(a, b, s, k);
            && s.log <= t.log
            && var more := t.log[|s.log|..];
            more == Output(more, true) + Output(more, false)
  {
    hide Burst, Drain, GoodProgram, GoodCpu, Output;
    var (_, evs, vals, st) := Burst(a, s.p, k);
    var evs' := if st.Aborted? then [] else Drain(b, s.c, vals).1;
    BurstEvents(a, s.p, k);
    DrainEvents(b, s.c, vals);
    OutputNone();
    OutputAppend(evs, evs', true);
    OutputAppend(evs, evs', false);
    assert BurstRound(a, b, s, k).log == s.log + (evs + evs');
    assert evs + [] == evs && [] + evs' == evs';
  }

  lemma OutputNone()
    ensures Output([], true) == [] == Output([], false)
  {
  }

  // ---------- The repository's consumer with any producer ----------

  /** The values that a log says were produced. */
  function Made(log: seq<Event>): seq<int32> {
    if log == [] then [] else
      Made(log[..|log| - 1]) + (if log[|log| - 1].Produced? then [log[|log| - 1].v] else [])
  }

  lemma {:induction false} MadeAppend(l1: seq<Event>, l2: seq<Event>)
    ensures Made(l1 + l2) == Made(l1) + Made(l2)
  {
    if l2 == [] {
      assert l1 + l2 == l1;
    } else {
      MadeAppend(l1, l2[..|l2| - 1]);
      assert (l1 + l2)[..|l1 + l2| - 1] == l1 + l2[..|l2| - 1];
    }
  }

  lemma {:induction false} MadeByBurst(a: seq<Instr>, p: Cpu, k: nat)
    requires GoodProgram(a) && GoodCpu(a, p)
    ensures Made(Burst(a, p, k).1) == Burst(a, p, k).2
  {
    hide Produce, GoodProgram, GoodCpu;
    if k != 0 {
      MadeByBurst(a, p, k - 1);
    }
  }

  lemma {:induction false} NoneMade(log: seq<Event>)
    requires forall e :: e in log ==> !OfFirst(e)
    ensures Made(log) == []
  {
    if log != [] {
      assert log[|log| - 1] in log;
      NoneMade(log[..|log| - 1]);
    }
  }

  lemma {:induction false} ConsumedAppend(v1: seq<int32>, v2: seq<int32>)
    ensures ConsumedLines(v1 + v2) == ConsumedLines(v1) + ConsumedLines(v2)
  {
    if v2 == [] {
      assert v1 + v2 == v1;
    } else {
      ConsumedAppend(v1, v2[..|v2| - 1]);
      assert (v1 + v2)[..|v1 + v2| - 1] == v1 + v2[..|v2| - 1];
    }
  }

  /** What one burst adds: exactly what it says was produced is handed over, however early the
      producer shut down. */
  lemma BurstConserves(a: seq<Instr>, s: Pair, k: nat)
    requires GoodPair(a, CONSUMER, s) && ConsumerParked(s.c)
    ensures var t := BurstRound(a, CONSUMER, s, k);
            && ConsumerParked(t.c)
            && (t.status.Aborted? ==> Unexpected1 in t.log)
            && (!t.status.Aborted? ==>
                 exists more: seq<Event> :: t.log == s.log + more && Output(more, false) == ConsumedLines(Made(more)))
  {
    hide Burst, Drain, GoodProgram, GoodCpu, Output, ConsumerParked, ConsumedLines;
    var (_, evs, vals, st) := Burst(a, s.p, k);
    var evs' := Drain(CONSUMER, s.c, vals).1;
    ConsumerRuns(s.c, vals);
    BurstStatus(a, s.p, k);
    BurstEvents(a, s.p, k);
    DrainEvents(CONSUMER, s.c, vals);
    DrainEventsSecond(CONSUMER, s.c, vals);
    OutputAppend(evs, evs', false);
    MadeByBurst(a, s.p, k);
    NoneMade(evs');
    MadeAppend(evs, evs');
    assert vals + [] == vals && [] + evs' == evs';
    var t := BurstRound(a, CONSUMER, s, k);
    assert !t.status.Aborted? ==> t.log == s.log + (evs + evs');
  }

  lemma NothingMade()
    ensures Made([]) == [] && Output([], false) == [] && ConsumedLines([]) == []
  {
  }

  /** MAIN RESULT. With the repository's consumer and any producer program: until an unexpected
      exit of the producer, every value printed as produced is consumed, once and in order,
      also those of a burst that the producer's shutdown cuts short. */
  lemma {:induction false} BurstsConserve(a: seq<Instr>, s: Pair, k: nat, n: nat)
    requires GoodPair(a, CONSUMER, s) && ConsumerParked(s.c) && s.log == [] && s.status.Running?
    ensures var t := BurstRounds(a, CONSUMER, s, k, n);
            && ConsumerParked(t.c)
            && (Unexpected1 !in t.log ==> Output(t.log, false) == ConsumedLines(Made(t.log)))
  {
    hide BurstRound, GoodProgram, GoodCpu, Output, ConsumerParked, ConsumedLines, Made;
    NothingMade();
    if n != 0 {
      BurstsConserve(a, s, k, n - 1);
      var t := BurstRounds(a, CONSUMER, s, k, n - 1);
      if t.status.Running? {
        BurstConserves(a, t, k);
        var u := BurstRound(a, CONSUMER, t, k);
        if !u.status.Aborted? {
          var more: seq<Event> :| u.log == t.log + more && Output(more, false) == ConsumedLines(Made(more));
          OutputAppend(t.log, more, false);
          MadeAppend(t.log, more);
          ConsumedAppend(Made(t.log), Made(more));
        }
      }
    }
  }

  // ---------- The repository's guests: every line ----------

  /** What n rounds of emu1 print. */
  function AlternationLog(high: seq<byte>, n: nat): seq<Event>
    requires |high| == 2
  {
    if n == 0 then [] else
      var v := ValueOf(high, n - 1);
      AlternationLog(high, n - 1) + [Produced(v), Consuming, Consumed(v)]
  }

  /** What one burst prints from the m-th value on. */
  function BurstLines(high: seq<byte>, m: nat): seq<Event>
    requires |high| == 2
  {
    var (u, v, w) := (ValueOf(high, m), ValueOf(high, m + 1), ValueOf(high, m + 2));
    [Produced(u), Produced(v), Produced(w), Consuming, Consumed(u), Consuming, Consumed(v), Consuming, Consumed(w)]
  }

  /** What n bursts of emu2 print. */
  function BurstLog(high: seq<byte>, n: nat): seq<Event>
    requires |high| == 2
  {
    if n == 0 then [] else BurstLog(high, n - 1) + BurstLines(high, 3 * (n - 1))
  }

  lemma ThreeMade(p: Cpu, m: nat, high: seq<byte>)
    requires |high| == 2 && ProducerParked(p, m, high)
    ensures GoodProgram(PRODUCER) && GoodCpu(PRODUCER, p)
    ensures var vals := [ValueOf(high, m), ValueOf(high, m + 1), ValueOf(high, m + 2)];
            var (q, evs, vs, st) := Burst(PRODUCER, p, 3);
            && ProducerParked(q, m + 3, high) && st.Running? && vs == vals
            && evs == [Produced(vals[0]), Produced(vals[1]), Produced(vals[2])]
  {
    hide Produce, ProducerParked, ValueOf, GoodProgram, GoodCpu;
    ProducerMakes(p, m, high);
    var p1 := Produce(PRODUCER, p).0;
    ProducerMakes(p1, m + 1, high);
    ProducerMakes(Produce(PRODUCER, p1).0, m + 2, high);
    assert Burst(PRODUCER, p, 0) == (p, [], [], Running);
    assert Burst(PRODUCER, p, 1) == (p1, [] + [Produced(ValueOf(high, m))], [] + [ValueOf(high, m)], Running);
    assert Burst(PRODUCER, p, 2).0 == Produce(PRODUCER, p1).0;
  }

  lemma ThreeConsumed(c: Cpu, u: int32, v: int32, w: int32)
    requires ConsumerParked(c)
    ensures GoodProgram(CONSUMER) && GoodCpu(CONSUMER, c)
    ensures var (d, evs, ok) := Drain(CONSUMER, c, [u, v, w]);
            && ConsumerParked(d) && ok
            && evs == [Consuming, Consumed(u), Consuming, Consumed(v), Consuming, Consumed(w)]
  {
    hide Drain, ConsumerParked, GoodProgram, GoodCpu;
    ConsumerRuns(c, [u, v, w]);
    assert [u, v, w][..2] == [u, v] && [u, v][..1] == [u] && [u][..0] == [];
    assert ConsumedLines([u, v]) == ConsumedLines([u]) + [Consuming, Consumed(v)];
  }

  /** MAIN RESULT. From reset, every line that emu1 prints: each value is consumed before the
      next is produced. */
  lemma {:induction false} AlternationPrints(s: Pair, n: nat)
    requires AtReset(s.p) && AtReset(s.c) && s.log == [] && s.status.Running?
    ensures GoodPair(PRODUCER, CONSUMER, s)
    ensures AltRounds(PRODUCER, CONSUMER, s, n).log == AlternationLog(s.p.pio[2..4], n)
  {
    hide Produce, Consume, GoodProgram, GoodCpu, ProducerParked, ConsumerParked, ValueOf, Values, ProducedLines,
      ConsumedLines, Output;
    LockstepSafe(s, n);
    if n != 0 {
      AlternationPrints(s, n - 1);
      LockstepSafe(s, n - 1);
      var t := AltRounds(PRODUCER, CONSUMER, s, n - 1);
      ProducerMakes(t.p, n - 1, s.p.pio[2..4]);
      ConsumerTakes(t.c, ValueOf(s.p.pio[2..4], n - 1));
    }
  }

  lemma BurstAdds(t: Pair, m: nat, high: seq<byte>)
    requires |high| == 2 && ProducerParked(t.p, m, high) && ConsumerParked(t.c)
    ensures GoodPair(PRODUCER, CONSUMER, t)
    ensures BurstRound(PRODUCER, CONSUMER, t, BURST).log == t.log + BurstLines(high, m)
  {
    hide Burst, Drain, GoodProgram, GoodCpu, ProducerParked, ConsumerParked, ValueOf;
    ThreeMade(t.p, m, high);
    ThreeConsumed(t.c, ValueOf(high, m), ValueOf(high, m + 1), ValueOf(high, m + 2));
  }

  lemma BurstsParked(s: Pair, n: nat)
    requires AtReset(s.p) && AtReset(s.c) && s.log == [] && s.status.Running?
    ensures GoodPair(PRODUCER, CONSUMER, s)
    ensures var t := BurstRounds(PRODUCER, CONSUMER, s, BURST, n);
            t.status.Running? && ProducerParked(t.p, 3 * n, s.p.pio[2..4]) && ConsumerParked(t.c)
  {
    hide *;
    LockstepSafe(s, n);
  }

  /** MAIN RESULT. From reset, every line that emu2 prints: three values are produced, then the
      three are consumed. */
  lemma {:induction false} BurstsPrint(s: Pair, n: nat)
    requires AtReset(s.p) && AtReset(s.c) && s.log == [] && s.status.Running?
    ensures GoodPair(PRODUCER, CONSUMER, s)
    ensures BurstRounds(PRODUCER, CONSUMER, s, BURST, n).log == BurstLog(s.p.pio[2..4], n)
  {
    hide BurstRound, BurstLines, GoodProgram, GoodCpu, ProducerParked, ConsumerParked, ValueOf, Values, ProducedLines,
      ConsumedLines, Output;
    BurstsParked(s, n);
    if n != 0 {
      BurstsPrint(s, n - 1);
      BurstsParked(s, n - 1);
      var t := BurstRounds(PRODUCER, CONSUMER, s, BURST, n - 1);
      var high := s.p.pio[2..4];
      BurstAdds(t, 3 * (n - 1), high);
    }
  }
}
