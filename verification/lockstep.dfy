/** emu1 and emu2: a producer and a consumer guest in 16-bit assembly, resumed exit by exit
    by a hypervisor that hands values over, one at a time (emu1) or in bursts of three
    (emu2). The guests are run by a small interpreter, so everything up to the last section
    holds for any two guest programs. */
module Lockstep {
  import opened Memory

  // ---------- Guests ----------

  datatype Instr =
    | XorAx
    | IncAx
    | InAx(port: nat)
    | OutAx(port: nat)
    | Jmp(to: nat)
    | Hlt
    | TripleFault

  datatype Exit = IoOut(port: nat) | IoIn(port: nat) | Shutdown | Halted

  /** A suspended guest. pio is the four bytes at the data offset of its kvm_run page, of
      which a 16-bit port instruction uses the first two. */
  datatype Cpu = Cpu(pc: nat, ax: nat, inPending: bool, pio: seq<byte>)

  predicate LeavesGuest(i: Instr) {
    i.InAx? || i.OutAx? || i.Hlt? || i.TripleFault?
  }

  /** Control never runs off the end, and every jump goes to an instruction that exits, so
      KVM_RUN always returns. */
  ghost predicate GoodProgram(prog: seq<Instr>) {
    && prog != []
    && (prog[|prog| - 1].Jmp? || prog[|prog| - 1].Hlt? || prog[|prog| - 1].TripleFault?)
    && forall k :: 0 <= k < |prog| && prog[k].Jmp? ==> prog[k].to < |prog| && LeavesGuest(prog[prog[k].to])
  }

  ghost predicate GoodCpu(prog: seq<Instr>, c: Cpu) {
    && c.pc < |prog| && c.ax < 0x1_0000 && |c.pio| == 4
    && (c.inPending ==> prog[c.pc].InAx?)
  }

  /** How far the guest is from its next exit. */
  function Distance(prog: seq<Instr>, pc: nat): nat
    requires pc < |prog|
  {
    if LeavesGuest(prog[pc]) then 0 else if prog[pc].Jmp? then 1 else 1 + |prog| - pc
  }

  /** One instruction, or the exit it causes. */
  function Step(prog: seq<Instr>, c: Cpu): (r: (Cpu, bool, Exit))
    requires GoodProgram(prog) && GoodCpu(prog, c) && !c.inPending
    ensures GoodCpu(prog, r.0)
    ensures r.1 == LeavesGuest(prog[c.pc])
    ensures !r.1 ==> !r.0.inPending && Distance(prog, r.0.pc) < Distance(prog, c.pc)
  {
    Pow256Values();
    match prog[c.pc]
    case XorAx => (c.(ax := 0, pc := c.pc + 1), false, Halted)
    case IncAx => (c.(ax := (c.ax + 1) % 0x1_0000, pc := c.pc + 1), false, Halted)
    case Jmp(to) => (c.(pc := to), false, Halted)
    case InAx(port) => (c.(inPending := true), true, IoIn(port))
    case OutAx(port) => (c.(pio := Splice(c.pio, 0, ToLE(c.ax, 2)), pc := c.pc + 1), true, IoOut(port))
    case Hlt => (c, true, Halted)
    case TripleFault => (c, true, Shutdown)
  }

  function Go(prog: seq<Instr>, c: Cpu): (r: (Exit, Cpu))
    requires GoodProgram(prog) && GoodCpu(prog, c) && !c.inPending
    ensures GoodCpu(prog, r.1)
    decreases Distance(prog, c.pc)
  {
    var (next, exits, e) := Step(prog, c);
    if exits then (e, next) else Go(prog, next)
  }

  lemma GoStep(prog: seq<Instr>, c: Cpu)
    requires GoodProgram(prog) && GoodCpu(prog, c) && !c.inPending
    ensures var (next, exits, e) := Step(prog, c);
            Go(prog, c) == if exits then (e, next) else Go(prog, next)
  {
  }

  /** A suspended IN takes its two bytes from the page before the guest goes on. */
  function Complete(prog: seq<Instr>, c: Cpu): (r: Cpu)
    requires GoodProgram(prog) && GoodCpu(prog, c)
    ensures GoodCpu(prog, r) && !r.inPending
  {
    Pow256Values();
    if c.inPending then c.(ax := FromLE(c.pio[0..2]), pc := c.pc + 1, inPending := false) else c
  }

  /** KVM_RUN. */
  function Resume(prog: seq<Instr>, c: Cpu): (r: (Exit, Cpu))
    requires GoodProgram(prog) && GoodCpu(prog, c)
    ensures GoodCpu(prog, r.1)
  {
    Go(prog, Complete(prog, c))
  }

  // ---------- The hypervisor's two halves ----------

  /** What is printed; which machine a line is about is part of the line. */
  datatype Event =
    | Produced(v: int32) | Down1 | Unexpected1
    | Consuming | Consumed(v: int32) | Down2 | Unexpected2

  datatype Status = Running | Stopped | Aborted

  /** One KVM_RUN of the producer: the new guest, and what the hypervisor prints. */
  function Produce(prog: seq<Instr>, p: Cpu): (r: (Cpu, Event))
    requires GoodProgram(prog) && GoodCpu(prog, p)
    ensures GoodCpu(prog, r.0)
    ensures r.1.Produced? || r.1.Down1? || r.1.Unexpected1?
  {
    var (e, p') := Resume(prog, p);
    (p', match e
         case IoOut(port) => if port == 0x10 then Produced(BytesInt(p'.pio)) else Unexpected1
         case Shutdown => Down1
         case _ => Unexpected1)
  }

  /** The consumer's part for one value: n KVM_RUNs, fewer if the guest shuts down (Stopped)
      or the hypervisor gives up (Aborted). */
  function Consume(prog: seq<Instr>, c: Cpu, val: int32, n: nat): (r: (Cpu, seq<Event>, Status))
    requires GoodProgram(prog) && GoodCpu(prog, c)
    ensures GoodCpu(prog, r.0)
    decreases n
  {
    if n == 0 then (c, [], Running) else
      var (d, evs, st) := Consume(prog, c, val, n - 1);
      if !st.Running? then (d, evs, st) else
        var (e, c') := Resume(prog, d);
        if e == IoOut(0x12) then (c', evs + [Consumed(BytesInt(c'.pio))], Running)
        else if e == IoIn(0x11) then (c'.(pio := IntBytes(val)), evs + [Consuming], Running)
        else if e == Shutdown then (c', evs + [Down2], Stopped)
        else (c', evs + [Unexpected2], Aborted)
  }

  // ---------- The two schedulers ----------

  datatype Pair = Pair(p: Cpu, c: Cpu, log: seq<Event>, status: Status)

  ghost predicate GoodPair(a: seq<Instr>, b: seq<Instr>, s: Pair) {
    GoodProgram(a) && GoodProgram(b) && GoodCpu(a, s.p) && GoodCpu(b, s.c)
  }

  /** emu1's loop body: one value made, then handed over. */
  function AltRound(a: seq<Instr>, b: seq<Instr>, s: Pair): (r: Pair)
    requires GoodPair(a, b, s)
    ensures GoodPair(a, b, r)
  {
    var (p', ev) := Produce(a, s.p);
    if ev.Down1? then Pair(p', s.c, s.log + [Down1], Stopped)
    else if ev.Unexpected1? then Pair(p', s.c, s.log + [Unexpected1], Aborted)
    else
      var (c', evs, st) := Consume(b, s.c, ev.v, 2);
      Pair(p', c', s.log + [ev] + evs, if st.Aborted? then Aborted else Running)
  }

  function AltRounds(a: seq<Instr>, b: seq<Instr>, s: Pair, n: nat): (r: Pair)
    requires GoodPair(a, b, s)
    ensures GoodPair(a, b, r)
  {
    if n == 0 then s else
      var t := AltRounds(a, b, s, n - 1);
      if t.status.Running? then AltRound(a, b, t) else t
  }

  /** emu2's producing loop: up to k values, fewer if the producer shuts down. */
  function Burst(a: seq<Instr>, p: Cpu, k: nat): (r: (Cpu, seq<Event>, seq<int32>, Status))
    requires GoodProgram(a) && GoodCpu(a, p)
    ensures GoodCpu(a, r.0)
    ensures |r.2| <= k && (r.3.Running? ==> |r.2| == k)
  {
    if k == 0 then (p, [], [], Running) else
      var (p', evs, vals, st) := Burst(a, p, k - 1);
      if !st.Running? then (p', evs, vals, st) else
        var (q, ev) := Produce(a, p');
        if ev.Produced? then (q, evs + [ev], vals + [ev.v], Running)
        else (q, evs + [ev], vals, if ev.Down1? then Stopped else Aborted)
  }

  /** emu2's consuming loop: each value of the burst in turn. */
  function Drain(b: seq<Instr>, c: Cpu, vals: seq<int32>): (r: (Cpu, seq<Event>, bool))
    requires GoodProgram(b) && GoodCpu(b, c)
    ensures GoodCpu(b, r.0)
  {
    if vals == [] then (c, [], true) else
      var (c', evs, ok) := Drain(b, c, vals[..|vals| - 1]);
      if !ok then (c', evs, false) else
        var (d, evs', st) := Consume(b, c', vals[|vals| - 1], 2);
        (d, evs + evs', !st.Aborted?)
  }

  const BURST: nat := 3

  /** emu2's loop body, for bursts of any length. A producer that shuts down only shortens
      the burst. */
  function BurstRound(a: seq<Instr>, b: seq<Instr>, s: Pair, k: nat): (r: Pair)
    requires GoodPair(a, b, s)
    ensures GoodPair(a, b, r)
  {
    var (p', evs, vals, st) := Burst(a, s.p, k);
    if st.Aborted? then Pair(p', s.c, s.log + evs, Aborted) else
      var (c', evs', ok) := Drain(b, s.c, vals);
      Pair(p', c', s.log + evs + evs', if ok then Running else Aborted)
  }

  function BurstRounds(a: seq<Instr>, b: seq<Instr>, s: Pair, k: nat, n: nat): (r: Pair)
    requires GoodPair(a, b, s)
    ensures GoodPair(a, b, r)
  {
    if n == 0 then s else
      var t := BurstRounds(a, b, s, k, n - 1);
      if t.status.Running? then BurstRound(a, b, t, k) else t
  }

  // ---------- Each machine's own output ----------

  predicate OfFirst(e: Event) {
    e.Produced? || e.Down1? || e.Unexpected1?
  }

  /** The lines about one of the two machines. */
  function Output(log: seq<Event>, first: bool): seq<Event> {
    if log == [] then [] else
      var init := Output(log[..|log| - 1], first);
      if OfFirst(log[|log| - 1]) == first then init + [log[|log| - 1]] else init
  }

  lemma {:induction false} OutputAppend(l1: seq<Event>, l2: seq<Event>, first: bool)
    ensures Output(l1 + l2, first) == Output(l1, first) + Output(l2, first)
  {
    if l2 == [] {
      assert l1 + l2 == l1;
    } else {
      var init := l2[..|l2| - 1];
      OutputAppend(l1, init, first);
      assert (l1 + l2)[..|l1 + l2| - 1] == l1 + init;
    }
  }

  lemma {:induction false} OutputAll(log: seq<Event>, first: bool)
    requires forall i :: 0 <= i < |log| ==> OfFirst(log[i]) == first
    ensures Output(log, first) == log && Output(log, !first) == []
  {
    if log != [] {
      OutputAll(log[..|log| - 1], first);
    }
  }

  lemma {:induction false} BurstEvents(a: seq<Instr>, p: Cpu, k: nat)
    requires GoodProgram(a) && GoodCpu(a, p)
    ensures var evs := Burst(a, p, k).1;
            Output(evs, true) == evs && Output(evs, false) == []
  {
    BurstEventsFirst(a, p, k);
    OutputAll(Burst(a, p, k).1, true);
  }

  lemma {:induction false} BurstEventsFirst(a: seq<Instr>, p: Cpu, k: nat)
    requires GoodProgram(a) && GoodCpu(a, p)
    ensures forall e :: e in Burst(a, p, k).1 ==> OfFirst(e)
  {
    if k != 0 {
      BurstEventsFirst(a, p, k - 1);
    }
  }

  lemma {:induction false} ConsumeEventsSecond(b: seq<Instr>, c: Cpu, val: int32, n: nat)
    requires GoodProgram(b) && GoodCpu(b, c)
    ensures forall e :: e in Consume(b, c, val, n).1 ==> !OfFirst(e)
    decreases n
  {
    if n != 0 {
      ConsumeEventsSecond(b, c, val, n - 1);
    }
  }

  lemma {:induction false} DrainEventsSecond(b: seq<Instr>, c: Cpu, vals: seq<int32>)
    requires GoodProgram(b) && GoodCpu(b, c)
    ensures forall e :: e in Drain(b, c, vals).1 ==> !OfFirst(e)
  {
    if vals != [] {
      DrainEventsSecond(b, c, vals[..|vals| - 1]);
      var (c', _, ok) := Drain(b, c, vals[..|vals| - 1]);
      ConsumeEventsSecond(b, c', vals[|vals| - 1], 2);
    }
  }

  lemma DrainEvents(b: seq<Instr>, c: Cpu, vals: seq<int32>)
    requires GoodProgram(b) && GoodCpu(b, c)
    ensures var evs := Drain(b, c, vals).1;
            Output(evs, false) == evs && Output(evs, true) == []
  {
    DrainEventsSecond(b, c, vals);
    OutputAll(Drain(b, c, vals).1, false);
  }

  // ---------- Bursts equal alternation, for any two guests ----------

  lemma {:induction false} BurstSplit(a: seq<Instr>, p: Cpu, m: nat, k: nat)
    requires GoodProgram(a) && GoodCpu(a, p)
    ensures var (p1, evs1, vals1, st1) := Burst(a, p, m);
            var (p2, evs2, vals2, st2) := Burst(a, p1, k);
            Burst(a, p, m + k) == if st1.Running? then (p2, evs1 + evs2, vals1 + vals2, st2)
                                  else (p1, evs1, vals1, st1)
  {
    hide Produce, GoodCpu, GoodProgram;
    var (p1, evs1, vals1, st1) := Burst(a, p, m);
    if k == 0 {
      assert evs1 + [] == evs1 && vals1 + [] == vals1;
    } else {
      BurstSplit(a, p, m, k - 1);
      if st1.Running? && Burst(a, p1, k - 1).3.Running? {
        var (q, evs2, vals2, _) := Burst(a, p1, k - 1);
        var ev := Produce(a, q).1;
        assert evs1 + evs2 + [ev] == evs1 + (evs2 + [ev]);
        assert ev.Produced? ==> vals1 + vals2 + [ev.v] == vals1 + (vals2 + [ev.v]);
      }
    }
  }

  lemma {:induction false} DrainSplit(b: seq<Instr>, c: Cpu, v1: seq<int32>, v2: seq<int32>)
    requires GoodProgram(b) && GoodCpu(b, c)
    ensures var (c1, evs1, ok1) := Drain(b, c, v1);
            var (c2, evs2, ok2) := Drain(b, c1, v2);
            Drain(b, c, v1 + v2) == if ok1 then (c2, evs1 + evs2, ok2) else (c1, evs1, false)
  {
    hide Consume, GoodCpu, GoodProgram;
    var (c1, evs1, ok1) := Drain(b, c, v1);
    if v2 == [] {
      assert v1 + v2 == v1 && evs1 + [] == evs1;
    } else {
      var init := v2[..|v2| - 1];
      DrainSplit(b, c, v1, init);
      assert (v1 + v2)[..|v1 + v2| - 1] == v1 + init;
      var (c2, evs2, ok2) := Drain(b, c1, init);
      if ok1 && ok2 {
        var evs3 := Consume(b, c2, v2[|v2| - 1], 2).1;
        assert evs1 + evs2 + evs3 == evs1 + (evs2 + evs3);
      }
    }
  }

  /** What n values made by one machine and taken by the other come to, each machine being
      run on its own. */
  function Apart(a: seq<Instr>, b: seq<Instr>, s: Pair, n: nat): (r: (Cpu, seq<Event>, Cpu, seq<Event>, bool))
    requires GoodPair(a, b, s)
  {
    var (p, evs, vals, st) := Burst(a, s.p, n);
    var (c, evs', ok) := Drain(b, s.c, vals);
    (p, evs, c, evs', st.Running? && ok)
  }

  ghost predicate Is(s: Pair, t: Pair, r: (Cpu, seq<Event>, Cpu, seq<Event>, bool)) {
    && t.p == r.0 && t.c == r.2
    && Output(t.log, true) == Output(s.log, true) + r.1
    && Output(t.log, false) == Output(s.log, false) + r.3
  }

  /** What m + k values come to, from what m come to. */
  lemma {:induction false} ApartSplit(a: seq<Instr>, b: seq<Instr>, s: Pair, t: Pair, m: nat, k: nat)
    requires GoodPair(a, b, s) && GoodPair(a, b, t)
    ensures !Apart(a, b, s, m).4 ==> !Apart(a, b, s, m + k).4
    ensures Apart(a, b, s, m).4 && t.p == Apart(a, b, s, m).0 && t.c == Apart(a, b, s, m).2 ==>
              var (r1, r2, r) := (Apart(a, b, s, m), Apart(a, b, t, k), Apart(a, b, s, m + k));
              r.4 == r2.4 && (r.4 ==> r == (r2.0, r1.1 + r2.1, r2.2, r1.3 + r2.3, true))
  {
    hide GoodCpu, GoodProgram, Burst, Drain;
    BurstSplit(a, s.p, m, k);
    var (p1, _, vals1, st1) := Burst(a, s.p, m);
    DrainSplit(b, s.c, vals1, Burst(a, p1, k).2);
  }

  lemma NothingApart(a: seq<Instr>, b: seq<Instr>, s: Pair)
    requires GoodPair(a, b, s)
    ensures Apart(a, b, s, 0).4 && Is(s, s, Apart(a, b, s, 0))
  {
  }

  /** emu1: alternating runs are the two machines run apart. */
  lemma {:induction false} AlternationApart(a: seq<Instr>, b: seq<Instr>, s: Pair, n: nat)
    requires GoodPair(a, b, s) && s.status.Running?
    ensures var t := AltRounds(a, b, s, n);
            t.status.Running? == Apart(a, b, s, n).4 && (t.status.Running? ==> Is(s, t, Apart(a, b, s, n)))
  {
    hide GoodCpu, GoodProgram, Output, Apart, AltRound;
    if n == 0 {
      NothingApart(a, b, s);
    } else {
      AlternationApart(a, b, s, n - 1);
      var t := AltRounds(a, b, s, n - 1);
      ApartSplit(a, b, s, t, n - 1, 1);
      if t.status.Running? {
        AltRoundApart(a, b, t);
        if Apart(a, b, t, 1).4 {
          IsCompose(s, t, AltRound(a, b, t), Apart(a, b, s, n - 1), Apart(a, b, t, 1));
        }
      }
    }
  }

  lemma IsCompose(s: Pair, t: Pair, u: Pair, r1: (Cpu, seq<Event>, Cpu, seq<Event>, bool),
                  r2: (Cpu, seq<Event>, Cpu, seq<Event>, bool))
    requires Is(s, t, r1) && Is(t, u, r2)
    ensures Is(s, u, (r2.0, r1.1 + r2.1, r2.2, r1.3 + r2.3, true))
  {
    hide Output;
  }

  lemma AltRoundApart(a: seq<Instr>, b: seq<Instr>, t: Pair)
    requires GoodPair(a, b, t)
    ensures var u := AltRound(a, b, t);
            u.status.Running? == Apart(a, b, t, 1).4 && (u.status.Running? ==> Is(t, u, Apart(a, b, t, 1)))
  {
    hide GoodCpu, GoodProgram, Produce, Consume, Output;
    var (p', ev) := Produce(a, t.p);
    assert Burst(a, t.p, 0) == (t.p, [], [], Running);
    if ev.Produced? {
      var (c', evs, st) := Consume(b, t.c, ev.v, 2);
      assert Burst(a, t.p, 1) == (p', [] + [ev], [] + [ev.v], Running);
      assert [ev.v][..0] == [] && [] + [ev.v] == [ev.v] && [] + evs == evs;
      assert Drain(b, t.c, []) == (t.c, [], true);
      assert Drain(b, t.c, [ev.v]) == (c', [] + evs, !st.Aborted?);
      assert [] + [ev] == [ev];
      OutputAppend(t.log + [ev], evs, true);
      OutputAppend(t.log + [ev], evs, false);
      OutputAppend(t.log, [ev], true);
      OutputAppend(t.log, [ev], false);
      BurstEvents(a, t.p, 1);
      DrainEvents(b, t.c, [ev.v]);
    }
  }

  /** emu2: as long as the producer does not shut down, bursts are the same two machines run
      apart. */
  lemma {:induction false} BurstsApart(a: seq<Instr>, b: seq<Instr>, s: Pair, k: nat, n: nat)
    requires GoodPair(a, b, s) && s.status.Running? && Down1 !in Output(s.log, true)
    ensures var t := BurstRounds(a, b, s, k, n);
            var good := t.status.Running? && Down1 !in Output(t.log, true);
            good == Apart(a, b, s, k * n).4 && (good ==> Is(s, t, Apart(a, b, s, k * n)))
  {
    hide GoodCpu, GoodProgram, Output, Apart, BurstRound;
    if n == 0 {
      assert k * n == 0;
      NothingApart(a, b, s);
    } else {
      BurstsApart(a, b, s, k, n - 1);
      var t := BurstRounds(a, b, s, k, n - 1);
      assert k * (n - 1) + k == k * n;
      ApartSplit(a, b, s, t, k * (n - 1), k);
      if t.status.Running? {
        BurstRoundApart(a, b, t, k);
        if Down1 !in Output(t.log, true) && Apart(a, b, t, k).4 {
          IsCompose(s, t, BurstRound(a, b, t, k), Apart(a, b, s, k * (n - 1)), Apart(a, b, t, k));
        }
      }
    }
  }

  lemma BurstRoundApart(a: seq<Instr>, b: seq<Instr>, t: Pair, k: nat)
    requires GoodPair(a, b, t)
    ensures var u := BurstRound(a, b, t, k);
            var good := u.status.Running? && Down1 !in Output(u.log, true);
            && good == (Apart(a, b, t, k).4 && Down1 !in Output(t.log, true))
            && (good ==> Is(t, u, Apart(a, b, t, k)))
  {
    hide GoodCpu, GoodProgram, Burst, Drain, Output;
    var (p', evs, vals, st) := Burst(a, t.p, k);
    var (c', evs', ok) := Drain(b, t.c, vals);
    BurstEvents(a, t.p, k);
    DrainEvents(b, t.c, vals);
    OutputAppend(t.log, evs, true);
    OutputAppend(t.log, evs, false);
    OutputAppend(t.log + evs, evs', true);
    OutputAppend(t.log + evs, evs', false);
    DownEndsBurst(a, t.p, k);
  }

  lemma {:induction false} DownEndsBurst(a: seq<Instr>, p: Cpu, k: nat)
    requires GoodProgram(a) && GoodCpu(a, p)
    ensures Down1 in Burst(a, p, k).1 <==> Burst(a, p, k).3.Stopped?
  {
    if k != 0 {
      DownEndsBurst(a, p, k - 1);
    }
  }

  /** MAIN RESULT. For any two guest programs, n bursts of k values and k * n alternating
      rounds either both fail or end with the same two guests, each having had the same lines
      printed about it, although the lines of the two are interleaved differently. */
  lemma {:induction false} BurstEqualsAlternation(a: seq<Instr>, b: seq<Instr>, s: Pair, k: nat, n: nat)
    requires GoodPair(a, b, s) && s.status.Running? && Down1 !in Output(s.log, true)
    ensures var (alt, burst) := (AltRounds(a, b, s, k * n), BurstRounds(a, b, s, k, n));
            && alt.status.Running? == (burst.status.Running? && Down1 !in Output(burst.log, true))
            && (alt.status.Running? ==>
                 && alt.p == burst.p && alt.c == burst.c
                 && Output(alt.log, true) == Output(burst.log, true)
                 && Output(alt.log, false) == Output(burst.log, false))
  {
    hide GoodCpu, GoodProgram, AltRounds, BurstRounds, Apart, Output;
    AlternationApart(a, b, s, k * n);
    BurstsApart(a, b, s, k, n);
  }

  // ---------- The guests of emu1 and emu2 ----------

  /** guest1a.s and guest2a.s. */
  const PRODUCER: seq<Instr> := [XorAx, OutAx(0x10), IncAx, Jmp(1)]

  /** guest1b.s and guest2b.s. */
  const CONSUMER: seq<Instr> := [XorAx, InAx(0x11), OutAx(0x12), Jmp(1)]

  /** A guest after kvm_reset_vcpu: at address 0, its other registers and the page as they are. */
  ghost predicate AtReset(c: Cpu) {
    c.pc == 0 && c.ax < 0x1_0000 && !c.inPending && |c.pio| == 4
  }

  /** The producer after n values: parked just behind its OUT (or at reset), the upper half of
      its page untouched. */
  ghost predicate ProducerParked(c: Cpu, n: nat, high: seq<byte>) {
    && |c.pio| == 4 && c.ax < 0x1_0000 && !c.inPending && c.pio[2..4] == high
    && (n == 0 ==> c.pc == 0)
    && (n > 0 ==> c.pc == 2 && c.ax == (n - 1) % 0x1_0000)
  }

  /** The consumer between two values: its next exits are IN 0x11 and OUT 0x12. */
  ghost predicate ConsumerParked(c: Cpu) {
    |c.pio| == 4 && c.ax < 0x1_0000 && !c.inPending && (c.pc == 0 || c.pc == 3)
  }

  /** The four bytes read for the n-th value: two from the OUT, two left in the page. */
  function ValueOf(high: seq<byte>, n: nat): int32
    requires |high| == 2
  {
    BytesInt(ToLE(n % 0x1_0000, 2) + high)
  }

  function Values(high: seq<byte>, n: nat): (vs: seq<int32>)
    requires |high| == 2
    ensures |vs| == n
    ensures forall i :: 0 <= i < n ==> vs[i] == ValueOf(high, i)
  {
    if n == 0 then [] else Values(high, n - 1) + [ValueOf(high, n - 1)]
  }

  function ProducedLines(vals: seq<int32>): seq<Event> {
    if vals == [] then [] else ProducedLines(vals[..|vals| - 1]) + [Produced(vals[|vals| - 1])]
  }

  function ConsumedLines(vals: seq<int32>): seq<Event> {
    if vals == [] then [] else
      ConsumedLines(vals[..|vals| - 1]) + [Consuming, Consumed(vals[|vals| - 1])]
  }

  lemma {:induction false} ProducerMakes(c: Cpu, n: nat, high: seq<byte>)
    requires |high| == 2 && ProducerParked(c, n, high)
    ensures GoodProgram(PRODUCER) && GoodCpu(PRODUCER, c)
    ensures Produce(PRODUCER, c).1 == Produced(ValueOf(high, n))
    ensures ProducerParked(Produce(PRODUCER, c).0, n + 1, high)
  {
    assert Complete(PRODUCER, c) == c;
    var ax := n % 0x1_0000;
    var d := c.(pc := 1, ax := ax);
    assert Go(PRODUCER, c) == Go(PRODUCER, d) by {
      if n > 0 {
        var c1 := c.(ax := ax, pc := 3);
        assert Step(PRODUCER, c).0 == c1;
        assert Step(PRODUCER, c1).0 == d;
      } else {
        assert Step(PRODUCER, c).0 == d;
      }
    }
    var pio := Splice(c.pio, 0, ToLE(ax, 2));
    assert pio == ToLE(ax, 2) + high;
    assert Go(PRODUCER, d) == (IoOut(0x10), d.(pio := pio, pc := 2));
  }

  /** From parked, the first exit is the IN. */
  lemma {:induction false} ConsumerIn(c: Cpu)
    requires ConsumerParked(c)
    ensures GoodProgram(CONSUMER) && GoodCpu(CONSUMER, c)
    ensures Resume(CONSUMER, c) == (IoIn(0x11), Cpu(1, if c.pc == 0 then 0 else c.ax, true, c.pio))
  {
    assert Complete(CONSUMER, c) == c;
    var d := Cpu(1, if c.pc == 0 then 0 else c.ax, false, c.pio);
    assert Step(CONSUMER, c).0 == d;
    assert Go(CONSUMER, d) == (IoIn(0x11), d.(inPending := true));
  }

  /** From inside the IN, the next exit is the OUT, and it writes back the bytes that the
      IN took: the page is as the hypervisor left it. */
  lemma {:induction false} ConsumerOut(c: Cpu)
    requires c.pc == 1 && c.inPending && |c.pio| == 4 && c.ax < 0x1_0000
    ensures GoodProgram(CONSUMER) && GoodCpu(CONSUMER, c)
    ensures Resume(CONSUMER, c).0 == IoOut(0x12) && Resume(CONSUMER, c).1.pio == c.pio
    ensures ConsumerParked(Resume(CONSUMER, c).1)
  {
    Pow256Values();
    var low := c.pio[0..2];
    var d := c.(ax := FromLE(low), pc := 2, inPending := false);
    assert Complete(CONSUMER, c) == d;
    ToFromLE(low);
    SpliceSame(c.pio, 0, 2);
    assert Go(CONSUMER, d) == (IoOut(0x12), d.(pc := 3));
  }

  lemma {:induction false} ConsumerTakes(c: Cpu, val: int32)
    requires ConsumerParked(c)
    ensures GoodProgram(CONSUMER) && GoodCpu(CONSUMER, c)
    ensures Consume(CONSUMER, c, val, 2).1 == [Consuming, Consumed(val)]
    ensures Consume(CONSUMER, c, val, 2).2 == Running
    ensures ConsumerParked(Consume(CONSUMER, c, val, 2).0)
  {
    hide Resume;
    ConsumerIn(c);
    var d := Resume(CONSUMER, c).1.(pio := IntBytes(val));
    ConsumerOut(d);
    IntRoundTrip(val);
    assert Consume(CONSUMER, c, val, 0) == (c, [], Running);
    assert Consume(CONSUMER, c, val, 1) == (d, [] + [Consuming], Running);
    assert Consume(CONSUMER, c, val, 2) == (Resume(CONSUMER, d).1, [] + [Consuming] + [Consumed(val)], Running);
  }

  lemma ProducedLinesSnoc(vals: seq<int32>, v: int32)
    ensures ProducedLines([]) == []
    ensures ProducedLines(vals + [v]) == ProducedLines(vals) + [Produced(v)]
  {
    assert (vals + [v])[..|vals|] == vals;
  }

  lemma {:induction false} ProducerRuns(c: Cpu, n: nat, high: seq<byte>)
    requires |high| == 2 && ProducerParked(c, 0, high)
    ensures GoodProgram(PRODUCER) && GoodCpu(PRODUCER, c)
    ensures var (p, evs, vals, st) := Burst(PRODUCER, c, n);
            && ProducerParked(p, n, high) && st.Running?
            && vals == Values(high, n) && evs == ProducedLines(vals)
  {
    hide Produce, ProducerParked, ProducedLines, ValueOf, GoodProgram, GoodCpu;
    ProducerMakes(c, 0, high);
    ProducedLinesSnoc([], 0);
    if n != 0 {
      ProducerRuns(c, n - 1, high);
      var (p, _, vals, _) := Burst(PRODUCER, c, n - 1);
      ProducerMakes(p, n - 1, high);
      ProducedLinesSnoc(vals, ValueOf(high, n - 1));
    }
  }

  lemma {:induction false} ConsumerRuns(c: Cpu, vals: seq<int32>)
    requires ConsumerParked(c)
    ensures GoodProgram(CONSUMER) && GoodCpu(CONSUMER, c)
    ensures var (d, evs, ok) := Drain(CONSUMER, c, vals);
            ConsumerParked(d) && ok && evs == ConsumedLines(vals)
  {
    hide Consume, ConsumerParked, GoodProgram, GoodCpu;
    ConsumerTakes(c, 0);
    if vals != [] {
      ConsumerRuns(c, vals[..|vals| - 1]);
      ConsumerTakes(Drain(CONSUMER, c, vals[..|vals| - 1]).0, vals[|vals| - 1]);
    }
  }

  /** MAIN RESULT. From reset neither scheduler ever meets an unexpected exit, and whatever the
      pages hold, the values consumed are the values produced, in order: after n rounds of
      emu1 and after n rounds of emu2, as many as were made. The guests end parked. */
  lemma {:induction false} LockstepSafe(s: Pair, n: nat)
    requires AtReset(s.p) && AtReset(s.c) && s.log == [] && s.status.Running?
    ensures GoodPair(PRODUCER, CONSUMER, s)
    ensures var t := AltRounds(PRODUCER, CONSUMER, s, n);
            && t.status.Running? && ProducerParked(t.p, n, s.p.pio[2..4]) && ConsumerParked(t.c)
            && Output(t.log, true) == ProducedLines(Values(s.p.pio[2..4], n))
            && Output(t.log, false) == ConsumedLines(Values(s.p.pio[2..4], n))
    ensures var t := BurstRounds(PRODUCER, CONSUMER, s, BURST, n);
            && t.status.Running? && ProducerParked(t.p, 3 * n, s.p.pio[2..4]) && ConsumerParked(t.c)
            && Output(t.log, true) == ProducedLines(Values(s.p.pio[2..4], 3 * n))
            && Output(t.log, false) == ConsumedLines(Values(s.p.pio[2..4], 3 * n))
  {
    RunsApart(s, n);
    AlternationApart(PRODUCER, CONSUMER, s, n);
    RunsApart(s, 3 * n);
    BurstsApart(PRODUCER, CONSUMER, s, BURST, n);
  }

  lemma RunsApart(s: Pair, n: nat)
    requires AtReset(s.p) && AtReset(s.c)
    ensures GoodPair(PRODUCER, CONSUMER, s)
    ensures var (p, evs, c, evs', ok) := Apart(PRODUCER, CONSUMER, s, n);
            && ok && ProducerParked(p, n, s.p.pio[2..4]) && ConsumerParked(c)
            && evs == ProducedLines(Values(s.p.pio[2..4], n))
            && evs' == ConsumedLines(Values(s.p.pio[2..4], n))
  {
    ProducerRuns(s.p, n, s.p.pio[2..4]);
    ConsumerRuns(s.c, Values(s.p.pio[2..4], n));
  }

  lemma {:induction false} LogsGrow(a: seq<Instr>, b: seq<Instr>, s: Pair, k: nat, n: nat)
    requires GoodPair(a, b, s) && n > 0
    ensures AltRounds(a, b, s, 1).log <= AltRounds(a, b, s, n).log
    ensures BurstRounds(a, b, s, k, 1).log <= BurstRounds(a, b, s, k, n).log
  {
    hide GoodProgram, GoodCpu, Produce, Consume, Burst, Drain;
    if n > 1 {
      LogsGrow(a, b, s, k, n - 1);
    }
  }

  /** The equality is one of the two machines' own lines: the second line of every run of emu1
      is about the consumer, that of every run of emu2 about the producer. */
  lemma {:induction false} InterleavingsDiffer(s: Pair, n: nat)
    requires AtReset(s.p) && AtReset(s.c) && s.log == [] && s.status.Running? && n > 0
    ensures GoodPair(PRODUCER, CONSUMER, s)
    ensures var (alt, burst) := (AltRounds(PRODUCER, CONSUMER, s, 3 * n), BurstRounds(PRODUCER, CONSUMER, s, BURST, n));
            |alt.log| > 1 && |burst.log| > 1 && alt.log[1] == Consuming && burst.log[1].Produced?
  {
    hide Produce, Consume, Drain, GoodProgram, GoodCpu;
    var high := s.p.pio[2..4];
    ProducerMakes(s.p, 0, high);
    ConsumerTakes(s.c, ValueOf(high, 0));
    ProducerRuns(s.p, 3, high);
    LogsGrow(PRODUCER, CONSUMER, s, BURST, 3 * n);
    LogsGrow(PRODUCER, CONSUMER, s, BURST, n);
    assert AltRounds(PRODUCER, CONSUMER, s, 0) == s && BurstRounds(PRODUCER, CONSUMER, s, BURST, 0) == s;
    assert AltRounds(PRODUCER, CONSUMER, s, 1) == AltRound(PRODUCER, CONSUMER, s);
    assert BurstRounds(PRODUCER, CONSUMER, s, BURST, 1) == BurstRound(PRODUCER, CONSUMER, s, BURST);
    ThreeLines(Values(high, 3));
  }

  lemma ThreeLines(vals: seq<int32>)
    requires |vals| == 3
    ensures ProducedLines(vals) == [Produced(vals[0]), Produced(vals[1]), Produced(vals[2])]
  {
    ProducedLinesSnoc([], vals[0]);
    ProducedLinesSnoc([vals[0]], vals[1]);
    ProducedLinesSnoc([vals[0], vals[1]], vals[2]);
    assert [] + [vals[0]] == [vals[0]] && [vals[0]] + [vals[1]] == [vals[0], vals[1]];
    assert [vals[0], vals[1]] + [vals[2]] == vals;
  }

  lemma FromLETwoMore(lo: seq<byte>, hi: seq<byte>)
    requires |lo| == 2
    ensures FromLE(lo + hi) == FromLE(lo) + 0x1_0000 * FromLE(hi)
  {
    var s := lo + hi;
    assert s[1..] == [lo[1]] + hi && s[1..][1..] == hi;
    assert lo[1..] == [lo[1]] && lo[1..][1..] == [];
  }

  /** MAIN RESULT. The 4-byte reads see the 2-byte counter exactly, for every n, if and only if
      the upper half of the producer's page is zero to begin with. */
  lemma {:induction false} MixedWidthExact(high: seq<byte>)
    requires |high| == 2
    ensures (forall n: nat :: ValueOf(high, n) == n % 0x1_0000) <==> high == [0, 0]
  {
    var h := FromLE(high);
    Pow256Values();
    forall n: nat
      ensures ValueOf(high, n) == ToSigned(n % 0x1_0000 + 0x1_0000 * h)
    {
      FromToLE(n % 0x1_0000, 2);
      FromLETwoMore(ToLE(n % 0x1_0000, 2), high);
    }
    ToFromLE(high);
    assert ToLE(0, 1) == [0] && ToLE(0, 2) == [0, 0];
    if high == [0, 0] {
      FromToLE(0, 2);
    } else {
      assert ValueOf(high, 0) != 0;
    }
  }
}
