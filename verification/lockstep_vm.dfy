/** emu1 and emu2 as they run: the guests' registers and pages change in place, and the
    scheduling loops are proved against the rounds of Lockstep. */
module LockstepVm {
  import opened Memory
  import opened Lockstep
  import opened LockstepLog

  class Vcpu {
    const prog: seq<Instr>
    var pc: nat
    var ax: nat
    var inPending: bool
    /** The first four bytes at the data offset of the kvm_run page. */
    const pio: array<byte>

    ghost predicate Valid()
      reads this, pio
    {
      GoodProgram(prog) && pio.Length == 4 && GoodCpu(prog, State())
    }

    function State(): Cpu
      reads this, pio
    {
      Cpu(pc, ax, inPending, pio[..])
    }

    /** A guest after kvm_reset_vcpu, with whatever the page holds. */
    constructor (prog: seq<Instr>, page: seq<byte>, ax: nat)
      requires GoodProgram(prog) && |page| == 4 && ax < 0x1_0000
      ensures Valid() && fresh(pio) && this.prog == prog
      ensures State() == Cpu(0, ax, false, page)
    {
      this.prog, this.pc, this.ax, this.inPending := prog, 0, ax, false;
      this.pio := new byte[4](i requires 0 <= i < 4 => page[i]);
      new;
      assert pio[..] == page;
    }

    /** KVM_RUN: finish a suspended IN, then execute up to the next exit. */
    method KvmRun() returns (e: Exit)
      requires Valid()
      modifies this, pio
      ensures Valid() && (e, State()) == Resume(prog, old(State()))
    {
      Pow256Values();
      if inPending {
        assert pio[0..2] == pio[..][0..2];
        ax, pc, inPending := FromLE(pio[0..2]), pc + 1, false;
      }
      assert State() == Complete(prog, old(State()));
      ghost var result := Resume(prog, old(State()));
      hide GoodProgram, Go, Resume, Complete, ToLE, FromLE, Splice;
      while true
        invariant Valid() && !inPending
        invariant Go(prog, State()) == result
        decreases Distance(prog, pc)
      {
        ghost var before := State();
        GoStep(prog, before);
        match prog[pc] {
          case XorAx => ax, pc := 0, pc + 1;
          case IncAx => ax, pc := (ax + 1) % 0x1_0000, pc + 1;
          case Jmp(to) => pc := to;
          case InAx(port) =>
            inPending := true;
            return IoIn(port);
          case OutAx(port) =>
            Memcpy(pio, 0, ToLE(ax, 2));
            pc := pc + 1;
            return IoOut(port);
          case Hlt => return Halted;
          case TripleFault => return Shutdown;
        }
        assert State() == Step(prog, before).0;
      }
    }
  }

  ghost function PairOf(vm1: Vcpu, vm2: Vcpu, log: seq<Event>, status: Status): Pair
    reads vm1, vm1.pio, vm2, vm2.pio
  {
    Pair(vm1.State(), vm2.State(), log, status)
  }

  ghost predicate Apart2(vm1: Vcpu, vm2: Vcpu)
    reads vm1, vm1.pio, vm2, vm2.pio
  {
    vm1.Valid() && vm2.Valid() && vm1 != vm2 && vm1.pio != vm2.pio
  }

  /** The producer's half, the same in both schedulers. */
  method RunProducer(vm1: Vcpu) returns (ev: Event)
    requires vm1.Valid()
    modifies vm1, vm1.pio
    ensures vm1.Valid() && (vm1.State(), ev) == Produce(vm1.prog, old(vm1.State()))
  {
    var e := vm1.KvmRun();
    if e == IoOut(0x10) {
      ev := Produced(BytesInt(vm1.pio[0..4]));
      assert vm1.pio[0..4] == vm1.pio[..];
    } else if e == Shutdown {
      ev := Down1;
    } else {
      ev := Unexpected1;
    }
  }

  lemma PageWritten(prog: seq<Instr>, c: Cpu, page: seq<byte>)
    requires GoodCpu(prog, c) && |page| == 4
    ensures GoodCpu(prog, c.(pio := page))
  {
  }

  /** The consumer's half for one value: the loop over vm2_run_count. */
  method RunConsumer(vm2: Vcpu, sharedVal: int32) returns (lines: seq<Event>, st: Status)
    requires vm2.Valid()
    modifies vm2, vm2.pio
    ensures vm2.Valid() && (vm2.State(), lines, st) == Consume(vm2.prog, old(vm2.State()), sharedVal, 2)
  {
    hide Resume, GoodProgram, GoodCpu;
    lines, st := [], Running;
    var vm2RunCount := 0;
    while vm2RunCount < 2
      invariant 0 <= vm2RunCount <= 2 && vm2.Valid() && st == Running
      invariant (vm2.State(), lines, st) == Consume(vm2.prog, old(vm2.State()), sharedVal, vm2RunCount)
    {
      var e := vm2.KvmRun();
      if e == IoOut(0x12) {
        var v := BytesInt(vm2.pio[0..4]);
        assert vm2.pio[0..4] == vm2.pio[..];
        lines := lines + [Consumed(v)];
      } else if e == IoIn(0x11) {
        PageWritten(vm2.prog, vm2.State(), IntBytes(sharedVal));
        Memcpy(vm2.pio, 0, IntBytes(sharedVal));
        assert vm2.pio[..] == IntBytes(sharedVal);
        lines := lines + [Consuming];
      } else {
        lines := lines + [if e == Shutdown then Down2 else Unexpected2];
        st := if e == Shutdown then Stopped else Aborted;
        ConsumeEnded(vm2.prog, old(vm2.State()), sharedVal, vm2RunCount + 1);
        return;
      }
      vm2RunCount := vm2RunCount + 1;
    }
  }

  lemma ConsumeEnded(prog: seq<Instr>, c: Cpu, val: int32, n: nat)
    requires GoodProgram(prog) && GoodCpu(prog, c) && 1 <= n <= 2
    requires Consume(prog, c, val, n).2 != Running
    ensures Consume(prog, c, val, 2) == Consume(prog, c, val, n)
  {
  }

  /** emu1's kvm_run_vm, stopped after a number of rounds of its endless loop. */
  method Emu1(vm1: Vcpu, vm2: Vcpu, rounds: nat) returns (log: seq<Event>, status: Status)
    requires Apart2(vm1, vm2)
    modifies vm1, vm1.pio, vm2, vm2.pio
    ensures Apart2(vm1, vm2)
    ensures PairOf(vm1, vm2, log, status)
         == AltRounds(vm1.prog, vm2.prog, old(PairOf(vm1, vm2, [], Running)), rounds)
    ensures vm1.prog == PRODUCER && vm2.prog == CONSUMER && old(AtReset(vm1.State()) && AtReset(vm2.State())) ==>
              log == AlternationLog(old(vm1.pio[2..4]), rounds)
  {
    hide Resume, Produce, Consume, GoodProgram, GoodCpu;
    log, status := [], Running;
    ghost var s := PairOf(vm1, vm2, [], Running);
    for i := 0 to rounds
      invariant Apart2(vm1, vm2)
      invariant PairOf(vm1, vm2, log, status) == AltRounds(vm1.prog, vm2.prog, s, i)
    {
      if status == Running {
        var ev := RunProducer(vm1);
        log := log + [ev];
        if ev.Down1? {
          status := Stopped;
        } else if ev.Unexpected1? {
          status := Aborted;
        } else {
          var sharedVal := ev.v;
          var lines, st := RunConsumer(vm2, sharedVal);
          log := log + lines;
          if st.Aborted? {
            status := Aborted;
          }
        }
      }
    }
    if vm1.prog == PRODUCER && vm2.prog == CONSUMER && old(AtReset(vm1.State()) && AtReset(vm2.State())) {
      AlternationPrints(s, rounds);
    }
  }

  /** emu2's kvm_run_vm, stopped after a number of rounds of its endless loop. */
  method Emu2(vm1: Vcpu, vm2: Vcpu, rounds: nat) returns (log: seq<Event>, status: Status)
    requires Apart2(vm1, vm2)
    modifies vm1, vm1.pio, vm2, vm2.pio
    ensures Apart2(vm1, vm2)
    ensures PairOf(vm1, vm2, log, status)
         == BurstRounds(vm1.prog, vm2.prog, old(PairOf(vm1, vm2, [], Running)), BURST, rounds)
    ensures vm1.prog == PRODUCER && vm2.prog == CONSUMER && old(AtReset(vm1.State()) && AtReset(vm2.State())) ==>
              log == BurstLog(old(vm1.pio[2..4]), rounds)
  {
    hide Resume, Produce, Consume, GoodProgram, GoodCpu;
    log, status := [], Running;
    var sharedVal := new int32[BURST](_ => 0);
    ghost var s := PairOf(vm1, vm2, [], Running);
    for i := 0 to rounds
      invariant Apart2(vm1, vm2) && fresh(sharedVal)
      invariant PairOf(vm1, vm2, log, status) == BurstRounds(vm1.prog, vm2.prog, s, BURST, i)
    {
      if status == Running {
        ghost var t := PairOf(vm1, vm2, log, status);
        var prodCount, lines, st := RunBurst(vm1, sharedVal);
        log := log + lines;
        if st == Aborted {
          status := Aborted;
        } else {
          var lines2, ok := RunDrain(vm2, sharedVal, prodCount);
          log := log + lines2;
          if !ok {
            status := Aborted;
          }
        }
        assert PairOf(vm1, vm2, log, status) == BurstRound(vm1.prog, vm2.prog, t, BURST);
      }
    }
    if vm1.prog == PRODUCER && vm2.prog == CONSUMER && old(AtReset(vm1.State()) && AtReset(vm2.State())) {
      BurstsPrint(s, rounds);
    }
  }

  /** The producing loop, which fills shared_val from the front. */
  method RunBurst(vm1: Vcpu, sharedVal: array<int32>)
    returns (prodCount: nat, lines: seq<Event>, st: Status)
    requires vm1.Valid() && sharedVal.Length == BURST
    modifies vm1, vm1.pio, sharedVal
    ensures vm1.Valid() && prodCount <= BURST
    ensures (vm1.State(), lines, sharedVal[..prodCount], st) == Burst(vm1.prog, old(vm1.State()), BURST)
  {
    hide Resume, Produce, GoodProgram, GoodCpu;
    prodCount, lines, st := 0, [], Running;
    while prodCount < BURST
      invariant prodCount <= BURST && vm1.Valid() && st == Running
      invariant (vm1.State(), lines, sharedVal[..prodCount], Running)
             == Burst(vm1.prog, old(vm1.State()), prodCount)
      decreases BURST - prodCount
    {
      var ev := RunProducer(vm1);
      lines := lines + [ev];
      if ev.Produced? {
        sharedVal[prodCount] := ev.v;
      } else {
        st := if ev.Down1? then Stopped else Aborted;
        StoppedBurst(vm1.prog, old(vm1.State()), prodCount + 1, BURST);
        return;
      }
      prodCount := prodCount + 1;
      assert sharedVal[..prodCount] == sharedVal[..prodCount - 1] + [ev.v];
    }
  }

  lemma {:induction false} StoppedBurst(a: seq<Instr>, p: Cpu, m: nat, k: nat)
    requires GoodProgram(a) && GoodCpu(a, p) && m <= k && !Burst(a, p, m).3.Running?
    ensures Burst(a, p, k) == Burst(a, p, m)
  {
    BurstSplit(a, p, m, k - m);
  }

  /** The consuming loop over the values of the burst. */
  method RunDrain(vm2: Vcpu, sharedVal: array<int32>, prodCount: nat) returns (lines: seq<Event>, ok: bool)
    requires vm2.Valid() && prodCount <= sharedVal.Length
    requires sharedVal as object != vm2.pio
    modifies vm2, vm2.pio
    ensures vm2.Valid()
    ensures (vm2.State(), lines, ok) == Drain(vm2.prog, old(vm2.State()), sharedVal[..prodCount])
  {
    hide Resume, Consume, GoodProgram, GoodCpu;
    lines, ok := [], true;
    ghost var vals := sharedVal[..prodCount];
    for i := 0 to prodCount
      invariant vm2.Valid() && ok && sharedVal[..prodCount] == vals
      invariant (vm2.State(), lines, true) == Drain(vm2.prog, old(vm2.State()), vals[..i])
    {
      assert vals[..i + 1][..i] == vals[..i];
      var more, st := RunConsumer(vm2, sharedVal[i]);
      lines := lines + more;
      if st.Aborted? {
        ok := false;
        assert vals[..i + 1] + vals[i + 1..] == vals;
        DrainSplit(vm2.prog, old(vm2.State()), vals[..i + 1], vals[i + 1..]);
        return;
      }
    }
    assert vals[..prodCount] == vals;
  }
}
