/** emu3: the producer fills an array of five words in its own memory, the hypervisor copies
    the twenty bytes to the address the consumer registered, and prints both arrays. */
module Bulk {
  import opened Memory

  const ITEMS: nat := 5
  const ARRAY_BYTES: nat := 20

  datatype Guest = Guest3a | Guest3b

  /** Before the registering OUT, behind it, and behind an OUT that ends a round. */
  datatype Pc = Entry | Registered | Signalled

  datatype Exit = IoOut(port: nat) | Ignored

  datatype Line = Produced(values: seq<int32>) | Consumed(values: seq<int32>)

  /** n counter values from a start on, as the %d of a uint32_t shows them. */
  function Count(start: nat, n: nat): (vs: seq<int32>)
    ensures |vs| == n
  {
    if n == 0 then [] else Count(start, n - 1) + [ToSigned(Wrap32(start + n - 1))]
  }

  /** What a run of k rounds prints. */
  function Report(k: nat): seq<Line> {
    if k == 0 then [] else
      Report(k - 1) + [Produced(Count(ITEMS * (k - 1), ITEMS)), Consumed(Count(ITEMS * (k - 1), ITEMS))]
  }

  function AllProduced(log: seq<Line>): seq<int32> {
    if log == [] then [] else
      AllProduced(log[..|log| - 1]) + (if log[|log| - 1].Produced? then log[|log| - 1].values else [])
  }

  function AllConsumed(log: seq<Line>): seq<int32> {
    if log == [] then [] else
      AllConsumed(log[..|log| - 1]) + (if log[|log| - 1].Consumed? then log[|log| - 1].values else [])
  }

  /** Value by value: the i-th is start + i modulo 2^32, read as an int. */
  lemma {:induction false} CountAt(start: nat, n: nat, i: nat)
    requires i < n
    ensures ToUnsigned(Count(start, n)[i]) == (start + i) % 0x1_0000_0000
  {
    if i < n - 1 {
      CountAt(start, n - 1, i);
    }
  }

  /** The k-th round's two lines, in the order in which they are printed. */
  lemma {:induction false} ReportAt(n: nat, k: nat)
    requires k < n
    ensures |Report(n)| == 2 * n
    ensures Report(n)[2 * k] == Produced(Count(ITEMS * k, ITEMS))
    ensures Report(n)[2 * k + 1] == Consumed(Count(ITEMS * k, ITEMS))
  {
    ReportLength(n - 1);
    if k < n - 1 {
      ReportAt(n - 1, k);
    }
  }

  lemma {:induction false} ReportLength(n: nat)
    ensures |Report(n)| == 2 * n
  {
    if n != 0 {
      ReportLength(n - 1);
    }
  }

  /** MAIN RESULT. The j-th value printed as produced, and the j-th printed as consumed, is j
      modulo 2^32 as %d shows it, in whichever round it falls. */
  lemma {:induction false} PrintedAt(n: nat, j: nat)
    requires j < ITEMS * n
    ensures |AllProduced(Report(n))| == |AllConsumed(Report(n))| == ITEMS * n
    ensures ToUnsigned(AllProduced(Report(n))[j]) == ToUnsigned(AllConsumed(Report(n))[j]) == j % 0x1_0000_0000
  {
    ReportCounts(n);
    CountAt(0, ITEMS * n, j);
  }

  lemma {:induction false} CountSplit(start: nat, n: nat, k: nat)
    ensures Count(start, n + k) == Count(start, n) + Count(start + n, k)
  {
    if k != 0 {
      CountSplit(start, n, k - 1);
    }
  }

  lemma ReportStep(log: seq<Line>, vs: seq<int32>)
    ensures AllProduced(log + [Produced(vs), Consumed(vs)]) == AllProduced(log) + vs
    ensures AllConsumed(log + [Produced(vs), Consumed(vs)]) == AllConsumed(log) + vs
  {
    var l1 := log + [Produced(vs)];
    var l2 := log + [Produced(vs), Consumed(vs)];
    assert l2[..|l2| - 1] == l1 && l1[..|l1| - 1] == log;
    assert AllConsumed(l1) == AllConsumed(log) + [] == AllConsumed(log);
    assert AllProduced(l2) == AllProduced(l1) + [] == AllProduced(l1);
  }

  /** MAIN RESULT. Over k rounds the values consumed are the values produced, and both are
      the counter from 0 up to 5k, modulo 2^32. */
  lemma {:induction false} ReportCounts(k: nat)
    ensures AllProduced(Report(k)) == Count(0, ITEMS * k) == AllConsumed(Report(k))
  {
    if k != 0 {
      ReportCounts(k - 1);
      ReportStep(Report(k - 1), Count(ITEMS * (k - 1), ITEMS));
      CountSplit(0, ITEMS * (k - 1), ITEMS);
      assert ITEMS * (k - 1) + ITEMS == ITEMS * k;
    }
  }

  /** The memory m once the array at an address holds the given values. */
  function WithArray(m: seq<byte>, base: nat, vs: seq<int32>): (r: seq<byte>)
    requires base + 4 * |vs| <= |m|
    ensures |r| == |m|
  {
    Splice(m, base, IntsBytes(vs))
  }

  lemma {:induction false} IntsBytesAppend(vs: seq<int32>, v: int32)
    ensures IntsBytes(vs + [v]) == IntsBytes(vs) + IntBytes(v)
  {
    if vs == [] {
      assert IntsBytes([]) == [] && IntsBytes([v]) == IntBytes(v) + [];
    } else {
      IntsBytesAppend(vs[1..], v);
      assert (vs + [v])[1..] == vs[1..] + [v];
    }
  }

  lemma EmptyArray(m: seq<byte>, base: nat)
    requires base <= |m|
    ensures WithArray(m, base, []) == m
  {
    assert IntsBytes([]) == [];
  }

  lemma StoreNext(m: seq<byte>, base: nat, vs: seq<int32>, v: int32)
    requires base + 4 * |vs| + 4 <= |m|
    ensures Splice(WithArray(m, base, vs), base + 4 * |vs|, IntBytes(v)) == WithArray(m, base, vs + [v])
  {
    SpliceExtend(m, base, IntsBytes(vs), IntBytes(v));
    IntsBytesAppend(vs, v);
  }

  lemma LoadFromArray(m: seq<byte>, base: nat, vs: seq<int32>, i: nat)
    requires base + 4 * |vs| <= |m| && i < |vs|
    ensures BytesInt(WithArray(m, base, vs)[base + 4 * i..base + 4 * i + 4]) == vs[i]
  {
    var r := WithArray(m, base, vs);
    IntAtIntsBytes(vs, i);
    assert r[base + 4 * i..base + 4 * i + 4] == r[base..base + 4 * |vs|][4 * i..4 * i + 4];
  }

  class Vm {
    const mem: array<byte>
    const guest: Guest
    /** Where the linker put prod_buff or cons_buff. */
    const base: nat
    /** How many exits that the hypervisor ignores come before the k-th OUT. */
    const noise: nat -> nat
    var pc: Pc
    var counter: word
    var outs: nat
    var pending: nat
    /** The four bytes at the data offset of the kvm_run page. */
    var data: word

    ghost predicate Valid()
      reads this
    {
      mem.Length == MEM_SIZE && base + ARRAY_BYTES <= MEM_SIZE
    }

    constructor (mem: array<byte>, guest: Guest, base: nat, noise: nat -> nat)
      requires mem.Length == MEM_SIZE && base + ARRAY_BYTES <= MEM_SIZE
      ensures Valid() && pc == Entry && this.mem == mem && this.guest == guest && this.base == base
    {
      this.mem, this.guest, this.base, this.noise := mem, guest, base, noise;
      pc, counter, outs, pending, data := Entry, 0, 0, noise(0), 0;
    }

    /** guest3a's inner loop: five counter values into prod_buff. */
    method Fill()
      requires Valid()
      modifies mem, this`counter
      ensures counter == Wrap32(old(counter) + ITEMS)
      ensures mem[..] == WithArray(old(mem[..]), base, Count(old(counter), ITEMS))
      ensures forall i :: 0 <= i < ITEMS ==>
        BytesWord(mem[base + 4 * i..base + 4 * i + 4]) == (old(counter) + i) % 0x1_0000_0000
    {
      hide Wrap32, WithArray, IntsBytes;
      ghost var m, c := mem[..], counter;
      Wrap32Small(counter);
      EmptyArray(m, base);
      for i := 0 to ITEMS
        invariant counter == Wrap32(c + i)
        invariant mem[..] == WithArray(m, base, Count(c, i))
      {
        StoreNext(m, base, Count(c, i), ToSigned(counter));
        Memcpy(mem, base + 4 * i, WordBytes(counter));
        Wrap32Add(c + i, 1);
        counter := Wrap32(counter + 1);
      }
      forall i | 0 <= i < ITEMS
        ensures BytesWord(mem[base + 4 * i..base + 4 * i + 4]) == (c + i) % 0x1_0000_0000
      {
        LoadFromArray(m, base, Count(c, ITEMS), i);
        assert mem[base + 4 * i..base + 4 * i + 4] == mem[..][base + 4 * i..base + 4 * i + 4];
        CountAt(c, ITEMS, i);
      }
    }

    /** KVM_RUN: resume the guest until its next exit. */
    method Run() returns (e: Exit)
      requires Valid()
      modifies this, mem
      ensures old(pending) > 0 ==>
        && e == Ignored && pending == old(pending) - 1 && pc == old(pc)
        && counter == old(counter) && mem[..] == old(mem[..])
      ensures old(pending) == 0 && old(pc) == Entry ==>
        && e == IoOut(if guest.Guest3a? then 0xF0 else 0xF1) && data == base
        && pc == Registered && counter == 0 && mem[..] == old(mem[..])
      ensures old(pending) == 0 && old(pc) != Entry && guest.Guest3a? ==>
        && e == IoOut(0xF2) && pc == Signalled && counter == Wrap32(old(counter) + ITEMS)
        && mem[..] == WithArray(old(mem[..]), base, Count(old(counter), ITEMS))
      ensures old(pending) == 0 && old(pc) != Entry && guest.Guest3b? ==>
        && e == IoOut(0xF3) && pc == Signalled && mem[..] == old(mem[..])
    {
      if pending > 0 {
        pending := pending - 1;
        return Ignored;
      }
      if pc == Entry {
        data := base;
        counter := 0;
        pc := Registered;
        e := IoOut(if guest.Guest3a? then 0xF0 else 0xF1);
      } else if guest.Guest3a? {
        Fill();
        data := 0;
        pc := Signalled;
        e := IoOut(0xF2);
      } else {
        data := 0;
        pc := Signalled;
        e := IoOut(0xF3);
      }
      outs := outs + 1;
      pending := noise(outs);
    }
  }

  /** The registration loops: the address that the guest sends. */
  method Register(vm: Vm, port: nat) returns (gva: word)
    requires vm.Valid() && vm.pc == Entry && port == (if vm.guest.Guest3a? then 0xF0 else 0xF1)
    modifies vm, vm.mem
    ensures gva == vm.base && vm.pc == Registered && vm.counter == 0 && vm.mem[..] == old(vm.mem[..])
  {
    while true
      invariant vm.pc == Entry && vm.mem[..] == old(vm.mem[..])
      decreases vm.pending
    {
      var e := vm.Run();
      if e == IoOut(port) {
        gva := vm.data;
        break;
      }
    }
  }

  /** The production and consumption loops: resume until the guest signals. */
  method AwaitSignal(vm: Vm, port: nat)
    requires vm.Valid() && vm.pc != Entry && port == (if vm.guest.Guest3a? then 0xF2 else 0xF3)
    modifies vm, vm.mem
    ensures vm.pc == Signalled
    ensures vm.guest.Guest3a? ==>
      && vm.counter == Wrap32(old(vm.counter) + ITEMS)
      && vm.mem[..] == WithArray(old(vm.mem[..]), vm.base, Count(old(vm.counter), ITEMS))
    ensures vm.guest.Guest3b? ==> vm.mem[..] == old(vm.mem[..])
  {
    while true
      invariant vm.pc == old(vm.pc) && vm.counter == old(vm.counter) && vm.mem[..] == old(vm.mem[..])
      decreases vm.pending
    {
      var e := vm.Run();
      if e == IoOut(port) {
        break;
      }
    }
  }

  /** The printing loops: the five values of an array in a guest's memory. */
  method PrintArray(mem: array<byte>, base: nat, ghost m: seq<byte>, ghost vs: seq<int32>)
    returns (values: seq<int32>)
    requires |vs| == ITEMS && |m| == mem.Length && base + ARRAY_BYTES <= mem.Length
    requires mem[..] == WithArray(m, base, vs)
    ensures values == vs
  {
    values := [];
    for i := 0 to ITEMS
      invariant values == vs[..i]
    {
      LoadFromArray(m, base, vs, i);
      assert mem[base + 4 * i..base + 4 * i + 4] == mem[..][base + 4 * i..base + 4 * i + 4];
      values := values + [BytesInt(mem[base + 4 * i..base + 4 * i + 4])];
    }
  }

  /** emu3's run_vm, stopped after a number of rounds of its endless loop: what it prints, and
      that of either memory only the twenty registered bytes change. */
  method RunVm(vm1: Vm, vm2: Vm, rounds: nat) returns (log: seq<Line>)
    requires vm1.Valid() && vm2.Valid() && vm1 != vm2 && vm1.mem != vm2.mem
    requires vm1.guest == Guest3a && vm2.guest == Guest3b && vm1.pc == Entry == vm2.pc
    modifies vm1, vm1.mem, vm2, vm2.mem
    ensures log == Report(rounds)
    ensures |log| == 2 * rounds
    ensures forall k :: 0 <= k < rounds ==> log[2 * k].Produced? && log[2 * k + 1].Consumed?
    ensures |AllProduced(log)| == ITEMS * rounds && AllConsumed(log) == AllProduced(log)
    ensures forall j :: 0 <= j < ITEMS * rounds ==> ToUnsigned(AllProduced(log)[j]) == j % 0x1_0000_0000
    ensures rounds == 0 ==> vm1.mem[..] == old(vm1.mem[..]) && vm2.mem[..] == old(vm2.mem[..])
    ensures rounds > 0 ==>
      && vm1.mem[..] == WithArray(old(vm1.mem[..]), vm1.base, Count(ITEMS * (rounds - 1), ITEMS))
      && vm2.mem[..] == WithArray(old(vm2.mem[..]), vm2.base, Count(ITEMS * (rounds - 1), ITEMS))
  {
    hide Wrap32, WithArray, Count, IntsBytes;
    ghost var m1, m2 := vm1.mem[..], vm2.mem[..];
    Wrap32Small(0);
    var prodBuff := Register(vm1, 0xF0);
    var consBuff := Register(vm2, 0xF1);
    log := [];
    for i := 0 to rounds
      invariant vm1.pc != Entry && vm2.pc != Entry
      invariant log == Report(i) && vm1.counter == Wrap32(ITEMS * i)
      invariant i == 0 ==> vm1.mem[..] == m1 && vm2.mem[..] == m2
      invariant i > 0 ==>
        && vm1.mem[..] == WithArray(m1, vm1.base, Count(ITEMS * (i - 1), ITEMS))
        && vm2.mem[..] == WithArray(m2, vm2.base, Count(ITEMS * (i - 1), ITEMS))
    {
      ghost var a, b, c := vm1.mem[..], vm2.mem[..], vm1.counter;
      ghost var vs := Count(ITEMS * i, ITEMS);
      CountWraps(ITEMS * i, ITEMS);
      Wrap32Add(ITEMS * i, ITEMS);
      AwaitSignal(vm1, 0xF2);
      CopiedArray(a, vm1.base, vs);
      CopyArray(b, vm2.base, vs);
      Memcpy(vm2.mem, consBuff, vm1.mem[prodBuff..prodBuff + ARRAY_BYTES]);
      assert vm1.mem[prodBuff..prodBuff + ARRAY_BYTES] == IntsBytes(vs);
      var produced := PrintArray(vm1.mem, prodBuff, a, vs);
      log := log + [Produced(produced)];
      AwaitSignal(vm2, 0xF3);
      var consumed := PrintArray(vm2.mem, consBuff, b, vs);
      log := log + [Consumed(consumed)];
      assert log == Report(i) + [Produced(vs), Consumed(vs)];
      if i > 0 {
        Overwritten(m1, vm1.base, Count(ITEMS * (i - 1), ITEMS), vs);
        Overwritten(m2, vm2.base, Count(ITEMS * (i - 1), ITEMS), vs);
      }
    }
    ReportFacts(rounds);
  }

  lemma ReportFacts(n: nat)
    ensures |Report(n)| == 2 * n
    ensures forall k :: 0 <= k < n ==> Report(n)[2 * k].Produced? && Report(n)[2 * k + 1].Consumed?
    ensures |AllProduced(Report(n))| == ITEMS * n && AllConsumed(Report(n)) == AllProduced(Report(n))
    ensures forall j :: 0 <= j < ITEMS * n ==> ToUnsigned(AllProduced(Report(n))[j]) == j % 0x1_0000_0000
  {
    ReportLength(n);
    ReportCounts(n);
    forall k | 0 <= k < n
      ensures Report(n)[2 * k].Produced? && Report(n)[2 * k + 1].Consumed?
    {
      ReportAt(n, k);
    }
    forall j | 0 <= j < ITEMS * n
      ensures ToUnsigned(AllProduced(Report(n))[j]) == j % 0x1_0000_0000
    {
      PrintedAt(n, j);
    }
  }

  /** The counter wraps without a visible seam. */
  lemma {:induction false} CountWraps(start: nat, n: nat)
    ensures Count(start, n) == Count(Wrap32(start), n)
  {
    hide Wrap32;
    if n != 0 {
      Wrap32Add(start, n - 1);
      CountWraps(start, n - 1);
    }
  }

  lemma CopyArray(m: seq<byte>, base: nat, vs: seq<int32>)
    requires base + 4 * |vs| <= |m|
    ensures Splice(m, base, IntsBytes(vs)) == WithArray(m, base, vs)
  {
  }

  lemma CopiedArray(m: seq<byte>, base: nat, vs: seq<int32>)
    requires base + 4 * |vs| <= |m|
    ensures WithArray(m, base, vs)[base..base + 4 * |vs|] == IntsBytes(vs)
  {
  }

  lemma Overwritten(m: seq<byte>, base: nat, vs: seq<int32>, ws: seq<int32>)
    requires |vs| == |ws| && base + 4 * |vs| <= |m|
    ensures WithArray(WithArray(m, base, vs), base, ws) == WithArray(m, base, ws)
  {
    SpliceTwice(m, base, IntsBytes(vs), IntsBytes(ws));
  }
}
