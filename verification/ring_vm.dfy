/** emu4 as it runs: two virtual machines with byte memories, suspended guests that are
    resumed exit by exit, and the hypervisor's scheduling loop. Each method is proved
    against the run of RingProtocol. */
module RingVm {
  import opened Memory
  import opened RingState
  import opened RingProtocol

  datatype Guest = Guest4a | Guest4b

  /** Where a guest is suspended: before its first instruction, in the IN of port 0xF4, or in
      the OUT that ends its turn. */
  datatype Pc = Entry | AtIn | AtOut

  /** Why KVM_RUN returned. */
  datatype Exit = Io(out: bool, port: nat) | Ignored

  /** The memory m with the record s at 0x400. */
  function Image(m: seq<byte>, s: BufferState): (r: seq<byte>)
    requires |m| == MEM_SIZE && |s.buf| == SLOTS
    ensures |r| == MEM_SIZE
  {
    Splice(m, STATE_ADDR, Encode(s))
  }

  lemma ImageDef(m: seq<byte>, s: BufferState)
    requires |m| == MEM_SIZE && |s.buf| == SLOTS
    ensures Image(m, s) == Splice(m, STATE_ADDR, Encode(s))
  {
  }

  lemma ViewImage(m: seq<byte>, s: BufferState)
    requires |m| == MEM_SIZE && |s.buf| == SLOTS
    ensures View(Image(m, s)) == s
  {
    DecodeEncode(s);
  }

  lemma ImageView(m: seq<byte>)
    requires |m| == MEM_SIZE
    ensures Image(m, View(m)) == m
  {
    EncodeDecode(m[STATE_ADDR..STATE_ADDR + STATE_BYTES]);
    SpliceSame(m, STATE_ADDR, STATE_BYTES);
  }

  lemma ImageImage(m: seq<byte>, s: BufferState, t: BufferState)
    requires |m| == MEM_SIZE && |s.buf| == |t.buf| == SLOTS
    ensures Image(Image(m, s), t) == Image(m, t)
  {
    SpliceTwice(m, STATE_ADDR, Encode(s), Encode(t));
  }

  /** The k-th int of the record, as the guest loads it. */
  function Member(m: seq<byte>, k: nat): int32
    requires |m| == MEM_SIZE && k < 23
  {
    BytesInt(m[STATE_ADDR + 4 * k..STATE_ADDR + 4 * k + 4])
  }

  function WithMember(s: BufferState, k: nat, v: int32): (r: BufferState)
    requires |s.buf| == SLOTS && k < 23
    ensures |r.buf| == SLOTS
  {
    FromInts(Ints(s)[k := v])
  }

  lemma LoadMember(m: seq<byte>, s: BufferState, k: nat)
    requires |m| == MEM_SIZE && |s.buf| == SLOTS && k < 23
    ensures Member(Image(m, s), k) == Ints(s)[k]
  {
    var r := Image(m, s);
    assert r[STATE_ADDR..STATE_ADDR + STATE_BYTES] == Encode(s);
    assert r[STATE_ADDR + 4 * k..STATE_ADDR + 4 * k + 4]
        == r[STATE_ADDR..STATE_ADDR + STATE_BYTES][4 * k..4 * k + 4];
    IntAtIntsBytes(Ints(s), k);
  }

  lemma StoreInImage(m: seq<byte>, s: BufferState, k: nat, v: int32)
    requires |m| == MEM_SIZE && |s.buf| == SLOTS && k < 23
    ensures Splice(Image(m, s), STATE_ADDR + 4 * k, IntBytes(v)) == Image(m, WithMember(s, k, v))
  {
    SpliceInside(m, STATE_ADDR, Encode(s), 4 * k, IntBytes(v));
    StoreMember(s, k, v);
  }

  class Vm {
    const mem: array<byte>
    const guest: Guest
    const tsc: nat -> word
    /** How many exits that the hypervisor ignores come before the k-th port access. */
    const noise: nat -> nat
    var pc: Pc
    var stamps: nat
    var exits: nat
    var pending: nat

    ghost predicate Valid()
      reads this
    {
      mem.Length == MEM_SIZE
    }

    /** A guest image below 0x400 in otherwise zeroed memory. */
    constructor (image: seq<byte>, guest: Guest, tsc: nat -> word, noise: nat -> nat)
      requires |image| <= STATE_ADDR
      ensures Valid() && fresh(mem) && this.guest == guest && this.tsc == tsc && this.noise == noise
      ensures pc == Entry && stamps == 0 && exits == 0
      ensures mem[..|image|] == image && View(mem[..]) == ZERO_STATE
    {
      this.mem := new byte[MEM_SIZE](_ => 0);
      this.guest, this.tsc, this.noise := guest, tsc, noise;
      pc, stamps, exits, pending := Entry, 0, 0, noise(0);
      new;
      Memcpy(mem, 0, image);
      ZeroView(mem[..]);
    }

    method Load(k: nat, ghost m: seq<byte>, ghost s: BufferState) returns (v: int32)
      requires Valid() && k < 23
      requires |m| == MEM_SIZE && |s.buf| == SLOTS && mem[..] == Image(m, s)
      ensures v == Ints(s)[k]
    {
      LoadMember(m, s, k);
      v := Member(mem[..], k);
    }

    method Store(k: nat, v: int32, ghost m: seq<byte>, ghost s: BufferState)
      requires Valid() && k < 23
      requires |m| == MEM_SIZE && |s.buf| == SLOTS && mem[..] == Image(m, s)
      modifies mem
      ensures mem[..] == Image(m, WithMember(s, k, v))
    {
      StoreInImage(m, s, k, v);
      Memcpy(mem, STATE_ADDR + 4 * k, IntBytes(v));
    }

    /** The body of guest4a's loop between its two port accesses. */
    method ProduceBatch(ghost m: seq<byte>, ghost s: BufferState)
      requires Valid() && |m| == MEM_SIZE && WellFormed(s) && mem[..] == Image(m, s)
      modifies mem, this`stamps
      ensures stamps == old(stamps) + 1 + |Items(tsc, old(stamps), s.count)|
      ensures mem[..] == Image(m, PutAll(s, Items(tsc, old(stamps), s.count)))
    {
      hide Image, Window, Live, PutAll, Slot, Encode;
      var produceCount := tsc(stamps) % 11;
      stamps := stamps + 1;
      var available := Load(2, m, s);
      available := SLOTS - available;
      if produceCount > available {
        produceCount := available;
      }
      ghost var first := stamps;
      ghost var cur := s;
      PutAllNone(s);
      for i := 0 to produceCount
        invariant stamps == first + i
        invariant cur == PutAll(s, Draw(tsc, first, i))
        invariant mem[..] == Image(m, cur)
      {
        var item := tsc(stamps) % 100;
        stamps := stamps + 1;
        PutOne(item, m, cur);
        PutAllSnoc(s, Draw(tsc, first, i), item);
        cur := Put(cur, item);
      }
    }

    /** One iteration: write the slot, then prod_p, then count. */
    method PutOne(item: int32, ghost m: seq<byte>, ghost s: BufferState)
      requires Valid() && |m| == MEM_SIZE && WellFormed(s) && s.count < SLOTS && mem[..] == Image(m, s)
      modifies mem
      ensures mem[..] == Image(m, Put(s, item))
    {
      var p := Load(0, m, s);
      Store(3 + p, item, m, s);
      ghost var s1 := WithMember(s, 3 + p, item);
      p := Load(0, m, s1);
      Store(0, (p + 1) % SLOTS, m, s1);
      ghost var s2 := WithMember(s1, 0, Slot(s.prodP + 1));
      var c := Load(2, m, s2);
      Store(2, c + 1, m, s2);
      assert WithMember(s2, 2, s.count + 1) == Put(s, item);
    }

    /** The body of guest4b's loop between its two port accesses. */
    method ConsumeBatch(ghost m: seq<byte>, ghost s: BufferState)
      requires Valid() && |m| == MEM_SIZE && WellFormed(s) && mem[..] == Image(m, s)
      modifies mem, this`stamps
      ensures stamps == old(stamps) + 1
      ensures mem[..] == Image(m, DropMany(s, ConsumeCount(tsc(old(stamps)), s.count)))
    {
      hide Image, Window, Live;
      var consumeCount := tsc(stamps) % 11;
      stamps := stamps + 1;
      var count := Load(2, m, s);
      if consumeCount > count {
        consumeCount := count;
      }
      for i := 0 to consumeCount
        invariant stamps == old(stamps) + 1
        invariant mem[..] == Image(m, DropMany(s, i))
      {
        DropOne(m, DropMany(s, i));
      }
    }

    /** One iteration: advance cons_p, then lower count. */
    method DropOne(ghost m: seq<byte>, ghost s: BufferState)
      requires Valid() && |m| == MEM_SIZE && WellFormed(s) && s.count > 0 && mem[..] == Image(m, s)
      modifies mem
      ensures mem[..] == Image(m, Drop(s))
    {
      var p := Load(1, m, s);
      Store(1, (p + 1) % SLOTS, m, s);
      ghost var s1 := WithMember(s, 1, Slot(s.consP + 1));
      var c := Load(2, m, s1);
      Store(2, c - 1, m, s1);
      assert WithMember(s1, 2, s.count - 1) == Drop(s);
    }

    /** The record after the guest's next batch, and the time stamps read for it. */
    ghost function NextState(s: BufferState): BufferState
      requires WellFormed(s)
      reads this
    {
      if guest.Guest4a? then PutAll(s, Items(tsc, stamps, s.count))
      else DropMany(s, ConsumeCount(tsc(stamps), s.count))
    }

    ghost function NextReads(s: BufferState): nat
      requires WellFormed(s)
      reads this
    {
      if guest.Guest4a? then stamps + 1 + |Items(tsc, stamps, s.count)| else stamps + 1
    }

    /** KVM_RUN: resume the guest until its next exit. */
    method Run(ghost m: seq<byte>, ghost s: BufferState) returns (e: Exit)
      requires Valid() && |m| == MEM_SIZE && WellFormed(s) && mem[..] == Image(m, s)
      modifies this, mem
      ensures old(pending) > 0 ==>
        && e == Ignored && pending == old(pending) - 1
        && pc == old(pc) && exits == old(exits) && stamps == old(stamps) && mem[..] == old(mem[..])
      ensures old(pending) == 0 && old(pc) != AtIn ==>
        && e == Io(false, 0xF4) && pc == AtIn
        && exits == old(exits) + 1 && stamps == old(stamps) && mem[..] == old(mem[..])
      ensures old(pending) == 0 && old(pc) == AtIn ==>
        && e == Io(true, if guest.Guest4a? then 0xF2 else 0xF3) && pc == AtOut
        && exits == old(exits) + 1 && stamps == old(NextReads(s))
        && mem[..] == Image(m, old(NextState(s)))
    {
      if pending > 0 {
        pending := pending - 1;
        return Ignored;
      }
      match pc {
        case AtIn =>
          match guest {
            case Guest4a => ProduceBatch(m, s);
            case Guest4b => ConsumeBatch(m, s);
          }
          pc := AtOut;
          e := Io(true, if guest.Guest4a? then 0xF2 else 0xF3);
        case _ =>
          pc := AtIn;
          e := Io(false, 0xF4);
      }
      exits := exits + 1;
      pending := noise(exits);
    }
  }

  lemma ZeroView(m: seq<byte>)
    requires |m| == MEM_SIZE
    requires forall i :: STATE_ADDR <= i < MEM_SIZE ==> m[i] == 0
    ensures View(m) == ZERO_STATE
  {
    var bs := m[STATE_ADDR..STATE_ADDR + STATE_BYTES];
    forall k | 0 <= k < 23
      ensures IntAt(bs, k) == 0
    {
      IntRoundTrip(0);
      assert forall j :: 0 <= j < STATE_BYTES ==> bs[j] == m[STATE_ADDR + j];
      assert ToLE(0, 1) == [0] && ToLE(0, 2) == [0, 0] && ToLE(0, 3) == [0, 0, 0];
      assert bs[4 * k..4 * k + 4] == [0, 0, 0, 0] == IntBytes(0);
    }
  }

  lemma PutAllNone(s: BufferState)
    requires WellFormed(s)
    ensures PutAll(s, []) == s
  {
  }

  lemma PutAllSnoc(s: BufferState, items: seq<int32>, item: int32)
    requires WellFormed(s) && s.count + |items| < SLOTS
    ensures PutAll(s, items + [item]) == Put(PutAll(s, items), item)
  {
    assert (items + [item])[..|items|] == items;
  }

  // ---------- The hypervisor ----------

  /** Resume a guest until it signals the end of its turn on the given port. It makes exactly
      one IN and one OUT access on the way, and the loop ends however much noise there is. */
  method RunTurn(vm: Vm, port: nat, ghost m: seq<byte>, ghost s: BufferState)
    requires vm.Valid() && |m| == MEM_SIZE && WellFormed(s) && vm.mem[..] == Image(m, s)
    requires vm.pc != AtIn && port == (if vm.guest.Guest4a? then 0xF2 else 0xF3)
    modifies vm, vm.mem
    ensures vm.pc == AtOut && vm.exits == old(vm.exits) + 2
    ensures vm.stamps == old(vm.NextReads(s))
    ensures vm.mem[..] == Image(m, old(vm.NextState(s)))
  {
    while true
      invariant vm.mem[..] == Image(m, s) && vm.stamps == old(vm.stamps)
      invariant vm.exits == old(vm.exits) + (if vm.pc.AtIn? then 1 else 0)
      decreases if vm.pc.AtIn? then 0 else 1, vm.pending
    {
      var e := vm.Run(m, s);
      if e == Io(true, port) {
        break;
      }
    }
  }

  /** The printing loops: n values from index start on. */
  method PrintWindow(buf: seq<int32>, start: nat, n: int) returns (values: seq<int32>)
    requires |buf| == SLOTS
    ensures values == Window(buf, start, if n > 0 then n else 0)
  {
    values := [];
    var j := 0;
    while j < n
      invariant 0 <= j && (n > 0 ==> j <= n) && (n <= 0 ==> j == 0)
      invariant values == Window(buf, start, j)
    {
      var index := (start + j) % SLOTS;
      values := values + [buf[index]];
      j := j + 1;
    }
  }

  /** The system the two machines and the hypervisor's record stand for. */
  ghost function SysOf(shared: BufferState, vm1: Vm, vm2: Vm): Sys
    requires vm1.Valid() && vm2.Valid()
    reads vm1, vm2, vm1.mem, vm2.mem
  {
    Sys(shared, View(vm1.mem[..]), View(vm2.mem[..]), vm1.stamps, vm2.stamps)
  }

  ghost predicate Ready(vm1: Vm, vm2: Vm)
    reads vm1, vm2
  {
    && vm1.Valid() && vm2.Valid() && vm1 != vm2 && vm1.mem != vm2.mem
    && vm1.guest == Guest4a && vm2.guest == Guest4b
    && vm1.pc != AtIn && vm2.pc != AtIn
  }

  method ProducerSlice(vm1: Vm, vm2: Vm, shared: BufferState) returns (now: BufferState, lines: seq<Line>)
    requires Ready(vm1, vm2) && Sound(SysOf(shared, vm1, vm2))
    modifies vm1, vm1.mem, vm2.mem
    ensures Ready(vm1, vm2)
    ensures (SysOf(now, vm1, vm2), lines)
         == ProducerTurn(old(SysOf(shared, vm1, vm2)), BOTH, Dice(vm1.tsc, vm2.tsc))
    ensures vm1.mem[..] == Image(old(vm1.mem[..]), now) && vm2.mem[..] == Image(old(vm2.mem[..]), now)
    ensures vm1.exits == old(vm1.exits) + 2
  {
    hide Image, View, Encode, PutAll, DropMany, Window;
    ghost var a, b := vm1.mem[..], vm2.mem[..];
    ImageDef(a, shared);
    ImageDef(b, shared);
    Memcpy(vm1.mem, STATE_ADDR, Encode(shared));
    RunTurn(vm1, 0xF2, a, shared);
    ghost var s := PutAll(shared, Items(vm1.tsc, old(vm1.stamps), shared.count));
    ViewImage(a, s);
    ViewImage(b, s);
    now := View(vm1.mem[..]);
    var produced := now.count - shared.count;
    var values := PrintWindow(now.buf, shared.prodP, produced);
    lines := [Produced(produced, values)];
    var ring := PrintWindow(now.buf, now.consP, now.count);
    lines := lines + [Hypvsr(ring)];
    ImageDef(b, now);
    Memcpy(vm2.mem, STATE_ADDR, Encode(now));
    ghost var turn := ProducerTurn(old(SysOf(shared, vm1, vm2)), BOTH, Dice(vm1.tsc, vm2.tsc));
    assert SysOf(now, vm1, vm2) == turn.0 && lines == turn.1;

  }

  method ConsumerSlice(vm1: Vm, vm2: Vm, shared: BufferState) returns (now: BufferState, lines: seq<Line>)
    requires Ready(vm1, vm2) && Sound(SysOf(shared, vm1, vm2))
    modifies vm2, vm2.mem, vm1.mem
    ensures Ready(vm1, vm2)
    ensures (SysOf(now, vm1, vm2), lines)
         == ConsumerTurn(old(SysOf(shared, vm1, vm2)), BOTH, Dice(vm1.tsc, vm2.tsc))
    ensures vm1.mem[..] == Image(old(vm1.mem[..]), now) && vm2.mem[..] == Image(old(vm2.mem[..]), now)
    ensures vm2.exits == old(vm2.exits) + 2
  {
    hide Image, View, Encode, PutAll, DropMany, Window;
    ghost var a, b := vm1.mem[..], vm2.mem[..];
    ImageDef(a, shared);
    ImageDef(b, shared);
    Memcpy(vm2.mem, STATE_ADDR, Encode(shared));
    RunTurn(vm2, 0xF3, b, shared);
    ghost var s := DropMany(shared, ConsumeCount(vm2.tsc(old(vm2.stamps)), shared.count));
    ViewImage(a, s);
    ViewImage(b, s);
    now := View(vm2.mem[..]);
    var consumed := shared.count - now.count;
    var values := PrintWindow(shared.buf, shared.consP, consumed);
    lines := [Consumed(consumed, values)];
    var ring := PrintWindow(now.buf, now.consP, now.count);
    lines := lines + [Hypvsr(ring)];
    ImageDef(a, now);
    Memcpy(vm1.mem, STATE_ADDR, Encode(now));
    ghost var turn := ConsumerTurn(old(SysOf(shared, vm1, vm2)), BOTH, Dice(vm1.tsc, vm2.tsc));
    assert SysOf(now, vm1, vm2) == turn.0 && lines == turn.1;
  }

  /** emu4's run_vm: what it prints is the run of RingProtocol, and of each guest's memory it
      changes only the record, which ends as the hypervisor's own. */
  method RunVm(vm1: Vm, vm2: Vm, sched: string) returns (log: seq<Line>, shared: BufferState)
    requires Ready(vm1, vm2)
    requires View(vm1.mem[..]) == ZERO_STATE == View(vm2.mem[..])
    modifies vm1, vm1.mem, vm2, vm2.mem
    ensures Coherent(old(SysOf(ZERO_STATE, vm1, vm2)))
    ensures (SysOf(shared, vm1, vm2), log)
         == RingProtocol.Run(sched, old(SysOf(ZERO_STATE, vm1, vm2)), BOTH, Dice(vm1.tsc, vm2.tsc))
    ensures vm1.mem[..] == Image(old(vm1.mem[..]), shared) && vm2.mem[..] == Image(old(vm2.mem[..]), shared)
    ensures AllProduced(log) == AllConsumed(log) + LastRing(log, [])
    ensures SlotLaw(shared, AllProduced(log), |AllConsumed(log)|)
  {
    hide Image, View, Encode, Window, AllProduced, AllConsumed, LastRing, ProducerTurn, ConsumerTurn;
    ghost var a, b := vm1.mem[..], vm2.mem[..];
    ghost var w := SysOf(ZERO_STATE, vm1, vm2);
    ghost var dice := Dice(vm1.tsc, vm2.tsc);
    shared, log := ZERO_STATE, [];
    ImageView(a);
    ImageView(b);
    for i := 0 to |sched|
      invariant Ready(vm1, vm2)
      invariant (SysOf(shared, vm1, vm2), log) == RingProtocol.Run(sched[..i], w, BOTH, dice)
      invariant vm1.mem[..] == Image(a, shared) && vm2.mem[..] == Image(b, shared)
    {
      ghost var before, init := shared, sched[..i + 1];
      assert init[..|init| - 1] == sched[..i];
      var lines := [];
      if sched[i] == '1' {
        shared, lines := ProducerSlice(vm1, vm2, shared);
      } else if sched[i] == '2' {
        shared, lines := ConsumerSlice(vm1, vm2, shared);
      }
      ImageImage(a, before, shared);
      ImageImage(b, before, shared);
      log := log + lines;
    }
    assert sched[..|sched|] == sched;
    WholeRunFifo(sched, w, dice);
    RunKeepsSlotLaw(sched, w, dice, [], 0);
    assert [] + AllProduced(log) == AllProduced(log);
  }
}
