/** simple-kvm as it runs: the hypervisor's globals, its 128-byte string buffer, the guest's
    memory and rax change in place, exit by exit; proved against Hypercalls. */
module HypercallsVm {
  import opened Memory
  import opened Paging
  import opened Hypercalls

  /** setup_paged_32bit_mode or setup_long_mode, writing the table entries. */
  method SetUp(mem: array<byte>, mode: Mode)
    requires mem.Length == MEM_SIZE
    modifies mem
    ensures mem[..] == Setup(mode, old(mem[..]))
  {
    hide Splice, ToLE, FromLE;
    match mode {
      case Protected =>
      case Paged32 =>
        Memcpy(mem, CR3, ToLE(BIG_PAGE_ENTRY, 4));
      case LongMode =>
        Memcpy(mem, CR3, ToLE(PML4_ENTRY, 8));
        Memcpy(mem, PDPT_ADDR, ToLE(PDPT_ENTRY, 8));
        Memcpy(mem, PD_ADDR, ToLE(BIG_PAGE_ENTRY, 8));
    }
  }

  class Machine {
    /** Where guest memory lies in the hypervisor's own address space. */
    const base: nat
    const mem: array<byte>
    const exitStr: array<byte>
    var globalExitCount: nat
    var ioInCount: nat
    var ioOutCount: nat
    /** All port accesses, counted by nobody in the original. */
    ghost var raw: nat
    var rax: word
    var output: seq<Output>

    ghost predicate Valid()
      reads this
    {
      mem.Length == MEM_SIZE && exitStr.Length == STR_BYTES && mem != exitStr
    }

    ghost function State(): Host
      reads this, mem, exitStr
    {
      Host(globalExitCount, ioInCount, ioOutCount, raw, exitStr[..], mem[..], rax, output)
    }

    /** vm_init, the mode's table setup, and the image copied to address 0. */
    constructor (mode: Mode, image: seq<byte>, base: nat)
      requires |image| <= CR3
      ensures Valid() && fresh(mem) && fresh(exitStr) && this.base == base
      ensures State() == Host(0, 0, 0, 0, seq(STR_BYTES, _ => 0), Boot(mode, image), 0, [])
    {
      this.base := base;
      mem := new byte[MEM_SIZE](_ => 0);
      exitStr := new byte[STR_BYTES](_ => 0);
      globalExitCount, ioInCount, ioOutCount, raw, rax, output := 0, 0, 0, 0, 0, [];
      new;
      hide Splice, ToLE, FromLE;
      assert mem[..] == seq(MEM_SIZE, _ => 0);
      SetUp(mem, mode);
      Memcpy(mem, 0, image);
      assert exitStr[..] == seq(STR_BYTES, _ => 0);
    }

    /** fprintf("%s"): the bytes from an address to the next zero byte. */
    method ReadString(a: nat) returns (s: seq<byte>)
      requires Valid()
      ensures s == CString(mem[..], a)
    {
      s := [];
      var i := a;
      assert [] + CString(mem[..], a) == CString(mem[..], a);
      while i < mem.Length && mem[i] != 0
        invariant a <= i
        invariant s + CString(mem[..], i) == CString(mem[..], a)
      {
        assert s + ([mem[i]] + CString(mem[..], i + 1)) == s + [mem[i]] + CString(mem[..], i + 1);
        s := s + [mem[i]];
        i := i + 1;
      }
      assert s + [] == s;
    }

    /** The OUT half of run_vm's KVM_EXIT_IO case. */
    method HandleOut(port: nat, val: word)
      requires Valid()
      modifies this
      ensures State() == OnOut(old(State()), base, port, val)
    {
      raw := raw + 1;
      rax := val;
      if port == 0xE9 {
        globalExitCount, ioOutCount := globalExitCount + 1, ioOutCount + 1;
        output := output + [Char(val % 256)];
      } else if port == 0xEA {
        globalExitCount, ioOutCount := globalExitCount + 1, ioOutCount + 1;
        output := output + [Number(val)];
      } else if port == 0xEC {
        globalExitCount, ioOutCount := globalExitCount + 1, ioOutCount + 1;
        var s := ReadString(val);
        output := output + [Str(s)];
      } else if port == 0xEE {
        globalExitCount, ioOutCount := globalExitCount + 1, ioOutCount + 1;
        var hva := 0;
        if val < mem.Length {
          hva := Wrap32(base + val);
        } else {
          output := output + [InvalidGva];
        }
        rax := hva;
      }
    }

    /** The IN half; the guest's eax receives what the handler puts in the page, which holds
        something stale when the handler does not answer. */
    method HandleIn(port: nat, stale: word)
      requires Valid()
      modifies this, mem, exitStr
      ensures State() == OnIn(old(State()), port, stale)
    {
      hide Splice, CountsText;
      raw := raw + 1;
      if port == 0xEB {
        globalExitCount, ioInCount := globalExitCount + 1, ioInCount + 1;
        rax := Wrap32(globalExitCount);
      } else if port == 0xED {
        globalExitCount, ioInCount := globalExitCount + 1, ioInCount + 1;
        CountsTextShort(ioInCount, ioOutCount);
        Memcpy(exitStr, 0, CountsText(ioInCount, ioOutCount) + [0]);
        Memcpy(mem, STR_ADDR, exitStr[..]);
        rax := STR_ADDR;
      } else if port == 0xEE {
        rax := rax;
      } else {
        rax := stale;
      }
    }

    /** The stubs of guest.c. */
    method Perform(call: Call) returns (result: word)
      requires Valid()
      modifies this, mem, exitStr
      ensures State() == Do(old(State()), base, call) && result == rax
    {
      match call {
        case Print8bit(b) => HandleOut(0xE9, b);
        case Print32bit(v) => HandleOut(0xEA, v);
        case PrintStr(p) => HandleOut(0xEC, p);
        case NumExits =>
          HandleOut(0xEB, 0);
          HandleIn(0xEB, 0);
        case NumExitsByType =>
          HandleOut(0xED, 0);
          HandleIn(0xED, 0);
        case GvaToHva(gva) =>
          HandleOut(0xEE, gva);
          HandleIn(0xEE, 0);
      }
      result := rax;
    }

    /** A guest that makes the given calls one after another. */
    method RunCalls(calls: seq<Call>) returns (results: seq<word>)
      requires Valid()
      modifies this, mem, exitStr
      ensures (State(), results) == Program(old(State()), base, calls)
      ensures globalExitCount == old(globalExitCount) + |calls|
      ensures ioInCount + ioOutCount == old(ioInCount + ioOutCount) + |calls|
      ensures ioInCount == old(ioInCount) + InCalls(calls)
      ensures ioOutCount == old(ioOutCount) + (|calls| - InCalls(calls))
    {
      results := [];
      for i := 0 to |calls|
        invariant (State(), results) == Program(old(State()), base, calls[..i])
      {
        assert calls[..i + 1][..i] == calls[..i];
        var r := Perform(calls[i]);
        results := results + [r];
      }
      assert calls[..|calls|] == calls;
      EveryCallCountsOnce(old(State()), base, calls);
      DirectionsCounted(old(State()), base, calls);
    }
  }
}
