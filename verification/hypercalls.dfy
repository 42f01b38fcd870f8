/** simple-kvm's I/O exit handler and the hypercalls of guest.c: the exit counters, the
    counter string in guest memory, and the translation of guest addresses. */
module Hypercalls {
  import opened Memory
  import opened Paging

  const STR_ADDR: nat := 0x10_0000
  const STR_BYTES: nat := 128

  /** What the hypervisor writes to its standard output. */
  datatype Output = Char(b: byte) | Number(v: word) | Str(s: seq<byte>) | InvalidGva

  /** The hypervisor's globals, the guest's memory and its rax, and every port access so far. */
  datatype Host = Host(
    exits: nat, ins: nat, outs: nat, raw: nat,
    exitStr: seq<byte>, mem: seq<byte>, rax: word, output: seq<Output>)

  ghost predicate Sound(h: Host) {
    |h.mem| == MEM_SIZE && |h.exitStr| == STR_BYTES
  }

  // ---------- Strings ----------

  /** The decimal digits of %u. */
  function Decimal(n: nat): (s: seq<byte>)
  {
    if n < 10 then [48 + n] else Decimal(n / 10) + [48 + n % 10]
  }

  /** "IO in: ", "IO out: " and the newline, as bytes. */
  const IO_IN: seq<byte> := [73, 79, 32, 105, 110, 58, 32]
  const IO_OUT: seq<byte> := [73, 79, 32, 111, 117, 116, 58, 32]
  const NEWLINE: seq<byte> := [10]

  function CountsText(ins: nat, outs: nat): seq<byte> {
    IO_IN + Decimal(Wrap32(ins)) + NEWLINE + IO_OUT + Decimal(Wrap32(outs)) + NEWLINE
  }

  /** The C string at an address: up to the first zero byte, or the end of memory. */
  function CString(m: seq<byte>, a: nat): seq<byte>
    decreases |m| - a
  {
    if a >= |m| || m[a] == 0 then [] else [m[a]] + CString(m, a + 1)
  }

  ghost predicate NoZero(s: seq<byte>) {
    forall i :: 0 <= i < |s| ==> s[i] != 0
  }

  function Pow10(k: nat): nat {
    if k == 0 then 1 else 10 * Pow10(k - 1)
  }

  lemma {:induction false} DecimalShort(n: nat, k: nat)
    requires k > 0 && n < Pow10(k)
    ensures |Decimal(n)| <= k && NoZero(Decimal(n))
  {
    if n >= 10 {
      assert k > 1;
      DecimalShort(n / 10, k - 1);
    }
  }

  lemma {:induction false} CountsTextShort(ins: nat, outs: nat)
    ensures |CountsText(ins, outs)| < STR_BYTES && NoZero(CountsText(ins, outs))
  {
    assert Pow10(4) == 10000 by { assert Pow10(2) == 100; }
    assert Pow10(6) == 100_0000 && Pow10(8) == 1_0000_0000 && Pow10(10) == 100_0000_0000;
    DecimalShort(Wrap32(ins), 10);
    DecimalShort(Wrap32(outs), 10);
  }

  /** The bytes of a string that is followed by a zero byte. */
  lemma {:induction false} CStringOf(m: seq<byte>, a: nat, s: seq<byte>)
    requires a + |s| < |m| && m[a..a + |s|] == s && m[a + |s|] == 0 && NoZero(s)
    ensures CString(m, a) == s
    decreases |s|
  {
    if s != [] {
      assert m[a] == s[0];
      assert m[a + 1..a + 1 + |s[1..]|] == s[1..];
      CStringOf(m, a + 1, s[1..]);
    }
  }

  /** A string copied into memory with its zero byte is read back as it is. */
  lemma StringCopied(m: seq<byte>, a: nat, s: seq<byte>, text: seq<byte>)
    requires a + |s| <= |m| && |text| < |s| && s[..|text| + 1] == text + [0] && NoZero(text)
    ensures CString(Splice(m, a, s), a) == text
  {
    var r := Splice(m, a, s);
    assert r[a..a + |text|] == r[a..a + |s|][..|text|] == s[..|text| + 1][..|text|];
    assert r[a + |text|] == r[a..a + |s|][|text|] == s[..|text| + 1][|text|];
    CStringOf(r, a, text);
  }

  // ---------- The exit handler ----------

  /** The answer to a translation request: the host address cut to 32 bits, or 0. */
  function Hva(base: nat, gva: word): word {
    if gva < MEM_SIZE then Wrap32(base + gva) else 0
  }

  /** An OUT exit. base is where guest memory lies in the hypervisor's address space. */
  function OnOut(h: Host, base: nat, port: nat, val: word): (r: Host)
    requires Sound(h)
    ensures Sound(r)
  {
    var g := h.(raw := h.raw + 1, rax := val);
    var c := g.(exits := h.exits + 1, outs := h.outs + 1);
    if port == 0xE9 then c.(output := h.output + [Char(val % 256)])
    else if port == 0xEA then c.(output := h.output + [Number(val)])
    else if port == 0xEC then c.(output := h.output + [Str(CString(h.mem, val))])
    else if port == 0xEE then
      c.(rax := Hva(base, val), output := if val < MEM_SIZE then h.output else h.output + [InvalidGva])
    else g
  }

  /** The exit string after snprintf: the new text and its zero byte over what was there. */
  function NewExitStr(h: Host): (s: seq<byte>)
    requires Sound(h)
    ensures |s| == STR_BYTES
  {
    CountsTextShort(h.ins + 1, h.outs);
    Splice(h.exitStr, 0, CountsText(h.ins + 1, h.outs) + [0])
  }

  /** An IN exit: the new state, in which the guest's eax has received the data. */
  function OnIn(h: Host, port: nat, stale: word): (r: Host)
    requires Sound(h)
    ensures Sound(r)
  {
    var g := h.(raw := h.raw + 1, rax := stale);
    var c := h.(raw := h.raw + 1, exits := h.exits + 1, ins := h.ins + 1);
    if port == 0xEB then c.(rax := Wrap32(h.exits + 1))
    else if port == 0xED then
      var s := NewExitStr(h);
      c.(exitStr := s, mem := Splice(h.mem, STR_ADDR, s), rax := STR_ADDR)
    else if port == 0xEE then g.(rax := h.rax)
    else g
  }

  // ---------- The hypercalls ----------

  datatype Call =
    | Print8bit(b: byte)
    | Print32bit(v: word)
    | NumExits
    | PrintStr(p: word)
    | NumExitsByType
    | GvaToHva(gva: word)

  /** A guest stub: its port accesses in order. What it returns is left in rax. */
  function Do(h: Host, base: nat, call: Call): (r: Host)
    requires Sound(h)
    ensures Sound(r)
  {
    match call
    case Print8bit(b) => OnOut(h, base, 0xE9, b)
    case Print32bit(v) => OnOut(h, base, 0xEA, v)
    case PrintStr(p) => OnOut(h, base, 0xEC, p)
    case NumExits => OnIn(OnOut(h, base, 0xEB, 0), 0xEB, 0)
    case NumExitsByType => OnIn(OnOut(h, base, 0xED, 0), 0xED, 0)
    case GvaToHva(gva) => OnIn(OnOut(h, base, 0xEE, gva), 0xEE, 0)
  }

  /** What else happens to the machine between hypercalls: the guest stores bytes, or the
      processor sets accessed and dirty bits in the first entry of a table. */
  datatype Event = Hypercall(call: Call) | Store(a: nat, bs: seq<byte>) | Mark(a: nat, e: nat)

  function EntryBytes(mode: Mode): nat {
    if mode.LongMode? then 8 else 4
  }

  /** Stores stay in memory and off the tables; marks change accessed and dirty bits only. */
  ghost predicate Allowed(mode: Mode, h: Host, ev: Event)
    requires Sound(h)
  {
    match ev
    case Hypercall(_) => true
    case Store(a, bs) =>
      a + |bs| <= MEM_SIZE && (mode.Protected? || a + |bs| <= CR3 || TablesEnd(mode) <= a)
    case Mark(a, e) =>
      && mode != Protected
      && (a == CR3 || (mode.LongMode? && (a == PDPT_ADDR || a == PD_ADDR)))
      && e < Pow256(EntryBytes(mode))
      && Masked(e) == Masked(FromLE(h.mem[a..a + EntryBytes(mode)]))
  }

  ghost function Apply(mode: Mode, base: nat, h: Host, ev: Event): (r: Host)
    requires Sound(h) && Allowed(mode, h, ev)
    ensures Sound(r)
  {
    match ev
    case Hypercall(call) => Do(h, base, call)
    case Store(a, bs) => h.(mem := Splice(h.mem, a, bs))
    case Mark(a, e) => h.(mem := Splice(h.mem, a, ToLE(e, EntryBytes(mode))))
  }

  /** h2 is reached from h1 by these events. */
  ghost predicate Reaches(mode: Mode, base: nat, h1: Host, evs: seq<Event>, h2: Host)
    requires Sound(h1)
    decreases |evs|
  {
    if evs == [] then h1 == h2
    else Allowed(mode, h1, evs[0]) && Reaches(mode, base, Apply(mode, base, h1, evs[0]), evs[1..], h2)
  }

  // ---------- Translation ----------

  lemma ApplyKeepsTables(mode: Mode, base: nat, h: Host, ev: Event)
    requires Sound(h) && Allowed(mode, h, ev) && TablesOk(mode, h.mem)
    ensures TablesOk(mode, Apply(mode, base, h, ev).mem)
  {
    match ev {
      case Hypercall(call) =>
        if call.NumExitsByType? {
          WriteKeepsTables(mode, h.mem, STR_ADDR, NewExitStr(OnOut(h, base, 0xED, 0)));
        }
      case Store(a, bs) => WriteKeepsTables(mode, h.mem, a, bs);
      case Mark(a, e) => MarkKeepsTables(mode, h.mem, a, e);
    }
  }

  /** MAIN RESULT. The tables survive every run: the hypervisor's only write to guest memory
      misses them, whatever calls are made in whatever order. */
  lemma {:induction false} RunKeepsTables(mode: Mode, base: nat, h1: Host, evs: seq<Event>, h2: Host)
    requires Sound(h1) && TablesOk(mode, h1.mem) && Reaches(mode, base, h1, evs, h2)
    ensures Sound(h2) && TablesOk(mode, h2.mem)
    decreases |evs|
  {
    hide Allowed, Apply, TablesOk;
    if evs != [] {
      ApplyKeepsTables(mode, base, h1, evs[0]);
      RunKeepsTables(mode, base, Apply(mode, base, h1, evs[0]), evs[1..], h2);
    }
  }

  /** MAIN RESULT. In every mode that makes hypercalls, at every point of every run from boot,
      HC_gvaToHva returns the cut host address of the byte that the guest's own page walk
      finds, and 0 with the message exactly when the walk finds no memory. */
  lemma {:induction false} GvaToHvaFollowsWalk(mode: Mode, base: nat, image: seq<byte>, h1: Host, evs: seq<Event>, h2: Host, gva: word)
    requires |image| <= CR3 && Sound(h1) && h1.mem == Boot(mode, image) && Reaches(mode, base, h1, evs, h2)
    ensures Sound(h2)
    ensures var after := Do(h2, base, GvaToHva(gva));
            match Walk(mode, h2.mem, gva)
            case Some(pa) =>
              if pa < MEM_SIZE then after.rax == Wrap32(base + pa) && after.output == h2.output
              else after.rax == 0 && after.output == h2.output + [InvalidGva]
            case None => after.rax == 0 && after.output == h2.output + [InvalidGva]
  {
    hide TablesOk, Walk, Boot, Reaches;
    BootTables(mode, image);
    RunKeepsTables(mode, base, h1, evs, h2);
    BoundIsTranslation(mode, h2.mem, gva);
  }

  /** Cutting to 32 bits loses nothing over the guest's 2 MB. */
  lemma {:induction false} HvaInjective(base: nat, g1: word, g2: word)
    requires g1 < MEM_SIZE && g2 < MEM_SIZE && Hva(base, g1) == Hva(base, g2)
    ensures g1 == g2
  {
    var q1, q2 := (base + g1) / 0x1_0000_0000, (base + g2) / 0x1_0000_0000;
    assert base + g1 - 0x1_0000_0000 * q1 == base + g2 - 0x1_0000_0000 * q2;
  }

  /** The answer 0 means "invalid" unless a 32-bit boundary of the host's addresses falls in
      guest memory: exactly then some valid address is answered with 0 as well. */
  lemma {:induction false} ZeroAmbiguous(base: nat)
    ensures (exists gva: word :: gva < MEM_SIZE && Hva(base, gva) == 0)
            <==> (Wrap32(base) == 0 || Wrap32(base) > 0x1_0000_0000 - MEM_SIZE)
  {
    var r := Wrap32(base);
    forall gva: word | gva < MEM_SIZE
      ensures Hva(base, gva) == if r + gva < 0x1_0000_0000 then r + gva else r + gva - 0x1_0000_0000
    {
      Wrap32Add(base, gva);
    }
    if r > 0x1_0000_0000 - MEM_SIZE {
      assert Hva(base, 0x1_0000_0000 - r) == 0;
    } else if r == 0 {
      assert Hva(base, 0) == 0;
    }
  }

  // ---------- Accounting ----------

  /** A program of hypercalls: the state after it, and each call's result. */
  function Program(h: Host, base: nat, calls: seq<Call>): (r: (Host, seq<word>))
    requires Sound(h)
    ensures Sound(r.0) && |r.1| == |calls|
  {
    if calls == [] then (h, []) else
      var (g, rs) := Program(h, base, calls[..|calls| - 1]);
      var g' := Do(g, base, calls[|calls| - 1]);
      (g', rs + [g'.rax])
  }

  predicate TwoExits(call: Call) {
    call.NumExits? || call.NumExitsByType? || call.GvaToHva?
  }

  function TwoExitCalls(calls: seq<Call>): nat {
    if calls == [] then 0 else
      TwoExitCalls(calls[..|calls| - 1]) + (if TwoExits(calls[|calls| - 1]) then 1 else 0)
  }

  /** The calls whose counted port access is an IN. */
  predicate CountsIn(call: Call) {
    call.NumExits? || call.NumExitsByType?
  }

  /** How many calls of a program count as IN. */
  function InCalls(calls: seq<Call>): (n: nat)
    ensures n <= |calls|
  {
    if calls == [] then 0 else
      InCalls(calls[..|calls| - 1]) + (if CountsIn(calls[|calls| - 1]) then 1 else 0)
  }

  lemma {:induction false} CallDirection(h: Host, base: nat, call: Call)
    requires Sound(h)
    ensures var g := Do(h, base, call);
            && g.ins == h.ins + (if call.NumExits? || call.NumExitsByType? then 1 else 0)
            && g.outs == h.outs + (if call.NumExits? || call.NumExitsByType? then 0 else 1)
  {
  }

  /** MAIN RESULT. Over every program of hypercalls the IN counter grows by the calls that ask
      for a count, and the OUT counter by all the others. */
  lemma {:induction false} DirectionsCounted(h: Host, base: nat, calls: seq<Call>)
    requires Sound(h)
    ensures var g := Program(h, base, calls).0;
            && g.ins == h.ins + InCalls(calls)
            && g.outs == h.outs + (|calls| - InCalls(calls))
  {
    hide Do;
    if calls != [] {
      DirectionsCounted(h, base, calls[..|calls| - 1]);
      CallDirection(Program(h, base, calls[..|calls| - 1]).0, base, calls[|calls| - 1]);
    }
  }

  /** What each call writes to the hypervisor's standard output, and that no call but
      HC_numExitsByType writes to guest memory. */
  lemma {:induction false} CallOutput(h: Host, base: nat, call: Call)
    requires Sound(h)
    ensures var g := Do(h, base, call);
            && g.output == h.output + (match call
                 case Print8bit(b) => [Char(b)]
                 case Print32bit(v) => [Number(v)]
                 case PrintStr(p) => [Str(CString(h.mem, p))]
                 case GvaToHva(gva) => if gva < MEM_SIZE then [] else [InvalidGva]
                 case _ => [])
            && (!call.NumExitsByType? ==> g.mem == h.mem && g.exitStr == h.exitStr)
  {
    match call {
      case Print8bit(b) => assert b % 256 == b;
      case _ =>
    }
  }

  lemma {:induction false} CallCounts(h: Host, base: nat, call: Call)
    requires Sound(h)
    ensures var g := Do(h, base, call);
            && g.exits == h.exits + 1 && g.ins + g.outs == h.ins + h.outs + 1
            && g.raw == h.raw + (if TwoExits(call) then 2 else 1)
            && (call.NumExits? ==> g.rax == Wrap32(g.exits))
  {
  }

  /** MAIN RESULT. Every hypercall counts once, although half of them leave the guest twice:
      the counters grow by the number of calls, the port accesses by as many more as there are
      two-exit calls. */
  lemma {:induction false} EveryCallCountsOnce(h: Host, base: nat, calls: seq<Call>)
    requires Sound(h)
    ensures var g := Program(h, base, calls).0;
            && g.exits == h.exits + |calls|
            && g.ins + g.outs == h.ins + h.outs + |calls|
            && g.raw == h.raw + |calls| + TwoExitCalls(calls)
  {
    hide Do;
    if calls != [] {
      EveryCallCountsOnce(h, base, calls[..|calls| - 1]);
      CallCounts(Program(h, base, calls[..|calls| - 1]).0, base, calls[|calls| - 1]);
    }
  }

  lemma {:induction false} ResultAt(h: Host, base: nat, calls: seq<Call>, i: nat)
    requires Sound(h) && i < |calls|
    ensures Program(h, base, calls).1[i] == Do(Program(h, base, calls[..i]).0, base, calls[i]).rax
  {
    hide Do;
    if i < |calls| - 1 {
      var init := calls[..|calls| - 1];
      ResultAt(h, base, init, i);
      assert init[..i] == calls[..i];
    }
  }

  /** MAIN RESULT. Two results of HC_numExits differ by the calls in between and one. */
  lemma {:induction false} NumExitsDifference(h: Host, base: nat, calls: seq<Call>, i: nat, j: nat)
    requires Sound(h) && i < j < |calls| && calls[i].NumExits? && calls[j].NumExits?
    ensures var rs := Program(h, base, calls).1;
            rs[j] == Wrap32(rs[i] + (j - i))
  {
    hide Do, Program, Wrap32;
    ResultAt(h, base, calls, i);
    ResultAt(h, base, calls, j);
    CallCounts(Program(h, base, calls[..i]).0, base, calls[i]);
    CallCounts(Program(h, base, calls[..j]).0, base, calls[j]);
    EveryCallCountsOnce(h, base, calls[..i]);
    EveryCallCountsOnce(h, base, calls[..j]);
    Wrap32Add(h.exits + i + 1, j - i);
  }

  // ---------- The counter string ----------

  /** Printing the string that HC_numExitsByType left in guest memory shows the counters as
      of that call, the call itself included. */
  lemma {:induction false} CountsStringReadsBack(h: Host, base: nat)
    requires Sound(h)
    ensures var g := Do(h, base, NumExitsByType);
            && g.rax == STR_ADDR
            && CString(g.mem, STR_ADDR) == CountsText(g.ins, g.outs)
            && g.ins == h.ins + 1 && g.outs == h.outs
  {
    hide CString, CountsText, Splice;
    var text := CountsText(h.ins + 1, h.outs);
    var s := NewExitStr(OnOut(h, base, 0xED, 0));
    CountsTextShort(h.ins + 1, h.outs);
    assert s[0..|text| + 1] == text + [0];
    StringCopied(h.mem, STR_ADDR, s, text);
  }

  lemma PrintStrOutput(h: Host, base: nat, p: word)
    requires Sound(h)
    ensures Do(h, base, PrintStr(p)).output == h.output + [Str(CString(h.mem, p))]
  {
  }

  lemma {:induction false} OthersKeepMemory(h: Host, base: nat, calls: seq<Call>, j: nat, k: nat)
    requires Sound(h) && j < k <= |calls|
    requires forall m :: j < m < k ==> !calls[m].NumExitsByType?
    ensures Program(h, base, calls[..k]).0.mem == Program(h, base, calls[..j + 1]).0.mem
  {
    if j + 1 < k {
      OthersKeepMemory(h, base, calls, j, k - 1);
      assert calls[..k][..k - 1] == calls[..k - 1];
    }
  }

  /** MAIN RESULT. All results of HC_numExitsByType are one address, so printing through the
      result of call i shows the counters as of the latest such call j, not as of i. */
  lemma {:induction false} LatestCountsPrinted(h: Host, base: nat, calls: seq<Call>, i: nat, j: nat, k: nat)
    requires Sound(h) && i <= j < k < |calls|
    requires calls[i].NumExitsByType? && calls[j].NumExitsByType?
    requires forall m :: j < m < k ==> !calls[m].NumExitsByType?
    requires calls[k] == PrintStr(Program(h, base, calls).1[i])
    ensures var (g, e) := (Program(h, base, calls[..j + 1]).0, Program(h, base, calls[..k]).0);
            Program(h, base, calls[..k + 1]).0.output == e.output + [Str(CountsText(g.ins, g.outs))]
  {
    hide Do, CString, CountsText;
    ResultAt(h, base, calls, i);
    PrintStrOutput(Program(h, base, calls[..k]).0, base, STR_ADDR);
    CountsStringReadsBack(Program(h, base, calls[..i]).0, base);
    CountsStringReadsBack(Program(h, base, calls[..j]).0, base);
    assert calls[..j + 1][..j] == calls[..j];
    assert calls[..k + 1][..k] == calls[..k];
    OthersKeepMemory(h, base, calls, j, k);
  }
}
