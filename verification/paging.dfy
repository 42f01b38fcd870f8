/** The page tables that simple-kvm builds for its guests, and the processor's walk over them
    (Intel SDM Vol. 3A, sections 4.3 and 4.5), for the three modes that make hypercalls. */
module Paging {
  import opened Memory

  datatype Option<T> = None | Some(value: T)

  datatype Mode = Protected | Paged32 | LongMode

  const CR3: nat := 0x2000
  const PDPT_ADDR: nat := 0x3000
  const PD_ADDR: nat := 0x4000

  /** Table entries built by setup_paged_32bit_mode and setup_long_mode. */
  const BIG_PAGE_ENTRY: nat := 0x87
  const PML4_ENTRY: nat := 0x3007
  const PDPT_ENTRY: nat := 0x4007

  // ---------- Entries ----------

  function Present(e: nat): bool {
    e % 2 == 1
  }

  function BigPage(e: nat): bool {
    e / 0x80 % 2 == 1
  }

  /** Physical-address bits 51:12 of an 8-byte entry. */
  function TableAddr(e: nat): nat {
    e / 0x1000 % 0x100_0000_0000 * 0x1000
  }

  /** An entry without its accessed and dirty bits, which the processor sets by itself. */
  function Masked(e: nat): int {
    e - e / 0x20 % 4 * 0x20
  }

  /** An n-byte entry in guest-physical memory; none where no memory is. */
  function Entry(m: seq<byte>, a: nat, n: nat): Option<nat> {
    if a + n <= |m| then Some(FromLE(m[a..a + n])) else None
  }

  // ---------- The walks ----------

  /** 32-bit paging with page-size extensions. */
  function Walk32(m: seq<byte>, cr3: nat, gva: nat): Option<nat> {
    match Entry(m, cr3 + 4 * (gva / 0x40_0000), 4)
    case None => None
    case Some(pde) =>
      if !Present(pde) then None
      else if BigPage(pde) then
        Some(pde / 0x2000 % 0x100 * 0x1_0000_0000 + pde / 0x40_0000 * 0x40_0000 + gva % 0x40_0000)
      else
        match Entry(m, pde / 0x1000 * 0x1000 + 4 * (gva / 0x1000 % 0x400), 4)
        case None => None
        case Some(pte) =>
          if Present(pte) then Some(pte / 0x1000 * 0x1000 + gva % 0x1000) else None
  }

  function Canonical(gva: nat): bool {
    gva < 0x8000_0000_0000 || 0xFFFF_8000_0000_0000 <= gva
  }

  /** Four-level paging. */
  function Walk64(m: seq<byte>, cr3: nat, gva: nat): Option<nat> {
    if !Canonical(gva) then None else
      match Entry(m, cr3 + 8 * (gva / 0x80_0000_0000 % 512), 8)
      case None => None
      case Some(pml4e) => if Present(pml4e) && !BigPage(pml4e) then Walk64Pdpt(m, TableAddr(pml4e), gva) else None
  }

  function Walk64Pdpt(m: seq<byte>, pdpt: nat, gva: nat): Option<nat> {
    match Entry(m, pdpt + 8 * (gva / 0x4000_0000 % 512), 8)
    case None => None
    case Some(pdpte) =>
      if !Present(pdpte) then None
      else if BigPage(pdpte) then Some(TableAddr(pdpte) / 0x4000_0000 * 0x4000_0000 + gva % 0x4000_0000)
      else Walk64Pd(m, TableAddr(pdpte), gva)
  }

  function Walk64Pd(m: seq<byte>, pd: nat, gva: nat): Option<nat> {
    match Entry(m, pd + 8 * (gva / 0x20_0000 % 512), 8)
    case None => None
    case Some(pde) =>
      if !Present(pde) then None
      else if BigPage(pde) then Some(TableAddr(pde) / 0x20_0000 * 0x20_0000 + gva % 0x20_0000)
      else
        match Entry(m, TableAddr(pde) + 8 * (gva / 0x1000 % 512), 8)
        case None => None
        case Some(pte) => if Present(pte) then Some(TableAddr(pte) + gva % 0x1000) else None
  }

  /** The guest-physical address of a guest-virtual one, as the guest's own mode has it. */
  function Walk(mode: Mode, m: seq<byte>, gva: nat): Option<nat> {
    match mode
    case Protected => Some(gva)
    case Paged32 => Walk32(m, CR3, gva)
    case LongMode => Walk64(m, CR3, gva)
  }

  // ---------- The tables ----------

  const TABLE_BYTES: nat := 0x1000

  /** One table of n-byte entries: the first is e up to accessed and dirty bits, the bytes of
      the others are zero. */
  ghost predicate OneEntry(m: seq<byte>, a: nat, n: nat, e: nat) {
    && 0 < n <= TABLE_BYTES && a + TABLE_BYTES <= |m|
    && Masked(FromLE(m[a..a + n])) == e
    && forall b :: a + n <= b < a + TABLE_BYTES ==> m[b] == 0
  }

  ghost predicate TablesOk(mode: Mode, m: seq<byte>) {
    && |m| == MEM_SIZE
    && (mode.Paged32? ==> OneEntry(m, CR3, 4, BIG_PAGE_ENTRY))
    && (mode.LongMode? ==>
         && OneEntry(m, CR3, 8, PML4_ENTRY)
         && OneEntry(m, PDPT_ADDR, 8, PDPT_ENTRY)
         && OneEntry(m, PD_ADDR, 8, BIG_PAGE_ENTRY))
  }

  /** setup_paged_32bit_mode and setup_long_mode, as far as memory goes. */
  function Setup(mode: Mode, m: seq<byte>): (r: seq<byte>)
    requires |m| == MEM_SIZE
    ensures |r| == MEM_SIZE
  {
    match mode
    case Protected => m
    case Paged32 => Splice(m, CR3, ToLE(BIG_PAGE_ENTRY, 4))
    case LongMode =>
      Splice(Splice(Splice(m, CR3, ToLE(PML4_ENTRY, 8)), PDPT_ADDR, ToLE(PDPT_ENTRY, 8)),
             PD_ADDR, ToLE(BIG_PAGE_ENTRY, 8))
  }

  /** Memory when the guest starts: zeroed, then the tables, then the image at 0. */
  function Boot(mode: Mode, image: seq<byte>): (r: seq<byte>)
    requires |image| <= CR3
    ensures |r| == MEM_SIZE
  {
    Splice(Setup(mode, seq(MEM_SIZE, _ => 0)), 0, image)
  }

  lemma {:induction false} ZeroEntry(s: seq<byte>)
    requires forall i :: 0 <= i < |s| ==> s[i] == 0
    ensures FromLE(s) == 0
  {
    if s != [] {
      ZeroEntry(s[1..]);
    }
  }

  ghost predicate ZeroPage(m: seq<byte>, a: nat) {
    a + TABLE_BYTES <= |m| && forall b :: a <= b < a + TABLE_BYTES ==> m[b] == 0
  }

  lemma FreshTable(m: seq<byte>, a: nat, n: nat, e: nat)
    requires 0 < n <= TABLE_BYTES && ZeroPage(m, a) && e < Pow256(n) && Masked(e) == e
    ensures OneEntry(Splice(m, a, ToLE(e, n)), a, n, e)
  {
    FromToLE(e, n);
  }

  lemma ZeroPageStays(m: seq<byte>, a: nat, bs: seq<byte>, t: nat)
    requires ZeroPage(m, t) && a + |bs| <= |m| && (a + |bs| <= t || t + TABLE_BYTES <= a)
    ensures ZeroPage(Splice(m, a, bs), t)
  {
  }

  lemma SetupTables(mode: Mode, m: seq<byte>)
    requires |m| == MEM_SIZE && ZeroPage(m, CR3) && ZeroPage(m, PDPT_ADDR) && ZeroPage(m, PD_ADDR)
    ensures TablesOk(mode, Setup(mode, m))
  {
    hide ZeroPage, OneEntry, Splice, ToLE, FromLE, Pow256;
    Pow256Values();
    match mode {
      case Protected =>
      case Paged32 => FreshTable(m, CR3, 4, BIG_PAGE_ENTRY);
      case LongMode =>
        var m1 := Splice(m, CR3, ToLE(PML4_ENTRY, 8));
        var m2 := Splice(m1, PDPT_ADDR, ToLE(PDPT_ENTRY, 8));
        FreshTable(m, CR3, 8, PML4_ENTRY);
        ZeroPageStays(m, CR3, ToLE(PML4_ENTRY, 8), PDPT_ADDR);
        ZeroPageStays(m, CR3, ToLE(PML4_ENTRY, 8), PD_ADDR);
        FreshTable(m1, PDPT_ADDR, 8, PDPT_ENTRY);
        SpliceKeepsEntries(m1, PDPT_ADDR, ToLE(PDPT_ENTRY, 8), CR3, 8, PML4_ENTRY);
        ZeroPageStays(m1, PDPT_ADDR, ToLE(PDPT_ENTRY, 8), PD_ADDR);
        FreshTable(m2, PD_ADDR, 8, BIG_PAGE_ENTRY);
        SpliceKeepsEntries(m2, PD_ADDR, ToLE(BIG_PAGE_ENTRY, 8), CR3, 8, PML4_ENTRY);
        SpliceKeepsEntries(m2, PD_ADDR, ToLE(BIG_PAGE_ENTRY, 8), PDPT_ADDR, 8, PDPT_ENTRY);
    }
  }

  /** The tables are in place when the guest starts, under every image that fits below them. */
  lemma {:induction false} BootTables(mode: Mode, image: seq<byte>)
    requires |image| <= CR3
    ensures TablesOk(mode, Boot(mode, image))
  {
    hide OneEntry, Setup;
    var zero := seq(MEM_SIZE, _ => 0);
    SetupTables(mode, zero);
    WriteKeepsTables(mode, Setup(mode, zero), 0, image);
  }

  // ---------- What the walks find ----------

  /** The entry at an offset into a table. */
  lemma EntryOf(m: seq<byte>, a: nat, n: nat, e: nat, offset: nat)
    requires OneEntry(m, a, n, e) && offset + n <= TABLE_BYTES && (offset == 0 || offset >= n)
    ensures Entry(m, a + offset, n).Some?
    ensures var v := Entry(m, a + offset, n).value;
            if offset == 0 then Masked(v) == e else v == 0
  {
    if offset > 0 {
      ZeroEntry(m[a + offset..a + offset + n]);
    }
  }

  /** Accessed and dirty bits never change what an entry points to. */
  lemma MaskedBits(e: nat)
    ensures Masked(e) == PML4_ENTRY ==> Present(e) && !BigPage(e) && TableAddr(e) == PDPT_ADDR
    ensures Masked(e) == PDPT_ENTRY ==> Present(e) && !BigPage(e) && TableAddr(e) == PD_ADDR
    ensures Masked(e) == BIG_PAGE_ENTRY ==>
              Present(e) && BigPage(e) && TableAddr(e) == 0 && e / 0x2000 == 0 && e / 0x40_0000 == 0
  {
    hide Masked;
    MaskedCases(e);
  }

  lemma MaskedCases(e: nat)
    ensures var c := Masked(e); e == c || e == c + 0x20 || e == c + 0x40 || e == c + 0x60
  {
  }

  /** MAIN RESULT. Under 32-bit paging exactly the first 4 MB translate, each to itself. */
  lemma {:induction false} Walk32Identity(m: seq<byte>, gva: nat)
    requires TablesOk(Paged32, m) && gva < 0x1_0000_0000
    ensures Walk32(m, CR3, gva) == if gva < 0x40_0000 then Some(gva) else None
  {
    hide FromLE, OneEntry, Entry, Masked, Present, BigPage;
    var i := gva / 0x40_0000;
    ZeroNotPresent();
    EntryOf(m, CR3, 4, BIG_PAGE_ENTRY, 4 * i);
    MaskedBits(Entry(m, CR3 + 4 * i, 4).value);
  }

  /** MAIN RESULT. In long mode exactly the first 2 MB of the 64-bit addresses translate, each
      to itself. */
  lemma {:induction false} Walk64Identity(m: seq<byte>, gva: nat)
    requires TablesOk(LongMode, m) && gva < 0x1_0000_0000_0000_0000
    ensures Walk64(m, CR3, gva) == if gva < MEM_SIZE then Some(gva) else None
  {
    hide FromLE, OneEntry, Entry, Masked, Present, BigPage, TableAddr;
    var i, j, k := gva / 0x80_0000_0000 % 512, gva / 0x4000_0000 % 512, gva / 0x20_0000 % 512;
    EntryOf(m, CR3, 8, PML4_ENTRY, 8 * i);
    EntryOf(m, PDPT_ADDR, 8, PDPT_ENTRY, 8 * j);
    EntryOf(m, PD_ADDR, 8, BIG_PAGE_ENTRY, 8 * k);
    MaskedBits(Entry(m, CR3 + 8 * i, 8).value);
    MaskedBits(Entry(m, PDPT_ADDR + 8 * j, 8).value);
    MaskedBits(Entry(m, PD_ADDR + 8 * k, 8).value);
    ZeroNotPresent();
    if Canonical(gva) {
      IndicesZero(gva);
    }
  }

  lemma ZeroNotPresent()
    ensures !Present(0)
  {
  }

  /** All three indices of a canonical address are 0 exactly below 2 MB. */
  lemma IndicesZero(gva: nat)
    requires gva < 0x1_0000_0000_0000_0000 && Canonical(gva)
    ensures (gva / 0x80_0000_0000 % 512 == 0 && gva / 0x4000_0000 % 512 == 0 && gva / 0x20_0000 % 512 == 0)
            <==> gva < MEM_SIZE
  {
    if gva / 0x80_0000_0000 % 512 == 0 {
      if gva < 0x8000_0000_0000 {
        assert gva / 0x80_0000_0000 < 256;
        assert gva < 0x80_0000_0000;
      }
    }
  }

  /** MAIN RESULT. In every mode the handler's comparison with the memory size holds exactly of
      the addresses that the mode's own walk maps to memory, and those map to themselves. */
  lemma {:induction false} BoundIsTranslation(mode: Mode, m: seq<byte>, gva: word)
    requires TablesOk(mode, m)
    ensures gva < MEM_SIZE <==> Walk(mode, m, gva).Some? && Walk(mode, m, gva).value < MEM_SIZE
    ensures gva < MEM_SIZE ==> Walk(mode, m, gva) == Some(gva)
  {
    match mode {
      case Protected =>
      case Paged32 => Walk32Identity(m, gva);
      case LongMode => Walk64Identity(m, gva);
    }
  }

  // ---------- What keeps the tables ----------

  /** The tables of a mode lie from CR3 up to here. */
  function TablesEnd(mode: Mode): nat {
    match mode
    case Protected => CR3
    case Paged32 => CR3 + TABLE_BYTES
    case LongMode => PD_ADDR + TABLE_BYTES
  }

  /** A write that misses the mode's tables keeps them. */
  lemma {:induction false} WriteKeepsTables(mode: Mode, m: seq<byte>, a: nat, bs: seq<byte>)
    requires TablesOk(mode, m) && a + |bs| <= MEM_SIZE
    requires mode.Protected? || a + |bs| <= CR3 || TablesEnd(mode) <= a
    ensures TablesOk(mode, Splice(m, a, bs))
  {
    match mode {
      case Protected =>
      case Paged32 => SpliceKeepsEntries(m, a, bs, CR3, 4, BIG_PAGE_ENTRY);
      case LongMode =>
        SpliceKeepsEntries(m, a, bs, CR3, 8, PML4_ENTRY);
        SpliceKeepsEntries(m, a, bs, PDPT_ADDR, 8, PDPT_ENTRY);
        SpliceKeepsEntries(m, a, bs, PD_ADDR, 8, BIG_PAGE_ENTRY);
    }
  }

  lemma SpliceKeepsEntries(m: seq<byte>, a: nat, bs: seq<byte>, t: nat, n: nat, e: nat)
    requires OneEntry(m, t, n, e) && a + |bs| <= |m|
    requires a + |bs| <= t || t + TABLE_BYTES <= a
    ensures OneEntry(Splice(m, a, bs), t, n, e)
  {
    SpliceFrame(m, a, bs, t, n);
  }

  /** The processor setting accessed or dirty bits in a first entry keeps the tables. */
  lemma {:induction false} MarkKeepsTables(mode: Mode, m: seq<byte>, a: nat, e: nat)
    requires TablesOk(mode, m)
    requires a in {CR3, PDPT_ADDR, PD_ADDR} && e < Pow256(if mode.Paged32? then 4 else 8)
    requires mode != Protected && (mode.Paged32? ==> a == CR3)
    requires Masked(e) == Masked(FromLE(m[a..a + (if mode.Paged32? then 4 else 8)]))
    ensures TablesOk(mode, Splice(m, a, ToLE(e, if mode.Paged32? then 4 else 8)))
  {
    var n := if mode.Paged32? then 4 else 8;
    var bs := ToLE(e, n);
    FromToLE(e, n);
    if mode.Paged32? {
      MarkKeepsTable(m, a, 4, BIG_PAGE_ENTRY, e);
    } else {
      if a == CR3 {
        MarkKeepsTable(m, a, 8, PML4_ENTRY, e);
      } else {
        SpliceKeepsEntries(m, a, bs, CR3, 8, PML4_ENTRY);
      }
      if a == PDPT_ADDR {
        MarkKeepsTable(m, a, 8, PDPT_ENTRY, e);
      } else {
        SpliceKeepsEntries(m, a, bs, PDPT_ADDR, 8, PDPT_ENTRY);
      }
      if a == PD_ADDR {
        MarkKeepsTable(m, a, 8, BIG_PAGE_ENTRY, e);
      } else {
        SpliceKeepsEntries(m, a, bs, PD_ADDR, 8, BIG_PAGE_ENTRY);
      }
    }
  }

  lemma MarkKeepsTable(m: seq<byte>, t: nat, n: nat, first: nat, e: nat)
    requires OneEntry(m, t, n, first) && e < Pow256(n) && Masked(e) == first
    ensures OneEntry(Splice(m, t, ToLE(e, n)), t, n, first)
  {
    FromToLE(e, n);
    assert Splice(m, t, ToLE(e, n))[t..t + n] == ToLE(e, n);
  }
}
