/** The kernel modules that walk a process's page tables: resident size (lkm4, get_mem_stats),
    one address (lkm3), and transparent huge pages (lkm5). Here the tables, the sets of pages
    that the modules are meant to measure, and the laws between them. */
module PageWalk {

  const PAGE_SIZE: nat := 0x1000
  const PMD_SIZE: nat := 0x20_0000
  const PAGES_PER_PMD: nat := 512
  const TASK_SIZE: nat := 0x100_0000_0000_0000

  /** The tests that the modules make of an upper-level entry. */
  datatype Entry = Entry(none: bool, bad: bool, transHuge: bool)

  /** What pte_offset_map finds. */
  datatype Pte = NoMap | Pte(none: bool, present: bool, pfn: nat)

  /** Five-level tables, each level as a function of the address bits that select the entry. */
  datatype Mm = Mm(pgd: nat -> Entry, p4d: nat -> Entry, pud: nat -> Entry, pmd: nat -> Entry, pte: nat -> Pte)

  datatype Vma = Vma(start: nat, end: nat)

  /** A process as pid_task finds it. */
  datatype Task = NoTask | KernelThread | Process(mm: Mm, vmas: seq<Vma>)

  datatype Error = EINVAL | ESRCH | EFAULT

  datatype Result<T> = Ok(value: T) | Err(error: Error)

  // ---------- What the kernel guarantees ----------

  /** A transparent huge PMD is bad as a table, and a present PTE is not none. */
  ghost predicate SaneMm(mm: Mm) {
    && (forall b {:trigger mm.pmd(b)} :: 0 <= b && mm.pmd(b).transHuge ==> mm.pmd(b).bad)
    && (forall p {:trigger mm.pte(p)} :: 0 <= p && mm.pte(p).Pte? && mm.pte(p).present ==> !mm.pte(p).none)
  }

  predicate AlignedVma(v: Vma) {
    v.start % PAGE_SIZE == 0 && v.end % PAGE_SIZE == 0 && v.start <= v.end <= TASK_SIZE
  }

  /** Page aligned, sorted and disjoint. */
  ghost predicate GoodVmas(vmas: seq<Vma>) {
    && (forall i :: 0 <= i < |vmas| ==> AlignedVma(vmas[i]))
    && (forall i, j :: 0 <= i < j < |vmas| ==> vmas[i].end <= vmas[j].start)
  }

  // ---------- Tests on one page, named by its number ----------

  predicate Usable(e: Entry) {
    !e.none && !e.bad
  }

  /** The three levels above the PMD lead on. */
  predicate UpperOk(mm: Mm, p: nat) {
    && Usable(mm.pgd(p / 0x10_0000_0000))
    && Usable(mm.p4d(p / 0x800_0000))
    && Usable(mm.pud(p / 0x4_0000))
  }

  predicate Huge(mm: Mm, p: nat) {
    mm.pmd(p / PAGES_PER_PMD).transHuge
  }

  /** lkm4's and get_mem_stats' test that the page is there. */
  predicate Resident(mm: Mm, p: nat) {
    && UpperOk(mm, p)
    && Usable(mm.pmd(p / PAGES_PER_PMD))
    && mm.pte(p).Pte? && mm.pte(p).present
  }

  // ---------- The sets that are measured ----------

  function Range(lo: nat, hi: nat): (r: set<nat>)
    ensures forall p: nat :: p in r <==> lo <= p < hi
  {
    if lo >= hi then {} else Range(lo, hi - 1) + {hi - 1}
  }

  function VmaPages(v: Vma): set<nat> {
    Range(v.start / PAGE_SIZE, v.end / PAGE_SIZE)
  }

  function AllPages(vmas: seq<Vma>): set<nat> {
    if vmas == [] then {} else AllPages(vmas[..|vmas| - 1]) + VmaPages(vmas[|vmas| - 1])
  }

  function PagesWhere(f: nat -> bool, vmas: seq<Vma>): set<nat> {
    set p | p in AllPages(vmas) && f(p)
  }

  function ResidentTest(mm: Mm): nat -> bool {
    (p: nat) => Resident(mm, p)
  }

  function HugeTest(mm: Mm): nat -> bool {
    (p: nat) => Huge(mm, p)
  }

  /** The first page of a huge PMD. */
  function StartTest(mm: Mm): nat -> bool {
    (p: nat) => Huge(mm, p) && p % PAGES_PER_PMD == 0
  }

  /** The huge PMDs that the process's areas touch. */
  function HugeBlocks(mm: Mm, vmas: seq<Vma>): set<nat> {
    set p | p in PagesWhere(HugeTest(mm), vmas) :: p / PAGES_PER_PMD
  }

  // ---------- The pages in the order in which the loops come to them ----------

  function ListWhere(f: nat -> bool, lo: nat, hi: nat): seq<nat> {
    if lo >= hi then [] else
      ListWhere(f, lo, hi - 1) + (if f(hi - 1) then [hi - 1] else [])
  }

  function ListVma(f: nat -> bool, v: Vma): seq<nat> {
    ListWhere(f, v.start / PAGE_SIZE, v.end / PAGE_SIZE)
  }

  function ListAll(f: nat -> bool, vmas: seq<Vma>): seq<nat> {
    if vmas == [] then [] else
      ListAll(f, vmas[..|vmas| - 1]) + ListVma(f, vmas[|vmas| - 1])
  }

  function TotalSize(vmas: seq<Vma>): int {
    if vmas == [] then 0 else
      TotalSize(vmas[..|vmas| - 1]) + vmas[|vmas| - 1].end - vmas[|vmas| - 1].start
  }

  // ---------- Lengths are cardinalities ----------

  lemma {:induction false} RangeSize(lo: nat, hi: nat)
    requires lo <= hi
    ensures |Range(lo, hi)| == hi - lo
  {
    if lo < hi {
      RangeSize(lo, hi - 1);
    }
  }

  function Where(f: nat -> bool, s: set<nat>): set<nat> {
    set p | p in s && f(p)
  }

  lemma {:induction false} ListIsSize(f: nat -> bool, lo: nat, hi: nat)
    requires lo <= hi
    ensures |ListWhere(f, lo, hi)| == |Where(f, Range(lo, hi))|
  {
    hide Range;
    if lo < hi {
      ListIsSize(f, lo, hi - 1);
      var s := Where(f, Range(lo, hi - 1));
      assert Where(f, Range(lo, hi)) == if f(hi - 1) then s + {hi - 1} else s;
    } else {
      assert Where(f, Range(lo, hi)) == {};
    }
  }

  /** The pages of sorted areas lie below every later area. */
  lemma {:induction false} PagesBelow(vmas: seq<Vma>, bound: nat)
    requires GoodVmas(vmas) && forall i :: 0 <= i < |vmas| ==> vmas[i].end <= bound
    ensures forall p :: p in AllPages(vmas) ==> p < bound / PAGE_SIZE
  {
    hide Range;
    if vmas != [] {
      PagesBelow(vmas[..|vmas| - 1], bound);
    }
  }

  /** The areas but the last, and the last, have no page in common. */
  lemma LastDisjoint(vmas: seq<Vma>)
    requires GoodVmas(vmas) && vmas != []
    ensures GoodVmas(vmas[..|vmas| - 1]) && AlignedVma(vmas[|vmas| - 1])
    ensures AllPages(vmas[..|vmas| - 1]) !! VmaPages(vmas[|vmas| - 1])
    ensures AllPages(vmas) == AllPages(vmas[..|vmas| - 1]) + VmaPages(vmas[|vmas| - 1])
  {
    hide Range;
    PagesBelow(vmas[..|vmas| - 1], vmas[|vmas| - 1].start);
  }

  /** The sum of the areas' lengths is 4096 times the number of their pages, and fits an
      unsigned long. */
  lemma {:induction false} SizeIsPages(vmas: seq<Vma>)
    requires GoodVmas(vmas)
    ensures TotalSize(vmas) == PAGE_SIZE * |AllPages(vmas)|
    ensures vmas != [] ==> TotalSize(vmas) <= vmas[|vmas| - 1].end
  {
    if vmas != [] {
      var init, v := vmas[..|vmas| - 1], vmas[|vmas| - 1];
      LastDisjoint(vmas);
      SizeIsPages(init);
      RangeSize(v.start / PAGE_SIZE, v.end / PAGE_SIZE);
      assert init != [] ==> init[|init| - 1].end <= v.start;
    }
  }

  /** MAIN RESULT. What the loops come to, page after page and area after area, is as many
      pages as the set of the process's pages with the property: none is met twice. */
  lemma {:induction false} ListIsPages(f: nat -> bool, vmas: seq<Vma>)
    requires GoodVmas(vmas)
    ensures |ListAll(f, vmas)| == |PagesWhere(f, vmas)|
  {
    hide Range;
    if vmas == [] {
      assert PagesWhere(f, vmas) == {};
    } else {
      var init, v := vmas[..|vmas| - 1], vmas[|vmas| - 1];
      LastDisjoint(vmas);
      ListIsPages(f, init);
      ListIsSize(f, v.start / PAGE_SIZE, v.end / PAGE_SIZE);
      var last := Where(f, VmaPages(v));
      assert PagesWhere(f, vmas) == PagesWhere(f, init) + last;
      assert PagesWhere(f, init) !! last;
    }
  }

  // ---------- lkm3 ----------

  /** lkm3_init: the physical address of one virtual address. */
  function Lkm3(pid: int, vaddr: nat, task: Task): Result<nat> {
    if pid < 0 || vaddr == 0 then Err(EINVAL) else
      match task
      case NoTask => Err(ESRCH)
      case KernelThread => Err(EINVAL)
      case Process(mm, _) =>
        if mm.pgd(vaddr / 0x1_0000_0000_0000).none || mm.pgd(vaddr / 0x1_0000_0000_0000).bad then Err(EFAULT)
        else if mm.p4d(vaddr / 0x80_0000_0000).none || mm.p4d(vaddr / 0x80_0000_0000).bad then Err(EFAULT)
        else if mm.pud(vaddr / 0x4000_0000).none || mm.pud(vaddr / 0x4000_0000).bad then Err(EFAULT)
        else if mm.pmd(vaddr / PMD_SIZE).none || mm.pmd(vaddr / PMD_SIZE).bad then Err(EFAULT)
        else
          match mm.pte(vaddr / PAGE_SIZE)
          case NoMap => Err(EFAULT)
          case Pte(none, present, pfn) =>
            if none || !present then Err(EFAULT) else Ok(PhysAddr(pfn, vaddr))
  }

  /** (pfn << PAGE_SHIFT) | (vaddr & ~PAGE_MASK); see PhysBits. */
  function PhysAddr(pfn: nat, vaddr: nat): nat {
    pfn * PAGE_SIZE + vaddr % PAGE_SIZE
  }

  /** On 64-bit words the shifted frame number and the offset share no bit, so the or is a sum
      from which both can be read back. */
  lemma {:induction false} PhysBits(pfn: bv64, vaddr: bv64)
    requires pfn < 0x10_0000_0000_0000
    ensures var pa := (pfn << 12) | (vaddr & 0xFFF);
            pa == (pfn << 12) + (vaddr & 0xFFF) && pa >> 12 == pfn && pa & 0xFFF == vaddr & 0xFFF
  {
  }

  /** lkm3 succeeds at an address exactly when lkm4 counts its page, address 0 excepted; it
      keeps the offset and gives the whole page one frame. */
  lemma {:induction false} Lkm3Agrees(pid: nat, mm: Mm, vmas: seq<Vma>, vaddr: nat)
    requires SaneMm(mm)
    ensures var r := Lkm3(pid, vaddr, Process(mm, vmas));
            && (r.Ok? <==> vaddr != 0 && Resident(mm, vaddr / PAGE_SIZE))
            && (r.Ok? ==> r.value / PAGE_SIZE == mm.pte(vaddr / PAGE_SIZE).pfn && r.value % PAGE_SIZE == vaddr % PAGE_SIZE)
            && (r.Err? ==> r.error == if vaddr == 0 then EINVAL else EFAULT)
  {
    var p := vaddr / PAGE_SIZE;
    assert vaddr / 0x1_0000_0000_0000 == p / 0x10_0000_0000;
    assert vaddr / 0x80_0000_0000 == p / 0x800_0000;
    assert vaddr / 0x4000_0000 == p / 0x4_0000;
    assert vaddr / PMD_SIZE == p / PAGES_PER_PMD;
  }

  /** lkm3 succeeds at an address exactly when it is given a process and lkm4 counts the
      address's page, address 0 excepted; it keeps the offset and gives the whole page one
      frame. Otherwise the error says whether the arguments, the process or the mapping failed. */
  lemma {:induction false} Lkm3Outcome(pid: int, task: Task, vaddr: nat)
    requires task.Process? ==> SaneMm(task.mm)
    ensures var r := Lkm3(pid, vaddr, task);
            && (r.Ok? <==> pid >= 0 && vaddr != 0 && task.Process? && Resident(task.mm, vaddr / PAGE_SIZE))
            && (r.Ok? ==> r.value / PAGE_SIZE == task.mm.pte(vaddr / PAGE_SIZE).pfn && r.value % PAGE_SIZE == vaddr % PAGE_SIZE)
            && (r.Err? ==> r.error == if pid < 0 || vaddr == 0 || task.KernelThread? then EINVAL
                                      else if task.NoTask? then ESRCH else EFAULT)
  {
    if task.Process? && pid >= 0 {
      Lkm3Agrees(pid, task.mm, task.vmas, vaddr);
    }
  }

  /** The pages of the process on which lkm3 succeeds. */
  function Lkm3Pages(pid: nat, mm: Mm, vmas: seq<Vma>): set<nat> {
    set p | p in AllPages(vmas) && Lkm3(pid, p * PAGE_SIZE, Process(mm, vmas)).Ok?
  }

  /** MAIN RESULT. lkm4's count is the number of pages on which lkm3 succeeds, plus one if
      page 0, which lkm3 refuses to look up, is resident. */
  lemma {:induction false} Lkm4CountsLkm3(pid: nat, mm: Mm, vmas: seq<Vma>)
    requires GoodVmas(vmas) && SaneMm(mm)
    ensures |ListAll(ResidentTest(mm), vmas)|
         == |Lkm3Pages(pid, mm, vmas)| + (if 0 in AllPages(vmas) && Resident(mm, 0) then 1 else 0)
  {
    hide Resident, Lkm3, SaneMm, Range, AllPages, ListAll, GoodVmas;
    ListIsPages(ResidentTest(mm), vmas);
    forall p: nat | p in AllPages(vmas)
      ensures p in Lkm3Pages(pid, mm, vmas) <==> p != 0 && Resident(mm, p)
    {
      Lkm3Agrees(pid, mm, vmas, p * PAGE_SIZE);
    }
    var zero: set<nat> := if 0 in AllPages(vmas) && Resident(mm, 0) then {0} else {};
    assert PagesWhere(ResidentTest(mm), vmas) == Lkm3Pages(pid, mm, vmas) + zero;
  }

  // ---------- Huge pages ----------

  /** Every huge PMD that an area touches lies inside that area. */
  ghost predicate BlocksInside(mm: Mm, v: Vma) {
    forall p: nat :: p in VmaPages(v) && Huge(mm, p) ==>
      v.start / PAGE_SIZE <= p / PAGES_PER_PMD * PAGES_PER_PMD
      && p / PAGES_PER_PMD * PAGES_PER_PMD + PAGES_PER_PMD <= v.end / PAGE_SIZE
  }

  /** The upper levels are populated at every page of an area. */
  ghost predicate Populated(mm: Mm, v: Vma) {
    forall p: nat :: p in VmaPages(v) ==> UpperOk(mm, p)
  }

  /** lkm5's inner loop at one page: where the next iteration starts. Where an upper entry is
      missing the loop goes on without advancing. */
  function NextStart(mm: Mm, p: nat): (q: nat)
    ensures q >= p
  {
    if !UpperOk(mm, p) then p
    else if Huge(mm, p) then p + PAGES_PER_PMD
    else p + 1
  }

  /** Where the loop over [p, end) stands after n iterations. */
  function Iterate(mm: Mm, p: nat, end: nat, n: nat): nat {
    if n == 0 then p else
      var q := Iterate(mm, p, end, n - 1);
      if q < end then NextStart(mm, q) else q
  }

  ghost predicate Terminates(mm: Mm, v: Vma) {
    exists n: nat :: Iterate(mm, v.start / PAGE_SIZE, v.end / PAGE_SIZE, n) >= v.end / PAGE_SIZE
  }

  /** A page at which the loop can stand: not in the interior of a huge PMD. */
  predicate Stop(mm: Mm, p: nat) {
    Huge(mm, p) ==> p % PAGES_PER_PMD == 0
  }

  /** An empty upper-level entry is a fixed point: from there the loop never moves again. */
  lemma {:induction false} EmptyEntryIsFixed(mm: Mm, p: nat, end: nat, n: nat)
    requires !UpperOk(mm, p)
    ensures Iterate(mm, p, end, n) == p
  {
    if n != 0 {
      EmptyEntryIsFixed(mm, p, end, n - 1);
    }
  }

  lemma {:induction false} IterateAdd(mm: Mm, p: nat, end: nat, m: nat, n: nat)
    ensures Iterate(mm, p, end, m + n) == Iterate(mm, Iterate(mm, p, end, m), end, n)
  {
    if n != 0 {
      IterateAdd(mm, p, end, m, n - 1);
    }
  }

  /** All pages of one huge PMD share their upper entries. */
  lemma {:induction false} SameBlockSameUpper(mm: Mm, p: nat, q: nat)
    requires p / PAGES_PER_PMD == q / PAGES_PER_PMD
    ensures UpperOk(mm, p) == UpperOk(mm, q) && Huge(mm, p) == Huge(mm, q)
  {
    assert p / 0x4_0000 == p / PAGES_PER_PMD / 512 && q / 0x4_0000 == q / PAGES_PER_PMD / 512;
    assert p / 0x800_0000 == p / PAGES_PER_PMD / 0x4_0000 && q / 0x800_0000 == q / PAGES_PER_PMD / 0x4_0000;
    assert p / 0x10_0000_0000 == p / PAGES_PER_PMD / 0x800_0000 && q / 0x10_0000_0000 == q / PAGES_PER_PMD / 0x800_0000;
  }

  /** One advancing iteration goes from a stop to the next stop, over pages that are one huge
      PMD or a single small page, and stays in the area. */
  lemma {:induction false} StepToStop(mm: Mm, v: Vma, p: nat)
    requires BlocksInside(mm, v) && p in VmaPages(v) && Stop(mm, p) && UpperOk(mm, p)
    ensures var q := NextStart(mm, p);
            && p < q <= v.end / PAGE_SIZE
            && (q in VmaPages(v) ==> Stop(mm, q))
            && forall r: nat :: p <= r < q ==> r in VmaPages(v) && UpperOk(mm, r) && Huge(mm, r) == Huge(mm, p)
  {
    hide Range;
    var q := NextStart(mm, p);
    if Huge(mm, p) {
      forall r: nat | p <= r < q
        ensures r / PAGES_PER_PMD == p / PAGES_PER_PMD
      {
      }
      forall r: nat | p <= r < q
        ensures UpperOk(mm, r) && Huge(mm, r)
      {
        SameBlockSameUpper(mm, p, r);
      }
    } else if q in VmaPages(v) && Huge(mm, q) && q % PAGES_PER_PMD != 0 {
      assert q / PAGES_PER_PMD == p / PAGES_PER_PMD;
      SameBlockSameUpper(mm, p, q);
    }
  }

  lemma FirstIsStop(mm: Mm, v: Vma)
    requires BlocksInside(mm, v)
    ensures v.start / PAGE_SIZE in VmaPages(v) ==> Stop(mm, v.start / PAGE_SIZE)
  {
    hide Range;
  }

  /** From a stop the loop leaves the area if everything ahead is populated. */
  lemma {:induction false} PopulatedTerminates(mm: Mm, v: Vma, p: nat) returns (n: nat)
    requires BlocksInside(mm, v) && Populated(mm, v)
    requires v.start / PAGE_SIZE <= p <= v.end / PAGE_SIZE && (p in VmaPages(v) ==> Stop(mm, p))
    ensures Iterate(mm, p, v.end / PAGE_SIZE, n) >= v.end / PAGE_SIZE
    decreases v.end / PAGE_SIZE - p
  {
    hide Range;
    if p == v.end / PAGE_SIZE {
      n := 0;
    } else {
      StepToStop(mm, v, p);
      var m := PopulatedTerminates(mm, v, NextStart(mm, p));
      n := 1 + m;
      assert Iterate(mm, p, v.end / PAGE_SIZE, 0) == p;
      assert Iterate(mm, p, v.end / PAGE_SIZE, 1) == NextStart(mm, p);
      IterateAdd(mm, p, v.end / PAGE_SIZE, 1, m);
    }
  }

  /** From a stop the loop never passes a page whose upper entries are missing. */
  lemma {:induction false} NeverPasses(mm: Mm, v: Vma, p: nat, hole: nat, n: nat)
    requires BlocksInside(mm, v) && v.start / PAGE_SIZE <= p <= hole
    requires hole in VmaPages(v) && !UpperOk(mm, hole) && Stop(mm, p)
    ensures var q := Iterate(mm, p, v.end / PAGE_SIZE, n); p <= q <= hole && Stop(mm, q)
  {
    hide Range;
    if n != 0 {
      NeverPasses(mm, v, p, hole, n - 1);
      var q := Iterate(mm, p, v.end / PAGE_SIZE, n - 1);
      if UpperOk(mm, q) {
        StepToStop(mm, v, q);
      }
    }
  }

  /** MAIN RESULT. lkm5's scan of an area terminates exactly when the upper levels are
      populated at every page of the area. */
  lemma {:induction false} TerminatesIffPopulated(mm: Mm, v: Vma)
    requires AlignedVma(v) && BlocksInside(mm, v)
    ensures Terminates(mm, v) <==> Populated(mm, v)
  {
    hide Range;
    FirstIsStop(mm, v);
    if Populated(mm, v) {
      var n := PopulatedTerminates(mm, v, v.start / PAGE_SIZE);
    } else {
      var hole: nat :| hole in VmaPages(v) && !UpperOk(mm, hole);
      forall n: nat
        ensures Iterate(mm, v.start / PAGE_SIZE, v.end / PAGE_SIZE, n) < v.end / PAGE_SIZE
      {
        NeverPasses(mm, v, v.start / PAGE_SIZE, hole, n);
      }
    }
  }

  // ---------- What a scan counts ----------

  /** A skipped PMD is 512 huge pages and one aligned start. */
  lemma {:induction false} SkipCounts(mm: Mm, lo: nat, p: nat, k: nat)
    requires lo <= p && Huge(mm, p) && p % PAGES_PER_PMD == 0 && k <= PAGES_PER_PMD
    ensures |ListWhere(HugeTest(mm), lo, p + k)| == |ListWhere(HugeTest(mm), lo, p)| + k
    ensures k > 0 ==> ListWhere(StartTest(mm), lo, p + k) == ListWhere(StartTest(mm), lo, p) + [p]
  {
    if k > 0 {
      SkipCounts(mm, lo, p, k - 1);
      assert (p + k - 1) / PAGES_PER_PMD == p / PAGES_PER_PMD;
      assert k > 1 ==> (p + k - 1) % PAGES_PER_PMD != 0;
    }
  }

  lemma {:induction false} PageHasArea(vmas: seq<Vma>, p: nat)
    ensures p in AllPages(vmas) <==> exists i :: 0 <= i < |vmas| && p in VmaPages(vmas[i])
  {
    hide Range;
    if vmas != [] {
      var init := vmas[..|vmas| - 1];
      PageHasArea(init, p);
      if i :| 0 <= i < |init| && p in VmaPages(init[i]) {
        assert p in VmaPages(vmas[i]);
      }
      if i :| 0 <= i < |vmas| && p in VmaPages(vmas[i]) {
        assert i < |init| ==> p in VmaPages(init[i]);
      }
    }
  }

  lemma {:induction false} BlockNumbers(starts: set<nat>)
    requires forall p :: p in starts ==> p % PAGES_PER_PMD == 0
    ensures |set p | p in starts :: p / PAGES_PER_PMD| == |starts|
  {
    var blocks := set p | p in starts :: p / PAGES_PER_PMD;
    if starts != {} {
      var p :| p in starts;
      var rest := set q | q in starts - {p} :: q / PAGES_PER_PMD;
      BlockNumbers(starts - {p});
      forall q | q in starts
        ensures q == q / PAGES_PER_PMD * PAGES_PER_PMD
      {
      }
      assert p / PAGES_PER_PMD !in rest;
      forall b | b in blocks
        ensures b in rest + {p / PAGES_PER_PMD}
      {
        var q :| q in starts && q / PAGES_PER_PMD == b;
        assert q != p ==> q in starts - {p};
      }
      assert blocks == rest + {p / PAGES_PER_PMD};
    } else {
      assert blocks == {};
    }
  }

  /** MAIN RESULT. The aligned starts that the scan meets are as many as the huge PMDs that the
      process's areas touch, each being met once. */
  lemma {:induction false} StartsAreBlocks(mm: Mm, vmas: seq<Vma>)
    requires GoodVmas(vmas) && forall i :: 0 <= i < |vmas| ==> BlocksInside(mm, vmas[i])
    ensures |ListAll(StartTest(mm), vmas)| == |HugeBlocks(mm, vmas)|
  {
    hide Range, AllPages, ListAll;
    var starts := PagesWhere(StartTest(mm), vmas);
    ListIsPages(StartTest(mm), vmas);
    BlockNumbers(starts);
    var blocks := set p | p in starts :: p / PAGES_PER_PMD;
    forall b | b in HugeBlocks(mm, vmas)
      ensures b in blocks
    {
      var p :| p in PagesWhere(HugeTest(mm), vmas) && p / PAGES_PER_PMD == b;
      PageHasArea(vmas, p);
      var i :| 0 <= i < |vmas| && p in VmaPages(vmas[i]);
      PageHasArea(vmas, b * PAGES_PER_PMD);
      assert b * PAGES_PER_PMD / PAGES_PER_PMD == b;
      assert b * PAGES_PER_PMD in VmaPages(vmas[i]);
      assert b * PAGES_PER_PMD in starts;
    }
    forall b | b in blocks
      ensures b in HugeBlocks(mm, vmas)
    {
      var p :| p in starts && p / PAGES_PER_PMD == b;
      assert p in PagesWhere(HugeTest(mm), vmas);
    }
    assert blocks == HugeBlocks(mm, vmas);
  }

  /** MAIN RESULT. Resident and huge pages are different pages of the process, so lkm4's and
      lkm5's figures together never exceed the virtual size. */
  lemma {:induction false} ResidentPlusHuge(mm: Mm, vmas: seq<Vma>)
    requires GoodVmas(vmas) && SaneMm(mm)
    ensures PAGE_SIZE * |PagesWhere(ResidentTest(mm), vmas)| + PAGE_SIZE * |PagesWhere(HugeTest(mm), vmas)|
         <= PAGE_SIZE * |AllPages(vmas)|
  {
    var r, h := PagesWhere(ResidentTest(mm), vmas), PagesWhere(HugeTest(mm), vmas);
    assert r !! h;
    assert |r + h| == |r| + |h|;
    SubsetSize(r + h, AllPages(vmas));
  }

  lemma SubsetSize<T>(a: set<T>, b: set<T>)
    requires a <= b
    ensures |a| <= |b|
  {
    assert b == a + (b - a);
    assert |b| == |a| + |b - a|;
  }
}
