/** The kernel modules as they run: nested loops over areas and addresses that keep sums and
    counts, proved against the page sets of PageWalk. */
module PageWalkModules {
  import opened PageWalk

  const UNSIGNED_LONG: int := 0x1_0000_0000_0000_0000

  predicate Unusable(e: Entry) {
    e.none || e.bad
  }

  /** The shifts of an address select the entries that its page number selects, so the tests
      made at an address are the tests of its page. */
  lemma {:induction false} AddressTests(mm: Mm, va: nat)
    ensures UpperOk(mm, va / PAGE_SIZE) <==>
      && !Unusable(mm.pgd(va / 0x1_0000_0000_0000))
      && !Unusable(mm.p4d(va / 0x80_0000_0000))
      && !Unusable(mm.pud(va / 0x4000_0000))
    ensures Huge(mm, va / PAGE_SIZE) == mm.pmd(va / PMD_SIZE).transHuge
    ensures var pte := mm.pte(va / PAGE_SIZE);
      Resident(mm, va / PAGE_SIZE) <==>
        && UpperOk(mm, va / PAGE_SIZE) && !Unusable(mm.pmd(va / PMD_SIZE))
        && pte.Pte? && pte.present
  {
    ShiftsAgree(va);
  }

  lemma ShiftsAgree(va: nat)
    ensures var p := va / PAGE_SIZE;
            && va / 0x1_0000_0000_0000 == p / 0x10_0000_0000
            && va / 0x80_0000_0000 == p / 0x800_0000
            && va / 0x4000_0000 == p / 0x4_0000
            && va / PMD_SIZE == p / PAGES_PER_PMD
  {
  }

  /** Advancing the address advances the page number. */
  lemma Advance(va: nat)
    requires va % PAGE_SIZE == 0
    ensures (va + PAGE_SIZE) / PAGE_SIZE == va / PAGE_SIZE + 1 && (va + PAGE_SIZE) % PAGE_SIZE == 0
    ensures (va + PMD_SIZE) / PAGE_SIZE == va / PAGE_SIZE + PAGES_PER_PMD && (va + PMD_SIZE) % PAGE_SIZE == 0
  {
  }

  lemma ListStep(f: nat -> bool, lo: nat, p: nat)
    requires lo <= p
    ensures ListWhere(f, lo, p + 1) == ListWhere(f, lo, p) + (if f(p) then [p] else [])
  {
  }

  lemma ListNone(f: nat -> bool, lo: nat)
    ensures ListWhere(f, lo, lo) == []
  {
  }

  lemma AreaOf(f: nat -> bool, vmas: seq<Vma>, i: nat)
    requires i < |vmas|
    ensures ListAll(f, vmas[..i + 1]) == ListAll(f, vmas[..i]) + ListVma(f, vmas[i])
    ensures TotalSize(vmas[..i + 1]) == TotalSize(vmas[..i]) + vmas[i].end - vmas[i].start
  {
    assert vmas[..i + 1][..i] == vmas[..i];
  }

  // ---------- lkm4 and get_mem_stats ----------

  /** The walk over one area: what is added to pm. */
  method WalkArea(mm: Mm, v: Vma, pm0: nat) returns (pm: nat)
    requires AlignedVma(v)
    ensures pm == pm0 + PAGE_SIZE * |ListVma(ResidentTest(mm), v)|
  {
    hide Resident, UpperOk, Huge, ListWhere;
    ghost var f, lo := ResidentTest(mm), v.start / PAGE_SIZE;
    ListNone(f, lo);
    pm := pm0;
    var start, end := v.start, v.end;
    while start < end
      invariant v.start <= start <= end && start % PAGE_SIZE == 0
      invariant pm == pm0 + PAGE_SIZE * |ListWhere(f, lo, start / PAGE_SIZE)|
    {
      AddressTests(mm, start);
      Advance(start);
      ListStep(f, lo, start / PAGE_SIZE);
      if Unusable(mm.pgd(start / 0x1_0000_0000_0000)) {
        start := start + PAGE_SIZE;
        continue;
      }
      if Unusable(mm.p4d(start / 0x80_0000_0000)) {
        start := start + PAGE_SIZE;
        continue;
      }
      if Unusable(mm.pud(start / 0x4000_0000)) {
        start := start + PAGE_SIZE;
        continue;
      }
      if Unusable(mm.pmd(start / PMD_SIZE)) {
        start := start + PAGE_SIZE;
        continue;
      }
      var pte := mm.pte(start / PAGE_SIZE);
      if pte.Pte? && pte.present {
        pm := pm + PAGE_SIZE;
      }
      start := start + PAGE_SIZE;
    }
  }

  /** The loop over all areas, the same in lkm4_init and get_mem_stats. Neither sum can wrap an
      unsigned long. */
  method WalkAreas(mm: Mm, vmas: seq<Vma>) returns (vm: nat, pm: nat)
    requires GoodVmas(vmas)
    ensures vm == PAGE_SIZE * |AllPages(vmas)|
    ensures pm == PAGE_SIZE * |PagesWhere(ResidentTest(mm), vmas)|
    ensures pm <= vm < UNSIGNED_LONG
  {
    ghost var f := ResidentTest(mm);
    vm, pm := 0, 0;
    for i := 0 to |vmas|
      invariant vm == TotalSize(vmas[..i]) && pm == PAGE_SIZE * |ListAll(f, vmas[..i])|
    {
      vm := vm + (vmas[i].end - vmas[i].start);
      pm := WalkArea(mm, vmas[i], pm);
      AreaOf(f, vmas, i);
    }
    assert vmas[..|vmas|] == vmas;
    SizeIsPages(vmas);
    ListIsPages(f, vmas);
    SubsetSize(PagesWhere(f, vmas), AllPages(vmas));
  }

  /** lkm4_init: the two sizes in KiB. */
  method Lkm4(pid: int, task: Task) returns (r: Result<(nat, nat)>)
    requires task.Process? ==> GoodVmas(task.vmas)
    ensures r.Err? <==> pid < 0 || !task.Process?
    ensures r.Err? ==> r.error == if pid >= 0 && task.NoTask? then ESRCH else EINVAL
    ensures r.Ok? ==>
      && r.value.0 * 1024 == PAGE_SIZE * |AllPages(task.vmas)|
      && r.value.1 * 1024 == PAGE_SIZE * |PagesWhere(ResidentTest(task.mm), task.vmas)|
  {
    hide GoodVmas, AllPages, PagesWhere;
    if pid < 0 {
      return Err(EINVAL);
    }
    match task {
      case NoTask => r := Err(ESRCH);
      case KernelThread => r := Err(EINVAL);
      case Process(mm, vmas) =>
        var vm, pm := WalkAreas(mm, vmas);
        ConversionLoss(|AllPages(vmas)|);
        ConversionLoss(|PagesWhere(ResidentTest(mm), vmas)|);
        r := Ok((vm / 1024, pm / 1024));
    }
  }

  // ---------- get_memstats ----------

  datatype Unit = B | K | M

  function ConvertMemorySize(unit: Unit, sizeInBytes: nat): nat {
    match unit
    case K => sizeInBytes / 0x400
    case M => sizeInBytes / 0x10_0000
    case B => sizeInBytes
  }

  /** On the module's figures, which are whole pages, B and K lose nothing and M less than
      1 MB. */
  lemma {:induction false} ConversionLoss(pages: nat)
    ensures ConvertMemorySize(B, PAGE_SIZE * pages) == PAGE_SIZE * pages
    ensures ConvertMemorySize(K, PAGE_SIZE * pages) * 0x400 == PAGE_SIZE * pages
    ensures var m := ConvertMemorySize(M, PAGE_SIZE * pages) * 0x10_0000;
            m <= PAGE_SIZE * pages < m + 0x10_0000
  {
  }

  /** The module's globals. */
  class MemStats {
    var pid: int
    var unit: Unit
    var vm: nat
    var pm: nat

    constructor ()
      ensures pid == -1 && unit == B && vm == UNSIGNED_LONG - 1 == pm
    {
      pid, unit, vm, pm := -1, B, UNSIGNED_LONG - 1, UNSIGNED_LONG - 1;
    }

    /** get_mem_stats clears both figures first, also when it then fails. */
    method GetMemStats(task: Task) returns (r: Result<()>)
      requires task.Process? ==> GoodVmas(task.vmas)
      modifies this`vm, this`pm
      ensures r.Ok? <==> pid >= 0 && task.Process?
      ensures r.Err? ==> vm == pm == 0 && r.error == if pid >= 0 && task.NoTask? then ESRCH else EINVAL
      ensures r.Ok? ==>
        && vm == PAGE_SIZE * |AllPages(task.vmas)|
        && pm == PAGE_SIZE * |PagesWhere(ResidentTest(task.mm), task.vmas)|
    {
      vm, pm := 0, 0;
      if pid < 0 {
        return Err(EINVAL);
      }
      match task {
        case NoTask => r := Err(ESRCH);
        case KernelThread => r := Err(EINVAL);
        case Process(mm, vmas) =>
          vm, pm := WalkAreas(mm, vmas);
          r := Ok(());
      }
    }

    method VmShow(task: Task) returns (shown: int)
      requires task.Process? ==> GoodVmas(task.vmas)
      modifies this`vm, this`pm
      ensures shown == if pid >= 0 && task.Process?
                       then ConvertMemorySize(unit, PAGE_SIZE * |AllPages(task.vmas)|) else -1
      ensures shown == -1 && pid < 0 ==> vm == old(vm) && pm == old(pm)
    {
      if pid >= 0 {
        var r := GetMemStats(task);
        if r.Ok? {
          return ConvertMemorySize(unit, vm);
        }
      }
      shown := -1;
    }

    method PmShow(task: Task) returns (shown: int)
      requires task.Process? ==> GoodVmas(task.vmas)
      modifies this`vm, this`pm
      ensures shown == if pid >= 0 && task.Process?
                       then ConvertMemorySize(unit, PAGE_SIZE * |PagesWhere(ResidentTest(task.mm), task.vmas)|) else -1
      ensures shown == -1 && pid < 0 ==> vm == old(vm) && pm == old(pm)
    {
      if pid >= 0 {
        var r := GetMemStats(task);
        if r.Ok? {
          return ConvertMemorySize(unit, pm);
        }
      }
      shown := -1;
    }
  }

  // ---------- lkm5 ----------

  /** lkm5's inner loop, watched for at most a number of iterations, since it may not end. The
      ghost list is where it met huge PMDs. */
  method ScanArea(mm: Mm, v: Vma, budget: nat, size0: nat, count0: nat)
    returns (thpSize: nat, thpCount: nat, finished: bool, ghost met: seq<nat>)
    requires AlignedVma(v) && BlocksInside(mm, v)
    ensures finished <==> Iterate(mm, v.start / PAGE_SIZE, v.end / PAGE_SIZE, budget) >= v.end / PAGE_SIZE
    ensures finished ==>
      && met == ListVma(StartTest(mm), v)
      && thpCount == count0 + |met|
      && thpSize == size0 + PMD_SIZE * |met|
      && thpSize == size0 + PAGE_SIZE * |ListVma(HugeTest(mm), v)|
  {
    hide UpperOk, Huge, ListWhere, Iterate, NextStart, BlocksInside, Range, Stop;
    ghost var lo, hi := v.start / PAGE_SIZE, v.end / PAGE_SIZE;
    ListNone(HugeTest(mm), lo);
    ListNone(StartTest(mm), lo);
    IterateStep(mm, lo, hi, 0);
    thpSize, thpCount, met := size0, count0, [];
    var start, end, steps := v.start, v.end, 0;
    FirstIsStop(mm, v);
    while start < end && steps < budget
      invariant steps <= budget
      invariant v.start <= start <= end && start % PAGE_SIZE == 0
      invariant start / PAGE_SIZE == Iterate(mm, lo, hi, steps)
      invariant start < end ==> Stop(mm, start / PAGE_SIZE)
      invariant met == ListWhere(StartTest(mm), lo, start / PAGE_SIZE)
      invariant thpCount == count0 + |met| && thpSize == size0 + PMD_SIZE * |met|
      invariant PAGES_PER_PMD * |met| == |ListWhere(HugeTest(mm), lo, start / PAGE_SIZE)|
      decreases budget - steps
    {
      ghost var p := start / PAGE_SIZE;
      AddressTests(mm, start);
      Advance(start);
      IterateStep(mm, lo, hi, steps);
      steps := steps + 1;
      if Unusable(mm.pgd(start / 0x1_0000_0000_0000)) {
        continue;
      }
      if Unusable(mm.p4d(start / 0x80_0000_0000)) {
        continue;
      }
      if Unusable(mm.pud(start / 0x4000_0000)) {
        continue;
      }
      StepToStop(mm, v, p);
      ScanStep(mm, lo, p);
      if mm.pmd(start / PMD_SIZE).transHuge {
        thpSize := thpSize + PMD_SIZE;
        thpCount := thpCount + 1;
        met := met + [p];
        start := start + PMD_SIZE;
      } else {
        start := start + PAGE_SIZE;
      }
    }
    finished := start >= end;
    IterateStays(mm, lo, hi, steps, budget - steps);
  }

  /** What one advancing iteration adds to the lists. */
  lemma ScanStep(mm: Mm, lo: nat, p: nat)
    requires lo <= p && Stop(mm, p) && UpperOk(mm, p)
    ensures NextStart(mm, p) == if Huge(mm, p) then p + PAGES_PER_PMD else p + 1
    ensures ListWhere(StartTest(mm), lo, NextStart(mm, p))
         == ListWhere(StartTest(mm), lo, p) + (if Huge(mm, p) then [p] else [])
    ensures |ListWhere(HugeTest(mm), lo, NextStart(mm, p))|
         == |ListWhere(HugeTest(mm), lo, p)| + (if Huge(mm, p) then PAGES_PER_PMD else 0)
  {
    if Huge(mm, p) {
      SkipCounts(mm, lo, p, PAGES_PER_PMD);
    } else {
      ListStep(HugeTest(mm), lo, p);
      ListStep(StartTest(mm), lo, p);
    }
  }

  lemma IterateStep(mm: Mm, p: nat, end: nat, n: nat)
    ensures Iterate(mm, p, end, 0) == p
    ensures var q := Iterate(mm, p, end, n);
            Iterate(mm, p, end, n + 1) == if q < end && UpperOk(mm, q) then NextStart(mm, q) else q
  {
  }

  lemma {:induction false} IterateStays(mm: Mm, p: nat, end: nat, m: nat, k: nat)
    ensures Iterate(mm, p, end, m) >= end ==> Iterate(mm, p, end, m + k) == Iterate(mm, p, end, m)
  {
    if k != 0 {
      IterateStays(mm, p, end, m, k - 1);
    }
  }

  lemma NoAreas(mm: Mm)
    ensures ListAll(StartTest(mm), []) == [] == ListAll(HugeTest(mm), [])
  {
  }

  lemma AllAligned(vmas: seq<Vma>)
    requires GoodVmas(vmas)
    ensures forall i :: 0 <= i < |vmas| ==> AlignedVma(vmas[i])
  {
  }

  lemma Finished(mm: Mm, v: Vma, n: nat)
    requires AlignedVma(v) && BlocksInside(mm, v)
    requires Iterate(mm, v.start / PAGE_SIZE, v.end / PAGE_SIZE, n) >= v.end / PAGE_SIZE
    ensures Populated(mm, v)
  {
    hide Iterate, Populated, BlocksInside;
    TerminatesIffPopulated(mm, v);
  }

  /** lkm5_init over all areas, each watched for a budget of iterations. When it finishes, the
      count is the number of huge PMDs, the size 4096 times the number of pages under them, and
      the scan met each huge PMD once, at its aligned start, in order. */
  method Lkm5(mm: Mm, vmas: seq<Vma>, budget: nat)
    returns (thpSize: nat, thpCount: nat, finished: bool, ghost met: seq<nat>)
    requires GoodVmas(vmas) && forall i :: 0 <= i < |vmas| ==> BlocksInside(mm, vmas[i])
    ensures finished ==>
      && met == ListAll(StartTest(mm), vmas)
      && thpCount == |HugeBlocks(mm, vmas)|
      && thpSize == PMD_SIZE * |HugeBlocks(mm, vmas)| == PAGE_SIZE * |PagesWhere(HugeTest(mm), vmas)|
    ensures finished ==> forall i :: 0 <= i < |vmas| ==> Populated(mm, vmas[i])
    ensures !finished ==>
      exists i :: (0 <= i < |vmas| &&
        Iterate(mm, vmas[i].start / PAGE_SIZE, vmas[i].end / PAGE_SIZE, budget) < vmas[i].end / PAGE_SIZE)
    ensures finished <==> ScansThrough(mm, vmas, budget)
  {
    hide Iterate, ListAll, ListVma, HugeBlocks, PagesWhere, GoodVmas, BlocksInside, Populated, TotalSize;
    thpSize, thpCount, finished, met := 0, 0, true, [];
    NoAreas(mm);
    assert forall i :: 0 <= i < |vmas| ==> AlignedVma(vmas[i]) by { AllAligned(vmas); }
    for i := 0 to |vmas|
      invariant met == ListAll(StartTest(mm), vmas[..i])
      invariant thpCount == |met| && thpSize == PMD_SIZE * |met| == PAGE_SIZE * |ListAll(HugeTest(mm), vmas[..i])|
      invariant finished && forall k :: 0 <= k < i ==> Populated(mm, vmas[k])
      invariant forall k :: 0 <= k < i ==>
        Iterate(mm, vmas[k].start / PAGE_SIZE, vmas[k].end / PAGE_SIZE, budget) >= vmas[k].end / PAGE_SIZE
    {
      ghost var here;
      thpSize, thpCount, finished, here := ScanArea(mm, vmas[i], budget, thpSize, thpCount);
      if !finished {
        assert !ScansThrough(mm, vmas, budget);
        return;
      }
      Finished(mm, vmas[i], budget);
      AreaOf(StartTest(mm), vmas, i);
      AreaOf(HugeTest(mm), vmas, i);
      met := met + here;
    }
    assert vmas[..|vmas|] == vmas;
    StartsAreBlocks(mm, vmas);
    ListIsPages(HugeTest(mm), vmas);
  }

  /** Every area's scan comes to its end within the budget of iterations. */
  ghost predicate ScansThrough(mm: Mm, vmas: seq<Vma>, budget: nat) {
    forall i :: 0 <= i < |vmas| ==>
      Iterate(mm, vmas[i].start / PAGE_SIZE, vmas[i].end / PAGE_SIZE, budget) >= vmas[i].end / PAGE_SIZE
  }

  /** In a populated area every iteration advances. */
  lemma {:induction false} PopulatedAdvances(mm: Mm, v: Vma, n: nat)
    requires Populated(mm, v)
    ensures var (lo, hi) := (v.start / PAGE_SIZE, v.end / PAGE_SIZE);
            var q := Iterate(mm, lo, hi, n); q >= lo && (q >= hi || q >= lo + n)
  {
    hide Range;
    if n != 0 {
      PopulatedAdvances(mm, v, n - 1);
    }
  }

  /** MAIN RESULT. With as many iterations as each area has pages, the scan comes through if and
      only if the upper levels are populated at every page: then, and only then, lkm5 reports. */
  lemma {:induction false} ReportsIffPopulated(mm: Mm, vmas: seq<Vma>, budget: nat)
    requires GoodVmas(vmas) && forall i :: 0 <= i < |vmas| ==> BlocksInside(mm, vmas[i])
    requires forall i :: 0 <= i < |vmas| ==> (vmas[i].end - vmas[i].start) / PAGE_SIZE <= budget
    ensures ScansThrough(mm, vmas, budget) <==> forall i :: 0 <= i < |vmas| ==> Populated(mm, vmas[i])
  {
    hide Populated, BlocksInside, Iterate;
    forall i | 0 <= i < |vmas|
      ensures Iterate(mm, vmas[i].start / PAGE_SIZE, vmas[i].end / PAGE_SIZE, budget) >= vmas[i].end / PAGE_SIZE
              <==> Populated(mm, vmas[i])
    {
      TerminatesIffPopulated(mm, vmas[i]);
      if Populated(mm, vmas[i]) {
        PopulatedAdvances(mm, vmas[i], budget);
      }
    }
  }

  datatype Scan = Reported(thpKiB: nat, thpCount: nat) | StillRunning

  /** lkm5_init from its argument checks to what it prints. */
  method Lkm5Init(pid: int, task: Task, budget: nat) returns (r: Result<Scan>)
    requires task.Process? ==>
      GoodVmas(task.vmas) && forall i :: 0 <= i < |task.vmas| ==> BlocksInside(task.mm, task.vmas[i])
    ensures r.Err? <==> pid < 0 || !task.Process?
    ensures r.Err? ==> r.error == if pid >= 0 && task.NoTask? then ESRCH else EINVAL
    ensures r.Ok? ==> (r.value.Reported? <==> ScansThrough(task.mm, task.vmas, budget))
    ensures r.Ok? && r.value.Reported? ==>
      && r.value.thpCount == |HugeBlocks(task.mm, task.vmas)|
      && r.value.thpKiB == 2048 * r.value.thpCount
  {
    if pid < 0 {
      return Err(EINVAL);
    }
    match task {
      case NoTask => r := Err(ESRCH);
      case KernelThread => r := Err(EINVAL);
      case Process(mm, vmas) =>
        hide *;
        var thpSize, thpCount, finished, _ := Lkm5(mm, vmas, budget);
        r := Ok(if finished then Reported(thpSize / 1024, thpCount) else StillRunning);
    }
  }
}
