/** The page walk shared by procReport.c and Samples/procReport.c: the pages of
    each VMA, their translation, and the contiguity classification of the
    resolved ones, stated as functions over values. */
module Classifier {

  /** 2^64: `unsigned long` arithmetic wraps modulo this. */
  const TwoTo64: int := 0x1_0000_0000_0000_0000

  /** A physical address as virt2phys returns it: an `unsigned long`.
      The value 0 means "unmapped". */
  type Phys = x: int | 0 <= x < TwoTo64

  /** The result of an `unsigned long` addition or subtraction whose exact
      value is x. */
  function Wrap(x: int): (r: Phys)
    ensures 0 <= x < TwoTo64 ==> r == x
    ensures -TwoTo64 <= x < 0 ==> r == x + TwoTo64
    ensures TwoTo64 <= x < 2 * TwoTo64 ==> r == x - TwoTo64
  {
    x % TwoTo64
  }

  /** A virtual address. Unbounded: VMAs end below the user address-space
      limit, so `vpage += PAGE_SIZE` never wraps in the source. */
  type VirtAddr = nat

  datatype Option<T> = None | Some(value: T)

  /** One vm_area_struct: the half-open range [start, end). */
  datatype Vma = Vma(start: VirtAddr, end: VirtAddr)

  /** One task_struct as the walker sees it: its pid, its comm and, when
      `task->mm` is set, the VMAs of the `mm->mmap` chain in chain order
      (the empty sequence when `mm->mmap` is NULL). */
  datatype Task = Task(pid: int, name: string, mm: Option<seq<Vma>>)

  /** virt2phys(task->mm, vaddr), an opaque function of the task and the
      virtual address; 0 means that some level of the page table is absent. */
  type Translator = (int, VirtAddr) -> Phys

  /** The three per-process counters: contiguous, non-contiguous and total
      resolved pages. */
  datatype Counts = Counts(contig: int, noncontig: int, total: int)

  function Zero(): Counts { Counts(0, 0, 0) }

  /** Every resolved page is counted exactly once, in one of the two classes. */
  predicate Balanced(c: Counts)
  {
    c.total == c.contig + c.noncontig
  }

  function Add(a: Counts, b: Counts): (r: Counts)
    ensures Balanced(a) && Balanced(b) ==> Balanced(r)
  {
    Counts(a.contig + b.contig, a.noncontig + b.noncontig, a.total + b.total)
  }

  /** Adding zero counters changes nothing. */
  lemma AddZero(c: Counts)
    ensures Add(c, Zero()) == c
  {
  }

  /** Adding counters is associative. */
  lemma AddAssoc(x: Counts, y: Counts, z: Counts)
    ensures Add(Add(x, y), z) == Add(x, Add(y, z))
  {
  }

  /** The test `(prevPhys + PAGE_SIZE) - phys == 0` of the source, computed
      on unsigned longs: it holds exactly when phys is the page after prev,
      with the addition wrapping modulo 2^64. */
  predicate IsContiguous(prev: Phys, phys: Phys, pageSize: Phys)
    ensures IsContiguous(prev, phys, pageSize) <==> Wrap(prev + pageSize) == phys
  {
    Wrap(Wrap(prev + pageSize) - phys) == 0
  }

  /** Without wrap-around the test is exactly "phys is the page after
      prev". */
  lemma ContiguousIsExactSuccessor(prev: Phys, phys: Phys, pageSize: Phys)
    ensures prev + pageSize < TwoTo64 ==> (IsContiguous(prev, phys, pageSize) <==> prev + pageSize == phys)
  {
  }

  /** The virtual pages visited by
      `for (vpage = start; vpage < end; vpage += PAGE_SIZE)`. */
  function PagesFrom(vpage: VirtAddr, end: VirtAddr, pageSize: Phys): (r: seq<VirtAddr>)
    requires pageSize != 0
    ensures vpage < end <==> r != []
    decreases if vpage < end then end - vpage else 0
  {
    if vpage < end then [vpage] + PagesFrom(vpage + pageSize as nat, end, pageSize) else []
  }

  /** Consecutive pages of the walk are exactly PAGE_SIZE apart, the walk
      starts at vpage, every page lies below end, and one step past the last
      page does not. */
  lemma {:induction false} PagesFromSpacing(vpage: VirtAddr, end: VirtAddr, pageSize: Phys)
    requires pageSize != 0
    ensures var r := PagesFrom(vpage, end, pageSize);
            && (r != [] ==> r[0] == vpage && r[|r| - 1] + pageSize as nat >= end)
            && (forall j :: 0 <= j < |r| ==> r[j] < end)
            && (forall j :: 0 <= j < |r| - 1 ==> r[j + 1] == r[j] + pageSize as nat)
    decreases if vpage < end then end - vpage else 0
  {
    if vpage < end {
      var next := vpage + pageSize as nat;
      PagesFromSpacing(next, end, pageSize);
      var r := PagesFrom(vpage, end, pageSize);
      var rest := PagesFrom(next, end, pageSize);
      assert r == [vpage] + rest;
      forall j | 0 <= j < |r|
        ensures r[j] < end
      {
        if j > 0 {
          assert r[j] == rest[j - 1];
        }
      }
      forall j | 0 <= j < |r| - 1
        ensures r[j + 1] == r[j] + pageSize as nat
      {
        assert r[j + 1] == rest[j];
        if j > 0 {
          assert r[j] == rest[j - 1];
        }
      }
      if rest != [] {
        assert r[|r| - 1] == rest[|rest| - 1];
      }
    }
  }

  /** Page i of the walk is at vpage + i * PAGE_SIZE. */
  lemma {:induction false} PagesFromAt(vpage: VirtAddr, end: VirtAddr, pageSize: Phys, i: nat)
    requires pageSize != 0 && i < |PagesFrom(vpage, end, pageSize)|
    ensures PagesFrom(vpage, end, pageSize)[i] == vpage + i * (pageSize as nat)
    decreases i
  {
    if i > 0 {
      var next := vpage + pageSize as nat;
      assert PagesFrom(vpage, end, pageSize) == [vpage] + PagesFrom(next, end, pageSize);
      PagesFromAt(next, end, pageSize, i - 1);
      assert (i - 1) * (pageSize as nat) + pageSize as nat == i * (pageSize as nat);
    }
  }

  /** The walk visits [vpage, end) in steps of exactly one page: page i is
      at vpage + i * PAGE_SIZE, every page lies below end, and the step after
      the last one does not. */
  lemma PagesFromStep(vpage: VirtAddr, end: VirtAddr, pageSize: Phys)
    requires pageSize != 0
    ensures forall i :: 0 <= i < |PagesFrom(vpage, end, pageSize)| ==>
              PagesFrom(vpage, end, pageSize)[i] == vpage + i * (pageSize as nat) < end
    ensures vpage + |PagesFrom(vpage, end, pageSize)| * (pageSize as nat) >= end
  {
    var r := PagesFrom(vpage, end, pageSize);
    PagesFromSpacing(vpage, end, pageSize);
    forall i | 0 <= i < |r|
      ensures r[i] == vpage + i * (pageSize as nat)
    {
      PagesFromAt(vpage, end, pageSize, i);
    }
    if r != [] {
      var n := |r|;
      assert (n - 1) * (pageSize as nat) + pageSize as nat == n * (pageSize as nat);
    }
  }

  /** The translations of a sequence of virtual addresses, in order. */
  function Translate(tr: Translator, pid: int, addrs: seq<VirtAddr>): (r: seq<Phys>)
    ensures |r| == |addrs|
  {
    if addrs == [] then []
    else Translate(tr, pid, addrs[..|addrs| - 1]) + [tr(pid, addrs[|addrs| - 1])]
  }

  /** Entry i of the translation is virt2phys of address i. */
  lemma {:induction false} TranslateAt(tr: Translator, pid: int, addrs: seq<VirtAddr>)
    ensures forall i :: 0 <= i < |addrs| ==> Translate(tr, pid, addrs)[i] == tr(pid, addrs[i])
  {
    if addrs != [] {
      TranslateAt(tr, pid, addrs[..|addrs| - 1]);
    }
  }

  /** The physical addresses the walk sees in one VMA, in address order. */
  function VmaPhys(tr: Translator, pid: int, v: Vma, pageSize: Phys): seq<Phys>
    requires pageSize != 0
  {
    Translate(tr, pid, PagesFrom(v.start, v.end, pageSize))
  }

  /** The value of prevPhys after walking `ph`: the last non-zero
      translation, or the initial 0 when there is none. */
  function LastResolved(ph: seq<Phys>): (p: Phys)
    ensures p == 0 || p in ph
  {
    if ph == [] then 0
    else if ph[|ph| - 1] != 0 then ph[|ph| - 1]
    else LastResolved(ph[..|ph| - 1])
  }

  /** prevPhys is still the sentinel 0 exactly when no page so far resolved. */
  lemma {:induction false} LastResolvedZero(ph: seq<Phys>)
    ensures LastResolved(ph) == 0 <==> forall i :: 0 <= i < |ph| ==> ph[i] == 0
  {
    if ph != [] {
      LastResolvedZero(ph[..|ph| - 1]);
      var init := ph[..|ph| - 1];
      assert forall i :: 0 <= i < |init| ==> init[i] == ph[i];
    }
  }

  /** A resolved page followed only by unmapped ones is the last resolved
      page: prevPhys then holds its address. */
  lemma {:induction false} LastResolvedIsLast(ph: seq<Phys>, i: nat)
    requires i < |ph| && ph[i] != 0
    requires forall j :: i < j < |ph| ==> ph[j] == 0
    ensures LastResolved(ph) == ph[i]
  {
    if i < |ph| - 1 {
      LastResolvedIsLast(ph[..|ph| - 1], i);
    }
  }

  /** The number of resolved (non-zero) translations in `ph`. */
  function Resolved(ph: seq<Phys>): (n: nat)
    ensures n <= |ph|
  {
    if ph == [] then 0
    else Resolved(ph[..|ph| - 1]) + (if ph[|ph| - 1] != 0 then 1 else 0)
  }

  /** The counters after walking one VMA whose pages translate to `ph`,
      starting from prevPhys = 0: an unmapped page is skipped; a resolved one
      is contiguous when it passes IsContiguous against the last resolved
      page of the same VMA, and non-contiguous otherwise. */
  function RegionCounts(ph: seq<Phys>, pageSize: Phys): (c: Counts)
    ensures c.total == Resolved(ph)
  {
    if ph == [] then Zero()
    else
      var init := ph[..|ph| - 1];
      var c := RegionCounts(init, pageSize);
      var phys := ph[|ph| - 1];
      if phys == 0 then c
      else if IsContiguous(LastResolved(init), phys, pageSize) then
        Counts(c.contig + 1, c.noncontig, c.total + 1)
      else
        Counts(c.contig, c.noncontig + 1, c.total + 1)
  }

  /** Page i of a VMA: an unmapped page leaves the counters and prevPhys
      alone; a resolved one is counted in exactly one class, by the
      contiguity test against the current prevPhys, and becomes prevPhys. */
  lemma RegionCountsStep(ph: seq<Phys>, i: nat, pageSize: Phys)
    requires i < |ph|
    ensures var c := RegionCounts(ph[..i], pageSize);
            RegionCounts(ph[..i + 1], pageSize) ==
              if ph[i] == 0 then c
              else if IsContiguous(LastResolved(ph[..i]), ph[i], pageSize) then Counts(c.contig + 1, c.noncontig, c.total + 1)
              else Counts(c.contig, c.noncontig + 1, c.total + 1)
    ensures LastResolved(ph[..i + 1]) == if ph[i] == 0 then LastResolved(ph[..i]) else ph[i]
  {
    assert ph[..i + 1][..i] == ph[..i];
  }

  /** One step of the walk over a VMA, as its loop needs it: the step after
      page i is page i + 1 exactly when it is still below the end; entry i
      of the translations is virt2phys of page i; and page i moves the
      counters and prevPhys as the loop body does. */
  lemma VmaWalkStep(tr: Translator, pid: int, v: Vma, pageSize: Phys, i: nat)
    requires pageSize != 0
    requires i < |PagesFrom(v.start, v.end, pageSize)|
    ensures var pages := PagesFrom(v.start, v.end, pageSize);
            var ph := VmaPhys(tr, pid, v, pageSize);
            var before := RegionCounts(ph[..i], pageSize);
            var after := RegionCounts(ph[..i + 1], pageSize);
            var prev := LastResolved(ph[..i]);
            && ph[i] == tr(pid, pages[i])
            && (i + 1 < |pages| <==> pages[i] + pageSize as nat < v.end)
            && (i + 1 < |pages| ==> pages[i + 1] == pages[i] + pageSize as nat)
            && after.total == before.total + (if ph[i] == 0 then 0 else 1)
            && after.contig == before.contig + (if ph[i] != 0 && IsContiguous(prev, ph[i], pageSize) then 1 else 0)
            && after.noncontig == before.noncontig + (if ph[i] != 0 && !IsContiguous(prev, ph[i], pageSize) then 1 else 0)
            && LastResolved(ph[..i + 1]) == (if ph[i] == 0 then prev else ph[i])
  {
    var pages := PagesFrom(v.start, v.end, pageSize);
    var ph := VmaPhys(tr, pid, v, pageSize);
    PagesFromSpacing(v.start, v.end, pageSize);
    TranslateAt(tr, pid, pages);
    RegionCountsStep(ph, i, pageSize);
    if i + 1 < |pages| {
      assert pages[i + 1] == pages[i] + pageSize as nat;
    } else {
      assert pages[|pages| - 1] + pageSize as nat >= v.end;
    }
  }

  /** An independent, per-page reading of the classification. */
  datatype PageKind = Unmapped | Contiguous | NonContiguous

  /** How page i of a VMA is classified: by its own translation and by the
      last resolved translation before it in the same VMA (0 if none). */
  function KindAt(ph: seq<Phys>, i: nat, pageSize: Phys): PageKind
    requires i < |ph|
  {
    if ph[i] == 0 then Unmapped
    else if IsContiguous(LastResolved(ph[..i]), ph[i], pageSize) then Contiguous
    else NonContiguous
  }

  /** The number of pages among the first n of `ph` that are of kind k. */
  function CountKind(ph: seq<Phys>, n: nat, k: PageKind, pageSize: Phys): (r: nat)
    requires n <= |ph|
    ensures r <= n
  {
    if n == 0 then 0
    else CountKind(ph, n - 1, k, pageSize) + (if KindAt(ph, n - 1, pageSize) == k then 1 else 0)
  }

  /** Counting a prefix inside a longer sequence gives what counting the
      prefix alone gives: classification only looks backwards. */
  lemma {:induction false} CountKindPrefix(ph: seq<Phys>, m: nat, n: nat, k: PageKind, pageSize: Phys)
    requires n <= m <= |ph|
    ensures CountKind(ph[..m], n, k, pageSize) == CountKind(ph, n, k, pageSize)
  {
    if n > 0 {
      CountKindPrefix(ph, m, n - 1, k, pageSize);
      assert ph[..m][..n - 1] == ph[..n - 1];
    }
  }

  /** The counters of a VMA are exactly the number of its pages of each
      kind, and the unmapped pages are counted nowhere. */
  lemma {:induction false} RegionCountsByKind(ph: seq<Phys>, pageSize: Phys)
    ensures RegionCounts(ph, pageSize).contig == CountKind(ph, |ph|, Contiguous, pageSize)
    ensures RegionCounts(ph, pageSize).noncontig == CountKind(ph, |ph|, NonContiguous, pageSize)
    ensures RegionCounts(ph, pageSize).total ==
            CountKind(ph, |ph|, Contiguous, pageSize) + CountKind(ph, |ph|, NonContiguous, pageSize)
  {
    if ph != [] {
      var n := |ph|;
      var init := ph[..n - 1];
      RegionCountsByKind(init, pageSize);
      CountKindPrefix(ph, n - 1, n - 1, Contiguous, pageSize);
      CountKindPrefix(ph, n - 1, n - 1, NonContiguous, pageSize);
    }
  }

  /** A page whose translation is 0 changes no counter and leaves prevPhys
      as it was. */
  lemma UnmappedPageIsSkipped(ph: seq<Phys>, pageSize: Phys)
    ensures RegionCounts(ph + [0], pageSize) == RegionCounts(ph, pageSize)
    ensures LastResolved(ph + [0]) == LastResolved(ph)
  {
    assert (ph + [0])[..|ph|] == ph;
  }

  /** A VMA in which every page is unmapped contributes nothing. */
  lemma {:induction false} AllUnmappedCountsNothing(ph: seq<Phys>, pageSize: Phys)
    requires forall i :: 0 <= i < |ph| ==> ph[i] == 0
    ensures RegionCounts(ph, pageSize) == Zero()
  {
    if ph != [] {
      AllUnmappedCountsNothing(ph[..|ph| - 1], pageSize);
    }
  }

  /** A VMA with exactly one resolved page counts it as non-contiguous,
      except when that page sits at physical address PAGE_SIZE: the sentinel
      prevPhys = 0 then passes the successor test. */
  lemma {:induction false} SingleResolvedPage(ph: seq<Phys>, j: nat, pageSize: Phys)
    requires j < |ph| && ph[j] != 0
    requires forall i :: 0 <= i < |ph| && i != j ==> ph[i] == 0
    ensures RegionCounts(ph, pageSize).total == 1
    ensures RegionCounts(ph, pageSize).contig == (if ph[j] == pageSize then 1 else 0)
  {
    var n := |ph|;
    var init := ph[..n - 1];
    if j == n - 1 {
      AllUnmappedCountsNothing(init, pageSize);
      LastResolvedZero(init);
      assert LastResolved(init) == 0;
      ContiguousIsExactSuccessor(0, ph[j], pageSize);
    } else {
      SingleResolvedPage(init, j, pageSize);
      assert ph[n - 1] == 0;
      assert RegionCounts(ph, pageSize) == RegionCounts(init, pageSize);
    }
  }

  /** With 4 KiB pages, translations 0x9000, 0xA000, unmapped, 0xC000 give
      one contiguous page (0xA000 follows 0x9000), two non-contiguous ones
      (0x9000 has no predecessor, 0xC000 skips a frame) and three in all;
      the unmapped page is neither counted nor breaks the comparison. */
  lemma ContiguityExample()
    ensures RegionCounts([0x9000, 0xA000, 0, 0xC000], 0x1000) == Counts(1, 2, 3)
  {
    var ph: seq<Phys> := [0x9000, 0xA000, 0, 0xC000];
    assert ph[..3] == [0x9000, 0xA000, 0];
    assert ph[..3][..2] == [0x9000, 0xA000];
    assert ph[..3][..2][..1] == [0x9000];
    assert [0x9000 as Phys][..0] == [];
    assert LastResolved(ph[..3]) == 0xA000;
    assert RegionCounts([0x9000], 0x1000) == Counts(0, 1, 1);
  }

  /** The counters of a task accumulated over the VMAs `vmas`, each walked
      from prevPhys = 0. */
  function VmasCounts(tr: Translator, pid: int, vmas: seq<Vma>, pageSize: Phys): Counts
    requires pageSize != 0
  {
    if vmas == [] then Zero()
    else
      Add(VmasCounts(tr, pid, vmas[..|vmas| - 1], pageSize),
          RegionCounts(VmaPhys(tr, pid, vmas[|vmas| - 1], pageSize), pageSize))
  }

  /** VMA vi adds its own region's counters to those of the VMAs before it. */
  lemma VmasCountsStep(tr: Translator, pid: int, vmas: seq<Vma>, vi: nat, pageSize: Phys)
    requires pageSize != 0 && vi < |vmas|
    ensures var before := VmasCounts(tr, pid, vmas[..vi], pageSize);
            var region := RegionCounts(VmaPhys(tr, pid, vmas[vi], pageSize), pageSize);
            var after := VmasCounts(tr, pid, vmas[..vi + 1], pageSize);
            && after.contig == before.contig + region.contig
            && after.noncontig == before.noncontig + region.noncontig
            && after.total == before.total + region.total
  {
    assert vmas[..vi + 1][..vi] == vmas[..vi];
  }

  /** Contiguity is never carried across a VMA boundary: the counters of a
      chain of VMAs are the sums of the counters of its parts. */
  lemma {:induction false} VmasCountsAppend(tr: Translator, pid: int, a: seq<Vma>, b: seq<Vma>, pageSize: Phys)
    requires pageSize != 0
    ensures VmasCounts(tr, pid, a + b, pageSize) ==
            Add(VmasCounts(tr, pid, a, pageSize), VmasCounts(tr, pid, b, pageSize))
  {
    if b != [] {
      var init := b[..|b| - 1];
      VmasCountsAppend(tr, pid, a, init, pageSize);
      assert (a + b)[..|a + b| - 1] == a + init;
      var last := RegionCounts(VmaPhys(tr, pid, b[|b| - 1], pageSize), pageSize);
      AddAssoc(VmasCounts(tr, pid, a, pageSize), VmasCounts(tr, pid, init, pageSize), last);
    } else {
      assert a + b == a;
    }
  }

  /** Every page a task's walk resolves is counted once, as contiguous or as
      non-contiguous. */
  lemma {:induction false} VmasCountsBalanced(tr: Translator, pid: int, vmas: seq<Vma>, pageSize: Phys)
    requires pageSize != 0
    ensures Balanced(VmasCounts(tr, pid, vmas, pageSize))
  {
    if vmas != [] {
      VmasCountsBalanced(tr, pid, vmas[..|vmas| - 1], pageSize);
      RegionCountsByKind(VmaPhys(tr, pid, vmas[|vmas| - 1], pageSize), pageSize);
    }
  }

  /** The VMAs the walk visits: none unless `task->mm && task->mm->mmap`. */
  function Vmas(t: Task): seq<Vma>
  {
    if t.mm.Some? then t.mm.value else []
  }

  /** The source's guard `task->mm && task->mm->mmap`. */
  predicate HasMmap(t: Task)
    ensures HasMmap(t) <==> Vmas(t) != []
  {
    t.mm.Some? && t.mm.value != []
  }

  /** The three counters a task ends its walk with: a task without an mm,
      or whose mm has no mmap, ends with all three counters at 0. */
  function TaskCounts(t: Task, tr: Translator, pageSize: Phys): (c: Counts)
    requires pageSize != 0
    ensures !HasMmap(t) ==> c == Zero()
  {
    VmasCounts(tr, t.pid, Vmas(t), pageSize)
  }

  /** A task ends its walk with total == contig + noncontig. */
  lemma TaskCountsBalanced(t: Task, tr: Translator, pageSize: Phys)
    requires pageSize != 0
    ensures Balanced(TaskCounts(t, tr, pageSize))
  {
    VmasCountsBalanced(tr, t.pid, Vmas(t), pageSize);
  }
}
