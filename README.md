# Page table walker: contiguity statistics per process

This project models, in Dafny, the kernel module that walks the page tables of every
process and counts how many of its mapped pages are physically contiguous. The module
comes in two variants, `procReport.c` and `Samples/procReport.c`. Both work the same way:

- Every task whose pid is above 650 is examined.
- Each of the task's VMAs is walked page by page, from `vm_start` to `vm_end` in steps of
  `PAGE_SIZE`. Each page is translated with `virt2phys`, and a translation of 0 means
  unmapped.
- A mapped page is contiguous when `(prevPhys + PAGE_SIZE) - phys == 0` in `unsigned long`
  arithmetic. Otherwise it is non-contiguous. `prevPhys` restarts at 0 in every VMA and
  follows the last mapped page.
- Each examined task gets a node in a singly linked list, holding its pid, name and
  three counters. The counters are summed into global totals.
- The list is reported in the kernel log and in `/proc/proc_report`.

The variants differ in how they build and consume the list:

- `procReport.c` appends each node with `insert`, which walks to the tail. `report()` logs
  the list and adds it to the totals. `my_proc_show` reads the list through a copy of the
  head, `copy_head`, and advances `copy_head` as it goes.
- `Samples/procReport.c` appends through a `curr` tail pointer and fills the totals during
  the scan, only for tasks with `mm && mm->mmap`. `write_to_console` logs the list without
  changing it. `proc_report_show` frees every node it prints.

Files:

- `classifier.dfy` (module `Classifier`): the page walk and the contiguity classification
  as functions over values. This covers `unsigned long` wrap-around, the pages of a VMA,
  the translations and the counters of one VMA and of one task. It also holds an
  independent per-page classification and the lemmas that relate the two.
- `stats.dfy` (module `Stats`): the records a scan creates, the 650 threshold, the sums
  behind the totals, and the report lines.
- `record_list.dfy` (module `RecordList`): the list node class shared by both variants,
  since both structs have the same fields. It also holds the chain predicate and the
  records a chain holds.
- `proc_report.dfy` (module `ProcReport`): `procReport.c` as imperative code. `insert`,
  the walk inside `proc_init`, `report`, the `*copy_head = *head` copy, `proc_init` and
  `my_proc_show` are methods. The globals are the fields of `ReportState`.
- `samples_proc_report.dfy` (module `SamplesProcReport`): `Samples/procReport.c` as
  imperative code. It covers `iterate_pages`, `write_to_console`, `proc_report_show` and
  `proc_init`, with the globals as the fields of its own `ReportState`.

The translator is a parameter, `Translator = (pid, vaddr) -> Phys`, and so is
`PAGE_SIZE`. The task enumeration is a parameter too: a sequence of tasks in
`for_each_process` order, each with its pid, name and VMA list. Log and proc-file output
are returned as sequences of `Line` values: title, column header, one row per record and
the totals line.

Behaviour of the code worth noting:

- **Sentinel.** `prevPhys` starts at the sentinel 0, and the code compares against it like
  any other address. So the first mapped page of a VMA counts as contiguous when its
  physical address is exactly `PAGE_SIZE`, and as non-contiguous otherwise. See
  `Classifier.SingleResolvedPage`.
- **Rendering twice.** Rendering the report twice does not give the same output.
  - In `procReport.c`, `my_proc_show` advances the global `copy_head` to NULL, so a second
    read prints the headers and the totals but no rows (`ProcReport.ReportState.Show`).
  - In `Samples/procReport.c`, `proc_report_show` frees every node, so the list cannot be
    read again (`SamplesProcReport.ReportState.ProcReportShow` sets `released`).
  - Only `write_to_console` leaves the state unchanged.
- **Threshold.** The threshold is the literal 650 in both files (`Stats.Selected`).
- **Totals.** The totals in `procReport.c` are never reset. Every call of `report()` adds
  the whole list again (`ProcReport.ReportState.Report`).

The two variants agree on the totals. `Samples/procReport.c` skips tasks without
`mm && mmap`, and those tasks have all-zero counters. So the Samples totals equal the sum
over every record, which is what `report()` computes (`Stats.MappedSumIsRecordSum`).

## Model

| member | source | states |
|---|---|---|
| Classifier.Wrap | procReport.c:194 | the `unsigned long` value of an exact result: unchanged in range, plus 2^64 for a negative difference, minus 2^64 for an overflowing sum |
| Classifier.Add | procReport.c:96-98 | adding two sets of counters keeps `total == contig + noncontig` when both operands satisfy it |
| Classifier.IsContiguous | procReport.c:194 | the test `(prevPhys + PAGE_SIZE) - phys == 0`, computed on `unsigned long`, holds exactly when phys equals prevPhys + PAGE_SIZE modulo 2^64 |
| Classifier.ContiguousIsExactSuccessor | procReport.c:194 | without wrap-around, the test holds exactly when phys equals prevPhys + PAGE_SIZE |
| Classifier.PagesFrom | procReport.c:186 | the `vpage` loop visits at least one page exactly when `vm_start < vm_end` |
| Classifier.PagesFromSpacing | procReport.c:186 | the loop starts at `vm_start`; consecutive pages are exactly `PAGE_SIZE` apart; every page is below `vm_end`; one step past the last page is not |
| Classifier.PagesFromAt | procReport.c:186 | page i of the loop is at `vm_start + i * PAGE_SIZE` |
| Classifier.PagesFromStep | procReport.c:186 | every visited page is `vm_start + i * PAGE_SIZE < vm_end`, and the page count times `PAGE_SIZE` reaches `vm_end` |
| Classifier.TranslateAt | procReport.c:188 | the i-th translation is `virt2phys` of the i-th page |
| Classifier.LastResolved | procReport.c:181-199 | prevPhys after a run of pages: either the initial 0 or one of the translations of that run |
| Classifier.LastResolvedZero | procReport.c:181-199 | prevPhys is still 0 exactly when no page of the VMA has resolved so far |
| Classifier.LastResolvedIsLast | procReport.c:189-199 | after a resolved page followed only by unmapped pages, prevPhys holds that page's address |
| Classifier.RegionCounts | procReport.c:185-201 | the total counter of one VMA is the number of its pages whose translation is not 0 |
| Classifier.RegionCountsStep | procReport.c:188-199 | one page moves the counters and prevPhys exactly as the loop body does: an unmapped page changes nothing, and a mapped one adds 1 to total and to one class chosen by the test against prevPhys, then becomes prevPhys |
| Classifier.VmaWalkStep | procReport.c:186-199 | one turn of the `vpage` loop: the next page exists exactly when it is below `vm_end`; the translation is of the current page; the counters and prevPhys move as in RegionCountsStep |
| Classifier.RegionCountsByKind | procReport.c:185-201 | the counters of a VMA equal the number of its pages that an independent per-page classification calls contiguous and non-contiguous, and total is their sum |
| Classifier.UnmappedPageIsSkipped | procReport.c:189 | a page that translates to 0 changes no counter and does not move prevPhys |
| Classifier.AllUnmappedCountsNothing | procReport.c:189-200 | a VMA whose pages are all unmapped adds nothing |
| Classifier.SingleResolvedPage | procReport.c:181-199 | a VMA with one mapped page counts it once, as contiguous exactly when its physical address equals `PAGE_SIZE` (the 0 sentinel passes the test) |
| Classifier.ContiguityExample | procReport.c:185-201 | with 4 KiB pages, the translations 0x9000, 0xA000, unmapped, 0xC000 give 1 contiguous, 2 non-contiguous and 3 pages in all |
| Classifier.VmasCountsStep | procReport.c:183-202 | `VmasCounts`, the `vm_next` loop: each VMA in the chain adds its own counters to those of the VMAs before it |
| Classifier.VmasCountsAppend | procReport.c:183-185 | contiguity is never carried across a VMA boundary: the counters of a chain of VMAs are the sums of its parts |
| Classifier.VmasCountsBalanced | procReport.c:189-198 | a task's walk counts every resolved page once: `total == contig + noncontig` |
| Classifier.HasMmap | procReport.c:182 | the guard `task->mm && task->mm->mmap` holds exactly when the task has a VMA to walk |
| Classifier.TaskCounts | procReport.c:177-203 | a task's counters are all 0 when `task->mm && task->mm->mmap` fails |
| Classifier.TaskCountsBalanced | procReport.c:189-198 | a task's counters satisfy `total == contig + noncontig` |
| Stats.ScanRecords | procReport.c:174-217 | a scan creates no more records than there are tasks |
| Stats.ScanRecordsPids | procReport.c:176 | every record belongs to a task with pid > 650 |
| Stats.ScanRecordsAppend | procReport.c:174-217 | records appear in enumeration order: scanning two batches gives the records of the first followed by those of the second |
| Stats.ScanRecordsStep | procReport.c:174-216 | task i adds its record at the end when its pid is above 650, and nothing otherwise |
| Stats.ScanRecordsOne | procReport.c:176-215 | `Selected`, the `task->pid > 650` test: a task gets a record exactly when pid > 650, and the record holds its pid, name and counters |
| Stats.ThresholdExample | procReport.c:176 | of tasks with pids 100, 651 and 700, only 651 and 700 get records, in that order |
| Stats.ScanRecordsBalanced | procReport.c:177-212 | every record satisfies `total == contig + noncontig` |
| Stats.SumCountsSnoc | procReport.c:96-98 | `SumCounts`, the totals `report()` accumulates: adding one more node adds its three counters to the totals |
| Stats.SumCountsAppend | procReport.c:91-100 | the totals over two lists are the sum of the totals over each |
| Stats.SumCountsBalanced | procReport.c:96-98 | totals of balanced records are balanced |
| Stats.MappedSumStep | Samples/procReport.c:105-128 | `MappedSum`, the totals `iterate_pages` accumulates: a task adds its counters to the Samples totals exactly when its pid is above 650 and it has `mm && mm->mmap` |
| Stats.MappedSumIsRecordSum | Samples/procReport.c:124-128 | the Samples totals equal the sum over all records created, the same sum `report()` computes |
| Stats.RowLines | procReport.c:91-100 | one row per record |
| Stats.RowLinesAt | procReport.c:91-94 | row i shows record i |
| Stats.RowLinesSnoc | procReport.c:91-99 | one more record gives one more row, at the end |
| Stats.RowLinesStep | procReport.c:91-99 | the rows of the first k + 1 records are those of the first k followed by the row of record k |
| Stats.SumCountsStep | procReport.c:95-98 | the totals over the first k + 1 records are those over the first k plus record k's counters, field by field |
| Stats.ReportLines | procReport.c:88-102 | a report has one line per record plus three, starting with the title and the column header and ending with the totals line |
| Stats.ReportLinesShape | procReport.c:88-102 | a report is the title, the column header, one row per record in list order, the totals line, and nothing else |
| RecordList.Node.constructor | procReport.c:206-213 | a new node holds the given pid, name and counters, with `next == NULL` |
| RecordList.Contents | procReport.c:45-57 | a chain of n nodes holds n records |
| RecordList.ContentsAt | procReport.c:45-57 | record i is the payload of node i |
| RecordList.ContentsIndex | procReport.c:45-57 | the record at position k is the payload of node k |
| RecordList.ContentsSnoc | procReport.c:77 | linking a node at the end adds its record at the end |
| RecordList.ScanExtend | procReport.c:206-215 | linking the node of a task with pid > 650 extends the list's records to those of the scan one task further |
| RecordList.ScanSkip | procReport.c:176 | a task at or below the threshold leaves the records unchanged |
| RecordList.CopyHeadChain | procReport.c:220-222 | a node with the head's fields and link starts a chain through the same records |
| ProcReport.Insert | procReport.c:65-79 | after insert, the list is the old chain followed by the new node, NULL-terminated |
| ProcReport.CountVmaPages | procReport.c:185-201 | the walk of one VMA adds that VMA's counters to the incoming counters |
| ProcReport.CountTaskPages | procReport.c:177-203 | a task's three counters are those of walking every VMA of its `mmap` chain, each from prevPhys = 0 |
| ProcReport.AddTask | procReport.c:177-215 | a selected task's node holds its pid, name and walk counters and is linked at the end of the list |
| ProcReport.ScanTask | procReport.c:176-216 | one turn of the task loop takes the list from the records of tasks[..i] to those of tasks[..i+1] |
| ProcReport.ScanTasks | procReport.c:170-217 | the list `proc_init` builds is a chain holding one record per task with pid > 650, in enumeration order |
| ProcReport.ReportState.constructor | procReport.c:59-86 | `copy_head` starts NULL and the totals start at 0 |
| ProcReport.ReportState.Report | procReport.c:87-103 | `report()` adds the list's counters to the totals, which it never resets; it logs the title, header, one row per node and the new totals |
| ProcReport.ReportState.ReportNode | procReport.c:91-99 | one turn of `report()`'s loop logs node k's row and adds its counters to the totals |
| ProcReport.ReportState.CopyHead | procReport.c:220-222 | `copy_head` reaches the same records as `head` |
| ProcReport.ReportState.ProcInit | procReport.c:163-224 | after `proc_init`, `copy_head` reaches the scan's records; the totals grew by their sum; the log is the report over them |
| ProcReport.ReportState.Show | procReport.c:135-146 | `my_proc_show` prints the title, header, one row per node from `copy_head` and the totals, and leaves `copy_head` NULL |
| SamplesProcReport.LinkAfter | Samples/procReport.c:131-137 | the new node becomes the head of an empty list, or is linked after `curr`, the last node |
| SamplesProcReport.ReportState.constructor | Samples/procReport.c:58-62 | the list starts empty and the totals start at 0 |
| SamplesProcReport.ReportState.IteratePages | Samples/procReport.c:80-140 | `iterate_pages` leaves the scan's records in the list, in order, and adds to the totals only the counters of tasks with an mm and a mapping |
| SamplesProcReport.ReportState.ScanTask | Samples/procReport.c:89-138 | one turn of the task loop keeps the list, `curr` and the totals in step with the scan of one more task |
| SamplesProcReport.ReportState.AddTask | Samples/procReport.c:92-137 | a selected task's node holds its walk counters and is linked at the end; its counters go into the totals exactly when it has `mm && mm->mmap` |
| SamplesProcReport.ReportState.AppendNode | Samples/procReport.c:94-101 | the new node holds the given fields and is the list's new last node; the totals are unchanged |
| SamplesProcReport.ReportState.AddToTotals | Samples/procReport.c:125-127 | each total grows by the node's counter |
| SamplesProcReport.ReportState.WriteToConsole | Samples/procReport.c:179-191 | the log is one row per node in list order, then the totals line, with no header, and nothing changes |
| SamplesProcReport.ReportState.ProcReportShow | Samples/procReport.c:203-222 | the proc file is the title, header, one row per node and the totals line; afterwards every node has been freed |
| SamplesProcReport.ReportState.ProcInit | Samples/procReport.c:68-75 | `proc_init` leaves the scan's records in the list, adds the mapped tasks' counters to the totals, and logs the rows and totals |

## Left out

- `virt2phys`: the page-table descent is not modelled. It is the `Translator` parameter,
  any function from (pid, virtual address) to a physical address below 2^64, with 0 for
  unmapped.
- `for_each_process`, `task_struct`, `mm_struct` and `vm_area_struct` are inputs: a
  sequence of tasks, each with an optional list of VMAs.
- procfs registration (`proc_create`, `single_open`, `remove_proc_entry`), the module
  init/exit hooks, `printk` and `seq_printf` formatting are not modelled. Each output line
  is a `Line` value.
- `kmalloc` failure is not modelled. Allocation always succeeds.
- Counter width is not modelled. The counters are unbounded integers, so the 32-bit `int`
  overflow of `procReport.c` and the `unsigned long` overflow of `Samples/procReport.c`
  do not occur.
- The wrap-around of `vpage += PAGE_SIZE` is not modelled. A VMA ends below the top of the
  address space, so the loop stops before it could wrap.
- ProcReport.ReportState.CopyHead: when no task passes the threshold, `procReport.c:222`
  dereferences a NULL `head`. The model leaves `copy_head` NULL instead.
- SamplesProcReport.ReportState.IteratePages: requires an empty list, that is, a single
  call as `proc_init` makes. A second call would start `curr` at the old head and cut off
  the rest of the old list; that path is not modelled.
- SamplesProcReport.ReportState.AddTask: the page counts are computed before the node is
  allocated, and then written into it. The source allocates the node first and increments
  its fields in place. No other code reads the node before it is linked, so the result is
  the same.
- SamplesProcReport.ReportState.ProcReportShow: `kfree` is a ghost flag, `released`, set
  once every node has been printed. The dangling `stats_list_head` it leaves behind is
  captured only as the precondition `!released` on later reads.
- The walk, the task loop and the loops of `report()` and `iterate_pages` are split into
  helper methods: CountVmaPages, CountTaskPages, ScanTask, AddTask, ReportNode,
  AppendNode and AddToTotals. Each holds the statements of one loop body, in the source's
  order.
