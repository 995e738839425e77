/** procReport.c: proc_init scans the tasks and builds the record list with
    insert, report() logs the list and adds every node to the global totals,
    and my_proc_show renders /proc/proc_report by advancing the global
    copy_head down the list. */
module ProcReport {
  import opened Classifier
  import opened Stats
  import opened RecordList

  /** insert(&head, newNode): on an empty list newNode becomes the head;
      otherwise walk to the last node and link newNode after it. Returns the
      new value of *head. */
  method Insert(head: Node?, ghost nodes: seq<Node>, newNode: Node) returns (newHead: Node?)
    requires IsChain(head, nodes)
    requires newNode !in nodes && newNode.next == null
    modifies if nodes == [] then {} else {nodes[|nodes| - 1]}
    ensures IsChain(newHead, nodes + [newNode])
  {
    if head == null {
      newHead := newNode;
      return;
    }
    var lastNode := head;
    ghost var k := 0;
    while lastNode.next != null
      invariant 0 <= k < |nodes| && lastNode == nodes[k]
      invariant lastNode.next == if k < |nodes| - 1 then nodes[k + 1] else null
      decreases |nodes| - k
    {
      lastNode := lastNode.next;
      k := k + 1;
    }
    assert k == |nodes| - 1;
    lastNode.next := newNode;
    newHead := head;
  }

  /** The inner loop of the page walk, over one VMA: prevPhys restarts at 0,
      every page in [vm_start, vm_end) is visited PAGE_SIZE apart and
      translated, an unmapped page (translation 0) is skipped, and a resolved
      page adds one to the total and one to the contiguous counter when it
      passes the contiguity test against prevPhys, or to the non-contiguous
      counter otherwise. The counters arrive with the values the previous
      VMAs left in them and are never reset. */
  method CountVmaPages(pid: int, vma: Vma, translate: Translator, pageSize: Phys,
                       conIn: int, nonConIn: int, totIn: int)
    returns (conPages: int, nonConPages: int, totPages: int)
    requires pageSize != 0
    ensures var region := RegionCounts(VmaPhys(translate, pid, vma, pageSize), pageSize);
            && conPages == conIn + region.contig
            && nonConPages == nonConIn + region.noncontig
            && totPages == totIn + region.total
  {
    conPages, nonConPages, totPages := conIn, nonConIn, totIn;
    ghost var pages := PagesFrom(vma.start, vma.end, pageSize);
    ghost var phs := VmaPhys(translate, pid, vma, pageSize);
    var prevPhys: Phys := 0;
    var vpage := vma.start;
    ghost var i := 0;
    while vpage < vma.end
      invariant 0 <= i <= |pages|
      invariant i < |pages| <==> vpage < vma.end
      invariant i < |pages| ==> pages[i] == vpage
      invariant conPages == conIn + RegionCounts(phs[..i], pageSize).contig
      invariant nonConPages == nonConIn + RegionCounts(phs[..i], pageSize).noncontig
      invariant totPages == totIn + RegionCounts(phs[..i], pageSize).total
      invariant prevPhys == LastResolved(phs[..i])
      decreases vma.end - vpage
    {
      var phys := translate(pid, vpage);
      VmaWalkStep(translate, pid, vma, pageSize, i);
      if phys != 0 {
        totPages := totPages + 1;
        if Wrap(Wrap(prevPhys + pageSize) - phys) == 0 {
          conPages := conPages + 1;
        } else {
          nonConPages := nonConPages + 1;
        }
        prevPhys := phys;
      }
      vpage := vpage + pageSize as nat;
      i := i + 1;
    }
    assert phs[..i] == phs;
  }

  /** The page walk of proc_init for one task: the counters start at 0 and,
      when the task has an mm and a first VMA, every VMA is walked in list
      order with prevPhys restarting at 0 in each. */
  method CountTaskPages(task: Task, translate: Translator, pageSize: Phys)
    returns (conPages: int, nonConPages: int, totPages: int)
    requires pageSize != 0
    ensures Counts(conPages, nonConPages, totPages) == TaskCounts(task, translate, pageSize)
  {
    conPages, nonConPages, totPages := 0, 0, 0;
    if HasMmap(task) {
      var vmas := task.mm.value;
      var vi := 0;
      while vi < |vmas|
        invariant 0 <= vi <= |vmas|
        invariant conPages == VmasCounts(translate, task.pid, vmas[..vi], pageSize).contig
        invariant nonConPages == VmasCounts(translate, task.pid, vmas[..vi], pageSize).noncontig
        invariant totPages == VmasCounts(translate, task.pid, vmas[..vi], pageSize).total
      {
        conPages, nonConPages, totPages :=
          CountVmaPages(task.pid, vmas[vi], translate, pageSize, conPages, nonConPages, totPages);
        VmasCountsStep(translate, task.pid, vmas, vi, pageSize);
        vi := vi + 1;
      }
      assert vmas[..vi] == vmas;
    }
  }

  /** The body of the task loop for a selected task: count its pages,
      allocate a node holding the counters and insert it at the tail. */
  method AddTask(head: Node?, ghost nodes: seq<Node>, task: Task, translate: Translator, pageSize: Phys)
    returns (newHead: Node?, ghost newNode: Node)
    requires pageSize != 0
    requires IsChain(head, nodes)
    modifies if nodes == [] then {} else {nodes[|nodes| - 1]}
    ensures fresh(newNode)
    ensures IsChain(newHead, nodes + [newNode])
    ensures newNode.Rec() == TaskRecord(task, translate, pageSize)
  {
    var conPages, nonConPages, totPages := CountTaskPages(task, translate, pageSize);
    var node := new Node(task.pid, task.name, conPages, nonConPages, totPages);
    newHead := Insert(head, nodes, node);
    newNode := node;
  }

  /** The list after the scan has seen the first ti tasks: a chain from
      head holding their records in order. */
  ghost predicate Built(head: Node?, nodes: seq<Node>, tasks: seq<Task>, ti: nat,
                        translate: Translator, pageSize: Phys)
    reads nodes
  {
    && pageSize != 0 && ti <= |tasks|
    && IsChain(head, nodes)
    && Contents(nodes) == ScanRecords(tasks[..ti], translate, pageSize)
  }

  /** The task loop of proc_init: for every task with pid > 650, walk its
      pages and insert a node with its pid, name and counters at the end of
      the list; tasks at or below the threshold get no node. Returns the
      head of the new list. */
  method ScanTasks(tasks: seq<Task>, translate: Translator, pageSize: Phys)
    returns (head: Node?, ghost nodes: seq<Node>)
    requires pageSize != 0
    ensures IsChain(head, nodes)
    ensures Contents(nodes) == ScanRecords(tasks, translate, pageSize)
  {
    head := null;
    nodes := [];
    var ti := 0;
    while ti < |tasks|
      invariant ti <= |tasks|
      invariant Built(head, nodes, tasks, ti, translate, pageSize)
      invariant nodes != [] ==> fresh(nodes[|nodes| - 1])
    {
      head, nodes := ScanTask(head, nodes, tasks, ti, translate, pageSize);
      ti := ti + 1;
    }
    assert tasks[..ti] == tasks;
  }

  /** One turn of the task loop: a task with pid > 650 gets a node at the
      end of the list; any other task changes nothing. */
  method ScanTask(head: Node?, ghost nodes: seq<Node>, tasks: seq<Task>, ti: nat,
                  translate: Translator, pageSize: Phys)
    returns (newHead: Node?, ghost newNodes: seq<Node>)
    requires ti < |tasks| && Built(head, nodes, tasks, ti, translate, pageSize)
    modifies if nodes == [] then {} else {nodes[|nodes| - 1]}
    ensures Built(newHead, newNodes, tasks, ti + 1, translate, pageSize)
    ensures newNodes == nodes || (newNodes != [] && fresh(newNodes[|newNodes| - 1]))
  {
    if Selected(tasks[ti]) {
      ghost var newNode;
      newHead, newNode := AddTask(head, nodes, tasks[ti], translate, pageSize);
      ScanExtend(nodes, tasks, ti, translate, pageSize, newNode);
      newNodes := nodes + [newNode];
    } else {
      ScanSkip(nodes, tasks, ti, translate, pageSize);
      newHead, newNodes := head, nodes;
    }
  }

  /** The module's global state: copy_head and the three totals. */
  class ReportState {
    /** copy_head: where the next my_proc_show starts reading. */
    var copyHead: Node?
    /** The nodes reachable from copyHead, in list order. */
    ghost var shown: seq<Node>
    var totalConPages: int
    var totalNonconPages: int
    var totalPages: int

    ghost predicate Valid()
      reads this, shown
    {
      IsChain(copyHead, shown)
    }

    ghost function Totals(): Counts
      reads this
    {
      Counts(totalConPages, totalNonconPages, totalPages)
    }

    /** The globals at module load: copy_head = NULL and zero totals. */
    constructor ()
      ensures Valid() && shown == [] && Totals() == Zero()
    {
      copyHead := null;
      shown := [];
      totalConPages, totalNonconPages, totalPages := 0, 0, 0;
    }

    /** report(head): log the header, one line per node in list order, and
        the totals line, adding every node's counters to the global totals
        on the way. The totals are never reset, so each call adds the list
        once more. */
    method Report(head: Node?, ghost nodes: seq<Node>) returns (log: seq<Line>)
      requires IsChain(head, nodes)
      modifies this`totalConPages, this`totalNonconPages, this`totalPages
      ensures old(Valid()) ==> Valid()
      ensures Totals() == Add(old(Totals()), SumCounts(Contents(nodes)))
      ensures log == ReportLines(Contents(nodes), Totals())
    {
      ghost var recs := Contents(nodes);
      ghost var base := Totals();
      log := [Title, ColumnHeader];
      var item := head;
      ghost var k := 0;
      while item != null
        invariant 0 <= k <= |nodes|
        invariant item == if k < |nodes| then nodes[k] else null
        invariant Reported(recs, k, base, log)
        decreases |nodes| - k
      {
        ContentsIndex(nodes, k);
        log := ReportNode(item, recs, k, base, log);
        item := item.next;
        k := k + 1;
      }
      assert recs[..k] == recs;
      log := log + [TotalsRow(Counts(totalConPages, totalNonconPages, totalPages))];
    }

    /** report() after k records: the totals have grown from `base` by
        their counters, and the log holds the header and their rows. */
    ghost predicate Reported(recs: seq<Record>, k: nat, base: Counts, log: seq<Line>)
      reads this
    {
      && k <= |recs|
      && totalConPages == base.contig + SumCounts(recs[..k]).contig
      && totalNonconPages == base.noncontig + SumCounts(recs[..k]).noncontig
      && totalPages == base.total + SumCounts(recs[..k]).total
      && log == [Title, ColumnHeader] + RowLines(recs[..k])
    }

    /** One turn of report()'s loop: log the node's line and add its
        counters to the totals. */
    method ReportNode(item: Node, ghost recs: seq<Record>, ghost k: nat, ghost base: Counts, log: seq<Line>)
      returns (log': seq<Line>)
      requires k < |recs| && item.Rec() == recs[k] && Reported(recs, k, base, log)
      modifies this`totalConPages, this`totalNonconPages, this`totalPages
      ensures Reported(recs, k + 1, base, log')
    {
      RowLinesStep(recs, k);
      log' := log + [Row(Record(item.pid, item.name, Counts(item.contig, item.noncontig, item.total)))];
      assert log' == [Title, ColumnHeader] + RowLines(recs[..k + 1]);
      SumCountsStep(recs, k);
      totalConPages := totalConPages + item.contig;
      totalNonconPages := totalNonconPages + item.noncontig;
      totalPages := totalPages + item.total;
    }

    /** proc_init: build the list, point copy_head at a copy of the head
        node (`*copy_head = *head`, link included) and run report() over
        the list. The source dereferences a NULL head when no task passes
        the threshold; the model leaves copy_head NULL then. */
    method ProcInit(tasks: seq<Task>, translate: Translator, pageSize: Phys) returns (log: seq<Line>)
      requires pageSize != 0
      modifies this
      ensures Valid()
      ensures Contents(shown) == ScanRecords(tasks, translate, pageSize)
      ensures Totals() == Add(old(Totals()), SumCounts(ScanRecords(tasks, translate, pageSize)))
      ensures log == ReportLines(ScanRecords(tasks, translate, pageSize), Totals())
    {
      var head;
      ghost var nodes;
      head, nodes := ScanTasks(tasks, translate, pageSize);
      CopyHead(head, nodes);
      log := Report(head, nodes);
    }

    /** `copy_head = kmalloc(...); *copy_head = *head;`: copy_head points at a
        fresh node with the head's payload and link, so it reaches the same
        records as head. With an empty list the model leaves copy_head NULL,
        where the source dereferences NULL. */
    method CopyHead(head: Node?, ghost nodes: seq<Node>)
      requires IsChain(head, nodes)
      modifies this`copyHead, this`shown
      ensures Valid()
      ensures Contents(shown) == Contents(nodes)
      ensures head == null <==> copyHead == null
      ensures copyHead != null ==> fresh(copyHead)
    {
      if head != null {
        var copy := new Node(head.pid, head.name, head.contig, head.noncontig, head.total);
        copy.next := head.next;
        copyHead := copy;
        shown := [copy] + nodes[1..];
        CopyHeadChain(head, nodes, copy);
      } else {
        copyHead := null;
        shown := [];
      }
    }

    /** my_proc_show: the two header lines, one line per node from copy_head
        to the end of the list, then the totals line. copy_head itself is
        advanced, so it is NULL afterwards and a second show prints no
        record lines. */
    method Show() returns (out: seq<Line>)
      requires Valid()
      modifies this`copyHead, this`shown
      ensures Valid() && copyHead == null && shown == []
      ensures out == ReportLines(old(Contents(shown)), Totals())
    {
      ghost var all := shown;
      ghost var recs := Contents(all);
      out := [Title, ColumnHeader];
      ghost var k := 0;
      while copyHead != null
        invariant 0 <= k <= |all| && shown == all[k..]
        invariant copyHead == if k < |all| then all[k] else null
        invariant out == [Title, ColumnHeader] + RowLines(recs[..k])
        decreases |all| - k
      {
        ContentsIndex(all, k);
        RowLinesStep(recs, k);
        ghost var prefix := [Title, ColumnHeader] + RowLines(recs[..k]);
        assert prefix + [Row(recs[k])] == [Title, ColumnHeader] + RowLines(recs[..k + 1]);
        out := out + [Row(Record(copyHead.pid, copyHead.name,
                                 Counts(copyHead.contig, copyHead.noncontig, copyHead.total)))];
        copyHead := copyHead.next;
        shown := shown[1..];
        k := k + 1;
      }
      assert recs[..k] == recs;
      out := out + [TotalsRow(Counts(totalConPages, totalNonconPages, totalPages))];
    }
  }
}
