/** The second variant of the module: the list is built while the page
    walk runs, with a tail pointer; the totals are added during the scan,
    and only for tasks with an mm and a mapping; the kernel log gets the
    record lines and the totals line, and reading the proc file frees every
    node it prints. */
module SamplesProcReport {
  import opened Classifier
  import opened Stats
  import opened RecordList
  import ProcReport

  /** Link `node` at the end of the list whose last node is `curr`: it
      becomes the head of an empty list, and otherwise curr's successor.
      No walk is needed, since curr already points at the tail. */
  method LinkAfter(head: Node?, ghost nodes: seq<Node>, curr: Node?, node: Node) returns (newHead: Node?)
    requires IsChain(head, nodes)
    requires curr == if nodes == [] then null else nodes[|nodes| - 1]
    requires node !in nodes && node.next == null
    modifies curr
    ensures IsChain(newHead, nodes + [node])
  {
    if head == null {
      newHead := node;
    } else {
      curr.next := node;
      newHead := head;
    }
  }

  /** The module's global state: stats_list_head and the three totals. */
  class ReportState {
    var statsListHead: Node?
    /** The nodes of the list, in list order. */
    ghost var nodes: seq<Node>
    /** Set once proc_report_show has passed every node to kfree. */
    ghost var released: bool
    var totalContigPgs: int
    var totalNoncontigPgs: int
    var totalPgs: int

    ghost predicate Valid()
      reads this, nodes
    {
      !released ==> IsChain(statsListHead, nodes)
    }

    ghost function Totals(): Counts
      reads this
    {
      Counts(totalContigPgs, totalNoncontigPgs, totalPgs)
    }

    /** The globals as the module is loaded: an empty list, totals at 0. */
    constructor ()
      ensures Valid() && !released
      ensures statsListHead == null && nodes == []
      ensures Totals() == Zero()
    {
      statsListHead := null;
      nodes := [];
      released := false;
      totalContigPgs, totalNoncontigPgs, totalPgs := 0, 0, 0;
    }

    /** The state of iterate_pages after the first ti tasks: the list holds
        their records in order, curr points at its last node, and the totals
        have grown from `base` by the counters of the selected tasks that
        have an mm with a mapping. */
    ghost predicate Scanned(tasks: seq<Task>, ti: nat, translate: Translator, pageSize: Phys,
                            curr: Node?, base: Counts)
      reads this, nodes
    {
      && pageSize != 0 && ti <= |tasks| && !released
      && IsChain(statsListHead, nodes)
      && curr == (if nodes == [] then null else nodes[|nodes| - 1])
      && Contents(nodes) == ScanRecords(tasks[..ti], translate, pageSize)
      && totalContigPgs == base.contig + MappedSum(tasks[..ti], translate, pageSize).contig
      && totalNoncontigPgs == base.noncontig + MappedSum(tasks[..ti], translate, pageSize).noncontig
      && totalPgs == base.total + MappedSum(tasks[..ti], translate, pageSize).total
    }

    /** iterate_pages: every task with pid > 650 gets a node holding its
        pid, name and counters, linked after the node `curr` points at; its
        counters go into the totals only when it has an mm with a mapping. */
    method IteratePages(tasks: seq<Task>, translate: Translator, pageSize: Phys)
      requires pageSize != 0
      requires !released && statsListHead == null && nodes == []
      modifies this
      ensures Valid() && !released
      ensures Contents(nodes) == ScanRecords(tasks, translate, pageSize)
      ensures Totals() == Add(old(Totals()), MappedSum(tasks, translate, pageSize))
    {
      ghost var base := Totals();
      var curr := statsListHead;
      var ti := 0;
      while ti < |tasks|
        invariant ti <= |tasks|
        invariant Scanned(tasks, ti, translate, pageSize, curr, base)
        invariant curr != null ==> fresh(curr)
      {
        curr := ScanTask(tasks, ti, translate, pageSize, curr, base);
        ti := ti + 1;
      }
      assert tasks[..ti] == tasks;
    }

    /** One turn of the task loop: a task with pid > 650 gets its node and
        may add to the totals; any other task changes nothing. */
    method ScanTask(tasks: seq<Task>, ti: nat, translate: Translator, pageSize: Phys,
                    curr: Node?, ghost base: Counts) returns (last: Node?)
      requires ti < |tasks| && Scanned(tasks, ti, translate, pageSize, curr, base)
      modifies this, curr
      ensures Scanned(tasks, ti + 1, translate, pageSize, last, base)
      ensures last == curr || fresh(last)
    {
      MappedSumStep(tasks, ti, translate, pageSize);
      if Selected(tasks[ti]) {
        ghost var before := nodes;
        last := AddTask(tasks[ti], translate, pageSize, curr);
        ScanExtend(before, tasks, ti, translate, pageSize, last);
      } else {
        ScanSkip(nodes, tasks, ti, translate, pageSize);
        last := curr;
      }
    }

    /** The body of the task loop for a task with pid > 650: count its
        pages; add the counters to the totals when the task has an mm with a
        mapping; link a node holding its pid, name and counters after
        `curr`, or make it the head of an empty list. */
    method AddTask(task: Task, translate: Translator, pageSize: Phys, curr: Node?) returns (node: Node)
      requires pageSize != 0
      requires !released && IsChain(statsListHead, nodes)
      requires curr == if nodes == [] then null else nodes[|nodes| - 1]
      modifies this, curr
      ensures !released && nodes == old(nodes) + [node] && fresh(node)
      ensures IsChain(statsListHead, nodes)
      ensures node.Rec() == TaskRecord(task, translate, pageSize)
      ensures var c := if HasMmap(task) then TaskCounts(task, translate, pageSize) else Zero();
              && totalContigPgs == old(totalContigPgs) + c.contig
              && totalNoncontigPgs == old(totalNoncontigPgs) + c.noncontig
              && totalPgs == old(totalPgs) + c.total
    {
      var contig, noncontig, total := ProcReport.CountTaskPages(task, translate, pageSize);
      if HasMmap(task) {
        AddToTotals(contig, noncontig, total);
      }
      node := AppendNode(task.pid, task.name, contig, noncontig, total, curr);
    }

    /** Allocate a node holding a task's pid, name and counters and link it
        after `curr`, or make it the head of an empty list. */
    method AppendNode(pid: int, name: string, contig: int, noncontig: int, total: int, curr: Node?)
      returns (node: Node)
      requires !released && IsChain(statsListHead, nodes)
      requires curr == if nodes == [] then null else nodes[|nodes| - 1]
      modifies this, curr
      ensures !released && nodes == old(nodes) + [node] && fresh(node)
      ensures IsChain(statsListHead, nodes)
      ensures node.Rec() == Record(pid, name, Counts(contig, noncontig, total))
      ensures Totals() == old(Totals())
    {
      node := new Node(pid, name, contig, noncontig, total);
      statsListHead := LinkAfter(statsListHead, nodes, curr, node);
      nodes := nodes + [node];
    }

    /** `total_*_pgs += node->*_pages` for the three totals. */
    method AddToTotals(contig: int, noncontig: int, total: int)
      modifies this`totalContigPgs, this`totalNoncontigPgs, this`totalPgs
      ensures Totals() == Add(old(Totals()), Counts(contig, noncontig, total))
    {
      totalContigPgs := totalContigPgs + contig;
      totalNoncontigPgs := totalNoncontigPgs + noncontig;
      totalPgs := totalPgs + total;
    }

    /** write_to_console: one log line per node from stats_list_head to the
        end of the list, then the totals line; no header, and nothing is
        changed. */
    method WriteToConsole() returns (log: seq<Line>)
      requires Valid() && !released
      ensures log == RowLines(Contents(nodes)) + [TotalsRow(Totals())]
    {
      ghost var recs := Contents(nodes);
      log := [];
      var item := statsListHead;
      ghost var k := 0;
      while item != null
        invariant 0 <= k <= |nodes|
        invariant item == if k < |nodes| then nodes[k] else null
        invariant log == RowLines(recs[..k])
        decreases |nodes| - k
      {
        ContentsIndex(nodes, k);
        RowLinesStep(recs, k);
        log := log + [Row(Record(item.pid, item.name, Counts(item.contig, item.noncontig, item.total)))];
        item := item.next;
        k := k + 1;
      }
      assert recs[..k] == recs;
      log := log + [TotalsRow(Counts(totalContigPgs, totalNoncontigPgs, totalPgs))];
    }

    /** proc_report_show: the two header lines, one line per node, then the
        totals line; each node is freed right after its line is written, so
        the list may not be read again. */
    method ProcReportShow() returns (out: seq<Line>)
      requires Valid() && !released
      modifies this`released
      ensures released
      ensures out == ReportLines(Contents(nodes), Totals())
    {
      ghost var recs := Contents(nodes);
      out := [Title, ColumnHeader];
      var item := statsListHead;
      ghost var k := 0;
      while item != null
        invariant 0 <= k <= |nodes|
        invariant item == if k < |nodes| then nodes[k] else null
        invariant out == [Title, ColumnHeader] + RowLines(recs[..k])
        decreases |nodes| - k
      {
        ContentsIndex(nodes, k);
        RowLinesStep(recs, k);
        ghost var prefix := [Title, ColumnHeader] + RowLines(recs[..k]);
        assert prefix + [Row(recs[k])] == [Title, ColumnHeader] + RowLines(recs[..k + 1]);
        out := out + [Row(Record(item.pid, item.name, Counts(item.contig, item.noncontig, item.total)))];
        item := item.next;
        k := k + 1;
      }
      released := true;
      assert recs[..k] == recs;
      out := out + [TotalsRow(Counts(totalContigPgs, totalNoncontigPgs, totalPgs))];
    }

    /** proc_init: iterate_pages, then write_to_console. */
    method ProcInit(tasks: seq<Task>, translate: Translator, pageSize: Phys) returns (log: seq<Line>)
      requires pageSize != 0
      requires !released && statsListHead == null && nodes == []
      modifies this
      ensures Valid() && !released
      ensures Contents(nodes) == ScanRecords(tasks, translate, pageSize)
      ensures Totals() == Add(old(Totals()), MappedSum(tasks, translate, pageSize))
      ensures log == RowLines(ScanRecords(tasks, translate, pageSize)) + [TotalsRow(Totals())]
    {
      IteratePages(tasks, translate, pageSize);
      log := WriteToConsole();
    }
  }
}
