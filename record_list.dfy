/** The singly linked list of per-process records that both modules build:
    `nProcess` in procReport.c and `counter_list` in Samples/procReport.c have
    the same fields in the same order, so one node class models both. */
module RecordList {
  import opened Classifier
  import opened Stats

  /** A list node. The payload is fixed once the node is filled in, before
      it is linked; only the link changes afterwards. */
  class Node {
    const pid: int
    const name: string
    const contig: int
    const noncontig: int
    const total: int
    var next: Node?

    /** kmalloc followed by the field assignments of the source; the node
        starts unlinked (`next = NULL`). */
    constructor (pid: int, name: string, contig: int, noncontig: int, total: int)
      ensures this.pid == pid && this.name == name
      ensures this.contig == contig && this.noncontig == noncontig && this.total == total
      ensures next == null
    {
      this.pid := pid;
      this.name := name;
      this.contig := contig;
      this.noncontig := noncontig;
      this.total := total;
      next := null;
    }

    /** The node's payload, without its link. */
    function Rec(): Record
    {
      Record(pid, name, Counts(contig, noncontig, total))
    }
  }

  /** `head` starts a NULL-terminated chain through exactly the nodes of
      `nodes`, in order. */
  ghost predicate IsChain(head: Node?, nodes: seq<Node>)
    reads nodes
  {
    && (if nodes == [] then head == null else head == nodes[0])
    && (forall i :: 0 <= i < |nodes| - 1 ==> nodes[i].next == nodes[i + 1])
    && (nodes != [] ==> nodes[|nodes| - 1].next == null)
  }

  /** The records held by `nodes`, in list order. */
  function Contents(nodes: seq<Node>): (rs: seq<Record>)
    ensures |rs| == |nodes|
  {
    if nodes == [] then []
    else Contents(nodes[..|nodes| - 1]) + [nodes[|nodes| - 1].Rec()]
  }

  /** Record i is the payload of node i. */
  lemma {:induction false} ContentsAt(nodes: seq<Node>)
    ensures forall i :: 0 <= i < |nodes| ==> Contents(nodes)[i] == nodes[i].Rec()
  {
    if nodes != [] {
      ContentsAt(nodes[..|nodes| - 1]);
    }
  }

  /** The record at one position is that node's payload. */
  lemma ContentsIndex(nodes: seq<Node>, k: nat)
    requires k < |nodes|
    ensures Contents(nodes)[k] == nodes[k].Rec()
  {
    ContentsAt(nodes);
  }

  /** Linking one more node at the end adds its record at the end. */
  lemma ContentsSnoc(nodes: seq<Node>, n: Node)
    ensures Contents(nodes + [n]) == Contents(nodes) + [n.Rec()]
  {
    assert (nodes + [n])[..|nodes|] == nodes;
  }

  /** After the scan has seen tasks[..ti], linking the node of a selected
      task ti extends the list's records to those of tasks[..ti + 1]. */
  lemma ScanExtend(nodes: seq<Node>, tasks: seq<Task>, ti: nat, tr: Translator, pageSize: Phys, n: Node)
    requires pageSize != 0 && ti < |tasks| && Selected(tasks[ti])
    requires Contents(nodes) == ScanRecords(tasks[..ti], tr, pageSize)
    requires n.Rec() == TaskRecord(tasks[ti], tr, pageSize)
    ensures Contents(nodes + [n]) == ScanRecords(tasks[..ti + 1], tr, pageSize)
  {
    ScanRecordsStep(tasks, ti, tr, pageSize);
    ContentsSnoc(nodes, n);
  }

  /** A task at or below the threshold leaves the records as they were. */
  lemma ScanSkip(nodes: seq<Node>, tasks: seq<Task>, ti: nat, tr: Translator, pageSize: Phys)
    requires pageSize != 0 && ti < |tasks| && !Selected(tasks[ti])
    requires Contents(nodes) == ScanRecords(tasks[..ti], tr, pageSize)
    ensures Contents(nodes) == ScanRecords(tasks[..ti + 1], tr, pageSize)
  {
    ScanRecordsStep(tasks, ti, tr, pageSize);
  }

  /** `*copy_head = *head`: a node holding the same fields as the head,
      link included, starts a chain through the same records. */
  lemma CopyHeadChain(head: Node, nodes: seq<Node>, copy: Node)
    requires IsChain(head, nodes) && copy !in nodes
    requires copy.next == head.next && copy.Rec() == head.Rec()
    ensures IsChain(copy, [copy] + nodes[1..])
    ensures Contents([copy] + nodes[1..]) == Contents(nodes)
  {
    var shown := [copy] + nodes[1..];
    assert forall i :: 1 <= i < |shown| ==> shown[i] == nodes[i];
    ContentsAt(nodes);
    ContentsAt(shown);
  }
}
