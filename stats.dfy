/** Per-process records, the threshold that selects the processes, the
    global totals, and the lines of the report, as functions over values. */
module Stats {
  import opened Classifier

  /** The payload of one list node: proc_id / pid, proc_name / name and the
      three page counters. */
  datatype Record = Record(pid: int, name: string, counts: Counts)

  /** Both modules examine a task only when `task->pid > 650`. */
  const PidThreshold: int := 650

  predicate Selected(t: Task)
  {
    t.pid > PidThreshold
  }

  /** The record a selected task ends up with once its walk is done. */
  function TaskRecord(t: Task, tr: Translator, pageSize: Phys): Record
    requires pageSize != 0
  {
    Record(t.pid, t.name, TaskCounts(t, tr, pageSize))
  }

  /** The records one scan over `tasks` creates, in enumeration order:
      one per task with pid > 650, none for the others. */
  function ScanRecords(tasks: seq<Task>, tr: Translator, pageSize: Phys): (rs: seq<Record>)
    requires pageSize != 0
    ensures |rs| <= |tasks|
  {
    if tasks == [] then []
    else
      var t := tasks[|tasks| - 1];
      ScanRecords(tasks[..|tasks| - 1], tr, pageSize) + (if Selected(t) then [TaskRecord(t, tr, pageSize)] else [])
  }

  /** Every record the scan creates belongs to a task above the threshold. */
  lemma {:induction false} ScanRecordsPids(tasks: seq<Task>, tr: Translator, pageSize: Phys)
    requires pageSize != 0
    ensures forall i :: 0 <= i < |ScanRecords(tasks, tr, pageSize)| ==>
              ScanRecords(tasks, tr, pageSize)[i].pid > PidThreshold
  {
    if tasks != [] {
      ScanRecordsPids(tasks[..|tasks| - 1], tr, pageSize);
    }
  }

  /** Scanning two batches of tasks one after the other gives the records of
      the first batch followed by those of the second: nodes are appended in
      enumeration order and none is lost or reordered. */
  lemma {:induction false} ScanRecordsAppend(a: seq<Task>, b: seq<Task>, tr: Translator, pageSize: Phys)
    requires pageSize != 0
    ensures ScanRecords(a + b, tr, pageSize) == ScanRecords(a, tr, pageSize) + ScanRecords(b, tr, pageSize)
  {
    if b == [] {
      assert a + b == a;
    } else {
      var init := b[..|b| - 1];
      ScanRecordsAppend(a, init, tr, pageSize);
      assert (a + b)[..|a + b| - 1] == a + init;
    }
  }

  /** Task ti adds its record at the end when it is selected, and nothing
      otherwise. */
  lemma ScanRecordsStep(tasks: seq<Task>, ti: nat, tr: Translator, pageSize: Phys)
    requires pageSize != 0 && ti < |tasks|
    ensures ScanRecords(tasks[..ti + 1], tr, pageSize) ==
              ScanRecords(tasks[..ti], tr, pageSize) +
              (if Selected(tasks[ti]) then [TaskRecord(tasks[ti], tr, pageSize)] else [])
  {
    assert tasks[..ti + 1][..ti] == tasks[..ti];
  }

  /** Of three tasks with pids 100, 651 and 700, only the last two get a
      record, in that order. */
  lemma ThresholdExample(a: Task, b: Task, c: Task, tr: Translator, pageSize: Phys)
    requires pageSize != 0 && a.pid == 100 && b.pid == 651 && c.pid == 700
    ensures var rs := ScanRecords([a, b, c], tr, pageSize);
            |rs| == 2 && rs[0].pid == 651 && rs[1].pid == 700
  {
    assert [a, b, c] == [a] + [b] + [c];
    ScanRecordsAppend([a] + [b], [c], tr, pageSize);
    ScanRecordsAppend([a], [b], tr, pageSize);
    ScanRecordsOne(a, tr, pageSize);
    ScanRecordsOne(b, tr, pageSize);
    ScanRecordsOne(c, tr, pageSize);
  }

  /** A task gets a record exactly when its pid exceeds the threshold, and
      that record holds the task's pid, name and counters. */
  lemma ScanRecordsOne(t: Task, tr: Translator, pageSize: Phys)
    requires pageSize != 0
    ensures |ScanRecords([t], tr, pageSize)| == (if t.pid > PidThreshold then 1 else 0)
    ensures t.pid > PidThreshold ==>
              ScanRecords([t], tr, pageSize)[0] == Record(t.pid, t.name, TaskCounts(t, tr, pageSize))
  {
    assert [t][..0] == [];
  }

  /** Every record the scan creates satisfies total == contig + noncontig. */
  lemma {:induction false} ScanRecordsBalanced(tasks: seq<Task>, tr: Translator, pageSize: Phys)
    requires pageSize != 0
    ensures forall i :: 0 <= i < |ScanRecords(tasks, tr, pageSize)| ==>
              Balanced(ScanRecords(tasks, tr, pageSize)[i].counts)
  {
    if tasks != [] {
      var t := tasks[|tasks| - 1];
      ScanRecordsBalanced(tasks[..|tasks| - 1], tr, pageSize);
      TaskCountsBalanced(t, tr, pageSize);
    }
  }

  /** The sum of the counters of `recs`, field by field. */
  function SumCounts(recs: seq<Record>): Counts
  {
    if recs == [] then Zero()
    else Add(SumCounts(recs[..|recs| - 1]), recs[|recs| - 1].counts)
  }

  /** Summing one more record adds its counters. */
  lemma SumCountsSnoc(recs: seq<Record>, r: Record)
    ensures SumCounts(recs + [r]) == Add(SumCounts(recs), r.counts)
  {
    assert (recs + [r])[..|recs|] == recs;
  }

  /** Summing is additive over concatenation. */
  lemma {:induction false} SumCountsAppend(a: seq<Record>, b: seq<Record>)
    ensures SumCounts(a + b) == Add(SumCounts(a), SumCounts(b))
  {
    if b == [] {
      assert a + b == a;
    } else {
      var init := b[..|b| - 1];
      SumCountsAppend(a, init);
      assert (a + b)[..|a + b| - 1] == a + init;
      AddAssoc(SumCounts(a), SumCounts(init), b[|b| - 1].counts);
    }
  }

  /** When every record is balanced, so are the totals. */
  lemma {:induction false} SumCountsBalanced(recs: seq<Record>)
    requires forall i :: 0 <= i < |recs| ==> Balanced(recs[i].counts)
    ensures Balanced(SumCounts(recs))
  {
    if recs != [] {
      SumCountsBalanced(recs[..|recs| - 1]);
    }
  }

  /** What Samples/procReport.c adds to its global totals during a scan: the
      counters of the selected tasks that pass `task->mm && task->mm->mmap`. */
  function MappedSum(tasks: seq<Task>, tr: Translator, pageSize: Phys): Counts
    requires pageSize != 0
  {
    if tasks == [] then Zero()
    else
      var t := tasks[|tasks| - 1];
      var before := MappedSum(tasks[..|tasks| - 1], tr, pageSize);
      if Selected(t) && HasMmap(t) then Add(before, TaskCounts(t, tr, pageSize)) else before
  }

  /** Scanning one more task adds its counters to the totals exactly when it
      is selected and has an mm with a mapping, stated field by field. */
  lemma MappedSumStep(tasks: seq<Task>, ti: nat, tr: Translator, pageSize: Phys)
    requires pageSize != 0 && ti < |tasks|
    ensures var before := MappedSum(tasks[..ti], tr, pageSize);
            var after := MappedSum(tasks[..ti + 1], tr, pageSize);
            var c := if Selected(tasks[ti]) && HasMmap(tasks[ti]) then TaskCounts(tasks[ti], tr, pageSize) else Zero();
            && after.contig == before.contig + c.contig
            && after.noncontig == before.noncontig + c.noncontig
            && after.total == before.total + c.total
  {
    assert tasks[..ti + 1][..ti] == tasks[..ti];
  }

  /** Skipping the tasks without mm or mmap loses nothing: their counters are
      all 0, so the totals still equal the sum over every record created. */
  lemma {:induction false} MappedSumIsRecordSum(tasks: seq<Task>, tr: Translator, pageSize: Phys)
    requires pageSize != 0
    ensures MappedSum(tasks, tr, pageSize) == SumCounts(ScanRecords(tasks, tr, pageSize))
  {
    if tasks != [] {
      var t := tasks[|tasks| - 1];
      var init := tasks[..|tasks| - 1];
      var before := ScanRecords(init, tr, pageSize);
      MappedSumIsRecordSum(init, tr, pageSize);
      if Selected(t) {
        var after := before + [TaskRecord(t, tr, pageSize)];
        assert ScanRecords(tasks, tr, pageSize) == after;
        assert after[..|after| - 1] == before;
        assert SumCounts(after) == Add(SumCounts(before), TaskCounts(t, tr, pageSize));
        if !HasMmap(t) {
          AddZero(SumCounts(before));
        }
      } else {
        assert ScanRecords(tasks, tr, pageSize) == before;
      }
    }
  }

  /** One line of the report, before printf formatting. */
  datatype Line =
    | Title                     // "PROCESS REPORT:"
    | ColumnHeader              // "proc_id,proc_name,contig_pages,noncontig_pages,total_pages"
    | Row(rec: Record)          // "<pid>,<name>,<contig>,<noncontig>,<total>"
    | TotalsRow(totals: Counts) // "TOTALS,,<contig>,<noncontig>,<total>"

  /** One line per record, in list order. */
  function RowLines(recs: seq<Record>): (ls: seq<Line>)
    ensures |ls| == |recs|
  {
    if recs == [] then []
    else RowLines(recs[..|recs| - 1]) + [Row(recs[|recs| - 1])]
  }

  /** Line i is the row of record i. */
  lemma {:induction false} RowLinesAt(recs: seq<Record>)
    ensures forall i :: 0 <= i < |recs| ==> RowLines(recs)[i] == Row(recs[i])
  {
    if recs != [] {
      RowLinesAt(recs[..|recs| - 1]);
    }
  }

  /** One more record gives one more line, at the end. */
  lemma RowLinesSnoc(recs: seq<Record>, r: Record)
    ensures RowLines(recs + [r]) == RowLines(recs) + [Row(r)]
  {
    assert (recs + [r])[..|recs|] == recs;
  }

  /** Printing the first k + 1 records prints the first k and then record k. */
  lemma RowLinesStep(recs: seq<Record>, k: nat)
    requires k < |recs|
    ensures RowLines(recs[..k + 1]) == RowLines(recs[..k]) + [Row(recs[k])]
  {
    assert recs[..k + 1] == recs[..k] + [recs[k]];
    RowLinesSnoc(recs[..k], recs[k]);
  }

  /** Adding the first k + 1 records to running totals `base` adds the
      first k and then record k. */
  lemma SumCountsStep(recs: seq<Record>, k: nat)
    requires k < |recs|
    ensures var before := SumCounts(recs[..k]);
            var after := SumCounts(recs[..k + 1]);
            && after.contig == before.contig + recs[k].counts.contig
            && after.noncontig == before.noncontig + recs[k].counts.noncontig
            && after.total == before.total + recs[k].counts.total
  {
    assert recs[..k + 1] == recs[..k] + [recs[k]];
    SumCountsSnoc(recs[..k], recs[k]);
  }

  /** The full report: the two header lines, one line per record in list
      order, and the totals line. */
  function ReportLines(recs: seq<Record>, totals: Counts): (ls: seq<Line>)
    ensures |ls| == |recs| + 3
    ensures ls[0] == Title && ls[1] == ColumnHeader && ls[|ls| - 1] == TotalsRow(totals)
  {
    [Title, ColumnHeader] + RowLines(recs) + [TotalsRow(totals)]
  }

  /** The report has the two header lines, then one row per record in list
      order, then the totals line, and nothing else. */
  lemma ReportLinesShape(recs: seq<Record>, totals: Counts)
    ensures var ls := ReportLines(recs, totals);
            && |ls| == |recs| + 3
            && ls[0] == Title && ls[1] == ColumnHeader && ls[|ls| - 1] == TotalsRow(totals)
            && (forall i :: 0 <= i < |recs| ==> ls[i + 2] == Row(recs[i]))
  {
    RowLinesAt(recs);
  }
}
