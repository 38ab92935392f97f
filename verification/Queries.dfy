/** What a query finally reads of a table: the cache, the pinned snapshot, the pushdowns and the pruning together. */
module Queries {
  import opened Wrappers
  import opened IcebergTypes
  import opened DataFiles
  import opened Planning
  import opened FileLists
  import opened Snapshots
  import opened TransactionTheorems
  import opened MovedTables
  import F = Filters
  import E = Expressions
  import I = Interleaving

  /** The files of a table's current snapshot. */
  function CurrentFiles(t: Table): seq<DataFile> {
    if t.current.Some? && t.current.value in t.snapshots then t.snapshots[t.current.value].files else []
  }

  /** The rows that every pushed filter keeps. */
  ghost function PassingAll(pushdowns: seq<Pushdown>, schema: Schema, others: F.OtherFilters): RowTest {
    (row: E.Row) => forall p | p in pushdowns :: PushdownKeeps(p, schema, row, others)
  }

  lemma IsolatedReadsStartFiles(start: Table, info: ScanInfo)
    requires WellFormed(start)
    requires info.table.snapshots != map[] && Isolated(Some(start), info)
    ensures FilesRead(info) == Ok(CurrentFiles(start))
  {
  }

  lemma {:induction false} RunKeepsScan(list: FileList, pushdowns: seq<Pushdown>, same: FilterEquality)
    ensures FileLists.Run(list, pushdowns, same).info == list.info
    decreases |pushdowns|
  {
    if pushdowns != [] {
      RunKeepsScan(Push(list, pushdowns[0], same), pushdowns[1..], same);
    }
  }

  /** Whatever other threads and other writers do: a table that a lookup answered with, and that has snapshots, is
      planned after any pushdowns and with any sound planner over the files of the snapshot that was current in that
      table at the transaction's start, which is then the table of this name unless one was moved to it; and the rows
      that all pushed filters keep are read as from all of those files, in order. */
  lemma QueryReadsTheStart(c: I.Config, g: I.State, actions: seq<I.Action>, schema: string, table: string, entry: nat,
                           info: ScanInfo, pushdowns: seq<Pushdown>, same: FilterEquality, keep: Planner,
                           others: F.OtherFilters)
    requires I.Initial(c, g)
    requires I.Answered(schema, table, entry) in I.Run(c, g, actions).log
    requires ScanOf(I.Run(c, g, actions).data, schema, entry) == Some(info)
    requires info.table.snapshots != map[]
    requires E.DistinctNames(info.schema) && Fits(info.schema) && Faithful(same) && Sound(keep, info.schema)
    ensures I.StartOf(c, info.table.uuid).Some?
    ensures NeverMovedTo(actions, (schema, table)) ==>
              I.StartOf(c, info.table.uuid) == I.AtStart(c, schema, table)
    ensures var list := FileLists.Run(FileList(info, map[]), pushdowns, same);
            var files := CurrentFiles(I.StartOf(c, info.table.uuid).value);
            var passing := PassingAll(pushdowns, info.schema, others);
            && FilesRead(list.info) == Ok(files)
            && ScanFiles(Kept(files, PlanFilter(list.filters, list.info.schema), keep), passing)
               == ScanFiles(files, passing)
  {
    ConsistentCut(c, g, actions, schema, table, entry);
    var start := I.StartOf(c, info.table.uuid).value;
    IsolatedReadsStartFiles(start, info);
    if NeverMovedTo(actions, (schema, table)) {
      IsolatedUnlessMovedTo(c, g, actions, schema, table, entry, info);
    }
    var first := FileList(info, map[]);
    var list := FileLists.Run(first, pushdowns, same);
    var files := CurrentFiles(start);
    RunKeepsScan(first, pushdowns, same);
    var e := PlanFilter(list.filters, info.schema);
    forall file, row | file in files && row in file.rows && !keep(file, e)
      ensures !PassingAll(pushdowns, info.schema, others)(row)
    {
      if PassingAll(pushdowns, info.schema, others)(row) {
        RunLosesNoRow(first, pushdowns, same, keep, file, row, others);
      }
    }
    PruningKeepsRows(files, e, keep, PassingAll(pushdowns, info.schema, others));
  }
}
