/** What a snapshot consists of. */
module DataFiles {
  import Expressions

  datatype FileFormat = Parquet | OtherFormat

  /** A file scan task: a data file, its rows, and whether delete files apply to it. */
  datatype DataFile = DataFile(path: string, rows: seq<Expressions.Row>, recordCount: nat, format: FileFormat,
                               hasDeletes: bool)
}

/** Scan planning: which data files a filter expression keeps, and what the scan then reads. */
module Planning {
  import opened Wrappers
  import opened IcebergTypes
  import opened DataFiles
  import opened Snapshots
  import opened Filters
  import E = Expressions

  /** iceberg-cpp's planner, as a function of a file and the filter it was given. */
  type Planner = (DataFile, E.Expression) -> bool

  /** Planning keeps every file holding a row the filter accepts. */
  ghost predicate Sound(keep: Planner, schema: Schema) {
    forall file: DataFile, e: E.Expression ::
      (exists row | row in file.rows :: E.Accepts(e, row, schema)) ==> keep(file, e)
  }

  /** Planning keeps a file for a conjunction exactly when it keeps it for both conjuncts. */
  ghost predicate Conjunctive(keep: Planner) {
    && (forall file: DataFile :: keep(file, E.AlwaysTrue))
    && (forall file: DataFile, a, b :: keep(file, E.MakeAnd(a, b)) <==> keep(file, a) && keep(file, b))
  }

  function Kept(files: seq<DataFile>, e: E.Expression, keep: Planner): seq<DataFile> {
    if files == [] then []
    else
      var before := Kept(files[..|files| - 1], e, keep);
      var file := files[|files| - 1];
      if keep(file, e) then before + [file] else before
  }

  // ----- PlanFilesImpl -----

  datatype PlanError = SnapshotNotFound | DeleteFilesUnsupported | FormatUnsupported

  datatype ScanPlan = ScanPlan(dataFiles: seq<DataFile>, totalRecordCount: nat)

  function TotalRecords(files: seq<DataFile>): nat {
    if files == [] then 0 else TotalRecords(files[..|files| - 1]) + files[|files| - 1].recordCount
  }

  lemma RecordsOfOne(file: DataFile)
    ensures TotalRecords([file]) == file.recordCount
  {
    assert [file][..0] == [];
  }

  /** The records of files are the sum of each one's. */
  lemma {:induction false} RecordsAdd(files: seq<DataFile>, more: seq<DataFile>)
    ensures TotalRecords(files + more) == TotalRecords(files) + TotalRecords(more)
    decreases |more|
  {
    if more == [] {
      assert files + more == files;
    } else {
      var n := |more| - 1;
      assert (files + more)[..|files + more| - 1] == files + more[..n];
      RecordsAdd(files, more[..n]);
    }
  }

  /** Only Parquet files without deletes can be read; the first other one decides the error. */
  ghost predicate PlanOf(tasks: seq<DataFile>, plan: Result<ScanPlan, PlanError>) {
    match plan
    case Ok(p) =>
      && (forall i | 0 <= i < |tasks| :: !tasks[i].hasDeletes && tasks[i].format == Parquet)
      && p == ScanPlan(tasks, TotalRecords(tasks))
    case Threw(error) =>
      exists i | 0 <= i < |tasks| ::
        && (forall j | 0 <= j < i :: !tasks[j].hasDeletes && tasks[j].format == Parquet)
        && (tasks[i].hasDeletes || tasks[i].format != Parquet)
        && error == if tasks[i].hasDeletes then DeleteFilesUnsupported else FormatUnsupported
  }

  /** An unset filter plans as AlwaysTrue, which is also what an empty filter set translates to. */
  ghost function PlanFilter(filters: FilterSet, schema: Schema): E.Expression {
    TranslateSet(filters, schema)
  }

  /** The files of the snapshot a scan reads: the pinned one, else the current one, else none. */
  function FilesRead(info: ScanInfo): Result<seq<DataFile>, PlanError> {
    match SnapshotRead(info)
    case None => Ok([])
    case Some(id) => if id in info.table.snapshots then Ok(info.table.snapshots[id].files) else Threw(SnapshotNotFound)
  }

  /** What is resolved for a transaction can be scanned. */
  lemma ResolvedCanBeScanned(table: Table, startMs: int)
    requires WellFormed(table)
    requires ResolveScanInfo(table, startMs).Ok?
    ensures FilesRead(ResolveScanInfo(table, startMs).value).Ok?
  {
  }

  method PlanFiles(info: ScanInfo, filters: FilterSet, keep: Planner) returns (plan: Result<ScanPlan, PlanError>)
    ensures match FilesRead(info)
            case Ok(files) => PlanOf(Kept(files, PlanFilter(filters, info.schema), keep), plan)
            case Threw(error) => plan == Threw(error)
  {
    var snapshot := info.table.current;
    if info.mode.PinnedRead? {
      snapshot := Some(info.mode.snapshotId);
    }
    var filter := E.AlwaysTrue;
    if filters != map[] {
      filter := TranslateOrWidenFilters(filters, info.schema);
    } else {
      CannotPruneExactly(filters, info.schema);
    }
    if snapshot.None? {
      plan := CollectPlan([]);
    } else if snapshot.value !in info.table.snapshots {
      plan := Threw(SnapshotNotFound);
    } else {
      plan := CollectPlan(Kept(info.table.snapshots[snapshot.value].files, filter, keep));
    }
  }

  lemma AddRecords(tasks: seq<DataFile>, i: nat)
    requires i < |tasks|
    ensures TotalRecords(tasks[..i + 1]) == TotalRecords(tasks[..i]) + tasks[i].recordCount
  {
    assert tasks[..i + 1][..i] == tasks[..i];
  }

  method CollectPlan(tasks: seq<DataFile>) returns (plan: Result<ScanPlan, PlanError>)
    ensures PlanOf(tasks, plan)
  {
    var dataFiles, records := [], 0;
    for i := 0 to |tasks|
      invariant dataFiles == tasks[..i]
      invariant records == TotalRecords(tasks[..i])
      invariant forall j | 0 <= j < i :: !tasks[j].hasDeletes && tasks[j].format == Parquet
    {
      if tasks[i].hasDeletes {
        return Threw(DeleteFilesUnsupported);
      }
      if !tasks[i].format.Parquet? {
        return Threw(FormatUnsupported);
      }
      AddRecords(tasks, i);
      records := records + tasks[i].recordCount;
      dataFiles := dataFiles + [tasks[i]];
    }
    assert tasks[..|tasks|] == tasks;
    plan := Ok(ScanPlan(dataFiles, records));
  }

  // ----- Pruning loses nothing -----

  type RowTest = E.Row -> bool

  function Keeping(filters: FilterSet, others: OtherFilters): RowTest {
    (row: E.Row) => Keeps(filters, row, others)
  }

  /** The rows of a file that pass, in order. */
  function FilterRows(rows: seq<E.Row>, test: RowTest): seq<E.Row> {
    if rows == [] then []
    else
      var before := FilterRows(rows[..|rows| - 1], test);
      if test(rows[|rows| - 1]) then before + [rows[|rows| - 1]] else before
  }

  function ScanFiles(files: seq<DataFile>, test: RowTest): seq<E.Row> {
    if files == [] then []
    else ScanFiles(files[..|files| - 1], test) + FilterRows(files[|files| - 1].rows, test)
  }

  lemma {:induction false} NothingPasses(rows: seq<E.Row>, test: RowTest)
    requires forall row | row in rows :: !test(row)
    ensures FilterRows(rows, test) == []
  {
    if rows != [] {
      assert rows[|rows| - 1] in rows;
      NothingPasses(rows[..|rows| - 1], test);
    }
  }

  lemma {:induction false} SomethingPasses(rows: seq<E.Row>, test: RowTest, row: E.Row)
    requires row in rows && test(row)
    ensures FilterRows(rows, test) != []
  {
    if row != rows[|rows| - 1] {
      SomethingPasses(rows[..|rows| - 1], test, row);
    }
  }

  /** Files that hold no passing row can be dropped: the same rows are read, in the same order. */
  lemma {:induction false} PruningKeepsRows(files: seq<DataFile>, e: E.Expression, keep: Planner, test: RowTest)
    requires forall file, row | file in files && row in file.rows && !keep(file, e) :: !test(row)
    ensures ScanFiles(Kept(files, e, keep), test) == ScanFiles(files, test)
  {
    if files != [] {
      var file := files[|files| - 1];
      var before := files[..|files| - 1];
      PruningKeepsRows(before, e, keep, test);
      if keep(file, e) {
        assert Kept(files, e, keep)[..|Kept(before, e, keep)|] == Kept(before, e, keep);
      } else {
        assert file in files;
        NothingPasses(file.rows, test);
      }
    }
  }

  lemma {:induction false} PruningShortens(files: seq<DataFile>, e: E.Expression, keep: Planner, test: RowTest)
    ensures |ScanFiles(Kept(files, e, keep), test)| <= |ScanFiles(files, test)|
    ensures forall file, row | file in files && row in file.rows && !keep(file, e) && test(row) ::
              |ScanFiles(Kept(files, e, keep), test)| < |ScanFiles(files, test)|
  {
    if files != [] {
      var last := files[|files| - 1];
      var before := files[..|files| - 1];
      PruningShortens(before, e, keep, test);
      if keep(last, e) {
        assert Kept(files, e, keep)[..|Kept(before, e, keep)|] == Kept(before, e, keep);
      }
      forall file, row | file in files && row in file.rows && !keep(file, e) && test(row)
        ensures |ScanFiles(Kept(files, e, keep), test)| < |ScanFiles(files, test)|
      {
        if file == last {
          SomethingPasses(file.rows, test, row);
        } else {
          assert file in before;
        }
      }
    }
  }

  /** For any planner at all, pruning changes nothing exactly when no file it drops holds a passing row. */
  lemma PruningKeepsRowsExactly(files: seq<DataFile>, e: E.Expression, keep: Planner, test: RowTest)
    ensures ScanFiles(Kept(files, e, keep), test) == ScanFiles(files, test) <==>
            forall file, row | file in files && row in file.rows && !keep(file, e) :: !test(row)
  {
    PruningShortens(files, e, keep, test);
    if forall file, row | file in files && row in file.rows && !keep(file, e) :: !test(row) {
      PruningKeepsRows(files, e, keep, test);
    }
  }

  /** A pruned scan is a full scan: for every filter set, schema, set of files and sound planner. */
  lemma PrunedScanEqualsFullScan(files: seq<DataFile>, filters: FilterSet, schema: Schema, keep: Planner,
                                 others: OtherFilters)
    requires E.DistinctNames(schema)
    requires Sound(keep, schema)
    ensures ScanFiles(Kept(files, PlanFilter(filters, schema), keep), Keeping(filters, others))
            == ScanFiles(files, Keeping(filters, others))
  {
    var e := PlanFilter(filters, schema);
    forall file, row | file in files && row in file.rows && !keep(file, e) ensures !Keeping(filters, others)(row) {
      if Keeps(filters, row, others) {
        TranslateSetSound(filters, schema, row, others);
      }
    }
    PruningKeepsRows(files, e, keep, Keeping(filters, others));
  }
}

/** A concrete planner over column metrics, after Iceberg's inclusive metrics evaluation. */
module Metrics {
  import opened Wrappers
  import opened Orders
  import opened Floats
  import opened IcebergTypes
  import opened Literals
  import opened Text
  import opened DataFiles
  import opened Planning
  import F = Filters
  import E = Expressions

  /** A column's metrics in one file. Bounds cover the values that are neither NULL nor NaN. */
  datatype ColumnMetrics = ColumnMetrics(mayHaveNulls: bool, mayHaveValues: bool,
                                         lower: Option<Literal>, upper: Option<Literal>)

  predicate IsNaN(v: Value) {
    (v.FloatValue? && v.float.NaN?) || (v.DoubleValue? && v.double.NaN?)
  }

  /** Related, read between two literals. */
  predicate LiteralRelated(op: CmpOp, a: Literal, b: Literal) {
    LiteralCompare(a, b).Some? && Holds(op, LiteralCompare(a, b).value)
  }

  predicate Bounded(v: Value, m: ColumnMetrics) {
    && (v.Null? ==> m.mayHaveNulls)
    && (!v.Null? ==> m.mayHaveValues)
    && (!v.Null? && !IsNaN(v) ==>
          && (m.lower.Some? ==> E.Related(Ge, v, m.lower.value))
          && (m.upper.Some? ==> E.Related(Le, v, m.upper.value)))
  }

  predicate MayMatchLiteral(m: ColumnMetrics, literal: Literal) {
    && (m.lower.Some? ==> LiteralRelated(Le, m.lower.value, literal))
    && (m.upper.Some? ==> LiteralRelated(Ge, m.upper.value, literal))
  }

  /** Whether a file with these column metrics may hold a row passing the test. */
  predicate MayMatch(m: ColumnMetrics, test: E.Test) {
    match test
    case NullTest => m.mayHaveNulls
    case NotNullTest => m.mayHaveValues
    case InList(literals) => m.mayHaveValues && exists i | 0 <= i < |literals| :: MayMatchLiteral(m, literals[i])
    case Compare(op, literal) =>
      match op
      case Ne => true
      case Eq => m.mayHaveValues && MayMatchLiteral(m, literal)
      case Lt => m.mayHaveValues && (m.lower.Some? ==> LiteralRelated(Lt, m.lower.value, literal))
      case Le => m.mayHaveValues && (m.lower.Some? ==> LiteralRelated(Le, m.lower.value, literal))
      case Gt => m.mayHaveValues && (m.upper.Some? ==> LiteralRelated(Gt, m.upper.value, literal))
      case Ge => m.mayHaveValues && (m.upper.Some? ==> LiteralRelated(Ge, m.upper.value, literal))
  }

  /** Keeps a file whose metrics, by column name, may match. A column without metrics may hold anything. */
  predicate KeepByMetrics(metrics: map<string, ColumnMetrics>, e: E.Expression) {
    match e
    case AlwaysTrue => true
    case AlwaysFalse => false
    case Test(column, test) => column in metrics ==> MayMatch(metrics[column], test)
    case And(a, b) => KeepByMetrics(metrics, a) && KeepByMetrics(metrics, b)
    case Or(a, b) => KeepByMetrics(metrics, a) || KeepByMetrics(metrics, b)
    case Not(_) => true
  }

  predicate Describes(metrics: map<string, ColumnMetrics>, row: E.Row, schema: Schema) {
    forall column | column in metrics :: Bounded(E.Named(row, schema, column), metrics[column])
  }

  /** The tests on which bounds that ignore NaN can mislead: those NaN passes by ranking greatest. */
  predicate NaNSensitive(test: E.Test) {
    test.Compare? && (test.op == Gt || test.op == Ge)
  }

  /** The test's metrics rule out the NaN that passes it: bounds ignore NaN, and the upper one fails the test. */
  predicate NaNMisleadsTest(m: ColumnMetrics, v: Value, test: E.Test) {
    && IsNaN(v) && NaNSensitive(test)
    && m.upper.Some? && !LiteralRelated(test.op, m.upper.value, test.literal)
  }

  /** NaN misleads a conjunction through either part, and a disjunction if it misleads each part the row passes while
      the metrics rule out each part it does not. */
  predicate NaNMisleads(metrics: map<string, ColumnMetrics>, e: E.Expression, row: E.Row, schema: Schema) {
    match e
    case Test(column, test) =>
      column in metrics && NaNMisleadsTest(metrics[column], E.Named(row, schema, column), test)
    case And(a, b) => NaNMisleads(metrics, a, row, schema) || NaNMisleads(metrics, b, row, schema)
    case Or(a, b) =>
      && (if E.Accepts(a, row, schema) then NaNMisleads(metrics, a, row, schema) else !KeepByMetrics(metrics, a))
      && (if E.Accepts(b, row, schema) then NaNMisleads(metrics, b, row, schema) else !KeepByMetrics(metrics, b))
    case _ => false
  }

  lemma LexCompareTransitive(a: string, b: string, c: string)
    ensures CompareText(a, b) != Greater && CompareText(b, c) != Greater ==>
              && CompareText(a, c) != Greater
              && (CompareText(a, c) == Equal ==> CompareText(a, b) == Equal && CompareText(b, c) == Equal)
    ensures CompareText(a, b) == Less <==> CompareText(b, a) == Greater
    ensures CompareText(a, b) == Equal <==> CompareText(b, a) == Equal
  {
    LexTotal(a, b);
    if LexLe(a, b) && LexLe(b, c) {
      LexTransitive(a, b, c);
      if a == c {
        LexAntisymmetric(a, b);
      }
    }
    if LexLe(a, b) && LexLe(b, a) {
      LexAntisymmetric(a, b);
    }
  }

  /** Literals of one type are totally ordered. */
  lemma LiteralsChain(a: Literal, b: Literal, c: Literal)
    requires LiteralRelated(Le, a, b) && LiteralRelated(Le, b, c)
    ensures LiteralRelated(Le, a, c)
    ensures LiteralRelated(Lt, a, b) || LiteralRelated(Lt, b, c) ==> LiteralRelated(Lt, a, c)
  {
    if a.StringLiteral? {
      LexCompareTransitive(a.text, b.text, c.text);
    }
  }

  lemma LiteralsMirror(a: Literal, b: Literal)
    ensures LiteralRelated(Le, a, b) <==> LiteralRelated(Ge, b, a)
    ensures LiteralRelated(Lt, a, b) <==> LiteralRelated(Gt, b, a)
    ensures LiteralRelated(Eq, a, b) ==> LiteralRelated(Le, a, b) && LiteralRelated(Le, b, a)
  {
    if a.StringLiteral? && b.StringLiteral? {
      TextsMirror(a.text, b.text);
    }
  }

  lemma TextsMirror(a: string, b: string)
    ensures CompareText(a, b) == Less <==> CompareText(b, a) == Greater
    ensures CompareText(a, b) == Greater <==> CompareText(b, a) == Less
    ensures CompareText(a, b) == Equal <==> CompareText(b, a) == Equal
  {
    LexCompareTransitive(a, b, a);
    LexCompareTransitive(b, a, b);
  }

  lemma LiteralMayMatch(m: ColumnMetrics, v: Value, literal: Literal)
    requires Bounded(v, m) && !v.Null?
    requires !IsNaN(v)
    requires E.Related(Eq, v, literal)
    ensures MayMatchLiteral(m, literal)
  {
    var l := Stored(v).value;
    LiteralsMirror(l, literal);
    if m.lower.Some? {
      LiteralsMirror(m.lower.value, l);
      LiteralsChain(m.lower.value, l, literal);
    }
    if m.upper.Some? {
      LiteralsMirror(literal, m.upper.value);
      LiteralsChain(literal, l, m.upper.value);
    }
  }

  predicate IsNaNLiteral(l: Literal) {
    (l.FloatLiteral? && l.float.NaN?) || (l.DoubleLiteral? && l.double.NaN?)
  }

  predicate NaNFreeTest(test: E.Test) {
    match test
    case Compare(_, literal) => !IsNaNLiteral(literal)
    case InList(literals) => forall i | 0 <= i < |literals| :: !IsNaNLiteral(literals[i])
    case _ => true
  }

  predicate NaNFree(e: E.Expression) {
    match e
    case Test(_, test) => NaNFreeTest(test)
    case And(a, b) => NaNFree(a) && NaNFree(b)
    case Or(a, b) => NaNFree(a) && NaNFree(b)
    case Not(a) => NaNFree(a)
    case _ => true
  }

  lemma OrderedMayMatch(m: ColumnMetrics, v: Value, op: CmpOp, literal: Literal)
    requires Bounded(v, m) && !v.Null? && !IsNaN(v)
    requires op == Lt || op == Le || op == Gt || op == Ge
    requires E.Related(op, v, literal)
    ensures MayMatch(m, E.Compare(op, literal))
  {
    var l := Stored(v).value;
    if (op == Lt || op == Le) && m.lower.Some? {
      LiteralsMirror(m.lower.value, l);
      LiteralsStep(m.lower.value, l, literal);
    }
    if (op == Gt || op == Ge) && m.upper.Some? {
      LiteralsMirror(literal, l);
      LiteralsMirror(literal, m.upper.value);
      LiteralsStep(literal, l, m.upper.value);
    }
  }

  lemma LiteralsStep(a: Literal, b: Literal, c: Literal)
    ensures LiteralRelated(Le, a, b) && LiteralRelated(Le, b, c) ==> LiteralRelated(Le, a, c)
    ensures LiteralRelated(Le, a, b) && LiteralRelated(Lt, b, c) ==> LiteralRelated(Lt, a, c)
    ensures LiteralRelated(Lt, a, b) && LiteralRelated(Le, b, c) ==> LiteralRelated(Lt, a, c)
    ensures LiteralRelated(Lt, a, b) ==> LiteralRelated(Le, a, b)
  {
    if LiteralRelated(Le, a, b) && LiteralRelated(Le, b, c) {
      LiteralsChain(a, b, c);
    }
  }

  /** For a value that is not NaN, metrics never rule out a test it passes. */
  lemma MayMatchSound(m: ColumnMetrics, v: Value, test: E.Test)
    requires Bounded(v, m) && !IsNaN(v)
    requires E.Passes(test, v)
    ensures MayMatch(m, test)
  {
    match test
    case InList(literals) =>
      var i :| 0 <= i < |literals| && E.Related(Eq, v, literals[i]);
      LiteralMayMatch(m, v, literals[i]);
    case Compare(op, literal) =>
      if op == Eq {
        LiteralMayMatch(m, v, literal);
      } else if op != Ne {
        OrderedMayMatch(m, v, op, literal);
      }
    case _ =>
  }

  /** A file is wrongly ruled out exactly when NaN passes > or >= by ranking greatest while the upper bound, which
      ignores NaN, does not. */
  lemma MetricsLoseExactlyNaN(m: ColumnMetrics, v: Value, test: E.Test)
    requires Bounded(v, m)
    requires NaNFreeTest(test)
    requires E.Passes(test, v)
    ensures !MayMatch(m, test) <==> NaNMisleadsTest(m, v, test)
  {
    if !IsNaN(v) {
      MayMatchSound(m, v, test);
    }
  }

  /** A file's metrics rule out an expression that one of its rows passes exactly when NaN misleads it there. */
  lemma {:induction false} MetricsDropExactlyNaN(metrics: map<string, ColumnMetrics>, e: E.Expression, row: E.Row,
                                                 schema: Schema)
    requires Describes(metrics, row, schema)
    requires NaNFree(e)
    requires E.Accepts(e, row, schema)
    ensures !KeepByMetrics(metrics, e) <==> NaNMisleads(metrics, e, row, schema)
    decreases e
  {
    match e
    case Test(column, test) =>
      if column in metrics {
        MetricsLoseExactlyNaN(metrics[column], E.Named(row, schema, column), test);
      }
    case And(a, b) =>
      MetricsDropExactlyNaN(metrics, a, row, schema);
      MetricsDropExactlyNaN(metrics, b, row, schema);
    case Or(a, b) =>
      if E.Accepts(a, row, schema) {
        MetricsDropExactlyNaN(metrics, a, row, schema);
      }
      if E.Accepts(b, row, schema) {
        MetricsDropExactlyNaN(metrics, b, row, schema);
      }
    case _ =>
  }

  /** The guard on constants keeps NaN literals out of every translation. */
  lemma {:induction false} TranslationNaNFree(f: F.Filter, column: string)
    ensures NaNFree(F.Translate(f, column))
    decreases f
  {
    match f
    case And(children) => TranslateAllNaNFree(children, column);
    case Or(children) => TranslateAllNaNFree(children, column);
    case Optional(child) =>
      if child.Some? {
        TranslationNaNFree(child.value, column);
      }
    case _ =>
  }

  lemma {:induction false} TranslateAllNaNFree(fs: seq<F.Filter>, column: string)
    ensures NaNFree(F.TranslateAnd(fs, column))
    ensures NaNFree(F.TranslateOr(fs, column))
    decreases fs
  {
    if fs != [] {
      TranslateAllNaNFree(fs[..|fs| - 1], column);
      TranslationNaNFree(fs[|fs| - 1], column);
    }
  }

  lemma {:induction false} TranslateColumnsNaNFree(columns: seq<nat>, filters: F.FilterSet, schema: Schema)
    requires forall c | c in columns :: c in filters
    ensures NaNFree(F.TranslateColumns(columns, filters, schema))
  {
    if columns != [] {
      var c := columns[|columns| - 1];
      TranslateColumnsNaNFree(columns[..|columns| - 1], filters, schema);
      if c < |schema| {
        TranslationNaNFree(filters[c], schema[c].name);
      }
    }
  }

  function ByMetrics(metricsOf: DataFile -> map<string, ColumnMetrics>): Planner {
    (file: DataFile, e: E.Expression) => KeepByMetrics(metricsOf(file), e)
  }

  lemma KeptRowDroppedExactly(metrics: map<string, ColumnMetrics>, filters: F.FilterSet, schema: Schema, row: E.Row,
                              others: F.OtherFilters)
    requires E.DistinctNames(schema)
    requires Describes(metrics, row, schema)
    requires F.Keeps(filters, row, others)
    ensures var e := F.TranslateSet(filters, schema);
            !KeepByMetrics(metrics, e) <==> NaNMisleads(metrics, e, row, schema)
  {
    var e := F.TranslateSet(filters, schema);
    TranslateColumnsNaNFree(F.FilteredColumns(filters), filters, schema);
    F.TranslateSetSound(filters, schema, row, others);
    MetricsDropExactlyNaN(metrics, e, row, schema);
  }

  /** Pruning by metrics that ignore NaN loses nothing exactly when NaN misleads no row that the filters keep. */
  lemma MetricsScanEqualsFullScanExactly(files: seq<DataFile>, filters: F.FilterSet, schema: Schema,
                                         metricsOf: DataFile -> map<string, ColumnMetrics>, others: F.OtherFilters)
    requires E.DistinctNames(schema)
    requires forall file, row | file in files && row in file.rows :: Describes(metricsOf(file), row, schema)
    ensures ScanFiles(Kept(files, F.TranslateSet(filters, schema), ByMetrics(metricsOf)), Keeping(filters, others))
            == ScanFiles(files, Keeping(filters, others))
            <==>
            forall file, row | file in files && row in file.rows && F.Keeps(filters, row, others) ::
              !NaNMisleads(metricsOf(file), F.TranslateSet(filters, schema), row, schema)
  {
    var e := F.TranslateSet(filters, schema);
    var keep, test := ByMetrics(metricsOf), Keeping(filters, others);
    PruningKeepsRowsExactly(files, e, keep, test);
    forall file, row | file in files && row in file.rows
      ensures !keep(file, e) && test(row) <==>
              F.Keeps(filters, row, others) && NaNMisleads(metricsOf(file), e, row, schema)
    {
      if F.Keeps(filters, row, others) {
        KeptRowDroppedExactly(metricsOf(file), filters, schema, row, others);
      }
    }
  }

  // ----- Metrics measured from the rows -----

  /** The least literal, if all are of one type. */
  function LeastLiteral(literals: seq<Literal>): Option<Literal> {
    if literals == [] then None
    else
      var last := literals[|literals| - 1];
      if |literals| == 1 then Some(last)
      else
        match LeastLiteral(literals[..|literals| - 1])
        case None => None
        case Some(least) =>
          if LiteralCompare(least, last).None? then None
          else if LiteralRelated(Le, least, last) then Some(least) else Some(last)
  }

  function GreatestLiteral(literals: seq<Literal>): Option<Literal> {
    if literals == [] then None
    else
      var last := literals[|literals| - 1];
      if |literals| == 1 then Some(last)
      else
        match GreatestLiteral(literals[..|literals| - 1])
        case None => None
        case Some(greatest) =>
          if LiteralCompare(greatest, last).None? then None
          else if LiteralRelated(Ge, greatest, last) then Some(greatest) else Some(last)
  }

  lemma LiteralsTotal(a: Literal, b: Literal)
    requires LiteralCompare(a, b).Some?
    ensures LiteralRelated(Le, a, b) || LiteralRelated(Le, b, a)
    ensures LiteralRelated(Le, a, a) && LiteralRelated(Le, b, b)
  {
    if a.StringLiteral? {
      LexCompareTransitive(a.text, b.text, a.text);
    }
  }

  lemma {:induction false} LeastLiteralBounds(literals: seq<Literal>)
    requires LeastLiteral(literals).Some?
    ensures forall l | l in literals :: LiteralRelated(Le, LeastLiteral(literals).value, l)
  {
    var n := |literals| - 1;
    var least := LeastLiteral(literals).value;
    if n == 0 {
      assert forall l | l in literals :: l == least;
    } else {
      var before := LeastLiteral(literals[..n]).value;
      LeastLiteralBounds(literals[..n]);
      LiteralsTotal(before, literals[n]);
      forall l | l in literals ensures LiteralRelated(Le, least, l) {
        if l in literals[..n] {
          if least != before {
            LiteralsChain(least, before, l);
          }
        } else {
          assert l == literals[n];
        }
      }
    }
  }

  lemma {:induction false} GreatestLiteralBounds(literals: seq<Literal>)
    requires GreatestLiteral(literals).Some?
    ensures forall l | l in literals :: LiteralRelated(Le, l, GreatestLiteral(literals).value)
  {
    var n := |literals| - 1;
    var greatest := GreatestLiteral(literals).value;
    if n == 0 {
      assert forall l | l in literals :: l == greatest;
    } else {
      var before := GreatestLiteral(literals[..n]).value;
      GreatestLiteralBounds(literals[..n]);
      LiteralsTotal(before, literals[n]);
      LiteralsMirror(literals[n], before);
      forall l | l in literals ensures LiteralRelated(Le, l, greatest) {
        if l in literals[..n] {
          if greatest != before {
            LiteralsChain(l, before, greatest);
          }
        } else {
          assert l == literals[n];
        }
      }
    }
  }

  /** The literals of a column's values; None if some value has none, or is NaN. */
  function ColumnLiterals(rows: seq<E.Row>, schema: Schema, column: string): Option<seq<Literal>> {
    if rows == [] then Some([])
    else
      var v := E.Named(rows[|rows| - 1], schema, column);
      match ColumnLiterals(rows[..|rows| - 1], schema, column)
      case None => None
      case Some(before) =>
        if v.Null? then Some(before)
        else if IsNaN(v) || Stored(v).None? then None
        else Some(before + [Stored(v).value])
  }

  /** Null count, value count and bounds of a column without NaN; no metrics for any other column. */
  function Measure(rows: seq<E.Row>, schema: Schema): map<string, ColumnMetrics> {
    map column | column in (set i | 0 <= i < |schema| :: schema[i].name)
                 && ColumnLiterals(rows, schema, column).Some? ::
      ColumnMetrics(exists i | 0 <= i < |rows| :: E.Named(rows[i], schema, column).Null?,
                    exists i | 0 <= i < |rows| :: !E.Named(rows[i], schema, column).Null?,
                    LeastLiteral(ColumnLiterals(rows, schema, column).value),
                    GreatestLiteral(ColumnLiterals(rows, schema, column).value))
  }

  lemma {:induction false} ColumnLiteralsHold(rows: seq<E.Row>, schema: Schema, column: string, row: E.Row)
    requires row in rows
    requires ColumnLiterals(rows, schema, column).Some?
    ensures !IsNaN(E.Named(row, schema, column))
    ensures !E.Named(row, schema, column).Null? ==>
              && Stored(E.Named(row, schema, column)).Some?
              && Stored(E.Named(row, schema, column)).value in ColumnLiterals(rows, schema, column).value
  {
    if row in rows[..|rows| - 1] {
      ColumnLiteralsHold(rows[..|rows| - 1], schema, column, row);
    } else {
      assert row == rows[|rows| - 1];
    }
  }

  lemma MeasureDescribes(rows: seq<E.Row>, schema: Schema, row: E.Row)
    requires row in rows
    ensures Describes(Measure(rows, schema), row, schema)
    ensures forall column | column in Measure(rows, schema) :: !IsNaN(E.Named(row, schema, column))
  {
    var metrics := Measure(rows, schema);
    forall column | column in metrics
      ensures Bounded(E.Named(row, schema, column), metrics[column])
      ensures !IsNaN(E.Named(row, schema, column))
    {
      var v := E.Named(row, schema, column);
      var literals := ColumnLiterals(rows, schema, column).value;
      ColumnLiteralsHold(rows, schema, column, row);
      if !v.Null? {
        var l := Stored(v).value;
        if metrics[column].lower.Some? {
          LeastLiteralBounds(literals);
          LiteralsMirror(metrics[column].lower.value, l);
        }
        if metrics[column].upper.Some? {
          GreatestLiteralBounds(literals);
        }
      }
    }
  }

  function MeasuringPlanner(schema: Schema): Planner {
    (file: DataFile, e: E.Expression) => KeepByMetrics(Measure(file.rows, schema), e)
  }

  lemma {:induction false} MeasuredKeepSound(metrics: map<string, ColumnMetrics>, e: E.Expression, row: E.Row,
                                             schema: Schema)
    requires Describes(metrics, row, schema)
    requires forall column | column in metrics :: !IsNaN(E.Named(row, schema, column))
    requires E.Accepts(e, row, schema)
    ensures KeepByMetrics(metrics, e)
    decreases e
  {
    match e
    case Test(column, test) =>
      if column in metrics {
        MayMatchSound(metrics[column], E.Named(row, schema, column), test);
      }
    case And(a, b) =>
      MeasuredKeepSound(metrics, a, row, schema);
      MeasuredKeepSound(metrics, b, row, schema);
    case Or(a, b) =>
      if E.Accepts(a, row, schema) {
        MeasuredKeepSound(metrics, a, row, schema);
      } else {
        MeasuredKeepSound(metrics, b, row, schema);
      }
    case _ =>
  }

  /** The measuring planner meets the planner contract, so what is proved of sound planners is not vacuous; and it
      treats a conjunction as its conjuncts. */
  lemma MeasuringPlannerSound(schema: Schema)
    ensures Sound(MeasuringPlanner(schema), schema)
    ensures Conjunctive(MeasuringPlanner(schema))
  {
    var keep := MeasuringPlanner(schema);
    forall file: DataFile, e: E.Expression | exists row | row in file.rows :: E.Accepts(e, row, schema)
      ensures keep(file, e)
    {
      var row :| row in file.rows && E.Accepts(e, row, schema);
      MeasureDescribes(file.rows, schema, row);
      MeasuredKeepSound(Measure(file.rows, schema), e, row, schema);
    }
    forall file: DataFile, a, b ensures keep(file, E.MakeAnd(a, b)) <==> keep(file, a) && keep(file, b) {
      var metrics := Measure(file.rows, schema);
      assert KeepByMetrics(metrics, E.MakeAnd(a, b)) <==> KeepByMetrics(metrics, a) && KeepByMetrics(metrics, b);
    }
    forall file: DataFile ensures keep(file, E.AlwaysTrue) {
    }
  }

  // NaN data and bounds that ignore it: 'x > 5' on a file holding 1 and NaN.
  const X_SCHEMA: Schema := [Field(1, "x", IcebergTypes.Double)]
  const ONE_ROW: E.Row := [DoubleValue(NonZero(1.0))]
  const NAN_ROW: E.Row := [DoubleValue(NaN)]
  const X_FILE := DataFile("f", [ONE_ROW, NAN_ROW], 2, Parquet, false)
  const X_BOUND := DoubleLiteral(NonZero(1.0))
  const X_METRICS := map["x" := ColumnMetrics(false, true, Some(X_BOUND), Some(X_BOUND))]
  const X_ABOVE_5 := F.Constant(F.Plain(Gt), DoubleValue(NonZero(5.0)))

  lemma XMetricsDescribe(row: E.Row)
    requires row == ONE_ROW || row == NAN_ROW
    ensures Describes(X_METRICS, row, X_SCHEMA)
  {
  }

  lemma XScan(filters: F.FilterSet)
    requires filters == map[0 := X_ABOVE_5]
    ensures ScanFiles([X_FILE], Keeping(filters, (_, _) => F.Unknown)) == [NAN_ROW]
  {
    var others: F.OtherFilters := (_, _) => F.Unknown;
    var test := Keeping(filters, others);
    assert !test(ONE_ROW) by {
      assert !F.Eval(filters[0], E.At(ONE_ROW, 0), others).True?;
    }
    assert test(NAN_ROW) by {
      assert F.Eval(filters[0], E.At(NAN_ROW, 0), others).True?;
    }
    assert FilterRows([ONE_ROW], test) == [] by {
      assert [ONE_ROW][..0] == [];
    }
    assert [ONE_ROW, NAN_ROW][..1] == [ONE_ROW];
    assert FilterRows(X_FILE.rows, test) == [NAN_ROW];
    assert [X_FILE][..0] == [];
    assert ScanFiles([X_FILE][..0], test) == [];
  }

  lemma XPruned(filters: F.FilterSet)
    requires filters == map[0 := X_ABOVE_5]
    ensures !KeepByMetrics(X_METRICS, F.TranslateSet(filters, X_SCHEMA))
  {
    var p := (e: E.Expression) => KeepByMetrics(X_METRICS, e);
    F.TranslateSetRespects(filters, X_SCHEMA, p);
    assert X_SCHEMA[0].name == "x";
    assert 0 in filters && !p(F.Translate(filters[0], X_SCHEMA[0].name));
  }

  /** With NaN data and valid bounds that ignore it, pruning can lose the NaN row that the filter keeps. */
  lemma NaNRowCanBeLost()
    ensures forall row | row in X_FILE.rows :: Describes(X_METRICS, row, X_SCHEMA)
    ensures ScanFiles([X_FILE], Keeping(map[0 := X_ABOVE_5], (_, _) => F.Unknown)) == [NAN_ROW]
    ensures Kept([X_FILE], F.TranslateSet(map[0 := X_ABOVE_5], X_SCHEMA), (_, e) => KeepByMetrics(X_METRICS, e)) == []
  {
    XMetricsDescribe(ONE_ROW);
    XMetricsDescribe(NAN_ROW);
    XScan(map[0 := X_ABOVE_5]);
    XPruned(map[0 := X_ABOVE_5]);
    assert [X_FILE][..0] == [];
  }
}
