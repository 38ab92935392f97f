/** Filter pushdown into a file list: merging filter sets, and skipping pushdowns that cannot prune. */
module FileLists {
  import opened Wrappers
  import opened Ordered
  import opened IcebergTypes
  import Literals
  import Snapshots
  import opened DataFiles
  import opened Filters
  import opened Planning
  import E = Expressions

  /** What a list plans with: its scan and the filters pushed into it so far. */
  datatype FileList = FileList(info: Snapshots.ScanInfo, filters: FilterSet)

  /** DuckDB's ids from here up name virtual columns. */
  const VIRTUAL_COLUMN_START: nat := 0x8000_0000_0000_0000

  predicate IsVirtualColumn(column: nat) {
    column >= VIRTUAL_COLUMN_START
  }

  /** TableFilter::Equals. */
  type FilterEquality = (Filter, Filter) -> bool

  /** Filters called equal mean the same and translate alike. */
  ghost predicate Faithful(same: FilterEquality) {
    forall f, g | same(f, g) ::
      && (forall v, others :: Eval(f, v, others).True? <==> Eval(g, v, others).True?)
      && (forall column :: Translate(f, column) == Translate(g, column))
  }

  function Combine(base: FilterSet, added: FilterSet): FilterSet {
    map column | column in base.Keys + added.Keys ::
      if column !in added then base[column]
      else if column !in base then added[column]
      else AndPush(base[column], added[column])
  }

  lemma PushExtendsCombine(into: FilterSet, added: FilterSet, column: nat, f: Filter)
    requires column !in added
    ensures PushFilter(Combine(into, added), column, f) == Combine(into, added[column := f])
  {
  }

  method Append(into: FilterSet, src: FilterSet) returns (combined: FilterSet)
    ensures combined == Combine(into, src)
  {
    combined := into;
    var rest := src.Keys;
    ghost var done: FilterSet := map[];
    assert Combine(into, done) == into;
    while rest != {}
      invariant rest <= src.Keys
      invariant done.Keys == src.Keys - rest
      invariant forall column | column in done :: done[column] == src[column]
      invariant combined == Combine(into, done)
      decreases |rest|
    {
      var column :| column in rest;
      PushExtendsCombine(into, done, column, src[column]);
      rest, combined, done := rest - {column}, PushFilter(combined, column, src[column]), done[column := src[column]];
    }
    assert done == src;
  }

  method CreateFilteredList(list: FileList, added: FilterSet) returns (filtered: FileList)
    ensures filtered == FileList(list.info, Combine(list.filters, added))
  {
    var combined := Append(map[], list.filters);
    assert combined == list.filters;
    combined := Append(combined, added);
    filtered := FileList(list.info, combined);
  }

  /** Whether some filter on a column of the schema is translated rather than widened away. */
  method CanPrunePlanning(filters: FilterSet, schema: Schema) returns (can: bool)
    ensures can <==> exists c :: c in filters && c < |schema| && !Widens(filters[c])
  {
    var e := TranslateOrWidenFilters(filters, schema);
    can := e != E.AlwaysTrue;
    CannotPruneExactly(filters, schema);
  }

  // ----- Pushdowns -----

  /** A pushdown from DuckDB: a filter set keyed by column, or one keyed by position among the projected columns. */
  datatype Pushdown = Complex(filters: FilterSet) | Dynamic(columnIds: seq<nat>, filters: FilterSet)

  /** Whether the filter at a projected position is one the list does not already have. */
  predicate IsNew(list: FileList, p: Pushdown, index: nat, same: FilterEquality)
    requires p.Dynamic? && index in p.filters
  {
    && index < |p.columnIds|
    && !IsVirtualColumn(p.columnIds[index])
    && !(p.columnIds[index] in list.filters && same(p.filters[index], list.filters[p.columnIds[index]]))
  }

  /** The new filters of a dynamic pushdown, by column, pushed in order of position. */
  function NewFilters(list: FileList, p: Pushdown, indexes: seq<nat>, same: FilterEquality): FilterSet
    requires p.Dynamic? && forall i | i in indexes :: i in p.filters
  {
    if indexes == [] then map[]
    else
      var n := |indexes| - 1;
      var before := NewFilters(list, p, indexes[..n], same);
      if IsNew(list, p, indexes[n], same) then PushFilter(before, p.columnIds[indexes[n]], p.filters[indexes[n]])
      else before
  }

  /** The filters a pushdown would add to a list. */
  ghost function Added(list: FileList, p: Pushdown, same: FilterEquality): FilterSet {
    if p.Complex? then p.filters else NewFilters(list, p, FilteredColumns(p.filters), same)
  }

  /** Whether a pushdown produces a list; otherwise DuckDB keeps the one it has. */
  ghost predicate Applies(list: FileList, p: Pushdown, same: FilterEquality) {
    TranslateSet(Added(list, p, same), list.info.schema) != E.AlwaysTrue
  }

  ghost function Push(list: FileList, p: Pushdown, same: FilterEquality): FileList {
    if Applies(list, p, same) then FileList(list.info, Combine(list.filters, Added(list, p, same))) else list
  }

  method ComplexFilterPushdown(list: FileList, filters: FilterSet, same: FilterEquality)
    returns (filtered: Option<FileList>)
    ensures filtered == if Applies(list, Complex(filters), same) then Some(Push(list, Complex(filters), same)) else None
    ensures filtered.Some? <==> exists c | c in filters && c < |list.info.schema| :: !Widens(filters[c])
    ensures filtered.Some? ==> Narrows(list, Complex(filters), filtered.value, same)
  {
    PushNarrows(list, Complex(filters), same);
    CannotPruneExactly(filters, list.info.schema);
    if filters == map[] {
      return None;
    }
    var can := CanPrunePlanning(filters, list.info.schema);
    if !can {
      return None;
    }
    var l := CreateFilteredList(list, filters);
    filtered := Some(l);
  }

  method DynamicFilterPushdown(list: FileList, columnIds: seq<nat>, filters: FilterSet, same: FilterEquality)
    returns (filtered: Option<FileList>)
    ensures var p := Dynamic(columnIds, filters);
            filtered == if Applies(list, p, same) then Some(Push(list, p, same)) else None
    ensures Fits(list.info.schema) ==>
              (filtered.Some? <==> exists i | i in filters :: Usable(list, columnIds, i, filters[i], same))
    ensures filtered.Some? ==> Narrows(list, Dynamic(columnIds, filters), filtered.value, same)
    ensures filtered.Some? ==>
              forall c | c in filtered.value.filters :: c in list.filters || c < 0x8000_0000_0000_0000
  {
    NewFiltersAreReal(list, Dynamic(columnIds, filters), same);
    if Fits(list.info.schema) {
      DynamicAppliesExactly(list, columnIds, filters, same);
    }
    PushNarrows(list, Dynamic(columnIds, filters), same);
    if filters == map[] {
      NothingAdded(list, Dynamic(columnIds, filters), same);
      return None;
    }
    var added := CollectNewFilters(list, columnIds, filters, same);
    CannotPruneExactly(added, list.info.schema);
    if added == map[] {
      return None;
    }
    var can := CanPrunePlanning(added, list.info.schema);
    if !can {
      return None;
    }
    var l := CreateFilteredList(list, added);
    filtered := Some(l);
  }

  lemma NothingAdded(list: FileList, p: Pushdown, same: FilterEquality)
    requires p.filters == map[]
    ensures !Applies(list, p, same)
  {
  }

  method CollectNewFilters(list: FileList, columnIds: seq<nat>, filters: FilterSet, same: FilterEquality)
    returns (added: FilterSet)
    ensures added == Added(list, Dynamic(columnIds, filters), same)
  {
    NatIsTotalOrder();
    ghost var p := Dynamic(columnIds, filters);
    added := map[];
    var rest := filters.Keys;
    ghost var done: seq<nat> := [];
    while rest != {}
      invariant Visiting(done, rest, filters.Keys, NatLe)
      invariant forall i | i in done :: i in filters
      invariant added == NewFilters(list, p, done, same)
      decreases |rest|
    {
      ghost var least := LeastExists(rest, NatLe);
      var index: nat :| index in rest && forall i | i in rest :: index <= i;
      VisitNext(done, index, rest, filters.Keys, NatLe);
      assert (done + [index])[..|done|] == done;
      rest, done := rest - {index}, done + [index];
      if index >= |columnIds| || IsVirtualColumn(columnIds[index]) {
        continue;
      }
      var column := columnIds[index];
      if column in list.filters && same(filters[index], list.filters[column]) {
        continue;
      }
      added := PushFilter(added, column, filters[index]);
    }
    VisitEnds(done, filters.Keys, NatLe);
  }

  // ----- Properties of a column's filter that respect conjunction -----

  type Property = (nat, Filter) -> bool

  ghost predicate AndLike(q: Property) {
    forall column: nat, f, g :: q(column, AndPush(f, g)) <==> q(column, f) && q(column, g)
  }

  ghost predicate RespectsEquality(q: Property, same: FilterEquality) {
    forall column: nat, f, g | same(f, g) :: q(column, f) <==> q(column, g)
  }

  ghost predicate All(q: Property, filters: FilterSet) {
    forall column: nat | column in filters :: q(column, filters[column])
  }

  /** DuckDB's column ids leave room for this many columns. */
  predicate Fits(schema: Schema) {
    |schema| <= 0x8000_0000_0000_0000
  }

  lemma SchemaColumnsAreReal(schema: Schema, column: nat)
    requires Fits(schema) && column < |schema|
    ensures !IsVirtualColumn(column)
  {
  }

  /** Every filter of a pushdown on a column of the schema. */
  ghost predicate OnSchema(q: Property, p: Pushdown, schema: Schema) {
    match p
    case Complex(filters) => forall column: nat | column in filters && column < |schema| :: q(column, filters[column])
    case Dynamic(columnIds, filters) =>
      forall i | i in filters && i < |columnIds| && columnIds[i] < |schema| :: q(columnIds[i], filters[i])
  }

  lemma MeantOnSchema(q: Property, p: Pushdown, schema: Schema)
    requires Fits(schema)
    requires forall column: nat, f | column >= |schema| :: q(column, f)
    ensures Meant(q, p) <==> OnSchema(q, p, schema)
  {
    match p
    case Complex(filters) =>
      forall column: nat | column in filters ensures column < |schema| || q(column, filters[column]) {
      }
    case Dynamic(columnIds, filters) =>
      forall i | i in filters && i < |columnIds|
        ensures if columnIds[i] < |schema| then !IsVirtualColumn(columnIds[i]) else q(columnIds[i], filters[i])
      {
        if columnIds[i] < |schema| {
          SchemaColumnsAreReal(schema, columnIds[i]);
        }
      }
  }

  /** Every filter of a pushdown that names a real column. */
  ghost predicate Meant(q: Property, p: Pushdown) {
    match p
    case Complex(filters) => All(q, filters)
    case Dynamic(columnIds, filters) =>
      forall i | i in filters && i < |columnIds| && !IsVirtualColumn(columnIds[i]) :: q(columnIds[i], filters[i])
  }

  lemma CombineMeans(q: Property, base: FilterSet, added: FilterSet)
    requires AndLike(q)
    ensures All(q, Combine(base, added)) <==> All(q, base) && All(q, added)
  {
    var combined := Combine(base, added);
    forall column: nat | column in combined
      ensures q(column, combined[column]) <==>
              (column in base ==> q(column, base[column])) && (column in added ==> q(column, added[column]))
    {
    }
    assert forall column: nat | column in base :: column in combined;
    assert forall column: nat | column in added :: column in combined;
  }

  lemma PushMeans(q: Property, filters: FilterSet, column: nat, f: Filter)
    requires AndLike(q)
    ensures All(q, PushFilter(filters, column, f)) <==> All(q, filters) && q(column, f)
  {
    var pushed := PushFilter(filters, column, f);
    assert pushed == Combine(filters, map[column := f]);
    CombineMeans(q, filters, map[column := f]);
  }

  lemma {:induction false} NewFiltersMean(q: Property, list: FileList, p: Pushdown, indexes: seq<nat>,
                                          same: FilterEquality)
    requires AndLike(q)
    requires p.Dynamic? && forall i | i in indexes :: i in p.filters
    ensures All(q, NewFilters(list, p, indexes, same)) <==>
            forall i | i in indexes && IsNew(list, p, i, same) :: q(p.columnIds[i], p.filters[i])
  {
    if indexes != [] {
      var n := |indexes| - 1;
      NewFiltersMean(q, list, p, indexes[..n], same);
      assert indexes == indexes[..n] + [indexes[n]];
      if IsNew(list, p, indexes[n], same) {
        PushMeans(q, NewFilters(list, p, indexes[..n], same), p.columnIds[indexes[n]], p.filters[indexes[n]]);
      }
    }
  }

  /** On top of what a list has, a pushdown adds what it meant: filters dropped as already pushed add nothing. */
  lemma AddedMeans(q: Property, list: FileList, p: Pushdown, same: FilterEquality)
    requires AndLike(q) && RespectsEquality(q, same)
    requires All(q, list.filters)
    ensures All(q, Added(list, p, same)) <==> Meant(q, p)
  {
    if p.Dynamic? {
      NewFiltersMean(q, list, p, FilteredColumns(p.filters), same);
    }
  }

  /** An applied pushdown leaves exactly the old filters and the pushed ones. */
  lemma AppliedPushMeans(q: Property, list: FileList, p: Pushdown, same: FilterEquality)
    requires AndLike(q) && RespectsEquality(q, same)
    requires Applies(list, p, same)
    ensures All(q, Push(list, p, same).filters) <==> All(q, list.filters) && Meant(q, p)
  {
    CombineMeans(q, list.filters, Added(list, p, same));
    if All(q, list.filters) {
      AddedMeans(q, list, p, same);
    }
  }

  // ----- What one pushdown does -----

  /** Planning can use the filter at a projected position: it is on a column of the schema, it does not widen, and the
      list does not have it yet. */
  predicate Usable(list: FileList, columnIds: seq<nat>, index: nat, f: Filter, same: FilterEquality) {
    && index < |columnIds|
    && columnIds[index] < |list.info.schema|
    && !Widens(f)
    && (columnIds[index] in list.filters ==> !same(f, list.filters[columnIds[index]]))
  }

  lemma WidensAndPush(f: Filter, g: Filter)
    ensures Widens(AndPush(f, g)) <==> Widens(f) && Widens(g)
  {
    var fs := if f.And? then f.children else [f];
    var all := fs + [g];
    assert all[|fs|] == g && forall i | 0 <= i < |fs| :: all[i] == fs[i];
    assert Widens(f) <==> forall i | 0 <= i < |fs| :: Widens(fs[i]) by {
      assert !f.And? ==> fs[0] == f;
    }
    if Widens(f) && Widens(g) {
      assert forall i | 0 <= i < |all| :: Widens(all[i]);
    }
    if Widens(AndPush(f, g)) {
      assert Widens(all[|fs|]);
      forall i | 0 <= i < |fs| ensures Widens(fs[i]) {
        assert Widens(all[i]);
      }
    }
  }

  lemma DynamicAppliesExactly(list: FileList, columnIds: seq<nat>, filters: FilterSet, same: FilterEquality)
    requires Fits(list.info.schema)
    ensures Applies(list, Dynamic(columnIds, filters), same) <==>
            exists i | i in filters :: Usable(list, columnIds, i, filters[i], same)
  {
    var p, schema := Dynamic(columnIds, filters), list.info.schema;
    var q: Property := (column: nat, f: Filter) => column < |schema| ==> Widens(f);
    forall column: nat, f, g ensures q(column, AndPush(f, g)) <==> q(column, f) && q(column, g) {
      WidensAndPush(f, g);
    }
    NewFiltersMean(q, list, p, FilteredColumns(filters), same);
    CannotPruneExactly(Added(list, p, same), schema);
    assert All(q, Added(list, p, same)) <==> !Applies(list, p, same);
    forall i | i in filters
      ensures IsNew(list, p, i, same) && !q(columnIds[i], filters[i]) <==>
              Usable(list, columnIds, i, filters[i], same)
    {
      if i < |columnIds| && columnIds[i] < |schema| {
        SchemaColumnsAreReal(schema, columnIds[i]);
      }
    }
  }

  lemma NewFiltersAreReal(list: FileList, p: Pushdown, same: FilterEquality)
    requires p.Dynamic?
    ensures forall c | c in Added(list, p, same) :: c < 0x8000_0000_0000_0000
  {
    var q: Property := (column: nat, f: Filter) => column < 0x8000_0000_0000_0000;
    NewFiltersMean(q, list, p, FilteredColumns(p.filters), same);
    assert All(q, Added(list, p, same));
  }

  /** The list a pushdown yields reads the same scan, and keeps exactly what the old one and the pushdown keep. */
  ghost predicate Narrows(list: FileList, p: Pushdown, filtered: FileList, same: FilterEquality) {
    && filtered.info == list.info
    && (Faithful(same) && Fits(list.info.schema) ==>
          forall row, others ::
            KeepsOn(filtered.filters, list.info.schema, row, others) <==>
            KeepsOn(list.filters, list.info.schema, row, others) && PushdownKeeps(p, list.info.schema, row, others))
  }

  lemma PushNarrows(list: FileList, p: Pushdown, same: FilterEquality)
    ensures Applies(list, p, same) ==> Narrows(list, p, Push(list, p, same), same)
  {
    if Applies(list, p, same) && Faithful(same) && Fits(list.info.schema) {
      forall row, others
        ensures KeepsOn(Push(list, p, same).filters, list.info.schema, row, others) <==>
                KeepsOn(list.filters, list.info.schema, row, others) && PushdownKeeps(p, list.info.schema, row, others)
      {
        var q := KeepsAt(list.info.schema, row, others);
        KeepsAtIsAndLike(list.info.schema, row, others);
        AppliedPushMeans(q, list, p, same);
        MeantOnSchema(q, p, list.info.schema);
      }
    }
  }

  // ----- Runs of pushdowns -----

  ghost function Run(list: FileList, pushdowns: seq<Pushdown>, same: FilterEquality): FileList
    decreases |pushdowns|
  {
    if pushdowns == [] then list else Run(Push(list, pushdowns[0], same), pushdowns[1..], same)
  }

  /** The pushdowns of a run that produced a list. */
  ghost function Applied(list: FileList, pushdowns: seq<Pushdown>, same: FilterEquality): seq<Pushdown>
    decreases |pushdowns|
  {
    if pushdowns == [] then []
    else
      (if Applies(list, pushdowns[0], same) then [pushdowns[0]] else [])
      + Applied(Push(list, pushdowns[0], same), pushdowns[1..], same)
  }

  lemma {:induction false} AppliedRunMeans(q: Property, list: FileList, pushdowns: seq<Pushdown>, same: FilterEquality)
    requires AndLike(q) && RespectsEquality(q, same)
    ensures All(q, Run(list, pushdowns, same).filters) <==>
            All(q, list.filters) && forall p | p in Applied(list, pushdowns, same) :: Meant(q, p)
    decreases |pushdowns|
  {
    if pushdowns != [] {
      AppliedRunMeans(q, Push(list, pushdowns[0], same), pushdowns[1..], same);
      if Applies(list, pushdowns[0], same) {
        AppliedPushMeans(q, list, pushdowns[0], same);
      }
    }
  }

  ghost function KeepsAt(schema: Schema, row: E.Row, others: OtherFilters): Property {
    (column: nat, f: Filter) => column < |schema| ==> Eval(f, E.At(row, column), others).True?
  }

  /** The rows that every filter of a pushdown on a column of the schema keeps. */
  ghost predicate PushdownKeeps(p: Pushdown, schema: Schema, row: E.Row, others: OtherFilters) {
    OnSchema(KeepsAt(schema, row, others), p, schema)
  }

  lemma EvalAndSnoc(fs: seq<Filter>, g: Filter, v: Literals.Value, others: OtherFilters)
    ensures EvalAnd(fs + [g], v, others) == AndTruth(EvalAnd(fs, v, others), Eval(g, v, others))
  {
  }

  lemma EvalAndOne(f: Filter, v: Literals.Value, others: OtherFilters)
    ensures EvalAnd([f], v, others) == Eval(f, v, others)
  {
  }

  lemma EvalConjunction(fs: seq<Filter>, v: Literals.Value, others: OtherFilters)
    ensures Eval(And(fs), v, others) == EvalAnd(fs, v, others)
  {
  }

  lemma EvalAndPush(f: Filter, g: Filter, v: Literals.Value, others: OtherFilters)
    ensures Eval(AndPush(f, g), v, others) == AndTruth(Eval(f, v, others), Eval(g, v, others))
  {
    var fs := if f.And? then f.children else [f];
    assert EvalAnd(fs, v, others) == Eval(f, v, others) by {
      if f.And? {
        EvalConjunction(fs, v, others);
      } else {
        EvalAndOne(f, v, others);
      }
    }
    EvalConjunction(fs + [g], v, others);
    EvalAndSnoc(fs, g, v, others);
  }

  lemma KeepsAtIsAndLike(schema: Schema, row: E.Row, others: OtherFilters)
    ensures AndLike(KeepsAt(schema, row, others))
  {
    var q := KeepsAt(schema, row, others);
    forall column: nat, f, g ensures q(column, AndPush(f, g)) <==> q(column, f) && q(column, g) {
      EvalAndPush(f, g, E.At(row, column), others);
    }
  }

  /** After any run of pushdowns, the list's filters on the columns of its schema keep exactly the rows that its first
      filters there and every applied pushdown keep. */
  lemma FiltersAreConjunctionOfApplied(list: FileList, pushdowns: seq<Pushdown>, same: FilterEquality, row: E.Row,
                                       others: OtherFilters)
    requires Faithful(same) && Fits(list.info.schema)
    ensures KeepsOn(Run(list, pushdowns, same).filters, list.info.schema, row, others) <==>
            && KeepsOn(list.filters, list.info.schema, row, others)
            && forall p | p in Applied(list, pushdowns, same) :: PushdownKeeps(p, list.info.schema, row, others)
  {
    var q := KeepsAt(list.info.schema, row, others);
    KeepsAtIsAndLike(list.info.schema, row, others);
    AppliedRunMeans(q, list, pushdowns, same);
    forall p | p in Applied(list, pushdowns, same)
      ensures Meant(q, p) <==> PushdownKeeps(p, list.info.schema, row, others)
    {
      MeantOnSchema(q, p, list.info.schema);
    }
  }

  /** So no run of pushdowns, applied or skipped, makes planning drop a file holding a row they all keep. */
  lemma RunLosesNoRow(list: FileList, pushdowns: seq<Pushdown>, same: FilterEquality, keep: Planner, file: DataFile,
                      row: E.Row, others: OtherFilters)
    requires E.DistinctNames(list.info.schema) && Fits(list.info.schema)
    requires Faithful(same)
    requires Sound(keep, list.info.schema)
    requires row in file.rows
    requires KeepsOn(list.filters, list.info.schema, row, others)
    requires forall p | p in pushdowns :: PushdownKeeps(p, list.info.schema, row, others)
    ensures keep(file, PlanFilter(Run(list, pushdowns, same).filters, list.info.schema))
  {
    AppliedArePushed(list, pushdowns, same);
    FiltersAreConjunctionOfApplied(list, pushdowns, same, row, others);
    TranslateSetSound(Run(list, pushdowns, same).filters, list.info.schema, row, others);
  }

  lemma {:induction false} AppliedArePushed(list: FileList, pushdowns: seq<Pushdown>, same: FilterEquality)
    ensures forall p | p in Applied(list, pushdowns, same) :: p in pushdowns
    decreases |pushdowns|
  {
    if pushdowns != [] {
      AppliedArePushed(Push(list, pushdowns[0], same), pushdowns[1..], same);
    }
  }

  // ----- Skipping costs nothing -----

  lemma TranslateAndSnoc(fs: seq<Filter>, g: Filter, column: string)
    ensures TranslateAnd(fs + [g], column) == E.MakeAnd(TranslateAnd(fs, column), Translate(g, column))
  {
  }

  lemma TranslateAndOne(f: Filter, column: string)
    ensures TranslateAnd([f], column) == Translate(f, column)
  {
  }

  lemma TranslateAndPush(f: Filter, g: Filter, column: string)
    ensures Translate(AndPush(f, g), column) == E.MakeAnd(Translate(f, column), Translate(g, column))
  {
    if f.And? {
      TranslateAndSnoc(f.children, g, column);
    } else {
      TranslateAndSnoc([f], g, column);
      TranslateAndOne(f, column);
    }
  }

  ghost function PlannedAt(file: DataFile, schema: Schema, keep: Planner): Property {
    (column: nat, f: Filter) => column < |schema| ==> keep(file, Translate(f, schema[column].name))
  }

  lemma PlannedAtIsAndLike(file: DataFile, schema: Schema, keep: Planner)
    requires Conjunctive(keep)
    ensures AndLike(PlannedAt(file, schema, keep))
  {
    var q := PlannedAt(file, schema, keep);
    forall column: nat, f, g ensures q(column, AndPush(f, g)) <==> q(column, f) && q(column, g) {
      if column < |schema| {
        var name := schema[column].name;
        TranslateAndPush(f, g, name);
        assert keep(file, E.MakeAnd(Translate(f, name), Translate(g, name)))
            <==> keep(file, Translate(f, name)) && keep(file, Translate(g, name));
      }
    }
  }

  lemma PlannedAtRespectsEquality(file: DataFile, schema: Schema, keep: Planner, same: FilterEquality)
    requires Faithful(same)
    ensures RespectsEquality(PlannedAt(file, schema, keep), same)
  {
    var q := PlannedAt(file, schema, keep);
    forall column: nat, f, g | same(f, g) ensures q(column, f) <==> q(column, g) {
      if column < |schema| {
        assert Translate(f, schema[column].name) == Translate(g, schema[column].name);
      }
    }
  }

  lemma PlannedAtMeansKept(file: DataFile, schema: Schema, keep: Planner, filters: FilterSet)
    requires Conjunctive(keep)
    ensures All(PlannedAt(file, schema, keep), filters) <==> keep(file, TranslateSet(filters, schema))
  {
    var p := (e: E.Expression) => keep(file, e);
    assert E.RespectsAnd(p);
    TranslateSetRespects(filters, schema, p);
  }

  /** A pushdown, applied or skipped, leaves a list that plans a file exactly when the old one does and each pushed
      filter's own translation keeps it. */
  lemma PushPlans(list: FileList, p: Pushdown, same: FilterEquality, keep: Planner, file: DataFile)
    requires Conjunctive(keep) && Faithful(same) && Fits(list.info.schema)
    ensures keep(file, PlanFilter(Push(list, p, same).filters, list.info.schema)) <==>
            && keep(file, PlanFilter(list.filters, list.info.schema))
            && OnSchema(PlannedAt(file, list.info.schema, keep), p, list.info.schema)
  {
    var q := PlannedAt(file, list.info.schema, keep);
    MeantOnSchema(q, p, list.info.schema);
    PlannedAtIsAndLike(file, list.info.schema, keep);
    PlannedAtRespectsEquality(file, list.info.schema, keep, same);
    PlannedAtMeansKept(file, list.info.schema, keep, list.filters);
    PlannedAtMeansKept(file, list.info.schema, keep, Push(list, p, same).filters);
    if Applies(list, p, same) {
      AppliedPushMeans(q, list, p, same);
    } else if All(q, list.filters) {
      AddedMeans(q, list, p, same);
      PlannedAtMeansKept(file, list.info.schema, keep, Added(list, p, same));
    }
  }

  /** Over any run, the files planned are those an evaluator keeps for every filter ever pushed, skipped pushdowns
      included: skipping never changes a plan. */
  lemma {:induction false} RunPlansEveryPushdown(list: FileList, pushdowns: seq<Pushdown>, same: FilterEquality,
                                                 keep: Planner, file: DataFile)
    requires Conjunctive(keep) && Faithful(same) && Fits(list.info.schema)
    ensures keep(file, PlanFilter(Run(list, pushdowns, same).filters, list.info.schema)) <==>
            && keep(file, PlanFilter(list.filters, list.info.schema))
            && forall p | p in pushdowns :: OnSchema(PlannedAt(file, list.info.schema, keep), p, list.info.schema)
    decreases |pushdowns|
  {
    if pushdowns != [] {
      PushPlans(list, pushdowns[0], same, keep, file);
      RunPlansEveryPushdown(Push(list, pushdowns[0], same), pushdowns[1..], same, keep, file);
    }
  }

  /** Each list's files are among its parent's. */
  lemma RunPlansSubset(list: FileList, pushdowns: seq<Pushdown>, same: FilterEquality, keep: Planner,
                       files: seq<DataFile>, file: DataFile)
    requires Conjunctive(keep) && Faithful(same) && Fits(list.info.schema)
    requires file in Kept(files, PlanFilter(Run(list, pushdowns, same).filters, list.info.schema), keep)
    ensures file in Kept(files, PlanFilter(list.filters, list.info.schema), keep)
  {
    RunPlansEveryPushdown(list, pushdowns, same, keep, file);
    KeptMembers(files, PlanFilter(Run(list, pushdowns, same).filters, list.info.schema), keep, file);
    KeptMembers(files, PlanFilter(list.filters, list.info.schema), keep, file);
  }

  lemma {:induction false} KeptMembers(files: seq<DataFile>, e: E.Expression, keep: Planner, file: DataFile)
    ensures file in Kept(files, e, keep) <==> file in files && keep(file, e)
  {
    if files != [] {
      KeptMembers(files[..|files| - 1], e, keep, file);
    }
  }

  // The translation read off column by column, whether or not a column has a filter.

  function TranslateUpTo(n: nat, filters: FilterSet, schema: Schema): E.Expression
    requires n <= |schema|
  {
    if n == 0 then E.AlwaysTrue
    else
      var before := TranslateUpTo(n - 1, filters, schema);
      if n - 1 in filters then E.MakeAnd(before, Translate(filters[n - 1], schema[n - 1].name)) else before
  }

  lemma {:induction false} TranslateUpToAgrees(n: nat, f: FilterSet, g: FilterSet, schema: Schema)
    requires n <= |schema|
    requires forall c: nat | c < n :: (c in f <==> c in g) && (c in f ==> f[c] == g[c])
    ensures TranslateUpTo(n, f, schema) == TranslateUpTo(n, g, schema)
  {
    if n > 0 {
      TranslateUpToAgrees(n - 1, f, g, schema);
    }
  }

  lemma {:induction false} TranslateUpToStops(n: nat, m: nat, filters: FilterSet, schema: Schema)
    requires n <= m <= |schema|
    requires forall c: nat | n <= c < m :: c !in filters
    ensures TranslateUpTo(m, filters, schema) == TranslateUpTo(n, filters, schema)
    decreases m
  {
    if n < m {
      TranslateUpToStops(n, m - 1, filters, schema);
    }
  }

  lemma LastColumnUpTo(last: nat, before: FilterSet, filters: FilterSet, schema: Schema)
    requires last in filters && before == filters - {last}
    requires forall c | c in filters :: c <= last
    ensures TranslateUpTo(|schema|, filters, schema)
            == AddColumn(TranslateUpTo(|schema|, before, schema), last, filters[last], schema)
  {
    if last >= |schema| {
      TranslateUpToAgrees(|schema|, before, filters, schema);
    } else {
      TranslateUpToStops(last + 1, |schema|, filters, schema);
      TranslateUpToStops(last, |schema|, before, schema);
      TranslateUpToAgrees(last, before, filters, schema);
    }
  }

  lemma {:induction false} TranslateColumnsUpTo(columns: seq<nat>, filters: FilterSet, schema: Schema)
    requires Enumerates(columns, filters.Keys, NatLe)
    ensures TranslateColumns(columns, filters, schema) == TranslateUpTo(|schema|, filters, schema)
    decreases |columns|
  {
    if columns == [] {
      assert forall c | c in filters :: c in columns;
      TranslateUpToStops(0, |schema|, filters, schema);
    } else {
      var n := |columns| - 1;
      var last: nat := columns[n];
      var before: FilterSet := filters - {last};
      assert columns == columns[..n] + [last];
      assert Enumerates(columns[..n], before.Keys, NatLe);
      TranslateColumnsUpTo(columns[..n], before, schema);
      TranslateColumnsAgree(columns[..n], before, filters, schema);
      forall c | c in filters ensures c <= last {
        assert c in columns;
        var i :| 0 <= i < |columns| && columns[i] == c;
      }
      LastColumnUpTo(last, before, filters, schema);
    }
  }

  lemma {:induction false} TranslateColumnsAgree(columns: seq<nat>, f: FilterSet, g: FilterSet, schema: Schema)
    requires forall c | c in columns :: c in f && c in g && f[c] == g[c]
    ensures TranslateColumns(columns, f, schema) == TranslateColumns(columns, g, schema)
  {
    if columns != [] {
      TranslateColumnsAgree(columns[..|columns| - 1], f, g, schema);
    }
  }

  lemma {:induction false} CombineUpTo(n: nat, base: FilterSet, added: FilterSet, schema: Schema)
    requires n <= |schema|
    requires forall c: nat | c in added && c < |schema| :: Widens(added[c])
    ensures TranslateUpTo(n, Combine(base, added), schema) == TranslateUpTo(n, base, schema)
  {
    if n > 0 {
      CombineUpTo(n - 1, base, added, schema);
      var c, name := n - 1, schema[n - 1].name;
      if c in added {
        TranslationShape(added[c], name);
        if c in base {
          TranslateAndPush(base[c], added[c], name);
        }
      }
    }
  }

  /** A skipped pushdown would not have changed the planning filter at all: the combined set that would have been built
      translates to the very same expression. */
  lemma SkippedPushdownIsLossless(list: FileList, p: Pushdown, same: FilterEquality)
    requires !Applies(list, p, same)
    ensures PlanFilter(Combine(list.filters, Added(list, p, same)), list.info.schema)
            == PlanFilter(list.filters, list.info.schema)
  {
    var added := Added(list, p, same);
    var combined := Combine(list.filters, added);
    CannotPruneExactly(added, list.info.schema);
    TranslateColumnsUpTo(FilteredColumns(combined), combined, list.info.schema);
    TranslateColumnsUpTo(FilteredColumns(list.filters), list.filters, list.info.schema);
    CombineUpTo(|list.info.schema|, list.filters, added, list.info.schema);
  }
}
