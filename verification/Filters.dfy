/** Iceberg filter expressions, as Expressions::And and Expressions::Or build them. */
module Expressions {
  import opened Wrappers
  import opened Orders
  import opened IcebergTypes
  import opened Literals

  datatype Test = Compare(op: CmpOp, literal: Literal) | InList(literals: seq<Literal>) | NullTest | NotNullTest

  datatype Expression =
    | AlwaysTrue
    | AlwaysFalse
    | Test(column: string, test: Test)
    | And(left: Expression, right: Expression)
    | Or(left: Expression, right: Expression)
    | Not(inner: Expression)

  function MakeAnd(a: Expression, b: Expression): Expression {
    if a.AlwaysFalse? || b.AlwaysFalse? then AlwaysFalse
    else if a.AlwaysTrue? then b
    else if b.AlwaysTrue? then a
    else And(a, b)
  }

  function MakeOr(a: Expression, b: Expression): Expression {
    if a.AlwaysTrue? || b.AlwaysTrue? then AlwaysTrue
    else if a.AlwaysFalse? then b
    else if b.AlwaysFalse? then a
    else Or(a, b)
  }

  /** A row's values, by column index; columns past its end, such as virtual ones, read as NULL. */
  type Row = seq<Value>

  function At(row: Row, column: nat): Value {
    if column < |row| then row[column] else Null
  }

  predicate DistinctNames(schema: Schema) {
    forall i, j | 0 <= i < j < |schema| :: schema[i].name != schema[j].name
  }

  /** The value of the column an expression names. */
  function Named(row: Row, schema: Schema, name: string): Value {
    if schema == [] then Null
    else if schema[|schema| - 1].name == name then At(row, |schema| - 1)
    else Named(row, schema[..|schema| - 1], name)
  }

  lemma {:induction false} NamedAt(row: Row, schema: Schema, i: nat)
    requires DistinctNames(schema)
    requires i < |schema|
    ensures Named(row, schema, schema[i].name) == At(row, i)
  {
    if i < |schema| - 1 {
      NamedAt(row, schema[..|schema| - 1], i);
    }
  }

  /** Whether a value, as Iceberg stores it, stands in the given relation to a literal. */
  predicate Related(op: CmpOp, v: Value, literal: Literal) {
    match Stored(v)
    case None => false
    case Some(l) =>
      match LiteralCompare(l, literal)
      case None => false
      case Some(sign) => Holds(op, sign)
  }

  /** Iceberg's row test is two-valued: NULL passes != and fails every other comparison; NaN data ranks greatest. */
  predicate Passes(test: Test, v: Value) {
    match test
    case NullTest => v.Null?
    case NotNullTest => !v.Null?
    case Compare(op, literal) => if op == Ne then !Related(Eq, v, literal) else Related(op, v, literal)
    case InList(literals) => exists i | 0 <= i < |literals| :: Related(Eq, v, literals[i])
  }

  predicate Accepts(e: Expression, row: Row, schema: Schema) {
    match e
    case AlwaysTrue => true
    case AlwaysFalse => false
    case Test(column, test) => Passes(test, Named(row, schema, column))
    case And(a, b) => Accepts(a, row, schema) && Accepts(b, row, schema)
    case Or(a, b) => Accepts(a, row, schema) || Accepts(b, row, schema)
    case Not(a) => !Accepts(a, row, schema)
  }

  /** No subexpression is AlwaysTrue or AlwaysFalse, and none is a negation. */
  predicate Pure(e: Expression) {
    match e
    case Test(_, _) => true
    case And(a, b) => Pure(a) && Pure(b)
    case Or(a, b) => Pure(a) && Pure(b)
    case _ => false
  }

  /** A property of expressions that holds of a conjunction exactly when it holds of both conjuncts. */
  ghost predicate RespectsAnd(p: Expression -> bool) {
    p(AlwaysTrue) && forall a, b :: p(MakeAnd(a, b)) <==> p(a) && p(b)
  }
}

/** DuckDB's table filters and their translation to Iceberg expressions. */
module Filters {
  import opened Wrappers
  import opened Ordered
  import opened Orders
  import opened IcebergTypes
  import opened Literals
  import E = Expressions

  datatype Truth = True | False | Unknown

  datatype Comparison = Plain(op: CmpOp) | DistinctFrom | NotDistinctFrom

  datatype Filter =
    | Constant(comparison: Comparison, constant: Value)
    | IsNull
    | IsNotNull
    | In(values: seq<Value>)
    | And(children: seq<Filter>)
    | Or(children: seq<Filter>)
    | Optional(child: Option<Filter>)
    | Other(id: nat)  // every filter type the extension does not translate

  /** What the untranslated filters say of a value. */
  type OtherFilters = (nat, Value) -> Truth

  function AndTruth(a: Truth, b: Truth): Truth {
    if a.False? || b.False? then False else if a.True? && b.True? then True else Unknown
  }

  function OrTruth(a: Truth, b: Truth): Truth {
    if a.True? || b.True? then True else if a.False? && b.False? then False else Unknown
  }

  function FromBool(b: bool): Truth {
    if b then True else False
  }

  function EvalComparison(comparison: Comparison, v: Value, c: Value): Truth {
    match comparison
    case Plain(op) =>
      (match DuckCompare(v, c)
       case Some(sign) => FromBool(Holds(op, sign))
       case None => Unknown)
    case DistinctFrom => FromBool(!SameValue(v, c))
    case NotDistinctFrom => FromBool(SameValue(v, c))
  }

  predicate SameValue(v: Value, c: Value) {
    (v.Null? && c.Null?) || DuckCompare(v, c) == Some(Equal)
  }

  function EvalIn(values: seq<Value>, v: Value): Truth {
    if values == [] then False
    else OrTruth(EvalIn(values[..|values| - 1], v), EvalComparison(Plain(Eq), v, values[|values| - 1]))
  }

  /** DuckDB's three-valued meaning of a filter on a column value. An optional filter means its child. */
  function Eval(f: Filter, v: Value, others: OtherFilters): Truth {
    match f
    case Constant(comparison, c) => EvalComparison(comparison, v, c)
    case IsNull => FromBool(v.Null?)
    case IsNotNull => FromBool(!v.Null?)
    case In(values) => EvalIn(values, v)
    case And(children) => EvalAnd(children, v, others)
    case Or(children) => EvalOr(children, v, others)
    case Optional(child) => if child.Some? then Eval(child.value, v, others) else True
    case Other(id) => others(id, v)
  }

  function EvalAnd(fs: seq<Filter>, v: Value, others: OtherFilters): Truth {
    if fs == [] then True
    else AndTruth(EvalAnd(fs[..|fs| - 1], v, others), Eval(fs[|fs| - 1], v, others))
  }

  function EvalOr(fs: seq<Filter>, v: Value, others: OtherFilters): Truth {
    if fs == [] then False
    else OrTruth(EvalOr(fs[..|fs| - 1], v, others), Eval(fs[|fs| - 1], v, others))
  }

  // ----- Translation -----

  function TranslateConstant(column: string, comparison: Comparison, c: Value): E.Expression {
    match (ConvertFilterConstant(c), comparison)
    case (Some(literal), Plain(op)) => E.Test(column, E.Compare(op, literal))
    case _ => E.AlwaysTrue
  }

  predicate AllConvert(values: seq<Value>) {
    forall i | 0 <= i < |values| :: ConvertFilterConstant(values[i]).Some?
  }

  function Convert(values: seq<Value>): seq<Literal>
    requires AllConvert(values)
  {
    seq(|values|, i requires 0 <= i < |values| => ConvertFilterConstant(values[i]).value)
  }

  function TranslateIn(column: string, values: seq<Value>): E.Expression {
    if AllConvert(values) then E.Test(column, E.InList(Convert(values))) else E.AlwaysTrue
  }

  /** A filter's translation, widening to AlwaysTrue whatever cannot be translated. */
  function Translate(f: Filter, column: string): E.Expression {
    match f
    case Constant(comparison, c) => TranslateConstant(column, comparison, c)
    case IsNull => E.Test(column, E.NullTest)
    case IsNotNull => E.Test(column, E.NotNullTest)
    case In(values) => TranslateIn(column, values)
    case And(children) => TranslateAnd(children, column)
    case Or(children) => TranslateOr(children, column)
    case Optional(child) => if child.Some? then Translate(child.value, column) else E.AlwaysTrue
    case Other(_) => E.AlwaysTrue
  }

  function TranslateAnd(fs: seq<Filter>, column: string): E.Expression {
    if fs == [] then E.AlwaysTrue
    else E.MakeAnd(TranslateAnd(fs[..|fs| - 1], column), Translate(fs[|fs| - 1], column))
  }

  function TranslateOr(fs: seq<Filter>, column: string): E.Expression {
    if fs == [] then E.AlwaysFalse
    else E.MakeOr(TranslateOr(fs[..|fs| - 1], column), Translate(fs[|fs| - 1], column))
  }

  method TranslateInFilter(column: string, values: seq<Value>) returns (e: E.Expression)
    ensures e == TranslateIn(column, values)
  {
    var literals: seq<Literal> := [];
    for i := 0 to |values|
      invariant AllConvert(values[..i])
      invariant literals == Convert(values[..i])
    {
      var literal := ConvertFilterConstant(values[i]);
      if literal.None? {
        return E.AlwaysTrue;
      }
      literals := literals + [literal.value];
    }
    assert values[..|values|] == values;
    e := E.Test(column, E.InList(literals));
  }

  // ----- Filter sets -----

  /** TableFilterSet: one filter a column, visited in column order. */
  type FilterSet = map<nat, Filter>

  predicate NatLe(a: nat, b: nat) {
    a <= b
  }

  lemma NatIsTotalOrder()
    ensures TotalOrder(NatLe)
  {
  }

  ghost function FilteredColumns(filters: FilterSet): (columns: seq<nat>)
    ensures TotalOrder(NatLe) && Enumerates(columns, filters.Keys, NatLe)
  {
    NatIsTotalOrder();
    Ascending(filters.Keys, NatLe)
  }

  function TranslateColumns(columns: seq<nat>, filters: FilterSet, schema: Schema): E.Expression
    requires forall c | c in columns :: c in filters
  {
    if columns == [] then E.AlwaysTrue
    else
      var n := |columns| - 1;
      var before := TranslateColumns(columns[..n], filters, schema);
      AddColumn(before, columns[n], filters[columns[n]], schema)
  }

  ghost function TranslateSet(filters: FilterSet, schema: Schema): E.Expression {
    TranslateColumns(FilteredColumns(filters), filters, schema)
  }

  /** One column's contribution to the translation. */
  function AddColumn(before: E.Expression, column: nat, f: Filter, schema: Schema): E.Expression {
    if column >= |schema| then before else E.MakeAnd(before, Translate(f, schema[column].name))
  }

  method TranslateOrWidenFilters(filters: FilterSet, schema: Schema) returns (combined: E.Expression)
    ensures combined == TranslateSet(filters, schema)
  {
    NatIsTotalOrder();
    combined := E.AlwaysTrue;
    var rest := filters.Keys;
    ghost var done: seq<nat> := [];
    while rest != {}
      invariant Visiting(done, rest, filters.Keys, NatLe)
      invariant forall c | c in done :: c in filters
      invariant combined == TranslateColumns(done, filters, schema)
      decreases |rest|
    {
      ghost var least := LeastExists(rest, NatLe);
      var column :| column in rest && forall c | c in rest :: column <= c;
      VisitNext(done, column, rest, filters.Keys, NatLe);
      assert (done + [column])[..|done|] == done;
      rest, done := rest - {column}, done + [column];
      combined := AddColumn(combined, column, filters[column], schema);
    }
    VisitEnds(done, filters.Keys, NatLe);
  }

  /** The rows a filter set keeps. */
  predicate Keeps(filters: FilterSet, row: E.Row, others: OtherFilters) {
    forall column | column in filters :: Eval(filters[column], E.At(row, column), others).True?
  }

  /** The rows its filters on the columns of a schema keep. */
  predicate KeepsOn(filters: FilterSet, schema: Schema, row: E.Row, others: OtherFilters) {
    forall column | column in filters && column < |schema| :: Eval(filters[column], E.At(row, column), others).True?
  }

  /** A column's second filter joins its first in a conjunction, which the first may already be. */
  function AndPush(first: Filter, second: Filter): Filter {
    And((if first.And? then first.children else [first]) + [second])
  }

  /** TableFilterSet::PushFilter. */
  function PushFilter(filters: FilterSet, column: nat, f: Filter): FilterSet {
    filters[column := if column in filters then AndPush(filters[column], f) else f]
  }

  // ----- What a translation promises -----

  lemma {:induction false} EvalInExactly(values: seq<Value>, v: Value)
    ensures EvalIn(values, v).True? <==> exists i | 0 <= i < |values| :: DuckCompare(v, values[i]) == Some(Equal)
  {
    if values != [] {
      var n := |values| - 1;
      EvalInExactly(values[..n], v);
      assert forall i | 0 <= i < n :: values[..n][i] == values[i];
    }
  }

  lemma TranslateInSound(values: seq<Value>, v: Value)
    requires AllConvert(values)
    requires EvalIn(values, v).True?
    ensures E.Passes(E.InList(Convert(values)), v)
  {
    EvalInExactly(values, v);
    var i :| 0 <= i < |values| && DuckCompare(v, values[i]) == Some(Equal);
    ConversionEmbedsOrder(v, values[i], Eq);
    assert E.Related(Eq, v, Convert(values)[i]);
  }

  lemma ConstantsConvertAll(values: seq<Value>)
    ensures AllConvert(values) <==> forall i | 0 <= i < |values| :: Pushable(values[i])
  {
    forall i | 0 <= i < |values| ensures ConvertFilterConstant(values[i]).Some? <==> Pushable(values[i]) {
      ConstantsConvertExactly(values[i]);
    }
  }

  /** For a value of the constants' own type, a translated IN accepts exactly what the filter keeps. */
  lemma TranslateInExactly(values: seq<Value>, v: Value)
    requires AllConvert(values)
    requires forall i | 0 <= i < |values| :: DuckCompare(v, values[i]).Some?
    ensures E.Passes(E.InList(Convert(values)), v) <==> EvalIn(values, v).True?
  {
    EvalInExactly(values, v);
    forall i | 0 <= i < |values|
      ensures E.Related(Eq, v, Convert(values)[i]) <==> DuckCompare(v, values[i]) == Some(Equal)
    {
      ConversionEmbedsOrder(v, values[i], Eq);
    }
  }

  /** Translation only weakens: a row whose value the filter keeps is accepted. */
  lemma {:induction false} TranslateSound(f: Filter, column: string, row: E.Row, schema: Schema, others: OtherFilters)
    requires Eval(f, E.Named(row, schema, column), others).True?
    ensures E.Accepts(Translate(f, column), row, schema)
    decreases f
  {
    var v := E.Named(row, schema, column);
    match f
    case Constant(comparison, c) =>
      if comparison.Plain? && ConvertFilterConstant(c).Some? {
        ConversionEmbedsOrder(v, c, if comparison.op == Ne then Eq else comparison.op);
      }
    case In(values) =>
      if AllConvert(values) {
        TranslateInSound(values, v);
      }
    case And(children) => TranslateAndSound(children, column, row, schema, others);
    case Or(children) => TranslateOrSound(children, column, row, schema, others);
    case Optional(child) =>
      if child.Some? {
        TranslateSound(child.value, column, row, schema, others);
      }
    case _ =>
  }

  lemma {:induction false} TranslateAndSound(fs: seq<Filter>, column: string, row: E.Row, schema: Schema,
                                             others: OtherFilters)
    requires EvalAnd(fs, E.Named(row, schema, column), others).True?
    ensures E.Accepts(TranslateAnd(fs, column), row, schema)
    decreases fs
  {
    if fs != [] {
      TranslateAndSound(fs[..|fs| - 1], column, row, schema, others);
      TranslateSound(fs[|fs| - 1], column, row, schema, others);
    }
  }

  lemma {:induction false} TranslateOrSound(fs: seq<Filter>, column: string, row: E.Row, schema: Schema,
                                            others: OtherFilters)
    requires EvalOr(fs, E.Named(row, schema, column), others).True?
    ensures E.Accepts(TranslateOr(fs, column), row, schema)
    decreases fs
  {
    if EvalOr(fs[..|fs| - 1], E.Named(row, schema, column), others).True? {
      TranslateOrSound(fs[..|fs| - 1], column, row, schema, others);
    } else {
      TranslateSound(fs[|fs| - 1], column, row, schema, others);
    }
  }

  /** A property that respects conjunction holds of a set's translation exactly when it holds column by column. */
  lemma {:induction false} TranslateColumnsRespects(columns: seq<nat>, filters: FilterSet, schema: Schema,
                                                    p: E.Expression -> bool)
    requires forall c | c in columns :: c in filters
    requires E.RespectsAnd(p)
    ensures p(TranslateColumns(columns, filters, schema)) <==>
            forall c | c in columns && c < |schema| :: p(Translate(filters[c], schema[c].name))
  {
    if columns != [] {
      var n := |columns| - 1;
      TranslateColumnsRespects(columns[..n], filters, schema, p);
      assert columns == columns[..n] + [columns[n]];
    }
  }

  lemma TranslateSetRespects(filters: FilterSet, schema: Schema, p: E.Expression -> bool)
    requires E.RespectsAnd(p)
    ensures p(TranslateSet(filters, schema)) <==>
            forall c | c in filters && c < |schema| :: p(Translate(filters[c], schema[c].name))
  {
    TranslateColumnsRespects(FilteredColumns(filters), filters, schema, p);
  }

  /** Whatever row the filters on the schema's columns keep, the translation of the set accepts. */
  lemma TranslateSetSound(filters: FilterSet, schema: Schema, row: E.Row, others: OtherFilters)
    requires E.DistinctNames(schema)
    requires KeepsOn(filters, schema, row, others)
    ensures E.Accepts(TranslateSet(filters, schema), row, schema)
  {
    var p := (e: E.Expression) => E.Accepts(e, row, schema);
    forall c | c in filters && c < |schema| ensures p(Translate(filters[c], schema[c].name)) {
      E.NamedAt(row, schema, c);
      TranslateSound(filters[c], schema[c].name, row, schema, others);
    }
    TranslateSetRespects(filters, schema, p);
  }

  // ----- Exactly what a translation accepts -----

  /** What a translation asks of a value. Parts that are not translated ask nothing, and != lets NULL by. */
  predicate Asks(f: Filter, v: Value) {
    match f
    case Constant(comparison, c) =>
      comparison.Plain? && Pushable(c) ==>
        if v.Null? then comparison.op == Ne
        else DuckCompare(v, c).Some? && Holds(comparison.op, DuckCompare(v, c).value)
    case IsNull => v.Null?
    case IsNotNull => !v.Null?
    case In(values) =>
      (forall i | 0 <= i < |values| :: Pushable(values[i])) ==>
        exists i | 0 <= i < |values| :: DuckCompare(v, values[i]) == Some(Equal)
    case And(children) => forall i | 0 <= i < |children| :: Asks(children[i], v)
    case Or(children) => exists i | 0 <= i < |children| :: Asks(children[i], v)
    case Optional(child) => child.Some? ==> Asks(child.value, v)
    case Other(_) => true
  }

  /** Every pushed-down constant of the filter is of the value's type, unless the value is NULL. */
  predicate Comparable(f: Filter, v: Value) {
    match f
    case Constant(_, c) => v.Null? || !Pushable(c) || DuckCompare(v, c).Some?
    case In(values) =>
      v.Null? || forall i | 0 <= i < |values| :: !Pushable(values[i]) || DuckCompare(v, values[i]).Some?
    case And(children) => forall i | 0 <= i < |children| :: Comparable(children[i], v)
    case Or(children) => forall i | 0 <= i < |children| :: Comparable(children[i], v)
    case Optional(child) => child.Some? ==> Comparable(child.value, v)
    case _ => true
  }

  lemma ConstantAsks(comparison: Comparison, c: Value, v: Value)
    requires comparison.Plain? && Pushable(c)
    requires v.Null? || DuckCompare(v, c).Some?
    ensures ConvertFilterConstant(c).Some?
    ensures E.Passes(E.Compare(comparison.op, ConvertFilterConstant(c).value), v) <==>
            Asks(Constant(comparison, c), v)
  {
    ConstantsConvertExactly(c);
    if !v.Null? {
      ConversionEmbedsOrder(v, c, if comparison.op == Ne then Eq else comparison.op);
    }
  }

  lemma InAsks(values: seq<Value>, v: Value)
    requires AllConvert(values) && Comparable(In(values), v)
    ensures E.Passes(E.InList(Convert(values)), v) <==> Asks(In(values), v)
  {
    ConstantsConvertAll(values);
    if !v.Null? {
      EvalInExactly(values, v);
      TranslateInExactly(values, v);
    }
  }

  lemma {:induction false} AcceptsAndOr(fs: seq<Filter>, column: string, row: E.Row, schema: Schema)
    ensures E.Accepts(TranslateAnd(fs, column), row, schema) <==>
            forall i | 0 <= i < |fs| :: E.Accepts(Translate(fs[i], column), row, schema)
    ensures E.Accepts(TranslateOr(fs, column), row, schema) <==>
            exists i | 0 <= i < |fs| :: E.Accepts(Translate(fs[i], column), row, schema)
  {
    if fs != [] {
      var n := |fs| - 1;
      AcceptsAndOr(fs[..n], column, row, schema);
      assert forall i | 0 <= i < n :: fs[..n][i] == fs[i];
    }
  }

  /** A translation accepts exactly the values it asks for: no operator is weakened, no part left out or added. */
  lemma {:induction false} TranslateExactly(f: Filter, column: string, row: E.Row, schema: Schema)
    requires Comparable(f, E.Named(row, schema, column))
    ensures E.Accepts(Translate(f, column), row, schema) <==> Asks(f, E.Named(row, schema, column))
    decreases f, 1
  {
    var v := E.Named(row, schema, column);
    match f
    case Constant(comparison, c) =>
      ConstantsConvertExactly(c);
      if comparison.Plain? && Pushable(c) {
        ConstantAsks(comparison, c, v);
      }
    case In(values) =>
      ConstantsConvertAll(values);
      if AllConvert(values) {
        InAsks(values, v);
      }
    case And(children) =>
      TranslateEachExactly(f, children, column, row, schema);
      AcceptsAndOr(children, column, row, schema);
    case Or(children) =>
      TranslateEachExactly(f, children, column, row, schema);
      AcceptsAndOr(children, column, row, schema);
    case Optional(child) =>
      if child.Some? {
        TranslateExactly(child.value, column, row, schema);
      }
    case _ =>
  }

  lemma TranslateEachExactly(f: Filter, fs: seq<Filter>, column: string, row: E.Row, schema: Schema)
    requires forall i | 0 <= i < |fs| :: fs[i] < f && Comparable(fs[i], E.Named(row, schema, column))
    ensures forall i | 0 <= i < |fs| ::
              E.Accepts(Translate(fs[i], column), row, schema) <==> Asks(fs[i], E.Named(row, schema, column))
    decreases f, 0
  {
    forall i | 0 <= i < |fs|
      ensures E.Accepts(Translate(fs[i], column), row, schema) <==> Asks(fs[i], E.Named(row, schema, column))
    {
      TranslateExactly(fs[i], column, row, schema);
    }
  }

  /** The same of a filter set: its translation accepts a row exactly when each filter on a column of the schema asks
      for the row's value there. */
  lemma TranslateSetExactly(filters: FilterSet, schema: Schema, row: E.Row)
    requires E.DistinctNames(schema)
    requires forall c | c in filters && c < |schema| :: Comparable(filters[c], E.At(row, c))
    ensures E.Accepts(TranslateSet(filters, schema), row, schema) <==>
            forall c | c in filters && c < |schema| :: Asks(filters[c], E.At(row, c))
  {
    var p := (e: E.Expression) => E.Accepts(e, row, schema);
    forall c | c in filters && c < |schema|
      ensures p(Translate(filters[c], schema[c].name)) <==> Asks(filters[c], E.At(row, c))
    {
      E.NamedAt(row, schema, c);
      TranslateExactly(filters[c], schema[c].name, row, schema);
    }
    TranslateSetRespects(filters, schema, p);
  }

  /** No part of the filter widens. */
  predicate Translated(f: Filter) {
    match f
    case Constant(comparison, c) => comparison.Plain? && Pushable(c)
    case In(values) => forall i | 0 <= i < |values| :: Pushable(values[i])
    case And(children) => forall i | 0 <= i < |children| :: Translated(children[i])
    case Or(children) => forall i | 0 <= i < |children| :: Translated(children[i])
    case Optional(child) => child.Some? && Translated(child.value)
    case Other(_) => false
    case _ => true
  }

  /** Every constant of the filter is of the value's type. */
  predicate Typed(f: Filter, v: Value) {
    match f
    case Constant(_, c) => DuckCompare(v, c).Some?
    case In(values) => forall i | 0 <= i < |values| :: DuckCompare(v, values[i]).Some?
    case And(children) => forall i | 0 <= i < |children| :: Typed(children[i], v)
    case Or(children) => forall i | 0 <= i < |children| :: Typed(children[i], v)
    case Optional(child) => child.Some? ==> Typed(child.value, v)
    case _ => true
  }

  lemma {:induction false} EvalAndOr(fs: seq<Filter>, v: Value, others: OtherFilters)
    ensures EvalAnd(fs, v, others).True? <==> forall i | 0 <= i < |fs| :: Eval(fs[i], v, others).True?
    ensures EvalOr(fs, v, others).True? <==> exists i | 0 <= i < |fs| :: Eval(fs[i], v, others).True?
  {
    if fs != [] {
      var n := |fs| - 1;
      EvalAndOr(fs[..n], v, others);
      assert forall i | 0 <= i < n :: fs[..n][i] == fs[i];
    }
  }

  lemma ConjunctionAsks(fs: seq<Filter>, v: Value, others: OtherFilters)
    requires forall i | 0 <= i < |fs| :: Comparable(fs[i], v) && (Asks(fs[i], v) <==> Eval(fs[i], v, others).True?)
    ensures Comparable(And(fs), v) && (Asks(And(fs), v) <==> Eval(And(fs), v, others).True?)
  {
    EvalAndOr(fs, v, others);
  }

  lemma DisjunctionAsks(fs: seq<Filter>, v: Value, others: OtherFilters)
    requires forall i | 0 <= i < |fs| :: Comparable(fs[i], v) && (Asks(fs[i], v) <==> Eval(fs[i], v, others).True?)
    ensures Comparable(Or(fs), v) && (Asks(Or(fs), v) <==> Eval(Or(fs), v, others).True?)
  {
    EvalAndOr(fs, v, others);
  }

  lemma {:induction false} AsksWhatItMeans(f: Filter, v: Value, others: OtherFilters)
    requires Translated(f) && Typed(f, v)
    ensures Comparable(f, v)
    ensures Asks(f, v) <==> Eval(f, v, others).True?
    decreases f, 1
  {
    match f
    case In(values) => EvalInExactly(values, v);
    case And(children) =>
      EachAsksWhatItMeans(f, children, v, others);
      ConjunctionAsks(children, v, others);
    case Or(children) =>
      EachAsksWhatItMeans(f, children, v, others);
      DisjunctionAsks(children, v, others);
    case Optional(child) => AsksWhatItMeans(child.value, v, others);
    case _ =>
  }

  lemma EachAsksWhatItMeans(f: Filter, fs: seq<Filter>, v: Value, others: OtherFilters)
    requires forall i | 0 <= i < |fs| :: fs[i] < f && Translated(fs[i]) && Typed(fs[i], v)
    ensures forall i | 0 <= i < |fs| :: Comparable(fs[i], v) && (Asks(fs[i], v) <==> Eval(fs[i], v, others).True?)
    decreases f, 0
  {
    forall i | 0 <= i < |fs| ensures Comparable(fs[i], v) && (Asks(fs[i], v) <==> Eval(fs[i], v, others).True?) {
      AsksWhatItMeans(fs[i], v, others);
    }
  }

  /** Where nothing widens, a set's translation accepts exactly the rows the set keeps. */
  lemma TranslatedSetKeepsExactly(filters: FilterSet, schema: Schema, row: E.Row, others: OtherFilters)
    requires E.DistinctNames(schema)
    requires forall c | c in filters :: c < |schema| && Translated(filters[c]) && Typed(filters[c], E.At(row, c))
    ensures E.Accepts(TranslateSet(filters, schema), row, schema) <==> Keeps(filters, row, others)
  {
    forall c | c in filters
      ensures Comparable(filters[c], E.At(row, c))
      ensures Asks(filters[c], E.At(row, c)) <==> Eval(filters[c], E.At(row, c), others).True?
    {
      AsksWhatItMeans(filters[c], E.At(row, c), others);
    }
    TranslateSetExactly(filters, schema, row);
  }

  // ----- Which filters can prune -----

  /** Decides, without translating, whether a filter widens to AlwaysTrue. */
  predicate Widens(f: Filter) {
    match f
    case Constant(comparison, c) => !comparison.Plain? || !Pushable(c)
    case IsNull => false
    case IsNotNull => false
    case In(values) => exists i | 0 <= i < |values| :: !Pushable(values[i])
    case And(children) => forall i | 0 <= i < |children| :: Widens(children[i])
    case Or(children) => exists i | 0 <= i < |children| :: Widens(children[i])
    case Optional(child) => child.None? || Widens(child.value)
    case Other(_) => true
  }

  /** Decides whether a filter translates to AlwaysFalse: only through a disjunction of nothing. */
  predicate Empties(f: Filter) {
    match f
    case And(children) => exists i | 0 <= i < |children| :: Empties(children[i])
    case Or(children) => forall i | 0 <= i < |children| :: Empties(children[i])
    case Optional(child) => child.Some? && Empties(child.value)
    case _ => false
  }

  /** A translation is AlwaysTrue, AlwaysFalse or free of both and of negation, and which of them is decided by the
      filter's shape alone. */
  lemma {:induction false} TranslationShape(f: Filter, column: string)
    ensures Translate(f, column) == E.AlwaysTrue <==> Widens(f)
    ensures Translate(f, column) == E.AlwaysFalse <==> Empties(f)
    ensures E.Pure(Translate(f, column)) <==> !Widens(f) && !Empties(f)
    decreases f
  {
    match f
    case And(children) => AndShape(children, column);
    case Or(children) => OrShape(children, column);
    case Optional(child) =>
      if child.Some? {
        TranslationShape(child.value, column);
      }
    case Constant(_, c) => ConstantsConvertExactly(c);
    case In(values) => ConstantsConvertAll(values);
    case _ =>
  }

  lemma {:induction false} AndShape(fs: seq<Filter>, column: string)
    ensures TranslateAnd(fs, column) == E.AlwaysTrue <==> forall i | 0 <= i < |fs| :: Widens(fs[i])
    ensures TranslateAnd(fs, column) == E.AlwaysFalse <==> exists i | 0 <= i < |fs| :: Empties(fs[i])
    ensures TranslateAnd(fs, column).AlwaysTrue? || TranslateAnd(fs, column).AlwaysFalse? ||
            E.Pure(TranslateAnd(fs, column))
    decreases fs
  {
    if fs != [] {
      var n := |fs| - 1;
      AndShape(fs[..n], column);
      TranslationShape(fs[n], column);
      assert forall i | 0 <= i < n :: fs[..n][i] == fs[i];
    }
  }

  lemma {:induction false} OrShape(fs: seq<Filter>, column: string)
    ensures TranslateOr(fs, column) == E.AlwaysFalse <==> forall i | 0 <= i < |fs| :: Empties(fs[i])
    ensures TranslateOr(fs, column) == E.AlwaysTrue <==> exists i | 0 <= i < |fs| :: Widens(fs[i])
    ensures TranslateOr(fs, column).AlwaysTrue? || TranslateOr(fs, column).AlwaysFalse? ||
            E.Pure(TranslateOr(fs, column))
    decreases fs
  {
    if fs != [] {
      var n := |fs| - 1;
      OrShape(fs[..n], column);
      TranslationShape(fs[n], column);
      assert forall i | 0 <= i < n :: fs[..n][i] == fs[i];
    }
  }

  /** CanPrunePlanning says no exactly when every filter on a column of the schema widens. */
  lemma CannotPruneExactly(filters: FilterSet, schema: Schema)
    ensures TranslateSet(filters, schema) == E.AlwaysTrue <==>
            forall c | c in filters && c < |schema| :: Widens(filters[c])
  {
    var p := (e: E.Expression) => e == E.AlwaysTrue;
    TranslateSetRespects(filters, schema, p);
    forall c | c in filters && c < |schema|
      ensures p(Translate(filters[c], schema[c].name)) <==> Widens(filters[c])
    {
      TranslationShape(filters[c], schema[c].name);
    }
  }
}
