/** Iceberg types and schema fields. */
module IcebergTypes {
  datatype Type =
    | Boolean | Int | Long | Float | Double | String | Binary | Date | Time | Timestamp | TimestampTz | Uuid
    | Fixed(length: nat)
    | Decimal(precision: nat, scale: nat)
    | List(element: Field)
    | Map(key: Field, value: Field)
    | Struct(fields: seq<Field>)
    | Other(typeName: string)  // every type id the extension does not map

  datatype Field = Field(id: int, name: string, fieldType: Type)

  type Schema = seq<Field>
}

/** The DuckDB types and column definitions built from an Iceberg schema. */
module Columns {
  import opened Wrappers
  import opened IcebergTypes

  datatype LogicalType =
    | BOOLEAN | INTEGER | BIGINT | FLOAT | DOUBLE | VARCHAR | BLOB | DATE | TIME | TIMESTAMP | TIMESTAMP_TZ | UUID
    | DECIMAL(width: nat, decimalScale: nat)
    | LIST(child: LogicalType)
    | MAP(keyType: LogicalType, valueType: LogicalType)
    | STRUCT(members: seq<(string, LogicalType)>)

  /** defaultType is the type of the NULL a field missing from a data file reads back as. */
  datatype Column = Column(name: string, columnType: LogicalType, identifier: int, defaultType: LogicalType,
                           children: seq<Column>)

  /** None stands for the InvalidInputException thrown for an unsupported type. */
  function MapType(t: Type): Option<LogicalType> {
    match t
    case Boolean => Some(BOOLEAN)
    case Int => Some(INTEGER)
    case Long => Some(BIGINT)
    case Float => Some(FLOAT)
    case Double => Some(DOUBLE)
    case String => Some(VARCHAR)
    case Binary => Some(BLOB)
    case Date => Some(DATE)
    case Time => Some(TIME)
    case Timestamp => Some(TIMESTAMP)
    case TimestampTz => Some(TIMESTAMP_TZ)
    case Uuid => Some(UUID)
    case Fixed(_) => Some(BLOB)
    case Decimal(precision, scale) => Some(DECIMAL(precision, scale))
    case List(element) =>
      (match MapType(element.fieldType)
       case Some(child) => Some(LIST(child))
       case None => None)
    case Map(key, value) =>
      (match (MapType(key.fieldType), MapType(value.fieldType))
       case (Some(k), Some(v)) => Some(MAP(k, v))
       case _ => None)
    case Struct(fields) =>
      (match MapMembers(fields)
       case Some(members) => Some(STRUCT(members))
       case None => None)
    case Other(_) => None
  }

  function MapMembers(fields: seq<Field>): Option<seq<(string, LogicalType)>> {
    if fields == [] then Some([])
    else
      var n := |fields| - 1;
      match (MapMembers(fields[..n]), MapType(fields[n].fieldType))
      case (Some(members), Some(member)) => Some(members + [(fields[n].name, member)])
      case _ => None
  }

  function BuildColumn(field: Field): Option<Column>
    decreases field, 1
  {
    match (MapType(field.fieldType), BuildChildren(field.fieldType))
    case (Some(t), Some(children)) => Some(Column(field.name, t, field.id, t, children))
    case _ => None
  }

  function Components(t: Type): (fields: seq<Field>)
    ensures forall i | 0 <= i < |fields| :: fields[i] < t
  {
    match t
    case Struct(fields) => fields
    case List(element) => [element]
    case Map(key, value) => [key, value]
    case _ => []
  }

  function BuildChildren(t: Type): Option<seq<Column>>
    decreases t, 2
  {
    BuildEach(t, Components(t))
  }

  function BuildEach(t: Type, fields: seq<Field>): (r: Option<seq<Column>>)
    requires forall i | 0 <= i < |fields| :: fields[i] < t
    ensures r.Some? ==> |r.value| == |fields|
    decreases t, 1, |fields|
  {
    if fields == [] then Some([])
    else
      var n := |fields| - 1;
      match (BuildEach(t, fields[..n]), BuildColumn(fields[n]))
      case (Some(columns), Some(column)) => Some(columns + [column])
      case _ => None
  }

  /** The column definition of a schema field, built as the extension builds it: the type first, then the children. */
  method BuildColumnDefinition(field: Field) returns (column: Option<Column>)
    ensures column == BuildColumn(field)
    decreases field, 1
  {
    var t := MapType(field.fieldType);
    if t.None? {
      return None;
    }
    var children := AddChildColumns(field.fieldType);
    if children.None? {
      return None;
    }
    column := Some(Column(field.name, t.value, field.id, t.value, children.value));
  }

  method AddChildColumns(t: Type) returns (children: Option<seq<Column>>)
    ensures children == BuildChildren(t)
    decreases t, 2
  {
    var fields := Components(t);
    var built: seq<Column> := [];
    for i := 0 to |fields|
      invariant BuildEach(t, fields[..i]) == Some(built)
    {
      assert fields[..i + 1][..i] == fields[..i];
      var column := BuildColumnDefinition(fields[i]);
      if column.None? {
        BuildEachFailsEarly(t, fields, i + 1);
        return None;
      }
      built := built + [column.value];
    }
    assert fields[..|fields|] == fields;
    children := Some(built);
  }

  lemma {:induction false} BuildEachFailsEarly(t: Type, fields: seq<Field>, n: nat)
    requires n <= |fields|
    requires forall i | 0 <= i < |fields| :: fields[i] < t
    requires BuildEach(t, fields[..n]).None?
    ensures BuildEach(t, fields).None?
    decreases |fields|
  {
    if n == |fields| {
      assert fields[..n] == fields;
    } else {
      var rest := fields[..|fields| - 1];
      assert rest[..n] == fields[..n];
      BuildEachFailsEarly(t, rest, n);
    }
  }

  // ----- What a column definition promises -----

  /** A type's leaves, left to right. */
  function Leaves(t: Type): seq<Type>
    decreases t, 1
  {
    if t.Struct? || t.List? || t.Map? then EachLeaves(t, Components(t)) else [t]
  }

  function EachLeaves(t: Type, fields: seq<Field>): seq<Type>
    requires forall i | 0 <= i < |fields| :: fields[i] < t
    decreases t, 0, |fields|
  {
    if fields == [] then []
    else EachLeaves(t, fields[..|fields| - 1]) + Leaves(fields[|fields| - 1].fieldType)
  }

  predicate HasUnsupportedLeaf(t: Type) {
    exists leaf | leaf in Leaves(t) :: leaf.Other?
  }

  /** The field ids of a field and everything below it, parents before children. */
  function FieldIds(field: Field): seq<int>
    decreases field, 1
  {
    [field.id] + EachFieldIds(field.fieldType, Components(field.fieldType))
  }

  function EachFieldIds(t: Type, fields: seq<Field>): seq<int>
    requires forall i | 0 <= i < |fields| :: fields[i] < t
    decreases t, 0, |fields|
  {
    if fields == [] then [] else EachFieldIds(t, fields[..|fields| - 1]) + FieldIds(fields[|fields| - 1])
  }

  function Identifiers(column: Column): seq<int>
    decreases column, 1
  {
    [column.identifier] + EachIdentifiers(column.children)
  }

  function EachIdentifiers(columns: seq<Column>): seq<int> {
    if columns == [] then [] else EachIdentifiers(columns[..|columns| - 1]) + Identifiers(columns[|columns| - 1])
  }

  /** The (name, type) components of a nested DuckDB type; lists and maps leave their components unnamed. */
  function TypeComponents(t: LogicalType): seq<(Option<string>, LogicalType)> {
    match t
    case LIST(child) => [(None, child)]
    case MAP(k, v) => [(None, k), (None, v)]
    case STRUCT(members) => seq(|members|, i requires 0 <= i < |members| => (Some(members[i].0), members[i].1))
    case _ => []
  }

  /** A column's children are exactly its type's components, in order and at every depth. */
  predicate Mirrors(column: Column) {
    var parts := TypeComponents(column.columnType);
    && column.defaultType == column.columnType
    && |column.children| == |parts|
    && (forall i | 0 <= i < |parts| ::
          && column.children[i].columnType == parts[i].1
          && (parts[i].0.Some? ==> column.children[i].name == parts[i].0.value))
    && (forall i | 0 <= i < |column.children| :: Mirrors(column.children[i]))
  }

  lemma {:induction false} MapMembersAt(fields: seq<Field>)
    ensures MapMembers(fields).Some? <==> forall i | 0 <= i < |fields| :: MapType(fields[i].fieldType).Some?
    ensures MapMembers(fields).Some? ==>
              && |MapMembers(fields).value| == |fields|
              && forall i | 0 <= i < |fields| ::
                   MapMembers(fields).value[i] == (fields[i].name, MapType(fields[i].fieldType).value)
  {
    if fields != [] {
      MapMembersAt(fields[..|fields| - 1]);
    }
  }

  lemma {:induction false} BuildEachAt(t: Type, fields: seq<Field>)
    requires forall i | 0 <= i < |fields| :: fields[i] < t
    ensures BuildEach(t, fields).Some? <==> forall i | 0 <= i < |fields| :: BuildColumn(fields[i]).Some?
    ensures BuildEach(t, fields).Some? ==>
              forall i | 0 <= i < |fields| :: BuildEach(t, fields).value[i] == BuildColumn(fields[i]).value
    decreases |fields|
  {
    if fields != [] {
      var n := |fields| - 1;
      var before := fields[..n];
      BuildEachAt(t, before);
      assert forall i | 0 <= i < n :: before[i] == fields[i];
      if BuildEach(t, before).Some? && BuildColumn(fields[n]).Some? {
        assert BuildEach(t, fields).value == BuildEach(t, before).value + [BuildColumn(fields[n]).value];
      }
    }
  }

  lemma {:induction false} EachLeavesMembers(t: Type, fields: seq<Field>, leaf: Type)
    requires forall i | 0 <= i < |fields| :: fields[i] < t
    ensures leaf in EachLeaves(t, fields) <==> exists i | 0 <= i < |fields| :: leaf in Leaves(fields[i].fieldType)
    decreases |fields|
  {
    if fields != [] {
      var n := |fields| - 1;
      EachLeavesMembers(t, fields[..n], leaf);
      if i :| 0 <= i < |fields| && leaf in Leaves(fields[i].fieldType) && i < n {
        assert fields[..n][i] == fields[i];
      }
    }
  }

  lemma HasUnsupportedLeafNested(t: Type)
    requires t.Struct? || t.List? || t.Map?
    ensures HasUnsupportedLeaf(t) <==>
            exists i | 0 <= i < |Components(t)| :: HasUnsupportedLeaf(Components(t)[i].fieldType)
  {
    var fields := Components(t);
    if HasUnsupportedLeaf(t) {
      var leaf :| leaf in Leaves(t) && leaf.Other?;
      EachLeavesMembers(t, fields, leaf);
      var i :| 0 <= i < |fields| && leaf in Leaves(fields[i].fieldType);
      assert HasUnsupportedLeaf(fields[i].fieldType);
    }
    if i :| 0 <= i < |fields| && HasUnsupportedLeaf(fields[i].fieldType) {
      var leaf :| leaf in Leaves(fields[i].fieldType) && leaf.Other?;
      EachLeavesMembers(t, fields, leaf);
    }
  }

  /** Mapping a type fails exactly when a leaf at some depth is unsupported. */
  lemma {:induction false} MapTypeFailsExactly(t: Type)
    ensures MapType(t).None? <==> HasUnsupportedLeaf(t)
  {
    if t.Struct? || t.List? || t.Map? {
      HasUnsupportedLeafNested(t);
      var fields := Components(t);
      forall i | 0 <= i < |fields|
        ensures MapType(fields[i].fieldType).None? <==> HasUnsupportedLeaf(fields[i].fieldType)
      {
        MapTypeFailsExactly(fields[i].fieldType);
      }
      match t
      case Struct(_) => MapMembersAt(fields);
      case List(element) => assert fields[0] == element;
      case Map(key, value) => assert fields[0] == key && fields[1] == value;
    } else {
      assert Leaves(t) == [t];
      assert t in Leaves(t);
    }
  }

  /** Building a column definition fails exactly when a leaf at some depth is unsupported. */
  lemma {:induction false} BuildFailsExactly(field: Field)
    ensures BuildColumn(field).None? <==> HasUnsupportedLeaf(field.fieldType)
    decreases field
  {
    var t := field.fieldType;
    var fields := Components(t);
    MapTypeFailsExactly(t);
    forall i | 0 <= i < |fields|
      ensures BuildColumn(fields[i]).None? <==> HasUnsupportedLeaf(fields[i].fieldType)
    {
      BuildFailsExactly(fields[i]);
    }
    BuildEachAt(t, fields);
    if t.Struct? || t.List? || t.Map? {
      HasUnsupportedLeafNested(t);
    }
  }

  lemma {:induction false} EachIdentifiersMatch(t: Type, fields: seq<Field>, columns: seq<Column>)
    requires |columns| == |fields|
    requires forall i | 0 <= i < |fields| :: fields[i] < t
    requires forall i | 0 <= i < |fields| :: Identifiers(columns[i]) == FieldIds(fields[i])
    ensures EachIdentifiers(columns) == EachFieldIds(t, fields)
    decreases |fields|
  {
    if fields != [] {
      EachIdentifiersMatch(t, fields[..|fields| - 1], columns[..|fields| - 1]);
    }
  }

  /** Preorder, a definition's identifiers are the schema's field ids. */
  lemma {:induction false} IdentifiersAreFieldIds(field: Field)
    requires BuildColumn(field).Some?
    ensures Identifiers(BuildColumn(field).value) == FieldIds(field)
    decreases field
  {
    var t := field.fieldType;
    var fields := Components(t);
    var children := BuildChildren(t).value;
    BuildEachAt(t, fields);
    forall i | 0 <= i < |fields| ensures Identifiers(children[i]) == FieldIds(fields[i]) {
      IdentifiersAreFieldIds(fields[i]);
    }
    EachIdentifiersMatch(t, fields, children);
  }

  /** A mapped type's components are the mapped components of the Iceberg type, in order. */
  lemma MappedComponents(t: Type)
    requires MapType(t).Some?
    ensures |TypeComponents(MapType(t).value)| == |Components(t)|
    ensures forall i | 0 <= i < |Components(t)| ::
              && MapType(Components(t)[i].fieldType) == Some(TypeComponents(MapType(t).value)[i].1)
              && TypeComponents(MapType(t).value)[i].0 == if t.Struct? then Some(Components(t)[i].name) else None
  {
    var fields := Components(t);
    match t
    case Struct(members) =>
      MapMembersAt(members);
      assert fields == members;
    case List(element) => assert fields == [element];
    case Map(key, value) => assert fields == [key, value];
    case _ => assert fields == [];
  }

  /** At every depth a definition has the mapped type, and children that are that type's components in order. */
  lemma {:induction false} DefinitionMirrorsType(field: Field)
    requires BuildColumn(field).Some?
    ensures BuildColumn(field).value.name == field.name
    ensures MapType(field.fieldType) == Some(BuildColumn(field).value.columnType)
    ensures Mirrors(BuildColumn(field).value)
    decreases field
  {
    var column := BuildColumn(field).value;
    var fields := Components(field.fieldType);
    BuildEachAt(field.fieldType, fields);
    MappedComponents(field.fieldType);
    forall i | 0 <= i < |fields|
      ensures column.children[i].name == fields[i].name
      ensures MapType(fields[i].fieldType) == Some(column.children[i].columnType)
      ensures Mirrors(column.children[i])
    {
      DefinitionMirrorsType(fields[i]);
    }
  }

  /** A definition, level by level: the field's name and id, and for a nested type its members, element, or key and
      value in this order. */
  lemma DefinitionExactly(field: Field)
    requires BuildColumn(field).Some?
    ensures var column := BuildColumn(field).value;
            && column.name == field.name && column.identifier == field.id && column.defaultType == column.columnType
            && match field.fieldType
               case Struct(fields) =>
                 && column.columnType.STRUCT?
                 && |column.columnType.members| == |fields| == |column.children|
                 && (forall i | 0 <= i < |fields| ::
                       && BuildColumn(fields[i]) == Some(column.children[i])
                       && column.columnType.members[i] == (fields[i].name, column.children[i].columnType))
               case List(element) =>
                 && |column.children| == 1 && BuildColumn(element) == Some(column.children[0])
                 && column.columnType == LIST(column.children[0].columnType)
               case Map(key, value) =>
                 && |column.children| == 2
                 && BuildColumn(key) == Some(column.children[0]) && BuildColumn(value) == Some(column.children[1])
                 && column.columnType == MAP(column.children[0].columnType, column.children[1].columnType)
               case _ => column.children == []
  {
    var t := field.fieldType;
    var fields := Components(t);
    BuildEachAt(t, fields);
    if t.Struct? {
      MapMembersAt(fields);
    }
  }

  // ----- Renaming -----

  function Rename(field: Field, rename: string -> string): Field
    decreases field, 1
  {
    Field(field.id, rename(field.name), RenameType(field.fieldType, rename))
  }

  function RenameType(t: Type, rename: string -> string): Type
    decreases t, 1
  {
    match t
    case Struct(fields) => Struct(RenameEach(fields, rename))
    case List(element) => List(Rename(element, rename))
    case Map(key, value) => Map(Rename(key, rename), Rename(value, rename))
    case _ => t
  }

  function RenameEach(fields: seq<Field>, rename: string -> string): (r: seq<Field>)
    ensures |r| == |fields|
  {
    if fields == [] then [] else RenameEach(fields[..|fields| - 1], rename) + [Rename(fields[|fields| - 1], rename)]
  }

  lemma {:induction false} RenameEachAt(fields: seq<Field>, rename: string -> string)
    ensures forall i | 0 <= i < |fields| :: RenameEach(fields, rename)[i] == Rename(fields[i], rename)
  {
    if fields != [] {
      RenameEachAt(fields[..|fields| - 1], rename);
    }
  }

  lemma RenameComponents(t: Type, rename: string -> string)
    ensures |Components(RenameType(t, rename))| == |Components(t)|
    ensures forall i | 0 <= i < |Components(t)| ::
              Components(RenameType(t, rename))[i] == Rename(Components(t)[i], rename)
  {
    if t.Struct? {
      RenameEachAt(t.fields, rename);
    }
  }

  lemma {:induction false} EachFieldIdsCongruent(t: Type, fs: seq<Field>, u: Type, gs: seq<Field>)
    requires |fs| == |gs|
    requires forall i | 0 <= i < |fs| :: fs[i] < t && gs[i] < u && FieldIds(fs[i]) == FieldIds(gs[i])
    ensures EachFieldIds(t, fs) == EachFieldIds(u, gs)
    decreases |fs|
  {
    if fs != [] {
      EachFieldIdsCongruent(t, fs[..|fs| - 1], u, gs[..|fs| - 1]);
    }
  }

  lemma {:induction false} RenameKeepsFieldIds(field: Field, rename: string -> string)
    ensures FieldIds(Rename(field, rename)) == FieldIds(field)
    decreases field
  {
    var t, u := field.fieldType, RenameType(field.fieldType, rename);
    var fs, gs := Components(t), Components(u);
    RenameComponents(t, rename);
    forall i | 0 <= i < |fs| ensures FieldIds(gs[i]) == FieldIds(fs[i]) {
      RenameKeepsFieldIds(fs[i], rename);
    }
    EachFieldIdsCongruent(t, fs, u, gs);
  }

  lemma {:induction false} RenameKeepsSupport(t: Type, rename: string -> string)
    ensures HasUnsupportedLeaf(RenameType(t, rename)) <==> HasUnsupportedLeaf(t)
  {
    var u := RenameType(t, rename);
    RenameComponents(t, rename);
    if t.Struct? || t.List? || t.Map? {
      forall i | 0 <= i < |Components(t)|
        ensures HasUnsupportedLeaf(Components(u)[i].fieldType) <==> HasUnsupportedLeaf(Components(t)[i].fieldType)
      {
        RenameKeepsSupport(Components(t)[i].fieldType, rename);
      }
      HasUnsupportedLeafNested(t);
      HasUnsupportedLeafNested(u);
    }
  }

  /** Renaming fields, at any depth, changes neither whether a definition is built nor any identifier in it. */
  lemma RenamingKeepsIdentifiers(field: Field, rename: string -> string)
    ensures BuildColumn(Rename(field, rename)).Some? <==> BuildColumn(field).Some?
    ensures BuildColumn(field).Some? ==>
              Identifiers(BuildColumn(Rename(field, rename)).value) == Identifiers(BuildColumn(field).value)
  {
    BuildFailsExactly(field);
    BuildFailsExactly(Rename(field, rename));
    RenameKeepsSupport(field.fieldType, rename);
    if BuildColumn(field).Some? {
      IdentifiersAreFieldIds(field);
      IdentifiersAreFieldIds(Rename(field, rename));
      RenameKeepsFieldIds(field, rename);
    }
  }
}
