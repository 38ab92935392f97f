/** The schemas one transaction knows: looked up, listed, or found missing. */
module SchemaCache {
  import opened Wrappers

  /** Each known schema, with whether its namespace is known to be missing; and whether the root has been listed. */
  datatype SchemaState = SchemaState(missing: map<string, bool>, listed: bool)

  /** DuckDB's name for its default schema. */
  const DEFAULT_SCHEMA := "main"

  function Redirect(name: string, defaultSchema: string): string {
    if name == DEFAULT_SCHEMA && defaultSchema != DEFAULT_SCHEMA then defaultSchema else name
  }

  /** DuckDB's "main" stands for the configured default schema, and every other name for itself. */
  lemma RedirectsMainExactly(name: string, defaultSchema: string)
    ensures Redirect(name, defaultSchema) == if name == "main" then defaultSchema else name
  {
  }

  predicate Visible(s: SchemaState, name: string) {
    name in s.missing && !s.missing[name]
  }

  /** Whether a lookup finds a schema; one that is unknown before the root listing is taken on trust. */
  predicate Finds(s: SchemaState, name: string) {
    if name in s.missing then !s.missing[name] else !s.listed
  }

  function WithName(s: SchemaState, name: string): SchemaState {
    if name in s.missing then s else s.(missing := s.missing[name := false])
  }

  function AfterLookup(s: SchemaState, name: string): SchemaState {
    if s.listed then s else WithName(s, name)
  }

  datatype NamespaceReply = Namespaces(levels: seq<seq<string>>) | NamespacesFailed

  /** The names of a root listing; children that are not single-level are skipped. */
  function ListedNames(levels: seq<seq<string>>): set<string> {
    set i | 0 <= i < |levels| && |levels[i]| == 1 :: levels[i][0]
  }

  lemma ListedExactly(levels: seq<seq<string>>, name: string)
    ensures name in ListedNames(levels) <==> [name] in levels
  {
    if name in ListedNames(levels) {
      var i :| 0 <= i < |levels| && |levels[i]| == 1 && levels[i][0] == name;
      assert levels[i] == [name];
    }
    if [name] in levels {
      var i :| 0 <= i < |levels| && levels[i] == [name];
    }
  }

  function WithNames(s: SchemaState, names: set<string>): SchemaState {
    s.(missing := map name | name in s.missing.Keys + names :: name in s.missing && s.missing[name])
  }

  lemma WithOneMore(s: SchemaState, names: set<string>, name: string)
    ensures WithName(WithNames(s, names), name) == WithNames(s, names + {name})
  {
  }

  function Completed(s: SchemaState, names: set<string>): SchemaState {
    SchemaState(map name | name in s.missing :: s.missing[name] || name !in names, true)
  }

  /** A root listing makes known what it lists, and marks missing what it does not. */
  function AfterRootListing(s: SchemaState, names: set<string>): SchemaState {
    SchemaState(map name | name in s.missing.Keys + names ::
                  (name in s.missing && s.missing[name]) || name !in names,
                true)
  }

  lemma RootListingInTwoSteps(s: SchemaState, names: set<string>)
    ensures Completed(WithNames(s, names), names) == AfterRootListing(s, names)
  {
  }

  function AfterMissing(s: SchemaState, name: string): SchemaState {
    if name in s.missing then s.(missing := s.missing[name := true]) else s
  }

  function VisibleNames(s: SchemaState): set<string> {
    set name | name in s.missing && !s.missing[name]
  }

  // ----- The world closes with the root listing -----

  /** listing holds the names of the root listing, once there has been one. */
  ghost predicate WorldOk(s: SchemaState, listing: Option<set<string>>) {
    && (s.listed <==> listing.Some?)
    && (listing.Some? ==> listing.value <= s.missing.Keys && VisibleNames(s) <= listing.value)
  }

  /** Nothing will find this schema again. */
  predicate Gone(s: SchemaState, name: string) {
    !Finds(s, name)
  }

  /** What any later state keeps: known schemas stay known, missing ones missing, and the listing done. */
  ghost predicate SchemasAdvance(s: SchemaState, s': SchemaState) {
    && s.missing.Keys <= s'.missing.Keys
    && (forall name | name in s.missing && s.missing[name] :: s'.missing[name])
    && (s.listed ==> s'.listed && s'.missing.Keys == s.missing.Keys)
  }

  lemma GoneIsFinal(s: SchemaState, s': SchemaState, name: string)
    requires SchemasAdvance(s, s') && Gone(s, name)
    ensures Gone(s', name)
  {
  }

  lemma LookupAdvances(s: SchemaState, name: string, listing: Option<set<string>>)
    requires WorldOk(s, listing)
    ensures WorldOk(AfterLookup(s, name), listing)
    ensures SchemasAdvance(s, AfterLookup(s, name))
    ensures Finds(s, name) <==> Visible(AfterLookup(s, name), name)
    ensures Finds(s, name) <==> Visible(s, name) || (name !in s.missing && !s.listed)
    ensures forall other | other != name :: Visible(AfterLookup(s, name), other) <==> Visible(s, other)
  {
  }

  lemma RootListingAdvances(s: SchemaState, names: set<string>)
    requires WorldOk(s, None)
    ensures WorldOk(AfterRootListing(s, names), Some(names))
    ensures SchemasAdvance(s, AfterRootListing(s, names))
    ensures forall name :: Visible(AfterRootListing(s, names), name) <==>
              name in names && !(name in s.missing && s.missing[name])
    ensures AfterRootListing(s, names).missing.Keys == s.missing.Keys + names
  {
  }

  /** What a root listing leaves, in terms of what the catalog answered: it makes known the single-level children, and
      marks missing whatever is not among them. */
  lemma RootListingExactly(s: SchemaState, levels: seq<seq<string>>, name: string)
    ensures var after := AfterRootListing(s, ListedNames(levels));
            && after.listed
            && (name in after.missing <==> name in s.missing || [name] in levels)
            && (name in after.missing ==>
                  (after.missing[name] <==> [name] !in levels || (name in s.missing && s.missing[name])))
  {
    ListedExactly(levels, name);
  }

  lemma MissingAdvances(s: SchemaState, name: string, listing: Option<set<string>>)
    requires WorldOk(s, listing)
    ensures WorldOk(AfterMissing(s, name), listing)
    ensures SchemasAdvance(s, AfterMissing(s, name))
    ensures forall other :: Visible(AfterMissing(s, name), other) <==> Visible(s, other) && other != name
  {
  }

  /** After the root listing a lookup finds exactly the listed schemas not known missing, which a scan visits. */
  lemma LookupsAgreeWithListing(s: SchemaState, listing: set<string>, name: string)
    requires WorldOk(s, Some(listing))
    ensures Finds(s, name) <==> name in listing && !s.missing[name]
    ensures Finds(s, name) <==> name in VisibleNames(s)
    ensures AfterLookup(s, name) == s
  {
  }
}

/** The code over a transaction's schemas, under the lock its handle stands for. */
module Catalogs {
  import opened Wrappers
  import opened Ordered
  import opened Text
  import opened SchemaCache
  import opened SchemaEntries
  import opened TableCache
  import Snapshots

  class Transaction {
    const startMs: int
    var schemas: map<string, SchemaEntry>
    var listed: bool

    constructor (startMicros: int)
      ensures startMs == Snapshots.StartTimestampMs(startMicros)
      ensures Valid() && View() == SchemaState(map[], false)
      ensures schemas == map[]
    {
      startMs := Snapshots.StartTimestampMs(startMicros);
      schemas := map[];
      listed := false;
    }

    ghost predicate Named()
      reads this`schemas
    {
      NamesMatch(schemas)
    }

    ghost predicate Owns()
      reads this`schemas
    {
      Separate(schemas)
    }

    ghost predicate Valid()
      reads this`schemas, schemas.Values`listing, Parts()
    {
      Owns() && forall name | name in schemas :: schemas[name].Valid()
    }

    /** What the schemas consist of. */
    ghost function Parts(): set<object>
      reads this`schemas
    {
      (set entry | entry in schemas.Values :: entry.tables as object)
      + (set entry | entry in schemas.Values :: entry.tables.index as object)
    }

    ghost function View(): SchemaState
      reads this, schemas.Values
    {
      SchemaState(map name | name in schemas :: schemas[name].namespaceMissing, listed)
    }

    ghost function Known(name: string): set<SchemaEntry>
      reads this`schemas
    {
      if name in schemas then {schemas[name]} else {}
    }

    ghost function PartsOf(name: string): set<object>
      reads this`schemas
    {
      if name in schemas then {schemas[name].tables, schemas[name].tables.index} else {}
    }

    /** Every schema ever handed out is still the one under its name. */
    twostate predicate KeepsSchemas()
      reads this`schemas
    {
      forall name | name in old(schemas) :: name in schemas && schemas[name] == old(schemas[name])
    }

    /** The entry takes the place of any stored under the name. Schemas that own their tables still do, if the entry
        bears the name and shares no tables with the others. */
    method Store(name: string, entry: SchemaEntry)
      modifies this`schemas
      ensures schemas == old(schemas)[name := entry]
      ensures old(Owns()) && CanOwn(old(schemas), name, entry) ==> Owns()
    {
      if Owns() && CanOwn(schemas, name, entry) {
        SeparateWith(schemas, name, entry);
      }
      schemas := schemas[name := entry];
    }

    twostate lemma ViewAfterStore(name: string, new entry: SchemaEntry)
      requires schemas == old(schemas)[name := entry] && listed == old(listed)
      requires name !in old(schemas) && !entry.namespaceMissing
      requires forall other | other in old(schemas) :: unchanged(old(schemas)[other])
      ensures View() == WithName(old(View()), name)
    {
    }

    /** Every schema that was not known before was created since. */
    twostate predicate OthersAreFresh()
      reads this`schemas
    {
      forall name | name in schemas && name !in old(schemas) ::
        fresh(schemas[name]) && fresh(schemas[name].tables) && fresh(schemas[name].tables.index)
    }

    /** Every schema that was not known before is new, and has no tables yet. */
    twostate predicate OthersAreNew()
      reads this`schemas, schemas.Values`listing, Parts()
    {
      forall name | name in schemas && name !in old(schemas) :: IsNew(schemas[name])
    }

    /** Keeping the schemas and adding new ones keeps the whole valid. */
    twostate lemma GrowthKeepsValid()
      requires old(Valid())
      requires Owns() && KeepsSchemas() && OthersAreNew()
      requires forall name | name in old(schemas) :: SameTables(schemas[name])
      ensures Valid()
    {
      forall name | name in schemas ensures schemas[name].Valid() {
        if name in old(schemas) {
          assert old(schemas[name].Valid());
        }
      }
    }

    /** A change to one schema's tables that keeps it valid keeps the whole valid. */
    twostate lemma ChangeKeepsValid(name: string)
      requires old(Valid())
      requires name in schemas && schemas == old(schemas) && schemas[name].Valid()
      requires forall other | other in schemas && other != name :: SameTables(schemas[other])
      ensures Valid()
    {
      forall other | other in schemas && other != name ensures schemas[other].Valid() {
        assert old(schemas[other].Valid());
      }
    }

    method MarkUnlisted(listedNames: set<string>)
      requires Named()
      modifies schemas.Values`namespaceMissing
      ensures forall name | name in schemas ::
                schemas[name].namespaceMissing ==
                (old(schemas[name].namespaceMissing) || name !in listedNames)
    {
      var rest := schemas.Keys;
      while rest != {}
        invariant rest <= schemas.Keys
        invariant forall name | name in schemas ::
                    schemas[name].namespaceMissing ==
                    (old(schemas[name].namespaceMissing) || (name !in rest && name !in listedNames))
        decreases |rest|
      {
        var name :| name in rest;
        if schemas[name].name !in listedNames {
          schemas[name].MarkNamespaceMissing();
        }
        rest := rest - {name};
      }
    }

    /** Closes the world: from now on only the listed names can be visible. */
    method CompleteListing(listedNames: set<string>)
      requires Named()
      modifies this`listed, schemas.Values`namespaceMissing
      ensures schemas == old(schemas) && listed
      ensures View() == Completed(old(View()), listedNames)
    {
      MarkUnlisted(listedNames);
      listed := true;
    }

    ghost function Visible(): (all: set<string>)
      reads this, schemas.Values
      ensures all == VisibleNames(View())
    {
      set name | name in schemas && !schemas[name].namespaceMissing
    }

    /** The visible schemas, ascending by name. */
    method ForEach() returns (visited: seq<SchemaEntry>)
      requires Named()
      ensures TotalOrder(LexLe)
      ensures forall i | 0 <= i < |visited| :: Holds(visited[i])
      ensures Names(visited) == Ascending(Visible(), LexLe)
    {
      var names := InOrder(schemas.Keys);
      visited := VisibleAmong(names);
      SelectedAscending(schemas.Keys, Visible(), LexLe);
      assert schemas.Keys * Visible() == Visible();
    }

    method VisibleAmong(names: seq<string>) returns (visited: seq<SchemaEntry>)
      requires Named()
      requires forall name | name in names :: name in schemas
      ensures forall i | 0 <= i < |visited| :: Holds(visited[i])
      ensures Names(visited) == Selected(names, Visible())
    {
      visited := [];
      for i := 0 to |names|
        invariant Names(visited) == Selected(names[..i], Visible())
        invariant forall k | 0 <= k < |visited| :: Holds(visited[k])
      {
        var name := names[i];
        assert names[..i + 1][..i] == names[..i];
        if !schemas[name].namespaceMissing {
          assert Names(visited + [schemas[name]]) == Names(visited) + [name];
          visited := visited + [schemas[name]];
        }
      }
      assert names[..|names|] == names;
    }

    ghost predicate Holds(entry: SchemaEntry)
      reads this`schemas
    {
      entry.name in schemas && schemas[entry.name] == entry
    }
  }

  twostate predicate IsNew(new entry: SchemaEntry)
    reads entry`listing, entry.tables, entry.tables.index
  {
    && fresh(entry) && fresh(entry.tables) && fresh(entry.tables.index)
    && entry.tables.View() == EMPTY_REGISTRY && entry.listing == {}
  }

  /** A schema's tables are as they were. */
  twostate predicate SameTables(entry: SchemaEntry)
    reads entry`listing, entry.tables, entry.tables.index
  {
    entry.tables.View() == old(entry.tables.View()) && entry.listing == old(entry.listing)
  }

  /** A lookup's answer, if any entry, is the one cached under the name, and is loaded. */
  ghost predicate Answers(entry: SchemaEntry, table: string, answer: LookupAnswer)
    reads entry.tables, entry.tables.index
  {
    answer.Entry? ==>
      IsLoaded(entry.tables.View(), table) && answer == CachedAnswer(entry.tables.View(), table)
  }

  /** The keys of a std::map as iterated. */
  method InOrder(keys: set<string>) returns (names: seq<string>)
    ensures TotalOrder(LexLe)
    ensures names == Ascending(keys, LexLe)
  {
    LexIsTotalOrder();
    names := [];
    var rest := keys;
    while rest != {}
      invariant Visiting(names, rest, keys, LexLe)
      decreases |rest|
    {
      ghost var least := LeastExists(rest, LexLe);
      var name :| name in rest && forall n | n in rest :: LexLe(name, n);
      VisitNext(names, name, rest, keys, LexLe);
      rest, names := rest - {name}, names + [name];
    }
    VisitEnds(names, keys, LexLe);
  }

  /** Each schema is stored under its own name. */
  ghost predicate NamesMatch(schemas: map<string, SchemaEntry>) {
    forall name | name in schemas :: schemas[name].name == name
  }

  /** And shares its tables with no other. */
  ghost predicate Separate(schemas: map<string, SchemaEntry>) {
    && NamesMatch(schemas)
    && (forall name, other | name in schemas && other in schemas && name != other ::
          Apart(schemas[name], schemas[other]))
  }

  ghost predicate CanOwn(schemas: map<string, SchemaEntry>, name: string, entry: SchemaEntry) {
    entry.name == name && forall other | other in schemas && other != name :: Apart(schemas[other], entry)
  }

  lemma SeparateWith(schemas: map<string, SchemaEntry>, name: string, entry: SchemaEntry)
    requires Separate(schemas) && CanOwn(schemas, name, entry)
    ensures Separate(schemas[name := entry])
  {
  }

  /** Two schemas have neither tables nor index in common. */
  ghost predicate Apart(a: SchemaEntry, b: SchemaEntry) {
    a.tables != b.tables && a.tables.index != b.tables.index
  }

  function Names(entries: seq<SchemaEntry>): seq<string> {
    seq(|entries|, i requires 0 <= i < |entries| => entries[i].name)
  }

  datatype CatalogException = SchemaDoesNotExist | ListingFailed

  class Catalog {
    const defaultSchema: string

    constructor (defaultSchema: string)
      ensures this.defaultSchema == defaultSchema
    {
      this.defaultSchema := defaultSchema;
    }

    /** DuckDB's default schema is redirected once; an unknown schema is created unchecked until the root is listed. */
    method LookupSchema(txn: Transaction, name: string, returnNull: bool)
      returns (r: Result<Option<SchemaEntry>, CatalogException>)
      requires txn.Valid()
      modifies txn`schemas
      ensures txn.Valid() && txn.KeepsSchemas() && txn.OthersAreNew()
      ensures var own := if name == "main" then defaultSchema else name;
              if own in old(txn.schemas) then
                && txn.schemas == old(txn.schemas)
                && r == if !old(txn.schemas[own].namespaceMissing) then Ok(Some(old(txn.schemas)[own]))
                        else if returnNull then Ok(None) else Threw(SchemaDoesNotExist)
              else if old(txn.listed) then
                txn.schemas == old(txn.schemas) && r == if returnNull then Ok(None) else Threw(SchemaDoesNotExist)
              else
                && r.Ok? && r.value.Some? && IsNew(r.value.value)
                && txn.schemas == old(txn.schemas)[own := r.value.value]
      ensures r.Ok? && r.value.Some? ==>
                r.value.value.Valid() && r.value.value.name == if name == "main" then defaultSchema else name
      ensures txn.View() == AfterLookup(old(txn.View()), if name == "main" then defaultSchema else name)
      decreases if Redirect(name, defaultSchema) == name then 0 else 1
    {
      if name == DEFAULT_SCHEMA && defaultSchema != DEFAULT_SCHEMA {
        r := LookupSchema(txn, defaultSchema, returnNull);
      } else {
        r := LookupOwnSchema(txn, name, returnNull);
        txn.GrowthKeepsValid();
      }
    }

    method LookupOwnSchema(txn: Transaction, name: string, returnNull: bool)
      returns (r: Result<Option<SchemaEntry>, CatalogException>)
      requires txn.Owns()
      modifies txn`schemas
      ensures txn.Owns() && txn.KeepsSchemas() && txn.OthersAreNew()
      ensures txn.View() == AfterLookup(old(txn.View()), name)
      ensures if name in old(txn.schemas) then
                && txn.schemas == old(txn.schemas)
                && r == if !old(txn.schemas[name].namespaceMissing) then Ok(Some(old(txn.schemas)[name]))
                        else if returnNull then Ok(None) else Threw(SchemaDoesNotExist)
              else if old(txn.listed) then
                txn.schemas == old(txn.schemas) && r == if returnNull then Ok(None) else Threw(SchemaDoesNotExist)
              else
                && r.Ok? && r.value.Some? && IsNew(r.value.value)
                && txn.schemas == old(txn.schemas)[name := r.value.value]
    {
      if name in txn.schemas {
        if !txn.schemas[name].namespaceMissing {
          return Ok(Some(txn.schemas[name]));
        }
      } else if !txn.listed {
        StoreUnlessKnown(txn, name);
        return Ok(Some(txn.schemas[name]));
      }
      r := if returnNull then Ok(None) else Threw(SchemaDoesNotExist);
    }

    /** Creates a schema unless it is known. */
    method StoreUnlessKnown(txn: Transaction, name: string)
      requires txn.Owns()
      modifies txn`schemas
      ensures txn.Owns() && txn.KeepsSchemas() && txn.OthersAreNew()
      ensures txn.View() == WithName(old(txn.View()), name)
      ensures name in txn.schemas
      ensures txn.schemas == if name in old(txn.schemas) then old(txn.schemas)
                             else old(txn.schemas)[name := txn.schemas[name]]
    {
      if name !in txn.schemas {
        var entry := new SchemaEntry(name);
        txn.Store(name, entry);
        txn.ViewAfterStore(name, entry);
      }
    }

    /** Creates a schema for every single-level child not yet known, and returns the names listed. */
    method StoreNamespaces(txn: Transaction, levels: seq<seq<string>>) returns (listedNames: set<string>)
      requires txn.Owns()
      modifies txn`schemas
      ensures txn.Owns() && txn.KeepsSchemas() && txn.OthersAreNew()
      ensures listedNames == ListedNames(levels)
      ensures txn.View() == WithNames(old(txn.View()), listedNames)
    {
      listedNames := {};
      for i := 0 to |levels|
        invariant txn.Owns() && txn.KeepsSchemas() && txn.OthersAreNew()
        invariant listedNames == ListedNames(levels[..i])
        invariant txn.View() == WithNames(old(txn.View()), listedNames)
      {
        ListOneMore(levels, i);
        if |levels[i]| != 1 {
          continue;
        }
        var name := levels[i][0];
        WithOneMore(old(txn.View()), listedNames, name);
        StoreUnlessKnown(txn, name);
        listedNames := listedNames + {name};
      }
      assert levels[..|levels|] == levels;
    }

    method ListRoot(txn: Transaction, levels: seq<seq<string>>)
      requires txn.Owns()
      modifies txn`schemas, txn`listed, txn.schemas.Values`namespaceMissing
      ensures txn.Owns() && txn.KeepsSchemas() && txn.OthersAreNew()
      ensures txn.View() == AfterRootListing(old(txn.View()), ListedNames(levels))
    {
      var names := StoreNamespaces(txn, levels);
      RootListingInTwoSteps(old(txn.View()), names);
      txn.CompleteListing(names);
    }

    /** The visible schemas, ascending by name, of a world closed by the one listing of the root. */
    method ScanSchemas(txn: Transaction, reply: NamespaceReply)
      returns (r: Result<seq<SchemaEntry>, CatalogException>, called: bool)
      requires txn.Valid()
      modifies txn`schemas, txn`listed, txn.schemas.Values`namespaceMissing
      ensures txn.Valid() && txn.KeepsSchemas() && txn.OthersAreFresh()
      ensures called <==> !old(txn.listed)
      ensures txn.View() == if called && reply.Namespaces?
                            then AfterRootListing(old(txn.View()), ListedNames(reply.levels))
                            else old(txn.View())
      ensures r.Threw? <==> called && reply.NamespacesFailed?
      ensures r.Ok? ==>
                && TotalOrder(LexLe)
                && Names(r.value) == Ascending(txn.Visible(), LexLe)
                && forall i | 0 <= i < |r.value| :: txn.Holds(r.value[i]) && r.value[i].Valid()
    {
      var failed;
      called, failed := EnsureListed(txn, reply);
      if failed {
        r := Threw(ListingFailed);
      } else {
        var visited := txn.ForEach();
        r := Ok(visited);
      }
    }

    method EnsureListed(txn: Transaction, reply: NamespaceReply) returns (called: bool, failed: bool)
      requires txn.Valid()
      modifies txn`schemas, txn`listed, txn.schemas.Values`namespaceMissing
      ensures txn.Valid() && txn.KeepsSchemas() && txn.OthersAreFresh()
      ensures called <==> !old(txn.listed)
      ensures failed <==> called && reply.NamespacesFailed?
      ensures txn.View() == if called && reply.Namespaces?
                            then AfterRootListing(old(txn.View()), ListedNames(reply.levels))
                            else old(txn.View())
    {
      called, failed := !txn.listed, false;
      if called {
        if reply.NamespacesFailed? {
          return true, true;
        }
        ListRoot(txn, reply.levels);
        txn.GrowthKeepsValid();
      }
    }

    /** Resolves a qualified table name: the schema, then the table in it. Touches no other schema. */
    method LookupTable(txn: Transaction, schema: string, table: string, reply: LoadReply)
      returns (found: Option<SchemaEntry>, answer: LookupAnswer)
      requires txn.Valid()
      modifies txn`schemas, txn.Known(Redirect(schema, defaultSchema))`namespaceMissing
      modifies txn.PartsOf(Redirect(schema, defaultSchema))
      ensures txn.Valid() && txn.KeepsSchemas() && txn.OthersAreFresh()
      ensures found.Some? <==> Finds(old(txn.View()), Redirect(schema, defaultSchema))
      ensures if found.None? then answer == NoEntry
              else && txn.Holds(found.value) && found.value.name == Redirect(schema, defaultSchema)
                   && Answers(found.value, table, answer)
    {
      found := FindSchema(txn, schema);
      answer := NoEntry;
      if found.Some? {
        answer := FindTable(txn, found.value, table, reply);
      }
    }

    method FindSchema(txn: Transaction, schema: string) returns (found: Option<SchemaEntry>)
      requires txn.Valid()
      modifies txn`schemas
      ensures txn.Valid() && txn.KeepsSchemas() && txn.OthersAreFresh()
      ensures found.Some? <==> Finds(old(txn.View()), Redirect(schema, defaultSchema))
      ensures found.Some? ==>
                && txn.Holds(found.value) && found.value.name == Redirect(schema, defaultSchema)
                && (found.value in old(txn.Known(Redirect(schema, defaultSchema))) ||
                    (fresh(found.value) && fresh(found.value.tables) && fresh(found.value.tables.index)))
    {
      var r := LookupSchema(txn, schema, true);
      found := r.value;
    }

    method FindTable(txn: Transaction, entry: SchemaEntry, table: string, reply: LoadReply)
      returns (answer: LookupAnswer)
      requires txn.Valid() && txn.Holds(entry)
      modifies entry`namespaceMissing, entry.tables`entries, entry.tables.index
      ensures unchanged(txn) && txn.Valid() && Answers(entry, table, answer)
    {
      answer := entry.FindTable(table, txn.startMs, reply);
      txn.ChangeKeepsValid(entry.name);
    }
  }

  lemma ListOneMore(levels: seq<seq<string>>, i: nat)
    requires i < |levels|
    ensures ListedNames(levels[..i + 1])
            == ListedNames(levels[..i]) + if |levels[i]| == 1 then {levels[i][0]} else {}
  {
  }
}
