/** A schema's tables as one transaction knows them: what lookups, loads and listings make of that knowledge. */
module TableCache {
  import opened Wrappers
  import opened SignedStores
  import opened Snapshots
  import IcebergTypes
  import Columns

  /** An entry without scan info is a listing placeholder. */
  datatype TableEntry = TableEntry(name: string, info: Option<ScanInfo>) {
    predicate NeedsLoad() {
      info.None?
    }
  }

  /** entries owns every entry ever stored; a reference to one is its position. */
  datatype Registry = Registry(entries: seq<TableEntry>, index: map<string, Slot<nat>>, listed: bool)

  const EMPTY_REGISTRY := Registry([], map[], false)

  datatype LoadReply = Loaded(table: Table) | NoSuchTable | NoSuchNamespace | LoadFailed

  datatype ListReply = Listed(names: seq<string>) | ListNoSuchNamespace | ListFailed

  datatype CacheError = CatalogError | Unresolved(cause: ResolveError) | UnsupportedColumn

  datatype LookupAnswer = Entry(entry: nat) | NoEntry | LookupThrew(error: CacheError)

  function Store(r: Registry, entry: TableEntry): Registry {
    r.(entries := r.entries + [entry], index := r.index[entry.name := Hit(|r.entries|)])
  }

  function MarkMissing(r: Registry, name: string): Registry {
    r.(index := r.index[name := Miss])
  }

  /** Whether a lookup of the name has to ask the catalog. */
  predicate NeedsLoad(r: Registry, name: string) {
    match LookupIn(r.index, name)
    case Unknown => true
    case Negative => false
    case Positive(e) => e < |r.entries| && r.entries[e].NeedsLoad()
  }

  predicate IsLoaded(r: Registry, name: string) {
    match LookupIn(r.index, name)
    case Positive(e) => e < |r.entries| && !r.entries[e].NeedsLoad()
    case _ => false
  }

  /** The answer of a lookup that needs no load. */
  function CachedAnswer(r: Registry, name: string): LookupAnswer {
    match LookupIn(r.index, name)
    case Positive(e) => Entry(e)
    case _ => NoEntry
  }

  /** The entry a loaded table becomes, or the exception it is loaded with. */
  function MakeEntry(name: string, table: Table, startMs: int): Result<TableEntry, CacheError> {
    match ResolveScanInfo(table, startMs)
    case Threw(cause) => Threw(Unresolved(cause))
    case Ok(info) =>
      if Columns.MapMembers(info.schema).None? then Threw(UnsupportedColumn)
      else Ok(TableEntry(name, Some(info)))
  }

  /** The registry, and whether the namespace turned out missing, after a load; and the lookup's answer. */
  datatype LoadOutcome = LoadOutcome(registry: Registry, namespaceMissing: bool, answer: LookupAnswer)

  function AfterLoad(r: Registry, name: string, startMs: int, reply: LoadReply): LoadOutcome {
    match reply
    case NoSuchTable => LoadOutcome(MarkMissing(r, name), false, NoEntry)
    case NoSuchNamespace => LoadOutcome(MarkMissing(r, name), true, NoEntry)
    case LoadFailed => LoadOutcome(r, false, LookupThrew(CatalogError))
    case Loaded(table) =>
      match MakeEntry(name, table, startMs)
      case Threw(error) => LoadOutcome(r, false, LookupThrew(error))
      case Ok(entry) => LoadOutcome(Store(r, entry), false, Entry(|r.entries|))
  }

  /** A listing stores placeholders for the names not yet known. */
  function StorePlaceholders(r: Registry, names: seq<string>): Registry {
    if names == [] then r
    else
      var before := StorePlaceholders(r, names[..|names| - 1]);
      var name := names[|names| - 1];
      if LookupIn(before.index, name).Unknown? then Store(before, TableEntry(name, None)) else before
  }

  function AfterListing(r: Registry, names: seq<string>): Registry {
    StorePlaceholders(r.(listed := true), names)
  }

  // ----- What holds of every registry -----

  function NameSet(names: seq<string>): set<string> {
    set name | name in names
  }

  /** A positive key points at the last entry stored under it. */
  predicate IndexOk(r: Registry) {
    forall name | name in r.index && r.index[name].Hit? ::
      var e := r.index[name].value;
      && e < |r.entries|
      && r.entries[e].name == name
      && forall j | e < j < |r.entries| :: r.entries[j].name != name
  }

  /** A name's entries are at most a placeholder and then a loaded entry; a name found missing was never loaded. */
  predicate EntriesOk(r: Registry) {
    && (forall e | 0 <= e < |r.entries| :: r.entries[e].name in r.index)
    && (forall i, j | 0 <= i < j < |r.entries| && r.entries[i].name == r.entries[j].name ::
          r.entries[i].NeedsLoad() && !r.entries[j].NeedsLoad())
    && (forall e | 0 <= e < |r.entries| && r.index[r.entries[e].name].Miss? :: r.entries[e].NeedsLoad())
  }

  /** Placeholders come from the one listing, which left none of its names unknown. */
  predicate ListingOk(r: Registry, listing: set<string>) {
    && (forall e | 0 <= e < |r.entries| && r.entries[e].NeedsLoad() :: r.entries[e].name in listing)
    && (forall name | name in listing :: name in r.index)
    && (!r.listed ==> listing == {})
  }

  predicate RegistryOk(r: Registry, listing: set<string>) {
    IndexOk(r) && EntriesOk(r) && ListingOk(r, listing)
  }

  /** Knowledge only grows: no entry is dropped or replaced in place, what is known of a name - absent, or loaded - is
      final, and no name is forgotten. */
  ghost predicate Advances(r: Registry, r': Registry) {
    && r.entries <= r'.entries
    && (forall name | name in r.index :: name in r'.index)
    && (forall name | !NeedsLoad(r, name) :: r'.index[name] == r.index[name])
    && (r.listed ==> r'.listed)
  }

  lemma AdvancesTransitive(a: Registry, b: Registry, c: Registry)
    requires IndexOk(a) && IndexOk(b)
    requires Advances(a, b) && Advances(b, c)
    ensures Advances(a, c)
  {
  }

  /** A conclusive name stays conclusive, with the same answer. */
  lemma ConclusiveIsFinal(r: Registry, r': Registry, name: string)
    requires IndexOk(r) && Advances(r, r')
    requires !NeedsLoad(r, name)
    ensures !NeedsLoad(r', name) && CachedAnswer(r', name) == CachedAnswer(r, name)
    ensures IsLoaded(r, name) ==> r'.entries[CachedAnswer(r, name).entry] == r.entries[CachedAnswer(r, name).entry]
  {
  }

  lemma StoreOk(r: Registry, listing: set<string>, entry: TableEntry)
    requires RegistryOk(r, listing)
    requires NeedsLoad(r, entry.name)
    requires if entry.NeedsLoad() then LookupIn(r.index, entry.name).Unknown? && r.listed else true
    ensures RegistryOk(Store(r, entry), if entry.NeedsLoad() then listing + {entry.name} else listing)
    ensures Advances(r, Store(r, entry))
    ensures !entry.NeedsLoad() ==> IsLoaded(Store(r, entry), entry.name)
  {
    var r' := Store(r, entry);
    assert forall e | 0 <= e < |r.entries| :: r'.entries[e] == r.entries[e];
    assert r'.entries[|r.entries|] == entry;
    StoredEntriesOk(r, entry);
  }

  lemma StoredEntriesOk(r: Registry, entry: TableEntry)
    requires IndexOk(r) && EntriesOk(r)
    requires NeedsLoad(r, entry.name)
    requires entry.NeedsLoad() ==> LookupIn(r.index, entry.name).Unknown?
    ensures EntriesOk(Store(r, entry))
  {
    var r' := Store(r, entry);
    forall i, j | 0 <= i < j < |r'.entries| && r'.entries[i].name == r'.entries[j].name
      ensures r'.entries[i].NeedsLoad() && !r'.entries[j].NeedsLoad()
    {
      assert r'.entries[i] == r.entries[i];
      if j == |r.entries| {
        var last := r.index[entry.name].value;
        assert r.entries[last].NeedsLoad();
        assert i == last || i < last;
      } else {
        assert r'.entries[j] == r.entries[j];
      }
    }
  }

  lemma MarkMissingOk(r: Registry, listing: set<string>, name: string)
    requires RegistryOk(r, listing)
    requires NeedsLoad(r, name)
    ensures RegistryOk(MarkMissing(r, name), listing)
    ensures Advances(r, MarkMissing(r, name))
  {
  }

  /** A load advances the registry; it settles the name unless it throws, and then it changes nothing. */
  lemma AfterLoadOk(r: Registry, listing: set<string>, name: string, startMs: int, reply: LoadReply)
    requires RegistryOk(r, listing)
    requires NeedsLoad(r, name)
    ensures var o := AfterLoad(r, name, startMs, reply);
            && RegistryOk(o.registry, listing)
            && Advances(r, o.registry)
            && (if o.answer.LookupThrew? then o.registry == r && !o.namespaceMissing
                else !NeedsLoad(o.registry, name) && o.answer == CachedAnswer(o.registry, name))
            && (o.answer.Entry? ==> IsLoaded(o.registry, name) && o.registry.entries[o.answer.entry].name == name)
            && (LookupIn(o.registry.index, name).Negative? <==> reply.NoSuchTable? || reply.NoSuchNamespace?)
            && (o.namespaceMissing <==> reply.NoSuchNamespace?)
            && (reply.LoadFailed? ==> o.answer == LookupThrew(CatalogError))
  {
    match reply
    case NoSuchTable => MarkMissingOk(r, listing, name);
    case NoSuchNamespace => MarkMissingOk(r, listing, name);
    case LoadFailed =>
    case Loaded(table) =>
      if MakeEntry(name, table, startMs).Ok? {
        StoreOk(r, listing, MakeEntry(name, table, startMs).value);
      }
  }

  /** Every column of the schema is, at every depth, of a type the extension supports. */
  predicate Supported(schema: IcebergTypes.Schema) {
    forall i | 0 <= i < |schema| :: !Columns.HasUnsupportedLeaf(schema[i].fieldType)
  }

  /** What loading a table that exists comes to: an entry with the state resolved for the transaction, owned last and
      indexed; or the exception that names its cause, and no change. */
  predicate LoadedAs(r: Registry, name: string, startMs: int, table: Table, r': Registry, answer: LookupAnswer) {
    match ResolveScanInfo(table, startMs)
    case Threw(cause) => answer == LookupThrew(Unresolved(cause)) && r' == r
    case Ok(info) =>
      if Supported(info.schema) then
        && answer == Entry(|r.entries|)
        && r'.entries == r.entries + [TableEntry(name, Some(info))]
        && r'.index == r.index[name := Hit(|r.entries|)]
        && r'.listed == r.listed
      else answer == LookupThrew(UnsupportedColumn) && r' == r
  }

  /** A table loads exactly when it has a reachable state for the transaction whose columns are all supported. */
  lemma LoadsExactly(r: Registry, name: string, startMs: int, table: Table)
    ensures var o := AfterLoad(r, name, startMs, Loaded(table));
            && LoadedAs(r, name, startMs, table, o.registry, o.answer)
            && (o.answer.Entry? <==>
                  && ResolveScanInfo(table, startMs).Ok?
                  && Supported(ResolveScanInfo(table, startMs).value.schema))
  {
    var resolved := ResolveScanInfo(table, startMs);
    if resolved.Ok? {
      var schema := resolved.value.schema;
      Columns.MapMembersAt(schema);
      forall i | 0 <= i < |schema|
        ensures Columns.MapType(schema[i].fieldType).None? <==> Columns.HasUnsupportedLeaf(schema[i].fieldType)
      {
        Columns.MapTypeFailsExactly(schema[i].fieldType);
      }
    }
  }

  lemma {:induction false} StorePlaceholdersOk(r: Registry, listing: set<string>, names: seq<string>)
    requires RegistryOk(r, listing) && r.listed
    ensures RegistryOk(StorePlaceholders(r, names), listing + NameSet(names))
    ensures Advances(r, StorePlaceholders(r, names))
    ensures StorePlaceholders(r, names).listed
  {
    if names == [] {
      assert listing + NameSet(names) == listing;
    } else {
      var earlier, name := names[..|names| - 1], names[|names| - 1];
      var before := StorePlaceholders(r, earlier);
      StorePlaceholdersOk(r, listing, earlier);
      assert NameSet(names) == NameSet(earlier) + {name} by {
        assert names == earlier + [name];
      }
      assert listing + NameSet(names) == listing + NameSet(earlier) + {name};
      if LookupIn(before.index, name).Unknown? {
        StoreOk(before, listing + NameSet(earlier), TableEntry(name, None));
        AdvancesTransitive(r, before, Store(before, TableEntry(name, None)));
      }
    }
  }

  /** The first listing advances the registry: it never resurrects an absent name nor downgrades a loaded one. */
  lemma AfterListingOk(r: Registry, names: seq<string>)
    requires RegistryOk(r, {}) && !r.listed
    ensures RegistryOk(AfterListing(r, names), NameSet(names))
    ensures Advances(r, AfterListing(r, names))
    ensures AfterListing(r, names).listed
  {
    var listed := r.(listed := true);
    assert RegistryOk(listed, {});
    assert Advances(r, listed);
    StorePlaceholdersOk(listed, {}, names);
    assert {} + NameSet(names) == NameSet(names);
    AdvancesTransitive(r, listed, AfterListing(r, names));
  }

  /** After a listing, the positive names are exactly the listed ones not known absent, and the loaded ones. */
  lemma PositivesAreListedOrLoaded(r: Registry, listing: set<string>)
    requires RegistryOk(r, listing)
    ensures PositiveKeys(r.index) ==
            (set name | name in listing && !LookupIn(r.index, name).Negative?)
            + (set name | name in r.index && IsLoaded(r, name))
  {
  }

  /** A name has at most two entries: a placeholder, and the loaded entry that replaced it. */
  lemma AtMostTwoEntries(r: Registry, i: nat, j: nat, k: nat)
    requires EntriesOk(r)
    requires i < j < k < |r.entries|
    ensures !(r.entries[i].name == r.entries[j].name == r.entries[k].name)
  {
  }
}

/** The code over a schema's tables. Remote answers are parameters, consumed only when the catalog is called. */
module SchemaEntries {
  import opened Wrappers
  import opened SignedStores
  import opened TableCache

  class TableRegistry {
    var entries: seq<TableEntry>
    const index: SignedStore<nat>
    var listed: bool

    constructor ()
      ensures View() == EMPTY_REGISTRY
      ensures fresh(index)
    {
      entries := [];
      index := new SignedStore();
      listed := false;
    }

    ghost function View(): Registry
      reads this, index
    {
      Registry(entries, index.entries, listed)
    }

    method MarkListed()
      modifies this`listed
      ensures View() == old(View()).(listed := true)
    {
      listed := true;
    }

    method Lookup(name: string) returns (r: LookupResult<nat>)
      ensures r == LookupIn(View().index, name)
    {
      r := index.Lookup(name);
    }

    method Store(entry: TableEntry) returns (stored: nat)
      modifies this`entries, index
      ensures View() == TableCache.Store(old(View()), entry)
      ensures stored == |old(entries)| && View().entries[stored] == entry
    {
      stored := |entries|;
      entries := entries + [entry];
      index.Put(entry.name, stored);
    }

    method MarkMissing(name: string)
      modifies index
      ensures View() == TableCache.MarkMissing(old(View()), name)
    {
      index.PutMiss(name);
    }
  }

  datatype ScanAnswer = Visited(entries: seq<(string, nat)>) | ScanThrew

  class SchemaEntry {
    const name: string
    var namespaceMissing: bool
    const tables: TableRegistry
    ghost var listing: set<string>  // the names of the listing, once there has been one

    ghost predicate Valid()
      reads this`listing, tables, tables.index
    {
      RegistryOk(tables.View(), listing)
    }

    constructor (name: string)
      ensures Valid()
      ensures this.name == name && !namespaceMissing && tables.View() == EMPTY_REGISTRY && listing == {}
      ensures fresh(tables) && fresh(tables.index)
    {
      this.name := name;
      namespaceMissing := false;
      tables := new TableRegistry();
      listing := {};
    }

    method MarkNamespaceMissing()
      modifies this`namespaceMissing
      ensures namespaceMissing
    {
      namespaceMissing := true;
    }

    method LoadTableEntry(tableName: string, startMs: int, reply: LoadReply) returns (answer: LookupAnswer)
      modifies this`namespaceMissing, tables`entries, tables.index
      ensures var o := AfterLoad(old(tables.View()), tableName, startMs, reply);
              && tables.View() == o.registry
              && namespaceMissing == (old(namespaceMissing) || o.namespaceMissing)
              && answer == o.answer
      ensures reply.Loaded? ==>
                LoadedAs(old(tables.View()), tableName, startMs, reply.table, tables.View(), answer)
    {
      if reply.Loaded? {
        LoadsExactly(tables.View(), tableName, startMs, reply.table);
      }
      match reply
      case NoSuchTable =>
        tables.MarkMissing(tableName);
        answer := NoEntry;
      case NoSuchNamespace =>
        MarkNamespaceMissing();
        tables.MarkMissing(tableName);
        answer := NoEntry;
      case LoadFailed => answer := LookupThrew(CatalogError);
      case Loaded(table) =>
        var made := MakeEntry(tableName, table, startMs);
        if made.Threw? {
          return LookupThrew(made.error);
        }
        var stored := tables.Store(made.value);
        answer := Entry(stored);
    }

    /** Looks a table up, asking the catalog only for a name that is unknown or a placeholder. Never answers with a
        placeholder. */
    method LookupEntry(isTable: bool, tableName: string, startMs: int, reply: LoadReply)
      returns (answer: LookupAnswer, called: bool)
      requires Valid()
      modifies this`namespaceMissing, tables`entries, tables.index
      ensures Valid() && Advances(old(tables.View()), tables.View())
      ensures answer.Entry? ==>
                && IsLoaded(tables.View(), tableName)
                && answer == CachedAnswer(tables.View(), tableName)
                && tables.entries[answer.entry].name == tableName
      ensures called <==>
                isTable && (tableName in old(tables.index.entries) ==>
                              var slot := old(tables.index.entries)[tableName];
                              slot.Hit? && old(tables.entries)[slot.value].info.None?)
      ensures !called ==>
                && tables.View() == old(tables.View()) && namespaceMissing == old(namespaceMissing)
                && answer == if isTable && old(tables.index.entries)[tableName].Hit?
                             then Entry(old(tables.index.entries)[tableName].value) else NoEntry
      ensures called ==>
                var o := AfterLoad(old(tables.View()), tableName, startMs, reply);
                && tables.View() == o.registry
                && namespaceMissing == (old(namespaceMissing) || o.namespaceMissing)
                && answer == o.answer
      ensures called && reply.Loaded? ==>
                LoadedAs(old(tables.View()), tableName, startMs, reply.table, tables.View(), answer)
      ensures called && (reply.NoSuchTable? || reply.NoSuchNamespace?) ==>
                answer == NoEntry && LookupIn(tables.View().index, tableName).Negative?
      ensures called && reply.LoadFailed? ==> answer == LookupThrew(CatalogError)
    {
      if !isTable {
        return NoEntry, false;
      }
      if NeedsLoad(tables.View(), tableName) {
        AfterLoadOk(tables.View(), listing, tableName, startMs, reply);
      }
      var status := tables.Lookup(tableName);
      match status
      case Negative => return NoEntry, false;
      case Positive(e) =>
        assert tables.View().index[tableName].Hit?;
        if tables.entries[e].NeedsLoad() {
          answer := LoadTableEntry(tableName, startMs, reply);
          return answer, true;
        }
        return Entry(e), false;
      case Unknown =>
        answer := LoadTableEntry(tableName, startMs, reply);
        return answer, true;
    }

    /** A table lookup, told only by what it answers. */
    method FindTable(tableName: string, startMs: int, reply: LoadReply) returns (answer: LookupAnswer)
      requires Valid()
      modifies this`namespaceMissing, tables`entries, tables.index
      ensures Valid()
      ensures answer.Entry? ==> IsLoaded(tables.View(), tableName) && answer == CachedAnswer(tables.View(), tableName)
    {
      var called;
      answer, called := LookupEntry(true, tableName, startMs, reply);
    }

    method StoreListing(names: seq<string>)
      requires Valid() && !tables.listed
      modifies this`listing, tables, tables.index
      ensures Valid() && listing == NameSet(names)
      ensures tables.View() == AfterListing(old(tables.View()), names)
    {
      AfterListingOk(tables.View(), names);
      tables.MarkListed();
      for i := 0 to |names|
        invariant tables.View() == StorePlaceholders(old(tables.View()).(listed := true), names[..i])
      {
        assert names[..i + 1][..i] == names[..i];
        var status := tables.Lookup(names[i]);
        if status.Unknown? {
          var _ := tables.Store(TableEntry(names[i], None));
        }
      }
      assert names[..|names|] == names;
      listing := NameSet(names);
    }

    /** Visits the schema's tables in name order, listing them first if this transaction has not. */
    method Scan(isTable: bool, reply: ListReply) returns (answer: ScanAnswer, called: bool)
      requires Valid()
      modifies this`namespaceMissing, this`listing, tables, tables.index
      ensures Valid() && Advances(old(tables.View()), tables.View())
      ensures called <==> isTable && !old(namespaceMissing) && !old(tables.listed)
      ensures namespaceMissing == (old(namespaceMissing) || (called && reply.ListNoSuchNamespace?))
      ensures tables.View() == if called && reply.Listed? then AfterListing(old(tables.View()), reply.names)
                               else old(tables.View())
      ensures answer.ScanThrew? <==> called && reply.ListFailed?
      ensures answer.Visited? ==>
                if isTable && !namespaceMissing then VisitsPositives(answer.entries, tables.View().index)
                else answer.entries == []
    {
      called := false;
      if !isTable || namespaceMissing {
        return Visited([]), false;
      }
      if !tables.listed {
        called := true;
        match reply {
          case ListNoSuchNamespace =>
            MarkNamespaceMissing();
            return Visited([]), true;
          case ListFailed => return ScanThrew, true;
          case Listed(names) =>
            AfterListingOk(tables.View(), names);
            StoreListing(names);
        }
      }
      var visited := tables.index.ForEachPositive();
      answer := Visited(visited);
    }
  }
}
