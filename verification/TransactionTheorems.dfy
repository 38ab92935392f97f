/** What a transaction's threads can count on, in every state any interleaving with each other and with the catalog's
    other writers can reach. */
module TransactionTheorems {
  import opened Wrappers
  import opened Ordered
  import opened Text
  import opened SignedStores
  import opened Snapshots
  import opened TableCache
  import opened SchemaCache
  import opened Interleaving

  // ----- The invariant's parts, in a reachable state -----

  lemma LoggedHolds(c: Config, g: State, actions: seq<Action>, e: Event)
    requires Initial(c, g)
    requires e in Run(c, g, actions).log
    ensures EventOk(Run(c, g, actions).data, e)
  {
    RunKeepsInv(c, g, actions);
  }

  lemma LoggedInOrder(c: Config, g: State, actions: seq<Action>, j: nat, k: nat)
    requires Initial(c, g)
    requires j < k < |Run(c, g, actions).log|
    ensures Compatible(Run(c, g, actions).log[j], Run(c, g, actions).log[k])
  {
    RunKeepsInv(c, g, actions);
  }

  lemma ThreadHolds(c: Config, g: State, actions: seq<Action>, i: nat)
    requires Initial(c, g)
    requires i < |Run(c, g, actions).threads|
    ensures PcOk(c, Run(c, g, actions).data, Run(c, g, actions).threads[i])
  {
    RunKeepsInv(c, g, actions);
  }

  lemma ThreadsExclude(c: Config, g: State, actions: seq<Action>, i: nat, j: nat)
    requires Initial(c, g)
    requires i < j < |Run(c, g, actions).threads|
    ensures Held(Run(c, g, actions).threads[i]) !! Held(Run(c, g, actions).threads[j])
  {
    RunKeepsInv(c, g, actions);
  }

  // ----- Locks -----

  /** A thread waits only for a lock ranked above every lock it holds: schemas, then tables, then the catalog. */
  function Rank(lock: Lock): nat {
    match lock
    case SchemasLock => 0
    case TablesLock(_) => 1
    case CatalogLock => 2
  }

  lemma LocksAreTakenInOrder(pc: Pc, lock: Lock)
    requires Wants(pc).Some? && lock in Held(pc)
    ensures Rank(lock) < Rank(Wants(pc).value)
  {
  }

  /** Following who holds what a blocked thread waits for leads to a thread that can run. */
  lemma {:induction false} SomeoneRuns(threads: seq<Pc>, i: nat) returns (runner: nat)
    requires i < |threads| && !threads[i].Idle?
    ensures runner < |threads| && !threads[runner].Idle? && !Blocked(threads, runner)
    decreases if Wants(threads[i]).Some? then 3 - Rank(Wants(threads[i]).value) else 0
  {
    if !Blocked(threads, i) {
      runner := i;
    } else {
      var holder :| 0 <= holder < |threads| && Wants(threads[i]).value in Held(threads[holder]);
      if Wants(threads[holder]).Some? {
        LocksAreTakenInOrder(threads[holder], Wants(threads[i]).value);
      }
      runner := SomeoneRuns(threads, holder);
    }
  }

  /** How far a thread is from being done: the phases of a root listing, then schemas left to go past, then the table
      operations left to a callback, then the steps of one operation. */
  function Phase(pc: Pc): nat {
    match pc
    case WantScanSchemas => 5
    case InScanSchemas => 4
    case WantRootCall => 3
    case InRootCall => 2
    case RootReplied(_) => 1
    case _ => 0
  }

  function CallbackOf(pc: Pc): Option<Callback> {
    match pc
    case InCallback(callback) => Some(callback)
    case CheckMissing(_, outer) => outer
    case WantTables(_, _, outer) => outer
    case InTables(_, _, outer) => outer
    case WantTableCall(_, _, outer) => outer
    case InTableCall(_, _, outer) => outer
    case LoadReplied(_, _, outer, _) => outer
    case ListReplied(_, outer, _) => outer
    case _ => None
  }

  function SchemasLeft(pc: Pc): nat {
    if pc.VisitingSchemas? then |pc.todo| else if CallbackOf(pc).Some? then |CallbackOf(pc).value.todo| else 0
  }

  function OpsLeft(pc: Pc): nat {
    if CallbackOf(pc).Some? then 1 + |CallbackOf(pc).value.ops| else 0
  }

  function StepsLeft(pc: Pc): nat {
    match pc
    case WantLookupSchema(_) => 2
    case InLookupSchema(_) => 1
    case VisitingSchemas(_) => 1
    case CheckMissing(_, _) => 6
    case WantTables(_, _, _) => 5
    case InTables(_, _, _) => 4
    case WantTableCall(_, _, _) => 3
    case InTableCall(_, _, _) => 2
    case LoadReplied(_, _, _, _) => 1
    case ListReplied(_, _, _) => 1
    case _ => 0
  }

  /** The four counts, compared in this order. */
  predicate Closer(pc: Pc, pc': Pc) {
    || Phase(pc') < Phase(pc)
    || (Phase(pc') == Phase(pc) &&
        (|| SchemasLeft(pc') < SchemasLeft(pc)
         || (SchemasLeft(pc') == SchemasLeft(pc) &&
             (OpsLeft(pc') < OpsLeft(pc) || (OpsLeft(pc') == OpsLeft(pc) && StepsLeft(pc') < StepsLeft(pc))))))
  }

  lemma NextFinishes(c: Config, d: Data, world: World, pc: Pc, choice: Choice)
    requires !pc.Idle?
    requires !pc.InLookupSchema? && !pc.RootReplied? && !pc.InTables? && !pc.LoadReplied? && !pc.ListReplied?
    ensures Closer(pc, Next(c, d, world, pc, choice))
  {
  }

  lemma ReturnFinishes(pc: Pc)
    requires Phase(pc) == 0 && StepsLeft(pc) > 0 && !pc.VisitingSchemas?
    ensures Closer(pc, Return(CallbackOf(pc))) && Closer(pc, Idle)
  {
  }

  lemma InTablesFinishes(d: Data, pc: Pc)
    requires pc.InTables?
    ensures Closer(pc, InTablesEffect(d, pc).pc)
  {
    var pc' := InTablesEffect(d, pc).pc;
    ReturnFinishes(pc);
    assert pc' == Return(pc.outer) || pc' == WantTableCall(pc.schema, pc.op, pc.outer);
  }

  /** Every step of a busy thread brings its operation strictly closer to its end. */
  lemma StepsFinish(c: Config, d: Data, world: World, pc: Pc, choice: Choice)
    requires !pc.Idle?
    ensures Closer(pc, EffectOf(c, d, world, pc, choice).pc)
  {
    match pc
    case InLookupSchema(_) =>
    case RootReplied(_) =>
    case InTables(_, _, _) => InTablesFinishes(d, pc);
    case LoadReplied(_, _, _, _) =>
      ReturnFinishes(pc);
      LoadReplyReturns(c, d, d, pc);
    case ListReplied(_, _, _) =>
      ReturnFinishes(pc);
      ListReplyReturns(c, d, d, pc);
    case _ => NextFinishes(c, d, world, pc, choice);
  }

  /** Deadlock freedom: in every reachable state with a busy thread, some busy thread can step, and its step brings it
      closer to the end of its operation. */
  lemma DeadlockFree(c: Config, g: State, actions: seq<Action>, busy: nat, choice: Choice) returns (runner: nat)
    requires Initial(c, g)
    requires busy < |Run(c, g, actions).threads| && !Run(c, g, actions).threads[busy].Idle?
    ensures var now := Run(c, g, actions);
            && runner < |now.threads| && !now.threads[runner].Idle? && !Blocked(now.threads, runner)
            && |Step(c, now, Act(runner, choice)).threads| == |now.threads|
            && Closer(now.threads[runner], Step(c, now, Act(runner, choice)).threads[runner])
  {
    var now := Run(c, g, actions);
    runner := SomeoneRuns(now.threads, busy);
    StepsFinish(c, now.data, now.world, now.threads[runner], choice);
  }

  /** A thread between locking the schemas and releasing them: throughout a lookup, and throughout a scan with all its
      callbacks. */
  predicate AmongSchemas(pc: Pc) {
    || pc.InLookupSchema? || pc.InScanSchemas? || pc.WantRootCall? || pc.InRootCall? || pc.RootReplied?
    || pc.VisitingSchemas? || CallbackOf(pc).Some?
  }

  /** The schema whose tables a thread has locked: from before it reads them until it has acted on the catalog's
      answer. */
  function AmongTables(pc: Pc): Option<string> {
    match pc
    case InTables(schema, _, _) => Some(schema)
    case WantTableCall(schema, _, _) => Some(schema)
    case InTableCall(schema, _, _) => Some(schema)
    case LoadReplied(schema, _, _, _) => Some(schema)
    case ListReplied(schema, _, _) => Some(schema)
    case _ => None
  }

  lemma LocksHeldExactly(pc: Pc)
    ensures CatalogLock in Held(pc) <==> InCatalog(pc)
    ensures SchemasLock in Held(pc) <==> AmongSchemas(pc)
    ensures forall schema :: TablesLock(schema) in Held(pc) <==> AmongTables(pc) == Some(schema)
  {
  }

  /** No two catalog calls overlap, and no two threads are among the schemas, or among the tables of one schema. */
  lemma CatalogCallsNeverOverlap(c: Config, g: State, actions: seq<Action>, i: nat, j: nat)
    requires Initial(c, g)
    requires i < j < |Run(c, g, actions).threads|
    ensures var a, b := Run(c, g, actions).threads[i], Run(c, g, actions).threads[j];
            && !(InCatalog(a) && InCatalog(b))
            && !(AmongSchemas(a) && AmongSchemas(b))
            && (AmongTables(a).Some? ==> AmongTables(a) != AmongTables(b))
  {
    var threads := Run(c, g, actions).threads;
    ThreadsExclude(c, g, actions, i, j);
    LocksHeldExactly(threads[i]);
    LocksHeldExactly(threads[j]);
    if AmongTables(threads[i]).Some? {
      assert TablesLock(AmongTables(threads[i]).value) in Held(threads[i]);
    }
  }

  /** The redirect to the default schema happens before any lock is held, and redirects no further: the lookup that then
      waits for the schemas' lock is for a name that is not redirected again. */
  lemma RedirectSettles(c: Config, d: Data, world: World, name: string)
    ensures var pc := Next(c, d, world, Idle, StartLookupSchema(name));
            && Held(pc) == {}
            && pc == WantLookupSchema(Redirect(name, c.defaultSchema)) && Wants(pc) == Some(SchemasLock)
            && Redirect(pc.name, c.defaultSchema) == pc.name
  {
  }

  // ----- Loads and listings -----

  lemma NoCallForSettled(c: Config, d: Data, pc: Pc, schema: string, table: string)
    requires PcOk(c, d, pc) && EventOk(d, Concluded(schema, table))
    ensures !(pc.InTableCall? && pc.schema == schema && pc.op == LookupTable(table))
  {
  }

  /** At most one load settles a name: no interleaving settles it twice, and none is under way for a settled one. */
  lemma OneConclusiveLoad(c: Config, g: State, actions: seq<Action>, schema: string, table: string)
    requires Initial(c, g)
    ensures var now := Run(c, g, actions);
            && (forall j, k | 0 <= j < k < |now.log| && now.log[j] == Concluded(schema, table) ::
                  now.log[k] != now.log[j])
            && (Concluded(schema, table) in now.log ==>
                  forall i | 0 <= i < |now.threads| ::
                    !(now.threads[i].InTableCall? && now.threads[i].schema == schema
                      && now.threads[i].op == LookupTable(table)))
  {
    var now := Run(c, g, actions);
    forall j, k | 0 <= j < k < |now.log| && now.log[j] == Concluded(schema, table) ensures now.log[k] != now.log[j] {
      LoggedInOrder(c, g, actions, j, k);
    }
    if Concluded(schema, table) in now.log {
      LoggedHolds(c, g, actions, Concluded(schema, table));
      forall i | 0 <= i < |now.threads|
        ensures !(now.threads[i].InTableCall? && now.threads[i].schema == schema
                  && now.threads[i].op == LookupTable(table))
      {
        ThreadHolds(c, g, actions, i);
        NoCallForSettled(c, now.data, now.threads[i], schema, table);
      }
    }
  }

  /** Tables of a schema, and the root, are listed at most once with success. */
  lemma OneListing(c: Config, g: State, actions: seq<Action>, j: nat, k: nat)
    requires Initial(c, g)
    requires j < k < |Run(c, g, actions).log|
    ensures var log := Run(c, g, actions).log;
            && !(log[j].TablesListed? && log[k].TablesListed? && log[j].schema == log[k].schema)
            && !(log[j].RootListed? && log[k].RootListed?)
  {
    LoggedInOrder(c, g, actions, j, k);
  }

  /** Repeatable read: two lookups that answer for a name answer alike, wherever in the run they are. Never with a
      placeholder, always with an entry still owned under that name; and then no lookup says the table is absent. */
  lemma RepeatableRead(c: Config, g: State, actions: seq<Action>, schema: string, table: string, entry: nat)
    requires Initial(c, g)
    requires Answered(schema, table, entry) in Run(c, g, actions).log
    ensures var now := Run(c, g, actions);
            && schema in now.data.registries
            && entry < |now.data.registries[schema].entries|
            && now.data.registries[schema].entries[entry].name == table
            && !now.data.registries[schema].entries[entry].NeedsLoad()
            && (forall other | Answered(schema, table, other) in now.log :: other == entry)
            && Absent(schema, table) !in now.log
  {
    var now := Run(c, g, actions);
    LoggedHolds(c, g, actions, Answered(schema, table, entry));
    forall other | Answered(schema, table, other) in now.log ensures other == entry {
      LoggedHolds(c, g, actions, Answered(schema, table, other));
    }
    if Absent(schema, table) in now.log {
      LoggedHolds(c, g, actions, Absent(schema, table));
      assert false;
    }
    RunKeepsInv(c, g, actions);
    SchemaIsOk(c, now.data, schema);
  }

  /** The scan of an entry that a lookup answered with. */
  function ScanOf(d: Data, schema: string, entry: nat): Option<ScanInfo> {
    var r := RegistryOf(d, schema);
    if entry < |r.entries| then r.entries[entry].info else None
  }

  /** A consistent cut: every table answered, in any schema, is read as it was at the one start of the transaction,
      under whatever name it had then, unless it was left without snapshots. */
  lemma ConsistentCut(c: Config, g: State, actions: seq<Action>, schema: string, table: string, entry: nat)
    requires Initial(c, g)
    requires Answered(schema, table, entry) in Run(c, g, actions).log
    ensures var r := RegistryOf(Run(c, g, actions).data, schema);
            && entry < |r.entries| && r.entries[entry].info.Some?
            && Isolated(StartOf(c, r.entries[entry].info.value.table.uuid), r.entries[entry].info.value)
  {
    RepeatableRead(c, g, actions, schema, table, entry);
    RunKeepsInv(c, g, actions);
    SchemaIsOk(c, Run(c, g, actions).data, schema);
  }

  // ----- Retention -----

  lemma ExtendsTransitive(c: Config, a: Data, b: Data, d: Data)
    requires DataOk(a, Sound(c)) && DataOk(b, Sound(c))
    requires Extends(a, b) && Extends(b, d)
    ensures Extends(a, d)
  {
    forall s | s in a.registries ensures s in d.registries && Grows(a.registries[s], d.registries[s]) {
      SchemaIsOk(c, a, s);
      SchemaIsOk(c, b, s);
      GrowsTransitive(a.registries[s], b.registries[s], d.registries[s]);
    }
  }

  lemma StepExtends(c: Config, g: State, a: Action)
    requires Inv(c, g)
    ensures Extends(g.data, Step(c, g, a).data)
  {
    ExtendsItself(g.data);
    if a.Act? && a.thread < |g.threads| && !Blocked(g.threads, a.thread) {
      StepEffectOk(c, g.data, g.world, g.threads[a.thread], a.choice);
    }
  }

  lemma {:induction false} RunExtends(c: Config, g: State, actions: seq<Action>, n: nat)
    requires Initial(c, g) && n <= |actions|
    ensures Extends(Run(c, g, actions[..n]).data, Run(c, g, actions).data)
    decreases |actions|
  {
    if n == |actions| {
      assert actions[..n] == actions;
      ExtendsItself(Run(c, g, actions).data);
    } else {
      var earlier := actions[..|actions| - 1];
      assert earlier[..n] == actions[..n];
      RunExtends(c, g, earlier, n);
      RunKeepsInv(c, g, actions[..n]);
      RunKeepsInv(c, g, earlier);
      StepExtends(c, Run(c, g, earlier), actions[|actions| - 1]);
      ExtendsTransitive(c, Run(c, g, actions[..n]).data, Run(c, g, earlier).data, Run(c, g, actions).data);
    }
  }

  /** Retention: an entry owned at any point of a run is owned, unchanged, ever after; so replacing a placeholder leaves
      a running scan's reference to it good. */
  lemma EntriesRetained(c: Config, g: State, actions: seq<Action>, n: nat, schema: string, entry: nat)
    requires Initial(c, g) && n <= |actions|
    requires schema in Run(c, g, actions[..n]).data.registries
    requires entry < |Run(c, g, actions[..n]).data.registries[schema].entries|
    ensures var before, now := Run(c, g, actions[..n]).data, Run(c, g, actions).data;
            && schema in now.registries
            && entry < |now.registries[schema].entries|
            && now.registries[schema].entries[entry] == before.registries[schema].entries[entry]
  {
    RunExtends(c, g, actions, n);
    var before, now := Run(c, g, actions[..n]).data, Run(c, g, actions).data;
    assert Grows(before.registries[schema], now.registries[schema]);
  }

  /** Ownership, in every reachable registry: the index names the last entry stored under each name, and a name has at
      most two entries, of which only the later can be loaded. */
  lemma RegistriesOwnTheirEntries(c: Config, g: State, actions: seq<Action>, schema: string)
    requires Initial(c, g)
    requires schema in Run(c, g, actions).data.registries
    ensures var r := Run(c, g, actions).data.registries[schema];
            && IndexOk(r) && EntriesOk(r)
            && forall i, j, k | 0 <= i < j < k < |r.entries| ::
                 !(r.entries[i].name == r.entries[j].name == r.entries[k].name)
  {
    var r := Run(c, g, actions).data.registries[schema];
    RunKeepsInv(c, g, actions);
    SchemaIsOk(c, Run(c, g, actions).data, schema);
    forall i, j, k | 0 <= i < j < k < |r.entries|
      ensures !(r.entries[i].name == r.entries[j].name == r.entries[k].name)
    {
      AtMostTwoEntries(r, i, j, k);
    }
  }

  // ----- Listings agree with lookups -----

  /** A scan visits, in name order, exactly the names of the one listing not known absent at the time, and every name
      loaded by then; and it visits the last entry under each. */
  lemma ScanVisitsExactly(c: Config, g: State, actions: seq<Action>, schema: string, visited: seq<string>,
                          known: Registry)
    requires Initial(c, g)
    requires Scanned(schema, visited, known) in Run(c, g, actions).log
    ensures var now := Run(c, g, actions).data;
            && schema in now.listings && schema in now.registries
            && IndexOk(known) && known.entries <= now.registries[schema].entries
            && TotalOrder(LexLe)
            && Enumerates(visited,
                          (set name | name in now.listings[schema] && !LookupIn(known.index, name).Negative?)
                          + (set name | name in known.index && IsLoaded(known, name)),
                          LexLe)
  {
    LoggedHolds(c, g, actions, Scanned(schema, visited, known));
    ScannedExactly(Run(c, g, actions).data, schema, visited, known);
  }

  lemma ScannedExactly(d: Data, schema: string, visited: seq<string>, known: Registry)
    requires EventOk(d, Scanned(schema, visited, known))
    ensures known.entries <= d.registries[schema].entries
    ensures TotalOrder(LexLe)
    ensures Enumerates(visited,
                       (set name | name in d.listings[schema] && !LookupIn(known.index, name).Negative?)
                       + (set name | name in known.index && IsLoaded(known, name)),
                       LexLe)
  {
    LexIsTotalOrder();
    PositivesAreListedOrLoaded(known, d.listings[schema]);
  }

  /** The closed world: once the root is listed, a schema is found exactly if it is listed and not known missing. */
  lemma SchemasClosedByListing(c: Config, g: State, actions: seq<Action>, names: set<string>, name: string)
    requires Initial(c, g)
    requires RootListed(names) in Run(c, g, actions).log
    ensures var schemas := Run(c, g, actions).data.schemas;
            && schemas.listed
            && names <= schemas.missing.Keys
            && (Finds(schemas, name) <==> name in names && !schemas.missing[name])
            && (Finds(schemas, name) <==> name in VisibleNames(schemas))
            && VisibleNames(schemas) <= names
            && AfterLookup(schemas, name) == schemas
  {
    LoggedHolds(c, g, actions, RootListed(names));
    RunKeepsInv(c, g, actions);
    LookupsAgreeWithListing(Run(c, g, actions).data.schemas, names, name);
  }

  /** A schema that a lookup once did not find is never found again in the transaction. */
  lemma MissingSchemasStayMissing(c: Config, g: State, actions: seq<Action>, name: string, j: nat, k: nat)
    requires Initial(c, g)
    requires j < k < |Run(c, g, actions).log|
    requires Run(c, g, actions).log[j] == SchemaNotFound(name)
    ensures Run(c, g, actions).log[k] != SchemaFound(name)
    ensures !Finds(Run(c, g, actions).data.schemas, name)
  {
    LoggedInOrder(c, g, actions, j, k);
    LoggedHolds(c, g, actions, SchemaNotFound(name));
  }
}
