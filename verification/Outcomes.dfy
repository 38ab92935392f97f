/** What an operation comes to when its thread runs alone: the interleaving theorems say what may never happen, these
    what does. */
module Outcomes {
  import opened Wrappers
  import opened SignedStores
  import opened Snapshots
  import opened TableCache
  import opened SchemaCache
  import opened Interleaving
  import opened TransactionTheorems

  /** Every other thread is idle. */
  predicate Alone(g: State, i: nat) {
    i < |g.threads| && forall j | 0 <= j < |g.threads| && j != i :: g.threads[j].Idle?
  }

  function At(g: State, i: nat, pc: Pc): State
    requires i < |g.threads|
  {
    g.(threads := g.threads[i := pc])
  }

  /** The state after n more steps of a thread, with no choice of its own. */
  ghost function Goes(c: Config, g: State, i: nat, n: nat): State
    decreases n
  {
    if n == 0 then g else Goes(c, Step(c, g, Act(i, Go)), i, n - 1)
  }

  lemma AloneRuns(g: State, i: nat)
    requires Alone(g, i)
    ensures !Blocked(g.threads, i)
  {
    if Wants(g.threads[i]).Some? && Wants(g.threads[i]).value in Held(g.threads[i]) {
      LocksAreTakenInOrder(g.threads[i], Wants(g.threads[i]).value);
    }
  }

  lemma StepsAlone(c: Config, g: State, i: nat, pc: Pc, choice: Choice)
    requires Alone(g, i)
    ensures var e := EffectOf(c, g.data, g.world, pc, choice);
            && Alone(At(g, i, pc), i)
            && Step(c, At(g, i, pc), Act(i, choice)) ==
               At(State(e.data, g.world, g.threads, g.log + e.events, g.trail + ScanEvents(i, pc, e.pc)), i, e.pc)
  {
    AloneRuns(At(g, i, pc), i);
    assert g.threads[i := pc][i := EffectOf(c, g.data, g.world, pc, choice).pc]
        == g.threads[i := EffectOf(c, g.data, g.world, pc, choice).pc];
  }

  /** A step that changes nothing but where the thread is. */
  lemma MovesAlone(c: Config, g: State, i: nat, pc: Pc, choice: Choice, pc': Pc)
    requires Alone(g, i)
    requires EffectOf(c, g.data, g.world, pc, choice) == Effect(pc', g.data, [])
    requires ScanEvents(i, pc, pc') == []
    ensures Step(c, At(g, i, pc), Act(i, choice)) == At(g, i, pc')
  {
    StepsAlone(c, g, i, pc, choice);
    assert g.log + [] == g.log && g.trail + [] == g.trail;
  }

  /** The same, as the first of several. */
  lemma GoesAlone(c: Config, g: State, i: nat, pc: Pc, pc': Pc, n: nat)
    requires Alone(g, i)
    requires EffectOf(c, g.data, g.world, pc, Go) == Effect(pc', g.data, [])
    requires ScanEvents(i, pc, pc') == []
    ensures Goes(c, At(g, i, pc), i, n + 1) == Goes(c, At(g, i, pc'), i, n)
  {
    MovesAlone(c, g, i, pc, Go, pc');
  }

  /** The step that ends an operation. */
  lemma LastStep(c: Config, g: State, i: nat, pc: Pc)
    requires Alone(g, i) && g.threads[i] == Idle
    requires EffectOf(c, g.data, g.world, pc, Go).pc == Idle && ScanEvents(i, pc, Idle) == []
    ensures var e := EffectOf(c, g.data, g.world, pc, Go);
            Goes(c, At(g, i, pc), i, 1) == g.(data := e.data, log := g.log + e.events)
  {
    StepsAlone(c, g, i, pc, Go);
    assert g.trail + [] == g.trail;
    assert g.threads[i := Idle] == g.threads;
  }

  lemma StartsTableOp(c: Config, g: State, i: nat, schema: string, op: TableOp)
    requires Alone(g, i) && g.threads[i] == Idle && schema in g.data.registries
    ensures Step(c, g, Act(i, StartTableOp(schema, op))) == At(g, i, StartOp(schema, op, None))
  {
    assert At(g, i, Idle) == g;
    MovesAlone(c, g, i, Idle, StartTableOp(schema, op), StartOp(schema, op, None));
  }

  lemma TablesAreLocked(c: Config, g: State, i: nat, schema: string, op: TableOp, n: nat)
    requires Alone(g, i)
    ensures Goes(c, At(g, i, WantTables(schema, op, None)), i, n + 1)
            == Goes(c, At(g, i, InTables(schema, op, None)), i, n)
  {
    GoesAlone(c, g, i, WantTables(schema, op, None), InTables(schema, op, None), n);
  }

  lemma CatalogIsWanted(c: Config, g: State, i: nat, schema: string, op: TableOp, n: nat)
    requires Alone(g, i)
    requires InTablesEffect(g.data, InTables(schema, op, None)) == Effect(WantTableCall(schema, op, None), g.data, [])
    ensures Goes(c, At(g, i, InTables(schema, op, None)), i, n + 1)
            == Goes(c, At(g, i, WantTableCall(schema, op, None)), i, n)
  {
    GoesAlone(c, g, i, InTables(schema, op, None), WantTableCall(schema, op, None), n);
  }

  lemma CatalogIsLocked(c: Config, g: State, i: nat, schema: string, op: TableOp, n: nat)
    requires Alone(g, i)
    ensures Goes(c, At(g, i, WantTableCall(schema, op, None)), i, n + 1)
            == Goes(c, At(g, i, InTableCall(schema, op, None)), i, n)
  {
    GoesAlone(c, g, i, WantTableCall(schema, op, None), InTableCall(schema, op, None), n);
  }

  lemma CatalogLoads(c: Config, g: State, i: nat, schema: string, table: string, n: nat)
    requires Alone(g, i)
    ensures var reply := if (schema, table) in g.world then Loaded(g.world[(schema, table)]) else NoSuchTable;
            Goes(c, At(g, i, InTableCall(schema, LookupTable(table), None)), i, n + 1)
            == Goes(c, At(g, i, LoadReplied(schema, table, None, reply)), i, n)
  {
    var reply := if (schema, table) in g.world then Loaded(g.world[(schema, table)]) else NoSuchTable;
    GoesAlone(c, g, i, InTableCall(schema, LookupTable(table), None), LoadReplied(schema, table, None, reply), n);
  }

  // ----- Tables -----

  /** The answer of one lookup of a table, by a thread that runs alone. */
  ghost function Lookup(c: Config, g: State, i: nat, schema: string, table: string, steps: nat): State {
    Goes(c, Step(c, g, Act(i, StartTableOp(schema, LookupTable(table)))), i, steps)
  }

  lemma LookupReachesTables(c: Config, g: State, i: nat, schema: string, table: string, steps: nat)
    requires Alone(g, i) && g.threads[i] == Idle && schema in g.data.registries
    ensures Lookup(c, g, i, schema, table, 1 + steps)
            == Goes(c, At(g, i, InTables(schema, LookupTable(table), None)), i, steps)
  {
    StartsTableOp(c, g, i, schema, LookupTable(table));
    TablesAreLocked(c, g, i, schema, LookupTable(table), steps);
  }

  /** What the tables' index says of a name: that the table has been loaded, or that there is none. */
  predicate Settled(r: Registry, table: string) {
    && table in r.index
    && match r.index[table]
       case Miss => true
       case Hit(entry) => entry < |r.entries| && r.entries[entry].info.Some?
  }

  /** Or nothing, or that a listing had it. */
  predicate Unsettled(r: Registry, table: string) {
    table in r.index ==>
      r.index[table].Hit? && r.index[table].value < |r.entries| && r.entries[r.index[table].value].info.None?
  }

  lemma SettledEffect(d: Data, schema: string, table: string)
    requires schema in d.registries && Settled(d.registries[schema], table)
    ensures var slot := d.registries[schema].index[table];
            InTablesEffect(d, InTables(schema, LookupTable(table), None)) ==
            Effect(Idle, d, [if slot.Hit? then Answered(schema, table, slot.value) else Absent(schema, table)])
  {
  }

  lemma UnsettledEffect(d: Data, schema: string, table: string)
    requires schema in d.registries && Unsettled(d.registries[schema], table)
    ensures InTablesEffect(d, InTables(schema, LookupTable(table), None)) ==
            Effect(WantTableCall(schema, LookupTable(table), None), d, [])
  {
  }

  /** A table known to exist is answered with its entry, one known to be absent with nothing, and nothing changes. */
  lemma KnownTableIsAnswered(c: Config, g: State, i: nat, schema: string, table: string)
    requires Alone(g, i) && g.threads[i] == Idle
    requires schema in g.data.registries && Settled(g.data.registries[schema], table)
    ensures var slot := g.data.registries[schema].index[table];
            Lookup(c, g, i, schema, table, 2) ==
            g.(log := g.log + [if slot.Hit? then Answered(schema, table, slot.value) else Absent(schema, table)])
  {
    LookupReachesTables(c, g, i, schema, table, 1);
    SettledEffect(g.data, schema, table);
    LastStep(c, g, i, InTables(schema, LookupTable(table), None));
  }

  lemma UnknownTableIsLoaded(c: Config, g: State, i: nat, schema: string, table: string)
    requires Alone(g, i) && g.threads[i] == Idle
    requires schema in g.data.registries && Unsettled(g.data.registries[schema], table)
    ensures var reply := if (schema, table) in g.world then Loaded(g.world[(schema, table)]) else NoSuchTable;
            Lookup(c, g, i, schema, table, 5)
            == Goes(c, At(g, i, LoadReplied(schema, table, None, reply)), i, 1)
  {
    var op := LookupTable(table);
    LookupReachesTables(c, g, i, schema, table, 4);
    UnsettledEffect(g.data, schema, table);
    CatalogIsWanted(c, g, i, schema, op, 3);
    CatalogIsLocked(c, g, i, schema, op, 2);
    CatalogLoads(c, g, i, schema, table, 1);
  }

  /** Where a finished table operation goes on: in the callback that ran it, or nowhere. */
  function Resumed(outer: Option<Callback>): Pc {
    match outer
    case None => Idle
    case Some(callback) => InCallback(callback)
  }

  /** What a load's answer comes to, wherever the lookup was made: a readable table is answered, an absent one is known
      to be absent, a missing namespace marks the schema, and a failure changes nothing. */
  lemma LoadReplyExactly(c: Config, d: Data, pc: Pc)
    requires pc.LoadReplied? && pc.schema in d.registries
    ensures var s, t, r := pc.schema, pc.table, d.registries[pc.schema];
            var e := LoadReplyEffect(c, d, pc);
            && s in e.data.registries
            && (forall other | other != s && other in d.registries ::
                  other in e.data.registries && e.data.registries[other] == d.registries[other])
            && (s in d.schemas.missing ==>
                  (IsMissing(e.data, s) <==> IsMissing(d, s) || pc.loadReply.NoSuchNamespace?))
            && match pc.loadReply
               case LoadFailed => e.events == [] && e.data.registries[s] == r && e.pc == Idle
               case Loaded(table) =>
                 if ResolveScanInfo(table, c.startMs).Ok? && Supported(ResolveScanInfo(table, c.startMs).value.schema)
                 then
                   && e.events == [Concluded(s, t), Answered(s, t, |r.entries|)]
                   && e.data.registries[s].entries
                      == r.entries + [TableEntry(t, Some(ResolveScanInfo(table, c.startMs).value))]
                   && e.data.registries[s].index == r.index[t := Hit(|r.entries|)]
                   && e.pc == Resumed(pc.outer)
                 else e.events == [] && e.data.registries[s] == r && e.pc == Idle
               case _ =>
                 && e.events == [Concluded(s, t), Absent(s, t)]
                 && e.data.registries[s] == r.(index := r.index[t := Miss])
                 && e.pc == Resumed(pc.outer)
  {
    if pc.loadReply.Loaded? {
      LoadsExactly(d.registries[pc.schema], pc.table, c.startMs, pc.loadReply.table);
    }
  }

  /** A lookup that has to ask finds the very table the catalog has: a readable one is answered with the state resolved
      for the transaction, an unreadable one throws and changes nothing, and an absent one is answered as absent. */
  lemma LookupAsksTheCatalog(c: Config, g: State, i: nat, schema: string, table: string)
    requires Alone(g, i) && g.threads[i] == Idle
    requires schema in g.data.registries && Unsettled(g.data.registries[schema], table)
    ensures var r, after := g.data.registries[schema], Lookup(c, g, i, schema, table, 5);
            && after.threads == g.threads && after.world == g.world && after.trail == g.trail
            && schema in after.data.registries
            && if (schema, table) !in g.world then
                 && after.log == g.log + [Concluded(schema, table), Absent(schema, table)]
                 && after.data.registries[schema] == r.(index := r.index[table := Miss])
               else
                 var resolved := ResolveScanInfo(g.world[(schema, table)], c.startMs);
                 if resolved.Ok? && Supported(resolved.value.schema) then
                   && after.log == g.log + [Concluded(schema, table), Answered(schema, table, |r.entries|)]
                   && after.data.registries[schema].entries == r.entries + [TableEntry(table, Some(resolved.value))]
                 else after.log == g.log && after.data.registries[schema] == r
  {
    UnknownTableIsLoaded(c, g, i, schema, table);
    var reply := if (schema, table) in g.world then Loaded(g.world[(schema, table)]) else NoSuchTable;
    var pc := LoadReplied(schema, table, None, reply);
    LoadReplyReturns(c, g.data, g.data, pc);
    LastStep(c, g, i, pc);
    LoadReplyExactly(c, g.data, pc);
    assert g.log + [] == g.log;
  }

  // ----- Scans of tables -----

  ghost function ScanReaches(c: Config, g: State, i: nat, schema: string, steps: nat): State {
    Goes(c, Step(c, g, Act(i, StartTableOp(schema, ScanTables))), i, steps)
  }

  /** A scan of a schema known to be missing visits nothing; of a listed one, its positive names in order. */
  lemma KnownTablesAreScanned(c: Config, g: State, i: nat, schema: string)
    requires Alone(g, i) && g.threads[i] == Idle && schema in g.data.registries
    ensures IsMissing(g.data, schema) ==> ScanReaches(c, g, i, schema, 1) == g
    ensures !IsMissing(g.data, schema) && g.data.registries[schema].listed ==>
              var r := g.data.registries[schema];
              ScanReaches(c, g, i, schema, 3) == g.(log := g.log + [Scanned(schema, VisitedTables(r), r)])
  {
    if IsMissing(g.data, schema) {
      StartsTableOp(c, g, i, schema, ScanTables);
      LastStep(c, g, i, CheckMissing(schema, None));
      assert g.log + [] == g.log;
    } else if g.data.registries[schema].listed {
      ScanReachesTables(c, g, i, schema, 1);
      LastStep(c, g, i, InTables(schema, ScanTables, None));
    }
  }

  lemma ScanReachesTables(c: Config, g: State, i: nat, schema: string, steps: nat)
    requires Alone(g, i) && g.threads[i] == Idle && schema in g.data.registries && !IsMissing(g.data, schema)
    ensures ScanReaches(c, g, i, schema, 2 + steps)
            == Goes(c, At(g, i, InTables(schema, ScanTables, None)), i, steps)
  {
    StartsTableOp(c, g, i, schema, ScanTables);
    SchemaIsThere(c, g, i, schema, steps + 1);
    TablesAreLocked(c, g, i, schema, ScanTables, steps);
  }

  lemma SchemaIsThere(c: Config, g: State, i: nat, schema: string, n: nat)
    requires Alone(g, i) && !IsMissing(g.data, schema)
    ensures Goes(c, At(g, i, CheckMissing(schema, None)), i, n + 1)
            == Goes(c, At(g, i, WantTables(schema, ScanTables, None)), i, n)
  {
    GoesAlone(c, g, i, CheckMissing(schema, None), WantTables(schema, ScanTables, None), n);
  }

  lemma UnlistedEffect(d: Data, schema: string)
    requires schema in d.registries && !d.registries[schema].listed
    ensures InTablesEffect(d, InTables(schema, ScanTables, None)) ==
            Effect(WantTableCall(schema, ScanTables, None), d, [])
  {
  }

  lemma ScanReachesCall(c: Config, g: State, i: nat, schema: string)
    requires Alone(g, i) && g.threads[i] == Idle && schema in g.data.registries && !IsMissing(g.data, schema)
    requires !g.data.registries[schema].listed
    ensures ScanReaches(c, g, i, schema, 4) == At(g, i, InTableCall(schema, ScanTables, None))
  {
    ScanReachesTables(c, g, i, schema, 2);
    UnlistedEffect(g.data, schema);
    CatalogIsWanted(c, g, i, schema, ScanTables, 1);
    CatalogIsLocked(c, g, i, schema, ScanTables, 0);
  }

  lemma ListCallEffect(c: Config, d: Data, world: World, schema: string, reply: ListReply)
    ensures EffectOf(c, d, world, InTableCall(schema, ScanTables, None), ListAnswers(reply))
            == Effect(ListReplied(schema, None, reply), d, [])
  {
  }

  /** A scan of a schema not listed yet asks the catalog. */
  lemma UnlistedTablesAreListed(c: Config, g: State, i: nat, schema: string, reply: ListReply)
    requires Alone(g, i) && g.threads[i] == Idle && schema in g.data.registries && !IsMissing(g.data, schema)
    requires !g.data.registries[schema].listed
    ensures Step(c, ScanReaches(c, g, i, schema, 4), Act(i, ListAnswers(reply)))
            == At(g, i, ListReplied(schema, None, reply))
  {
    ScanReachesCall(c, g, i, schema);
    ListCallEffect(c, g.data, g.world, schema, reply);
    MovesAlone(c, g, i, InTableCall(schema, ScanTables, None), ListAnswers(reply), ListReplied(schema, None, reply));
  }

  /** What a listing's answer comes to, wherever the scan was made: the listed names become known and are scanned, a
      missing namespace marks the schema, and a failure changes nothing. */
  lemma ListReplyExactly(d: Data, pc: Pc)
    requires pc.ListReplied? && pc.schema in d.registries && pc.schema in d.schemas.missing
    requires RegistryOk(d.registries[pc.schema], {}) && !d.registries[pc.schema].listed
    ensures var s, r := pc.schema, d.registries[pc.schema];
            var e := ListReplyEffect(d, pc);
            && s in e.data.registries
            && (IsMissing(e.data, s) <==> IsMissing(d, s) || pc.listReply.ListNoSuchNamespace?)
            && match pc.listReply
               case ListFailed => e.events == [] && e.data == d && e.pc == Idle
               case ListNoSuchNamespace => e.events == [] && e.data.registries[s] == r && e.pc == Resumed(pc.outer)
               case Listed(names) =>
                 var r' := e.data.registries[s];
                 && r'.listed && Advances(r, r') && RegistryOk(r', NameSet(names))
                 && e.events == [TablesListed(s, NameSet(names)), Scanned(s, VisitedTables(r'), r')]
                 && e.pc == Resumed(pc.outer)
  {
    if pc.listReply.Listed? {
      AfterListingOk(d.registries[pc.schema], pc.listReply.names);
    }
  }

  // ----- Schemas -----

  /** A schema lookup is logged under the default schema's name for "main", and under its own for any other; it finds a
      schema not known to be missing, and before the root listing an unknown one, which it makes known. */
  lemma SchemaIsLookedUp(c: Config, g: State, i: nat, name: string)
    requires Alone(g, i) && g.threads[i] == Idle
    ensures var after := Goes(c, Step(c, g, Act(i, StartLookupSchema(name))), i, 2);
            var own := if name == "main" then c.defaultSchema else name;
            var schemas := g.data.schemas;
            var found := if own in schemas.missing then !schemas.missing[own] else !schemas.listed;
            && after.threads[i] == Idle
            && after.log == g.log + [if found then SchemaFound(own) else SchemaNotFound(own)]
            && (found ==> Visible(after.data.schemas, own))
            && (forall other | other != own :: Visible(after.data.schemas, other) <==> Visible(schemas, other))
  {
    var own := if name == "main" then c.defaultSchema else name;
    assert At(g, i, Idle) == g;
    RedirectsMainExactly(name, c.defaultSchema);
    MovesAlone(c, g, i, Idle, StartLookupSchema(name), WantLookupSchema(own));
    MovesAlone(c, g, i, WantLookupSchema(own), Go, InLookupSchema(own));
    StepsAlone(c, g, i, InLookupSchema(own), Go);
  }

  /** A callback runs its operations on the schema it was given, one after the other, and then the scan goes on. */
  lemma CallbackRunsItsOps(c: Config, d: Data, world: World, callback: Callback)
    ensures callback.ops == [] ==> EffectOf(c, d, world, InCallback(callback), Go).pc == VisitingSchemas(callback.todo)
    ensures callback.ops != [] ==>
              var rest := Some(Callback(callback.schema, callback.ops[1..], callback.todo));
              EffectOf(c, d, world, InCallback(callback), Go).pc ==
              match callback.ops[0]
              case LookupTable(table) => WantTables(callback.schema, LookupTable(table), rest)
              case ScanTables => CheckMissing(callback.schema, rest)
  {
  }

  /** The schemas a scan goes past, each visited unless it is missing. */
  function Passes(d: Data, i: nat, todo: seq<string>): seq<ScanEvent> {
    if todo == [] then [] else [WentPast(i, todo[0], !IsMissing(d, todo[0]))] + Passes(d, i, todo[1..])
  }

  lemma ScanEnds(c: Config, g: State, i: nat)
    requires Alone(g, i)
    ensures Step(c, At(g, i, VisitingSchemas([])), Act(i, Go)) == At(g.(trail := g.trail + [ScanEnded(i)]), i, Idle)
  {
    StepsAlone(c, g, i, VisitingSchemas([]), Go);
    assert g.log + [] == g.log;
  }

  lemma SchemaIsPassed(c: Config, g: State, i: nat, todo: seq<string>)
    requires Alone(g, i) && todo != []
    ensures var missing := IsMissing(g.data, todo[0]);
            var pc := if missing then VisitingSchemas(todo[1..]) else InCallback(Callback(todo[0], [], todo[1..]));
            Step(c, At(g, i, VisitingSchemas(todo)), Act(i, Go))
            == At(g.(trail := g.trail + [WentPast(i, todo[0], !missing)]), i, pc)
  {
    StepsAlone(c, g, i, VisitingSchemas(todo), Go);
    assert g.log + [] == g.log;
  }

  lemma CallbackReturns(c: Config, g: State, i: nat, schema: string, todo: seq<string>, n: nat)
    requires Alone(g, i)
    ensures Goes(c, At(g, i, InCallback(Callback(schema, [], todo))), i, n + 1)
            == Goes(c, At(g, i, VisitingSchemas(todo)), i, n)
  {
    GoesAlone(c, g, i, InCallback(Callback(schema, [], todo)), VisitingSchemas(todo), n);
  }

  /** The state once the first schema is behind. */
  function Past(g: State, i: nat, todo: seq<string>): State
    requires todo != []
  {
    g.(trail := g.trail + [WentPast(i, todo[0], !IsMissing(g.data, todo[0]))])
  }

  lemma SchemaIsBehind(c: Config, g: State, i: nat, todo: seq<string>, n: nat)
    requires Alone(g, i) && todo != []
    ensures Goes(c, At(g, i, VisitingSchemas(todo)), i, n + if IsMissing(g.data, todo[0]) then 1 else 2)
            == Goes(c, At(Past(g, i, todo), i, VisitingSchemas(todo[1..])), i, n)
  {
    SchemaIsPassed(c, g, i, todo);
    if !IsMissing(g.data, todo[0]) {
      CallbackReturns(c, Past(g, i, todo), i, todo[0], todo[1..], n);
    }
  }

  lemma {:induction false} SchemasAreVisited(c: Config, g: State, i: nat, todo: seq<string>) returns (n: nat)
    requires Alone(g, i)
    ensures Goes(c, At(g, i, VisitingSchemas(todo)), i, n)
            == At(g.(trail := g.trail + Passes(g.data, i, todo) + [ScanEnded(i)]), i, Idle)
    decreases |todo|
  {
    if todo == [] {
      n := 1;
      ScanEnds(c, g, i);
      assert g.trail + [] == g.trail;
    } else {
      n := SchemasAreVisited(c, Past(g, i, todo), i, todo[1..]);
      SchemaIsBehind(c, g, i, todo, n);
      assert Past(g, i, todo).trail + Passes(g.data, i, todo[1..]) == g.trail + Passes(g.data, i, todo);
      n := n + if IsMissing(g.data, todo[0]) then 1 else 2;
    }
  }

  /** A schema scan whose root is listed goes past every known schema in order, visiting those not missing, and ends. */
  lemma SchemasAreScanned(c: Config, g: State, i: nat) returns (n: nat)
    requires Alone(g, i) && g.threads[i] == Idle && g.data.schemas.listed
    ensures Goes(c, Step(c, g, Act(i, StartScanSchemas)), i, n)
            == g.(trail := g.trail + [ScanBegan(i)] + Passes(g.data, i, KnownSchemas(g.data)) + [ScanEnded(i)])
  {
    assert At(g, i, Idle) == g;
    MovesAlone(c, g, i, Idle, StartScanSchemas, WantScanSchemas);
    MovesAlone(c, g, i, WantScanSchemas, Go, InScanSchemas);
    StepsAlone(c, g, i, InScanSchemas, Go);
    var begun := g.(trail := g.trail + [ScanBegan(i)]);
    assert g.log + [] == g.log;
    n := SchemasAreVisited(c, begun, i, KnownSchemas(g.data));
    assert g.threads[i := Idle] == g.threads;
    n := n + 2;
  }

  /** A scan before the root listing asks the catalog, and goes on over what that makes known. */
  lemma RootIsListed(c: Config, g: State, i: nat, levels: seq<seq<string>>)
    requires Alone(g, i) && g.threads[i] == Idle && !g.data.schemas.listed
    ensures var asked := Goes(c, Step(c, g, Act(i, StartScanSchemas)), i, 3);
            var after := Goes(c, Step(c, asked, Act(i, RootAnswers(Namespaces(levels)))), i, 1);
            && after.threads[i] == VisitingSchemas(KnownSchemas(after.data))
            && after.log == g.log + [RootListed(ListedNames(levels))]
            && after.trail == g.trail + [ScanBegan(i)]
            && after.data.schemas == AfterRootListing(g.data.schemas, ListedNames(levels))
  {
    var reply := Namespaces(levels);
    assert At(g, i, Idle) == g;
    MovesAlone(c, g, i, Idle, StartScanSchemas, WantScanSchemas);
    MovesAlone(c, g, i, WantScanSchemas, Go, InScanSchemas);
    MovesAlone(c, g, i, InScanSchemas, Go, WantRootCall);
    MovesAlone(c, g, i, WantRootCall, Go, InRootCall);
    MovesAlone(c, g, i, InRootCall, RootAnswers(reply), RootReplied(reply));
    StepsAlone(c, g, i, RootReplied(reply), Go);
  }
}
