/** Any number of threads of one transaction over a catalog that changes underneath them. */
module Interleaving {
  import opened Wrappers
  import opened Ordered
  import opened Text
  import opened SignedStores
  import opened Snapshots
  import opened TableCache
  import opened SchemaCache
  import IcebergTypes

  datatype Lock = SchemasLock | TablesLock(schema: string) | CatalogLock

  datatype TableOp = LookupTable(table: string) | ScanTables

  /** A ScanSchemas callback: the schema it was given, the table operations it has yet to run on it, and the schemas the
      scan has yet to go past. */
  datatype Callback = Callback(schema: string, ops: seq<TableOp>, todo: seq<string>)

  /** Where a thread is. outer is the callback whose table operation is running, if one is. Each Want... waits for a
      lock; each ...Replied has released the catalog and still has to act on its answer. */
  datatype Pc =
    | Idle
    | WantLookupSchema(name: string)
    | InLookupSchema(name: string)
    | WantScanSchemas
    | InScanSchemas
    | WantRootCall
    | InRootCall
    | RootReplied(rootReply: NamespaceReply)
    | VisitingSchemas(todo: seq<string>)
    | InCallback(callback: Callback)
    | CheckMissing(schema: string, outer: Option<Callback>)
    | WantTables(schema: string, op: TableOp, outer: Option<Callback>)
    | InTables(schema: string, op: TableOp, outer: Option<Callback>)
    | WantTableCall(schema: string, op: TableOp, outer: Option<Callback>)
    | InTableCall(schema: string, op: TableOp, outer: Option<Callback>)
    | LoadReplied(schema: string, table: string, outer: Option<Callback>, loadReply: LoadReply)
    | ListReplied(schema: string, outer: Option<Callback>, listReply: ListReply)

  function OuterLock(outer: Option<Callback>): set<Lock> {
    if outer.Some? then {SchemasLock} else {}
  }

  function Held(pc: Pc): set<Lock> {
    match pc
    case Idle => {}
    case WantLookupSchema(_) => {}
    case InLookupSchema(_) => {SchemasLock}
    case WantScanSchemas => {}
    case InScanSchemas => {SchemasLock}
    case WantRootCall => {SchemasLock}
    case InRootCall => {SchemasLock, CatalogLock}
    case RootReplied(_) => {SchemasLock}
    case VisitingSchemas(_) => {SchemasLock}
    case InCallback(_) => {SchemasLock}
    case CheckMissing(_, outer) => OuterLock(outer)
    case WantTables(_, _, outer) => OuterLock(outer)
    case InTables(s, _, outer) => OuterLock(outer) + {TablesLock(s)}
    case WantTableCall(s, _, outer) => OuterLock(outer) + {TablesLock(s)}
    case InTableCall(s, _, outer) => OuterLock(outer) + {TablesLock(s), CatalogLock}
    case LoadReplied(s, _, outer, _) => OuterLock(outer) + {TablesLock(s)}
    case ListReplied(s, outer, _) => OuterLock(outer) + {TablesLock(s)}
  }

  function Wants(pc: Pc): Option<Lock> {
    match pc
    case WantLookupSchema(_) => Some(SchemasLock)
    case WantScanSchemas => Some(SchemasLock)
    case WantRootCall => Some(CatalogLock)
    case WantTables(s, _, _) => Some(TablesLock(s))
    case WantTableCall(_, _, _) => Some(CatalogLock)
    case _ => None
  }

  predicate InCatalog(pc: Pc) {
    pc.InRootCall? || pc.InTableCall?
  }

  // ----- Shared state -----

  /** The transaction's schemas and their tables; and, for the record, what each listing returned. */
  datatype Data = Data(schemas: SchemaState, registries: map<string, Registry>, rootListing: Option<set<string>>,
                       listings: map<string, set<string>>)

  type World = map<(string, string), Table>

  /** What the transaction's threads have done and been told, in order. */
  datatype Event =
    | SchemaFound(name: string)
    | SchemaNotFound(name: string)
    | RootListed(names: set<string>)
    | Concluded(schema: string, table: string)  // a LoadTable that settled a name
    | TablesListed(schema: string, names: set<string>)
    | Answered(schema: string, table: string, entry: nat)
    | Absent(schema: string, table: string)
    | Scanned(schema: string, visited: seq<string>, known: Registry)

  /** How schema scans go: a thread's scan begins, goes past schema after schema, visiting it or not, and ends. */
  datatype ScanEvent =
    | ScanBegan(thread: nat)
    | WentPast(thread: nat, name: string, visited: bool)
    | ScanEnded(thread: nat)

  datatype State = State(data: Data, world: World, threads: seq<Pc>, log: seq<Event>, trail: seq<ScanEvent>)

  /** The transaction's start, the catalog's tables at that time, and the configured default schema. */
  datatype Config = Config(startMs: int, atStart: World, defaultSchema: string)

  function AtStart(c: Config, schema: string, table: string): Option<Table> {
    if (schema, table) in c.atStart then Some(c.atStart[(schema, table)]) else None
  }

  /** The name a table had when the transaction started, if it existed then. Names change, uuids do not. */
  ghost function Origin(c: Config, uuid: nat): (origin: Option<(string, string)>)
    ensures origin.Some? ==> origin.value in c.atStart && c.atStart[origin.value].uuid == uuid
    ensures origin.None? ==> forall key | key in c.atStart :: c.atStart[key].uuid != uuid
  {
    if key :| key in c.atStart && c.atStart[key].uuid == uuid then Some(key) else None
  }

  /** A table as it was when the transaction started, under whatever name. */
  ghost function StartOf(c: Config, uuid: nat): Option<Table> {
    match Origin(c, uuid)
    case Some(key) => Some(c.atStart[key])
    case None => None
  }

  predicate DistinctTables(world: World) {
    forall key, other | key in world && other in world && key != other :: world[key].uuid != world[other].uuid
  }

  predicate UuidIsNew(c: Config, world: World, uuid: nat) {
    && (forall key | key in c.atStart :: c.atStart[key].uuid != uuid)
    && (forall key | key in world :: world[key].uuid != uuid)
  }

  function RegistryOf(d: Data, schema: string): Registry {
    if schema in d.registries then d.registries[schema] else EMPTY_REGISTRY
  }

  function ListingOf(d: Data, schema: string): Option<set<string>> {
    if schema in d.listings then Some(d.listings[schema]) else None
  }

  function IsMissing(d: Data, schema: string): bool {
    schema in d.schemas.missing && d.schemas.missing[schema]
  }

  /** Schemas that became known get empty registries. */
  function WithSchemas(d: Data, schemas: SchemaState): Data {
    d.(schemas := schemas, registries := map s | s in schemas.missing :: RegistryOf(d, s))
  }

  /** One schema's tables changed, and perhaps what is known of the schema. */
  function WithRegistry(d: Data, s: string, r: Registry, schemas: SchemaState, listing: Option<set<string>>): Data {
    d.(registries := d.registries[s := r], schemas := schemas,
       listings := if listing.Some? then d.listings[s := listing.value] else d.listings)
  }

  // ----- Steps -----

  datatype Choice =
    | StartLookupSchema(name: string)
    | StartScanSchemas
    | StartTableOp(schema: string, op: TableOp)
    | CallbackRuns(ops: seq<TableOp>)
    | RootAnswers(reply: NamespaceReply)
    | LoadFails(fault: LoadReply)
    | ListAnswers(listReply: ListReply)
    | Go

  datatype Effect = Effect(pc: Pc, data: Data, events: seq<Event>)

  function StartOp(schema: string, op: TableOp, outer: Option<Callback>): Pc {
    if op.ScanTables? then CheckMissing(schema, outer) else WantTables(schema, op, outer)
  }

  function Return(outer: Option<Callback>): Pc {
    if outer.Some? then InCallback(outer.value) else Idle
  }

  ghost function KnownSchemas(d: Data): seq<string> {
    LexIsTotalOrder();
    Ascending(d.schemas.missing.Keys, LexLe)
  }

  ghost function VisitedTables(r: Registry): seq<string> {
    LexIsTotalOrder();
    Ascending(PositiveKeys(r.index), LexLe)
  }

  /** LoadTable's answer: the table as the catalog has it now, or any failure. */
  function LoadAnswer(world: World, schema: string, table: string, choice: Choice): LoadReply {
    if choice.LoadFails? && !choice.fault.Loaded? then choice.fault
    else if (schema, table) in world then Loaded(world[(schema, table)])
    else NoSuchTable
  }

  function AnswerEvent(schema: string, table: string, answer: LookupAnswer): seq<Event> {
    match answer
    case Entry(e) => [Answered(schema, table, e)]
    case NoEntry => [Absent(schema, table)]
    case LookupThrew(_) => []
  }

  function LookupSchemaEffect(d: Data, name: string): Effect {
    Effect(Idle, WithSchemas(d, AfterLookup(d.schemas, name)),
           [if Finds(d.schemas, name) then SchemaFound(name) else SchemaNotFound(name)])
  }

  ghost function RootReplyEffect(d: Data, reply: NamespaceReply): Effect {
    match reply
    case NamespacesFailed => Effect(Idle, d, [])
    case Namespaces(levels) =>
      var names := ListedNames(levels);
      var listed := WithSchemas(d, AfterRootListing(d.schemas, names)).(rootListing := Some(names));
      Effect(VisitingSchemas(KnownSchemas(listed)), listed, [RootListed(names)])
  }

  ghost function InTablesEffect(d: Data, pc: Pc): Effect
    requires pc.InTables?
  {
    var r := RegistryOf(d, pc.schema);
    match pc.op
    case LookupTable(table) =>
      if NeedsLoad(r, table) then Effect(WantTableCall(pc.schema, pc.op, pc.outer), d, [])
      else Effect(Return(pc.outer), d, AnswerEvent(pc.schema, table, CachedAnswer(r, table)))
    case ScanTables =>
      if r.listed then Effect(Return(pc.outer), d, [Scanned(pc.schema, VisitedTables(r), r)])
      else Effect(WantTableCall(pc.schema, pc.op, pc.outer), d, [])
  }

  function LoadReplyEffect(c: Config, d: Data, pc: Pc): Effect
    requires pc.LoadReplied?
  {
    var o := AfterLoad(RegistryOf(d, pc.schema), pc.table, c.startMs, pc.loadReply);
    var schemas := if o.namespaceMissing then AfterMissing(d.schemas, pc.schema) else d.schemas;
    var loaded := WithRegistry(d, pc.schema, o.registry, schemas, ListingOf(d, pc.schema));
    if o.answer.LookupThrew? then Effect(Idle, loaded, [])
    else
      Effect(Return(pc.outer), loaded, [Concluded(pc.schema, pc.table)] + AnswerEvent(pc.schema, pc.table, o.answer))
  }

  ghost function ListReplyEffect(d: Data, pc: Pc): Effect
    requires pc.ListReplied?
  {
    match pc.listReply
    case ListNoSuchNamespace =>
      var schemas := AfterMissing(d.schemas, pc.schema);
      Effect(Return(pc.outer),
             WithRegistry(d, pc.schema, RegistryOf(d, pc.schema), schemas, ListingOf(d, pc.schema)), [])
    case ListFailed => Effect(Idle, d, [])
    case Listed(names) =>
      var r := AfterListing(RegistryOf(d, pc.schema), names);
      Effect(Return(pc.outer), WithRegistry(d, pc.schema, r, d.schemas, Some(NameSet(names))),
             [TablesListed(pc.schema, NameSet(names)), Scanned(pc.schema, VisitedTables(r), r)])
  }

  /** Where a step leads that touches no shared data. */
  ghost function Next(c: Config, d: Data, world: World, pc: Pc, choice: Choice): Pc {
    match pc
    case Idle =>
      (match choice
       case StartLookupSchema(name) => WantLookupSchema(Redirect(name, c.defaultSchema))
       case StartScanSchemas => WantScanSchemas
       case StartTableOp(s, op) => if s in d.registries then StartOp(s, op, None) else Idle
       case _ => Idle)
    case WantLookupSchema(name) => InLookupSchema(name)
    case WantScanSchemas => InScanSchemas
    case InScanSchemas => if d.schemas.listed then VisitingSchemas(KnownSchemas(d)) else WantRootCall
    case WantRootCall => InRootCall
    case InRootCall => RootReplied(if choice.RootAnswers? then choice.reply else NamespacesFailed)
    case VisitingSchemas(todo) =>
      if todo == [] then Idle
      else if IsMissing(d, todo[0]) then VisitingSchemas(todo[1..])
      else InCallback(Callback(todo[0], if choice.CallbackRuns? then choice.ops else [], todo[1..]))
    case InCallback(callback) =>
      if callback.ops == [] then VisitingSchemas(callback.todo)
      else StartOp(callback.schema, callback.ops[0], Some(callback.(ops := callback.ops[1..])))
    case CheckMissing(s, outer) => if IsMissing(d, s) then Return(outer) else WantTables(s, ScanTables, outer)
    case WantTables(s, op, outer) => InTables(s, op, outer)
    case WantTableCall(s, op, outer) => InTableCall(s, op, outer)
    case InTableCall(s, op, outer) =>
      (match op
       case LookupTable(table) => LoadReplied(s, table, outer, LoadAnswer(world, s, table, choice))
       case ScanTables => ListReplied(s, outer, if choice.ListAnswers? then choice.listReply else ListFailed))
    case _ => pc
  }

  /** One step of a thread that is not waiting for a lock another thread holds. */
  ghost function EffectOf(c: Config, d: Data, world: World, pc: Pc, choice: Choice): Effect {
    match pc
    case InLookupSchema(name) => LookupSchemaEffect(d, name)
    case RootReplied(reply) => RootReplyEffect(d, reply)
    case InTables(_, _, _) => InTablesEffect(d, pc)
    case LoadReplied(_, _, _, _) => LoadReplyEffect(c, d, pc)
    case ListReplied(_, _, _) => ListReplyEffect(d, pc)
    case _ => Effect(Next(c, d, world, pc, choice), d, [])
  }

  /** What a step adds to the trail: a schema is visited if its callback is called. */
  function ScanEvents(i: nat, pc: Pc, pc': Pc): seq<ScanEvent> {
    match pc
    case VisitingSchemas(todo) => if todo == [] then [ScanEnded(i)] else [WentPast(i, todo[0], pc'.InCallback?)]
    case _ => if pc'.VisitingSchemas? && !pc.InCallback? then [ScanBegan(i)] else []
  }

  predicate Free(threads: seq<Pc>, lock: Lock) {
    forall j | 0 <= j < |threads| :: lock !in Held(threads[j])
  }

  predicate Blocked(threads: seq<Pc>, i: nat)
    requires i < |threads|
  {
    Wants(threads[i]).Some? && !Free(threads, Wants(threads[i]).value)
  }

  /** What others do to a table of the catalog, after the transaction's start: commit to it, create it, move it with its
      history to another name, or drop it. */
  datatype RemoteChange =
    | Commits(commit: Commit)
    | Creates(timestampMs: int, uuid: nat, schema: IcebergTypes.Schema)
    | Moves(to: (string, string))
    | Drops

  predicate CanCommit(c: Config, world: World, key: (string, string), commit: Commit) {
    && key in world && Legal(world[key], commit) && commit.timestampMs > c.startMs
    && (commit.change.Recreate? ==> UuidIsNew(c, world, commit.change.uuid))
  }

  function RemoteStep(c: Config, world: World, key: (string, string), change: RemoteChange): World {
    match change
    case Commits(commit) =>
      if CanCommit(c, world, key, commit) then world[key := Snapshots.Apply(world[key], commit)] else world
    case Creates(timestampMs, uuid, schema) =>
      if key !in world && timestampMs > c.startMs && UuidIsNew(c, world, uuid)
      then world[key := EmptyTable(uuid, timestampMs, schema)] else world
    case Moves(to) => if key in world && to !in world then (world - {key})[to := world[key]] else world
    case Drops => world - {key}
  }

  datatype Action = Act(thread: nat, choice: Choice) | Remote(key: (string, string), change: RemoteChange)

  ghost function Step(c: Config, g: State, a: Action): State {
    match a
    case Remote(key, change) => g.(world := RemoteStep(c, g.world, key, change))
    case Act(i, choice) =>
      if i >= |g.threads| || Blocked(g.threads, i) then g
      else
        var e := EffectOf(c, g.data, g.world, g.threads[i], choice);
        State(e.data, g.world, g.threads[i := e.pc], g.log + e.events, g.trail + ScanEvents(i, g.threads[i], e.pc))
  }

  ghost function Run(c: Config, g: State, actions: seq<Action>): State {
    if actions == [] then g else Step(c, Run(c, g, actions[..|actions| - 1]), actions[|actions| - 1])
  }

  const NO_DATA := Data(SchemaState(map[], false), map[], None, map[])

  predicate Initial(c: Config, g: State) {
    && g.data == NO_DATA && g.world == c.atStart && g.log == [] && g.trail == []
    && (forall i | 0 <= i < |g.threads| :: g.threads[i].Idle?)
    && (forall key | key in c.atStart :: WellFormed(c.atStart[key]) && c.atStart[key].lastUpdatedMs <= c.startMs)
    && DistinctTables(c.atStart)
  }

  // ----- Invariants -----

  /** Every loaded entry is read as its table was at the start, wherever it was then. */
  ghost predicate Cut(c: Config, r: Registry) {
    forall e | 0 <= e < |r.entries| && r.entries[e].info.Some? ::
      Isolated(StartOf(c, r.entries[e].info.value.table.uuid), r.entries[e].info.value)
  }

  /** What holds of one schema's tables, given what was listed of them. */
  ghost predicate SchemaOk(c: Config, schema: string, r: Registry, listing: Option<set<string>>) {
    && RegistryOk(r, if listing.Some? then listing.value else {})
    && (r.listed <==> listing.Some?)
    && Cut(c, r)
  }

  type SchemaProperty = (string, Registry, Option<set<string>>) -> bool

  ghost predicate AllSchemas(d: Data, p: SchemaProperty) {
    forall s | s in d.registries :: p(s, d.registries[s], ListingOf(d, s))
  }

  ghost function Sound(c: Config): SchemaProperty {
    (s, r, listing) => SchemaOk(c, s, r, listing)
  }

  predicate KeysOk(d: Data) {
    d.registries.Keys == d.schemas.missing.Keys && d.listings.Keys <= d.registries.Keys
  }

  ghost predicate DataOk(d: Data, p: SchemaProperty) {
    KeysOk(d) && WorldOk(d.schemas, d.rootListing) && AllSchemas(d, p)
  }

  lemma SchemaIsOk(c: Config, d: Data, s: string)
    requires DataOk(d, Sound(c)) && s in d.registries
    ensures SchemaOk(c, s, d.registries[s], ListingOf(d, s))
    ensures IndexOk(d.registries[s])
  {
  }

  /** What a thread may rely on while it holds its locks. */
  ghost predicate PcOk(c: Config, d: Data, pc: Pc) {
    match pc
    case WantRootCall => !d.schemas.listed
    case InRootCall => !d.schemas.listed
    case RootReplied(_) => !d.schemas.listed
    case VisitingSchemas(todo) => forall k | 0 <= k < |todo| :: todo[k] in d.registries
    case InCallback(callback) => CallbackOk(d, Some(callback))
    case CheckMissing(s, outer) => s in d.registries && CallbackOk(d, outer)
    case WantTables(s, _, outer) => s in d.registries && CallbackOk(d, outer)
    case InTables(s, _, outer) => s in d.registries && CallbackOk(d, outer)
    case WantTableCall(s, op, outer) => s in d.registries && CallPending(d.registries[s], op) && CallbackOk(d, outer)
    case InTableCall(s, op, outer) => s in d.registries && CallPending(d.registries[s], op) && CallbackOk(d, outer)
    case LoadReplied(s, table, outer, reply) =>
      && s in d.registries && NeedsLoad(d.registries[s], table)
      && (reply.Loaded? ==> SinceStart(StartOf(c, reply.table.uuid), reply.table, c.startMs))
      && CallbackOk(d, outer)
    case ListReplied(s, outer, _) => s in d.registries && !d.registries[s].listed && CallbackOk(d, outer)
    case _ => true
  }

  /** A callback's schema, and those left to go past, are known. */
  predicate CallbackOk(d: Data, outer: Option<Callback>) {
    outer.Some? ==>
      && outer.value.schema in d.registries
      && forall k | 0 <= k < |outer.value.todo| :: outer.value.todo[k] in d.registries
  }

  predicate CallPending(r: Registry, op: TableOp) {
    match op
    case LookupTable(table) => NeedsLoad(r, table)
    case ScanTables => !r.listed
  }

  /** What an event still says of the present. */
  ghost predicate EventOk(d: Data, e: Event) {
    match e
    case SchemaFound(name) => name in d.schemas.missing
    case SchemaNotFound(name) => Gone(d.schemas, name)
    case RootListed(names) => d.rootListing == Some(names)
    case Concluded(s, table) => s in d.registries && !NeedsLoad(d.registries[s], table)
    case TablesListed(s, names) => s in d.listings && d.listings[s] == names
    case Answered(s, table, entry) =>
      s in d.registries && IsLoaded(d.registries[s], table) && CachedAnswer(d.registries[s], table) == Entry(entry)
    case Absent(s, table) =>
      s in d.registries && !NeedsLoad(d.registries[s], table) && CachedAnswer(d.registries[s], table) == NoEntry
    case Scanned(s, visited, known) =>
      && s in d.listings && s in d.registries
      && RegistryOk(known, d.listings[s]) && Grows(known, d.registries[s])
      && visited == VisitedTables(known)
  }

  /** What no run logs: a name settled twice, a listing repeated, or a schema found after it was not. */
  predicate Compatible(e: Event, later: Event) {
    && !(e.Concluded? && e == later)
    && !(e.TablesListed? && later.TablesListed? && e.schema == later.schema)
    && !(e.RootListed? && later.RootListed?)
    && !(e.SchemaNotFound? && later.SchemaFound? && e.name == later.name)
  }

  ghost predicate WorldSince(c: Config, world: World) {
    forall key | key in world :: SinceStart(StartOf(c, world[key].uuid), world[key], c.startMs)
  }

  predicate Exclusive(threads: seq<Pc>) {
    forall i, j | 0 <= i < j < |threads| :: Held(threads[i]) !! Held(threads[j])
  }

  ghost predicate Inv(c: Config, g: State) {
    && DataOk(g.data, Sound(c))
    && WorldSince(c, g.world)
    && Exclusive(g.threads)
    && (forall i | 0 <= i < |g.threads| :: PcOk(c, g.data, g.threads[i]))
    && (forall k | 0 <= k < |g.log| :: EventOk(g.data, g.log[k]))
    && (forall j, k | 0 <= j < k < |g.log| :: Compatible(g.log[j], g.log[k]))
  }

  // ----- What one step keeps -----

  ghost predicate Grows(r: Registry, r': Registry) {
    r == r' || Advances(r, r')
  }

  lemma GrowsTransitive(a: Registry, b: Registry, c: Registry)
    requires IndexOk(a) && IndexOk(b)
    requires Grows(a, b) && Grows(b, c)
    ensures Grows(a, c)
  {
  }

  ghost predicate AllRelated(d: Data, d': Data, grows: (Registry, Registry) -> bool) {
    forall s | s in d.registries :: s in d'.registries && grows(d.registries[s], d'.registries[s])
  }

  ghost predicate Extends(d: Data, d': Data) {
    && SchemasAdvance(d.schemas, d'.schemas)
    && AllRelated(d, d', Grows)
    && (d.rootListing.Some? ==> d'.rootListing == d.rootListing)
    && (forall s | s in d.listings :: s in d'.listings && d'.listings[s] == d.listings[s])
  }

  /** Only the holder of a lock changes what it protects. */
  predicate Framed(d: Data, d': Data, held: set<Lock>) {
    && (SchemasLock !in held ==>
          d'.schemas.listed == d.schemas.listed && d'.schemas.missing.Keys == d.schemas.missing.Keys)
    && (forall s | s in d.registries && TablesLock(s) !in held ::
          s in d'.registries && d'.registries[s] == d.registries[s])
  }

  /** An event that nothing logged so far rules out. */
  predicate Allowed(d: Data, e: Event) {
    match e
    case SchemaFound(name) => !Gone(d.schemas, name)
    case RootListed(_) => d.rootListing.None?
    case Concluded(s, table) => s in d.registries ==> NeedsLoad(d.registries[s], table)
    case TablesListed(s, _) => s !in d.listings
    case _ => true
  }

  ghost predicate ChangeOk(d: Data, d': Data, held: set<Lock>, p: SchemaProperty) {
    DataOk(d', p) && Extends(d, d') && Framed(d, d', held)
  }

  ghost predicate PcStepOk(c: Config, d': Data, pc: Pc, pc': Pc) {
    && PcOk(c, d', pc')
    && Held(pc') <= Held(pc) + (if Wants(pc).Some? then {Wants(pc).value} else {})
  }

  ghost predicate EventsOk(d: Data, d': Data, events: seq<Event>) {
    && (forall k | 0 <= k < |events| :: EventOk(d', events[k]) && Allowed(d, events[k]))
    && (forall j, k | 0 <= j < k < |events| :: Compatible(events[j], events[k]))
  }

  ghost predicate EffectOk(c: Config, d: Data, pc: Pc, e: Effect) {
    ChangeOk(d, e.data, Held(pc), Sound(c)) && PcStepOk(c, e.data, pc, e.pc) && EventsOk(d, e.data, e.events)
  }

  lemma ExtendsItself(d: Data)
    ensures Extends(d, d) && Framed(d, d, {})
  {
  }

  lemma EmptySchemaOk(c: Config, schema: string)
    ensures SchemaOk(c, schema, EMPTY_REGISTRY, None)
  {
  }

  lemma WithSchemasAll(d: Data, schemas: SchemaState, p: SchemaProperty, grows: (Registry, Registry) -> bool)
    requires d.schemas.missing.Keys <= schemas.missing.Keys && KeysOk(d)
    requires AllSchemas(d, p)
    requires forall s :: p(s, EMPTY_REGISTRY, None)
    requires forall r :: grows(r, r)
    ensures KeysOk(WithSchemas(d, schemas))
    ensures AllSchemas(WithSchemas(d, schemas), p)
    ensures AllRelated(d, WithSchemas(d, schemas), grows)
  {
  }

  lemma WithSchemasOk(c: Config, d: Data, schemas: SchemaState, rootListing: Option<set<string>>)
    requires DataOk(d, Sound(c))
    requires SchemasAdvance(d.schemas, schemas) && WorldOk(schemas, rootListing)
    requires d.rootListing.Some? ==> rootListing == d.rootListing
    ensures ChangeOk(d, WithSchemas(d, schemas).(rootListing := rootListing), {SchemasLock}, Sound(c))
  {
    forall s ensures Sound(c)(s, EMPTY_REGISTRY, None) {
      EmptySchemaOk(c, s);
    }
    WithSchemasAll(d, schemas, Sound(c), Grows);
    var d' := WithSchemas(d, schemas);
    assert AllSchemas(d'.(rootListing := rootListing), Sound(c)) by {
      SameSchemas(d', rootListing, Sound(c));
    }
  }

  lemma SameSchemas(d: Data, rootListing: Option<set<string>>, p: SchemaProperty)
    requires AllSchemas(d, p)
    ensures AllSchemas(d.(rootListing := rootListing), p)
  {
  }

  lemma LookupSchemaEffectOk(c: Config, d: Data, name: string)
    requires DataOk(d, Sound(c))
    ensures EffectOk(c, d, InLookupSchema(name), LookupSchemaEffect(d, name))
  {
    LookupAdvances(d.schemas, name, d.rootListing);
    WithSchemasOk(c, d, AfterLookup(d.schemas, name), d.rootListing);
    var d' := WithSchemas(d, AfterLookup(d.schemas, name));
    assert d' == d'.(rootListing := d.rootListing);
    LookupEventsOk(d, d', name);
  }

  lemma LookupEventsOk(d: Data, d': Data, name: string)
    requires d'.schemas == AfterLookup(d.schemas, name)
    ensures EventsOk(d, d', [if Finds(d.schemas, name) then SchemaFound(name) else SchemaNotFound(name)])
  {
  }

  lemma RootReplyEffectOk(c: Config, d: Data, reply: NamespaceReply)
    requires DataOk(d, Sound(c)) && !d.schemas.listed
    ensures EffectOk(c, d, RootReplied(reply), RootReplyEffect(d, reply))
  {
    match reply
    case NamespacesFailed => ControlEffectOk(c, d, RootReplied(reply), Idle);
    case Namespaces(levels) =>
      var names := ListedNames(levels);
      RootListingAdvances(d.schemas, names);
      WithSchemasOk(c, d, AfterRootListing(d.schemas, names), Some(names));
  }

  lemma WithRegistryAll(d: Data, s: string, r: Registry, schemas: SchemaState, listing: Option<set<string>>,
                        p: SchemaProperty, grows: (Registry, Registry) -> bool)
    requires KeysOk(d) && s in d.registries && schemas.missing.Keys == d.schemas.missing.Keys
    requires AllSchemas(d, p) && p(s, r, listing)
    requires ListingOf(d, s).Some? ==> listing == ListingOf(d, s)
    requires forall r :: grows(r, r)
    requires grows(d.registries[s], r)
    ensures KeysOk(WithRegistry(d, s, r, schemas, listing))
    ensures AllSchemas(WithRegistry(d, s, r, schemas, listing), p)
    ensures AllRelated(d, WithRegistry(d, s, r, schemas, listing), grows)
  {
  }

  lemma WithRegistryFramed(d: Data, s: string, r: Registry, schemas: SchemaState, listing: Option<set<string>>,
                           held: set<Lock>)
    requires schemas.listed == d.schemas.listed && schemas.missing.Keys == d.schemas.missing.Keys
    requires TablesLock(s) in held
    ensures Framed(d, WithRegistry(d, s, r, schemas, listing), held)
  {
  }

  /** A change to one schema's tables, and perhaps its missing flag. */
  lemma RegistryStepOk(d: Data, s: string, r: Registry, schemas: SchemaState, listing: Option<set<string>>,
                       held: set<Lock>, p: SchemaProperty)
    requires DataOk(d, p) && s in d.registries
    requires Grows(d.registries[s], r) && p(s, r, listing)
    requires schemas == d.schemas || schemas == AfterMissing(d.schemas, s)
    requires ListingOf(d, s).Some? ==> listing == ListingOf(d, s)
    requires TablesLock(s) in held
    ensures ChangeOk(d, WithRegistry(d, s, r, schemas, listing), held, p)
  {
    MissingAdvances(d.schemas, s, d.rootListing);
    WithRegistryAll(d, s, r, schemas, listing, p, Grows);
    WithRegistryFramed(d, s, r, schemas, listing, held);
  }

  lemma LoadedEntryIsCut(c: Config, r: Registry, table: string, reply: LoadReply)
    requires Cut(c, r)
    requires reply.Loaded? ==> SinceStart(StartOf(c, reply.table.uuid), reply.table, c.startMs)
    ensures Cut(c, AfterLoad(r, table, c.startMs, reply).registry)
  {
  }

  lemma LoadKeepsSchemaOk(c: Config, s: string, r: Registry, listing: Option<set<string>>, table: string,
                          reply: LoadReply)
    requires SchemaOk(c, s, r, listing) && NeedsLoad(r, table)
    requires reply.Loaded? ==> SinceStart(StartOf(c, reply.table.uuid), reply.table, c.startMs)
    ensures var o := AfterLoad(r, table, c.startMs, reply);
            && SchemaOk(c, s, o.registry, listing) && Grows(r, o.registry)
            && (o.answer.LookupThrew? ==> o.registry == r && !o.namespaceMissing)
            && (!o.answer.LookupThrew? ==> !NeedsLoad(o.registry, table))
            && (o.answer.Entry? ==> IsLoaded(o.registry, table))
            && (!o.answer.LookupThrew? ==> o.answer == CachedAnswer(o.registry, table))
  {
    AfterLoadOk(r, if listing.Some? then listing.value else {}, table, c.startMs, reply);
    LoadedEntryIsCut(c, r, table, reply);
  }

  lemma LoadEventsOk(d: Data, d': Data, s: string, table: string, answer: LookupAnswer)
    requires s in d.registries && s in d'.registries
    requires NeedsLoad(d.registries[s], table) && !NeedsLoad(d'.registries[s], table)
    requires answer == CachedAnswer(d'.registries[s], table)
    requires answer.Entry? ==> IsLoaded(d'.registries[s], table)
    ensures EventsOk(d, d', [Concluded(s, table)] + AnswerEvent(s, table, answer))
  {
  }

  lemma LoadChangeOk(c: Config, d: Data, pc: Pc)
    requires pc.LoadReplied?
    requires DataOk(d, Sound(c)) && PcOk(c, d, pc)
    ensures ChangeOk(d, LoadReplyEffect(c, d, pc).data, Held(pc), Sound(c))
  {
    var s := pc.schema;
    var o := AfterLoad(d.registries[s], pc.table, c.startMs, pc.loadReply);
    SchemaIsOk(c, d, s);
    LoadKeepsSchemaOk(c, s, d.registries[s], ListingOf(d, s), pc.table, pc.loadReply);
    RegistryStepOk(d, s, o.registry, if o.namespaceMissing then AfterMissing(d.schemas, s) else d.schemas,
                   ListingOf(d, s), Held(pc), Sound(c));
  }

  lemma LoadReplyEventsOk(c: Config, d: Data, pc: Pc)
    requires pc.LoadReplied?
    requires DataOk(d, Sound(c)) && PcOk(c, d, pc)
    ensures EventsOk(d, LoadReplyEffect(c, d, pc).data, LoadReplyEffect(c, d, pc).events)
  {
    var s := pc.schema;
    var o := AfterLoad(d.registries[s], pc.table, c.startMs, pc.loadReply);
    SchemaIsOk(c, d, s);
    LoadKeepsSchemaOk(c, s, d.registries[s], ListingOf(d, s), pc.table, pc.loadReply);
    if !o.answer.LookupThrew? {
      LoadEventsOk(d, LoadReplyEffect(c, d, pc).data, s, pc.table, o.answer);
    }
  }

  lemma CallbackOkStays(d: Data, d': Data, outer: Option<Callback>)
    requires CallbackOk(d, outer) && Extends(d, d')
    ensures CallbackOk(d', outer)
  {
  }

  lemma LoadReplyReturns(c: Config, d: Data, d': Data, pc: Pc)
    requires pc.LoadReplied?
    ensures LoadReplyEffect(c, d, pc).pc == Idle || LoadReplyEffect(c, d, pc).pc == Return(pc.outer)
    ensures CallbackOk(d', pc.outer) ==> PcStepOk(c, d', pc, LoadReplyEffect(c, d, pc).pc)
  {
  }

  lemma LoadReplyEffectOk(c: Config, d: Data, pc: Pc)
    requires pc.LoadReplied?
    requires DataOk(d, Sound(c)) && PcOk(c, d, pc)
    ensures EffectOk(c, d, pc, LoadReplyEffect(c, d, pc))
  {
    LoadChangeOk(c, d, pc);
    LoadReplyEventsOk(c, d, pc);
    LoadReplyReturns(c, d, LoadReplyEffect(c, d, pc).data, pc);
    CallbackOkStays(d, LoadReplyEffect(c, d, pc).data, pc.outer);
  }

  lemma {:induction false} PlaceholdersAreCut(c: Config, r: Registry, names: seq<string>)
    requires Cut(c, r)
    ensures Cut(c, StorePlaceholders(r, names))
  {
    if names != [] {
      PlaceholdersAreCut(c, r, names[..|names| - 1]);
    }
  }

  lemma ListingKeepsSchemaOk(c: Config, s: string, r: Registry, names: seq<string>)
    requires SchemaOk(c, s, r, None)
    ensures SchemaOk(c, s, AfterListing(r, names), Some(NameSet(names)))
    ensures Grows(r, AfterListing(r, names))
  {
    AfterListingOk(r, names);
    PlaceholdersAreCut(c, r.(listed := true), names);
  }

  lemma ListEventsOk(d: Data, d': Data, s: string, names: set<string>)
    requires s !in d.listings && s in d'.listings && d'.listings[s] == names
    requires s in d'.registries && RegistryOk(d'.registries[s], names)
    ensures EventsOk(d, d', [TablesListed(s, names), Scanned(s, VisitedTables(d'.registries[s]), d'.registries[s])])
  {
  }

  lemma ListChangeOk(c: Config, d: Data, pc: Pc)
    requires pc.ListReplied?
    requires DataOk(d, Sound(c)) && PcOk(c, d, pc)
    ensures ChangeOk(d, ListReplyEffect(d, pc).data, Held(pc), Sound(c))
  {
    var s := pc.schema;
    match pc.listReply
    case ListNoSuchNamespace =>
      assert Sound(c)(s, d.registries[s], ListingOf(d, s));
      RegistryStepOk(d, s, d.registries[s], AfterMissing(d.schemas, s), ListingOf(d, s), Held(pc), Sound(c));
    case ListFailed => ExtendsItself(d);
    case Listed(names) =>
      SchemaIsOk(c, d, s);
      ListingKeepsSchemaOk(c, s, d.registries[s], names);
      RegistryStepOk(d, s, AfterListing(d.registries[s], names), d.schemas, Some(NameSet(names)), Held(pc), Sound(c));
  }

  lemma ListReplyEventsOk(c: Config, d: Data, pc: Pc)
    requires pc.ListReplied?
    requires DataOk(d, Sound(c)) && PcOk(c, d, pc)
    ensures EventsOk(d, ListReplyEffect(d, pc).data, ListReplyEffect(d, pc).events)
  {
    if pc.listReply.Listed? {
      var names := pc.listReply.names;
      SchemaIsOk(c, d, pc.schema);
      ListingKeepsSchemaOk(c, pc.schema, d.registries[pc.schema], names);
      ListEventsOk(d, ListReplyEffect(d, pc).data, pc.schema, NameSet(names));
    }
  }

  lemma ListReplyReturns(c: Config, d: Data, d': Data, pc: Pc)
    requires pc.ListReplied?
    ensures ListReplyEffect(d, pc).pc == Idle || ListReplyEffect(d, pc).pc == Return(pc.outer)
    ensures CallbackOk(d', pc.outer) ==> PcStepOk(c, d', pc, ListReplyEffect(d, pc).pc)
  {
  }

  lemma ListReplyEffectOk(c: Config, d: Data, pc: Pc)
    requires pc.ListReplied?
    requires DataOk(d, Sound(c)) && PcOk(c, d, pc)
    ensures EffectOk(c, d, pc, ListReplyEffect(d, pc))
  {
    ListChangeOk(c, d, pc);
    ListReplyEventsOk(c, d, pc);
    ListReplyReturns(c, d, ListReplyEffect(d, pc).data, pc);
    CallbackOkStays(d, ListReplyEffect(d, pc).data, pc.outer);
  }

  lemma AnsweredFromCache(d: Data, s: string, table: string)
    requires s in d.registries && IndexOk(d.registries[s]) && !NeedsLoad(d.registries[s], table)
    ensures EventsOk(d, d, AnswerEvent(s, table, CachedAnswer(d.registries[s], table)))
  {
  }

  lemma ScannedFromCache(d: Data, s: string)
    requires s in d.registries && s in d.listings && RegistryOk(d.registries[s], d.listings[s])
    ensures EventsOk(d, d, [Scanned(s, VisitedTables(d.registries[s]), d.registries[s])])
  {
  }

  lemma InTablesEventsOk(c: Config, d: Data, pc: Pc)
    requires pc.InTables?
    requires DataOk(d, Sound(c)) && PcOk(c, d, pc)
    ensures EventsOk(d, d, InTablesEffect(d, pc).events)
  {
    var s := pc.schema;
    SchemaIsOk(c, d, s);
    match pc.op
    case LookupTable(table) =>
      if !NeedsLoad(d.registries[s], table) {
        AnsweredFromCache(d, s, table);
      }
    case ScanTables =>
      if d.registries[s].listed {
        ScannedFromCache(d, s);
      }
  }

  lemma InTablesReturns(c: Config, d: Data, pc: Pc)
    requires pc.InTables? && PcOk(c, d, pc)
    ensures PcStepOk(c, d, pc, InTablesEffect(d, pc).pc)
    ensures InTablesEffect(d, pc).data == d
  {
  }

  lemma InTablesEffectOk(c: Config, d: Data, pc: Pc)
    requires pc.InTables?
    requires DataOk(d, Sound(c)) && PcOk(c, d, pc)
    ensures EffectOk(c, d, pc, InTablesEffect(d, pc))
  {
    InTablesReturns(c, d, pc);
    InTablesEventsOk(c, d, pc);
    UnchangedOk(d, Held(pc), Sound(c));
  }

  lemma UnchangedOk(d: Data, held: set<Lock>, p: SchemaProperty)
    requires DataOk(d, p)
    ensures ChangeOk(d, d, held, p)
  {
  }

  lemma NextOk(c: Config, d: Data, world: World, pc: Pc, choice: Choice)
    requires KeysOk(d) && PcOk(c, d, pc) && WorldSince(c, world)
    requires !pc.InLookupSchema? && !pc.RootReplied? && !pc.InTables? && !pc.LoadReplied? && !pc.ListReplied?
    ensures PcOk(c, d, Next(c, d, world, pc, choice))
  {
  }

  lemma NextHolds(c: Config, d: Data, world: World, pc: Pc, choice: Choice)
    ensures Held(Next(c, d, world, pc, choice))
            <= Held(pc) + (if Wants(pc).Some? then {Wants(pc).value} else {})
  {
  }

  lemma ControlEffectOk(c: Config, d: Data, pc: Pc, pc': Pc)
    requires DataOk(d, Sound(c)) && PcOk(c, d, pc')
    requires Held(pc') <= Held(pc) + (if Wants(pc).Some? then {Wants(pc).value} else {})
    ensures EffectOk(c, d, pc, Effect(pc', d, []))
  {
  }

  lemma NextEffectOk(c: Config, d: Data, world: World, pc: Pc, choice: Choice)
    requires DataOk(d, Sound(c)) && PcOk(c, d, pc) && WorldSince(c, world)
    requires !pc.InLookupSchema? && !pc.RootReplied? && !pc.InTables? && !pc.LoadReplied? && !pc.ListReplied?
    ensures EffectOk(c, d, pc, Effect(Next(c, d, world, pc, choice), d, []))
  {
    NextOk(c, d, world, pc, choice);
    NextHolds(c, d, world, pc, choice);
    ControlEffectOk(c, d, pc, Next(c, d, world, pc, choice));
  }

  /** Every step keeps the shared state sound, extends what is known, and stays within its locks. */
  lemma StepEffectOk(c: Config, d: Data, world: World, pc: Pc, choice: Choice)
    requires DataOk(d, Sound(c)) && PcOk(c, d, pc) && WorldSince(c, world)
    ensures EffectOk(c, d, pc, EffectOf(c, d, world, pc, choice))
  {
    match pc
    case InLookupSchema(name) => LookupSchemaEffectOk(c, d, name);
    case RootReplied(reply) => RootReplyEffectOk(c, d, reply);
    case InTables(_, _, _) => InTablesEffectOk(c, d, pc);
    case LoadReplied(_, _, _, _) => LoadReplyEffectOk(c, d, pc);
    case ListReplied(_, _, _) => ListReplyEffectOk(c, d, pc);
    case _ => NextEffectOk(c, d, world, pc, choice);
  }

  lemma TableEventStays(d: Data, d': Data, e: Event)
    requires e.Concluded? || e.Answered? || e.Absent?
    requires e.schema in d.registries && e.schema in d'.registries
    requires IndexOk(d.registries[e.schema]) && Grows(d.registries[e.schema], d'.registries[e.schema])
    requires EventOk(d, e)
    ensures EventOk(d', e)
  {
  }

  lemma ScannedStays(d: Data, d': Data, e: Event)
    requires e.Scanned?
    requires e.schema in d.registries && IndexOk(d.registries[e.schema])
    requires Extends(d, d')
    requires EventOk(d, e)
    ensures EventOk(d', e)
  {
  }

  lemma EventOkStays(c: Config, d: Data, d': Data, e: Event)
    requires DataOk(d, Sound(c)) && Extends(d, d')
    requires EventOk(d, e)
    ensures EventOk(d', e)
  {
    match e
    case SchemaNotFound(name) => GoneIsFinal(d.schemas, d'.schemas, name);
    case Concluded(s, _) =>
      SchemaIsOk(c, d, s);
      TableEventStays(d, d', e);
    case Answered(s, _, _) =>
      SchemaIsOk(c, d, s);
      TableEventStays(d, d', e);
    case Absent(s, _) =>
      SchemaIsOk(c, d, s);
      TableEventStays(d, d', e);
    case Scanned(s, _, _) =>
      SchemaIsOk(c, d, s);
      ScannedStays(d, d', e);
    case _ =>
  }

  /** Another thread's locks protect what it relies on. */
  lemma PcOkStays(c: Config, d: Data, d': Data, held: set<Lock>, pc: Pc)
    requires Extends(d, d') && Framed(d, d', held)
    requires held !! Held(pc)
    requires PcOk(c, d, pc)
    ensures PcOk(c, d', pc)
  {
  }

  lemma AllowedIsCompatible(d: Data, e: Event, later: Event)
    requires EventOk(d, e) && Allowed(d, later)
    ensures Compatible(e, later)
  {
  }

  lemma LogStays(c: Config, d: Data, log: seq<Event>, pc: Pc, e: Effect)
    requires DataOk(d, Sound(c)) && EffectOk(c, d, pc, e)
    requires forall k | 0 <= k < |log| :: EventOk(d, log[k])
    requires forall j, k | 0 <= j < k < |log| :: Compatible(log[j], log[k])
    ensures var log' := log + e.events;
            && (forall k | 0 <= k < |log'| :: EventOk(e.data, log'[k]))
            && (forall j, k | 0 <= j < k < |log'| :: Compatible(log'[j], log'[k]))
  {
    var log' := log + e.events;
    forall k | 0 <= k < |log'| ensures EventOk(e.data, log'[k]) {
      if k < |log| {
        EventOkStays(c, d, e.data, log[k]);
      }
    }
    forall j, k | 0 <= j < k < |log'| ensures Compatible(log'[j], log'[k]) {
      if j < |log| <= k {
        AllowedIsCompatible(d, log[j], e.events[k - |log|]);
      } else if |log| <= j {
        assert log'[j] == e.events[j - |log|] && log'[k] == e.events[k - |log|];
      }
    }
  }

  lemma ExclusionStays(threads: seq<Pc>, i: nat, pc': Pc)
    requires Exclusive(threads) && i < |threads| && !Blocked(threads, i)
    requires Held(pc') <= Held(threads[i]) + (if Wants(threads[i]).Some? then {Wants(threads[i]).value} else {})
    ensures Exclusive(threads[i := pc'])
  {
  }

  lemma ActKeepsInv(c: Config, g: State, i: nat, choice: Choice)
    requires Inv(c, g) && i < |g.threads| && !Blocked(g.threads, i)
    ensures Inv(c, Step(c, g, Act(i, choice)))
  {
    var pc := g.threads[i];
    var e := EffectOf(c, g.data, g.world, pc, choice);
    StepEffectOk(c, g.data, g.world, pc, choice);
    ExclusionStays(g.threads, i, e.pc);
    LogStays(c, g.data, g.log, pc, e);
    var threads' := g.threads[i := e.pc];
    forall j | 0 <= j < |threads'| ensures PcOk(c, e.data, threads'[j]) {
      if j != i {
        PcOkStays(c, g.data, e.data, Held(pc), g.threads[j]);
      }
    }
  }

  lemma CommitKeepsSinceStart(c: Config, world: World, key: (string, string), commit: Commit)
    requires CanCommit(c, world, key, commit)
    requires SinceStart(StartOf(c, world[key].uuid), world[key], c.startMs)
    ensures var t := Snapshots.Apply(world[key], commit); SinceStart(StartOf(c, t.uuid), t, c.startMs)
  {
    if !commit.change.Recreate? {
      SinceStartKept(StartOf(c, world[key].uuid), world[key], c.startMs, commit);
    }
  }

  lemma RemoteKeepsWorld(c: Config, world: World, key: (string, string), change: RemoteChange)
    requires WorldSince(c, world)
    ensures WorldSince(c, RemoteStep(c, world, key, change))
  {
    if change.Commits? && CanCommit(c, world, key, change.commit) {
      CommitKeepsSinceStart(c, world, key, change.commit);
    }
  }

  lemma RemoteKeepsInv(c: Config, g: State, key: (string, string), change: RemoteChange)
    requires Inv(c, g)
    ensures Inv(c, Step(c, g, Remote(key, change)))
  {
    RemoteKeepsWorld(c, g.world, key, change);
  }

  lemma {:induction false} RunKeepsInv(c: Config, g: State, actions: seq<Action>)
    requires Initial(c, g)
    ensures Inv(c, Run(c, g, actions))
  {
    if actions == [] {
      assert DataOk(NO_DATA, Sound(c));
      forall key | key in g.world ensures SinceStart(StartOf(c, g.world[key].uuid), g.world[key], c.startMs) {
        assert Origin(c, g.world[key].uuid) == Some(key);
        SinceStartInitially(g.world[key], c.startMs);
      }
    } else {
      var before := Run(c, g, actions[..|actions| - 1]);
      RunKeepsInv(c, g, actions[..|actions| - 1]);
      match actions[|actions| - 1]
      case Remote(key, change) => RemoteKeepsInv(c, before, key, change);
      case Act(i, choice) =>
        if i < |before.threads| && !Blocked(before.threads, i) {
          ActKeepsInv(c, before, i, choice);
        }
    }
  }
}
