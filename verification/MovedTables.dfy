/** Isolation by name, when other writers move tables from one name to another. */
module MovedTables {
  import opened Wrappers
  import opened IcebergTypes
  import opened Snapshots
  import opened TableCache
  import opened SchemaCache
  import opened Interleaving
  import opened TransactionTheorems

  type Name = (string, string)

  /** An answered entry is read as the start of the transaction had its name exactly when the table has no snapshots or
      is the one that had this name then, rather than one moved to it since. */
  lemma IsolatedByNameExactly(c: Config, g: State, actions: seq<Action>, schema: string, table: string, entry: nat,
                              info: ScanInfo)
    requires Initial(c, g)
    requires Answered(schema, table, entry) in Run(c, g, actions).log
    requires ScanOf(Run(c, g, actions).data, schema, entry) == Some(info)
    ensures Isolated(AtStart(c, schema, table), info) <==>
            info.table.snapshots == map[] || Origin(c, info.table.uuid) == Some((schema, table))
  {
    ConsistentCut(c, g, actions, schema, table, entry);
  }

  // ----- Names that nothing is moved to -----

  predicate NeverMovedTo(actions: seq<Action>, name: Name) {
    forall k | 0 <= k < |actions| && actions[k].Remote? && actions[k].change.Moves? :: actions[k].change.to != name
  }

  /** The table had this name at the start, or has been created since. */
  ghost predicate AtHome(c: Config, name: Name, t: Table) {
    Origin(c, t.uuid) == None || Origin(c, t.uuid) == Some(name)
  }

  ghost predicate RegistryHome(c: Config, name: Name, r: Registry) {
    forall e | 0 <= e < |r.entries| && r.entries[e].name == name.1 && r.entries[e].info.Some? ::
      AtHome(c, name, r.entries[e].info.value.table)
  }

  ghost predicate ReplyHome(c: Config, name: Name, pc: Pc) {
    pc.LoadReplied? && (pc.schema, pc.table) == name && pc.loadReply.Loaded? ==> AtHome(c, name, pc.loadReply.table)
  }

  ghost predicate WorldHome(c: Config, name: Name, world: World) {
    name in world ==> AtHome(c, name, world[name])
  }

  ghost predicate Home(c: Config, name: Name, g: State) {
    && WorldHome(c, name, g.world)
    && RegistryHome(c, name, RegistryOf(g.data, name.0))
    && forall i | 0 <= i < |g.threads| :: ReplyHome(c, name, g.threads[i])
  }

  lemma RemoteKeepsHome(c: Config, name: Name, world: World, key: Name, change: RemoteChange)
    requires WorldHome(c, name, world)
    requires change.Moves? ==> change.to != name
    ensures WorldHome(c, name, RemoteStep(c, world, key, change))
  {
  }

  lemma LoadKeepsHome(c: Config, name: Name, r: Registry, table: string, reply: LoadReply)
    requires RegistryHome(c, name, r)
    requires reply.Loaded? && table == name.1 ==> AtHome(c, name, reply.table)
    ensures RegistryHome(c, name, AfterLoad(r, table, c.startMs, reply).registry)
  {
  }

  lemma {:induction false} PlaceholdersKeepHome(c: Config, name: Name, r: Registry, names: seq<string>)
    requires RegistryHome(c, name, r)
    ensures RegistryHome(c, name, StorePlaceholders(r, names))
  {
    if names != [] {
      PlaceholdersKeepHome(c, name, r, names[..|names| - 1]);
    }
  }

  lemma LoadReplyStaysHome(c: Config, name: Name, d: Data, pc: Pc)
    requires pc.LoadReplied?
    requires RegistryHome(c, name, RegistryOf(d, name.0)) && ReplyHome(c, name, pc)
    ensures RegistryHome(c, name, RegistryOf(LoadReplyEffect(c, d, pc).data, name.0))
  {
    if pc.schema == name.0 {
      LoadKeepsHome(c, name, RegistryOf(d, pc.schema), pc.table, pc.loadReply);
    }
  }

  lemma ListReplyStaysHome(c: Config, name: Name, d: Data, pc: Pc)
    requires pc.ListReplied?
    requires RegistryHome(c, name, RegistryOf(d, name.0))
    ensures RegistryHome(c, name, RegistryOf(ListReplyEffect(d, pc).data, name.0))
  {
    if pc.schema == name.0 && pc.listReply.Listed? {
      PlaceholdersKeepHome(c, name, RegistryOf(d, pc.schema).(listed := true), pc.listReply.names);
    }
  }

  lemma DataStaysHome(c: Config, name: Name, d: Data, world: World, pc: Pc, choice: Choice)
    requires RegistryHome(c, name, RegistryOf(d, name.0)) && ReplyHome(c, name, pc)
    ensures RegistryHome(c, name, RegistryOf(EffectOf(c, d, world, pc, choice).data, name.0))
  {
    match pc
    case LoadReplied(_, _, _, _) => LoadReplyStaysHome(c, name, d, pc);
    case ListReplied(_, _, _) => ListReplyStaysHome(c, name, d, pc);
    case _ =>
  }

  lemma NextStaysHome(c: Config, name: Name, d: Data, world: World, pc: Pc, choice: Choice)
    requires !pc.InLookupSchema? && !pc.RootReplied? && !pc.InTables? && !pc.LoadReplied? && !pc.ListReplied?
    requires WorldHome(c, name, world)
    ensures ReplyHome(c, name, Next(c, d, world, pc, choice))
  {
  }

  lemma RepliesStayHome(c: Config, name: Name, d: Data, world: World, pc: Pc, choice: Choice)
    requires WorldHome(c, name, world)
    ensures ReplyHome(c, name, EffectOf(c, d, world, pc, choice).pc)
  {
    match pc
    case InLookupSchema(_) =>
    case RootReplied(_) =>
    case InTables(_, _, _) =>
    case LoadReplied(_, _, _, _) => LoadReplyReturns(c, d, d, pc);
    case ListReplied(_, _, _) => ListReplyReturns(c, d, d, pc);
    case _ => NextStaysHome(c, name, d, world, pc, choice);
  }

  lemma {:induction false} RunStaysHome(c: Config, g: State, actions: seq<Action>, name: Name)
    requires Initial(c, g) && NeverMovedTo(actions, name)
    ensures Home(c, name, Run(c, g, actions))
  {
    if actions == [] {
      if name in g.world {
        assert Origin(c, g.world[name].uuid) == Some(name);
      }
    } else {
      var before := Run(c, g, actions[..|actions| - 1]);
      RunStaysHome(c, g, actions[..|actions| - 1], name);
      match actions[|actions| - 1]
      case Remote(key, change) => RemoteKeepsHome(c, name, before.world, key, change);
      case Act(i, choice) =>
        if i < |before.threads| && !Blocked(before.threads, i) {
          DataStaysHome(c, name, before.data, before.world, before.threads[i], choice);
          RepliesStayHome(c, name, before.data, before.world, before.threads[i], choice);
        }
    }
  }

  /** Whatever else happens: unless some table is moved to a name, every entry answered for the name is read as the
      start of the transaction had it, or has no snapshots. */
  lemma IsolatedUnlessMovedTo(c: Config, g: State, actions: seq<Action>, schema: string, table: string, entry: nat,
                              info: ScanInfo)
    requires Initial(c, g) && NeverMovedTo(actions, (schema, table))
    requires Answered(schema, table, entry) in Run(c, g, actions).log
    requires ScanOf(Run(c, g, actions).data, schema, entry) == Some(info)
    ensures Isolated(AtStart(c, schema, table), info)
    ensures info.table.snapshots != map[] ==> StartOf(c, info.table.uuid) == AtStart(c, schema, table)
  {
    RunStaysHome(c, g, actions, (schema, table));
    RepeatableRead(c, g, actions, schema, table, entry);
    ConsistentCut(c, g, actions, schema, table, entry);
    IsolatedByNameExactly(c, g, actions, schema, table, entry, info);
  }

  // ----- A table swap -----

  const A: Name := ("s", "a")
  const B: Name := ("s", "b")

  /** Two tables, with current snapshots 1 and 2. */
  function Two(schema: Schema): World {
    map[A := OneSnapshot(7, schema),
        B := Apply(EmptyTable(8, 5, schema), Commit(10, Append(2, [])))]
  }

  /** B is dropped, A takes its name and is appended to: B is then read as snapshot 1, which it never had. */
  lemma SwappedTableEscapes(schema: Schema)
    ensures var c := Config(20, Two(schema), "main");
            var dropped := RemoteStep(c, Two(schema), B, Drops);
            var moved := RemoteStep(c, dropped, A, Moves(B));
            var world := RemoteStep(c, moved, B, Commits(Commit(30, Append(3, []))));
            && DistinctTables(Two(schema))
            && B in world && Two(schema)[B].current == Some(2)
            && ResolveScanInfo(world[B], 20) == Ok(ScanInfo(world[B], PinnedRead(1), schema))
            && !Isolated(AtStart(c, B.0, B.1), ResolveScanInfo(world[B], 20).value)
  {
    var c := Config(20, Two(schema), "main");
    var moved := RemoteStep(c, RemoteStep(c, Two(schema), B, Drops), A, Moves(B));
    assert moved[B] == OneSnapshot(7, schema);
    var now := Apply(moved[B], Commit(30, Append(3, [])));
    assert now.log == [LogEntry(10, 1), LogEntry(30, 3)];
    assert now.log[..1] == [LogEntry(10, 1)];
    assert AsOf(now.log, 20) == Some(1);
  }
}
