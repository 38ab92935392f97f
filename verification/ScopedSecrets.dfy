/** Temporary S3 secrets for a transaction's vended credentials: their scope, names and lifetime. */
module ScopedSecrets {
  import opened Wrappers
  import opened Text
  import S3 = S3Conversion

  datatype VendingTable = VendingTable(location: string, writeDataPath: string, ioProperties: Option<S3.Properties>)

  datatype SecretInput = SecretInput(scope: seq<string>, options: S3.Secret)

  datatype SecretError = NoFileIO | EmptyLocation | CreateFailed | NotLoaded

  function ScopeWithSlash(path: string): string {
    if path != "" && path[|path| - 1] != '/' then path + "/" else path
  }

  /** A scope covers the files below its path and nothing beside it, so not a sibling that extends the last name. */
  lemma ScopeCoversExactlyBelow(path: string, file: string)
    requires path != ""
    ensures ScopeWithSlash(path) <= file <==>
            path <= file && (path[|path| - 1] == '/' || (|path| < |file| && file[|path|] == '/'))
  {
  }

  function BuildScopedS3Secret(table: VendingTable): Result<SecretInput, SecretError> {
    match table.ioProperties
    case None => Threw(NoFileIO)
    case Some(properties) =>
      if table.location == "" then Threw(EmptyLocation)
      else
        Ok(SecretInput([ScopeWithSlash(table.location)]
                       + (if table.writeDataPath == "" then [] else [ScopeWithSlash(table.writeDataPath)]),
                       S3.ToSecret(properties)))
  }

  /** A file lies below a path whose last name ends where the path does. */
  predicate Below(path: string, file: string) {
    && path <= file
    && ((path != "" && path[|path| - 1] == '/') || (|path| < |file| && file[|path|] == '/'))
  }

  /** A table's secret covers the files below its location, and below write.data.path if that is set; its options are
      the vended properties, converted. There is none without a FileIO, or without a location. */
  lemma SecretCoversExactly(table: VendingTable, file: string)
    ensures BuildScopedS3Secret(table).Ok? <==> table.ioProperties.Some? && table.location != ""
    ensures BuildScopedS3Secret(table).Threw? ==>
              BuildScopedS3Secret(table).error == if table.ioProperties.None? then NoFileIO else EmptyLocation
    ensures BuildScopedS3Secret(table).Ok? ==>
              var input := BuildScopedS3Secret(table).value;
              && S3.SecretOfProperties(table.ioProperties.value, input.options)
              && ((exists scope | scope in input.scope :: scope <= file) <==>
                    Below(table.location, file) || (table.writeDataPath != "" && Below(table.writeDataPath, file)))
  {
    if BuildScopedS3Secret(table).Ok? {
      var input := BuildScopedS3Secret(table).value;
      S3.SecretExactly(table.ioProperties.value, input.options);
      ScopeCoversExactlyBelow(table.location, file);
      assert ScopeWithSlash(table.location) in input.scope;
      if table.writeDataPath != "" {
        ScopeCoversExactlyBelow(table.writeDataPath, file);
        assert ScopeWithSlash(table.writeDataPath) in input.scope;
      }
    }
  }

  function SecretName(catalog: string, transaction: nat, index: nat): string {
    "__proto_ic_" + catalog + "_" + Decimal(transaction) + "_" + Decimal(index)
  }

  /** Names never collide, whatever the catalog names: even with underscores and digits in them. */
  lemma SecretNameInjective(c: string, t: nat, i: nat, c': string, t': nat, i': nat)
    requires SecretName(c, t, i) == SecretName(c', t', i')
    ensures c == c' && t == t' && i == i'
  {
    var p, p' := "__proto_ic_" + c, "__proto_ic_" + c';
    var q, q' := p + "_" + Decimal(t), p' + "_" + Decimal(t');
    LastSeparatorUnique(q, Decimal(i), q', Decimal(i'), '_');
    LastSeparatorUnique(p, Decimal(t), p', Decimal(t'), '_');
    DecimalInjective(i, i');
    DecimalInjective(t, t');
    assert p[11..] == c && p'[11..] == c';
  }

  /** A name as it is spelled. */
  lemma SecretNameSpelled()
    ensures SecretName("lake_2", 17, 3) == "__proto_ic_lake_2_17_3"
  {
    assert Decimal(17) == "17" && Decimal(3) == "3";
  }

  // ----- The code: a connection's secrets, and the database's secret manager -----

  class SecretManager {
    var secrets: map<string, SecretInput>

    constructor ()
      ensures secrets == map[]
    {
      secrets := map[];
    }
  }

  class ConnectionSecrets {
    var names: seq<string>

    constructor ()
      ensures names == []
    {
      names := [];
    }

    /** Creates a secret, replacing any of that name. created stands for the secret manager's answer. */
    method Create(manager: SecretManager, catalog: string, transaction: nat, table: VendingTable, created: bool)
      returns (r: Result<string, SecretError>)
      modifies this, manager
      ensures var input := BuildScopedS3Secret(table);
              var name := SecretName(catalog, transaction, |old(names)|);
              && r == (if input.Threw? then Threw(input.error) else if created then Ok(name) else Threw(CreateFailed))
              && names == (if r.Ok? then old(names) + [name] else old(names))
              && manager.secrets == if r.Ok? then old(manager.secrets)[name := input.value] else old(manager.secrets)
      ensures forall d: Database, s: nat | Shows(d, s, Some(transaction), old(names), old(manager.secrets)) ::
                Shows(Step(d, CreateSecret(s, catalog, r.Ok?)), s, Some(transaction), names, manager.secrets)
    {
      var input := BuildScopedS3Secret(table);
      if input.Threw? {
        return Threw(input.error);
      }
      var name := SecretName(catalog, transaction, |names|);
      if !created {
        return Threw(CreateFailed);
      }
      manager.secrets := manager.secrets[name := input.value];
      names := names + [name];
      r := Ok(name);
    }

    /** Drops every secret of the ended transaction. When the drop does not commit, the secrets stay behind. */
    method DropAll(manager: SecretManager, commits: bool)
      modifies this, manager
      ensures names == []
      ensures manager.secrets == if commits then old(manager.secrets) - (set name | name in old(names))
                                 else old(manager.secrets)
      ensures forall d: Database, s: nat, t: nat | Shows(d, s, Some(t), old(names), old(manager.secrets)) ::
                Shows(Step(d, End(s, commits)), s, None, names, manager.secrets)
    {
      var dropping := names;
      names := [];
      if dropping == [] {
        return;
      }
      var remaining := manager.secrets;
      for i := 0 to |dropping|
        invariant manager.secrets == old(manager.secrets) && names == []
        invariant remaining == old(manager.secrets) - (set name | name in dropping[..i])
      {
        assert dropping[..i + 1] == dropping[..i] + [dropping[i]];
        remaining := remaining - {dropping[i]};
      }
      assert dropping[..|dropping|] == dropping;
      if commits {
        manager.secrets := remaining;
      }
    }
  }

  /** A table entry's part in a scan; a placeholder has no table. */
  class ScannedEntry {
    const table: Option<VendingTable>
    var hasSecret: bool

    constructor (table: Option<VendingTable>)
      ensures this.table == table && !hasSecret
    {
      this.table := table;
      hasSecret := false;
    }

    /** Every scan of an entry shares the one secret that its first successful scan creates. */
    method GetScanFunction(connection: ConnectionSecrets, manager: SecretManager, catalog: string, transaction: nat,
                           created: bool)
      returns (r: Result<(), SecretError>)
      modifies this`hasSecret, connection, manager
      ensures table.None? ==> r == Threw(NotLoaded)
      ensures table.Some? ==> (r.Ok? <==> old(hasSecret) || (created && BuildScopedS3Secret(table.value).Ok?))
      ensures hasSecret <==> old(hasSecret) || r.Ok?
      ensures old(hasSecret) || r.Threw? ==>
                connection.names == old(connection.names) && manager.secrets == old(manager.secrets)
      ensures table.Some? && !old(hasSecret) && r.Ok? ==>
                var name := SecretName(catalog, transaction, |old(connection.names)|);
                && connection.names == old(connection.names) + [name]
                && BuildScopedS3Secret(table.value).Ok?
                && manager.secrets == old(manager.secrets)[name := BuildScopedS3Secret(table.value).value]
    {
      if table.None? {
        return Threw(NotLoaded);
      }
      if !hasSecret {
        var name := connection.Create(manager, catalog, transaction, table.value, created);
        if name.Threw? {
          return Threw(name.error);
        }
        hasSecret := true;
      }
      r := Ok(());
    }
  }

  // ----- Every run of transactions over many connections -----

  /** A connection's running transaction, if any, and the names its secrets were created under. */
  datatype Session = Session(transaction: Option<nat>, names: seq<string>)

  /** stored holds the extension's secrets. Transaction ids are handed out once. */
  datatype Database = Database(sessions: seq<Session>, stored: set<string>, issued: set<nat>)

  datatype Event =
    | Begin(session: nat, transaction: nat)
    | CreateSecret(session: nat, catalog: string, created: bool)
    | End(session: nat, commits: bool)

  predicate Enabled(d: Database, e: Event) {
    && e.session < |d.sessions|
    && match e
       case Begin(s, t) => d.sessions[s].transaction.None? && t !in d.issued
       case CreateSecret(s, _, _) => d.sessions[s].transaction.Some?
       case End(s, _) => d.sessions[s].transaction.Some?
  }

  function NextName(session: Session, catalog: string): string
    requires session.transaction.Some?
  {
    SecretName(catalog, session.transaction.value, |session.names|)
  }

  function Step(d: Database, e: Event): Database {
    if !Enabled(d, e) then d
    else
      var session := d.sessions[e.session];
      match e
      case Begin(s, t) => d.(sessions := d.sessions[s := Session(Some(t), session.names)], issued := d.issued + {t})
      case CreateSecret(s, catalog, created) =>
        if !created then d
        else
          var name := NextName(session, catalog);
          d.(sessions := d.sessions[s := session.(names := session.names + [name])], stored := d.stored + {name})
      case End(s, commits) =>
        d.(sessions := d.sessions[s := Session(None, [])],
           stored := if commits then d.stored - (set name | name in session.names) else d.stored)
  }

  function Run(d: Database, events: seq<Event>): Database {
    if events == [] then d else Step(Run(d, events[..|events| - 1]), events[|events| - 1])
  }

  /** A database as one of its connections and its secret manager have it. */
  predicate Shows(d: Database, s: nat, transaction: Option<nat>, names: seq<string>,
                  secrets: map<string, SecretInput>)
  {
    s < |d.sessions| && d.sessions[s] == Session(transaction, names) && d.stored == secrets.Keys
  }

  predicate Initial(d: Database) {
    && (forall i | 0 <= i < |d.sessions| :: d.sessions[i] == Session(None, []))
    && d.stored == {} && d.issued == {}
  }

  ghost predicate NamedFor(name: string, transaction: nat, index: nat) {
    exists catalog :: name == SecretName(catalog, transaction, index)
  }

  ghost predicate SessionOk(session: Session, issued: set<nat>) {
    match session.transaction
    case None => session.names == []
    case Some(t) => t in issued && forall i | 0 <= i < |session.names| :: NamedFor(session.names[i], t, i)
  }

  /** A stored secret belongs to an issued transaction; if that one still runs, its session knows the name. */
  ghost predicate StoredOk(name: string, d: Database) {
    exists t: nat, i: nat :: StoredFor(name, d, t, i)
  }

  ghost predicate StoredFor(name: string, d: Database, t: nat, i: nat) {
    && t in d.issued
    && NamedFor(name, t, i)
    && forall s | 0 <= s < |d.sessions| && d.sessions[s].transaction == Some(t) ::
         i < |d.sessions[s].names| && d.sessions[s].names[i] == name
  }

  ghost predicate Inv(d: Database) {
    && (forall s | 0 <= s < |d.sessions| :: SessionOk(d.sessions[s], d.issued))
    && (forall s, u | 0 <= s < u < |d.sessions| && d.sessions[s].transaction.Some? ::
          d.sessions[s].transaction != d.sessions[u].transaction)
    && (forall name | name in d.stored :: StoredOk(name, d))
    && (forall s | 0 <= s < |d.sessions| :: forall name | name in d.sessions[s].names :: name in d.stored)
  }

  lemma NamedForOnce(name: string, t: nat, i: nat, t': nat, i': nat)
    requires NamedFor(name, t, i) && NamedFor(name, t', i')
    ensures t == t' && i == i'
  {
    var c :| name == SecretName(c, t, i);
    var c' :| name == SecretName(c', t', i');
    SecretNameInjective(c, t, i, c', t', i');
  }

  /** The name a running transaction would create next is not the name of any secret in the database. */
  lemma NextNameIsFresh(d: Database, s: nat, catalog: string)
    requires Inv(d)
    requires s < |d.sessions| && d.sessions[s].transaction.Some?
    ensures NextName(d.sessions[s], catalog) !in d.stored
  {
    var session := d.sessions[s];
    var name := NextName(session, catalog);
    assert NamedFor(name, session.transaction.value, |session.names|);
    if name in d.stored {
      assert StoredOk(name, d);
      var t: nat, i: nat :| StoredFor(name, d, t, i);
      NamedForOnce(name, t, i, session.transaction.value, |session.names|);
      assert false;
    }
  }

  lemma BeginKeepsInv(d: Database, e: Event)
    requires Inv(d) && e.Begin? && Enabled(d, e)
    ensures Inv(Step(d, e))
  {
    var d' := Step(d, e);
    forall name | name in d'.stored ensures StoredOk(name, d') {
      assert StoredOk(name, d);
      var t: nat, i: nat :| StoredFor(name, d, t, i);
      assert StoredFor(name, d', t, i);
    }
  }

  lemma CreateKeepsStored(d: Database, e: Event, name: string)
    requires Inv(d) && e.CreateSecret? && Enabled(d, e) && e.created
    requires name in d.stored
    ensures StoredOk(name, Step(d, e))
  {
    assert StoredOk(name, d);
    var t: nat, i: nat :| StoredFor(name, d, t, i);
    assert StoredFor(name, Step(d, e), t, i);
  }

  lemma CreateKeepsInv(d: Database, e: Event)
    requires Inv(d) && e.CreateSecret? && Enabled(d, e) && e.created
    ensures Inv(Step(d, e))
  {
    var d' := Step(d, e);
    var session := d.sessions[e.session];
    var name := NextName(session, e.catalog);
    var t := session.transaction.value;
    assert NamedFor(name, t, |session.names|);
    assert SessionOk(d'.sessions[e.session], d'.issued);
    assert StoredFor(name, d', t, |session.names|);
    forall other | other in d.stored ensures StoredOk(other, d') {
      CreateKeepsStored(d, e, other);
    }
  }

  lemma EndKeepsInv(d: Database, e: Event)
    requires Inv(d) && e.End? && Enabled(d, e)
    ensures Inv(Step(d, e))
  {
    var d' := Step(d, e);
    var ended := d.sessions[e.session];
    forall name | name in d'.stored ensures StoredOk(name, d') {
      assert StoredOk(name, d);
      var t: nat, i: nat :| StoredFor(name, d, t, i);
      assert StoredFor(name, d', t, i);
    }
    forall s, name | 0 <= s < |d'.sessions| && name in d'.sessions[s].names ensures name in d'.stored {
      assert s != e.session;
      if name in ended.names {
        var i :| 0 <= i < |ended.names| && ended.names[i] == name;
        var j :| 0 <= j < |d.sessions[s].names| && d.sessions[s].names[j] == name;
        assert SessionOk(d.sessions[s], d.issued) && SessionOk(ended, d.issued);
        NamedForOnce(name, ended.transaction.value, i, d.sessions[s].transaction.value, j);
        assert false;
      }
    }
  }

  lemma {:induction false} RunKeepsInv(d: Database, events: seq<Event>)
    requires Initial(d)
    ensures Inv(Run(d, events))
  {
    if events != [] {
      var before, e := Run(d, events[..|events| - 1]), events[|events| - 1];
      RunKeepsInv(d, events[..|events| - 1]);
      if Enabled(before, e) {
        match e
        case Begin(_, _) => BeginKeepsInv(before, e);
        case CreateSecret(_, _, created) => if created { CreateKeepsInv(before, e); }
        case End(_, _) => EndKeepsInv(before, e);
      }
    }
  }

  /** Over any run, creating a secret never replaces one of the extension's secrets, live or leaked. */
  lemma CreateNeverReplaces(d: Database, events: seq<Event>, e: Event)
    requires Initial(d)
    requires e.CreateSecret? && Enabled(Run(d, events), e)
    ensures NextName(Run(d, events).sessions[e.session], e.catalog) !in Run(d, events).stored
  {
    RunKeepsInv(d, events);
    NextNameIsFresh(Run(d, events), e.session, e.catalog);
  }

  /** Over any run, a transaction's secrets are all stored while it runs, and a committed drop leaves none of them while
      leaving every other running transaction's. */
  lemma DropLeavesExactlyTheOthers(d: Database, events: seq<Event>, e: Event)
    requires Initial(d)
    requires e.End? && e.commits && Enabled(Run(d, events), e)
    ensures var before, after := Run(d, events), Step(Run(d, events), e);
            && (forall name, i: nat | name in after.stored ::
                  !NamedFor(name, before.sessions[e.session].transaction.value, i))
            && (forall s, name | 0 <= s < |after.sessions| && name in after.sessions[s].names :: name in after.stored)
  {
    var before, after := Run(d, events), Step(Run(d, events), e);
    RunKeepsInv(d, events);
    EndKeepsInv(before, e);
    var ended := before.sessions[e.session];
    var t := ended.transaction.value;
    assert forall k | 0 <= k < |ended.names| :: ended.names[k] in ended.names;
    forall name, i: nat | name in after.stored ensures !NamedFor(name, t, i) {
      if NamedFor(name, t, i) {
        var t': nat, i': nat :| StoredFor(name, before, t', i');
        NamedForOnce(name, t, i, t', i');
        assert false;
      }
    }
  }
}
