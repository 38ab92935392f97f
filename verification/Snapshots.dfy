/** A table's metadata as it changes under a transaction, and the version a transaction reads. */
module Snapshots {
  import opened Wrappers
  import opened IcebergTypes
  import opened DataFiles

  datatype LogEntry = LogEntry(timestampMs: int, snapshotId: int)

  /** A snapshot's data files, as read under its schema. */
  datatype Snapshot = Snapshot(schema: Schema, files: seq<DataFile>)

  /** uuid identifies the table, under whatever name; snapshots holds the live ones by id; log is the snapshot log. */
  datatype Table = Table(uuid: nat, snapshots: map<int, Snapshot>, log: seq<LogEntry>, current: Option<int>,
                         lastUpdatedMs: int, schema: Schema)

  datatype Change =
    | Append(snapshotId: int, files: seq<DataFile>)
    | Stage(snapshotId: int, files: seq<DataFile>)  // a snapshot on a branch, or staged: not made current
    | Rollback(snapshotId: int)
    | SetSchema(schema: Schema)
    | Expire(snapshotIds: set<int>)
    | Recreate(uuid: nat, schema: Schema)  // dropped and created again under the same name

  datatype Commit = Commit(timestampMs: int, change: Change)

  /** The entries after the last one that names a snapshot no longer live. */
  function LiveSuffix(log: seq<LogEntry>, live: set<int>): seq<LogEntry> {
    if log == [] || log[|log| - 1].snapshotId !in live then []
    else LiveSuffix(log[..|log| - 1], live) + [log[|log| - 1]]
  }

  function EmptyTable(uuid: nat, timestampMs: int, schema: Schema): Table {
    Table(uuid, map[], [], None, timestampMs, schema)
  }

  function Apply(t: Table, c: Commit): Table {
    var stamped := t.(lastUpdatedMs := c.timestampMs);
    match c.change
    case Append(id, files) =>
      stamped.(snapshots := t.snapshots[id := Snapshot(t.schema, files)],
               log := t.log + [LogEntry(c.timestampMs, id)],
               current := Some(id))
    case Stage(id, files) => stamped.(snapshots := t.snapshots[id := Snapshot(t.schema, files)])
    case Rollback(id) => stamped.(log := t.log + [LogEntry(c.timestampMs, id)], current := Some(id))
    case SetSchema(schema) => stamped.(schema := schema)
    case Expire(ids) =>
      stamped.(snapshots := t.snapshots - ids,
               log := LiveSuffix(t.log, t.snapshots.Keys - ids),
               current := if t.current.Some? && t.current.value in ids then None else t.current)
    case Recreate(uuid, schema) => EmptyTable(uuid, c.timestampMs, schema)
  }

  /** Timestamps never decrease, a new snapshot takes no live one's id, and a rollback's target is live. */
  predicate Legal(t: Table, c: Commit) {
    && c.timestampMs >= t.lastUpdatedMs
    && match c.change
       case Append(id, _) => id !in t.snapshots
       case Stage(id, _) => id !in t.snapshots
       case Rollback(id) => id in t.snapshots
       case _ => true
  }

  predicate WellFormed(t: Table) {
    && (forall i | 0 <= i < |t.log| :: t.log[i].snapshotId in t.snapshots && t.log[i].timestampMs <= t.lastUpdatedMs)
    && t.current == if t.log == [] then None else Some(t.log[|t.log| - 1].snapshotId)
  }

  // ----- What a transaction reads -----

  /** ProtoIcebergTransaction's start: microseconds divided by 1000, rounding toward zero. */
  function StartTimestampMs(micros: int): (ms: int)
    ensures micros >= 0 ==> 1000 * ms <= micros < 1000 * (ms + 1)
    ensures micros < 0 ==> 1000 * (ms - 1) < micros <= 1000 * ms
  {
    if micros >= 0 then micros / 1000 else -((-micros) / 1000)
  }

  /** OptionalSnapshotIdAsOfTime: the last log entry not after the time. */
  function AsOf(log: seq<LogEntry>, timeMs: int): Option<int> {
    if log == [] then None
    else if log[|log| - 1].timestampMs <= timeMs then Some(log[|log| - 1].snapshotId)
    else AsOf(log[..|log| - 1], timeMs)
  }

  datatype ScanMode = CurrentRead | PinnedRead(snapshotId: int)

  datatype ScanInfo = ScanInfo(table: Table, mode: ScanMode, schema: Schema)

  datatype ResolveError = Unreachable | NoSnapshotSchema

  function ResolveScanInfo(table: Table, startMs: int): Result<ScanInfo, ResolveError> {
    if table.snapshots != map[] && table.lastUpdatedMs > startMs then
      match AsOf(table.log, startMs)
      case None => Threw(Unreachable)
      case Some(id) =>
        if id in table.snapshots then Ok(ScanInfo(table, PinnedRead(id), table.snapshots[id].schema))
        else Threw(NoSnapshotSchema)
    else Ok(ScanInfo(table, CurrentRead, table.schema))
  }

  /** The snapshot a scan reads, if any. */
  function SnapshotRead(info: ScanInfo): Option<int> {
    match info.mode
    case CurrentRead => info.table.current
    case PinnedRead(id) => Some(id)
  }

  // ----- Isolation -----

  /** start is the table when the transaction started, if it existed, and t the table as it is now. */
  predicate SinceStart(start: Option<Table>, t: Table, startMs: int) {
    && WellFormed(t)
    && (t.lastUpdatedMs > startMs || start == Some(t))
    && match AsOf(t.log, startMs)
       case None => true
       case Some(id) =>
         && start.Some? && start.value.uuid == t.uuid && start.value.current == Some(id)
         && id in start.value.snapshots && id in t.snapshots && t.snapshots[id] == start.value.snapshots[id]
  }

  /** A read sees the very table of the start, in the snapshot that was current then, with that snapshot's schema and
      files; a table without snapshots is read as it is. */
  predicate Isolated(start: Option<Table>, info: ScanInfo) {
    info.table.snapshots == map[] ||
    (start.Some? && start.value.uuid == info.table.uuid
     && SnapshotRead(info) == start.value.current
     && (info.mode.PinnedRead? ==>
           var id := info.mode.snapshotId;
           && id in start.value.snapshots && id in info.table.snapshots
           && info.table.snapshots[id] == start.value.snapshots[id]
           && info.schema == start.value.snapshots[id].schema)
     && (info.mode.CurrentRead? ==> info.table == start.value && info.schema == start.value.schema))
  }

  /** suffix is log without its first dropped entries, all of it live, and cut at an entry that is not. */
  predicate CutAt(log: seq<LogEntry>, live: set<int>, dropped: nat, suffix: seq<LogEntry>) {
    && dropped + |suffix| == |log|
    && (forall i | 0 <= i < |suffix| :: suffix[i] == log[dropped + i] && suffix[i].snapshotId in live)
    && (dropped > 0 ==> log[dropped - 1].snapshotId !in live)
  }

  lemma CutExtends(log: seq<LogEntry>, live: set<int>, dropped: nat, suffix: seq<LogEntry>, e: LogEntry)
    requires CutAt(log, live, dropped, suffix)
    requires e.snapshotId in live
    ensures CutAt(log + [e], live, dropped, suffix + [e])
  {
  }

  lemma {:induction false} LiveSuffixCut(log: seq<LogEntry>, live: set<int>) returns (dropped: nat)
    ensures CutAt(log, live, dropped, LiveSuffix(log, live))
  {
    if log != [] && log[|log| - 1].snapshotId in live {
      var n := |log| - 1;
      var rest := LiveSuffix(log[..n], live);
      dropped := LiveSuffixCut(log[..n], live);
      CutExtends(log[..n], live, dropped, rest, log[n]);
      assert log[..n] + [log[n]] == log;
    } else {
      dropped := |log|;
    }
  }

  lemma {:induction false} AsOfMember(log: seq<LogEntry>, timeMs: int)
    requires AsOf(log, timeMs).Some?
    ensures exists i | 0 <= i < |log| :: log[i].snapshotId == AsOf(log, timeMs).value && log[i].timestampMs <= timeMs
  {
    if log[|log| - 1].timestampMs > timeMs {
      AsOfMember(log[..|log| - 1], timeMs);
      var i :| 0 <= i < |log| - 1 && log[..|log| - 1][i].snapshotId == AsOf(log, timeMs).value
        && log[..|log| - 1][i].timestampMs <= timeMs;
      assert log[i].snapshotId == AsOf(log, timeMs).value;
    }
  }

  /** Truncating a log either keeps the entry current at a time or forgets it: it never uncovers an earlier one. */
  lemma {:induction false} AsOfLiveSuffix(log: seq<LogEntry>, live: set<int>, timeMs: int)
    ensures AsOf(LiveSuffix(log, live), timeMs) == None || AsOf(LiveSuffix(log, live), timeMs) == AsOf(log, timeMs)
  {
    if log != [] && log[|log| - 1].snapshotId in live {
      var before := LiveSuffix(log[..|log| - 1], live);
      AsOfLiveSuffix(log[..|log| - 1], live, timeMs);
      assert (before + [log[|log| - 1]])[..|before|] == before;
    }
  }

  lemma AsOfLater(log: seq<LogEntry>, e: LogEntry, timeMs: int)
    requires e.timestampMs > timeMs
    ensures AsOf(log + [e], timeMs) == AsOf(log, timeMs)
  {
  }

  lemma ApplyWellFormed(t: Table, c: Commit)
    requires WellFormed(t) && Legal(t, c)
    ensures WellFormed(Apply(t, c))
  {
    if c.change.Expire? {
      var _ := LiveSuffixCut(t.log, t.snapshots.Keys - c.change.snapshotIds);
    }
  }

  lemma SinceStartExpiry(start: Option<Table>, t: Table, startMs: int, c: Commit)
    requires SinceStart(start, t, startMs) && c.change.Expire?
    requires AsOf(Apply(t, c).log, startMs).Some?
    ensures AsOf(Apply(t, c).log, startMs) == AsOf(t.log, startMs)
    ensures AsOf(t.log, startMs).value in Apply(t, c).snapshots
  {
    var live := t.snapshots.Keys - c.change.snapshotIds;
    AsOfLiveSuffix(t.log, live, startMs);
    var dropped := LiveSuffixCut(t.log, live);
    AsOfMember(LiveSuffix(t.log, live), startMs);
  }

  /** Every commit stamped after the start keeps what the table still knows about the start. */
  lemma SinceStartKept(start: Option<Table>, t: Table, startMs: int, c: Commit)
    requires SinceStart(start, t, startMs)
    requires Legal(t, c) && c.timestampMs > startMs
    ensures SinceStart(start, Apply(t, c), startMs)
  {
    ApplyWellFormed(t, c);
    match c.change
    case Append(id, _) => AsOfLater(t.log, LogEntry(c.timestampMs, id), startMs);
    case Rollback(id) => AsOfLater(t.log, LogEntry(c.timestampMs, id), startMs);
    case Expire(ids) =>
      if AsOf(Apply(t, c).log, startMs).Some? {
        SinceStartExpiry(start, t, startMs, c);
      }
    case _ =>
  }

  lemma SinceStartInitially(t: Table, startMs: int)
    requires WellFormed(t) && t.lastUpdatedMs <= startMs
    ensures SinceStart(Some(t), t, startMs)
    ensures AsOf(t.log, startMs) == t.current
  {
  }

  lemma ResolveIsolated(start: Option<Table>, t: Table, startMs: int)
    requires SinceStart(start, t, startMs)
    ensures ResolveScanInfo(t, startMs).Ok? ==> Isolated(start, ResolveScanInfo(t, startMs).value)
    ensures ResolveScanInfo(t, startMs).Threw? ==> ResolveScanInfo(t, startMs).error == Unreachable
  {
  }

  // ----- Whole histories -----

  function After(t: Table, history: seq<Commit>): Table {
    if history == [] then t else Apply(After(t, history[..|history| - 1]), history[|history| - 1])
  }

  predicate LegalHistory(t: Table, history: seq<Commit>, startMs: int) {
    history != [] ==>
      && LegalHistory(t, history[..|history| - 1], startMs)
      && Legal(After(t, history[..|history| - 1]), history[|history| - 1])
      && history[|history| - 1].timestampMs > startMs
  }

  lemma {:induction false} HistorySinceStart(t: Table, history: seq<Commit>, startMs: int)
    requires WellFormed(t) && t.lastUpdatedMs <= startMs
    requires LegalHistory(t, history, startMs)
    ensures SinceStart(Some(t), After(t, history), startMs)
  {
    if history == [] {
      SinceStartInitially(t, startMs);
    } else {
      HistorySinceStart(t, history[..|history| - 1], startMs);
      SinceStartKept(Some(t), After(t, history[..|history| - 1]), startMs, history[|history| - 1]);
    }
  }

  /** Snapshot isolation: whatever is committed after the start, a transaction reads exactly the snapshot that was
      current at its start or throws; only a table left without snapshots is read in a later state. */
  lemma SnapshotIsolation(t: Table, history: seq<Commit>, startMs: int)
    requires WellFormed(t) && t.lastUpdatedMs <= startMs
    requires LegalHistory(t, history, startMs)
    ensures match ResolveScanInfo(After(t, history), startMs)
            case Ok(info) => Isolated(Some(t), info)
            case Threw(error) => error == Unreachable
  {
    HistorySinceStart(t, history, startMs);
    ResolveIsolated(Some(t), After(t, history), startMs);
  }

  // ----- When the start is still reachable -----

  /** The snapshots made current since the start, with the one that was current then. */
  function CurrentSince(id: int, history: seq<Commit>): set<int> {
    if history == [] then {id}
    else
      var before := CurrentSince(id, history[..|history| - 1]);
      match history[|history| - 1].change
      case Append(added, _) => before + {added}
      case Rollback(restored) => before + {restored}
      case _ => before
  }

  predicate Meet(a: set<int>, b: set<int>) {
    exists x | x in a :: x in b
  }

  /** No commit recreates the table or expires a snapshot that has been current at or after the start. */
  predicate StartRetained(id: int, history: seq<Commit>) {
    history != [] ==>
      && StartRetained(id, history[..|history| - 1])
      && (match history[|history| - 1].change
          case Recreate(_, _) => false
          case Expire(ids) => !Meet(ids, CurrentSince(id, history[..|history| - 1]))
          case _ => true)
  }

  /** The log from its entry for the start onwards names exactly the snapshots current since. */
  predicate LogFrom(log: seq<LogEntry>, k: nat, id: int, since: set<int>, startMs: int) {
    && k < |log|
    && log[k].snapshotId == id && log[k].timestampMs <= startMs
    && (forall i | k < i < |log| :: log[i].timestampMs > startMs)
    && (forall i | k <= i < |log| :: log[i].snapshotId in since)
    && (forall s | s in since :: exists i | k <= i < |log| :: log[i].snapshotId == s)
  }

  /** No entry is left from the start or before. */
  predicate LogAfterStart(log: seq<LogEntry>, startMs: int) {
    forall i | 0 <= i < |log| :: log[i].timestampMs > startMs
  }

  lemma {:induction false} AsOfFrom(log: seq<LogEntry>, k: nat, timeMs: int)
    requires k < |log| && log[k].timestampMs <= timeMs
    requires forall i | k < i < |log| :: log[i].timestampMs > timeMs
    ensures AsOf(log, timeMs) == Some(log[k].snapshotId)
  {
    if k < |log| - 1 {
      AsOfFrom(log[..|log| - 1], k, timeMs);
    }
  }

  lemma {:induction false} AsOfNone(log: seq<LogEntry>, timeMs: int)
    requires forall i | 0 <= i < |log| :: log[i].timestampMs > timeMs
    ensures AsOf(log, timeMs) == None
  {
    if log != [] {
      AsOfNone(log[..|log| - 1], timeMs);
    }
  }

  lemma LogGrows(log: seq<LogEntry>, k: nat, id: int, since: set<int>, startMs: int, added: LogEntry)
    requires LogFrom(log, k, id, since, startMs)
    requires added.timestampMs > startMs
    ensures LogFrom(log + [added], k, id, since + {added.snapshotId}, startMs)
  {
    var grown := log + [added];
    assert grown[|log|] == added;
    forall s | s in since + {added.snapshotId} ensures exists i | k <= i < |grown| :: grown[i].snapshotId == s {
      if s in since {
        var i :| k <= i < |log| && log[i].snapshotId == s;
        assert grown[i].snapshotId == s;
      }
    }
  }

  lemma CutKeepsStart(log: seq<LogEntry>, live: set<int>, dropped: nat, suffix: seq<LogEntry>, k: nat, id: int,
                      since: set<int>, startMs: int)
    requires LogFrom(log, k, id, since, startMs)
    requires CutAt(log, live, dropped, suffix)
    requires since <= live
    ensures dropped <= k && LogFrom(suffix, k - dropped, id, since, startMs)
  {
    forall s | s in since ensures exists i | k - dropped <= i < |suffix| :: suffix[i].snapshotId == s {
      var i :| k <= i < |log| && log[i].snapshotId == s;
      assert suffix[i - dropped].snapshotId == s;
    }
  }

  lemma CutLosesStart(log: seq<LogEntry>, live: set<int>, dropped: nat, suffix: seq<LogEntry>, k: nat, id: int,
                      since: set<int>, startMs: int, s: int)
    requires LogFrom(log, k, id, since, startMs)
    requires CutAt(log, live, dropped, suffix)
    requires s in since && s !in live
    ensures LogAfterStart(suffix, startMs)
  {
    var i :| k <= i < |log| && log[i].snapshotId == s;
    forall j | dropped <= j < |log| ensures log[j].snapshotId in live {
      assert suffix[j - dropped] == log[j];
    }
    assert i < dropped;
  }

  lemma LogStaysLost(t: Table, startMs: int, c: Commit)
    requires LogAfterStart(t.log, startMs)
    requires c.timestampMs > startMs
    ensures LogAfterStart(Apply(t, c).log, startMs)
  {
    if c.change.Expire? {
      var _ := LiveSuffixCut(t.log, t.snapshots.Keys - c.change.snapshotIds);
    }
  }

  lemma LogAfterExpiry(t: Table, k: nat, id: int, since: set<int>, startMs: int, ids: set<int>) returns (k': nat)
    requires WellFormed(t) && LogFrom(t.log, k, id, since, startMs)
    ensures var log := LiveSuffix(t.log, t.snapshots.Keys - ids);
            if Meet(ids, since) then LogAfterStart(log, startMs) else LogFrom(log, k', id, since, startMs)
  {
    var live := t.snapshots.Keys - ids;
    var suffix := LiveSuffix(t.log, live);
    var dropped := LiveSuffixCut(t.log, live);
    k' := k;
    if Meet(ids, since) {
      var expired :| expired in ids && expired in since;
      CutLosesStart(t.log, live, dropped, suffix, k, id, since, startMs, expired);
    } else {
      SinceIsLive(t, k, id, since, startMs);
      forall s | s in since ensures s in live {
        assert s in ids ==> Meet(ids, since);
      }
      CutKeepsStart(t.log, live, dropped, suffix, k, id, since, startMs);
      k' := k - dropped;
    }
  }

  /** One commit on a table whose log still holds the start's entry. */
  lemma LogAfterCommit(t: Table, k: nat, id: int, since: set<int>, startMs: int, c: Commit) returns (k': nat)
    requires WellFormed(t) && Legal(t, c) && c.timestampMs > startMs
    requires LogFrom(t.log, k, id, since, startMs)
    ensures match c.change
            case Append(added, _) => LogFrom(Apply(t, c).log, k', id, since + {added}, startMs)
            case Rollback(added) => LogFrom(Apply(t, c).log, k', id, since + {added}, startMs)
            case Expire(ids) =>
              if Meet(ids, since) then LogAfterStart(Apply(t, c).log, startMs)
              else LogFrom(Apply(t, c).log, k', id, since, startMs)
            case Recreate(_, _) => LogAfterStart(Apply(t, c).log, startMs)
            case _ => LogFrom(Apply(t, c).log, k', id, since, startMs)
  {
    k' := k;
    match c.change
    case Append(added, _) => LogGrows(t.log, k, id, since, startMs, LogEntry(c.timestampMs, added));
    case Rollback(added) => LogGrows(t.log, k, id, since, startMs, LogEntry(c.timestampMs, added));
    case Expire(ids) => k' := LogAfterExpiry(t, k, id, since, startMs, ids);
    case _ =>
  }

  lemma SinceIsLive(t: Table, k: nat, id: int, since: set<int>, startMs: int)
    requires WellFormed(t)
    requires LogFrom(t.log, k, id, since, startMs)
    ensures since <= t.snapshots.Keys
  {
    forall s | s in since ensures s in t.snapshots {
      var i :| k <= i < |t.log| && t.log[i].snapshotId == s;
    }
  }

  /** The log still holds the start's entry exactly when the history retained it. */
  lemma {:induction false} LogAfterHistory(t: Table, history: seq<Commit>, startMs: int) returns (k: nat)
    requires WellFormed(t) && t.current.Some? && t.lastUpdatedMs <= startMs
    requires LegalHistory(t, history, startMs)
    ensures WellFormed(After(t, history))
    ensures if StartRetained(t.current.value, history)
            then LogFrom(After(t, history).log, k, t.current.value, CurrentSince(t.current.value, history), startMs)
            else LogAfterStart(After(t, history).log, startMs)
  {
    var id := t.current.value;
    if history == [] {
      k := |t.log| - 1;
      assert t.log[k].snapshotId == id;
    } else {
      var earlier, c := history[..|history| - 1], history[|history| - 1];
      var before := After(t, earlier);
      k := LogAfterHistory(t, earlier, startMs);
      ApplyWellFormed(before, c);
      if StartRetained(id, earlier) {
        k := LogAfterCommit(before, k, id, CurrentSince(id, earlier), startMs, c);
      } else {
        LogStaysLost(before, startMs, c);
      }
    }
  }

  /** Whether what was current at the start can still be found: nothing was committed since, or something was current
      and the history retained it. */
  predicate Reaches(t: Table, history: seq<Commit>) {
    history == [] || (t.current.Some? && StartRetained(t.current.value, history))
  }

  /** Exactly what a transaction reads, for every table and every history since its start. A table without snapshots, or
      without commits, is read as it is; otherwise the start's snapshot is read if the history retained it, and the read
      throws if not - which includes every history that expired a later snapshot, even when the start's own snapshot is
      still live. */
  lemma ResolvesExactly(t: Table, history: seq<Commit>, startMs: int)
    requires WellFormed(t) && t.lastUpdatedMs <= startMs
    requires LegalHistory(t, history, startMs)
    ensures var now := After(t, history);
            && (t.current.Some? ==> t.current.value in t.snapshots)
            && ResolveScanInfo(now, startMs) ==
               if now.snapshots == map[] || history == [] then Ok(ScanInfo(now, CurrentRead, now.schema))
               else if Reaches(t, history)
               then Ok(ScanInfo(now, PinnedRead(t.current.value), t.snapshots[t.current.value].schema))
               else Threw(Unreachable)
  {
    var now := After(t, history);
    HistorySinceStart(t, history, startMs);
    if history != [] {
      assert now.lastUpdatedMs == history[|history| - 1].timestampMs;
      if t.current.Some? {
        var k := LogAfterHistory(t, history, startMs);
        if StartRetained(t.current.value, history) {
          AsOfFrom(now.log, k, startMs);
        } else {
          AsOfNone(now.log, startMs);
        }
      }
    }
  }

  /** A table's current snapshot, by id and content. */
  function CurrentSnapshot(t: Table): Option<(int, Snapshot)> {
    match t.current
    case Some(id) => if id in t.snapshots then Some((id, t.snapshots[id])) else None
    case None => None
  }

  function SnapshotDelivered(info: ScanInfo): Option<(int, Snapshot)> {
    match SnapshotRead(info)
    case Some(id) => if id in info.table.snapshots then Some((id, info.table.snapshots[id])) else None
    case None => None
  }

  /** Whether a read succeeds and delivers another snapshot than the given one, or another content under its id. */
  predicate DeliversOther(read: Result<ScanInfo, ResolveError>, wanted: Option<(int, Snapshot)>) {
    read.Ok? && SnapshotDelivered(read.value) != wanted
  }

  lemma NoSnapshotIsCurrent(t: Table)
    requires WellFormed(t) && t.snapshots == map[]
    ensures t.current.None?
  {
    assert forall i | 0 <= i < |t.log| :: t.log[i].snapshotId in t.snapshots;
  }

  /** A read that succeeds delivers the start's snapshot, unless the table is left without any. */
  lemma DeliversTheStarts(t: Table, history: seq<Commit>, startMs: int)
    requires WellFormed(t) && t.lastUpdatedMs <= startMs
    requires LegalHistory(t, history, startMs)
    ensures var now := After(t, history);
            ResolveScanInfo(now, startMs).Ok? ==>
              SnapshotDelivered(ResolveScanInfo(now, startMs).value) ==
              if now.snapshots == map[] then None else CurrentSnapshot(t)
  {
    SnapshotIsolation(t, history, startMs);
  }

  /** The promise - the start's snapshot, or an exception - fails exactly for a table that had a snapshot at the start
      and is left without any. */
  lemma IsolationFailsExactly(t: Table, history: seq<Commit>, startMs: int)
    requires WellFormed(t) && t.lastUpdatedMs <= startMs
    requires LegalHistory(t, history, startMs)
    ensures DeliversOther(ResolveScanInfo(After(t, history), startMs), CurrentSnapshot(t)) <==>
            t.current.Some? && After(t, history).snapshots == map[]
  {
    ResolvesExactly(t, history, startMs);
    DeliversTheStarts(t, history, startMs);
  }

  // ----- The start's own millisecond -----

  /** A commit at its exact time; metadata keeps the millisecond, rounded as the start is. */
  datatype TimedCommit = TimedCommit(micros: int, change: Change)

  function Stamped(history: seq<TimedCommit>): seq<Commit> {
    seq(|history|, i requires 0 <= i < |history| =>
      Commit(StartTimestampMs(history[i].micros), history[i].change))
  }

  predicate LegalCommits(t: Table, history: seq<Commit>) {
    history != [] ==>
      && LegalCommits(t, history[..|history| - 1])
      && Legal(After(t, history[..|history| - 1]), history[|history| - 1])
  }

  /** How many commits there are up to the last one stamped no later than the start. */
  function StampedByStart(history: seq<Commit>, startMs: int): (n: nat)
    ensures n <= |history|
    ensures forall i | n <= i < |history| :: history[i].timestampMs > startMs
  {
    if history == [] then 0
    else if history[|history| - 1].timestampMs <= startMs then |history|
    else StampedByStart(history[..|history| - 1], startMs)
  }

  lemma {:induction false} AfterSplits(t: Table, first: seq<Commit>, later: seq<Commit>, startMs: int)
    requires LegalCommits(t, first + later)
    requires forall i | 0 <= i < |later| :: later[i].timestampMs > startMs
    ensures LegalCommits(t, first)
    ensures LegalHistory(After(t, first), later, startMs)
    ensures After(After(t, first), later) == After(t, first + later)
    decreases |later|
  {
    if later == [] {
      assert first + later == first;
    } else {
      var n := |later| - 1;
      var all := first + later;
      assert all[..|all| - 1] == first + later[..n] && all[|all| - 1] == later[n];
      AfterSplits(t, first, later[..n], startMs);
    }
  }

  lemma {:induction false} CommitsKeepWellFormed(t: Table, history: seq<Commit>)
    requires WellFormed(t) && LegalCommits(t, history)
    ensures WellFormed(After(t, history))
    ensures history != [] ==> After(t, history).lastUpdatedMs == history[|history| - 1].timestampMs
  {
    if history != [] {
      CommitsKeepWellFormed(t, history[..|history| - 1]);
      ApplyWellFormed(After(t, history[..|history| - 1]), history[|history| - 1]);
    }
  }

  lemma {:induction false} StampsAscend(t: Table, history: seq<Commit>, i: nat, j: nat)
    requires LegalCommits(t, history) && i <= j < |history|
    ensures history[i].timestampMs <= history[j].timestampMs
    decreases |history|, j
  {
    var n := |history| - 1;
    if j < n {
      StampsAscend(t, history[..n], i, j);
    } else if i < n {
      StampsAscend(t, history[..n], i, n - 1);
      assert After(t, history[..n]).lastUpdatedMs == history[..n][n - 1].timestampMs;
    }
  }

  lemma FirstStampedByStart(t: Table, commits: seq<Commit>, first: seq<Commit>, startMs: int)
    requires WellFormed(t) && t.lastUpdatedMs <= startMs
    requires LegalCommits(t, first)
    requires first == commits[..StampedByStart(commits, startMs)]
    ensures WellFormed(After(t, first)) && After(t, first).lastUpdatedMs <= startMs
    ensures first != [] ==> first[|first| - 1].timestampMs <= startMs
  {
    CommitsKeepWellFormed(t, first);
    LastStampedByStart(commits, startMs);
  }

  /** The commits stamped by the start leave a table, which the later ones change: what the transaction takes for its
      start is that table. */
  lemma CommitsSplitAtStart(t: Table, commits: seq<Commit>, startMs: int)
    requires WellFormed(t) && t.lastUpdatedMs <= startMs
    requires LegalCommits(t, commits)
    ensures var n := StampedByStart(commits, startMs);
            && LegalCommits(t, commits[..n])
            && WellFormed(After(t, commits[..n])) && After(t, commits[..n]).lastUpdatedMs <= startMs
            && LegalHistory(After(t, commits[..n]), commits[n..], startMs)
            && After(After(t, commits[..n]), commits[n..]) == After(t, commits)
  {
    var n := StampedByStart(commits, startMs);
    assert commits == commits[..n] + commits[n..];
    AfterSplits(t, commits[..n], commits[n..], startMs);
    FirstStampedByStart(t, commits, commits[..n], startMs);
  }

  /** Those that are, and come after the start, are stamped with its very millisecond. */
  lemma FirstAreOfStartMillisecond(t: Table, history: seq<TimedCommit>, startMicros: int, i: nat)
    requires LegalCommits(t, Stamped(history))
    requires forall i | 0 <= i < |history| :: history[i].micros > startMicros
    requires i < StampedByStart(Stamped(history), StartTimestampMs(startMicros))
    ensures Stamped(history)[i].timestampMs == StartTimestampMs(startMicros)
  {
    var startMs, commits := StartTimestampMs(startMicros), Stamped(history);
    LastStampedByStart(commits, startMs);
    StampsAscend(t, commits, i, StampedByStart(commits, startMs) - 1);
  }

  lemma {:induction false} LastStampedByStart(history: seq<Commit>, startMs: int)
    ensures var n := StampedByStart(history, startMs);
            n > 0 ==> history[n - 1].timestampMs <= startMs
  {
    if history != [] && history[|history| - 1].timestampMs > startMs {
      LastStampedByStart(history[..|history| - 1], startMs);
    }
  }

  /** Isolation has the grain of a millisecond: whatever is committed after the start, a transaction reads the snapshot
      current after the commits of the start's own millisecond, or throws. */
  lemma IsolationIsPerMillisecond(t: Table, history: seq<TimedCommit>, startMicros: int)
    requires WellFormed(t) && t.lastUpdatedMs <= StartTimestampMs(startMicros)
    requires LegalCommits(t, Stamped(history))
    requires forall i | 0 <= i < |history| :: history[i].micros > startMicros
    ensures var startMs, commits := StartTimestampMs(startMicros), Stamped(history);
            var n := StampedByStart(commits, startMs);
            && (forall i | 0 <= i < n :: commits[i].timestampMs == startMs)
            && match ResolveScanInfo(After(t, commits), startMs)
               case Ok(info) => Isolated(Some(After(t, commits[..n])), info)
               case Threw(error) => error == Unreachable
  {
    var startMs, commits := StartTimestampMs(startMicros), Stamped(history);
    var n := StampedByStart(commits, startMs);
    forall i | 0 <= i < n ensures commits[i].timestampMs == startMs {
      FirstAreOfStartMillisecond(t, history, startMicros, i);
    }
    CommitsSplitAtStart(t, commits, startMs);
    SnapshotIsolation(After(t, commits[..n]), commits[n..], startMs);
  }

  /** Isolation to the microsecond fails exactly when the commits of the start's own millisecond change the current
      snapshot, or what its id stands for, and the later ones leave it reachable; or when no snapshots are left. */
  lemma MicrosecondIsolationFailsExactly(t: Table, history: seq<TimedCommit>, startMicros: int)
    requires WellFormed(t) && t.lastUpdatedMs <= StartTimestampMs(startMicros)
    requires LegalCommits(t, Stamped(history))
    ensures var startMs, commits := StartTimestampMs(startMicros), Stamped(history);
            var n := StampedByStart(commits, startMs);
            var shared, now := After(t, commits[..n]), After(t, commits);
            DeliversOther(ResolveScanInfo(now, startMs), CurrentSnapshot(t)) <==>
            if now.snapshots == map[] then CurrentSnapshot(t).Some?
            else CurrentSnapshot(shared) != CurrentSnapshot(t) && Reaches(shared, commits[n..])
  {
    var startMs, commits := StartTimestampMs(startMicros), Stamped(history);
    var n := StampedByStart(commits, startMs);
    CommitsSplitAtStart(t, commits, startMs);
    ResolvesExactly(After(t, commits[..n]), commits[n..], startMs);
    DeliversTheStarts(After(t, commits[..n]), commits[n..], startMs);
  }

  // ----- Tables and histories on which the promise fails -----

  function OneSnapshot(uuid: nat, schema: Schema): Table {
    Apply(EmptyTable(uuid, 5, schema), Commit(10, Append(1, [])))
  }

  /** A table dropped and created again after the start is read as the new, empty one. */
  lemma RecreatedTableEscapes(schema: Schema)
    ensures var t, history := OneSnapshot(7, schema), [Commit(30, Recreate(8, schema))];
            && WellFormed(t) && t.current == Some(1) && LegalHistory(t, history, 20)
            && ResolveScanInfo(After(t, history), 20) == Ok(ScanInfo(EmptyTable(8, 30, schema), CurrentRead, schema))
  {
  }

  /** A table whose every snapshot is removed after the start is read as it is now, without rows. */
  lemma EmptiedTableEscapes(schema: Schema)
    ensures var t, history := OneSnapshot(7, schema), [Commit(30, Expire({1}))];
            && WellFormed(t) && t.current == Some(1) && LegalHistory(t, history, 20)
            && ResolveScanInfo(After(t, history), 20) == Ok(ScanInfo(After(t, history), CurrentRead, schema))
            && SnapshotRead(ScanInfo(After(t, history), CurrentRead, schema)) == None
  {
    var t, history := OneSnapshot(7, schema), [Commit(30, Expire({1}))];
    assert history[..0] == [];
    assert After(t, history) == Apply(t, history[0]);
    assert After(t, history).snapshots == map[];
  }

  /** A commit at 20900 microseconds is read by a transaction that started at 20100. */
  lemma SameMillisecondIsRead(schema: Schema)
    ensures var t, history := OneSnapshot(7, schema), [TimedCommit(20900, Append(2, []))];
            var read := ResolveScanInfo(After(t, Stamped(history)), StartTimestampMs(20100));
            && WellFormed(t) && t.current == Some(1) && LegalCommits(t, Stamped(history))
            && read.Ok? && SnapshotRead(read.value) == Some(2)
  {
    var t, commits := OneSnapshot(7, schema), Stamped([TimedCommit(20900, Append(2, []))]);
    assert commits == [Commit(20, Append(2, []))];
    assert commits[..0] == [];
    assert After(t, commits) == Apply(t, commits[0]);
  }

  /** Expiring a later snapshot makes the start unreachable, though the start's own snapshot 1 is live. */
  lemma ExpiringLaterSnapshotThrows(schema: Schema)
    ensures var t := OneSnapshot(7, schema);
            var history := [Commit(30, Append(2, [])), Commit(40, Append(3, [])), Commit(50, Expire({2}))];
            && WellFormed(t) && t.current == Some(1) && LegalHistory(t, history, 20)
            && 1 in After(t, history).snapshots
            && ResolveScanInfo(After(t, history), 20) == Threw(Unreachable)
  {
    var t := OneSnapshot(7, schema);
    var history := [Commit(30, Append(2, [])), Commit(40, Append(3, [])), Commit(50, Expire({2}))];
    var h1, h2 := [history[0]], [history[0], history[1]];
    assert h1[..0] == [] && h2[..1] == h1 && history[..2] == h2;
    var t1 := Apply(t, history[0]);
    assert After(t, h1) == t1 && LegalHistory(t, h1, 20);
    assert After(t, h2) == Apply(t1, history[1]) && LegalHistory(t, h2, 20);
    assert 2 in CurrentSince(1, h2);
    assert Meet({2}, CurrentSince(1, h2));
    ResolvesExactly(t, history, 20);
  }
}
