/** What a scan of the schemas visits, while other threads look up, load and list, and find schemas missing. */
module SchemaScans {
  import opened Wrappers
  import opened Text
  import opened SchemaCache
  import opened Interleaving
  import opened TransactionTheorems

  /** The schemas a thread's scan has yet to go past, if it is in one. */
  function Todo(pc: Pc): Option<seq<string>> {
    if pc.VisitingSchemas? then Some(pc.todo)
    else if CallbackOf(pc).Some? then Some(CallbackOf(pc).value.todo)
    else None
  }

  /** The names a thread's last scan went past, those it visited or those it did not. */
  function NamesPast(trail: seq<ScanEvent>, i: nat, visited: bool): seq<string> {
    if trail == [] then []
    else
      var before := NamesPast(trail[..|trail| - 1], i, visited);
      match trail[|trail| - 1]
      case ScanBegan(j) => if j == i then [] else before
      case WentPast(j, name, v) => if j == i && v == visited then before + [name] else before
      case ScanEnded(_) => before
  }

  predicate StrictlyAscending(names: seq<string>) {
    forall j, k | 0 <= j < k < |names| :: names[j] != names[k] && LexLe(names[j], names[k])
  }

  /** A scan that has visited some schemas, passed over others and has the rest to do: it visits in order, visits only
      listed schemas, passes over only missing ones, and leaves out none. */
  predicate ScanOk(d: Data, visited: seq<string>, passedOver: seq<string>, todo: seq<string>) {
    && d.rootListing.Some?
    && StrictlyAscending(visited + todo)
    && (forall name | name in visited :: name in d.rootListing.value)
    && (forall name | name in passedOver :: IsMissing(d, name) && name !in visited && name !in todo)
    && (forall name | name in todo :: name in d.schemas.missing)
    && (forall name | name in d.schemas.missing :: name in visited || name in passedOver || name in todo)
  }

  predicate ThreadScanOk(d: Data, trail: seq<ScanEvent>, i: nat, todo: seq<string>) {
    ScanOk(d, NamesPast(trail, i, true), NamesPast(trail, i, false), todo)
  }

  predicate EndsOk(d: Data, trail: seq<ScanEvent>) {
    forall k | 0 <= k < |trail| && trail[k].ScanEnded? :: ThreadScanOk(d, trail[..k], trail[k].thread, [])
  }

  /** What holds of every scan under way, and of every one that has ended. */
  predicate TrailOk(g: State) {
    && (forall i | 0 <= i < |g.threads| && Todo(g.threads[i]).Some? ::
          ThreadScanOk(g.data, g.trail, i, Todo(g.threads[i]).value))
    && EndsOk(g.data, g.trail)
  }

  lemma ScanOkStays(d: Data, d': Data, visited: seq<string>, passedOver: seq<string>, todo: seq<string>)
    requires ScanOk(d, visited, passedOver, todo)
    requires WorldOk(d.schemas, d.rootListing) && Extends(d, d')
    ensures ScanOk(d', visited, passedOver, todo)
  {
  }

  lemma ScanBeginsOk(d: Data)
    requires WorldOk(d.schemas, d.rootListing) && d.schemas.listed
    ensures ScanOk(d, [], [], KnownSchemas(d))
  {
    assert [] + KnownSchemas(d) == KnownSchemas(d);
  }

  lemma DropKeepsAscending(names: seq<string>, n: nat)
    requires StrictlyAscending(names) && n < |names|
    ensures StrictlyAscending(names[..n] + names[n + 1..])
  {
    var rest := names[..n] + names[n + 1..];
    forall j, k | 0 <= j < k < |rest| ensures rest[j] != rest[k] && LexLe(rest[j], rest[k]) {
      assert rest[j] == names[if j < n then j else j + 1];
      assert rest[k] == names[if k < n then k else k + 1];
    }
  }

  lemma AscendingOnce(names: seq<string>, n: nat)
    requires StrictlyAscending(names) && n < |names|
    ensures names[n] !in names[..n] && names[n] !in names[n + 1..]
  {
  }

  lemma NextIsLeast(visited: seq<string>, name: string, rest: seq<string>)
    requires StrictlyAscending(visited + ([name] + rest))
    ensures name !in visited && name !in rest
    ensures StrictlyAscending(visited + rest)
    ensures StrictlyAscending(visited + [name] + rest)
  {
    var all, n := visited + ([name] + rest), |visited|;
    assert all[..n] == visited && all[n] == name && all[n + 1..] == rest;
    DropKeepsAscending(all, n);
    AscendingOnce(all, n);
    assert visited + [name] + rest == all;
  }

  /** Going past the next schema: visited unless it is missing. */
  lemma ScanGoesOn(d: Data, visited: seq<string>, passedOver: seq<string>, todo: seq<string>)
    requires ScanOk(d, visited, passedOver, todo) && todo != []
    requires WorldOk(d.schemas, d.rootListing)
    ensures if IsMissing(d, todo[0]) then ScanOk(d, visited, passedOver + [todo[0]], todo[1..])
            else ScanOk(d, visited + [todo[0]], passedOver, todo[1..])
  {
    var name, rest := todo[0], todo[1..];
    assert todo == [name] + rest;
    NextIsLeast(visited, name, rest);
    if !IsMissing(d, name) {
      assert name in VisibleNames(d.schemas);
    }
  }

  // ----- What one step does to a scan -----

  /** A step of a thread begins a scan, goes past one schema, leaves its scan where it is, or is not in one after. */
  ghost predicate ScanMoves(d: Data, d': Data, pc: Pc, pc': Pc) {
    Todo(pc').Some? ==>
      || (Todo(pc).None? && pc'.VisitingSchemas? && d'.schemas.listed && pc'.todo == KnownSchemas(d'))
      || (Todo(pc') == Todo(pc) && !pc.VisitingSchemas? && (pc'.VisitingSchemas? ==> pc.InCallback?))
      || (pc.VisitingSchemas? && pc.todo != [] && d' == d && Todo(pc').value == pc.todo[1..]
          && (pc'.InCallback? <==> !IsMissing(d, pc.todo[0])))
  }

  lemma NextMovesScan(c: Config, d: Data, world: World, pc: Pc, choice: Choice)
    requires !pc.InLookupSchema? && !pc.RootReplied? && !pc.InTables? && !pc.LoadReplied? && !pc.ListReplied?
    ensures ScanMoves(d, d, pc, Next(c, d, world, pc, choice))
  {
  }

  lemma StepMovesScan(c: Config, d: Data, world: World, pc: Pc, choice: Choice)
    ensures ScanMoves(d, EffectOf(c, d, world, pc, choice).data, pc, EffectOf(c, d, world, pc, choice).pc)
  {
    match pc
    case InLookupSchema(_) =>
    case RootReplied(_) =>
    case InTables(_, _, _) =>
    case LoadReplied(_, _, _, _) => LoadReplyReturns(c, d, d, pc);
    case ListReplied(_, _, _) => ListReplyReturns(c, d, d, pc);
    case _ => NextMovesScan(c, d, world, pc, choice);
  }

  lemma NamesPastAfter(trail: seq<ScanEvent>, added: seq<ScanEvent>, i: nat)
    requires |added| <= 1
    ensures forall visited :: NamesPast(trail + added, i, visited) ==
              if added == [] then NamesPast(trail, i, visited)
              else
                match added[0]
                case ScanBegan(j) => if j == i then [] else NamesPast(trail, i, visited)
                case WentPast(j, name, v) =>
                  NamesPast(trail, i, visited) + if j == i && v == visited then [name] else []
                case ScanEnded(_) => NamesPast(trail, i, visited)
  {
    if added == [] {
      assert trail + added == trail;
    } else {
      assert (trail + added)[..|trail|] == trail;
    }
  }

  lemma ThreadScanBegins(d: Data, trail: seq<ScanEvent>, i: nat)
    requires WorldOk(d.schemas, d.rootListing) && d.schemas.listed
    ensures ThreadScanOk(d, trail + [ScanBegan(i)], i, KnownSchemas(d))
  {
    NamesPastAfter(trail, [ScanBegan(i)], i);
    ScanBeginsOk(d);
  }

  lemma ThreadScanGoesOn(d: Data, trail: seq<ScanEvent>, i: nat, todo: seq<string>)
    requires WorldOk(d.schemas, d.rootListing)
    requires ThreadScanOk(d, trail, i, todo) && todo != []
    ensures ThreadScanOk(d, trail + [WentPast(i, todo[0], !IsMissing(d, todo[0]))], i, todo[1..])
  {
    NamesPastAfter(trail, [WentPast(i, todo[0], !IsMissing(d, todo[0]))], i);
    ScanGoesOn(d, NamesPast(trail, i, true), NamesPast(trail, i, false), todo);
  }

  lemma ThreadScanStays(d: Data, d': Data, trail: seq<ScanEvent>, added: seq<ScanEvent>, i: nat, todo: seq<string>)
    requires WorldOk(d.schemas, d.rootListing) && Extends(d, d')
    requires ThreadScanOk(d, trail, i, todo)
    requires |added| <= 1 && forall k | 0 <= k < |added| :: added[k].ScanEnded? || added[k].thread != i
    ensures ThreadScanOk(d', trail + added, i, todo)
  {
    NamesPastAfter(trail, added, i);
    ScanOkStays(d, d', NamesPast(trail, i, true), NamesPast(trail, i, false), todo);
  }

  lemma ThreadScanMoves(d: Data, d': Data, trail: seq<ScanEvent>, i: nat, pc: Pc, pc': Pc)
    requires WorldOk(d.schemas, d.rootListing) && WorldOk(d'.schemas, d'.rootListing)
    requires Extends(d, d') && ScanMoves(d, d', pc, pc')
    requires Todo(pc).Some? ==> ThreadScanOk(d, trail, i, Todo(pc).value)
    requires Todo(pc').Some?
    ensures ThreadScanOk(d', trail + ScanEvents(i, pc, pc'), i, Todo(pc').value)
  {
    if Todo(pc).None? {
      ThreadScanBegins(d', trail, i);
    } else if pc.VisitingSchemas? {
      ThreadScanGoesOn(d, trail, i, pc.todo);
    } else {
      ThreadScanStays(d, d', trail, [], i, Todo(pc).value);
    }
  }

  lemma EndsStay(d: Data, d': Data, trail: seq<ScanEvent>, added: seq<ScanEvent>)
    requires WorldOk(d.schemas, d.rootListing) && Extends(d, d')
    requires EndsOk(d, trail)
    requires |added| <= 1 && (added != [] && added[0].ScanEnded? ==> ThreadScanOk(d, trail, added[0].thread, []))
    ensures EndsOk(d', trail + added)
  {
    var trail' := trail + added;
    forall k | 0 <= k < |trail'| && trail'[k].ScanEnded? ensures ThreadScanOk(d', trail'[..k], trail'[k].thread, []) {
      var before, i := trail'[..k], trail'[k].thread;
      if k < |trail| {
        assert before == trail[..k];
      } else {
        assert before == trail;
      }
      ScanOkStays(d, d', NamesPast(before, i, true), NamesPast(before, i, false), []);
    }
  }

  lemma ActKeepsTrail(c: Config, g: State, i: nat, choice: Choice)
    requires Inv(c, g) && TrailOk(g) && i < |g.threads| && !Blocked(g.threads, i)
    ensures TrailOk(Step(c, g, Act(i, choice)))
  {
    var pc := g.threads[i];
    var e := EffectOf(c, g.data, g.world, pc, choice);
    var g' := Step(c, g, Act(i, choice));
    StepEffectOk(c, g.data, g.world, pc, choice);
    var added := ScanEvents(i, pc, e.pc);
    forall j | 0 <= j < |g'.threads| && Todo(g'.threads[j]).Some?
      ensures ThreadScanOk(g'.data, g'.trail, j, Todo(g'.threads[j]).value)
    {
      if j == i {
        StepMovesScan(c, g.data, g.world, pc, choice);
        ThreadScanMoves(g.data, e.data, g.trail, i, pc, e.pc);
      } else {
        ThreadScanStays(g.data, e.data, g.trail, added, j, Todo(g.threads[j]).value);
      }
    }
    EndsStay(g.data, e.data, g.trail, added);
  }

  lemma {:induction false} RunKeepsTrail(c: Config, g: State, actions: seq<Action>)
    requires Initial(c, g)
    ensures TrailOk(Run(c, g, actions))
  {
    if actions != [] {
      var before := Run(c, g, actions[..|actions| - 1]);
      RunKeepsTrail(c, g, actions[..|actions| - 1]);
      RunKeepsInv(c, g, actions[..|actions| - 1]);
      match actions[|actions| - 1]
      case Remote(_, _) =>
      case Act(i, choice) =>
        if i < |before.threads| && !Blocked(before.threads, i) {
          ActKeepsTrail(c, before, i, choice);
        }
    }
  }

  // ----- Whole runs -----

  /** A schema is visited exactly if it was not missing when the scan went past it. */
  lemma {:induction false} VisitedUnlessMissing(c: Config, g: State, actions: seq<Action>, k: nat) returns (n: nat)
    requires Initial(c, g)
    requires k < |Run(c, g, actions).trail| && Run(c, g, actions).trail[k].WentPast?
    ensures n < |actions| && |Run(c, g, actions[..n]).trail| == k
    ensures var event, schemas := Run(c, g, actions).trail[k], Run(c, g, actions[..n]).data.schemas;
            && event.name in schemas.missing
            && (event.visited <==> Visible(schemas, event.name))
  {
    n := |actions| - 1;
    var before := Run(c, g, actions[..n]);
    if k < |before.trail| {
      assert Run(c, g, actions).trail[k] == before.trail[k];
      n := VisitedUnlessMissing(c, g, actions[..n], k);
      assert actions[..|actions| - 1][..n] == actions[..n];
    } else {
      RunKeepsTrail(c, g, actions[..n]);
      var pc := before.threads[actions[n].thread];
      StepMovesScan(c, before.data, before.world, pc, actions[n].choice);
      assert ThreadScanOk(before.data, before.trail, actions[n].thread, pc.todo);
    }
  }

  lemma {:induction false} NamesPastAreEvents(trail: seq<ScanEvent>, i: nat, visited: bool, name: string)
    requires name in NamesPast(trail, i, visited)
    ensures WentPast(i, name, visited) in trail
  {
    if trail[|trail| - 1] != WentPast(i, name, visited) {
      NamesPastAreEvents(trail[..|trail| - 1], i, visited, name);
    }
  }

  /** The closed world, as scans see it. A scan that ended visited schemas in strictly ascending order, all of them
      listed by the root, and passed over every listed schema it did not visit; what it passed over is missing ever
      after. */
  lemma SchemaScanVisitsExactly(c: Config, g: State, actions: seq<Action>, k: nat)
    requires Initial(c, g)
    requires k < |Run(c, g, actions).trail| && Run(c, g, actions).trail[k].ScanEnded?
    ensures var now := Run(c, g, actions);
            var i := now.trail[k].thread;
            var visited, passedOver := NamesPast(now.trail[..k], i, true), NamesPast(now.trail[..k], i, false);
            && now.data.rootListing.Some?
            && StrictlyAscending(visited)
            && (forall name | name in visited ::
                  name in now.data.rootListing.value && name !in passedOver
                  && WentPast(i, name, true) in now.trail[..k])
            && (forall name | name in now.data.rootListing.value && name !in visited :: name in passedOver)
            && (forall name | name in passedOver ::
                  IsMissing(now.data, name) && WentPast(i, name, false) in now.trail[..k])
  {
    var now := Run(c, g, actions);
    var i := now.trail[k].thread;
    var visited, passedOver := NamesPast(now.trail[..k], i, true), NamesPast(now.trail[..k], i, false);
    RunKeepsTrail(c, g, actions);
    RunKeepsInv(c, g, actions);
    assert ThreadScanOk(now.data, now.trail[..k], i, []);
    assert visited + [] == visited;
    forall name | name in visited ensures WentPast(i, name, true) in now.trail[..k] {
      NamesPastAreEvents(now.trail[..k], i, true, name);
    }
    forall name | name in passedOver ensures WentPast(i, name, false) in now.trail[..k] {
      NamesPastAreEvents(now.trail[..k], i, false, name);
    }
  }
}
