/**
 Every run of a single server over its durable rows: launches, chunk respawns, engines finishing under
 their reader threads, crashes, boots with the reaper, watcher polls, and an environment in which
 processes, files and the clock change freely between steps.
 */
module RecoveryRuns {
  import opened Wrappers
  import opened ScanStore
  import opened Recovery

  /** `readers` are the runs whose launching server is still alive and reading their output. */
  datatype Server = Down | Up(readers: set<RunId>, watches: set<Watch>)

  datatype World = World(rows: Rows, machine: Machine, server: Server)

  datatype Event =
    | Launch(id: RunId, user: int, job: Job, pid: Option<int>, argv: Option<seq<string>>, timeout: int,
        report: string)
    | Respawn(id: RunId, pid: Option<int>, argv: Option<seq<string>>)
    | ReaderEnds(id: RunId, status: Status, error: string, nodes: nat, edges: nat)
    | Tick(watch: Watch)
    | Crash
    | Boot
    | Environment(machine: Machine)

  const START := World(map[], Machine(map[], map[], 0), Down)

  /** Run ids are fresh at launch; only a live server's own threads write. */
  predicate Enabled(w: World, e: Event) {
    match e
    case Launch(id, _, _, _, _, _, _) => w.server.Up? && id !in w.rows
    case Respawn(id, _, _) => w.server.Up? && id in w.server.readers
    case ReaderEnds(id, status, _, _, _) => w.server.Up? && id in w.server.readers && status != Running
    case Tick(watch) => w.server.Up? && watch in w.server.watches
    case Crash => w.server.Up?
    case Boot => w.server.Down?
    case Environment(m) => w.machine.now <= m.now
  }

  /** One step; an event that is not enabled changes nothing. */
  function Next(w: World, e: Event): World {
    if !Enabled(w, e) then w
    else
      match e
      case Launch(id, user, job, pid, argv, timeout, report) =>
        var row := Started(BLANK, user, job, pid, argv, Deadline(w.machine.now, timeout), report);
        w.(rows := w.rows[id := row], server := w.server.(readers := w.server.readers + {id}))
      case Respawn(id, pid, argv) =>
        if id in w.rows then w.(rows := w.rows[id := w.rows[id].(pid := pid, argv := Stored(argv))]) else w
      case ReaderEnds(id, status, error, nodes, edges) =>
        var server := w.server.(readers := w.server.readers - {id});
        if id in w.rows then
          var row := w.rows[id].(status := status, finished := Some(w.machine.now), error := error,
                                 nodes := nodes, edges := edges);
          w.(rows := w.rows[id := row], server := server)
        else w.(server := server)
      case Tick(watch) =>
        (match Poll(w.machine, w.rows, watch)
         case None => w
         case Some(rows) => w.(rows := rows, server := w.server.(watches := w.server.watches - {watch})))
      case Crash => w.(server := Down)
      case Boot => w.(rows := ReapRows(w.machine.now, Same(w.machine), w.rows),
            server := Up({}, Watches(w.machine.now, Same(w.machine), w.rows)))
      case Environment(m) => w.(machine := m)
  }

  function Run(es: seq<Event>): World {
    if es == [] then START else Next(Run(es[..|es| - 1]), es[|es| - 1])
  }

  predicate Watched(w: World, id: RunId)
    requires w.server.Up?
  {
    id in w.rows && w.rows[id].pid != None && WatchOf(w.rows, id) in w.server.watches
  }

  /** A live server accounts for every running row exactly once, by a reader or by a watcher on its pid. */
  predicate Accounted(w: World) {
    w.server.Up? ==>
      && (forall id :: id in w.server.readers ==> id in w.rows && w.rows[id].status == Running && !Watched(w, id))
      && (forall v :: v in w.server.watches ==>
            v.run in w.rows && w.rows[v.run].status == Running && w.rows[v.run].pid != None &&
                  v == WatchOf(w.rows, v.run))
      && (forall id :: id in w.rows && w.rows[id].status == Running ==> id in w.server.readers || Watched(w, id))
  }

  lemma BootAccounts(w: World)
    ensures Accounted(w.(rows := ReapRows(w.machine.now, Same(w.machine), w.rows),
          server := Up({}, Watches(w.machine.now, Same(w.machine), w.rows))))
  {
    var w' := w.(rows := ReapRows(w.machine.now, Same(w.machine), w.rows),
          server := Up({}, Watches(w.machine.now, Same(w.machine), w.rows)));
    forall id | id in w'.rows && w'.rows[id].status == Running ensures Watched(w', id) {
      ReapIsSafe(w.machine.now, Same(w.machine), w.rows, id);
    }
    forall v | v in w'.server.watches
      ensures v.run in w'.rows && w'.rows[v.run] == w.rows[v.run] && w.rows[v.run].status == Running
      ensures w.rows[v.run].pid != None && v == WatchOf(w.rows, v.run)
    {
      assert v.run in With(w.machine.now, Same(w.machine), w.rows, Attach);
      assert v.run in Decisions(w.machine.now, Same(w.machine), w.rows);
    }
  }

  // An event that rewrites one row, accounted for before, leaves the other rows accounted for.
  lemma StepAccounts(w: World, e: Event)
    requires Accounted(w) && Enabled(w, e)
    ensures Accounted(Next(w, e))
  {
    var w' := Next(w, e);
    match e {
      case Boot => BootAccounts(w);
      case Tick(watch) =>
        if Poll(w.machine, w.rows, watch) != None {
          TickAccounts(w, watch);
        }
      case Launch(id, _, _, _, _, _, _) =>
        assert forall k :: k in w.rows ==> k != id && w'.rows[k] == w.rows[k];
      case Respawn(id, _, _) => OthersKeep(w, w', id);
      case ReaderEnds(id, _, _, _, _) => OthersKeep(w, w', id);
      case Crash =>
      case Environment(_) =>
    }
  }

  lemma OthersKeep(w: World, w': World, id: RunId)
    requires Accounted(w) && w.server.Up? && id in w.server.readers
    requires w'.server.Up? && w'.server.watches == w.server.watches
    requires w'.rows.Keys == w.rows.Keys && forall k :: k in w.rows && k != id ==> w'.rows[k] == w.rows[k]
    ensures forall v :: v in w.server.watches ==> v.run != id && w'.rows[v.run] == w.rows[v.run]
    ensures forall k :: k in w.rows && k != id ==> Watched(w', k) == Watched(w, k)
    ensures !Watched(w', id)
  {
    forall v | v in w.server.watches ensures v.run != id {
      assert Watched(w, v.run);
    }
  }

  lemma TickAccounts(w: World, watch: Watch)
    requires Accounted(w) && Enabled(w, Tick(watch)) && Poll(w.machine, w.rows, watch) != None
    ensures Accounted(Next(w, Tick(watch)))
    ensures var rows := Next(w, Tick(watch)).rows;
            && rows.Keys == w.rows.Keys
            && (forall k :: k in rows && k != watch.run ==> rows[k] == w.rows[k])
            && rows[watch.run].status != Running
  {
    var w' := Next(w, Tick(watch));
    assert w.rows[watch.run].status == Running && watch == WatchOf(w.rows, watch.run);
    assert forall k :: k in w.rows && k != watch.run ==> w'.rows[k] == w.rows[k];
    forall v | v in w'.server.watches ensures v.run != watch.run {
      assert v == WatchOf(w.rows, v.run);
    }
    forall id | id in w.rows && id != watch.run ensures Watched(w', id) == Watched(w, id) {
      if Watched(w, id) {
        assert WatchOf(w.rows, id).run == id;
      }
    }
    assert Watched(w, watch.run);
  }

  /** Over every run, a server that is up accounts for every running row exactly once. */
  lemma {:induction false} AlwaysAccounted(es: seq<Event>)
    ensures Accounted(Run(es))
  {
    if es != [] {
      var w, e := Run(es[..|es| - 1]), es[|es| - 1];
      AlwaysAccounted(es[..|es| - 1]);
      if Enabled(w, e) {
        StepAccounts(w, e);
      }
    }
  }

  lemma StepFreezes(w: World, e: Event, id: RunId)
    requires Accounted(w) && id in w.rows
    ensures id in Next(w, e).rows
    ensures w.rows[id].status != Running ==> Next(w, e).rows[id] == w.rows[id]
  {
    if Enabled(w, e) {
      match e {
        case Boot => ReapIsSafe(w.machine.now, Same(w.machine), w.rows, id);
        case Tick(watch) =>
          if Poll(w.machine, w.rows, watch) != None {
            TickAccounts(w, watch);
          }
        case _ =>
      }
    }
  }

  /** No terminal row ever runs again or changes in any column, whatever happens afterwards. */
  lemma {:induction false} TerminalIsFinal(es: seq<Event>, later: seq<Event>, id: RunId)
    requires id in Run(es).rows && Run(es).rows[id].status != Running
    ensures id in Run(es + later).rows && Run(es + later).rows[id] == Run(es).rows[id]
    decreases |later|
  {
    if later == [] {
      assert es + later == es;
    } else {
      var init, e := later[..|later| - 1], later[|later| - 1];
      assert (es + later)[..|es + later| - 1] == es + init;
      TerminalIsFinal(es, init, id);
      AlwaysAccounted(es + init);
      StepFreezes(Run(es + init), e, id);
    }
  }

  // ---- what recovery vouches for ----

  /** At some step of the run the row, then running with its report in place, became what it is at the end. */
  ghost predicate CompletedFromReport(es: seq<Event>, id: RunId)
    requires id in Run(es).rows
  {
    exists k :: 0 <= k < |es| && CompletesAt(es, id, k)
  }

  ghost predicate CompletesAt(es: seq<Event>, id: RunId, k: nat)
    requires id in Run(es).rows && k < |es|
  {
    var w, w' := Run(es[..k]), Run(es[..k + 1]);
    && id in w.rows && w.rows[id].status == Running && ReportComplete(w.machine, Run(es).rows[id].report)
    && id in w'.rows && w'.rows[id] == Run(es).rows[id]
  }

  /** At some boot of the run, the pid of `row` was alive and passed the argument test. */
  ghost predicate WasMatched(es: seq<Event>, row: Row) {
    exists k :: 0 <= k < |es| && es[k].Boot? && EngineAlive(Run(es[..k]).machine, row)
  }

  lemma Extends(es: seq<Event>, row: Row)
    requires es != []
    ensures WasMatched(es[..|es| - 1], row) ==> WasMatched(es, row)
    ensures es[|es| - 1].Boot? && EngineAlive(Run(es[..|es| - 1]).machine, row) ==> WasMatched(es, row)
  {
    var init := es[..|es| - 1];
    forall k | 0 <= k <= |init| ensures init[..k] == es[..k] {
    }
    assert es[..|es| - 1] == init;
  }

  lemma CompletionKept(es: seq<Event>, id: RunId)
    requires es != [] && id in Run(es[..|es| - 1]).rows && id in Run(es).rows
    requires CompletedFromReport(es[..|es| - 1], id) && Run(es).rows[id] == Run(es[..|es| - 1]).rows[id]
    ensures CompletedFromReport(es, id)
  {
    hide Run, ReportComplete;
    var init := es[..|es| - 1];
    var k :| 0 <= k < |init| && CompletesAt(init, id, k);
    assert init[..k] == es[..k] && init[..k + 1] == es[..k + 1];
    assert CompletesAt(es, id, k);
  }

  // Where a row recorded as reaped-complete can come from, in one step.
  lemma CompletionStep(w: World, e: Event, id: RunId)
    requires Accounted(w) && id in Next(w, e).rows && Next(w, e).rows[id].recovery == ReapedCompleted
    ensures id in w.rows
    ensures w.rows[id].recovery == ReapedCompleted
            || (w.rows[id].status == Running && Next(w, e).rows[id].status == Completed
                && ReportComplete(w.machine, Next(w, e).rows[id].report))
  {
    if Enabled(w, e) {
      match e {
        case Tick(watch) =>
          assert watch.run in w.rows && watch == WatchOf(w.rows, watch.run);
        case _ =>
      }
    }
  }

  // A row still running has not been recovered.
  lemma {:induction false} RunningUnrecovered(es: seq<Event>, id: RunId)
    requires id in Run(es).rows && Run(es).rows[id].status == Running
    ensures Run(es).rows[id].recovery == NotRecovered
  {
    var init, e := es[..|es| - 1], es[|es| - 1];
    var w := Run(init);
    AlwaysAccounted(init);
    if id in w.rows {
      StepFreezes(w, e, id);
      RunningUnrecovered(init, id);
      if Enabled(w, e) && e.Boot? {
        ReapIsSafe(w.machine.now, Same(w.machine), w.rows, id);
      } else if Enabled(w, e) && e.Tick? && Poll(w.machine, w.rows, e.watch) != None {
        TickAccounts(w, e.watch);
      }
    }
  }

  /** A row that the reaper or a watcher completed is marked completed, and its report passed the check at the very
      step that completed it. */
  lemma {:induction false} CompletedHadReport(es: seq<Event>, id: RunId)
    requires id in Run(es).rows && Run(es).rows[id].recovery == ReapedCompleted
    ensures Run(es).rows[id].status == Completed && CompletedFromReport(es, id)
  {
    var init, e := es[..|es| - 1], es[|es| - 1];
    var w := Run(init);
    AlwaysAccounted(init);
    CompletionStep(w, e, id);
    if w.rows[id].recovery == ReapedCompleted {
      if w.rows[id].status == Running {
        RunningUnrecovered(init, id);
      }
      StepFreezes(w, e, id);
      CompletedHadReport(init, id);
      CompletionKept(es, id);
    } else {
      assert es[..|es|] == es;
      assert CompletesAt(es, id, |es| - 1);
    }
  }

  /** Every watched pid was, at the boot that attached its watcher, a live process that passed the argument test. */
  lemma {:induction false} WatchedWasMatched(es: seq<Event>, id: RunId)
    requires Run(es).server.Up? && Watched(Run(es), id)
    ensures WasMatched(es, Run(es).rows[id])
  {
    var init, e := es[..|es| - 1], es[|es| - 1];
    var w, w' := Run(init), Run(es);
    AlwaysAccounted(init);
    AlwaysAccounted(es);
    assert w'.rows[id].status == Running;
    Extends(es, w'.rows[id]);
    if Enabled(w, e) && e.Boot? {
      assert id in ReapRows(w.machine.now, Same(w.machine), w.rows);
      ReapIsSafe(w.machine.now, Same(w.machine), w.rows, id);
    } else {
      WatchKept(w, e, id);
      WatchedWasMatched(init, id);
    }
  }

  // Outside a boot, a watched row was watched before and has not changed.
  lemma WatchKept(w: World, e: Event, id: RunId)
    requires Accounted(w) && !(Enabled(w, e) && e.Boot?)
    requires Next(w, e).server.Up? && Watched(Next(w, e), id) && Next(w, e).rows[id].status == Running
    ensures w.server.Up? && Watched(w, id) && Next(w, e).rows[id] == w.rows[id]
  {
    var w' := Next(w, e);
    if Enabled(w, e) {
      match e {
        case Tick(watch) =>
          if Poll(w.machine, w.rows, watch) != None {
            TickAccounts(w, watch);
          }
        case Launch(k, _, _, _, _, _, _) =>
          assert forall v :: v in w.server.watches ==> v.run in w.rows;
        case Respawn(k, _, _) => OthersKeep(w, w', k);
        case ReaderEnds(k, _, _, _, _) => OthersKeep(w, w', k);
        case _ =>
      }
    }
  }

  /** Right after a boot no row is past its deadline, and each running row has its one watcher. */
  lemma BootSettles(es: seq<Event>, id: RunId)
    requires Run(es).server.Down?
    requires id in Run(es + [Boot]).rows && Run(es + [Boot]).rows[id].status == Running
    ensures var w := Run(es + [Boot]);
            && Watched(w, id) && EngineAlive(w.machine, w.rows[id])
            && !(w.rows[id].deadline != None && w.machine.now > w.rows[id].deadline.value)
            && (forall v :: v in w.server.watches && v.run == id ==> v == WatchOf(w.rows, id))
  {
    assert (es + [Boot])[..|es|] == es;
    AlwaysAccounted(es + [Boot]);
    BootKeepsLive(Run(es), id);
    OneWatcher(Run(es + [Boot]), id);
  }

  lemma BootKeepsLive(w: World, id: RunId)
    requires w.server.Down? && id in Next(w, Boot).rows && Next(w, Boot).rows[id].status == Running
    ensures var w' := Next(w, Boot);
            && w'.server.Up? && Watched(w', id) && EngineAlive(w'.machine, w'.rows[id])
            && !(w'.rows[id].deadline != None && w'.machine.now > w'.rows[id].deadline.value)
  {
    BootAccounts(w);
    ReapIsSafe(w.machine.now, Same(w.machine), w.rows, id);
  }

  /** What a boot makes of a running row, in every reachable world. */
  lemma BootExact(es: seq<Event>, id: RunId)
    requires Run(es).server.Down? && id in Run(es).rows && Run(es).rows[id].status == Running
    ensures id in Run(es + [Boot]).rows
    ensures var w, m, r, after := Run(es + [Boot]), Run(es).machine, Run(es).rows[id], Run(es + [Boot]).rows[id];
            && w.server.Up? && w.machine == m
            && (Late(m.now, r) <==> after.status == Failed && after.recovery == ReapedAbandoned)
            && (!Late(m.now, r) && Live(m, r) <==> after == r)
            && (!Late(m.now, r) && Live(m, r) <==> Watched(w, id))
            && (!Late(m.now, r) && !Live(m, r) && ReportComplete(m, r.report) <==>
                  after.status == Completed && after.recovery == ReapedCompleted)
            && (!Late(m.now, r) && !Live(m, r) && !ReportComplete(m, r.report) <==>
                  after.status == Failed && after.recovery == ReapedFailed)
  {
    hide ReportComplete, Live;
    var m, rows := Run(es).machine, Run(es).rows;
    RunSnoc(es, Boot);
    ReapIsSafe(m.now, Same(m), rows, id);
    ReapExact(m.now, Same(m), rows, id);
    AlwaysAccounted(es + [Boot]);
  }

  /** What a poll makes of the row it watches, in every reachable world. */
  lemma TickExact(es: seq<Event>, watch: Watch)
    requires Enabled(Run(es), Tick(watch))
    ensures watch.run in Run(es).rows && watch.run in Run(es + [Tick(watch)]).rows
    ensures var m, r, after := Run(es).machine, Run(es).rows[watch.run], Run(es + [Tick(watch)]).rows[watch.run];
            && (watch.pid in m.processes && watch.pid > 0 <==> after == r)
            && (!(watch.pid in m.processes && watch.pid > 0) && ReportComplete(m, r.report) <==>
                  after.status == Completed && after.recovery == ReapedCompleted)
            && (!(watch.pid in m.processes && watch.pid > 0) && !ReportComplete(m, r.report) <==>
                  after.status == Failed && after.recovery == Reattached)
  {
    hide ReportComplete;
    RunSnoc(es, Tick(watch));
    AlwaysAccounted(es);
    PollExact(Run(es).machine, Run(es).rows, watch);
  }

  lemma OneWatcher(w: World, id: RunId)
    requires Accounted(w) && w.server.Up? && id in w.rows
    ensures forall v :: v in w.server.watches && v.run == id ==> v == WatchOf(w.rows, id)
  {
  }

  /** The watcher looks at the pid alone: any process that reuses it keeps the row running, until it is gone. */
  lemma WatcherIgnoresIdentity(w: World, watch: Watch)
    requires Accounted(w) && Enabled(w, Tick(watch))
    ensures Next(w, Tick(watch)).rows[watch.run].status == Running <==> PidAlive(w.machine, watch.pid)
  {
    if !PidAlive(w.machine, watch.pid) {
      TickAccounts(w, watch);
    }
  }

  /** In every reachable world, a watched row runs on after a poll without its engine exactly when another invocation
      has its pid. */
  lemma PhantomExact(es: seq<Event>, watch: Watch)
    requires Enabled(Run(es), Tick(watch))
    ensures watch.run in Run(es).rows && watch.run in Run(es + [Tick(watch)]).rows
    ensures var w := Run(es + [Tick(watch)]);
            w.rows[watch.run].status == Running && !OwnEngine(w.machine, w.rows[watch.run]) <==>
              Stranger(Run(es).machine, Run(es).rows[watch.run])
  {
    RunSnoc(es, Tick(watch));
    AlwaysAccounted(es);
    WatcherIgnoresIdentity(Run(es), watch);
    if !PidAlive(Run(es).machine, watch.pid) {
      TickAccounts(Run(es), watch);
    }
  }

  /** After a boot in any reachable world, a row runs on under a watcher without its engine exactly when it ran before,
      in time, and another invocation that shares a distinctive argument has its pid. */
  lemma StrangerExact(es: seq<Event>, id: RunId)
    requires Run(es).server.Down? && id in Run(es).rows
    ensures id in Run(es + [Boot]).rows
    ensures var w, m, before := Run(es + [Boot]), Run(es).machine, Run(es).rows[id];
            && w.machine == m && w.server.Up? && (w.rows[id].status == Running ==> Watched(w, id))
            && (w.rows[id].status == Running && !OwnEngine(m, w.rows[id]) <==>
                  && before.status == Running && !Late(m.now, before)
                  && Stranger(m, before) && SharesToken(m.processes[before.pid.value], before.argv.value))
  {
    RunSnoc(es, Boot);
    var w := Run(es);
    BootAccounts(w);
    ReapIsSafe(w.machine.now, Same(w.machine), w.rows, id);
    StrangerTaken(w.machine, w.rows[id]);
  }

  // ---- how long a phantom lasts ----

  /** No later poll of the watch finds its pid gone. */
  predicate PidLasts(es: seq<Event>, later: seq<Event>, watch: Watch) {
    later == [] ||
      var init, e := later[..|later| - 1], later[|later| - 1];
      PidLasts(es, init, watch) && (e == Tick(watch) ==> PidAlive(Run(es + init).machine, watch.pid))
  }

  predicate NoCrash(later: seq<Event>) {
    later == [] || (NoCrash(later[..|later| - 1]) && later[|later| - 1] != Crash)
  }

  lemma StepWatches(w: World, e: Event, id: RunId)
    requires Accounted(w) && w.server.Up? && e != Crash && id in w.rows && w.rows[id].pid != None
    requires w.rows[id].status == Running && Watched(w, id)
    ensures Next(w, e).server.Up? && id in Next(w, e).rows
    ensures var watch, w' := WatchOf(w.rows, id), Next(w, e);
            if e == Tick(watch) && !PidAlive(w.machine, watch.pid) then w'.rows[id].status != Running
            else w'.rows[id] == w.rows[id] && Watched(w', id)
  {
    var watch, w' := WatchOf(w.rows, id), Next(w, e);
    if Enabled(w, e) {
      match e {
        case Tick(v) =>
          if Poll(w.machine, w.rows, v) != None {
            TickAccounts(w, v);
            assert v.run == id ==> v == watch;
          }
        case Respawn(k, _, _) => OthersKeep(w, w', k);
        case ReaderEnds(k, _, _, _, _) => OthersKeep(w, w', k);
        case _ =>
      }
    }
  }

  /**
   While the server stays up a watched row runs exactly as long as its polls find its pid alive, whoever has it:
   no arguments are looked at again.
   */
  lemma {:induction false} RunsWhilePidLasts(es: seq<Event>, later: seq<Event>, id: RunId)
    requires Run(es).server.Up? && Watched(Run(es), id) && Run(es).rows[id].status == Running && NoCrash(later)
    ensures Run(es + later).server.Up? && id in Run(es + later).rows
    ensures var watch := WatchOf(Run(es).rows, id);
            if PidLasts(es, later, watch)
            then Run(es + later).rows[id] == Run(es).rows[id] && Watched(Run(es + later), id)
            else Run(es + later).rows[id].status != Running
    decreases |later|
  {
    if later == [] {
      assert es + later == es;
    } else {
      var init, e := later[..|later| - 1], later[|later| - 1];
      assert (es + later)[..|es + later| - 1] == es + init;
      RunsWhilePidLasts(es, init, id);
      AlwaysAccounted(es + init);
      var w := Run(es + init);
      if PidLasts(es, init, WatchOf(Run(es).rows, id)) {
        StepWatches(w, e, id);
      } else {
        StepFreezes(w, e, id);
        StaysUp(w, e);
      }
    }
  }

  lemma StaysUp(w: World, e: Event)
    requires w.server.Up? && e != Crash
    ensures Next(w, e).server.Up?
  {
  }

  lemma RunSnoc(es: seq<Event>, e: Event)
    ensures Run(es + [e]) == Next(Run(es), e)
  {
    assert (es + [e])[..|es|] == es;
  }

  // ---- two phantoms ----

  const ENGINE := ["python3", "-m", "marlinspike", "capture.pcap"]
  const OTHER := ["python3", "-m", "marlinspike", "other.pcap"]
  const SHELL := ["bash"]

  /** A machine on which process 5 runs under the given arguments. */
  function With5(argv: seq<string>): Machine { Machine(map[5 := Some(argv)], map[], 0) }

  function BeforeCrash(): seq<Event> {
    [] + [Boot] + [Environment(With5(ENGINE))] + [Launch("r", 1, NO_JOB, Some(5), Some(ENGINE), 0, "out")]
  }

  /** The engine outlives the server, is re-attached, ends, and a shell takes its pid. */
  function Reuse(): seq<Event> {
    BeforeCrash() + [Crash] + [Boot] + [Environment(With5(SHELL))]
  }

  lemma LaunchedWorld()
    ensures Run(BeforeCrash()) == World(map["r" := TheRow()], With5(ENGINE), Up({"r"}, {}))
  {
    hide Next;
    var es: seq<Event> := [];
    RunSnoc(es, Boot);
    BootsEmpty();
    RunSnoc(es + [Boot], Environment(With5(ENGINE)));
    Changes(Run(es + [Boot]), With5(ENGINE));
    RunSnoc(es + [Boot] + [Environment(With5(ENGINE))], Launch("r", 1, NO_JOB, Some(5), Some(ENGINE), 0, "out"));
    Launches(With5(ENGINE), "r", 1, NO_JOB, Some(5), Some(ENGINE), "out");
  }

  lemma BootsEmpty()
    ensures Next(START, Boot) == World(map[], START.machine, Up({}, {}))
  {
    var none: Rows := map[];
    assert ReapRows(0, Same(START.machine), none) == none;
    assert Watches(0, Same(START.machine), none) == {};
  }

  lemma Changes(w: World, m: Machine)
    requires w.machine.now <= m.now
    ensures Next(w, Environment(m)) == w.(machine := m)
  {
  }

  lemma Launches(m: Machine, id: RunId, user: int, job: Job, pid: Option<int>,
        argv: Option<seq<string>>, report: string)
    ensures Next(World(map[], m, Up({}, {})), Launch(id, user, job, pid, argv, 0, report))
            == World(map[id := Started(BLANK, user, job, pid, argv, None, report)], m, Up({id}, {}))
  {
    var none: set<RunId>, rows: Rows, row := {}, map[], Started(BLANK, user, job, pid, argv, None, report);
    assert none + {id} == {id} && rows[id := row] == map[id := row];
  }

  function TheRow(): Row { Started(BLANK, 1, NO_JOB, Some(5), Some(ENGINE), None, "out") }

  // Both the engine and another scan pass the test.
  lemma Passes(argv: seq<string>)
    requires argv == ENGINE || argv == OTHER
    ensures EngineAlive(With5(argv), TheRow())
  {
    assert Distinctive(ENGINE[2]) && argv[2] == ENGINE[2];
    var j := NonEmptyKeeps(argv, 2);
    TokenOccursInJoin(NonEmpty(argv), j);
    assert LiveArgvMatches(NonEmpty(argv), ENGINE);
  }

  lemma AttachedWorld()
    ensures Run(Reuse()) == World(map["r" := TheRow()], With5(SHELL), Up({}, {Watch("r", 5, "out")}))
  {
    hide Next;
    var es := BeforeCrash();
    LaunchedWorld();
    RunSnoc(es, Crash);
    RunSnoc(es + [Crash], Boot);
    RunSnoc(es + [Crash] + [Boot], Environment(With5(SHELL)));
    Passes(ENGINE);
    Crashes(Run(es));
    Reattaches("r", TheRow(), With5(ENGINE));
    Changes(Run(es + [Crash] + [Boot]), With5(SHELL));
  }

  lemma Crashes(w: World)
    requires w.server.Up?
    ensures Next(w, Crash) == w.(server := Down)
  {
  }

  lemma Reattaches(id: RunId, row: Row, m: Machine)
    requires row.status == Running && row.pid != None && row.deadline == None && EngineAlive(m, row)
    ensures Next(World(map[id := row], m, Down), Boot)
            == World(map[id := row], m, Up({}, {Watch(id, row.pid.value, row.report)}))
  {
    OneAttached(id, row, m);
  }

  lemma OneAttached(id: RunId, row: Row, m: Machine)
    requires row.status == Running && row.pid != None && row.deadline == None && EngineAlive(m, row)
    ensures ReapRows(m.now, Same(m), map[id := row]) == map[id := row]
    ensures Watches(m.now, Same(m), map[id := row]) == {Watch(id, row.pid.value, row.report)}
  {
    var rows := map[id := row];
    assert Ids(rows, true) == {id};
    assert With(m.now, Same(m), rows, Attach) == {id};
  }

  /** A run at whose end the watcher has just polled, the row still runs, and a shell has its pid. */
  lemma PhantomRuns()
    ensures var w := Run(Reuse() + [Tick(Watch("r", 5, "out"))]);
            "r" in w.rows && w.rows["r"].status == Running && !OwnEngine(w.machine, w.rows["r"])
  {
    AttachedWorld();
    PhantomExact(Reuse(), Watch("r", 5, "out"));
    assert SHELL != ENGINE by {
      assert |SHELL| != |ENGINE|;
    }
  }

  /** While the server is down the engine ends and another scan takes its pid. */
  function Swap(): seq<Event> {
    BeforeCrash() + [Crash] + [Environment(With5(OTHER))]
  }

  /** A run at whose end the row is watched and runs, and another scan has its pid. */
  lemma OtherScanAdopted()
    ensures var w := Run(Swap() + [Boot]);
            && w.server.Up? && "r" in w.rows && w.rows["r"].status == Running && Watched(w, "r")
            && !OwnEngine(w.machine, w.rows["r"])
  {
    hide Next;
    var es := BeforeCrash();
    LaunchedWorld();
    RunSnoc(es, Crash);
    Crashes(Run(es));
    RunSnoc(es + [Crash], Environment(With5(OTHER)));
    Changes(Run(es + [Crash]), With5(OTHER));
    assert OTHER != ENGINE by {
      assert OTHER[3][0] != ENGINE[3][0];
    }
    Passes(OTHER);
    var w := Run(Swap());
    assert w == World(map["r" := TheRow()], With5(OTHER), Down);
    assert EngineAlive(w.machine, w.rows["r"]) && Stranger(w.machine, w.rows["r"]);
    StrangerTaken(w.machine, w.rows["r"]);
    StrangerExact(Swap(), "r");
  }
}
