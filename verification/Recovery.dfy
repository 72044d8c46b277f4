/**
 Reconciling the scans a dead server left running: what is decided for one row, the boot-time reaper
 over all of them, and the watcher that polls a re-attached engine. Process lookup follows Linux.
 */
module Recovery {
  import opened Wrappers
  import opened ScanStore
  import J = Json

  /** A file that does not parse, or the document it holds. */
  datatype File = Corrupt | Document(content: J.Json)

  /** What the recovering server can observe: live processes (argv None if unreadable), files, the time. */
  datatype Machine = Machine(processes: map<int, Option<seq<string>>>, files: map<string, File>, now: int)

  /** The machine as every row of one pass finds it, when nothing changes meanwhile. */
  function Same(m: Machine): RunId -> Machine { _ => m }

  // ---- is this the process we started? ----

  predicate PidAlive(m: Machine, pid: int) {
    pid > 0 && pid in m.processes
  }

  predicate OccursAt(needle: string, hay: string, i: nat) {
    i + |needle| <= |hay| && hay[i..i + |needle|] == needle
  }

  predicate Occurs(needle: string, hay: string) {
    exists i: nat :: i <= |hay| && OccursAt(needle, hay, i)
  }

  function JoinArgs(args: seq<string>): string {
    if args == [] then "" else if |args| == 1 then args[0] else args[0] + " " + JoinArgs(args[1..])
  }

  predicate Distinctive(token: string) {
    token != "" && token[0] != '-'
  }

  predicate LiveArgvMatches(actual: seq<string>, expected: seq<string>) {
    && actual != [] && expected != []
    && exists i :: 1 <= i < |expected| && Distinctive(expected[i]) && Occurs(expected[i], JoinArgs(actual))
  }

  predicate PidArgvMatches(m: Machine, pid: int, expected: Option<seq<string>>) {
    || expected == None || expected.value == []
    || (pid in m.processes && m.processes[pid].Some? &&
        LiveArgvMatches(NonEmpty(m.processes[pid].value), expected.value))
  }

  function NonEmpty(args: seq<string>): seq<string> {
    if args == [] then [] else (if args[0] == "" then [] else [args[0]]) + NonEmpty(args[1..])
  }

  predicate EngineAlive(m: Machine, r: Row) {
    r.pid != None && PidAlive(m, r.pid.value) && PidArgvMatches(m, r.pid.value, r.argv)
  }

  lemma {:induction false} TokenOccursInJoin(args: seq<string>, i: nat)
    requires i < |args|
    ensures Occurs(args[i], JoinArgs(args))
  {
    if |args| == 1 {
      assert OccursAt(args[0], JoinArgs(args), 0);
    } else if i == 0 {
      assert OccursAt(args[0], JoinArgs(args), 0);
    } else {
      TokenOccursInJoin(args[1..], i - 1);
      var rest, gap := JoinArgs(args[1..]), |args[0]| + 1;
      var j: nat :| j <= |rest| && OccursAt(args[i], rest, j);
      var whole := args[0] + " " + rest;
      assert whole[gap..] == rest;
      assert whole[gap + j..gap + j + |args[i]|] == whole[gap..][j..j + |args[i]|];
      assert OccursAt(args[i], whole, gap + j);
    }
  }

  /** Joining puts one space between, and nothing else. */
  lemma {:induction false} JoinConcat(a: seq<string>, b: seq<string>)
    requires a != [] && b != []
    ensures JoinArgs(a + b) == JoinArgs(a) + " " + JoinArgs(b)
    ensures |a| == 1 ==> JoinArgs(a) == a[0]
  {
    if |a| == 1 {
      assert (a + b)[1..] == b;
    } else {
      assert (a + b)[1..] == a[1..] + b;
      JoinConcat(a[1..], b);
      assert a[0] + " " + (JoinArgs(a[1..]) + " " + JoinArgs(b)) == a[0] + " " + JoinArgs(a[1..]) + " " + JoinArgs(b);
    }
  }

  /** Exactly the empty arguments are dropped. */
  lemma {:induction false} NonEmptyExact(args: seq<string>)
    ensures "" !in NonEmpty(args)
    ensures forall x :: x != "" ==> multiset(NonEmpty(args))[x] == multiset(args)[x]
  {
    if args != [] {
      NonEmptyExact(args[1..]);
      assert args == [args[0]] + args[1..];
    }
  }

  lemma {:induction false} NonEmptyKeeps(args: seq<string>, i: nat) returns (j: nat)
    requires i < |args| && args[i] != ""
    ensures j < |NonEmpty(args)| && NonEmpty(args)[j] == args[i]
  {
    if i == 0 {
      j := 0;
    } else {
      j := NonEmptyKeeps(args[1..], i - 1);
      if args[0] != "" {
        j := j + 1;
      }
    }
  }

  /** A live engine under the very arguments saved is recognised exactly when none were saved, or some argument
      after the first can tell it apart. */
  lemma RecognisesItself(m: Machine, pid: int, argv: seq<string>)
    requires pid in m.processes && m.processes[pid] == Some(argv)
    ensures PidArgvMatches(m, pid, Some(argv)) <==> argv == [] || exists i :: 1 <= i < |argv| && Distinctive(argv[i])
  {
    forall i | 1 <= i < |argv| && Distinctive(argv[i]) ensures Occurs(argv[i], JoinArgs(NonEmpty(argv))) {
      var j := NonEmptyKeeps(argv, i);
      TokenOccursInJoin(NonEmpty(argv), j);
    }
    if i :| 1 <= i < |argv| && Distinctive(argv[i]) {
      var j := NonEmptyKeeps(argv, i);
      assert NonEmpty(argv) != [];
    }
  }

  /** The arguments saved for a row, if any were: an empty list is no defence either. */
  predicate Saved(r: Row) {
    r.argv != None && r.argv.value != []
  }

  /** The very invocation the row was started with has its pid; without saved arguments any process there may be it. */
  predicate OwnEngine(m: Machine, r: Row) {
    r.pid != None && PidAlive(m, r.pid.value) && (Saved(r) ==> m.processes[r.pid.value] == r.argv)
  }

  /** Another invocation has the row's pid, or one whose arguments cannot be read. */
  predicate Stranger(m: Machine, r: Row) {
    r.pid != None && PidAlive(m, r.pid.value) && Saved(r) && m.processes[r.pid.value] != r.argv
  }

  /** Some saved argument after the first, not empty and no flag, occurs in the live command line. */
  predicate SharesToken(live: Option<seq<string>>, saved: seq<string>) {
    live != None && NonEmpty(live.value) != [] &&
    exists i :: 1 <= i < |saved| && saved[i] != "" && saved[i][0] != '-' &&
                Occurs(saved[i], JoinArgs(NonEmpty(live.value)))
  }

  /** The reaper takes a stranger for the engine exactly when the two share a distinctive argument. */
  lemma StrangerTaken(m: Machine, r: Row)
    ensures EngineAlive(m, r) && !OwnEngine(m, r) <==>
              Stranger(m, r) && SharesToken(m.processes[r.pid.value], r.argv.value)
  {
  }

  // ---- is the report there? ----

  /** The structural check: the document mentions a topology or results. */
  predicate ReportComplete(m: Machine, path: string) {
    path != "" && path in m.files && m.files[path].Document? &&
    match m.files[path].content
    case Object(f) => "topology" in f || "results" in f
    case List(items) => J.Text("topology") in items || J.Text("results") in items
    case Text(t) => Occurs("topology", t) || Occurs("results", t)
    case _ => false
  }

  function GetField(o: J.Json, key: string, default: J.Json): J.Json
    requires o.Object?
  {
    if key in o.fields then o.fields[key] else default
  }

  function Length(x: J.Json): Option<nat> {
    match x
    case List(items) => Some(|items|)
    case Object(f) => Some(|f|)
    case Text(t) => Some(|t|)
    case _ => None
  }

  /** Node and edge counts; a count that cannot be taken leaves it and the later one at zero. */
  function Counts(doc: J.Json): (nat, nat) {
    var none := J.Object(map[]);
    if !doc.Object? then (0, 0)
    else
      var results := GetField(doc, "results", none);
      if !results.Object? then (0, 0)
      else
        var topo := GetField(results, "topology", GetField(doc, "topology", none));
        if !topo.Object? then (0, 0)
        else
          match Length(GetField(topo, "nodes", J.List([])))
          case None => (0, 0)
          case Some(n) =>
            match Length(GetField(topo, "edges", J.List([])))
            case None => (n, 0)
            case Some(k) => (n, k)
  }

  function CountsIn(m: Machine, path: string): (nat, nat) {
    if path in m.files && m.files[path].Document? then Counts(m.files[path].content) else (0, 0)
  }

  // ---- the decision ----

  datatype Outcome = Abandoned | Attach | Complete | Crashed

  function Decide(now: int, m: Machine, r: Row): Outcome {
    if r.deadline != None && now > r.deadline.value then Abandoned
    else if EngineAlive(m, r) then Attach
    else if ReportComplete(m, r.report) then Complete
    else Crashed
  }

  const ABANDONED_TAIL := "abandoned - scan exceeded its deadline before Flask restart could observe completion"
  const CRASHED_TAIL := "engine crashed mid-scan (Flask was unable to observe completion)"
  const EXITED_TAIL := "re-attached engine exited without writing a complete report"

  function Failure(error: string, recovery: Recovery): Finish {
    Finish(Failed, Some(error), None, None, Some(recovery))
  }

  function Ingestion(m: Machine, report: string): Finish {
    Finish(Completed, None, Some(CountsIn(m, report).0), Some(CountsIn(m, report).1), Some(ReapedCompleted))
  }

  /** The row after the reaper has dealt with it. */
  function Reaped(now: int, m: Machine, r: Row): Row {
    match Decide(now, m, r)
    case Abandoned => Finished(r, Failure(ABANDONED_TAIL, ReapedAbandoned), m.now)
    case Attach => r
    case Complete => Finished(r, Ingestion(m, r.report), m.now)
    case Crashed => Finished(r, Failure(CRASHED_TAIL, ReapedFailed), m.now)
  }

  function ReapRows(now: int, at: RunId -> Machine, rows: Rows): Rows {
    map id | id in rows :: if rows[id].status == Running then Reaped(now, at(id), rows[id]) else rows[id]
  }

  datatype Watch = Watch(run: RunId, pid: int, report: string)

  /** What is decided for each running row. */
  function Decisions(now: int, at: RunId -> Machine, rows: Rows): map<RunId, Outcome> {
    map id | id in Ids(rows, true) :: Decide(now, at(id), rows[id])
  }

  function Chosen(d: map<RunId, Outcome>, o: Outcome): set<RunId> {
    set id | id in d && d[id] == o
  }

  function With(now: int, at: RunId -> Machine, rows: Rows, o: Outcome): set<RunId> {
    Chosen(Decisions(now, at, rows), o)
  }

  function WatchOf(rows: Rows, id: RunId): Watch
    requires id in rows && rows[id].pid != None
  {
    Watch(id, rows[id].pid.value, rows[id].report)
  }

  function WatchesFor(rows: Rows, ids: set<RunId>): set<Watch> {
    set id | id in ids && id in rows && rows[id].pid != None :: WatchOf(rows, id)
  }

  /** The watchers a reap spawns: one for every row whose engine is alive. */
  function Watches(now: int, at: RunId -> Machine, rows: Rows): set<Watch> {
    WatchesFor(rows, With(now, at, rows, Attach))
  }

  datatype Counters = Counters(checked: nat, reattached: nat, completed: nat, failed: nat, abandoned: nat)
  {
    function Of(o: Outcome): nat {
      match o
      case Abandoned => abandoned
      case Attach => reattached
      case Complete => completed
      case Crashed => failed
    }

    function Bump(o: Outcome): Counters {
      match o
      case Abandoned => this.(abandoned := abandoned + 1)
      case Attach => this.(reattached := reattached + 1)
      case Complete => this.(completed := completed + 1)
      case Crashed => this.(failed := failed + 1)
    }
  }

  // ---- the reaper: `now` is read once, each row meets the machine as it is when its turn comes ----

  method Reap(store: Store, now: int, at: RunId -> Machine) returns (c: Counters, watches: seq<Watch>)
    modifies store
    ensures store.rows == ReapRows(now, at, old(store.rows))
    ensures c.checked == |Ids(old(store.rows), true)|
    ensures forall o: Outcome :: c.Of(o) == |With(now, at, old(store.rows), o)|
    ensures (set w | w in watches) == Watches(now, at, old(store.rows)) && |watches| == c.reattached
  {
    var active := store.ActiveForRecovery();
    ghost var rows := store.rows;
    DistinctCount(active, Ids(rows, true));
    c, watches := Counters(|active|, 0, 0, 0, 0), [];
    ghost var taken: set<RunId> := {};
    ReapNone(now, at, rows);
    for i := 0 to |active|
      invariant taken == Taken(active, i)
      invariant Progress(store.rows, c, watches, now, at, rows, taken) && c.checked == |active|
    {
      assert active[i] in active;
      TakeOne(active, i);
      c, watches := ReapNext(store, now, at, active[i], c, watches, rows, taken);
      taken := taken + {active[i]};
    }
    TakenAll(active, Ids(rows, true));
    AllTaken(now, at, rows);
  }

  ghost predicate Progress(current: Rows, c: Counters, watches: seq<Watch>, now: int, at: RunId -> Machine,
        rows: Rows, taken: set<RunId>) {
    && current == ReapSome(now, at, rows, taken)
    && Tallied(c, Decisions(now, at, rows), taken)
    && (set w | w in watches) == WatchesFor(rows, ChosenIn(Decisions(now, at, rows), taken, Attach))
    && |watches| == c.reattached
  }

  method ReapNext(store: Store, now: int, at: RunId -> Machine, id: RunId, c: Counters, watches: seq<Watch>,
                  ghost rows: Rows, ghost taken: set<RunId>)
    returns (c': Counters, watches': seq<Watch>)
    requires Progress(store.rows, c, watches, now, at, rows, taken)
    requires id in Ids(rows, true) && id !in taken
    modifies store
    ensures Progress(store.rows, c', watches', now, at, rows, taken + {id}) && c'.checked == c.checked
  {
    ghost var d := Decisions(now, at, rows);
    NotYet(now, at, rows, taken, id);
    var rec := store.rows[id];
    var o := ReapOne(store, now, at(id), id);
    TallyOne(c, d, taken, id);
    NextRows(now, at, rows, taken, id);
    watches' := watches;
    if o == Attach {
      WatchOne(rows, d, taken, id, watches);
      watches' := watches + [Watch(id, rec.pid.value, rec.report)];
    }
    c' := c.Bump(o);
  }

  /** The body of the reaper's loop for one row, which is still running. */
  method ReapOne(store: Store, now: int, m: Machine, id: RunId) returns (o: Outcome)
    requires id in store.rows
    modifies store
    ensures o == Decide(now, m, old(store.rows)[id])
    ensures store.rows == old(store.rows)[id := Reaped(now, m, old(store.rows)[id])]
  {
    var rec := store.rows[id];
    if rec.deadline != None && now > rec.deadline.value {
      store.RecordFinish(id, Failure(ABANDONED_TAIL, ReapedAbandoned), m.now);
      return Abandoned;
    }
    if EngineAlive(m, rec) {
      return Attach;
    }
    if ReportComplete(m, rec.report) {
      store.RecordFinish(id, Ingestion(m, rec.report), m.now);
      return Complete;
    }
    store.RecordFinish(id, Failure(CRASHED_TAIL, ReapedFailed), m.now);
    return Crashed;
  }

  ghost function Taken(active: seq<RunId>, i: nat): set<RunId>
    requires i <= |active|
  {
    set id | id in active[..i]
  }

  ghost function ChosenIn(d: map<RunId, Outcome>, taken: set<RunId>, o: Outcome): set<RunId> {
    set id | id in taken && id in d && d[id] == o
  }

  ghost predicate Tallied(c: Counters, d: map<RunId, Outcome>, taken: set<RunId>) {
    forall o: Outcome :: c.Of(o) == |ChosenIn(d, taken, o)|
  }

  ghost function ReapSome(now: int, at: RunId -> Machine, rows: Rows, taken: set<RunId>): Rows {
    map id | id in rows :: if id in taken && rows[id].status == Running then Reaped(now, at(id), rows[id]) else rows[id]
  }

  lemma ReapNone(now: int, at: RunId -> Machine, rows: Rows)
    ensures ReapSome(now, at, rows, {}) == rows
  {
  }

  lemma NotYet(now: int, at: RunId -> Machine, rows: Rows, taken: set<RunId>, id: RunId)
    requires id in Ids(rows, true) && id !in taken
    ensures id in ReapSome(now, at, rows, taken) && ReapSome(now, at, rows, taken)[id] == rows[id]
    ensures id in Decisions(now, at, rows) && Decisions(now, at, rows)[id] == Decide(now, at(id), rows[id])
  {
  }

  lemma NextRows(now: int, at: RunId -> Machine, rows: Rows, taken: set<RunId>, id: RunId)
    requires id in Ids(rows, true) && id !in taken
    ensures ReapSome(now, at, rows, taken + {id}) == ReapSome(now, at, rows, taken)[id := Reaped(now, at(id), rows[id])]
  {
  }

  lemma AllTaken(now: int, at: RunId -> Machine, rows: Rows)
    ensures ReapSome(now, at, rows, Ids(rows, true)) == ReapRows(now, at, rows)
    ensures forall o: Outcome :: ChosenIn(Decisions(now, at, rows), Ids(rows, true), o) == With(now, at, rows, o)
  {
  }

  lemma TakeOne(active: seq<RunId>, i: nat)
    requires i < |active| && forall j, k :: 0 <= j < k < |active| ==> active[j] != active[k]
    ensures Taken(active, i + 1) == Taken(active, i) + {active[i]} && active[i] !in Taken(active, i)
  {
    assert active[..i + 1] == active[..i] + [active[i]];
  }

  lemma TakenAll(active: seq<RunId>, ids: set<RunId>)
    requires forall id :: id in active <==> id in ids
    ensures Taken(active, |active|) == ids
  {
    assert active[..|active|] == active;
  }

  lemma TallyOne(c: Counters, d: map<RunId, Outcome>, taken: set<RunId>, id: RunId)
    requires id in d && id !in taken && Tallied(c, d, taken)
    ensures Tallied(c.Bump(d[id]), d, taken + {id})
    ensures forall o: Outcome ::
              ChosenIn(d, taken + {id}, o) == ChosenIn(d, taken, o) + (if d[id] == o then {id} else {})
  {
    forall o: Outcome
      ensures ChosenIn(d, taken + {id}, o) == ChosenIn(d, taken, o) + (if d[id] == o then {id} else {})
      ensures c.Bump(d[id]).Of(o) == |ChosenIn(d, taken + {id}, o)|
    {
      assert ChosenIn(d, taken + {id}, o) == ChosenIn(d, taken, o) + (if d[id] == o then {id} else {});
    }
  }

  lemma WatchOne(rows: Rows, d: map<RunId, Outcome>, taken: set<RunId>, id: RunId, watches: seq<Watch>)
    requires id in rows && rows[id].pid != None && id in d && d[id] == Attach
    requires (set w | w in watches) == WatchesFor(rows, ChosenIn(d, taken, Attach))
    ensures (set w | w in watches + [WatchOf(rows, id)]) == WatchesFor(rows, ChosenIn(d, taken + {id}, Attach))
  {
    assert ChosenIn(d, taken + {id}, Attach) == ChosenIn(d, taken, Attach) + {id};
    assert WatchesFor(rows, ChosenIn(d, taken + {id}, Attach))
           == WatchesFor(rows, ChosenIn(d, taken, Attach)) + {WatchOf(rows, id)};
  }

  lemma {:induction false} DistinctCount(ids: seq<RunId>, s: set<RunId>)
    requires forall id :: id in ids <==> id in s
    requires forall i, j :: 0 <= i < j < |ids| ==> ids[i] != ids[j]
    ensures |ids| == |s|
  {
    if ids == [] {
      assert s == {};
    } else {
      var last, init := ids[|ids| - 1], ids[..|ids| - 1];
      assert ids == init + [last];
      DistinctCount(init, s - {last});
    }
  }

  /** Every running row gets exactly one of the four outcomes, so the counters add up to the rows checked. */
  lemma OutcomesPartition(now: int, at: RunId -> Machine, rows: Rows)
    ensures |Ids(rows, true)| == |With(now, at, rows, Attach)| + |With(now, at, rows, Complete)|
                                + |With(now, at, rows, Crashed)| + |With(now, at, rows, Abandoned)|
  {
    assert Decisions(now, at, rows).Keys == Ids(rows, true);
    Partition(Decisions(now, at, rows));
  }

  lemma Partition(d: map<RunId, Outcome>)
    ensures |d.Keys| == |Chosen(d, Attach)| + |Chosen(d, Complete)| + |Chosen(d, Crashed)| + |Chosen(d, Abandoned)|
  {
    var ab := Chosen(d, Attach) + Chosen(d, Complete);
    var cd := Chosen(d, Crashed) + Chosen(d, Abandoned);
    assert d.Keys == ab + cd;
    assert Chosen(d, Attach) !! Chosen(d, Complete) && Chosen(d, Crashed) !! Chosen(d, Abandoned) && ab !! cd;
  }

  /** After a reap, what is still running has a live pid that passed the argument test and is not past its deadline;
      what became completed has a report; terminal rows are untouched. */
  lemma ReapIsSafe(now: int, at: RunId -> Machine, rows: Rows, id: RunId)
    requires id in rows
    ensures id in ReapRows(now, at, rows)
    ensures var after := ReapRows(now, at, rows)[id];
            && (rows[id].status != Running ==> after == rows[id])
            && (after.status == Running ==>
                  after == rows[id] && EngineAlive(at(id), after) && WatchOf(rows, id) in Watches(now, at, rows)
                  && !(after.deadline != None && now > after.deadline.value))
            && (rows[id].status == Running && after.status == Completed ==> ReportComplete(at(id), after.report))
            && (rows[id].status == Running && after.status != Running ==>
                  after.recovery in {ReapedAbandoned, ReapedCompleted, ReapedFailed} && after.pid == None)
  {
    if rows[id].status == Running {
      assert id in Decisions(now, at, rows);
      if Decide(now, at(id), rows[id]) == Attach {
        assert id in With(now, at, rows, Attach);
      }
    }
  }

  // ---- what becomes of a row, said without the decision ----

  /** A process has the row's pid, and its arguments, if any were saved, share one with them that can tell it apart. */
  predicate Live(m: Machine, r: Row) {
    && r.pid.Some? && r.pid.value > 0 && r.pid.value in m.processes
    && (Saved(r) ==> SharesToken(m.processes[r.pid.value], r.argv.value))
  }

  predicate Late(now: int, r: Row) {
    r.deadline.Some? && r.deadline.value < now
  }

  /** The report's file holds an object with a topology or with results. */
  predicate HasReport(m: Machine, path: string) {
    && path != "" && path in m.files && m.files[path].Document? && m.files[path].content.Object?
    && ("topology" in m.files[path].content.fields || "results" in m.files[path].content.fields)
  }

  ghost predicate Within(word: string, text: string) {
    exists before: string, after: string :: text == before + word + after
  }

  lemma OccursExact(word: string, text: string)
    ensures Occurs(word, text) <==> Within(word, text)
  {
    if i: nat :| i <= |text| && OccursAt(word, text, i) {
      assert text == text[..i] + word + text[i + |word|..];
    }
    if before: string, after: string :| text == before + word + after {
      assert text[|before|..|before| + |word|] == word;
      assert OccursAt(word, text, |before|);
    }
  }

  /** What passes for a report: an object with a key, a list with a text, or a text with a part that is `topology` or
      `results`. */
  ghost predicate Mentions(doc: J.Json) {
    match doc
    case Object(f) => "topology" in f.Keys || "results" in f.Keys
    case List(items) => exists x :: x in items && x.Text? && (x.text == "topology" || x.text == "results")
    case Text(t) => Within("topology", t) || Within("results", t)
    case Null => false
    case Bool(_) => false
    case Whole(_) => false
    case Float(_) => false
  }

  /** A report is complete when its file is there, parses, and mentions one of the two. */
  lemma ReportCompleteExact(m: Machine, path: string)
    ensures ReportComplete(m, path) <==>
              path != "" && path in m.files && m.files[path].Document? && Mentions(m.files[path].content)
    ensures HasReport(m, path) ==> ReportComplete(m, path)
  {
    if path in m.files && m.files[path].Document? && m.files[path].content.Text? {
      OccursExact("topology", m.files[path].content.text);
      OccursExact("results", m.files[path].content.text);
    }
  }

  /** How the row of a scan that has ended reads; user, job, arguments, deadline and report stay as they were. */
  predicate Ended(r: Row, after: Row, status: Status, recovery: Recovery, error: string, nodes: nat, edges: nat,
        now: int) {
    after == Row(r.user, r.job, status, None, r.argv, r.deadline, r.report, nodes, edges, error, Some(now), recovery)
  }

  /**
   What a reap makes of a running row, in whatever state its turn finds the machine: abandoned exactly when it is
   late; else left alone exactly when its process lives; else completed exactly when its report is there; else
   failed.
   */
  lemma ReapExact(now: int, at: RunId -> Machine, rows: Rows, id: RunId)
    requires id in rows && rows[id].status == Running && id in ReapRows(now, at, rows)
    ensures var r, m, after := rows[id], at(id), ReapRows(now, at, rows)[id];
            && (Late(now, r) <==> Ended(r, after, Failed, ReapedAbandoned, ABANDONED_TAIL, r.nodes, r.edges, m.now))
            && (!Late(now, r) && Live(m, r) <==> after == r)
            && (!Late(now, r) && !Live(m, r) && ReportComplete(m, r.report) <==>
                  after.status == Completed && after.recovery == ReapedCompleted)
            && (!Late(now, r) && !Live(m, r) && ReportComplete(m, r.report) ==>
                  Ended(r, after, Completed, ReapedCompleted, r.error, CountsIn(m, r.report).0,
                        CountsIn(m, r.report).1, m.now))
            && (!Late(now, r) && !Live(m, r) && !ReportComplete(m, r.report) <==>
                  Ended(r, after, Failed, ReapedFailed, CRASHED_TAIL, r.nodes, r.edges, m.now))
  {
    LiveIsAlive(at(id), rows[id]);
    hide CountsIn, ReportComplete, EngineAlive, Live;
    var r := rows[id];
    assert r.deadline != None <==> r.deadline.Some?;
  }

  lemma LiveIsAlive(m: Machine, r: Row)
    ensures Live(m, r) <==> EngineAlive(m, r)
  {
    hide OccursAt, Occurs, JoinArgs, NonEmpty;
  }

  /** The topology of a report: under its results, or else beside them; without either an empty one. */
  function TopologyIn(doc: J.Json): Option<map<string, J.Json>> {
    if !doc.Object? || ("results" in doc.fields && !doc.fields["results"].Object?) then None
    else
      var inner: map<string, J.Json> := if "results" in doc.fields then doc.fields["results"].fields else map[];
      if "topology" in inner then (if inner["topology"].Object? then Some(inner["topology"].fields) else None)
      else if "topology" in doc.fields
      then (if doc.fields["topology"].Object? then Some(doc.fields["topology"].fields) else None)
      else Some(map[])
  }

  /** How many entries a list, object or text under the key has; nothing counts as none, and anything else cannot be
      counted. */
  function EntriesAt(topology: map<string, J.Json>, key: string): Option<nat> {
    if key !in topology then Some(0)
    else if topology[key].List? then Some(|topology[key].items|)
    else if topology[key].Object? then Some(|topology[key].fields|)
    else if topology[key].Text? then Some(|topology[key].text|)
    else None
  }

  /** The counts taken of a report: both zero without a topology or when its nodes cannot be counted, the edges zero
      when they cannot. */
  lemma CountsMean(doc: J.Json)
    ensures Counts(doc).0 == match TopologyIn(doc)
                             case None => 0
                             case Some(t) => if EntriesAt(t, "nodes").Some? then EntriesAt(t, "nodes").value else 0
    ensures Counts(doc).1 == match TopologyIn(doc)
                             case None => 0
                             case Some(t) =>
                               if EntriesAt(t, "nodes").Some? && EntriesAt(t, "edges").Some?
                               then EntriesAt(t, "edges").value else 0
  {
  }

  // ---- the watcher ----

  /** One poll: nothing while any process has the pid, otherwise the row is finalised from disk. */
  function Poll(m: Machine, rows: Rows, w: Watch): Option<Rows> {
    if PidAlive(m, w.pid) then None
    else if w.run !in rows then Some(rows)
    else if ReportComplete(m, w.report) then
      Some(rows[w.run := Finished(rows[w.run], Ingestion(m, rows[w.run].report), m.now)])
    else Some(rows[w.run := Finished(rows[w.run], Failure(EXITED_TAIL, Reattached), m.now)])
  }

  /** A poll does nothing while a process has the pid; then the row completes exactly when its report is there. */
  lemma PollExact(m: Machine, rows: Rows, w: Watch)
    ensures Poll(m, rows, w) == None <==> w.pid > 0 && w.pid in m.processes
    ensures Poll(m, rows, w).Some? ==>
              && Poll(m, rows, w).value.Keys == rows.Keys
              && forall id :: id in rows && id != w.run ==> Poll(m, rows, w).value[id] == rows[id]
    ensures Poll(m, rows, w).Some? && w.run in rows ==>
              var r, after := rows[w.run], Poll(m, rows, w).value[w.run];
              if ReportComplete(m, w.report)
              then Ended(r, after, Completed, ReapedCompleted, r.error, CountsIn(m, r.report).0,
                         CountsIn(m, r.report).1, m.now)
              else Ended(r, after, Failed, Reattached, EXITED_TAIL, r.nodes, r.edges, m.now)
  {
    hide CountsIn, ReportComplete;
  }

  /** The polling loop over what successive polls observe; it ends at the first poll that finds the pid gone. */
  method WatchLoop(store: Store, w: Watch, polls: seq<Machine>) returns (done: bool)
    modifies store
    ensures done <==> exists i :: 0 <= i < |polls| && !PidAlive(polls[i], w.pid)
    ensures !done ==> store.rows == old(store.rows)
    ensures done ==>
              exists i :: (0 <= i < |polls| && !PidAlive(polls[i], w.pid)
                           && (forall j :: 0 <= j < i ==> PidAlive(polls[j], w.pid))
                           && Poll(polls[i], old(store.rows), w) == Some(store.rows))
  {
    for i := 0 to |polls|
      invariant store.rows == old(store.rows)
      invariant forall j :: 0 <= j < i ==> PidAlive(polls[j], w.pid)
    {
      var m := polls[i];
      if PidAlive(m, w.pid) {
        continue;
      }
      if ReportComplete(m, w.report) {
        if w.run in store.rows {
          store.RecordFinish(w.run, Ingestion(m, store.rows[w.run].report), m.now);
        }
      } else {
        store.RecordFinish(w.run, Failure(EXITED_TAIL, Reattached), m.now);
      }
      assert Poll(m, old(store.rows), w) == Some(store.rows);
      return true;
    }
    done := false;
  }
}
