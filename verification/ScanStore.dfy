/** The durable rows of the scan history, and the writes that a scan's life makes to them. */
module ScanStore {
  import opened Wrappers

  type RunId = string

  datatype Status = Running | Completed | Failed | Stopped

  datatype Recovery = NotRecovered | Reattached | ReapedCompleted | ReapedFailed | ReapedAbandoned

  /** What is to be scanned, and how. */
  datatype Job = Job(project: Option<int>, command: string, profile: string, source: Option<string>,
                     hash: Option<string>, capture: string)

  datatype Row = Row(user: int, job: Job, status: Status, pid: Option<int>, argv: Option<seq<string>>,
                     deadline: Option<int>, report: string, nodes: nat, edges: nat, error: string,
                     finished: Option<int>, recovery: Recovery)

  type Rows = map<RunId, Row>

  /** The optional arguments of a finishing write: None leaves the column alone. */
  datatype Finish = Finish(status: Status, error: Option<string>, nodes: Option<nat>, edges: Option<nat>,
                           recovery: Option<Recovery>)

  function Or<T>(x: Option<T>, default: T): T {
    match x case Some(v) => v case None => default
  }

  function Finished(r: Row, f: Finish, now: int): Row {
    r.(status := f.status, finished := Some(now), error := Or(f.error, r.error), nodes := Or(f.nodes, r.nodes),
       edges := Or(f.edges, r.edges), recovery := Or(f.recovery, r.recovery), pid := None)
  }

  /** A deadline is set only for a positive timeout. */
  function Deadline(now: int, timeout: int): Option<int> {
    if timeout > 0 then Some(now + timeout) else None
  }

  /** What a launch writes over a row that may already exist: the outcome columns keep their values. */
  function Started(r: Row, user: int, job: Job, pid: Option<int>, argv: Option<seq<string>>, deadline: Option<int>,
                   report: string): Row {
    r.(user := user, job := job, status := Running, pid := pid, argv := Stored(argv), deadline := deadline,
       report := report, recovery := NotRecovered)
  }

  /** An empty argument list is stored as none. */
  function Stored(argv: Option<seq<string>>): Option<seq<string>> {
    if argv == Some([]) then None else argv
  }

  const NO_JOB := Job(None, "", "", None, None, "")
  const BLANK := Row(0, NO_JOB, Running, None, None, None, "", 0, 0, "", None, NotRecovered)

  function Ids(rows: Rows, running: bool): set<RunId> {
    set id | id in rows && (rows[id].status == Running) == running
  }

  /** The running rows of one user, or of everybody. */
  function RunningOf(rows: Rows, user: Option<int>): set<RunId> {
    set id | id in rows && rows[id].status == Running && (user == None || rows[id].user == user.value)
  }

  class Store {
    var rows: Rows

    constructor ()
      ensures rows == map[]
    {
      rows := map[];
    }

    /** The row is made or taken over: running, with what was started, its outcome columns as they were, or empty. */
    method RecordStart(id: RunId, user: int, job: Job, pid: Option<int>, argv: Option<seq<string>>, now: int,
                       timeout: int, report: string)
      modifies this
      ensures rows == old(rows)[id := Started(if id in old(rows) then old(rows)[id] else BLANK,
                                              user, job, pid, argv, Deadline(now, timeout), report)]
      ensures rows[id] == Row(user, job, Running, pid, if argv == Some([]) then None else argv,
                              if timeout > 0 then Some(now + timeout) else None, report,
                              if id in old(rows) then old(rows)[id].nodes else 0,
                              if id in old(rows) then old(rows)[id].edges else 0,
                              if id in old(rows) then old(rows)[id].error else "",
                              if id in old(rows) then old(rows)[id].finished else None, NotRecovered)
    {
      var rec := if id in rows then rows[id] else BLANK;
      rec := rec.(user := user, job := job, status := Running, report := report, pid := pid);
      rec := rec.(argv := if argv == None || argv.value == [] then None else argv);
      rec := rec.(deadline := if timeout > 0 then Some(now + timeout) else None, recovery := NotRecovered);
      rows := rows[id := rec];
    }

    method UpdatePid(id: RunId, pid: Option<int>, argv: Option<seq<string>>)
      modifies this
      ensures rows == if id in old(rows) then old(rows)[id := old(rows)[id].(pid := pid, argv := Stored(argv))]
                      else old(rows)
    {
      if id in rows {
        rows := rows[id := rows[id].(pid := pid, argv := if argv == None || argv.value == [] then None else argv)];
      }
    }

    method RecordFinish(id: RunId, f: Finish, now: int)
      modifies this
      ensures rows == if id in old(rows) then old(rows)[id := Finished(old(rows)[id], f, now)] else old(rows)
      ensures id in old(rows) ==>
                var r := old(rows)[id];
                rows[id] == Row(r.user, r.job, f.status, None, r.argv, r.deadline, r.report,
                                if f.nodes.Some? then f.nodes.value else r.nodes,
                                if f.edges.Some? then f.edges.value else r.edges,
                                if f.error.Some? then f.error.value else r.error, Some(now),
                                if f.recovery.Some? then f.recovery.value else r.recovery)
    {
      if id !in rows {
        return;
      }
      var rec := rows[id].(status := f.status, finished := Some(now));
      if f.error.Some? {
        rec := rec.(error := f.error.value);
      }
      if f.nodes.Some? {
        rec := rec.(nodes := f.nodes.value);
      }
      if f.edges.Some? {
        rec := rec.(edges := f.edges.value);
      }
      if f.recovery.Some? {
        rec := rec.(recovery := f.recovery.value);
      }
      rows := rows[id := rec.(pid := None)];
    }

    /** The rows still marked running, each once, in some order. */
    method ActiveForRecovery() returns (ids: seq<RunId>)
      ensures forall id :: id in ids <==> id in Ids(rows, true)
      ensures forall i, j :: 0 <= i < j < |ids| ==> ids[i] != ids[j]
    {
      var left := Ids(rows, true);
      ids := [];
      while left != {}
        invariant forall id :: id in Ids(rows, true) <==> id in ids || id in left
        invariant forall id :: id in ids ==> id !in left
        invariant forall i, j :: 0 <= i < j < |ids| ==> ids[i] != ids[j]
        decreases left
      {
        var id :| id in left;
        ids, left := ids + [id], left - {id};
      }
    }

    method ActiveCount(user: Option<int>) returns (n: nat)
      ensures n == |RunningOf(rows, user)|
    {
      var ids := ActiveForRecovery();
      n := 0;
      assert forall id :: id in ids ==> id in rows;
      hide Ids, RunningOf;
      for i := 0 to |ids|
        invariant n == |Among(rows, user, ids[..i])|
      {
        assert ids[..i + 1][..i] == ids[..i] && ids[i] !in ids[..i];
        AmongMeans(rows, user, ids[..i], ids[i]);
        if user == None || rows[ids[i]].user == user.value {
          n := n + 1;
        }
      }
      assert ids[..|ids|] == ids;
      AmongAll(rows, user, ids);
    }
  }

  /** Those of the listed rows that belong to the user. */
  function Among(rows: Rows, user: Option<int>, ids: seq<RunId>): set<RunId>
    requires forall id :: id in ids ==> id in rows
  {
    if ids == [] then {}
    else
      var last := ids[|ids| - 1];
      Among(rows, user, ids[..|ids| - 1]) + (if user == None || rows[last].user == user.value then {last} else {})
  }

  lemma AmongAll(rows: Rows, user: Option<int>, ids: seq<RunId>)
    requires forall id :: id in ids <==> id in Ids(rows, true)
    ensures Among(rows, user, ids) == RunningOf(rows, user)
  {
    forall id ensures id in Among(rows, user, ids) <==> id in RunningOf(rows, user) {
      AmongMeans(rows, user, ids, id);
    }
  }

  lemma {:induction false} AmongMeans(rows: Rows, user: Option<int>, ids: seq<RunId>, id: RunId)
    requires forall id :: id in ids ==> id in rows
    ensures id in Among(rows, user, ids) <==> id in ids && (user == None || rows[id].user == user.value)
  {
    if ids != [] {
      AmongMeans(rows, user, ids[..|ids| - 1], id);
      assert ids == ids[..|ids| - 1] + [ids[|ids| - 1]];
    }
  }
}
