/**
 The stage tracker of a run: stage states move with the engine's "STAGE n" markers, error lines, stop
 requests and the end of the run.
 */
module Stages {
  import opened Wrappers

  datatype State = Pending | Running | Complete | Failed | Stopped

  datatype Status = InProgress | Completed | RunFailed | RunStopped

  datatype Plugins = Plugins(mitre: bool, arp: bool, apt: bool, cisa: bool)

  datatype Run = Run(stage: int, name: string, stages: seq<State>, status: Status,
                     stopRequested: bool, returnCode: Option<int>)

  datatype Event =
    | Marker(number: int, name: string)
    | ErrorLine
    | StopRequest
    | Exit(code: int)
    | Finalise(chain: bool, plugins: Plugins)

  predicate Fixed(s: State) {
    s == Failed || s == Stopped
  }

  /** The state of stage `number` once stage `n` is reached. */
  function Reached(s: State, number: int, n: int): State {
    if Fixed(s) || number > n then s else if number < n then Complete else Running
  }

  function Advance(ss: seq<State>, n: int): (r: seq<State>)
    ensures |r| == |ss|
  {
    seq(|ss|, i requires 0 <= i < |ss| => Reached(ss[i], i + 1, n))
  }

  /** The first running stage takes the given state. */
  function Mark(ss: seq<State>, state: State): (r: seq<State>)
    ensures |r| == |ss|
  {
    if ss == [] then [] else if ss[0] == Running then [state] + ss[1..] else [ss[0]] + Mark(ss[1..], state)
  }

  function Settled(s: State): State {
    if s == Running then Complete else s
  }

  function Settle(ss: seq<State>): (r: seq<State>)
    ensures |r| == |ss|
  {
    seq(|ss|, i requires 0 <= i < |ss| => Settled(ss[i]))
  }

  /** A plugin runs as the last stage, and completes it. */
  function WithPlugin(ss: seq<State>): seq<State> {
    var r := Advance(ss, |ss|);
    if ss == [] then r else r[|ss| - 1 := Settled(r[|ss| - 1])]
  }

  predicate Any(chain: bool, plugins: Plugins) {
    chain && (plugins.mitre || plugins.arp || plugins.apt || plugins.cisa)
  }

  /** The name shown after the enabled plugins have run, in this order. */
  function PluginName(name: string, chain: bool, plugins: Plugins): string {
    if !chain then name
    else if plugins.cisa then "CISA Advisories"
    else if plugins.apt then "APT Analysis"
    else if plugins.arp then "ARP Analysis"
    else if plugins.mitre then "MITRE ATT&CK"
    else name
  }

  function Next(r: Run, e: Event): Run {
    match e
    case Marker(n, name) =>
      if n < 1 then r
      else r.(stage := n, name := if name != "" then name else r.name, stages := Advance(r.stages, n))
    case ErrorLine => r.(stages := Mark(r.stages, Failed))
    case StopRequest =>
      if r.status == InProgress then r.(stopRequested := true, stages := Mark(r.stages, Stopped), name := "Stopping")
      else r.(stopRequested := true)
    case Exit(code) => r.(returnCode := Some(code))
    case Finalise(chain, plugins) =>
      if r.stopRequested then r.(status := RunStopped, stages := Mark(r.stages, Stopped))
      else if r.returnCode == Some(0) then
        r.(status := Completed,
           stage := if Any(chain, plugins) then |r.stages| else r.stage,
           name := PluginName(r.name, chain, plugins),
           stages := Settle(if Any(chain, plugins) then WithPlugin(r.stages) else r.stages))
      else r.(status := RunFailed, stages := Mark(r.stages, Failed))
  }

  function After(r: Run, es: seq<Event>): Run {
    if es == [] then r else Next(After(r, es[..|es| - 1]), es[|es| - 1])
  }

  function Start(count: nat): Run {
    Run(0, "", seq(count, _ => Pending), InProgress, false, None)
  }

  // ---- the tracker ----

  /** Stage `i + 1` is `stages[i]`. */
  class Tracker {
    var stage: int
    var name: string
    const stages: array<State>
    var status: Status
    var stopRequested: bool
    var returnCode: Option<int>

    function Now(): Run
      reads this, stages
    {
      Run(stage, name, stages[..], status, stopRequested, returnCode)
    }

    constructor (count: nat)
      ensures Now() == Start(count) && fresh(stages)
    {
      stage, name, status, stopRequested, returnCode := 0, "", InProgress, false, None;
      stages := new State[count](_ => Pending);
      new;
      assert stages[..] == seq(count, _ => Pending);
    }

    method SetStage(n: int, text: string)
      modifies this, stages
      ensures Now() == old(Now()).(stage := n, name := if text != "" then text else old(name),
                                   stages := Advance(old(stages[..]), n))
    {
      stage := n;
      if text != "" {
        name := text;
      }
      ghost var before := stages[..];
      for i := 0 to stages.Length
        modifies stages
        invariant forall j :: 0 <= j < stages.Length ==>
          stages[j] == if j < i then Reached(before[j], j + 1, n) else before[j]
      {
        if i + 1 < n {
          if stages[i] != Failed && stages[i] != Stopped {
            stages[i] := Complete;
          }
        } else if i + 1 == n {
          if stages[i] != Failed && stages[i] != Stopped {
            stages[i] := Running;
          }
        }
      }
      assert stages[..] == Advance(before, n);
    }

    method MarkActive(state: State)
      modifies stages
      ensures stages[..] == Mark(old(stages[..]), state)
    {
      for i := 0 to stages.Length
        invariant stages[..] == old(stages[..])
        invariant forall j :: 0 <= j < i ==> stages[j] != Running
      {
        if stages[i] == Running {
          MarkFirst(stages[..], state, i);
          stages[i] := state;
          return;
        }
      }
      MarkNone(stages[..], state);
    }

    /** `line` is the number and the name of a "STAGE n" line, if it is one. */
    method ApplyMarker(line: Option<(int, string)>, stageMap: map<int, int>)
      modifies this, stages
      ensures Now() == match line
                       case None => old(Now())
                       case Some(m) => Next(old(Now()), Marker(if m.0 in stageMap then stageMap[m.0] else m.0, m.1))
    {
      match line {
        case None =>
        case Some(m) =>
          var n := if m.0 in stageMap then stageMap[m.0] else m.0;
          if n < 1 {
            return;
          }
          SetStage(n, m.1);
      }
    }

    method Stop()
      modifies this, stages
      ensures Now() == Next(old(Now()), StopRequest)
    {
      stopRequested := true;
      if status == InProgress {
        MarkActive(Stopped);
        name := "Stopping";
      }
    }

    method RunPlugin(title: string)
      requires title != ""
      modifies this, stages
      ensures Now() == old(Now()).(stage := stages.Length, name := title, stages := WithPlugin(old(stages[..])))
    {
      SetStage(stages.Length, title);
      ghost var reached := stages[..];
      for i := 0 to stages.Length
        modifies stages
        invariant forall j :: 0 <= j < stages.Length ==>
          stages[j] == if j < i && j + 1 == stages.Length then Settled(reached[j]) else reached[j]
      {
        if i + 1 == stages.Length && stages[i] == Running {
          stages[i] := Complete;
        }
      }
      assert stages[..] == WithPlugin(old(stages[..]));
    }

    method RunPlugins(chain: bool, plugins: Plugins)
      modifies this, stages
      ensures Now() == if Any(chain, plugins)
                       then old(Now()).(stage := stages.Length, name := PluginName(old(name), chain, plugins),
                                        stages := WithPlugin(old(stages[..])))
                       else old(Now())
    {
      PluginTwice(stages[..]);
      if plugins.mitre && chain {
        RunPlugin("MITRE ATT&CK");
      }
      if plugins.arp && chain {
        RunPlugin("ARP Analysis");
      }
      if plugins.apt && chain {
        RunPlugin("APT Analysis");
      }
      if plugins.cisa && chain {
        RunPlugin("CISA Advisories");
      }
    }

    method FinaliseRun(chain: bool, plugins: Plugins)
      modifies this, stages
      ensures Now() == Next(old(Now()), Finalise(chain, plugins))
    {
      if stopRequested {
        status := RunStopped;
        MarkActive(Stopped);
      } else if returnCode == Some(0) {
        RunPlugins(chain, plugins);
        status := Completed;
        SettleAll();
      } else {
        status := RunFailed;
        MarkActive(Failed);
      }
    }

    method SettleAll()
      modifies stages
      ensures stages[..] == Settle(old(stages[..]))
    {
      for i := 0 to stages.Length
        invariant forall j :: 0 <= j < stages.Length ==>
          stages[j] == if j < i then Settled(old(stages[j])) else old(stages[j])
      {
        if stages[i] == Running || stages[i] == Complete {
          stages[i] := Complete;
        }
      }
      assert stages[..] == Settle(old(stages[..]));
    }
  }

  lemma {:induction false} MarkFirst(ss: seq<State>, state: State, i: nat)
    requires i < |ss| && ss[i] == Running && forall j :: 0 <= j < i ==> ss[j] != Running
    ensures Mark(ss, state) == ss[i := state]
  {
    if i > 0 {
      assert forall j :: 0 <= j < i - 1 ==> ss[1..][j] == ss[j + 1];
      MarkFirst(ss[1..], state, i - 1);
    }
  }

  lemma {:induction false} MarkNone(ss: seq<State>, state: State)
    requires forall j :: 0 <= j < |ss| ==> ss[j] != Running
    ensures Mark(ss, state) == ss
  {
    if ss != [] {
      assert forall j :: 0 <= j < |ss| - 1 ==> ss[1..][j] == ss[j + 1];
      MarkNone(ss[1..], state);
    }
  }

  /** Running a second plugin leaves the stages as the first left them. */
  lemma PluginTwice(ss: seq<State>)
    ensures WithPlugin(WithPlugin(ss)) == WithPlugin(ss) && |WithPlugin(ss)| == |ss|
  {
    var once, twice := WithPlugin(ss), WithPlugin(WithPlugin(ss));
    assert forall i :: 0 <= i < |ss| ==> twice[i] == once[i];
  }

  // ---- at most one stage runs ----

  function Active(ss: seq<State>): nat {
    if ss == [] then 0 else (if ss[0] == Running then 1 else 0) + Active(ss[1..])
  }

  predicate Over(s: State) {
    s == Complete || Fixed(s)
  }

  /** The stages at stage `m`: those before are over, that one runs unless it failed or was stopped, those
      after wait. */
  ghost predicate Shape(ss: seq<State>, m: int) {
    forall i :: 0 <= i < |ss| ==>
      && (i + 1 < m ==> Over(ss[i]))
      && (i + 1 == m ==> ss[i] == Running || Fixed(ss[i]))
      && (i + 1 > m ==> ss[i] == Pending)
  }

  lemma {:induction false} NoneActive(ss: seq<State>)
    ensures Active(ss) == 0 <==> forall i :: 0 <= i < |ss| ==> ss[i] != Running
  {
    if ss != [] {
      NoneActive(ss[1..]);
      assert forall i :: 0 < i < |ss| ==> ss[i] == ss[1..][i - 1];
      assert Active(ss[1..]) == 0 ==> forall i :: 0 < i < |ss| ==> ss[i] != Running;
    }
  }

  lemma {:induction false} OneActive(ss: seq<State>)
    ensures Active(ss) <= 1 <==> forall i, j :: 0 <= i < j < |ss| ==> ss[i] != Running || ss[j] != Running
  {
    if ss != [] {
      OneActive(ss[1..]);
      NoneActive(ss[1..]);
      forall i | 0 < i < |ss| ensures ss[i] == ss[1..][i - 1] {
      }
      if forall i, j :: 0 <= i < j < |ss| ==> ss[i] != Running || ss[j] != Running {
        assert forall i, j :: 0 <= i < j < |ss[1..]| ==> ss[1..][i] == ss[i + 1] && ss[1..][j] == ss[j + 1];
      }
    }
  }

  lemma {:induction false} MarkOne(ss: seq<State>, state: State)
    requires state != Running
    ensures Active(Mark(ss, state)) == if Active(ss) == 0 then 0 else Active(ss) - 1
  {
    if ss != [] {
      var r := Mark(ss, state);
      if ss[0] == Running {
        assert r[1..] == ss[1..];
      } else {
        assert r[1..] == Mark(ss[1..], state);
        MarkOne(ss[1..], state);
      }
    }
  }

  lemma {:induction false} MarkAt(ss: seq<State>, state: State, i: nat)
    requires i < |ss|
    ensures Mark(ss, state)[i] == ss[i] || (ss[i] == Running && Mark(ss, state)[i] == state)
  {
    if i > 0 && ss[0] != Running {
      MarkAt(ss[1..], state, i - 1);
    }
  }

  lemma SettleNone(ss: seq<State>)
    ensures Active(Settle(ss)) == 0
  {
    NoneActive(Settle(ss));
  }

  lemma ShapeOneActive(ss: seq<State>, m: int)
    requires Shape(ss, m)
    ensures Active(ss) <= 1
  {
    OneActive(ss);
  }

  lemma MarkKeepsShape(ss: seq<State>, m: int, state: State)
    requires Shape(ss, m) && Fixed(state)
    ensures Shape(Mark(ss, state), m)
  {
    forall i | 0 <= i < |ss| ensures Mark(ss, state)[i] == ss[i] || (ss[i] == Running && Mark(ss, state)[i] == state) {
      MarkAt(ss, state, i);
    }
  }

  /** An event of an orderly run: markers never go back, and once the run is over only stop requests come. */
  predicate Orderly(r: Run, e: Event) {
    && (r.status != InProgress ==> e.StopRequest?)
    && (e.Marker? && e.number >= 1 ==> e.number >= r.stage)
  }

  predicate OrderlyRun(r: Run, es: seq<Event>) {
    es == [] || (OrderlyRun(r, es[..|es| - 1]) && Orderly(After(r, es[..|es| - 1]), es[|es| - 1]))
  }

  ghost predicate Safe(r: Run) {
    if r.status == InProgress then r.stage >= 0 && Shape(r.stages, r.stage) else Active(r.stages) == 0
  }

  lemma StepSafe(r: Run, e: Event)
    requires Safe(r) && Orderly(r, e)
    ensures Safe(Next(r, e))
  {
    match e {
      case Marker(n, name) =>
      case ErrorLine => MarkKeepsShape(r.stages, r.stage, Failed);
      case StopRequest =>
        if r.status == InProgress {
          MarkKeepsShape(r.stages, r.stage, Stopped);
        }
      case Exit(code) =>
      case Finalise(chain, plugins) =>
        ShapeOneActive(r.stages, r.stage);
        MarkOne(r.stages, Stopped);
        MarkOne(r.stages, Failed);
        SettleNone(WithPlugin(r.stages));
        SettleNone(r.stages);
    }
  }

  lemma {:induction false} RunSafe(count: nat, es: seq<Event>)
    requires OrderlyRun(Start(count), es)
    ensures Safe(After(Start(count), es))
  {
    if es != [] {
      RunSafe(count, es[..|es| - 1]);
      StepSafe(After(Start(count), es[..|es| - 1]), es[|es| - 1]);
    }
  }

  /**
   At every point of an orderly run at most one stage runs, and while the run lasts it is the stage last
   announced, those before it being over and those after it waiting; when the run is over nothing runs.
   */
  lemma AtMostOneRuns(count: nat, es: seq<Event>)
    requires OrderlyRun(Start(count), es)
    ensures var r := After(Start(count), es);
            && Active(r.stages) <= 1
            && (r.status == InProgress ==> Shape(r.stages, r.stage))
            && (r.status != InProgress ==> Active(r.stages) == 0)
  {
    RunSafe(count, es);
    var r := After(Start(count), es);
    if r.status == InProgress {
      ShapeOneActive(r.stages, r.stage);
    }
  }

  /** Without the order of markers it fails, and exactly so: a marker goes back to a stage that may run again while
      another runs. */
  lemma GoingBack(ss: seq<State>, m: int, n: int)
    requires Shape(ss, m) && n >= 1
    ensures Active(Advance(ss, n)) > 1 <==> n < m <= |ss| && ss[m - 1] == Running && !Fixed(ss[n - 1])
  {
    var r := Advance(ss, n);
    OneActive(r);
    if n < m <= |ss| && ss[m - 1] == Running && !Fixed(ss[n - 1]) {
      assert r[n - 1] == Running && r[m - 1] == Running;
    }
  }

  /** A run in which the engine announces stage 1 again after stage 2, and then fails. */
  const BACKWARDS: seq<Event> :=
    [] + [Marker(1, "")] + [Marker(2, "")] + [Marker(1, "")] + [Exit(1)] +
          [Finalise(false, Plugins(false, false, false, false))]

  lemma AfterSnoc(r: Run, es: seq<Event>, e: Event)
    ensures After(r, es + [e]) == Next(After(r, es), e)
  {
    assert (es + [e])[..|es|] == es;
  }

  /** Two stages run at once on the way, and one is left running in the failed run. */
  lemma BackwardsLeavesOneRunning()
    ensures var r := After(Start(2), BACKWARDS);
            r.status == RunFailed && r.stages == [Failed, Running] && Active(r.stages) == 1
  {
    var es: seq<Event> := [];
    AfterSnoc(Start(2), es, Marker(1, ""));
    assert Advance([Pending, Pending], 1) == [Running, Pending];
    var one := es + [Marker(1, "")];
    assert Start(2).stages == [Pending, Pending];
    AfterSnoc(Start(2), one, Marker(2, ""));
    assert Advance([Running, Pending], 2) == [Complete, Running];
    AfterSnoc(Start(2), one + [Marker(2, "")], Marker(1, ""));
    assert Advance([Complete, Running], 1) == [Running, Running];
    AfterSnoc(Start(2), one + [Marker(2, "")] + [Marker(1, "")], Exit(1));
    AfterSnoc(Start(2), one + [Marker(2, "")] + [Marker(1, "")] + [Exit(1)],
              Finalise(false, Plugins(false, false, false, false)));
    hide After;
    assert Mark([Running, Running], Failed) == [Failed, Running];
    assert [Failed, Running][1..] == [Running] && [Running][1..] == [];
  }

  // ---- what is final ----

  lemma StepFixed(r: Run, e: Event, i: nat)
    requires i < |r.stages|
    ensures |Next(r, e).stages| == |r.stages|
    ensures Fixed(r.stages[i]) ==> Next(r, e).stages[i] == r.stages[i]
    ensures Orderly(r, e) && Safe(r) && r.stages[i] == Complete ==> Next(r, e).stages[i] == Complete
  {
    match e {
      case Finalise(chain, plugins) => FinaliseFixed(r, chain, plugins, i);
      case _ =>
        MarkAt(r.stages, Failed, i);
        MarkAt(r.stages, Stopped, i);
    }
  }

  lemma FinaliseFixed(r: Run, chain: bool, plugins: Plugins, i: nat)
    requires i < |r.stages|
    ensures var f := Next(r, Finalise(chain, plugins));
            && |f.stages| == |r.stages|
            && (Fixed(r.stages[i]) || r.stages[i] == Complete ==> f.stages[i] == r.stages[i])
  {
    hide Mark, Settle, WithPlugin, PluginName, Any;
    MarkAt(r.stages, Failed, i);
    MarkAt(r.stages, Stopped, i);
    SettleFixed(r.stages, i);
    PluginFixed(r.stages, i);
    SettleFixed(WithPlugin(r.stages), i);
  }

  lemma SettleFixed(ss: seq<State>, i: nat)
    requires i < |ss|
    ensures |Settle(ss)| == |ss| && (Fixed(ss[i]) || ss[i] == Complete ==> Settle(ss)[i] == ss[i])
  {
  }

  lemma PluginFixed(ss: seq<State>, i: nat)
    requires i < |ss|
    ensures |WithPlugin(ss)| == |ss|
    ensures Fixed(ss[i]) ==> WithPlugin(ss)[i] == ss[i]
    ensures ss[i] == Complete ==> WithPlugin(ss)[i] == Complete
  {
  }

  /** A failed or stopped stage never changes again, whatever the events and their order. */
  lemma {:induction false} FixedForever(r: Run, es: seq<Event>, i: nat)
    requires i < |r.stages| && Fixed(r.stages[i])
    ensures |After(r, es).stages| == |r.stages| && After(r, es).stages[i] == r.stages[i]
  {
    if es != [] {
      FixedForever(r, es[..|es| - 1], i);
      StepFixed(After(r, es[..|es| - 1]), es[|es| - 1], i);
    }
  }

  /** In an orderly run a completed stage stays complete. */
  lemma {:induction false} CompleteForever(r: Run, es: seq<Event>, i: nat)
    requires Safe(r) && OrderlyRun(r, es)
    requires i < |r.stages| && r.stages[i] == Complete
    ensures Safe(After(r, es)) && |After(r, es).stages| == |r.stages| && After(r, es).stages[i] == Complete
  {
    if es != [] {
      var before := After(r, es[..|es| - 1]);
      CompleteForever(r, es[..|es| - 1], i);
      StepSafe(before, es[|es| - 1]);
      StepFixed(before, es[|es| - 1], i);
    }
  }

  /** A finished run keeps its status and its stages, whatever is requested afterwards. */
  lemma {:induction false} OutcomeFinal(r: Run, es: seq<Event>)
    requires r.status != InProgress && OrderlyRun(r, es)
    ensures After(r, es).status == r.status && After(r, es).stages == r.stages
  {
    if es != [] {
      OutcomeFinal(r, es[..|es| - 1]);
    }
  }

  predicate AllOver(ss: seq<State>) {
    forall i :: 0 <= i < |ss| ==> Over(ss[i])
  }

  lemma SettledOver(ss: seq<State>)
    ensures AllOver(Settle(ss)) <==> Pending !in ss
    ensures AllOver(Settle(WithPlugin(ss)))
  {
    assert forall i :: 0 <= i < |ss| ==> (Over(Settle(ss)[i]) <==> ss[i] != Pending);
    var r := WithPlugin(ss);
    assert forall i :: 0 <= i < |r| ==> r[i] != Pending;
    assert forall i :: 0 <= i < |r| ==> Over(Settle(r)[i]);
  }

  /**
   Finalising any state at all: the status is terminal; a failed or stopped run is left with no running
   stage exactly when at most one was running; a completed one always is, and has every stage over exactly
   when a plugin ran or no stage was waiting.
   */
  lemma FinaliseExact(r: Run, chain: bool, plugins: Plugins)
    ensures var f := Next(r, Finalise(chain, plugins));
            && f.status != InProgress
            && (f.status != Completed ==> (Active(f.stages) == 0 <==> Active(r.stages) <= 1))
            && (f.status == Completed ==> Active(f.stages) == 0)
            && (f.status == Completed ==> (AllOver(f.stages) <==> Any(chain, plugins) || Pending !in r.stages))
  {
    if !r.stopRequested && r.returnCode == Some(0) {
      SettledOver(r.stages);
      SettleNone(if Any(chain, plugins) then WithPlugin(r.stages) else r.stages);
    } else {
      MarkOne(r.stages, Stopped);
      MarkOne(r.stages, Failed);
    }
  }

  // ---- what each event does, stage by stage ----

  /** Stage `i` runs, and none before it does. */
  predicate FirstRunning(ss: seq<State>, i: int) {
    0 <= i < |ss| && ss[i] == Running && forall j :: 0 <= j < i ==> ss[j] != Running
  }

  lemma {:induction false} MarkExact(ss: seq<State>, state: State)
    ensures forall i :: 0 <= i < |ss| ==> Mark(ss, state)[i] == if FirstRunning(ss, i) then state else ss[i]
  {
    if i :| FirstRunning(ss, i) {
      MarkFirst(ss, state, i);
    } else {
      NoneRunning(ss);
      MarkNone(ss, state);
    }
  }

  lemma {:induction false} NoneRunning(ss: seq<State>)
    requires forall i :: !FirstRunning(ss, i)
    ensures forall i :: 0 <= i < |ss| ==> ss[i] != Running
  {
    if ss != [] {
      var init := ss[..|ss| - 1];
      forall i ensures !FirstRunning(init, i) {
        assert !FirstRunning(ss, i);
      }
      NoneRunning(init);
      assert forall i :: 0 <= i < |init| ==> ss[i] == init[i];
      assert !FirstRunning(ss, |ss| - 1);
    }
  }

  /** Only the first running stage moves, to `state`. */
  predicate FirstMoves(before: seq<State>, after: seq<State>, state: State) {
    |after| == |before| && forall i :: 0 <= i < |before| ==>
      after[i] == if FirstRunning(before, i) then state else before[i]
  }

  /** Stages that failed or were stopped stay; of the others those before stage `n` complete and that one runs. */
  predicate Reaches(before: seq<State>, after: seq<State>, n: int) {
    |after| == |before| && forall i :: 0 <= i < |before| ==>
      after[i] == if before[i] == Failed || before[i] == Stopped then before[i]
                  else if i + 1 < n then Complete
                  else if i + 1 == n then Running
                  else before[i]
  }

  /** The same, but that nothing is left running. */
  predicate Completes(before: seq<State>, after: seq<State>, n: int) {
    |after| == |before| && forall i :: 0 <= i < |before| ==>
      after[i] == if before[i] == Failed || before[i] == Stopped then before[i]
                  else if i + 1 <= n || before[i] == Running then Complete
                  else before[i]
  }

  /** A marker of at least 1 reaches its stage, an error line fails the first running stage, a stop request stops it if
      the run is in progress. */
  lemma EventExact(r: Run, e: Event)
    ensures var f := Next(r, e);
            match e
            case Marker(n, name) =>
              if n < 1 then f == r
              else f == r.(stage := n, name := if name == "" then r.name else name, stages := f.stages)
                   && Reaches(r.stages, f.stages, n)
            case ErrorLine => f == r.(stages := f.stages) && FirstMoves(r.stages, f.stages, Failed)
            case StopRequest =>
              if r.status != InProgress then f == r.(stopRequested := true)
              else f == r.(stopRequested := true, name := "Stopping", stages := f.stages)
                   && FirstMoves(r.stages, f.stages, Stopped)
            case Exit(code) => f == r.(returnCode := Some(code))
            case Finalise(_, _) => true
  {
    MarkExact(r.stages, Failed);
    MarkExact(r.stages, Stopped);
  }

  /** A run that was asked to stop ends stopped, else one whose engine returned 0 ends completed, else it fails; a
      completed one has completed all its stages if a plugin ran, and else those that were running. */
  lemma OutcomeExact(r: Run, chain: bool, plugins: Plugins)
    ensures var f := Next(r, Finalise(chain, plugins));
            var ran := chain && (plugins.mitre || plugins.arp || plugins.apt || plugins.cisa);
            && f.stopRequested == r.stopRequested && f.returnCode == r.returnCode
            && (f.status == RunStopped <==> r.stopRequested)
            && (f.status == Completed <==> !r.stopRequested && r.returnCode == Some(0))
            && (f.status == RunFailed <==> !r.stopRequested && r.returnCode != Some(0))
            && (f.status == RunStopped ==> FirstMoves(r.stages, f.stages, Stopped))
            && (f.status == RunFailed ==> FirstMoves(r.stages, f.stages, Failed))
            && (f.status == Completed ==> Completes(r.stages, f.stages, if ran then |r.stages| else 0))
            && f.stage == (if f.status == Completed && ran then |r.stages| else r.stage)
            && f.name == if f.status != Completed || !ran then r.name
                         else if plugins.cisa then "CISA Advisories"
                         else if plugins.apt then "APT Analysis"
                         else if plugins.arp then "ARP Analysis"
                         else "MITRE ATT&CK"
  {
    MarkExact(r.stages, Failed);
    MarkExact(r.stages, Stopped);
    PluginCompletes(r.stages);
    hide Mark, WithPlugin;
  }

  lemma PluginCompletes(ss: seq<State>)
    ensures Completes(ss, Settle(WithPlugin(ss)), |ss|)
  {
  }
}
