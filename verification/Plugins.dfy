/** Plugin reconciliation in the agent: the daemon that loads, upgrades, shuts down and removes plugins, one
    step at a time, while their processes may exit at any moment. */
module Plugins {

  /** A started plugin. It is live until its process has exited and been waited for. */
  datatype Process = Process(name: string, version: string, live: bool, shutdown: bool)

  /** Where the daemon is; `todo` holds the names the current loop has still to visit. */
  datatype Position =
    | Idle
    | Loading(cfgs: map<string, string>, todo: set<string>)
    | Closing(cfgs: map<string, string>, todo: set<string>, name: string)
    | Starting(cfgs: map<string, string>, todo: set<string>, name: string)
    | Storing(cfgs: map<string, string>, todo: set<string>, name: string)
    | Removing(cfgs: map<string, string>, todo: set<string>)
    | Draining(cfgs: map<string, string>, todo: set<string>, name: string)
    | Stopping
    | Stopped

  /** `processes` lists every plugin ever started and `registry` gives the one registered under a name;
      `failed` are the names whose Load in the latest sync returned an error other than a duplicate. */
  datatype State = State(processes: seq<Process>, registry: map<string, nat>, at: Position, failed: set<string>)

  datatype Label =
    | Exit(process: nat)
    | Sync(cfgs: map<string, string>)
    | Load(name: string)
    | Closed
    | Start(ok: bool)
    | Store
    | Loaded
    | Visit(name: string)
    | Drained
    | Synced
    | Cancel
    | CancelDone

  predicate ValidName(name: string) {
    name != [] && forall c <- name :: '0' <= c <= '9' || 'A' <= c <= 'Z' || 'a' <= c <= 'z' || c == '_' || c == '-'
  }

  /** The registered plugin of that name is running. */
  predicate Running(s: State, name: string) {
    name in s.registry && s.registry[name] < |s.processes| && s.processes[s.registry[name]].live
  }

  /** The version registered under a name. */
  predicate At(s: State, name: string, version: string) {
    name in s.registry && s.registry[name] < |s.processes| && s.processes[s.registry[name]].version == version
  }

  predicate Enabled(s: State, l: Label) {
    match l
    case Exit(p) => p < |s.processes| && s.processes[p].live
    case Sync(_) => s.at.Idle?
    case Load(name) => s.at.Loading? && name in s.at.todo && name in s.at.cfgs
    case Closed => s.at.Closing? && !Running(s, s.at.name)
    case Start(_) => s.at.Starting? && s.at.name in s.at.cfgs
    case Store => s.at.Storing? && s.processes != []
    case Loaded => s.at.Loading? && s.at.todo == {}
    case Visit(name) => s.at.Removing? && name in s.at.todo
    case Drained => s.at.Draining? && !Running(s, s.at.name)
    case Synced => s.at.Removing? && s.at.todo == {}
    case Cancel => s.at.Idle?
    case CancelDone => s.at.Stopping? && forall name <- s.registry :: !Running(s, name)
  }

  /** The first part of Shutdown: mark the plugin; its pipes are closed if it is running. */
  function Mark(s: State, name: string): seq<Process> {
    if name in s.registry && s.registry[name] < |s.processes|
    then s.processes[s.registry[name] := s.processes[s.registry[name]].(shutdown := true)]
    else s.processes
  }

  function MarkAll(s: State): (r: seq<Process>)
    ensures |r| == |s.processes|
  {
    seq(|s.processes|, i requires 0 <= i < |s.processes| =>
        if i in s.registry.Values then s.processes[i].(shutdown := true) else s.processes[i])
  }

  /** A step of the daemon, or a process exiting. `product` names the agent itself. */
  function Next(s: State, l: Label, product: string): State
    requires Enabled(s, l)
  {
    match l
    case Exit(p) => s.(processes := s.processes[p := s.processes[p].(live := false)])
    case Sync(cfgs) => s.(at := Loading(cfgs, cfgs.Keys - {product}), failed := {})
    case Load(name) =>
      var rest, version := s.at.todo - {name}, s.at.cfgs[name];
      if !ValidName(name) then s.(at := Loading(s.at.cfgs, rest), failed := s.failed + {name})
      else if Running(s, name) && At(s, name, version) then s.(at := Loading(s.at.cfgs, rest))
      else if Running(s, name) then s.(at := Closing(s.at.cfgs, rest, name), processes := Mark(s, name))
      else s.(at := Starting(s.at.cfgs, rest, name))
    case Closed => s.(at := Starting(s.at.cfgs, s.at.todo, s.at.name))
    case Start(ok) =>
      if ok then s.(at := Storing(s.at.cfgs, s.at.todo, s.at.name),
                    processes := s.processes + [Process(s.at.name, s.at.cfgs[s.at.name], true, false)])
      else s.(at := Loading(s.at.cfgs, s.at.todo), failed := s.failed + {s.at.name})
    case Store => s.(at := Loading(s.at.cfgs, s.at.todo), registry := s.registry[s.at.name := |s.processes| - 1])
    case Loaded => s.(at := Removing(s.at.cfgs, s.registry.Keys))
    case Visit(name) =>
      if name in s.at.cfgs then s.(at := Removing(s.at.cfgs, s.at.todo - {name}))
      else s.(at := Draining(s.at.cfgs, s.at.todo - {name}, name), processes := Mark(s, name))
    case Drained => s.(at := Removing(s.at.cfgs, s.at.todo), registry := s.registry - {s.at.name})
    case Synced => s.(at := Idle)
    case Cancel => s.(at := Stopping, processes := MarkAll(s))
    case CancelDone => s.(at := Stopped, registry := map[])
  }

  function Initial(): State {
    State([], map[], Idle, {})
  }

  ghost predicate IsRun(s: State, labels: seq<Label>, product: string)
    decreases |labels|
  {
    labels == [] || (Enabled(s, labels[0]) && IsRun(Next(s, labels[0], product), labels[1..], product))
  }

  ghost function Exec(s: State, labels: seq<Label>, product: string): State
    requires IsRun(s, labels, product)
    decreases |labels|
  {
    if labels == [] then s else Exec(Next(s, labels[0], product), labels[1..], product)
  }

  // ----- What every step keeps

  /** The process Load has started and not stored yet. */
  predicate Pending(s: State, p: nat) {
    s.at.Storing? && p == |s.processes| - 1
  }

  predicate InLoad(at: Position) {
    at.Closing? || at.Starting? || at.Storing?
  }

  /** A valid name stands for a process of that name, and every live process is registered, but for the one being
      stored, whose predecessor has exited. */
  ghost predicate Registered(s: State, product: string) {
    && product !in s.registry
    && (forall name <- s.registry ::
          ValidName(name) && s.registry[name] < |s.processes| && s.processes[s.registry[name]].name == name)
    && (InLoad(s.at) ==> ValidName(s.at.name))
    && (forall p :: 0 <= p < |s.processes| && s.processes[p].live && !Pending(s, p) ==>
          s.processes[p].name in s.registry && s.registry[s.processes[p].name] == p)
    && (s.at.Starting? || s.at.Storing? ==> !Running(s, s.at.name))
    && (s.at.Storing? ==> s.processes != [] && s.processes[|s.processes| - 1].name == s.at.name)
    && (s.at.Stopped? ==> s.registry == map[] && forall p :: 0 <= p < |s.processes| ==> !s.processes[p].live)
  }

  /** The names the current sync has dealt with. */
  ghost function Done(s: State, product: string): set<string>
    requires !s.at.Idle? && !s.at.Stopping? && !s.at.Stopped?
  {
    if s.at.Removing? || s.at.Draining? then s.at.cfgs.Keys - {product}
    else s.at.cfgs.Keys - {product} - s.at.todo - if s.at.Loading? then {} else {s.at.name}
  }

  ghost predicate Syncing(s: State) {
    !s.at.Idle? && !s.at.Stopping? && !s.at.Stopped?
  }

  /** What the current sync has dealt with is registered at its version, unless its Load has failed. */
  ghost predicate Reconciling(s: State, product: string) {
    Syncing(s) ==>
      && s.failed <= Done(s, product)
      && (forall name <- Done(s, product) - s.failed :: name in s.at.cfgs && At(s, name, s.at.cfgs[name]))
      && (s.at.Loading? ==> s.at.todo <= s.at.cfgs.Keys - {product})
      && (InLoad(s.at) ==>
            s.at.todo + {s.at.name} <= s.at.cfgs.Keys - {product} && s.at.name !in s.at.todo)
      && (s.at.Storing? ==> s.processes != [] && s.processes[|s.processes| - 1].version == s.at.cfgs[s.at.name])
      && (s.at.Removing? ==> s.registry.Keys - s.at.cfgs.Keys <= s.at.todo <= s.registry.Keys)
      && (s.at.Draining? ==> s.registry.Keys - s.at.cfgs.Keys - {s.at.name} <= s.at.todo <= s.registry.Keys - {s.at.name}
                             && s.at.name in s.registry && s.at.name !in s.at.cfgs)
  }

  /** The daemon only waits for plugins it has told to stop. */
  ghost predicate WaitsForMarked(s: State) {
    && (s.at.Closing? || s.at.Draining? ==>
          s.at.name in s.registry && s.registry[s.at.name] < |s.processes| && s.processes[s.registry[s.at.name]].shutdown)
    && (s.at.Stopping? ==> forall name <- s.registry ::
          s.registry[name] < |s.processes| && s.processes[s.registry[name]].shutdown)
  }

  /** A running plugin has been told to stop only if the daemon is waiting for its exit. */
  ghost predicate Marked(s: State) {
    forall p :: 0 <= p < |s.processes| && s.processes[p].live && s.processes[p].shutdown ==>
      || s.at.Stopping?
      || ((s.at.Closing? || s.at.Draining?) && s.at.name in s.registry && s.registry[s.at.name] == p)
  }

  ghost predicate Inv(s: State, product: string) {
    Registered(s, product) && Reconciling(s, product) && WaitsForMarked(s) && Marked(s)
  }

  /** Marking plugins starts and ends no process. */
  lemma MarkFrame(s: State, name: string)
    ensures |Mark(s, name)| == |s.processes|
    ensures forall p :: 0 <= p < |s.processes| ==>
              var q := Mark(s, name)[p];
              q.name == s.processes[p].name && q.version == s.processes[p].version && q.live == s.processes[p].live
  {
  }

  /** Registered depends on the processes only through their names and whether they are live. */
  lemma RegisteredFrame(s: State, s': State, product: string)
    requires Registered(s, product) && s'.registry == s.registry && |s'.processes| == |s.processes|
    requires forall p :: 0 <= p < |s.processes| ==>
               s'.processes[p].name == s.processes[p].name && (s'.processes[p].live ==> s.processes[p].live)
    requires !s'.at.Stopped? || s.at.Stopped?
    requires InLoad(s'.at) ==> s'.at == s.at || ValidName(s'.at.name)
    requires s.at.Storing? <==> s'.at.Storing?
    requires s'.at.Storing? ==> s'.at.name == s.at.name
    requires s'.at.Starting? ==> s.at == s'.at || !Running(s, s'.at.name)
    ensures Registered(s', product)
  {
    hide ValidName;
  }

  lemma StartRegistered(s: State, l: Label, product: string)
    requires Registered(s, product) && Enabled(s, l) && l.Start?
    ensures Registered(Next(s, l, product), product)
  {
    hide ValidName;
  }

  lemma StoreRegistered(s: State, l: Label, product: string)
    requires Inv(s, product) && Enabled(s, l) && l.Store?
    ensures Registered(Next(s, l, product), product)
  {
    hide ValidName;
  }

  lemma DrainedRegistered(s: State, l: Label, product: string)
    requires Registered(s, product) && Enabled(s, l) && (l.Drained? || l.CancelDone?)
    ensures Registered(Next(s, l, product), product)
  {
    hide ValidName;
  }

  lemma ClosingValid(s: State, product: string)
    requires Registered(s, product) && s.at.Closing?
    ensures ValidName(s.at.name)
  {
  }

  lemma RegisteredStep(s: State, l: Label, product: string)
    requires Inv(s, product) && Enabled(s, l)
    ensures Registered(Next(s, l, product), product)
  {
    hide ValidName, Reconciling, Mark, WaitsForMarked, Registered, Marked;
    match l {
      case Start(_) => StartRegistered(s, l, product);
      case Store => StoreRegistered(s, l, product);
      case Drained => DrainedRegistered(s, l, product);
      case CancelDone => DrainedRegistered(s, l, product);
      case Load(name) =>
        MarkFrame(s, name);
        RegisteredFrame(s, Next(s, l, product), product);
      case Visit(name) =>
        MarkFrame(s, name);
        RegisteredFrame(s, Next(s, l, product), product);
      case Closed =>
        assert ValidName(s.at.name) by { ClosingValid(s, product); }
        RegisteredFrame(s, Next(s, l, product), product);
      case _ => RegisteredFrame(s, Next(s, l, product), product);
    }
  }

  /** Reconciling depends on the processes only through their versions. */
  lemma ReconcilingFrame(s: State, s': State, product: string)
    requires Reconciling(s, product) && s'.registry == s.registry && s'.at == s.at && s'.failed == s.failed
    requires |s'.processes| == |s.processes|
    requires forall p :: 0 <= p < |s.processes| ==> s'.processes[p].version == s.processes[p].version
    ensures Reconciling(s', product)
  {
  }

  /** Within the loop over the configuration. */
  lemma LoadReconciling(s: State, l: Label, product: string)
    requires Inv(s, product) && Enabled(s, l) && (l.Load? || l.Closed? || l.Start? || l.Store?)
    ensures Reconciling(Next(s, l, product), product)
  {
    hide ValidName, WaitsForMarked, Marked;
  }

  /** Within the loop over the registry. */
  lemma RemoveReconciling(s: State, l: Label, product: string)
    requires Inv(s, product) && Enabled(s, l) && (l.Loaded? || l.Visit? || l.Drained?)
    ensures Reconciling(Next(s, l, product), product)
  {
    hide WaitsForMarked, Marked;
  }

  lemma ReconcilingStep(s: State, l: Label, product: string)
    requires Inv(s, product) && Enabled(s, l)
    ensures Reconciling(Next(s, l, product), product)
  {
    if l.Exit? {
      hide Reconciling;
      ReconcilingFrame(s, Next(s, l, product), product);
    } else if l.Load? || l.Closed? || l.Start? || l.Store? {
      hide *;
      LoadReconciling(s, l, product);
    } else if l.Loaded? || l.Visit? || l.Drained? {
      hide *;
      RemoveReconciling(s, l, product);
    } else {
      hide WaitsForMarked, Marked, Registered, At;
    }
  }

  lemma MarkMarks(s: State, name: string)
    requires name in s.registry && s.registry[name] < |s.processes|
    ensures s.registry[name] < |Mark(s, name)| && Mark(s, name)[s.registry[name]].shutdown
  {
  }

  lemma ExitKeepsMarks(s: State, l: Label, product: string)
    requires WaitsForMarked(s) && Enabled(s, l) && l.Exit?
    ensures WaitsForMarked(Next(s, l, product))
  {
  }

  lemma CancelMarks(s: State, product: string)
    requires Registered(s, product) && Enabled(s, Cancel)
    ensures WaitsForMarked(Next(s, Cancel, product))
  {
    assert forall name <- s.registry :: s.registry[name] in s.registry.Values;
  }

  lemma WaitsStep(s: State, l: Label, product: string)
    requires Inv(s, product) && Enabled(s, l)
    ensures WaitsForMarked(Next(s, l, product))
  {
    hide ValidName, At, Mark, MarkAll, Marked;
    if l.Exit? {
      ExitKeepsMarks(s, l, product);
    } else if l.Cancel? {
      CancelMarks(s, product);
    } else {
      if l.Load? && Running(s, l.name) { MarkMarks(s, l.name); }
      if l.Visit? {
        assert l.name in s.registry.Keys;
        MarkMarks(s, l.name);
      }
      hide Registered, Reconciling, WaitsForMarked;
      WaitsElsewhere(s, l, product);
    }
  }

  lemma WaitsElsewhere(s: State, l: Label, product: string)
    requires Enabled(s, l) && !l.Exit? && !l.Cancel?
    requires l.Visit? || (l.Load? && Running(s, l.name)) ==>
               l.name in s.registry && s.registry[l.name] < |Mark(s, l.name)| && Mark(s, l.name)[s.registry[l.name]].shutdown
    ensures WaitsForMarked(Next(s, l, product))
  {
    hide ValidName, At, Mark, MarkAll;
  }

  lemma StepKeepsInv(s: State, l: Label, product: string)
    requires Inv(s, product) && Enabled(s, l)
    ensures Inv(Next(s, l, product), product)
  {
    RegisteredStep(s, l, product);
    ReconcilingStep(s, l, product);
    WaitsStep(s, l, product);
    MarkedStep(s, l, product);
  }

  lemma MarkedStep(s: State, l: Label, product: string)
    requires Inv(s, product) && Enabled(s, l)
    ensures Marked(Next(s, l, product))
  {
    hide ValidName, At, Reconciling, WaitsForMarked;
  }

  lemma {:induction false} RunKeepsInv(s: State, labels: seq<Label>, product: string)
    requires Inv(s, product) && IsRun(s, labels, product)
    ensures Inv(Exec(s, labels, product), product)
    decreases |labels|
  {
    hide Inv, Next, Enabled;
    if labels != [] {
      StepKeepsInv(s, labels[0], product);
      RunKeepsInv(Next(s, labels[0], product), labels[1..], product);
    }
  }

  ghost predicate Reachable(s: State, product: string) {
    exists labels :: IsRun(Initial(), labels, product) && Exec(Initial(), labels, product) == s
  }

  lemma ReachableInv(s: State, product: string)
    requires Reachable(s, product)
    ensures Inv(s, product)
  {
    hide Exec, IsRun;
    var labels :| IsRun(Initial(), labels, product) && Exec(Initial(), labels, product) == s;
    RunKeepsInv(Initial(), labels, product);
  }

  // ----- What holds in every reachable state

  /** At most one live process exists for a name. */
  lemma OneLiveEach(s: State, product: string, p: nat, q: nat)
    requires Reachable(s, product) && p < |s.processes| && q < |s.processes|
    requires s.processes[p].live && s.processes[q].live && s.processes[p].name == s.processes[q].name
    ensures p == q
  {
    hide Reachable, Reconciling, WaitsForMarked, Marked;
    ReachableInv(s, product);
  }

  /** Every live process is registered, unless Load has started it and is about to store it. */
  lemma LiveIsRegistered(s: State, product: string, p: nat)
    requires Reachable(s, product) && p < |s.processes| && s.processes[p].live
    ensures Pending(s, p) || (s.processes[p].name in s.registry && s.registry[s.processes[p].name] == p)
  {
    hide Reachable, Reconciling, WaitsForMarked, Marked;
    ReachableInv(s, product);
  }

  /** When a sync ends, only configured plugins are registered, and each of them whose Load did not fail is
      registered at the configured version. */
  lemma SyncReconciles(s: State, product: string)
    requires Reachable(s, product) && Enabled(s, Synced)
    ensures s.registry.Keys <= s.at.cfgs.Keys - {product} && s.failed <= s.at.cfgs.Keys - {product}
    ensures forall name <- s.at.cfgs.Keys - {product} - s.failed :: At(s, name, s.at.cfgs[name])
    ensures Next(s, Synced, product) == s.(at := Idle)
  {
    hide Reachable, WaitsForMarked, Marked;
    ReachableInv(s, product);
    assert forall name <- s.registry.Keys :: name in s.at.cfgs.Keys || name in s.registry.Keys - s.at.cfgs.Keys;
    assert Done(s, product) == s.at.cfgs.Keys - {product};
  }

  /** If no Load failed and all the plugins run when a sync ends, the state is settled. */
  lemma SyncSettles(s: State, product: string)
    requires Reachable(s, product) && Enabled(s, Synced) && s.failed == {}
    requires forall name <- s.registry :: Running(s, name)
    ensures Settled(Next(s, Synced, product), s.at.cfgs, product)
  {
    hide Reachable, WaitsForMarked, ValidName, Reconciling, Marked;
    SyncReconciles(s, product);
    ReachableInv(s, product);
  }

  /** The daemon is never stuck: it is idle or stopped, it can move, or it waits for the exit of a plugin
      it has told to stop. */
  lemma NeverStuck(s: State, product: string)
    requires Reachable(s, product)
    ensures s.at.Idle? || s.at.Stopped?
            || (exists l :: Enabled(s, l) && !l.Exit?)
            || (exists p: nat :: Enabled(s, Exit(p)) && s.processes[p].shutdown)
  {
    hide Reachable;
    ReachableInv(s, product);
    var at := s.at;
    if at.Loading? && at.todo != {} {
      var name :| name in at.todo;
      assert Enabled(s, Load(name));
    } else if at.Loading? {
      assert Enabled(s, Loaded);
    } else if at.Starting? {
      assert Enabled(s, Start(true));
    } else if at.Storing? {
      assert Enabled(s, Store);
    } else if at.Removing? && at.todo != {} {
      var name :| name in at.todo;
      assert Enabled(s, Visit(name));
    } else if at.Removing? {
      assert Enabled(s, Synced);
    } else if at.Closing? || at.Draining? {
      if Running(s, at.name) {
        assert Enabled(s, Exit(s.registry[at.name]));
      } else {
        assert Enabled(s, if at.Closing? then Closed else Drained);
      }
    } else if at.Stopping? {
      if name :| name in s.registry && Running(s, name) {
        assert Enabled(s, Exit(s.registry[name]));
      } else {
        assert Enabled(s, CancelDone);
      }
    }
  }

  // ----- A second, identical sync

  /** The configured plugins, and no others, are registered at their versions and run. */
  ghost predicate Settled(s: State, cfgs: map<string, string>, product: string) {
    && s.registry.Keys == cfgs.Keys - {product}
    && forall name <- s.registry :: ValidName(name) && Running(s, name) && At(s, name, cfgs[name])
  }

  /** The step is one of the daemon's and at most starts a sync with the same configuration. */
  predicate Same(l: Label, cfgs: map<string, string>) {
    !l.Exit? && !l.Cancel? && (l.Sync? ==> l.cfgs == cfgs)
  }

  predicate Quiet(at: Position, cfgs: map<string, string>, product: string) {
    at.Idle? || ((at.Loading? || at.Removing?) && at.cfgs == cfgs && at.todo <= cfgs.Keys - {product})
  }

  lemma QuietStep(s: State, l: Label, cfgs: map<string, string>, product: string)
    requires Settled(s, cfgs, product) && Quiet(s.at, cfgs, product) && Enabled(s, l) && Same(l, cfgs)
    ensures var s' := Next(s, l, product);
            s'.processes == s.processes && s'.registry == s.registry && Quiet(s'.at, cfgs, product)
  {
    hide ValidName;
  }

  /** While all plugins run, syncing the same configuration again, any number of times, starts, stops and
      registers nothing. */
  lemma {:induction false} SameSyncChangesNothing(s: State, labels: seq<Label>, cfgs: map<string, string>, product: string)
    requires Settled(s, cfgs, product) && Quiet(s.at, cfgs, product) && IsRun(s, labels, product)
    requires forall i :: 0 <= i < |labels| ==> Same(labels[i], cfgs)
    ensures var s' := Exec(s, labels, product); s'.processes == s.processes && s'.registry == s.registry
    decreases |labels|
  {
    hide Next, Enabled, ValidName;
    if labels != [] {
      QuietStep(s, labels[0], cfgs, product);
      SameSyncChangesNothing(Next(s, labels[0], product), labels[1..], cfgs, product);
    }
  }
}
