/** Whole runs of the plugin daemon: why a Load fails, what a sync leaves running, that it ends, and what stopping the
    agent stops. */
module PluginRuns {
  import opened Plugins

  // ----- Why a Load fails

  /** In this run a start of the plugin of that name fails. */
  ghost predicate StartFails(s: State, labels: seq<Label>, name: string, product: string)
    requires IsRun(s, labels, product)
    decreases |labels|
  {
    labels != [] &&
    ((labels[0] == Start(false) && s.at.name == name) || StartFails(Next(s, labels[0], product), labels[1..], name, product))
  }

  /** Within a sync, what one step adds to the failures. */
  lemma FailedStep(s: State, l: Label, name: string, product: string)
    requires Inv(s, product) && Syncing(s) && Enabled(s, l) && !l.Synced?
    ensures var s' := Next(s, l, product);
            && Syncing(s') && s'.at.cfgs == s.at.cfgs && Done(s, product) <= Done(s', product)
            && (name in s'.failed <==>
                || name in s.failed
                || (l == Start(false) && s.at.name == name)
                || (name in Done(s', product) - Done(s, product) && !ValidName(name)))
  {
    hide WaitsForMarked, Marked, ValidName, Running, At;
  }

  lemma {:induction false} FailedOverRun(s: State, labels: seq<Label>, name: string, product: string)
    requires Inv(s, product) && Syncing(s) && IsRun(s, labels, product) && forall l <- labels :: !l.Synced?
    ensures var s' := Exec(s, labels, product);
            && Syncing(s') && s'.at.cfgs == s.at.cfgs && Done(s, product) <= Done(s', product)
            && (name in s'.failed <==>
                || name in s.failed
                || StartFails(s, labels, name, product)
                || (name in Done(s', product) - Done(s, product) && !ValidName(name)))
    decreases |labels|
  {
    hide Inv, Next, Enabled, Done, Syncing, ValidName;
    if labels != [] {
      FailedStep(s, labels[0], name, product);
      StepKeepsInv(s, labels[0], product);
      FailedOverRun(Next(s, labels[0], product), labels[1..], name, product);
    }
  }

  /** A whole sync: `labels` lead from the Sync of `cfgs` to where it can end. */
  ghost predicate WholeSync(s: State, cfgs: map<string, string>, labels: seq<Label>, product: string) {
    && s.at.Idle?
    && IsRun(Next(s, Sync(cfgs), product), labels, product)
    && (forall l <- labels :: !l.Synced?)
    && Enabled(Exec(Next(s, Sync(cfgs), product), labels, product), Synced)
  }

  /** An ASCII digit, letter, underscore or dash, by its code. */
  predicate NameCode(i: int) {
    48 <= i <= 57 || 65 <= i <= 90 || 97 <= i <= 122 || i == 95 || i == 45
  }

  ghost predicate BadName(name: string) {
    name == "" || exists c <- name :: !NameCode(c as int)
  }

  lemma BadNameExactly(name: string)
    ensures BadName(name) <==> !ValidName(name)
  {
  }

  /** Over every sync, the Load of a configured plugin fails exactly when its name is not valid or its start fails. */
  lemma FailsExactly(s: State, cfgs: map<string, string>, labels: seq<Label>, name: string, product: string)
    requires Reachable(s, product) && WholeSync(s, cfgs, labels, product)
    ensures var s0 := Next(s, Sync(cfgs), product);
            var end := Exec(s0, labels, product);
            && end.at.cfgs == cfgs
            && (name in end.failed <==>
                (name in cfgs.Keys - {product} && BadName(name)) || StartFails(s0, labels, name, product))
  {
    hide Reachable, Inv, Exec, IsRun, ValidName, BadName, StartFails;
    BadNameExactly(name);
    var s0 := Next(s, Sync(cfgs), product);
    ReachableInv(s, product);
    StepKeepsInv(s, Sync(cfgs), product);
    FailedOverRun(s0, labels, name, product);
    assert Done(s0, product) == {};
  }

  lemma {:induction false} NoStartFails(s: State, labels: seq<Label>, name: string, product: string)
    requires IsRun(s, labels, product) && Start(false) !in labels
    ensures !StartFails(s, labels, name, product)
    decreases |labels|
  {
    hide Next, Enabled;
    if labels != [] { NoStartFails(Next(s, labels[0], product), labels[1..], name, product); }
  }

  lemma {:induction false} ReachableRun(s: State, labels: seq<Label>, more: seq<Label>, product: string)
    requires IsRun(s, labels, product) && IsRun(Exec(s, labels, product), more, product)
    ensures IsRun(s, labels + more, product)
    ensures Exec(s, labels + more, product) == Exec(Exec(s, labels, product), more, product)
    decreases |labels|
  {
    hide Next, Enabled;
    if labels == [] {
      assert labels + more == more;
    } else {
      assert (labels + more)[0] == labels[0] && (labels + more)[1..] == labels[1..] + more;
      ReachableRun(Next(s, labels[0], product), labels[1..], more, product);
    }
  }

  lemma StillReachable(s: State, more: seq<Label>, product: string)
    requires Reachable(s, product) && IsRun(s, more, product)
    ensures Reachable(Exec(s, more, product), product)
  {
    hide Exec, IsRun;
    var labels :| IsRun(Initial(), labels, product) && Exec(Initial(), labels, product) == s;
    ReachableRun(Initial(), labels, more, product);
  }

  lemma SyncStillReachable(s: State, cfgs: map<string, string>, labels: seq<Label>, product: string)
    requires Reachable(s, product) && WholeSync(s, cfgs, labels, product)
    ensures Reachable(Exec(Next(s, Sync(cfgs), product), labels, product), product)
  {
    hide Reachable;
    assert ([Sync(cfgs)] + labels)[1..] == labels;
    StillReachable(s, [Sync(cfgs)] + labels, product);
  }

  /** A sync of valid names in which no start fails ends with exactly the configured plugins registered, at the
      configured versions. */
  lemma SyncOfValidNames(s: State, cfgs: map<string, string>, labels: seq<Label>, product: string)
    requires Reachable(s, product) && WholeSync(s, cfgs, labels, product)
    requires (forall name <- cfgs.Keys - {product} :: !BadName(name)) && Start(false) !in labels
    ensures var end := Exec(Next(s, Sync(cfgs), product), labels, product);
            && end.failed == {} && end.registry.Keys == cfgs.Keys - {product}
            && forall name <- cfgs.Keys - {product} :: At(end, name, cfgs[name])
  {
    hide Reachable, Exec, IsRun, ValidName, BadName, StartFails;
    var s0 := Next(s, Sync(cfgs), product);
    var end := Exec(s0, labels, product);
    FailsExactly(s, cfgs, labels, product, product);
    forall name ensures name !in end.failed {
      FailsExactly(s, cfgs, labels, name, product);
      NoStartFails(s0, labels, name, product);
    }
    SyncStillReachable(s, cfgs, labels, product);
    SyncReconciles(end, product);
  }

  // ----- Who runs

  /** Over every run, a process is live exactly when it was before or was started, and has not exited. */
  lemma {:induction false} LiveExactly(s: State, labels: seq<Label>, p: nat, product: string)
    requires IsRun(s, labels, product)
    ensures var s' := Exec(s, labels, product);
            && |s.processes| <= |s'.processes|
            && (p < |s'.processes| ==>
                  (s'.processes[p].live <==> (p < |s.processes| ==> s.processes[p].live) && Exit(p) !in labels))
    decreases |labels|
  {
    if labels != [] {
      LiveStep(s, labels[0], p, product);
      hide Next, Enabled;
      LiveExactly(Next(s, labels[0], product), labels[1..], p, product);
    }
  }

  lemma LiveStep(s: State, l: Label, p: nat, product: string)
    requires Enabled(s, l)
    ensures var s' := Next(s, l, product);
            && |s.processes| <= |s'.processes| <= |s.processes| + 1
            && (p < |s'.processes| ==>
                  (s'.processes[p].live <==> (p < |s.processes| ==> s.processes[p].live) && l != Exit(p)))
            && (p >= |s.processes| ==> l != Exit(p))
  {
    hide ValidName, Running, At;
  }

  /** Since `s0`, where the sync began, no process came back to life, and none of the plugins dealt with is one that
      had exited by then. */
  ghost predicate Fresh(s0: State, s: State, product: string) {
    && Syncing(s) && |s0.processes| <= |s.processes|
    && (forall p :: 0 <= p < |s0.processes| && s.processes[p].live ==> s0.processes[p].live)
    && (s.at.Storing? ==> |s0.processes| < |s.processes|)
    && (forall name <- Done(s, product) - s.failed ::
          name in s.registry && (s.registry[name] < |s0.processes| ==> s0.processes[s.registry[name]].live))
  }

  lemma FreshStep(s0: State, s: State, l: Label, product: string)
    requires Inv(s, product) && Fresh(s0, s, product) && Enabled(s, l) && !l.Synced?
    ensures Fresh(s0, Next(s, l, product), product)
  {
    hide WaitsForMarked, Marked, ValidName, At, Registered;
  }

  lemma {:induction false} FreshOverRun(s0: State, s: State, labels: seq<Label>, product: string)
    requires Inv(s, product) && Fresh(s0, s, product) && IsRun(s, labels, product) && forall l <- labels :: !l.Synced?
    ensures Fresh(s0, Exec(s, labels, product), product)
    decreases |labels|
  {
    hide Inv, Next, Enabled, Fresh;
    if labels != [] {
      FreshStep(s0, s, labels[0], product);
      StepKeepsInv(s, labels[0], product);
      FreshOverRun(s0, Next(s, labels[0], product), labels[1..], product);
    }
  }

  /** A sync of valid names in which no start fails restarts what had exited: every configured plugin is registered at
      its version with a process that was live when the sync began or was started by it. If none of these exits
      during the sync, it ends settled. */
  lemma SyncRestarts(s: State, cfgs: map<string, string>, labels: seq<Label>, product: string)
    requires Reachable(s, product) && WholeSync(s, cfgs, labels, product)
    requires (forall name <- cfgs.Keys - {product} :: !BadName(name)) && Start(false) !in labels
    ensures var end := Exec(Next(s, Sync(cfgs), product), labels, product);
            && (forall name <- end.registry ::
                  end.registry[name] < |s.processes| ==> s.processes[end.registry[name]].live)
            && ((forall name <- end.registry :: Exit(end.registry[name]) !in labels) ==>
                  Settled(Next(end, Synced, product), cfgs, product))
  {
    hide Reachable, Exec, IsRun, ValidName, BadName, StartFails, Inv;
    var s0 := Next(s, Sync(cfgs), product);
    var end := Exec(s0, labels, product);
    SyncOfValidNames(s, cfgs, labels, product);
    FailsExactly(s, cfgs, labels, product, product);
    SyncStillReachable(s, cfgs, labels, product);
    ReachableInv(s, product);
    StepKeepsInv(s, Sync(cfgs), product);
    FreshOverRun(s0, s0, labels, product);
    if forall name <- end.registry :: Exit(end.registry[name]) !in labels {
      ReachableInv(end, product);
      forall name <- end.registry ensures Running(end, name) {
        RegisteredThere(end, name, product);
        LiveExactly(s0, labels, end.registry[name], product);
      }
      SyncSettles(end, product);
    }
  }

  lemma RegisteredThere(s: State, name: string, product: string)
    requires Inv(s, product) && name in s.registry
    ensures s.registry[name] < |s.processes|
  {
    hide Reconciling, WaitsForMarked, Marked, ValidName;
  }

  /** From within any sync there is a way to its end on which no start fails; plugins exit only when told to. */
  lemma {:induction false} SyncCanEnd(s: State, product: string) returns (labels: seq<Label>)
    requires Inv(s, product) && Syncing(s)
    ensures IsRun(s, labels, product) && (forall l <- labels :: !l.Synced?) && Start(false) !in labels
    ensures Enabled(Exec(s, labels, product), Synced)
    decreases Work(s), if (s.at.Closing? || s.at.Draining?) && Running(s, s.at.name) then 1 else 0
  {
    hide Work, Registered, Reconciling, WaitsForMarked, Marked;
    if Enabled(s, Synced) {
      labels := [];
    } else {
      var l := WayOn(s, product);
      StepKeepsInv(s, l, product);
      StepWorks(s, l, product);
      SyncGoesOn(s, l, product);
      var rest := SyncCanEnd(Next(s, l, product), product);
      labels := [l] + rest;
      assert labels[1..] == rest;
    }
  }

  lemma WayOn(s: State, product: string) returns (l: Label)
    requires Inv(s, product) && Syncing(s) && !Enabled(s, Synced)
    ensures Enabled(s, l) && !l.Synced? && !l.Sync? && !l.Cancel? && l != Start(false)
    ensures l.Exit? ==> (s.at.Closing? || s.at.Draining?) && Running(s, s.at.name) && l.process == s.registry[s.at.name]
  {
    hide Registered, WaitsForMarked, Marked;
    match s.at
    case Loading(_, todo) =>
      if todo == {} {
        l := Loaded;
      } else {
        var name :| name in todo;
        l := Load(name);
      }
    case Closing(_, _, name) => l := if Running(s, name) then Exit(s.registry[name]) else Closed;
    case Starting(_, _, _) => l := Start(true);
    case Storing(_, _, _) => l := Store;
    case Removing(_, todo) =>
      var name :| name in todo;
      l := Visit(name);
    case Draining(_, _, name) => l := if Running(s, name) then Exit(s.registry[name]) else Drained;
  }

  lemma SyncGoesOn(s: State, l: Label, product: string)
    requires Syncing(s) && Enabled(s, l) && !l.Synced? && !l.Sync? && !l.Cancel?
    ensures Syncing(Next(s, l, product))
    ensures l.Exit? && (s.at.Closing? || s.at.Draining?) && s.at.name in s.registry && s.registry[s.at.name] == l.process ==>
              !Running(Next(s, l, product), s.at.name) && Next(s, l, product).at == s.at
  {
    hide ValidName, At;
  }

  /** An idle daemon can be given any configuration, and then there is a whole sync of it in which no start fails. */
  lemma SyncIsPossible(s: State, cfgs: map<string, string>, product: string) returns (labels: seq<Label>)
    requires Reachable(s, product) && s.at.Idle?
    ensures WholeSync(s, cfgs, labels, product) && Start(false) !in labels
  {
    hide Reachable, Inv, Exec, IsRun;
    ReachableInv(s, product);
    StepKeepsInv(s, Sync(cfgs), product);
    labels := SyncCanEnd(Next(s, Sync(cfgs), product), product);
  }

  // ----- Stopping

  /** The daemon is stopping: what runs has been told to stop. */
  ghost predicate Halting(s: State) {
    && (s.at.Stopping? || s.at.Stopped?)
    && forall p :: 0 <= p < |s.processes| && s.processes[p].live ==> s.processes[p].shutdown
  }

  lemma HaltingStep(s: State, l: Label, product: string)
    requires Halting(s) && Enabled(s, l)
    ensures Halting(Next(s, l, product)) && (l.Exit? || l.CancelDone?)
    ensures |Next(s, l, product).processes| == |s.processes|
    ensures s.at.Stopped? ==> Next(s, l, product).at.Stopped?
  {
  }

  lemma CancelHalts(s: State, product: string)
    requires Inv(s, product) && Enabled(s, Cancel)
    ensures Halting(Next(s, Cancel, product))
  {
    hide Reconciling, WaitsForMarked, ValidName;
    forall p | 0 <= p < |s.processes| && s.processes[p].live ensures MarkAll(s)[p].shutdown {
      assert s.registry[s.processes[p].name] in s.registry.Values;
    }
  }

  lemma {:induction false} HaltingOverRun(s: State, labels: seq<Label>, product: string)
    requires Halting(s) && IsRun(s, labels, product)
    ensures var s' := Exec(s, labels, product);
            Halting(s') && |s'.processes| == |s.processes| && (s'.at.Stopped? <==> s.at.Stopped? || CancelDone in labels)
    ensures forall l <- labels :: l.Exit? || l.CancelDone?
    decreases |labels|
  {
    hide Halting;
    if labels != [] {
      HaltingStep(s, labels[0], product);
      HaltingOverRun(Next(s, labels[0], product), labels[1..], product);
      assert labels[0].CancelDone? ==> Next(s, labels[0], product).at.Stopped?;
      assert labels[0].Exit? ==> Next(s, labels[0], product).at == s.at;
      assert labels == [labels[0]] + labels[1..];
    }
  }

  /** From Cancel on no plugin is started or synced and every running one has been told to stop; the daemon is done
      exactly when it says so, and then none runs and none is registered. */
  lemma CancelStops(s: State, labels: seq<Label>, product: string)
    requires Reachable(s, product) && s.at.Idle? && IsRun(Next(s, Cancel, product), labels, product)
    ensures forall l <- labels :: l.Exit? || l.CancelDone?
    ensures var end := Exec(Next(s, Cancel, product), labels, product);
            && Halting(end) && |end.processes| == |s.processes| && (end.at.Stopped? <==> CancelDone in labels)
            && (end.at.Stopped? ==> end.registry == map[] && forall p :: 0 <= p < |end.processes| ==> !end.processes[p].live)
  {
    hide Reachable, Exec, IsRun, Halting, Reconciling, WaitsForMarked, Marked, ValidName;
    var s0 := Next(s, Cancel, product);
    ReachableInv(s, product);
    CancelHalts(s, product);
    HaltingOverRun(s0, labels, product);
    StepKeepsInv(s, Cancel, product);
    RunKeepsInv(s0, labels, product);
  }

  /** A running plugin has been told to stop only if the daemon is waiting for its exit. */
  lemma ToldOnlyToStop(s: State, product: string, p: nat)
    requires Reachable(s, product) && p < |s.processes| && s.processes[p].live && s.processes[p].shutdown
    ensures s.at.Stopping? || ((s.at.Closing? || s.at.Draining?) && s.at.name == s.processes[p].name)
  {
    hide Reachable, Reconciling, WaitsForMarked;
    ReachableInv(s, product);
  }

  // ----- A sync ends

  /** How many plugins will be registered at most once the ones named are. */
  function Many(keys: set<string>, names: set<string>): nat {
    |keys + names|
  }

  function Count(names: set<string>): nat {
    |names|
  }

  /** A bound on the steps the daemon has still to take before it is idle or stopped. */
  function Work(s: State): nat {
    match s.at
    case Idle => 0
    case Loading(_, todo) => 4 * Count(todo) + 2 * Many(s.registry.Keys, todo) + 2
    case Closing(_, todo, name) => 4 * Count(todo) + 3 + 2 * Many(s.registry.Keys, todo + {name}) + 2
    case Starting(_, todo, name) => 4 * Count(todo) + 2 + 2 * Many(s.registry.Keys, todo + {name}) + 2
    case Storing(_, todo, name) => 4 * Count(todo) + 1 + 2 * Many(s.registry.Keys, todo + {name}) + 2
    case Removing(_, todo) => 2 * Count(todo) + 1
    case Draining(_, todo, _) => 2 * Count(todo) + 2
    case Stopping => 1
    case Stopped => 0
  }

  lemma OneLess(todo: set<string>, name: string)
    requires name in todo
    ensures Count(todo - {name}) == Count(todo) - 1 && todo - {name} + {name} == todo
  {
  }

  lemma NoMore(a: set<string>, b: set<string>)
    requires a <= b
    ensures |a| <= |b|
  {
    if a != b {
      var x :| x in b && x !in a;
      NoMore(a, b - {x});
    }
  }

  lemma ManyMore(keys: set<string>, a: set<string>, b: set<string>)
    requires a <= b
    ensures Many(keys, a) <= Many(keys, b)
  {
    NoMore(keys + a, keys + b);
  }

  lemma LoadWorks(s: State, l: Label, product: string)
    requires Enabled(s, l) && l.Load?
    ensures Work(Next(s, l, product)) < Work(s)
  {
    hide ValidName, Running, At, Mark, Many, Count;
    OneLess(s.at.todo, l.name);
    ManyMore(s.registry.Keys, s.at.todo - {l.name}, s.at.todo);
  }

  lemma StartWorks(s: State, l: Label, product: string)
    requires Enabled(s, l) && (l.Closed? || l.Start?)
    ensures Work(Next(s, l, product)) < Work(s)
  {
    hide ValidName, Running, At, Many, Count;
    ManyMore(s.registry.Keys, s.at.todo, s.at.todo + {s.at.name});
  }

  lemma StoreWorks(s: State, product: string)
    requires Enabled(s, Store)
    ensures Work(Next(s, Store, product)) < Work(s)
  {
    hide Count;
    var p := |s.processes| - 1;
    assert s.registry[s.at.name := p].Keys + s.at.todo == s.registry.Keys + (s.at.todo + {s.at.name});
  }

  lemma LoadedWorks(s: State, product: string)
    requires Enabled(s, Loaded)
    ensures Work(Next(s, Loaded, product)) < Work(s)
  {
    assert s.registry.Keys + {} == s.registry.Keys;
  }

  lemma RemoveWorks(s: State, l: Label, product: string)
    requires Enabled(s, l) && (l.Visit? || l.Drained? || l.Synced? || l.CancelDone?)
    ensures Work(Next(s, l, product)) < Work(s)
  {
    hide ValidName, Running, At, Mark, Many, Count;
    if l.Visit? { OneLess(s.at.todo, l.name); }
  }

  /** Every step of the daemon, but for taking up a sync or its own end, leaves less to do; exits leave as much. */
  lemma StepWorks(s: State, l: Label, product: string)
    requires Enabled(s, l) && !l.Sync? && !l.Cancel?
    ensures if l.Exit? then Work(Next(s, l, product)) == Work(s) else Work(Next(s, l, product)) < Work(s)
  {
    if l.Exit? {
      hide Running, At;
    } else {
      hide *;
      if l.Load? {
        LoadWorks(s, l, product);
      } else if l.Closed? || l.Start? {
        StartWorks(s, l, product);
      } else if l.Store? {
        StoreWorks(s, product);
      } else if l.Loaded? {
        LoadedWorks(s, product);
      } else {
        RemoveWorks(s, l, product);
      }
    }
  }

  function DaemonSteps(labels: seq<Label>): nat {
    if labels == [] then 0 else DaemonSteps(labels[1..]) + if labels[0].Exit? then 0 else 1
  }

  lemma {:induction false} StepsBounded(s: State, labels: seq<Label>, product: string)
    requires IsRun(s, labels, product) && forall l <- labels :: !l.Sync? && !l.Cancel?
    ensures DaemonSteps(labels) + Work(Exec(s, labels, product)) <= Work(s)
    decreases |labels|
  {
    hide Work, Next, Enabled;
    if labels != [] {
      StepWorks(s, labels[0], product);
      StepsBounded(Next(s, labels[0], product), labels[1..], product);
    }
  }

  /** Every sync ends after at most six steps of the daemon for each configured plugin, two for each registered one and
      two more. */
  lemma SyncEnds(s: State, cfgs: map<string, string>, labels: seq<Label>, product: string)
    requires s.at.Idle? && IsRun(Next(s, Sync(cfgs), product), labels, product)
    requires forall l <- labels :: !l.Sync? && !l.Cancel?
    ensures DaemonSteps(labels) <= 6 * |cfgs.Keys| + 2 * |s.registry.Keys| + 2
  {
    hide IsRun, Exec, DaemonSteps;
    var todo := cfgs.Keys - {product};
    StepsBounded(Next(s, Sync(cfgs), product), labels, product);
    NoMore(todo, cfgs.Keys);
    UnionSize(s.registry.Keys, todo);
  }

  lemma UnionSize(a: set<string>, b: set<string>)
    ensures |a + b| <= |a| + |b|
  {
    assert a + b == a + (b - a);
    NoMore(b - a, b);
  }
}
