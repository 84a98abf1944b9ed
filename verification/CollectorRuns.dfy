/** Runs of the collector told by their steps alone: which calls run their handler, when they are done, and what the
    cache then holds. */
module CollectorRuns {
  import opened Collector
  import opened Wrappers

  // ----- The log, told by the steps of the run

  /** The data types of the calls entered, in order. */
  function Enters(labels: seq<Label>): seq<int> {
    if labels == [] then []
    else
      var l, before := labels[|labels| - 1], Enters(labels[..|labels| - 1]);
      if l.Enter? then before + [l.dt] else before
  }

  /** The call of a data type that was the last to clear its cache. */
  function LastClear(labels: seq<Label>, dt: int): Option<nat> {
    if labels == [] then None
    else
      var l, before := labels[|labels| - 1], labels[..|labels| - 1];
      if l.Clear? && l.call < |Enters(before)| && Enters(before)[l.call] == dt then Some(l.call) else LastClear(before, dt)
  }

  /** What the handler that one call runs has put, later values replacing earlier ones. */
  function PutBy(labels: seq<Label>, c: nat): Records {
    if labels == [] then map[]
    else
      var l, before := labels[|labels| - 1], PutBy(labels[..|labels| - 1], c);
      if l.Put? && l.call == c then before[l.key := l.value] else before
  }

  lemma {:induction false} RunSnoc(s: State, labels: seq<Label>)
    requires labels != [] && IsRun(s, labels)
    ensures var before := labels[..|labels| - 1];
            && IsRun(s, before) && Enabled(Exec(s, before), labels[|labels| - 1])
            && Exec(s, labels) == Next(Exec(s, before), labels[|labels| - 1])
    decreases |labels|
  {
    hide Next, Enabled;
    if |labels| > 1 {
      RunSnoc(Next(s, labels[0]), labels[1..]);
      assert labels[1..][..|labels| - 2] == labels[..|labels| - 1][1..];
    } else {
      assert labels[..0] == [];
    }
  }

  /** The calls, and what the log says of their runs, are what the steps of the run say. */
  lemma {:induction false} ToldBySteps(dts: seq<int>, labels: seq<Label>)
    requires IsRun(Initial(dts), labels)
    ensures var s := Exec(Initial(dts), labels);
            && |s.calls| == |Enters(labels)| && (forall c :: 0 <= c < |s.calls| ==> s.calls[c].dt == Enters(labels)[c])
            && (forall dt :: Latest(s.log, dt) == LastClear(labels, dt))
            && (forall c :: PutsOf(s.log, c) == PutBy(labels, c))
    decreases |labels|
  {
    hide IsRun, Exec, Enabled, Inv;
    if labels == [] {
      NoSteps(dts);
    } else {
      var before := labels[..|labels| - 1];
      RunSnoc(Initial(dts), labels);
      ToldBySteps(dts, before);
      InitialInv(dts);
      RunKeepsInv(Initial(dts), before);
      var s := Exec(Initial(dts), before);
      StepLogs(s, labels[|labels| - 1]);
      forall dt ensures Latest(Exec(Initial(dts), labels).log, dt) == LastClear(labels, dt) { }
    }
  }

  lemma NoSteps(dts: seq<int>)
    ensures IsRun(Initial(dts), []) && Exec(Initial(dts), []) == Initial(dts)
    ensures (forall dt :: Latest([], dt) == None) && (forall c :: PutsOf([], c) == map[])
  {
  }

  /** What one step adds to the calls and the log. */
  lemma StepLogs(s: State, l: Label)
    requires Inv(s) && Enabled(s, l)
    ensures var s' := Next(s, l);
            && |s'.calls| == |s.calls| + (if l.Enter? then 1 else 0)
            && (forall c :: 0 <= c < |s'.calls| ==> s'.calls[c].dt == if c < |s.calls| then s.calls[c].dt else l.dt)
            && (l.Clear? ==> l.call < |s.calls|)
            && (forall dt :: Latest(s'.log, dt) ==
                  if l.Clear? && s.calls[l.call].dt == dt then Some(l.call) else Latest(s.log, dt))
            && (forall c :: PutsOf(s'.log, c) ==
                  if l.Put? && l.call == c then PutsOf(s.log, c)[l.key := l.value] else PutsOf(s.log, c))
  {
    hide OneToken, Latest, PutsOf;
    var s' := Next(s, l);
    if l.Clear? {
      forall dt ensures Latest(s'.log, dt) == if s.calls[l.call].dt == dt then Some(l.call) else Latest(s.log, dt) {
        LogGrows(s.log, Begin(l.call, s.calls[l.call].dt), dt, 0);
      }
      forall c ensures PutsOf(s'.log, c) == PutsOf(s.log, c) {
        LogGrows(s.log, Begin(l.call, s.calls[l.call].dt), 0, c);
      }
    } else if l.Put? {
      assert CallAt(s, l.call) && CacheAt(s, s.calls[l.call].dt);
      var e := Stored(l.call, s.calls[l.call].dt, l.key, l.value);
      forall dt ensures Latest(s'.log, dt) == Latest(s.log, dt) { LogGrows(s.log, e, dt, 0); }
      forall c ensures PutsOf(s'.log, c) == if l.call == c then PutsOf(s.log, c)[l.key := l.value] else PutsOf(s.log, c) {
        LogGrows(s.log, e, 0, c);
      }
    }
  }

  /** The cache of a data type after any run: what the handler that was the last to clear it has put since. */
  lemma CacheIsLastRun(dts: seq<int>, labels: seq<Label>, dt: int)
    requires IsRun(Initial(dts), labels)
    ensures var s := Exec(Initial(dts), labels);
            match LastClear(labels, dt)
            case None => dt !in s.cache
            case Some(c) => dt in s.cache && s.cache[dt] == PutBy(labels, c)
  {
    hide IsRun, Exec, Latest, PutsOf, LastClear, PutBy, Enters;
    var s := Exec(Initial(dts), labels);
    ToldBySteps(dts, labels);
    assert Reachable(s, dts);
    CacheIsLatestRun(s, dts, dt);
  }

  /** While a call runs its handler it can put anything, and a lookup then finds it, and under every other key and data
      type what it found before. */
  lemma PutIsFound(s: State, dts: seq<int>, c: nat, key: string, value: Fields)
    requires Reachable(s, dts) && c < |s.calls| && s.calls[c].stage.Running?
    ensures Enabled(s, Put(c, key, value))
    ensures var s', dt0 := Next(s, Put(c, key, value)), s.calls[c].dt;
            forall dt, k :: Find(s'.cache, dt, k) == if dt == dt0 && k == key then Some(value) else Find(s.cache, dt, k)
  {
    hide Reachable, Holders, Latest, PutsOf;
    ReachableInv(s, dts);
    assert s.calls[c].dt in s.tokens;
    NeverPanics(s, dts);
  }

  // ----- Calls end

  function Rank(stage: Stage): nat {
    match stage
    case Entered => 0
    case Took => 1
    case Waiting => 1
    case Running => 2
    case Held => 3
    case Left => 4
  }

  /** Every step of a call but a put takes it further, and no other step touches it. */
  lemma StepAdvances(s: State, l: Label, c: nat)
    requires Enabled(s, l) && c < |s.calls|
    ensures |s.calls| <= |Next(s, l).calls|
    ensures if !l.Enter? && !l.Put? && l.call == c then Rank(s.calls[c].stage) < Rank(Next(s, l).calls[c].stage)
            else Next(s, l).calls[c] == s.calls[c]
  {
  }

  /** How many steps a call takes, not counting puts. */
  function StepsOf(labels: seq<Label>, c: nat): nat {
    if labels == [] then 0
    else StepsOf(labels[1..], c) + if !labels[0].Enter? && !labels[0].Put? && labels[0].call == c then 1 else 0
  }

  lemma {:induction false} StepsCounted(s: State, labels: seq<Label>, c: nat)
    requires IsRun(s, labels) && c < |s.calls|
    ensures c < |Exec(s, labels).calls|
    ensures Rank(s.calls[c].stage) + StepsOf(labels, c) <= Rank(Exec(s, labels).calls[c].stage)
    decreases |labels|
  {
    hide Rank;
    if labels != [] {
      StepAdvances(s, labels[0], c);
      StepsCounted(Next(s, labels[0]), labels[1..], c);
    }
  }

  /** In any run a call takes at most four steps besides its puts, and one that has taken four has returned. */
  lemma CallEnds(s: State, labels: seq<Label>, c: nat)
    requires IsRun(s, labels) && c < |s.calls|
    ensures c < |Exec(s, labels).calls| && StepsOf(labels, c) <= 4
    ensures StepsOf(labels, c) == 4 ==> Exec(s, labels).calls[c].stage.Left?
  {
    StepsCounted(s, labels, c);
  }

  // ----- Who runs

  /** Another call of the same handler has the token. */
  ghost predicate Busy(s: State, c: nat) {
    c < |s.calls| && exists d :: 0 <= d < |s.calls| && d != c && HasToken(s.calls[d], s.calls[c].dt)
  }

  /** In this run the call selects at a moment when another one has the token. */
  ghost predicate Yields(s: State, labels: seq<Label>, c: nat)
    requires IsRun(s, labels)
    decreases |labels|
  {
    labels != [] && ((labels[0] == Select(c) && Busy(s, c)) || Yields(Next(s, labels[0]), labels[1..], c))
  }

  predicate Begun(stage: Stage) {
    stage.Running? || stage.Held? || stage.Left?
  }

  /** A call that does not find the token selects while another has it. */
  lemma SelectTakesOrYields(s: State, c: nat)
    requires Inv(s) && Enabled(s, Select(c))
    ensures var stage := Next(s, Select(c)).calls[c].stage; stage.Took? || (stage.Waiting? && Busy(s, c))
  {
    hide Cached, Holders;
    if s.tokens[s.calls[c].dt] == 0 {
      var d := SomeHolder(s.calls, s.calls[c].dt);
    }
  }

  lemma OtherStep(s: State, l: Label, c: nat)
    requires Enabled(s, l) && c < |s.calls| && (l.Enter? || l.call != c)
    ensures |s.calls| <= |Next(s, l).calls| && Next(s, l).calls[c] == s.calls[c]
  {
  }

  lemma {:induction false} RunsFromHere(s: State, labels: seq<Label>, c: nat)
    requires Inv(s) && IsRun(s, labels) && c < |s.calls|
    ensures var s' := Exec(s, labels);
            && c < |s'.calls| && s'.calls[c].dt == s.calls[c].dt
            && (s.calls[c].stage.Entered? && s'.calls[c].stage.Waiting? ==> Yields(s, labels, c))
            && (s.calls[c].stage.Entered? && Begun(s'.calls[c].stage) ==> Clear(c) in labels || Yields(s, labels, c))
            && (s.calls[c].stage.Took? ==> !s'.calls[c].stage.Waiting?)
            && (s.calls[c].stage.Took? && Begun(s'.calls[c].stage) ==> Clear(c) in labels)
    decreases |labels|
  {
    if labels != [] {
      var l := labels[0];
      StepKeepsInv(s, l);
      if l.Enter? || l.call != c {
        OtherStep(s, l, c);
      } else if l.Select? {
        SelectTakesOrYields(s, c);
      } else if l.Clear? {
        StepsCounted(Next(s, l), labels[1..], c);
      }
      hide Inv, Busy;
      RunsFromHere(Next(s, l), labels[1..], c);
    }
  }

  lemma {:induction false} RunsFromBefore(s: State, labels: seq<Label>, c: nat)
    requires Inv(s) && IsRun(s, labels) && |s.calls| <= c < |Exec(s, labels).calls|
    ensures Begun(Exec(s, labels).calls[c].stage) ==> Clear(c) in labels || Yields(s, labels, c)
    decreases |labels|
  {
    hide Inv, Busy;
    var s1 := Next(s, labels[0]);
    StepKeepsInv(s, labels[0]);
    if c < |s1.calls| {
      RunsFromHere(s1, labels[1..], c);
    } else {
      RunsFromBefore(s1, labels[1..], c);
    }
  }

  /** After any run, a call that has returned has cleared the cache and run its handler, or another call of that
      handler had the token when it selected. */
  lemma RanOrYielded(dts: seq<int>, labels: seq<Label>, c: nat)
    requires IsRun(Initial(dts), labels)
    requires c < |Exec(Initial(dts), labels).calls| && Exec(Initial(dts), labels).calls[c].stage.Left?
    ensures Clear(c) in labels || Yields(Initial(dts), labels, c)
  {
    hide Inv, IsRun, Exec, Yields;
    InitialInv(dts);
    RunsFromBefore(Initial(dts), labels, c);
  }

  // ----- A call that is alone

  /** Of the calls of its handler only `c` is under way, and if it has begun, its run is the latest. */
  ghost predicate Alone(s: State, c: nat) {
    && Inv(s) && c < |s.calls| && !s.calls[c].stage.Waiting?
    && (forall d :: 0 <= d < |s.calls| && d != c && s.calls[d].dt == s.calls[c].dt ==> s.calls[d].stage.Left?)
    && (Begun(s.calls[c].stage) ==> Latest(s.log, s.calls[c].dt) == Some(c))
  }

  lemma AloneStep(s: State, l: Label, c: nat)
    requires Alone(s, c) && Enabled(s, l) && l != Enter(s.calls[c].dt)
    ensures Alone(Next(s, l), c) && Next(s, l).calls[c].dt == s.calls[c].dt
  {
    hide Inv, Latest, PutsOf;
    StepKeepsInv(s, l);
    StepLogs(s, l);
    if l == Select(c) { SelectTakesOrYields(s, c); }
  }

  lemma {:induction false} AloneOverRun(s: State, labels: seq<Label>, c: nat)
    requires Alone(s, c) && IsRun(s, labels) && Enter(s.calls[c].dt) !in labels
    ensures Alone(Exec(s, labels), c) && Exec(s, labels).calls[c].dt == s.calls[c].dt
    decreases |labels|
  {
    hide Alone, Next, Enabled;
    assert c < |s.calls| by { InAlone(s, c); }
    if labels != [] {
      AloneStep(s, labels[0], c);
      InAlone(Next(s, labels[0]), c);
      AloneOverRun(Next(s, labels[0]), labels[1..], c);
    }
  }

  lemma InAlone(s: State, c: nat)
    requires Alone(s, c)
    ensures c < |s.calls|
  {
  }

  lemma {:induction false} RunConcat(s: State, a: seq<Label>, b: seq<Label>)
    requires IsRun(s, a) && IsRun(Exec(s, a), b)
    ensures IsRun(s, a + b) && Exec(s, a + b) == Exec(Exec(s, a), b)
    decreases |a|
  {
    hide Next, Enabled;
    if a == [] {
      assert a + b == b;
    } else {
      assert (a + b)[0] == a[0] && (a + b)[1..] == a[1..] + b;
      RunConcat(Next(s, a[0]), a[1..], b);
    }
  }

  /** A call that enters when every call of its handler has returned, and that returns before another enters, has run
      the handler, and the cache of its data type holds exactly what the handler has put. */
  lemma AloneRuns(dts: seq<int>, a: seq<Label>, dt: int, b: seq<Label>)
    requires IsRun(Initial(dts), a) && dt in Exec(Initial(dts), a).tokens
    requires var s := Exec(Initial(dts), a);
             && (forall d :: 0 <= d < |s.calls| && s.calls[d].dt == dt ==> s.calls[d].stage.Left?)
             && IsRun(Next(s, Enter(dt)), b) && Enter(dt) !in b
             && |s.calls| < |Exec(Next(s, Enter(dt)), b).calls| && Exec(Next(s, Enter(dt)), b).calls[|s.calls|].stage.Left?
    ensures var c, labels := |Exec(Initial(dts), a).calls|, a + ([Enter(dt)] + b);
            && IsRun(Initial(dts), labels) && LastClear(labels, dt) == Some(c)
            && dt in Exec(Initial(dts), labels).cache
            && Exec(Initial(dts), labels).cache[dt] == PutBy(labels, c)
  {
    hide IsRun, Exec, Latest, PutsOf, LastClear, PutBy, Enters, Inv;
    var s := Exec(Initial(dts), a);
    var c, s1 := |s.calls|, Next(s, Enter(dt));
    InitialInv(dts);
    RunKeepsInv(Initial(dts), a);
    StepKeepsInv(s, Enter(dt));
    assert Alone(s1, c);
    AloneOverRun(s1, b, c);
    FirstStep(s, Enter(dt), b);
    RunConcat(Initial(dts), a, [Enter(dt)] + b);
    var labels := a + ([Enter(dt)] + b);
    ToldBySteps(dts, labels);
    CacheIsLastRun(dts, labels, dt);
  }

  lemma FirstStep(s: State, l: Label, ls: seq<Label>)
    requires Enabled(s, l) && IsRun(Next(s, l), ls)
    ensures IsRun(s, [l] + ls) && Exec(s, [l] + ls) == Exec(Next(s, l), ls)
  {
    assert ([l] + ls)[1..] == ls;
  }
}
