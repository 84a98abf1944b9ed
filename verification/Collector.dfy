/** The collector's handlers: any number of concurrent calls of a handler share one token, and the call that
    finds it in the channel does the work and refills the cache of its data type. */
module Collector {
  import opened Wrappers

  type Fields = map<string, string>
  type Records = map<string, Fields>

  // ----- The cache

  /** The records of each data type. */
  type Store = map<int, Records>

  function Find(m: Store, dt: int, key: string): Option<Fields> {
    if dt in m && key in m[dt] then Some(m[dt][key]) else None
  }

  function Cleared(m: Store, dt: int): Store {
    m[dt := map[]]
  }

  /** Storing into a data type that was never cleared is a panic. */
  function Stores(m: Store, dt: int, key: string, value: Fields): Store
    requires dt in m
  {
    m[dt := m[dt][key := value]]
  }

  class Cache {
    var m: Store

    constructor ()
      ensures m == map[]
    {
      m := map[];
    }

    method Get(dt: int, key: string) returns (r: Option<Fields>)
      ensures r == Find(m, dt, key)
    {
      r := None;
      if dt in m {
        var records := m[dt];
        if key in records {
          r := Some(records[key]);
        }
      }
    }

    /** After a put, a lookup finds the value put under its key and what it found before under any other. */
    method Put(dt: int, key: string, value: Fields)
      requires dt in m
      modifies this
      ensures m == Stores(old(m), dt, key, value)
      ensures forall d, k :: Find(m, d, k) == if d == dt && k == key then Some(value) else Find(old(m), d, k)
    {
      var records := m[dt];
      records := records[key := value];
      m := m[dt := records];
    }

    /** After a clear, a lookup finds nothing of that data type and what it found before of any other. */
    method Clear(dt: int)
      modifies this
      ensures m == Cleared(old(m), dt)
      ensures forall d, k :: Find(m, d, k) == if d == dt then None else Find(old(m), d, k)
    {
      m := m[dt := map[]];
    }
  }

  // ----- Calls of Handle, step by step

  /** Took, Running and Held calls have the token. */
  datatype Stage = Entered | Took | Running | Waiting | Held | Left

  datatype Call = Call(dt: int, stage: Stage)

  /** What a run does to the cache. */
  datatype Event = Begin(call: nat, dt: int) | Stored(call: nat, dt: int, key: string, value: Fields)

  /** `tokens` counts what is in the channel of each handler; `panicked` is whether a Put met a missing map. */
  datatype State = State(tokens: map<int, nat>, calls: seq<Call>, cache: Store, panicked: bool, log: seq<Event>)

  datatype Label =
    | Enter(dt: int)
    | Select(call: nat)
    | Clear(call: nat)
    | Put(call: nat, key: string, value: Fields)
    | Finish(call: nat)
    | Receive(call: nat)
    | Return(call: nat)

  predicate InStage(s: State, c: nat, stage: Stage) {
    c < |s.calls| && s.calls[c].stage == stage && s.calls[c].dt in s.tokens
  }

  /** The channel holds one token at most: receiving waits for it, returning it waits for room. */
  predicate Enabled(s: State, l: Label) {
    match l
    case Enter(dt) => dt in s.tokens
    case Select(c) => InStage(s, c, Entered)
    case Clear(c) => InStage(s, c, Took)
    case Put(c, _, _) => InStage(s, c, Running)
    case Finish(c) => InStage(s, c, Running)
    case Receive(c) => InStage(s, c, Waiting) && s.tokens[s.calls[c].dt] > 0
    case Return(c) => InStage(s, c, Held) && s.tokens[s.calls[c].dt] < 1
  }

  function Move(s: State, c: nat, stage: Stage): (s': State)
    requires c < |s.calls|
  {
    s.(calls := s.calls[c := s.calls[c].(stage := stage)])
  }

  function Next(s: State, l: Label): State
    requires Enabled(s, l)
  {
    match l
    case Enter(dt) => s.(calls := s.calls + [Call(dt, Entered)])
    case Select(c) =>
      var dt := s.calls[c].dt;
      if s.tokens[dt] > 0 then Move(s, c, Took).(tokens := s.tokens[dt := s.tokens[dt] - 1]) else Move(s, c, Waiting)
    case Clear(c) =>
      var dt := s.calls[c].dt;
      Move(s, c, Running).(cache := Cleared(s.cache, dt), log := s.log + [Begin(c, dt)])
    case Put(c, key, value) =>
      var dt := s.calls[c].dt;
      if dt !in s.cache then s.(panicked := true)
      else s.(cache := Stores(s.cache, dt, key, value), log := s.log + [Stored(c, dt, key, value)])
    case Finish(c) => Move(s, c, Held)
    case Receive(c) =>
      var dt := s.calls[c].dt;
      Move(s, c, Held).(tokens := s.tokens[dt := s.tokens[dt] - 1])
    case Return(c) =>
      var dt := s.calls[c].dt;
      Move(s, c, Left).(tokens := s.tokens[dt := s.tokens[dt] + 1])
  }

  /** AddHandler makes a channel with its token in it. */
  function AddHandler(tokens: map<int, nat>, dt: int): map<int, nat> {
    tokens[dt := 1]
  }

  function AddHandlers(dts: seq<int>): (tokens: map<int, nat>)
    ensures tokens.Keys == (set dt | dt in dts) && forall dt <- tokens :: tokens[dt] == 1
  {
    if dts == [] then map[]
    else
      assert dts == dts[..|dts| - 1] + [dts[|dts| - 1]];
      AddHandler(AddHandlers(dts[..|dts| - 1]), dts[|dts| - 1])
  }

  /** The engine with its handlers added, before any call. */
  function Initial(dts: seq<int>): State {
    State(AddHandlers(dts), [], map[], false, [])
  }

  ghost predicate IsRun(s: State, labels: seq<Label>)
    decreases |labels|
  {
    labels == [] || (Enabled(s, labels[0]) && IsRun(Next(s, labels[0]), labels[1..]))
  }

  ghost function Exec(s: State, labels: seq<Label>): State
    requires IsRun(s, labels)
    decreases |labels|
  {
    if labels == [] then s else Exec(Next(s, labels[0]), labels[1..])
  }

  // ----- The token

  predicate HasToken(call: Call, dt: int) {
    call.dt == dt && (call.stage.Took? || call.stage.Running? || call.stage.Held?)
  }

  function Holders(calls: seq<Call>, dt: int): nat {
    if calls == [] then 0
    else Holders(calls[..|calls| - 1], dt) + if HasToken(calls[|calls| - 1], dt) then 1 else 0
  }

  lemma {:induction false} HoldersUpdate(calls: seq<Call>, c: nat, call: Call, dt: int)
    requires c < |calls|
    ensures Holders(calls[c := call], dt) + (if HasToken(calls[c], dt) then 1 else 0) ==
            Holders(calls, dt) + if HasToken(call, dt) then 1 else 0
  {
    var n := |calls| - 1;
    if c == n {
      assert calls[c := call][..n] == calls[..n];
    } else {
      HoldersUpdate(calls[..n], c, call, dt);
      assert calls[c := call][..n] == calls[..n][c := call];
    }
  }

  lemma {:induction false} HolderCounted(calls: seq<Call>, c: nat, dt: int)
    requires c < |calls| && HasToken(calls[c], dt)
    ensures Holders(calls, dt) >= 1
  {
    if c < |calls| - 1 { HolderCounted(calls[..|calls| - 1], c, dt); }
  }

  lemma {:induction false} HoldersCounted(calls: seq<Call>, c: nat, d: nat, dt: int)
    requires c < d < |calls| && HasToken(calls[c], dt) && HasToken(calls[d], dt)
    ensures Holders(calls, dt) >= 2
  {
    if d < |calls| - 1 {
      HoldersCounted(calls[..|calls| - 1], c, d, dt);
    } else {
      HolderCounted(calls[..d], c, dt);
    }
  }

  lemma {:induction false} SomeHolder(calls: seq<Call>, dt: int) returns (c: nat)
    requires Holders(calls, dt) > 0
    ensures c < |calls| && HasToken(calls[c], dt)
  {
    c := |calls| - 1;
    if !HasToken(calls[c], dt) { c := SomeHolder(calls[..c], dt); }
  }

  /** Every handler's token is in its channel or with one call. */
  ghost predicate OneToken(s: State) {
    && (forall dt <- s.tokens :: s.tokens[dt] + Holders(s.calls, dt) == 1)
    && (forall c :: 0 <= c < |s.calls| ==> s.calls[c].dt in s.tokens)
  }

  lemma OneTokenStep(s: State, l: Label)
    requires OneToken(s) && Enabled(s, l)
    ensures OneToken(Next(s, l))
  {
    hide Holders;
    var s' := Next(s, l);
    forall dt | dt in s.tokens ensures dt in s'.tokens && s'.tokens[dt] + Holders(s'.calls, dt) == 1 {
      if l.Enter? {
        EntersWithout(s.calls, l.dt, dt);
      } else if !l.Put? {
        HoldersUpdate(s.calls, l.call, s'.calls[l.call], dt);
      }
    }
  }

  lemma EntersWithout(calls: seq<Call>, entering: int, dt: int)
    ensures Holders(calls + [Call(entering, Entered)], dt) == Holders(calls, dt)
  {
    assert (calls + [Call(entering, Entered)])[..|calls|] == calls;
  }

  // ----- The cache

  /** The call whose run of a data type began last. */
  function Latest(log: seq<Event>, dt: int): Option<nat> {
    if log == [] then None
    else
      var e := log[|log| - 1];
      if e.Begin? && e.dt == dt then Some(e.call) else Latest(log[..|log| - 1], dt)
  }

  /** What one call has put, later values replacing earlier ones. */
  function PutsOf(log: seq<Event>, c: nat): Records {
    if log == [] then map[]
    else
      var e, before := log[|log| - 1], PutsOf(log[..|log| - 1], c);
      if e.Stored? && e.call == c then before[e.key := e.value] else before
  }

  predicate NotBegun(s: State, c: nat) {
    c < |s.calls| ==> s.calls[c].stage.Entered? || s.calls[c].stage.Took? || s.calls[c].stage.Waiting?
  }

  /** The cache of a data type holds what its latest run has put. */
  ghost predicate CacheAt(s: State, dt: int) {
    var latest := Latest(s.log, dt);
    && (dt in s.cache <==> latest.Some?)
    && (latest.Some? ==>
          && s.cache[dt] == PutsOf(s.log, latest.value)
          && latest.value < |s.calls| && s.calls[latest.value].dt == dt)
  }

  /** A call puts nothing before its run begins, and while it runs no other run of its data type begins. */
  ghost predicate CallAt(s: State, c: nat) {
    && (NotBegun(s, c) ==> PutsOf(s.log, c) == map[])
    && (c < |s.calls| && s.calls[c].stage.Running? ==> Latest(s.log, s.calls[c].dt) == Some(c))
  }

  ghost predicate Cached(s: State) {
    !s.panicked && (forall dt :: CacheAt(s, dt)) && forall c: nat :: CallAt(s, c)
  }

  lemma LogGrows(log: seq<Event>, e: Event, dt: int, c: nat)
    ensures Latest(log + [e], dt) == if e.Begin? && e.dt == dt then Some(e.call) else Latest(log, dt)
    ensures PutsOf(log + [e], c) ==
            if e.Stored? && e.call == c then PutsOf(log, c)[e.key := e.value] else PutsOf(log, c)
  {
    assert (log + [e])[..|log|] == log;
  }

  /** A call that has the token keeps every other call of its data type from running. */
  lemma OnlyRunner(s: State, c: nat, d: nat)
    requires OneToken(s) && c < |s.calls| && d < |s.calls| && s.calls[c].dt == s.calls[d].dt
    requires HasToken(s.calls[c], s.calls[c].dt) && HasToken(s.calls[d], s.calls[d].dt)
    ensures c == d
  {
    if c < d { HoldersCounted(s.calls, c, d, s.calls[c].dt); }
    if d < c { HoldersCounted(s.calls, d, c, s.calls[c].dt); }
  }

  lemma ClearCached(s: State, l: Label)
    requires OneToken(s) && Cached(s) && Enabled(s, l) && l.Clear?
    ensures Cached(Next(s, l))
  {
    hide Latest, PutsOf, OneToken;
    var s', e := Next(s, l), Begin(l.call, s.calls[l.call].dt);
    assert CallAt(s, l.call);
    forall dt ensures CacheAt(s', dt) {
      assert CacheAt(s, dt);
      LogGrows(s.log, e, dt, l.call);
      if Latest(s.log, dt).Some? { LogGrows(s.log, e, dt, Latest(s.log, dt).value); }
    }
    forall c: nat ensures CallAt(s', c) {
      assert CallAt(s, c);
      LogGrows(s.log, e, e.dt, c);
      if c < |s.calls| {
        LogGrows(s.log, e, s.calls[c].dt, c);
        if s.calls[c].stage.Running? && s.calls[c].dt == e.dt { OnlyRunner(s, l.call, c); }
      }
    }
  }

  lemma PutCached(s: State, l: Label)
    requires Cached(s) && Enabled(s, l) && l.Put?
    ensures Cached(Next(s, l))
  {
    hide Latest, PutsOf;
    var dt0 := s.calls[l.call].dt;
    var s', e := Next(s, l), Stored(l.call, dt0, l.key, l.value);
    assert CallAt(s, l.call) && CacheAt(s, dt0);
    forall dt ensures CacheAt(s', dt) {
      assert CacheAt(s, dt);
      LogGrows(s.log, e, dt, l.call);
      if Latest(s.log, dt).Some? { LogGrows(s.log, e, dt, Latest(s.log, dt).value); }
    }
    forall c: nat ensures CallAt(s', c) {
      assert CallAt(s, c);
      LogGrows(s.log, e, dt0, c);
      if c < |s.calls| { LogGrows(s.log, e, s.calls[c].dt, c); }
    }
  }

  lemma CachedFrame(s: State, l: Label)
    requires Cached(s) && Enabled(s, l) && !l.Clear? && !l.Put?
    ensures Cached(Next(s, l))
  {
    hide Latest, PutsOf;
    var s' := Next(s, l);
    forall dt ensures CacheAt(s', dt) { assert CacheAt(s, dt); }
    forall c: nat ensures CallAt(s', c) { assert CallAt(s, c); }
  }

  // ----- Every run

  ghost predicate Inv(s: State) {
    OneToken(s) && Cached(s)
  }

  lemma InitialInv(dts: seq<int>)
    ensures Inv(Initial(dts))
  {
  }

  lemma StepKeepsInv(s: State, l: Label)
    requires Inv(s) && Enabled(s, l)
    ensures Inv(Next(s, l))
  {
    hide OneToken, Cached, Next;
    OneTokenStep(s, l);
    if l.Clear? {
      ClearCached(s, l);
    } else if l.Put? {
      PutCached(s, l);
    } else {
      CachedFrame(s, l);
    }
  }

  lemma {:induction false} RunKeepsInv(s: State, labels: seq<Label>)
    requires Inv(s) && IsRun(s, labels)
    ensures Inv(Exec(s, labels))
    decreases |labels|
  {
    hide Inv, Next, Enabled;
    if labels != [] {
      StepKeepsInv(s, labels[0]);
      RunKeepsInv(Next(s, labels[0]), labels[1..]);
    }
  }

  ghost predicate Reachable(s: State, dts: seq<int>) {
    exists labels :: IsRun(Initial(dts), labels) && Exec(Initial(dts), labels) == s
  }

  lemma ReachableInv(s: State, dts: seq<int>)
    requires Reachable(s, dts)
    ensures Inv(s)
  {
    hide Inv, Exec, IsRun;
    InitialInv(dts);
    var labels :| IsRun(Initial(dts), labels) && Exec(Initial(dts), labels) == s;
    RunKeepsInv(Initial(dts), labels);
  }

  /** A handler's token is in its channel or with exactly one call. */
  lemma TokenIsSomewhere(s: State, dts: seq<int>, dt: int)
    requires Reachable(s, dts) && dt in s.tokens
    ensures s.tokens[dt] + Holders(s.calls, dt) == 1
  {
    hide Reachable, Cached, Holders;
    ReachableInv(s, dts);
  }

  /** Runs of one handler never overlap. */
  lemma RunsNeverOverlap(s: State, dts: seq<int>, c: nat, d: nat)
    requires Reachable(s, dts) && InStage(s, c, Running) && InStage(s, d, Running) && s.calls[c].dt == s.calls[d].dt
    ensures c == d
  {
    hide Reachable, Cached, OneToken;
    ReachableInv(s, dts);
    OnlyRunner(s, c, d);
  }

  /** Returning the token never blocks, and a call that waits for it is never left waiting for good: some call
      of the same handler can always move. */
  lemma NeverStuck(s: State, dts: seq<int>, c: nat)
    requires Reachable(s, dts) && c < |s.calls| && !s.calls[c].stage.Left?
    ensures s.calls[c].stage.Held? ==> Enabled(s, Return(c))
    ensures exists l :: Enabled(s, l) && !l.Enter? && l.call < |s.calls| && s.calls[l.call].dt == s.calls[c].dt
  {
    hide Reachable, Cached, Holders;
    ReachableInv(s, dts);
    var dt := s.calls[c].dt;
    if HasToken(s.calls[c], dt) { HolderCounted(s.calls, c, dt); }
    if s.calls[c].stage.Entered? {
      assert Enabled(s, Select(c));
    } else if s.tokens[dt] > 0 {
      assert Enabled(s, Receive(c));
    } else {
      var d := SomeHolder(s.calls, dt);
      assert Enabled(s, if s.calls[d].stage.Took? then Clear(d) else if s.calls[d].stage.Running? then Finish(d) else Return(d));
    }
  }

  /** Put never meets a missing map. */
  lemma NeverPanics(s: State, dts: seq<int>)
    requires Reachable(s, dts)
    ensures !s.panicked
    ensures forall c: nat :: InStage(s, c, Running) ==> s.calls[c].dt in s.cache
  {
    hide Reachable, OneToken, Latest, PutsOf;
    ReachableInv(s, dts);
    forall c: nat | InStage(s, c, Running) ensures s.calls[c].dt in s.cache {
      assert CallAt(s, c) && CacheAt(s, s.calls[c].dt);
    }
  }

  /** The cache of a data type holds exactly what the latest run of its handler has put. */
  lemma CacheIsLatestRun(s: State, dts: seq<int>, dt: int)
    requires Reachable(s, dts)
    ensures dt in s.cache <==> Latest(s.log, dt).Some?
    ensures dt in s.cache ==> s.cache[dt] == PutsOf(s.log, Latest(s.log, dt).value)
  {
    hide Reachable, OneToken, Latest, PutsOf;
    ReachableInv(s, dts);
    assert CacheAt(s, dt);
  }

  /** What Get returns in every reachable state: what the latest run of that data type put last under the key. */
  lemma GetIsLatestRun(s: State, dts: seq<int>, dt: int, key: string)
    requires Reachable(s, dts)
    ensures Find(s.cache, dt, key) ==
            match Latest(s.log, dt) { case None => None case Some(c) => Find(map[dt := PutsOf(s.log, c)], dt, key) }
  {
    hide Reachable, Latest, PutsOf;
    CacheIsLatestRun(s, dts, dt);
  }
}
