/** The queue of delayed puts of the kernel module, step by step over any number of threads. Its nodes come
    from the object pool, or from the heap when the pool has none to give. */
module DelayedPut {

  /** A delayed_put_node; `request` stands for the file or files_struct to be put. */
  datatype Node = Node(id: int, request: int, flagPool: bool)

  /** Where a thread is. */
  datatype Position =
    | Idle
    | Asked(request: int)      // has a reference to put, and no node yet
    | Filled(node: Node)       // has filled in a node
    | Counted(node: Node)      // has raised the active counter
    | Unlinked(node: Node)     // has taken the head of the queue
    | Performed(node: Node)    // has put the reference
    | Released                 // has given the node back

  /** `pool` and `heap` are the nodes of the pool and those allocated from the heap; `free` are the nodes the
      pool has to give. `asked` and `done` are the puts deferred and carried out, `ref` the pool's count. */
  datatype State = State(
    pool: set<int>, heap: set<int>, free: set<int>,
    threads: seq<Position>,
    queue: seq<Node>,
    active: int,
    asked: set<int>, done: multiset<int>,
    ref: int, finished: bool)

  datatype Label =
    | Ask(thread: nat, request: int)
    | Pop(thread: nat, id: int)
    | Allocate(thread: nat, id: int)
    | Count(thread: nat)
    | Link(thread: nat)
    | Unlink(thread: nat)
    | Perform(thread: nat)
    | Release(thread: nat)
    | Uncount(thread: nat)
    | Fini

  predicate Enabled(s: State, l: Label) {
    (l.Fini? || l.thread < |s.threads|) &&
    match l
    case Ask(t, request) => s.threads[t].Idle? && request !in s.asked
    case Pop(t, id) => s.threads[t].Asked? && id in s.free
    case Allocate(t, id) => s.threads[t].Asked? && id !in s.pool && id !in s.heap
    case Count(t) => s.threads[t].Filled?
    case Link(t) => s.threads[t].Counted?
    case Unlink(t) => s.threads[t].Idle? && s.queue != []
    case Perform(t) => s.threads[t].Unlinked?
    case Release(t) => s.threads[t].Performed?
    case Uncount(t) => s.threads[t].Released?
    case Fini => s.queue == [] && !s.finished
  }

  function Next(s: State, l: Label): State
    requires Enabled(s, l)
  {
    match l
    case Ask(t, request) => s.(threads := s.threads[t := Asked(request)], asked := s.asked + {request})
    case Pop(t, id) => s.(threads := s.threads[t := Filled(Node(id, s.threads[t].request, true))], free := s.free - {id})
    case Allocate(t, id) =>
      s.(threads := s.threads[t := Filled(Node(id, s.threads[t].request, false))], heap := s.heap + {id})
    case Count(t) => s.(threads := s.threads[t := Counted(s.threads[t].node)], active := s.active + 1)
    case Link(t) => s.(threads := s.threads[t := Idle], queue := [s.threads[t].node] + s.queue)
    case Unlink(t) => s.(threads := s.threads[t := Unlinked(s.queue[0])], queue := s.queue[1..])
    case Perform(t) =>
      var node := s.threads[t].node;
      s.(threads := s.threads[t := Performed(node)], done := s.done + multiset{node.request})
    case Release(t) =>
      var node := s.threads[t].node;
      if node.flagPool then s.(threads := s.threads[t := Released], free := s.free + {node.id})
      else s.(threads := s.threads[t := Released], heap := s.heap - {node.id})
    case Uncount(t) => s.(threads := s.threads[t := Idle], active := s.active - 1)
    case Fini => s.(ref := s.ref - (1 + |s.free|), free := {}, pool := s.pool - s.free, finished := true)
  }

  /** The pool as memcache_init leaves it, with nothing deferred. */
  function Initial(pool: set<int>, threads: nat): State {
    State(pool, {}, pool, seq(threads, _ => Idle), [], 0, {}, multiset{}, |pool| + 1, false)
  }

  ghost predicate IsRun(s: State, labels: seq<Label>)
    decreases |labels|
  {
    labels == [] || (Enabled(s, labels[0]) && IsRun(Next(s, labels[0]), labels[1..]))
  }

  ghost function Exec(s: State, labels: seq<Label>): State
    requires IsRun(s, labels)
    decreases |labels|
  {
    if labels == [] then s else Exec(Next(s, labels[0]), labels[1..])
  }

  // ----- Counting over the threads and the queue

  function Sum<T>(xs: seq<T>, f: T -> nat): nat {
    if xs == [] then 0 else f(xs[0]) + Sum(xs[1..], f)
  }

  lemma {:induction false} SumUpdate<T>(xs: seq<T>, i: nat, x: T, f: T -> nat)
    requires i < |xs|
    ensures Sum(xs[i := x], f) + f(xs[i]) == Sum(xs, f) + f(x)
  {
    if i == 0 {
      assert xs[0 := x][1..] == xs[1..];
    } else {
      SumUpdate(xs[1..], i - 1, x, f);
      assert xs[i := x][1..] == xs[1..][i - 1 := x];
    }
  }

  lemma SumCons<T>(x: T, xs: seq<T>, f: T -> nat)
    ensures Sum([x] + xs, f) == f(x) + Sum(xs, f)
  {
    assert ([x] + xs)[1..] == xs;
  }

  lemma {:induction false} SumMember<T>(xs: seq<T>, i: nat, f: T -> nat)
    requires i < |xs|
    ensures f(xs[i]) <= Sum(xs, f)
  {
    if i > 0 { SumMember(xs[1..], i - 1, f); }
  }

  lemma {:induction false} SumZero<T>(xs: seq<T>, f: T -> nat)
    requires forall i :: 0 <= i < |xs| ==> f(xs[i]) == 0
    ensures Sum(xs, f) == 0
  {
    if xs != [] { SumZero(xs[1..], f); }
  }

  predicate HasNode(at: Position) {
    at.Filled? || at.Counted? || at.Unlinked? || at.Performed?
  }

  /** Whether a thread has the node in its hands. */
  function Hand(id: int): Position -> nat {
    (at: Position) => if HasNode(at) && at.node.id == id then 1 else 0
  }

  /** Whether a thread has still to defer or to carry out the put. */
  function Duty(request: int): Position -> nat {
    (at: Position) => if at.Asked? then if at.request == request then 1 else 0
                      else if HasNode(at) && !at.Performed? && at.node.request == request then 1 else 0
  }

  /** Whether a thread counts as active. */
  function Active(): Position -> nat {
    (at: Position) => if at.Counted? || at.Unlinked? || at.Performed? || at.Released? then 1 else 0
  }

  function Is(id: int): Node -> nat {
    (node: Node) => if node.id == id then 1 else 0
  }

  function Defers(request: int): Node -> nat {
    (node: Node) => if node.request == request then 1 else 0
  }

  function In(a: set<int>, x: int): nat {
    if x in a then 1 else 0
  }

  // ----- What every step keeps

  /** A node of the pool or the heap is in exactly one place: free, in the queue or in a thread's hands; any
      other node is in none. */
  ghost predicate ConservedAt(s: State, id: int) {
    In(s.free, id) + Sum(s.queue, Is(id)) + Sum(s.threads, Hand(id)) == In(s.pool, id) + In(s.heap, id)
  }

  /** A put that was asked for is still to be done, or has been done once. */
  ghost predicate OnceAt(s: State, request: int) {
    s.done[request] + Sum(s.queue, Defers(request)) + Sum(s.threads, Duty(request)) == In(s.asked, request)
  }

  predicate Flagged(s: State, node: Node) {
    if node.flagPool then node.id in s.pool else node.id in s.heap
  }

  /** The flag of a node in use says where it came from. */
  ghost predicate FlagsRight(s: State) {
    && (forall i :: 0 <= i < |s.queue| ==> Flagged(s, s.queue[i]))
    && (forall t :: 0 <= t < |s.threads| && HasNode(s.threads[t]) ==> Flagged(s, s.threads[t].node))
  }

  ghost predicate Inv(s: State) {
    && s.pool !! s.heap && s.free <= s.pool
    && (forall id :: ConservedAt(s, id))
    && (forall request :: OnceAt(s, request))
    && s.active == |s.queue| + Sum(s.threads, Active())
    && FlagsRight(s)
    && s.ref == |s.pool| + if s.finished then 0 else 1
  }

  /** A node in the queue or in a thread's hands is not free. */
  lemma InUseNotFree(s: State, id: int)
    requires s.pool !! s.heap && ConservedAt(s, id) && Sum(s.queue, Is(id)) + Sum(s.threads, Hand(id)) > 0
    ensures id !in s.free
  {
  }

  lemma ConservedStep(s: State, l: Label, id: int)
    requires Inv(s) && Enabled(s, l)
    ensures ConservedAt(Next(s, l), id)
  {
    hide Sum, OnceAt;
    assert ConservedAt(s, id);
    var s' := Next(s, l);
    if l.Fini? {
      return;
    }
    SumUpdate(s.threads, l.thread, s'.threads[l.thread], Hand(id));
    if l.Link? {
      SumCons(s.threads[l.thread].node, s.queue, Is(id));
    } else if l.Unlink? {
      assert s.queue == [s.queue[0]] + s.queue[1..];
      SumCons(s.queue[0], s.queue[1..], Is(id));
    } else if l.Release? {
      SumMember(s.threads, l.thread, Hand(id));
      assert Flagged(s, s.threads[l.thread].node);
    }
  }

  lemma OnceStep(s: State, l: Label, request: int)
    requires OnceAt(s, request) && Enabled(s, l)
    ensures OnceAt(Next(s, l), request)
  {
    hide Sum;
    var s' := Next(s, l);
    if l.Fini? {
      return;
    }
    SumUpdate(s.threads, l.thread, s'.threads[l.thread], Duty(request));
    if l.Link? {
      SumCons(s.threads[l.thread].node, s.queue, Defers(request));
    } else if l.Unlink? {
      assert s.queue == [s.queue[0]] + s.queue[1..];
      SumCons(s.queue[0], s.queue[1..], Defers(request));
    }
  }

  lemma ActiveStep(s: State, l: Label)
    requires Enabled(s, l) && s.active == |s.queue| + Sum(s.threads, Active())
    ensures var s' := Next(s, l); s'.active == |s'.queue| + Sum(s'.threads, Active())
  {
    hide Sum;
    if !l.Fini? { SumUpdate(s.threads, l.thread, Next(s, l).threads[l.thread], Active()); }
  }

  /** What a thread has in its hands is in no other thread's, nor in the queue. */
  lemma ReleasedAlone(s: State, t: nat)
    requires Inv(s) && t < |s.threads| && HasNode(s.threads[t])
    ensures forall i :: 0 <= i < |s.queue| ==> s.queue[i].id != s.threads[t].node.id
    ensures forall u :: 0 <= u < |s.threads| && u != t && HasNode(s.threads[u]) ==>
              s.threads[u].node.id != s.threads[t].node.id
  {
    hide OnceAt;
    var id := s.threads[t].node.id;
    assert ConservedAt(s, id);
    SumMember(s.threads, t, Hand(id));
    forall i | 0 <= i < |s.queue| ensures s.queue[i].id != id { SumMember(s.queue, i, Is(id)); }
    SumUpdate(s.threads, t, Idle, Hand(id));
    forall u | 0 <= u < |s.threads| && u != t && HasNode(s.threads[u]) ensures s.threads[u].node.id != id {
      SumMember(s.threads[t := Idle], u, Hand(id));
    }
  }

  lemma FlagsStep(s: State, l: Label)
    requires Inv(s) && Enabled(s, l)
    ensures FlagsRight(Next(s, l))
  {
    hide Sum, OnceAt;
    if l.Release? { ReleasedAlone(s, l.thread); }
    if l.Fini? { FiniFlags(s); }
  }

  lemma FiniFlags(s: State)
    requires Inv(s) && s.queue == []
    ensures forall t :: 0 <= t < |s.threads| && HasNode(s.threads[t]) ==> s.threads[t].node.id !in s.free
  {
    hide OnceAt;
    forall t | 0 <= t < |s.threads| && HasNode(s.threads[t]) ensures s.threads[t].node.id !in s.free {
      var id := s.threads[t].node.id;
      assert ConservedAt(s, id);
      SumMember(s.threads, t, Hand(id));
      InUseNotFree(s, id);
    }
  }

  // ----- Every run

  lemma InitialInv(pool: set<int>, threads: nat)
    ensures Inv(Initial(pool, threads))
  {
    var s := Initial(pool, threads);
    SumZero(s.threads, Active());
    forall id ensures ConservedAt(s, id) { SumZero(s.threads, Hand(id)); }
    forall request ensures OnceAt(s, request) { SumZero(s.threads, Duty(request)); }
  }

  lemma StepKeepsInv(s: State, l: Label)
    requires Inv(s) && Enabled(s, l)
    ensures Inv(Next(s, l))
  {
    hide ConservedAt, OnceAt, Sum, FlagsRight;
    var s' := Next(s, l);
    forall id ensures ConservedAt(s', id) { ConservedStep(s, l, id); }
    forall request ensures OnceAt(s', request) { OnceStep(s, l, request); }
    ActiveStep(s, l);
    FlagsStep(s, l);
    PoolStep(s, l);
  }

  lemma PoolStep(s: State, l: Label)
    requires Inv(s) && Enabled(s, l)
    ensures var s' := Next(s, l);
            s'.pool !! s'.heap && s'.free <= s'.pool && s'.ref == |s'.pool| + if s'.finished then 0 else 1
  {
    hide ConservedAt, OnceAt, Sum;
    if l.Release? { assert Flagged(s, s.threads[l.thread].node); }
    if l.Fini? { assert s.pool == (s.pool - s.free) + s.free; }
  }

  lemma {:induction false} RunKeepsInv(s: State, labels: seq<Label>)
    requires Inv(s) && IsRun(s, labels)
    ensures Inv(Exec(s, labels))
    decreases |labels|
  {
    hide Inv, Next, Enabled;
    if labels != [] {
      StepKeepsInv(s, labels[0]);
      RunKeepsInv(Next(s, labels[0]), labels[1..]);
    }
  }

  ghost predicate Reachable(s: State, pool: set<int>) {
    exists threads: nat, labels :: IsRun(Initial(pool, threads), labels) && Exec(Initial(pool, threads), labels) == s
  }

  lemma ReachableInv(s: State, pool: set<int>)
    requires Reachable(s, pool)
    ensures Inv(s)
  {
    hide Inv, Exec, IsRun, Initial;
    var threads: nat, labels :| IsRun(Initial(pool, threads), labels) && Exec(Initial(pool, threads), labels) == s;
    InitialInv(pool, threads);
    RunKeepsInv(Initial(pool, threads), labels);
  }

  /** A put is carried out at most once, and only if it was asked for; until then it waits in the queue or with
      a thread, and nowhere twice. */
  lemma DoneOnce(s: State, pool: set<int>, request: int)
    requires Reachable(s, pool)
    ensures s.done[request] <= In(s.asked, request)
    ensures request in s.asked && s.done[request] == 0 ==>
              Sum(s.queue, Defers(request)) + Sum(s.threads, Duty(request)) == 1
  {
    hide Reachable, Sum, ConservedAt, FlagsRight;
    ReachableInv(s, pool);
    assert OnceAt(s, request);
  }

  /** The active counter is the number of queued nodes and of nodes in hand that were or will be queued. */
  lemma ActiveIsInUse(s: State, pool: set<int>)
    requires Reachable(s, pool)
    ensures s.active == |s.queue| + Sum(s.threads, Active())
  {
    hide Reachable, Sum, ConservedAt, OnceAt, FlagsRight;
    ReachableInv(s, pool);
  }

  /** A node goes back where it came from: a node of the pool to the pool, any other is freed, and neither is
      free already. */
  lemma ReleasedToOrigin(s: State, pool: set<int>, t: nat)
    requires Reachable(s, pool) && Enabled(s, Release(t))
    ensures var node, s' := s.threads[t].node, Next(s, Release(t));
            && (node.flagPool <==> node.id in s.pool) && (!node.flagPool <==> node.id in s.heap)
            && node.id !in s.free
            && (node.id in s.pool ==> s'.free == s.free + {node.id} && s'.heap == s.heap)
            && (node.id in s.heap ==> s'.heap == s.heap - {node.id} && s'.free == s.free)
  {
    hide Reachable, Sum, OnceAt;
    ReachableInv(s, pool);
    var node := s.threads[t].node;
    assert Flagged(s, node) && ConservedAt(s, node.id);
    SumMember(s.threads, t, Hand(node.id));
    InUseNotFree(s, node.id);
  }

  ghost predicate AllIdle(s: State) {
    forall t :: 0 <= t < |s.threads| ==> s.threads[t].Idle?
  }

  /** With the queue empty and the threads idle, nothing is outstanding: every put has been done, the whole pool
      is free, no heap node is left, and the counter is zero. */
  lemma NothingOutstanding(s: State, pool: set<int>)
    requires Reachable(s, pool) && s.queue == [] && AllIdle(s)
    ensures s.free == s.pool && s.heap == {} && s.active == 0
    ensures forall request <- s.asked :: s.done[request] == 1
  {
    hide Reachable, FlagsRight;
    ReachableInv(s, pool);
    SumZero(s.threads, Active());
    forall id ensures (id in s.free <==> id in s.pool) && id !in s.heap {
      assert ConservedAt(s, id);
      SumZero(s.threads, Hand(id));
    }
    forall request | request in s.asked ensures s.done[request] == 1 {
      assert OnceAt(s, request);
      SumZero(s.threads, Duty(request));
    }
  }

  /** When the queue has been drained, memcache_fini leaves in the reference count exactly the pool's nodes that
      are not free; the pool is freed at once if and only if there are none, and there are none if the threads
      are idle. */
  lemma StopReleasesPool(s: State, pool: set<int>)
    requires Reachable(s, pool) && s.queue == [] && !s.finished
    ensures Enabled(s, Fini)
    ensures var s' := Next(s, Fini);
            && s'.ref == |s.pool - s.free|
            && (s'.ref == 0 <==> s.free == s.pool)
            && (AllIdle(s) ==> s'.ref == 0)
  {
    hide Reachable, Sum, ConservedAt, OnceAt, FlagsRight;
    ReachableInv(s, pool);
    assert s.pool == (s.pool - s.free) + s.free;
    if AllIdle(s) { NothingOutstanding(s, pool); }
  }

  // ----- Every put is carried out

  /** How many steps a thread has still to take until what it has in hand is done with. */
  function Left(): Position -> nat {
    (at: Position) =>
      match at
      case Idle => 0
      case Asked(_) => 7
      case Filled(_) => 6
      case Counted(_) => 5
      case Unlinked(_) => 3
      case Performed(_) => 2
      case Released => 1
  }

  /** A queued node has still to be unlinked, put, released and uncounted. */
  function Work(s: State): nat {
    Sum(s.threads, Left()) + 4 * |s.queue|
  }

  /** Every step leaves exactly one step less to do, but for asking, which adds seven, and memcache_fini. */
  lemma StepWorks(s: State, l: Label)
    requires Enabled(s, l)
    ensures Work(Next(s, l)) == if l.Ask? then Work(s) + 7 else if l.Fini? then Work(s) else Work(s) - 1
  {
    hide Sum;
    if !l.Fini? { SumUpdate(s.threads, l.thread, Next(s, l).threads[l.thread], Left()); }
  }

  function Asks(labels: seq<Label>): nat {
    if labels == [] then 0 else Asks(labels[1..]) + if labels[0].Ask? then 1 else 0
  }

  function Others(labels: seq<Label>): nat {
    if labels == [] then 0 else Others(labels[1..]) + if labels[0].Ask? || labels[0].Fini? then 0 else 1
  }

  /** Over every run: seven steps for each put asked for, done or still to be done. */
  lemma {:induction false} SevenStepsEach(s: State, labels: seq<Label>)
    requires IsRun(s, labels)
    ensures Others(labels) + Work(Exec(s, labels)) == Work(s) + 7 * Asks(labels)
    decreases |labels|
  {
    hide Work, Next, Enabled;
    if labels != [] {
      StepWorks(s, labels[0]);
      SevenStepsEach(Next(s, labels[0]), labels[1..]);
    }
  }

  lemma Pick<T>(a: set<T>) returns (x: T)
    requires a != {}
    ensures x in a
  {
    x :| x in a;
  }

  /** The kernel has a node to give that is not in use. */
  lemma {:induction false} Unused(a: set<int>) returns (id: int)
    ensures forall x <- a :: x < id
  {
    if a == {} {
      id := 0;
    } else {
      var y := Pick(a);
      id := Unused(a - {y});
      if y >= id { id := y + 1; }
      assert forall x <- a :: x == y || x in a - {y};
    }
  }

  /** As long as anything is left to do, and there is a thread, some thread can take a step towards it. */
  lemma NeverStuck(s: State) returns (l: Label)
    requires Work(s) > 0 && s.threads != []
    ensures Enabled(s, l) && !l.Ask? && !l.Fini?
  {
    if t :| 0 <= t < |s.threads| && !s.threads[t].Idle? {
      match s.threads[t]
      case Asked(_) =>
        var id := Unused(s.pool + s.heap);
        l := Allocate(t, id);
      case Filled(_) => l := Count(t);
      case Counted(_) => l := Link(t);
      case Unlinked(_) => l := Perform(t);
      case Performed(_) => l := Release(t);
      case Released => l := Uncount(t);
    } else {
      SumZero(s.threads, Left());
      l := Unlink(0);
    }
  }

  /** When nothing is left to do, every put that was asked for has been carried out once. */
  lemma NoWorkMeansDone(s: State, pool: set<int>)
    requires Reachable(s, pool) && Work(s) == 0
    ensures s.queue == [] && AllIdle(s) && forall request <- s.asked :: s.done[request] == 1
  {
    hide Reachable;
    forall t | 0 <= t < |s.threads| ensures s.threads[t].Idle? { SumMember(s.threads, t, Left()); }
    NothingOutstanding(s, pool);
  }

  /** The queue gives back first what was linked last. */
  lemma LastInFirstOut(s: State, t: nat, u: nat)
    requires Enabled(s, Link(t)) && Enabled(Next(s, Link(t)), Unlink(u))
    ensures var s' := Next(Next(s, Link(t)), Unlink(u));
            s'.queue == s.queue && s'.threads[u] == Unlinked(s.threads[t].node)
  {
  }

  lemma OneStep(s: State, l: Label, ls: seq<Label>)
    requires Enabled(s, l) && IsRun(Next(s, l), ls)
    ensures IsRun(s, [l] + ls) && Exec(s, [l] + ls) == Exec(Next(s, l), ls)
  {
    assert ([l] + ls)[1..] == ls;
  }

  /** A thread that has unlinked a node carries out its put. */
  lemma Finishes(s: State, t: nat, node: Node) returns (ls: seq<Label>)
    requires t < |s.threads| && s.threads[t] == Unlinked(node)
    ensures IsRun(s, ls) && (forall l <- ls :: !l.Allocate?)
    ensures Exec(s, ls) == s.(threads := s.threads[t := Idle], done := s.done + multiset{node.request},
                              active := s.active - 1,
                              free := if node.flagPool then s.free + {node.id} else s.free,
                              heap := if node.flagPool then s.heap else s.heap - {node.id})
  {
    hide IsRun, Exec;
    var s1 := Next(s, Perform(t));
    var s2 := Next(s1, Release(t));
    var s3 := Next(s2, Uncount(t));
    assert s3.threads == s.threads[t := Idle];
    NothingToRun(s3);
    OneStep(s2, Uncount(t), []);
    ls := [Uncount(t)] + [];
    OneStep(s1, Release(t), ls);
    ls := [Release(t)] + ls;
    OneStep(s, Perform(t), ls);
    ls := [Perform(t)] + ls;
  }

  /** A thread with a filled node can queue it and carry it out at once. */
  lemma CarriedOut(s: State, t: nat, node: Node) returns (ls: seq<Label>)
    requires t < |s.threads| && s.threads[t] == Filled(node)
    ensures IsRun(s, ls) && (forall l <- ls :: !l.Allocate?)
    ensures Exec(s, ls) == s.(threads := s.threads[t := Idle], done := s.done + multiset{node.request},
                              free := if node.flagPool then s.free + {node.id} else s.free,
                              heap := if node.flagPool then s.heap else s.heap - {node.id})
  {
    hide IsRun, Exec;
    var s1 := Next(s, Count(t));
    var s2 := Next(s1, Link(t));
    var s3 := Next(s2, Unlink(t));
    assert s3 == s.(threads := s.threads[t := Unlinked(node)], active := s.active + 1);
    ls := Finishes(s3, t, node);
    OneStep(s2, Unlink(t), ls);
    ls := [Unlink(t)] + ls;
    OneStep(s1, Link(t), ls);
    ls := [Link(t)] + ls;
    OneStep(s, Count(t), ls);
    ls := [Count(t)] + ls;
  }

  lemma NothingToRun(s: State)
    ensures IsRun(s, []) && Exec(s, []) == s
  {
  }

  /** With the node it takes, whichever it is, the thread has the put carried out. */
  lemma TakenAndCarriedOut(s: State, t: nat, request: int, take: Label) returns (ls: seq<Label>)
    requires t < |s.threads| && s.threads[t] == Asked(request) && Enabled(s, take)
    requires (take.Pop? || take.Allocate?) && take.thread == t
    ensures IsRun(s, ls) && Exec(s, ls) == s.(threads := s.threads[t := Idle], done := s.done + multiset{request})
    ensures take.Pop? ==> forall l <- ls :: !l.Allocate?
  {
    hide IsRun, Exec;
    var s1 := Next(s, take);
    ls := CarriedOut(s1, t, s1.threads[t].node);
    assert s1.threads[t := Idle] == s.threads[t := Idle];
    assert take.Pop? ==> s.free - {take.id} + {take.id} == s.free;
    assert take.Allocate? ==> s.heap + {take.id} - {take.id} == s.heap;
    OneStep(s, take, ls);
    ls := [take] + ls;
  }

  /** Whatever else is under way, an idle thread can have any new put carried out, with a node of the pool if it has one
      to give, and everything else is then as it was. */
  lemma PutCanHappen(s: State, t: nat, request: int) returns (ls: seq<Label>)
    requires t < |s.threads| && s.threads[t].Idle? && request !in s.asked
    ensures IsRun(s, ls) && Exec(s, ls) == s.(asked := s.asked + {request}, done := s.done + multiset{request})
    ensures s.free != {} ==> forall l <- ls :: !l.Allocate?
  {
    hide IsRun, Exec;
    var s1 := Next(s, Ask(t, request));
    if s.free != {} {
      var id := Pick(s.free);
      ls := TakenAndCarriedOut(s1, t, request, Pop(t, id));
    } else {
      var id := Unused(s.pool + s.heap);
      ls := TakenAndCarriedOut(s1, t, request, Allocate(t, id));
    }
    assert s1.threads[t := Idle] == s.threads;
    OneStep(s, Ask(t, request), ls);
    ls := [Ask(t, request)] + ls;
  }
}
