/** Popping without competition, and the reference count that frees the pool. */
module MemcacheLife {
  import opened Cpumask
  import opened MemcacheMachine
  import opened Wrappers

  // ----- One pop on its own

  ghost predicate Empty(sl: Slot) {
    sl.head == sl.last
  }

  /** The state after `t` has taken the oldest published object of `c`. */
  function Taken(cfg: Config, s: State, c: Cpu): State
    requires c in s.slots && cfg.cap > 0 && |s.slots[c].entries| == cfg.cap
  {
    var sl := s.slots[c];
    s.(slots := s.slots[c := sl.(head := sl.head + 1)], held := s.held + {sl.entries[sl.head % cfg.cap]})
  }

  lemma ExecStep(cfg: Config, s: State, lb: Label, ls: seq<Label>)
    requires WellFormed(cfg, s) && Enabled(cfg, s, lb) && IsRun(cfg, Next(cfg, s, lb), ls)
    ensures IsRun(cfg, s, [lb] + ls) && Exec(cfg, s, [lb] + ls) == Exec(cfg, Next(cfg, s, lb), ls)
  {
    assert ([lb] + ls)[1..] == ls;
  }

  /** The state with the pop `t` at another instruction. */
  ghost function With(s: State, t: Tid, p: Popper): State {
    s.(pops := s.pops[t := p])
  }

  lemma PopStepWith(cfg: Config, s: State, t: Tid, p: Popper, ls: seq<Label>)
    requires WellFormed(cfg, s) && !p.Idle? && p.cpu in s.slots && !(p.CasHead? && p.h == s.slots[p.cpu].head)
    requires var p' := AdvancePop(cfg, s.slots[p.cpu], p); WellFormed(cfg, With(s, t, p')) && IsRun(cfg, With(s, t, p'), ls)
    ensures WellFormed(cfg, With(s, t, p)) && IsRun(cfg, With(s, t, p), [PopStep(t)] + ls)
    ensures Exec(cfg, With(s, t, p), [PopStep(t)] + ls) == Exec(cfg, With(s, t, AdvancePop(cfg, s.slots[p.cpu], p)), ls)
  {
    hide AdvancePop, IsRun, Exec;
    assert Next(cfg, With(s, t, p), PopStep(t)) == With(s, t, AdvancePop(cfg, s.slots[p.cpu], p));
    ExecStep(cfg, With(s, t, p), PopStep(t), ls);
  }

  lemma PopTakeWith(cfg: Config, s: State, t: Tid, c: Cpu, o: Obj)
    requires WellFormed(cfg, s) && t in s.pops && s.pops[t].Idle? && c in s.slots
    requires o == s.slots[c].entries[s.slots[c].head % cfg.cap]
    ensures var s' := With(s, t, CasHead(c, s.slots[c].head, o));
            && WellFormed(cfg, s') && IsRun(cfg, s', [PopStep(t)] + []) && Exec(cfg, s', [PopStep(t)] + []) == Taken(cfg, s, c)
  {
    var s' := With(s, t, CasHead(c, s.slots[c].head, o));
    assert Next(cfg, s', PopStep(t)) == Taken(cfg, s, c);
    ExecStep(cfg, s', PopStep(t), []);
  }

  lemma PopBeginWith(cfg: Config, s: State, t: Tid, c: Cpu, ls: seq<Label>)
    requires WellFormed(cfg, s) && c in s.slots && t in s.pops && s.pops[t].Idle?
    requires WellFormed(cfg, With(s, t, LoadHead(c))) && IsRun(cfg, With(s, t, LoadHead(c)), ls)
    ensures IsRun(cfg, s, [PopBegin(t, c)] + ls)
    ensures Exec(cfg, s, [PopBegin(t, c)] + ls) == Exec(cfg, With(s, t, LoadHead(c)), ls)
  {
    hide IsRun, Exec;
    ExecStep(cfg, s, PopBegin(t, c), ls);
  }

  lemma BackToIdle(cfg: Config, s: State, t: Tid)
    requires WellFormed(cfg, s) && t in s.pops && s.pops[t].Idle?
    ensures With(s, t, Idle) == s && IsRun(cfg, s, []) && Exec(cfg, s, []) == s
  {
    assert s.pops[t := Idle] == s.pops;
  }

  ghost predicate PopsOnly(ls: seq<Label>) {
    forall lb <- ls :: lb.PopBegin? || lb.PopStep?
  }

  lemma SoloEmpty(cfg: Config, s: State, t: Tid, c: Cpu) returns (ls: seq<Label>)
    requires WellFormed(cfg, s) && c in s.slots && t in s.pops && s.pops[t].Idle? && Empty(s.slots[c])
    ensures IsRun(cfg, s, ls) && Exec(cfg, s, ls) == s && PopsOnly(ls)
  {
    hide IsRun, Exec, With;
    BackToIdle(cfg, s, t);
    PopStepWith(cfg, s, t, TestEmpty(c, s.slots[c].head), []);
    ls := [PopStep(t)] + [];
    PopStepWith(cfg, s, t, LoadHead(c), ls);
    ls := [PopStep(t)] + ls;
    PopBeginWith(cfg, s, t, c, ls);
    ls := [PopBegin(t, c)] + ls;
  }

  lemma SoloTake(cfg: Config, s: State, t: Tid, c: Cpu) returns (ls: seq<Label>)
    requires WellFormed(cfg, s) && c in s.slots && t in s.pops && s.pops[t].Idle?
    requires InRange(cfg, s.slots[c].head, s.slots[c].last)
    ensures IsRun(cfg, s, ls) && Exec(cfg, s, ls) == Taken(cfg, s, c) && PopsOnly(ls)
  {
    hide IsRun, Exec, Taken, With;
    var h := s.slots[c].head;
    PopTakeWith(cfg, s, t, c, s.slots[c].entries[h % cfg.cap]);
    ls := [PopStep(t)] + [];
    PopStepWith(cfg, s, t, ReadEntry(c, h), ls);
    ls := [PopStep(t)] + ls;
    PopStepWith(cfg, s, t, TestRange(c, h), ls);
    ls := [PopStep(t)] + ls;
    PopStepWith(cfg, s, t, TestEmpty(c, h), ls);
    ls := [PopStep(t)] + ls;
    PopStepWith(cfg, s, t, LoadHead(c), ls);
    ls := [PopStep(t)] + ls;
    PopBeginWith(cfg, s, t, c, ls);
    ls := [PopBegin(t, c)] + ls;
  }

  /** try_get_slot with no other thread running: it fails on an empty slot only, after two
      instructions, and otherwise takes the oldest object in five. */
  lemma SoloTryGet(cfg: Config, s: State, loc: map<Obj, Place>, t: Tid, c: Cpu) returns (ls: seq<Label>)
    requires Inv(cfg, s, loc) && c in s.slots && t in s.pops && s.pops[t].Idle?
    ensures IsRun(cfg, s, ls) && PopsOnly(ls)
    ensures Exec(cfg, s, ls) == if Empty(s.slots[c]) then s else Taken(cfg, s, c)
  {
    hide Located, PopperOK, IsRun, Exec, Taken;
    WindowBound(cfg, s, loc, c);
    if Empty(s.slots[c]) {
      ls := SoloEmpty(cfg, s, t, c);
    } else {
      ls := SoloTake(cfg, s, t, c);
    }
  }

  // ----- Walking the CPUs

  /** The CPUs met before `c` by a walk that starts at `self`. */
  ghost function Before(mask: Cpumask, self: Cpu, c: Cpu): set<Cpu> {
    set d | d in Cpus(mask) && Turn(d, self, |mask|) < Turn(c, self, |mask|)
  }

  /** The successor of a CPU is the next one of the walk, or the walk is back where it started. */
  lemma WalkAdvances(mask: Cpumask, self: Cpu, c: Cpu, next: Cpu)
    requires self in Cpus(mask) && c in Cpus(mask)
    requires next == if NextBit(c, mask) < |mask| then NextBit(c, mask) else NextBit(-1, mask)
    ensures next in Cpus(mask)
    ensures next == self ==> Before(mask, self, c) + {c} == Cpus(mask)
    ensures next != self ==> Before(mask, self, next) == Before(mask, self, c) + {c}
  {
  }

  /** memcache_pop with no other thread running. It fails only when every slot is empty, because the
      walk visits each possible CPU once. */
  method Pop(cfg: Config, mask: Cpumask, s: State, self: Cpu, t: Tid, ghost loc: map<Obj, Place>)
    returns (r: Option<Obj>, s': State, ghost from: Cpu)
    requires Inv(cfg, s, loc) && cfg.cpus == Cpus(mask) && self in cfg.cpus && t in s.pops && s.pops[t].Idle?
    ensures r.None? <==> forall c <- s.slots :: Empty(s.slots[c])
    ensures r.None? ==> s' == s
    ensures r.Some? ==>
              && from in s.slots && !Empty(s.slots[from])
              && (forall d <- Before(mask, self, from) :: Empty(s.slots[d]))
              && s' == Taken(cfg, s, from)
              && r.value == s.slots[from].entries[s.slots[from].head % cfg.cap]
  {
    hide Located, SlotOK, PopperOK;
    r, s', from := None, s, self;
    var num := |Cpus(mask)|;
    var cpu, i := self, 0;
    while i < num
      invariant 0 <= i <= num && cpu in Cpus(mask)
      invariant i < num ==> |Before(mask, self, cpu)| == i
      invariant i < num ==> forall d <- Before(mask, self, cpu) :: Empty(s.slots[d])
      invariant i == num ==> forall c <- s.slots :: Empty(s.slots[c])
    {
      var sl := s.slots[cpu];
      if sl.head != sl.last {
        r, s', from := Some(sl.entries[sl.head % cfg.cap]), Taken(cfg, s, cpu), cpu;
        return;
      }
      var next := NextWrap(cpu, mask, -1, true);
      WalkAdvances(mask, self, cpu, next);
      BeforeAll(mask, self, cpu);
      cpu, i := next, i + 1;
    }
  }

  lemma BeforeAll(mask: Cpumask, self: Cpu, c: Cpu)
    requires c in Cpus(mask)
    ensures c !in Before(mask, self, c)
    ensures Before(mask, self, c) + {c} != Cpus(mask) ==> |Before(mask, self, c)| + 1 < |Cpus(mask)|
    ensures Before(mask, self, c) + {c} == Cpus(mask) ==> |Before(mask, self, c)| + 1 == |Cpus(mask)|
  {
    var b := Before(mask, self, c) + {c};
    if b != Cpus(mask) {
      var d :| d in Cpus(mask) && d !in b;
      SubsetCardinality(b + {d}, Cpus(mask));
    }
  }

  // ----- Releasing the pool

  /** Every push in flight has stored and published its object. */
  ghost predicate Settled(s: State) {
    forall c <- s.slots :: Published(s.slots[c])
  }

  ghost predicate Published(sl: Slot) {
    sl.last == sl.tail && forall d :: 0 <= d < |sl.stack| ==> sl.stack[d].CasLast? || sl.stack[d].ReadTail?
  }

  lemma HeadInPlace(cfg: Config, s: State, c: Cpu)
    requires WellFormed(cfg, s) && c in s.slots && SlotOK(s.slots[c]) && Published(s.slots[c]) && !Empty(s.slots[c])
    ensures InPlace(cfg, s, Ring(c, s.slots[c].head), s.slots[c].entries[s.slots[c].head % cfg.cap])
  {
  }

  lemma InLoc(cfg: Config, s: State, loc: map<Obj, Place>, o: Obj)
    requires Located(cfg, s, loc) && o in loc
    ensures o in cfg.objs
  {
    hide InPlace;
  }

  /** One round of memcache_fini: the popped object is counted and never comes back. */
  lemma DrainRound(cfg: Config, s: State, loc: map<Obj, Place>, t: Tid, c: Cpu) returns (loc': map<Obj, Place>)
    requires Inv(cfg, s, loc) && Settled(s) && c in s.slots && !Empty(s.slots[c]) && t in s.pops && s.pops[t].Idle?
    ensures var o, s1 := s.slots[c].entries[s.slots[c].head % cfg.cap], Taken(cfg, s, c);
            var s2 := s1.(held := s1.held - {o}, gone := s1.gone + {o});
            && Inv(cfg, s2, loc') && Settled(s2)
            && o !in s.held && o !in s.gone && o in cfg.objs
            && s2.held == s.held && s2.gone == s.gone + {o}
  {
    hide Located, InPlace, SlotOK, PopperOK, Exec, IsRun;
    var o, s1 := s.slots[c].entries[s.slots[c].head % cfg.cap], Taken(cfg, s, c);
    HeadInPlace(cfg, s, c);
    OnlyPlace(cfg, s, loc, Ring(c, s.slots[c].head), o);
    InLoc(cfg, s, loc, o);
    var ls := SoloTryGet(cfg, s, loc, t, c);
    var loc1 := RunKeepsInv(cfg, s, loc, ls);
    StepPreservesInv(cfg, s1, loc1, Retire(o));
    loc' := NextLoc(cfg, s1, loc1, Retire(o));
  }

  /** With every slot empty and every push in flight published, an object is with a caller or gone. */
  lemma DrainedMeansOutstanding(cfg: Config, s: State, loc: map<Obj, Place>)
    requires Inv(cfg, s, loc) && Settled(s) && forall c <- s.slots :: Empty(s.slots[c])
    ensures s.gone == cfg.objs - s.held && s.held <= cfg.objs
  {
    forall o <- cfg.objs ensures loc[o] == Held || loc[o] == Gone { SettledPlace(cfg, s, loc[o], o); }
    HeldAndGone(cfg, s, loc);
    assert forall o <- cfg.objs :: o in s.held || o in s.gone;
  }

  lemma SettledPlace(cfg: Config, s: State, p: Place, o: Obj)
    requires WellFormed(cfg, s) && InPlace(cfg, s, p, o) && Settled(s) && forall c <- s.slots :: Empty(s.slots[c])
    ensures p == Held || p == Gone
  {
  }

  lemma HeldAndGone(cfg: Config, s: State, loc: map<Obj, Place>)
    requires Located(cfg, s, loc)
    ensures s.held <= cfg.objs && s.gone <= cfg.objs && s.held !! s.gone
    ensures forall o <- cfg.objs :: (loc[o] == Held <==> o in s.held) && (loc[o] == Gone <==> o in s.gone)
  {
    forall o | o in s.held + s.gone
      ensures o in loc && (o in s.held ==> loc[o] == Held) && (o in s.gone ==> loc[o] == Gone)
    {
      assert InPlace(cfg, s, Held, o) <==> o in s.held;
      assert InPlace(cfg, s, Gone, o) <==> o in s.gone;
    }
  }

  lemma {:induction false} DifferenceSize<T>(a: set<T>, b: set<T>)
    requires b <= a
    ensures |a - b| == |a| - |b|
  {
    assert a == (a - b) + b;
  }

  /** memcache_fini with no other thread running: what is left of the pool's reference count is the
      number of objects still with callers, and the pool is freed at once exactly when there are none. */
  method Fini(cfg: Config, mask: Cpumask, s: State, self: Cpu, t: Tid, ref: int, ghost loc: map<Obj, Place>)
    returns (s': State, ref': int, freed: bool)
    requires Inv(cfg, s, loc) && Settled(s) && cfg.cpus == Cpus(mask) && self in cfg.cpus
    requires t in s.pops && s.pops[t].Idle?
    requires ref == |cfg.objs| - |s.gone| + 1
    ensures forall c <- s'.slots :: Empty(s'.slots[c])
    ensures s'.held == s.held && s'.gone == cfg.objs - s.held
    ensures ref' == |s.held|
    ensures freed <==> s.held == {}
  {
    hide Located, SlotOK, PopperOK, Before;
    var count := 1;
    s' := s;
    HeldAndGone(cfg, s, loc);
    ghost var loc' := loc;
    while true
      invariant Inv(cfg, s', loc') && Settled(s') && t in s'.pops && s'.pops[t].Idle?
      invariant s'.held == s.held && s.gone <= s'.gone <= cfg.objs
      invariant count == 1 + |s'.gone| - |s.gone|
      decreases cfg.objs - s'.gone
    {
      var r, s1, from := Pop(cfg, mask, s', self, t, loc');
      if r.None? {
        break;
      }
      loc' := DrainRound(cfg, s', loc', t, from);
      s' := s1.(held := s1.held - {r.value}, gone := s1.gone + {r.value});
      count := count + 1;
    }
    DrainedMeansOutstanding(cfg, s', loc');
    DifferenceSize(cfg.objs, s.held);
    ref' := ref - count;
    freed := ref' == 0;
  }

  // ----- Every run with drops and one fini

  datatype FiniState = NotCalled | Draining(count: nat) | Finished

  /** The pool with its reference count; `frees` counts calls of memcache_free. */
  datatype Life = Life(s: State, ref: int, fini: FiniState, frees: nat)

  datatype LifeLabel =
    | Machine(lb: Label)   // any step of a push or pop
    | Drop(o: Obj)         // memcache_drop by the caller that holds o
    | FiniBegin
    | FiniCount(o: Obj)    // memcache_fini has popped o
    | FiniEnd

  ghost predicate LifeEnabled(cfg: Config, x: Life, lb: LifeLabel) {
    match lb
    case Machine(m) => Enabled(cfg, x.s, m) && !m.Retire?
    case Drop(o) => o in x.s.held
    case FiniBegin => x.fini.NotCalled?
    case FiniCount(o) => x.fini.Draining? && o in x.s.held
    case FiniEnd => x.fini.Draining?
  }

  /** atomic_sub_and_test followed by memcache_free. */
  function Release(x: Life, n: nat): Life {
    x.(ref := x.ref - n, frees := if x.ref - n == 0 then x.frees + 1 else x.frees)
  }

  ghost function LifeNext(cfg: Config, x: Life, lb: LifeLabel): (x': Life)
    requires WellFormed(cfg, x.s) && LifeEnabled(cfg, x, lb)
    ensures WellFormed(cfg, x'.s)
  {
    match lb
    case Machine(m) => x.(s := Next(cfg, x.s, m))
    case Drop(o) => Release(x.(s := Next(cfg, x.s, Retire(o))), 1)
    case FiniBegin => x.(fini := Draining(1))
    case FiniCount(o) => x.(s := Next(cfg, x.s, Retire(o)), fini := Draining(x.fini.count + 1))
    case FiniEnd => Release(x.(fini := Finished), x.fini.count)
  }

  /** The reference count is one for each object not discarded, plus what fini has not given up yet. */
  ghost predicate LifeInv(cfg: Config, x: Life, loc: map<Obj, Place>) {
    && Inv(cfg, x.s, loc)
    && x.s.gone <= cfg.objs
    && (x.fini.Draining? ==> x.fini.count > 0)
    && x.ref == |cfg.objs| - |x.s.gone| + match x.fini { case NotCalled => 1 case Draining(n) => n case Finished => 0 }
    && x.frees == if x.ref == 0 then 1 else 0
  }

  lemma LifeStepKeepsInv(cfg: Config, x: Life, loc: map<Obj, Place>, lb: LifeLabel) returns (loc': map<Obj, Place>)
    requires LifeInv(cfg, x, loc) && LifeEnabled(cfg, x, lb)
    ensures LifeInv(cfg, LifeNext(cfg, x, lb), loc')
  {
    hide Located, SlotOK, PopperOK, Next, NextLoc;
    loc' := loc;
    SubsetCardinality(x.s.gone, cfg.objs);
    match lb {
      case Machine(m) =>
        StepPreservesInv(cfg, x.s, loc, m);
        loc' := NextLoc(cfg, x.s, loc, m);
        StepDiscardsNothing(cfg, x.s, m);
      case Drop(o) => loc' := RetireKeepsCount(cfg, x.s, loc, o);
      case FiniBegin =>
      case FiniCount(o) => loc' := RetireKeepsCount(cfg, x.s, loc, o);
      case FiniEnd =>
    }
  }

  lemma StepDiscardsNothing(cfg: Config, s: State, m: Label)
    requires WellFormed(cfg, s) && Enabled(cfg, s, m) && !m.Retire?
    ensures Next(cfg, s, m).gone == s.gone
  {
    hide AdvancePush, AdvancePop;
  }

  /** Discarding an object that a caller holds leaves one fewer, and there was one to leave. */
  lemma RetireKeepsCount(cfg: Config, s: State, loc: map<Obj, Place>, o: Obj) returns (loc': map<Obj, Place>)
    requires Inv(cfg, s, loc) && o in s.held && s.gone <= cfg.objs
    ensures Inv(cfg, Next(cfg, s, Retire(o)), loc') && Next(cfg, s, Retire(o)).gone == s.gone + {o}
    ensures var g := s.gone + {o}; g <= cfg.objs && |g| == |s.gone| + 1 <= |cfg.objs|
  {
    hide Located, SlotOK, PopperOK;
    StepPreservesInv(cfg, s, loc, Retire(o));
    loc' := NextLoc(cfg, s, loc, Retire(o));
    OnlyPlace(cfg, s, loc, Held, o);
    InLoc(cfg, s, loc, o);
    SubsetCardinality(s.gone + {o}, cfg.objs);
  }

  ghost predicate IsLifeRun(cfg: Config, x: Life, ls: seq<LifeLabel>)
    requires WellFormed(cfg, x.s)
    decreases ls
  {
    ls != [] ==> LifeEnabled(cfg, x, ls[0]) && IsLifeRun(cfg, LifeNext(cfg, x, ls[0]), ls[1..])
  }

  ghost function LifeExec(cfg: Config, x: Life, ls: seq<LifeLabel>): (x': Life)
    requires WellFormed(cfg, x.s) && IsLifeRun(cfg, x, ls)
    ensures WellFormed(cfg, x'.s)
    decreases ls
  {
    if ls == [] then x else LifeExec(cfg, LifeNext(cfg, x, ls[0]), ls[1..])
  }

  lemma {:induction false} LifeRunKeepsInv(cfg: Config, x: Life, loc: map<Obj, Place>, ls: seq<LifeLabel>)
    returns (loc': map<Obj, Place>)
    requires LifeInv(cfg, x, loc) && IsLifeRun(cfg, x, ls)
    ensures LifeInv(cfg, LifeExec(cfg, x, ls), loc')
    decreases ls
  {
    hide Located, SlotOK, PopperOK, LifeNext, LifeEnabled;
    if ls == [] {
      loc' := loc;
    } else {
      var loc1 := LifeStepKeepsInv(cfg, x, loc, ls[0]);
      loc' := LifeRunKeepsInv(cfg, LifeNext(cfg, x, ls[0]), loc1, ls[1..]);
    }
  }

  lemma InitialLife(cfg: Config, s: State, loc: map<Obj, Place>)
    requires Initial(cfg, s, loc)
    ensures LifeInv(cfg, Life(s, |cfg.objs| + 1, NotCalled, 0), loc)
  {
    hide Inv;
    InitialInv(cfg, s, loc);
  }

  /** In every run from initialisation, with any interleaving of pushes, pops, drops and one fini, the
      pool is freed at most once, and it has been freed exactly when fini has finished and every
      object has been drained or dropped. */
  lemma FreedExactlyOnce(cfg: Config, s: State, loc: map<Obj, Place>, ls: seq<LifeLabel>)
    requires Initial(cfg, s, loc)
    requires IsLifeRun(cfg, Life(s, |cfg.objs| + 1, NotCalled, 0), ls)
    ensures var x := LifeExec(cfg, Life(s, |cfg.objs| + 1, NotCalled, 0), ls);
            && x.frees <= 1
            && (x.frees == 1 <==> x.fini.Finished? && x.s.gone == cfg.objs)
            && x.ref >= 0
  {
    hide Located, SlotOK, PopperOK, LifeExec, IsLifeRun;
    var x0 := Life(s, |cfg.objs| + 1, NotCalled, 0);
    InitialLife(cfg, s, loc);
    var x := LifeExec(cfg, x0, ls);
    var loc' := LifeRunKeepsInv(cfg, x0, loc, ls);
    SubsetCardinality(x.s.gone, cfg.objs);
    DifferenceSize(cfg.objs, x.s.gone);
  }
}
