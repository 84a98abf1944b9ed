/** Who still runs inside the pool when its reference count frees it. */
module MemcacheRelease {
  import opened MemcacheMachine
  import opened MemcacheLife

  /** The pool as memcache_init leaves it. */
  ghost function Start(cfg: Config, s: State): Life {
    Life(s, |cfg.objs| + 1, NotCalled, 0)
  }

  /** Some push or pop has begun and not returned. */
  ghost predicate InFlight(s: State) {
    || (exists c <- s.slots :: s.slots[c].stack != [])
    || (exists t <- s.pops :: !s.pops[t].Idle?)
  }

  /** The step is an instruction of a push or a pop, which reads or writes a slot. */
  predicate Touches(lb: LifeLabel) {
    lb.Machine? && (lb.lb.PushStep? || lb.lb.PopStep?)
  }

  /** Nobody calls memcache_pop any more. */
  predicate NoCalls(ls: seq<LifeLabel>) {
    forall lb <- ls :: lb.Machine? ==> !lb.lb.PopBegin?
  }

  // ----- When the freed slots are touched

  /** Once freed, the pool has no object left: none with a caller, none in a slot, none in a push. */
  lemma FreedIsEmpty(cfg: Config, x: Life, loc: map<Obj, Place>)
    requires LifeInv(cfg, x, loc) && x.frees == 1
    ensures x.s.gone == cfg.objs && x.s.held == {} && x.fini.Finished?
    ensures forall c <- x.s.slots, f <- x.s.slots[c].stack :: f.CasLast? || f.ReadTail?
  {
    hide SlotOK, PopperOK, InPlace;
    SubsetCardinality(x.s.gone, cfg.objs);
    DifferenceSize(cfg.objs, x.s.gone);
    assert cfg.objs - x.s.gone == {} && x.fini.Finished?;
    HeldAndGone(cfg, x.s, loc);
    forall c <- x.s.slots, f <- x.s.slots[c].stack ensures f.CasLast? || f.ReadTail? {
      CarriesNothing(cfg, x.s, loc, c, f);
    }
  }

  lemma CarriesNothing(cfg: Config, s: State, loc: map<Obj, Place>, c: Cpu, f: Frame)
    requires Located(cfg, s, loc) && s.gone == cfg.objs && c in s.slots && f in s.slots[c].stack
    ensures f.CasLast? || f.ReadTail?
  {
    var d :| 0 <= d < |s.slots[c].stack| && s.slots[c].stack[d] == f;
    if !(f.CasLast? || f.ReadTail?) {
      assert InPlace(cfg, s, Pending(c, d), f.obj);
      assert InPlace(cfg, s, Gone, f.obj);
    }
  }

  /** The steps possible after the pool was freed are those of pushes and pops in flight, and new pops. */
  lemma StepsLeftAfterFree(cfg: Config, x: Life, loc: map<Obj, Place>, lb: LifeLabel)
    requires LifeInv(cfg, x, loc) && x.frees == 1 && LifeEnabled(cfg, x, lb)
    ensures lb.Machine? && (lb.lb.PopBegin? || (Touches(lb) && InFlight(x.s)))
  {
    hide Located, SlotOK, PopperOK;
    FreedIsEmpty(cfg, x, loc);
  }

  lemma InFlightMoves(cfg: Config, x: Life) returns (lb: LifeLabel)
    requires InFlight(x.s)
    ensures Touches(lb) && LifeEnabled(cfg, x, lb)
  {
    if c :| c in x.s.slots && x.s.slots[c].stack != [] {
      lb := Machine(PushStep(c));
    } else {
      var t :| t in x.s.pops && !x.s.pops[t].Idle?;
      lb := Machine(PopStep(t));
    }
  }

  /** The step that frees the pool leaves the slots and the threads as they are. */
  lemma FreeingStep(cfg: Config, y: Life, f: LifeLabel)
    requires WellFormed(cfg, y.s) && LifeEnabled(cfg, y, f) && y.frees < LifeNext(cfg, y, f).frees
    ensures f.Drop? || f.FiniEnd?
    ensures InFlight(LifeNext(cfg, y, f).s) == InFlight(y.s)
  {
  }

  ghost predicate TouchingRun(cfg: Config, z: Life, b: seq<LifeLabel>)
    requires WellFormed(cfg, z.s)
  {
    IsLifeRun(cfg, z, b) && NoCalls(b) && exists lb <- b :: Touches(lb)
  }

  /** Whatever run led there, and although no call begins afterwards, the slots can be touched after they were freed
      exactly when a push or a pop is in flight at the step that frees them. */
  lemma TouchedAfterFreeExactly(cfg: Config, s: State, loc: map<Obj, Place>, a: seq<LifeLabel>, f: LifeLabel)
    requires Initial(cfg, s, loc) && IsLifeRun(cfg, Start(cfg, s), a)
    requires var y := LifeExec(cfg, Start(cfg, s), a);
             LifeEnabled(cfg, y, f) && y.frees == 0 && LifeNext(cfg, y, f).frees == 1
    ensures var y := LifeExec(cfg, Start(cfg, s), a);
            (exists b :: TouchingRun(cfg, LifeNext(cfg, y, f), b)) <==> InFlight(y.s)
  {
    hide Located, SlotOK, PopperOK, LifeExec, IsLifeRun, InFlight, LifeNext, LifeEnabled;
    InitialLife(cfg, s, loc);
    var y := LifeExec(cfg, Start(cfg, s), a);
    var loc1 := LifeRunKeepsInv(cfg, Start(cfg, s), loc, a);
    var loc2 := LifeStepKeepsInv(cfg, y, loc1, f);
    var z := LifeNext(cfg, y, f);
    FreeingStep(cfg, y, f);
    if InFlight(y.s) {
      var lb := InFlightMoves(cfg, z);
      OneStepRun(cfg, z, lb);
    } else {
      forall b ensures !TouchingRun(cfg, z, b) {
        NoRunLeft(cfg, z, loc2, b);
      }
    }
  }

  lemma OneStepRun(cfg: Config, z: Life, lb: LifeLabel)
    requires WellFormed(cfg, z.s) && LifeEnabled(cfg, z, lb) && Touches(lb)
    ensures TouchingRun(cfg, z, [lb])
  {
    assert lb in [lb];
  }

  lemma NoRunLeft(cfg: Config, z: Life, loc: map<Obj, Place>, b: seq<LifeLabel>)
    requires LifeInv(cfg, z, loc) && z.frees == 1 && !InFlight(z.s)
    ensures !TouchingRun(cfg, z, b)
  {
    hide Inv, InFlight, LifeEnabled, LifeNext;
    if b != [] && LifeEnabled(cfg, z, b[0]) {
      StepsLeftAfterFree(cfg, z, loc, b[0]);
    }
  }

  // ----- Such a run exists for every pool

  function Lift(ms: seq<Label>): seq<LifeLabel> {
    if ms == [] then [] else [Machine(ms[0])] + Lift(ms[1..])
  }

  lemma {:induction false} LiftRun(cfg: Config, x: Life, ms: seq<Label>)
    requires WellFormed(cfg, x.s) && IsRun(cfg, x.s, ms) && forall m <- ms :: !m.Retire?
    ensures IsLifeRun(cfg, x, Lift(ms)) && LifeExec(cfg, x, Lift(ms)) == x.(s := Exec(cfg, x.s, ms))
    decreases ms
  {
    hide Next, Enabled;
    if ms != [] {
      assert Lift(ms)[0] == Machine(ms[0]) && Lift(ms)[1..] == Lift(ms[1..]);
      LiftRun(cfg, x.(s := Next(cfg, x.s, ms[0])), ms[1..]);
    }
  }

  lemma {:induction false} LifeConcat(cfg: Config, x: Life, a: seq<LifeLabel>, b: seq<LifeLabel>)
    requires WellFormed(cfg, x.s) && IsLifeRun(cfg, x, a) && IsLifeRun(cfg, LifeExec(cfg, x, a), b)
    ensures IsLifeRun(cfg, x, a + b) && LifeExec(cfg, x, a + b) == LifeExec(cfg, LifeExec(cfg, x, a), b)
    decreases a
  {
    hide LifeNext, LifeEnabled;
    if a == [] {
      assert a + b == b;
    } else {
      assert (a + b)[0] == a[0] && (a + b)[1..] == a[1..] + b;
      LifeConcat(cfg, LifeNext(cfg, x, a[0]), a[1..], b);
    }
  }

  lemma LifeSnoc(cfg: Config, x: Life, a: seq<LifeLabel>, lb: LifeLabel)
    requires WellFormed(cfg, x.s) && IsLifeRun(cfg, x, a) && LifeEnabled(cfg, LifeExec(cfg, x, a), lb)
    ensures IsLifeRun(cfg, x, a + [lb]) && LifeExec(cfg, x, a + [lb]) == LifeNext(cfg, LifeExec(cfg, x, a), lb)
  {
    hide LifeNext, LifeEnabled;
    var y := LifeExec(cfg, x, a);
    assert IsLifeRun(cfg, y, [lb]) && LifeExec(cfg, y, [lb]) == LifeNext(cfg, y, lb) by {
      assert [lb][1..] == [];
    }
    LifeConcat(cfg, x, a, [lb]);
  }

  /** Fini pops and counts everything there is, whatever published pushes are still in flight. */
  lemma {:induction false} DrainRun(cfg: Config, x: Life, loc: map<Obj, Place>, t: Tid) returns (ls: seq<LifeLabel>)
    requires LifeInv(cfg, x, loc) && x.fini.Draining? && Settled(x.s) && x.s.held == {}
    requires t in x.s.pops && x.s.pops[t].Idle?
    ensures IsLifeRun(cfg, x, ls)
    ensures var x' := LifeExec(cfg, x, ls);
            && x'.fini.Draining? && x'.s.gone == cfg.objs && x'.s.pops == x.s.pops
            && (forall c <- cfg.cpus :: Empty(x'.s.slots[c]) && x'.s.slots[c].stack == x.s.slots[c].stack)
    decreases cfg.objs - x.s.gone
  {
    hide Located, SlotOK, PopperOK, LifeExec, IsLifeRun, Published, IsRun, Exec;
    if c :| c in x.s.slots && !Empty(x.s.slots[c]) {
      var o := x.s.slots[c].entries[x.s.slots[c].head % cfg.cap];
      var loc' := DrainRound(cfg, x.s, loc, t, c);
      var ls1 := CountOne(cfg, x, loc, t, c);
      var x1 := LifeExec(cfg, x, ls1);
      var loc1 := LifeRunKeepsInv(cfg, x, loc, ls1);
      var ls2 := DrainRun(cfg, x1, loc1, t);
      LifeConcat(cfg, x, ls1, ls2);
      ls := ls1 + ls2;
    } else {
      DrainedMeansOutstanding(cfg, x.s, loc);
      ls := [];
      NoLifeSteps(cfg, x);
    }
  }

  lemma NoLifeSteps(cfg: Config, x: Life)
    requires WellFormed(cfg, x.s)
    ensures IsLifeRun(cfg, x, []) && LifeExec(cfg, x, []) == x
  {
  }

  lemma CountOne(cfg: Config, x: Life, loc: map<Obj, Place>, t: Tid, c: Cpu) returns (ls: seq<LifeLabel>)
    requires LifeInv(cfg, x, loc) && x.fini.Draining? && c in x.s.slots && !Empty(x.s.slots[c])
    requires t in x.s.pops && x.s.pops[t].Idle?
    ensures IsLifeRun(cfg, x, ls)
    ensures var o, s1 := x.s.slots[c].entries[x.s.slots[c].head % cfg.cap], Taken(cfg, x.s, c);
            && LifeExec(cfg, x, ls).s == s1.(held := s1.held - {o}, gone := s1.gone + {o})
            && LifeExec(cfg, x, ls).fini.Draining?
  {
    hide Located, SlotOK, PopperOK, LifeExec, IsLifeRun, IsRun, Exec;
    var o := x.s.slots[c].entries[x.s.slots[c].head % cfg.cap];
    var ms := SoloTryGet(cfg, x.s, loc, t, c);
    LiftRun(cfg, x, ms);
    LifeSnoc(cfg, x, Lift(ms), FiniCount(o));
    ls := Lift(ms) + [FiniCount(o)];
  }

  /** The state with another slot of `c`, and `o` no longer with a caller. */
  ghost function Pushing(s: State, c: Cpu, o: Obj, sl: Slot): State {
    s.(slots := s.slots[c := sl], held := s.held - {o})
  }

  lemma PushStepOf(cfg: Config, s: State, c: Cpu, o: Obj, sl: Slot, sl': Slot, ls: seq<Label>)
    requires WellFormed(cfg, s) && c in s.slots && sl.stack != [] && |sl.entries| == cfg.cap
    requires sl' == AdvancePush(cfg, sl) && IsRun(cfg, Pushing(s, c, o, sl'), ls)
    ensures WellFormed(cfg, Pushing(s, c, o, sl)) && IsRun(cfg, Pushing(s, c, o, sl), [PushStep(c)] + ls)
    ensures Exec(cfg, Pushing(s, c, o, sl), [PushStep(c)] + ls) == Exec(cfg, Pushing(s, c, o, sl'), ls)
  {
    hide IsRun, Exec, AdvancePush;
    assert Next(cfg, Pushing(s, c, o, sl), PushStep(c)) == Pushing(s, c, o, AdvancePush(cfg, sl)) by {
      assert s.slots[c := sl][c := AdvancePush(cfg, sl)] == s.slots[c := AdvancePush(cfg, sl)];
    }
    ExecStep(cfg, Pushing(s, c, o, sl), PushStep(c), ls);
  }

  /** A slot after a push of `o` that has published it and has one more load to do. */
  ghost function Awaiting(cfg: Config, sl: Slot, o: Obj): Slot
    requires cfg.cap > 0 && |sl.entries| == cfg.cap
  {
    Slot(sl.head, sl.tail + 1, sl.tail + 1, sl.entries[sl.tail % cfg.cap := o], [ReadTail(sl.tail + 1)])
  }

  lemma PublishRun(cfg: Config, s: State, c: Cpu, o: Obj) returns (ls: seq<Label>)
    requires WellFormed(cfg, s) && c in s.slots && o in s.held
    requires s.slots[c].stack == [] && s.slots[c].last == s.slots[c].tail
    ensures IsRun(cfg, s, ls) && (forall lb <- ls :: !lb.Retire?)
    ensures Exec(cfg, s, ls) == Pushing(s, c, o, Awaiting(cfg, s.slots[c], o))
  {
    hide IsRun, Exec, Pushing, AdvancePush;
    var sl, t := s.slots[c], s.slots[c].tail;
    var s1, s2 := sl.(stack := [LoadTail(o)]), sl.(stack := [CasTail(o, t)]);
    var s3 := sl.(tail := t + 1, stack := [Write(o, t)]);
    var s4 := sl.(tail := t + 1, entries := sl.entries[t % cfg.cap := o], stack := [CasLast(t, t + 1)]);
    var s5 := Awaiting(cfg, sl, o);
    PushSteps(cfg, sl, o);
    NoSteps(cfg, s, c, o, s5);
    ls := [];
    PushStepOf(cfg, s, c, o, s4, s5, ls);
    ls := [PushStep(c)] + ls;
    PushStepOf(cfg, s, c, o, s3, s4, ls);
    ls := [PushStep(c)] + ls;
    PushStepOf(cfg, s, c, o, s2, s3, ls);
    ls := [PushStep(c)] + ls;
    PushStepOf(cfg, s, c, o, s1, s2, ls);
    ls := [PushStep(c)] + ls;
    PushBeginOf(cfg, s, c, o, ls);
    ls := [PushBegin(c, o)] + ls;
  }

  lemma PushSteps(cfg: Config, sl: Slot, o: Obj)
    requires cfg.cap > 0 && |sl.entries| == cfg.cap && sl.last == sl.tail
    ensures var t := sl.tail;
            var s1, s2 := sl.(stack := [LoadTail(o)]), sl.(stack := [CasTail(o, t)]);
            var s3 := sl.(tail := t + 1, stack := [Write(o, t)]);
            var s4 := sl.(tail := t + 1, entries := sl.entries[t % cfg.cap := o], stack := [CasLast(t, t + 1)]);
            && AdvancePush(cfg, s1) == s2 && AdvancePush(cfg, s2) == s3
            && AdvancePush(cfg, s3) == s4 && AdvancePush(cfg, s4) == Awaiting(cfg, sl, o)
  {
    var t := sl.tail;
    assert [LoadTail(o)][0 := CasTail(o, t)] == [CasTail(o, t)];
    assert [CasTail(o, t)][0 := Write(o, t)] == [Write(o, t)];
    assert [Write(o, t)][0 := CasLast(t, t + 1)] == [CasLast(t, t + 1)];
    assert [CasLast(t, t + 1)][0 := ReadTail(t + 1)] == [ReadTail(t + 1)];
  }

  lemma NoSteps(cfg: Config, s: State, c: Cpu, o: Obj, sl: Slot)
    requires WellFormed(cfg, s) && c in s.slots && |sl.entries| == cfg.cap
    ensures var e := Pushing(s, c, o, sl); WellFormed(cfg, e) && IsRun(cfg, e, []) && Exec(cfg, e, []) == e
  {
  }

  lemma PushBeginOf(cfg: Config, s: State, c: Cpu, o: Obj, ls: seq<Label>)
    requires WellFormed(cfg, s) && c in s.slots && o in s.held && s.slots[c].stack == []
    requires var s' := Pushing(s, c, o, s.slots[c].(stack := [LoadTail(o)])); WellFormed(cfg, s') && IsRun(cfg, s', ls)
    ensures IsRun(cfg, s, [PushBegin(c, o)] + ls)
    ensures Exec(cfg, s, [PushBegin(c, o)] + ls) == Exec(cfg, Pushing(s, c, o, s.slots[c].(stack := [LoadTail(o)])), ls)
  {
    hide IsRun, Exec;
    assert [] + [LoadTail(o)] == [LoadTail(o)];
    ExecStep(cfg, s, PushBegin(c, o), ls);
  }

  /** Every pool, whatever its size, can be freed under a push: an object is popped and pushed back, and while that
      push has one load to do, fini drains the pool and frees it. The next step of the push reads a freed slot. */
  lemma FreedUnderPush(cfg: Config, s: State, loc: map<Obj, Place>, t: Tid, c: Cpu) returns (ls: seq<LifeLabel>)
    requires Initial(cfg, s, loc) && t in s.pops && c in cfg.cpus
    ensures IsLifeRun(cfg, Start(cfg, s), ls)
    ensures var x := LifeExec(cfg, Start(cfg, s), ls);
            && x.frees == 1 && |x.s.slots[c].stack| == 1 && x.s.slots[c].stack[0].ReadTail?
            && LifeEnabled(cfg, x, Machine(PushStep(c)))
  {
    hide Located, SlotOK, PopperOK, LifeExec, IsLifeRun, IsRun, Exec, Published;
    InitialLife(cfg, s, loc);
    var a := PushedBack(cfg, s, loc, t, c);
    var y := LifeExec(cfg, Start(cfg, s), a);
    var loc1 := LifeRunKeepsInv(cfg, Start(cfg, s), loc, a);
    LifeSnoc(cfg, Start(cfg, s), a, FiniBegin);
    a := a + [FiniBegin];
    var z := y.(fini := Draining(1));
    var b := DrainRun(cfg, z, loc1, t);
    LifeConcat(cfg, Start(cfg, s), a, b);
    var u := LifeExec(cfg, z, b);
    var loc2 := LifeRunKeepsInv(cfg, z, loc1, b);
    LifeSnoc(cfg, Start(cfg, s), a + b, FiniEnd);
    ls := a + b + [FiniEnd];
  }

  lemma PushedBack(cfg: Config, s: State, loc: map<Obj, Place>, t: Tid, c: Cpu) returns (ls: seq<LifeLabel>)
    requires Initial(cfg, s, loc) && t in s.pops && c in cfg.cpus
    ensures IsLifeRun(cfg, Start(cfg, s), ls)
    ensures var y := LifeExec(cfg, Start(cfg, s), ls);
            && y == Start(cfg, s).(s := y.s) && y.s.pops == s.pops && y.s.held == {} && Settled(y.s)
            && |y.s.slots[c].stack| == 1 && y.s.slots[c].stack[0].ReadTail?
  {
    hide LifeExec, IsLifeRun, IsRun, Exec, SlotOK, PopperOK, InPlace;
    InitialInv(cfg, s, loc);
    var d := SomewhereFull(cfg, s, loc);
    var o := s.slots[d].entries[s.slots[d].head % cfg.cap];
    var ms1 := SoloTryGet(cfg, s, loc, t, d);
    LiftRun(cfg, Start(cfg, s), ms1);
    var s1 := Taken(cfg, s, d);
    var ms2 := PublishRun(cfg, s1, c, o);
    LiftRun(cfg, Start(cfg, s).(s := s1), ms2);
    LifeConcat(cfg, Start(cfg, s), Lift(ms1), Lift(ms2));
    ls := Lift(ms1) + Lift(ms2);
  }

  lemma SomeMember<T>(a: set<T>) returns (x: T)
    requires |a| > 0
    ensures x in a
  {
    x :| x in a;
  }

  lemma SomewhereFull(cfg: Config, s: State, loc: map<Obj, Place>) returns (d: Cpu)
    requires Initial(cfg, s, loc)
    ensures d in s.slots && !Empty(s.slots[d])
  {
    var o := SomeMember(cfg.objs);
    assert InPlace(cfg, s, loc[o], o);
    d := loc[o].c;
  }
}
