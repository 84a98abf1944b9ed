/** How old a snapshot may be. A clock counts the steps of a run and remembers when each push and pop obtained
    what it compares; a step within 2^32 - nr_objs steps of that moment cannot be fooled by wrapped counters. */
module MemcacheFresh {
  import opened Bits
  import opened MemcacheMachine
  import opened MemcacheWrap

  /** `now` counts steps; `pops` and `frames` are the times at which each pop and each push in flight obtained the
      snapshot it compares next. */
  datatype Clock = Clock(now: nat, pops: map<Tid, nat>, frames: map<Cpu, seq<nat>>)

  ghost predicate Matches(s: State, k: Clock) {
    && k.pops.Keys == s.pops.Keys && k.frames.Keys == s.slots.Keys
    && forall c <- s.slots :: |k.frames[c]| == |s.slots[c].stack|
  }

  /** A push gets what it compares when it loads `tail`, when it writes its entry, and when it has moved
      `last`; a pop when it loads `head`. */
  ghost function Tick(cfg: Config, s: State, k: Clock, lb: Label): (k': Clock)
    requires WellFormed(cfg, s) && Enabled(cfg, s, lb) && Matches(s, k)
    ensures Matches(Next(cfg, s, lb), k')
  {
    var k1 := k.(now := k.now + 1);
    match lb
    case PushBegin(c, _) => k1.(frames := k.frames[c := k.frames[c] + [k.now]])
    case PushStep(c) =>
      var fs, top := k.frames[c], |k.frames[c]| - 1;
      if |AdvancePush(cfg, s.slots[c]).stack| == top then k1.(frames := k.frames[c := fs[..top]])
      else if s.slots[c].stack[top].ReadTail? then k1
      else k1.(frames := k.frames[c := fs[top := k.now]])
    case PopStep(t) => if s.pops[t].LoadHead? then k1.(pops := k.pops[t := k.now]) else k1
    case _ => k1
  }

  /** The push on top of the slot is about to compare a snapshot. */
  predicate PushCompares(sl: Slot) {
    sl.stack != [] && var f := sl.stack[|sl.stack| - 1]; f.CasTail? || f.CasLast? || f.ReadTail?
  }

  predicate PopCompares(p: Popper) {
    p.TestEmpty? || p.TestRange? || p.CasHead?
  }

  /** A snapshot the step compares was obtained less than `bound` steps ago. */
  ghost predicate Prompt(s: State, k: Clock, lb: Label, bound: int)
    requires Matches(s, k)
  {
    match lb
    case PushStep(c) => c in s.slots && PushCompares(s.slots[c]) ==> k.now - k.frames[c][|k.frames[c]| - 1] < bound
    case PopStep(t) => t in s.pops && PopCompares(s.pops[t]) ==> k.now - k.pops[t] < bound
    case _ => true
  }

  ghost predicate PromptRun(cfg: Config, s: State, k: Clock, ls: seq<Label>, bound: int)
    requires WellFormed(cfg, s) && IsRun(cfg, s, ls) && Matches(s, k)
    decreases ls
  {
    ls != [] ==>
      Prompt(s, k, ls[0], bound) && PromptRun(cfg, Next(cfg, s, ls[0]), Tick(cfg, s, k, ls[0]), ls[1..], bound)
  }

  // ----- A counter is no further from a snapshot than the snapshot is old

  ghost predicate FrameAge(cfg: Config, sl: Slot, f: Frame, age: int) {
    match f
    case CasTail(_, t) => sl.tail - t <= age
    case CasLast(t, _) => sl.tail - t <= cfg.nrObjs + age
    case ReadTail(l) => sl.tail - l <= cfg.nrObjs + age
    case _ => true
  }

  ghost predicate PopperAge(sl: Slot, p: Popper, age: int) {
    (p.TestEmpty? || p.TestRange? || p.ReadEntry? || p.CasHead?) ==> sl.head - p.h <= age
  }

  ghost predicate SlotAged(cfg: Config, sl: Slot, times: seq<nat>, now: nat) {
    && |times| == |sl.stack|
    && forall d :: 0 <= d < |sl.stack| ==> FrameAge(cfg, sl, sl.stack[d], now - times[d])
  }

  ghost predicate Aged(cfg: Config, s: State, k: Clock)
    requires WellFormed(cfg, s) && Matches(s, k)
  {
    && (forall c <- s.slots :: SlotAged(cfg, s.slots[c], k.frames[c], k.now))
    && (forall t <- s.pops :: !s.pops[t].Idle? ==> PopperAge(s.slots[s.pops[t].cpu], s.pops[t], k.now - k.pops[t]))
  }

  lemma SlotAges(cfg: Config, sl: Slot, times: seq<nat>, now: nat)
    requires sl.stack != [] && cfg.cap > 0 && |sl.entries| == cfg.cap && SlotOK(sl)
    requires sl.tail - sl.head <= cfg.nrObjs && SlotAged(cfg, sl, times, now)
    ensures var sl', top := AdvancePush(cfg, sl), |sl.stack| - 1;
            var times' := if |sl'.stack| == top then times[..top]
                          else if sl.stack[top].ReadTail? then times else times[top := now];
            SlotAged(cfg, sl', times', now + 1)
  {
    var top := |sl.stack| - 1;
    assert FrameOK(sl, sl.stack[top]) && FrameAge(cfg, sl, sl.stack[top], now - times[top]);
  }

  /** Every step keeps each snapshot's distance from its counter within its age. */
  lemma AgedStep(cfg: Config, s: State, loc: map<Obj, Place>, k: Clock, lb: Label)
    requires Inv(cfg, s, loc) && Enabled(cfg, s, lb) && Matches(s, k) && Aged(cfg, s, k)
    ensures Aged(cfg, Next(cfg, s, lb), Tick(cfg, s, k, lb))
  {
    hide Located, SlotOK, PopperOK, SlotAged, PopperAge, Next, Tick;
    var s', k' := Next(cfg, s, lb), Tick(cfg, s, k, lb);
    StepKeys(cfg, s, k, lb);
    forall c <- s'.slots ensures SlotAged(cfg, s'.slots[c], k'.frames[c], k'.now) { SlotAgesStep(cfg, s, loc, k, lb, c); }
    forall t <- s'.pops | !s'.pops[t].Idle? ensures PopperAge(s'.slots[s'.pops[t].cpu], s'.pops[t], k'.now - k'.pops[t]) {
      PopperAges(cfg, s, loc, k, lb, t);
    }
  }

  lemma StepKeys(cfg: Config, s: State, k: Clock, lb: Label)
    requires WellFormed(cfg, s) && Enabled(cfg, s, lb) && Matches(s, k)
    ensures Next(cfg, s, lb).slots.Keys == s.slots.Keys && Next(cfg, s, lb).pops.Keys == s.pops.Keys
  {
    hide AdvancePush, AdvancePop;
  }

  lemma SlotAgesStep(cfg: Config, s: State, loc: map<Obj, Place>, k: Clock, lb: Label, c: Cpu)
    requires Inv(cfg, s, loc) && Enabled(cfg, s, lb) && Matches(s, k) && c in s.slots
    requires SlotAged(cfg, s.slots[c], k.frames[c], k.now)
    ensures SlotAged(cfg, Next(cfg, s, lb).slots[c], Tick(cfg, s, k, lb).frames[c], Tick(cfg, s, k, lb).now)
  {
    hide Located, SlotOK, PopperOK, SlotAged, AdvancePush, AdvancePop;
    if lb.PushStep? && lb.c == c {
      WindowBound(cfg, s, loc, c);
      SlotAges(cfg, s.slots[c], k.frames[c], k.now);
    } else {
      OtherSlotAges(cfg, s, k, lb, c);
    }
  }

  lemma OtherSlotAges(cfg: Config, s: State, k: Clock, lb: Label, c: Cpu)
    requires WellFormed(cfg, s) && Enabled(cfg, s, lb) && Matches(s, k) && c in s.slots
    requires SlotAged(cfg, s.slots[c], k.frames[c], k.now) && !(lb.PushStep? && lb.c == c)
    ensures SlotAged(cfg, Next(cfg, s, lb).slots[c], Tick(cfg, s, k, lb).frames[c], k.now + 1)
  {
    hide AdvancePush, AdvancePop;
  }

  lemma PopperAges(cfg: Config, s: State, loc: map<Obj, Place>, k: Clock, lb: Label, t: Tid)
    requires Inv(cfg, s, loc) && Enabled(cfg, s, lb) && Matches(s, k) && Aged(cfg, s, k)
    requires t in s.pops && !Next(cfg, s, lb).pops[t].Idle?
    ensures var s', k' := Next(cfg, s, lb), Tick(cfg, s, k, lb);
            PopperAge(s'.slots[s'.pops[t].cpu], s'.pops[t], k'.now - k'.pops[t])
  {
    hide Located, SlotOK, SlotAged, PopperOK;
    if lb == PopStep(t) {
      hide AdvancePush;
    } else if lb.PopBegin? && lb.tid == t {
      hide AdvancePush, AdvancePop, PopperAge;
      Younger();
    } else {
      hide AdvancePop;
      OtherPopperAges(cfg, s, k, lb, t);
    }
  }

  lemma Younger()
    ensures forall sl, c, age :: PopperAge(sl, LoadHead(c), age)
  {
  }

  lemma OtherPopperAges(cfg: Config, s: State, k: Clock, lb: Label, t: Tid)
    requires WellFormed(cfg, s) && Enabled(cfg, s, lb) && Matches(s, k)
    requires t in s.pops && !s.pops[t].Idle? && lb != PopStep(t)
    requires PopperAge(s.slots[s.pops[t].cpu], s.pops[t], k.now - k.pops[t])
    ensures var s', k' := Next(cfg, s, lb), Tick(cfg, s, k, lb);
            PopperAge(s'.slots[s'.pops[t].cpu], s'.pops[t], k'.now - k'.pops[t])
  {
    hide AdvancePop, AdvancePush;
  }

  // ----- Young snapshots do not fool

  /** A step within 2^32 - nr_objs steps of its snapshot is exact. */
  lemma PromptIsExact(cfg: Config, k: nat, s: State, loc: map<Obj, Place>, clock: Clock, lb: Label)
    requires Sized(cfg, k) && Inv(cfg, s, loc) && Enabled(cfg, s, lb) && Matches(s, clock) && Aged(cfg, s, clock)
    requires Prompt(s, clock, lb, TWO_32 - cfg.nrObjs)
    ensures StepExact(cfg, s, lb)
  {
    hide Located;
    SmallCap(cfg, k);
    if lb.PushStep? {
      WindowBound(cfg, s, loc, lb.c);
      PromptPush(cfg, s.slots[lb.c], clock.now - clock.frames[lb.c][|clock.frames[lb.c]| - 1]);
    } else if lb.PopStep? {
      var p := s.pops[lb.tid];
      WindowBound(cfg, s, loc, p.cpu);
      PromptPop(cfg, s.slots[p.cpu], p, clock.now - clock.pops[lb.tid]);
    }
  }

  lemma PromptPush(cfg: Config, sl: Slot, age: int)
    requires 0 < cfg.nrObjs < TWO_32 && sl.stack != [] && SlotOK(sl) && sl.tail - sl.head <= cfg.nrObjs
    requires FrameAge(cfg, sl, sl.stack[|sl.stack| - 1], age) && (PushCompares(sl) ==> age < TWO_32 - cfg.nrObjs)
    ensures PushExact(sl)
  {
    assert FrameOK(sl, sl.stack[|sl.stack| - 1]);
    hide SlotOK;
  }

  lemma PromptPop(cfg: Config, sl: Slot, p: Popper, age: int)
    requires 0 < cfg.nrObjs <= cfg.cap < TWO_32 && !p.Idle? && |sl.entries| == cfg.cap
    requires SlotOK(sl) && sl.tail - sl.head <= cfg.nrObjs && PopperOK(cfg, sl, p)
    requires PopperAge(sl, p, age) && (PopCompares(p) ==> age < TWO_32 - cfg.nrObjs)
    ensures PopExact(cfg, sl, p)
  {
    assert sl.head <= sl.last <= sl.tail;
    hide SlotOK;
  }

  /** Over whole runs: if every step is that prompt, no step is fooled. */
  lemma {:induction false} PromptRunIsExact(cfg: Config, k: nat, s: State, loc: map<Obj, Place>, clock: Clock, ls: seq<Label>)
    requires Sized(cfg, k) && Inv(cfg, s, loc) && IsRun(cfg, s, ls) && Matches(s, clock) && Aged(cfg, s, clock)
    requires PromptRun(cfg, s, clock, ls, TWO_32 - cfg.nrObjs)
    ensures ExactRun(cfg, s, ls)
    decreases ls
  {
    hide Located, SlotOK, PopperOK, Next, Tick, Prompt, StepExact, Aged, Matches;
    if ls != [] {
      PromptIsExact(cfg, k, s, loc, clock, ls[0]);
      AgedStep(cfg, s, loc, clock, ls[0]);
      StepPreservesInv(cfg, s, loc, ls[0]);
      PromptRunIsExact(cfg, k, Next(cfg, s, ls[0]), NextLoc(cfg, s, loc, ls[0]), Tick(cfg, s, clock, ls[0]), ls[1..]);
    }
  }

  /** The clock at initialisation. */
  ghost function Zero(s: State): Clock {
    Clock(0, map t | t in s.pops :: 0, map c | c in s.slots :: [])
  }

  ghost function ExecClock(cfg: Config, s: State, k: Clock, ls: seq<Label>): (k': Clock)
    requires WellFormed(cfg, s) && IsRun(cfg, s, ls) && Matches(s, k)
    ensures Matches(Exec(cfg, s, ls), k')
    decreases ls
  {
    if ls == [] then k else ExecClock(cfg, Next(cfg, s, ls[0]), Tick(cfg, s, k, ls[0]), ls[1..])
  }

  lemma {:induction false} RunKeepsAged(cfg: Config, s: State, loc: map<Obj, Place>, k: Clock, ls: seq<Label>)
    requires Inv(cfg, s, loc) && IsRun(cfg, s, ls) && Matches(s, k) && Aged(cfg, s, k)
    ensures Aged(cfg, Exec(cfg, s, ls), ExecClock(cfg, s, k, ls))
    decreases ls
  {
    hide Located, SlotOK, PopperOK, Next, Tick, Aged, Matches;
    if ls != [] {
      AgedStep(cfg, s, loc, k, ls[0]);
      StepPreservesInv(cfg, s, loc, ls[0]);
      RunKeepsAged(cfg, Next(cfg, s, ls[0]), NextLoc(cfg, s, loc, ls[0]), Tick(cfg, s, k, ls[0]), ls[1..]);
    }
  }

  lemma ZeroMatches(cfg: Config, s: State, loc: map<Obj, Place>)
    requires Initial(cfg, s, loc)
    ensures Matches(s, Zero(s)) && Aged(cfg, s, Zero(s))
  {
    hide Located;
  }

  /** From initialisation, if no thread lets 2^32 - nr_objs steps of the pool pass between obtaining a snapshot
      and using it, the uint32_t pool does what the unbounded one does and hands out no object twice. */
  lemma PromptPopIsExclusive(cfg: Config, k: nat, s: State, loc: map<Obj, Place>, ls: seq<Label>, t: Tid)
    requires Sized(cfg, k) && Initial(cfg, s, loc) && IsRun(cfg, s, ls) && Matches(s, Zero(s))
    requires PromptRun(cfg, s, Zero(s), ls, TWO_32 - cfg.nrObjs)
    requires Enabled(cfg, Exec(cfg, s, ls), PopStep(t))
    requires Prompt(Exec(cfg, s, ls), ExecClock(cfg, s, Zero(s), ls), PopStep(t), TWO_32 - cfg.nrObjs)
    ensures WellFormed(cfg, Trunc(s)) && IsRun32(cfg, k, Trunc(s), ls)
    ensures var r := Exec32(cfg, k, Trunc(s), ls);
            && r == Trunc(Exec(cfg, s, ls)) && t in r.pops
            && (Takes(r, t) ==> r.pops[t].obj in cfg.objs && r.pops[t].obj !in r.held && r.pops[t].obj !in r.gone)
  {
    hide Inv, Exec, ExecClock, Exec32, IsRun, IsRun32, PromptRun, ExactRun, Prompt, StepExact, Aged;
    InitialInv(cfg, s, loc);
    ZeroMatches(cfg, s, loc);
    PromptRunIsExact(cfg, k, s, loc, Zero(s), ls);
    RunKeepsAged(cfg, s, loc, Zero(s), ls);
    var loc' := RunKeepsInv(cfg, s, loc, ls);
    PromptIsExact(cfg, k, Exec(cfg, s, ls), loc', ExecClock(cfg, s, Zero(s), ls), PopStep(t));
    WrapRefinesUnbounded(cfg, k, s, loc, ls);
    if Takes(Exec32(cfg, k, Trunc(s), ls), t) { WrapPopIsExclusive(cfg, k, s, loc, ls, t); }
  }
}
