/** The pool on its real uint32_t counters, and its refinement of the machine with unbounded
    sequence numbers. */
module MemcacheWrap {
  import opened Bits
  import opened MemcacheMachine

  /** The ring size is a power of two no larger than 2^24. */
  ghost predicate Sized(cfg: Config, k: nat) {
    cfg.Valid() && k <= 24 && cfg.cap == Pow2(k)
  }

  // ----- The machine the code implements: all counters below 2^32

  ghost function AdvancePush32(cfg: Config, k: nat, sl: Slot): (r: Slot)
    requires Sized(cfg, k) && sl.stack != [] && |sl.entries| == cfg.cap
    ensures |r.entries| == cfg.cap
  {
    var top, mask := |sl.stack| - 1, cfg.cap - 1;
    match sl.stack[top]
    case LoadTail(o) => sl.(stack := sl.stack[top := CasTail(o, sl.tail)])
    case CasTail(o, t) =>
      if sl.tail == t then sl.(tail := Wrap32(t + 1), stack := sl.stack[top := Write(o, t)])
      else sl.(stack := sl.stack[top := LoadTail(o)])
    case Write(o, t) =>
      MaskIsRemainder(t, k);
      sl.(entries := sl.entries[BitAnd(t, mask) := o], stack := sl.stack[top := CasLast(t, Wrap32(t + 1))])
    case CasLast(t, l) =>
      if sl.last == t then sl.(last := l, stack := sl.stack[top := ReadTail(l)])
      else sl.(stack := sl.stack[..top])
    case ReadTail(l) =>
      if l == sl.tail then sl.(stack := sl.stack[..top])
      else sl.(stack := sl.stack[top := CasLast(l, sl.tail)])
  }

  ghost function AdvancePop32(cfg: Config, k: nat, sl: Slot, p: Popper): Popper
    requires Sized(cfg, k) && !p.Idle? && |sl.entries| == cfg.cap
  {
    match p
    case LoadHead(c) => TestEmpty(c, sl.head)
    case TestEmpty(c, h) => if h == sl.last then Idle else TestRange(c, h)
    case TestRange(c, h) => if Wrap32(sl.last - h - 1) >= cfg.nrObjs then LoadHead(c) else ReadEntry(c, h)
    case ReadEntry(c, h) =>
      MaskIsRemainder(h, k);
      CasHead(c, h, sl.entries[BitAnd(h, cfg.cap - 1)])
    case CasHead(c, h, o) => LoadHead(c)
  }

  ghost function Next32(cfg: Config, k: nat, s: State, lb: Label): (s': State)
    requires Sized(cfg, k) && WellFormed(cfg, s) && Enabled(cfg, s, lb)
    ensures WellFormed(cfg, s')
  {
    match lb
    case PushBegin(c, o) =>
      var sl := s.slots[c];
      s.(slots := s.slots[c := sl.(stack := sl.stack + [LoadTail(o)])], held := s.held - {o})
    case PushStep(c) => s.(slots := s.slots[c := AdvancePush32(cfg, k, s.slots[c])])
    case PopBegin(t, c) => s.(pops := s.pops[t := LoadHead(c)])
    case PopStep(t) =>
      var p := s.pops[t];
      var sl := s.slots[p.cpu];
      if Takes(s, t) then
        s.(slots := s.slots[p.cpu := sl.(head := Wrap32(p.h + 1))], pops := s.pops[t := Idle], held := s.held + {p.obj})
      else
        s.(pops := s.pops[t := AdvancePop32(cfg, k, sl, p)])
    case Retire(o) => s.(held := s.held - {o}, gone := s.gone + {o})
  }

  ghost predicate IsRun32(cfg: Config, k: nat, s: State, ls: seq<Label>)
    requires Sized(cfg, k) && WellFormed(cfg, s)
    decreases ls
  {
    ls != [] ==> Enabled(cfg, s, ls[0]) && IsRun32(cfg, k, Next32(cfg, k, s, ls[0]), ls[1..])
  }

  ghost function Exec32(cfg: Config, k: nat, s: State, ls: seq<Label>): State
    requires Sized(cfg, k) && WellFormed(cfg, s) && IsRun32(cfg, k, s, ls)
    decreases ls
  {
    if ls == [] then s else Exec32(cfg, k, Next32(cfg, k, s, ls[0]), ls[1..])
  }

  // ----- Truncation of a state

  function TruncFrame(f: Frame): Frame {
    match f
    case LoadTail(o) => f
    case CasTail(o, t) => CasTail(o, Wrap32(t))
    case Write(o, t) => Write(o, Wrap32(t))
    case CasLast(t, l) => CasLast(Wrap32(t), Wrap32(l))
    case ReadTail(l) => ReadTail(Wrap32(l))
  }

  function TruncStack(fs: seq<Frame>): (r: seq<Frame>)
    ensures |r| == |fs| && forall i :: 0 <= i < |fs| ==> r[i] == TruncFrame(fs[i])
  {
    seq(|fs|, i requires 0 <= i < |fs| => TruncFrame(fs[i]))
  }

  function TruncSlot(sl: Slot): Slot {
    Slot(Wrap32(sl.head), Wrap32(sl.tail), Wrap32(sl.last), sl.entries, TruncStack(sl.stack))
  }

  function TruncPopper(p: Popper): Popper {
    match p
    case Idle => p
    case LoadHead(c) => p
    case TestEmpty(c, h) => TestEmpty(c, Wrap32(h))
    case TestRange(c, h) => TestRange(c, Wrap32(h))
    case ReadEntry(c, h) => ReadEntry(c, Wrap32(h))
    case CasHead(c, h, o) => CasHead(c, Wrap32(h), o)
  }

  ghost function TruncSlots(m: map<Cpu, Slot>): map<Cpu, Slot> {
    map c | c in m :: TruncSlot(m[c])
  }

  ghost function TruncPoppers(m: map<Tid, Popper>): map<Tid, Popper> {
    map t | t in m :: TruncPopper(m[t])
  }

  ghost function Trunc(s: State): State {
    State(TruncSlots(s.slots), TruncPoppers(s.pops), s.held, s.gone)
  }

  // ----- When a step on truncated counters is right

  /** The comparisons of the push on top of the stack are not fooled: the counter compared with a snapshot is
      the snapshot itself, or not a multiple of 2^32 away from it. */
  ghost predicate PushExact(sl: Slot)
    requires sl.stack != []
  {
    match sl.stack[|sl.stack| - 1]
    case CasTail(_, t) => t == sl.tail || (sl.tail - t) % TWO_32 != 0
    case CasLast(t, _) => t == sl.last || (sl.last - t) % TWO_32 != 0
    case ReadTail(l) => l == sl.tail || (sl.tail - l) % TWO_32 != 0
    case _ => true
  }

  /** Likewise for a pop; its range test is fooled by a snapshot one to nr_objs behind `last` modulo 2^32 but
      not in fact. */
  ghost predicate PopExact(cfg: Config, sl: Slot, p: Popper) {
    match p
    case TestEmpty(_, h) => h == sl.last || (sl.last - h) % TWO_32 != 0
    case TestRange(_, h) => sl.last - h <= cfg.nrObjs || (sl.last - h - 1) % TWO_32 >= cfg.nrObjs
    case CasHead(_, h, _) => h == sl.head || (sl.head - h) % TWO_32 != 0
    case _ => true
  }

  ghost predicate StepExact(cfg: Config, s: State, lb: Label)
    requires WellFormed(cfg, s) && Enabled(cfg, s, lb)
  {
    match lb
    case PushStep(c) => PushExact(s.slots[c])
    case PopStep(t) => PopExact(cfg, s.slots[s.pops[t].cpu], s.pops[t])
    case _ => true
  }

  ghost predicate ExactRun(cfg: Config, s: State, ls: seq<Label>)
    requires WellFormed(cfg, s) && IsRun(cfg, s, ls)
    decreases ls
  {
    ls != [] ==> StepExact(cfg, s, ls[0]) && ExactRun(cfg, Next(cfg, s, ls[0]), ls[1..])
  }

  // ----- Each test agrees

  lemma MaskedIndex(cfg: Config, k: nat, x: nat)
    requires Sized(cfg, k)
    ensures BitAnd(Wrap32(x), cfg.cap - 1) == x % cfg.cap
  {
    MaskIsRemainder(Wrap32(x), k);
    WrapThenRemainder(x, k);
  }

  lemma WrapSucc(x: nat)
    ensures Wrap32(Wrap32(x) + 1) == Wrap32(x + 1)
  {
  }

  lemma SmallCap(cfg: Config, k: nat)
    requires Sized(cfg, k)
    ensures 0 < cfg.nrObjs <= cfg.cap < TWO_32
  {
    Pow2Values();
    Pow2Monotone(k, 24);
  }

  /** Truncated counters are equal exactly when they are a multiple of 2^32 apart. */
  lemma Congruent(a: nat, b: nat)
    ensures Wrap32(a) == Wrap32(b) <==> (b - a) % TWO_32 == 0
  {
  }

  /** The unsigned range test of try_get_slot decides exactly the unbounded one, unless the snapshot is so far
      behind that it is in range again. */
  lemma RangeTestAgrees(cfg: Config, k: nat, h: nat, last: nat)
    requires Sized(cfg, k) && h <= last
    ensures (Wrap32(Wrap32(last) - Wrap32(h) - 1) >= cfg.nrObjs <==> !InRange(cfg, h, last)) <==>
            (last - h <= cfg.nrObjs || (last - h - 1) % TWO_32 >= cfg.nrObjs)
  {
    SmallCap(cfg, k);
    WrapOfDifference(last, h);
    WrapInRange(last - h, cfg.nrObjs);
  }

  lemma WrapOfDifference(a: nat, b: nat)
    ensures Wrap32(Wrap32(a) - Wrap32(b) - 1) == Wrap32(a - b - 1)
  {
  }

  lemma WrapInRange(d: nat, n: nat)
    requires n < TWO_32
    ensures 0 < d <= n ==> Wrap32(d - 1) < n
    ensures d == 0 ==> Wrap32(d - 1) >= n
  {
  }

  lemma TruncTop(fs: seq<Frame>, g: Frame)
    requires fs != []
    ensures TruncStack(fs[|fs| - 1 := g]) == TruncStack(fs)[|fs| - 1 := TruncFrame(g)]
    ensures TruncStack(fs[..|fs| - 1]) == TruncStack(fs)[..|fs| - 1]
  {
  }

  /** A push instruction on truncated counters is the truncation of the unbounded one exactly when its
      comparison is not fooled. */
  lemma PushAgrees(cfg: Config, k: nat, sl: Slot)
    requires Sized(cfg, k) && sl.stack != [] && |sl.entries| == cfg.cap
    ensures AdvancePush32(cfg, k, TruncSlot(sl)) == TruncSlot(AdvancePush(cfg, sl)) <==> PushExact(sl)
  {
    var top := |sl.stack| - 1;
    var f, fs' := sl.stack[top], AdvancePush(cfg, sl).stack;
    TruncTop(sl.stack, if |fs'| > top then fs'[top] else f);
    match f
    case LoadTail(o) =>
    case CasTail(o, t) =>
      WrapSucc(t);
      Congruent(t, sl.tail);
      assert AdvancePush32(cfg, k, TruncSlot(sl)).stack[top].Write? <==> Wrap32(sl.tail) == Wrap32(t);
      assert TruncSlot(AdvancePush(cfg, sl)).stack[top].Write? <==> sl.tail == t;
    case Write(o, t) =>
      WrapSucc(t);
      MaskedIndex(cfg, k, t);
    case CasLast(t, l) =>
      Congruent(t, sl.last);
      assert |AdvancePush32(cfg, k, TruncSlot(sl)).stack| == top <==> Wrap32(sl.last) != Wrap32(t);
      assert |TruncSlot(AdvancePush(cfg, sl)).stack| == top <==> sl.last != t;
    case ReadTail(l) =>
      Congruent(l, sl.tail);
      assert |AdvancePush32(cfg, k, TruncSlot(sl)).stack| == top <==> Wrap32(sl.tail) == Wrap32(l);
      assert |TruncSlot(AdvancePush(cfg, sl)).stack| == top <==> sl.tail == l;
  }

  /** A pop instruction on truncated counters is the truncation of the unbounded one, and takes an object in the
      same cases, exactly when its test is not fooled. */
  lemma PopAgrees(cfg: Config, k: nat, sl: Slot, p: Popper)
    requires Sized(cfg, k) && |sl.entries| == cfg.cap && SlotOK(sl) && !p.Idle? && PopperOK(cfg, sl, p)
    ensures PopExact(cfg, sl, p) <==>
            && AdvancePop32(cfg, k, TruncSlot(sl), TruncPopper(p)) == TruncPopper(AdvancePop(cfg, sl, p))
            && (p.CasHead? ==> (Wrap32(sl.head) == Wrap32(p.h) <==> sl.head == p.h))
  {
    assert sl.head <= sl.last <= sl.tail;
    hide SlotOK, Wrap32, BitAnd, Pow2;
    match p
    case LoadHead(c) =>
    case TestEmpty(c, h) => Congruent(h, sl.last);
    case TestRange(c, h) => RangePopAgrees(cfg, k, sl, c, h);
    case ReadEntry(c, h) => MaskedIndex(cfg, k, h);
    case CasHead(c, h, o) => Congruent(h, sl.head);
  }

  lemma RangePopAgrees(cfg: Config, k: nat, sl: Slot, c: Cpu, h: nat)
    requires Sized(cfg, k) && |sl.entries| == cfg.cap && h <= sl.last
    ensures PopExact(cfg, sl, TestRange(c, h)) <==>
            AdvancePop32(cfg, k, TruncSlot(sl), TruncPopper(TestRange(c, h))) == TruncPopper(AdvancePop(cfg, sl, TestRange(c, h)))
  {
    RangeTestAgrees(cfg, k, h, sl.last);
    hide InRange, Wrap32;
  }

  lemma TruncUpdate(m: map<Cpu, Slot>, c: Cpu, sl: Slot)
    ensures TruncSlots(m[c := sl]) == TruncSlots(m)[c := TruncSlot(sl)]
  {
  }

  lemma TruncPopperUpdate(m: map<Tid, Popper>, t: Tid, p: Popper)
    ensures TruncPoppers(m[t := p]) == TruncPoppers(m)[t := TruncPopper(p)]
  {
  }

  lemma TruncWellFormed(cfg: Config, s: State)
    requires WellFormed(cfg, s)
    ensures WellFormed(cfg, Trunc(s))
  {
    assert Trunc(s).slots.Keys == s.slots.Keys;
  }

  /** One step of the code on truncated counters is the truncation of one unbounded step if and only if the
      snapshot it compares is not fooled. */
  lemma StepAgrees(cfg: Config, k: nat, s: State, loc: map<Obj, Place>, lb: Label)
    requires Sized(cfg, k) && Inv(cfg, s, loc) && Enabled(cfg, s, lb)
    ensures WellFormed(cfg, Trunc(s)) && Enabled(cfg, Trunc(s), lb)
    ensures Next32(cfg, k, Trunc(s), lb) == Trunc(Next(cfg, s, lb)) <==> StepExact(cfg, s, lb)
  {
    hide Located, SlotOK;
    TruncWellFormed(cfg, s);
    match lb
    case PushBegin(c, o) =>
      var sl := s.slots[c];
      assert TruncStack(sl.stack + [LoadTail(o)]) == TruncStack(sl.stack) + [LoadTail(o)];
      TruncUpdate(s.slots, c, sl.(stack := sl.stack + [LoadTail(o)]));
    case PushStep(c) => PushStepAgrees(cfg, k, s, c);
    case PopBegin(t, c) => TruncPopperUpdate(s.pops, t, LoadHead(c));
    case PopStep(t) =>
      PopAgrees(cfg, k, s.slots[s.pops[t].cpu], s.pops[t]);
      PopStepAgrees(cfg, k, s, t);
    case Retire(o) =>
  }

  lemma PushStepAgrees(cfg: Config, k: nat, s: State, c: Cpu)
    requires Sized(cfg, k) && WellFormed(cfg, s) && Enabled(cfg, s, PushStep(c))
    requires WellFormed(cfg, Trunc(s)) && Enabled(cfg, Trunc(s), PushStep(c))
    ensures Next32(cfg, k, Trunc(s), PushStep(c)) == Trunc(Next(cfg, s, PushStep(c))) <==> PushExact(s.slots[c])
  {
    hide PushExact, AdvancePush, AdvancePush32;
    PushAgrees(cfg, k, s.slots[c]);
    TruncUpdate(s.slots, c, AdvancePush(cfg, s.slots[c]));
    assert Trunc(Next(cfg, s, PushStep(c))).slots[c] == TruncSlot(AdvancePush(cfg, s.slots[c]));
    assert Next32(cfg, k, Trunc(s), PushStep(c)).slots[c] == AdvancePush32(cfg, k, TruncSlot(s.slots[c]));
  }

  lemma PopStepAgrees(cfg: Config, k: nat, s: State, t: Tid)
    requires Sized(cfg, k) && WellFormed(cfg, s) && Enabled(cfg, s, PopStep(t))
    requires WellFormed(cfg, Trunc(s)) && Enabled(cfg, Trunc(s), PopStep(t))
    ensures var p, sl := s.pops[t], s.slots[s.pops[t].cpu];
            Next32(cfg, k, Trunc(s), PopStep(t)) == Trunc(Next(cfg, s, PopStep(t))) <==>
              && AdvancePop32(cfg, k, TruncSlot(sl), TruncPopper(p)) == TruncPopper(AdvancePop(cfg, sl, p))
              && (p.CasHead? ==> (Wrap32(sl.head) == Wrap32(p.h) <==> sl.head == p.h))
  {
    var p, sl := s.pops[t], s.slots[s.pops[t].cpu];
    assert Takes(Trunc(s), t) <==> p.CasHead? && Wrap32(sl.head) == Wrap32(p.h);
    if Takes(s, t) {
      TakeStepAgrees(cfg, k, s, t);
    } else if Takes(Trunc(s), t) {
      FooledTake(cfg, k, s, t);
    } else {
      OtherPopStepAgrees(cfg, k, s, t);
    }
  }

  lemma TakeStepAgrees(cfg: Config, k: nat, s: State, t: Tid)
    requires Sized(cfg, k) && WellFormed(cfg, s) && Enabled(cfg, s, PopStep(t)) && Takes(s, t)
    requires WellFormed(cfg, Trunc(s)) && Enabled(cfg, Trunc(s), PopStep(t))
    ensures Next32(cfg, k, Trunc(s), PopStep(t)) == Trunc(Next(cfg, s, PopStep(t)))
  {
    hide AdvancePop, AdvancePop32, Wrap32, TruncSlots, TruncPoppers;
    var p, sl := s.pops[t], s.slots[s.pops[t].cpu];
    TruncatedEntries(s, t);
    WrapSucc(p.h);
    TruncUpdate(s.slots, p.cpu, sl.(head := p.h + 1));
    TruncPopperUpdate(s.pops, t, Idle);
  }

  lemma TruncatedEntries(s: State, t: Tid)
    requires t in s.pops && !s.pops[t].Idle? && s.pops[t].cpu in s.slots
    ensures t in Trunc(s).pops && Trunc(s).pops[t] == TruncPopper(s.pops[t])
    ensures s.pops[t].cpu in Trunc(s).slots && Trunc(s).slots[s.pops[t].cpu] == TruncSlot(s.slots[s.pops[t].cpu])
  {
  }

  /** The truncated compare-and-swap succeeds where the unbounded one fails. */
  lemma FooledTake(cfg: Config, k: nat, s: State, t: Tid)
    requires Sized(cfg, k) && WellFormed(cfg, s) && Enabled(cfg, s, PopStep(t)) && !Takes(s, t)
    requires WellFormed(cfg, Trunc(s)) && Enabled(cfg, Trunc(s), PopStep(t)) && Takes(Trunc(s), t)
    ensures Next32(cfg, k, Trunc(s), PopStep(t)) != Trunc(Next(cfg, s, PopStep(t)))
  {
    hide AdvancePop32, Wrap32;
    var p, sl := s.pops[t], s.slots[s.pops[t].cpu];
    TruncPopperUpdate(s.pops, t, AdvancePop(cfg, sl, p));
    assert Trunc(Next(cfg, s, PopStep(t))).pops[t] == TruncPopper(AdvancePop(cfg, sl, p));
    assert Next32(cfg, k, Trunc(s), PopStep(t)).pops[t] == Idle;
  }

  lemma OtherPopStepAgrees(cfg: Config, k: nat, s: State, t: Tid)
    requires Sized(cfg, k) && WellFormed(cfg, s) && Enabled(cfg, s, PopStep(t)) && !Takes(s, t)
    requires WellFormed(cfg, Trunc(s)) && Enabled(cfg, Trunc(s), PopStep(t)) && !Takes(Trunc(s), t)
    ensures var p, sl := s.pops[t], s.slots[s.pops[t].cpu];
            Next32(cfg, k, Trunc(s), PopStep(t)) == Trunc(Next(cfg, s, PopStep(t))) <==>
            AdvancePop32(cfg, k, TruncSlot(sl), TruncPopper(p)) == TruncPopper(AdvancePop(cfg, sl, p))
  {
    hide AdvancePop, AdvancePop32, Wrap32, TruncSlot;
    var p, sl := s.pops[t], s.slots[s.pops[t].cpu];
    TruncPopperUpdate(s.pops, t, AdvancePop(cfg, sl, p));
    assert Trunc(Next(cfg, s, PopStep(t))).pops[t] == TruncPopper(AdvancePop(cfg, sl, p));
    assert Next32(cfg, k, Trunc(s), PopStep(t)).pops[t] == AdvancePop32(cfg, k, TruncSlot(sl), TruncPopper(p));
  }

  /** Refinement over whole runs: the uint32_t pool does step for step what the unbounded one does, as long as no
      step compares a snapshot that has fooled it. */
  lemma {:induction false} WrapRefinesUnbounded(cfg: Config, k: nat, s: State, loc: map<Obj, Place>, ls: seq<Label>)
    requires Sized(cfg, k) && Inv(cfg, s, loc) && IsRun(cfg, s, ls) && ExactRun(cfg, s, ls)
    ensures WellFormed(cfg, Trunc(s)) && IsRun32(cfg, k, Trunc(s), ls)
    ensures Exec32(cfg, k, Trunc(s), ls) == Trunc(Exec(cfg, s, ls))
    decreases ls
  {
    hide Located, SlotOK, PopperOK, Next, Next32, Trunc;
    TruncWellFormed(cfg, s);
    if ls != [] {
      StepAgrees(cfg, k, s, loc, ls[0]);
      StepPreservesInv(cfg, s, loc, ls[0]);
      WrapRefinesUnbounded(cfg, k, Next(cfg, s, ls[0]), NextLoc(cfg, s, loc, ls[0]), ls[1..]);
    }
  }

  lemma TruncatedTakeIsExclusive(cfg: Config, k: nat, u: State, loc: map<Obj, Place>, t: Tid)
    requires Sized(cfg, k) && Inv(cfg, u, loc)
    requires t in u.pops && Takes(Trunc(u), t) && StepExact(cfg, u, PopStep(t))
    ensures var o := Trunc(u).pops[t].obj; o in cfg.objs && o !in u.held && o !in u.gone
  {
    hide SlotOK;
    PopAgrees(cfg, k, u.slots[u.pops[t].cpu], u.pops[t]);
    TakenFromHead(cfg, u, loc, t);
    var o := u.pops[t].obj;
    assert InPlace(cfg, u, Held, o) <==> o in u.held;
    assert InPlace(cfg, u, Gone, o) <==> o in u.gone;
  }

  /** Exclusive ownership carries over to the uint32_t pool: after any run from initialisation, an object the
      compare-and-swap hands out is with no caller and not discarded, if no snapshot fooled a step. */
  lemma WrapPopIsExclusive(cfg: Config, k: nat, s: State, loc: map<Obj, Place>, ls: seq<Label>, t: Tid)
    requires Sized(cfg, k) && Initial(cfg, s, loc) && IsRun(cfg, s, ls) && ExactRun(cfg, s, ls)
    requires WellFormed(cfg, Trunc(s)) && IsRun32(cfg, k, Trunc(s), ls)
    requires var r := Exec32(cfg, k, Trunc(s), ls); t in r.pops && Takes(r, t)
    requires Enabled(cfg, Exec(cfg, s, ls), PopStep(t)) && StepExact(cfg, Exec(cfg, s, ls), PopStep(t))
    ensures var r := Exec32(cfg, k, Trunc(s), ls);
            r.pops[t].obj in cfg.objs && r.pops[t].obj !in r.held && r.pops[t].obj !in r.gone
  {
    hide Inv, Exec, Exec32, IsRun, IsRun32, ExactRun, StepExact;
    InitialInv(cfg, s, loc);
    WrapRefinesUnbounded(cfg, k, s, loc, ls);
    var loc' := RunKeepsInv(cfg, s, loc, ls);
    TruncatedTakeIsExclusive(cfg, k, Exec(cfg, s, ls), loc', t);
  }
}
