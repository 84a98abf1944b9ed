/** The lock-free object pool as a transition system.

    Each possible CPU owns one ring (`Slot`). A push runs on the CPU it was called on and may be
    interrupted there by another push, so the pushes in flight on one CPU form a stack of frames of
    which only the top one runs. A pop may run anywhere and takes from any slot. Every step below is
    one load, store or compare-and-swap of the source; memory is sequentially consistent.

    The counters here are unbounded sequence numbers; MemcacheWrap relates them to uint32_t. */
module MemcacheMachine {
  import opened Bits

  type Obj = int
  type Cpu = int
  type Tid = int

  /** `cap` is the ring size; `objs` are the objects created by initialisation. */
  datatype Config = Config(cpus: set<Cpu>, objs: set<Obj>, nrObjs: nat, cap: nat) {
    ghost predicate Valid() {
      0 < |objs| <= nrObjs <= cap
    }
  }

  /** One push in flight, by the next instruction it executes. `t` and `l` are the locals
      `tail` and `last` of the source. */
  datatype Frame =
    | LoadTail(obj: Obj)
    | CasTail(obj: Obj, t: nat)
    | Write(obj: Obj, t: nat)
    | CasLast(t: nat, l: nat)
    | ReadTail(l: nat)

  datatype Slot = Slot(head: nat, tail: nat, last: nat, entries: seq<Obj>, stack: seq<Frame>)

  /** One call of try_get_slot, by the next instruction it executes. `h` is the local `head`. */
  datatype Popper =
    | Idle
    | LoadHead(cpu: Cpu)
    | TestEmpty(cpu: Cpu, h: nat)
    | TestRange(cpu: Cpu, h: nat)
    | ReadEntry(cpu: Cpu, h: nat)
    | CasHead(cpu: Cpu, h: nat, obj: Obj)

  /** `held` are the objects owned by callers, `gone` those discarded for good. */
  datatype State = State(slots: map<Cpu, Slot>, pops: map<Tid, Popper>, held: set<Obj>, gone: set<Obj>)

  datatype Label =
    | PushBegin(c: Cpu, o: Obj)
    | PushStep(c: Cpu)
    | PopBegin(tid: Tid, c: Cpu)
    | PopStep(tid: Tid)
    | Retire(o: Obj)

  // ----- Steps

  /** One instruction of the push on top of the stack. */
  function AdvancePush(cfg: Config, sl: Slot): (r: Slot)
    requires sl.stack != [] && cfg.cap > 0 && |sl.entries| == cfg.cap
    ensures |r.entries| == cfg.cap && r.head == sl.head
  {
    var top := |sl.stack| - 1;
    match sl.stack[top]
    case LoadTail(o) => sl.(stack := sl.stack[top := CasTail(o, sl.tail)])
    case CasTail(o, t) =>
      if sl.tail == t then sl.(tail := t + 1, stack := sl.stack[top := Write(o, t)])
      else sl.(stack := sl.stack[top := LoadTail(o)])
    case Write(o, t) =>
      sl.(entries := sl.entries[t % cfg.cap := o], stack := sl.stack[top := CasLast(t, t + 1)])
    case CasLast(t, l) =>
      if sl.last == t then sl.(last := l, stack := sl.stack[top := ReadTail(l)])
      else sl.(stack := sl.stack[..top])
    case ReadTail(l) =>
      if l == sl.tail then sl.(stack := sl.stack[..top])
      else sl.(stack := sl.stack[top := CasLast(l, sl.tail)])
  }

  /** The range test of try_get_slot: some published entry lies at `h`, at most nr_objs behind `last`. */
  predicate InRange(cfg: Config, h: nat, last: nat) {
    h < last <= h + cfg.nrObjs
  }

  /** One instruction of a pop that does not change memory. */
  function AdvancePop(cfg: Config, sl: Slot, p: Popper): Popper
    requires !p.Idle? && cfg.cap > 0 && |sl.entries| == cfg.cap
  {
    match p
    case LoadHead(c) => TestEmpty(c, sl.head)
    case TestEmpty(c, h) => if h == sl.last then Idle else TestRange(c, h)
    case TestRange(c, h) => if InRange(cfg, h, sl.last) then ReadEntry(c, h) else LoadHead(c)
    case ReadEntry(c, h) => CasHead(c, h, sl.entries[h % cfg.cap])
    case CasHead(c, h, o) => LoadHead(c)
  }

  ghost predicate WellFormed(cfg: Config, s: State) {
    && cfg.Valid()
    && s.slots.Keys == cfg.cpus
    && (forall c <- s.slots :: |s.slots[c].entries| == cfg.cap)
    && (forall t <- s.pops :: !s.pops[t].Idle? ==> s.pops[t].cpu in s.slots)
  }

  ghost predicate Enabled(cfg: Config, s: State, lb: Label) {
    match lb
    case PushBegin(c, o) => c in s.slots && o in s.held
    case PushStep(c) => c in s.slots && s.slots[c].stack != []
    case PopBegin(t, c) => c in s.slots && t in s.pops && s.pops[t].Idle?
    case PopStep(t) => t in s.pops && !s.pops[t].Idle?
    case Retire(o) => o in s.held
  }

  /** The compare-and-swap that takes an object out of a slot succeeds. */
  ghost predicate Takes(s: State, t: Tid)
    requires t in s.pops
  {
    var p := s.pops[t];
    p.CasHead? && p.cpu in s.slots && s.slots[p.cpu].head == p.h
  }

  ghost function Next(cfg: Config, s: State, lb: Label): (s': State)
    requires WellFormed(cfg, s) && Enabled(cfg, s, lb)
    ensures WellFormed(cfg, s')
  {
    match lb
    case PushBegin(c, o) =>
      var sl := s.slots[c];
      s.(slots := s.slots[c := sl.(stack := sl.stack + [LoadTail(o)])], held := s.held - {o})
    case PushStep(c) => s.(slots := s.slots[c := AdvancePush(cfg, s.slots[c])])
    case PopBegin(t, c) => s.(pops := s.pops[t := LoadHead(c)])
    case PopStep(t) =>
      var p := s.pops[t];
      var sl := s.slots[p.cpu];
      if Takes(s, t) then
        s.(slots := s.slots[p.cpu := sl.(head := p.h + 1)], pops := s.pops[t := Idle], held := s.held + {p.obj})
      else
        s.(pops := s.pops[t := AdvancePop(cfg, sl, p)])
    case Retire(o) => s.(held := s.held - {o}, gone := s.gone + {o})
  }

  ghost predicate IsRun(cfg: Config, s: State, ls: seq<Label>)
    requires WellFormed(cfg, s)
    decreases ls
  {
    ls != [] ==> Enabled(cfg, s, ls[0]) && IsRun(cfg, Next(cfg, s, ls[0]), ls[1..])
  }

  ghost function Exec(cfg: Config, s: State, ls: seq<Label>): (s': State)
    requires WellFormed(cfg, s) && IsRun(cfg, s, ls)
    ensures WellFormed(cfg, s')
    decreases ls
  {
    if ls == [] then s else Exec(cfg, Next(cfg, s, ls[0]), ls[1..])
  }

  // ----- Where an object is

  datatype Place =
    | Ring(c: Cpu, pos: nat)       // written at a sequence number of a slot
    | Pending(c: Cpu, depth: nat)  // carried by a push that has not written it yet
    | Held
    | Gone

  /** Position `pos` is reserved by a push that has not stored its object there yet. */
  ghost predicate Unwritten(sl: Slot, pos: nat) {
    exists d :: 0 <= d < |sl.stack| && sl.stack[d].Write? && sl.stack[d].t == pos
  }

  ghost predicate Carries(f: Frame, o: Obj) {
    (f.LoadTail? || f.CasTail? || f.Write?) && f.obj == o
  }

  ghost predicate InRing(cfg: Config, sl: Slot, pos: nat, o: Obj) {
    && sl.head <= pos < sl.tail
    && !Unwritten(sl, pos)
    && 0 < cfg.cap == |sl.entries|
    && sl.entries[pos % cfg.cap] == o
  }

  ghost predicate InPlace(cfg: Config, s: State, p: Place, o: Obj) {
    match p
    case Ring(c, pos) => c in s.slots && InRing(cfg, s.slots[c], pos, o)
    case Pending(c, d) => c in s.slots && d < |s.slots[c].stack| && Carries(s.slots[c].stack[d], o)
    case Held => o in s.held
    case Gone => o in s.gone
  }

  // ----- Invariant

  /** A frame that will still move `last` forward from where it is now. */
  ghost predicate Responsible(f: Frame, last: nat) {
    || (f.Write? && f.t == last)
    || (f.CasLast? && f.t == last)
    || (f.ReadTail? && f.l == last)
  }

  ghost predicate FrameOK(sl: Slot, f: Frame) {
    match f
    case LoadTail(_) => true
    case CasTail(_, t) => t <= sl.tail
    case Write(_, t) => sl.last <= t < sl.tail
    case CasLast(t, l) => t < l <= sl.tail
    case ReadTail(l) => l <= sl.tail
  }

  /** What the frame `g`, nested inside the frame `f`, owes to it: positions reserved later are larger. */
  ghost predicate Nested(f: Frame, g: Frame) {
    f.Write? ==>
      && (g.Write? ==> f.t < g.t)
      && (g.CasLast? ==> f.t < g.t)
      && (g.ReadTail? ==> f.t < g.l)
  }

  ghost predicate SlotOK(sl: Slot) {
    && sl.head <= sl.last <= sl.tail
    && (forall d :: 0 <= d < |sl.stack| ==> FrameOK(sl, sl.stack[d]))
    && (forall d, e :: 0 <= d < e < |sl.stack| ==> Nested(sl.stack[d], sl.stack[e]))
    && (sl.last < sl.tail ==> exists d :: 0 <= d < |sl.stack| && Responsible(sl.stack[d], sl.last))
  }

  ghost predicate PopperOK(cfg: Config, sl: Slot, p: Popper)
    requires !p.Idle? && cfg.cap > 0 && |sl.entries| == cfg.cap
  {
    match p
    case LoadHead(_) => true
    case TestEmpty(_, h) => h <= sl.head
    case TestRange(_, h) => h <= sl.head
    case ReadEntry(_, h) => h <= sl.head && h < sl.last
    case CasHead(_, h, o) => h <= sl.head && h < sl.last && (h == sl.head ==> o == sl.entries[h % cfg.cap])
  }

  /** `loc` gives each object its one place. */
  ghost predicate Located(cfg: Config, s: State, loc: map<Obj, Place>) {
    && loc.Keys == cfg.objs
    && (forall o <- loc :: InPlace(cfg, s, loc[o], o))
    && (forall p, o :: InPlace(cfg, s, p, o) ==> o in loc && loc[o] == p)
  }

  ghost predicate Inv(cfg: Config, s: State, loc: map<Obj, Place>) {
    && WellFormed(cfg, s)
    && Located(cfg, s, loc)
    && (forall c <- s.slots :: SlotOK(s.slots[c]))
    && (forall t <- s.pops :: !s.pops[t].Idle? ==> PopperOK(cfg, s.slots[s.pops[t].cpu], s.pops[t]))
  }

  // ----- Pushes keep a slot well formed

  lemma AdvanceOK(cfg: Config, sl: Slot)
    requires sl.stack != [] && cfg.cap > 0 && |sl.entries| == cfg.cap && SlotOK(sl)
    ensures SlotOK(AdvancePush(cfg, sl))
    ensures sl.last <= AdvancePush(cfg, sl).last
  {
    var top := |sl.stack| - 1;
    var sl' := AdvancePush(cfg, sl);
    assert FrameOK(sl, sl.stack[top]);
    FramesStayOK(cfg, sl);
    if sl.last < sl.tail {
      var d :| 0 <= d < |sl.stack| && Responsible(sl.stack[d], sl.last);
      if sl'.last == sl.last && sl'.last < sl'.tail {
        StillResponsible(cfg, sl, d);
      }
    }
    hide SlotOK, Nested, FrameOK;
    if sl'.last != sl.last {
      assert Responsible(sl'.stack[top], sl'.last);
    }
    if sl'.tail != sl.tail && sl.last == sl.tail {
      assert Responsible(sl'.stack[top], sl'.last);
    }
  }

  lemma FramesStayOK(cfg: Config, sl: Slot)
    requires sl.stack != [] && cfg.cap > 0 && |sl.entries| == cfg.cap && SlotOK(sl)
    ensures var sl' := AdvancePush(cfg, sl);
            && (forall d :: 0 <= d < |sl'.stack| ==> FrameOK(sl', sl'.stack[d]))
            && (forall d, e :: 0 <= d < e < |sl'.stack| ==> Nested(sl'.stack[d], sl'.stack[e]))
  {
    hide Responsible;
    var top := |sl.stack| - 1;
    var sl' := AdvancePush(cfg, sl);
    assert FrameOK(sl, sl.stack[top]);
    if sl'.last != sl.last { NoUnwrittenBelow(sl); }
    assert forall d :: 0 <= d < top ==> sl'.stack[d] == sl.stack[d];
  }

  /** Publishing succeeds only when every reserved position has been written. */
  lemma NoUnwrittenBelow(sl: Slot)
    requires sl.stack != [] && SlotOK(sl)
    requires sl.stack[|sl.stack| - 1].CasLast? && sl.stack[|sl.stack| - 1].t == sl.last
    ensures forall d :: 0 <= d < |sl.stack| ==> !sl.stack[d].Write?
  {
    var top := |sl.stack| - 1;
    assert forall d :: 0 <= d < top ==> Nested(sl.stack[d], sl.stack[top]) && FrameOK(sl, sl.stack[d]);
  }

  lemma StillResponsible(cfg: Config, sl: Slot, d: nat)
    requires sl.stack != [] && cfg.cap > 0 && |sl.entries| == cfg.cap && SlotOK(sl)
    requires d < |sl.stack| && Responsible(sl.stack[d], sl.last)
    requires AdvancePush(cfg, sl).last == sl.last < AdvancePush(cfg, sl).tail
    ensures d < |AdvancePush(cfg, sl).stack| && Responsible(AdvancePush(cfg, sl).stack[d], sl.last)
  {
  }

  // ----- Conservation bounds every window

  /** The first `k` positions of a slot's window are occupied by `k` different objects. */
  lemma {:induction false} Occupants(cfg: Config, s: State, loc: map<Obj, Place>, c: Cpu, k: nat) returns (occ: set<Obj>)
    requires WellFormed(cfg, s) && Located(cfg, s, loc)
    requires c in s.slots && s.slots[c].head + k <= s.slots[c].tail
    ensures |occ| == k && occ <= cfg.objs
    ensures forall o <- occ :: o in loc &&
              match loc[o]
              case Ring(c', pos) => c' == c && pos < s.slots[c].head + k
              case Pending(c', d) =>
                && c' == c && d < |s.slots[c].stack| && s.slots[c].stack[d].Write?
                && s.slots[c].stack[d].t < s.slots[c].head + k
              case _ => false
  {
    if k == 0 {
      occ := {};
    } else {
      var rest := Occupants(cfg, s, loc, c, k - 1);
      var sl, pos := s.slots[c], s.slots[c].head + k - 1;
      var o, p;
      if Unwritten(sl, pos) {
        var d :| 0 <= d < |sl.stack| && sl.stack[d].Write? && sl.stack[d].t == pos;
        o, p := sl.stack[d].obj, Pending(c, d);
      } else {
        o, p := sl.entries[pos % cfg.cap], Ring(c, pos);
      }
      assert InPlace(cfg, s, p, o);
      assert o !in rest;
      occ := rest + {o};
    }
  }

  /** No slot ever spans more positions than there are objects, so none spans more than its ring. */
  lemma WindowBound(cfg: Config, s: State, loc: map<Obj, Place>, c: Cpu)
    requires WellFormed(cfg, s) && Located(cfg, s, loc) && c in s.slots && SlotOK(s.slots[c])
    ensures s.slots[c].tail - s.slots[c].head <= |cfg.objs| <= cfg.nrObjs <= cfg.cap
  {
    var sl := s.slots[c];
    var occ := Occupants(cfg, s, loc, c, sl.tail - sl.head);
    SubsetCardinality(occ, cfg.objs);
  }

  lemma {:induction false} SubsetCardinality<T>(a: set<T>, b: set<T>)
    requires a <= b
    ensures |a| <= |b|
  {
    if a != {} {
      var x :| x in a;
      SubsetCardinality(a - {x}, b - {x});
    }
  }

  // ----- Every step keeps the invariant

  /** The place of each object after a step. */
  ghost function NextLoc(cfg: Config, s: State, loc: map<Obj, Place>, lb: Label): map<Obj, Place>
    requires WellFormed(cfg, s) && Enabled(cfg, s, lb)
  {
    match lb
    case PushBegin(c, o) => loc[o := Pending(c, |s.slots[c].stack|)]
    case PushStep(c) =>
      var f := s.slots[c].stack[|s.slots[c].stack| - 1];
      if f.Write? then loc[f.obj := Ring(c, f.t)] else loc
    case PopBegin(_, _) => loc
    case PopStep(t) => if Takes(s, t) then loc[s.pops[t].obj := Held] else loc
    case Retire(o) => loc[o := Gone]
  }

  /** Distinct positions of one window fall on distinct ring entries. */
  lemma DistinctEntries(cfg: Config, a: nat, b: nat)
    requires cfg.cap > 0 && a != b && a - b < cfg.cap && b - a < cfg.cap
    ensures a % cfg.cap != b % cfg.cap
  {
    CloseRemainders(a, b, cfg.cap);
  }

  lemma PushBeginLocated(cfg: Config, s: State, loc: map<Obj, Place>, c: Cpu, o: Obj)
    requires Inv(cfg, s, loc) && Enabled(cfg, s, PushBegin(c, o))
    ensures Located(cfg, Next(cfg, s, PushBegin(c, o)), NextLoc(cfg, s, loc, PushBegin(c, o)))
  {
    hide SlotOK, PopperOK, InRing;
    var s', loc' := Next(cfg, s, PushBegin(c, o)), NextLoc(cfg, s, loc, PushBegin(c, o));
    var sl := s.slots[c];
    PushBeginPlaces(cfg, sl, o);
    assert InPlace(cfg, s, Held, o);
    forall p, q | InPlace(cfg, s', p, q)
      ensures q in loc' && loc'[q] == p
    {
      if p != Pending(c, |sl.stack|) { assert InPlace(cfg, s, p, q); }
    }
    forall q <- loc'
      ensures InPlace(cfg, s', loc'[q], q)
    {
      if q != o { assert InPlace(cfg, s, loc[q], q); }
    }
  }

  lemma PushBeginPlaces(cfg: Config, sl: Slot, o: Obj)
    ensures forall pos: nat, q :: InRing(cfg, sl.(stack := sl.stack + [LoadTail(o)]), pos, q) <==> InRing(cfg, sl, pos, q)
  {
    var sl' := sl.(stack := sl.stack + [LoadTail(o)]);
    assert forall pos: nat :: Unwritten(sl', pos) <==> Unwritten(sl, pos) by {
      assert forall d :: 0 <= d < |sl.stack| ==> sl'.stack[d] == sl.stack[d];
    }
    hide Unwritten;
  }

  lemma RetireLocated(cfg: Config, s: State, loc: map<Obj, Place>, o: Obj)
    requires Inv(cfg, s, loc) && Enabled(cfg, s, Retire(o))
    ensures Located(cfg, Next(cfg, s, Retire(o)), NextLoc(cfg, s, loc, Retire(o)))
  {
    var s', loc' := Next(cfg, s, Retire(o)), NextLoc(cfg, s, loc, Retire(o));
    assert InPlace(cfg, s, Held, o);
    forall p, q | InPlace(cfg, s', p, q)
      ensures q in loc' && loc'[q] == p
    {
      if p != Gone || q != o { assert InPlace(cfg, s, p, q); }
    }
    forall q <- loc'
      ensures InPlace(cfg, s', loc'[q], q)
    {
      if q != o { assert InPlace(cfg, s, loc[q], q); }
    }
  }

  /** The compare-and-swap takes the object that sits at the head of the published window. */
  lemma TakenFromHead(cfg: Config, s: State, loc: map<Obj, Place>, t: Tid)
    requires Inv(cfg, s, loc) && t in s.pops && Takes(s, t)
    ensures var p := s.pops[t];
            && s.slots[p.cpu].head < s.slots[p.cpu].last
            && InPlace(cfg, s, Ring(p.cpu, p.h), p.obj)
  {
    var p := s.pops[t];
    var sl := s.slots[p.cpu];
    assert PopperOK(cfg, sl, p);
    assert !Unwritten(sl, p.h) by {
      assert forall d :: 0 <= d < |sl.stack| ==> FrameOK(sl, sl.stack[d]);
    }
  }

  lemma TakeLocated(cfg: Config, s: State, loc: map<Obj, Place>, t: Tid)
    requires Inv(cfg, s, loc) && t in s.pops && Takes(s, t)
    ensures Located(cfg, Next(cfg, s, PopStep(t)), NextLoc(cfg, s, loc, PopStep(t)))
  {
    hide SlotOK, PopperOK, AdvancePop, AdvancePush, InRing, Carries;
    var s', loc' := Next(cfg, s, PopStep(t)), NextLoc(cfg, s, loc, PopStep(t));
    var p := s.pops[t];
    TakenFromHead(cfg, s, loc, t);
    TakePlaces(cfg, s.slots[p.cpu]);
    forall r, q | InPlace(cfg, s', r, q)
      ensures q in loc' && loc'[q] == r
    {
      if r != Held || q != p.obj { assert InPlace(cfg, s, r, q); }
    }
    forall q <- loc'
      ensures InPlace(cfg, s', loc'[q], q)
    {
      if q != p.obj { assert InPlace(cfg, s, loc[q], q); }
    }
  }

  lemma TakePlaces(cfg: Config, sl: Slot)
    ensures forall pos: nat, o :: InRing(cfg, sl.(head := sl.head + 1), pos, o) <==> InRing(cfg, sl, pos, o) && pos != sl.head
    ensures forall o, q :: InRing(cfg, sl, sl.head, o) && InRing(cfg, sl, sl.head, q) ==> o == q
  {
    var sl' := sl.(head := sl.head + 1);
    assert forall pos: nat :: Unwritten(sl', pos) <==> Unwritten(sl, pos);
    hide Unwritten;
  }

  /** Storing an object touches no other written position of the window. */
  lemma WriteLocated(cfg: Config, s: State, loc: map<Obj, Place>, c: Cpu)
    requires Inv(cfg, s, loc) && Enabled(cfg, s, PushStep(c))
    requires s.slots[c].stack[|s.slots[c].stack| - 1].Write?
    ensures Located(cfg, Next(cfg, s, PushStep(c)), NextLoc(cfg, s, loc, PushStep(c)))
  {
    hide SlotOK, PopperOK, AdvancePush, InRing, Carries;
    var s', loc' := Next(cfg, s, PushStep(c)), NextLoc(cfg, s, loc, PushStep(c));
    var sl, top := s.slots[c], |s.slots[c].stack| - 1;
    var f := sl.stack[top];
    WindowBound(cfg, s, loc, c);
    WritePlaces(cfg, sl);
    assert InPlace(cfg, s, Pending(c, top), f.obj);
    forall p, q | InPlace(cfg, s', p, q)
      ensures q in loc' && loc'[q] == p
    {
      if p != Ring(c, f.t) { assert InPlace(cfg, s, p, q); }
    }
    forall q <- loc'
      ensures InPlace(cfg, s', loc'[q], q)
    {
      if q != f.obj { assert InPlace(cfg, s, loc[q], q); }
    }
  }

  /** The push on top hands its object over to the position it reserved; all others stay where they are. */
  lemma WritePlaces(cfg: Config, sl: Slot)
    requires sl.stack != [] && cfg.cap > 0 && |sl.entries| == cfg.cap && SlotOK(sl) && sl.tail - sl.head <= cfg.cap
    requires sl.stack[|sl.stack| - 1].Write?
    ensures var sl', top := AdvancePush(cfg, sl), |sl.stack| - 1;
            var f := sl.stack[top];
            && |sl'.stack| == |sl.stack| && Carries(f, f.obj)
            && (forall pos: nat, o :: InRing(cfg, sl', pos, o) <==> if pos == f.t then o == f.obj else InRing(cfg, sl, pos, o))
            && (forall o :: !InRing(cfg, sl, f.t, o) && !Carries(sl'.stack[top], o))
            && (forall o :: Carries(f, o) ==> o == f.obj)
            && (forall d :: 0 <= d < top ==> sl'.stack[d] == sl.stack[d])
  {
    var sl', top := AdvancePush(cfg, sl), |sl.stack| - 1;
    var f := sl.stack[top];
    assert FrameOK(sl, f);
    WriteUnreserves(cfg, sl);
    hide SlotOK, Unwritten;
    forall pos | sl.head <= pos < sl.tail && pos != f.t
      ensures sl'.entries[pos % cfg.cap] == sl.entries[pos % cfg.cap]
    {
      DistinctEntries(cfg, pos, f.t);
    }
  }

  lemma WriteUnreserves(cfg: Config, sl: Slot)
    requires sl.stack != [] && cfg.cap > 0 && |sl.entries| == cfg.cap && SlotOK(sl)
    requires sl.stack[|sl.stack| - 1].Write?
    ensures forall pos: nat :: Unwritten(AdvancePush(cfg, sl), pos) <==>
              Unwritten(sl, pos) && pos != sl.stack[|sl.stack| - 1].t
    ensures Unwritten(sl, sl.stack[|sl.stack| - 1].t)
  {
    var top, sl' := |sl.stack| - 1, AdvancePush(cfg, sl);
    assert forall d :: 0 <= d < top ==> sl'.stack[d] == sl.stack[d] && Nested(sl.stack[d], sl.stack[top]);
  }

  /** The other instructions of a push move no object. */
  lemma OtherPushLocated(cfg: Config, s: State, loc: map<Obj, Place>, c: Cpu)
    requires Inv(cfg, s, loc) && Enabled(cfg, s, PushStep(c))
    requires !s.slots[c].stack[|s.slots[c].stack| - 1].Write?
    ensures Located(cfg, Next(cfg, s, PushStep(c)), loc)
  {
    hide SlotOK, PopperOK, AdvancePush, InRing, Carries;
    var s' := Next(cfg, s, PushStep(c));
    OtherPushPlaces(cfg, s.slots[c]);
    forall p, q ensures InPlace(cfg, s', p, q) <==> InPlace(cfg, s, p, q) {
    }
  }

  lemma OtherPushPlaces(cfg: Config, sl: Slot)
    requires sl.stack != [] && cfg.cap > 0 && |sl.entries| == cfg.cap && SlotOK(sl)
    requires !sl.stack[|sl.stack| - 1].Write?
    ensures var sl' := AdvancePush(cfg, sl);
            && (forall pos: nat, o :: InRing(cfg, sl', pos, o) <==> InRing(cfg, sl, pos, o))
            && (forall d: nat, o :: d < |sl'.stack| && Carries(sl'.stack[d], o) <==> d < |sl.stack| && Carries(sl.stack[d], o))
  {
    OtherPushReserves(cfg, sl);
    assert forall pos: nat :: Unwritten(sl, pos) ==> pos < sl.tail by {
      assert forall d :: 0 <= d < |sl.stack| ==> FrameOK(sl, sl.stack[d]);
    }
    hide SlotOK, Unwritten;
  }

  lemma OtherPushReserves(cfg: Config, sl: Slot)
    requires sl.stack != [] && cfg.cap > 0 && |sl.entries| == cfg.cap && SlotOK(sl)
    requires !sl.stack[|sl.stack| - 1].Write?
    ensures var sl' := AdvancePush(cfg, sl);
            && sl'.entries == sl.entries
            && (forall pos: nat :: Unwritten(sl', pos) <==> Unwritten(sl, pos) || sl.tail <= pos < sl'.tail)
  {
    var top, sl' := |sl.stack| - 1, AdvancePush(cfg, sl);
    assert forall d :: 0 <= d < top ==> sl'.stack[d] == sl.stack[d];
    if sl'.tail > sl.tail { assert sl'.stack[top].Write? && sl'.stack[top].t == sl.tail; }
  }

  /** A pop that takes nothing keeps its own snapshot facts. */
  lemma PopperAdvances(cfg: Config, sl: Slot, p: Popper)
    requires !p.Idle? && cfg.cap > 0 && |sl.entries| == cfg.cap
    requires SlotOK(sl) && PopperOK(cfg, sl, p)
    ensures var p' := AdvancePop(cfg, sl, p); p'.Idle? || (p'.cpu == p.cpu && PopperOK(cfg, sl, p'))
  {
  }

  /** A push step keeps every snapshot taken by a pop, and the entry under a head it still matches. */
  lemma PopperSurvivesPush(cfg: Config, s: State, loc: map<Obj, Place>, c: Cpu, p: Popper)
    requires Inv(cfg, s, loc) && Enabled(cfg, s, PushStep(c))
    requires !p.Idle? && p.cpu == c && PopperOK(cfg, s.slots[c], p)
    ensures PopperOK(cfg, AdvancePush(cfg, s.slots[c]), p)
  {
    var sl := s.slots[c];
    var f := sl.stack[|sl.stack| - 1];
    AdvanceOK(cfg, sl);
    if f.Write? && p.CasHead? && p.h == sl.head {
      WindowBound(cfg, s, loc, c);
      assert FrameOK(sl, f);
      DistinctEntries(cfg, p.h, f.t);
    }
  }

  lemma PushStepPreservesInv(cfg: Config, s: State, loc: map<Obj, Place>, c: Cpu)
    requires Inv(cfg, s, loc) && Enabled(cfg, s, PushStep(c))
    ensures Inv(cfg, Next(cfg, s, PushStep(c)), NextLoc(cfg, s, loc, PushStep(c)))
  {
    hide InPlace, Located, SlotOK, AdvancePush;
    if s.slots[c].stack[|s.slots[c].stack| - 1].Write? {
      WriteLocated(cfg, s, loc, c);
    } else {
      OtherPushLocated(cfg, s, loc, c);
    }
    AdvanceOK(cfg, s.slots[c]);
    forall t <- s.pops | !s.pops[t].Idle? && s.pops[t].cpu == c {
      PopperSurvivesPush(cfg, s, loc, c, s.pops[t]);
    }
  }

  lemma PopStepPreservesInv(cfg: Config, s: State, loc: map<Obj, Place>, t: Tid)
    requires Inv(cfg, s, loc) && Enabled(cfg, s, PopStep(t))
    ensures Inv(cfg, Next(cfg, s, PopStep(t)), NextLoc(cfg, s, loc, PopStep(t)))
  {
    hide InPlace, Located;
    if Takes(s, t) {
      TakeLocated(cfg, s, loc, t);
      TakenFromHead(cfg, s, loc, t);
    } else {
      PopOnlyLocated(cfg, s, loc, PopStep(t));
      PopperAdvances(cfg, s.slots[s.pops[t].cpu], s.pops[t]);
    }
  }

  lemma StepPreservesInv(cfg: Config, s: State, loc: map<Obj, Place>, lb: Label)
    requires Inv(cfg, s, loc) && Enabled(cfg, s, lb)
    ensures Inv(cfg, Next(cfg, s, lb), NextLoc(cfg, s, loc, lb))
  {
    hide InPlace, Located, SlotOK, AdvancePush, AdvancePop;
    match lb
    case PushBegin(c, o) =>
      PushBeginLocated(cfg, s, loc, c, o);
      PushBeginOK(s.slots[c], o);
    case PushStep(c) =>
      PushStepPreservesInv(cfg, s, loc, c);
    case PopBegin(t, c) =>
      PopOnlyLocated(cfg, s, loc, lb);
    case PopStep(t) =>
      PopStepPreservesInv(cfg, s, loc, t);
    case Retire(o) =>
      RetireLocated(cfg, s, loc, o);
  }

  lemma PushBeginOK(sl: Slot, o: Obj)
    requires SlotOK(sl)
    ensures SlotOK(sl.(stack := sl.stack + [LoadTail(o)]))
  {
    var sl' := sl.(stack := sl.stack + [LoadTail(o)]);
    assert forall d :: 0 <= d < |sl.stack| ==> sl'.stack[d] == sl.stack[d] && FrameOK(sl, sl.stack[d]);
  }

  lemma PopOnlyLocated(cfg: Config, s: State, loc: map<Obj, Place>, lb: Label)
    requires Inv(cfg, s, loc) && Enabled(cfg, s, lb)
    requires lb.PopBegin? || (lb.PopStep? && !Takes(s, lb.tid))
    ensures Located(cfg, Next(cfg, s, lb), loc)
  {
    var s' := Next(cfg, s, lb);
    assert forall p, q :: InPlace(cfg, s', p, q) <==> InPlace(cfg, s, p, q);
  }

  // ----- Whole runs

  /** The state memcache_init leaves behind: nothing in flight and every object in some slot. */
  ghost predicate Initial(cfg: Config, s: State, loc: map<Obj, Place>) {
    && WellFormed(cfg, s)
    && (forall c <- s.slots :: s.slots[c].head == 0 && s.slots[c].last == s.slots[c].tail && s.slots[c].stack == [])
    && (forall t <- s.pops :: s.pops[t].Idle?)
    && s.held == {} && s.gone == {}
    && Located(cfg, s, loc)
  }

  /** Some run from an initial state ends in `s`. */
  ghost predicate Reachable(cfg: Config, s: State) {
    exists s0, loc, ls :: Initial(cfg, s0, loc) && IsRun(cfg, s0, ls) && Exec(cfg, s0, ls) == s
  }

  lemma {:induction false} RunKeepsInv(cfg: Config, s: State, loc: map<Obj, Place>, ls: seq<Label>)
    returns (loc': map<Obj, Place>)
    requires Inv(cfg, s, loc) && IsRun(cfg, s, ls)
    ensures Inv(cfg, Exec(cfg, s, ls), loc')
    decreases ls
  {
    hide Located, SlotOK, PopperOK, Next, NextLoc, Enabled;
    if ls == [] {
      loc' := loc;
    } else {
      StepPreservesInv(cfg, s, loc, ls[0]);
      loc' := RunKeepsInv(cfg, Next(cfg, s, ls[0]), NextLoc(cfg, s, loc, ls[0]), ls[1..]);
    }
  }

  lemma InitialInv(cfg: Config, s: State, loc: map<Obj, Place>)
    requires Initial(cfg, s, loc)
    ensures Inv(cfg, s, loc)
  {
    hide Located;
  }

  lemma ReachableInv(cfg: Config, s: State) returns (loc: map<Obj, Place>)
    requires Reachable(cfg, s)
    ensures Inv(cfg, s, loc)
  {
    hide Exec, IsRun, Located, SlotOK, PopperOK;
    var s0, loc0, ls :| Initial(cfg, s0, loc0) && IsRun(cfg, s0, ls) && Exec(cfg, s0, ls) == s;
    InitialInv(cfg, s0, loc0);
    loc := RunKeepsInv(cfg, s0, loc0, ls);
  }

  /** Conservation: at every moment of every run each object is in exactly one place, and nothing
      but the pool's own objects is anywhere. */
  lemma OnePlaceEach(cfg: Config, s: State)
    requires Reachable(cfg, s)
    ensures forall o <- cfg.objs :: exists p :: InPlace(cfg, s, p, o)
    ensures forall p, o :: InPlace(cfg, s, p, o) ==> o in cfg.objs
    ensures forall p, q, o :: InPlace(cfg, s, p, o) && InPlace(cfg, s, q, o) ==> p == q
  {
    hide Reachable, SlotOK, PopperOK, InRing, Carries;
    var loc := ReachableInv(cfg, s);
    forall o <- cfg.objs ensures exists p :: InPlace(cfg, s, p, o) {
      assert InPlace(cfg, s, loc[o], o);
    }
  }

  /** A pop returns the oldest published object of the slot, and nobody else has it. */
  lemma PopIsExclusive(cfg: Config, s: State, t: Tid)
    requires Reachable(cfg, s) && t in s.pops && Takes(s, t)
    ensures var p, s' := s.pops[t], Next(cfg, s, PopStep(t));
            var sl := s.slots[p.cpu];
            && sl.head < sl.last && p.obj == sl.entries[sl.head % cfg.cap]
            && p.obj !in s.held && p.obj !in s.gone
            && (forall q :: InPlace(cfg, s', q, p.obj) ==> q == Held)
  {
    hide Reachable, SlotOK, PopperOK, Located, InPlace, Next, NextLoc;
    var loc := ReachableInv(cfg, s);
    TakenFromHead(cfg, s, loc, t);
    TakeLocated(cfg, s, loc, t);
    TakenApart(cfg, s, loc, t);
  }

  lemma TakenApart(cfg: Config, s: State, loc: map<Obj, Place>, t: Tid)
    requires WellFormed(cfg, s) && Located(cfg, s, loc) && t in s.pops && Takes(s, t)
    requires InPlace(cfg, s, Ring(s.pops[t].cpu, s.pops[t].h), s.pops[t].obj)
    requires Located(cfg, Next(cfg, s, PopStep(t)), NextLoc(cfg, s, loc, PopStep(t)))
    ensures var p, s' := s.pops[t], Next(cfg, s, PopStep(t));
            && p.obj == s.slots[p.cpu].entries[p.h % cfg.cap]
            && p.obj !in s.held && p.obj !in s.gone
            && (forall q :: InPlace(cfg, s', q, p.obj) ==> q == Held)
  {
    hide Next, Located, Unwritten;
    var p, s', loc' := s.pops[t], Next(cfg, s, PopStep(t)), NextLoc(cfg, s, loc, PopStep(t));
    OnlyPlace(cfg, s, loc, Ring(p.cpu, p.h), p.obj);
    forall q | InPlace(cfg, s', q, p.obj) ensures q == Held { OnlyPlace(cfg, s', loc', q, p.obj); }
  }

  /** An object is where `loc` says, and nowhere else. */
  lemma OnlyPlace(cfg: Config, s: State, loc: map<Obj, Place>, p: Place, o: Obj)
    requires Located(cfg, s, loc) && InPlace(cfg, s, p, o)
    ensures o in loc && loc[o] == p
    ensures !p.Held? ==> o !in s.held
    ensures !p.Gone? ==> o !in s.gone
  {
    assert InPlace(cfg, s, Held, o) <==> o in s.held;
    assert InPlace(cfg, s, Gone, o) <==> o in s.gone;
    hide InPlace;
  }

  /** No step overwrites a published entry that has not been taken yet. */
  lemma LiveEntriesKept(cfg: Config, s: State, lb: Label, c: Cpu, pos: nat)
    requires Reachable(cfg, s) && Enabled(cfg, s, lb) && c in s.slots
    requires s.slots[c].head <= pos < s.slots[c].last
    ensures var s' := Next(cfg, s, lb);
            && pos < s'.slots[c].last
            && s'.slots[c].entries[pos % cfg.cap] == s.slots[c].entries[pos % cfg.cap]
  {
    hide Reachable, Located, Nested, Responsible, PopperOK;
    var loc := ReachableInv(cfg, s);
    var sl := s.slots[c];
    if lb == PushStep(c) {
      AdvanceOK(cfg, sl);
      var f := sl.stack[|sl.stack| - 1];
      if f.Write? {
        WindowBound(cfg, s, loc, c);
        assert FrameOK(sl, f);
        DistinctEntries(cfg, pos, f.t);
      }
    }
  }

  /** `last` never passes a reserved position whose object has not been stored yet. */
  lemma PublishedIsWritten(cfg: Config, s: State, c: Cpu, pos: nat)
    requires Reachable(cfg, s) && c in s.slots && pos < s.slots[c].last
    ensures !Unwritten(s.slots[c], pos)
  {
    hide Reachable, Located, PopperOK;
    var loc := ReachableInv(cfg, s);
    var sl := s.slots[c];
    assert SlotOK(sl);
    assert forall d :: 0 <= d < |sl.stack| ==> FrameOK(sl, sl.stack[d]);
  }

  /** With no push in flight on a slot, everything pushed there can be popped. */
  lemma NothingStranded(cfg: Config, s: State, c: Cpu)
    requires Reachable(cfg, s) && c in s.slots && s.slots[c].stack == []
    ensures s.slots[c].last == s.slots[c].tail
  {
    hide Reachable, Located, PopperOK;
    var loc := ReachableInv(cfg, s);
    assert SlotOK(s.slots[c]);
  }

  /** A slot is reported empty only at a moment when it has nothing published. */
  lemma EmptyIsTrue(cfg: Config, s: State, t: Tid)
    requires Reachable(cfg, s) && Enabled(cfg, s, PopStep(t))
    requires !Takes(s, t) && Next(cfg, s, PopStep(t)).pops[t].Idle?
    ensures s.slots[s.pops[t].cpu].head == s.slots[s.pops[t].cpu].last
  {
    hide Reachable, Located;
    var loc := ReachableInv(cfg, s);
    var sl := s.slots[s.pops[t].cpu];
    assert PopperOK(cfg, sl, s.pops[t]) && sl.head <= sl.last;
    hide SlotOK;
  }

  /** Lock freedom of pops: a compare-and-swap fails only because another pop has succeeded since. */
  lemma FailedTakeMeansProgress(cfg: Config, s: State, t: Tid)
    requires Reachable(cfg, s) && t in s.pops && s.pops[t].CasHead? && !Takes(s, t)
    ensures s.pops[t].h < s.slots[s.pops[t].cpu].head
  {
    hide Reachable, Located, SlotOK;
    var loc := ReachableInv(cfg, s);
    assert PopperOK(cfg, s.slots[s.pops[t].cpu], s.pops[t]);
  }

  /** Bound on the instructions left to the top push of a slot if it is not interrupted again. */
  ghost function StepsLeft(sl: Slot): nat
    requires sl.stack != []
  {
    match sl.stack[|sl.stack| - 1]
    case LoadTail(_) => 8
    case CasTail(_, t) => if t == sl.tail then 7 else 9
    case Write(_, _) => 6
    case CasLast(t, l) => if t != sl.last then 1 else if l == sl.tail then 2 else 5
    case ReadTail(l) => if l == sl.tail then 1 else 4
  }

  /** A push that is not interrupted finishes within nine instructions. */
  lemma PushFinishes(cfg: Config, sl: Slot)
    requires sl.stack != [] && cfg.cap > 0 && |sl.entries| == cfg.cap && SlotOK(sl)
    ensures 0 < StepsLeft(sl) <= 9
    ensures var sl' := AdvancePush(cfg, sl);
            || sl'.stack == sl.stack[..|sl.stack| - 1]
            || (|sl'.stack| == |sl.stack| && sl'.stack[..|sl.stack| - 1] == sl.stack[..|sl.stack| - 1]
                && StepsLeft(sl') < StepsLeft(sl))
  {
    hide SlotOK;
  }
}
