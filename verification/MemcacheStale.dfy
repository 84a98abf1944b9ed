/** Why a snapshot must not be too old: a run of the uint32_t pool, from initialisation, in which an object that a
    caller holds is handed out once more. Two objects sit in one slot. A first pop reads the head counter and the
    object 0 and is held up; a second one takes object 0 and keeps it; then object 1 is popped and pushed back until
    2^32 pops have gone by. */
module MemcacheStale {
  import opened Bits
  import opened MemcacheMachine
  import opened MemcacheWrap

  const FIRST: Tid := 0
  const SECOND: Tid := 1

  /** One CPU and two objects. */
  ghost function Pair(): Config {
    Config({0}, {0, 1}, 2, 2)
  }

  lemma PairIsSized()
    ensures Pair().Valid() && Sized(Pair(), 1)
  {
    assert Pow2(1) == 2;
  }

  ghost function Start(): State {
    State(map[0 := Slot(0, 2, 2, [0, 1], [])], map[FIRST := Idle, SECOND := Idle], {}, {})
  }

  ghost function Places(): map<Obj, Place> {
    map[0 := Ring(0, 0), 1 := Ring(0, 1)]
  }

  /** This is how memcache_init leaves a pool of two objects on one CPU. */
  lemma StartIsInitial()
    ensures Initial(Pair(), Start(), Places())
  {
    forall p, o | InPlace(Pair(), Start(), p, o) ensures o in Places() && Places()[o] == p {
      assert p.Ring? && (p.pos == 0 || p.pos == 1);
    }
    assert InPlace(Pair(), Start(), Ring(0, 0), 0) && InPlace(Pair(), Start(), Ring(0, 1), 1);
  }

  // ----- Steps one after the other

  /** The run leads from `s` to `s'`, and no step of it is fooled. */
  ghost predicate Goes(s: State, ls: seq<Label>, s': State) {
    && WellFormed(Pair(), s) && IsRun(Pair(), s, ls) && ExactRun(Pair(), s, ls) && Exec(Pair(), s, ls) == s'
  }

  ghost predicate Move(s: State, lb: Label, s': State) {
    && WellFormed(Pair(), s) && Enabled(Pair(), s, lb) && StepExact(Pair(), s, lb) && Next(Pair(), s, lb) == s'
  }

  lemma GoesOn(s: State, lb: Label, s1: State, ls: seq<Label>, s2: State)
    requires Move(s, lb, s1) && Goes(s1, ls, s2)
    ensures Goes(s, [lb] + ls, s2)
  {
    hide StepExact, Next, Enabled;
    assert ([lb] + ls)[1..] == ls;
  }

  lemma {:induction false} GoesThen(s: State, a: seq<Label>, s1: State, b: seq<Label>, s2: State)
    requires Goes(s, a, s1) && Goes(s1, b, s2)
    ensures Goes(s, a + b, s2)
    decreases |a|
  {
    hide StepExact, Next, Enabled, WellFormed;
    if a == [] {
      assert a + b == b;
    } else {
      var mid := Next(Pair(), s, a[0]);
      GoesThen(mid, a[1..], s1, b, s2);
      GoesOn(s, a[0], mid, a[1..] + b, s2);
      assert a + b == [a[0]] + (a[1..] + b);
    }
  }

  /** The pool with the slot, what the two pops are at, and the objects held. */
  ghost function At(sl: Slot, t: Popper, u: Popper, held: set<Obj>): State {
    State(map[0 := sl], map[FIRST := t, SECOND := u], held, {})
  }

  ghost predicate On(p: Popper) {
    p.Idle? || p.cpu == 0
  }

  lemma PopBegins(sl: Slot, t: Popper, u: Popper, held: set<Obj>)
    requires |sl.entries| == 2 && On(t) && On(u)
    ensures u.Idle? ==> Move(At(sl, t, u, held), PopBegin(SECOND, 0), At(sl, t, LoadHead(0), held))
    ensures t.Idle? ==> Move(At(sl, t, u, held), PopBegin(FIRST, 0), At(sl, LoadHead(0), u, held))
  {
    assert map[FIRST := t, SECOND := u][SECOND := LoadHead(0)] == map[FIRST := t, SECOND := LoadHead(0)];
    assert map[FIRST := t, SECOND := u][FIRST := LoadHead(0)] == map[FIRST := LoadHead(0), SECOND := u];
  }

  /** A step of a pop that takes nothing. */
  lemma PopMovesSecond(sl: Slot, t: Popper, u: Popper, held: set<Obj>)
    requires |sl.entries| == 2 && On(t) && On(u) && !u.Idle? && PopExact(Pair(), sl, u) && !(u.CasHead? && u.h == sl.head)
    ensures Move(At(sl, t, u, held), PopStep(SECOND), At(sl, t, AdvancePop(Pair(), sl, u), held))
  {
    hide PopExact, AdvancePop;
    assert map[FIRST := t, SECOND := u][SECOND := AdvancePop(Pair(), sl, u)] == map[FIRST := t, SECOND := AdvancePop(Pair(), sl, u)];
  }

  lemma PopMovesFirst(sl: Slot, t: Popper, u: Popper, held: set<Obj>)
    requires |sl.entries| == 2 && On(t) && On(u) && !t.Idle? && PopExact(Pair(), sl, t) && !(t.CasHead? && t.h == sl.head)
    ensures Move(At(sl, t, u, held), PopStep(FIRST), At(sl, AdvancePop(Pair(), sl, t), u, held))
  {
    hide PopExact, AdvancePop;
    assert map[FIRST := t, SECOND := u][FIRST := AdvancePop(Pair(), sl, t)] == map[FIRST := AdvancePop(Pair(), sl, t), SECOND := u];
  }

  lemma PopTakes(sl: Slot, t: Popper, o: Obj, held: set<Obj>)
    requires |sl.entries| == 2 && On(t)
    ensures Move(At(sl, t, CasHead(0, sl.head, o), held), PopStep(SECOND), At(sl.(head := sl.head + 1), t, Idle, held + {o}))
  {
    hide PushExact, AdvancePop, AdvancePush, PopExact;
    var u := CasHead(0, sl.head, o);
    HeadIsExact(sl, o);
    assert map[FIRST := t, SECOND := u][SECOND := Idle] == map[FIRST := t, SECOND := Idle];
    assert map[0 := sl][0 := sl.(head := sl.head + 1)] == map[0 := sl.(head := sl.head + 1)];
  }

  lemma HeadIsExact(sl: Slot, o: Obj)
    ensures PopExact(Pair(), sl, CasHead(0, sl.head, o))
  {
  }

  lemma PushBegins(sl: Slot, t: Popper, u: Popper, o: Obj, held: set<Obj>)
    requires |sl.entries| == 2 && On(t) && On(u) && o in held
    ensures Move(At(sl, t, u, held), PushBegin(0, o), At(sl.(stack := sl.stack + [LoadTail(o)]), t, u, held - {o}))
  {
    var sl' := sl.(stack := sl.stack + [LoadTail(o)]);
    assert map[0 := sl][0 := sl'] == map[0 := sl'];
  }

  lemma PushMoves(sl: Slot, t: Popper, u: Popper, held: set<Obj>)
    requires |sl.entries| == 2 && On(t) && On(u) && sl.stack != [] && PushExact(sl)
    ensures Move(At(sl, t, u, held), PushStep(0), At(AdvancePush(Pair(), sl), t, u, held))
  {
    hide PushExact, AdvancePush;
    var sl' := AdvancePush(Pair(), sl);
    assert map[0 := sl][0 := sl'] == map[0 := sl'];
  }

  // ----- One pop, one push

  /** The second pop takes the object at the head of a slot with at most two published. */
  lemma PopRun(sl: Slot, t: Popper, held: set<Obj>) returns (ls: seq<Label>)
    requires |sl.entries| == 2 && On(t) && sl.head < sl.last <= sl.head + 2
    ensures Goes(At(sl, t, Idle, held), ls, At(sl.(head := sl.head + 1), t, Idle, held + {sl.entries[sl.head % 2]}))
  {
    hide Goes, Move;
    var h := sl.head;
    var o := sl.entries[h % 2];
    var end := At(sl.(head := h + 1), t, Idle, held + {o});
    PopBegins(sl, t, Idle, held);
    PopMovesSecond(sl, t, LoadHead(0), held);
    PopMovesSecond(sl, t, TestEmpty(0, h), held);
    PopMovesSecond(sl, t, TestRange(0, h), held);
    PopMovesSecond(sl, t, ReadEntry(0, h), held);
    PopTakes(sl, t, o, held);
    Stays(end);
    ls := [];
    GoesOn(At(sl, t, CasHead(0, h, o), held), PopStep(SECOND), end, ls, end);
    ls := [PopStep(SECOND)] + ls;
    GoesOn(At(sl, t, ReadEntry(0, h), held), PopStep(SECOND), At(sl, t, CasHead(0, h, o), held), ls, end);
    ls := [PopStep(SECOND)] + ls;
    GoesOn(At(sl, t, TestRange(0, h), held), PopStep(SECOND), At(sl, t, ReadEntry(0, h), held), ls, end);
    ls := [PopStep(SECOND)] + ls;
    GoesOn(At(sl, t, TestEmpty(0, h), held), PopStep(SECOND), At(sl, t, TestRange(0, h), held), ls, end);
    ls := [PopStep(SECOND)] + ls;
    GoesOn(At(sl, t, LoadHead(0), held), PopStep(SECOND), At(sl, t, TestEmpty(0, h), held), ls, end);
    ls := [PopStep(SECOND)] + ls;
    GoesOn(At(sl, t, Idle, held), PopBegin(SECOND, 0), At(sl, t, LoadHead(0), held), ls, end);
    ls := [PopBegin(SECOND, 0)] + ls;
  }

  lemma Stays(s: State)
    requires WellFormed(Pair(), s)
    ensures Goes(s, [], s)
  {
  }

  /** The instructions of an uninterrupted push. */
  lemma PushChain(h: nat, n: nat, e: seq<Obj>, o: Obj)
    requires |e| == 2
    ensures var e' := e[n % 2 := o];
            && AdvancePush(Pair(), Slot(h, n, n, e, [LoadTail(o)])) == Slot(h, n, n, e, [CasTail(o, n)])
            && AdvancePush(Pair(), Slot(h, n, n, e, [CasTail(o, n)])) == Slot(h, n + 1, n, e, [Write(o, n)])
            && AdvancePush(Pair(), Slot(h, n + 1, n, e, [Write(o, n)])) == Slot(h, n + 1, n, e', [CasLast(n, n + 1)])
            && AdvancePush(Pair(), Slot(h, n + 1, n, e', [CasLast(n, n + 1)])) == Slot(h, n + 1, n + 1, e', [ReadTail(n + 1)])
            && AdvancePush(Pair(), Slot(h, n + 1, n + 1, e', [ReadTail(n + 1)])) == Slot(h, n + 1, n + 1, e', [])
  {
    assert [LoadTail(o)][0 := CasTail(o, n)] == [CasTail(o, n)];
    assert [CasTail(o, n)][0 := Write(o, n)] == [Write(o, n)];
    assert [Write(o, n)][0 := CasLast(n, n + 1)] == [CasLast(n, n + 1)];
    assert [CasLast(n, n + 1)][0 := ReadTail(n + 1)] == [ReadTail(n + 1)];
    assert [ReadTail(n + 1)][..0] == [];
  }

  /** An uninterrupted push puts an object behind the last one. */
  lemma PushRun(h: nat, n: nat, e: seq<Obj>, t: Popper, o: Obj, held: set<Obj>) returns (ls: seq<Label>)
    requires |e| == 2 && On(t) && o in held
    ensures Goes(At(Slot(h, n, n, e, []), t, Idle, held), ls,
                 At(Slot(h, n + 1, n + 1, e[n % 2 := o], []), t, Idle, held - {o}))
  {
    hide Goes, Move;
    var rest, e' := held - {o}, e[n % 2 := o];
    var s0 := Slot(h, n, n, e, []);
    var s1 := Slot(h, n, n, e, [LoadTail(o)]);
    var s2 := Slot(h, n, n, e, [CasTail(o, n)]);
    var s3 := Slot(h, n + 1, n, e, [Write(o, n)]);
    var s4 := Slot(h, n + 1, n, e', [CasLast(n, n + 1)]);
    var s5 := Slot(h, n + 1, n + 1, e', [ReadTail(n + 1)]);
    var s6 := Slot(h, n + 1, n + 1, e', []);
    var end := At(s6, t, Idle, rest);
    PushChain(h, n, e, o);
    PushBegins(s0, t, Idle, o, held);
    assert [] + [LoadTail(o)] == [LoadTail(o)];
    PushMoves(s1, t, Idle, rest);
    PushMoves(s2, t, Idle, rest);
    PushMoves(s3, t, Idle, rest);
    PushMoves(s4, t, Idle, rest);
    PushMoves(s5, t, Idle, rest);
    Stays(end);
    ls := [];
    GoesOn(At(s5, t, Idle, rest), PushStep(0), end, ls, end);
    ls := [PushStep(0)] + ls;
    GoesOn(At(s4, t, Idle, rest), PushStep(0), At(s5, t, Idle, rest), ls, end);
    ls := [PushStep(0)] + ls;
    GoesOn(At(s3, t, Idle, rest), PushStep(0), At(s4, t, Idle, rest), ls, end);
    ls := [PushStep(0)] + ls;
    GoesOn(At(s2, t, Idle, rest), PushStep(0), At(s3, t, Idle, rest), ls, end);
    ls := [PushStep(0)] + ls;
    GoesOn(At(s1, t, Idle, rest), PushStep(0), At(s2, t, Idle, rest), ls, end);
    ls := [PushStep(0)] + ls;
    GoesOn(At(s0, t, Idle, held), PushBegin(0, o), At(s1, t, Idle, rest), ls, end);
    ls := [PushBegin(0, o)] + ls;
  }

  // ----- Round and round

  const STALE: Popper := CasHead(0, 0, 0)

  /** Object 0 is held, object 1 is the only one in the slot. */
  ghost function Round(h: nat, e: seq<Obj>): State {
    At(Slot(h, h + 1, h + 1, e, []), STALE, Idle, {0})
  }

  ghost predicate OneAt(e: seq<Obj>, h: nat) {
    |e| == 2 && e[h % 2] == 1
  }

  /** Object 1 is popped and pushed back. */
  lemma Cycle(h: nat, e: seq<Obj>) returns (ls: seq<Label>, e': seq<Obj>)
    requires OneAt(e, h)
    ensures OneAt(e', h + 1) && Goes(Round(h, e), ls, Round(h + 1, e'))
  {
    hide Goes, IsRun, ExactRun, Exec, WellFormed;
    e' := e[(h + 1) % 2 := 1];
    var mid := At(Slot(h + 1, h + 1, h + 1, e, []), STALE, Idle, {0} + {1});
    var a := PopRun(Slot(h, h + 1, h + 1, e, []), STALE, {0});
    var b := PushRun(h + 1, h + 1, e, STALE, 1, {0} + {1});
    assert {0} + {1} - {1} == {0};
    GoesThen(Round(h, e), a, mid, b, Round(h + 1, e'));
    ls := a + b;
  }

  lemma {:induction false} Cycles(h: nat, e: seq<Obj>, n: nat) returns (ls: seq<Label>, e': seq<Obj>)
    requires OneAt(e, h)
    ensures OneAt(e', h + n) && Goes(Round(h, e), ls, Round(h + n, e'))
    decreases n
  {
    hide Goes, IsRun, ExactRun, Exec, WellFormed, OneAt, At;
    if n == 0 {
      ls, e' := [], e;
      RoundStays(h, e);
    } else {
      var a, e1 := Cycle(h, e);
      var b;
      b, e' := Cycles(h + 1, e1, n - 1);
      GoesThen(Round(h, e), a, Round(h + 1, e1), b, Round(h + n, e'));
      ls := a + b;
    }
  }

  lemma RoundStays(h: nat, e: seq<Obj>)
    requires OneAt(e, h)
    ensures Goes(Round(h, e), [], Round(h, e))
  {
    Stays(Round(h, e));
  }

  /** The first pop reads the head counter and object 0, and the second one takes object 0. */
  lemma Beginning() returns (ls: seq<Label>)
    ensures Goes(Start(), ls, Round(1, [0, 1]))
  {
    hide Goes, Move, IsRun, ExactRun, Exec;
    var sl := Slot(0, 2, 2, [0, 1], []);
    var mid := At(sl, STALE, Idle, {});
    PopBegins(sl, Idle, Idle, {});
    PopMovesFirst(sl, LoadHead(0), Idle, {});
    PopMovesFirst(sl, TestEmpty(0, 0), Idle, {});
    PopMovesFirst(sl, TestRange(0, 0), Idle, {});
    PopMovesFirst(sl, ReadEntry(0, 0), Idle, {});
    Stays(mid);
    var a: seq<Label> := [];
    GoesOn(At(sl, ReadEntry(0, 0), Idle, {}), PopStep(FIRST), mid, a, mid);
    a := [PopStep(FIRST)] + a;
    GoesOn(At(sl, TestRange(0, 0), Idle, {}), PopStep(FIRST), At(sl, ReadEntry(0, 0), Idle, {}), a, mid);
    a := [PopStep(FIRST)] + a;
    GoesOn(At(sl, TestEmpty(0, 0), Idle, {}), PopStep(FIRST), At(sl, TestRange(0, 0), Idle, {}), a, mid);
    a := [PopStep(FIRST)] + a;
    GoesOn(At(sl, LoadHead(0), Idle, {}), PopStep(FIRST), At(sl, TestEmpty(0, 0), Idle, {}), a, mid);
    a := [PopStep(FIRST)] + a;
    GoesOn(Start(), PopBegin(FIRST, 0), At(sl, LoadHead(0), Idle, {}), a, mid);
    a := [PopBegin(FIRST, 0)] + a;
    var b := PopRun(sl, STALE, {});
    assert {} + {0} == {0};
    GoesThen(Start(), a, mid, b, Round(1, [0, 1]));
    ls := a + b;
  }

  // ----- The uint32_t pool hands out a held object

  /** A run of the uint32_t pool from initialisation after which the compare-and-swap of the first pop succeeds and
      hands out object 0, which a caller holds. Up to there the pool has done what the unbounded one does. */
  lemma StaleSnapshotSharesObject() returns (ls: seq<Label>)
    ensures Sized(Pair(), 1) && Initial(Pair(), Start(), Places())
    ensures WellFormed(Pair(), Trunc(Start())) && IsRun32(Pair(), 1, Trunc(Start()), ls)
    ensures var r := Exec32(Pair(), 1, Trunc(Start()), ls);
            FIRST in r.pops && Takes(r, FIRST) && r.pops[FIRST].obj == 0 && 0 in r.held
    ensures IsRun(Pair(), Start(), ls) && ExactRun(Pair(), Start(), ls)
    ensures var u := Exec(Pair(), Start(), ls);
            Enabled(Pair(), u, PopStep(FIRST)) && !StepExact(Pair(), u, PopStep(FIRST)) && !Takes(u, FIRST)
  {
    hide IsRun, ExactRun, Exec, IsRun32, Exec32, Start, Inv, Initial, At, Next, WellFormed, StepExact, Takes, Enabled;
    PairIsSized();
    StartIsInitial();
    var a := Beginning();
    var b, e := Cycles(1, [0, 1], TWO_32 - 1);
    GoesThen(Start(), a, Round(1, [0, 1]), b, Round(TWO_32, e));
    ls := a + b;
    InitialInv(Pair(), Start(), Places());
    WrapRefinesUnbounded(Pair(), 1, Start(), Places(), ls);
    RoundTakes(Round(TWO_32, e), e);
  }

  lemma RoundTakes(s: State, e: seq<Obj>)
    requires OneAt(e, TWO_32) && s == Round(TWO_32, e)
    ensures WellFormed(Pair(), s) && FIRST in s.pops && Enabled(Pair(), s, PopStep(FIRST))
    ensures !StepExact(Pair(), s, PopStep(FIRST)) && !Takes(s, FIRST)
    ensures FIRST in Trunc(s).pops && Takes(Trunc(s), FIRST) && Trunc(s).pops[FIRST].obj == 0 && 0 in Trunc(s).held
  {
    assert Trunc(s).slots[0].head == 0;
  }
}
