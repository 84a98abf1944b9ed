/** Building the pool: the per-CPU slots and the objects spread over them. */
module MemcachePool {
  import opened Bits
  import opened Cpumask
  import opened MemcacheMachine

  const EINVAL := -22
  const ENOMEM := -12
  const NR_OBJS_MAX := 0x100_0000
  const OBJSIZE_MAX := 0x1_0000

  // ----- Initialisation

  /** roundup_pow_of_two, as an exponent: the least `k` with `n <= 2^k`. */
  function CeilLog2(n: nat): (k: nat)
    ensures n <= Pow2(k) && (k > 0 ==> Pow2(k - 1) < n)
  {
    CeilLog2From(n, 0)
  }

  function CeilLog2From(n: nat, k: nat): (r: nat)
    requires k > 0 ==> Pow2(k - 1) < n
    ensures k <= r && n <= Pow2(r) && (r > 0 ==> Pow2(r - 1) < n)
    decreases n - Pow2(k)
  {
    if n <= Pow2(k) then k else CeilLog2From(n, k + 1)
  }

  /** How many of `nrObjs` objects the possible CPU with index `rank` out of `n` receives. */
  function Share(nrObjs: nat, n: nat, rank: nat): nat
    requires n > 0
  {
    nrObjs / n + if rank < nrObjs % n then 1 else 0
  }

  /** A share that differs by at most one from every other. */
  predicate Even(nrObjs: nat, n: nat, share: nat)
    requires n > 0
  {
    share == nrObjs / n || share == nrObjs / n + 1
  }

  function SharesUpTo(nrObjs: nat, n: nat, rank: nat): nat
    requires n > 0
  {
    if rank == 0 then 0 else SharesUpTo(nrObjs, n, rank - 1) + Share(nrObjs, n, rank - 1)
  }

  lemma {:induction false} SharesClosedForm(nrObjs: nat, n: nat, rank: nat, q: nat, r: nat)
    requires 0 < n && q == nrObjs / n && r == nrObjs % n
    ensures SharesUpTo(nrObjs, n, rank) == rank * q + if rank < r then rank else r
  {
    if rank > 0 {
      SharesClosedForm(nrObjs, n, rank - 1, q, r);
      assert rank * q == (rank - 1) * q + q;
    }
  }

  /** The shares of all possible CPUs add up to exactly nr_objs. */
  lemma SharesAddUp(nrObjs: nat, n: nat)
    requires 0 < n
    ensures SharesUpTo(nrObjs, n, n) == nrObjs
  {
    SharesClosedForm(nrObjs, n, n, nrObjs / n, nrObjs % n);
  }

  lemma {:induction false} SharesMonotone(nrObjs: nat, n: nat, a: nat, b: nat)
    requires 0 < n && a <= b
    ensures SharesUpTo(nrObjs, n, a) <= SharesUpTo(nrObjs, n, b)
  {
    if a < b { SharesMonotone(nrObjs, n, a, b - 1); }
  }

  /** The objects numbered below `n` sit in the slots, each at the place `loc` gives. */
  ghost predicate LaidOut(slots: map<Cpu, Slot>, loc: map<Obj, Place>, n: nat) {
    && (forall o :: o in loc <==> 0 <= o < n)
    && (forall o <- loc :: Placed(slots, loc, o))
    && (forall c <- slots :: SlotFilled(slots[c], loc, c))
  }

  ghost predicate Placed(slots: map<Cpu, Slot>, loc: map<Obj, Place>, o: Obj) {
    && o in loc && loc[o].Ring? && loc[o].c in slots
    && loc[o].pos < slots[loc[o].c].tail <= |slots[loc[o].c].entries|
    && slots[loc[o].c].entries[loc[o].pos] == o
  }

  ghost predicate SlotFilled(sl: Slot, loc: map<Obj, Place>, c: Cpu) {
    && sl.head == 0 && sl.last == sl.tail <= |sl.entries| && sl.stack == []
    && (forall pos: nat :: pos < sl.tail ==> sl.entries[pos] in loc && loc[sl.entries[pos]] == Ring(c, pos))
  }

  /** The caller's initialiser accepts the objects from `a` to below `b`. */
  ghost predicate AllAccepted(objinit: Obj -> int, a: int, b: int)
    decreases b - a
  {
    b <= a || (AllAccepted(objinit, a, b - 1) && objinit(b - 1) == 0)
  }

  /** The slot of every possible CPU can be allocated. */
  ghost predicate AllFit(possible: Cpumask, slotFits: Cpu -> bool) {
    forall c <- Cpus(possible) :: slotFits(c)
  }

  /** A part of the objects is accepted if all are, and all are if both parts are. */
  lemma {:induction false} AcceptedInPart(objinit: Obj -> int, first: int, a: int, b: int, n: int)
    requires first <= a <= b <= n
    ensures AllAccepted(objinit, first, n) ==> AllAccepted(objinit, a, b)
    ensures AllAccepted(objinit, first, a) && AllAccepted(objinit, a, b) ==> AllAccepted(objinit, first, b)
    decreases n - a
  {
    if b < n {
      AcceptedInPart(objinit, first, a, b, n - 1);
    } else if a < b {
      AcceptedInPart(objinit, first, a, b - 1, n - 1);
    }
  }

  lemma FitsOne(possible: Cpumask, slotFits: Cpu -> bool, i: nat)
    requires i < |possible| && possible[i] && AllFit(possible, slotFits)
    ensures slotFits(i)
  {
    assert i in Cpus(possible);
  }

  /** memcache_init_percpu_slot: put `nodes` new objects, numbered from `first`, into a fresh slot. */
  method InitSlot(capExp: nat, nodes: nat, first: nat, objinit: Obj -> int) returns (rc: int, slot: Slot)
    requires nodes <= Pow2(capExp)
    ensures rc == 0 ==> slot.head == 0 && slot.tail == slot.last == nodes && slot.stack == []
    ensures |slot.entries| == Pow2(capExp)
    ensures rc == 0 ==> forall i :: 0 <= i < nodes ==> slot.entries[i] == first + i
    ensures rc == 0 <==> AllAccepted(objinit, first, first + nodes)
  {
    var mask := Pow2(capExp) - 1;
    rc := 0;
    slot := Slot(0, 0, 0, seq(Pow2(capExp), _ => 0), []);
    var i := 0;
    while i < nodes
      invariant 0 <= i <= nodes && rc == 0
      invariant slot.head == 0 && slot.tail == slot.last == i && slot.stack == []
      invariant |slot.entries| == Pow2(capExp)
      invariant forall j :: 0 <= j < i ==> slot.entries[j] == first + j
      invariant AllAccepted(objinit, first, first + i)
    {
      AcceptedInPart(objinit, first, first + i, first + i + 1, first + nodes);
      rc := objinit(first + i);
      if rc != 0 {
        return;
      }
      MaskKeepsSmall(slot.tail, capExp);
      slot := slot.(entries := slot.entries[BitAnd(slot.tail, mask) := first + i]);
      slot := slot.(tail := slot.tail + 1);
      slot := slot.(last := slot.tail);
      i := i + 1;
    }
  }

  /** memcache_init. `headFits`, `slotFits` and `objinit` are the outcomes of the allocations and of
      the caller's initialiser. On success the pool is in an initial state of the machine. */
  method Init(nrObjs: int, objectSize: int, possible: Cpumask, headFits: bool, slotFits: Cpu -> bool,
              objinit: Obj -> int, tids: set<Tid>)
    returns (rc: int, slots: map<Cpu, Slot>, ref: int, ghost loc: map<Obj, Place>)
    requires Cpus(possible) != {}
    ensures rc == EINVAL <== nrObjs <= 0 || nrObjs > NR_OBJS_MAX || objectSize <= 0 || objectSize > OBJSIZE_MAX
    ensures rc == 0 <==>
              && 0 < nrObjs <= NR_OBJS_MAX && 0 < objectSize <= OBJSIZE_MAX && headFits
              && AllFit(possible, slotFits) && AllAccepted(objinit, 0, nrObjs)
    ensures rc == 0 ==>
              && ref == nrObjs + 1
              && Initial(PoolConfig(nrObjs, possible), PoolState(slots, tids), loc)
    ensures rc == 0 ==> forall c <- slots :: Even(nrObjs, |Cpus(possible)|, slots[c].tail)
    ensures rc != 0 ==> slots == map[] && ref == 0
  {
    slots, ref, loc := map[], 0, map[];
    if nrObjs <= 0 || nrObjs > NR_OBJS_MAX || objectSize <= 0 || objectSize > OBJSIZE_MAX {
      rc := EINVAL;
      return;
    }
    if !headFits {
      rc := ENOMEM;
      return;
    }
    var created;
    rc, slots, created, loc := InitSlots(nrObjs, possible, slotFits, objinit);
    if rc != 0 {
      slots := map[];
    } else {
      ref := created + 1;
      assert possible[..|possible|] == possible;
      LaidOutIsInitial(nrObjs, possible, slots, tids, loc);
    }
  }

  ghost function PoolConfig(nrObjs: nat, possible: Cpumask): Config {
    Config(Cpus(possible), Numbers(nrObjs), nrObjs, Pow2(CeilLog2(nrObjs)))
  }

  ghost function PoolState(slots: map<Cpu, Slot>, tids: set<Tid>): State {
    State(slots, map t | t in tids :: Idle, {}, {})
  }

  /** The objects created, in order of creation. */
  ghost function Numbers(n: nat): (r: set<Obj>)
    ensures |r| == n && forall o :: o in r <==> 0 <= o < n
  {
    if n == 0 then {} else Numbers(n - 1) + {n - 1}
  }

  lemma LaidOutIsInitial(nrObjs: nat, possible: Cpumask, slots: map<Cpu, Slot>, tids: set<Tid>, loc: map<Obj, Place>)
    requires 0 < nrObjs && slots.Keys == Cpus(possible) && LaidOut(slots, loc, nrObjs)
    requires forall c <- slots :: |slots[c].entries| == Pow2(CeilLog2(nrObjs))
    ensures Initial(PoolConfig(nrObjs, possible), PoolState(slots, tids), loc)
  {
    var cfg, s := PoolConfig(nrObjs, possible), PoolState(slots, tids);
    forall c <- slots, pos: nat, o | InRing(cfg, slots[c], pos, o)
      ensures o in loc && loc[o] == Ring(c, pos)
    {
      assert SlotFilled(slots[c], loc, c);
      RemainderUnique(pos, cfg.cap, 0, pos);
    }
    forall p, o | InPlace(cfg, s, p, o) ensures o in loc && loc[o] == p {
      assert p.Ring?;
    }
    forall o <- loc ensures InPlace(cfg, s, loc[o], o) {
      InitialPlace(cfg, slots, loc, o);
      assert InRing(cfg, slots[loc[o].c], loc[o].pos, o);
    }
  }

  lemma InitialPlace(cfg: Config, slots: map<Cpu, Slot>, loc: map<Obj, Place>, o: Obj)
    requires o in loc && loc[o].Ring? && loc[o].c in slots && loc[o].pos < slots[loc[o].c].tail
    requires SlotFilled(slots[loc[o].c], loc, loc[o].c) && |slots[loc[o].c].entries| == cfg.cap
    requires Placed(slots, loc, o)
    ensures InRing(cfg, slots[loc[o].c], loc[o].pos, o)
  {
    RemainderUnique(loc[o].pos, cfg.cap, 0, loc[o].pos);
  }

  /** The slots of the first `i` CPUs are built and hold their shares. */
  ghost predicate Built(nrObjs: nat, possible: Cpumask, slotFits: Cpu -> bool, i: nat, slots: map<Cpu, Slot>)
    requires Cpus(possible) != {} && i <= |possible|
  {
    && slots.Keys == Cpus(possible[..i])
    && (forall c <- slots :: slotFits(c) && |slots[c].entries| == Pow2(CeilLog2(nrObjs)))
    && (forall c <- slots :: Even(nrObjs, |Cpus(possible)|, slots[c].tail))
  }

  lemma BuiltGrows(nrObjs: nat, possible: Cpumask, slotFits: Cpu -> bool, i: nat, slots: map<Cpu, Slot>,
                   slot: Slot, rank: nat)
    requires Cpus(possible) != {} && i < |possible| && possible[i] && slotFits(i)
    requires Built(nrObjs, possible, slotFits, i, slots)
    requires |slot.entries| == Pow2(CeilLog2(nrObjs)) && slot.tail == Share(nrObjs, |Cpus(possible)|, rank)
    ensures Built(nrObjs, possible, slotFits, i + 1, slots[i := slot])
  {
    CpusGrow(possible, i);
  }

  /** How many objects the slot of a CPU gets. */
  method NodesOf(nrObjs: nat, num: nat, cpuCount: nat) returns (nodes: nat)
    requires 0 < num
    ensures nodes == Share(nrObjs, num, cpuCount)
  {
    nodes := nrObjs / num;
    if cpuCount < nrObjs % num {
      nodes := nodes + 1;
    }
  }

  /** One round of the loop: the slot of a possible CPU, with the objects numbered from `created`. */
  method AddCpu(nrObjs: nat, possible: Cpumask, slotFits: Cpu -> bool, objinit: Obj -> int, i: nat, nodes: nat,
                slots: map<Cpu, Slot>, created: nat, ghost loc: map<Obj, Place>, ghost rank: nat)
    returns (rc: int, slots': map<Cpu, Slot>, created': nat, ghost loc': map<Obj, Place>)
    requires Cpus(possible) != {} && i < |possible| && possible[i]
    requires Built(nrObjs, possible, slotFits, i, slots) && LaidOut(slots, loc, created)
    requires nodes == Share(nrObjs, |Cpus(possible)|, rank) <= Pow2(CeilLog2(nrObjs))
    ensures rc == 0 <==> slotFits(i) && AllAccepted(objinit, created, created + nodes)
    ensures rc == 0 ==> created' == created + nodes
    ensures rc == 0 ==> Built(nrObjs, possible, slotFits, i + 1, slots') && LaidOut(slots', loc', created')
  {
    hide Built, LaidOut, CeilLog2, AddSlot, Share, Pow2, AllAccepted, Even, Placed, SlotFilled;
    slots', created', loc' := slots, created, loc;
    if !slotFits(i) {
      rc := ENOMEM;
      return;
    }
    var slot;
    rc, slot := InitSlot(CeilLog2(nrObjs), nodes, created, objinit);
    if rc != 0 {
      return;
    }
    BuiltBelow(nrObjs, possible, slotFits, i, slots);
    NumbersUsed(slots, loc, created);
    SlotAdded(slots, loc, created, i, slot);
    loc' := AddSlot(loc, created, i, nodes);
    BuiltGrows(nrObjs, possible, slotFits, i, slots, slot, rank);
    slots', created' := slots[i := slot], created + nodes;
  }

  /** memcache_init_percpu_slots: spread the objects over the possible CPUs. */
  method InitSlots(nrObjs: nat, possible: Cpumask, slotFits: Cpu -> bool, objinit: Obj -> int)
    returns (rc: int, slots: map<Cpu, Slot>, created: nat, ghost loc: map<Obj, Place>)
    requires 0 < nrObjs && Cpus(possible) != {}
    ensures rc == 0 <==> AllFit(possible, slotFits) && AllAccepted(objinit, 0, nrObjs)
    ensures rc == 0 ==> created == nrObjs
    ensures rc == 0 ==> Built(nrObjs, possible, slotFits, |possible|, slots) && LaidOut(slots, loc, nrObjs)
  {
    hide Built, LaidOut, SharesUpTo, CeilLog2, Share, Pow2, AllFit, AllAccepted, Even, Placed, SlotFilled, Cpus, Count;
    var num := |Cpus(possible)|;
    var cpuCount, i := 0, 0;
    slots, created, rc, loc := map[], 0, 0, map[];
    NothingBuilt(nrObjs, possible, slotFits);
    while i < |possible|
      invariant 0 <= i <= |possible| && rc == 0
      invariant cpuCount == Count(possible, i)
      invariant created == SharesUpTo(nrObjs, num, cpuCount)
      invariant AllAccepted(objinit, 0, created)
      invariant Built(nrObjs, possible, slotFits, i, slots) && LaidOut(slots, loc, created)
    {
      if possible[i] {
        var nodes := NodesOf(nrObjs, num, cpuCount);
        CountGrows(possible, i);
        NodesFit(nrObjs, num, cpuCount, CeilLog2(nrObjs));
        AcceptedInPart(objinit, 0, created, created + nodes, nrObjs);
        rc, slots, created, loc := AddCpu(nrObjs, possible, slotFits, objinit, i, nodes, slots, created, loc, cpuCount);
        if rc != 0 {
          if AllFit(possible, slotFits) { FitsOne(possible, slotFits, i); }
          return;
        }
        cpuCount := cpuCount + 1;
      } else {
        CountSkips(possible, i);
        BuiltSkips(nrObjs, possible, slotFits, i, slots);
      }
      i := i + 1;
    }
    CountAll(possible);
    SharesAddUp(nrObjs, num);
    BuiltFits(nrObjs, possible, slotFits, slots);
  }

  lemma NothingBuilt(nrObjs: nat, possible: Cpumask, slotFits: Cpu -> bool)
    requires Cpus(possible) != {}
    ensures Built(nrObjs, possible, slotFits, 0, map[]) && LaidOut(map[], map[], 0)
    ensures SharesUpTo(nrObjs, |Cpus(possible)|, 0) == 0 == Count(possible, 0)
    ensures forall objinit: Obj -> int :: AllAccepted(objinit, 0, 0)
  {
  }

  lemma BuiltBelow(nrObjs: nat, possible: Cpumask, slotFits: Cpu -> bool, i: nat, slots: map<Cpu, Slot>)
    requires Cpus(possible) != {} && i < |possible| && Built(nrObjs, possible, slotFits, i, slots)
    ensures i !in slots
  {
  }

  lemma NumbersUsed(slots: map<Cpu, Slot>, loc: map<Obj, Place>, n: nat)
    requires LaidOut(slots, loc, n)
    ensures forall o :: o in loc <==> 0 <= o < n
  {
  }

  lemma BuiltSkips(nrObjs: nat, possible: Cpumask, slotFits: Cpu -> bool, i: nat, slots: map<Cpu, Slot>)
    requires Cpus(possible) != {} && i < |possible| && !possible[i] && Built(nrObjs, possible, slotFits, i, slots)
    ensures Built(nrObjs, possible, slotFits, i + 1, slots)
  {
    CpusSkip(possible, i);
  }

  lemma BuiltFits(nrObjs: nat, possible: Cpumask, slotFits: Cpu -> bool, slots: map<Cpu, Slot>)
    requires Cpus(possible) != {} && Built(nrObjs, possible, slotFits, |possible|, slots)
    ensures AllFit(possible, slotFits)
  {
    assert possible[..|possible|] == possible;
  }

  /** The number of possible CPUs below `i`. */
  ghost function Count(possible: Cpumask, i: nat): nat
    requires i <= |possible|
  {
    |Cpus(possible[..i])|
  }

  lemma CountGrows(possible: Cpumask, i: nat)
    requires i < |possible| && possible[i]
    ensures Count(possible, i + 1) == Count(possible, i) + 1 <= |Cpus(possible)|
  {
    CpusGrow(possible, i);
  }

  lemma CountSkips(possible: Cpumask, i: nat)
    requires i < |possible| && !possible[i]
    ensures Count(possible, i + 1) == Count(possible, i)
  {
    CpusSkip(possible, i);
  }

  lemma CountAll(possible: Cpumask)
    ensures Count(possible, |possible|) == |Cpus(possible)|
  {
    assert possible[..|possible|] == possible;
  }

  lemma CpusSkip(possible: Cpumask, i: nat)
    requires i < |possible| && !possible[i]
    ensures Cpus(possible[..i + 1]) == Cpus(possible[..i])
  {
  }

  lemma CpusGrow(possible: Cpumask, i: nat)
    requires i < |possible| && possible[i]
    ensures Cpus(possible[..i + 1]) == Cpus(possible[..i]) + {i}
    ensures |Cpus(possible[..i])| < |Cpus(possible)|
    ensures |Cpus(possible[..i + 1])| == |Cpus(possible[..i])| + 1
  {
    assert Cpus(possible[..i]) + {i} <= Cpus(possible);
    SubsetCardinality(Cpus(possible[..i]) + {i}, Cpus(possible));
  }

  lemma NodesFit(nrObjs: nat, num: nat, rank: nat, capExp: nat)
    requires rank < num && nrObjs <= Pow2(capExp)
    ensures Share(nrObjs, num, rank) <= Pow2(capExp)
    ensures SharesUpTo(nrObjs, num, rank + 1) == SharesUpTo(nrObjs, num, rank) + Share(nrObjs, num, rank) <= nrObjs
  {
    SharesMonotone(nrObjs, num, rank + 1, num);
    SharesAddUp(nrObjs, num);
  }

  /** Objects created for a new slot take the numbers above all earlier ones. */
  ghost function AddSlot(loc: map<Obj, Place>, n: nat, c: Cpu, nodes: nat): (r: map<Obj, Place>)
    requires forall o :: o in loc <==> 0 <= o < n
    ensures forall o :: o in r <==> 0 <= o < n + nodes
    ensures forall o <- r :: r[o] == if o < n then loc[o] else Ring(c, o - n)
  {
    map o: Obj | 0 <= o < n + nodes :: if o < n then loc[o] else Ring(c, o - n)
  }

  lemma SlotAdded(slots: map<Cpu, Slot>, loc: map<Obj, Place>, n: nat, c: Cpu, slot: Slot)
    requires c !in slots && LaidOut(slots, loc, n)
    requires slot.head == 0 && slot.last == slot.tail <= |slot.entries| && slot.stack == []
    requires forall i :: 0 <= i < slot.tail ==> slot.entries[i] == n + i
    ensures LaidOut(slots[c := slot], AddSlot(loc, n, c, slot.tail), n + slot.tail)
  {
    hide AddSlot, Placed, SlotFilled;
    var slots', r := slots[c := slot], AddSlot(loc, n, c, slot.tail);
    forall o <- r ensures Placed(slots', r, o) { StillPlaced(slots, loc, r, n, c, slot, o); }
    forall d <- slots' ensures SlotFilled(slots'[d], r, d) {
      if d != c {
        StillFilled(slots[d], loc, r, d);
      } else {
        NewlyFilled(slot, r, c, n);
      }
    }
  }

  lemma StillPlaced(slots: map<Cpu, Slot>, loc: map<Obj, Place>, r: map<Obj, Place>, n: nat, c: Cpu, slot: Slot, o: Obj)
    requires c !in slots && slot.tail <= |slot.entries| && 0 <= o < n + slot.tail
    requires o < n ==> Placed(slots, loc, o) && o in r && r[o] == loc[o]
    requires o >= n ==> o in r && r[o] == Ring(c, o - n) && slot.entries[o - n] == o
    ensures Placed(slots[c := slot], r, o)
  {
  }

  lemma StillFilled(sl: Slot, loc: map<Obj, Place>, r: map<Obj, Place>, d: Cpu)
    requires SlotFilled(sl, loc, d)
    requires forall o :: o in loc ==> o in r && r[o] == loc[o]
    ensures SlotFilled(sl, r, d)
  {
    forall pos: nat | pos < sl.tail ensures sl.entries[pos] in r && r[sl.entries[pos]] == Ring(d, pos) {
      var o := sl.entries[pos];
      assert o in loc && loc[o] == Ring(d, pos);
      assert o in r && r[o] == loc[o];
    }
  }

  lemma NewlyFilled(slot: Slot, r: map<Obj, Place>, c: Cpu, n: nat)
    requires slot.head == 0 && slot.last == slot.tail <= |slot.entries| && slot.stack == []
    requires forall i :: 0 <= i < slot.tail ==> slot.entries[i] == n + i
    requires forall o :: n <= o < n + slot.tail ==> o in r && r[o] == Ring(c, o - n)
    ensures SlotFilled(slot, r, c)
  {
  }
}
