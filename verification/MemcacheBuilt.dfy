/** The pool that memcache_init builds, run on its uint32_t counters. */
module MemcacheBuilt {
  import opened Bits
  import opened Cpumask
  import opened MemcacheMachine
  import opened MemcachePool
  import opened MemcacheWrap
  import opened MemcacheFresh

  /** For every number of objects memcache_init accepts, the ring size is a power of two within 2^24. */
  lemma PoolIsSized(n: nat, possible: Cpumask)
    requires 0 < n <= NR_OBJS_MAX
    ensures Sized(PoolConfig(n, possible), CeilLog2(n))
  {
    hide CeilLog2, Numbers;
    var k := CeilLog2(n);
    Pow2Values();
    if k > 24 { Pow2Monotone(24, k - 1); }
  }

  /** No counter of the state memcache_init leaves behind is cut by the width of uint32_t. */
  lemma BuiltFitsCounters(n: nat, possible: Cpumask, slots: map<Cpu, Slot>, tids: set<Tid>, loc: map<Obj, Place>)
    requires 0 < n <= NR_OBJS_MAX && Initial(PoolConfig(n, possible), PoolState(slots, tids), loc)
    ensures Trunc(PoolState(slots, tids)) == PoolState(slots, tids)
  {
    hide Located, CeilLog2;
    var cfg, s := PoolConfig(n, possible), PoolState(slots, tids);
    InitialInv(cfg, s, loc);
    forall c <- slots ensures TruncSlot(slots[c]) == slots[c] {
      WindowBound(cfg, s, loc, c);
      assert TruncStack([]) == [];
    }
    assert TruncSlots(slots) == slots;
    assert forall t <- s.pops :: TruncPopper(s.pops[t]) == s.pops[t];
    assert TruncPoppers(s.pops) == s.pops;
  }

  /** From the state memcache_init leaves behind, and with its sizes, the uint32_t pool does what the unbounded one
      does and hands out no object twice, if no thread lets 2^32 - nr_objs steps of the pool pass between obtaining
      a snapshot and using it. */
  lemma BuiltPopIsExclusive(n: nat, possible: Cpumask, slots: map<Cpu, Slot>, tids: set<Tid>, loc: map<Obj, Place>,
                            ls: seq<Label>, t: Tid)
    requires 0 < n <= NR_OBJS_MAX && Initial(PoolConfig(n, possible), PoolState(slots, tids), loc)
    requires var cfg, s := PoolConfig(n, possible), PoolState(slots, tids);
             && IsRun(cfg, s, ls) && Matches(s, Zero(s)) && PromptRun(cfg, s, Zero(s), ls, TWO_32 - n)
             && Enabled(cfg, Exec(cfg, s, ls), PopStep(t))
             && Prompt(Exec(cfg, s, ls), ExecClock(cfg, s, Zero(s), ls), PopStep(t), TWO_32 - n)
    ensures Sized(PoolConfig(n, possible), CeilLog2(n))
    ensures var cfg, k, s := PoolConfig(n, possible), CeilLog2(n), PoolState(slots, tids);
            && IsRun32(cfg, k, s, ls)
            && var r := Exec32(cfg, k, s, ls);
               && r == Trunc(Exec(cfg, s, ls)) && t in r.pops
               && (Takes(r, t) ==> r.pops[t].obj in cfg.objs && r.pops[t].obj !in r.held && r.pops[t].obj !in r.gone)
  {
    hide Initial, IsRun, Exec, IsRun32, Exec32, PromptRun, Prompt, Matches, Trunc, CeilLog2, Zero, ExecClock;
    PoolIsSized(n, possible);
    BuiltFitsCounters(n, possible, slots, tids, loc);
    PromptPopIsExclusive(PoolConfig(n, possible), CeilLog2(n), PoolState(slots, tids), loc, ls, t);
  }
}
