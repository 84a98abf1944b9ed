/** Walking a CPU mask in wrapped order, as both the object pool and the trace reader do. */
module Cpumask {

  type Cpumask = seq<bool>

  function Cpus(mask: Cpumask): set<int> {
    set i | 0 <= i < |mask| && mask[i]
  }

  /** cpumask_next: the first CPU of the mask after `n`, or the mask's size. */
  function NextBit(n: int, mask: Cpumask): (r: nat)
    requires n >= -1
    ensures r <= |mask| && (r < |mask| ==> n < r && mask[r])
    ensures forall i :: n < i < r && i < |mask| ==> !mask[i]
    decreases |mask| - n
  {
    if n + 1 >= |mask| then |mask| else if mask[n + 1] then n + 1 else NextBit(n + 1, mask)
  }

  /** Distance from `start` going up and around the end of the mask. */
  function Turn(c: int, start: int, size: nat): int {
    if c >= start then c - start else c - start + size
  }

  /** cpumask_next_wrap: the CPU after `n`, starting over once, and the mask's size when the walk
      that began at `start` is complete. */
  method NextWrap(n: int, mask: Cpumask, start: int, wrap: bool) returns (next: nat)
    requires -1 <= n < |mask| && -1 <= start <= |mask|
    requires start >= 0 || Cpus(mask) != {}
    ensures next <= |mask| && (next < |mask| ==> mask[next])
    // a walk without an end: the successor in cyclic order
    ensures start == -1 ==> next < |mask| && next == if NextBit(n, mask) < |mask| then NextBit(n, mask) else NextBit(-1, mask)
    // the first CPU of a walk from start: nearest in cyclic order, none only for an empty mask
    ensures !wrap && n == start - 1 ==>
              && (forall c <- Cpus(mask) :: next < |mask| && Turn(next, start, |mask|) <= Turn(c, start, |mask|))
    // a later CPU: the nearest one further on, none only when the walk is complete
    ensures wrap && n >= 0 && 0 <= start < |mask| ==>
              && (next < |mask| ==> Turn(n, start, |mask|) < Turn(next, start, |mask|))
              && (forall c <- Cpus(mask) | Turn(n, start, |mask|) < Turn(c, start, |mask|) ::
                    next < |mask| && Turn(next, start, |mask|) <= Turn(c, start, |mask|))
  {
    var m, w := n, wrap;
    ghost var again := false;
    while true
      invariant -1 <= m < |mask|
      invariant !again ==> m == n && w == wrap
      invariant again ==> m == -1 && w && NextBit(n, mask) >= |mask| && !(wrap && n < start)
      decreases !again
    {
      next := NextBit(m, mask);
      if w && m < start && next >= start {
        next := |mask|;
        break;
      } else if next >= |mask| {
        w, m, again := true, -1, true;
      } else {
        break;
      }
    }
  }
}
