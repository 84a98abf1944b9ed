/** Reading the per-CPU trace rings through the proc endpoint. Each ring is a queue that is not
    overwritten while it is read; an entry stands for the text its event class formats it to. */
module TraceReader {
  import opened Cpumask

  type Entry = string
  type Rings = map<int, seq<Entry>>

  /** Entries with the CPUs they came from, in the order in which they were consumed. */
  type Log = seq<(int, Entry)>

  datatype Status = Delivered | WouldBlock | Busy

  // ----- Choosing the next ring

  /** Where a scan begins after `last` was served. */
  function StartAfter(last: int, size: nat): int {
    if last + 1 >= size then 0 else if last + 1 < 0 then 0 else last + 1
  }

  ghost predicate WellFormed(mask: Cpumask, rings: Rings) {
    rings.Keys == Cpus(mask)
  }

  ghost function NonEmpty(rings: Rings): set<int> {
    set c | c in rings && rings[c] != []
  }

  /** `cpu` is the first of `avail` at or after `start`, going around. */
  ghost predicate Nearest(avail: set<int>, start: int, size: nat, cpu: int) {
    cpu in avail && forall c <- avail :: Turn(cpu, start, size) <= Turn(c, start, size)
  }

  lemma NearestIsNonEmpty(rings: Rings, start: int, size: nat, cpu: int)
    requires Nearest(NonEmpty(rings), start, size, cpu)
    ensures cpu in rings && rings[cpu] != []
  {
  }

  /** __find_next_entry: the next non-empty ring after the one read last. */
  method FindNextEntry(mask: Cpumask, rings: Rings, last: int) returns (cpu: int)
    requires WellFormed(mask, rings) && |mask| > 0
    ensures cpu == |mask| <==> NonEmpty(rings) == {}
    ensures cpu != |mask| ==> Nearest(NonEmpty(rings), StartAfter(last, |mask|), |mask|, cpu)
  {
    var size, start := |mask|, StartAfter(last, |mask|);
    cpu := NextWrap(start - 1, mask, start, false);
    while cpu < size
      invariant 0 <= cpu <= size && (cpu < size ==> mask[cpu])
      invariant forall c <- NonEmpty(rings) :: cpu < size && Turn(cpu, start, size) <= Turn(c, start, size)
      decreases if cpu < size then size - Turn(cpu, start, size) else 0
    {
      if rings[cpu] != [] {
        assert cpu in NonEmpty(rings);
        return;
      }
      cpu := NextWrap(cpu, mask, start, true);
    }
  }

  // ----- Filling one page

  function Least(a: nat, b: nat): nat {
    if a <= b then a else b
  }

  function Text(log: Log): string {
    if log == [] then "" else Text(log[..|log| - 1]) + log[|log| - 1].1
  }

  /** The entries of one CPU in the log, in order. */
  function Of(log: Log, c: int): seq<Entry> {
    if log == [] then []
    else
      var (d, e) := log[|log| - 1];
      var before := Of(log[..|log| - 1], c);
      if d == c then before + [e] else before
  }

  lemma LogGrows(log: Log, c: int, e: Entry, d: int)
    ensures Text(log + [(c, e)]) == Text(log) + e
    ensures Of(log + [(c, e)], d) == if c == d then Of(log, d) + [e] else Of(log, d)
  {
    assert (log + [(c, e)])[..|log|] == log;
  }

  /** Entries waiting in the rings of the CPUs below `n`. */
  ghost function Waiting(rings: Rings, n: nat): nat {
    if n == 0 then 0 else Waiting(rings, n - 1) + if n - 1 in rings then |rings[n - 1]| else 0
  }

  lemma {:induction false} WaitingDrops(rings: Rings, c: int, n: nat)
    requires c in rings && rings[c] != []
    ensures Waiting(rings[c := rings[c][1..]], n) == Waiting(rings, n) - if 0 <= c < n then 1 else 0
  {
    if n > 0 { WaitingDrops(rings, c, n - 1); }
  }

  /** On every CPU the consumed entries and the waiting ones are what was produced, in order. */
  ghost predicate Ordered(log: Log, rings: Rings, produced: Rings) {
    rings.Keys == produced.Keys && forall c <- rings :: Of(log, c) + rings[c] == produced[c]
  }

  lemma OrderedGrows(log: Log, rings: Rings, produced: Rings, c: int, e: Entry)
    requires Ordered(log, rings, produced) && c in rings && rings[c] != [] && rings[c][0] == e
    ensures Ordered(log + [(c, e)], rings[c := rings[c][1..]], produced)
  {
    hide Of;
    var log', rings' := log + [(c, e)], rings[c := rings[c][1..]];
    forall d <- rings' ensures Of(log', d) + rings'[d] == produced[d] {
      LogGrows(log, c, e, d);
      if d == c { MovedOver(Of(log, c), rings[c], e); }
    }
  }

  lemma MovedOver(before: seq<Entry>, ring: seq<Entry>, e: Entry)
    requires ring != [] && ring[0] == e
    ensures (before + [e]) + ring[1..] == before + ring
  {
  }

  lemma Reassociate<T>(a: seq<T>, b: seq<T>, c: seq<T>)
    ensures (a + b) + c == a + (b + c)
  {
  }

  lemma {:induction false} OfConcat(a: Log, b: Log, c: int)
    ensures Of(a + b, c) == Of(a, c) + Of(b, c)
  {
    if b == [] {
      assert a + b == a;
    } else {
      var n := |b| - 1;
      assert (a + b)[..|a| + n] == a + b[..n];
      OfConcat(a, b[..n], c);
    }
  }

  /** Consuming `a` and then `b` is consuming both. */
  lemma OrderedConcat(a: Log, b: Log, before: Rings, between: Rings, after: Rings)
    requires Ordered(a, between, before) && Ordered(b, after, between)
    ensures Ordered(a + b, after, before)
  {
    hide Of;
    forall c <- after ensures Of(a + b, c) + after[c] == before[c] {
      OfConcat(a, b, c);
      Reassociate(Of(a, c), Of(b, c), after[c]);
    }
  }

  // ----- The order of serving

  /** The CPUs with entries left when the first `k` of `added` have been consumed out of `rings`. */
  ghost function Avail(rings: Rings, added: Log, k: nat): set<int>
    requires k <= |added|
  {
    set c | c in rings && |Of(added[..k], c)| < |rings[c]|
  }

  /** The CPU served before step `k`, which for the first step is the one the walk starts from. */
  function Previous(added: Log, k: nat, last: int): int
    requires k <= |added|
  {
    if k == 0 then last else added[k - 1].0
  }

  /** Out of these rings, each entry consumed came from the nearest CPU with entries left, going around
      from the CPU served before. */
  ghost predicate InTurn(size: nat, rings: Rings, added: Log, last: int) {
    forall k {:trigger Avail(rings, added, k)} :: 0 <= k < |added| ==>
      Nearest(Avail(rings, added, k), StartAfter(Previous(added, k, last), size), size, added[k].0)
  }

  lemma AvailIsNonEmpty(added: Log, now: Rings, before: Rings)
    requires Ordered(added, now, before)
    ensures Avail(before, added, |added|) == NonEmpty(now)
  {
    hide Of;
    assert added[..|added|] == added;
    forall c <- before ensures |Of(added, c)| < |before[c]| <==> now[c] != [] {
      assert Of(added, c) + now[c] == before[c];
    }
  }

  lemma InTurnGrows(size: nat, before: Rings, added: Log, last: int, now: Rings, cpu: int, e: Entry)
    requires InTurn(size, before, added, last) && Ordered(added, now, before)
    requires Nearest(NonEmpty(now), StartAfter(Previous(added, |added|, last), size), size, cpu)
    ensures InTurn(size, before, added + [(cpu, e)], last)
  {
    hide Nearest, Of, Ordered, NonEmpty;
    var more := added + [(cpu, e)];
    AvailIsNonEmpty(added, now, before);
    forall k | 0 <= k < |more|
      ensures Nearest(Avail(before, more, k), StartAfter(Previous(more, k, last), size), size, more[k].0)
    {
      assert more[..k] == added[..k];
      assert Avail(before, more, k) == Avail(before, added, k);
      assert Previous(more, k, last) == Previous(added, k, last);
    }
  }

  /** What the pages of one read hold, in order. */
  function Flat(pages: seq<Log>): Log {
    if pages == [] then [] else Flat(pages[..|pages| - 1]) + pages[|pages| - 1]
  }

  /** The rings once `added` has been consumed. */
  ghost function After(rings: Rings, added: Log): Rings {
    map c | c in rings :: if |Of(added, c)| <= |rings[c]| then rings[c][|Of(added, c)|..] else []
  }

  lemma AfterIsWhatIsLeft(added: Log, now: Rings, before: Rings)
    requires Ordered(added, now, before)
    ensures now == After(before, added)
  {
    hide Of;
    forall c <- now ensures now[c] == After(before, added)[c] {
      assert Of(added, c) + now[c] == before[c];
    }
  }

  /** Every page is filled in turn, beginning behind CPU 0, out of what the pages before it left. */
  ghost predicate PagesInTurn(size: nat, rings: Rings, pages: seq<Log>) {
    forall k {:trigger Flat(pages[..k])} :: 0 <= k < |pages| ==> InTurn(size, After(rings, Flat(pages[..k])), pages[k], 0)
  }

  lemma PagesGrow(size: nat, before: Rings, pages: seq<Log>, now: Rings, page: Log)
    requires PagesInTurn(size, before, pages) && Ordered(Flat(pages), now, before) && InTurn(size, now, page, 0)
    ensures PagesInTurn(size, before, pages + [page]) && Flat(pages + [page]) == Flat(pages) + page
  {
    hide InTurn, After, Flat, Ordered;
    var more := pages + [page];
    AfterIsWhatIsLeft(Flat(pages), now, before);
    forall k | 0 <= k < |more| ensures InTurn(size, After(before, Flat(more[..k])), more[k], 0) {
      if k < |pages| {
        assert more[..k] == pages[..k];
      } else {
        assert more[..k] == pages;
      }
    }
    FlatGrows(pages, page);
  }

  /** No page is without entries, none goes on once it has `cnt` bytes, and only the last has text at all. */
  ghost predicate Frugal(pages: seq<Log>, cnt: nat) {
    forall k :: 0 <= k < |pages| ==> Filled(pages[k], cnt) && (k + 1 < |pages| ==> Text(pages[k]) == "")
  }

  ghost predicate Filled(page: Log, cnt: nat) {
    page != [] && (|page| > 1 ==> |Text(page[..|page| - 1])| < cnt)
  }

  lemma FrugalGrows(pages: seq<Log>, page: Log, cnt: nat)
    requires Frugal(pages, cnt) && (forall p <- pages :: Text(p) == "") && Filled(page, cnt)
    ensures Frugal(pages + [page], cnt)
  {
    hide Filled, Text;
  }

  lemma FrugalNone(cnt: nat)
    ensures Frugal([], cnt)
  {
  }

  lemma FilledMore(page: Log, n: nat, cnt: nat)
    requires Filled(page, n) && n <= cnt
    ensures Filled(page, cnt)
  {
  }

  lemma FlatGrows(pages: seq<Log>, page: Log)
    ensures Flat(pages + [page]) == Flat(pages) + page
  {
    assert (pages + [page])[..|pages|] == pages;
  }

  // ----- The iterator

  /** The iterator of one open file. The ghost fields are its history: what each ring ever received,
      which entries were consumed in which order, and which bytes the user got. */
  class PipeReader {
    const mask: Cpumask
    const pageSize: nat
    var rings: Rings
    var cpu: int
    var page: string
    var readpos: nat
    ghost var produced: Rings
    ghost var log: Log
    ghost var delivered: string

    /** The bytes handed out so far, with those still in the page, are the text of the entries consumed
        so far; on every CPU these are the oldest ones, in order, and the rest is still there. */
    ghost predicate Valid()
      reads this
    {
      && |mask| > 0 && pageSize > 1
      && WellFormed(mask, rings) && WellFormed(mask, produced)
      && readpos <= |page| < pageSize
      && delivered + page[readpos..] == Text(log)
      && Ordered(log, rings, produced)
      && (forall c <- rings, e <- rings[c] :: |e| < pageSize)
    }

    constructor (mask: Cpumask, pageSize: nat)
      requires |mask| > 0 && pageSize > 1
      ensures Valid() && this.mask == mask && this.pageSize == pageSize
      ensures delivered == "" && log == [] && forall c <- rings :: rings[c] == []
    {
      this.mask, this.pageSize := mask, pageSize;
      rings, produced := map c | c in Cpus(mask) :: [], map c | c in Cpus(mask) :: [];
      cpu, page, readpos, log, delivered := 0, "", 0, [], "";
    }

    /** The tracer commits an entry that fits one page. */
    method Commit(c: int, e: Entry)
      requires Valid() && c in rings && |e| < pageSize
      modifies this`rings, this`produced
      ensures Valid()
      ensures rings == old(rings)[c := old(rings)[c] + [e]] && produced == old(produced)[c := old(produced)[c] + [e]]
    {
      hide Of, Text;
      rings := rings[c := rings[c] + [e]];
      produced := produced[c := produced[c] + [e]];
      assert Of(log, c) + rings[c] == (Of(log, c) + old(rings)[c]) + [e];
    }

    /** trace_seq_to_user: copy out at most `cnt` of the bytes left in the page. */
    method ToUser(cnt: nat) returns (status: Status, out: string)
      requires Valid()
      modifies this`readpos, this`delivered
      ensures Valid() && delivered == old(delivered) + out && readpos == old(readpos) + |out|
      ensures status == Delivered || status == Busy
      ensures status == Busy <==> cnt > 0 && old(readpos) == |page|
      ensures |out| == Least(cnt, |page| - old(readpos))
      ensures out <= page[old(readpos)..]
    {
      out := "";
      if cnt == 0 {
        return Delivered, out;
      }
      if |page| <= readpos {
        return Busy, out;
      }
      var n := if cnt > |page| - readpos then |page| - readpos else cnt;
      out := page[readpos..readpos + n];
      assert page[readpos..] == out + page[readpos + n..];
      delivered := delivered + out;
      readpos := readpos + n;
      status := Delivered;
    }

    /** The next entry in turn does not fit into the page any more. */
    ghost predicate PageFull()
      reads this
    {
      exists c :: c in rings && rings[c] != [] && |page| + |rings[c][0]| >= pageSize
                  && Nearest(NonEmpty(rings), StartAfter(cpu, |mask|), |mask|, c)
    }

    /** One round of the loop of trace_read_pipe: the next entry in turn goes into the page whole; the loop
        ends only if there is none or it does not fit. */
    method ServeNext() returns (more: bool)
      requires Valid() && readpos == 0
      modifies this`rings, this`cpu, this`page, this`log
      ensures Valid()
      ensures !more ==> (NonEmpty(rings) == {} || (PageFull() && old(page) != "")) && unchanged(this)
      ensures more ==>
                && Nearest(NonEmpty(old(rings)), StartAfter(old(cpu), |mask|), |mask|, cpu)
                && cpu in old(rings) && old(rings)[cpu] != []
                && log == old(log) + [(cpu, old(rings)[cpu][0])]
                && rings == old(rings)[cpu := old(rings)[cpu][1..]]
                && page == old(page) + old(rings)[cpu][0]
                && Waiting(rings, |mask|) < Waiting(old(rings), |mask|)
    {
      hide Of, Text, Nearest, Waiting, Ordered;
      var next := FindNextEntry(mask, rings, cpu);
      if next == |mask| {
        return false;
      }
      NearestIsNonEmpty(rings, StartAfter(cpu, |mask|), |mask|, next);
      var e := rings[next][0];
      if |page| + |e| >= pageSize {
        return false;
      }
      cpu := next;
      Consume(e);
      more := true;
    }

    /** The memset of trace_read_pipe: an empty page, and the walk over the CPUs starts behind CPU 0. */
    method NewPage()
      requires Valid() && readpos == |page|
      modifies this`cpu, this`page, this`readpos
      ensures Valid() && page == "" && readpos == 0 && cpu == 0
    {
      hide Of, Text, Ordered;
      assert page[readpos..] == "" == ""[0..];
      page, readpos, cpu := "", 0, 0;
    }

    /** trace_seq_init */
    method ClearPage()
      requires Valid() && readpos == |page|
      modifies this`page, this`readpos
      ensures Valid() && page == "" && readpos == 0
    {
      hide Of, Text, Ordered;
      assert page[readpos..] == "" == ""[0..];
      page, readpos := "", 0;
    }

    /** The loop of trace_read_pipe on a fresh page: whole entries only, ring after ring in turn, until
        the rings are empty, the next entry does not fit, or `cnt` bytes are there. */
    method FillPage(cnt: nat) returns (ghost added: Log)
      requires Valid() && readpos == |page| && NonEmpty(rings) != {}
      modifies this`rings, this`cpu, this`page, this`readpos, this`log
      ensures Valid() && readpos == 0
      ensures added != [] && log == old(log) + added && page == Text(added)
      ensures Ordered(added, rings, old(rings)) && InTurn(|mask|, old(rings), added, 0)
      ensures |page| >= cnt || NonEmpty(rings) == {} || PageFull()
      ensures |added| > 1 ==> |page| - |added[|added| - 1].1| < cnt
      ensures Waiting(rings, |mask|) < Waiting(old(rings), |mask|)
    {
      hide Of, Text, InTurn, Nearest, Waiting, Ordered, NonEmpty, PageFull, Valid;
      NewPage();
      added := [];
      NobodyServed(|mask|, rings);
      while true
        invariant Valid() && readpos == 0 && log == old(log) + added && page == Text(added)
        invariant cpu == Previous(added, |added|, 0)
        invariant Ordered(added, rings, old(rings)) && InTurn(|mask|, old(rings), added, 0)
        invariant added == [] ==> rings == old(rings)
        invariant added != [] ==> |page| < cnt && Waiting(rings, |mask|) < Waiting(old(rings), |mask|)
        invariant |added| > 1 ==> |page| - |added[|added| - 1].1| < cnt
        decreases Waiting(rings, |mask|)
      {
        ghost var before := rings;
        var more := ServeNext();
        if !more {
          break;
        }
        ghost var e := before[cpu][0];
        InTurnGrows(|mask|, old(rings), added, 0, before, cpu, e);
        OrderedGrows(added, before, old(rings), cpu, e);
        LogGrows(added, cpu, e, cpu);
        Reassociate(old(log), added, [(cpu, e)]);
        added := added + [(cpu, e)];
        if |page| >= cnt {
          break;
        }
      }
    }

    /** Print the entry at the head of the ring of `cpu` into the page and consume it. */
    method Consume(e: Entry)
      requires Valid() && readpos == 0
      requires cpu in rings && rings[cpu] != [] && rings[cpu][0] == e && |page| + |e| < pageSize
      modifies this`rings, this`page, this`log
      ensures Valid() && page == old(page) + e
      ensures log == old(log) + [(cpu, e)] && rings == old(rings)[cpu := old(rings)[cpu][1..]]
      ensures Waiting(rings, |mask|) == Waiting(old(rings), |mask|) - 1
    {
      hide Of, Text;
      OrderedGrows(log, rings, produced, cpu, e);
      LogGrows(log, cpu, e, cpu);
      WaitingDrops(rings, cpu, |mask|);
      assert page[0..] == page;
      Reassociate(delivered, page, e);
      page := page + e;
      log := log + [(cpu, e)];
      rings := rings[cpu := rings[cpu][1..]];
      assert page[0..] == page;
      assert forall x <- rings[cpu] :: x in old(rings)[cpu];
    }

    /** is_trace_empty */
    method IsTraceEmpty() returns (empty: bool)
      requires Valid()
      ensures empty <==> NonEmpty(rings) == {}
    {
      var c := 0;
      while c < |mask|
        invariant 0 <= c <= |mask|
        invariant forall d <- NonEmpty(rings) :: d >= c
      {
        if mask[c] && rings[c] != [] {
          assert c in NonEmpty(rings);
          return false;
        }
        c := c + 1;
      }
      empty := true;
    }

    /** Fill a new page and hand out the first `cnt` bytes of it. */
    method NextPage(cnt: nat) returns (status: Status, out: string, ghost added: Log)
      requires Valid() && readpos == |page| && NonEmpty(rings) != {}
      modifies this`rings, this`cpu, this`page, this`readpos, this`log, this`delivered
      ensures Valid() && delivered == old(delivered) + out && |out| <= cnt
      ensures added != [] && log == old(log) + added && out <= Text(added)
      ensures Ordered(added, rings, old(rings)) && InTurn(|mask|, old(rings), added, 0) && Filled(added, cnt)
      ensures (status == Delivered && (cnt == 0 || out != "")) || (status == Busy && out == "" && readpos == |page|)
      ensures status == Busy ==> Text(added) == ""
      ensures status == Delivered ==> |out| == Least(cnt, |Text(added)|) && |Text(added)| < pageSize
      ensures Waiting(rings, |mask|) < Waiting(old(rings), |mask|)
    {
      hide Of, Text, NonEmpty, Waiting, Ordered, InTurn, PageFull, Valid;
      added := FillPage(cnt);
      FrontOf(added);
      PageShort(this);
      status, out := ToUser(cnt);
      PageLeft(this);
      if readpos >= |page| {
        ClearPage();
      }
    }

    /** trace_read_pipe on a non-blocking file. It first hands out what is left of the page; otherwise it
        fills a new one, again if all it consumed was empty text. `pages` are the pages it fills. */
    method Read(cnt: nat, recordOn: bool) returns (status: Status, out: string, ghost pages: seq<Log>)
      requires Valid()
      modifies this`rings, this`cpu, this`page, this`readpos, this`log, this`delivered
      ensures Valid() && delivered == old(delivered) + out && |out| <= cnt
      ensures log == old(log) + Flat(pages) && Ordered(Flat(pages), rings, old(rings))
      ensures PagesInTurn(|mask|, old(rings), pages) && Frugal(pages, cnt)
      ensures old(readpos) == |old(page)| && pages == [] ==> cnt == 0 || !recordOn || NonEmpty(old(rings)) == {}
      ensures status == Delivered ==> cnt == 0 || out != ""
      ensures status != Delivered ==> out == "" && readpos == |page|
      ensures status == WouldBlock ==> NonEmpty(rings) == {}
      ensures status == Busy <==> !recordOn && cnt > 0 && old(readpos) == |old(page)|
      ensures !recordOn ==> pages == [] && rings == old(rings)
      ensures recordOn && cnt > 0 && old(readpos) == |old(page)| && NonEmpty(old(rings)) == {} ==> status == WouldBlock
      ensures old(readpos) < |old(page)| ==>
                var left := |old(page)| - old(readpos);
                status == Delivered && pages == [] && |out| == Least(cnt, left)
      ensures pages != [] && out != "" ==> |out| == Least(cnt, |Text(pages[|pages| - 1])|)
    {
      hide Of, Text, NonEmpty, Waiting, Ordered, InTurn, PagesInTurn, Flat, Valid, Frugal, Filled;
      pages := [];
      NothingRead(|mask|, rings);
      status, out := ToUser(cnt);
      assert Frugal(pages, cnt) by { FrugalNone(cnt); }
      if status != Busy {
        return;
      }
      var n := if cnt >= pageSize then pageSize - 1 else cnt;
      while true
        invariant Valid() && readpos == |page| && delivered == old(delivered) && log == old(log) + Flat(pages)
        invariant Ordered(Flat(pages), rings, old(rings)) && PagesInTurn(|mask|, old(rings), pages)
        invariant Frugal(pages, cnt) && forall p <- pages :: Text(p) == ""
        invariant pages == [] ==> rings == old(rings)
        invariant pages != [] ==> recordOn && NonEmpty(old(rings)) != {}
        decreases Waiting(rings, |mask|)
      {
        if !recordOn {
          return Busy, "", pages;
        }
        var empty := IsTraceEmpty();
        if empty {
          return WouldBlock, "", pages;
        }
        ghost var before, added := rings, [];
        status, out, added := NextPage(n);
        PagesGrow(|mask|, old(rings), pages, before, added);
        assert Filled(added, cnt) by { FilledMore(added, n, cnt); }
        FrugalGrows(pages, added, cnt);
        OrderedConcat(Flat(pages), added, old(rings), before, rings);
        Reassociate(old(log), Flat(pages), added);
        pages := pages + [added];
        if status != Busy {
          return;
        }
      }
    }

    /** A commit or a read; `pages` are the pages a read fills. */
    method Do(op: Op) returns (out: string, ghost pages: seq<Log>)
      requires Valid() && (op.CommitOp? ==> op.cpu in rings && |op.entry| < pageSize)
      modifies this`rings, this`produced, this`cpu, this`page, this`readpos, this`log, this`delivered
      ensures Valid() && delivered == old(delivered) + out && log == old(log) + Flat(pages)
      ensures rings.Keys == produced.Keys == old(rings).Keys == old(produced).Keys
      ensures forall c <- rings :: produced[c] == old(produced)[c] + CommitsOf(op, c)
      ensures op.CommitOp? ==>
                && rings == old(rings)[op.cpu := old(rings)[op.cpu] + [op.entry]]
                && pages == [] && out == "" && page == old(page) && readpos == old(readpos)
      ensures op.ReadOp? ==> Ordered(Flat(pages), rings, old(rings)) && PagesInTurn(|mask|, old(rings), pages)
      ensures op.ReadOp? ==> Frugal(pages, op.cnt) && |out| <= op.cnt
      ensures op.ReadOp? && !op.recordOn ==> pages == [] && rings == old(rings)
      ensures op.ReadOp? && pages != [] && out != "" ==> |out| == Least(op.cnt, |Text(pages[|pages| - 1])|)
      ensures op.ReadOp? && op.recordOn && op.cnt > 0 && old(readpos) == |old(page)| && NonEmpty(old(rings)) != {} ==>
                pages != [] && (out != "" || NonEmpty(rings) == {})
    {
      hide Of, Text, NonEmpty, Ordered, InTurn, PagesInTurn, Frugal, Valid;
      KeysAgree(this);
      out, pages := "", [];
      match op {
        case CommitOp(c, e) =>
          Commit(c, e);
        case ReadOp(cnt, recordOn) =>
          var status;
          status, out, pages := Read(cnt, recordOn);
      }
      KeysAgree(this);
    }

    /** Any sequence of commits and reads. All that was handed out is a prefix of the text of the entries
        consumed, and on each CPU these are the oldest of those committed, in order. */
    method Session(ops: seq<Op>) returns (out: string)
      requires Valid()
      requires forall i :: 0 <= i < |ops| && ops[i].CommitOp? ==> ops[i].cpu in rings && |ops[i].entry| < pageSize
      modifies this`rings, this`produced, this`cpu, this`page, this`readpos, this`log, this`delivered
      ensures Valid() && rings.Keys == produced.Keys == old(rings).Keys == old(produced).Keys
      ensures delivered == old(delivered) + out <= Text(log)
      ensures old(log) == [] ==> out <= Text(log)
      ensures forall c <- rings :: Of(log, c) <= produced[c] == old(produced)[c] + Commits(ops, c)
    {
      hide Of, Text, NonEmpty, Ordered, InTurn, PagesInTurn, Flat, Commits, Valid;
      out := "";
      KeysAgree(this);
      NothingDelivered(this);
      NoCommits();
      assert ops[..0] == [];
      for i := 0 to |ops|
        invariant Valid() && delivered == old(delivered) + out
        invariant rings.Keys == produced.Keys == old(rings).Keys == old(produced).Keys
        invariant forall c <- rings :: produced[c] == old(produced)[c] + Commits(ops[..i], c)
      {
        CommitsGrow(ops, i);
        var o, _ := Do(ops[i]);
        Reassociate(old(delivered), out, o);
        out := out + o;
        forall c <- rings ensures produced[c] == old(produced)[c] + Commits(ops[..i + 1], c) {
          Reassociate(old(produced)[c], Commits(ops[..i], c), CommitsOf(ops[i], c));
        }
      }
      assert ops[..|ops|] == ops;
      forall c <- rings ensures Of(log, c) <= produced[c] { DeliveredIsPrefix(this, c); }
      PrefixDelivered(this);
    }
  }

  datatype Op = CommitOp(cpu: int, entry: Entry) | ReadOp(cnt: nat, recordOn: bool)

  /** What an operation commits to the ring of one CPU. */
  function CommitsOf(op: Op, c: int): seq<Entry> {
    if op.CommitOp? && op.cpu == c then [op.entry] else []
  }

  function Commits(ops: seq<Op>, c: int): seq<Entry> {
    if ops == [] then [] else Commits(ops[..|ops| - 1], c) + CommitsOf(ops[|ops| - 1], c)
  }

  lemma NoCommits()
    ensures forall c :: Commits([], c) == []
  {
  }

  lemma CommitsGrow(ops: seq<Op>, i: nat)
    requires i < |ops|
    ensures forall c :: Commits(ops[..i + 1], c) == Commits(ops[..i], c) + CommitsOf(ops[i], c)
  {
    assert ops[..i + 1][..i] == ops[..i];
  }

  lemma PageShort(r: PipeReader)
    requires r.Valid()
    ensures |r.page| < r.pageSize
  {
  }

  lemma FrontOf(added: Log)
    ensures added != [] ==> |Text(added)| == |Text(added[..|added| - 1])| + |added[|added| - 1].1|
  {
  }

  lemma PageLeft(r: PipeReader)
    requires r.Valid()
    ensures r.readpos <= |r.page|
  {
  }

  lemma KeysAgree(r: PipeReader)
    requires r.Valid()
    ensures r.rings.Keys == r.produced.Keys
  {
  }

  lemma PrefixDelivered(r: PipeReader)
    requires r.Valid()
    ensures r.delivered <= Text(r.log)
  {
    hide Text;
  }

  lemma NothingDelivered(r: PipeReader)
    requires r.Valid()
    ensures r.log == [] ==> r.delivered == ""
  {
  }

  /** In every state of a reader the bytes the user has are a prefix of the text of whole entries, and the
      entries consumed from each CPU are the oldest ones it produced, in order, none twice and none lost. */
  lemma DeliveredIsPrefix(r: PipeReader, c: int)
    requires r.Valid() && c in r.rings
    ensures r.delivered <= Text(r.log)
    ensures c in r.produced && Of(r.log, c) <= r.produced[c] && r.produced[c][|Of(r.log, c)|..] == r.rings[c]
  {
    hide Of, Text;
    assert r.produced[c] == Of(r.log, c) + r.rings[c];
  }

  lemma NobodyServed(size: nat, rings: Rings)
    ensures InTurn(size, rings, [], 0) && Ordered([], rings, rings) && Text([]) == ""
  {
  }

  lemma NothingRead(size: nat, rings: Rings)
    ensures Flat([]) == [] && PagesInTurn(size, rings, []) && Ordered([], rings, rings)
  {
  }

  // ----- Fairness

  ghost predicate Numbered(size: nat, rings: Rings) {
    forall c <- rings :: 0 <= c < size
  }

  /** A CPU with entries left at a step had entries left at every earlier one. */
  lemma {:induction false} StillAvailable(rings: Rings, added: Log, k: nat, j: nat, d: int)
    requires k <= j <= |added| && d in Avail(rings, added, j)
    ensures d in Avail(rings, added, k)
  {
    assert added[..j] == added[..k] + added[k..j];
    OfConcat(added[..k], added[k..j], d);
  }

  /** The CPU served at a step is not past any CPU that has entries left. */
  lemma ServedInTurn(size: nat, rings: Rings, added: Log, last: int, j: nat, d: int)
    requires InTurn(size, rings, added, last) && Numbered(size, rings) && j < |added| && d in Avail(rings, added, j)
    ensures 0 <= added[j].0 < size && 0 <= d < size
    ensures var start := StartAfter(Previous(added, j, last), size);
            Turn(added[j].0, start, size) <= Turn(d, start, size)
  {
    hide Of;
    assert Nearest(Avail(rings, added, j), StartAfter(Previous(added, j, last), size), size, added[j].0);
  }

  /** While `d` waits and is not served, each CPU served after `c` lies strictly between `c` and `d`. */
  lemma {:induction false} ServedBefore(size: nat, rings: Rings, added: Log, last: int, i: nat, j: nat, c: int, d: int)
    requires InTurn(size, rings, added, last) && Numbered(size, rings) && i <= j < |added|
    requires c == Previous(added, i, last) && 0 <= c < size && c != d
    requires d in Avail(rings, added, j) && forall k :: i <= k <= j ==> added[k].0 != d
    ensures 0 < Turn(added[j].0, c, size) < Turn(d, c, size)
    decreases j
  {
    hide Avail, InTurn, Numbered, Turn, StartAfter;
    ServedInTurn(size, rings, added, last, j, d);
    if j > i {
      StillAvailable(rings, added, j - 1, j, d);
      ServedBefore(size, rings, added, last, i, j - 1, c, d);
      ServedInTurn(size, rings, added, last, j - 1, d);
    }
    Closer(size, c, Previous(added, j, last), added[j].0, d);
  }

  /** From a CPU before `d`, the nearest one that is not past `d` is again before `d`. */
  lemma Closer(size: nat, c: int, at: int, next: int, d: int)
    requires 0 <= c < size && 0 <= at < size && 0 <= next < size && 0 <= d < size && next != d
    requires (at == c && c != d) || 0 < Turn(at, c, size) < Turn(d, c, size)
    requires Turn(next, StartAfter(at, size), size) <= Turn(d, StartAfter(at, size), size)
    ensures 0 < Turn(next, c, size) < Turn(d, c, size)
  {
  }

  /** Within one page, between two entries of any CPU every CPU that still has entries is served. */
  lemma NoStarvation(size: nat, rings: Rings, added: Log, last: int, i: nat, j: nat, d: int)
    requires InTurn(size, rings, added, last) && Numbered(size, rings)
    requires i < j < |added| && added[i].0 == added[j].0 && d in Avail(rings, added, j)
    ensures exists k :: i < k <= j && added[k].0 == d
  {
    hide Of;
    if forall k :: i < k <= j ==> added[k].0 != d {
      assert Nearest(Avail(rings, added, i), StartAfter(Previous(added, i, last), size), size, added[i].0);
      ServedBefore(size, rings, added, last, i + 1, j, added[i].0, d);
    }
  }

  /** Of whatever read filled these pages: within each of them no CPU with entries left is passed over. */
  lemma ReadIsFair(size: nat, rings: Rings, pages: seq<Log>, p: nat, i: nat, j: nat, d: int)
    requires PagesInTurn(size, rings, pages) && Numbered(size, rings) && p < |pages|
    requires i < j < |pages[p]| && pages[p][i].0 == pages[p][j].0
    requires d in Avail(After(rings, Flat(pages[..p])), pages[p], j)
    ensures exists k :: i < k <= j && pages[p][k].0 == d
  {
    hide Of, Flat, InTurn, Avail;
    NoStarvation(size, After(rings, Flat(pages[..p])), pages[p], 0, i, j, d);
  }

  lemma {:induction false} NoneOf(added: Log, d: int)
    requires forall k :: 0 <= k < |added| ==> added[k].0 != d
    ensures Of(added, d) == []
  {
    if added != [] { NoneOf(added[..|added| - 1], d); }
  }

  /** Every page begins behind CPU 0, so a page reaches CPU 0 only after it has served every other CPU that
      had entries. */
  lemma ZeroComesLast(size: nat, rings: Rings, added: Log, k: nat, d: int)
    requires InTurn(size, rings, added, 0) && Numbered(size, rings) && k < |added| && added[k].0 == 0
    requires d in NonEmpty(rings) && d != 0
    ensures exists i :: 0 <= i < k && added[i].0 == d
  {
    hide Of;
    if forall i :: 0 <= i < k ==> added[i].0 != d {
      NoneOf(added[..k], d);
      ServedBefore(size, rings, added, 0, 0, k, 0, d);
    }
  }

  /** The first entry of a page is one of CPU 0 exactly when no other CPU has any. */
  lemma ZeroFirstExactly(size: nat, rings: Rings, added: Log)
    requires InTurn(size, rings, added, 0) && Numbered(size, rings) && added != []
    ensures added[0].0 == 0 <==> NonEmpty(rings) == {0}
    ensures added[0].0 in NonEmpty(rings)
  {
    assert Of([], 0) == [];
    assert Avail(rings, added, 0) == NonEmpty(rings) by {
      assert added[..0] == [];
      forall c ensures Of([], c) == [] { }
    }
    assert Nearest(NonEmpty(rings), StartAfter(0, size), size, added[0].0);
    assert added[0].0 == 0 ==> forall d <- NonEmpty(rings) :: Turn(0, StartAfter(0, size), size) <= Turn(d, StartAfter(0, size), size);
  }

  // ----- Small reads

  lemma {:induction false} FirstOf(log: Log)
    requires log != []
    ensures Of(log, log[0].0) != [] && Of(log, log[0].0)[0] == log[0].1
    ensures |Text(log)| >= |log[0].1|
  {
    if |log| > 1 { FirstOf(log[..|log| - 1]); }
  }

  lemma {:induction false} FlatFirst(pages: seq<Log>)
    requires pages != [] && pages[0] != []
    ensures Flat(pages) != [] && Flat(pages)[0] == pages[0][0] && |pages[0]| <= |Flat(pages)|
  {
    if |pages| > 1 {
      FlatFirst(pages[..|pages| - 1]);
    } else {
      assert Flat(pages[..0]) == [] && pages[|pages| - 1] == pages[0];
    }
  }

  /** The head of every ring but that of CPU 0 fills the buffer of a read. */
  ghost predicate HeadsFill(rings: Rings, cnt: nat) {
    forall c <- rings :: c != 0 && rings[c] != [] ==> |rings[c][0]| >= cnt
  }

  /** While another CPU than CPU 0 has entries, and they fill the buffer of a read, the read takes one entry and none
      of CPU 0. */
  lemma SmallReadPassesZero(size: nat, rings: Rings, after: Rings, pages: seq<Log>, cnt: nat)
    requires PagesInTurn(size, rings, pages) && Frugal(pages, cnt) && Ordered(Flat(pages), after, rings)
    requires Numbered(size, rings) && pages != [] && cnt > 0
    requires NonEmpty(rings) != {0} && HeadsFill(rings, cnt)
    ensures |Flat(pages)| == 1 && Flat(pages)[0].0 != 0
    ensures Flat(pages)[0].0 in NonEmpty(rings) && Flat(pages)[0].1 == rings[Flat(pages)[0].0][0]
  {
    hide PagesInTurn, Frugal, Ordered, InTurn, Numbered, HeadsFill, Filled, Flat, Of, Text, NonEmpty;
    var page := pages[0];
    FirstPage(size, rings, pages, cnt);
    ZeroFirstExactly(size, rings, page);
    FlatFirst(pages);
    var (c, e) := page[0];
    HasEntries(rings, c);
    assert e == rings[c][0] by { HeadTaken(Flat(pages), after, rings); }
    assert |e| >= cnt by { HeadFills(rings, c, cnt); }
    OneEntryPage(pages, cnt);
  }

  lemma HasEntries(rings: Rings, c: int)
    requires c in NonEmpty(rings)
    ensures c in rings && rings[c] != []
  {
  }

  lemma FirstPage(size: nat, rings: Rings, pages: seq<Log>, cnt: nat)
    requires PagesInTurn(size, rings, pages) && Frugal(pages, cnt) && pages != []
    ensures InTurn(size, rings, pages[0], 0) && pages[0] != []
  {
    assert Flat(pages[..0]) == [];
    assert After(rings, []) == rings;
  }

  lemma HeadTaken(log: Log, after: Rings, before: Rings)
    requires Ordered(log, after, before) && log != [] && log[0].0 in before
    ensures before[log[0].0] != [] && log[0].1 == before[log[0].0][0]
  {
    FirstOf(log);
    assert Of(log, log[0].0) + after[log[0].0] == before[log[0].0];
  }

  lemma HeadFills(rings: Rings, c: int, cnt: nat)
    requires HeadsFill(rings, cnt) && c in NonEmpty(rings) && c != 0
    ensures |rings[c][0]| >= cnt
  {
  }

  lemma OneEntryPage(pages: seq<Log>, cnt: nat)
    requires Frugal(pages, cnt) && pages != [] && pages[0] != [] && |pages[0][0].1| >= cnt > 0
    ensures |pages| == 1 && |pages[0]| == 1 && Flat(pages) == pages[0]
  {
    FirstOf(pages[0]);
    if |pages[0]| > 1 { FirstOf(pages[0][..|pages[0]| - 1]); }
    if |pages| == 1 { assert Flat(pages[..0]) == []; }
  }

  /** One entry of CPU 0, then `n` times an entry of `d` and a read into a buffer of its length. */
  function Starving(d: int, e: Entry, n: nat): seq<Op> {
    if n == 0 then [CommitOp(0, e)] else Starving(d, e, n - 1) + [CommitOp(d, e), ReadOp(|e|, true)]
  }

  function Times<T>(x: T, n: nat): seq<T> {
    if n == 0 then [] else Times(x, n - 1) + [x]
  }

  /** For every `n` there is a session in which `n` reads hand out something each time and the entry of CPU 0,
      committed before them all, stays where it is. */
  method Starve(r: PipeReader, d: int, e: Entry, n: nat) returns (ops: seq<Op>, out: string)
    requires r.Valid() && r.readpos == |r.page| && (forall c <- r.rings :: r.rings[c] == [])
    requires 0 in r.rings && d in r.rings && d != 0 && 0 < |e| < r.pageSize
    modifies r
    ensures ops == Starving(d, e, n) && r.Valid() && r.delivered == old(r.delivered) + out
    ensures r.log == old(r.log) + Times((d, e), n) && |out| == n * |e|
    ensures 0 in r.rings && r.rings[0] == [e]
  {
    hide PipeReader.Valid, PagesInTurn, Frugal, Ordered, Of, Text, NonEmpty;
    ops := [CommitOp(0, e)];
    out := "";
    var o, _ := r.Do(ops[0]);
    AppendToEmpty(e);
    assert r.rings == old(r.rings)[0 := [e]] && Flat([]) == [];
    for i := 0 to n
      invariant r.Valid() && r.delivered == old(r.delivered) + out && |out| == i * |e|
      invariant ops == Starving(d, e, i) && r.log == old(r.log) + Times((d, e), i)
      invariant r.readpos == |r.page| && r.rings == old(r.rings)[0 := [e]]
    {
      var o := StarveOnce(r, d, e);
      out := out + o;
      ops := ops + [CommitOp(d, e), ReadOp(|e|, true)];
    }
  }

  /** One round: `d` commits an entry and it alone is read. */
  method StarveOnce(r: PipeReader, d: int, e: Entry) returns (out: string)
    requires r.Valid() && r.readpos == |r.page| && 0 in r.rings && d in r.rings && d != 0 && 0 < |e| < r.pageSize
    requires r.rings[0] == [e] && forall c <- r.rings :: c != 0 ==> r.rings[c] == []
    modifies r
    ensures r.Valid() && r.readpos == |r.page| && r.rings == old(r.rings)
    ensures r.delivered == old(r.delivered) + out && |out| == |e| && r.log == old(r.log) + [(d, e)]
  {
    hide PipeReader.Valid, PagesInTurn, Frugal, Ordered, Of, Text, NonEmpty, After;
    ReadOut(r);
    var first, _ := r.Do(CommitOp(d, e));
    ghost var before := r.rings;
    AppendToEmpty(e);
    assert before == old(r.rings)[d := [e]] && Flat([]) == [] && r.log == old(r.log);
    OnlyTwo(before, d, e);
    AllNumbered(r);
    ghost var pages;
    out, pages := r.Do(ReadOp(|e|, true));
    SmallReadPassesZero(|r.mask|, before, r.rings, pages, |e|);
    assert Flat(pages) == [(d, e)];
    AfterIsWhatIsLeft(Flat(pages), r.rings, before);
    TakenBack(old(r.rings), d, e);
    OnlyPage(pages, d, e, |e|);
    LogGrows(old(r.log), d, e, d);
    StillFull(r.rings);
    ReadOut(r);
  }

  lemma AppendToEmpty(e: Entry)
    ensures [] + [e] == [e]
  {
  }

  lemma OnlyTwo(rings: Rings, d: int, e: Entry)
    requires 0 in rings && d in rings && rings[0] == rings[d] == [e]
    requires forall c <- rings :: c != 0 && c != d ==> rings[c] == []
    ensures NonEmpty(rings) == {0, d} && HeadsFill(rings, |e|)
  {
    assert forall c :: c in NonEmpty(rings) <==> c in {0, d};
  }

  lemma StillFull(rings: Rings)
    requires 0 in rings && rings[0] != []
    ensures NonEmpty(rings) != {}
  {
    assert 0 in NonEmpty(rings);
  }

  lemma TakenBack(rings: Rings, d: int, e: Entry)
    requires d in rings && rings[d] == []
    ensures After(rings[d := [e]], [(d, e)]) == rings
  {
    forall c ensures Of([(d, e)], c) == if c == d then [e] else [] { LogGrows([], d, e, c); assert [] + [(d, e)] == [(d, e)]; }
  }

  lemma OnlyPage(pages: seq<Log>, d: int, e: Entry, cnt: nat)
    requires Flat(pages) == [(d, e)] && Frugal(pages, cnt) && pages != [] && |e| >= cnt > 0
    ensures |Text(pages[|pages| - 1])| == |e|
  {
    FlatFirst(pages);
    OneEntryPage(pages, cnt);
    assert Text(pages[0][..0]) == "";
  }

  lemma AllNumbered(r: PipeReader)
    requires r.Valid()
    ensures Numbered(|r.mask|, r.rings)
  {
  }

  /** Nothing of the page is left exactly when as many bytes were handed out as were consumed. */
  lemma ReadOut(r: PipeReader)
    requires r.Valid()
    ensures r.readpos == |r.page| <==> |r.delivered| == |Text(r.log)|
  {
    hide Text;
    assert |r.delivered + r.page[r.readpos..]| == |Text(r.log)|;
  }
}
