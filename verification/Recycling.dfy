/** What becomes of a record over a whole run: who gets it, what is written, sent and put back, and which records are
    ever dropped. */
module Recycling {
  import opened RecordBuffer
  import opened Wrappers

  // ----- Recycling

  /** What the sender puts back, or a writer when the ring is full. */
  predicate PutsBack(s: State, l: Label, id: int)
    requires WellFormed(s) && Enabled(s, l)
  {
    (l.Put? && s.batch[0].id == id) || (l == Write(id) && |s.ring| >= SLOTS)
  }

  /** A record put back, if it is not too large, is in the pool of its class, once, with an empty buffer of the same
      capacity, and a writer that asks for a size of that class can have it. */
  lemma PutIsRecycled(s: State, l: Label, id: int, size: int, made: int)
    requires Reachable(s) && WellFormed(s) && Enabled(s, l) && PutsBack(s, l, id) && Poolable(s, id)
    ensures var s', capacity := Next(s, l), s.store[id].capacity;
            && (forall c :: 0 <= c < CLASSES ==> s'.pools[c][id] == if c == GetClass(capacity) then 1 else 0)
            && s'.store[id].capacity == capacity && s'.store[id].value.data == []
            && (GetClass(size) == GetClass(capacity) ==> Enabled(s', Get(size, Some(id), made)))
  {
    hide Reachable, Inv, GetClass, PutBack;
    ReachableInv(s);
    var m := if l.Put? then s.(batch := s.batch[1..]) else Refuse(s, id);
    PooledNowhere(s, l, id);
    PutBackPools(m, id);
    assert Next(s, l) == PutBack(m, id);
  }

  lemma PooledNowhere(s: State, l: Label, id: int)
    requires Inv(s) && Enabled(s, l) && PutsBack(s, l, id)
    ensures forall c :: 0 <= c < CLASSES ==> id !in s.pools[c]
  {
    hide Owned, Classed, Faithful, InOrder, Accounted, Next;
    if l.Put? { HeldBySender(s); } else { WriterApart(s, id); }
  }

  lemma PutBackPools(s: State, id: int)
    requires WellFormed(s) && id in s.store && Poolable(s, id) && forall c :: 0 <= c < CLASSES ==> id !in s.pools[c]
    ensures var s' := PutBack(s, id);
            && (forall c :: 0 <= c < CLASSES ==> s'.pools[c][id] == if c == GetClass(s.store[id].capacity) then 1 else 0)
            && s'.store[id].capacity == s.store[id].capacity && s'.store[id].value.data == []
  {
    hide GetClass;
  }

  lemma HeldBySender(s: State)
    requires WellFormed(s) && Owned(s) && s.batch != []
    ensures forall c :: 0 <= c < CLASSES ==> s.batch[0].id !in s.pools[c]
  {
    var id := s.batch[0].id;
    IdHeld(s.batch, 0);
    assert Holders(s)[id] == 1 && id !in Pooled(s.pools);
  }

  /** A pooled record that a writer gets is with that writer and in no pool. */
  lemma TakenFromPool(s: State, size: int, id: int, made: int)
    requires Reachable(s) && WellFormed(s) && Enabled(s, Get(size, Some(id), made))
    ensures var s' := Next(s, Get(size, Some(id), made));
            s'.writers[id] == 1 && forall c :: 0 <= c < CLASSES ==> id !in s'.pools[c]
  {
    hide Reachable, Classed, Faithful, InOrder, Accounted, GetClass;
    ReachableInv(s);
    var l := Get(size, Some(id), made);
    OwnedStep(s, l);
    WriterApart(Next(s, l), id);
    assert Holders(Next(s, l))[id] == 1;
  }

  /** A new record holds the size it was made for and, unless it is filled with more, goes back to the class that size
      is taken from. */
  lemma MadeFits(s: State, size: int, made: int)
    requires WellFormed(s) && made !in s.store && size <= 4096
    ensures Enabled(s, Get(size, None, made))
    ensures var s' := Next(s, Get(size, None, made));
            && made in s'.store && made in s'.writers && s'.store[made].capacity >= size
            && PutClass(s'.store[made].capacity) == Some(GetClass(size))
  {
  }

  predicate MakesIt(l: Label, id: int) {
    l.Get? && l.pick.None? && l.made == id
  }

  lemma HeldAfterStep(s: State, l: Label, id: int)
    requires WellFormed(s) && Owned(s) && Enabled(s, l)
    ensures id in Holders(Next(s, l)) <==> (id in Holders(s) || MakesIt(l, id)) && Dropped(s, l) != Some(id)
    ensures Dropped(s, l) == Some(id) || MakesIt(l, id) ==> id in Next(s, l).store
  {
    hide Holders, Next, Enabled, Dropped;
    HoldersStep(s, l);
    KeysStep(s, l);
    if l.Get? && l.pick.None? { MadeIsNew(s, l); }
  }

  /** In every reachable state a step leaves a record without a holder exactly when it drops it. */
  lemma LeavesOnlyWhenDropped(s: State, l: Label, id: int)
    requires Reachable(s) && WellFormed(s) && Enabled(s, l) && id in Holders(s)
    ensures id !in Holders(Next(s, l)) <==> Dropped(s, l) == Some(id)
  {
    hide Reachable, Classed, Faithful, InOrder, Accounted, Owned, Next, Enabled, Dropped, Holders;
    ReachableInv(s);
    HeldAfterStep(s, l, id);
  }

  ghost predicate Makes(labels: seq<Label>, id: int) {
    exists l <- labels :: MakesIt(l, id)
  }

  /** Some step of the run drops the record. */
  ghost predicate Drops(s: State, labels: seq<Label>, id: int)
    requires WellFormed(s) && IsRun(s, labels)
    decreases |labels|
  {
    labels != [] && (Dropped(s, labels[0]) == Some(id) || Drops(Next(s, labels[0]), labels[1..], id))
  }

  lemma {:induction false} MadeOnce(s: State, labels: seq<Label>, id: int)
    requires WellFormed(s) && IsRun(s, labels) && id in s.store
    ensures !Makes(labels, id)
    decreases |labels|
  {
    hide Next;
    if labels != [] {
      KeysStep(s, labels[0]);
      MadeOnce(Next(s, labels[0]), labels[1..], id);
      assert labels == [labels[0]] + labels[1..];
    }
  }

  /** After any run a record has a holder exactly when it was there or was made, and no step has dropped it. */
  lemma {:induction false} HeldExactly(s: State, labels: seq<Label>, id: int)
    requires WellFormed(s) && Owned(s) && IsRun(s, labels)
    ensures id in Holders(Exec(s, labels)) <==> (id in Holders(s) || Makes(labels, id)) && !Drops(s, labels, id)
    decreases |labels|
  {
    hide Next, Enabled, Dropped, Holders, Makes;
    if labels == [] {
      assert !Makes([], id) by { NothingMade(id); }
    } else {
      var s1 := Next(s, labels[0]);
      HeldAfterStep(s, labels[0], id);
      OwnedStep(s, labels[0]);
      MakesFirst(labels, id);
      HeldExactly(s1, labels[1..], id);
      if id in s1.store { MadeOnce(s1, labels[1..], id); }
    }
  }

  lemma NothingMade(id: int)
    ensures !Makes([], id)
  {
  }

  lemma MakesFirst(labels: seq<Label>, id: int)
    requires labels != []
    ensures Makes(labels, id) <==> MakesIt(labels[0], id) || Makes(labels[1..], id)
  {
    assert labels == [labels[0]] + labels[1..];
  }

  /** The same from the start: what was made and never dropped is in a pool or in use. */
  lemma NothingLeaks(labels: seq<Label>, id: int)
    requires IsRun(Initial(), labels)
    ensures Holders(Exec(Initial(), labels))[id] == if Makes(labels, id) && !Drops(Initial(), labels, id) then 1 else 0
  {
    hide Makes, Drops, Exec, IsRun, Classed, Faithful, InOrder, Accounted;
    InitialInv();
    HeldExactly(Initial(), labels, id);
    RunKeepsInv(Initial(), labels);
  }

  // ----- The sender's round

  /** When the sender has put back what it sent before, its next round hands over everything in the ring, in order and
      as it was written, and leaves the ring empty. */
  lemma RoundSendsAll(s: State)
    requires Reachable(s) && WellFormed(s) && s.batch == [] && s.ring != []
    ensures IsRun(s, [Read, Send])
    ensures var s' := Exec(s, [Read, Send]);
            && s'.wire == s.wire + [Stamps(s.ring)] && |s'.payload| == |s.payload| + 1
            && (forall i :: 0 <= i < |s.ring| ==>
                  s.ring[i].stamp < |s.log| && s'.payload[|s.payload|][i] == s.log[s.ring[i].stamp])
            && s'.ring == [] && s'.batch == s.ring && s'.sent
  {
    hide Reachable, Owned, Classed, InOrder, Accounted;
    ReachableInv(s);
    assert [Read, Send][1..] == [Send] && [Send][1..] == [];
  }

  /** Putting back a batch that was sent takes one step for each record and ends with nothing in the sender's hands. */
  lemma {:induction false} RoundEnds(s: State)
    requires WellFormed(s) && s.sent && forall e <- s.batch :: e.id in s.store
    ensures var puts := seq(|s.batch|, _ => Put); IsRun(s, puts) && Exec(s, puts).batch == [] && Exec(s, puts).ring == s.ring
    decreases |s.batch|
  {
    var puts := seq(|s.batch|, _ => Put);
    if s.batch != [] {
      assert s.batch[0] in s.batch;
      var s1 := Next(s, Put);
      assert s1.batch == s.batch[1..] && s1.sent && s1.ring == s.ring && s1.store.Keys == s.store.Keys;
      assert forall e <- s1.batch :: e in s.batch;
      RoundEnds(s1);
      assert puts[1..] == seq(|s1.batch|, _ => Put);
    }
  }

  // ----- What a writer fills in is what it writes

  predicate WriterActs(l: Label, id: int) {
    l == Write(id) || l == Steal(id) || l == Abandon(id) || (l.Fill? && l.id == id)
  }

  lemma LeftToWriter(s: State, l: Label, id: int)
    requires WellFormed(s) && Owned(s) && id in s.writers && id in s.store && Enabled(s, l) && !WriterActs(l, id)
    ensures var s' := Next(s, l); id in s'.writers && id in s'.store && s'.store[id] == s.store[id]
  {
    if l.Put? || (l.Write? && |s.ring| >= SLOTS) {
      PuttingLeaves(s, l, id);
    } else {
      hide Owned, Written, Stolen, Values, Stamps, PutBack, Refuse, GetClass;
      if l.Get? && l.pick.None? { assert l.made != id; }
    }
  }

  lemma PuttingLeaves(s: State, l: Label, id: int)
    requires WellFormed(s) && Owned(s) && id in s.writers && id in s.store && Enabled(s, l) && !WriterActs(l, id)
    requires l.Put? || (l.Write? && |s.ring| >= SLOTS)
    ensures var s' := Next(s, l); id in s'.writers && id in s'.store && s'.store[id] == s.store[id]
  {
    hide Owned, PutBack, Refuse;
    if l.Put? {
      assert s.batch[0].id != id by { WriterApart(s, id); }
      PutBackLeaves(s.(batch := s.batch[1..]), s.batch[0].id, id);
    } else {
      RefuseLeaves(s, l.id, id);
      PutBackLeaves(Refuse(s, l.id), l.id, id);
    }
  }

  lemma PutBackLeaves(s: State, id: int, other: int)
    requires WellFormed(s) && id in s.store && other in s.store && id != other
    ensures var s' := PutBack(s, id); other in s'.store && s'.store[other] == s.store[other] && s'.writers == s.writers
  {
    hide PutClass;
  }

  lemma RefuseLeaves(s: State, id: int, other: int)
    requires id in s.store && id != other && other in s.writers
    ensures other in Refuse(s, id).writers && Refuse(s, id).store == s.store && Refuse(s, id).pools == s.pools
  {
  }

  lemma {:induction false} LeftToWriterOverRun(s: State, labels: seq<Label>, id: int)
    requires WellFormed(s) && Owned(s) && id in s.writers && id in s.store && IsRun(s, labels)
    requires forall l <- labels :: !WriterActs(l, id)
    ensures var s' := Exec(s, labels); id in s'.writers && id in s'.store && s'.store[id] == s.store[id]
    decreases |labels|
  {
    hide Owned, Next, Enabled, WriterActs;
    if labels != [] {
      LeftToWriter(s, labels[0], id);
      OwnedStep(s, labels[0]);
      LeftToWriterOverRun(Next(s, labels[0]), labels[1..], id);
    }
  }

  /** Whatever happens in between, a writer that fills a record and then writes it has written what it filled in. */
  lemma FilledIsWritten(s: State, id: int, value: Value, labels: seq<Label>, write: Label)
    requires Reachable(s) && WellFormed(s) && id in s.writers && id in s.store
    requires IsRun(Next(s, Fill(id, value)), labels)
    requires (forall l <- labels :: !WriterActs(l, id)) && (write == Write(id) || write == Steal(id))
    ensures var s1 := Exec(Next(s, Fill(id, value)), labels);
            Enabled(s1, write) && Next(s1, write).log == s1.log + [value]
    ensures var s1 := Exec(Next(s, Fill(id, value)), labels);
            s1.store[id].capacity == if s.store[id].capacity < |value.data| then |value.data| else s.store[id].capacity
  {
    hide Reachable, Owned, Classed, Faithful, InOrder, Accounted, Exec, IsRun, WriterActs;
    ReachableInv(s);
    var s0 := Next(s, Fill(id, value));
    OwnedStep(s, Fill(id, value));
    LeftToWriterOverRun(s0, labels, id);
    WriteLogs(Exec(s0, labels), id);
  }

  lemma WriteLogs(s: State, id: int)
    requires WellFormed(s) && id in s.writers && id in s.store
    ensures Next(s, Write(id)).log == s.log + [s.store[id].value] == Next(s, Steal(id)).log
  {
    hide Written, Stolen, PutClass;
  }
}
