/** The agent's record ring and the size-classed pools its records are recycled through. */
module RecordBuffer {
  import opened Wrappers

  const SLOTS := 2048
  const CLASSES := 4
  const UNIT := 1024

  // ----- Size classes

  /** The class a record for `size` bytes is taken from. */
  function GetClass(size: int): (c: nat)
    ensures c < CLASSES
    ensures 0 < size <= CLASSES * UNIT ==> UNIT * c < size <= UNIT * (c + 1)
    ensures (size <= 0 ==> c == 0) && (size > CLASSES * UNIT ==> c == CLASSES - 1)
  {
    if size <= 0 then 0 else if (size - 1) / UNIT >= CLASSES then CLASSES - 1 else (size - 1) / UNIT
  }

  /** The class a record of that capacity is put back to, unless it is too large to keep. */
  function PutClass(capacity: nat): (c: Option<nat>)
    ensures c.None? <==> capacity > CLASSES * UNIT
    ensures c.Some? ==> c.value == GetClass(capacity)
  {
    if capacity == 0 then Some(0) else if (capacity - 1) / UNIT >= CLASSES then None else Some((capacity - 1) / UNIT)
  }

  /** What a record taken for a size can hold: too little by less than a unit, too much by less than one. */
  lemma TakenFits(size: nat, capacity: nat)
    requires 0 < size <= CLASSES * UNIT && PutClass(capacity) == Some(GetClass(size)) && capacity > 0
    ensures size - UNIT < capacity < size + UNIT
  {
  }

  // ----- The ring

  /** WriteEncodedRecord: a full ring does not take the record. */
  function Written<T>(ring: seq<T>, x: T): seq<T> {
    if |ring| < SLOTS then ring + [x] else ring
  }

  /** WriteRecord: in a full ring the record takes the place of the first one. */
  function Stolen<T>(ring: seq<T>, x: T): seq<T> {
    if |ring| < SLOTS then ring + [x] else ring[0 := x]
  }

  class Ring<T(0)> {
    const buf: array<T>
    var offset: nat

    ghost predicate Valid()
      reads this
    {
      buf.Length == SLOTS && offset <= SLOTS
    }

    ghost function Contents(): seq<T>
      requires Valid()
      reads this, buf
    {
      buf[..offset]
    }

    constructor ()
      ensures Valid() && Contents() == [] && fresh(buf)
    {
      buf := new T[SLOTS];
      offset := 0;
    }

    method WriteEncodedRecord(rec: T) returns (kept: bool)
      requires Valid()
      modifies this, buf
      ensures Valid() && Contents() == Written(old(Contents()), rec)
      ensures kept <==> |old(Contents())| < SLOTS
    {
      if offset < buf.Length {
        buf[offset] := rec;
        offset := offset + 1;
        return true;
      }
      kept := false;
    }

    method WriteRecord(rec: T)
      requires Valid()
      modifies this, buf
      ensures Valid() && Contents() == Stolen(old(Contents()), rec)
    {
      if offset < buf.Length {
        buf[offset] := rec;
        offset := offset + 1;
      } else {
        buf[0] := rec;
      }
    }

    method ReadEncodedRecords() returns (ret: seq<T>)
      requires Valid()
      modifies this
      ensures Valid() && ret == old(Contents()) && Contents() == []
    {
      ret := buf[..offset];
      offset := 0;
    }
  }

  // ----- Every run

  datatype Value = Value(dataType: int, timestamp: int, data: seq<int>)

  datatype Record = Record(value: Value, capacity: nat)

  /** A record in the ring or with the sender, and the number of the write that put it there. */
  datatype Entry = Entry(id: int, stamp: nat)

  /** `writers` and `batch` are the records in the hands of the writers and of the sender; `log` lists what
      has been written, `wire` and `payload` the writes and the values the sender has handed over, and
      `lost` the writes a full ring has cost. */
  datatype State = State(
    store: map<int, Record>,
    pools: seq<multiset<int>>,
    writers: multiset<int>,
    ring: seq<Entry>,
    batch: seq<Entry>,
    sent: bool,
    log: seq<Value>,
    wire: seq<seq<nat>>,
    payload: seq<seq<Value>>,
    lost: set<nat>)

  datatype Label =
    | Get(size: int, pick: Option<int>, made: int)
    | Fill(id: int, value: Value)
    | Write(id: int)
    | Steal(id: int)
    | Abandon(id: int)
    | Read
    | Send
    | Put
    | Collect(class_: nat, id: int)

  predicate WellFormed(s: State) {
    |s.pools| == CLASSES
  }

  predicate Enabled(s: State, l: Label)
    requires WellFormed(s)
  {
    match l
    case Get(size, Some(id), _) => id in s.pools[GetClass(size)]
    case Get(size, None, made) => made !in s.store
    case Fill(id, value) => id in s.writers && id in s.store
    case Write(id) => id in s.writers && id in s.store
    case Steal(id) => id in s.writers && id in s.store
    case Abandon(id) => id in s.writers
    case Read => s.batch == []
    case Send => !s.sent && s.batch != [] && forall i :: 0 <= i < |s.batch| ==> s.batch[i].id in s.store
    case Put => s.sent && s.batch != [] && s.batch[0].id in s.store
    case Collect(c, id) => c < CLASSES && id in s.pools[c]
  }

  /** PutEncodedRecord */
  function PutBack(s: State, id: int): State
    requires WellFormed(s) && id in s.store
  {
    var rec := s.store[id];
    match PutClass(rec.capacity)
    case None => s
    case Some(c) => s.(store := s.store[id := rec.(value := rec.value.(data := []))],
                       pools := s.pools[c := s.pools[c] + multiset{id}])
  }

  /** WriteEncodedRecord, while there is room. */
  function Queue(s: State, id: int): State
    requires id in s.store
  {
    s.(writers := s.writers - multiset{id}, ring := Written(s.ring, Entry(id, |s.log|)), log := s.log + [s.store[id].value])
  }

  /** WriteEncodedRecord on a full ring: the write is lost. */
  function Refuse(s: State, id: int): State
    requires id in s.store
  {
    s.(writers := s.writers - multiset{id}, log := s.log + [s.store[id].value], lost := s.lost + {|s.log|})
  }

  function Next(s: State, l: Label): (s': State)
    requires WellFormed(s) && Enabled(s, l)
    ensures WellFormed(s')
  {
    match l
    case Get(size, Some(id), _) =>
      var c := GetClass(size);
      s.(pools := s.pools[c := s.pools[c] - multiset{id}], writers := s.writers + multiset{id})
    case Get(size, None, made) =>
      s.(store := s.store[made := Record(Value(0, 0, []), UNIT * (GetClass(size) + 1))],
         writers := s.writers + multiset{made})
    case Fill(id, value) =>
      var capacity := s.store[id].capacity;
      s.(store := s.store[id := Record(value, if capacity < |value.data| then |value.data| else capacity)])
    case Write(id) => if |s.ring| < SLOTS then Queue(s, id) else PutBack(Refuse(s, id), id)
    case Steal(id) =>
      s.(writers := s.writers - multiset{id}, ring := Stolen(s.ring, Entry(id, |s.log|)),
         log := s.log + [s.store[id].value],
         lost := if |s.ring| < SLOTS then s.lost else s.lost + {s.ring[0].stamp})
    case Abandon(id) => s.(writers := s.writers - multiset{id})
    case Read => s.(batch := s.ring, ring := [], sent := false)
    case Send => s.(sent := true, wire := s.wire + [Stamps(s.batch)], payload := s.payload + [Values(s.store, s.batch)])
    case Put => PutBack(s.(batch := s.batch[1..]), s.batch[0].id)
    case Collect(c, id) => s.(pools := s.pools[c := s.pools[c] - multiset{id}])
  }

  function Stamps(entries: seq<Entry>): (r: seq<nat>)
    ensures |r| == |entries| && forall i :: 0 <= i < |r| ==> r[i] == entries[i].stamp
  {
    seq(|entries|, i requires 0 <= i < |entries| => entries[i].stamp)
  }

  /** What the records of a batch hold when the batch is marshalled. */
  function Values(store: map<int, Record>, entries: seq<Entry>): (r: seq<Value>)
    requires forall i :: 0 <= i < |entries| ==> entries[i].id in store
    ensures |r| == |entries| && forall i :: 0 <= i < |r| ==> r[i] == store[entries[i].id].value
  {
    seq(|entries|, i requires 0 <= i < |entries| => store[entries[i].id].value)
  }

  function Initial(): State {
    State(map[], [multiset{}, multiset{}, multiset{}, multiset{}], multiset{}, [], [], true, [], [], [], {})
  }

  ghost predicate IsRun(s: State, labels: seq<Label>)
    requires WellFormed(s)
    decreases |labels|
  {
    labels == [] || (Enabled(s, labels[0]) && IsRun(Next(s, labels[0]), labels[1..]))
  }

  ghost function Exec(s: State, labels: seq<Label>): (r: State)
    requires WellFormed(s) && IsRun(s, labels)
    ensures WellFormed(r)
    decreases |labels|
  {
    if labels == [] then s else Exec(Next(s, labels[0]), labels[1..])
  }

  // ----- Who holds a record

  function Ids(entries: seq<Entry>): multiset<int> {
    if entries == [] then multiset{} else multiset{entries[0].id} + Ids(entries[1..])
  }

  function Pooled(pools: seq<multiset<int>>): multiset<int>
    requires |pools| == CLASSES
  {
    pools[0] + pools[1] + pools[2] + pools[3]
  }

  function Holders(s: State): multiset<int>
    requires WellFormed(s)
  {
    Pooled(s.pools) + s.writers + Ids(s.ring) + Ids(s.batch)
  }

  /** Every record is in at most one place: a pool, a writer's hands, the ring or the sender's. */
  ghost predicate Owned(s: State)
    requires WellFormed(s)
  {
    forall id <- Holders(s) :: Holders(s)[id] == 1 && id in s.store
  }

  lemma {:induction false} IdsConcat(a: seq<Entry>, b: seq<Entry>)
    ensures Ids(a + b) == Ids(a) + Ids(b)
  {
    if a == [] {
      assert a + b == b;
    } else {
      assert (a + b)[1..] == a[1..] + b;
      IdsConcat(a[1..], b);
    }
  }

  lemma {:induction false} IdHeld(entries: seq<Entry>, i: nat)
    requires i < |entries|
    ensures entries[i].id in Ids(entries)
  {
    assert entries == entries[..i] + entries[i..];
    IdsConcat(entries[..i], entries[i..]);
  }

  /** Writing adds the record to the ring, unless it is full. */
  lemma WrittenIds(ring: seq<Entry>, e: Entry)
    ensures Ids(Written(ring, e)) == if |ring| < SLOTS then Ids(ring) + multiset{e.id} else Ids(ring)
  {
    IdsConcat(ring, [e]);
  }

  /** Stealing exchanges the record for the first one. */
  lemma StolenIds(ring: seq<Entry>, e: Entry)
    requires |ring| >= SLOTS
    ensures ring[0].id in Ids(ring) && Ids(Stolen(ring, e)) == Ids(ring) - multiset{ring[0].id} + multiset{e.id}
  {
    assert Stolen(ring, e)[1..] == ring[1..];
  }

  lemma PooledUpdate(pools: seq<multiset<int>>, c: nat, p: multiset<int>)
    requires |pools| == CLASSES && c < CLASSES && pools[c] <= p
    ensures Pooled(pools[c := p]) == Pooled(pools) + (p - pools[c])
  {
  }

  lemma PooledTake(pools: seq<multiset<int>>, c: nat, id: int)
    requires |pools| == CLASSES && c < CLASSES && id in pools[c]
    ensures Pooled(pools[c := pools[c] - multiset{id}]) == Pooled(pools) - multiset{id} && id in Pooled(pools)
  {
  }

  /** The record is small enough to be kept in a pool. */
  predicate Poolable(s: State, id: int)
    requires id in s.store
  {
    s.store[id].capacity <= 4096
  }

  /** Putting a record back gives it to the pool of its class, unless it is too large, and then to nobody. */
  lemma PutBackHolders(s: State, id: int)
    requires WellFormed(s) && id in s.store
    ensures var s' := PutBack(s, id);
            && s'.store.Keys == s.store.Keys
            && Holders(s') == if Poolable(s, id) then Holders(s) + multiset{id} else Holders(s)
  {
    hide PutClass, Pooled, Ids;
    match PutClass(s.store[id].capacity) {
      case None =>
      case Some(c) =>
        PooledUpdate(s.pools, c, s.pools[c] + multiset{id});
        assert s.pools[c] + multiset{id} - s.pools[c] == multiset{id};
    }
  }

  /** The record that a step gives to nobody: one abandoned or collected, the first of a full ring that is exchanged,
      or one too large for the pools. */
  function Dropped(s: State, l: Label): Option<int>
    requires WellFormed(s) && Enabled(s, l)
  {
    match l
    case Abandon(id) => Some(id)
    case Collect(_, id) => Some(id)
    case Steal(_) => if |s.ring| >= SLOTS then Some(s.ring[0].id) else None
    case Write(id) => if |s.ring| >= SLOTS && !Poolable(s, id) then Some(id) else None
    case Put => if !Poolable(s, s.batch[0].id) then Some(s.batch[0].id) else None
    case _ => None
  }

  /** Every record keeps its holder or changes it, but for the one that is dropped and the one that is made. */
  ghost predicate HeldAsTold(s: State, l: Label)
    requires WellFormed(s) && Enabled(s, l)
  {
    var before, after := Holders(s), Holders(Next(s, l));
    match Dropped(s, l)
    case Some(id) => id in before && after == before - multiset{id}
    case None => after == if l.Get? && l.pick.None? then before + multiset{l.made} else before
  }

  lemma GetHolders(s: State, l: Label)
    requires WellFormed(s) && Enabled(s, l) && l.Get?
    ensures HeldAsTold(s, l)
  {
    hide Pooled, Ids, GetClass;
    if l.pick.Some? {
      PooledTake(s.pools, GetClass(l.size), l.pick.value);
      Handed(Pooled(s.pools), s.writers, Ids(s.ring), Ids(s.batch), l.pick.value);
    }
  }

  lemma Handed(pooled: multiset<int>, writers: multiset<int>, ring: multiset<int>, batch: multiset<int>, id: int)
    requires id in pooled
    ensures pooled - multiset{id} + (writers + multiset{id}) + ring + batch == pooled + writers + ring + batch
  {
  }

  lemma CollectHolders(s: State, l: Label)
    requires WellFormed(s) && Enabled(s, l) && l.Collect?
    ensures HeldAsTold(s, l)
  {
    hide Pooled, Ids;
    PooledTake(s.pools, l.class_, l.id);
  }

  lemma WriteHolders(s: State, l: Label)
    requires WellFormed(s) && Enabled(s, l) && l.Write?
    ensures HeldAsTold(s, l)
  {
    hide PutBack, Holders, Queue, Refuse;
    if |s.ring| < SLOTS {
      QueueHolders(s, l.id);
    } else {
      RefuseHolders(s, l.id);
      PutBackHolders(Refuse(s, l.id), l.id);
    }
  }

  lemma QueueHolders(s: State, id: int)
    requires WellFormed(s) && id in s.writers && id in s.store && |s.ring| < SLOTS
    ensures WellFormed(Queue(s, id)) && Holders(Queue(s, id)) == Holders(s) && id in Holders(s)
    ensures Queue(s, id).store == s.store
  {
    hide Pooled, Ids, Written;
    WrittenIds(s.ring, Entry(id, |s.log|));
    Queued(Pooled(s.pools), s.writers, Ids(s.ring), Ids(s.batch), id);
  }

  lemma RefuseHolders(s: State, id: int)
    requires WellFormed(s) && id in s.writers && id in s.store
    ensures WellFormed(Refuse(s, id)) && Holders(Refuse(s, id)) == Holders(s) - multiset{id} && id in Holders(s)
    ensures Refuse(s, id).store == s.store
  {
    hide Pooled, Ids;
    TakenOff(Pooled(s.pools), s.writers, Ids(s.ring), Ids(s.batch), id);
  }

  lemma TakenOff(pooled: multiset<int>, writers: multiset<int>, ring: multiset<int>, batch: multiset<int>, id: int)
    requires id in writers
    ensures pooled + (writers - multiset{id}) + ring + batch == pooled + writers + ring + batch - multiset{id}
  {
  }

  lemma StealHolders(s: State, l: Label)
    requires WellFormed(s) && Enabled(s, l) && l.Steal?
    ensures HeldAsTold(s, l)
  {
    hide Pooled, Ids, Stolen, Written;
    var e := Entry(l.id, |s.log|);
    if |s.ring| >= SLOTS {
      StolenIds(s.ring, e);
      Exchanged(Pooled(s.pools), s.writers, Ids(s.ring), Ids(s.batch), l.id, s.ring[0].id);
    } else {
      StolenIsWritten(s.ring, e);
      WrittenIds(s.ring, e);
      Queued(Pooled(s.pools), s.writers, Ids(s.ring), Ids(s.batch), l.id);
    }
  }

  lemma Queued(pooled: multiset<int>, writers: multiset<int>, ring: multiset<int>, batch: multiset<int>, id: int)
    requires id in writers
    ensures pooled + (writers - multiset{id}) + (ring + multiset{id}) + batch == pooled + writers + ring + batch
  {
  }

  lemma Exchanged(pooled: multiset<int>, writers: multiset<int>, ring: multiset<int>, batch: multiset<int>,
                  id: int, first: int)
    requires id in writers && first in ring
    ensures pooled + (writers - multiset{id}) + (ring - multiset{first} + multiset{id}) + batch ==
            pooled + writers + ring + batch - multiset{first}
  {
  }

  lemma StolenIsWritten(ring: seq<Entry>, e: Entry)
    requires |ring| < SLOTS
    ensures Stolen(ring, e) == Written(ring, e)
  {
  }

  lemma PutHolders(s: State, l: Label)
    requires WellFormed(s) && Enabled(s, l) && l.Put?
    ensures HeldAsTold(s, l)
  {
    hide PutBack, Holders;
    var m := s.(batch := s.batch[1..]);
    SenderLetsGo(s, m);
    PutBackHolders(m, s.batch[0].id);
  }

  lemma SenderLetsGo(s: State, m: State)
    requires WellFormed(s) && s.batch != [] && m == s.(batch := s.batch[1..])
    ensures s.batch[0].id in Holders(s) && Holders(m) == Holders(s) - multiset{s.batch[0].id}
  {
    hide Pooled;
    assert Ids(s.batch) == multiset{s.batch[0].id} + Ids(s.batch[1..]);
    hide Ids;
    LetGo(Pooled(s.pools) + s.writers + Ids(s.ring), Ids(s.batch[1..]), s.batch[0].id);
  }

  lemma LetGo(others: multiset<int>, batch: multiset<int>, id: int)
    ensures others + batch == others + (multiset{id} + batch) - multiset{id}
  {
  }

  lemma HoldersStep(s: State, l: Label)
    requires WellFormed(s) && Enabled(s, l)
    ensures HeldAsTold(s, l)
  {
    hide *;
    match l {
      case Get(_, _, _) => GetHolders(s, l);
      case Write(_) => WriteHolders(s, l);
      case Steal(_) => StealHolders(s, l);
      case Put => PutHolders(s, l);
      case Collect(_, _) => CollectHolders(s, l);
      case Read => ReadHolders(s);
      case Abandon(id) => AbandonHolders(s, id);
      case Fill(_, _) => SameHolders(s, l);
      case Send => SameHolders(s, l);
    }
  }

  lemma SameHolders(s: State, l: Label)
    requires WellFormed(s) && Enabled(s, l) && (l.Fill? || l.Send?)
    ensures HeldAsTold(s, l)
  {
  }

  lemma ReadHolders(s: State)
    requires WellFormed(s) && Enabled(s, Read)
    ensures HeldAsTold(s, Read)
  {
    hide Pooled;
    assert Ids(s.batch) == multiset{} == Ids(Next(s, Read).ring);
    hide Ids;
  }

  lemma AbandonHolders(s: State, id: int)
    requires WellFormed(s) && Enabled(s, Abandon(id))
    ensures HeldAsTold(s, Abandon(id))
  {
    hide Pooled, Ids;
  }

  lemma KeysStep(s: State, l: Label)
    requires WellFormed(s) && Enabled(s, l)
    ensures s.store.Keys <= Next(s, l).store.Keys
    ensures l.Get? && l.pick.None? ==> l.made in Next(s, l).store
  {
    hide Written, Stolen, GetClass, PutClass;
  }

  /** No step gives a record to a second holder. */
  lemma OwnedStep(s: State, l: Label)
    requires WellFormed(s) && Owned(s) && Enabled(s, l)
    ensures Owned(Next(s, l))
  {
    hide Holders, Next, Enabled, Dropped;
    HoldersStep(s, l);
    KeysStep(s, l);
    if l.Get? && l.pick.None? { MadeIsNew(s, l); }
  }

  lemma MadeIsNew(s: State, l: Label)
    requires WellFormed(s) && Enabled(s, l) && l.Get? && l.pick.None?
    ensures l.made !in s.store && Dropped(s, l).None?
  {
  }

  // ----- Records are pooled by their capacity

  ghost predicate Classed(s: State)
    requires WellFormed(s)
  {
    && (forall c, id :: 0 <= c < CLASSES && id in s.pools[c] ==>
          id in s.store && PutClass(s.store[id].capacity) == Some(c))
    && (forall id <- s.store :: |s.store[id].value.data| <= s.store[id].capacity)
  }

  /** What a writer holds is in no other place. */
  lemma WriterApart(s: State, id: int)
    requires WellFormed(s) && Owned(s) && id in s.writers
    ensures forall c :: 0 <= c < CLASSES ==> id !in s.pools[c]
    ensures forall i :: 0 <= i < |s.ring| ==> s.ring[i].id != id
    ensures forall i :: 0 <= i < |s.batch| ==> s.batch[i].id != id
  {
    assert Holders(s)[id] == 1;
    assert id !in Ids(s.ring) && id !in Ids(s.batch) && id !in Pooled(s.pools);
    forall i | 0 <= i < |s.ring| ensures s.ring[i].id in Ids(s.ring) { IdHeld(s.ring, i); }
    forall i | 0 <= i < |s.batch| ensures s.batch[i].id in Ids(s.batch) { IdHeld(s.batch, i); }
  }

  /** What the sender holds is not in the ring. */
  lemma SenderApart(s: State)
    requires WellFormed(s) && Owned(s) && s.batch != []
    ensures forall i :: 0 <= i < |s.ring| ==> s.ring[i].id != s.batch[0].id
  {
    var id := s.batch[0].id;
    assert id in Ids(s.batch);
    assert Holders(s)[id] == 1;
    assert id !in Ids(s.ring);
    forall i | 0 <= i < |s.ring| ensures s.ring[i].id in Ids(s.ring) { IdHeld(s.ring, i); }
  }

  lemma PutBackClassed(s: State, id: int)
    requires WellFormed(s) && Classed(s) && id in s.store
    ensures Classed(PutBack(s, id))
  {
  }

  lemma FewerClassed(s: State, s': State)
    requires WellFormed(s) && Classed(s) && s'.store == s.store
    requires |s'.pools| == CLASSES && forall c :: 0 <= c < CLASSES ==> s'.pools[c] <= s.pools[c]
    ensures Classed(s')
  {
    hide PutClass;
  }

  lemma MadeClassed(s: State, l: Label)
    requires WellFormed(s) && Classed(s) && Enabled(s, l) && l.Get? && l.pick.None?
    ensures Classed(Next(s, l))
  {
    hide PutClass, GetClass;
  }

  lemma FillClassed(s: State, l: Label)
    requires WellFormed(s) && Owned(s) && Classed(s) && Enabled(s, l) && l.Fill?
    ensures Classed(Next(s, l))
  {
    hide PutClass, Owned;
    WriterApart(s, l.id);
  }

  lemma DropClassed(s: State, l: Label)
    requires WellFormed(s) && Classed(s) && Enabled(s, l) && l.Write? && |s.ring| >= SLOTS
    ensures Classed(Next(s, l))
  {
    hide PutBack;
    PutBackClassed(Refuse(s, l.id), l.id);
  }

  lemma PutClassed(s: State, l: Label)
    requires WellFormed(s) && Classed(s) && Enabled(s, l) && l.Put?
    ensures Classed(Next(s, l))
  {
    hide Classed, PutBack;
    var m := s.(batch := s.batch[1..]);
    FewerClassed(s, m);
    PutBackClassed(m, s.batch[0].id);
  }

  /** Every step leaves each pooled record in the class of its capacity. */
  lemma ClassedStep(s: State, l: Label)
    requires WellFormed(s) && Owned(s) && Classed(s) && Enabled(s, l)
    ensures Classed(Next(s, l))
  {
    hide Classed, Owned, Next;
    if l.Get? && l.pick.None? {
      MadeClassed(s, l);
    } else if l.Fill? {
      FillClassed(s, l);
    } else if l.Write? && |s.ring| >= SLOTS {
      DropClassed(s, l);
    } else if l.Put? {
      PutClassed(s, l);
    } else {
      PoolsShrink(s, l);
      FewerClassed(s, Next(s, l));
    }
  }

  lemma PoolsShrink(s: State, l: Label)
    requires WellFormed(s) && Enabled(s, l) && !l.Fill? && !l.Put? && !(l.Get? && l.pick.None?)
    requires l.Write? ==> |s.ring| < SLOTS
    ensures Next(s, l).store == s.store && forall c :: 0 <= c < CLASSES ==> Next(s, l).pools[c] <= s.pools[c]
  {
    if l.Get? {
      hide GetClass;
      OneFewer(s.pools, GetClass(l.size), l.pick.value);
    } else if l.Collect? {
      OneFewer(s.pools, l.class_, l.id);
    } else {
      PoolsAlone(s, l);
    }
  }

  lemma PoolsAlone(s: State, l: Label)
    requires WellFormed(s) && Enabled(s, l) && !l.Fill? && !l.Put? && !l.Get? && !l.Collect?
    requires l.Write? ==> |s.ring| < SLOTS
    ensures Next(s, l).store == s.store && Next(s, l).pools == s.pools
  {
    hide Written, Stolen, PutBack, GetClass, Values, Stamps;
  }

  lemma OneFewer(pools: seq<multiset<int>>, c: nat, id: int)
    requires |pools| == CLASSES && c < CLASSES
    ensures forall d :: 0 <= d < CLASSES ==> pools[c := pools[c] - multiset{id}][d] <= pools[d]
  {
  }

  // ----- What is sent is what was written

  ghost predicate Holds(s: State, entries: seq<Entry>) {
    forall i :: 0 <= i < |entries| ==>
      && entries[i].id in s.store && entries[i].stamp < |s.log|
      && s.store[entries[i].id].value == s.log[entries[i].stamp]
  }

  ghost predicate Faithful(s: State) {
    && Holds(s, s.ring) && (!s.sent ==> Holds(s, s.batch))
    && |s.payload| == |s.wire|
    && forall k :: 0 <= k < |s.wire| ==> Matches(s.log, s.wire[k], s.payload[k])
  }

  ghost predicate Matches(log: seq<Value>, stamps: seq<nat>, values: seq<Value>) {
    |values| == |stamps| && forall i :: 0 <= i < |stamps| ==> stamps[i] < |log| && values[i] == log[stamps[i]]
  }

  /** The values of queued records do not depend on what happens to other records. */
  lemma HoldsFrame(s: State, s': State, entries: seq<Entry>)
    requires Holds(s, entries) && s.log <= s'.log
    requires forall i :: 0 <= i < |entries| && entries[i].id in s.store ==>
               entries[i].id in s'.store && s'.store[entries[i].id] == s.store[entries[i].id]
    ensures Holds(s', entries)
  {
  }

  lemma WireFrame(s: State, s': State)
    requires Faithful(s) && s.log <= s'.log && s'.wire == s.wire && s'.payload == s.payload
    requires Holds(s', s'.ring) && (!s'.sent ==> Holds(s', s'.batch))
    ensures Faithful(s')
  {
  }

  lemma FillFaithful(s: State, l: Label)
    requires WellFormed(s) && Owned(s) && Faithful(s) && Enabled(s, l) && l.Fill?
    ensures Faithful(Next(s, l))
  {
    hide Owned, Holds, Matches;
    WriterApart(s, l.id);
    var s' := Next(s, l);
    HoldsFrame(s, s', s.ring);
    if !s.sent { HoldsFrame(s, s', s.batch); }
    WireFrame(s, s');
  }

  lemma GetFaithful(s: State, l: Label)
    requires WellFormed(s) && Faithful(s) && Enabled(s, l) && l.Get?
    ensures Faithful(Next(s, l))
  {
    hide GetClass, Matches;
    var s' := Next(s, l);
    HoldsFrame(s, s', s.ring);
    if !s.sent { HoldsFrame(s, s', s.batch); }
    WireFrame(s, s');
  }

  lemma RingFaithful(s: State, s': State, id: int)
    requires Holds(s, s.ring) && id in s.store && s'.store == s.store && s'.log == s.log + [s.store[id].value]
    ensures Holds(s', Written(s.ring, Entry(id, |s.log|))) && Holds(s', Stolen(s.ring, Entry(id, |s.log|)))
  {
  }

  lemma StealFaithful(s: State, l: Label)
    requires WellFormed(s) && Faithful(s) && Enabled(s, l) && (l.Steal? || (l.Write? && |s.ring| < SLOTS))
    ensures Faithful(Next(s, l))
  {
    hide Written, Stolen, Holds;
    var s' := Next(s, l);
    RingFaithful(s, s', l.id);
    if !s.sent { HoldsFrame(s, s', s.batch); }
    WireFrame(s, s');
  }

  lemma DropFaithful(s: State, l: Label)
    requires WellFormed(s) && Owned(s) && Faithful(s) && Enabled(s, l) && l.Write? && |s.ring| >= SLOTS
    ensures Faithful(Next(s, l))
  {
    WriterApart(s, l.id);
    hide Owned, Holds, PutClass;
    var s' := Next(s, l);
    HoldsFrame(s, s', s.ring);
    if !s.sent { HoldsFrame(s, s', s.batch); }
    WireFrame(s, s');
  }

  lemma PutFaithful(s: State, l: Label)
    requires WellFormed(s) && Owned(s) && Faithful(s) && Enabled(s, l) && l.Put?
    ensures Faithful(Next(s, l))
  {
    SenderApart(s);
    hide Owned, Holds, PutClass;
    var s' := Next(s, l);
    HoldsFrame(s, s', s.ring);
    WireFrame(s, s');
  }

  /** Every step leaves the values of the queued records alone, although records are recycled. */
  lemma FaithfulStep(s: State, l: Label)
    requires WellFormed(s) && Owned(s) && Faithful(s) && Enabled(s, l)
    ensures Faithful(Next(s, l))
  {
    hide Owned, PutBack, Written, Stolen, GetClass;
    match l {
      case Get(_, _, _) => GetFaithful(s, l);
      case Fill(_, _) => FillFaithful(s, l);
      case Write(_) => if |s.ring| < SLOTS { StealFaithful(s, l); } else { DropFaithful(s, l); }
      case Steal(_) => StealFaithful(s, l);
      case Put => PutFaithful(s, l);
      case Collect(_, _) =>
      case Abandon(_) =>
      case Read =>
      case Send =>
    }
  }

  // ----- Order and loss

  /** The stamps of a full or partial ring: in order of writing, but the first may have been exchanged for a
      later one if the ring was full. */
  ghost predicate Batch(b: seq<nat>) {
    && |b| <= SLOTS
    && (forall i, j :: 1 <= i < j < |b| ==> b[i] < b[j])
    && (b != [] ==> || (forall i :: 1 <= i < |b| ==> b[0] < b[i])
                    || (|b| == SLOTS && forall i :: 1 <= i < |b| ==> b[i] < b[0]))
  }

  ghost predicate Before(a: seq<nat>, b: seq<nat>) {
    forall i, j :: 0 <= i < |a| && 0 <= j < |b| ==> a[i] < b[j]
  }

  ghost predicate Below(a: seq<nat>, n: nat) {
    forall i :: 0 <= i < |a| ==> a[i] < n
  }

  /** What has been read and not yet handed over. */
  ghost function Unsent(s: State): seq<nat> {
    if s.sent then [] else Stamps(s.batch)
  }

  ghost predicate InOrder(s: State) {
    && Batch(Stamps(s.ring)) && Below(Stamps(s.ring), |s.log|)
    && Batch(Unsent(s)) && Below(Unsent(s), |s.log|) && Before(Unsent(s), Stamps(s.ring))
    && (forall k :: 0 <= k < |s.wire| ==>
          && Batch(s.wire[k]) && Below(s.wire[k], |s.log|)
          && Before(s.wire[k], Unsent(s)) && Before(s.wire[k], Stamps(s.ring)))
    && (forall k, m :: 0 <= k < m < |s.wire| ==> Before(s.wire[k], s.wire[m]))
  }

  /** A write appends the largest stamp so far, or exchanges the first one for it. */
  lemma BatchGrows(ring: seq<Entry>, e: Entry)
    requires Batch(Stamps(ring)) && Below(Stamps(ring), e.stamp)
    ensures Batch(Stamps(Written(ring, e))) && Batch(Stamps(Stolen(ring, e)))
    ensures Below(Stamps(Written(ring, e)), e.stamp + 1) && Below(Stamps(Stolen(ring, e)), e.stamp + 1)
  {
  }

  lemma BeforeGrows(a: seq<nat>, ring: seq<Entry>, e: Entry)
    requires Before(a, Stamps(ring)) && Below(a, e.stamp)
    ensures Before(a, Stamps(Written(ring, e))) && Before(a, Stamps(Stolen(ring, e)))
  {
  }

  lemma WriteInOrder(s: State, l: Label)
    requires WellFormed(s) && InOrder(s) && Enabled(s, l) && (l.Write? || l.Steal?)
    ensures InOrder(Next(s, l))
  {
    hide Written, Stolen, Batch, Before;
    var s', e := Next(s, l), Entry(l.id, |s.log|);
    BatchGrows(s.ring, e);
    BeforeGrows(Unsent(s), s.ring, e);
    forall k | 0 <= k < |s.wire| ensures Before(s.wire[k], Stamps(s'.ring)) { BeforeGrows(s.wire[k], s.ring, e); }
    assert Unsent(s') == Unsent(s);
  }

  lemma EmptyInOrder(a: seq<nat>, n: nat)
    ensures Batch([]) && Below([], n) && Before(a, []) && Before([], a)
  {
  }

  lemma ReadInOrder(s: State, l: Label)
    requires WellFormed(s) && InOrder(s) && Enabled(s, l) && l.Read?
    ensures InOrder(Next(s, l))
  {
    hide Batch, Before, Below;
    var s' := Next(s, l);
    assert Unsent(s') == Stamps(s.ring) && Stamps(s'.ring) == [];
    EmptyInOrder(Unsent(s'), |s.log|);
    forall k | 0 <= k < |s.wire| ensures Before(s.wire[k], Stamps(s'.ring)) { EmptyInOrder(s.wire[k], 0); }
  }

  lemma SendInOrder(s: State, l: Label)
    requires WellFormed(s) && InOrder(s) && Enabled(s, l) && l.Send?
    ensures InOrder(Next(s, l))
  {
    hide Batch, Before, Below;
    var s' := Next(s, l);
    EmptyInOrder(Stamps(s.ring), |s.log|);
    forall k | 0 <= k < |s'.wire| ensures Before(s'.wire[k], []) { EmptyInOrder(s'.wire[k], 0); }
  }

  lemma InOrderFrame(s: State, s': State)
    requires InOrder(s) && s'.ring == s.ring && Unsent(s') == Unsent(s) && s'.wire == s.wire && |s'.log| == |s.log|
    ensures InOrder(s')
  {
    hide Batch, Before, Below;
  }

  lemma InOrderStep(s: State, l: Label)
    requires WellFormed(s) && InOrder(s) && Enabled(s, l)
    ensures InOrder(Next(s, l))
  {
    hide InOrder, Written, Stolen, PutClass, GetClass;
    if l.Write? || l.Steal? {
      WriteInOrder(s, l);
    } else if l.Read? {
      ReadInOrder(s, l);
    } else if l.Send? {
      SendInOrder(s, l);
    } else {
      InOrderFrame(s, Next(s, l));
    }
  }

  ghost predicate OnWire(s: State, t: nat) {
    exists k :: 0 <= k < |s.wire| && t in s.wire[k]
  }

  /** The write is in the ring, with the sender or handed over. */
  ghost predicate Kept(s: State, t: nat) {
    t in Stamps(s.ring) || t in Unsent(s) || OnWire(s, t)
  }

  /** The lost writes are exactly those that are nowhere else. */
  ghost predicate Accounted(s: State) {
    forall t: nat :: t in s.lost <==> t < |s.log| && !Kept(s, t)
  }

  lemma KeptBelow(s: State, t: nat)
    requires InOrder(s) && Kept(s, t)
    ensures t < |s.log|
  {
    hide Batch, Before;
  }

  lemma WrittenKept(s: State, l: Label, t: nat)
    requires WellFormed(s) && Enabled(s, l) && (l.Write? || l.Steal?) && |s.ring| < SLOTS
    ensures Kept(Next(s, l), t) <==> Kept(s, t) || t == |s.log|
  {
    hide GetClass;
    assert Stamps(s.ring + [Entry(l.id, |s.log|)]) == Stamps(s.ring) + [|s.log|];
  }

  lemma StolenKept(s: State, l: Label, t: nat)
    requires WellFormed(s) && InOrder(s) && Enabled(s, l) && l.Steal? && |s.ring| >= SLOTS
    ensures Kept(Next(s, l), t) <==> t == |s.log| || (Kept(s, t) && t != s.ring[0].stamp)
  {
    hide Stolen;
    var s', first := Next(s, l), s.ring[0].stamp;
    assert s'.wire == s.wire && Unsent(s') == Unsent(s);
    assert OnWire(s', t) <==> OnWire(s, t);
    StolenStamps(s.ring, Entry(l.id, |s.log|), t);
    assert first == Stamps(s.ring)[0];
    assert first !in Unsent(s);
    assert !OnWire(s, first) by { hide Batch, Below; }
  }

  lemma StolenStamps(ring: seq<Entry>, e: Entry, t: nat)
    requires |ring| >= SLOTS && Batch(Stamps(ring))
    ensures t in Stamps(Stolen(ring, e)) <==> t == e.stamp || (t in Stamps(ring) && t != ring[0].stamp)
  {
    var a, b := Stamps(ring), Stamps(Stolen(ring, e));
    assert b == [e.stamp] + a[1..] && a == [a[0]] + a[1..];
  }

  lemma AccountedStep(s: State, l: Label)
    requires WellFormed(s) && InOrder(s) && Accounted(s) && Enabled(s, l)
    ensures Accounted(Next(s, l))
  {
    var s' := Next(s, l);
    forall t: nat ensures t in s'.lost <==> t < |s'.log| && !Kept(s', t) {
      AccountedAt(s, l, t);
    }
  }

  lemma MovedKept(s: State, l: Label, t: nat)
    requires WellFormed(s) && Enabled(s, l) && (l.Read? || l.Send?)
    ensures Kept(Next(s, l), t) <==> Kept(s, t)
  {
    var s' := Next(s, l);
    if l.Read? {
      assert Unsent(s) == [] == Stamps(s'.ring);
    } else {
      assert s'.wire[|s.wire|] == Unsent(s);
      assert forall k :: 0 <= k < |s.wire| ==> s'.wire[k] == s.wire[k];
    }
  }

  lemma FullKept(s: State, l: Label, t: nat)
    requires WellFormed(s) && Enabled(s, l) && l.Write? && |s.ring| >= SLOTS
    ensures Kept(Next(s, l), t) <==> Kept(s, t)
    ensures Next(s, l).lost == s.lost + {|s.log|} && |Next(s, l).log| == |s.log| + 1
  {
    hide PutClass;
  }

  lemma AccountedAt(s: State, l: Label, t: nat)
    requires WellFormed(s) && InOrder(s) && Accounted(s) && Enabled(s, l)
    ensures var s' := Next(s, l); t in s'.lost <==> t < |s'.log| && !Kept(s', t)
  {
    hide Stolen, Written, GetClass, PutClass, InOrder;
    if Kept(s, t) { KeptBelow(s, t); }
    if l.Read? || l.Send? {
      MovedKept(s, l, t);
    } else if l.Write? || l.Steal? {
      hide Kept;
      if |s.ring| < SLOTS {
        WrittenKept(s, l, t);
      } else if l.Write? {
        FullKept(s, l, t);
      } else {
        StolenKept(s, l, t);
        FirstKept(s);
      }
    }
  }

  lemma FirstKept(s: State)
    requires InOrder(s) && s.ring != []
    ensures Kept(s, s.ring[0].stamp) && s.ring[0].stamp < |s.log|
  {
    assert s.ring[0].stamp == Stamps(s.ring)[0];
  }

  // ----- Every run

  ghost predicate Inv(s: State) {
    WellFormed(s) && Owned(s) && Classed(s) && Faithful(s) && InOrder(s) && Accounted(s)
  }

  lemma InitialInv()
    ensures Inv(Initial())
  {
    hide PutClass;
  }

  lemma StepKeepsInv(s: State, l: Label)
    requires Inv(s) && Enabled(s, l)
    ensures Inv(Next(s, l))
  {
    hide Owned, Classed, Faithful, InOrder, Accounted, Next;
    OwnedStep(s, l);
    ClassedStep(s, l);
    FaithfulStep(s, l);
    InOrderStep(s, l);
    AccountedStep(s, l);
  }

  lemma {:induction false} RunKeepsInv(s: State, labels: seq<Label>)
    requires Inv(s) && IsRun(s, labels)
    ensures Inv(Exec(s, labels))
    decreases |labels|
  {
    hide Owned, Classed, Faithful, InOrder, Accounted, Next, Enabled;
    if labels != [] {
      StepKeepsInv(s, labels[0]);
      RunKeepsInv(Next(s, labels[0]), labels[1..]);
    }
  }

  ghost predicate Reachable(s: State) {
    exists labels :: IsRun(Initial(), labels) && Exec(Initial(), labels) == s
  }

  lemma ReachableInv(s: State)
    requires Reachable(s)
    ensures Inv(s)
  {
    hide Inv, Exec, IsRun;
    InitialInv();
    var labels :| IsRun(Initial(), labels) && Exec(Initial(), labels) == s;
    RunKeepsInv(Initial(), labels);
  }

  /** In every reachable state a record is in at most one place. */
  lemma OnePlaceEach(s: State, id: int)
    requires Reachable(s)
    ensures WellFormed(s) && Holders(s)[id] <= 1
  {
    hide Reachable, Holders, Classed, Faithful, InOrder, Accounted;
    ReachableInv(s);
  }

  /** In every reachable state a pooled record has a capacity of its size class. */
  lemma PooledByCapacity(s: State, c: nat, id: int)
    requires Reachable(s) && WellFormed(s) && c < CLASSES && id in s.pools[c]
    ensures id in s.store && s.store[id].capacity <= CLASSES * UNIT && GetClass(s.store[id].capacity) == c
  {
    hide Reachable, Owned, Faithful, InOrder, Accounted, PutClass, GetClass;
    ReachableInv(s);
  }

  /** What the sender has handed over is, value for value, what was written. */
  lemma SentAsWritten(s: State, k: nat, i: nat)
    requires Reachable(s) && k < |s.wire| && i < |s.wire[k]|
    ensures |s.payload| == |s.wire| && |s.payload[k]| == |s.wire[k]|
    ensures s.wire[k][i] < |s.log| && s.payload[k][i] == s.log[s.wire[k][i]]
  {
    hide Reachable, Owned, Classed, InOrder, Accounted, Holds;
    ReachableInv(s);
  }

  /** No write is handed over twice, and writes are handed over in order, except that the first of a full batch
      may be a later one. */
  lemma SentInOrderOnce(s: State, k: nat, i: nat, m: nat, j: nat)
    requires Reachable(s) && k < |s.wire| && i < |s.wire[k]| && m < |s.wire| && j < |s.wire[m]|
    ensures (k, i) != (m, j) ==> s.wire[k][i] != s.wire[m][j]
    ensures k < m ==> s.wire[k][i] < s.wire[m][j]
    ensures k == m && i < j && (0 < i || |s.wire[k]| < SLOTS) ==> s.wire[k][i] < s.wire[m][j]
  {
    hide Reachable, Owned, Classed, Faithful, Accounted, Batch, Before, Below;
    ReachableInv(s);
    if k == m {
      BatchPair(s.wire[k], i, j);
    } else if k < m {
      BeforePair(s.wire[k], s.wire[m], i, j);
    } else {
      BeforePair(s.wire[m], s.wire[k], j, i);
    }
  }

  lemma BatchPair(b: seq<nat>, i: nat, j: nat)
    requires Batch(b) && i < |b| && j < |b|
    ensures i != j ==> b[i] != b[j]
    ensures i < j && (0 < i || |b| < SLOTS) ==> b[i] < b[j]
  {
  }

  lemma BeforePair(a: seq<nat>, b: seq<nat>, i: nat, j: nat)
    requires Before(a, b) && i < |a| && j < |b|
    ensures a[i] < b[j]
  {
  }

  lemma BeforeApart(a: seq<nat>, b: seq<nat>, t: nat)
    requires Before(a, b)
    ensures !(t in a && t in b)
  {
  }

  /** In how many of the four places a write is: the ring, the sender's batch, the wire, or lost. */
  ghost function Places(s: State, t: nat): nat {
    (if t in Stamps(s.ring) then 1 else 0) + (if t in Unsent(s) then 1 else 0) +
    (if OnWire(s, t) then 1 else 0) + (if t in s.lost then 1 else 0)
  }

  lemma KeptOnce(s: State, t: nat)
    requires InOrder(s)
    ensures !(t in Stamps(s.ring) && t in Unsent(s))
    ensures !(OnWire(s, t) && (t in Stamps(s.ring) || t in Unsent(s)))
  {
    hide Batch, Before, Below, Stamps, Unsent;
    BeforeApart(Unsent(s), Stamps(s.ring), t);
    if OnWire(s, t) {
      var k :| 0 <= k < |s.wire| && t in s.wire[k];
      BeforeApart(s.wire[k], Unsent(s), t);
      BeforeApart(s.wire[k], Stamps(s.ring), t);
    }
  }

  /** Each write is in the ring, with the sender, handed over, or lost, and in one of these only; and a step loses
      a write only when the ring is full. */
  lemma LostOnlyWhenFull(s: State, l: Label, t: nat)
    requires Reachable(s) && WellFormed(s) && Enabled(s, l)
    ensures t < |s.log| ==> Places(s, t) == 1
    ensures t in Next(s, l).lost && t !in s.lost ==> |s.ring| == SLOTS
  {
    hide Reachable, Owned, Classed, Faithful, InOrder, Accounted, Places, Next, Enabled;
    ReachableInv(s);
    LostNow(s, l, t);
    WrittenOnce(s, t);
  }

  lemma WrittenOnce(s: State, t: nat)
    requires InOrder(s) && Accounted(s)
    ensures t < |s.log| ==> Places(s, t) == 1
  {
    hide InOrder, Stamps, Unsent, OnWire;
    KeptOnce(s, t);
  }

  lemma LostNow(s: State, l: Label, t: nat)
    requires Inv(s) && Enabled(s, l)
    ensures t in Next(s, l).lost && t !in s.lost ==> |s.ring| == SLOTS
  {
    hide Owned, Classed, Faithful, Kept, GetClass, PutClass, Written, Stolen, Before, Below;
  }
}
