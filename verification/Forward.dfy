/** The agent's receiving loop for one plugin: what it hands to the ring, call by call, until the pipe ends. */
module Forward {
  import opened Varint
  import opened Skip
  import opened Wire
  import opened Messages
  import opened Receive
  import opened Wrappers

  /** What a whole run of the loop passes to WriteEncodedRecord, nil included, and whether a panic ends it. */
  datatype Run = Run(ring: seq<Option<Filled>>, panicked: bool)

  /** The loop from index `p` on. Only the error that means the end of the pipe stops it; after any other error the
      pointer that came with it is passed on like that of a good call. */
  function Forwarded(data: seq<byte>, p: nat): Run
    requires p <= |data|
    decreases |data| - p
  {
    match ReceiveAt(data, p)
    case Panics => Run([], true)
    case Returns(rec, err, _, next) =>
      if err == Some(Eof) then Run([], false)
      else
        var rest := Forwarded(data, next);
        Run([rec] + rest.ring, rest.panicked)
  }

  /** The loop of the receiving goroutine. */
  method Forward(r: Reader) returns (ring: seq<Option<Filled>>, panicked: bool)
    requires r.Valid()
    modifies r`pos
    ensures r.Valid() && Run(ring, panicked) == Forwarded(r.data, old(r.pos))
    ensures !panicked ==> r.pos == |r.data|
  {
    hide ReceiveAt;
    ring, panicked := [], false;
    while true
      invariant r.Valid() && !panicked
      invariant var rest := Forwarded(r.data, r.pos);
                Forwarded(r.data, old(r.pos)) == Run(ring + rest.ring, rest.panicked)
      decreases |r.data| - r.pos
    {
      var rec, err, crash := r.ReceiveData();
      if crash {
        panicked := true;
        return;
      }
      if err == Some(Eof) {
        return;
      }
      ring := ring + [rec];
    }
  }

  // ----- One call

  /** The pointer one call makes the loop pass on, if any. */
  function Passed(data: seq<byte>, p: nat): Option<Option<Filled>>
    requires p <= |data|
  {
    match ReceiveAt(data, p)
    case Panics => None
    case Returns(rec, err, _, _) => if err == Some(Eof) then None else Some(rec)
  }

  /** Ten bytes with the high bit set: a varint that does not end. */
  ghost predicate OverlongAt(data: seq<byte>, i: nat) {
    i + 10 <= |data| && AllHigh(data, i, i + 10)
  }

  /** A varint lies from `i` to below `j`: one to ten bytes, of which the last alone has the high bit clear. */
  ghost predicate VarintAt(data: seq<byte>, i: nat, j: nat) {
    i < j <= i + 10 && j <= |data| && AllHigh(data, i, j - 1) && data[j - 1] < 128
  }

  lemma {:induction false} SeptetsEnd(data: seq<byte>, i: nat, k: nat, j: nat)
    requires i <= |data| && k <= 10
    ensures Septets(data, i, k).Ok? && Septets(data, i, k).value.next == j <==>
            i < j <= i + 10 - k && j <= |data| && AllHigh(data, i, j - 1) && data[j - 1] < 128
    decreases |data| - i
  {
    if k < 10 && i < |data| && data[i] >= 128 {
      SeptetsEnd(data, i + 1, k + 1, j);
    }
  }

  lemma NumberEnds(data: seq<byte>, i: nat, j: nat)
    requires i <= |data|
    ensures NumberAt(data, i).Got? && NumberAt(data, i).next == j <==> VarintAt(data, i, j)
  {
    hide Septets, AllHigh;
    SeptetsEnd(data, i, 0, j);
  }

  /** The header of the frame at `p` ends at `n`: its length, then three tags with two varints, which end at `i` and
      `j`, between them. */
  ghost predicate HeaderEnds(data: seq<byte>, p: nat, i: nat, j: nat, n: nat) {
    VarintAt(data, p + 5, i) && VarintAt(data, i + 1, j) && n == j + 1 <= |data|
  }

  /** The second varint does not end. */
  ghost predicate TimeOverlong(data: seq<byte>, p: nat, i: nat) {
    VarintAt(data, p + 5, i) && OverlongAt(data, i + 1)
  }

  /** The announced length ends with or before the header, or the third varint does not end. */
  ghost predicate NoPayload(data: seq<byte>, p: nat, i: nat, j: nat, n: nat) {
    HeaderEnds(data, p, i, j, n) && (p + 4 + FromLittleEndian(data[p..p + 4]) <= n || OverlongAt(data, n))
  }

  /** The payload begins at `k`, and the pipe ends inside it. */
  ghost predicate PayloadCut(data: seq<byte>, p: nat, i: nat, j: nat, n: nat, k: nat) {
    && HeaderEnds(data, p, i, j, n) && VarintAt(data, n, k)
    && k < |data| < p + 4 + FromLittleEndian(data[p..p + 4])
  }

  /** The bytes from `p` on that give nil: the pipe ends inside the four length bytes, one of the three varints does
      not end, or the announced length is no longer than the two numbers and the three tags. */
  ghost predicate GivesNil(data: seq<byte>, p: nat)
    requires p <= |data|
  {
    || p < |data| < p + 4
    || OverlongAt(data, p + 5)
    || (exists i: nat :: TimeOverlong(data, p, i))
    || (exists i: nat, j: nat, n: nat :: NoPayload(data, p, i, j, n))
  }

  /** The bytes from `p` on that give a record not wholly read: the pipe ends inside the payload, behind its first
      byte. */
  ghost predicate GivesPart(data: seq<byte>, p: nat)
    requires p <= |data|
  {
    exists i: nat, j: nat, n: nat, k: nat :: PayloadCut(data, p, i, j, n, k)
  }

  lemma HeaderIsRead(data: seq<byte>, p: nat, i: nat, j: nat, n: nat)
    requires p <= |data| && HeaderEnds(data, p, i, j, n)
    ensures HeaderAt(data, p).Header? && HeaderAt(data, p).next == n
    ensures HeaderAt(data, p).length == FromLittleEndian(data[p..p + 4])
  {
    hide FromLittleEndian, NumberAt, AllHigh;
    NumberEnds(data, p + 5, i);
    NumberEnds(data, i + 1, j);
  }

  lemma HeaderThere(data: seq<byte>, p: nat) returns (i: nat, j: nat)
    requires p <= |data| && HeaderAt(data, p).Header?
    ensures HeaderEnds(data, p, i, j, HeaderAt(data, p).next)
    ensures HeaderAt(data, p).length == FromLittleEndian(data[p..p + 4])
  {
    hide FromLittleEndian, NumberAt, AllHigh;
    i := NumberAt(data, p + 5).next;
    j := NumberAt(data, i + 1).next;
    NumberEnds(data, p + 5, i);
    NumberEnds(data, i + 1, j);
  }

  /** A call makes the loop hand nil to the ring exactly when the bytes say so. */
  lemma NilExactly(data: seq<byte>, p: nat)
    requires p <= |data|
    ensures Passed(data, p) == Some(None) <==> GivesNil(data, p)
  {
    if Passed(data, p) == Some(None) { NilNeeds(data, p); }
    if GivesNil(data, p) { NilSuffices(data, p); }
  }

  lemma NilNeeds(data: seq<byte>, p: nat)
    requires p <= |data| && Passed(data, p) == Some(None)
    ensures GivesNil(data, p)
  {
    hide FromLittleEndian, NumberAt, AllHigh, VarintAt, HeaderEnds, Signed;
    if HeaderAt(data, p).Header? {
      var i, j := HeaderThere(data, p);
      assert NoPayload(data, p, i, j, HeaderAt(data, p).next) by { hide HeaderAt; }
    } else if p + 5 <= |data| {
      var i := NumberAt(data, p + 5).next;
      NumberEnds(data, p + 5, i);
      assert NumberAt(data, p + 5).Got? ==> TimeOverlong(data, p, i);
    }
  }

  lemma NilSuffices(data: seq<byte>, p: nat)
    requires p <= |data| && GivesNil(data, p)
    ensures Passed(data, p) == Some(None)
  {
    hide FromLittleEndian, NumberAt, AllHigh, HeaderEnds, Signed;
    if i: nat, j: nat, n: nat :| NoPayload(data, p, i, j, n) {
      hide HeaderAt;
      HeaderIsRead(data, p, i, j, n);
    } else if i: nat :| TimeOverlong(data, p, i) {
      NumberEnds(data, p + 5, i);
    }
  }

  /** Where the loop goes on after a call that found no payload: behind the tag that follows the second number, however
      much of the next frame that is. */
  lemma NilStopsAt(data: seq<byte>, p: nat, i: nat, j: nat, n: nat)
    requires p <= |data| && HeaderEnds(data, p, i, j, n)
    requires p + 4 + FromLittleEndian(data[p..p + 4]) <= n
    ensures ReceiveAt(data, p) == Returns(None, None, FromLittleEndian(data[p..p + 4]), n)
  {
    hide FromLittleEndian, HeaderAt, HeaderEnds, PayloadAt;
    HeaderIsRead(data, p, i, j, n);
  }

  predicate IsPart(x: Option<Filled>) {
    x.Some? && !x.value.Whole()
  }

  /** A call makes the loop hand over a record not wholly read exactly when the bytes say so. */
  lemma PartExactly(data: seq<byte>, p: nat)
    requires p <= |data|
    ensures Passed(data, p).Some? && IsPart(Passed(data, p).value) <==> GivesPart(data, p)
  {
    hide FromLittleEndian, NumberAt, AllHigh, VarintAt, HeaderEnds, HeaderAt, Signed;
    var h := HeaderAt(data, p);
    if Passed(data, p).Some? && IsPart(Passed(data, p).value) {
      var i, j := HeaderThere(data, p);
      var k := NumberAt(data, h.next).next;
      NumberEnds(data, h.next, k);
      assert PayloadCut(data, p, i, j, h.next, k);
    }
    if i: nat, j: nat, n: nat, k: nat :| PayloadCut(data, p, i, j, n, k) {
      HeaderIsRead(data, p, i, j, n);
      NumberEnds(data, n, k);
    }
  }

  // ----- A whole run

  /** Where the calls of a run start. */
  function Starts(data: seq<byte>, p: nat): (r: seq<nat>)
    requires p <= |data|
    ensures forall q <- r :: p <= q <= |data|
    decreases |data| - p
  {
    match ReceiveAt(data, p)
    case Panics => [p]
    case Returns(_, err, _, next) => if err == Some(Eof) then [p] else [p] + Starts(data, next)
  }

  /** A run hands nil to the ring exactly when the bytes at one of its calls say so. */
  lemma {:induction false} NilInRunExactly(data: seq<byte>, p: nat)
    requires p <= |data|
    ensures None in Forwarded(data, p).ring <==> exists q <- Starts(data, p) :: GivesNil(data, q)
    decreases |data| - p
  {
    hide ReceiveAt, GivesNil;
    NilExactly(data, p);
    if Passed(data, p).Some? {
      NilInRunExactly(data, ReceiveAt(data, p).next);
    }
  }

  /** A run hands over a record not wholly read exactly when the bytes at one of its calls say so. */
  lemma {:induction false} PartInRunExactly(data: seq<byte>, p: nat)
    requires p <= |data|
    ensures (exists x <- Forwarded(data, p).ring :: IsPart(x)) <==> exists q <- Starts(data, p) :: GivesPart(data, q)
    decreases |data| - p
  {
    hide ReceiveAt, GivesPart;
    PartExactly(data, p);
    if Passed(data, p).Some? {
      PartInRunExactly(data, ReceiveAt(data, p).next);
    }
  }

  /** At the end of the pipe the loop stops. */
  lemma StopsAtEnd(data: seq<byte>)
    ensures Forwarded(data, |data|) == Run([], false)
  {
  }

  /** Only the last record a run hands over can be one not wholly read, and no panic comes after it. */
  lemma {:induction false} PartIsLast(data: seq<byte>, p: nat, k: nat)
    requires p <= |data| && k < |Forwarded(data, p).ring| && IsPart(Forwarded(data, p).ring[k])
    ensures k + 1 == |Forwarded(data, p).ring| && !Forwarded(data, p).panicked
    decreases |data| - p
  {
    StopsAtEnd(data);
    hide FromLittleEndian, NumberAt, Signed;
    var next := ReceiveAt(data, p).next;
    if k > 0 {
      PartIsLast(data, next, k - 1);
    }
  }

  // ----- A plugin that dies while it writes

  /** What is left of a varint when the pipe ends before or inside it, or does not. */
  lemma {:induction false} SeptetsOfPrefix(full: seq<byte>, n: nat, i: nat, k: nat)
    requires i <= n <= |full| && Septets(full, i, k).Ok?
    ensures Septets(full[..n], i, k) ==
            if Septets(full, i, k).value.next <= n then Septets(full, i, k) else Err(UnexpectedEOF)
    decreases |full| - i
  {
    if i < n && full[i] >= 128 {
      SeptetsOfPrefix(full, n, i + 1, k + 1);
    }
  }

  lemma NumberOfPrefix(full: seq<byte>, n: nat, i: nat)
    requires i <= n <= |full| && NumberAt(full, i).Got?
    ensures NumberAt(full[..n], i) == if NumberAt(full, i).next <= n then NumberAt(full, i) else Missing(Eof, n)
  {
    hide Septets;
    SeptetsOfPrefix(full, n, i, 0);
  }

  /** What the loop hands over of a frame of which the pipe holds the bytes up to `n` only: nil when these are one to
      three bytes, nothing when they end at or before the payload, and else the record with what there is of it. */
  function Remains(f: Filled, p: nat, end: nat, n: nat): seq<Option<Filled>>
    requires p <= n < end && f.Whole() && p + f.size <= end
  {
    var payload := end - f.size;
    if p < n < p + 4 then [None]
    else if n <= payload then []
    else [Some(f.(read := f.read[..n - payload]))]
  }

  lemma CutFrame(full: seq<byte>, p: nat, f: Filled, l: nat, end: nat, n: nat)
    requires p <= n < end <= |full| && ReceiveAt(full, p) == Returns(Some(f), None, l, end)
    ensures p + 4 + f.size <= end && Forwarded(full[..n], p) == Run(Remains(f, p, end, n), false)
  {
    hide HeaderAt, PayloadAt;
    StopsAtEnd(full[..n]);
    CutHeader(full, p, n);
    var h := HeaderAt(full, p);
    PayloadGiven(full, p + 4 + h.length, h);
    if h.next <= n { CutPayload(full, end, h, n); }
  }

  lemma CutHeader(full: seq<byte>, p: nat, n: nat)
    requires p <= n <= |full| && HeaderAt(full, p).Header?
    ensures HeaderAt(full[..n], p) ==
            if HeaderAt(full, p).next <= n then HeaderAt(full, p) else Broken(if p < n < p + 4 then CutShort else Eof, n)
  {
    hide FromLittleEndian, NumberAt;
    if p + 5 <= n {
      assert full[..n][p..p + 4] == full[p..p + 4];
      NumberOfPrefix(full, n, p + 5);
      var i := NumberAt(full, p + 5).next;
      if i + 1 <= n { NumberOfPrefix(full, n, i + 1); }
    }
  }

  lemma PayloadGiven(full: seq<byte>, end: nat, h: Header)
    requires h.Header? && h.next <= |full| && PayloadAt(full, end, h).Returns? && PayloadAt(full, end, h).err.None?
    ensures var r := PayloadAt(full, end, h);
            r.rec.Some? && r.next == end <= |full| && h.next < end - r.rec.value.size
  {
    hide Signed, NumberAt;
  }

  lemma CutPayload(full: seq<byte>, end: nat, h: Header, n: nat)
    requires h.Header? && h.next <= n < end <= |full|
    requires PayloadAt(full, end, h).Returns? && PayloadAt(full, end, h).err.None?
    ensures var f := PayloadAt(full, end, h).rec.value;
            && h.next < end - f.size && f.Whole()
            && PayloadAt(full[..n], end, h) ==
               if n < end - f.size then Fails(Eof, n)
               else Returns(Some(f.(read := f.read[..n - (end - f.size)])), Some(if n == end - f.size then Eof else CutShort), 0, n)
  {
    hide NumberAt, Signed;
    NumberOfPrefix(full, n, h.next);
    var k := NumberAt(full, h.next).next;
    if k <= n { PrefixOfSlice(full, k, n, end); }
  }

  lemma PrefixOfSlice(s: seq<byte>, k: nat, n: nat, end: nat)
    requires k <= n <= end <= |s|
    ensures s[..n][k..n] == s[k..end][..n - k]
  {
    var a, b := s[..n][k..n], s[k..end][..n - k];
    assert |a| == |b|;
    assert forall j :: 0 <= j < |a| ==> a[j] == s[k + j] && b[j] == s[k + j];
  }

  // ----- A whole stream

  /** A record with the order its payload was written in. */
  datatype Sent = Sent(rec: Record, ks: seq<Text>)

  ghost predicate CompleteSent(s: Sent) {
    Sendable(s.rec, s.ks) && Complete(s.rec)
  }

  ghost predicate AllComplete(rs: seq<Sent>) {
    forall s <- rs :: CompleteSent(s)
  }

  ghost function FrameBytes(s: Sent): seq<byte>
    requires CompleteSent(s)
  {
    FrameOf(Msg(RecordFields(s.rec, s.ks), []))
  }

  ghost function Stream(rs: seq<Sent>): seq<byte>
    requires AllComplete(rs)
  {
    if rs == [] then [] else FrameBytes(rs[0]) + Stream(rs[1..])
  }

  ghost function Spliced(s: Sent): Filled
    requires CompleteSent(s)
  {
    Full(Splice(s.rec, s.ks))
  }

  ghost function Splices(rs: seq<Sent>): seq<Option<Filled>>
    requires AllComplete(rs)
  {
    if rs == [] then [] else [Some(Spliced(rs[0]))] + Splices(rs[1..])
  }

  /** The loop takes a complete record off the pipe as it was sent and goes on at the next frame. */
  lemma FrameForwarded(data: seq<byte>, p: nat, s: Sent)
    requires p <= |data| && CompleteSent(s) && At(data, p, FrameBytes(s))
    ensures var next := p + |FrameBytes(s)|;
            && next <= |data| && ReceiveAt(data, p) == Returns(Some(Spliced(s)), None, |FrameBytes(s)| - 4, next)
  {
    hide ReceiveAt, Splice, RecordFields, WriteableAll, SizeFields, EncodeFields;
    assert FramedAt(data, p, s.rec, s.ks);
    CompleteReceived(data, p, s.rec, s.ks);
    SizeIsLength(Msg(RecordFields(s.rec, s.ks), []));
  }

  lemma OneMore(data: seq<byte>, p: nat, f: Filled, l: nat, next: nat, a: seq<Option<Filled>>, rest: Run)
    requires p <= |data| && ReceiveAt(data, p) == Returns(Some(f), None, l, next)
    requires Forwarded(data, next) == Run(a + rest.ring, rest.panicked)
    ensures Forwarded(data, p) == Run([Some(f)] + a + rest.ring, rest.panicked)
  {
    hide ReceiveAt;
    assert [Some(f)] + (a + rest.ring) == [Some(f)] + a + rest.ring;
  }

  /** However many complete records are sent, the loop stays in step with the plugin: it hands each over as sent,
      in order, and goes on exactly behind the last frame, whatever follows there. */
  lemma {:induction false} StreamForwarded(data: seq<byte>, p: nat, rs: seq<Sent>)
    requires p <= |data| && AllComplete(rs) && At(data, p, Stream(rs))
    ensures var rest := Forwarded(data, p + |Stream(rs)|);
            Forwarded(data, p) == Run(Splices(rs) + rest.ring, rest.panicked)
    decreases rs
  {
    hide ReceiveAt, Forwarded, Spliced, FrameBytes, CompleteSent, At;
    var end := p + |Stream(rs)|;
    if rs != [] {
      var next := p + |FrameBytes(rs[0])|;
      AtSplit(data, p, FrameBytes(rs[0]), Stream(rs[1..]));
      FrameForwarded(data, p, rs[0]);
      StreamForwarded(data, next, rs[1..]);
      OneMore(data, p, Spliced(rs[0]), next - p - 4, next, Splices(rs[1..]), Forwarded(data, end));
    }
  }

  /** A plugin dies `n` bytes into the frame after `rs`: the loop hands over `rs` as sent, then what it makes of the
      rest, and stops without a panic. */
  lemma DeathForwarded(rs: seq<Sent>, last: Sent, n: nat)
    requires AllComplete(rs) && CompleteSent(last) && n < |FrameBytes(last)|
    ensures var pipe, p := Stream(rs) + FrameBytes(last)[..n], |Stream(rs)|;
            && |Spliced(last).read| <= |FrameBytes(last)|
            && Forwarded(pipe, 0) == Run(Splices(rs) + Remains(Spliced(last), p, p + |FrameBytes(last)|, p + n), false)
  {
    hide ReceiveAt, Spliced, FrameBytes, Forwarded, Remains, CompleteSent;
    var full, pipe, p := Stream(rs) + FrameBytes(last), Stream(rs) + FrameBytes(last)[..n], |Stream(rs)|;
    assert pipe == full[..p + n];
    StreamForwarded(pipe, 0, rs);
    FrameForwarded(full, p, last);
    CutFrame(full, p, Spliced(last), |FrameBytes(last)| - 4, p + |FrameBytes(last)|, p + n);
  }
}
