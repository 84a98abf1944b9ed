/** The pipe from a plugin to the agent: length-prefixed Records written by the plugin, and the
    agent's partial decoder that splices the payload, still encoded, under a new header. */
module Receive {
  import opened Bits
  import opened Varint
  import opened Skip
  import opened Wire
  import opened Unmarshal
  import opened RoundTrip
  import opened Messages
  import opened Layout
  import opened Wrappers

  // ----- The plugin's side

  /** A uint32 in little-endian order. */
  function LittleEndian(n: nat): seq<byte>
    requires n < TWO_32
  {
    [n % 256, (n / 256) % 256, (n / 65536) % 256, n / 16777216]
  }

  function FromLittleEndian(s: seq<byte>): nat
    requires |s| == 4
  {
    (s[0] as int) + 256 * (s[1] as int) + 65536 * (s[2] as int) + 16777216 * (s[3] as int)
  }

  /** The lowest eight bits come first. */
  lemma LowestFirst(n: nat, k: nat)
    requires n < TWO_32 && k < 4
    ensures LittleEndian(n)[k] == (n / Pow2(8 * k)) % 256
  {
    assert Pow2(8 * k) == [1, 256, 65536, 16777216][k] by { BytePowers(); }
    hide Pow2;
  }

  lemma BytePowers()
    ensures Pow2(0) == 1 && Pow2(8) == 256 && Pow2(16) == 65536 && Pow2(24) == 16777216
  {
    Pow2Values();
    assert Pow2(8) == 256;
    Pow2Add(8, 8);
  }

  /** What SendRecord puts on the pipe for one record. */
  function FrameOf(msg: Msg): seq<byte>
    requires WriteableAll(msg.fields)
  {
    LittleEndian(Wrap32(Size(msg))) + Encode(msg)
  }

  /** The writing half of the plugin's client. */
  class Client {
    var written: seq<byte>

    method SendRecord(msg: Msg)
      requires WriteableAll(msg.fields)
      modifies this
      ensures written == old(written) + FrameOf(msg)
    {
      var size := Size(msg);
      written := written + LittleEndian(Wrap32(size));
      var buf := Marshal(msg);
      written := written + buf;
    }
  }

  // ----- Reading a number off the pipe

  /** The errors ReceiveData returns: the pipe ended before anything of what was to be read, the pipe ended inside
      it, or a varint is longer than ten bytes. */
  datatype Failure = Eof | CutShort | Overlong

  predicate AllHigh(data: seq<byte>, i: nat, j: nat)
    requires j <= |data|
  {
    forall k :: i <= k < j ==> data[k] >= 128
  }

  /** When reading a varint fails, and how. */
  lemma {:induction false} SeptetsFail(data: seq<byte>, i: nat, k: nat)
    requires i <= |data| && k <= 10
    ensures var r := Septets(data, i, k);
            && (r == Err(IntOverflow) <==> i + 10 - k <= |data| && AllHigh(data, i, i + 10 - k))
            && (r == Err(UnexpectedEOF) <==> |data| < i + 10 - k && AllHigh(data, i, |data|))
            && (r.Err? ==> r.error == IntOverflow || r.error == UnexpectedEOF)
    decreases |data| - i
  {
    if k < 10 && i < |data| && data[i] >= 128 {
      SeptetsFail(data, i + 1, k + 1);
    }
  }

  /** A number of the frame, or why there is none; in both cases where the reader is left. */
  datatype Numeral = Got(value: nat, next: nat) | Missing(error: Failure, next: nat)

  /** readVarint on the pipe's bytes from index `i` on. */
  function NumberAt(data: seq<byte>, i: nat): (r: Numeral)
    requires i <= |data|
    ensures i <= r.next <= |data| && (r.Got? ==> i < r.next)
    ensures r.Missing? && r.error == Overlong <==> i + 10 <= |data| && AllHigh(data, i, i + 10)
    ensures r.Missing? ==> r.error == Overlong || (r.error == Eof && r.next == |data|)
  {
    SeptetsFail(data, i, 0);
    match DecodeVarint(W64, data, i)
    case Ok(v) => Got(v.value, v.next)
    case Err(e) => if e == IntOverflow then Missing(Overlong, i + 10) else Missing(Eof, |data|)
  }

  // ----- The agent's side

  /** The EncodedRecord behind the pointer that ReceiveData returns. Its Data has `size` bytes, of which `read` came
      from the pipe; behind them is whatever the recycled buffer held. */
  datatype Filled = Filled(dataType: int, timestamp: int, read: seq<byte>, size: nat) {
    predicate Whole() { |read| == size }
  }

  function Full(e: EncodedRecord): Filled {
    Filled(e.dataType, e.timestamp, e.data, |e.data|)
  }

  /** One call of ReceiveData: the pointer and the error it returns, the length it adds to the plugin's counter, and
      where reading stopped; or a run-time panic. */
  datatype Call =
    | Returns(rec: Option<Filled>, err: Option<Failure>, length: nat, next: nat)
    | Panics

  /** Nothing but an error. */
  function Fails(error: Failure, next: nat): Call {
    Returns(None, Some(error), 0, next)
  }

  /** What stands before the payload: the announced length, type and time, and where the payload's length begins; or
      why a call ends before that. */
  datatype Header = Header(length: nat, dataType: nat, timestamp: nat, next: nat) | Broken(error: Failure, next: nat)

  /** The length in four bytes, then a tag, a number, a tag, a number and a tag. The tags are not looked at. */
  function HeaderAt(data: seq<byte>, p: nat): (r: Header)
    requires p <= |data|
    ensures p <= r.next <= |data| && (r.Header? ==> p + 9 <= r.next)
    ensures r.Broken? ==> if r.error == Eof then r.next == |data| else p < r.next
  {
    if p + 4 > |data| then Broken(if p == |data| then Eof else CutShort, |data|)
    else if p + 5 > |data| then Broken(Eof, |data|)
    else
      match NumberAt(data, p + 5)
      case Missing(e, i) => Broken(e, i)
      case Got(dt, i) =>
        if i + 1 > |data| then Broken(Eof, |data|)
        else
          match NumberAt(data, i + 1)
          case Missing(e, j) => Broken(e, j)
          case Got(ts, j) =>
            if j + 1 > |data| then Broken(Eof, |data|)
            else Header(FromLittleEndian(data[p..p + 4]), dt, ts, j + 1)
  }

  /** How many bytes of the frame at `p` stand before the payload's length: the count `te` of the source. */
  function Counted(h: Header, p: nat): nat
    requires h.Header? && p + 4 <= h.next
  {
    h.next - (p + 4)
  }

  /** ReceiveData on the pipe's bytes from index `p` on. */
  function ReceiveAt(data: seq<byte>, p: nat): (r: Call)
    requires p <= |data|
    ensures r.Returns? ==> p <= r.next <= |data| && if r.err == Some(Eof) then r.next == |data| else p < r.next
    ensures r.Returns? && r.rec.Some? ==> (r.rec.value.Whole() <==> r.err.None?)
  {
    var h := HeaderAt(data, p);
    if h.Broken? then Fails(h.error, h.next)
    else if Counted(h, p) < h.length then PayloadAt(data, p + 4 + h.length, h)
    else Returns(None, None, h.length, h.next)
  }

  /** The last part of a call: the length, which is skipped, and the bytes up to `end`. */
  function PayloadAt(data: seq<byte>, end: nat, h: Header): (r: Call)
    requires h.Header? && h.next <= |data|
    ensures r.Returns? ==> h.next <= r.next <= |data| && (r.err == Some(Eof) ==> r.next == |data|)
    ensures r.Returns? && r.rec.Some? ==> (r.rec.value.Whole() <==> r.err.None?)
  {
    match NumberAt(data, h.next)
    case Missing(e, k) => Fails(e, k)
    case Got(_, k) =>
      if end < k then Panics
      else
        var stop := if end <= |data| then end else |data|;
        var rec := Filled(Signed(W32, h.dataType % TWO_32), Signed(W64, h.timestamp), data[k..stop], end - k);
        if stop == end then Returns(Some(rec), None, h.length, end)
        else Returns(Some(rec), Some(if k == |data| then Eof else CutShort), 0, |data|)
  }

  /** The buffered reader of a plugin's pipe. */
  class Reader {
    const data: seq<byte>
    var pos: nat

    constructor (bytes: seq<byte>)
      ensures data == bytes && pos == 0
    {
      data, pos := bytes, 0;
    }

    ghost predicate Valid()
      reads this
    {
      pos <= |data|
    }

    method Discard() returns (ok: bool)
      requires Valid()
      modifies this`pos
      ensures Valid()
      ensures ok == (old(pos) < |data|) && pos == if ok then old(pos) + 1 else old(pos)
    {
      ok := pos < |data|;
      if ok {
        pos := pos + 1;
      }
    }

    /** io.ReadFull: as many as `n` bytes, with the error that says whether none or some were there. */
    method ReadFull(n: nat) returns (read: seq<byte>, err: Option<Failure>)
      requires Valid()
      modifies this`pos
      ensures Valid()
      ensures pos == (if old(pos) + n <= |data| then old(pos) + n else |data|) && read == data[old(pos)..pos]
      ensures err == if |read| == n then None else if |read| == 0 then Some(Eof) else Some(CutShort)
    {
      var stop := if pos + n <= |data| then pos + n else |data|;
      read := data[pos..stop];
      pos := stop;
      err := if |read| == n then None else if |read| == 0 then Some(Eof) else Some(CutShort);
    }

    /** readVarint of agent/plugin/protocol.go: one byte at a time, counting them. */
    method NextVarint() returns (r: Numeral, eaten: nat)
      requires Valid()
      modifies this`pos
      ensures Valid()
      ensures r == NumberAt(data, old(pos)) && pos == r.next && eaten == r.next - old(pos)
    {
      hide BitOr, Shl, Pow2;
      var acc: nat, shift: nat := 0, 0;
      eaten := 0;
      ghost var start, sum: nat := pos, 0;
      ContinuesStart(data, start);
      while true
        invariant Valid() && pos == start + eaten && shift == 7 * eaten && eaten <= 10
        invariant acc < Pow2(shift) && acc == sum % TWO_64
        invariant Continues(data, start, pos, eaten, sum)
        decreases |data| - pos
      {
        if shift >= 64 {
          return Missing(Overlong, pos), eaten;
        }
        if pos >= |data| {
          return Missing(Eof, pos), eaten;
        }
        ContinuesStep(data, start, pos, eaten, sum);
        var b := data[pos];
        pos := pos + 1;
        OrRound(W64, acc, sum, b % 128, shift);
        eaten := eaten + 1;
        acc := BitOr(acc, Shl(W64, b % 128, shift));
        sum := sum + (b % 128) * Pow2(shift);
        if b < 128 {
          return Got(acc, pos), eaten;
        }
        shift := shift + 7;
      }
    }

    /** ReceiveData, with the byte counting of the source. */
    method ReceiveData() returns (rec: Option<Filled>, err: Option<Failure>, panicked: bool)
      requires Valid()
      modifies this`pos
      ensures Valid()
      ensures match ReceiveAt(data, old(pos))
              case Panics => panicked
              case Returns(x, e, _, next) => !panicked && rec == x && err == e && pos == next
    {
      hide NumberAt, Signed, FromLittleEndian;
      rec, err, panicked := None, Some(Eof), false;
      var head, failed := ReadFull(4);
      if failed.Some? {
        err := failed;
        return;
      }
      var l := FromLittleEndian(head);
      var ok := Discard();
      if !ok {
        return;
      }
      var te := 1;
      var dt, e := NextVarint();
      if dt.Missing? {
        err := Some(dt.error);
        return;
      }
      ok := Discard();
      if !ok {
        return;
      }
      te := te + e + 1;
      var ts;
      ts, e := NextVarint();
      if ts.Missing? {
        err := Some(ts.error);
        return;
      }
      ok := Discard();
      if !ok {
        return;
      }
      te := te + e + 1;
      if te < l {
        var len;
        len, e := NextVarint();
        if len.Missing? {
          err := Some(len.error);
          return;
        }
        te := te + e;
        var ne := (l as int) - te;
        if ne < 0 {
          panicked := true;
          return;
        }
        var read;
        read, failed := ReadFull(ne);
        rec := Some(Filled(Signed(W32, dt.value % TWO_32), Signed(W64, ts.value), read, ne));
        if failed.Some? {
          err := failed;
          return;
        }
      }
      err := None;
    }
  }

  /** ReceiveData panics exactly when the announced length ends behind the tag of the payload but inside the varint
      that follows it. */
  lemma PanicsExactly(data: seq<byte>, p: nat)
    requires p <= |data|
    ensures ReceiveAt(data, p).Panics? <==>
            var h := HeaderAt(data, p);
            && h.Header? && h.next < p + 4 + h.length
            && NumberAt(data, h.next).Got? && p + 4 + h.length < NumberAt(data, h.next).next
  {
    hide HeaderAt, NumberAt, Signed;
  }

  // ----- Records as the plugin library builds them: no unknown fields around the payload

  /** The record with the payload left encoded. */
  function Splice(m: Record, ks: seq<Text>): EncodedRecord
    requires m.data.Some? ==> forall k <- ks :: k in m.data.value.known.fields
    requires m.data.Some? ==> WriteableAll(PayloadMsg(m.data.value, ks).fields)
  {
    EncodedRecord(m.dataType, m.timestamp, if m.data.Some? then Encode(PayloadMsg(m.data.value, ks)) else [])
  }

  /** A record whose numbers fit and whose frame length fits a uint32. */
  ghost predicate Sendable(m: Record, ks: seq<Text>) {
    && IsRecordOrder(m, ks)
    && FitsSigned(W32, m.dataType) && FitsSigned(W64, m.timestamp)
    && (m.data.Some? ==> ValidPayload(m.data.value) && WriteableAll(PayloadMsg(m.data.value, ks).fields))
    && WriteableAll(RecordFields(m, ks))
    && Size(Msg(RecordFields(m, ks), [])) < TWO_32
  }

  /** A record all of whose fields are on the wire. */
  predicate Complete(m: Record) {
    m.dataType != 0 && m.timestamp != 0 && m.data.Some?
  }

  ghost function DataBytes(m: Record, ks: seq<Text>): seq<byte>
    requires Sendable(m, ks)
  {
    if m.data.Some? then Part(0x1a, Encode(PayloadMsg(m.data.value, ks))) else []
  }

  /** The bytes of a record without unknown fields, part by part. */
  lemma RecordParts(m: Record, ks: seq<Text>)
    requires Sendable(m, ks)
    ensures Encode(Msg(RecordFields(m, ks), [])) ==
            NumberPart(0x08, m.dataType) + NumberPart(0x10, m.timestamp) + DataBytes(m, ks)
    ensures |Encode(Msg(RecordFields(m, ks), []))| < TWO_32
  {
    hide WriteableAll, EncodeFields, PayloadMsg, NumberPart, Part, PayloadBytes;
    RecordLaidOut(Message(m, []), ks);
    if m.data.Some? { PayloadLaidOut(m.data.value, ks); }
    SizeIsLength(Msg(RecordFields(m, ks), []));
  }

  lemma LittleEndianInverse(n: nat)
    requires n < TWO_32
    ensures FromLittleEndian(LittleEndian(n)) == n
  {
    var a, b, c := n / 256, n / 65536, n / 16777216;
    assert b == a / 256 && c == b / 256;
    assert n == 256 * a + n % 256 && a == 256 * b + a % 256 && b == 256 * c + b % 256;
  }

  /** The frame of a record lies at `p`. */
  ghost predicate FramedAt(data: seq<byte>, p: nat, m: Record, ks: seq<Text>) {
    Sendable(m, ks) && At(data, p, FrameOf(Msg(RecordFields(m, ks), [])))
  }

  lemma FrameParts(data: seq<byte>, p: nat, m: Record, ks: seq<Text>)
    requires FramedAt(data, p, m, ks)
    ensures var body := NumberPart(0x08, m.dataType) + NumberPart(0x10, m.timestamp) + DataBytes(m, ks);
            && p + 4 + |body| <= |data| && FromLittleEndian(data[p..p + 4]) == |body| < TWO_32
            && At(data, p + 4, body)
  {
    hide WriteableAll, EncodeFields, RecordFields, NumberPart, DataBytes, FromLittleEndian, Size;
    var msg := Msg(RecordFields(m, ks), []);
    RecordParts(m, ks);
    SizeIsLength(msg);
    var head := LittleEndian(Wrap32(Size(msg)));
    AtSplit(data, p, head, Encode(msg));
    LittleEndianInverse(Wrap32(Size(msg)));
  }

  // ----- In step

  /** A complete record is received as sent, and reading stops at the end of its frame. */
  lemma CompleteReceived(data: seq<byte>, p: nat, m: Record, ks: seq<Text>)
    requires p <= |data| && FramedAt(data, p, m, ks) && Complete(m)
    ensures var size := Size(Msg(RecordFields(m, ks), []));
            ReceiveAt(data, p) == Returns(Some(Full(Splice(m, ks))), None, size, p + 4 + size)
  {
    hide WriteableAll, EncodeFields, RecordFields, PayloadMsg, HeaderAt, NumberAt, Signed, Unsigned, SizeFields,
         NumberPart, Part, At, FromLittleEndian;
    var payload := Encode(PayloadMsg(m.data.value, ks));
    var front := NumberPart(0x08, m.dataType) + NumberPart(0x10, m.timestamp);
    FrameParts(data, p, m, ks);
    RecordParts(m, ks);
    SizeIsLength(Msg(RecordFields(m, ks), []));
    AtSplit(data, p + 4, front, Part(0x1a, payload));
    PartLonger(payload);
    HeaderReceived(data, p, m.dataType, m.timestamp);
    TaggedPayload(data, p + 4 + |front|, payload);
    Restored(m);
  }

  lemma NumberReceived(data: seq<byte>, i: nat, tag: byte, x: int)
    requires x != 0 && At(data, i, NumberPart(tag, x))
    ensures i + |NumberPart(tag, x)| <= |data| && 1 < |NumberPart(tag, x)|
    ensures NumberAt(data, i + 1) == Got(Unsigned(x), i + |NumberPart(tag, x)|)
  {
    hide VarintBytes, DecodeVarint, Unsigned;
    TaggedNumber(data, i, tag, Unsigned(x));
  }

  /** Both numbers, where they are on the wire, are read back; the header ends behind the tag that follows them. */
  lemma HeaderReceived(data: seq<byte>, p: nat, x: int, y: int)
    requires x != 0 && y != 0
    requires var front := NumberPart(0x08, x) + NumberPart(0x10, y); p + 4 + |front| < |data| && At(data, p + 4, front)
    ensures var front := NumberPart(0x08, x) + NumberPart(0x10, y);
            HeaderAt(data, p) == Header(FromLittleEndian(data[p..p + 4]), Unsigned(x), Unsigned(y), p + 5 + |front|)
  {
    hide FromLittleEndian, NumberAt, NumberPart, Unsigned, At;
    var a, b := NumberPart(0x08, x), NumberPart(0x10, y);
    AtSplit(data, p + 4, a, b);
    NumberReceived(data, p + 4, 0x08, x);
    NumberReceived(data, p + 4 + |a|, 0x10, y);
  }

  lemma Restored(m: Record)
    requires FitsSigned(W32, m.dataType) && FitsSigned(W64, m.timestamp)
    ensures Signed(W32, Unsigned(m.dataType) % TWO_32) == m.dataType
    ensures Signed(W64, Unsigned(m.timestamp)) == m.timestamp
  {
    SignedUndoesUnsigned(W32, m.dataType);
    SignedUndoesUnsigned(W64, m.timestamp);
  }

  lemma TaggedNumber(data: seq<byte>, i: nat, tag: byte, v: nat)
    requires v < TWO_64 && At(data, i, [tag] + VarintBytes(v))
    ensures i + 1 <= |data| && DecodeVarint(W64, data, i + 1) == Ok(Read(v, i + 1 + |VarintBytes(v)|))
  {
    AtSplit(data, i, [tag], VarintBytes(v));
    DecodeUndoesEncode64(data, i + 1, v);
  }

  lemma TaggedPayload(data: seq<byte>, i: nat, payload: seq<byte>)
    requires |payload| < TWO_32 && At(data, i, Part(0x1a, payload))
    ensures var k := i + 1 + |VarintBytes(|payload|)|;
            && i + 1 <= |data| && DecodeVarint(W64, data, i + 1) == Ok(Read(|payload|, k))
            && NumberAt(data, i + 1) == Got(|payload|, k)
            && k + |payload| == i + |Part(0x1a, payload)| <= |data|
            && data[k..k + |payload|] == payload
  {
    hide VarintBytes, DecodeVarint;
    assert Part(0x1a, payload) == LengthDelimited(3, payload);
    DelimitedSplit(data, i, 3, payload);
    AtSplit(data, i + 1, VarintBytes(|payload|), payload);
    DecodeUndoesEncode64(data, i + 1, |payload|);
  }

  // ----- and only then

  /** Receiving `rec` means: both numbers were read where ReceiveData looks for them, inside the frame. */
  lemma ReceivedMeans(data: seq<byte>, p: nat, rec: EncodedRecord, l: nat, next: nat)
    requires p <= |data| && ReceiveAt(data, p) == Returns(Some(Full(rec)), None, l, next)
    ensures p + 5 <= |data| && DecodeVarint(W64, data, p + 5).Ok?
    ensures var dt := DecodeVarint(W64, data, p + 5).value;
            && rec.dataType == Signed(W32, dt.value % TWO_32)
            && dt.next + 1 <= |data| && DecodeVarint(W64, data, dt.next + 1).Ok?
            && var ts := DecodeVarint(W64, data, dt.next + 1).value;
               && rec.timestamp == Signed(W64, ts.value)
               && ts.next + 1 - (p + 4) < l == FromLittleEndian(data[p..p + 4])
  {
    hide DecodeVarint, Signed;
  }

  /** The first number ReceiveData reads is that of the first field present. */
  lemma FirstNumber(data: seq<byte>, p: nat, m: Record, ks: seq<Text>)
    requires FramedAt(data, p, m, ks)
    ensures m.dataType != 0 ==>
              && p + 5 <= |data|
              && DecodeVarint(W64, data, p + 5) == Ok(Read(Unsigned(m.dataType), p + 4 + |NumberPart(0x08, m.dataType)|))
    ensures m.dataType == 0 && m.timestamp != 0 ==>
              && p + 5 <= |data|
              && DecodeVarint(W64, data, p + 5) == Ok(Read(Unsigned(m.timestamp), p + 4 + |NumberPart(0x10, m.timestamp)|))
    ensures m.dataType == 0 && m.timestamp == 0 && m.data.Some? ==>
              var payload := Encode(PayloadMsg(m.data.value, ks));
              p + 5 <= |data| && DecodeVarint(W64, data, p + 5) == Ok(Read(|payload|, p + 5 + |VarintBytes(|payload|)|))
  {
    hide PayloadMsg, VarintBytes, DecodeVarint, Unsigned, RecordFields, WriteableAll, EncodeFields;
    var a, b, c := NumberPart(0x08, m.dataType), NumberPart(0x10, m.timestamp), DataBytes(m, ks);
    FrameParts(data, p, m, ks);
    AtSplit(data, p + 4, a + b, c);
    AtSplit(data, p + 4, a, b);
    if m.dataType != 0 {
      TaggedNumber(data, p + 4, 0x08, Unsigned(m.dataType));
    } else if m.timestamp != 0 {
      TaggedNumber(data, p + 4, 0x10, Unsigned(m.timestamp));
    } else if m.data.Some? {
      TaggedPayload(data, p + 4, Encode(PayloadMsg(m.data.value, ks)));
    }
  }

  /** The second number is the time when both numbers are present, else the payload's length. */
  lemma SecondNumber(data: seq<byte>, p: nat, m: Record, ks: seq<Text>)
    requires FramedAt(data, p, m, ks)
    ensures var i := p + 4 + |NumberPart(0x08, m.dataType)| + 1;
            m.dataType != 0 && m.timestamp != 0 ==>
              && i <= |data|
              && DecodeVarint(W64, data, i) == Ok(Read(Unsigned(m.timestamp), i - 1 + |NumberPart(0x10, m.timestamp)|))
  {
    hide PayloadMsg, VarintBytes, DecodeVarint, Unsigned, RecordFields, WriteableAll, EncodeFields;
    var a, b, c := NumberPart(0x08, m.dataType), NumberPart(0x10, m.timestamp), DataBytes(m, ks);
    FrameParts(data, p, m, ks);
    AtSplit(data, p + 4, a + b, c);
    AtSplit(data, p + 4, a, b);
    if m.dataType != 0 && m.timestamp != 0 { TaggedNumber(data, p + 4 + |a|, 0x10, Unsigned(m.timestamp)); }
  }

  /** With one of the numbers missing, what follows the other is the payload. */
  lemma LengthSecond(data: seq<byte>, p: nat, m: Record, ks: seq<Text>)
    requires FramedAt(data, p, m, ks) && m.data.Some?
    ensures var i := p + 4 + |NumberPart(0x08, m.dataType)| + |NumberPart(0x10, m.timestamp)| + 1;
            (m.dataType == 0) != (m.timestamp == 0) ==>
              var payload := Encode(PayloadMsg(m.data.value, ks));
              i <= |data| && DecodeVarint(W64, data, i) == Ok(Read(|payload|, i + |VarintBytes(|payload|)|))
  {
    hide PayloadMsg, VarintBytes, DecodeVarint, NumberPart, RecordFields, WriteableAll, EncodeFields;
    var a, b, c := NumberPart(0x08, m.dataType), NumberPart(0x10, m.timestamp), DataBytes(m, ks);
    FrameParts(data, p, m, ks);
    AtSplit(data, p + 4, a + b, c);
    TaggedPayload(data, p + 4 + |a + b|, Encode(PayloadMsg(m.data.value, ks)));
  }

  /** Without a payload the tag that ReceiveData discards behind the second number is outside the
      frame, so no record comes out. */
  lemma NilDataNotReceived(data: seq<byte>, p: nat, m: Record, ks: seq<Text>, rec: EncodedRecord, l: nat, next: nat)
    requires p <= |data| && FramedAt(data, p, m, ks) && m.data.None?
    ensures ReceiveAt(data, p) != Returns(Some(Full(rec)), None, l, next)
  {
    hide VarintBytes, DecodeVarint, RecordFields, WriteableAll, EncodeFields, FromLittleEndian, SizeFields, ReceiveAt,
         Signed, Unsigned, NumberPart;
    FrameParts(data, p, m, ks);
    FirstNumber(data, p, m, ks);
    SecondNumber(data, p, m, ks);
    assert m.dataType == 0 ==> NumberPart(0x08, m.dataType) == [] by { NoPart(0x08); }
    assert m.timestamp == 0 ==> NumberPart(0x10, m.timestamp) == [] by { NoPart(0x10); }
    if ReceiveAt(data, p) == Returns(Some(Full(rec)), None, l, next) {
      ReceivedMeans(data, p, rec, l, next);
    }
  }

  /** A record with a type and a time but no payload makes ReceiveData return nil and leaves the pipe one byte inside
      the next frame; if there is no such byte yet, the pipe has ended. */
  lemma NilDataOvershoots(data: seq<byte>, p: nat, m: Record, ks: seq<Text>)
    requires p <= |data| && FramedAt(data, p, m, ks) && m.data.None? && m.dataType != 0 && m.timestamp != 0
    ensures var size := Size(Msg(RecordFields(m, ks), []));
            ReceiveAt(data, p) ==
            if p + 4 + size < |data| then Returns(None, None, size, p + 4 + size + 1) else Fails(Eof, |data|)
  {
    hide WriteableAll, EncodeFields, RecordFields, SizeFields, NumberPart, Unsigned, At, FromLittleEndian, NumberAt, PayloadAt;
    var a, b := NumberPart(0x08, m.dataType), NumberPart(0x10, m.timestamp);
    FrameParts(data, p, m, ks);
    RecordParts(m, ks);
    SizeIsLength(Msg(RecordFields(m, ks), []));
    assert a + b + [] == a + b;
    AtSplit(data, p + 4, a, b);
    NumberReceived(data, p + 4, 0x08, m.dataType);
    NumberReceived(data, p + 4 + |a|, 0x10, m.timestamp);
  }

  lemma NoPart(tag: byte)
    ensures NumberPart(tag, 0) == []
  {
  }

  /** A length read as a time, or a time read as a type, is not what was sent. */
  lemma NumbersMixedUp(t: int, n: nat)
    requires FitsSigned(W64, t) && t != 0 && n < TWO_32
    ensures !(Signed(W32, Unsigned(t) % TWO_32) == 0 && Signed(W64, n) == t)
  {
  }

  lemma NoTypeNotReceived(data: seq<byte>, p: nat, m: Record, ks: seq<Text>, l: nat, next: nat)
    requires p <= |data| && FramedAt(data, p, m, ks)
    requires m.data.Some? && m.dataType == 0 && m.timestamp != 0
    ensures ReceiveAt(data, p) != Returns(Some(Full(Splice(m, ks))), None, l, next)
  {
    hide VarintBytes, DecodeVarint, RecordFields, WriteableAll, EncodeFields, FromLittleEndian, SizeFields, ReceiveAt,
         Signed, Unsigned, NumberPart, PayloadMsg;
    var payload := Encode(PayloadMsg(m.data.value, ks));
    FirstNumber(data, p, m, ks);
    SecondNumber(data, p, m, ks);
    LengthSecond(data, p, m, ks);
    assert NumberPart(0x08, 0) == [] by { NoPart(0x08); }
    FrameParts(data, p, m, ks);
    NumbersMixedUp(m.timestamp, |payload|);
    if ReceiveAt(data, p) == Returns(Some(Full(Splice(m, ks))), None, l, next) {
      ReceivedMeans(data, p, Splice(m, ks), l, next);
    }
  }

  lemma ZeroLength(n: nat)
    requires n < TWO_32
    ensures Signed(W32, n % TWO_32) == 0 || Signed(W64, n) == 0 ==> n == 0
    ensures VarintBytes(0) == [0] && Part(0x1a, []) == [0x1a, 0]
  {
    assert VarintBytes(0) == [0];
  }

  lemma NoTimeNotReceived(data: seq<byte>, p: nat, m: Record, ks: seq<Text>, l: nat, next: nat)
    requires p <= |data| && FramedAt(data, p, m, ks)
    requires m.data.Some? && m.timestamp == 0
    ensures ReceiveAt(data, p) != Returns(Some(Full(Splice(m, ks))), None, l, next)
  {
    hide VarintBytes, DecodeVarint, RecordFields, WriteableAll, EncodeFields, FromLittleEndian, SizeFields, ReceiveAt,
         Signed, Unsigned, NumberPart, PayloadMsg, Part;
    var payload := Encode(PayloadMsg(m.data.value, ks));
    FirstNumber(data, p, m, ks);
    SecondNumber(data, p, m, ks);
    LengthSecond(data, p, m, ks);
    NoPart(0x08);
    NoPart(0x10);
    FrameParts(data, p, m, ks);
    assert |payload| < TWO_32 by { PartLonger(payload); }
    ZeroLength(|payload|);
    if ReceiveAt(data, p) == Returns(Some(Full(Splice(m, ks))), None, l, next) {
      ReceivedMeans(data, p, Splice(m, ks), l, next);
    }
  }

  lemma PartLonger(payload: seq<byte>)
    ensures |payload| < |Part(0x1a, payload)|
  {
  }

  /** A record without type, time or payload is never received as sent. */
  lemma IncompleteNotReceived(data: seq<byte>, p: nat, m: Record, ks: seq<Text>, l: nat, next: nat)
    requires p <= |data| && FramedAt(data, p, m, ks) && !Complete(m)
    ensures ReceiveAt(data, p) != Returns(Some(Full(Splice(m, ks))), None, l, next)
  {
    if m.data.None? {
      NilDataNotReceived(data, p, m, ks, Splice(m, ks), l, next);
    } else if m.timestamp == 0 {
      NoTimeNotReceived(data, p, m, ks, l, next);
    } else {
      NoTypeNotReceived(data, p, m, ks, l, next);
    }
  }

  /** ReceiveData takes a framed record off the pipe as it was sent, leaving the pipe at the next
      frame, exactly when its type and its time are not zero and it has a payload. */
  lemma InStepExactly(data: seq<byte>, p: nat, m: Record, ks: seq<Text>)
    requires p <= |data| && FramedAt(data, p, m, ks)
    ensures var size := Size(Msg(RecordFields(m, ks), []));
            ReceiveAt(data, p) == Returns(Some(Full(Splice(m, ks))), None, size, p + 4 + size) <==> Complete(m)
  {
    hide ReceiveAt, Splice, RecordFields, WriteableAll, SizeFields, FrameOf;
    var size := Size(Msg(RecordFields(m, ks), []));
    if Complete(m) {
      CompleteReceived(data, p, m, ks);
    } else {
      IncompleteNotReceived(data, p, m, ks, size, p + 4 + size);
    }
  }

  // ----- Splicing

  /** The EncodedRecord that ReceiveData and WriteRecord build marshals to the very bytes of the
      original Record, unless the payload is empty. */
  lemma SpliceBytes(m: Record, ks: seq<Text>)
    requires Sendable(m, ks) && m.data.Some?
    ensures var e := EncodedRecordMsg(Message(Splice(m, ks), []));
            && WriteableAll(e.fields)
            && (Encode(e) == Encode(Msg(RecordFields(m, ks), [])) <==> Splice(m, ks).data != [])
  {
    hide RecordFields, PayloadMsg, WriteableAll, EncodeFields, NumberPart, VarintBytes, EncodedRecordMsg;
    EncodedRecordLaidOut(Message(Splice(m, ks), []));
    RecordParts(m, ks);
  }

  /** The server, reading the spliced bytes as a Record, gets the plugin's Record back. */
  lemma SpliceKeepsMeaning(m: Record, ks: seq<Text>)
    requires Sendable(m, ks) && m.data.Some? && Splice(m, ks).data != []
    ensures var e := EncodedRecordMsg(Message(Splice(m, ks), []));
            && WriteableAll(e.fields) && IsSlice(Encode(e))
            && DecodeMsg(RecordDesc(), Message(NoRecord, []), Encode(e), 0) == Ok(Message(m, []))
  {
    hide DecodeMsg, RecordFields, PayloadMsg, WriteableAll, EncodeFields, EncodedRecordFields, Splice;
    SpliceBytes(m, ks);
    RecordParts(m, ks);
    assert Keepable(RecordDesc(), []) by {
      assert ForeignAll(RecordDesc(), []) && BytesAll([]) == [];
    }
    RecordRoundTrip(Message(m, []), ks);
  }
}
