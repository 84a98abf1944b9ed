/** Unmarshal undoes Marshal, for any message type: what the loop makes of written fields and of
    unknown fields that were kept. */
module RoundTrip {
  import opened Varint
  import opened Skip
  import opened Wire
  import opened Unmarshal

  /** A map entry as Marshal writes it: key and value, even when empty. */
  function EntryMsg(key: seq<byte>, value: seq<byte>): (r: Msg)
    ensures WriteableAll(r.fields)
  {
    var fs := [BytesField(1, key), BytesField(2, value)];
    assert fs[1..][1..] == [] && WriteableField(fs[1..][0]);
    assert WriteableAll(fs[1..]);
    Msg(fs, [])
  }

  lemma EntryBytes(key: seq<byte>, value: seq<byte>)
    ensures Encode(EntryMsg(key, value)) == LengthDelimited(1, key) + LengthDelimited(2, value)
  {
    var fs := EntryMsg(key, value).fields;
    assert fs[1..][1..] == [];
    assert EncodeFields(fs[1..]) == EncodeField(fs[1..][0]) + EncodeFields([]) == LengthDelimited(2, value);
    assert EncodeFields(fs) == EncodeField(fs[0]) + EncodeFields(fs[1..]);
  }

  predicate IsEntry(msg: Msg) {
    |msg.fields| == 2 && msg.fields[0].BytesField? && msg.fields[1].BytesField? &&
    msg == EntryMsg(msg.fields[0].data, msg.fields[1].data)
  }

  /** The bytes behind the length of a length-delimited field. */
  function Payload(f: Field): seq<byte>
    requires WriteableField(f) && !f.VarintField?
  {
    if f.BytesField? then f.data else Encode(f.msg)
  }

  lemma EncodeDelimited(f: Field)
    requires WriteableField(f) && !f.VarintField?
    ensures EncodeField(f) == LengthDelimited(f.num, Payload(f))
    ensures |EncodeField(f)| == 1 + |VarintBytes(|Payload(f)|)| + |Payload(f)|
  {
  }

  /** What the switch of `d` makes of one written field. */
  function Apply<M>(d: Desc<M>, known: M, f: Field): Result<M>
    requires WriteableField(f)
  {
    match d.kind(f.num)
    case Number(width) =>
      if f.VarintField? then Ok(d.setNumber(known, f.num, f.value % width.Modulus())) else Err(WrongWireType)
    case Delimited =>
      if f.VarintField? then Err(WrongWireType)
      else d.setDelimited(known, f.num, Payload(f))
    case MapEntry =>
      if f.MsgField? && IsEntry(f.msg) then Ok(d.setEntry(known, f.num, f.msg.fields[0].data, f.msg.fields[1].data))
      else Err(WrongWireType)
    case Absent => Err(IllegalTag)
  }

  function Fold<M>(d: Desc<M>, known: M, fs: seq<Field>): Result<M>
    requires WriteableAll(fs)
  {
    if fs == [] then Ok(known)
    else
      var k :- Apply(d, known, fs[0]);
      Fold(d, k, fs[1..])
  }

  lemma {:induction false} FoldConcat<M>(d: Desc<M>, known: M, a: seq<Field>, b: seq<Field>)
    requires WriteableAll(a) && WriteableAll(b) && Fold(d, known, a).Ok?
    ensures WriteableAll(a + b) && Fold(d, known, a + b) == Fold(d, Fold(d, known, a).value, b)
  {
    WriteableConcat(a, b);
    if a == [] {
      assert a + b == b;
    } else {
      assert (a + b)[1..] == a[1..] + b;
      FoldConcat(d, Apply(d, known, a[0]).value, a[1..], b);
    }
  }

  // ----- One written field

  lemma TagRead(data: seq<byte>, i: nat, num: nat, wireType: nat)
    requires ShortTag(num) && wireType < 8 && At(data, i, [Tag(num, wireType)])
    ensures DecodeVarint(W64, data, i) == Ok(Read(num * 8 + wireType, i + 1))
    ensures FieldNum(num * 8 + wireType) == num && (num * 8 + wireType) % 8 == wireType
  {
    var tag: nat := num * 8 + wireType;
    assert VarintBytes(tag) == [tag];
    DecodeUndoesEncode64(data, i, tag);
  }

  lemma LengthRead(data: seq<byte>, i: nat, payload: seq<byte>)
    requires IsSlice(data) && At(data, i, VarintBytes(|payload|) + payload)
    ensures var k := i + |VarintBytes(|payload|)|;
            && DecodeLength(data, i) == Ok((k, k + |payload|))
            && data[k..k + |payload|] == payload
  {
    hide VarintBytes, DecodeVarint;
    var n := |payload|;
    AtSplit(data, i, VarintBytes(n), payload);
    DecodeUndoesEncode64(data, i, n);
  }

  /** The tag and the payload of a length-delimited field have been read. */
  ghost predicate Opened(data: seq<byte>, i: nat, num: nat, payload: seq<byte>, k: nat)
    requires IsSlice(data) && i < |data|
  {
    && DecodeVarint(W64, data, i) == Ok(Read(num * 8 + 2, i + 1))
    && FieldNum(num * 8 + 2) == num
    && DecodeLength(data, i + 1) == Ok((k, k + |payload|))
    && data[k..k + |payload|] == payload
  }

  lemma DelimitedSplit(data: seq<byte>, i: nat, num: nat, payload: seq<byte>)
    requires ShortTag(num) && At(data, i, LengthDelimited(num, payload))
    ensures At(data, i, [Tag(num, 2)]) && At(data, i + 1, VarintBytes(|payload|) + payload)
  {
    var len := VarintBytes(|payload|);
    Reassociate([Tag(num, 2)], len, payload);
    AtSplit(data, i, [Tag(num, 2)], len + payload);
  }

  lemma DelimitedRead(data: seq<byte>, i: nat, num: nat, payload: seq<byte>)
    requires IsSlice(data) && ShortTag(num) && At(data, i, LengthDelimited(num, payload))
    ensures i < |data| && Opened(data, i, num, payload, i + 1 + |VarintBytes(|payload|)|)
  {
    hide VarintBytes, DecodeVarint, DecodeLength;
    DelimitedSplit(data, i, num, payload);
    TagRead(data, i, num, 2);
    LengthRead(data, i + 1, payload);
  }

  /** The two fields of a written map entry give back its key and value. */
  lemma EntryRead(data: seq<byte>, i: nat, key: seq<byte>, value: seq<byte>)
    requires IsSlice(data) && At(data, i, Encode(EntryMsg(key, value)))
    ensures DecodeEntry(data, i, i + |Encode(EntryMsg(key, value))|, [], []) == Ok((key, value))
  {
    hide VarintBytes, DecodeVarint, DecodeLength, EncodeFields;
    var a, b := LengthDelimited(1, key), LengthDelimited(2, value);
    EntryBytes(key, value);
    AtSplit(data, i, a, b);
    DelimitedRead(data, i, 1, key);
    DelimitedRead(data, i + |a|, 2, value);
    var post := i + |a + b|;
    assert DecodeEntry(data, post, post, key, value) == Ok((key, value));
    assert DecodeEntry(data, i + |a|, post, key, []) == DecodeEntry(data, post, post, key, value);
  }

  lemma NumberStep<M>(d: Desc<M>, m: Message<M>, data: seq<byte>, i: nat, f: Field)
    requires IsSlice(data) && WriteableField(f) && f.VarintField? && At(data, i, EncodeField(f))
    requires Apply(d, m.known, f).Ok?
    ensures Step(d, m, data, i) == Ok(Parsed(m.(known := Apply(d, m.known, f).value), i + |EncodeField(f)|))
  {
    hide DecodeVarint, VarintBytes, FieldNum;
    AtSplit(data, i, [Tag(f.num, 0)], VarintBytes(f.value));
    TagRead(data, i, f.num, 0);
    DecodeUndoesEncode(d.kind(f.num).width, data, i + 1, f.value);
  }

  lemma StepOfDelimited<M>(d: Desc<M>, m: Message<M>, data: seq<byte>, i: nat, num: nat, payload: seq<byte>, k: nat)
    requires IsSlice(data) && i < |data| && num > 0 && Opened(data, i, num, payload, k)
    ensures d.kind(num).Delimited? ==>
              Step(d, m, data, i) == match d.setDelimited(m.known, num, payload)
                                     case Err(e) => Err(e)
                                     case Ok(known) => Ok(Parsed(m.(known := known), k + |payload|))
    ensures d.kind(num).MapEntry? && DecodeEntry(data, k, k + |payload|, [], []).Ok? ==>
              var kv := DecodeEntry(data, k, k + |payload|, [], []).value;
              Step(d, m, data, i) == Ok(Parsed(m.(known := d.setEntry(m.known, num, kv.0, kv.1)), k + |payload|))
  {
    hide DecodeVarint, DecodeLength, DecodeEntry, FieldNum;
    assert (num * 8 + 2) % 8 == 2;
  }

  lemma DelimitedStep<M>(d: Desc<M>, m: Message<M>, data: seq<byte>, i: nat, f: Field)
    requires IsSlice(data) && WriteableField(f) && d.kind(f.num).Delimited? && At(data, i, EncodeField(f))
    requires Apply(d, m.known, f).Ok?
    ensures Step(d, m, data, i) == Ok(Parsed(m.(known := Apply(d, m.known, f).value), i + |EncodeField(f)|))
  {
    hide Step, VarintBytes, EncodeField;
    var payload := Payload(f);
    EncodeDelimited(f);
    DelimitedRead(data, i, f.num, payload);
    StepOfDelimited(d, m, data, i, f.num, payload, i + 1 + |VarintBytes(|payload|)|);
  }

  lemma EntryStep<M>(d: Desc<M>, m: Message<M>, data: seq<byte>, i: nat, num: nat, key: seq<byte>, value: seq<byte>)
    requires IsSlice(data) && ShortTag(num) && d.kind(num).MapEntry?
    requires At(data, i, LengthDelimited(num, Encode(EntryMsg(key, value))))
    ensures i < |data|
    ensures Step(d, m, data, i) == Ok(Parsed(m.(known := d.setEntry(m.known, num, key, value)),
                                             i + |LengthDelimited(num, Encode(EntryMsg(key, value)))|))
  {
    hide Step, VarintBytes, DecodeEntry, DecodeLength, DecodeVarint, EntryMsg, EncodeFields;
    var payload := Encode(EntryMsg(key, value));
    var k := i + 1 + |VarintBytes(|payload|)|;
    DelimitedRead(data, i, num, payload);
    assert At(data, k, payload);
    EntryRead(data, k, key, value);
    StepOfDelimited(d, m, data, i, num, payload, k);
  }

  lemma FieldStep<M>(d: Desc<M>, m: Message<M>, data: seq<byte>, i: nat, f: Field)
    requires IsSlice(data) && WriteableField(f) && At(data, i, EncodeField(f))
    requires Apply(d, m.known, f).Ok?
    ensures Step(d, m, data, i) == Ok(Parsed(m.(known := Apply(d, m.known, f).value), i + |EncodeField(f)|))
  {
    hide Step, EncodeField, EncodeFields;
    match d.kind(f.num)
    case Number(_) => NumberStep(d, m, data, i, f);
    case Delimited => DelimitedStep(d, m, data, i, f);
    case MapEntry =>
      EncodeDelimited(f);
      EntryStep(d, m, data, i, f.num, f.msg.fields[0].data, f.msg.fields[1].data);
  }

  // ----- All written fields

  lemma StepThenDecode<M>(d: Desc<M>, m: Message<M>, data: seq<byte>, i: nat, m': Message<M>, k: nat)
    requires IsSlice(data) && i < |data| && Step(d, m, data, i) == Ok(Parsed(m', k))
    ensures DecodeMsg(d, m, data, i) == DecodeMsg(d, m', data, k)
  {
  }

  lemma {:induction false} FieldsDecoded<M>(d: Desc<M>, m: Message<M>, data: seq<byte>, i: nat, fs: seq<Field>, j: nat)
    requires IsSlice(data) && WriteableAll(fs) && At(data, i, EncodeFields(fs)) && j == i + |EncodeFields(fs)|
    requires Fold(d, m.known, fs).Ok?
    ensures DecodeMsg(d, m, data, i) == DecodeMsg(d, m.(known := Fold(d, m.known, fs).value), data, j)
    decreases fs
  {
    hide Step;
    if fs != [] {
      var f := fs[0];
      AtSplit(data, i, EncodeField(f), EncodeFields(fs[1..]));
      var m', k := m.(known := Apply(d, m.known, f).value), i + |EncodeField(f)|;
      FieldStep(d, m, data, i, f);
      StepThenDecode(d, m, data, i, m', k);
      FieldsDecoded(d, m', data, k, fs[1..], j);
    }
  }

  // ----- Unknown fields

  /** A well-formed field that the switch of `d` does not know. */
  ghost predicate Foreign<M>(d: Desc<M>, w: RawField) {
    && Valid(w)
    && FieldNum(ValueOf(w.tag)) > 0
    && d.kind(FieldNum(ValueOf(w.tag))).Absent?
  }

  ghost predicate ForeignAll<M>(d: Desc<M>, ws: seq<RawField>) {
    forall k :: 0 <= k < |ws| ==> Foreign(d, ws[k])
  }

  /** Bytes that Unmarshal would keep as XXX_unrecognized. */
  ghost predicate Keepable<M>(d: Desc<M>, u: seq<byte>) {
    exists ws :: ForeignAll(d, ws) && BytesAll(ws) == u
  }

  lemma SliceAt(data: seq<byte>, i: nat, s: seq<byte>)
    requires At(data, i, s)
    ensures At(data[i..], 0, s)
  {
    assert data[i..][0..|s|] == data[i..i + |s|];
  }

  lemma ForeignStep<M>(d: Desc<M>, m: Message<M>, data: seq<byte>, i: nat, w: RawField)
    requires IsSlice(data) && Foreign(d, w) && At(data, i, Bytes(w))
    ensures i < |data|
    ensures Step(d, m, data, i) == Ok(Parsed(m.(unknown := m.unknown + Bytes(w)), i + |Bytes(w)|))
  {
    hide SkipFrom, Bytes;
    TagAt(data, i, w);
    SliceAt(data, i, Bytes(w));
    FieldSkipped(data[i..], 0, w, 0, |Bytes(w)|);
  }

  lemma TagAt(data: seq<byte>, i: nat, w: RawField)
    requires Valid(w) && At(data, i, Bytes(w))
    ensures i < |data| && DecodeVarint(W64, data, i) == Ok(Read(ValueOf(w.tag), i + |w.tag|))
    ensures ValueOf(w.tag) % 8 == TypeOf(w) != 4
  {
    var rest := Bytes(w)[|w.tag|..];
    assert Bytes(w) == w.tag + rest;
    AtSplit(data, i, w.tag, rest);
    VarintAt(data, i, w.tag);
  }

  lemma {:induction false} ForeignDecoded<M>(d: Desc<M>, m: Message<M>, data: seq<byte>, i: nat, ws: seq<RawField>)
    requires IsSlice(data) && ForeignAll(d, ws) && At(data, i, BytesAll(ws)) && i + |BytesAll(ws)| == |data|
    ensures DecodeMsg(d, m, data, i) == Ok(m.(unknown := m.unknown + BytesAll(ws)))
    decreases ws
  {
    hide Step, Bytes, Valid;
    if ws == [] {
      assert m.unknown + [] == m.unknown;
    } else {
      assert ForeignAll(d, ws[1..]);
      AtSplit(data, i, Bytes(ws[0]), BytesAll(ws[1..]));
      var m', k := m.(unknown := m.unknown + Bytes(ws[0])), i + |Bytes(ws[0])|;
      ForeignStep(d, m, data, i, ws[0]);
      StepThenDecode(d, m, data, i, m', k);
      ForeignDecoded(d, m', data, k, ws[1..]);
      Reassociate(m.unknown, Bytes(ws[0]), BytesAll(ws[1..]));
    }
  }

  // ----- The whole message

  /** Unmarshal of a marshalled message folds its fields, in order, and keeps its unknown bytes. */
  lemma MessageDecoded<M>(d: Desc<M>, known: M, msg: Msg)
    requires WriteableAll(msg.fields) && IsSlice(Encode(msg)) && Keepable(d, msg.unknown)
    requires Fold(d, known, msg.fields).Ok?
    ensures DecodeMsg(d, Message(known, []), Encode(msg), 0) == Ok(Message(Fold(d, known, msg.fields).value, msg.unknown))
  {
    hide DecodeMsg, Fold, EncodeFields, BytesAll;
    var data, a := Encode(msg), EncodeFields(msg.fields);
    var ws :| ForeignAll(d, ws) && BytesAll(ws) == msg.unknown;
    assert At(data, 0, a) && At(data, |a|, msg.unknown);
    var m0, m1 := Message(known, []), Message(Fold(d, known, msg.fields).value, []);
    FieldsDecoded(d, m0, data, 0, msg.fields, |a|);
    ForeignDecoded(d, m1, data, |a|, ws);
    assert [] + msg.unknown == msg.unknown;
  }
}
