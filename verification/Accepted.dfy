/** Unmarshal as a fold over the wire format's grammar: it accepts exactly the sequences of well-formed fields whose wire
    types fit, and makes of them what each field says in turn. */
module Accepted {
  import opened Bits
  import opened Varint
  import opened Skip
  import opened Unmarshal
  import opened RoundTrip
  import opened Messages
  import opened Reencode
  import opened Wrappers

  /** What one well-formed field at `i` does to a message, if its wire type fits. A key or value of a map entry may run
      past the entry, so that the bytes behind the field count too. */
  ghost function Interpret<M>(d: Desc<M>, m: Message<M>, data: seq<byte>, i: nat, w: RawField): Option<Message<M>>
    requires Valid(w) && IsSlice(data) && At(data, i, Bytes(w))
  {
    var num := FieldNum(ValueOf(w.tag));
    if num <= 0 then None
    else
      match d.kind(num)
      case Absent => Some(m.(unknown := m.unknown + Bytes(w)))
      case Number(width) =>
        if w.WVarint? then Some(m.(known := d.setNumber(m.known, num, ValueOf(w.value) % width.Modulus()))) else None
      case Delimited =>
        if !w.WLen? then None
        else
          match d.setDelimited(m.known, num, w.payload) {
            case Err(_) => None
            case Ok(known) => Some(m.(known := known))
          }
      case MapEntry =>
        if !w.WLen? then None
        else
          match DecodeEntry(data, i + |w.tag| + |w.len|, i + |Bytes(w)|, [], [])
          case Err(_) => None
          case Ok((k, v)) => Some(m.(known := d.setEntry(m.known, num, k, v)))
  }

  /** The same of all fields from `i` on. */
  ghost function InterpretAll<M>(d: Desc<M>, m: Message<M>, data: seq<byte>, i: nat, ws: seq<RawField>): Option<Message<M>>
    requires ValidAll(ws) && IsSlice(data) && At(data, i, BytesAll(ws))
    decreases ws
  {
    if ws == [] then Some(m)
    else
      AtSplit(data, i, Bytes(ws[0]), BytesAll(ws[1..]));
      match Interpret(d, m, data, i, ws[0])
      case None => None
      case Some(m') => InterpretAll(d, m', data, i + |Bytes(ws[0])|, ws[1..])
  }

  /** The outcome of one round agrees with what its field says. */
  ghost predicate Agrees<M>(d: Desc<M>, m: Message<M>, data: seq<byte>, i: nat, w: RawField)
    requires IsSlice(data) && i < |data| && Valid(w) && At(data, i, Bytes(w))
  {
    match Interpret(d, m, data, i, w)
    case Some(m') => Step(d, m, data, i) == Ok(Parsed(m', i + |Bytes(w)|))
    case None => Step(d, m, data, i).Err?
  }

  lemma NarrowVarint(w: Width, data: seq<byte>, i: nat, s: seq<byte>)
    requires At(data, i, s) && IsVarint(s)
    ensures DecodeVarint(w, data, i) == Ok(Read(ValueOf(s) % w.Modulus(), i + |s|))
  {
    hide Septets;
    VarintAt(data, i, s);
    Narrower(w, Septets(data, i, 0).value.value);
  }

  lemma Narrower(w: Width, x: nat)
    ensures (x % TWO_64) % w.Modulus() == x % w.Modulus()
  {
    RemainderOfRemainder(x, TWO_64, 1);
    RemainderOfRemainder(x, TWO_32, TWO_32);
  }

  lemma NumberAgrees<M>(d: Desc<M>, m: Message<M>, data: seq<byte>, i: nat, w: RawField)
    requires IsSlice(data) && Valid(w) && At(data, i, Bytes(w)) && w.WVarint?
    requires FieldNum(ValueOf(w.tag)) > 0 && d.kind(FieldNum(ValueOf(w.tag))).Number?
    ensures i < |data| && Agrees(d, m, data, i, w)
  {
    hide DecodeVarint, FieldNum, ValueOf;
    TagAt(data, i, w);
    AtSplit(data, i, w.tag, w.value);
    NarrowVarint(d.kind(FieldNum(ValueOf(w.tag))).width, data, i + |w.tag|, w.value);
  }

  lemma LengthAt(data: seq<byte>, i: nat, w: RawField)
    requires IsSlice(data) && Valid(w) && w.WLen? && At(data, i, Bytes(w))
    ensures var k := i + |w.tag| + |w.len|;
            && i + |w.tag| <= |data| && DecodeLength(data, i + |w.tag|) == Ok((k, k + |w.payload|))
            && k + |w.payload| == i + |Bytes(w)| <= |data| && data[k..k + |w.payload|] == w.payload
  {
    hide DecodeVarint;
    AtSplit(data, i, w.tag + w.len, w.payload);
    AtSplit(data, i, w.tag, w.len);
    VarintAt(data, i + |w.tag|, w.len);
  }

  lemma DelimitedAgrees<M>(d: Desc<M>, m: Message<M>, data: seq<byte>, i: nat, w: RawField)
    requires IsSlice(data) && Valid(w) && At(data, i, Bytes(w)) && w.WLen?
    requires FieldNum(ValueOf(w.tag)) > 0
    requires d.kind(FieldNum(ValueOf(w.tag))).Delimited? || d.kind(FieldNum(ValueOf(w.tag))).MapEntry?
    ensures i < |data| && Agrees(d, m, data, i, w)
  {
    hide DecodeVarint, DecodeLength, DecodeEntry, FieldNum, ValueOf, Bytes;
    TagAt(data, i, w);
    LengthAt(data, i, w);
  }

  /** A field of a known number with another wire type, or with no proper number, is refused. */
  lemma OtherRefused<M>(d: Desc<M>, m: Message<M>, data: seq<byte>, i: nat, w: RawField)
    requires IsSlice(data) && Valid(w) && At(data, i, Bytes(w))
    requires var num := FieldNum(ValueOf(w.tag));
             || num <= 0 || (d.kind(num).Number? && !w.WVarint?)
             || ((d.kind(num).Delimited? || d.kind(num).MapEntry?) && !w.WLen?)
    ensures i < |data| && Agrees(d, m, data, i, w)
  {
    hide DecodeVarint, FieldNum, ValueOf, Bytes;
    TagAt(data, i, w);
  }

  lemma StepAgrees<M>(d: Desc<M>, m: Message<M>, data: seq<byte>, i: nat, w: RawField)
    requires IsSlice(data) && Valid(w) && At(data, i, Bytes(w))
    ensures i < |data| && Agrees(d, m, data, i, w)
  {
    hide Step, DecodeVarint, FieldNum, Bytes;
    var num := FieldNum(ValueOf(w.tag));
    if num > 0 && d.kind(num).Absent? {
      ForeignStep(d, m, data, i, w);
    } else if num > 0 && d.kind(num).Number? && w.WVarint? {
      NumberAgrees(d, m, data, i, w);
    } else if num > 0 && (d.kind(num).Delimited? || d.kind(num).MapEntry?) && w.WLen? {
      DelimitedAgrees(d, m, data, i, w);
    } else {
      OtherRefused(d, m, data, i, w);
    }
  }

  lemma NumberFound<M>(d: Desc<M>, m: Message<M>, data: seq<byte>, i: nat) returns (w: RawField)
    requires IsSlice(data) && i < |data| && Step(d, m, data, i).Ok?
    requires d.kind(FieldNum(DecodeVarint(W64, data, i).value.value)).Number?
    ensures Valid(w) && Bytes(w) == data[i..Step(d, m, data, i).value.next]
  {
    hide Septets, FieldNum;
    var j := DecodeVarint(W64, data, i).value.next;
    var n := Step(d, m, data, i).value.next;
    VarintFound(data, i);
    VarintFound(data, j);
    w := WVarint(data[i..j], data[j..n]);
    assert data[i..j] + data[j..n] == data[i..n];
  }

  lemma DelimitedFound<M>(d: Desc<M>, m: Message<M>, data: seq<byte>, i: nat) returns (w: RawField)
    requires IsSlice(data) && i < |data| && Step(d, m, data, i).Ok?
    requires var kind := d.kind(FieldNum(DecodeVarint(W64, data, i).value.value)); kind.Delimited? || kind.MapEntry?
    ensures Valid(w) && Bytes(w) == data[i..Step(d, m, data, i).value.next]
  {
    hide Septets, FieldNum;
    hide DecodeEntry;
    var j := DecodeVarint(W64, data, i).value.next;
    var p := DecodeLength(data, j).value;
    VarintFound(data, i);
    VarintFound(data, j);
    w := WLen(data[i..j], data[j..p.0], data[p.0..p.1]);
    assert data[i..j] + data[j..p.0] + data[p.0..p.1] == data[i..p.1];
  }

  /** What a round of the loop accepts is one well-formed field. */
  lemma StepFinds<M>(d: Desc<M>, m: Message<M>, data: seq<byte>, i: nat) returns (w: RawField)
    requires IsSlice(data) && i < |data| && Step(d, m, data, i).Ok?
    ensures Valid(w) && Bytes(w) == data[i..Step(d, m, data, i).value.next]
  {
    hide DecodeVarint, DecodeLength, DecodeEntry, SkipUnknown, FieldNum, Bytes, Foreign;
    var num := FieldNum(DecodeVarint(W64, data, i).value.value);
    if d.kind(num).Absent? {
      w := SkippedIsForeign(d, data, i, Step(d, m, data, i).value.next);
      assert Valid(w) by { ForeignIsValid(d, w); }
    } else if d.kind(num).Number? {
      w := NumberFound(d, m, data, i);
    } else {
      w := DelimitedFound(d, m, data, i);
    }
  }

  lemma ForeignIsValid<M>(d: Desc<M>, w: RawField)
    requires Foreign(d, w)
    ensures Valid(w)
  {
  }

  /** The fields from `i` on are the rest of the data, and say what the result is. */
  ghost predicate Says<M>(d: Desc<M>, m: Message<M>, data: seq<byte>, i: nat, ws: seq<RawField>, r: Message<M>)
    requires IsSlice(data)
  {
    ValidAll(ws) && At(data, i, BytesAll(ws)) && i + |BytesAll(ws)| == |data| && InterpretAll(d, m, data, i, ws) == Some(r)
  }

  lemma SaysOneMore<M>(d: Desc<M>, m: Message<M>, data: seq<byte>, i: nat, w: RawField, m': Message<M>,
                       ws: seq<RawField>, r: Message<M>)
    requires IsSlice(data) && Valid(w) && At(data, i, Bytes(w)) && Interpret(d, m, data, i, w) == Some(m')
    requires Says(d, m', data, i + |Bytes(w)|, ws, r)
    ensures Says(d, m, data, i, [w] + ws, r)
  {
    hide Interpret, Bytes, Valid;
    assert ([w] + ws)[1..] == ws;
    assert data[i..i + |Bytes(w)| + |BytesAll(ws)|] == Bytes(w) + BytesAll(ws);
  }

  lemma {:induction false} FieldsFound<M>(d: Desc<M>, m: Message<M>, data: seq<byte>, i: nat) returns (ws: seq<RawField>)
    requires IsSlice(data) && i <= |data| && DecodeMsg(d, m, data, i).Ok?
    ensures Says(d, m, data, i, ws, DecodeMsg(d, m, data, i).value)
    decreases |data| - i
  {
    hide Step, Bytes, Valid, Interpret;
    if i == |data| {
      ws := [];
    } else {
      var p := Step(d, m, data, i).value;
      var w := StepFinds(d, m, data, i);
      assert At(data, i, Bytes(w));
      StepAgrees(d, m, data, i, w);
      var rest := FieldsFound(d, p.m, data, p.next);
      SaysOneMore(d, m, data, i, w, p.m, rest, DecodeMsg(d, m, data, i).value);
      ws := [w] + rest;
    }
  }

  lemma {:induction false} FieldsRead<M>(d: Desc<M>, m: Message<M>, data: seq<byte>, i: nat, ws: seq<RawField>, r: Message<M>)
    requires IsSlice(data) && i <= |data| && Says(d, m, data, i, ws, r)
    ensures DecodeMsg(d, m, data, i) == Ok(r)
    decreases ws
  {
    hide Step, Bytes, Valid, Interpret;
    if ws != [] {
      var w := ws[0];
      AtSplit(data, i, Bytes(w), BytesAll(ws[1..]));
      StepAgrees(d, m, data, i, w);
      FieldsRead(d, Interpret(d, m, data, i, w).value, data, i + |Bytes(w)|, ws[1..], r);
    }
  }

  /** Unmarshal of any bytes into any message gives a result exactly when the bytes are well-formed fields, one after the
      other, that lead from the message to that result. */
  lemma AcceptedExactly<M>(d: Desc<M>, m: Message<M>, data: seq<byte>, r: Message<M>)
    requires IsSlice(data)
    ensures DecodeMsg(d, m, data, 0) == Ok(r) <==> exists ws :: Says(d, m, data, 0, ws, r)
  {
    hide Says, DecodeMsg;
    if DecodeMsg(d, m, data, 0) == Ok(r) {
      var ws := FieldsFound(d, m, data, 0);
    }
    if ws :| Says(d, m, data, 0, ws, r) {
      FieldsRead(d, m, data, 0, ws, r);
    }
  }

  // ----- Map entries

  /** What a map entry is read as: keys and values, whatever their wire types, and well-formed fields with other
      numbers. */
  datatype EntryPart =
    | Key(tag: seq<byte>, len: seq<byte>, text: seq<byte>)
    | Value(tag: seq<byte>, len: seq<byte>, text: seq<byte>)
    | Other(field: RawField)

  ghost predicate IsPart(p: EntryPart) {
    match p
    case Key(tag, len, text) => IsVarint(tag) && FieldNum(ValueOf(tag)) == 1 && IsVarint(len) && ValueOf(len) == |text|
    case Value(tag, len, text) => IsVarint(tag) && FieldNum(ValueOf(tag)) == 2 && IsVarint(len) && ValueOf(len) == |text|
    case Other(w) => Valid(w) && FieldNum(ValueOf(w.tag)) !in {1, 2}
  }

  ghost function PartBytes(p: EntryPart): seq<byte> {
    match p
    case Key(tag, len, text) => tag + len + text
    case Value(tag, len, text) => tag + len + text
    case Other(w) => Bytes(w)
  }

  /** From `i` on these parts stand one after the other. The last ends at `post` or, if it is a key or a value, behind
      it. */
  ghost predicate Parts(data: seq<byte>, i: nat, post: nat, ps: seq<EntryPart>)
    decreases ps
  {
    if ps == [] then i >= post
    else
      var next := i + |PartBytes(ps[0])|;
      && i < post && IsPart(ps[0]) && At(data, i, PartBytes(ps[0]))
      && (ps[0].Other? ==> next <= post)
      && Parts(data, next, post, ps[1..])
  }

  /** The last key and the last value. */
  ghost function EntryOf(ps: seq<EntryPart>, key: seq<byte>, value: seq<byte>): (seq<byte>, seq<byte>)
    decreases ps
  {
    if ps == [] then (key, value)
    else
      match ps[0]
      case Key(_, _, text) => EntryOf(ps[1..], text, value)
      case Value(_, _, text) => EntryOf(ps[1..], key, text)
      case Other(_) => EntryOf(ps[1..], key, value)
  }

  lemma TextRead(data: seq<byte>, i: nat, tag: seq<byte>, len: seq<byte>, text: seq<byte>)
    requires IsSlice(data) && IsVarint(tag) && IsVarint(len) && ValueOf(len) == |text| && At(data, i, tag + len + text)
    ensures DecodeVarint(W64, data, i) == Ok(Read(ValueOf(tag), i + |tag|)) && |tag| > 0
    ensures var k := i + |tag| + |len|;
            && DecodeLength(data, i + |tag|) == Ok((k, k + |text|)) && k + |text| <= |data| && data[k..k + |text|] == text
  {
    hide DecodeVarint;
    AtSplit(data, i, tag + len, text);
    AtSplit(data, i, tag, len);
    VarintAt(data, i, tag);
    VarintAt(data, i + |tag|, len);
  }

  lemma TextFound(data: seq<byte>, i: nat)
    requires IsSlice(data) && i <= |data| && DecodeVarint(W64, data, i).Ok?
    requires DecodeLength(data, DecodeVarint(W64, data, i).value.next).Ok?
    ensures var j := DecodeVarint(W64, data, i).value.next;
            var p := DecodeLength(data, j).value;
            && IsVarint(data[i..j]) && ValueOf(data[i..j]) == DecodeVarint(W64, data, i).value.value
            && IsVarint(data[j..p.0]) && ValueOf(data[j..p.0]) == p.1 - p.0
            && data[i..j] + data[j..p.0] + data[p.0..p.1] == data[i..p.1]
  {
    hide Septets;
    var j := DecodeVarint(W64, data, i).value.next;
    VarintFound(data, i);
    VarintFound(data, j);
  }

  lemma OtherRead(data: seq<byte>, i: nat, post: nat, w: RawField)
    requires IsSlice(data) && post <= |data| && Valid(w) && At(data, i, Bytes(w)) && i + |Bytes(w)| <= post
    ensures i < |data| && DecodeVarint(W64, data, i) == Ok(Read(ValueOf(w.tag), i + |w.tag|))
    ensures SkipUnknown(data, i, post) == Ok(i + |Bytes(w)|) && |Bytes(w)| > 0
  {
    hide SkipFrom, Bytes;
    TagAt(data, i, w);
    SliceAt(data, i, Bytes(w));
    FieldSkipped(data[i..], 0, w, 0, |Bytes(w)|);
  }

  lemma OtherFound(data: seq<byte>, i: nat, post: nat) returns (w: RawField)
    requires IsSlice(data) && i < |data| && post <= |data| && SkipUnknown(data, i, post).Ok?
    ensures Valid(w) && Bytes(w) == data[i..SkipUnknown(data, i, post).value]
  {
    hide SkipFrom, Bytes;
    var rest, n := data[i..], SkipUnknown(data, i, post).value;
    FieldFound(rest, 0);
    w :| Valid(w) && Bytes(w) == rest[0..n - i];
    assert rest[0..n - i] == data[i..n];
  }

  /** What is known of the entry once a part has been read. */
  ghost function WithPart(p: EntryPart, key: seq<byte>, value: seq<byte>): (seq<byte>, seq<byte>) {
    match p
    case Key(_, _, text) => (text, value)
    case Value(_, _, text) => (key, text)
    case Other(_) => (key, value)
  }

  lemma PartIsRead(data: seq<byte>, i: nat, post: nat, key: seq<byte>, value: seq<byte>, p: EntryPart)
    requires IsSlice(data) && i < post <= |data| && IsPart(p) && At(data, i, PartBytes(p))
    requires p.Other? ==> i + |PartBytes(p)| <= post
    ensures var (k, v) := WithPart(p, key, value);
            DecodeEntry(data, i, post, key, value) == DecodeEntry(data, i + |PartBytes(p)|, post, k, v)
  {
    hide DecodeVarint, DecodeLength, SkipUnknown, Bytes, FieldNum, Valid;
    match p
    case Key(tag, len, text) => TextRead(data, i, tag, len, text);
    case Value(tag, len, text) => TextRead(data, i, tag, len, text);
    case Other(w) => OtherRead(data, i, post, w);
  }

  lemma {:induction false} EntryIsRead(data: seq<byte>, i: nat, post: nat, key: seq<byte>, value: seq<byte>,
                                       ps: seq<EntryPart>)
    requires IsSlice(data) && i <= |data| && post <= |data| && Parts(data, i, post, ps)
    ensures DecodeEntry(data, i, post, key, value) == Ok(EntryOf(ps, key, value))
    decreases ps
  {
    hide IsPart, PartBytes, At, DecodeEntry;
    if ps == [] {
      EntryEnds(data, i, post, key, value);
    } else {
      var next := i + |PartBytes(ps[0])|;
      var kv := WithPart(ps[0], key, value);
      assert next <= |data| by { WithinData(data, i, ps[0]); }
      PartIsRead(data, i, post, key, value, ps[0]);
      EntryIsRead(data, next, post, kv.0, kv.1, ps[1..]);
    }
  }

  lemma EntryEnds(data: seq<byte>, i: nat, post: nat, key: seq<byte>, value: seq<byte>)
    requires IsSlice(data) && post <= i <= |data|
    ensures DecodeEntry(data, i, post, key, value) == Ok((key, value))
  {
  }

  lemma WithinData(data: seq<byte>, i: nat, p: EntryPart)
    requires At(data, i, PartBytes(p))
    ensures i + |PartBytes(p)| <= |data|
  {
  }

  /** One round of the loop over an entry reads a part. */
  lemma PartIsFound(data: seq<byte>, i: nat, post: nat, key: seq<byte>, value: seq<byte>) returns (p: EntryPart)
    requires IsSlice(data) && i < post <= |data| && DecodeEntry(data, i, post, key, value).Ok?
    ensures IsPart(p) && At(data, i, PartBytes(p)) && (p.Other? ==> i + |PartBytes(p)| <= post)
    ensures i < i + |PartBytes(p)| <= |data|
  {
    hide DecodeVarint, DecodeLength, SkipUnknown, Bytes, FieldNum, Valid;
    var tag := DecodeVarint(W64, data, i).value;
    if FieldNum(tag.value) == 1 || FieldNum(tag.value) == 2 {
      TextFound(data, i);
      var e := DecodeLength(data, tag.next).value;
      p := if FieldNum(tag.value) == 1 then Key(data[i..tag.next], data[tag.next..e.0], data[e.0..e.1])
           else Value(data[i..tag.next], data[tag.next..e.0], data[e.0..e.1]);
      assert PartBytes(p) == data[i..e.1];
    } else {
      var w := OtherFound(data, i, post);
      TagAt(data, i, w);
      p := Other(w);
    }
  }

  lemma {:induction false} EntryIsFound(data: seq<byte>, i: nat, post: nat, key: seq<byte>, value: seq<byte>)
    returns (ps: seq<EntryPart>)
    requires IsSlice(data) && i <= |data| && post <= |data| && DecodeEntry(data, i, post, key, value).Ok?
    ensures Parts(data, i, post, ps)
    decreases |data| - i
  {
    hide IsPart, PartBytes, At, DecodeEntry, WithPart, Parts;
    if i < post {
      var p := PartIsFound(data, i, post, key, value);
      PartIsRead(data, i, post, key, value, p);
      var kv := WithPart(p, key, value);
      var rest := EntryIsFound(data, i + |PartBytes(p)|, post, kv.0, kv.1);
      ps := [p] + rest;
      PartsCons(data, i, post, p, rest);
    } else {
      ps := [];
      assert Parts(data, i, post, []) by { NoParts(data, i, post); }
    }
  }

  lemma NoParts(data: seq<byte>, i: nat, post: nat)
    requires i >= post
    ensures Parts(data, i, post, [])
  {
  }

  lemma PartsCons(data: seq<byte>, i: nat, post: nat, p: EntryPart, ps: seq<EntryPart>)
    requires i < post && IsPart(p) && At(data, i, PartBytes(p)) && (p.Other? ==> i + |PartBytes(p)| <= post)
    requires Parts(data, i + |PartBytes(p)|, post, ps)
    ensures Parts(data, i, post, [p] + ps)
  {
    hide IsPart, PartBytes;
    assert ([p] + ps)[1..] == ps;
  }

  /** A map entry is read as a key and a value exactly when parts stand there whose last key and last value they are. */
  lemma EntryExactly(data: seq<byte>, i: nat, post: nat, r: (seq<byte>, seq<byte>))
    requires IsSlice(data) && i <= |data| && post <= |data|
    ensures DecodeEntry(data, i, post, [], []) == Ok(r) <==> exists ps :: Parts(data, i, post, ps) && EntryOf(ps, [], []) == r
  {
    hide DecodeEntry, Parts, EntryOf;
    if DecodeEntry(data, i, post, [], []) == Ok(r) {
      var ps := EntryIsFound(data, i, post, [], []);
      EntryIsRead(data, i, post, [], [], ps);
    }
    if ps :| Parts(data, i, post, ps) && EntryOf(ps, [], []) == r {
      EntryIsRead(data, i, post, [], [], ps);
    }
  }
}
