/** What the generated Unmarshal functions make of each tag, wherever it stands and whatever was read before. */
module Tags {
  import opened Bits
  import opened Varint
  import opened Skip
  import opened Wire
  import opened Unmarshal
  import opened RoundTrip
  import opened Messages
  import opened Layout
  import opened Wrappers

  // ----- Unmarshal reads each tag

  /** A number of any size behind its tag. */
  function NumberRead(tag: byte, v: nat): seq<byte> {
    [tag] + VarintBytes(v)
  }

  /** If the field at `i` is `bytes`, Unmarshal merges it into what it has and goes on behind it, or fails. */
  ghost predicate Reads<M>(d: Desc<M>, m: Message<M>, data: seq<byte>, i: nat, bytes: seq<byte>, known: Result<M>)
    requires IsSlice(data)
  {
    At(data, i, bytes) ==>
      && i < |data|
      && Step(d, m, data, i) == match known
                                case Err(e) => Err(e)
                                case Ok(k) => Ok(Parsed(m.(known := k), i + |bytes|))
  }

  /** A tag from `first` to below `end`, other than those listed, has a wire type that is not its field's own. */
  ghost predicate Rejects<M>(d: Desc<M>, m: Message<M>, data: seq<byte>, i: nat, first: int, end: int, tags: set<byte>)
    requires IsSlice(data)
  {
    i < |data| && first <= data[i] < end && data[i] % 8 != 4 && data[i] !in tags ==>
      Step(d, m, data, i) == Err(WrongWireType)
  }

  /** A field with another number is kept byte for byte. */
  ghost predicate KeepsOther<M>(d: Desc<M>, m: Message<M>, data: seq<byte>, i: nat, w: RawField, known: set<int>)
    requires IsSlice(data)
  {
    Valid(w) && At(data, i, Bytes(w)) && FieldNum(ValueOf(w.tag)) > 0 && FieldNum(ValueOf(w.tag)) !in known ==>
      && i < |data|
      && Step(d, m, data, i) == Ok(Parsed(m.(unknown := m.unknown + Bytes(w)), i + |Bytes(w)|))
  }

  lemma NumberIsRead<M>(d: Desc<M>, m: Message<M>, data: seq<byte>, i: nat, num: nat, tag: byte, w: Width, v: nat)
    requires IsSlice(data) && ShortTag(num) && tag == 8 * num && v < TWO_64
    requires d.kind(num) == Number(w)
    ensures Reads(d, m, data, i, NumberRead(tag, v), Ok(d.setNumber(m.known, num, v % w.Modulus())))
  {
    hide Step;
    if At(data, i, NumberRead(tag, v)) { FieldStep(d, m, data, i, VarintField(num, v)); }
  }

  lemma PartIsRead<M>(d: Desc<M>, m: Message<M>, data: seq<byte>, i: nat, num: nat, tag: byte, s: Text)
    requires IsSlice(data) && ShortTag(num) && tag == 8 * num + 2
    requires d.kind(num).Delimited?
    ensures Reads(d, m, data, i, Part(tag, s), d.setDelimited(m.known, num, s))
  {
    assert Part(tag, s) == LengthDelimited(num, s);
    hide VarintBytes, Opened, Step;
    if At(data, i, Part(tag, s)) {
      DelimitedRead(data, i, num, s);
      StepOfDelimited(d, m, data, i, num, s, i + 1 + |VarintBytes(|s|)|);
    }
  }

  lemma WrongTypeRejected<M>(d: Desc<M>, m: Message<M>, data: seq<byte>, i: nat, first: int, end: int, tags: set<byte>)
    requires IsSlice(data) && 8 <= first && end <= 128
    requires forall b: byte :: first <= b < end && b !in tags ==>
               match d.kind(b / 8)
               case Absent => false
               case Number(_) => b % 8 != 0
               case _ => b % 8 != 2
    ensures Rejects(d, m, data, i, first, end, tags)
  {
    hide DecodeVarint, FieldNum;
    if i < |data| && first <= data[i] < end { TagRead(data, i, data[i] / 8, data[i] % 8); }
  }

  lemma OtherIsKept<M>(d: Desc<M>, m: Message<M>, data: seq<byte>, i: nat, w: RawField, known: set<int>)
    requires IsSlice(data) && forall num :: num > 0 && num !in known ==> d.kind(num).Absent?
    ensures KeepsOther(d, m, data, i, w, known)
  {
    hide Step, Bytes, FieldNum;
    if Valid(w) && At(data, i, Bytes(w)) && FieldNum(ValueOf(w.tag)) > 0 && FieldNum(ValueOf(w.tag)) !in known {
      ForeignStep(d, m, data, i, w);
    }
  }

  /** No message accepts the end of a group that was not begun, or a field whose number, cut to an int32, is zero or
      negative. */
  lemma BadTagRejected<M>(d: Desc<M>, m: Message<M>, data: seq<byte>, i: nat, v: nat)
    requires IsSlice(data) && v < TWO_64 && At(data, i, VarintBytes(v))
    ensures i < |data|
    ensures v % 8 == 4 ==> Step(d, m, data, i) == Err(UnexpectedEndOfGroup)
    ensures v % 8 != 4 && ((v / 8) % TWO_32 == 0 || (v / 8) % TWO_32 >= 0x8000_0000) ==> Step(d, m, data, i) == Err(IllegalTag)
  {
    hide DecodeVarint, VarintBytes;
    DecodeUndoesEncode64(data, i, v);
  }

  /** What Unmarshal of an EncodedRecord makes of the field at `i`, whatever it has read before. */
  lemma EncodedRecordTags(m: Message<EncodedRecord>, data: seq<byte>, i: nat, v: nat, s: Text, w: RawField)
    requires IsSlice(data) && v < TWO_64
    ensures Reads(EncodedRecordDesc(), m, data, i, NumberRead(0x08, v),
                  Ok(m.known.(dataType := Signed(W32, v % TWO_32))))
    ensures Reads(EncodedRecordDesc(), m, data, i, NumberRead(0x10, v), Ok(m.known.(timestamp := Signed(W64, v))))
    ensures Reads(EncodedRecordDesc(), m, data, i, Part(0x1a, s), Ok(m.known.(data := s)))
    ensures Rejects(EncodedRecordDesc(), m, data, i, 8, 32, {0x08, 0x10, 0x1a})
    ensures KeepsOther(EncodedRecordDesc(), m, data, i, w, {1, 2, 3})
  {
    hide Reads, Rejects, KeepsOther, Part, NumberRead;
    NumberIsRead(EncodedRecordDesc(), m, data, i, 1, 0x08, W32, v);
    NumberIsRead(EncodedRecordDesc(), m, data, i, 2, 0x10, W64, v);
    PartIsRead(EncodedRecordDesc(), m, data, i, 3, 0x1a, s);
    WrongTypeRejected(EncodedRecordDesc(), m, data, i, 8, 32, {0x08, 0x10, 0x1a});
    OtherIsKept(EncodedRecordDesc(), m, data, i, w, {1, 2, 3});
  }

  /** What Unmarshal of a Task makes of the field at `i`, whatever it has read before. */
  lemma TaskTags(m: Message<Task>, data: seq<byte>, i: nat, v: nat, s: Text, w: RawField)
    requires IsSlice(data) && v < TWO_64
    ensures Reads(TaskDesc(), m, data, i, NumberRead(0x08, v), Ok(m.known.(dataType := Signed(W32, v % TWO_32))))
    ensures Reads(TaskDesc(), m, data, i, Part(0x12, s), Ok(m.known.(objectName := s)))
    ensures Reads(TaskDesc(), m, data, i, Part(0x1a, s), Ok(m.known.(data := s)))
    ensures Reads(TaskDesc(), m, data, i, Part(0x22, s), Ok(m.known.(token := s)))
    ensures Rejects(TaskDesc(), m, data, i, 8, 40, {0x08, 0x12, 0x1a, 0x22})
    ensures KeepsOther(TaskDesc(), m, data, i, w, {1, 2, 3, 4})
  {
    hide Reads, Rejects, KeepsOther, Part, NumberRead;
    NumberIsRead(TaskDesc(), m, data, i, 1, 0x08, W32, v);
    PartIsRead(TaskDesc(), m, data, i, 2, 0x12, s);
    PartIsRead(TaskDesc(), m, data, i, 3, 0x1a, s);
    PartIsRead(TaskDesc(), m, data, i, 4, 0x22, s);
    WrongTypeRejected(TaskDesc(), m, data, i, 8, 40, {0x08, 0x12, 0x1a, 0x22});
    OtherIsKept(TaskDesc(), m, data, i, w, {1, 2, 3, 4});
  }

  /** What Unmarshal of a Config makes of the field at `i`, whatever it has read before. */
  lemma ConfigTags(m: Message<Config>, data: seq<byte>, i: nat, s: Text, w: RawField)
    requires IsSlice(data)
    ensures Reads(ConfigDesc(), m, data, i, Part(0x0a, s), Ok(m.known.(name := s)))
    ensures Reads(ConfigDesc(), m, data, i, Part(0x12, s), Ok(m.known.(typ := s)))
    ensures Reads(ConfigDesc(), m, data, i, Part(0x1a, s), Ok(m.known.(version := s)))
    ensures Reads(ConfigDesc(), m, data, i, Part(0x22, s), Ok(m.known.(sha256 := s)))
    ensures Reads(ConfigDesc(), m, data, i, Part(0x2a, s), Ok(m.known.(signature := s)))
    ensures Reads(ConfigDesc(), m, data, i, Part(0x32, s), Ok(m.known.(downloadUrls := m.known.downloadUrls + [s])))
    ensures Reads(ConfigDesc(), m, data, i, Part(0x3a, s), Ok(m.known.(detail := s)))
    ensures Rejects(ConfigDesc(), m, data, i, 8, 64, {0x0a, 0x12, 0x1a, 0x22, 0x2a, 0x32, 0x3a})
    ensures KeepsOther(ConfigDesc(), m, data, i, w, {1, 2, 3, 4, 5, 6, 7})
  {
    hide Reads, Rejects, KeepsOther, Part, NumberRead;
    PartIsRead(ConfigDesc(), m, data, i, 1, 0x0a, s);
    PartIsRead(ConfigDesc(), m, data, i, 2, 0x12, s);
    PartIsRead(ConfigDesc(), m, data, i, 3, 0x1a, s);
    PartIsRead(ConfigDesc(), m, data, i, 4, 0x22, s);
    PartIsRead(ConfigDesc(), m, data, i, 5, 0x2a, s);
    PartIsRead(ConfigDesc(), m, data, i, 6, 0x32, s);
    PartIsRead(ConfigDesc(), m, data, i, 7, 0x3a, s);
    WrongTypeRejected(ConfigDesc(), m, data, i, 8, 64, {0x0a, 0x12, 0x1a, 0x22, 0x2a, 0x32, 0x3a});
    OtherIsKept(ConfigDesc(), m, data, i, w, {1, 2, 3, 4, 5, 6, 7});
  }

  /** A sub-message in `s`, merged into `m`, and what becomes of the message around it. */
  function Merged<M, N>(d: Desc<M>, m: Message<M>, s: Text, put: Message<M> -> N): Result<N> {
    match DecodeNested(d, m, s)
    case Err(e) => Err(e)
    case Ok(r) => Ok(put(r))
  }

  function OrEmpty<M>(m: Option<Message<M>>, none: M): Message<M> {
    if m.Some? then m.value else Message(none, [])
  }

  /** What Unmarshal of a Record makes of the field at `i`, whatever it has read before. */
  lemma RecordTags(m: Message<Record>, data: seq<byte>, i: nat, v: nat, s: Text, w: RawField)
    requires IsSlice(data) && v < TWO_64
    ensures Reads(RecordDesc(), m, data, i, NumberRead(0x08, v), Ok(m.known.(dataType := Signed(W32, v % TWO_32))))
    ensures Reads(RecordDesc(), m, data, i, NumberRead(0x10, v), Ok(m.known.(timestamp := Signed(W64, v))))
    ensures Reads(RecordDesc(), m, data, i, Part(0x1a, s),
                  Merged(PayloadDesc(), OrEmpty(m.known.data, NoPayload), s, p => m.known.(data := Some(p))))
    ensures Rejects(RecordDesc(), m, data, i, 8, 32, {0x08, 0x10, 0x1a})
    ensures KeepsOther(RecordDesc(), m, data, i, w, {1, 2, 3})
  {
    hide Reads, Rejects, KeepsOther, Part, NumberRead;
    NumberIsRead(RecordDesc(), m, data, i, 1, 0x08, W32, v);
    NumberIsRead(RecordDesc(), m, data, i, 2, 0x10, W64, v);
    PartIsRead(RecordDesc(), m, data, i, 3, 0x1a, s);
    WrongTypeRejected(RecordDesc(), m, data, i, 8, 32, {0x08, 0x10, 0x1a});
    OtherIsKept(RecordDesc(), m, data, i, w, {1, 2, 3});
  }

  /** What Unmarshal of a Command makes of the field at `i`, whatever it has read before. */
  lemma CommandTags(m: Message<Command>, data: seq<byte>, i: nat, s: Text, w: RawField)
    requires IsSlice(data)
    ensures Reads(CommandDesc(), m, data, i, Part(0x12, s),
                  Merged(TaskDesc(), OrEmpty(m.known.task, NoTask), s, t => m.known.(task := Some(t))))
    ensures Reads(CommandDesc(), m, data, i, Part(0x1a, s),
                  Merged(ConfigDesc(), Message(NoConfig, []), s, c => m.known.(configs := m.known.configs + [c])))
    ensures Rejects(CommandDesc(), m, data, i, 16, 32, {0x12, 0x1a})
    ensures KeepsOther(CommandDesc(), m, data, i, w, {2, 3})
  {
    hide Reads, Rejects, KeepsOther, Part, NumberRead;
    PartIsRead(CommandDesc(), m, data, i, 2, 0x12, s);
    PartIsRead(CommandDesc(), m, data, i, 3, 0x1a, s);
    WrongTypeRejected(CommandDesc(), m, data, i, 16, 32, {0x12, 0x1a});
    OtherIsKept(CommandDesc(), m, data, i, w, {2, 3});
  }

  const PACKAGED_TAGS: set<byte> := {0x0a, 0x12, 0x1a, 0x22, 0x2a, 0x32, 0x3a, 0x42, 0x4a, 0x52, 0x58, 0x60}

  /** What Unmarshal of a PackagedData makes of a record, the agent's id or an address at `i`, whatever it has read
      before. */
  lemma PackagedDataFirstTags(m: Message<PackagedData>, data: seq<byte>, i: nat, s: Text)
    requires IsSlice(data)
    ensures Reads(PackagedDataDesc(), m, data, i, Part(0x0a, s),
                  Merged(EncodedRecordDesc(), Message(NoEncodedRecord, []), s,
                         r => m.known.(records := m.known.records + [r])))
    ensures Reads(PackagedDataDesc(), m, data, i, Part(0x12, s), Ok(m.known.(agentId := s)))
    ensures Reads(PackagedDataDesc(), m, data, i, Part(0x1a, s),
                  Ok(m.known.(intranetIpv4 := m.known.intranetIpv4 + [s])))
    ensures Reads(PackagedDataDesc(), m, data, i, Part(0x22, s),
                  Ok(m.known.(extranetIpv4 := m.known.extranetIpv4 + [s])))
    ensures Reads(PackagedDataDesc(), m, data, i, Part(0x2a, s),
                  Ok(m.known.(intranetIpv6 := m.known.intranetIpv6 + [s])))
    ensures Reads(PackagedDataDesc(), m, data, i, Part(0x32, s),
                  Ok(m.known.(extranetIpv6 := m.known.extranetIpv6 + [s])))
  {
    hide Reads, Part;
    PartIsRead(PackagedDataDesc(), m, data, i, 1, 0x0a, s);
    PartIsRead(PackagedDataDesc(), m, data, i, 2, 0x12, s);
    PartIsRead(PackagedDataDesc(), m, data, i, 3, 0x1a, s);
    PartIsRead(PackagedDataDesc(), m, data, i, 4, 0x22, s);
    PartIsRead(PackagedDataDesc(), m, data, i, 5, 0x2a, s);
    PartIsRead(PackagedDataDesc(), m, data, i, 6, 0x32, s);
  }

  /** What it makes of the texts and numbers behind them, and of any other field. */
  lemma PackagedDataLastTags(m: Message<PackagedData>, data: seq<byte>, i: nat, v: nat, s: Text, w: RawField)
    requires IsSlice(data) && v < TWO_64
    ensures Reads(PackagedDataDesc(), m, data, i, Part(0x3a, s), Ok(m.known.(hostname := s)))
    ensures Reads(PackagedDataDesc(), m, data, i, Part(0x42, s), Ok(m.known.(version := s)))
    ensures Reads(PackagedDataDesc(), m, data, i, Part(0x4a, s), Ok(m.known.(product := s)))
    ensures Reads(PackagedDataDesc(), m, data, i, Part(0x52, s), Ok(m.known.(tenantAuthCode := s)))
    ensures Reads(PackagedDataDesc(), m, data, i, NumberRead(0x58, v),
                  Ok(m.known.(tenantId := Signed(W32, v % TWO_32))))
    ensures Reads(PackagedDataDesc(), m, data, i, NumberRead(0x60, v), Ok(m.known.(hostId := Signed(W32, v % TWO_32))))
    ensures Rejects(PackagedDataDesc(), m, data, i, 8, 104, PACKAGED_TAGS)
    ensures KeepsOther(PackagedDataDesc(), m, data, i, w, {1, 2, 3, 4, 5, 6, 7, 8, 9, 10, 11, 12})
  {
    hide Reads, Rejects, KeepsOther, Part, NumberRead;
    PartIsRead(PackagedDataDesc(), m, data, i, 7, 0x3a, s);
    PartIsRead(PackagedDataDesc(), m, data, i, 8, 0x42, s);
    PartIsRead(PackagedDataDesc(), m, data, i, 9, 0x4a, s);
    PartIsRead(PackagedDataDesc(), m, data, i, 10, 0x52, s);
    NumberIsRead(PackagedDataDesc(), m, data, i, 11, 0x58, W32, v);
    NumberIsRead(PackagedDataDesc(), m, data, i, 12, 0x60, W32, v);
    WrongTypeRejected(PackagedDataDesc(), m, data, i, 8, 104, PACKAGED_TAGS);
    OtherIsKept(PackagedDataDesc(), m, data, i, w, {1, 2, 3, 4, 5, 6, 7, 8, 9, 10, 11, 12});
  }

  /** What Unmarshal of a Payload makes of the field at `i`, whatever it has read before. */
  lemma PayloadTags(m: Message<Payload>, data: seq<byte>, i: nat, key: Text, value: Text, w: RawField)
    requires IsSlice(data)
    ensures Reads(PayloadDesc(), m, data, i, Part(0x0a, EntryBytesOf(key, value)),
                  Ok(Payload(m.known.fields[key := value])))
    ensures Rejects(PayloadDesc(), m, data, i, 8, 16, {0x0a})
    ensures KeepsOther(PayloadDesc(), m, data, i, w, {1})
  {
    hide Rejects, KeepsOther, Step, VarintBytes, EntryMsg, EncodeFields;
    if At(data, i, Part(0x0a, EntryBytesOf(key, value))) {
      EntryBytes(key, value);
      EntryLaidOut(key, value);
      EntryStep(PayloadDesc(), m, data, i, 1, key, value);
    }
    WrongTypeRejected(PayloadDesc(), m, data, i, 8, 16, {0x0a});
    OtherIsKept(PayloadDesc(), m, data, i, w, {1});
  }
}
