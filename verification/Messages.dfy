/** The seven messages between server, agent and plugins, and their round trips. */
module Messages {
  import opened Varint
  import opened Skip
  import opened Wire
  import opened Unmarshal
  import opened RoundTrip
  import opened Wrappers

  /** A Go string or []byte; an absent one and an empty one are the same on the wire. */
  type Text = seq<byte>

  // ----- Pieces every generated Marshal is made of

  /** Emitted unless zero, sign-extended to uint64. */
  function OptNumber(num: nat, x: int): seq<Field> {
    if x == 0 then [] else [VarintField(num, Unsigned(x))]
  }

  /** Emitted unless empty. */
  function OptText(num: nat, s: Text): seq<Field> {
    if s == [] then [] else [BytesField(num, s)]
  }

  /** Emitted once for each element, empty ones too. */
  function Repeated(num: nat, ss: seq<Text>): (r: seq<Field>)
    ensures |r| == |ss| && forall k :: 0 <= k < |ss| ==> r[k] == BytesField(num, ss[k])
  {
    seq(|ss|, k requires 0 <= k < |ss| => BytesField(num, ss[k]))
  }

  lemma {:induction false} EachWriteable(fs: seq<Field>)
    requires forall k :: 0 <= k < |fs| ==> WriteableField(fs[k])
    ensures WriteableAll(fs)
  {
    if fs != [] { EachWriteable(fs[1..]); }
  }

  // ----- Folding the pieces

  lemma FoldOne<M>(d: Desc<M>, m: M, f: Field)
    requires WriteableField(f)
    ensures WriteableAll([f]) && Fold(d, m, [f]) == Apply(d, m, f)
  {
    assert [f][1..] == [];
  }

  /** `a` takes `m` to `m1` and `b` takes `m1` to `m2`. */
  lemma FoldThen<M>(d: Desc<M>, m: M, a: seq<Field>, m1: M, b: seq<Field>, m2: M)
    requires WriteableAll(a) && WriteableAll(b)
    requires Fold(d, m, a) == Ok(m1) && Fold(d, m1, b) == Ok(m2)
    ensures WriteableAll(a + b) && Fold(d, m, a + b) == Ok(m2)
  {
    FoldConcat(d, m, a, b);
  }

  lemma FoldNumber<M>(d: Desc<M>, m: M, num: nat, w: Width, x: int, m': M)
    requires ShortTag(num) && d.kind(num) == Number(w)
    requires m' == if x == 0 then m else d.setNumber(m, num, Unsigned(x) % w.Modulus())
    ensures WriteableAll(OptNumber(num, x)) && Fold(d, m, OptNumber(num, x)) == Ok(m')
  {
    if x != 0 { FoldOne(d, m, VarintField(num, Unsigned(x))); }
  }

  lemma FoldText<M>(d: Desc<M>, m: M, num: nat, s: Text, m': M)
    requires ShortTag(num) && d.kind(num) == Delimited
    requires if s == [] then m' == m else d.setDelimited(m, num, s) == Ok(m')
    ensures WriteableAll(OptText(num, s)) && Fold(d, m, OptText(num, s)) == Ok(m')
  {
    if s != [] { FoldOne(d, m, BytesField(num, s)); }
  }

  /** Fields that append the elements of `xs` one by one; `put(ys)` is the message with `ys` appended. */
  lemma {:induction false} FoldList<M, T>(d: Desc<M>, fs: seq<Field>, xs: seq<T>, put: seq<T> -> M, k: nat)
    requires WriteableAll(fs) && |fs| == |xs| && k <= |fs|
    requires forall j :: 0 <= j < |fs| ==> WriteableField(fs[j]) && Apply(d, put(xs[..j]), fs[j]) == Ok(put(xs[..j + 1]))
    ensures WriteableAll(fs[k..]) && Fold(d, put(xs[..k]), fs[k..]) == Ok(put(xs))
    decreases |fs| - k
  {
    if k == |fs| {
      assert fs[k..] == [] && xs[..k] == xs;
    } else {
      FoldList(d, fs, xs, put, k + 1);
      assert fs[k..][0] == fs[k] && fs[k..][1..] == fs[k + 1..];
    }
  }

  lemma FoldAll<M, T>(d: Desc<M>, fs: seq<Field>, xs: seq<T>, put: seq<T> -> M)
    requires |fs| == |xs|
    requires forall j :: 0 <= j < |fs| ==> WriteableField(fs[j]) && Apply(d, put(xs[..j]), fs[j]) == Ok(put(xs[..j + 1]))
    ensures WriteableAll(fs) && Fold(d, put([]), fs) == Ok(put(xs))
  {
    EachWriteable(fs);
    FoldList(d, fs, xs, put, 0);
    assert fs[0..] == fs && xs[..0] == [];
  }

  lemma FoldRepeated<M>(d: Desc<M>, num: nat, ss: seq<Text>, put: seq<Text> -> M)
    requires ShortTag(num) && d.kind(num) == Delimited
    requires forall done, s :: d.setDelimited(put(done), num, s) == Ok(put(done + [s]))
    ensures WriteableAll(Repeated(num, ss)) && Fold(d, put([]), Repeated(num, ss)) == Ok(put(ss))
  {
    var fs := Repeated(num, ss);
    forall j | 0 <= j < |fs|
      ensures WriteableField(fs[j]) && Apply(d, put(ss[..j]), fs[j]) == Ok(put(ss[..j + 1]))
    {
      assert ss[..j] + [ss[j]] == ss[..j + 1];
    }
    FoldAll(d, fs, ss, put);
  }

  // ----- EncodedRecord

  datatype EncodedRecord = EncodedRecord(dataType: int, timestamp: int, data: Text)

  const NoEncodedRecord := EncodedRecord(0, 0, [])

  function EncodedRecordDesc(): Desc<EncodedRecord> {
    Desc(num => if num == 1 then Number(W32) else if num == 2 then Number(W64) else if num == 3 then Delimited else Absent,
         (m: EncodedRecord, num, v) => if num == 1 then m.(dataType := Signed(W32, v)) else m.(timestamp := Signed(W64, v)),
         (m: EncodedRecord, num, s) => Ok(m.(data := s)),
         (m: EncodedRecord, num, k, v) => m)
  }

  function EncodedRecordFields(m: EncodedRecord): seq<Field> {
    OptNumber(1, m.dataType) + OptNumber(2, m.timestamp) + OptText(3, m.data)
  }

  function EncodedRecordMsg(m: Message<EncodedRecord>): Msg {
    Msg(EncodedRecordFields(m.known), m.unknown)
  }

  ghost predicate ValidEncodedRecord(m: Message<EncodedRecord>) {
    FitsSigned(W32, m.known.dataType) && FitsSigned(W64, m.known.timestamp) && Keepable(EncodedRecordDesc(), m.unknown)
  }

  lemma EncodedRecordFold(m: EncodedRecord)
    requires FitsSigned(W32, m.dataType) && FitsSigned(W64, m.timestamp)
    ensures WriteableAll(EncodedRecordFields(m))
    ensures Fold(EncodedRecordDesc(), NoEncodedRecord, EncodedRecordFields(m)) == Ok(m)
  {
    hide Fold, OptNumber, OptText, WriteableAll;
    var d, m0 := EncodedRecordDesc(), NoEncodedRecord;
    var m1 := m0.(dataType := m.dataType);
    var m2 := m1.(timestamp := m.timestamp);
    SignedUndoesUnsigned(W32, m.dataType);
    SignedUndoesUnsigned(W64, m.timestamp);
    FoldNumber(d, m0, 1, W32, m.dataType, m1);
    FoldNumber(d, m1, 2, W64, m.timestamp, m2);
    FoldText(d, m2, 3, m.data, m);
    FoldThen(d, m0, OptNumber(1, m.dataType), m1, OptNumber(2, m.timestamp), m2);
    FoldThen(d, m0, OptNumber(1, m.dataType) + OptNumber(2, m.timestamp), m2, OptText(3, m.data), m);
  }

  /** Unmarshal undoes Marshal for every EncodedRecord. */
  lemma EncodedRecordRoundTrip(m: Message<EncodedRecord>)
    requires ValidEncodedRecord(m)
    ensures WriteableAll(EncodedRecordMsg(m).fields)
    ensures IsSlice(Encode(EncodedRecordMsg(m))) ==>
              DecodeMsg(EncodedRecordDesc(), Message(NoEncodedRecord, []), Encode(EncodedRecordMsg(m)), 0) == Ok(m)
  {
    EncodedRecordFold(m.known);
    if IsSlice(Encode(EncodedRecordMsg(m))) { MessageDecoded(EncodedRecordDesc(), NoEncodedRecord, EncodedRecordMsg(m)); }
  }

  // ----- Task

  datatype Task = Task(dataType: int, objectName: Text, data: Text, token: Text)

  const NoTask := Task(0, [], [], [])

  function TaskDesc(): Desc<Task> {
    Desc(num => if num == 1 then Number(W32) else if 2 <= num <= 4 then Delimited else Absent,
         (m: Task, num, v) => m.(dataType := Signed(W32, v)),
         (m: Task, num, s) => Ok(if num == 2 then m.(objectName := s) else if num == 3 then m.(data := s) else m.(token := s)),
         (m: Task, num, k, v) => m)
  }

  function TaskFields(m: Task): seq<Field> {
    OptNumber(1, m.dataType) + OptText(2, m.objectName) + OptText(3, m.data) + OptText(4, m.token)
  }

  function TaskMsg(m: Message<Task>): Msg {
    Msg(TaskFields(m.known), m.unknown)
  }

  ghost predicate ValidTask(m: Message<Task>) {
    FitsSigned(W32, m.known.dataType) && Keepable(TaskDesc(), m.unknown)
  }

  lemma TaskFold(m: Task)
    requires FitsSigned(W32, m.dataType)
    ensures WriteableAll(TaskFields(m)) && Fold(TaskDesc(), NoTask, TaskFields(m)) == Ok(m)
  {
    hide Fold, OptNumber, OptText, WriteableAll;
    var d, m0 := TaskDesc(), NoTask;
    var m1 := m0.(dataType := m.dataType);
    var m2 := m1.(objectName := m.objectName);
    var m3 := m2.(data := m.data);
    var a, b, c, e := OptNumber(1, m.dataType), OptText(2, m.objectName), OptText(3, m.data), OptText(4, m.token);
    SignedUndoesUnsigned(W32, m.dataType);
    FoldNumber(d, m0, 1, W32, m.dataType, m1);
    FoldText(d, m1, 2, m.objectName, m2);
    FoldText(d, m2, 3, m.data, m3);
    FoldText(d, m3, 4, m.token, m);
    FoldThen(d, m0, a, m1, b, m2);
    FoldThen(d, m0, a + b, m2, c, m3);
    FoldThen(d, m0, a + b + c, m3, e, m);
  }

  /** Unmarshal undoes Marshal for every Task. */
  lemma TaskRoundTrip(m: Message<Task>)
    requires ValidTask(m)
    ensures WriteableAll(TaskMsg(m).fields)
    ensures IsSlice(Encode(TaskMsg(m))) ==>
              DecodeMsg(TaskDesc(), Message(NoTask, []), Encode(TaskMsg(m)), 0) == Ok(m)
  {
    TaskFold(m.known);
    if IsSlice(Encode(TaskMsg(m))) { MessageDecoded(TaskDesc(), NoTask, TaskMsg(m)); }
  }

  // ----- Config

  datatype Config = Config(name: Text, typ: Text, version: Text, sha256: Text, signature: Text,
                           downloadUrls: seq<Text>, detail: Text)

  const NoConfig := Config([], [], [], [], [], [], [])

  function SetConfig(m: Config, num: int, s: Text): Config {
    match num
    case 1 => m.(name := s)
    case 2 => m.(typ := s)
    case 3 => m.(version := s)
    case 4 => m.(sha256 := s)
    case 5 => m.(signature := s)
    case 6 => m.(downloadUrls := m.downloadUrls + [s])
    case _ => m.(detail := s)
  }

  function ConfigDesc(): Desc<Config> {
    Desc(num => if 1 <= num <= 7 then Delimited else Absent,
         (m: Config, num, v) => m,
         (m: Config, num, s) => Ok(SetConfig(m, num, s)),
         (m: Config, num, k, v) => m)
  }

  function ConfigFields(m: Config): seq<Field> {
    ConfigHeadFields(m) + Repeated(6, m.downloadUrls) + OptText(7, m.detail)
  }

  function ConfigMsg(m: Message<Config>): Msg {
    Msg(ConfigFields(m.known), m.unknown)
  }

  ghost predicate ValidConfig(m: Message<Config>) {
    Keepable(ConfigDesc(), m.unknown)
  }

  /** The message with the five leading texts of `m`. */
  function ConfigHead(m: Config): Config {
    NoConfig.(name := m.name, typ := m.typ, version := m.version, sha256 := m.sha256, signature := m.signature)
  }

  function ConfigHeadFields(m: Config): seq<Field> {
    OptText(1, m.name) + OptText(2, m.typ) + OptText(3, m.version) + OptText(4, m.sha256) + OptText(5, m.signature)
  }

  lemma ConfigHeadFold(m: Config)
    ensures WriteableAll(ConfigHeadFields(m)) && Fold(ConfigDesc(), NoConfig, ConfigHeadFields(m)) == Ok(ConfigHead(m))
  {
    hide Fold, OptText, WriteableAll;
    var d, m0 := ConfigDesc(), NoConfig;
    var m1 := m0.(name := m.name);
    var m2 := m1.(typ := m.typ);
    var m3 := m2.(version := m.version);
    var m4 := m3.(sha256 := m.sha256);
    var m5 := m4.(signature := m.signature);
    var f1, f2, f3 := OptText(1, m.name), OptText(2, m.typ), OptText(3, m.version);
    var f4, f5 := OptText(4, m.sha256), OptText(5, m.signature);
    FoldText(d, m0, 1, m.name, m1);
    FoldText(d, m1, 2, m.typ, m2);
    FoldText(d, m2, 3, m.version, m3);
    FoldText(d, m3, 4, m.sha256, m4);
    FoldText(d, m4, 5, m.signature, m5);
    FoldThen(d, m0, f1, m1, f2, m2);
    FoldThen(d, m0, f1 + f2, m2, f3, m3);
    FoldThen(d, m0, f1 + f2 + f3, m3, f4, m4);
    FoldThen(d, m0, f1 + f2 + f3 + f4, m4, f5, m5);
  }

  lemma ConfigFold(m: Config)
    ensures WriteableAll(ConfigFields(m)) && Fold(ConfigDesc(), NoConfig, ConfigFields(m)) == Ok(m)
  {
    hide Fold, OptText, Repeated, WriteableAll, ConfigHeadFields;
    var d, m0, m1 := ConfigDesc(), NoConfig, ConfigHead(m);
    var m2 := m1.(downloadUrls := m.downloadUrls);
    var a, b, c := ConfigHeadFields(m), Repeated(6, m.downloadUrls), OptText(7, m.detail);
    ConfigHeadFold(m);
    FoldRepeated(d, 6, m.downloadUrls, (ss: seq<Text>) => m1.(downloadUrls := ss));
    FoldText(d, m2, 7, m.detail, m);
    FoldThen(d, m0, a, m1, b, m2);
    FoldThen(d, m0, a + b, m2, c, m);
  }

  /** Unmarshal undoes Marshal for every Config. */
  lemma ConfigRoundTrip(m: Message<Config>)
    requires ValidConfig(m)
    ensures WriteableAll(ConfigMsg(m).fields)
    ensures IsSlice(Encode(ConfigMsg(m))) ==>
              DecodeMsg(ConfigDesc(), Message(NoConfig, []), Encode(ConfigMsg(m)), 0) == Ok(m)
  {
    ConfigFold(m.known);
    if IsSlice(Encode(ConfigMsg(m))) { MessageDecoded(ConfigDesc(), NoConfig, ConfigMsg(m)); }
  }

  // ----- Payload

  datatype Payload = Payload(fields: map<Text, Text>)

  const NoPayload := Payload(map[])

  function PayloadDesc(): Desc<Payload> {
    Desc(num => if num == 1 then MapEntry else Absent,
         (m: Payload, num, v) => m,
         (m: Payload, num, s) => Ok(m),
         (m: Payload, num, k, v) => Payload(m.fields[k := v]))
  }

  /** An order in which Go's range may visit the keys of a map. */
  ghost predicate IsOrder(m: Payload, ks: seq<Text>) {
    && (forall i, j :: 0 <= i < j < |ks| ==> ks[i] != ks[j])
    && (forall k :: k in ks <==> k in m.fields)
  }

  function PayloadFields(m: Payload, ks: seq<Text>): (r: seq<Field>)
    requires forall k <- ks :: k in m.fields
    ensures |r| == |ks|
    ensures forall i :: 0 <= i < |ks| ==> r[i] == MsgField(1, EntryMsg(ks[i], m.fields[ks[i]]))
  {
    seq(|ks|, i requires 0 <= i < |ks| => MsgField(1, EntryMsg(ks[i], m.fields[ks[i]])))
  }

  function PayloadMsg(m: Message<Payload>, ks: seq<Text>): Msg
    requires forall k <- ks :: k in m.known.fields
  {
    Msg(PayloadFields(m.known, ks), m.unknown)
  }

  ghost predicate ValidPayload(m: Message<Payload>) {
    Keepable(PayloadDesc(), m.unknown)
  }

  /** The entries of the visited keys. */
  ghost function Visited(m: Payload, ks: seq<Text>): Payload {
    Payload(map k | k in ks && k in m.fields :: m.fields[k])
  }

  lemma EntryApplied(m: Payload, ks: seq<Text>, i: nat)
    requires i < |ks| && forall k <- ks :: k in m.fields
    ensures var f := MsgField(1, EntryMsg(ks[i], m.fields[ks[i]]));
            WriteableField(f) && Apply(PayloadDesc(), Visited(m, ks[..i]), f) == Ok(Visited(m, ks[..i + 1]))
  {
    var key, value := ks[i], m.fields[ks[i]];
    var f := MsgField(1, EntryMsg(key, value));
    assert IsEntry(f.msg);
    assert ks[..i + 1] == ks[..i] + [key];
    assert Visited(m, ks[..i]).fields[key := value] == Visited(m, ks[..i + 1]).fields;
  }

  lemma PayloadFold(m: Payload, ks: seq<Text>)
    requires IsOrder(m, ks)
    ensures WriteableAll(PayloadFields(m, ks)) && Fold(PayloadDesc(), NoPayload, PayloadFields(m, ks)) == Ok(m)
  {
    hide Apply, Fold, EntryMsg, WriteableField, WriteableAll;
    var fs := PayloadFields(m, ks);
    var put := (done: seq<Text>) => Visited(m, done);
    forall i | 0 <= i < |fs|
      ensures WriteableField(fs[i]) && Apply(PayloadDesc(), put(ks[..i]), fs[i]) == Ok(put(ks[..i + 1]))
    {
      EntryApplied(m, ks, i);
    }
    FoldAll(PayloadDesc(), fs, ks, put);
    assert put([]) == NoPayload;
    assert put(ks).fields == m.fields;
  }

  /** Unmarshal undoes Marshal for every Payload, in whatever order the map was visited. */
  lemma PayloadRoundTrip(m: Message<Payload>, ks: seq<Text>)
    requires ValidPayload(m) && IsOrder(m.known, ks)
    ensures WriteableAll(PayloadMsg(m, ks).fields)
    ensures IsSlice(Encode(PayloadMsg(m, ks))) ==>
              DecodeMsg(PayloadDesc(), Message(NoPayload, []), Encode(PayloadMsg(m, ks)), 0) == Ok(m)
  {
    PayloadFold(m.known, ks);
    if IsSlice(Encode(PayloadMsg(m, ks))) { MessageDecoded(PayloadDesc(), NoPayload, PayloadMsg(m, ks)); }
  }

  // ----- Sub-messages

  /** The payload of a field is shorter than the message it is part of. */
  lemma {:induction false} NestedIsSlice(msg: Msg, k: nat)
    requires WriteableAll(msg.fields) && k < |msg.fields| && msg.fields[k].MsgField?
    requires IsSlice(Encode(msg))
    ensures WriteableField(msg.fields[k]) && IsSlice(Encode(msg.fields[k].msg))
  {
    WriteableAt(msg.fields, k);
    NestedShorter(msg.fields, k);
  }

  lemma {:induction false} NestedShorter(fs: seq<Field>, k: nat)
    requires WriteableAll(fs) && k < |fs| && fs[k].MsgField? && WriteableField(fs[k])
    ensures |Encode(fs[k].msg)| < |EncodeFields(fs)|
    decreases k
  {
    if k == 0 { EncodeDelimited(fs[0]); } else { NestedShorter(fs[1..], k - 1); }
  }

  /** Unmarshal of a sub-message into `m`; a slice is always shorter than 2^63. */
  function DecodeNested<M>(d: Desc<M>, m: Message<M>, s: Text): Result<Message<M>> {
    if IsSlice(s) then DecodeMsg(d, m, s, 0) else Err(InvalidLength)
  }

  // ----- Record

  datatype Record = Record(dataType: int, timestamp: int, data: Option<Message<Payload>>)

  const NoRecord := Record(0, 0, None)

  /** A repeated occurrence of `data` is merged into the first. */
  function SetRecordData(m: Record, s: Text): Result<Record> {
    var p :- DecodeNested(PayloadDesc(), if m.data.Some? then m.data.value else Message(NoPayload, []), s);
    Ok(m.(data := Some(p)))
  }

  function RecordDesc(): Desc<Record> {
    Desc(num => if num == 1 then Number(W32) else if num == 2 then Number(W64) else if num == 3 then Delimited else Absent,
         (m: Record, num, v) => if num == 1 then m.(dataType := Signed(W32, v)) else m.(timestamp := Signed(W64, v)),
         (m: Record, num, s) => SetRecordData(m, s),
         (m: Record, num, k, v) => m)
  }

  /** `ks` orders the keys of the payload. */
  ghost predicate IsRecordOrder(m: Record, ks: seq<Text>) {
    m.data.Some? ==> IsOrder(m.data.value.known, ks)
  }

  function RecordData(m: Record, ks: seq<Text>): seq<Field>
    requires m.data.Some? ==> forall k <- ks :: k in m.data.value.known.fields
  {
    if m.data.Some? then [MsgField(3, PayloadMsg(m.data.value, ks))] else []
  }

  function RecordFields(m: Record, ks: seq<Text>): seq<Field>
    requires m.data.Some? ==> forall k <- ks :: k in m.data.value.known.fields
  {
    OptNumber(1, m.dataType) + OptNumber(2, m.timestamp) + RecordData(m, ks)
  }

  function RecordMsg(m: Message<Record>, ks: seq<Text>): Msg
    requires m.known.data.Some? ==> forall k <- ks :: k in m.known.data.value.known.fields
  {
    Msg(RecordFields(m.known, ks), m.unknown)
  }

  ghost predicate ValidRecord(m: Message<Record>) {
    && FitsSigned(W32, m.known.dataType) && FitsSigned(W64, m.known.timestamp)
    && (m.known.data.Some? ==> ValidPayload(m.known.data.value))
    && Keepable(RecordDesc(), m.unknown)
  }

  lemma RecordWriteable(m: Record, ks: seq<Text>)
    requires IsRecordOrder(m, ks)
    requires m.data.Some? ==> ValidPayload(m.data.value)
    ensures WriteableAll(RecordData(m, ks)) && WriteableAll(RecordFields(m, ks))
  {
    if m.data.Some? {
      PayloadFold(m.data.value.known, ks);
      EachWriteable(RecordData(m, ks));
    }
    EachWriteable(OptNumber(1, m.dataType));
    EachWriteable(OptNumber(2, m.timestamp));
    WriteableConcat(OptNumber(1, m.dataType), OptNumber(2, m.timestamp));
    WriteableConcat(OptNumber(1, m.dataType) + OptNumber(2, m.timestamp), RecordData(m, ks));
  }

  lemma RecordDataFold(m: Record, ks: seq<Text>)
    requires IsRecordOrder(m, ks) && WriteableAll(RecordData(m, ks))
    requires m.data.Some? ==> ValidPayload(m.data.value)
    requires m.data.Some? ==> WriteableAll(PayloadMsg(m.data.value, ks).fields) && IsSlice(Encode(PayloadMsg(m.data.value, ks)))
    ensures Fold(RecordDesc(), m.(data := None), RecordData(m, ks)) == Ok(m)
  {
    hide DecodeMsg, Encode, PayloadMsg;
    if m.data.Some? {
      PayloadRoundTrip(m.data.value, ks);
      var f := MsgField(3, PayloadMsg(m.data.value, ks));
      WriteableAt([f], 0);
      FoldOne(RecordDesc(), m.(data := None), f);
    }
  }

  lemma RecordFold(m: Record, ks: seq<Text>)
    requires FitsSigned(W32, m.dataType) && FitsSigned(W64, m.timestamp) && IsRecordOrder(m, ks)
    requires m.data.Some? ==> ValidPayload(m.data.value)
    requires m.data.Some? ==> WriteableAll(PayloadMsg(m.data.value, ks).fields) && IsSlice(Encode(PayloadMsg(m.data.value, ks)))
    ensures WriteableAll(RecordFields(m, ks)) && Fold(RecordDesc(), NoRecord, RecordFields(m, ks)) == Ok(m)
  {
    hide Fold, OptNumber, WriteableAll, Encode, PayloadMsg, RecordData, DecodeNested;
    var d, m0 := RecordDesc(), NoRecord;
    var m1 := m0.(dataType := m.dataType);
    var m2 := m1.(timestamp := m.timestamp);
    RecordWriteable(m, ks);
    SignedUndoesUnsigned(W32, m.dataType);
    SignedUndoesUnsigned(W64, m.timestamp);
    FoldNumber(d, m0, 1, W32, m.dataType, m1);
    FoldNumber(d, m1, 2, W64, m.timestamp, m2);
    RecordDataFold(m, ks);
    assert m.(data := None) == m2;
    FoldThen(d, m0, OptNumber(1, m.dataType), m1, OptNumber(2, m.timestamp), m2);
    FoldThen(d, m0, OptNumber(1, m.dataType) + OptNumber(2, m.timestamp), m2, RecordData(m, ks), m);
  }

  /** Unmarshal undoes Marshal for every Record, with its payload in any order. */
  lemma RecordRoundTrip(m: Message<Record>, ks: seq<Text>)
    requires ValidRecord(m) && IsRecordOrder(m.known, ks)
    ensures WriteableAll(RecordMsg(m, ks).fields)
    ensures IsSlice(Encode(RecordMsg(m, ks))) ==>
              DecodeMsg(RecordDesc(), Message(NoRecord, []), Encode(RecordMsg(m, ks)), 0) == Ok(m)
  {
    RecordWriteable(m.known, ks);
    var msg := RecordMsg(m, ks);
    if IsSlice(Encode(msg)) {
      if m.known.data.Some? {
        var k := |msg.fields| - 1;
        assert msg.fields[k] == RecordData(m.known, ks)[0];
        NestedIsSlice(msg, k);
      }
      RecordFold(m.known, ks);
      MessageDecoded(RecordDesc(), NoRecord, msg);
    }
  }

  // ----- Command

  datatype Command = Command(task: Option<Message<Task>>, configs: seq<Message<Config>>)

  const NoCommand := Command(None, [])

  function SetCommand(m: Command, num: int, s: Text): Result<Command> {
    if num == 2 then
      var t :- DecodeNested(TaskDesc(), if m.task.Some? then m.task.value else Message(NoTask, []), s);
      Ok(m.(task := Some(t)))
    else
      var c :- DecodeNested(ConfigDesc(), Message(NoConfig, []), s);
      Ok(m.(configs := m.configs + [c]))
  }

  function CommandDesc(): Desc<Command> {
    Desc(num => if num == 2 || num == 3 then Delimited else Absent,
         (m: Command, num, v) => m,
         (m: Command, num, s) => SetCommand(m, num, s),
         (m: Command, num, k, v) => m)
  }

  function TaskField(m: Command): seq<Field> {
    if m.task.Some? then [MsgField(2, TaskMsg(m.task.value))] else []
  }

  function ConfigsFields(cs: seq<Message<Config>>): (r: seq<Field>)
    ensures |r| == |cs| && forall k :: 0 <= k < |cs| ==> r[k] == MsgField(3, ConfigMsg(cs[k]))
  {
    seq(|cs|, k requires 0 <= k < |cs| => MsgField(3, ConfigMsg(cs[k])))
  }

  function CommandMsg(m: Message<Command>): Msg {
    Msg(TaskField(m.known) + ConfigsFields(m.known.configs), m.unknown)
  }

  ghost predicate ValidCommand(m: Message<Command>) {
    && (m.known.task.Some? ==> ValidTask(m.known.task.value))
    && (forall k :: 0 <= k < |m.known.configs| ==> ValidConfig(m.known.configs[k]))
    && Keepable(CommandDesc(), m.unknown)
  }

  lemma CommandWriteable(m: Message<Command>)
    requires ValidCommand(m)
    ensures WriteableAll(TaskField(m.known)) && WriteableAll(ConfigsFields(m.known.configs))
    ensures WriteableAll(CommandMsg(m).fields)
  {
    if m.known.task.Some? { TaskFold(m.known.task.value.known); }
    EachWriteable(TaskField(m.known));
    var fs := ConfigsFields(m.known.configs);
    forall k | 0 <= k < |fs| ensures WriteableField(fs[k]) {
      ConfigFold(m.known.configs[k].known);
    }
    EachWriteable(fs);
    WriteableConcat(TaskField(m.known), fs);
  }

  /** The sub-messages of a written command are slices. */
  lemma CommandSlices(m: Message<Command>)
    requires ValidCommand(m) && WriteableAll(CommandMsg(m).fields) && IsSlice(Encode(CommandMsg(m)))
    ensures m.known.task.Some? ==> WriteableAll(TaskMsg(m.known.task.value).fields) && IsSlice(Encode(TaskMsg(m.known.task.value)))
    ensures forall k :: 0 <= k < |m.known.configs| ==>
              WriteableAll(ConfigMsg(m.known.configs[k]).fields) && IsSlice(Encode(ConfigMsg(m.known.configs[k])))
  {
    hide Encode, TaskMsg, ConfigMsg, WriteableAll, ValidCommand, ConfigsFields;
    var msg, n := CommandMsg(m), |TaskField(m.known)|;
    if m.known.task.Some? { NestedIsSlice(msg, 0); }
    forall k | 0 <= k < |m.known.configs|
      ensures WriteableAll(ConfigMsg(m.known.configs[k]).fields) && IsSlice(Encode(ConfigMsg(m.known.configs[k])))
    {
      assert msg.fields[n + k] == ConfigsFields(m.known.configs)[k];
      NestedIsSlice(msg, n + k);
    }
  }

  lemma TaskFieldFold(m: Command)
    requires m.task.Some? ==> ValidTask(m.task.value) && WriteableAll(TaskMsg(m.task.value).fields) && IsSlice(Encode(TaskMsg(m.task.value)))
    ensures WriteableAll(TaskField(m)) && Fold(CommandDesc(), NoCommand, TaskField(m)) == Ok(m.(configs := []))
  {
    hide DecodeMsg, Encode, TaskMsg;
    if m.task.Some? {
      TaskRoundTrip(m.task.value);
      FoldOne(CommandDesc(), NoCommand, MsgField(2, TaskMsg(m.task.value)));
    }
  }

  lemma ConfigsFold(m: Command)
    requires forall k :: 0 <= k < |m.configs| ==>
               && ValidConfig(m.configs[k]) && WriteableAll(ConfigMsg(m.configs[k]).fields)
               && IsSlice(Encode(ConfigMsg(m.configs[k])))
    ensures WriteableAll(ConfigsFields(m.configs))
    ensures Fold(CommandDesc(), m.(configs := []), ConfigsFields(m.configs)) == Ok(m)
  {
    hide DecodeMsg, Encode, ConfigMsg, Fold;
    var fs, cs := ConfigsFields(m.configs), m.configs;
    var put := (done: seq<Message<Config>>) => m.(configs := done);
    forall k | 0 <= k < |fs|
      ensures WriteableField(fs[k]) && Apply(CommandDesc(), put(cs[..k]), fs[k]) == Ok(put(cs[..k + 1]))
    {
      ConfigRoundTrip(cs[k]);
      assert cs[..k] + [cs[k]] == cs[..k + 1];
    }
    FoldAll(CommandDesc(), fs, cs, put);
  }

  /** Unmarshal undoes Marshal for every Command, with its task and its configs. */
  lemma CommandRoundTrip(m: Message<Command>)
    requires ValidCommand(m)
    ensures WriteableAll(CommandMsg(m).fields)
    ensures IsSlice(Encode(CommandMsg(m))) ==>
              DecodeMsg(CommandDesc(), Message(NoCommand, []), Encode(CommandMsg(m)), 0) == Ok(m)
  {
    CommandWriteable(m);
    if IsSlice(Encode(CommandMsg(m))) {
      CommandSlices(m);
      TaskFieldFold(m.known);
      ConfigsFold(m.known);
      FoldThen(CommandDesc(), NoCommand, TaskField(m.known), m.known.(configs := []), ConfigsFields(m.known.configs), m.known);
      MessageDecoded(CommandDesc(), NoCommand, CommandMsg(m));
    }
  }

  // ----- PackagedData

  datatype PackagedData = PackagedData(
    records: seq<Message<EncodedRecord>>, agentId: Text,
    intranetIpv4: seq<Text>, extranetIpv4: seq<Text>, intranetIpv6: seq<Text>, extranetIpv6: seq<Text>,
    hostname: Text, version: Text, product: Text, tenantAuthCode: Text, tenantId: int, hostId: int)

  const NoPackagedData := PackagedData([], [], [], [], [], [], [], [], [], [], 0, 0)

  function SetPackaged(m: PackagedData, num: int, s: Text): Result<PackagedData> {
    match num
    case 1 =>
      var r :- DecodeNested(EncodedRecordDesc(), Message(NoEncodedRecord, []), s);
      Ok(m.(records := m.records + [r]))
    case 2 => Ok(m.(agentId := s))
    case 3 => Ok(m.(intranetIpv4 := m.intranetIpv4 + [s]))
    case 4 => Ok(m.(extranetIpv4 := m.extranetIpv4 + [s]))
    case 5 => Ok(m.(intranetIpv6 := m.intranetIpv6 + [s]))
    case 6 => Ok(m.(extranetIpv6 := m.extranetIpv6 + [s]))
    case 7 => Ok(m.(hostname := s))
    case 8 => Ok(m.(version := s))
    case 9 => Ok(m.(product := s))
    case _ => Ok(m.(tenantAuthCode := s))
  }

  function PackagedDataDesc(): Desc<PackagedData> {
    Desc(num => if 1 <= num <= 10 then Delimited else if num == 11 || num == 12 then Number(W32) else Absent,
         (m: PackagedData, num, v) => if num == 11 then m.(tenantId := Signed(W32, v)) else m.(hostId := Signed(W32, v)),
         (m: PackagedData, num, s) => SetPackaged(m, num, s),
         (m: PackagedData, num, k, v) => m)
  }

  function RecordsFields(rs: seq<Message<EncodedRecord>>): (r: seq<Field>)
    ensures |r| == |rs| && forall k :: 0 <= k < |rs| ==> r[k] == MsgField(1, EncodedRecordMsg(rs[k]))
  {
    seq(|rs|, k requires 0 <= k < |rs| => MsgField(1, EncodedRecordMsg(rs[k])))
  }

  function Addresses(m: PackagedData): seq<Field> {
    Repeated(3, m.intranetIpv4) + Repeated(4, m.extranetIpv4) +
    Repeated(5, m.intranetIpv6) + Repeated(6, m.extranetIpv6)
  }

  /** The fields up to the addresses, and those behind them. */
  function FirstFields(m: PackagedData): seq<Field> {
    RecordsFields(m.records) + OptText(2, m.agentId) + Addresses(m)
  }

  function LastFields(m: PackagedData): seq<Field> {
    OptText(7, m.hostname) + OptText(8, m.version) + OptText(9, m.product) + OptText(10, m.tenantAuthCode) +
    OptNumber(11, m.tenantId) + OptNumber(12, m.hostId)
  }

  function PackagedDataMsg(m: Message<PackagedData>): Msg {
    Msg(FirstFields(m.known) + LastFields(m.known), m.unknown)
  }

  ghost predicate ValidPackagedData(m: Message<PackagedData>) {
    && FitsSigned(W32, m.known.tenantId) && FitsSigned(W32, m.known.hostId)
    && (forall k :: 0 <= k < |m.known.records| ==> ValidEncodedRecord(m.known.records[k]))
    && Keepable(PackagedDataDesc(), m.unknown)
  }

  /** Only the records and the addresses of `m`. */
  function FirstPart(m: PackagedData): PackagedData {
    NoPackagedData.(records := m.records, agentId := m.agentId, intranetIpv4 := m.intranetIpv4,
                    extranetIpv4 := m.extranetIpv4, intranetIpv6 := m.intranetIpv6, extranetIpv6 := m.extranetIpv6)
  }

  ghost predicate RecordsAreSlices(rs: seq<Message<EncodedRecord>>) {
    forall k :: 0 <= k < |rs| ==> WriteableAll(EncodedRecordMsg(rs[k]).fields) && IsSlice(Encode(EncodedRecordMsg(rs[k])))
  }

  lemma RecordsFold(m: PackagedData)
    requires forall k :: 0 <= k < |m.records| ==> ValidEncodedRecord(m.records[k])
    requires RecordsAreSlices(m.records)
    ensures WriteableAll(RecordsFields(m.records))
    ensures Fold(PackagedDataDesc(), NoPackagedData, RecordsFields(m.records)) == Ok(NoPackagedData.(records := m.records))
  {
    hide DecodeMsg, Encode, EncodedRecordMsg, Fold;
    var fs, rs := RecordsFields(m.records), m.records;
    var put := (done: seq<Message<EncodedRecord>>) => NoPackagedData.(records := done);
    forall k | 0 <= k < |fs|
      ensures WriteableField(fs[k]) && Apply(PackagedDataDesc(), put(rs[..k]), fs[k]) == Ok(put(rs[..k + 1]))
    {
      EncodedRecordRoundTrip(rs[k]);
      assert rs[..k] + [rs[k]] == rs[..k + 1];
    }
    FoldAll(PackagedDataDesc(), fs, rs, put);
  }

  /** The message with the addresses of field `num` replaced. */
  function WithAddresses(m: PackagedData, num: int, ss: seq<Text>): PackagedData {
    match num
    case 3 => m.(intranetIpv4 := ss)
    case 4 => m.(extranetIpv4 := ss)
    case 5 => m.(intranetIpv6 := ss)
    case _ => m.(extranetIpv6 := ss)
  }

  lemma AddressFold(m: PackagedData, num: nat, ss: seq<Text>)
    requires 3 <= num <= 6 && WithAddresses(m, num, []) == m
    ensures WriteableAll(Repeated(num, ss))
    ensures Fold(PackagedDataDesc(), m, Repeated(num, ss)) == Ok(WithAddresses(m, num, ss))
  {
    hide Fold, WriteableAll, Repeated, DecodeNested;
    var d, put := PackagedDataDesc(), (done: seq<Text>) => WithAddresses(m, num, done);
    forall done, s ensures d.setDelimited(put(done), num, s) == Ok(put(done + [s])) {}
    FoldRepeated(d, num, ss, put);
  }

  lemma AddressesFold(m: PackagedData, m0: PackagedData)
    requires m0.intranetIpv4 == m0.extranetIpv4 == m0.intranetIpv6 == m0.extranetIpv6 == []
    ensures WriteableAll(Addresses(m))
    ensures Fold(PackagedDataDesc(), m0, Addresses(m)) ==
            Ok(m0.(intranetIpv4 := m.intranetIpv4, extranetIpv4 := m.extranetIpv4,
                   intranetIpv6 := m.intranetIpv6, extranetIpv6 := m.extranetIpv6))
  {
    hide Fold, Repeated, WriteableAll, PackagedDataDesc;
    var d := PackagedDataDesc();
    var m1 := WithAddresses(m0, 3, m.intranetIpv4);
    var m2 := WithAddresses(m1, 4, m.extranetIpv4);
    var m3 := WithAddresses(m2, 5, m.intranetIpv6);
    var m4 := WithAddresses(m3, 6, m.extranetIpv6);
    var f1, f2 := Repeated(3, m.intranetIpv4), Repeated(4, m.extranetIpv4);
    var f3, f4 := Repeated(5, m.intranetIpv6), Repeated(6, m.extranetIpv6);
    AddressFold(m0, 3, m.intranetIpv4);
    AddressFold(m1, 4, m.extranetIpv4);
    AddressFold(m2, 5, m.intranetIpv6);
    AddressFold(m3, 6, m.extranetIpv6);
    FoldThen(d, m0, f1, m1, f2, m2);
    FoldThen(d, m0, f1 + f2, m2, f3, m3);
    FoldThen(d, m0, f1 + f2 + f3, m3, f4, m4);
  }

  lemma FirstFold(m: PackagedData)
    requires forall k :: 0 <= k < |m.records| ==> ValidEncodedRecord(m.records[k])
    requires RecordsAreSlices(m.records)
    ensures WriteableAll(FirstFields(m)) && Fold(PackagedDataDesc(), NoPackagedData, FirstFields(m)) == Ok(FirstPart(m))
  {
    hide Fold, OptText, Addresses, RecordsFields, WriteableAll, DecodeNested, EncodedRecordMsg;
    var d, m0 := PackagedDataDesc(), NoPackagedData;
    var m1 := m0.(records := m.records);
    var m2 := m1.(agentId := m.agentId);
    RecordsFold(m);
    FoldText(d, m1, 2, m.agentId, m2);
    AddressesFold(m, m2);
    FoldThen(d, m0, RecordsFields(m.records), m1, OptText(2, m.agentId), m2);
    FoldThen(d, m0, RecordsFields(m.records) + OptText(2, m.agentId), m2, Addresses(m), FirstPart(m));
  }

  lemma LastFold(m: PackagedData)
    requires FitsSigned(W32, m.tenantId) && FitsSigned(W32, m.hostId)
    ensures WriteableAll(LastFields(m)) && Fold(PackagedDataDesc(), FirstPart(m), LastFields(m)) == Ok(m)
  {
    hide Fold, OptText, OptNumber, WriteableAll, DecodeNested;
    var d, m0 := PackagedDataDesc(), FirstPart(m);
    var m1 := m0.(hostname := m.hostname);
    var m2 := m1.(version := m.version);
    var m3 := m2.(product := m.product);
    var m4 := m3.(tenantAuthCode := m.tenantAuthCode);
    var m5 := m4.(tenantId := m.tenantId);
    var f1, f2, f3 := OptText(7, m.hostname), OptText(8, m.version), OptText(9, m.product);
    var f4, f5, f6 := OptText(10, m.tenantAuthCode), OptNumber(11, m.tenantId), OptNumber(12, m.hostId);
    SignedUndoesUnsigned(W32, m.tenantId);
    SignedUndoesUnsigned(W32, m.hostId);
    FoldText(d, m0, 7, m.hostname, m1);
    FoldText(d, m1, 8, m.version, m2);
    FoldText(d, m2, 9, m.product, m3);
    FoldText(d, m3, 10, m.tenantAuthCode, m4);
    FoldNumber(d, m4, 11, W32, m.tenantId, m5);
    FoldNumber(d, m5, 12, W32, m.hostId, m);
    FoldThen(d, m0, f1, m1, f2, m2);
    FoldThen(d, m0, f1 + f2, m2, f3, m3);
    FoldThen(d, m0, f1 + f2 + f3, m3, f4, m4);
    FoldThen(d, m0, f1 + f2 + f3 + f4, m4, f5, m5);
    FoldThen(d, m0, f1 + f2 + f3 + f4 + f5, m5, f6, m);
  }

  lemma RecordsWriteable(rs: seq<Message<EncodedRecord>>)
    requires forall k :: 0 <= k < |rs| ==> ValidEncodedRecord(rs[k])
    ensures WriteableAll(RecordsFields(rs))
  {
    var fs := RecordsFields(rs);
    forall k | 0 <= k < |fs| ensures WriteableField(fs[k]) {
      EncodedRecordFold(rs[k].known);
    }
    EachWriteable(fs);
  }

  lemma PackagedDataWriteable(m: Message<PackagedData>)
    requires ValidPackagedData(m)
    ensures WriteableAll(PackagedDataMsg(m).fields)
  {
    hide WriteableAll, RecordsFields, Addresses, Fold;
    var k := m.known;
    LastFold(k);
    RecordsWriteable(k.records);
    AddressesFold(k, NoPackagedData);
    EachWriteable(OptText(2, k.agentId));
    WriteableConcat(RecordsFields(k.records), OptText(2, k.agentId));
    WriteableConcat(RecordsFields(k.records) + OptText(2, k.agentId), Addresses(k));
    WriteableConcat(FirstFields(k), LastFields(k));
  }

  lemma PackagedDataSlices(m: Message<PackagedData>)
    requires ValidPackagedData(m) && WriteableAll(PackagedDataMsg(m).fields) && IsSlice(Encode(PackagedDataMsg(m)))
    ensures RecordsAreSlices(m.known.records)
  {
    hide Encode, EncodedRecordMsg, WriteableAll;
    var msg, rs := PackagedDataMsg(m), m.known.records;
    forall k | 0 <= k < |rs|
      ensures WriteableAll(EncodedRecordMsg(rs[k]).fields) && IsSlice(Encode(EncodedRecordMsg(rs[k])))
    {
      assert msg.fields[k] == RecordsFields(rs)[k];
      NestedIsSlice(msg, k);
    }
  }

  /** Unmarshal undoes Marshal for every PackagedData, with all its records. */
  lemma PackagedDataRoundTrip(m: Message<PackagedData>)
    requires ValidPackagedData(m)
    ensures WriteableAll(PackagedDataMsg(m).fields)
    ensures IsSlice(Encode(PackagedDataMsg(m))) ==>
              DecodeMsg(PackagedDataDesc(), Message(NoPackagedData, []), Encode(PackagedDataMsg(m)), 0) == Ok(m)
  {
    hide WriteableAll, FirstFields, LastFields, Fold;
    PackagedDataWriteable(m);
    if IsSlice(Encode(PackagedDataMsg(m))) {
      PackagedDataSlices(m);
      FirstFold(m.known);
      LastFold(m.known);
      FoldThen(PackagedDataDesc(), NoPackagedData, FirstFields(m.known), FirstPart(m.known), LastFields(m.known), m.known);
      MessageDecoded(PackagedDataDesc(), NoPackagedData, PackagedDataMsg(m));
    }
  }
}
