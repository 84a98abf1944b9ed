/** The bytes of the seven messages, tag by tag as the generated Marshal functions write them. The functions here
    name no field number. */
module Layout {
  import opened Varint
  import opened Skip
  import opened Wire
  import opened Unmarshal
  import opened RoundTrip
  import opened Messages
  import opened Wrappers

  // ----- Parts

  /** A number behind its tag; a zero is not written. */
  function NumberPart(tag: byte, x: int): seq<byte> {
    if x == 0 then [] else [tag] + VarintBytes(Unsigned(x))
  }

  /** Bytes behind a tag and their length. */
  function Part(tag: byte, s: Text): seq<byte> {
    [tag] + VarintBytes(|s|) + s
  }

  /** A text behind its tag; an empty one is not written. */
  function TextPart(tag: byte, s: Text): seq<byte> {
    if s == [] then [] else Part(tag, s)
  }

  /** Each element behind the same tag, empty ones too. */
  function Parts(tag: byte, ss: seq<Text>): seq<byte> {
    if ss == [] then [] else Part(tag, ss[0]) + Parts(tag, ss[1..])
  }

  // ----- Messages

  function EncodedRecordBytes(m: Message<EncodedRecord>): seq<byte> {
    NumberPart(0x08, m.known.dataType) + NumberPart(0x10, m.known.timestamp) + TextPart(0x1a, m.known.data) + m.unknown
  }

  function TaskBytes(m: Message<Task>): seq<byte> {
    NumberPart(0x08, m.known.dataType) + TextPart(0x12, m.known.objectName) + TextPart(0x1a, m.known.data) +
    TextPart(0x22, m.known.token) + m.unknown
  }

  function ConfigBytes(m: Message<Config>): seq<byte> {
    TextPart(0x0a, m.known.name) + TextPart(0x12, m.known.typ) + TextPart(0x1a, m.known.version) +
    TextPart(0x22, m.known.sha256) + TextPart(0x2a, m.known.signature) + Parts(0x32, m.known.downloadUrls) +
    TextPart(0x3a, m.known.detail) + m.unknown
  }

  /** An entry of the map: key and value, even when empty. */
  function EntryBytesOf(key: Text, value: Text): seq<byte> {
    Part(0x0a, key) + Part(0x12, value)
  }

  function EachEntry(m: Payload, ks: seq<Text>): (r: seq<Text>)
    requires forall k <- ks :: k in m.fields
    ensures |r| == |ks| && forall i :: 0 <= i < |ks| ==> r[i] == EntryBytesOf(ks[i], m.fields[ks[i]])
  {
    seq(|ks|, i requires 0 <= i < |ks| => EntryBytesOf(ks[i], m.fields[ks[i]]))
  }

  /** `ks` is the order in which the map was visited. */
  function PayloadBytes(m: Message<Payload>, ks: seq<Text>): seq<byte>
    requires forall k <- ks :: k in m.known.fields
  {
    Parts(0x0a, EachEntry(m.known, ks)) + m.unknown
  }

  function RecordBytes(m: Message<Record>, ks: seq<Text>): seq<byte>
    requires m.known.data.Some? ==> forall k <- ks :: k in m.known.data.value.known.fields
  {
    NumberPart(0x08, m.known.dataType) + NumberPart(0x10, m.known.timestamp) +
    (if m.known.data.Some? then Part(0x1a, PayloadBytes(m.known.data.value, ks)) else []) + m.unknown
  }

  function EachConfig(cs: seq<Message<Config>>): (r: seq<Text>)
    ensures |r| == |cs| && forall i :: 0 <= i < |cs| ==> r[i] == ConfigBytes(cs[i])
  {
    seq(|cs|, i requires 0 <= i < |cs| => ConfigBytes(cs[i]))
  }

  function CommandBytes(m: Message<Command>): seq<byte> {
    (if m.known.task.Some? then Part(0x12, TaskBytes(m.known.task.value)) else []) +
    Parts(0x1a, EachConfig(m.known.configs)) + m.unknown
  }

  function EachRecord(rs: seq<Message<EncodedRecord>>): (r: seq<Text>)
    ensures |r| == |rs| && forall i :: 0 <= i < |rs| ==> r[i] == EncodedRecordBytes(rs[i])
  {
    seq(|rs|, i requires 0 <= i < |rs| => EncodedRecordBytes(rs[i]))
  }

  function PackagedDataBytes(m: Message<PackagedData>): seq<byte> {
    Parts(0x0a, EachRecord(m.known.records)) + TextPart(0x12, m.known.agentId) +
    Parts(0x1a, m.known.intranetIpv4) + Parts(0x22, m.known.extranetIpv4) +
    Parts(0x2a, m.known.intranetIpv6) + Parts(0x32, m.known.extranetIpv6) +
    TextPart(0x3a, m.known.hostname) + TextPart(0x42, m.known.version) + TextPart(0x4a, m.known.product) +
    TextPart(0x52, m.known.tenantAuthCode) + NumberPart(0x58, m.known.tenantId) + NumberPart(0x60, m.known.hostId) +
    m.unknown
  }

  // ----- Parts are encoded fields

  /** A list of fields and the bytes it is written as. */
  ghost predicate Writes(fs: seq<Field>, bytes: seq<byte>) {
    WriteableAll(fs) && EncodeFields(fs) == bytes
  }

  lemma Then(a: seq<Field>, x: seq<byte>, b: seq<Field>, y: seq<byte>)
    requires Writes(a, x) && Writes(b, y)
    ensures Writes(a + b, x + y)
  {
    EncodeConcat(a, b);
  }

  lemma Unfold(fs: seq<Field>, bytes: seq<byte>)
    requires Writes(fs, bytes)
    ensures WriteableAll(fs) && EncodeFields(fs) == bytes
  {
  }

  lemma OneField(f: Field)
    requires WriteableField(f)
    ensures Writes([f], EncodeField(f))
  {
    assert [f][1..] == [];
    assert EncodeFields([f]) == EncodeField(f) + [];
  }

  lemma NumberWritten(num: nat, tag: byte, x: int)
    requires ShortTag(num) && tag == 8 * num
    ensures Writes(OptNumber(num, x), NumberPart(tag, x))
  {
    if x != 0 { OneField(VarintField(num, Unsigned(x))); }
  }

  lemma TextWritten(num: nat, tag: byte, s: Text)
    requires ShortTag(num) && tag == 8 * num + 2
    ensures Writes(OptText(num, s), TextPart(tag, s))
  {
    if s != [] { OneField(BytesField(num, s)); }
  }

  /** Fields that all carry the same tag. */
  lemma {:induction false} EachWritten(tag: byte, fs: seq<Field>, ss: seq<Text>)
    requires |fs| == |ss|
    requires forall k :: 0 <= k < |fs| ==> WriteableField(fs[k]) && EncodeField(fs[k]) == Part(tag, ss[k])
    ensures Writes(fs, Parts(tag, ss))
  {
    if fs != [] {
      EachWritten(tag, fs[1..], ss[1..]);
      assert fs == [fs[0]] + fs[1..];
    }
  }

  lemma NestedWritten(num: nat, tag: byte, msg: Msg, bytes: seq<byte>)
    requires ShortTag(num) && tag == 8 * num + 2 && WriteableAll(msg.fields) && Encode(msg) == bytes
    ensures WriteableField(MsgField(num, msg)) && EncodeField(MsgField(num, msg)) == Part(tag, bytes)
  {
  }

  lemma ThenNumber(a: seq<Field>, x: seq<byte>, num: nat, tag: byte, n: int)
    requires Writes(a, x) && ShortTag(num) && tag == 8 * num
    ensures Writes(a + OptNumber(num, n), x + NumberPart(tag, n))
  {
    hide Writes;
    NumberWritten(num, tag, n);
    Then(a, x, OptNumber(num, n), NumberPart(tag, n));
  }

  lemma ThenText(a: seq<Field>, x: seq<byte>, num: nat, tag: byte, s: Text)
    requires Writes(a, x) && ShortTag(num) && tag == 8 * num + 2
    ensures Writes(a + OptText(num, s), x + TextPart(tag, s))
  {
    hide Writes;
    TextWritten(num, tag, s);
    Then(a, x, OptText(num, s), TextPart(tag, s));
  }

  lemma ThenRepeated(a: seq<Field>, x: seq<byte>, num: nat, tag: byte, ss: seq<Text>)
    requires Writes(a, x) && ShortTag(num) && tag == 8 * num + 2
    ensures Writes(a + Repeated(num, ss), x + Parts(tag, ss))
  {
    EachWritten(tag, Repeated(num, ss), ss);
    hide Writes;
    Then(a, x, Repeated(num, ss), Parts(tag, ss));
  }

  // ----- Marshal writes these bytes

  /** Every EncodedRecord is written as its type behind 0x08, its time behind 0x10 and its data behind 0x1a. */
  lemma EncodedRecordLaidOut(m: Message<EncodedRecord>)
    ensures var msg := EncodedRecordMsg(m); WriteableAll(msg.fields) && Encode(msg) == EncodedRecordBytes(m)
  {
    hide Writes, OptNumber, OptText, NumberPart, TextPart;
    var k := m.known;
    NumberWritten(1, 0x08, k.dataType);
    var a, x := OptNumber(1, k.dataType), NumberPart(0x08, k.dataType);
    ThenNumber(a, x, 2, 0x10, k.timestamp);
    a, x := a + OptNumber(2, k.timestamp), x + NumberPart(0x10, k.timestamp);
    ThenText(a, x, 3, 0x1a, k.data);
    Unfold(EncodedRecordFields(k), x + TextPart(0x1a, k.data));
  }

  /** Every Task is written as a number behind 0x08 and texts behind 0x12, 0x1a and 0x22. */
  lemma TaskLaidOut(m: Message<Task>)
    ensures var msg := TaskMsg(m); WriteableAll(msg.fields) && Encode(msg) == TaskBytes(m)
  {
    hide Writes, OptNumber, OptText, NumberPart, TextPart;
    var k := m.known;
    NumberWritten(1, 0x08, k.dataType);
    var a, x := OptNumber(1, k.dataType), NumberPart(0x08, k.dataType);
    ThenText(a, x, 2, 0x12, k.objectName);
    a, x := a + OptText(2, k.objectName), x + TextPart(0x12, k.objectName);
    ThenText(a, x, 3, 0x1a, k.data);
    a, x := a + OptText(3, k.data), x + TextPart(0x1a, k.data);
    ThenText(a, x, 4, 0x22, k.token);
    Unfold(TaskFields(k), x + TextPart(0x22, k.token));
  }

  /** Every Config is written as texts behind 0x0a, 0x12, 0x1a, 0x22 and 0x2a, each URL behind 0x32, and the detail
      behind 0x3a. */
  lemma ConfigLaidOut(m: Message<Config>)
    ensures var msg := ConfigMsg(m); WriteableAll(msg.fields) && Encode(msg) == ConfigBytes(m)
  {
    hide Writes, OptText, TextPart, Parts, Repeated;
    var k := m.known;
    TextWritten(1, 0x0a, k.name);
    var a, x := OptText(1, k.name), TextPart(0x0a, k.name);
    ThenText(a, x, 2, 0x12, k.typ);
    a, x := a + OptText(2, k.typ), x + TextPart(0x12, k.typ);
    ThenText(a, x, 3, 0x1a, k.version);
    a, x := a + OptText(3, k.version), x + TextPart(0x1a, k.version);
    ThenText(a, x, 4, 0x22, k.sha256);
    a, x := a + OptText(4, k.sha256), x + TextPart(0x22, k.sha256);
    ThenText(a, x, 5, 0x2a, k.signature);
    a, x := a + OptText(5, k.signature), x + TextPart(0x2a, k.signature);
    ThenRepeated(a, x, 6, 0x32, k.downloadUrls);
    a, x := a + Repeated(6, k.downloadUrls), x + Parts(0x32, k.downloadUrls);
    ThenText(a, x, 7, 0x3a, k.detail);
    Unfold(ConfigFields(k), x + TextPart(0x3a, k.detail));
  }

  /** Every Payload is written as its entries behind 0x0a, each a key behind 0x0a and a value behind 0x12. */
  lemma PayloadLaidOut(m: Message<Payload>, ks: seq<Text>)
    requires forall k <- ks :: k in m.known.fields
    ensures var msg := PayloadMsg(m, ks); WriteableAll(msg.fields) && Encode(msg) == PayloadBytes(m, ks)
  {
    var fs := PayloadFields(m.known, ks);
    var ss := EachEntry(m.known, ks);
    forall i | 0 <= i < |fs| ensures WriteableField(fs[i]) && EncodeField(fs[i]) == Part(0x0a, ss[i]) {
      hide EntryMsg, Part;
      EntryBytes(ks[i], m.known.fields[ks[i]]);
      EntryLaidOut(ks[i], m.known.fields[ks[i]]);
      NestedWritten(1, 0x0a, EntryMsg(ks[i], m.known.fields[ks[i]]), ss[i]);
    }
    EachWritten(0x0a, fs, ss);
  }

  lemma EntryLaidOut(key: Text, value: Text)
    ensures LengthDelimited(1, key) + LengthDelimited(2, value) == EntryBytesOf(key, value)
  {
  }

  /** Every Record is written as its type behind 0x08, its time behind 0x10 and its payload behind 0x1a. */
  lemma RecordLaidOut(m: Message<Record>, ks: seq<Text>)
    requires m.known.data.Some? ==> forall k <- ks :: k in m.known.data.value.known.fields
    ensures var msg := RecordMsg(m, ks); WriteableAll(msg.fields) && Encode(msg) == RecordBytes(m, ks)
  {
    hide Writes, OptNumber, NumberPart, Part, PayloadBytes, PayloadMsg;
    var k := m.known;
    NumberWritten(1, 0x08, k.dataType);
    var a, x := OptNumber(1, k.dataType), NumberPart(0x08, k.dataType);
    ThenNumber(a, x, 2, 0x10, k.timestamp);
    a, x := a + OptNumber(2, k.timestamp), x + NumberPart(0x10, k.timestamp);
    var y := if k.data.Some? then Part(0x1a, PayloadBytes(k.data.value, ks)) else [];
    assert Writes(RecordData(k, ks), y) by {
      if k.data.Some? {
        PayloadLaidOut(k.data.value, ks);
        NestedWritten(3, 0x1a, PayloadMsg(k.data.value, ks), PayloadBytes(k.data.value, ks));
        OneField(RecordData(k, ks)[0]);
      } else {
        NothingWritten();
      }
    }
    Then(a, x, RecordData(k, ks), y);
    Unfold(RecordFields(k, ks), x + y);
  }

  lemma NothingWritten()
    ensures Writes([], [])
  {
  }

  /** Every Command is written as its task behind 0x12 and each config behind 0x1a. */
  lemma CommandLaidOut(m: Message<Command>)
    ensures var msg := CommandMsg(m); WriteableAll(msg.fields) && Encode(msg) == CommandBytes(m)
  {
    hide Writes, Part, TaskBytes, TaskMsg, ConfigBytes, ConfigMsg;
    var k := m.known;
    var x := if k.task.Some? then Part(0x12, TaskBytes(k.task.value)) else [];
    assert Writes(TaskField(k), x) by {
      if k.task.Some? {
        TaskLaidOut(k.task.value);
        NestedWritten(2, 0x12, TaskMsg(k.task.value), TaskBytes(k.task.value));
        OneField(TaskField(k)[0]);
      } else {
        NothingWritten();
      }
    }
    var fs := ConfigsFields(k.configs);
    var ss := EachConfig(k.configs);
    forall i | 0 <= i < |fs| ensures WriteableField(fs[i]) && EncodeField(fs[i]) == Part(0x1a, ss[i]) {
      ConfigLaidOut(k.configs[i]);
      NestedWritten(3, 0x1a, ConfigMsg(k.configs[i]), ss[i]);
    }
    EachWritten(0x1a, fs, ss);
    Then(TaskField(k), x, fs, Parts(0x1a, ss));
    Unfold(TaskField(k) + fs, x + Parts(0x1a, ss));
  }

  lemma RecordsWritten(rs: seq<Message<EncodedRecord>>)
    ensures Writes(RecordsFields(rs), Parts(0x0a, EachRecord(rs)))
  {
    hide Writes, Part, Parts, EncodedRecordBytes, EncodedRecordMsg;
    var fs := RecordsFields(rs);
    var ss := EachRecord(rs);
    forall i | 0 <= i < |fs| ensures WriteableField(fs[i]) && EncodeField(fs[i]) == Part(0x0a, ss[i]) {
      EncodedRecordLaidOut(rs[i]);
      NestedWritten(1, 0x0a, EncodedRecordMsg(rs[i]), ss[i]);
    }
    EachWritten(0x0a, fs, ss);
  }

  lemma AddressesWritten(m: PackagedData)
    ensures Writes(Addresses(m), Parts(0x1a, m.intranetIpv4) + Parts(0x22, m.extranetIpv4) +
                                 Parts(0x2a, m.intranetIpv6) + Parts(0x32, m.extranetIpv6))
  {
    hide Writes, Parts, Repeated;
    NothingWritten();
    ThenRepeated([], [], 3, 0x1a, m.intranetIpv4);
    var a, x := Repeated(3, m.intranetIpv4), Parts(0x1a, m.intranetIpv4);
    assert [] + a == a && [] + x == x;
    ThenRepeated(a, x, 4, 0x22, m.extranetIpv4);
    a, x := a + Repeated(4, m.extranetIpv4), x + Parts(0x22, m.extranetIpv4);
    ThenRepeated(a, x, 5, 0x2a, m.intranetIpv6);
    a, x := a + Repeated(5, m.intranetIpv6), x + Parts(0x2a, m.intranetIpv6);
    ThenRepeated(a, x, 6, 0x32, m.extranetIpv6);
  }

  lemma LastWritten(m: PackagedData)
    ensures Writes(LastFields(m), TextPart(0x3a, m.hostname) + TextPart(0x42, m.version) + TextPart(0x4a, m.product) +
                                  TextPart(0x52, m.tenantAuthCode) + NumberPart(0x58, m.tenantId) + NumberPart(0x60, m.hostId))
  {
    hide Writes, OptText, OptNumber, TextPart, NumberPart;
    TextWritten(7, 0x3a, m.hostname);
    var a, x := OptText(7, m.hostname), TextPart(0x3a, m.hostname);
    ThenText(a, x, 8, 0x42, m.version);
    a, x := a + OptText(8, m.version), x + TextPart(0x42, m.version);
    ThenText(a, x, 9, 0x4a, m.product);
    a, x := a + OptText(9, m.product), x + TextPart(0x4a, m.product);
    ThenText(a, x, 10, 0x52, m.tenantAuthCode);
    a, x := a + OptText(10, m.tenantAuthCode), x + TextPart(0x52, m.tenantAuthCode);
    ThenNumber(a, x, 11, 0x58, m.tenantId);
    a, x := a + OptNumber(11, m.tenantId), x + NumberPart(0x58, m.tenantId);
    ThenNumber(a, x, 12, 0x60, m.hostId);
  }

  /** Every PackagedData is written as its records behind 0x0a, the agent's id behind 0x12, the four lists of
      addresses behind 0x1a to 0x32, texts behind 0x3a to 0x52 and numbers behind 0x58 and 0x60. */
  lemma PackagedDataLaidOut(m: Message<PackagedData>)
    ensures var msg := PackagedDataMsg(m); WriteableAll(msg.fields) && Encode(msg) == PackagedDataBytes(m)
  {
    hide Writes, Parts, TextPart, NumberPart, OptText, Addresses, LastFields, RecordsFields, EachRecord;
    var k := m.known;
    var a, x := RecordsFields(k.records), Parts(0x0a, EachRecord(k.records));
    RecordsWritten(k.records);
    ThenText(a, x, 2, 0x12, k.agentId);
    a, x := a + OptText(2, k.agentId), x + TextPart(0x12, k.agentId);
    var y := Parts(0x1a, k.intranetIpv4) + Parts(0x22, k.extranetIpv4) +
             Parts(0x2a, k.intranetIpv6) + Parts(0x32, k.extranetIpv6);
    AddressesWritten(k);
    Then(a, x, Addresses(k), y);
    a := a + Addresses(k);
    var z := TextPart(0x3a, k.hostname) + TextPart(0x42, k.version) + TextPart(0x4a, k.product) +
             TextPart(0x52, k.tenantAuthCode) + NumberPart(0x58, k.tenantId) + NumberPart(0x60, k.hostId);
    LastWritten(k);
    Then(a, x + y, LastFields(k), z);
    Unfold(a + LastFields(k), x + y + z);
    Flatten4(x, Parts(0x1a, k.intranetIpv4), Parts(0x22, k.extranetIpv4), Parts(0x2a, k.intranetIpv6),
             Parts(0x32, k.extranetIpv6));
    Flatten6(x + y, TextPart(0x3a, k.hostname), TextPart(0x42, k.version), TextPart(0x4a, k.product),
             TextPart(0x52, k.tenantAuthCode), NumberPart(0x58, k.tenantId), NumberPart(0x60, k.hostId));
  }

  lemma Flatten4(x: seq<byte>, a: seq<byte>, b: seq<byte>, c: seq<byte>, d: seq<byte>)
    ensures x + (a + b + c + d) == x + a + b + c + d
  {
  }

  lemma Flatten6(x: seq<byte>, a: seq<byte>, b: seq<byte>, c: seq<byte>, d: seq<byte>, e: seq<byte>, f: seq<byte>)
    ensures x + (a + b + c + d + e + f) == x + a + b + c + d + e + f
  {
  }
}
