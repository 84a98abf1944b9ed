/** Whatever Unmarshal accepts is a message that the round trips apply to, so decoding, encoding and
    decoding again gives the same message, unknown fields included. */
module Reencode {
  import opened Varint
  import opened Skip
  import opened Wire
  import opened Unmarshal
  import opened RoundTrip
  import opened Messages
  import opened Wrappers

  /** The cases of the switch keep `inv`. */
  ghost predicate Keeps<M(!new)>(d: Desc<M>, inv: M -> bool) {
    && (forall m, num, v: nat :: inv(m) && d.kind(num).Number? && v < d.kind(num).width.Modulus() ==> inv(d.setNumber(m, num, v)))
    && (forall m, num, s :: inv(m) && d.setDelimited(m, num, s).Ok? ==> inv(d.setDelimited(m, num, s).value))
    && (forall m, num, k, v :: inv(m) ==> inv(d.setEntry(m, num, k, v)))
  }

  /** The bytes an unknown field is kept as are a well-formed field the switch does not know. */
  lemma SkippedIsForeign<M>(d: Desc<M>, data: seq<byte>, i: nat, n: nat) returns (w: RawField)
    requires IsSlice(data) && i < |data| && SkipUnknown(data, i, |data|) == Ok(n)
    requires DecodeVarint(W64, data, i).Ok?
    requires var num := FieldNum(DecodeVarint(W64, data, i).value.value); num > 0 && d.kind(num).Absent?
    ensures Foreign(d, w) && Bytes(w) == data[i..n]
  {
    hide SkipFrom, DecodeVarint, Bytes;
    var rest := data[i..];
    FieldFound(rest, 0);
    w :| Valid(w) && Bytes(w) == rest[0..n - i];
    assert rest[0..n - i] == data[i..n];
    TagAt(data, i, w);
  }

  lemma {:induction false} BytesAllAppend(ws: seq<RawField>, w: RawField)
    ensures BytesAll(ws + [w]) == BytesAll(ws) + Bytes(w)
  {
    if ws == [] {
      assert [w][1..] == [];
      assert [] + [w] == [w];
    } else {
      assert (ws + [w])[1..] == ws[1..] + [w];
      BytesAllAppend(ws[1..], w);
    }
  }

  lemma KeepOneMore<M>(d: Desc<M>, u: seq<byte>, w: RawField)
    requires Keepable(d, u) && Foreign(d, w)
    ensures Keepable(d, u + Bytes(w))
  {
    hide Bytes, BytesAll, Foreign;
    var ws :| ForeignAll(d, ws) && BytesAll(ws) == u;
    BytesAllAppend(ws, w);
    assert ForeignAll(d, ws + [w]);
  }

  lemma StepKeeps<M(!new)>(d: Desc<M>, inv: M -> bool, m: Message<M>, data: seq<byte>, i: nat)
    requires IsSlice(data) && i < |data| && Keeps(d, inv)
    requires inv(m.known) && Keepable(d, m.unknown) && Step(d, m, data, i).Ok?
    ensures var m' := Step(d, m, data, i).value.m; inv(m'.known) && Keepable(d, m'.unknown)
  {
    hide DecodeVarint, DecodeLength, DecodeEntry, SkipUnknown, FieldNum, Keepable, Foreign, Bytes;
    var num := FieldNum(DecodeVarint(W64, data, i).value.value);
    if d.kind(num).Absent? {
      var n := Step(d, m, data, i).value.next;
      var w := SkippedIsForeign(d, data, i, n);
      KeepOneMore(d, m.unknown, w);
    }
  }

  lemma {:induction false} DecodeKeeps<M(!new)>(d: Desc<M>, inv: M -> bool, m: Message<M>, data: seq<byte>, i: nat)
    requires IsSlice(data) && i <= |data| && Keeps(d, inv)
    requires inv(m.known) && Keepable(d, m.unknown) && DecodeMsg(d, m, data, i).Ok?
    ensures var m' := DecodeMsg(d, m, data, i).value; inv(m'.known) && Keepable(d, m'.unknown)
    decreases |data| - i
  {
    hide Step, Keeps, Keepable;
    if i < |data| {
      StepKeeps(d, inv, m, data, i);
      var p := Step(d, m, data, i).value;
      DecodeKeeps(d, inv, p.m, data, p.next);
    }
  }

  lemma NothingIsKeepable<M>(d: Desc<M>)
    ensures Keepable(d, [])
  {
    assert ForeignAll(d, []) && BytesAll([]) == [];
  }

  lemma DecodedIsValid<M(!new)>(d: Desc<M>, inv: M -> bool, none: M, s: seq<byte>)
    requires Keeps(d, inv) && inv(none) && DecodeNested(d, Message(none, []), s).Ok?
    ensures var m := DecodeNested(d, Message(none, []), s).value; inv(m.known) && Keepable(d, m.unknown)
  {
    hide Keeps, Keepable, DecodeMsg;
    NothingIsKeepable(d);
    DecodeKeeps(d, inv, Message(none, []), s, 0);
  }

  // ----- The leaves

  ghost function EncodedRecordInv(): EncodedRecord -> bool {
    (m: EncodedRecord) => FitsSigned(W32, m.dataType) && FitsSigned(W64, m.timestamp)
  }

  ghost function TaskInv(): Task -> bool {
    (m: Task) => FitsSigned(W32, m.dataType)
  }

  lemma SignedFits(w: Width, v: nat)
    requires v < w.Modulus()
    ensures FitsSigned(w, Signed(w, v))
  {
  }

  lemma EncodedRecordKeeps()
    ensures Keeps(EncodedRecordDesc(), EncodedRecordInv())
  {
    hide Signed, FitsSigned;
    forall w: Width, v: nat | v < w.Modulus() ensures FitsSigned(w, Signed(w, v)) { SignedFits(w, v); }
  }

  lemma TaskKeeps()
    ensures Keeps(TaskDesc(), TaskInv())
  {
    hide Signed, FitsSigned;
    forall w: Width, v: nat | v < w.Modulus() ensures FitsSigned(w, Signed(w, v)) { SignedFits(w, v); }
  }

  lemma EncodedRecordDecoded(s: seq<byte>)
    ensures var r := DecodeNested(EncodedRecordDesc(), Message(NoEncodedRecord, []), s);
            r.Ok? ==> ValidEncodedRecord(r.value)
  {
    hide DecodeNested, Keeps, Keepable;
    EncodedRecordKeeps();
    if DecodeNested(EncodedRecordDesc(), Message(NoEncodedRecord, []), s).Ok? {
      DecodedIsValid(EncodedRecordDesc(), EncodedRecordInv(), NoEncodedRecord, s);
    }
  }

  lemma ConfigDecoded(s: seq<byte>)
    ensures var r := DecodeNested(ConfigDesc(), Message(NoConfig, []), s); r.Ok? ==> ValidConfig(r.value)
  {
    hide DecodeNested, Keepable;
    if DecodeNested(ConfigDesc(), Message(NoConfig, []), s).Ok? {
      DecodedIsValid(ConfigDesc(), _ => true, NoConfig, s);
    }
  }

  /** Unmarshal into a message that is already valid keeps it valid. */
  lemma TaskMerged(m: Message<Task>, s: seq<byte>)
    requires ValidTask(m)
    ensures var r := DecodeNested(TaskDesc(), m, s); r.Ok? ==> ValidTask(r.value)
  {
    hide DecodeMsg, Keeps, Keepable;
    TaskKeeps();
    if DecodeNested(TaskDesc(), m, s).Ok? { DecodeKeeps(TaskDesc(), TaskInv(), m, s, 0); }
  }

  lemma PayloadMerged(m: Message<Payload>, s: seq<byte>)
    requires ValidPayload(m)
    ensures var r := DecodeNested(PayloadDesc(), m, s); r.Ok? ==> ValidPayload(r.value)
  {
    hide DecodeMsg, Keepable;
    if DecodeNested(PayloadDesc(), m, s).Ok? { DecodeKeeps(PayloadDesc(), _ => true, m, s, 0); }
  }

  // ----- The messages that hold others

  ghost function PackagedDataInv(): PackagedData -> bool {
    (m: PackagedData) => FitsSigned(W32, m.tenantId) && FitsSigned(W32, m.hostId) && forall r <- m.records :: ValidEncodedRecord(r)
  }

  ghost function CommandInv(): Command -> bool {
    (m: Command) => (m.task.Some? ==> ValidTask(m.task.value)) && forall c <- m.configs :: ValidConfig(c)
  }

  ghost function RecordInv(): Record -> bool {
    (m: Record) => FitsSigned(W32, m.dataType) && FitsSigned(W64, m.timestamp) && (m.data.Some? ==> ValidPayload(m.data.value))
  }

  lemma PackagedDataKeeps()
    ensures Keeps(PackagedDataDesc(), PackagedDataInv())
  {
    hide Signed, FitsSigned, SetPackaged, ValidEncodedRecord;
    forall w: Width, v: nat | v < w.Modulus() ensures FitsSigned(w, Signed(w, v)) { SignedFits(w, v); }
    forall m: PackagedData, num, s | PackagedDataInv()(m) && SetPackaged(m, num, s).Ok?
      ensures PackagedDataInv()(SetPackaged(m, num, s).value)
    {
      SetPackagedKeeps(m, num, s);
    }
  }

  lemma SetPackagedKeeps(m: PackagedData, num: int, s: seq<byte>)
    requires PackagedDataInv()(m) && SetPackaged(m, num, s).Ok?
    ensures PackagedDataInv()(SetPackaged(m, num, s).value)
  {
    hide FitsSigned, DecodeNested, ValidEncodedRecord;
    EncodedRecordDecoded(s);
  }

  lemma CommandKeeps()
    ensures Keeps(CommandDesc(), CommandInv())
  {
    hide DecodeNested, ValidTask, ValidConfig;
    assert ValidTask(Message(NoTask, [])) by { NoTaskIsValid(); }
    forall m, s | ValidTask(m) ensures var r := DecodeNested(TaskDesc(), m, s); r.Ok? ==> ValidTask(r.value) {
      TaskMerged(m, s);
    }
    forall s ensures var r := DecodeNested(ConfigDesc(), Message(NoConfig, []), s); r.Ok? ==> ValidConfig(r.value) {
      ConfigDecoded(s);
    }
  }

  lemma NoTaskIsValid()
    ensures ValidTask(Message(NoTask, []))
  {
    NothingIsKeepable(TaskDesc());
  }

  lemma RecordKeeps()
    ensures Keeps(RecordDesc(), RecordInv())
  {
    hide Signed, FitsSigned, DecodeNested, ValidPayload;
    forall w: Width, v: nat | v < w.Modulus() ensures FitsSigned(w, Signed(w, v)) { SignedFits(w, v); }
    assert ValidPayload(Message(NoPayload, [])) by { NoPayloadIsValid(); }
    forall m, s | ValidPayload(m) ensures var r := DecodeNested(PayloadDesc(), m, s); r.Ok? ==> ValidPayload(r.value) {
      PayloadMerged(m, s);
    }
  }

  lemma NoPayloadIsValid()
    ensures ValidPayload(Message(NoPayload, []))
  {
    NothingIsKeepable(PayloadDesc());
  }

  /** A PackagedData decoded from any bytes survives encoding and decoding again. */
  lemma PackagedDataReencoded(data: seq<byte>, m: Message<PackagedData>)
    requires DecodeNested(PackagedDataDesc(), Message(NoPackagedData, []), data) == Ok(m)
    ensures WriteableAll(PackagedDataMsg(m).fields)
    ensures IsSlice(Encode(PackagedDataMsg(m))) ==>
              DecodeNested(PackagedDataDesc(), Message(NoPackagedData, []), Encode(PackagedDataMsg(m))) == Ok(m)
  {
    hide Keeps, Keepable, DecodeMsg, PackagedDataMsg, WriteableAll;
    PackagedDataKeeps();
    DecodedIsValid(PackagedDataDesc(), PackagedDataInv(), NoPackagedData, data);
    PackagedDataRoundTrip(m);
  }

  /** A Command decoded from any bytes survives encoding and decoding again. */
  lemma CommandReencoded(data: seq<byte>, m: Message<Command>)
    requires DecodeNested(CommandDesc(), Message(NoCommand, []), data) == Ok(m)
    ensures WriteableAll(CommandMsg(m).fields)
    ensures IsSlice(Encode(CommandMsg(m))) ==>
              DecodeNested(CommandDesc(), Message(NoCommand, []), Encode(CommandMsg(m))) == Ok(m)
  {
    hide Keeps, Keepable, DecodeMsg, CommandMsg, WriteableAll;
    CommandKeeps();
    DecodedIsValid(CommandDesc(), CommandInv(), NoCommand, data);
    CommandRoundTrip(m);
  }

  /** A Record decoded from any bytes survives encoding, in any order of its payload, and decoding. */
  lemma RecordReencoded(data: seq<byte>, m: Message<Record>, ks: seq<Text>)
    requires DecodeNested(RecordDesc(), Message(NoRecord, []), data) == Ok(m) && IsRecordOrder(m.known, ks)
    ensures WriteableAll(RecordMsg(m, ks).fields)
    ensures IsSlice(Encode(RecordMsg(m, ks))) ==>
              DecodeNested(RecordDesc(), Message(NoRecord, []), Encode(RecordMsg(m, ks))) == Ok(m)
  {
    hide Keeps, Keepable, DecodeMsg, RecordMsg, WriteableAll;
    RecordKeeps();
    DecodedIsValid(RecordDesc(), RecordInv(), NoRecord, data);
    RecordRoundTrip(m, ks);
  }
}
