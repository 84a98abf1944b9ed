/** Messages on the wire: what Marshal emits, how long it is, and the writer that fills the buffer
    from its end. */
module Wire {
  import opened Bits
  import opened Varint

  /** The fields a generated Marshal emits, in the order they appear in the output. A sub-message and
      a map entry are both length-delimited messages. */
  datatype Field =
    | VarintField(num: nat, value: nat)
    | BytesField(num: nat, data: seq<byte>)
    | MsgField(num: nat, msg: Msg)

  /** `unknown` is XXX_unrecognized. */
  datatype Msg = Msg(fields: seq<Field>, unknown: seq<byte>)

  /** The field numbers in use fit, with their wire type, in one byte. */
  predicate ShortTag(num: nat) {
    1 <= num <= 15
  }

  /** Values are uint64, and every tag is one byte. */
  predicate WriteableField(f: Field)
    decreases f
  {
    && ShortTag(f.num)
    && (f.VarintField? ==> f.value < TWO_64)
    && (f.MsgField? ==> WriteableAll(f.msg.fields))
  }

  predicate WriteableAll(fs: seq<Field>)
    decreases fs
  {
    fs == [] || (WriteableField(fs[0]) && WriteableAll(fs[1..]))
  }

  lemma {:induction false} WriteableAt(fs: seq<Field>, k: nat)
    requires WriteableAll(fs) && k < |fs|
    ensures WriteableField(fs[k])
  {
    if k > 0 { WriteableAt(fs[1..], k - 1); }
  }

  // ----- The bytes of a message

  function Tag(num: nat, wireType: nat): byte
    requires ShortTag(num) && wireType < 8
  {
    num * 8 + wireType
  }

  function LengthDelimited(num: nat, payload: seq<byte>): seq<byte>
    requires ShortTag(num)
  {
    [Tag(num, 2)] + VarintBytes(|payload|) + payload
  }

  function EncodeField(f: Field): (r: seq<byte>)
    requires WriteableField(f)
    ensures |r| > 0
    decreases f
  {
    match f
    case VarintField(num, v) => [Tag(num, 0)] + VarintBytes(v)
    case BytesField(num, data) => LengthDelimited(num, data)
    case MsgField(num, msg) => LengthDelimited(num, EncodeFields(msg.fields) + msg.unknown)
  }

  function EncodeFields(fs: seq<Field>): seq<byte>
    requires WriteableAll(fs)
    decreases fs
  {
    if fs == [] then [] else EncodeField(fs[0]) + EncodeFields(fs[1..])
  }

  function Encode(m: Msg): seq<byte>
    requires WriteableAll(m.fields)
  {
    EncodeFields(m.fields) + m.unknown
  }

  lemma {:induction false} WriteableConcat(a: seq<Field>, b: seq<Field>)
    ensures WriteableAll(a + b) <==> WriteableAll(a) && WriteableAll(b)
  {
    if a == [] {
      assert a + b == b;
    } else {
      assert (a + b)[1..] == a[1..] + b;
      WriteableConcat(a[1..], b);
    }
  }

  lemma {:induction false} EncodeConcat(a: seq<Field>, b: seq<Field>)
    requires WriteableAll(a) && WriteableAll(b)
    ensures WriteableAll(a + b) && EncodeFields(a + b) == EncodeFields(a) + EncodeFields(b)
  {
    WriteableConcat(a, b);
    if a == [] {
      assert a + b == b;
    } else {
      assert (a + b)[1..] == a[1..] + b;
      EncodeConcat(a[1..], b);
    }
  }

  // ----- Size

  /** Size() of one field: the tag byte, a length or value varint, and the payload. */
  function SizeField(f: Field): nat
    decreases f
  {
    match f
    case VarintField(_, v) => 1 + Sov(v)
    case BytesField(_, data) => 1 + |data| + Sov(|data|)
    case MsgField(_, msg) =>
      var l := SizeFields(msg.fields) + |msg.unknown|;
      1 + l + Sov(l)
  }

  function SizeFields(fs: seq<Field>): nat
    decreases fs
  {
    if fs == [] then 0 else SizeField(fs[0]) + SizeFields(fs[1..])
  }

  function Size(m: Msg): nat {
    SizeFields(m.fields) + |m.unknown|
  }

  lemma {:induction false} SizeIsLengthOfField(f: Field)
    requires WriteableField(f)
    ensures SizeField(f) == |EncodeField(f)|
    decreases f
  {
    match f
    case VarintField(_, v) => SovIsLength(v);
    case BytesField(_, data) => SovIsLength(|data|);
    case MsgField(_, msg) =>
      SizeIsLengthOfFields(msg.fields);
      SovIsLength(SizeFields(msg.fields) + |msg.unknown|);
  }

  lemma {:induction false} SizeIsLengthOfFields(fs: seq<Field>)
    requires WriteableAll(fs)
    ensures SizeFields(fs) == |EncodeFields(fs)|
    decreases fs
  {
    if fs != [] {
      SizeIsLengthOfField(fs[0]);
      SizeIsLengthOfFields(fs[1..]);
    }
  }

  /** Size() is the number of bytes Marshal emits. */
  lemma SizeIsLength(m: Msg)
    requires WriteableAll(m.fields)
    ensures Size(m) == |Encode(m)|
  {
    SizeIsLengthOfFields(m.fields);
  }

  // ----- The backwards writer

  /** Put `data` just before `end`: i -= len(data); copy(buf[i:], data). */
  method PutBytes(buf: array<byte>, end: nat, data: seq<byte>) returns (i: nat)
    requires |data| <= end <= buf.Length
    modifies buf
    ensures i == end - |data|
    ensures buf[i..] == data + old(buf[end..])
    ensures forall j :: 0 <= j < i ==> buf[j] == old(buf[j])
  {
    i := end - |data|;
    var k := 0;
    while k < |data|
      invariant 0 <= k <= |data|
      invariant forall j :: 0 <= j < k ==> buf[i + j] == data[j]
      invariant forall j :: 0 <= j < buf.Length && !(i <= j < i + k) ==> buf[j] == old(buf[j])
    {
      buf[i + k] := data[k];
      k := k + 1;
    }
  }

  /** Emit a tag byte and a varint so that they end just before `end`. */
  method PutHeader(buf: array<byte>, end: nat, tag: byte, v: nat) returns (i: nat)
    requires 1 + Sov(v) <= end <= buf.Length
    modifies buf
    ensures i == end - 1 - Sov(v)
    ensures buf[i..] == [tag] + VarintBytes(v) + old(buf[end..])
    ensures forall j :: 0 <= j < i ==> buf[j] == old(buf[j])
  {
    i := EncodeVarint(buf, end, v);
    i := PutBytes(buf, i, [tag]);
  }

  /** Emit one field so that it ends just before `end`. */
  method PutField(buf: array<byte>, end: nat, f: Field) returns (i: nat)
    requires WriteableField(f) && SizeField(f) <= end <= buf.Length
    modifies buf
    ensures i == end - SizeField(f)
    ensures buf[i..] == EncodeField(f) + old(buf[end..])
    ensures forall j :: 0 <= j < i ==> buf[j] == old(buf[j])
    decreases f
  {
    hide VarintBytes, Sov;
    match f {
      case VarintField(num, v) =>
        i := PutHeader(buf, end, Tag(num, 0), v);
      case BytesField(num, data) =>
        i := PutBytes(buf, end, data);
        i := PutHeader(buf, i, Tag(num, 2), |data|);
      case MsgField(num, msg) =>
        SizeIsLength(msg);
        i := MarshalToSizedBuffer(buf, end, msg);
        i := PutHeader(buf, i, Tag(num, 2), end - i);
    }
  }

  lemma {:induction false} Suffix(fs: seq<Field>, k: nat)
    requires k <= |fs| && WriteableAll(fs)
    ensures WriteableAll(fs[k..]) && SizeFields(fs[k..]) <= SizeFields(fs)
  {
    if k > 0 { assert fs[k..] == fs[1..][k - 1..]; Suffix(fs[1..], k - 1); }
  }

  lemma SuffixStep(fs: seq<Field>, k: nat)
    requires k < |fs| && WriteableAll(fs)
    ensures WriteableField(fs[k]) && WriteableAll(fs[k..]) && WriteableAll(fs[k + 1..])
    ensures EncodeFields(fs[k..]) == EncodeField(fs[k]) + EncodeFields(fs[k + 1..])
    ensures SizeFields(fs[k..]) == SizeField(fs[k]) + SizeFields(fs[k + 1..]) <= SizeFields(fs)
  {
    Suffix(fs, k);
    assert fs[k..][0] == fs[k] && fs[k..][1..] == fs[k + 1..];
  }

  /** Emit the fields from the last to the first, each in front of what is already there. */
  method PutFields(buf: array<byte>, end: nat, fs: seq<Field>) returns (i: nat)
    requires WriteableAll(fs) && SizeFields(fs) <= end <= buf.Length
    modifies buf
    ensures i == end - SizeFields(fs)
    ensures buf[i..] == EncodeFields(fs) + old(buf[end..])
    ensures forall j :: 0 <= j < i ==> buf[j] == old(buf[j])
    decreases fs, 1
  {
    var k := |fs|;
    i := end;
    ghost var tail := buf[end..];
    while k > 0
      invariant 0 <= k <= |fs| && WriteableAll(fs[k..])
      invariant i == end - SizeFields(fs[k..])
      invariant buf[i..] == EncodeFields(fs[k..]) + tail
      invariant forall j :: 0 <= j < i ==> buf[j] == old(buf[j])
    {
      ghost var done := EncodeFields(fs[k..]);
      k := k - 1;
      SuffixStep(fs, k);
      i := PutField(buf, i, fs[k]);
      Reassociate(EncodeField(fs[k]), done, tail);
    }
    assert fs[0..] == fs;
  }

  lemma Reassociate(a: seq<byte>, b: seq<byte>, c: seq<byte>)
    ensures a + (b + c) == (a + b) + c
  {
  }

  /** MarshalToSizedBuffer: the unknown bytes, then the fields in front of them. */
  method MarshalToSizedBuffer(buf: array<byte>, end: nat, m: Msg) returns (i: nat)
    requires WriteableAll(m.fields) && Size(m) <= end <= buf.Length
    modifies buf
    ensures i == end - Size(m)
    ensures buf[i..] == Encode(m) + old(buf[end..])
    ensures forall j :: 0 <= j < i ==> buf[j] == old(buf[j])
    decreases m
  {
    i := PutBytes(buf, end, m.unknown);
    i := PutFields(buf, i, m.fields);
  }

  /** Marshal: a buffer of Size() bytes is filled exactly. */
  method Marshal(m: Msg) returns (out: seq<byte>)
    requires WriteableAll(m.fields)
    ensures out == Encode(m)
  {
    var size := Size(m);
    var buf := new byte[size](_ => 0);
    var i := MarshalToSizedBuffer(buf, size, m);
    assert i == 0;
    out := buf[..];
    assert buf[..] == buf[0..] == Encode(m) + buf[size..];
  }
}
