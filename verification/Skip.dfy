/** skipGrpc: the length of a field of unknown number, including nested groups, and the grammar of
    what it accepts. */
module Skip {
  import opened Bits
  import opened Varint

  /** The int with these 64 bits. */
  function Int64(x: nat): (r: int)
    requires x < TWO_64
    ensures r < TWO_63
  {
    if x < TWO_63 then x else x - TWO_64
  }

  /** A slice is shorter than 2^63. */
  predicate IsSlice(data: seq<byte>) {
    |data| < TWO_63
  }

  // ----- The function

  /** The index behind the value of one token; negative when the addition overflows. */
  function SkipValue(data: seq<byte>, i: nat, wireType: nat): (r: Result<int>)
    requires IsSlice(data) && i <= |data|
    ensures r.Ok? ==> i <= r.value < TWO_63 || r.value < 0
  {
    match wireType
    case 0 => var v :- DecodeVarint(W64, data, i); Ok(v.next)
    case 1 => Ok(Int64(i + 8))
    case 2 =>
      var len :- DecodeVarint(W64, data, i);
      var n := Int64(len.value);
      if n < 0 then Err(InvalidLength)
      else
        Ok(Int64(len.next + n))
    case 3 => Ok(i)
    case 4 => Ok(i)
    case 5 => Ok(Int64(i + 4))
    case _ => Err(IllegalWireType)
  }

  /** Token after token until the group depth is back to zero. `i` lies past the end of the data when
      the last value does. */
  function SkipFrom(data: seq<byte>, i: nat, depth: nat): (r: Result<nat>)
    requires IsSlice(data)
    ensures r.Ok? ==> i < r.value < TWO_63
    decreases |data| - i
  {
    if i >= |data| then Err(UnexpectedEOF)
    else
      var tag :- DecodeVarint(W64, data, i);
      var wireType := tag.value % 8;
      if wireType == 4 && depth == 0 then Err(UnexpectedEndOfGroup)
      else
        var j :- SkipValue(data, tag.next, wireType);
        var depth' := if wireType == 3 then depth + 1 else if wireType == 4 then depth - 1 else depth;
        if j < 0 then Err(InvalidLength)
        else if depth' == 0 then Ok(j)
        else SkipFrom(data, j, depth')
  }

  /** The switch of skipGrpc over the wire type. */
  method PassValue(data: seq<byte>, i: nat, wireType: nat) returns (r: Result<int>)
    requires IsSlice(data) && i <= |data|
    ensures r == SkipValue(data, i, wireType)
  {
    match wireType {
      case 0 =>
        var v := ReadVarint(W64, data, i);
        r := if v.Err? then Err(v.error) else Ok(v.value.next);
      case 1 =>
        r := Ok(Int64(i + 8));
      case 2 =>
        var len := ReadVarint(W64, data, i);
        if len.Err? {
          return Err(len.error);
        }
        var n := Int64(len.value.value);
        if n < 0 {
          return Err(InvalidLength);
        }
        r := Ok(Int64(len.value.next + n));
      case 3 =>
        r := Ok(i);
      case 4 =>
        r := Ok(i);
      case 5 =>
        r := Ok(Int64(i + 4));
      case _ =>
        r := Err(IllegalWireType);
    }
  }

  /** skipGrpc as written: it ends on every input and reads only inside the data. */
  method SkipGrpc(data: seq<byte>) returns (r: Result<nat>)
    requires IsSlice(data)
    ensures r == SkipFrom(data, 0, 0)
  {
    var i: nat, depth: nat := 0, 0;
    while i < |data|
      invariant SkipFrom(data, 0, 0) == SkipFrom(data, i, depth)
      decreases |data| - i
    {
      var tag := ReadVarint(W64, data, i);
      if tag.Err? {
        return Err(tag.error);
      }
      var wireType := tag.value.value % 8;
      if wireType == 4 && depth == 0 {
        return Err(UnexpectedEndOfGroup);
      }
      var j := PassValue(data, tag.value.next, wireType);
      if j.Err? {
        return Err(j.error);
      }
      if wireType == 3 {
        depth := depth + 1;
      } else if wireType == 4 {
        depth := depth - 1;
      }
      if j.value < 0 {
        return Err(InvalidLength);
      }
      if depth == 0 {
        return Ok(j.value);
      }
      i := j.value;
    }
    return Err(UnexpectedEOF);
  }

  // ----- The grammar (Protocol Buffers Encoding, "Message Structure")

  /** One field with the bytes of its parts; varints need not be minimal. */
  datatype RawField =
    | WVarint(tag: seq<byte>, value: seq<byte>)
    | WFixed64(tag: seq<byte>, bytes: seq<byte>)
    | WLen(tag: seq<byte>, len: seq<byte>, payload: seq<byte>)
    | WGroup(tag: seq<byte>, body: seq<RawField>, end: seq<byte>)
    | WFixed32(tag: seq<byte>, bytes: seq<byte>)

  predicate IsVarint(s: seq<byte>) {
    var r := DecodeVarint(W64, s, 0);
    r.Ok? && r.value.next == |s|
  }

  function ValueOf(s: seq<byte>): nat
    requires IsVarint(s)
  {
    DecodeVarint(W64, s, 0).value.value
  }

  predicate IsTag(s: seq<byte>, wireType: nat) {
    IsVarint(s) && ValueOf(s) % 8 == wireType
  }

  ghost predicate Valid(w: RawField)
    decreases w
  {
    match w
    case WVarint(tag, value) => IsTag(tag, 0) && IsVarint(value)
    case WFixed64(tag, bytes) => IsTag(tag, 1) && |bytes| == 8
    case WLen(tag, len, payload) => IsTag(tag, 2) && IsVarint(len) && ValueOf(len) == |payload|
    case WGroup(tag, body, end) => IsTag(tag, 3) && ValidAll(body) && IsTag(end, 4)
    case WFixed32(tag, bytes) => IsTag(tag, 5) && |bytes| == 4
  }

  ghost predicate ValidAll(ws: seq<RawField>)
    decreases ws
  {
    ws == [] || (Valid(ws[0]) && ValidAll(ws[1..]))
  }

  ghost function Bytes(w: RawField): seq<byte>
    decreases w
  {
    match w
    case WVarint(tag, value) => tag + value
    case WFixed64(tag, bytes) => tag + bytes
    case WLen(tag, len, payload) => tag + len + payload
    case WGroup(tag, body, end) => tag + BytesAll(body) + end
    case WFixed32(tag, bytes) => tag + bytes
  }

  ghost function BytesAll(ws: seq<RawField>): seq<byte>
    decreases ws
  {
    if ws == [] then [] else Bytes(ws[0]) + BytesAll(ws[1..])
  }

  // ----- A varint means the same wherever it stands

  lemma {:induction false} SeptetsLocal(a: seq<byte>, i: nat, b: seq<byte>, j: nat, k: nat)
    requires i <= |a| && j <= |b|
    requires var r := Septets(a, i, k); r.Ok? && At(b, j, a[i..r.value.next])
    ensures var r := Septets(a, i, k).value; Septets(b, j, k) == Ok(Read(r.value, j + (r.next - i)))
    decreases |a| - i
  {
    var n := Septets(a, i, k).value.next;
    assert b[j..j + (n - i)] == a[i..n];
    assert a[i..n][0] == a[i] && b[j..j + (n - i)][0] == b[j];
    if a[i] >= 128 {
      assert a[i + 1..n] == a[i..n][1..] == b[j..j + (n - i)][1..] == b[j + 1..j + (n - i)];
      SeptetsLocal(a, i + 1, b, j + 1, k + 1);
    }
  }

  lemma VarintAt(data: seq<byte>, i: nat, s: seq<byte>)
    requires At(data, i, s) && IsVarint(s)
    ensures DecodeVarint(W64, data, i) == Ok(Read(ValueOf(s), i + |s|)) && |s| > 0
  {
    assert s[0..|s|] == s;
    SeptetsLocal(s, 0, data, i, 0);
  }

  lemma VarintFound(data: seq<byte>, i: nat)
    requires i <= |data| && DecodeVarint(W64, data, i).Ok?
    ensures var r := DecodeVarint(W64, data, i).value;
            IsVarint(data[i..r.next]) && ValueOf(data[i..r.next]) == r.value
  {
    var r := DecodeVarint(W64, data, i).value;
    var s := data[i..r.next];
    assert s[0..|s|] == s;
    SeptetsLocal(data, i, s, 0, 0);
  }

  lemma AtSplit(data: seq<byte>, i: nat, a: seq<byte>, b: seq<byte>)
    requires At(data, i, a + b)
    ensures At(data, i, a) && At(data, i + |a|, b)
  {
    var s := data[i..i + |a + b|];
    assert data[i..i + |a|] == s[..|a|];
    assert data[i + |a|..i + |a| + |b|] == s[|a|..];
  }

  lemma SkipValueTypes(data: seq<byte>, i: nat, wireType: nat)
    requires IsSlice(data) && i <= |data|
    ensures wireType == 3 || wireType == 4 ==> SkipValue(data, i, wireType) == Ok(i)
    ensures SkipValue(data, i, wireType).Ok? ==> wireType <= 5
  {
  }

  // ----- skipGrpc accepts every well-formed field at its exact length

  /** What skipGrpc returns once it has passed a token that ends at `j`. */
  ghost function After(data: seq<byte>, j: nat, depth: nat): Result<nat>
    requires IsSlice(data)
  {
    if depth == 0 then Ok(j) else SkipFrom(data, j, depth)
  }

  function TypeOf(w: RawField): nat {
    match w
    case WVarint(_, _) => 0
    case WFixed64(_, _) => 1
    case WLen(_, _, _) => 2
    case WGroup(_, _, _) => 3
    case WFixed32(_, _) => 5
  }

  /** The value behind the tag of a field that is not a group is passed exactly. */
  lemma ValuePassed(data: seq<byte>, i: nat, w: RawField)
    requires IsSlice(data) && At(data, i, Bytes(w)) && Valid(w) && !w.WGroup?
    ensures At(data, i, w.tag) && i + |w.tag| <= |data|
    ensures SkipValue(data, i + |w.tag|, TypeOf(w)) == Ok(i + |Bytes(w)|)
  {
    hide SkipValue, IsVarint, ValueOf;
    match w
    case WVarint(tag, value) => VarintPassed(data, i, tag, value);
    case WFixed64(tag, bytes) => FixedPassed(data, i, tag, bytes);
    case WLen(tag, len, payload) => LengthPassed(data, i, tag, len, payload);
    case WFixed32(tag, bytes) => FixedPassed(data, i, tag, bytes);
  }

  lemma VarintPassed(data: seq<byte>, i: nat, tag: seq<byte>, value: seq<byte>)
    requires IsSlice(data) && At(data, i, tag + value) && IsVarint(value)
    ensures At(data, i, tag) && i + |tag| <= |data|
    ensures SkipValue(data, i + |tag|, 0) == Ok(i + |tag + value|)
  {
    AtSplit(data, i, tag, value);
    VarintAt(data, i + |tag|, value);
  }

  lemma FixedPassed(data: seq<byte>, i: nat, tag: seq<byte>, bytes: seq<byte>)
    requires IsSlice(data) && At(data, i, tag + bytes)
    ensures At(data, i, tag) && i + |tag| <= |data|
    ensures |bytes| == 8 ==> SkipValue(data, i + |tag|, 1) == Ok(i + |tag + bytes|)
    ensures |bytes| == 4 ==> SkipValue(data, i + |tag|, 5) == Ok(i + |tag + bytes|)
  {
    AtSplit(data, i, tag, bytes);
  }

  lemma LengthPassed(data: seq<byte>, i: nat, tag: seq<byte>, len: seq<byte>, payload: seq<byte>)
    requires IsSlice(data) && At(data, i, tag + len + payload)
    requires IsVarint(len) && ValueOf(len) == |payload|
    ensures At(data, i, tag) && i + |tag| <= |data|
    ensures SkipValue(data, i + |tag|, 2) == Ok(i + |tag + len + payload|)
  {
    AtSplit(data, i, tag + len, payload);
    AtSplit(data, i, tag, len);
    VarintAt(data, i + |tag|, len);
  }

  /** One token that is not a group: the index moves behind it and the depth stays. */
  lemma SimpleTokenSkipped(data: seq<byte>, i: nat, w: RawField, depth: nat)
    requires IsSlice(data) && At(data, i, Bytes(w)) && Valid(w) && !w.WGroup?
    ensures SkipFrom(data, i, depth) == After(data, i + |Bytes(w)|, depth)
  {
    hide SkipValue, DecodeVarint, Bytes;
    ValuePassed(data, i, w);
    assert IsTag(w.tag, TypeOf(w));
    VarintAt(data, i, w.tag);
  }

  lemma GroupStart(data: seq<byte>, i: nat, tag: seq<byte>, depth: nat, k: nat)
    requires IsSlice(data) && At(data, i, tag) && IsTag(tag, 3) && k == i + |tag|
    ensures SkipFrom(data, i, depth) == SkipFrom(data, k, depth + 1)
  {
    hide SkipValue, DecodeVarint;
    VarintAt(data, i, tag);
    SkipValueTypes(data, k, 3);
  }

  lemma GroupEnd(data: seq<byte>, i: nat, tag: seq<byte>, depth: nat, k: nat)
    requires IsSlice(data) && At(data, i, tag) && IsTag(tag, 4) && k == i + |tag|
    ensures SkipFrom(data, i, depth + 1) == After(data, k, depth)
  {
    hide DecodeVarint;
    VarintAt(data, i, tag);
  }

  lemma {:induction false} FieldSkipped(data: seq<byte>, i: nat, w: RawField, depth: nat, k: nat)
    requires IsSlice(data) && At(data, i, Bytes(w)) && Valid(w) && k == i + |Bytes(w)|
    ensures SkipFrom(data, i, depth) == After(data, k, depth)
    decreases w, 1
  {
    hide SkipFrom, Bytes;
    if w.WGroup? {
      GroupSkipped(data, i, w, depth);
    } else {
      SimpleTokenSkipped(data, i, w, depth);
    }
  }

  lemma {:induction false} GroupSkipped(data: seq<byte>, i: nat, w: RawField, depth: nat)
    requires IsSlice(data) && At(data, i, Bytes(w)) && Valid(w) && w.WGroup?
    ensures SkipFrom(data, i, depth) == After(data, i + |Bytes(w)|, depth)
    decreases w, 0
  {
    hide SkipFrom;
    var j := i + (|w.tag| + |BytesAll(w.body)|);
    AtSplit(data, i, w.tag + BytesAll(w.body), w.end);
    BodySkipped(data, i, w.tag, w.body, depth, j);
    GroupEnd(data, j, w.end, depth, i + |Bytes(w)|);
  }

  lemma {:induction false} BodySkipped(data: seq<byte>, i: nat, tag: seq<byte>, body: seq<RawField>, depth: nat, j: nat)
    requires IsSlice(data) && At(data, i, tag + BytesAll(body)) && IsTag(tag, 3) && ValidAll(body)
    requires j == i + (|tag| + |BytesAll(body)|)
    ensures SkipFrom(data, i, depth) == SkipFrom(data, j, depth + 1)
    decreases body, 1
  {
    hide SkipFrom;
    AtSplit(data, i, tag, BytesAll(body));
    var k, d := i + |tag|, depth + 1;
    GroupStart(data, i, tag, depth, k);
    FieldsSkipped(data, k, body, d, j);
  }

  lemma {:induction false} FieldsSkipped(data: seq<byte>, i: nat, ws: seq<RawField>, depth: nat, j: nat)
    requires IsSlice(data) && At(data, i, BytesAll(ws)) && ValidAll(ws) && depth > 0
    requires j == i + |BytesAll(ws)|
    ensures SkipFrom(data, i, depth) == SkipFrom(data, j, depth)
    decreases ws, 0
  {
    hide SkipFrom, Bytes, Valid;
    if ws != [] {
      AtSplit(data, i, Bytes(ws[0]), BytesAll(ws[1..]));
      var k := i + |Bytes(ws[0])|;
      FieldSkipped(data, i, ws[0], depth, k);
      assert After(data, k, depth) == SkipFrom(data, k, depth);
      FieldsSkipped(data, k, ws[1..], depth, j);
    }
  }

  // ----- and nothing else

  /** The rest of a group that is open: its remaining fields and its end tag. */
  datatype Level = Level(body: seq<RawField>, end: seq<byte>)

  ghost predicate ValidLevels(ls: seq<Level>) {
    forall k :: 0 <= k < |ls| ==> ValidAll(ls[k].body) && IsTag(ls[k].end, 4)
  }

  ghost function Flatten(ls: seq<Level>): seq<byte> {
    if ls == [] then [] else BytesAll(ls[0].body) + ls[0].end + Flatten(ls[1..])
  }

  /** The value SkipValue passes is one the grammar knows. */
  lemma ValueFound(data: seq<byte>, tag: seq<byte>, i: nat, wireType: nat) returns (w: RawField)
    requires IsSlice(data) && i <= |data| && IsTag(tag, wireType) && wireType in {0, 1, 2, 5}
    requires SkipValue(data, i, wireType).Ok? && 0 <= SkipValue(data, i, wireType).value <= |data|
    ensures Valid(w) && !w.WGroup?
    ensures Bytes(w) == tag + data[i..SkipValue(data, i, wireType).value]
  {
    var j := SkipValue(data, i, wireType).value;
    match wireType {
      case 0 =>
        VarintFound(data, i);
        w := WVarint(tag, data[i..j]);
      case 1 =>
        w := WFixed64(tag, data[i..j]);
      case 2 =>
        w := LengthFound(data, tag, i);
      case 5 =>
        w := WFixed32(tag, data[i..j]);
    }
  }

  lemma LengthFound(data: seq<byte>, tag: seq<byte>, i: nat) returns (w: RawField)
    requires IsSlice(data) && i <= |data| && IsTag(tag, 2)
    requires SkipValue(data, i, 2).Ok? && 0 <= SkipValue(data, i, 2).value <= |data|
    ensures Valid(w) && !w.WGroup?
    ensures Bytes(w) == tag + data[i..SkipValue(data, i, 2).value]
  {
    var j := SkipValue(data, i, 2).value;
    var len := DecodeVarint(W64, data, i).value;
    VarintFound(data, i);
    w := WLen(tag, data[i..len.next], data[len.next..j]);
    assert data[i..j] == data[i..len.next] + data[len.next..j];
  }

  lemma SimpleTokenFound(data: seq<byte>, i: nat) returns (w: RawField)
    requires IsSlice(data) && i < |data| && DecodeVarint(W64, data, i).Ok?
    requires var tag := DecodeVarint(W64, data, i).value;
             && tag.value % 8 in {0, 1, 2, 5}
             && SkipValue(data, tag.next, tag.value % 8).Ok?
             && 0 <= SkipValue(data, tag.next, tag.value % 8).value <= |data|
    ensures Valid(w) && !w.WGroup?
    ensures var tag := DecodeVarint(W64, data, i).value;
            Bytes(w) == data[i..SkipValue(data, tag.next, tag.value % 8).value]
  {
    var tag := DecodeVarint(W64, data, i).value;
    VarintFound(data, i);
    w := ValueFound(data, data[i..tag.next], tag.next, tag.value % 8);
    var j := SkipValue(data, tag.next, tag.value % 8).value;
    assert data[i..j] == data[i..tag.next] + data[tag.next..j];
  }

  lemma Assoc4(a: seq<byte>, b: seq<byte>, c: seq<byte>, d: seq<byte>)
    ensures ((a + b) + c) + d == a + ((b + c) + d)
  {
  }

  lemma BytesAllCons(w: RawField, ws: seq<RawField>)
    ensures BytesAll([w] + ws) == Bytes(w) + BytesAll(ws)
    ensures ValidAll([w] + ws) <==> Valid(w) && ValidAll(ws)
  {
    assert ([w] + ws)[1..] == ws;
  }

  lemma FlattenCons(l: Level, ls: seq<Level>)
    ensures Flatten([l] + ls) == BytesAll(l.body) + l.end + Flatten(ls)
  {
    assert ([l] + ls)[1..] == ls;
  }

  lemma PrependField(ls: seq<Level>, w: RawField) returns (ls': seq<Level>)
    requires ls != [] && ValidLevels(ls) && Valid(w)
    ensures |ls'| == |ls| && ValidLevels(ls') && Flatten(ls') == Bytes(w) + Flatten(ls)
  {
    hide Bytes, Valid, BytesAll, ValidAll;
    BytesAllCons(w, ls[0].body);
    FlattenCons(Level([w] + ls[0].body, ls[0].end), ls[1..]);
    Assoc4(Bytes(w), BytesAll(ls[0].body), ls[0].end, Flatten(ls[1..]));
    ls' := [Level([w] + ls[0].body, ls[0].end)] + ls[1..];
  }

  /** What skipGrpc has passed when it is `depth` groups deep closes exactly those groups. */
  lemma {:induction false} OpenGroupsFound(data: seq<byte>, i: nat, depth: nat) returns (ls: seq<Level>)
    requires IsSlice(data) && depth > 0
    requires SkipFrom(data, i, depth).Ok? && SkipFrom(data, i, depth).value <= |data|
    ensures |ls| == depth && ValidLevels(ls)
    ensures data[i..SkipFrom(data, i, depth).value] == Flatten(ls)
    decreases |data| - i
  {
    hide SkipValue, DecodeVarint;
    var n := SkipFrom(data, i, depth).value;
    var tag := DecodeVarint(W64, data, i).value;
    var j := SkipValue(data, tag.next, tag.value % 8).value;
    assert IsTag(data[i..tag.next], tag.value % 8) by { VarintFound(data, i); }
    SkipValueTypes(data, tag.next, tag.value % 8);
    assert data[i..n] == data[i..j] + data[j..n];
    if tag.value % 8 == 3 {
      var inner := OpenGroupsFound(data, j, depth + 1);
      ls := CloseGroup(inner, data[i..j]);
    } else if tag.value % 8 == 4 {
      var outer := [];
      if depth > 1 { outer := OpenGroupsFound(data, j, depth - 1); }
      FlattenCons(Level([], data[i..j]), outer);
      ls := [Level([], data[i..j])] + outer;
    } else {
      var w := SimpleTokenFound(data, i);
      var rest := OpenGroupsFound(data, j, depth);
      ls := PrependField(rest, w);
    }
  }

  lemma CloseGroup(inner: seq<Level>, tag: seq<byte>) returns (ls: seq<Level>)
    requires |inner| > 1 && ValidLevels(inner) && IsTag(tag, 3)
    ensures |ls| == |inner| - 1 && ValidLevels(ls) && Flatten(ls) == tag + Flatten(inner)
  {
    var g := WGroup(tag, inner[0].body, inner[0].end);
    Assoc4(tag, BytesAll(inner[0].body), inner[0].end, Flatten(inner[1..]));
    ls := PrependField(inner[1..], g);
  }

  /** A well-formed field begins at `i` and is `n - i` bytes long. */
  ghost predicate FieldAt(data: seq<byte>, i: nat, n: nat) {
    i <= n <= |data| && exists w :: Valid(w) && Bytes(w) == data[i..n]
  }

  lemma FieldFound(data: seq<byte>, i: nat)
    requires IsSlice(data) && SkipFrom(data, i, 0).Ok? && SkipFrom(data, i, 0).value <= |data|
    ensures FieldAt(data, i, SkipFrom(data, i, 0).value)
  {
    hide SkipValue, DecodeVarint;
    var n := SkipFrom(data, i, 0).value;
    var tag := DecodeVarint(W64, data, i).value;
    VarintFound(data, i);
    SkipValueTypes(data, tag.next, tag.value % 8);
    if tag.value % 8 == 3 {
      GroupFound(data, i, tag, n);
    } else {
      var w := SimpleTokenFound(data, i);
    }
  }

  lemma GroupFound(data: seq<byte>, i: nat, tag: Read, n: nat)
    requires IsSlice(data) && i < tag.next <= n <= |data| && IsTag(data[i..tag.next], 3)
    requires SkipFrom(data, tag.next, 1) == Ok(n)
    ensures FieldAt(data, i, n)
  {
    hide SkipFrom, ValueOf, IsVarint;
    var ls := OpenGroupsFound(data, tag.next, 1);
    var t, body, end := data[i..tag.next], ls[0].body, ls[0].end;
    assert Flatten(ls[1..]) == [] && BytesAll(body) + end + [] == BytesAll(body) + end;
    assert data[i..n] == t + data[tag.next..n];
    Reassociate3(t, BytesAll(body), end);
    assert Valid(WGroup(t, body, end)) && Bytes(WGroup(t, body, end)) == data[i..n];
  }

  lemma Reassociate3(a: seq<byte>, b: seq<byte>, c: seq<byte>)
    ensures a + b + c == a + (b + c)
  {
  }

  /** skipGrpc returns `n`, within the data, exactly when the first `n` bytes are one well-formed
      field, with groups nested to any depth. */
  lemma SkipExact(data: seq<byte>, n: nat)
    requires IsSlice(data) && n <= |data|
    ensures SkipFrom(data, 0, 0) == Ok(n) <==> FieldAt(data, 0, n)
  {
    if SkipFrom(data, 0, 0) == Ok(n) {
      FieldFound(data, 0);
    } else if FieldAt(data, 0, n) {
      FieldAtSkipped(data, n);
    }
  }

  lemma FieldAtSkipped(data: seq<byte>, n: nat)
    requires IsSlice(data) && n <= |data| && FieldAt(data, 0, n)
    ensures SkipFrom(data, 0, 0) == Ok(n)
  {
    var w :| Valid(w) && Bytes(w) == data[0..n];
    FieldSkipped(data, 0, w, 0, n);
  }
}
