/** The loop every generated Unmarshal runs, parameterised by what its switch knows. */
module Unmarshal {
  import opened Bits
  import opened Varint
  import opened Skip

  /** How a case of the switch reads its field. */
  datatype Kind =
    | Absent                // default: keep the raw bytes
    | Number(width: Width)    // wire type 0 into a word of that width
    | Delimited             // wire type 2, handed on whole
    | MapEntry              // wire type 2, one key and value of a map

  /** The switch of one message type. `setDelimited` fails when a sub-message does. */
  datatype Desc<!M> = Desc(
    kind: int -> Kind,
    setNumber: (M, int, nat) -> M,
    setDelimited: (M, int, seq<byte>) -> Result<M>,
    setEntry: (M, int, seq<byte>, seq<byte>) -> M)

  /** A message value: its known fields and XXX_unrecognized. */
  datatype Message<M> = Message(known: M, unknown: seq<byte>)

  // ----- Specification

  /** A length and the end of the bytes it announces, with the overflow tests of the source. */
  function DecodeLength(data: seq<byte>, i: nat): (r: Result<(nat, nat)>)
    requires IsSlice(data) && i <= |data|
    ensures r.Ok? ==> i < r.value.0 <= r.value.1 <= |data|
  {
    var len :- DecodeVarint(W64, data, i);
    var n := Int64(len.value);
    if n < 0 then Err(InvalidLength)
    else
      var post := Int64(len.next + n);
      if post < 0 then Err(InvalidLength)
      else if post > |data| then Err(UnexpectedEOF)
      else
        Ok((len.next, post))
  }

  /** int32(wire >> 3) */
  function FieldNum(wire: nat): int {
    var u := (wire / 8) % TWO_32;
    if u < 0x8000_0000 then u else u - TWO_32
  }

  /** The end of the unknown field at `i`. */
  function SkipUnknown(data: seq<byte>, i: nat, limit: nat): (r: Result<nat>)
    requires IsSlice(data) && i <= |data| && limit <= |data|
    ensures r.Ok? ==> i < r.value <= limit
  {
    var n :- SkipFrom(data[i..], 0, 0);
    var end := Int64(i + n);
    if end < 0 then Err(InvalidLength)
    else if end > limit then Err(UnexpectedEOF)
    else Ok(end)
  }

  /** The loop over one map entry. Keys and values are bounded by the end of the whole message, not of
      the entry, so the index may run past `post`. */
  function DecodeEntry(data: seq<byte>, i: nat, post: nat, key: seq<byte>, value: seq<byte>)
    : Result<(seq<byte>, seq<byte>)>
    requires IsSlice(data) && i <= |data| && post <= |data|
    decreases |data| - i
  {
    if i >= post then Ok((key, value))
    else
      var wire :- DecodeVarint(W64, data, i);
      if FieldNum(wire.value) == 1 then
        var k :- DecodeLength(data, wire.next);
        DecodeEntry(data, k.1, post, data[k.0..k.1], value)
      else if FieldNum(wire.value) == 2 then
        var v :- DecodeLength(data, wire.next);
        DecodeEntry(data, v.1, post, key, data[v.0..v.1])
      else
        var n :- SkipUnknown(data, i, post);
        DecodeEntry(data, n, post, key, value)
  }

  datatype Parsed<M> = Parsed(m: Message<M>, next: nat)

  /** One round of the loop: the field at `i` merged into `m`, and the index behind it. */
  function Step<M>(d: Desc<M>, m: Message<M>, data: seq<byte>, i: nat): (r: Result<Parsed<M>>)
    requires IsSlice(data) && i < |data|
    ensures r.Ok? ==> i < r.value.next <= |data|
  {
    var wire :- DecodeVarint(W64, data, i);
    var num := FieldNum(wire.value);
    var wireType := wire.value % 8;
    if wireType == 4 then Err(UnexpectedEndOfGroup)
    else if num <= 0 then Err(IllegalTag)
    else
      match d.kind(num)
      case Number(width) =>
        if wireType != 0 then Err(WrongWireType)
        else
          var v :- DecodeVarint(width, data, wire.next);
          Ok(Parsed(m.(known := d.setNumber(m.known, num, v.value)), v.next))
      case Delimited =>
        if wireType != 2 then Err(WrongWireType)
        else
          var p :- DecodeLength(data, wire.next);
          var known :- d.setDelimited(m.known, num, data[p.0..p.1]);
          Ok(Parsed(m.(known := known), p.1))
      case MapEntry =>
        if wireType != 2 then Err(WrongWireType)
        else
          var p :- DecodeLength(data, wire.next);
          var kv :- DecodeEntry(data, p.0, p.1, [], []);
          Ok(Parsed(m.(known := d.setEntry(m.known, num, kv.0, kv.1)), p.1))
      case Absent =>
        var n :- SkipUnknown(data, i, |data|);
        Ok(Parsed(m.(unknown := m.unknown + data[i..n]), n))
  }

  /** Unmarshal from index `i` on, into a message that may already hold fields. */
  function DecodeMsg<M>(d: Desc<M>, m: Message<M>, data: seq<byte>, i: nat): Result<Message<M>>
    requires IsSlice(data) && i <= |data|
    decreases |data| - i
  {
    if i == |data| then Ok(m)
    else
      var p :- Step(d, m, data, i);
      DecodeMsg(d, p.m, data, p.next)
  }

  // ----- The loops

  method ReadLength(data: seq<byte>, i: nat) returns (r: Result<(nat, nat)>)
    requires IsSlice(data) && i <= |data|
    ensures r == DecodeLength(data, i)
  {
    var len := ReadVarint(W64, data, i);
    if len.Err? {
      return Err(len.error);
    }
    var n := Int64(len.value.value);
    if n < 0 {
      return Err(InvalidLength);
    }
    var post := Int64(len.value.next + n);
    if post < 0 {
      return Err(InvalidLength);
    }
    if post > |data| {
      return Err(UnexpectedEOF);
    }
    r := Ok((len.value.next, post));
  }

  method PassUnknown(data: seq<byte>, i: nat, limit: nat) returns (r: Result<nat>)
    requires IsSlice(data) && i <= |data| && limit <= |data|
    ensures r == SkipUnknown(data, i, limit)
  {
    var n := SkipGrpc(data[i..]);
    if n.Err? {
      return Err(n.error);
    }
    var end := Int64(i + n.value);
    if end < 0 {
      return Err(InvalidLength);
    }
    if end > limit {
      return Err(UnexpectedEOF);
    }
    r := Ok(end);
  }

  method ReadEntry(data: seq<byte>, start: nat, post: nat) returns (r: Result<(seq<byte>, seq<byte>)>)
    requires IsSlice(data) && start <= |data| && post <= |data|
    ensures r == DecodeEntry(data, start, post, [], [])
  {
    var i, key, value := start, [], [];
    while i < post
      invariant start <= i <= |data|
      invariant DecodeEntry(data, start, post, [], []) == DecodeEntry(data, i, post, key, value)
      decreases |data| - i
    {
      var wire := ReadVarint(W64, data, i);
      if wire.Err? {
        return Err(wire.error);
      }
      var num := FieldNum(wire.value.value);
      if num == 1 || num == 2 {
        var p := ReadLength(data, wire.value.next);
        if p.Err? {
          return Err(p.error);
        }
        if num == 1 {
          key := data[p.value.0..p.value.1];
        } else {
          value := data[p.value.0..p.value.1];
        }
        i := p.value.1;
      } else {
        var n := PassUnknown(data, i, post);
        if n.Err? {
          return Err(n.error);
        }
        i := n.value;
      }
    }
    r := Ok((key, value));
  }

  /** One round of the generated loop. */
  method ReadField<M>(d: Desc<M>, m: Message<M>, data: seq<byte>, i: nat) returns (r: Result<Parsed<M>>)
    requires IsSlice(data) && i < |data|
    ensures r == Step(d, m, data, i)
  {
    var wire := ReadVarint(W64, data, i);
    if wire.Err? {
      return Err(wire.error);
    }
    var num := FieldNum(wire.value.value);
    var wireType := wire.value.value % 8;
    if wireType == 4 {
      return Err(UnexpectedEndOfGroup);
    }
    if num <= 0 {
      return Err(IllegalTag);
    }
    var kind := d.kind(num);
    if kind.Absent? {
      var n := PassUnknown(data, i, |data|);
      return if n.Err? then Err(n.error) else Ok(Parsed(m.(unknown := m.unknown + data[i..n.value]), n.value));
    }
    if kind.Number? {
      if wireType != 0 {
        return Err(WrongWireType);
      }
      var v := ReadVarint(kind.width, data, wire.value.next);
      return if v.Err? then Err(v.error)
        else Ok(Parsed(m.(known := d.setNumber(m.known, num, v.value.value)), v.value.next));
    }
    if wireType != 2 {
      return Err(WrongWireType);
    }
    var p := ReadLength(data, wire.value.next);
    if p.Err? {
      return Err(p.error);
    }
    if kind.Delimited? {
      var known := d.setDelimited(m.known, num, data[p.value.0..p.value.1]);
      return if known.Err? then Err(known.error) else Ok(Parsed(m.(known := known.value), p.value.1));
    }
    var kv := ReadEntry(data, p.value.0, p.value.1);
    return if kv.Err? then Err(kv.error)
      else Ok(Parsed(m.(known := d.setEntry(m.known, num, kv.value.0, kv.value.1)), p.value.1));
  }

  /** Unmarshal: on any bytes it ends, with the index strictly increasing, and reads only inside them. */
  method Unmarshal<M>(d: Desc<M>, m: Message<M>, data: seq<byte>) returns (r: Result<Message<M>>)
    requires IsSlice(data)
    ensures r == DecodeMsg(d, m, data, 0)
  {
    var i, acc := 0, m;
    while i < |data|
      invariant 0 <= i <= |data|
      invariant DecodeMsg(d, m, data, 0) == DecodeMsg(d, acc, data, i)
      decreases |data| - i
    {
      var p := ReadField(d, acc, data, i);
      if p.Err? {
        return Err(p.error);
      }
      acc, i := p.value.m, p.value.next;
    }
    r := Ok(acc);
  }
}
