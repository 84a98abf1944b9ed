/** Base 128 varints (Protocol Buffers Encoding, "Base 128 Varints") as the generated code reads and
    writes them. */
module Varint {
  import opened Bits

  type byte = x: int | 0 <= x < 256

  datatype Error =
    | IntOverflow | UnexpectedEOF | InvalidLength | UnexpectedEndOfGroup
    | IllegalWireType | IllegalTag | WrongWireType
    | SliceBounds  // a run-time panic of Go

  datatype Result<+T> = Ok(value: T) | Err(error: Error) {
    predicate IsFailure() { Err? }
    function PropagateFailure<U>(): Result<U> requires Err? { Err(error) }
    function Extract(): T requires Ok? { value }
  }

  // ----- Writing

  /** Seven bits a byte, least significant first, the high bit set on all but the last. */
  function VarintBytes(v: nat): (r: seq<byte>)
    ensures |r| > 0
  {
    if v < 128 then [v] else [v % 128 + 128] + VarintBytes(v / 128)
  }

  /** Byte `k` holds the seven bits from bit 7k on, and all bytes but the last have the high bit set. */
  lemma {:induction false} VarintBits(v: nat, k: nat)
    requires k < |VarintBytes(v)|
    ensures VarintBytes(v)[k] % 128 == (v / Pow2(7 * k)) % 128
    ensures VarintBytes(v)[k] >= 128 <==> k + 1 < |VarintBytes(v)|
  {
    if k == 0 {
      assert v / Pow2(0) == v;
    } else {
      VarintBits(v / 128, k - 1);
      DivideTwice(v, k);
    }
  }

  lemma DivideTwice(v: nat, k: nat)
    requires k > 0
    ensures v / 128 / Pow2(7 * (k - 1)) == v / Pow2(7 * k)
  {
    var p := Pow2(7 * (k - 1));
    Pow2Values();
    Pow2Add(7, 7 * (k - 1));
    assert Pow2(7 * k) == 128 * p;
    var q, r := v / 128 / p, v / 128 % p;
    assert v == 128 * (v / 128) + v % 128 && v / 128 == p * q + r;
    assert 128 * (p * q + r) == (128 * p) * q + 128 * r by { Distribute(128, p * q, r); MulAssociate(128, p, q); }
    RemainderUnique(v, 128 * p, q, 128 * r + v % 128);
  }

  /** bits.Len64 */
  function BitLen(x: nat): nat {
    if x == 0 then 0 else 1 + BitLen(x / 2)
  }

  /** sovGrpc */
  function Sov(x: nat): nat {
    (BitLen(BitOr(x, 1)) + 6) / 7
  }

  lemma BitLenOfOr(x: nat)
    ensures BitLen(BitOr(x, 1)) == if x == 0 then 1 else BitLen(x)
  {
    if x > 0 {
      assert BitOr(x, 1) == 1 + 2 * BitOr(x / 2, 0);
      assert BitOr(x, 1) / 2 == x / 2;
    }
  }

  lemma BitLenOfSeptet(x: nat)
    requires 0 < x < 128
    ensures 1 <= BitLen(x) <= 7
  {
    assert forall y: nat :: y < 2 ==> BitLen(y) <= 1;
    assert forall y: nat :: y < 4 ==> BitLen(y) <= 2;
    assert forall y: nat :: y < 8 ==> BitLen(y) <= 3;
    assert forall y: nat :: y < 16 ==> BitLen(y) <= 4;
    assert forall y: nat :: y < 32 ==> BitLen(y) <= 5;
    assert forall y: nat :: y < 64 ==> BitLen(y) <= 6;
  }

  lemma BitLenHalf(x: nat)
    ensures x > 0 ==> BitLen(x) == 1 + BitLen(x / 2)
  {
  }

  lemma BitLenShift(x: nat)
    requires x >= 128
    ensures BitLen(x) == 7 + BitLen(x / 128)
  {
    hide BitLen;
    BitLenHalf(x);
    BitLenHalf(x / 2);
    BitLenHalf(x / 4);
    BitLenHalf(x / 8);
    BitLenHalf(x / 16);
    BitLenHalf(x / 32);
    BitLenHalf(x / 64);
  }

  /** The bit-length formula is the number of bytes written, for every value. */
  lemma {:induction false} SovIsLength(v: nat)
    ensures Sov(v) == |VarintBytes(v)|
  {
    hide BitOr;
    BitLenOfOr(v);
    if v < 128 {
      if v > 0 { BitLenOfSeptet(v); }
    } else {
      SovIsLength(v / 128);
      BitLenOfOr(v / 128);
      BitLenShift(v);
    }
  }

  /** encodeVarintGrpc: write `v` so that it ends just before `offset`. */
  method EncodeVarint(buf: array<byte>, offset: nat, v: nat) returns (base: nat)
    requires Sov(v) <= offset <= buf.Length
    modifies buf
    ensures base == offset - Sov(v)
    ensures buf[base..] == VarintBytes(v) + old(buf[offset..])
    ensures forall j :: 0 <= j < base ==> buf[j] == old(buf[j])
  {
    hide Sov, BitLen, Low, High, VarintBytes;
    SovIsLength(v);
    base := offset - Sov(v);
    var at, rest := base, v;
    ghost var bytes := VarintBytes(v);
    while rest >= 128
      invariant base <= at < offset && VarintBytes(rest) == bytes[at - base..]
      invariant forall j :: base <= j < at ==> buf[j] == bytes[j - base]
      invariant forall j :: 0 <= j < buf.Length && !(base <= j < at) ==> buf[j] == old(buf[j])
      decreases rest
    {
      SuffixHead(bytes, at - base, rest);
      buf[at] := Low(rest);
      rest, at := High(rest), at + 1;
    }
    SuffixHead(bytes, at - base, rest);
    buf[at] := rest;
  }

  /** The low seven bits with the continuation bit. */
  function Low(v: nat): byte {
    v % 128 + 128
  }

  /** The bits above them. */
  function High(v: nat): (r: nat)
    ensures v >= 128 ==> r < v
  {
    v / 128
  }

  lemma SuffixHead(bytes: seq<byte>, k: nat, rest: nat)
    requires k < |bytes| && VarintBytes(rest) == bytes[k..]
    ensures rest < 128 ==> bytes[k] == rest && k + 1 == |bytes|
    ensures rest >= 128 ==> bytes[k] == Low(rest) && VarintBytes(High(rest)) == bytes[k + 1..] && k + 1 < |bytes|
  {
    assert bytes[k..][0] == bytes[k];
    if rest >= 128 { assert bytes[k..][1..] == bytes[k + 1..]; }
  }

  // ----- Reading

  /** The words varints are read into. */
  datatype Width = W32 | W64 {
    function Modulus(): nat {
      if W32? then TWO_32 else TWO_64
    }

    function Exponent(): nat {
      if W32? then 32 else 64
    }
  }

  datatype Read = Read(value: nat, next: nat)

  /** The septets from index `i` on, `k` of them already read, as one number. */
  function Septets(data: seq<byte>, i: nat, k: nat): (r: Result<Read>)
    requires i <= |data|
    ensures r.Ok? ==> i < r.value.next <= |data|
    decreases |data| - i
  {
    if 7 * k >= 64 then Err(IntOverflow)
    else if i >= |data| then Err(UnexpectedEOF)
    else if data[i] < 128 then Ok(Read(data[i], i + 1))
    else
      var r :- Septets(data, i + 1, k + 1);
      Ok(Read(data[i] % 128 + 128 * r.value, r.next))
  }

  /** A varint at index `i`, truncated to a word. */
  function DecodeVarint(w: Width, data: seq<byte>, i: nat): (r: Result<Read>)
    requires i <= |data|
    ensures r.Ok? ==> i < r.value.next <= |data| && r.value.value < w.Modulus()
  {
    var r :- Septets(data, i, 0);
    Ok(Read(r.value % w.Modulus(), r.next))
  }

  /** `x << s` on a word. */
  function Shl(w: Width, x: nat, s: nat): nat {
    (x * Pow2(s)) % w.Modulus()
  }

  lemma ModulusIsPower(w: Width)
    ensures w.Modulus() == Pow2(w.Exponent())
  {
    Pow2Values();
  }

  /** Shifted septets do not overlap the bits read so far, so or-ing them in adds them. */
  lemma OrIsAdd(w: Width, acc: nat, x: nat, s: nat)
    requires acc < Pow2(s) && acc < w.Modulus()
    ensures BitOr(acc, Shl(w, x, s)) == (acc + x * Pow2(s)) % w.Modulus()
  {
    ModulusIsPower(w);
    OrIsAddPow2(w.Exponent(), acc, x, s);
  }

  lemma OrIsAddPow2(width: nat, acc: nat, x: nat, s: nat)
    requires acc < Pow2(s) && acc < Pow2(width)
    ensures BitOr(acc, (x * Pow2(s)) % Pow2(width)) == (acc + x * Pow2(s)) % Pow2(width)
  {
    if s >= width {
      assert Pow2(s) == Pow2(width) * Pow2(s - width) by { Pow2Add(width, s - width); }
      ShiftedOut(Pow2(width), Pow2(s - width), acc, x);
    } else {
      assert Pow2(width) == Pow2(s) * Pow2(width - s) by { Pow2Add(s, width - s); }
      PartlyShiftedOut(Pow2(s), Pow2(width - s), acc, x);
      OrOfDisjointIsSum(acc, x % Pow2(width - s), s);
    }
  }

  lemma ShiftedOut(w: nat, p: nat, acc: nat, x: nat)
    requires 0 < w && acc < w
    ensures (x * (w * p)) % w == 0 && (acc + x * (w * p)) % w == acc
  {
    assert x * (w * p) == w * (x * p) by { MulAssociate(w, x, p); MulAssociate(x, w, p); }
    RemainderUnique(x * (w * p), w, x * p, 0);
    RemainderUnique(acc + x * (w * p), w, x * p, acc);
  }

  lemma PartlyShiftedOut(p: nat, n: nat, acc: nat, x: nat)
    requires 0 < p && 0 < n && acc < p
    ensures p * n > 0
    ensures (x * p) % (p * n) == (x % n) * p
    ensures (acc + x * p) % (p * n) == acc + (x % n) * p
  {
    var q, r := x / n, x % n;
    MulPositive(p, n);
    assert x * p == (p * n) * q + r * p by { SplitProduct(x, p, n); }
    assert r * p <= p * n - p by {
      MulMonotone(r, n - 1, p);
      assert (n - 1) * p == p * n - p;
    }
    RemainderUnique(x * p, p * n, q, r * p);
    RemainderUnique(acc + x * p, p * n, q, acc + r * p);
  }

  lemma SplitProduct(x: nat, p: nat, n: nat)
    requires n > 0
    ensures x * p == (p * n) * (x / n) + (x % n) * p
  {
    var q, r := x / n, x % n;
    assert x == n * q + r;
    Distribute(p, n * q, r);
    MulAssociate(p, n, q);
  }

  lemma MulMonotone(a: int, b: int, c: nat)
    requires a <= b
    ensures a * c <= b * c
  {
  }

  lemma SeptetFits(acc: nat, x: nat, s: nat)
    requires acc < Pow2(s) && x < 128
    ensures acc + x * Pow2(s) < Pow2(s + 7)
  {
    Pow2Add(7, s);
    Pow2Values();
    MulMonotone(x, 127, Pow2(s));
  }

  lemma RemainderAtMost(x: nat, m: nat)
    requires m > 0
    ensures x % m <= x
  {
    if x < m { RemainderUnique(x, m, 0, x); }
  }

  lemma RemainderOfSum(a: nat, b: nat, m: nat)
    requires m > 0
    ensures (a % m + b) % m == (a + b) % m
  {
    var q, r := (a % m + b) / m, (a % m + b) % m;
    Distribute(m, a / m, q);
    RemainderUnique(a + b, m, a / m + q, r);
  }

  /** The whole varint is the `sum` of the `k` septets read so far plus the rest, scaled. */
  ghost predicate Continues(data: seq<byte>, start: nat, i: nat, k: nat, sum: nat)
    requires start <= i <= |data|
  {
    Septets(data, start, 0) == match Septets(data, i, k)
                               case Err(e) => Err(e)
                               case Ok(r) => Ok(Read(sum + r.value * Pow2(7 * k), r.next))
  }

  lemma ContinuesStart(data: seq<byte>, start: nat)
    requires start <= |data|
    ensures Continues(data, start, start, 0, 0)
  {
  }

  lemma NextScale(k: nat)
    ensures Pow2(7 * (k + 1)) == 128 * Pow2(7 * k)
  {
    Pow2Add(7, 7 * k);
    Pow2Values();
  }

  lemma ScaledSum(b: nat, v: nat, p: nat)
    ensures (b + 128 * v) * p == b * p + v * (128 * p)
  {
    Distribute(p, b, 128 * v);
    MulAssociate(v, 128, p);
  }

  lemma ContinuesStep(data: seq<byte>, start: nat, i: nat, k: nat, sum: nat)
    requires start <= i < |data| && Continues(data, start, i, k, sum) && 7 * k < 64
    ensures data[i] >= 128 ==> Continues(data, start, i + 1, k + 1, sum + (data[i] % 128) * Pow2(7 * k))
    ensures data[i] < 128 ==> Septets(data, start, 0) == Ok(Read(sum + (data[i] % 128) * Pow2(7 * k), i + 1))
  {
    if data[i] >= 128 {
      var r := Septets(data, i + 1, k + 1);
      NextScale(k);
      if r.Ok? { ScaledSum(data[i] % 128, r.value.value, Pow2(7 * k)); }
    }
  }

  /** One round of the reading loop keeps the accumulator equal to the truncated sum. */
  lemma OrRound(w: Width, acc: nat, sum: nat, x: nat, shift: nat)
    requires acc < Pow2(shift) && acc == sum % w.Modulus() && x < 128
    ensures var acc' := BitOr(acc, Shl(w, x, shift));
            acc' < Pow2(shift + 7) && acc' == (sum + x * Pow2(shift)) % w.Modulus()
  {
    hide BitOr, Shl, Pow2;
    OrIsAdd(w, acc, x, shift);
    RoundSum(acc, sum, x * Pow2(shift), w.Modulus());
    SeptetFits(acc, x, shift);
  }

  lemma RoundSum(acc: nat, sum: nat, add: nat, m: nat)
    requires m > 0 && acc == sum % m
    ensures (acc + add) % m == (sum + add) % m <= acc + add
  {
    RemainderOfSum(sum, add, m);
    RemainderAtMost(acc + add, m);
  }

  /** The inlined reading loop: it shifts and or-s in a word, and never indexes outside the data. */
  method ReadVarint(w: Width, data: seq<byte>, start: nat) returns (r: Result<Read>)
    requires start <= |data|
    ensures r == DecodeVarint(w, data, start)
  {
    hide BitOr, Shl, Pow2;
    var acc: nat, shift: nat, i: nat := 0, 0, start;
    ghost var k: nat, sum: nat := 0, 0;
    ContinuesStart(data, start);
    while true
      invariant start <= i <= |data| && shift == 7 * k
      invariant acc < Pow2(shift) && acc == sum % w.Modulus()
      invariant Continues(data, start, i, k, sum)
      decreases |data| - i
    {
      if shift >= 64 {
        return Err(IntOverflow);
      }
      if i >= |data| {
        return Err(UnexpectedEOF);
      }
      var b := data[i];
      ContinuesStep(data, start, i, k, sum);
      OrRound(w, acc, sum, b % 128, shift);
      i := i + 1;
      acc := BitOr(acc, Shl(w, b % 128, shift));
      sum := sum + (b % 128) * Pow2(shift);
      if b < 128 {
        return Ok(Read(acc, i));
      }
      shift, k := shift + 7, k + 1;
    }
  }

  // ----- Reading undoes writing

  ghost predicate At(data: seq<byte>, i: nat, s: seq<byte>) {
    i + |s| <= |data| && data[i..i + |s|] == s
  }

  /** Room for the septets of `v` when `k` have been read. */
  function Room(k: nat): nat
    decreases 10 - k
  {
    if k >= 10 then 0 else if k == 9 then 2 else 128 * Room(k + 1)
  }

  lemma {:induction false} SeptetsUndo(data: seq<byte>, i: nat, k: nat, v: nat)
    requires At(data, i, VarintBytes(v)) && v < Room(k)
    ensures Septets(data, i, k) == Ok(Read(v, i + |VarintBytes(v)|))
    decreases v
  {
    assert data[i..i + |VarintBytes(v)|][0] == data[i] == VarintBytes(v)[0];
    if v >= 128 {
      assert data[i + 1..i + 1 + |VarintBytes(v / 128)|] == VarintBytes(v)[1..] == VarintBytes(v / 128);
      SeptetsUndo(data, i + 1, k + 1, v / 128);
    }
  }

  /** Reading back a written uint64 gives it, truncated to the word of the field, and stops right
      behind it. */
  lemma DecodeUndoesEncode(w: Width, data: seq<byte>, i: nat, v: nat)
    requires At(data, i, VarintBytes(v)) && v < TWO_64
    ensures DecodeVarint(w, data, i) == Ok(Read(v % w.Modulus(), i + |VarintBytes(v)|))
  {
    assert Room(0) == TWO_64;
    SeptetsUndo(data, i, 0, v);
  }

  lemma DecodeUndoesEncode64(data: seq<byte>, i: nat, v: nat)
    requires At(data, i, VarintBytes(v)) && v < TWO_64
    ensures DecodeVarint(W64, data, i) == Ok(Read(v, i + |VarintBytes(v)|))
  {
    DecodeUndoesEncode(W64, data, i, v);
  }

  // ----- Signed values

  /** uint64(x) of a signed value */
  function Unsigned(x: int): (r: nat)
    ensures r < TWO_64
  {
    x % TWO_64
  }

  /** A word read as two's complement. */
  function Signed(w: Width, u: nat): int {
    if u < w.Modulus() / 2 then u else u - w.Modulus()
  }

  predicate FitsSigned(w: Width, x: int) {
    var p: int := w.Modulus() / 2;
    -p <= x < p
  }

  /** An int32 or int64 survives the sign extension to uint64 and the truncation back. */
  lemma SignedUndoesUnsigned(w: Width, x: int)
    requires FitsSigned(w, x)
    ensures Signed(w, Unsigned(x) % w.Modulus()) == x
  {
  }
}
