/** The decoder of the question name in a DNS answer. */
module Dns {
  import opened Varint
  import opened Wrappers

  const HEADER := 12
  const DOT: byte := 46
  const HASH: byte := 35

  /** isprint of the kernel, whose character table follows Latin-1 */
  predicate IsPrint(b: byte) {
    0x20 <= b <= 0x7e || 0xa0 <= b
  }

  function Shown(b: byte): byte {
    if IsPrint(b) then b else HASH
  }

  function ShownAll(s: seq<byte>): (r: seq<byte>)
    ensures |r| == |s|
  {
    seq(|s|, i requires 0 <= i < |s| => Shown(s[i]))
  }

  // ----- What the loop writes

  /** What is written for the bytes `q` when `left` bytes of the current label are still to come. */
  function Decode(q: seq<byte>, left: nat): (r: seq<byte>)
    ensures |r| == |q|
  {
    if q == [] then []
    else if left == 0 then [DOT] + Decode(q[1..], q[0])
    else [Shown(q[0])] + Decode(q[1..], left - 1)
  }

  /** What is written for a question name; its first byte is only the length of the first label. */
  function DecodeName(q: seq<byte>): (r: seq<byte>) {
    if q == [] then [] else Decode(q[1..], q[0])
  }

  /** be16_to_cpu */
  function BigEndian(high: byte, low: byte): nat {
    256 * high as nat + low as nat
  }

  /** get_dns_query */
  method GetDnsQuery(data: seq<byte>, queryLen: nat, res: array<byte>) returns (kind: nat)
    requires HEADER + queryLen + 3 <= |data| && queryLen <= res.Length
    modifies res
    ensures queryLen > 0 ==> res[..queryLen - 1] == DecodeName(data[HEADER..HEADER + queryLen])
    ensures forall k :: 0 <= k < res.Length && queryLen - 1 <= k ==> res[k] == old(res[k])
    ensures kind == BigEndian(data[HEADER + queryLen + 1], data[HEADER + queryLen + 2])
  {
    hide Decode, IsPrint;
    ghost var q := data[HEADER..HEADER + queryLen];
    var flag: int := -1;
    for i := 0 to queryLen
      invariant flag == -1 <==> i == 0
      invariant flag >= -1
      invariant i > 0 ==> res[..i - 1] + Decode(q[i..], flag) == DecodeName(q)
      invariant forall k :: 0 <= k < res.Length && i - 1 <= k ==> res[k] == old(res[k])
    {
      var b := data[HEADER + i];
      if flag == -1 {
        flag := b;
      } else {
        DecodeStep(q, i, flag);
        ghost var done, more := res[..i - 1], Decode(q[i..], flag);
        if flag == 0 {
          flag := b;
          res[i - 1] := DOT;
        } else {
          if IsPrint(b) {
            res[i - 1] := b;
          } else {
            res[i - 1] := HASH;
          }
          flag := flag - 1;
        }
        assert res[..i] == done + [more[0]];
        Reassociate(done, [more[0]], more[1..]);
      }
    }
    DecodeNothing(q, flag);
    kind := BigEndian(data[HEADER + queryLen + 1], data[HEADER + queryLen + 2]);
  }

  /** What one byte adds. */
  lemma DecodeStep(q: seq<byte>, i: nat, left: nat)
    requires i < |q|
    ensures var more := Decode(q[i..], left);
            && more[0] == (if left == 0 then DOT else Shown(q[i]))
            && more[1..] == Decode(q[i + 1..], if left == 0 then q[i] else left - 1)
            && more == [more[0]] + more[1..]
  {
    assert q[i..][0] == q[i] && q[i..][1..] == q[i + 1..];
  }

  lemma DecodeNothing(q: seq<byte>, left: int)
    ensures left >= 0 ==> Decode(q[|q|..], left) == []
  {
  }

  lemma Reassociate(a: seq<byte>, b: seq<byte>, c: seq<byte>)
    ensures (a + b) + c == a + (b + c)
  {
  }

  // ----- Names as section 3.1 of RFC 1035 describes them

  predicate Label(l: seq<byte>) {
    1 <= |l| < 256
  }

  predicate Labels(labels: seq<seq<byte>>) {
    forall i :: 0 <= i < |labels| ==> Label(labels[i])
  }

  predicate NulFree(labels: seq<seq<byte>>) {
    forall i :: 0 <= i < |labels| ==> 0 !in labels[i]
  }

  /** Each label follows its length. */
  function Name(labels: seq<seq<byte>>): seq<byte>
    requires Labels(labels)
  {
    if labels == [] then [] else [|labels[0]|] + labels[0] + Name(labels[1..])
  }

  /** The labels of any question name; the last one may be cut short. */
  function Split(q: seq<byte>): seq<seq<byte>> {
    if q == [] then []
    else if |q| - 1 <= q[0] then [q[1..]]
    else [q[1..1 + q[0]]] + Split(q[1 + q[0]..])
  }

  /** The labels joined by dots, with what cannot be printed replaced. */
  function Join(labels: seq<seq<byte>>): seq<byte> {
    if labels == [] then []
    else if |labels| == 1 then ShownAll(labels[0])
    else ShownAll(labels[0]) + [DOT] + Join(labels[1..])
  }

  /** Within a label, bytes are shown one for one. */
  lemma {:induction false} LabelDecoded(l: seq<byte>, rest: seq<byte>, left: nat)
    requires |l| == left || (|l| < left && rest == [])
    ensures Decode(l + rest, left) == ShownAll(l) + Decode(rest, left - |l|)
  {
    if l == [] {
      assert l + rest == rest;
    } else {
      assert (l + rest)[1..] == l[1..] + rest;
      LabelDecoded(l[1..], rest, left - 1);
      assert ShownAll(l) == [Shown(l[0])] + ShownAll(l[1..]);
    }
  }

  /** Whatever the question holds, its labels are written out with a dot between them. */
  lemma {:induction false} AnyNameDecoded(q: seq<byte>)
    ensures DecodeName(q) == Join(Split(q))
    decreases |q|
  {
    if q != [] {
      var n := q[0];
      if |q| - 1 <= n {
        LabelDecoded(q[1..], [], n);
        assert q[1..] + [] == q[1..];
      } else {
        var l, rest := q[1..1 + n], q[1 + n..];
        assert q[1..] == l + rest;
        LabelDecoded(l, rest, n);
        AnyNameDecoded(rest);
        assert Split(q)[1..] == Split(rest);
      }
    }
  }

  lemma {:induction false} SplitUndoesName(labels: seq<seq<byte>>)
    requires Labels(labels)
    ensures Split(Name(labels)) == labels
  {
    if labels != [] {
      assert Label(labels[0]);
      var rest := Name(labels[1..]);
      SplitUndoesName(labels[1..]);
      if |labels| > 1 { NameNotEmpty(labels[1..]); }
      SplitStep(labels[0], rest);
    }
  }

  lemma NameNotEmpty(labels: seq<seq<byte>>)
    requires Labels(labels) && labels != []
    ensures Name(labels) != []
  {
  }

  /** Splitting takes the first label off. */
  lemma SplitStep(l: seq<byte>, rest: seq<byte>)
    requires Label(l)
    ensures Split([|l|] + l + rest) == if rest == [] then [l] else [l] + Split(rest)
  {
    var q := [|l|] + l + rest;
    assert q[0] == |l| && q[1..1 + |l|] == l && q[1 + |l|..] == rest;
    if rest == [] { assert q[1..] == l; }
  }

  lemma NameDecoded(labels: seq<seq<byte>>)
    requires Labels(labels)
    ensures DecodeName(Name(labels)) == Join(labels)
  {
    AnyNameDecoded(Name(labels));
    SplitUndoesName(labels);
  }

  /** Names of printable labels without dots can be told apart once decoded. */
  lemma {:induction false} DecodedNamesDiffer(a: seq<seq<byte>>, b: seq<seq<byte>>)
    requires Labels(a) && Labels(b) && Plain(a) && Plain(b)
    requires Join(a) == Join(b)
    ensures a == b
  {
    if a != [] { FirstLabel(a); }
    if b != [] { FirstLabel(b); }
    if |a| > 1 && |b| > 1 {
      OtherLabels(a);
      OtherLabels(b);
      assert Join(a[1..]) == Join(b[1..]);
      DecodedNamesDiffer(a[1..], b[1..]);
      assert a == [a[0]] + a[1..] && b == [b[0]] + b[1..];
    }
  }

  predicate Plain(labels: seq<seq<byte>>) {
    forall i, k :: 0 <= i < |labels| && 0 <= k < |labels[i]| ==> IsPrint(labels[i][k]) && labels[i][k] != DOT
  }

  function UpToDot(s: seq<byte>): (n: nat)
    ensures n <= |s|
  {
    if s == [] || s[0] == DOT then 0 else 1 + UpToDot(s[1..])
  }

  lemma {:induction false} DotFound(l: seq<byte>, rest: seq<byte>)
    requires DOT !in l && (rest != [] ==> rest[0] == DOT)
    ensures UpToDot(l + rest) == |l|
  {
    if l == [] {
      assert l + rest == rest;
    } else {
      assert (l + rest)[1..] == l[1..] + rest;
      DotFound(l[1..], rest);
    }
  }

  /** The first label reaches up to the first dot, or the end if it is the only one. */
  lemma FirstLabel(labels: seq<seq<byte>>)
    requires labels != [] && Labels(labels) && Plain(labels)
    ensures var s := Join(labels); var n := UpToDot(s);
            labels[0] == s[..n] && s != [] && (n == |s| <==> |labels| == 1)
  {
    assert Label(labels[0]);
    PlainShown(labels);
    hide UpToDot, Plain, ShownAll, Labels;
    var l := labels[0];
    var rest := if |labels| == 1 then [] else [DOT] + Join(labels[1..]);
    DotFound(l, rest);
    assert Join(labels) == l + rest;
  }

  /** The other labels follow the first dot. */
  lemma OtherLabels(labels: seq<seq<byte>>)
    requires |labels| > 1 && Labels(labels) && Plain(labels)
    ensures var s := Join(labels); var n := UpToDot(s);
            n < |s| && Join(labels[1..]) == s[n + 1..]
  {
    PlainShown(labels);
    hide UpToDot, Plain, ShownAll, Labels;
    var l, rest := labels[0], [DOT] + Join(labels[1..]);
    DotFound(l, rest);
    assert Join(labels) == l + rest;
    assert rest[1..] == Join(labels[1..]);
  }

  lemma PlainShown(labels: seq<seq<byte>>)
    requires labels != [] && Plain(labels)
    ensures ShownAll(labels[0]) == labels[0] && DOT !in labels[0]
  {
  }

  // ----- The whole message

  /** strnlen */
  method StrNLen(s: seq<byte>) returns (n: nat)
    ensures n == Measure(s)
  {
    n := 0;
    while n < |s| && s[n] != 0
      invariant n <= |s| && n + Measure(s[n..]) == Measure(s)
    {
      assert s[n..][1..] == s[n + 1..];
      n := n + 1;
    }
  }

  function Measure(s: seq<byte>): (n: nat)
    ensures n <= |s| && 0 !in s[..n] && (n < |s| ==> s[n] == 0)
  {
    if s == [] || s[0] == 0 then 0 else assert s[1..][..Measure(s[1..])] == s[1..1 + Measure(s[1..])]; 1 + Measure(s[1..])
  }

  lemma {:induction false} MeasuredUpTo(s: seq<byte>, n: nat)
    requires n < |s| && s[n] == 0 && 0 !in s[..n]
    ensures Measure(s) == n
  {
    var m := Measure(s);
    assert forall k :: 0 <= k < n ==> s[..n][k] == s[k];
    assert forall k :: 0 <= k < m ==> s[..m][k] == s[k];
  }

  lemma {:induction false} NulInName(labels: seq<seq<byte>>)
    requires Labels(labels)
    ensures 0 !in Name(labels) <==> NulFree(labels)
  {
    if labels != [] {
      NulInName(labels[1..]);
      assert NulFree(labels) <==> 0 !in labels[0] && NulFree(labels[1..]);
    }
  }

  /** The whole name is found exactly when none of its labels holds a zero. */
  lemma NameMeasured(labels: seq<seq<byte>>, rest: seq<byte>)
    requires Labels(labels)
    ensures Measure(Name(labels) + [0] + rest) == |Name(labels)| <==> NulFree(labels)
  {
    var q := Name(labels);
    var s := q + [0] + rest;
    NulInName(labels);
    assert s[..|q|] == q;
    if 0 !in q { MeasuredUpTo(s, |q|); }
  }

  datatype Report = Report(opcode: nat, rcode: nat, kind: nat, query: seq<byte>)

  /** What is reported of a message: the whole buffer of the name, and the type that follows the name. */
  function Answer(recv: seq<byte>): Option<Report>
    requires 20 <= |recv|
  {
    var n := Measure(recv[HEADER..]);
    if recv[2] < 0x80 || n == 0 || n > 253 || n + 17 > |recv| then None
    else Some(Report((recv[2] / 8) % 16, recv[3] % 16, BigEndian(recv[HEADER + n + 1], recv[HEADER + n + 2]),
                     DecodeName(recv[HEADER..HEADER + n]) + [0, 0]))
  }

  /** smith_process_dns. Its callers hand over at least 20 bytes; `fits` is whether the buffer can be
      allocated. */
  method ProcessDns(recv: seq<byte>, fits: bool) returns (r: Option<Report>)
    requires 20 <= |recv|
    ensures r == if fits then Answer(recv) else None
  {
    var qr := if recv[2] >= 0x80 then 1 else 0;
    if qr != 1 {
      return None;
    }
    var opcode := (recv[2] / 8) % 16;
    var rcode := recv[3] % 16;
    var queryLen := StrNLen(recv[HEADER..]);
    if queryLen == 0 || queryLen > 253 || queryLen + 17 > |recv| || !fits {
      return None;
    }
    var query := new byte[queryLen + 1](_ => 0);
    var kind := GetDnsQuery(recv, queryLen, query);
    assert query[..] == query[..queryLen - 1] + [0, 0];
    r := Some(Report(opcode, rcode, kind, query[..]));
  }

  /** An answer as sections 4.1.1 and 4.1.2 of RFC 1035 lay it out: after the header the name, a zero, the
      type, the class and the rest. */
  function Message(header: seq<byte>, labels: seq<seq<byte>>, kind: nat, rest: seq<byte>): seq<byte>
    requires Labels(labels) && kind < 65536
  {
    header + (Name(labels) + [0] + ([kind / 256, kind % 256] + rest))
  }

  /** For every list of non-empty labels without zeros, the answer is reported with the labels joined by
      dots, a terminated buffer, and the type. */
  lemma AnswerReported(header: seq<byte>, labels: seq<seq<byte>>, kind: nat, rest: seq<byte>)
    requires |header| == HEADER && header[2] >= 0x80
    requires labels != [] && Labels(labels) && NulFree(labels) && |Name(labels)| <= 253
    requires kind < 65536 && 2 <= |rest| && 20 <= |Message(header, labels, kind, rest)|
    ensures Answer(Message(header, labels, kind, rest)) ==
            Some(Report((header[2] / 8) % 16, header[3] % 16, kind, Join(labels) + [0, 0]))
  {
    var recv, q, tail := Message(header, labels, kind, rest), Name(labels), [kind / 256, kind % 256] + rest;
    NameMeasured(labels, tail);
    NameDecoded(labels);
    NameNotEmpty(labels);
    hide Name, Measure, DecodeName, Join, NulFree;
    assert recv[HEADER..] == q + [0] + tail;
    assert recv[HEADER..HEADER + |q|] == q;
    assert recv[HEADER + |q| + 1] == tail[0] && recv[HEADER + |q| + 2] == tail[1];
  }

  /** What is reported never holds a zero before the terminator. */
  lemma {:induction false} Terminated(q: seq<byte>, left: nat)
    ensures 0 !in Decode(q, left)
  {
    if q != [] {
      Terminated(q[1..], if left == 0 then q[0] else left - 1);
    }
  }

  /** The name ends `n` bytes behind the header, at the first zero, and the type and class follow it. */
  ghost predicate NameEnds(recv: seq<byte>, n: nat) {
    1 <= n <= 253 && n + 17 <= |recv| && recv[12 + n] == 0 && 0 !in recv[12..12 + n]
  }

  /** Of a message of at least 20 bytes something is reported exactly when the response bit is set and a zero stands 1 to
      253 bytes behind the header, the first one there, with room for the type and class behind it. */
  lemma ReportedExactly(recv: seq<byte>)
    requires 20 <= |recv|
    ensures Answer(recv).Some? <==>
            recv[2] / 128 == 1 && exists n :: NameEnds(recv, n)
  {
    var n := Measure(recv[HEADER..]);
    assert recv[HEADER..][..n] == recv[12..12 + n];
    if Answer(recv).Some? { assert NameEnds(recv, n); }
    if m: nat :| NameEnds(recv, m) {
      assert recv[HEADER..][..m] == recv[12..12 + m] && recv[HEADER..][m] == recv[12 + m];
      MeasuredUpTo(recv[HEADER..], m);
    }
  }

  /** The control characters of ASCII and of Latin-1, 0x7f included, are shown as a hash sign, everything else as it
      is. */
  lemma ShownExactly(b: byte)
    ensures Shown(b) == if b < 32 || 127 <= b < 160 then 35 else b
  {
  }

  /** The labels with a dot between them. */
  function Dotted(labels: seq<seq<byte>>): seq<byte> {
    if labels == [] then [] else if |labels| == 1 then labels[0] else labels[0] + [46] + Dotted(labels[1..])
  }

  lemma {:induction false} JoinIsDotted(labels: seq<seq<byte>>)
    requires forall l <- labels, b <- l :: 32 <= b <= 126
    ensures Join(labels) == Dotted(labels)
  {
    if labels != [] {
      assert labels[0] in labels;
      assert forall k :: 0 <= k < |labels[0]| ==> labels[0][k] in labels[0];
      assert ShownAll(labels[0]) == labels[0];
      JoinIsDotted(labels[1..]);
    }
  }

  /** The answer to a question for a name of printable ASCII labels is reported under that name, letter for letter. */
  lemma PlainNameReported(header: seq<byte>, labels: seq<seq<byte>>, kind: nat, rest: seq<byte>)
    requires |header| == HEADER && header[2] >= 0x80
    requires labels != [] && Labels(labels) && (forall l <- labels, b <- l :: 32 <= b <= 126) && |Name(labels)| <= 253
    requires kind < 65536 && 2 <= |rest| && 20 <= |Message(header, labels, kind, rest)|
    ensures Answer(Message(header, labels, kind, rest)) ==
            Some(Report((header[2] / 8) % 16, header[3] % 16, kind, Dotted(labels) + [0, 0]))
  {
    hide Name, Answer, Message, Join, Dotted, Labels;
    assert NulFree(labels) by { assert forall i :: 0 <= i < |labels| ==> labels[i] in labels; }
    AnswerReported(header, labels, kind, rest);
    JoinIsDotted(labels);
  }
}
