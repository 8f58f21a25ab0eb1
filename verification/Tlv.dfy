// Netlink framing: messages and attributes are length-prefixed records aligned to four bytes
// (section 2.3.2 of RFC 3549). The walks over a buffer, and the encodings they invert.
module Tlv {
  import opened Bytes
  import opened Seqs

  const NLMSG_DONE: nat := 3

  function Align4(n: nat): (r: nat)
    ensures r % 4 == 0 && n <= r < n + 4
  {
    (n + 3) / 4 * 4
  }

  function Padding(n: nat): seq<u8> { seq(Align4(n) - n, i => 0) }

  /** One step of a walk: what was found, and the offset to go on from. */
  datatype Step<+H> = End | More(head: H, next: nat)

  // ----- Attributes -------------------------------------------------------------

  datatype Attribute = Attribute(kind: nat, data: seq<u8>) {
    predicate Fits() { kind < 0x1_0000 && |data| + 4 < 0x1_0000 }
  }

  /** The attribute at an offset, unless the region ends or the attribute does not fit in it. */
  function AttributeAt(order: Endian, buf: seq<u8>, from: nat, end: nat): (r: Step<Attribute>)
    requires end <= |buf|
    ensures r.More? ==> from + 4 <= r.next
  {
    if from + 4 > end then End
    else
      var length := U16At(order, buf, from);
      if length < 4 || from + length > end then End
      else More(Attribute(U16At(order, buf, from + 2), buf[from + 4..from + length]), from + Align4(length))
  }

  /** The attributes of a region, up to its end or the first malformed one. */
  function SplitAttributes(order: Endian, buf: seq<u8>, from: nat, end: nat): seq<Attribute>
    requires end <= |buf|
    decreases end - from
  {
    match AttributeAt(order, buf, from, end)
    case End => []
    case More(a, next) => [a] + SplitAttributes(order, buf, next, end)
  }

  lemma SplitAttributesStep(order: Endian, buf: seq<u8>, from: nat, end: nat)
    requires end <= |buf|
    ensures SplitAttributes(order, buf, from, end) ==
      match AttributeAt(order, buf, from, end)
      case End => []
      case More(a, next) => [a] + SplitAttributes(order, buf, next, end)
  {
  }

  lemma AttributeInSlice(order: Endian, buf: seq<u8>, base: nat, length: nat, from: nat)
    requires base + length <= |buf|
    ensures
      var inner := AttributeAt(order, buf[base..base + length], from, length);
      AttributeAt(order, buf, base + from, base + length) ==
        if inner.End? then End else More(inner.head, base + inner.next)
  {
    hide U16At, U32At;
    if from + 4 <= length {
      var slice := buf[base..base + length];
      SameU16(order, slice, from, buf, base + from);
      SameU16(order, slice, from + 2, buf, base + from + 2);
      var n := U16At(order, slice, from);
      if 4 <= n && from + n <= length {
        Slice(buf, base, base + length, from + 4, from + n);
      }
    }
  }

  /** Attributes read inside a message are those of the message's own bytes, whatever surrounds it. */
  lemma {:induction false} SplitInSlice(order: Endian, buf: seq<u8>, base: nat, length: nat, from: nat)
    requires base + length <= |buf|
    ensures SplitAttributes(order, buf, base + from, base + length)
         == SplitAttributes(order, buf[base..base + length], from, length)
    decreases length - from
  {
    hide U16At, U32At;
    AttributeInSlice(order, buf, base, length, from);
    match AttributeAt(order, buf[base..base + length], from, length)
    case End =>
    case More(a, next) => SplitInSlice(order, buf, base, length, next);
  }

  function EncodeAttribute(order: Endian, a: Attribute): (r: seq<u8>)
    requires a.Fits()
    ensures |r| == Align4(|a.data| + 4)
  {
    PutU16(order, |a.data| + 4) + PutU16(order, a.kind) + a.data + Padding(|a.data| + 4)
  }

  function EncodeAttributes(order: Endian, attrs: seq<Attribute>): seq<u8>
    requires forall i :: 0 <= i < |attrs| ==> attrs[i].Fits()
  {
    if attrs == [] then [] else EncodeAttribute(order, attrs[0]) + EncodeAttributes(order, attrs[1..])
  }

  lemma AttributeOfEncoded(order: Endian, before: seq<u8>, a: Attribute, after: seq<u8>)
    requires a.Fits()
    ensures
      var buf := before + (EncodeAttribute(order, a) + after);
      AttributeAt(order, buf, |before|, |buf|) == More(a, |before + EncodeAttribute(order, a)|)
  {
    var head, kind := PutU16(order, |a.data| + 4), PutU16(order, a.kind);
    var buf := before + (EncodeAttribute(order, a) + after);
    assert buf == before + head + kind + a.data + (Padding(|a.data| + 4) + after);
    assert buf[|before|..|before| + 2] == head;
    ReadPut16(order, |a.data| + 4, buf, |before|);
    assert buf[|before| + 2..|before| + 4] == kind;
    ReadPut16(order, a.kind, buf, |before| + 2);
    assert buf[|before| + 4..|before| + 4 + |a.data|] == a.data;
  }

  /** Splitting inverts the encoding of attributes. */
  lemma {:induction false} SplitEncoded(order: Endian, before: seq<u8>, attrs: seq<Attribute>)
    requires forall i :: 0 <= i < |attrs| ==> attrs[i].Fits()
    ensures
      var buf := before + EncodeAttributes(order, attrs);
      SplitAttributes(order, buf, |before|, |buf|) == attrs
    decreases |attrs|
  {
    hide U16At, U32At;
    if attrs != [] {
      var a, after := attrs[0], EncodeAttributes(order, attrs[1..]);
      AttributeOfEncoded(order, before, a, after);
      Associative(before, EncodeAttribute(order, a), after);
      SplitEncoded(order, before + EncodeAttribute(order, a), attrs[1..]);
      assert attrs == [a] + attrs[1..];
    }
  }

  // ----- Messages ---------------------------------------------------------------

  /** Length of the message at an offset, unless the walk stops there. */
  function MessageAt(order: Endian, buf: seq<u8>, from: nat): (r: Step<nat>)
    ensures r.More? ==> 16 <= r.head && from + r.head <= |buf| && r.next == from + Align4(r.head)
  {
    if from + 16 > |buf| then End
    else
      var length := U32At(order, buf, from);
      if length < 16 || from + length > |buf| then End
      else if U16At(order, buf, from + 4) == NLMSG_DONE then End
      else More(length, from + Align4(length))
  }

  /** The bytes of every message, up to the end, a DONE message or a malformed one. */
  function SplitMessages(order: Endian, buf: seq<u8>, from: nat): seq<seq<u8>>
    decreases |buf| - from
  {
    match MessageAt(order, buf, from)
    case End => []
    case More(length, next) => [buf[from..from + length]] + SplitMessages(order, buf, next)
  }

  lemma SplitMessagesStep(order: Endian, buf: seq<u8>, from: nat)
    ensures SplitMessages(order, buf, from) ==
      match MessageAt(order, buf, from)
      case End => []
      case More(length, next) => [buf[from..from + length]] + SplitMessages(order, buf, next)
  {
  }

  /** A byte string whose header announces its own length. */
  predicate IsMessage(order: Endian, msg: seq<u8>) {
    16 <= |msg| && U32At(order, msg, 0) == |msg|
  }

  function TypeOf(order: Endian, msg: seq<u8>): nat
    requires IsMessage(order, msg)
  {
    U16At(order, msg, 4)
  }

  ghost predicate AreMessages(order: Endian, msgs: seq<seq<u8>>) {
    forall i :: 0 <= i < |msgs| ==> IsMessage(order, msgs[i]) && TypeOf(order, msgs[i]) != 3
  }

  /** Messages one after the other, each padded to the alignment. */
  function Aligned(msgs: seq<seq<u8>>): seq<u8> {
    if msgs == [] then [] else msgs[0] + (Padding(|msgs[0]|) + Aligned(msgs[1..]))
  }

  lemma MessageFound(order: Endian, buf: seq<u8>, from: nat, msg: seq<u8>, after: seq<u8>)
    requires IsMessage(order, msg) && from <= |buf| && buf[from..] == msg + after
    ensures MessageAt(order, buf, from) ==
      if TypeOf(order, msg) == 3 then End else More(|msg|, from + Align4(|msg|))
    ensures from + |msg| <= |buf| && buf[from..from + |msg|] == msg
  {
    hide U16At, U32At;
    SameU32(order, buf, from, msg, 0);
    SameU16(order, buf, from + 4, msg, 4);
    assert buf[from..from + |msg|] == buf[from..][..|msg|];
  }

  lemma PastPadding(buf: seq<u8>, from: nat, msg: seq<u8>, pad: seq<u8>, later: seq<u8>, final: seq<u8>)
    requires from <= |buf| && buf[from..] == (msg + (pad + later)) + final
    ensures from + |msg| + |pad| <= |buf|
    ensures buf[from..] == msg + (pad + later + final)
    ensures buf[from + |msg| + |pad|..] == later + final
  {
    var left := buf[from..];
    assert left == (msg + pad) + (later + final);
    assert buf[from + |msg| + |pad|..] == left[|msg + pad|..];
  }

  lemma FirstAligned(order: Endian, buf: seq<u8>, from: nat, msgs: seq<seq<u8>>, final: seq<u8>)
    requires msgs != [] && AreMessages(order, msgs)
    requires from <= |buf| && buf[from..] == Aligned(msgs) + final
    ensures
      var msg, next := msgs[0], from + Align4(|msgs[0]|);
      && MessageAt(order, buf, from) == More(|msg|, next)
      && buf[from..from + |msg|] == msg
      && next <= |buf| && buf[next..] == Aligned(msgs[1..]) + final
  {
    var msg, pad, later := msgs[0], Padding(|msgs[0]|), Aligned(msgs[1..]);
    hide U16At, U32At, MessageAt, Padding, IsMessage, TypeOf;
    assert Aligned(msgs) == msg + (pad + later);
    hide Aligned;
    PastPadding(buf, from, msg, pad, later, final);
    MessageFound(order, buf, from, msg, pad + later + final);
  }

  lemma SplitFirst(order: Endian, buf: seq<u8>, from: nat, msgs: seq<seq<u8>>)
    requires msgs != [] && MessageAt(order, buf, from) == More(|msgs[0]|, from + Align4(|msgs[0]|))
    requires buf[from..from + |msgs[0]|] == msgs[0]
    requires SplitMessages(order, buf, from + Align4(|msgs[0]|)) == msgs[1..]
    ensures SplitMessages(order, buf, from) == msgs
  {
    hide U16At, U32At;
    assert msgs == [msgs[0]] + msgs[1..];
  }

  lemma {:induction false} SplitUntil(order: Endian, buf: seq<u8>, from: nat, msgs: seq<seq<u8>>, final: seq<u8>)
    requires AreMessages(order, msgs)
    requires from <= |buf| && buf[from..] == Aligned(msgs) + final
    requires |buf| >= |final| && MessageAt(order, buf, |buf| - |final|) == End
    ensures SplitMessages(order, buf, from) == msgs
    decreases |msgs|
  {
    hide U16At, U32At;
    if msgs == [] {
      assert from == |buf| - |final|;
    } else {
      var msg, next := msgs[0], from + Align4(|msgs[0]|);
      FirstAligned(order, buf, from, msgs, final);
      SplitUntil(order, buf, next, msgs[1..], final);
      SplitFirst(order, buf, from, msgs);
    }
  }

  /** Splitting messages followed by a DONE message and any trailing bytes gives back those messages. */
  lemma SplitAligned(order: Endian, msgs: seq<seq<u8>>, done: seq<u8>, trailing: seq<u8>)
    requires AreMessages(order, msgs)
    requires IsMessage(order, done) && TypeOf(order, done) == 3
    ensures SplitMessages(order, Aligned(msgs) + (done + trailing), 0) == msgs
  {
    hide U16At, U32At;
    var buf := Aligned(msgs) + (done + trailing);
    var start := |Aligned(msgs)|;
    assert buf[start..] == done + trailing;
    MessageFound(order, buf, start, done, trailing);
    assert buf[0..] == buf;
    SplitUntil(order, buf, 0, msgs, done + trailing);
  }

  // ----- Where the walk looks -----------------------------------------------------

  /** Start and length of every message the walk reads. */
  function Spans(order: Endian, buf: seq<u8>, from: nat): seq<(nat, nat)>
    decreases |buf| - from
  {
    match MessageAt(order, buf, from)
    case End => []
    case More(length, next) => [(from, length)] + Spans(order, buf, next)
  }

  ghost predicate Separated(spans: seq<(nat, nat)>, start: nat, end: nat) {
    && (forall i :: 0 <= i < |spans| ==> start <= spans[i].0 && 16 <= spans[i].1 && spans[i].0 + spans[i].1 <= end)
    && (forall i, j :: 0 <= i < j < |spans| ==> spans[i].0 + spans[i].1 <= spans[j].0)
  }

  /** In any buffer the messages read are disjoint, in order, inside it, and of at least 16 bytes. */
  lemma {:induction false} SpansProgress(order: Endian, buf: seq<u8>, from: nat)
    ensures Separated(Spans(order, buf, from), from, |buf|)
    ensures from <= |buf| ==> 16 * |Spans(order, buf, from)| <= |buf| - from
    decreases |buf| - from
  {
    hide U16At, U32At;
    match MessageAt(order, buf, from)
    case End =>
    case More(length, next) =>
      SpansProgress(order, buf, next);
      var later := Spans(order, buf, next);
      assert Spans(order, buf, from) == [(from, length)] + later;
      assert next > |buf| ==> later == [];
  }

  function SliceOf(buf: seq<u8>, span: (nat, nat)): seq<u8> {
    if span.0 + span.1 <= |buf| then buf[span.0..span.0 + span.1] else []
  }

  function Slices(buf: seq<u8>, spans: seq<(nat, nat)>): seq<seq<u8>> {
    if spans == [] then [] else [SliceOf(buf, spans[0])] + Slices(buf, spans[1..])
  }

  lemma SlicesCons(buf: seq<u8>, span: (nat, nat), later: seq<(nat, nat)>)
    ensures Slices(buf, [span] + later) == [SliceOf(buf, span)] + Slices(buf, later)
  {
    assert ([span] + later)[1..] == later;
  }

  /** The messages are the slices of their spans: no message sees another one's bytes. */
  lemma {:induction false} SplitReadsSpans(order: Endian, buf: seq<u8>, from: nat)
    ensures SplitMessages(order, buf, from) == Slices(buf, Spans(order, buf, from))
    decreases |buf| - from
  {
    hide U16At, U32At;
    match MessageAt(order, buf, from)
    case End =>
    case More(length, next) =>
      SplitReadsSpans(order, buf, next);
      SlicesCons(buf, (from, length), Spans(order, buf, next));
      SplitMessagesStep(order, buf, from);
  }
}
