// The rtnetlink neighbour-table parser (netra-platform/src/scanners/linux/neighbors.rs) over the
// framing of module Tlv: the ndmsg template of section 3.1.2 of RFC 3549, in native byte order.
// Address formatting and the hardware-address digest are function values.
module Netlink {
  import opened Bytes
  import opened IpAddress
  import opened Observations
  import opened Seqs
  import opened Tlv

  const AF_INET: nat := 2
  const AF_INET6: nat := 10
  const RTM_NEWNEIGH: nat := 28
  const NDA_DST: nat := 1
  const NDA_LLADDR: nat := 2
  const NTF_ROUTER: nat := 0x80

  /** The host: its byte order, the text of an address, and the digest of a hardware address. */
  datatype Host = Host(order: Endian, format: Address -> string, digest: seq<u8> -> string)

  function StateOf(nud: nat): NeighborState {
    match nud
    case 0x02 => Reachable
    case 0x04 => Stale
    case 0x08 => Delay
    case 0x10 => Probe
    case 0x01 => Incomplete
    case 0x20 => Incomplete
    case 0x80 => Permanent
    case 0x40 => Permanent
    case _ => Unknown
  }

  /** `hash_mac_bytes`: nothing but zeros has no pseudonym. */
  function HashMac(host: Host, raw: seq<u8>): string {
    if raw == Zeros(|raw|) then "" else host.digest(raw)
  }

  // ----- One message ------------------------------------------------------------

  predicate Usable(ip: Address) {
    !ip.IsUnspecified() && !ip.IsLoopback()
  }

  /** The address an attribute carries for the family of its message, if it is usable. */
  function AddressIn(family: nat, a: Attribute): Option<Address> {
    if a.kind != NDA_DST then None
    else if family == AF_INET && |a.data| >= 4 && Usable(V4(a.data[..4])) then Some(V4(a.data[..4]))
    else if family == AF_INET6 && |a.data| >= 16 && Usable(V6(a.data[..16])) then Some(V6(a.data[..16]))
    else None
  }

  function MacIn(host: Host, a: Attribute): Option<string> {
    if a.kind == NDA_LLADDR && a.data != [] && HashMac(host, a.data) != "" then Some(HashMac(host, a.data)) else None
  }

  function AddressSays(family: nat): Attribute -> Option<Address> { a => AddressIn(family, a) }
  function MacSays(host: Host): Attribute -> Option<string> { a => MacIn(host, a) }

  function RecordOf(
      host: Host, ndmsg: seq<u8>, address: Option<Address>, mac: Option<string>)
    : (found: seq<NeighborRecord>)
    requires |ndmsg| == 12
    ensures |found| <= 1
  {
    match address
    case None => []
    case Some(ip) =>
      [NeighborRecord(
         host.format(ip),
         mac,
         None,
         U32At(host.order, ndmsg, 4),
         StateOf(U16At(host.order, ndmsg, 8)),
         ip.V6?,
         Classify(ip),
         if BitAnd(ndmsg[10], NTF_ROUTER) != 0 then Some(true) else None)]
  }

  /** The record of one message, from the bytes of that message alone. */
  function ReadMessage(host: Host, msg: seq<u8>): (found: seq<NeighborRecord>)
    ensures |found| <= 1
  {
    if |msg| >= 28 && U16At(host.order, msg, 4) == RTM_NEWNEIGH then
      var attrs := SplitAttributes(host.order, msg, 28, |msg|);
      RecordOf(host, msg[16..28], Latest(attrs, AddressSays(msg[16])), Latest(attrs, MacSays(host)))
    else []
  }

  predicate SameKey(a: NeighborRecord, b: NeighborRecord) {
    a.ipAddress == b.ipAddress && a.interfaceIndex == b.interfaceIndex
  }

  predicate Seen(kept: seq<NeighborRecord>, r: NeighborRecord) {
    exists i :: 0 <= i < |kept| && SameKey(kept[i], r)
  }

  /** A record is kept unless one of the same key came before it. */
  function Keep(kept: seq<NeighborRecord>, found: seq<NeighborRecord>): seq<NeighborRecord>
    requires |found| <= 1
  {
    if found == [] || Seen(kept, found[0]) then kept else kept + found
  }

  function KeepAll(host: Host, msgs: seq<seq<u8>>): seq<NeighborRecord> {
    if msgs == [] then [] else Keep(KeepAll(host, Front(msgs)), ReadMessage(host, Last(msgs)))
  }

  /** The interface name is always absent here, so it never decides. */
  predicate RecordLeq(a: NeighborRecord, b: NeighborRecord) {
    if a.isIpv6 != b.isIpv6 then b.isIpv6
    else if a.ipAddress != b.ipAddress then StringLeq(a.ipAddress, b.ipAddress)
    else a.interfaceIndex <= b.interfaceIndex
  }

  // ----- The parser -------------------------------------------------------------

  /** What the parser makes of any buffer. */
  function Table(host: Host, buf: seq<u8>): seq<NeighborRecord> {
    SortBy(KeepAll(host, SplitMessages(host.order, buf, 0)), RecordLeq)
  }

  /** One attribute further, what has been read so far is extended by what that attribute says. */
  lemma AttributeTaken<T>(
      order: Endian, buf: seq<u8>, done: seq<Attribute>, from: nat, end: nat, says: Attribute -> Option<T>)
    requires end <= |buf| && AttributeAt(order, buf, from, end).More?
    ensures
      var step := AttributeAt(order, buf, from, end);
      var a := step.head;
      && done + SplitAttributes(order, buf, from, end) == (done + [a]) + SplitAttributes(order, buf, step.next, end)
      && Latest(done + [a], says) == if says(a).Some? then says(a) else Latest(done, says)
  {
    hide U16At, U32At;
    var step := AttributeAt(order, buf, from, end);
    SplitAttributesStep(order, buf, from, end);
    Shift(done, step.head, SplitAttributes(order, buf, step.next, end));
    LatestSnoc(done, step.head, says);
  }

  lemma NothingTaken<T>(order: Endian, buf: seq<u8>, from: nat, end: nat, says: Attribute -> Option<T>)
    requires end <= |buf|
    ensures Latest([], says) == None
    ensures [] + SplitAttributes(order, buf, from, end) == SplitAttributes(order, buf, from, end)
  {
  }

  lemma AttributesEnd<T>(
      order: Endian, buf: seq<u8>, done: seq<Attribute>, from: nat, end: nat, says: Attribute -> Option<T>)
    requires end <= |buf| && AttributeAt(order, buf, from, end).End?
    ensures Latest(done + SplitAttributes(order, buf, from, end), says) == Latest(done, says)
  {
    assert done + [] == done;
  }

  /** The attribute loop: offsets into the whole buffer, never past the end of the message. */
  method ParseAttributes<T, U>(
      order: Endian, buf: seq<u8>, start: nat, msgEnd: nat,
      addressIn: Attribute -> Option<T>, macIn: Attribute -> Option<U>)
    returns (address: Option<T>, mac: Option<U>)
    requires start <= msgEnd <= |buf|
    ensures address == Latest(SplitAttributes(order, buf, start, msgEnd), addressIn)
    ensures mac == Latest(SplitAttributes(order, buf, start, msgEnd), macIn)
  {
    hide U16At, U32At;
    hide SplitAttributes, Latest;
    address, mac := None, None;
    var offset := start;
    NothingTaken(order, buf, start, msgEnd, addressIn);
    NothingTaken(order, buf, start, msgEnd, macIn);
    ghost var all, done := SplitAttributes(order, buf, start, msgEnd), [];
    while offset + 4 <= msgEnd
      invariant all == done + SplitAttributes(order, buf, offset, msgEnd)
      invariant address == Latest(done, addressIn) && mac == Latest(done, macIn)
      decreases msgEnd - offset
    {
      var length := U16At(order, buf, offset);
      var kind := U16At(order, buf, offset + 2);
      if length < 4 || offset + length > msgEnd {
        break;
      }
      var a := Attribute(kind, buf[offset + 4..offset + length]);
      AttributeTaken(order, buf, done, offset, msgEnd, addressIn);
      AttributeTaken(order, buf, done, offset, msgEnd, macIn);
      if addressIn(a).Some? {
        address := addressIn(a);
      }
      if macIn(a).Some? {
        mac := macIn(a);
      }
      done := done + [a];
      offset := offset + Align4(length);
    }
    AttributesEnd(order, buf, done, offset, msgEnd, addressIn);
    AttributesEnd(order, buf, done, offset, msgEnd, macIn);
  }

  method ParseMessage(host: Host, buf: seq<u8>, offset: nat, length: nat) returns (found: seq<NeighborRecord>)
    requires 16 <= length && offset + length <= |buf|
    ensures found == ReadMessage(host, buf[offset..offset + length])
  {
    hide U16At, U32At;
    hide SplitAttributes, Latest, Classify, AddressSays, MacSays, RecordOf;
    ghost var msg := buf[offset..offset + length];
    SameU16(host.order, msg, 4, buf, offset + 4);
    if U16At(host.order, buf, offset + 4) == RTM_NEWNEIGH && length >= 28 {
      var address, mac := ParseAttributes(
        host.order, buf, offset + 28, offset + length, AddressSays(buf[offset + 16]), MacSays(host));
      SplitInSlice(host.order, buf, offset, length, 28);
      Slice(buf, offset, offset + length, 16, 28);
      assert buf[offset + 16] == msg[16];
      found := RecordOf(host, buf[offset + 16..offset + 28], address, mac);
    } else {
      found := [];
    }
  }

  lemma KeepAllSnoc(host: Host, done: seq<seq<u8>>, msg: seq<u8>)
    ensures KeepAll(host, done + [msg]) == Keep(KeepAll(host, done), ReadMessage(host, msg))
  {
    Shift(done, msg, []);
  }

  lemma MessageTaken(host: Host, buf: seq<u8>, done: seq<seq<u8>>, from: nat)
    requires MessageAt(host.order, buf, from).More?
    ensures
      var step := MessageAt(host.order, buf, from);
      var msg := buf[from..from + step.head];
      && done + SplitMessages(host.order, buf, from) == (done + [msg]) + SplitMessages(host.order, buf, step.next)
      && KeepAll(host, done + [msg]) == Keep(KeepAll(host, done), ReadMessage(host, msg))
  {
    hide U16At, U32At;
    var step := MessageAt(host.order, buf, from);
    SplitMessagesStep(host.order, buf, from);
    Shift(done, buf[from..from + step.head], SplitMessages(host.order, buf, step.next));
    KeepAllSnoc(host, done, buf[from..from + step.head]);
  }

  lemma NoMessages(host: Host, buf: seq<u8>)
    ensures KeepAll(host, []) == [] && [] + SplitMessages(host.order, buf, 0) == SplitMessages(host.order, buf, 0)
  {
  }

  method ParseNetlinkNeighbors(host: Host, buf: seq<u8>) returns (neighbors: seq<NeighborRecord>)
    ensures neighbors == Table(host, buf)
  {
    hide U16At, U32At;
    hide SplitMessages, KeepAll, ReadMessage, SortBy;
    neighbors := [];
    var offset := 0;
    NoMessages(host, buf);
    ghost var all, done := SplitMessages(host.order, buf, 0), [];
    while offset + 16 <= |buf|
      invariant all == done + SplitMessages(host.order, buf, offset)
      invariant neighbors == KeepAll(host, done)
      decreases |buf| - offset
    {
      var length := U32At(host.order, buf, offset);
      if length < 16 || offset + length > |buf| {
        break;
      }
      if U16At(host.order, buf, offset + 4) == NLMSG_DONE {
        break;
      }
      var found := ParseMessage(host, buf, offset, length);
      MessageTaken(host, buf, done, offset);
      neighbors := Keep(neighbors, found);
      done := done + [buf[offset..offset + length]];
      offset := offset + Align4(length);
    }
    SplitMessagesStep(host.order, buf, offset);
    assert all == done;
    neighbors := SortBy(neighbors, RecordLeq);
  }

  // ----- The encoding it reads ----------------------------------------------------

  /** A neighbour message as the kernel builds it; `meta` is the rest of the message header. */
  datatype Neighbor = Neighbor(
    meta: seq<u8>, family: u8, pad: seq<u8>, ifindex: nat, nud: nat, flags: u8, kind: u8, attrs: seq<Attribute>)
  {
    ghost predicate Fits(order: Endian) {
      && |meta| == 10 && |pad| == 3 && ifindex < 0x1_0000_0000 && nud < 0x1_0000
      && (forall i :: 0 <= i < |attrs| ==> attrs[i].Fits())
      && |EncodeAttributes(order, attrs)| + 28 < 0x1_0000_0000
    }
  }

  function EncodeNdmsg(order: Endian, n: Neighbor): (r: seq<u8>)
    requires |n.pad| == 3 && n.ifindex < 0x1_0000_0000 && n.nud < 0x1_0000
    ensures |r| == 12
  {
    [n.family] + n.pad + PutU32(order, n.ifindex) + PutU16(order, n.nud) + [n.flags, n.kind]
  }

  ghost function EncodeNeighbor(order: Endian, n: Neighbor): seq<u8>
    requires n.Fits(order)
  {
    PutU32(order, |EncodeAttributes(order, n.attrs)| + 28) + PutU16(order, 28) + n.meta
      + EncodeNdmsg(order, n) + EncodeAttributes(order, n.attrs)
  }

  /** The number that two or four bytes stand for, in either order. */
  function Number(order: Endian, b: seq<u8>): nat
    requires |b| == 2 || |b| == 4
  {
    var first, last := b[0] as int, Last(b) as int;
    if |b| == 2 then (if order.Little? then first + last * 0x100 else first * 0x100 + last)
    else
      var second, third := b[1] as int, b[2] as int;
      if order.Little? then first + second * 0x100 + third * 0x1_0000 + last * 0x100_0000
      else first * 0x100_0000 + second * 0x1_0000 + third * 0x100 + last
  }

  lemma TwoBytes(order: Endian, n: nat)
    requires n < 0x1_0000
    ensures Number(order, PutU16(order, n)) == n
  {
  }

  lemma FourBytes(order: Endian, n: nat)
    requires n < 0x1_0000_0000
    ensures Number(order, PutU32(order, n)) == n
  {
    var b := PutU32(order, n);
    var high, low := PutU16(order, n / 0x1_0000), PutU16(order, n % 0x1_0000);
    TwoBytes(order, n / 0x1_0000);
    TwoBytes(order, n % 0x1_0000);
    hide PutU16;
    assert order.Little? ==> b[0] == low[0] && b[1] == low[1] && b[2] == high[0] && b[3] == high[1];
    assert order.Big? ==> b[0] == high[0] && b[1] == high[1] && b[2] == low[0] && b[3] == low[1];
  }

  /** Seven runs of bytes, and where they end up. */
  lemma Runs(a: seq<u8>, b: seq<u8>, c: seq<u8>, d: seq<u8>, e: seq<u8>, f: seq<u8>, g: seq<u8>)
    requires |a| == 4 && |b| == 2 && |c| == 10 && |d| == 4 && |e| == 4 && |f| == 2 && |g| == 2
    ensures
      var all := a + b + c + (d + e + f + g);
      && |all| == 28 && all[0..4] == a && all[4..6] == b && all[6..16] == c && all[16..20] == d
      && all[20..24] == e && all[24..26] == f && all[26..28] == g
  {
  }

  lemma InFront(head: seq<u8>, attrs: seq<u8>)
    requires |head| == 28
    ensures var all := head + attrs;
      && all[0..4] == head[0..4] && all[4..6] == head[4..6] && all[6..16] == head[6..16] && all[16] == head[16]
      && all[20..24] == head[20..24] && all[24..26] == head[24..26] && all[26] == head[26] && all[28..] == attrs
  {
  }

  lemma PlacesOf(
      a: seq<u8>, b: seq<u8>, c: seq<u8>, d: seq<u8>, e: seq<u8>, f: seq<u8>, g: seq<u8>, attrs: seq<u8>)
    requires |a| == 4 && |b| == 2 && |c| == 10 && |d| == 4 && |e| == 4 && |f| == 2 && |g| == 2
    ensures
      var all := (a + b + c + (d + e + f + g)) + attrs;
      && |all| == 28 + |attrs| && all[0..4] == a && all[4..6] == b && all[6..16] == c && all[16] == d[0]
      && all[20..24] == e && all[24..26] == f && all[26] == g[0] && all[28..] == attrs
  {
    Runs(a, b, c, d, e, f, g);
    var head := a + b + c + (d + e + f + g);
    InFront(head, attrs);
    assert head[16] == head[16..20][0] && head[26] == head[26..28][0];
  }

  lemma HeadOfEncoded(order: Endian, n: Neighbor)
    requires n.Fits(order)
    ensures
      var attrs := EncodeAttributes(order, n.attrs);
      EncodeNeighbor(order, n) ==
        (PutU32(order, |attrs| + 28) + PutU16(order, 28) + n.meta
          + ([n.family] + n.pad + PutU32(order, n.ifindex) + PutU16(order, n.nud) + [n.flags, n.kind])) + attrs
  {
    hide PutU16, PutU32, EncodeAttributes;
  }

  /** The bytes of an encoded message, place by place, as section 2.3.2 and section 3.1.2 of RFC 3549 lay them out. */
  lemma EncodedInBytes(order: Endian, n: Neighbor)
    requires n.Fits(order)
    ensures
      var b := EncodeNeighbor(order, n);
      && |b| >= 28 && Number(order, b[0..4]) == |b| && Number(order, b[4..6]) == 28 && b[6..16] == n.meta
      && b[16] == n.family && Number(order, b[20..24]) == n.ifindex && Number(order, b[24..26]) == n.nud
      && b[26] == n.flags && b[28..] == EncodeAttributes(order, n.attrs)
  {
    var attrs := EncodeAttributes(order, n.attrs);
    var length, kind := PutU32(order, |attrs| + 28), PutU16(order, 28);
    var index, nud := PutU32(order, n.ifindex), PutU16(order, n.nud);
    var first, last := [n.family] + n.pad, [n.flags, n.kind];
    FourBytes(order, |attrs| + 28);
    TwoBytes(order, 28);
    FourBytes(order, n.ifindex);
    TwoBytes(order, n.nud);
    HeadOfEncoded(order, n);
    PlacesOf(length, kind, n.meta, first, index, nud, last, attrs);
    hide PutU16, PutU32, Number, EncodeAttributes, EncodeNeighbor;
  }

  /** The bytes of an encoded attribute: length with header, kind, data, and zeros up to a multiple of four. */
  lemma AttributeInBytes(order: Endian, a: Attribute)
    requires a.Fits()
    ensures
      var b, n := EncodeAttribute(order, a), 4 + |a.data|;
      && Number(order, b[0..2]) == n && Number(order, b[2..4]) == a.kind && b[4..n] == a.data
      && |b| % 4 == 0 && n <= |b| < n + 4 && forall i :: n <= i < |b| ==> b[i] == 0
  {
    var length, kind := PutU16(order, |a.data| + 4), PutU16(order, a.kind);
    TwoBytes(order, |a.data| + 4);
    TwoBytes(order, a.kind);
    hide PutU16, Number;
    var b := EncodeAttribute(order, a);
    assert b[0..2] == length && b[2..4] == kind;
  }

  /** What a neighbour message means: a record exactly if it carries a usable address. */
  function Meaning(host: Host, n: Neighbor): seq<NeighborRecord> {
    match Latest(n.attrs, AddressSays(n.family))
    case None => []
    case Some(ip) =>
      [NeighborRecord(
         host.format(ip),
         Latest(n.attrs, MacSays(host)),
         None,
         n.ifindex,
         StateOf(n.nud),
         ip.V6?,
         Classify(ip),
         if BitAnd(n.flags, NTF_ROUTER) != 0 then Some(true) else None)]
  }

  lemma NdmsgParts(order: Endian, n: Neighbor)
    requires |n.pad| == 3 && n.ifindex < 0x1_0000_0000 && n.nud < 0x1_0000
    ensures
      var b := EncodeNdmsg(order, n);
      b[0] == n.family && U32At(order, b, 4) == n.ifindex && U16At(order, b, 8) == n.nud && b[10] == n.flags
  {
    hide U16At, U32At;
    var b, index, nud := EncodeNdmsg(order, n), PutU32(order, n.ifindex), PutU16(order, n.nud);
    assert b == [n.family] + n.pad + index + nud + [n.flags, n.kind];
    assert b[4..8] == index && b[8..10] == nud;
    ReadPut32(order, n.ifindex, b, 4);
    ReadPut16(order, n.nud, b, 8);
  }

  /** The five parts of a neighbour message, by position. */
  lemma Layout(length: seq<u8>, kind: seq<u8>, meta: seq<u8>, ndmsg: seq<u8>, attrs: seq<u8>)
    requires |length| == 4 && |kind| == 2 && |meta| == 10 && |ndmsg| == 12
    ensures
      var b := length + kind + meta + ndmsg + attrs;
      && |b| == 28 + |attrs| && b[0..4] == length && b[4..6] == kind && b[16..28] == ndmsg && b == b[..28] + attrs
  {
  }

  lemma NeighborParts(order: Endian, n: Neighbor)
    requires n.Fits(order)
    ensures
      var b := EncodeNeighbor(order, n);
      && IsMessage(order, b) && TypeOf(order, b) == 28
      && |b| >= 28 && b[16..28] == EncodeNdmsg(order, n)
      && b == b[..28] + EncodeAttributes(order, n.attrs)
  {
    hide U16At, U32At, PutU16, PutU32, EncodeNdmsg, EncodeAttributes;
    var attrs := EncodeAttributes(order, n.attrs);
    Layout(PutU32(order, |attrs| + 28), PutU16(order, 28), n.meta, EncodeNdmsg(order, n), attrs);
    var b := EncodeNeighbor(order, n);
    ReadPut32(order, |attrs| + 28, b, 0);
    ReadPut16(order, 28, b, 4);
  }

  /** One encoded message is read as what it means. */
  lemma ReadEncoded(host: Host, n: Neighbor)
    requires n.Fits(host.order)
    ensures ReadMessage(host, EncodeNeighbor(host.order, n)) == Meaning(host, n)
  {
    hide U16At, U32At;
    var b := EncodeNeighbor(host.order, n);
    NeighborParts(host.order, n);
    NdmsgParts(host.order, n);
    assert b[16] == b[16..28][0];
    SplitEncoded(host.order, b[..28], n.attrs);
  }

  // ----- What a message says, on bytes ----------------------------------------------------

  /**
   * An attribute of kind 1 with the address of the family: for family 2 four bytes, not 0.0.0.0 and not
   * beginning with 127; for family 10 sixteen bytes, neither :: nor ::1. Bytes beyond these are ignored.
   */
  predicate Carries(family: u8, a: Attribute) {
    && a.kind == 1
    && ((family == 2 && |a.data| >= 4 && a.data[0] != 127 && exists k :: 0 <= k < 4 && a.data[k] != 0)
        || (family == 10 && |a.data| >= 16 && (a.data[15] > 1 || exists k :: 0 <= k < 15 && a.data[k] != 0)))
  }

  /** An attribute of kind 2 with a hardware address: some byte is not zero. */
  predicate CarriesMac(host: Host, a: Attribute) {
    a.kind == 2 && (exists k :: 0 <= k < |a.data| && a.data[k] != 0) && host.digest(a.data) != ""
  }

  predicate LastCarrier(n: Neighbor, i: nat) {
    i < |n.attrs| && Carries(n.family, n.attrs[i])
      && forall j :: i < j < |n.attrs| ==> !Carries(n.family, n.attrs[j])
  }

  predicate LastMac(host: Host, n: Neighbor, i: nat) {
    i < |n.attrs| && CarriesMac(host, n.attrs[i]) && forall j :: i < j < |n.attrs| ==> !CarriesMac(host, n.attrs[j])
  }

  lemma CarriesExactly(family: u8, a: Attribute)
    ensures AddressIn(family, a).Some? <==> Carries(family, a)
    ensures Carries(family, a) ==>
      AddressIn(family, a) == Some(if family == 2 then V4(a.data[..4]) else V6(a.data[..16]))
  {
    if family == 2 && |a.data| >= 4 {
      var d := a.data[..4];
      assert forall k :: 0 <= k < 4 ==> d[k] == a.data[k];
      assert d == Zeros(4) <==> forall k :: 0 <= k < 4 ==> a.data[k] == 0;
    }
    if family == 10 && |a.data| >= 16 {
      var d := a.data[..16];
      assert forall k :: 0 <= k < 16 ==> d[k] == a.data[k];
      assert d == Zeros(16) <==> a.data[15] == 0 && forall k :: 0 <= k < 15 ==> a.data[k] == 0;
      assert d == Zeros(15) + [1] <==> a.data[15] == 1 && forall k :: 0 <= k < 15 ==> a.data[k] == 0;
    }
  }

  lemma CarriesMacExactly(host: Host, a: Attribute)
    ensures MacIn(host, a) == if CarriesMac(host, a) then Some(host.digest(a.data)) else None
  {
    assert a.data == Zeros(|a.data|) <==> forall k :: 0 <= k < |a.data| ==> a.data[k] == 0;
  }

  lemma RouterBit(flags: u8)
    ensures BitAnd(flags, NTF_ROUTER) != 0 <==> flags >= 128
  {
    BitOfByte(flags);
  }

  /** The state of a neighbour by number. */
  predicate StateIs(nud: nat, state: NeighborState) {
    match state
    case Incomplete => nud == 1 || nud == 32
    case Reachable => nud == 2
    case Stale => nud == 4
    case Delay => nud == 8
    case Probe => nud == 16
    case Permanent => nud == 64 || nud == 128
    case Unknown => nud !in {1, 2, 4, 8, 16, 32, 64, 128}
  }

  /** A record with the address of an attribute and the numbers of its message. */
  predicate Reads(host: Host, n: Neighbor, a: Attribute, r: NeighborRecord)
    requires Carries(n.family, a)
  {
    var ip: Address := if n.family == 2 then V4(a.data[..4]) else V6(a.data[..16]);
    && r.ipAddress == host.format(ip) && r.isIpv6 == (n.family == 10) && r.classification == Classify(ip)
    && r.interfaceName == None && r.interfaceIndex == n.ifindex && StateIs(n.nud, r.state)
    && r.isRouter == if n.flags >= 128 then Some(true) else None
  }

  lemma MeaningReads(host: Host, n: Neighbor, i: nat)
    requires LastCarrier(n, i)
    ensures |Meaning(host, n)| == 1 && Reads(host, n, n.attrs[i], Meaning(host, n)[0])
  {
    RouterBit(n.flags);
    CarriesExactly(n.family, n.attrs[i]);
    forall j | i < j < |n.attrs| ensures AddressSays(n.family)(n.attrs[j]).None? {
      CarriesExactly(n.family, n.attrs[j]);
    }
    LatestAt(n.attrs, AddressSays(n.family), i);
    hide Carries, Classify, BitAnd, AddressIn, MacIn, Latest;
  }

  lemma MeaningNone(host: Host, n: Neighbor)
    ensures Meaning(host, n) != [] <==> exists k :: 0 <= k < |n.attrs| && Carries(n.family, n.attrs[k])
  {
    forall a ensures AddressSays(n.family)(a).Some? <==> Carries(n.family, a) {
      CarriesExactly(n.family, a);
    }
    LatestIsSaid(n.attrs, AddressSays(n.family));
    hide Carries, Classify, BitAnd, AddressIn, MacIn, Latest;
    if k :| 0 <= k < |n.attrs| && Carries(n.family, n.attrs[k]) {
      assert n.attrs[k] in n.attrs;
    }
  }

  lemma MeaningMac(host: Host, n: Neighbor)
    requires Meaning(host, n) != []
    ensures
      var mac := Meaning(host, n)[0].macHash;
      && (forall k: nat :: LastMac(host, n, k) ==> mac == Some(host.digest(n.attrs[k].data)))
      && ((forall k :: 0 <= k < |n.attrs| ==> !CarriesMac(host, n.attrs[k])) ==> mac == None)
  {
    forall a ensures MacSays(host)(a) == if CarriesMac(host, a) then Some(host.digest(a.data)) else None {
      CarriesMacExactly(host, a);
    }
    LatestIsSaid(n.attrs, MacSays(host));
    hide CarriesMac, Classify, BitAnd, AddressIn, MacIn, Latest;
    forall k: nat | LastMac(host, n, k)
      ensures Latest(n.attrs, MacSays(host)) == Some(host.digest(n.attrs[k].data))
    {
      LatestAt(n.attrs, MacSays(host), k);
    }
  }

  /**
   * What is read of an encoded message: a record exactly if some attribute carries an address, with the
   * address of the last one that does, the hardware address of the last one that carries one, and the
   * numbers of the message.
   */
  lemma ReadExactly(host: Host, n: Neighbor)
    requires n.Fits(host.order)
    ensures
      var found := ReadMessage(host, EncodeNeighbor(host.order, n));
      && (found != [] <==> exists k :: 0 <= k < |n.attrs| && Carries(n.family, n.attrs[k]))
      && (forall i: nat :: LastCarrier(n, i) ==> |found| == 1 && Reads(host, n, n.attrs[i], found[0]))
      && (found != [] ==>
           && (forall k: nat :: LastMac(host, n, k) ==> found[0].macHash == Some(host.digest(n.attrs[k].data)))
           && ((forall k :: 0 <= k < |n.attrs| ==> !CarriesMac(host, n.attrs[k])) ==> found[0].macHash == None))
  {
    ReadEncoded(host, n);
    MeaningNone(host, n);
    hide ReadMessage, EncodeNeighbor, Carries, CarriesMac, Meaning, Reads;
    forall i: nat | LastCarrier(n, i)
      ensures |Meaning(host, n)| == 1 && Reads(host, n, n.attrs[i], Meaning(host, n)[0])
    {
      MeaningReads(host, n, i);
    }
    if Meaning(host, n) != [] {
      MeaningMac(host, n);
    }
  }

  // ----- The table of an encoded dump ---------------------------------------------

  /** A message of a dump: a neighbour, or one the parser has to pass over. */
  datatype Item = Known(neighbor: Neighbor) | Foreign(msg: seq<u8>) {
    ghost predicate Fits(order: Endian) {
      match this
      case Known(n) => n.Fits(order)
      case Foreign(msg) =>
        IsMessage(order, msg) && TypeOf(order, msg) != 3 && (TypeOf(order, msg) != 28 || |msg| < 28)
    }

    ghost function Bytes(order: Endian): seq<u8>
      requires Fits(order)
    {
      if Known? then EncodeNeighbor(order, neighbor) else msg
    }

    function Says(host: Host): (found: seq<NeighborRecord>)
      ensures |found| <= 1
    {
      if Known? then Meaning(host, neighbor) else []
    }
  }

  ghost predicate AllFit(order: Endian, items: seq<Item>) {
    forall i :: 0 <= i < |items| ==> items[i].Fits(order)
  }

  ghost function Dump(order: Endian, items: seq<Item>): (msgs: seq<seq<u8>>)
    requires AllFit(order, items)
    ensures |msgs| == |items| && forall i :: 0 <= i < |items| ==> msgs[i] == items[i].Bytes(order)
  {
    seq(|items|, i requires 0 <= i < |items| => items[i].Bytes(order))
  }

  function ItemSays(host: Host): Item -> seq<NeighborRecord> { (item: Item) => item.Says(host) }

  /** Every record of the dump, in order and with repetitions. */
  function Records(host: Host, items: seq<Item>): seq<NeighborRecord> {
    FlatMap(items, ItemSays(host))
  }

  /** Keeps the first record of each key. */
  function Dedup(records: seq<NeighborRecord>): seq<NeighborRecord> {
    if records == [] then [] else Keep(Dedup(Front(records)), [Last(records)])
  }

  lemma DedupAppend(records: seq<NeighborRecord>, found: seq<NeighborRecord>)
    requires |found| <= 1
    ensures Dedup(records + found) == Keep(Dedup(records), found)
  {
    if found == [] {
      assert records + found == records;
    } else {
      assert Front(records + found) == records && found == [Last(records + found)];
    }
  }

  lemma ItemIsRead(host: Host, item: Item)
    requires item.Fits(host.order)
    ensures IsMessage(host.order, item.Bytes(host.order)) && TypeOf(host.order, item.Bytes(host.order)) != 3
    ensures ReadMessage(host, item.Bytes(host.order)) == item.Says(host)
  {
    hide U16At, U32At;
    if item.Known? {
      NeighborParts(host.order, item.neighbor);
      ReadEncoded(host, item.neighbor);
    }
  }

  lemma {:induction false} KeepAllDedups(host: Host, items: seq<Item>)
    requires AllFit(host.order, items)
    ensures KeepAll(host, Dump(host.order, items)) == Dedup(Records(host, items))
  {
    if items != [] {
      var item, front := Last(items), Front(items);
      ItemIsRead(host, item);
      assert Front(Dump(host.order, items)) == Dump(host.order, front);
      KeepAllDedups(host, front);
      DedupAppend(Records(host, front), item.Says(host));
    }
  }

  /** The dump a host receives: its messages, a DONE message, and whatever is left in the buffer. */
  ghost function Received(order: Endian, items: seq<Item>, done: seq<u8>, trailing: seq<u8>): seq<u8>
    requires AllFit(order, items)
  {
    Aligned(Dump(order, items)) + (done + trailing)
  }

  lemma TableIsDedup(host: Host, items: seq<Item>, done: seq<u8>, trailing: seq<u8>)
    requires AllFit(host.order, items)
    requires IsMessage(host.order, done) && TypeOf(host.order, done) == 3
    ensures Table(host, Received(host.order, items, done, trailing)) == SortBy(Dedup(Records(host, items)), RecordLeq)
  {
    forall i | 0 <= i < |items|
      ensures var m := Dump(host.order, items)[i]; IsMessage(host.order, m) && TypeOf(host.order, m) != 3
    {
      ItemIsRead(host, items[i]);
    }
    SplitAligned(host.order, Dump(host.order, items), done, trailing);
    KeepAllDedups(host, items);
  }

  // ----- What the table contains ----------------------------------------------------

  ghost predicate DistinctKeys(records: seq<NeighborRecord>) {
    forall i, j :: 0 <= i < j < |records| ==> !SameKey(records[i], records[j])
  }

  /** The record at a position is the first one of its key. */
  ghost predicate FirstOfKey(records: seq<NeighborRecord>, i: nat) {
    i < |records| && forall j :: 0 <= j < i ==>
      records[j].ipAddress != records[i].ipAddress || records[j].interfaceIndex != records[i].interfaceIndex
  }

  ghost predicate IsFirst(records: seq<NeighborRecord>, r: NeighborRecord) {
    exists i: nat :: FirstOfKey(records, i) && records[i] == r
  }

  lemma SeenSnoc(kept: seq<NeighborRecord>, last: NeighborRecord, r: NeighborRecord)
    ensures Seen(kept + [last], r) <==> Seen(kept, r) || SameKey(last, r)
  {
    var all := kept + [last];
    if Seen(kept, r) {
      var i :| 0 <= i < |kept| && SameKey(kept[i], r);
      assert SameKey(all[i], r);
    }
    if SameKey(last, r) {
      assert SameKey(all[|kept|], r);
    }
  }

  lemma {:induction false} DedupSees(records: seq<NeighborRecord>, r: NeighborRecord)
    ensures Seen(Dedup(records), r) <==> Seen(records, r)
  {
    if records != [] {
      var front, last := Front(records), Last(records);
      assert records == front + [last];
      DedupSees(front, r);
      DedupSees(front, last);
      SeenSnoc(front, last, r);
      SeenSnoc(Dedup(front), last, r);
      if Seen(Dedup(front), last) && SameKey(last, r) {
        var i :| 0 <= i < |Dedup(front)| && SameKey(Dedup(front)[i], last);
        assert SameKey(Dedup(front)[i], r);
      }
    }
  }

  lemma {:induction false} DedupDistinct(records: seq<NeighborRecord>)
    ensures DistinctKeys(Dedup(records))
  {
    if records != [] {
      DedupDistinct(Front(records));
    }
  }

  lemma FirstInFront(front: seq<NeighborRecord>, last: NeighborRecord, i: nat)
    requires i < |front|
    ensures FirstOfKey(front + [last], i) <==> FirstOfKey(front, i)
  {
    var all := front + [last];
    assert forall j :: 0 <= j <= i ==> all[j] == front[j];
  }

  lemma FirstAtEnd(front: seq<NeighborRecord>, last: NeighborRecord)
    ensures FirstOfKey(front + [last], |front|) <==> !Seen(front, last)
  {
    var all := front + [last];
    assert forall j :: 0 <= j < |front| ==> all[j] == front[j];
  }

  lemma FirstSnoc(front: seq<NeighborRecord>, last: NeighborRecord, r: NeighborRecord)
    ensures IsFirst(front + [last], r) <==> IsFirst(front, r) || (r == last && !Seen(front, last))
  {
    var all := front + [last];
    FirstAtEnd(front, last);
    if IsFirst(front, r) {
      var i: nat :| FirstOfKey(front, i) && front[i] == r;
      FirstInFront(front, last, i);
      assert all[i] == r;
    }
    if r == last && !Seen(front, last) {
      assert all[|front|] == r;
    }
    if IsFirst(all, r) {
      var i: nat :| FirstOfKey(all, i) && all[i] == r;
      if i < |front| {
        FirstInFront(front, last, i);
        assert front[i] == r;
      }
    }
  }

  lemma {:induction false} DedupMembers(records: seq<NeighborRecord>, r: NeighborRecord)
    ensures r in Dedup(records) <==> IsFirst(records, r)
  {
    if records != [] {
      var front, last := Front(records), Last(records);
      assert records == front + [last];
      DedupMembers(front, r);
      DedupSees(front, last);
      FirstSnoc(front, last, r);
    }
  }

  lemma RecordOrder()
    ensures TotalPreorder(RecordLeq)
    ensures forall a, b :: RecordLeq(a, b) && RecordLeq(b, a) ==> SameKey(a, b)
  {
    StringOrder();
  }

  /** IPv4 comes before IPv6, then the smaller address text, then the smaller interface index. */
  predicate Before(a: NeighborRecord, b: NeighborRecord) {
    || (!a.isIpv6 && b.isIpv6)
    || (a.isIpv6 == b.isIpv6 && a.ipAddress != b.ipAddress && StringLeq(a.ipAddress, b.ipAddress))
    || (a.isIpv6 == b.isIpv6 && a.ipAddress == b.ipAddress && a.interfaceIndex < b.interfaceIndex)
  }

  ghost predicate StrictlySorted(records: seq<NeighborRecord>) {
    forall i, j :: 0 <= i < j < |records| ==> Before(records[i], records[j])
  }

  lemma KeysStayDistinct(a: seq<NeighborRecord>, b: seq<NeighborRecord>)
    requires DistinctKeys(a) && multiset(a) == multiset(b)
    ensures DistinctKeys(b)
  {
    DistinctPermutation(a, b);
    forall i, j | 0 <= i < j < |b| ensures !SameKey(b[i], b[j]) {
      assert b[i] in multiset(a) && b[j] in multiset(a);
      var p :| 0 <= p < |a| && a[p] == b[i];
      var q :| 0 <= q < |a| && a[q] == b[j];
      assert p < q || q < p;
    }
  }

  lemma SortedDedup(records: seq<NeighborRecord>)
    ensures var t := SortBy(Dedup(records), RecordLeq);
      StrictlySorted(t) && multiset(t) == multiset(Dedup(records))
  {
    DedupDistinct(records);
    RecordOrder();
    SortBySorts(Dedup(records), RecordLeq);
    KeysStayDistinct(Dedup(records), SortBy(Dedup(records), RecordLeq));
  }

  /**
   * The neighbour table of a received dump: exactly the records of usable addresses, the first of
   * each (address, interface index) kept, strictly sorted by key.
   */
  lemma TableOfDump(host: Host, items: seq<Item>, done: seq<u8>, trailing: seq<u8>)
    requires AllFit(host.order, items)
    requires IsMessage(host.order, done) && TypeOf(host.order, done) == 3
    ensures
      var table := Table(host, Received(host.order, items, done, trailing));
      var records := Records(host, items);
      && StrictlySorted(table)
      && (forall r :: r in table <==> IsFirst(records, r))
  {
    TableIsDedup(host, items, done, trailing);
    var records := Records(host, items);
    SortedDedup(records);
    var table := SortBy(Dedup(records), RecordLeq);
    forall r ensures r in table <==> IsFirst(records, r) {
      DedupMembers(records, r);
      assert r in multiset(table) <==> r in multiset(Dedup(records));
    }
  }

  lemma DistinctLast(records: seq<NeighborRecord>)
    requires records != [] && DistinctKeys(records)
    ensures DistinctKeys(Front(records)) && !Seen(Front(records), Last(records))
  {
    var n := |records| - 1;
    forall i | 0 <= i < n ensures !SameKey(Front(records)[i], records[n]) {
      assert Front(records)[i] == records[i];
    }
  }

  lemma {:induction false} DedupOfDistinct(records: seq<NeighborRecord>)
    requires DistinctKeys(records)
    ensures Dedup(records) == records
  {
    if records != [] {
      DedupOfDistinct(Front(records));
      DistinctLast(records);
      FrontLast(records);
    }
  }

  /** Without two records of one key, neither the order of the messages nor the trailing bytes matter. */
  lemma MessageOrderIrrelevant(
      host: Host, a: seq<Item>, b: seq<Item>, done: seq<u8>, trailingA: seq<u8>, trailingB: seq<u8>)
    requires AllFit(host.order, a) && AllFit(host.order, b) && multiset(a) == multiset(b)
    requires IsMessage(host.order, done) && TypeOf(host.order, done) == 3
    requires DistinctKeys(Records(host, a))
    ensures Table(host, Received(host.order, a, done, trailingA))
      == Table(host, Received(host.order, b, done, trailingB))
  {
    TableIsDedup(host, a, done, trailingA);
    TableIsDedup(host, b, done, trailingB);
    var ra, rb := Records(host, a), Records(host, b);
    FlatMapPermutation(a, b, ItemSays(host));
    KeysStayDistinct(ra, rb);
    DedupOfDistinct(ra);
    DedupOfDistinct(rb);
    RecordOrder();
    SortByPermutation(ra, rb, RecordLeq);
  }
}
