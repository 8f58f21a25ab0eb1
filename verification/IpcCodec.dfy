// Length-prefixed framing of the local IPC channel (netra-core/src/ipc/codec.rs).
// JSON is a pair of function values; a round trip of it is a hypothesis where needed.
module IpcCodec {
  import opened Bytes
  import opened Seqs

  const MAX_IPC_FRAME_SIZE: nat := 1024 * 1024

  datatype Json<!E> = Json(serialize: E -> seq<u8>, parse: seq<u8> -> Option<E>)

  datatype Error = FrameTooLarge(size: nat) | MalformedPayload

  /** What one call of the decoder answers; `Waiting` is the source's `Ok(None)`. */
  datatype Outcome<E> = Waiting | Item(envelope: E) | Failed(error: Error)

  // ----- One step -------------------------------------------------------------

  function DecodeStep<E>(json: Json<E>, limit: nat, buf: seq<u8>): (r: (Outcome<E>, seq<u8>))
    ensures r.0.Item? ==> |r.1| + 4 <= |buf|
    ensures r.0.Waiting? ==> r.1 == buf
  {
    if |buf| < 4 then (Waiting, buf)
    else
      var length := GetU32(Big, buf[..4]);
      if length > limit then (Failed(FrameTooLarge(length)), buf)
      else if |buf| < 4 + length then (Waiting, buf)
      else
        match json.parse(buf[4..4 + length])
        case Some(e) => (Item(e), buf[4 + length..])
        case None => (Failed(MalformedPayload), buf[4 + length..])
  }

  /** The bytes of one accepted envelope. The length is cast to 32 bits, as the source casts it. */
  function Frame<E>(json: Json<E>, e: E): seq<u8> {
    PutU32(Big, |json.serialize(e)| % 0x1_0000_0000) + json.serialize(e)
  }

  ghost predicate StartsWithFrame(buf: seq<u8>, limit: nat, payload: seq<u8>, rest: seq<u8>) {
    |payload| <= limit && |payload| < TWO_32 && buf == PutU32(Big, |payload|) + payload + rest
  }

  /**
   * A step answers for the one frame its buffer starts with: it consumes exactly that frame, also
   * when the payload does not parse. An announced length above the limit consumes nothing.
   */
  lemma StepMeaning<E>(json: Json<E>, limit: nat, buf: seq<u8>, payload: seq<u8>, rest: seq<u8>)
    ensures StartsWithFrame(buf, limit, payload, rest) ==>
      DecodeStep(json, limit, buf) ==
        (if json.parse(payload).Some? then Item(json.parse(payload).value) else Failed(MalformedPayload), rest)
    ensures
      var (outcome, left) := DecodeStep(json, limit, buf);
      && (outcome.Waiting? || outcome == Failed(FrameTooLarge(GetU32(Big, buf[..4])))
          || exists p :: StartsWithFrame(buf, limit, p, left))
      && (outcome.Failed? && outcome.error.FrameTooLarge? ==> outcome.error.size > limit && left == buf)
  {
    if StartsWithFrame(buf, limit, payload, rest) {
      assert buf[..4] == PutU32(Big, |payload|);
      assert buf[4..4 + |payload|] == payload;
      assert buf[4 + |payload|..] == rest;
    }
    if |buf| >= 4 {
      var length := GetU32(Big, buf[..4]);
      if length <= limit && 4 + length <= |buf| {
        U32Inverse(Big, buf[..4]);
        assert buf == buf[..4] + buf[4..4 + length] + buf[4 + length..];
        assert StartsWithFrame(buf, limit, buf[4..4 + length], buf[4 + length..]);
      }
    }
  }

  /** A step on plain bytes: four bytes announce the length, the most significant one first. */
  lemma StepOnBytes<E>(json: Json<E>, limit: nat, buf: seq<u8>)
    ensures |buf| < 4 ==> DecodeStep(json, limit, buf) == (Waiting, buf)
    ensures |buf| >= 4 ==>
      var (outcome, left) := DecodeStep(json, limit, buf);
      var n: int := buf[0] as int * 0x100_0000 + buf[1] as int * 0x1_0000 + buf[2] as int * 256 + buf[3] as int;
      if n > limit then outcome == Failed(FrameTooLarge(n)) && left == buf
      else if |buf| < 4 + n then outcome == Waiting && left == buf
      else
        && left == buf[4 + n..]
        && match json.parse(buf[4..4 + n])
           case Some(envelope) => outcome == Item(envelope)
           case None => outcome == Failed(MalformedPayload)
  {
    if |buf| >= 4 {
      GetBigEndian(buf[..4]);
    }
    hide GetU32;
  }

  /** A frame on plain bytes: the length modulo 2^32 in four bytes, then the payload. */
  lemma FrameOnBytes<E>(json: Json<E>, e: E)
    ensures
      var payload := json.serialize(e);
      var n := |payload| % 0x1_0000_0000;
      Frame(json, e) == [n / 0x100_0000, n / 0x1_0000 % 256, n / 256 % 256, n % 256] + payload
  {
    PutBigEndian(|json.serialize(e)| % 0x1_0000_0000);
    hide PutU32;
  }

  class BytesMut {
    var data: seq<u8>

    constructor ()
      ensures data == []
    {
      data := [];
    }

    method Advance(n: nat)
      requires n <= |data|
      modifies this
      ensures data == old(data)[n..]
    {
      data := data[n..];
    }

    method SplitTo(n: nat) returns (head: seq<u8>)
      requires n <= |data|
      modifies this
      ensures head == old(data)[..n] && data == old(data)[n..]
    {
      head, data := data[..n], data[n..];
    }

    method PutSlice(bytes: seq<u8>)
      modifies this
      ensures data == old(data) + bytes
    {
      data := data + bytes;
    }
  }

  class Codec<!E> {
    const json: Json<E>
    const maxFrameSize: nat

    constructor (json: Json<E>)
      ensures this.json == json && maxFrameSize == 1_048_576
    {
      this.json := json;
      maxFrameSize := MAX_IPC_FRAME_SIZE;
    }

    constructor WithMaxFrameSize(json: Json<E>, maxFrameSize: nat)
      ensures this.json == json && this.maxFrameSize == maxFrameSize
    {
      this.json := json;
      this.maxFrameSize := maxFrameSize;
    }

    method Decode(src: BytesMut) returns (outcome: Outcome<E>)
      modifies src
      ensures (outcome, src.data) == DecodeStep(json, maxFrameSize, old(src.data))
    {
      if |src.data| < 4 {
        return Waiting;
      }
      var length := GetU32(Big, src.data[..4]);
      if length > maxFrameSize {
        return Failed(FrameTooLarge(length));
      }
      if |src.data| < 4 + length {
        return Waiting;
      }
      src.Advance(4);
      var payload := src.SplitTo(length);
      assert payload == old(src.data)[4..4 + length];
      assert src.data == old(src.data)[4 + length..];
      match json.parse(payload)
      case Some(envelope) => outcome := Item(envelope);
      case None => outcome := Failed(MalformedPayload);
    }

    /** Refuses an oversized envelope without touching the destination. */
    method Encode(item: E, dst: BytesMut) returns (ok: bool)
      modifies dst
      ensures ok == (|json.serialize(item)| <= maxFrameSize)
      ensures dst.data == old(dst.data) + if ok then Frame(json, item) else []
    {
      var bytes := json.serialize(item);
      var length := |bytes|;
      if length > maxFrameSize {
        return false;
      }
      dst.PutSlice(PutU32(Big, length % 0x1_0000_0000));
      dst.PutSlice(bytes);
      ok := true;
    }
  }

  // ----- Draining -------------------------------------------------------------

  /** The envelopes read from a buffer until the decoder waits or fails. */
  datatype Stream<E> = Stream(items: seq<E>, rest: seq<u8>, error: Option<Error>)

  function Drain<E>(json: Json<E>, limit: nat, buf: seq<u8>): Stream<E>
    decreases |buf|
  {
    var (outcome, rest) := DecodeStep(json, limit, buf);
    match outcome
    case Waiting => Stream([], rest, None)
    case Failed(error) => Stream([], rest, Some(error))
    case Item(e) =>
      var later := Drain(json, limit, rest);
      Stream([e] + later.items, later.rest, later.error)
  }

  /** Reading chunk by chunk: append, drain, and stop for good at the first error. */
  function Feed<E>(json: Json<E>, limit: nat, chunks: seq<seq<u8>>): Stream<E> {
    if chunks == [] then Stream([], [], None)
    else
      var before := Feed(json, limit, Front(chunks));
      if before.error.Some? then before
      else
        var now := Drain(json, limit, before.rest + Last(chunks));
        Stream(before.items + now.items, now.rest, now.error)
  }

  /** A decision once taken is not changed by bytes that arrive later. */
  lemma StepStable<E>(json: Json<E>, limit: nat, buf: seq<u8>, more: seq<u8>)
    requires !DecodeStep(json, limit, buf).0.Waiting?
    ensures DecodeStep(json, limit, buf + more)
         == (DecodeStep(json, limit, buf).0, DecodeStep(json, limit, buf).1 + more)
  {
    assert (buf + more)[..4] == buf[..4];
    var length := GetU32(Big, buf[..4]);
    if length <= limit {
      assert (buf + more)[4..4 + length] == buf[4..4 + length];
      assert (buf + more)[4 + length..] == buf[4 + length..] + more;
    }
  }

  lemma {:induction false} DrainExtends<E>(json: Json<E>, limit: nat, buf: seq<u8>, more: seq<u8>)
    ensures
      var first := Drain(json, limit, buf);
      Drain(json, limit, buf + more) ==
        if first.error.Some? then Stream(first.items, first.rest + more, first.error)
        else
          var later := Drain(json, limit, first.rest + more);
          Stream(first.items + later.items, later.rest, later.error)
    decreases |buf|
  {
    var (outcome, rest) := DecodeStep(json, limit, buf);
    if !outcome.Waiting? {
      StepStable(json, limit, buf, more);
      if outcome.Item? {
        DrainExtends(json, limit, rest, more);
        var inner := Drain(json, limit, rest);
        if inner.error.None? {
          var later := Drain(json, limit, inner.rest + more);
          assert [outcome.envelope] + (inner.items + later.items) == ([outcome.envelope] + inner.items) + later.items;
        }
      }
    } else {
      var later := Drain(json, limit, buf + more);
      assert [] + later.items == later.items;
    }
  }

  /** However a byte stream is cut, the same envelopes and the same first error come out. */
  lemma {:induction false} ChunkingInvisible<E>(json: Json<E>, limit: nat, chunks: seq<seq<u8>>)
    ensures
      var fed, whole := Feed(json, limit, chunks), Drain(json, limit, Concat(chunks));
      && fed.items == whole.items
      && fed.error == whole.error
      && (fed.error.None? ==> fed.rest == whole.rest)
  {
    if chunks != [] {
      ChunkingInvisible(json, limit, Front(chunks));
      DrainExtends(json, limit, Concat(Front(chunks)), Last(chunks));
    }
  }

  // ----- Round trip -----------------------------------------------------------

  ghost predicate Readable<E>(json: Json<E>, limit: nat, e: E) {
    |json.serialize(e)| <= limit && json.parse(json.serialize(e)) == Some(e)
  }

  lemma StepOfFrame<E>(json: Json<E>, limit: nat, e: E, tail: seq<u8>)
    requires Readable(json, limit, e) && |json.serialize(e)| < TWO_32
    ensures DecodeStep(json, limit, Frame(json, e) + tail) == (Item(e), tail)
  {
    hide GetU32, PutU32;
    var bytes := json.serialize(e);
    var buf := Frame(json, e) + tail;
    assert buf[..4] == PutU32(Big, |bytes|);
    assert buf[4..4 + |bytes|] == bytes;
    assert buf[4 + |bytes|..] == tail;
  }

  lemma DrainOfFrame<E>(json: Json<E>, limit: nat, e: E, tail: seq<u8>)
    requires Readable(json, limit, e) && |json.serialize(e)| < TWO_32
    ensures
      var later := Drain(json, limit, tail);
      Drain(json, limit, Frame(json, e) + tail) == Stream([e] + later.items, later.rest, later.error)
  {
    StepOfFrame(json, limit, e, tail);
  }

  /** The bytes an encoder appends for a list of accepted envelopes. */
  function Encoded<E>(json: Json<E>, items: seq<E>): seq<u8> {
    if items == [] then [] else Frame(json, items[0]) + Encoded(json, items[1..])
  }

  /** Concatenated frames decode to exactly the envelopes, and what follows them is decoded next. */
  lemma {:induction false} RoundTrip<E>(json: Json<E>, limit: nat, items: seq<E>, tail: seq<u8>)
    requires limit < TWO_32
    requires forall e :: e in items ==> Readable(json, limit, e)
    ensures
      var later := Drain(json, limit, tail);
      Drain(json, limit, Encoded(json, items) + tail)
        == Stream(items + later.items, later.rest, later.error)
  {
    if items == [] {
      assert Encoded(json, items) + tail == tail;
    } else {
      var next := Encoded(json, items[1..]) + tail;
      Associative(Frame(json, items[0]), Encoded(json, items[1..]), tail);
      DrainOfFrame(json, limit, items[0], next);
      RoundTrip(json, limit, items[1..], tail);
      Associative([items[0]], items[1..], Drain(json, limit, tail).items);
      assert [items[0]] + items[1..] == items;
    }
  }

  /** In particular nothing is left behind. */
  lemma RoundTripExact<E>(json: Json<E>, limit: nat, items: seq<E>)
    requires limit < TWO_32
    requires forall e :: e in items ==> Readable(json, limit, e)
    ensures Drain(json, limit, Encoded(json, items)) == Stream(items, [], None)
  {
    RoundTrip(json, limit, items, []);
    assert Encoded(json, items) + [] == Encoded(json, items);
  }

  /** So a receiver gets exactly what was encoded, however the transport cuts the bytes. */
  lemma DeliveredExactly<E>(json: Json<E>, limit: nat, items: seq<E>, chunks: seq<seq<u8>>)
    requires limit < TWO_32
    requires forall e :: e in items ==> Readable(json, limit, e)
    requires Concat(chunks) == Encoded(json, items)
    ensures Feed(json, limit, chunks) == Stream(items, [], None)
  {
    ChunkingInvisible(json, limit, chunks);
    RoundTripExact(json, limit, items);
  }

  /**
   * A frame limit of 2^32 or more admits envelopes whose length does not fit the prefix.
   * A single accepted frame is read back whole exactly when its length fits.
   */
  lemma ReadBackIffLengthFits<E>(json: Json<E>, limit: nat, e: E)
    requires Readable(json, limit, e)
    ensures DecodeStep(json, limit, Frame(json, e)) == (Item(e), [])
       <==> |json.serialize(e)| < TWO_32
  {
    var bytes := json.serialize(e);
    if |bytes| < TWO_32 {
      StepOfFrame(json, limit, e, []);
      assert Frame(json, e) + [] == Frame(json, e);
    } else {
      var buf := Frame(json, e);
      assert buf[..4] == PutU32(Big, |bytes| % 0x1_0000_0000);
      var length := |bytes| % 0x1_0000_0000;
      assert |buf[4 + length..]| > 0;
    }
  }
}
