/** Messages over the HTTP/2 carrier: a length of four bytes, then the message. The server cuts them off its
    buffer; the client moves an offset through its buffer and compacts it now and then. */
module Carrier {
  import opened Prelude

  const SERVER_LIMIT: nat := 4096 + 16 + 256
  const CLIENT_LIMIT: nat := 8192
  const BUFFER_LIMIT: nat := 1024 * 1024
  const COMPACT_AT: nat := 65536

  datatype Taken = Nothing | Invalid | Message(body: Bytes, rest: Bytes)

  /** The message at the start of the buffer. */
  function Take(b: Bytes, limit: nat): Taken {
    if |b| < 4 then Nothing
    else
      var length := FromBigEndian(b[..4]);
      if length == 0 || length > limit then Invalid
      else if |b| < 4 + length then Nothing
      else Message(b[4..4 + length], b[4 + length..])
  }

  /** All messages of a buffer, and what is left; `ok` is false when it stopped at an invalid length. */
  datatype Decoded = Decoded(messages: seq<Bytes>, rest: Bytes, ok: bool)

  function Behind(first: Bytes, others: Decoded): Decoded {
    Decoded([first] + others.messages, others.rest, others.ok)
  }

  function Messages(b: Bytes, limit: nat): Decoded
    decreases |b|
  {
    match Take(b, limit)
    case Nothing => Decoded([], b, true)
    case Invalid => Decoded([], b, false)
    case Message(body, rest) =>
      Behind(body, Messages(rest, limit))
  }

  function EncodeMessage(m: Bytes): Bytes {
    BigEndian(|m|, 4) + m
  }

  function EncodeAll(messages: seq<Bytes>): Bytes {
    if messages == [] then [] else EncodeMessage(messages[0]) + EncodeAll(messages[1..])
  }

  /** Messages the receiver takes. */
  predicate Carried(messages: seq<Bytes>, limit: nat) {
    forall m | m in messages :: 0 < |m| <= limit
  }

  /** More bytes change nothing about a message that is there, or a length that is invalid. */
  lemma TakeGrows(b: Bytes, more: Bytes, limit: nat)
    ensures match Take(b, limit)
            case Message(body, rest) => Take(b + more, limit) == Message(body, rest + more)
            case Invalid => Take(b + more, limit) == Invalid
            case Nothing => |b| < 4 + limit
  {
    if |b| >= 4 {
      assert (b + more)[..4] == b[..4];
      var length := FromBigEndian(b[..4]);
      if |b| >= 4 + length {
        assert (b + more)[4..4 + length] == b[4..4 + length];
        assert (b + more)[4 + length..] == b[4 + length..] + more;
      }
    }
  }

  /** Decoding what has come so far, and then the rest, is decoding it all. */
  lemma {:induction false} MessagesGrow(b: Bytes, more: Bytes, limit: nat)
    ensures var first := Messages(b, limit);
            var second := Messages(first.rest + more, limit);
            Messages(b + more, limit) == second.(messages := first.messages + second.messages)
    decreases |b|
  {
    hide FromBigEndian;
    TakeGrows(b, more, limit);
    match Take(b, limit)
    case Message(body, rest) =>
      MessagesGrow(rest, more, limit);
      var second := Messages(Messages(rest, limit).rest + more, limit);
      assert [body] + (Messages(rest, limit).messages + second.messages)
             == [body] + Messages(rest, limit).messages + second.messages;
    case _ =>
      assert [] + Messages(b + more, limit).messages == Messages(b + more, limit).messages;
  }

  /** A receiver that decodes as much as it can after every chunk. */
  function Feed(buffered: Bytes, chunks: seq<Bytes>, limit: nat): Decoded
    decreases |chunks|
  {
    if chunks == [] then Messages(buffered, limit)
    else
      var first := Messages(buffered + chunks[0], limit);
      var others := Feed(first.rest, chunks[1..], limit);
      others.(messages := first.messages + others.messages)
  }

  /** Where the stream is cut into chunks does not matter. */
  lemma {:induction false} ChunksDoNotMatter(buffered: Bytes, chunks: seq<Bytes>, limit: nat)
    ensures Feed(buffered, chunks, limit) == Messages(buffered + Concat(chunks), limit)
    decreases |chunks|
  {
    hide Messages;
    if chunks == [] {
      assert buffered + Concat(chunks) == buffered;
    } else {
      var first := Messages(buffered + chunks[0], limit);
      ChunksDoNotMatter(first.rest, chunks[1..], limit);
      MessagesGrow(buffered + chunks[0], Concat(chunks[1..]), limit);
      assert buffered + chunks[0] + Concat(chunks[1..]) == buffered + Concat(chunks);
    }
  }

  lemma TakeEncoded(m: Bytes, more: Bytes, limit: nat)
    requires 0 < |m| <= limit < U32_LIMIT
    ensures Take(EncodeMessage(m) + more, limit) == Message(m, more)
  {
    IntegersDecode(|m|);
    var b := EncodeMessage(m) + more;
    assert b[..4] == BigEndian(|m|, 4);
    assert b[4..4 + |m|] == m && b[4 + |m|..] == more;
  }

  /** A strict prefix of a message holds none. */
  lemma PartialHoldsNone(m: Bytes, k: nat, limit: nat)
    requires 0 < |m| <= limit < U32_LIMIT && k < |EncodeMessage(m)|
    ensures Take(EncodeMessage(m)[..k], limit) == Nothing
  {
    hide FromBigEndian;
    var b := EncodeMessage(m)[..k];
    TakeEncoded(m, [], limit);
    assert EncodeMessage(m) + [] == EncodeMessage(m);
    if k >= 4 { assert b[..4] == EncodeMessage(m)[..4]; }
  }

  lemma MessagesStep(b: Bytes, limit: nat)
    ensures var taken := Take(b, limit);
            Messages(b, limit) == if taken.Message? then Behind(taken.body, Messages(taken.rest, limit))
                                  else Decoded([], b, taken.Nothing?)
  {
    hide FromBigEndian;
  }

  lemma {:induction false} EncodedDecodes(messages: seq<Bytes>, partial: Bytes, limit: nat)
    requires Carried(messages, limit) && limit < U32_LIMIT && Take(partial, limit) == Nothing
    ensures Messages(EncodeAll(messages) + partial, limit) == Decoded(messages, partial, true)
    decreases |messages|
  {
    hide Take, EncodeMessage, Messages;
    if messages == [] {
      assert EncodeAll(messages) + partial == partial;
      MessagesStep(partial, limit);
    } else {
      var more := EncodeAll(messages[1..]) + partial;
      assert messages[0] in messages && forall m | m in messages[1..] :: m in messages;
      EncodedDecodes(messages[1..], partial, limit);
      TakeEncoded(messages[0], more, limit);
      assert EncodeAll(messages) + partial == EncodeMessage(messages[0]) + more;
      MessagesStep(EncodeMessage(messages[0]) + more, limit);
      assert [messages[0]] + messages[1..] == messages;
    }
  }

  /** Any messages, sent as a stream that breaks off inside the next one and cut into chunks anywhere, come
      out unchanged and in order, and only the part of the next one stays in the buffer. */
  lemma StreamDecodes(messages: seq<Bytes>, next: Bytes, k: nat, chunks: seq<Bytes>, limit: nat)
    requires Carried(messages, limit) && 0 < |next| <= limit < U32_LIMIT && k < |EncodeMessage(next)|
    requires Concat(chunks) == EncodeAll(messages) + EncodeMessage(next)[..k]
    ensures Feed([], chunks, limit) == Decoded(messages, EncodeMessage(next)[..k], true)
  {
    hide Feed, Messages, EncodeAll;
    PartialHoldsNone(next, k, limit);
    ChunksDoNotMatter([], chunks, limit);
    assert [] + Concat(chunks) == Concat(chunks);
    EncodedDecodes(messages, EncodeMessage(next)[..k], limit);
  }

  /** A message is still incomplete, or its length is refused. */
  predicate Stuck(rest: Bytes, limit: nat, ok: bool) {
    if |rest| < 4 then ok
    else
      var length := FromBigEndian(rest[..4]);
      if ok then 0 < length <= limit && |rest| < 4 + length else length == 0 || length > limit
  }

  /** Decoding, said without a decoder: the buffer is some messages of lengths from one to the limit, then a part of a
      message, or a length of zero or above the limit. */
  lemma {:induction false} MessagesIff(b: Bytes, limit: nat, d: Decoded)
    requires limit < U32_LIMIT
    ensures Messages(b, limit) == d <==>
            b == EncodeAll(d.messages) + d.rest && Carried(d.messages, limit) && Stuck(d.rest, limit, d.ok)
    decreases |b| + |d.messages|
  {
    hide FromBigEndian, EncodeMessage, Take;
    MessagesStep(b, limit);
    TakeMeans(b, limit);
    if d.messages == [] {
      assert EncodeAll([]) + d.rest == d.rest;
    } else {
      var m, others := d.messages[0], Decoded(d.messages[1..], d.rest, d.ok);
      assert d.messages == [m] + d.messages[1..];
      assert EncodeAll(d.messages) + d.rest == EncodeMessage(m) + (EncodeAll(d.messages[1..]) + d.rest);
      if 0 < |m| <= limit { TakeEncoded(m, EncodeAll(d.messages[1..]) + d.rest, limit); }
      match Take(b, limit)
      case Message(body, rest) =>
        MessagesIff(rest, limit, others);
        if Carried(d.messages, limit) && b == EncodeAll(d.messages) + d.rest {
          assert forall x | x in d.messages[1..] :: x in d.messages;
        }
        if Messages(b, limit) == d {
          assert d.messages[1..] == Messages(rest, limit).messages;
        }
      case _ =>
    }
  }

  lemma TakeMeans(b: Bytes, limit: nat)
    requires limit < U32_LIMIT
    ensures match Take(b, limit)
            case Message(body, rest) => 0 < |body| <= limit && b == EncodeMessage(body) + rest && |rest| < |b|
            case Invalid => Stuck(b, limit, false) && !Stuck(b, limit, true)
            case Nothing => Stuck(b, limit, true) && !Stuck(b, limit, false)
    ensures Take(b, limit).Message? ==> !Stuck(b, limit, true) && !Stuck(b, limit, false)
  {
    if |b| >= 4 {
      BigEndianEncodes(b[..4]);
      var length := FromBigEndian(b[..4]);
      if |b| >= 4 + length { assert b == b[..4] + b[4..4 + length] + b[4 + length..]; }
    }
  }

  /** What the server can take, the client takes alike. */
  lemma {:induction false} LimitsAgree(b: Bytes)
    requires Messages(b, SERVER_LIMIT).ok
    ensures Messages(b, CLIENT_LIMIT) == Messages(b, SERVER_LIMIT)
    decreases |b|
  {
    hide FromBigEndian;
    match Take(b, SERVER_LIMIT)
    case Message(_, rest) => LimitsAgree(rest);
    case _ =>
  }

  // ---- The server's stream ----

  datatype Received = Binary(message: Bytes) | Close | InvalidLength | Truncated | LimitExceeded

  /** What comes out of a stream next, and what is left of it, however it is cut into chunks. */
  function Next(stream: Bytes, limit: nat): (Received, Bytes) {
    match Take(stream, limit)
    case Message(body, rest) => (Binary(body), rest)
    case Invalid => (InvalidLength, stream)
    case Nothing => (if stream == [] then Close else Truncated, stream)
  }

  /** Receiving until something else than a message comes. */
  function ReadOut(stream: Bytes, limit: nat): (seq<Bytes>, Received)
    decreases |stream|
  {
    match Next(stream, limit)
    case (Binary(m), rest) =>
      var others := ReadOut(rest, limit);
      ([m] + others.0, others.1)
    case (other, _) => ([], other)
  }

  lemma {:induction false} ReadOutDecodes(stream: Bytes, limit: nat)
    requires limit < U32_LIMIT
    ensures var d := Messages(stream, limit);
            ReadOut(stream, limit)
            == (d.messages, if !d.ok then InvalidLength else if d.rest == [] then Close else Truncated)
    decreases |stream|
  {
    hide FromBigEndian, Take, EncodeMessage;
    TakeMeans(stream, limit);
    MessagesStep(stream, limit);
    match Take(stream, limit)
    case Message(_, rest) => ReadOutDecodes(rest, limit);
    case _ =>
  }

  /** A stream gives its messages and then says how it ended: closed only right behind a message, with an invalid
      length if one stands there, and cut off otherwise. */
  lemma ReadOutMeans(stream: Bytes, limit: nat)
    requires limit < U32_LIMIT
    ensures var (messages, last) := ReadOut(stream, limit);
            && Carried(messages, limit) && EncodeAll(messages) <= stream
            && (last == Close <==> stream == EncodeAll(messages))
            && (last == InvalidLength <==> Stuck(stream[|EncodeAll(messages)|..], limit, false))
            && (last == Close || last == InvalidLength || last == Truncated)
  {
    hide FromBigEndian, Messages, ReadOut, EncodeAll, Carried;
    ReadOutDecodes(stream, limit);
    var d := Messages(stream, limit);
    MessagesIff(stream, limit, d);
    assert stream[|EncodeAll(d.messages)|..] == d.rest;
    NotBoth(d.rest, limit);
  }

  lemma NotBoth(rest: Bytes, limit: nat)
    ensures !(Stuck(rest, limit, true) && Stuck(rest, limit, false))
    ensures !Stuck([], limit, false)
  {
    hide FromBigEndian;
  }

  /** Room for one more chunk while a message is incomplete. */
  const LONGEST_CHUNK: nat := BUFFER_LIMIT - (4 + SERVER_LIMIT)

  lemma ConcatStep(buffered: Bytes, input: seq<Bytes>)
    requires input != []
    ensures buffered + Concat(input) == buffered + input[0] + Concat(input[1..])
  {
  }

  /** The buffer once `k` chunks have been added to it. */
  function Filled(buffered: Bytes, chunks: seq<Bytes>, k: nat): Bytes
    requires k <= |chunks|
  {
    buffered + Concat(chunks[..k])
  }

  /** Chunk `k` is needed, because no message is complete before it, and puts the buffer over its limit. */
  predicate OverflowsAt(buffered: Bytes, chunks: seq<Bytes>, k: nat) {
    && k < |chunks|
    && Take(Filled(buffered, chunks, k), SERVER_LIMIT) == Nothing
    && |Filled(buffered, chunks, k + 1)| > BUFFER_LIMIT
  }

  predicate Overflows(buffered: Bytes, chunks: seq<Bytes>) {
    exists k: nat | k < |chunks| :: OverflowsAt(buffered, chunks, k)
  }

  lemma FilledNone(buffered: Bytes, chunks: seq<Bytes>)
    ensures Filled(buffered, chunks, 0) == buffered
  {
  }

  lemma FilledOne(buffered: Bytes, chunks: seq<Bytes>, k: nat)
    requires k < |chunks|
    ensures Filled(buffered, chunks, k + 1) == Filled(buffered, chunks, k) + chunks[k]
  {
    assert chunks[..k + 1] == chunks[..k] + [chunks[k]];
    ConcatSplits(chunks[..k], [chunks[k]]);
    NothingMore(chunks[k]);
    assert chunks[k] + Concat([]) == Concat([chunks[k]]);
  }

  /** Once there is a message or an invalid length, no later chunk is needed. */
  lemma TakenStays(buffered: Bytes, chunks: seq<Bytes>, used: nat)
    requires used <= |chunks| && Take(Filled(buffered, chunks, used), SERVER_LIMIT) != Nothing
    ensures forall k: nat | k >= used :: !OverflowsAt(buffered, chunks, k)
  {
    hide Take;
    forall k: nat | used <= k < |chunks|
      ensures !OverflowsAt(buffered, chunks, k)
    {
      assert chunks[..k] == chunks[..used] + chunks[used..k];
      ConcatSplits(chunks[..used], chunks[used..k]);
      assert Filled(buffered, chunks, k) == Filled(buffered, chunks, used) + Concat(chunks[used..k]);
      TakeGrows(Filled(buffered, chunks, used), Concat(chunks[used..k]), SERVER_LIMIT);
    }
  }

  class H2Stream {
    var buffered: Bytes
    var input: seq<Bytes>

    function Stream(): Bytes
      reads this
    {
      buffered + Concat(input)
    }

    constructor (input: seq<Bytes>)
      ensures Stream() == Concat(input) && this.input == input
    {
      buffered := [];
      this.input := input;
      new;
      assert [] + Concat(input) == Concat(input);
    }

    /** Cuts one message off the buffer. */
    method TakeMessage() returns (r: Result<Option<Bytes>, Received>)
      modifies `buffered
      ensures match Take(old(buffered), SERVER_LIMIT)
              case Message(body, rest) => r == Ok(Some(body)) && buffered == rest
              case Invalid => r == Err(InvalidLength) && buffered == old(buffered)
              case Nothing => r == Ok(None) && buffered == old(buffered)
    {
      if |buffered| < 4 {
        return Ok(None);
      }
      var length := FromBigEndian(buffered[..4]);
      if length == 0 || length > SERVER_LIMIT {
        return Err(InvalidLength);
      }
      if |buffered| < 4 + length {
        return Ok(None);
      }
      var encoded := buffered[..4 + length];
      assert encoded[4..] == buffered[4..4 + length];
      buffered := buffered[4 + length..];
      return Ok(Some(encoded[4..]));
    }

    /** The outcome depends on the bytes to come and not on their chunks, unless the buffer limit strikes:
        that happens exactly when `Overflows` says, and takes a chunk longer than `LONGEST_CHUNK`. */
    method Recv() returns (r: Received)
      modifies this
      ensures r == LimitExceeded <==> Overflows(old(buffered), old(input))
      ensures r == LimitExceeded ==> exists i | 0 <= i < |old(input)| :: |old(input)[i]| > LONGEST_CHUNK
      ensures r != LimitExceeded ==> (r, Stream()) == Next(old(Stream()), SERVER_LIMIT)
    {
      hide Take, Concat;
      ghost var start, chunks := buffered, input;
      ghost var used := 0;
      FilledNone(start, chunks);
      while true
        invariant used <= |chunks| && input == chunks[used..]
        invariant Stream() == old(Stream())
        invariant buffered == Filled(start, chunks, used)
        invariant forall k: nat | k < used :: !OverflowsAt(start, chunks, k)
        decreases |input|
      {
        TakeGrows(buffered, Concat(input), SERVER_LIMIT);
        var message := TakeMessage();
        if message != Ok(None) {
          TakenStays(start, chunks, used);
          return if message.Err? then message.error else Binary(message.value.value);
        }
        if input == [] {
          assert Stream() == buffered by { NothingMore(buffered); }
          return if buffered == [] then Close else Truncated;
        }
        var chunk := input[0];
        assert chunk == chunks[used];
        ConcatStep(buffered, input);
        FilledOne(start, chunks, used);
        buffered := buffered + chunk;
        input := input[1..];
        if |buffered| > BUFFER_LIMIT {
          assert OverflowsAt(start, chunks, used);
          return LimitExceeded;
        }
        used := used + 1;
      }
    }
  }

  lemma NothingMore(buffered: Bytes)
    ensures buffered + Concat([]) == buffered
  {
  }

  // ---- The client's stream ----

  datatype Batch = Batch(data: Bytes, ended: bool)
  datatype Answer = Payload(message: Bytes) | BadLength | ResponseEnded | CarrierClosed

  /** The data that comes before the response ends or the connection closes. */
  function Data(batches: seq<Batch>): Bytes {
    if batches == [] then []
    else if batches[0].ended then batches[0].data
    else batches[0].data + Data(batches[1..])
  }

  function Ends(batches: seq<Batch>): bool {
    batches != [] && (batches[0].ended || Ends(batches[1..]))
  }

  class H2Carrier {
    var buffer: Bytes
    var bufferOffset: nat
    var ended: bool
    var batches: seq<Batch>

    predicate Valid()
      reads this
    {
      bufferOffset <= |buffer|
    }

    /** What is in the buffer and not yet returned. */
    function Live(): Bytes
      requires Valid()
      reads this
    {
      buffer[bufferOffset..]
    }

    function Stream(): Bytes
      requires Valid()
      reads this
    {
      Live() + if ended then [] else Data(batches)
    }

    function WillEnd(): bool
      reads this
    {
      ended || Ends(batches)
    }

    /** The part of the buffer that was returned already is short, and less than half of it. */
    predicate Compact()
      reads this
    {
      bufferOffset == 0 || (bufferOffset < COMPACT_AT && bufferOffset * 2 < |buffer|)
    }

    constructor (batches: seq<Batch>)
      ensures Valid() && Compact() && Stream() == Data(batches) && WillEnd() == Ends(batches)
    {
      buffer := [];
      bufferOffset := 0;
      ended := false;
      this.batches := batches;
    }

    /** Reads once from the socket. */
    method Events() returns (closed: bool)
      requires Valid() && !ended
      modifies this
      ensures Valid() && bufferOffset == old(bufferOffset)
      ensures closed <==> old(batches) == []
      ensures closed ==> buffer == old(buffer) && ended == old(ended) && batches == old(batches)
      ensures !closed ==> |batches| < |old(batches)|
      ensures Stream() == old(Stream()) && WillEnd() == old(WillEnd())
    {
      if batches == [] {
        return true;
      }
      var batch := batches[0];
      assert (buffer + batch.data)[bufferOffset..] == buffer[bufferOffset..] + batch.data;
      buffer := buffer + batch.data;
      ended := batch.ended;
      batches := batches[1..];
      return false;
    }

    /** The message at the offset, if there is one; the buffer is compact behind it. */
    method TakeBuffered() returns (r: Option<Answer>)
      requires Valid()
      modifies `buffer, `bufferOffset
      ensures Valid()
      ensures var taken := Take(old(Live()), CLIENT_LIMIT);
              && r == (if taken.Message? then Some(Payload(taken.body)) else if taken.Invalid? then Some(BadLength)
                       else None)
              && Live() == (if taken.Message? then taken.rest else old(Live()))
              && (taken.Message? ==> Compact())
    {
      hide FromBigEndian, Data, Ends;
      ghost var live := Live();
      var available := |buffer| - bufferOffset;
      if available < 4 {
        return None;
      }
      var start := bufferOffset;
      assert live[..4] == buffer[start..start + 4];
      var length := FromBigEndian(buffer[start..start + 4]);
      if length == 0 || length > CLIENT_LIMIT {
        return Some(BadLength);
      }
      if available < 4 + length {
        return None;
      }
      var payload := buffer[start + 4..start + 4 + length];
      assert live[4..4 + length] == payload;
      assert live[4 + length..] == buffer[start + 4 + length..];
      bufferOffset := bufferOffset + 4 + length;
      if bufferOffset >= COMPACT_AT || bufferOffset * 2 >= |buffer| {
        buffer := buffer[bufferOffset..];
        bufferOffset := 0;
      }
      return Some(Payload(payload));
    }

    /** The offset form does what cutting messages off would do, whatever batches the bytes come in. */
    method RecvMessage() returns (r: Answer)
      requires Valid()
      modifies this
      ensures Valid() && WillEnd() == old(WillEnd())
      ensures match Take(old(Stream()), CLIENT_LIMIT)
              case Message(body, rest) => r == Payload(body) && Stream() == rest && Compact()
              case Invalid => r == BadLength && Stream() == old(Stream())
              case Nothing =>
                r == (if old(WillEnd()) then ResponseEnded else CarrierClosed) && Stream() == old(Stream())
    {
      hide Take, Data, Ends;
      while true
        invariant Valid()
        invariant Stream() == old(Stream()) && WillEnd() == old(WillEnd())
        decreases |batches|
      {
        ghost var live := Live();
        TakeGrows(live, if ended then [] else Data(batches), CLIENT_LIMIT);
        var answer := TakeBuffered();
        if answer.Some? {
          return answer.value;
        }
        NoBatches(live);
        if ended {
          return ResponseEnded;
        }
        var closed := Events();
        if closed {
          return CarrierClosed;
        }
      }
    }
  }

  lemma NoBatches(live: Bytes)
    ensures live + Data([]) == live && live + [] == live && !Ends([])
  {
  }
}
