/**
 The length-prefixed framing of the parameter server's TCP links.

 A message travels as a 16-byte header (protocol, meta length, total length, each stored as the host
 stores it), the meta bytes, then the data bytes. The receiver sees the stream in chunks cut at
 arbitrary places, and hands a message on as soon as its last byte is in.

 `Feed` is the receiver one byte at a time; `TcpMessageHandler` is the receiver as written, copying
 whole runs of bytes. The theorems are about every list of messages and every way of cutting the stream.
 */
module TcpFraming {
  import opened Bytes

  const HEADER_LEN: nat := 16

  datatype Message = Message(proto: nat, meta: seq<Byte>, data: seq<Byte>)
  {
    function Length(): nat { |meta| + |data| }

    /** The message's sizes fit the header fields, so that the sender neither throws nor wraps. */
    predicate Sendable() {
      proto < U32_LIMIT && |meta| < U32_LIMIT && Length() < U64_LIMIT
    }
  }

  // ---------------------------------------------------------------- sender

  function EncodeHeader(m: Message): (h: seq<Byte>)
    ensures |h| == HEADER_LEN
  {
    LittleEndian(m.proto, 4) + LittleEndian(|m.meta|, 4) + LittleEndian(m.Length() % U64_LIMIT, 8)
  }

  function Encode(m: Message): seq<Byte> {
    EncodeHeader(m) + m.meta + m.data
  }

  function Frames(ms: seq<Message>): (fs: seq<seq<Byte>>)
    ensures |fs| == |ms|
    ensures forall i :: 0 <= i < |ms| ==> fs[i] == Encode(ms[i])
  {
    seq(|ms|, i requires 0 <= i < |ms| => Encode(ms[i]))
  }

  /** The stream that carries `ms`. */
  function EncodeAll(ms: seq<Message>): seq<Byte> {
    Flatten(Frames(ms))
  }

  /** The output side of a connection: the bytes handed to the buffer event so far. */
  class TcpSender {
    var output: seq<Byte>

    constructor ()
      ensures output == []
    {
      output := [];
    }

    /** Writes header, meta and data; a meta too long for its 32-bit field throws before any write. */
    method SendMessage(m: Message) returns (sent: bool)
      requires m.proto < U32_LIMIT
      modifies this
      ensures sent <==> |m.meta| < U32_LIMIT
      ensures output == old(output) + (if sent then Encode(m) else [])
    {
      hide LittleEndian;
      if |m.meta| >= U32_LIMIT {
        return false;
      }
      var header := LittleEndian(m.proto, 4);
      header := header + LittleEndian(|m.meta|, 4);
      header := header + LittleEndian((|m.data| + |m.meta|) % U64_LIMIT, 8);
      output := output + header;
      output := output + m.meta;
      output := output + m.data;
      return true;
    }

    /** Message after message: the stream that carries them all. */
    method SendAll(ms: seq<Message>)
      requires forall i :: 0 <= i < |ms| ==> ms[i].Sendable()
      modifies this
      ensures output == old(output) + EncodeAll(ms)
    {
      hide Encode, EncodeAll;
      assert EncodeAll([]) == [] by { EncodeNone(); }
      for i := 0 to |ms|
        invariant output == old(output) + EncodeAll(ms[..i])
      {
        EncodeNext(ms, i);
        var sent := SendMessage(ms[i]);
      }
      assert ms[..|ms|] == ms;
    }
  }

  lemma EncodeNone()
    ensures EncodeAll([]) == []
  {
  }

  lemma EncodeNext(ms: seq<Message>, i: nat)
    requires i < |ms|
    ensures EncodeAll(ms[..i + 1]) == EncodeAll(ms[..i]) + Encode(ms[i])
  {
    hide Encode, Flatten;
    assert Frames(ms[..i + 1]) == Frames(ms[..i]) + [Encode(ms[i])];
    FlattenConcat(Frames(ms[..i]), [Encode(ms[i])]);
    FlattenOne(Encode(ms[i]));
  }

  // -------------------------------------------------------------- receiver

  /** One call of the message callback: the announced meta length and the frame's body. */
  datatype Delivery = Delivery(proto: nat, metaLength: nat, body: seq<Byte>)
  {
    /** What the callback reads out of the body. */
    function Contents(): Message
      requires metaLength <= |body|
    {
      Message(proto, body[..metaLength], body[metaLength..])
    }
  }

  function DeliveryOf(m: Message): (d: Delivery)
    ensures d.metaLength <= |d.body| && d.Contents() == m
  {
    assert (m.meta + m.data)[..|m.meta|] == m.meta;
    assert (m.meta + m.data)[|m.meta|..] == m.data;
    Delivery(m.proto, |m.meta|, m.meta + m.data)
  }

  function Deliveries(ms: seq<Message>): (ds: seq<Delivery>)
    ensures |ds| == |ms|
    ensures forall i :: 0 <= i < |ms| ==> ds[i] == DeliveryOf(ms[i])
  {
    seq(|ms|, i requires 0 <= i < |ms| => DeliveryOf(ms[i]))
  }

  function HeaderProto(h: seq<Byte>): nat
    requires |h| == HEADER_LEN
  {
    FromLittleEndian(h[..4])
  }

  function HeaderMetaLength(h: seq<Byte>): nat
    requires |h| == HEADER_LEN
  {
    FromLittleEndian(h[4..8])
  }

  function HeaderLength(h: seq<Byte>): nat
    requires |h| == HEADER_LEN
  {
    FromLittleEndian(h[8..])
  }

  /**
   The receiver between two bytes. `overrun` says that it has stored a seventeenth header byte,
   outside its 16-byte buffer; nothing is promised about the program after that.
   */
  datatype Parser = Parser(header: seq<Byte>, body: seq<Byte>, delivered: seq<Delivery>, overrun: bool)
  {
    predicate Valid() {
      && |header| <= HEADER_LEN
      && (|header| < HEADER_LEN ==> body == [])
      && (|header| == HEADER_LEN ==> |body| < HeaderLength(header) || (body == [] && HeaderLength(header) == 0))
    }
  }

  const START: Parser := Parser([], [], [], false)

  /** One byte: into the header while that is short, else into the body; a full body is delivered at once. */
  function Feed(p: Parser, b: Byte): (q: Parser)
    requires p.Valid()
    ensures q.Valid()
  {
    if p.overrun then p
    else if |p.header| < HEADER_LEN then p.(header := p.header + [b])
    else if HeaderLength(p.header) == 0 then p.(overrun := true)
    else if |p.body| + 1 < HeaderLength(p.header) then p.(body := p.body + [b])
    else
      var d := Delivery(HeaderProto(p.header), HeaderMetaLength(p.header), p.body + [b]);
      Parser([], [], p.delivered + [d], false)
  }

  function FeedAll(p: Parser, s: seq<Byte>): (q: Parser)
    requires p.Valid()
    ensures q.Valid()
  {
    if s == [] then p else Feed(FeedAll(p, s[..|s| - 1]), s[|s| - 1])
  }

  function FeedChunks(p: Parser, chunks: seq<seq<Byte>>): (q: Parser)
    requires p.Valid()
    ensures q.Valid()
    decreases |chunks|
  {
    if chunks == [] then p else FeedChunks(FeedAll(p, chunks[0]), chunks[1..])
  }

  lemma {:induction false} FeedAllConcat(p: Parser, a: seq<Byte>, b: seq<Byte>)
    requires p.Valid()
    ensures FeedAll(p, a + b) == FeedAll(FeedAll(p, a), b)
    decreases |b|
  {
    if b == [] {
      assert a + b == a;
    } else {
      var n := |b| - 1;
      FeedAllConcat(p, a, b[..n]);
      assert (a + b)[..|a + b| - 1] == a + b[..n];
    }
  }

  lemma FeedNothing(p: Parser, s: seq<Byte>)
    requires p.Valid()
    ensures FeedAll(p, s[..0]) == p
  {
  }

  lemma FeedSlice(p: Parser, s: seq<Byte>, i: nat, j: nat)
    requires p.Valid() && i <= j <= |s|
    ensures FeedAll(p, s[..j]) == FeedAll(FeedAll(p, s[..i]), s[i..j])
  {
    hide FeedAll, Feed;
    FeedAllConcat(p, s[..i], s[i..j]);
    assert s[..j] == s[..i] + s[i..j];
  }

  /** Bytes after an overrun change nothing. */
  lemma FeedRest(p: Parser, s: seq<Byte>, i: nat)
    requires p.Valid() && i <= |s| && FeedAll(p, s[..i]).overrun
    ensures FeedAll(p, s) == FeedAll(p, s[..i])
  {
    hide FeedAll, Feed;
    FeedSlice(p, s, i, |s|);
    assert s[..|s|] == s;
    OverrunIsFinal(FeedAll(p, s[..i]), s[i..]);
  }

  lemma {:induction false} HeaderRun(p: Parser, s: seq<Byte>)
    requires p.Valid() && !p.overrun && |p.header| + |s| <= HEADER_LEN
    ensures FeedAll(p, s) == p.(header := p.header + s)
  {
    if s == [] {
      assert p.header + s == p.header;
    } else {
      HeaderRun(p, s[..|s| - 1]);
      assert p.header + s == p.header + s[..|s| - 1] + [s[|s| - 1]];
    }
  }

  lemma {:induction false} BodyRun(p: Parser, s: seq<Byte>)
    requires p.Valid() && !p.overrun && |p.header| == HEADER_LEN
    requires |p.body| + |s| < HeaderLength(p.header)
    ensures FeedAll(p, s) == p.(body := p.body + s)
  {
    if s == [] {
      assert p.body + s == p.body;
    } else {
      BodyRun(p, s[..|s| - 1]);
      assert p.body + s == p.body + s[..|s| - 1] + [s[|s| - 1]];
    }
  }

  /** The run of bytes that completes the pending body delivers it and leaves the receiver at a boundary. */
  lemma {:induction false} BodyCompletion(p: Parser, s: seq<Byte>)
    requires p.Valid() && !p.overrun && |p.header| == HEADER_LEN
    requires s != [] && |p.body| + |s| == HeaderLength(p.header)
    ensures FeedAll(p, s) == Parser([], [], p.delivered +
      [Delivery(HeaderProto(p.header), HeaderMetaLength(p.header), p.body + s)], false)
  {
    BodyRun(p, s[..|s| - 1]);
    assert p.body + s == p.body + s[..|s| - 1] + [s[|s| - 1]];
  }

  lemma {:induction false} OverrunIsFinal(p: Parser, s: seq<Byte>)
    requires p.Valid() && p.overrun
    ensures FeedAll(p, s) == p
  {
    if s != [] {
      OverrunIsFinal(p, s[..|s| - 1]);
    }
  }

  /** Cutting the stream has no effect: the chunks are received as their concatenation. */
  lemma {:induction false} ChunkingIrrelevant(p: Parser, chunks: seq<seq<Byte>>)
    requires p.Valid()
    ensures FeedChunks(p, chunks) == FeedAll(p, Flatten(chunks))
    decreases |chunks|
  {
    if chunks != [] {
      ChunkingIrrelevant(FeedAll(p, chunks[0]), chunks[1..]);
      FeedAllConcat(p, chunks[0], Flatten(chunks[1..]));
    }
  }

  lemma HeaderRoundTrip(m: Message)
    requires m.Sendable()
    ensures HeaderProto(EncodeHeader(m)) == m.proto
    ensures HeaderMetaLength(EncodeHeader(m)) == |m.meta|
    ensures HeaderLength(EncodeHeader(m)) == m.Length()
  {
    hide LittleEndian, FromLittleEndian, Pow256;
    var h := EncodeHeader(m);
    Pow256Widths();
    assert h[..4] == LittleEndian(m.proto, 4);
    assert h[4..8] == LittleEndian(|m.meta|, 4);
    assert h[8..] == LittleEndian(m.Length(), 8);
    LittleEndianRoundTrip(m.proto, 4);
    LittleEndianRoundTrip(|m.meta|, 4);
    LittleEndianRoundTrip(m.Length(), 8);
  }

  /** A frame on the wire: 4 bytes of protocol, 4 of meta length and 8 of length, each least byte first; meta; data. */
  lemma HeaderLayout(m: Message)
    requires m.Sendable()
    ensures var h := EncodeHeader(m);
      && Word(h[0], h[1], h[2], h[3]) == m.proto
      && Word(h[4], h[5], h[6], h[7]) == |m.meta|
      && Word(h[8], h[9], h[10], h[11]) + U32_LIMIT * Word(h[12], h[13], h[14], h[15]) == |m.meta| + |m.data|
    ensures Encode(m) == EncodeHeader(m) + (m.meta + m.data) && DeliveryOf(m) == Delivery(m.proto, |m.meta|, m.meta + m.data)
  {
    HeaderRoundTrip(m);
    assert Encode(m) == EncodeHeader(m) + (m.meta + m.data);
    var h := EncodeHeader(m);
    hide EncodeHeader, FromLittleEndian, Word;
    LittleEndianFour(h[..4]);
    LittleEndianFour(h[4..8]);
    LittleEndianEight(h[8..]);
  }

  /** `f` is a whole frame, and `d` is what the callback should be given for it. */
  predicate IsFrame(f: seq<Byte>, d: Delivery) {
    && |f| >= HEADER_LEN
    && HeaderLength(f[..HEADER_LEN]) == |f| - HEADER_LEN
    && d == Delivery(HeaderProto(f[..HEADER_LEN]), HeaderMetaLength(f[..HEADER_LEN]), f[HEADER_LEN..])
  }

  lemma EncodeIsFrame(m: Message)
    requires m.Sendable()
    ensures IsFrame(Encode(m), DeliveryOf(m))
  {
    HeaderRoundTrip(m);
    assert Encode(m)[..HEADER_LEN] == EncodeHeader(m);
    assert Encode(m)[HEADER_LEN..] == m.meta + m.data;
  }

  /** A frame received at a message boundary: delivered when it carries a byte, stuck in the header otherwise. */
  lemma FrameReceived(p: Parser, f: seq<Byte>, d: Delivery)
    requires p.header == [] && p.body == [] && !p.overrun && IsFrame(f, d)
    ensures FeedAll(p, f) ==
      if d.body == [] then p.(header := f) else p.(delivered := p.delivered + [d])
  {
    var h, body := f[..HEADER_LEN], f[HEADER_LEN..];
    assert f == h + body;
    HeaderRun(p, h);
    assert [] + h == h;
    FeedAllConcat(p, h, body);
    if body != [] {
      BodyCompletion(p.(header := h), body);
      assert [] + body == body;
    }
  }

  lemma {:induction false} StreamReceived(p: Parser, fs: seq<seq<Byte>>, ds: seq<Delivery>)
    requires p.header == [] && p.body == [] && !p.overrun && |fs| == |ds|
    requires forall i :: 0 <= i < |fs| ==> IsFrame(fs[i], ds[i]) && ds[i].body != []
    ensures FeedAll(p, Flatten(fs)) == p.(delivered := p.delivered + ds)
    decreases |fs|
  {
    hide Feed, IsFrame;
    if fs == [] {
      assert p.delivered + ds == p.delivered;
    } else {
      FrameReceived(p, fs[0], ds[0]);
      FeedAllConcat(p, fs[0], Flatten(fs[1..]));
      var q := p.(delivered := p.delivered + [ds[0]]);
      StreamReceived(q, fs[1..], ds[1..]);
      assert q.delivered + ds[1..] == p.delivered + ds;
    }
  }

  lemma StuckThenOverrun(p: Parser, s: seq<Byte>)
    requires p.Valid() && !p.overrun && |p.header| == HEADER_LEN && HeaderLength(p.header) == 0
    ensures FeedAll(p, s) == p.(overrun := s != [])
  {
    if s != [] {
      FeedAllConcat(p, s[..1], s[1..]);
      assert s == s[..1] + s[1..];
      assert FeedAll(p, s[..1]) == Feed(FeedAll(p, []), s[0]);
      OverrunIsFinal(p.(overrun := true), s[1..]);
    }
  }

  /** An empty frame at a boundary fills the header; any byte behind it overruns. */
  lemma EmptyFrameStuck(p: Parser, f: seq<Byte>, d: Delivery, tail: seq<Byte>)
    requires p.header == [] && p.body == [] && !p.overrun && IsFrame(f, d) && d.body == []
    ensures FeedAll(p, f + tail) == p.(header := f, overrun := tail != [])
  {
    hide Feed, FeedAll;
    assert f[..HEADER_LEN] == f;
    FrameReceived(p, f, d);
    FeedAllConcat(p, f, tail);
    StuckThenOverrun(p.(header := f), tail);
  }

  lemma FlattenAt(fs: seq<seq<Byte>>, z: nat)
    requires z < |fs|
    ensures Flatten(fs) == Flatten(fs[..z]) + (fs[z] + Flatten(fs[z + 1..]))
  {
    assert fs == fs[..z] + fs[z..] && fs[z..][1..] == fs[z + 1..];
    FlattenConcat(fs[..z], fs[z..]);
  }

  /** An empty frame is never delivered, and whatever follows it overruns the header buffer. */
  lemma EmptyFrameBlocks(fs: seq<seq<Byte>>, ds: seq<Delivery>, z: nat)
    requires z < |fs| == |ds| && IsFrame(fs[z], ds[z]) && ds[z].body == []
    requires forall i :: 0 <= i < z ==> IsFrame(fs[i], ds[i]) && ds[i].body != []
    ensures FeedAll(START, Flatten(fs)).delivered == ds[..z]
    ensures FeedAll(START, Flatten(fs)).overrun <==> Flatten(fs[z + 1..]) != []
  {
    hide Feed, FeedAll, Flatten, IsFrame;
    var tail := Flatten(fs[z + 1..]);
    FlattenAt(fs, z);
    StreamReceived(START, fs[..z], ds[..z]);
    assert [] + ds[..z] == ds[..z];
    FeedAllConcat(START, Flatten(fs[..z]), fs[z] + tail);
    EmptyFrameStuck(START.(delivered := ds[..z]), fs[z], ds[z], tail);
  }

  /**
   The framing law, for every list of messages and every way of cutting the encoded stream into chunks:
   exactly the sent messages are delivered, in order and without leaving the header buffer, if and only
   if no message is empty. An empty message also blocks every message behind it.
   */
  lemma FramingLaw(ms: seq<Message>, chunks: seq<seq<Byte>>)
    requires forall i :: 0 <= i < |ms| ==> ms[i].Sendable()
    requires Flatten(chunks) == EncodeAll(ms)
    ensures FeedChunks(START, chunks).delivered == Deliveries(ms) <==>
      (forall i :: 0 <= i < |ms| ==> ms[i].Length() > 0)
    ensures (forall i :: 0 <= i < |ms| ==> ms[i].Length() > 0) ==>
      FeedChunks(START, chunks) == START.(delivered := Deliveries(ms))
    ensures forall z :: 0 <= z < |ms| && ms[z].Length() == 0 && (forall i :: 0 <= i < z ==> ms[i].Length() > 0) ==>
      FeedChunks(START, chunks).delivered == Deliveries(ms[..z])
  {
    hide Feed, FeedAll, FeedChunks, Flatten, IsFrame, HeaderLength, Encode;
    var fs, ds := Frames(ms), Deliveries(ms);
    ChunkingIrrelevant(START, chunks);
    forall i | 0 <= i < |ms|
      ensures IsFrame(fs[i], ds[i]) && (ds[i].body != [] <==> ms[i].Length() > 0)
    {
      EncodeIsFrame(ms[i]);
    }
    if forall i :: 0 <= i < |ms| ==> ms[i].Length() > 0 {
      StreamReceived(START, fs, ds);
      assert [] + ds == ds;
    } else {
      var z := FirstEmpty(ms);
      EmptyFrameBlocks(fs, ds, z);
      assert ds[..z] == Deliveries(ms[..z]);
      assert |ds[..z]| < |ds|;
    }
  }

  function FirstEmpty(ms: seq<Message>): (z: nat)
    requires exists i :: 0 <= i < |ms| && ms[i].Length() == 0
    ensures z < |ms| && ms[z].Length() == 0 && forall i :: 0 <= i < z ==> ms[i].Length() > 0
  {
    if ms[0].Length() == 0 then 0 else
      assert forall i :: 0 < i < |ms| ==> ms[i] == ms[1..][i - 1];
      1 + FirstEmpty(ms[1..])
  }

  // ------------------------------------------------- receiver, as written

  datatype Outcome = Completed | HeaderOverrun | CopyFailed

  /**
   The receiver's fields. `delivered` records the callback's invocations. `overrun` is set instead of the
   store that would leave `header`.
   */
  class TcpMessageHandler {
    const header: array<Byte>
    var headerIndex: int
    var proto: nat
    var metaLength: nat
    var messageLength: nat
    var messageBuffer: array<Byte>
    var remainingLength: nat
    var lastCopyLen: nat
    var delivered: seq<Delivery>
    var overrun: bool

    /** Indices stay in bounds, and copied plus remaining bytes make up the announced length. */
    ghost predicate Valid()
      reads this, header, messageBuffer
    {
      && header.Length == HEADER_LEN && header != messageBuffer
      && -1 <= headerIndex < HEADER_LEN
      && (headerIndex < HEADER_LEN - 1 ==> remainingLength == 0 && lastCopyLen == 0)
      && (headerIndex == HEADER_LEN - 1 ==>
          && proto == HeaderProto(header[..])
          && metaLength == HeaderMetaLength(header[..])
          && messageLength == HeaderLength(header[..]) == messageBuffer.Length
          && lastCopyLen + remainingLength == messageLength
          && (remainingLength == 0 ==> messageLength == 0))
    }

    ghost function View(): (p: Parser)
      requires Valid()
      reads this, header, messageBuffer
      ensures p.Valid()
    {
      assert headerIndex == HEADER_LEN - 1 ==> header[..headerIndex + 1] == header[..];
      Parser(header[..headerIndex + 1],
             if headerIndex == HEADER_LEN - 1 then messageBuffer[..lastCopyLen] else [],
             delivered, overrun)
    }

    constructor ()
      ensures Valid() && View() == START && fresh(header) && fresh(messageBuffer)
    {
      header := new Byte[HEADER_LEN](_ => 0);
      messageBuffer := new Byte[0];
      headerIndex := -1;
      proto, metaLength, messageLength := 0, 0, 0;
      remainingLength, lastCopyLen := 0, 0;
      delivered, overrun := [], false;
    }

    /** Stores header bytes from `pos` on until the header is full or the chunk is used up. */
    method StoreHeaderBytes(chunk: seq<Byte>, pos: nat) returns (next: nat)
      requires header.Length == HEADER_LEN && pos < |chunk| && -1 <= headerIndex < HEADER_LEN - 1
      modifies `headerIndex, header
      ensures -1 <= old(headerIndex) < headerIndex < HEADER_LEN
      ensures pos < next <= |chunk| && (next < |chunk| ==> headerIndex == HEADER_LEN - 1)
      ensures header[..headerIndex + 1] == old(header[..headerIndex + 1]) + chunk[pos..next]
    {
      next := pos;
      while next < |chunk| && headerIndex < HEADER_LEN - 1
        invariant pos <= next <= |chunk| && headerIndex == old(headerIndex) + next - pos <= HEADER_LEN - 1
        invariant header[..headerIndex + 1] == old(header[..headerIndex + 1]) + chunk[pos..next]
      {
        headerIndex := headerIndex + 1;
        header[headerIndex] := chunk[next];
        assert header[..headerIndex + 1] == header[..headerIndex] + [chunk[next]];
        assert chunk[pos..next + 1] == chunk[pos..next] + [chunk[next]];
        next := next + 1;
      }
    }

    /** Header bytes from `pos` on; a full header is decoded and a buffer of the announced length allocated. */
    method FillHeader(chunk: seq<Byte>, pos: nat) returns (next: nat)
      requires Valid() && pos < |chunk| && headerIndex < HEADER_LEN - 1 && !overrun
      modifies this, header
      ensures Valid() && !overrun && (messageBuffer == old(messageBuffer) || fresh(messageBuffer))
      ensures pos < next <= |chunk| && (next < |chunk| ==> headerIndex == HEADER_LEN - 1)
      ensures View() == FeedAll(old(View()), chunk[pos..next]) && delivered == old(delivered)
    {
      hide FeedAll, Feed, HeaderProto, HeaderMetaLength, HeaderLength;
      ghost var p := View();
      next := StoreHeaderBytes(chunk, pos);
      HeaderRun(p, chunk[pos..next]);
      if headerIndex == HEADER_LEN - 1 {
        assert header[..] == header[..headerIndex + 1];
        proto := HeaderProto(header[..]);
        metaLength := HeaderMetaLength(header[..]);
        messageLength := HeaderLength(header[..]);
        remainingLength := messageLength;
        messageBuffer := new Byte[remainingLength](_ => 0);
      }
    }

    /** Copies as much of the pending body as the chunk holds, and hands a completed message on. */
    method FillBody(chunk: seq<Byte>, pos: nat) returns (outcome: Outcome, next: nat)
      requires Valid() && pos < |chunk| && remainingLength > 0 && headerIndex == HEADER_LEN - 1 && !overrun
      modifies this, messageBuffer
      ensures messageBuffer == old(messageBuffer) && overrun == old(overrun)
      ensures outcome == Completed || (outcome == CopyFailed && |chunk| > MEM_MAX_LEN && delivered == old(delivered))
      ensures outcome == Completed ==> Valid() && pos < next <= |chunk|
      ensures outcome == Completed ==> next < |chunk| ==> remainingLength == 0 && headerIndex == -1
      ensures outcome == Completed ==> View() == FeedAll(old(View()), chunk[pos..next])
    {
      hide FeedAll, Feed, HeaderProto, HeaderMetaLength, HeaderLength;
      ghost var p := View();
      assert header[..headerIndex + 1] == header[..];
      var copyLen := if remainingLength <= |chunk| - pos then remainingLength else |chunk| - pos;
      next := pos + copyLen;
      ghost var run := chunk[pos..next];
      remainingLength := remainingLength - copyLen;
      if copyLen > MEM_MAX_LEN {
        lastCopyLen := lastCopyLen + copyLen;
        return CopyFailed, next;
      }
      forall j | 0 <= j < copyLen {
        messageBuffer[lastCopyLen + j] := chunk[pos + j];
      }
      lastCopyLen := lastCopyLen + copyLen;
      assert messageBuffer[..lastCopyLen] == p.body + run;
      assert header[..] == p.header;
      if remainingLength == 0 {
        BodyCompletion(p, run);
        assert messageBuffer[..] == messageBuffer[..lastCopyLen];
        delivered := delivered + [Delivery(proto, metaLength, messageBuffer[..])];
        headerIndex := -1;
        lastCopyLen := 0;
        assert header[..headerIndex + 1] == [];
      } else {
        BodyRun(p, run);
      }
      return Completed, next;
    }

    /** One round of the receive loop: some header bytes, then some body bytes. */
    method ReceiveRun(chunk: seq<Byte>, pos: nat) returns (outcome: Outcome, next: nat)
      requires Valid() && !overrun && pos < |chunk|
      modifies this, header, messageBuffer
      ensures outcome == CopyFailed ==> |chunk| > MEM_MAX_LEN && delivered == old(delivered) && !overrun
      ensures outcome != CopyFailed ==> Valid() && pos < next <= |chunk| && (overrun <==> outcome == HeaderOverrun)
      ensures outcome != CopyFailed ==> View() == FeedAll(old(View()), chunk[pos..next])
      ensures messageBuffer == old(messageBuffer) || fresh(messageBuffer)
    {
      hide FeedAll, Feed, HeaderProto, HeaderMetaLength, HeaderLength;
      ghost var p := View();
      next := pos;
      if remainingLength == 0 {
        if headerIndex == HEADER_LEN - 1 {
          assert header[..headerIndex + 1] == header[..];
          overrun := true;
          StuckThenOverrun(p, chunk[pos..pos + 1]);
          return HeaderOverrun, pos + 1;
        }
        next := FillHeader(chunk, pos);
      }
      outcome := Completed;
      if remainingLength > 0 && next < |chunk| {
        ghost var middle := next;
        FeedNothing(p, chunk[pos..]);
        outcome, next := FillBody(chunk, next);
        if outcome == Completed {
          FeedAllConcat(p, chunk[pos..middle], chunk[middle..next]);
          assert chunk[pos..next] == chunk[pos..middle] + chunk[middle..next];
        }
      }
    }

    /**
     Receives one chunk. Unless a copy larger than `memcpy_s` accepts is attempted, the receiver ends in
     exactly the state that the bytes, one at a time, lead to. If one is, what was delivered is what some
     of the bytes lead to.
     */
    method ReceiveMessage(chunk: seq<Byte>) returns (outcome: Outcome)
      requires Valid() && !overrun
      modifies this, header, messageBuffer
      ensures outcome == CopyFailed ==> |chunk| > MEM_MAX_LEN && !overrun
      ensures outcome == CopyFailed ==>
        exists n :: 0 <= n < |chunk| && delivered == FeedAll(old(View()), chunk[..n]).delivered
      ensures outcome != CopyFailed ==> Valid() && View() == FeedAll(old(View()), chunk)
      ensures outcome == Completed ==> !overrun
      ensures outcome == HeaderOverrun ==> overrun
      ensures messageBuffer == old(messageBuffer) || fresh(messageBuffer)
    {
      hide FeedAll, Feed, HeaderProto, HeaderMetaLength, HeaderLength, Valid;
      ghost var p := View();
      var pos := 0;
      FeedNothing(p, chunk);
      while pos < |chunk|
        invariant 0 <= pos <= |chunk| && Valid() && !overrun
        invariant messageBuffer == old(messageBuffer) || fresh(messageBuffer)
        invariant View() == FeedAll(p, chunk[..pos])
      {
        ghost var start := pos;
        outcome, pos := ReceiveRun(chunk, pos);
        if outcome == CopyFailed {
          return;
        }
        FeedSlice(p, chunk, start, pos);
        if outcome == HeaderOverrun {
          FeedRest(p, chunk, pos);
          return;
        }
      }
      assert chunk[..pos] == chunk;
      return Completed;
    }

    /**
     The read loop: passes on chunk after chunk, each no longer than the read buffer. With the framing
     law, a stream of non-empty messages comes out as sent however it is cut.
     */
    method ReadAll(chunks: seq<seq<Byte>>, ghost ms: seq<Message>) returns (outcome: Outcome)
      requires Valid() && View() == START
      requires forall i :: 0 <= i < |chunks| ==> |chunks[i]| <= MEM_MAX_LEN
      requires forall i :: 0 <= i < |ms| ==> ms[i].Sendable() && ms[i].Length() > 0
      requires Flatten(chunks) == EncodeAll(ms)
      modifies this, header, messageBuffer
      ensures outcome == Completed && Valid() && View() == START.(delivered := Deliveries(ms))
    {
      FramingLaw(ms, chunks);
      assert chunks[0..] == chunks;
      for i := 0 to |chunks|
        invariant Valid() && !overrun
        invariant messageBuffer == old(messageBuffer) || fresh(messageBuffer)
        invariant FeedChunks(View(), chunks[i..]) == START.(delivered := Deliveries(ms))
      {
        assert chunks[i..][1..] == chunks[i + 1..];
        ghost var before := View();
        outcome := ReceiveMessage(chunks[i]);
        if outcome == HeaderOverrun {
          OverrunStays(View(), chunks[i + 1..]);
          assert false;
        }
      }
      return Completed;
    }
  }

  /** A way of cutting streams into reads, none larger than one copy accepts. */
  ghost predicate Cuts(cut: seq<Byte> -> seq<seq<Byte>>) {
    forall s :: Flatten(cut(s)) == s && forall i :: 0 <= i < |cut(s)| ==> |cut(s)[i]| <= MEM_MAX_LEN
  }

  /** Sender and receiver together: whatever the cut, the non-empty messages sent are the messages delivered. */
  method Exchange(ms: seq<Message>, cut: seq<Byte> -> seq<seq<Byte>>) returns (delivered: seq<Delivery>)
    requires Cuts(cut) && forall i :: 0 <= i < |ms| ==> ms[i].Sendable() && ms[i].Length() > 0
    ensures delivered == Deliveries(ms)
  {
    hide EncodeAll, Flatten;
    var sender := new TcpSender();
    sender.SendAll(ms);
    assert [] + EncodeAll(ms) == EncodeAll(ms);
    var receiver := new TcpMessageHandler();
    var outcome := receiver.ReadAll(cut(sender.output), ms);
    delivered := receiver.delivered;
  }

  lemma {:induction false} OverrunStays(p: Parser, chunks: seq<seq<Byte>>)
    requires p.Valid() && p.overrun
    ensures FeedChunks(p, chunks) == p
    decreases |chunks|
  {
    if chunks != [] {
      OverrunIsFinal(p, chunks[0]);
      OverrunStays(p, chunks[1..]);
    }
  }
}
