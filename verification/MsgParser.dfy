/**
 The second framing of the repository: an 8-byte header of magic number and length, both in network
 order, ahead of every message. The receiver buffers everything it has not used yet and, after every
 chunk, takes as many headers and messages off the front as are complete.
 */
module MsgParser {
  import opened Bytes

  const MAGIC: nat := 0x372947
  /** The length that stands for "no header read yet". */
  const NO_LENGTH: nat := 0xFFFFFFFF
  const HEADER_SIZE: nat := 8

  /** What the callback is told: a message, or a format error. */
  datatype Event = Arrived(message: seq<Byte>) | FormatError

  datatype State = State(length: nat, buffer: seq<Byte>, events: seq<Event>)

  const START: State := State(NO_LENGTH, [], [])

  function Encode(m: seq<Byte>): seq<Byte> {
    BigEndian(MAGIC, 4) + BigEndian(|m| % U32_LIMIT, 4) + m
  }

  function EncodeAll(ms: seq<seq<Byte>>): seq<Byte> {
    if ms == [] then [] else Encode(ms[0]) + EncodeAll(ms[1..])
  }

  class MsgClient {
    var output: seq<Byte>

    constructor ()
      ensures output == []
    {
      output := [];
    }

    /** Writes the header and then the message; a length beyond 32 bits is cut off. */
    method SendMsg(m: seq<Byte>)
      modifies this
      ensures output == old(output) + Encode(m)
    {
      hide BigEndian;
      var header := BigEndian(MAGIC, 4);
      header := header + BigEndian(|m| % U32_LIMIT, 4);
      output := output + header;
      output := output + m;
    }

    /** Message after message: the stream that carries them all. */
    method SendAll(ms: seq<seq<Byte>>)
      modifies this
      ensures output == old(output) + EncodeAll(ms)
    {
      hide Encode;
      for i := 0 to |ms|
        invariant output + EncodeAll(ms[i..]) == old(output) + EncodeAll(ms)
      {
        assert ms[i..][1..] == ms[i + 1..];
        SendMsg(ms[i]);
      }
      assert ms[|ms|..] == [];
    }
  }

  function HeaderEvents(header: seq<Byte>): seq<Event>
    requires |header| >= 4
  {
    if FromBigEndian(header[..4]) == MAGIC then [] else [FormatError]
  }

  predicate CanTake(s: State) {
    |s.buffer| >= s.length || (s.length == NO_LENGTH && |s.buffer| >= HEADER_SIZE)
  }

  /** One round: takes a header when none is known, and otherwise the message it announced. */
  function Take(s: State): State
    requires CanTake(s)
  {
    if s.length == NO_LENGTH then
      State(FromBigEndian(s.buffer[4..8]), s.buffer[HEADER_SIZE..], s.events + HeaderEvents(s.buffer))
    else
      State(NO_LENGTH, s.buffer[s.length..], s.events + [Arrived(s.buffer[..s.length])])
  }

  function Drain(s: State): (r: State)
    ensures !CanTake(r)
    decreases |s.buffer|, if s.length == NO_LENGTH then 0 else 1
  {
    if CanTake(s) then Drain(Take(s)) else s
  }

  function Parse(s: State, chunk: seq<Byte>): State {
    Drain(s.(buffer := s.buffer + chunk))
  }

  function ParseChunks(s: State, chunks: seq<seq<Byte>>): State
    decreases |chunks|
  {
    if chunks == [] then s else ParseChunks(Parse(s, chunks[0]), chunks[1..])
  }

  /** Draining early makes no difference to what is drained in the end. */
  lemma {:induction false} DrainAppend(s: State, c: seq<Byte>)
    ensures Drain(s.(buffer := s.buffer + c)) == Drain(Drain(s).(buffer := Drain(s).buffer + c))
    decreases |s.buffer|, if s.length == NO_LENGTH then 0 else 1
  {
    if CanTake(s) {
      TakeAppend(s, c);
      DrainAppend(Take(s), c);
    }
  }

  lemma TakeAppend(s: State, c: seq<Byte>)
    requires CanTake(s)
    ensures CanTake(s.(buffer := s.buffer + c))
    ensures Take(s.(buffer := s.buffer + c)) == Take(s).(buffer := Take(s).buffer + c)
  {
    var b := s.buffer + c;
    if s.length == NO_LENGTH {
      assert b[4..8] == s.buffer[4..8] && b[..4] == s.buffer[..4];
      assert b[HEADER_SIZE..] == s.buffer[HEADER_SIZE..] + c;
    } else {
      assert b[s.length..] == s.buffer[s.length..] + c;
      assert b[..s.length] == s.buffer[..s.length];
    }
  }

  /** Cutting the stream has no effect, from any state that a parse can leave behind. */
  lemma {:induction false} ChunkingIrrelevant(s: State, chunks: seq<seq<Byte>>)
    requires !CanTake(s)
    ensures ParseChunks(s, chunks) == Parse(s, Flatten(chunks))
    decreases |chunks|
  {
    if chunks == [] {
      assert s.buffer + [] == s.buffer;
    } else {
      var c, rest := chunks[0], Flatten(chunks[1..]);
      ChunkingIrrelevant(Parse(s, c), chunks[1..]);
      DrainAppend(s.(buffer := s.buffer + c), rest);
      assert s.buffer + c + rest == s.buffer + (c + rest);
    }
  }

  /** A well-sized message at the front of the buffer is taken whole, in two rounds. */
  lemma MessageTaken(events: seq<Event>, m: seq<Byte>, rest: seq<Byte>)
    requires |m| < NO_LENGTH
    ensures Drain(State(NO_LENGTH, Encode(m) + rest, events)) == Drain(State(NO_LENGTH, rest, events + [Arrived(m)]))
  {
    hide BigEndian, FromBigEndian;
    var b := Encode(m) + rest;
    Pow256Widths();
    BigEndianRoundTrip(MAGIC, 4);
    BigEndianRoundTrip(|m|, 4);
    assert b[..4] == BigEndian(MAGIC, 4);
    assert b[4..8] == BigEndian(|m|, 4);
    assert b[HEADER_SIZE..] == m + rest;
    var s := State(NO_LENGTH, b, events);
    var s1 := State(|m|, m + rest, events);
    assert Take(s) == s1;
    assert s1.buffer[..|m|] == m && s1.buffer[|m|..] == rest;
    assert Take(s1) == State(NO_LENGTH, rest, events + [Arrived(m)]);
  }

  function Arrivals(ms: seq<seq<Byte>>): (es: seq<Event>)
    ensures |es| == |ms|
    ensures forall i :: 0 <= i < |ms| ==> es[i] == Arrived(ms[i])
  {
    seq(|ms|, i requires 0 <= i < |ms| => Arrived(ms[i]))
  }

  lemma {:induction false} StreamTaken(events: seq<Event>, ms: seq<seq<Byte>>)
    requires forall i :: 0 <= i < |ms| ==> |ms[i]| < NO_LENGTH
    ensures Drain(State(NO_LENGTH, EncodeAll(ms), events)) == State(NO_LENGTH, [], events + Arrivals(ms))
    decreases |ms|
  {
    hide Encode;
    if ms == [] {
      assert events + Arrivals(ms) == events;
    } else {
      MessageTaken(events, ms[0], EncodeAll(ms[1..]));
      StreamTaken(events + [Arrived(ms[0])], ms[1..]);
      assert events + [Arrived(ms[0])] + Arrivals(ms[1..]) == events + Arrivals(ms);
    }
  }

  ghost predicate ShortEvents(s: State) {
    forall i :: 0 <= i < |s.events| && s.events[i].Arrived? ==> |s.events[i].message| < NO_LENGTH
  }

  /** Whatever comes in, no message of the reserved length or more is ever delivered. */
  lemma {:induction false} OnlyShortMessages(s: State)
    requires ShortEvents(s) && s.length <= NO_LENGTH
    ensures ShortEvents(Drain(s))
    decreases |s.buffer|, if s.length == NO_LENGTH then 0 else 1
  {
    if CanTake(s) {
      if s.length == NO_LENGTH {
        BigEndianBound(s.buffer[4..8]);
        Pow256Widths();
      }
      OnlyShortMessages(Take(s));
    }
  }

  lemma {:induction false} BigEndianBound(s: seq<Byte>)
    ensures FromBigEndian(s) < Pow256(|s|)
  {
    if s != [] {
      BigEndianBound(s[..|s| - 1]);
    }
  }

  /**
   The framing law, for every list of messages (empty ones included) and every way of cutting the
   encoded stream: exactly the sent messages arrive, in order and with no format error, if and only if
   every message is shorter than the length reserved for "no header".
   */
  lemma FramingLaw(ms: seq<seq<Byte>>, chunks: seq<seq<Byte>>)
    requires Flatten(chunks) == EncodeAll(ms)
    ensures ParseChunks(START, chunks).events == Arrivals(ms) <==> (forall i :: 0 <= i < |ms| ==> |ms[i]| < NO_LENGTH)
    ensures (forall i :: 0 <= i < |ms| ==> |ms[i]| < NO_LENGTH) ==>
      ParseChunks(START, chunks) == START.(events := Arrivals(ms))
  {
    hide Drain, Encode;
    ChunkingIrrelevant(START, chunks);
    assert [] + EncodeAll(ms) == EncodeAll(ms);
    if forall i :: 0 <= i < |ms| ==> |ms[i]| < NO_LENGTH {
      StreamTaken([], ms);
      assert [] + Arrivals(ms) == Arrivals(ms);
    } else {
      var i :| 0 <= i < |ms| && |ms[i]| >= NO_LENGTH;
      OnlyShortMessages(State(NO_LENGTH, EncodeAll(ms), []));
      assert Arrivals(ms)[i] == Arrived(ms[i]);
    }
  }

  /** The header on the wire: the magic number and the length, each most significant byte first. */
  lemma HeaderLayout(m: seq<Byte>)
    requires |m| < U32_LIMIT
    ensures var h := Encode(m);
      && |h| == 8 + |m| && h[..4] == [0x00, 0x37, 0x29, 0x47] && h[8..] == m
      && Word(h[7], h[6], h[5], h[4]) == |m|
  {
    hide BigEndian, FromBigEndian;
    var h := Encode(m);
    Pow256Widths();
    BigEndianRoundTrip(|m|, 4);
    BigEndianRoundTrip(MAGIC, 4);
    assert h[..4] == BigEndian(MAGIC, 4) && h[4..8] == BigEndian(|m|, 4);
    BigEndianFour(h[4..8]);
    MagicBytes(h[..4]);
  }

  lemma MagicBytes(h: seq<Byte>)
    requires |h| == 4
    ensures FromBigEndian(h) == MAGIC <==> h == [0x00, 0x37, 0x29, 0x47]
  {
    BigEndianFour(h);
  }

  lemma {:induction false} DrainExtends(s: State)
    ensures s.events <= Drain(s).events
    decreases |s.buffer|, if s.length == NO_LENGTH then 0 else 1
  {
    if CanTake(s) {
      DrainExtends(Take(s));
    }
  }

  /**
   Wherever a header is due, eight bytes that announce a readable length raise a format error if and only if
   the first four are not the magic number; whatever they announce, other bytes there do raise it.
   */
  lemma FormatErrorLaw(events: seq<Event>, b: seq<Byte>)
    requires |b| >= 8
    ensures b[..4] != [0x00, 0x37, 0x29, 0x47] ==>
      events + [FormatError] <= Drain(State(NO_LENGTH, b, events)).events
    ensures b[..4] == [0x00, 0x37, 0x29, 0x47] && b[4..8] != [0xFF, 0xFF, 0xFF, 0xFF] ==>
      !(events + [FormatError] <= Drain(State(NO_LENGTH, b, events)).events)
  {
    hide FromBigEndian;
    var s := State(NO_LENGTH, b, events);
    var t := Take(s);
    assert Drain(s) == Drain(t);
    MagicBytes(b[..4]);
    DrainExtends(t);
    if b[..4] == [0x00, 0x37, 0x29, 0x47] && b[4..8] != [0xFF, 0xFF, 0xFF, 0xFF] {
      BigEndianFour(b[4..8]);
      assert t.length != NO_LENGTH && t.events == events;
      if CanTake(t) {
        DrainExtends(Take(t));
        assert Take(t).events[|events|].Arrived?;
        assert Drain(s).events[|events|].Arrived?;
      }
    }
  }

  /** The receiver's fields; `events` records the callback's invocations. */
  class Parser {
    var magic: nat
    var length: nat
    var buffer: seq<Byte>
    var events: seq<Event>

    ghost function View(): State
      reads this
    {
      State(length, buffer, events)
    }

    constructor ()
      ensures View() == START
    {
      magic, length, buffer, events := 0, NO_LENGTH, [], [];
    }

    method Receive(chunk: seq<Byte>)
      modifies this
      ensures View() == Parse(old(View()), chunk)
    {
      buffer := buffer + chunk;
      ghost var all := View();
      while |buffer| >= length || (length == NO_LENGTH && |buffer| >= HEADER_SIZE)
        invariant Drain(View()) == Drain(all)
        decreases |buffer|, if length == NO_LENGTH then 0 else 1
      {
        if length == NO_LENGTH {
          if |buffer| >= HEADER_SIZE {
            magic := FromBigEndian(buffer[..4]);
            length := FromBigEndian(buffer[4..8]);
            buffer := buffer[HEADER_SIZE..];
            if magic != MAGIC {
              events := events + [FormatError];
            } else {
              assert events + [] == events;
            }
          }
        } else if |buffer| >= length {
          events := events + [Arrived(buffer[..length])];
          buffer := buffer[length..];
          length := NO_LENGTH;
          magic := 0;
        }
      }
    }

    /** Every read in turn; a stream of messages comes out as it was sent. */
    method ReceiveAll(chunks: seq<seq<Byte>>, ghost ms: seq<seq<Byte>>)
      requires View() == START && Flatten(chunks) == EncodeAll(ms)
      requires forall i :: 0 <= i < |ms| ==> |ms[i]| < NO_LENGTH
      modifies this
      ensures View() == START.(events := Arrivals(ms))
    {
      FramingLaw(ms, chunks);
      assert chunks[0..] == chunks;
      for i := 0 to |chunks|
        invariant ParseChunks(View(), chunks[i..]) == START.(events := Arrivals(ms))
      {
        assert chunks[i..][1..] == chunks[i + 1..];
        Receive(chunks[i]);
      }
    }
  }

  /** Sender and receiver together: whatever the cut, the messages sent are the messages that arrive. */
  method Exchange(ms: seq<seq<Byte>>, cut: seq<Byte> -> seq<seq<Byte>>) returns (events: seq<Event>)
    requires forall i :: 0 <= i < |ms| ==> |ms[i]| < NO_LENGTH
    requires forall s :: Flatten(cut(s)) == s
    ensures events == Arrivals(ms)
  {
    hide EncodeAll, Flatten;
    var sender := new MsgClient();
    sender.SendAll(ms);
    assert [] + EncodeAll(ms) == EncodeAll(ms);
    var receiver := new Parser();
    receiver.ReceiveAll(cut(sender.output), ms);
    events := receiver.events;
  }
}
