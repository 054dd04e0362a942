/** The length-prefixed framing of gnet/datapack.go over a byte stream. */
module Framing {
  import opened Options
  import opened Binary

  datatype FrameError = LengthMismatch | TooLarge | BadHeader | EndOfStream

  datatype Message = Message(id: uint32, dataLen: uint32, data: seq<byte>)

  /** NewMsgPackage converts the payload length to 32 bits. */
  function NewMsgPackage(id: uint32, data: seq<byte>): Message {
    Message(id, |data| % TWO32, data)
  }

  /** The packet written for a message; limit 0 means no limit. */
  function Pack(m: Message, limit: uint32): Result<seq<byte>, FrameError> {
    if m.dataLen != |m.data| % TWO32 then Err(LengthMismatch)
    else if limit > 0 && m.dataLen > limit then Err(TooLarge)
    else Ok(PutU32(m.dataLen) + PutU32(m.id) + m.data)
  }

  /** The header read back; the data is not filled in. */
  function Unpack(header: seq<byte>, limit: uint32): Result<Message, FrameError> {
    if |header| % TWO32 != 8 then Err(BadHeader)
    else
      var m := Message(GetU32(header[4..]), GetU32(header), []);
      if limit > 0 && m.dataLen > limit then Err(TooLarge) else Ok(m)
  }

  /** What one ReadMessage call makes of the bytes still to come: its result and the bytes left. */
  function ParseOne(stream: seq<byte>, limit: uint32): (Result<Message, FrameError>, seq<byte>) {
    if |stream| < 8 then (Err(EndOfStream), [])
    else
      match Unpack(stream[..8], limit)
      case Err(e) => (Err(e), stream[8..])
      case Ok(m) =>
        if |stream| - 8 < m.dataLen then (Err(EndOfStream), [])
        else (Ok(m.(data := stream[8..8 + m.dataLen])), stream[8 + m.dataLen..])
  }

  /** The messages a peer reads until its first error. */
  function ParseAll(stream: seq<byte>, limit: uint32): seq<Message>
    decreases |stream|
  {
    var (r, rest) := ParseOne(stream, limit);
    if r.Ok? then [r.value] + ParseAll(rest, limit) else []
  }

  lemma ParseStep(stream: seq<byte>, limit: uint32)
    ensures var (r, rest) := ParseOne(stream, limit);
            && ParseAll(stream, limit) == (if r.Ok? then [r.value] + ParseAll(rest, limit) else [])
            && (r.Ok? ==> |rest| < |stream|)
  {
  }

  function Frame(m: Message): seq<byte> { PutU32(m.dataLen) + PutU32(m.id) + m.data }

  /** The packets of these messages, one after the other. */
  function Frames(messages: seq<Message>): seq<byte> {
    if messages == [] then [] else Frame(messages[0]) + Frames(messages[1..])
  }

  /** The receiver accepts the length, and the length is the real one. */
  predicate Sendable(m: Message, limit: uint32) {
    m.dataLen == |m.data| && (limit == 0 || m.dataLen <= limit)
  }

  lemma HeaderOf(m: Message, rest: seq<byte>)
    ensures var s := Frame(m) + rest; GetU32(s[..8]) == m.dataLen && GetU32(s[..8][4..]) == m.id
  {
    var s := Frame(m) + rest;
    GetPut(m.dataLen, PutU32(m.id));
    GetPut(m.id, []);
    assert s[..8] == PutU32(m.dataLen) + PutU32(m.id);
    assert s[..8][4..] == PutU32(m.id) + [];
  }

  /** Reading one packet, whatever follows it, gives the message and leaves what follows. */
  lemma ParseFrame(m: Message, rest: seq<byte>, limit: uint32)
    requires Sendable(m, limit)
    ensures ParseOne(Frame(m) + rest, limit) == (Ok(m), rest)
  {
    var s := Frame(m) + rest;
    HeaderOf(m, rest);
    assert |s[..8]| == 8;
    assert s[8..8 + m.dataLen] == m.data;
    assert s[8 + m.dataLen..] == rest;
  }

  /** A packet cut short is never taken for a message. */
  lemma ParseCut(m: Message, cut: seq<byte>, limit: uint32)
    requires Sendable(m, limit) && cut <= Frame(m) && |cut| < |Frame(m)|
    ensures ParseOne(cut, limit).0 == Err(EndOfStream)
  {
    if |cut| >= 8 {
      HeaderOf(m, []);
      assert cut[..8] == (Frame(m) + [])[..8];
    }
  }

  lemma TailTake<T>(s: seq<T>, k: nat)
    requires k < |s|
    ensures s[..k + 1][1..] == s[1..][..k]
  {
  }

  lemma ParseNothing(limit: uint32)
    ensures ParseOne([], limit).0 == Err(EndOfStream)
  {
  }

  /** Of a prefix of the packets of some messages the peer reads exactly the messages that are complete. */
  lemma {:induction false} ParsePrefix(messages: seq<Message>, stream: seq<byte>, limit: uint32) returns (k: nat)
    requires forall m :: m in messages ==> Sendable(m, limit)
    requires stream <= Frames(messages)
    ensures k <= |messages| && ParseAll(stream, limit) == messages[..k]
    ensures Frames(messages[..k]) <= stream
    ensures k < |messages| ==> |stream| < |Frames(messages[..k + 1])|
    decreases |messages|
  {
    hide ParseOne;
    if messages == [] {
      ParseNothing(limit);
      return 0;
    }
    var m := messages[0];
    if |stream| < |Frame(m)| {
      assert Frames(messages)[..|Frame(m)|] == Frame(m);
      ParseCut(m, stream, limit);
      assert messages[..1] == [m] && messages[..1][1..] == [];
      return 0;
    }
    var rest := stream[|Frame(m)|..];
    assert stream == Frame(m) + rest by {
      assert Frames(messages)[..|Frame(m)|] == Frame(m);
    }
    assert rest <= Frames(messages[1..]);
    ParseFrame(m, rest, limit);
    var j := ParsePrefix(messages[1..], rest, limit);
    k := j + 1;
    TailTake(messages, j);
    if k < |messages| {
      TailTake(messages, j + 1);
    }
  }

  /** Complete packets are read whatever follows them. */
  lemma {:induction false} ParseFrames(messages: seq<Message>, rest: seq<byte>, limit: uint32)
    requires forall m :: m in messages ==> Sendable(m, limit)
    ensures ParseAll(Frames(messages) + rest, limit) == messages + ParseAll(rest, limit)
  {
    hide ParseOne, Frame, Sendable;
    if messages == [] {
      assert Frames(messages) + rest == rest;
    } else {
      var tail := Frames(messages[1..]) + rest;
      assert Frames(messages) + rest == Frame(messages[0]) + tail;
      ParseFrame(messages[0], tail, limit);
      ParseStep(Frame(messages[0]) + tail, limit);
      ParseFrames(messages[1..], rest, limit);
    }
  }

  lemma {:induction false} FramesSplit(messages: seq<Message>, k: nat)
    requires k <= |messages|
    ensures Frames(messages) == Frames(messages[..k]) + Frames(messages[k..])
  {
    hide Frame;
    if k > 0 {
      FramesSplit(messages[1..], k - 1);
      assert messages[..k][1..] == messages[1..][..k - 1] && messages[1..][k - 1..] == messages[k..];
    }
  }

  /** Nothing that is read is 2^32 bytes long. */
  lemma {:induction false} ParsedIsShort(stream: seq<byte>, limit: uint32)
    ensures forall m :: m in ParseAll(stream, limit) ==> |m.data| < TWO32
    decreases |stream|
  {
    var (r, rest) := ParseOne(stream, limit);
    ParseStep(stream, limit);
    if r.Ok? {
      ParsedIsShort(rest, limit);
    }
  }

  /** How many messages come before the first whose length does not fit 32 bits. */
  function Untruncated(messages: seq<Message>): (n: nat)
    ensures n <= |messages| && (forall i :: 0 <= i < n ==> |messages[i].data| < TWO32)
    ensures n < |messages| ==> |messages[n].data| >= TWO32
  {
    if messages == [] || |messages[0].data| >= TWO32 then 0 else 1 + Untruncated(messages[1..])
  }

  /** What a packet looks like: length, message number, payload, the numbers with their lowest byte first. A message
      is packed exactly if its length field is within the limit. */
  lemma PacketLayout(id: uint32, data: seq<byte>, limit: uint32)
    ensures var r := Pack(NewMsgPackage(id, data), limit);
            if limit == 0 || |data| % TWO32 <= limit then
              && r.Ok? && |r.value| == 8 + |data| && r.value[8..] == data
              && LowestFirst(r.value[..4]) == |data| % TWO32 && LowestFirst(r.value[4..8]) == id
            else r == Err(TooLarge)
  {
    var r := Pack(NewMsgPackage(id, data), limit);
    if r.Ok? {
      var n: uint32 := |data| % TWO32;
      assert r.value[..4] == PutU32(n) && r.value[4..8] == PutU32(id);
      LowestFirstPut(n);
      LowestFirstPut(id);
    }
  }

  /** The number with these bytes, the lowest first. */
  function LowestFirst(bytes: seq<byte>): nat { if bytes == [] then 0 else bytes[0] + 256 * LowestFirst(bytes[1..]) }

  lemma LowestFirstPut(n: uint32)
    ensures LowestFirst(PutU32(n)) == n
  {
    GetPut(n, []);
    var b := PutU32(n);
    assert b + [] == b;
    assert LowestFirst(b[1..][1..][1..][1..]) == 0;
    assert LowestFirst(b[1..][1..][1..]) == b[3];
    var b1: int, b2: int, b3: int := b[1], b[2], b[3];
    assert LowestFirst(b[1..][1..]) == b2 + 256 * b3;
    assert LowestFirst(b[1..]) == b1 + 256 * (b2 + 256 * b3);
  }

  /** A header that announces more than the receiver's limit is refused. */
  lemma OversizeRefused(m: Message, rest: seq<byte>, limit: uint32)
    requires limit > 0 && m.dataLen > limit
    ensures ParseOne(Frame(m) + rest, limit).0 == Err(TooLarge)
  {
    HeaderOf(m, rest);
    assert |(Frame(m) + rest)[..8]| == 8;
  }

  /** Packing a payload and reading it back gives the payload if and only if its length fits 32 bits. */
  lemma RoundTrip(id: uint32, data: seq<byte>, limit: uint32, rest: seq<byte>)
    requires Pack(NewMsgPackage(id, data), limit).Ok?
    ensures var packet := Pack(NewMsgPackage(id, data), limit).value;
            ParseOne(packet + rest, limit) == (Ok(NewMsgPackage(id, data)), rest) <==> |data| < TWO32
  {
    var m := NewMsgPackage(id, data);
    if |data| < TWO32 {
      ParseFrame(m, rest, limit);
    } else {
      HeaderOf(m, rest);
      assert |(Frame(m) + rest)[..8]| == 8;
      var (r, left) := ParseOne(Frame(m) + rest, limit);
      assert r.Ok? ==> |r.value.data| == m.dataLen;
    }
  }

  /** The shortest payload that is lost: the packet of 2^32 zero bytes reads back as an empty message. */
  lemma TruncatedLength(id: uint32)
    ensures var data := seq(TWO32, i => 0);
            var packet := Pack(NewMsgPackage(id, data), 0);
            packet.Ok? && ParseOne(packet.value, 0).0 == Ok(Message(id, 0, []))
  {
    var data: seq<byte> := seq(TWO32, i => 0);
    var m := NewMsgPackage(id, data);
    HeaderOf(m, []);
    var s := Frame(m);
    assert s + [] == s;
    assert |s[..8]| == 8;
    assert s[8..8] == [];
  }

  /** A reader that hands out its bytes in arbitrary pieces, as a TCP connection does. */
  class ChunkReader {
    var chunks: seq<seq<byte>>

    /** The bytes still to come. */
    ghost function Rest(): seq<byte> reads this { Join(chunks) }

    constructor (chunks: seq<seq<byte>>)
      ensures this.chunks == chunks
    {
      this.chunks := chunks;
    }

    /** At most n bytes of the next piece; more is false at the end of the stream. */
    method Read(n: nat) returns (got: seq<byte>, more: bool)
      modifies this
      ensures |got| <= n && old(Rest()) == got + Rest()
      ensures !more ==> got == [] && Rest() == []
      ensures more && n > 0 ==> |chunks| < |old(chunks)| || |got| > 0
      ensures |chunks| <= |old(chunks)|
    {
      if chunks == [] {
        return [], false;
      }
      var c := chunks[0];
      more := true;
      if |c| <= n {
        got, chunks := c, chunks[1..];
      } else {
        got, chunks := c[..n], [c[n..]] + chunks[1..];
        assert chunks[1..] == old(chunks)[1..];
      }
    }

    /** io.ReadFull: n bytes, or a failure that has consumed what there was. */
    method ReadFull(n: nat) returns (got: seq<byte>, ok: bool)
      modifies this
      ensures ok <==> |old(Rest())| >= n
      ensures ok ==> got == old(Rest())[..n] && Rest() == old(Rest())[n..]
      ensures !ok ==> Rest() == []
    {
      got := [];
      while |got| < n
        invariant |got| <= n && old(Rest()) == got + Rest()
        decreases n - |got|, |chunks|
      {
        var piece, more := Read(n - |got|);
        got := got + piece;
        if !more {
          return got, false;
        }
      }
      ok := true;
    }

    /** DataPack.ReadMessage: its result depends on the bytes only, not on the pieces they come in. */
    method ReadMessage(limit: uint32) returns (r: Result<Message, FrameError>)
      modifies this
      ensures (r, Rest()) == ParseOne(old(Rest()), limit)
    {
      var stream := Rest();
      var header, ok := ReadFull(8);
      if !ok {
        return Err(EndOfStream);
      }
      r := Unpack(header, limit);
      if r.Err? || r.value.dataLen == 0 {
        assert stream[8..8] == [];
        return;
      }
      var m := r.value;
      var data, full := ReadFull(m.dataLen);
      if !full {
        return Err(EndOfStream);
      }
      assert stream[8..][..m.dataLen] == stream[8..8 + m.dataLen];
      assert stream[8..][m.dataLen..] == stream[8 + m.dataLen..];
      r := Ok(m.(data := data));
    }

    /** A peer looping ReadMessage until its first error. */
    method ReadAll(limit: uint32) returns (messages: seq<Message>)
      modifies this
      ensures messages == ParseAll(old(Rest()), limit)
    {
      hide ParseAll, ParseOne, Join;
      messages := [];
      var going := true;
      while going
        invariant ParseAll(old(Rest()), limit) == messages + if going then ParseAll(Rest(), limit) else []
        decreases going, |Rest()|
      {
        ParseStep(Rest(), limit);
        var r := ReadMessage(limit);
        if r.Ok? {
          messages := messages + [r.value];
        } else {
          going := false;
        }
      }
    }
  }

  function Join(chunks: seq<seq<byte>>): seq<byte> {
    if chunks == [] then [] else chunks[0] + Join(chunks[1..])
  }
}
