/**
 The client's reader over a whole stream (readServerFrame of internal/daemon/ws.go): frames that are
 not masked, reassembled without a ceiling.
 */
module ServerStream {
  import opened WebSocket

  predicate IsControl(f: Frame) {
    f.opcode == PING || f.opcode == PONG
  }

  /** A frame that does not end a message: a ping or a pong, or data that is not final. */
  predicate Goes(f: Frame) {
    |f.payload| <= MAX_FRAME && (IsControl(f) || (f.opcode != CLOSE && !f.final))
  }

  /** One message as a server sends it: frames, ended by a final data frame. */
  datatype Sent = Sent(frames: seq<Frame>, last: Frame)

  ghost predicate Good(m: Sent) {
    && (forall f :: f in m.frames ==> Goes(f))
    && |m.last.payload| <= MAX_FRAME && !IsControl(m.last) && m.last.opcode != CLOSE && m.last.final
  }

  function FramesBytes(fs: seq<Frame>): seq<Byte> {
    if fs == [] then [] else ServerBytes(fs[0]) + FramesBytes(fs[1..])
  }

  function StreamBytes(ms: seq<Sent>): seq<Byte> {
    if ms == [] then [] else FramesBytes(ms[0].frames) + ServerBytes(ms[0].last) + StreamBytes(ms[1..])
  }

  function Carried(fs: seq<Frame>): seq<Byte> {
    if fs == [] then [] else if IsControl(fs[0]) then Carried(fs[1..]) else fs[0].payload + Carried(fs[1..])
  }

  function Pinged(fs: seq<Frame>): seq<seq<Byte>> {
    if fs == [] then [] else if fs[0].opcode == PING then [fs[0].payload] + Pinged(fs[1..]) else Pinged(fs[1..])
  }

  function Whole(m: Sent): seq<Byte> {
    Carried(m.frames) + m.last.payload
  }

  /** What one frame makes of the reading. */
  function AfterFrame(f: Frame, rest: seq<Byte>, got: seq<Byte>, pongs: seq<seq<Byte>>): Read<Message> {
    if f.opcode == CLOSE then Failed(Closed)
    else if f.opcode == PING then ReadServer(rest, got, pongs + [f.payload])
    else if f.opcode == PONG then ReadServer(rest, got, pongs)
    else if f.final then Got(Message(got + f.payload, pongs), rest)
    else ReadServer(rest, got + f.payload, pongs)
  }

  lemma FrameReads(f: Frame, rest: seq<Byte>, got: seq<Byte>, pongs: seq<seq<Byte>>)
    requires |f.payload| <= MAX_FRAME
    ensures ReadServer(ServerBytes(f) + rest, got, pongs) == AfterFrame(f, rest, got, pongs)
  {
    hide FirstByte, LengthBytes, DeclaredLength, ExtraLength, IsFinal, OpcodeIn, SevenIn;
    var len := LengthBytes(|f.payload|, false);
    LengthRoundTrip(|f.payload|, false);
    FirstByteFields(f);
    var s, k := ServerBytes(f) + rest, |len| - 1;
    assert s == [FirstByte(f)] + len + [] + f.payload + rest;
    Slices(FirstByte(f), len, [], f.payload, rest);
    assert s[2..2 + k] == len[1..];
  }

  lemma Split(fs: seq<Frame>, rest: seq<Byte>, got: seq<Byte>, pongs: seq<seq<Byte>>)
    requires fs != []
    ensures FramesBytes(fs) + rest == ServerBytes(fs[0]) + (FramesBytes(fs[1..]) + rest)
    ensures got + Carried(fs) == (if IsControl(fs[0]) then got else got + fs[0].payload) + Carried(fs[1..])
    ensures pongs + Pinged(fs) == (if fs[0].opcode == PING then pongs + [fs[0].payload] else pongs) + Pinged(fs[1..])
  {
    hide ServerBytes;
    var c, p := Carried(fs[1..]), Pinged(fs[1..]);
    assert (got + fs[0].payload) + c == got + (fs[0].payload + c);
    assert (pongs + [fs[0].payload]) + p == pongs + ([fs[0].payload] + p);
  }

  lemma {:induction false} FramesRead(fs: seq<Frame>, rest: seq<Byte>, got: seq<Byte>, pongs: seq<seq<Byte>>)
    requires forall f :: f in fs ==> Goes(f)
    ensures ReadServer(FramesBytes(fs) + rest, got, pongs) == ReadServer(rest, got + Carried(fs), pongs + Pinged(fs))
    decreases |fs|
  {
    hide ReadServer, ServerBytes;
    if fs == [] {
      assert FramesBytes(fs) + rest == rest && got + Carried(fs) == got && pongs + Pinged(fs) == pongs;
    } else {
      hide FramesBytes, Carried, Pinged;
      var f, tail := fs[0], fs[1..];
      assert Goes(f);
      Split(fs, rest, got, pongs);
      FrameReads(f, FramesBytes(tail) + rest, got, pongs);
      FramesRead(tail, rest, if IsControl(f) then got else got + f.payload, if f.opcode == PING then pongs + [f.payload] else pongs);
    }
  }

  /** A message comes back whole, whatever its size, however it was cut and whatever control frames
      ran between, with its pings answered in order. */
  lemma MessageReads(m: Sent, rest: seq<Byte>, pongs: seq<seq<Byte>>)
    requires Good(m)
    ensures ReadServer(FramesBytes(m.frames) + ServerBytes(m.last) + rest, [], pongs) ==
            Got(Message(Whole(m), pongs + Pinged(m.frames)), rest)
  {
    hide ReadServer, ServerBytes, FramesBytes, Carried, Pinged;
    var last := ServerBytes(m.last) + rest;
    assert FramesBytes(m.frames) + ServerBytes(m.last) + rest == FramesBytes(m.frames) + last;
    FramesRead(m.frames, last, [], pongs);
    FrameReads(m.last, rest, [] + Carried(m.frames), pongs + Pinged(m.frames));
    assert [] + Carried(m.frames) == Carried(m.frames);
  }

  /** Reading messages until something ends it: the messages, and what ended it. */
  function DecodeAll(s: seq<Byte>): (seq<seq<Byte>>, ReadError)
    decreases |s|
  {
    var r := ReadServer(s, [], []);
    if r.Failed? then ([], r.error)
    else
      var (tail, error) := DecodeAll(r.rest);
      ([r.value.payload] + tail, error)
  }

  function Wholes(ms: seq<Sent>): seq<seq<Byte>> {
    seq(|ms|, i requires 0 <= i < |ms| => Whole(ms[i]))
  }

  /** Repeated reads of a server's stream give exactly its messages, in order, and then the end of it,
      with control frames and an unfinished message after the last. */
  lemma {:induction false} ServerStreamDecodes(ms: seq<Sent>, tail: seq<Frame>)
    requires (forall m :: m in ms ==> Good(m)) && forall f :: f in tail ==> Goes(f)
    ensures DecodeAll(StreamBytes(ms) + FramesBytes(tail)) == (Wholes(ms), Eof)
    decreases |ms|
  {
    hide Whole, Good, Goes, FramesBytes, Carried, Pinged, ServerBytes;
    var s := StreamBytes(ms) + FramesBytes(tail);
    if ms == [] {
      assert s == FramesBytes(tail) + [];
      FramesRead(tail, [], [], []);
      assert ReadServer([], [] + Carried(tail), [] + Pinged(tail)) == Failed(Eof);
      assert ReadServer(s, [], []) == Failed(Eof);
      assert Wholes(ms) == [];
    } else {
      hide ReadServer;
      var m, rest := ms[0], StreamBytes(ms[1..]) + FramesBytes(tail);
      assert s == FramesBytes(m.frames) + ServerBytes(m.last) + rest;
      MessageReads(m, rest, []);
      ServerStreamDecodes(ms[1..], tail);
      assert Wholes(ms) == [Whole(ms[0])] + Wholes(ms[1..]);
    }
  }
}
