/**
 The WebSocket subset of internal/daemon/ws.go: frames as sections 5.2 and 5.3 of RFC 6455 lay
 them out, and messages put back together from fragments with control frames between them, as
 sections 5.4 and 5.5 allow.
 */
module WebSocket {
  import opened Text

  const MAX_FRAME: nat := 4194304

  type Byte = b: int | 0 <= b < 256
  type Opcode = o: int | 0 <= o < 16

  const CONTINUATION: Opcode := 0x0
  const TEXT: Opcode := 0x1
  const BINARY: Opcode := 0x2
  const CLOSE: Opcode := 0x8
  const PING: Opcode := 0x9
  const PONG: Opcode := 0xA

  datatype Frame = Frame(final: bool, opcode: Opcode, payload: seq<Byte>)

  // -------------------------------------------------------------------------
  // The wire format

  /** The k low bytes of n, most significant first. */
  function ToBigEndian(n: nat, k: nat): (bs: seq<Byte>)
    ensures |bs| == k
  {
    if k == 0 then [] else ToBigEndian(n / 256, k - 1) + [n % 256]
  }

  function FromBigEndian(bs: seq<Byte>): nat {
    if bs == [] then 0 else FromBigEndian(bs[..|bs| - 1]) * 256 + bs[|bs| - 1]
  }

  /** Bitwise exclusive or of the k low bits. */
  function XorBits(a: nat, b: nat, k: nat): (r: nat)
    ensures r < Power2(k)
  {
    if k == 0 then 0 else 2 * XorBits(a / 2, b / 2, k - 1) + (if a % 2 == b % 2 then 0 else 1)
  }

  function Power2(k: nat): nat {
    if k == 0 then 1 else 2 * Power2(k - 1)
  }

  function Xor(a: Byte, b: Byte): Byte {
    assert Power2(8) == 2 * 2 * 2 * 2 * Power2(4) == 256;
    XorBits(a, b, 8)
  }

  function LengthBytes(n: nat, masked: bool): seq<Byte> {
    var maskBit := if masked then 128 else 0;
    if n < 126 then [n + maskBit]
    else if n < 65536 then [126 + maskBit] + ToBigEndian(n, 2)
    else [127 + maskBit] + ToBigEndian(n, 8)
  }

  function Masked(key: seq<Byte>, payload: seq<Byte>): seq<Byte>
    requires |key| == 4
  {
    seq(|payload|, i requires 0 <= i < |payload| => Xor(payload[i], key[i % 4]))
  }

  function FirstByte(f: Frame): Byte {
    (if f.final then 128 else 0) + f.opcode
  }

  /** A frame as a client sends it. */
  function ClientBytes(f: Frame, key: seq<Byte>): seq<Byte>
    requires |key| == 4
  {
    [FirstByte(f)] + LengthBytes(|f.payload|, true) + key + Masked(key, f.payload)
  }

  /** A frame as a server sends it. */
  function ServerBytes(f: Frame): seq<Byte> {
    [FirstByte(f)] + LengthBytes(|f.payload|, false) + f.payload
  }

  /** write: always one final frame, masked with a fresh key on the client side. */
  method Write(opcode: Opcode, payload: seq<Byte>, key: Option<seq<Byte>>) returns (out: seq<Byte>)
    requires key.Some? ==> |key.value| == 4
    ensures out == if key.Some? then ClientBytes(Frame(true, opcode, payload), key.value)
                   else ServerBytes(Frame(true, opcode, payload))
  {
    var head := [128 + opcode] + LengthBytes(|payload|, key.Some?);
    if key.None? {
      return head + payload;
    }
    var body := new Byte[|payload|](i => 0);
    for i := 0 to |payload|
      invariant forall k :: 0 <= k < i ==> body[k] == Xor(payload[k], key.value[k % 4])
    {
      body[i] := Xor(payload[i], key.value[i % 4]);
    }
    assert body[..] == Masked(key.value, payload);
    return head + key.value + body[..];
  }

  // -------------------------------------------------------------------------
  // Reading

  datatype ReadError = Eof | ReservedBits | NotMasked | TooLong | Closed | OverCeiling | UnknownOpcode
  datatype Read<+T> = Got(value: T, rest: seq<Byte>) | Failed(error: ReadError)

  // The fields of the two header bytes.
  predicate IsFinal(b: Byte) { b >= 128 }
  predicate HasReservedBits(b: Byte) { b / 16 % 8 != 0 }
  function OpcodeIn(b: Byte): Opcode { b % 16 }
  predicate IsMasked(b: Byte) { b >= 128 }
  function SevenIn(b: Byte): Byte { b % 128 }

  /** How many bytes of extended length follow a seven-bit length. */
  function ExtraLength(seven: Byte): nat {
    if seven == 126 then 2 else if seven == 127 then 8 else 0
  }

  function DeclaredLength(seven: Byte, extra: seq<Byte>): nat {
    if extra == [] then seven else FromBigEndian(extra)
  }

  /** readOne: one masked frame off the front of the unread bytes. */
  function ReadOne(s: seq<Byte>): Read<Frame> {
    if |s| < 2 then Failed(Eof)
    else if HasReservedBits(s[0]) then Failed(ReservedBits)
    else if !IsMasked(s[1]) then Failed(NotMasked)
    else
      var k := ExtraLength(SevenIn(s[1]));
      if |s| < 2 + k then Failed(Eof)
      else
        var n := DeclaredLength(SevenIn(s[1]), s[2..2 + k]);
        if n > MAX_FRAME then Failed(TooLong)
        else if |s| < 6 + k + n then Failed(Eof)
        else Got(Frame(IsFinal(s[0]), OpcodeIn(s[0]), Masked(s[2 + k..6 + k], s[6 + k..6 + k + n])), s[6 + k + n..])
  }

  /** What readFrame hands back: the message, and the payloads of the pings it answered. */
  datatype Message = Message(payload: seq<Byte>, pongs: seq<seq<Byte>>)

  predicate IsData(opcode: Opcode) {
    opcode == CONTINUATION || opcode == TEXT || opcode == BINARY
  }

  /** readFrame, from what was assembled and answered so far. Every frame read consumes input. */
  function ReadMessage(s: seq<Byte>, got: seq<Byte>, pongs: seq<seq<Byte>>): (r: Read<Message>)
    ensures r.Got? ==> |r.rest| < |s|
    decreases |s|
  {
    var one := ReadOne(s);
    if one.Failed? then Failed(one.error)
    else
      var f, rest := one.value, one.rest;
      if f.opcode == CLOSE then Failed(Closed)
      else if f.opcode == PING then ReadMessage(rest, got, pongs + [f.payload])
      else if f.opcode == PONG then ReadMessage(rest, got, pongs)
      else if !IsData(f.opcode) then Failed(UnknownOpcode)
      else if |got + f.payload| > MAX_FRAME then Failed(OverCeiling)
      else if f.final then Got(Message(got + f.payload, pongs), rest)
      else ReadMessage(rest, got + f.payload, pongs)
  }

  /** readServerFrame, which trusts the server more: no mask, no check of reserved bits, of the
      opcode or of the reassembled size. */
  function ReadServer(s: seq<Byte>, got: seq<Byte>, pongs: seq<seq<Byte>>): (r: Read<Message>)
    ensures r.Got? ==> |r.rest| < |s|
    decreases |s|
  {
    if |s| < 2 then Failed(Eof)
    else
      var k, opcode := ExtraLength(SevenIn(s[1])), OpcodeIn(s[0]);
      if |s| < 2 + k then Failed(Eof)
      else
        var n := DeclaredLength(SevenIn(s[1]), s[2..2 + k]);
        if n > MAX_FRAME then Failed(TooLong)
        else if |s| < 2 + k + n then Failed(Eof)
        else
          var payload, rest := s[2 + k..2 + k + n], s[2 + k + n..];
          if opcode == CLOSE then Failed(Closed)
          else if opcode == PING then ReadServer(rest, got, pongs + [payload])
          else if opcode == PONG then ReadServer(rest, got, pongs)
          else if IsFinal(s[0]) then Got(Message(got + payload, pongs), rest)
          else ReadServer(rest, got + payload, pongs)
  }

  /** Unmasking a payload where it lies. */
  method Unmask(payload: array<Byte>, key: seq<Byte>)
    requires |key| == 4
    modifies payload
    ensures payload[..] == Masked(key, old(payload[..]))
  {
    ghost var was := payload[..];
    for i := 0 to payload.Length
      invariant forall j :: 0 <= j < i ==> payload[j] == Xor(was[j], key[j % 4])
      invariant forall j :: i <= j < payload.Length ==> payload[j] == was[j]
    {
      payload[i] := Xor(payload[i], key[i % 4]);
    }
    assert payload[..] == Masked(key, was);
  }

  /** The read side of a connection: bytes are taken off the front of a buffer, and a payload is
      unmasked where it lies. */
  class Connection {
    var unread: seq<Byte>
    var answered: seq<seq<Byte>>

    constructor (bytes: seq<Byte>)
      ensures unread == bytes && answered == []
    {
      unread, answered := bytes, [];
    }

    method ReadFull(n: nat) returns (r: Option<seq<Byte>>)
      modifies this`unread
      ensures r == if |old(unread)| < n then None else Some(old(unread)[..n])
      ensures r.Some? ==> unread == old(unread)[n..]
      ensures |unread| <= |old(unread)|
    {
      if |unread| < n {
        unread := [];
        return None;
      }
      r := Some(unread[..n]);
      unread := unread[n..];
    }

    method NextFrame() returns (ok: bool, f: Frame, error: ReadError)
      modifies this`unread
      ensures ok == ReadOne(old(unread)).Got?
      ensures ok ==> Got(f, unread) == ReadOne(old(unread)) && |unread| < |old(unread)|
      ensures !ok ==> Failed(error) == ReadOne(old(unread))
    {
      hide Masked, DeclaredLength, ExtraLength, IsFinal, HasReservedBits, OpcodeIn, IsMasked, SevenIn;
      ghost var s := unread;
      ok, f, error := false, Frame(false, 0, []), Eof;
      var head := ReadFull(2);
      if head.None? {
        return;
      }
      var first, seven := head.value[0], SevenIn(head.value[1]);
      if HasReservedBits(first) {
        error := ReservedBits;
        return;
      }
      if !IsMasked(head.value[1]) {
        error := NotMasked;
        return;
      }
      var extra := ReadFull(ExtraLength(seven));
      if extra.None? {
        return;
      }
      ghost var k := ExtraLength(seven);
      assert unread == s[2..][k..] == s[2 + k..] && extra.value == s[2..2 + k];
      var n := DeclaredLength(seven, extra.value);
      if n > MAX_FRAME {
        error := TooLong;
        return;
      }
      var key := ReadFull(4);
      if key.None? {
        return;
      }
      assert unread == s[2 + k..][4..] == s[6 + k..] && key.value == s[2 + k..6 + k];
      var body := ReadFull(n);
      if body.None? {
        return;
      }
      assert unread == s[6 + k..][n..] == s[6 + k + n..] && body.value == s[6 + k..6 + k + n];
      var payload := new Byte[n](i requires 0 <= i < |body.value| => body.value[i]);
      assert payload[..] == body.value;
      Unmask(payload, key.value);
      ok, f := true, Frame(IsFinal(first), OpcodeIn(first), payload[..]);
    }

    /** readFrame's loop: control frames are answered between fragments. */
    method NextMessage() returns (r: Option<seq<Byte>>, error: ReadError)
      modifies this
      ensures r.Some? ==>
                ReadMessage(old(unread), [], old(answered)) == Got(Message(r.value, answered), unread)
                && |unread| < |old(unread)|
      ensures r.None? ==> ReadMessage(old(unread), [], old(answered)) == Failed(error)
    {
      var assembled: seq<Byte> := [];
      ghost var all := ReadMessage(unread, [], answered);
      while true
        invariant ReadMessage(unread, assembled, answered) == all
        invariant |unread| <= |old(unread)|
        decreases |unread|
      {
        var ok, f, e := NextFrame();
        if !ok {
          return None, e;
        }
        if f.opcode == CLOSE {
          return None, Closed;
        } else if f.opcode == PING {
          answered := answered + [f.payload];
        } else if f.opcode == PONG {
        } else if IsData(f.opcode) {
          assembled := assembled + f.payload;
          if |assembled| > MAX_FRAME {
            return None, OverCeiling;
          }
          if f.final {
            return Some(assembled), Eof;
          }
        } else {
          return None, UnknownOpcode;
        }
      }
    }
  }

  // -------------------------------------------------------------------------
  // One frame round-trips

  function Power256(k: nat): nat {
    if k == 0 then 1 else 256 * Power256(k - 1)
  }

  lemma {:induction false} BigEndianRoundTrip(n: nat, k: nat)
    requires n < Power256(k)
    ensures FromBigEndian(ToBigEndian(n, k)) == n
  {
    if k > 0 {
      var high, low := n / 256, n % 256;
      assert n == high * 256 + low && high < Power256(k - 1);
      BigEndianRoundTrip(high, k - 1);
      BigEndianStep(ToBigEndian(high, k - 1), low);
    }
  }

  lemma BigEndianStep(bs: seq<Byte>, b: Byte)
    ensures FromBigEndian(bs + [b]) == FromBigEndian(bs) * 256 + b
  {
    assert (bs + [b])[..|bs|] == bs;
  }

  lemma FirstByteFields(f: Frame)
    ensures OpcodeIn(FirstByte(f)) == f.opcode && !HasReservedBits(FirstByte(f)) && IsFinal(FirstByte(f)) == f.final
  {
  }

  /** In all three forms, the length bytes say how many more of them follow and what they declare. */
  lemma LengthRoundTrip(n: nat, masked: bool)
    requires n <= MAX_FRAME
    ensures
      var bs := LengthBytes(n, masked);
      && |bs| == 1 + ExtraLength(SevenIn(bs[0])) && IsMasked(bs[0]) == masked
      && DeclaredLength(SevenIn(bs[0]), bs[1..]) == n
  {
    var bs := LengthBytes(n, masked);
    if n < 126 {
    } else if n < 65536 {
      assert bs[1..] == ToBigEndian(n, 2);
      assert Power256(2) == 65536;
      BigEndianRoundTrip(n, 2);
    } else {
      assert bs[1..] == ToBigEndian(n, 8);
      assert Power256(8) == 256 * 256 * 256 * 256 * 256 * 256 * Power256(2);
      BigEndianRoundTrip(n, 8);
    }
  }

  lemma MaskTwice(key: seq<Byte>, payload: seq<Byte>)
    requires |key| == 4
    ensures Masked(key, Masked(key, payload)) == payload
  {
    forall i | 0 <= i < |payload| ensures Masked(key, Masked(key, payload))[i] == payload[i] {
      XorTwice(payload[i], key[i % 4], 8);
      assert Power2(8) == 2 * 2 * 2 * 2 * Power2(4) == 256;
    }
  }

  lemma {:induction false} XorTwice(a: nat, b: nat, k: nat)
    requires a < Power2(k)
    ensures XorBits(XorBits(a, b, k), b, k) == a
  {
    if k > 0 {
      XorTwice(a / 2, b / 2, k - 1);
      var x := XorBits(a, b, k);
      assert x / 2 == XorBits(a / 2, b / 2, k - 1);
      assert x % 2 == if a % 2 == b % 2 then 0 else 1;
    }
  }

  /** A masked frame followed by anything reads back as that frame, for every opcode, key and
      length up to the ceiling, and leaves exactly what followed it. */
  lemma FrameRoundTrip(f: Frame, key: seq<Byte>, rest: seq<Byte>)
    requires |key| == 4 && |f.payload| <= MAX_FRAME
    ensures ReadOne(ClientBytes(f, key) + rest) == Got(f, rest)
  {
    hide Masked, FirstByte, LengthBytes, DeclaredLength, ExtraLength, ClientBytes, IsFinal, HasReservedBits, OpcodeIn, IsMasked, SevenIn;
    LengthRoundTrip(|f.payload|, true);
    FirstByteFields(f);
    MaskTwice(key, f.payload);
    MaskedLength(key, f.payload);
    ClientSlices(f, key, rest);
  }

  lemma ClientSlices(f: Frame, key: seq<Byte>, rest: seq<Byte>)
    requires |key| == 4
    ensures |LengthBytes(|f.payload|, true)| >= 1
    ensures
      var s, len, body := ClientBytes(f, key) + rest, LengthBytes(|f.payload|, true), Masked(key, f.payload);
      var k, n := |len| - 1, |f.payload|;
      && |s| == 6 + k + n + |rest|
      && s[0] == FirstByte(f) && s[1] == len[0] && s[2..2 + k] == len[1..]
      && s[2 + k..6 + k] == key && s[6 + k..6 + k + n] == body && s[6 + k + n..] == rest
  {
    hide FirstByte, Masked;
    MaskedLength(key, f.payload);
    Slices(FirstByte(f), LengthBytes(|f.payload|, true), key, Masked(key, f.payload), rest);
  }

  lemma Slices(first: Byte, len: seq<Byte>, key: seq<Byte>, body: seq<Byte>, rest: seq<Byte>)
    requires |len| >= 1
    ensures
      var s, k, m := [first] + len + key + body + rest, 1 + |len|, 1 + |len| + |key|;
      && s[0] == first && s[1] == len[0] && s[2..k] == len[1..]
      && s[k..m] == key && s[m..m + |body|] == body && s[m + |body|..] == rest
  {
  }

  lemma MaskedLength(key: seq<Byte>, payload: seq<Byte>)
    requires |key| == 4
    ensures |Masked(key, payload)| == |payload|
  {
  }

  /** An unmasked data frame reads back on the client side. */
  lemma ServerRoundTrip(opcode: Opcode, payload: seq<Byte>, rest: seq<Byte>)
    requires IsData(opcode) && |payload| <= MAX_FRAME
    ensures ReadServer(ServerBytes(Frame(true, opcode, payload)) + rest, [], []) == Got(Message(payload, []), rest)
  {
    hide FirstByte, LengthBytes, DeclaredLength, ExtraLength, IsFinal, OpcodeIn, SevenIn;
    var f, len := Frame(true, opcode, payload), LengthBytes(|payload|, false);
    LengthRoundTrip(|payload|, false);
    FirstByteFields(f);
    var s := ServerBytes(f) + rest;
    var k, n := |len| - 1, |payload|;
    assert s == [FirstByte(f)] + len + [] + payload + rest;
    Slices(FirstByte(f), len, [], payload, rest);
    assert s[2..2 + k] == len[1..];
    assert [] + payload == payload;
  }

  // -------------------------------------------------------------------------
  // Any fragmentation of any messages, with pings and pongs between the fragments

  datatype Piece = Fragment(opcode: Opcode, payload: seq<Byte>, key: seq<Byte>)
                 | Control(opcode: Opcode, payload: seq<Byte>, key: seq<Byte>)

  /** One message on its way: fragments and control frames, ended by the final fragment. */
  datatype Fragmented = Fragmented(pieces: seq<Piece>, last: Piece)

  predicate GoodPiece(p: Piece) {
    && |p.key| == 4 && |p.payload| <= MAX_FRAME
    && if p.Fragment? then IsData(p.opcode) else p.opcode == PING || p.opcode == PONG
  }

  predicate Good(m: Fragmented) {
    (forall p :: p in m.pieces ==> GoodPiece(p)) && GoodPiece(m.last) && m.last.Fragment?
  }

  function PieceBytes(p: Piece, final: bool): seq<Byte>
    requires GoodPiece(p)
  {
    ClientBytes(Frame(p.Control? || final, p.opcode, p.payload), p.key)
  }

  function PiecesBytes(ps: seq<Piece>): seq<Byte>
    requires forall p :: p in ps ==> GoodPiece(p)
  {
    if ps == [] then [] else PieceBytes(ps[0], false) + PiecesBytes(ps[1..])
  }

  function MessageBytes(m: Fragmented): seq<Byte>
    requires Good(m)
  {
    PiecesBytes(m.pieces) + PieceBytes(m.last, true)
  }

  function StreamBytes(ms: seq<Fragmented>): seq<Byte>
    requires forall m :: m in ms ==> Good(m)
  {
    if ms == [] then [] else MessageBytes(ms[0]) + StreamBytes(ms[1..])
  }

  /** The data the pieces carry, without the control frames. */
  function Content(ps: seq<Piece>): seq<Byte> {
    if ps == [] then []
    else if ps[0].Fragment? then ps[0].payload + Content(ps[1..])
    else Content(ps[1..])
  }

  function Pings(ps: seq<Piece>): seq<seq<Byte>> {
    if ps == [] then []
    else if ps[0].Control? && ps[0].opcode == PING then [ps[0].payload] + Pings(ps[1..])
    else Pings(ps[1..])
  }

  function Whole(m: Fragmented): seq<Byte> {
    Content(m.pieces) + m.last.payload
  }

  /** Reading one piece moves on with what it carried, unless the ceiling is passed. */
  lemma PieceReads(p: Piece, rest: seq<Byte>, got: seq<Byte>, pongs: seq<seq<Byte>>)
    requires GoodPiece(p)
    ensures
      var r := ReadMessage(PieceBytes(p, false) + rest, got, pongs);
      if p.Control? then r == ReadMessage(rest, got, if p.opcode == PING then pongs + [p.payload] else pongs)
      else if |got + p.payload| > MAX_FRAME then r == Failed(OverCeiling)
      else r == ReadMessage(rest, got + p.payload, pongs)
  {
    hide ReadOne, ClientBytes;
    FrameRoundTrip(Frame(p.Control?, p.opcode, p.payload), p.key, rest);
  }

  lemma {:induction false} PiecesRead(ps: seq<Piece>, rest: seq<Byte>, got: seq<Byte>, pongs: seq<seq<Byte>>)
    requires forall p :: p in ps ==> GoodPiece(p)
    requires |got| <= MAX_FRAME
    ensures ReadMessage(PiecesBytes(ps) + rest, got, pongs) ==
            if |got + Content(ps)| > MAX_FRAME then Failed(OverCeiling)
            else ReadMessage(rest, got + Content(ps), pongs + Pings(ps))
    decreases |ps|
  {
    hide ReadMessage, PieceBytes, PiecesBytes, GoodPiece, Content, Pings;
    if ps == [] {
      NoPieces(ps, rest, got, pongs);
    } else {
      var p, tail := ps[0], ps[1..];
      var got', pongs' := AfterPiece(p, got), AfterPing(p, pongs);
      PiecesSplit(ps, rest, got, pongs);
      PieceReads(p, PiecesBytes(tail) + rest, got, pongs);
      if |got'| <= MAX_FRAME {
        PiecesRead(tail, rest, got', pongs');
      }
    }
  }

  function AfterPiece(p: Piece, got: seq<Byte>): seq<Byte> {
    if p.Fragment? then got + p.payload else got
  }

  function AfterPing(p: Piece, pongs: seq<seq<Byte>>): seq<seq<Byte>> {
    if p.Control? && p.opcode == PING then pongs + [p.payload] else pongs
  }

  lemma NoPieces(ps: seq<Piece>, rest: seq<Byte>, got: seq<Byte>, pongs: seq<seq<Byte>>)
    requires ps == []
    ensures PiecesBytes(ps) + rest == rest && got + Content(ps) == got && pongs + Pings(ps) == pongs
  {
  }

  lemma {:induction false} PiecesSplit(ps: seq<Piece>, rest: seq<Byte>, got: seq<Byte>, pongs: seq<seq<Byte>>)
    requires ps != [] && forall p :: p in ps ==> GoodPiece(p)
    ensures PiecesBytes(ps) + rest == PieceBytes(ps[0], false) + (PiecesBytes(ps[1..]) + rest)
    ensures AfterPiece(ps[0], got) + Content(ps[1..]) == got + Content(ps)
    ensures AfterPing(ps[0], pongs) + Pings(ps[1..]) == pongs + Pings(ps)
  {
    hide PieceBytes, GoodPiece;
    ContentSplit(ps, got);
    PingsSplit(ps, pongs);
    var first, tail := PieceBytes(ps[0], false), PiecesBytes(ps[1..]);
    assert PiecesBytes(ps) + rest == first + (tail + rest);
  }

  lemma {:induction false} ContentSplit(ps: seq<Piece>, got: seq<Byte>)
    requires ps != []
    ensures AfterPiece(ps[0], got) + Content(ps[1..]) == got + Content(ps)
  {
    var tail := Content(ps[1..]);
    if ps[0].Fragment? {
      assert (got + ps[0].payload) + tail == got + (ps[0].payload + tail);
    }
  }

  lemma {:induction false} PingsSplit(ps: seq<Piece>, pongs: seq<seq<Byte>>)
    requires ps != []
    ensures AfterPing(ps[0], pongs) + Pings(ps[1..]) == pongs + Pings(ps)
  {
    var tail := Pings(ps[1..]);
    assert (pongs + [ps[0].payload]) + tail == pongs + ([ps[0].payload] + tail);
  }

  /** A message comes back whole however it was cut and whatever control frames ran between its
      fragments, with its pings answered in order; and it is refused exactly when it is over the
      ceiling. */
  lemma MessageReads(m: Fragmented, rest: seq<Byte>, pongs: seq<seq<Byte>>)
    requires Good(m)
    ensures ReadMessage(MessageBytes(m) + rest, [], pongs) ==
            if |Whole(m)| <= MAX_FRAME then Got(Message(Whole(m), pongs + Pings(m.pieces)), rest)
            else Failed(OverCeiling)
  {
    hide PiecesBytes, ReadOne, ClientBytes, GoodPiece, Content, Pings;
    var last := PieceBytes(m.last, true);
    assert MessageBytes(m) + rest == PiecesBytes(m.pieces) + (last + rest);
    PiecesRead(m.pieces, last + rest, [], pongs);
    LastIsGood(m.last);
    FrameRoundTrip(Frame(true, m.last.opcode, m.last.payload), m.last.key, rest);
    assert [] + Content(m.pieces) == Content(m.pieces);
  }

  lemma LastIsGood(p: Piece)
    requires GoodPiece(p)
    ensures |p.key| == 4 && |p.payload| <= MAX_FRAME && (p.Fragment? ==> IsData(p.opcode))
  {
  }

  /** Reading messages until something ends it: the messages, and what ended it. */
  function DecodeAll(s: seq<Byte>): (seq<seq<Byte>>, ReadError)
    decreases |s|
  {
    var r := ReadMessage(s, [], []);
    if r.Failed? then ([], r.error)
    else
      var (tail, error) := DecodeAll(r.rest);
      ([r.value.payload] + tail, error)
  }

  function Wholes(ms: seq<Fragmented>): seq<seq<Byte>> {
    seq(|ms|, i requires 0 <= i < |ms| => Whole(ms[i]))
  }

  /** Repeated reads of a stream give exactly its messages, in order, and then the end of it. After
      the last message there may be more control frames, and a message cut off before its end. */
  lemma {:induction false} StreamDecodes(ms: seq<Fragmented>, tail: seq<Piece>)
    requires forall m :: m in ms ==> Good(m) && |Whole(m)| <= MAX_FRAME
    requires (forall p :: p in tail ==> GoodPiece(p)) && |Content(tail)| <= MAX_FRAME
    ensures DecodeAll(StreamBytes(ms) + PiecesBytes(tail)) == (Wholes(ms), Eof)
    decreases |ms|
  {
    hide MessageBytes, Whole, Good, GoodPiece, PiecesBytes, Content, Pings;
    var s := StreamBytes(ms) + PiecesBytes(tail);
    if ms == [] {
      assert s == PiecesBytes(tail) + [];
      PiecesRead(tail, [], [], []);
      assert [] + Content(tail) == Content(tail);
      assert ReadMessage([], Content(tail), [] + Pings(tail)) == Failed(Eof);
      assert ReadMessage(s, [], []) == Failed(Eof);
      assert Wholes(ms) == [];
    } else {
      var rest := StreamBytes(ms[1..]) + PiecesBytes(tail);
      assert s == MessageBytes(ms[0]) + rest;
      MessageReads(ms[0], rest, []);
      StreamDecodes(ms[1..], tail);
      assert Wholes(ms) == [Whole(ms[0])] + Wholes(ms[1..]);
    }
  }

  // -------------------------------------------------------------------------
  // What ends a stream, and what is refused

  /** A close frame after any messages, control frames and part of a message ends the reading. */
  lemma {:induction false} CloseEnds(ms: seq<Fragmented>, tail: seq<Piece>, final: bool, payload: seq<Byte>, key: seq<Byte>, rest: seq<Byte>)
    requires forall m :: m in ms ==> Good(m) && |Whole(m)| <= MAX_FRAME
    requires (forall p :: p in tail ==> GoodPiece(p)) && |Content(tail)| <= MAX_FRAME && |payload| <= MAX_FRAME && |key| == 4
    ensures DecodeAll(StreamBytes(ms) + (PiecesBytes(tail) + (ClientBytes(Frame(final, CLOSE, payload), key) + rest))) == (Wholes(ms), Closed)
    decreases |ms|
  {
    hide MessageBytes, Whole, Good, GoodPiece, PiecesBytes, Content, Pings, ClientBytes, ReadOne;
    var end := ClientBytes(Frame(final, CLOSE, payload), key) + rest;
    var s := StreamBytes(ms) + (PiecesBytes(tail) + end);
    if ms == [] {
      assert s == PiecesBytes(tail) + end;
      PiecesRead(tail, end, [], []);
      FrameRoundTrip(Frame(final, CLOSE, payload), key, rest);
      assert [] + Content(tail) == Content(tail);
      assert ReadMessage(s, [], []) == Failed(Closed);
      assert Wholes(ms) == [];
    } else {
      var more := StreamBytes(ms[1..]) + (PiecesBytes(tail) + end);
      assert s == MessageBytes(ms[0]) + more;
      MessageReads(ms[0], more, []);
      CloseEnds(ms[1..], tail, final, payload, key, rest);
      assert Wholes(ms) == [Whole(ms[0])] + Wholes(ms[1..]);
    }
  }

  /** A frame with any of the three reserved bits set is refused, and so is one that is not masked, as
      a server's is; a frame of an opcode that is neither data nor control is refused once read. */
  lemma BadFramesAreRefused(s: seq<Byte>, f: Frame, key: seq<Byte>, rest: seq<Byte>, got: seq<Byte>, pongs: seq<seq<Byte>>)
    requires |f.payload| <= MAX_FRAME && |key| == 4
    ensures |s| >= 2 && s[0] % 128 >= 16 ==> ReadOne(s) == Failed(ReservedBits)
    ensures ReadOne(ServerBytes(f) + rest) == Failed(NotMasked)
    ensures f.opcode !in {0, 1, 2, 8, 9, 10} ==> ReadMessage(ClientBytes(f, key) + rest, got, pongs) == Failed(UnknownOpcode)
  {
    FirstByteFields(f);
    LengthRoundTrip(|f.payload|, false);
    FrameRoundTrip(f, key, rest);
    hide ClientBytes, Masked, LengthBytes;
    var b := ServerBytes(f) + rest;
    assert b[0] == FirstByte(f) && b[1] == LengthBytes(|f.payload|, false)[0];
  }
}
