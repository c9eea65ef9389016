/** WebSocket frames as byte sequences (sections 5.2 to 5.5 of RFC 6455): what ws.c makes of a
    stream, and the streams a client may send. */
module Frames {
  import opened Bits
  import opened Wrappers

  newtype Byte = x: int | 0 <= x < 256

  const CONT: nat := 0
  const TXT: nat := 1
  const BIN: nat := 2
  const CLSE: nat := 8
  const PING: nat := 9
  const PONG: nat := 10

  const MAX_FRAME_LENGTH: nat := 16 * 1024 * 1024
  const WORD: nat := 0x1_0000_0000_0000_0000

  predicate IsControl(opcode: nat) {
    opcode == CLSE || opcode == PING || opcode == PONG
  }

  predicate IsData(opcode: nat) {
    opcode == TXT || opcode == BIN || opcode == CONT
  }

  function XorByte(x: Byte, y: Byte): Byte {
    XorBelow(x as nat, y as nat, 8);
    assert Pow2(8) == 256;
    Xor(x as nat, y as nat) as Byte
  }

  /** Masking and unmasking are the same operation. */
  function Masked(payload: seq<Byte>, key: seq<Byte>): (r: seq<Byte>)
    requires |key| == 4
    ensures |r| == |payload|
  {
    seq(|payload|, i requires 0 <= i < |payload| => XorByte(payload[i], key[i % 4]))
  }

  lemma UnmaskedTwice(payload: seq<Byte>, key: seq<Byte>)
    requires |key| == 4
    ensures Masked(Masked(payload, key), key) == payload
  {
    forall i | 0 <= i < |payload| ensures Masked(Masked(payload, key), key)[i] == payload[i] {
      XorTwice(payload[i] as nat, key[i % 4] as nat);
    }
  }

  /** An unsigned number from its bytes, the most significant first. */
  function Number(bytes: seq<Byte>): nat {
    if bytes == [] then 0 else Number(bytes[..|bytes| - 1]) * 256 + bytes[|bytes| - 1] as nat
  }

  // ----- decoding

  /** Bytes of an extended length. */
  function Extended(len7: nat): nat {
    if len7 == 126 then 2 else if len7 == 127 then 8 else 0
  }

  /** The bytes in msg_ctrl. */
  const CONTROL_ROOM: nat := 125

  /** The bytes in the buffer of a frame whose payload goes to index `at`: msg_ctrl, or what realloc is
      asked for. The sum has 64 bits; the last frame gets one more for a NUL. */
  function Room(control: bool, fin: bool, at: nat, length: nat): nat {
    if control then CONTROL_ROOM else (at + length + if fin then 1 else 0) % WORD
  }

  /** How many bytes fit into a buffer from index `at` on. */
  function Fitting(room: nat, at: nat): nat {
    if room > at then room - at else 0
  }

  datatype Body = Bad | Overrun | Body(length: nat, size: nat, payload: seq<Byte>, rest: seq<Byte>)

  /** `read_frame`: the extended length, the masks and the payload, which goes to index `at`. `size` is the
      total so far, kept in 64 bits. Overrun is a payload byte that arrives when the buffer is full. */
  function ReadBody(s: seq<Byte>, control: bool, fin: bool, len7: nat, at: nat, size: nat): Body {
    var n := Extended(len7);
    if |s| < n then Bad
    else
      var length := if n == 0 then len7 else Number(s[..n]);
      var size' := (size + length) % WORD;
      if size' > MAX_FRAME_LENGTH || |s| < n + 4 then Bad
      else
        var fitting := Fitting(Room(control, fin, at, length), at);
        if fitting < length && n + 4 + fitting < |s| then Overrun
        else if |s| < n + 4 + length then Bad
        else Body(length, size', Masked(s[n + 4..n + 4 + length], s[n..n + 4]), s[n + 4 + length..])
  }

  /** The state of next_frame between frames. `kind` is frame_type, `pongs` the payloads echoed so
      far, `sendable` how many more frames the socket will take. */
  datatype Acc = Acc(kind: Option<nat>, size: nat, msg: seq<Byte>, pongs: seq<seq<Byte>>, sendable: nat)

  datatype Step =
    | Fail
    | Overruns
    | Go(acc: Acc, rest: seq<Byte>)
    | Finish(acc: Acc, rest: seq<Byte>)
    | Closed(payload: seq<Byte>, rest: seq<Byte>)

  function Data(acc: Acc, fin: bool, opcode: nat, len7: nat, s: seq<Byte>): Step {
    match ReadBody(s, false, fin, len7, |acc.msg|, acc.size)
    case Bad => Fail
    case Overrun => Overruns
    case Body(_, size, payload, rest) =>
      var acc' := Acc(if opcode == CONT then acc.kind else Some(opcode), size, acc.msg + payload,
                      acc.pongs, acc.sendable);
      if fin then Finish(acc', rest) else Go(acc', rest)
  }

  function Control(acc: Acc, opcode: nat, len7: nat, s: seq<Byte>): Step {
    if opcode == PONG then
      if |s| < 4 + len7 then Fail else Go(acc, s[4 + len7..])
    else
      match ReadBody(s, true, true, len7, 0, 0)
      case Bad => Fail
      case Overrun => Overruns
      case Body(_, _, payload, rest) =>
        if opcode == CLSE then Closed(payload, rest)
        else if acc.sendable == 0 then Fail
        else Go(acc.(pongs := acc.pongs + [payload], sendable := acc.sendable - 1), rest)
  }

  /** The first byte alone is acceptable. */
  predicate Expected(kind: Option<nat>, closing: bool, b: Byte) {
    var opcode := (b % 16) as nat;
    && b / 16 % 8 == 0
    && !(kind.None? && opcode == CONT) && !(kind.Some? && !IsControl(opcode) && opcode != CONT)
    && (IsData(opcode) || IsControl(opcode))
    && !(closing && opcode != CLSE)
  }

  /** One round of the loop of next_frame. */
  function Frame(s: seq<Byte>, acc: Acc, closing: bool): Step {
    if |s| == 0 || !Expected(acc.kind, closing, s[0]) || |s| == 1 then Fail
    else
      var fin, opcode, len7 := s[0] / 128 == 1, (s[0] % 16) as nat, (s[1] % 128) as nat;
      if IsControl(opcode) then
        if !fin || len7 > 125 then Fail else Control(acc, opcode, len7, s[2..])
      else Data(acc, fin, opcode, len7, s[2..])
  }

  /** After Overran, nothing can be said: the program has written where it has no memory. */
  datatype Outcome =
    | Error(pongs: seq<seq<Byte>>)
    | Overran
    | Message(acc: Acc, rest: seq<Byte>)
    | Close(payload: seq<Byte>, rest: seq<Byte>, pongs: seq<seq<Byte>>)

  lemma FrameConsumes(s: seq<Byte>, acc: Acc, closing: bool)
    ensures var f := Frame(s, acc, closing); f.Go? ==> |f.rest| < |s|
  {}

  /** `next_frame`. */
  function Decode(s: seq<Byte>, acc: Acc, closing: bool): Outcome
    decreases |s|
  {
    FrameConsumes(s, acc, closing);
    match Frame(s, acc, closing)
    case Fail => Error(acc.pongs)
    case Overruns => Overran
    case Go(acc', rest) => Decode(rest, acc', closing)
    case Finish(acc', rest) => Message(acc', rest)
    case Closed(payload, rest) => Close(payload, rest, acc.pongs)
  }

  // ----- encoding

  datatype Form = Short | Medium | Long

  predicate Fits(form: Form, n: nat) {
    match form
    case Short => n <= 125
    case Medium => n < 0x1_0000
    case Long => n < WORD / 2
  }

  function Bytes(n: nat, width: nat): (r: seq<Byte>)
    ensures |r| == width
  {
    if width == 0 then [] else Bytes(n / 256, width - 1) + [(n % 256) as Byte]
  }

  function Power256(k: nat): nat {
    if k == 0 then 1 else 256 * Power256(k - 1)
  }

  lemma {:induction false} NumberOfBytes(n: nat, width: nat)
    requires n < Power256(width)
    ensures Number(Bytes(n, width)) == n
  {
    if width > 0 {
      NumberOfBytes(n / 256, width - 1);
      assert Bytes(n, width)[..width - 1] == Bytes(n / 256, width - 1);
    }
  }

  function LengthCode(form: Form, n: nat): nat {
    match form
    case Short => n
    case Medium => 126
    case Long => 127
  }

  function LengthBytes(form: Form, n: nat): seq<Byte> {
    match form
    case Short => []
    case Medium => Bytes(n, 2)
    case Long => Bytes(n, 8)
  }

  /** A masked frame after its first byte. */
  function EncodeBody(form: Form, key: seq<Byte>, payload: seq<Byte>): seq<Byte>
    requires |key| == 4 && Fits(form, |payload|)
  {
    LengthBytes(form, |payload|) + key + Masked(payload, key)
  }

  function EncodeFrame(fin: bool, opcode: nat, form: Form, key: seq<Byte>, payload: seq<Byte>): seq<Byte>
    requires |key| == 4 && Fits(form, |payload|) && opcode < 16
  {
    [((if fin then 128 else 0) + opcode) as Byte, (128 + LengthCode(form, |payload|)) as Byte]
    + EncodeBody(form, key, payload)
  }

  lemma Power256Values()
    ensures Power256(2) == 0x1_0000 && Power256(8) == WORD
  {
    assert Power256(4) == 0x1_0000_0000;
  }

  lemma LengthDecodes(form: Form, n: nat)
    requires Fits(form, n)
    ensures |LengthBytes(form, n)| == Extended(LengthCode(form, n))
    ensures if form == Short then LengthCode(form, n) == n && Extended(n) == 0
            else Extended(LengthCode(form, n)) > 0 && Number(LengthBytes(form, n)) == n
    ensures n < WORD / 2
  {
    Power256Values();
    if form == Medium { NumberOfBytes(n, 2); }
    if form == Long { NumberOfBytes(n, 8); }
  }

  lemma PartsRead(len: seq<Byte>, key: seq<Byte>, masked: seq<Byte>, tail: seq<Byte>, control: bool, fin: bool,
                  len7: nat, size: nat)
    requires |len| == Extended(len7) && |key| == 4
    requires |masked| == if |len| == 0 then len7 else Number(len)
    requires size + |masked| + 1 < WORD && (control ==> size == 0 && |masked| <= CONTROL_ROOM)
    ensures ReadBody(len + key + masked + tail, control, fin, len7, size, size)
         == if size + |masked| <= MAX_FRAME_LENGTH then Body(|masked|, size + |masked|, Masked(masked, key), tail)
            else Bad
  {
    hide Extended;
    hide Number;
    hide Masked;
    Parts(len, key, masked, tail);
    assert (size + |masked|) % WORD == size + |masked|;
    assert |masked| <= Fitting(Room(control, fin, size, |masked|), size);
  }

  lemma BodyDecodes(form: Form, key: seq<Byte>, payload: seq<Byte>, control: bool, fin: bool, size: nat,
                    tail: seq<Byte>)
    requires |key| == 4 && Fits(form, |payload|) && size <= MAX_FRAME_LENGTH
    requires control ==> size == 0 && |payload| <= CONTROL_ROOM
    ensures ReadBody(EncodeBody(form, key, payload) + tail, control, fin, LengthCode(form, |payload|), size, size)
         == if size + |payload| <= MAX_FRAME_LENGTH then Body(|payload|, size + |payload|, payload, tail) else Bad
  {
    LengthDecodes(form, |payload|);
    UnmaskedTwice(payload, key);
    hide ReadBody;
    hide LengthBytes;
    hide LengthCode;
    hide Extended;
    hide Number;
    hide Masked;
    hide Fits;
    PartsRead(LengthBytes(form, |payload|), key, Masked(payload, key), tail, control, fin,
              LengthCode(form, |payload|), size);
  }

  lemma Parts<T>(a: seq<T>, b: seq<T>, c: seq<T>, d: seq<T>)
    ensures var s, n := a + b + c + d, |a| + |b|;
            s[..|a|] == a && s[|a|..n] == b && s[n..n + |c|] == c && s[n + |c|..] == d
  {}

  // ----- whole messages

  /** A frame of the client: the next fragment of its message, or a control frame. */
  datatype Piece =
    | Fragment(form: Form, key: seq<Byte>, payload: seq<Byte>)
    | Ping(form: Form, key: seq<Byte>, payload: seq<Byte>)
    | Pong(form: Form, key: seq<Byte>, payload: seq<Byte>)

  predicate ValidPiece(p: Piece) {
    |p.key| == 4 && Fits(p.form, |p.payload|) && (p.Fragment? || p.form == Short)
  }

  /** A message in one or more fragments; the last piece is its last fragment. */
  predicate ValidMessage(pieces: seq<Piece>) {
    && |pieces| > 0 && pieces[|pieces| - 1].Fragment?
    && forall i | 0 <= i < |pieces| :: ValidPiece(pieces[i])
  }

  /** The frame of the first piece: only the first fragment carries the message's opcode, only the
      last piece is final. */
  function EncodePiece(opcode: nat, started: bool, last: bool, p: Piece): seq<Byte>
    requires ValidPiece(p) && (opcode == TXT || opcode == BIN)
  {
    match p
    case Fragment(form, key, payload) => EncodeFrame(last, if started then CONT else opcode, form, key, payload)
    case Ping(form, key, payload) => EncodeFrame(true, PING, form, key, payload)
    case Pong(form, key, payload) => EncodeFrame(true, PONG, form, key, payload)
  }

  function Encode(opcode: nat, started: bool, pieces: seq<Piece>): seq<Byte>
    requires ValidMessage(pieces) && (opcode == TXT || opcode == BIN)
    decreases |pieces|
  {
    EncodePiece(opcode, started, |pieces| == 1, pieces[0])
    + if |pieces| == 1 then [] else Encode(opcode, started || pieces[0].Fragment?, pieces[1..])
  }

  function Text(p: Piece): seq<Byte> {
    if p.Fragment? then p.payload else []
  }

  function Echo(p: Piece): seq<seq<Byte>> {
    if p.Ping? then [p.payload] else []
  }

  /** The message: the payloads of its fragments, joined. */
  function Joined(pieces: seq<Piece>): seq<Byte> {
    if pieces == [] then [] else Text(pieces[0]) + Joined(pieces[1..])
  }

  /** The payloads of the pings, in order. */
  function Pings(pieces: seq<Piece>): seq<seq<Byte>> {
    if pieces == [] then [] else Echo(pieces[0]) + Pings(pieces[1..])
  }

  /** The decoder has taken a fragment of the message `kind` already, or not. */
  predicate InMessage(acc: Acc, opcode: nat, started: bool) {
    acc.kind == (if started then Some(opcode) else None) && acc.size == |acc.msg| <= MAX_FRAME_LENGTH
  }

  /** The state after one piece. */
  function After(acc: Acc, opcode: nat, p: Piece): Acc
    requires p.Ping? ==> acc.sendable > 0
  {
    Acc(if p.Fragment? then Some(opcode) else acc.kind, acc.size + |Text(p)|, acc.msg + Text(p),
        acc.pongs + Echo(p), acc.sendable - |Echo(p)|)
  }

  /** The two header bytes and what follows them. */
  lemma HeaderDecodes(fin: bool, opcode: nat, form: Form, key: seq<Byte>, payload: seq<Byte>, tail: seq<Byte>)
    requires |key| == 4 && Fits(form, |payload|) && opcode < 16
    ensures var s := EncodeFrame(fin, opcode, form, key, payload) + tail;
            && |s| >= 2 && (s[0] / 128 == 1) == fin && s[0] / 16 % 8 == 0 && (s[0] % 16) as nat == opcode
            && (s[1] % 128) as nat == LengthCode(form, |payload|)
            && s[2..] == EncodeBody(form, key, payload) + tail
  {
    hide EncodeBody;
    var body := EncodeBody(form, key, payload);
    var s := EncodeFrame(fin, opcode, form, key, payload) + tail;
    assert s == [s[0], s[1]] + (body + tail);
  }

  lemma PieceDecodes(opcode: nat, started: bool, last: bool, p: Piece, acc: Acc, tail: seq<Byte>)
    requires ValidPiece(p) && (opcode == TXT || opcode == BIN) && InMessage(acc, opcode, started)
    requires p.Ping? ==> acc.sendable > 0
    ensures var f := Frame(EncodePiece(opcode, started, last, p) + tail, acc, false);
            if p.Fragment? && acc.size + |p.payload| > MAX_FRAME_LENGTH then f == Fail
            else if p.Fragment? && last then f == Finish(After(acc, opcode, p), tail)
            else f == Go(After(acc, opcode, p), tail)
  {
    hide EncodeFrame;
    hide EncodeBody;
    hide ReadBody;
    hide LengthBytes;
    hide Masked;
    match p
    case Fragment(form, key, payload) =>
      HeaderDecodes(last, if started then CONT else opcode, form, key, payload, tail);
      BodyDecodes(form, key, payload, false, last, acc.size, tail);
      assert acc.pongs + [] == acc.pongs;
    case Ping(form, key, payload) =>
      HeaderDecodes(true, PING, form, key, payload, tail);
      BodyDecodes(form, key, payload, true, true, 0, tail);
      assert acc.msg + [] == acc.msg;
    case Pong(form, key, payload) =>
      HeaderDecodes(true, PONG, form, key, payload, tail);
      PongSkipped(key, payload, tail);
      assert acc.msg + [] == acc.msg && acc.pongs + [] == acc.pongs;
  }

  lemma PongSkipped(key: seq<Byte>, payload: seq<Byte>, tail: seq<Byte>)
    requires |key| == 4 && |payload| <= 125
    ensures var s := EncodeBody(Short, key, payload) + tail;
            |s| >= 4 + |payload| && s[4 + |payload|..] == tail
  {}

  /** The state after the whole message. */
  function Final(acc: Acc, opcode: nat, pieces: seq<Piece>): Acc
    requires |Pings(pieces)| <= acc.sendable
  {
    Acc(Some(opcode), acc.size + |Joined(pieces)|, acc.msg + Joined(pieces), acc.pongs + Pings(pieces),
        acc.sendable - |Pings(pieces)|)
  }

  predicate TooLong(acc: Acc, pieces: seq<Piece>) {
    acc.size + |Joined(pieces)| > MAX_FRAME_LENGTH
  }

  /** For every message in any number of fragments, with pings and pongs anywhere between them, the
      decoder yields the opcode of the first fragment and the joined payload, answers the pings,
      and stops right behind the message; it fails exactly if the message is too long. */
  lemma {:induction false} MessageDecodes(opcode: nat, started: bool, pieces: seq<Piece>, acc: Acc, tail: seq<Byte>)
    requires ValidMessage(pieces) && (opcode == TXT || opcode == BIN) && InMessage(acc, opcode, started)
    requires |Pings(pieces)| <= acc.sendable
    ensures var r := Decode(Encode(opcode, started, pieces) + tail, acc, false);
            if TooLong(acc, pieces) then r.Error? else r == Message(Final(acc, opcode, pieces), tail)
    decreases |pieces|
  {
    hide EncodePiece;
    hide Frame;
    hide Decode;
    var p, last := pieces[0], |pieces| == 1;
    var first := EncodePiece(opcode, started, last, p);
    var rest := if last then tail else Encode(opcode, started || p.Fragment?, pieces[1..]) + tail;
    assert Encode(opcode, started, pieces) + tail == first + rest by {
      Reassociate(first, if last then [] else Encode(opcode, started || p.Fragment?, pieces[1..]), tail);
      assert [] + tail == tail;
    }
    FinalUnfolds(acc, opcode, pieces);
    hide Final;
    hide TooLong;
    hide Joined;
    hide Pings;
    hide Encode;
    PieceDecodes(opcode, started, last, p, acc, rest);
    DecodeUnfolds(first + rest, acc, false);
    if !last && !(p.Fragment? && acc.size + |p.payload| > MAX_FRAME_LENGTH) {
      MessageDecodes(opcode, started || p.Fragment?, pieces[1..], After(acc, opcode, p), tail);
    }
  }

  /** What next_frame reports for a client's message, whatever precedes or follows it. */
  lemma ClientMessageArrives(opcode: nat, pieces: seq<Piece>, sent: seq<seq<Byte>>, sendable: nat, tail: seq<Byte>)
    requires ValidMessage(pieces) && (opcode == TXT || opcode == BIN) && |Pings(pieces)| <= sendable
    ensures var r := Decode(Encode(opcode, false, pieces) + tail, Acc(None, 0, [], sent, sendable), false);
            if |Joined(pieces)| > MAX_FRAME_LENGTH then r.Error? else
              r == Message(Acc(Some(opcode), |Joined(pieces)|, Joined(pieces), sent + Pings(pieces),
                               sendable - |Pings(pieces)|), tail)
  {
    hide Decode;
    hide Encode;
    MessageDecodes(opcode, false, pieces, Acc(None, 0, [], sent, sendable), tail);
    assert [] + Joined(pieces) == Joined(pieces);
  }

  lemma FinalUnfolds(acc: Acc, opcode: nat, pieces: seq<Piece>)
    requires |pieces| > 0 && |Pings(pieces)| <= acc.sendable
    ensures pieces[0].Ping? ==> acc.sendable > 0
    ensures var acc' := After(acc, opcode, pieces[0]);
            && |Pings(pieces[1..])| <= acc'.sendable
            && Final(acc', opcode, pieces[1..]) == Final(acc, opcode, pieces)
            && (TooLong(acc', pieces[1..]) <==> TooLong(acc, pieces))
            && (|pieces| == 1 && pieces[0].Fragment? ==> Final(acc, opcode, pieces) == acc'
                                                         && (TooLong(acc, pieces) <==> acc'.size > MAX_FRAME_LENGTH))
            && (acc'.size > MAX_FRAME_LENGTH ==> TooLong(acc, pieces))
  {
    JoinedUnfolds(pieces, acc.msg, acc.pongs);
    hide Joined;
    hide Pings;
    hide Text;
    var acc' := After(acc, opcode, pieces[0]);
    assert acc'.msg + [] == acc'.msg && acc'.pongs + [] == acc'.pongs;
  }

  lemma DecodeUnfolds(s: seq<Byte>, acc: Acc, closing: bool)
    ensures Decode(s, acc, closing)
         == match Frame(s, acc, closing)
            case Fail => Error(acc.pongs)
            case Overruns => Overran
            case Go(acc', rest) => Decode(rest, acc', closing)
            case Finish(acc', rest) => Message(acc', rest)
            case Closed(payload, rest) => Close(payload, rest, acc.pongs)
  {
    hide Frame;
  }

  lemma JoinedUnfolds(pieces: seq<Piece>, msg: seq<Byte>, pongs: seq<seq<Byte>>)
    requires |pieces| > 0
    ensures msg + Text(pieces[0]) + Joined(pieces[1..]) == msg + Joined(pieces)
    ensures pongs + Echo(pieces[0]) + Pings(pieces[1..]) == pongs + Pings(pieces)
    ensures |Joined(pieces)| == |Text(pieces[0])| + |Joined(pieces[1..])|
    ensures |Pings(pieces)| == |Echo(pieces[0])| + |Pings(pieces[1..])|
    ensures |pieces| == 1 ==> Joined(pieces[1..]) == [] && Pings(pieces[1..]) == []
  {
    Reassociate(msg, Text(pieces[0]), Joined(pieces[1..]));
    Reassociate(pongs, Echo(pieces[0]), Pings(pieces[1..]));
    hide Text;
    hide Echo;
  }

  // ----- what is refused

  /** Reserved bits or opcodes, a continuation of nothing, a second message inside a message, and
      control frames that are fragmented or longer than 125 bytes (RFC 6455, sections 5.2, 5.4, 5.5). */
  predicate Malformed(kind: Option<nat>, b0: Byte, b1: Byte) {
    var opcode := (b0 % 16) as nat;
    || b0 / 16 % 8 != 0 || (3 <= opcode <= 7) || opcode > 10
    || (opcode == CONT && kind.None?) || ((opcode == TXT || opcode == BIN) && kind.Some?)
    || (opcode >= 8 && (b0 < 128 || b1 % 128 > 125))
  }

  /** A frame header is refused exactly if it is malformed, or if the connection is closing and the
      frame is no close frame; a refused frame ends the stream with an error. */
  lemma MalformedIsRefused(s: seq<Byte>, acc: Acc, closing: bool)
    requires |s| >= 2
    ensures Malformed(acc.kind, s[0], s[1]) || (closing && s[0] % 16 != 8) ==>
              Frame(s, acc, closing) == Fail && Decode(s, acc, closing) == Error(acc.pongs)
    ensures !Malformed(acc.kind, s[0], s[1]) && !(closing && s[0] % 16 != 8) ==>
              var fin, opcode, len7 := s[0] >= 128, (s[0] % 16) as nat, (s[1] % 128) as nat;
              Frame(s, acc, closing) == if opcode >= 8 then Control(acc, opcode, len7, s[2..])
                                        else Data(acc, fin, opcode, len7, s[2..])
  {
    hide Control;
    hide Data;
    DecodeUnfolds(s, acc, closing);
    hide Decode;
  }

  /** A byte with its top bit, the MASK bit of the second header byte, the other way. */
  function Flipped(b: Byte): Byte {
    if b < 128 then b + 128 else b - 128
  }

  /** The MASK bit makes no difference: a frame that says it is unmasked is taken for a masked one, where a
      server has to close the connection (RFC 6455, section 5.1). */
  lemma MaskBitIsIgnored(s: seq<Byte>, acc: Acc, closing: bool)
    requires |s| >= 2
    ensures Frame(s[1 := Flipped(s[1])], acc, closing) == Frame(s, acc, closing)
    ensures Decode(s[1 := Flipped(s[1])], acc, closing) == Decode(s, acc, closing)
  {
    var u := s[1 := Flipped(s[1])];
    assert u[2..] == s[2..] && u[1] % 128 == s[1] % 128;
    hide Control;
    hide Data;
    DecodeUnfolds(s, acc, closing);
    DecodeUnfolds(u, acc, closing);
    hide Decode;
  }

  /** A frame has been accepted. */
  predicate Accepted(f: Step) {
    f.Go? || f.Finish? || f.Closed?
  }

  lemma TruncatedBody(s: seq<Byte>, control: bool, fin: bool, len7: nat, at: nat, size: nat, m: nat)
    requires var b := ReadBody(s, control, fin, len7, at, size); b.Body? && m < |s| - |b.rest|
    ensures |ReadBody(s, control, fin, len7, at, size).rest| <= |s|
    ensures ReadBody(s[..m], control, fin, len7, at, size) == Bad
  {
    var n := Extended(len7);
    hide Number;
    hide Masked;
    if m >= n { assert s[..m][..n] == s[..n]; }
  }

  /** A frame cut short anywhere is not accepted. */
  lemma TruncatedFrame(s: seq<Byte>, acc: Acc, closing: bool, m: nat)
    requires var f := Frame(s, acc, closing); Accepted(f) && m < |s| - |f.rest|
    ensures Frame(s[..m], acc, closing) == Fail
  {
    hide ReadBody;
    if m >= 2 {
      var t := s[2..];
      assert s[..m][2..] == t[..m - 2];
      var fin, len7 := s[0] / 128 == 1, (s[1] % 128) as nat;
      var data, control := ReadBody(t, false, fin, len7, |acc.msg|, acc.size), ReadBody(t, true, true, len7, 0, 0);
      if data.Body? && m - 2 < |t| - |data.rest| {
        TruncatedBody(t, false, fin, len7, |acc.msg|, acc.size, m - 2);
      }
      if control.Body? && m - 2 < |t| - |control.rest| {
        TruncatedBody(t, true, true, len7, 0, 0, m - 2);
      }
    }
  }

  lemma BodyRest(s: seq<Byte>, control: bool, fin: bool, len7: nat, at: nat, size: nat)
    ensures var b := ReadBody(s, control, fin, len7, at, size);
            b.Body? ==> |b.rest| <= |s| && b.rest == s[|s| - |b.rest|..]
  {
    hide Number;
    hide Masked;
  }

  lemma FrameRest(s: seq<Byte>, acc: Acc, closing: bool)
    ensures var f := Frame(s, acc, closing); Accepted(f) ==> |f.rest| + 2 <= |s| && f.rest == s[|s| - |f.rest|..]
  {
    hide ReadBody;
    if |s| >= 2 {
      var t, fin, len7 := s[2..], s[0] / 128 == 1, (s[1] % 128) as nat;
      BodyRest(t, false, fin, len7, |acc.msg|, acc.size);
      BodyRest(t, true, true, len7, 0, 0);
      assert forall n | 2 <= n <= |s| :: t[n - 2..] == s[n..];
    }
  }

  /** A message or close frame is reported only when it is complete: if the stream ends earlier, at
      whatever byte, the outcome is an error. */
  lemma {:induction false} TruncatedIsRefused(s: seq<Byte>, acc: Acc, closing: bool, m: nat)
    requires var r := Decode(s, acc, closing); (r.Message? || r.Close?) && m < |s| - |r.rest|
    ensures Decode(s[..m], acc, closing).Error?
    decreases |s|
  {
    hide Frame;
    DecodeUnfolds(s, acc, closing);
    DecodeUnfolds(s[..m], acc, closing);
    FrameRest(s, acc, closing);
    var f := Frame(s, acc, closing);
    var n := |s| - |f.rest|;
    if m < n {
      TruncatedFrame(s, acc, closing, m);
    } else if f.Go? {
      CutBehind(s, acc, closing, m);
      assert s[..m][n..] == f.rest[..m - n];
      TruncatedIsRefused(f.rest, f.acc, closing, m - n);
    }
  }

  /** A frame does not depend on what follows it. */
  lemma CutBehind(s: seq<Byte>, acc: Acc, closing: bool, m: nat)
    requires var f := Frame(s, acc, closing); f.Go? && |s| - |f.rest| <= m <= |s|
    ensures var f := Frame(s, acc, closing);
            Frame(s[..m], acc, closing) == Go(f.acc, s[..m][|s| - |f.rest|..])
  {
    FrameRest(s, acc, closing);
    hide ReadBody;
    var t, fin, len7 := s[2..], s[0] / 128 == 1, (s[1] % 128) as nat;
    assert s[..m][2..] == t[..m - 2];
    var data, control := ReadBody(t, false, fin, len7, |acc.msg|, acc.size), ReadBody(t, true, true, len7, 0, 0);
    if data.Body? && |t| - |data.rest| <= m - 2 {
      BodyCutBehind(t, false, fin, len7, |acc.msg|, acc.size, m - 2);
    }
    if control.Body? && |t| - |control.rest| <= m - 2 {
      BodyCutBehind(t, true, true, len7, 0, 0, m - 2);
    }
  }

  lemma BodyCutBehind(s: seq<Byte>, control: bool, fin: bool, len7: nat, at: nat, size: nat, m: nat)
    requires var b := ReadBody(s, control, fin, len7, at, size); b.Body? && |s| - |b.rest| <= m <= |s|
    ensures var b := ReadBody(s, control, fin, len7, at, size);
            ReadBody(s[..m], control, fin, len7, at, size)
              == Body(b.length, b.size, b.payload, s[..m][|s| - |b.rest|..])
  {
    var n, b := Extended(len7), ReadBody(s, control, fin, len7, at, size);
    hide Number;
    hide Masked;
    assert s[..m][..n] == s[..n] && s[..m][n..n + 4] == s[n..n + 4];
    assert s[..m][n + 4..n + 4 + b.length] == s[n + 4..n + 4 + b.length];
  }
}
