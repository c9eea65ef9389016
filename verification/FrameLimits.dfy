/** What the 64-bit arithmetic of read_frame is good for: exactly when the limit on a message is enforced and
    every byte is written inside its buffer. */
module FrameLimits {
  import opened Wrappers
  import opened Frames

  /** The state between frames as it should be. */
  predicate Sound(acc: Acc) {
    acc.size == |acc.msg| <= MAX_FRAME_LENGTH
  }

  /** The payload length that a frame announces behind its first two bytes. */
  function Announced(s: seq<Byte>, len7: nat): nat
    requires Extended(len7) <= |s|
  {
    if Extended(len7) == 0 then len7 else Number(s[..Extended(len7)])
  }

  lemma {:induction false} NumberBelow(bytes: seq<Byte>)
    ensures Number(bytes) < Power256(|bytes|)
  {
    if bytes != [] { NumberBelow(bytes[..|bytes| - 1]); }
  }

  lemma AnnouncedBelow(s: seq<Byte>, len7: nat)
    requires Extended(len7) <= |s| && len7 < 128
    ensures Announced(s, len7) < WORD
    ensures Announced(s, len7) >= WORD / 2 ==> len7 == 127
  {
    Power256Values();
    NumberBelow(s[..Extended(len7)]);
  }

  // ----- one frame

  /** The check of the total, made on the wrapped sum, is the intended one if and only if nothing wraps. */
  lemma LimitIsEnforced(size: nat, length: nat)
    requires size <= MAX_FRAME_LENGTH && length < WORD
    ensures ((size + length) % WORD > MAX_FRAME_LENGTH <==> size + length > MAX_FRAME_LENGTH) <==> size + length < WORD
  {
    if size + length >= WORD { assert (size + length) % WORD == size + length - WORD; }
  }

  /** Whether a byte of the payload is written outside the buffer is decided by the announced length alone,
      as soon as a byte of the payload arrives: it is if and only if the sum wraps. */
  lemma DataOverruns(s: seq<Byte>, fin: bool, len7: nat, size: nat)
    requires size <= MAX_FRAME_LENGTH && len7 < 128
    ensures ReadBody(s, false, fin, len7, size, size) == Overrun <==>
              Extended(len7) + 4 < |s| && size + Announced(s, len7) >= WORD
    ensures var b := ReadBody(s, false, fin, len7, size, size);
            b.Body? ==> b.size == size + |b.payload| <= MAX_FRAME_LENGTH
  {
    if Extended(len7) <= |s| {
      AnnouncedBelow(s, len7);
      DataFits(size, Announced(s, len7), fin);
      hide Number;
      hide Masked;
      hide Room;
      hide Fitting;
    }
  }

  /** Where the payload goes: all of it fits, or none. */
  lemma DataFits(size: nat, length: nat, fin: bool)
    requires size <= MAX_FRAME_LENGTH && length < WORD
    ensures var fitting := Fitting(Room(false, fin, size, length), size);
            if size + length >= WORD then fitting == 0 < length && (size + length) % WORD <= MAX_FRAME_LENGTH
            else size + length <= MAX_FRAME_LENGTH ==> fitting >= length
    ensures size + length < WORD ==> (size + length) % WORD == size + length
  {
    if size + length >= WORD {
      assert (size + length) % WORD == size + length - WORD;
      if fin && size + length + 1 < 2 * WORD { assert (size + length + 1) % WORD == size + length + 1 - WORD; }
    }
  }

  /** A control frame never fills msg_ctrl. */
  lemma ControlFits(s: seq<Byte>, len7: nat)
    requires len7 <= CONTROL_ROOM
    ensures ReadBody(s, true, true, len7, 0, 0) != Overrun
  {
    hide Number;
    hide Masked;
  }

  // ----- whole streams

  datatype Point = Point(acc: Acc, rest: seq<Byte>)

  /** Where the decoder is after k frames, if it gets that far. */
  function After(s: seq<Byte>, acc: Acc, closing: bool, k: nat): Option<Point> {
    if k == 0 then Some(Point(acc, s)) else
      match Frame(s, acc, closing)
      case Go(acc', rest) => After(rest, acc', closing, k - 1)
      case _ => None
  }

  /** The next frame is a data frame in order, with a 64-bit length that wraps the total, its masks and at
      least one byte of payload. */
  predicate Wraps(p: Point, closing: bool) {
    var s := p.rest;
    && 15 <= |s| && Expected(p.acc.kind, closing, s[0]) && !IsControl((s[0] % 16) as nat)
    && s[1] % 128 == 127 && p.acc.size + Number(s[2..10]) >= WORD
  }

  /** Frame k of the stream wraps the total. */
  predicate WrapsAt(s: seq<Byte>, acc: Acc, closing: bool, k: nat) {
    var p := After(s, acc, closing, k);
    p.Some? && Wraps(p.value, closing)
  }

  lemma WrapsLater(s: seq<Byte>, acc: Acc, closing: bool, k: nat)
    ensures WrapsAt(s, acc, closing, 0) <==> Wraps(Point(acc, s), closing)
    ensures WrapsAt(s, acc, closing, k + 1) <==>
              var f := Frame(s, acc, closing); f.Go? && WrapsAt(f.rest, f.acc, closing, k)
  {
    hide Frame;
    hide Wraps;
  }

  lemma FrameOverruns(s: seq<Byte>, acc: Acc, closing: bool)
    requires Sound(acc)
    ensures Frame(s, acc, closing) == Overruns <==> Wraps(Point(acc, s), closing)
    ensures var f := Frame(s, acc, closing); f.Go? || f.Finish? ==> Sound(f.acc)
  {
    if |s| >= 2 {
      var fin, len7, t := s[0] / 128 == 1, (s[1] % 128) as nat, s[2..];
      DataOverruns(t, fin, len7, acc.size);
      if Extended(len7) <= |t| {
        AnnouncedBelow(t, len7);
        if len7 == 127 { assert t[..8] == s[2..10]; }
      }
      if len7 <= CONTROL_ROOM { ControlFits(t, len7); }
    }
    hide ReadBody;
    hide Number;
  }

  /** A stream makes next_frame write outside its buffer if and only if one of the frames it reads announces
      a length that wraps the total. */
  lemma {:induction false} OverrunsExactlyWhenWrapped(s: seq<Byte>, acc: Acc, closing: bool)
    requires Sound(acc)
    ensures Decode(s, acc, closing) == Overran <==>
              exists k: nat :: WrapsAt(s, acc, closing, k)
    decreases |s|
  {
    FrameOverruns(s, acc, closing);
    FrameConsumes(s, acc, closing);
    DecodeUnfolds(s, acc, closing);
    hide Decode;
    hide Wraps;
    hide WrapsAt;
    var f := Frame(s, acc, closing);
    hide Frame;
    WrapsLater(s, acc, closing, 0);
    if f.Go? {
      OverrunsExactlyWhenWrapped(f.rest, f.acc, closing);
      if j: nat :| WrapsAt(f.rest, f.acc, closing, j) { WrapsLater(s, acc, closing, j); }
    }
    if k: nat :| WrapsAt(s, acc, closing, k) {
      if k > 0 { WrapsLater(s, acc, closing, k - 1); }
    }
  }

  lemma {:induction false} NumberLead(bytes: seq<Byte>)
    requires bytes != []
    ensures Number(bytes) < (bytes[0] as nat + 1) * Power256(|bytes| - 1)
  {
    if |bytes| > 1 {
      NumberLead(bytes[..|bytes| - 1]);
      var d, q := bytes[0] as nat + 1, Power256(|bytes| - 2);
      assert d * (256 * q) == 256 * (d * q);
    }
  }

  lemma TimesMono(d: nat, e: nat, p: nat)
    ensures d <= e ==> d * p <= e * p
  {}

  /** A length that wraps has its top bit set, which section 5.2 of RFC 6455 forbids. */
  lemma WrappingIsForbidden(p: Point, closing: bool)
    requires Wraps(p, closing) && Sound(p.acc)
    ensures p.rest[2] >= 128
  {
    Power256Values();
    var bytes := p.rest[2..10];
    NumberLead(bytes);
    assert Power256(4) == 0x1_0000_0000 && Power256(7) == 0x100_0000_0000_0000;
    TimesMono(bytes[0] as nat + 1, 128, Power256(7));
  }

  /** What next_frame reports as a message is within the limit, and its size is its length. */
  lemma {:induction false} MessagesAreWithinTheLimit(s: seq<Byte>, acc: Acc, closing: bool)
    requires Sound(acc)
    ensures var r := Decode(s, acc, closing); r.Message? ==> Sound(r.acc)
    decreases |s|
  {
    FrameOverruns(s, acc, closing);
    FrameConsumes(s, acc, closing);
    DecodeUnfolds(s, acc, closing);
    hide Decode;
    hide Frame;
    var f := Frame(s, acc, closing);
    if f.Go? { MessagesAreWithinTheLimit(f.rest, f.acc, closing); }
  }

  // ----- the failing streams

  /** A last frame that continues a message and announces `length` bytes in the 64-bit form. */
  function Continuation(length: nat, key: seq<Byte>, x: Byte): seq<Byte> {
    [128, 255] + Bytes(length, 8) + key + [x]
  }

  lemma ContinuationWraps(length: nat, key: seq<Byte>, x: Byte, acc: Acc, tail: seq<Byte>)
    requires |key| == 4 && length < WORD <= acc.size + length && acc.kind.Some?
    ensures Wraps(Point(acc, Continuation(length, key, x) + tail), false)
  {
    Power256Values();
    NumberOfBytes(length, 8);
    var s := Continuation(length, key, x) + tail;
    hide Bytes;
    assert |s| >= 15 && s[0] == 128 && s[1] == 255;
    assert s[2..10] == Bytes(length, 8);
  }

  /** Any first fragment of at least a byte can be followed by a frame that wraps the total, and then the
      first byte of that frame's payload is written outside the buffer. With one byte and the length
      2^64 - 1 the total becomes 0. */
  lemma WrappedLengthOverruns(form: Form, key: seq<Byte>, payload: seq<Byte>, length: nat, key': seq<Byte>, x: Byte,
                              tail: seq<Byte>, sendable: nat)
    requires |key| == |key'| == 4 && Fits(form, |payload|) && |payload| <= MAX_FRAME_LENGTH
    requires length < WORD <= |payload| + length
    ensures Decode(EncodeFrame(false, TXT, form, key, payload) + (Continuation(length, key', x) + tail),
                   Acc(None, 0, [], [], sendable), false) == Overran
    ensures |payload| == 1 ==> (|payload| + length) % WORD == 0
  {
    hide EncodeFrame;
    hide Continuation;
    hide Wraps;
    hide Frame;
    hide Decode;
    var rest := Continuation(length, key', x) + tail;
    var acc := Acc(None, 0, [], [], sendable);
    var p := Fragment(form, key, payload);
    var s := EncodePiece(TXT, false, false, p) + rest;
    PieceDecodes(TXT, false, false, p, acc, rest);
    var acc' := Frames.After(acc, TXT, p);
    assert acc.msg + payload == payload;
    ContinuationWraps(length, key', x, acc', tail);
    WrapsLater(rest, acc', false, 0);
    WrapsLater(s, acc, false, 0);
    OverrunsExactlyWhenWrapped(s, acc, false);
  }

  // ----- the NUL behind a control payload

  /** The next frame is a ping or close frame, complete with a payload that fills msg_ctrl: the NUL that
      read_frame appends goes behind it. */
  predicate NulBehindNow(s: seq<Byte>, acc: Acc, closing: bool) {
    && 131 <= |s| && Expected(acc.kind, closing, s[0]) && s[0] >= 128 && s[1] % 128 == 125
    && (s[0] % 16 == 8 || s[0] % 16 == 9)
  }

  /** Some frame that next_frame reads is of that kind. */
  predicate NulBehind(s: seq<Byte>, acc: Acc, closing: bool)
    decreases |s|
  {
    FrameConsumes(s, acc, closing);
    || NulBehindNow(s, acc, closing)
    || var f := Frame(s, acc, closing); f.Go? && NulBehind(f.rest, f.acc, closing)
  }

  lemma PieceNul(opcode: nat, started: bool, last: bool, p: Piece, acc: Acc, tail: seq<Byte>)
    requires ValidPiece(p) && (opcode == TXT || opcode == BIN) && InMessage(acc, opcode, started)
    ensures NulBehindNow(EncodePiece(opcode, started, last, p) + tail, acc, false) <==> p.Ping? && |p.payload| == 125
  {
    hide EncodeFrame;
    match p
    case Fragment(form, key, payload) =>
      HeaderDecodes(last, if started then CONT else opcode, form, key, payload, tail);
    case Ping(form, key, payload) => HeaderDecodes(true, PING, form, key, payload, tail);
    case Pong(form, key, payload) => HeaderDecodes(true, PONG, form, key, payload, tail);
  }

  predicate FullPing(p: Piece) {
    p.Ping? && |p.payload| == CONTROL_ROOM
  }

  /** For a client's message within the limit: exactly if one of its pings carries 125 bytes. */
  lemma {:induction false} FullPingsOverflow(opcode: nat, started: bool, pieces: seq<Piece>, acc: Acc, tail: seq<Byte>)
    requires ValidMessage(pieces) && (opcode == TXT || opcode == BIN) && InMessage(acc, opcode, started)
    requires |Pings(pieces)| <= acc.sendable && !TooLong(acc, pieces)
    ensures NulBehind(Encode(opcode, started, pieces) + tail, acc, false) <==>
              exists i :: 0 <= i < |pieces| && FullPing(pieces[i])
    decreases |pieces|
  {
    hide EncodePiece;
    hide Frame;
    hide NulBehindNow;
    var p, last := pieces[0], |pieces| == 1;
    var first := EncodePiece(opcode, started, last, p);
    var rest := if last then tail else Encode(opcode, started || p.Fragment?, pieces[1..]) + tail;
    assert Encode(opcode, started, pieces) + tail == first + rest by {
      Reassociate(first, if last then [] else Encode(opcode, started || p.Fragment?, pieces[1..]), tail);
      assert [] + tail == tail;
    }
    FinalUnfolds(acc, opcode, pieces);
    hide Final;
    hide TooLong;
    hide Pings;
    hide Encode;
    PieceDecodes(opcode, started, last, p, acc, rest);
    PieceNul(opcode, started, last, p, acc, rest);
    if !last {
      FullPingsOverflow(opcode, started || p.Fragment?, pieces[1..], Frames.After(acc, opcode, p), tail);
      if i :| 0 <= i < |pieces| && FullPing(pieces[i]) {
        assert i == 0 || pieces[i] == pieces[1..][i - 1];
      }
      if i :| 0 <= i < |pieces[1..]| && FullPing(pieces[1..][i]) {
        assert pieces[i + 1] == pieces[1..][i];
      }
    }
  }
}
