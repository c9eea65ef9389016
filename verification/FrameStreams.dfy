/** Streams that end otherwise than with a message: a close frame, or a ping that cannot be answered, behind
    any beginning of a message. */
module FrameStreams {
  import opened Bits
  import opened Wrappers
  import opened Frames

  /** Fragments that are not the last one, with pings and pongs anywhere. */
  predicate ValidOpening(pieces: seq<Piece>) {
    forall i | 0 <= i < |pieces| :: ValidPiece(pieces[i])
  }

  function EncodeOpening(opcode: nat, started: bool, pieces: seq<Piece>): seq<Byte>
    requires ValidOpening(pieces) && (opcode == TXT || opcode == BIN)
    decreases |pieces|
  {
    if pieces == [] then []
    else EncodePiece(opcode, started, false, pieces[0])
         + EncodeOpening(opcode, started || pieces[0].Fragment?, pieces[1..])
  }

  /** Some piece is a fragment. */
  predicate Carries(pieces: seq<Piece>) {
    exists i :: 0 <= i < |pieces| && pieces[i].Fragment?
  }

  /** What next_frame remembers behind these pieces. */
  function Opened(acc: Acc, opcode: nat, pieces: seq<Piece>): Acc
    requires |Pings(pieces)| <= acc.sendable
  {
    Acc(if Carries(pieces) then Some(opcode) else acc.kind, acc.size + |Joined(pieces)|, acc.msg + Joined(pieces),
        acc.pongs + Pings(pieces), acc.sendable - |Pings(pieces)|)
  }

  lemma CarriesUnfolds(pieces: seq<Piece>)
    requires |pieces| > 0
    ensures Carries(pieces) <==> pieces[0].Fragment? || Carries(pieces[1..])
  {
    if i :| 0 <= i < |pieces| && pieces[i].Fragment? && i > 0 {
      assert pieces[1..][i - 1].Fragment?;
    }
  }

  lemma OpenedUnfolds(acc: Acc, opcode: nat, pieces: seq<Piece>)
    requires |pieces| > 0 && |Pings(pieces)| <= acc.sendable
    ensures pieces[0].Ping? ==> acc.sendable > 0
    ensures var acc' := After(acc, opcode, pieces[0]);
            && |Pings(pieces[1..])| <= acc'.sendable
            && Opened(acc', opcode, pieces[1..]) == Opened(acc, opcode, pieces)
            && (TooLong(acc', pieces[1..]) <==> TooLong(acc, pieces))
            && (acc'.size > MAX_FRAME_LENGTH ==> TooLong(acc, pieces))
  {
    JoinedUnfolds(pieces, acc.msg, acc.pongs);
    CarriesUnfolds(pieces);
    hide Joined;
    hide Pings;
    hide Text;
    hide Carries;
  }

  lemma {:induction false} OpeningDecodes(opcode: nat, started: bool, pieces: seq<Piece>, acc: Acc, tail: seq<Byte>)
    requires ValidOpening(pieces) && (opcode == TXT || opcode == BIN) && InMessage(acc, opcode, started)
    requires |Pings(pieces)| <= acc.sendable && !TooLong(acc, pieces)
    ensures Decode(EncodeOpening(opcode, started, pieces) + tail, acc, false)
         == Decode(tail, Opened(acc, opcode, pieces), false)
    decreases |pieces|
  {
    hide EncodePiece;
    hide Frame;
    hide Decode;
    if pieces == [] {
      assert [] + tail == tail;
      assert acc.msg + [] == acc.msg && acc.pongs + [] == acc.pongs;
    } else {
      var p := pieces[0];
      var first := EncodePiece(opcode, started, false, p);
      var rest := EncodeOpening(opcode, started || p.Fragment?, pieces[1..]);
      assert EncodeOpening(opcode, started, pieces) + tail == first + (rest + tail) by {
        Reassociate(first, rest, tail);
      }
      OpenedUnfolds(acc, opcode, pieces);
      hide Opened;
      hide TooLong;
      hide Joined;
      hide Pings;
      hide EncodeOpening;
      PieceDecodes(opcode, started, false, p, acc, rest + tail);
      DecodeUnfolds(first + (rest + tail), acc, false);
      OpeningDecodes(opcode, started || p.Fragment?, pieces[1..], After(acc, opcode, p), tail);
    }
  }

  // ----- close frames

  function CloseFrame(key: seq<Byte>, payload: seq<Byte>): seq<Byte>
    requires |key| == 4 && |payload| <= CONTROL_ROOM
  {
    EncodeFrame(true, CLSE, Short, key, payload)
  }

  /** A close frame is reported with its payload, whether or not the connection is closing already. */
  lemma CloseFrameDecodes(acc: Acc, closing: bool, key: seq<Byte>, payload: seq<Byte>, tail: seq<Byte>)
    requires |key| == 4 && |payload| <= CONTROL_ROOM
    ensures Decode(CloseFrame(key, payload) + tail, acc, closing) == Close(payload, tail, acc.pongs)
  {
    hide EncodeBody;
    hide ReadBody;
    HeaderDecodes(true, CLSE, Short, key, payload, tail);
    BodyDecodes(Short, key, payload, true, true, 0, tail);
    DecodeUnfolds(CloseFrame(key, payload) + tail, acc, closing);
    hide Decode;
    hide EncodeFrame;
  }

  /** The same behind the first fragments of a message, with pings and pongs between them. */
  lemma CloseDecodes(opcode: nat, started: bool, pieces: seq<Piece>, acc: Acc, key: seq<Byte>, payload: seq<Byte>,
                     tail: seq<Byte>)
    requires ValidOpening(pieces) && (opcode == TXT || opcode == BIN) && InMessage(acc, opcode, started)
    requires |Pings(pieces)| <= acc.sendable && !TooLong(acc, pieces) && |key| == 4 && |payload| <= CONTROL_ROOM
    ensures Decode(EncodeOpening(opcode, started, pieces) + (CloseFrame(key, payload) + tail), acc, false)
         == Close(payload, tail, acc.pongs + Pings(pieces))
  {
    hide Decode;
    hide CloseFrame;
    hide EncodeOpening;
    hide Pings;
    OpeningDecodes(opcode, started, pieces, acc, CloseFrame(key, payload) + tail);
    CloseFrameDecodes(Opened(acc, opcode, pieces), false, key, payload, tail);
  }

  // ----- pings that the socket does not answer

  lemma PingFails(acc: Acc, key: seq<Byte>, payload: seq<Byte>, tail: seq<Byte>)
    requires acc.sendable == 0 && |key| == 4 && |payload| <= CONTROL_ROOM
    ensures Decode(EncodeFrame(true, PING, Short, key, payload) + tail, acc, false) == Error(acc.pongs)
  {
    hide EncodeBody;
    hide ReadBody;
    HeaderDecodes(true, PING, Short, key, payload, tail);
    BodyDecodes(Short, key, payload, true, true, 0, tail);
    DecodeUnfolds(EncodeFrame(true, PING, Short, key, payload) + tail, acc, false);
    hide Decode;
    hide EncodeFrame;
  }

  /** A ping ends the call with an error once the socket has taken its last frame; the earlier ones are answered. */
  lemma UnansweredPingFails(opcode: nat, started: bool, pieces: seq<Piece>, acc: Acc, key: seq<Byte>,
                            payload: seq<Byte>, tail: seq<Byte>)
    requires ValidOpening(pieces) && (opcode == TXT || opcode == BIN) && InMessage(acc, opcode, started)
    requires |Pings(pieces)| == acc.sendable && !TooLong(acc, pieces) && |key| == 4 && |payload| <= CONTROL_ROOM
    ensures Decode(EncodeOpening(opcode, started, pieces) + (EncodeFrame(true, PING, Short, key, payload) + tail), acc,
                   false)
         == Error(acc.pongs + Pings(pieces))
  {
    hide Decode;
    hide EncodeFrame;
    hide EncodeOpening;
    hide Pings;
    OpeningDecodes(opcode, started, pieces, acc, EncodeFrame(true, PING, Short, key, payload) + tail);
    PingFails(Opened(acc, opcode, pieces), key, payload, tail);
  }
}
