/** The buffered frame reader of ws.c: whatever chunks recv delivers, it decodes the stream. */
module WebSocket {
  import opened Bits
  import opened Wrappers
  import opened Frames
  import opened FrameLimits

  const MESSAGE_LENGTH: nat := 2048

  /** `ws_frame_data`, with the two directions of its socket: `input` is what the client will still
      deliver, `sent` the pongs sent so far, `sendable` how many more sends will succeed.
      `kind` is frame_type, None for -1. `msg` is the block that realloc has returned last, empty for NULL,
      `msgIdx` the bytes written to it. `control` is msg_ctrl, and `nulBehind` tells that a NUL has been
      written behind its end. `overran` tells that a payload byte would go outside its buffer: the model
      stops there. */
  class FrameData {
    const frm: array<Byte>
    var amtRead: nat
    var curPos: nat
    var error: bool
    var kind: Option<nat>
    var frameSize: nat
    var msg: array<Byte>
    var msgIdx: nat
    const control: array<Byte>
    var nulBehind: bool
    var overran: bool
    /** The connection is in state CLOSING. */
    const closing: bool
    var input: seq<Byte>
    var sent: seq<seq<Byte>>
    var sendable: nat

    ghost predicate Valid()
      reads this, frm
    {
      && frm.Length == MESSAGE_LENGTH && curPos <= amtRead <= frm.Length && (curPos == 0 ==> amtRead == 0)
      && control.Length == CONTROL_ROOM && control != frm && msg != frm && msg != control && msgIdx <= msg.Length
    }

    /** The bytes not yet consumed: the rest of the buffer, then the socket. */
    ghost function Rest(): seq<Byte>
      requires Valid()
      reads this, frm
    {
      frm[curPos..amtRead] + input
    }

    constructor (closing: bool, input: seq<Byte>, sendable: nat)
      ensures Valid() && fresh(frm) && fresh(control) && fresh(msg) && Rest() == input && sent == []
      ensures !error && !overran && !nulBehind && this.closing == closing && this.sendable == sendable
    {
      frm := new Byte[MESSAGE_LENGTH](_ => 0);
      control := new Byte[CONTROL_ROOM](_ => 0);
      msg := new Byte[0];
      amtRead, curPos, error, kind, frameSize, msgIdx := 0, 0, false, None, 0, 0;
      sent, nulBehind, overran := [], false, false;
      this.closing, this.input, this.sendable := closing, input, sendable;
    }

    /** Some prefix of what is left, of any length that fits the buffer; nothing at the end. */
    method Recv() returns (n: nat)
      requires frm.Length == MESSAGE_LENGTH
      modifies this`input, frm
      ensures n <= frm.Length && (n == 0 <==> old(input) == [])
      ensures old(input) == frm[..n] + input
    {
      if input == [] {
        return 0;
      }
      var k: nat :| 1 <= k <= |input| && k <= MESSAGE_LENGTH;
      forall i | 0 <= i < k {
        frm[i] := input[i];
      }
      assert frm[..k] == input[..k];
      input := input[k..];
      n := k;
    }

    /** `next_byte`: -1 at the end of the stream. */
    method NextByte() returns (r: int)
      requires Valid()
      modifies this`input, this`amtRead, this`curPos, this`error, frm
      ensures Valid()
      ensures old(Rest()) == [] ==> r == -1 && error && Rest() == []
      ensures old(Rest()) != [] ==> r == old(Rest())[0] as int && Rest() == old(Rest())[1..] && error == old(error)
    {
      if curPos == 0 || curPos == amtRead {
        assert frm[curPos..amtRead] == [];
        var n := Recv();
        if n == 0 {
          error := true;
          return -1;
        }
        amtRead := n;
        curPos := 0;
        assert frm[..n] == frm[curPos..amtRead];
      }
      ghost var buffered := frm[curPos..amtRead];
      assert old(Rest()) == buffered + input;
      TakeFirst(buffered, input);
      r := frm[curPos] as int;
      curPos := curPos + 1;
      assert frm[curPos..amtRead] == buffered[1..];
    }

    /** `skip_frame`. */
    method SkipFrame(size: nat) returns (ok: bool)
      requires Valid() && !error
      modifies this`input, this`amtRead, this`curPos, this`error, frm
      ensures Valid() && ok == !error == (size <= |old(Rest())|)
      ensures ok ==> Rest() == old(Rest())[size..]
    {
      for i := 0 to size
        invariant Valid() && !error && i <= |old(Rest())| && Rest() == old(Rest())[i..]
      {
        var b := NextByte();
        if b == -1 {
          return false;
        }
      }
      ok := true;
    }

    /** The bytes of a length or of the masks, in order. */
    method NextBytes(n: nat) returns (ok: bool, bytes: seq<Byte>)
      requires Valid() && !error
      modifies this`input, this`amtRead, this`curPos, this`error, frm
      ensures Valid() && ok == !error == (n <= |old(Rest())|)
      ensures ok ==> bytes == old(Rest())[..n] && Rest() == old(Rest())[n..]
    {
      bytes := [];
      for i := 0 to n
        invariant Valid() && !error && i <= |old(Rest())| && Rest() == old(Rest())[i..]
        invariant bytes == old(Rest())[..i]
      {
        var b := NextByte();
        if b == -1 {
          return false, bytes;
        }
        bytes := bytes + [b as Byte];
      }
      ok := true;
    }

    /** `realloc`, which does not fail: the block keeps its first bytes. */
    method Realloc(n: nat) returns (tmp: array<Byte>)
      requires Valid()
      ensures fresh(tmp) && tmp.Length == n && tmp[..Least(msgIdx, n)] == msg[..Least(msgIdx, n)]
    {
      tmp := new Byte[n](_ => 0);
      for i := 0 to Least(msgIdx, n)
        invariant tmp[..i] == msg[..i]
      {
        tmp[i] := msg[i];
        assert tmp[..i + 1] == tmp[..i] + [msg[i]];
      }
    }

    /** The copying loop of read_frame. It ends at the first byte that does not fit. */
    method ReadPayload(length: nat, masks: seq<Byte>, buf: array<Byte>, at: nat) returns (ok: bool)
      requires Valid() && !error && !overran && |masks| == 4 && buf != frm
      modifies this`input, this`amtRead, this`curPos, this`error, this`overran, frm, buf
      ensures Valid() && ok == (!error && !overran) && !(error && overran)
      ensures var fitting := Fitting(buf.Length, at); overran == (fitting < length && fitting < |old(Rest())|)
      ensures ok == (length <= |old(Rest())| && !overran)
      ensures ok ==> Rest() == old(Rest())[length..]
      ensures ok && 0 < length ==>
                && at + length <= buf.Length
                && buf[..at + length] == old(buf[..at]) + Masked(old(Rest())[..length], masks)
    {
      hide Masked;
      hide XorByte;
      ghost var s := Rest();
      NoPayload(s, 0, masks);
      for i := 0 to length
        invariant Valid() && !error && !overran && i <= |s| && Rest() == s[i..]
        invariant i == 0 ==> buf[..] == old(buf[..])
        invariant 0 < i ==> at + i <= buf.Length && buf[..at + i] == old(buf[..at]) + Masked(s[..i], masks)
      {
        var b := NextByte();
        if b == -1 {
          return false;
        }
        if at + i >= buf.Length {
          overran := true;
          return false;
        }
        MaskedNext(s, i, masks);
        assert buf[..at + i] == old(buf[..at]) + Masked(s[..i], masks);
        buf[at + i] := XorByte(b as Byte, masks[i % 4]);
        assert buf[..at + i + 1] == buf[..at + i] + [XorByte(b as Byte, masks[i % 4])];
      }
      ok := true;
    }

    /** The extended length of read_frame, if there is one. */
    method ReadLength(len7: nat) returns (ok: bool, length: nat)
      requires Valid() && !error
      modifies this`input, this`amtRead, this`curPos, this`error, frm
      ensures Valid() && ok == !error == (Extended(len7) <= |old(Rest())|)
      ensures ok ==> Rest() == old(Rest())[Extended(len7)..]
      ensures ok ==> length == if Extended(len7) == 0 then len7 else Number(old(Rest())[..Extended(len7)])
    {
      var n := Extended(len7);
      if n == 0 {
        return true, len7;
      }
      var bytes: seq<Byte>;
      ok, bytes := NextBytes(n);
      length := if ok then Number(bytes) else 0;
    }

    /** The first half of read_frame: length, limit and masks. A length that could not be read is not used:
        the error is set. */
    method ReadMasks(len7: nat, size: nat) returns (ok: bool, length: nat, total: nat, masks: seq<Byte>)
      requires Valid() && !error
      modifies this`input, this`amtRead, this`curPos, this`error, frm
      ensures Valid() && ok == !error
      ensures var s, n := old(Rest()), Extended(len7);
              ok == (n + 4 <= |s| && (size + Announced(s, len7)) % WORD <= MAX_FRAME_LENGTH)
      ensures ok ==>
                var s, n := old(Rest()), Extended(len7);
                && length == Announced(s, len7) && total == (size + length) % WORD && |masks| == 4
                && masks == s[n..n + 4] && Rest() == s[n + 4..]
    {
      hide Number;
      hide Extended;
      ghost var s, n := Rest(), Extended(len7);
      total, masks := 0, [];
      ok, length := ReadLength(len7);
      if !ok {
        return;
      }
      total := (size + length) % WORD;
      if total > MAX_FRAME_LENGTH {
        error := true;
        return false, length, total, masks;
      }
      ok, masks := NextBytes(4);
      if ok {
        SliceOfTail(s, n, 4);
      }
    }

    /** Grows the message by a payload that is not empty. */
    method Append(fin: bool, length: nat, masks: seq<Byte>) returns (ok: bool)
      requires Valid() && !error && !overran && |masks| == 4 && 0 < length
      modifies this`input, this`amtRead, this`curPos, this`error, this`overran, this`msg, this`msgIdx, frm
      ensures Valid() && ok == (!error && !overran) && !(error && overran)
      ensures var fitting := Fitting(Room(false, fin, old(msgIdx), length), old(msgIdx));
              overran == (fitting < length && fitting < |old(Rest())|)
      ensures ok == (length <= |old(Rest())| && !overran)
      ensures (msg == old(msg) || fresh(msg)) && (ok ==> fresh(msg))
      ensures ok ==>
                && Rest() == old(Rest())[length..]
                && msg[..msgIdx] == old(msg[..msgIdx]) + Masked(old(Rest())[..length], masks)
                && msgIdx == old(msgIdx) + length && msg.Length == msgIdx + if fin then 1 else 0
    {
      hide Masked;
      var block := Realloc(Room(false, fin, msgIdx, length));
      ok := ReadPayload(length, masks, block, msgIdx);
      if ok {
        msg, msgIdx := block, msgIdx + length;
      }
    }

    /** Ends the message with a NUL. A last frame without payload has to make room for it. */
    method Terminate(empty: bool)
      requires Valid() && (!empty ==> msgIdx < msg.Length)
      modifies this`msg, msg
      ensures Valid() && msg[..msgIdx] == old(msg[..msgIdx]) && msgIdx < msg.Length && msg[msgIdx] == 0
      ensures (msg == old(msg) || fresh(msg)) && msg.Length == if empty then msgIdx + 1 else old(msg.Length)
    {
      if empty {
        msg := Realloc(msgIdx + 1);
      }
      msg[msgIdx] := 0;
    }

    /** `read_frame` of a data frame, into the block that it reallocates. */
    method ReadData(fin: bool, len7: nat) returns (ok: bool)
      requires Valid() && !error && !overran
      modifies this`input, this`amtRead, this`curPos, this`error, this`overran, this`msg, this`msgIdx, this`frameSize,
               frm, msg
      ensures Valid() && (msg == old(msg) || fresh(msg)) && ok == (!error && !overran)
      ensures match ReadBody(old(Rest()), false, fin, len7, old(msgIdx), old(frameSize))
              case Bad => error && !overran
              case Overrun => !error && overran
              case Body(_, size, payload, rest) =>
                && ok && frameSize == size && msg[..msgIdx] == old(msg[..msgIdx]) + payload && Rest() == rest
                && (fin && size > 0 ==> msg.Length == msgIdx + 1 && msg[msgIdx] == 0)
    {
      hide Number;
      hide Extended;
      hide Masked;
      hide ReadBody;
      ghost var s, n, at, size := Rest(), Extended(len7), msgIdx, frameSize;
      BodyIs(s, false, fin, len7, at, size);
      var length, total, masks;
      ok, length, total, masks := ReadMasks(len7, frameSize);
      if !ok {
        return;
      }
      frameSize := total;
      if n + 4 + length <= |s| {
        SliceOfTail(s, n + 4, length);
      }
      if length > 0 {
        ok := Append(fin, length, masks);
        if !ok {
          return;
        }
      } else {
        NoPayload(s, n + 4, masks);
      }
      if fin && frameSize > 0 {
        Terminate(length == 0);
      }
    }

    /** `read_frame` of a control frame, into msg_ctrl. A payload of 125 bytes leaves no room for the NUL. */
    method ReadControl(len7: nat) returns (ok: bool, size: nat)
      requires Valid() && !error && !overran && len7 <= CONTROL_ROOM
      modifies this`input, this`amtRead, this`curPos, this`error, this`overran, this`nulBehind, frm, control
      ensures Valid() && ok == !error && !overran
      ensures match ReadBody(old(Rest()), true, true, len7, 0, 0)
              case Bad => error
              case Overrun => false
              case Body(_, size', payload, rest) =>
                ok && size == size' == |payload| && control[..size] == payload && Rest() == rest
      ensures nulBehind == (old(nulBehind) || (len7 == CONTROL_ROOM && 4 + len7 <= |old(Rest())|))
    {
      hide Number;
      hide Masked;
      hide ReadBody;
      ghost var s := Rest();
      assert Fitting(control.Length, 0) == CONTROL_ROOM;
      hide Fitting;
      ControlBody(s, len7);
      var length, masks;
      ok, length, size, masks := ReadMasks(len7, 0);
      if !ok {
        return;
      }
      assert size == length == len7;
      hide Extended;
      if 4 + length <= |s| {
        SliceOfTail(s, 4, length);
      }
      NoPayload(s, 4, masks);
      if length > 0 {
        ok := ReadPayload(length, masks, control, 0);
        if !ok {
          return;
        }
        if length < control.Length {
          control[length] := 0;
        } else {
          nulBehind := true;
        }
      }
    }

    /** `do_pong`. */
    method DoPong(payload: seq<Byte>) returns (ok: bool)
      modifies this`sent, this`sendable, this`error
      ensures ok == (old(sendable) > 0)
      ensures ok ==> sent == old(sent) + [payload] && sendable == old(sendable) - 1 && error == old(error)
      ensures !ok ==> sent == old(sent) && sendable == old(sendable) && error
    {
      if sendable == 0 {
        error := true;
        return false;
      }
      sent := sent + [payload];
      sendable := sendable - 1;
      ok := true;
    }

    ghost function State(): Acc
      requires msgIdx <= msg.Length
      reads this, msg
    {
      Acc(kind, frameSize, msg[..msgIdx], sent, sendable)
    }

    /** The message ends with a NUL, unless it is empty. */
    ghost predicate Terminated()
      reads this, msg
    {
      frameSize > 0 ==> msg.Length == msgIdx + 1 && msg[msgIdx] == 0
    }

    /** A data frame, once its header is read. */
    method DataFrame(fin: bool, opcode: nat, len7: nat)
      requires Valid() && !error && !overran && (opcode != CONT ==> kind == Some(opcode))
      modifies this, frm, msg
      ensures Valid() && (msg == old(msg) || fresh(msg))
      ensures sent == old(sent) && sendable == old(sendable) && nulBehind == old(nulBehind)
      ensures match Data(old(State()), fin, opcode, len7, old(Rest()))
              case Fail => error && !overran
              case Overruns => !error && overran
              case Go(acc, rest) => !fin && !error && !overran && State() == acc && Rest() == rest
              case Finish(acc, rest) => fin && !error && !overran && State() == acc && Rest() == rest && Terminated()
              case Closed(_, _) => false
    {
      hide ReadBody;
      var ok := ReadData(fin, len7);
    }

    /** A control frame, once its header is read. */
    method ControlFrame(opcode: nat, len7: nat) returns (close: bool)
      requires Valid() && !error && !overran && IsControl(opcode) && len7 <= CONTROL_ROOM
      modifies this, frm, control, msg
      ensures Valid() && msg == old(msg) && !overran
      ensures (close ==> sent == old(sent) && !error) && (error ==> sent == old(sent))
      ensures match Control(old(State()), opcode, len7, old(Rest()))
              case Fail => error
              case Overruns => false
              case Go(acc, rest) => !close && !error && State() == acc && Rest() == rest
              case Finish(_, _) => false
              case Closed(payload, rest) => close && Shows(payload) && Rest() == rest
      ensures nulBehind == (old(nulBehind) || (opcode != PONG && len7 == CONTROL_ROOM && 4 + len7 <= |old(Rest())|))
    {
      close := false;
      if opcode == PONG {
        var ok := SkipFrame(4 + len7);
        return;
      }
      var ok, size := ReadControl(len7);
      hide ReadBody;
      if !ok {
        return;
      }
      if opcode == PING {
        var ponged := DoPong(control[..size]);
      } else {
        frameSize := size;
        kind := Some(CLSE);
        close := true;
      }
    }

    /** What a close frame leaves behind. */
    ghost predicate Shows(payload: seq<Byte>)
      reads this, control
    {
      kind == Some(CLSE) && frameSize == |payload| <= control.Length && control[..frameSize] == payload
    }

    /** The checks of the first byte. */
    method CheckOpcode(b: Byte)
      requires Valid() && !error
      modifies this`kind, this`error
      ensures Valid() && error == !Expected(old(kind), closing, b) && (!error ==> kind == old(kind))
    {
      var opcode := (b % 16) as nat;
      if b / 16 % 8 != 0 {
        error := true;
        return;
      }
      if (kind.None? && opcode == CONT) || (kind.Some? && !IsControl(opcode) && opcode != CONT) {
        error := true;
        return;
      }
      if !IsData(opcode) && !IsControl(opcode) {
        kind := Some(opcode);
        error := true;
        return;
      }
      if closing && opcode != CLSE {
        error := true;
      }
    }

    /** What the decoder makes of a frame behind its first two bytes. */
    ghost function AfterHeader(acc: Acc, fin: bool, opcode: nat, len7: nat, s: seq<Byte>): Step {
      if !IsControl(opcode) then Data(acc, fin, opcode, len7, s)
      else if !fin || len7 > CONTROL_ROOM then Fail
      else Control(acc, opcode, len7, s)
    }

    /** A frame, once its first two bytes are read; `fin` stays set if the message is complete. */
    method Body(wasFin: bool, opcode: nat, len7: nat) returns (fin: bool, close: bool)
      requires Valid() && !error && !overran && (kind.None? ==> opcode != CONT)
      requires kind.Some? ==> opcode == CONT || IsControl(opcode)
      modifies this, frm, control, msg
      ensures Valid() && (msg == old(msg) || fresh(msg))
      ensures (error ==> sent == old(sent)) && (close ==> sent == old(sent) && !error)
      ensures match AfterHeader(old(State()), wasFin, opcode, len7, old(Rest()))
              case Fail => error && !overran
              case Overruns => !error && overran
              case Go(acc, rest) => !fin && !close && !error && !overran && State() == acc && Rest() == rest
              case Finish(acc, rest) =>
                fin && !close && !error && !overran && State() == acc && Rest() == rest && Terminated()
              case Closed(payload, rest) => close && !overran && Shows(payload) && Rest() == rest
      ensures nulBehind ==
                (old(nulBehind) || (IsControl(opcode) && wasFin && opcode != PONG && len7 == CONTROL_ROOM
                                    && 4 + len7 <= |old(Rest())|))
    {
      hide Data;
      hide Control;
      fin, close := wasFin, false;
      if IsControl(opcode) {
        if !fin || len7 > CONTROL_ROOM {
          error := true;
          return;
        }
        fin := false;
        close := ControlFrame(opcode, len7);
      } else {
        DataFromHeader(State(), fin, opcode, len7, Rest());
        if opcode != CONT {
          kind := Some(opcode);
        }
        DataFrame(fin, opcode, len7);
      }
    }

    /** One round of the loop of next_frame. */
    method Round() returns (fin: bool, close: bool)
      requires Valid() && !error && !overran
      modifies this, frm, control, msg
      ensures Valid() && (msg == old(msg) || fresh(msg))
      ensures (error ==> sent == old(sent)) && (close ==> sent == old(sent) && !error)
      ensures match Frame(old(Rest()), old(State()), closing)
              case Fail => error && !overran
              case Overruns => !error && overran
              case Go(acc, rest) => !fin && !close && !error && !overran && State() == acc && Rest() == rest
              case Finish(acc, rest) =>
                fin && !close && !error && !overran && State() == acc && Rest() == rest && Terminated()
              case Closed(payload, rest) => close && !overran && Shows(payload) && Rest() == rest
      ensures nulBehind == (old(nulBehind) || NulBehindNow(old(Rest()), old(State()), closing))
    {
      hide Data;
      hide Control;
      hide Shows;
      hide Terminated;
      fin, close := false, false;
      var b := NextByte();
      if b == -1 {
        return;
      }
      fin := b / 128 == 1;
      var opcode: nat := b % 16;
      CheckOpcode(b as Byte);
      if error {
        return;
      }
      var mask := NextByte();
      if mask == -1 {
        return;
      }
      fin, close := Body(fin, opcode, mask % 128);
    }

    /** `next_frame`: it returns 0, with a message or a close frame, or -1; unless the stream makes it write
        outside its buffer. */
    method NextFrame() returns (r: int)
      requires Valid() && !error && !overran
      modifies this, frm, control, msg
      ensures Valid()
      ensures match Decode(old(Rest()), Acc(None, 0, [], old(sent), old(sendable)), closing)
              case Error(pongs) => r == -1 && error && !overran && sent == pongs
              case Overran => overran
              case Message(acc, rest) =>
                r == 0 && !error && !overran && State() == acc && Rest() == rest && Terminated()
              case Close(payload, rest, pongs) =>
                r == 0 && !error && !overran && Shows(payload) && Rest() == rest && sent == pongs
      ensures nulBehind ==
                (old(nulBehind) || NulBehind(old(Rest()), Acc(None, 0, [], old(sent), old(sendable)), closing))
    {
      hide Frame;
      hide Decode;
      hide NulBehind;
      hide NulBehindNow;
      kind, frameSize, msgIdx := None, 0, 0;
      msg := new Byte[0];
      ghost var outcome, behind := Decode(Rest(), State(), closing), nulBehind || NulBehind(Rest(), State(), closing);
      var fin, close := false, false;
      while !fin && !error && !overran
        invariant Valid() && (msg == old(msg) || fresh(msg))
        invariant !fin && !error && !overran ==>
                    && Decode(Rest(), State(), closing) == outcome
                    && (nulBehind || NulBehind(Rest(), State(), closing)) == behind
        invariant fin || error || overran ==> nulBehind == behind
        invariant overran ==> outcome == Overran
        invariant error && !overran ==> outcome == Error(sent)
        invariant fin && !error && !overran ==> outcome == Message(State(), Rest()) && Terminated()
        decreases !fin && !error && !overran, |Rest()|
      {
        DecodeUnfolds(Rest(), State(), closing);
        NulBehindUnfolds(Rest(), State(), closing);
        FrameConsumes(Rest(), State(), closing);
        fin, close := Round();
        if close {
          return 0;
        }
      }
      r := if error then -1 else 0;
    }
  }

  function Least(a: nat, b: nat): nat {
    if a < b then a else b
  }

  /** Setting frame_type before the payload is read makes no difference. */
  lemma DataFromHeader(acc: Acc, fin: bool, opcode: nat, len7: nat, s: seq<Byte>)
    ensures opcode != CONT ==> Data(acc.(kind := Some(opcode)), fin, opcode, len7, s) == Data(acc, fin, opcode, len7, s)
  {
    hide ReadBody;
  }

  lemma ControlBody(s: seq<Byte>, len7: nat)
    requires len7 <= CONTROL_ROOM
    ensures Extended(len7) == 0 && Announced(s, len7) == len7
    ensures ReadBody(s, true, true, len7, 0, 0)
         == if |s| < 4 + len7 then Bad else Body(len7, len7, Masked(s[4..4 + len7], s[..4]), s[4 + len7..])
  {
    hide Masked;
    if |s| >= 4 { assert s[0..4] == s[..4]; }
  }

  lemma NoPayload(s: seq<Byte>, i: nat, masks: seq<Byte>)
    requires |masks| == 4
    ensures i <= |s| ==> Masked(s[i..i], masks) == []
  {}

  lemma NulBehindUnfolds(s: seq<Byte>, acc: Acc, closing: bool)
    ensures NulBehind(s, acc, closing) <==>
              || NulBehindNow(s, acc, closing)
              || var f := Frame(s, acc, closing); f.Go? && NulBehind(f.rest, f.acc, closing)
  {
    hide Frame;
    hide NulBehindNow;
  }

  lemma MaskedNext(s: seq<Byte>, i: nat, masks: seq<Byte>)
    requires i < |s| && |masks| == 4
    ensures Masked(s[..i + 1], masks) == Masked(s[..i], masks) + [XorByte(s[i], masks[i % 4])]
  {
    hide XorByte;
  }

  lemma BodyIs(s: seq<Byte>, control: bool, fin: bool, len7: nat, at: nat, size: nat)
    ensures var n, b := Extended(len7), ReadBody(s, control, fin, len7, at, size);
            if |s| < n then b == Bad else
              var length := Announced(s, len7);
              var fitting := Fitting(Room(control, fin, at, length), at);
              if (size + length) % WORD > MAX_FRAME_LENGTH || |s| < n + 4 then b == Bad
              else if fitting < length && n + 4 + fitting < |s| then b == Overrun
              else if |s| < n + 4 + length then b == Bad
              else b == Body(length, (size + length) % WORD, Masked(s[n + 4..n + 4 + length], s[n..n + 4]),
                             s[n + 4 + length..])
  {
    hide Number;
    hide Masked;
  }

  lemma SliceOfTail<T>(s: seq<T>, n: nat, m: nat)
    requires n + m <= |s|
    ensures s[n..][..m] == s[n..n + m] && s[n..][m..] == s[n + m..]
  {}

  lemma TakeFirst<T>(a: seq<T>, b: seq<T>)
    requires |a| > 0
    ensures (a + b)[0] == a[0] && (a + b)[1..] == a[1..] + b
  {}
}
