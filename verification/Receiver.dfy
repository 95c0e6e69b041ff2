/**
 The receiver: applies exactly the next operation of its stream through a
 fallible callback and answers every addressed DATA frame with an ACK or NACK.
 */
module Receiver {
  import opened Words
  import opened Framing
  import opened OpFrames
  import opened Operations

  datatype State = State(id: u16, expectedSender: u16, seqNo: u16, stream: u32, last: u32)

  /** How the application callback behaves when it is called. */
  datatype Callback =
    | Missing        // no callback was supplied
    | Succeeds
    | FailsClean     // reports failure and changed nothing
    | FailsDirty     // reports failure although the change was made

  /** What one call did: the new state, the frame answered, and whether the callback was called. */
  datatype Reaction = Reaction(state: State, reply: Option<Frame>, ran: bool)

  function Init(id: u16, expectedSender: u16, stream: u32, last: u32): State {
    State(id, expectedSender, 1, stream, last)
  }

  /** Encodes an answer; the sequence number is spent even if the encoder refuses. */
  function Answer(r: State, to: u16, payload: Payload, cap: nat, ran: bool): Reaction {
    var f := Frame(Header(r.id, to, r.seqNo), payload);
    Reaction(r.(seqNo := Inc16(r.seqNo)),
             if Legal(f) && FrameLength(TypeOf(payload)) <= cap then Some(f) else None, ran)
  }

  function NackOf(r: State, error: u16): Payload {
    Nack(r.stream, error, 0, Inc32(r.last))
  }

  /** handle_data on a decoded DATA frame. */
  function HandleData(r: State, f: Frame, cap: nat, callback: Callback): Reaction
    requires f.payload.Data? && Legal(f)
  {
    var to, d := f.header.sender, f.payload;
    if f.header.receiver != r.id then Reaction(r, None, false)
    else if r.expectedSender != 0 && to != r.expectedSender then Answer(r, to, NackOf(r, ERR_RECEIVER), cap, false)
    else if d.stream != r.stream then
      if cap < FrameLength(NACK) then Reaction(r, None, false) else Answer(r, to, NackOf(r, ERR_STREAM), cap, false)
    else if d.opId <= r.last then
      if cap < FrameLength(ACK) then Reaction(r, None, false) else Answer(r, to, Ack(r.stream, r.last), cap, false)
    else if cap < FrameLength(NACK) then Reaction(r, None, false)
    else if d.opId != Inc32(r.last) then Answer(r, to, NackOf(r, ERR_SEQUENCE_GAP), cap, false)
    else if callback == Succeeds then Answer(r.(last := d.opId), to, Ack(r.stream, d.opId), cap, true)
    else Answer(r, to, NackOf(r, ERR_APPLY_FAILED), cap, callback != Missing)
  }

  /** handle_beacon on a decoded BEACON frame: asks for the next operation when behind. */
  function HandleBeacon(r: State, f: Frame, cap: nat): Reaction
    requires f.payload.Beacon? && Legal(f)
  {
    if (r.expectedSender != 0 && f.header.sender != r.expectedSender)
       || f.payload.stream != r.stream || f.payload.latest <= r.last
    then Reaction(r, None, false)
    else Answer(r, f.header.sender, Request(r.stream, Inc32(r.last)), cap, false)
  }

  /**
   Atomicity, for every frame, buffer and callback: the position advances
   exactly when the callback ran and succeeded, by exactly one, and the call
   then answers an ACK for the new position; a call that answers nothing ran
   nothing.
   */
  lemma ApplyIsAtomic(r: State, f: Frame, cap: nat, callback: Callback)
    requires f.payload.Data? && Legal(f)
    ensures var e := HandleData(r, f, cap, callback);
            && (e.state.last != r.last <==> e.ran && callback == Succeeds)
            && (e.ran ==> f.payload.opId == r.last + 1 && f.payload.stream == r.stream && f.header.receiver == r.id)
            && (e.state.last != r.last ==>
                  e.state.last == r.last + 1 && e.reply.Some? && Legal(e.reply.value) &&
                  e.reply.value.payload == Ack(r.stream, r.last + 1) && e.reply.value.header.receiver == f.header.sender)
            && (e.reply == None ==> !e.ran)
  {}

  /** Every answer acknowledges the position reached or asks for the one after it. */
  lemma AnswersTellPosition(r: State, f: Frame, cap: nat, callback: Callback)
    requires f.payload.Data? && Legal(f)
    ensures var e := HandleData(r, f, cap, callback);
            e.reply.Some? ==>
              var a := e.reply.value;
              && Legal(a) && a.header.sender == r.id && a.payload.stream == r.stream
              && (a.payload == Ack(r.stream, e.state.last)
                  || (a.payload.Nack? && a.payload.expected == e.state.last + 1))
  {}

  // ---------- The set of numbers operations act on ----------

  /** The application's data, changed through the callback. */
  class Engine {
    var numbers: set<u32>

    constructor ()
      ensures numbers == {}
    {
      numbers := {};
    }

    method Call(op: Op, callback: Callback) returns (ok: bool)
      modifies this
      ensures ok == (callback == Succeeds)
      ensures numbers == if callback == Succeeds || callback == FailsDirty then Apply(old(numbers), op) else old(numbers)
      ensures ok ==> Apply(numbers, op) == numbers
    {
      if callback == Succeeds || callback == FailsDirty {
        if op.opType == ADD {
          numbers := numbers + {op.value};
        } else {
          numbers := numbers - {op.value};
        }
      }
      return callback == Succeeds;
    }
  }

  class Receiver {
    const id: u16
    const expectedSender: u16
    const stream: u32
    var seqNo: u16
    var last: u32

    ghost function View(): State
      reads this
    {
      State(id, expectedSender, seqNo, stream, last)
    }

    constructor (id: u16, expectedSender: u16, stream: u32, last: u32)
      ensures View() == Init(id, expectedSender, stream, last)
    {
      this.id, this.expectedSender, this.stream := id, expectedSender, stream;
      this.seqNo, this.last := 1, last;
    }

    method Reply(to: u16, payload: Payload, out: array<byte>) returns (ok: bool, len: nat)
      modifies this`seqNo, out
      ensures var e := Answer(old(View()), to, payload, out.Length, false);
              View() == e.state && Wrote(e.reply, ok, len, out[..])
    {
      var f := Frame(Header(id, to, seqNo), payload);
      seqNo := Inc16(seqNo);
      ok, len := Encode(out, out.Length, f);
    }

    /** Whether a call's effect on the engine and the output buffer is the one of reaction `e`. */
    ghost predicate Shows(e: Reaction, before: set<u32>, d: Payload, callback: Callback, engine: Engine,
                          ok: bool, len: nat, out: seq<byte>)
      requires d.Data?
      reads this, engine
    {
      && View() == e.state && Wrote(e.reply, ok, len, out)
      && engine.numbers == if e.ran && (callback == Succeeds || callback == FailsDirty)
                           then Apply(before, Op(d.opType, d.value)) else before
    }

    /** The part of handle_data after decoding. */
    method ProcessData(f: Frame, engine: Engine, callback: Callback, out: array<byte>) returns (ok: bool, len: nat)
      requires f.payload.Data? && Legal(f)
      modifies this, engine, out
      ensures Shows(HandleData(old(View()), f, out.Length, callback), old(engine.numbers), f.payload, callback,
              engine, ok, len, out[..])
    {
      var to, d := f.header.sender, f.payload;
      if f.header.receiver != id {
        return false, 0;
      }
      if expectedSender != 0 && to != expectedSender {
        ok, len := Reply(to, Nack(stream, ERR_RECEIVER, 0, Inc32(last)), out);
        return;
      }
      if d.stream != stream {
        if out.Length < FrameLength(NACK) {
          return false, 0;
        }
        ok, len := Reply(to, Nack(stream, ERR_STREAM, 0, Inc32(last)), out);
        return;
      }
      if d.opId <= last {
        if out.Length < FrameLength(ACK) {
          return false, 0;
        }
        ok, len := Reply(to, Ack(stream, last), out);
        return;
      }
      if out.Length < FrameLength(NACK) {
        return false, 0;
      }
      if d.opId != Inc32(last) {
        ok, len := Reply(to, Nack(stream, ERR_SEQUENCE_GAP, 0, Inc32(last)), out);
        return;
      }
      ok, len := ApplyNext(to, d, engine, callback, out);
    }

    /** Calls the callback with the next operation and answers for its outcome. */
    method ApplyNext(to: u16, d: Payload, engine: Engine, callback: Callback, out: array<byte>) returns (ok: bool, len: nat)
      requires d.Data? && d.opId == Inc32(last)
      modifies this, engine, out
      ensures var r := old(View());
              var e := if callback == Succeeds then Answer(r.(last := d.opId), to, Ack(stream, d.opId), out.Length, true)
                       else Answer(r, to, NackOf(r, ERR_APPLY_FAILED), out.Length, callback != Missing);
              Shows(e, old(engine.numbers), d, callback, engine, ok, len, out[..])
    {
      var applied := false;
      if callback != Missing {
        applied := engine.Call(Op(d.opType, d.value), callback);
      }
      if !applied {
        ok, len := Reply(to, Nack(stream, ERR_APPLY_FAILED, 0, Inc32(last)), out);
        return;
      }
      last := d.opId;
      ok, len := Reply(to, Ack(stream, last), out);
    }

    /** handle_data. The input and output buffers may be the same array. */
    method HandleDataFrame(input: array<byte>, inputLen: nat, engine: Engine, callback: Callback, out: array<byte>)
      returns (ok: bool, len: nat)
      requires inputLen <= input.Length
      modifies this, engine, out
      ensures match Decode(DATA, old(input[..inputLen]))
              case None => !ok && len == 0 && View() == old(View()) && engine.numbers == old(engine.numbers)
              case Some(f) =>
                f.payload.Data? &&
                Shows(HandleData(old(View()), f, out.Length, callback), old(engine.numbers), f.payload, callback,
                    engine, ok, len, out[..])
    {
      var decoded := Decode(DATA, input[..inputLen]);
      if decoded == None {
        return false, 0;
      }
      ok, len := ProcessData(decoded.value, engine, callback, out);
    }

    method HandleBeaconFrame(input: array<byte>, inputLen: nat, out: array<byte>) returns (ok: bool, len: nat)
      requires inputLen <= input.Length
      modifies this`seqNo, out
      ensures match Decode(BEACON, old(input[..inputLen]))
              case None => !ok && len == 0 && View() == old(View())
              case Some(f) =>
                var e := HandleBeacon(old(View()), f, out.Length);
                View() == e.state && Wrote(e.reply, ok, len, out[..])
    {
      var decoded := Decode(BEACON, input[..inputLen]);
      if decoded == None {
        return false, 0;
      }
      var f := decoded.value;
      if expectedSender != 0 && f.header.sender != expectedSender {
        return false, 0;
      }
      if f.payload.stream != stream || f.payload.latest <= last {
        return false, 0;
      }
      ok, len := Reply(f.header.sender, Request(stream, Inc32(last)), out);
    }
  }
}
