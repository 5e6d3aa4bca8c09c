/**
 The stream scheduler of src/duplex.rs: one owner interleaves an application call and a console input over a
 stream that accepts bytes in pieces. Clock readings are parameters; so is what each write does.
 */
module Duplex {
  import opened Mux
  import opened MuxDecoder
  import opened Application
  import Json

  datatype Lane = ApplicationLane | InputLane

  datatype Failure =
    | TimedOut
    | Aborted(reason: string)
    | Refused(value: Json.Value)
    | UnsupportedProtocol
    | NotStarted(error: StartError)

  datatype Result = Done(value: Json.Value) | Failed(failure: Failure)

  datatype Completion = Completion(key: string, lane: Lane, result: Result)

  datatype Pending = Pending(key: string, deadline: nat, kind: bv8, request: bv32)

  datatype Transfer = Transfer(
    key: string,
    lane: Lane,
    deadline: nat,
    frames: seq<seq<bv8>>,
    offset: nat,
    result: Json.Value)

  datatype DuplexState = DuplexState(session: Option<SessionState>, pending: Option<Pending>, tx: seq<Transfer>)

  datatype StartError =
    | RequestPending
    | NotConnected
    | WriteInProgress
    | InputPending
    | Session(error: SessionError)

  /** What the driver does with one write: it takes some bytes, none for now, or it is gone. */
  datatype WriteOutcome = Accepted(n: nat) | Transient | Broken

  datatype TickError = WriteTimedOut | StreamClosed | WriteFailed

  datatype Ticked = Ticked(completions: seq<Completion>, written: seq<bv8>) | TickFailed(error: TickError)

  datatype Fed =
    | Fed(completions: seq<Completion>, outputs: seq<Output>)
    | FeedFailed(error: SessionError, outputs: seq<Output>)

  const EMPTY := DuplexState(None, None, [])

  // ---------- starting ----------

  function StartedApplication(s: DuplexState, key: string, frame: Frame, kind: bv8, deadline: nat): DuplexState {
    s.(pending := Some(Pending(key, deadline, kind, frame.request)),
       tx := s.tx + [Transfer(key, ApplicationLane, deadline, [Wire(frame)], 0, Json.Null)])
  }

  function RequestStart(s: DuplexState, key: string, command: Json.Command, deadline: nat, inRange: seq<bv8> -> bool)
    : (DuplexState, Option<StartError>)
  {
    if s.pending.Some? then (s, Some(RequestPending))
    else if s.session.None? then (s, Some(NotConnected))
    else
      var (session, prepared) := PreparedRequest(s.session.value, command, inRange);
      var s' := s.(session := Some(session));
      match prepared
      case Rejected(e) => (s', Some(Session(e)))
      case Ready(frame) =>
        if !Encodable(frame) then (s', Some(Session(CannotEncode)))
        else (StartedApplication(s', key, frame, RESPONSE, deadline), None)
  }

  function ConnectStart(s: DuplexState, key: string, deadline: nat, nonce: bv64): (DuplexState, Option<StartError>) {
    if s.pending.Some? then (s, Some(RequestPending))
    else if s.tx != [] then (s, Some(WriteInProgress))
    else
      var s' := s.(session := Some(Begin(nonce)));
      if !Encodable(HelloFrame(nonce)) then (s', Some(Session(CannotEncode)))
      else (StartedApplication(s', key, HelloFrame(nonce), HELLO_ACK, deadline), None)
  }

  predicate HasInput(tx: seq<Transfer>) {
    exists i :: 0 <= i < |tx| && tx[i].lane == InputLane
  }

  function InputFrames(session: Option<SessionState>, data: seq<bv8>): ConsoleFrames {
    match session
    case Some(s) => PreparedConsole(s, data)
    case None => Frames(Chunks(data))
  }

  function InputStart(s: DuplexState, key: string, data: seq<bv8>, deadline: nat, result: Json.Value)
    : (DuplexState, Option<StartError>)
  {
    if HasInput(s.tx) then (s, Some(InputPending))
    else
      match InputFrames(s.session, data)
      case NoFrames(e) => (s, Some(Session(e)))
      case Frames(frames) => (s.(tx := s.tx + [Transfer(key, InputLane, deadline, frames, 0, result)]), None)
  }

  // ---------- transmitting ----------

  function ExpireStep(s: DuplexState, now: nat): (DuplexState, seq<Completion>) {
    if s.pending.Some? && now >= s.pending.value.deadline then
      (s.(pending := None, session := if s.pending.value.kind == HELLO_ACK then None else s.session),
       [Completion(s.pending.value.key, ApplicationLane, Failed(TimedOut))])
    else (s, [])
  }

  /** One reading of the clock for each transfer looked at. */
  predicate Overdue(tx: seq<Transfer>, readings: seq<nat>)
    requires |readings| == |tx|
  {
    exists i :: 0 <= i < |tx| && readings[i] >= tx[i].deadline
  }

  /** The slice offered to the driver. */
  function Offer(t: Transfer): (r: seq<bv8>)
    requires t.frames != [] && t.offset <= |t.frames[0]|
    ensures |r| <= 256
  {
    var end := if t.offset + 256 <= |t.frames[0]| then t.offset + 256 else |t.frames[0]|;
    t.frames[0][t.offset..end]
  }

  /** The front transfer after n more of its bytes were accepted. */
  function Advanced(t: Transfer, n: nat): Transfer
    requires t.frames != []
  {
    if t.offset + n == |t.frames[0]| then t.(frames := t.frames[1..], offset := 0) else t.(offset := t.offset + n)
  }

  function Finished(t: Transfer): seq<Completion> {
    if t.lane == InputLane then [Completion(t.key, InputLane, Done(t.result))] else []
  }

  /** Leaves the queue, goes to its back, or stays in front. */
  function Requeue(front: Transfer, rest: seq<Transfer>): (seq<Transfer>, seq<Completion>) {
    if front.frames == [] then (rest, Finished(front))
    else if front.offset == 0 then (rest + [front], [])
    else ([front] + rest, [])
  }

  predicate OfferFits(s: DuplexState, outcome: WriteOutcome) {
    s.tx != [] && s.tx[0].frames != [] ==>
      && s.tx[0].offset <= |s.tx[0].frames[0]|
      && (outcome.Accepted? ==> outcome.n <= |Offer(s.tx[0])|)
  }

  function TickStep(s: DuplexState, readings: seq<nat>, outcome: WriteOutcome, now: nat): (DuplexState, Ticked)
    requires |readings| == |s.tx| && OfferFits(s, outcome)
  {
    if Overdue(s.tx, readings) then (s, TickFailed(WriteTimedOut))
    else if s.tx == [] then
      var (s', done) := ExpireStep(s, now);
      (s', Ticked(done, []))
    else if s.tx[0].frames == [] then
      var (tx, finished) := Requeue(s.tx[0], s.tx[1..]);
      var (s', expired) := ExpireStep(s.(tx := tx), now);
      (s', Ticked(finished + expired, []))
    else
      match outcome
      case Broken => (s, TickFailed(WriteFailed))
      case Transient =>
        var (s', expired) := ExpireStep(s, now);
        (s', Ticked(expired, []))
      case Accepted(n) =>
        if n == 0 then (s, TickFailed(StreamClosed))
        else
          var (tx, finished) := Requeue(Advanced(s.tx[0], n), s.tx[1..]);
          var (s', expired) := ExpireStep(s.(tx := tx), now);
          (s', Ticked(finished + expired, Offer(s.tx[0])[..n]))
  }

  // ---------- receiving ----------

  function ExpectedReply(s: DuplexState, now: nat): Option<Expected> {
    if s.pending.Some? && now < s.pending.value.deadline
    then Some(Expected(s.pending.value.kind, s.pending.value.request))
    else None
  }

  /** The pending call takes its reply. */
  function Settle(s: DuplexState, reply: Reply): (DuplexState, Completion)
    requires s.pending.Some? && s.session.Some?
  {
    var p := s.pending.value;
    var s' := s.(pending := None);
    match reply
    case Refusal(v) =>
      (if p.kind == HELLO_ACK then s'.(session := None) else s', Completion(p.key, ApplicationLane, Failed(Refused(v))))
    case Answer(v) =>
      if p.kind != HELLO_ACK then (s', Completion(p.key, ApplicationLane, Done(v)))
      else if SpeaksProtocolOne(v) then
        (s'.(session := Some(s.session.value.(info := v, valid := true))), Completion(p.key, ApplicationLane, Done(v)))
      else (s'.(session := None), Completion(p.key, ApplicationLane, Failed(UnsupportedProtocol)))
  }

  function FeedItemsStep(s: DuplexState, items: seq<Decoded>, before: nat, after: nat,
                     parse: seq<bv8> -> Option<Json.Value>): (DuplexState, Fed)
    requires s.session.Some?
  {
    var (session, r) := ProcessItems(s.session.value, items, ExpectedReply(s, before), parse);
    var s' := s.(session := Some(session));
    if r.error.Some? then (s', FeedFailed(r.error.value, r.outputs))
    else if r.reply.Some? && s.pending.Some? then
      var (t, completion) := Settle(s', r.reply.value);
      var (t', expired) := ExpireStep(t, after);
      (t', Fed([completion] + expired, r.outputs))
    else
      var (t, expired) := ExpireStep(s', after);
      (t, Fed(expired, r.outputs))
  }

  function FeedStep(s: DuplexState, bytes: seq<bv8>, before: nat, after: nat,
                parse: seq<bv8> -> Option<Json.Value>): (DuplexState, Fed)
  {
    if s.session.Some? then
      var session := s.session.value;
      FeedItemsStep(s.(session := Some(session.(decoder := Run(session.decoder, bytes)))),
                Items(session.decoder, bytes), before, after, parse)
    else
      var (s', expired) := ExpireStep(s, after);
      (s', Fed(expired, [Console(bytes)]))
  }

  function AbortedInputs(tx: seq<Transfer>, reason: string): seq<Completion> {
    if tx == [] then []
    else AbortedInputs(tx[..|tx| - 1], reason) +
         if tx[|tx| - 1].lane == InputLane
         then [Completion(tx[|tx| - 1].key, InputLane, Failed(Aborted(reason)))] else []
  }

  function AbortStep(s: DuplexState, reason: string): (DuplexState, seq<Completion>) {
    (EMPTY,
     (if s.pending.Some? then [Completion(s.pending.value.key, ApplicationLane, Failed(Aborted(reason)))] else [])
     + AbortedInputs(s.tx, reason))
  }

  // ---------- the Duplex class ----------

  /** The transmitting side of a serial device: it keeps what it accepted. */
  class SerialStream {
    var accepted: seq<bv8>

    method Write(bytes: seq<bv8>, outcome: WriteOutcome)
      requires outcome.Accepted? ==> outcome.n <= |bytes|
      modifies this
      ensures accepted == old(accepted) + if outcome.Accepted? then bytes[..outcome.n] else []
    {
      if outcome.Accepted? {
        accepted := accepted + bytes[..outcome.n];
      }
    }
  }

  method HasInputLoop(tx: seq<Transfer>) returns (found: bool)
    ensures found == HasInput(tx)
  {
    for i := 0 to |tx|
      invariant forall j :: 0 <= j < i ==> tx[j].lane != InputLane
    {
      if tx[i].lane == InputLane {
        return true;
      }
    }
    return false;
  }

  method OverdueLoop(tx: seq<Transfer>, readings: seq<nat>) returns (found: bool)
    requires |readings| == |tx|
    ensures found == Overdue(tx, readings)
  {
    for i := 0 to |tx|
      invariant forall j :: 0 <= j < i ==> readings[j] < tx[j].deadline
    {
      if readings[i] >= tx[i].deadline {
        return true;
      }
    }
    return false;
  }

  class Duplex {
    var session: Session?
    var pending: Option<Pending>
    var tx: seq<Transfer>

    ghost function Repr(): set<object>
      reads this, session
    {
      {this} + if session == null then {} else {session, session.decoder}
    }

    function Value(): DuplexState
      reads this, session, if session == null then {} else {session.decoder}
    {
      DuplexState(if session == null then None else Some(session.Value()), pending, tx)
    }

    predicate Valid()
      reads this, session, if session == null then {} else {session.decoder}
    {
      session != null ==> session.Valid()
    }

    constructor ()
      ensures Value() == EMPTY && Valid() && fresh(Repr())
    {
      session := null;
      pending := None;
      tx := [];
    }

    method StartApplication(key: string, command: Option<Json.Command>, deadline: nat, nonce: bv64,
                            inRange: seq<bv8> -> bool)
      returns (error: Option<StartError>)
      requires Valid()
      modifies Repr()
      ensures Valid() && fresh(Repr() - old(Repr()))
      ensures (Value(), error) == match command
                                  case Some(c) => RequestStart(old(Value()), key, c, deadline, inRange)
                                  case None => ConnectStart(old(Value()), key, deadline, nonce)
    {
      hide Wire;
      if pending.Some? {
        return Some(RequestPending);
      }
      var frame, kind;
      if command.Some? {
        if session == null {
          return Some(NotConnected);
        }
        var prepared := session.PrepareRequest(command.value, inRange);
        if prepared.Rejected? {
          return Some(Session(prepared.error));
        }
        frame, kind := prepared.frame, RESPONSE;
      } else {
        if tx != [] {
          return Some(WriteInProgress);
        }
        session := new Application.Session.BeginConnect(nonce);
        frame, kind := HelloFrame(nonce), HELLO_ACK;
      }
      var encoded := Encode(frame);
      if encoded.Err? {
        return Some(Session(CannotEncode));
      }
      pending := Some(Pending(key, deadline, kind, frame.request));
      tx := tx + [Transfer(key, ApplicationLane, deadline, [encoded.wire], 0, Json.Null)];
      return None;
    }

    method StartInput(key: string, data: seq<bv8>, deadline: nat, result: Json.Value)
      returns (error: Option<StartError>)
      requires Valid()
      modifies this`tx
      ensures Valid()
      ensures (Value(), error) == InputStart(old(Value()), key, data, deadline, result)
    {
      var busy := HasInputLoop(tx);
      if busy {
        return Some(InputPending);
      }
      var frames: seq<seq<bv8>>;
      if session != null {
        var prepared := session.PrepareConsole(data);
        if prepared.NoFrames? {
          return Some(Session(prepared.error));
        }
        frames := prepared.wires;
      } else {
        frames := Chunks(data);
      }
      tx := tx + [Transfer(key, InputLane, deadline, frames, 0, result)];
      return None;
    }

    method Expire(now: nat) returns (done: seq<Completion>)
      requires Valid()
      modifies this
      ensures Valid() && Repr() <= old(Repr())
      ensures (Value(), done) == ExpireStep(old(Value()), now)
    {
      if pending.Some? && now >= pending.value.deadline {
        var expired := pending.value;
        pending := None;
        if expired.kind == HELLO_ACK {
          session := null;
        }
        return [Completion(expired.key, ApplicationLane, Failed(TimedOut))];
      }
      return [];
    }

    /** tick: one bounded write. The readings are those of the overdue check, now the one in expire. */
    method Tick(io: SerialStream, readings: seq<nat>, outcome: WriteOutcome, now: nat) returns (r: Ticked)
      requires Valid() && |readings| == |tx| && OfferFits(Value(), outcome)
      requires io !in Repr()
      modifies this, io
      ensures Valid() && Repr() <= old(Repr())
      ensures (Value(), r) == TickStep(old(Value()), readings, outcome, now)
      ensures io.accepted == old(io.accepted) + if r.Ticked? then r.written else []
    {
      var overdue := OverdueLoop(tx, readings);
      if overdue {
        return TickFailed(WriteTimedOut);
      }
      var done: seq<Completion> := [];
      var written: seq<bv8> := [];
      if tx != [] {
        var front := tx[0];
        if front.frames != [] {
          var frame := front.frames[0];
          var end := if front.offset + 256 <= |frame| then front.offset + 256 else |frame|;
          var offer := frame[front.offset..end];
          assert offer == Offer(front);
          io.Write(offer, outcome);
          match outcome {
            case Accepted(n) =>
              if n == 0 {
                return TickFailed(StreamClosed);
              }
              written := offer[..n];
              front := front.(offset := front.offset + n);
            case Transient =>
              var expired := Expire(now);
              return Ticked(expired, []);
            case Broken =>
              return TickFailed(WriteFailed);
          }
          if front.offset == |frame| {
            front := front.(frames := front.frames[1..], offset := 0);
          }
          tx := tx[0 := front];
          assert tx[1..] == old(tx)[1..];
        }
        if front.frames == [] {
          tx := tx[1..];
          if front.lane == InputLane {
            done := [Completion(front.key, InputLane, Done(front.result))];
          }
        } else if front.offset == 0 {
          tx := tx[1..] + [front];
        } else {
          assert tx == [front] + tx[1..];
        }
      }
      var expired := Expire(now);
      assert done == [] ==> done + expired == expired;
      return Ticked(done + expired, written);
    }

    method Feed(bytes: seq<bv8>, before: nat, after: nat, parse: seq<bv8> -> Option<Json.Value>) returns (r: Fed)
      requires Valid()
      modifies Repr()
      ensures Valid() && Repr() <= old(Repr())
      ensures (Value(), r) == FeedStep(old(Value()), bytes, before, after, parse)
    {
      hide Run;
      hide Items;
      var done: seq<Completion> := [];
      var outputs: seq<Output>;
      var expected := if pending.Some? && before < pending.value.deadline
                      then Some(Expected(pending.value.kind, pending.value.request))
                      else None;
      if session != null {
        ghost var start := Value();
        var processed := session.Process(bytes, expected, parse);
        if processed.error.Some? {
          return FeedFailed(processed.error.value, processed.outputs);
        }
        outputs := processed.outputs;
        if processed.reply.Some? {
          // pending.take().unwrap()
          assert pending.Some? by {
            var _ := ReplyHasSource(start.session.value.(decoder := Run(start.session.value.decoder, bytes)),
                                    Items(start.session.value.decoder, bytes), expected, parse);
          }
          var settled := pending.value;
          pending := None;
          var result: Result;
          match processed.reply.value {
            case Refusal(v) =>
              result := Failed(Refused(v));
            case Answer(v) =>
              result := Done(v);
              if settled.kind == HELLO_ACK {
                var ok := session.AcceptHello(v);
                if !ok {
                  result := Failed(UnsupportedProtocol);
                }
              }
          }
          if settled.kind == HELLO_ACK && result.Failed? {
            session := null;
          }
          done := [Completion(settled.key, ApplicationLane, result)];
        }
      } else {
        outputs := [Console(bytes)];
      }
      var expired := Expire(after);
      assert done == [] ==> done + expired == expired;
      return Fed(done + expired, outputs);
    }

    method Abort(reason: string) returns (done: seq<Completion>)
      modifies this
      ensures Valid() && Repr() <= old(Repr())
      ensures (Value(), done) == AbortStep(old(Value()), reason)
    {
      done := [];
      if pending.Some? {
        done := [Completion(pending.value.key, ApplicationLane, Failed(Aborted(reason)))];
        pending := None;
      }
      ghost var first := done;
      for i := 0 to |tx|
        invariant tx == old(tx) && pending == None
        invariant done == first + AbortedInputs(tx[..i], reason)
      {
        assert tx[..i + 1][..i] == tx[..i];
        if tx[i].lane == InputLane {
          done := done + [Completion(tx[i].key, InputLane, Failed(Aborted(reason)))];
        }
      }
      assert tx[..|tx|] == tx;
      tx := [];
      session := null;
    }
  }
}
