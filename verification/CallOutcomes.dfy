/**
 When the calls of src/duplex.rs end, and how: deadlines, negotiations, failing writes, and the result an input was
 started with. Every statement is about single calls in any state, or about all calls of a run.
 */
module CallOutcomes {
  import opened Mux
  import opened MuxDecoder
  import opened MuxStream
  import opened Application
  import opened Duplex
  import opened DuplexRuns
  import opened Delivery
  import Json
  import T = Transmission

  // ---------- deadlines ----------

  /** The last reading of the clock in a call that succeeds. */
  function LastReading(c: Call): nat
    requires c.TickCall? || c.FeedCall?
  {
    if c.TickCall? then c.now else c.after
  }

  /** A tick or a feed that does not fail. */
  predicate Succeeds(s: DuplexState, c: Call, env: Env) {
    match c
    case TickCall(readings, outcome, now) => Allowed(s, c) && TickStep(s, readings, outcome, now).1.Ticked?
    case FeedCall(bytes, before, after) => FeedStep(s, bytes, before, after, env.parse).1.Fed?
    case _ => false
  }

  /** After a successful tick or feed, a call that is still pending was in time at its last reading. */
  lemma PendingIsInTime(s: DuplexState, c: Call, env: Env)
    requires Succeeds(s, c, env)
    ensures var s' := Apply(s, c, env).0;
            s'.pending.Some? ==> s'.pending == s.pending && LastReading(c) < s.pending.value.deadline
  {
    hide ProcessItems;
    hide Run;
    hide Items;
    hide Requeue;
    hide Overdue;
    hide Advanced;
    hide Offer;
    hide SpeaksProtocolOne;
  }

  /** And in every run: no call stays pending beyond its deadline. */
  lemma NoCallOutlivesItsDeadline(calls: seq<Call>, env: Env)
    requires Feasible(EMPTY, calls, env) && calls != []
    requires Succeeds(After(EMPTY, calls[..|calls| - 1], env), calls[|calls| - 1], env)
    ensures var s := After(EMPTY, calls, env);
            s.pending.Some? ==> LastReading(calls[|calls| - 1]) < s.pending.value.deadline
  {
    hide Apply;
    hide Succeeds;
    PendingIsInTime(After(EMPTY, calls[..|calls| - 1], env), calls[|calls| - 1], env);
  }

  /** The session but for what received bytes may change: its decoder, and whether it is still valid. */
  predicate SameSession(a: Option<SessionState>, b: Option<SessionState>) {
    && (a.None? <==> b.None?)
    && (a.Some? ==>
          && b.value.nonce == a.value.nonce && b.value.nextRequest == a.value.nextRequest
          && b.value.info == a.value.info && (b.value.valid ==> a.value.valid))
  }

  lemma ItemsKeepSession(s: SessionState, items: seq<Decoded>, expected: Option<Expected>,
                         parse: seq<bv8> -> Option<Json.Value>)
    ensures SameSession(Some(s), Some(ProcessItems(s, items, expected, parse).0))
  {
    hide Handle;
  }

  /** What a call that times out leaves. */
  predicate TimesOut(s: DuplexState, s': DuplexState, done: Completion, reading: nat) {
    && s.pending.Some? && s.pending.value.deadline <= reading
    && done == Completion(s.pending.value.key, ApplicationLane, Failed(TimedOut))
    && s'.pending.None?
    && if s.pending.value.kind == HELLO_ACK then s'.session.None? else SameSession(s.session, s'.session)
  }

  lemma RequeueGivesResults(front: Transfer, rest: seq<Transfer>)
    ensures forall done :: done in Requeue(front, rest).1 ==> done.result.Done?
  {
  }

  lemma TickTimesOut(s: DuplexState, c: Call, env: Env, i: nat)
    requires c.TickCall? && Allowed(s, c)
    requires var e := Apply(s, c, env).1; i < |e.completions| && e.completions[i].result == Failed(TimedOut)
    ensures Succeeds(s, c, env)
    ensures TimesOut(s, Apply(s, c, env).0, Apply(s, c, env).1.completions[i], c.now)
  {
    hide Overdue;
    hide Advanced;
    hide Offer;
    hide Requeue;
    if s.tx != [] && s.tx[0].frames == [] {
      RequeueGivesResults(s.tx[0], s.tx[1..]);
    } else if s.tx != [] && c.outcome.Accepted? {
      RequeueGivesResults(Advanced(s.tx[0], c.outcome.n), s.tx[1..]);
    }
  }

  lemma FeedTimesOut(s: DuplexState, c: Call, env: Env, i: nat)
    requires c.FeedCall?
    requires var e := Apply(s, c, env).1; i < |e.completions| && e.completions[i].result == Failed(TimedOut)
    ensures Succeeds(s, c, env)
    ensures TimesOut(s, Apply(s, c, env).0, Apply(s, c, env).1.completions[i], c.after)
  {
    hide Run;
    hide Items;
    hide SpeaksProtocolOne;
    if s.session.Some? {
      ItemsKeepSession(s.session.value.(decoder := Run(s.session.value.decoder, c.bytes)),
                       Items(s.session.value.decoder, c.bytes), ExpectedReply(s, c.before), env.parse);
    }
    hide ProcessItems;
    hide SameSession;
  }

  /**
   A call only times out if it was pending and its deadline had come, once; a negotiation that times out leaves no
   session, and any other call leaves the session alone.
   */
  lemma TimedOutMeans(s: DuplexState, c: Call, env: Env, i: nat)
    requires Allowed(s, c)
    requires var e := Apply(s, c, env).1; i < |e.completions| && e.completions[i].result == Failed(TimedOut)
    ensures Succeeds(s, c, env)
    ensures TimesOut(s, Apply(s, c, env).0, Apply(s, c, env).1.completions[i], LastReading(c))
  {
    hide TickStep;
    hide FeedStep;
    hide TimesOut;
    hide Succeeds;
    match c {
      case TickCall(_, _, _) => TickTimesOut(s, c, env, i);
      case FeedCall(_, _, _) => FeedTimesOut(s, c, env, i);
      case AbortCall(reason) => AbortReasons(s, reason);
      case _ =>
    }
  }

  /** Conversely, a successful tick at the deadline ends the call that way. */
  lemma DeadlineEndsCall(s: DuplexState, c: Call, env: Env)
    requires c.TickCall? && Succeeds(s, c, env) && s.pending.Some?
    ensures var (s', e) := Apply(s, c, env);
            if c.now >= s.pending.value.deadline
            then Completion(s.pending.value.key, ApplicationLane, Failed(TimedOut)) in e.completions && s'.pending.None?
            else s'.pending == s.pending && s'.session == s.session
                 && forall done :: done in e.completions ==> done.lane == InputLane
  {
    hide Overdue;
    hide Advanced;
    hide Offer;
  }

  /** And so does a feed without a reply in time. */
  lemma DeadlineEndsFeed(s: DuplexState, c: Call, env: Env)
    requires c.FeedCall? && Succeeds(s, c, env) && s.pending.Some? && c.after >= s.pending.value.deadline
    ensures var (s', e) := Apply(s, c, env);
            && s'.pending.None? && |e.completions| == 1
            && e.completions[0].key == s.pending.value.key && e.completions[0].lane == ApplicationLane
            && (c.before >= s.pending.value.deadline ==> e.completions[0].result == Failed(TimedOut))
  {
    hide Run;
    hide Items;
    hide SpeaksProtocolOne;
    if s.session.Some? {
      var session := s.session.value.(decoder := Run(s.session.value.decoder, c.bytes));
      var items := Items(s.session.value.decoder, c.bytes);
      if ProcessItems(session, items, ExpectedReply(s, c.before), env.parse).1.reply.Some? {
        var f := ReplyHasSource(session, items, ExpectedReply(s, c.before), env.parse);
      }
    }
    hide ProcessItems;
  }

  /**
   What a feed shows: without a session the bytes themselves, and in a session what the session reports of them while
   it waits for the reply to a call that is in time. It fails exactly if the session reports an error.
   */
  lemma FeedShows(s: DuplexState, bytes: seq<bv8>, before: nat, after: nat, parse: seq<bv8> -> Option<Json.Value>)
    ensures var r := FeedStep(s, bytes, before, after, parse).1;
            if s.session.None? then r.Fed? && r.outputs == [Console(bytes)]
            else
              var expected := if s.pending.Some? && before < s.pending.value.deadline
                              then Some(Expected(s.pending.value.kind, s.pending.value.request)) else None;
              var p := ProcessBytes(s.session.value, bytes, expected, parse).1;
              && r.outputs == p.outputs
              && (if p.error.Some? then r.FeedFailed? && r.error == p.error.value else r.Fed?)
  {
    hide ProcessItems;
    hide Run;
    hide Items;
    hide SpeaksProtocolOne;
  }

  // ---------- aborts ----------

  lemma {:induction false} AbortedReason(tx: seq<Transfer>, reason: string)
    ensures forall done :: done in AbortedInputs(tx, reason) ==>
              done.result == Failed(Aborted(reason)) && done.lane == InputLane
  {
    if tx != [] {
      AbortedReason(tx[..|tx| - 1], reason);
    }
  }

  /** Whatever an abort ends, it ends with the reason it was given. */
  lemma AbortReasons(s: DuplexState, reason: string)
    ensures forall done :: done in AbortStep(s, reason).1 ==> done.result == Failed(Aborted(reason))
  {
    AbortedReason(s.tx, reason);
  }

  // ---------- failing writes ----------

  predicate LateAt(s: DuplexState, readings: seq<nat>, i: nat)
    requires |readings| == |s.tx|
  {
    i < |s.tx| && s.tx[i].deadline <= readings[i]
  }

  /** Some transfer has run out of its time. */
  predicate Late(s: DuplexState, readings: seq<nat>)
    requires |readings| == |s.tx|
  {
    exists i :: 0 <= i < |s.tx| && LateAt(s, readings, i)
  }

  predicate HasFrame(s: DuplexState) {
    s.tx != [] && s.tx[0].frames != []
  }

  /** A tick fails exactly if a transfer is late, the stream is closed, or the write fails; it then changes nothing. */
  lemma TickFailsExactly(s: DuplexState, readings: seq<nat>, outcome: WriteOutcome, now: nat)
    requires |readings| == |s.tx| && OfferFits(s, outcome)
    ensures var (s', r) := TickStep(s, readings, outcome, now);
            && (r == TickFailed(WriteTimedOut) <==> Late(s, readings))
            && (r == TickFailed(StreamClosed) <==> !Late(s, readings) && HasFrame(s) && outcome == Accepted(0))
            && (r == TickFailed(WriteFailed) <==> !Late(s, readings) && HasFrame(s) && outcome == Broken)
            && (r.TickFailed? ==> s' == s)
  {
    hide Requeue;
    hide Advanced;
    hide Offer;
    if Overdue(s.tx, readings) {
      var i :| 0 <= i < |s.tx| && readings[i] >= s.tx[i].deadline;
      assert LateAt(s, readings, i);
    }
    if Late(s, readings) {
      var i :| 0 <= i < |s.tx| && LateAt(s, readings, i);
    }
    hide Overdue;
    hide Late;
  }

  /** What the driver is offered: the rest of the front frame, at most 256 bytes of it. */
  lemma OfferIsRest(t: Transfer)
    requires t.frames != [] && t.offset <= |t.frames[0]|
    ensures Offer(t) <= t.frames[0][t.offset..]
    ensures |Offer(t)| == 256 || Offer(t) == t.frames[0][t.offset..]
  {
  }

  // ---------- negotiations ----------

  predicate NotBefore(fields: seq<Json.Field>, key: seq<bv8>, i: nat)
    requires i <= |fields|
  {
    forall j :: 0 <= j < i ==> fields[j].key != key
  }

  predicate ProtocolAt(fields: seq<Json.Field>, i: int) {
    && 0 <= i < |fields| && fields[i] == Json.Field(PROTOCOL_KEY, Json.Number(ONE))
    && NotBefore(fields, PROTOCOL_KEY, i)
  }

  /** The identity has the field protocol, and it is the number 1. */
  ghost predicate NamesProtocolOne(info: Json.Value) {
    info.Object? && exists i :: ProtocolAt(info.fields, i)
  }

  lemma {:induction false} LookupFinds(fields: seq<Json.Field>, key: seq<bv8>)
    ensures match Lookup(fields, key)
            case Some(v) =>
              exists i :: 0 <= i < |fields| && fields[i] == Json.Field(key, v) && NotBefore(fields, key, i)
            case None => forall j :: 0 <= j < |fields| ==> fields[j].key != key
  {
    if fields != [] && fields[0].key != key {
      LookupFinds(fields[1..], key);
      if v: Json.Value :| Lookup(fields, key) == Some(v) {
        var i :| 0 <= i < |fields[1..]| && fields[1..][i] == Json.Field(key, v) && NotBefore(fields[1..], key, i);
        assert fields[i + 1] == Json.Field(key, v);
        assert forall j :: 0 < j < i + 1 ==> fields[j] == fields[1..][j - 1];
      } else {
        assert forall j :: 0 < j < |fields| ==> fields[j] == fields[1..][j - 1];
      }
    }
  }

  lemma ProtocolOneMeans(info: Json.Value)
    ensures SpeaksProtocolOne(info) <==> NamesProtocolOne(info)
  {
    if info.Object? {
      LookupFinds(info.fields, PROTOCOL_KEY);
      if i :| ProtocolAt(info.fields, i) {
        assert Lookup(info.fields, PROTOCOL_KEY).Some?;
      }
      if v: Json.Value :| Lookup(info.fields, PROTOCOL_KEY) == Some(v) && v.Number? && v.digits == ONE {
        var i :| 0 <= i < |info.fields| && info.fields[i] == Json.Field(PROTOCOL_KEY, v)
              && NotBefore(info.fields, PROTOCOL_KEY, i);
        assert ProtocolAt(info.fields, i);
      }
    }
  }

  /**
   A negotiation that completes with an identity leaves a valid session with that identity, which names protocol 1;
   one that fails leaves no session. Any other call that completes leaves the session as it was, unless by an abort.
   */
  lemma NegotiationOutcome(s: DuplexState, c: Call, env: Env, i: nat)
    requires Allowed(s, c)
    requires i < |Apply(s, c, env).1.completions| && Apply(s, c, env).1.completions[i].lane == ApplicationLane
    ensures s.pending.Some?
    ensures var (s', result) := (Apply(s, c, env).0, Apply(s, c, env).1.completions[i].result);
            if s.pending.value.kind == HELLO_ACK then
              match result
              case Done(v) =>
                && NamesProtocolOne(v) && s.session.Some? && s'.session.Some?
                && s'.session.value.nonce == s.session.value.nonce
                && s'.session.value.info == v && s'.session.value.valid
              case Failed(_) => s'.session.None?
            else
              c.AbortCall? || SameSession(s.session, s'.session)
  {
    hide Run;
    hide Items;
    hide Overdue;
    hide Advanced;
    hide Offer;
    hide ProcessItems;
    hide SpeaksProtocolOne;
    hide NamesProtocolOne;
    match c {
      case FeedCall(bytes, before, after) =>
        if s.session.Some? {
          FeedOutcome(s.(session := Some(s.session.value.(decoder := Run(s.session.value.decoder, bytes)))),
                      Items(s.session.value.decoder, bytes), before, after, env.parse, i);
        }
      case AbortCall(reason) =>
        AbortReasons(s, reason);
        AbortedReason(s.tx, reason);
      case _ =>
    }
  }

  lemma FeedOutcome(s: DuplexState, items: seq<Decoded>, before: nat, after: nat,
                    parse: seq<bv8> -> Option<Json.Value>, i: nat)
    requires s.session.Some?
    requires var r := FeedItemsStep(s, items, before, after, parse).1; r.Fed? && i < |r.completions|
    ensures s.pending.Some?
    ensures var (s', r) := FeedItemsStep(s, items, before, after, parse);
            var result := r.completions[i].result;
            if s.pending.value.kind == HELLO_ACK then
              match result
              case Done(v) =>
                && NamesProtocolOne(v) && s'.session.Some? && s'.session.value.nonce == s.session.value.nonce
                && s'.session.value.info == v && s'.session.value.valid
              case Failed(_) => s'.session.None?
            else
              SameSession(s.session, s'.session)
  {
    hide SpeaksProtocolOne;
    hide NamesProtocolOne;
    ItemsKeepSession(s.session.value, items, ExpectedReply(s, before), parse);
    hide ProcessItems;
    var p := ProcessItems(s.session.value, items, ExpectedReply(s, before), parse).1;
    if p.reply.Some? && p.reply.value.Answer? {
      ProtocolOneMeans(p.reply.value.value);
    }
  }

  // ---------- what can be started ----------

  /** A request is started, or refused for the first of these reasons that applies. */
  lemma RequestStartsExactly(s: DuplexState, key: string, command: Json.Command, deadline: nat,
                             inRange: seq<bv8> -> bool)
    ensures var (s', error) := RequestStart(s, key, command, deadline, inRange);
            if s.pending.Some? then error == Some(RequestPending)
            else if s.session.None? then error == Some(NotConnected)
            else if !s.session.value.valid then error == Some(Session(SessionLost))
            else if !Json.Sendable(command, inRange) then error == Some(Session(InvalidCommand))
            else if s.session.value.nextRequest == 0xffffffff then error == Some(Session(RequestIdsExhausted))
            else if s.session.value.nonce == 0 then error == Some(Session(CannotEncode))
            else
              var number := s.session.value.nextRequest;
              && error == None && s'.pending == Some(Pending(key, deadline, RESPONSE, number))
              && s'.tx == s.tx + [Transfer(key, ApplicationLane, deadline,
                                           [Wire(Frame(REQUEST, s.session.value.nonce, number,
                                                       Json.Print(Json.AsObject(command))))], 0, Json.Null)]
  {
    Json.PayloadExactly(command, inRange);
    hide Json.Sendable;
    hide Json.Payload;
    hide Json.Print;
    hide Wire;
  }

  /** A negotiation needs that no call is pending and that nothing is queued; its session is new and not yet valid. */
  lemma ConnectStartsExactly(s: DuplexState, key: string, deadline: nat, nonce: bv64)
    ensures var (s', error) := ConnectStart(s, key, deadline, nonce);
            if s.pending.Some? then error == Some(RequestPending) && s' == s
            else if s.tx != [] then error == Some(WriteInProgress) && s' == s
            else
              && error == (if nonce == 0 then Some(Session(CannotEncode)) else None)
              && s'.session.Some? && s'.session.value.nonce == nonce && !s'.session.value.valid
              && (nonce != 0 ==> s'.pending == Some(Pending(key, deadline, HELLO_ACK, 0)) && |s'.tx| == 1
                                 && s'.tx[0].frames == [Wire(Frame(HELLO, nonce, 0, []))]
                                 && s'.tx[0].deadline == deadline && s'.tx[0].offset == 0)
  {
    hide Wire;
  }

  /** One input at a time; in a session it must be valid. */
  lemma InputStartsExactly(s: DuplexState, key: string, data: seq<bv8>, deadline: nat, result: Json.Value)
    ensures var (s', error) := InputStart(s, key, data, deadline, result);
            if exists i :: 0 <= i < |s.tx| && s.tx[i].lane == InputLane then error == Some(InputPending)
            else if s.session.Some? && !s.session.value.valid then error == Some(Session(SessionLost))
            else if s.session.Some? && s.session.value.nonce == 0 && data != [] then
              error == Some(Session(CannotEncode))
            else
              && error == None && |s'.tx| == |s.tx| + 1 && s'.tx[..|s.tx|] == s.tx
              && var t := s'.tx[|s.tx|];
                 t.key == key && t.lane == InputLane && t.deadline == deadline && t.offset == 0 && t.result == result
  {
    hide Chunks;
    hide ConsoleWires;
  }

  // ---------- sessions over runs ----------

  /** A valid session was accepted with an identity that names protocol 1. */
  ghost predicate AcceptedIdentity(s: DuplexState) {
    s.session.Some? && s.session.value.valid ==> NamesProtocolOne(s.session.value.info)
  }

  lemma FeedKeepsAccepted(s: DuplexState, c: Call, env: Env)
    requires c.FeedCall? && AcceptedIdentity(s)
    ensures AcceptedIdentity(Apply(s, c, env).0)
  {
    hide NamesProtocolOne;
    hide SpeaksProtocolOne;
    hide Run;
    hide Items;
    if s.session.Some? {
      var session := s.session.value.(decoder := Run(s.session.value.decoder, c.bytes));
      var items := Items(s.session.value.decoder, c.bytes);
      ItemsKeepSession(session, items, ExpectedReply(s, c.before), env.parse);
      var p := ProcessItems(session, items, ExpectedReply(s, c.before), env.parse).1;
      if p.reply.Some? && p.reply.value.Answer? {
        ProtocolOneMeans(p.reply.value.value);
      }
    }
    hide ProcessItems;
  }

  lemma StartKeepsAccepted(s: DuplexState, c: Call, env: Env)
    requires (c.Request? || c.Connect? || c.Input?) && AcceptedIdentity(s)
    ensures AcceptedIdentity(Apply(s, c, env).0)
  {
    hide NamesProtocolOne;
    hide Wire;
    hide Encodable;
    hide InputFrames;
    hide HasInput;
    hide Json.Payload;
  }

  lemma CallKeepsAccepted(s: DuplexState, c: Call, env: Env)
    requires Allowed(s, c) && AcceptedIdentity(s)
    ensures AcceptedIdentity(Apply(s, c, env).0)
  {
    hide NamesProtocolOne;
    hide TickStep;
    hide FeedStep;
    hide RequestStart;
    hide ConnectStart;
    hide InputStart;
    match c {
      case FeedCall(_, _, _) => FeedKeepsAccepted(s, c, env);
      case TickCall(_, _, _) => TickSession(s, c, env);
      case AbortCall(_) =>
      case _ => StartKeepsAccepted(s, c, env);
    }
  }

  lemma {:induction false} RunKeepsAccepted(calls: seq<Call>, env: Env)
    requires Feasible(EMPTY, calls, env)
    ensures AcceptedIdentity(After(EMPTY, calls, env))
  {
    hide AcceptedIdentity;
    hide Apply;
    if calls == [] {
      NothingAccepted();
    } else {
      var n := |calls| - 1;
      RunKeepsAccepted(calls[..n], env);
      CallKeepsAccepted(After(EMPTY, calls[..n], env), calls[n], env);
    }
  }

  lemma NothingAccepted()
    ensures AcceptedIdentity(EMPTY)
  {
  }

  /** In every run, requests and framed inputs are only started in a session the device accepted for protocol 1. */
  lemma StartsNeedProtocolOne(calls: seq<Call>, env: Env, c: Call)
    requires Feasible(EMPTY, calls, env) && (c.Request? || c.Input?)
    requires Apply(After(EMPTY, calls, env), c, env).1.started != []
    ensures var session := After(EMPTY, calls, env).session;
            && (c.Request? ==> session.Some?)
            && (session.Some? ==> session.value.valid && NamesProtocolOne(session.value.info))
  {
    hide NamesProtocolOne;
    hide Wire;
    hide Chunks;
    hide ConsoleWires;
    hide HasInput;
    RunKeepsAccepted(calls, env);
  }

  // ---------- the queue belongs to the session ----------

  predicate FramesOf(nonce: bv64, frames: seq<seq<bv8>>) {
    forall j :: 0 <= j < |frames| ==> FrameOf(nonce, frames[j])
  }

  predicate FrameOf(nonce: bv64, wire: seq<bv8>) {
    IsWire(wire) && DecodeWire(wire).value.session == nonce
  }

  predicate QueueIsOf(nonce: bv64, tx: seq<Transfer>) {
    forall i :: 0 <= i < |tx| ==> FramesOf(nonce, tx[i].frames)
  }

  predicate OwnQueue(s: DuplexState) {
    s.session.Some? ==> QueueIsOf(s.session.value.nonce, s.tx)
  }

  lemma RequeueIsOf(nonce: bv64, tx: seq<Transfer>, n: nat)
    requires QueueIsOf(nonce, tx) && tx != [] && tx[0].frames != []
    ensures QueueIsOf(nonce, Requeue(Advanced(tx[0], n), tx[1..]).0)
  {
    hide FrameOf;
  }

  lemma StartedIsOf(s: DuplexState, c: Call, env: Env)
    requires OwnQueue(s) && (c.Request? || c.Connect? || c.Input?) && Apply(s, c, env).1.started != []
    ensures OwnQueue(Apply(s, c, env).0)
  {
    hide IsWire;
    hide Wire;
    hide DecodeWire;
    hide Chunks;
    hide ConsoleWires;
    hide Encodable;
    hide HasInput;
    match c {
      case Request(key, command, deadline) =>
        WireIsWire(PreparedRequest(s.session.value, command, env.inRange).1.frame);
      case Connect(key, deadline, nonce) =>
        WireIsWire(HelloFrame(nonce));
      case Input(key, data, deadline, result) =>
        if s.session.Some? && s.session.value.nonce != 0 {
          ConsoleWiresAreWires(s.session.value.nonce, Chunks(data));
        }
      case _ =>
    }
  }

  lemma CallKeepsQueue(l: T.Line, c: Call, env: Env)
    requires Allowed(l.s, c) && T.Fresh(l, c) && OwnQueue(l.s)
    ensures OwnQueue(Apply(l.s, c, env).0)
  {
    hide FramesOf;
    hide TickStep;
    hide FeedStep;
    hide AbortStep;
    hide RequestStart;
    hide ConnectStart;
    hide InputStart;
    match c {
      case TickCall(_, _, _) => TickKeepsQueue(l, c, env);
      case FeedCall(_, _, _) => FeedKeepsQueue(l.s, c, env);
      case AbortCall(_) => AbortKeepsQueue(l.s, c, env);
      case _ =>
        if Apply(l.s, c, env).1.started != [] {
          StartedIsOf(l.s, c, env);
        } else {
          RefusedKeepsQueue(l.s, c, env);
        }
    }
  }

  lemma TickKeepsQueue(l: T.Line, c: Call, env: Env)
    requires c.TickCall? && Allowed(l.s, c) && T.Fresh(l, c) && OwnQueue(l.s)
    ensures OwnQueue(Apply(l.s, c, env).0)
  {
    hide FramesOf;
    hide Requeue;
    hide Advanced;
    hide Offer;
    hide T.CompletedFrame;
    TickSession(l.s, c, env);
    var q := Classify(l, c, env);
    match q {
      case Wrote(n) =>
        if l.s.session.Some? {
          RequeueIsOf(l.s.session.value.nonce, l.s.tx, n);
        }
      case _ =>
    }
    hide TickStep;
  }

  lemma TickSession(s: DuplexState, c: Call, env: Env)
    requires c.TickCall? && Allowed(s, c)
    ensures Apply(s, c, env).0.session.Some? ==> Apply(s, c, env).0.session == s.session
  {
    hide Requeue;
    hide Advanced;
    hide Offer;
    hide Overdue;
  }

  lemma FeedKeepsQueue(s: DuplexState, c: Call, env: Env)
    requires c.FeedCall? && OwnQueue(s)
    ensures OwnQueue(Apply(s, c, env).0)
  {
    hide QueueIsOf;
    hide Run;
    hide Items;
    hide Handle;
    hide Verdict;
    hide SpeaksProtocolOne;
  }

  lemma AbortKeepsQueue(s: DuplexState, c: Call, env: Env)
    requires c.AbortCall?
    ensures OwnQueue(Apply(s, c, env).0)
  {
  }

  lemma RefusedKeepsQueue(s: DuplexState, c: Call, env: Env)
    requires (c.Request? || c.Connect? || c.Input?) && Apply(s, c, env).1.started == [] && OwnQueue(s)
    ensures OwnQueue(Apply(s, c, env).0)
  {
    hide FramesOf;
    hide Wire;
    hide Encodable;
    hide InputFrames;
    hide HasInput;
    hide Json.Payload;
  }

  /** In every run, while there is a session, everything queued is a frame of that session. */
  lemma {:induction false} QueueBelongsToSession(calls: seq<Call>, n: nat, env: Env)
    requires Runnable(calls, env) && n <= |calls|
    ensures OwnQueue(LineAt(calls, n, env).s)
    decreases n
  {
    hide LineAt;
    hide T.Inv;
    hide OwnQueue;
    hide Apply;
    if n == 0 {
      EmptyQueueAtStart(calls, env);
    } else {
      QueueBelongsToSession(calls, n - 1, env);
      Following(calls, n - 1, env);
      CallKeepsQueue(LineAt(calls, n - 1, env), calls[n - 1], env);
      AdvanceApplies(LineAt(calls, n - 1, env), calls[n - 1], env);
    }
  }

  lemma AdvanceApplies(l: T.Line, c: Call, env: Env)
    requires Allowed(l.s, c)
    ensures T.Advance(l, c, env).s == Apply(l.s, c, env).0
  {
    hide TickStep;
    hide FeedStep;
    hide RequestStart;
    hide ConnectStart;
    hide InputStart;
  }

  lemma EmptyQueueAtStart(calls: seq<Call>, env: Env)
    requires Runnable(calls, env)
    ensures OwnQueue(LineAt(calls, 0, env).s)
  {
    assert calls[..0] == [];
  }

  // ---------- the result of an input ----------

  /** The transfer of an input, as it was started. */
  predicate Carries(tx: seq<Transfer>, key: string, result: Json.Value) {
    forall i :: 0 <= i < |tx| && tx[i].key == key ==> tx[i].lane == InputLane && tx[i].result == result
  }

  lemma StepCarries(l: T.Line, l': T.Line, q: QueueStep, key: string, result: Json.Value)
    requires Steps(l, l', q) && key in l.given && Carries(l.s.tx, key, result)
    ensures Carries(l'.s.tx, key, result)
  {
    hide HasInput;
    hide Offer;
    hide T.CompletedFrame;
  }

  lemma {:induction false} StillCarried(calls: seq<Call>, n: nat, m: nat, env: Env)
    requires Runnable(calls, env) && n < m <= |calls| && NoAbort(calls, n, m)
    requires calls[n].Input? && EffectAt(calls, n, env).started != []
    ensures calls[n].key in LineAt(calls, m, env).given
    ensures Carries(LineAt(calls, m, env).s.tx, calls[n].key, calls[n].result)
    decreases m
  {
    hide LineAt;
    hide T.Inv;
    hide T.Advance;
    hide Steps;
    hide Carries;
    hide Apply;
    var c := calls[n];
    Following(calls, m - 1, env);
    var l := LineAt(calls, m - 1, env);
    if m == n + 1 {
      StartCarries(l, c, env);
    } else {
      StillCarried(calls, n, m - 1, env);
      GivenStays(calls, m - 1, m, env, c.key);
      var q := Classify(l, calls[m - 1], env);
      StepCarries(l, LineAt(calls, m, env), q, c.key, c.result);
    }
  }

  lemma StartCarries(l: T.Line, c: Call, env: Env)
    requires T.Inv(l) && T.Fresh(l, c) && c.Input? && Apply(l.s, c, env).1.started != []
    ensures c.key in T.Advance(l, c, env).given && Carries(T.Advance(l, c, env).s.tx, c.key, c.result)
  {
    hide InputFrames;
    hide HasInput;
    hide T.SentBy;
    hide T.Remaining;
    hide T.Bytes;
    hide T.Partial;
  }

  /** What an input completes with is in the queue's front transfer. */
  lemma DoneIsFront(s: DuplexState, c: Call, env: Env, i: nat)
    requires c.TickCall? && Allowed(s, c)
    requires var e := Apply(s, c, env).1; i < |e.completions| && e.completions[i].result.Done?
    ensures s.tx != [] && s.tx[0].key == Apply(s, c, env).1.completions[i].key
    ensures Apply(s, c, env).1.completions[i] == Completion(s.tx[0].key, InputLane, Done(s.tx[0].result))
  {
    hide Overdue;
    hide Offer;
  }

  /** In every run, an input that succeeds completes with the result it was started with. */
  lemma InputGivesItsResult(calls: seq<Call>, n: nat, k: nat, env: Env, i: nat)
    requires Runnable(calls, env) && n < k < |calls| && NoAbort(calls, n, k)
    requires calls[n].Input? && EffectAt(calls, n, env).started != []
    requires var done := EffectAt(calls, k, env).completions;
             i < |done| && done[i].key == calls[n].key && done[i].lane == InputLane && done[i].result.Done?
    ensures EffectAt(calls, k, env).completions[i].result == Done(calls[n].result)
  {
    hide LineAt;
    hide T.Inv;
    hide T.Advance;
    hide Apply;
    var l := LineAt(calls, k, env);
    Following(calls, k, env);
    StillCarried(calls, n, k, env);
    OnlyTicksFinishInputs(l.s, calls[k], env, i);
    DoneIsFront(l.s, calls[k], env, i);
  }
}
