/**
 Whole runs of the scheduler of src/duplex.rs: any sequence of its calls, with any clock readings and any
 behaviour of the driver. No completion is lost or doubled, and the queue keeps its shape.
 */
module DuplexRuns {
  import opened Mux
  import opened MuxDecoder
  import opened Application
  import opened Duplex
  import Json

  datatype Env = Env(inRange: seq<bv8> -> bool, parse: seq<bv8> -> Option<Json.Value>)

  datatype Call =
    | Request(key: string, command: Json.Command, deadline: nat)
    | Connect(key: string, deadline: nat, nonce: bv64)
    | Input(key: string, data: seq<bv8>, deadline: nat, result: Json.Value)
    | TickCall(readings: seq<nat>, outcome: WriteOutcome, now: nat)
    | FeedCall(bytes: seq<bv8>, before: nat, after: nat)
    | AbortCall(reason: string)

  /** A key as the server knows it: the operation and its lane. */
  datatype Tag = Tag(key: string, lane: Lane)

  datatype Effect = Effect(started: seq<Tag>, completions: seq<Completion>, written: seq<bv8>)

  const QUIET := Effect([], [], [])

  predicate Allowed(s: DuplexState, c: Call) {
    c.TickCall? ==> |c.readings| == |s.tx| && OfferFits(s, c.outcome)
  }

  function Apply(s: DuplexState, c: Call, env: Env): (DuplexState, Effect)
    requires Allowed(s, c)
  {
    match c
    case Request(key, command, deadline) =>
      var (s', error) := RequestStart(s, key, command, deadline, env.inRange);
      (s', if error.Some? then QUIET else Effect([Tag(key, ApplicationLane)], [], []))
    case Connect(key, deadline, nonce) =>
      var (s', error) := ConnectStart(s, key, deadline, nonce);
      (s', if error.Some? then QUIET else Effect([Tag(key, ApplicationLane)], [], []))
    case Input(key, data, deadline, result) =>
      var (s', error) := InputStart(s, key, data, deadline, result);
      (s', if error.Some? then QUIET else Effect([Tag(key, InputLane)], [], []))
    case TickCall(readings, outcome, now) =>
      var (s', r) := TickStep(s, readings, outcome, now);
      (s', if r.Ticked? then Effect([], r.completions, r.written) else QUIET)
    case FeedCall(bytes, before, after) =>
      var (s', r) := FeedStep(s, bytes, before, after, env.parse);
      (s', if r.Fed? then Effect([], r.completions, []) else QUIET)
    case AbortCall(reason) =>
      var (s', done) := AbortStep(s, reason);
      (s', Effect([], done, []))
  }

  // ---------- completion conservation ----------

  function PendingTags(p: Option<Pending>): multiset<Tag> {
    if p.Some? then multiset{Tag(p.value.key, ApplicationLane)} else multiset{}
  }

  function InputTag(t: Transfer): multiset<Tag> {
    if t.lane == InputLane then multiset{Tag(t.key, InputLane)} else multiset{}
  }

  function InputTags(tx: seq<Transfer>): multiset<Tag> {
    if tx == [] then multiset{} else InputTags(tx[..|tx| - 1]) + InputTag(tx[|tx| - 1])
  }

  /** The keys whose completion is still owed. */
  function Outstanding(s: DuplexState): multiset<Tag> {
    PendingTags(s.pending) + InputTags(s.tx)
  }

  function Completed(done: seq<Completion>): multiset<Tag> {
    if done == [] then multiset{}
    else Completed(done[..|done| - 1]) + multiset{Tag(done[|done| - 1].key, done[|done| - 1].lane)}
  }

  lemma {:induction false} InputTagsConcat(a: seq<Transfer>, b: seq<Transfer>)
    ensures InputTags(a + b) == InputTags(a) + InputTags(b)
  {
    if b == [] {
      assert a + b == a;
    } else {
      var n := |b| - 1;
      assert (a + b)[..|a + b| - 1] == a + b[..n];
      InputTagsConcat(a, b[..n]);
    }
  }

  lemma InputTagsOne(t: Transfer)
    ensures InputTags([t]) == InputTag(t)
  {
    assert [t][..0] == [];
  }

  lemma {:induction false} CompletedConcat(a: seq<Completion>, b: seq<Completion>)
    ensures Completed(a + b) == Completed(a) + Completed(b)
  {
    if b == [] {
      assert a + b == a;
    } else {
      var n := |b| - 1;
      assert (a + b)[..|a + b| - 1] == a + b[..n];
      CompletedConcat(a, b[..n]);
    }
  }

  lemma CompletedOne(c: Completion)
    ensures Completed([c]) == multiset{Tag(c.key, c.lane)}
  {
    assert [c][..0] == [];
  }

  lemma ExpireConserves(s: DuplexState, now: nat)
    ensures var (s', done) := ExpireStep(s, now);
            Completed(done) + Outstanding(s') == Outstanding(s)
  {
    var (s', done) := ExpireStep(s, now);
    if done != [] {
      CompletedOne(done[0]);
    }
  }

  lemma PushConserves(tx: seq<Transfer>, t: Transfer)
    ensures InputTags(tx + [t]) == InputTags(tx) + InputTag(t)
  {
    InputTagsConcat(tx, [t]);
    InputTagsOne(t);
  }

  lemma RequeueConserves(front: Transfer, rest: seq<Transfer>)
    ensures var (tx, done) := Requeue(front, rest);
            Completed(done) + InputTags(tx) == InputTag(front) + InputTags(rest)
  {
    hide InputTags;
    hide Completed;
    CompletedEmpty();
    if front.frames == [] {
      if front.lane == InputLane {
        CompletedOne(Finished(front)[0]);
      }
    } else if front.offset == 0 {
      PushConserves(rest, front);
    } else {
      InputTagsConcat([front], rest);
      InputTagsOne(front);
    }
  }

  lemma SplitFront(tx: seq<Transfer>)
    requires tx != []
    ensures InputTags(tx) == InputTag(tx[0]) + InputTags(tx[1..])
  {
    assert tx == [tx[0]] + tx[1..];
    InputTagsConcat([tx[0]], tx[1..]);
    InputTagsOne(tx[0]);
  }

  lemma TickConserves(s: DuplexState, readings: seq<nat>, outcome: WriteOutcome, now: nat)
    requires |readings| == |s.tx| && OfferFits(s, outcome)
    ensures var (s', r) := TickStep(s, readings, outcome, now);
            Outstanding(s) == if r.Ticked? then Completed(r.completions) + Outstanding(s') else Outstanding(s')
  {
    hide InputTags;
    hide Completed;
    hide ExpireStep;
    hide Requeue;
    hide Overdue;
    var (s', r) := TickStep(s, readings, outcome, now);
    if r.TickFailed? {
    } else if s.tx == [] {
      ExpireConserves(s, now);
    } else if s.tx[0].frames != [] && outcome.Transient? {
      ExpireConserves(s, now);
    } else {
      var front := if s.tx[0].frames == [] then s.tx[0] else Advanced(s.tx[0], outcome.n);
      PassOnConserves(s, front, now);
    }
  }

  /** The front transfer, written or not, is requeued and the clock is read once more. */
  lemma PassOnConserves(s: DuplexState, front: Transfer, now: nat)
    requires s.tx != [] && front.key == s.tx[0].key && front.lane == s.tx[0].lane
    ensures var (tx, finished) := Requeue(front, s.tx[1..]);
            var (s', expired) := ExpireStep(s.(tx := tx), now);
            Outstanding(s) == Completed(finished + expired) + Outstanding(s')
  {
    hide InputTags;
    hide Completed;
    hide ExpireStep;
    hide Requeue;
    var (tx, finished) := Requeue(front, s.tx[1..]);
    SplitFront(s.tx);
    RequeueConserves(front, s.tx[1..]);
    ExpireConserves(s.(tx := tx), now);
    CompletedConcat(finished, ExpireStep(s.(tx := tx), now).1);
    assert InputTag(front) == InputTag(s.tx[0]);
    assert PendingTags(s.pending) + (Completed(finished) + InputTags(tx))
        == Completed(finished) + (PendingTags(s.pending) + InputTags(tx));
    assert Outstanding(s) == Completed(finished) + Outstanding(s.(tx := tx));
  }

  lemma SettleConserves(s: DuplexState, reply: Reply)
    requires s.pending.Some? && s.session.Some?
    ensures var (s', completion) := Settle(s, reply);
            multiset{Tag(completion.key, completion.lane)} + Outstanding(s') == Outstanding(s)
  {
    hide InputTags;
    hide SpeaksProtocolOne;
  }

  lemma FeedItemsConserve(s: DuplexState, items: seq<Decoded>, before: nat, after: nat,
                          parse: seq<bv8> -> Option<Json.Value>)
    requires s.session.Some?
    ensures var (s', r) := FeedItemsStep(s, items, before, after, parse);
            Outstanding(s) == if r.Fed? then Completed(r.completions) + Outstanding(s') else Outstanding(s')
  {
    hide InputTags;
    hide Completed;
    hide ProcessItems;
    hide Settle;
    hide ExpireStep;
    var (session, p) := ProcessItems(s.session.value, items, ExpectedReply(s, before), parse);
    var s1 := s.(session := Some(session));
    assert Outstanding(s1) == Outstanding(s);
    if p.error.Some? {
    } else if p.reply.Some? && s.pending.Some? {
      var (t, completion) := Settle(s1, p.reply.value);
      SettleConserves(s1, p.reply.value);
      ExpireConserves(t, after);
      CompletedOne(completion);
      CompletedConcat([completion], ExpireStep(t, after).1);
    } else {
      ExpireConserves(s1, after);
    }
  }

  lemma FeedConserves(s: DuplexState, bytes: seq<bv8>, before: nat, after: nat, parse: seq<bv8> -> Option<Json.Value>)
    ensures var (s', r) := FeedStep(s, bytes, before, after, parse);
            Outstanding(s) == if r.Fed? then Completed(r.completions) + Outstanding(s') else Outstanding(s')
  {
    hide InputTags;
    hide Completed;
    hide FeedItemsStep;
    hide Run;
    hide Items;
    if s.session.Some? {
      var session := s.session.value;
      FeedItemsConserve(s.(session := Some(session.(decoder := Run(session.decoder, bytes)))),
                        Items(session.decoder, bytes), before, after, parse);
    } else {
      ExpireConserves(s, after);
    }
  }

  lemma {:induction false} AbortedInputsAll(tx: seq<Transfer>, reason: string)
    ensures Completed(AbortedInputs(tx, reason)) == InputTags(tx)
  {
    hide Completed;
    if tx == [] {
      CompletedEmpty();
    } else {
      var n := |tx| - 1;
      AbortedInputsAll(tx[..n], reason);
      if tx[n].lane == InputLane {
        var last := Completion(tx[n].key, InputLane, Failed(Aborted(reason)));
        CompletedConcat(AbortedInputs(tx[..n], reason), [last]);
        CompletedOne(last);
      } else {
        assert AbortedInputs(tx[..n], reason) + [] == AbortedInputs(tx[..n], reason);
      }
    }
  }

  lemma {:induction false} AbortFailsInputs(tx: seq<Transfer>, reason: string)
    ensures forall done :: done in AbortedInputs(tx, reason) ==> done.result.Failed?
  {
    if tx != [] {
      AbortFailsInputs(tx[..|tx| - 1], reason);
    }
  }

  /** abort fails every outstanding key exactly once and leaves nothing behind. */
  lemma AbortFailsEveryKey(s: DuplexState, reason: string)
    ensures var (s', done) := AbortStep(s, reason);
            && s' == EMPTY && Completed(done) == Outstanding(s) && Outstanding(s') == multiset{}
            && (forall i :: 0 <= i < |done| ==> done[i].result.Failed?)
            && AbortStep(s', reason).1 == []
  {
    hide Completed;
    AbortedInputsAll(s.tx, reason);
    AbortFailsInputs(s.tx, reason);
    var head := if s.pending.Some?
                then [Completion(s.pending.value.key, ApplicationLane, Failed(Aborted(reason)))] else [];
    CompletedConcat(head, AbortedInputs(s.tx, reason));
    if head != [] {
      CompletedOne(head[0]);
    } else {
      CompletedEmpty();
    }
  }

  lemma CompletedEmpty()
    ensures Completed([]) == multiset{}
  {
  }

  lemma StartedConserves(s: DuplexState, key: string, frame: Frame, kind: bv8, deadline: nat)
    requires s.pending.None?
    ensures Outstanding(StartedApplication(s, key, frame, kind, deadline))
         == Outstanding(s) + multiset{Tag(key, ApplicationLane)}
  {
    hide InputTags;
    hide Wire;
    PushConserves(s.tx, Transfer(key, ApplicationLane, deadline, [Wire(frame)], 0, Json.Null));
  }

  lemma RequestConserves(s: DuplexState, key: string, command: Json.Command, deadline: nat, inRange: seq<bv8> -> bool)
    ensures var (s', error) := RequestStart(s, key, command, deadline, inRange);
            Outstanding(s')
            == if error.Some? then Outstanding(s) else Outstanding(s) + multiset{Tag(key, ApplicationLane)}
  {
    hide InputTags;
    hide StartedApplication;
    hide Encodable;
    if s.pending.None? && s.session.Some? {
      var (session, prepared) := PreparedRequest(s.session.value, command, inRange);
      if prepared.Ready? {
        StartedConserves(s.(session := Some(session)), key, prepared.frame, RESPONSE, deadline);
      }
    }
  }

  lemma ConnectConserves(s: DuplexState, key: string, deadline: nat, nonce: bv64)
    ensures var (s', error) := ConnectStart(s, key, deadline, nonce);
            Outstanding(s')
            == if error.Some? then Outstanding(s) else Outstanding(s) + multiset{Tag(key, ApplicationLane)}
  {
    hide InputTags;
    hide StartedApplication;
    hide Encodable;
    if s.pending.None? && s.tx == [] {
      StartedConserves(s.(session := Some(Begin(nonce))), key, HelloFrame(nonce), HELLO_ACK, deadline);
    }
  }

  lemma InputConserves(s: DuplexState, key: string, data: seq<bv8>, deadline: nat, result: Json.Value)
    ensures var (s', error) := InputStart(s, key, data, deadline, result);
            Outstanding(s') == if error.Some? then Outstanding(s) else Outstanding(s) + multiset{Tag(key, InputLane)}
  {
    hide InputTags;
    hide PreparedConsole;
    hide Chunks;
    var frames := InputFrames(s.session, data);
    if !HasInput(s.tx) && frames.Frames? {
      PushConserves(s.tx, Transfer(key, InputLane, deadline, frames.wires, 0, result));
    }
  }

  lemma StartConserves(s: DuplexState, c: Call, env: Env)
    requires c.Request? || c.Connect? || c.Input?
    ensures var (s', e) := Apply(s, c, env);
            e.completions == [] && Outstanding(s) + multiset(e.started) == Outstanding(s')
  {
    hide Outstanding;
    hide RequestStart;
    hide ConnectStart;
    hide InputStart;
    match c {
      case Request(key, command, deadline) => RequestConserves(s, key, command, deadline, env.inRange);
      case Connect(key, deadline, nonce) => ConnectConserves(s, key, deadline, nonce);
      case Input(key, data, deadline, result) => InputConserves(s, key, data, deadline, result);
      case _ =>
    }
  }

  lemma OtherConserves(s: DuplexState, c: Call, env: Env)
    requires Allowed(s, c) && (c.TickCall? || c.FeedCall? || c.AbortCall?)
    ensures var (s', e) := Apply(s, c, env);
            e.started == [] && Outstanding(s) == Completed(e.completions) + Outstanding(s')
  {
    hide Outstanding;
    hide Completed;
    hide TickStep;
    hide FeedStep;
    hide AbortStep;
    CompletedEmpty();
    match c {
      case TickCall(readings, outcome, now) => TickConserves(s, readings, outcome, now);
      case FeedCall(bytes, before, after) => FeedConserves(s, bytes, before, after, env.parse);
      case AbortCall(reason) => AbortFailsEveryKey(s, reason);
      case _ =>
    }
  }

  /** One call, successful or not: what was owed plus what it started is what it completed plus what is owed now. */
  lemma CallConserves(s: DuplexState, c: Call, env: Env)
    requires Allowed(s, c)
    ensures var (s', e) := Apply(s, c, env);
            Outstanding(s) + multiset(e.started) == Completed(e.completions) + Outstanding(s')
  {
    hide Outstanding;
    hide Completed;
    hide Apply;
    CompletedEmpty();
    if c.Request? || c.Connect? || c.Input? {
      StartConserves(s, c, env);
    } else {
      OtherConserves(s, c, env);
    }
  }

  // ---------- runs ----------

  /** Calls that can be made one after the other, and where they lead. */
  predicate Feasible(s: DuplexState, calls: seq<Call>, env: Env)
    decreases |calls|, 0
  {
    calls == [] ||
    var n := |calls| - 1;
    Feasible(s, calls[..n], env) && Allowed(After(s, calls[..n], env), calls[n])
  }

  function After(s: DuplexState, calls: seq<Call>, env: Env): DuplexState
    requires Feasible(s, calls, env)
    decreases |calls|, 1
  {
    if calls == [] then s else Apply(After(s, calls[..|calls| - 1], env), calls[|calls| - 1], env).0
  }

  function AllStarted(s: DuplexState, calls: seq<Call>, env: Env): multiset<Tag>
    requires Feasible(s, calls, env)
  {
    if calls == [] then multiset{}
    else
      var n := |calls| - 1;
      AllStarted(s, calls[..n], env) + multiset(Apply(After(s, calls[..n], env), calls[n], env).1.started)
  }

  function AllCompleted(s: DuplexState, calls: seq<Call>, env: Env): multiset<Tag>
    requires Feasible(s, calls, env)
  {
    if calls == [] then multiset{}
    else
      var n := |calls| - 1;
      AllCompleted(s, calls[..n], env) + Completed(Apply(After(s, calls[..n], env), calls[n], env).1.completions)
  }

  lemma {:induction false} RunConserves(s: DuplexState, calls: seq<Call>, env: Env)
    requires Feasible(s, calls, env)
    ensures Outstanding(s) + AllStarted(s, calls, env)
         == AllCompleted(s, calls, env) + Outstanding(After(s, calls, env))
  {
    hide Outstanding;
    hide Apply;
    if calls != [] {
      var n := |calls| - 1;
      RunConserves(s, calls[..n], env);
      CallConserves(After(s, calls[..n], env), calls[n], env);
      var before := After(s, calls[..n], env);
      var e := Apply(before, calls[n], env).1;
      Balance(Outstanding(s), AllStarted(s, calls[..n], env), AllCompleted(s, calls[..n], env), Outstanding(before),
              multiset(e.started), Completed(e.completions), Outstanding(After(s, calls, env)));
    }
  }

  lemma Balance<T>(first: multiset<T>, started: multiset<T>, completed: multiset<T>, middle: multiset<T>,
                   starting: multiset<T>, completing: multiset<T>, last: multiset<T>)
    requires first + started == completed + middle && middle + starting == completing + last
    ensures first + (started + starting) == (completed + completing) + last
  {
    forall t ensures (first + (started + starting))[t] == ((completed + completing) + last)[t] {
      assert (first + started)[t] == (completed + middle)[t];
      assert (middle + starting)[t] == (completing + last)[t];
    }
  }

  /**
   From an idle stream, over any run: every key that was started is either completed or still owed, never both,
   and, as long as no key is started twice, none completes twice.
   */
  lemma NoCompletionLostOrDoubled(calls: seq<Call>, env: Env, tag: Tag)
    requires Feasible(EMPTY, calls, env)
    ensures AllStarted(EMPTY, calls, env) == AllCompleted(EMPTY, calls, env) + Outstanding(After(EMPTY, calls, env))
    ensures AllStarted(EMPTY, calls, env)[tag] <= 1 ==>
              && AllCompleted(EMPTY, calls, env)[tag] <= 1
              && !(tag in AllCompleted(EMPTY, calls, env) && tag in Outstanding(After(EMPTY, calls, env)))
    ensures tag in AllCompleted(EMPTY, calls, env) ==> tag in AllStarted(EMPTY, calls, env)
  {
    hide Apply;
    assert Outstanding(EMPTY) == multiset{};
    RunConserves(EMPTY, calls, env);
  }
}
