/**
 How long the scheduler of src/duplex.rs takes: the queue empties while writes are accepted, and how many bytes go out
 before a call's own frame begins.
 */
module Progress {
  import opened Mux
  import opened Application
  import opened Duplex
  import opened DuplexRuns
  import opened Delivery
  import T = Transmission

  // ---------- the queue empties ----------

  /** The ticks it takes at most. */
  function Pending(tx: seq<Transfer>): int {
    Unsent(tx) + |tx|
  }

  lemma {:induction false} LengthsOfFirst(frames: seq<seq<bv8>>)
    requires frames != []
    ensures Lengths(frames) >= |frames[0]|
  {
  }

  lemma {:induction false} UnsentIsNatural(tx: seq<Transfer>)
    requires forall i :: 0 <= i < |tx| ==> UnsentOf(tx[i]) >= 0
    ensures Unsent(tx) >= 0
  {
    hide UnsentOf;
    if tx != [] {
      UnsentIsNatural(tx[..|tx| - 1]);
    }
  }

  lemma ShapeUnsent(tx: seq<Transfer>)
    requires T.Shape(tx)
    ensures Unsent(tx) >= 0
  {
    hide Unsent;
    hide Lengths;
    forall i | 0 <= i < |tx| ensures UnsentOf(tx[i]) >= 0 {
      if i == 0 && tx[0].frames != [] {
        LengthsOfFirst(tx[0].frames);
      }
    }
    UnsentIsNatural(tx);
  }

  /** A tick that is not refused and whose write is accepted comes closer to an empty queue. */
  lemma TickLowers(s: DuplexState, readings: seq<nat>, outcome: WriteOutcome, now: nat)
    requires |readings| == |s.tx| && OfferFits(s, outcome) && T.Shape(s.tx) && outcome.Accepted?
    requires TickStep(s, readings, outcome, now).1.Ticked?
    ensures var s' := TickStep(s, readings, outcome, now).0;
            if s.tx == [] then s'.tx == [] else Pending(s'.tx) < Pending(s.tx)
  {
    hide Unsent;
    hide Overdue;
    WritesMakeProgress(s, readings, outcome, now);
    if s.tx != [] {
      RequeueIsNoLonger(if s.tx[0].frames == [] then s.tx[0] else Advanced(s.tx[0], outcome.n), s.tx[1..]);
    }
    hide Requeue;
  }

  lemma RequeueIsNoLonger(front: Transfer, rest: seq<Transfer>)
    ensures |Requeue(front, rest).0| == if front.frames == [] then |rest| else |rest| + 1
  {
  }

  /** Ticks none of which is refused, and each of which the driver takes some bytes from if it is offered any. */
  predicate Accepting(calls: seq<Call>, n: nat, m: nat, env: Env)
    requires Runnable(calls, env) && m <= |calls|
  {
    forall i :: n <= i < m ==> AcceptedAt(calls, i, env)
  }

  predicate AcceptedAt(calls: seq<Call>, i: nat, env: Env)
    requires Runnable(calls, env) && i < |calls|
  {
    Following(calls, i, env);
    var (s, c) := (LineAt(calls, i, env).s, calls[i]);
    c.TickCall? && c.outcome.Accepted? && TickStep(s, c.readings, c.outcome, c.now).1.Ticked?
  }

  lemma AcceptedLowers(calls: seq<Call>, i: nat, env: Env)
    requires Runnable(calls, env) && i < |calls| && AcceptedAt(calls, i, env)
    ensures var (tx, tx') := (LineAt(calls, i, env).s.tx, LineAt(calls, i + 1, env).s.tx);
            if tx == [] then tx' == [] else Pending(tx') < Pending(tx)
  {
    hide LineAt;
    hide TickStep;
    hide Pending;
    hide T.LineInv;
    Following(calls, i, env);
    var (s, c) := (LineAt(calls, i, env).s, calls[i]);
    T.ShapeOf(LineAt(calls, i, env));
    TickLowers(s, c.readings, c.outcome, c.now);
  }

  lemma {:induction false} QueueShrinks(calls: seq<Call>, n: nat, m: nat, env: Env)
    requires Runnable(calls, env) && n <= m <= |calls| && Accepting(calls, n, m, env)
    ensures var (tx, tx') := (LineAt(calls, n, env).s.tx, LineAt(calls, m, env).s.tx);
            tx' == [] || Pending(tx') + (m - n) <= Pending(tx)
    decreases m
  {
    hide LineAt;
    hide Pending;
    hide AcceptedAt;
    if n < m {
      QueueShrinks(calls, n, m - 1, env);
      AcceptedLowers(calls, m - 1, env);
    }
  }

  /** As many accepted ticks as there are bytes and transfers in the queue leave it empty. */
  lemma QueueEmpties(calls: seq<Call>, n: nat, m: nat, env: Env)
    requires Runnable(calls, env) && n <= m <= |calls| && Accepting(calls, n, m, env)
    requires m - n >= Pending(LineAt(calls, n, env).s.tx)
    ensures LineAt(calls, m, env).s.tx == []
  {
    hide LineAt;
    hide Unsent;
    hide AcceptedAt;
    hide T.LineInv;
    QueueShrinks(calls, n, m, env);
    LineInvAt(calls, m, env);
    T.ShapeOf(LineAt(calls, m, env));
    ShapeUnsent(LineAt(calls, m, env).s.tx);
  }

  // ---------- the wait of a call, in bytes ----------

  const MAX_INPUT_FRAME := 550

  /** What a transfer writes before the next one has its turn. */
  function Turn(t: Transfer): int {
    if t.frames == [] then 0 else |t.frames[0]| - t.offset
  }

  /** The bytes to be written before the call's frame begins. */
  function BytesBefore(tx: seq<Transfer>, key: string): int {
    if tx == [] || IsCall(tx[0], key) then 0 else Turn(tx[0]) + BytesBefore(tx[1..], key)
  }

  /** Those of them that belong to other calls. */
  function CallBytesBefore(tx: seq<Transfer>, key: string): int {
    if tx == [] || IsCall(tx[0], key) then 0
    else (if tx[0].lane == InputLane then 0 else Turn(tx[0])) + CallBytesBefore(tx[1..], key)
  }

  lemma {:induction false} BehindDoesNotMatter(tx: seq<Transfer>, t: Transfer, key: string)
    requires Waiting(tx, key)
    ensures BytesBefore(tx + [t], key) == BytesBefore(tx, key)
  {
    hide Turn;
    assert (tx + [t])[0] == tx[0] && (tx + [t])[1..] == tx[1..] + [t];
    if !IsCall(tx[0], key) {
      assert tx == [tx[0]] + tx[1..];
      StillWaiting(tx[0], tx[1..], key);
      BehindDoesNotMatter(tx[1..], t, key);
    }
  }

  lemma FrontCounts(f: Transfer, rest: seq<Transfer>, key: string)
    requires !IsCall(f, key)
    ensures BytesBefore([f] + rest, key) == Turn(f) + BytesBefore(rest, key)
  {
    assert ([f] + rest)[1..] == rest;
  }

  /** The front transfer of a write behind which the call still waits is not the call's. */
  lemma WriterIsNotCall(tx: seq<Transfer>, n: nat, key: string)
    requires T.DistinctKeys(tx) && Lanes(tx) && T.Shape(tx)
    requires tx != [] && tx[0].frames != [] && 0 < n <= |Offer(tx[0])|
    requires Waiting(Requeue(Advanced(tx[0], n), tx[1..]).0, key)
    ensures !IsCall(tx[0], key) && !IsCall(Advanced(tx[0], n), key) && Waiting(tx[1..], key)
  {
    var front, rest := Advanced(tx[0], n), tx[1..];
    var tx' := Requeue(front, rest).0;
    var j :| 0 <= j < |tx'| && IsCall(tx'[j], key);
    assert forall i :: 0 <= i < |rest| ==> rest[i] == tx[i + 1];
    assert front.key == tx[0].key;
    if tx[0].lane == ApplicationLane {
      assert |tx[0].frames| == 1;
    }
    assert !IsCall(front, key);
    assert tx'[j] in rest;
    var i :| 0 <= i < |rest| && rest[i] == tx'[j];
    assert IsCall(rest[i], key) && tx[0].key != tx[i + 1].key;
  }

  lemma WriteLowersWait(tx: seq<Transfer>, n: nat, key: string)
    requires T.DistinctKeys(tx) && Lanes(tx) && T.Shape(tx)
    requires tx != [] && tx[0].frames != [] && 0 < n <= |Offer(tx[0])|
    requires Waiting(Requeue(Advanced(tx[0], n), tx[1..]).0, key)
    ensures BytesBefore(Requeue(Advanced(tx[0], n), tx[1..]).0, key) == BytesBefore(tx, key) - n
  {
    hide BytesBefore;
    hide Waiting;
    WriterIsNotCall(tx, n, key);
    var front, rest := Advanced(tx[0], n), tx[1..];
    assert tx == [tx[0]] + rest;
    FrontCounts(tx[0], rest, key);
    FrontCounts(front, rest, key);
    BehindDoesNotMatter(rest, front, key);
    TurnEnds(tx[0], n);
  }

  lemma TurnEnds(t: Transfer, n: nat)
    requires t.frames != [] && t.offset < |t.frames[0]| && 0 < n <= |Offer(t)|
    ensures var front := Advanced(t, n);
            if front.frames == [] || front.offset == 0 then Turn(t) == n else Turn(front) == Turn(t) - n
  {
  }

  lemma NoTurn(t: Transfer)
    requires t.frames == []
    ensures Turn(t) == 0
  {
  }

  lemma StepLowersWait(l: T.Line, l': T.Line, q: QueueStep, key: string)
    requires T.Inv(l) && Lanes(l.s.tx) && Steps(l, l', q) && key in l.given && Waiting(l'.s.tx, key)
    ensures Waiting(l.s.tx, key)
    ensures BytesBefore(l'.s.tx, key) == BytesBefore(l.s.tx, key) - if q.Wrote? then q.n else 0
  {
    hide Waiting;
    hide BytesBefore;
    hide Lanes;
    hide Requeue;
    hide Advanced;
    hide HasInput;
    hide T.CompletedFrame;
    hide T.Inv;
    hide T.DistinctKeys;
    hide T.Shape;
    hide Turn;
    KeysDiffer(l);
    T.ShapeOf(l);
    StepServesCall(l, l', q, key);
    hide Offer;
    var tx := l.s.tx;
    match q {
      case Same =>
      case Pushed(t) => BehindDoesNotMatter(tx, t, key);
      case Dropped =>
        assert tx == [tx[0]] + tx[1..];
        FrontCounts(tx[0], tx[1..], key);
        NoTurn(tx[0]);
      case Wrote(n) => WriteLowersWait(tx, n, key);
    }
  }

  // ---------- over runs ----------

  predicate ShortInputs(tx: seq<Transfer>) {
    forall i, j :: 0 <= i < |tx| && 0 <= j < |tx[i].frames| && tx[i].lane == InputLane ==>
      |tx[i].frames[j]| <= MAX_INPUT_FRAME
  }

  lemma WriteKeepsShort(tx: seq<Transfer>, n: nat)
    requires ShortInputs(tx) && tx != [] && tx[0].frames != []
    ensures ShortInputs(Requeue(Advanced(tx[0], n), tx[1..]).0)
  {
    var t, front := tx[0], Advanced(tx[0], n);
    assert forall j :: 0 <= j < |front.frames| ==> front.frames[j] in t.frames;
  }

  /** Pieces of raw text are short, and so are console frames. */
  lemma StartedIsShort(s: DuplexState, c: Call, env: Env)
    requires c.Input? && Apply(s, c, env).1.started != []
    ensures var t := Transfer(c.key, InputLane, c.deadline, InputFrames(s.session, c.data).wires, 0, c.result);
            Apply(s, c, env).0.tx == s.tx + [t] && ShortInputs([t])
  {
    hide Wire;
    hide HasInput;
    if s.session.Some? {
      var chunks := Chunks(c.data);
      forall j | 0 <= j < |chunks| ensures |Wire(ConsoleFrame(s.session.value.nonce, chunks[j]))| <= MAX_INPUT_FRAME {
        ConsoleFrameLength(s.session.value.nonce, chunks[j]);
      }
    }
  }

  lemma CallKeepsShort(l: T.Line, c: Call, env: Env)
    requires Allowed(l.s, c) && T.Fresh(l, c) && ShortInputs(l.s.tx)
    ensures ShortInputs(T.Advance(l, c, env).s.tx)
  {
    hide Apply;
    hide Requeue;
    hide Advanced;
    hide HasInput;
    hide Offer;
    hide T.CompletedFrame;
    if c.AbortCall? {
      Aborts(l, c, env);
    } else {
      var q := Classify(l, c, env);
      match q {
        case Same =>
        case Pushed(t) =>
          OnlyStartsStart(l.s, c, env);
          if c.Input? {
            StartedIsShort(l.s, c, env);
          } else {
            CallsAreNoInputs(l.s, c, env);
          }
        case Dropped =>
        case Wrote(n) => WriteKeepsShort(l.s.tx, n);
      }
    }
  }

  lemma Aborts(l: T.Line, c: Call, env: Env)
    requires c.AbortCall?
    ensures T.Advance(l, c, env).s.tx == []
  {
  }

  lemma CallsAreNoInputs(s: DuplexState, c: Call, env: Env)
    requires (c.Request? || c.Connect?) && Apply(s, c, env).1.started != []
    ensures var tx := Apply(s, c, env).0.tx; tx != [] && tx[|tx| - 1].lane == ApplicationLane
  {
    hide Wire;
    hide PreparedRequest;
  }

  lemma {:induction false} RunKeepsShort(calls: seq<Call>, n: nat, env: Env)
    requires Runnable(calls, env) && n <= |calls|
    ensures ShortInputs(LineAt(calls, n, env).s.tx)
    decreases n
  {
    hide LineAt;
    hide T.Advance;
    hide T.Inv;
    hide ShortInputs;
    if n == 0 {
      AtStart(calls, env);
    } else {
      RunKeepsShort(calls, n - 1, env);
      Following(calls, n - 1, env);
      CallKeepsShort(LineAt(calls, n - 1, env), calls[n - 1], env);
    }
  }

  lemma AtStart(calls: seq<Call>, env: Env)
    requires Runnable(calls, env)
    ensures ShortInputs(LineAt(calls, 0, env).s.tx)
  {
    assert calls[..0] == [];
  }

  lemma {:induction false} NoInputNoTurn(tx: seq<Transfer>, key: string)
    requires !HasInput(tx)
    ensures BytesBefore(tx, key) == CallBytesBefore(tx, key)
  {
    if tx != [] && !IsCall(tx[0], key) {
      assert forall i :: 0 <= i < |tx[1..]| ==> tx[1..][i] == tx[i + 1];
      NoInputNoTurn(tx[1..], key);
    }
  }

  lemma AtLeastOne(tx: seq<Transfer>, key: string)
    requires Waiting(tx, key)
    ensures tx != []
  {
  }

  /** At most one transfer is an input, and its frame is short. */
  lemma {:induction false} OneShortTurn(tx: seq<Transfer>, key: string)
    requires Lanes(tx) && ShortInputs(tx) && Waiting(tx, key)
    ensures BytesBefore(tx, key) <= CallBytesBefore(tx, key) + MAX_INPUT_FRAME * Ahead(tx, key)
  {
    hide Waiting;
    hide InputAhead;
    AtLeastOne(tx, key);
    if !IsCall(tx[0], key) {
      var rest := tx[1..];
      assert tx == [tx[0]] + rest;
      StillWaiting(tx[0], rest, key);
      WaitingBehind(tx[0], rest, key);
      if tx[0].lane == InputLane {
        assert !HasInput(rest);
        NoInputNoTurn(rest, key);
      } else {
        OneShortTurn(rest, key);
      }
    }
  }

  lemma {:induction false} TurnsAreNatural(tx: seq<Transfer>, key: string)
    requires T.Shape(tx)
    ensures BytesBefore(tx, key) >= 0
  {
    if tx != [] && !IsCall(tx[0], key) {
      assert forall i :: 0 <= i < |tx[1..]| ==> tx[1..][i] == tx[i + 1];
      TurnsAreNatural(tx[1..], key);
    }
  }

  /**
   From the moment a call's frame is queued until it begins, exactly the bytes in front of it are written: those of
   other calls that are ahead, and at most 550 of an input if one is ahead.
   */
  lemma CallWaitsInBytes(calls: seq<Call>, n: nat, m: nat, env: Env, key: string)
    requires Runnable(calls, env) && n <= m <= |calls| && NoAbort(calls, n, m)
    requires key in LineAt(calls, n, env).given && Waiting(LineAt(calls, m, env).s.tx, key)
    ensures var (before, after) := (LineAt(calls, n, env), LineAt(calls, m, env));
            && |after.accepted| + BytesBefore(after.s.tx, key) == |before.accepted| + BytesBefore(before.s.tx, key)
            && 0 <= BytesBefore(after.s.tx, key)
            && BytesBefore(before.s.tx, key)
               <= CallBytesBefore(before.s.tx, key) + MAX_INPUT_FRAME * Ahead(before.s.tx, key)
  {
    hide LineAt;
    hide Waiting;
    hide Ahead;
    hide BytesBefore;
    hide Lanes;
    hide ShortInputs;
    hide T.Inv;
    WaitIsWritten(calls, n, m, env, key);
    LineInvAt(calls, n, env);
    LineInvAt(calls, m, env);
    T.ShapeOf(LineAt(calls, m, env));
    TurnsAreNatural(LineAt(calls, m, env).s.tx, key);
    RunKeepsShort(calls, n, env);
    OneShortTurn(LineAt(calls, n, env).s.tx, key);
  }

  lemma {:induction false} WaitIsWritten(calls: seq<Call>, n: nat, m: nat, env: Env, key: string)
    requires Runnable(calls, env) && n <= m <= |calls| && NoAbort(calls, n, m)
    requires key in LineAt(calls, n, env).given && Waiting(LineAt(calls, m, env).s.tx, key)
    ensures var (before, after) := (LineAt(calls, n, env), LineAt(calls, m, env));
            && Waiting(before.s.tx, key)
            && |after.accepted| + BytesBefore(after.s.tx, key) == |before.accepted| + BytesBefore(before.s.tx, key)
    decreases m
  {
    hide Waiting;
    hide BytesBefore;
    hide Lanes;
    hide LineAt;
    hide T.Inv;
    hide T.Advance;
    if n < m {
      var l := LineAt(calls, m - 1, env);
      Following(calls, m - 1, env);
      LineInvAt(calls, m - 1, env);
      GivenStays(calls, n, m - 1, env, key);
      var q := Classify(l, calls[m - 1], env);
      StepLowersWait(l, LineAt(calls, m, env), q, key);
      StepWrites(l, LineAt(calls, m, env), q);
      WaitIsWritten(calls, n, m - 1, env, key);
    }
  }

  lemma StepWrites(l: T.Line, l': T.Line, q: QueueStep)
    requires Steps(l, l', q)
    ensures |l'.accepted| == |l.accepted| + if q.Wrote? then q.n else 0
  {
    hide Requeue;
    hide Advanced;
    hide T.CompletedFrame;
    hide HasInput;
  }
}
