/**
 The console text of a stream: what the device decodes as console frames is what was typed into the inputs of a
 session, in the order they were started.
 */
module InputText {
  import opened Mux
  import opened MuxDecoder
  import opened MuxStream
  import opened Application
  import opened Duplex
  import opened DuplexRuns
  import opened Delivery
  import T = Transmission

  function TextOf(f: Frame): seq<bv8> {
    if f.kind == CONSOLE then f.payload else []
  }

  /** The text of the console frames among some frames. */
  function ConsoleText(frames: seq<Frame>): seq<bv8> {
    if frames == [] then [] else ConsoleText(frames[..|frames| - 1]) + TextOf(frames[|frames| - 1])
  }

  function TransferText(t: Transfer): seq<bv8> {
    if t.lane == InputLane then Join(Payloads(t.frames)) else []
  }

  /** The text still to be written. */
  function QueueText(tx: seq<Transfer>): seq<bv8> {
    if tx == [] then [] else QueueText(tx[..|tx| - 1]) + TransferText(tx[|tx| - 1])
  }

  function TypedAt(calls: seq<Call>, n: nat, env: Env): seq<bv8>
    requires Runnable(calls, env) && n < |calls|
  {
    if calls[n].Input? && EffectAt(calls, n, env).started != [] then calls[n].data else []
  }

  /** The data of the inputs started by the calls from n up to m. */
  function Typed(calls: seq<Call>, n: nat, m: nat, env: Env): seq<bv8>
    requires Runnable(calls, env) && n <= m <= |calls|
    decreases m
  {
    if n == m then [] else Typed(calls, n, m - 1, env) + TypedAt(calls, m - 1, env)
  }

  // ---------- the queue ----------

  lemma {:induction false} QueueTextConcat(a: seq<Transfer>, b: seq<Transfer>)
    ensures QueueText(a + b) == QueueText(a) + QueueText(b)
  {
    hide TransferText;
    if b == [] {
      assert a + b == a;
    } else {
      var n := |b| - 1;
      assert (a + b)[..|a + b| - 1] == a + b[..n];
      QueueTextConcat(a, b[..n]);
    }
  }

  lemma QueueTextOne(t: Transfer)
    ensures QueueText([t]) == TransferText(t)
  {
    hide TransferText;
    assert [t][..0] == [];
  }

  lemma {:induction false} NoInputNoText(tx: seq<Transfer>)
    requires !HasInput(tx)
    ensures QueueText(tx) == []
  {
    if tx != [] {
      var n := |tx| - 1;
      assert forall i :: 0 <= i < n ==> tx[..n][i] == tx[i];
      NoInputNoText(tx[..n]);
      assert tx[n].lane != InputLane;
    }
  }

  /** Requeueing keeps the text in its order: only one transfer has any. */
  lemma RequeueText(front: Transfer, rest: seq<Transfer>)
    requires front.lane == InputLane ==> !HasInput(rest)
    ensures QueueText(Requeue(front, rest).0) == TransferText(front) + QueueText(rest)
  {
    hide QueueText;
    hide Payloads;
    hide HasInput;
    QueueTextOne(front);
    QueueTextConcat([front], rest);
    QueueTextConcat(rest, [front]);
    if front.lane == InputLane {
      NoInputNoText(rest);
    }
    if front.frames == [] {
      NoPayloads();
    }
  }

  lemma SplitText(tx: seq<Transfer>)
    requires tx != []
    ensures QueueText(tx) == TransferText(tx[0]) + QueueText(tx[1..])
  {
    hide QueueText;
    assert tx == [tx[0]] + tx[1..];
    QueueTextConcat([tx[0]], tx[1..]);
    QueueTextOne(tx[0]);
  }

  lemma FirstPayload(frames: seq<seq<bv8>>)
    requires frames != []
    ensures Payloads(frames) == [Payloads([frames[0]])[0]] + Payloads(frames[1..])
    ensures Join(Payloads(frames)) == Payloads([frames[0]])[0] + Join(Payloads(frames[1..]))
  {
    hide DecodeWire;
  }

  // ---------- one step ----------

  function SentText(s: T.Sent): seq<bv8> {
    match DecodeWire(s.frame) case Some(f) => TextOf(f) case None => []
  }

  lemma {:induction false} ConsoleTextConcat(a: seq<Frame>, b: seq<Frame>)
    ensures ConsoleText(a + b) == ConsoleText(a) + ConsoleText(b)
  {
    hide TextOf;
    if b == [] {
      assert a + b == a;
    } else {
      var n := |b| - 1;
      assert (a + b)[..|a + b| - 1] == a + b[..n];
      ConsoleTextConcat(a, b[..n]);
    }
  }

  lemma ConsoleTextOne(f: Frame)
    ensures ConsoleText([f]) == TextOf(f)
  {
    assert [f][..0] == [];
  }

  lemma LogTextPush(log: seq<T.Sent>, s: T.Sent)
    ensures ConsoleText(FrameList(log + [s])) == ConsoleText(FrameList(log)) + SentText(s)
  {
    hide ConsoleText;
    hide TextOf;
    hide DecodeWire;
    assert (log + [s])[..|log + [s]| - 1] == log;
    match DecodeWire(s.frame) {
      case Some(f) =>
        ConsoleTextConcat(FrameList(log), [f]);
        ConsoleTextOne(f);
      case None =>
        assert FrameList(log) + [] == FrameList(log);
    }
  }

  /** Completing a frame moves its text from the transfer to the log. */
  lemma WriteMovesText(t: Transfer, log: seq<T.Sent>, n: nat)
    requires t.frames != [] && LaneFrame(t.lane, t.frames[0])
    ensures ConsoleText(FrameList(log + T.CompletedFrame(t, n))) + TransferText(Advanced(t, n))
         == ConsoleText(FrameList(log)) + TransferText(t)
  {
    hide ConsoleText;
    hide FrameList;
    hide Payloads;
    hide Join;
    hide IsWire;
    hide DecodeWire;
    if t.offset + n == |t.frames[0]| {
      LogTextPush(log, T.Sent(t.key, t.lane, t.frames[0]));
      FirstPayload(t.frames);
      FirstText(t);
    } else {
      assert log + T.CompletedFrame(t, n) == log;
    }
  }

  lemma FirstText(t: Transfer)
    requires t.frames != [] && LaneFrame(t.lane, t.frames[0])
    ensures SentText(T.Sent(t.key, t.lane, t.frames[0]))
         == if t.lane == InputLane then Payloads([t.frames[0]])[0] else []
  {
    hide DecodeWire;
  }

  function NewText(l: T.Line, m: nat): seq<bv8>
    requires m <= |l.log|
  {
    ConsoleText(FrameList(l.log[m..]))
  }

  lemma StepKeepsText(l: T.Line, l': T.Line, q: QueueStep, m: nat)
    requires Framed(l, m) && Lanes(l.s.tx) && Steps(l, l', q) && m <= |l'.log|
    ensures NewText(l', m) + QueueText(l'.s.tx)
         == NewText(l, m) + QueueText(l.s.tx) + if q.Pushed? then TransferText(q.t) else []
  {
    hide ConsoleText;
    hide FrameList;
    hide QueueText;
    hide TransferText;
    hide LaneFrame;
    hide Requeue;
    hide Advanced;
    hide T.CompletedFrame;
    var tx := l.s.tx;
    match q {
      case Same =>
      case Pushed(t) =>
        QueueTextConcat(tx, [t]);
        QueueTextOne(t);
      case Dropped =>
        SplitText(tx);
        EmptyText(tx[0]);
      case Wrote(n) =>
        var done := T.CompletedFrame(tx[0], n);
        SplitText(tx);
        WriteMovesText(tx[0], l.log[m..], n);
        assert (l.log + done)[m..] == l.log[m..] + done;
        FrontStaysFirst(tx, n);
        RequeueText(Advanced(tx[0], n), tx[1..]);
        T.Reassociate(NewText(l', m), TransferText(Advanced(tx[0], n)), QueueText(tx[1..]));
        T.Reassociate(NewText(l, m), TransferText(tx[0]), QueueText(tx[1..]));
    }
  }

  lemma EmptyText(t: Transfer)
    requires t.frames == []
    ensures TransferText(t) == []
  {
    NoPayloads();
  }

  lemma FrontStaysFirst(tx: seq<Transfer>, n: nat)
    requires Lanes(tx) && tx != [] && tx[0].frames != []
    ensures Advanced(tx[0], n).lane == InputLane ==> !HasInput(tx[1..])
  {
  }

  // ---------- whole runs ----------

  lemma PushedText(l: T.Line, c: Call, env: Env, t: Transfer)
    requires Allowed(l.s, c) && Apply(l.s, c, env).1.started != [] && (c.Input? ==> l.s.session.Some?)
    requires T.Advance(l, c, env).s.tx == l.s.tx + [t] && !c.AbortCall?
    ensures TransferText(t) == if c.Input? then c.data else []
  {
    hide Payloads;
    hide Join;
    hide ConsoleWires;
    hide Chunks;
    hide Wire;
    hide HasInput;
    OnlyStartsStart(l.s, c, env);
    if c.Input? {
      InputGetsConsoleFrames(l, c, env);
      PayloadsOfInput(l.s.session.value.nonce, c.data, t.frames);
    }
  }

  lemma TextAt(l: T.Line, c: Call, env: Env, q: QueueStep)
    requires Allowed(l.s, c) && T.Fresh(l, c) && !c.AbortCall? && Steps(l, T.Advance(l, c, env), q)
    requires q.Pushed? <==> Apply(l.s, c, env).1.started != []
    requires c.Input? && Apply(l.s, c, env).1.started != [] ==> l.s.session.Some?
    ensures (if q.Pushed? then TransferText(q.t) else [])
         == if c.Input? && Apply(l.s, c, env).1.started != [] then c.data else []
  {
    hide Apply;
    hide TransferText;
    hide HasInput;
    if q.Pushed? {
      PushedText(l, c, env, q.t);
    }
  }

  /** One call: what is written and queued grows by what was typed. */
  lemma CallKeepsText(calls: seq<Call>, m: nat, env: Env, before: nat)
    requires Runnable(calls, env) && m < |calls| && !calls[m].AbortCall?
    requires Framed(LineAt(calls, m, env), before) && before <= |LineAt(calls, m + 1, env).log|
    requires calls[m].Input? && EffectAt(calls, m, env).started != [] ==> LineAt(calls, m, env).s.session.Some?
    ensures NewText(LineAt(calls, m + 1, env), before) + QueueText(LineAt(calls, m + 1, env).s.tx)
         == NewText(LineAt(calls, m, env), before) + QueueText(LineAt(calls, m, env).s.tx) + TypedAt(calls, m, env)
  {
    hide T.Advance;
    hide T.Inv;
    hide LineAt;
    hide Framed;
    hide Lanes;
    hide Steps;
    hide QueueText;
    hide NewText;
    hide Apply;
    Following(calls, m, env);
    LineInvAt(calls, m, env);
    var l := LineAt(calls, m, env);
    var q := Classify(l, calls[m], env);
    StepKeepsText(l, LineAt(calls, m + 1, env), q, before);
    TextAt(l, calls[m], env, q);
  }

  /** The text that was written, and that still in the queue, is what was typed. */
  lemma {:induction false} RunKeepsText(calls: seq<Call>, n: nat, m: nat, env: Env)
    requires Runnable(calls, env) && n <= m <= |calls| && LineAt(calls, n, env).s.tx == []
    requires NoAbort(calls, n, m) && Negotiated(calls, n, m, env)
    ensures LineAt(calls, n, env).log <= LineAt(calls, m, env).log
    ensures NewText(LineAt(calls, m, env), |LineAt(calls, n, env).log|) + QueueText(LineAt(calls, m, env).s.tx)
         == Typed(calls, n, m, env)
    decreases m
  {
    hide LineAt;
    hide EffectAt;
    hide Framed;
    hide QueueText;
    hide NewText;
    hide TypedAt;
    hide T.Advance;
    RunKeepsFramed(calls, n, m, env);
    if n == m {
      NothingTyped(LineAt(calls, n, env));
    } else {
      RunKeepsText(calls, n, m - 1, env);
      RunKeepsFramed(calls, n, m - 1, env);
      CallKeepsText(calls, m - 1, env, |LineAt(calls, n, env).log|);
    }
  }

  lemma NothingTyped(l: T.Line)
    requires l.s.tx == []
    ensures NewText(l, |l.log|) + QueueText(l.s.tx) == []
  {
    assert l.log[|l.log|..] == [];
  }

  /**
   In every run, from a call that finds the queue empty and until an abort: the text of the console frames that were
   written is a prefix of what was typed into the inputs started since, and all of it when no input is left.
   */
  lemma DeviceReadsWhatWasTyped(calls: seq<Call>, n: nat, m: nat, env: Env)
    requires Runnable(calls, env) && n <= m <= |calls| && LineAt(calls, n, env).s.tx == []
    requires NoAbort(calls, n, m) && Negotiated(calls, n, m, env)
    ensures var (before, after) := (LineAt(calls, n, env), LineAt(calls, m, env));
            && before.log <= after.log
            && ConsoleText(FrameList(after.log[|before.log|..])) <= Typed(calls, n, m, env)
            && (!HasInput(after.s.tx) ==> ConsoleText(FrameList(after.log[|before.log|..])) == Typed(calls, n, m, env))
  {
    hide LineAt;
    hide QueueText;
    hide ConsoleText;
    hide HasInput;
    hide Typed;
    RunKeepsText(calls, n, m, env);
    if !HasInput(LineAt(calls, m, env).s.tx) {
      NoInputNoText(LineAt(calls, m, env).s.tx);
    }
  }
}
