/**
 Consequences of the transmission picture, over every run of src/duplex.rs between aborts: what the device
 decodes, what a console input delivers, how long a call waits, and that transmission makes progress.
 */
module Delivery {
  import opened Mux
  import opened MuxDecoder
  import opened MuxStream
  import opened Application
  import opened Duplex
  import opened DuplexRuns
  import T = Transmission

  // ---------- runs ----------

  /** Calls with fresh keys, each possible where it is made. */
  predicate Runnable(calls: seq<Call>, env: Env)
    decreases |calls|, 0
  {
    calls == [] ||
    var n := |calls| - 1;
    && Runnable(calls[..n], env)
    && Allowed(LineAfter(calls[..n], env).s, calls[n])
    && T.Fresh(LineAfter(calls[..n], env), calls[n])
  }

  function LineAfter(calls: seq<Call>, env: Env): T.Line
    requires Runnable(calls, env)
    decreases |calls|, 1
  {
    if calls == [] then T.IDLE
    else T.Advance(LineAfter(calls[..|calls| - 1], env), calls[|calls| - 1], env)
  }

  lemma {:induction false} RunKeepsLine(calls: seq<Call>, env: Env)
    requires Runnable(calls, env)
    ensures T.Inv(LineAfter(calls, env))
  {
    hide T.Inv;
    hide T.Advance;
    if calls == [] {
      T.IdleLine();
    } else {
      var n := |calls| - 1;
      RunKeepsLine(calls[..n], env);
      T.CallKeepsLine(LineAfter(calls[..n], env), calls[n], env);
    }
  }

  lemma {:induction false} RunnablePrefix(calls: seq<Call>, n: nat, env: Env)
    requires Runnable(calls, env) && n <= |calls|
    ensures Runnable(calls[..n], env)
    decreases |calls|
  {
    if n == |calls| {
      assert calls[..n] == calls;
    } else {
      var earlier := calls[..|calls| - 1];
      assert earlier[..n] == calls[..n];
      RunnablePrefix(earlier, n, env);
    }
  }

  /** The picture before call n of a run. */
  function LineAt(calls: seq<Call>, n: nat, env: Env): T.Line
    requires Runnable(calls, env) && n <= |calls|
  {
    RunnablePrefix(calls, n, env);
    LineAfter(calls[..n], env)
  }

  lemma Following(calls: seq<Call>, n: nat, env: Env)
    requires Runnable(calls, env) && n < |calls|
    ensures Allowed(LineAt(calls, n, env).s, calls[n]) && T.Fresh(LineAt(calls, n, env), calls[n])
    ensures LineAt(calls, n + 1, env) == T.Advance(LineAt(calls, n, env), calls[n], env)
    ensures T.Inv(LineAt(calls, n, env))
  {
    hide T.Advance;
    hide T.Fresh;
    hide T.Inv;
    RunnablePrefix(calls, n, env);
    RunnablePrefix(calls, n + 1, env);
    assert calls[..n + 1][..n] == calls[..n];
    RunKeepsLine(calls[..n], env);
  }

  function EffectAt(calls: seq<Call>, n: nat, env: Env): Effect
    requires Runnable(calls, env) && n < |calls|
  {
    Following(calls, n, env);
    Apply(LineAt(calls, n, env).s, calls[n], env).1
  }

  lemma LineInvAt(calls: seq<Call>, n: nat, env: Env)
    requires Runnable(calls, env) && n <= |calls|
    ensures T.Inv(LineAt(calls, n, env)) && Lanes(LineAt(calls, n, env).s.tx)
  {
    hide T.Inv;
    hide Lanes;
    hide LineAfter;
    RunnablePrefix(calls, n, env);
    RunKeepsLine(calls[..n], env);
    RunKeepsLanes(calls[..n], env);
  }

  predicate NoAbort(calls: seq<Call>, n: nat, m: nat)
    requires m <= |calls|
  {
    forall i :: n <= i < m ==> !calls[i].AbortCall?
  }

  /**
   In every run, the bytes accepted since the last abort are whole frames followed by a proper prefix of the
   front transfer's current frame, and each transfer's frames were sent in their order, each once.
   */
  lemma AcceptedBytesAreFrames(calls: seq<Call>, env: Env, key: string)
    requires Runnable(calls, env)
    ensures var l := LineAfter(calls, env);
            && l.accepted == T.Bytes(l.log) + T.Partial(l.s.tx)
            && (T.Partial(l.s.tx) != [] ==>
                  l.s.tx != [] && l.s.tx[0].frames != [] && |T.Partial(l.s.tx)| < |l.s.tx[0].frames[0]|
                  && T.Partial(l.s.tx) <= l.s.tx[0].frames[0])
            && (key in l.given ==> T.SentBy(l.log, key) + T.Remaining(l.s.tx, key) == l.given[key])
  {
    hide T.SentBy;
    hide T.Remaining;
    RunKeepsLine(calls, env);
  }

  // ---------- what the device decodes ----------

  /** A complete wire form. */
  predicate IsWire(bytes: seq<bv8>) {
    DecodeWire(bytes).Some? && Encodable(DecodeWire(bytes).value) && bytes == Wire(DecodeWire(bytes).value)
  }

  lemma WireIsWire(f: Frame)
    requires Encodable(f)
    ensures IsWire(Wire(f)) && DecodeWire(Wire(f)) == Some(f)
  {
    hide Wire;
    DecodeWireOfFrame(f);
  }

  predicate AllWires(frames: seq<seq<bv8>>) {
    forall j :: 0 <= j < |frames| ==> IsWire(frames[j])
  }

  lemma ConsoleWiresAreWires(nonce: bv64, chunks: seq<seq<bv8>>)
    requires nonce != 0 && forall i :: 0 <= i < |chunks| ==> |chunks[i]| <= CHUNK
    ensures forall j :: 0 <= j < |chunks| ==>
              IsWire(ConsoleWires(nonce, chunks)[j])
              && DecodeWire(ConsoleWires(nonce, chunks)[j]) == Some(ConsoleFrame(nonce, chunks[j]))
  {
    hide IsWire;
    hide Wire;
    hide DecodeWire;
    forall j | 0 <= j < |chunks|
      ensures IsWire(ConsoleWires(nonce, chunks)[j])
      ensures DecodeWire(ConsoleWires(nonce, chunks)[j]) == Some(ConsoleFrame(nonce, chunks[j]))
    {
      ConsoleFrameEncodable(nonce, chunks[j]);
      WireIsWire(ConsoleFrame(nonce, chunks[j]));
    }
  }

  /** The frames of a lane: wire forms, of console frames exactly for an input. */
  predicate LaneFrame(lane: Lane, wire: seq<bv8>) {
    IsWire(wire) && (lane == InputLane <==> DecodeWire(wire).value.kind == CONSOLE)
  }

  predicate LaneFrames(lane: Lane, frames: seq<seq<bv8>>) {
    forall j :: 0 <= j < |frames| ==> LaneFrame(lane, frames[j])
  }

  lemma StartedFramesAreWires(s: DuplexState, c: Call, env: Env)
    requires c.Request? || c.Connect? || (c.Input? && s.session.Some?)
    requires Apply(s, c, env).1.started != []
    ensures var tx := Apply(s, c, env).0.tx;
            tx != [] && AllWires(tx[|tx| - 1].frames) && LaneFrames(tx[|tx| - 1].lane, tx[|tx| - 1].frames)
  {
    hide IsWire;
    hide Wire;
    hide DecodeWire;
    hide Chunks;
    hide ConsoleWires;
    hide Encodable;
    match c {
      case Request(key, command, deadline) =>
        WireIsWire(PreparedRequest(s.session.value, command, env.inRange).1.frame);
      case Connect(key, deadline, nonce) =>
        WireIsWire(HelloFrame(nonce));
      case Input(key, data, deadline, result) =>
        if s.session.value.nonce != 0 {
          ConsoleWiresAreWires(s.session.value.nonce, Chunks(data));
        }
      case _ =>
    }
  }

  /** Everything logged since m, and everything queued, is a frame. */
  predicate Framed(l: T.Line, m: nat) {
    && m <= |l.log|
    && (forall i :: m <= i < |l.log| ==> LaneFrame(l.log[i].lane, l.log[i].frame))
    && (forall i :: 0 <= i < |l.s.tx| ==> LaneFrames(l.s.tx[i].lane, l.s.tx[i].frames))
  }

  lemma StepKeepsFramed(l: T.Line, l': T.Line, q: QueueStep, m: nat)
    requires Framed(l, m) && Steps(l, l', q) && (q.Pushed? ==> LaneFrames(q.t.lane, q.t.frames))
    ensures Framed(l', m) && l.log <= l'.log
  {
    hide LaneFrame;
    hide HasInput;
  }

  /** Every input started since call n was started in a session. */
  predicate Negotiated(calls: seq<Call>, n: nat, m: nat, env: Env)
    requires Runnable(calls, env) && m <= |calls|
  {
    forall i :: n <= i < m && calls[i].Input? && EffectAt(calls, i, env).started != [] ==>
      LineAt(calls, i, env).s.session.Some?
  }

  /** From an empty queue on, only frames are written. */
  lemma {:induction false} RunKeepsFramed(calls: seq<Call>, n: nat, m: nat, env: Env)
    requires Runnable(calls, env) && n <= m <= |calls| && LineAt(calls, n, env).s.tx == []
    requires NoAbort(calls, n, m) && Negotiated(calls, n, m, env)
    ensures Framed(LineAt(calls, m, env), |LineAt(calls, n, env).log|)
    ensures LineAt(calls, n, env).log <= LineAt(calls, m, env).log
    decreases m
  {
    hide T.Advance;
    hide T.Inv;
    hide LineAt;
    hide LaneFrames;
    hide LaneFrame;
    if n < m {
      RunKeepsFramed(calls, n, m - 1, env);
      Following(calls, m - 1, env);
      var l := LineAt(calls, m - 1, env);
      var q := Classify(l, calls[m - 1], env);
      if q.Pushed? {
        StartedPushes(l, calls[m - 1], env, q.t);
      }
      StepKeepsFramed(l, LineAt(calls, m, env), q, |LineAt(calls, n, env).log|);
    }
  }

  lemma StartedPushes(l: T.Line, c: Call, env: Env, t: Transfer)
    requires Allowed(l.s, c) && Apply(l.s, c, env).1.started != [] && (c.Input? ==> l.s.session.Some?)
    requires T.Advance(l, c, env).s.tx == l.s.tx + [t] && !c.AbortCall?
    ensures LaneFrames(t.lane, t.frames)
  {
    hide Apply;
    hide LaneFrames;
    hide AllWires;
    OnlyStartsStart(l.s, c, env);
    StartedFramesAreWires(l.s, c, env);
  }

  lemma OnlyStartsStart(s: DuplexState, c: Call, env: Env)
    requires Allowed(s, c) && Apply(s, c, env).1.started != []
    ensures c.Request? || c.Connect? || c.Input?
  {
    hide TickStep;
    hide FeedStep;
  }

  function FrameList(log: seq<T.Sent>): seq<Frame> {
    if log == [] then []
    else FrameList(log[..|log| - 1]) +
         match DecodeWire(log[|log| - 1].frame) case Some(f) => [f] case None => []
  }

  lemma {:induction false} LogIsWires(log: seq<T.Sent>)
    requires forall i :: 0 <= i < |log| ==> IsWire(log[i].frame)
    ensures T.Bytes(log) == Wires(FrameList(log))
    ensures forall f :: f in FrameList(log) ==> Encodable(f)
    ensures FrameList(log) == [] <==> log == []
  {
    hide Wire;
    hide DecodeWire;
    hide Encodable;
    if log != [] {
      var n := |log| - 1;
      LogIsWires(log[..n]);
      var f := DecodeWire(log[n].frame).value;
      assert FrameList(log) == FrameList(log[..n]) + [f];
      assert FrameList(log)[..|FrameList(log)| - 1] == FrameList(log[..n]);
    }
  }

  lemma {:induction false} BytesConcat(a: seq<T.Sent>, b: seq<T.Sent>)
    ensures T.Bytes(a + b) == T.Bytes(a) + T.Bytes(b)
  {
    if b == [] {
      assert a + b == a;
    } else {
      var n := |b| - 1;
      assert (a + b)[..|a + b| - 1] == a + b[..n];
      BytesConcat(a, b[..n]);
    }
  }

  /** Frames, and part of one more, in any state of the decoder. */
  lemma PeerDecodes(log: seq<T.Sent>, frame: seq<bv8>, k: nat, d: State)
    requires Inv(d) && forall i :: 0 <= i < |log| ==> IsWire(log[i].frame)
    requires k > 0 ==> IsWire(frame) && k < |frame|
    ensures var bytes := T.Bytes(log) + if k > 0 then frame[..k] else [];
            Trace(d, bytes) == (if bytes == [] then [] else AtFlag(d)) + Gots(FrameList(log))
  {
    hide Wire;
    hide DecodeWire;
    hide Trace;
    hide Run;
    hide Inv;
    hide AtFlag;
    hide T.Bytes;
    hide Encodable;
    var done, rest := T.Bytes(log), if k > 0 then frame[..k] else [];
    LogIsWires(log);
    FramesDecode(d, FrameList(log));
    ReadyIsClean();
    RunConcat(d, done, rest);
    RunEmpty(Run(d, done));
    if log != [] {
      WiresNotEmpty(FrameList(log));
    }
    if k > 0 {
      PartialFrame(Run(d, done), DecodeWire(frame).value, k);
      assert AtFlag(d) + [] == AtFlag(d);
    }
    assert Gots(FrameList(log)) + [] == Gots(FrameList(log));
  }

  lemma WiresNotEmpty(frames: seq<Frame>)
    requires frames != []
    ensures Wires(frames) != []
  {
    hide Wire;
    T.WireNotEmpty(frames[|frames| - 1]);
  }

  /**
   In every run, from a call that finds the queue empty, as each started connection does, and whatever the device's
   decoder has seen before: it decodes exactly the frames written since, in their order, after at most what
   their first flag ends.
   */
  lemma PeerDecodesFrames(calls: seq<Call>, n: nat, m: nat, env: Env, d: State)
    requires Runnable(calls, env) && n <= m <= |calls| && LineAt(calls, n, env).s.tx == [] && Inv(d)
    requires NoAbort(calls, n, m) && Negotiated(calls, n, m, env)
    ensures var (before, after) := (LineAt(calls, n, env), LineAt(calls, m, env));
            && before.accepted <= after.accepted && before.log <= after.log
            && var bytes := after.accepted[|before.accepted|..];
               Trace(d, bytes) == (if bytes == [] then [] else AtFlag(d)) + Gots(FrameList(after.log[|before.log|..]))
  {
    hide Framed;
    hide LineAt;
    hide Inv;
    hide Trace;
    hide AtFlag;
    hide T.Inv;
    LineInvAt(calls, n, env);
    LineInvAt(calls, m, env);
    RunKeepsFramed(calls, n, m, env);
    LineDecodes(LineAt(calls, n, env), LineAt(calls, m, env), d);
  }

  lemma PartOfFrame(l: T.Line, m: nat)
    requires T.Inv(l) && Framed(l, m)
    ensures l.accepted == T.Bytes(l.log) + T.Partial(l.s.tx)
    ensures T.Partial(l.s.tx) != [] ==>
              l.s.tx != [] && l.s.tx[0].frames != [] && IsWire(l.s.tx[0].frames[0])
              && |T.Partial(l.s.tx)| < |l.s.tx[0].frames[0]| && T.Partial(l.s.tx) <= l.s.tx[0].frames[0]
  {
    hide IsWire;
    hide T.InOrder;
    hide T.Bytes;
    assert l.s.tx != [] && l.s.tx[0].frames != [] ==> LaneFrame(l.s.tx[0].lane, l.s.tx[0].frames[0]);
  }

  lemma NewIsWires(l: T.Line, m: nat)
    requires Framed(l, m)
    ensures forall i :: 0 <= i < |l.log[m..]| ==> IsWire(l.log[m..][i].frame)
  {
    hide IsWire;
    forall i | 0 <= i < |l.log[m..]| ensures IsWire(l.log[m..][i].frame) {
      assert LaneFrame(l.log[m + i].lane, l.log[m + i].frame);
    }
  }

  lemma LineDecodes(before: T.Line, after: T.Line, d: State)
    requires T.Inv(before) && T.Inv(after) && before.s.tx == [] && before.log <= after.log
    requires Framed(after, |before.log|) && Inv(d)
    ensures before.accepted <= after.accepted
    ensures var bytes := after.accepted[|before.accepted|..];
            Trace(d, bytes) == (if bytes == [] then [] else AtFlag(d)) + Gots(FrameList(after.log[|before.log|..]))
  {
    hide T.Inv;
    hide Framed;
    hide IsWire;
    hide T.Bytes;
    hide T.Partial;
    hide Trace;
    hide AtFlag;
    hide Inv;
    var m := |before.log|;
    var more, rest := after.log[m..], T.Partial(after.s.tx);
    assert after.log == before.log + more;
    BytesConcat(before.log, more);
    NewIsWires(after, m);
    PartOfFrame(after, m);
    NothingPartial(before);
    var front := if rest != [] then after.s.tx[0].frames[0] else [];
    PeerDecodes(more, front, |rest|, d);
    assert rest == if |rest| > 0 then front[..|rest|] else [];
    assert after.accepted == before.accepted + (T.Bytes(more) + rest);
    assert after.accepted[|before.accepted|..] == T.Bytes(more) + rest;
  }

  lemma NothingPartial(l: T.Line)
    requires T.Inv(l) && l.s.tx == []
    ensures l.accepted == T.Bytes(l.log)
  {
    hide T.Bytes;
    hide T.InOrder;
    assert T.Bytes(l.log) + [] == T.Bytes(l.log);
  }

  // ---------- console input ----------

  function Payloads(wires: seq<seq<bv8>>): seq<seq<bv8>> {
    seq(|wires|, i requires 0 <= i < |wires| =>
      match DecodeWire(wires[i]) case Some(f) => f.payload case None => [])
  }

  lemma {:induction false} JoinPrefix<X>(parts: seq<seq<X>>, k: nat)
    requires k <= |parts|
    ensures Join(parts[..k]) <= Join(parts)
    ensures k == |parts| ==> Join(parts[..k]) == Join(parts)
    decreases |parts|
  {
    if k > 0 {
      assert parts[..k][1..] == parts[1..][..k - 1];
      JoinPrefix(parts[1..], k - 1);
    }
  }

  lemma PayloadsOfPrefix(nonce: bv64, chunks: seq<seq<bv8>>, sent: seq<seq<bv8>>)
    requires nonce != 0 && forall i :: 0 <= i < |chunks| ==> |chunks[i]| <= CHUNK
    requires sent <= ConsoleWires(nonce, chunks)
    ensures |sent| <= |chunks| && Payloads(sent) == chunks[..|sent|]
  {
    hide DecodeWire;
    hide IsWire;
    hide Wire;
    ConsoleWiresAreWires(nonce, chunks);
  }

  /** An input started in a session is given the console frames of its data. */
  lemma InputGetsConsoleFrames(l: T.Line, c: Call, env: Env)
    requires Allowed(l.s, c) && c.Input? && l.s.session.Some? && Apply(l.s, c, env).1.started != []
    ensures var given := T.Advance(l, c, env).given;
            c.key in given && given[c.key] == ConsoleWires(l.s.session.value.nonce, Chunks(c.data))
    ensures l.s.session.value.nonce != 0 || c.data == []
  {
    hide Chunks;
    hide ConsoleWires;
  }

  lemma SentIsPrefix(l: T.Line, key: string)
    requires T.Inv(l) && key in l.given
    ensures T.SentBy(l.log, key) <= l.given[key]
    ensures T.Remaining(l.s.tx, key) == [] ==> T.SentBy(l.log, key) == l.given[key]
  {
    hide T.SentBy;
    hide T.Remaining;
    hide T.Bytes;
    assert T.SentBy(l.log, key) + T.Remaining(l.s.tx, key) == l.given[key];
  }

  lemma RequeueDone(front: Transfer, rest: seq<Transfer>)
    requires forall i :: 0 <= i < |rest| ==> rest[i].key != front.key
    ensures var (tx, done) := Requeue(front, rest);
            done != [] ==> |done| == 1 && done[0].lane == InputLane && T.Remaining(tx, done[0].key) == []
  {
    T.NotRemaining(rest, front.key);
  }

  /** An input only completes successfully when nothing of it is left in the queue. */
  lemma DoneMeansAllSent(s: DuplexState, c: Call, env: Env, i: nat)
    requires T.DistinctKeys(s.tx) && Allowed(s, c) && c.TickCall?
    requires var e := Apply(s, c, env).1; i < |e.completions| && e.completions[i].result.Done?
    ensures var done := Apply(s, c, env).1.completions[i];
            done.lane == InputLane && T.Remaining(Apply(s, c, env).0.tx, done.key) == []
  {
    hide T.Remaining;
    hide Overdue;
    hide Requeue;
    var tx := s.tx;
    if tx != [] {
      RequeueDone(if tx[0].frames == [] then tx[0] else Advanced(tx[0], c.outcome.n), tx[1..]);
    }
  }

  /** What a transfer was given does not change. */
  lemma {:induction false} GivenStays(calls: seq<Call>, n: nat, m: nat, env: Env, key: string)
    requires Runnable(calls, env) && n <= m <= |calls| && NoAbort(calls, n, m)
    requires key in LineAt(calls, n, env).given
    ensures key in LineAt(calls, m, env).given && LineAt(calls, m, env).given[key] == LineAt(calls, n, env).given[key]
    decreases m
  {
    hide T.Advance;
    hide T.Inv;
    hide LineAt;
    if n < m {
      GivenStays(calls, n, m - 1, env, key);
      Following(calls, m - 1, env);
      var q := Classify(LineAt(calls, m - 1, env), calls[m - 1], env);
    }
  }

  lemma {:induction false} LogGrows(calls: seq<Call>, n: nat, m: nat, env: Env)
    requires Runnable(calls, env) && n <= m <= |calls| && NoAbort(calls, n, m)
    ensures LineAt(calls, n, env).log <= LineAt(calls, m, env).log
    decreases m
  {
    hide T.Advance;
    hide T.Inv;
    hide LineAt;
    if n < m {
      LogGrows(calls, n, m - 1, env);
      Following(calls, m - 1, env);
      var q := Classify(LineAt(calls, m - 1, env), calls[m - 1], env);
    }
  }

  lemma {:induction false} SentByGrows(log: seq<T.Sent>, n: nat, key: string)
    requires n <= |log|
    ensures T.SentBy(log[..n], key) <= T.SentBy(log, key)
    decreases |log|
  {
    if n == |log| {
      assert log[..n] == log;
    } else {
      var earlier := log[..|log| - 1];
      assert earlier[..n] == log[..n];
      SentByGrows(earlier, n, key);
    }
  }

  /** Call k completes the input successfully. */
  predicate SucceedsAt(calls: seq<Call>, k: nat, env: Env, key: string)
    requires Runnable(calls, env) && k < |calls|
  {
    exists i :: 0 <= i < |EffectAt(calls, k, env).completions|
                && var done := EffectAt(calls, k, env).completions[i];
                   done.key == key && done.lane == InputLane && done.result.Done?
  }

  lemma OnlyTicksFinishInputs(s: DuplexState, c: Call, env: Env, i: nat)
    requires Allowed(s, c)
    requires var e := Apply(s, c, env).1;
             i < |e.completions| && e.completions[i].lane == InputLane && e.completions[i].result.Done?
    ensures c.TickCall?
  {
    hide ProcessItems;
    hide Run;
    hide Items;
    hide AbortedInputs;
    hide TickStep;
    hide SpeaksProtocolOne;
    if c.AbortCall? {
      AbortFailsInputs(s.tx, c.reason);
    }
  }

  /** Once an input has succeeded, all of it is written. */
  lemma SuccessMeansSent(calls: seq<Call>, k: nat, m: nat, env: Env, key: string)
    requires Runnable(calls, env) && k < m <= |calls| && NoAbort(calls, k, m)
    requires key in LineAt(calls, k, env).given && SucceedsAt(calls, k, env, key)
    ensures key in LineAt(calls, m, env).given
    ensures T.SentBy(LineAt(calls, m, env).log, key) == LineAt(calls, m, env).given[key]
  {
    hide LineAt;
    hide T.Inv;
    hide T.SentBy;
    hide T.Remaining;
    hide Apply;
    Following(calls, k, env);
    LineInvAt(calls, k + 1, env);
    LineInvAt(calls, m, env);
    var l, later, last := LineAt(calls, k, env), LineAt(calls, k + 1, env), LineAt(calls, m, env);
    var i :| 0 <= i < |EffectAt(calls, k, env).completions|
             && var done := EffectAt(calls, k, env).completions[i];
                done.key == key && done.lane == InputLane && done.result.Done?;
    OnlyTicksFinishInputs(l.s, calls[k], env, i);
    KeysDiffer(l);
    DoneMeansAllSent(l.s, calls[k], env, i);
    GivenStays(calls, k, k + 1, env, key);
    GivenStays(calls, k, m, env, key);
    LogGrows(calls, k + 1, m, env);
    SentIsPrefix(later, key);
    SentIsPrefix(last, key);
    SentByGrows(last.log, |later.log|, key);
    assert last.log[..|later.log|] == later.log;
  }

  lemma KeysDiffer(l: T.Line)
    requires T.Inv(l)
    ensures T.DistinctKeys(l.s.tx)
  {
  }

  lemma PayloadsOfInput(nonce: bv64, data: seq<bv8>, sent: seq<seq<bv8>>)
    requires (nonce != 0 || data == []) && sent <= ConsoleWires(nonce, Chunks(data))
    ensures Join(Payloads(sent)) <= data
    ensures sent == ConsoleWires(nonce, Chunks(data)) ==> Join(Payloads(sent)) == data
  {
    hide Chunks;
    hide Join;
    hide ConsoleWires;
    hide Payloads;
    if nonce != 0 {
      PayloadsOfPrefix(nonce, Chunks(data), sent);
      JoinPrefix(Chunks(data), |sent|);
    } else {
      NoPayloads();
    }
  }

  lemma NoPayloads()
    ensures Join(Payloads([])) == []
  {
  }

  /**
   In every run, for an input that was started in a session at call n: what has been written of it is, decoded, a
   prefix of its data; and all of its data if it was completed successfully.
   */
  lemma InputArrives(calls: seq<Call>, n: nat, m: nat, env: Env)
    requires Runnable(calls, env) && n < m <= |calls| && NoAbort(calls, n, m)
    requires calls[n].Input? && EffectAt(calls, n, env).started != [] && LineAt(calls, n, env).s.session.Some?
    ensures var arrived := Join(Payloads(T.SentBy(LineAt(calls, m, env).log, calls[n].key)));
            && arrived <= calls[n].data
            && ((exists k :: n < k < m && SucceedsAt(calls, k, env, calls[n].key)) ==> arrived == calls[n].data)
  {
    hide LineAt;
    hide T.Inv;
    hide T.SentBy;
    hide SucceedsAt;
    hide Join;
    hide Payloads;
    hide T.Advance;
    var l, key, data := LineAt(calls, n, env), calls[n].key, calls[n].data;
    Following(calls, n, env);
    InputGetsConsoleFrames(l, calls[n], env);
    GivenStays(calls, n + 1, m, env, key);
    LineInvAt(calls, m, env);
    SentIsPrefix(LineAt(calls, m, env), key);
    PayloadsOfInput(l.s.session.value.nonce, data, T.SentBy(LineAt(calls, m, env).log, key));
    if k :| n < k < m && SucceedsAt(calls, k, env, key) {
      GivenStays(calls, n + 1, k, env, key);
      SuccessMeansSent(calls, k, m, env, key);
    }
  }

  // ---------- progress ----------

  function Lengths(frames: seq<seq<bv8>>): nat {
    if frames == [] then 0 else |frames[0]| + Lengths(frames[1..])
  }

  /** The bytes a transfer still has to write. */
  function UnsentOf(t: Transfer): int {
    Lengths(t.frames) - t.offset
  }

  function Unsent(tx: seq<Transfer>): int {
    if tx == [] then 0 else Unsent(tx[..|tx| - 1]) + UnsentOf(tx[|tx| - 1])
  }

  lemma {:induction false} UnsentConcat(a: seq<Transfer>, b: seq<Transfer>)
    ensures Unsent(a + b) == Unsent(a) + Unsent(b)
  {
    if b == [] {
      assert a + b == a;
    } else {
      var n := |b| - 1;
      assert (a + b)[..|a + b| - 1] == a + b[..n];
      UnsentConcat(a, b[..n]);
    }
  }

  lemma UnsentOne(t: Transfer)
    ensures Unsent([t]) == UnsentOf(t)
  {
    assert [t][..0] == [];
  }

  lemma RequeueUnsent(front: Transfer, rest: seq<Transfer>)
    requires front.frames == [] ==> front.offset == 0
    ensures Unsent(Requeue(front, rest).0) == UnsentOf(front) + Unsent(rest)
  {
    hide Unsent;
    UnsentConcat([front], rest);
    UnsentConcat(rest, [front]);
    UnsentOne(front);
  }

  /** Every write of n bytes leaves n bytes less to send: transmission ends if writes keep accepting bytes. */
  lemma WritesMakeProgress(s: DuplexState, readings: seq<nat>, outcome: WriteOutcome, now: nat)
    requires |readings| == |s.tx| && OfferFits(s, outcome) && T.Shape(s.tx)
    requires TickStep(s, readings, outcome, now).1.Ticked?
    ensures var (s', r) := TickStep(s, readings, outcome, now);
            Unsent(s'.tx) == Unsent(s.tx) - |r.written|
    ensures var (s', r) := TickStep(s, readings, outcome, now);
            s.tx != [] && s.tx[0].frames != [] && outcome.Accepted? ==> |r.written| == outcome.n > 0
  {
    hide Unsent;
    hide Requeue;
    hide Overdue;
    if s.tx != [] {
      assert s.tx == [s.tx[0]] + s.tx[1..];
      UnsentConcat([s.tx[0]], s.tx[1..]);
      UnsentOne(s.tx[0]);
      if s.tx[0].frames == [] {
        RequeueUnsent(s.tx[0], s.tx[1..]);
      } else if outcome.Accepted? {
        RequeueUnsent(Advanced(s.tx[0], outcome.n), s.tx[1..]);
      }
    }
  }

  // ---------- bounded wait ----------

  /** A call's frame that has not begun. */
  predicate IsCall(t: Transfer, key: string) {
    t.key == key && t.lane == ApplicationLane && t.offset == 0 && t.frames != []
  }

  predicate Waiting(tx: seq<Transfer>, key: string) {
    exists j :: 0 <= j < |tx| && IsCall(tx[j], key)
  }

  /** Some input is in front of the waiting call. */
  predicate InputAhead(tx: seq<Transfer>, key: string) {
    exists i, j :: 0 <= i < j < |tx| && tx[i].lane == InputLane && IsCall(tx[j], key)
  }

  function Ahead(tx: seq<Transfer>, key: string): nat {
    if InputAhead(tx, key) then 1 else 0
  }

  function InputsSent(log: seq<T.Sent>): nat {
    if log == [] then 0
    else InputsSent(log[..|log| - 1]) + if log[|log| - 1].lane == InputLane then 1 else 0
  }

  /** At most one input, and calls of a single frame. */
  predicate Lanes(tx: seq<Transfer>) {
    && (forall i, j :: 0 <= i < j < |tx| ==> !(tx[i].lane == InputLane && tx[j].lane == InputLane))
    && (forall i :: 0 <= i < |tx| && tx[i].lane == ApplicationLane ==> |tx[i].frames| == 1)
  }

  lemma WriteKeepsLanes(tx: seq<Transfer>, n: nat)
    requires Lanes(tx) && T.Shape(tx) && tx != [] && tx[0].frames != [] && 0 < n <= |Offer(tx[0])|
    ensures Lanes(Requeue(Advanced(tx[0], n), tx[1..]).0)
  {
  }

  lemma PushKeepsLanes(tx: seq<Transfer>, t: Transfer)
    requires Lanes(tx)
    requires t.lane == InputLane ==> !HasInput(tx)
    requires t.lane == ApplicationLane ==> |t.frames| == 1
    ensures Lanes(tx + [t])
  {
  }

  lemma DropKeepsLanes(tx: seq<Transfer>)
    requires Lanes(tx) && tx != []
    ensures Lanes(tx[1..])
  {
  }

  /** What a call did to the queue. */
  datatype QueueStep = Same | Pushed(t: Transfer) | Dropped | Wrote(n: nat)

  predicate Steps(l: T.Line, l': T.Line, q: QueueStep) {
    match q
    case Same => l' == l.(s := l'.s) && l'.s.tx == l.s.tx
    case Pushed(t) =>
      && l' == l.(s := l'.s, given := l.given[t.key := t.frames]) && l'.s.tx == l.s.tx + [t]
      && t.key !in l.given
      && (t.lane == InputLane ==> !HasInput(l.s.tx))
      && (t.lane == ApplicationLane ==> |t.frames| == 1)
    case Dropped =>
      && l.s.tx != [] && l.s.tx[0].frames == []
      && l' == l.(s := l'.s) && l'.s.tx == l.s.tx[1..]
    case Wrote(n) =>
      && l.s.tx != [] && l.s.tx[0].frames != [] && l.s.tx[0].offset <= |l.s.tx[0].frames[0]|
      && 0 < n <= |Offer(l.s.tx[0])|
      && l'.s.tx == Requeue(Advanced(l.s.tx[0], n), l.s.tx[1..]).0
      && l' == l.(s := l'.s, log := l.log + T.CompletedFrame(l.s.tx[0], n),
                  accepted := l.accepted + Offer(l.s.tx[0])[..n])
  }

  lemma ClassifyStart(l: T.Line, c: Call, env: Env) returns (q: QueueStep)
    requires (c.Request? || c.Connect? || c.Input?) && T.Fresh(l, c)
    ensures Steps(l, T.Advance(l, c, env), q) && (q.Pushed? <==> Apply(l.s, c, env).1.started != [])
  {
    hide Wire;
    hide InputFrames;
    hide Encodable;
    hide PreparedRequest;
    hide HasInput;
    assert l.log + [] == l.log && l.accepted + [] == l.accepted;
    var (s', e) := Apply(l.s, c, env);
    if e.started == [] {
      q := Same;
    } else {
      q := Pushed(s'.tx[|s'.tx| - 1]);
    }
  }

  lemma ClassifyTick(l: T.Line, c: Call, env: Env) returns (q: QueueStep)
    requires c.TickCall? && Allowed(l.s, c)
    ensures Steps(l, T.Advance(l, c, env), q) && !q.Pushed? && Apply(l.s, c, env).1.started == []
  {
    hide Requeue;
    hide Advanced;
    hide Offer;
    hide T.CompletedFrame;
    hide Overdue;
    assert l.log + [] == l.log && l.accepted + [] == l.accepted;
    if TickStep(l.s, c.readings, c.outcome, c.now).1.TickFailed? || l.s.tx == [] {
      q := Same;
    } else if l.s.tx[0].frames == [] {
      T.RequeueEmpty(l.s.tx[0], l.s.tx[1..]);
      q := Dropped;
    } else if c.outcome.Accepted? {
      q := Wrote(c.outcome.n);
    } else {
      q := Same;
    }
  }

  lemma Classify(l: T.Line, c: Call, env: Env) returns (q: QueueStep)
    requires Allowed(l.s, c) && T.Fresh(l, c) && !c.AbortCall?
    ensures Steps(l, T.Advance(l, c, env), q) && (q.Pushed? <==> Apply(l.s, c, env).1.started != [])
  {
    hide Steps;
    hide T.Advance;
    match c {
      case TickCall(_, _, _) =>
        q := ClassifyTick(l, c, env);
      case FeedCall(_, _, _) =>
        FeedIsSame(l, c, env);
        q := Same;
      case _ =>
        q := ClassifyStart(l, c, env);
    }
  }

  lemma FeedIsSame(l: T.Line, c: Call, env: Env)
    requires c.FeedCall?
    ensures Steps(l, T.Advance(l, c, env), Same) && Apply(l.s, c, env).1.started == []
  {
    hide FeedStep;
    T.FeedKeepsQueue(l.s, c, env);
    assert l.log + [] == l.log && l.accepted + [] == l.accepted;
  }

  lemma StepKeepsLanes(l: T.Line, l': T.Line, q: QueueStep)
    requires T.Inv(l) && Lanes(l.s.tx) && Steps(l, l', q)
    ensures Lanes(l'.s.tx)
  {
    hide Lanes;
    hide Requeue;
    hide Advanced;
    T.ShapeOf(l);
    match q {
      case Same =>
      case Pushed(t) => PushKeepsLanes(l.s.tx, t);
      case Dropped => DropKeepsLanes(l.s.tx);
      case Wrote(n) => WriteKeepsLanes(l.s.tx, n);
    }
  }

  lemma NoLanes()
    ensures Lanes([])
  {
  }

  lemma WaitingBehind(f: Transfer, rest: seq<Transfer>, key: string)
    requires Waiting(rest, key)
    ensures Waiting([f] + rest, key)
    ensures f.lane == InputLane || InputAhead(rest, key) ==> InputAhead([f] + rest, key)
  {
    var j :| 0 <= j < |rest| && IsCall(rest[j], key);
    var tx := [f] + rest;
    assert IsCall(tx[j + 1], key);
    if f.lane == InputLane {
      assert tx[0].lane == InputLane;
    } else if InputAhead(rest, key) {
      var a, b :| 0 <= a < b < |rest| && rest[a].lane == InputLane && IsCall(rest[b], key);
      assert tx[a + 1].lane == InputLane && IsCall(tx[b + 1], key);
    }
  }

  lemma StillWaiting(f: Transfer, rest: seq<Transfer>, key: string)
    requires Waiting([f] + rest, key) && !IsCall(f, key)
    ensures Waiting(rest, key)
    ensures f.lane != InputLane && InputAhead([f] + rest, key) ==> InputAhead(rest, key)
  {
    var tx := [f] + rest;
    var j :| 0 <= j < |tx| && IsCall(tx[j], key);
    assert rest[j - 1] == tx[j];
    if f.lane != InputLane && InputAhead(tx, key) {
      var a, b :| 0 <= a < b < |tx| && tx[a].lane == InputLane && IsCall(tx[b], key);
      assert rest[a - 1] == tx[a] && rest[b - 1] == tx[b];
    }
  }

  lemma LastInputIsBehind(rest: seq<Transfer>, f: Transfer, key: string)
    requires f.lane == InputLane && !HasInput(rest) && Waiting(rest + [f], key)
    ensures Waiting(rest, key) && !InputAhead(rest + [f], key)
  {
    var tx := rest + [f];
    var j :| 0 <= j < |tx| && IsCall(tx[j], key);
    assert rest[j] == tx[j];
    assert forall a :: 0 <= a < |rest| ==> tx[a] == rest[a];
  }

  lemma NoInputNoneAhead(tx: seq<Transfer>, key: string)
    requires !HasInput(tx)
    ensures !InputAhead(tx, key)
  {
  }

  /** A write lets no input overtake a waiting call: sending an input's frame uses up its place ahead. */
  lemma WriteServesCall(tx: seq<Transfer>, key: string, n: nat)
    requires Lanes(tx) && tx != [] && tx[0].frames != [] && 0 < n
    requires Waiting(Requeue(Advanced(tx[0], n), tx[1..]).0, key)
    ensures Waiting(tx, key)
    ensures InputsSent(T.CompletedFrame(tx[0], n)) + Ahead(Requeue(Advanced(tx[0], n), tx[1..]).0, key)
         <= Ahead(tx, key)
  {
    hide Waiting;
    hide InputAhead;
    var front, rest := Advanced(tx[0], n), tx[1..];
    var done := T.CompletedFrame(tx[0], n);
    assert done != [] ==> done[..0] == [];
    assert tx == [tx[0]] + rest;
    if tx[0].lane == InputLane {
      assert !HasInput(rest);
    }
    if front.frames == [] {
      WaitingBehind(tx[0], rest, key);
      if tx[0].lane == InputLane {
        NoInputNoneAhead(rest, key);
      }
    } else if front.offset == 0 {
      assert tx[0].lane == InputLane;
      LastInputIsBehind(rest, front, key);
      WaitingBehind(tx[0], rest, key);
    } else {
      StillWaiting(front, rest, key);
      WaitingBehind(tx[0], rest, key);
    }
  }

  lemma {:induction false} InputsSentConcat(a: seq<T.Sent>, b: seq<T.Sent>)
    ensures InputsSent(a + b) == InputsSent(a) + InputsSent(b)
  {
    if b == [] {
      assert a + b == a;
    } else {
      var n := |b| - 1;
      assert (a + b)[..|a + b| - 1] == a + b[..n];
      InputsSentConcat(a, b[..n]);
    }
  }

  lemma PushServesCall(tx: seq<Transfer>, t: Transfer, key: string)
    requires t.key != key && Waiting(tx + [t], key)
    ensures Waiting(tx, key) && Ahead(tx + [t], key) <= Ahead(tx, key)
  {
    var more := tx + [t];
    var j :| 0 <= j < |more| && IsCall(more[j], key);
    assert tx[j] == more[j];
    if InputAhead(more, key) {
      var a, b :| 0 <= a < b < |more| && more[a].lane == InputLane && IsCall(more[b], key);
      assert tx[a] == more[a] && tx[b] == more[b];
    }
  }

  lemma StepServesCall(l: T.Line, l': T.Line, q: QueueStep, key: string)
    requires Lanes(l.s.tx) && Steps(l, l', q) && key in l.given && Waiting(l'.s.tx, key)
    ensures key in l'.given && Waiting(l.s.tx, key)
    ensures InputsSent(l'.log) + Ahead(l'.s.tx, key) <= InputsSent(l.log) + Ahead(l.s.tx, key)
  {
    hide Waiting;
    hide InputAhead;
    hide Requeue;
    hide Advanced;
    hide T.CompletedFrame;
    hide InputsSent;
    hide Lanes;
    var tx := l.s.tx;
    match q {
      case Same =>
      case Pushed(t) => PushServesCall(tx, t, key);
      case Dropped =>
        WaitingBehind(tx[0], tx[1..], key);
        assert tx == [tx[0]] + tx[1..];
      case Wrote(n) =>
        WriteServesCall(tx, key, n);
        InputsSentConcat(l.log, T.CompletedFrame(tx[0], n));
    }
  }

  lemma {:induction false} RunKeepsLanes(calls: seq<Call>, env: Env)
    requires Runnable(calls, env)
    ensures Lanes(LineAfter(calls, env).s.tx)
  {
    hide T.Inv;
    hide Lanes;
    hide Apply;
    hide Steps;
    if calls == [] {
      NoLanes();
    } else {
      var n := |calls| - 1;
      var l := LineAfter(calls[..n], env);
      RunKeepsLine(calls[..n], env);
      RunKeepsLanes(calls[..n], env);
      if calls[n].AbortCall? {
        NoLanes();
      } else {
        var q := Classify(l, calls[n], env);
        StepKeepsLanes(l, T.Advance(l, calls[n], env), q);
      }
    }
  }

  /**
   Bounded wait: from the moment a call's frame is queued at position n of a run until it begins, at most one
   input frame is completed, and none at all unless an input was ahead of it.
   */
  lemma {:induction false} CallWaitsForOneInputFrame(calls: seq<Call>, n: nat, m: nat, env: Env, key: string)
    requires Runnable(calls, env) && n <= m <= |calls| && NoAbort(calls, n, m)
    requires key in LineAt(calls, n, env).given && Waiting(LineAt(calls, m, env).s.tx, key)
    ensures Waiting(LineAt(calls, n, env).s.tx, key) && key in LineAt(calls, m, env).given
    ensures var (before, after) := (LineAt(calls, n, env), LineAt(calls, m, env));
            InputsSent(after.log) + Ahead(after.s.tx, key) <= InputsSent(before.log) + Ahead(before.s.tx, key)
         <= InputsSent(before.log) + 1
    decreases m
  {
    hide Waiting;
    hide Ahead;
    hide Lanes;
    hide LineAt;
    hide T.Inv;
    hide T.Advance;
    hide Steps;
    hide InputsSent;
    if n == m {
      AheadIsBit(LineAt(calls, n, env).s.tx, key);
    } else {
      var l := LineAt(calls, m - 1, env);
      Following(calls, m - 1, env);
      LineInvAt(calls, m - 1, env);
      GivenStays(calls, n, m - 1, env, key);
      var q := Classify(l, calls[m - 1], env);
      StepServesCall(l, LineAt(calls, m, env), q, key);
      CallWaitsForOneInputFrame(calls, n, m - 1, env, key);
    }
  }

  lemma AheadIsBit(tx: seq<Transfer>, key: string)
    ensures Ahead(tx, key) <= 1
  {
  }

  /** A console frame of a session takes at most 550 bytes on the wire. */
  lemma ConsoleFrameLength(nonce: bv64, chunk: seq<bv8>)
    requires |chunk| <= CHUNK
    ensures |Wire(ConsoleFrame(nonce, chunk))| <= 550
  {
    StuffedLength(Body(ConsoleFrame(nonce, chunk)));
  }

  lemma {:induction false} StuffedLength(s: seq<bv8>)
    ensures |Stuff(s)| <= 2 * |s|
  {
    hide NeedsEscape;
    if s != [] {
      StuffedLength(s[..|s| - 1]);
    }
  }
}
