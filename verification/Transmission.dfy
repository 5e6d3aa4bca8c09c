/**
 What the driver of src/duplex.rs has accepted since the stream was last idle: whole frames, in each
 transfer's order, and a prefix of the front transfer's current frame.
 */
module Transmission {
  import opened Mux
  import opened MuxDecoder
  import opened Application
  import opened Duplex
  import opened DuplexRuns

  /** A frame that was written to its last byte. */
  datatype Sent = Sent(key: string, lane: Lane, frame: seq<bv8>)

  function Bytes(log: seq<Sent>): seq<bv8> {
    if log == [] then [] else Bytes(log[..|log| - 1]) + log[|log| - 1].frame
  }

  function SentBy(log: seq<Sent>, key: string): seq<seq<bv8>> {
    if log == [] then []
    else SentBy(log[..|log| - 1], key) + if log[|log| - 1].key == key then [log[|log| - 1].frame] else []
  }

  /** The accepted part of the front transfer's current frame. */
  function Partial(tx: seq<Transfer>): seq<bv8> {
    if tx != [] && tx[0].frames != [] && tx[0].offset <= |tx[0].frames[0]|
    then tx[0].frames[0][..tx[0].offset] else []
  }

  function FramesFor(t: Transfer, key: string): seq<seq<bv8>> {
    if t.key == key then t.frames else []
  }

  /** The queued frames of a key, the partly written one included. */
  function Remaining(tx: seq<Transfer>, key: string): seq<seq<bv8>> {
    if tx == [] then [] else Remaining(tx[..|tx| - 1], key) + FramesFor(tx[|tx| - 1], key)
  }

  /** Only the front transfer is inside a frame, and no frame is empty. */
  predicate Shape(tx: seq<Transfer>) {
    && (forall i, j :: 0 <= i < |tx| && 0 <= j < |tx[i].frames| ==> tx[i].frames[j] != [])
    && (forall i :: 0 < i < |tx| ==> tx[i].offset == 0)
    && (tx != [] && tx[0].frames == [] ==> tx[0].offset == 0)
    && (tx != [] && tx[0].frames != [] ==> tx[0].offset < |tx[0].frames[0]|)
  }

  predicate DistinctKeys(tx: seq<Transfer>) {
    forall i, j :: 0 <= i < j < |tx| ==> tx[i].key != tx[j].key
  }

  /** The frames each transfer was given are those already sent followed by those still queued. */
  predicate InOrder(tx: seq<Transfer>, given: map<string, seq<seq<bv8>>>, log: seq<Sent>) {
    && (forall i :: 0 <= i < |tx| ==> tx[i].key in given)
    && (forall i :: 0 <= i < |log| ==> log[i].key in given)
    && (forall key :: key in given ==> SentBy(log, key) + Remaining(tx, key) == given[key])
  }

  predicate LineInv(tx: seq<Transfer>, given: map<string, seq<seq<bv8>>>, log: seq<Sent>, accepted: seq<bv8>) {
    && Shape(tx)
    && DistinctKeys(tx)
    && InOrder(tx, given, log)
    && accepted == Bytes(log) + Partial(tx)
  }

  // ---------- one write ----------

  lemma SentByPush(log: seq<Sent>, s: Sent, key: string)
    ensures SentBy(log + [s], key) == SentBy(log, key) + if s.key == key then [s.frame] else []
  {
    assert (log + [s])[..|log + [s]| - 1] == log;
  }

  lemma BytesPush(log: seq<Sent>, s: Sent)
    ensures Bytes(log + [s]) == Bytes(log) + s.frame
  {
    assert (log + [s])[..|log + [s]| - 1] == log;
  }

  /** The frame that n more bytes complete, if any. */
  function CompletedFrame(t: Transfer, n: nat): seq<Sent> {
    if t.frames != [] && t.offset + n == |t.frames[0]| then [Sent(t.key, t.lane, t.frames[0])] else []
  }

  lemma {:induction false} RemainingConcat(a: seq<Transfer>, b: seq<Transfer>, key: string)
    ensures Remaining(a + b, key) == Remaining(a, key) + Remaining(b, key)
  {
    if b == [] {
      assert a + b == a;
    } else {
      var n := |b| - 1;
      assert (a + b)[..|a + b| - 1] == a + b[..n];
      RemainingConcat(a, b[..n], key);
    }
  }

  lemma RemainingOne(t: Transfer, key: string)
    ensures Remaining([t], key) == FramesFor(t, key)
  {
    assert [t][..0] == [];
  }

  lemma {:induction false} NotRemaining(tx: seq<Transfer>, key: string)
    requires forall i :: 0 <= i < |tx| ==> tx[i].key != key
    ensures Remaining(tx, key) == []
  {
    if tx != [] {
      NotRemaining(tx[..|tx| - 1], key);
    }
  }

  /** Requeueing moves transfers but loses none of their frames. */
  lemma RequeueRemaining(front: Transfer, rest: seq<Transfer>, key: string)
    requires forall i :: 0 <= i < |rest| ==> rest[i].key != front.key
    ensures Remaining(Requeue(front, rest).0, key) == FramesFor(front, key) + Remaining(rest, key)
  {
    RemainingConcat([front], rest, key);
    RemainingConcat(rest, [front], key);
    RemainingOne(front, key);
    if key == front.key {
      NotRemaining(rest, key);
    }
  }

  lemma WriteKeepsShape(tx: seq<Transfer>, n: nat)
    requires Shape(tx)
    requires tx != [] && tx[0].frames != [] && 0 < n <= |Offer(tx[0])|
    ensures Shape(Requeue(Advanced(tx[0], n), tx[1..]).0)
  {
    var front := Advanced(tx[0], n);
    assert forall j :: 0 <= j < |front.frames| ==> front.frames[j] in tx[0].frames;
  }

  lemma WriteKeepsKeys(tx: seq<Transfer>, n: nat)
    requires DistinctKeys(tx) && tx != [] && tx[0].frames != []
    ensures DistinctKeys(Requeue(Advanced(tx[0], n), tx[1..]).0)
  {
  }

  lemma SplitRemaining(tx: seq<Transfer>, key: string)
    requires tx != []
    ensures Remaining(tx, key) == FramesFor(tx[0], key) + Remaining(tx[1..], key)
  {
    hide Remaining;
    assert tx == [tx[0]] + tx[1..];
    RemainingConcat([tx[0]], tx[1..], key);
    RemainingOne(tx[0], key);
  }

  lemma PartialAtBoundary(tx: seq<Transfer>)
    requires tx != [] ==> tx[0].offset == 0
    ensures Partial(tx) == []
  {
  }

  /** The completed frame moves from the queue to the log. */
  lemma WriteMovesFrame(t: Transfer, log: seq<Sent>, n: nat, key: string)
    requires t.frames != []
    ensures SentBy(log + CompletedFrame(t, n), key) + FramesFor(Advanced(t, n), key)
         == SentBy(log, key) + FramesFor(t, key)
  {
    hide SentBy;
    var done := CompletedFrame(t, n);
    if done == [] {
      assert log + done == log;
    } else {
      SentByPush(log, done[0], key);
      assert [t.frames[0]] + t.frames[1..] == t.frames;
      Reassociate(SentBy(log, key), if t.key == key then [t.frames[0]] else [], FramesFor(Advanced(t, n), key));
    }
  }

  lemma Reassociate<T>(a: seq<T>, b: seq<T>, c: seq<T>)
    ensures (a + b) + c == a + (b + c)
  {
  }

  lemma WriteKeepsKey(tx: seq<Transfer>, log: seq<Sent>, n: nat, key: string)
    requires DistinctKeys(tx) && tx != [] && tx[0].frames != []
    ensures SentBy(log + CompletedFrame(tx[0], n), key) + Remaining(Requeue(Advanced(tx[0], n), tx[1..]).0, key)
         == SentBy(log, key) + Remaining(tx, key)
  {
    hide SentBy;
    hide Remaining;
    hide Requeue;
    hide CompletedFrame;
    var front, rest := Advanced(tx[0], n), tx[1..];
    RequeueRemaining(front, rest, key);
    SplitRemaining(tx, key);
    WriteMovesFrame(tx[0], log, n, key);
    Reassociate(SentBy(log + CompletedFrame(tx[0], n), key), FramesFor(front, key), Remaining(rest, key));
    Reassociate(SentBy(log, key), FramesFor(tx[0], key), Remaining(rest, key));
  }

  lemma WriteKeepsOrder(tx: seq<Transfer>, given: map<string, seq<seq<bv8>>>, log: seq<Sent>, n: nat)
    requires DistinctKeys(tx) && InOrder(tx, given, log) && tx != [] && tx[0].frames != []
    ensures InOrder(Requeue(Advanced(tx[0], n), tx[1..]).0, given, log + CompletedFrame(tx[0], n))
  {
    hide SentBy;
    hide Remaining;
    forall key | key in given
      ensures SentBy(log + CompletedFrame(tx[0], n), key)
              + Remaining(Requeue(Advanced(tx[0], n), tx[1..]).0, key) == given[key]
    {
      WriteKeepsKey(tx, log, n, key);
    }
  }

  lemma Slices<T>(s: seq<T>, from: nat, to: nat, n: nat)
    requires from <= to <= |s| && n <= to - from
    ensures s[..from] + s[from..to][..n] == s[..from + n]
  {
  }

  lemma WriteKeepsBytes(tx: seq<Transfer>, log: seq<Sent>, accepted: seq<bv8>, n: nat)
    requires Shape(tx) && accepted == Bytes(log) + Partial(tx)
    requires tx != [] && tx[0].frames != [] && 0 < n <= |Offer(tx[0])|
    ensures accepted + Offer(tx[0])[..n]
         == Bytes(log + CompletedFrame(tx[0], n)) + Partial(Requeue(Advanced(tx[0], n), tx[1..]).0)
  {
    hide Bytes;
    var t := tx[0];
    var frame := t.frames[0];
    var before := Bytes(log);
    assert Partial(tx) == frame[..t.offset];
    Slices(frame, t.offset, t.offset + |Offer(t)|, n);
    Reassociate(before, frame[..t.offset], Offer(t)[..n]);
    if t.offset + n == |frame| {
      assert frame[..t.offset + n] == frame;
      BytesPush(log, Sent(t.key, t.lane, frame));
      PartialAtBoundary(Requeue(Advanced(t, n), tx[1..]).0);
      assert (before + frame) + [] == before + frame;
    } else {
      assert log + CompletedFrame(t, n) == log;
      assert Requeue(Advanced(t, n), tx[1..]).0[0] == Advanced(t, n);
    }
  }

  /** One successful write keeps the whole picture. */
  lemma WriteKeepsLine(tx: seq<Transfer>, given: map<string, seq<seq<bv8>>>, log: seq<Sent>, accepted: seq<bv8>, n: nat)
    requires LineInv(tx, given, log, accepted)
    requires tx != [] && tx[0].frames != [] && 0 < n <= |Offer(tx[0])|
    ensures LineInv(Requeue(Advanced(tx[0], n), tx[1..]).0, given, log + CompletedFrame(tx[0], n),
                    accepted + Offer(tx[0])[..n])
  {
    hide InOrder;
    hide Requeue;
    hide Advanced;
    WriteKeepsShape(tx, n);
    WriteKeepsKeys(tx, n);
    WriteKeepsOrder(tx, given, log, n);
    WriteKeepsBytes(tx, log, accepted, n);
  }

  /** A transfer without frames just leaves. */
  lemma DropKeepsLine(tx: seq<Transfer>, given: map<string, seq<seq<bv8>>>, log: seq<Sent>, accepted: seq<bv8>)
    requires LineInv(tx, given, log, accepted) && tx != [] && tx[0].frames == []
    ensures LineInv(tx[1..], given, log, accepted)
  {
    hide SentBy;
    hide Remaining;
    hide Bytes;
    var rest := tx[1..];
    forall key | key in given ensures SentBy(log, key) + Remaining(rest, key) == given[key] {
      SplitRemaining(tx, key);
    }
    PartialAtBoundary(tx);
    PartialAtBoundary(rest);
  }

  lemma PushKeepsOrder(tx: seq<Transfer>, given: map<string, seq<seq<bv8>>>, log: seq<Sent>, t: Transfer)
    requires InOrder(tx, given, log) && t.key !in given
    ensures InOrder(tx + [t], given[t.key := t.frames], log)
  {
    hide SentBy;
    hide Remaining;
    forall key | key in given[t.key := t.frames]
      ensures SentBy(log, key) + Remaining(tx + [t], key) == given[t.key := t.frames][key]
    {
      RemainingConcat(tx, [t], key);
      RemainingOne(t, key);
      if key == t.key {
        NotRemaining(tx, key);
        NotSent(log, key);
      } else {
        assert Remaining(tx, key) + [] == Remaining(tx, key);
      }
    }
  }

  /** A new transfer waits behind the others. */
  lemma PushKeepsLine(tx: seq<Transfer>, given: map<string, seq<seq<bv8>>>, log: seq<Sent>, accepted: seq<bv8>,
                      t: Transfer)
    requires LineInv(tx, given, log, accepted)
    requires t.key !in given && t.offset == 0 && forall j :: 0 <= j < |t.frames| ==> t.frames[j] != []
    ensures LineInv(tx + [t], given[t.key := t.frames], log, accepted)
  {
    hide SentBy;
    hide Remaining;
    hide Bytes;
    PushKeepsOrder(tx, given, log, t);
    if tx == [] {
      PartialAtBoundary(tx);
      PartialAtBoundary(tx + [t]);
    } else {
      assert (tx + [t])[0] == tx[0];
    }
  }

  lemma {:induction false} NotSent(log: seq<Sent>, key: string)
    requires forall i :: 0 <= i < |log| ==> log[i].key != key
    ensures SentBy(log, key) == []
  {
    if log != [] {
      NotSent(log[..|log| - 1], key);
    }
  }

  // ---------- runs between aborts ----------

  /** The scheduler together with what was given to it and what the driver took since the last abort. */
  datatype Line = Line(s: DuplexState, given: map<string, seq<seq<bv8>>>, log: seq<Sent>, accepted: seq<bv8>)

  const IDLE := Line(EMPTY, map[], [], [])

  predicate Fresh(l: Line, c: Call) {
    match c
    case Request(key, _, _) => key !in l.given
    case Connect(key, _, _) => key !in l.given
    case Input(key, _, _, _) => key !in l.given
    case _ => true
  }

  function CallCompletes(s: DuplexState, c: Call): seq<Sent>
    requires Allowed(s, c)
  {
    if c.TickCall? && TickStep(s, c.readings, c.outcome, c.now).1.Ticked? && s.tx != [] && s.tx[0].frames != []
       && c.outcome.Accepted?
    then CompletedFrame(s.tx[0], c.outcome.n)
    else []
  }

  /** The last transfer, under its key. */
  function Given(tx: seq<Transfer>, given: map<string, seq<seq<bv8>>>): map<string, seq<seq<bv8>>> {
    if tx == [] then given else given[tx[|tx| - 1].key := tx[|tx| - 1].frames]
  }

  function Advance(l: Line, c: Call, env: Env): Line
    requires Allowed(l.s, c)
  {
    var (s', e) := Apply(l.s, c, env);
    if c.AbortCall? then IDLE
    else Line(s', if e.started != [] then Given(s'.tx, l.given) else l.given,
              l.log + CallCompletes(l.s, c), l.accepted + e.written)
  }

  predicate Inv(l: Line) {
    LineInv(l.s.tx, l.given, l.log, l.accepted)
  }

  lemma WireNotEmpty(f: Frame)
    ensures Wire(f) != []
  {
    hide Body;
  }

  lemma ConsoleWiresNotEmpty(nonce: bv64, chunks: seq<seq<bv8>>)
    ensures forall i :: 0 <= i < |ConsoleWires(nonce, chunks)| ==> ConsoleWires(nonce, chunks)[i] != []
  {
    hide Wire;
    forall i | 0 <= i < |chunks| ensures ConsoleWires(nonce, chunks)[i] != [] {
      WireNotEmpty(ConsoleFrame(nonce, chunks[i]));
    }
  }

  lemma StartKeepsLine(l: Line, c: Call, env: Env)
    requires Inv(l) && Fresh(l, c) && (c.Request? || c.Connect? || c.Input?)
    ensures Inv(Advance(l, c, env))
  {
    hide LineInv;
    hide Wire;
    hide Chunks;
    hide ConsoleWires;
    hide Encodable;
    hide PreparedRequest;
    assert l.log + [] == l.log && l.accepted + [] == l.accepted;
    var (s', e) := Apply(l.s, c, env);
    if e.started != [] {
      var t := s'.tx[|s'.tx| - 1];
      assert s'.tx == l.s.tx + [t];
      assert t.offset == 0 && t.key !in l.given;
      assert forall j :: 0 <= j < |t.frames| ==> t.frames[j] != [] by {
        match c {
          case Request(key, command, deadline) =>
            WireNotEmpty(PreparedRequest(l.s.session.value, command, env.inRange).1.frame);
          case Connect(key, deadline, nonce) =>
            WireNotEmpty(HelloFrame(nonce));
          case Input(key, data, deadline, result) =>
            if l.s.session.Some? {
              ConsoleWiresNotEmpty(l.s.session.value.nonce, Chunks(data));
            }
          case _ =>
        }
      }
      PushKeepsLine(l.s.tx, l.given, l.log, l.accepted, t);
    }
  }

  lemma TickKeepsLine(l: Line, c: Call, env: Env)
    requires Inv(l) && Allowed(l.s, c) && c.TickCall?
    ensures Inv(Advance(l, c, env))
  {
    hide LineInv;
    hide Requeue;
    hide Advanced;
    hide Offer;
    hide CompletedFrame;
    assert l.log + [] == l.log && l.accepted + [] == l.accepted;
    var r := TickStep(l.s, c.readings, c.outcome, c.now).1;
    if r.Ticked? && l.s.tx != [] {
      ShapeOf(l);
      if l.s.tx[0].frames == [] {
        DropKeepsLine(l.s.tx, l.given, l.log, l.accepted);
        RequeueEmpty(l.s.tx[0], l.s.tx[1..]);
      } else if c.outcome.Accepted? {
        WriteKeepsLine(l.s.tx, l.given, l.log, l.accepted, c.outcome.n);
      }
    }
  }

  lemma RequeueEmpty(front: Transfer, rest: seq<Transfer>)
    requires front.frames == []
    ensures Requeue(front, rest).0 == rest
  {
  }

  lemma ShapeOf(l: Line)
    requires Inv(l)
    ensures Shape(l.s.tx)
  {
  }

  lemma FeedKeepsQueue(s: DuplexState, c: Call, env: Env)
    requires c.FeedCall?
    ensures Apply(s, c, env).0.tx == s.tx
  {
    hide ProcessItems;
    hide Run;
    hide Items;
  }

  /** Every call keeps the picture; an abort starts a new one. */
  lemma CallKeepsLine(l: Line, c: Call, env: Env)
    requires Inv(l) && Allowed(l.s, c) && Fresh(l, c)
    ensures Inv(Advance(l, c, env))
  {
    hide LineInv;
    hide FeedStep;
    match c {
      case Request(_, _, _) => StartKeepsLine(l, c, env);
      case Connect(_, _, _) => StartKeepsLine(l, c, env);
      case Input(_, _, _, _) => StartKeepsLine(l, c, env);
      case TickCall(_, _, _) => TickKeepsLine(l, c, env);
      case FeedCall(_, _, _) =>
        FeedKeepsQueue(l.s, c, env);
        assert l.log + [] == l.log && l.accepted + [] == l.accepted;
      case AbortCall(_) => IdleLine();
    }
  }

  lemma IdleLine()
    ensures Inv(IDLE)
  {
  }
}
