/**
 What the worker of src/server.rs does with what it reads: every output of a read is published once, in order and as it
 is, unless the monitor is being replaced; and when it lets go of a stream.
 */
module Publishing {
  import opened Device
  import opened Store
  import opened Admission
  import M = Mux
  import A = Application
  import D = Duplex
  import C = CallOutcomes
  import O = Outputs
  import R = DuplexRuns

  // ---------- one output ----------

  /** What an output becomes in the log, given the log lines its bytes complete. */
  predicate IsPublishedAs(output: A.Output, lines: seq<seq<bv8>>, bodies: seq<Body>) {
    match output
    case Console(data) =>
      && |bodies| == 1 + |lines| && bodies[0] == RawOutput(data)
      && forall i :: 0 <= i < |lines| ==> bodies[i + 1] == LogLine(lines[i])
    case Event(value) => bodies == [ApplicationEvent(value)]
    case CorruptFrame => bodies == [ProtocolError]
  }

  /** Publishing takes the next output: it is logged as it is, or dropped while the monitor is being replaced. */
  lemma PublishMeans(l: Local, d: string, lines: seq<seq<bv8>>) returns (bodies: seq<Body>)
    requires d in l.store.devices && d in l.store.logs && l.worker.held != []
    ensures var l' := Publish(l, d, lines);
            && l'.worker == l.worker.(held := l.worker.held[1..])
            && d in l'.store.devices && d in l'.store.logs && l'.store.devices == l.store.devices
            && (if l.store.devices[d].discardMonitorRead then l'.store == l.store
                else l'.store == l.store.(logs := l.store.logs[d := l.store.logs[d] + bodies])
                     && IsPublishedAs(l.worker.held[0], lines, bodies))
  {
    bodies := Bodies(ReadingOf(l.worker.held[0], lines));
  }

  // ---------- all outputs of a read ----------

  function Raw(body: Body): seq<bv8> {
    if body.RawOutput? then body.data else []
  }

  /** The console text in a log. */
  function RawText(log: seq<Body>): seq<bv8> {
    if log == [] then [] else RawText(log[..|log| - 1]) + Raw(log[|log| - 1])
  }

  lemma {:induction false} RawTextConcat(a: seq<Body>, b: seq<Body>)
    ensures RawText(a + b) == RawText(a) + RawText(b)
  {
    hide Raw;
    if b == [] {
      assert a + b == a;
    } else {
      var n := |b| - 1;
      assert (a + b)[..|a + b| - 1] == a + b[..n];
      RawTextConcat(a, b[..n]);
    }
  }

  lemma {:induction false} NoRawText(bodies: seq<Body>)
    requires forall i :: 0 <= i < |bodies| ==> !bodies[i].RawOutput?
    ensures RawText(bodies) == []
  {
    if bodies != [] {
      NoRawText(bodies[..|bodies| - 1]);
    }
  }

  lemma PublishedText(output: A.Output, lines: seq<seq<bv8>>, bodies: seq<Body>)
    requires IsPublishedAs(output, lines, bodies)
    ensures RawText(bodies) == O.OutputText(output)
  {
    if output.Console? {
      assert bodies == [bodies[0]] + bodies[1..];
      RawTextConcat([bodies[0]], bodies[1..]);
      assert forall i :: 0 <= i < |lines| ==> bodies[1..][i] == LogLine(lines[i]);
      NoRawText(bodies[1..]);
      assert [bodies[0]][..0] == [];
    } else {
      assert bodies[..0] == [];
    }
  }

  /** The worker after it has published everything it holds. */
  function PublishAll(l: Local, d: string, lines: seq<seq<seq<bv8>>>): Local
    requires d in l.store.devices && d in l.store.logs && |lines| == |l.worker.held|
    decreases |lines|
  {
    if lines == [] then l
    else
      var next := Publish(l, d, lines[0]);
      PublishAll(next, d, lines[1..])
  }

  lemma FirstText(outputs: seq<A.Output>)
    requires outputs != []
    ensures O.ConsoleText(outputs) == O.OutputText(outputs[0]) + O.ConsoleText(outputs[1..])
  {
    hide O.ConsoleText;
    hide O.OutputText;
    assert outputs == [outputs[0]] + outputs[1..];
    O.ConsoleTextConcat([outputs[0]], outputs[1..]);
    OneText(outputs[0]);
  }

  lemma OneText(output: A.Output)
    ensures O.ConsoleText([output]) == O.OutputText(output)
  {
    hide O.OutputText;
    var one := [output];
    assert one[..0] == [] && |one| - 1 == 0;
    assert O.ConsoleText(one[..0]) == [];
  }

  /** All console text a worker holds reaches the log, in order, and nothing else does. */
  lemma {:induction false} HeldIsPublished(l: Local, d: string, lines: seq<seq<seq<bv8>>>)
    requires d in l.store.devices && d in l.store.logs && |lines| == |l.worker.held|
    ensures var l' := PublishAll(l, d, lines);
            && l'.worker == l.worker.(held := []) && d in l'.store.logs
            && (if l.store.devices[d].discardMonitorRead then l'.store == l.store
                else RawText(l'.store.logs[d]) == RawText(l.store.logs[d]) + O.ConsoleText(l.worker.held))
    decreases |lines|
  {
    hide Publish;
    hide RawText;
    hide O.ConsoleText;
    if lines == [] {
      NothingHeld();
      assert RawText(l.store.logs[d]) + [] == RawText(l.store.logs[d]);
    } else {
      var bodies := PublishMeans(l, d, lines[0]);
      var next := Publish(l, d, lines[0]);
      HeldIsPublished(next, d, lines[1..]);
      if !l.store.devices[d].discardMonitorRead {
        PublishedText(l.worker.held[0], lines[0], bodies);
        RawTextConcat(l.store.logs[d], bodies);
        FirstText(l.worker.held);
      }
    }
  }

  lemma NothingHeld()
    ensures O.ConsoleText([]) == []
  {
  }

  // ---------- what a read leaves with the worker ----------

  /** Unframed bytes are held as they are; in a session, what the session reports is, whether the read fails or not. */
  lemma ReadIsHeld(w: Worker, call: R.Call, reason: string, env: R.Env)
    requires call.FeedCall? && w.reader.Some?
    ensures var w' := Read(w, call, reason, env);
            && w'.heldFrom == w.reader.value && w'.reader == w.reader && w'.queue == w.queue && w'.task == w.task
            && (if w.duplex.session.None? then
                  w'.held == [A.Console(call.bytes)] && w'.duplex == w.duplex && w'.transit == w.transit
                else
                  var (s, r) := D.FeedStep(w.duplex, call.bytes, call.before, call.after, env.parse);
                  && w'.held == r.outputs
                  && (if r.Fed? then w'.duplex == s && w'.transit == r.completions
                      else
                        && w'.duplex == D.EMPTY
                        && forall c :: c in w'.transit ==> c.result == D.Failed(D.Aborted(reason))))
  {
    hide D.FeedStep;
    if w.duplex.session.Some? {
      var s := D.FeedStep(w.duplex, call.bytes, call.before, call.after, env.parse).0;
      C.AbortReasons(s, reason);
    }
  }

  /** Without a session, the bytes of a read are published as they are, with the lines they complete. */
  lemma UnframedTextIsPublished(l: Local, d: string, call: R.Call, reason: string, env: R.Env, lines: seq<seq<bv8>>)
    requires d in l.store.devices && d in l.store.logs && !l.store.devices[d].discardMonitorRead
    requires call.FeedCall? && l.worker.reader.Some? && l.worker.duplex.session.None?
    ensures var l' := PublishAll(l.(worker := Read(l.worker, call, reason, env)), d, [lines]);
            d in l'.store.logs && RawText(l'.store.logs[d]) == RawText(l.store.logs[d]) + call.bytes
  {
    hide RawText;
    hide Publish;
    hide Read;
    ReadIsHeld(l.worker, call, reason, env);
    HeldIsPublished(l.(worker := Read(l.worker, call, reason, env)), d, [lines]);
    assert [A.Console(call.bytes)][..0] == [];
    hide PublishAll;
  }

  // ---------- when the stream is given up ----------

  /** A tick that fails ends everything that was pending, and the stream; one that succeeds keeps the stream. */
  lemma TickMeans(w: Worker, call: R.Call, reason: string)
    requires call.TickCall? && R.Allowed(w.duplex, call)
    ensures var (s, r) := D.TickStep(w.duplex, call.readings, call.outcome, call.now);
            var w' := Tick(w, call, reason);
            if r.Ticked? then w' == w.(duplex := s, transit := r.completions)
            else
              && w'.reader.None? && w'.duplex == D.EMPTY
              && (forall c :: c in w'.transit ==> c.result == D.Failed(D.Aborted(reason)))
              && w' == w.(reader := M.None, duplex := D.EMPTY, transit := w'.transit)
  {
    hide D.TickStep;
    C.AbortReasons(w.duplex, reason);
  }

  /**
   The monitor is only kept for a monitor operation in a session; for every other one the stream is closed, and a
   session that ends with it is announced.
   */
  lemma PrepareMeans(l: Local, d: string)
    requires d in l.store.logs && l.worker.task.Some? && l.worker.task.value.job.action.Hardware?
    ensures var (w, store, w') := (l.worker, Prepare(l, d).store, Prepare(l, d).worker);
            && store == l.store.(logs := store.logs)
            && store.logs == (if w'.duplex.session.None? && w.duplex.session.Some?
                              then l.store.logs[d := l.store.logs[d] + [Notice("application_disconnected")]]
                              else l.store.logs)
            && w'.task.Some? && w'.task.value.job == w.task.value.job
            && (if w.task.value.job.action.kind == Monitor && w.duplex.session.Some? then
                  w' == w.(task := w'.task) && w'.task.value.stage == KeptMonitor
                else
                  && w'.task.value.stage == ClosedMonitor && w'.reader.None? && w'.duplex.session.None?
                  && w'.closed == w.streams)
  {
  }

  /** Once the stream is lost, everything pending ends with that reason, and the session with it. */
  lemma LostStreamMeans(l: Local, d: string, reason: string, env: R.Env)
    requires d in l.store.devices && d in l.store.logs && Enabled(l.worker, AbortsLost(reason))
    ensures var (w, l') := (l.worker, Next(l, d, AbortsLost(reason), env));
            && l' == l.(worker := w.(duplex := D.EMPTY, transit := l'.worker.transit))
            && forall c :: c in l'.worker.transit ==> c.result == D.Failed(D.Aborted(reason))
  {
    C.AbortReasons(l.worker.duplex, reason);
  }

  /** A notice is logged, and together with its status it says what the device is doing; nothing else changes. */
  lemma NoticeMeans(l: Local, d: string, kind: string, status: M.Option<(Availability, Activity)>, env: R.Env)
    requires d in l.store.devices && d in l.store.logs
    ensures var l' := Next(l, d, Notices(kind, status), env);
            && l'.worker == l.worker && l'.occupied == l.occupied
            && l'.store.operations == l.store.operations && l'.store.idempotency == l.store.idempotency
            && l'.store.logs == l.store.logs[d := l.store.logs[d] + [Notice(kind)]]
            && l'.store.devices.Keys == l.store.devices.Keys
            && (forall e :: e in l.store.devices && (e != d || status.None?) ==>
                  l'.store.devices[e] == l.store.devices[e])
            && (status.Some? ==>
                  && l'.store.devices[d].availability == status.value.0
                  && l'.store.devices[d].activity == status.value.1
                  && l'.store.devices[d].busy == l.store.devices[d].busy)
  {
  }

  /** A job that cannot be started is completed with that failure, on its own lane. */
  lemma DeclineMeans(w: Worker, failure: D.Failure)
    requires w.task.Some?
    ensures var (job, w') := (w.task.value.job, Decline(w, failure));
            && w' == w.(task := M.None, transit := w'.transit) && |w'.transit| == 1
            && w'.transit[0].key == job.id && w'.transit[0].result == D.Failed(failure)
            && (w'.transit[0].lane == D.InputLane <==> job.action.SerialWrite?)
  {
  }
}
