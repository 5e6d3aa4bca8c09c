/**
 What the three tasks of idf_remote.c answer: every request of the session that comes in is answered or still with the
 device, a response only follows a handler that succeeded, and both queues are bounded.
 */
module DeviceAnswers {
  import opened Mux
  import opened Application
  import opened Duplex
  import opened DuplexRuns
  import opened SerialLine
  import opened Protocol
  import Json

  // ---------- one step ----------

  /** What the receiving task makes of a frame. */
  lemma ReceiveAnswers(w: World, f: Frame, text: seq<bv8>)
    ensures var w' := Receive(w, f, text);
            if f.kind == HELLO && f.request == 0 && f.payload == [] then
              && w'.device.session == f.session && w'.device.requests == w.device.requests
              && w'.produced == w.produced + {Frame(HELLO_ACK, f.session, 0, text)}
            else if f.kind == REQUEST && f.request != 0 && f.session == w.device.session then
              && w'.device.session == w.device.session
              && (if |w.device.requests| < 4
                  then w'.device.requests == w.device.requests + [f] && w'.produced == w.produced
                  else w'.device.requests == w.device.requests
                       && w'.produced == w.produced + {Frame(ERROR, f.session, f.request, text)})
            else w' == w
  {
  }

  /** What the command task makes of the next request. */
  lemma DispatchAnswers(w: World, wellFormed: bool, text: seq<bv8>)
    requires w.device.running.None? && w.device.requests != []
    ensures var (f, w') := (w.device.requests[0], Dispatch(w, wellFormed, text));
            && w'.device.requests == w.device.requests[1..]
            && (if f.session != w.device.session then
                  w'.handled == w.handled && w'.produced == w.produced && w'.device.running.None?
                else if wellFormed && Json.Scan(f.payload, false, 0) then
                  w'.handled == w.handled + [f] && w'.produced == w.produced && w'.device.running == Some(f)
                else
                  && w'.handled == w.handled && w'.device.running.None?
                  && w'.produced == w.produced + {Frame(ERROR, f.session, f.request, text)})
  {
    hide Json.Scan;
  }

  /** And of a handler that returns: a response if it succeeded with a text that fits into a frame, or else an error. */
  lemma FinishAnswers(w: World, ok: bool, text: seq<bv8>)
    requires w.device.running.Some?
    ensures var (f, w') := (w.device.running.value, Finish(w, ok, text));
            var kind := if ok && |text| <= 1024 then RESPONSE else ERROR;
            w'.device.running.None? && w'.produced == w.produced + {Frame(kind, f.session, f.request, text)}
  {
  }

  /** Only frames of the device's session are sent, and console text is framed exactly in a session. */
  lemma SendsItsSession(w: World, n: nat)
    requires w.device.control != [] && n <= |NextControl(w.device)|
    ensures NextControl(w.device) != [] ==>
              w.device.control[0].session == w.device.session && NextControl(w.device) == Wire(w.device.control[0])
    ensures Transmit(w, n).device.control == w.device.control[1..]
  {
    hide Wire;
    hide Carry;
    hide Arrived;
    hide TypedFrames;
  }

  // ---------- over runs ----------

  predicate QueuesFit(d: Device) {
    |d.requests| <= 4 && |d.control| <= 8
  }

  lemma StepKeepsFit(w: World, step: Step, env: Env)
    requires CanHappen(w, step) && QueuesFit(w.device)
    ensures QueuesFit(Next(w, step, env).device)
  {
    hide HostStep;
    hide Json.Scan;
    hide FeedItemsStep;
    hide NextControl;
    hide ConsoleBytes;
    hide Carry;
    hide Arrived;
    hide TypedFrames;
    match step {
      case HostCalls(c) => HostLeavesDevice(w, c, env);
      case _ =>
    }
  }

  lemma HostLeavesDevice(w: World, c: Call, env: Env)
    requires Allowed(w.host, c)
    ensures HostStep(w, c, env).device == w.device && HostStep(w, c, env).produced == w.produced
    ensures HostStep(w, c, env).handled == w.handled
  {
  }

  /** In every run, at most four requests and eight control frames are queued. */
  lemma {:induction false} QueuesAreBounded(steps: seq<Step>, env: Env)
    requires Possible(steps, env)
    ensures QueuesFit(WorldAfter(steps, env).device)
  {
    hide Next;
    hide CanHappen;
    hide TypesNoCopy;
    hide QueuesFit;
    if steps == [] {
      NothingQueuedAtFirst();
    } else {
      var n := |steps| - 1;
      QueuesAreBounded(steps[..n], env);
      StepKeepsFit(WorldAfter(steps[..n], env), steps[n], env);
    }
  }

  lemma NothingQueuedAtFirst()
    ensures QueuesFit(BOOTED)
  {
  }

  /** A step that answers with a response. */
  predicate Responds(w: World, step: Step, g: Frame) {
    && step.DeviceFinishes? && step.ok && step.text == g.payload && |g.payload| <= 1024
    && w.device.running.Some? && IdOf(w.device.running.value) == IdOf(g)
  }

  lemma StepResponds(w: World, step: Step, env: Env, g: Frame)
    requires CanHappen(w, step) && g in Next(w, step, env).produced && g.kind == RESPONSE
    ensures g in w.produced || Responds(w, step, g)
  {
    hide HostStep;
    hide Json.Scan;
    hide FeedItemsStep;
    hide NextControl;
    hide ConsoleBytes;
    hide Carry;
    hide Arrived;
    hide TypedFrames;
    match step {
      case HostCalls(c) => HostLeavesDevice(w, c, env);
      case _ =>
    }
  }

  /** In every run, a response is only produced for a request whose handler succeeded, with the text it returned. */
  lemma {:induction false} ResponseMeansSuccess(steps: seq<Step>, env: Env, g: Frame) returns (i: nat)
    requires Possible(steps, env) && g in WorldAfter(steps, env).produced && g.kind == RESPONSE
    ensures i < |steps| && Possible(steps[..i], env) && Responds(WorldAfter(steps[..i], env), steps[i], g)
  {
    hide Next;
    hide CanHappen;
    hide TypesNoCopy;
    hide Responds;
    var n := |steps| - 1;
    StepResponds(WorldAfter(steps[..n], env), steps[n], env, g);
    if g in WorldAfter(steps[..n], env).produced {
      i := ResponseMeansSuccess(steps[..n], env, g);
      assert steps[..n][..i] == steps[..i];
    } else {
      i := n;
    }
  }

  /** The device still has the request, or has answered it. */
  predicate Accounted(w: World, id: Id) {
    || (exists f :: f in w.device.requests && IdOf(f) == id)
    || (w.device.running.Some? && IdOf(w.device.running.value) == id)
    || (exists g :: g in w.produced && IdOf(g) == id && (g.kind == RESPONSE || g.kind == ERROR))
  }

  lemma DispatchAccounts(w: World, wellFormed: bool, text: seq<bv8>, id: Id)
    requires w.device.running.None? && w.device.requests != []
    requires Accounted(w, id) && id.session == w.device.session
    ensures Accounted(Dispatch(w, wellFormed, text), id)
  {
    hide Json.Scan;
    DispatchAnswers(w, wellFormed, text);
    var w' := Dispatch(w, wellFormed, text);
    var first := w.device.requests[0];
    if f :| f in w.device.requests && IdOf(f) == id {
      if first == f {
        assert w'.device.running == Some(f) || ErrorFrame(f, text) in w'.produced;
      } else {
        assert w.device.requests == [first] + w'.device.requests;
        assert f in w'.device.requests;
      }
    }
    assert forall g :: g in w.produced ==> g in w'.produced;
  }

  lemma FinishAccounts(w: World, ok: bool, text: seq<bv8>, id: Id)
    requires w.device.running.Some? && Accounted(w, id)
    ensures Accounted(Finish(w, ok, text), id)
  {
    FinishAnswers(w, ok, text);
    var w' := Finish(w, ok, text);
    var f := w.device.running.value;
    var kind := if ok && |text| <= 1024 then RESPONSE else ERROR;
    var answer := Frame(kind, f.session, f.request, text);
    assert answer in w'.produced && IdOf(answer) == IdOf(f);
    assert w'.device.requests == w.device.requests;
    assert forall g :: g in w.produced ==> g in w'.produced;
  }

  lemma ReceiveAccounts(w: World, i: nat, text: seq<bv8>, id: Id)
    requires i < |w.up| && Accounted(w, id)
    ensures Accounted(Receive(w.(up := Without(w.up, i)), w.up[i], text), id)
  {
    hide Without;
    var w1 := w.(up := Without(w.up, i));
    ReceiveAnswers(w1, w.up[i], text);
    var w' := Receive(w1, w.up[i], text);
    assert forall f :: f in w.device.requests ==> f in w'.device.requests;
    assert forall g :: g in w.produced ==> g in w'.produced;
    assert w'.device.running == w.device.running;
  }

  /** A request of the session stays accounted for: it is not dropped without an answer while the session lasts. */
  lemma StepAccounts(w: World, step: Step, env: Env, id: Id)
    requires CanHappen(w, step) && Accounted(w, id) && id.session == w.device.session && !step.DeviceResets?
    ensures Accounted(Next(w, step, env), id)
  {
    hide HostStep;
    hide Accounted;
    hide FeedItemsStep;
    hide NextControl;
    hide ConsoleBytes;
    hide Without;
    hide Receive;
    hide Dispatch;
    hide Finish;
    match step {
      case HostCalls(c) =>
        HostLeavesDevice(w, c, env);
        SameAccount(w, Next(w, step, env), id);
      case DeviceReceives(i, text) => ReceiveAccounts(w, i, text, id);
      case DeviceDispatches(wellFormed, text) => DispatchAccounts(w, wellFormed, text, id);
      case DeviceFinishes(ok, text) => FinishAccounts(w, ok, text, id);
      case DeviceTransmits(n) => TransmitQuiet(w, n); SameAccount(w, Next(w, step, env), id);
      case DevicePrints(text, n) => PrintQuiet(w, text, n); SameAccount(w, Next(w, step, env), id);
      case HostReceives(_, _, _) => SameAccount(w, Next(w, step, env), id);
      case FrameLost(_) => SameAccount(w, Next(w, step, env), id);
      case DevicePublishes(_) => SameAccount(w, Next(w, step, env), id);
      case _ =>
    }
  }

  lemma SameAccount(w: World, w': World, id: Id)
    requires w'.device.requests == w.device.requests && w'.device.running == w.device.running
    requires w'.produced == w.produced && Accounted(w, id)
    ensures Accounted(w', id)
  {
  }

  lemma TransmitQuiet(w: World, n: nat)
    requires w.device.control != [] && n <= |NextControl(w.device)|
    ensures var w' := Transmit(w, n);
            w'.device == w.device.(control := w.device.control[1..]) && w'.produced == w.produced
  {
    hide Carry;
    hide Arrived;
    hide TypedFrames;
    hide NextControl;
  }

  lemma PrintQuiet(w: World, text: seq<bv8>, n: nat)
    requires n <= |ConsoleBytes(w.device, text)|
    ensures var w' := PrintText(w, text, n); w'.device == w.device && w'.produced == w.produced
  {
    hide Carry;
    hide Arrived;
    hide TypedFrames;
    hide ConsoleBytes;
  }

  /** The device keeps its session, and does not reset, from step n of a run on. */
  predicate SessionLasts(steps: seq<Step>, n: nat, env: Env)
    requires Possible(steps, env)
    decreases |steps|
  {
    |steps| <= n ||
    var m := |steps| - 1;
    && SessionLasts(steps[..m], n, env) && !steps[m].DeviceResets?
    && WorldAfter(steps, env).device.session == WorldAfter(steps[..m], env).device.session
  }

  /** In every run: what the receiving task took in while a session lasts is still with the device, or answered. */
  lemma {:induction false} NoRequestIsForgotten(steps: seq<Step>, n: nat, env: Env, id: Id)
    requires Possible(steps, env) && n <= |steps| && SessionLasts(steps, n, env) && Possible(steps[..n], env)
    requires Accounted(WorldAfter(steps[..n], env), id) && id.session == WorldAfter(steps[..n], env).device.session
    ensures Accounted(WorldAfter(steps, env), id) && id.session == WorldAfter(steps, env).device.session
    decreases |steps|
  {
    hide Next;
    hide CanHappen;
    hide TypesNoCopy;
    hide Accounted;
    if n == |steps| {
      assert steps[..n] == steps;
    } else {
      var m := |steps| - 1;
      assert steps[..m][..n] == steps[..n];
      NoRequestIsForgotten(steps[..m], n, env, id);
      StepAccounts(WorldAfter(steps[..m], env), steps[m], env, id);
    }
  }

  /** A request that comes in, live or not, is accounted for at once. */
  lemma ReceivedIsAccounted(w: World, i: nat, text: seq<bv8>)
    requires i < |w.up| && w.up[i].kind == REQUEST && w.up[i].request != 0 && w.up[i].session == w.device.session
    ensures Accounted(Receive(w.(up := Without(w.up, i)), w.up[i], text), IdOf(w.up[i]))
  {
    hide Without;
    var w1 := w.(up := Without(w.up, i));
    ReceiveAnswers(w1, w.up[i], text);
    var w' := Receive(w1, w.up[i], text);
    if |w.device.requests| < 4 {
      assert w.up[i] in w'.device.requests;
    } else {
      assert Frame(ERROR, w.up[i].session, w.up[i].request, text) in w'.produced;
    }
  }
}
