/**
 What text typed outside a session can do to the guarantee of Protocol: a request that typed bytes complete is like
 any other to the device. If it is a copy, or was never submitted, the handler can be called with it.
 */
module TypedRequests {
  import opened Mux
  import MuxDecoder
  import opened Application
  import opened Duplex
  import opened DuplexRuns
  import opened SerialLine
  import opened Protocol
  import opened Witness
  import P = Progress
  import Json
  import T = Transmission

  // ---------- what can follow ----------

  predicate Follows(w: World, steps: seq<Step>, env: Env)
    decreases |steps|, 0
  {
    steps == [] ||
    var n := |steps| - 1;
    Follows(w, steps[..n], env) && CanHappen(After(w, steps[..n], env), steps[n])
  }

  function After(w: World, steps: seq<Step>, env: Env): World
    requires Follows(w, steps, env)
    decreases |steps|, 1
  {
    if steps == [] then w else Next(After(w, steps[..|steps| - 1], env), steps[|steps| - 1], env)
  }

  /** Steps of the device's two receiving tasks. */
  predicate DeviceOnly(steps: seq<Step>) {
    forall i :: 0 <= i < |steps| ==>
      steps[i].DeviceReceives? || steps[i].DeviceDispatches? || steps[i].DeviceFinishes?
  }

  /** The handler was called with a request that was not submitted so, or twice for one. */
  predicate Astray(w: World) {
    || (exists f :: f in w.handled && !Exact(f, w.submitted))
    || (exists i, j :: 0 <= i < j < |w.handled| && IdOf(w.handled[i]) == IdOf(w.handled[j]))
  }

  lemma {:induction false} FollowsConcat(w: World, a: seq<Step>, b: seq<Step>, env: Env)
    requires Follows(w, a, env) && Follows(After(w, a, env), b, env)
    ensures Follows(w, a + b, env) && After(w, a + b, env) == After(After(w, a, env), b, env)
    decreases |b|
  {
    hide Next;
    hide CanHappen;
    if b == [] {
      assert a + b == a;
    } else {
      var n := |b| - 1;
      assert (a + b)[..|a + b| - 1] == a + b[..n];
      FollowsConcat(w, a, b[..n], env);
    }
  }

  lemma FollowsOne(w: World, step: Step, env: Env)
    requires CanHappen(w, step)
    ensures Follows(w, [step], env) && After(w, [step], env) == Next(w, step, env)
  {
    hide Next;
    hide CanHappen;
    assert [step][..0] == [];
  }

  lemma NothingFollows(w: World, env: Env)
    ensures Follows(w, [], env) && After(w, [], env) == w
  {
  }

  // ---------- the device works off what it has ----------

  /** How often a request is with the device, or about to be. */
  function Count(w: World, id: Id): nat {
    (Ids(w.up) + Ids(w.device.requests) + Ids(w.handled))[id]
  }

  predicate Requests(d: Device) {
    forall f :: f in d.requests ==> f.kind == REQUEST && f.request != 0
  }

  /** The same session and the same submissions, and no request of the session lost or gained. */
  ghost predicate Keeps(w: World, w': World) {
    && w'.device.session == w.device.session && w'.submitted == w.submitted
    && Requests(w'.device)
    && forall id: Id :: id.session == w.device.session ==> Count(w', id) == Count(w, id)
  }

  predicate AtRest(d: Device) {
    d.running.None? && d.requests == []
  }

  lemma FinishOnce(w: World, env: Env)
    requires w.device.running.Some? && Requests(w.device)
    ensures CanHappen(w, DeviceFinishes(false, []))
    ensures var w' := Next(w, DeviceFinishes(false, []), env);
            Keeps(w, w') && w'.device.running.None? && w'.device.requests == w.device.requests && w'.up == w.up
  {
    hide Ids;
  }

  lemma DispatchCounts(f: Frame, rest: seq<Frame>, handled: seq<Frame>)
    ensures Ids([f] + rest) == RequestId(f) + Ids(rest) && Ids(handled + [f]) == Ids(handled) + RequestId(f)
  {
    hide Ids;
    hide RequestId;
    IdsConcat([f], rest);
    IdsConcat(handled, [f]);
    IdsOne(f);
  }

  /** The front request is handled if it is live and of the session. */
  lemma DispatchOnce(w: World, env: Env) returns (step: Step)
    requires w.device.running.None? && w.device.requests != [] && Requests(w.device)
    ensures step.DeviceDispatches? && CanHappen(w, step)
    ensures var w' := Next(w, step, env);
            Keeps(w, w') && w'.device.requests == w.device.requests[1..] && w'.up == w.up
  {
    hide Ids;
    hide Json.Scan;
    var f := w.device.requests[0];
    step := DeviceDispatches(f.payload != [], []);
    assert w.device.requests == [f] + w.device.requests[1..];
    DispatchCounts(f, w.device.requests[1..], w.handled);
  }

  lemma KeepsOn(w: World, w1: World, w2: World)
    requires Keeps(w, w1) && Keeps(w1, w2)
    ensures Keeps(w, w2)
  {
    hide Count;
  }

  lemma KeepsItself(w: World)
    requires Requests(w.device)
    ensures Keeps(w, w)
  {
  }

  lemma Before(w: World, step: Step, steps: seq<Step>, env: Env) returns (all: seq<Step>)
    requires CanHappen(w, step) && Follows(Next(w, step, env), steps, env)
    requires step.DeviceReceives? || step.DeviceDispatches? || step.DeviceFinishes?
    requires DeviceOnly(steps)
    ensures Follows(w, all, env) && After(w, all, env) == After(Next(w, step, env), steps, env) && DeviceOnly(all)
  {
    hide Next;
    hide CanHappen;
    hide Follows;
    hide After;
    all := [step] + steps;
    FollowsOne(w, step, env);
    FollowsConcat(w, [step], steps, env);
  }

  /** Whatever the device is doing, it can come to rest. */
  lemma {:induction false} Drains(w: World, env: Env) returns (steps: seq<Step>)
    requires Requests(w.device)
    ensures Follows(w, steps, env) && DeviceOnly(steps)
    ensures var v := After(w, steps, env); Keeps(w, v) && AtRest(v.device) && v.up == w.up
    decreases |w.device.requests|, if w.device.running.Some? then 1 else 0
  {
    hide Next;
    hide CanHappen;
    hide Keeps;
    hide Follows;
    hide After;
    if w.device.running.Some? {
      FinishOnce(w, env);
      var w1 := Next(w, DeviceFinishes(false, []), env);
      StillRequests(w, w1);
      steps := Drains(w1, env);
      KeepsOn(w, w1, After(w1, steps, env));
      steps := Before(w, DeviceFinishes(false, []), steps, env);
    } else if w.device.requests != [] {
      var step := DispatchOnce(w, env);
      var w1 := Next(w, step, env);
      StillRequests(w, w1);
      steps := Drains(w1, env);
      KeepsOn(w, w1, After(w1, steps, env));
      steps := Before(w, step, steps, env);
    } else {
      steps := [];
      NothingFollows(w, env);
      KeepsItself(w);
    }
  }

  lemma StillRequests(w: World, w': World)
    requires Keeps(w, w')
    ensures Requests(w'.device)
  {
  }

  /** A device at rest can take a live request of its session to the handler. */
  lemma ServeOne(w: World, i: nat, env: Env) returns (steps: seq<Step>)
    requires i < |w.up| && Live(w.up[i]) && w.up[i].session == w.device.session && AtRest(w.device)
    ensures Follows(w, steps, env) && DeviceOnly(steps)
    ensures var v := After(w, steps, env);
            Keeps(w, v) && AtRest(v.device) && v.up == Without(w.up, i) && v.handled == w.handled + [w.up[i]]
  {
    hide Json.Scan;
    hide Ids;
    hide Follows;
    hide After;
    hide Without;
    var f := w.up[i];
    var w1 := Next(w, DeviceReceives(i, []), env);
    assert w1.device.requests == [f] && [f][1..] == [];
    var w2 := Next(w1, DeviceDispatches(true, []), env);
    assert w2.device.requests == [];
    var w3 := Next(w2, DeviceFinishes(false, []), env);
    ServedCounts(w.up, i, w.handled);
    hide Next;
    hide CanHappen;
    NothingFollows(w3, env);
    steps := Before(w2, DeviceFinishes(false, []), [], env);
    steps := Before(w1, DeviceDispatches(true, []), steps, env);
    steps := Before(w, DeviceReceives(i, []), steps, env);
  }

  lemma ServedCounts(up: seq<Frame>, i: nat, handled: seq<Frame>)
    requires i < |up|
    ensures Ids(up) + Ids([]) + Ids(handled) == Ids(Without(up, i)) + Ids([]) + Ids(handled + [up[i]])
  {
    hide Ids;
    hide RequestId;
    hide Without;
    IdsWithout(up, i);
    IdsConcat(handled, [up[i]]);
    IdsOne(up[i]);
  }

  lemma LiveIndex(frames: seq<Frame>, id: Id) returns (i: nat)
    requires id in Ids(frames)
    ensures i < |frames| && Live(frames[i]) && IdOf(frames[i]) == id
  {
    hide Live;
    hide Ids;
    var f := IdsSource(frames, id);
    i :| 0 <= i < |frames| && frames[i] == f;
  }

  /** Until no copy of a request is left on the way. */
  lemma {:induction false} ServeAll(w: World, id: Id, env: Env) returns (steps: seq<Step>)
    requires AtRest(w.device) && id.session == w.device.session
    ensures Follows(w, steps, env) && DeviceOnly(steps)
    ensures var v := After(w, steps, env); Keeps(w, v) && AtRest(v.device) && id !in Ids(v.up)
    decreases Ids(w.up)[id]
  {
    hide Follows;
    hide After;
    hide Keeps;
    hide Without;
    hide Live;
    hide Ids;
    if id in Ids(w.up) {
      var i := LiveIndex(w.up, id);
      var first := ServeOne(w, i, env);
      var v := After(w, first, env);
      OneLess(w.up, i, id);
      StillRequests(w, v);
      SameSession(w, v);
      var rest := ServeAll(v, id, env);
      FollowsConcat(w, first, rest, env);
      steps := first + rest;
      KeepsOn(w, v, After(v, rest, env));
    } else {
      steps := [];
      NothingFollows(w, env);
      KeepsItself(w);
    }
  }

  lemma OneLess(up: seq<Frame>, i: nat, id: Id)
    requires i < |up| && Live(up[i]) && IdOf(up[i]) == id
    ensures Ids(Without(up, i))[id] < Ids(up)[id]
  {
    hide Ids;
    hide Live;
    hide Without;
    IdsWithout(up, i);
  }

  lemma SameSession(w: World, w': World)
    requires Keeps(w, w')
    ensures w'.device.session == w.device.session && w'.submitted == w.submitted
  {
  }

  lemma {:induction false} TwoCalls(frames: seq<Frame>, id: Id)
    requires Ids(frames)[id] >= 2
    ensures exists i, j :: 0 <= i < j < |frames| && IdOf(frames[i]) == IdOf(frames[j])
  {
    hide Live;
    var n := |frames| - 1;
    if Ids(frames[..n])[id] >= 2 {
      TwoCalls(frames[..n], id);
      var i, j :| 0 <= i < j < n && IdOf(frames[..n][i]) == IdOf(frames[..n][j]);
      assert IdOf(frames[i]) == IdOf(frames[j]);
    } else {
      var i := LiveIndex(frames[..n], id);
      assert IdOf(frames[i]) == IdOf(frames[n]);
    }
  }

  /** A request of the session that is there twice can reach the handler twice. */
  lemma CopyGoesAstray(w: World, id: Id, env: Env) returns (steps: seq<Step>)
    requires Requests(w.device) && id.session == w.device.session && Count(w, id) >= 2
    ensures Follows(w, steps, env) && DeviceOnly(steps) && Astray(After(w, steps, env))
  {
    hide Follows;
    hide After;
    hide Keeps;
    hide Ids;
    hide Astray;
    var first := Drains(w, env);
    var v := After(w, first, env);
    SameSession(w, v);
    var rest := ServeAll(v, id, env);
    FollowsConcat(w, first, rest, env);
    steps := first + rest;
    var u := After(v, rest, env);
    SameCount(w, v, id);
    SameCount(v, u, id);
    AllHandled(u, id);
  }

  lemma SameCount(w: World, w': World, id: Id)
    requires Keeps(w, w') && id.session == w.device.session
    ensures Count(w', id) == Count(w, id)
  {
    hide Count;
  }

  lemma AllHandled(w: World, id: Id)
    requires Count(w, id) >= 2 && w.device.requests == [] && id !in Ids(w.up)
    ensures Astray(w)
  {
    assert Ids(w.handled)[id] >= 2;
    TwoCalls(w.handled, id);
  }

  /** And one that was not submitted so can reach it, too. */
  lemma StrangerGoesAstray(w: World, f: Frame, env: Env) returns (steps: seq<Step>)
    requires Requests(w.device) && f in w.up && Live(f) && f.session == w.device.session && !Exact(f, w.submitted)
    ensures Follows(w, steps, env) && DeviceOnly(steps) && Astray(After(w, steps, env))
  {
    hide Follows;
    hide After;
    hide Keeps;
    hide Live;
    hide Without;
    var first := Drains(w, env);
    var v := After(w, first, env);
    SameSession(w, v);
    var i :| 0 <= i < |v.up| && v.up[i] == f;
    var rest := ServeOne(v, i, env);
    FollowsConcat(w, first, rest, env);
    steps := first + rest;
    SameSession(v, After(v, rest, env));
    assert f in After(v, rest, env).handled;
  }

  // ---------- the exact condition ----------

  /** What a write makes of the places of requests. */
  lemma TypedWrite(w: World, c: Call, env: Env)
    requires Inv(w) && c.TickCall? && Allowed(w.host, c) && TypedBy(w, c, env) != []
    ensures var w' := HostStep(w, c, env);
            && LineInv(w'.host.tx, w'.typing, w'.line) && Leftover(w'.host.tx, w'.typing, w'.line) == []
            && w' == w.(host := w'.host, line := w'.line, up := w'.up)
            && (forall f :: f in TypedBy(w, c, env) ==> f in w'.up)
            && (forall f :: f in QueuedFrames(w'.host.tx, w.typing) ==> f in QueuedFrames(w.host.tx, w.typing))
            && Places(w') == Others(w, Written(w.host, c, env)) + Ids(TypedBy(w, c, env))
  {
    hide LineInv;
    hide RequestsInv;
    hide FreshInv;
    hide PendingInv;
    hide DeviceInv;
    hide DownInv;
    hide Apply;
    hide Carry;
    hide Arrived;
    hide TypedBy;
    hide Places;
    hide Others;
    hide QueuedFrames;
    hide Leftover;
    hide KeptFrames;
    hide Ids;
    TickStartsNothing(w.host, c, env);
    TickFlows(w, c, env);
    var bytes := Written(w.host, c, env);
    FlowPlaces(w, HostStep(w, c, env), Arrived(w.line, bytes), bytes, TypedBy(w, c, env));
  }

  lemma TickStartsNothing(s: DuplexState, c: Call, env: Env)
    requires c.TickCall? && Allowed(s, c)
    ensures Apply(s, c, env).1.started == []
  {
    hide TickStep;
  }

  /** A typed request that the device could act on, and that is not the host's own, or not the only one. */
  predicate Breaks(w: World, c: Call, env: Env, f: Frame)
    requires Allowed(w.host, c)
  {
    && f in TypedBy(w, c, env) && Live(f)
    && (!Exact(f, w.submitted) || (Others(w, Written(w.host, c, env)) + Ids(TypedBy(w, c, env)))[IdOf(f)] >= 2)
  }

  lemma KeptIsLeft(w: World, bytes: seq<bv8>)
    ensures Others(w, bytes) <= Places(w)
  {
    hide Ids;
    hide Left;
    NoWireFrames();
  }

  /** If the condition on typed text does not hold, some typed request breaks it. */
  lemma SomeBreaks(w: World, c: Call, env: Env)
    requires Inv(w) && Allowed(w.host, c) && !TypesNoCopy(w, c, env)
    ensures exists f :: Breaks(w, c, env, f)
  {
    hide Apply;
    hide Ids;
    hide Live;
    hide Others;
    hide Places;
    hide TypedBy;
    hide LineInv;
    hide FreshInv;
    hide PendingInv;
    hide DeviceInv;
    hide DownInv;
    var typed, others := TypedBy(w, c, env), Others(w, Written(w.host, c, env));
    if !AllGenuine(typed, w.submitted) {
      var f :| f in typed && !Genuine(f, w.submitted);
      assert Breaks(w, c, env, f);
    } else {
      KeptIsLeft(w, Written(w.host, c, env));
      var id :| id in others + Ids(typed) && (others + Ids(typed))[id] != 1;
      assert others[id] <= Places(w)[id] <= 1;
      var f := IdsSource(typed, id);
      assert Breaks(w, c, env, f);
    }
  }

  lemma DeviceRequests(w: World)
    requires Inv(w)
    ensures Requests(w.device)
  {
    hide LineInv;
    hide FreshInv;
    hide PendingInv;
    hide DeviceInv;
    hide DownInv;
  }

  lemma InIds(frames: seq<Frame>, f: Frame)
    requires f in frames && Live(f)
    ensures IdOf(f) in Ids(frames)
  {
    hide Ids;
    hide Live;
    var i :| 0 <= i < |frames| && frames[i] == f;
    IdsWithout(frames, i);
  }

  /** Every place but the queue of the host is the device's, or on the way to it. */
  lemma CountIsPlaces(w: World, id: Id)
    requires Leftover(w.host.tx, w.typing, w.line) == []
    ensures Places(w)[id] == Count(w, id) + Ids(QueuedFrames(w.host.tx, w.typing))[id]
  {
    hide Ids;
    hide QueuedFrames;
    hide Leftover;
    NoWireFrames();
  }

  /** A typed request of the device's session that breaks the condition can do harm, whatever the device is doing. */
  lemma BreakingGoesAstray(w: World, c: Call, env: Env, f: Frame) returns (more: seq<Step>)
    requires Inv(w) && c.TickCall? && Allowed(w.host, c) && Breaks(w, c, env, f) && f.session == w.device.session
    requires IdOf(f) !in Ids(QueuedFrames(w.host.tx, w.typing))
    ensures var w' := HostStep(w, c, env);
            Follows(w', more, env) && DeviceOnly(more) && Astray(After(w', more, env))
  {
    hide Inv;
    hide HostStep;
    hide Follows;
    hide After;
    hide Astray;
    hide Live;
    hide Ids;
    hide Count;
    hide Others;
    hide TypedBy;
    hide Places;
    hide QueuedFrames;
    hide Leftover;
    hide LineInv;
    hide Apply;
    var w' := HostStep(w, c, env);
    TypedWrite(w, c, env);
    DeviceRequests(w);
    if !Exact(f, w.submitted) {
      more := StrangerGoesAstray(w', f, env);
    } else {
      if IdOf(f) in Ids(QueuedFrames(w'.host.tx, w.typing)) {
        var g := IdsSource(QueuedFrames(w'.host.tx, w.typing), IdOf(f));
        InIds(QueuedFrames(w.host.tx, w.typing), g);
      }
      CountIsPlaces(w', IdOf(f));
      more := CopyGoesAstray(w', IdOf(f), env);
    }
  }

  lemma {:induction false} DeviceStepsKeep(w: World, steps: seq<Step>, env: Env)
    requires Inv(w) && Follows(w, steps, env) && DeviceOnly(steps)
    ensures Inv(After(w, steps, env))
  {
    hide Inv;
    hide Next;
    hide CanHappen;
    if steps != [] {
      var n := |steps| - 1;
      DeviceStepsKeep(w, steps[..n], env);
      StepKeeps(After(w, steps[..n], env), steps[n], env);
    }
  }

  lemma NeverAstray(w: World)
    requires Inv(w)
    ensures !Astray(w)
  {
    hide Inv;
    hide Live;
    forall f | f in w.handled ensures Exact(f, w.submitted) {
      HandledIsSubmitted(w, f);
    }
    forall i, j | 0 <= i < j < |w.handled| ensures IdOf(w.handled[i]) != IdOf(w.handled[j]) {
      HandledOnce(w, i, j);
    }
  }

  /**
   At any point of any run, for a write whose typed requests are of the device's session and not queued at the host:
   the device can call the handler twice for one request, or with one that was not submitted, if and only if the
   condition on typed text does not hold of the write.
   */
  lemma TypedCopiesGoAstray(steps: seq<Step>, env: Env, c: Call)
    requires Possible(steps, env) && c.TickCall? && CanHappen(WorldAfter(steps, env), HostCalls(c))
    requires forall f :: f in TypedBy(WorldAfter(steps, env), c, env) && Live(f) ==>
               && f.session == WorldAfter(steps, env).device.session
               && IdOf(f) !in Ids(QueuedFrames(WorldAfter(steps, env).host.tx, WorldAfter(steps, env).typing))
    ensures var (w, w') := (WorldAfter(steps, env), HostStep(WorldAfter(steps, env), c, env));
            !TypesNoCopy(w, c, env) <==>
            exists more :: Follows(w', more, env) && DeviceOnly(more) && Astray(After(w', more, env))
  {
    hide Inv;
    hide WorldAfter;
    hide HostStep;
    hide Apply;
    hide Follows;
    hide After;
    hide Astray;
    hide Live;
    hide Ids;
    hide TypesNoCopy;
    hide TypedBy;
    hide QueuedFrames;
    hide DeviceOnly;
    var w := WorldAfter(steps, env);
    var w' := HostStep(w, c, env);
    RunKeeps(steps, env);
    if !TypesNoCopy(w, c, env) {
      SomeBreaks(w, c, env);
      var f :| Breaks(w, c, env, f);
      var more := BreakingGoesAstray(w, c, env, f);
    } else {
      TickKeeps(w, c, env);
      forall more | Follows(w', more, env) && DeviceOnly(more) ensures !Astray(After(w', more, env)) {
        DeviceStepsKeep(w', more, env);
        NeverAstray(After(w', more, env));
      }
    }
  }

  // ---------- copies that are still queued ----------

  predicate DeadlinesAhead(tx: seq<Transfer>) {
    forall i :: 0 <= i < |tx| ==> tx[i].deadline > 0
  }

  /** A tick at once, of which the driver takes everything offered. */
  function FullTick(s: DuplexState): Call {
    TickCall(seq(|s.tx|, i => 0),
             Accepted(if s.tx != [] && s.tx[0].frames != [] && s.tx[0].offset < |s.tx[0].frames[0]|
                      then |Offer(s.tx[0])| else 1), 0)
  }

  lemma FullTickLowers(s: DuplexState, env: Env)
    requires T.Shape(s.tx) && DeadlinesAhead(s.tx) && s.tx != []
    ensures Allowed(s, FullTick(s))
    ensures var s' := Apply(s, FullTick(s), env).0;
            0 <= P.Pending(s'.tx) < P.Pending(s.tx) && T.Shape(s'.tx) && DeadlinesAhead(s'.tx)
  {
    hide P.Pending;
    hide Requeue;
    hide Advanced;
    var c := FullTick(s);
    assert !Overdue(s.tx, c.readings);
    P.TickLowers(s, c.readings, c.outcome, c.now);
    if s.tx[0].frames == [] {
      T.RequeueEmpty(s.tx[0], s.tx[1..]);
      DropKeepsShape(s.tx);
    } else {
      T.WriteKeepsShape(s.tx, c.outcome.n);
      SameDeadlines(s.tx, c.outcome.n);
    }
    PendingIsNatural(Apply(s, c, env).0.tx);
  }

  lemma SameDeadlines(tx: seq<Transfer>, n: nat)
    requires DeadlinesAhead(tx) && tx != [] && tx[0].frames != []
    ensures DeadlinesAhead(Requeue(Advanced(tx[0], n), tx[1..]).0)
  {
  }

  lemma PendingIsNatural(tx: seq<Transfer>)
    requires T.Shape(tx)
    ensures P.Pending(tx) >= 0
  {
    P.ShapeUnsent(tx);
  }

  /** One more write brings what is queued closer to the device. */
  lemma FullTickMoves(w: World, env: Env) returns (w': World)
    requires LineInv(w.host.tx, w.typing, w.line) && Leftover(w.host.tx, w.typing, w.line) == []
    requires DeadlinesAhead(w.host.tx) && w.host.tx != []
    ensures CanHappen(w, HostCalls(FullTick(w.host))) && w' == Next(w, HostCalls(FullTick(w.host)), env)
    ensures w' == w.(host := w'.host, line := w'.line, up := w'.up)
    ensures LineInv(w'.host.tx, w.typing, w'.line) && Leftover(w'.host.tx, w.typing, w'.line) == []
    ensures DeadlinesAhead(w'.host.tx) && 0 <= P.Pending(w'.host.tx) < P.Pending(w.host.tx)
    ensures Ids(w.up) + Ids(QueuedFrames(w.host.tx, w.typing)) <= Ids(w'.up) + Ids(QueuedFrames(w'.host.tx, w.typing))
  {
    hide LineInv;
    hide Apply;
    hide Carry;
    hide Arrived;
    hide TypedBy;
    hide QueuedFrames;
    hide Leftover;
    hide KeptFrames;
    hide Ids;
    hide FullTick;
    hide DeadlinesAhead;
    hide P.Pending;
    var c := FullTick(w.host);
    LineShape(w.host.tx, w.typing, w.line);
    FullTickLowers(w.host, env);
    TickIsTick(w.host);
    w' := HostStep(w, c, env);
    TickStartsNothing(w.host, c, env);
    TickFlows(w, c, env);
    IdsConcat(w.up, Arrived(w.line, Written(w.host, c, env)));
    NoWireFrames();
    var bytes := Written(w.host, c, env);
    NothingKept(w.host.tx, w.typing, w.line, bytes);
    assert Leftover(w'.host.tx, w.typing, w'.line) == [];
    OnlyQueueAndTyped(w.host.tx, w.typing, w.line, w'.host.tx, w'.line, Arrived(w.line, bytes), TypedBy(w, c, env));
    MoreArrives(Ids(w.up), Ids(QueuedFrames(w.host.tx, w.typing)), Ids(QueuedFrames(w'.host.tx, w.typing)),
                Ids(Arrived(w.line, bytes)), Ids(TypedBy(w, c, env)));
  }

  lemma OnlyQueueAndTyped(tx: seq<Transfer>, typing: set<string>, line: Line, tx': seq<Transfer>, line': Line,
                          arrived: seq<Frame>, typed: seq<Frame>)
    requires Flows(tx, typing, line, tx', line', arrived, [], typed) && Leftover(tx', typing, line') == []
    ensures Ids(QueuedFrames(tx', typing)) + Ids(arrived) == Ids(QueuedFrames(tx, typing)) + Ids(typed)
  {
    hide Ids;
    hide QueuedFrames;
    hide Leftover;
    NoWireFrames();
    var none: multiset<Id> := multiset{};
    assert Ids(QueuedFrames(tx', typing)) + none + Ids(arrived) == Ids(QueuedFrames(tx, typing)) + none + Ids(typed);
    assert Ids(QueuedFrames(tx', typing)) + none == Ids(QueuedFrames(tx', typing));
    assert Ids(QueuedFrames(tx, typing)) + none == Ids(QueuedFrames(tx, typing));
  }

  lemma MoreArrives(up: multiset<Id>, q: multiset<Id>, q': multiset<Id>, arrived: multiset<Id>, typed: multiset<Id>)
    requires q' + arrived == q + typed
    ensures up + q <= up + arrived + q'
  {
    assert up + arrived + q' == up + (q + typed);
  }

  lemma TickIsTick(s: DuplexState)
    ensures FullTick(s).TickCall?
  {
  }

  lemma LineShape(tx: seq<Transfer>, typing: set<string>, line: Line)
    requires LineInv(tx, typing, line)
    ensures T.Shape(tx)
  {
  }

  lemma NothingKept(tx: seq<Transfer>, typing: set<string>, line: Line, bytes: seq<bv8>)
    requires Leftover(tx, typing, line) == []
    ensures KeptFrames(tx, typing, line, bytes) == []
  {
    hide Left;
  }

  /** Steps of the device's two receiving tasks, and ticks. */
  predicate TicksAndDevice(steps: seq<Step>) {
    forall i :: 0 <= i < |steps| ==>
      || (steps[i].HostCalls? && steps[i].call.TickCall?)
      || steps[i].DeviceReceives? || steps[i].DeviceDispatches? || steps[i].DeviceFinishes?
  }

  /** If the driver takes everything in time, all that is queued comes to the device. */
  lemma {:induction false} AllArrives(w: World, env: Env) returns (steps: seq<Step>)
    requires LineInv(w.host.tx, w.typing, w.line) && Leftover(w.host.tx, w.typing, w.line) == []
    requires DeadlinesAhead(w.host.tx)
    ensures Follows(w, steps, env) && TicksAndDevice(steps)
    ensures var v := After(w, steps, env);
            && v == w.(host := v.host, line := v.line, up := v.up)
            && Ids(w.up) + Ids(QueuedFrames(w.host.tx, w.typing)) <= Ids(v.up)
    decreases P.Pending(w.host.tx)
  {
    hide LineInv;
    hide Leftover;
    hide DeadlinesAhead;
    hide QueuedFrames;
    hide Ids;
    hide Follows;
    hide After;
    hide Next;
    hide CanHappen;
    hide P.Pending;
    if w.host.tx == [] {
      steps := [];
      NothingFollows(w, env);
      NothingQueued(w.typing);
    } else {
      var w' := FullTickMoves(w, env);
      var first := [HostCalls(FullTick(w.host))];
      FollowsOne(w, first[0], env);
      TickIsTick(w.host);
      var rest := AllArrives(w', env);
      FollowsConcat(w, first, rest, env);
      steps := first + rest;
    }
  }

  lemma NothingQueued(typing: set<string>)
    ensures Ids(QueuedFrames([], typing)) == multiset{}
  {
  }

  /** A copy of a request that is still queued at the host does the same harm once that is written. */
  lemma QueuedCopyGoesAstray(w: World, c: Call, env: Env, f: Frame) returns (more: seq<Step>)
    requires Inv(w) && c.TickCall? && Allowed(w.host, c) && Breaks(w, c, env, f) && f.session == w.device.session
    requires DeadlinesAhead(HostStep(w, c, env).host.tx)
    ensures var w' := HostStep(w, c, env);
            Follows(w', more, env) && TicksAndDevice(more) && Astray(After(w', more, env))
  {
    hide Inv;
    hide HostStep;
    hide Follows;
    hide After;
    hide Astray;
    hide Live;
    hide Ids;
    hide Others;
    hide TypedBy;
    hide Places;
    hide QueuedFrames;
    hide Leftover;
    hide LineInv;
    hide Apply;
    hide DeadlinesAhead;
    var w' := HostStep(w, c, env);
    TypedWrite(w, c, env);
    DeviceRequests(w);
    if !Exact(f, w.submitted) {
      more := StrangerGoesAstray(w', f, env);
    } else {
      CountIsPlaces(w', IdOf(f));
      var first := AllArrives(w', env);
      var v := After(w', first, env);
      var rest := CopyGoesAstray(v, IdOf(f), env);
      FollowsConcat(w', first, rest, env);
      more := first + rest;
    }
  }

  // ---------- a run in which a typed request is handled ----------

  /** The device calls the handler. */
  lemma Serves(w: World, env: Env)
    requires w.up == [Asked()] && w.device == Device(1, [], None, []) && Live(Asked())
    ensures CanHappen(w, DeviceReceives(0, []))
    ensures var w' := w.(up := [], device := Device(1, [Asked()], None, []));
            && Next(w, DeviceReceives(0, []), env) == w'
            && CanHappen(w', DeviceDispatches(true, []))
            && Next(w', DeviceDispatches(true, []), env)
            == w'.(device := Device(1, [], Some(Asked()), []), handled := w.handled + [Asked()])
  {
    hide Json.Scan;
    hide Json.Print;
    assert [Asked()][1..] == [];
  }

  lemma AskedIsLive()
    ensures Live(Asked())
  {
    hide Json.Scan;
    hide Json.Print;
    CommandText();
    assert Json.Payload(COMMAND, ENV.inRange) == Some(Asked().payload);
    Json.CommandsPassTheScan(COMMAND, ENV.inRange);
  }

  /** And answers. */
  lemma Answers(w: World)
    requires w.device == Device(1, [], Some(Asked()), [])
    ensures var step := DeviceFinishes(true, Json.Print(RESULT));
            && CanHappen(w, step)
            && Next(w, step, ENV)
            == w.(device := Device(1, [], None, [Answered()]), produced := w.produced + {Answered()})
  {
    AnswerFits();
    hide Json.Print;
  }

  /** The call completes with the answer. */
  lemma Completes(w: World)
    requires w.host == WAITING && Answered() in w.sent
    ensures var step := HostReceives([MuxDecoder.FrameItem(Answered())], 0, 0);
            && CanHappen(w, step)
            && Next(w, step, ENV) == w.(host := WAITING.(pending := None))
            && FeedItemsStep(w.host, step.items, 0, 0, ENV.parse).1
            == Fed([Completion("r", ApplicationLane, Done(RESULT))], [])
  {
    IdentityText();
    hide Json.Print;
    var items := [MuxDecoder.FrameItem(Answered())];
    assert items[..0] == [];
    assert Handle(items, 1, true, Some(Expected(RESPONSE, 1)), ENV.parse)
        == Progress([], Some(Answer(RESULT)), false, false);
  }

  /** One request from its start to its answer. */
  lemma FirstRequest() returns (steps: seq<Step>, w: World)
    ensures Possible(steps, ENV) && w == WorldAfter(steps, ENV)
    ensures w.line == Line(MuxDecoder.READY, false) && w.typing == {} && w.up == []
    ensures w.device == Device(1, [], None, []) && w.handled == [Asked()]
    ensures w.host == WAITING.(pending := None)
  {
    hide Wire;
    hide WorldAfter;
    hide Possible;
    hide CanHappen;
    hide TypesNoCopy;
    hide Next;
    hide Asked;
    hide FeedItemsStep;
    hide Json.Print;
    steps, w := Asking();
    AskedIsLive();
    Serves(w, ENV);
    steps, w := Go(steps, w, DeviceReceives(0, []));
    steps, w := Go(steps, w, DeviceDispatches(true, []));
    Answers(w);
    steps, w := Go(steps, w, DeviceFinishes(true, Json.Print(RESULT)));
    AnswerFits();
    DeviceSends(w, Answered());
    steps, w := Go(steps, w, DeviceTransmits(|Wire(Answered())|));
    Completes(w);
    steps, w := Go(steps, w, HostReceives([MuxDecoder.FrameItem(Answered())], 0, 0));
  }

  lemma AnswerFits()
    ensures Encodable(Answered())
  {
  }

  /** The host loses its session; then the text of the old frame is typed. */
  lemma Types(w: World)
    requires Inv(w) && w.typing == {} && |Wire(Asked())| <= 256
    ensures var (abort, input) := (AbortCall(""), Input("i", Wire(Asked()), 10, Json.Null));
            var w' := w.(host := EMPTY);
            && CanHappen(w, HostCalls(abort)) && TypesNoCopy(w, abort, ENV)
            && Next(w, HostCalls(abort), ENV) == w'
            && CanHappen(w', HostCalls(input)) && TypesNoCopy(w', input, ENV)
            && Next(w', HostCalls(input), ENV)
            == w'.(host := DuplexState(None, None, [Carrying("i", InputLane, Asked())]), typing := {"i"})
  {
    hide Wire;
    hide Carry;
    hide Arrived;
    hide TypedFrames;
    hide TypesNoCopy;
    hide Inv;
    hide Asked;
    T.WireNotEmpty(Asked());
    WritesNothing(w, AbortCall(""));
    AbortKeeps(w, AbortCall(""), ENV);
    WritesNothing(w.(host := EMPTY), Input("i", Wire(Asked()), 10, Json.Null));
  }

  /**
   A request is handled twice: after the host lost its session, the bytes of a frame the device handled before are
   typed while the device still holds that session.
   */
  lemma TypedRequestIsHandledTwice() returns (steps: seq<Step>, c: Call)
    ensures Possible(steps, ENV) && CanHappen(WorldAfter(steps, ENV), HostCalls(c))
    ensures !TypesNoCopy(WorldAfter(steps, ENV), c, ENV)
    ensures var w := HostStep(WorldAfter(steps, ENV), c, ENV);
            && CanHappen(w, DeviceReceives(0, []))
            && CanHappen(Next(w, DeviceReceives(0, []), ENV), DeviceDispatches(true, []))
            && Next(Next(w, DeviceReceives(0, []), ENV), DeviceDispatches(true, []), ENV).handled == [Asked(), Asked()]
  {
    hide Wire;
    hide WorldAfter;
    hide Possible;
    hide CanHappen;
    hide TypesNoCopy;
    hide Next;
    hide Asked;
    hide Apply;
    hide Carry;
    hide Arrived;
    hide Inv;
    var w;
    steps, w := FirstRequest();
    CommandText();
    AskedIsLive();
    RunKeeps(steps, ENV);
    Types(w);
    steps, w := Go(steps, w, HostCalls(AbortCall("")));
    steps, w := Go(steps, w, HostCalls(Input("i", Wire(Asked()), 10, Json.Null)));
    c := TickCall([0], Accepted(|Wire(Asked())|), 0);
    WholeWrite(w.host, "i", InputLane, Asked(), ENV);
    WholeArrives(w.line, Asked());
    TickCanHappen(w, c);
    Serves(HostStep(w, c, ENV), ENV);
    TypesCopy(w, c);
  }

  lemma TickCanHappen(w: World, c: Call)
    requires c.TickCall? && Allowed(w.host, c)
    ensures CanHappen(w, HostCalls(c))
  {
  }

  lemma TypesCopy(w: World, c: Call)
    requires c.TickCall? && Allowed(w.host, c) && Asked() in TypedBy(w, c, ENV) && w.handled == [Asked()]
    requires Live(Asked())
    ensures !TypesNoCopy(w, c, ENV)
  {
    hide Ids;
    hide TypedBy;
    hide Asked;
    hide Live;
    hide Apply;
    hide QueuedFrames;
    hide KeptFrames;
    InIds(TypedBy(w, c, ENV), Asked());
    IdsOne(Asked());
    var all := Others(w, Written(w.host, c, ENV)) + Ids(TypedBy(w, c, ENV));
    assert all[IdOf(Asked())] >= 2;
  }
}
