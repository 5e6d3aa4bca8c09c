/**
 Whole runs of the service of src/server.rs, with any number of devices and any interleaving of their steps.
 */
module ServiceRuns {
  import opened Device
  import opened Store
  import opened Admission
  import opened AdmissionRuns
  import M = Mux
  import D = Duplex
  import R = DuplexRuns
  import H = History

  datatype Move = Steps(d: string, step: Step) | Adds(d: string, availability: Availability)

  predicate SameDevices(w: World) {
    w.store.logs.Keys == w.store.devices.Keys == w.workers.Keys == w.occupied.Keys == w.notes.Keys
  }

  function At(w: World, d: string): Local
    requires SameDevices(w) && d in w.workers
  {
    Local(w.store, w.workers[d], w.occupied[d], w.notes[d])
  }

  function Put(w: World, d: string, l: Local): World {
    World(l.store, w.workers[d := l.worker], w.occupied[d := l.occupied], w.notes[d := l.notes])
  }

  predicate Can(w: World, m: Move) {
    match m
    case Steps(d, step) => d in w.workers && Enabled(w.workers[d], step)
    case Adds(d, _) => d !in w.workers
  }

  predicate Devices(w: World)
    requires SameDevices(w)
  {
    forall d :: d in w.workers ==> DeviceInv(At(w, d), d)
  }

  predicate Inv(w: World) {
    && SameDevices(w)
    && H.Consistent(w.store)
    && Devices(w)
    && |w.store.operations| <= HISTORY - 1 + 2 * |w.workers|
  }

  function Start(epoch: string): World {
    World(StoreState(epoch, map[], map[], [], map[], map[]), map[], map[], map[])
  }

  /** Every lookup under the lock finds its operation. */
  lemma LookupsSucceed(l: Local, d: string, step: Step)
    requires LocalInv(l, d) && Enabled(l.worker, step)
    ensures Findable(l, step)
  {
    hide DeviceInv;
    hide H.Consistent;
    match step {
      case Submits(_, key, fingerprint) => H.ReplayFindsOperation(l.store, key, fingerprint);
      case Completes(outcome) => HardwareOccupies(l, d);
      case Finishes => TransitIsRetained(l, d);
      case _ =>
    }
  }

  lemma StepKeeps(l: Local, d: string, step: Step, env: R.Env)
    requires LocalInv(l, d) && d in l.store.devices && d in l.store.logs && Enabled(l.worker, step) && Findable(l, step)
    ensures var l' := Next(l, d, step, env);
            LocalInv(l', d) && Untouched(l.store, l'.store, d) && Growth(l.store, l'.store)
  {
    hide LocalInv;
    hide Untouched;
    hide Enabled;
    hide Finished;
    SameFrame(l.store, d);
    match step {
      case Submits(action, key, fingerprint) => SubmitStep(l, d, action, key, fingerprint);
      case Prepares => PrepareStep(l, d, env); PrepareGrowth(l, d);
      case OpensMonitor => OpenStep(l, d, env); OpenStore(l, d, env);
      case Completes(outcome) => CompleteStep(l, d, outcome);
      case Declines(_, _) => StartSteps(l, d, step, env);
      case Starts(_, _, _) => StartSteps(l, d, step, env);
      case Publishes(lines) => HoldsSome(l, lines); PublishStep(l, d, lines);
      case Finishes => FinishKeeps(l, d);
      case Notices(kind, status) => NoticeSteps(l, d, kind, status, env);
      case Refreshes(availability) => RefreshSteps(l, d, availability, env);
      case _ => WorkerSteps(l, d, step, env);
    }
  }

  lemma HoldsSome(l: Local, lines: seq<seq<bv8>>)
    requires Enabled(l.worker, Publishes(lines))
    ensures l.worker.held != []
  {
  }

  lemma PrepareGrowth(l: Local, d: string)
    requires d in l.store.logs && Enabled(l.worker, Prepares)
    ensures Prepare(l, d).store.operations == l.store.operations
  {
  }

  lemma OpenStore(l: Local, d: string, env: R.Env)
    requires d in l.store.devices && d in l.store.logs && Enabled(l.worker, OpensMonitor)
    ensures Next(l, d, OpensMonitor, env).store == l.store
  {
  }

  // ---------- many devices ----------

  /** What an untouched device keeps of the store. */
  lemma UntouchedAt(s: StoreState, s': StoreState, d: string, e: string)
    requires Untouched(s, s', d) && e != d && e in s.logs && e in s.devices
    ensures e in s'.logs && e in s'.devices && s'.epoch == s.epoch
    ensures s'.logs[e] == s.logs[e] && s'.devices[e] == s.devices[e]
    ensures RunningIds(s'.operations, e) == RunningIds(s.operations, e)
  {
    hide RunningIds;
    assert e in s'.logs.Keys && e in s'.devices.Keys;
  }

  lemma SameStoreDevice(l: Local, l': Local, e: string)
    requires e in l.store.devices && e in l.store.logs && e in l'.store.devices && e in l'.store.logs && DeviceInv(l, e)
    requires l'.store.epoch == l.store.epoch
    requires l'.store.logs[e] == l.store.logs[e] && l'.store.devices[e] == l.store.devices[e]
    requires RunningIds(l'.store.operations, e) == RunningIds(l.store.operations, e)
    requires l'.worker == l.worker && l'.occupied == l.occupied && l'.notes == l.notes
    ensures DeviceInv(l', e)
  {
    hide Jobs;
    hide Boundary;
    hide Telling;
    hide Replacing;
    hide RunningIds;
    hide Describes;
    hide Streams;
    hide IdsOf;
  }

  /** A device that was not touched is as it was. */
  lemma OtherDevice(w: World, d: string, l: Local, e: string)
    requires SameDevices(w) && d in w.workers && e in w.workers && e != d
    requires DeviceInv(At(w, e), e) && Untouched(w.store, l.store, d) && SameDevices(Put(w, d, l))
    ensures DeviceInv(At(Put(w, d, l), e), e)
  {
    hide DeviceInv;
    hide RunningIds;
    UntouchedAt(w.store, l.store, d, e);
    hide Untouched;
    SameStoreDevice(At(w, e), At(Put(w, d, l), e), e);
  }

  lemma PutSameDevices(w: World, d: string, l: Local)
    requires SameDevices(w) && d in w.workers && Untouched(w.store, l.store, d)
    ensures SameDevices(Put(w, d, l)) && Put(w, d, l).workers.Keys == w.workers.Keys
  {
    hide RunningIds;
  }

  lemma DevicesKept(w: World, d: string, l: Local)
    requires SameDevices(w) && Devices(w) && d in w.workers && LocalInv(l, d) && Untouched(w.store, l.store, d)
    ensures SameDevices(Put(w, d, l)) && Devices(Put(w, d, l))
  {
    hide DeviceInv;
    hide LocalInv;
    hide Untouched;
    PutSameDevices(w, d, l);
    var w' := Put(w, d, l);
    forall e | e in w'.workers ensures DeviceInv(At(w', e), e) {
      if e == d {
        SameLocal(w', d, l);
      } else {
        OtherDevice(w, d, l, e);
      }
    }
  }

  lemma PutKeeps(w: World, d: string, l: Local)
    requires Inv(w) && d in w.workers && LocalInv(l, d)
    requires Untouched(w.store, l.store, d) && Growth(w.store, l.store)
    ensures Inv(Put(w, d, l))
  {
    hide DeviceInv;
    hide H.Consistent;
    hide Finished;
    hide Untouched;
    hide Devices;
    DevicesKept(w, d, l);
    var w' := Put(w, d, l);
    assert w'.workers.Keys == w.workers.Keys;
    SameSize(w'.workers, w.workers);
    if |l.store.operations| > |w.store.operations| {
      RunningIsBounded(w');
    }
  }

  lemma SameSize<V>(a: map<string, V>, b: map<string, V>)
    requires a.Keys == b.Keys
    ensures |a| == |b|
  {
    assert |a| == |a.Keys| && |b| == |b.Keys|;
  }

  lemma SameLocal(w: World, d: string, l: Local)
    requires SameDevices(w) && d in w.workers && At(w, d) == l && LocalInv(l, d)
    ensures DeviceInv(At(w, d), d)
  {
  }

  function RunningSet(ops: seq<Operation>): set<string> {
    set i | 0 <= i < |ops| && ops[i].status.Running? :: ops[i].id
  }

  lemma {:induction false} RunningCount(ops: seq<Operation>)
    requires H.DistinctIds(ops)
    ensures |RunningSet(ops)| == |ops| - Finished(ops)
  {
    if ops != [] {
      var n := |ops| - 1;
      var before := ops[..n];
      RunningCount(before);
      if ops[n].status.Running? {
        assert ops[n].id !in RunningSet(before);
        assert RunningSet(ops) == RunningSet(before) + {ops[n].id} by { RunningPush(ops); }
      } else {
        assert RunningSet(ops) == RunningSet(before) by { RunningPush(ops); }
      }
    }
  }

  lemma RunningPush(ops: seq<Operation>)
    requires ops != []
    ensures var n := |ops| - 1;
            RunningSet(ops) == RunningSet(ops[..n]) + if ops[n].status.Running? then {ops[n].id} else {}
  {
    var n := |ops| - 1;
    forall id
      ensures id in RunningSet(ops) <==> id in RunningSet(ops[..n]) || (ops[n].status.Running? && id == ops[n].id)
    {
      if id in RunningSet(ops) {
        var k :| 0 <= k < |ops| && ops[k].status.Running? && ops[k].id == id;
        assert k < n ==> ops[..n][k] == ops[k];
      }
      if id in RunningSet(ops[..n]) {
        var k :| 0 <= k < n && ops[..n][k].status.Running? && ops[..n][k].id == id;
        assert ops[k] == ops[..n][k];
      }
    }
  }

  lemma {:induction false} CoverBound(ids: set<string>, occupied: map<string, Occupancy>, ds: set<string>)
    requires ds <= occupied.Keys
    requires forall id :: id in ids ==> exists d :: d in ds && id in IdsOf(occupied[d])
    ensures |ids| <= 2 * |ds|
    decreases |ds|
  {
    hide IdsOf;
    if ds == {} {
      assert ids == {};
    } else {
      var d :| d in ds;
      var here := IdsOf(occupied[d]);
      OccupancyIsSmall(occupied[d]);
      CoverBound(ids - here, occupied, ds - {d});
      assert ids <= (ids - here) + here;
      SubsetSize(ids, (ids - here) + here);
      assert |(ids - here) + here| <= |ids - here| + |here|;
    }
  }

  lemma {:induction false} SubsetSize(a: set<string>, b: set<string>)
    requires a <= b
    ensures |a| <= |b|
    decreases |b|
  {
    if b != {} {
      var x :| x in b;
      SubsetSize(a - {x}, b - {x});
    }
  }

  /** At most two operations are running per device. */
  lemma RunningIsBounded(w: World)
    requires SameDevices(w) && H.Consistent(w.store) && Devices(w)
    ensures |w.store.operations| - Finished(w.store.operations) <= 2 * |w.workers|
  {
    hide H.Named;
    hide DeviceInv;
    hide IdsOf;
    hide Finished;
    var ops := w.store.operations;
    RunningCount(ops);
    forall id | id in RunningSet(ops) ensures exists d :: d in w.workers.Keys && id in IdsOf(w.occupied[d]) {
      var k :| 0 <= k < |ops| && ops[k].status.Running? && ops[k].id == id;
      var d := ops[k].device;
      DeviceIsKnown(w.store, k);
      assert DeviceInv(At(w, d), d);
      OccupiedByRunning(At(w, d), d, k);
      assert d in w.workers.Keys && id in IdsOf(w.occupied[d]);
    }
    CoverBound(RunningSet(ops), w.occupied, w.workers.Keys);
    assert |w.workers.Keys| == |w.workers|;
  }

  lemma DeviceIsKnown(s: StoreState, k: nat)
    requires H.Consistent(s) && k < |s.operations|
    ensures s.operations[k].device in s.logs
  {
    assert H.Named(s.operations[k], s.epoch, s.logs);
  }

  lemma OccupiedByRunning(l: Local, d: string, k: nat)
    requires d in l.store.devices && d in l.store.logs && DeviceInv(l, d)
    requires k < |l.store.operations| && l.store.operations[k].device == d && l.store.operations[k].status.Running?
    ensures l.store.operations[k].id in IdsOf(l.occupied)
  {
    hide IdsOf;
    hide Jobs;
    hide Boundary;
    hide Telling;
    assert l.store.operations[k].id in RunningIds(l.store.operations, d);
  }

  // ---------- new devices ----------

  function Added(w: World, d: string, availability: Availability): World {
    World(w.store.(devices := w.store.devices[d := DeviceState(false, false, false, false, availability, Idle)],
                   logs := w.store.logs[d := []]),
          w.workers[d := NEW_WORKER], w.occupied[d := Free], w.notes[d := []])
  }

  lemma NewDevice(w: World, d: string, availability: Availability)
    requires Inv(w) && d !in w.workers
    ensures var w' := Added(w, d, availability); SameDevices(w') && DeviceInv(At(w', d), d)
  {
    hide H.Linked;
    hide Devices;
    NothingDone();
    NothingOwed();
    var ops := w.store.operations;
    forall k | 0 <= k < |ops| ensures ops[k].device != d {
      DeviceIsKnown(w.store, k);
    }
    assert RunningIds(ops, d) == {};
  }

  lemma AddKeeps(w: World, d: string, availability: Availability)
    requires Inv(w) && d !in w.workers
    ensures Inv(Added(w, d, availability))
  {
    hide DeviceInv;
    hide H.Linked;
    hide H.Named;
    var w' := Added(w, d, availability);
    NewDevice(w, d, availability);
    forall e | e in w'.workers ensures DeviceInv(At(w', e), e) {
      if e != d {
        assert DeviceInv(At(w, e), e);
        SameDevice(w, w', e);
      }
    }
    NamesStay(w.store, d, w'.store);
    assert w'.workers.Keys == w.workers.Keys + {d};
    assert |w'.workers| == |w'.workers.Keys| && |w.workers| == |w.workers.Keys|;
  }

  lemma NamesStay(s: StoreState, d: string, s': StoreState)
    requires H.AllNamed(s) && d !in s.logs && s'.logs == s.logs[d := []]
    requires s'.epoch == s.epoch && s'.operations == s.operations
    ensures H.AllNamed(s')
  {
    hide OperationId;
    forall i | 0 <= i < |s.operations| ensures H.Named(s'.operations[i], s'.epoch, s'.logs) {
      assert H.Named(s.operations[i], s.epoch, s.logs);
    }
  }

  lemma SameDevice(w: World, w': World, e: string)
    requires SameDevices(w) && SameDevices(w') && e in w.workers && e in w'.workers && DeviceInv(At(w, e), e)
    requires w'.store.devices[e] == w.store.devices[e] && w'.store.logs[e] == w.store.logs[e]
    requires w'.store.epoch == w.store.epoch && w'.store.operations == w.store.operations
    requires w'.workers[e] == w.workers[e] && w'.occupied[e] == w.occupied[e] && w'.notes[e] == w.notes[e]
    ensures DeviceInv(At(w', e), e)
  {
    hide Jobs;
    hide Boundary;
    hide Telling;
    hide Replacing;
    hide RunningIds;
    hide Describes;
    hide Streams;
    hide IdsOf;
  }

  // ---------- runs ----------

  lemma LocalOf(w: World, d: string)
    requires Inv(w) && d in w.workers
    ensures LocalInv(At(w, d), d)
  {
    hide DeviceInv;
    hide H.Consistent;
  }

  function Moved(w: World, m: Move, env: R.Env): (w': World)
    requires Inv(w) && Can(w, m)
  {
    match m
    case Steps(d, step) =>
      LocalOf(w, d);
      LookupsSucceed(At(w, d), d, step);
      Put(w, d, Next(At(w, d), d, step, env))
    case Adds(d, availability) => Added(w, d, availability)
  }

  /** Every step of every device, and every new device, keeps the invariant. */
  lemma MoveKeeps(w: World, m: Move, env: R.Env)
    requires Inv(w) && Can(w, m)
    ensures Inv(Moved(w, m, env))
  {
    hide Inv;
    hide LocalInv;
    hide Untouched;
    hide Growth;
    hide Next;
    hide Enabled;
    match m {
      case Steps(d, step) =>
        LocalOf(w, d);
        KnownDevice(w, d);
        LookupsSucceed(At(w, d), d, step);
        StepKeeps(At(w, d), d, step, env);
        PutKeeps(w, d, Next(At(w, d), d, step, env));
      case Adds(d, availability) =>
        AddKeeps(w, d, availability);
    }
  }

  lemma KnownDevice(w: World, d: string)
    requires Inv(w) && d in w.workers
    ensures SameDevices(w) && d in w.store.devices && d in w.store.logs
  {
    hide Devices;
    hide H.Consistent;
  }

  lemma StartInv(epoch: string)
    ensures Inv(Start(epoch))
  {
  }

  predicate Possible(epoch: string, moves: seq<Move>, env: R.Env)
    decreases |moves|, 0
  {
    moves == [] ||
    var n := |moves| - 1;
    Possible(epoch, moves[..n], env) && Can(WorldAfter(epoch, moves[..n], env), moves[n])
  }

  /** The service after any possible sequence of moves; its invariant holds throughout. */
  function WorldAfter(epoch: string, moves: seq<Move>, env: R.Env): (w: World)
    requires Possible(epoch, moves, env)
    ensures Inv(w)
    decreases |moves|, 1
  {
    if moves == [] then
      StartInv(epoch);
      Start(epoch)
    else
      var before := WorldAfter(epoch, moves[..|moves| - 1], env);
      MoveKeeps(before, moves[|moves| - 1], env);
      Moved(before, moves[|moves| - 1], env)
  }

  // ---------- what is running ----------

  /** The keys a worker still owes a completion for. */
  function OwedIds(w: Worker): set<string> {
    set t | t in Owed(w) :: t.key
  }

  lemma TagsAreIds(o: Occupancy, s: DeviceState)
    requires Describes(s, o)
    ensures forall t :: t in Tags(o) ==> t.key in IdsOf(o) && Tags(o)[t] == 1
    ensures forall id :: id in IdsOf(o) ==> R.Tag(id, D.ApplicationLane) in Tags(o) || R.Tag(id, D.InputLane) in Tags(o)
  {
  }

  lemma AsManyIds(o: Occupancy, s: DeviceState)
    requires Describes(s, o)
    ensures |Tags(o)| == |IdsOf(o)|
  {
    match o {
      case Lanes(a, i) =>
        if a.Some? && i.Some? {
          assert IdsOf(o) == {a.value, i.value};
        } else {
          assert IdsOf(o) == IdSet(if a.Some? then a else i);
        }
      case _ =>
    }
  }

  /** How many operations a device may be busy with, and on which lanes. */
  ghost predicate BusyWith(s: DeviceState, owed: multiset<R.Tag>) {
    && (s.busy <==> owed != multiset{})
    && |owed| == (if s.applicationPending && s.inputPending then 2 else if s.busy then 1 else 0)
    && (s.inputPending <==> exists id: string :: R.Tag(id, D.InputLane) in owed)
    && (s.applicationPending ==> s.busy && exists id: string :: R.Tag(id, D.ApplicationLane) in owed)
    && (s.discardMonitorRead ==> s.busy && !s.applicationPending && !s.inputPending)
  }

  lemma BusyWithTags(s: DeviceState, o: Occupancy)
    requires Describes(s, o)
    ensures BusyWith(s, Tags(o))
  {
    match o {
      case Free =>
      case Exclusive(id, _) =>
        assert R.Tag(id, D.ApplicationLane) in Tags(o);
      case Lanes(a, i) =>
        assert a.Some? ==> R.Tag(a.value, D.ApplicationLane) in Tags(o);
        assert i.Some? ==> R.Tag(i.value, D.InputLane) in Tags(o);
    }
  }

  lemma RunningIsOwedAt(l: Local, d: string)
    requires LocalInv(l, d)
    ensures RunningIds(l.store.operations, d) == OwedIds(l.worker)
    ensures forall t :: t in Owed(l.worker) ==> Owed(l.worker)[t] == 1
    ensures |RunningIds(l.store.operations, d)| == |Owed(l.worker)|
    ensures BusyWith(l.store.devices[d], Owed(l.worker))
    ensures |l.worker.queue| <= CHANNEL
  {
    hide Boundary;
    hide Telling;
    hide Replacing;
    hide Streams;
    hide RunningIds;
    hide Owed;
    hide Tags;
    hide IdsOf;
    hide Describes;
    hide BusyWith;
    hide H.Consistent;
    var o := l.occupied;
    TagsAreIds(o, l.store.devices[d]);
    AsManyIds(o, l.store.devices[d]);
    BusyWithTags(l.store.devices[d], o);
    QueueIsSmall(l.worker, o);
    OccupancyIsSmall(o);
    forall id ensures id in OwedIds(l.worker) <==> id in IdsOf(o) {
      if id in IdsOf(o) {
        var t := if R.Tag(id, D.ApplicationLane) in Tags(o)
                 then R.Tag(id, D.ApplicationLane) else R.Tag(id, D.InputLane);
        assert t in Owed(l.worker) && t.key == id;
      }
    }
  }

  /**
   In every interleaving, a device's running operations are exactly the disjoint union of its queued jobs, the
   job being executed, the keys its scheduler owes and the completions on their way; busy and the two pending
   flags describe that set, and the channel holds at most two jobs.
   */
  lemma RunningIsOwed(epoch: string, moves: seq<Move>, env: R.Env, d: string)
    requires Possible(epoch, moves, env) && d in WorldAfter(epoch, moves, env).workers
    ensures var w := WorldAfter(epoch, moves, env);
            && d in w.store.devices && d in w.workers
            && RunningIds(w.store.operations, d) == OwedIds(w.workers[d])
            && (forall t :: t in Owed(w.workers[d]) ==> Owed(w.workers[d])[t] == 1)
            && |RunningIds(w.store.operations, d)| == |Owed(w.workers[d])|
            && BusyWith(w.store.devices[d], Owed(w.workers[d]))
            && |w.workers[d].queue| <= CHANNEL
  {
    hide WorldAfter;
    hide Inv;
    hide LocalInv;
    hide RunningIds;
    hide OwedIds;
    hide Owed;
    hide BusyWith;
    var w := WorldAfter(epoch, moves, env);
    KnownDevice(w, d);
    LocalOf(w, d);
    RunningIsOwedAt(At(w, d), d);
  }

  /** In every interleaving, submit never finds the channel full and every lookup under the lock succeeds. */
  lemma SubmitNeverRollsBack(epoch: string, moves: seq<Move>, env: R.Env, d: string, action: Action, key: string,
                             fingerprint: string)
    requires Possible(epoch, moves, env) && d in WorldAfter(epoch, moves, env).workers
    ensures var w := WorldAfter(epoch, moves, env);
            && SameDevices(w) && Replayable(w.store, key)
            && !Submit(At(w, d), d, action, key, fingerprint).1.WorkerUnavailable?
            && forall step :: Enabled(w.workers[d], step) ==> Findable(At(w, d), step)
  {
    hide WorldAfter;
    hide LocalInv;
    hide Submit;
    hide Enabled;
    hide Findable;
    var w := WorldAfter(epoch, moves, env);
    KnownDevice(w, d);
    LocalOf(w, d);
    ReplayOf(At(w, d), d, key, fingerprint);
    ChannelHasRoom(At(w, d), d, action, key, fingerprint);
    forall step | Enabled(w.workers[d], step) ensures Findable(At(w, d), step) {
      LookupsSucceed(At(w, d), d, step);
    }
  }

  lemma ReplayOf(l: Local, d: string, key: string, fingerprint: string)
    requires LocalInv(l, d)
    ensures Replayable(l.store, key)
  {
    hide DeviceInv;
    H.ReplayFindsOperation(l.store, key, fingerprint);
  }

  /** The completions of a round have the effect of finish_stream. */
  lemma {:induction false} FinishIsFinishStream(l: Local, d: string)
    requires d in l.store.devices && d in l.store.logs && AllRetained(l.store, l.worker.transit)
    ensures Finish(l, d).store == FinishedAll(l.store, d, l.worker.transit, l.worker.reader.Some?)
    decreases |l.worker.transit|
  {
    hide FinishedOne;
    hide Retained;
    if l.worker.transit != [] {
      RestIsRetained(l, d);
      FinishShrinks(l, d);
      FirstStays(l, d);
      FinishIsFinishStream(FinishFirst(l, d), d);
      FinishedFront(l.store, d, l.worker.transit, l.worker.reader.Some?);
    }
  }

  lemma FirstStays(l: Local, d: string)
    requires d in l.store.devices && d in l.store.logs
    requires l.worker.transit != [] && Retained(l.store, l.worker.transit[0].key)
    ensures d in FinishFirst(l, d).store.devices && d in FinishFirst(l, d).store.logs
  {
  }

  lemma {:induction false} FinishedFront(s: StoreState, d: string, done: seq<D.Completion>, hasReader: bool)
    requires d in s.devices && d in s.logs && done != [] && AllRetained(s, done)
    requires Retained(s, done[0].key)
    ensures var next := FinishedOne(s, d, done[0], hasReader);
            && d in next.devices && d in next.logs && AllRetained(next, done[1..])
            && FinishedAll(s, d, done, hasReader) == FinishedAll(next, d, done[1..], hasReader)
    decreases |done|
  {
    hide Position;
    var n := |done| - 1;
    FinishedOneKeepsPositions(s, d, done[0], hasReader);
    var next := FinishedOne(s, d, done[0], hasReader);
    forall i | 0 <= i < n ensures Retained(next, done[1..][i].key) {
      assert Retained(s, done[i + 1].key);
    }
    if n == 0 {
      assert done[..0] == [];
    } else {
      assert done[1..][..n - 1] == done[..n][1..];
      FinishedFront(s, d, done[..n], hasReader);
    }
  }

  // ---------- the monitor boundary ----------

  predicate IsConsole(body: Body) {
    body.RawOutput? || body.LogLine?
  }

  lemma {:induction false} EndedBetween(notes: seq<Note>, i: nat, j: nat, id: string) returns (k: nat)
    requires i < j <= |notes| && notes[i] == Started(id, true) && id !in Replacing(notes[..j])
    ensures i < k < j && notes[k].Ended? && notes[k].id == id
    decreases j
  {
    assert notes[..j][..j - 1] == notes[..j - 1];
    if j - 1 == i || (notes[j - 1].Ended? && notes[j - 1].id == id) {
      k := j - 1;
    } else {
      k := EndedBetween(notes, i, j - 1, id);
    }
  }

  lemma TellingAt(notes: seq<Note>, log: seq<Body>, epoch: string, d: string, k: nat)
    requires Telling(notes, log, epoch, d) && k < |log|
    ensures Tells(notes[k], log[k], OperationId(epoch, d, k + 1))
    ensures |notes| == |log|
  {
    hide OperationId;
    hide Tells;
  }

  lemma NotesTell(w: World, d: string)
    requires Inv(w) && d in w.workers
    ensures d in w.store.logs && d in w.notes && |w.notes[d]| == |w.store.logs[d]|
    ensures Telling(w.notes[d], w.store.logs[d], w.store.epoch, d) && Boundary(w.notes[d], w.workers[d].closed)
  {
    hide Jobs;
    hide RunningIds;
    hide Replacing;
    hide H.Consistent;
    hide Tells;
    hide OperationId;
    assert DeviceInv(At(w, d), d);
  }

  /**
   In every interleaving, between the start and the end of a monitor-replacing operation a device's log has no
   console event: if it has one after the start, the operation finished before it.
   */
  lemma NoConsoleDuringReplacement(epoch: string, moves: seq<Move>, env: R.Env, d: string, i: nat, j: nat)
    returns (k: nat)
    requires Possible(epoch, moves, env) && d in WorldAfter(epoch, moves, env).workers
    requires var w := WorldAfter(epoch, moves, env);
             && d in w.store.logs && d in w.notes && i < j < |w.store.logs[d]| && |w.notes[d]| == |w.store.logs[d]|
             && w.store.logs[d][i].OperationStarted? && w.notes[d][i].Started? && w.notes[d][i].replacing
             && IsConsole(w.store.logs[d][j])
    ensures var (w, log) := (WorldAfter(epoch, moves, env), WorldAfter(epoch, moves, env).store.logs[d]);
            && i < k < j && log[k].OperationFinished?
            && log[k].operation.id == w.notes[d][i].id == OperationId(w.store.epoch, d, i + 1)
  {
    hide WorldAfter;
    hide Inv;
    hide Telling;
    hide Replacing;
    hide OperationId;
    var w := WorldAfter(epoch, moves, env);
    var notes, log := w.notes[d], w.store.logs[d];
    NotesTell(w, d);
    TellingAt(notes, log, w.store.epoch, d, i);
    TellingAt(notes, log, w.store.epoch, d, j);
    k := EndedBetween(notes, i, j, notes[i].id);
    TellingAt(notes, log, w.store.epoch, d, k);
  }

  /**
   In every interleaving, console events after the end of an operation that closed the monitor come from a
   stream opened after it had closed it.
   */
  lemma ConsoleComesFromNewStream(epoch: string, moves: seq<Move>, env: R.Env, d: string, i: nat, j: nat)
    requires Possible(epoch, moves, env) && d in WorldAfter(epoch, moves, env).workers
    requires var w := WorldAfter(epoch, moves, env);
             && d in w.store.logs && d in w.notes && i < j < |w.store.logs[d]| && |w.notes[d]| == |w.store.logs[d]|
             && w.store.logs[d][i].OperationFinished? && w.notes[d][i].Ended? && w.notes[d][i].closed.Some?
             && IsConsole(w.store.logs[d][j])
    ensures var notes := WorldAfter(epoch, moves, env).notes[d];
            notes[j].Heard? && notes[i].closed.value < notes[j].stream
  {
    hide WorldAfter;
    hide Inv;
    hide Telling;
    hide Replacing;
    hide OperationId;
    var w := WorldAfter(epoch, moves, env);
    NotesTell(w, d);
    TellingAt(w.notes[d], w.store.logs[d], w.store.epoch, d, j);
  }

  // ---------- history ----------

  /**
   In every interleaving, keys and retained operations correspond one to one, artifacts belong to retained
   operations, running operations are retained, and at most 63 operations and two more per device are retained.
   */
  lemma HistoryIsBounded(epoch: string, moves: seq<Move>, env: R.Env)
    requires Possible(epoch, moves, env)
    ensures var w := WorldAfter(epoch, moves, env);
            && H.Linked(w.store.operations, w.store.idempotency, w.store.artifacts)
            && |w.store.operations| <= 63 + 2 * |w.workers|
            && |w.store.operations| - Finished(w.store.operations) <= 2 * |w.workers|
  {
    hide WorldAfter;
    hide Devices;
    hide H.Linked;
    RunningIsBounded(WorldAfter(epoch, moves, env));
  }

  /** A request that is repeated with its key while its operation is retained starts no second job. */
  lemma RepeatedRequestIsReplayed(epoch: string, moves: seq<Move>, env: R.Env, d: string, action: Action, key: string,
                                  fingerprint: string)
    requires Possible(epoch, moves, env) && d in WorldAfter(epoch, moves, env).workers
    requires var s := WorldAfter(epoch, moves, env).store;
             key in s.idempotency && s.idempotency[key].fingerprint == fingerprint
    ensures var w := WorldAfter(epoch, moves, env);
            && SameDevices(w) && Replayable(w.store, key)
            && exists i :: 0 <= i < |w.store.operations| && w.store.operations[i].key == key
                 && Submit(At(w, d), d, action, key, fingerprint) == (At(w, d), Replayed(w.store.operations[i]))
  {
    hide WorldAfter;
    hide Devices;
    hide Position;
    hide Recorded;
    hide OperationId;
    hide H.Linked;
    hide H.AllNamed;
    var w := WorldAfter(epoch, moves, env);
    H.ReplayFindsOperation(w.store, key, fingerprint);
    var i :| 0 <= i < |w.store.operations| && w.store.operations[i].key == key
          && Known(w.store, key, fingerprint) == M.Some(Replayed(w.store.operations[i]));
    assert Submit(At(w, d), d, action, key, fingerprint) == (At(w, d), Replayed(w.store.operations[i]));
  }
}
