/**
 What every step of the service of src/server.rs keeps, in every interleaving of submitters and workers.
 */
module AdmissionRuns {
  import opened Mux
  import opened Device
  import opened Store
  import opened Admission
  import A = Application
  import D = Duplex
  import R = DuplexRuns
  import H = History

  // ---------- what is owed ----------

  lemma {:induction false} QueueConcat(a: seq<Job>, b: seq<Job>)
    ensures QueueTags(a + b) == QueueTags(a) + QueueTags(b)
  {
    if b == [] {
      assert a + b == a;
    } else {
      var n := |b| - 1;
      assert (a + b)[..|a + b| - 1] == a + b[..n];
      QueueConcat(a, b[..n]);
    }
  }

  lemma QueueOne(job: Job)
    ensures QueueTags([job]) == multiset{JobTag(job)}
  {
    assert [job][..0] == [];
  }

  lemma QueueFront(queue: seq<Job>)
    requires queue != []
    ensures QueueTags(queue) == multiset{JobTag(queue[0])} + QueueTags(queue[1..])
  {
    hide QueueTags;
    assert queue == [queue[0]] + queue[1..];
    QueueConcat([queue[0]], queue[1..]);
    QueueOne(queue[0]);
  }

  lemma QueuePush(queue: seq<Job>, job: Job)
    ensures QueueTags(queue + [job]) == QueueTags(queue) + multiset{JobTag(job)}
  {
    hide QueueTags;
    QueueConcat(queue, [job]);
    QueueOne(job);
  }

  lemma {:induction false} QueueSize(queue: seq<Job>)
    ensures |QueueTags(queue)| == |queue|
  {
    if queue != [] {
      QueueSize(queue[..|queue| - 1]);
    }
  }

  lemma CompletedFront(done: seq<D.Completion>)
    requires done != []
    ensures R.Completed(done) == multiset{R.Tag(done[0].key, done[0].lane)} + R.Completed(done[1..])
  {
    hide R.Completed;
    assert done == [done[0]] + done[1..];
    R.CompletedConcat([done[0]], done[1..]);
    R.CompletedOne(done[0]);
  }

  lemma NothingCompleted(done: seq<D.Completion>)
    requires R.Completed(done) == multiset{}
    ensures done == []
  {
    if done != [] {
      CompletedFront(done);
    }
  }

  /** The scheduler's part of what is owed changes hands, nothing else. */
  lemma Passed(w: Worker, w': Worker, o: Occupancy)
    requires Jobs(w, o) && Resting(w)
    requires w'.queue == w.queue && w'.task == w.task
    requires R.Outstanding(w.duplex) == R.Completed(w'.transit) + R.Outstanding(w'.duplex)
    ensures Jobs(w', o)
  {
    hide R.Completed;
    hide R.Outstanding;
    hide QueueTags;
    hide HardwareIsAlone;
    R.CompletedEmpty();
    assert Owed(w') == Owed(w);
    if o.Exclusive? && o.replacing {
      NothingCompleted(w'.transit);
    }
  }

  lemma AbortPasses(w: Worker, reason: string, o: Occupancy)
    requires Jobs(w, o) && Resting(w)
    ensures Jobs(Aborted(w, reason), o)
  {
    hide R.Completed;
    hide Jobs;
    R.AbortFailsEveryKey(w.duplex, reason);
    NothingOwed();
    Passed(w, Aborted(w, reason), o);
  }

  lemma NothingOwed()
    ensures R.Outstanding(D.EMPTY) == multiset{}
  {
  }

  lemma TickPasses(w: Worker, call: R.Call, reason: string, o: Occupancy)
    requires Jobs(w, o) && Resting(w) && call.TickCall? && R.Allowed(w.duplex, call)
    ensures Jobs(Tick(w, call, reason), o)
  {
    hide R.Completed;
    hide R.Outstanding;
    hide Jobs;
    hide D.TickStep;
    hide D.AbortStep;
    R.TickConserves(w.duplex, call.readings, call.outcome, call.now);
    var (duplex, r) := D.TickStep(w.duplex, call.readings, call.outcome, call.now);
    if r.Ticked? {
      Passed(w, Tick(w, call, reason), o);
    } else {
      AbortPasses(w, reason, o);
      ReaderIsNoJob(Aborted(w, reason), None, o);
    }
  }

  lemma ReaderIsNoJob(w: Worker, reader: Option<nat>, o: Occupancy)
    requires Jobs(w, o)
    ensures Jobs(w.(reader := reader), o)
  {
    hide R.Completed;
    hide R.Outstanding;
    hide QueueTags;
    hide HardwareIsAlone;
    assert Owed(w.(reader := reader)) == Owed(w);
  }

  lemma HeldIsNoJob(w: Worker, held: seq<A.Output>, from: nat, o: Occupancy)
    requires Jobs(w, o) && w.task.None?
    ensures Jobs(w.(held := held, heldFrom := from), o)
  {
    hide R.Completed;
    hide R.Outstanding;
    hide QueueTags;
    hide HardwareIsAlone;
    assert Owed(w.(held := held, heldFrom := from)) == Owed(w);
  }

  lemma ReadPasses(w: Worker, call: R.Call, reason: string, env: R.Env, o: Occupancy)
    requires Jobs(w, o) && Resting(w) && call.FeedCall? && w.reader.Some?
    ensures Jobs(Read(w, call, reason, env), o)
  {
    hide R.Completed;
    hide R.Outstanding;
    hide Jobs;
    hide D.FeedStep;
    hide D.AbortStep;
    var w' := Read(w, call, reason, env);
    if w.duplex.session.None? {
      HeldIsNoJob(w, w'.held, w'.heldFrom, o);
    } else {
      R.FeedConserves(w.duplex, call.bytes, call.before, call.after, env.parse);
      var (duplex, r) := D.FeedStep(w.duplex, call.bytes, call.before, call.after, env.parse);
      if r.Fed? {
        Passed(w, w'.(held := [], heldFrom := w.heldFrom), o);
        HeldIsNoJob(w'.(held := [], heldFrom := w.heldFrom), w'.held, w'.heldFrom, o);
      } else {
        NothingDone();
        Passed(w, w.(duplex := duplex), o);
        AbortPasses(w.(duplex := duplex), reason, o);
        HeldIsNoJob(Aborted(w.(duplex := duplex), reason), w'.held, w'.heldFrom, o);
      }
    }
  }

  lemma NothingDone()
    ensures R.Completed([]) == multiset{} && R.InputTags([]) == multiset{}
  {
  }

  lemma StartOwes(w: Worker, call: R.Call, failure: D.Failure, env: R.Env)
    requires w.task.Some? && CallOf(w.task.value.job, call) && w.transit == []
    ensures Owed(Start(w, call, failure, env)) == Owed(w)
  {
    hide R.Completed;
    hide R.Outstanding;
    hide QueueTags;
    hide R.Apply;
    hide JobTag;
    var (duplex, e) := R.Apply(w.duplex, call, env);
    R.CallConserves(w.duplex, call, env);
    StartsOwnKey(w.duplex, w.task.value.job, call, env);
    NothingDone();
    assert R.Completed(e.completions) == multiset{};
    if e.started == [] {
      assert multiset(e.started) == multiset{};
      SameWithoutNothing(R.Outstanding(w.duplex), R.Outstanding(duplex));
      DeclineOwes(w, w.(duplex := duplex), failure);
    } else {
      assert multiset(e.started) == multiset{JobTag(w.task.value.job)};
      Regroup(QueueTags(w.queue), TaskTags(w.task), R.Outstanding(w.duplex));
    }
  }

  lemma SameWithoutNothing<T>(a: multiset<T>, b: multiset<T>)
    requires a + multiset{} == multiset{} + b
    ensures a == b
  {
    assert a == a + multiset{};
    assert b == multiset{} + b;
  }

  lemma Regroup<T>(a: multiset<T>, b: multiset<T>, c: multiset<T>)
    ensures a + b + c == a + (c + b) && a + b + c == a + c + b
  {
  }

  lemma DeclineOwes(w: Worker, w1: Worker, failure: D.Failure)
    requires w.task.Some? && w.transit == []
    requires w1 == w.(duplex := w1.duplex) && R.Outstanding(w1.duplex) == R.Outstanding(w.duplex)
    ensures Owed(Decline(w1, failure)) == Owed(w)
  {
    hide R.Completed;
    hide R.Outstanding;
    hide QueueTags;
    NothingDone();
    R.CompletedOne(Decline(w1, failure).transit[0]);
    Regroup(QueueTags(w.queue), TaskTags(w.task), R.Outstanding(w.duplex));
  }

  /** A stream job is handed to the scheduler, or ends with an error. */
  lemma StartPasses(w: Worker, call: R.Call, failure: D.Failure, env: R.Env, o: Occupancy)
    requires Jobs(w, o) && w.task.Some? && CallOf(w.task.value.job, call)
    ensures Jobs(Start(w, call, failure, env), o)
  {
    hide Owed;
    hide R.Apply;
    StartOwes(w, call, failure, env);
  }

  lemma StartsOwnKey(s: D.DuplexState, job: Job, call: R.Call, env: R.Env)
    requires CallOf(job, call)
    ensures var e := R.Apply(s, call, env).1;
            e.completions == [] && (e.started == [] || e.started == [JobTag(job)])
  {
    hide D.RequestStart;
    hide D.ConnectStart;
    hide D.InputStart;
  }

  lemma DeclinePasses(w: Worker, failure: D.Failure, o: Occupancy)
    requires Jobs(w, o) && w.task.Some? && IsStream(w.task.value.job.action)
    ensures Jobs(Decline(w, failure), o)
  {
    hide Owed;
    DeclineOwes(w, w, failure);
  }

  lemma TakeOwes(w: Worker)
    requires w.task.None? && w.queue != []
    ensures Owed(w.(queue := w.queue[1..], task := Some(Task(w.queue[0], Taken)))) == Owed(w)
  {
    hide R.Completed;
    hide R.Outstanding;
    hide QueueTags;
    QueueFront(w.queue);
    Regroup(QueueTags(w.queue[1..]), multiset{JobTag(w.queue[0])}, multiset{});
  }

  lemma TakePasses(w: Worker, o: Occupancy)
    requires Jobs(w, o) && Resting(w) && w.queue != []
    ensures Jobs(w.(queue := w.queue[1..], task := Some(Task(w.queue[0], Taken))), o)
  {
    hide Owed;
    hide HardwareIsAlone;
    TakeOwes(w);
  }

  // ---------- occupancy ----------

  lemma CompletionUntags(o: Occupancy, key: string, lane: D.Lane)
    requires R.Tag(key, lane) in Tags(o) && (o.Lanes? ==> o.application.Some? || o.input.Some?)
    ensures Tags(o) == multiset{R.Tag(key, lane)} + Tags(AfterCompletion(o, lane))
    ensures key in IdsOf(o)
    ensures o.Lanes? ==> (if lane == D.ApplicationLane then o.application else o.input) == Some(key)
    ensures o.Exclusive? ==> o.id == key && lane == D.ApplicationLane
  {
    match o {
      case Lanes(a, i) =>
        assert lane == D.ApplicationLane ==> a == Some(key);
        assert lane == D.InputLane ==> i == Some(key);
      case _ =>
    }
  }

  /** What completes is one of the operations the device is occupied by; the others stay. */
  lemma CompletionReleases(o: Occupancy, key: string, lane: D.Lane, s: DeviceState, hasReader: bool)
    requires Describes(s, o) && R.Tag(key, lane) in Tags(o) && !(o.Exclusive? && o.replacing)
    ensures Tags(o) == multiset{R.Tag(key, lane)} + Tags(AfterCompletion(o, lane))
    ensures IdsOf(AfterCompletion(o, lane)) == IdsOf(o) - {key} && key in IdsOf(o)
    ensures Describes(Released(s, lane, hasReader), AfterCompletion(o, lane))
    ensures ReplacedBy(o) == ReplacedBy(AfterCompletion(o, lane)) == {}
  {
    hide Tags;
    CompletionUntags(o, key, lane);
  }

  lemma AdmissionTags(o: Occupancy, action: Action, id: string, s: DeviceState)
    requires Describes(s, o) && !(s.busy && !Compatible(s, action))
    ensures Tags(AfterAdmission(o, action, id)) == Tags(o) + multiset{R.Tag(id, LaneOf(action))}
    ensures |Tags(o)| <= 1
  {
  }

  /** Who may be admitted, and what occupies the device then. */
  lemma AdmissionOccupies(o: Occupancy, action: Action, id: string, s: DeviceState, activity: Activity)
    requires Describes(s, o) && !(s.busy && !Compatible(s, action)) && id !in IdsOf(o)
    ensures var o' := AfterAdmission(o, action, id);
            && IdsOf(o') == IdsOf(o) + {id}
            && Describes(Occupied(s, action).(activity := activity), o')
            && !(o.Exclusive? && o.replacing)
            && (o'.Exclusive? && o'.replacing <==> action.Hardware?)
            && (action.Hardware? ==> o == Free && o' == Exclusive(id, true))
  {
  }

  lemma OccupancyIsSmall(o: Occupancy)
    ensures |Tags(o)| <= 2 && |IdsOf(o)| <= 2
  {
    match o {
      case Lanes(a, i) =>
        assert |IdSet(a)| <= 1 && |IdSet(i)| <= 1;
        assert |IdSet(a) + IdSet(i)| <= |IdSet(a)| + |IdSet(i)|;
      case _ =>
    }
  }

  // ---------- notes ----------

  lemma NoteReplacing(notes: seq<Note>, note: Note)
    ensures Replacing(notes + [note]) == After(Replacing(notes), note)
  {
    assert (notes + [note])[..|notes + [note]| - 1] == notes;
  }

  /** A note that is not about the console keeps the boundary. */
  lemma NoteKeepsBoundary(notes: seq<Note>, note: Note, closed: nat)
    requires Boundary(notes, closed)
    requires note.Heard? ==> Replacing(notes) == {} && closed < note.stream
    requires note.Ended? && note.closed.Some? ==> note.closed.value <= closed
    ensures Boundary(notes + [note], closed)
  {
    hide Replacing;
    var more := notes + [note];
    forall j | 0 <= j < |more| && more[j].Heard? ensures Replacing(more[..j]) == {} {
      assert more[..j] == notes[..j];
      assert notes[..|notes|] == notes;
    }
  }

  lemma BoundaryMoves(notes: seq<Note>, closed: nat, later: nat)
    requires Boundary(notes, closed) && closed <= later
    ensures Boundary(notes, later)
  {
    hide Replacing;
  }

  lemma {:induction false} HeardKeepsBoundary(notes: seq<Note>, stream: nat, n: nat, closed: nat)
    requires Boundary(notes, closed) && Replacing(notes) == {} && closed < stream
    ensures Boundary(notes + Repeat(Heard(stream), n), closed)
    ensures Replacing(notes + Repeat(Heard(stream), n)) == {}
    decreases n
  {
    hide Boundary;
    hide Replacing;
    var heard := Repeat(Heard(stream), n);
    if n == 0 {
      assert notes + heard == notes;
    } else {
      var before := notes + Repeat(Heard(stream), n - 1);
      HeardKeepsBoundary(notes, stream, n - 1, closed);
      assert notes + heard == before + [Heard(stream)];
      NoteReplacing(before, Heard(stream));
      NoteKeepsBoundary(before, Heard(stream), closed);
    }
  }

  lemma TellMore(notes: seq<Note>, log: seq<Body>, epoch: string, d: string, note: Note, body: Body)
    requires Telling(notes, log, epoch, d) && Tells(note, body, OperationId(epoch, d, |log| + 1))
    ensures Telling(notes + [note], log + [body], epoch, d)
  {
    hide OperationId;
    hide Tells;
  }

  lemma TellReading(l: Local, d: string, r: Reading, stream: nat)
    requires d in l.store.logs && Telling(l.notes, l.store.logs[d], l.store.epoch, d)
    ensures Telling(l.notes + Notes(r, stream), l.store.logs[d] + Bodies(r), l.store.epoch, d)
  {
    hide OperationId;
    var notes, bodies := Notes(r, stream), Bodies(r);
    assert |notes| == |bodies|;
    assert forall i :: 0 <= i < |notes| ==>
             Tells(notes[i], bodies[i], OperationId(l.store.epoch, d, |l.notes| + i + 1));
  }

  // ---------- running operations ----------

  lemma UpdateRunning(ops: seq<Operation>, i: nat, op: Operation, e: string)
    requires H.DistinctIds(ops) && i < |ops|
    requires op.id == ops[i].id && op.device == ops[i].device && !op.status.Running?
    ensures RunningIds(ops[i := op], e) == RunningIds(ops, e) - {op.id}
  {
    var ops' := ops[i := op];
    forall id ensures id in RunningIds(ops', e) <==> id in RunningIds(ops, e) && id != op.id {
      if id in RunningIds(ops', e) {
        var k :| 0 <= k < |ops'| && ops'[k].device == e && ops'[k].status.Running? && ops'[k].id == id;
        assert k != i && ops[k] == ops'[k];
      }
      if id in RunningIds(ops, e) && id != op.id {
        var k :| 0 <= k < |ops| && ops[k].device == e && ops[k].status.Running? && ops[k].id == id;
        assert ops'[k] == ops[k];
      }
    }
  }

  lemma PushRunning(ops: seq<Operation>, op: Operation, e: string)
    requires op.status.Running?
    ensures RunningIds(ops + [op], e) == RunningIds(ops, e) + if op.device == e then {op.id} else {}
  {
    var ops' := ops + [op];
    forall id ensures id in RunningIds(ops', e) <==> id in RunningIds(ops, e) || (op.device == e && id == op.id) {
      if id in RunningIds(ops, e) {
        var k :| 0 <= k < |ops| && ops[k].device == e && ops[k].status.Running? && ops[k].id == id;
        assert ops'[k] == ops[k];
      }
      if op.device == e && id == op.id {
        assert ops'[|ops|] == op;
      }
    }
  }

  lemma ShortenedRunning(from: seq<Operation>, to: seq<Operation>, e: string)
    requires H.Shortened(from, to)
    ensures RunningIds(to, e) == RunningIds(from, e)
  {
    forall id ensures id in RunningIds(to, e) <==> id in RunningIds(from, e) {
      if id in RunningIds(to, e) {
        var k :| 0 <= k < |to| && to[k].device == e && to[k].status.Running? && to[k].id == id;
        assert to[k] in from;
      }
      if id in RunningIds(from, e) {
        var k :| 0 <= k < |from| && from[k].device == e && from[k].status.Running? && from[k].id == id;
        assert from[k] in to;
      }
    }
  }

  /** A running operation is found, and it is the device's. */
  lemma RunningIsRetained(s: StoreState, d: string, id: string)
    requires H.Consistent(s) && id in RunningIds(s.operations, d)
    ensures Retained(s, id)
    ensures var op := s.operations[Position(s.operations, id).value];
            op.device == d && op.status.Running? && op.id == id
  {
    var i :| 0 <= i < |s.operations| && s.operations[i].device == d
          && s.operations[i].status.Running? && s.operations[i].id == id;
    H.PositionOf(s.operations, i);
  }

  // ---------- steps of one device ----------

  predicate LocalInv(l: Local, d: string) {
    d in l.store.devices && d in l.store.logs && H.Consistent(l.store) && DeviceInv(l, d)
  }

  /** The other devices are not touched. */
  ghost predicate Untouched(s: StoreState, s': StoreState, d: string) {
    && s'.epoch == s.epoch && s'.logs.Keys == s.logs.Keys && s'.devices.Keys == s.devices.Keys
    && (forall e :: e in s.logs && e != d ==> s'.logs[e] == s.logs[e])
    && (forall e :: e in s.devices && e != d ==> s'.devices[e] == s.devices[e])
    && (forall e :: e != d ==> RunningIds(s'.operations, e) == RunningIds(s.operations, e))
  }

  /** No more operations are retained, or fewer than 64 finished ones. */
  predicate Growth(s: StoreState, s': StoreState) {
    |s'.operations| <= |s.operations| || Finished(s'.operations) < HISTORY
  }

  lemma FrameIsTransitive(a: StoreState, b: StoreState, c: StoreState, d: string)
    requires Untouched(a, b, d) && Untouched(b, c, d)
    ensures Untouched(a, c, d)
  {
    hide RunningIds;
  }

  lemma WorkerOnly(l: Local, w: Worker, d: string)
    requires LocalInv(l, d) && Jobs(w, l.occupied) && Streams(w) && w.closed == l.worker.closed
    ensures LocalInv(l.(worker := w), d)
  {
    hide Jobs;
    hide Boundary;
    hide Telling;
    hide H.Consistent;
  }

  lemma WorkerSteps(l: Local, d: string, step: Step, env: R.Env)
    requires LocalInv(l, d) && Enabled(l.worker, step)
    requires step.Ticks? || step.Reads? || step.TakesJob? || step.LosesReader? || step.AbortsLost? || step.Reopens?
    ensures var l' := Next(l, d, step, env); LocalInv(l', d) && l'.store == l.store
  {
    hide Jobs;
    hide DeviceInv;
    hide D.TickStep;
    hide D.FeedStep;
    hide D.AbortStep;
    var w, o := l.worker, l.occupied;
    Parts(l, d);
    match step {
      case Ticks(call, reason) => TickPasses(w, call, reason, o);
      case Reads(call, reason) => ReadPasses(w, call, reason, env, o);
      case TakesJob => TakePasses(w, o);
      case LosesReader => ReaderIsNoJob(w, None, o);
      case AbortsLost(reason) => AbortPasses(w, reason, o);
      case Reopens => StreamIsNoJob(w, o);
      case _ =>
    }
    WorkerOnly(l, Next(l, d, step, env).worker, d);
  }

  lemma Parts(l: Local, d: string)
    requires LocalInv(l, d)
    ensures Jobs(l.worker, l.occupied) && Streams(l.worker)
    ensures Describes(l.store.devices[d], l.occupied)
  {
    hide Jobs;
    hide Boundary;
    hide Telling;
  }

  lemma StreamIsNoJob(w: Worker, o: Occupancy)
    requires Jobs(w, o)
    ensures Jobs(w.(reader := Some(w.streams + 1), streams := w.streams + 1), o)
  {
    hide R.Completed;
    hide R.Outstanding;
    hide QueueTags;
    hide HardwareIsAlone;
    assert Owed(w.(reader := Some(w.streams + 1), streams := w.streams + 1)) == Owed(w);
  }

  lemma ChangeKeeps(w: Worker, change: ReaderChange, o: Occupancy)
    requires Jobs(w, o) && Streams(w)
    ensures Jobs(ChangeReader(w, change), o) && Streams(ChangeReader(w, change))
  {
    hide Jobs;
    match change {
      case SameReader =>
      case NoReader => ReaderIsNoJob(w, None, o);
      case NewReader => StreamIsNoJob(w, o);
    }
  }

  lemma StartSteps(l: Local, d: string, step: Step, env: R.Env)
    requires LocalInv(l, d) && Enabled(l.worker, step) && (step.Starts? || step.Declines?)
    ensures var l' := Next(l, d, step, env); LocalInv(l', d) && l'.store == l.store
  {
    hide Jobs;
    hide DeviceInv;
    hide R.Apply;
    Parts(l, d);
    var w := ChangeReader(l.worker, step.change);
    ChangeKeeps(l.worker, step.change, l.occupied);
    if step.Starts? {
      StartPasses(w, step.call, step.failure, env, l.occupied);
    } else {
      DeclinePasses(w, step.failure, l.occupied);
    }
    WorkerOnly(l, Next(l, d, step, env).worker, d);
  }

  lemma TaskIsNoTag(w: Worker, stage: Stage, o: Occupancy)
    requires Jobs(w, o) && w.task.Some?
    ensures Jobs(w.(task := Some(w.task.value.(stage := stage))), o)
  {
    hide R.Completed;
    hide R.Outstanding;
    hide QueueTags;
    assert Owed(w.(task := Some(w.task.value.(stage := stage)))) == Owed(w);
  }

  lemma OpenStep(l: Local, d: string, env: R.Env)
    requires LocalInv(l, d) && Enabled(l.worker, OpensMonitor)
    ensures LocalInv(Next(l, d, OpensMonitor, env), d)
  {
    hide Jobs;
    hide DeviceInv;
    Parts(l, d);
    TaskIsNoTag(l.worker, OpenedMonitor, l.occupied);
    StreamIsNoJob(l.worker.(task := Some(l.worker.task.value.(stage := OpenedMonitor))), l.occupied);
    WorkerOnly(l, Next(l, d, OpensMonitor, env).worker, d);
  }

  // ---------- steps that emit ----------

  lemma EmitKeeps(l: Local, d: string, body: Body)
    requires LocalInv(l, d) && body.Notice?
    ensures LocalInv(EmitNote(l, d, body, Silent), d)
    ensures Untouched(l.store, EmitNote(l, d, body, Silent).store, d)
  {
    hide Jobs;
    hide Boundary;
    hide Telling;
    hide Replacing;
    hide RunningIds;
    hide H.Linked;
    hide H.Named;
    H.NamesSurvive(l.store, d, body);
    NoteReplacing(l.notes, Silent);
    NoteKeepsBoundary(l.notes, Silent, l.worker.closed);
    TellMore(l.notes, l.store.logs[d], l.store.epoch, d, Silent, body);
  }

  /** Flags other than the lanes may change at any time. */
  lemma StatusKeeps(l: Local, d: string, state: DeviceState)
    requires LocalInv(l, d)
    requires state == l.store.devices[d].(availability := state.availability, activity := state.activity)
    ensures LocalInv(l.(store := l.store.(devices := l.store.devices[d := state])), d)
    ensures Untouched(l.store, l.store.(devices := l.store.devices[d := state]), d)
  {
    hide Jobs;
    hide Boundary;
    hide Telling;
    hide Replacing;
    hide RunningIds;
    hide H.Linked;
    hide H.Named;
  }

  lemma NoticeSteps(l: Local, d: string, kind: string, status: Option<(Availability, Activity)>, env: R.Env)
    requires LocalInv(l, d)
    ensures var l' := Next(l, d, Notices(kind, status), env); LocalInv(l', d) && Untouched(l.store, l'.store, d)
  {
    hide DeviceInv;
    hide H.Consistent;
    hide Untouched;
    EmitKeeps(l, d, Notice(kind));
    var noted := EmitNote(l, d, Notice(kind), Silent);
    if status.Some? {
      var state := noted.store.devices[d].(availability := status.value.0, activity := status.value.1);
      StatusKeeps(noted, d, state);
      FrameIsTransitive(l.store, noted.store, noted.store.(devices := noted.store.devices[d := state]), d);
    }
  }

  lemma RefreshSteps(l: Local, d: string, availability: Availability, env: R.Env)
    requires LocalInv(l, d)
    ensures var l' := Next(l, d, Refreshes(availability), env); LocalInv(l', d) && Untouched(l.store, l'.store, d)
  {
    hide DeviceInv;
    hide H.Consistent;
    hide Untouched;
    StatusKeeps(l, d, l.store.devices[d].(availability := availability));
  }

  lemma ClosePasses(w: Worker, o: Occupancy)
    requires Jobs(w, o) && w.task.Some?
    ensures Jobs(w.(task := Some(w.task.value.(stage := ClosedMonitor)), duplex := w.duplex.(session := None),
                    reader := None, closed := w.streams), o)
  {
    hide R.Completed;
    hide R.InputTags;
    hide QueueTags;
    var w' := w.(task := Some(w.task.value.(stage := ClosedMonitor)), duplex := w.duplex.(session := None),
                 reader := None, closed := w.streams);
    assert R.Outstanding(w'.duplex) == R.Outstanding(w.duplex);
    assert Owed(w') == Owed(w);
  }

  lemma CloseKeeps(l: Local, w: Worker, d: string)
    requires LocalInv(l, d) && Jobs(w, l.occupied) && Streams(w) && l.worker.closed <= w.closed
    ensures LocalInv(l.(worker := w), d)
  {
    hide Jobs;
    hide Replacing;
    hide Telling;
    hide H.Consistent;
    BoundaryMoves(l.notes, l.worker.closed, w.closed);
    hide Boundary;
  }

  lemma PrepareStep(l: Local, d: string, env: R.Env)
    requires LocalInv(l, d) && Enabled(l.worker, Prepares)
    ensures LocalInv(Prepare(l, d), d) && Untouched(l.store, Prepare(l, d).store, d)
  {
    hide Jobs;
    hide DeviceInv;
    hide H.Consistent;
    Parts(l, d);
    SameFrame(l.store, d);
    hide Untouched;
    var w := l.worker;
    if w.task.value.job.action.kind.Monitor? && w.duplex.session.Some? {
      TaskIsNoTag(w, KeptMonitor, l.occupied);
      WorkerOnly(l, Prepare(l, d).worker, d);
    } else {
      ClosePasses(w, l.occupied);
      TaskHoldsNothing(w, l.occupied);
      var closed := l.(worker := w.(task := Some(w.task.value.(stage := ClosedMonitor)),
                                    duplex := w.duplex.(session := None), reader := None, closed := w.streams));
      CloseKeeps(l, closed.worker, d);
      if w.duplex.session.Some? {
        EmitKeeps(closed, d, Notice("application_disconnected"));
      }
    }
  }

  lemma TaskHoldsNothing(w: Worker, o: Occupancy)
    requires Jobs(w, o) && w.task.Some?
    ensures w.held == [] && w.transit == []
  {
    hide Owed;
  }

  lemma SameFrame(s: StoreState, d: string)
    ensures Untouched(s, s, d)
  {
  }

  lemma PublishStep(l: Local, d: string, lines: seq<seq<bv8>>)
    requires LocalInv(l, d) && l.worker.held != []
    ensures LocalInv(Publish(l, d, lines), d) && Untouched(l.store, Publish(l, d, lines).store, d)
  {
    hide Jobs;
    hide Boundary;
    hide Telling;
    hide Replacing;
    hide RunningIds;
    hide H.Linked;
    hide H.Named;
    hide Notes;
    hide Bodies;
    var w := l.worker;
    var reading := ReadingOf(w.held[0], lines);
    HeldShrinks(w, l.occupied);
    if !l.store.devices[d].discardMonitorRead {
      assert Replacing(l.notes) == {};
      ReadingKeepsNotes(l.notes, reading, w.heldFrom, w.closed);
      TellReading(l, d, reading, w.heldFrom);
      NamesSurviveAll(l.store, d, Bodies(reading));
    }
  }

  lemma HeldShrinks(w: Worker, o: Occupancy)
    requires Jobs(w, o) && w.held != []
    ensures Jobs(w.(held := w.held[1..]), o)
  {
    hide R.Completed;
    hide R.Outstanding;
    hide QueueTags;
    hide HardwareIsAlone;
    assert Owed(w.(held := w.held[1..])) == Owed(w);
  }

  lemma ReadingKeepsNotes(notes: seq<Note>, r: Reading, stream: nat, closed: nat)
    requires Boundary(notes, closed) && Replacing(notes) == {} && closed < stream
    ensures Boundary(notes + Notes(r, stream), closed) && Replacing(notes + Notes(r, stream)) == {}
  {
    hide Boundary;
    hide Replacing;
    match r {
      case Console(_, lines) => HeardKeepsBoundary(notes, stream, 1 + |lines|, closed);
      case _ =>
        NoteReplacing(notes, Silent);
        NoteKeepsBoundary(notes, Silent, closed);
    }
  }

  lemma NamesSurviveAll(s: StoreState, d: string, bodies: seq<Body>)
    requires H.AllNamed(s) && d in s.logs
    ensures H.AllNamed(EmittedAll(s, d, bodies))
  {
    hide OperationId;
    forall i | 0 <= i < |s.operations| ensures H.Named(s.operations[i], s.epoch, EmittedAll(s, d, bodies).logs) {
      assert H.Named(s.operations[i], s.epoch, s.logs);
    }
  }

  // ---------- completions ----------

  /** An operation gets its final status: it is no longer running, and nothing else changes. */
  lemma StatusKeepsStore(s: StoreState, d: string, id: string, op: Operation, artifact: Option<Metadata>)
    requires H.Consistent(s) && id in RunningIds(s.operations, d) && Retained(s, id)
    requires var was := s.operations[Position(s.operations, id).value];
             op == was.(status := op.status, artifact := op.artifact) && !op.status.Running?
    ensures var ops := s.operations[Position(s.operations, id).value := op];
            var s' := s.(operations := ops,
                         artifacts := if artifact.Some? then s.artifacts[id := artifact.value] else s.artifacts);
            && H.Consistent(s')
            && RunningIds(ops, d) == RunningIds(s.operations, d) - {id}
            && forall e :: e != d ==> RunningIds(ops, e) == RunningIds(s.operations, e)
  {
    hide H.Named;
    hide Position;
    RunningIsRetained(s, d, id);
    var i := Position(s.operations, id).value;
    H.StatusIsLinked(s.operations, s.idempotency, s.artifacts, i, op, artifact);
    NamesKeep(s, i, op);
    UpdateRunning(s.operations, i, op, d);
    forall e | e != d ensures RunningIds(s.operations[i := op], e) == RunningIds(s.operations, e) {
      UpdateRunning(s.operations, i, op, e);
      NotElsewhere(s.operations, i, e);
    }
  }

  lemma NamesKeep(s: StoreState, i: nat, op: Operation)
    requires H.AllNamed(s) && i < |s.operations|
    requires op == s.operations[i].(status := op.status, artifact := op.artifact)
    ensures H.AllNamed(s.(operations := s.operations[i := op]))
  {
    hide OperationId;
    var ops := s.operations[i := op];
    forall j | 0 <= j < |ops| ensures H.Named(ops[j], s.epoch, s.logs) {
      assert H.Named(s.operations[j], s.epoch, s.logs);
    }
  }

  lemma NotElsewhere(ops: seq<Operation>, i: nat, e: string)
    requires H.DistinctIds(ops) && i < |ops| && ops[i].device != e
    ensures ops[i].id !in RunningIds(ops, e)
  {
  }

  lemma FirstIsRunning(l: Local, d: string)
    requires LocalInv(l, d) && l.worker.transit != []
    ensures var c := l.worker.transit[0];
            && R.Tag(c.key, c.lane) in Tags(l.occupied) && !(l.occupied.Exclusive? && l.occupied.replacing)
            && c.key in RunningIds(l.store.operations, d)
            && Retained(l.store, c.key)
  {
    hide R.Completed;
    hide R.Outstanding;
    hide QueueTags;
    hide Tags;
    hide IdsOf;
    hide Replacing;
    hide Telling;
    hide Boundary;
    hide RunningIds;
    hide Streams;
    hide H.Consistent;
    var c := l.worker.transit[0];
    CompletedFront(l.worker.transit);
    assert R.Tag(c.key, c.lane) in Owed(l.worker);
    CompletionReleases(l.occupied, c.key, c.lane, l.store.devices[d], false);
    RunningIsRetained(l.store, d, c.key);
  }

  lemma FirstIsOwed(w: Worker, o: Occupancy, s: DeviceState)
    requires Jobs(w, o) && w.transit != [] && Describes(s, o)
    requires R.Tag(w.transit[0].key, w.transit[0].lane) in Tags(o) && !(o.Exclusive? && o.replacing)
    ensures Jobs(w.(transit := w.transit[1..]), AfterCompletion(o, w.transit[0].lane))
  {
    hide R.Completed;
    hide R.Outstanding;
    hide QueueTags;
    hide Tags;
    var c := w.transit[0];
    CompletedFront(w.transit);
    CompletionReleases(o, c.key, c.lane, s, false);
    var w', o' := w.(transit := w.transit[1..]), AfterCompletion(o, c.lane);
    assert Owed(w) == multiset{R.Tag(c.key, c.lane)} + Owed(w');
    Same(multiset{R.Tag(c.key, c.lane)}, Owed(w'), Tags(o'));
    assert !(o'.Exclusive?);
  }

  lemma Same<T>(a: multiset<T>, b: multiset<T>, c: multiset<T>)
    requires a + b == a + c
    ensures b == c
  {
    assert b == (a + b) - a;
    assert c == (a + c) - a;
  }

  lemma FinishFirstKeeps(l: Local, d: string)
    requires LocalInv(l, d) && l.worker.transit != [] && Retained(l.store, l.worker.transit[0].key)
    ensures LocalInv(FinishFirst(l, d), d)
    ensures Untouched(l.store, FinishFirst(l, d).store, d)
    ensures |FinishFirst(l, d).store.operations| == |l.store.operations|
  {
    hide Jobs;
    hide Boundary;
    hide Telling;
    hide Replacing;
    hide RunningIds;
    hide Tags;
    hide IdsOf;
    hide Position;
    hide H.Linked;
    hide H.Named;
    hide AfterCompletion;
    hide Released;
    var c := l.worker.transit[0];
    var op := l.store.operations[Position(l.store.operations, c.key).value].(status := StatusOf(c.result));
    FirstIsRunning(l, d);
    FirstIsOwed(l.worker, l.occupied, l.store.devices[d]);
    CompletionReleases(l.occupied, c.key, c.lane, l.store.devices[d], l.worker.reader.Some?);
    StatusKeepsStore(l.store, d, c.key, op, None);
    RunningIsRetained(l.store, d, c.key);
    EndNote(l, d, c.key, None, op);
    NamesSurviveEnd(l, d, op, c.key);
  }

  lemma NamesSurviveEnd(l: Local, d: string, op: Operation, id: string)
    requires d in l.store.logs && Retained(l.store, id)
    requires H.AllNamed(l.store.(operations := l.store.operations[Position(l.store.operations, id).value := op]))
    ensures H.AllNamed(Emitted(l.store.(operations := l.store.operations[Position(l.store.operations, id).value := op]),
                               d, OperationFinished(op)))
  {
    hide Position;
    hide H.Named;
    H.NamesSurvive(l.store.(operations := l.store.operations[Position(l.store.operations, id).value := op]), d,
                   OperationFinished(op));
  }

  lemma EndNote(l: Local, d: string, id: string, closed: Option<nat>, op: Operation)
    requires d in l.store.logs && Boundary(l.notes, l.worker.closed) && op.id == id
    requires closed.Some? ==> closed.value <= l.worker.closed
    requires Telling(l.notes, l.store.logs[d], l.store.epoch, d)
    ensures Boundary(l.notes + [Ended(id, closed)], l.worker.closed)
    ensures Replacing(l.notes + [Ended(id, closed)]) == Replacing(l.notes) - {id}
    ensures Telling(l.notes + [Ended(id, closed)], l.store.logs[d] + [OperationFinished(op)], l.store.epoch, d)
  {
    hide Boundary;
    hide Telling;
    hide Replacing;
    NoteReplacing(l.notes, Ended(id, closed));
    NoteKeepsBoundary(l.notes, Ended(id, closed), l.worker.closed);
    TellMore(l.notes, l.store.logs[d], l.store.epoch, d, Ended(id, closed), OperationFinished(op));
  }

  /** Every completion of a round finds its operation. */
  lemma {:induction false} TransitIsRetained(l: Local, d: string)
    requires LocalInv(l, d)
    ensures AllRetained(l.store, l.worker.transit)
    decreases |l.worker.transit|
  {
    hide LocalInv;
    hide Retained;
    if l.worker.transit != [] {
      InStore(l, d);
      FirstIsRunning(l, d);
      FinishFirstKeeps(l, d);
      var next := FinishFirst(l, d);
      TransitIsRetained(next, d);
      forall i | 0 <= i < |l.worker.transit| ensures Retained(l.store, l.worker.transit[i].key) {
        if i > 0 {
          assert Retained(next.store, next.worker.transit[i - 1].key);
          StillRetained(l, d, l.worker.transit[i].key);
        }
      }
    }
  }

  lemma InStore(l: Local, d: string)
    requires LocalInv(l, d)
    ensures d in l.store.devices && d in l.store.logs
  {
  }

  lemma StillRetained(l: Local, d: string, id: string)
    requires d in l.store.devices && d in l.store.logs
    requires l.worker.transit != [] && Retained(l.store, l.worker.transit[0].key)
    requires Retained(FinishFirst(l, d).store, id)
    ensures Retained(l.store, id)
  {
    hide Position;
    FinishedOneKeepsPositions(l.store, d, l.worker.transit[0], l.worker.reader.Some?);
  }

  lemma {:induction false} FinishKeeps(l: Local, d: string)
    requires LocalInv(l, d) && d in l.store.devices && d in l.store.logs && AllRetained(l.store, l.worker.transit)
    ensures LocalInv(Finish(l, d), d) && Untouched(l.store, Finish(l, d).store, d)
    ensures |Finish(l, d).store.operations| == |l.store.operations|
    decreases |l.worker.transit|
  {
    hide LocalInv;
    hide Retained;
    hide FinishFirst;
    hide Untouched;
    if l.worker.transit == [] {
      SameFrame(l.store, d);
    } else {
      RestIsRetained(l, d);
      FinishFirstKeeps(l, d);
      var next := FinishFirst(l, d);
      InStore(next, d);
      FinishShrinks(l, d);
      FinishKeeps(next, d);
      FrameIsTransitive(l.store, next.store, Finish(l, d).store, d);
    }
  }

  lemma FinishShrinks(l: Local, d: string)
    requires d in l.store.devices && d in l.store.logs
    requires l.worker.transit != [] && Retained(l.store, l.worker.transit[0].key)
    ensures |FinishFirst(l, d).worker.transit| == |l.worker.transit| - 1
  {
  }

  // ---------- the end of a hardware operation ----------

  lemma HardwareOccupies(l: Local, d: string)
    requires LocalInv(l, d) && l.worker.task.Some? && l.worker.task.value.job.action.Hardware?
    ensures var id := l.worker.task.value.job.id;
            && l.occupied == Exclusive(id, true) && id in RunningIds(l.store.operations, d)
            && Retained(l.store, id) && Jobs(l.worker.(task := None), Free)
  {
    hide Replacing;
    hide Telling;
    hide Boundary;
    hide RunningIds;
    hide Streams;
    hide QueueTags;
    hide R.Completed;
    hide R.Outstanding;
    hide H.Consistent;
    var id := l.worker.task.value.job.id;
    assert l.occupied == Exclusive(id, true);
    RunningIsRetained(l.store, d, id);
    var w' := l.worker.(task := None);
    assert Owed(l.worker) == multiset{JobTag(l.worker.task.value.job)} + Owed(w');
    Same(multiset{JobTag(l.worker.task.value.job)}, Owed(w'), multiset{});
    assert QueueTags(w'.queue) == multiset{};
    QueueSize(w'.queue);
  }

  lemma CompleteStep(l: Local, d: string, outcome: Outcome)
    requires LocalInv(l, d) && Enabled(l.worker, Completes(outcome)) && Retained(l.store, l.worker.task.value.job.id)
    ensures LocalInv(Complete(l, d, outcome), d) && Untouched(l.store, Complete(l, d, outcome).store, d)
    ensures |Complete(l, d, outcome).store.operations| == |l.store.operations|
  {
    hide Jobs;
    hide Boundary;
    hide Telling;
    hide Replacing;
    hide RunningIds;
    hide Position;
    hide H.Linked;
    hide H.Named;
    var task := l.worker.task.value;
    var id := task.job.id;
    HardwareOccupies(l, d);
    RunningIsRetained(l.store, d, id);
    var before := l.store.operations[Position(l.store.operations, id).value];
    var op := match outcome
              case Worked(result, artifact) => before.(status := Succeeded(result), artifact := artifact)
              case Broke => before.(status := HardwareFailed);
    StatusKeepsStore(l.store, d, id, op, if outcome.Worked? then outcome.artifact else None);
    EndNote(l, d, id, if task.stage.KeptMonitor? then None else Some(l.worker.closed), op);
    NamesSurviveEnd(l, d, op, id);
  }

  // ---------- admission ----------

  lemma QueueIsSmall(w: Worker, o: Occupancy)
    requires Jobs(w, o)
    ensures |w.queue| <= |Tags(o)|
  {
    hide R.Completed;
    hide R.Outstanding;
    hide QueueTags;
    hide Tags;
    QueueSize(w.queue);
    var rest := TaskTags(w.task) + R.Outstanding(w.duplex) + R.Completed(w.transit);
    assert Owed(w) == QueueTags(w.queue) + rest;
  }

  lemma ShortQueueAdmits(l: Local, d: string, action: Action, key: string, fingerprint: string)
    requires d in l.store.devices && d in l.store.logs && Replayable(l.store, key)
    requires var s := l.store.devices[d]; !(s.busy && !Compatible(s, action)) ==> |l.worker.queue| < CHANNEL
    ensures !Submit(l, d, action, key, fingerprint).1.WorkerUnavailable?
  {
    hide Recorded;
    hide Unrecorded;
    hide Compatible;
    hide OperationId;
    hide Position;
  }

  /** A job that may be admitted always fits into the channel: submit never finds it full. */
  lemma ChannelHasRoom(l: Local, d: string, action: Action, key: string, fingerprint: string)
    requires LocalInv(l, d) && Replayable(l.store, key)
    ensures !Submit(l, d, action, key, fingerprint).1.WorkerUnavailable?
    ensures |l.worker.queue| <= CHANNEL
  {
    hide Jobs;
    hide DeviceInv;
    hide Describes;
    hide Compatible;
    hide Submit;
    hide Tags;
    hide H.Consistent;
    Parts(l, d);
    QueueIsSmall(l.worker, l.occupied);
    OccupancyIsSmall(l.occupied);
    var s := l.store.devices[d];
    if !(s.busy && !Compatible(s, action)) {
      AdmissionTags(l.occupied, action, "", s);
    }
    ShortQueueAdmits(l, d, action, key, fingerprint);
  }

  lemma QueueOwes(w: Worker, job: Job)
    ensures Owed(w.(queue := w.queue + [job])) == Owed(w) + multiset{JobTag(job)}
  {
    hide R.Completed;
    hide R.Outstanding;
    hide QueueTags;
    QueuePush(w.queue, job);
    var rest := TaskTags(w.task) + R.Outstanding(w.duplex) + R.Completed(w.transit);
    assert Owed(w) == QueueTags(w.queue) + rest;
    assert Owed(w.(queue := w.queue + [job])) == QueueTags(w.queue + [job]) + rest;
  }

  lemma AdmittedJob(w: Worker, o: Occupancy, action: Action, id: string, s: DeviceState)
    requires Jobs(w, o) && Describes(s, o) && !(s.busy && !Compatible(s, action)) && id !in IdsOf(o)
    ensures Jobs(w.(queue := w.queue + [Job(id, action)]), AfterAdmission(o, action, id))
  {
    hide Owed;
    hide R.Outstanding;
    hide Tags;
    hide AfterAdmission;
    hide Describes;
    hide Compatible;
    hide IdsOf;
    var o' := AfterAdmission(o, action, id);
    AdmissionTags(o, action, id, s);
    AdmissionOccupies(o, action, id, s, Busy);
    QueueOwes(w, Job(id, action));
    if action.Hardware? {
      NothingIsOwed(w, o);
    } else {
      StreamsStayStreams(w, o, o', action);
    }
  }

  lemma NothingIsOwed(w: Worker, o: Occupancy)
    requires Jobs(w, o) && o == Free
    ensures w.queue == [] && w.task.None? && w.transit == [] && R.Outstanding(w.duplex) == multiset{}
  {
    hide R.Completed;
    hide R.Outstanding;
    hide QueueTags;
    assert QueueTags(w.queue) <= Owed(w) && R.Completed(w.transit) <= Owed(w);
    QueueSize(w.queue);
    NothingCompleted(w.transit);
  }

  lemma StreamsStayStreams(w: Worker, o: Occupancy, o': Occupancy, action: Action)
    requires Jobs(w, o) && !(o.Exclusive? && o.replacing) && !action.Hardware?
    requires !(o'.Exclusive? && o'.replacing)
    ensures forall i :: 0 <= i < |w.queue| ==> HardwareIsAlone(w.queue[i], o')
    ensures w.task.Some? ==> HardwareIsAlone(w.task.value.job, o')
  {
    hide Owed;
  }

  lemma FinishedPush(ops: seq<Operation>, op: Operation)
    requires op.status.Running?
    ensures Finished(ops + [op]) == Finished(ops)
  {
    assert (ops + [op])[..|ops + [op]| - 1] == ops;
  }

  /** The store's side of an admission. */
  lemma RecordedSteps(s: StoreState, d: string, action: Action, key: string, fingerprint: string)
    requires H.Consistent(s) && d in s.devices && d in s.logs && key !in s.idempotency
    ensures var (r, op) := Recorded(s, d, action, key, fingerprint);
            && H.Consistent(r) && Untouched(s, r, d) && Finished(r.operations) < HISTORY
            && op.id == OperationId(s.epoch, d, |s.logs[d]| + 1)
            && RunningIds(r.operations, d) == RunningIds(s.operations, d) + {op.id}
            && op.id !in RunningIds(s.operations, d)
  {
    hide Recorded;
    hide Evicted;
    hide RunningIds;
    hide Finished;
    hide H.Linked;
    hide H.Named;
    hide H.Shortened;
    hide OperationId;
    H.RecordedKeeps(s, d, action, key, fingerprint);
    H.RecordedDevice(s, d, action, key, fingerprint);
    var (r, op) := Recorded(s, d, action, key, fingerprint);
    var kept := Evicted(H.Starting(s, d, action)).operations;
    FinishedPush(kept, op);
    forall e ensures RunningIds(r.operations, e) == RunningIds(s.operations, e) + if e == d then {op.id} else {} {
      ShortenedRunning(s.operations, kept, e);
      PushRunning(kept, op, e);
    }
    NotRunning(s.operations, op.id, d);
  }

  lemma NotRunning(ops: seq<Operation>, id: string, d: string)
    requires forall i :: 0 <= i < |ops| ==> ops[i].id != id
    ensures id !in RunningIds(ops, d)
  {
  }

  lemma StartNote(l: Local, d: string, id: string, replacing: bool)
    requires d in l.store.logs && Boundary(l.notes, l.worker.closed)
    requires Telling(l.notes, l.store.logs[d], l.store.epoch, d)
    requires id == OperationId(l.store.epoch, d, |l.store.logs[d]| + 1)
    ensures Boundary(l.notes + [Started(id, replacing)], l.worker.closed)
    ensures Replacing(l.notes + [Started(id, replacing)])
         == if replacing then Replacing(l.notes) + {id} else Replacing(l.notes)
    ensures Telling(l.notes + [Started(id, replacing)], l.store.logs[d] + [OperationStarted], l.store.epoch, d)
  {
    hide Boundary;
    hide Telling;
    hide Replacing;
    hide OperationId;
    NoteReplacing(l.notes, Started(id, replacing));
    NoteKeepsBoundary(l.notes, Started(id, replacing), l.worker.closed);
    TellMore(l.notes, l.store.logs[d], l.store.epoch, d, Started(id, replacing), OperationStarted);
  }

  lemma AdmittedKeeps(l: Local, d: string, action: Action, key: string, fingerprint: string)
    requires LocalInv(l, d) && key !in l.store.idempotency
    requires !(l.store.devices[d].busy && !Compatible(l.store.devices[d], action))
    ensures var (store, op) := Recorded(l.store, d, action, key, fingerprint);
            var l' := Local(store, l.worker.(queue := l.worker.queue + [Job(op.id, action)]),
                            AfterAdmission(l.occupied, action, op.id),
                            l.notes + [Started(op.id, ReplacesMonitor(action))]);
            LocalInv(l', d) && Untouched(l.store, store, d) && Finished(store.operations) < HISTORY
  {
    hide Jobs;
    hide Boundary;
    hide Telling;
    hide Replacing;
    hide RunningIds;
    hide Recorded;
    hide Finished;
    hide AfterAdmission;
    hide Occupied;
    hide Compatible;
    hide IdsOf;
    hide Describes;
    hide OperationId;
    hide H.Consistent;
    hide Untouched;
    var (store, op) := Recorded(l.store, d, action, key, fingerprint);
    H.RecordedDevice(l.store, d, action, key, fingerprint);
    RecordedSteps(l.store, d, action, key, fingerprint);
    AdmissionOccupies(l.occupied, action, op.id, l.store.devices[d], Busy);
    AdmittedJob(l.worker, l.occupied, action, op.id, l.store.devices[d]);
    StartNote(l, d, op.id, ReplacesMonitor(action));
  }

  lemma SubmitStep(l: Local, d: string, action: Action, key: string, fingerprint: string)
    requires LocalInv(l, d) && Replayable(l.store, key)
    ensures var l' := Submit(l, d, action, key, fingerprint).0;
            LocalInv(l', d) && Untouched(l.store, l'.store, d) && Growth(l.store, l'.store)
  {
    hide LocalInv;
    hide Recorded;
    hide Untouched;
    hide Compatible;
    hide Finished;
    hide OperationId;
    hide Position;
    InStore(l, d);
    SameFrame(l.store, d);
    ChannelHasRoom(l, d, action, key, fingerprint);
    if key !in l.store.idempotency && !(l.store.devices[d].busy && !Compatible(l.store.devices[d], action)) {
      AdmittedKeeps(l, d, action, key, fingerprint);
      RecordedId(l.store, d, action, key, fingerprint);
    }
  }

  lemma RecordedId(s: StoreState, d: string, action: Action, key: string, fingerprint: string)
    requires d in s.devices && d in s.logs
    ensures Recorded(s, d, action, key, fingerprint).1.id == OperationId(s.epoch, d, |s.logs[d]| + 1)
  {
    hide OperationId;
    hide Evicted;
  }
}
