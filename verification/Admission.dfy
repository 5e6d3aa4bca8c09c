/**
 The service of src/server.rs as a protocol: submitters under the lock, and one worker per device that takes
 jobs from its channel, drives the stream scheduler, reads, publishes and completes. Each locked region is one
 step; a read and its publication are separate steps.
 */
module Admission {
  import opened Mux
  import opened Device
  import opened Store
  import A = Application
  import D = Duplex
  import R = DuplexRuns

  /** How far a hardware operation is: dequeued, monitor kept, monitor closed, new monitor opened. */
  datatype Stage = Taken | KeptMonitor | ClosedMonitor | OpenedMonitor

  datatype Task = Task(job: Job, stage: Stage)

  /** The channel and the local variables of one worker. Streams are numbered as they are opened. */
  datatype Worker = Worker(
    queue: seq<Job>,
    task: Option<Task>,
    duplex: D.DuplexState,
    transit: seq<D.Completion>,
    held: seq<A.Output>,
    heldFrom: nat,
    reader: Option<nat>,
    streams: nat,
    closed: nat)

  const NEW_WORKER := Worker([], None, D.EMPTY, [], [], 0, None, 0, 0)

  // ---------- history ----------

  /** The operations a device is occupied by. */
  datatype Occupancy =
    | Free
    | Exclusive(id: string, replacing: bool)
    | Lanes(application: Option<string>, input: Option<string>)

  /** What an event of a device's log stands for; Ended names the streams opened before the monitor was closed. */
  datatype Note =
    | Started(id: string, replacing: bool)
    | Ended(id: string, closed: Option<nat>)
    | Heard(stream: nat)
    | Silent

  /** One device, with the store it shares. */
  datatype Local = Local(store: StoreState, worker: Worker, occupied: Occupancy, notes: seq<Note>)

  datatype World = World(
    store: StoreState,
    workers: map<string, Worker>,
    occupied: map<string, Occupancy>,
    notes: map<string, seq<Note>>)

  function AfterAdmission(o: Occupancy, action: Action, id: string): Occupancy {
    if IsRequest(action) then Lanes(Some(id), if o.Lanes? then o.input else None)
    else if action.SerialWrite? then Lanes(if o.Lanes? then o.application else None, Some(id))
    else Exclusive(id, ReplacesMonitor(action))
  }

  function AfterCompletion(o: Occupancy, lane: D.Lane): Occupancy {
    match o
    case Lanes(a, i) =>
      if lane == D.ApplicationLane then (if i.Some? then Lanes(None, i) else Free)
      else (if a.Some? then Lanes(a, None) else Free)
    case _ => Free
  }

  // ---------- the steps of one device ----------

  predicate IsStream(action: Action) {
    !action.Hardware?
  }

  function LaneOf(action: Action): D.Lane {
    if action.SerialWrite? then D.InputLane else D.ApplicationLane
  }

  /** Between two rounds of the worker's loop. */
  predicate Resting(w: Worker) {
    w.task.None? && w.transit == [] && w.held == []
  }

  predicate HasPending(s: D.DuplexState) {
    s.pending.Some? || s.tx != []
  }

  datatype ReaderChange = SameReader | NoReader | NewReader

  /** The call a stream job makes. */
  predicate CallOf(job: Job, c: R.Call) {
    match job.action
    case Application(Some(command)) => c.Request? && c.key == job.id && c.command == command
    case Application(None) => c.Connect? && c.key == job.id
    case SerialWrite(data) => c.Input? && c.key == job.id && c.data == data
    case _ => false
  }

  datatype Step =
    | Submits(action: Action, key: string, fingerprint: string)
    | TakesJob
    | Prepares
    | OpensMonitor
    | Completes(outcome: Outcome)
    | Declines(failure: D.Failure, change: ReaderChange)
    | Starts(call: R.Call, failure: D.Failure, change: ReaderChange)
    | Ticks(call: R.Call, reason: string)
    | Reads(call: R.Call, reason: string)
    | Publishes(lines: seq<seq<bv8>>)
    | Finishes
    | LosesReader
    | AbortsLost(reason: string)
    | Reopens
    | Notices(kind: string, status: Option<(Availability, Activity)>)
    | Refreshes(availability: Availability)

  /** A hardware operation ends well with a monitor, except an erase, which leaves the device in download mode. */
  predicate Ending(task: Task, outcome: Outcome) {
    && task.job.action.Hardware?
    && match task.stage
       case Taken => false
       case KeptMonitor => outcome.Worked? ==> outcome.artifact.None?
       case ClosedMonitor => outcome.Worked? ==> task.job.action.kind.EraseFlash? && outcome.artifact.None?
       case OpenedMonitor => outcome.Worked? && (outcome.artifact.Some? <==> task.job.action.kind.ReadFlash?)
  }

  predicate Enabled(w: Worker, step: Step) {
    match step
    case Submits(_, _, _) => true
    case TakesJob => Resting(w) && w.queue != []
    case Prepares => w.task.Some? && w.task.value.job.action.Hardware? && w.task.value.stage.Taken?
    case OpensMonitor =>
      w.task.Some? && w.task.value.stage.ClosedMonitor? && w.task.value.job.action.Hardware?
      && !w.task.value.job.action.kind.EraseFlash?
    case Completes(outcome) => w.task.Some? && Ending(w.task.value, outcome)
    case Declines(failure, change) =>
      w.task.Some? && IsStream(w.task.value.job.action) && (change.SameReader? || !HasPending(w.duplex))
    case Starts(call, _, change) =>
      && w.task.Some? && CallOf(w.task.value.job, call)
      && (change.SameReader? || !HasPending(w.duplex))
      && (change.SameReader? ==> w.reader.Some?) && !change.NoReader?
    case Ticks(call, _) => Resting(w) && w.reader.Some? && call.TickCall? && R.Allowed(w.duplex, call)
    case Reads(call, _) => Resting(w) && w.reader.Some? && call.FeedCall?
    case Publishes(_) => w.held != []
    case Finishes => w.held == [] && w.transit != []
    case LosesReader => Resting(w)
    case AbortsLost(_) => Resting(w) && w.reader.None? && (w.duplex.session.Some? || HasPending(w.duplex))
    case Reopens => Resting(w) && w.reader.None?
    case Notices(_, _) => true
    case Refreshes(_) => true
  }

  function ChangeReader(w: Worker, change: ReaderChange): Worker {
    match change
    case SameReader => w
    case NoReader => w.(reader := None)
    case NewReader => w.(reader := Some(w.streams + 1), streams := w.streams + 1)
  }

  function EmitNote(l: Local, d: string, body: Body, note: Note): Local
    requires d in l.store.logs
  {
    l.(store := Emitted(l.store, d, body), notes := l.notes + [note])
  }

  function Submit(l: Local, d: string, action: Action, key: string, fingerprint: string): (Local, Admission)
    requires d in l.store.devices && d in l.store.logs && Replayable(l.store, key)
  {
    var (store, r) := Admit(l.store, d, action, key, fingerprint, |l.worker.queue|);
    var after := |l.store.logs[d]| + 1;
    var note := Started(OperationId(l.store.epoch, d, after), ReplacesMonitor(action));
    match r
    case Admitted(op) =>
      (Local(store, l.worker.(queue := l.worker.queue + [Job(op.id, action)]),
             AfterAdmission(l.occupied, action, op.id), l.notes + [note]), r)
    case WorkerUnavailable => (l.(store := store, notes := l.notes + [note]), r)
    case _ => (l, r)
  }

  /** Keeps the monitor of a negotiated session for a monitor operation, and closes it for every other one. */
  function Prepare(l: Local, d: string): Local
    requires d in l.store.logs && l.worker.task.Some? && l.worker.task.value.job.action.Hardware?
  {
    var w := l.worker;
    var task := w.task.value;
    if task.job.action.kind.Monitor? && w.duplex.session.Some? then
      l.(worker := w.(task := Some(task.(stage := KeptMonitor))))
    else
      var closed := l.(worker := w.(task := Some(task.(stage := ClosedMonitor)), duplex := w.duplex.(session := None),
                                    reader := None, closed := w.streams));
      if w.duplex.session.Some? then EmitNote(closed, d, Notice("application_disconnected"), Silent) else closed
  }

  function Complete(l: Local, d: string, outcome: Outcome): Local
    requires d in l.store.devices && d in l.store.logs
    requires l.worker.task.Some? && Retained(l.store, l.worker.task.value.job.id)
  {
    var task := l.worker.task.value;
    Local(FinishedHardware(l.store, d, task.job.id, outcome, l.worker.reader.Some?),
          l.worker.(task := None),
          Free,
          l.notes + [Ended(task.job.id, if task.stage.KeptMonitor? then None else Some(l.worker.closed))])
  }

  /** A stream job that could not be started ends with an error. */
  function Decline(w: Worker, failure: D.Failure): Worker
    requires w.task.Some?
  {
    var job := w.task.value.job;
    w.(task := None, transit := [D.Completion(job.id, LaneOf(job.action), D.Failed(failure))])
  }

  function Start(w: Worker, call: R.Call, failure: D.Failure, env: R.Env): Worker
    requires w.task.Some? && R.Allowed(w.duplex, call)
  {
    var (duplex, e) := R.Apply(w.duplex, call, env);
    if e.started == [] then Decline(w.(duplex := duplex), failure) else w.(duplex := duplex, task := None)
  }

  function Aborted(w: Worker, reason: string): Worker {
    var (duplex, done) := D.AbortStep(w.duplex, reason);
    w.(duplex := duplex, transit := done)
  }

  function Tick(w: Worker, call: R.Call, reason: string): Worker
    requires call.TickCall? && R.Allowed(w.duplex, call)
  {
    var (duplex, r) := D.TickStep(w.duplex, call.readings, call.outcome, call.now);
    match r
    case Ticked(done, _) => w.(duplex := duplex, transit := done)
    case TickFailed(_) => Aborted(w, reason).(reader := None)
  }

  function Read(w: Worker, call: R.Call, reason: string, env: R.Env): Worker
    requires call.FeedCall? && w.reader.Some?
  {
    if w.duplex.session.None? then w.(held := [A.Console(call.bytes)], heldFrom := w.reader.value)
    else
      var (duplex, r) := D.FeedStep(w.duplex, call.bytes, call.before, call.after, env.parse);
      match r
      case Fed(done, outputs) => w.(duplex := duplex, transit := done, held := outputs, heldFrom := w.reader.value)
      case FeedFailed(_, outputs) =>
        Aborted(w.(duplex := duplex), reason).(held := outputs, heldFrom := w.reader.value)
  }

  function ReadingOf(output: A.Output, lines: seq<seq<bv8>>): Reading {
    match output
    case Console(data) => Reading.Console(data, lines)
    case Event(value) => Happened(value)
    case CorruptFrame => Garbled
  }

  function Repeat(note: Note, n: nat): (r: seq<Note>)
    ensures |r| == n && forall i :: 0 <= i < n ==> r[i] == note
  {
    seq(n, _ => note)
  }

  function Notes(r: Reading, stream: nat): seq<Note> {
    match r
    case Console(_, lines) => Repeat(Heard(stream), 1 + |lines|)
    case _ => [Silent]
  }

  function Publish(l: Local, d: string, lines: seq<seq<bv8>>): Local
    requires d in l.store.devices && d in l.store.logs && l.worker.held != []
  {
    var w := l.worker;
    var reading := ReadingOf(w.held[0], lines);
    Local(Published(l.store, d, reading), w.(held := w.held[1..]), l.occupied,
          if l.store.devices[d].discardMonitorRead then l.notes else l.notes + Notes(reading, w.heldFrom))
  }

  function FinishFirst(l: Local, d: string): Local
    requires d in l.store.devices && d in l.store.logs
    requires l.worker.transit != [] && Retained(l.store, l.worker.transit[0].key)
  {
    var c := l.worker.transit[0];
    Local(FinishedOne(l.store, d, c, l.worker.reader.Some?), l.worker.(transit := l.worker.transit[1..]),
          AfterCompletion(l.occupied, c.lane), l.notes + [Ended(c.key, None)])
  }

  lemma RestIsRetained(l: Local, d: string)
    requires d in l.store.devices && d in l.store.logs
    requires l.worker.transit != [] && AllRetained(l.store, l.worker.transit)
    ensures Retained(l.store, l.worker.transit[0].key)
    ensures var next := FinishFirst(l, d); AllRetained(next.store, next.worker.transit)
  {
    assert Retained(l.store, l.worker.transit[0].key);
    FinishedOneKeepsPositions(l.store, d, l.worker.transit[0], l.worker.reader.Some?);
    var next := FinishFirst(l, d);
    forall i | 0 <= i < |next.worker.transit| ensures Retained(next.store, next.worker.transit[i].key) {
      assert Retained(l.store, l.worker.transit[i + 1].key);
    }
  }

  /** All completions of one round, under one lock. */
  function Finish(l: Local, d: string): Local
    requires d in l.store.devices && d in l.store.logs && AllRetained(l.store, l.worker.transit)
    decreases |l.worker.transit|
  {
    if l.worker.transit == [] then l
    else
      assert Retained(l.store, l.worker.transit[0].key);
      RestIsRetained(l, d);
      Finish(FinishFirst(l, d), d)
  }

  /** What the lock-held lookups need: the operations they look for are retained. */
  predicate Findable(l: Local, step: Step) {
    match step
    case Submits(_, key, _) => Replayable(l.store, key)
    case Completes(_) => l.worker.task.Some? && Retained(l.store, l.worker.task.value.job.id)
    case Finishes => AllRetained(l.store, l.worker.transit)
    case _ => true
  }

  function Next(l: Local, d: string, step: Step, env: R.Env): Local
    requires d in l.store.devices && d in l.store.logs && Enabled(l.worker, step) && Findable(l, step)
  {
    var w := l.worker;
    match step
    case Submits(action, key, fingerprint) => Submit(l, d, action, key, fingerprint).0
    case TakesJob => l.(worker := w.(queue := w.queue[1..], task := Some(Task(w.queue[0], Taken))))
    case Prepares => Prepare(l, d)
    case OpensMonitor =>
      l.(worker := w.(task := Some(w.task.value.(stage := OpenedMonitor)), reader := Some(w.streams + 1),
                     streams := w.streams + 1))
    case Completes(outcome) => Complete(l, d, outcome)
    case Declines(failure, change) => l.(worker := Decline(ChangeReader(w, change), failure))
    case Starts(call, failure, change) => l.(worker := Start(ChangeReader(w, change), call, failure, env))
    case Ticks(call, reason) => l.(worker := Tick(w, call, reason))
    case Reads(call, reason) => l.(worker := Read(w, call, reason, env))
    case Publishes(lines) => Publish(l, d, lines)
    case Finishes => Finish(l, d)
    case LosesReader => l.(worker := w.(reader := None))
    case AbortsLost(reason) => l.(worker := Aborted(w, reason))
    case Reopens => l.(worker := w.(reader := Some(w.streams + 1), streams := w.streams + 1))
    case Notices(kind, status) =>
      var noted := EmitNote(l, d, Notice(kind), Silent);
      if status.None? then noted
      else noted.(store := noted.store.(devices := noted.store.devices[d :=
             noted.store.devices[d].(availability := status.value.0, activity := status.value.1)]))
    case Refreshes(availability) =>
      l.(store := l.store.(devices := l.store.devices[d := l.store.devices[d].(availability := availability)]))
  }

  // ---------- what is owed ----------

  function JobTag(job: Job): R.Tag {
    R.Tag(job.id, LaneOf(job.action))
  }

  function QueueTags(queue: seq<Job>): multiset<R.Tag> {
    if queue == [] then multiset{} else QueueTags(queue[..|queue| - 1]) + multiset{JobTag(queue[|queue| - 1])}
  }

  function TaskTags(task: Option<Task>): multiset<R.Tag> {
    if task.Some? then multiset{JobTag(task.value.job)} else multiset{}
  }

  /** Queued jobs, the job being executed, what the scheduler owes, and completions on their way to the store. */
  function Owed(w: Worker): multiset<R.Tag> {
    QueueTags(w.queue) + TaskTags(w.task) + R.Outstanding(w.duplex) + R.Completed(w.transit)
  }

  function LaneTag(id: Option<string>, lane: D.Lane): multiset<R.Tag> {
    if id.Some? then multiset{R.Tag(id.value, lane)} else multiset{}
  }

  function Tags(o: Occupancy): multiset<R.Tag> {
    match o
    case Free => multiset{}
    case Exclusive(id, _) => multiset{R.Tag(id, D.ApplicationLane)}
    case Lanes(a, i) => LaneTag(a, D.ApplicationLane) + LaneTag(i, D.InputLane)
  }

  function IdSet(id: Option<string>): set<string> {
    if id.Some? then {id.value} else {}
  }

  function IdsOf(o: Occupancy): set<string> {
    match o
    case Free => {}
    case Exclusive(id, _) => {id}
    case Lanes(a, i) => IdSet(a) + IdSet(i)
  }

  // ---------- the invariant ----------

  /** The flags say which lanes are taken, and by what kind of operation. */
  predicate Describes(s: DeviceState, o: Occupancy) {
    && s.busy == !o.Free?
    && s.applicationPending == (o.Lanes? && o.application.Some?)
    && s.inputPending == (o.Lanes? && o.input.Some?)
    && s.discardMonitorRead == (o.Exclusive? && o.replacing)
    && (o.Lanes? ==> o.application.Some? || o.input.Some?)
    && (o.Lanes? && o.application.Some? && o.input.Some? ==> o.application != o.input)
  }

  /** A hardware operation occupies its device alone. */
  predicate HardwareIsAlone(job: Job, o: Occupancy) {
    && (job.action.Hardware? ==> o == Exclusive(job.id, true))
    && (o.Exclusive? && o.replacing ==> job.action.Hardware?)
  }

  predicate Jobs(w: Worker, o: Occupancy) {
    && Owed(w) == Tags(o)
    && (forall i :: 0 <= i < |w.queue| ==> HardwareIsAlone(w.queue[i], o))
    && (w.task.Some? ==> HardwareIsAlone(w.task.value.job, o))
    && (w.task.Some? ==> w.transit == [] && w.held == [])
    && (o.Exclusive? && o.replacing ==> w.transit == [] && R.Outstanding(w.duplex) == multiset{})
  }

  function After(running: set<string>, note: Note): set<string> {
    match note
    case Started(id, replacing) => if replacing then running + {id} else running
    case Ended(id, _) => running - {id}
    case _ => running
  }

  /** The monitor-replacing operations that have started and not ended. */
  function Replacing(notes: seq<Note>): set<string> {
    if notes == [] then {} else After(Replacing(notes[..|notes| - 1]), notes[|notes| - 1])
  }

  predicate Streams(w: Worker) {
    && w.closed <= w.streams
    && (w.reader.Some? ==> w.closed < w.reader.value)
    && (w.held != [] ==> w.closed < w.heldFrom)
  }

  /** No console event while the monitor is being replaced, and none from a stream closed by then. */
  predicate Boundary(notes: seq<Note>, closed: nat) {
    && (forall i :: 0 <= i < |notes| && notes[i].Ended? && notes[i].closed.Some? ==> notes[i].closed.value <= closed)
    && (forall i, j :: 0 <= i < j < |notes| && notes[i].Ended? && notes[i].closed.Some? && notes[j].Heard? ==>
          notes[i].closed.value < notes[j].stream)
    && (forall j :: 0 <= j < |notes| && notes[j].Heard? ==> Replacing(notes[..j]) == {})
  }

  /** The note that belongs to an event. */
  predicate Tells(note: Note, body: Body, id: string) {
    match body
    case OperationStarted => note.Started? && note.id == id
    case OperationFinished(op) => note.Ended? && note.id == op.id
    case RawOutput(_) => note.Heard?
    case LogLine(_) => note.Heard?
    case _ => note.Silent?
  }

  predicate Telling(notes: seq<Note>, log: seq<Body>, epoch: string, d: string) {
    && |notes| == |log|
    && forall i :: 0 <= i < |log| ==> Tells(notes[i], log[i], OperationId(epoch, d, i + 1))
  }

  function ReplacedBy(o: Occupancy): set<string> {
    if o.Exclusive? && o.replacing then {o.id} else {}
  }

  function RunningIds(operations: seq<Operation>, d: string): set<string> {
    set i | 0 <= i < |operations| && operations[i].device == d && operations[i].status.Running? :: operations[i].id
  }

  predicate DeviceInv(l: Local, d: string)
    requires d in l.store.devices && d in l.store.logs
  {
    && Describes(l.store.devices[d], l.occupied)
    && Jobs(l.worker, l.occupied)
    && Streams(l.worker)
    && Boundary(l.notes, l.worker.closed)
    && Replacing(l.notes) == ReplacedBy(l.occupied)
    && Telling(l.notes, l.store.logs[d], l.store.epoch, d)
    && RunningIds(l.store.operations, d) == IdsOf(l.occupied)
  }
}
