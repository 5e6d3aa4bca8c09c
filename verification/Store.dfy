/**
 The shared store of src/server.rs: device states, retained operations, idempotency records and artifacts. Each
 function below is one region that holds the lock. The state keeps an unbounded event log per device; the class
 keeps the bounded rings that refine those logs.
 */
module Store {
  import opened Mux
  import opened Decimals
  import opened Device
  import opened EventRing
  import Json
  import D = Duplex

  /** DeviceState without its events. */
  datatype DeviceState = DeviceState(
    busy: bool,
    applicationPending: bool,
    inputPending: bool,
    discardMonitorRead: bool,
    availability: Availability,
    activity: Activity)

  datatype Metadata = Metadata(size: nat, sha256: string)

  datatype Status = Running | Succeeded(result: Json.Value) | OperationFailed(failure: D.Failure) | HardwareFailed

  datatype Operation = Operation(
    id: string,
    device: string,
    key: string,
    status: Status,
    start: nat,
    artifact: Option<Metadata>)

  /** Kinds of events and their data. */
  datatype Body =
    | OperationStarted
    | OperationFinished(operation: Operation)
    | RawOutput(data: seq<bv8>)
    | LogLine(text: seq<bv8>)
    | ApplicationEvent(value: Json.Value)
    | ProtocolError
    | Notice(kind: string)

  datatype Record = Record(fingerprint: string, operation: string)

  datatype StoreState = StoreState(
    epoch: string,
    logs: map<string, seq<Body>>,
    devices: map<string, DeviceState>,
    operations: seq<Operation>,
    idempotency: map<string, Record>,
    artifacts: map<string, Metadata>)

  datatype HardwareKind = Probe | Flash | ReadFlash | EraseFlash | Reset | Monitor

  datatype Action =
    | Hardware(kind: HardwareKind)
    | SerialWrite(data: seq<bv8>)
    | Application(command: Option<Json.Command>)

  datatype Job = Job(id: string, action: Action)

  const HISTORY := 64
  const CHANNEL := 2

  // ---------- names of operations ----------

  function OperationId(epoch: string, device: string, after: nat): string {
    epoch + "-" + device + "-" + Decimal(after)
  }

  /** Two operations of one store never share a name, whatever the device names look like. */
  lemma OperationIdInjective(epoch: string, d: string, m: nat, e: string, n: nat)
    requires OperationId(epoch, d, m) == OperationId(epoch, e, n)
    ensures d == e && m == n
  {
    hide Decimal;
    var s := OperationId(epoch, d, m);
    var p, q := |epoch| + 1 + |d|, |epoch| + 1 + |e|;
    DecimalHasNoDash(m);
    DecimalHasNoDash(n);
    DashBefore(s, p, Decimal(m));
    DashBefore(s, q, Decimal(n));
    assert d == s[|epoch| + 1..p] && e == s[|epoch| + 1..q];
    DecimalInjective(m, n);
  }

  /** The last dash. */
  lemma DashBefore(s: string, p: nat, tail: string)
    requires p < |s| && s[p] == '-' && s[p + 1..] == tail && '-' !in tail
    ensures forall q :: p < q < |s| ==> s[q] != '-'
  {
    forall q | p < q < |s| ensures s[q] != '-' {
      assert tail[q - p - 1] == s[q];
    }
  }

  // ---------- events ----------

  function Emitted(s: StoreState, d: string, body: Body): StoreState
    requires d in s.logs
  {
    s.(logs := s.logs[d := s.logs[d] + [body]])
  }

  function EmittedAll(s: StoreState, d: string, bodies: seq<Body>): StoreState
    requires d in s.logs
  {
    s.(logs := s.logs[d := s.logs[d] + bodies])
  }

  // ---------- retained operations ----------

  function Finished(operations: seq<Operation>): nat {
    if operations == [] then 0
    else
      var n := |operations| - 1;
      Finished(operations[..n]) + if operations[n].status.Running? then 0 else 1
  }

  /** The first operation with this id. */
  function Position(operations: seq<Operation>, id: string): (r: Option<nat>)
    ensures r.Some? ==> r.value < |operations| && operations[r.value].id == id
    ensures r.None? ==> forall i :: 0 <= i < |operations| ==> operations[i].id != id
  {
    if operations == [] then None
    else
      var n := |operations| - 1;
      var earlier := Position(operations[..n], id);
      if earlier.Some? then earlier else if operations[n].id == id then Some(n) else None
  }

  /** The first operation that is not running. */
  function Oldest(operations: seq<Operation>): (r: nat)
    requires Finished(operations) > 0
    ensures r < |operations| && !operations[r].status.Running?
    ensures forall i :: 0 <= i < r ==> operations[i].status.Running?
  {
    var n := |operations| - 1;
    if Finished(operations[..n]) > 0 then Oldest(operations[..n])
    else
      AllRunning(operations[..n]);
      n
  }

  lemma {:induction false} AllRunning(operations: seq<Operation>)
    requires Finished(operations) == 0
    ensures forall i :: 0 <= i < |operations| ==> operations[i].status.Running?
  {
    if operations != [] {
      AllRunning(operations[..|operations| - 1]);
    }
  }

  function Removed(s: StoreState, i: nat): StoreState
    requires i < |s.operations|
  {
    var expired := s.operations[i];
    s.(operations := s.operations[..i] + s.operations[i + 1..],
       idempotency := s.idempotency - {expired.key},
       artifacts := s.artifacts - {expired.id})
  }

  function Evicted(s: StoreState): (r: StoreState)
    ensures r.devices == s.devices && r.logs == s.logs && r.epoch == s.epoch
    decreases |s.operations|
  {
    if Finished(s.operations) >= HISTORY then Evicted(Removed(s, Oldest(s.operations))) else s
  }

  function PushedOperation(s: StoreState, op: Operation): StoreState {
    var kept := Evicted(s);
    kept.(operations := kept.operations + [op])
  }

  // ---------- admission ----------

  datatype Admission =
    | Admitted(operation: Operation)
    | Replayed(operation: Operation)
    | KeyConflict
    | DeviceBusy
    | WorkerUnavailable

  predicate IsRequest(action: Action) {
    action.Application? && action.command.Some?
  }

  /** Operations on the hardware take the monitor's stream away. */
  predicate ReplacesMonitor(action: Action) {
    action.Hardware?
  }

  predicate Compatible(state: DeviceState, action: Action) {
    || (IsRequest(action) && state.inputPending && !state.applicationPending)
    || (action.SerialWrite? && state.applicationPending && !state.inputPending)
  }

  function Occupied(state: DeviceState, action: Action): DeviceState {
    state.(busy := true,
           applicationPending := state.applicationPending || IsRequest(action),
           inputPending := state.inputPending || action.SerialWrite?,
           discardMonitorRead := ReplacesMonitor(action))
  }

  function RolledBack(state: DeviceState, action: Action): DeviceState {
    var application := state.applicationPending && !IsRequest(action);
    var input := state.inputPending && !action.SerialWrite?;
    state.(applicationPending := application, inputPending := input, busy := application || input,
           discardMonitorRead := false, activity := if application || input then Busy else Faulty)
  }

  function NewOperation(s: StoreState, d: string, key: string): Operation
    requires d in s.logs
  {
    var after := |s.logs[d]|;
    Operation(OperationId(s.epoch, d, after), d, key, Running, after, None)
  }

  /** The store after an operation was admitted, before its job is sent. */
  function Recorded(s: StoreState, d: string, action: Action, key: string, fingerprint: string): (StoreState, Operation)
    requires d in s.devices && d in s.logs
  {
    var flagged := s.(devices := s.devices[d := Occupied(s.devices[d], action).(activity := Busy)]);
    var started := Emitted(flagged, d, OperationStarted);
    var op := NewOperation(started, d, key);
    var pushed := PushedOperation(started, op);
    (pushed.(idempotency := pushed.idempotency[key := Record(fingerprint, op.id)]), op)
  }

  /** Known: the request was made before. */
  function Known(s: StoreState, key: string, fingerprint: string): Option<Admission>
    requires key in s.idempotency ==> Position(s.operations, s.idempotency[key].operation).Some?
  {
    if key !in s.idempotency then None
    else if s.idempotency[key].fingerprint != fingerprint then Some(KeyConflict)
    else Some(Replayed(s.operations[Position(s.operations, s.idempotency[key].operation).value]))
  }

  predicate Replayable(s: StoreState, key: string) {
    key in s.idempotency ==> Position(s.operations, s.idempotency[key].operation).Some?
  }

  /** The locked part of submit, with the number of jobs in the device's channel. */
  function Admit(s: StoreState, d: string, action: Action, key: string, fingerprint: string, queued: nat)
    : (StoreState, Admission)
    requires d in s.devices && d in s.logs && Replayable(s, key)
  {
    var known := Known(s, key, fingerprint);
    if known.Some? then (s, known.value)
    else if s.devices[d].busy && !Compatible(s.devices[d], action) then (s, DeviceBusy)
    else
      var (recorded, op) := Recorded(s, d, action, key, fingerprint);
      if queued < CHANNEL then (recorded, Admitted(op))
      else (Unrecorded(recorded, d, action, key), WorkerUnavailable)
  }

  function Unrecorded(s: StoreState, d: string, action: Action, key: string): StoreState
    requires d in s.devices
  {
    s.(devices := s.devices[d := RolledBack(s.devices[d], action)],
       operations := if s.operations == [] then [] else s.operations[..|s.operations| - 1],
       idempotency := s.idempotency - {key})
  }

  // ---------- completion ----------

  function StatusOf(result: D.Result): Status {
    match result
    case Done(v) => Succeeded(v)
    case Failed(f) => OperationFailed(f)
  }

  function Released(state: DeviceState, lane: D.Lane, hasReader: bool): DeviceState {
    var application := state.applicationPending && lane != D.ApplicationLane;
    var input := state.inputPending && lane != D.InputLane;
    state.(applicationPending := application, inputPending := input, busy := application || input,
           discardMonitorRead := false,
           activity := if application || input then Busy
                       else if hasReader then Monitoring
                       else if state.activity == Reconnecting then Reconnecting
                       else Faulty)
  }

  predicate Retained(s: StoreState, id: string) {
    Position(s.operations, id).Some?
  }

  /** One completion of finish_stream. */
  function FinishedOne(s: StoreState, d: string, c: D.Completion, hasReader: bool): StoreState
    requires d in s.devices && d in s.logs && Retained(s, c.key)
  {
    var i := Position(s.operations, c.key).value;
    var op := s.operations[i].(status := StatusOf(c.result));
    Emitted(s.(operations := s.operations[i := op],
               devices := s.devices[d := Released(s.devices[d], c.lane, hasReader)]),
            d, OperationFinished(op))
  }

  lemma {:induction false} UpdateKeepsPositions(operations: seq<Operation>, i: nat, op: Operation, id: string)
    requires i < |operations| && op.id == operations[i].id
    ensures Position(operations[i := op], id) == Position(operations, id)
  {
    var n := |operations| - 1;
    if i < n {
      assert operations[i := op][..n] == operations[..n][i := op];
      UpdateKeepsPositions(operations[..n], i, op, id);
    } else {
      assert operations[i := op][..n] == operations[..n];
    }
  }

  predicate AllRetained(s: StoreState, done: seq<D.Completion>) {
    forall i :: 0 <= i < |done| ==> Retained(s, done[i].key)
  }

  /** finish_stream. */
  function FinishedAll(s: StoreState, d: string, done: seq<D.Completion>, hasReader: bool): (r: StoreState)
    requires d in s.devices && d in s.logs && AllRetained(s, done)
    ensures d in r.devices && d in r.logs
    ensures forall id :: Position(r.operations, id) == Position(s.operations, id)
  {
    if done == [] then s
    else
      var n := |done| - 1;
      var before := FinishedAll(s, d, done[..n], hasReader);
      assert Retained(s, done[n].key);
      var after := FinishedOne(before, d, done[n], hasReader);
      FinishedOneKeepsPositions(before, d, done[n], hasReader);
      after
  }

  lemma FinishedOneKeepsPositions(s: StoreState, d: string, c: D.Completion, hasReader: bool)
    requires d in s.devices && d in s.logs && Retained(s, c.key)
    ensures forall id :: Position(FinishedOne(s, d, c, hasReader).operations, id) == Position(s.operations, id)
  {
    hide Position;
    var i := Position(s.operations, c.key).value;
    forall id ensures Position(FinishedOne(s, d, c, hasReader).operations, id) == Position(s.operations, id) {
      UpdateKeepsPositions(s.operations, i, s.operations[i].(status := StatusOf(c.result)), id);
    }
  }

  datatype Outcome = Worked(result: Json.Value, artifact: Option<Metadata>) | Broke

  /** The end of a hardware operation. */
  function FinishedHardware(s: StoreState, d: string, id: string, outcome: Outcome, hasReader: bool): StoreState
    requires d in s.devices && d in s.logs && Retained(s, id)
  {
    var i := Position(s.operations, id).value;
    var op := match outcome
              case Worked(result, artifact) => s.operations[i].(status := Succeeded(result), artifact := artifact)
              case Broke => s.operations[i].(status := HardwareFailed);
    var artifacts := if outcome.Worked? && outcome.artifact.Some?
                     then s.artifacts[id := outcome.artifact.value] else s.artifacts;
    var state := s.devices[d].(busy := false, discardMonitorRead := false,
                               activity := if hasReader then Monitoring else if outcome.Worked? then Idle else Faulty);
    Emitted(s.(operations := s.operations[i := op], artifacts := artifacts, devices := s.devices[d := state]),
            d, OperationFinished(op))
  }

  // ---------- publishing ----------

  /** What was read from a stream, with the log lines its decoder completes. */
  datatype Reading = Console(data: seq<bv8>, lines: seq<seq<bv8>>) | Happened(value: Json.Value) | Garbled

  function LineBodies(lines: seq<seq<bv8>>): seq<Body> {
    seq(|lines|, i requires 0 <= i < |lines| => LogLine(lines[i]))
  }

  function Bodies(r: Reading): seq<Body> {
    match r
    case Console(data, lines) => [RawOutput(data)] + LineBodies(lines)
    case Happened(value) => [ApplicationEvent(value)]
    case Garbled => [ProtocolError]
  }

  /** application_output, and the publication of unframed reads: nothing while the monitor is being replaced. */
  function Published(s: StoreState, d: string, r: Reading): StoreState
    requires d in s.devices && d in s.logs
  {
    if s.devices[d].discardMonitorRead then s else EmittedAll(s, d, Bodies(r))
  }

  // ---------- the Store class ----------

  /** The bounded channel to a device's worker, which has not exited. */
  class Channel {
    var jobs: seq<Job>

    method TrySend(job: Job) returns (ok: bool)
      modifies this
      ensures ok == (|old(jobs)| < CHANNEL)
      ensures jobs == if ok then old(jobs) + [job] else old(jobs)
    {
      ok := |jobs| < CHANNEL;
      if ok {
        jobs := jobs + [job];
      }
    }
  }

  method CountFinished(operations: seq<Operation>) returns (n: nat)
    ensures n == Finished(operations)
  {
    n := 0;
    for i := 0 to |operations|
      invariant n == Finished(operations[..i])
    {
      assert operations[..i + 1][..i] == operations[..i];
      if !operations[i].status.Running? {
        n := n + 1;
      }
    }
    assert operations[..|operations|] == operations;
  }

  method FindOldest(operations: seq<Operation>) returns (r: nat)
    requires Finished(operations) > 0
    ensures r == Oldest(operations)
  {
    r := 0;
    while r < |operations| && operations[r].status.Running?
      invariant r <= |operations|
      invariant forall i :: 0 <= i < r ==> operations[i].status.Running?
    {
      r := r + 1;
    }
    ghost var oldest := Oldest(operations);
    assert r == oldest;
  }

  method FindOperation(operations: seq<Operation>, id: string) returns (r: Option<nat>)
    ensures r == Position(operations, id)
  {
    for i := 0 to |operations|
      invariant Position(operations[..i], id) == None
    {
      assert operations[..i + 1][..i] == operations[..i];
      if operations[i].id == id {
        FirstIsPosition(operations, i, id);
        return Some(i);
      }
    }
    assert operations[..|operations|] == operations;
    return None;
  }

  lemma {:induction false} FirstIsPosition(operations: seq<Operation>, i: nat, id: string)
    requires i < |operations| && operations[i].id == id && Position(operations[..i], id) == None
    ensures Position(operations, id) == Some(i)
    decreases |operations|
  {
    var n := |operations| - 1;
    if i < n {
      assert operations[..n][..i] == operations[..i];
      FirstIsPosition(operations[..n], i, id);
    }
  }

  class Store {
    const epoch: string
    const size: Event<Body> -> nat
    var rings: map<string, Ring<Body>>
    var devices: map<string, DeviceState>
    var operations: seq<Operation>
    var idempotency: map<string, Record>
    var artifacts: map<string, Metadata>
    ghost var logs: map<string, seq<Body>>

    ghost function Value(): StoreState
      reads this
    {
      StoreState(epoch, logs, devices, operations, idempotency, artifacts)
    }

    /** The ring of every device is the end of its log. */
    ghost predicate Refined()
      reads this`rings, this`logs
    {
      && rings.Keys == logs.Keys
      && forall d :: d in logs ==> Refines(rings[d], logs[d], size)
    }

    ghost predicate Valid()
      reads this`rings, this`logs, this`devices
    {
      Refined() && devices.Keys == logs.Keys
    }

    constructor (epoch: string, size: Event<Body> -> nat)
      ensures Valid() && Value() == StoreState(epoch, map[], map[], [], map[], map[])
      ensures this.size == size
    {
      this.epoch := epoch;
      this.size := size;
      rings, devices, logs := map[], map[], map[];
      operations, idempotency, artifacts := [], map[], map[];
    }

    method Emit(d: string, body: Body)
      requires Refined() && d in logs
      modifies this`rings, this`logs
      ensures Refined() && logs == old(logs)[d := old(logs)[d] + [body]]
    {
      hide Refines;
      RingOfLog(rings[d], logs[d], size);
      AppendRefines(rings[d], logs[d], body, size);
      var ring := Append(rings[d], body, size);
      rings := rings[d := ring];
      logs := logs[d := logs[d] + [body]];
    }

    /** events_after: the ring answers for the log. */
    method Events(d: string, cursor: Cursor) returns (r: Polled<Body>)
      requires Valid() && d in devices
      ensures r == Restarted <==> cursor.epoch != epoch
      ensures cursor.epoch == epoch ==> (r == Ahead <==> cursor.after > |logs[d]|)
      ensures r == Gap <==>
                cursor.epoch == epoch && rings[d].events != [] && cursor.after < |logs[d]| - |rings[d].events|
      ensures r.Batch? ==> cursor.after <= |logs[d]| && r.cursor == Cursor(epoch, |logs[d]|)
      ensures r.Batch? && (rings[d].events != [] || cursor.after == |logs[d]|) ==>
                r.events == EventsFrom(logs[d], cursor.after)
    {
      hide Refines;
      hide Later;
      r := EventsAfter(rings[d], epoch, cursor);
      if cursor.epoch == epoch {
        RingOfLog(rings[d], logs[d], size);
        PollMeans(rings[d], logs[d], size, epoch, cursor);
      }
    }

    method PushOperation(op: Operation)
      modifies this`operations, this`idempotency, this`artifacts
      ensures Value() == PushedOperation(old(Value()), op)
    {
      ghost var before := Value();
      var finished := CountFinished(operations);
      while finished >= HISTORY
        invariant finished == Finished(operations)
        invariant epoch == before.epoch && Evicted(Value()) == Evicted(before)
        decreases |operations|
      {
        var index := FindOldest(operations);
        var expired := operations[index];
        ghost var current := Value();
        operations := operations[..index] + operations[index + 1..];
        idempotency := idempotency - {expired.key};
        artifacts := artifacts - {expired.id};
        assert Value() == Removed(current, index);
        finished := CountFinished(operations);
      }
      operations := operations + [op];
    }

    method Replay(key: string, fingerprint: string) returns (r: Option<Admission>)
      requires Replayable(Value(), key)
      ensures r == Known(Value(), key, fingerprint)
    {
      if key !in idempotency {
        return None;
      }
      var record := idempotency[key];
      if record.fingerprint != fingerprint {
        return Some(KeyConflict);
      }
      var i := FindOperation(operations, record.operation);
      return Some(Replayed(operations[i.value]));
    }

    method RecordOperation(d: string, action: Action, key: string, fingerprint: string) returns (op: Operation)
      requires Valid() && d in devices
      modifies this
      ensures Valid() && d in devices && (Value(), op) == Recorded(old(Value()), d, action, key, fingerprint)
    {
      hide Refined;
      hide OperationId;
      hide PushedOperation;
      devices := devices[d := devices[d].(busy := true,
                                          applicationPending := devices[d].applicationPending || IsRequest(action),
                                          inputPending := devices[d].inputPending || action.SerialWrite?,
                                          discardMonitorRead := ReplacesMonitor(action),
                                          activity := Busy)];
      Emit(d, OperationStarted);
      LastIsLength(d);
      op := Operation(OperationId(epoch, d, rings[d].last), d, key, Running, rings[d].last, None);
      ghost var started := Value();
      PushOperation(op);
      PushKeepsDevices(started, op);
      idempotency := idempotency[key := Record(fingerprint, op.id)];
    }

    method RollBack(d: string, action: Action, key: string)
      requires Valid() && d in devices
      modifies this`devices, this`operations, this`idempotency
      ensures Valid() && Value() == Unrecorded(old(Value()), d, action, key)
    {
      hide Refined;
      var state := devices[d];
      if IsRequest(action) {
        state := state.(applicationPending := false);
      }
      if action.SerialWrite? {
        state := state.(inputPending := false);
      }
      state := state.(busy := state.applicationPending || state.inputPending, discardMonitorRead := false);
      devices := devices[d := state.(activity := if state.busy then Busy else Faulty)];
      if operations != [] {
        operations := operations[..|operations| - 1];
      }
      idempotency := idempotency - {key};
    }

    /** The locked part of submit. */
    method Submit(d: string, action: Action, key: string, fingerprint: string, tx: Channel) returns (r: Admission)
      requires Valid() && d in devices && Replayable(Value(), key)
      modifies this, tx
      ensures Valid() && (Value(), r) == Admit(old(Value()), d, action, key, fingerprint, |old(tx.jobs)|)
      ensures tx.jobs == old(tx.jobs) + if r.Admitted? then [Job(r.operation.id, action)] else []
    {
      hide Refined;
      hide Recorded;
      hide Unrecorded;
      var known := Replay(key, fingerprint);
      if known.Some? {
        return known.value;
      }
      var compatible := (IsRequest(action) && devices[d].inputPending && !devices[d].applicationPending)
                        || (action.SerialWrite? && devices[d].applicationPending && !devices[d].inputPending);
      if devices[d].busy && !compatible {
        return DeviceBusy;
      }
      var op := RecordOperation(d, action, key, fingerprint);
      var sent := tx.TrySend(Job(op.id, action));
      if !sent {
        RollBack(d, action, key);
        return WorkerUnavailable;
      }
      return Admitted(op);
    }

    lemma LastIsLength(d: string)
      requires Refined() && d in logs
      ensures d in rings && rings[d].last == |logs[d]|
    {
    }

    method FinishOne(d: string, c: D.Completion, hasReader: bool)
      requires Valid() && d in devices && Retained(Value(), c.key)
      modifies this
      ensures Valid() && d in devices && Value() == FinishedOne(old(Value()), d, c, hasReader)
    {
      hide Refined;
      hide Position;
      var found := FindOperation(operations, c.key);
      var op := operations[found.value].(status := StatusOf(c.result));
      operations := operations[found.value := op];
      var state := devices[d];
      match c.lane {
        case ApplicationLane => state := state.(applicationPending := false);
        case InputLane => state := state.(inputPending := false);
      }
      state := state.(busy := state.applicationPending || state.inputPending, discardMonitorRead := false);
      devices := devices[d := state.(activity := if state.busy then Busy
                                                 else if hasReader then Monitoring
                                                 else if state.activity == Reconnecting then Reconnecting
                                                 else Faulty)];
      Emit(d, OperationFinished(op));
    }

    method FinishStream(d: string, done: seq<D.Completion>, hasReader: bool)
      requires Valid() && d in devices && AllRetained(Value(), done)
      modifies this
      ensures Valid() && Value() == FinishedAll(old(Value()), d, done, hasReader)
    {
      hide Refined;
      hide Position;
      hide FinishedOne;
      ghost var start := Value();
      for k := 0 to |done|
        invariant Valid() && d in devices && AllRetained(start, done[..k])
        invariant Value() == FinishedAll(start, d, done[..k], hasReader)
      {
        assert done[..k + 1][..k] == done[..k];
        assert Retained(start, done[k].key);
        assert AllRetained(start, done[..k + 1]);
        FinishOne(d, done[k], hasReader);
      }
      assert done[..|done|] == done;
    }

    method FinishHardware(d: string, id: string, outcome: Outcome, hasReader: bool)
      requires Valid() && d in devices && Retained(Value(), id)
      modifies this
      ensures Valid() && Value() == FinishedHardware(old(Value()), d, id, outcome, hasReader)
    {
      hide Refined;
      hide Position;
      if outcome.Worked? && outcome.artifact.Some? {
        artifacts := artifacts[id := outcome.artifact.value];
      }
      var found := FindOperation(operations, id);
      var op := operations[found.value];
      match outcome {
        case Worked(result, artifact) =>
          op := op.(status := Succeeded(result), artifact := artifact);
        case Broke =>
          op := op.(status := HardwareFailed);
      }
      operations := operations[found.value := op];
      devices := devices[d := devices[d].(busy := false, discardMonitorRead := false,
                                          activity := if hasReader then Monitoring
                                                      else if outcome.Worked? then Idle else Faulty)];
      Emit(d, OperationFinished(op));
    }

    method PublishLines(d: string, lines: seq<seq<bv8>>)
      requires Valid() && d in devices
      modifies this`rings, this`logs
      ensures Valid() && logs == old(logs)[d := old(logs)[d] + LineBodies(lines)]
    {
      hide Refined;
      ghost var start := logs;
      assert LineBodies(lines[..0]) == [] && start[d] + [] == start[d];
      for i := 0 to |lines|
        invariant Refined() && d in logs
        invariant logs == start[d := start[d] + LineBodies(lines[..i])]
      {
        assert LineBodies(lines[..i + 1]) == LineBodies(lines[..i]) + [LogLine(lines[i])];
        Emit(d, LogLine(lines[i]));
        Joined(start[d], LineBodies(lines[..i]), [LogLine(lines[i])]);
      }
      assert lines[..|lines|] == lines;
    }

    method Publish(d: string, reading: Reading)
      requires Valid() && d in devices
      modifies this`rings, this`logs
      ensures Valid() && Value() == Published(old(Value()), d, reading)
    {
      hide Refined;
      hide LineBodies;
      if devices[d].discardMonitorRead {
        return;
      }
      match reading {
        case Console(data, lines) =>
          ghost var start := logs[d];
          Emit(d, RawOutput(data));
          PublishLines(d, lines);
          Joined(start, [RawOutput(data)], LineBodies(lines));
        case Happened(value) =>
          Emit(d, ApplicationEvent(value));
        case Garbled =>
          Emit(d, ProtocolError);
      }
    }
  }

  lemma Joined<T>(a: seq<T>, b: seq<T>, c: seq<T>)
    ensures (a + b) + c == a + (b + c)
  {
  }

  lemma PushKeepsDevices(s: StoreState, op: Operation)
    ensures var r := PushedOperation(s, op); r.devices == s.devices && r.logs == s.logs && r.epoch == s.epoch
  {
  }

  lemma RingOfLog(r: Ring<Body>, log: seq<Body>, size: Event<Body> -> nat)
    requires Refines(r, log, size)
    ensures r.bytes == Total(r.events) && r.last == |log|
  {
  }
}
