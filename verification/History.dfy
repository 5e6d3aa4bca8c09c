/**
 What every locked region of src/server.rs keeps of the retained operations: their idempotency records, their
 artifacts and their number.
 */
module History {
  import opened Mux
  import opened Device
  import opened Store
  import D = Duplex

  predicate Named(op: Operation, epoch: string, logs: map<string, seq<Body>>) {
    && op.device in logs
    && 1 <= op.start <= |logs[op.device]|
    && op.id == OperationId(epoch, op.device, op.start)
  }

  predicate HasRecord(op: Operation, idempotency: map<string, Record>) {
    op.key in idempotency && idempotency[op.key].operation == op.id
  }

  predicate Owned(operations: seq<Operation>, key: string, id: string) {
    exists i :: 0 <= i < |operations| && operations[i].key == key && operations[i].id == id
  }

  predicate HasId(operations: seq<Operation>, id: string) {
    exists i :: 0 <= i < |operations| && operations[i].id == id
  }

  predicate DistinctIds(operations: seq<Operation>) {
    forall i, j :: 0 <= i < j < |operations| ==> operations[i].id != operations[j].id
  }

  /** Keys and retained operations correspond one to one, and artifacts belong to retained operations. */
  predicate Linked(operations: seq<Operation>, idempotency: map<string, Record>, artifacts: map<string, Metadata>) {
    && DistinctIds(operations)
    && (forall i :: 0 <= i < |operations| ==> HasRecord(operations[i], idempotency))
    && (forall key :: key in idempotency ==> Owned(operations, key, idempotency[key].operation))
    && (forall id :: id in artifacts ==> HasId(operations, id))
  }

  predicate AllNamed(s: StoreState) {
    forall i :: 0 <= i < |s.operations| ==> Named(s.operations[i], s.epoch, s.logs)
  }

  predicate Consistent(s: StoreState) {
    Linked(s.operations, s.idempotency, s.artifacts) && AllNamed(s)
  }

  /** No two retained operations have one key. */
  lemma KeysAreDistinct(operations: seq<Operation>, idempotency: map<string, Record>, artifacts: map<string, Metadata>,
                        i: nat, j: nat)
    requires Linked(operations, idempotency, artifacts) && i < j < |operations|
    ensures operations[i].key != operations[j].key
  {
    assert HasRecord(operations[i], idempotency) && HasRecord(operations[j], idempotency);
  }

  lemma {:induction false} PositionOf(operations: seq<Operation>, i: nat)
    requires DistinctIds(operations) && i < |operations|
    ensures Position(operations, operations[i].id) == Some(i)
  {
    FirstIsPosition(operations, i, operations[i].id);
  }

  /** A known key leads to its operation: the lookup behind a replay cannot fail. */
  lemma ReplayFindsOperation(s: StoreState, key: string, fingerprint: string)
    requires Consistent(s)
    ensures Replayable(s, key)
    ensures key in s.idempotency && s.idempotency[key].fingerprint == fingerprint ==>
              exists i :: 0 <= i < |s.operations| && s.operations[i].key == key
                       && Known(s, key, fingerprint) == Some(Replayed(s.operations[i]))
  {
    if key in s.idempotency {
      var id := s.idempotency[key].operation;
      assert Owned(s.operations, key, id);
      var i :| 0 <= i < |s.operations| && s.operations[i].key == key && s.operations[i].id == id;
      PositionOf(s.operations, i);
    }
  }

  // ---------- eviction ----------

  function DropAt<T>(s: seq<T>, i: nat): (r: seq<T>)
    requires i < |s|
    ensures |r| == |s| - 1 && forall j :: 0 <= j < |r| ==> r[j] == s[if j < i then j else j + 1]
  {
    s[..i] + s[i + 1..]
  }

  lemma OwnerSurvives(ops: seq<Operation>, i: nat, key: string, id: string)
    requires Owned(ops, key, id) && i < |ops| && ops[i].key != key
    ensures Owned(DropAt(ops, i), key, id)
  {
    var k :| 0 <= k < |ops| && ops[k].key == key && ops[k].id == id;
    assert DropAt(ops, i)[if k < i then k else k - 1] == ops[k];
  }

  lemma IdSurvives(ops: seq<Operation>, i: nat, id: string)
    requires HasId(ops, id) && i < |ops| && ops[i].id != id
    ensures HasId(DropAt(ops, i), id)
  {
    var k :| 0 <= k < |ops| && ops[k].id == id;
    assert DropAt(ops, i)[if k < i then k else k - 1] == ops[k];
  }

  lemma RemovedIsLinked(s: StoreState, i: nat)
    requires Linked(s.operations, s.idempotency, s.artifacts) && i < |s.operations|
    ensures var r := Removed(s, i); Linked(r.operations, r.idempotency, r.artifacts)
  {
    hide DropAt;
    hide HasId;
    hide Owned;
    var ops, r := s.operations, Removed(s, i);
    assert r.operations == DropAt(ops, i);
    forall j | 0 <= j < |r.operations| ensures HasRecord(r.operations[j], r.idempotency) {
      var k := if j < i then j else j + 1;
      assert HasRecord(ops[k], s.idempotency);
      KeysAreDistinct(ops, s.idempotency, s.artifacts, if k < i then k else i, if k < i then i else k);
    }
    forall key | key in r.idempotency ensures Owned(r.operations, key, r.idempotency[key].operation) {
      OwnerSurvives(ops, i, key, s.idempotency[key].operation);
    }
    forall id | id in r.artifacts ensures HasId(r.operations, id) {
      IdSurvives(ops, i, id);
    }
  }

  /** Nothing but finished operations was removed. */
  predicate Shortened(from: seq<Operation>, to: seq<Operation>) {
    && (forall op :: op in to ==> op in from)
    && (forall op :: op in from && op.status.Running? ==> op in to)
  }

  lemma RemovedShortens(s: StoreState, i: nat)
    requires i < |s.operations| && !s.operations[i].status.Running?
    ensures Shortened(s.operations, Removed(s, i).operations)
  {
    var ops, r := s.operations, Removed(s, i).operations;
    assert ops == ops[..i] + [ops[i]] + ops[i + 1..];
  }

  lemma {:induction false} EvictedKeeps(s: StoreState)
    requires Consistent(s)
    ensures Consistent(Evicted(s)) && Finished(Evicted(s).operations) < HISTORY
    ensures Shortened(s.operations, Evicted(s).operations)
    decreases |s.operations|
  {
    hide Linked;
    if Finished(s.operations) >= HISTORY {
      var i := Oldest(s.operations);
      RemovedIsLinked(s, i);
      RemovedShortens(s, i);
      EvictedKeeps(Removed(s, i));
    }
  }

  lemma {:induction false} FinishedDrop(ops: seq<Operation>, i: nat)
    requires i < |ops|
    ensures Finished(ops) == Finished(DropAt(ops, i)) + if ops[i].status.Running? then 0 else 1
  {
    var n := |ops| - 1;
    if i == n {
      assert DropAt(ops, i) == ops[..n];
    } else {
      FinishedDrop(ops[..n], i);
      assert DropAt(ops, i)[..n - 1] == DropAt(ops[..n], i);
    }
  }

  /**
   Eviction stops at 63 finished operations and takes the oldest: whoever finished and is behind a survivor survives.
   */
  lemma {:induction false} EvictsTheOldest(s: StoreState, i: nat, j: nat)
    requires DistinctIds(s.operations) && i < j < |s.operations|
    requires !s.operations[i].status.Running? && !s.operations[j].status.Running?
    ensures s.operations[i] in Evicted(s).operations ==> s.operations[j] in Evicted(s).operations
    ensures |Evicted(s).operations|
         == |s.operations| - if Finished(s.operations) < 64 then 0 else Finished(s.operations) - 63
    decreases |s.operations|
  {
    hide DropAt;
    hide Finished;
    EvictedSize(s);
    if Finished(s.operations) >= HISTORY {
      var r := Oldest(s.operations);
      var next := Removed(s, r);
      assert next.operations == DropAt(s.operations, r) by { DropIsCut(s.operations, r); }
      DistinctDrop(s.operations, r);
      if i == r {
        EvictedFrom(next, s.operations[r]);
      } else {
        EvictsTheOldest(next, i - 1, j - 1);
      }
    }
  }

  lemma DropIsCut(ops: seq<Operation>, i: nat)
    requires i < |ops|
    ensures DropAt(ops, i) == ops[..i] + ops[i + 1..]
  {
  }

  lemma DistinctDrop(ops: seq<Operation>, i: nat)
    requires DistinctIds(ops) && i < |ops|
    ensures DistinctIds(DropAt(ops, i)) && ops[i] !in DropAt(ops, i)
  {
    hide DropAt;
  }

  lemma {:induction false} EvictedFrom(s: StoreState, op: Operation)
    requires op !in s.operations
    ensures op !in Evicted(s).operations
    decreases |s.operations|
  {
    if Finished(s.operations) >= HISTORY {
      EvictedFrom(Removed(s, Oldest(s.operations)), op);
    }
  }

  lemma {:induction false} EvictedSize(s: StoreState)
    ensures |Evicted(s).operations|
         == |s.operations| - if Finished(s.operations) < HISTORY then 0 else Finished(s.operations) - (HISTORY - 1)
    decreases |s.operations|
  {
    hide DropAt;
    hide Finished;
    if Finished(s.operations) >= HISTORY {
      var r := Oldest(s.operations);
      DropIsCut(s.operations, r);
      FinishedDrop(s.operations, r);
      EvictedSize(Removed(s, r));
    }
  }

  // ---------- admission ----------

  lemma NamesSurvive(s: StoreState, d: string, body: Body)
    requires AllNamed(s) && d in s.logs
    ensures AllNamed(Emitted(s, d, body))
  {
    hide OperationId;
    forall i | 0 <= i < |s.operations| ensures Named(s.operations[i], s.epoch, Emitted(s, d, body).logs) {
      assert Named(s.operations[i], s.epoch, s.logs);
    }
  }

  /** An operation named after the newest event has a name of its own. */
  lemma NewNameIsFresh(s: StoreState, d: string, key: string)
    requires AllNamed(s) && d in s.logs
    ensures var op := NewOperation(Emitted(s, d, OperationStarted), d, key);
            forall i :: 0 <= i < |s.operations| ==> s.operations[i].id != op.id
  {
    hide OperationId;
    var op := NewOperation(Emitted(s, d, OperationStarted), d, key);
    forall i | 0 <= i < |s.operations| ensures s.operations[i].id != op.id {
      var other := s.operations[i];
      assert Named(other, s.epoch, s.logs);
      if other.id == op.id {
        OperationIdInjective(s.epoch, other.device, other.start, d, op.start);
      }
    }
  }

  lemma PushIsLinked(operations: seq<Operation>, idempotency: map<string, Record>, artifacts: map<string, Metadata>,
                     op: Operation, fingerprint: string)
    requires Linked(operations, idempotency, artifacts) && op.key !in idempotency
    requires forall i :: 0 <= i < |operations| ==> operations[i].id != op.id
    ensures Linked(operations + [op], idempotency[op.key := Record(fingerprint, op.id)], artifacts)
    ensures op.id !in artifacts
  {
    var ops, records := operations + [op], idempotency[op.key := Record(fingerprint, op.id)];
    forall i | 0 <= i < |ops| ensures HasRecord(ops[i], records) {
      if i < |operations| {
        assert HasRecord(operations[i], idempotency);
      }
    }
    forall key | key in records ensures Owned(ops, key, records[key].operation) {
      if key == op.key {
        assert ops[|operations|] == op;
      } else {
        assert Owned(operations, key, idempotency[key].operation);
        var k :| 0 <= k < |operations| && operations[k].key == key && operations[k].id == idempotency[key].operation;
        assert ops[k] == operations[k];
      }
    }
    forall id | id in artifacts ensures HasId(ops, id) && id != op.id {
      assert HasId(operations, id);
      var k :| 0 <= k < |operations| && operations[k].id == id;
      assert ops[k] == operations[k];
    }
  }

  /** The state submit pushes the operation to. */
  function Starting(s: StoreState, d: string, action: Action): StoreState
    requires d in s.devices && d in s.logs
  {
    Emitted(s.(devices := s.devices[d := Occupied(s.devices[d], action).(activity := Busy)]), d, OperationStarted)
  }

  /** Recording a new operation: it is the only new one, and no running one is lost. */
  lemma RecordedKeeps(s: StoreState, d: string, action: Action, key: string, fingerprint: string)
    requires Consistent(s) && d in s.devices && d in s.logs && key !in s.idempotency
    ensures var (r, op) := Recorded(s, d, action, key, fingerprint);
            && Consistent(r)
            && op == NewOperation(Starting(s, d, action), d, key)
            && r.operations == Evicted(Starting(s, d, action)).operations + [op]
            && Shortened(s.operations, Evicted(Starting(s, d, action)).operations)
            && Finished(Evicted(Starting(s, d, action)).operations) < HISTORY
            && op.id !in r.artifacts
            && (forall i :: 0 <= i < |s.operations| ==> s.operations[i].id != op.id)
            && op.status.Running? && op.artifact.None? && op.key == key && op.device == d
            && op.start == |s.logs[d]| + 1 && r.logs == s.logs[d := s.logs[d] + [OperationStarted]]
            && d in r.devices && r.devices[d].busy && r.devices[d].activity == Busy
            && r.devices[d].availability == s.devices[d].availability
  {
    hide Linked;
    hide Named;
    hide OperationId;
    hide Evicted;
    hide Finished;
    hide Shortened;
    var started := Starting(s, d, action);
    var op := NewOperation(started, d, key);
    NamesSurvive(s.(devices := started.devices), d, OperationStarted);
    NewNameIsFresh(s.(devices := started.devices), d, key);
    EvictedKeeps(started);
    EvictedForgets(started, key);
    var kept := Evicted(started);
    ShortenedNames(started.operations, kept.operations, op.id);
    PushIsLinked(kept.operations, kept.idempotency, kept.artifacts, op, fingerprint);
    assert Named(op, s.epoch, started.logs) by { NewNamed(started, d, key); }
  }

  lemma NewNamed(s: StoreState, d: string, key: string)
    requires d in s.logs && s.logs[d] != []
    ensures Named(NewOperation(s, d, key), s.epoch, s.logs)
  {
  }

  lemma ShortenedNames(from: seq<Operation>, to: seq<Operation>, id: string)
    requires Shortened(from, to) && forall i :: 0 <= i < |from| ==> from[i].id != id
    ensures forall i :: 0 <= i < |to| ==> to[i].id != id
  {
    forall i | 0 <= i < |to| ensures to[i].id != id {
      assert to[i] in from;
    }
  }

  lemma {:induction false} EvictedForgets(s: StoreState, key: string)
    requires key !in s.idempotency
    ensures key !in Evicted(s).idempotency
    decreases |s.operations|
  {
    if Finished(s.operations) >= HISTORY {
      EvictedForgets(Removed(s, Oldest(s.operations)), key);
    }
  }

  /** Rolling an admission back leaves a consistent store too. */
  lemma RollbackKeeps(s: StoreState, d: string, action: Action, key: string, fingerprint: string)
    requires Consistent(s) && d in s.devices && d in s.logs && key !in s.idempotency
    ensures Consistent(Unrecorded(Recorded(s, d, action, key, fingerprint).0, d, action, key))
  {
    hide Recorded;
    hide Named;
    RecordedKeeps(s, d, action, key, fingerprint);
    var r := Recorded(s, d, action, key, fingerprint).0;
    LastIsUnlinked(r.operations, r.idempotency, r.artifacts);
  }

  lemma RecordedDevice(s: StoreState, d: string, action: Action, key: string, fingerprint: string)
    requires d in s.devices && d in s.logs
    ensures var r := Recorded(s, d, action, key, fingerprint).0;
            && r.epoch == s.epoch
            && r.devices == s.devices[d := Occupied(s.devices[d], action).(activity := Busy)]
            && r.logs == s.logs[d := s.logs[d] + [OperationStarted]]
  {
    hide Evicted;
    hide OperationId;
    PushKeepsDevices(Starting(s, d, action), NewOperation(Starting(s, d, action), d, key));
  }

  /** A new request is refused for its device, or else exactly if two jobs wait for it already. */
  lemma FullChannelRefuses(s: StoreState, d: string, action: Action, key: string, fingerprint: string, queued: nat)
    requires d in s.devices && d in s.logs && key !in s.idempotency
    ensures var answer := Admit(s, d, action, key, fingerprint, queued).1;
            if s.devices[d].busy && !Compatible(s.devices[d], action) then answer == DeviceBusy
            else if queued >= 2 then answer == WorkerUnavailable
            else answer.Admitted? && answer.operation.key == key
  {
    hide Evicted;
    hide OperationId;
  }

  /** A rollback takes back the record, the operation and the flags of the request. */
  lemma RollbackRestores(s: StoreState, d: string, action: Action, key: string, fingerprint: string)
    requires Consistent(s) && d in s.devices && d in s.logs && key !in s.idempotency
    ensures var r := Unrecorded(Recorded(s, d, action, key, fingerprint).0, d, action, key);
            && key !in r.idempotency && r.operations == Evicted(Starting(s, d, action)).operations
            && var (was, now) := (s.devices[d], r.devices[d]);
               && now.applicationPending == (was.applicationPending && !IsRequest(action))
               && now.inputPending == (was.inputPending && !action.SerialWrite?)
               && now.busy == (now.applicationPending || now.inputPending) && !now.discardMonitorRead
               && now.activity == (if now.busy then Busy else Faulty)
  {
    RecordedKeeps(s, d, action, key, fingerprint);
    RecordedDevice(s, d, action, key, fingerprint);
    hide Recorded;
    hide Evicted;
    hide Consistent;
    hide Starting;
    hide OperationId;
    var kept := Evicted(Starting(s, d, action)).operations;
    assert Recorded(s, d, action, key, fingerprint).0.operations[..|kept|] == kept;
  }

  lemma LastIsUnlinked(operations: seq<Operation>, idempotency: map<string, Record>, artifacts: map<string, Metadata>)
    requires Linked(operations, idempotency, artifacts) && operations != []
    requires operations[|operations| - 1].id !in artifacts
    ensures Linked(operations[..|operations| - 1], idempotency - {operations[|operations| - 1].key}, artifacts)
  {
    var n := |operations| - 1;
    var epoch := "";
    var s := StoreState(epoch, map[], map[], operations, idempotency, artifacts);
    RemovedIsLinked(s, n);
    assert Removed(s, n).operations == operations[..n];
    assert artifacts - {operations[n].id} == artifacts;
  }

  // ---------- completion ----------

  lemma StatusIsLinked(operations: seq<Operation>, idempotency: map<string, Record>, artifacts: map<string, Metadata>,
                       i: nat, op: Operation, artifact: Option<Metadata>)
    requires Linked(operations, idempotency, artifacts) && i < |operations|
    requires op.id == operations[i].id && op.key == operations[i].key
    ensures Linked(operations[i := op], idempotency,
                   if artifact.Some? then artifacts[op.id := artifact.value] else artifacts)
  {
    hide HasRecord;
    hide Owned;
    hide HasId;
    var ops := operations[i := op];
    forall j | 0 <= j < |ops| ensures HasRecord(ops[j], idempotency) {
      assert HasRecord(operations[j], idempotency);
      if j == i {
        SameRecord(operations[i], op, idempotency);
      }
    }
    forall key | key in idempotency ensures Owned(ops, key, idempotency[key].operation) {
      StillOwned(operations, i, op, key, idempotency[key].operation);
    }
    forall id | id in artifacts || id == op.id ensures HasId(ops, id) {
      if id == op.id {
        HasOwnId(ops, i);
      } else {
        StillHasId(operations, i, op, id);
      }
    }
  }

  lemma SameRecord(from: Operation, to: Operation, idempotency: map<string, Record>)
    requires to.id == from.id && to.key == from.key && HasRecord(from, idempotency)
    ensures HasRecord(to, idempotency)
  {
  }

  lemma StillOwned(operations: seq<Operation>, i: nat, op: Operation, key: string, id: string)
    requires i < |operations| && op.id == operations[i].id && op.key == operations[i].key && Owned(operations, key, id)
    ensures Owned(operations[i := op], key, id)
  {
    var k :| 0 <= k < |operations| && operations[k].key == key && operations[k].id == id;
    assert operations[i := op][k].key == key;
  }

  lemma StillHasId(operations: seq<Operation>, i: nat, op: Operation, id: string)
    requires i < |operations| && op.id == operations[i].id && HasId(operations, id)
    ensures HasId(operations[i := op], id)
  {
    var k :| 0 <= k < |operations| && operations[k].id == id;
    assert operations[i := op][k].id == id;
  }

  lemma HasOwnId(operations: seq<Operation>, i: nat)
    requires i < |operations|
    ensures HasId(operations, operations[i].id)
  {
  }

  /** How a completion is recorded. */
  predicate Records(op: Operation, result: D.Result) {
    match result
    case Done(v) => op.status == Succeeded(v)
    case Failed(f) => op.status == OperationFailed(f)
  }

  /** Exactly one operation differs. */
  predicate OnlyAt(i: nat, from: seq<Operation>, to: seq<Operation>) {
    && i < |from| == |to|
    && (forall j :: 0 <= j < |from| && j != i ==> to[j] == from[j])
    && to[i].id == from[i].id && to[i].key == from[i].key
    && to[i].device == from[i].device && to[i].start == from[i].start
  }

  /**
   A completion is recorded in its own operation and nowhere else, is announced with that operation, frees its
   lane, and leaves the device busy, monitoring, reconnecting or in error.
   */
  lemma CompletionIsRecorded(s: StoreState, d: string, c: D.Completion, hasReader: bool, i: nat)
    requires DistinctIds(s.operations) && d in s.devices && d in s.logs
    requires i < |s.operations| && s.operations[i].id == c.key && Retained(s, c.key)
    ensures var r := FinishedOne(s, d, c, hasReader);
            && OnlyAt(i, s.operations, r.operations) && Records(r.operations[i], c.result)
            && r.logs == s.logs[d := s.logs[d] + [OperationFinished(r.operations[i])]]
            && r.artifacts == s.artifacts && r.idempotency == s.idempotency
            && var (was, now) := (s.devices[d], r.devices[d]);
               && now.applicationPending == (was.applicationPending && c.lane.InputLane?)
               && now.inputPending == (was.inputPending && c.lane.ApplicationLane?)
               && !now.discardMonitorRead
               && (now.activity == Busy <==> now.busy)
               && (now.activity == Monitoring <==> !now.busy && hasReader)
               && (now.activity == Reconnecting <==> !now.busy && !hasReader && was.activity == Reconnecting)
               && now.availability == was.availability
  {
    PositionOf(s.operations, i);
  }

  /** A hardware operation keeps the artifact it produced under its own id, and only a successful one has any. */
  lemma HardwareIsRecorded(s: StoreState, d: string, outcome: Outcome, hasReader: bool, i: nat)
    requires DistinctIds(s.operations) && d in s.devices && d in s.logs && i < |s.operations|
    requires Retained(s, s.operations[i].id)
    ensures var (id, r) := (s.operations[i].id, FinishedHardware(s, d, s.operations[i].id, outcome, hasReader));
            && OnlyAt(i, s.operations, r.operations)
            && (r.operations[i].status.Succeeded? <==> outcome.Worked?)
            && (r.operations[i].status.HardwareFailed? <==> outcome.Broke?)
            && (outcome.Worked? ==> r.operations[i].status.result == outcome.result)
            && (outcome.Worked? && outcome.artifact.Some? ==>
                  id in r.artifacts && r.operations[i].artifact == Some(r.artifacts[id]))
            && (outcome.Broke? ==> r.artifacts == s.artifacts)
            && (forall other :: other in s.artifacts && other != id ==>
                  other in r.artifacts && r.artifacts[other] == s.artifacts[other])
            && r.logs == s.logs[d := s.logs[d] + [OperationFinished(r.operations[i])]]
            && (outcome.Worked? && outcome.artifact.Some? ==> r.artifacts[id] == outcome.artifact.value)
            && (outcome.Worked? && outcome.artifact.None? ==>
                  r.artifacts == s.artifacts && r.operations[i].artifact.None?)
            && (outcome.Broke? ==> r.operations[i].artifact == s.operations[i].artifact)
            && r.idempotency == s.idempotency
            && var (was, now) := (s.devices[d], r.devices[d]);
               && !now.busy && !now.discardMonitorRead
               && (now.activity == Monitoring <==> hasReader)
               && (now.activity == Idle <==> !hasReader && outcome.Worked?)
               && (now.activity == Faulty <==> !hasReader && outcome.Broke?)
               && now.availability == was.availability
               && now.applicationPending == was.applicationPending && now.inputPending == was.inputPending
  {
    PositionOf(s.operations, i);
  }
}
