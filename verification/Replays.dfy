/**
 What src/server.rs answers to a submit, over any interleaving: a repeated request gets the operation that was admitted
 for it, a key that was used for another request is refused, and a new request is admitted unless the device is busy.
 */
module Replays {
  import opened Device
  import opened Store
  import opened Admission
  import opened AdmissionRuns
  import opened ServiceRuns
  import S = Store
  import M = Mux
  import D = Duplex
  import R = DuplexRuns
  import H = History

  /** The answer to a submit in some state of the service. */
  function AnswerAt(w: World, d: string, action: Action, key: string, fingerprint: string): S.Admission
    requires Inv(w) && d in w.workers
  {
    KnownDevice(w, d);
    LocalOf(w, d);
    ReplayOf(At(w, d), d, key, fingerprint);
    Submit(At(w, d), d, action, key, fingerprint).1
  }

  /** Move i of a run was a submit with this key and this fingerprint, and it was admitted as operation id. */
  predicate AdmittedBy(epoch: string, moves: seq<Move>, env: R.Env, i: nat, key: string, fingerprint: string,
                       id: string)
    requires Possible(epoch, moves, env)
  {
    && i < |moves| && moves[i].Steps? && moves[i].step.Submits?
    && moves[i].step.key == key && moves[i].step.fingerprint == fingerprint
    && Possible(epoch, moves[..i], env)
    && moves[i].d in WorldAfter(epoch, moves[..i], env).workers
    && var r := AnswerAt(WorldAfter(epoch, moves[..i], env), moves[i].d, moves[i].step.action, key, fingerprint);
       r.Admitted? && r.operation.id == id
  }

  // ---------- where records come from ----------

  /** Records only disappear. */
  predicate Fewer(from: map<string, Record>, to: map<string, Record>) {
    forall key :: key in to ==> key in from && to[key] == from[key]
  }

  lemma {:induction false} EvictionOnlyForgets(s: StoreState)
    ensures Fewer(s.idempotency, Evicted(s).idempotency)
    decreases |s.operations|
  {
    hide Finished;
    hide Oldest;
    if Finished(s.operations) >= HISTORY {
      EvictionOnlyForgets(Removed(s, Oldest(s.operations)));
    }
  }

  lemma RecordedAdds(s: StoreState, d: string, action: Action, key: string, fingerprint: string)
    requires d in s.devices && d in s.logs
    ensures var (s', op) := Recorded(s, d, action, key, fingerprint);
            && key in s'.idempotency && s'.idempotency[key] == Record(fingerprint, op.id)
            && forall other :: other in s'.idempotency && other != key ==>
                 other in s.idempotency && s'.idempotency[other] == s.idempotency[other]
  {
    hide OperationId;
    hide Evicted;
    var flagged := s.(devices := s.devices[d := Occupied(s.devices[d], action).(activity := Busy)]);
    var started := Emitted(flagged, d, OperationStarted);
    EvictionOnlyForgets(started);
  }

  /** A submit adds at most the record of its own request, and only if it is admitted. */
  lemma SubmitRecords(l: Local, d: string, action: Action, key: string, fingerprint: string)
    requires d in l.store.devices && d in l.store.logs && Replayable(l.store, key)
    ensures var (l', r) := Submit(l, d, action, key, fingerprint);
            forall k :: k in l'.store.idempotency ==>
              || (k in l.store.idempotency && l'.store.idempotency[k] == l.store.idempotency[k])
              || (k == key && r.Admitted? && l'.store.idempotency[k] == Record(fingerprint, r.operation.id))
  {
    hide Recorded;
    hide Known;
    hide Compatible;
    hide OperationId;
    RecordedAdds(l.store, d, action, key, fingerprint);
  }

  lemma {:induction false} FinishForgetsNothing(l: Local, d: string)
    requires d in l.store.devices && d in l.store.logs && AllRetained(l.store, l.worker.transit)
    ensures Finish(l, d).store.idempotency == l.store.idempotency
    decreases |l.worker.transit|
  {
    if l.worker.transit != [] {
      assert Retained(l.store, l.worker.transit[0].key);
      RestIsRetained(l, d);
      FirstStays(l, d);
      FinishForgetsNothing(FinishFirst(l, d), d);
    }
  }

  /** No other step touches a record. */
  lemma StepRecords(l: Local, d: string, step: Step, env: R.Env)
    requires d in l.store.devices && d in l.store.logs && Enabled(l.worker, step) && Findable(l, step)
    requires !step.Submits?
    ensures Next(l, d, step, env).store.idempotency == l.store.idempotency
  {
    hide Enabled;
    hide Finish;
    hide Position;
    hide D.TickStep;
    hide D.FeedStep;
    hide D.AbortStep;
    if step.Finishes? {
      FinishForgetsNothing(l, d);
    } else if step.Prepares? {
      PrepareRecords(l, d);
    } else if step.Completes? {
      CompleteRecords(l, d, step.outcome);
    }
    hide Prepare;
    hide Complete;
  }

  lemma PrepareRecords(l: Local, d: string)
    requires d in l.store.logs && Enabled(l.worker, Prepares)
    ensures Prepare(l, d).store.idempotency == l.store.idempotency
  {
  }

  lemma CompleteRecords(l: Local, d: string, outcome: Outcome)
    requires d in l.store.devices && d in l.store.logs
    requires l.worker.task.Some? && Retained(l.store, l.worker.task.value.job.id)
    ensures Complete(l, d, outcome).store.idempotency == l.store.idempotency
  {
    hide Position;
  }

  lemma {:induction false} PossibleBefore(epoch: string, moves: seq<Move>, env: R.Env, i: nat)
    requires Possible(epoch, moves, env) && i <= |moves|
    ensures Possible(epoch, moves[..i], env)
    decreases |moves|
  {
    hide Can;
    hide Inv;
    hide Moved;
    if i == |moves| {
      assert moves[..i] == moves;
    } else {
      assert moves[..|moves| - 1][..i] == moves[..i];
      PossibleBefore(epoch, moves[..|moves| - 1], env, i);
    }
  }

  lemma AdmittedBefore(epoch: string, moves: seq<Move>, env: R.Env, n: nat, i: nat, key: string, fingerprint: string,
                       id: string)
    requires Possible(epoch, moves, env) && n <= |moves| && Possible(epoch, moves[..n], env)
    requires AdmittedBy(epoch, moves[..n], env, i, key, fingerprint, id)
    ensures AdmittedBy(epoch, moves, env, i, key, fingerprint, id)
  {
    hide WorldAfter;
    hide AnswerAt;
    hide Inv;
    assert moves[..n][..i] == moves[..i];
  }

  /** The records of a step's device: those before it, and that of the request it admits. */
  lemma MoveRecords(w: World, m: Move, env: R.Env, key: string)
    requires Inv(w) && Can(w, m) && key in Moved(w, m, env).store.idempotency
    ensures || (key in w.store.idempotency
                && Moved(w, m, env).store.idempotency[key] == w.store.idempotency[key])
            || (m.Steps? && m.step.Submits? && m.step.key == key && m.d in w.workers
                && var r := AnswerAt(w, m.d, m.step.action, key, m.step.fingerprint);
                   r.Admitted?
                   && Moved(w, m, env).store.idempotency[key] == Record(m.step.fingerprint, r.operation.id))
  {
    hide Inv;
    hide LocalInv;
    hide Submit;
    hide Enabled;
    if m.Steps? {
      LocalOf(w, m.d);
      KnownDevice(w, m.d);
      LookupsSucceed(At(w, m.d), m.d, m.step);
      if m.step.Submits? {
        ReplayOf(At(w, m.d), m.d, m.step.key, m.step.fingerprint);
        SubmitRecords(At(w, m.d), m.d, m.step.action, m.step.key, m.step.fingerprint);
      } else {
        StepRecords(At(w, m.d), m.d, m.step, env);
      }
    }
  }

  /** In every interleaving, every record comes from a submit that was admitted with its key and fingerprint. */
  lemma {:induction false} RecordsHaveSource(epoch: string, moves: seq<Move>, env: R.Env, key: string) returns (i: nat)
    requires Possible(epoch, moves, env) && key in WorldAfter(epoch, moves, env).store.idempotency
    ensures var record := WorldAfter(epoch, moves, env).store.idempotency[key];
            AdmittedBy(epoch, moves, env, i, key, record.fingerprint, record.operation)
  {
    hide Inv;
    hide Moved;
    hide AnswerAt;
    hide AdmittedBy;
    var n := |moves| - 1;
    var before := moves[..n];
    var w := WorldAfter(epoch, before, env);
    MoveRecords(w, moves[n], env, key);
    if key in w.store.idempotency
       && WorldAfter(epoch, moves, env).store.idempotency[key] == w.store.idempotency[key] {
      i := RecordsHaveSource(epoch, before, env, key);
      var record := w.store.idempotency[key];
      AdmittedBefore(epoch, moves, env, n, i, key, record.fingerprint, record.operation);
    } else {
      i := n;
      AdmittedNow(epoch, moves, env, key);
    }
  }

  lemma AdmittedNow(epoch: string, moves: seq<Move>, env: R.Env, key: string)
    requires Possible(epoch, moves, env) && moves != []
    requires var (w, m) := (WorldAfter(epoch, moves[..|moves| - 1], env), moves[|moves| - 1]);
             && m.Steps? && m.step.Submits? && m.step.key == key && m.d in w.workers
             && AnswerAt(w, m.d, m.step.action, key, m.step.fingerprint).Admitted?
    ensures var (w, m) := (WorldAfter(epoch, moves[..|moves| - 1], env), moves[|moves| - 1]);
            AdmittedBy(epoch, moves, env, |moves| - 1, key, m.step.fingerprint,
                       AnswerAt(w, m.d, m.step.action, key, m.step.fingerprint).operation.id)
  {
    hide WorldAfter;
    hide AnswerAt;
    hide Inv;
  }

  // ---------- one admission for each id ----------

  lemma {:induction false} FinishLogs(l: Local, d: string)
    requires d in l.store.devices && d in l.store.logs && AllRetained(l.store, l.worker.transit)
    ensures var l' := Finish(l, d); d in l'.store.logs && |l'.store.logs[d]| >= |l.store.logs[d]|
    decreases |l.worker.transit|
  {
    if l.worker.transit != [] {
      assert Retained(l.store, l.worker.transit[0].key);
      RestIsRetained(l, d);
      FirstStays(l, d);
      FinishLogs(FinishFirst(l, d), d);
    }
  }

  lemma EvictionKeepsLogs(s: StoreState, op: Operation)
    ensures PushedOperation(s, op).logs == s.logs && PushedOperation(s, op).epoch == s.epoch
  {
    hide Evicted;
  }

  lemma SubmitLogs(l: Local, d: string, action: Action, key: string, fingerprint: string)
    requires d in l.store.devices && d in l.store.logs && Replayable(l.store, key)
    ensures var (l', r) := Submit(l, d, action, key, fingerprint);
            && d in l'.store.logs && |l'.store.logs[d]| >= |l.store.logs[d]|
            && (r.Admitted? ==> |l'.store.logs[d]| > |l.store.logs[d]|
                                && r.operation.id == OperationId(l.store.epoch, d, |l.store.logs[d]| + 1))
  {
    hide Known;
    hide Compatible;
    hide OperationId;
    hide PushedOperation;
    var flagged := l.store.(devices := l.store.devices[d := Occupied(l.store.devices[d], action).(activity := Busy)]);
    var started := Emitted(flagged, d, OperationStarted);
    EvictionKeepsLogs(started, NewOperation(started, d, key));
    KnownIsOld(l.store, key, fingerprint);
  }

  lemma KnownIsOld(s: StoreState, key: string, fingerprint: string)
    requires Replayable(s, key)
    ensures var known := Known(s, key, fingerprint); known.Some? ==> known.value.Replayed? || known.value.KeyConflict?
  {
  }

  lemma StepLogs(l: Local, d: string, step: Step, env: R.Env)
    requires d in l.store.devices && d in l.store.logs && Enabled(l.worker, step) && Findable(l, step)
    ensures var l' := Next(l, d, step, env); d in l'.store.logs && |l'.store.logs[d]| >= |l.store.logs[d]|
  {
    match step {
      case Finishes => FinishLogs(l, d);
      case Submits(action, key, fingerprint) => SubmitLogs(l, d, action, key, fingerprint);
      case Prepares => PrepareLogs(l, d);
      case Completes(outcome) => CompleteLogs(l, d, outcome);
      case Publishes(lines) => PublishLogs(l, d, lines);
      case Notices(kind, status) => NoticeLogs(l, d, kind, status, env);
      case _ => WorkerLogs(l, d, step, env);
    }
    hide Enabled;
    hide Finish;
    hide Submit;
    hide Position;
    hide Prepare;
    hide Complete;
    hide Publish;
    hide EmitNote;
    hide Decline;
    hide Tick;
    hide Read;
    hide Aborted;
  }

  lemma NoticeLogs(l: Local, d: string, kind: string, status: M.Option<(Availability, Activity)>, env: R.Env)
    requires d in l.store.devices && d in l.store.logs
    ensures var l' := Next(l, d, Notices(kind, status), env);
            d in l'.store.logs && |l'.store.logs[d]| >= |l.store.logs[d]|
  {
  }

  lemma WorkerLogs(l: Local, d: string, step: Step, env: R.Env)
    requires d in l.store.devices && d in l.store.logs && Enabled(l.worker, step) && Findable(l, step)
    requires !step.Finishes? && !step.Submits? && !step.Prepares? && !step.Completes? && !step.Publishes?
    requires !step.Notices?
    ensures Next(l, d, step, env).store.logs == l.store.logs
  {
    hide Decline;
    hide Tick;
    hide Read;
    hide Aborted;
  }

  lemma PublishLogs(l: Local, d: string, lines: seq<seq<bv8>>)
    requires d in l.store.devices && d in l.store.logs && Enabled(l.worker, Publishes(lines))
    ensures d in Publish(l, d, lines).store.logs && |Publish(l, d, lines).store.logs[d]| >= |l.store.logs[d]|
  {
  }

  lemma PrepareLogs(l: Local, d: string)
    requires d in l.store.logs && Enabled(l.worker, Prepares)
    ensures d in Prepare(l, d).store.logs && |Prepare(l, d).store.logs[d]| >= |l.store.logs[d]|
  {
  }

  lemma CompleteLogs(l: Local, d: string, outcome: Outcome)
    requires d in l.store.devices && d in l.store.logs
    requires l.worker.task.Some? && Retained(l.store, l.worker.task.value.job.id)
    ensures d in Complete(l, d, outcome).store.logs
    ensures |Complete(l, d, outcome).store.logs[d]| >= |l.store.logs[d]|
  {
    hide Position;
  }

  /** Logs only grow, of every device. */
  predicate Longer(s: StoreState, s': StoreState) {
    s'.epoch == s.epoch && forall e :: e in s.logs ==> e in s'.logs && |s'.logs[e]| >= |s.logs[e]|
  }

  lemma MoveLogs(w: World, m: Move, env: R.Env)
    requires Inv(w) && Can(w, m)
    ensures Longer(w.store, Moved(w, m, env).store)
  {
    hide LocalInv;
    hide Enabled;
    hide Devices;
    hide H.Consistent;
    hide RunningIds;
    hide Next;
    if m.Steps? {
      LocalOf(w, m.d);
      KnownDevice(w, m.d);
      var l := At(w, m.d);
      LookupsSucceed(l, m.d, m.step);
      StepKeeps(l, m.d, m.step, env);
      StepLogs(l, m.d, m.step, env);
      forall e | e in w.store.logs ensures e in Next(l, m.d, m.step, env).store.logs {
        assert e in Next(l, m.d, m.step, env).store.logs.Keys;
      }
    }
  }

  lemma LongerAgain(a: StoreState, b: StoreState, c: StoreState)
    requires Longer(a, b) && Longer(b, c)
    ensures Longer(a, c)
  {
  }

  lemma {:induction false} RunLogs(epoch: string, moves: seq<Move>, env: R.Env, i: nat)
    requires Possible(epoch, moves, env) && i <= |moves| && Possible(epoch, moves[..i], env)
    ensures Longer(WorldAfter(epoch, moves[..i], env).store, WorldAfter(epoch, moves, env).store)
    decreases |moves|
  {
    hide Inv;
    hide Moved;
    hide Longer;
    if i == |moves| {
      assert moves[..i] == moves;
      LongerItself(WorldAfter(epoch, moves, env).store);
    } else {
      var n := |moves| - 1;
      assert moves[..n][..i] == moves[..i];
      RunLogs(epoch, moves[..n], env, i);
      MoveLogs(WorldAfter(epoch, moves[..n], env), moves[n], env);
      LongerAgain(WorldAfter(epoch, moves[..i], env).store, WorldAfter(epoch, moves[..n], env).store,
                  WorldAfter(epoch, moves, env).store);
    }
  }

  lemma LongerItself(s: StoreState)
    ensures Longer(s, s)
  {
  }

  /** What an admission says of the log: its id is that of the next event, and the log grows. */
  lemma AdmissionLogs(epoch: string, moves: seq<Move>, env: R.Env, i: nat, key: string, fingerprint: string,
                      id: string)
    requires Possible(epoch, moves, env) && AdmittedBy(epoch, moves, env, i, key, fingerprint, id)
    ensures i < |moves| && Possible(epoch, moves[..i], env) && Possible(epoch, moves[..i + 1], env)
    ensures var (s, s', d) := (WorldAfter(epoch, moves[..i], env).store, WorldAfter(epoch, moves[..i + 1], env).store,
                               moves[i].d);
            && d in s.logs && d in s'.logs && |s'.logs[d]| > |s.logs[d]|
            && id == OperationId(s.epoch, d, |s.logs[d]| + 1)
  {
    hide LocalInv;
    hide Submit;
    hide Inv;
    hide OperationId;
    PossibleBefore(epoch, moves, env, i + 1);
    assert moves[..i + 1][..i] == moves[..i];
    var w, m := WorldAfter(epoch, moves[..i], env), moves[i];
    KnownDevice(w, m.d);
    LocalOf(w, m.d);
    ReplayOf(At(w, m.d), m.d, key, fingerprint);
    SubmitLogs(At(w, m.d), m.d, m.step.action, key, fingerprint);
  }

  /** Two admissions never have one id. */
  lemma AdmittedOnce(epoch: string, moves: seq<Move>, env: R.Env, i: nat, j: nat, k: string, f: string, k': string,
                     f': string, id: string)
    requires Possible(epoch, moves, env)
    requires AdmittedBy(epoch, moves, env, i, k, f, id) && AdmittedBy(epoch, moves, env, j, k', f', id)
    ensures i == j
  {
    if i < j {
      LaterAdmission(epoch, moves, env, i, j, k, f, k', f', id);
    } else if j < i {
      LaterAdmission(epoch, moves, env, j, i, k', f', k, f, id);
    }
  }

  lemma LogsBetween(epoch: string, moves: seq<Move>, env: R.Env, i: nat, j: nat)
    requires Possible(epoch, moves, env) && i <= j <= |moves|
    requires Possible(epoch, moves[..i], env) && Possible(epoch, moves[..j], env)
    ensures Longer(WorldAfter(epoch, moves[..i], env).store, WorldAfter(epoch, moves[..j], env).store)
  {
    hide WorldAfter;
    hide Longer;
    hide Inv;
    assert moves[..j][..i] == moves[..i];
    RunLogs(epoch, moves[..j], env, i);
  }

  lemma OtherId(before: StoreState, after: StoreState, later: StoreState, d: string, e: string, id: string)
    requires d in before.logs && d in after.logs && |after.logs[d]| > |before.logs[d]| && e in later.logs
    requires Longer(before, after) && Longer(after, later) && id == OperationId(before.epoch, d, |before.logs[d]| + 1)
    ensures id != OperationId(later.epoch, e, |later.logs[e]| + 1)
  {
    hide OperationId;
    if id == OperationId(later.epoch, e, |later.logs[e]| + 1) {
      OperationIdInjective(before.epoch, d, |before.logs[d]| + 1, e, |later.logs[e]| + 1);
    }
  }

  lemma LaterAdmission(epoch: string, moves: seq<Move>, env: R.Env, i: nat, j: nat, k: string, f: string, k': string,
                       f': string, id: string)
    requires Possible(epoch, moves, env) && i < j && AdmittedBy(epoch, moves, env, i, k, f, id)
    ensures !AdmittedBy(epoch, moves, env, j, k', f', id)
  {
    hide WorldAfter;
    hide OperationId;
    hide Longer;
    hide Inv;
    hide AdmittedBy;
    if AdmittedBy(epoch, moves, env, j, k', f', id) {
      AdmissionLogs(epoch, moves, env, i, k, f, id);
      AdmissionLogs(epoch, moves, env, j, k', f', id);
      LogsBetween(epoch, moves, env, i, i + 1);
      LogsBetween(epoch, moves, env, i + 1, j);
      OtherId(WorldAfter(epoch, moves[..i], env).store, WorldAfter(epoch, moves[..i + 1], env).store,
              WorldAfter(epoch, moves[..j], env).store, moves[i].d, moves[j].d, id);
    }
  }

  // ---------- the answers ----------

  /** The operation of a request that was admitted with this key and fingerprint is retained. */
  ghost predicate RetainedFrom(epoch: string, moves: seq<Move>, env: R.Env, key: string, fingerprint: string,
                               op: Operation)
    requires Possible(epoch, moves, env)
  {
    && op in WorldAfter(epoch, moves, env).store.operations
    && exists i: nat :: AdmittedBy(epoch, moves, env, i, key, fingerprint, op.id)
  }

  /** The record of a retained request has its fingerprint. */
  lemma RetainedHasRecord(epoch: string, moves: seq<Move>, env: R.Env, key: string, fingerprint: string,
                          op: Operation)
    requires Possible(epoch, moves, env) && RetainedFrom(epoch, moves, env, key, fingerprint, op)
    ensures var s := WorldAfter(epoch, moves, env).store;
            key in s.idempotency && s.idempotency[key] == Record(fingerprint, op.id) && op.key == key
  {
    hide WorldAfter;
    hide AdmittedBy;
    hide Devices;
    var s := WorldAfter(epoch, moves, env).store;
    var k :| 0 <= k < |s.operations| && s.operations[k] == op;
    assert H.HasRecord(s.operations[k], s.idempotency);
    var i: nat :| AdmittedBy(epoch, moves, env, i, key, fingerprint, op.id);
    var j := RecordsHaveSource(epoch, moves, env, op.key);
    AdmittedOnce(epoch, moves, env, i, j, key, fingerprint, op.key, s.idempotency[op.key].fingerprint, op.id);
    SameAdmission(epoch, moves, env, i, key, fingerprint, op.key, s.idempotency[op.key].fingerprint, op.id);
  }

  lemma SameAdmission(epoch: string, moves: seq<Move>, env: R.Env, i: nat, k: string, f: string, k': string,
                      f': string, id: string)
    requires Possible(epoch, moves, env)
    requires AdmittedBy(epoch, moves, env, i, k, f, id) && AdmittedBy(epoch, moves, env, i, k', f', id)
    ensures k == k' && f == f'
  {
    hide WorldAfter;
  }

  /** A key on record: the answer depends on the fingerprint alone, and nothing changes. */
  lemma KnownAnswers(epoch: string, moves: seq<Move>, env: R.Env, d: string, action: Action, key: string,
                     fingerprint: string) returns (op: Operation)
    requires Possible(epoch, moves, env) && d in WorldAfter(epoch, moves, env).workers
    requires key in WorldAfter(epoch, moves, env).store.idempotency
    ensures var w := WorldAfter(epoch, moves, env);
            var known := w.store.idempotency[key].fingerprint;
            && RetainedFrom(epoch, moves, env, key, known, op)
            && AnswerAt(w, d, action, key, fingerprint) == (if fingerprint == known then Replayed(op) else KeyConflict)
            && SameDevices(w) && Replayable(w.store, key)
            && Submit(At(w, d), d, action, key, fingerprint).0 == At(w, d)
  {
    hide WorldAfter;
    hide AdmittedBy;
    hide Devices;
    hide LocalInv;
    hide Position;
    hide Recorded;
    hide OperationId;
    hide H.AllNamed;
    var w := WorldAfter(epoch, moves, env);
    KnownDevice(w, d);
    LocalOf(w, d);
    var known := w.store.idempotency[key].fingerprint;
    H.ReplayFindsOperation(w.store, key, known);
    hide H.Linked;
    var i :| 0 <= i < |w.store.operations| && w.store.operations[i].key == key
          && Known(w.store, key, known) == M.Some(Replayed(w.store.operations[i]));
    op := w.store.operations[i];
    RecordNames(w.store, i);
    var j := RecordsHaveSource(epoch, moves, env, key);
  }

  lemma RecordNames(s: StoreState, i: nat)
    requires H.Consistent(s) && i < |s.operations|
    ensures s.operations[i].key in s.idempotency
    ensures s.idempotency[s.operations[i].key].operation == s.operations[i].id
  {
    hide H.AllNamed;
    assert H.HasRecord(s.operations[i], s.idempotency);
  }

  /**
   In every interleaving, a submit is answered with an operation exactly if that operation is retained and was admitted
   for this key and this very request; it is refused with a conflict exactly if the key is that of a retained operation
   admitted for another request. In either case nothing changes.
   */
  lemma SubmitAnswers(epoch: string, moves: seq<Move>, env: R.Env, d: string, action: Action, key: string,
                      fingerprint: string)
    requires Possible(epoch, moves, env) && d in WorldAfter(epoch, moves, env).workers
    ensures var w := WorldAfter(epoch, moves, env);
            var r := AnswerAt(w, d, action, key, fingerprint);
            && (forall op :: r == Replayed(op) <==> RetainedFrom(epoch, moves, env, key, fingerprint, op))
            && (r == KeyConflict <==> exists f, op :: f != fingerprint && RetainedFrom(epoch, moves, env, key, f, op))
            && SameDevices(w) && Replayable(w.store, key)
            && (r.Replayed? || r.KeyConflict? ==> Submit(At(w, d), d, action, key, fingerprint).0 == At(w, d))
  {
    hide WorldAfter;
    hide RetainedFrom;
    hide LocalInv;
    hide Inv;
    var w := WorldAfter(epoch, moves, env);
    KnownDevice(w, d);
    LocalOf(w, d);
    ReplayOf(At(w, d), d, key, fingerprint);
    forall f, op | RetainedFrom(epoch, moves, env, key, f, op)
      ensures key in w.store.idempotency && w.store.idempotency[key] == Record(f, op.id) && op.key == key
    {
      RetainedHasRecord(epoch, moves, env, key, f, op);
    }
    if key in w.store.idempotency {
      var op := KnownAnswers(epoch, moves, env, d, action, key, fingerprint);
      var known := w.store.idempotency[key].fingerprint;
      forall f, other | RetainedFrom(epoch, moves, env, key, f, other) ensures other == op && f == known {
        SameOperation(epoch, moves, env, key, f, other, known, op);
      }
    } else {
      UnknownIsNew(At(w, d), d, action, key, fingerprint);
    }
    hide AnswerAt;
  }

  lemma SameOperation(epoch: string, moves: seq<Move>, env: R.Env, key: string, f: string, a: Operation, g: string,
                      b: Operation)
    requires Possible(epoch, moves, env)
    requires RetainedFrom(epoch, moves, env, key, f, a) && RetainedFrom(epoch, moves, env, key, g, b)
    ensures a == b && f == g
  {
    hide WorldAfter;
    hide AdmittedBy;
    hide Devices;
    hide H.AllNamed;
    RetainedHasRecord(epoch, moves, env, key, f, a);
    RetainedHasRecord(epoch, moves, env, key, g, b);
    var s := WorldAfter(epoch, moves, env).store;
    var i :| 0 <= i < |s.operations| && s.operations[i] == a;
    var j :| 0 <= j < |s.operations| && s.operations[j] == b;
    assert H.DistinctIds(s.operations);
  }

  lemma UnknownIsNew(l: Local, d: string, action: Action, key: string, fingerprint: string)
    requires d in l.store.devices && d in l.store.logs && key !in l.store.idempotency
    ensures var r := Submit(l, d, action, key, fingerprint).1; !r.Replayed? && !r.KeyConflict?
  {
    hide Recorded;
    hide OperationId;
    hide Compatible;
  }

  // ---------- new requests ----------

  /** What may run beside what the device is occupied with: nothing, or a request and an input. */
  predicate HasRoomFor(o: Occupancy, action: Action) {
    match o
    case Free => true
    case Exclusive(_, _) => false
    case Lanes(application, input) =>
      match action
      case Application(command) => command.Some? && application.None?
      case SerialWrite(_) => input.None?
      case Hardware(_) => false
  }

  /** In every interleaving, a request with a new key is admitted exactly if the device has room for it. */
  lemma NewRequestIsAdmitted(epoch: string, moves: seq<Move>, env: R.Env, d: string, action: Action, key: string,
                             fingerprint: string)
    requires Possible(epoch, moves, env) && d in WorldAfter(epoch, moves, env).workers
    requires key !in WorldAfter(epoch, moves, env).store.idempotency
    ensures var w := WorldAfter(epoch, moves, env);
            && d in w.occupied
            && var r := AnswerAt(w, d, action, key, fingerprint);
               if HasRoomFor(w.occupied[d], action)
               then r.Admitted? && r.operation.key == key && r.operation.device == d && r.operation.status.Running?
               else r == DeviceBusy
  {
    hide WorldAfter;
    hide Inv;
    hide LocalInv;
    var w := WorldAfter(epoch, moves, env);
    KnownDevice(w, d);
    LocalOf(w, d);
    var l := At(w, d);
    Parts(l, d);
    ReplayOf(l, d, key, fingerprint);
    ChannelHasRoom(l, d, action, key, fingerprint);
    RoomIsAdmitted(l, d, action, key, fingerprint);
  }

  lemma RoomIsAdmitted(l: Local, d: string, action: Action, key: string, fingerprint: string)
    requires d in l.store.devices && d in l.store.logs && Describes(l.store.devices[d], l.occupied)
    requires key !in l.store.idempotency && !Submit(l, d, action, key, fingerprint).1.WorkerUnavailable?
    ensures var r := Submit(l, d, action, key, fingerprint).1;
            if HasRoomFor(l.occupied, action)
            then r.Admitted? && r.operation.key == key && r.operation.device == d && r.operation.status.Running?
            else r == DeviceBusy
  {
    hide OperationId;
    hide PushedOperation;
  }
}
