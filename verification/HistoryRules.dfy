/** Who may do what to the shared table, spelled out operation by operation in every
    reachable state, and where a recovery's knowledge comes from. */
module HistoryRules {
  import opened Outcomes
  import opened Collections
  import opened ResultDocument
  import opened HistoryTable
  import opened HistorySafety

  /** The rows with one replaced, and the task's next event. */
  function Written(s: Store, id: string, row: Row, kind: string, at: int): Store {
    Store(s.tasks[id := row], s.events + [EventRow(id, |OfTask(s.events, id)| + 1, kind, at / 1000)])
  }

  lemma {:induction false} NextEvent(r: Retention, ops: seq<Op>, id: string, kind: string, at: int)
    requires PlainAppends(ops)
    ensures var events := Execute(r, ops).store.events;
            InsertEvent(events, id, kind, at) == events + [EventRow(id, |OfTask(events, id)| + 1, kind, at / 1000)]
  {
    ExecuteValid(r, ops);
    assert TaskValid(Execute(r, ops).store, id);
    hide Execute, OfTask, MaxSequence;
  }

  /** A task is created exactly under an unused id and with a lease that ends later. */
  lemma {:induction false} CreateExactly(r: Retention, ops: seq<Op>, op: Op)
    requires PlainAppends(ops) && op.Create?
    ensures var s, s' := Execute(r, ops).store, Apply(r, Execute(r, ops), op).store;
            s' == if op.id !in s.tasks && op.lease > op.at then
                    Written(s, op.id, Row(op.kind, op.digest, Pending, op.at / 1000, op.at / 1000, None, Some(op.owner),
                                          Some(op.lease / 1000)), "accepted", op.at)
                  else s
    ensures CreateTask(Execute(r, ops).store, op.id, op.kind, op.digest, op.owner, op.lease, op.at).error.None?
            <==> op.id !in Execute(r, ops).store.tasks && op.lease > op.at
  {
    NextEvent(r, ops, op.id, "accepted", op.at);
    hide Execute, OfTask, InsertEvent;
  }

  /** A task starts exactly for the owner of its pending row, with a lease that ends later;
      otherwise the whole store stays as it was. */
  lemma {:induction false} RunExactly(r: Retention, ops: seq<Op>, op: Op)
    requires PlainAppends(ops) && op.Run?
    ensures var s, s' := Execute(r, ops).store, Apply(r, Execute(r, ops), op).store;
            s' == if op.lease > op.at && op.id in s.tasks && s.tasks[op.id].state == Pending && s.tasks[op.id].owner == Some(op.owner) then
                    Written(s, op.id, s.tasks[op.id].(state := Running, updated := op.at / 1000, lease := Some(op.lease / 1000)),
                            "running", op.at)
                  else s
    ensures MarkRunning(Execute(r, ops).store, op.id, op.owner, op.lease, op.at).error.None?
            <==> Apply(r, Execute(r, ops), op).store != Execute(r, ops).store
  {
    NextEvent(r, ops, op.id, "running", op.at);
    hide Execute, OfTask, InsertEvent;
  }

  /** The finish comes from the owner of a running row of the same kind and plan. */
  predicate MayFinish(s: Store, owner: string, result: FinalResult) {
    && result.taskId in s.tasks
    && var row := s.tasks[result.taskId];
       row.state == Running && row.owner == Some(owner) && row.kind == result.kind && row.digest == result.digest
  }

  /** A finish changes the row of its task exactly when it may: the row then takes the
      result, its state and its time, and loses owner and lease, and retention runs. Any
      other finish leaves the whole store as it was. */
  lemma {:induction false} FinishExactly(r: Retention, ops: seq<Op>, op: Op)
    requires PlainAppends(ops) && op.Finish?
    ensures var s, s' := Execute(r, ops).store, Apply(r, Execute(r, ops), op).store;
            var id := op.result.taskId;
            && (!MayFinish(s, op.owner, op.result) ==> s' == s)
            && (MayFinish(s, op.owner, op.result) ==>
                  var row := s.tasks[id];
                  var closed := Row(row.kind, row.digest, op.result.state, row.created, op.result.endedAt / 1000, Some(op.result), None, None);
                  && s' == Prune(Written(s, id, closed, "terminal", op.result.endedAt), r, op.now)
                  && (id in s'.tasks ==> s'.tasks[id] == closed))
            && (FinishTask(s, r, op.owner, op.result, op.now).error.None? <==> MayFinish(s, op.owner, op.result))
            && (id in s.tasks ==> (MayFinish(s, op.owner, op.result) <==> !(id in s'.tasks && s'.tasks[id] == s.tasks[id])))
  {
    var w := Execute(r, ops);
    NextEvent(r, ops, op.result.taskId, "terminal", op.result.endedAt);
    hide Execute, OfTask, InsertEvent;
    var s1 := FinishRow(w.store, op.owner, op.result).store;
    PruneKeepsRows(s1, r, op.now);
    hide Prune;
  }

  lemma PruneKeepsRows(s: Store, r: Retention, now: int)
    ensures forall id :: id in Prune(s, r, now).tasks ==> id in s.tasks && Prune(s, r, now).tasks[id] == s.tasks[id]
  {
    hide Expired, Excess, Without;
  }

  /** A recovery changes the table exactly when it had read the row and state, owner and lease
      are still what it read. */
  lemma {:induction false} RecoverExactly(r: Retention, ops: seq<Op>, op: Op)
    requires PlainAppends(ops) && op.Recover?
    ensures var w := Execute(r, ops);
            var s, s', snap := w.store, Apply(r, w, op).store, op.snapshot;
            var same := snap in w.snapshots && snap.id in s.tasks && s.tasks[snap.id].state == snap.row.state
                        && s.tasks[snap.id].owner == snap.row.owner && s.tasks[snap.id].lease == snap.row.lease;
            && (!same ==> s' == s)
            && (same ==>
                  var row := s.tasks[snap.id];
                  s' == Written(s, snap.id, Row(row.kind, row.digest, snap.result.state, row.created, snap.result.endedAt / 1000,
                                                Some(snap.result), None, None), "recovered", snap.result.endedAt))
  {
    NextEvent(r, ops, op.snapshot.id, "recovered", op.snapshot.result.endedAt);
    hide Execute, OfTask, InsertEvent;
  }

  /** Appending needs the task only; reading changes nothing. */
  lemma {:induction false} AppendExactly(r: Retention, ops: seq<Op>, op: Op)
    requires PlainAppends(ops) && (op.Append? || op.Read?)
    ensures var s, s' := Execute(r, ops).store, Apply(r, Execute(r, ops), op).store;
            && s'.tasks == s.tasks
            && s'.events == if op.Append? && op.id in s.tasks
                            then s.events + [EventRow(op.id, |OfTask(s.events, op.id)| + 1, op.kind, op.at / 1000)] else s.events
  {
    if op.Append? {
      NextEvent(r, ops, op.id, op.kind, op.at);
    }
    hide Execute, OfTask, InsertEvent;
  }

  /** The sequence that an event takes is above all that the task has, and above none of
      them by more than one, in any table. */
  lemma {:induction false} SequenceExactly(events: seq<EventRow>, id: string)
    ensures var top := MaxSequence(events, id);
            && (forall i :: 0 <= i < |events| && events[i].task == id ==> events[i].sequence <= top)
            && (top > 0 ==> exists i :: 0 <= i < |events| && events[i].task == id && events[i].sequence == top)
  {
    if events != [] {
      var front := events[..|events| - 1];
      SequenceExactly(front, id);
      assert forall i :: 0 <= i < |front| ==> front[i] == events[i];
    }
  }

  // --- what a recovery knows ------------------------------------------------------------------

  /** The snapshot was taken at `now` of an open row whose lease, if it had an owner and a
      lease, had ended in stored time; its result fails the task under the row's identity. */
  predicate TakenAt(s: Store, snap: Snapshot, now: int) {
    && snap.id in s.tasks && s.tasks[snap.id] == snap.row
    && (snap.row.state == Pending || snap.row.state == Running)
    && (snap.row.owner == None || snap.row.lease == None || snap.row.lease.value <= now / 1000)
    && snap.result == StoredResult(snap.id, snap.row.kind, snap.row.digest, Failed,
                                   if snap.row.created * 1000 >= now then snap.row.created * 1000 else now)
  }

  ghost predicate WasRead(r: Retention, ops: seq<Op>, snap: Snapshot) {
    exists k :: 0 <= k < |ops| && ops[k].Read? && TakenAt(Execute(r, ops[..k]).store, snap, ops[k].now)
  }

  /** Recoveries hold exactly what some earlier read of the run has seen. */
  lemma {:induction false} SnapshotsExactly(r: Retention, ops: seq<Op>, snap: Snapshot)
    ensures snap in Execute(r, ops).snapshots <==> WasRead(r, ops, snap)
  {
    if ops != [] {
      var n := |ops| - 1;
      var before, op := ops[..n], ops[n];
      SnapshotsExactly(r, before, snap);
      SnapshotStep(r, Execute(r, before), op, snap);
      hide Execute, Apply, TakenAt;
      assert forall k :: 0 <= k < n ==> ops[..k] == before[..k] && ops[k] == before[k];
      if WasRead(r, before, snap) {
        var k :| 0 <= k < n && before[k].Read? && TakenAt(Execute(r, before[..k]).store, snap, before[k].now);
        assert ops[k].Read? && TakenAt(Execute(r, ops[..k]).store, snap, ops[k].now);
      }
      if WasRead(r, ops, snap) {
        var k :| 0 <= k < |ops| && ops[k].Read? && TakenAt(Execute(r, ops[..k]).store, snap, ops[k].now);
        if k < n {
          assert before[k].Read? && TakenAt(Execute(r, before[..k]).store, snap, before[k].now);
        }
      }
    }
  }

  lemma SnapshotStep(r: Retention, w: World, op: Op, snap: Snapshot)
    ensures snap in Apply(r, w, op).snapshots <==> snap in w.snapshots || (op.Read? && TakenAt(w.store, snap, op.now))
  {
    hide Prune, InsertEvent, CreateTask, MarkRunning, FinishTask, CommitRecovery, AppendEvent;
  }

  /** Nobody loses a live task: a recovery closes a row only if the lease that the row still
      has had ended, in stored time, when some earlier read looked at it. */
  lemma {:induction false} OnlyExpiredRecovered(r: Retention, ops: seq<Op>, snap: Snapshot)
    requires PlainAppends(ops) && Apply(r, Execute(r, ops), Recover(snap)).store != Execute(r, ops).store
    ensures var row := Execute(r, ops).store.tasks;
            && snap.id in row && row[snap.id].owner.Some? && row[snap.id].lease.Some?
            && exists k :: 0 <= k < |ops| && ops[k].Read? && row[snap.id].lease.value <= ops[k].now / 1000
  {
    RecoverExactly(r, ops, Recover(snap));
    SnapshotsExactly(r, ops, snap);
    ExecuteValid(r, ops);
    assert TaskValid(Execute(r, ops).store, snap.id);
    hide Execute, Apply, StoreValid, Contiguous;
    var k :| 0 <= k < |ops| && ops[k].Read? && TakenAt(Execute(r, ops[..k]).store, snap, ops[k].now);
  }
}
