/** The store that one process holds open on the shared tables. Each method is one
    transaction; other owners may run theirs between any two of them. */
module HistoryStores {
  import opened Outcomes
  import opened Collections
  import opened ResultDocument
  import opened HistoryTable
  import opened HistorySafety
  import opened RetentionRules

  class HistoryStore {
    var tasks: map<string, Row>
    var events: seq<EventRow>
    const retention: Retention

    ghost function Table(): Store
      reads this
    {
      Store(tasks, events)
    }

    constructor (retention: Retention)
      ensures this.retention == retention && Table() == EMPTY.store
    {
      this.retention := retention;
      tasks, events := map[], [];
    }

    /** Next sequence number of a task: one more than the largest in use. */
    method NextSequence(id: string) returns (sequence: nat)
      ensures sequence == MaxSequence(events, id) + 1
    {
      var largest, i := 0, 0;
      while i < |events|
        invariant 0 <= i <= |events| && largest == MaxSequence(events[..i], id)
      {
        assert events[..i + 1][..i] == events[..i];
        if events[i].task == id && events[i].sequence > largest {
          largest := events[i].sequence;
        }
        i := i + 1;
      }
      assert events[..i] == events;
      return largest + 1;
    }

    method InsertEvent(id: string, kind: string, at: int) returns (sequence: nat)
      modifies this`events
      ensures events == HistoryTable.InsertEvent(old(events), id, kind, at)
      ensures events == old(events) + [EventRow(id, sequence, kind, Ms(at))]
    {
      sequence := NextSequence(id);
      events := events + [EventRow(id, sequence, kind, Ms(at))];
    }

    method CreateTask(id: string, kind: string, digest: string, owner: string, lease: int, at: int)
      returns (error: Option<HistoryError>)
      modifies this
      ensures Answer(Table(), error) == HistoryTable.CreateTask(old(Table()), id, kind, digest, owner, lease, at)
      ensures old(StoreValid(Table())) ==> StoreValid(Table())
    {
      if lease <= at { return Some(LeaseInPast); }
      if id in tasks { return Some(AlreadyExists); }
      var row := Row(kind, digest, Pending, Ms(at), Ms(at), None, Some(owner), Some(Ms(lease)));
      if StoreValid(Table()) {
        WriteValid(Table(), id, row, "accepted", at);
      }
      hide StoreValid;
      tasks := tasks[id := row];
      var _ := InsertEvent(id, "accepted", at);
      return None;
    }

    method MarkRunning(id: string, owner: string, lease: int, at: int) returns (error: Option<HistoryError>)
      modifies this
      ensures Answer(Table(), error) == HistoryTable.MarkRunning(old(Table()), id, owner, lease, at)
      ensures old(StoreValid(Table())) ==> StoreValid(Table())
    {
      if lease <= at { return Some(LeaseInPast); }
      if id !in tasks || tasks[id].state != Pending || tasks[id].owner != Some(owner) { return Some(CannotRun); }
      var row := tasks[id].(state := Running, updated := Ms(at), lease := Some(Ms(lease)));
      if StoreValid(Table()) {
        assert TaskValid(Table(), id);
        WriteValid(Table(), id, row, "running", at);
      }
      hide StoreValid;
      tasks := tasks[id := row];
      var _ := InsertEvent(id, "running", at);
      return None;
    }

    method FinishTask(result: FinalResult, owner: string, now: int) returns (error: Option<HistoryError>)
      modifies this
      ensures Answer(Table(), error) == HistoryTable.FinishTask(old(Table()), retention, owner, result, now)
      ensures old(StoreValid(Table())) ==> StoreValid(Table())
    {
      hide HistoryTable.Prune;
      var id := result.taskId;
      if id !in tasks { return Some(UnknownTask); }
      if tasks[id].state != Running { return Some(NotRunning); }
      if tasks[id].owner != Some(owner) { return Some(OwnerMismatch); }
      if result.kind != tasks[id].kind || result.digest != tasks[id].digest { return Some(IdentityMismatch); }
      var row := Closed(tasks[id], result);
      if StoreValid(Table()) {
        WriteValid(Table(), id, row, "terminal", result.endedAt);
      }
      hide StoreValid;
      tasks := tasks[id := row];
      var _ := InsertEvent(id, "terminal", result.endedAt);
      var _ := Prune(now);
      return None;
    }

    /** First half of `recover_interrupted`: the rows it considers, with their results. */
    method ReadStale(now: int) returns (snapshots: set<Snapshot>)
      ensures snapshots == HistoryTable.ReadStale(Table(), now)
    {
      snapshots := {};
      var rest := tasks.Keys;
      while rest != {}
        invariant rest <= tasks.Keys
        invariant snapshots == set id | id in tasks && id !in rest && Stale(tasks[id], now)
                                 :: Snapshot(id, tasks[id], RecoveredResult(id, tasks[id], now))
        decreases rest
      {
        var id :| id in rest;
        rest := rest - {id};
        if Stale(tasks[id], now) {
          snapshots := snapshots + {Snapshot(id, tasks[id], RecoveredResult(id, tasks[id], now))};
        }
      }
    }

    /** Second half, one row at a time: whether the row was still what had been read. */
    method CommitRecovery(snap: Snapshot) returns (recovered: bool)
      requires snap.result.state == Failed && snap.result.taskId == snap.id && Open(snap.row.state)
      modifies this
      ensures Table() == HistoryTable.CommitRecovery(old(Table()), snap)
      ensures recovered <==> Unchanged(old(Table()), snap)
      ensures old(StoreValid(Table())) ==> StoreValid(Table())
    {
      var id := snap.id;
      if id !in tasks || tasks[id].state != snap.row.state || tasks[id].owner != snap.row.owner
        || tasks[id].lease != snap.row.lease
      {
        return false;
      }
      var row := Closed(tasks[id], snap.result);
      if StoreValid(Table()) {
        WriteValid(Table(), id, row, "recovered", snap.result.endedAt);
      }
      hide StoreValid;
      tasks := tasks[id := row];
      var _ := InsertEvent(id, "recovered", snap.result.endedAt);
      return true;
    }

    method AppendEvent(id: string, kind: string, at: int) returns (error: Option<HistoryError>)
      modifies this
      ensures Answer(Table(), error) == HistoryTable.AppendEvent(old(Table()), id, kind, at)
      ensures old(StoreValid(Table())) && !Closing(kind) ==> StoreValid(Table())
    {
      if id !in tasks { return Some(UnknownTask); }
      if StoreValid(Table()) && !Closing(kind) {
        AppendKeepsValid(Table(), id, kind, at);
      }
      hide StoreValid;
      var _ := InsertEvent(id, kind, at);
      return None;
    }

    /** Deletes what is too old in one statement, then the excess row by row. */
    method Prune(now: int) returns (removed: nat)
      modifies this
      ensures Table() == HistoryTable.Prune(old(Table()), retention, now)
      ensures removed == |old(tasks)| - |tasks|
      ensures old(StoreValid(Table())) ==> StoreValid(Table())
    {
      if StoreValid(Table()) {
        PruneKeepsValid(Table(), retention, now);
      }
      hide StoreValid, Newer, Drop, NewerClosed;
      var expired := Expired(Store(tasks, events), Ms(now - retention.maxAge));
      DropCount(Table(), expired);
      Delete(expired);
      var excess := Excess(Store(tasks, events), retention.maxTasks);
      assert excess <= ClosedIds(Table());
      DropCount(Table(), excess);
      DeleteEach(excess);
      removed := |expired| + |excess|;
    }

    /** `DELETE FROM tasks WHERE ...`, which takes the events of a task with it. */
    method Delete(ids: set<string>)
      modifies this
      ensures Table() == Drop(old(Table()), ids)
    {
      tasks := map id | id in tasks && id !in ids :: tasks[id];
      var kept, i := [], 0;
      while i < |events|
        invariant 0 <= i <= |events| && kept == Without(events[..i], ids)
      {
        assert events[..i + 1][..i] == events[..i];
        if events[i].task !in ids {
          kept := kept + [events[i]];
        }
        i := i + 1;
      }
      assert events[..i] == events;
      events := kept;
    }

    method DeleteEach(ids: set<string>)
      modifies this
      ensures Table() == Drop(old(Table()), ids)
    {
      hide Drop;
      ghost var before := Table();
      DropNothing(before);
      var rest := ids;
      assert ids - rest == {};
      while rest != {}
        invariant rest <= ids
        invariant Table() == Drop(before, ids - rest)
        decreases rest
      {
        var id :| id in rest;
        DropMore(before, ids - rest, id);
        assert ids - rest + {id} == ids - (rest - {id});
        Delete({id});
        rest := rest - {id};
      }
      assert ids - rest == ids;
    }
  }

  lemma {:induction false} WithoutMore(events: seq<EventRow>, ids: set<string>, id: string)
    ensures Without(Without(events, ids), {id}) == Without(events, ids + {id})
  {
    if events != [] {
      var front, last := events[..|events| - 1], events[|events| - 1];
      WithoutMore(front, ids, id);
      var kept := Without(front, ids);
      assert (kept + [last])[..|kept|] == kept;
      assert kept + [] == kept;
    }
  }

  lemma DropMore(s: Store, ids: set<string>, id: string)
    ensures Drop(Drop(s, ids), {id}) == Drop(s, ids + {id})
  {
    WithoutMore(s.events, ids, id);
    assert Drop(Drop(s, ids), {id}).tasks == Drop(s, ids + {id}).tasks;
  }

  lemma DropCount(s: Store, ids: set<string>)
    requires ids <= s.tasks.Keys
    ensures |Drop(s, ids).tasks| == |s.tasks| - |ids|
  {
    assert Drop(s, ids).tasks.Keys == s.tasks.Keys - ids;
    assert |s.tasks.Keys - ids| == |s.tasks.Keys| - |ids|;
  }
}
