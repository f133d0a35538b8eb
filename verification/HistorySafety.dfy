/** Lifecycle safety in every interleaving of creates, runs, finishes, two-phase
    recoveries, appended events and retention by any number of owners. */
module HistorySafety {
  import opened Outcomes
  import opened Collections
  import opened ResultDocument
  import opened HistoryTable

  function Closings(events: seq<EventRow>): nat {
    if events == [] then 0
    else Closings(events[..|events| - 1]) + (if Closing(events[|events| - 1].kind) then 1 else 0)
  }

  /** Open rows have an owner, a lease and no result; closed rows have the reverse. */
  ghost predicate RowValid(id: string, row: Row) {
    if Open(row.state) then row.owner.Some? && row.lease.Some? && row.result.None?
    else
      && row.owner.None? && row.lease.None? && row.result.Some?
      && row.result.value.state == row.state && row.result.value.taskId == id
  }

  ghost predicate Contiguous(events: seq<EventRow>, id: string) {
    forall k :: 0 <= k < |OfTask(events, id)| ==> OfTask(events, id)[k].sequence == k + 1
  }

  /** Sequences of each task run 1, 2, 3, ...; a task has one closing event if it is
      closed and none if it is open; no event outlives its task. */
  ghost predicate TaskValid(s: Store, id: string) {
    && Contiguous(s.events, id)
    && MaxSequence(s.events, id) == |OfTask(s.events, id)|
    && (id in s.tasks ==>
          && RowValid(id, s.tasks[id])
          && Closings(OfTask(s.events, id)) == (if Open(s.tasks[id].state) then 0 else 1))
    && (id !in s.tasks ==> OfTask(s.events, id) == [])
  }

  ghost predicate StoreValid(s: Store) {
    forall id :: TaskValid(s, id)
  }

  // --- events ----------------------------------------------------------------------------

  lemma {:induction false} InsertedEvent(events: seq<EventRow>, id: string, kind: string, at: int, other: string)
    requires Contiguous(events, other) && MaxSequence(events, other) == |OfTask(events, other)|
    ensures var after := InsertEvent(events, id, kind, at);
            && Contiguous(after, other) && MaxSequence(after, other) == |OfTask(after, other)|
            && (other != id ==> OfTask(after, other) == OfTask(events, other))
            && (other == id ==>
                  && |OfTask(after, id)| == |OfTask(events, id)| + 1
                  && Closings(OfTask(after, id)) == Closings(OfTask(events, id)) + (if Closing(kind) then 1 else 0))
  {
    var after := InsertEvent(events, id, kind, at);
    var last := after[|events|];
    assert after[..|events|] == events;
    assert OfTask(after, other) == OfTask(events, other) + (if last.task == other then [last] else []);
    if other == id {
      var mine := OfTask(events, id);
      assert (mine + [last])[..|mine|] == mine;
    }
  }

  lemma {:induction false} WithoutOfTask(events: seq<EventRow>, ids: set<string>, id: string)
    ensures OfTask(Without(events, ids), id) == if id in ids then [] else OfTask(events, id)
  {
    hide MaxSequence;
    if events != [] {
      var front, last := events[..|events| - 1], events[|events| - 1];
      WithoutOfTask(front, ids, id);
      var kept := Without(front, ids);
      assert (kept + [last])[..|kept|] == kept;
      assert kept + [] == kept;
    }
  }

  lemma {:induction false} WithoutMaxSequence(events: seq<EventRow>, ids: set<string>, id: string)
    ensures MaxSequence(Without(events, ids), id) == if id in ids then 0 else MaxSequence(events, id)
  {
    hide OfTask;
    if events != [] {
      var front, last := events[..|events| - 1], events[|events| - 1];
      WithoutMaxSequence(front, ids, id);
      var kept := Without(front, ids);
      assert (kept + [last])[..|kept|] == kept;
      assert kept + [] == kept;
    }
  }

  // --- every transaction keeps the tables valid ----------------------------------------------

  /** One row is written and one event appended for it. */
  lemma WriteValid(s: Store, id: string, row: Row, kind: string, at: int)
    requires StoreValid(s) && RowValid(id, row)
    requires id in s.tasks ==> Open(s.tasks[id].state)
    requires Open(row.state) <==> !Closing(kind)
    ensures StoreValid(Store(s.tasks[id := row], InsertEvent(s.events, id, kind, at)))
  {
    var s' := Store(s.tasks[id := row], InsertEvent(s.events, id, kind, at));
    forall x ensures TaskValid(s', x) {
      assert TaskValid(s, x);
      InsertedEvent(s.events, id, kind, at, x);
    }
  }

  lemma AppendKeepsValid(s: Store, id: string, kind: string, at: int)
    requires StoreValid(s) && !Closing(kind)
    ensures StoreValid(AppendEvent(s, id, kind, at).store)
  {
    var s' := AppendEvent(s, id, kind, at).store;
    forall x ensures TaskValid(s', x) {
      assert TaskValid(s, x);
      InsertedEvent(s.events, id, kind, at, x);
    }
  }

  lemma DropKeepsValid(s: Store, ids: set<string>)
    requires StoreValid(s)
    ensures StoreValid(Drop(s, ids))
  {
    forall x ensures TaskValid(Drop(s, ids), x) {
      assert TaskValid(s, x);
      WithoutOfTask(s.events, ids, x);
      WithoutMaxSequence(s.events, ids, x);
    }
  }

  lemma PruneKeepsValid(s: Store, r: Retention, now: int)
    requires StoreValid(s)
    ensures StoreValid(Prune(s, r, now))
  {
    hide StoreValid;
    var recent := Drop(s, Expired(s, Ms(now - r.maxAge)));
    DropKeepsValid(s, Expired(s, Ms(now - r.maxAge)));
    DropKeepsValid(recent, Excess(recent, r.maxTasks));
  }

  /** Snapshots were open rows, carry the identity of the row they were read from, and
      have the tenure that row had. */
  ghost predicate SnapshotValid(w: World, snap: Snapshot) {
    && Open(snap.row.state) && snap.result.state == Failed
    && SameIdentity(snap.id, snap.row, snap.result)
    && Held(w, snap.id, snap.row)
  }

  ghost predicate Held(w: World, id: string, row: Row) {
    row.owner.Some? && row.lease.Some? && Tenure(id, row.state, row.owner.value, row.lease.value) in w.tenures
  }

  ghost predicate TenuresKept(w: World) {
    forall id :: id in w.store.tasks && Open(w.store.tasks[id].state) ==> Held(w, id, w.store.tasks[id])
  }

  ghost predicate WorldValid(w: World) {
    && StoreValid(w.store) && TenuresKept(w)
    && (forall snap :: snap in w.snapshots ==> SnapshotValid(w, snap))
  }

  /** A recovery that would commit: state, owner and lease are what was read, but the row
      belongs to another task. */
  predicate Impostor(s: Store, snap: Snapshot) {
    && Unchanged(s, snap)
    && (s.tasks[snap.id].kind != snap.row.kind || s.tasks[snap.id].digest != snap.row.digest)
  }

  ghost predicate WorldFresh(w: World) {
    forall snap :: snap in w.snapshots ==> !Impostor(w.store, snap)
  }

  lemma OpKeepsStoreValid(r: Retention, w: World, op: Op)
    requires WorldValid(w) && (op.Append? ==> !Closing(op.kind))
    ensures StoreValid(Apply(r, w, op).store)
  {
    var s := w.store;
    hide Prune;
    match op
    case Create(id, kind, digest, owner, lease, at) =>
      if CreateTask(s, id, kind, digest, owner, lease, at).error.None? {
        WriteValid(s, id, CreateTask(s, id, kind, digest, owner, lease, at).store.tasks[id], "accepted", at);
      }
    case Run(id, owner, lease, at) =>
      if MarkRunning(s, id, owner, lease, at).error.None? {
        assert TaskValid(s, id);
        WriteValid(s, id, MarkRunning(s, id, owner, lease, at).store.tasks[id], "running", at);
      }
    case Finish(owner, result, now) =>
      if FinishRow(s, owner, result).error.None? {
        WriteValid(s, result.taskId, Closed(s.tasks[result.taskId], result), "terminal", result.endedAt);
        PruneKeepsValid(FinishRow(s, owner, result).store, r, now);
      }
    case Recover(snap) =>
      if snap in w.snapshots && Unchanged(s, snap) {
        WriteValid(s, snap.id, Closed(s.tasks[snap.id], snap.result), "recovered", snap.result.endedAt);
      }
    case Append(id, kind, at) => AppendKeepsValid(s, id, kind, at);
    case Retain(now) => PruneKeepsValid(s, r, now);
    case Read(_) =>
  }

  /** Rows after an operation: untouched, created now, or the same incarnation moved on.
      A closed row is never touched: it stays as it is or retention removes it. */
  lemma RowStep(r: Retention, w: World, op: Op, id: string)
    requires WorldValid(w)
    ensures var s, s' := w.store, Apply(r, w, op).store;
            id in s'.tasks ==>
              || (id in s.tasks && s'.tasks[id] == s.tasks[id])
              || (op.Create? && op.id == id && id !in s.tasks && s'.tasks[id].owner == Some(op.owner) && s'.tasks[id].result.None?)
              || (id in s.tasks && Open(s.tasks[id].state)
                  && s'.tasks[id].kind == s.tasks[id].kind && s'.tasks[id].digest == s.tasks[id].digest
                  && (s'.tasks[id].owner == s.tasks[id].owner || s'.tasks[id].owner.None?)
                  && (s'.tasks[id].result == s.tasks[id].result
                      || (op.Finish? && op.result.taskId == id && SameIdentity(id, s.tasks[id], op.result)
                          && s'.tasks[id].result == Some(op.result))
                      || (op.Recover? && op.snapshot.id == id && op.snapshot in w.snapshots && Unchanged(s, op.snapshot)
                          && s'.tasks[id].result == Some(op.snapshot.result))))
  {
    assert TaskValid(w.store, id);
    hide StoreValid, TaskValid, Excess, Without, InsertEvent;
  }

  /** Rows keep their tenure, or get one that is recorded. */
  lemma TenureStep(r: Retention, w: World, op: Op, id: string)
    requires WorldValid(w)
    ensures var s, s' := w.store, Apply(r, w, op).store;
            id in s'.tasks && Open(s'.tasks[id].state) ==>
              || (id in s.tasks && s'.tasks[id] == s.tasks[id])
              || (Grant(s, op).Some? && Held(Apply(r, w, op), id, s'.tasks[id])
                  && Grant(s, op).value.id == id && Grant(s, op).value.state == s'.tasks[id].state
                  && Some(Grant(s, op).value.owner) == s'.tasks[id].owner && Some(Grant(s, op).value.lease) == s'.tasks[id].lease)
  {
    RowStep(r, w, op, id);
    hide StoreValid, Excess, Without, InsertEvent, Prune, FinishRow, Unchanged, SameIdentity;
    assert TaskValid(w.store, id) by { AllValid(w, id); }
    hide TaskValid;
  }

  lemma AllValid(w: World, id: string)
    requires WorldValid(w)
    ensures TaskValid(w.store, id)
  {
  }

  lemma OpKeepsWorldValid(r: Retention, w: World, op: Op)
    requires WorldValid(w) && (op.Append? ==> !Closing(op.kind))
    ensures WorldValid(Apply(r, w, op))
  {
    OpKeepsStoreValid(r, w, op);
    var w' := Apply(r, w, op);
    assert w.tenures <= w'.tenures;
    forall id | id in w'.store.tasks && Open(w'.store.tasks[id].state) ensures Held(w', id, w'.store.tasks[id]) {
      TenureStep(r, w, op, id);
    }
    if op.Read? {
      forall snap | snap in w'.snapshots ensures SnapshotValid(w', snap) {
        if snap !in w.snapshots {
          assert TaskValid(w.store, snap.id);
        }
      }
    }
    hide StoreValid;
  }

  /** A recovery commits only into the task it has read: a fresh tenure is not that of
      any snapshot. */
  lemma OpKeepsFresh(r: Retention, w: World, op: Op)
    requires WorldValid(w) && WorldFresh(w) && FreshGrant(w, op)
    ensures WorldFresh(Apply(r, w, op))
  {
    var w' := Apply(r, w, op);
    forall snap | snap in w'.snapshots ensures !Impostor(w'.store, snap) {
      if Unchanged(w'.store, snap) {
        if snap in w.snapshots {
          assert SnapshotValid(w, snap) && !Impostor(w.store, snap);
        }
        TenureStep(r, w, op, snap.id);
      }
    }
  }

  lemma {:induction false} ExecuteValid(r: Retention, ops: seq<Op>)
    requires PlainAppends(ops)
    ensures WorldValid(Execute(r, ops))
    ensures FreshTenures(r, ops) ==> WorldFresh(Execute(r, ops))
  {
    if ops != [] {
      var before, op := ops[..|ops| - 1], ops[|ops| - 1];
      ExecuteValid(r, before);
      assert op.Append? ==> !Closing(op.kind);
      hide WorldValid, WorldFresh, Apply, FreshGrant;
      OpKeepsWorldValid(r, Execute(r, before), op);
      if FreshTenures(r, ops) {
        OpKeepsFresh(r, Execute(r, before), op);
      }
    } else {
      assert forall id :: TaskValid(EMPTY.store, id);
    }
  }

  // --- theorems ---------------------------------------------------------------------------------

  /** Whatever the owners do in whatever order: a task closes at most once, with exactly
      one `terminal` or `recovered` event; open rows have an owner, a lease and no result,
      closed rows the reverse; event sequences are contiguous from 1. */
  lemma {:induction false} LifecycleSafety(r: Retention, ops: seq<Op>, id: string)
    requires PlainAppends(ops) && id in Execute(r, ops).store.tasks
    ensures var s := Execute(r, ops).store;
            var row, mine := s.tasks[id], OfTask(s.events, id);
            && (Open(row.state) ==> row.owner.Some? && row.lease.Some? && row.result.None?)
            && (!Open(row.state) ==> row.owner.None? && row.lease.None? && row.result.Some?
                                     && row.result.value.state == row.state)
            && Closings(mine) == (if Open(row.state) then 0 else 1)
            && (forall k :: 0 <= k < |mine| ==> mine[k].sequence == k + 1)
  {
    ExecuteValid(r, ops);
    assert TaskValid(Execute(r, ops).store, id);
  }

  /** A closed row never changes again: as long as retention leaves it, its state and
      result stay what they were when it closed. */
  lemma {:induction false} ClosedRowsFrozen(r: Retention, ops: seq<Op>, i: nat, j: nat, id: string)
    requires PlainAppends(ops) && i <= j <= |ops|
    requires forall k :: i <= k <= j ==> id in Execute(r, ops[..k]).store.tasks
    requires !Open(Execute(r, ops[..i]).store.tasks[id].state)
    ensures Execute(r, ops[..j]).store.tasks[id] == Execute(r, ops[..i]).store.tasks[id]
    decreases j - i
  {
    hide Execute, Apply, WorldValid;
    if i < j {
      ClosedRowsFrozen(r, ops, i, j - 1, id);
      ExecuteValid(r, ops[..j - 1]);
      StepOfRun(r, ops, j - 1);
      ClosedRowStays(r, Execute(r, ops[..j - 1]), ops[j - 1], id);
    }
  }

  lemma ClosedRowStays(r: Retention, w: World, op: Op, id: string)
    requires WorldValid(w) && id in w.store.tasks && !Open(w.store.tasks[id].state) && id in Apply(r, w, op).store.tasks
    ensures Apply(r, w, op).store.tasks[id] == w.store.tasks[id]
  {
    hide WorldValid, Apply;
    RowStep(r, w, op, id);
  }

  /** A closed row whose result belongs to another task. */
  predicate Mismatched(s: Store, id: string) {
    id in s.tasks && s.tasks[id].result.Some? && !SameIdentity(id, s.tasks[id], s.tasks[id].result.value)
  }

  /** The operation is a recovery that commits into another task's row. */
  predicate WrongCommit(w: World, op: Op) {
    op.Recover? && op.snapshot in w.snapshots && Impostor(w.store, op.snapshot)
  }

  /** In every reachable state, an operation writes a result of the wrong identity exactly
      when it is a recovery whose state, owner and lease still agree while kind or digest
      do not; a finish never does. */
  lemma {:induction false} MismatchExactly(r: Retention, ops: seq<Op>, op: Op, id: string)
    requires PlainAppends(ops)
    ensures var w := Execute(r, ops);
            !Mismatched(w.store, id) && Mismatched(Apply(r, w, op).store, id)
            <==> WrongCommit(w, op) && op.snapshot.id == id
  {
    var w := Execute(r, ops);
    ExecuteValid(r, ops);
    assert TaskValid(w.store, id);
    RowStep(r, w, op, id);
    if op.Recover? && op.snapshot in w.snapshots {
      assert SnapshotValid(w, op.snapshot);
    }
    hide Execute, StoreValid, Prune, CreateTask, MarkRunning, FinishTask, AppendEvent, InsertEvent;
  }

  ghost predicate EverMismatched(r: Retention, ops: seq<Op>) {
    exists k, id :: 0 <= k <= |ops| && Mismatched(Execute(r, ops[..k]).store, id)
  }

  ghost predicate EverWrongCommit(r: Retention, ops: seq<Op>) {
    exists k :: 0 <= k < |ops| && WrongCommit(Execute(r, ops[..k]), ops[k])
  }

  /** So a run ever holds a result of the wrong identity exactly when one of its
      recoveries is such a commit. */
  lemma {:induction false} IdentityLostExactly(r: Retention, ops: seq<Op>)
    requires PlainAppends(ops)
    ensures EverMismatched(r, ops) <==> EverWrongCommit(r, ops)
  {
    hide Execute, Mismatched, WrongCommit;
    if EverWrongCommit(r, ops) {
      var k :| 0 <= k < |ops| && WrongCommit(Execute(r, ops[..k]), ops[k]);
      Recovers(Execute(r, ops[..k]), ops[k]);
      MismatchExactly(r, ops[..k], ops[k], ops[k].snapshot.id);
      StepOfRun(r, ops, k);
    }
    if EverMismatched(r, ops) {
      var k, id :| 0 <= k <= |ops| && Mismatched(Execute(r, ops[..k]).store, id);
      FirstMismatch(r, ops, k, id);
    }
  }

  lemma Recovers(w: World, op: Op)
    requires WrongCommit(w, op)
    ensures op.Recover?
  {
  }

  lemma {:induction false} StepOfRun(r: Retention, ops: seq<Op>, k: nat)
    requires k < |ops|
    ensures Execute(r, ops[..k + 1]) == Apply(r, Execute(r, ops[..k]), ops[k])
  {
    assert ops[..k + 1][..k] == ops[..k];
  }

  lemma {:induction false} FirstMismatch(r: Retention, ops: seq<Op>, k: nat, id: string)
    requires PlainAppends(ops) && k <= |ops| && Mismatched(Execute(r, ops[..k]).store, id)
    ensures EverWrongCommit(r, ops)
  {
    if k > 0 {
      StepOfRun(r, ops, k - 1);
      hide Execute, Mismatched, WrongCommit;
      if Mismatched(Execute(r, ops[..k - 1]).store, id) {
        FirstMismatch(r, ops, k - 1, id);
      } else {
        MismatchExactly(r, ops[..k - 1], ops[k - 1], id);
      }
    }
  }

  /** If no row is given the id, state, owner and lease of an earlier one, the result of
      every closed task carries the id, kind and plan digest of its row. */
  lemma {:induction false} ResultIdentity(r: Retention, ops: seq<Op>, id: string)
    requires PlainAppends(ops) && FreshTenures(r, ops)
    requires var s := Execute(r, ops).store; id in s.tasks && !Open(s.tasks[id].state)
    ensures var row := Execute(r, ops).store.tasks[id];
            row.result.Some? && SameIdentity(id, row, row.result.value)
  {
    ExecuteValid(r, ops);
    assert TaskValid(Execute(r, ops).store, id);
    hide Execute, StoreValid, TaskValid;
    assert ops[..|ops|] == ops;
    if Mismatched(Execute(r, ops).store, id) {
      FirstMismatch(r, ops, |ops|, id);
      var k :| 0 <= k < |ops| && WrongCommit(Execute(r, ops[..k]), ops[k]);
      FreshPrefix(r, ops, k);
      ExecuteValid(r, ops[..k]);
    }
  }

  lemma {:induction false} FreshPrefix(r: Retention, ops: seq<Op>, k: nat)
    requires FreshTenures(r, ops) && k <= |ops|
    ensures FreshTenures(r, ops[..k])
  {
    if k < |ops| {
      hide FreshGrant;
      FreshPrefix(r, ops[..|ops| - 1], k);
      assert ops[..|ops| - 1][..k] == ops[..k];
    } else {
      assert ops[..k] == ops;
    }
  }

  lemma {:induction false} Extend(r: Retention, before: seq<Op>, op: Op)
    ensures Execute(r, before + [op]) == Apply(r, Execute(r, before), op)
    ensures FreshTenures(r, before + [op]) ==> FreshTenures(r, before) && FreshGrant(Execute(r, before), op)
  {
    assert (before + [op])[..|before|] == before;
  }

  const FIRST: Row := Row("k", "old", Pending, 0, 0, None, Some("o"), Some(10))
  const READ: Snapshot := Snapshot("t", FIRST, StoredResult("t", "k", "old", Failed, 10_000))
  const FINISHED: FinalResult := StoredResult("t", "k", "old", Completed, 2_000)

  lemma {:induction false} FirstTaskRead(r: Retention)
    ensures var w := Execute(r, [Create("t", "k", "old", "o", 10_000, 0), Read(10_000)]);
            w.store.tasks == map["t" := FIRST] && READ in w.snapshots && Tenure("t", Pending, "o", 10) in w.tenures
  {
    hide InsertEvent;
    var create := Create("t", "k", "old", "o", 10_000, 0);
    Extend(r, [], create);
    Extend(r, [create], Read(10_000));
    assert [] + [create] == [create] && [create] + [Read(10_000)] == [create, Read(10_000)];
    var w := Apply(r, EMPTY, create);
    assert w.store.tasks == map["t" := FIRST];
    assert Stale(w.store.tasks["t"], 10_000) && RecoveredResult("t", FIRST, 10_000) == READ.result;
  }

  lemma FirstTaskRemoved(r: Retention, w: World)
    requires w.store.tasks == map["t" := FIRST]
    ensures var running := Apply(r, w, Run("t", "o", 11_000, 1_000));
            var w' := Apply(r, running, Finish("o", FINISHED, 3_000 + r.maxAge));
            "t" !in w'.store.tasks && w'.snapshots == w.snapshots && w.tenures <= w'.tenures
  {
    hide InsertEvent, Excess, Without;
    var running := MarkRunning(w.store, "t", "o", 11_000, 1_000).store;
    var closed := FinishRow(running, "o", FINISHED).store;
    assert closed.tasks["t"].updated == 2 && Ms(3_000 + r.maxAge - r.maxAge) == 3;
    assert "t" in Expired(closed, 3);
  }

  /** Without that condition the compare-and-swap is not enough. A recovery reads a row;
      the owner finishes it and retention removes it; the same owner then creates another
      task under the same id and lease. State, owner and lease are again what was read,
      so the recovery closes the new task with the digest of the old one. */
  lemma RecreatedRowLosesIdentity(r: Retention)
    ensures exists ops ::
              && PlainAppends(ops) && !FreshTenures(r, ops)
              && var s := Execute(r, ops).store;
                 "t" in s.tasks && s.tasks["t"].result.Some? && s.tasks["t"].result.value.digest != s.tasks["t"].digest
  {
    hide Execute, FreshTenures, InsertEvent, Prune;
    var recreate := Create("t", "k", "new", "o", 10_000, 0);
    var ops2 := [Create("t", "k", "old", "o", 10_000, 0), Read(10_000)];
    FirstTaskRead(r);
    var ops3 := ops2 + [Run("t", "o", 11_000, 1_000)];
    Extend(r, ops2, Run("t", "o", 11_000, 1_000));
    var ops4 := ops3 + [Finish("o", FINISHED, 3_000 + r.maxAge)];
    Extend(r, ops3, Finish("o", FINISHED, 3_000 + r.maxAge));
    FirstTaskRemoved(r, Execute(r, ops2));
    var ops5 := ops4 + [recreate];
    Extend(r, ops4, recreate);
    var ops6 := ops5 + [Recover(READ)];
    Extend(r, ops5, Recover(READ));
    assert Execute(r, ops5).store.tasks["t"].digest == "new" && Unchanged(Execute(r, ops5).store, READ);
    assert Execute(r, ops6).store.tasks["t"].result == Some(READ.result);
    assert PlainAppends(ops6);
  }

  /** In stored time a lease has expired exactly when its millisecond has been reached,
      so recovery may take a row up to one millisecond before its lease ends, never more. */
  lemma LeaseExpiryInStoredTime(row: Row, lease: int, now: int)
    requires Open(row.state) && row.owner.Some? && row.lease == Some(Ms(lease))
    ensures now >= lease ==> Stale(row, now)
    ensures Stale(row, now) ==> lease - now < 1_000
    ensures Stale(row, now) <==> now >= lease - lease % 1_000
  {
  }

  /** `append_event` does not look at the state, so an observation event can follow the
      closing event of a task; the closing event stays the only one. */
  lemma {:induction false} ObservationMayFollowClosing(r: Retention, ops: seq<Op>, id: string, at: int)
    requires PlainAppends(ops) && id in Execute(r, ops).store.tasks
    requires !Open(Execute(r, ops).store.tasks[id].state)
    ensures var s, s' := Execute(r, ops).store, Execute(r, ops + [Append(id, "observation", at)]).store;
            && |OfTask(s'.events, id)| == |OfTask(s.events, id)| + 1
            && Closings(OfTask(s'.events, id)) == 1 && s'.tasks == s.tasks
  {
    ExecuteValid(r, ops);
    var op := Append(id, "observation", at);
    assert (ops + [op])[..|ops|] == ops;
    var s := Execute(r, ops).store;
    assert TaskValid(s, id);
    InsertedEvent(s.events, id, "observation", at, id);
  }
}
