/** The task and event tables that several owners share, and what each transaction
    does to them. Stored instants are whole milliseconds; callers pass microseconds. */
module HistoryTable {
  import opened Outcomes
  import opened Collections
  import opened ResultDocument

  datatype StoredResult = StoredResult(taskId: string, kind: string, digest: string, state: TaskState, endedAt: int)

  type FinalResult = r: StoredResult | Terminal(r.state) witness StoredResult("", "", "", Failed, 0)

  datatype Row = Row(
    kind: string, digest: string, state: TaskState, created: int, updated: int,
    result: Option<FinalResult>, owner: Option<string>, lease: Option<int>)

  datatype EventRow = EventRow(task: string, sequence: nat, kind: string, at: int)

  datatype Store = Store(tasks: map<string, Row>, events: seq<EventRow>)

  /** A row that `recover_interrupted` read, with the failed result it computed from it. */
  datatype Snapshot = Snapshot(id: string, row: Row, result: FinalResult)

  datatype HistoryError =
    | LeaseInPast | AlreadyExists | CannotRun | UnknownTask | NotRunning | OwnerMismatch | IdentityMismatch

  datatype Retention = Retention(maxTasks: nat, maxAge: nat)

  /** `_wire_time`: microseconds truncated to milliseconds. */
  function Ms(at: int): int {
    at / 1000
  }

  predicate Open(state: TaskState) {
    state.Pending? || state.Running?
  }

  function Max(a: int, b: int): int {
    if a >= b then a else b
  }

  // --- events ------------------------------------------------------------------------------

  function OfTask(events: seq<EventRow>, id: string): seq<EventRow> {
    if events == [] then []
    else
      var last := events[|events| - 1];
      OfTask(events[..|events| - 1], id) + (if last.task == id then [last] else [])
  }

  /** `SELECT COALESCE(MAX(sequence), 0)`. */
  function MaxSequence(events: seq<EventRow>, id: string): nat {
    if events == [] then 0
    else
      var before, last := MaxSequence(events[..|events| - 1], id), events[|events| - 1];
      if last.task == id && last.sequence > before then last.sequence else before
  }

  function InsertEvent(events: seq<EventRow>, id: string, kind: string, at: int): seq<EventRow> {
    events + [EventRow(id, MaxSequence(events, id) + 1, kind, Ms(at))]
  }

  /** ON DELETE CASCADE. */
  function Without(events: seq<EventRow>, ids: set<string>): seq<EventRow> {
    if events == [] then []
    else
      var last := events[|events| - 1];
      Without(events[..|events| - 1], ids) + (if last.task in ids then [] else [last])
  }

  // --- transitions ---------------------------------------------------------------------------

  datatype Answer = Answer(store: Store, error: Option<HistoryError>)

  function CreateTask(s: Store, id: string, kind: string, digest: string, owner: string, lease: int, at: int): Answer {
    if lease <= at then Answer(s, Some(LeaseInPast))
    else if id in s.tasks then Answer(s, Some(AlreadyExists))
    else
      var row := Row(kind, digest, Pending, Ms(at), Ms(at), None, Some(owner), Some(Ms(lease)));
      Answer(Store(s.tasks[id := row], InsertEvent(s.events, id, "accepted", at)), None)
  }

  function MarkRunning(s: Store, id: string, owner: string, lease: int, at: int): Answer {
    if lease <= at then Answer(s, Some(LeaseInPast))
    else if !(id in s.tasks && s.tasks[id].state.Pending? && s.tasks[id].owner == Some(owner)) then Answer(s, Some(CannotRun))
    else
      var row := s.tasks[id].(state := Running, updated := Ms(at), lease := Some(Ms(lease)));
      Answer(Store(s.tasks[id := row], InsertEvent(s.events, id, "running", at)), None)
  }

  predicate SameIdentity(id: string, row: Row, r: StoredResult) {
    r.taskId == id && r.kind == row.kind && r.digest == row.digest
  }

  function Closed(row: Row, r: FinalResult): Row {
    row.(state := r.state, updated := Ms(r.endedAt), result := Some(r), owner := None, lease := None)
  }

  /** The transaction of `finish_task`; retention runs after it. */
  function FinishRow(s: Store, owner: string, r: FinalResult): Answer {
    var id := r.taskId;
    if id !in s.tasks then Answer(s, Some(UnknownTask))
    else if !s.tasks[id].state.Running? then Answer(s, Some(NotRunning))
    else if s.tasks[id].owner != Some(owner) then Answer(s, Some(OwnerMismatch))
    else if !SameIdentity(id, s.tasks[id], r) then Answer(s, Some(IdentityMismatch))
    else Answer(Store(s.tasks[id := Closed(s.tasks[id], r)], InsertEvent(s.events, id, "terminal", r.endedAt)), None)
  }

  /** A row that recovery considers: open, and without a live lease in stored time. */
  predicate Stale(row: Row, now: int) {
    Open(row.state) && (row.owner.None? || row.lease.None? || row.lease.value <= Ms(now))
  }

  /** `_recovered_task_result`: failed, with the identity of the record that was read. */
  function RecoveredResult(id: string, row: Row, now: int): FinalResult {
    StoredResult(id, row.kind, row.digest, Failed, Max(row.created * 1000, now))
  }

  function ReadStale(s: Store, now: int): set<Snapshot> {
    set id | id in s.tasks && Stale(s.tasks[id], now) :: Snapshot(id, s.tasks[id], RecoveredResult(id, s.tasks[id], now))
  }

  /** The compare-and-swap of `recover_interrupted`. */
  predicate Unchanged(s: Store, snap: Snapshot) {
    && snap.id in s.tasks
    && s.tasks[snap.id].state == snap.row.state
    && s.tasks[snap.id].owner == snap.row.owner
    && s.tasks[snap.id].lease == snap.row.lease
  }

  function CommitRecovery(s: Store, snap: Snapshot): Store {
    if !Unchanged(s, snap) then s
    else
      Store(s.tasks[snap.id := Closed(s.tasks[snap.id], snap.result)],
            InsertEvent(s.events, snap.id, "recovered", snap.result.endedAt))
  }

  /** `append_event`: the task must exist; its state is not looked at. */
  function AppendEvent(s: Store, id: string, kind: string, at: int): Answer {
    if id !in s.tasks then Answer(s, Some(UnknownTask))
    else Answer(s.(events := InsertEvent(s.events, id, kind, at)), None)
  }

  // --- retention --------------------------------------------------------------------------------

  function ClosedIds(s: Store): set<string> {
    set id | id in s.tasks && !Open(s.tasks[id].state)
  }

  function Drop(s: Store, ids: set<string>): Store {
    Store(map id | id in s.tasks && id !in ids :: s.tasks[id], Without(s.events, ids))
  }

  function Expired(s: Store, cutoff: int): set<string> {
    set id | id in ClosedIds(s) && s.tasks[id].updated < cutoff
  }

  /** `ORDER BY updated_at DESC, task_id DESC`. */
  predicate Newer(s: Store, a: string, b: string)
    requires a in s.tasks && b in s.tasks
  {
    s.tasks[a].updated > s.tasks[b].updated || (s.tasks[a].updated == s.tasks[b].updated && TextLess(b, a))
  }

  function NewerClosed(s: Store, id: string): set<string>
    requires id in s.tasks
  {
    set x | x in ClosedIds(s) && Newer(s, x, id)
  }

  /** `LIMIT -1 OFFSET max_tasks`: those with at least `max_tasks` newer closed tasks. */
  function Excess(s: Store, maxTasks: nat): set<string> {
    set id | id in ClosedIds(s) && |NewerClosed(s, id)| >= maxTasks
  }

  function Prune(s: Store, r: Retention, now: int): Store {
    var recent := Drop(s, Expired(s, Ms(now - r.maxAge)));
    Drop(recent, Excess(recent, r.maxTasks))
  }

  function FinishTask(s: Store, r: Retention, owner: string, result: FinalResult, now: int): Answer {
    var finished := FinishRow(s, owner, result);
    if finished.error.Some? then finished else Answer(Prune(finished.store, r, now), None)
  }

  // --- interleavings of owners --------------------------------------------------------------------

  datatype Op =
    | Create(id: string, kind: string, digest: string, owner: string, lease: int, at: int)
    | Run(id: string, owner: string, lease: int, at: int)
    | Finish(owner: string, result: FinalResult, now: int)
    | Read(now: int)
    | Recover(snapshot: Snapshot)
    | Append(id: string, kind: string, at: int)
    | Retain(now: int)

  /** What the compare-and-swap of a recovery looks at. */
  datatype Tenure = Tenure(id: string, state: TaskState, owner: string, lease: int)

  /** The tables, the snapshots that recoveries have read and not yet given up, and every
      tenure that a row has had. Keeping every snapshot lets a recovery commit at any later
      time, in any order, or twice. */
  datatype World = World(store: Store, snapshots: set<Snapshot>, tenures: set<Tenure>)

  const EMPTY: World := World(Store(map[], []), {}, {})

  /** The tenure that a creation or a start gives its row, if it succeeds. */
  function Grant(s: Store, op: Op): Option<Tenure> {
    match op
    case Create(id, kind, digest, owner, lease, at) =>
      if CreateTask(s, id, kind, digest, owner, lease, at).error.None? then Some(Tenure(id, Pending, owner, Ms(lease))) else None
    case Run(id, owner, lease, at) =>
      if MarkRunning(s, id, owner, lease, at).error.None? then Some(Tenure(id, Running, owner, Ms(lease))) else None
    case _ => None
  }

  function Apply(r: Retention, w: World, op: Op): World {
    var granted := Grant(w.store, op);
    var w' := if granted.Some? then w.(tenures := w.tenures + {granted.value}) else w;
    match op
    case Create(id, kind, digest, owner, lease, at) => w'.(store := CreateTask(w.store, id, kind, digest, owner, lease, at).store)
    case Run(id, owner, lease, at) => w'.(store := MarkRunning(w.store, id, owner, lease, at).store)
    case Finish(owner, result, now) => w.(store := FinishTask(w.store, r, owner, result, now).store)
    case Read(now) => w.(snapshots := w.snapshots + ReadStale(w.store, now))
    case Recover(snap) => if snap in w.snapshots then w.(store := CommitRecovery(w.store, snap)) else w
    case Append(id, kind, at) => w.(store := AppendEvent(w.store, id, kind, at).store)
    case Retain(now) => w.(store := Prune(w.store, r, now))
  }

  function Execute(r: Retention, ops: seq<Op>): World {
    if ops == [] then EMPTY else Apply(r, Execute(r, ops[..|ops| - 1]), ops[|ops| - 1])
  }

  predicate Closing(kind: string) {
    kind == "terminal" || kind == "recovered"
  }

  /** What callers do: event types of their own are never closing ones. */
  predicate PlainAppends(ops: seq<Op>) {
    forall i :: 0 <= i < |ops| && ops[i].Append? ==> !Closing(ops[i].kind)
  }

  predicate FreshGrant(w: World, op: Op) {
    Grant(w.store, op).Some? ==> Grant(w.store, op).value !in w.tenures
  }

  /** No row is given the id, state, owner and lease that an earlier row had. */
  predicate FreshTenures(r: Retention, ops: seq<Op>) {
    ops == [] || (FreshTenures(r, ops[..|ops| - 1]) && FreshGrant(Execute(r, ops[..|ops| - 1]), ops[|ops| - 1]))
  }
}
