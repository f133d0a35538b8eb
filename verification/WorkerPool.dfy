/** The full-scan runner: workers that share one step iterator and drive the task
    context. Any interleaving of their atomic actions is one run of the pool. */
module WorkerPool {
  import opened Outcomes
  import opened Collections
  import opened Plans
  import opened TaskLedger
  import opened TaskInvariants

  /** Between steps; inside `admit`; probing, recording or completing; or ended, perhaps
      by an exception that leaves its step admitted. */
  datatype Worker = Ready | Admitting(id: StepId) | Working(id: StepId) | Ended(held: Option<StepId>)

  /** `next` is the position of the shared iterator, `dispatched` the steps handed out. */
  datatype Pool = Pool(next: nat, workers: seq<Worker>, machine: Machine, dispatched: seq<StepId>)

  datatype Move =
    | Take(w: nat)
    | Drive(w: nat, action: Action)   // an admission action of the step worker `w` holds
    | Work(w: nat, action: Action)    // evidence or completion of that step
    | Other(action: Action)           // anything that neither admits nor completes

  function Start(t: Task, now: real): Pool {
    Pool(0, seq(Least(t.plan.limits.maxConcurrency, Total(t)), i => Ready), Initial(t, now), [])
  }

  predicate Admission(a: Action) {
    a.AdmitBegin? || a.AdmitPrepare? || a.AdmitWake? || a.AdmitAbort?
  }

  /** A worker acts on its own step only; past the lock, only as its holder. */
  predicate Allowed(p: Pool, m: Move) {
    match m
    case Take(w) => w < |p.workers| && p.workers[w].Ready?
    case Drive(w, a) =>
      && w < |p.workers| && p.workers[w].Admitting? && Admission(a)
      && (if a.AdmitBegin? then a.id == p.workers[w].id
          else !p.machine.admission.Idle? && p.machine.admission.id == p.workers[w].id)
    case Work(w, a) =>
      && w < |p.workers| && p.workers[w].Working?
      && (a == Complete(p.workers[w].id) || (a.Record? && a.step == Some(p.workers[w].id)))
    case Other(a) => !Admission(a) && !a.Complete? && !a.CompleteAggregate?
  }

  function Step(t: Task, p: Pool, m: Move): Pool {
    if !Allowed(p, m) then p
    else
      match m
      case Take(w) =>
        if p.next < |t.plan.steps| then
          var id := t.plan.steps[p.next].id;
          p.(next := p.next + 1, workers := p.workers[w := Admitting(id)], dispatched := p.dispatched + [id])
        else p.(workers := p.workers[w := Ended(None)])
      case Drive(w, a) =>
        var r := React(t, p.machine, a);
        var id := p.workers[w].id;
        p.(machine := r.next,
           workers := p.workers[w :=
             if r.error.Some? then Ended(None)
             else if id in r.next.ledger.book.admittedSteps then Working(id)
             else p.workers[w]])
      case Work(w, a) =>
        var r := React(t, p.machine, a);
        p.(machine := r.next,
           workers := p.workers[w :=
             if r.error.Some? then Ended(Some(p.workers[w].id))
             else if a.Complete? then Ready
             else p.workers[w]])
      case Other(a) => p.(machine := React(t, p.machine, a).next)
  }

  function RunPool(t: Task, now: real, moves: seq<Move>): Pool {
    if moves == [] then Start(t, now)
    else Step(t, RunPool(t, now, moves[..|moves| - 1]), moves[|moves| - 1])
  }

  // --- who holds which step ------------------------------------------------------------------

  /** The step a worker has in hand, admitted or not. */
  function InHand(w: Worker): Option<StepId> {
    match w
    case Ready => None
    case Admitting(id) => Some(id)
    case Working(id) => Some(id)
    case Ended(held) => held
  }

  /** The admitted step a worker has in hand. */
  function InFlight(w: Worker): Option<StepId> {
    if w.Admitting? then None else InHand(w)
  }

  function Held(workers: seq<Worker>): set<StepId> {
    if workers == [] then {}
    else
      var last := InFlight(workers[|workers| - 1]);
      Held(workers[..|workers| - 1]) + (if last.Some? then {last.value} else {})
  }

  lemma {:induction false} HeldMember(workers: seq<Worker>, id: StepId)
    ensures id in Held(workers) <==> exists w :: 0 <= w < |workers| && InFlight(workers[w]) == Some(id)
  {
    if workers != [] {
      HeldMember(workers[..|workers| - 1], id);
    }
  }

  /** Each worker has at most one step in flight, and an admitting one has none. */
  lemma {:induction false} HeldCount(workers: seq<Worker>, free: nat)
    requires free < |workers| ==> InFlight(workers[free]).None?
    ensures |Held(workers)| <= |workers|
    ensures free < |workers| ==> |Held(workers)| < |workers|
  {
    if workers != [] {
      HeldCount(workers[..|workers| - 1], free);
    }
  }

  ghost predicate WorkerFits(w: Worker, dispatched: seq<StepId>, admitted: set<StepId>, completed: set<StepId>) {
    match w
    case Ready => true
    case Admitting(id) => id in dispatched && id !in admitted
    case Working(id) => id in dispatched && id in admitted && id !in completed
    case Ended(held) => held.Some? ==> held.value in dispatched
  }

  ghost predicate Flying(workers: seq<Worker>, id: StepId) {
    exists w :: 0 <= w < |workers| && InFlight(workers[w]) == Some(id)
  }

  /** The workers share the dispatched steps out: no two hold the same one, and every
      admitted step that is not complete is in some worker's hand. */
  ghost predicate Shared(workers: seq<Worker>, dispatched: seq<StepId>, admitted: set<StepId>, completed: set<StepId>) {
    && (forall w :: 0 <= w < |workers| ==> WorkerFits(workers[w], dispatched, admitted, completed))
    && (forall v, w :: 0 <= v < w < |workers| && InHand(workers[v]).Some? ==> InHand(workers[v]) != InHand(workers[w]))
    && (forall id :: id in admitted ==> id in dispatched)
    && (forall id :: id in admitted && id !in completed ==> Flying(workers, id))
  }

  ghost predicate PoolValid(t: Task, p: Pool) {
    && Valid(t, p.machine)
    && p.next <= |t.plan.steps| && p.dispatched == StepIds(t.plan.steps)[..p.next]
    && |p.workers| == Least(t.plan.limits.maxConcurrency, Total(t))
    && Shared(p.workers, p.dispatched, p.machine.ledger.book.admittedSteps, p.machine.ledger.book.completedSteps)
  }

  // --- what one move does to the step sets ---------------------------------------------------

  lemma DriveBook(t: Task, m: Machine, a: Action, id: StepId)
    requires Admission(a) && (!a.AdmitBegin? ==> !m.admission.Idle? && m.admission.id == id)
    ensures var r := React(t, m, a);
            var b, b' := m.ledger.book, r.next.ledger.book;
            && b'.completedSteps == b.completedSteps
            && (b'.admittedSteps == b.admittedSteps || (r.error.None? && b'.admittedSteps == b.admittedSteps + {id}))
  {
    hide StepOf, Ids, Gap, StartTime;
  }

  lemma WorkBook(t: Task, m: Machine, a: Action, id: StepId)
    requires a == Complete(id) || (a.Record? && a.step == Some(id))
    ensures var r := React(t, m, a);
            var b, b' := m.ledger.book, r.next.ledger.book;
            && b'.admittedSteps == b.admittedSteps
            && b'.completedSteps == (if a.Complete? && r.error.None? then b.completedSteps + {id} else b.completedSteps)
  {
    hide AllowedEvidence, Bind, Append;
    if a.Record? && Refusal(t, m.ledger, a.observation, a.step, a.labels).None? {
      AppendKeeps(t, m, a.ended, Bind(t, a.observation, m.ledger.book.prepared[id], a.labels), a.storeOk);
    }
  }

  lemma OtherBook(t: Task, m: Machine, a: Action)
    requires !Admission(a) && !a.Complete? && !a.CompleteAggregate?
    ensures var b, b' := m.ledger.book, React(t, m, a).next.ledger.book;
            b'.admittedSteps == b.admittedSteps && b'.completedSteps == b.completedSteps
  {
    hide AllowedEvidence, Bind, Append;
    if a.Record? && Refusal(t, m.ledger, a.observation, a.step, a.labels).None? {
      AppendKeeps(t, m, a.ended, Bind(t, a.observation, m.ledger.book.prepared[a.step.value], a.labels), a.storeOk);
    } else if a.RecordAggregate? {
      AppendKeeps(t, m, a.ended, a.observation, a.storeOk);
    }
  }

  // --- the pool invariant ------------------------------------------------------------------------

  lemma StartValid(t: Task, now: real)
    ensures PoolValid(t, Start(t, now))
  {
    hide Valid;
    InitialValid(t, now);
  }

  /** One worker changes hands over its step; the step sets may grow by that step. */
  lemma HandChanged(
    workers: seq<Worker>, dispatched: seq<StepId>, admitted: set<StepId>, completed: set<StepId>,
    w: nat, worker: Worker, dispatched': seq<StepId>, admitted': set<StepId>, completed': set<StepId>, id: StepId)
    requires Shared(workers, dispatched, admitted, completed) && w < |workers|
    requires InHand(workers[w]) == Some(id) || (InHand(workers[w]).None? && id !in dispatched)
    requires InHand(worker) == Some(id) || InHand(worker).None?
    requires dispatched' == dispatched || dispatched' == dispatched + [id]
    requires id in admitted' ==> id in dispatched'
    requires admitted <= admitted' <= admitted + {id} && completed <= completed' <= completed + {id}
    requires WorkerFits(worker, dispatched', admitted', completed')
    requires id in admitted' && id !in completed' ==> InFlight(worker) == Some(id)
    ensures Shared(workers[w := worker], dispatched', admitted', completed')
  {
    var after := workers[w := worker];
    forall v | 0 <= v < |workers|
      ensures WorkerFits(after[v], dispatched', admitted', completed')
      ensures v != w ==> InHand(workers[v]) != Some(id)
    {
      assert WorkerFits(workers[v], dispatched, admitted, completed);
    }
    forall x | x in admitted' && x !in completed' ensures Flying(after, x) {
      if x == id {
        assert InFlight(after[w]) == Some(x);
      } else {
        assert Flying(workers, x);
        var v :| 0 <= v < |workers| && InFlight(workers[v]) == Some(x);
        assert InFlight(after[v]) == Some(x);
      }
    }
  }

  lemma TakeValid(t: Task, p: Pool, w: nat)
    requires DistinctIds(t.plan.steps) && PoolValid(t, p) && Allowed(p, Take(w))
    ensures PoolValid(t, Step(t, p, Take(w)))
  {
    var b := p.machine.ledger.book;
    hide Valid, Shared;
    if p.next < |t.plan.steps| {
      var id := t.plan.steps[p.next].id;
      forall i | 0 <= i < |p.dispatched| ensures p.dispatched[i] != id {
        assert p.dispatched[i] == t.plan.steps[i].id;
      }
      assert StepIds(t.plan.steps)[..p.next + 1] == p.dispatched + [id];
      NotYetAdmitted(p, id);
      HandChanged(p.workers, p.dispatched, b.admittedSteps, b.completedSteps,
        w, Admitting(id), p.dispatched + [id], b.admittedSteps, b.completedSteps, id);
    } else {
      WorkerEnds(p.workers, p.dispatched, b.admittedSteps, b.completedSteps, w);
    }
  }

  lemma NotYetAdmitted(p: Pool, id: StepId)
    requires Shared(p.workers, p.dispatched, p.machine.ledger.book.admittedSteps, p.machine.ledger.book.completedSteps)
    ensures id !in p.dispatched ==> id !in p.machine.ledger.book.admittedSteps
  {
  }

  lemma WorkerEnds(workers: seq<Worker>, dispatched: seq<StepId>, admitted: set<StepId>, completed: set<StepId>, w: nat)
    requires Shared(workers, dispatched, admitted, completed) && w < |workers| && workers[w].Ready?
    ensures Shared(workers[w := Ended(None)], dispatched, admitted, completed)
  {
    var after := workers[w := Ended(None)];
    forall x | x in admitted && x !in completed ensures Flying(after, x) {
      assert Flying(workers, x);
      var v :| 0 <= v < |workers| && InFlight(workers[v]) == Some(x);
      assert InFlight(after[v]) == Some(x);
    }
  }

  lemma WorkerFact(p: Pool, w: nat)
    requires w < |p.workers|
    requires Shared(p.workers, p.dispatched, p.machine.ledger.book.admittedSteps, p.machine.ledger.book.completedSteps)
    ensures WorkerFits(p.workers[w], p.dispatched, p.machine.ledger.book.admittedSteps, p.machine.ledger.book.completedSteps)
  {
  }

  lemma DriveValid(t: Task, p: Pool, w: nat, a: Action)
    requires DistinctIds(t.plan.steps) && PoolValid(t, p) && Allowed(p, Drive(w, a))
    ensures PoolValid(t, Step(t, p, Drive(w, a)))
  {
    hide Valid, React, Shared, DistinctIds;
    var id, next := p.workers[w].id, React(t, p.machine, a).next;
    var b, b' := p.machine.ledger.book, next.ledger.book;
    ActionValid(t, p.machine, a);
    DriveBook(t, p.machine, a, id);
    WorkerFact(p, w);
    NothingUnadmittedCompletes(t, p.machine);
    HandChanged(p.workers, p.dispatched, b.admittedSteps, b.completedSteps,
      w, Step(t, p, Drive(w, a)).workers[w], p.dispatched, b'.admittedSteps, b'.completedSteps, id);
  }

  lemma NothingUnadmittedCompletes(t: Task, m: Machine)
    requires Valid(t, m)
    ensures m.ledger.book.completedSteps <= m.ledger.book.admittedSteps
  {
  }

  lemma WorkValid(t: Task, p: Pool, w: nat, a: Action)
    requires DistinctIds(t.plan.steps) && PoolValid(t, p) && Allowed(p, Work(w, a))
    ensures PoolValid(t, Step(t, p, Work(w, a)))
  {
    hide Valid, React, Shared, DistinctIds;
    var id, next := p.workers[w].id, React(t, p.machine, a).next;
    var b, b' := p.machine.ledger.book, next.ledger.book;
    ActionValid(t, p.machine, a);
    WorkBook(t, p.machine, a, id);
    WorkerFact(p, w);
    HandChanged(p.workers, p.dispatched, b.admittedSteps, b.completedSteps,
      w, Step(t, p, Work(w, a)).workers[w], p.dispatched, b'.admittedSteps, b'.completedSteps, id);
  }

  lemma OtherValid(t: Task, p: Pool, a: Action)
    requires DistinctIds(t.plan.steps) && PoolValid(t, p) && Allowed(p, Other(a))
    ensures PoolValid(t, Step(t, p, Other(a)))
  {
    hide Valid, React, Shared, DistinctIds;
    ActionValid(t, p.machine, a);
    OtherBook(t, p.machine, a);
  }

  lemma MoveValid(t: Task, p: Pool, m: Move)
    requires DistinctIds(t.plan.steps) && PoolValid(t, p)
    ensures PoolValid(t, Step(t, p, m))
  {
    hide PoolValid, DistinctIds;
    if Allowed(p, m) {
      match m
      case Take(w) => TakeValid(t, p, w);
      case Drive(w, a) => DriveValid(t, p, w, a);
      case Work(w, a) => WorkValid(t, p, w, a);
      case Other(a) => OtherValid(t, p, a);
    }
  }

  lemma {:induction false} RunPoolValid(t: Task, now: real, moves: seq<Move>)
    requires DistinctIds(t.plan.steps)
    ensures PoolValid(t, RunPool(t, now, moves))
  {
    hide PoolValid, Step, DistinctIds;
    if moves == [] {
      StartValid(t, now);
    } else {
      RunPoolValid(t, now, moves[..|moves| - 1]);
      MoveValid(t, RunPool(t, now, moves[..|moves| - 1]), moves[|moves| - 1]);
    }
  }

  // --- theorems -------------------------------------------------------------------------------------

  /** While a worker is about to admit, the steps in flight are held by the others. */
  lemma InFlightBelowPool(t: Task, p: Pool, w: nat)
    requires PoolValid(t, p) && w < |p.workers| && p.workers[w].Admitting?
    ensures p.machine.ledger.book.admitted - p.machine.ledger.book.completed < |p.workers|
  {
    var b := p.machine.ledger.book;
    assert b.admitted == |b.admittedSteps| && b.completed == |b.completedSteps| && b.completedSteps <= b.admittedSteps;
    hide Valid, WorkerFits;
    var flying := b.admittedSteps - b.completedSteps;
    forall id | id in flying ensures id in Held(p.workers) {
      assert Flying(p.workers, id);
      HeldMember(p.workers, id);
    }
    HeldCount(p.workers, w);
    Subset(flying, Held(p.workers));
    assert b.admittedSteps == flying + b.completedSteps;
  }

  /** No worker of the pool ever runs into the in-flight ceiling, tries to admit a step
      twice, or asks for an unknown step. */
  lemma {:induction false} CeilingNeverHit(t: Task, now: real, moves: seq<Move>, w: nat, a: Action)
    requires Reserved(t.plan)
    requires Allowed(RunPool(t, now, moves), Drive(w, a)) && a.AdmitBegin?
    ensures var e := React(t, RunPool(t, now, moves).machine, a).error;
            e != Some(ConcurrencyCeiling) && e != Some(AdmittedTwice) && e != Some(UnknownStep)
  {
    assert DistinctIds(t.plan.steps);
    hide RunPool, Shared, Valid, Reserved, Ids, DistinctIds, StepIds;
    var p := RunPool(t, now, moves);
    RunPoolValid(t, now, moves);
    WorkerFact(p, w);
    DispatchedKnown(t, p, a.id);
    InFlightBelowPool(t, p, w);
  }

  lemma DispatchedKnown(t: Task, p: Pool, id: StepId)
    requires PoolValid(t, p) && id in p.dispatched
    ensures id in Ids(t)
  {
    hide Valid, Shared;
    var i :| 0 <= i < |p.dispatched| && p.dispatched[i] == id;
    assert t.plan.steps[i] in t.plan.steps && t.plan.steps[i].id == id;
  }

  /** `next(steps)` would raise StopIteration. */
  predicate Exhausted(t: Task, p: Pool) {
    p.next >= |t.plan.steps|
  }

  /** Whatever the interleaving, the steps are dispatched in plan order and each at most
      once; once a worker finds the iterator exhausted, each was dispatched exactly once. */
  lemma {:induction false} DispatchExactlyOnce(t: Task, now: real, moves: seq<Move>, i: nat)
    requires Reserved(t.plan) && i < |t.plan.steps|
    ensures var p := RunPool(t, now, moves);
            && p.dispatched <= StepIds(t.plan.steps)
            && multiset(p.dispatched)[t.plan.steps[i].id] <= 1
            && (Exhausted(t, p) ==> multiset(p.dispatched)[t.plan.steps[i].id] == 1)
  {
    RunPoolValid(t, now, moves);
    var p := RunPool(t, now, moves);
    OnceInPrefix(t.plan.steps, p.next, i);
    hide RunPool, Valid, Reserved, Shared;
  }

  lemma {:induction false} OnceInPrefix(steps: seq<ProbeStep>, n: nat, i: nat)
    requires DistinctIds(steps) && n <= |steps| && i < |steps|
    ensures multiset(StepIds(steps)[..n])[steps[i].id] == (if i < n then 1 else 0)
  {
    if n > 0 {
      OnceInPrefix(steps, n - 1, i);
      assert StepIds(steps)[..n] == StepIds(steps)[..n - 1] + [steps[n - 1].id];
    }
  }

  // --- who goes on ------------------------------------------------------------------------------

  /** The move ends the worker: it finds the iterator exhausted, or what it does to the task
      raises. */
  predicate Ends(t: Task, p: Pool, m: Move, w: nat) {
    match m
    case Take(x) => x == w && p.next >= |t.plan.steps|
    case Drive(x, a) => x == w && React(t, p.machine, a).error.Some?
    case Work(x, a) => x == w && React(t, p.machine, a).error.Some?
    case Other(_) => false
  }

  /** In any state of the pool: a worker ends exactly so, and for good; it is free for the
      next step exactly when it has completed its own; and only its own moves touch it. */
  lemma {:induction false} WorkerExactly(t: Task, p: Pool, m: Move, w: nat)
    requires w < |p.workers|
    ensures var p' := Step(t, p, m);
            && |p'.workers| == |p.workers|
            && (p'.workers[w].Ended? <==> p.workers[w].Ended? || (Allowed(p, m) && Ends(t, p, m, w)))
            && (p.workers[w].Ended? ==> p'.workers[w] == p.workers[w])
            && (p'.workers[w].Ready? && !p.workers[w].Ready? <==>
                  Allowed(p, m) && m.Work? && m.w == w && m.action.Complete? && !Ends(t, p, m, w))
            && (!(m.Take? || m.Drive? || m.Work?) || m.w != w ==> p'.workers[w] == p.workers[w])
  {
    hide React;
  }
}
