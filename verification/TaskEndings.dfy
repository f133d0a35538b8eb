/** How a task ends, spelled out: the state it is given, the document that is committed,
    the notes that closing adds, and what survives when the first commit fails. */
module TaskEndings {
  import opened Outcomes
  import opened Collections
  import opened JsonText
  import opened ResultDocument
  import opened Plans
  import opened TaskLedger
  import opened TaskInvariants
  import opened TaskTheorems
  import opened TaskRules
  import opened TaskLifecycle

  // --- the state -----------------------------------------------------------------------------

  predicate Finishes(t: Task, m: Machine, how: Ending) {
    how == RunnerReturned && !m.cancelled && m.ledger.book.completed == Total(t)
  }

  predicate Stops(m: Machine, how: Ending) {
    (how == RunnerCancelled || m.cancelled) && how != RunnerTimedOut && how != RunnerRaised
  }

  /** The whole result in the given state: everything recorded, terminal notes included, and
      the conclusions derived from it. */
  function Whole(t: Task, l: Ledger, state: TaskState, c: Closing): Json {
    ResultWire(t.envelope, state, t.started, c.ended, Progress(l.book.admitted, l.book.completed, Total(t)),
      Wires(l.out.observations), ConclusionWires(l.out.conclusions + c.derived), l.out.capabilities, l.out.errors)
  }

  /** It can be constructed, fits the ceiling, and the store takes it. */
  predicate Commits(t: Task, l: Ledger, state: TaskState, c: Closing) {
    && c.finishOk && ResultValid(l.out.observations, l.out.conclusions + c.derived, |l.out.capabilities|, |l.out.errors|)
    && |Text(Whole(t, l, state, c))| <= t.plan.limits.maxOutputBytes
  }

  /** Over every run and ending: a task is COMPLETED exactly when its runner returned,
      uncancelled, with every step completed, and CANCELLED exactly when it or its runner was
      cancelled and the runner neither timed out nor raised; in both cases only if the whole
      result commits. Every other result is FAILED, and there is none exactly when the store
      refuses twice. */
  lemma {:induction false} StateExactly(t: Task, now: real, actions: seq<Action>, how: Ending, c: Closing)
    requires Reserved(t.plan)
    ensures var m := Run(t, now, actions);
            var l, r := Settle(t, m, how, c).ledger, Close(t, m, how, c);
            && (r.None? <==> !c.finishOk && !c.refinishOk)
            && (r.Some? ==>
                  && (r.value.state == Completed <==> Finishes(t, m, how) && Commits(t, l, Completed, c))
                  && (r.value.state == Cancelled <==> Stops(m, how) && Commits(t, l, Cancelled, c))
                  && (r.value.state == Failed || r.value.state == Completed || r.value.state == Cancelled))
  {
    var m := Run(t, now, actions);
    RunValid(t, now, actions);
    SettleBook(t, m, how, c);
    hide Run, Reserved, Settle, Text, ResultValid;
    ClosesAs(t, m, how, c);
  }

  lemma ComplainBook(t: Task, m: Machine, ended: Stamp, text: Json)
    ensures TaskLedger.Complain(t, m, ended, text, None).next.ledger.book == m.ledger.book
  {
    hide Text, ReserveOutput;
  }

  lemma NoteBook(t: Task, m: Machine, c: Closing, o: Observation, stored: bool)
    ensures Note(t, m, c, o, stored).ledger.book == m.ledger.book
  {
    hide Text, ReserveOutput, Wire;
  }

  lemma SettleBook(t: Task, m: Machine, how: Ending, c: Closing)
    ensures Settle(t, m, how, c).ledger.book == m.ledger.book
  {
    hide Note, TaskLedger.Complain;
    var m0 := TaskLedger.Complain(t, m, c.recorded, c.failureText, None).next;
    var m1 := if Failing(t, m, how) then Note(t, m0, c, c.failure, c.failureStored) else m;
    ComplainBook(t, m, c.recorded, c.failureText);
    NoteBook(t, m0, c, c.failure, c.failureStored);
    NoteBook(t, m1.(cancelled := true), c, c.cancellation, c.cancellationStored);
  }

  /** The state that a task deserves, whatever the store says. */
  function Deserved(t: Task, m: Machine, how: Ending): TaskState {
    if Finishes(t, m, how) then Completed else if Stops(m, how) then Cancelled else Failed
  }

  lemma ClosesAs(t: Task, m: Machine, how: Ending, c: Closing)
    requires Settle(t, m, how, c).ledger.book == m.ledger.book
    requires m.ledger.book.completed <= m.ledger.book.admitted <= Total(t)
    ensures var l, r, state := Settle(t, m, how, c).ledger, Close(t, m, how, c), Deserved(t, m, how);
            && (r.None? <==> !c.finishOk && !c.refinishOk)
            && (Commits(t, l, state, c) ==>
                  r == Some(TerminalResult(state, Progress(l.book.admitted, l.book.completed, Total(t)), Whole(t, l, state, c))))
            && (!Commits(t, l, state, c) && r.Some? ==> r.value.state == Failed)
  {
    hide Settle, Text, ResultValid, ResultWire, FallbackWire;
  }

  /** And the result that commits is the whole document, not the fallback. */
  lemma {:induction false} WholeResultCommitted(
    t: Task, now: real, actions: seq<Action>, how: Ending, c: Closing, state: TaskState)
    requires Reserved(t.plan) && Terminal(state)
    requires state == Completed <==> Finishes(t, Run(t, now, actions), how)
    requires state == Cancelled <==> Stops(Run(t, now, actions), how)
    requires Commits(t, Settle(t, Run(t, now, actions), how, c).ledger, state, c)
    ensures var m := Run(t, now, actions);
            var l := Settle(t, m, how, c).ledger;
            Close(t, m, how, c)
            == Some(TerminalResult(state, Progress(m.ledger.book.admitted, m.ledger.book.completed, Total(t)), Whole(t, l, state, c)))
  {
    var m := Run(t, now, actions);
    RunValid(t, now, actions);
    SettleBook(t, m, how, c);
    hide Run, Reserved, Settle, Commits, Whole;
    ClosesAs(t, m, how, c);
  }

  // --- the constructor's checks ----------------------------------------------------------------

  function ObservationIds(observations: seq<Observation>): seq<string> {
    seq(|observations|, i requires 0 <= i < |observations| => observations[i].id)
  }

  function ConclusionIds(conclusions: seq<Conclusion>): seq<string> {
    seq(|conclusions|, i requires 0 <= i < |conclusions| => conclusions[i].id)
  }

  function Cited(conclusions: seq<Conclusion>): set<string> {
    set i, k | 0 <= i < |conclusions| && 0 <= k < |conclusions[i].cites| :: conclusions[i].cites[k]
  }

  /** A result can be constructed exactly when its lists are within their bounds, no two
      observations and no two conclusions share an identifier, and every citation is of a
      known observation. */
  lemma ResultValidExactly(observations: seq<Observation>, conclusions: seq<Conclusion>, capabilities: nat, errors: nat)
    ensures ResultValid(observations, conclusions, capabilities, errors) <==>
              && |observations| <= 100_000 && |conclusions| <= 100_000 && capabilities <= 4_096 && errors <= 256
              && |Elements(ObservationIds(observations))| == |observations|
              && |Elements(ConclusionIds(conclusions))| == |conclusions|
              && Cited(conclusions) <= Elements(ObservationIds(observations))
  {
    var ids, names := ObservationIds(observations), ConclusionIds(conclusions);
    CountIsDistinct(ids);
    CountIsDistinct(names);
    DistinctIdentifiers(observations, conclusions);
    CitationsKnown(observations, conclusions);
    ResultChecks(observations, conclusions, capabilities, errors);
    hide Elements, Cited, ObservationIds, ConclusionIds, Distinct, ResultValid, CitesOnly;
  }

  lemma DistinctIdentifiers(observations: seq<Observation>, conclusions: seq<Conclusion>)
    ensures |ObservationIds(observations)| == |observations| && |ConclusionIds(conclusions)| == |conclusions|
    ensures Distinct(ObservationIds(observations))
            <==> forall i, j :: 0 <= i < j < |observations| ==> observations[i].id != observations[j].id
    ensures Distinct(ConclusionIds(conclusions))
            <==> forall i, j :: 0 <= i < j < |conclusions| ==> conclusions[i].id != conclusions[j].id
  {
    var ids, names := ObservationIds(observations), ConclusionIds(conclusions);
    if Distinct(ids) {
      forall i, j | 0 <= i < j < |observations| ensures observations[i].id != observations[j].id {
        assert ids[i] != ids[j];
      }
    }
    if Distinct(names) {
      forall i, j | 0 <= i < j < |conclusions| ensures conclusions[i].id != conclusions[j].id {
        assert names[i] != names[j];
      }
    }
  }

  lemma CitationsKnown(observations: seq<Observation>, conclusions: seq<Conclusion>)
    ensures (Cited(conclusions) <= Elements(ObservationIds(observations))) == CitesOnly(observations, conclusions)
  {
    var ids := ObservationIds(observations);
    if Cited(conclusions) <= Elements(ids) {
      forall i, k | 0 <= i < |conclusions| && 0 <= k < |conclusions[i].cites| ensures HasId(observations, conclusions[i].cites[k]) {
        var x := conclusions[i].cites[k];
        assert x in Cited(conclusions) && x in ids;
        var j :| 0 <= j < |ids| && ids[j] == x;
        assert observations[j].id == x;
      }
    }
    if CitesOnly(observations, conclusions) {
      forall x | x in Cited(conclusions) ensures x in Elements(ids) {
        var i, k :| 0 <= i < |conclusions| && 0 <= k < |conclusions[i].cites| && conclusions[i].cites[k] == x;
        assert HasId(observations, conclusions[i].cites[k]);
        var j :| 0 <= j < |observations| && observations[j].id == x;
        assert ids[j] == x;
      }
    }
  }

  predicate CitesOnly(observations: seq<Observation>, conclusions: seq<Conclusion>) {
    forall i, k :: 0 <= i < |conclusions| && 0 <= k < |conclusions[i].cites| ==> HasId(observations, conclusions[i].cites[k])
  }

  lemma ResultChecks(observations: seq<Observation>, conclusions: seq<Conclusion>, capabilities: nat, errors: nat)
    ensures ResultValid(observations, conclusions, capabilities, errors) <==>
              && |observations| <= 100_000 && |conclusions| <= 100_000 && capabilities <= 4_096 && errors <= 256
              && Distinct(ObservationIds(observations)) && Distinct(ConclusionIds(conclusions)) && CitesOnly(observations, conclusions)
  {
    DistinctIdentifiers(observations, conclusions);
    hide ObservationIds, ConclusionIds, Distinct;
  }

  /** As many elements as places: no two places hold the same. */
  lemma {:induction false} CountIsDistinct<T>(s: seq<T>)
    ensures |Elements(s)| <= |s|
    ensures |Elements(s)| == |s| <==> Distinct(s)
  {
    if s != [] {
      var front, last := s[..|s| - 1], s[|s| - 1];
      assert s == front + [last];
      CountIsDistinct(front);
      assert Elements(s) == Elements(front) + {last};
      assert Distinct(s) <==> Distinct(front) && last !in Elements(front) by {
        if Distinct(front) && last !in Elements(front) {
          forall i, j | 0 <= i < j < |s| ensures s[i] != s[j] {
            if j == |s| - 1 {
              assert front[i] in Elements(front);
            } else {
              assert s[i] == front[i] && s[j] == front[j];
            }
          }
        }
        if Distinct(s) {
          assert forall i :: 0 <= i < |front| ==> front[i] == s[i];
        }
      }
    }
  }

  // --- terminal notes ---------------------------------------------------------------------------

  predicate Fits(t: Task, m: Machine, ended: Stamp, o: Observation) {
    && t.safe(Wire(o)) && m.ledger.events + 2 <= t.plan.limits.maxEvents
    && |Text(CandidateWith(t, m.ledger, ended, InObservations, Wire(o)))| <= t.plan.limits.maxOutputBytes
  }

  predicate Fails(t: Task, m: Machine, how: Ending) {
    how == RunnerTimedOut || how == RunnerRaised || (how == RunnerReturned && !m.cancelled && m.ledger.book.completed != Total(t))
  }

  /** Closing notes a failure when the runner timed out, raised, or returned early, then a
      cancellation if there was one, each when it is safe and fits, and touches no other
      observation; a task that finishes gets no note at all. */
  lemma {:induction false} NotesExactly(t: Task, now: real, actions: seq<Action>, how: Ending, c: Closing)
    requires Reserved(t.plan)
    ensures var m := Run(t, now, actions);
            var m0 := if Fails(t, m, how) then TaskLedger.Complain(t, m, c.recorded, c.failureText, None).next else m;
            var failed := if Fails(t, m, how) then Note(t, m0, c, c.failure, c.failureStored) else m;
            var noted := Fails(t, m, how) && Fits(t, m0, c.recorded, c.failure);
            var stopped := (how == RunnerCancelled || m.cancelled) && Fits(t, failed, c.recorded, c.cancellation);
            && Settle(t, m, how, c).ledger.out.observations
               == m.ledger.out.observations + (if noted then [c.failure] else []) + (if stopped then [c.cancellation] else [])
            && (Finishes(t, m, how) ==> Settle(t, m, how, c) == m)
  {
    RunValid(t, now, actions);
    hide Run, Reserved, Note, TaskLedger.Complain, Valid, Fits, Total;
    NotesInState(t, Run(t, now, actions), how, c);
  }

  lemma NotesInState(t: Task, m: Machine, how: Ending, c: Closing)
    requires Reserved(t.plan) && Valid(t, m)
    ensures var m0 := if Fails(t, m, how) then TaskLedger.Complain(t, m, c.recorded, c.failureText, None).next else m;
            var failed := if Fails(t, m, how) then Note(t, m0, c, c.failure, c.failureStored) else m;
            var noted := Fails(t, m, how) && Fits(t, m0, c.recorded, c.failure);
            var stopped := (how == RunnerCancelled || m.cancelled) && Fits(t, failed, c.recorded, c.cancellation);
            && Settle(t, m, how, c).ledger.out.observations
               == m.ledger.out.observations + (if noted then [c.failure] else []) + (if stopped then [c.cancellation] else [])
            && (Finishes(t, m, how) ==> Settle(t, m, how, c) == m)
  {
    hide Reserved, Note, TaskLedger.Complain, Valid, Fits, Total;
    FailureNoted(t, m, c);
    var m0 := TaskLedger.Complain(t, m, c.recorded, c.failureText, None).next;
    CancellationNoted(t, m, c);
    CancellationNoted(t, Note(t, m0, c, c.failure, c.failureStored), c);
  }

  lemma FailureNoted(t: Task, m: Machine, c: Closing)
    requires Reserved(t.plan) && Valid(t, m)
    ensures var m0 := TaskLedger.Complain(t, m, c.recorded, c.failureText, None).next;
            var failed := Note(t, m0, c, c.failure, c.failureStored);
            && Valid(t, failed)
            && failed.ledger.out.observations
               == m.ledger.out.observations + (if Fits(t, m0, c.recorded, c.failure) then [c.failure] else [])
  {
    hide Reserved, Note, TaskLedger.Complain, Valid, Fits;
    var m0 := TaskLedger.Complain(t, m, c.recorded, c.failureText, None).next;
    ComplainValid(t, m, c.recorded, c.failureText, None);
    ComplainKeepsObservations(t, m, c.recorded, c.failureText);
    NoteExactly(t, m0, c, c.failure, c.failureStored);
    NoteValid(t, m0, c, c.failure, c.failureStored);
  }

  lemma CancellationNoted(t: Task, m: Machine, c: Closing)
    requires Reserved(t.plan) && Valid(t, m)
    ensures Note(t, m.(cancelled := true), c, c.cancellation, c.cancellationStored).ledger.out.observations
         == m.ledger.out.observations + (if Fits(t, m, c.recorded, c.cancellation) then [c.cancellation] else [])
  {
    hide Reserved, Note, Valid, Fits;
    AbortValid(t, m);
    NoteExactly(t, m.(cancelled := true), c, c.cancellation, c.cancellationStored);
    CancelFits(t, m, c.recorded, c.cancellation);
  }

  lemma CancelFits(t: Task, m: Machine, ended: Stamp, o: Observation)
    ensures Fits(t, m.(cancelled := true), ended, o) == Fits(t, m, ended, o)
  {
    hide Text, CandidateWith, Wire;
  }

  lemma ComplainKeepsObservations(t: Task, m: Machine, ended: Stamp, message: Json)
    ensures TaskLedger.Complain(t, m, ended, message, None).next.ledger.out.observations == m.ledger.out.observations
  {
    hide Text;
  }

  lemma NoteExactly(t: Task, m: Machine, c: Closing, o: Observation, storeOk: bool)
    requires Reserved(t.plan) && Valid(t, m)
    ensures Note(t, m, c, o, storeOk).ledger.out.observations
         == m.ledger.out.observations + (if Fits(t, m, c.recorded, o) then [o] else [])
  {
    hide Append, Text, CandidateWith, Wire, TaskLedger.Complain, Reserved;
    OrderedCounters(t, m);
    AppendExactly(t, m, c.recorded, o, storeOk);
    ComplainKeepsObservations(t, Append(t, m, c.recorded, o, storeOk).next, c.recorded, c.noteText);
    hide Valid;
  }

  lemma OrderedCounters(t: Task, m: Machine)
    requires Reserved(t.plan) && Valid(t, m)
    ensures m.ledger.book.completed <= m.ledger.book.admitted <= Total(t)
  {
    var b := m.ledger.book;
    IdCount(t);
    hide Reserved;
    Subset(b.completedSteps, b.admittedSteps);
    Subset(b.admittedSteps, Ids(t));
  }

  /** What a note adds to the error texts: nothing if it is stored, else its own text, if
      that has room. */
  function NoteText(t: Task, m: Machine, c: Closing, o: Observation, storeOk: bool): seq<Json> {
    if Fits(t, m, c.recorded, o) && storeOk then []
    else if HasRoom(t, Append(t, m, c.recorded, o, storeOk).next.ledger, c.recorded, InErrors, c.noteText, None) then [c.noteText]
    else []
  }

  lemma KemptState(t: Task, m: Machine)
    requires Reserved(t.plan) && Valid(t, m)
    ensures Kempt(t, m, None)
  {
    OrderedCounters(t, m);
    hide Reserved, BookValid, OutputValid;
  }

  lemma NoteErrors(t: Task, m: Machine, c: Closing, o: Observation, storeOk: bool)
    requires Reserved(t.plan) && Valid(t, m)
    ensures Note(t, m, c, o, storeOk).ledger.out.errors == m.ledger.out.errors + NoteText(t, m, c, o, storeOk)
  {
    hide Append, Text, CandidateWith, Wire, TaskLedger.Complain, Reserved, HasRoom, Kempt, Valid;
    OrderedCounters(t, m);
    AppendExactly(t, m, c.recorded, o, storeOk);
    AppendValid(t, m, c.recorded, o, storeOk);
    var a := Append(t, m, c.recorded, o, storeOk).next;
    AppendErrors(t, m, c.recorded, o, storeOk);
    KemptState(t, a);
    ComplainInState(t, a, AddError(c.recorded, c.noteText, None));
  }

  lemma AppendErrors(t: Task, m: Machine, ended: Stamp, o: Observation, storeOk: bool)
    ensures Append(t, m, ended, o, storeOk).next.ledger.out.errors == m.ledger.out.errors
  {
    hide Text, Wire;
  }

  /** The errors that closing adds: the failure's text first, then one text for each note
      that could not be kept and stored. */
  lemma {:induction false} ErrorsExactly(t: Task, now: real, actions: seq<Action>, how: Ending, c: Closing)
    requires Reserved(t.plan)
    ensures var m := Run(t, now, actions);
            var m0 := TaskLedger.Complain(t, m, c.recorded, c.failureText, None).next;
            var failed := if Fails(t, m, how) then Note(t, m0, c, c.failure, c.failureStored) else m;
            Settle(t, m, how, c).ledger.out.errors
            == m.ledger.out.errors
               + (if Fails(t, m, how) then
                    (if HasRoom(t, m.ledger, c.recorded, InErrors, c.failureText, None) then [c.failureText] else [])
                    + NoteText(t, m0, c, c.failure, c.failureStored)
                  else [])
               + (if how == RunnerCancelled || m.cancelled then
                    NoteText(t, failed.(cancelled := true), c, c.cancellation, c.cancellationStored)
                  else [])
  {
    RunValid(t, now, actions);
    hide Run;
    ErrorsInState(t, Run(t, now, actions), how, c);
  }

  lemma ErrorsInState(t: Task, m: Machine, how: Ending, c: Closing)
    requires Reserved(t.plan) && Valid(t, m)
    ensures var m0 := TaskLedger.Complain(t, m, c.recorded, c.failureText, None).next;
            var failed := if Fails(t, m, how) then Note(t, m0, c, c.failure, c.failureStored) else m;
            Settle(t, m, how, c).ledger.out.errors
            == m.ledger.out.errors
               + (if Fails(t, m, how) then
                    (if HasRoom(t, m.ledger, c.recorded, InErrors, c.failureText, None) then [c.failureText] else [])
                    + NoteText(t, m0, c, c.failure, c.failureStored)
                  else [])
               + (if how == RunnerCancelled || m.cancelled then
                    NoteText(t, failed.(cancelled := true), c, c.cancellation, c.cancellationStored)
                  else [])
  {
    hide Reserved, Valid, NoteText, Note, TaskLedger.Complain, HasRoom;
    var m0 := TaskLedger.Complain(t, m, c.recorded, c.failureText, None).next;
    FailureErrors(t, m, c);
    var failed := if Fails(t, m, how) then Note(t, m0, c, c.failure, c.failureStored) else m;
    AbortValid(t, failed);
    NoteErrors(t, failed.(cancelled := true), c, c.cancellation, c.cancellationStored);
  }

  lemma FailureErrors(t: Task, m: Machine, c: Closing)
    requires Reserved(t.plan) && Valid(t, m)
    ensures var m0 := TaskLedger.Complain(t, m, c.recorded, c.failureText, None).next;
            var failed := Note(t, m0, c, c.failure, c.failureStored);
            && Valid(t, failed)
            && failed.ledger.out.errors
               == m.ledger.out.errors
                  + ((if HasRoom(t, m.ledger, c.recorded, InErrors, c.failureText, None) then [c.failureText] else [])
                     + NoteText(t, m0, c, c.failure, c.failureStored))
  {
    hide Reserved, Valid, NoteText, Note, TaskLedger.Complain, HasRoom, Kempt;
    var m0 := TaskLedger.Complain(t, m, c.recorded, c.failureText, None).next;
    KemptState(t, m);
    ComplainInState(t, m, AddError(c.recorded, c.failureText, None));
    ComplainValid(t, m, c.recorded, c.failureText, None);
    NoteErrors(t, m0, c, c.failure, c.failureStored);
    NoteValid(t, m0, c, c.failure, c.failureStored);
  }

  // --- what survives a refused commit -------------------------------------------------------------

  /** The first safe observation under its identifier. */
  ghost predicate FirstSafe(t: Task, observations: seq<Observation>, o: Observation) {
    exists k :: 0 <= k < |observations| && observations[k] == o && t.safe(Wire(o))
                && forall j :: 0 <= j < k && observations[j].id == o.id ==> !t.safe(Wire(observations[j]))
  }

  /** The failure result keeps of the evidence exactly the first safe observation of each
      identifier, none twice. */
  lemma {:induction false} RevalidatedExactly(t: Task, observations: seq<Observation>, o: Observation)
    ensures o in Revalidated(t, observations) <==> FirstSafe(t, observations, o)
    ensures Distinct(ObservationIds(Revalidated(t, observations)))
    ensures HasId(Revalidated(t, observations), o.id)
            <==> exists k :: 0 <= k < |observations| && observations[k].id == o.id && t.safe(Wire(observations[k]))
  {
    hide Wire;
    if observations != [] {
      var n := |observations| - 1;
      var front, last := observations[..n], observations[n];
      var kept := Revalidated(t, front);
      RevalidatedExactly(t, front, o);
      RevalidatedExactly(t, front, last);
      assert forall k :: 0 <= k < n ==> front[k] == observations[k];
      FirstSafeStep(t, observations, o);
      if !HasId(kept, last.id) && t.safe(Wire(last)) {
        AppendedIds(kept, last);
        HasIdAppend(kept, last, o.id);
      }
      hide Revalidated;
    }
  }

  lemma FirstSafeStep(t: Task, observations: seq<Observation>, o: Observation)
    requires observations != []
    ensures var n := |observations| - 1;
            FirstSafe(t, observations, o) <==>
              || FirstSafe(t, observations[..n], o)
              || (o == observations[n] && t.safe(Wire(o))
                  && forall j :: 0 <= j < n && observations[j].id == o.id ==> !t.safe(Wire(observations[j])))
  {
    hide Wire;
    var n := |observations| - 1;
    var front := observations[..n];
    assert forall k :: 0 <= k < n ==> front[k] == observations[k];
    if FirstSafe(t, front, o) {
      var k :| 0 <= k < n && front[k] == o && t.safe(Wire(o))
               && forall j :: 0 <= j < k && front[j].id == o.id ==> !t.safe(Wire(front[j]));
      assert observations[k] == o;
    }
    if FirstSafe(t, observations, o) {
      var k :| 0 <= k < |observations| && observations[k] == o && t.safe(Wire(o))
               && forall j :: 0 <= j < k && observations[j].id == o.id ==> !t.safe(Wire(observations[j]));
      if k < n {
        assert front[k] == o;
      }
    }
  }

  lemma AppendedIds(kept: seq<Observation>, last: Observation)
    requires Distinct(ObservationIds(kept)) && !HasId(kept, last.id)
    ensures Distinct(ObservationIds(kept + [last]))
  {
    var ids := ObservationIds(kept + [last]);
    forall i, j | 0 <= i < j < |ids| ensures ids[i] != ids[j] {
      assert ids[i] == ObservationIds(kept)[i];
      if j < |kept| {
        assert ids[j] == ObservationIds(kept)[j];
      }
    }
  }

  lemma HasIdAppend(kept: seq<Observation>, last: Observation, id: string)
    ensures HasId(kept + [last], id) <==> HasId(kept, id) || last.id == id
  {
    var all := kept + [last];
    assert forall i :: 0 <= i < |kept| ==> all[i] == kept[i];
    assert all[|kept|] == last;
  }

  /** And of the capabilities exactly the safe ones, in order. */
  lemma {:induction false} SafeItemsExactly(t: Task, items: seq<Json>)
    ensures forall x :: multiset(SafeItems(t, items))[x] == if t.safe(x) then multiset(items)[x] else 0
  {
    if items != [] {
      SafeItemsExactly(t, items[..|items| - 1]);
      assert items == items[..|items| - 1] + [items[|items| - 1]];
    }
  }

  /** Both keep the order of what was recorded. */
  lemma {:induction false} SurvivorsInOrder(t: Task, observations: seq<Observation>, items: seq<Json>, j: nat, k: nat)
    requires j <= |observations| && k <= |items|
    ensures Revalidated(t, observations[..j]) <= Revalidated(t, observations)
    ensures SafeItems(t, items[..k]) <= SafeItems(t, items)
  {
    ObservationsInOrder(t, observations, j);
    ItemsInOrder(t, items, k);
  }

  lemma {:induction false} ObservationsInOrder(t: Task, observations: seq<Observation>, j: nat)
    requires j <= |observations|
    ensures Revalidated(t, observations[..j]) <= Revalidated(t, observations)
  {
    if j == |observations| {
      assert observations[..j] == observations;
    } else {
      assert observations[..|observations| - 1][..j] == observations[..j];
      ObservationsInOrder(t, observations[..|observations| - 1], j);
    }
  }

  lemma {:induction false} ItemsInOrder(t: Task, items: seq<Json>, k: nat)
    requires k <= |items|
    ensures SafeItems(t, items[..k]) <= SafeItems(t, items)
  {
    if k == |items| {
      assert items[..k] == items;
    } else {
      assert items[..|items| - 1][..k] == items[..k];
      ItemsInOrder(t, items[..|items| - 1], k);
    }
  }

  /** The observations of a failed result: the survivors, and the closing one unless a
      survivor has its identifier. */
  function Surviving(t: Task, l: Ledger, c: Closing): seq<Observation> {
    Revalidated(t, l.out.observations)
    + (if exists k :: 0 <= k < |l.out.observations| && l.out.observations[k].id == c.finalization.id && t.safe(Wire(l.out.observations[k]))
       then [] else [c.finalization])
  }

  /** Its errors: at most 255 of the task's and the closing text. */
  function ClosingErrors(l: Ledger, c: Closing): seq<Json> {
    (if |l.out.errors| <= 255 then l.out.errors else l.out.errors[..255]) + [c.finalizationText]
  }

  function FailedWhole(t: Task, l: Ledger, ended: Stamp, c: Closing): Json {
    ResultWire(t.envelope, Failed, t.started, ended, Progress(l.book.admitted, l.book.completed, Total(t)), Wires(Surviving(t, l, c)),
      ConclusionWires(c.derivedOnFailure), SafeItems(t, l.out.capabilities), ClosingErrors(l, c))
  }

  /** When the whole result cannot be constructed, or the store has refused it, the task ends
      with what survives, in a failed result that cites the failure; when that cannot be
      constructed or does not fit, and when the whole result does not fit, with the fallback. */
  lemma {:induction false} FailureExactly(t: Task, now: real, actions: seq<Action>, how: Ending, c: Closing)
    requires Reserved(t.plan)
    ensures var m := Run(t, now, actions);
            var l, r := Settle(t, m, how, c).ledger, Close(t, m, how, c);
            var p, ended := Progress(m.ledger.book.admitted, m.ledger.book.completed, Total(t)), if c.finishOk then c.ended else c.refinished;
            var fallback := TerminalResult(Failed, p, FallbackWire(t.envelope, t.started, ended, c.instant, p));
            var constructed := ResultValid(l.out.observations, l.out.conclusions + c.derived, |l.out.capabilities|, |l.out.errors|);
            && (r.Some? && !(c.finishOk && constructed) ==>
                  r.value == if ResultValid(Surviving(t, l, c), c.derivedOnFailure, |SafeItems(t, l.out.capabilities)|, |ClosingErrors(l, c)|)
                                && |Text(FailedWhole(t, l, ended, c))| <= t.plan.limits.maxOutputBytes
                             then TerminalResult(Failed, p, FailedWhole(t, l, ended, c)) else fallback)
            && (c.finishOk && constructed && |Text(Whole(t, l, Classify(t, m, how), c))| > t.plan.limits.maxOutputBytes ==>
                  r == Some(fallback))
  {
    var m := Run(t, now, actions);
    RunValid(t, now, actions);
    SettleBook(t, m, how, c);
    hide Run, Reserved, Settle, Text, ResultValid, Classify;
    FailureInState(t, m, how, c);
  }

  lemma FailureInState(t: Task, m: Machine, how: Ending, c: Closing)
    requires Settle(t, m, how, c).ledger.book == m.ledger.book
    requires m.ledger.book.completed <= m.ledger.book.admitted <= Total(t)
    ensures var l, r := Settle(t, m, how, c).ledger, Close(t, m, how, c);
            var p, ended := Progress(m.ledger.book.admitted, m.ledger.book.completed, Total(t)), if c.finishOk then c.ended else c.refinished;
            var fallback := TerminalResult(Failed, p, FallbackWire(t.envelope, t.started, ended, c.instant, p));
            var constructed := ResultValid(l.out.observations, l.out.conclusions + c.derived, |l.out.capabilities|, |l.out.errors|);
            && (r.Some? && !(c.finishOk && constructed) ==>
                  r.value == if ResultValid(Surviving(t, l, c), c.derivedOnFailure, |SafeItems(t, l.out.capabilities)|, |ClosingErrors(l, c)|)
                                && |Text(FailedWhole(t, l, ended, c))| <= t.plan.limits.maxOutputBytes
                             then TerminalResult(Failed, p, FailedWhole(t, l, ended, c)) else fallback)
            && (c.finishOk && constructed && |Text(Whole(t, l, Classify(t, m, how), c))| > t.plan.limits.maxOutputBytes ==>
                  r == Some(fallback))
  {
    hide Settle, Text, ResultValid, ResultWire, FallbackWire, Classify, SafeItems, FailureResult, Surviving, ClosingErrors;
    var l := Settle(t, m, how, c).ledger;
    FailedAs(t, l, c.ended, c);
    FailedAs(t, l, c.refinished, c);
  }

  lemma FailedAs(t: Task, l: Ledger, ended: Stamp, c: Closing)
    requires l.book.completed <= l.book.admitted <= Total(t)
    ensures var p := Progress(l.book.admitted, l.book.completed, Total(t));
            FailureResult(t, l, ended, c)
            == if ResultValid(Surviving(t, l, c), c.derivedOnFailure, |SafeItems(t, l.out.capabilities)|, |ClosingErrors(l, c)|)
                  && |Text(FailedWhole(t, l, ended, c))| <= t.plan.limits.maxOutputBytes
               then TerminalResult(Failed, p, FailedWhole(t, l, ended, c))
               else TerminalResult(Failed, p, FallbackWire(t.envelope, t.started, ended, c.instant, p))
  {
    hide Text, ResultValid, ResultWire, FallbackWire, SafeItems, Revalidated, HasId, Wire;
    RevalidatedExactly(t, l.out.observations, c.finalization);
    var kept := Revalidated(t, l.out.observations);
    assert kept + [] == kept && l.out.errors[..|l.out.errors|] == l.out.errors;
    assert Surviving(t, l, c) == if HasId(kept, c.finalization.id) then kept else kept + [c.finalization];
    assert ClosingErrors(l, c) == l.out.errors[..Least(|l.out.errors|, MAX_ITEMS - 1)] + [c.finalizationText];
    hide Surviving, ClosingErrors;
  }
}
