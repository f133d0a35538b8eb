/** What retention removes, what it keeps, and that doing it twice changes nothing. */
module RetentionRules {
  import opened Outcomes
  import opened Collections
  import opened ResultDocument
  import opened HistoryTable
  import opened HistorySafety

  lemma NewerOrder(s: Store, a: string, b: string, c: string)
    requires a in s.tasks && b in s.tasks && c in s.tasks
    ensures !Newer(s, a, a)
    ensures Newer(s, a, b) && Newer(s, b, c) ==> Newer(s, a, c)
    ensures a != b ==> Newer(s, a, b) || Newer(s, b, a)
  {
    TextOrderAt(a, b, c);
    TextOrderAt(c, b, a);
  }

  /** Any non-empty set of rows has an oldest one. */
  lemma {:induction false} Oldest(s: Store, ids: set<string>) returns (oldest: string)
    requires ids != {} && forall id :: id in ids ==> id in s.tasks
    ensures oldest in ids && forall id :: id in ids && id != oldest ==> Newer(s, id, oldest)
    decreases |ids|
  {
    var some :| some in ids;
    if ids == {some} {
      return some;
    }
    var rest := ids - {some};
    assert ids == rest + {some};
    oldest := Oldest(s, rest);
    NewerOrder(s, some, oldest, some);
    if !Newer(s, some, oldest) {
      forall id | id in ids && id != some ensures Newer(s, id, some) {
        NewerOrder(s, id, oldest, some);
      }
      oldest := some;
    }
  }

  lemma {:induction false} Smaller<T>(a: set<T>, b: set<T>)
    requires a <= b
    ensures |a| <= |b|
  {
    assert b == a + (b - a);
  }

  /** The closed rows that survive the count rule number at most `max_tasks`. */
  lemma KeptCount(s: Store, maxTasks: nat)
    ensures |ClosedIds(s) - Excess(s, maxTasks)| <= maxTasks
  {
    var kept := ClosedIds(s) - Excess(s, maxTasks);
    if kept != {} {
      var oldest := Oldest(s, kept);
      Smaller(kept - {oldest}, NewerClosed(s, oldest));
      assert kept == (kept - {oldest}) + {oldest};
    }
  }

  /** A row dropped by count is older than every closed row kept. */
  lemma DroppedAreOlder(s: Store, maxTasks: nat, dropped: string, kept: string)
    requires dropped in Excess(s, maxTasks) && kept in ClosedIds(s) && kept !in Excess(s, maxTasks)
    ensures Newer(s, kept, dropped)
  {
    NewerOrder(s, kept, dropped, kept);
    if Newer(s, dropped, kept) {
      forall x | x in NewerClosed(s, dropped) ensures x in NewerClosed(s, kept) {
        NewerOrder(s, x, dropped, kept);
      }
      Smaller(NewerClosed(s, dropped), NewerClosed(s, kept));
    }
  }

  /** After retention no active task is lost, at most `max_tasks` closed tasks remain,
      none is older than the cutoff, and surviving rows and their events are untouched. */
  lemma {:induction false} PruneKeeps(s: Store, r: Retention, now: int, id: string)
    ensures var s' := Prune(s, r, now);
            && |ClosedIds(s')| <= r.maxTasks
            && (id in s.tasks && Open(s.tasks[id].state) ==> id in s'.tasks)
            && (id in s'.tasks ==>
                  && id in s.tasks && s'.tasks[id] == s.tasks[id]
                  && OfTask(s'.events, id) == OfTask(s.events, id)
                  && (Open(s.tasks[id].state) || s.tasks[id].updated >= Ms(now - r.maxAge)))
            && (id in s.tasks && id !in s'.tasks ==> OfTask(s'.events, id) == [])
  {
    var gone := Expired(s, Ms(now - r.maxAge));
    var recent := Drop(s, gone);
    var extra := Excess(recent, r.maxTasks);
    WithoutOfTask(s.events, gone, id);
    WithoutOfTask(recent.events, extra, id);
    KeptCount(recent, r.maxTasks);
    ClosedAfterDrop(recent, extra);
    hide OfTask, Without, Newer;
  }

  lemma ClosedAfterDrop(s: Store, ids: set<string>)
    ensures ClosedIds(Drop(s, ids)) == ClosedIds(s) - ids
  {
    hide Without;
  }

  /** A closed task that retention drops without being too old is older, in
      (updated_at, task_id) order, than every closed task it keeps. */
  lemma PruneDropsOldest(s: Store, r: Retention, now: int, dropped: string, kept: string)
    requires dropped in s.tasks && dropped !in Prune(s, r, now).tasks
    requires s.tasks[dropped].updated >= Ms(now - r.maxAge)
    requires kept in Prune(s, r, now).tasks && !Open(s.tasks[kept].state)
    ensures Newer(s, kept, dropped)
  {
    var recent := Drop(s, Expired(s, Ms(now - r.maxAge)));
    DroppedAreOlder(recent, r.maxTasks, dropped, kept);
  }

  /** Retention drops by count only when it must: the rows kept are then exactly `max_tasks`. */
  lemma DropsOnlyTheExcess(s: Store, maxTasks: nat)
    requires Excess(s, maxTasks) != {}
    ensures |ClosedIds(s) - Excess(s, maxTasks)| == maxTasks
  {
    KeptCount(s, maxTasks);
    var newest := Newest(s, Excess(s, maxTasks));
    forall x | x in NewerClosed(s, newest) ensures x in ClosedIds(s) - Excess(s, maxTasks) {
      NewerOrder(s, x, newest, x);
    }
    Smaller(NewerClosed(s, newest), ClosedIds(s) - Excess(s, maxTasks));
  }

  lemma {:induction false} Newest(s: Store, ids: set<string>) returns (newest: string)
    requires ids != {} && forall id :: id in ids ==> id in s.tasks
    ensures newest in ids && forall id :: id in ids && id != newest ==> Newer(s, newest, id)
    decreases |ids|
  {
    var some :| some in ids;
    if ids == {some} {
      return some;
    }
    var rest := ids - {some};
    assert ids == rest + {some};
    newest := Newest(s, rest);
    NewerOrder(s, some, newest, some);
    if !Newer(s, newest, some) {
      forall id | id in ids && id != some ensures Newer(s, some, id) {
        NewerOrder(s, some, newest, id);
      }
      newest := some;
    }
  }

  lemma {:induction false} WithoutNothing(events: seq<EventRow>)
    ensures Without(events, {}) == events
  {
    if events != [] {
      WithoutNothing(events[..|events| - 1]);
    }
  }

  lemma DropNothing(s: Store)
    ensures Drop(s, {}) == s
  {
    WithoutNothing(s.events);
    assert (map id | id in s.tasks && id !in {} :: s.tasks[id]) == s.tasks;
  }

  /** A second retention at the same time changes nothing. */
  lemma PruneIdempotent(s: Store, r: Retention, now: int)
    ensures Prune(Prune(s, r, now), r, now) == Prune(s, r, now)
  {
    var s' := Prune(s, r, now);
    NothingExpired(s, r, now);
    DropNothing(s');
    PruneKeeps(s, r, now, "");
    hide Drop;
    NothingInExcess(s', r.maxTasks);
  }

  lemma NothingExpired(s: Store, r: Retention, now: int)
    ensures Expired(Prune(s, r, now), Ms(now - r.maxAge)) == {}
  {
    hide Excess, Without;
  }

  lemma NothingInExcess(s: Store, maxTasks: nat)
    requires |ClosedIds(s)| <= maxTasks
    ensures Excess(s, maxTasks) == {}
  {
    forall id | id in ClosedIds(s) ensures |NewerClosed(s, id)| < maxTasks {
      NewerOrder(s, id, id, id);
      Smaller(NewerClosed(s, id) + {id}, ClosedIds(s));
    }
  }
}
