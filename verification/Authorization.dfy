/** Digest-bound confirmations: authorising a preview, and revalidating the authorised
    plan at each service boundary. */
module Authorization {
  import opened Outcomes
  import opened Collections
  import opened Networks
  import opened Plans
  import opened Policy
  import Cartesian
  import Sparse
  import opened Revalidation

  datatype ProbePlan = ProbePlan(preview: Preview, confirmations: seq<string>, authorizedAt: int)

  /** `confirmation_phrase`; `prefix` is the first twelve digits of the plan digest. */
  function Phrase(kind: Confirmation, prefix: string): string {
    match kind
    case FullTcp => "AUTHORIZE FULL TCP " + prefix
    case FullUdp => "AUTHORIZE FULL UDP " + prefix
    case CustomUdp => "AUTHORIZE CUSTOM UDP " + prefix
  }

  function Phrases(kinds: seq<Confirmation>, prefix: string): seq<string> {
    seq(|kinds|, i requires 0 <= i < |kinds| => Phrase(kinds[i], prefix))
  }

  /** `authorize_plan`. */
  function AuthorizePlan(env: Environment, p: Preview, prefix: string, supplied: seq<string>, now: int): Result<ProbePlan, Failure> {
    var _ :- ValidatePreview(env, p, now);
    :- Need(|Elements(supplied)| == |supplied|, ConfirmationFailure);
    :- Need(Elements(supplied) == Elements(Phrases(p.confirmations, prefix)), ConfirmationFailure);
    :- Need(Current(p.scope, now), PolicyFailure);
    Ok(ProbePlan(p, supplied, now))
  }

  /** `validate_plan`. */
  function ValidatePlan(env: Environment, plan: ProbePlan, prefix: string, now: int): Result<ProbePlan, Failure> {
    var _ :- ValidatePreview(env, plan.preview, now);
    :- Need(plan.preview.createdAt <= plan.authorizedAt <= now, ConfirmationFailure);
    var expected := Phrases(plan.preview.confirmations, prefix);
    :- Need(Elements(plan.confirmations) == Elements(expected) && |plan.confirmations| == |expected|, ConfirmationFailure);
    Ok(plan)
  }

  lemma PhrasesDiffer(a: Confirmation, b: Confirmation, prefix: string)
    ensures Phrase(a, prefix) == Phrase(b, prefix) <==> a == b
  {
    var x, y := Phrase(a, prefix), Phrase(b, prefix);
    assert x[10] == (if a == CustomUdp then 'C' else 'F') && y[10] == (if b == CustomUdp then 'C' else 'F');
    assert a != CustomUdp ==> x[15] == (if a == FullTcp then 'T' else 'U');
    assert b != CustomUdp ==> y[15] == (if b == FullTcp then 'T' else 'U');
  }

  lemma PhrasesDistinct(kinds: seq<Confirmation>, prefix: string)
    requires Distinct(kinds)
    ensures Distinct(Phrases(kinds, prefix))
  {
    forall i, j | 0 <= i < j < |kinds| ensures Phrase(kinds[i], prefix) != Phrase(kinds[j], prefix) {
      PhrasesDiffer(kinds[i], kinds[j], prefix);
    }
  }

  /** The validator looks at the clock only through the creation date and the scope. */
  lemma ValidatesLater(env: Environment, p: Preview, before: int, now: int)
    requires ValidatePreview(env, p, before) == Ok(p) && before <= now
    ensures ValidatePreview(env, p, now) == Ok(p) <==> Current(p.scope, now)
  {
    hide ValidatePreview, Recompile, Current, Snapshotted, Sources;
    ValidatesExactly(env, p, before);
    ValidatesExactly(env, p, now);
  }

  lemma DistinctConfirmations(shape: Cartesian.Shape)
    ensures Distinct(Cartesian.Confirmations(shape))
  {
  }

  lemma PublishedConfirmations(env: Environment, q: Cartesian.Request, resolver: Resolver, now: int)
    ensures var r := Cartesian.PreviewPlan(env, q, resolver, now); r.Ok? ==> Distinct(r.value.confirmations)
  {
    hide Cartesian.ReadRequest, Cartesian.ResolveAll, Cartesian.CompileSteps, Cartesian.HostTotal, Cartesian.Checked, EstimateWithin,
         Cartesian.EstimateOf, Cartesian.HostResolutions, Cartesian.Places, Cartesian.Confirmations, Distinct, Datagrams,
         ApplicationBytes;
    var shape := Cartesian.ReadRequest(env, q, now);
    if shape.Ok? {
      DistinctConfirmations(shape.value);
    }
  }

  lemma ListedConfirmations(env: Environment, specs: seq<StepFields>, g: Grant, profile: string, limits: Limits, now: int)
    ensures var r := Sparse.PreviewProbePlan(env, specs, g, profile, limits, now); r.Ok? ==> Distinct(r.value.confirmations)
  {
    hide Sparse.CompileSpecs, LimitsWithin, NormalizeTargets, Canonical, Sparse.EstimateOf, EstimateWithin, Sparse.SlotResolutions,
         Sparse.Hostnames, Sparse.UdpPayloads, Sparse.Silent, Sparse.PortNumbers, Sparse.SummaryPayload, Sparse.MaxAttempt,
         Cartesian.InTextOrder, Sparse.UsedTransports, Sparse.SpecTargets, Sparse.ContiguousSlots;
  }

  /** A plan that validates asks for no confirmation twice: both compilers see to that. */
  lemma ValidatedConfirmations(env: Environment, p: Preview, now: int)
    requires ValidatePreview(env, p, now) == Ok(p)
    ensures Distinct(p.confirmations)
  {
    hide ValidatePreview, RoutesSparse, Distinct, Cartesian.PreviewPlan, Sparse.PreviewProbePlan, RequestOf, Replay, SpecsOf, Snapshotted, Sources;
    ValidatesExactly(env, p, now);
    ListedConfirmations(env, SpecsOf(p.steps), p.scope, p.profile, p.limits, p.createdAt);
    if p.steps != [] && |StepPayloads(p.steps)| == 1 && |StepTimeouts(p.steps)| == 1 {
      PublishedConfirmations(env, RequestOf(env.notation, p), Replay(p.resolutions), p.createdAt);
    }
  }

  lemma AuthorizedFacts(env: Environment, p: Preview, prefix: string, supplied: seq<string>, now: int)
    requires AuthorizePlan(env, p, prefix, supplied, now).Ok?
    ensures AuthorizePlan(env, p, prefix, supplied, now).value == ProbePlan(p, supplied, now)
    ensures ValidatePreview(env, p, now) == Ok(p) && |Elements(supplied)| == |supplied|
    ensures Elements(supplied) == Elements(Phrases(p.confirmations, prefix))
  {
    hide Recompile, Current, Snapshotted, Sources, Phrases;
  }

  /** An authorised plan passes every later trust boundary exactly as long as its scope is
      current: nothing else about it can go stale, and no earlier clock accepts it. */
  lemma AuthorizedPlanValidates(env: Environment, p: Preview, prefix: string, supplied: seq<string>, authorized: int, now: int)
    requires AuthorizePlan(env, p, prefix, supplied, authorized).Ok?
    ensures var plan := AuthorizePlan(env, p, prefix, supplied, authorized).value;
            ValidatePlan(env, plan, prefix, now) == Ok(plan) <==> authorized <= now && Current(p.scope, now)
  {
    hide ValidatePreview, Phrases, Current;
    AuthorizedFacts(env, p, prefix, supplied, authorized);
    assert p.createdAt <= authorized by { ValidatesExactly(env, p, authorized); }
    ValidatedConfirmations(env, p, authorized);
    var expected := Phrases(p.confirmations, prefix);
    PhrasesDistinct(p.confirmations, prefix);
    DistinctCount(expected);
    hide AuthorizePlan;
    if authorized <= now {
      ValidatesLater(env, p, authorized, now);
    }
    ValidatesItself(env, p, now);
  }

  lemma ValidatesItself(env: Environment, p: Preview, now: int)
    ensures ValidatePreview(env, p, now).Ok? <==> ValidatePreview(env, p, now) == Ok(p)
  {
    hide Recompile, Current, Snapshotted, Sources;
  }

  /** Exactly one phrase for each confirmation that the plan asks for, in any order. */
  ghost predicate Confirmed(kinds: seq<Confirmation>, prefix: string, supplied: seq<string>) {
    && |supplied| == |kinds|
    && (forall kind :: kind in kinds ==> Phrase(kind, prefix) in supplied)
    && forall text :: text in supplied ==> exists kind :: kind in kinds && text == Phrase(kind, prefix)
  }

  /** A plan is authorised exactly when it validates and is confirmed in full and in nothing
      else. */
  lemma {:induction false} AuthorizesExactly(env: Environment, p: Preview, prefix: string, supplied: seq<string>, now: int)
    ensures AuthorizePlan(env, p, prefix, supplied, now).Ok?
            <==> ValidatePreview(env, p, now) == Ok(p) && Confirmed(p.confirmations, prefix, supplied)
    ensures AuthorizePlan(env, p, prefix, supplied, now).Ok? ==>
              AuthorizePlan(env, p, prefix, supplied, now).value == ProbePlan(p, supplied, now)
  {
    ValidatesExactly(env, p, now);
    ValidatesItself(env, p, now);
    hide ValidatePreview, Recompile, Snapshotted, Sources, Current;
    if ValidatePreview(env, p, now) == Ok(p) {
      ValidatedConfirmations(env, p, now);
      ConfirmedExactly(p.confirmations, prefix, supplied);
    }
    hide Phrases, Confirmed;
  }

  /** And an authorised plan is accepted again exactly when it validates, its authorisation
      lies between its creation and now, and its confirmations are those. */
  lemma {:induction false} RevalidatesExactly(env: Environment, plan: ProbePlan, prefix: string, now: int)
    ensures ValidatePlan(env, plan, prefix, now).Ok? <==>
              && ValidatePreview(env, plan.preview, now) == Ok(plan.preview)
              && plan.preview.createdAt <= plan.authorizedAt <= now
              && Confirmed(plan.preview.confirmations, prefix, plan.confirmations)
  {
    ValidatesItself(env, plan.preview, now);
    hide ValidatePreview;
    if ValidatePreview(env, plan.preview, now) == Ok(plan.preview) {
      ValidatedConfirmations(env, plan.preview, now);
      ConfirmedExactly(plan.preview.confirmations, prefix, plan.confirmations);
    }
    hide Confirmed;
  }

  lemma ConfirmedExactly(kinds: seq<Confirmation>, prefix: string, supplied: seq<string>)
    requires Distinct(kinds)
    ensures |Elements(supplied)| == |supplied| && Elements(supplied) == Elements(Phrases(kinds, prefix))
            <==> Confirmed(kinds, prefix, supplied)
    ensures Elements(supplied) == Elements(Phrases(kinds, prefix)) && |supplied| == |Phrases(kinds, prefix)|
            <==> Confirmed(kinds, prefix, supplied)
  {
    var expected := Phrases(kinds, prefix);
    PhrasesDistinct(kinds, prefix);
    DistinctCount(expected);
    hide Phrase;
    if Elements(supplied) == Elements(expected) {
      forall kind | kind in kinds ensures Phrase(kind, prefix) in supplied {
        var i :| 0 <= i < |kinds| && kinds[i] == kind;
        assert expected[i] in Elements(expected);
      }
      forall text | text in supplied ensures exists kind :: kind in kinds && text == Phrase(kind, prefix) {
        assert text in Elements(expected);
        var i :| 0 <= i < |expected| && expected[i] == text;
        assert kinds[i] in kinds;
      }
    }
    if Confirmed(kinds, prefix, supplied) {
      forall text ensures text in Elements(supplied) <==> text in Elements(expected) {
        if text in supplied {
          var kind :| kind in kinds && text == Phrase(kind, prefix);
          var i :| 0 <= i < |kinds| && kinds[i] == kind;
          assert expected[i] == text;
        }
        if text in Elements(expected) {
          var i :| 0 <= i < |expected| && expected[i] == text;
          assert kinds[i] in kinds;
        }
      }
    }
  }
}
