/** Each action gets at most one recorded outcome, however often and however
    contradictorily its outcome is delivered. */
module Outcomes {
  import opened Domain
  import opened Aggregates
  import opened Database
  import opened Mutations
  import opened Runs
  import opened Safety
  import Acyclic

  datatype Recording = Recorded | AlreadyRecorded

  predicate IsSettled(state: GuardState) {
    state.Resolved? || state.Uncertain?
  }

  function DigestOf(state: GuardState): Option<Digest> {
    match state
    case Admitted(_, digest) => digest
    case Resolved(_, digest) => digest
    case Uncertain(_, digest) => digest
    case _ => None
  }

  /** The answer to a delivery for the guard that carries the action. */
  function Reply(state: GuardState, outcome: Outcome, digest: Option<Digest>): Result<Recording> {
    if DigestOf(state) == None && digest.Some? then Err(OutcomePreparationBindingMissing)
    else if DigestOf(state) != digest then Err(OutcomePreparationMismatch)
    else
      match state
      case Admitted(_, _) => Ok(Recorded)
      case Resolved(recorded, _) => if recorded == outcome then Ok(AlreadyRecorded) else Err(OutcomeConflict)
      case Uncertain(_, _) => if outcome.Uncertain? then Ok(AlreadyRecorded) else Err(OutcomeConflict)
      case _ => Err(GuardInvalid)
  }

  /** The outcome that a guard holds on to, if any. */
  function OutcomeOf(state: GuardState): Option<Outcome> {
    match state
    case Resolved(outcome, _) => Some(outcome)
    case Uncertain(action, _) => Some(Outcome.Uncertain(action))
    case _ => None
  }

  /** The answer by what the guard holds: with its binding, a delivery is recorded
      if nothing is held yet, already recorded if it is the outcome held, and in
      conflict if it is another one; with any other binding it is refused. */
  lemma ReplyIsExact(state: GuardState, outcome: Outcome, digest: Option<Digest>)
    requires ActionOf(state) == Some(outcome.action)
    ensures digest == DigestOf(state) ==>
      Reply(state, outcome, digest) ==
        if OutcomeOf(state) == None then Ok(Recorded)
        else if OutcomeOf(state) == Some(outcome) then Ok(AlreadyRecorded)
        else Err(OutcomeConflict)
    ensures digest != DigestOf(state) ==>
      Reply(state, outcome, digest) == Err(OutcomePreparationMismatch)
      || Reply(state, outcome, digest) == Err(OutcomePreparationBindingMissing)
    ensures Reply(state, outcome, digest) == Err(OutcomePreparationBindingMissing) <==>
              DigestOf(state) == None && digest.Some?
  {
  }

  function CountOutcomes(events: seq<WorkEvent>, action: ActionRef): nat
    decreases |events|
  {
    if events == [] then 0
    else
      var last := events[|events| - 1];
      CountOutcomes(events[..|events| - 1], action)
      + if last.OutcomeRecorded? && last.outcome.action == action then 1 else 0
  }

  lemma {:induction false} CountConcat(first: seq<WorkEvent>, second: seq<WorkEvent>, action: ActionRef)
    ensures CountOutcomes(first + second, action) == CountOutcomes(first, action) + CountOutcomes(second, action)
    decreases |second|
  {
    if second == [] {
      assert first + second == first;
    } else {
      var k := |second| - 1;
      assert (first + second)[..|first + second| - 1] == first + second[..k];
      CountConcat(first, second[..k], action);
    }
  }

  lemma {:induction false} CountNone(events: seq<WorkEvent>, action: ActionRef)
    requires forall i :: 0 <= i < |events| ==> !events[i].OutcomeRecorded?
    ensures CountOutcomes(events, action) == 0
    decreases |events|
  {
    if events != [] {
      CountNone(events[..|events| - 1], action);
    }
  }

  ghost predicate Settled(gs: Guards, action: ActionRef) {
    exists g :: g in gs && IsSettled(gs[g].state) && ActionOf(gs[g].state) == Some(action)
  }

  /** The log holds one outcome for the action if a guard is settled with it, and none otherwise. */
  ghost predicate CountAgrees(db: Db, action: ActionRef) {
    CountOutcomes(db.events, action) == if Settled(db.guards, action) then 1 else 0
  }

  /** Only a recording logs an outcome or settles a guard. */
  lemma OthersLogNoOutcome(db: Db, m: Mutation)
    requires Allowed(db, m) && !m.Record?
    ensures forall i :: 0 <= i < |Appended(db, m)| ==> !Appended(db, m)[i].OutcomeRecorded?
  {
    hide MayDecompose, MayRestructure, MayIssue, MayAdmit, MayInvalidate, MayRelease, MayRestart, MayRequire, Holds,
         ClaimPersists, CascadeFits, CascadeOf, LegalTransition, Enumerates, PersistRow, MayExpire;
  }

  lemma OthersSettleNothing(db: Db, m: Mutation, g: GuardId)
    requires Allowed(db, m) && !m.Record? && g in Do(db, m).guards && IsSettled(Do(db, m).guards[g].state)
    ensures g in db.guards && db.guards[g] == Do(db, m).guards[g]
  {
  }

  lemma OtherStepsAgree(db: Db, m: Mutation, action: ActionRef)
    requires Allowed(db, m) && !m.Record? && CountAgrees(db, action)
    ensures CountAgrees(Do(db, m), action)
  {
    hide Allowed, Do, Appended;
    var after := Do(db, m);
    OthersLogNoOutcome(db, m);
    LogIsAppended(db, m);
    CountConcat(db.events, Appended(db, m), action);
    CountNone(Appended(db, m), action);
    if g :| g in after.guards && IsSettled(after.guards[g].state) && ActionOf(after.guards[g].state) == Some(action) {
      OthersSettleNothing(db, m, g);
    }
    if g :| g in db.guards && IsSettled(db.guards[g].state) && ActionOf(db.guards[g].state) == Some(action) {
      SettledStays(db, m, g);
    }
  }

  lemma SettledStays(db: Db, m: Mutation, g: GuardId)
    requires g in db.guards && IsSettled(db.guards[g].state)
    ensures g in Step(db, m).guards && Step(db, m).guards[g] == db.guards[g]
    ensures Allowed(db, m) ==> g in Do(db, m).guards && Do(db, m).guards[g] == db.guards[g]
  {
    hide Allowed, Do;
    GuardStep(db, m, g);
  }

  lemma RecordSettles(cs: Commitments, gs: Guards, g: GuardId, state: GuardState, action: ActionRef)
    requires ActionsAgree(cs, gs) && g in gs && gs[g].state.Admitted?
    requires IsSettled(state) && ActionOf(state) == ActionOf(gs[g].state)
    ensures Settled(gs[g := gs[g].(state := state)], action) <==> Settled(gs, action) || ActionOf(state) == Some(action)
    ensures ActionOf(state) == Some(action) ==> !Settled(gs, action)
  {
    var after := gs[g := gs[g].(state := state)];
    assert after[g].state == state;
    if h :| h in gs && IsSettled(gs[h].state) && ActionOf(gs[h].state) == Some(action) {
      assert h != g && after[h] == gs[h];
    }
  }

  lemma CountOneThenNone(events: seq<WorkEvent>, first: WorkEvent, rest: seq<WorkEvent>, action: ActionRef)
    requires first.OutcomeRecorded? && forall i :: 0 <= i < |rest| ==> !rest[i].OutcomeRecorded?
    ensures CountOutcomes(events + ([first] + rest), action)
         == CountOutcomes(events, action) + if first.outcome.action == action then 1 else 0
  {
    CountConcat(events, [first] + rest, action);
    CountConcat([first], rest, action);
    CountNone(rest, action);
    assert [first][..0] == [];
  }

  lemma RecordLogsOne(db: Db, g: GuardId, outcome: Outcome, digest: Option<Digest>, action: ActionRef)
    requires MayRecord(db, g, outcome, digest)
    ensures CountOutcomes(RecordEffect(db, g, outcome, digest).events, action)
         == CountOutcomes(db.events, action) + if action == outcome.action then 1 else 0
  {
    hide CountOutcomes, Do, RecordEffect;
    var m := Record(g, outcome, digest);
    var appended := Appended(db, m);
    RecordIsDone(db, g, outcome, digest);
    LogIsAppended(db, m);
    assert appended == [OutcomeRecorded(outcome, digest)] + appended[1..];
    CountOneThenNone(db.events, OutcomeRecorded(outcome, digest), appended[1..], action);
  }

  lemma RecordIsDone(db: Db, g: GuardId, outcome: Outcome, digest: Option<Digest>)
    requires MayRecord(db, g, outcome, digest)
    ensures Do(db, Record(g, outcome, digest)) == RecordEffect(db, g, outcome, digest)
  {
  }

  lemma RecordAgrees(db: Db, g: GuardId, outcome: Outcome, digest: Option<Digest>, action: ActionRef)
    requires ActionsAgree(db.commitments, db.guards) && MayRecord(db, g, outcome, digest) && CountAgrees(db, action)
    ensures CountAgrees(RecordEffect(db, g, outcome, digest), action)
  {
    hide ActionsAgree, Settled, CountOutcomes;
    RecordSettles(db.commitments, db.guards, g, RecordEffect(db, g, outcome, digest).guards[g].state, action);
    RecordLogsOne(db, g, outcome, digest, action);
  }

  lemma OutcomeStep(db: Db, m: Mutation, action: ActionRef)
    requires Inv(db) && CountAgrees(db, action)
    ensures CountAgrees(Step(db, m), action)
  {
    hide MayRecord, CountAgrees;
    if Allowed(db, m) {
      if m.Record? {
        RecordAgrees(db, m.guard, m.outcome, m.digest, action);
      } else {
        OtherStepsAgree(db, m, action);
      }
    }
  }

  /** Main result: along every run each action has at most one outcome in the
      log, and exactly one once a guard is settled with it. */
  lemma {:induction false} OutcomesAreRecordedOnce(ms: seq<Mutation>, action: ActionRef)
    requires SoundRun(EMPTY, ms)
    ensures CountOutcomes(RunAll(EMPTY, ms).events, action) == if Settled(RunAll(EMPTY, ms).guards, action) then 1 else 0
    decreases |ms|
  {
    hide Inv, Step;
    if ms != [] {
      var k := |ms| - 1;
      SoundPrefix(EMPTY, ms, k);
      OutcomesAreRecordedOnce(ms[..k], action);
      ReachableInv(ms[..k]);
      OutcomeStep(RunAll(EMPTY, ms[..k]), ms[k], action);
    }
  }

  lemma {:induction false} SettledForGood(db: Db, ms: seq<Mutation>, g: GuardId)
    requires g in db.guards && IsSettled(db.guards[g].state)
    ensures g in RunAll(db, ms).guards && RunAll(db, ms).guards[g] == db.guards[g]
    decreases |ms|
  {
    hide Step;
    if ms != [] {
      var k := |ms| - 1;
      SettledForGood(db, ms[..k], g);
      SettledStays(RunAll(db, ms[..k]), ms[k], g);
    }
  }

  /** Main result: after an outcome is recorded, whatever else happens, a further
      delivery with the same binding is answered AlreadyRecorded if it is equal
      and Conflict if it differs, and nothing more is ever recorded for the guard. */
  lemma LaterDeliveries(db: Db, g: GuardId, outcome: Outcome, digest: Option<Digest>, ms: seq<Mutation>, again: Outcome)
    requires MayRecord(db, g, outcome, digest) && again.action == outcome.action
    ensures
      var end := RunAll(RecordEffect(db, g, outcome, digest), ms);
      && g in end.guards
      && Reply(end.guards[g].state, again, digest) == (if again == outcome then Ok(AlreadyRecorded) else Err(OutcomeConflict))
      && forall other, binding :: !MayRecord(end, g, other, binding)
  {
    hide Step;
    SettledForGood(RecordEffect(db, g, outcome, digest), ms, g);
  }
}
