/** What the log tells about claims. The worker and the epoch of a claim event
    come from the caller and the store compares neither with the claim, so the
    log names the live claims exactly as far as callers announce them truly. */
module ClaimLog {
  import opened Domain
  import opened Aggregates
  import opened Database
  import opened Mutations
  import opened Preservation
  import opened Runs
  import opened Safety
  import opened TableFacts
  import opened Exclusion
  import opened Replay
  import opened Scenarios

  datatype Told = Told(worker: WorkerId, epoch: nat)

  /** The last claim that the log names for each commitment. */
  function ToldClaims(events: seq<WorkEvent>): map<CommitmentId, Told>
    decreases |events|
  {
    if events == [] then map[]
    else
      var last := events[|events| - 1];
      var told := ToldClaims(events[..|events| - 1]);
      if last.CommitmentClaimed? then told[last.id := Told(last.worker, last.epoch)] else told
  }

  /** The epochs that the log names for one commitment, in order. */
  function LoggedEpochs(events: seq<WorkEvent>, c: CommitmentId): seq<nat>
    decreases |events|
  {
    if events == [] then []
    else
      var last := events[|events| - 1];
      LoggedEpochs(events[..|events| - 1], c) + EpochIn(last, c)
  }

  function EpochIn(event: WorkEvent, c: CommitmentId): seq<nat> {
    if event.CommitmentClaimed? && event.id == c then [event.epoch] else []
  }

  predicate NoClaimEvent(events: seq<WorkEvent>) {
    forall i :: 0 <= i < |events| ==> !events[i].CommitmentClaimed?
  }

  lemma {:induction false} QuietAboutClaims(events: seq<WorkEvent>, added: seq<WorkEvent>)
    requires NoClaimEvent(added)
    ensures ToldClaims(events + added) == ToldClaims(events)
    ensures forall c :: LoggedEpochs(events + added, c) == LoggedEpochs(events, c)
    decreases |added|
  {
    if added == [] {
      assert events + added == events;
    } else {
      var k := |added| - 1;
      assert (events + added)[..|events + added| - 1] == events + added[..k];
      QuietAboutClaims(events, added[..k]);
    }
  }

  lemma OneClaimEvent(events: seq<WorkEvent>, event: WorkEvent)
    ensures ToldClaims(events + [event])
         == if event.CommitmentClaimed? then ToldClaims(events)[event.id := Told(event.worker, event.epoch)]
            else ToldClaims(events)
    ensures forall c :: LoggedEpochs(events + [event], c) == LoggedEpochs(events, c) + EpochIn(event, c)
  {
    assert (events + [event])[..|events|] == events;
  }

  /** Every live claim is the last one that the log names. */
  predicate ClaimsTold(db: Db) {
    forall c :: c in db.claims ==>
      && c in ToldClaims(db.events)
      && ToldClaims(db.events)[c] == Told(db.claims[c].worker, db.claims[c].epoch)
  }

  /** The event names the lease that the draft opens. */
  predicate NamesLease(event: WorkEvent, d: Draft) {
    event.CommitmentClaimed? && d.claim.Some?
    && event.worker == d.claim.value.worker && event.epoch == d.claim.value.epoch
  }

  // ---- the condition, step by step ----

  /** A persist carries a claim event exactly when it opens a claim. */
  lemma ClaimEventOpens(db: Db, d: Draft, expected: nat, event: WorkEvent)
    requires Inv(db) && MayPersist(db, d, expected, event)
    ensures event.CommitmentClaimed? <==> d.id !in db.claims && d.claim.Some?
    ensures event.CommitmentClaimed? ==> event.id == d.id && d.state.Claimed?
    ensures d.id in db.commitments
    ensures d.id in db.claims && d.claim.Some? ==>
      d.claim == Some(Lease(db.claims[d.id].worker, db.claims[d.id].epoch, db.claims[d.id].heartbeat))
  {
    hide Inv, CascadeFits, PersistRow;
    if d.id in db.commitments { ClaimFacts(db, d.id); }
  }

  lemma PersistedLog(db: Db, d: Draft, expected: nat, event: WorkEvent)
    requires MayPersist(db, d, expected, event)
    ensures ToldClaims(PersistEffect(db, d, event).events) == ToldClaims(db.events + [event])
    ensures forall c :: LoggedEpochs(PersistEffect(db, d, event).events, c) == LoggedEpochs(db.events + [event], c)
  {
    hide ToldClaims, LoggedEpochs, CascadeOf, MayPersistRow, CascadeFits, MoveAll;
    CandidateHasRow(db, d, expected, event);
    var moved := PersistRow(db, d, event);
    if d.state.Completed? {
      var completions := Completions(CascadeOf(moved.commitments, d.id));
      QuietAboutClaims(db.events + [event], completions);
    }
  }

  lemma OpenedClaim(db: Db, d: Draft, event: WorkEvent)
    requires d.id in db.commitments && d.claim.Some? && !d.state.Completed?
    ensures d.id in PersistEffect(db, d, event).claims
    ensures PersistEffect(db, d, event).claims[d.id] == ClaimRowOf(d.claim.value, db.boot)
  {
  }

  /** Main result: from a log that names the live claims, an accepted opening
      leaves it so if and only if its event names the lease it opens. */
  lemma OpeningIsToldIff(db: Db, d: Draft, expected: nat, event: WorkEvent)
    requires Inv(db) && ClaimsTold(db) && MayPersist(db, d, expected, event)
    requires d.id !in db.claims && d.claim.Some?
    ensures ClaimsTold(PersistEffect(db, d, event)) <==> NamesLease(event, d)
  {
    hide Inv, MayPersist, PersistEffect, ToldClaims;
    ClaimEventOpens(db, d, expected, event);
    PersistedLog(db, d, expected, event);
    OneClaimEvent(db.events, event);
    OpenedClaim(db, d, event);
    forall c | c in PersistEffect(db, d, event).claims
      ensures if c == d.id then PersistEffect(db, d, event).claims[c] == ClaimRowOf(d.claim.value, db.boot)
              else c in db.claims && PersistEffect(db, d, event).claims[c] == db.claims[c]
    {
      PersistedClaims(db, d, event, c);
    }
  }

  /** Any other persist only keeps or drops a claim that the log names already. */
  lemma KeepingIsTold(db: Db, d: Draft, expected: nat, event: WorkEvent)
    requires Inv(db) && ClaimsTold(db) && MayPersist(db, d, expected, event)
    requires !(d.id !in db.claims && d.claim.Some?)
    ensures ClaimsTold(PersistEffect(db, d, event))
  {
    hide Inv, MayPersist, PersistEffect, ToldClaims;
    ClaimEventOpens(db, d, expected, event);
    PersistedLog(db, d, expected, event);
    OneClaimEvent(db.events, event);
    forall c | c in PersistEffect(db, d, event).claims
      ensures c in db.claims && PersistEffect(db, d, event).claims[c].worker == db.claims[c].worker
      ensures PersistEffect(db, d, event).claims[c].epoch == db.claims[c].epoch
    {
      PersistedClaims(db, d, event, c);
    }
  }

  // ---- the other mutations ----

  lemma OthersOpenNoClaim(db: Db, m: Mutation)
    requires Allowed(db, m) && !m.Persist?
    ensures forall c :: c in Do(db, m).claims ==>
      c in db.claims && Do(db, m).claims[c].worker == db.claims[c].worker && Do(db, m).claims[c].epoch == db.claims[c].epoch
  {
    hide MayDecompose, MayRestructure, MayRequire, MayIssue, MayAdmit, MayRecord, MayRelease, MayRestart, MayInsert,
         MayExpire, MayInvalidate, MoveAll, InvalidateAll, FreeReserved, HeldLocks, Reserve, HoldAll, FreeHeld,
         Completions, Invalidations, RecoveryNotices, GraphOf, Enumerates, Linked, Requiring, RowOf;
  }

  lemma OthersLogNoClaim(db: Db, m: Mutation)
    requires Allowed(db, m) && !m.Persist? && (m.Insert? ==> m.event.CommitmentCreated?)
    ensures NoClaimEvent(Appended(db, m))
  {
    hide MayDecompose, MayRestructure, MayIssue, MayAdmit, MayInvalidate, MayRelease, MayRestart, MayRequire, Holds,
         MayInsert, Enumerates, MayExpire;
  }

  /** Inserts say nothing of live claims: their commitment is new. */
  lemma InsertIsTold(db: Db, d: Draft, event: WorkEvent)
    requires Inv(db) && ClaimsTold(db) && MayInsert(db, d, event)
    ensures ClaimsTold(InsertEffect(db, d, event))
  {
    hide Inv, ToldClaims;
    OneClaimEvent(db.events, event);
    forall c | c in db.claims
      ensures c != d.id
    {
      ClaimIsRegular(db, c);
    }
  }

  // ---- whole runs ----

  /** Every event that claims a commitment names the lease it comes with. */
  ghost predicate ClaimsAnnounced(ms: seq<Mutation>) {
    forall i :: 0 <= i < |ms| && ms[i].Persist? && ms[i].event.CommitmentClaimed? ==>
      NamesLease(ms[i].event, ms[i].draft)
  }

  lemma StepIsTold(db: Db, m: Mutation)
    requires Inv(db) && ClaimsTold(db)
    requires m.Persist? && m.event.CommitmentClaimed? ==> NamesLease(m.event, m.draft)
    ensures ClaimsTold(Step(db, m))
  {
    hide Inv, MayPersist, MayInsert, PersistEffect, InsertEffect, ClaimsTold, NamesLease;
    if Allowed(db, m) {
      if m.Persist? {
        ClaimEventOpens(db, m.draft, m.expected, m.event);
        if m.event.CommitmentClaimed? {
          OpeningIsToldIff(db, m.draft, m.expected, m.event);
        } else {
          KeepingIsTold(db, m.draft, m.expected, m.event);
        }
      } else if m.Insert? {
        InsertIsTold(db, m.draft, m.event);
      } else {
        QuietStepIsTold(db, m);
      }
    }
  }

  lemma QuietStepIsTold(db: Db, m: Mutation)
    requires ClaimsTold(db) && Allowed(db, m) && !m.Persist? && !m.Insert?
    ensures ClaimsTold(Do(db, m))
  {
    hide Allowed, Do, Appended, ToldClaims, NoClaimEvent;
    OthersOpenNoClaim(db, m);
    OthersLogNoClaim(db, m);
    LogIsAppended(db, m);
    QuietAboutClaims(db.events, Appended(db, m));
  }

  /** Main result: in every state of a run whose claims are announced truly, the
      log names the worker and the epoch of every live claim. */
  lemma {:induction false} LiveClaimsAreTold(ms: seq<Mutation>)
    requires SoundRun(EMPTY, ms) && ClaimsAnnounced(ms)
    ensures ClaimsTold(RunAll(EMPTY, ms))
    decreases |ms|
  {
    hide Inv, Step, ToldClaims, NamesLease;
    if ms != [] {
      var k := |ms| - 1;
      SoundPrefix(EMPTY, ms, k);
      LiveClaimsAreTold(ms[..k]);
      ReachableInv(ms[..k]);
      StepIsTold(RunAll(EMPTY, ms[..k]), ms[k]);
    }
  }

  lemma StepLogsOpening(db: Db, m: Mutation, c: CommitmentId)
    requires Inv(db)
    requires m.Persist? && m.event.CommitmentClaimed? ==> NamesLease(m.event, m.draft)
    requires m.Insert? ==> m.event.CommitmentCreated?
    ensures LoggedEpochs(Step(db, m).events, c)
         == LoggedEpochs(db.events, c) + if Opens(db, Step(db, m), c) then [Step(db, m).claims[c].epoch] else []
  {
    hide Inv, MayPersist, PersistEffect, LoggedEpochs;
    if Allowed(db, m) {
      if m.Persist? {
        PersistLogsOpening(db, m.draft, m.expected, m.event, c);
      } else {
        QuietStepLogsNothing(db, m, c);
      }
    }
  }

  lemma QuietStepLogsNothing(db: Db, m: Mutation, c: CommitmentId)
    requires Allowed(db, m) && !m.Persist? && (m.Insert? ==> m.event.CommitmentCreated?)
    ensures LoggedEpochs(Do(db, m).events, c) == LoggedEpochs(db.events, c) && !Opens(db, Do(db, m), c)
  {
    hide Allowed, Do, Appended, LoggedEpochs, NoClaimEvent;
    OthersOpenNoClaim(db, m);
    OthersLogNoClaim(db, m);
    LogIsAppended(db, m);
    QuietAboutClaims(db.events, Appended(db, m));
  }

  lemma PersistLogsOpening(db: Db, d: Draft, expected: nat, event: WorkEvent, c: CommitmentId)
    requires Inv(db) && MayPersist(db, d, expected, event) && (event.CommitmentClaimed? ==> NamesLease(event, d))
    ensures
      var after := PersistEffect(db, d, event);
      LoggedEpochs(after.events, c)
      == LoggedEpochs(db.events, c) + if Opens(db, after, c) then [after.claims[c].epoch] else []
  {
    hide Inv, MayPersist, PersistEffect, LoggedEpochs;
    ClaimEventOpens(db, d, expected, event);
    PersistedLog(db, d, expected, event);
    OneClaimEvent(db.events, event);
    if c in PersistEffect(db, d, event).claims {
      PersistedClaims(db, d, event, c);
    }
    if event.CommitmentClaimed? {
      OpenedClaim(db, d, event);
    }
  }

  /** Main result: over such a run the claim epochs in the log are those of the
      claims that were opened, in order: by EpochsAreConsecutive, consecutive. */
  lemma {:induction false} LoggedEpochsAreOpenings(db: Db, ms: seq<Mutation>, c: CommitmentId)
    requires Inv(db) && SoundRun(db, ms) && ClaimsAnnounced(ms) && InsertsAnnounced(ms)
    ensures LoggedEpochs(RunAll(db, ms).events, c) == LoggedEpochs(db.events, c) + Openings(db, ms, c)
    decreases |ms|
  {
    hide Inv, Step, LoggedEpochs, NamesLease, Opens;
    if ms == [] {
      assert LoggedEpochs(db.events, c) + [] == LoggedEpochs(db.events, c);
    } else {
      var k := |ms| - 1;
      SoundPrefix(db, ms, k);
      LoggedEpochsAreOpenings(db, ms[..k], c);
      RunKeepsInv(db, ms[..k]);
      StepLogsOpening(RunAll(db, ms[..k]), ms[k], c);
    }
  }

  // ---- a claim announced in another's name ----

  const FORGED := CommitmentClaimed(C, WorkerId("mallory"), 99)

  /** A concrete run: ready work is claimed by one worker at the first epoch, the
      store accepts an event that names another worker and epoch, and the log no
      longer names the claim. */
  lemma ForgedClaimIsAccepted() returns (ms: seq<Mutation>)
    ensures Commits(EMPTY, ms, READY) && ClaimsTold(READY)
    ensures MayPersist(READY, Snap(Claimed, Lease1(1), 1), 2, FORGED)
    ensures !ClaimsTold(PersistEffect(READY, Snap(Claimed, Lease1(1), 1), FORGED))
  {
    hide Commits, ClaimsTold, PersistEffect, MayPersist, Inv;
    ms := ReachReady();
    ReachedKeepsInv(ms, READY);
    assert ClaimsTold(READY) by { NoClaimIsTold(READY); }
    PersistStep(Ready, 0, 2, None, map[], map[], READY_LOG, Claimed, Lease1(1), 1, FORGED);
    OpeningIsToldIff(READY, Snap(Claimed, Lease1(1), 1), 2, FORGED);
  }

  lemma NoClaimIsTold(db: Db)
    requires db.claims == map[]
    ensures ClaimsTold(db)
  {
  }
}
