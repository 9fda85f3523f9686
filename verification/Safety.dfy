/** What one step may change, row by row, and what follows for whole runs. */
module Safety {
  import opened Domain
  import opened Aggregates
  import opened Database
  import opened Mutations
  import opened Preservation
  import opened Runs
  import Cascade
  import Acyclic

  // ---- guards ----

  predicate GuardMoves(from: GuardState, to: GuardState) {
    || to == from
    || (from.Issued? && (to.Admitted? || to.Invalidated?))
    || (from.Admitted? && (to.Resolved? || to.Uncertain?) && ActionOf(to) == ActionOf(from) && to.digest == from.digest)
  }

  lemma OtherTablesKeepGuards(db: Db, m: Mutation)
    requires Allowed(db, m)
    requires m.AddGoal? || m.Insert? || m.Persist? || m.Decompose? || m.Require? || m.GiveUp? || m.Beat? || m.Release?
    ensures Do(db, m).guards == db.guards
  {
    hide MayInsert, MayPersist, MayDecompose, MayRestructure, MayRequire, MayRelease, CascadeOf, MoveAll, GraphOf,
         Acyclic.IsAcyclic;
  }

  lemma SweepsInvalidateIssued(db: Db, m: Mutation, g: GuardId)
    requires Allowed(db, m) && (m.Expire? || m.Invalidate? || m.Lapse? || m.Restart?) && g in db.guards
    ensures g in Do(db, m).guards
    ensures Do(db, m).guards[g] == db.guards[g]
         || (db.guards[g].state.Issued? && Do(db, m).guards[g] == db.guards[g].(state := GuardState.Invalidated))
  {
    hide Holds, MoveAll, FreeReserved, HeldLocks, Invalidations, RecoveryNotices;
  }

  lemma OneGuardMoves(db: Db, m: Mutation, g: GuardId)
    requires Allowed(db, m) && (m.Issue? || m.Admit? || m.Record?) && g in db.guards
    ensures g in Do(db, m).guards
    ensures GuardMoves(db.guards[g].state, Do(db, m).guards[g].state)
    ensures Do(db, m).guards[g] == db.guards[g].(state := Do(db, m).guards[g].state)
  {
    hide Holds, HoldAll, FreeHeld, Reserve;
  }

  /** A guard is never deleted or rewritten; its state only moves forward. */
  lemma GuardStep(db: Db, m: Mutation, g: GuardId)
    requires g in db.guards
    ensures g in Step(db, m).guards
    ensures GuardMoves(db.guards[g].state, Step(db, m).guards[g].state)
    ensures Step(db, m).guards[g] == db.guards[g].(state := Step(db, m).guards[g].state)
  {
    hide Allowed, Do;
    if Allowed(db, m) {
      if m.Issue? || m.Admit? || m.Record? {
        OneGuardMoves(db, m, g);
      } else if m.Expire? || m.Invalidate? || m.Lapse? || m.Restart? {
        SweepsInvalidateIssued(db, m, g);
      } else {
        OtherTablesKeepGuards(db, m);
      }
    }
  }

  /** Every edge that a commitment can take in one step of the store. */
  predicate StateMoves(row: CommitmentRow, after: CommitmentRow) {
    || after.state == row.state
    || LegalTransition(row.state, after.state)
    || (row.state.Claimed? && after.state.RecoveryPending?)
    || (row.replacement.Some? && row.state == Waiting(OnPrerequisite(row.replacement.value)) && after.state.Completed?)
    || (row.replacement.Some? && row.state.RecoveryPending? && after.state.Completed?)
  }

  /** A commitment that the cascade completes was waiting on its replacement
      terminal, or was pending recovery. */
  lemma CascadedRow(cs: Commitments, gs: Guards, child: CommitmentId, p: CommitmentId)
    requires BarriersHold(cs, gs) && p in CascadeOf(cs, child)
    ensures p in cs && cs[p].replacement.Some? && !IsTerminal(cs[p].state)
    ensures cs[p].state == Waiting(OnPrerequisite(cs[p].replacement.value)) || cs[p].state.RecoveryPending?
  {
    var chain := CascadeOf(cs, child);
    var k :| 0 <= k < |chain| && chain[k] == p;
    Cascade.ChainIsOpen(cs, child, Unfinished(cs));
    Cascade.ChainLinks(cs, child, Unfinished(cs), k);
    assert BarrierHolds(cs, gs, p);
  }

  /** Persistence changes its own row and the rows of the cascade. */
  lemma PersistedRows(db: Db, d: Draft, expected: nat, event: WorkEvent, c: CommitmentId)
    requires Inv(db) && MayPersist(db, d, expected, event) && c in db.commitments
    ensures
      var after := PersistEffect(db, d, event).commitments;
      && c in after
      && (if c == d.id then after[c] == PersistedRow(db.commitments[c], d)
          else if d.state.Completed? && c in CascadeOf(PersistRow(db, d, event).commitments, d.id) then
            && after[c] == Moved(db.commitments[c], Completed)
            && db.commitments[c].replacement.Some?
            && !IsTerminal(db.commitments[c].state)
            && (|| db.commitments[c].state == Waiting(OnPrerequisite(db.commitments[c].replacement.value))
                || db.commitments[c].state.RecoveryPending?)
          else after[c] == db.commitments[c])
  {
    hide ClaimsAgree, ActionsAgree, LocksAgree, GuardsSound, TopologySound, BarriersReleased, Acyclic.IsAcyclic,
      ClaimPersists, CascadeFits, LegalTransition, Unfinished, BarriersHold;
    if d.state.Completed? {
      var moved := PersistRow(db, d, event);
      Cascade.PersistRowKeepsConsistent(db, d, expected, event);
      if c in CascadeOf(moved.commitments, d.id) {
        CascadedRow(moved.commitments, db.guards, d.id, c);
      }
    }
  }

  /** What one step keeps of an existing commitment besides its state. */
  predicate RowKeeps(row: CommitmentRow, after: CommitmentRow) {
    && after.goal == row.goal && after.parent == row.parent && after.brief == row.brief
    && row.prerequisites <= after.prerequisites
    && row.highWater <= after.highWater <= row.highWater + 1
    && (row.replacement.Some? ==> after.replacement == row.replacement)
    && (after == row || after.version == row.version + 1)
  }

  /** All that one step may do to an existing commitment. */
  predicate RowMoves(row: CommitmentRow, after: CommitmentRow) {
    RowKeeps(row, after) && StateMoves(row, after)
  }

  lemma ClaimedRowLapses(row: CommitmentRow)
    requires RequiresClaim(row.state)
    ensures RowMoves(row, Moved(row, RecoveryPending))
  {
  }

  lemma RecordedRowMoves(db: Db, g: GuardId, outcome: Outcome, digest: Option<Digest>)
    requires Inv(db) && MayRecord(db, g, outcome, digest)
    ensures
      var c := db.guards[g].commitment;
      RowMoves(db.commitments[c], RecordEffect(db, g, outcome, digest).commitments[c])
  {
    hide ClaimsAgree, LocksAgree, GuardsSound, TopologySound, BarriersHold, BarriersReleased, Acyclic.IsAcyclic;
    assert GuardFences(db.commitments, db.guards[g]);
  }

  lemma PersistedRowMoves(db: Db, d: Draft, expected: nat, event: WorkEvent, c: CommitmentId)
    requires Inv(db) && MayPersist(db, d, expected, event) && c in db.commitments
    ensures c in PersistEffect(db, d, event).commitments
    ensures RowMoves(db.commitments[c], PersistEffect(db, d, event).commitments[c])
  {
    hide Inv, PersistEffect, CascadeOf, CascadeFits, ClaimPersists, EventDescribes, LegalTransition, PersistRow;
    PersistedRows(db, d, expected, event, c);
    if c == d.id {
      PersistedMarkRises(db, d, expected, event);
    }
  }

  lemma PersistedMarkRises(db: Db, d: Draft, expected: nat, event: WorkEvent)
    requires MayPersistRow(db, d, expected, event)
    ensures
      var row := db.commitments[d.id];
      row.highWater <= PersistedRow(row, d).highWater <= row.highWater + 1
  {
    hide EventDescribes, LegalTransition, RequiresClaim;
  }

  /** The rows after a restart or a lapse. */
  lemma LapsedRowMoves(db: Db, lapsed: set<CommitmentId>, c: CommitmentId)
    requires Inv(db) && c in db.commitments && lapsed <= db.claims.Keys
    ensures RowMoves(db.commitments[c], MoveAll(db.commitments, lapsed, RecoveryPending)[c])
  {
    if c in lapsed {
      ClaimedRowLapses(db.commitments[c]);
    }
  }

  lemma PlainEdgesAreLegal(db: Db, m: Mutation, c: CommitmentId)
    requires Allowed(db, m) && c in db.commitments
    requires !m.Persist? && !m.Record? && !m.Lapse? && !m.Restart?
    ensures c in Do(db, m).commitments
    ensures Do(db, m).commitments[c].state == db.commitments[c].state
         || LegalTransition(db.commitments[c].state, Do(db, m).commitments[c].state)
  {
    hide Acyclic.IsAcyclic, GraphOf, Dependencies, Enumerates, MayIssue, MayBeat, MayExpire, MayInvalidate, LeaseLive,
         InvalidateAll, FreeReserved, HeldLocks, Reserve, HoldAll, FreeHeld, NothingInFlight, Invalidations, RecoveryNotices;
  }

  lemma PlainRowKeeps(db: Db, m: Mutation, c: CommitmentId)
    requires Allowed(db, m) && c in db.commitments
    requires !m.Persist? && !m.Record? && !m.Lapse? && !m.Restart?
    ensures c in Do(db, m).commitments && RowKeeps(db.commitments[c], Do(db, m).commitments[c])
  {
    hide Acyclic.IsAcyclic, GraphOf, Dependencies, Enumerates, MayIssue, MayBeat, MayExpire, MayInvalidate, LeaseLive,
         InvalidateAll, FreeReserved, HeldLocks, Reserve, HoldAll, FreeHeld, NothingInFlight, RequiresClaim;
  }

  /** The mutations whose effect on rows needs no invariant to explain. */
  lemma PlainRowMoves(db: Db, m: Mutation, c: CommitmentId)
    requires Allowed(db, m) && c in db.commitments
    requires !m.Persist? && !m.Record? && !m.Lapse? && !m.Restart?
    ensures c in Do(db, m).commitments && RowMoves(db.commitments[c], Do(db, m).commitments[c])
  {
    hide Allowed, Do, LegalTransition;
    PlainRowKeeps(db, m, c);
    PlainEdgesAreLegal(db, m, c);
  }

  lemma FencedRowMoves(db: Db, m: Mutation, c: CommitmentId)
    requires Inv(db) && Allowed(db, m) && c in db.commitments && (m.Persist? || m.Record?)
    ensures c in Do(db, m).commitments && RowMoves(db.commitments[c], Do(db, m).commitments[c])
  {
    hide Inv, MayPersist, MayRecord;
    if m.Persist? {
      PersistedRowMoves(db, m.draft, m.expected, m.event, c);
    } else {
      RecordedRowMoves(db, m.guard, m.outcome, m.digest);
    }
  }

  lemma RetiredRowMoves(db: Db, m: Mutation, c: CommitmentId)
    requires Inv(db) && Allowed(db, m) && c in db.commitments && (m.Lapse? || m.Restart?)
    ensures c in Do(db, m).commitments && RowMoves(db.commitments[c], Do(db, m).commitments[c])
  {
    hide Inv, RowMoves;
    LapsedRowMoves(db, if m.Lapse? then {m.commitment} else db.claims.Keys, c);
  }

  /** Step relation: in any state, every step changes each existing row only so. */
  lemma CommitmentStep(db: Db, m: Mutation, c: CommitmentId)
    requires Inv(db) && c in db.commitments
    ensures c in Step(db, m).commitments
    ensures RowMoves(db.commitments[c], Step(db, m).commitments[c])
  {
    hide Inv, Allowed, Do;
    if Allowed(db, m) {
      if m.Persist? || m.Record? {
        FencedRowMoves(db, m, c);
      } else if m.Lapse? || m.Restart? {
        RetiredRowMoves(db, m, c);
      } else {
        PlainRowMoves(db, m, c);
      }
    }
  }

  /** The two ways off the map of legal transitions: a claim ends under a
      commitment that had not started, or a barrier completes its composite. */
  ghost predicate OffTheMap(db: Db, m: Mutation, c: CommitmentId, from: CommitmentState, to: CommitmentState) {
    || (from.Claimed? && to.RecoveryPending? && ((m.Lapse? && m.commitment == c) || m.Restart?))
    || (&& to.Completed? && m.Persist? && m.draft.state.Completed? && m.draft.id in db.commitments && m.draft.id != c
        && c in CascadeOf(PersistRow(db, m.draft, m.event).commitments, m.draft.id))
  }

  lemma RecordedEdgeIsLegal(db: Db, g: GuardId, outcome: Outcome, digest: Option<Digest>)
    requires Inv(db) && MayRecord(db, g, outcome, digest)
    ensures
      var c := db.guards[g].commitment;
      var to := RecordEffect(db, g, outcome, digest).commitments[c].state;
      to == db.commitments[c].state || LegalTransition(db.commitments[c].state, to)
  {
    hide ClaimsAgree, LocksAgree, GuardsSound, TopologySound, BarriersHold, BarriersReleased, Acyclic.IsAcyclic;
    assert GuardFences(db.commitments, db.guards[g]);
  }

  lemma PersistedEdge(db: Db, d: Draft, expected: nat, event: WorkEvent, c: CommitmentId)
    requires Inv(db) && MayPersist(db, d, expected, event) && c in db.commitments
    ensures c in PersistEffect(db, d, event).commitments && d.id in db.commitments
    ensures
      var from, to := db.commitments[c].state, PersistEffect(db, d, event).commitments[c].state;
      || from == to
      || LegalTransition(from, to)
      || (to.Completed? && d.state.Completed? && d.id != c && c in CascadeOf(PersistRow(db, d, event).commitments, d.id))
  {
    hide Inv, CascadeOf, CascadeFits, ClaimPersists, PersistEffect;
    PersistedRows(db, d, expected, event, c);
  }

  lemma LapsedEdge(row: CommitmentRow)
    requires RequiresClaim(row.state)
    ensures row.state.Claimed? || LegalTransition(row.state, RecoveryPending)
  {
  }

  lemma RetiredEdge(db: Db, m: Mutation, c: CommitmentId)
    requires Inv(db) && Allowed(db, m) && c in db.commitments && (m.Lapse? || m.Restart?)
    ensures c in Do(db, m).commitments
    ensures
      var from, to := db.commitments[c].state, Do(db, m).commitments[c].state;
      from == to || LegalTransition(from, to)
      || (from.Claimed? && to.RecoveryPending? && ((m.Lapse? && m.commitment == c) || m.Restart?))
  {
    hide ActionsAgree, LocksAgree, GuardsSound, TopologySound, BarriersHold, BarriersReleased, Acyclic.IsAcyclic,
         LegalTransition, RequiresClaim;
    if c in db.claims {
      LapsedEdge(db.commitments[c]);
    }
  }

  /** Main result: every state change in any step is an edge of the topology or
      one of these, so nothing else can take a commitment off the map. */
  lemma OffTheMapIsExpiryOrCascade(db: Db, m: Mutation, c: CommitmentId)
    requires Inv(db) && c in db.commitments
    ensures c in Step(db, m).commitments
    ensures
      var from, to := db.commitments[c].state, Step(db, m).commitments[c].state;
      from == to || LegalTransition(from, to) || OffTheMap(db, m, c, from, to)
  {
    hide Inv, LegalTransition, MayPersist, MayRecord, CascadeOf, PersistEffect;
    if Allowed(db, m) {
      if m.Persist? {
        PersistedEdge(db, m.draft, m.expected, m.event, c);
      } else if m.Record? {
        RecordedEdgeIsLegal(db, m.guard, m.outcome, m.digest);
      } else if m.Lapse? || m.Restart? {
        RetiredEdge(db, m, c);
      } else {
        PlainEdgesAreLegal(db, m, c);
      }
    }
  }

  // ---- what whole runs keep ----

  /** Over any run a commitment keeps its identity and its replacement terminal,
      its high-water mark and version never fall, and a terminal state is final. */
  ghost predicate Descends(row: CommitmentRow, after: CommitmentRow) {
    && after.goal == row.goal && after.parent == row.parent && after.brief == row.brief
    && row.prerequisites <= after.prerequisites
    && row.highWater <= after.highWater
    && row.version <= after.version
    && (after.version == row.version ==> after == row)
    && (row.replacement.Some? ==> after.replacement == row.replacement)
    && (IsTerminal(row.state) ==> after.state == row.state)
  }

  lemma RowMovesDescends(row: CommitmentRow, mid: CommitmentRow, after: CommitmentRow)
    requires Descends(row, mid) && RowMoves(mid, after)
    ensures Descends(row, after)
  {
  }

  lemma {:induction false} RunDescends(db: Db, ms: seq<Mutation>, c: CommitmentId)
    requires Inv(db) && SoundRun(db, ms) && c in db.commitments
    ensures c in RunAll(db, ms).commitments
    ensures Descends(db.commitments[c], RunAll(db, ms).commitments[c])
    decreases |ms|
  {
    hide Inv, Step, Descends, RowMoves;
    if ms == [] {
      assert Descends(db.commitments[c], db.commitments[c]) by {
        DescendsIsReflexive(db.commitments[c]);
      }
    } else {
      var k := |ms| - 1;
      SoundPrefix(db, ms, k);
      RunDescends(db, ms[..k], c);
      RunKeepsInv(db, ms[..k]);
      CommitmentStep(RunAll(db, ms[..k]), ms[k], c);
      RowMovesDescends(db.commitments[c], RunAll(db, ms[..k]).commitments[c], RunAll(db, ms).commitments[c]);
    }
  }

  lemma DescendsIsReflexive(row: CommitmentRow)
    ensures Descends(row, row)
  {
  }

  // ---- uncertainty is absorbing ----

  lemma PersistSparesOutstanding(db: Db, d: Draft, expected: nat, event: WorkEvent, c: CommitmentId)
    requires Inv(db) && MayPersist(db, d, expected, event) && c in db.commitments && db.commitments[c].outstanding.Some?
    ensures c in PersistEffect(db, d, event).commitments
    ensures PersistEffect(db, d, event).commitments[c] == db.commitments[c]
  {
    hide Inv, Consistent, CascadeFits, ClaimPersists, CascadeOf, LegalTransition, EventDescribes, MovesFreely, Unfinished;
    PersistedRows(db, d, expected, event, c);
    if d.state.Completed? && c in CascadeOf(PersistRow(db, d, event).commitments, d.id) {
      Cascade.PersistRowKeepsConsistent(db, d, expected, event);
      CascadeIsIdle(PersistRow(db, d, event), d.id, c);
    }
  }

  lemma CascadeIsIdle(db: Db, child: CommitmentId, c: CommitmentId)
    requires Consistent(db) && c in CascadeOf(db.commitments, child)
    ensures c in db.commitments && db.commitments[c].outstanding == None
  {
    hide ClaimsAgree, ActionsAgree, LocksAgree, GuardsSound, TopologySound, Acyclic.IsAcyclic, CascadeOf;
    CascadedRow(db.commitments, db.guards, child, c);
    Cascade.CascadeMovesFreely(db.commitments, db.guards, child);
  }

  lemma OthersSpareUnclaimed(db: Db, m: Mutation, c: CommitmentId)
    requires Allowed(db, m) && !m.Persist? && c in db.commitments
    requires db.commitments[c].outstanding.Some? && c !in db.claims
    requires m.Record? ==> db.guards[m.guard].commitment != c
    ensures c in Do(db, m).commitments && Do(db, m).commitments[c] == db.commitments[c]
  {
    hide Acyclic.IsAcyclic, GraphOf, Dependencies, Enumerates, MayIssue, MayExpire, MayInvalidate, LeaseLive,
         InvalidateAll, FreeReserved, HeldLocks, Reserve, HoldAll, FreeHeld, NothingInFlight, Completions, Invalidations,
         RecoveryNotices;
  }

  /** A commitment with an outstanding action and no claim changes only when
      an outcome for its own guard is recorded. */
  lemma UnclaimedRowIsFenced(db: Db, m: Mutation, c: CommitmentId)
    requires Inv(db) && Allowed(db, m) && c in db.commitments
    requires db.commitments[c].outstanding.Some? && c !in db.claims
    requires m.Record? ==> db.guards[m.guard].commitment != c
    ensures c in Do(db, m).commitments && Do(db, m).commitments[c] == db.commitments[c]
  {
    hide Inv, MayPersist, PersistEffect;
    if m.Persist? {
      PersistSparesOutstanding(db, m.draft, m.expected, m.event, c);
    } else {
      OthersSpareUnclaimed(db, m, c);
    }
  }

  lemma UncertainGuardFences(db: Db, g: GuardId)
    requires Inv(db) && g in db.guards && db.guards[g].state.Uncertain?
    ensures
      var c := db.guards[g].commitment;
      && c in db.commitments && c !in db.claims
      && db.commitments[c].outstanding == Some(db.guards[g].state.action)
      && db.commitments[c].state == Waiting(OnUncertainAction(db.guards[g].state.action))
    ensures forall h :: h in db.guards && db.guards[h].state.Admitted? ==> db.guards[h].commitment != db.guards[g].commitment
  {
    hide LocksAgree, GuardsSound, TopologySound, BarriersHold, BarriersReleased, Acyclic.IsAcyclic;
    assert GuardFences(db.commitments, db.guards[g]);
    forall h | h in db.guards && db.guards[h].state.Admitted?
      ensures db.guards[h].commitment != db.guards[g].commitment
    {
      assert GuardFences(db.commitments, db.guards[h]);
    }
  }

  lemma UncertainStep(db: Db, m: Mutation, g: GuardId)
    requires Inv(db) && g in db.guards && db.guards[g].state.Uncertain?
    ensures g in Step(db, m).guards && Step(db, m).guards[g] == db.guards[g]
    ensures db.guards[g].commitment in db.commitments && db.guards[g].commitment in Step(db, m).commitments
    ensures Step(db, m).commitments[db.guards[g].commitment] == db.commitments[db.guards[g].commitment]
  {
    hide Inv, Do;
    UncertainGuardFences(db, g);
    GuardStep(db, m, g);
    if Allowed(db, m) {
      UnclaimedRowIsFenced(db, m, db.guards[g].commitment);
    }
  }

  /** The lock rows of a live guard are determined by the guard. */
  lemma LiveGuardHoldsItsScopes(db: Db, g: GuardId)
    requires Inv(db) && g in db.guards && IsLive(db.guards[g].state)
    ensures forall k :: k in db.guards[g].scopes ==> k in db.locks && db.locks[k] == LockFor(g, db.guards[g])
    ensures forall h :: h in db.guards && h != g && IsLive(db.guards[h].state) ==>
              db.guards[h].scopes !! db.guards[g].scopes
  {
    hide ClaimsAgree, ActionsAgree, GuardsSound, TopologySound, BarriersHold, BarriersReleased, Acyclic.IsAcyclic;
    forall h | h in db.guards && h != g && IsLive(db.guards[h].state)
      ensures db.guards[h].scopes !! db.guards[g].scopes
    {
      assert forall k :: k in db.guards[h].scopes ==> k in db.locks && db.locks[k].guard == h;
      assert forall k :: k in db.guards[g].scopes ==> k in db.locks && db.locks[k].guard == g;
    }
  }

  /** Main result: once a guard is uncertain, no sequence of operations or
      restarts changes the guard, its commitment's row or its lock rows. */
  lemma {:induction false} UncertainIsAbsorbing(db: Db, ms: seq<Mutation>, g: GuardId)
    requires Inv(db) && SoundRun(db, ms) && g in db.guards && db.guards[g].state.Uncertain?
    ensures
      var after := RunAll(db, ms);
      var c := db.guards[g].commitment;
      && g in after.guards && after.guards[g] == db.guards[g]
      && c in db.commitments && c in after.commitments && after.commitments[c] == db.commitments[c]
      && forall k :: k in db.guards[g].scopes ==>
           k in db.locks && k in after.locks && after.locks[k] == db.locks[k]
    decreases |ms|
  {
    hide Inv, Step;
    LiveGuardHoldsItsScopes(db, g);
    UncertainGuardFences(db, g);
    if ms != [] {
      var k := |ms| - 1;
      SoundPrefix(db, ms, k);
      UncertainIsAbsorbing(db, ms[..k], g);
      RunKeepsInv(db, ms[..k]);
      UncertainStep(RunAll(db, ms[..k]), ms[k], g);
      RunKeepsInv(db, ms);
      LiveGuardHoldsItsScopes(RunAll(db, ms), g);
    }
  }
}
