/** An independent reading of the append-only event log, and the proof that the
    tables never drift from it. */
module Replay {
  import opened Domain
  import opened Aggregates
  import opened Database
  import opened Mutations
  import opened Runs
  import Acyclic
  import Cascade

  datatype GuardView = GuardView(commitment: CommitmentId, state: GuardState)

  /** What the log alone says. */
  datatype View = View(
    states: map<CommitmentId, CommitmentState>,
    guards: map<GuardId, GuardView>,
    outstanding: map<CommitmentId, ActionRef>,
    bindings: map<ActionRef, GuardId>)

  const NOTHING := View(map[], map[], map[], map[])

  /** The log does not record reservation deadlines. */
  function Phase(state: GuardState): GuardState {
    if state.Issued? then GuardState.Issued(0) else state
  }

  function Told(view: View, id: CommitmentId, state: CommitmentState): View {
    view.(states := view.states[id := state])
  }

  function GuardEnded(view: View, g: GuardId): View {
    if g in view.guards
    then view.(guards := view.guards[g := view.guards[g].(state := GuardState.Invalidated)])
    else view
  }

  function OutcomeTold(view: View, outcome: Outcome, digest: Option<Digest>): View {
    if outcome.action in view.bindings && view.bindings[outcome.action] in view.guards then
      var g := view.bindings[outcome.action];
      var bound := view.guards[g];
      if outcome.Uncertain?
      then view.(guards := view.guards[g := bound.(state := GuardState.Uncertain(outcome.action, digest))])
      else view.(guards := view.guards[g := bound.(state := GuardState.Resolved(outcome, digest))],
                 outstanding := view.outstanding - {bound.commitment})
    else view
  }

  function Read(view: View, event: WorkEvent): View {
    match event
    case CommitmentCreated(id, _) => Told(view, id, Proposed)
    case CommitmentActivated(id) => Told(view, id, Ready)
    case CommitmentClaimed(id, _, _) => Told(view, id, Claimed)
    case CommitmentStarted(id) => Told(view, id, Working)
    case CommitmentWaiting(id, reason) => Told(view, id, Waiting(reason))
    case CommitmentRecoveryPending(id) => Told(view, id, RecoveryPending)
    case CommitmentCompletionProposed(id) => Told(view, id, CompletionProposed)
    case CommitmentCompleted(id) => Told(view, id, Completed)
    case CommitmentCancelled(id) => Told(view, id, Cancelled)
    case CommitmentAbandoned(id) => Told(view, id, Abandoned)
    case RecoveryCompleted(id, _) => Told(view, id, Ready)
    case RecoveryReleased(id) => Told(view, id, Ready)
    case GuardIssued(g, id, _) => view.(guards := view.guards[g := GuardView(id, GuardState.Issued(0))])
    case GuardAdmitted(g, id, action, digest) =>
      view.(guards := view.guards[g := GuardView(id, GuardState.Admitted(action, digest))],
            outstanding := view.outstanding[id := action],
            bindings := view.bindings[action := g])
    case GuardInvalidated(g) => GuardEnded(view, g)
    case GuardReservationExpired(g) => GuardEnded(view, g)
    case OutcomeRecorded(outcome, digest) => OutcomeTold(view, outcome, digest)
    case _ => view
  }

  function ReadAll(view: View, events: seq<WorkEvent>): View
    decreases |events|
  {
    if events == [] then view
    else Read(ReadAll(view, events[..|events| - 1]), events[|events| - 1])
  }

  lemma {:induction false} ReadConcat(view: View, first: seq<WorkEvent>, second: seq<WorkEvent>)
    ensures ReadAll(view, first + second) == ReadAll(ReadAll(view, first), second)
    decreases |second|
  {
    if second == [] {
      assert first + second == first;
    } else {
      var k := |second| - 1;
      assert (first + second)[..|first + second| - 1] == first + second[..k];
      ReadConcat(view, first, second[..k]);
    }
  }

  lemma ReadOne(view: View, event: WorkEvent)
    ensures ReadAll(view, [event]) == Read(view, event)
  {
    assert [event][..0] == [];
  }

  lemma ReadTwo(view: View, first: WorkEvent, second: WorkEvent)
    ensures ReadAll(view, [first, second]) == Read(Read(view, first), second)
  {
    assert [first, second] == [first] + [second];
    ReadConcat(view, [first], [second]);
    ReadOne(view, first);
    ReadOne(Read(view, first), second);
  }

  // ---- agreement of the view with the tables ----

  ghost predicate StatesTold(states: map<CommitmentId, CommitmentState>, cs: Commitments) {
    && states.Keys == cs.Keys
    && forall c :: c in cs ==> states[c] == cs[c].state
  }

  ghost predicate GuardsTold(guards: map<GuardId, GuardView>, gs: Guards) {
    && guards.Keys == gs.Keys
    && forall g :: g in gs ==> guards[g] == GuardView(gs[g].commitment, Phase(gs[g].state))
  }

  ghost predicate ActionsTold(outstanding: map<CommitmentId, ActionRef>, cs: Commitments) {
    && (forall c :: c in outstanding ==> c in cs && cs[c].outstanding == Some(outstanding[c]))
    && (forall c :: c in cs && cs[c].outstanding.Some? ==> c in outstanding)
  }

  ghost predicate BindingsTold(bindings: map<ActionRef, GuardId>, gs: Guards) {
    forall g :: g in gs && ActionOf(gs[g].state).Some? ==>
      ActionOf(gs[g].state).value in bindings && bindings[ActionOf(gs[g].state).value] == g
  }

  ghost predicate Describes(view: View, db: Db) {
    && StatesTold(view.states, db.commitments)
    && GuardsTold(view.guards, db.guards)
    && ActionsTold(view.outstanding, db.commitments)
    && BindingsTold(view.bindings, db.guards)
  }

  /** The tables are the replay of the log. */
  ghost predicate Replayed(db: Db) {
    Describes(ReadAll(NOTHING, db.events), db)
  }

  // ---- lists of notices ----

  function Override(states: map<CommitmentId, CommitmentState>, told: set<CommitmentId>, state: CommitmentState)
    : map<CommitmentId, CommitmentState>
  {
    map c | c in states.Keys + told :: if c in told then state else states[c]
  }

  lemma OverrideNone(states: map<CommitmentId, CommitmentState>, state: CommitmentState)
    ensures Override(states, {}, state) == states
  {
  }

  lemma OverrideAnother(states: map<CommitmentId, CommitmentState>, told: set<CommitmentId>, c: CommitmentId,
                        state: CommitmentState)
    ensures Override(states, told, state)[c := state] == Override(states, told + {c}, state)
  {
  }

  lemma {:induction false} ReadCompletions(view: View, order: seq<CommitmentId>)
    ensures ReadAll(view, Completions(order)) == view.(states := Override(view.states, Ids(order), Completed))
    decreases |order|
  {
    hide Override;
    if order == [] {
      OverrideNone(view.states, Completed);
      assert Ids(order) == {};
    } else {
      var k := |order| - 1;
      ReadCompletions(view, order[..k]);
      assert Completions(order)[..k] == Completions(order[..k]);
      assert Ids(order) == Ids(order[..k]) + {order[k]};
      OverrideAnother(view.states, Ids(order[..k]), order[k], Completed);
    }
  }

  lemma {:induction false} ReadRecoveryNotices(view: View, order: seq<CommitmentId>)
    ensures ReadAll(view, RecoveryNotices(order)) == view.(states := Override(view.states, Ids(order), RecoveryPending))
    decreases |order|
  {
    hide Override;
    if order == [] {
      OverrideNone(view.states, RecoveryPending);
      assert Ids(order) == {};
    } else {
      var k := |order| - 1;
      ReadRecoveryNotices(view, order[..k]);
      assert RecoveryNotices(order)[..k] == RecoveryNotices(order[..k]);
      assert Ids(order) == Ids(order[..k]) + {order[k]};
      OverrideAnother(view.states, Ids(order[..k]), order[k], RecoveryPending);
    }
  }

  function EndAll(guards: map<GuardId, GuardView>, ended: set<GuardId>): map<GuardId, GuardView> {
    map g | g in guards :: if g in ended then guards[g].(state := GuardState.Invalidated) else guards[g]
  }

  lemma EndNone(guards: map<GuardId, GuardView>)
    ensures EndAll(guards, {}) == guards
  {
  }

  lemma EndAnother(guards: map<GuardId, GuardView>, ended: set<GuardId>, g: GuardId)
    ensures EndAll(EndAll(guards, ended), {g}) == EndAll(guards, ended + {g})
  {
  }

  lemma EndOne(view: View, g: GuardId)
    ensures GuardEnded(view, g) == view.(guards := EndAll(view.guards, {g}))
  {
    assert GuardEnded(view, g).guards == EndAll(view.guards, {g});
  }

  lemma {:induction false} ReadInvalidations(view: View, order: seq<GuardId>)
    ensures ReadAll(view, Invalidations(order)) == view.(guards := EndAll(view.guards, GuardIds(order)))
    decreases |order|
  {
    hide EndAll, GuardEnded;
    if order == [] {
      EndNone(view.guards);
      assert GuardIds(order) == {};
    } else {
      var k := |order| - 1;
      ReadInvalidations(view, order[..k]);
      assert Invalidations(order)[..k] == Invalidations(order[..k]);
      assert GuardIds(order) == GuardIds(order[..k]) + {order[k]};
      EndAnother(view.guards, GuardIds(order[..k]), order[k]);
      EndOne(view.(guards := EndAll(view.guards, GuardIds(order[..k]))), order[k]);
    }
  }

  // ---- the tables follow the notices ----

  lemma StatesFollow(states: map<CommitmentId, CommitmentState>, cs: Commitments, moved: set<CommitmentId>,
                     state: CommitmentState)
    requires StatesTold(states, cs) && moved <= cs.Keys
    ensures StatesTold(Override(states, moved, state), MoveAll(cs, moved, state))
  {
  }

  lemma ActionsFollow(outstanding: map<CommitmentId, ActionRef>, cs: Commitments, moved: set<CommitmentId>,
                      state: CommitmentState)
    requires ActionsTold(outstanding, cs)
    ensures ActionsTold(outstanding, MoveAll(cs, moved, state))
  {
  }

  lemma GuardsFollow(view: View, gs: Guards, dropped: set<GuardId>)
    requires GuardsTold(view.guards, gs) && BindingsTold(view.bindings, gs)
    ensures GuardsTold(EndAll(view.guards, dropped), InvalidateAll(gs, dropped))
    ensures BindingsTold(view.bindings, InvalidateAll(gs, dropped))
  {
  }

  /** One row moves and the log names its new state. */
  lemma RowTold(view: View, cs: Commitments, c: CommitmentId, row: CommitmentRow)
    requires StatesTold(view.states, cs) && ActionsTold(view.outstanding, cs)
    requires (c in cs && row.outstanding == cs[c].outstanding) || (c !in cs && row.outstanding == None)
    ensures StatesTold(Told(view, c, row.state).states, cs[c := row])
    ensures ActionsTold(view.outstanding, cs[c := row])
  {
  }

  lemma DescribedEvent(view: View, event: WorkEvent, id: CommitmentId, state: CommitmentState)
    requires EventCommitment(event) == Some(id) && EventDescribes(event, state)
    ensures Read(view, event) == Told(view, id, state)
  {
  }

  lemma PersistIsReplayed(db: Db, d: Draft, expected: nat, event: WorkEvent, view: View)
    requires Inv(db) && MayPersist(db, d, expected, event) && Describes(view, db)
    ensures Describes(ReadAll(Read(view, event), if d.state.Completed?
                                                 then Completions(CascadeOf(PersistRow(db, d, event).commitments, d.id))
                                                 else []),
                      PersistEffect(db, d, event))
  {
    hide Inv, ClaimPersists, CascadeFits, Chain, LegalTransition, Read, Told, StatesTold, ActionsTold, GuardsTold,
      BindingsTold, CascadeOf;
    var told := Read(view, event);
    var moved := PersistRow(db, d, event);
    DescribedEvent(view, event, d.id, d.state);
    RowTold(view, db.commitments, d.id, PersistedRow(db.commitments[d.id], d));
    assert told == Told(view, d.id, d.state);
    ToldTouchesStates(view, d.id, d.state);
    if d.state.Completed? {
      var chain := CascadeOf(moved.commitments, d.id);
      Cascade.PersistRowKeepsConsistent(db, d, expected, event);
      ConsistentBarriers(moved);
      Cascade.CascadeMovesFreely(moved.commitments, db.guards, d.id);
      ReadCompletions(told, chain);
      StatesFollow(told.states, moved.commitments, Ids(chain), Completed);
      ActionsFollow(told.outstanding, moved.commitments, Ids(chain), Completed);
    }
  }

  lemma ToldTouchesStates(view: View, c: CommitmentId, state: CommitmentState)
    ensures Told(view, c, state) == view.(states := Told(view, c, state).states)
  {
  }

  lemma ConsistentBarriers(db: Db)
    requires Consistent(db)
    ensures BarriersHold(db.commitments, db.guards)
  {
  }

  // ---- mutation by mutation; `view` describes the tables before ----

  lemma RestructureIsReplayed(db: Db, view: View, c: CommitmentId, row: CommitmentRow, claims: Claims)
    requires Describes(view, db) && c in db.commitments && row.outstanding == db.commitments[c].outstanding
    ensures Describes(Told(view, c, row.state), db.(commitments := db.commitments[c := row], claims := claims))
  {
    RowTold(view, db.commitments, c, row);
    ToldTouchesStates(view, c, row.state);
  }

  lemma SameStateIsTold(view: View, cs: Commitments, c: CommitmentId)
    requires StatesTold(view.states, cs) && c in cs
    ensures Told(view, c, cs[c].state) == view
  {
    assert view.states[c := cs[c].state] == view.states;
  }

  lemma MovingOne(cs: Commitments, c: CommitmentId, state: CommitmentState)
    requires c in cs
    ensures MoveAll(cs, {c}, state) == cs[c := Moved(cs[c], state)]
  {
  }

  lemma IssueIsReplayed(db: Db, r: IssueRequest, view: View)
    requires MayIssue(db, r) && Describes(view, db)
    ensures Describes(Read(view, WorkEvent.GuardIssued(r.guard, r.commitment, r.fence.epoch)), IssueEffect(db, r))
  {
  }

  lemma AdmittedGuardTold(view: View, gs: Guards, g: GuardId, action: ActionRef, digest: Option<Digest>)
    requires GuardsTold(view.guards, gs) && BindingsTold(view.bindings, gs) && g in gs && gs[g].state.Issued?
    requires forall h :: h in gs ==> ActionOf(gs[h].state) != Some(action)
    ensures
      var state := GuardState.Admitted(action, digest);
      && GuardsTold(view.guards[g := GuardView(gs[g].commitment, state)], gs[g := gs[g].(state := state)])
      && BindingsTold(view.bindings[action := g], gs[g := gs[g].(state := state)])
  {
  }

  lemma AdmittedRowTold(view: View, cs: Commitments, c: CommitmentId, row: CommitmentRow, action: ActionRef)
    requires StatesTold(view.states, cs) && ActionsTold(view.outstanding, cs) && c in cs
    requires row.outstanding == Some(action) && row.state == cs[c].state
    ensures StatesTold(view.states, cs[c := row])
    ensures ActionsTold(view.outstanding[c := action], cs[c := row])
  {
  }

  lemma AdmitIsReplayed(db: Db, g: GuardId, scopes: set<ScopeKey>, action: ActionRef, digest: Option<Digest>,
                        now: nat, view: View)
    requires MayAdmit(db, g, scopes, action, now) && Describes(view, db)
    ensures Describes(Read(view, WorkEvent.GuardAdmitted(g, db.guards[g].commitment, action, digest)),
                      AdmitEffect(db, g, action, digest))
  {
    hide StatesTold, ActionsTold, GuardsTold, BindingsTold;
    var c := db.guards[g].commitment;
    AdmittedGuardTold(view, db.guards, g, action, digest);
    AdmittedRowTold(view, db.commitments, c, AdmitEffect(db, g, action, digest).commitments[c], action);
  }

  lemma DropIsReplayed(db: Db, g: GuardId, event: WorkEvent, view: View)
    requires g in db.guards && Describes(view, db)
    requires event == WorkEvent.GuardInvalidated(g) || event == GuardReservationExpired(g)
    ensures Describes(Read(view, event), DropEffect(db, g, event))
  {
    GuardsFollow(view, db.guards, {g});
    assert EndAll(view.guards, {g}) == GuardEnded(view, g).guards;
  }

  lemma LapseIsReplayed(db: Db, c: CommitmentId, now: nat, lease: nat, revoked: seq<GuardId>, view: View)
    requires MayLapse(db, c, now, lease, revoked) && Describes(view, db)
    ensures Describes(ReadAll(Told(view, c, RecoveryPending), Invalidations(revoked)), LapseEffect(db, c, revoked))
  {
    var told := Told(view, c, RecoveryPending);
    MovingOne(db.commitments, c, RecoveryPending);
    RowTold(view, db.commitments, c, Moved(db.commitments[c], RecoveryPending));
    ReadInvalidations(told, revoked);
    GuardsFollow(told, db.guards, GuardIds(revoked));
  }

  lemma RestartIsReplayed(db: Db, lapsed: seq<CommitmentId>, revoked: seq<GuardId>, view: View)
    requires MayRestart(db, lapsed, revoked) && Describes(view, db)
    ensures Describes(ReadAll(ReadAll(view, RecoveryNotices(lapsed)), Invalidations(revoked)),
                      RestartEffect(db, lapsed, revoked))
  {
    var told := ReadAll(view, RecoveryNotices(lapsed));
    ReadRecoveryNotices(view, lapsed);
    assert Ids(lapsed) == db.claims.Keys;
    StatesFollow(view.states, db.commitments, db.claims.Keys, RecoveryPending);
    ActionsFollow(view.outstanding, db.commitments, db.claims.Keys, RecoveryPending);
    ReadInvalidations(told, revoked);
    assert GuardIds(revoked) == IssuedGuards(db.guards);
    GuardsFollow(told, db.guards, IssuedGuards(db.guards));
  }

  lemma RecordedGuardTold(view: View, gs: Guards, g: GuardId, state: GuardState)
    requires GuardsTold(view.guards, gs) && BindingsTold(view.bindings, gs) && g in gs
    requires !state.Issued? && ActionOf(state) == ActionOf(gs[g].state)
    ensures GuardsTold(view.guards[g := view.guards[g].(state := state)], gs[g := gs[g].(state := state)])
    ensures BindingsTold(view.bindings, gs[g := gs[g].(state := state)])
  {
  }

  lemma SettledRowTold(view: View, cs: Commitments, c: CommitmentId, row: CommitmentRow)
    requires StatesTold(view.states, cs) && ActionsTold(view.outstanding, cs) && c in cs && row.outstanding == None
    ensures StatesTold(view.states[c := row.state], cs[c := row])
    ensures ActionsTold(view.outstanding - {c}, cs[c := row])
  {
  }

  /** The log binds the action to the guard and so to its commitment. */
  ghost predicate Bound(view: View, db: Db, g: GuardId, action: ActionRef) {
    && g in db.guards
    && action in view.bindings && view.bindings[action] == g
    && g in view.guards && view.guards[g].commitment == db.guards[g].commitment
  }

  lemma RecordBinding(db: Db, g: GuardId, outcome: Outcome, digest: Option<Digest>, view: View)
    requires MayRecord(db, g, outcome, digest) && Describes(view, db)
    ensures Bound(view, db, g, outcome.action)
  {
    assert ActionOf(db.guards[g].state) == Some(outcome.action);
  }

  lemma UncertainIsReplayed(db: Db, g: GuardId, outcome: Outcome, digest: Option<Digest>, view: View)
    requires MayRecord(db, g, outcome, digest) && outcome.Uncertain?
    requires Describes(view, db) && Bound(view, db, g, outcome.action)
    ensures Describes(Read(Read(view, OutcomeRecorded(outcome, digest)),
                           CommitmentWaiting(db.guards[g].commitment, OnUncertainAction(outcome.action))),
                      RecordEffect(db, g, outcome, digest))
  {
    hide StatesTold, ActionsTold, GuardsTold, BindingsTold;
    RecordedGuardTold(view, db.guards, g, GuardState.Uncertain(outcome.action, digest));
    RowTold(view, db.commitments, db.guards[g].commitment,
            RecordEffect(db, g, outcome, digest).commitments[db.guards[g].commitment]);
  }

  lemma SafeIsReplayed(db: Db, g: GuardId, outcome: Outcome, digest: Option<Digest>, view: View)
    requires MayRecord(db, g, outcome, digest) && !outcome.Uncertain?
    requires Describes(view, db) && Bound(view, db, g, outcome.action)
    ensures
      var c := db.guards[g].commitment;
      var told := Read(view, OutcomeRecorded(outcome, digest));
      Describes(if db.commitments[c].state.RecoveryPending? then Read(told, RecoveryCompleted(c, outcome.action)) else told,
                RecordEffect(db, g, outcome, digest))
  {
    hide StatesTold, ActionsTold, GuardsTold, BindingsTold;
    var c := db.guards[g].commitment;
    RecordedGuardTold(view, db.guards, g, GuardState.Resolved(outcome, digest));
    SettledRowTold(view, db.commitments, c, RecordEffect(db, g, outcome, digest).commitments[c]);
    SameStateIsTold(view, db.commitments, c);
  }

  lemma AppendIsReplayed(db: Db, after: Db, added: seq<WorkEvent>)
    requires after.events == db.events + added
    requires Describes(ReadAll(ReadAll(NOTHING, db.events), added), after)
    ensures Replayed(after)
  {
    ReadConcat(NOTHING, db.events, added);
  }

  lemma OneEventIsReplayed(db: Db, after: Db, event: WorkEvent)
    requires after.events == db.events + [event]
    requires Describes(Read(ReadAll(NOTHING, db.events), event), after)
    ensures Replayed(after)
  {
    hide Describes, Read;
    ReadOne(ReadAll(NOTHING, db.events), event);
    AppendIsReplayed(db, after, [event]);
  }

  lemma TwoEventsAreReplayed(db: Db, after: Db, first: WorkEvent, second: WorkEvent)
    requires after.events == db.events + [first, second]
    requires Describes(Read(Read(ReadAll(NOTHING, db.events), first), second), after)
    ensures Replayed(after)
  {
    hide Describes, Read;
    ReadTwo(ReadAll(NOTHING, db.events), first, second);
    AppendIsReplayed(db, after, [first, second]);
  }

  lemma InsertIsReplayedIff(db: Db, d: Draft, event: WorkEvent)
    requires MayInsert(db, d, event) && Replayed(db)
    ensures Replayed(InsertEffect(db, d, event)) <==> event.CommitmentCreated?
  {
    var view := ReadAll(NOTHING, db.events);
    var after := InsertEffect(db, d, event);
    ReadOne(view, event);
    ReadConcat(NOTHING, db.events, [event]);
    assert d.id !in view.states;
    if event.CommitmentCreated? {
      RowTold(view, db.commitments, d.id, RowOf(d));
    } else {
      assert after.commitments[d.id].state == Proposed;
      assert d.id in Read(view, event).states ==> Read(view, event).states[d.id] != Proposed;
    }
  }

  lemma PersistStepIsReplayed(db: Db, d: Draft, expected: nat, event: WorkEvent)
    requires Inv(db) && MayPersist(db, d, expected, event) && Replayed(db)
    ensures Replayed(PersistEffect(db, d, event))
  {
    hide Inv, Describes, Read, CascadeOf, ClaimPersists, CascadeFits, LegalTransition, EventDescribes;
    var view := ReadAll(NOTHING, db.events);
    var cascade := if d.state.Completed? then Completions(CascadeOf(PersistRow(db, d, event).commitments, d.id)) else [];
    PersistIsReplayed(db, d, expected, event, view);
    ReadConcat(view, [event], cascade);
    ReadOne(view, event);
    AppendIsReplayed(db, PersistEffect(db, d, event), [event] + cascade);
  }

  lemma DecomposeStepIsReplayed(db: Db, target: CommitmentId, terminal: CommitmentId, children: seq<CommitmentId>)
    requires Replayed(db) && target in db.commitments
    ensures Replayed(DecomposeEffect(db, target, terminal, children))
  {
    hide StatesTold, ActionsTold, GuardsTold, BindingsTold, ReadAll;
    RestructureIsReplayed(db, ReadAll(NOTHING, db.events), target, Linked(db.commitments[target], terminal), db.claims);
    TwoEventsAreReplayed(db, DecomposeEffect(db, target, terminal, children),
                         CommitmentWaiting(target, OnPrerequisite(terminal)),
                         ProposalApplied(target, IntoChildren(children, terminal)));
  }

  lemma GiveUpStepIsReplayed(db: Db, target: CommitmentId, rationale: string)
    requires Replayed(db) && target in db.commitments
    ensures Replayed(GiveUpEffect(db, target, rationale))
  {
    hide StatesTold, ActionsTold, GuardsTold, BindingsTold, ReadAll;
    MovingOne(db.commitments, target, Abandoned);
    RestructureIsReplayed(db, ReadAll(NOTHING, db.events), target, Moved(db.commitments[target], Abandoned),
                          db.claims - {target});
    TwoEventsAreReplayed(db, GiveUpEffect(db, target, rationale), CommitmentAbandoned(target),
                         ProposalApplied(target, GivenUp(rationale)));
  }

  lemma ReleaseStepIsReplayed(db: Db, c: CommitmentId)
    requires Replayed(db) && c in db.commitments
    ensures Replayed(ReleaseEffect(db, c))
  {
    hide StatesTold, ActionsTold, GuardsTold, BindingsTold, ReadAll;
    MovingOne(db.commitments, c, Ready);
    RestructureIsReplayed(db, ReadAll(NOTHING, db.events), c, Moved(db.commitments[c], Ready), db.claims);
    OneEventIsReplayed(db, ReleaseEffect(db, c), RecoveryReleased(c));
  }

  lemma GuardStepIsReplayed(db: Db, m: Mutation)
    requires Replayed(db) && Allowed(db, m) && (m.Issue? || m.Admit? || m.Expire? || m.Invalidate?)
    ensures Replayed(Do(db, m))
  {
    hide Describes, Read, Holds, ReadAll;
    var view := ReadAll(NOTHING, db.events);
    if m.Issue? {
      var r := m.request;
      IssueIsReplayed(db, r, view);
      OneEventIsReplayed(db, Do(db, m), WorkEvent.GuardIssued(r.guard, r.commitment, r.fence.epoch));
    } else if m.Admit? {
      AdmitIsReplayed(db, m.guard, m.scopes, m.action, m.digest, m.now, view);
      OneEventIsReplayed(db, Do(db, m), WorkEvent.GuardAdmitted(m.guard, db.guards[m.guard].commitment, m.action, m.digest));
    } else {
      var event := if m.Expire? then GuardReservationExpired(m.guard) else WorkEvent.GuardInvalidated(m.guard);
      DropIsReplayed(db, m.guard, event, view);
      OneEventIsReplayed(db, Do(db, m), event);
    }
  }

  lemma LapseStepIsReplayed(db: Db, c: CommitmentId, now: nat, lease: nat, revoked: seq<GuardId>)
    requires Replayed(db) && MayLapse(db, c, now, lease, revoked)
    ensures Replayed(LapseEffect(db, c, revoked))
  {
    hide Describes, ReadAll, Enumerates;
    var view := ReadAll(NOTHING, db.events);
    var notices := [LeaseExpired(c, db.claims[c].worker, db.claims[c].epoch), CommitmentRecoveryPending(c)];
    LapseIsReplayed(db, c, now, lease, revoked, view);
    ReadTwo(view, notices[0], notices[1]);
    ReadConcat(view, notices, Invalidations(revoked));
    AppendIsReplayed(db, LapseEffect(db, c, revoked), notices + Invalidations(revoked));
  }

  lemma RestartStepIsReplayed(db: Db, lapsed: seq<CommitmentId>, revoked: seq<GuardId>)
    requires Replayed(db) && MayRestart(db, lapsed, revoked)
    ensures Replayed(RestartEffect(db, lapsed, revoked))
  {
    hide Describes, ReadAll, Enumerates;
    var view := ReadAll(NOTHING, db.events);
    RestartIsReplayed(db, lapsed, revoked, view);
    ReadConcat(view, RecoveryNotices(lapsed), Invalidations(revoked));
    AppendIsReplayed(db, RestartEffect(db, lapsed, revoked), RecoveryNotices(lapsed) + Invalidations(revoked));
  }

  lemma RecordStepIsReplayed(db: Db, g: GuardId, outcome: Outcome, digest: Option<Digest>)
    requires Replayed(db) && MayRecord(db, g, outcome, digest)
    ensures Replayed(RecordEffect(db, g, outcome, digest))
  {
    hide Describes, ReadAll, Read;
    var view := ReadAll(NOTHING, db.events);
    var c := db.guards[g].commitment;
    var after := RecordEffect(db, g, outcome, digest);
    RecordBinding(db, g, outcome, digest, view);
    if outcome.Uncertain? {
      UncertainIsReplayed(db, g, outcome, digest, view);
      TwoEventsAreReplayed(db, after, OutcomeRecorded(outcome, digest),
                           CommitmentWaiting(c, OnUncertainAction(outcome.action)));
    } else {
      SafeIsReplayed(db, g, outcome, digest, view);
      if db.commitments[c].state.RecoveryPending? {
        TwoEventsAreReplayed(db, after, OutcomeRecorded(outcome, digest), RecoveryCompleted(c, outcome.action));
      } else {
        OneEventIsReplayed(db, after, OutcomeRecorded(outcome, digest));
      }
    }
  }

  /** An event that tells of no state, guard or action. */
  predicate IsQuiet(event: WorkEvent) {
    event.GoalCreated? || event.GoalRevised? || event.ProposalApplied? || event.HeartbeatAccepted?
  }

  lemma SameRowsAreDescribed(view: View, db: Db, after: Db)
    requires Describes(view, db) && after.guards == db.guards && after.commitments.Keys == db.commitments.Keys
    requires forall c :: c in db.commitments ==>
      && after.commitments[c].state == db.commitments[c].state
      && after.commitments[c].outstanding == db.commitments[c].outstanding
    ensures Describes(view, after)
  {
    hide GuardsTold, BindingsTold;
  }

  lemma QuietEventIsReplayed(db: Db, after: Db, event: WorkEvent)
    requires Replayed(db) && IsQuiet(event) && after.events == db.events + [event]
    requires after.guards == db.guards && after.commitments.Keys == db.commitments.Keys
    requires forall c :: c in db.commitments ==>
      && after.commitments[c].state == db.commitments[c].state
      && after.commitments[c].outstanding == db.commitments[c].outstanding
    ensures Replayed(after)
  {
    hide Describes, ReadAll;
    SameRowsAreDescribed(ReadAll(NOTHING, db.events), db, after);
    OneEventIsReplayed(db, after, event);
  }

  lemma AddGoalIsReplayed(db: Db, goal: GoalId, event: WorkEvent)
    requires Replayed(db) && (event.GoalCreated? || event.GoalRevised?)
    ensures Replayed(db.(goals := db.goals + {goal}, events := db.events + [event]))
  {
    hide Replayed;
    QuietEventIsReplayed(db, db.(goals := db.goals + {goal}, events := db.events + [event]), event);
  }

  lemma RequireIsReplayed(db: Db, target: CommitmentId, prerequisite: Prerequisite)
    requires Replayed(db) && target in db.commitments
    ensures Replayed(RequireEffect(db, target, prerequisite))
  {
    hide Replayed;
    QuietEventIsReplayed(db, RequireEffect(db, target, prerequisite), ProposalApplied(target, WithPrerequisite(prerequisite)));
  }

  lemma BeatIsReplayed(db: Db, c: CommitmentId, fence: Fence)
    requires Replayed(db) && c in db.claims
    ensures Replayed(BeatEffect(db, c, fence))
  {
    hide Replayed;
    QuietEventIsReplayed(db, BeatEffect(db, c, fence), HeartbeatAccepted(c, fence.worker, fence.epoch));
  }

  /** One step keeps the tables equal to the replay of the log, provided an
      insert carries the event that the code does not insist on. */
  lemma StepIsReplayed(db: Db, m: Mutation)
    requires Inv(db) && Replayed(db) && (m.Insert? ==> m.event.CommitmentCreated?)
    ensures Replayed(Step(db, m))
  {
    hide Inv, Replayed, MayInsert, MayPersist, MayLapse, MayRestart, MayRecord;
    if Allowed(db, m) {
      match m
      case Insert(draft, event) => InsertIsReplayedIff(db, draft, event);
      case Persist(draft, expected, event) => PersistStepIsReplayed(db, draft, expected, event);
      case Lapse(commitment, now, lease, revoked) => LapseStepIsReplayed(db, commitment, now, lease, revoked);
      case Restart(lapsed, revoked) => RestartStepIsReplayed(db, lapsed, revoked);
      case Record(guard, outcome, digest) => RecordStepIsReplayed(db, guard, outcome, digest);
      case Issue(_) => GuardStepIsReplayed(db, m);
      case Admit(_, _, _, _, _) => GuardStepIsReplayed(db, m);
      case Expire(_, _) => GuardStepIsReplayed(db, m);
      case Invalidate(_, _) => GuardStepIsReplayed(db, m);
      case AddGoal(goal, event) => AddGoalIsReplayed(db, goal, event);
      case Require(target, _, prerequisite) => RequireIsReplayed(db, target, prerequisite);
      case Beat(commitment, fence) => BeatIsReplayed(db, commitment, fence);
      case Decompose(target, _, terminal, children) => DecomposeStepIsReplayed(db, target, terminal, children);
      case GiveUp(target, _, rationale) => GiveUpStepIsReplayed(db, target, rationale);
      case Release(commitment) => ReleaseStepIsReplayed(db, commitment);
    }
  }

  ghost predicate InsertsAnnounced(ms: seq<Mutation>) {
    forall i :: 0 <= i < |ms| && ms[i].Insert? ==> ms[i].event.CommitmentCreated?
  }

  /** Main result: in every state of every such run, each commitment's state,
      each guard's state and each outstanding action are what the log says. */
  lemma {:induction false} SnapshotIsReplay(ms: seq<Mutation>)
    requires SoundRun(EMPTY, ms) && InsertsAnnounced(ms)
    ensures Replayed(RunAll(EMPTY, ms))
    decreases |ms|
  {
    hide Inv, Step, Describes;
    if ms == [] {
      NothingDescribesEmpty();
    } else {
      var k := |ms| - 1;
      SoundPrefix(EMPTY, ms, k);
      SnapshotIsReplay(ms[..k]);
      ReachableInv(ms[..k]);
      StepIsReplayed(RunAll(EMPTY, ms[..k]), ms[k]);
    }
  }

  lemma NothingDescribesEmpty()
    ensures Describes(NOTHING, EMPTY)
  {
  }
}
