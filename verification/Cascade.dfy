/** The composite-barrier cascade: what completing one commitment completes
    above it, and why that restores the barrier invariant. */
module Cascade {
  import opened Domain
  import opened Aggregates
  import opened Database
  import opened Mutations
  import opened Preservation

  lemma {:induction false} ChainIsOpen(cs: Commitments, child: CommitmentId, open: set<CommitmentId>)
    ensures forall p :: p in Chain(cs, child, open) ==> p in open
    ensures forall i, j :: 0 <= i < j < |Chain(cs, child, open)| ==>
              Chain(cs, child, open)[i] != Chain(cs, child, open)[j]
    decreases open
  {
    var parent := BarrierParent(cs, child);
    if parent.Some? && parent.value in open {
      ChainIsOpen(cs, parent.value, open - {parent.value});
    }
  }

  /** The chain stops only where the next composite parent is not open. */
  lemma {:induction false} ChainIsClosed(cs: Commitments, child: CommitmentId, open: set<CommitmentId>, q: CommitmentId)
    requires q == child || q in Chain(cs, child, open)
    requires BarrierParent(cs, q).Some? && BarrierParent(cs, q).value in open
    ensures BarrierParent(cs, q).value in Chain(cs, child, open)
    decreases open
  {
    var parent := BarrierParent(cs, child);
    if q != child {
      var p := parent.value;
      if BarrierParent(cs, q).value != p {
        ChainIsClosed(cs, p, open - {p}, q);
      }
    }
  }

  lemma {:induction false} ChainLinks(cs: Commitments, child: CommitmentId, open: set<CommitmentId>, i: nat)
    requires i < |Chain(cs, child, open)|
    ensures BarrierParent(cs, if i == 0 then child else Chain(cs, child, open)[i - 1]) == Some(Chain(cs, child, open)[i])
    decreases open
  {
    var p := BarrierParent(cs, child).value;
    if i > 0 {
      ChainLinks(cs, p, open - {p}, i - 1);
    }
  }

  ghost predicate Replaces(cs: Commitments, child: CommitmentId, p: CommitmentId) {
    p in cs && cs[p].replacement == Some(child)
  }

  /** Each element is the replacement terminal of the next. */
  ghost predicate Upward(cs: Commitments, path: seq<CommitmentId>) {
    forall i :: 0 <= i < |path| - 1 ==> Replaces(cs, path[i], path[i + 1])
  }

  /** A path of replacement links from `child` to `p` over unfinished composites. */
  ghost predicate Reaches(cs: Commitments, child: CommitmentId, p: CommitmentId, path: seq<CommitmentId>) {
    && |path| >= 2 && path[0] == child && path[|path| - 1] == p
    && Upward(cs, path)
    && forall i :: 1 <= i < |path| ==> path[i] in Unfinished(cs)
  }

  lemma BarrierParentIsTheComposite(cs: Commitments, gs: Guards, p: CommitmentId, q: CommitmentId)
    requires BarriersHold(cs, gs) && p in cs
    ensures cs[p].replacement == Some(q) <==> BarrierParent(cs, q) == Some(p)
  {
    if cs[p].replacement.Some? {
      assert BarrierHolds(cs, gs, p);
    }
  }

  /** Exactness: the cascade completes `p` if and only if an unbroken path of
      unfinished composites leads up from `child` to it. */
  lemma CascadeIsExact(cs: Commitments, gs: Guards, child: CommitmentId, p: CommitmentId)
    requires BarriersHold(cs, gs)
    ensures p in CascadeOf(cs, child) <==> exists path :: Reaches(cs, child, p, path)
  {
    var chain := CascadeOf(cs, child);
    if p in chain {
      var k :| 0 <= k < |chain| && chain[k] == p;
      ChainIsPath(cs, child, k);
    }
    if path :| Reaches(cs, child, p, path) {
      PathIsInChain(cs, gs, child, path, |path| - 1);
    }
  }

  lemma ChainIsPath(cs: Commitments, child: CommitmentId, k: nat)
    requires k < |CascadeOf(cs, child)|
    ensures Reaches(cs, child, CascadeOf(cs, child)[k], [child] + CascadeOf(cs, child)[..k + 1])
  {
    var chain := CascadeOf(cs, child);
    var path := [child] + chain[..k + 1];
    ChainIsOpen(cs, child, Unfinished(cs));
    forall i | 0 <= i < |path| - 1
      ensures Replaces(cs, path[i], path[i + 1])
    {
      ChainLinks(cs, child, Unfinished(cs), i);
      assert path[i + 1] == chain[i];
    }
  }

  lemma {:induction false} PathIsInChain(cs: Commitments, gs: Guards, child: CommitmentId, path: seq<CommitmentId>, i: nat)
    requires BarriersHold(cs, gs) && 1 <= i < |path| && Reaches(cs, child, path[|path| - 1], path)
    ensures path[i] in CascadeOf(cs, child)
  {
    if i > 1 {
      PathIsInChain(cs, gs, child, path, i - 1);
    }
    assert Replaces(cs, path[i - 1], path[i - 1 + 1]);
    BarrierParentIsTheComposite(cs, gs, path[i], path[i - 1]);
    ChainIsClosed(cs, child, Unfinished(cs), path[i - 1]);
  }

  // ---- the cascade restores the invariant ----

  /** Barriers are released, save possibly the one of `child`. */
  ghost predicate ReleasedExcept(cs: Commitments, child: CommitmentId) {
    forall p :: (&& p in cs && cs[p].replacement.Some? && !IsTerminal(cs[p].state)
                 && cs[p].replacement.value in cs
                 && cs[p].replacement.value != child) ==> !cs[cs[p].replacement.value].state.Completed?
  }

  lemma CascadeMovesFreely(cs: Commitments, gs: Guards, child: CommitmentId)
    requires BarriersHold(cs, gs)
    ensures MovesFreely(cs, Ids(CascadeOf(cs, child)), Completed)
  {
    var chain := CascadeOf(cs, child);
    ChainIsOpen(cs, child, Unfinished(cs));
    forall p | p in chain
      ensures cs[p].outstanding == None
    {
      var i :| 0 <= i < |chain| && chain[i] == p;
      ChainLinks(cs, child, Unfinished(cs), i);
      assert BarrierHolds(cs, gs, p);
    }
  }

  lemma CascadeReleases(cs: Commitments, gs: Guards, child: CommitmentId)
    requires BarriersHold(cs, gs) && ReleasedExcept(cs, child)
    ensures BarriersReleased(MoveAll(cs, Ids(CascadeOf(cs, child)), Completed))
  {
    var chain := CascadeOf(cs, child);
    forall p | p in cs && cs[p].replacement.Some? && !IsTerminal(cs[p].state) && p !in chain
      ensures cs[p].replacement.value != child && cs[p].replacement.value !in chain
    {
      var q := cs[p].replacement.value;
      BarrierParentIsTheComposite(cs, gs, p, q);
      if q == child || q in chain {
        ChainIsClosed(cs, child, Unfinished(cs), q);
      }
    }
  }

  lemma CascadeKeepsInv(db: Db, child: CommitmentId)
    requires Consistent(db) && ReleasedExcept(db.commitments, child)
    ensures Inv(CompleteAll(db, CascadeOf(db.commitments, child)))
  {
    CascadeMovesFreely(db.commitments, db.guards, child);
    MoveKeepsConsistent(db, Ids(CascadeOf(db.commitments, child)), Completed);
    CascadeReleases(db.commitments, db.guards, child);
  }

  // ---- one round of the worklist ----

  /** The commitment whose parents the worklist looks up in round `i`. */
  function Rung(cs: Commitments, child: CommitmentId, i: nat): CommitmentId
    requires i <= |CascadeOf(cs, child)|
  {
    if i == 0 then child else CascadeOf(cs, child)[i - 1]
  }

  function CompositesOver(cs: Commitments, child: CommitmentId): set<CommitmentId> {
    set p | p in cs && cs[p].replacement == Some(child)
  }

  /** A commitment is the replacement terminal of at most one composite. */
  lemma CompositeIsUnique(cs: Commitments, gs: Guards, child: CommitmentId)
    requires BarriersHold(cs, gs)
    ensures CompositesOver(cs, child)
         == if BarrierParent(cs, child).Some? then {BarrierParent(cs, child).value} else {}
  {
    forall p | p in CompositesOver(cs, child)
      ensures BarrierParent(cs, child) == Some(p)
    {
      BarrierParentIsTheComposite(cs, gs, p, child);
    }
  }

  lemma CompletionKeepsComposites(cs: Commitments, moved: set<CommitmentId>, child: CommitmentId)
    ensures CompositesOver(MoveAll(cs, moved, Completed), child) == CompositesOver(cs, child)
  {
  }

  /** What the worklist finds in round `i`: the next composite of the chain,
      ready to complete, or nothing left to do. */
  lemma RungFacts(db: Db, child: CommitmentId, i: nat)
    requires Consistent(db) && child in db.commitments && i <= |CascadeOf(db.commitments, child)|
    ensures
      var chain := CascadeOf(db.commitments, child);
      var rung := Rung(db.commitments, child, i);
      var over := CompositesOver(db.commitments, rung);
      && rung in db.commitments
      && (i < |chain| ==>
            && over == {chain[i]}
            && chain[i] !in chain[..i]
            && MayCompleteOver(db, rung, chain[i]))
      && (i == |chain| ==> |over| <= 1 && forall p :: p in over ==>
            && db.commitments[rung].parent == Some(p) && p in db.commitments
            && db.commitments[rung].goal == db.commitments[p].goal
            && (p in chain || IsTerminal(db.commitments[p].state)))
  {
    hide ClaimsAgree, ActionsAgree, LocksAgree, GuardsSound, TopologySound, CascadeOf, BarriersHold;
    var cs := db.commitments;
    var chain := CascadeOf(cs, child);
    var rung := Rung(cs, child, i);
    ChainMembers(cs, child);
    CompositeIsUnique(cs, db.guards, rung);
    if i < |chain| {
      NextRung(cs, child, i);
      CompositeIsReady(db, rung, chain[i]);
    } else if BarrierParent(cs, rung).Some? {
      var p := BarrierParent(cs, rung).value;
      CompositeIsParent(db, rung, p);
      if p in Unfinished(cs) {
        CascadeIsClosed(cs, child, rung);
      }
    }
  }

  lemma CascadeIsClosed(cs: Commitments, child: CommitmentId, q: CommitmentId)
    requires q == child || q in CascadeOf(cs, child)
    requires BarrierParent(cs, q).Some? && BarrierParent(cs, q).value in Unfinished(cs)
    ensures BarrierParent(cs, q).value in CascadeOf(cs, child)
  {
    ChainIsClosed(cs, child, Unfinished(cs), q);
  }

  lemma ChainMembers(cs: Commitments, child: CommitmentId)
    ensures forall p :: p in CascadeOf(cs, child) ==> p in cs && !IsTerminal(cs[p].state)
    ensures forall i, j :: 0 <= i < j < |CascadeOf(cs, child)| ==> CascadeOf(cs, child)[i] != CascadeOf(cs, child)[j]
  {
    ChainIsOpen(cs, child, Unfinished(cs));
  }

  lemma NextRung(cs: Commitments, child: CommitmentId, i: nat)
    requires i < |CascadeOf(cs, child)|
    ensures BarrierParent(cs, Rung(cs, child, i)) == Some(CascadeOf(cs, child)[i])
    ensures CascadeOf(cs, child)[i] in CascadeOf(cs, child)
    ensures CascadeOf(cs, child)[i] in cs && !IsTerminal(cs[CascadeOf(cs, child)[i]].state)
  {
    ChainMembers(cs, child);
    ChainLinks(cs, child, Unfinished(cs), i);
  }

  /** Everything the cascade checks before it completes `p` because of `child`. */
  predicate MayCompleteOver(db: Db, child: CommitmentId, p: CommitmentId) {
    && child in db.commitments && p in db.commitments
    && db.commitments[child].parent == Some(p)
    && db.commitments[child].goal == db.commitments[p].goal
    && !IsTerminal(db.commitments[p].state)
    && db.commitments[p].outstanding == None
    && (db.commitments[p].state == Waiting(OnPrerequisite(child)) || db.commitments[p].state.RecoveryPending?)
    && HoldsNoLock(db.locks, p)
  }

  /** A composite over `child` that has ended already. */
  predicate EndedComposite(cs: Commitments, child: CommitmentId, p: CommitmentId) {
    && child in cs && p in cs
    && cs[child].parent == Some(p) && cs[child].goal == cs[p].goal
    && IsTerminal(cs[p].state)
  }

  lemma EndedIsNotReady(db: Db, child: CommitmentId, p: CommitmentId)
    ensures MayCompleteOver(db, child, p) ==> !EndedComposite(db.commitments, child, p)
    ensures EndedComposite(db.commitments, child, p) ==>
      && child in db.commitments && p in db.commitments && IsTerminal(db.commitments[p].state)
      && db.commitments[child].parent == Some(p) && db.commitments[child].goal == db.commitments[p].goal
  {
  }

  lemma OnlyMember<T>(s: set<T>, x: T)
    requires x in s && |s| <= 1
    ensures s == {x}
  {
    if y :| y in s && y != x {
      SubsetIsShorter({x, y}, s);
    }
  }

  lemma CompositeIsParent(db: Db, child: CommitmentId, p: CommitmentId)
    requires Consistent(db) && BarrierParent(db.commitments, child) == Some(p)
    ensures p in db.commitments && child in db.commitments
    ensures db.commitments[child].parent == Some(p) && db.commitments[child].goal == db.commitments[p].goal
  {
    hide ClaimsAgree, ActionsAgree, LocksAgree, GuardsSound, BarriersHold;
  }

  lemma CompositeIsReady(db: Db, child: CommitmentId, p: CommitmentId)
    requires Consistent(db) && BarrierParent(db.commitments, child) == Some(p)
    requires !IsTerminal(db.commitments[p].state)
    ensures MayCompleteOver(db, child, p)
  {
    hide ClaimsAgree, ActionsAgree, LocksAgree, GuardsSound, TopologySound;
    assert BarrierHolds(db.commitments, db.guards, p);
    IdleHoldsNoLock(db.guards, db.locks, p);
  }

  lemma IdleHoldsNoLock(gs: Guards, locks: Locks, c: CommitmentId)
    requires LocksAgree(gs, locks)
    requires forall g :: g in gs && gs[g].commitment == c ==> !IsLive(gs[g].state)
    ensures HoldsNoLock(locks, c)
  {
  }

  /** The chain and the completed child are distinct commitments, so a count of
      composites looked at never exceeds the number of commitments. */
  lemma ChainIsShort(cs: Commitments, child: CommitmentId)
    requires child in cs && IsTerminal(cs[child].state)
    ensures |CascadeOf(cs, child)| < |cs|
  {
    var chain := CascadeOf(cs, child);
    ChainMembers(cs, child);
    assert Enumerates(chain, Ids(chain));
    EnumerationLength(chain, Ids(chain));
    assert child !in Ids(chain);
    SubsetIsShorter(Ids(chain) + {child}, cs.Keys);
  }

  lemma {:induction false} SubsetIsShorter<T>(s: set<T>, t: set<T>)
    requires s <= t
    ensures |s| <= |t|
  {
    if s != {} {
      var x :| x in s;
      SubsetIsShorter(s - {x}, t - {x});
    }
  }

  lemma CompleteAnother(db: Db, done: seq<CommitmentId>, p: CommitmentId)
    requires p in db.commitments && p !in done
    ensures
      var mid := CompleteAll(db, done);
      && p in mid.commitments && mid.commitments[p] == db.commitments[p]
      && CompleteAll(db, done + [p]) == mid.(
           commitments := mid.commitments[p := Moved(db.commitments[p], Completed)],
           claims := mid.claims - {p},
           events := mid.events + [CommitmentCompleted(p)])
  {
    assert Ids(done + [p]) == Ids(done) + {p};
    assert Completions(done + [p]) == Completions(done) + [CommitmentCompleted(p)];
    var mid := CompleteAll(db, done);
    assert MoveAll(db.commitments, Ids(done) + {p}, Completed)
        == mid.commitments[p := Moved(db.commitments[p], Completed)];
  }

  lemma CompleteNothing(db: Db)
    ensures CompleteAll(db, []) == db
  {
    assert Ids([]) == {};
    assert MoveAll(db.commitments, {}, Completed) == db.commitments;
    assert Completions([]) == [];
  }

  lemma MidwayRows(cs: Commitments, done: set<CommitmentId>, c: CommitmentId)
    requires c in cs
    ensures c in MoveAll(cs, done, Completed)
    ensures MoveAll(cs, done, Completed)[c] == if c in done then Moved(cs[c], Completed) else cs[c]
    ensures MoveAll(cs, done, Completed).Keys == cs.Keys
  {
  }

  /** The same facts in the middle of the work, with the first `i` composites completed. */
  lemma RungInTheMiddle(db: Db, child: CommitmentId, i: nat)
    requires Consistent(db) && child in db.commitments && db.commitments[child].state.Completed?
    requires i <= |CascadeOf(db.commitments, child)|
    ensures
      var chain := CascadeOf(db.commitments, child);
      var rung := Rung(db.commitments, child, i);
      var mid := CompleteAll(db, chain[..i]);
      var over := CompositesOver(db.commitments, rung);
      && rung in mid.commitments && mid.commitments[rung].state.Completed?
      && CompositesOver(mid.commitments, rung) == over && |over| <= 1
      && (i < |chain| ==>
            && over == {chain[i]}
            && chain[i] in mid.commitments && MayCompleteOver(mid, rung, chain[i])
            && mid.commitments[chain[i]] == db.commitments[chain[i]]
            && chain[..i + 1] == chain[..i] + [chain[i]]
            && CompleteAll(db, chain[..i + 1]) == mid.(
                 commitments := mid.commitments[chain[i] := Moved(db.commitments[chain[i]], Completed)],
                 claims := mid.claims - {chain[i]},
                 events := mid.events + [CommitmentCompleted(chain[i])]))
      && (i == |chain| ==> forall p :: p in over ==>
            p in mid.commitments && EndedComposite(mid.commitments, rung, p) && !MayCompleteOver(mid, rung, p))
  {
    hide Consistent, CascadeOf, MoveAll, Unfinished;
    var cs := db.commitments;
    var chain := CascadeOf(cs, child);
    var rung := Rung(cs, child, i);
    var done := Ids(chain[..i]);
    RungFacts(db, child, i);
    ChainMembers(cs, child);
    CompletionKeepsComposites(cs, done, rung);
    MidwayRows(cs, done, rung);
    if i < |chain| {
      assert chain[..i + 1] == chain[..i] + [chain[i]];
      MidwayRows(cs, done, chain[i]);
      CompleteAnother(db, chain[..i], chain[i]);
    } else {
      assert chain[..i] == chain;
      forall p | p in CompositesOver(cs, rung) {
        MidwayRows(cs, done, p);
      }
    }
  }

  /** A composite pending recovery whose barrier is completed, free to follow it. */
  predicate BarrierIsOver(db: Db, c: CommitmentId) {
    && c in db.commitments && c !in db.claims
    && db.commitments[c].state.RecoveryPending?
    && db.commitments[c].outstanding == None
    && HoldsNoLock(db.locks, c)
    && db.commitments[c].replacement.Some?
    && db.commitments[c].replacement.value in db.commitments
    && db.commitments[db.commitments[c].replacement.value].state.Completed?
    && CascadeFits(db.commitments, db.commitments[c].replacement.value)
  }

  lemma TerminalExists(db: Db, c: CommitmentId)
    requires Consistent(db) && c in db.commitments && db.commitments[c].replacement.Some?
    ensures db.commitments[c].replacement.value in db.commitments
  {
    assert BarrierHolds(db.commitments, db.guards, c);
  }

  /** No state that keeps the invariant needs recovery to finish a composite. */
  lemma RecoveryNeedsNoCascade(db: Db, c: CommitmentId)
    requires Inv(db)
    ensures !BarrierIsOver(db, c)
  {
  }

  // ---- generic persistence ----

  lemma PersistKeepsClaims(db: Db, d: Draft, expected: nat, event: WorkEvent)
    requires ClaimsAgree(db.commitments, db.claims, db.boot) && MayPersistRow(db, d, expected, event)
    ensures ClaimsAgree(PersistRow(db, d, event).commitments, PersistRow(db, d, event).claims, db.boot)
  {
    hide EventDescribes, LegalTransition, RequiresClaim, IsTerminal, EventCommitment;
  }

  /** What a permitted candidate says about the row it replaces. */
  lemma PersistedRowFacts(db: Db, d: Draft, expected: nat, event: WorkEvent)
    requires MayPersistRow(db, d, expected, event)
    ensures
      var row := db.commitments[d.id];
      var after := PersistedRow(row, d);
      && SameReferences(row, after)
      && row.outstanding == None && after.outstanding == None
      && !IsTerminal(row.state)
      && (after.replacement.Some? ==> IsTerminal(after.state))
  {
  }

  lemma RowChangeKeepsConsistent(db: Db, c: CommitmentId, after: CommitmentRow, claims: Claims)
    requires Consistent(db) && c in db.commitments
    requires SameReferences(db.commitments[c], after)
    requires db.commitments[c].outstanding == None && after.outstanding == None
    requires after.replacement.Some? ==> IsTerminal(after.state)
    requires ClaimsAgree(db.commitments[c := after], claims, db.boot)
    ensures Consistent(db.(commitments := db.commitments[c := after], claims := claims))
  {
    RowKeepsActions(db.commitments, db.guards, c, after);
    RowKeepsGuards(db.commitments, db.guards, db.boot, c, after);
    RowKeepsTopology(db.commitments, db.goals, c, after);
    RowKeepsBarriers(db.commitments, db.guards, c, after);
  }

  lemma PersistRowKeepsConsistent(db: Db, d: Draft, expected: nat, event: WorkEvent)
    requires Inv(db) && MayPersistRow(db, d, expected, event)
    ensures Consistent(PersistRow(db, d, event))
    ensures ReleasedExcept(PersistRow(db, d, event).commitments, d.id)
    ensures !d.state.Completed? ==> BarriersReleased(PersistRow(db, d, event).commitments)
  {
    PersistedRowFacts(db, d, expected, event);
    PersistKeepsClaims(db, d, expected, event);
    var after := PersistRow(db, d, event);
    RowChangeKeepsConsistent(db, d.id, after.commitments[d.id], after.claims);
    PersistRowReleases(db.commitments, d.id, after.commitments[d.id]);
  }

  lemma PersistRowReleases(cs: Commitments, c: CommitmentId, row: CommitmentRow)
    requires BarriersReleased(cs) && c in cs && row.replacement == cs[c].replacement && !IsTerminal(cs[c].state)
    ensures ReleasedExcept(cs[c := row], c)
    ensures !row.state.Completed? ==> BarriersReleased(cs[c := row])
  {
  }

  lemma PersistKeepsInv(db: Db, d: Draft, expected: nat, event: WorkEvent)
    requires Inv(db) && MayPersist(db, d, expected, event)
    ensures Inv(PersistEffect(db, d, event))
  {
    PersistRowKeepsConsistent(db, d, expected, event);
    if d.state.Completed? {
      CascadeKeepsInv(PersistRow(db, d, event), d.id);
    }
  }
}
