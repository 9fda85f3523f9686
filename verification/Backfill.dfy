/** The migration that introduced the claim-epoch high-water mark: it is set
    from the claim events on record and from the current claims. */
module Backfill {
  import opened Domain
  import opened Planning

  /** A claim event as stored: the commitment column and the payload, if it decodes. */
  datatype ClaimEvent = ClaimEvent(column: Option<string>, payload: Option<ClaimPayload>)

  datatype ClaimPayload = ClaimPayload(commitment: string, worker: string, epoch: nat)

  type Marks = map<string, nat>

  /** An event is sound on its own; whether its commitment exists is another question. */
  predicate SoundEvent(e: ClaimEvent) {
    && e.payload.Some?
    && e.column == Some(e.payload.value.commitment)
    && !IsBlank(e.payload.value.commitment) && !IsBlank(e.payload.value.worker)
    && 0 < e.payload.value.epoch <= MAX_I64
  }

  predicate About(e: ClaimEvent, c: string) {
    e.payload.Some? && e.payload.value.commitment == c
  }

  /** Every epoch on record for `c`: its mark, its claim events and its current claim. */
  function EpochsOf(marks: Marks, events: seq<ClaimEvent>, claims: map<string, int>, c: string): set<int>
    requires c in marks
  {
    {marks[c]} + (set e | e in events && About(e, c) :: e.payload.value.epoch)
    + if c in claims then {claims[c]} else {}
  }

  predicate IsGreatest(m: int, s: set<int>) {
    m in s && forall x :: x in s ==> x <= m
  }

  /** The table holds, for every commitment, the greatest epoch on record. */
  predicate MarksAre(now: Marks, before: Marks, events: seq<ClaimEvent>, claims: map<string, int>) {
    && now.Keys == before.Keys
    && forall c :: c in before ==> IsGreatest(now[c], EpochsOf(before, events, claims, c))
  }

  predicate SoundRecords(marks: Marks, events: seq<ClaimEvent>, claims: map<string, int>) {
    && (forall e :: e in events ==> SoundEvent(e) && e.payload.value.commitment in marks)
    && (forall c :: c in claims ==> 0 < claims[c] && c in marks)
  }

  function Restrict(claims: map<string, int>, keys: set<string>): map<string, int> {
    map c | c in claims && c in keys :: claims[c]
  }

  function Max(a: nat, b: nat): nat {
    if a < b then b else a
  }

  lemma GreatestOfMore(m: nat, s: set<int>, x: nat)
    requires IsGreatest(m, s)
    ensures IsGreatest(Max(m, x), s + {x})
  {
  }

  lemma EpochsWithEvent(marks: Marks, events: seq<ClaimEvent>, e: ClaimEvent, c: string)
    requires c in marks && e.payload.Some?
    ensures EpochsOf(marks, events + [e], map[], c)
         == EpochsOf(marks, events, map[], c) + if About(e, c) then {e.payload.value.epoch} else {}
  {
    var more := events + [e];
    assert forall x :: x in more <==> x in events || x == e;
    if About(e, c) {
      assert e in more;
    }
  }

  lemma EpochsWithClaim(marks: Marks, events: seq<ClaimEvent>, claims: map<string, int>, done: set<string>, d: string,
                        c: string)
    requires c in marks && d in claims && d !in done
    ensures EpochsOf(marks, events, Restrict(claims, done + {d}), c)
         == EpochsOf(marks, events, Restrict(claims, done), c) + if c == d then {claims[d]} else {}
  {
  }

  lemma EventRaises(now: Marks, before: Marks, events: seq<ClaimEvent>, e: ClaimEvent)
    requires MarksAre(now, before, events, map[]) && e.payload.Some? && e.payload.value.commitment in before
    ensures
      var c, epoch := e.payload.value.commitment, e.payload.value.epoch;
      MarksAre(now[c := Max(now[c], epoch)], before, events + [e], map[])
  {
    hide EpochsOf, IsGreatest;
    var c, epoch := e.payload.value.commitment, e.payload.value.epoch;
    var after := now[c := Max(now[c], epoch)];
    forall other | other in before
      ensures IsGreatest(after[other], EpochsOf(before, events + [e], map[], other))
    {
      EpochsWithEvent(before, events, e, other);
      GreatestOfMore(now[c], EpochsOf(before, events, map[], c), epoch);
      assert EpochsOf(before, events, map[], other) + {} == EpochsOf(before, events, map[], other);
    }
  }

  lemma ClaimRaises(now: Marks, before: Marks, events: seq<ClaimEvent>, claims: map<string, int>, done: set<string>,
                    c: string)
    requires MarksAre(now, before, events, Restrict(claims, done))
    requires c in claims && c !in done && c in before && 0 < claims[c]
    ensures MarksAre(now[c := Max(now[c], claims[c])], before, events, Restrict(claims, done + {c}))
  {
    hide EpochsOf, IsGreatest, Restrict;
    var after := now[c := Max(now[c], claims[c])];
    forall other | other in before
      ensures IsGreatest(after[other], EpochsOf(before, events, Restrict(claims, done + {c}), other))
    {
      EpochsWithClaim(before, events, claims, done, c, other);
      GreatestOfMore(now[c], EpochsOf(before, events, Restrict(claims, done), c), claims[c]);
      assert EpochsOf(before, events, Restrict(claims, done), other) + {} == EpochsOf(before, events, Restrict(claims, done), other);
    }
  }

  class HighWaterColumn {
    var marks: Marks

    /** Raises one mark, never lowers it. */
    method Raise(c: string, epoch: nat)
      requires c in marks
      modifies this
      ensures marks == old(marks)[c := Max(old(marks)[c], epoch)]
    {
      if marks[c] < epoch { marks := marks[c := epoch]; }
      else { assert marks == marks[c := marks[c]]; }
    }

    /** Accepts sound records only, and then leaves every mark at the greatest epoch on record. */
    method BackfillClaimEpochHighWater(events: seq<ClaimEvent>, claims: map<string, int>) returns (ok: bool)
      modifies this
      ensures ok <==> SoundRecords(old(marks), events, claims)
      ensures ok ==> MarksAre(marks, old(marks), events, claims)
    {
      hide IsBlank, MarksAre;
      ghost var before := marks;
      NothingOnRecord(before);
      for i := 0 to |events|
        invariant marks.Keys == before.Keys
        invariant MarksAre(marks, before, events[..i], map[])
        invariant forall j :: 0 <= j < i ==> SoundEvent(events[j]) && events[j].payload.value.commitment in before
      {
        var e := events[i];
        if e.payload.None? { return false; }
        var claimed := e.payload.value;
        if e.column != Some(claimed.commitment) || IsBlank(claimed.commitment) || IsBlank(claimed.worker)
          || claimed.epoch == 0
        {
          return false;
        }
        if claimed.commitment !in marks { return false; }
        if claimed.epoch > MAX_I64 { return false; }
        EventRaises(marks, before, events[..i], e);
        assert events[..i + 1] == events[..i] + [e];
        Raise(claimed.commitment, claimed.epoch);
      }
      assert events[..|events|] == events;
      var remaining := claims.Keys;
      assert Restrict(claims, claims.Keys - remaining) == map[];
      while remaining != {}
        invariant remaining <= claims.Keys && marks.Keys == before.Keys
        invariant MarksAre(marks, before, events, Restrict(claims, claims.Keys - remaining))
        invariant forall c :: c in claims && c !in remaining ==> 0 < claims[c] && c in before
        decreases remaining
      {
        var c :| c in remaining;
        if claims[c] <= 0 { return false; }
        if c !in marks { return false; }
        ClaimRaises(marks, before, events, claims, claims.Keys - remaining, c);
        assert claims.Keys - (remaining - {c}) == claims.Keys - remaining + {c};
        Raise(c, claims[c]);
        remaining := remaining - {c};
      }
      assert Restrict(claims, claims.Keys - remaining) == claims;
      return true;
    }
  }

  lemma NothingOnRecord(marks: Marks)
    ensures MarksAre(marks, marks, [], map[])
  {
  }

  /** So the next claim of a migrated commitment is at an epoch never used before. */
  lemma NextEpochIsUnused(now: Marks, before: Marks, events: seq<ClaimEvent>, claims: map<string, int>, c: string)
    requires MarksAre(now, before, events, claims) && c in before
    ensures forall e :: e in events && About(e, c) ==> e.payload.value.epoch < now[c] + 1
    ensures c in claims ==> claims[c] < now[c] + 1
    ensures before[c] <= now[c]
  {
    forall e | e in events && About(e, c)
      ensures e.payload.value.epoch in EpochsOf(before, events, claims, c)
    {
    }
  }

  /** The record of a claim is taken exactly if its column names the commitment of its
      payload, which is known, its worker is named and its epoch fits. */
  predicate Taken(e: ClaimEvent, marks: Marks) {
    match e
    case ClaimEvent(Some(column), Some(ClaimPayload(commitment, worker, epoch))) =>
      column == commitment && commitment in marks && HasText(commitment) && HasText(worker) && 1 <= epoch <= MAX_I64
    case _ => false
  }

  lemma RecordsAreTaken(marks: Marks, events: seq<ClaimEvent>, claims: map<string, int>)
    ensures SoundRecords(marks, events, claims) <==>
      && (forall i :: 0 <= i < |events| ==> Taken(events[i], marks))
      && claims.Keys <= marks.Keys && forall c :: c in claims ==> claims[c] >= 1
  {
    hide IsWhitespace;
    forall e | e in events
      ensures Taken(e, marks) <==> SoundEvent(e) && e.payload.value.commitment in marks
    {
    }
  }

  /** And the migrated column fits, and is set exactly where a claim is on record. */
  lemma MarkedIffOnRecord(now: Marks, before: Marks, events: seq<ClaimEvent>, claims: map<string, int>, c: string)
    requires SoundRecords(before, events, claims) && MarksAre(now, before, events, claims) && c in before
    requires before[c] <= MAX_I64 && (c in claims ==> claims[c] <= MAX_I64)
    ensures now[c] <= MAX_I64
    ensures 0 < now[c] <==> 0 < before[c] || c in claims || exists e :: e in events && About(e, c)
  {
    hide IsBlank;
    if e :| e in events && About(e, c) {
      assert e.payload.value.epoch in EpochsOf(before, events, claims, c);
    }
  }
}
