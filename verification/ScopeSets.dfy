/** Scope sets: sorting and deduplicating a list of keys gives one canonical
    list per set of keys, so the tables may hold sets. */
module ScopeSets {
  import opened Domain

  // ---- the order on keys ----

  /** Lexicographic order on the text. */
  predicate AtMost(a: string, b: string) {
    a == "" || (b != "" && (a[0] < b[0] || (a[0] == b[0] && AtMost(a[1..], b[1..]))))
  }

  predicate Before(a: ScopeKey, b: ScopeKey) {
    AtMost(a.text, b.text) && a != b
  }

  lemma {:induction false} AtMostIsTotal(a: string, b: string)
    ensures AtMost(a, b) || AtMost(b, a)
  {
    if a != "" && b != "" && a[0] == b[0] {
      AtMostIsTotal(a[1..], b[1..]);
    }
  }

  lemma {:induction false} AtMostIsAntisymmetric(a: string, b: string)
    requires AtMost(a, b) && AtMost(b, a)
    ensures a == b
  {
    if a != "" && b != "" {
      AtMostIsAntisymmetric(a[1..], b[1..]);
      assert a == [a[0]] + a[1..] && b == [b[0]] + b[1..];
    }
  }

  lemma {:induction false} AtMostIsTransitive(a: string, b: string, c: string)
    requires AtMost(a, b) && AtMost(b, c)
    ensures AtMost(a, c)
  {
    if a != "" && a[0] == b[0] && b[0] == c[0] {
      AtMostIsTransitive(a[1..], b[1..], c[1..]);
    }
  }

  /** The order is that of the text: one text is a prefix of the other, or at the
      first position where they differ its character is the smaller one. */
  lemma {:induction false} AtMostIsLexicographic(a: string, b: string)
    ensures AtMost(a, b) <==> a <= b || exists n: nat :: DifferFirstAt(a, b, n) && a[n] < b[n]
  {
    if a != "" && b != "" {
      if a[0] == b[0] {
        AtMostIsLexicographic(a[1..], b[1..]);
        assert a == [a[0]] + a[1..] && b == [b[0]] + b[1..];
        assert a <= b <==> a[1..] <= b[1..];
        if n: nat :| DifferFirstAt(a[1..], b[1..], n) && a[1..][n] < b[1..][n] {
          assert a[..n + 1] == [a[0]] + a[1..][..n] && b[..n + 1] == [b[0]] + b[1..][..n];
          assert DifferFirstAt(a, b, n + 1) && a[n + 1] < b[n + 1];
        }
        if n: nat :| DifferFirstAt(a, b, n) && a[n] < b[n] {
          assert a[1..][..n - 1] == a[..n][1..] && b[1..][..n - 1] == b[..n][1..];
          assert DifferFirstAt(a[1..], b[1..], n - 1) && a[1..][n - 1] < b[1..][n - 1];
        }
      } else {
        assert DifferFirstAt(a, b, 0);
        if n: nat :| DifferFirstAt(a, b, n) && a[n] < b[n] {
          assert n > 0 ==> a[..n][0] == b[..n][0];
        }
      }
    }
  }

  predicate DifferFirstAt(a: string, b: string, n: nat) {
    n < |a| && n < |b| && a[..n] == b[..n] && a[n] != b[n]
  }

  // ---- sorted lists ----

  ghost predicate Sorted(s: seq<ScopeKey>) {
    forall i, j :: 0 <= i < j < |s| ==> AtMost(s[i].text, s[j].text)
  }

  ghost predicate Ascending(s: seq<ScopeKey>) {
    forall i, j :: 0 <= i < j < |s| ==> Before(s[i], s[j])
  }

  function Keys(s: seq<ScopeKey>): set<ScopeKey> {
    set k | k in s
  }

  lemma BeforeIsStrict(a: ScopeKey, b: ScopeKey)
    requires Before(a, b)
    ensures !Before(b, a)
  {
    if Before(b, a) {
      AtMostIsAntisymmetric(a.text, b.text);
    }
  }

  lemma FirstIsLeast(s: seq<ScopeKey>, k: ScopeKey)
    requires Ascending(s) && s != [] && k in s
    ensures k == s[0] || Before(s[0], k)
  {
    var i :| 0 <= i < |s| && s[i] == k;
  }

  lemma TailKeys(s: seq<ScopeKey>)
    requires Ascending(s) && s != []
    ensures Ascending(s[1..]) && Keys(s[1..]) == Keys(s) - {s[0]}
  {
    forall k | k in s && k != s[0]
      ensures k in s[1..]
    {
      var i :| 0 <= i < |s| && s[i] == k;
      assert s[1..][i - 1] == k;
    }
  }

  /** Main result: an ascending list is determined by its set of keys. */
  lemma {:induction false} CanonicalIsUnique(s: seq<ScopeKey>, t: seq<ScopeKey>)
    requires Ascending(s) && Ascending(t) && Keys(s) == Keys(t)
    ensures s == t
  {
    if s == [] {
      assert forall i :: 0 <= i < |t| ==> t[i] in Keys(t);
    } else {
      assert s[0] in Keys(t);
      assert t != [];
      assert t[0] in Keys(s);
      FirstIsLeast(s, t[0]);
      FirstIsLeast(t, s[0]);
      if s[0] != t[0] { BeforeIsStrict(s[0], t[0]); }
      TailKeys(s);
      TailKeys(t);
      CanonicalIsUnique(s[1..], t[1..]);
      assert s == [s[0]] + s[1..] && t == [t[0]] + t[1..];
    }
  }

  /** A set of keys has a first one, which a loop over the canonical list meets first. */
  lemma {:induction false} FirstKeyExists(keys: set<ScopeKey>) returns (first: ScopeKey)
    requires keys != {}
    ensures first in keys && forall k :: k in keys ==> k == first || Before(first, k)
  {
    var x :| x in keys;
    if keys == {x} {
      first := x;
    } else {
      assert keys - {x} != {} by { assert exists k :: k in keys && k != x; }
      var rest := FirstKeyExists(keys - {x});
      AtMostIsTotal(x.text, rest.text);
      first := if AtMost(x.text, rest.text) then x else rest;
      forall k | k in keys
        ensures k == first || Before(first, k)
      {
        if k in keys - {x} && k != rest && AtMost(x.text, rest.text) {
          AtMostIsTransitive(x.text, rest.text, k.text);
        }
      }
    }
  }

  // ---- canonicalisation ----

  lemma PlacedIsSorted(s: seq<ScopeKey>, i: nat, k: ScopeKey)
    requires Sorted(s) && i <= |s|
    requires forall j :: i <= j < |s| ==> AtMost(k.text, s[j].text)
    requires i > 0 ==> AtMost(s[i - 1].text, k.text)
    ensures Sorted(s[..i] + [k] + s[i..])
  {
    hide AtMost;
    forall j | 0 <= j < i
      ensures AtMost(s[j].text, k.text)
    {
      if j < i - 1 { AtMostIsTransitive(s[j].text, s[i - 1].text, k.text); }
    }
  }

  lemma PlacedKeys(s: seq<ScopeKey>, i: nat, k: ScopeKey)
    requires i <= |s|
    ensures Keys(s[..i] + [k] + s[i..]) == Keys(s) + {k}
    ensures multiset(s[..i] + [k] + s[i..]) == multiset(s) + multiset{k}
  {
    assert s == s[..i] + s[i..];
    assert forall x :: x in s <==> x in s[..i] || x in s[i..];
  }

  /** Places one key in a sorted list. */
  method InsertSorted(s: seq<ScopeKey>, k: ScopeKey) returns (r: seq<ScopeKey>)
    requires Sorted(s)
    ensures Sorted(r) && Keys(r) == Keys(s) + {k} && multiset(r) == multiset(s) + multiset{k}
  {
    hide Keys;
    var i := |s|;
    while i > 0 && !AtMost(s[i - 1].text, k.text)
      invariant 0 <= i <= |s|
      invariant forall j :: i <= j < |s| ==> AtMost(k.text, s[j].text)
    {
      AtMostIsTotal(s[i - 1].text, k.text);
      i := i - 1;
    }
    PlacedIsSorted(s, i, k);
    PlacedKeys(s, i, k);
    return s[..i] + [k] + s[i..];
  }

  lemma KeysSnoc(s: seq<ScopeKey>, i: nat)
    requires i < |s|
    ensures s[..i + 1] == s[..i] + [s[i]]
    ensures Keys(s[..i + 1]) == Keys(s[..i]) + {s[i]}
  {
    assert s[..i + 1] == s[..i] + [s[i]];
  }

  method SortKeys(keys: seq<ScopeKey>) returns (sorted: seq<ScopeKey>)
    ensures Sorted(sorted) && Keys(sorted) == Keys(keys) && multiset(sorted) == multiset(keys)
  {
    sorted := [];
    for i := 0 to |keys|
      invariant Sorted(sorted) && Keys(sorted) == Keys(keys[..i]) && multiset(sorted) == multiset(keys[..i])
    {
      KeysSnoc(keys, i);
      sorted := InsertSorted(sorted, keys[i]);
    }
    assert keys[..|keys|] == keys;
  }

  /** Drops each key equal to the one kept before it. */
  method Dedup(keys: seq<ScopeKey>) returns (kept: seq<ScopeKey>)
    requires Sorted(keys)
    ensures Ascending(kept) && Keys(kept) == Keys(keys)
  {
    kept := [];
    for i := 0 to |keys|
      invariant Ascending(kept) && Keys(kept) == Keys(keys[..i])
      invariant kept != [] <==> i > 0
      invariant kept != [] ==> kept[|kept| - 1] == keys[i - 1]
    {
      KeysSnoc(keys, i);
      if kept == [] || kept[|kept| - 1] != keys[i] {
        forall j | 0 <= j < |kept|
          ensures Before(kept[j], keys[i])
        {
          LaterIsBefore(kept, j, keys[i]);
        }
        KeysSnoc(kept + [keys[i]], |kept|);
        assert (kept + [keys[i]])[..|kept| + 1] == kept + [keys[i]] && (kept + [keys[i]])[..|kept|] == kept;
        kept := kept + [keys[i]];
      }
    }
    assert keys[..|keys|] == keys;
  }

  lemma LaterIsBefore(kept: seq<ScopeKey>, j: nat, k: ScopeKey)
    requires Ascending(kept) && j < |kept|
    requires AtMost(kept[|kept| - 1].text, k.text) && kept[|kept| - 1] != k
    ensures Before(kept[j], k)
  {
    var last := kept[|kept| - 1];
    if j < |kept| - 1 {
      AtMostIsTransitive(kept[j].text, last.text, k.text);
      if kept[j] == k { AtMostIsAntisymmetric(last.text, k.text); }
    }
  }

  /** A scope set, or the error for an empty list; the result depends only on
      which keys are listed. */
  method TryNew(keys: seq<ScopeKey>) returns (result: Result<seq<ScopeKey>>)
    ensures result == Err(OfDomain(EmptyScopeSet)) <==> keys == []
    ensures result.Ok? <==> keys != []
    ensures result.Ok? ==> Ascending(result.value) && Keys(result.value) == Keys(keys) != {}
    ensures result.Ok? ==> forall other :: Ascending(other) && Keys(other) == Keys(keys) ==> other == result.value
  {
    if keys == [] { return Err(OfDomain(EmptyScopeSet)); }
    assert keys[0] in Keys(keys);
    var sorted := SortKeys(keys);
    var kept := Dedup(sorted);
    forall other | Ascending(other) && Keys(other) == Keys(keys)
      ensures other == kept
    {
      CanonicalIsUnique(other, kept);
    }
    return Ok(kept);
  }
}
