/**
 * The order in which JavaScript lists the own keys of a plain object: first
 * every key that is an array index, in ascending numeric order, then every
 * other string key in the order it was first created. The register store
 * lists its register names this way.
 */
module KeyOrder {
  import opened RegisterNames

  predicate NoDups(xs: seq<string>) {
    forall i, j :: 0 <= i < j < |xs| ==> xs[i] != xs[j]
  }

  predicate AllDecimalDigits(s: string) {
    forall i :: 0 <= i < |s| ==> IsAsciiDigit(s[i])
  }

  /** The number a string of decimal digits denotes. */
  function DecimalValue(s: string): nat
    requires AllDecimalDigits(s)
  {
    if |s| == 0 then 0
    else DecimalValue(s[..|s| - 1]) * 10 + ((s[|s| - 1] as int) - ('0' as int))
  }

  /** The largest array index: 2^32 - 2. */
  const MaxArrayIndex: nat := 0xFFFF_FFFE

  /** A key is an array index when it is the canonical decimal spelling (no
      leading zero except "0" itself) of an integer from 0 to 2^32 - 2. */
  predicate IsArrayIndex(key: string) {
    && |key| > 0
    && AllDecimalDigits(key)
    && (key[0] != '0' || |key| == 1)
    && DecimalValue(key) <= MaxArrayIndex
  }

  /** The numeric value of an index key; other keys are never ordered by it. */
  function IndexValue(key: string): nat {
    if IsArrayIndex(key) then DecimalValue(key) else 0
  }

  /** A key that is not an array index: listed in creation order. */
  predicate IsNamedKey(key: string) {
    !IsArrayIndex(key)
  }

  /** The values `rank` gives the elements of `xs` ascend. */
  ghost predicate SortedBy(xs: seq<string>, rank: string -> nat) {
    forall i, j :: 0 <= i < j < |xs| ==> rank(xs[i]) <= rank(xs[j])
  }

  /** The elements of `xs` that satisfy `p`, in their order in `xs`. */
  function Keep(xs: seq<string>, p: string -> bool): (r: seq<string>)
    ensures forall k :: k in r <==> k in xs && p(k)
    ensures NoDups(xs) ==> NoDups(r)
  {
    if |xs| == 0 then []
    else
      var init := xs[..|xs| - 1];
      var last := xs[|xs| - 1];
      assert xs == init + [last];
      assert NoDups(xs) ==> NoDups(init) && last !in init;
      Keep(init, p) + (if p(last) then [last] else [])
  }

  /** Keeping what satisfies `p` and keeping the rest loses and adds nothing. */
  lemma {:induction false} KeepSplits(xs: seq<string>, p: string -> bool, q: string -> bool)
    requires forall k :: q(k) == !p(k)
    ensures multiset(Keep(xs, p)) + multiset(Keep(xs, q)) == multiset(xs)
  {
    if |xs| > 0 {
      var init := xs[..|xs| - 1];
      var last := xs[|xs| - 1];
      KeepSplits(init, p, q);
      assert xs == init + [last];
      assert multiset(xs) == multiset(init) + multiset{last};
    }
  }

  /** An element added after all others is kept at the end. */
  lemma KeepAppend(xs: seq<string>, k: string, p: string -> bool)
    ensures Keep(xs + [k], p) == Keep(xs, p) + (if p(k) then [k] else [])
  {
    assert (xs + [k])[..|xs|] == xs;
  }

  /** `x` inserted into a list ascending by `rank`, before the first element ranked no lower. */
  function Insert(x: string, xs: seq<string>, rank: string -> nat): (r: seq<string>)
    ensures multiset(r) == multiset(xs) + multiset{x}
  {
    if |xs| == 0 then [x]
    else if rank(x) <= rank(xs[0]) then [x] + xs
    else
      assert xs == [xs[0]] + xs[1..];
      [xs[0]] + Insert(x, xs[1..], rank)
  }

  lemma {:induction false} InsertSorted(x: string, xs: seq<string>, rank: string -> nat)
    requires SortedBy(xs, rank)
    ensures SortedBy(Insert(x, xs, rank), rank)
  {
    if |xs| > 0 && rank(x) > rank(xs[0]) {
      var rest := Insert(x, xs[1..], rank);
      InsertSorted(x, xs[1..], rank);
      forall j | 0 <= j < |rest| ensures rank(xs[0]) <= rank(rest[j]) {
        assert rest[j] in multiset(rest);
        if rest[j] != x {
          assert rest[j] in xs[1..];
        }
      }
    }
  }

  /** Insertion sort by `rank`: a permutation of `xs`. */
  function SortBy(xs: seq<string>, rank: string -> nat): (r: seq<string>)
    ensures multiset(r) == multiset(xs)
  {
    if |xs| == 0 then []
    else
      assert xs == [xs[0]] + xs[1..];
      Insert(xs[0], SortBy(xs[1..], rank), rank)
  }

  lemma {:induction false} SortBySorted(xs: seq<string>, rank: string -> nat)
    ensures SortedBy(SortBy(xs, rank), rank)
  {
    if |xs| > 0 {
      SortBySorted(xs[1..], rank);
      InsertSorted(xs[0], SortBy(xs[1..], rank), rank);
    }
  }

  /** A duplicate-free list holds each element at most once. */
  lemma {:induction false} NoDupsMultiplicity(xs: seq<string>, k: string)
    requires NoDups(xs)
    ensures multiset(xs)[k] <= 1
  {
    if |xs| > 0 {
      var init := xs[..|xs| - 1];
      assert xs == init + [xs[|xs| - 1]];
      assert NoDups(init);
      NoDupsMultiplicity(init, k);
      if k == xs[|xs| - 1] {
        assert k !in init;
      }
    }
  }

  /** Reordering a duplicate-free list keeps it duplicate-free. */
  lemma PermutationNoDups(xs: seq<string>, ys: seq<string>)
    requires multiset(xs) == multiset(ys) && NoDups(xs)
    ensures NoDups(ys)
  {
    forall i, j | 0 <= i < j < |ys| ensures ys[i] != ys[j] {
      if ys[i] == ys[j] {
        var k := ys[i];
        assert ys == ys[..j] + [ys[j]] + ys[j + 1..];
        assert k in ys[..j];
        assert multiset(ys)[k] >= 2;
        NoDupsMultiplicity(xs, k);
        assert false;
      }
    }
  }

  /**
   * The listing of the keys created in order `created`: index keys in ascending
   * value, then the other keys in creation order. It lists the same keys as
   * `created`, each as often.
   */
  function OwnKeys(created: seq<string>): (r: seq<string>)
    ensures multiset(r) == multiset(created)
    ensures NoDups(created) ==> NoDups(r)
  {
    KeepSplits(created, IsArrayIndex, IsNamedKey);
    var r := SortBy(Keep(created, IsArrayIndex), IndexValue) + Keep(created, IsNamedKey);
    assert NoDups(created) ==> NoDups(r) by {
      if NoDups(created) {
        PermutationNoDups(created, r);
      }
    }
    r
  }

  /** Every element `Keep` keeps satisfies its filter. */
  lemma KeepSatisfies(xs: seq<string>, p: string -> bool)
    ensures forall i :: 0 <= i < |Keep(xs, p)| ==> p(Keep(xs, p)[i])
  {
    var r := Keep(xs, p);
    forall i | 0 <= i < |r| ensures p(r[i]) {
      assert r[i] in r;
    }
  }

  /** A reordering keeps a property every element has. */
  lemma PermutationSatisfies(xs: seq<string>, ys: seq<string>, p: string -> bool)
    requires multiset(xs) == multiset(ys)
    requires forall i :: 0 <= i < |xs| ==> p(xs[i])
    ensures forall i :: 0 <= i < |ys| ==> p(ys[i])
  {
    forall i | 0 <= i < |ys| ensures p(ys[i]) {
      assert ys[i] in multiset(xs);
    }
  }

  /** A sorted run of keys satisfying `p` followed by keys that do not: a key
      satisfying `p` is preceded only by such keys of no larger rank. */
  lemma SplitListingOrdered(a: seq<string>, b: seq<string>, p: string -> bool, rank: string -> nat)
    requires SortedBy(a, rank)
    requires forall i :: 0 <= i < |a| ==> p(a[i])
    requires forall i :: 0 <= i < |b| ==> !p(b[i])
    ensures forall i, j :: 0 <= i < j < |a + b| && p((a + b)[j]) ==>
              p((a + b)[i]) && rank((a + b)[i]) <= rank((a + b)[j])
  {
    var r := a + b;
    forall m | |a| <= m < |r| ensures !p(r[m]) {
      assert r[m] == b[m - |a|];
    }
    forall i, j | 0 <= i < j < |r| && p(r[j]) ensures p(r[i]) && rank(r[i]) <= rank(r[j]) {
      assert r[i] == a[i] && r[j] == a[j];
    }
  }

  /** In the listing, an index key is preceded only by index keys of no larger value. */
  lemma OwnKeysIndicesFirst(created: seq<string>)
    ensures var r := OwnKeys(created);
      forall i, j :: 0 <= i < j < |r| && IsArrayIndex(r[j]) ==>
        IsArrayIndex(r[i]) && IndexValue(r[i]) <= IndexValue(r[j])
  {
    var indices := Keep(created, IsArrayIndex);
    var sorted := SortBy(indices, IndexValue);
    var named := Keep(created, IsNamedKey);
    assert OwnKeys(created) == sorted + named;
    SortBySorted(indices, IndexValue);
    KeepSatisfies(created, IsArrayIndex);
    PermutationSatisfies(indices, sorted, IsArrayIndex);
    KeepSatisfies(created, IsNamedKey);
    SplitListingOrdered(sorted, named, IsArrayIndex, IndexValue);
  }

  /** `a` occurs in `xs` before `b`. */
  ghost predicate Before(xs: seq<string>, a: string, b: string) {
    exists i, j :: 0 <= i < j < |xs| && xs[i] == a && xs[j] == b
  }

  /** `Keep` keeps the relative order of the elements it keeps. */
  lemma {:induction false} KeepKeepsOrder(xs: seq<string>, p: string -> bool, i: nat, j: nat)
    requires i < j < |xs| && p(xs[i]) && p(xs[j])
    ensures Before(Keep(xs, p), xs[i], xs[j])
  {
    var init := xs[..|xs| - 1];
    assert xs == init + [xs[|xs| - 1]];
    var kept := Keep(init, p);
    assert Keep(xs, p) == kept + (if p(xs[|xs| - 1]) then [xs[|xs| - 1]] else []);
    if j < |xs| - 1 {
      KeepKeepsOrder(init, p, i, j);
      var a, b :| 0 <= a < b < |kept| && kept[a] == init[i] && kept[b] == init[j];
      assert Keep(xs, p)[a] == xs[i] && Keep(xs, p)[b] == xs[j];
    } else {
      assert init[i] in init;
      var a :| 0 <= a < |kept| && kept[a] == init[i];
      assert Keep(xs, p)[a] == xs[i] && Keep(xs, p)[|kept|] == xs[j];
    }
  }

  /** Order within a suffix is order within the whole list. */
  lemma BeforeInSuffix(front: seq<string>, back: seq<string>, a: string, b: string)
    requires Before(back, a, b)
    ensures Before(front + back, a, b)
  {
    var i, j :| 0 <= i < j < |back| && back[i] == a && back[j] == b;
    assert (front + back)[|front| + i] == a && (front + back)[|front| + j] == b;
  }

  /** Keys that are not array indices are listed in the order they were created. */
  lemma OwnKeysNamedInCreationOrder(created: seq<string>, i: nat, j: nat)
    requires i < j < |created| && IsNamedKey(created[i]) && IsNamedKey(created[j])
    ensures Before(OwnKeys(created), created[i], created[j])
  {
    var sorted := SortBy(Keep(created, IsArrayIndex), IndexValue);
    var named := Keep(created, IsNamedKey);
    assert OwnKeys(created) == sorted + named;
    KeepKeepsOrder(created, IsNamedKey, i, j);
    BeforeInSuffix(sorted, named, created[i], created[j]);
  }

  /** Appending a key the first filter rejects and the second keeps adds it at the end of the second part. */
  lemma SplitListingAppend(created: seq<string>, k: string, p: string -> bool, q: string -> bool, rank: string -> nat)
    requires !p(k) && q(k)
    ensures SortBy(Keep(created + [k], p), rank) + Keep(created + [k], q)
         == SortBy(Keep(created, p), rank) + Keep(created, q) + [k]
  {
    KeepAppend(created, k, p);
    KeepAppend(created, k, q);
    var a := SortBy(Keep(created, p), rank);
    var b := Keep(created, q);
    assert Keep(created + [k], p) == Keep(created, p);
    assert Keep(created + [k], q) == b + [k];
    assert a + (b + [k]) == a + b + [k];
  }

  /** A key created after all others that is not an array index is listed last. */
  lemma OwnKeysNewNamedKey(created: seq<string>, k: string)
    requires !IsArrayIndex(k)
    ensures OwnKeys(created + [k]) == OwnKeys(created) + [k]
  {
    SplitListingAppend(created, k, IsArrayIndex, IsNamedKey, IndexValue);
  }

  /** Without index keys the listing is the creation order itself. */
  lemma {:induction false} OwnKeysWithoutIndices(created: seq<string>)
    requires forall i :: 0 <= i < |created| ==> !IsArrayIndex(created[i])
    ensures OwnKeys(created) == created
  {
    if |created| == 0 {
      assert OwnKeys(created) == SortBy([], IndexValue) + [];
    } else {
      var init := created[..|created| - 1];
      var last := created[|created| - 1];
      assert created == init + [last];
      OwnKeysWithoutIndices(init);
      OwnKeysNewNamedKey(init, last);
    }
  }
}
