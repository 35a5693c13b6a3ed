/**
 * Relevance ranking behind recipe search. The matches of all query terms,
 * concatenated with repeats, are stable-sorted by how often each element
 * occurs (most frequent first) and then reduced to the first occurrence of
 * each element. The result is the list of matched elements ordered by match
 * count, descending, with ties broken by first appearance in the matches.
 */
module Ranking {

  /** How many times `x` occurs in `s`: Java's `Collections.frequency`. */
  function Frequency<T(==)>(s: seq<T>, x: T): nat
  {
    multiset(s)[x]
  }

  predicate NoDuplicates<T(==)>(s: seq<T>)
  {
    forall i, j :: 0 <= i < j < |s| ==> s[i] != s[j]
  }

  /** Position of the first `x` in `s`, or `|s|` when `x` does not occur. */
  function FirstIndex<T(==)>(s: seq<T>, x: T): (k: nat)
    ensures k <= |s| && x !in s[..k]
    ensures k < |s| <==> x in s
    ensures k < |s| ==> s[k] == x
  {
    if s == [] then 0
    else if s[0] == x then 0
    else
      var k' := FirstIndex(s[1..], x);
      assert s[..k' + 1] == [s[0]] + s[1..][..k'];
      assert s == [s[0]] + s[1..];
      1 + k'
  }

  lemma FirstIndexUnique<T>(s: seq<T>, x: T, k: nat)
    requires k <= |s| && x !in s[..k]
    requires k < |s| ==> s[k] == x
    ensures FirstIndex(s, x) == k
  {
    var m := FirstIndex(s, x);
    assert forall i :: 0 <= i < k ==> s[..k][i] == s[i];
    assert forall i :: 0 <= i < m ==> s[..m][i] == s[i];
  }

  /** Appending one element leaves the first positions of earlier elements alone. */
  lemma FirstIndexSnoc<T>(p: seq<T>, z: T, x: T)
    ensures FirstIndex(p + [z], x) ==
      if x in p then FirstIndex(p, x) else if x == z then |p| else |p| + 1
  {
    var s := p + [z];
    var k := if x in p then FirstIndex(p, x) else if x == z then |p| else |p| + 1;
    assert s[..|p|] == p;
    if x in p {
      assert s[..k] == p[..k];
    }
    FirstIndexUnique(s, x, k);
  }

  lemma {:induction false} FrequencyOfDistinct<T>(s: seq<T>, x: T)
    requires NoDuplicates(s) && x in s
    ensures Frequency(s, x) == 1
  {
    var p, z := s[..|s| - 1], s[|s| - 1];
    assert s == p + [z];
    if x == z {
      assert x !in p;
    } else {
      FrequencyOfDistinct(p, x);
    }
  }

  // ----- Stable sort by tally, most frequent first -----

  /** `s` runs from the highest tally to the lowest. */
  predicate SortedByTally<T(==)>(s: seq<T>, tally: multiset<T>)
  {
    forall i, j :: 0 <= i < j < |s| ==> tally[s[i]] >= tally[s[j]]
  }

  /** The elements of `s` whose tally is `k`, in their order in `s`. */
  function WithTally<T(==)>(s: seq<T>, tally: multiset<T>, k: nat): seq<T>
  {
    if s == [] then []
    else WithTally(s[..|s| - 1], tally, k) + (if tally[s[|s| - 1]] == k then [s[|s| - 1]] else [])
  }

  lemma WithTallySnoc<T>(p: seq<T>, z: T, tally: multiset<T>, k: nat)
    ensures WithTally(p + [z], tally, k) == WithTally(p, tally, k) + (if tally[z] == k then [z] else [])
  {
    assert (p + [z])[..|p|] == p;
  }

  lemma {:induction false} WithTallyMembers<T>(s: seq<T>, tally: multiset<T>, k: nat)
    ensures forall x :: x in WithTally(s, tally, k) ==> x in s && tally[x] == k
    ensures forall x :: x in s && tally[x] == k ==> x in WithTally(s, tally, k)
  {
    if s != [] {
      var p, z := s[..|s| - 1], s[|s| - 1];
      assert s == p + [z];
      WithTallyMembers(p, tally, k);
    }
  }

  /**
   * Among elements of equal tally, `x` comes first in `s` exactly when it
   * comes first in the elements of that tally: a sort that keeps every
   * `WithTally` subsequence keeps the relative order of equal elements.
   */
  lemma {:induction false} WithTallyOrder<T>(s: seq<T>, tally: multiset<T>, k: nat, x: T, y: T)
    requires tally[x] == k && tally[y] == k
    ensures FirstIndex(s, x) < FirstIndex(s, y) <==>
            FirstIndex(WithTally(s, tally, k), x) < FirstIndex(WithTally(s, tally, k), y)
  {
    if s != [] {
      var p, z := s[..|s| - 1], s[|s| - 1];
      assert s == p + [z];
      var w := WithTally(p, tally, k);
      WithTallyOrder(p, tally, k, x, y);
      WithTallySnoc(p, z, tally, k);
      WithTallyMembers(p, tally, k);
      assert x in w <==> x in p;
      assert y in w <==> y in p;
      FirstIndexSnoc(p, z, x);
      FirstIndexSnoc(p, z, y);
      if tally[z] == k {
        assert WithTally(s, tally, k) == w + [z];
        FirstIndexSnoc(w, z, x);
        FirstIndexSnoc(w, z, y);
      } else {
        assert WithTally(s, tally, k) == w;
        assert x != z && y != z;
      }
    }
  }

  /** Puts `x` behind every element of `sorted` whose tally is at least x's. */
  function InsertByTally<T(==)>(sorted: seq<T>, x: T, tally: multiset<T>): seq<T>
  {
    if sorted == [] || tally[sorted[|sorted| - 1]] >= tally[x] then sorted + [x]
    else InsertByTally(sorted[..|sorted| - 1], x, tally) + [sorted[|sorted| - 1]]
  }

  /**
   * Stable insertion sort by tally, descending: the order `List.sort` with a
   * reversed `comparingInt` comparator leaves the list in.
   */
  function StableSortByTally<T(==)>(s: seq<T>, tally: multiset<T>): seq<T>
  {
    if s == [] then []
    else InsertByTally(StableSortByTally(s[..|s| - 1], tally), s[|s| - 1], tally)
  }

  lemma {:induction false} InsertByTallyPermutes<T>(sorted: seq<T>, x: T, tally: multiset<T>)
    ensures multiset(InsertByTally(sorted, x, tally)) == multiset(sorted) + multiset{x}
    decreases |sorted|
  {
    if !(sorted == [] || tally[sorted[|sorted| - 1]] >= tally[x]) {
      var q, y := sorted[..|sorted| - 1], sorted[|sorted| - 1];
      assert sorted == q + [y];
      InsertByTallyPermutes(q, x, tally);
    }
  }

  lemma {:induction false} InsertByTallySorted<T>(sorted: seq<T>, x: T, tally: multiset<T>)
    requires SortedByTally(sorted, tally)
    ensures SortedByTally(InsertByTally(sorted, x, tally), tally)
    decreases |sorted|
  {
    if !(sorted == [] || tally[sorted[|sorted| - 1]] >= tally[x]) {
      var q, y := sorted[..|sorted| - 1], sorted[|sorted| - 1];
      assert sorted == q + [y];
      InsertByTallySorted(q, x, tally);
      InsertByTallyPermutes(q, x, tally);
      var r' := InsertByTally(q, x, tally);
      var r := r' + [y];
      forall i, j | 0 <= i < j < |r| ensures tally[r[i]] >= tally[r[j]] {
        if j == |r'| {
          assert r[i] in multiset(r');
          if r[i] != x {
            assert r[i] in q;
            var m :| 0 <= m < |q| && q[m] == r[i];
            assert sorted[m] == r[i];
          }
        }
      }
    }
  }

  lemma {:induction false} InsertByTallyStable<T>(sorted: seq<T>, x: T, tally: multiset<T>, k: nat)
    ensures WithTally(InsertByTally(sorted, x, tally), tally, k) ==
            WithTally(sorted, tally, k) + (if tally[x] == k then [x] else [])
    decreases |sorted|
  {
    if sorted == [] || tally[sorted[|sorted| - 1]] >= tally[x] {
      WithTallySnoc(sorted, x, tally, k);
    } else {
      var q, y := sorted[..|sorted| - 1], sorted[|sorted| - 1];
      assert sorted == q + [y];
      InsertByTallyStable(q, x, tally, k);
      WithTallySnoc(InsertByTally(q, x, tally), y, tally, k);
      WithTallySnoc(q, y, tally, k);
    }
  }

  /** The sort is a permutation, is ordered by tally, and is stable. */
  lemma {:induction false} StableSortByTallyKeeps<T>(s: seq<T>, tally: multiset<T>)
    ensures multiset(StableSortByTally(s, tally)) == multiset(s)
    ensures SortedByTally(StableSortByTally(s, tally), tally)
    ensures forall k :: WithTally(StableSortByTally(s, tally), tally, k) == WithTally(s, tally, k)
  {
    if s != [] {
      var p, z := s[..|s| - 1], s[|s| - 1];
      assert s == p + [z];
      StableSortByTallyKeeps(p, tally);
      InsertByTallyPermutes(StableSortByTally(p, tally), z, tally);
      InsertByTallySorted(StableSortByTally(p, tally), z, tally);
      forall k ensures WithTally(StableSortByTally(s, tally), tally, k) == WithTally(s, tally, k) {
        InsertByTallyStable(StableSortByTally(p, tally), z, tally, k);
        WithTallySnoc(p, z, tally, k);
      }
    }
  }

  // ----- First occurrences, as a LinkedHashSet iterates them -----

  /** Each element of `s` once, at the place of its first occurrence. */
  function FirstOccurrences<T(==)>(s: seq<T>): seq<T>
  {
    if s == [] then []
    else
      var p := s[..|s| - 1];
      if s[|s| - 1] in p then FirstOccurrences(p) else FirstOccurrences(p) + [s[|s| - 1]]
  }

  lemma {:induction false} FirstOccurrencesKeeps<T>(s: seq<T>)
    ensures NoDuplicates(FirstOccurrences(s))
    ensures forall x :: x in FirstOccurrences(s) ==> x in s
    ensures forall x :: x in s ==> x in FirstOccurrences(s)
    ensures forall i, j :: 0 <= i < j < |FirstOccurrences(s)| ==>
              FirstIndex(s, FirstOccurrences(s)[i]) < FirstIndex(s, FirstOccurrences(s)[j])
  {
    if s != [] {
      var p, z := s[..|s| - 1], s[|s| - 1];
      assert s == p + [z];
      FirstOccurrencesKeeps(p);
      var f := FirstOccurrences(p);
      forall w | w in p ensures FirstIndex(s, w) == FirstIndex(p, w) {
        FirstIndexSnoc(p, z, w);
      }
      if z !in p {
        FirstIndexSnoc(p, z, z);
        var r := f + [z];
        assert FirstOccurrences(s) == r;
        forall i, j | 0 <= i < j < |r| ensures FirstIndex(s, r[i]) < FirstIndex(s, r[j]) {
          assert r[i] == f[i] && f[i] in p;
          FirstIndexSnoc(p, z, f[i]);
          if j < |f| {
            assert r[j] == f[j] && f[j] in f && f[j] in p;
            FirstIndexSnoc(p, z, f[j]);
          } else {
            assert r[j] == z && FirstIndex(s, z) == |p|;
          }
        }
      }
    }
  }

  // ----- The ranking -----

  /** `sortRecipes`: stable sort by frequency, descending, then first occurrences. */
  function Rank<T(==)>(matches: seq<T>): seq<T>
  {
    FirstOccurrences(StableSortByTally(matches, multiset(matches)))
  }

  /** `x` occurs more often than `y`, or as often and earlier. */
  predicate RanksAbove<T(==)>(matches: seq<T>, x: T, y: T)
  {
    || Frequency(matches, x) > Frequency(matches, y)
    || (Frequency(matches, x) == Frequency(matches, y) && FirstIndex(matches, x) < FirstIndex(matches, y))
  }

  /**
   * `ranked` lists every element of `matches` exactly once, from the most to
   * the least frequent, equal frequencies in order of first appearance.
   */
  predicate IsRanking<T(==)>(matches: seq<T>, ranked: seq<T>)
  {
    && NoDuplicates(ranked)
    && (forall i :: 0 <= i < |ranked| ==> ranked[i] in matches)
    && (forall i :: 0 <= i < |matches| ==> matches[i] in ranked)
    && (forall i, j :: 0 <= i < j < |ranked| ==> RanksAbove(matches, ranked[i], ranked[j]))
  }

  lemma RankIsRanking<T>(matches: seq<T>)
    ensures IsRanking(matches, Rank(matches))
  {
    var tally := multiset(matches);
    var sorted := StableSortByTally(matches, tally);
    var ranked := FirstOccurrences(sorted);
    StableSortByTallyKeeps(matches, tally);
    FirstOccurrencesKeeps(sorted);
    forall x ensures x in ranked <==> x in matches {
      assert x in sorted <==> x in multiset(sorted);
    }
    forall i, j | 0 <= i < j < |ranked| ensures RanksAbove(matches, ranked[i], ranked[j]) {
      var x, y := ranked[i], ranked[j];
      var p, q := FirstIndex(sorted, x), FirstIndex(sorted, y);
      assert x in sorted && y in sorted;
      assert sorted[p] == x && sorted[q] == y && p < q;
      if tally[x] == tally[y] {
        WithTallyOrder(sorted, tally, tally[x], x, y);
        WithTallyOrder(matches, tally, tally[x], x, y);
      }
    }
  }

  /** Two duplicate-free orderings of the same elements by `RanksAbove` are equal. */
  lemma {:induction false} SameRankingOrder<T>(matches: seq<T>, a: seq<T>, b: seq<T>)
    requires NoDuplicates(a) && NoDuplicates(b)
    requires forall i :: 0 <= i < |a| ==> a[i] in b
    requires forall i :: 0 <= i < |b| ==> b[i] in a
    requires forall i, j :: 0 <= i < j < |a| ==> RanksAbove(matches, a[i], a[j])
    requires forall i, j :: 0 <= i < j < |b| ==> RanksAbove(matches, b[i], b[j])
    ensures a == b
    decreases |a|
  {
    assert a != [] ==> a[0] in b;
    assert b != [] ==> b[0] in a;
    if a != [] && b != [] {
      var m :| 0 <= m < |b| && b[m] == a[0];
      var n :| 0 <= n < |a| && a[n] == b[0];
      assert m == 0;
      var a', b' := a[1..], b[1..];
      forall i | 0 <= i < |a'| ensures a'[i] in b' {
        var l :| 0 <= l < |b| && b[l] == a[i + 1];
        assert l != 0;
        assert b'[l - 1] == a'[i];
      }
      forall i | 0 <= i < |b'| ensures b'[i] in a' {
        var l :| 0 <= l < |a| && a[l] == b[i + 1];
        assert l != 0;
        assert a'[l - 1] == b'[i];
      }
      SameRankingOrder(matches, a', b');
      assert a == [a[0]] + a' && b == [b[0]] + b';
    }
  }

  /** The ranking is determined by the matches: only `Rank` is a ranking. */
  lemma RankingIsUnique<T>(matches: seq<T>, ranked: seq<T>)
    requires IsRanking(matches, ranked)
    ensures ranked == Rank(matches)
  {
    RankIsRanking(matches);
    var r := Rank(matches);
    forall i | 0 <= i < |ranked| ensures ranked[i] in r {
      assert ranked[i] in matches;
      var l :| 0 <= l < |matches| && matches[l] == ranked[i];
    }
    forall i | 0 <= i < |r| ensures r[i] in ranked {
      assert r[i] in matches;
      var l :| 0 <= l < |matches| && matches[l] == r[i];
    }
    SameRankingOrder(matches, ranked, r);
  }

  /** A list without repeats ranks as itself: every element matched once. */
  lemma RankOfDistinct<T>(s: seq<T>)
    requires NoDuplicates(s)
    ensures Rank(s) == s
  {
    forall i, j | 0 <= i < j < |s| ensures RanksAbove(s, s[i], s[j]) {
      FrequencyOfDistinct(s, s[i]);
      FrequencyOfDistinct(s, s[j]);
      FirstIndexUnique(s, s[i], i);
      FirstIndexUnique(s, s[j], j);
    }
    RankingIsUnique(s, s);
  }

  /** Ranking an already ranked list changes nothing. */
  lemma RankIdempotent<T>(matches: seq<T>)
    ensures Rank(Rank(matches)) == Rank(matches)
  {
    RankIsRanking(matches);
    RankOfDistinct(Rank(matches));
  }

  // ----- The imperative steps of `sortRecipes` -----

  /** Shifting `x` down to position `j` is what `InsertByTally` describes. */
  lemma {:induction false} InsertByTallyAt<T>(sorted: seq<T>, x: T, tally: multiset<T>, j: nat)
    requires j <= |sorted|
    requires forall m :: j <= m < |sorted| ==> tally[sorted[m]] < tally[x]
    requires j == 0 || tally[sorted[j - 1]] >= tally[x]
    ensures InsertByTally(sorted, x, tally) == sorted[..j] + [x] + sorted[j..]
    decreases |sorted|
  {
    if j < |sorted| {
      var q := sorted[..|sorted| - 1];
      InsertByTallyAt(q, x, tally, j);
      assert sorted[..j] == q[..j];
      assert sorted[j..] == q[j..] + [sorted[|sorted| - 1]];
    }
  }

  /** One pass of insertion sort: shifts `a[i]` down into the prefix `a[..i]`. */
  method InsertLast<T(==)>(a: array<T>, i: nat, tally: multiset<T>)
    requires i < a.Length
    modifies a
    ensures a[..i + 1] == InsertByTally(old(a[..i]), old(a[i]), tally)
    ensures a[i + 1..] == old(a[i + 1..])
  {
    ghost var sorted := a[..i];
    var x := a[i];
    var j := i;
    while j > 0 && tally[a[j - 1]] < tally[x]
      invariant 0 <= j <= i
      invariant forall m :: 0 <= m < j ==> a[m] == sorted[m]
      invariant forall m :: j < m <= i ==> a[m] == sorted[m - 1]
      invariant forall m :: j <= m < i ==> tally[sorted[m]] < tally[x]
      invariant forall m :: i < m < a.Length ==> a[m] == old(a[m])
    {
      a[j] := a[j - 1];
      j := j - 1;
    }
    a[j] := x;
    InsertByTallyAt(sorted, x, tally, j);
    assert a[..i + 1] == sorted[..j] + [x] + sorted[j..];
  }

  /** Sorts `a` in place, stably, by `tally`, highest first. */
  method SortInPlace<T(==)>(a: array<T>, tally: multiset<T>)
    modifies a
    ensures a[..] == StableSortByTally(old(a[..]), tally)
  {
    ghost var input := a[..];
    var i := 0;
    while i < a.Length
      invariant 0 <= i <= a.Length
      invariant a[..i] == StableSortByTally(input[..i], tally)
      invariant a[i..] == input[i..]
    {
      assert a[i] == input[i];
      InsertLast(a, i, tally);
      assert input[..i + 1][..i] == input[..i];
      i := i + 1;
    }
    assert input[..a.Length] == input;
  }

  /** What `new LinkedHashSet<>(list)` iterates: first occurrences, in order. */
  method KeepFirstOccurrences<T(==)>(s: seq<T>) returns (r: seq<T>)
    ensures r == FirstOccurrences(s)
  {
    r := [];
    var seen: set<T> := {};
    for i := 0 to |s|
      invariant r == FirstOccurrences(s[..i])
      invariant forall x :: x in seen <==> x in s[..i]
    {
      assert s[..i + 1] == s[..i] + [s[i]];
      if s[i] !in seen {
        r := r + [s[i]];
        seen := seen + {s[i]};
      }
    }
    assert s[..|s|] == s;
  }

  /**
   * `sortRecipes`: sorts the list in place by frequency, highest first, and
   * returns its first occurrences. The frequencies are tallied once before
   * sorting; a permutation has the same tally, so this is the count the
   * source's comparator recomputes.
   */
  method SortRecipes<T(==)>(recipes: array<T>) returns (ranked: seq<T>)
    modifies recipes
    ensures recipes[..] == StableSortByTally(old(recipes[..]), multiset(old(recipes[..])))
    ensures ranked == Rank(old(recipes[..]))
    ensures IsRanking(old(recipes[..]), ranked)
  {
    var tally := multiset(recipes[..]);
    SortInPlace(recipes, tally);
    ranked := KeepFirstOccurrences(recipes[..]);
    RankIsRanking(old(recipes[..]));
  }
}
