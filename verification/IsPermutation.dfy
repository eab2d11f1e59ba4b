/** Catch2's is_permutation on two forward ranges under an equivalence comparator. */
module IsPermutation {
  ghost predicate Equivalence<T(!new)>(cmp: (T, T) -> bool)
  {
    && (forall x :: cmp(x, x))
    && (forall x, y :: cmp(x, y) ==> cmp(y, x))
    && (forall x, y, z :: cmp(x, y) && cmp(y, z) ==> cmp(x, z))
  }

  function Count<T>(s: seq<T>, v: T, cmp: (T, T) -> bool): nat
  {
    if s == [] then 0 else (if cmp(s[0], v) then 1 else 0) + Count(s[1..], v, cmp)
  }

  function Without<T>(s: seq<T>, j: nat): seq<T>
    requires j < |s|
  {
    s[..j] + s[j + 1..]
  }

  /** What being a permutation means: the elements of a can be matched off, one by one, against
      equivalent elements of b, using each element of b exactly once. */
  ghost predicate Matchable<T>(a: seq<T>, b: seq<T>, cmp: (T, T) -> bool)
  {
    if a == [] then b == []
    else exists j :: 0 <= j < |b| && cmp(a[0], b[j]) && Matchable(a[1..], Without(b, j), cmp)
  }

  ghost predicate SameCounts<T(!new)>(a: seq<T>, b: seq<T>, cmp: (T, T) -> bool)
  {
    forall v :: Count(a, v, cmp) == Count(b, v, cmp)
  }

  // ------------------------------------------------------------- counting

  lemma {:induction false} CountAppend<T>(s: seq<T>, t: seq<T>, v: T, cmp: (T, T) -> bool)
    ensures Count(s + t, v, cmp) == Count(s, v, cmp) + Count(t, v, cmp)
  {
    if s == [] {
      assert s + t == t;
    } else {
      assert (s + t)[1..] == s[1..] + t;
      CountAppend(s[1..], t, v, cmp);
    }
  }

  lemma CountSplit<T>(s: seq<T>, k: nat, v: T, cmp: (T, T) -> bool)
    requires k <= |s|
    ensures Count(s, v, cmp) == Count(s[..k], v, cmp) + Count(s[k..], v, cmp)
  {
    assert s == s[..k] + s[k..];
    CountAppend(s[..k], s[k..], v, cmp);
  }

  lemma CountWithout<T>(s: seq<T>, j: nat, v: T, cmp: (T, T) -> bool)
    requires j < |s|
    ensures Count(s, v, cmp) == Count(Without(s, j), v, cmp) + if cmp(s[j], v) then 1 else 0
  {
    CountSplit(s, j, v, cmp);
    assert s[j..][1..] == s[j + 1..];
    CountAppend(s[..j], s[j + 1..], v, cmp);
  }

  lemma {:induction false} CountIsZeroIff<T>(s: seq<T>, v: T, cmp: (T, T) -> bool)
    ensures Count(s, v, cmp) == 0 <==> forall k | 0 <= k < |s| :: !cmp(s[k], v)
  {
    if s != [] {
      CountIsZeroIff(s[1..], v, cmp);
      assert forall k | 0 < k < |s| :: s[k] == s[1..][k - 1];
    }
  }

  lemma SameForEquivalent<T(!new)>(x: T, y: T, v: T, cmp: (T, T) -> bool)
    requires Equivalence(cmp) && cmp(x, y)
    ensures cmp(x, v) == cmp(y, v)
  {
  }

  // --------------------------------------- matching and counting agree

  lemma {:induction false} MatchableHasSameCounts<T(!new)>(a: seq<T>, b: seq<T>, cmp: (T, T) -> bool)
    requires Equivalence(cmp) && Matchable(a, b, cmp)
    ensures |a| == |b| && SameCounts(a, b, cmp)
    decreases |a|
  {
    if a != [] {
      var j :| 0 <= j < |b| && cmp(a[0], b[j]) && Matchable(a[1..], Without(b, j), cmp);
      MatchableHasSameCounts(a[1..], Without(b, j), cmp);
      forall v ensures Count(a, v, cmp) == Count(b, v, cmp) {
        CountWithout(b, j, v, cmp);
        SameForEquivalent(a[0], b[j], v, cmp);
      }
    }
  }

  /** Counting at the elements of a is enough, given equal lengths: nothing in b is left over. */
  lemma {:induction false} CountsMakeMatchable<T(!new)>(a: seq<T>, b: seq<T>, cmp: (T, T) -> bool)
    requires Equivalence(cmp) && |a| == |b|
    requires forall k | 0 <= k < |a| :: Count(a, a[k], cmp) == Count(b, a[k], cmp)
    ensures Matchable(a, b, cmp)
    decreases |a|
  {
    if a != [] {
      assert Count(a, a[0], cmp) > 0;
      CountIsZeroIff(b, a[0], cmp);
      var j :| 0 <= j < |b| && cmp(b[j], a[0]);
      forall k | 0 <= k < |a[1..]| ensures Count(a[1..], a[1..][k], cmp) == Count(Without(b, j), a[1..][k], cmp) {
        var v := a[k + 1];
        CountWithout(b, j, v, cmp);
        SameForEquivalent(b[j], a[0], v, cmp);
      }
      CountsMakeMatchable(a[1..], Without(b, j), cmp);
      assert cmp(a[0], b[j]);
    }
  }

  /** Matchable is exactly equality of counts, at equal length or not. */
  lemma MatchableIffSameCounts<T(!new)>(a: seq<T>, b: seq<T>, cmp: (T, T) -> bool)
    requires Equivalence(cmp)
    ensures Matchable(a, b, cmp) <==> |a| == |b| && SameCounts(a, b, cmp)
  {
    if Matchable(a, b, cmp) {
      MatchableHasSameCounts(a, b, cmp);
    }
    if |a| == |b| && SameCounts(a, b, cmp) {
      CountsMakeMatchable(a, b, cmp);
    }
  }

  /** Under plain equality it is equality of multisets. */
  lemma MatchableByEqualityIsMultisetEquality<T(!new)>(a: seq<T>, b: seq<T>)
    ensures Matchable(a, b, (x, y) => x == y) <==> multiset(a) == multiset(b)
  {
    var cmp: (T, T) -> bool := (x, y) => x == y;
    MatchableIffSameCounts(a, b, cmp);
    forall v ensures Count(a, v, cmp) == multiset(a)[v] && Count(b, v, cmp) == multiset(b)[v] {
      CountIsMultiplicity(a, v, cmp);
      CountIsMultiplicity(b, v, cmp);
    }
    if multiset(a) == multiset(b) {
      assert |multiset(a)| == |a| && |multiset(b)| == |b|;
    }
    if SameCounts(a, b, cmp) {
      assert forall v :: Count(a, v, cmp) == Count(b, v, cmp) ==> multiset(a)[v] == multiset(b)[v];
    }
  }

  lemma {:induction false} CountIsMultiplicity<T(!new)>(s: seq<T>, v: T, cmp: (T, T) -> bool)
    requires forall x, y :: cmp(x, y) <==> x == y
    ensures Count(s, v, cmp) == multiset(s)[v]
  {
    if s != [] {
      CountIsMultiplicity(s[1..], v, cmp);
      assert s == [s[0]] + s[1..];
    }
  }

  /** Skipping a prefix of pairwise equivalent elements changes nothing. */
  lemma {:induction false} SharedPrefixCountsTheSame<T(!new)>(a: seq<T>, b: seq<T>, k: nat, v: T, cmp: (T, T) -> bool)
    requires Equivalence(cmp) && k <= |a| && k <= |b|
    requires forall i | 0 <= i < k :: cmp(a[i], b[i])
    ensures Count(a[..k], v, cmp) == Count(b[..k], v, cmp)
  {
    if k > 0 {
      SharedPrefixCountsTheSame(a, b, k - 1, v, cmp);
      CountSplit(a[..k], k - 1, v, cmp);
      CountSplit(b[..k], k - 1, v, cmp);
      assert a[..k][..k - 1] == a[..k - 1] && b[..k][..k - 1] == b[..k - 1];
      assert a[..k][k - 1..] == [a[k - 1]] && b[..k][k - 1..] == [b[k - 1]];
      SameForEquivalent(a[k - 1], b[k - 1], v, cmp);
    }
  }

  lemma SharedPrefixIsIrrelevant<T(!new)>(a: seq<T>, b: seq<T>, k: nat, cmp: (T, T) -> bool)
    requires Equivalence(cmp) && k <= |a| && k <= |b|
    requires forall i | 0 <= i < k :: cmp(a[i], b[i])
    ensures Matchable(a, b, cmp) <==> Matchable(a[k..], b[k..], cmp)
  {
    MatchableIffSameCounts(a, b, cmp);
    MatchableIffSameCounts(a[k..], b[k..], cmp);
    forall v ensures Count(a, v, cmp) == Count(b, v, cmp) <==> Count(a[k..], v, cmp) == Count(b[k..], v, cmp) {
      SharedPrefixCountsTheSame(a, b, k, v, cmp);
      CountSplit(a, k, v, cmp);
      CountSplit(b, k, v, cmp);
    }
  }

  // ------------------------------------------------------ the algorithm

  /** First position in [start, sentinel) equivalent to the value, or the sentinel. */
  method FindSentinel<T>(s: seq<T>, start: nat, sentinel: nat, value: T, cmp: (T, T) -> bool) returns (at: nat)
    requires start <= sentinel <= |s|
    ensures start <= at <= sentinel
    ensures at < sentinel ==> cmp(s[at], value)
    ensures forall k | start <= k < at :: !cmp(s[k], value)
  {
    at := start;
    while at != sentinel
      invariant start <= at <= sentinel
      invariant forall k | start <= k < at :: !cmp(s[k], value)
    {
      if cmp(s[at], value) { break; }
      at := at + 1;
    }
  }

  method CountSentinel<T>(s: seq<T>, start: nat, sentinel: nat, value: T, cmp: (T, T) -> bool) returns (count: nat)
    requires start <= sentinel <= |s|
    ensures count == Count(s[start..sentinel], value, cmp)
  {
    count := 0;
    var at := start;
    while at != sentinel
      invariant start <= at <= sentinel
      invariant count == Count(s[start..at], value, cmp)
    {
      assert s[start..at + 1] == s[start..at] + [s[at]];
      CountAppend(s[start..at], [s[at]], value, cmp);
      if cmp(s[at], value) { count := count + 1; }
      at := at + 1;
    }
  }

  lemma CountOfOwn<T(!new)>(a: seq<T>, k: nat, cmp: (T, T) -> bool)
    requires Equivalence(cmp) && k < |a|
    ensures Count(a, a[k], cmp) > 0
  {
    CountIsZeroIff(a, a[k], cmp);
  }

  /** At a first occurrence, counting from here on is counting in the whole range. */
  lemma CountFromFirst<T>(a: seq<T>, first: nat, value: T, cmp: (T, T) -> bool)
    requires first <= |a| && forall k | 0 <= k < first :: !cmp(a[k], value)
    ensures Count(a[first..|a|], value, cmp) == Count(a, value, cmp)
  {
    CountSplit(a, first, value, cmp);
    CountIsZeroIff(a[..first], value, cmp);
    assert a[first..|a|] == a[first..];
  }

  /** Compares counts only where an element of the first range occurs for the first time. */
  method CheckElementCounts<T(!new)>(a: seq<T>, b: seq<T>, cmp: (T, T) -> bool) returns (agree: bool)
    requires Equivalence(cmp)
    ensures agree <==> forall k | 0 <= k < |a| :: Count(a, a[k], cmp) == Count(b, a[k], cmp)
  {
    var cursor := 0;
    while cursor != |a|
      invariant 0 <= cursor <= |a|
      invariant forall k | 0 <= k < cursor :: Count(a, a[k], cmp) == Count(b, a[k], cmp)
    {
      var value := a[cursor];
      var seen := FindSentinel(a, 0, cursor, value, cmp);
      if seen == cursor {
        var countInRange2 := CountSentinel(b, 0, |b|, value, cmp);
        assert b[0..|b|] == b;
        assert Count(a, value, cmp) > 0 by { CountOfOwn(a, cursor, cmp); }
        if countInRange2 == 0 { return false; }
        var countInRange1 := CountSentinel(a, cursor, |a|, value, cmp);
        CountFromFirst(a, cursor, value, cmp);
        if countInRange1 != countInRange2 { return false; }
      } else {
        CountOfEquivalent(a, a[seen], value, cmp);
        CountOfEquivalent(b, a[seen], value, cmp);
        assert Count(a, a[seen], cmp) == Count(b, a[seen], cmp);
      }
      cursor := cursor + 1;
    }
    return true;
  }

  lemma {:induction false} CountOfEquivalent<T(!new)>(s: seq<T>, x: T, y: T, cmp: (T, T) -> bool)
    requires Equivalence(cmp) && cmp(x, y)
    ensures Count(s, x, cmp) == Count(s, y, cmp)
  {
    if s != [] { CountOfEquivalent(s[1..], x, y, cmp); }
  }

  /** For any two ranges the answer is whether they are permutations of each other. */
  method IsPermutationOf<T(!new)>(a: seq<T>, b: seq<T>, cmp: (T, T) -> bool) returns (result: bool)
    requires Equivalence(cmp)
    ensures result <==> Matchable(a, b, cmp)
  {
    var first := 0;
    while first != |a| && first != |b| && cmp(a[first], b[first])
      invariant 0 <= first <= |a| && first <= |b|
      invariant forall i | 0 <= i < first :: cmp(a[i], b[i])
      decreases |a| - first
    {
      first := first + 1;
    }
    var restA, restB := a[first..], b[first..];
    SharedPrefixIsIrrelevant(a, b, first, cmp);
    MatchableIffSameCounts(restA, restB, cmp);
    if first == |a| || first == |b| {
      return first == |a| && first == |b|;
    }
    if |restA| != |restB| {
      return false;
    }
    result := CheckElementCounts(restA, restB, cmp);
    if result {
      CountsMakeMatchable(restA, restB, cmp);
    }
  }
}
