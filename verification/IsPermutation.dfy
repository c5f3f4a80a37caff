/** Catch2's is_permutation: quadratic counting, behind a common prefix that is
    skipped. Iterators into a range are positions in a sequence. */
module IsPermutation {

  type Comparator<!T> = (T, T) -> bool

  ghost predicate Equivalence<T(!new)>(cmp: Comparator<T>)
  {
    && (forall x :: cmp(x, x))
    && (forall x, y :: cmp(x, y) ==> cmp(y, x))
    && (forall x, y, z :: cmp(x, y) && cmp(y, z) ==> cmp(x, z))
  }

  /** Number of elements equivalent to v. */
  function Count<T>(s: seq<T>, v: T, cmp: Comparator<T>): nat
  {
    if s == [] then 0 else Count(s[..|s| - 1], v, cmp) + if cmp(s[|s| - 1], v) then 1 else 0
  }

  /** Every equivalence class has as many elements in a as in b. */
  ghost predicate SameCounts<T(!new)>(a: seq<T>, b: seq<T>, cmp: Comparator<T>)
  {
    forall v :: Count(a, v, cmp) == Count(b, v, cmp)
  }

  method FindSentinel<T>(s: seq<T>, start: nat, sentinel: nat, value: T, cmp: Comparator<T>) returns (i: nat)
    requires start <= sentinel <= |s|
    ensures start <= i <= sentinel
    ensures i < sentinel ==> cmp(s[i], value)
    ensures forall j :: start <= j < i ==> !cmp(s[j], value)
  {
    i := start;
    while i != sentinel
      invariant start <= i <= sentinel
      invariant forall j :: start <= j < i ==> !cmp(s[j], value)
    {
      if cmp(s[i], value) { break; }
      i := i + 1;
    }
  }

  method CountSentinel<T>(s: seq<T>, start: nat, sentinel: nat, value: T, cmp: Comparator<T>) returns (count: nat)
    requires start <= sentinel <= |s|
    ensures count == Count(s[start..sentinel], value, cmp)
  {
    count := 0;
    var i := start;
    while i != sentinel
      invariant start <= i <= sentinel
      invariant count == Count(s[start..i], value, cmp)
    {
      assert s[start..i + 1][..i - start] == s[start..i];
      if cmp(s[i], value) { count := count + 1; }
      i := i + 1;
    }
  }

  /** Every class that occurs in a has as many elements in a as in b. */
  ghost predicate ClassesAgree<T>(a: seq<T>, b: seq<T>, cmp: Comparator<T>)
  {
    forall i :: 0 <= i < |a| ==> Count(a, a[i], cmp) == Count(b, a[i], cmp)
  }

  /** Compares the range of a from position `first` on with that of b from position
      `second` on. For ranges of equal size that decides whether all classes are
      equally large; in general, whether those that occur in the first range are. */
  method CheckElementCounts<T(!new)>(a: seq<T>, first: nat, b: seq<T>, second: nat,
                                     cmp: Comparator<T>) returns (r: bool)
    requires first <= |a| && second <= |b| && Equivalence(cmp)
    ensures r <==> ClassesAgree(a[first..], b[second..], cmp)
    ensures |a| - first == |b| - second ==> (r <==> SameCounts(a[first..], b[second..], cmp))
  {
    ghost var x, y := a[first..], b[second..];
    r := true;
    var cursor := first;
    while cursor != |a|
      invariant first <= cursor <= |a|
      invariant forall j :: 0 <= j < cursor - first ==> Count(x, x[j], cmp) == Count(y, x[j], cmp)
    {
      assert x[cursor - first] == a[cursor];
      var found := FindSentinel(a, first, cursor, a[cursor], cmp);
      if found == cursor {
        r := CheckNewClass(a, first, cursor, b, second, cmp);
        if !r { break; }
      } else {
        assert x[found - first] == a[found];
        CountRespects(x, a[found], a[cursor], cmp);
        CountRespects(y, a[found], a[cursor], cmp);
      }
      cursor := cursor + 1;
    }
    if |x| == |y| && r { AllClassesAgree(x, y, cmp); }
  }

  /** The part of the loop for an element whose class was not met before. */
  method CheckNewClass<T(!new)>(a: seq<T>, first: nat, cursor: nat, b: seq<T>, second: nat,
                                cmp: Comparator<T>) returns (r: bool)
    requires first <= cursor < |a| && second <= |b| && Equivalence(cmp)
    requires forall j :: first <= j < cursor ==> !cmp(a[j], a[cursor])
    ensures r <==> Count(a[first..], a[cursor], cmp) == Count(b[second..], a[cursor], cmp)
  {
    var inSecond := CountSentinel(b, second, |b|, a[cursor], cmp);
    assert b[second..|b|] == b[second..];
    CountSplit(a[first..cursor], a[cursor..], a[cursor], cmp);
    assert a[first..] == a[first..cursor] + a[cursor..];
    NoneCounted(a[first..cursor], a[cursor], cmp);
    if inSecond == 0 {
      SomeCounted(a[cursor..], 0, a[cursor], cmp);
      return false;
    }
    var inFirst := CountSentinel(a, cursor, |a|, a[cursor], cmp);
    assert a[cursor..|a|] == a[cursor..];
    return inFirst == inSecond;
  }

  method IsPermutation<T(!new)>(a: seq<T>, b: seq<T>, cmp: Comparator<T>) returns (r: bool)
    requires Equivalence(cmp)
    ensures r <==> SameCounts(a, b, cmp)
  {
    var i := 0;
    while i != |a| && i != |b| && cmp(a[i], b[i])
      invariant i <= |a| && i <= |b|
      invariant forall j :: 0 <= j < i ==> cmp(a[j], b[j])
    {
      i := i + 1;
    }
    SkippedPrefix(a, b, i, cmp);
    if i == |a| || i == |b| {
      if |a| != |b| && SameCounts(a, b, cmp) {
        SameCountsSameSize(a, b, cmp);
      }
      return i == |a| && i == |b|;
    }
    if |a| - i != |b| - i {
      if SameCounts(a, b, cmp) {
        SameCountsSameSize(a, b, cmp);
      }
      return false;
    }
    r := CheckElementCounts(a, i, b, i, cmp);
  }

  // ---------------------------------------------------------------- counting

  lemma {:induction false} CountSplit<T>(a: seq<T>, b: seq<T>, v: T, cmp: Comparator<T>)
    ensures Count(a + b, v, cmp) == Count(a, v, cmp) + Count(b, v, cmp)
    decreases |b|
  {
    if b == [] {
      assert a + b == a;
    } else {
      CountSplit(a, b[..|b| - 1], v, cmp);
      assert (a + b)[..|a + b| - 1] == a + b[..|b| - 1];
    }
  }

  lemma {:induction false} NoneCounted<T>(s: seq<T>, v: T, cmp: Comparator<T>)
    requires forall i :: 0 <= i < |s| ==> !cmp(s[i], v)
    ensures Count(s, v, cmp) == 0
    decreases |s|
  {
    if s != [] { NoneCounted(s[..|s| - 1], v, cmp); }
  }

  lemma {:induction false} SomeCounted<T>(s: seq<T>, i: nat, v: T, cmp: Comparator<T>)
    requires i < |s| && cmp(s[i], v)
    ensures Count(s, v, cmp) > 0
    decreases |s|
  {
    if i < |s| - 1 { SomeCounted(s[..|s| - 1], i, v, cmp); }
  }

  lemma {:induction false} CountRespects<T(!new)>(s: seq<T>, v: T, w: T, cmp: Comparator<T>)
    requires Equivalence(cmp) && cmp(v, w)
    ensures Count(s, v, cmp) == Count(s, w, cmp)
    decreases |s|
  {
    if s != [] { CountRespects(s[..|s| - 1], v, w, cmp); }
  }

  lemma {:induction false} PrefixCounts<T(!new)>(a: seq<T>, b: seq<T>, v: T, cmp: Comparator<T>)
    requires Equivalence(cmp) && |a| == |b| && forall j :: 0 <= j < |a| ==> cmp(a[j], b[j])
    ensures Count(a, v, cmp) == Count(b, v, cmp)
    decreases |a|
  {
    if a != [] { PrefixCounts(a[..|a| - 1], b[..|b| - 1], v, cmp); }
  }

  /** Skipping a pairwise equivalent prefix does not change the answer. */
  lemma SkippedPrefix<T(!new)>(a: seq<T>, b: seq<T>, i: nat, cmp: Comparator<T>)
    requires Equivalence(cmp) && i <= |a| && i <= |b| && forall j :: 0 <= j < i ==> cmp(a[j], b[j])
    ensures SameCounts(a, b, cmp) <==> SameCounts(a[i..], b[i..], cmp)
  {
    forall v
      ensures Count(a, v, cmp) - Count(a[i..], v, cmp) == Count(b, v, cmp) - Count(b[i..], v, cmp)
    {
      CountSplit(a[..i], a[i..], v, cmp);
      CountSplit(b[..i], b[i..], v, cmp);
      assert a == a[..i] + a[i..] && b == b[..i] + b[i..];
      PrefixCounts(a[..i], b[..i], v, cmp);
    }
    if SameCounts(a, b, cmp) {
      forall v ensures Count(a[i..], v, cmp) == Count(b[i..], v, cmp) {
        assert Count(a, v, cmp) == Count(b, v, cmp);
      }
    }
  }

  /** The elements that are not equivalent to x. */
  function Others<T>(s: seq<T>, x: T, cmp: Comparator<T>): seq<T>
  {
    if s == [] then []
    else Others(s[..|s| - 1], x, cmp) + if cmp(s[|s| - 1], x) then [] else [s[|s| - 1]]
  }

  lemma {:induction false} OthersSize<T>(s: seq<T>, x: T, cmp: Comparator<T>)
    ensures |s| == |Others(s, x, cmp)| + Count(s, x, cmp)
    ensures forall i :: 0 <= i < |Others(s, x, cmp)| ==> Others(s, x, cmp)[i] in s && !cmp(Others(s, x, cmp)[i], x)
    decreases |s|
  {
    if s != [] { OthersSize(s[..|s| - 1], x, cmp); }
  }

  lemma {:induction false} OthersCount<T(!new)>(s: seq<T>, x: T, v: T, cmp: Comparator<T>)
    requires Equivalence(cmp) && !cmp(v, x)
    ensures Count(Others(s, x, cmp), v, cmp) == Count(s, v, cmp)
    decreases |s|
  {
    if s != [] {
      var t, last := s[..|s| - 1], s[|s| - 1];
      OthersCount(t, x, v, cmp);
      if cmp(last, x) {
        assert Others(s, x, cmp) == Others(t, x, cmp);
        assert !cmp(last, v);
      } else {
        assert Others(s, x, cmp) == Others(t, x, cmp) + [last];
        assert (Others(t, x, cmp) + [last])[..|Others(t, x, cmp)|] == Others(t, x, cmp);
      }
    }
  }

  /** If b has at least as many elements of every class of a, it is at least as
      long, and longer if it has an element of another class. */
  lemma {:induction false} CountsBoundSize<T(!new)>(a: seq<T>, b: seq<T>, v: T, cmp: Comparator<T>)
    requires Equivalence(cmp)
    requires forall i :: 0 <= i < |a| ==> Count(a, a[i], cmp) <= Count(b, a[i], cmp)
    ensures |a| <= |b|
    ensures Count(a, v, cmp) < Count(b, v, cmp) ==> |a| < |b|
    decreases |a|
  {
    if a == [] {
      if b == [] { assert Count(b, v, cmp) == 0; }
    } else {
      var x := a[0];
      var a', b' := Others(a, x, cmp), Others(b, x, cmp);
      OthersSize(a, x, cmp);
      OthersSize(b, x, cmp);
      SomeCounted(a, 0, x, cmp);
      forall i | 0 <= i < |a'|
        ensures Count(a', a'[i], cmp) <= Count(b', a'[i], cmp)
      {
        OthersCount(a, x, a'[i], cmp);
        OthersCount(b, x, a'[i], cmp);
        var j :| 0 <= j < |a| && a[j] == a'[i];
      }
      CountsBoundSize(a', b', v, cmp);
      if cmp(v, x) {
        CountRespects(a, v, x, cmp);
        CountRespects(b, v, x, cmp);
      } else {
        OthersCount(a, x, v, cmp);
        OthersCount(b, x, v, cmp);
      }
    }
  }

  lemma SameCountsSameSize<T(!new)>(a: seq<T>, b: seq<T>, cmp: Comparator<T>)
    requires Equivalence(cmp) && SameCounts(a, b, cmp)
    ensures |a| == |b|
  {
    if a != [] { CountsBoundSize(a, b, a[0], cmp); }
    if b != [] { CountsBoundSize(b, a, b[0], cmp); }
  }

  /** With equal sizes it is enough to compare the classes of the first range. */
  lemma AllClassesAgree<T(!new)>(a: seq<T>, b: seq<T>, cmp: Comparator<T>)
    requires Equivalence(cmp) && |a| == |b|
    requires ClassesAgree(a, b, cmp)
    ensures SameCounts(a, b, cmp)
  {
    forall v ensures Count(a, v, cmp) == Count(b, v, cmp) {
      CountsBoundSize(a, b, v, cmp);
      if i :| 0 <= i < |a| && cmp(a[i], v) {
        CountRespects(a, a[i], v, cmp);
        CountRespects(b, a[i], v, cmp);
      } else {
        NoneCounted(a, v, cmp);
      }
    }
  }

  // ------------------------------------------------------- equality comparator

  lemma {:induction false} CountIsMultiplicity<T(!new)>(s: seq<T>, v: T, cmp: Comparator<T>)
    requires forall x, y :: cmp(x, y) <==> x == y
    ensures Count(s, v, cmp) == multiset(s)[v]
    decreases |s|
  {
    if s != [] {
      CountIsMultiplicity(s[..|s| - 1], v, cmp);
      assert s == s[..|s| - 1] + [s[|s| - 1]];
    }
  }

  /** With equality as the comparator the answer is multiset equality. */
  lemma PermutationIsMultisetEquality<T(!new)>(a: seq<T>, b: seq<T>, cmp: Comparator<T>)
    requires forall x, y :: cmp(x, y) <==> x == y
    ensures SameCounts(a, b, cmp) <==> multiset(a) == multiset(b)
  {
    forall v ensures Count(a, v, cmp) == multiset(a)[v] && Count(b, v, cmp) == multiset(b)[v] {
      CountIsMultiplicity(a, v, cmp);
      CountIsMultiplicity(b, v, cmp);
    }
    if SameCounts(a, b, cmp) {
      forall v ensures multiset(a)[v] == multiset(b)[v] {
        assert Count(a, v, cmp) == Count(b, v, cmp);
      }
    }
  }
}
