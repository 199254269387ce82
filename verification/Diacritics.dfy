/** Merging the diacritics pending on one letter into a fraction.

    The pending diacritic digits are sorted ascending and read as the
    fraction `0.<digits>`; an empty list gives zero. Sorting makes the result
    a function of the multiset of digits alone (`MergeDependsOnlyOnMultiset`),
    which is how the encoder canonicalises stacked diacritics. */
module Diacritics {
  import opened Decimal

  predicate Sorted(s: seq<Digit>) {
    forall i, j :: 0 <= i < j < |s| ==> s[i] <= s[j]
  }

  predicate NoZeros(s: seq<Digit>) {
    forall i :: 0 <= i < |s| ==> s[i] != 0
  }

  /** Inserts `x` into an ascending list, before the first element not
      smaller than it. */
  function Insert(x: Digit, s: seq<Digit>): (r: seq<Digit>)
    requires Sorted(s)
    ensures Sorted(r)
    ensures multiset(r) == multiset(s) + multiset{x}
    ensures |r| == |s| + 1
    ensures r[0] == x || (s != [] && r[0] == s[0])
    decreases |s|
  {
    if s == [] then [x]
    else if x <= s[0] then
      SortedCons(x, s);
      [x] + s
    else
      var t := Insert(x, s[1..]);
      assert s == [s[0]] + s[1..];
      SortedCons(s[0], t);
      [s[0]] + t
  }

  lemma SortedCons(a: Digit, t: seq<Digit>)
    requires Sorted(t) && (t == [] || a <= t[0])
    ensures Sorted([a] + t)
  {
    var r := [a] + t;
    forall i, j | 0 <= i < j < |r| ensures r[i] <= r[j] {
      if i == 0 {
        assert r[j] == t[j - 1];
        assert t[0] <= t[j - 1];
      } else {
        assert r[i] == t[i - 1] && r[j] == t[j - 1];
      }
    }
  }

  /** Ascending sort of a digit list. */
  function Sort(s: seq<Digit>): (r: seq<Digit>)
    ensures Sorted(r)
    ensures multiset(r) == multiset(s)
    ensures |r| == |s|
    decreases |s|
  {
    if s == [] then []
    else
      assert s == [s[0]] + s[1..];
      Insert(s[0], Sort(s[1..]))
  }

  /** A sorted list is determined by its multiset of elements. */
  lemma {:induction false} SortedUnique(a: seq<Digit>, b: seq<Digit>)
    requires Sorted(a) && Sorted(b)
    requires multiset(a) == multiset(b)
    ensures a == b
    decreases |a|
  {
    if a != [] {
      assert |b| == |a| by {
        assert |multiset(a)| == |a| && |multiset(b)| == |b|;
      }
      assert a[0] in multiset(b);
      assert b[0] in multiset(a);
      assert a[0] == b[0];
      assert a == [a[0]] + a[1..];
      assert b == [b[0]] + b[1..];
      assert multiset(a) == multiset{a[0]} + multiset(a[1..]);
      assert multiset(b) == multiset{b[0]} + multiset(b[1..]);
      assert multiset(a[1..]) == multiset(a) - multiset{a[0]};
      assert multiset(b[1..]) == multiset(b) - multiset{b[0]};
      SortedUnique(a[1..], b[1..]);
    }
  }

  /** The fraction `0.<digits>` of the pending diacritic digits, sorted
      ascending; zero for an empty list. */
  function Merge(buffer: seq<Digit>): (r: Dec)
    ensures r.whole == 0 && Canonical(r)
    ensures buffer == [] ==> r == Zero
    ensures Sorted(r.frac)
    ensures |r.frac| <= |buffer|
    ensures multiset(r.frac + Zeros(|buffer| - |r.frac|)) == multiset(buffer)
    ensures NoZeros(buffer) ==> multiset(r.frac) == multiset(buffer)
  {
    var sorted := Sort(buffer);
    StripSpec(buffer, sorted);
    Dec(0, Strip(sorted))
  }

  /** What dropping the trailing zeros of `sorted`, the ascending
      rearrangement of `buffer`, leaves. */
  lemma StripSpec(buffer: seq<Digit>, sorted: seq<Digit>)
    requires Sorted(sorted) && multiset(sorted) == multiset(buffer) && |sorted| == |buffer|
    ensures Sorted(Strip(sorted))
    ensures buffer == [] ==> Strip(sorted) == []
    ensures multiset(Strip(sorted) + Zeros(|buffer| - |Strip(sorted)|)) == multiset(buffer)
    ensures NoZeros(buffer) ==> multiset(Strip(sorted)) == multiset(buffer)
    ensures Strip(sorted) == [] || multiset(Strip(sorted)) == multiset(buffer)
  {
    StripSorted(sorted);
    StripAllOrNothing(sorted);
    StripKeepsDigits(buffer, sorted);
    if NoZeros(buffer) {
      NoZerosPermuted(buffer, sorted);
      StripNoZeros(sorted);
    }
  }

  /** The merged digits are all of the buffer's digits, in ascending order,
      unless the buffer holds only zeros, which merge to zero. */
  lemma MergeDigits(buffer: seq<Digit>)
    ensures Merge(buffer).frac == [] || multiset(Merge(buffer).frac) == multiset(buffer)
    ensures Merge(buffer).frac == [] <==> forall i :: 0 <= i < |buffer| ==> buffer[i] == 0
  {
    var f := Merge(buffer).frac;
    var sorted := Sort(buffer);
    StripAllOrNothing(sorted);
    assert f == Strip(sorted);
    if f == [] {
      forall i | 0 <= i < |buffer| ensures buffer[i] == 0 {
        assert buffer[i] in multiset(f + Zeros(|buffer| - |f|));
      }
    } else {
      assert f[|f| - 1] in multiset(buffer);
    }
  }

  /** The merged diacritics are a fraction below one, and above zero when
      there is at least one diacritic. */
  lemma MergeValue(buffer: seq<Digit>)
    ensures 0.0 <= Value(Merge(buffer)) < 1.0
    ensures buffer != [] && NoZeros(buffer) ==> Value(Merge(buffer)) > 0.0
  {
    FracValueBounds(Merge(buffer).frac);
    if buffer != [] && NoZeros(buffer) {
      var sorted := Sort(buffer);
      NoZerosPermuted(buffer, sorted);
      StripNoZeros(sorted);
    }
  }

  /** Dropping the trailing zeros of an ascending list keeps it ascending. */
  lemma StripSorted(sorted: seq<Digit>)
    requires Sorted(sorted)
    ensures Sorted(Strip(sorted))
  {
    var f := Strip(sorted);
    forall i, j | 0 <= i < j < |f| ensures f[i] <= f[j] {
      assert f[i] == sorted[i] && f[j] == sorted[j];
    }
  }

  /** An ascending list ends in a zero only when it is all zeros, so dropping
      its trailing zeros keeps all of it or nothing. */
  lemma StripAllOrNothing(sorted: seq<Digit>)
    requires Sorted(sorted)
    ensures Strip(sorted) == [] || Strip(sorted) == sorted
  {
    var f := Strip(sorted);
    if sorted != [] && sorted[|sorted| - 1] == 0 {
      assert sorted == f + Zeros(|sorted| - |f|);
      assert forall i :: 0 <= i < |f| ==> f[i] == sorted[i] <= sorted[|sorted| - 1];
    }
  }

  /** Dropping the trailing zeros of a rearrangement of `buffer` loses only
      zeros. */
  lemma StripKeepsDigits(buffer: seq<Digit>, sorted: seq<Digit>)
    requires multiset(sorted) == multiset(buffer) && |sorted| == |buffer|
    ensures multiset(Strip(sorted) + Zeros(|buffer| - |Strip(sorted)|)) == multiset(buffer)
  {
    var f := Strip(sorted);
    var z := Zeros(|sorted| - |f|);
    assert sorted == f + z;
    assert multiset(f + z) == multiset(buffer);
  }

  /** A rearrangement of a list without zeros has no zeros. */
  lemma NoZerosPermuted(a: seq<Digit>, b: seq<Digit>)
    requires multiset(a) == multiset(b) && NoZeros(a)
    ensures NoZeros(b)
  {
    forall i | 0 <= i < |b| ensures b[i] != 0 {
      assert b[i] in multiset(a);
    }
  }

  /** Without zeros there is nothing to strip, and the fraction is positive
      unless empty. */
  lemma StripNoZeros(ds: seq<Digit>)
    requires NoZeros(ds)
    ensures Strip(ds) == ds
    ensures ds != [] ==> FracValue(ds) > 0.0
  {
    if ds != [] {
      assert ds[|ds| - 1] != 0;
      FracValuePositive(ds);
    }
  }

  /** Diacritics stacked in any order merge to the same fraction. */
  lemma MergeDependsOnlyOnMultiset(a: seq<Digit>, b: seq<Digit>)
    requires multiset(a) == multiset(b)
    ensures Merge(a) == Merge(b)
  {
    SortedUnique(Sort(a), Sort(b));
  }

  /** Merging digits that are already ascending keeps them in place. */
  lemma MergeSorted(a: seq<Digit>)
    requires Sorted(a) && NoZeros(a)
    ensures Merge(a).frac == a
  {
    SortedUnique(Sort(a), a);
  }
}
