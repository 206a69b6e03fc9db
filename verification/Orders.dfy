/**
 Comparators in the style of strings.Compare and slices.SortFunc, and the canonical form
 (sorted, without duplicates) that such a comparator gives to a list.
 */
module Orders {

  datatype Option<+T> = None | Some(value: T)

  /** cmp is negative, zero or positive like a Go comparison function, and zero only on equal values. */
  ghost predicate Comparator<T(!new)>(cmp: (T, T) -> int) {
    && (forall a, b :: cmp(a, b) == 0 <==> a == b)
    && (forall a, b :: cmp(a, b) < 0 <==> cmp(b, a) > 0)
    && (forall a, b, c :: cmp(a, b) <= 0 && cmp(b, c) <= 0 ==> cmp(a, c) <= 0)
  }

  predicate Sorted<T>(cmp: (T, T) -> int, s: seq<T>) {
    forall i, j | 0 <= i < j < |s| :: cmp(s[i], s[j]) <= 0
  }

  predicate StrictlyIncreasing<T>(cmp: (T, T) -> int, s: seq<T>) {
    forall i, j | 0 <= i < j < |s| :: cmp(s[i], s[j]) < 0
  }

  /** No two elements have the same key. */
  predicate DistinctBy<T, K(==)>(key: T -> K, s: seq<T>) {
    forall i, j | 0 <= i < j < |s| :: key(s[i]) != key(s[j])
  }

  predicate Distinct<T(==)>(s: seq<T>) {
    forall i, j | 0 <= i < j < |s| :: s[i] != s[j]
  }

  function Elements<T>(s: seq<T>): set<T> {
    set x | x in s
  }

  lemma ElementsEmpty<T>(s: seq<T>)
    ensures Elements(s) == {} <==> s == []
  {
    if s != [] {
      assert s[0] in Elements(s);
    }
  }

  /** Lexicographic comparison, shorter lists first among prefixes of each other. */
  function Lex<T>(cmp: (T, T) -> int, a: seq<T>, b: seq<T>): int {
    if a == [] then (if b == [] then 0 else -1)
    else if b == [] then 1
    else if cmp(a[0], b[0]) != 0 then cmp(a[0], b[0])
    else Lex(cmp, a[1..], b[1..])
  }

  lemma {:induction false} LexZero<T(!new)>(cmp: (T, T) -> int, a: seq<T>, b: seq<T>)
    requires Comparator(cmp)
    ensures Lex(cmp, a, b) == 0 <==> a == b
  {
    if a != [] && b != [] {
      LexZero(cmp, a[1..], b[1..]);
      assert a == [a[0]] + a[1..];
      assert b == [b[0]] + b[1..];
    }
  }

  lemma {:induction false} LexSwap<T(!new)>(cmp: (T, T) -> int, a: seq<T>, b: seq<T>)
    requires Comparator(cmp)
    ensures Lex(cmp, a, b) < 0 <==> Lex(cmp, b, a) > 0
  {
    if a != [] && b != [] {
      assert cmp(a[0], b[0]) == 0 <==> cmp(b[0], a[0]) == 0;
      LexZero(cmp, a[1..], b[1..]);
      LexSwap(cmp, a[1..], b[1..]);
    }
  }

  lemma {:induction false} LexTransitive<T(!new)>(cmp: (T, T) -> int, a: seq<T>, b: seq<T>, c: seq<T>)
    requires Comparator(cmp)
    requires Lex(cmp, a, b) <= 0 && Lex(cmp, b, c) <= 0
    ensures Lex(cmp, a, c) <= 0
  {
    if a != [] && b != [] && c != [] {
      assert cmp(a[0], b[0]) <= 0 && cmp(b[0], c[0]) <= 0;
      assert cmp(a[0], c[0]) == 0 ==> a[0] == c[0];
      assert cmp(a[0], b[0]) < 0 ==> cmp(b[0], a[0]) > 0;
      if a[0] == b[0] && b[0] == c[0] {
        LexTransitive(cmp, a[1..], b[1..], c[1..]);
      }
    }
  }

  /** Lexicographic order over a comparator is again a comparator. */
  lemma LexComparator<T(!new)>(cmp: (T, T) -> int)
    requires Comparator(cmp)
    ensures Comparator((a: seq<T>, b: seq<T>) => Lex(cmp, a, b))
  {
    forall a: seq<T>, b: seq<T>
      ensures Lex(cmp, a, b) == 0 <==> a == b
      ensures Lex(cmp, a, b) < 0 <==> Lex(cmp, b, a) > 0
    {
      LexZero(cmp, a, b);
      LexSwap(cmp, a, b);
    }
    forall a: seq<T>, b: seq<T>, c: seq<T> | Lex(cmp, a, b) <= 0 && Lex(cmp, b, c) <= 0
      ensures Lex(cmp, a, c) <= 0
    {
      LexTransitive(cmp, a, b, c);
    }
  }

  /** The first difference: one list ends there, or the elements differ. */
  predicate LessAt<T(==)>(cmp: (T, T) -> int, a: seq<T>, b: seq<T>, i: nat) {
    && i <= |a| && i < |b| && a[..i] == b[..i]
    && (i == |a| || cmp(a[i], b[i]) < 0)
  }

  /** The first difference decides; a list that is the start of another one comes first. */
  lemma {:induction false} LexMeaning<T(!new)>(cmp: (T, T) -> int, a: seq<T>, b: seq<T>)
    requires Comparator(cmp)
    ensures Lex(cmp, a, b) < 0 <==> exists i: nat :: LessAt(cmp, a, b, i)
  {
    if a == [] {
      assert b != [] ==> LessAt(cmp, a, b, 0);
    } else if b != [] {
      LexMeaning(cmp, a[1..], b[1..]);
      if cmp(a[0], b[0]) < 0 {
        assert LessAt(cmp, a, b, 0);
      }
      if i: nat :| LessAt(cmp, a, b, i) && i > 0 {
        LessAtTail(cmp, a, b, i - 1);
      }
      if i: nat :| LessAt(cmp, a[1..], b[1..], i) {
        LessAtTail(cmp, a, b, i);
      }
    }
  }

  lemma LessAtTail<T>(cmp: (T, T) -> int, a: seq<T>, b: seq<T>, i: nat)
    requires a != [] && b != []
    ensures LessAt(cmp, a, b, i + 1) <==> a[0] == b[0] && LessAt(cmp, a[1..], b[1..], i)
  {
    if i < |a| && i + 1 < |b| {
      assert a[..i + 1] == [a[0]] + a[1..][..i] && b[..i + 1] == [b[0]] + b[1..][..i];
      assert a[..i + 1] == b[..i + 1] <==> a[0] == b[0] && a[1..][..i] == b[1..][..i] by {
        if a[..i + 1] == b[..i + 1] {
          assert a[..i + 1][0] == b[..i + 1][0] && a[..i + 1][1..] == b[..i + 1][1..];
          assert a[..i + 1][1..] == a[1..][..i] && b[..i + 1][1..] == b[1..][..i];
        }
      }
    }
  }

  function CompareChars(a: char, b: char): int {
    if a < b then -1 else if a == b then 0 else 1
  }

  /** strings.Compare */
  function CompareStrings(a: string, b: string): int {
    Lex(CompareChars, a, b)
  }

  lemma CompareStringsIsComparator()
    ensures Comparator(CompareStrings)
  {
    LexComparator(CompareChars);
    assert Comparator((a: string, b: string) => Lex(CompareChars, a, b));
    forall a, b
      ensures CompareStrings(a, b) == 0 <==> a == b
      ensures CompareStrings(a, b) < 0 <==> CompareStrings(b, a) > 0
    {
      LexZero(CompareChars, a, b);
      LexSwap(CompareChars, a, b);
    }
    forall a, b, c | CompareStrings(a, b) <= 0 && CompareStrings(b, c) <= 0
      ensures CompareStrings(a, c) <= 0
    {
      LexTransitive(CompareChars, a, b, c);
    }
  }

  // Sorting

  function Insert<T>(cmp: (T, T) -> int, x: T, s: seq<T>): seq<T> {
    if s == [] || cmp(x, s[0]) <= 0 then [x] + s else [s[0]] + Insert(cmp, x, s[1..])
  }

  /** The result of sorting s: for a comparator there is only one, see SortedUnique. */
  function SortBy<T>(cmp: (T, T) -> int, s: seq<T>): seq<T> {
    if s == [] then [] else Insert(cmp, s[0], SortBy(cmp, s[1..]))
  }

  lemma {:induction false} InsertAdds<T>(cmp: (T, T) -> int, x: T, s: seq<T>)
    ensures multiset(Insert(cmp, x, s)) == multiset{x} + multiset(s)
  {
    if s != [] && cmp(x, s[0]) > 0 {
      InsertAdds(cmp, x, s[1..]);
      assert s == [s[0]] + s[1..];
    }
  }

  lemma PrependSorted<T>(cmp: (T, T) -> int, x: T, s: seq<T>)
    requires Sorted(cmp, s) && forall y | y in s :: cmp(x, y) <= 0
    ensures Sorted(cmp, [x] + s)
  {
  }

  lemma InsertElements<T>(cmp: (T, T) -> int, x: T, s: seq<T>, y: T)
    requires y in Insert(cmp, x, s)
    ensures y == x || y in s
  {
    InsertAdds(cmp, x, s);
    assert y in multiset(Insert(cmp, x, s));
  }

  lemma {:induction false} InsertSorts<T(!new)>(cmp: (T, T) -> int, x: T, s: seq<T>)
    requires Comparator(cmp) && Sorted(cmp, s)
    ensures Sorted(cmp, Insert(cmp, x, s))
  {
    if s == [] {
    } else if cmp(x, s[0]) > 0 {
      InsertSorts(cmp, x, s[1..]);
      var rest := Insert(cmp, x, s[1..]);
      forall y | y in rest ensures cmp(s[0], y) <= 0 {
        InsertElements(cmp, x, s[1..], y);
        if y != x {
          SortedHeadIsLeast(cmp, s, y);
        }
      }
      PrependSorted(cmp, s[0], rest);
    } else {
      forall y | y in s ensures cmp(x, y) <= 0 {
        SortedHeadIsLeast(cmp, s, y);
      }
      PrependSorted(cmp, x, s);
    }
  }

  lemma {:induction false} SortByPermutes<T>(cmp: (T, T) -> int, s: seq<T>)
    ensures multiset(SortBy(cmp, s)) == multiset(s)
    ensures Elements(SortBy(cmp, s)) == Elements(s)
    ensures |SortBy(cmp, s)| == |s|
  {
    if s != [] {
      SortByPermutes(cmp, s[1..]);
      InsertAdds(cmp, s[0], SortBy(cmp, s[1..]));
      assert s == [s[0]] + s[1..];
    }
    SameMultisetSameElements(SortBy(cmp, s), s);
  }

  lemma {:induction false} SortBySorts<T(!new)>(cmp: (T, T) -> int, s: seq<T>)
    requires Comparator(cmp)
    ensures Sorted(cmp, SortBy(cmp, s))
  {
    if s != [] {
      SortBySorts(cmp, s[1..]);
      InsertSorts(cmp, s[0], SortBy(cmp, s[1..]));
    }
  }

  lemma SameMultisetSameElements<T>(a: seq<T>, b: seq<T>)
    requires multiset(a) == multiset(b)
    ensures Elements(a) == Elements(b) && |a| == |b|
  {
    assert |multiset(a)| == |multiset(b)|;
    forall x ensures x in a <==> x in b {
      assert x in a <==> x in multiset(a);
      assert x in b <==> x in multiset(b);
    }
  }

  lemma SortedHeadIsLeast<T(!new)>(cmp: (T, T) -> int, a: seq<T>, x: T)
    requires Comparator(cmp) && Sorted(cmp, a) && x in a
    ensures cmp(a[0], x) <= 0
  {
    var k :| 0 <= k < |a| && a[k] == x;
    assert k == 0 || cmp(a[0], a[k]) <= 0;
  }

  lemma SameMultisetSameTail<T>(a: seq<T>, b: seq<T>)
    requires a != [] && b != [] && a[0] == b[0] && multiset(a) == multiset(b)
    ensures multiset(a[1..]) == multiset(b[1..])
  {
    assert a == [a[0]] + a[1..] && b == [b[0]] + b[1..];
    assert multiset(a[1..]) == multiset(a) - multiset{a[0]};
    assert multiset(b[1..]) == multiset(b) - multiset{a[0]};
  }

  lemma SortedSameHead<T(!new)>(cmp: (T, T) -> int, a: seq<T>, b: seq<T>)
    requires Comparator(cmp) && Sorted(cmp, a) && Sorted(cmp, b)
    requires a != [] && b != [] && a[0] in b && b[0] in a
    ensures a[0] == b[0]
  {
    SortedHeadIsLeast(cmp, a, b[0]);
    SortedHeadIsLeast(cmp, b, a[0]);
  }

  lemma SameMultisetSameMember<T>(a: seq<T>, b: seq<T>)
    requires multiset(a) == multiset(b) && a != []
    ensures b != [] && a[0] in b
  {
    assert a[0] in multiset(b);
  }

  lemma SameHeadSameTail<T>(a: seq<T>, b: seq<T>)
    requires a != [] && b != [] && a[0] == b[0] && a[1..] == b[1..]
    ensures a == b
  {
    assert a == [a[0]] + a[1..] && b == [b[0]] + b[1..];
  }

  /** Two sorted lists with the same members, counted, are the same list. */
  lemma {:induction false} SortedUnique<T(!new)>(cmp: (T, T) -> int, a: seq<T>, b: seq<T>)
    requires Comparator(cmp) && Sorted(cmp, a) && Sorted(cmp, b)
    requires multiset(a) == multiset(b)
    ensures a == b
  {
    if a == [] {
      if b != [] {
        SameMultisetSameMember(b, a);
      }
    } else {
      SameMultisetSameMember(a, b);
      SameMultisetSameMember(b, a);
      SortedSameHead(cmp, a, b);
      SameMultisetSameTail(a, b);
      SortedUnique(cmp, a[1..], b[1..]);
      SameHeadSameTail(a, b);
    }
  }

  lemma TwiceInMultiset<T>(s: seq<T>, i: nat, j: nat)
    requires i < j < |s| && s[i] == s[j]
    ensures multiset(s)[s[i]] >= 2
  {
    assert s == s[..i] + [s[i]] + s[i + 1..j] + [s[j]] + s[j + 1..];
  }

  lemma {:induction false} DistinctOnce<T>(s: seq<T>, x: T)
    requires Distinct(s)
    ensures multiset(s)[x] <= 1
  {
    if s != [] {
      assert s == [s[0]] + s[1..];
      DistinctOnce(s[1..], x);
      if x == s[0] {
        assert x !in s[1..];
      }
    }
  }

  lemma PermutedDistinct<T>(s: seq<T>, t: seq<T>)
    requires Distinct(t) && multiset(s) == multiset(t)
    ensures Distinct(s)
  {
    forall i, j | 0 <= i < j < |s| ensures s[i] != s[j] {
      if s[i] == s[j] {
        TwiceInMultiset(s, i, j);
        DistinctOnce(t, s[i]);
      }
    }
  }

  /** Distinct elements are strictly increasing once they are sorted. */
  lemma SortByDistinct<T(!new)>(cmp: (T, T) -> int, s: seq<T>)
    requires Comparator(cmp) && Distinct(s)
    ensures StrictlyIncreasing(cmp, SortBy(cmp, s)) && Distinct(SortBy(cmp, s))
  {
    SortBySorts(cmp, s);
    SortByPermutes(cmp, s);
    PermutedDistinct(SortBy(cmp, s), s);
  }

  // Compaction

  /** slices.CompactFunc with equality: drops elements equal to their predecessor. */
  function Compact<T(==)>(s: seq<T>): seq<T> {
    if |s| <= 1 then s
    else if s[0] == s[1] then Compact(s[1..])
    else [s[0]] + Compact(s[1..])
  }

  lemma {:induction false} CompactElements<T>(s: seq<T>)
    ensures Elements(Compact(s)) == Elements(s)
    ensures s != [] ==> Compact(s) != [] && Compact(s)[0] == s[0]
  {
    if |s| > 1 {
      CompactElements(s[1..]);
      assert s == [s[0]] + s[1..];
      assert Elements(s) == {s[0]} + Elements(s[1..]);
      assert s[1] in Elements(s[1..]);
      if s[0] != s[1] {
        assert Elements(Compact(s)) == {s[0]} + Elements(Compact(s[1..]));
      }
    }
  }

  lemma {:induction false} CompactAppend<T>(s: seq<T>, x: T)
    requires s != []
    ensures Compact(s + [x]) == if s[|s| - 1] == x then Compact(s) else Compact(s) + [x]
  {
    assert (s + [x])[1..] == s[1..] + [x];
    if |s| > 1 {
      CompactAppend(s[1..], x);
    }
  }

  lemma {:induction false} CompactSorted<T(!new)>(cmp: (T, T) -> int, s: seq<T>)
    requires Comparator(cmp) && Sorted(cmp, s)
    ensures StrictlyIncreasing(cmp, Compact(s))
  {
    if |s| > 1 {
      CompactSorted(cmp, s[1..]);
      if s[0] != s[1] {
        forall y | y in Compact(s[1..]) ensures cmp(s[0], y) < 0 {
          CompactElements(s[1..]);
          assert y in Elements(s[1..]);
          SortedHeadIsLeast(cmp, s[1..], y);
          assert cmp(s[0], s[1]) <= 0;
        }
      }
    }
  }

  /** Sorting followed by compaction. */
  function Canonical<T(==)>(cmp: (T, T) -> int, s: seq<T>): seq<T> {
    Compact(SortBy(cmp, s))
  }

  lemma CanonicalProperties<T(!new)>(cmp: (T, T) -> int, s: seq<T>)
    requires Comparator(cmp)
    ensures StrictlyIncreasing(cmp, Canonical(cmp, s))
    ensures Elements(Canonical(cmp, s)) == Elements(s)
    ensures s == [] <==> Canonical(cmp, s) == []
  {
    SortBySorts(cmp, s);
    SortByPermutes(cmp, s);
    CompactElements(SortBy(cmp, s));
    CompactSorted(cmp, SortBy(cmp, s));
  }

  lemma {:induction false} IncreasingUnique<T(!new)>(cmp: (T, T) -> int, a: seq<T>, b: seq<T>)
    requires Comparator(cmp)
    requires StrictlyIncreasing(cmp, a) && StrictlyIncreasing(cmp, b)
    requires Elements(a) == Elements(b)
    ensures a == b
  {
    ElementsEmpty(a);
    ElementsEmpty(b);
    if a != [] {
      IncreasingSameHead(cmp, a, b);
      TailElements(cmp, a);
      TailElements(cmp, b);
      IncreasingUnique(cmp, a[1..], b[1..]);
      SameHeadSameTail(a, b);
    }
  }

  lemma IncreasingSameHead<T(!new)>(cmp: (T, T) -> int, a: seq<T>, b: seq<T>)
    requires Comparator(cmp) && StrictlyIncreasing(cmp, a) && StrictlyIncreasing(cmp, b)
    requires a != [] && b != [] && Elements(a) == Elements(b)
    ensures a[0] == b[0]
  {
    assert a[0] in Elements(a) && b[0] in Elements(b);
    assert Sorted(cmp, a) && Sorted(cmp, b);
    SortedSameHead(cmp, a, b);
  }

  lemma TailElements<T(!new)>(cmp: (T, T) -> int, a: seq<T>)
    requires Comparator(cmp) && StrictlyIncreasing(cmp, a) && a != []
    ensures Elements(a[1..]) == Elements(a) - {a[0]}
  {
    assert a == [a[0]] + a[1..];
    forall k | 1 <= k < |a| ensures a[k] != a[0] {
      assert cmp(a[0], a[k]) < 0;
    }
  }

  /** The canonical form depends on the set of elements only. */
  lemma CanonicalOfSameElements<T(!new)>(cmp: (T, T) -> int, a: seq<T>, b: seq<T>)
    requires Comparator(cmp) && Elements(a) == Elements(b)
    ensures Canonical(cmp, a) == Canonical(cmp, b)
  {
    CanonicalProperties(cmp, a);
    CanonicalProperties(cmp, b);
    IncreasingUnique(cmp, Canonical(cmp, a), Canonical(cmp, b));
  }

  // Runs

  /** The state after handling all inputs, oldest first. */
  function Fold<S, T>(next: (S, T) -> S, s: S, inputs: seq<T>): S {
    if inputs == [] then s else next(Fold(next, s, inputs[..|inputs| - 1]), inputs[|inputs| - 1])
  }

  lemma FoldSnoc<S, T>(next: (S, T) -> S, s: S, inputs: seq<T>, x: T)
    ensures Fold(next, s, inputs + [x]) == next(Fold(next, s, inputs), x)
  {
    assert (inputs + [x])[..|inputs|] == inputs;
  }

  lemma {:induction false} FoldConcat<S, T>(next: (S, T) -> S, s: S, a: seq<T>, b: seq<T>)
    ensures Fold(next, s, a + b) == Fold(next, Fold(next, s, a), b)
  {
    if b == [] {
      assert a + b == a;
    } else {
      var n := |b| - 1;
      FoldConcat(next, s, a, b[..n]);
      FoldSnoc(next, s, a + b[..n], b[n]);
      assert a + b == a + b[..n] + [b[n]];
    }
  }
}
