/**
 What GenerateAccessibilityRequirements does in place to its slice of terms
 (pkg/controller/topology.go): sort, compact, rotate. A slice is an array with a length; the
 array may be longer, which is the capacity. The terms themselves are slices, too.
 */
module TermSlices {
  import opened Orders
  import opened Segments
  import opened Requirements

  /** The content of a slice of terms. */
  ghost function Terms(refs: seq<array<Entry>>): (r: seq<Segment>)
    reads refs
    ensures |r| == |refs| && forall i | 0 <= i < |refs| :: r[i] == refs[i][..]
  {
    seq(|refs|, i requires 0 <= i < |refs| reads refs => refs[i][..])
  }

  // Sorting

  /** The terms in the array from that index on. */
  ghost predicate Shows(a: array<array<Entry>>, lo: nat, terms: seq<Segment>)
    reads a, a[..]
  {
    lo + |terms| <= a.Length && forall j | lo <= j < lo + |terms| :: a[j][..] == terms[j - lo]
  }

  lemma TermsShown(a: array<array<Entry>>, lo: nat, hi: nat)
    requires lo <= hi <= a.Length
    ensures Shows(a, lo, Terms(a[lo..hi]))
  {
  }

  lemma ShownTerms(a: array<array<Entry>>, lo: nat, terms: seq<Segment>)
    requires Shows(a, lo, terms)
    ensures Terms(a[lo..lo + |terms|]) == terms
  {
  }

  lemma ShowsCons(a: array<array<Entry>>, i: nat, rest: seq<Segment>)
    requires Shows(a, i + 1, rest)
    ensures Shows(a, i, [a[i][..]] + rest)
  {
  }

  lemma ShowsTail(a: array<array<Entry>>, i: nat, terms: seq<Segment>)
    requires Shows(a, i, terms) && terms != []
    ensures a[i][..] == terms[0] && Shows(a, i + 1, terms[1..])
  {
  }

  method Swap(a: array<array<Entry>>, i: nat)
    requires i + 1 < a.Length
    modifies a
    ensures a[i] == old(a[i + 1]) && a[i + 1] == old(a[i])
    ensures forall k | 0 <= k < a.Length && k != i && k != i + 1 :: a[k] == old(a[k])
    ensures forall k | 0 <= k < a.Length :: a[k][..] == old(a[k][..]) || k == i || k == i + 1
    ensures a[i][..] == old(a[i + 1][..]) && a[i + 1][..] == old(a[i][..])
  {
    a[i], a[i + 1] := a[i + 1], a[i];
  }

  /** Moves a[i] into the sorted rest of the slice. */
  method InsertTerm(a: array<array<Entry>>, i: nat, ghost rest: seq<Segment>, n: nat)
    requires Shows(a, i + 1, rest) && n == i + 1 + |rest|
    modifies a
    ensures forall k | 0 <= k < i || n <= k < a.Length :: a[k] == old(a[k]) && a[k][..] == old(a[k][..])
    ensures |Insert(CompareSegments, old(a[i][..]), rest)| == n - i
    ensures Shows(a, i, Insert(CompareSegments, old(a[i][..]), rest))
    decreases n - i
  {
    ghost var x := a[i][..];
    if i + 1 < n {
      ShowsTail(a, i + 1, rest);
      if CompareSegments(a[i][..], a[i + 1][..]) > 0 {
        Swap(a, i);
        InsertTerm(a, i + 1, rest[1..], n);
        ShowsCons(a, i, Insert(CompareSegments, x, rest[1..]));
        return;
      }
    }
    ShowsCons(a, i, rest);
  }

  /** slices.SortFunc with topologyTerm.compare; the result is the only sorted permutation. */
  method SortTerms(a: array<array<Entry>>, n: nat)
    requires n <= a.Length
    modifies a
    ensures a[n..] == old(a[n..])
    ensures Terms(a[..n]) == SortBy(CompareSegments, old(Terms(a[..n])))
  {
    ghost var c := Terms(a[..n]);
    var i := n;
    while i > 0
      invariant 0 <= i <= n
      invariant forall k | 0 <= k < i || n <= k < a.Length :: a[k] == old(a[k]) && a[k][..] == old(a[k][..])
      invariant |SortBy(CompareSegments, c[i..])| == n - i && Shows(a, i, SortBy(CompareSegments, c[i..]))
    {
      i := i - 1;
      SortNext(c, i);
      InsertTerm(a, i, SortBy(CompareSegments, c[i + 1..]), n);
    }
    assert c[0..] == c && a[0..n] == a[..n];
    ShownTerms(a, 0, SortBy(CompareSegments, c));
  }

  lemma SortNext(c: seq<Segment>, i: nat)
    requires i < |c|
    ensures SortBy(CompareSegments, c[i..]) == Insert(CompareSegments, c[i], SortBy(CompareSegments, c[i + 1..]))
  {
    assert c[i..][0] == c[i] && c[i..][1..] == c[i + 1..];
  }

  // Compaction

  /** Compaction of the first m terms, seen from the end. */
  function CompactUpTo(c: seq<Segment>, m: nat): seq<Segment>
    requires m <= |c|
  {
    if m == 0 then []
    else if m > 1 && c[m - 1] == c[m - 2] then CompactUpTo(c, m - 1)
    else CompactUpTo(c, m - 1) + [c[m - 1]]
  }

  lemma {:induction false} CompactUpToIsCompact(c: seq<Segment>, m: nat)
    requires m <= |c|
    ensures CompactUpTo(c, m) == Compact(c[..m])
  {
    if m > 0 {
      CompactUpToIsCompact(c, m - 1);
      assert c[..m] == c[..m - 1] + [c[m - 1]];
      if m > 1 {
        CompactAppend(c[..m - 1], c[m - 1]);
      }
    }
  }

  method FirstRepetition(a: array<array<Entry>>, ghost c: seq<Segment>, n: nat) returns (k: nat)
    requires 0 < n == |c| && Shows(a, 0, c)
    ensures 0 < k <= n && (k < n ==> c[k] == c[k - 1])
    ensures CompactUpTo(c, k) == c[..k]
  {
    k := 1;
    while k < n && a[k][..] != a[k - 1][..]
      invariant 1 <= k <= n
      invariant CompactUpTo(c, k) == c[..k]
    {
      k := k + 1;
    }
  }

  /** Half-way: the first m terms are compacted to k, and the others are still in their places. */
  ghost predicate Compacting(a: array<array<Entry>>, c: seq<Segment>, m: nat, k: nat)
    reads a, a[..]
  {
    && 0 < m <= |c| <= a.Length && k < m
    && |CompactUpTo(c, m)| == k && Shows(a, 0, CompactUpTo(c, m))
    && forall j | m - 1 <= j < |c| :: a[j][..] == c[j]
  }

  lemma CompactingStarts(a: array<array<Entry>>, c: seq<Segment>, first: nat)
    requires 0 < first < |c| && Shows(a, 0, c) && c[first] == c[first - 1] && CompactUpTo(c, first) == c[..first]
    ensures Compacting(a, c, first + 1, first)
  {
  }

  /** The part of slices.CompactFunc that starts with the first repetition. */
  method MoveDistinct(a: array<array<Entry>>, ghost c: seq<Segment>, n: nat, first: nat) returns (k: nat)
    requires 0 < first < n == |c| && Shows(a, 0, c) && c[first] == c[first - 1] && CompactUpTo(c, first) == c[..first]
    modifies a
    ensures Compacting(a, c, n, k) && forall j | n <= j < a.Length :: a[j] == old(a[j])
  {
    CompactingStarts(a, c, first);
    k := first;
    for m := first + 1 to n
      invariant Compacting(a, c, m, k) && forall j | n <= j < a.Length :: a[j] == old(a[j])
    {
      k := MoveOne(a, c, m, k);
    }
  }

  /** Appends a[m] to the terms that stay, unless it repeats its predecessor. */
  method MoveOne(a: array<array<Entry>>, ghost c: seq<Segment>, m: nat, k: nat) returns (k': nat)
    requires m < |c| && Compacting(a, c, m, k)
    modifies a
    ensures Compacting(a, c, m + 1, k') && forall j | m <= j < a.Length :: a[j] == old(a[j])
  {
    k' := k;
    if a[m][..] != a[m - 1][..] {
      a[k] := a[m];
      k' := k + 1;
    }
  }

  /** clear(s[k:]): nil is an empty term. */
  method Clear(a: array<array<Entry>>, k: nat, n: nat, ghost kept: seq<Segment>)
    requires |kept| == k <= n <= a.Length && Shows(a, 0, kept)
    modifies a
    ensures forall j | n <= j < a.Length :: a[j] == old(a[j])
    ensures Shows(a, 0, kept)
    ensures forall j | k <= j < n :: a[j][..] == []
  {
    var none := new Entry[0];
    for m := k to n
      invariant forall j | 0 <= j < k || n <= j < a.Length :: a[j] == old(a[j])
      invariant forall j | k <= j < m :: a[j] == none
    {
      a[m] := none;
    }
  }

  /** slices.CompactFunc with slices.Equal: moves terms to the front and clears the tail. */
  method CompactTerms(a: array<array<Entry>>, n: nat) returns (k: nat)
    requires n <= a.Length
    modifies a
    ensures k <= n && forall j | n <= j < a.Length :: a[j] == old(a[j])
    ensures Terms(a[..k]) == Compact(old(Terms(a[..n])))
    ensures forall j | k <= j < n :: a[j][..] == []
  {
    if n < 2 {
      return n;
    }
    ghost var c := Terms(a[..n]);
    assert a[0..n] == a[..n];
    TermsShown(a, 0, n);
    k := CompactShown(a, c, n);
    ShownTerms(a, 0, Compact(c));
    assert a[0..k] == a[..k];
  }

  lemma CompactAll(c: seq<Segment>)
    ensures CompactUpTo(c, |c|) == Compact(c)
  {
    CompactUpToIsCompact(c, |c|);
    assert c[..|c|] == c;
  }

  method CompactShown(a: array<array<Entry>>, ghost c: seq<Segment>, n: nat) returns (k: nat)
    requires 0 < n == |c| && Shows(a, 0, c)
    modifies a
    ensures |Compact(c)| == k <= n && Shows(a, 0, Compact(c))
    ensures forall j | n <= j < a.Length :: a[j] == old(a[j])
    ensures forall j | k <= j < n :: a[j][..] == []
  {
    CompactAll(c);
    k := FirstRepetition(a, c, n);
    if k < n {
      k := MoveDistinct(a, c, n, k);
      Clear(a, k, n, Compact(c));
    } else {
      assert c[..n] == c;
    }
  }

  /** SortFunc and CompactFunc together. */
  method CanonicalTerms(a: array<array<Entry>>, n: nat) returns (k: nat)
    requires n <= a.Length
    modifies a
    ensures k <= n && Terms(a[..k]) == Requisite(old(Terms(a[..n])))
  {
    SortTerms(a, n);
    k := CompactTerms(a, n);
  }

  // Rotation

  /** A new array with the terms from a[i] to a[n], and room for the others. */
  method Grown(a: array<array<Entry>>, n: nat, i: nat) returns (b: array<array<Entry>>)
    requires i < n <= a.Length
    ensures fresh(b) && b.Length == n && b[..n - i] == a[i..n]
  {
    var none := new Entry[0];
    b := new array<Entry>[n](_ => none);
    for j := 0 to n - i
      invariant b[..j] == a[i..i + j]
    {
      b[j] := a[i + j];
    }
  }

  /** Copies a[:i] behind the n - i terms that start at b[lo]. */
  method AppendTerms(a: array<array<Entry>>, n: nat, i: nat, b: array<array<Entry>>, lo: nat)
    requires i < n <= a.Length && lo + n <= b.Length && (a == b ==> lo == i)
    modifies b
    ensures forall m | 0 <= m < n :: a[m] == old(a[m])
    ensures forall m | lo <= m < lo + n - i :: b[m] == old(b[m])
    ensures forall m | 0 <= m < i :: b[lo + n - i + m] == old(a[m])
  {
    for j := 0 to i
      invariant forall m | 0 <= m < n :: a[m] == old(a[m])
      invariant forall m | lo <= m < lo + n - i :: b[m] == old(b[m])
      invariant forall m | 0 <= m < j :: b[lo + n - i + m] == old(a[m])
    {
      b[lo + n - i + j] := a[j];
    }
  }

  /** append with enough capacity: writes behind a[n]. */
  method RotateInPlace(a: array<array<Entry>>, n: nat, i: nat)
    requires i < n && n + i <= a.Length
    modifies a
    ensures a[..n] == old(a[..n]) && a[i..i + n] == old(a[i..n] + a[..i])
  {
    AppendTerms(a, n, i, a, i);
  }

  /** append without enough capacity: a new array. */
  method RotateCopy(a: array<array<Entry>>, n: nat, i: nat) returns (b: array<array<Entry>>)
    requires i < n <= a.Length
    ensures fresh(b) && b.Length == n && b[..] == a[i..n] + a[..i]
  {
    b := Grown(a, n, i);
    ghost var kept := b[..n - i];
    AppendTerms(a, n, i, b, 0);
    assert b[..n - i] == kept;
  }

  lemma RotatedTerms(refs: seq<array<Entry>>, i: nat)
    requires i <= |refs|
    ensures Terms(refs[i..] + refs[..i]) == Rotated(Terms(refs), i)
  {
  }

  /**
   append(a[i:n], a[:i]...): uses the capacity behind a[n] if there is enough, and then writes
   there, otherwise a new array. The slice itself stays as it is in both cases.
   */
  method Rotate(a: array<array<Entry>>, n: nat, i: nat) returns (b: array<array<Entry>>, lo: nat)
    requires i < n <= a.Length
    modifies a
    ensures a[..n] == old(a[..n])
    ensures b == a || fresh(b)
    ensures lo + n <= b.Length && Terms(b[lo..lo + n]) == Rotated(old(Terms(a[..n])), i)
  {
    ghost var refs := a[..n];
    ghost var c := Terms(refs);
    assert refs[i..] == a[i..n] && refs[..i] == a[..i];
    if n + i <= a.Length {
      RotateInPlace(a, n, i);
      b, lo := a, i;
    } else {
      b := RotateCopy(a, n, i);
      lo := 0;
      assert b[0..0 + n] == b[..];
    }
    assert b[lo..lo + n] == refs[i..] + refs[..i];
    assert Terms(refs) == c;
    RotatedTerms(refs, i);
  }

  // Conversion

  /** One map of segments per term that is not empty. */
  function Topologies(terms: seq<Segment>): seq<map<string, string>> {
    if terms == [] then []
    else
      var before := Topologies(terms[..|terms| - 1]);
      var last := terms[|terms| - 1];
      if last == [] then before else before + [LabelMap(last)]
  }

  lemma {:induction false} TopologiesOfNonEmpty(terms: seq<Segment>)
    requires [] !in terms
    ensures |Topologies(terms)| == |terms| && forall i | 0 <= i < |terms| :: Topologies(terms)[i] == LabelMap(terms[i])
  {
    if terms != [] {
      TopologiesOfNonEmpty(terms[..|terms| - 1]);
    }
  }

  /** Empty terms are left out, and nothing else. */
  lemma {:induction false} TopologiesMembers(terms: seq<Segment>, topology: map<string, string>)
    ensures topology in Topologies(terms) <==> exists t :: t in terms && t != [] && LabelMap(t) == topology
  {
    if terms != [] {
      var n := |terms| - 1;
      TopologiesMembers(terms[..n], topology);
      assert terms == terms[..n] + [terms[n]];
      assert terms[n] in terms;
    }
  }

  method ToCSITopology(a: array<array<Entry>>, lo: nat, n: nat) returns (out: seq<map<string, string>>)
    requires lo + n <= a.Length
    ensures out == Topologies(old(Terms(a[lo..lo + n])))
  {
    ghost var c := Terms(a[lo..lo + n]);
    out := [];
    for i := 0 to n
      invariant out == Topologies(c[..i])
    {
      assert c[..i + 1][..i] == c[..i];
      var term := a[lo + i];
      assert c[i] == term[..];
      if term.Length == 0 {
        continue;
      }
      var segments := GetLabelMap(term[..]);
      out := out + [segments];
    }
    assert c[..n] == c;
  }

  // Construction

  method NewTerm(t: Segment) returns (term: array<Entry>)
    ensures fresh(term) && term[..] == t
  {
    term := new Entry[|t|](i requires 0 <= i < |t| => t[i]);
  }

  /** A slice with these terms, and any capacity, as appending leaves it. */
  method NewTerms(terms: seq<Segment>) returns (a: array<array<Entry>>)
    ensures fresh(a) && |terms| <= a.Length && Terms(a[..|terms|]) == terms
    ensures forall i | 0 <= i < |terms| :: fresh(a[i])
  {
    var spare :| 0 <= spare;
    var none := new Entry[0];
    a := new array<Entry>[|terms| + spare](_ => none);
    for i := 0 to |terms|
      invariant forall k | 0 <= k < i :: fresh(a[k]) && a[k][..] == terms[k]
    {
      var term := NewTerm(terms[i]);
      a[i] := term;
    }
  }
}
