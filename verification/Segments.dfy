/**
 Topology segments (pkg/capacity/topology/topology.go) and topology terms
 (pkg/controller/topology.go): lists of key/value pairs, ANDed together.
 */
module Segments {
  import opened Orders

  datatype Entry = Entry(key: string, value: string)

  type Segment = seq<Entry>

  function EntryKey(e: Entry): string {
    e.key
  }

  /**
   A segment as the consumers see it: identified by its address, with content that never
   changes after construction.
   */
  class SegmentPtr {
    const entries: Segment

    constructor (entries: Segment)
      ensures this.entries == entries
    {
      this.entries := entries;
    }
  }

  function CompareEntries(a: Entry, b: Entry): int {
    var r := CompareStrings(a.key, b.key);
    if r != 0 then r else CompareStrings(a.value, b.value)
  }

  /** Shorter lists first, then entry by entry. */
  function CompareSegments(a: Segment, b: Segment): int {
    if |a| != |b| then |a| - |b| else Lex(CompareEntries, a, b)
  }

  lemma CompareEntriesIsComparator()
    ensures Comparator(CompareEntries)
  {
    CompareStringsIsComparator();
    forall a, b, c | CompareEntries(a, b) <= 0 && CompareEntries(b, c) <= 0
      ensures CompareEntries(a, c) <= 0
    {
      assert CompareStrings(a.key, b.key) <= 0 && CompareStrings(b.key, c.key) <= 0;
      assert CompareStrings(a.key, c.key) <= 0;
      if CompareStrings(a.key, c.key) == 0 {
        assert CompareStrings(b.key, a.key) <= 0;
        assert a.key == b.key;
      }
    }
  }

  /** The order is total and a comparison of zero means equal content. */
  lemma CompareSegmentsIsComparator()
    ensures Comparator(CompareSegments)
  {
    CompareEntriesIsComparator();
    forall a, b
      ensures CompareSegments(a, b) == 0 <==> a == b
      ensures CompareSegments(a, b) < 0 <==> CompareSegments(b, a) > 0
    {
      LexZero(CompareEntries, a, b);
      LexSwap(CompareEntries, a, b);
    }
    forall a, b, c | CompareSegments(a, b) <= 0 && CompareSegments(b, c) <= 0
      ensures CompareSegments(a, c) <= 0
    {
      if |a| == |b| == |c| {
        LexTransitive(CompareEntries, a, b, c);
      }
    }
  }

  predicate StringBefore(s: string, t: string, i: nat) {
    i <= |s| && i < |t| && s[..i] == t[..i] && (i == |s| || s[i] < t[i])
  }

  lemma StringOrder(s: string, t: string)
    ensures CompareStrings(s, t) < 0 <==> exists i: nat :: StringBefore(s, t, i)
  {
    LexMeaning(CompareChars, s, t);
    forall i: nat ensures LessAt(CompareChars, s, t, i) <==> StringBefore(s, t, i) {
    }
  }

  /** The first entry that differs has the smaller key, or the same key and the smaller value. */
  ghost predicate EntriesBefore(a: Segment, b: Segment, i: nat) {
    && i < |a| == |b| && a[..i] == b[..i]
    && if a[i].key != b[i].key then exists k: nat :: StringBefore(a[i].key, b[i].key, k)
       else exists k: nat :: StringBefore(a[i].value, b[i].value, k)
  }

  lemma EntryOrder(a: Segment, b: Segment, i: nat)
    requires |a| == |b|
    ensures LessAt(CompareEntries, a, b, i) <==> EntriesBefore(a, b, i)
  {
    if i < |a| {
      CompareStringsIsComparator();
      StringOrder(a[i].key, b[i].key);
      StringOrder(a[i].value, b[i].value);
    }
  }

  /** Segments are ordered by length, and then by the first entry that differs. */
  lemma SegmentOrder(a: Segment, b: Segment)
    ensures CompareSegments(a, b) < 0 <==> |a| < |b| || exists i: nat :: EntriesBefore(a, b, i)
  {
    if |a| == |b| {
      CompareEntriesIsComparator();
      LexMeaning(CompareEntries, a, b);
      forall i: nat ensures LessAt(CompareEntries, a, b, i) <==> EntriesBefore(a, b, i) {
        EntryOrder(a, b, i);
      }
    }
  }

  lemma CompareSegmentsZero(a: Segment, b: Segment)
    ensures CompareSegments(a, b) == 0 <==> a == b
  {
    CompareEntriesIsComparator();
    LexZero(CompareEntries, a, b);
  }

  /** Entries sorted by key, each key once. */
  predicate UniqueSortedKeys(s: Segment) {
    forall i, j | 0 <= i < j < |s| :: CompareStrings(s[i].key, s[j].key) < 0
  }

  /** Segment.GetLabelMap: later entries overwrite earlier ones. */
  function LabelMap(s: Segment): map<string, string> {
    if s == [] then map[] else LabelMap(s[..|s| - 1])[s[|s| - 1].key := s[|s| - 1].value]
  }

  method GetLabelMap(s: Segment) returns (labels: map<string, string>)
    ensures labels == LabelMap(s)
  {
    labels := map[];
    for i := 0 to |s|
      invariant labels == LabelMap(s[..i])
    {
      assert s[..i + 1][..i] == s[..i];
      labels := labels[s[i].key := s[i].value];
    }
    assert s[..|s|] == s;
  }

  predicate Carries(labels: map<string, string>, e: Entry) {
    e.key in labels && labels[e.key] == e.value
  }

  lemma KeysDiffer(s: Segment)
    requires UniqueSortedKeys(s)
    ensures DistinctBy(EntryKey, s)
  {
    forall i, j | 0 <= i < j < |s| ensures s[i].key != s[j].key {
      assert CompareStrings(s[i].key, s[j].key) < 0;
      LexZero(CompareChars, s[i].key, s[j].key);
    }
  }

  function Keys(s: Segment): set<string> {
    set e | e in s :: e.key
  }

  lemma {:induction false} LabelMapKeys(s: Segment)
    ensures LabelMap(s).Keys == Keys(s)
  {
    if s != [] {
      var n := |s| - 1;
      LabelMapKeys(s[..n]);
      assert s == s[..n] + [s[n]];
      assert Keys(s) == Keys(s[..n]) + {s[n].key};
    }
  }

  /** Of entries with the same key the last one counts. */
  lemma {:induction false} LabelMapLast(s: Segment, i: nat)
    requires i < |s| && forall j | i < j < |s| :: s[j].key != s[i].key
    ensures Carries(LabelMap(s), s[i])
  {
    var n := |s| - 1;
    if i < n {
      LabelMapLast(s[..n], i);
    }
  }

  /** With sorted, unique keys the label map holds exactly the entries. */
  lemma {:induction false} LabelMapCarries(s: Segment, e: Entry)
    requires UniqueSortedKeys(s)
    ensures Carries(LabelMap(s), e) <==> e in s
  {
    if s != [] {
      var n := |s| - 1;
      LabelMapCarries(s[..n], e);
      assert s == s[..n] + [s[n]];
      KeysDiffer(s);
    }
  }

  /** The labels with these keys. */
  function Restricted(labels: map<string, string>, keys: seq<string>): map<string, string> {
    map k | k in labels && k in keys :: labels[k]
  }

  /** Entries that are all taken from a label map, in any order, are that map restricted to their keys. */
  lemma {:induction false} LabelMapTaken(s: Segment, labels: map<string, string>)
    requires forall e | e in s :: Carries(labels, e)
    ensures LabelMap(s) == map k | k in labels && k in Keys(s) :: labels[k]
  {
    if s != [] {
      var n := |s| - 1;
      LabelMapTaken(s[..n], labels);
      assert s == s[..n] + [s[n]];
      assert Keys(s) == Keys(s[..n]) + {s[n].key};
    }
  }

  lemma UniqueKeysIncreasing(s: Segment)
    requires UniqueSortedKeys(s)
    ensures StrictlyIncreasing(CompareEntries, s)
  {
  }

  /** Segments with sorted, unique keys are determined by their label map. */
  lemma LabelMapInjective(a: Segment, b: Segment)
    requires UniqueSortedKeys(a) && UniqueSortedKeys(b)
    requires LabelMap(a) == LabelMap(b)
    ensures a == b
  {
    forall e ensures e in a <==> e in b {
      LabelMapCarries(a, e);
      LabelMapCarries(b, e);
    }
    UniqueKeysIncreasing(a);
    UniqueKeysIncreasing(b);
    CompareEntriesIsComparator();
    IncreasingUnique(CompareEntries, a, b);
  }
}
