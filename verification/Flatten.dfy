/**
 Allowed topologies (pkg/controller/topology.go): an OR of selector terms, each an AND of
 expressions, each an OR of values for a key. flatten turns this into an OR of terms.
 */
module Flatten {
  import opened Orders
  import opened Segments

  datatype Expression = Expression(key: string, values: seq<string>)

  type SelectorTerm = seq<Expression>

  // What the API says

  predicate Allows(e: Expression, labels: map<string, string>) {
    e.key in labels && labels[e.key] in e.values
  }

  /** An empty selector term matches nothing. */
  predicate TermAllows(term: SelectorTerm, labels: map<string, string>) {
    term != [] && forall e | e in term :: Allows(e, labels)
  }

  predicate TopologiesAllow(allowed: seq<SelectorTerm>, labels: map<string, string>) {
    exists term :: term in allowed && TermAllows(term, labels)
  }

  // What the CSI driver gets

  predicate Contained(t: Segment, labels: map<string, string>) {
    forall e | e in t :: Carries(labels, e)
  }

  predicate SomeContained(terms: seq<Segment>, labels: map<string, string>) {
    exists t :: t in terms && Contained(t, labels)
  }

  // flatten

  /** One value distributed over the terms so far. */
  function Extended(prior: seq<Segment>, e: Entry): seq<Segment> {
    if prior == [] then [[e]] else seq(|prior|, i requires 0 <= i < |prior| => prior[i] + [e])
  }

  function Distributed(prior: seq<Segment>, key: string, values: seq<string>): seq<Segment> {
    if values == [] then []
    else Distributed(prior, key, values[..|values| - 1]) + Extended(prior, Entry(key, values[|values| - 1]))
  }

  function Product(term: SelectorTerm): seq<Segment> {
    if term == [] then []
    else Distributed(Product(term[..|term| - 1]), term[|term| - 1].key, term[|term| - 1].values)
  }

  function Products(allowed: seq<SelectorTerm>): seq<Segment> {
    if allowed == [] then [] else Products(allowed[..|allowed| - 1]) + Product(allowed[|allowed| - 1])
  }

  function SortTerm(t: Segment): Segment {
    SortBy(CompareEntries, t)
  }

  function Flattened(allowed: seq<SelectorTerm>): seq<Segment> {
    var terms := Products(allowed);
    seq(|terms|, i requires 0 <= i < |terms| => SortTerm(terms[i]))
  }

  method Flatten(allowed: seq<SelectorTerm>) returns (finalTerms: seq<Segment>)
    ensures finalTerms == Flattened(allowed)
  {
    finalTerms := [];
    for i := 0 to |allowed|
      invariant finalTerms == Products(allowed[..i])
    {
      var oldTerms: seq<Segment> := [];
      var selectorTerm := allowed[i];
      for j := 0 to |selectorTerm|
        invariant oldTerms == Product(selectorTerm[..j])
      {
        var newTerms := Distribute(oldTerms, selectorTerm[j]);
        assert selectorTerm[..j + 1][..j] == selectorTerm[..j];
        oldTerms := newTerms;
      }
      assert selectorTerm[..|selectorTerm|] == selectorTerm;
      assert allowed[..i + 1][..i] == allowed[..i];
      finalTerms := finalTerms + oldTerms;
    }
    assert allowed[..|allowed|] == allowed;
    ghost var products := finalTerms;
    for i := 0 to |finalTerms|
      invariant |finalTerms| == |products|
      invariant forall k | 0 <= k < i :: finalTerms[k] == SortTerm(products[k])
      invariant forall k | i <= k < |products| :: finalTerms[k] == products[k]
    {
      finalTerms := finalTerms[i := SortTerm(finalTerms[i])];
    }
  }

  /** The loop over the values of one expression. */
  method Distribute(oldTerms: seq<Segment>, e: Expression) returns (newTerms: seq<Segment>)
    ensures newTerms == Distributed(oldTerms, e.key, e.values)
  {
    newTerms := [];
    for k := 0 to |e.values|
      invariant newTerms == Distributed(oldTerms, e.key, e.values[..k])
    {
      var entry := Entry(e.key, e.values[k]);
      assert e.values[..k + 1][..k] == e.values[..k];
      if |oldTerms| == 0 {
        newTerms := newTerms + [[entry]];
      } else {
        ghost var before := newTerms;
        for m := 0 to |oldTerms|
          invariant newTerms == before + Extended(oldTerms, entry)[..m]
        {
          newTerms := newTerms + [oldTerms[m] + [entry]];
        }
        assert Extended(oldTerms, entry)[..|oldTerms|] == Extended(oldTerms, entry);
      }
    }
    assert e.values[..|e.values|] == e.values;
  }

  // Meaning

  predicate HasValues(term: SelectorTerm) {
    forall e | e in term :: e.values != []
  }

  lemma ExtendedContained(prior: seq<Segment>, e: Entry, labels: map<string, string>)
    ensures SomeContained(Extended(prior, e), labels) <==>
            Carries(labels, e) && (prior == [] || SomeContained(prior, labels))
  {
    var ext := Extended(prior, e);
    if prior == [] {
      assert ext[0] == [e];
      assert Contained([e], labels) <==> Carries(labels, e);
    } else {
      forall i | 0 <= i < |prior|
        ensures ext[i] == prior[i] + [e] &&
                (Contained(ext[i], labels) <==> Contained(prior[i], labels) && Carries(labels, e))
      {
        assert forall x :: x in ext[i] <==> x in prior[i] || x == e;
      }
      if SomeContained(prior, labels) && Carries(labels, e) {
        var t :| t in prior && Contained(t, labels);
        var i :| 0 <= i < |prior| && prior[i] == t;
        assert ext[i] in ext;
      }
      if SomeContained(ext, labels) {
        var t :| t in ext && Contained(t, labels);
        var i :| 0 <= i < |ext| && ext[i] == t;
        assert prior[i] in prior;
      }
    }
  }

  lemma SomeContainedConcat(a: seq<Segment>, b: seq<Segment>, labels: map<string, string>)
    ensures SomeContained(a + b, labels) <==> SomeContained(a, labels) || SomeContained(b, labels)
  {
    assert forall t :: t in a + b <==> t in a || t in b;
  }

  lemma {:induction false} DistributedContained(prior: seq<Segment>, e: Expression, labels: map<string, string>)
    ensures SomeContained(Distributed(prior, e.key, e.values), labels) <==>
            Allows(e, labels) && (prior == [] || SomeContained(prior, labels))
    decreases |e.values|
  {
    if e.values != [] {
      var n := |e.values| - 1;
      var rest := Expression(e.key, e.values[..n]);
      var entry := Entry(e.key, e.values[n]);
      DistributedContained(prior, rest, labels);
      ExtendedContained(prior, entry, labels);
      SomeContainedConcat(Distributed(prior, e.key, rest.values), Extended(prior, entry), labels);
      assert e.values == rest.values + [e.values[n]];
      assert Allows(e, labels) <==> Allows(rest, labels) || Carries(labels, entry);
    }
  }

  lemma {:induction false} DistributedSize(prior: seq<Segment>, key: string, values: seq<string>)
    ensures |Distributed(prior, key, values)| == |values| * if prior == [] then 1 else |prior|
  {
    if values != [] {
      var n := |values| - 1;
      var m := if prior == [] then 1 else |prior|;
      DistributedSize(prior, key, values[..n]);
      assert |Extended(prior, Entry(key, values[n]))| == m;
      assert (n + 1) * m == n * m + m;
    }
  }

  /** The product of the value counts. */
  function Choices(term: SelectorTerm): nat {
    if term == [] then 1 else Choices(term[..|term| - 1]) * |term[|term| - 1].values|
  }

  lemma {:induction false} ProductSize(term: SelectorTerm)
    requires HasValues(term)
    ensures |Product(term)| == if term == [] then 0 else Choices(term)
    ensures Choices(term) > 0
  {
    if term != [] {
      var n := |term| - 1;
      assert term == term[..n] + [term[n]];
      assert term[n] in term;
      ProductSize(term[..n]);
      DistributedSize(Product(term[..n]), term[n].key, term[n].values);
      PositiveProduct(Choices(term[..n]), |term[n].values|);
    }
  }

  lemma PositiveProduct(a: nat, b: nat)
    requires a > 0 && b > 0
    ensures a * b > 0 && a * b == b * a
  {
  }

  lemma {:induction false} ProductMeaning(term: SelectorTerm, labels: map<string, string>)
    requires HasValues(term)
    ensures SomeContained(Product(term), labels) <==> TermAllows(term, labels)
  {
    if term != [] {
      var n := |term| - 1;
      assert term == term[..n] + [term[n]];
      ProductMeaning(term[..n], labels);
      ProductSize(term[..n]);
      DistributedContained(Product(term[..n]), term[n], labels);
    }
  }

  lemma SortTermElements(t: Segment)
    ensures forall e :: e in SortTerm(t) <==> e in t
  {
    SortByPermutes(CompareEntries, t);
    forall e ensures e in SortTerm(t) <==> e in t {
      assert e in Elements(SortTerm(t)) <==> e in Elements(t);
    }
  }

  lemma SortedContained(terms: seq<Segment>, labels: map<string, string>)
    ensures SomeContained(seq(|terms|, i requires 0 <= i < |terms| => SortTerm(terms[i])), labels) <==>
            SomeContained(terms, labels)
  {
    var sorted := seq(|terms|, i requires 0 <= i < |terms| => SortTerm(terms[i]));
    forall i | 0 <= i < |terms| ensures Contained(sorted[i], labels) <==> Contained(terms[i], labels) {
      SortTermElements(terms[i]);
    }
    if SomeContained(terms, labels) {
      var t :| t in terms && Contained(t, labels);
      var i :| 0 <= i < |terms| && terms[i] == t;
      assert sorted[i] in sorted;
    }
    if SomeContained(sorted, labels) {
      var t :| t in sorted && Contained(t, labels);
      var i :| 0 <= i < |sorted| && sorted[i] == t;
      assert terms[i] in terms;
    }
  }

  function TotalChoices(allowed: seq<SelectorTerm>): nat {
    if allowed == [] then 0
    else
      var last := allowed[|allowed| - 1];
      TotalChoices(allowed[..|allowed| - 1]) + if last == [] then 0 else Choices(last)
  }

  /** One term for each choice of one value per expression. */
  lemma {:induction false} FlattenSize(allowed: seq<SelectorTerm>)
    requires forall term | term in allowed :: HasValues(term)
    ensures |Flattened(allowed)| == TotalChoices(allowed)
  {
    if allowed != [] {
      var n := |allowed| - 1;
      assert allowed == allowed[..n] + [allowed[n]];
      FlattenSize(allowed[..n]);
      assert allowed[n] in allowed;
      ProductSize(allowed[n]);
    }
  }

  // Expressions without values: flatten forgets everything before them

  lemma {:induction false} ProductRestarts(term: SelectorTerm, m: nat)
    requires m < |term| && term[m].values == []
    ensures Product(term) == Product(term[m + 1..])
  {
    var n := |term| - 1;
    if m == n {
      assert term[m + 1..] == [];
    } else {
      ProductRestarts(term[..n], m);
      assert term[..n][m + 1..] == term[m + 1..][..n - m - 1];
    }
  }

  /** Labels that pick the first value for each key. */
  function FirstChoice(term: SelectorTerm): map<string, string>
    requires HasValues(term)
  {
    if term == [] then map[]
    else
      var n := |term| - 1;
      assert term[n] in term;
      FirstChoice(term[..n])[term[n].key := term[n].values[0]]
  }

  lemma {:induction false} FirstChoiceAllowed(term: SelectorTerm)
    requires HasValues(term) && DistinctKeys(term)
    ensures forall e | e in term :: Allows(e, FirstChoice(term))
  {
    if term != [] {
      var n := |term| - 1;
      assert term[n] in term;
      FirstChoiceAllowed(term[..n]);
      forall e | e in term ensures Allows(e, FirstChoice(term)) {
        var i :| 0 <= i < |term| && term[i] == e;
        if i < n {
          assert e in term[..n];
          assert e.key != term[n].key;
        }
      }
    }
  }

  function LastEmpty(term: SelectorTerm): (m: nat)
    requires !HasValues(term)
    ensures m < |term| && term[m].values == [] && HasValues(term[m + 1..])
  {
    var n := |term| - 1;
    if term[n].values == [] then n
    else
      assert term == term[..n] + [term[n]];
      var m := LastEmpty(term[..n]);
      assert term[m + 1..] == term[..n][m + 1..] + [term[n]];
      m
  }

  /** An empty value list at the end leaves no terms, and nothing matches it. */
  lemma EmptyLast(term: SelectorTerm, labels: map<string, string>)
    requires term != [] && term[|term| - 1].values == []
    ensures !SomeContained(Product(term), labels) && !TermAllows(term, labels)
  {
    assert term[|term| - 1] in term;
  }

  /** An empty value list further ahead is forgotten, so that labels match which should not. */
  lemma RestartMatches(term: SelectorTerm) returns (labels: map<string, string>)
    requires DistinctKeys(term) && !HasValues(term) && term[|term| - 1].values != []
    ensures SomeContained(Product(term), labels) && !TermAllows(term, labels)
  {
    var m := LastEmpty(term);
    var rest := term[m + 1..];
    assert term[m] in term;
    ProductRestarts(term, m);
    labels := FirstChoice(rest);
    FirstChoiceAllowed(rest);
    ProductMeaning(rest, labels);
  }

  predicate Preserved(term: SelectorTerm, labels: map<string, string>) {
    SomeContained(Product(term), labels) <==> TermAllows(term, labels)
  }

  /**
   A selector term keeps its meaning exactly when all its expressions have values or the
   last one has none.
   */
  lemma FlattenTermExactly(term: SelectorTerm)
    requires DistinctKeys(term)
    ensures (forall labels :: Preserved(term, labels)) <==> (HasValues(term) || term[|term| - 1].values == [])
  {
    if HasValues(term) {
      forall labels ensures Preserved(term, labels) {
        ProductMeaning(term, labels);
      }
    } else if term[|term| - 1].values == [] {
      forall labels ensures Preserved(term, labels) {
        EmptyLast(term, labels);
      }
    } else {
      var labels := RestartMatches(term);
      assert !Preserved(term, labels);
    }
  }

  function ExpressionKey(e: Expression): string {
    e.key
  }

  /** API validation guarantees this for a selector term. */
  predicate DistinctKeys(term: SelectorTerm) {
    DistinctBy(ExpressionKey, term)
  }

  lemma PermutedDifferent(s: Segment, t: Segment, i: nat, j: nat)
    requires DistinctBy(EntryKey, t) && multiset(s) == multiset(t) && i < j < |s|
    ensures s[i].key != s[j].key
  {
    assert s[i] in multiset(s) && s[j] in multiset(s);
    var k :| 0 <= k < |t| && t[k] == s[i];
    var l :| 0 <= l < |t| && t[l] == s[j];
    if s[i] == s[j] {
      TwiceInMultiset(s, i, j);
      DistinctOnce(t, s[i]);
    }
  }

  lemma SortTermUnique(t: Segment)
    requires DistinctBy(EntryKey, t)
    ensures UniqueSortedKeys(SortTerm(t))
  {
    var s := SortTerm(t);
    CompareEntriesIsComparator();
    SortBySorts(CompareEntries, t);
    SortByPermutes(CompareEntries, t);
    forall i, j | 0 <= i < j < |s| ensures CompareStrings(s[i].key, s[j].key) < 0 {
      PermutedDifferent(s, t, i, j);
      LexZero(CompareChars, s[i].key, s[j].key);
    }
  }

  predicate KeysFrom(t: Segment, term: SelectorTerm) {
    forall e | e in t :: exists k :: 0 <= k < |term| && term[k].key == e.key
  }

  lemma {:induction false} DistributedKeys(
    prior: seq<Segment>, term: SelectorTerm, key: string, values: seq<string>, t: Segment)
    requires forall p | p in prior :: DistinctBy(EntryKey, p) && KeysFrom(p, term)
    requires forall k | 0 <= k < |term| :: term[k].key != key
    requires t in Distributed(prior, key, values)
    ensures DistinctBy(EntryKey, t)
    ensures forall e | e in t :: e.key == key || exists k :: 0 <= k < |term| && term[k].key == e.key
  {
    var n := |values| - 1;
    if t in Distributed(prior, key, values[..n]) {
      DistributedKeys(prior, term, key, values[..n], t);
    } else if prior != [] {
      var i :| 0 <= i < |prior| && t == prior[i] + [Entry(key, values[n])];
      assert prior[i] in prior;
    }
  }

  lemma {:induction false} ProductKeys(term: SelectorTerm, t: Segment)
    requires DistinctKeys(term) && t in Product(term)
    ensures DistinctBy(EntryKey, t) && KeysFrom(t, term)
  {
    var n := |term| - 1;
    forall p | p in Product(term[..n]) ensures DistinctBy(EntryKey, p) && KeysFrom(p, term[..n]) {
      ProductKeys(term[..n], p);
    }
    DistributedKeys(Product(term[..n]), term[..n], term[n].key, term[n].values, t);
    forall e | e in t ensures exists k :: 0 <= k < |term| && term[k].key == e.key {
      assert term[n].key == e.key || exists k :: 0 <= k < |term[..n]| && term[..n][k].key == e.key;
    }
  }

  lemma {:induction false} ProductsKeys(allowed: seq<SelectorTerm>, t: Segment)
    requires (forall term | term in allowed :: DistinctKeys(term)) && t in Products(allowed)
    ensures DistinctBy(EntryKey, t)
  {
    var n := |allowed| - 1;
    if t in Product(allowed[n]) {
      ProductKeys(allowed[n], t);
    } else {
      ProductsKeys(allowed[..n], t);
    }
  }

  lemma FlattenedUnique(allowed: seq<SelectorTerm>)
    requires forall term | term in allowed :: DistinctKeys(term)
    ensures forall t | t in Flattened(allowed) :: UniqueSortedKeys(t)
  {
    forall t | t in Flattened(allowed) ensures UniqueSortedKeys(t) {
      var i :| 0 <= i < |Products(allowed)| && t == SortTerm(Products(allowed)[i]);
      ProductsKeys(allowed, Products(allowed)[i]);
      SortTermUnique(Products(allowed)[i]);
    }
  }

  lemma {:induction false} DistributedNonEmpty(prior: seq<Segment>, key: string, values: seq<string>)
    ensures [] !in Distributed(prior, key, values)
  {
    if values != [] {
      DistributedNonEmpty(prior, key, values[..|values| - 1]);
    }
  }

  lemma {:induction false} ProductsNonEmpty(allowed: seq<SelectorTerm>)
    ensures [] !in Products(allowed)
  {
    if allowed != [] {
      var n := |allowed| - 1;
      var last := allowed[n];
      ProductsNonEmpty(allowed[..n]);
      if last != [] {
        DistributedNonEmpty(Product(last[..|last| - 1]), last[|last| - 1].key, last[|last| - 1].values);
      }
    }
  }

  /** No flattened term is empty. */
  lemma FlattenedNonEmpty(allowed: seq<SelectorTerm>)
    ensures [] !in Flattened(allowed)
  {
    ProductsNonEmpty(allowed);
    forall i | 0 <= i < |Products(allowed)| ensures SortTerm(Products(allowed)[i]) != [] {
      SortByPermutes(CompareEntries, Products(allowed)[i]);
    }
  }

  // The whole list

  /** What flatten leaves of a selector term: the expressions after the last one without values. */
  function Remaining(term: SelectorTerm): SelectorTerm {
    if HasValues(term) then term else term[LastEmpty(term) + 1..]
  }

  lemma ProductRemaining(term: SelectorTerm, labels: map<string, string>)
    ensures SomeContained(Product(term), labels) <==> TermAllows(Remaining(term), labels)
  {
    ProductMeaning(Remaining(term), labels);
    if !HasValues(term) {
      ProductRestarts(term, LastEmpty(term));
    }
  }

  /** A term that matches has values only, so nothing of it is forgotten. */
  lemma AllowedRemains(term: SelectorTerm, labels: map<string, string>)
    requires TermAllows(term, labels)
    ensures Remaining(term) == term
  {
    forall e | e in term ensures e.values != [] {
      assert Allows(e, labels);
    }
  }

  lemma {:induction false} ProductsRemaining(allowed: seq<SelectorTerm>, labels: map<string, string>)
    ensures SomeContained(Products(allowed), labels) <==>
            exists term :: term in allowed && TermAllows(Remaining(term), labels)
  {
    if allowed != [] {
      var n := |allowed| - 1;
      assert allowed == allowed[..n] + [allowed[n]];
      ProductsRemaining(allowed[..n], labels);
      ProductRemaining(allowed[n], labels);
      SomeContainedConcat(Products(allowed[..n]), Product(allowed[n]), labels);
    }
  }

  lemma FlattenedRemaining(allowed: seq<SelectorTerm>, labels: map<string, string>)
    ensures SomeContained(Flattened(allowed), labels) <==>
            exists term :: term in allowed && TermAllows(Remaining(term), labels)
  {
    SortedContained(Products(allowed), labels);
    ProductsRemaining(allowed, labels);
  }

  /** One value for each key of the term, and no other labels. */
  predicate Picks(term: SelectorTerm, labels: map<string, string>) {
    TermAllows(term, labels) && labels.Keys == set e | e in term :: e.key
  }

  /** Whatever values are picked for the rest of a term, some whole term allows them. */
  ghost predicate FlattensSoundly(allowed: seq<SelectorTerm>) {
    forall term, labels | term in allowed && Picks(Remaining(term), labels) :: TopologiesAllow(allowed, labels)
  }

  /** That is so if all expressions have values. */
  lemma ValuesFlattenSoundly(allowed: seq<SelectorTerm>)
    requires forall term | term in allowed :: HasValues(term)
    ensures FlattensSoundly(allowed)
  {
  }

  /** More labels allow no less. */
  lemma AllowedByPart(allowed: seq<SelectorTerm>, part: map<string, string>, labels: map<string, string>)
    requires TopologiesAllow(allowed, part)
    requires forall k | k in part :: k in labels && labels[k] == part[k]
    ensures TopologiesAllow(allowed, labels)
  {
    var term :| term in allowed && TermAllows(term, part);
    forall e | e in term ensures Allows(e, labels) {
      assert Allows(e, part);
    }
  }

  /** A term allows some labels because of a pick among them. */
  lemma PickedPart(term: SelectorTerm, labels: map<string, string>) returns (part: map<string, string>)
    requires TermAllows(term, labels)
    ensures Picks(term, part) && forall k | k in part :: k in labels && labels[k] == part[k]
  {
    var keys := set e | e in term :: e.key;
    part := map k | k in labels && k in keys :: labels[k];
    forall e | e in term ensures Allows(e, part) && e.key in labels {
      assert Allows(e, labels);
    }
    assert part.Keys == keys;
  }

  /**
   flatten and the meaning of allowed topologies, for every label map: nothing that is allowed
   gets lost, and nothing is added if the topologies flatten soundly.
   */
  lemma FlattenMeaning(allowed: seq<SelectorTerm>, labels: map<string, string>)
    ensures TopologiesAllow(allowed, labels) ==> SomeContained(Flattened(allowed), labels)
    ensures FlattensSoundly(allowed) && SomeContained(Flattened(allowed), labels) ==> TopologiesAllow(allowed, labels)
  {
    FlattenedRemaining(allowed, labels);
    if TopologiesAllow(allowed, labels) {
      var term :| term in allowed && TermAllows(term, labels);
      AllowedRemains(term, labels);
    } else if FlattensSoundly(allowed) && SomeContained(Flattened(allowed), labels) {
      var term :| term in allowed && TermAllows(Remaining(term), labels);
      var part := PickedPart(Remaining(term), labels);
      AllowedByPart(allowed, part, labels);
    }
  }

  predicate ListPreserved(allowed: seq<SelectorTerm>, labels: map<string, string>) {
    SomeContained(Flattened(allowed), labels) <==> TopologiesAllow(allowed, labels)
  }

  /** The meaning of a list is preserved for all label maps exactly if it flattens soundly. */
  lemma FlattenExactly(allowed: seq<SelectorTerm>)
    ensures (forall labels :: ListPreserved(allowed, labels)) <==> FlattensSoundly(allowed)
  {
    if FlattensSoundly(allowed) {
      forall labels ensures ListPreserved(allowed, labels) {
        FlattenMeaning(allowed, labels);
      }
    } else {
      var term, labels :| term in allowed && Picks(Remaining(term), labels) && !TopologiesAllow(allowed, labels);
      FlattenedRemaining(allowed, labels);
      assert !ListPreserved(allowed, labels);
    }
  }
}
