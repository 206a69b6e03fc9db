/**
 From the accessible topologies of a volume to its node affinity (pkg/controller/topology.go)
 and back to the capacity objects that need a refresh (pkg/capacity/capacity.go).
 */
module VolumeAffinity {
  import opened Orders
  import opened Segments
  import opened Flatten
  import opened CapacityModel
  import opened CapacityController

  datatype Operator = In | NotIn | Exists | DoesNotExist | Gt | Lt

  datatype Match = Match(key: string, operator: Operator, values: seq<string>)

  datatype NodeSelectorTerm = NodeSelectorTerm(matchFields: seq<Match>, matchExpressions: seq<Match>)

  /** The terms of VolumeNodeAffinity.Required; None if they are nil. */
  type Affinity = Option<seq<NodeSelectorTerm>>

  // Generating

  predicate ExpressesEntry(e: Match, labels: map<string, string>) {
    e.operator == In && |e.values| == 1 && Carries(labels, Entry(e.key, e.values[0]))
  }

  function MatchKey(e: Match): string {
    e.key
  }

  /** One "key in (value)" per pair of the map, in any order. */
  predicate Expresses(expressions: seq<Match>, labels: map<string, string>) {
    && DistinctBy(MatchKey, expressions)
    && (forall e | e in expressions :: ExpressesEntry(e, labels))
    && (forall k | k in labels :: Match(k, In, [labels[k]]) in expressions)
  }

  /** A term that describes one topology. */
  predicate Describes(term: NodeSelectorTerm, labels: map<string, string>) {
    term.matchFields == [] && Expresses(term.matchExpressions, labels)
  }

  function NonEmpty(topologies: seq<map<string, string>>): seq<map<string, string>> {
    if topologies == [] then []
    else
      var n := |topologies| - 1;
      if topologies[n] == map[] then NonEmpty(topologies[..n]) else NonEmpty(topologies[..n]) + [topologies[n]]
  }

  /** The terms describe the non-empty topologies, one by one. */
  predicate Generated(topologies: seq<map<string, string>>, terms: seq<NodeSelectorTerm>) {
    && |terms| == |NonEmpty(topologies)|
    && forall i | 0 <= i < |terms| :: Describes(terms[i], NonEmpty(topologies)[i])
  }

  /** The inner loop, over a map: any order. */
  method Expressions(labels: map<string, string>) returns (expressions: seq<Match>)
    ensures Expresses(expressions, labels)
  {
    expressions := [];
    var todo := labels.Keys;
    while todo != {}
      invariant todo <= labels.Keys && DistinctBy(MatchKey, expressions)
      invariant forall e | e in expressions :: ExpressesEntry(e, labels) && e.key !in todo
      invariant forall k | k in labels.Keys - todo :: Match(k, In, [labels[k]]) in expressions
      decreases todo
    {
      var k :| k in todo;
      expressions := expressions + [Match(k, In, [labels[k]])];
      todo := todo - {k};
    }
  }

  /** GenerateVolumeNodeAffinity; the outer option is for the nil result. */
  method GenerateVolumeNodeAffinity(accessibleTopology: seq<map<string, string>>) returns (affinity: Option<Affinity>)
    ensures affinity.None? <==> accessibleTopology == []
    ensures affinity.Some? ==> (affinity.value.None? <==> NonEmpty(accessibleTopology) == [])
    ensures affinity.Some? ==> Generated(accessibleTopology, if affinity.value.Some? then affinity.value.value else [])
  {
    if |accessibleTopology| == 0 {
      return None;
    }
    var terms: seq<NodeSelectorTerm> := [];
    for i := 0 to |accessibleTopology|
      invariant Generated(accessibleTopology[..i], terms)
    {
      assert accessibleTopology[..i + 1][..i] == accessibleTopology[..i];
      if |accessibleTopology[i]| == 0 {
        continue;
      }
      var expressions := Expressions(accessibleTopology[i]);
      terms := terms + [NodeSelectorTerm([], expressions)];
    }
    assert accessibleTopology[..|accessibleTopology|] == accessibleTopology;
    return Some(if terms == [] then None else Some(terms));
  }

  // Meaning

  /** How the scheduler matches a node against a term with In expressions only; no expressions match nothing. */
  predicate NodeMatches(term: NodeSelectorTerm, node: map<string, string>) {
    && term.matchFields == [] && term.matchExpressions != []
    && forall e | e in term.matchExpressions :: e.operator == In && e.key in node && node[e.key] in e.values
  }

  predicate HasLabels(node: map<string, string>, labels: map<string, string>) {
    forall k | k in labels :: k in node && node[k] == labels[k]
  }

  lemma DescribedMatches(term: NodeSelectorTerm, labels: map<string, string>, node: map<string, string>)
    requires Describes(term, labels)
    ensures NodeMatches(term, node) <==> labels != map[] && HasLabels(node, labels)
  {
    if term.matchExpressions != [] {
      assert ExpressesEntry(term.matchExpressions[0], labels);
    }
    forall e | e in term.matchExpressions ensures e == Match(e.key, In, [labels[e.key]]) {
      assert ExpressesEntry(e, labels);
    }
  }

  /** The volume can be used on exactly the nodes that have the labels of one of its topologies. */
  lemma AffinityMeaning(
    topologies: seq<map<string, string>>, terms: seq<NodeSelectorTerm>, node: map<string, string>)
    requires Generated(topologies, terms)
    ensures (exists term :: term in terms && NodeMatches(term, node)) <==>
            exists labels :: labels in topologies && labels != map[] && HasLabels(node, labels)
  {
    forall i | 0 <= i < |terms|
      ensures NodeMatches(terms[i], node) <==>
              NonEmpty(topologies)[i] != map[] && HasLabels(node, NonEmpty(topologies)[i])
    {
      DescribedMatches(terms[i], NonEmpty(topologies)[i], node);
    }
    forall labels ensures labels in NonEmpty(topologies) <==> labels in topologies && labels != map[] {
      NonEmptyMembers(topologies, labels);
    }
    if term :| term in terms && NodeMatches(term, node) {
      var i :| 0 <= i < |terms| && terms[i] == term;
      assert NonEmpty(topologies)[i] in NonEmpty(topologies);
    }
    if labels :| labels in topologies && labels != map[] && HasLabels(node, labels) {
      var i :| 0 <= i < |terms| && NonEmpty(topologies)[i] == labels;
      assert terms[i] in terms;
    }
  }

  // Parsing

  predicate Parses(term: NodeSelectorTerm) {
    term.matchFields == [] && forall e | e in term.matchExpressions :: e.operator == In && |e.values| == 1
  }

  function EntriesOf(expressions: seq<Match>): Segment
    requires forall e | e in expressions :: |e.values| == 1
  {
    seq(|expressions|, i requires 0 <= i < |expressions| => Entry(expressions[i].key, expressions[i].values[0]))
  }

  /** termToSegment */
  method TermToSegment(term: NodeSelectorTerm) returns (segment: Option<Segment>)
    ensures segment.Some? <==> Parses(term)
    ensures Parses(term) ==> segment == Some(SortTerm(EntriesOf(term.matchExpressions)))
  {
    if |term.matchFields| > 0 {
      return None;
    }
    var entries: Segment := [];
    for i := 0 to |term.matchExpressions|
      invariant forall e | e in term.matchExpressions[..i] :: e.operator == In && |e.values| == 1
      invariant entries == EntriesOf(term.matchExpressions[..i])
    {
      var expression := term.matchExpressions[i];
      assert expression in term.matchExpressions;
      assert term.matchExpressions[..i + 1] == term.matchExpressions[..i] + [expression];
      if expression.operator != In {
        return None;
      }
      if |expression.values| != 1 {
        return None;
      }
      entries := entries + [Entry(expression.key, expression.values[0])];
    }
    assert term.matchExpressions[..|term.matchExpressions|] == term.matchExpressions;
    return Some(SortTerm(entries));
  }

  lemma LabelMapOf(s: Segment, labels: map<string, string>)
    requires UniqueSortedKeys(s)
    requires forall e | e in s :: Carries(labels, e)
    requires forall k | k in labels :: Entry(k, labels[k]) in s
    ensures LabelMap(s) == labels
  {
    LabelMapKeys(s);
    forall k | k in labels ensures k in LabelMap(s) && LabelMap(s)[k] == labels[k] {
      LabelMapCarries(s, Entry(k, labels[k]));
    }
    assert LabelMap(s).Keys <= labels.Keys;
  }

  /** Parsing what describes a topology gives the segment with exactly these labels. */
  lemma RoundTrip(term: NodeSelectorTerm, labels: map<string, string>)
    requires Describes(term, labels)
    ensures Parses(term)
    ensures var s := SortTerm(EntriesOf(term.matchExpressions)); UniqueSortedKeys(s) && LabelMap(s) == labels
  {
    var entries := EntriesOf(term.matchExpressions);
    SortTermUnique(entries);
    SortTermElements(entries);
    forall e | e in entries ensures Carries(labels, e) {
      var i :| 0 <= i < |entries| && entries[i] == e;
      assert ExpressesEntry(term.matchExpressions[i], labels);
    }
    forall k | k in labels ensures Entry(k, labels[k]) in entries {
      EntryListed(term.matchExpressions, labels, k);
    }
    LabelMapOf(SortTerm(entries), labels);
  }

  lemma EntryListed(expressions: seq<Match>, labels: map<string, string>, k: string)
    requires Expresses(expressions, labels) && k in labels
    ensures Entry(k, labels[k]) in EntriesOf(expressions)
  {
    var i :| 0 <= i < |expressions| && expressions[i] == Match(k, In, [labels[k]]);
    assert EntriesOf(expressions)[i] == Entry(k, labels[k]);
  }

  // Refreshing

  /** The known items that a term selects. */
  predicate SelectedBy(item: WorkItem, term: NodeSelectorTerm) {
    Parses(term) && item.segment.entries == SortTerm(EntriesOf(term.matchExpressions))
  }

  predicate SelectedBySome(item: WorkItem, terms: seq<NodeSelectorTerm>) {
    exists k :: 0 <= k < |terms| && SelectedBy(item, terms[k])
  }

  function Selection(items: set<WorkItem>, terms: seq<NodeSelectorTerm>): set<WorkItem> {
    set i | i in items && SelectedBySome(i, terms)
  }

  /** One term of refreshTopology. */
  method RefreshTerm(c: Controller, term: NodeSelectorTerm)
    modifies c`refresh
    ensures c.refresh == old(c.refresh) + set i | i in c.capacities.Keys && SelectedBy(i, term)
  {
    var segment := TermToSegment(term);
    if segment.None? {
      return;
    }
    var todo := c.capacities.Keys;
    while todo != {}
      invariant todo <= c.capacities.Keys
      invariant c.refresh == old(c.refresh) + set i | i in c.capacities.Keys - todo && SelectedBy(i, term)
      decreases todo
    {
      var item :| item in todo;
      CompareSegmentsZero(item.segment.entries, segment.value);
      if CompareSegments(item.segment.entries, segment.value) == 0 {
        c.refresh := c.refresh + {item};
      }
      todo := todo - {item};
    }
  }

  /** refreshTopology */
  method RefreshTopology(c: Controller, affinity: Affinity)
    modifies c`refresh
    ensures c.refresh == old(c.refresh) + if affinity.Some? then Selection(c.capacities.Keys, affinity.value) else {}
  {
    if affinity.None? {
      return;
    }
    var terms := affinity.value;
    ghost var items := c.capacities.Keys;
    for k := 0 to |terms|
      invariant c.refresh == old(c.refresh) + Selection(items, terms[..k])
    {
      RefreshTerm(c, terms[k]);
      SelectionSnoc(items, terms, k);
    }
    assert terms[..|terms|] == terms;
  }

  lemma SelectionSnoc(items: set<WorkItem>, terms: seq<NodeSelectorTerm>, k: nat)
    requires k < |terms|
    ensures Selection(items, terms[..k + 1]) ==
            Selection(items, terms[..k]) + set i | i in items && SelectedBy(i, terms[k])
  {
    forall i ensures SelectedBySome(i, terms[..k + 1]) <==> SelectedBySome(i, terms[..k]) || SelectedBy(i, terms[k]) {
      if SelectedBySome(i, terms[..k]) {
        var m :| 0 <= m < k && SelectedBy(i, terms[..k][m]);
        assert SelectedBy(i, terms[..k + 1][m]);
      }
      if SelectedBy(i, terms[k]) {
        assert SelectedBy(i, terms[..k + 1][k]);
      }
      if SelectedBySome(i, terms[..k + 1]) {
        var m :| 0 <= m < k + 1 && SelectedBy(i, terms[..k + 1][m]);
        assert m == k || SelectedBy(i, terms[..k][m]);
      }
    }
  }

  predicate AllSorted(capacities: map<WorkItem, Option<Object>>) {
    forall i | i in capacities :: UniqueSortedKeys(i.segment.entries)
  }

  /** What describes some topologies selects the items whose labels are one of the non-empty ones. */
  lemma {:induction false} SelectsExactly(
    item: WorkItem, topologies: seq<map<string, string>>, terms: seq<NodeSelectorTerm>)
    requires UniqueSortedKeys(item.segment.entries) && Generated(topologies, terms)
    ensures SelectedBySome(item, terms) <==>
            LabelMap(item.segment.entries) in topologies && LabelMap(item.segment.entries) != map[]
  {
    var labels := LabelMap(item.segment.entries);
    NonEmptyMembers(topologies, labels);
    if SelectedBySome(item, terms) {
      var k :| 0 <= k < |terms| && SelectedBy(item, terms[k]);
      RoundTrip(terms[k], NonEmpty(topologies)[k]);
    }
    if labels in NonEmpty(topologies) {
      var k :| 0 <= k < |terms| && NonEmpty(topologies)[k] == labels;
      RoundTrip(terms[k], labels);
      LabelMapInjective(item.segment.entries, SortTerm(EntriesOf(terms[k].matchExpressions)));
      assert SelectedBy(item, terms[k]);
    }
  }

  lemma {:induction false} NonEmptyMembers(topologies: seq<map<string, string>>, m: map<string, string>)
    ensures m in NonEmpty(topologies) <==> m in topologies && m != map[]
  {
    if topologies != [] {
      var n := |topologies| - 1;
      NonEmptyMembers(topologies[..n], m);
      assert topologies == topologies[..n] + [topologies[n]];
    }
  }

  /**
   Provisioning a volume with these accessible topologies, or deleting it, refreshes exactly
   the known items whose segment is one of the non-empty topologies.
   */
  method RefreshForVolume(c: Controller, accessibleTopology: seq<map<string, string>>)
    requires AllSorted(c.capacities)
    modifies c`refresh
    ensures c.refresh == old(c.refresh) + InTopologies(c.capacities, accessibleTopology)
  {
    var affinity := GenerateVolumeNodeAffinity(accessibleTopology);
    if affinity.Some? {
      ghost var terms := if affinity.value.Some? then affinity.value.value else [];
      forall i | i in c.capacities
        ensures SelectedBySome(i, terms) <==>
                LabelMap(i.segment.entries) in accessibleTopology && LabelMap(i.segment.entries) != map[]
      {
        SelectsExactly(i, accessibleTopology, terms);
      }
      RefreshTopology(c, affinity.value);
    }
  }

  /** The known items whose segment is one of the non-empty topologies. */
  function InTopologies(c: map<WorkItem, Option<Object>>, topologies: seq<map<string, string>>): set<WorkItem> {
    set i | i in c && LabelMap(i.segment.entries) in topologies && LabelMap(i.segment.entries) != map[]
  }

  function OfClass(c: map<WorkItem, Option<Object>>, className: string): set<WorkItem> {
    set i | i in c && i.className == className
  }

  /**
   The wrapper around Provision: returned holds the accessible topologies of the PV if there is one,
   changed tells whether the state is anything but "no change".
   */
  method AfterProvision(
    c: Controller, returned: Option<seq<map<string, string>>>, changed: bool, className: Option<string>)
    requires AllSorted(c.capacities)
    modifies c`refresh
    ensures c.refresh == old(c.refresh) +
              if returned.Some? && returned.value != [] then InTopologies(c.capacities, returned.value)
              else if className.Some? && (returned.Some? || changed) then OfClass(c.capacities, className.value)
              else {}
  {
    if returned.Some? {
      if |returned.value| != 0 {
        RefreshForVolume(c, returned.value);
      } else if className.Some? {
        c.Refresh(className);
      }
    } else if changed {
      if className.Some? {
        c.Refresh(className);
      }
    }
  }
}
