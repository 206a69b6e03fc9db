/**
 The store of what is remembered per claim (pkg/controller/cache.go). Everything that goes in
 or out is copied, so that callers may rearrange their slices and maps in place.
 */
module TopologyStore {
  import opened Segments
  import opened Requirements
  import opened TermSlices

  /** A map[string]string, which is a reference in Go. */
  class Labels {
    var entries: map<string, string>

    constructor (entries: map<string, string>)
      ensures this.entries == entries
    {
      this.entries := entries;
    }
  }

  ghost function Objects(o: object?): set<object> {
    if o == null then {} else {o}
  }

  class TopologyInfo {
    var labels: Labels?
    var keys: array?<string>
    var terms: array?<array<Entry>>
    ghost var Repr: set<object>

    constructor (labels: Labels?, keys: array?<string>, terms: array?<array<Entry>>, ghost parts: set<object>)
      requires labels != null ==> labels in parts
      requires keys != null ==> keys in parts
      requires terms != null ==> terms in parts && forall i | 0 <= i < terms.Length :: terms[i] in parts
      ensures Valid() && Repr == {this} + parts
      ensures this.labels == labels && this.keys == keys && this.terms == terms
    {
      this.labels, this.keys, this.terms := labels, keys, terms;
      Repr := {this} + parts;
    }

    /** Repr holds all objects that the entry is made of. */
    ghost predicate Valid()
      reads this, Repr
    {
      && this in Repr
      && (labels != null ==> labels in Repr)
      && (keys != null ==> keys in Repr)
      && (terms != null ==> terms in Repr && forall i | 0 <= i < terms.Length :: terms[i] in Repr)
    }

    ghost function Value(): Info
      requires Valid()
      reads this, Repr
    {
      Info(
        if labels == null then map[] else labels.entries,
        if keys == null then [] else keys[..],
        if terms == null then [] else Terms(terms[..]))
    }

    method SetLabels(labels: Labels?)
      requires Valid()
      modifies this
      ensures Valid() && Repr == old(Repr) + Objects(labels)
      ensures Value() == old(Value()).(labels := if labels == null then map[] else labels.entries)
    {
      this.labels := labels;
      Repr := Repr + Objects(labels);
    }

    method SetKeys(keys: array?<string>)
      requires Valid()
      modifies this
      ensures Valid() && Repr == old(Repr) + Objects(keys)
      ensures Value() == old(Value()).(keys := if keys == null then [] else keys[..])
    {
      this.keys := keys;
      Repr := Repr + Objects(keys);
    }

    method SetTerms(terms: array?<array<Entry>>, ghost parts: set<object>)
      requires Valid()
      requires terms != null ==> terms in parts && forall i | 0 <= i < terms.Length :: terms[i] in parts
      modifies this
      ensures Valid() && Repr == old(Repr) + parts
      ensures Value() == old(Value()).(terms := if terms == null then [] else Terms(terms[..]))
    {
      this.terms := terms;
      Repr := Repr + parts;
    }
  }

  method CopyTerm(term: array<Entry>) returns (copy: array<Entry>)
    ensures fresh(copy) && copy[..] == term[..]
  {
    copy := new Entry[term.Length](i requires 0 <= i < term.Length reads term => term[i]);
  }

  /** Copies the first n terms; n is the length of the slice. */
  method CopyTerms(terms: array?<array<Entry>>, n: nat) returns (copy: array?<array<Entry>>, ghost parts: set<object>)
    requires if terms == null then n == 0 else n <= terms.Length
    ensures (copy == null <==> terms == null) && fresh(parts)
    ensures copy != null ==> copy in parts && copy.Length == n
    ensures copy != null ==> forall i | 0 <= i < n :: copy[i] in parts
    ensures copy != null ==> Terms(copy[..]) == old(Terms(terms[..n]))
  {
    if terms == null {
      return null, {};
    }
    var empty := new Entry[0];
    copy := new array<Entry>[n](_ => empty);
    parts := {copy};
    for i := 0 to n
      invariant copy in parts && fresh(parts) && copy.Length == n
      invariant forall k | 0 <= k < i :: copy[k] in parts && copy[k][..] == terms[k][..]
      invariant forall k | 0 <= k < terms.Length :: terms[k] == old(terms[k]) && terms[k][..] == old(terms[k][..])
    {
      var newTerm := CopyTerm(terms[i]);
      copy[i] := newTerm;
      parts := parts + {newTerm};
    }
  }

  method CopyKeys(keys: array?<string>) returns (copy: array?<string>)
    ensures (copy == null <==> keys == null) && (copy != null ==> fresh(copy) && copy[..] == keys[..])
  {
    if keys == null {
      return null;
    }
    copy := new string[keys.Length](i requires 0 <= i < keys.Length reads keys => keys[i]);
  }

  method CopyLabels(labels: Labels?) returns (copy: Labels?)
    ensures (copy == null <==> labels == null) && (copy != null ==> fresh(copy) && copy.entries == labels.entries)
  {
    if labels == null {
      return null;
    }
    var entries := map[];
    var todo := labels.entries.Keys;
    while todo != {}
      invariant todo <= labels.entries.Keys
      invariant entries == map k | k in labels.entries && k !in todo :: labels.entries[k]
      decreases todo
    {
      var k :| k in todo;
      entries := entries[k := labels.entries[k]];
      todo := todo - {k};
    }
    copy := new Labels(entries);
  }

  method CopyInfo(info: TopologyInfo) returns (copy: TopologyInfo)
    requires info.Valid()
    ensures copy.Valid() && fresh(copy.Repr) && copy.Value() == info.Value()
  {
    var labels := CopyLabels(info.labels);
    var keys := CopyKeys(info.keys);
    var terms, parts := CopyTerms(info.terms, if info.terms == null then 0 else info.terms.Length);
    copy := new TopologyInfo(labels, keys, terms, parts + Objects(labels) + Objects(keys));
    assert info.terms != null ==> info.terms[..info.terms.Length] == info.terms[..];
  }

  class InMemoryStore {
    var data: map<string, TopologyInfo>
    ghost var Repr: set<object>

    ghost predicate Valid()
      reads this, Repr
    {
      && this in Repr
      && (forall u | u in data :: data[u] in Repr && data[u].Repr <= Repr && this !in data[u].Repr && data[u].Valid())
      && (forall u, v | u in data && v in data && u != v :: data[u].Repr !! data[v].Repr)
    }

    /** What is remembered for a claim. */
    ghost function Remembered(uid: string): Info
      requires Valid()
      reads this, Repr
    {
      if uid in data then data[uid].Value() else NOTHING
    }

    constructor ()
      ensures Valid() && fresh(Repr)
      ensures forall uid :: Remembered(uid) == NOTHING
    {
      data := map[];
      Repr := {this};
    }

    method Delete(uid: string)
      requires Valid()
      modifies this
      ensures Valid() && Repr == old(Repr)
      ensures Remembered(uid) == NOTHING
      ensures forall u | u != uid :: Remembered(u) == old(Remembered(u))
    {
      data := data - {uid};
    }

    /** A deep copy, or null if there is no entry. */
    method GetByPvcUID(uid: string) returns (copy: TopologyInfo?)
      requires Valid()
      ensures copy == null <==> uid !in data
      ensures copy != null ==> copy.Valid() && fresh(copy.Repr) && copy.Value() == Remembered(uid)
    {
      if uid !in data {
        return null;
      }
      copy := CopyInfo(data[uid]);
    }

    /** Makes sure that there is an entry for a claim; an empty one is like none. */
    method Prepare(uid: string)
      requires Valid()
      modifies this
      ensures Valid() && old(Repr) <= Repr && fresh(Repr - old(Repr))
      ensures uid in data && if uid in old(data) then data == old(data) else fresh(data[uid])
      ensures forall u :: Remembered(u) == old(Remembered(u))
    {
      if uid !in data {
        var info := new TopologyInfo(null, null, null, {});
        data := data[uid := info];
        Repr := Repr + info.Repr;
      }
    }

    /** Changing the fields of one entry, to fresh objects, keeps the store in order. */
    twostate lemma EntryChanged(uid: string)
      requires old(Valid()) && uid in old(data) && data == old(data) && data[uid].Valid()
      requires Repr == old(Repr) + data[uid].Repr && old(data[uid].Repr) <= data[uid].Repr
      requires fresh(data[uid].Repr - old(data[uid].Repr))
      requires unchanged(old(Repr) - {this, data[uid]})
      ensures Valid() && fresh(Repr - old(Repr))
      ensures forall u | u != uid :: Remembered(u) == old(Remembered(u))
    {
      forall u | u in data && u != uid
        ensures data[u].Repr == old(data[u].Repr) && data[u].Valid() && data[u].Value() == old(data[u].Value())
      {
        assert data[u].Repr !! {this, data[uid]};
      }
    }

    method UpdateNodeLabels(uid: string, newLabels: Labels?)
      requires Valid()
      modifies this, if uid in data then {data[uid]} else {}
      ensures Valid() && old(Repr) <= Repr && fresh(Repr - old(Repr))
      ensures uid in data &&
              Remembered(uid) == old(Remembered(uid)).(labels := if newLabels == null then map[] else newLabels.entries)
      ensures forall u | u != uid :: Remembered(u) == old(Remembered(u))
    {
      Prepare(uid);
      ReplaceLabels(uid, newLabels);
    }

    method ReplaceLabels(uid: string, newLabels: Labels?)
      requires Valid() && uid in data
      modifies this, data[uid]
      ensures Valid() && old(Repr) <= Repr && fresh(Repr - old(Repr))
      ensures uid in data &&
              Remembered(uid) == old(Remembered(uid)).(labels := if newLabels == null then map[] else newLabels.entries)
      ensures forall u | u != uid :: Remembered(u) == old(Remembered(u))
    {
      var labelsCopy := CopyLabels(newLabels);
      data[uid].SetLabels(labelsCopy);
      Repr := Repr + data[uid].Repr;
      EntryChanged(uid);
    }

    method UpdateTopologyKeys(uid: string, newKeys: array?<string>)
      requires Valid()
      modifies this, if uid in data then {data[uid]} else {}
      ensures Valid() && old(Repr) <= Repr && fresh(Repr - old(Repr))
      ensures uid in data &&
              Remembered(uid) == old(Remembered(uid)).(keys := if newKeys == null then [] else newKeys[..])
      ensures forall u | u != uid :: Remembered(u) == old(Remembered(u))
    {
      Prepare(uid);
      ReplaceKeys(uid, newKeys);
    }

    method ReplaceKeys(uid: string, newKeys: array?<string>)
      requires Valid() && uid in data
      modifies this, data[uid]
      ensures Valid() && old(Repr) <= Repr && fresh(Repr - old(Repr))
      ensures uid in data &&
              Remembered(uid) == old(Remembered(uid)).(keys := if newKeys == null then [] else newKeys[..])
      ensures forall u | u != uid :: Remembered(u) == old(Remembered(u))
    {
      var keysCopy := CopyKeys(newKeys);
      data[uid].SetKeys(keysCopy);
      Repr := Repr + data[uid].Repr;
      EntryChanged(uid);
    }

    method UpdateRequisiteTerms(uid: string, newTerms: array?<array<Entry>>, n: nat)
      requires Valid() && if newTerms == null then n == 0 else n <= newTerms.Length
      modifies this, if uid in data then {data[uid]} else {}
      ensures Valid() && old(Repr) <= Repr && fresh(Repr - old(Repr))
      ensures uid in data && Remembered(uid) ==
              old(Remembered(uid)).(terms := if newTerms == null then [] else old(Terms(newTerms[..n])))
      ensures forall u | u != uid :: Remembered(u) == old(Remembered(u))
    {
      Prepare(uid);
      ReplaceTerms(uid, newTerms, n);
    }

    method ReplaceTerms(uid: string, newTerms: array?<array<Entry>>, n: nat)
      requires Valid() && uid in data && if newTerms == null then n == 0 else n <= newTerms.Length
      modifies this, data[uid]
      ensures Valid() && old(Repr) <= Repr && fresh(Repr - old(Repr))
      ensures uid in data && Remembered(uid) ==
              old(Remembered(uid)).(terms := if newTerms == null then [] else old(Terms(newTerms[..n])))
      ensures forall u | u != uid :: Remembered(u) == old(Remembered(u))
    {
      var termsCopy, parts := CopyTerms(newTerms, n);
      data[uid].SetTerms(termsCopy, parts);
      Repr := Repr + data[uid].Repr;
      EntryChanged(uid);
    }
  }

  /** The objects of a caller are not those of the store. */
  ghost predicate Separate(store: InMemoryStore, labels: Labels, keys: array<string>, terms: array<array<Entry>>)
    reads store, terms
  {
    && labels !in store.Repr && keys !in store.Repr && terms !in store.Repr
    && forall i | 0 <= i < terms.Length :: terms[i] !in store.Repr
  }

  method UpdateNode(store: InMemoryStore, uid: string, labels: Labels, keys: array<string>)
    requires store.Valid() && labels !in store.Repr && keys !in store.Repr
    modifies store.Repr
    ensures store.Valid() && old(store.Repr) <= store.Repr && fresh(store.Repr - old(store.Repr))
    ensures store.Remembered(uid) == old(store.Remembered(uid)).(labels := old(labels.entries), keys := old(keys[..]))
    ensures forall u | u != uid :: store.Remembered(u) == old(store.Remembered(u))
  {
    store.UpdateNodeLabels(uid, labels);
    store.UpdateTopologyKeys(uid, keys);
  }

  method UpdateAll(
    store: InMemoryStore, uid: string, labels: Labels, keys: array<string>, terms: array<array<Entry>>, n: nat)
    requires store.Valid() && n <= terms.Length && Separate(store, labels, keys, terms)
    modifies store.Repr
    ensures store.Valid() && old(store.Repr) <= store.Repr && fresh(store.Repr - old(store.Repr)) && uid in store.data
    ensures store.Remembered(uid) == Info(old(labels.entries), old(keys[..]), old(Terms(terms[..n])))
    ensures forall u | u != uid :: store.Remembered(u) == old(store.Remembered(u))
  {
    UpdateNode(store, uid, labels, keys);
    assert Terms(terms[..n]) == old(Terms(terms[..n]));
    store.UpdateRequisiteTerms(uid, terms, n);
  }

  /** A copy that was read from the store is the caller's: whatever is done to it, the next read is the same. */
  method ReadAgain(store: InMemoryStore, uid: string) returns (copy: TopologyInfo?)
    requires store.Valid() && uid in store.data
    ensures copy != null && copy.Valid() && fresh(copy.Repr) && copy.Value() == store.Remembered(uid)
  {
    var first := store.GetByPvcUID(uid);
    modify first.Repr;
    copy := store.GetByPvcUID(uid);
  }

  /** Objects that are not the store's may change in any way. */
  twostate lemma Isolated(store: InMemoryStore)
    requires old(store.Valid()) && unchanged(old(store.Repr))
    ensures store.Valid() && store.data == old(store.data)
    ensures forall u :: store.Remembered(u) == old(store.Remembered(u))
  {
  }

  /**
   Whatever happens to the maps and slices that were passed to the store, and to a copy that
   was read from it, a later read returns what was stored.
   */
  method MutationsInvisible(
    store: InMemoryStore, uid: string, labels: Labels, keys: array<string>, terms: array<array<Entry>>, n: nat)
    returns (copy: TopologyInfo?)
    requires store.Valid() && n <= terms.Length && Separate(store, labels, keys, terms)
    modifies store.Repr, labels, keys, terms, terms[..]
    ensures store.Valid() && forall u | u != uid :: store.Remembered(u) == old(store.Remembered(u))
    ensures copy != null && copy.Valid() &&
            copy.Value() == Info(old(labels.entries), old(keys[..]), old(Terms(terms[..n])))
  {
    UpdateAll(store, uid, labels, keys, terms, n);
    label Updated:
    modify labels, keys, terms, old(terms[..]);
    Isolated@Updated(store);
    copy := ReadAgain(store, uid);
  }
}
