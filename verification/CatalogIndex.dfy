/** The secondary indexes as the catalog keeps them: for every attribute a list of
    identifiers, appended to and erased from. */
module CatalogIndex {
  import opened Types
  import opened Sorting
  import opened CatalogModel

  type Index = map<Key, seq<Id>>

  ghost predicate Listed(index: Index, k: Key, id: Id) {
    k in index && id in index[k]
  }

  /** The indexes list exactly the artifacts in `indexed`, each under every attribute it has. */
  ghost predicate Reflects(index: Index, m: map<Id, Descriptor>, indexed: set<Id>) {
    forall k, id :: Listed(index, k, id) <==> id in indexed && id in m && HasKey(m[id], k)
  }

  /** `after` is `before` with `id` listed under `keys` as well. */
  ghost predicate Added(before: Index, after: Index, id: Id, keys: set<Key>) {
    forall k, x :: Listed(after, k, x) <==> Listed(before, k, x) || (x == id && k in keys)
  }

  ghost predicate Removed(before: Index, after: Index, id: Id, keys: set<Key>) {
    forall k, x :: Listed(after, k, x) <==> Listed(before, k, x) && !(x == id && k in keys)
  }

  function Only(k: Option<Key>): set<Key> {
    if k.Some? then {k.value} else {}
  }

  function ModelOf(d: Descriptor): Option<Key> { if d.model.Some? then Some(ModelKey(d.model.value)) else None }
  function AdapterOf(d: Descriptor): Option<Key> { if d.adapter.Some? then Some(AdapterKey(d.adapter.value)) else None }
  function RuntimeOf(d: Descriptor): Option<Key> { if d.runtime.Some? then Some(RuntimeKey(d.runtime.value)) else None }
  function ToolchainOf(d: Descriptor): Option<Key> {
    if d.toolchain.Some? then Some(ToolchainKey(d.toolchain.value)) else None
  }
  function ArchitectureOf(d: Descriptor): Option<Key> {
    if d.architecture != [] then Some(ArchitectureKey(d.architecture)) else None
  }
  function ProvenanceOf(d: Descriptor): Option<Key> {
    if d.provenance != 0 then Some(ProvenanceKey(d.provenance)) else None
  }

  /** The attributes of a descriptor. */
  function KeysOf(d: Descriptor): set<Key> {
    {} + {ContentKey(d.contentDigest)} + {KindKey(d.kind)} + {ProducerKey(d.producer)}
    + Only(ModelOf(d)) + Only(AdapterOf(d)) + Only(RuntimeOf(d)) + Only(ToolchainOf(d)) + Only(ArchitectureOf(d))
    + {LifecycleKey(d.lifecycle)} + {ValidationKey(d.validation)} + Only(ProvenanceOf(d))
    + {GenerationKey(d.generation)}
  }

  lemma OptionalKeys(d: Descriptor, k: Key)
    ensures k in Only(ModelOf(d)) <==> k.ModelKey? && HasKey(d, k)
    ensures k in Only(AdapterOf(d)) <==> k.AdapterKey? && HasKey(d, k)
    ensures k in Only(RuntimeOf(d)) <==> k.RuntimeKey? && HasKey(d, k)
    ensures k in Only(ToolchainOf(d)) <==> k.ToolchainKey? && HasKey(d, k)
    ensures k in Only(ArchitectureOf(d)) <==> k.ArchitectureKey? && HasKey(d, k)
    ensures k in Only(ProvenanceOf(d)) <==> k.ProvenanceKey? && HasKey(d, k)
  {
  }

  lemma FixedKeys(d: Descriptor, k: Key)
    ensures k in {ContentKey(d.contentDigest)} <==> k.ContentKey? && HasKey(d, k)
    ensures k in {KindKey(d.kind)} <==> k.KindKey? && HasKey(d, k)
    ensures k in {ProducerKey(d.producer)} <==> k.ProducerKey? && HasKey(d, k)
    ensures k in {LifecycleKey(d.lifecycle)} <==> k.LifecycleKey? && HasKey(d, k)
    ensures k in {ValidationKey(d.validation)} <==> k.ValidationKey? && HasKey(d, k)
    ensures k in {GenerationKey(d.generation)} <==> k.GenerationKey? && HasKey(d, k)
  {
  }

  lemma KeysOfIs(d: Descriptor, k: Key)
    ensures k in KeysOf(d) <==> HasKey(d, k)
  {
    hide HasKey, Only, ModelOf, AdapterOf, RuntimeOf, ToolchainOf, ArchitectureOf, ProvenanceOf;
    OptionalKeys(d, k);
    FixedKeys(d, k);
  }

  lemma AddReflects(before: Index, after: Index, m: map<Id, Descriptor>, indexed: set<Id>, d: Descriptor)
    requires Reflects(before, m, indexed) && d.id !in indexed && Added(before, after, d.id, KeysOf(d))
    ensures Reflects(after, m[d.id := d], indexed + {d.id})
  {
    hide HasKey, KeysOf;
    var n := m[d.id := d];
    forall k, id ensures Listed(after, k, id) <==> id in indexed + {d.id} && id in n && HasKey(n[id], k) {
      KeysOfIs(d, k);
      assert Listed(before, k, id) <==> id in indexed && id in m && HasKey(m[id], k);
    }
  }

  lemma RemoveReflects(before: Index, after: Index, m: map<Id, Descriptor>, indexed: set<Id>, id: Id, e: Descriptor)
    requires Reflects(before, m, indexed) && id in m && Removed(before, after, id, KeysOf(m[id]))
    ensures Reflects(after, m[id := e], indexed - {id})
  {
    hide HasKey, KeysOf;
    var n := m[id := e];
    forall k, x ensures Listed(after, k, x) <==> x in indexed - {id} && x in n && HasKey(n[x], k) {
      KeysOfIs(m[id], k);
      assert Listed(before, k, x) <==> x in indexed && x in m && HasKey(m[x], k);
    }
  }

  lemma NothingListed(m: map<Id, Descriptor>)
    ensures Reflects(map[], m, {})
  {
  }

  /** An artifact that is not listed can change freely. */
  lemma UnlistedReflects(index: Index, m: map<Id, Descriptor>, indexed: set<Id>, id: Id, e: Descriptor)
    requires Reflects(index, m, indexed) && id !in indexed
    ensures Reflects(index, m[id := e], indexed)
  {
    hide HasKey;
  }

  lemma UnlistedRemoval(index: Index, m: map<Id, Descriptor>, indexed: set<Id>, id: Id)
    requires Reflects(index, m, indexed) && id !in indexed
    ensures Reflects(index, m - {id}, indexed)
  {
    hide HasKey;
  }

  /** `append_unique`. */
  method AppendUnique(v: seq<Id>, id: Id) returns (r: seq<Id>)
    ensures forall x :: x in r <==> x in v || x == id
    ensures id in v ==> r == v
  {
    for i := 0 to |v|
      invariant id !in v[..i]
    {
      if v[i] == id { return v; }
    }
    r := v + [id];
  }

  /** `erase_one`: despite its name it erases every occurrence. */
  method EraseAll(v: seq<Id>, id: Id) returns (r: seq<Id>)
    ensures forall x :: x in r <==> x in v && x != id
  {
    r := [];
    for i := 0 to |v|
      invariant forall x :: x in r <==> x in v[..i] && x != id
    {
      assert forall x :: x in v[..i + 1] <==> x in v[..i] || x == v[i];
      if v[i] != id { r := r + [v[i]]; }
    }
    assert v[..|v|] == v;
  }

  lemma AddOne(base: Index, before: Index, after: Index, id: Id, done: set<Key>, k: Key, v: seq<Id>)
    requires Added(base, before, id, done) && after == before[k := v]
    requires forall x :: x in v <==> (k in before && x in before[k]) || x == id
    ensures Added(base, after, id, done + {k})
  {
    forall j, x ensures Listed(after, j, x) <==> Listed(base, j, x) || (x == id && j in done + {k}) {
      assert Listed(before, j, x) <==> Listed(base, j, x) || (x == id && j in done);
    }
  }

  /** The twelve indexes. */
  class Indexes {
    var entries: Index

    constructor ()
      ensures entries == map[]
    {
      entries := map[];
    }

    method Clear()
      modifies this
      ensures entries == map[]
    {
      entries := map[];
    }

    method Append(k: Key, id: Id, ghost base: Index, ghost done: set<Key>)
      requires Added(base, entries, id, done)
      modifies this
      ensures Added(base, entries, id, done + {k})
    {
      var before := if k in entries then entries[k] else [];
      var v := AppendUnique(before, id);
      entries := entries[k := v];
      AddOne(base, old(entries), entries, id, done, k, v);
    }

    method AppendOptional(k: Option<Key>, id: Id, ghost base: Index, ghost done: set<Key>)
      requires Added(base, entries, id, done)
      modifies this
      ensures Added(base, entries, id, done + Only(k))
    {
      if k.Some? { Append(k.value, id, base, done); } else { assert done + {} == done; }
    }

    /** `add_to_indexes`. */
    method Add(d: Descriptor)
      modifies this
      ensures Added(old(entries), entries, d.id, KeysOf(d))
    {
      hide Added, ModelOf, AdapterOf, RuntimeOf, ToolchainOf, ArchitectureOf, ProvenanceOf, Only;
      ghost var base, done := entries, {};
      Append(ContentKey(d.contentDigest), d.id, base, done);
      done := done + {ContentKey(d.contentDigest)};
      Append(KindKey(d.kind), d.id, base, done);
      done := done + {KindKey(d.kind)};
      Append(ProducerKey(d.producer), d.id, base, done);
      done := done + {ProducerKey(d.producer)};
      AppendOptional(ModelOf(d), d.id, base, done);
      done := done + Only(ModelOf(d));
      AppendOptional(AdapterOf(d), d.id, base, done);
      done := done + Only(AdapterOf(d));
      AppendOptional(RuntimeOf(d), d.id, base, done);
      done := done + Only(RuntimeOf(d));
      AppendOptional(ToolchainOf(d), d.id, base, done);
      done := done + Only(ToolchainOf(d));
      AppendOptional(ArchitectureOf(d), d.id, base, done);
      done := done + Only(ArchitectureOf(d));
      Append(LifecycleKey(d.lifecycle), d.id, base, done);
      done := done + {LifecycleKey(d.lifecycle)};
      Append(ValidationKey(d.validation), d.id, base, done);
      done := done + {ValidationKey(d.validation)};
      AppendOptional(ProvenanceOf(d), d.id, base, done);
      done := done + Only(ProvenanceOf(d));
      Append(GenerationKey(d.generation), d.id, base, done);
      done := done + {GenerationKey(d.generation)};
    }

    method Erase(k: Key, id: Id, ghost base: Index, ghost done: set<Key>)
      requires Removed(base, entries, id, done)
      modifies this
      ensures Removed(base, entries, id, done + {k})
    {
      var before := if k in entries then entries[k] else [];
      var v := EraseAll(before, id);
      assert forall x :: Listed(entries, k, x) <==> x in before;
      entries := entries[k := v];
      assert forall x :: Listed(entries, k, x) <==> x in v;
    }

    method EraseOptional(k: Option<Key>, id: Id, ghost base: Index, ghost done: set<Key>)
      requires Removed(base, entries, id, done)
      modifies this
      ensures Removed(base, entries, id, done + Only(k))
    {
      if k.Some? { Erase(k.value, id, base, done); } else { assert done + {} == done; }
    }

    /** `remove_from_indexes`. */
    method Remove(d: Descriptor)
      modifies this
      ensures Removed(old(entries), entries, d.id, KeysOf(d))
    {
      hide Removed, ModelOf, AdapterOf, RuntimeOf, ToolchainOf, ArchitectureOf, ProvenanceOf, Only;
      ghost var base, done := entries, {};
      Erase(ContentKey(d.contentDigest), d.id, base, done);
      done := done + {ContentKey(d.contentDigest)};
      Erase(KindKey(d.kind), d.id, base, done);
      done := done + {KindKey(d.kind)};
      Erase(ProducerKey(d.producer), d.id, base, done);
      done := done + {ProducerKey(d.producer)};
      EraseOptional(ModelOf(d), d.id, base, done);
      done := done + Only(ModelOf(d));
      EraseOptional(AdapterOf(d), d.id, base, done);
      done := done + Only(AdapterOf(d));
      EraseOptional(RuntimeOf(d), d.id, base, done);
      done := done + Only(RuntimeOf(d));
      EraseOptional(ToolchainOf(d), d.id, base, done);
      done := done + Only(ToolchainOf(d));
      EraseOptional(ArchitectureOf(d), d.id, base, done);
      done := done + Only(ArchitectureOf(d));
      Erase(LifecycleKey(d.lifecycle), d.id, base, done);
      done := done + {LifecycleKey(d.lifecycle)};
      Erase(ValidationKey(d.validation), d.id, base, done);
      done := done + {ValidationKey(d.validation)};
      EraseOptional(ProvenanceOf(d), d.id, base, done);
      done := done + Only(ProvenanceOf(d));
      Erase(GenerationKey(d.generation), d.id, base, done);
      done := done + {GenerationKey(d.generation)};
    }
  }

}
