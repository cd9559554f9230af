/** A vector with a name index (indexed_vector). */
module IndexedVectors {
  import opened Options

  class IndexedVector<T> {
    var entries: seq<T>
    var index: map<string, nat>
    /** The name under which each entry was inserted. */
    ghost var names: seq<string>

    constructor ()
      ensures Valid() && entries == [] && names == []
    {
      entries, index, names := [], map[], [];
    }

    /** The index holds exactly the names of the entries, so no name occurs twice. */
    ghost predicate Valid()
      reads this
    {
      && |names| == |entries|
      && (forall name | name in index :: index[name] < |names| && names[index[name]] == name)
      && (forall i | 0 <= i < |names| :: names[i] in index && index[names[i]] == i)
    }

    method Clear()
      modifies this
      ensures Valid() && entries == [] && names == []
    {
      entries, index, names := [], map[], [];
    }

    /** Overwrites the entry of that name in place, or appends a new one. */
    method Insert(entry: T, name: string) returns (id: nat)
      requires Valid()
      modifies this
      ensures Valid() && id < |names| && names[id] == name
      ensures name in old(names) ==> names == old(names) && entries == old(entries)[id := entry]
      ensures name !in old(names) ==> names == old(names) + [name] && entries == old(entries) + [entry]
    {
      if name in index {
        id := index[name];
        entries := entries[id := entry];
      } else {
        id := |entries|;
        entries := entries + [entry];
        index := index[name := id];
        names := names + [name];
      }
    }

    /** The position of a name. */
    method Find(name: string) returns (id: Option<nat>)
      requires Valid()
      ensures id.None? <==> name !in names
      ensures id.Some? ==> id.value < |names| && names[id.value] == name
    {
      if name in index {
        return Some(index[name]);
      }
      return None;
    }

    /** Changes the entry in a position, as the source does through the pointer it gets from `at`. */
    method Set(id: nat, entry: T)
      requires Valid() && id < |entries|
      modifies `entries
      ensures Valid() && entries == old(entries)[id := entry]
    {
      entries := entries[id := entry];
    }
  }
}
