/**
 * The id -> filename cache. Its reader/writer lock is not modelled: every
 * operation is one sequential step on the backing map.
 */
module Cache {

  /**
   * `unordered_map::insert`: the pair is added only when the key is absent;
   * an existing mapping is never overwritten.
   */
  function Inserted(m: map<string, string>, id: string, fileName: string): (r: map<string, string>)
    ensures id in r && r[id] == (if id in m then m[id] else fileName)
    ensures id in m ==> r == m
    ensures r.Keys == m.Keys + {id}
    ensures forall k :: k in m && k != id ==> r[k] == m[k]
  {
    if id in m then m else m[id := fileName]
  }

  /** After an insert, looking the id up yields the inserted filename exactly when no other filename held that id. */
  lemma InsertedThenLookup(m: map<string, string>, id: string, fileName: string)
    ensures Inserted(m, id, fileName)[id] == fileName <==> (id !in m || m[id] == fileName)
  {
  }

  class IdFileNameCache {
    var data: map<string, string>

    constructor ()
      ensures data == map[]
    {
      data := map[];
    }

    /** Thread-safe insert: the same effect on the map as Insert. */
    method LockedInsert(id: string, fileName: string)
      modifies this
      ensures data == Inserted(old(data), id, fileName)
    {
      Insert(id, fileName);
    }

    /** Adds (id, fileName) unless id is already a key. */
    method Insert(id: string, fileName: string)
      modifies this
      ensures id !in old(data) ==> data == old(data)[id := fileName]
      ensures id in old(data) ==> data == old(data)
      ensures data == Inserted(old(data), id, fileName)
    {
      if id !in data {
        data := data[id := fileName];
      }
    }

    /** Empties the cache. */
    method Clear()
      modifies this
      ensures data == map[]
    {
      data := map[];
    }

    /**
     * Moves the whole content of `newCache` into this cache in one step.
     * The moved-from cache is left valid but unspecified, so nothing is
     * promised about it.
     */
    method LockedReplace(newCache: IdFileNameCache)
      modifies this, newCache
      ensures data == old(newCache.data)
    {
      data := newCache.data;
      if newCache != this {
        newCache.data := map[];
      }
    }

    /**
     * Looks `id` up. `fileName` is the caller's variable before the call;
     * it is overwritten only when the id is found.
     */
    method SearchId(id: string, fileName: string) returns (found: bool, result: string)
      ensures found <==> id in data
      ensures found ==> result == data[id]
      ensures !found ==> result == fileName
    {
      if id in data {
        found, result := true, data[id];
      } else {
        found, result := false, fileName;
      }
    }
  }
}
