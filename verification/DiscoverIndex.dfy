/**
 The index over discover entries (`discoverIndexKey`, `discoverIndexFunc` and
 `mapResourceToOriginPools` in internal/controller/originpool_controller.go) as the
 incremental structure it is: kept up to date pool by pool, looked up by key.
 */
module DiscoverIndex {
  import opened OriginPoolTypes
  import opened Discovery

  /** The pools a scan finds to refer to the object. */
  function Affected(pools: map<Name, Pool>, changed: ResourceRef): set<Name> {
    set id | id in pools && RefersTo(pools[id], changed)
  }

  class PoolIndex {
    var pools: map<Name, Pool>
    var entries: map<string, set<Name>>

    predicate Listed(k: string, id: Name)
      reads this`entries
    {
      k in entries && id in entries[k]
    }

    /** The index lists exactly the stored pools under exactly their keys. */
    ghost predicate Valid()
      reads this
    {
      && (forall id | id in pools :: pools[id].id == id)
      && (forall k, id :: Listed(k, id) <==> id in pools && Keyed(pools[id], k))
    }

    constructor ()
      ensures Valid() && pools == map[]
    {
      pools, entries := map[], map[];
    }

    method Unlist(id: Name, keys: seq<string>)
      modifies this`entries
      ensures forall k, i :: Listed(k, i) <==> old(Listed(k, i)) && !(i == id && k in keys)
    {
      for n := 0 to |keys|
        invariant forall k, i :: Listed(k, i) <==> old(Listed(k, i)) && !(i == id && k in keys[..n])
      {
        if keys[n] in entries {
          entries := entries[keys[n] := entries[keys[n]] - {id}];
        }
      }
      assert keys[..|keys|] == keys;
    }

    method List(id: Name, keys: seq<string>)
      modifies this`entries
      ensures forall k, i :: Listed(k, i) <==> old(Listed(k, i)) || (i == id && k in keys)
    {
      for n := 0 to |keys|
        invariant forall k, i :: Listed(k, i) <==> old(Listed(k, i)) || (i == id && k in keys[..n])
      {
        var here := if keys[n] in entries then entries[keys[n]] else {};
        entries := entries[keys[n] := here + {id}];
      }
      assert keys[..|keys|] == keys;
    }

    method Delete(id: Name)
      requires Valid()
      modifies this
      ensures Valid() && pools == old(pools) - {id}
    {
      if id in pools {
        var keys := DiscoverIndexFunc(pools[id]);
        Unlist(id, keys);
        pools := pools - {id};
      }
    }

    /** An added or updated pool: its old keys go, its new keys come. */
    method Upsert(pool: Pool)
      requires Valid()
      modifies this
      ensures Valid() && pools == old(pools)[pool.id := pool]
    {
      Delete(pool.id);
      var keys := DiscoverIndexFunc(pool);
      List(pool.id, keys);
      pools := pools[pool.id := pool];
    }

    /**
     `MatchingFields` lookup for a changed cluster object: exactly the pools a scan of
     every discover entry, with namespace defaulting, would find. When the list call
     fails nothing is enqueued.
     */
    method MapResourceToOriginPools(changed: ResourceRef, listFails: bool) returns (requests: set<Name>)
      requires Valid()
      requires SlashFree(changed.kind) && SlashFree(changed.namespace) && SlashFree(changed.name)
      ensures requests == if listFails then {} else Affected(pools, changed)
    {
      if listFails {
        return {};
      }
      var key := IndexKey(changed);
      requests := if key in entries then entries[key] else {};
      forall id
        ensures id in requests <==> id in Affected(pools, changed)
        ensures id in requests <==> id in pools && RefersTo(pools[id], changed)
      {
        assert id in requests <==> Listed(key, id);
        if id in pools {
          KeyedUnderLookup(pools[id], changed);
        }
      }
    }
  }

  /** Under a real object's key are indexed exactly the pools that refer to it. */
  lemma KeyedUnderLookup(pool: Pool, changed: ResourceRef)
    requires SlashFree(changed.kind) && SlashFree(changed.namespace) && SlashFree(changed.name)
    ensures Keyed(pool, IndexKey(changed)) <==> RefersTo(pool, changed)
  {
    if Keyed(pool, IndexKey(changed)) {
      var target :| RefersTo(pool, target) && IndexKey(target) == IndexKey(changed);
      LookupKeyIsInjective(target, changed);
    }
  }

  /**
   No change is missed: when one Service, Ingress, Gateway or Route changes and a
   stored pool then resolves differently, the mapper enqueues that pool.
   */
  lemma ChangedObjectEnqueuesPool(isIP: string -> bool, a: Cluster, b: Cluster, changed: ResourceRef, pools: map<Name, Pool>, id: Name)
    requires DifferOnlyAt(a, b, changed) && id in pools
    requires ResolveAll(isIP, a, pools[id]) != ResolveAll(isIP, b, pools[id])
    ensures id in Affected(pools, changed)
  {
    ObjectWatchIsSound(isIP, a, b, changed, pools[id]);
  }

  /** Nor when nodes change: such a pool is among those the node mapper enqueues. */
  lemma ChangedNodesEnqueuePool(isIP: string -> bool, a: Cluster, b: Cluster, listed: seq<Pool>, i: nat)
    requires DifferOnlyInNodes(a, b) && i < |listed|
    requires ResolveAll(isIP, a, listed[i]) != ResolveAll(isIP, b, listed[i])
    ensures NamesServicePool(listed, listed[i].id)
  {
    NodeWatchIsSound(isIP, a, b, listed[i]);
  }
}
