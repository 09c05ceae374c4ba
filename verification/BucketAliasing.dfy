/** Who may change a bucket: filedb keeps copies of what it is given and hands out copies of what it
    keeps (filedb/writebucket.go, filedb/evercache.go). Buckets are maps in memory here. */
module BucketAliasing {
  import opened DeepCopy

  /** Every bucket of m stands for its tree, with all its maps and lists among the nodes. */
  ghost predicate AllHold(m: map<string, MapNode>, trees: map<string, Json>, nodes: set<object>)
    reads nodes
  {
    m.Keys == trees.Keys && forall k :: k in m ==> Holds(Map(m[k]), trees[k], nodes)
  }

  lemma AllHoldMore(m: map<string, MapNode>, trees: map<string, Json>, nodes: set<object>, more: set<object>)
    requires AllHold(m, trees, nodes) && nodes <= more
    ensures AllHold(m, trees, more)
  {
    forall k | k in m ensures Holds(Map(m[k]), trees[k], more) {
      MoreNodes(Map(m[k]), trees[k], nodes, more);
    }
  }

  class BucketMaps {
    var dirty: map<string, MapNode>
    var cache: map<string, MapNode>
    /** What the kept buckets stand for, and all their maps and lists. */
    ghost var waiting: map<string, Json>
    ghost var cached: map<string, Json>
    ghost var own: set<object>

    constructor ()
      ensures Valid() && waiting == map[] && cached == map[] && fresh(own)
    {
      dirty, cache, waiting, cached, own := map[], map[], map[], map[], {};
    }

    ghost predicate Valid()
      reads this, own
    {
      this !in own && AllHold(dirty, waiting, own) && AllHold(cache, cached, own)
    }

    /** Keeps a copy: none of the maps and lists of the caller's bucket becomes the store's. */
    method SaveBucket(key: string, bucket: MapNode, ghost tree: Json, ghost nodes: set<object>)
      requires Valid() && Holds(Map(bucket), tree, nodes)
      modifies this
      ensures Valid() && waiting == old(waiting)[key := tree] && cached == old(cached) - {key}
      ensures old(own) <= own && fresh(own - old(own))
    {
      var copy, made := CopyValue(Map(bucket), tree, nodes);
      Keep(made);
      MoreNodes(copy, tree, made, own);
      dirty := dirty[key := copy.node];
      waiting := waiting[key := tree];
      EcDelete(key);
    }

    method EcDelete(key: string)
      requires Valid()
      modifies `cache, `cached
      ensures Valid() && cached == old(cached) - {key}
    {
      cache := cache - {key};
      cached := cached - {key};
    }

    ghost method Keep(made: set<object>)
      requires Valid() && this !in made
      modifies `own
      ensures Valid() && own == old(own) + made
    {
      AllHoldMore(dirty, waiting, own, own + made);
      AllHoldMore(cache, cached, own, own + made);
      own := own + made;
    }

    /** Hands out a copy: none of its maps and lists is the store's, and it stands for what is kept. */
    method Kept(key: string) returns (bucket: MapNode, ghost made: set<object>)
      requires Valid() && (key in dirty || key in cache)
      ensures fresh(made) && made !! own
      ensures Holds(Map(bucket), if key in waiting then waiting[key] else cached[key], made)
    {
      var r;
      if key in dirty {
        r, made := CopyValue(Map(dirty[key]), waiting[key], own);
      } else {
        r, made := CopyValue(Map(cache[key]), cached[key], own);
      }
      bucket := r.node;
    }

    /** A bucket just read from its file is cached as a copy and given to the caller itself. */
    method EcPut(key: string, bucket: MapNode, ghost tree: Json, ghost nodes: set<object>)
      requires Valid() && Holds(Map(bucket), tree, nodes)
      modifies this
      ensures Valid() && waiting == old(waiting) && cached == old(cached)[key := tree]
      ensures old(own) <= own && fresh(own - old(own))
    {
      var copy, made := CopyValue(Map(bucket), tree, nodes);
      Keep(made);
      MoreNodes(copy, tree, made, own);
      cache := cache[key := copy.node];
      cached := cached[key := tree];
    }

    /** Whatever a caller does to a map that is not the store's own, the store keeps what it kept. */
    method CallerWrites(node: MapNode, field: string, v: Value)
      requires Valid() && node !in own
      modifies node
      ensures Valid() && waiting == old(waiting) && cached == old(cached)
    {
      node.fields := node.fields[field := v];
    }
  }
}
