/** Sites in a bucket, as one process uses it when nothing fails and nobody else writes. */
module S3Store {
  import opened Results
  import opened Paths
  import opened Ordering
  import opened Archives
  import opened MemFs
  import opened Names
  import opened Backend
  import opened Publish
  import opened Cache

  /** The metadata of a site describes its content object, which exists. */
  ghost predicate Described(metas: map<string, Meta>, content: map<Key, Archive>, limit: Int64, n: string) {
    n in metas ==>
      var m := metas[n];
      && m.name == n && ValidName(n) && Key(n, m.version) in content
      && var h := HeldInMemory(content[Key(n, m.version)], limit, m.expiresAt);
         && Acceptable(Memory, content[Key(n, m.version)], limit)
         && m.fileCount == |h.tree.files| && m.sizeBytes == h.sizeBytes
  }

  ghost predicate AllDescribed(metas: map<string, Meta>, content: map<Key, Archive>, limit: Int64) {
    forall n :: n in metas ==> Described(metas, content, limit, n)
  }

  /** Versions in use were drawn, and a cached tree is that of the object with its key while there is one. */
  ghost predicate CacheTrue(content: map<Key, Archive>, drawn: set<string>, limit: Int64, ll: seq<Cached>) {
    && (forall k :: k in content ==> k.version in drawn)
    && (forall e :: e in ll ==>
          e.key.version in drawn && (e.key in content ==> e.value == Expanded(content[e.key], limit)))
  }

  /** Every content object is the live one of its site: nothing is left behind. */
  ghost predicate NoGarbage(metas: map<string, Meta>, content: map<Key, Archive>) {
    forall k :: k in content ==> k.name in metas && metas[k.name].version == k.version
  }

  ghost function ShelfOf(metas: map<string, Meta>, content: map<Key, Archive>, limit: Int64): Shelf {
    map n | n in metas && Key(n, metas[n].version) in content ::
      HeldInMemory(content[Key(n, metas[n].version)], limit, metas[n].expiresAt)
  }

  lemma ShelfKeys(metas: map<string, Meta>, content: map<Key, Archive>, limit: Int64, n: string)
    requires AllDescribed(metas, content, limit)
    ensures n in ShelfOf(metas, content, limit) <==> n in metas
    ensures n in metas ==> ValidName(n) && Key(n, metas[n].version) in content
    ensures n in metas ==>
      var m := metas[n];
      Describe(n, ShelfOf(metas, content, limit)[n]) == Site(m.name, m.fileCount, m.sizeBytes, m.expiresAt)
  {
    hide HeldInMemory, Acceptable, ValidName;
    assert n in metas ==> Described(metas, content, limit, n);
  }

  /** The metadata and content of one site are replaced; gone is the superseded object, if any. */
  ghost predicate Replaces(
    metas: map<string, Meta>, content: map<Key, Archive>, limit: Int64, n: string, m: Meta, a: Archive,
    gone: set<Key>) {
    && AllDescribed(metas, content, limit) && Key(n, m.version) !in content
    && m.name == n && ValidName(n) && Acceptable(Memory, a, limit)
    && m.fileCount == |HeldInMemory(a, limit, m.expiresAt).tree.files|
    && m.sizeBytes == HeldInMemory(a, limit, m.expiresAt).sizeBytes
    && forall k :: k in gone ==> k.name == n && k.version != m.version
  }

  lemma DescribedReplaced(
    metas: map<string, Meta>, content: map<Key, Archive>, limit: Int64, n: string, m: Meta, a: Archive,
    gone: set<Key>)
    requires Replaces(metas, content, limit, n, m, a, gone)
    ensures AllDescribed(metas[n := m], content[Key(n, m.version) := a] - gone, limit)
  {
    hide HeldInMemory, Acceptable, ValidName;
    var metas', content' := metas[n := m], content[Key(n, m.version) := a] - gone;
    forall x | x in metas' ensures Described(metas', content', limit, x) {
      if x != n { OthersDescribed(metas, content, limit, n, m, a, gone, x); }
    }
  }

  lemma ShelfAt(metas: map<string, Meta>, content: map<Key, Archive>, limit: Int64, x: string)
    ensures Get(ShelfOf(metas, content, limit), x) ==
      if x in metas && Key(x, metas[x].version) in content
      then Some(HeldInMemory(content[Key(x, metas[x].version)], limit, metas[x].expiresAt)) else None
  {
    hide HeldInMemory;
  }

  lemma ShelfReplaced(
    metas: map<string, Meta>, content: map<Key, Archive>, limit: Int64, n: string, m: Meta, a: Archive,
    gone: set<Key>)
    requires Replaces(metas, content, limit, n, m, a, gone)
    ensures ShelfOf(metas[n := m], content[Key(n, m.version) := a] - gone, limit)
         == ShelfOf(metas, content, limit)[n := HeldInMemory(a, limit, m.expiresAt)]
  {
    hide HeldInMemory, Acceptable, ValidName, AllDescribed, ShelfOf;
    var metas', content' := metas[n := m], content[Key(n, m.version) := a] - gone;
    var left, right := ShelfOf(metas', content', limit),
      ShelfOf(metas, content, limit)[n := HeldInMemory(a, limit, m.expiresAt)];
    forall x ensures Get(left, x) == Get(right, x) {
      ShelfAt(metas', content', limit, x);
      ShelfAt(metas, content, limit, x);
    }
    SameMap(left, right);
  }

  lemma OthersDescribed(
    metas: map<string, Meta>, content: map<Key, Archive>, limit: Int64, n: string, m: Meta, a: Archive,
    gone: set<Key>, x: string)
    requires AllDescribed(metas, content, limit) && x in metas && x != n
    requires forall k :: k in gone ==> k.name == n
    ensures Described(metas[n := m], content[Key(n, m.version) := a] - gone, limit, x)
    ensures Key(x, metas[x].version) in content
  {
    hide HeldInMemory, Acceptable, ValidName;
    assert Described(metas, content, limit, x);
  }

  lemma ShelfWithout(metas: map<string, Meta>, content: map<Key, Archive>, limit: Int64, n: string, gone: set<Key>)
    requires AllDescribed(metas, content, limit) && forall k :: k in gone ==> k.name == n
    ensures AllDescribed(metas - {n}, content - gone, limit)
    ensures ShelfOf(metas - {n}, content - gone, limit) == ShelfOf(metas, content, limit) - {n}
  {
    hide HeldInMemory, Acceptable, ValidName;
    forall x | x in metas - {n} ensures Described(metas - {n}, content - gone, limit, x) {
      assert Described(metas, content, limit, x);
    }
  }

  /** Collecting the superseded object leaves the live ones. */
  lemma CollectedAll(metas: map<string, Meta>, content: map<Key, Archive>, m: Meta, a: Archive)
    requires NoGarbage(metas, content)
    ensures
      var gone := if m.name in metas then {Key(m.name, metas[m.name].version)} else {};
      NoGarbage(metas[m.name := m], content[Key(m.name, m.version) := a] - gone)
  {}

  lemma SweptAll(metas: map<string, Meta>, content: map<Key, Archive>, n: string, gone: set<Key>)
    requires NoGarbage(metas, content) && gone == set k | k in content && k.name == n
    ensures NoGarbage(metas - {n}, content - gone)
  {}

  /** What unpacking yields is what is held. */
  lemma Unpacked(
    a: Archive, limit: Int64, files: map<Path, Bytes>, dirs: set<Path>, written: nat, expiresAt: Option<int>)
    requires
      var xs := Contents(Memory, a, limit);
      files == FirstFiles(xs) && dirs == DirsOf(xs) && written == Volume(xs)
    ensures HeldInMemory(a, limit, expiresAt) == Held(Expansion(files, dirs), written, expiresAt)
    ensures Expanded(a, limit) == Expansion(files, dirs)
  {}

  lemma CacheAfter(
    content: map<Key, Archive>, drawn: set<string>, limit: Int64, ll: seq<Cached>, e: Cached, a: Archive,
    gone: set<Key>, ll': seq<Cached>)
    requires CacheTrue(content, drawn, limit, ll) && e.key.version !in drawn && e.value == Expanded(a, limit)
    requires forall x :: x in ll' ==> x in ll || x == e
    ensures CacheTrue(content[e.key := a] - gone, drawn + {e.key.version}, limit, ll')
  {
    hide Expanded;
  }

  /** A hit under a key that still has its object is that object's tree. */
  lemma CacheHit(content: map<Key, Archive>, drawn: set<string>, limit: Int64, ll: seq<Cached>, budget: int, k: Key)
    requires CacheTrue(content, drawn, limit, ll) && k in content && HitSpec(ll, budget, k).Some?
    ensures HitSpec(ll, budget, k).value == Expanded(content[k], limit)
  {
    hide Expanded, HitSpec, PutSpec, GetSpec, DropAllSpec;
    NothingInvented(ll, budget, Cached(k, Expansion(map[], {}), 0), k, "");
  }

  /** A get, or a put of the tree of an existing object, keeps the cache true. */
  lemma CacheKept(content: map<Key, Archive>, drawn: set<string>, limit: Int64, ll: seq<Cached>, budget: int, e: Cached)
    requires CacheTrue(content, drawn, limit, ll) && e.key in content && e.value == Expanded(content[e.key], limit)
    ensures CacheTrue(content, drawn, limit, PutSpec(ll, budget, e))
    ensures CacheTrue(content, drawn, limit, GetSpec(ll, budget, e.key))
  {
    hide Expanded, HitSpec, PutSpec, GetSpec, DropAllSpec;
    NothingInvented(ll, budget, e, e.key, "");
  }

  lemma CacheShrinks(
    content: map<Key, Archive>, drawn: set<string>, limit: Int64, ll: seq<Cached>, gone: set<Key>,
    ll': seq<Cached>)
    requires CacheTrue(content, drawn, limit, ll) && forall x :: x in ll' ==> x in ll
    ensures CacheTrue(content - gone, drawn, limit, ll')
  {
    hide Expanded;
  }

  /** Expands an archive: what it holds, and the bytes it took. */
  method Unpack(a: Archive, limit: Int64) returns (r: Result<(Expansion, nat)>)
    ensures r.Ok? <==> Acceptable(Memory, a, limit)
    ensures r.Ok? ==> r.value.0 == Expanded(a, limit)
    ensures r.Ok? ==> forall t :: HeldInMemory(a, limit, t) == Held(r.value.0, r.value.1, t)
  {
    hide Acceptable, Contents, FirstFiles, DirsOf, Volume, Closed, Linked, SortedLists;
    var tree, written := UnpackTar(a, limit);
    if tree.Err? {
      return Err(tree.error);
    }
    forall t ensures HeldInMemory(a, limit, t) == Held(Expansion(tree.value.files, tree.value.isDir), written, t) {
      Unpacked(a, limit, tree.value.files, tree.value.isDir, written, t);
    }
    Unpacked(a, limit, tree.value.files, tree.value.isDir, written, None);
    return Ok((Expansion(tree.value.files, tree.value.isDir), written));
  }

  class Store {
    const limit: Int64
    const cache: ContentCache
    /** The bucket. */
    var metas: map<string, Meta>
    var content: map<Key, Archive>
    /** The local copy of the metadata. */
    var meta: map<string, Meta>
    var metaValid: bool
    ghost var drawn: set<string>

    ghost predicate Valid()
      reads this, cache
    {
      && cache.Valid()
      && AllDescribed(metas, content, limit)
      && CacheTrue(content, drawn, limit, cache.ll)
      && NoGarbage(metas, content)
      && (metaValid ==> meta == metas)
    }

    ghost function Abs(): Shelf
      reads this
    {
      ShelfOf(metas, content, limit)
    }

    constructor (limit: Int64, cacheBytes: int)
      ensures Valid() && fresh(cache) && this.limit == limit && Abs() == map[] && drawn == {}
    {
      this.limit := limit;
      cache := new ContentCache(cacheBytes);
      metas, content, meta, metaValid, drawn := map[], map[], map[], false, {};
    }

    /** Re-reads every metadata object. */
    method Refresh() returns (snap: map<string, Meta>)
      modifies this`meta, this`metaValid
      ensures snap == metas && meta == metas && metaValid
    {
      var next: map<string, Meta> := map[];
      var keys := metas.Keys;
      while keys != {}
        invariant keys <= metas.Keys
        invariant next == map n | n in metas && n !in keys :: metas[n]
        decreases keys
      {
        var n :| n in keys;
        next := next[n := metas[n]];
        keys := keys - {n};
      }
      meta, metaValid := next, true;
      snap := next;
      assert next == metas;
    }

    /** The metadata map, from memory while it is young enough. */
    method Snapshot(young: bool) returns (snap: map<string, Meta>)
      requires metaValid ==> meta == metas
      modifies this`meta, this`metaValid
      ensures snap == metas && (metaValid ==> meta == metas)
    {
      if metaValid && young {
        return meta;
      }
      snap := Refresh();
    }

    method Stat(name: string, young: bool) returns (r: Result<Site>)
      requires Valid()
      modifies this`meta, this`metaValid
      ensures Valid() && Abs() == old(Abs()) && r == StatOf(Abs(), name)
    {
      hide AllDescribed, CacheTrue, ShelfOf, ValidName, Describe;
      if !ValidName(name) {
        return Err(InvalidName);
      }
      var snap := Snapshot(young);
      ShelfKeys(metas, content, limit, name);
      if name !in snap {
        return Err(NotFound);
      }
      var m := snap[name];
      return Ok(Site(m.name, m.fileCount, m.sizeBytes, m.expiresAt));
    }

    method List(young: bool) returns (sites: seq<Site>)
      requires Valid()
      modifies this`meta, this`metaValid
      ensures Valid() && Abs() == old(Abs()) && sites == Listing(Abs())
    {
      hide AllDescribed, CacheTrue, ShelfOf, ValidName, Describe, Collected, Listing, Ascending;
      var snap := Snapshot(young);
      var names := SortedElements(snap.Keys);
      AscendingExact(snap.Keys);
      sites := [];
      NothingCollected(names, Abs());
      for i := 0 to |names|
        modifies {}
        invariant Collected(names, i, Abs(), sites)
      {
        assert names[i] in ToSet(names);
        var m := snap[names[i]];
        ShelfKeys(metas, content, limit, names[i]);
        CollectAdd(names, i, Abs(), sites);
        sites := sites + [Site(m.name, m.fileCount, m.sizeBytes, m.expiresAt)];
      }
      forall n | n in Abs() ensures n in ToSet(names) { ShelfKeys(metas, content, limit, n); }
      CollectAll(names, Abs(), sites);
    }

    /** Serves from the cache, or fetches and expands the live version and keeps it. */
    method Open(name: string, young: bool) returns (r: Result<Expansion>)
      requires Valid()
      modifies this`meta, this`metaValid, cache
      ensures Valid() && Abs() == old(Abs()) && r == OpenOf(Abs(), name)
    {
      hide AllDescribed, ShelfOf, CacheTrue, ValidName, Describe, PutSpec, GetSpec, HitSpec, DropAllSpec;
      hide Contents, Acceptable, FirstFiles, DirsOf, Volume, HeldInMemory, Expanded;
      if !ValidName(name) {
        return Err(InvalidName);
      }
      var snap := Snapshot(young);
      ShelfKeys(metas, content, limit, name);
      if name !in snap {
        return Err(NotFound);
      }
      var k := Key(name, snap[name].version);
      LiveTree(name);
      var a := content[k];
      CacheKept(content, drawn, limit, cache.ll, cache.maxBytes, Cached(k, Expanded(a, limit), 0));
      if HitSpec(cache.ll, cache.maxBytes, k).Some? {
        CacheHit(content, drawn, limit, cache.ll, cache.maxBytes, k);
      }
      var hit := cache.Get(k);
      if hit.Some? {
        return Ok(hit.value);
      }
      var unpacked := Unpack(a, limit);
      var (fsys, written) := unpacked.value;
      CacheKept(content, drawn, limit, cache.ll, cache.maxBytes, Cached(k, fsys, written));
      cache.Put(k, fsys, written);
      return Ok(fsys);
    }

    lemma LiveTree(name: string)
      requires Valid() && name in metas
      ensures
        var k := Key(name, metas[name].version);
        && k in content && Acceptable(Memory, content[k], limit) && k.version in drawn
        && name in Abs() && Abs()[name].tree == Expanded(content[k], limit)
    {
      assert Described(metas, content, limit, name);
    }

    /** Publishes an archive: new content object, then the metadata, then the local state, then the old object goes. */
    method Replace(
      name: string, a: Archive, expiry: Option<int>, now: int, version: string, young: bool)
      returns (r: Result<Site>)
      requires Valid() && version !in drawn
      modifies this, cache
      ensures Valid() && drawn <= old(drawn) + {version}
      ensures r.Ok? <==> ValidName(name) && Acceptable(Memory, a, limit)
      ensures r.Ok? ==>
        var held := HeldInMemory(a, limit, Deadline(expiry, now));
        Abs() == old(Abs())[name := held] && r.value == Describe(name, held)
      ensures r.Err? ==> Abs() == old(Abs())
    {
      hide AllDescribed, ShelfOf, CacheTrue, NoGarbage, Expanded, HeldInMemory, ValidName, Contents, Acceptable;
      hide PutSpec, GetSpec, HitSpec, DropAllSpec, FirstFiles, DirsOf, Volume;
      if !ValidName(name) {
        return Err(InvalidName);
      }
      var unpacked := Unpack(a, limit);
      if unpacked.Err? {
        return Err(unpacked.error);
      }
      var (fsys, size) := unpacked.value;
      var k := Key(name, version);
      NewKey(k);
      ghost var content0, drawn0 := content, drawn;
      drawn := drawn + {version};
      content := content[k := a];
      var m := Meta(name, version, |fsys.files|, size, Deadline(expiry, now));
      var prevs := Snapshot(young);
      var hadPrev := name in prevs && prevs[name].version != version;
      var gone: set<Key> := if hadPrev then {Key(name, prevs[name].version)} else {};
      Superseded(name, version, content0, drawn0);
      Flip(k, a, m, fsys, gone, content0, drawn0);
      return Ok(Site(m.name, m.fileCount, m.sizeBytes, m.expiresAt));
    }

    /** The commit of a push whose content object is written, and what follows it. */
    method Flip(
      k: Key, a: Archive, m: Meta, fsys: Expansion, gone: set<Key>, ghost content0: map<Key, Archive>,
      ghost drawn0: set<string>)
      requires cache.Valid() && (metaValid ==> meta == metas)
      requires k == Key(m.name, m.version) && m.version !in drawn0 && fsys == Expanded(a, limit)
      requires content == content0[k := a] && drawn == drawn0 + {m.version}
      requires CacheTrue(content0, drawn0, limit, cache.ll) && NoGarbage(metas, content0)
      requires Replaces(metas, content0, limit, m.name, m, a, gone)
      requires gone == if m.name in metas then {Key(m.name, metas[m.name].version)} else {}
      modifies this, cache
      ensures Valid() && drawn == old(drawn)
      ensures Abs() == ShelfOf(old(metas), content0, limit)[m.name := HeldInMemory(a, limit, m.expiresAt)]
    {
      hide AllDescribed, ShelfOf, CacheTrue, NoGarbage, Expanded, HeldInMemory, ValidName, Replaces;
      hide PutSpec, GetSpec, HitSpec, DropAllSpec;
      ShelfReplaced(metas, content0, limit, m.name, m, a, gone);
      DescribedReplaced(metas, content0, limit, m.name, m, a, gone);
      CollectedAll(metas, content0, m, a);
      metas := metas[m.name := m];
      meta := meta[m.name := m];
      NothingInvented(cache.ll, cache.maxBytes, Cached(k, fsys, m.sizeBytes), k, m.name);
      cache.Put(k, fsys, m.sizeBytes);
      content := content - gone;
      CacheAfter(content0, drawn0, limit, old(cache.ll), Cached(k, fsys, m.sizeBytes), a, gone, cache.ll);
    }

    /** The previous version, if any, is one drawn earlier. */
    lemma Superseded(name: string, version: string, content0: map<Key, Archive>, drawn0: set<string>)
      requires AllDescribed(metas, content0, limit) && CacheTrue(content0, drawn0, limit, cache.ll)
      requires version !in drawn0
      ensures name in metas ==> metas[name].version != version
    {
      hide HeldInMemory, Acceptable, ValidName;
      assert name in metas ==> Described(metas, content0, limit, name);
    }

    lemma NewKey(k: Key)
      requires Valid() && k.version !in drawn
      ensures k !in content
    {}

    /** Metadata first; then the local state; then every content object of the site. */
    method Delete(name: string, young: bool) returns (r: Result<()>)
      requires Valid()
      modifies this, cache
      ensures Valid() && drawn == old(drawn)
      ensures
        match Backend.Find(old(Abs()), name)
        case Err(e) => r == Err(e) && Abs() == old(Abs())
        case Ok(_) => r == Ok(()) && Abs() == old(Abs()) - {name} && forall k :: k in content ==> k.name != name
    {
      hide AllDescribed, ShelfOf, ValidName, DropAllSpec, PutSpec, GetSpec, HitSpec, HeldInMemory, CacheTrue, NoGarbage;
      if !ValidName(name) {
        return Err(InvalidName);
      }
      var snap := Snapshot(young);
      ShelfKeys(metas, content, limit, name);
      if name !in snap {
        return Err(NotFound);
      }
      ghost var metas0, content0 := metas, content;
      metas := metas - {name};
      meta := meta - {name};
      ghost var k0 := Key(name, "");
      NothingInvented(cache.ll, cache.maxBytes, Cached(k0, Expansion(map[], {}), 0), k0, name);
      cache.DropAll(name);
      var todo := set k | k in content && k.name == name;
      ghost var all := todo;
      while todo != {}
        modifies this`content
        invariant todo <= all && content == content0 - (all - todo)
        decreases todo
      {
        var k :| k in todo;
        assert content0 - (all - todo) - {k} == content0 - (all - (todo - {k}));
        content := content - {k};
        todo := todo - {k};
      }
      assert all - todo == all;
      ShelfWithout(metas0, content0, limit, name, all);
      SweptAll(metas0, content0, name, all);
      CacheShrinks(content0, drawn, limit, old(cache.ll), all, cache.ll);
      return Ok(());
    }

    /** Reads the metadata anew, then deletes what is overdue, in name order. */
    method DeleteExpired(now: int) returns (deleted: seq<string>)
      requires Valid()
      modifies this, cache
      ensures Valid()
      ensures Abs() == Reaped(old(Abs()), now) && drawn == old(drawn)
      ensures deleted == NamesOf(Overdues(Listing(old(Abs())), now))
    {
      hide Valid, Listing, Reaped, Overdues, Abs, ShelfOf, ValidName, Describe, Sorted, Distinct;
      var sites := List(false);
      ListingExact(Abs());
      deleted := [];
      NothingOverdue(sites, now);
      for i := 0 to |sites|
        invariant Valid()
        invariant Abs() == old(Abs()) - ToSet(deleted) && drawn == old(drawn)
        invariant deleted == NamesOf(Overdues(sites[..i], now))
      {
        OverduesStep(sites, i, now);
        if !Expired(sites[i], now) {
          continue;
        }
        NotYetReaped(sites, i, now);
        assert sites[i] in sites;
        OnShelf(sites[i].name);
        var r := Delete(sites[i].name, true);
        OneMoreGone(old(Abs()), deleted, sites[i].name);
        deleted := deleted + [sites[i].name];
      }
      assert sites[..|sites|] == sites;
      ReapedByName(old(Abs()), now);
    }

    lemma OnShelf(name: string)
      requires Valid() && name in Abs()
      ensures ValidName(name)
    {
      ShelfKeys(metas, content, limit, name);
    }
  }
}
