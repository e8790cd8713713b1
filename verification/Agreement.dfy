/**
 The two backends side by side.  Driven by the same requests, with nothing
 failing and every archive regular, they hold the same sites and give the same
 answers: those of the simple map from names to trees in Backend.
 */
module Agreement {
  import opened Results
  import opened Archives
  import opened Names
  import opened Backend
  import SiteDirs
  import LocalStore
  import S3Store

  /**
   What a caller asks, with what the process draws to serve it: the suffix of
   the staging directory, the clock of the backup name, the new version, and
   whether the metadata in memory is still young.
   */
  datatype Request =
    | Push(name: string, archive: Archive, expiry: Option<int>, now: int, suffix: string, ns: string,
      version: string, young: bool)
    | Remove(name: string, young: bool)
    | Reap(now: int)
    | Read(name: string, young: bool)

  datatype Answer =
    | Pushed(site: Option<Site>)
    | Removed(outcome: Result<()>)
    | Swept(names: seq<string>)
    | Seen(stat: Result<Site>, tree: Result<Expansion>, sites: seq<Site>)

  // ----- the simple store

  ghost predicate Accepts(limit: Int64, q: Request)
    requires q.Push?
  {
    ValidName(q.name) && Acceptable(Disk, q.archive, limit)
  }

  ghost function Apply(shelf: Shelf, limit: Int64, q: Request): Shelf {
    match q
    case Push(name, a, expiry, now, _, _, _, _) =>
      if Accepts(limit, q) then shelf[name := HeldOnDisk(a, limit, Deadline(expiry, now))] else shelf
    case Remove(name, _) => shelf - {name}
    case Reap(now) => Reaped(shelf, now)
    case Read(_, _) => shelf
  }

  ghost function Reply(shelf: Shelf, limit: Int64, q: Request): Answer {
    match q
    case Push(name, a, expiry, now, _, _, _, _) =>
      Pushed(if Accepts(limit, q) then Some(Describe(name, HeldOnDisk(a, limit, Deadline(expiry, now)))) else None)
    case Remove(name, _) => Removed(match Find(shelf, name) case Err(e) => Err(e) case Ok(_) => Ok(()))
    case Reap(now) => Swept(NamesOf(Overdues(Listing(shelf), now)))
    case Read(name, _) => Seen(StatOf(shelf, name), OpenOf(shelf, name), Listing(shelf))
  }

  ghost function ShelfAfter(shelf: Shelf, limit: Int64, qs: seq<Request>): Shelf {
    if qs == [] then shelf else Apply(ShelfAfter(shelf, limit, qs[..|qs| - 1]), limit, qs[|qs| - 1])
  }

  ghost function Replies(shelf: Shelf, limit: Int64, qs: seq<Request>): seq<Answer> {
    if qs == [] then []
    else
      var n := |qs| - 1;
      Replies(shelf, limit, qs[..n]) + [Reply(ShelfAfter(shelf, limit, qs[..n]), limit, qs[n])]
  }

  // ----- runs

  /** A push that makes a backup makes it under a name no site has. */
  ghost predicate Clear(shelf: Shelf, limit: Int64, q: Request) {
    q.Push? && Accepts(limit, q) && q.name in shelf ==> LocalStore.BackupName(q.name, q.ns) !in shelf
  }

  ghost predicate Orderly(shelf: Shelf, limit: Int64, q: Request) {
    (q.Push? ==> Regular(q.archive, limit)) && Clear(shelf, limit, q)
  }

  /** Pushes carry regular archives, back up under no site's name, and draw distinct versions. */
  ghost predicate OrderlyRun(shelf: Shelf, limit: Int64, qs: seq<Request>) {
    && (forall i :: 0 <= i < |qs| ==> Orderly(ShelfAfter(shelf, limit, qs[..i]), limit, qs[i]))
    && (forall i, j :: 0 <= i < j < |qs| && qs[i].Push? && qs[j].Push? ==> qs[i].version != qs[j].version)
  }

  ghost function Drawn(qs: seq<Request>): set<string> {
    set q | q in qs && q.Push? :: q.version
  }

  class Pair {
    const disk: LocalStore.Store
    const bucket: S3Store.Store

    ghost predicate Valid()
      reads this, disk, disk.dir, bucket, bucket.cache
    {
      Sound() && disk.Abs() == bucket.Abs()
    }

    /** Each store by itself is in order. */
    ghost predicate Sound()
      reads this, disk, disk.dir, bucket, bucket.cache
    {
      && disk.Valid() && bucket.Valid() && disk.limit == bucket.limit
      && forall n :: n in disk.dir.dirs ==> ValidName(n)
    }

    constructor (limit: Int64, cacheBytes: int)
      ensures Valid() && fresh(disk) && fresh(disk.dir) && fresh(bucket) && fresh(bucket.cache)
      ensures disk.Abs() == map[] && bucket.drawn == {} && disk.limit == limit
    {
      disk := new LocalStore.Store(limit);
      bucket := new S3Store.Store(limit, cacheBytes);
    }

    /**
     A push of a regular archive.  The stores answer alike and hold the same
     afterwards exactly when the push needs no backup or has a free name for it;
     then both do as the map does.
     */
    method Replace(q: Request) returns (onDisk: Result<Site>, inBucket: Result<Site>)
      requires Valid() && q.Push? && Regular(q.archive, disk.limit) && q.version !in bucket.drawn
      modifies disk, disk.dir, bucket, bucket.cache
      ensures Sound() && bucket.drawn <= old(bucket.drawn) + {q.version}
      ensures bucket.Abs() == Apply(old(disk.Abs()), disk.limit, q)
      ensures Answered(inBucket) == Reply(old(disk.Abs()), disk.limit, q)
      ensures disk.Abs() == bucket.Abs() && Answered(onDisk) == Answered(inBucket) <==>
        Clear(old(disk.Abs()), disk.limit, q)
    {
      hide HeldInMemory, HeldOnDisk, Acceptable, Disjoint, Contents, ValidName, Regular, Describe, SiteDirs.During;
      hide LocalStore.StageName, LocalStore.BackupName;
      hide LocalStore.ShelfOf, S3Store.ShelfOf, S3Store.AllDescribed, S3Store.CacheTrue, S3Store.NoGarbage;
      StageIsFree(disk.dir.dirs, q.name, q.suffix);
      BlockedOnShelf(disk.dir.dirs, disk.expiries, q.name, q.ns);
      RegularHeldAlike(q.archive, disk.limit, Deadline(q.expiry, q.now));
      RegularIsDisjoint(q.archive, disk.limit);
      onDisk := disk.Replace(q.name, q.archive, q.expiry, q.now, q.suffix, q.ns, LocalStore.NoFault);
      inBucket := bucket.Replace(q.name, q.archive, q.expiry, q.now, q.version, q.young);
    }

    method Delete(name: string, young: bool) returns (onDisk: Result<()>, inBucket: Result<()>)
      requires Valid()
      modifies disk, disk.dir, bucket, bucket.cache
      ensures Valid() && disk.Abs() == Apply(old(disk.Abs()), disk.limit, Remove(name, young))
      ensures Removed(onDisk) == Removed(inBucket) == Reply(old(disk.Abs()), disk.limit, Remove(name, young))
      ensures bucket.drawn == old(bucket.drawn)
    {
      hide LocalStore.ShelfOf, S3Store.ShelfOf, S3Store.AllDescribed, S3Store.CacheTrue, S3Store.NoGarbage, ValidName;
      NotHeld(disk.dir.dirs, disk.expiries, name);
      onDisk := disk.Delete(name, false);
      inBucket := bucket.Delete(name, young);
    }

    /** A reaping pass removes the same sites from both, and leaves listed what readers were already shown. */
    method DeleteExpired(now: int) returns (onDisk: seq<string>, inBucket: seq<string>)
      requires Valid()
      modifies disk, disk.dir, bucket, bucket.cache
      ensures Valid() && disk.Abs() == Apply(old(disk.Abs()), disk.limit, Reap(now))
      ensures Swept(onDisk) == Swept(inBucket) == Reply(old(disk.Abs()), disk.limit, Reap(now))
      ensures Listing(disk.Abs()) == Unexpired(Listing(old(disk.Abs())), now)
      ensures bucket.drawn == old(bucket.drawn)
    {
      hide LocalStore.ShelfOf, S3Store.ShelfOf, S3Store.AllDescribed, S3Store.CacheTrue, S3Store.NoGarbage;
      hide ValidName, Listing, Overdues, Reaped;
      ReapIsHide(disk.Abs(), now);
      onDisk := disk.DeleteExpired(now, {});
      inBucket := bucket.DeleteExpired(now);
    }

    method Look(name: string, young: bool) returns (onDisk: Answer, inBucket: Answer)
      requires Valid()
      modifies bucket`meta, bucket`metaValid, bucket.cache
      ensures Valid() && disk.Abs() == old(disk.Abs())
      ensures onDisk == inBucket == Reply(disk.Abs(), disk.limit, Read(name, young))
    {
      hide LocalStore.ShelfOf, S3Store.ShelfOf, S3Store.AllDescribed, S3Store.CacheTrue, S3Store.NoGarbage, ValidName;
      var stat := disk.Stat(name);
      var stat' := bucket.Stat(name, young);
      var tree := disk.Open(name);
      var tree' := bucket.Open(name, young);
      var sites := disk.List();
      var sites' := bucket.List(young);
      return Seen(stat, tree, sites), Seen(stat', tree', sites');
    }

    method Serve(q: Request) returns (onDisk: Answer, inBucket: Answer)
      requires Valid() && Orderly(disk.Abs(), disk.limit, q) && (q.Push? ==> q.version !in bucket.drawn)
      modifies disk, disk.dir, bucket, bucket.cache
      ensures Valid() && disk.Abs() == Apply(old(disk.Abs()), disk.limit, q)
      ensures onDisk == inBucket == Reply(old(disk.Abs()), disk.limit, q)
      ensures bucket.drawn <= old(bucket.drawn) + Drawn([q])
    {
      hide Sound, Apply, Reply, Regular, Clear, LocalStore.ShelfOf, S3Store.ShelfOf;
      match q {
        case Push(_, _, _, _, _, _, _, _) =>
          var r, r' := Replace(q);
          onDisk, inBucket := Answered(r), Answered(r');
          assert q in [q];
        case Remove(name, young) =>
          var r, r' := Delete(name, young);
          onDisk, inBucket := Removed(r), Removed(r');
        case Reap(now) =>
          var r, r' := DeleteExpired(now);
          onDisk, inBucket := Swept(r), Swept(r');
        case Read(name, young) =>
          onDisk, inBucket := Look(name, young);
          ReadChangesNothing(disk.Abs(), disk.limit, name, young);
      }
    }

    /** Over every run both give the answers of the simple store, and hold what it holds. */
    method Run(qs: seq<Request>) returns (onDisk: seq<Answer>, inBucket: seq<Answer>)
      requires Valid() && OrderlyRun(disk.Abs(), disk.limit, qs) && Drawn(qs) !! bucket.drawn
      modifies disk, disk.dir, bucket, bucket.cache
      ensures onDisk == inBucket == Replies(old(disk.Abs()), disk.limit, qs)
      ensures Valid() && disk.Abs() == bucket.Abs() == ShelfAfter(old(disk.Abs()), disk.limit, qs)
    {
      hide Valid, Apply, Reply, Orderly, LocalStore.ShelfOf, S3Store.ShelfOf;
      onDisk, inBucket := [], [];
      for i := 0 to |qs|
        invariant Valid()
        invariant bucket.drawn <= old(bucket.drawn) + Drawn(qs[..i])
        invariant onDisk == inBucket == Replies(old(disk.Abs()), disk.limit, qs[..i])
        invariant disk.Abs() == ShelfAfter(old(disk.Abs()), disk.limit, qs[..i])
      {
        NextDraw(qs, i, old(bucket.drawn));
        assert qs[..i + 1][..i] == qs[..i];
        var x, x' := Serve(qs[i]);
        onDisk, inBucket := onDisk + [x], inBucket + [x'];
      }
      assert qs[..|qs|] == qs;
      SameShelf();
    }

    lemma SameShelf()
      requires Valid()
      ensures disk.Abs() == bucket.Abs()
    {}
  }

  function Answered(r: Result<Site>): Answer {
    Pushed(if r.Ok? then Some(r.value) else None)
  }

  lemma ReadChangesNothing(shelf: Shelf, limit: Int64, name: string, young: bool)
    ensures Apply(shelf, limit, Read(name, young)) == shelf
  {}

  /** A version is drawn once. */
  lemma NextDraw(qs: seq<Request>, i: nat, before: set<string>)
    requires i < |qs| && Drawn(qs) !! before
    requires forall i, j :: 0 <= i < j < |qs| && qs[i].Push? && qs[j].Push? ==> qs[i].version != qs[j].version
    ensures qs[i].Push? ==> qs[i].version !in before + Drawn(qs[..i])
    ensures Drawn(qs[..i + 1]) == Drawn(qs[..i]) + Drawn([qs[i]])
  {
    assert qs[..i + 1] == qs[..i] + [qs[i]];
    assert qs[i] in qs;
  }

  lemma RegularIsDisjoint(a: Archive, limit: Int64)
    requires Regular(a, limit)
    ensures Disjoint(Contents(Disk, a, limit))
  {
    hide Contents, Disjoint, DistinctFiles;
  }

  lemma {:induction false} StageIsFree(root: SiteDirs.Root, name: string, suffix: string)
    requires forall n :: n in root ==> ValidName(n)
    ensures LocalStore.StageName(name, suffix) !in root
  {
    assert LocalStore.StageName(name, suffix)[0] == '.';
  }

  /** A push is blocked exactly when it would back up under a held site's name. */
  lemma {:induction false} BlockedOnShelf(root: SiteDirs.Root, expiries: map<string, int>, name: string, ns: string)
    requires forall n :: n in root ==> ValidName(n)
    ensures
      var shelf := LocalStore.ShelfOf(root, expiries);
      LocalStore.BackupBlocked(root, name, ns) <==> name in shelf && LocalStore.BackupName(name, ns) in shelf
  {
    hide TotalBytes, ValidName;
  }

  lemma NotHeld(root: SiteDirs.Root, expiries: map<string, int>, name: string)
    ensures var shelf := LocalStore.ShelfOf(root, expiries); Find(shelf, name).Err? ==> shelf - {name} == shelf
  {
    hide TotalBytes, ValidName;
  }
}
