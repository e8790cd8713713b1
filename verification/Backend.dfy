/**
 What a storage backend promises the server, on the simplest state that can
 keep the promise: a map from site name to its tree, size and deadline.
 */
module Backend {
  import opened Results
  import opened Paths
  import opened Ordering
  import opened Archives
  import opened Extract
  import opened Names

  /** One site: its files and directories, its reported size, and its deadline if it has one. */
  datatype Held = Held(tree: Expansion, sizeBytes: nat, expiresAt: Option<int>)

  type Shelf = map<string, Held>

  /** What the index and the API show of a site. */
  datatype Site = Site(name: string, fileCount: nat, sizeBytes: nat, expiresAt: Option<int>)

  function Describe(name: string, h: Held): Site {
    Site(name, |h.tree.files|, h.sizeBytes, h.expiresAt)
  }

  // ----- listings

  ghost function SitesOf(shelf: Shelf, names: seq<string>): (r: seq<Site>)
    requires forall i :: 0 <= i < |names| ==> names[i] in shelf
    ensures |r| == |names| && forall i :: 0 <= i < |names| ==> r[i] == Describe(names[i], shelf[names[i]])
  {
    seq(|names|, i requires 0 <= i < |names| => Describe(names[i], shelf[names[i]]))
  }

  /** Every site, sorted by name. */
  ghost function Listing(shelf: Shelf): seq<Site> {
    AscendingExact(shelf.Keys);
    assert forall i :: 0 <= i < |Ascending(shelf.Keys)| ==> Ascending(shelf.Keys)[i] in ToSet(Ascending(shelf.Keys));
    SitesOf(shelf, Ascending(shelf.Keys))
  }

  // ----- operations

  ghost function Find(shelf: Shelf, name: string): Result<Held> {
    if !ValidName(name) then Err(InvalidName) else if name !in shelf then Err(NotFound) else Ok(shelf[name])
  }

  ghost function StatOf(shelf: Shelf, name: string): Result<Site> {
    match Find(shelf, name)
    case Err(e) => Err(e)
    case Ok(h) => Ok(Describe(name, h))
  }

  ghost function OpenOf(shelf: Shelf, name: string): Result<Expansion> {
    match Find(shelf, name)
    case Err(e) => Err(e)
    case Ok(h) => Ok(h.tree)
  }

  /** What a caller is told of a name: why there is nothing, or the site's file count, size and deadline. */
  lemma {:induction false} StatExact(shelf: Shelf, name: string)
    ensures !ValidName(name) ==> StatOf(shelf, name) == Err(InvalidName) && OpenOf(shelf, name) == Err(InvalidName)
    ensures ValidName(name) && name !in shelf ==>
      StatOf(shelf, name) == Err(NotFound) && OpenOf(shelf, name) == Err(NotFound)
    ensures ValidName(name) && name in shelf ==>
      var h := shelf[name];
      && StatOf(shelf, name) == Ok(Site(name, |h.tree.files|, h.sizeBytes, h.expiresAt))
      && OpenOf(shelf, name) == Ok(h.tree)
  {}

  predicate Expired(s: Site, now: int) {
    s.expiresAt.Some? && s.expiresAt.value <= now
  }

  predicate Overdue(h: Held, now: int) {
    h.expiresAt.Some? && h.expiresAt.value <= now
  }

  ghost function Reaped(shelf: Shelf, now: int): Shelf {
    map n | n in shelf && !Overdue(shelf[n], now) :: shelf[n]
  }

  /** The sites a reader is shown: order kept, expired ones left out. */
  function Unexpired(sites: seq<Site>, now: int): seq<Site> {
    if sites == [] then []
    else
      var front := Unexpired(sites[..|sites| - 1], now);
      if Expired(sites[|sites| - 1], now) then front else front + [sites[|sites| - 1]]
  }

  ghost function NamesOf(sites: seq<Site>): (r: seq<string>)
    ensures |r| == |sites| && forall i :: 0 <= i < |sites| ==> r[i] == sites[i].name
  {
    seq(|sites|, i requires 0 <= i < |sites| => sites[i].name)
  }

  lemma {:induction false} InUnexpired(sites: seq<Site>, now: int, s: Site)
    ensures s in Unexpired(sites, now) <==> s in sites && !Expired(s, now)
  {
    if sites != [] {
      InUnexpired(sites[..|sites| - 1], now, s);
      assert sites == sites[..|sites| - 1] + [sites[|sites| - 1]];
    }
  }

  lemma {:induction false} UnexpiredInOrder(sites: seq<Site>, now: int)
    requires Sorted(NamesOf(sites)) && Distinct(NamesOf(sites))
    ensures Sorted(NamesOf(Unexpired(sites, now))) && Distinct(NamesOf(Unexpired(sites, now)))
  {
    hide Le, Expired;
    if sites != [] {
      var n := |sites| - 1;
      var front, last := sites[..n], sites[n];
      assert NamesOf(front) == NamesOf(sites)[..n];
      UnexpiredInOrder(front, now);
      var kept := Unexpired(front, now);
      forall i | 0 <= i < |kept| ensures Le(kept[i].name, last.name) && kept[i].name != last.name {
        InUnexpired(front, now, kept[i]);
        var j :| 0 <= j < |front| && front[j] == kept[i];
        assert NamesOf(sites)[j] == kept[i].name && NamesOf(sites)[n] == last.name;
      }
      assert NamesOf(kept + [last]) == NamesOf(kept) + [last.name];
    }
  }

  /** Leaving out keeps order, and keeps exactly the unexpired. */
  lemma {:induction false} UnexpiredExact(sites: seq<Site>, now: int)
    requires Sorted(NamesOf(sites)) && Distinct(NamesOf(sites))
    ensures Sorted(NamesOf(Unexpired(sites, now))) && Distinct(NamesOf(Unexpired(sites, now)))
    ensures forall s :: s in Unexpired(sites, now) <==> s in sites && !Expired(s, now)
  {
    hide Unexpired, Sorted, Distinct;
    UnexpiredInOrder(sites, now);
    forall s: Site ensures s in Unexpired(sites, now) <==> s in sites && !Expired(s, now) {
      InUnexpired(sites, now, s);
    }
  }

  lemma InListing(shelf: Shelf, s: Site)
    ensures s in Listing(shelf) <==> s.name in shelf && s == Describe(s.name, shelf[s.name])
  {
    hide Ascending;
    AscendingExact(shelf.Keys);
    var names := Ascending(shelf.Keys);
    if s.name in shelf && s == Describe(s.name, shelf[s.name]) {
      assert s.name in ToSet(names);
      var i :| 0 <= i < |names| && names[i] == s.name;
      assert Listing(shelf)[i] == s;
    }
    if s in Listing(shelf) {
      var i :| 0 <= i < |names| && Listing(shelf)[i] == s;
      assert names[i] in ToSet(names);
    }
  }

  lemma {:induction false} ListingExact(shelf: Shelf)
    ensures Sorted(NamesOf(Listing(shelf))) && Distinct(NamesOf(Listing(shelf)))
    ensures forall s :: s in Listing(shelf) <==> s.name in shelf && s == Describe(s.name, shelf[s.name])
    ensures NamesOf(Listing(shelf)) == Ascending(shelf.Keys)
  {
    hide Ascending;
    AscendingExact(shelf.Keys);
    assert NamesOf(Listing(shelf)) == Ascending(shelf.Keys);
    forall s: Site ensures s in Listing(shelf) <==> s.name in shelf && s == Describe(s.name, shelf[s.name]) {
      InListing(shelf, s);
    }
  }

  /** A sorted list of correct descriptions of every site is the listing. */
  lemma {:induction false} ListingUnique(shelf: Shelf, sites: seq<Site>)
    requires Sorted(NamesOf(sites)) && Distinct(NamesOf(sites))
    requires forall s :: s in sites <==> s.name in shelf && s == Describe(s.name, shelf[s.name])
    ensures sites == Listing(shelf)
  {
    ListingExact(shelf);
    var names := NamesOf(sites);
    forall n ensures n in ToSet(names) <==> n in shelf {
      if n in ToSet(names) {
        var i :| 0 <= i < |names| && names[i] == n;
        assert sites[i] in sites;
      }
      if n in shelf {
        var s := Describe(n, shelf[n]);
        assert s in sites;
        var i :| 0 <= i < |sites| && sites[i] == s;
        assert names[i] == n;
      }
    }
    assert ToSet(names) == shelf.Keys;
    AscendingUnique(names);
    forall i | 0 <= i < |sites| ensures sites[i] == Listing(shelf)[i] {
      assert sites[i] in sites;
      assert names[i] == NamesOf(Listing(shelf))[i];
      assert Listing(shelf)[i] in Listing(shelf);
    }
  }

  // ----- collecting a listing entry by entry

  /** sites describes those of the first i names that are on the shelf. */
  ghost predicate Collected(names: seq<string>, i: nat, shelf: Shelf, sites: seq<Site>) {
    && i <= |names|
    && Sorted(NamesOf(sites)) && Distinct(NamesOf(sites))
    && forall s :: s in sites <==> s.name in names[..i] && s.name in shelf && s == Describe(s.name, shelf[s.name])
  }

  lemma NothingCollected(entries: seq<string>, shelf: Shelf)
    ensures Collected(entries, 0, shelf, [])
  {}

  lemma CollectSkip(names: seq<string>, i: nat, shelf: Shelf, sites: seq<Site>)
    requires Collected(names, i, shelf, sites) && i < |names| && names[i] !in shelf
    ensures Collected(names, i + 1, shelf, sites)
  {
    assert names[..i + 1] == names[..i] + [names[i]];
  }

  lemma CollectAdd(names: seq<string>, i: nat, shelf: Shelf, sites: seq<Site>)
    requires Collected(names, i, shelf, sites) && i < |names| && names[i] in shelf
    requires Sorted(names) && Distinct(names)
    ensures Collected(names, i + 1, shelf, sites + [Describe(names[i], shelf[names[i]])])
  {
    var s := Describe(names[i], shelf[names[i]]);
    assert names[..i + 1] == names[..i] + [names[i]];
    assert NamesOf(sites + [s]) == NamesOf(sites) + [s.name];
    forall k | 0 <= k < |sites| ensures Le(sites[k].name, s.name) && sites[k].name != s.name {
      assert sites[k] in sites;
      var j :| 0 <= j < i && names[..i][j] == sites[k].name;
      assert names[j] == sites[k].name;
    }
  }

  lemma CollectAll(names: seq<string>, shelf: Shelf, sites: seq<Site>)
    requires Collected(names, |names|, shelf, sites) && shelf.Keys <= ToSet(names)
    ensures sites == Listing(shelf)
  {
    assert names[..|names|] == names;
    forall s: Site ensures s in sites <==> s.name in shelf && s == Describe(s.name, shelf[s.name]) {
      if s.name in shelf { assert s.name in ToSet(names); }
    }
    ListingUnique(shelf, sites);
  }

  // ----- reaping

  /** The expired sites of a listing, in order. */
  function Overdues(sites: seq<Site>, now: int): seq<Site> {
    if sites == [] then []
    else
      var front := Overdues(sites[..|sites| - 1], now);
      if Expired(sites[|sites| - 1], now) then front + [sites[|sites| - 1]] else front
  }

  lemma NothingOverdue(sites: seq<Site>, now: int)
    ensures NamesOf(Overdues(sites[..0], now)) == []
  {}

  lemma OverduesStep(sites: seq<Site>, i: nat, now: int)
    requires i < |sites|
    ensures
      var done, next := Overdues(sites[..i], now), Overdues(sites[..i + 1], now);
      && next == done + (if Expired(sites[i], now) then [sites[i]] else [])
      && (Expired(sites[i], now) ==> NamesOf(next) == NamesOf(done) + [sites[i].name])
  {
    assert sites[..i + 1][..i] == sites[..i];
  }

  lemma {:induction false} InOverdues(sites: seq<Site>, now: int, s: Site)
    ensures s in Overdues(sites, now) <==> s in sites && Expired(s, now)
  {
    if sites != [] {
      InOverdues(sites[..|sites| - 1], now, s);
      assert sites == sites[..|sites| - 1] + [sites[|sites| - 1]];
    }
  }

  /** A name is reaped once. */
  lemma NotYetReaped(sites: seq<Site>, i: nat, now: int)
    requires Distinct(NamesOf(sites)) && i < |sites|
    ensures sites[i].name !in NamesOf(Overdues(sites[..i], now))
  {
    var done := Overdues(sites[..i], now);
    forall k | 0 <= k < |done| ensures done[k].name != sites[i].name {
      InOverdues(sites[..i], now, done[k]);
      assert done[k] in done;
      var j :| 0 <= j < i && sites[..i][j] == done[k];
      assert NamesOf(sites)[j] == done[k].name && NamesOf(sites)[i] == sites[i].name;
    }
  }

  lemma OneMoreGone(shelf: Shelf, gone: seq<string>, name: string)
    ensures shelf - ToSet(gone) - {name} == shelf - ToSet(gone + [name])
  {
    assert ToSet(gone + [name]) == ToSet(gone) + {name};
  }

  /** Deleting the overdue sites one by one is reaping. */
  lemma ReapedByName(shelf: Shelf, now: int)
    ensures shelf - ToSet(NamesOf(Overdues(Listing(shelf), now))) == Reaped(shelf, now)
  {
    hide Listing;
    ListingExact(shelf);
    var due := Overdues(Listing(shelf), now);
    forall n | n in shelf ensures n in NamesOf(due) <==> Overdue(shelf[n], now) {
      var s := Describe(n, shelf[n]);
      InOverdues(Listing(shelf), now, s);
      if s in due {
        var k :| 0 <= k < |due| && due[k] == s;
        assert NamesOf(due)[k] == n;
      }
      if n in NamesOf(due) {
        var k :| 0 <= k < |due| && NamesOf(due)[k] == n;
        InOverdues(Listing(shelf), now, due[k]);
        assert due[k] in due;
      }
    }
  }

  /** Reaping commutes with hiding: what remains listed is what readers were already shown. */
  lemma {:induction false} ReapIsHide(shelf: Shelf, now: int)
    ensures Listing(Reaped(shelf, now)) == Unexpired(Listing(shelf), now)
  {
    ListingExact(shelf);
    UnexpiredExact(Listing(shelf), now);
    ListingUnique(Reaped(shelf, now), Unexpired(Listing(shelf), now));
  }

  // ----- sizes

  /** The bytes of all files of a tree. */
  ghost function TotalBytes(files: map<Path, Bytes>): nat {
    if files == map[] then 0 else var k :| k in files; |files[k]| + TotalBytes(files - {k})
  }

  lemma NoBytes()
    ensures TotalBytes(map[]) == 0
  {}

  lemma {:induction false} TotalBytesAt(files: map<Path, Bytes>, k: Path)
    requires k in files
    ensures TotalBytes(files) == |files[k]| + TotalBytes(files - {k})
    decreases |files|
  {
    var j :| j in files && TotalBytes(files) == |files[j]| + TotalBytes(files - {j});
    if j != k {
      TotalBytesAt(files - {j}, k);
      TotalBytesAt(files - {k}, j);
      assert files - {j} - {k} == files - {k} - {j};
    }
  }

  lemma TotalBytesAdd(files: map<Path, Bytes>, k: Path, data: Bytes)
    requires k !in files
    ensures TotalBytes(files[k := data]) == TotalBytes(files) + |data|
  {
    TotalBytesAt(files[k := data], k);
    assert files[k := data] - {k} == files;
  }

  ghost predicate DistinctFiles(xs: seq<Item>) {
    forall i, j :: 0 <= i < j < |xs| && xs[i].kind.RegularEntry? && xs[j].kind.RegularEntry? ==>
      xs[i].path != xs[j].path
  }

  /** With distinct names the reported size is the size of the tree. */
  lemma {:induction false} VolumeIsTotal(xs: seq<Item>)
    requires DistinctFiles(xs)
    ensures Volume(xs) == TotalBytes(FirstFiles(xs)) && FirstFiles(xs) == LastFiles(xs) && Consistent(xs)
  {
    if xs != [] {
      var n := |xs| - 1;
      VolumeIsTotal(xs[..n]);
      FileKeys(xs[..n]);
      if xs[n].kind.RegularEntry? {
        forall x | x in xs[..n] && x.kind.RegularEntry? ensures x.path != xs[n].path {
          var i :| 0 <= i < n && xs[..n][i] == x;
          assert xs[i] == x;
        }
        TotalBytesAdd(FirstFiles(xs[..n]), xs[n].path, xs[n].data);
      }
    }
    forall x, y | x in xs && y in xs && x.kind.RegularEntry? && y.kind.RegularEntry? && x.path == y.path
      ensures x.data == y.data
    {
      var i :| 0 <= i < |xs| && xs[i] == x;
      var j :| 0 <= j < |xs| && xs[j] == y;
    }
  }

  lemma {:induction false} TotalBytesPut(files: map<Path, Bytes>, k: Path, data: Bytes)
    ensures TotalBytes(files[k := data]) <= TotalBytes(files) + |data|
  {
    if k in files {
      TotalBytesAt(files, k);
      TotalBytesAt(files[k := data], k);
      assert files[k := data] - {k} == files - {k};
    } else {
      TotalBytesAdd(files, k, data);
    }
  }

  /** What is stored never exceeds what was counted, so an accepted archive stores no more than the cap. */
  lemma {:induction false} StoredWithinVolume(xs: seq<Item>)
    ensures TotalBytes(FirstFiles(xs)) <= Volume(xs) && TotalBytes(LastFiles(xs)) <= Volume(xs)
  {
    hide TotalBytes;
    NoBytes();
    if xs != [] {
      var n := |xs| - 1;
      StoredWithinVolume(xs[..n]);
      TotalBytesPut(FirstFiles(xs[..n]), xs[n].path, xs[n].data);
      TotalBytesPut(LastFiles(xs[..n]), xs[n].path, xs[n].data);
    }
  }

  // ----- what each backend holds of an archive

  /** Distinct names, no path both file and directory, no backslash. */
  ghost predicate Regular(a: Archive, limit: Int64) {
    NoBackslash(a) && Disjoint(Contents(Disk, a, limit)) && DistinctFiles(Contents(Disk, a, limit))
  }

  ghost function HeldInMemory(a: Archive, limit: Int64, expiresAt: Option<int>): (h: Held)
    ensures h.expiresAt == expiresAt
  {
    Held(Expanded(a, limit), Volume(Contents(Memory, a, limit)), expiresAt)
  }

  ghost function HeldOnDisk(a: Archive, limit: Int64, expiresAt: Option<int>): Held {
    var xs := Contents(Disk, a, limit);
    Held(Expansion(LastFiles(xs), DirsOf(xs)), TotalBytes(LastFiles(xs)), expiresAt)
  }

  /** What each backend holds of an archive: the last or the first of two entries of one name, and its size. */
  lemma {:induction false} HeldExact(a: Archive, limit: Int64, expiresAt: Option<int>)
    ensures
      var xs := Contents(Disk, a, limit);
      var files := LastFiles(xs);
      HeldOnDisk(a, limit, expiresAt) == Held(Expansion(files, DirsOf(xs)), TotalBytes(files), expiresAt)
    ensures
      var xs := Contents(Memory, a, limit);
      HeldInMemory(a, limit, expiresAt) == Held(Expansion(FirstFiles(xs), DirsOf(xs)), Volume(xs), expiresAt)
  {}

  /** Regular archives are held alike, and accepted alike. */
  lemma {:induction false} RegularHeldAlike(a: Archive, limit: Int64, expiresAt: Option<int>)
    requires Regular(a, limit)
    ensures HeldInMemory(a, limit, expiresAt) == HeldOnDisk(a, limit, expiresAt)
    ensures Acceptable(Memory, a, limit) <==> Acceptable(Disk, a, limit)
  {
    hide FirstFiles, LastFiles, DirsOf, Volume, Contents, Disjoint, DistinctFiles, Consistent, FileNames;
    hide TotalBytes, NoFileAtRoot;
    UnpackersAgree(a, limit);
    VolumeIsTotal(Contents(Disk, a, limit));
    DisjointMeansNoFileAtRoot(Contents(Disk, a, limit));
    DisjointAlike(a, limit);
  }

  lemma DisjointAlike(a: Archive, limit: Int64)
    requires NoBackslash(a) && Disjoint(Contents(Disk, a, limit))
    ensures Disjoint(Contents(Memory, a, limit))
  {
    hide Contents, DirsOf, FileNames;
    UnpackersAgree(a, limit);
  }
}
