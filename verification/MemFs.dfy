/**
 The in-memory tree an uploaded archive is expanded into: files, known
 directories, and per directory the list of its children's names, all built
 incrementally in archive order.
 */
module MemFs {
  import opened Results
  import opened Paths
  import opened Ordering
  import opened Archives

  type Kids = map<Path, seq<string>>

  /** The children of a directory; no list means no children. */
  function KidsAt(kids: Kids, p: Path): seq<string> {
    if p in kids then kids[p] else []
  }

  /** How often c's name stands in its parent's list. */
  ghost function Listed(kids: Kids, c: Path): nat {
    if c == [] then 0 else multiset(KidsAt(kids, Dir(c)))[Base(c)]
  }

  ghost function Known(files: set<Path>, dirs: set<Path>, c: Path): nat {
    (if c in files then 1 else 0) + (if c in dirs then 1 else 0)
  }

  /** A listed name stands for a path below the directory that lists it. */
  ghost predicate Names(p: Path, b: string) {
    var c := Child(p, b);
    Proper(c) && Dir(c) == p && Base(c) == b
  }

  /** The lists hold each file and each directory once (a path that is both, twice) and nothing else. */
  ghost predicate Linked(files: set<Path>, dirs: set<Path>, kids: Kids) {
    && (forall c :: Proper(c) && c != [] ==> Listed(kids, c) == Known(files, dirs, c))
    && (forall p, i :: 0 <= i < |KidsAt(kids, p)| ==> Names(p, KidsAt(kids, p)[i]))
  }

  /** Parents of what is known are known directories. */
  ghost predicate Closed(files: set<Path>, dirs: set<Path>) {
    && [] in dirs
    && (forall p :: p in dirs ==> Proper(p) && Dir(p) in dirs)
    && (forall p :: p in files ==> Proper(p) && p != [] && Dir(p) in dirs)
  }

  ghost predicate SortedLists(kids: Kids) {
    forall p :: p in kids ==> Sorted(kids[p])
  }

  /** A walk that starts at "." and follows listed names arrives at p. */
  ghost predicate Reached(dirs: set<Path>, kids: Kids, p: Path) {
    p == [] || (
      var n := |p| - 1;
      p[n] in KidsAt(kids, p[..n]) && p[..n] in dirs && Reached(dirs, kids, p[..n]) && p != [""])
  }

  /** The walk finds exactly the known paths that are not rooted. */
  lemma {:induction false} WalkFindsAll(files: set<Path>, dirs: set<Path>, kids: Kids, p: Path)
    requires Closed(files, dirs) && Linked(files, dirs, kids)
    requires p in files || p in dirs
    ensures Reached(dirs, kids, p) <==> p == [] || p[0] != ""
    decreases |p|
  {
    if p != [] && p != [""] {
      var d := Dir(p);
      assert d == p[..|p| - 1];
      assert Listed(kids, p) == Known(files, dirs, p) >= 1;
      WalkFindsAll(files, dirs, kids, d);
    }
  }

  /** Whatever a list names is a file or a directory, so entriesFor classifies it correctly. */
  lemma {:induction false} ListedIsKnown(files: set<Path>, dirs: set<Path>, kids: Kids, p: Path, b: string)
    requires Linked(files, dirs, kids) && b in KidsAt(kids, p)
    ensures Child(p, b) in files || Child(p, b) in dirs
  {
    var i :| 0 <= i < |KidsAt(kids, p)| && KidsAt(kids, p)[i] == b;
    assert Names(p, b);
    var c := Child(p, b);
    assert Listed(kids, c) == Known(files, dirs, c);
  }

  /** Closing under parents closes under all prefixes: why the upward loop may stop at a known directory. */
  lemma {:induction false} AncestorsKnown(files: set<Path>, dirs: set<Path>, p: Path)
    requires Closed(files, dirs) && p in dirs
    ensures Prefixes(p) <= dirs
    decreases |p|
  {
    if p == [] {
      assert Prefixes(p) == {[]} by { assert p[..0] == []; }
    } else {
      assert Prefixes(p) == Prefixes(p[..|p| - 1]) + {p} by { PrefixStep(p); }
      if p == [""] {
        AncestorsKnown(files, dirs, []);
      } else {
        AncestorsKnown(files, dirs, Dir(p));
      }
    }
  }

  lemma PrefixStep(p: Path)
    requires p != []
    ensures Prefixes(p) == Prefixes(p[..|p| - 1]) + {p}
  {
    var d := p[..|p| - 1];
    assert forall k :: 0 <= k <= |d| ==> d[..k] == p[..k];
    assert p[..|p|] == p;
  }

  /** The sorted lists are determined by the files and directories alone. */
  lemma {:induction false} ListsDetermined(files: set<Path>, dirs: set<Path>, a: Kids, b: Kids, p: Path)
    requires Linked(files, dirs, a) && Linked(files, dirs, b)
    requires SortedLists(a) && SortedLists(b)
    ensures KidsAt(a, p) == KidsAt(b, p)
  {
    var x, y := KidsAt(a, p), KidsAt(b, p);
    forall s ensures multiset(x)[s] == multiset(y)[s] {
      var c := Child(p, s);
      if s in x || s in y {
        assert Names(p, s);
        assert Listed(a, c) == Known(files, dirs, c) == Listed(b, c);
      }
    }
    assert multiset(x) == multiset(y);
    SortedUnique(x, y);
  }

  class Tree {
    var files: map<Path, Bytes>
    var isDir: set<Path>
    var kids: Kids

    ghost predicate Valid()
      reads this
    {
      Closed(files.Keys, isDir) && Linked(files.Keys, isDir, kids)
    }

    constructor ()
      ensures Valid()
      ensures files == map[] && isDir == {[]} && SortedLists(kids)
    {
      files, isDir, kids := map[], {[]}, map[[] := []];
    }

    /** Records dir and every ancestor, walking up until a directory is already known. */
    method AddDir(dir: Path)
      requires Valid() && Proper(dir)
      modifies this`isDir, this`kids
      ensures Valid()
      ensures isDir == old(isDir) + Prefixes(dir)
    {
      hide Linked;
      var d := dir;
      assert dir[..|dir|] == dir;
      while d != [] && d !in isDir
        invariant |d| <= |dir| && d == dir[..|d|] && Proper(d)
        invariant old(isDir) <= isDir <= old(isDir) + Prefixes(dir)
        invariant forall k :: |d| < k <= |dir| ==> dir[..k] in isDir
        invariant forall p :: p in isDir ==> Proper(p) && (Dir(p) in isDir || Dir(p) == d)
        invariant Linked(files.Keys, isDir, kids)
        decreases if d in isDir then 0 else |d| + 1
      {
        var parent := Dir(d);
        ChildOfParent(d);
        assert parent == dir[..|parent|];
        assert d in Prefixes(dir);
        LinkedStep(files.Keys, isDir, kids, d, files.Keys, isDir + {d});
        isDir := isDir + {d};
        kids := NameOnce(kids, d);
        d := parent;
      }
      assert Closed(files.Keys, isDir);
      AncestorsKnown(files.Keys, isDir, d);
      forall k | 0 <= k <= |dir| ensures dir[..k] in isDir {
        if k <= |d| {
          assert dir[..k] == d[..k];
          assert d[..k] in Prefixes(d);
        }
      }
    }

    /** Adds a file unless its name is taken: the first of two entries stays. */
    method AddFile(name: Path, data: Bytes)
      requires Valid() && Proper(name) && name != []
      modifies this
      ensures Valid()
      ensures files == if name in old(files) then old(files) else old(files)[name := data]
      ensures isDir == old(isDir) + Prefixes(Dir(name))
    {
      hide Linked;
      if name in files {
        AncestorsKnown(files.Keys, isDir, Dir(name));
        return;
      }
      ChildOfParent(name);
      var dir := Dir(name);
      AddDir(dir);
      assert dir[..|dir|] == dir && dir in Prefixes(dir);
      LinkedStep(files.Keys, isDir, kids, name, files.Keys + {name}, isDir);
      files := files[name := data];
      kids := NameOnce(kids, name);
      assert files.Keys == old(files.Keys) + {name};
    }

    /** Sorts every list, in whatever order the map yields them. */
    method SortDirs()
      requires Valid()
      modifies this`kids
      ensures Valid() && SortedLists(kids)
    {
      var todo := kids.Keys;
      while todo != {}
        invariant todo <= kids.Keys
        invariant Linked(files.Keys, isDir, kids)
        invariant forall p :: p in kids && p !in todo ==> Sorted(kids[p])
      {
        var p :| p in todo;
        LinkedSorted(files.Keys, isDir, kids, p);
        kids := kids[p := Sort(kids[p])];
        todo := todo - {p};
      }
    }
  }

  function NameOnce(kids: Kids, c: Path): Kids
    requires c != []
  {
    kids[Dir(c) := KidsAt(kids, Dir(c)) + [Base(c)]]
  }

  lemma ListedStep(kids: Kids, c: Path, x: Path)
    requires Proper(c) && c != [] && Proper(x) && x != []
    ensures Listed(NameOnce(kids, c), x) == Listed(kids, x) + if x == c then 1 else 0
  {
    ChildOfParent(c);
    ChildOfParent(x);
    var d, b := Dir(c), Base(c);
    if Dir(x) == d {
      assert multiset(KidsAt(kids, d) + [b]) == multiset(KidsAt(kids, d)) + multiset{b};
    }
  }

  /** The new list names what the old one named, and c. */
  lemma NamesKept(kids: Kids, c: Path, p: Path, i: nat)
    requires c != [] && i < |KidsAt(NameOnce(kids, c), p)|
    ensures
      || (i < |KidsAt(kids, p)| && KidsAt(NameOnce(kids, c), p)[i] == KidsAt(kids, p)[i])
      || (p == Dir(c) && KidsAt(NameOnce(kids, c), p)[i] == Base(c))
  {}

  /** c becomes known once more, as a file or as a directory. */
  ghost predicate Learns(files: set<Path>, dirs: set<Path>, c: Path, files': set<Path>, dirs': set<Path>) {
    || (c !in files && files' == files + {c} && dirs' == dirs)
    || (c !in dirs && dirs' == dirs + {c} && files' == files)
  }

  lemma KnownStep(files: set<Path>, dirs: set<Path>, c: Path, files': set<Path>, dirs': set<Path>, x: Path)
    requires Learns(files, dirs, c, files', dirs')
    ensures Known(files', dirs', x) == Known(files, dirs, x) + if x == c then 1 else 0
  {}

  /** Naming c once in its parent's list pays for knowing c once more. */
  lemma {:induction false} LinkedStep(
    files: set<Path>, dirs: set<Path>, kids: Kids, c: Path, files': set<Path>, dirs': set<Path>)
    requires Linked(files, dirs, kids) && Proper(c) && c != []
    requires Learns(files, dirs, c, files', dirs')
    ensures Linked(files', dirs', NameOnce(kids, c))
  {
    assert Names(Dir(c), Base(c)) by { ChildOfParent(c); }
    hide Listed, Names, NameOnce, Proper, Dir, Base, Known, Learns, KidsAt;
    var kids' := NameOnce(kids, c);
    forall x | Proper(x) && x != [] ensures Listed(kids', x) == Known(files', dirs', x) {
      ListedStep(kids, c, x);
      KnownStep(files, dirs, c, files', dirs', x);
    }
    forall p, i | 0 <= i < |KidsAt(kids', p)| ensures Names(p, KidsAt(kids', p)[i]) {
      NamesKept(kids, c, p, i);
    }
  }

  lemma LinkedSorted(files: set<Path>, dirs: set<Path>, kids: Kids, p: Path)
    requires Linked(files, dirs, kids) && p in kids
    ensures Linked(files, dirs, kids[p := Sort(kids[p])])
  {
    var sorted := Sort(kids[p]);
    var kids' := kids[p := sorted];
    forall x | Proper(x) && x != [] ensures Listed(kids', x) == Known(files, dirs, x) {
      assert Listed(kids, x) == Known(files, dirs, x);
    }
    forall q, i | 0 <= i < |KidsAt(kids', q)| ensures Names(q, KidsAt(kids', q)[i]) {
      if q == p {
        assert sorted[i] in multiset(kids[p]);
        var j :| 0 <= j < |kids[p]| && kids[p][j] == sorted[i];
        assert Names(p, KidsAt(kids, p)[j]);
      } else {
        assert Names(q, KidsAt(kids, q)[i]);
      }
    }
  }

  /**
   Expands an archive.  It accepts exactly the archives that are readable, safe
   and within the cap; the tree holds the archive's files and directories, and
   no more than one byte beyond the cap is ever copied.
   */
  method UnpackTar(a: Archive, limit: Int64) returns (r: Result<Tree>, written: nat)
    ensures r.Ok? <==> Acceptable(Memory, a, limit)
    ensures r.Ok? ==> fresh(r.value) && r.value.Valid() && SortedLists(r.value.kids)
    ensures r.Ok? ==>
      var xs := Contents(Memory, a, limit);
      r.value.files == FirstFiles(xs) && r.value.isDir == DirsOf(xs) && written == Volume(xs)
    ensures 0 < limit < MAX_INT64 ==> written <= limit + 1
  {
    hide Closed, Linked, SortedLists, Contents, Locate, SafeTarPath, DirsOf, FirstFiles, Volume, Prefixes;
    ghost var xs := Contents(Memory, a, limit);
    var m := new Tree();
    written := 0;
    EmptyMeaning(xs);
    for i := 0 to |a.entries|
      invariant fresh(m) && m.Valid()
      invariant forall j :: 0 <= j < i ==> SafeTarPath(a.entries[j].name).Ok?
      invariant m.files == FirstFiles(xs[..i]) && m.isDir == DirsOf(xs[..i])
      invariant written == Volume(xs[..i]) && Fits(limit, written)
      invariant limit == MAX_INT64 ==> written == 0
    {
      var e := a.entries[i];
      ContentsAt(Memory, a, limit, i);
      MeaningStep(xs, i);
      VolumeGrows(xs, i + 1);
      var at := Locate(Memory, e.name);
      if at.Err? {
        return Err(UnsafePath), written;
      }
      var clean := at.value;
      if clean == [] {
        continue;
      }
      match e.kind {
        case DirectoryEntry =>
          m.AddDir(clean);
        case RegularEntry =>
          var n := CopyCount(|e.data|, limit, written);
          written := written + n;
          if limit > 0 && written > limit {
            return Err(SiteTooLarge), written;
          }
          assert e.data[..n] == xs[i].data;
          m.AddFile(clean, e.data[..n]);
        case OtherEntry =>
      }
      assert m.isDir == DirsOf(xs[..i + 1]);
    }
    assert xs[..|a.entries|] == xs;
    if a.broken {
      return Err(TarRead), written;
    }
    m.SortDirs();
    return Ok(m), written;
  }

  /** One reading of an archive: the outcome's files, directories and sorted lists. */
  ghost predicate Expands(a: Archive, limit: Int64, files: map<Path, Bytes>, dirs: set<Path>, kids: Kids) {
    var xs := Contents(Memory, a, limit);
    && Acceptable(Memory, a, limit)
    && files == FirstFiles(xs) && dirs == DirsOf(xs)
    && Linked(files.Keys, dirs, kids) && SortedLists(kids)
  }

  lemma VisiblePermuted(limit: Int64, a: seq<Entry>, b: seq<Entry>)
    requires multiset(a) == multiset(b)
    ensures multiset(Visible(limit, a)) == multiset(Visible(limit, b))
  {
    if limit == MAX_INT64 {
      var blank := (e: Entry) => e.(data := []);
      assert Visible(limit, a) == Map(blank, a);
      assert Visible(limit, b) == Map(blank, b);
      MapPermuted(blank, a, b);
    }
  }

  /** Acceptance does not depend on the order of the entries. */
  lemma {:induction false} AcceptancePermuted(t: Target, a: Archive, b: Archive, limit: Int64)
    requires multiset(a.entries) == multiset(b.entries) && a.broken == b.broken
    ensures Acceptable(t, a, limit) <==> Acceptable(t, b, limit)
    ensures multiset(Contents(t, a, limit)) == multiset(Contents(t, b, limit))
  {
    SameMembers(a.entries, b.entries);
    assert forall i :: 0 <= i < |a.entries| ==> a.entries[i] in b.entries;
    assert forall i :: 0 <= i < |b.entries| ==> b.entries[i] in a.entries;
    VisiblePermuted(limit, a.entries, b.entries);
    ItemsPermuted(t, Visible(limit, a.entries), Visible(limit, b.entries));
    VolumePermuted(Contents(t, a, limit), Contents(t, b, limit));
  }

  /**
   Entry order does not matter: two orders of one archive give the same
   directories, file names and sorted lists, and the same bytes unless two
   entries of one name disagree.
   */
  lemma {:induction false} OrderIndependent(a: Archive, b: Archive, limit: Int64,
                         filesA: map<Path, Bytes>, dirsA: set<Path>, kidsA: Kids,
                         filesB: map<Path, Bytes>, dirsB: set<Path>, kidsB: Kids)
    requires multiset(a.entries) == multiset(b.entries)
    requires Expands(a, limit, filesA, dirsA, kidsA) && Expands(b, limit, filesB, dirsB, kidsB)
    ensures dirsA == dirsB && filesA.Keys == filesB.Keys
    ensures forall p :: KidsAt(kidsA, p) == KidsAt(kidsB, p)
    ensures Consistent(Contents(Memory, a, limit)) ==> filesA == filesB
  {
    AcceptancePermuted(Memory, a, b, limit);
    var xs, ys := Contents(Memory, a, limit), Contents(Memory, b, limit);
    MeaningPermuted(xs, ys);
    FileKeys(xs);
    FileKeys(ys);
    forall p ensures KidsAt(kidsA, p) == KidsAt(kidsB, p) {
      ListsDetermined(filesA.Keys, dirsA, kidsA, kidsB, p);
    }
  }

  // ----- where order does matter

  lemma {:induction false} FirstWins(xs: seq<Item>)
    requires xs != [] && xs[0].kind.RegularEntry?
    ensures xs[0].path in FirstFiles(xs) && FirstFiles(xs)[xs[0].path] == xs[0].data
  {
    if |xs| > 1 {
      FirstWins(xs[..|xs| - 1]);
    } else {
      assert xs[..0] == [];
    }
  }

  function Fronted(a: Archive, i: nat): Archive
    requires i < |a.entries|
  {
    Archive([a.entries[i]] + a.entries[..i] + a.entries[i + 1..], a.broken)
  }

  lemma FrontedWins(a: Archive, limit: Int64, i: nat)
    requires i < |a.entries| && Contents(Memory, a, limit)[i].kind.RegularEntry?
    ensures multiset(Fronted(a, i).entries) == multiset(a.entries)
    ensures
      var x, files := Contents(Memory, a, limit)[i], FirstFiles(Contents(Memory, Fronted(a, i), limit));
      x.path in files && files[x.path] == x.data
  {
    hide Place;
    assert a.entries == a.entries[..i] + [a.entries[i]] + a.entries[i + 1..];
    var ys := Contents(Memory, Fronted(a, i), limit);
    assert Fronted(a, i).entries[0] == a.entries[i];
    assert ys[0] == Contents(Memory, a, limit)[i];
    FirstWins(ys);
  }

  /** Entries of one name that disagree make the order matter: some other order gives other bytes. */
  lemma {:induction false} OrderMatters(a: Archive, limit: Int64) returns (b: Archive)
    requires !Consistent(Contents(Memory, a, limit))
    ensures multiset(b.entries) == multiset(a.entries) && b.broken == a.broken
    ensures FirstFiles(Contents(Memory, b, limit)) != FirstFiles(Contents(Memory, a, limit))
  {
    hide Contents, FirstFiles;
    var xs := Contents(Memory, a, limit);
    var x, y :| x in xs && y in xs && x.kind.RegularEntry? && y.kind.RegularEntry? && x.path == y.path &&
      x.data != y.data;
    var i :| 0 <= i < |xs| && xs[i] == x;
    var j :| 0 <= j < |xs| && xs[j] == y;
    FrontedWins(a, limit, i);
    FrontedWins(a, limit, j);
    b := if FirstFiles(Contents(Memory, Fronted(a, i), limit)) != FirstFiles(xs) then Fronted(a, i) else Fronted(a, j);
  }
}
