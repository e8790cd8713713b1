/** Extraction of an archive into a directory on disk, as the local store does it. */
module Extract {
  import opened Results
  import opened Paths
  import opened Archives
  import opened MemFs

  /** A directory on disk, addressed by paths relative to it. */
  class DiskDir {
    var files: map<Path, Bytes>
    var dirs: set<Path>

    ghost predicate Valid()
      reads this
    {
      Closed(files.Keys, dirs) && files.Keys !! dirs
    }

    /** A freshly made, empty directory. */
    constructor ()
      ensures Valid() && files == map[] && dirs == {[]}
    {
      files, dirs := map[], {[]};
    }

    /** os.MkdirAll: a file anywhere on the way is an error, and then nothing is made. */
    method MkdirAll(p: Path) returns (ok: bool)
      requires Valid() && Proper(p) && (p == [] || p[0] != "")
      modifies this`dirs
      ensures Valid()
      ensures ok <==> Prefixes(p) !! files.Keys
      ensures dirs == if ok then old(dirs) + Prefixes(p) else old(dirs)
    {
      ok := forall k :: 0 <= k <= |p| ==> p[..k] !in files;
      if ok {
        ghost var before := dirs;
        dirs := dirs + set k | 0 <= k <= |p| :: p[..k];
        assert dirs == before + Prefixes(p);
        PrefixesClosed(files.Keys, before, p);
      } else {
        var k :| 0 <= k <= |p| && p[..k] in files;
        assert p[..k] in Prefixes(p);
      }
    }

    /** os.OpenFile with O_CREATE and O_TRUNC, then the write: fails on a directory, replaces a file. */
    method WriteFile(p: Path, data: Bytes) returns (ok: bool)
      requires Valid() && Proper(p) && Dir(p) in dirs
      modifies this`files
      ensures Valid()
      ensures ok <==> p !in dirs
      ensures files == if ok then old(files)[p := data] else old(files)
    {
      ok := p !in dirs;
      if ok {
        files := files[p := data];
        assert files.Keys == old(files.Keys) + {p};
      }
    }
  }

  lemma PrefixesClosed(files: set<Path>, dirs: set<Path>, p: Path)
    requires Closed(files, dirs) && Proper(p) && (p == [] || p[0] != "")
    ensures Closed(files, dirs + Prefixes(p))
  {
    forall q | q in Prefixes(p) ensures Proper(q) && Dir(q) in dirs + Prefixes(p) {
      var k :| 0 <= k <= |p| && q == p[..k];
      if k > 0 {
        assert q[..k - 1] == p[..k - 1];
        assert p[..k - 1] in Prefixes(p);
      }
    }
  }

  /** More items only add names and directories, so a clash stays. */
  lemma ClashStays(xs: seq<Item>, i: nat)
    requires i <= |xs| && !Disjoint(xs[..i])
    ensures !Disjoint(xs)
  {
    assert forall x :: x in xs[..i] ==> x in xs;
    assert FileNames(xs[..i]) <= FileNames(xs) && DirsOf(xs[..i]) <= DirsOf(xs);
  }

  lemma NamesStep(xs: seq<Item>, i: nat)
    requires i < |xs|
    ensures FileNames(xs[..i + 1]) == FileNames(xs[..i]) + if xs[i].kind.RegularEntry? then {xs[i].path} else {}
  {
    assert xs[..i + 1] == xs[..i] + [xs[i]];
  }

  lemma DiskPlace(a: Archive, limit: Int64, i: nat)
    requires i < |a.entries|
    ensures var p := Contents(Disk, a, limit)[i].path; Proper(Dir(p)) && (p == [] || p[0] != "")
  {
    var e := Visible(limit, a.entries)[i];
    PlaceIsClean(Disk, e);
    var p := Place(Disk, e).path;
    if p != [] { assert Plain(p[0]); ChildOfParent(p); }
  }

  /**
   Extracts an archive into an empty directory.  Without an I/O error (at entry
   failAt, if there is such an entry) it accepts exactly the archives that are
   readable, safe, within the cap and free of paths that are both file and
   directory; the last of two entries of one name stays.
   */
  method ExtractTar(dst: DiskDir, a: Archive, limit: Int64, failAt: nat) returns (r: Result<()>, written: nat)
    requires dst.Valid() && dst.files == map[] && dst.dirs == {[]}
    modifies dst
    ensures dst.Valid()
    ensures r.Ok? <==> Acceptable(Disk, a, limit) && Disjoint(Contents(Disk, a, limit)) && failAt >= |a.entries|
    ensures r.Ok? ==>
      var xs := Contents(Disk, a, limit);
      dst.files == LastFiles(xs) && dst.dirs == DirsOf(xs) && written == Volume(xs)
    ensures 0 < limit < MAX_INT64 ==> written <= limit + 1
  {
    hide Closed, Contents, Locate, SafeTarPath, DirsOf, FileNames, LastFiles, FirstFiles, Volume, Prefixes;
    ghost var xs := Contents(Disk, a, limit);
    written := 0;
    EmptyMeaning(xs);
    FileKeys(xs[..0]);
    for i := 0 to |a.entries|
      invariant dst.Valid() && i <= failAt
      invariant forall j :: 0 <= j < i ==> SafeTarPath(a.entries[j].name).Ok?
      invariant dst.files == LastFiles(xs[..i]) && dst.dirs == DirsOf(xs[..i])
      invariant written == Volume(xs[..i]) && Fits(limit, written)
      invariant limit == MAX_INT64 ==> written == 0
      invariant Disjoint(xs[..i])
    {
      var e := a.entries[i];
      ContentsAt(Disk, a, limit, i);
      DiskPlace(a, limit, i);
      MeaningStep(xs, i);
      NamesStep(xs, i);
      FileKeys(xs[..i]);
      VolumeGrows(xs, i + 1);
      if i == failAt {
        return Err(FileSystem), written;
      }
      var at := Locate(Disk, e.name);
      if at.Err? {
        return Err(UnsafePath), written;
      }
      var target := at.value;
      match e.kind {
        case DirectoryEntry =>
          var made := dst.MkdirAll(target);
          if !made {
            ClashStays(xs, i + 1);
            return Err(FileSystem), written;
          }
        case RegularEntry =>
          var made := dst.MkdirAll(Dir(target));
          if !made {
            ClashStays(xs, i + 1);
            return Err(FileSystem), written;
          }
          var n := CopyCount(|e.data|, limit, written);
          ParentInPrefixes(target);
          var stored := dst.WriteFile(target, e.data[..n]);
          if !stored {
            assert target in FileNames(xs[..i + 1]) && target in DirsOf(xs[..i + 1]);
            ClashStays(xs, i + 1);
            return Err(FileSystem), written;
          }
          written := written + n;
          if limit > 0 && written > limit {
            return Err(SiteTooLarge), written;
          }
          assert e.data[..n] == xs[i].data;
        case OtherEntry =>
      }
    }
    assert xs[..|a.entries|] == xs;
    if a.broken {
      return Err(TarRead), written;
    }
    return Ok(()), written;
  }

  lemma ParentInPrefixes(p: Path)
    ensures Dir(p) in Prefixes(Dir(p))
  {
    var d := Dir(p);
    assert d[..|d|] == d;
  }

  // ----- the two unpackers compared

  ghost predicate NoBackslash(a: Archive) {
    forall i :: 0 <= i < |a.entries| ==> '\\' !in a.entries[i].name
  }

  /** The two targets' items differ at most where the in-memory tree skips ".". */
  ghost predicate Alike(d: Item, m: Item) {
    m == d || (d.path == [] && m == Item([], OtherEntry, []))
  }

  ghost predicate NoFileAtRoot(xs: seq<Item>) {
    forall i :: 0 <= i < |xs| ==> xs[i].kind.RegularEntry? ==> xs[i].path != []
  }

  lemma {:induction false} AlikeMeaning(d: seq<Item>, m: seq<Item>, i: nat)
    requires i <= |d| == |m| && forall j :: 0 <= j < |d| ==> Alike(d[j], m[j])
    ensures DirsOf(d[..i]) == DirsOf(m[..i])
    ensures NoFileAtRoot(d) ==>
      && FileNames(d[..i]) == FileNames(m[..i]) && FirstFiles(d[..i]) == FirstFiles(m[..i])
      && LastFiles(d[..i]) == LastFiles(m[..i]) && Volume(d[..i]) == Volume(m[..i])
  {
    hide DirsOf, FileNames, FirstFiles, LastFiles, Volume;
    if i == 0 {
      assert d[..0] == m[..0];
    } else {
      AlikeMeaning(d, m, i - 1);
      MeaningStep(d, i - 1);
      MeaningStep(m, i - 1);
      NamesStep(d, i - 1);
      NamesStep(m, i - 1);
      if d[i - 1] != m[i - 1] {
        RootPrefixes();
        assert [] in DirsOf(m[..i - 1]) by { RootInDirs(m[..i - 1]); }
      }
    }
  }

  lemma RootInDirs(xs: seq<Item>)
    ensures [] in DirsOf(xs)
  {}

  lemma ContentsAlike(a: Archive, limit: Int64, i: nat)
    requires NoBackslash(a) && i < |a.entries|
    ensures Alike(Contents(Disk, a, limit)[i], Contents(Memory, a, limit)[i])
  {
    SamePlace(a.entries[i].name);
  }

  lemma DisjointMeansNoFileAtRoot(xs: seq<Item>)
    requires Disjoint(xs)
    ensures NoFileAtRoot(xs)
  {
    forall i | 0 <= i < |xs| && xs[i].kind.RegularEntry? ensures xs[i].path != [] {
      assert xs[i].path in FileNames(xs);
    }
  }

  /**
   On archives without backslashes the disk accepts exactly what memory accepts
   and that has no path both file and directory (a file named "." counts as
   one); both then hold the same directories and file names, and the same bytes
   when entries of one name agree.
   */
  lemma {:induction false} UnpackersAgree(a: Archive, limit: Int64)
    requires NoBackslash(a)
    ensures
      var d, m := Contents(Disk, a, limit), Contents(Memory, a, limit);
      && (Acceptable(Disk, a, limit) && Disjoint(d) <==> Acceptable(Memory, a, limit) && Disjoint(m) && NoFileAtRoot(d))
      && DirsOf(d) == DirsOf(m)
      && (Disjoint(d) ==> FileNames(d) == FileNames(m) && Volume(d) == Volume(m))
      && (Disjoint(d) && Consistent(d) ==> LastFiles(d) == FirstFiles(m))
  {
    var d, m := Contents(Disk, a, limit), Contents(Memory, a, limit);
    forall i | 0 <= i < |d| ensures Alike(d[i], m[i]) { ContentsAlike(a, limit, i); }
    AlikeMeaning(d, m, |d|);
    assert d[..|d|] == d && m[..|d|] == m;
    if Disjoint(d) { DisjointMeansNoFileAtRoot(d); }
    if Disjoint(d) && Consistent(d) { FirstIsLast(d); }
  }

  lemma PlainPlace(c: string)
    requires Plain(c) && '\\' !in c
    ensures forall t :: Locate(t, c) == Ok([c])
  {
    PlainIsClean([c]);
    assert Text([c]) == c;
    CleanText([c]);
    TextClimbs([c]);
    SamePlace(c);
  }

  /** Two entries of one name: memory keeps the first, the disk the last. */
  lemma {:induction false} DuplicatesDiffer(c: string, x: Bytes, y: Bytes)
    requires Plain(c) && '\\' !in c
    ensures
      var a := Archive([Entry(c, RegularEntry, x), Entry(c, RegularEntry, y)], false);
      var d, m := Contents(Disk, a, 0), Contents(Memory, a, 0);
      && Acceptable(Disk, a, 0) && Disjoint(d) && Acceptable(Memory, a, 0)
      && FirstFiles(m) == map[[c] := x] && LastFiles(d) == map[[c] := y]
  {
    hide Locate, SafeTarPath, Prefixes, FirstFiles, LastFiles, Volume, DirsOf, FileNames;
    var a := Archive([Entry(c, RegularEntry, x), Entry(c, RegularEntry, y)], false);
    var xs := [Item([c], RegularEntry, x), Item([c], RegularEntry, y)];
    PlainPlace(c);
    forall i | 0 <= i < 2 ensures SafeTarPath(a.entries[i].name).Ok? { ContentsAt(Disk, a, 0, i); }
    assert Contents(Disk, a, 0) == xs;
    assert Contents(Memory, a, 0) == xs;
    EmptyMeaning(xs);
    FileKeys(xs[..0]);
    MeaningStep(xs, 0);
    MeaningStep(xs, 1);
    NamesStep(xs, 0);
    NamesStep(xs, 1);
    assert xs[..2] == xs;
    assert Dir([c]) == [];
    RootPrefixes();
  }
}
