/** Sites as directories below a root, replaced by staging and renaming. */
module LocalStore {
  import opened Results
  import opened Paths
  import opened Ordering
  import opened Archives
  import opened SiteDirs
  import opened Extract
  import opened Names
  import opened Backend

  /** Where recording a deadline meets an I/O error. */
  datatype DeadlineFault = MakeFails | WriteFails | RenameFails | RemoveFails

  /** Where a replacement meets an I/O error.  Removals and renames made to roll back succeed. */
  datatype Fault =
    | NoFault
    | StageFails
    | ExtractFails(at: nat)
    | MoveAsideFails
    | InstallFails
    | ExpiryFails(where: DeadlineFault)

  /** The fault is met: a removal only when a deadline is cleared, the others when one is written. */
  predicate Stops(where: DeadlineFault, expiresAt: Option<int>) {
    where.RemoveFails? <==> expiresAt.None?
  }

  predicate ExpiryStops(fault: Fault, expiresAt: Option<int>) {
    fault.ExpiryFails? && Stops(fault.where, expiresAt)
  }

  function StageName(name: string, suffix: string): string {
    "." + name + ".stage-" + suffix
  }

  function BackupName(name: string, ns: string): string {
    name + ".old-" + ns
  }

  /** The backup name is that of an existing directory, so the move aside fails. */
  ghost predicate BackupBlocked(root: Root, name: string, ns: string) {
    name in root && BackupName(name, ns) in root
  }

  lemma {:induction false} TransientNames(name: string, suffix: string, ns: string)
    requires ValidName(name)
    ensures StageName(name, suffix) == "." + name + ".stage-" + suffix && BackupName(name, ns) == name + ".old-" + ns
    ensures !ValidName(StageName(name, suffix))
    ensures StageName(name, suffix) != BackupName(name, ns)
    ensures StageName(name, suffix) != name && BackupName(name, ns) != name
  {
    assert StageName(name, suffix)[0] == '.';
    assert BackupName(name, ns)[0] == name[0];
    assert |BackupName(name, ns)| > |name|;
  }

  /** The backup of one site can bear the name of another, which then blocks the replacement. */
  lemma {:induction false} BackupNameOfASite(ns: string, other: Expansion)
    requires |ns| <= 57 && forall i :: 0 <= i < |ns| ==> '0' <= ns[i] <= '9'
    ensures ValidName(BackupName("a", ns))
    ensures BackupBlocked(map["a" := EMPTY_DIR, BackupName("a", ns) := other], "a", ns)
  {
    var s := BackupName("a", ns);
    assert "a.old-" == s[..6] && s[6..] == ns;
    forall i | 0 <= i < |s| ensures NameChar(s[i]) {
      if i >= 6 { assert s[i] == ns[i - 6]; }
    }
  }

  /** The deadlines once that of one site is recorded or cleared. */
  function Recorded(expiries: map<string, int>, name: string, expiresAt: Option<int>): map<string, int> {
    match expiresAt
    case None => expiries - {name}
    case Some(t) => expiries[name := t]
  }

  /** What a root directory and the recorded deadlines hold: the directories whose names are site names. */
  ghost function ShelfOf(root: Root, expiries: map<string, int>): Shelf {
    map n | n in root && ValidName(n) :: Held(root[n], TotalBytes(root[n].files), Get(expiries, n))
  }

  lemma ShelfReplaced(
    root: Root, expiries: map<string, int>, name: string, tree: Expansion, expiries': map<string, int>)
    requires ValidName(name) && expiries' - {name} == expiries - {name}
    ensures
      ShelfOf(root[name := tree], expiries') ==
      ShelfOf(root, expiries)[name := Held(tree, TotalBytes(tree.files), Get(expiries', name))]
  {
    hide TotalBytes, ValidName;
    forall n | n != name ensures Get(expiries', n) == Get(expiries, n) {
      assert Get(expiries' - {name}, n) == Get(expiries - {name}, n);
    }
  }

  lemma ShelfWithout(root: Root, expiries: map<string, int>, name: string, expiries': map<string, int>)
    requires expiries' - {name} == expiries - {name}
    ensures ShelfOf(root - {name}, expiries') == ShelfOf(root, expiries) - {name}
  {
    hide TotalBytes, ValidName;
    forall n | n != name ensures Get(expiries', n) == Get(expiries, n) {
      assert Get(expiries' - {name}, n) == Get(expiries - {name}, n);
    }
  }

  class Store {
    const limit: Int64
    const dir: SitesDir
    var expiries: map<string, int>
    /** The temporary file of a deadline being recorded, and what is written in it. */
    var tmp: Option<Option<int>>

    ghost predicate Valid()
      reads this, dir
    {
      dir.Valid() && tmp == None
    }

    ghost function Abs(): Shelf
      reads this, dir
    {
      ShelfOf(dir.dirs, expiries)
    }

    constructor (limit: Int64)
      ensures Valid() && fresh(dir) && this.limit == limit && dir.dirs == map[] && expiries == map[]
    {
      this.limit, expiries, tmp := limit, map[], None;
      dir := new SitesDir();
    }

    /** Counts the files of a directory and adds up their sizes, in whatever order they come. */
    method Measure(files: map<Path, Bytes>) returns (count: nat, size: nat)
      ensures count == |files| && size == TotalBytes(files)
    {
      hide TotalBytes;
      size, count := 0, 0;
      var rest := files;
      NoBytes();
      while rest != map[]
        invariant size + TotalBytes(rest) == TotalBytes(files)
        invariant count + |rest| == |files|
        decreases |rest|
      {
        var p :| p in rest;
        TotalBytesAt(rest, p);
        size, count := size + |rest[p]|, count + 1;
        assert (rest - {p}).Keys == rest.Keys - {p};
        rest := rest - {p};
      }
    }

    method Stat(name: string) returns (r: Result<Site>)
      ensures r == StatOf(Abs(), name)
    {
      hide TotalBytes, ValidName;
      if !ValidName(name) {
        return Err(InvalidName);
      }
      if name !in dir.dirs {
        return Err(NotFound);
      }
      var count, size := Measure(dir.dirs[name].files);
      return Ok(Site(name, count, size, Get(expiries, name)));
    }

    method Open(name: string) returns (r: Result<Expansion>)
      ensures r == OpenOf(Abs(), name)
    {
      if !ValidName(name) {
        return Err(InvalidName);
      }
      if name !in dir.dirs {
        return Err(NotFound);
      }
      return Ok(dir.dirs[name]);
    }

    /** A listing of names alone. */
    method Names() returns (names: seq<string>)
      ensures names == Ascending(Abs().Keys)
    {
      hide TotalBytes, ValidName, Ascending;
      var entries := SortedElements(dir.dirs.Keys);
      AscendingExact(dir.dirs.Keys);
      names := [];
      for i := 0 to |entries|
        invariant Sorted(names) && Distinct(names)
        invariant forall n :: n in names <==> n in entries[..i] && ValidName(n)
      {
        assert entries[..i + 1] == entries[..i] + [entries[i]];
        if !ValidName(entries[i]) {
          continue;
        }
        forall k | 0 <= k < |names| ensures Le(names[k], entries[i]) && names[k] != entries[i] {
          assert names[k] in names;
          var j :| 0 <= j < i && entries[..i][j] == names[k];
        }
        names := names + [entries[i]];
      }
      assert entries[..|entries|] == entries;
      forall n ensures n in ToSet(names) <==> n in Abs() {
        assert n in dir.dirs <==> n in ToSet(entries);
      }
      AscendingUnique(names);
      assert ToSet(names) == Abs().Keys;
    }

    method List() returns (sites: seq<Site>)
      ensures sites == Listing(Abs())
    {
      hide Collected, Listing, Describe, TotalBytes, ValidName, Ascending;
      var entries := SortedElements(dir.dirs.Keys);
      AscendingExact(dir.dirs.Keys);
      sites := [];
      NothingCollected(entries, Abs());
      for i := 0 to |entries|
        invariant Collected(entries, i, Abs(), sites)
      {
        if !ValidName(entries[i]) {
          CollectSkip(entries, i, Abs(), sites);
          continue;
        }
        assert entries[i] in ToSet(entries);
        var info := Stat(entries[i]);
        CollectAdd(entries, i, Abs(), sites);
        sites := sites + [info.value];
      }
      CollectAll(entries, Abs(), sites);
    }

    /** A deadline file that cannot be removed stays, and is ignored. */
    method Delete(name: string, stuck: bool) returns (r: Result<()>)
      requires Valid()
      modifies this, dir
      ensures Valid()
      ensures
        match Find(old(Abs()), name)
        case Err(e) =>
          r == Err(e) && dir.dirs == old(dir.dirs) && dir.history == old(dir.history) && expiries == old(expiries)
        case Ok(_) =>
          && r == Ok(()) && dir.dirs == old(dir.dirs) - {name} && dir.history == old(dir.history) + [dir.dirs]
          && expiries == if stuck then old(expiries) else old(expiries) - {name}
      ensures r.Ok? ==> Abs() == old(Abs()) - {name}
    {
      hide TotalBytes, ValidName;
      if !ValidName(name) {
        return Err(InvalidName);
      }
      if name !in dir.dirs {
        return Err(NotFound);
      }
      ShelfWithout(dir.dirs, expiries, name, if stuck then expiries else expiries - {name});
      dir.RemoveAll(name);
      if !stuck {
        expiries := expiries - {name};
      }
      return Ok(());
    }

    method DeleteExpired(now: int, stuck: set<string>) returns (deleted: seq<string>)
      requires Valid()
      modifies this, dir
      ensures Valid() && Abs() == Reaped(old(Abs()), now) && dir.dirs.Keys <= old(dir.dirs.Keys)
      ensures deleted == NamesOf(Overdues(Listing(old(Abs())), now))
    {
      hide Listing, Reaped, Overdues, Abs, ShelfOf, ValidName, TotalBytes, Describe, Sorted, Distinct;
      var sites := List();
      ListingExact(Abs());
      deleted := [];
      NothingOverdue(sites, now);
      for i := 0 to |sites|
        invariant Valid() && Abs() == old(Abs()) - ToSet(deleted) && dir.dirs.Keys <= old(dir.dirs.Keys)
        invariant deleted == NamesOf(Overdues(sites[..i], now))
      {
        OverduesStep(sites, i, now);
        if !Expired(sites[i], now) {
          continue;
        }
        NotYetReaped(sites, i, now);
        assert sites[i] in sites;
        OnShelf(sites[i].name);
        var r := Delete(sites[i].name, sites[i].name in stuck);
        OneMoreGone(old(Abs()), deleted, sites[i].name);
        deleted := deleted + [sites[i].name];
      }
      assert sites[..|sites|] == sites;
      ReapedByName(old(Abs()), now);
    }

    lemma OnShelf(name: string)
      requires name in Abs()
      ensures ValidName(name)
    {}

    /** SetExpiry: written beside and renamed, so a failure anywhere leaves the old deadline and no temporary file. */
    method SetExpiry(name: string, expiresAt: Option<int>, fault: Option<DeadlineFault>) returns (r: Result<()>)
      requires tmp == None
      modifies this`expiries, this`tmp
      ensures tmp == None && (r.Ok? <==> ValidName(name) && !(fault.Some? && Stops(fault.value, expiresAt)))
      ensures expiries == if r.Ok? then Recorded(old(expiries), name, expiresAt) else old(expiries)
    {
      if !ValidName(name) {
        return Err(InvalidName);
      }
      match expiresAt {
        case None =>
          if fault == Some(RemoveFails) {
            return Err(FileSystem);
          }
          expiries := expiries - {name};
        case Some(t) =>
          if fault == Some(MakeFails) {
            return Err(FileSystem);
          }
          tmp := Some(None);
          if fault == Some(WriteFails) {
            tmp := None;
            return Err(FileSystem);
          }
          tmp := Some(Some(t));
          if fault == Some(RenameFails) {
            tmp := None;
            return Err(FileSystem);
          }
          expiries, tmp := expiries[name := tmp.value.value], None;
      }
      return Ok(());
    }

    /**
     Swaps a staged tree in: the existing site is moved aside, the stage is
     renamed into place, the deadline is recorded, the old copy is removed; an
     error on the way is rolled back.  In every state the directory passes
     through, the name shows the old tree, the new tree or nothing.
     */
    method SwapIn(s: Swap, ns: string, expiresAt: Option<int>, fault: Fault) returns (ok: bool)
      requires Valid() && Apart(s) && ValidName(s.name) && s.backup == BackupName(s.name, ns)
      requires s.stage in dir.dirs && s.tree == dir.dirs[s.stage]
      modifies this, dir
      ensures Valid()
      ensures
        var was := old(dir.dirs) - {s.stage};
        var blocked := BackupBlocked(was, s.name, ns) || (s.name in was && fault.MoveAsideFails?);
        && (ok <==> !blocked && !fault.InstallFails? && !ExpiryStops(fault, expiresAt))
        && dir.dirs == (if ok then was[s.name := s.tree] else was)
        && During(old(dir.history), dir.history, was, s)
      ensures expiries == if ok then Recorded(old(expiries), s.name, expiresAt) else old(expiries)
    {
      hide MoveDir, BackupName, ValidName, Shows, During;
      ghost var h0, was := dir.history, dir.dirs - {s.stage};
      assert dir.dirs == was[s.stage := s.tree];
      NothingYet(h0, was, s);
      Staged(was, s, s.tree);
      var moved := s.name in dir.dirs;
      if moved {
        var aside := dir.Rename(s.name, s.backup, fault.MoveAsideFails?);
        if !aside {
          dir.RemoveAll(s.stage);
          DuringStep(h0, h0, dir.dirs, was, s);
          return false;
        }
        MovedAside(was, s);
        DuringStep(h0, h0, dir.dirs, was, s);
      }
      ghost var h1 := dir.history;
      ok := Install(s, moved, expiresAt, fault, was);
      DuringJoin(h0, h1, dir.history, was, s);
    }

    /** The rest of a swap: what was moved aside comes back on any error. */
    method Install(s: Swap, moved: bool, expiresAt: Option<int>, fault: Fault, ghost was: Root) returns (ok: bool)
      requires Valid() && Apart(s) && ValidName(s.name) && s.stage !in was && (moved <==> s.name in was)
      requires dir.dirs == Aside(was, s) && (moved ==> s.backup !in was)
      modifies this, dir
      ensures Valid() && (ok <==> !fault.InstallFails? && !ExpiryStops(fault, expiresAt))
      ensures dir.dirs == if ok then was[s.name := s.tree] else was
      ensures During(old(dir.history), dir.history, was, s)
      ensures expiries == if ok then Recorded(old(expiries), s.name, expiresAt) else old(expiries)
    {
      hide MoveDir, ValidName, Shows, During, Aside;
      ghost var h0 := dir.history;
      NothingYet(h0, was, s);
      Staged(was, s, s.tree);
      if moved {
        MovedBack(was, s);
        InstalledAndBack(was, s);
      } else {
        InstalledAfresh(was, s);
      }
      var installed := dir.Rename(s.stage, s.name, fault.InstallFails?);
      if !installed {
        if moved {
          var back := dir.Rename(s.backup, s.name, false);
          DuringStep(h0, h0, dir.dirs, was, s);
        }
        ghost var h1 := dir.history;
        dir.RemoveAll(s.stage);
        DuringStep(h0, h1, dir.dirs, was, s);
        return false;
      }
      DuringStep(h0, h0, dir.dirs, was, s);
      ghost var h1 := dir.history;
      var saved := SetExpiry(s.name, expiresAt, if fault.ExpiryFails? then Some(fault.where) else None);
      if saved.Err? {
        dir.RemoveAll(s.name);
        DuringStep(h0, h1, dir.dirs, was, s);
        if moved {
          ghost var h2 := dir.history;
          var back := dir.Rename(s.backup, s.name, false);
          DuringStep(h0, h2, dir.dirs, was, s);
        }
        return false;
      }
      if moved {
        dir.RemoveAll(s.backup);
        DuringStep(h0, h1, dir.dirs, was, s);
      }
      return true;
    }

    /** Extracts an archive into a new staging directory, which does not outlive an error. */
    method Stage(stage: string, a: Archive, failAt: nat, ghost s: Swap) returns (r: Result<()>)
      requires Valid() && stage !in dir.dirs && s.stage == stage && s.stage != s.name
      modifies dir
      ensures Valid()
      ensures r.Ok? <==> Acceptable(Disk, a, limit) && Disjoint(Contents(Disk, a, limit)) && failAt >= |a.entries|
      ensures dir.dirs == if r.Ok? then old(dir.dirs)[stage := HeldOnDisk(a, limit, None).tree] else old(dir.dirs)
      ensures During(old(dir.history), dir.history, old(dir.dirs), s)
    {
      hide Contents, Acceptable, Disjoint, LastFiles, DirsOf, TotalBytes, Shows, During;
      ghost var h0, was := dir.history, dir.dirs;
      NothingYet(h0, was, s);
      dir.Mkdir(stage);
      Staged(was, s, EMPTY_DIR);
      DuringStep(h0, h0, dir.dirs, was, s);
      ghost var h1 := dir.history;
      var dst := new DiskDir();
      var extracted, _ := ExtractTar(dst, a, limit, failAt);
      dir.Fill(stage, Expansion(dst.files, dst.dirs));
      assert dir.dirs == was[stage := Expansion(dst.files, dst.dirs)];
      Staged(was, s, Expansion(dst.files, dst.dirs));
      DuringStep(h0, h1, dir.dirs, was, s);
      if extracted.Err? {
        ghost var h2 := dir.history;
        dir.RemoveAll(stage);
        DuringStep(h0, h2, dir.dirs, was, s);
      }
      return extracted;
    }

    /**
     Replaces a site from an archive.  On success the name shows the new tree
     and deadline and nothing else is changed; on any error nothing is changed
     and no staging directory remains.  In every state the directory passes
     through, the name shows the old tree, the new tree or nothing, and every
     other site is as it was.
     */
    method Replace(name: string, a: Archive, expiry: Option<int>, now: int, suffix: string, ns: string, fault: Fault)
      returns (r: Result<Site>)
      requires Valid() && StageName(name, suffix) !in dir.dirs
      modifies this, dir
      ensures Valid()
      ensures r.Ok? <==>
        && ValidName(name) && Acceptable(Disk, a, limit) && Disjoint(Contents(Disk, a, limit))
        && !fault.StageFails? && (fault.ExtractFails? ==> fault.at >= |a.entries|)
        && (name in old(dir.dirs) ==> BackupName(name, ns) !in old(dir.dirs) && !fault.MoveAsideFails?)
        && !fault.InstallFails? && !ExpiryStops(fault, Deadline(expiry, now))
      ensures r.Ok? ==>
        var held := HeldOnDisk(a, limit, Deadline(expiry, now));
        && dir.dirs == old(dir.dirs)[name := held.tree]
        && expiries == Recorded(old(expiries), name, Deadline(expiry, now))
        && Abs() == old(Abs())[name := held]
        && r.value == Describe(name, held)
      ensures r.Err? ==> dir.dirs == old(dir.dirs) && expiries == old(expiries)
      ensures
        var tree := HeldOnDisk(a, limit, None).tree;
        During(old(dir.history), dir.history, old(dir.dirs),
          Swap(name, StageName(name, suffix), BackupName(name, ns), tree))
    {
      hide Contents, Acceptable, Disjoint, LastFiles, DirsOf, TotalBytes, ValidName, ShelfOf;
      hide StageName, BackupName, Shows, During;
      ghost var h0, was := dir.history, dir.dirs;
      ghost var s := Swap(name, StageName(name, suffix), BackupName(name, ns), HeldOnDisk(a, limit, None).tree);
      NothingYet(h0, was, s);
      if !ValidName(name) {
        return Err(InvalidName);
      }
      TransientNames(name, suffix, ns);
      var stage := StageName(name, suffix);
      if fault.StageFails? {
        return Err(FileSystem);
      }
      var staged := Stage(stage, a, if fault.ExtractFails? then fault.at else |a.entries|, s);
      if staged.Err? {
        return Err(staged.error);
      }
      Staged(was, s, s.tree);
      ghost var h1 := dir.history;
      var ok := SwapIn(Swap(name, stage, BackupName(name, ns), dir.dirs[stage]), ns, Deadline(expiry, now), fault);
      DuringJoin(h0, h1, dir.history, was, s);
      if !ok {
        return Err(FileSystem);
      }
      ShelfReplaced(was, old(expiries), name, s.tree, expiries);
      r := Stat(name);
    }
  }
}
