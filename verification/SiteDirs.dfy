/** The directory all sites live under. */
module SiteDirs {
  import opened Archives

  type Root = map<string, Expansion>

  const EMPTY_DIR: Expansion := Expansion(map[], {[]})

  function MoveDir(root: Root, from: string, to: string): Root
    requires from in root
  {
    (root - {from})[to := root[from]]
  }

  /** The directory, changed only by the methods below, each of which adds to the history. */
  class SitesDir {
    var dirs: Root
    /** Every state there has been, the present one last. */
    ghost var history: seq<Root>

    ghost predicate Valid()
      reads this
    {
      history != [] && history[|history| - 1] == dirs
    }

    constructor ()
      ensures Valid() && dirs == map[] && history == [map[]]
    {
      dirs, history := map[], [map[]];
    }

    method Mkdir(name: string)
      requires Valid() && name !in dirs
      modifies this
      ensures Valid() && dirs == old(dirs)[name := EMPTY_DIR] && history == old(history) + [dirs]
    {
      dirs := dirs[name := EMPTY_DIR];
      history := history + [dirs];
    }

    /** What was written into a directory. */
    method Fill(name: string, tree: Expansion)
      requires Valid() && name in dirs
      modifies this
      ensures Valid() && dirs == old(dirs)[name := tree] && history == old(history) + [dirs]
    {
      dirs := dirs[name := tree];
      history := history + [dirs];
    }

    /** os.Rename of a directory, which fails whenever the new name is that of an existing directory. */
    method Rename(from: string, to: string, fails: bool) returns (ok: bool)
      requires Valid() && from in dirs
      modifies this
      ensures Valid() && (ok <==> !fails && to !in old(dirs))
      ensures dirs == if ok then MoveDir(old(dirs), from, to) else old(dirs)
      ensures history == if ok then old(history) + [dirs] else old(history)
    {
      if fails || to in dirs {
        return false;
      }
      dirs := MoveDir(dirs, from, to);
      history := history + [dirs];
      return true;
    }

    method RemoveAll(name: string)
      requires Valid()
      modifies this
      ensures Valid() && dirs == old(dirs) - {name} && history == old(history) + [dirs]
    {
      dirs := dirs - {name};
      history := history + [dirs];
    }
  }

  // ----- a swap, state by state

  /** A replacement under way: the site, the two transient names, and the tree to be installed. */
  datatype Swap = Swap(name: string, stage: string, backup: string, tree: Expansion)

  ghost predicate Apart(s: Swap) {
    s.stage != s.name && s.stage != s.backup && s.backup != s.name
  }

  /**
   The name shows the old tree, the new one or nothing; every other directory
   there was is as it was; and no name but the transient ones is new.
   */
  ghost predicate Shows(r: Root, was: Root, s: Swap) {
    && (s.name in r ==> r[s.name] == s.tree || (s.name in was && r[s.name] == was[s.name]))
    && (forall n :: n in was && n != s.name ==> n in r && r[n] == was[n])
    && (forall n :: n in r && n !in was ==> n == s.name || n == s.stage || n == s.backup)
  }

  /** h continues h0, and each state since shows as much. */
  ghost predicate During(h0: seq<Root>, h: seq<Root>, was: Root, s: Swap) {
    h0 <= h && forall k :: |h0| <= k < |h| ==> Shows(h[k], was, s)
  }

  lemma DuringStep(h0: seq<Root>, h: seq<Root>, r: Root, was: Root, s: Swap)
    requires During(h0, h, was, s) && Shows(r, was, s)
    ensures During(h0, h + [r], was, s)
  {}

  lemma NothingYet(h: seq<Root>, was: Root, s: Swap)
    ensures During(h, h, was, s)
  {}

  lemma DuringJoin(h0: seq<Root>, h1: seq<Root>, h2: seq<Root>, was: Root, s: Swap)
    requires During(h0, h1, was, s) && During(h1, h2, was, s)
    ensures During(h0, h2, was, s)
  {
    forall k | |h0| <= k < |h2| ensures Shows(h2[k], was, s) {
      assert k < |h1| ==> h2[k] == h1[k];
    }
  }

  /** The staged tree, and the site moved aside if there is one. */
  ghost function Aside(was: Root, s: Swap): Root {
    var staged := was[s.stage := s.tree];
    if s.name in was && s.stage != s.name then MoveDir(staged, s.name, s.backup) else staged
  }

  /** There is a site to move aside, and its backup name is free. */
  ghost predicate Movable(was: Root, s: Swap) {
    Apart(s) && s.stage !in was && s.name in was && s.backup !in was
  }

  lemma {:induction false} MovedAside(was: Root, s: Swap)
    requires Movable(was, s)
    ensures MoveDir(was[s.stage := s.tree], s.name, s.backup) == Aside(was, s) && Shows(Aside(was, s), was, s)
  {}

  /** Moving aside and back restores everything. */
  lemma {:induction false} MovedBack(was: Root, s: Swap)
    requires Movable(was, s)
    ensures
      var aside := Aside(was, s);
      && s.stage in aside && s.backup in aside && s.name !in aside && aside[s.stage] == s.tree
      && Shows(MoveDir(aside, s.backup, s.name), was, s)
      && MoveDir(aside, s.backup, s.name) - {s.stage} == was
  {
    assert MoveDir(Aside(was, s), s.backup, s.name) == was[s.stage := s.tree];
  }

  /** The same after the stage was installed in between, and what removing the backup leaves instead. */
  lemma {:induction false} InstalledAndBack(was: Root, s: Swap)
    requires Movable(was, s)
    ensures s.stage in Aside(was, s)
    ensures
      var installed := MoveDir(Aside(was, s), s.stage, s.name);
      && installed[s.name] == s.tree && s.backup in installed - {s.name}
      && Shows(installed, was, s) && Shows(installed - {s.name}, was, s)
      && MoveDir(installed - {s.name}, s.backup, s.name) == was
      && installed - {s.backup} == was[s.name := s.tree] && Shows(was[s.name := s.tree], was, s)
  {
    assert MoveDir(Aside(was, s), s.stage, s.name) == was[s.backup := was[s.name]][s.name := s.tree];
  }

  lemma InstalledAfresh(was: Root, s: Swap)
    requires s.stage !in was && s.name !in was && s.stage != s.name
    ensures Aside(was, s) == was[s.stage := s.tree]
    ensures
      var installed := MoveDir(Aside(was, s), s.stage, s.name);
      && installed == was[s.name := s.tree] && installed - {s.name} == was && Aside(was, s) - {s.stage} == was
      && Shows(installed, was, s) && Shows(was, was, s)
  {}

  lemma Staged(was: Root, s: Swap, t: Expansion)
    requires s.stage !in was && s.stage != s.name
    ensures was[s.stage := t] - {s.stage} == was && Shows(was[s.stage := t], was, s) && Shows(was, was, s)
  {}
}
