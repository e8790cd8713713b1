/** Writing a directory tree as an archive, and reading it back. */
module Walk {
  import opened Results
  import opened Paths
  import opened Archives

  /** A file, a directory, or something the archive leaves out: a link, a device, a pipe. */
  datatype Node = File(data: Bytes) | Folder(children: seq<Named>) | Special

  datatype Named = Named(name: string, node: Node)

  /** What any file system guarantees, plus the absence of backslashes when memory is to agree. */
  ghost predicate WellNamed(t: Target, n: Node) {
    n.Folder? ==> WellNamedAll(t, n.children)
  }

  ghost predicate WellNamedAll(t: Target, cs: seq<Named>) {
    cs != [] ==>
      && Plain(cs[0].name) && (t.Memory? ==> '\\' !in cs[0].name)
      && WellNamed(t, cs[0].node)
      && FindChild(cs[1..], cs[0].name).None?
      && WellNamedAll(t, cs[1..])
  }

  function FindChild(cs: seq<Named>, name: string): Option<Node> {
    if cs == [] then None else if cs[0].name == name then Some(cs[0].node) else FindChild(cs[1..], name)
  }

  /** What stands at a path of a tree. */
  function Lookup(n: Node, p: Path): Option<Node>
    decreases |p|
  {
    if p == [] then Some(n)
    else if !n.Folder? then None
    else
      match FindChild(n.children, p[0])
      case None => None
      case Some(c) => Lookup(c, p[1..])
  }

  ghost function TreeVolume(n: Node): nat {
    match n
    case File(data) => |data|
    case Folder(cs) => TreeVolumeAll(cs)
    case Special => 0
  }

  ghost function TreeVolumeAll(cs: seq<Named>): nat {
    if cs == [] then 0 else TreeVolume(cs[0].node) + TreeVolumeAll(cs[1..])
  }

  // ----- the walk

  class Writer {
    var entries: seq<Entry>

    constructor ()
      ensures entries == []
    {
      entries := [];
    }

    method WriteEntry(e: Entry)
      modifies this
      ensures entries == old(entries) + [e]
    {
      entries := entries + [e];
    }
  }

  /** The entry a visit writes, if it writes one. */
  function Visit(n: Node, rel: Path): (es: seq<Entry>)
    ensures |es| <= 1
  {
    if rel == [] then []
    else
      match n
      case File(data) => [Entry(Text(rel), RegularEntry, data)]
      case Folder(_) => [Entry(Text(rel) + "/", DirectoryEntry, [])]
      case Special => []
  }

  /** The walk visits a node, then its children in order. */
  ghost function Walked(n: Node, rel: Path): seq<Entry>
    decreases n, 1
  {
    Visit(n, rel) + if n.Folder? then WalkedAll(n.children, rel) else []
  }

  ghost function WalkedAll(cs: seq<Named>, rel: Path): seq<Entry>
    decreases cs, 0
  {
    if cs == [] then [] else Walked(cs[0].node, rel + [cs[0].name]) + WalkedAll(cs[1..], rel)
  }

  method WalkDir(n: Node, rel: Path, w: Writer)
    modifies w
    ensures w.entries == old(w.entries) + Walked(n, rel)
    decreases n
  {
    hide Visit;
    var visit := Visit(n, rel);
    if visit != [] {
      w.WriteEntry(visit[0]);
    }
    assert w.entries == old(w.entries) + visit;
    if n.Folder? {
      ghost var start := w.entries;
      var i := 0;
      assert n.children[0..] == n.children;
      while i < |n.children|
        invariant i <= |n.children|
        invariant w.entries + WalkedAll(n.children[i..], rel) == start + WalkedAll(n.children, rel)
      {
        var c := n.children[i];
        ghost var before := w.entries;
        WalkDir(c.node, rel + [c.name], w);
        assert n.children[i..][1..] == n.children[i + 1..];
        assert before + WalkedAll(n.children[i..], rel)
            == before + Walked(c.node, rel + [c.name]) + WalkedAll(n.children[i + 1..], rel);
        i := i + 1;
      }
      assert w.entries + WalkedAll(n.children[i..], rel) == w.entries;
      assert w.entries == old(w.entries) + visit + WalkedAll(n.children, rel);
    }
  }

  /** What stands at the path to be archived: nothing, a node, or a symbolic link to a node. */
  datatype Source = Absent | Real(node: Node) | LinkTo(node: Node)

  /** Only a directory, or a link to one, is accepted. */
  predicate IsDir(src: Source) {
    !src.Absent? && src.node.Folder?
  }

  /**
   Writes the tree below src, which must be a directory.  The test follows a
   link and the walk does not, so of a link to a directory nothing is written.
   */
  method WriteDirAsTar(src: Source, w: Writer) returns (r: Result<()>)
    requires w.entries == []
    modifies w
    ensures r.Ok? <==> IsDir(src)
    ensures w.entries == if src.Real? && r.Ok? then Walked(src.node, []) else []
  {
    if src.Absent? || !src.node.Folder? {
      return Err(FileSystem);
    }
    if src.LinkTo? {
      return Ok(());
    }
    WalkDir(src.node, [], w);
    return Ok(());
  }

  // ----- what the written entries place

  lemma PlaceText(t: Target, p: Path)
    requires AllPlain(p) && p != [] && (t.Memory? ==> Free(p, '\\'))
    ensures Locate(t, Text(p)) == Ok(p) && Locate(t, Text(p) + "/") == Ok(p)
  {
    PlainIsClean(p);
    CleanText(p);
    TextClimbs(p);
    assert Plain(p[0]);
    JoinHead(p);
    var name := Text(p);
    assert name + "/" + "" == name + "/";
    SplitConcat(name, "");
    ResolveConcat(false, [], Split(name), [""]);
    assert Resolve(false, p, [""]) == Resolve(false, p, []) == p;
    assert Clean(name + "/") == p;
    if t.Memory? {
      JoinKeepsChars(p, '\\');
      SamePlace(name);
      SamePlace(name + "/");
    }
  }

  /** The item that stands for a node of the tree. */
  ghost predicate Describes(x: Item, n: Option<Node>) {
    && n.Some?
    && (n.value.File? ==> x.kind == RegularEntry && x.data == n.value.data)
    && (n.value.Folder? ==> x.kind == DirectoryEntry)
    && !n.value.Special?
  }

  ghost predicate Placed(t: Target, rel: Path) {
    AllPlain(rel) && (t.Memory? ==> Free(rel, '\\'))
  }

  lemma VisitItems(t: Target, n: Node, rel: Path)
    requires Placed(t, rel)
    ensures forall e :: e in Visit(n, rel) ==>
      SafeTarPath(e.name).Ok? && Place(t, e).path == rel && rel != [] && Describes(Place(t, e), Some(n))
    ensures rel != [] && !n.Special? ==> |Visit(n, rel)| == 1
  {
    if rel != [] { PlaceText(t, rel); }
  }

  /** Every entry written below a node describes what stands at its place. */
  lemma {:induction false} WalkSound(t: Target, n: Node, rel: Path, e: Entry)
    requires WellNamed(t, n) && Placed(t, rel) && e in Walked(n, rel)
    ensures SafeTarPath(e.name).Ok?
    ensures var p := Place(t, e).path; rel <= p && p != [] && Describes(Place(t, e), Lookup(n, p[|rel|..]))
    decreases n, 1
  {
    hide Place, SafeTarPath, Visit, Describes;
    if e in Visit(n, rel) {
      VisitItems(t, n, rel);
      assert rel[|rel|..] == [];
    } else {
      WalkSoundAll(t, n.children, rel, e);
    }
  }

  lemma {:induction false} WalkSoundAll(t: Target, cs: seq<Named>, rel: Path, e: Entry)
    requires WellNamedAll(t, cs) && Placed(t, rel) && e in WalkedAll(cs, rel)
    ensures SafeTarPath(e.name).Ok?
    ensures
      var p := Place(t, e).path;
      && rel < p && p != []
      && FindChild(cs, p[|rel|]).Some?
      && Describes(Place(t, e), Lookup(FindChild(cs, p[|rel|]).value, p[|rel| + 1..]))
    decreases cs, 0
  {
    hide Place, SafeTarPath, Describes, Lookup, Plain;
    var c := cs[0];
    var sub := rel + [c.name];
    assert Placed(t, sub);
    if e in Walked(c.node, sub) {
      WalkSound(t, c.node, sub, e);
    } else {
      WalkSoundAll(t, cs[1..], rel, e);
    }
  }

  /** An entry is named by its path, with a slash after a directory's. */
  lemma {:induction false} WalkNames(t: Target, n: Node, rel: Path, e: Entry)
    requires WellNamed(t, n) && Placed(t, rel) && e in Walked(n, rel)
    ensures Place(t, e).path != [] && e.name == Join(Place(t, e).path) + if e.kind.DirectoryEntry? then "/" else ""
    ensures e.kind.DirectoryEntry? ==> e.data == []
    decreases n, 1
  {
    hide Place, SafeTarPath, Describes;
    WalkSound(t, n, rel, e);
    if e in Visit(n, rel) {
      VisitItems(t, n, rel);
      assert Text(rel) == Join(rel) by { assert rel != [] && Plain(rel[0]); }
    } else {
      WalkNamesAll(t, n.children, rel, e);
    }
  }

  lemma {:induction false} WalkNamesAll(t: Target, cs: seq<Named>, rel: Path, e: Entry)
    requires WellNamedAll(t, cs) && Placed(t, rel) && e in WalkedAll(cs, rel)
    ensures Place(t, e).path != [] && e.name == Join(Place(t, e).path) + if e.kind.DirectoryEntry? then "/" else ""
    ensures e.kind.DirectoryEntry? ==> e.data == []
    decreases cs, 0
  {
    hide Place, SafeTarPath, Describes, Lookup, Plain, Visit;
    WalkSoundAll(t, cs, rel, e);
    var sub := rel + [cs[0].name];
    assert Placed(t, sub);
    if e in Walked(cs[0].node, sub) {
      WalkNames(t, cs[0].node, sub, e);
    } else {
      WalkNamesAll(t, cs[1..], rel, e);
    }
  }

  /** Which child of that name it is. */
  function ChildAt(cs: seq<Named>, name: string): nat {
    if cs == [] || cs[0].name == name then 0 else 1 + ChildAt(cs[1..], name)
  }

  /** What is in one child comes before what is in the next. */
  lemma {:induction false} SiblingsInOrder(t: Target, cs: seq<Named>, rel: Path, i: nat, j: nat)
    requires WellNamedAll(t, cs) && Placed(t, rel) && i <= j < |WalkedAll(cs, rel)|
    ensures
      var p, q := Place(t, WalkedAll(cs, rel)[i]).path, Place(t, WalkedAll(cs, rel)[j]).path;
      |rel| < |p| && |rel| < |q| && ChildAt(cs, p[|rel|]) <= ChildAt(cs, q[|rel|]) < |cs|
    decreases cs
  {
    hide Place, Plain, Visit, Describes, Lookup, SafeTarPath;
    var all, sub := WalkedAll(cs, rel), rel + [cs[0].name];
    assert Placed(t, sub);
    var first, rest := Walked(cs[0].node, sub), WalkedAll(cs[1..], rel);
    WalkSoundAll(t, cs, rel, all[i]);
    WalkSoundAll(t, cs, rel, all[j]);
    if j >= |first| {
      assert all[j] == rest[j - |first|];
      WalkSoundAll(t, cs[1..], rel, all[j]);
      SiblingsInOrder(t, cs[1..], rel, if i < |first| then j - |first| else i - |first|, j - |first|);
    } else {
      assert all[j] == first[j];
      WalkSound(t, cs[0].node, sub, first[j]);
    }
    if i < |first| {
      assert all[i] == first[i];
      WalkSound(t, cs[0].node, sub, first[i]);
    } else {
      assert all[i] == rest[i - |first|];
      WalkSoundAll(t, cs[1..], rel, all[i]);
    }
  }

  /** The entry of a directory comes before those of what is in it. */
  lemma {:induction false} ParentFirst(t: Target, n: Node, rel: Path, i: nat) returns (j: nat)
    requires WellNamed(t, n) && Placed(t, rel) && i < |Walked(n, rel)|
    requires var p := Place(t, Walked(n, rel)[i]).path; |p| >= 2 && p != rel
    ensures
      var p := Place(t, Walked(n, rel)[i]).path;
      j < i && |p| >= 2 && Place(t, Walked(n, rel)[j]).path == p[..|p| - 1]
    decreases n, 1
  {
    hide Place, Visit, Describes, SafeTarPath;
    var e := Walked(n, rel)[i];
    WalkSound(t, n, rel, e);
    VisitItems(t, n, rel);
    var head := Visit(n, rel);
    assert i >= |head| || e in head;
    var under;
    under, j := ParentFirstAll(t, n.children, rel, i - |head|);
    if under {
      j := 0;
      assert head[0] in head;
    } else {
      j := |head| + j;
    }
  }

  lemma {:induction false} ParentFirstAll(t: Target, cs: seq<Named>, rel: Path, i: nat) returns (under: bool, j: nat)
    requires WellNamedAll(t, cs) && Placed(t, rel) && i < |WalkedAll(cs, rel)|
    requires |Place(t, WalkedAll(cs, rel)[i]).path| >= 2
    ensures
      var p := Place(t, WalkedAll(cs, rel)[i]).path;
      if under then |p| >= 2 && p[..|p| - 1] == rel
      else j < i && |p| >= 2 && Place(t, WalkedAll(cs, rel)[j]).path == p[..|p| - 1]
    decreases cs, 0
  {
    hide Place, Plain, Visit;
    under, j := false, 0;
    var e, sub := WalkedAll(cs, rel)[i], rel + [cs[0].name];
    assert Placed(t, sub);
    var first := Walked(cs[0].node, sub);
    if i < |first| {
      if Place(t, e).path == sub {
        under := true;
      } else {
        j := ParentFirst(t, cs[0].node, sub, i);
      }
    } else {
      under, j := ParentFirstAll(t, cs[1..], rel, i - |first|);
      j := if under then j else |first| + j;
    }
  }

  /** Every file and directory of the tree is written. */
  lemma {:induction false} WalkComplete(t: Target, n: Node, rel: Path, q: Path) returns (e: Entry)
    requires WellNamed(t, n) && Placed(t, rel) && rel + q != []
    requires Lookup(n, q).Some? && !Lookup(n, q).value.Special?
    ensures e in Walked(n, rel) && Place(t, e).path == rel + q && Describes(Place(t, e), Lookup(n, q))
    decreases n, 1
  {
    hide Place, Visit, Describes;
    if q == [] {
      VisitItems(t, n, rel);
      e := Visit(n, rel)[0];
      assert rel + q == rel;
    } else {
      e := WalkCompleteAll(t, n.children, rel, q);
    }
  }

  lemma {:induction false} WalkCompleteAll(t: Target, cs: seq<Named>, rel: Path, q: Path) returns (e: Entry)
    requires WellNamedAll(t, cs) && Placed(t, rel) && q != []
    requires FindChild(cs, q[0]).Some?
    requires var at := Lookup(FindChild(cs, q[0]).value, q[1..]); at.Some? && !at.value.Special?
    ensures e in WalkedAll(cs, rel) && Place(t, e).path == rel + q
    ensures Describes(Place(t, e), Lookup(FindChild(cs, q[0]).value, q[1..]))
    decreases cs, 0
  {
    hide Place, Describes, Lookup, Plain;
    var c := cs[0];
    if c.name == q[0] {
      var sub := rel + [c.name];
      assert Placed(t, sub);
      assert sub + q[1..] == rel + q;
      e := WalkComplete(t, c.node, sub, q[1..]);
    } else {
      e := WalkCompleteAll(t, cs[1..], rel, q);
    }
  }

  lemma ItemsConcat(t: Target, a: seq<Entry>, b: seq<Entry>)
    ensures Items(t, a + b) == Items(t, a) + Items(t, b)
  {}

  lemma {:induction false} WalkVolume(t: Target, n: Node, rel: Path)
    requires WellNamed(t, n) && Placed(t, rel) && (rel == [] ==> n.Folder?)
    ensures Volume(Items(t, Walked(n, rel))) == TreeVolume(n)
    decreases n, 1
  {
    hide Place, Visit, Volume;
    var head := Visit(n, rel);
    var rest := if n.Folder? then WalkedAll(n.children, rel) else [];
    ItemsConcat(t, head, rest);
    VolumeConcat(Items(t, head), Items(t, rest));
    VisitVolume(t, n, rel);
    EmptyMeaning([]);
    var none: seq<Item> := [];
    assert none[..0] == none;
    if n.Folder? {
      WalkVolumeAll(t, n.children, rel);
    } else {
      assert Items(t, rest) == none;
    }
  }

  lemma VisitVolume(t: Target, n: Node, rel: Path)
    requires Placed(t, rel) && (rel == [] ==> n.Folder?)
    ensures Volume(Items(t, Visit(n, rel))) == if n.File? then |n.data| else 0
  {
    hide Place;
    VisitItems(t, n, rel);
    var xs := Items(t, Visit(n, rel));
    if xs != [] {
      assert xs[..|xs| - 1] == [];
      assert Visit(n, rel)[0] in Visit(n, rel);
    }
  }

  lemma {:induction false} WalkVolumeAll(t: Target, cs: seq<Named>, rel: Path)
    requires WellNamedAll(t, cs) && Placed(t, rel)
    ensures Volume(Items(t, WalkedAll(cs, rel))) == TreeVolumeAll(cs)
    decreases cs, 0
  {
    hide Place, Plain;
    if cs == [] {
      var none: seq<Item> := [];
      assert Items(t, WalkedAll(cs, rel)) == none;
    } else {
      var sub := rel + [cs[0].name];
      assert Placed(t, sub);
      ItemsConcat(t, Walked(cs[0].node, sub), WalkedAll(cs[1..], rel));
      VolumeConcat(Items(t, Walked(cs[0].node, sub)), Items(t, WalkedAll(cs[1..], rel)));
      WalkVolume(t, cs[0].node, sub);
      WalkVolumeAll(t, cs[1..], rel);
    }
  }

  // ----- the round trip

  /** A tree's files and directories, read off by looking paths up. */
  ghost predicate SameTree(root: Node, files: map<Path, Bytes>, dirs: set<Path>) {
    && (forall p :: p in dirs <==> Lookup(root, p).Some? && Lookup(root, p).value.Folder?)
    && (forall p :: p in files <==> Lookup(root, p).Some? && Lookup(root, p).value.File?)
    && (forall p :: p in files ==> files[p] == Lookup(root, p).value.data)
  }

  lemma {:induction false} LookupParent(n: Node, p: Path, k: nat)
    requires Lookup(n, p).Some? && k < |p|
    ensures Lookup(n, p[..k]).Some? && Lookup(n, p[..k]).value.Folder?
    decreases |p|
  {
    if k > 0 {
      LookupParent(FindChild(n.children, p[0]).value, p[1..], k - 1);
      assert p[..k][1..] == p[1..][..k - 1];
    }
  }

  lemma WalkDescribes(t: Target, root: Node, x: Item)
    requires root.Folder? && WellNamed(t, root) && x in Items(t, Walked(root, []))
    ensures x.path != [] && Describes(x, Lookup(root, x.path))
  {
    var es := Walked(root, []);
    var xs := Items(t, es);
    var i :| 0 <= i < |xs| && xs[i] == x;
    WalkSound(t, root, [], es[i]);
    assert x.path[0..] == x.path;
  }

  lemma WalkContains(t: Target, root: Node, p: Path) returns (x: Item)
    requires root.Folder? && WellNamed(t, root) && p != []
    requires Lookup(root, p).Some? && !Lookup(root, p).value.Special?
    ensures x in Items(t, Walked(root, [])) && x.path == p && Describes(x, Lookup(root, p))
  {
    var es := Walked(root, []);
    assert [] + p == p;
    var e := WalkComplete(t, root, [], p);
    var i :| 0 <= i < |es| && es[i] == e;
    x := Items(t, es)[i];
  }

  lemma WalkDirs(t: Target, root: Node, p: Path)
    requires root.Folder? && WellNamed(t, root)
    ensures p in DirsOf(Items(t, Walked(root, []))) <==> Lookup(root, p).Some? && Lookup(root, p).value.Folder?
  {
    hide Walked;
    var xs := Items(t, Walked(root, []));
    if p != [] {
      if Lookup(root, p).Some? && Lookup(root, p).value.Folder? {
        var x := WalkContains(t, root, p);
        assert p[..|p|] == p;
        assert p in ItemDirs(x);
      }
      if p in DirsOf(xs) {
        var x :| x in xs && p in ItemDirs(x);
        WalkDescribes(t, root, x);
        ChildIsPlain(t, root.children, x.path[0]);
        FoldersAbove(root, x, p);
      }
    }
  }

  lemma {:induction false} ChildIsPlain(t: Target, cs: seq<Named>, name: string)
    requires WellNamedAll(t, cs) && FindChild(cs, name).Some?
    ensures Plain(name)
  {
    if cs[0].name != name { ChildIsPlain(t, cs[1..], name); }
  }

  lemma FoldersAbove(root: Node, x: Item, p: Path)
    requires x.path != [] && x.path != [""] && Describes(x, Lookup(root, x.path)) && p in ItemDirs(x)
    ensures Lookup(root, p).Some? && Lookup(root, p).value.Folder?
  {
    hide Lookup;
    var full := if x.kind.DirectoryEntry? then x.path else Dir(x.path);
    var k :| 0 <= k <= |full| && p == full[..k];
    assert p == x.path[..k];
    if k < |x.path| { LookupParent(root, x.path, k); } else { assert p == x.path; }
  }

  lemma WalkFiles(t: Target, root: Node, p: Path)
    requires root.Folder? && WellNamed(t, root)
    ensures p in FileNames(Items(t, Walked(root, []))) <==> Lookup(root, p).Some? && Lookup(root, p).value.File?
  {
    hide Walked;
    var xs := Items(t, Walked(root, []));
    if p in FileNames(xs) {
      var x :| x in xs && x.kind.RegularEntry? && x.path == p;
      WalkDescribes(t, root, x);
    }
    if Lookup(root, p).Some? && Lookup(root, p).value.File? {
      var x := WalkContains(t, root, p);
    }
  }

  lemma WalkConsistent(t: Target, root: Node)
    requires root.Folder? && WellNamed(t, root)
    ensures Consistent(Items(t, Walked(root, [])))
  {
    hide Walked;
    var xs := Items(t, Walked(root, []));
    forall x, y | x in xs && y in xs && x.kind.RegularEntry? && y.kind.RegularEntry? && x.path == y.path
      ensures x.data == y.data
    {
      WalkDescribes(t, root, x);
      WalkDescribes(t, root, y);
    }
  }

  /**
   What is written from a tree reads back as that tree, on disk and in memory:
   acceptable exactly when the tree fits the cap, and then with exactly the
   tree's directories, files and bytes, whichever duplicate would win.
   */
  lemma {:induction false} RoundTrip(t: Target, root: Node, limit: Int64)
    requires root.Folder? && WellNamed(t, root) && limit != MAX_INT64
    ensures
      var a := Archive(Walked(root, []), false);
      var xs := Contents(t, a, limit);
      && (Acceptable(t, a, limit) <==> Fits(limit, TreeVolume(root)))
      && Volume(xs) == TreeVolume(root) && Disjoint(xs)
      && SameTree(root, FirstFiles(xs), DirsOf(xs)) && LastFiles(xs) == FirstFiles(xs)
  {
    hide Walked, FirstFiles, LastFiles, FileNames, DirsOf, Items;
    var es := Walked(root, []);
    var xs := Items(t, es);
    WalkVolume(t, root, []);
    WalkConsistent(t, root);
    FirstIsLast(xs);
    FileKeys(xs);
    forall i | 0 <= i < |es| ensures SafeTarPath(es[i].name).Ok? { WalkSound(t, root, [], es[i]); }
    forall p
      ensures p in DirsOf(xs) <==> Lookup(root, p).Some? && Lookup(root, p).value.Folder?
    {
      WalkDirs(t, root, p);
    }
    forall p
      ensures p in FirstFiles(xs) <==> Lookup(root, p).Some? && Lookup(root, p).value.File?
    {
      WalkFiles(t, root, p);
    }
    forall p | p in FirstFiles(xs) ensures FirstFiles(xs)[p] == Lookup(root, p).value.data {
      WalkFileBytes(t, root, p);
    }
  }

  lemma WalkFileBytes(t: Target, root: Node, p: Path)
    requires root.Folder? && WellNamed(t, root) && Lookup(root, p).Some? && Lookup(root, p).value.File?
    ensures
      var files := FirstFiles(Items(t, Walked(root, [])));
      p in files && files[p] == Lookup(root, p).value.data
  {
    hide Walked;
    var x := WalkContains(t, root, p);
    WalkConsistent(t, root);
    ConsistentFiles(Items(t, Walked(root, [])), x);
  }

  // ----- the largest cap

  /** Without bytes there is nothing to cut off. */
  lemma {:induction false} WalkedLight(n: Node, rel: Path)
    requires TreeVolume(n) == 0
    ensures forall e :: e in Walked(n, rel) ==> e.data == []
    decreases n, 1
  {
    hide Text;
    if n.Folder? { WalkedLightAll(n.children, rel); }
  }

  lemma {:induction false} WalkedLightAll(cs: seq<Named>, rel: Path)
    requires TreeVolumeAll(cs) == 0
    ensures forall e :: e in WalkedAll(cs, rel) ==> e.data == []
    decreases cs, 0
  {
    hide Walked;
    if cs != [] {
      WalkedLight(cs[0].node, rel + [cs[0].name]);
      WalkedLightAll(cs[1..], rel);
    }
  }

  /** A tree with bytes has a file with bytes. */
  lemma {:induction false} HeavyFile(t: Target, n: Node) returns (p: Path)
    requires WellNamed(t, n) && TreeVolume(n) > 0
    ensures Lookup(n, p).Some? && Lookup(n, p).value.File? && Lookup(n, p).value.data != []
    decreases n, 1
  {
    p := [];
    if n.Folder? { p := HeavyFileAll(t, n.children); }
  }

  lemma {:induction false} HeavyFileAll(t: Target, cs: seq<Named>) returns (p: Path)
    requires WellNamedAll(t, cs) && TreeVolumeAll(cs) > 0
    ensures p != [] && FindChild(cs, p[0]).Some?
    ensures var at := Lookup(FindChild(cs, p[0]).value, p[1..]); at.Some? && at.value.File? && at.value.data != []
    decreases cs, 0
  {
    if TreeVolume(cs[0].node) > 0 {
      var q := HeavyFile(t, cs[0].node);
      p := [cs[0].name] + q;
      assert p[1..] == q;
    } else {
      p := HeavyFileAll(t, cs[1..]);
    }
  }

  lemma {:induction false} BlankFiles(xs: seq<Item>)
    requires forall i :: 0 <= i < |xs| ==> xs[i].data == []
    ensures forall p :: p in FirstFiles(xs) ==> FirstFiles(xs)[p] == []
  {
    if xs != [] { BlankFiles(xs[..|xs| - 1]); }
  }

  /**
   The round trip holds at every cap but the largest, where the limiter's
   argument wraps and every file reads back empty: there it holds exactly for
   trees without bytes.
   */
  lemma {:induction false} RoundTripExact(t: Target, root: Node, limit: Int64)
    requires root.Folder? && WellNamed(t, root)
    ensures
      var xs := Contents(t, Archive(Walked(root, []), false), limit);
      SameTree(root, FirstFiles(xs), DirsOf(xs)) <==> limit != MAX_INT64 || TreeVolume(root) == 0
  {
    hide Walked, FirstFiles, DirsOf, Lookup, Place, TreeVolume, WellNamed;
    var es := Walked(root, []);
    var xs := Contents(t, Archive(es, false), limit);
    if limit != MAX_INT64 {
      RoundTrip(t, root, limit);
    } else if TreeVolume(root) == 0 {
      WalkedLight(root, []);
      assert Visible(limit, es) == es;
      RoundTrip(t, root, 0);
    } else {
      var p := HeavyFile(t, root);
      forall i | 0 <= i < |xs| ensures xs[i].data == [] { BlankPlace(t, es[i]); }
      BlankFiles(xs);
    }
  }

  lemma BlankPlace(t: Target, e: Entry)
    ensures Place(t, e.(data := [])).data == []
  {}

  // ----- a link as the source

  lemma {:induction false} ChildFound(t: Target, cs: seq<Named>, i: nat)
    requires WellNamedAll(t, cs) && i < |cs|
    ensures FindChild(cs, cs[i].name) == Some(cs[i].node)
  {
    if i > 0 {
      ChildFound(t, cs[1..], i - 1);
    }
  }

  lemma {:induction false} FoundIsChild(cs: seq<Named>, name: string)
    requires FindChild(cs, name).Some?
    ensures exists i :: 0 <= i < |cs| && cs[i].node == FindChild(cs, name).value
  {
    if cs[0].name != name {
      FoundIsChild(cs[1..], name);
      var i :| 0 <= i < |cs[1..]| && cs[1..][i].node == FindChild(cs[1..], name).value;
      assert cs[i + 1].node == FindChild(cs, name).value;
    }
  }

  /**
   Of a link nothing is written, which reads back as the directory it leads to
   exactly when there is nothing in it to write.
   */
  lemma {:induction false} LinkRoundTrip(t: Target, root: Node, limit: Int64)
    requires root.Folder? && WellNamed(t, root)
    ensures
      var xs := Contents(t, Archive([], false), limit);
      SameTree(root, FirstFiles(xs), DirsOf(xs)) <==>
      forall i :: 0 <= i < |root.children| ==> root.children[i].node.Special?
  {
    var xs := Contents(t, Archive([], false), limit);
    var cs := root.children;
    assert FirstFiles(xs) == map[] && DirsOf(xs) == {[]};
    forall i | 0 <= i < |cs| ensures Lookup(root, [cs[i].name]) == Some(cs[i].node) {
      ChildFound(t, cs, i);
    }
    if forall i :: 0 <= i < |cs| ==> cs[i].node.Special? {
      forall p | p != [] && Lookup(root, p).Some? ensures Lookup(root, p).value.Special? {
        FoundIsChild(cs, p[0]);
      }
    } else {
      var i :| 0 <= i < |cs| && !cs[i].node.Special?;
      assert [cs[i].name] !in FirstFiles(xs) && [cs[i].name] !in DirsOf(xs);
    }
  }
}
