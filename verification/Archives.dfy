/**
 Archives as sequences of entries, and what an archive means: the files, the
 directories and the number of bytes it stands for.  Both unpackers are proved
 against these definitions.
 */
module Archives {
  import opened Results
  import opened Paths

  type Bytes = seq<bv8>

  datatype Kind = DirectoryEntry | RegularEntry | OtherEntry

  datatype Entry = Entry(name: string, kind: Kind, data: Bytes)

  /** A tar stream: its entries, and whether it ends in a read error instead of a clean end. */
  datatype Archive = Archive(entries: seq<Entry>, broken: bool)

  /** The local store extracts to disk; the object store expands into memory. */
  datatype Target = Disk | Memory

  /** An archive unpacked: the files and directories of one site. */
  datatype Expansion = Expansion(files: map<Path, Bytes>, dirs: set<Path>)

  // ----- where an entry goes

  function ToSlash(s: string): (r: string)
    ensures |r| == |s|
    ensures forall i :: 0 <= i < |s| ==> r[i] == if s[i] == '\\' then '/' else s[i]
  {
    if s == "" then "" else [if s[0] == '\\' then '/' else s[0]] + ToSlash(s[1..])
  }

  /** Only the in-memory tree turns backslashes into separators. */
  function Locate(t: Target, name: string): Result<Path> {
    match SafeTarPath(name)
    case Err(e) => Err(e)
    case Ok(p) => Ok(if t.Disk? then p else Clean(ToSlash(Text(p))))
  }

  /** An entry with its place resolved. */
  datatype Item = Item(path: Path, kind: Kind, data: Bytes)

  /** The in-memory tree skips whatever cleans to ".". */
  function Place(t: Target, e: Entry): Item {
    match Locate(t, e.name)
    case Err(_) => Item([], OtherEntry, [])
    case Ok(p) => if t.Memory? && p == [] then Item([], OtherEntry, []) else Item(p, e.kind, e.data)
  }

  ghost function Items(t: Target, es: seq<Entry>): (r: seq<Item>)
    ensures |r| == |es|
    ensures forall i :: 0 <= i < |es| ==> r[i] == Place(t, es[i])
  {
    seq(|es|, i requires 0 <= i < |es| => Place(t, es[i]))
  }

  lemma PlaceIsClean(t: Target, e: Entry)
    ensures IsClean(Place(t, e).path) && Proper(Place(t, e).path)
    ensures t.Disk? ==> AllPlain(Place(t, e).path)
    ensures t.Memory? && Place(t, e).kind.RegularEntry? ==> Place(t, e).path != []
  {
    SafeTarPathExact(e.name);
    match SafeTarPath(e.name)
    case Err(_) =>
    case Ok(p) => CleanIsClean(ToSlash(Text(p)));
    CleanIsProper(Place(t, e).path);
  }

  /** Without backslashes the two targets place an entry alike. */
  lemma {:induction false} SamePlace(name: string)
    requires '\\' !in name
    ensures Locate(Memory, name) == Locate(Disk, name)
  {
    SafeTarPathExact(name);
    if SafeTarPath(name).Ok? {
      var p := SafeTarPath(name).value;
      CleanKeepsChars(name, '\\');
      var t := Text(p);
      assert forall i :: 0 <= i < |t| ==> t[i] in t;
      assert ToSlash(t) == t;
      CleanText(p);
    }
  }

  lemma {:induction false} SplitKeepsChars(s: string, c: char)
    requires c !in s
    ensures Free(Split(s), c)
  {
    if s != "" {
      assert forall i :: 0 <= i < |s[1..]| ==> s[1..][i] == s[i + 1];
      SplitKeepsChars(s[1..], c);
    }
  }

  ghost predicate Free(p: seq<string>, c: char) {
    forall i :: 0 <= i < |p| ==> c !in p[i]
  }

  lemma {:induction false} ResolveKeepsChars(rooted: bool, stack: seq<string>, parts: seq<string>, c: char)
    requires c != '.' && Free(stack, c) && Free(parts, c)
    ensures Free(Resolve(rooted, stack, parts), c)
    decreases |parts|
  {
    if parts != [] {
      assert c !in parts[0];
      assert Free(Push(rooted, stack, parts[0]), c);
      ResolveKeepsChars(rooted, Push(rooted, stack, parts[0]), parts[1..], c);
    }
  }

  lemma {:induction false} JoinKeepsChars(p: seq<string>, c: char)
    requires |p| >= 1 && c != '/' && Free(p, c)
    ensures c !in Join(p)
  {
    if |p| > 1 {
      JoinKeepsChars(p[1..], c);
    }
  }

  lemma CleanKeepsChars(s: string, c: char)
    requires c !in s && c != '/' && c != '.'
    ensures c !in Text(Clean(s))
  {
    SplitKeepsChars(s, c);
    ResolveKeepsChars(IsRooted(s), [], Split(s), c);
    var p := Clean(s);
    if p != [] && p != [""] {
      JoinKeepsChars(p, c);
    }
  }

  // ----- what an archive means

  ghost predicate AllSafe(es: seq<Entry>) {
    forall i :: 0 <= i < |es| ==> SafeTarPath(es[i].name).Ok?
  }

  /** The directories one item brings about. */
  ghost function ItemDirs(x: Item): set<Path> {
    match x.kind
    case DirectoryEntry => Prefixes(x.path)
    case RegularEntry => Prefixes(Dir(x.path))
    case OtherEntry => {}
  }

  ghost function DirsOf(xs: seq<Item>): set<Path> {
    {[]} + set x, p | x in xs && p in ItemDirs(x) :: p
  }

  ghost function FileNames(xs: seq<Item>): set<Path> {
    set x | x in xs && x.kind.RegularEntry? :: x.path
  }

  /** The files, the first entry of each name deciding. */
  ghost function FirstFiles(xs: seq<Item>): map<Path, Bytes> {
    if xs == [] then map[]
    else
      var x, before := xs[|xs| - 1], FirstFiles(xs[..|xs| - 1]);
      if x.kind.RegularEntry? && x.path !in before then before[x.path := x.data] else before
  }

  /** The files, the last entry of each name deciding. */
  ghost function LastFiles(xs: seq<Item>): map<Path, Bytes> {
    if xs == [] then map[]
    else
      var x, before := xs[|xs| - 1], LastFiles(xs[..|xs| - 1]);
      if x.kind.RegularEntry? then before[x.path := x.data] else before
  }

  ghost function Weight(x: Item): nat {
    if x.kind.RegularEntry? then |x.data| else 0
  }

  /** The bytes of all file entries. */
  ghost function Volume(xs: seq<Item>): nat {
    if xs == [] then 0 else Volume(xs[..|xs| - 1]) + Weight(xs[|xs| - 1])
  }

  /** Entries of one name carry the same bytes; in particular when file names are distinct. */
  ghost predicate Consistent(xs: seq<Item>) {
    forall x, y :: x in xs && y in xs && x.kind.RegularEntry? && y.kind.RegularEntry? && x.path == y.path ==>
      x.data == y.data
  }

  /** No path is both a file and a directory. */
  ghost predicate Disjoint(xs: seq<Item>) {
    FileNames(xs) !! DirsOf(xs)
  }

  lemma {:induction false} FileKeys(xs: seq<Item>)
    ensures FirstFiles(xs).Keys == FileNames(xs)
    ensures LastFiles(xs).Keys == FileNames(xs)
  {
    if xs != [] {
      var n := |xs| - 1;
      FileKeys(xs[..n]);
      assert xs == xs[..n] + [xs[n]];
    }
  }

  /** Consistent archives give the same bytes whichever duplicate decides. */
  lemma {:induction false} ConsistentFiles(xs: seq<Item>, x: Item)
    requires Consistent(xs) && x in xs && x.kind.RegularEntry?
    ensures x.path in FirstFiles(xs) && FirstFiles(xs)[x.path] == x.data
    ensures x.path in LastFiles(xs) && LastFiles(xs)[x.path] == x.data
  {
    FileKeys(xs);
    var n := |xs| - 1;
    var front, last := xs[..n], xs[n];
    FileKeys(front);
    assert xs == front + [last];
    if x.path in FileNames(front) {
      var y :| y in front && y.kind.RegularEntry? && y.path == x.path;
      ConsistentFiles(front, y);
    }
  }

  lemma FirstIsLast(xs: seq<Item>)
    requires Consistent(xs)
    ensures FirstFiles(xs) == LastFiles(xs)
  {
    FileKeys(xs);
    forall p | p in FileNames(xs) ensures FirstFiles(xs)[p] == LastFiles(xs)[p] {
      var x :| x in xs && x.kind.RegularEntry? && x.path == p;
      ConsistentFiles(xs, x);
    }
  }

  ghost predicate IsFile(x: Item, p: Path) {
    x.kind.RegularEntry? && x.path == p
  }

  /** The files are those of the file entries. */
  lemma {:induction false} FilesExact(xs: seq<Item>, p: Path)
    ensures p in FirstFiles(xs) <==> exists i :: 0 <= i < |xs| && IsFile(xs[i], p)
    ensures p in LastFiles(xs) <==> exists i :: 0 <= i < |xs| && IsFile(xs[i], p)
  {
    hide FirstFiles, LastFiles;
    FileKeys(xs);
    assert p in FirstFiles(xs).Keys <==> p in FirstFiles(xs);
    if p in FileNames(xs) {
      var x :| x in xs && x.kind.RegularEntry? && x.path == p;
      var i :| 0 <= i < |xs| && xs[i] == x;
    }
  }

  /** In memory the first entry of a name decides. */
  lemma {:induction false} FirstDecides(xs: seq<Item>, p: Path, i: nat)
    requires i < |xs| && IsFile(xs[i], p) && forall j :: 0 <= j < i ==> !IsFile(xs[j], p)
    ensures Get(FirstFiles(xs), p) == Some(xs[i].data)
  {
    var n := |xs| - 1;
    if i < n {
      FirstDecides(xs[..n], p, i);
    } else {
      FilesExact(xs[..n], p);
    }
  }

  /** On disk the last entry of a name decides. */
  lemma {:induction false} LastDecides(xs: seq<Item>, p: Path, i: nat)
    requires i < |xs| && IsFile(xs[i], p) && forall j :: i < j < |xs| ==> !IsFile(xs[j], p)
    ensures Get(LastFiles(xs), p) == Some(xs[i].data)
  {
    var n := |xs| - 1;
    if i < n {
      LastDecides(xs[..n], p, i);
      assert !IsFile(xs[n], p);
    }
  }

  /** The item needs the directory p: it is on the way to it, a directory entry included. */
  ghost predicate Needs(x: Item, p: Path) {
    (x.kind.DirectoryEntry? && p <= x.path) || (x.kind.RegularEntry? && p <= Dir(x.path))
  }

  /** The directories are the root and everything on the way to an entry. */
  lemma {:induction false} DirsExact(xs: seq<Item>, p: Path)
    ensures p in DirsOf(xs) <==> p == [] || exists i :: 0 <= i < |xs| && Needs(xs[i], p)
  {
    forall q ensures p in Prefixes(q) <==> p <= q {
      if p <= q { assert p == q[..|p|]; }
    }
    if p in DirsOf(xs) && p != [] {
      var x :| x in xs && p in ItemDirs(x);
      var i :| 0 <= i < |xs| && xs[i] == x;
      assert Needs(xs[i], p);
    }
    if i :| 0 <= i < |xs| && Needs(xs[i], p) {
      assert xs[i] in xs && p in ItemDirs(xs[i]);
    }
  }

  // ----- permutations

  lemma SameMembers<T>(a: seq<T>, b: seq<T>)
    requires multiset(a) == multiset(b)
    ensures |a| == |b|
    ensures forall x :: x in a <==> x in b
  {
    assert |a| == |multiset(a)| == |multiset(b)| == |b|;
    assert forall x :: x in a <==> x in multiset(a);
    assert forall x :: x in b <==> x in multiset(b);
  }

  /** Where the last element of one permutation sits in another. */
  lemma Extract<T>(a: seq<T>, b: seq<T>) returns (i: nat)
    requires a != [] && multiset(a) == multiset(b)
    ensures i < |b| && b[i] == a[|a| - 1]
    ensures b == b[..i] + [b[i]] + b[i + 1..]
    ensures multiset(a[..|a| - 1]) == multiset(b[..i] + b[i + 1..])
  {
    SameMembers(a, b);
    var e := a[|a| - 1];
    assert e in b;
    i :| 0 <= i < |b| && b[i] == e;
    assert a == a[..|a| - 1] + [e];
    assert b == b[..i] + [e] + b[i + 1..];
    assert multiset(a[..|a| - 1]) == multiset(a) - multiset{e};
    assert multiset(b[..i] + b[i + 1..]) == multiset(b) - multiset{e};
  }

  lemma {:induction false} VolumeConcat(a: seq<Item>, b: seq<Item>)
    ensures Volume(a + b) == Volume(a) + Volume(b)
    decreases |b|
  {
    if b == [] {
      assert a + b == a;
    } else {
      var n := |b| - 1;
      assert (a + b)[..|a + b| - 1] == a + b[..n];
      VolumeConcat(a, b[..n]);
    }
  }

  lemma {:induction false} VolumePermuted(a: seq<Item>, b: seq<Item>)
    requires multiset(a) == multiset(b)
    ensures Volume(a) == Volume(b)
    decreases |a|
  {
    SameMembers(a, b);
    if a != [] {
      var i := Extract(a, b);
      VolumePermuted(a[..|a| - 1], b[..i] + b[i + 1..]);
      VolumeConcat(b[..i] + [b[i]], b[i + 1..]);
      VolumeConcat(b[..i], [b[i]]);
      VolumeConcat(b[..i], b[i + 1..]);
      assert Volume([b[i]]) == Volume([]) + Weight(b[i]) by { assert [b[i]][..0] == []; }
    }
  }

  ghost function Map<T, U>(f: T -> U, s: seq<T>): (r: seq<U>)
    ensures |r| == |s| && forall i :: 0 <= i < |s| ==> r[i] == f(s[i])
  {
    seq(|s|, i requires 0 <= i < |s| => f(s[i]))
  }

  lemma {:induction false} MapPermuted<T, U>(f: T -> U, a: seq<T>, b: seq<T>)
    requires multiset(a) == multiset(b)
    ensures multiset(Map(f, a)) == multiset(Map(f, b))
    decreases |a|
  {
    SameMembers(a, b);
    if a != [] {
      var n := |a| - 1;
      var i := Extract(a, b);
      var rest := b[..i] + b[i + 1..];
      MapPermuted(f, a[..n], rest);
      assert Map(f, a) == Map(f, a[..n]) + [f(a[n])];
      assert Map(f, rest) == Map(f, b[..i]) + Map(f, b[i + 1..]);
      assert Map(f, b) == Map(f, b[..i]) + [f(b[i])] + Map(f, b[i + 1..]);
    }
  }

  lemma ItemsPermuted(t: Target, a: seq<Entry>, b: seq<Entry>)
    requires multiset(a) == multiset(b)
    ensures multiset(Items(t, a)) == multiset(Items(t, b))
  {
    var place := (e: Entry) => Place(t, e);
    assert Items(t, a) == Map(place, a);
    assert Items(t, b) == Map(place, b);
    MapPermuted(place, a, b);
  }

  /** What the items mean does not depend on their order. */
  lemma {:induction false} MeaningPermuted(a: seq<Item>, b: seq<Item>)
    requires multiset(a) == multiset(b)
    ensures Volume(a) == Volume(b)
    ensures FileNames(a) == FileNames(b) && DirsOf(a) == DirsOf(b)
    ensures Consistent(a) ==> FirstFiles(a) == FirstFiles(b)
  {
    SameMembers(a, b);
    VolumePermuted(a, b);
    FileKeys(a);
    FileKeys(b);
    if Consistent(a) {
      forall p | p in FileNames(a) ensures FirstFiles(a)[p] == FirstFiles(b)[p] {
        var x :| x in a && x.kind.RegularEntry? && x.path == p;
        ConsistentFiles(a, x);
        ConsistentFiles(b, x);
      }
    }
  }

  // ----- the size cap

  const MAX_INT64: int := 0x7fff_ffff_ffff_ffff

  type Int64 = x: int | -MAX_INT64 - 1 <= x <= MAX_INT64

  function Wrap64(x: int): Int64 {
    (x + MAX_INT64 + 1) % (2 * (MAX_INT64 + 1)) - MAX_INT64 - 1
  }

  /** How many of size bytes io.Copy moves through the limiter; a limit of 0 or less means no limiter. */
  function CopyCount(size: nat, limit: Int64, written: nat): (n: nat)
    ensures n <= size
    ensures 0 < limit < MAX_INT64 && written <= limit ==>
      Wrap64(limit - written + 1) >= 1 && n == if written + size <= limit then size else limit - written + 1
    ensures limit <= 0 ==> n == size
    ensures limit == MAX_INT64 && written == 0 ==> n == 0
  {
    if limit <= 0 then size
    else
      var most := Wrap64(limit - written + 1);
      if most <= 0 then 0 else if size < most then size else most
  }

  /**
   What the copy loop gets to see.  At the largest limit the limiter's argument
   wraps to a negative number, and every file is read as empty.
   */
  ghost function Visible(limit: Int64, es: seq<Entry>): (r: seq<Entry>)
    ensures |r| == |es|
  {
    if limit == MAX_INT64 then seq(|es|, i requires 0 <= i < |es| => es[i].(data := [])) else es
  }

  predicate Fits(limit: Int64, volume: nat) {
    limit <= 0 || volume <= limit
  }

  /** The items an unpacker works on. */
  ghost function Contents(t: Target, a: Archive, limit: Int64): (xs: seq<Item>)
    ensures |xs| == |a.entries|
  {
    Items(t, Visible(limit, a.entries))
  }

  /** An archive expanded into memory. */
  ghost function Expanded(a: Archive, limit: Int64): Expansion {
    var xs := Contents(Memory, a, limit);
    Expansion(FirstFiles(xs), DirsOf(xs))
  }

  /** The item made of one entry. */
  lemma ContentsAt(t: Target, a: Archive, limit: Int64, i: nat)
    requires i < |a.entries|
    ensures
      var e, x := a.entries[i], Contents(t, a, limit)[i];
      && (Locate(t, e.name).Ok? <==> SafeTarPath(e.name).Ok?)
      && Proper(x.path)
      && (Locate(t, e.name).Ok? && !(t.Memory? && Locate(t, e.name).value == []) ==>
            x.path == Locate(t, e.name).value && x.kind == e.kind &&
            x.data == if limit == MAX_INT64 then [] else e.data)
      && (t.Memory? && Locate(t, e.name) == Ok([]) ==> x == Item([], OtherEntry, []))
  {
    PlaceIsClean(t, Visible(limit, a.entries)[i]);
  }

  lemma {:induction false} VolumeGrows(xs: seq<Item>, i: nat)
    requires i <= |xs|
    ensures Volume(xs[..i]) <= Volume(xs)
    decreases |xs|
  {
    if i < |xs| {
      assert xs[..|xs| - 1][..i] == xs[..i];
      VolumeGrows(xs[..|xs| - 1], i);
    } else {
      assert xs[..i] == xs;
    }
  }

  lemma EmptyMeaning(xs: seq<Item>)
    ensures FirstFiles(xs[..0]) == map[] && DirsOf(xs[..0]) == {[]} && Volume(xs[..0]) == 0
  {
    assert xs[..0] == [];
  }

  lemma MeaningStep(xs: seq<Item>, i: nat)
    requires i < |xs|
    ensures
      var x, front := xs[i], xs[..i];
      && DirsOf(xs[..i + 1]) == DirsOf(front) + ItemDirs(x)
      && FirstFiles(xs[..i + 1]) ==
           (var files := FirstFiles(front);
            if x.kind.RegularEntry? && x.path !in files then files[x.path := x.data] else files)
      && LastFiles(xs[..i + 1]) ==
           (if x.kind.RegularEntry? then LastFiles(front)[x.path := x.data] else LastFiles(front))
      && Volume(xs[..i + 1]) == Volume(front) + Weight(x)
  {
    var x, whole := xs[i], xs[..i + 1];
    assert whole[..|whole| - 1] == xs[..i];
    assert whole == xs[..i] + [x];
    assert forall y :: y in whole <==> y in xs[..i] || y == x;
  }

  /** When an unpacker that meets no file-system error accepts. */
  ghost predicate Acceptable(t: Target, a: Archive, limit: Int64) {
    && !a.broken
    && AllSafe(a.entries)
    && Fits(limit, Volume(Contents(t, a, limit)))
  }

  /** When an archive is accepted, spelled out; and what its entries become below the largest limit. */
  lemma {:induction false} AcceptedExactly(t: Target, a: Archive, limit: Int64)
    ensures Acceptable(t, a, limit) <==>
      && !a.broken && (forall i :: 0 <= i < |a.entries| ==> SafeTarPath(a.entries[i].name).Ok?)
      && (limit <= 0 || Volume(Contents(t, a, limit)) <= limit)
    ensures forall i :: 0 <= i < |a.entries| && SafeTarPath(a.entries[i].name).Ok? && limit != MAX_INT64 ==>
      var e, p := a.entries[i], SafeTarPath(a.entries[i].name).value;
      Contents(t, a, limit)[i] ==
        if t.Disk? then Item(p, e.kind, e.data)
        else
          var q := Clean(ToSlash(Text(p)));
          if q == [] then Item([], OtherEntry, []) else Item(q, e.kind, e.data)
  {
    hide SafeTarPath, Clean, ToSlash, Text, Volume;
  }
}
