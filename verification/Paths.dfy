/**
 Slash-separated paths, cleaned the way Go's path.Clean does it: components are
 pushed on a stack, "." and empty components are dropped, ".." pops.

 A clean path is held as its components: [] is ".", a leading "" marks a rooted
 path, so [""] is "/" and ["", "a"] is "/a".  CleanText shows that the
 components and the text determine each other.
 */
module Paths {
  import opened Results

  type Path = seq<string>

  ghost predicate NoSlash(c: string) {
    '/' !in c
  }

  /** An ordinary file name: what a plain component of a clean path may be. */
  ghost predicate Plain(c: string) {
    c != "" && c != "." && c != ".." && NoSlash(c)
  }

  ghost predicate AllPlain(p: Path) {
    forall i :: 0 <= i < |p| ==> Plain(p[i])
  }

  // ----- splitting and joining text

  /** A character put in front of a split text. */
  function Prepend(c: char, parts: seq<string>): seq<string>
    requires |parts| >= 1
  {
    if c == '/' then [""] + parts else [[c] + parts[0]] + parts[1..]
  }

  function Split(s: string): (parts: seq<string>)
    ensures |parts| >= 1
    ensures forall i :: 0 <= i < |parts| ==> NoSlash(parts[i])
  {
    if s == "" then [""] else Prepend(s[0], Split(s[1..]))
  }

  function Join(parts: seq<string>): string
    requires |parts| >= 1
  {
    if |parts| == 1 then parts[0] else parts[0] + "/" + Join(parts[1..])
  }

  lemma {:induction false} SplitComponent(c: string)
    requires NoSlash(c)
    ensures Split(c) == [c]
  {
    if c != "" {
      SplitComponent(c[1..]);
      assert [c[0]] + c[1..] == c;
    }
  }

  lemma SplitHead(c: char, s: string, whole: string)
    requires whole == [c] + s
    ensures Split(whole) == Prepend(c, Split(s))
  {
    assert whole[0] == c && whole[1..] == s;
  }

  lemma PrependConcat(c: char, a: seq<string>, b: seq<string>)
    requires |a| >= 1
    ensures Prepend(c, a + b) == Prepend(c, a) + b
  {}

  /** Splitting at a slash that is written between two texts. */
  lemma {:induction false} SplitConcat(a: string, b: string)
    ensures Split(a + "/" + b) == Split(a) + Split(b)
  {
    if a == "" {
      SplitHead('/', b, a + "/" + b);
    } else {
      SplitConcat(a[1..], b);
      SplitHead(a[0], a[1..], a);
      SplitHead(a[0], a[1..] + "/" + b, a + "/" + b);
      PrependConcat(a[0], Split(a[1..]), Split(b));
    }
  }

  lemma {:induction false} SplitJoin(parts: seq<string>)
    requires |parts| >= 1
    requires forall i :: 0 <= i < |parts| ==> NoSlash(parts[i])
    ensures Split(Join(parts)) == parts
  {
    SplitComponent(parts[0]);
    if |parts| > 1 {
      SplitJoin(parts[1..]);
      SplitConcat(parts[0], Join(parts[1..]));
      assert [parts[0]] + parts[1..] == parts;
    }
  }

  // ----- cleaning

  /** One component applied to the stack. */
  function Push(rooted: bool, stack: seq<string>, c: string): seq<string> {
    if c == "" || c == "." then stack
    else if c != ".." then stack + [c]
    else if stack != [] && stack[|stack| - 1] != ".." then stack[..|stack| - 1]
    else if rooted then stack
    else stack + [".."]
  }

  function Resolve(rooted: bool, stack: seq<string>, parts: seq<string>): seq<string>
    decreases |parts|
  {
    if parts == [] then stack else Resolve(rooted, Push(rooted, stack, parts[0]), parts[1..])
  }

  predicate IsRooted(s: string) {
    s != "" && s[0] == '/'
  }

  /** path.Clean, as components. */
  function Clean(s: string): Path {
    var body := Resolve(IsRooted(s), [], Split(s));
    if IsRooted(s) then [""] + body else body
  }

  /** The text of a clean path. */
  function Text(p: Path): string {
    if p == [] then "." else if p == [""] then "/" else Join(p)
  }

  /** A resolved stack: ".." only as an unbroken run at the start of an unrooted path. */
  ghost predicate CleanBody(rooted: bool, b: seq<string>) {
    forall i :: 0 <= i < |b| ==>
      NoSlash(b[i]) && b[i] != "" && b[i] != "." &&
      (b[i] == ".." ==> !rooted && forall j :: 0 <= j < i ==> b[j] == "..")
  }

  ghost predicate IsClean(p: Path) {
    if p != [] && p[0] == "" then CleanBody(true, p[1..]) else CleanBody(false, p)
  }

  lemma {:induction false} ResolveIsClean(rooted: bool, stack: seq<string>, parts: seq<string>)
    requires CleanBody(rooted, stack)
    requires forall i :: 0 <= i < |parts| ==> NoSlash(parts[i])
    ensures CleanBody(rooted, Resolve(rooted, stack, parts))
    decreases |parts|
  {
    if parts != [] {
      ResolveIsClean(rooted, Push(rooted, stack, parts[0]), parts[1..]);
    }
  }

  lemma CleanIsClean(s: string)
    ensures IsClean(Clean(s))
  {
    ResolveIsClean(IsRooted(s), [], Split(s));
    var body := Resolve(IsRooted(s), [], Split(s));
    assert ([""] + body)[1..] == body;
  }

  lemma {:induction false} ResolveConcat(rooted: bool, stack: seq<string>, a: seq<string>, b: seq<string>)
    ensures Resolve(rooted, stack, a + b) == Resolve(rooted, Resolve(rooted, stack, a), b)
    decreases |a|
  {
    if a == [] {
      assert a + b == b;
    } else {
      assert (a + b)[1..] == a[1..] + b;
      ResolveConcat(rooted, Push(rooted, stack, a[0]), a[1..], b);
    }
  }

  /** Resolving what is already clean only appends it. */
  lemma {:induction false} ResolveClean(rooted: bool, stack: seq<string>, b: seq<string>)
    requires CleanBody(rooted, stack + b)
    ensures Resolve(rooted, stack, b) == stack + b
    decreases |b|
  {
    if b == [] {
      assert stack + b == stack;
    } else {
      assert (stack + b)[|stack|] == b[0];
      if b[0] == ".." && stack != [] {
        assert (stack + b)[|stack| - 1] == "..";
      }
      assert (stack + [b[0]]) + b[1..] == stack + b;
      ResolveClean(rooted, stack + [b[0]], b[1..]);
    }
  }

  lemma {:induction false} JoinHead(p: Path)
    requires p != [] && p[0] != "" && NoSlash(p[0])
    ensures Join(p) != "" && !IsRooted(Join(p))
  {
    assert p[0][0] in p[0];
  }

  /** Cleaning the text of a clean path gives the path back: components and text determine each other. */
  lemma {:induction false} CleanText(p: Path)
    requires IsClean(p)
    ensures Clean(Text(p)) == p
  {
    if p == [] {
      SplitComponent(".");
      assert Resolve(false, [], ["."]) == Resolve(false, [], []);
    } else if p[0] != "" {
      JoinHead(p);
      SplitJoin(p);
      assert [] + p == p;
      ResolveClean(false, [], p);
    } else {
      var body := p[1..];
      assert p == [""] + body;
      assert [] + body == body;
      ResolveClean(true, [], body);
      if body == [] {
        SplitComponent("");
        assert "/"[1..] == "";
        assert Split("/") == ["", ""];
        assert Resolve(true, [], ["", ""]) == Resolve(true, [], [""]) == Resolve(true, [], []);
      } else {
        assert Text(p) == Join(p) == "" + "/" + Join(body);
        SplitJoin(p);
      }
    }
  }

  lemma {:induction false} CleanIdempotent(s: string)
    ensures Clean(Text(Clean(s))) == Clean(s)
  {
    CleanIsClean(s);
    CleanText(Clean(s));
  }

  // ----- parents

  /** path.Dir of a clean path. */
  function Dir(p: Path): Path {
    if p == [] || p == [""] then p else p[..|p| - 1]
  }

  /** path.Base of a clean path other than ".". */
  function Base(p: Path): string
    requires p != []
  {
    if p == [""] then "/" else p[|p| - 1]
  }

  /** The path a directory listing's entry stands for. */
  function Child(p: Path, b: string): Path {
    if p == [""] && b == "/" then [""] else p + [b]
  }

  /** What tells a path from the listing entry of "/": no component is a slash. */
  predicate Proper(p: Path) {
    "/" !in p
  }

  lemma CleanIsProper(p: Path)
    requires IsClean(p)
    ensures Proper(p)
  {
    forall i | 0 <= i < |p| ensures p[i] != "/" {
      assert NoSlash(p[i]) by {
        if p[0] == "" && i > 0 { assert p[1..][i - 1] == p[i]; }
      }
    }
  }

  lemma ChildOfParent(p: Path)
    requires Proper(p) && p != []
    ensures Child(Dir(p), Base(p)) == p
    ensures Proper(Dir(p))
  {
    if p != [""] {
      assert p[..|p| - 1] + [p[|p| - 1]] == p;
      assert p[|p| - 1] in p;
    }
  }

  /** Every directory on the way to p, p included. */
  ghost function Prefixes(p: Path): set<Path> {
    set k | 0 <= k <= |p| :: p[..k]
  }

  lemma RootPrefixes()
    ensures Prefixes([]) == {[]}
  {
    var root: Path := [];
    assert root[..0] == root;
    assert root[..0] in Prefixes(root);
  }

  // ----- the archive-entry rule

  predicate HasPrefix(s: string, prefix: string) {
    prefix <= s
  }

  /** Cleans an archive entry name and rejects what would leave the site root. */
  function SafeTarPath(name: string): Result<Path> {
    var clean := Text(Clean(name));
    if clean == ".." || HasPrefix(clean, "../") || HasPrefix(clean, "/") then Err(UnsafePath) else Ok(Clean(name))
  }

  /** How far below the start a list of components ends; negative is above it. */
  ghost function Depth(parts: seq<string>): int {
    if parts == [] then 0
    else
      Depth(parts[..|parts| - 1]) +
      (var c := parts[|parts| - 1];
       if c == "" || c == "." then 0 else if c == ".." then -1 else 1)
  }

  ghost predicate NeverClimbs(parts: seq<string>) {
    forall k :: 0 <= k <= |parts| ==> Depth(parts[..k]) >= 0
  }

  /** While no prefix has climbed, the stack holds plain components only, and its height is the depth. */
  lemma {:induction false} StackDepth(parts: seq<string>)
    requires forall i :: 0 <= i < |parts| ==> NoSlash(parts[i])
    ensures NeverClimbs(parts) ==>
      AllPlain(Resolve(false, [], parts)) && |Resolve(false, [], parts)| == Depth(parts)
    ensures !NeverClimbs(parts) ==>
      Resolve(false, [], parts) != [] && Resolve(false, [], parts)[0] == ".."
    decreases |parts|
  {
    if parts != [] {
      var n := |parts| - 1;
      var front := parts[..n];
      StackDepth(front);
      assert front + [parts[n]] == parts;
      ResolveConcat(false, [], front, [parts[n]]);
      var before := Resolve(false, [], front);
      assert Resolve(false, before, [parts[n]]) == Push(false, before, parts[n]);
      ResolveIsClean(false, [], front);
      forall k | 0 <= k <= n ensures front[..k] == parts[..k] {}
      assert parts[..n + 1] == parts;
      if NeverClimbs(front) {
        if Depth(parts) >= 0 {
          forall k | 0 <= k <= |parts| ensures Depth(parts[..k]) >= 0 {
            if k <= n { assert Depth(front[..k]) >= 0; }
          }
        } else {
          assert !NeverClimbs(parts);
        }
      } else {
        var k :| 0 <= k <= n && Depth(front[..k]) < 0;
        assert Depth(parts[..k]) < 0;
      }
    } else {
      assert parts[..0] == [];
    }
  }

  lemma TextClimbs(p: Path)
    requires IsClean(p)
    ensures (Text(p) == ".." || HasPrefix(Text(p), "../")) <==> (p != [] && p[0] == "..")
    ensures HasPrefix(Text(p), "/") <==> (p != [] && p[0] == "")
  {
    if p != [] && p[0] != "" {
      JoinHead(p);
      assert Text(p) == Join(p);
      assert Join(p)[..|p[0]|] == p[0];
      assert |p| > 1 ==> Join(p) == p[0] + "/" + Join(p[1..]) && Join(p)[|p[0]|] == '/';
      assert |p[0]| >= 3 ==> p[0][2] in p[0] && p[0][2] == Join(p)[2];
      assert |p[0]| == 2 ==> p[0] == [Join(p)[0], Join(p)[1]];
      assert |p[0]| == 1 ==> p[0] == [Join(p)[0]];
    } else if p != [] {
      if |p| > 1 {
        assert Text(p) == "" + "/" + Join(p[1..]);
      } else {
        assert p == [""];
      }
      assert Text(p)[0] == '/';
    } else {
      assert Text(p)[0] == '.';
    }
  }

  /**
   A name is accepted exactly when it is not absolute and no prefix of its
   components climbs above the start; what it yields has plain components only.
   */
  lemma {:induction false} SafeTarPathExact(name: string)
    ensures SafeTarPath(name).Ok? <==> !IsRooted(name) && NeverClimbs(Split(name))
    ensures SafeTarPath(name).Ok? ==> AllPlain(SafeTarPath(name).value) && IsClean(SafeTarPath(name).value)
    ensures SafeTarPath(name).Ok? ==> |SafeTarPath(name).value| == Depth(Split(name))
  {
    CleanIsClean(name);
    TextClimbs(Clean(name));
    if !IsRooted(name) {
      StackDepth(Split(name));
    }
  }

  // ----- joining below a root

  /** path.Join and filepath.Join of two elements. */
  function JoinPath(a: string, b: string): Path {
    if a == "" && b == "" then [] else if a == "" then Clean(b) else if b == "" then Clean(a) else Clean(a + "/" + b)
  }

  lemma {:induction false} ResolvePlain(rooted: bool, stack: seq<string>, p: Path)
    requires AllPlain(p)
    ensures Resolve(rooted, stack, p) == stack + p
    decreases |p|
  {
    if p == [] {
      assert stack + p == stack;
    } else {
      assert (stack + [p[0]]) + p[1..] == stack + p;
      ResolvePlain(rooted, stack + [p[0]], p[1..]);
    }
  }

  lemma PlainIsClean(p: Path)
    requires AllPlain(p)
    ensures IsClean(p)
  {
    if p != [] { assert Plain(p[0]); }
  }

  lemma CleanEmpty()
    ensures Clean("") == []
  {
    assert Split("") == [""];
    assert Resolve(false, [], [""]) == Resolve(false, [], []);
  }

  lemma ResolveText(rooted: bool, stack: seq<string>, p: Path)
    requires AllPlain(p)
    ensures Text(p) != ""
    ensures Resolve(rooted, stack, Split(Text(p))) == stack + p
  {
    if p == [] {
      SplitComponent(".");
      assert Resolve(rooted, stack, ["."]) == Resolve(rooted, stack, []) == stack;
    } else {
      assert Plain(p[0]);
      JoinHead(p);
      forall i | 0 <= i < |p| ensures NoSlash(p[i]) { assert Plain(p[i]); }
      SplitJoin(p);
      ResolvePlain(rooted, stack, p);
    }
  }

  /** Joining an accepted entry to any root lands at that root extended by the entry's own components. */
  lemma {:induction false} JoinStaysUnder(root: string, p: Path)
    requires AllPlain(p)
    ensures JoinPath(root, Text(p)) == Clean(root) + p
  {
    if root == "" {
      PlainIsClean(p);
      CleanText(p);
      CleanEmpty();
      ResolveText(false, [], p);
      assert [] + p == p;
    } else {
      SplitConcat(root, Text(p));
      var rooted := IsRooted(root);
      assert IsRooted(root + "/" + Text(p)) == rooted;
      ResolveConcat(rooted, [], Split(root), Split(Text(p)));
      ResolveText(rooted, Resolve(rooted, [], Split(root)), p);
    }
  }

  // ----- the path a request is served from

  ghost predicate EndsAtDirectory(rest: string) {
    rest == "" || rest[|rest| - 1] == '/'
  }

  /** The file-system path serveSite opens for the part of the URL after "/<site>/". */
  function ServePath(rest: string): string {
    var r := if rest == "" || rest[|rest| - 1] == '/' then Text(JoinPath(rest, "index.html")) else rest;
    Text(Clean("/" + r))[1..]
  }

  /** p is the list of components, possibly none, that the request opens. */
  ghost predicate Serves(rest: string, p: Path) {
    && AllPlain(p)
    && ServePath(rest) == (if p == [] then "" else Join(p))
    && (EndsAtDirectory(rest) ==> p != [] && p[|p| - 1] == "index.html")
  }

  lemma CleanRooted(r: string) returns (p: Path)
    ensures AllPlain(p) && Clean("/" + r) == [""] + p
    ensures Text([""] + p)[1..] == if p == [] then "" else Join(p)
  {
    CleanIsClean("/" + r);
    p := Clean("/" + r)[1..];
    assert CleanBody(true, p);
    forall i | 0 <= i < |p| ensures Plain(p[i]) {}
    if p != [] {
      assert ([""] + p)[1..] == p;
      assert Text([""] + p) == "" + "/" + Join(p);
    }
  }

  /** Cleaning below "/" keeps a plain last component. */
  lemma RootedKeepsLast(q: Path, c: string)
    requires IsClean(q + [c]) && Plain(c)
    ensures Clean("/" + Text(q + [c])) != [] && var p := Clean("/" + Text(q + [c])); p[|p| - 1] == c
  {
    var whole := q + [c];
    assert Text(whole) == Join(whole);
    forall i | 0 <= i < |whole| ensures NoSlash(whole[i]) {
      if whole[0] == "" && i > 0 { assert whole[1..][i - 1] == whole[i]; }
    }
    SplitJoin(whole);
    SplitConcat("", Text(whole));
    assert "" + "/" + Text(whole) == "/" + Text(whole);
    assert [""] + whole == ([""] + q) + [c];
    ResolveConcat(true, [], [""] + q, [c]);
    var before := Resolve(true, [], [""] + q);
    assert Resolve(true, before, [c]) == Resolve(true, before + [c], []) == before + [c];
  }

  /**
   Requests reach the file system as the empty path or as plain components:
   never rooted, never "." or "..", and a directory URL names its index.html.
   */
  lemma {:induction false} ServePathIsUnrooted(rest: string)
    ensures exists p :: Serves(rest, p)
  {
    if EndsAtDirectory(rest) {
      var index := ["index.html"];
      assert Text(index) == "index.html";
      JoinStaysUnder(rest, index);
      var full := JoinPath(rest, "index.html");
      assert full == Clean(rest) + index;
      CleanIsClean(rest + "/" + "index.html");
      PlainIsClean(index);
      if rest == "" { CleanEmpty(); assert full == index; }
      RootedKeepsLast(Clean(rest), "index.html");
      var p := CleanRooted(Text(full));
      assert Serves(rest, p);
    } else {
      var p := CleanRooted(rest);
      assert Serves(rest, p);
    }
  }

  /** The front page of a site. */
  lemma ServeFront()
    ensures ServePath("") == "index.html"
  {
    var index := ["index.html"];
    assert Text(index) == "index.html";
    JoinStaysUnder("", index);
    CleanEmpty();
    assert JoinPath("", "index.html") == index;
    PlainIsClean(index);
    CleanRootedText(index);
  }

  lemma {:induction false} CleanRootedText(p: Path)
    requires AllPlain(p) && p != []
    ensures Text(Clean("/" + Text(p)))[1..] == Join(p)
  {
    var q := CleanRooted(Text(p));
    ResolveRooted(p);
    assert Clean("/" + Text(p)) == [""] + p;
    assert q == ([""] + q)[1..] == ([""] + p)[1..] == p;
  }

  lemma {:induction false} ResolveRooted(p: Path)
    requires AllPlain(p)
    ensures Resolve(true, [], Split("/" + Text(p))) == p
  {
    hide Text, Plain;
    SplitConcat("", Text(p));
    assert "" + "/" + Text(p) == "/" + Text(p);
    SplitComponent("");
    ResolveConcat(true, [], [""], Split(Text(p)));
    assert Resolve(true, [], [""]) == Resolve(true, [], []) == [];
    ResolveText(true, [], p);
  }

  // ----- which file a request opens

  /** The text of the components a request opens. */
  function Served(p: Path): string {
    if p == [] then "" else Join(p)
  }

  lemma {:induction false} RootedBody(r: string)
    ensures Clean("/" + r) == [""] + Resolve(true, [], Split(r))
  {
    SplitConcat("", r);
    assert "" + "/" + r == "/" + r;
    SplitComponent("");
    ResolveConcat(true, [], [""], Split(r));
    assert Resolve(true, [], [""]) == Resolve(true, [], []) == [];
  }

  /** A file URL opens what its components resolve to below the site's root. */
  lemma {:induction false} ServeComponents(rest: string)
    requires !EndsAtDirectory(rest)
    ensures ServePath(rest) == Served(Resolve(true, [], Split(rest)))
  {
    var p := CleanRooted(rest);
    RootedBody(rest);
    assert p == ([""] + p)[1..] == ([""] + Resolve(true, [], Split(rest)))[1..] == Resolve(true, [], Split(rest));
  }

  lemma {:induction false} ResolveOne(rooted: bool, stack: seq<string>, c: string)
    ensures Resolve(rooted, stack, [c]) == Push(rooted, stack, c)
  {
    assert [c][1..] == [];
    assert Resolve(rooted, Push(rooted, stack, c), []) == Push(rooted, stack, c);
  }

  /** Resolving below the root may be done in two steps. */
  lemma {:induction false} ResolveInside(parts: seq<string>)
    requires forall i :: 0 <= i < |parts| ==> NoSlash(parts[i])
    ensures Resolve(true, [], Resolve(false, [], parts)) == Resolve(true, [], parts)
    decreases |parts|
  {
    if parts == [] {
      assert Resolve(false, [], parts) == [] == parts;
    } else {
      ResolveInsideStep(parts);
    }
  }

  lemma {:induction false} ResolveInsideStep(parts: seq<string>)
    requires parts != [] && forall i :: 0 <= i < |parts| ==> NoSlash(parts[i])
    ensures Resolve(true, [], Resolve(false, [], parts)) == Resolve(true, [], parts)
    decreases |parts|, 0
  {
    hide Resolve, Push, CleanBody;
    var n := |parts| - 1;
    var front, c := parts[..n], parts[n];
    ResolveInside(front);
    assert front + [c] == parts;
    var s, r := Resolve(false, [], front), Resolve(true, [], front);
    assert CleanBody(false, s) by { EmptyIsClean(false); ResolveIsClean(false, [], front); }
    ResolveConcat(false, [], front, [c]);
    ResolveOne(false, s, c);
    ResolveConcat(true, [], front, [c]);
    ResolveOne(true, r, c);
    PushInside(s, c);
  }

  lemma EmptyIsClean(rooted: bool)
    ensures CleanBody(rooted, [])
  {}

  lemma {:induction false} PushInside(s: seq<string>, c: string)
    requires CleanBody(false, s)
    ensures Resolve(true, [], Push(false, s, c)) == Push(true, Resolve(true, [], s), c)
  {
    var r := Resolve(true, [], s);
    ResolveConcat(true, [], s, [c]);
    assert Resolve(true, r, [c]) == Resolve(true, Push(true, r, c), []) == Push(true, r, c);
    ResolveConcat(true, [], s, [".."]);
    assert Resolve(true, r, [".."]) == Resolve(true, Push(true, r, ".."), []) == Push(true, r, "..");
    if c == ".." && s != [] && s[|s| - 1] != ".." {
      var last := s[|s| - 1];
      var front := s[..|s| - 1];
      assert s == front + [last] && last != "" && last != ".";
      ResolveConcat(true, [], front, [last]);
      var q := Resolve(true, [], front);
      assert Resolve(true, q, [last]) == Resolve(true, q + [last], []) == q + [last];
      assert (q + [last])[..|q|] == q;
    }
  }

  /** The body of a cleaned text resolves below the root as the text does. */
  lemma {:induction false} CleanInside(x: string)
    ensures Resolve(true, [], Split(Text(Clean(x)))) == Resolve(true, [], Split(x))
  {
    CleanIsClean(x);
    var p := Clean(x);
    var body := Resolve(IsRooted(x), [], Split(x));
    if IsRooted(x) {
      RootedTwice(body);
      CleanIsClean(x);
      ResolveIsClean(true, [], Split(x));
      ResolvePlainBody(body);
    } else {
      ResolveInside(Split(x));
      if body == [] {
        SplitComponent(".");
        assert Resolve(true, [], ["."]) == Resolve(true, [], []) == [];
        assert Resolve(true, [], body) == [];
      } else {
        ResolveIsClean(false, [], Split(x));
        SplitJoin(body);
        assert Text(p) == Join(body);
      }
    }
  }

  lemma {:induction false} RootedTwice(body: Path)
    requires CleanBody(true, body)
    ensures Resolve(true, [], Split(Text([""] + body))) == Resolve(true, [], body)
  {
    SplitComponent("");
    if body == [] {
      SplitConcat("", "");
      assert "" + "/" + "" == "/";
      assert Resolve(true, [], ["", ""]) == Resolve(true, [], [""]) == Resolve(true, [], []);
    } else {
      assert ([""] + body)[1..] == body;
      assert Text([""] + body) == "" + "/" + Join(body);
      SplitConcat("", Join(body));
      SplitJoin(body);
      ResolveConcat(true, [], [""], body);
      assert Resolve(true, [], [""]) == Resolve(true, [], []) == [];
    }
  }

  lemma {:induction false} ResolvePlainBody(body: Path)
    requires CleanBody(true, body)
    ensures Resolve(true, [], body) == body
  {
    forall i | 0 <= i < |body| ensures Plain(body[i]) {}
    ResolvePlain(true, [], body);
    assert [] + body == body;
  }

  lemma {:induction false} ResolveSkips(stack: seq<string>, c: string, b: seq<string>)
    requires c == "" || c == "."
    ensures Resolve(true, stack, [c] + b) == Resolve(true, stack, b)
  {
    assert ([c] + b)[1..] == b;
  }

  lemma {:induction false} ResolveCancels(stack: seq<string>, c: string, b: seq<string>)
    requires Plain(c)
    ensures Resolve(true, stack, [c, ".."] + b) == Resolve(true, stack, b)
  {
    assert ([c, ".."] + b)[1..] == [".."] + b && ([".."] + b)[1..] == b;
    assert Push(true, stack, c) == stack + [c] && Push(true, stack + [c], "..") == stack;
    assert Resolve(true, stack + [c], [".."] + b) == Resolve(true, stack, b);
  }

  lemma {:induction false} ResolveAtRoot(b: seq<string>)
    ensures Resolve(true, [], [".."] + b) == Resolve(true, [], b)
  {
    assert ([".."] + b)[1..] == b;
  }

  /** Doubling a slash changes nothing. */
  lemma {:induction false} SlashTwice(dir: string, file: string)
    ensures Resolve(true, [], Split(dir + "/" + "/" + file)) == Resolve(true, [], Split(dir + "/" + file))
  {
    hide Split, Resolve;
    SplitConcat(dir, file);
    SplitConcat(dir, "/" + file);
    SplitConcat("", file);
    SplitComponent("");
    assert dir + "/" + "/" + file == dir + "/" + ("/" + file);
    assert "" + "/" + file == "/" + file;
    ResolveConcat(true, [], Split(dir), [""] + Split(file));
    ResolveConcat(true, [], Split(dir), Split(file));
    ResolveSkips(Resolve(true, [], Split(dir)), "", Split(file));
  }

  /** A directory URL opens the index.html in it. */
  lemma {:induction false} ServeDirectory(rest: string)
    requires EndsAtDirectory(rest)
    ensures ServePath(rest) == ServePath(rest + "index.html")
  {
    hide Split, Resolve, Clean, Text;
    var index := "index.html";
    var full := rest + index;
    assert full[|full| - 1] == 'l';
    ServeComponents(full);
    var joined := if rest == "" then index else rest + "/" + index;
    assert JoinPath(rest, index) == Clean(joined);
    CleanInside(joined);
    var p := CleanRooted(Text(Clean(joined)));
    RootedBody(Text(Clean(joined)));
    assert p == ([""] + p)[1..] == ([""] + Resolve(true, [], Split(joined)))[1..] == Resolve(true, [], Split(joined));
    if rest == "" {
      assert full == joined;
    } else {
      var dir := rest[..|rest| - 1];
      assert rest == dir + "/";
      SlashTwice(dir, index);
      assert full == dir + "/" + index && joined == dir + "/" + "/" + index;
    }
  }

  lemma {:induction false} JoinEnds(p: Path)
    requires AllPlain(p) && p != []
    ensures Join(p) != "" && Join(p)[|Join(p)| - 1] != '/'
  {
    if |p| > 1 {
      assert AllPlain(p[1..]);
      JoinEnds(p[1..]);
    } else {
      assert Plain(p[0]) && p[0][|p[0]| - 1] in p[0];
    }
  }

  lemma {:induction false} JoinAppend(p: Path, c: string)
    requires p != []
    ensures Join(p + [c]) == Join(p) + "/" + c
  {
    if |p| > 1 {
      JoinAppend(p[1..], c);
      assert (p + [c])[1..] == p[1..] + [c];
    } else {
      assert (p + [c])[1..] == [c];
    }
  }

  /** The URL of a file opens that file, and the URL of a directory its index.html. */
  lemma {:induction false} ServeExact(p: Path)
    requires AllPlain(p) && p != []
    ensures ServePath(Join(p)) == Join(p)
    ensures ServePath(Join(p) + "/") == Join(p + ["index.html"])
  {
    JoinEnds(p);
    ServePlain(p);
    JoinAppend(p, "index.html");
    var q := p + ["index.html"];
    assert AllPlain(q);
    JoinEnds(q);
    ServePlain(q);
    ServeDirectory(Join(p) + "/");
    assert Join(p) + "/" + "index.html" == (Join(p) + "/") + "index.html";
  }

  lemma {:induction false} ServePlain(p: Path)
    requires AllPlain(p) && p != [] && !EndsAtDirectory(Join(p))
    ensures ServePath(Join(p)) == Join(p)
  {
    ServeComponents(Join(p));
    assert forall i :: 0 <= i < |p| ==> Plain(p[i]);
    SplitJoin(p);
    ResolvePlain(true, [], p);
    assert [] + p == p;
  }

  ghost predicate Parts(parts: seq<string>) {
    |parts| > 0 && parts[|parts| - 1] != "" && forall i :: 0 <= i < |parts| ==> NoSlash(parts[i])
  }

  lemma {:induction false} ServeParts(parts: seq<string>)
    requires Parts(parts)
    ensures !EndsAtDirectory(Join(parts)) && ServePath(Join(parts)) == Served(Resolve(true, [], parts))
  {
    SplitJoin(parts);
    PartsEnd(parts);
    ServeComponents(Join(parts));
  }

  lemma {:induction false} PartsEnd(parts: seq<string>)
    requires Parts(parts)
    ensures !EndsAtDirectory(Join(parts))
  {
    if |parts| > 1 {
      PartsEnd(parts[1..]);
    } else {
      assert parts[0][|parts[0]| - 1] in parts[0];
    }
  }

  /** Empty and "." components change nothing, a component followed by ".." cancels, and ".." stops at the root. */
  lemma {:induction false} ServeCancels(a: seq<string>, c: string, b: seq<string>)
    requires Parts(a + b) && Parts(b) && NoSlash(c)
    ensures c == "" || c == "." ==> ServePath(Join(a + [c] + b)) == ServePath(Join(a + b))
    ensures Plain(c) ==> ServePath(Join(a + [c, ".."] + b)) == ServePath(Join(a + b))
    ensures ServePath(Join([".."] + b)) == ServePath(Join(b))
  {
    hide Resolve, Push, Join, Plain, ServePath, EndsAtDirectory;
    forall i | 0 <= i < |a| ensures NoSlash(a[i]) { assert (a + b)[i] == a[i]; }
    var r := Resolve(true, [], a);
    ServeParts(a + b);
    ServeParts(b);
    ServeParts([".."] + b);
    ResolveAtRoot(b);
    ResolveConcat(true, [], a, b);
    assert a + [c] + b == a + ([c] + b) && a + [c, ".."] + b == a + ([c, ".."] + b);
    ServeParts(a + [c] + b);
    ServeParts(a + [c, ".."] + b);
    ResolveConcat(true, [], a, [c] + b);
    ResolveConcat(true, [], a, [c, ".."] + b);
    if c == "" || c == "." { ResolveSkips(r, c, b); }
    if Plain(c) { ResolveCancels(r, c, b); }
  }
}
