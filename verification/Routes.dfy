/** Which page a request gets, and that the links of the index lead where they say. */
module Routes {
  import opened Results
  import opened Paths
  import opened Texts
  import opened Ordering
  import opened Archives
  import opened Names
  import opened Backend
  import opened Index
  import LocalStore

  datatype Page =
    | Missing
    | RedirectTo(url: string)
    | IndexPage(groups: seq<Group>)
    | GroupPage(prefix: string, rows: seq<Row>)
    | SitePage(name: string, tree: Expansion, file: string)
    | BuiltinPage(name: string, file: string)

  /** The first segment of a URL path and what follows its slash, if there is one. */
  function Target(path: string): (string, Option<string>) {
    var trimmed := TrimPrefix(path, "/");
    match Cut(trimmed, '/')
    case None => (trimmed, None)
    case Some(p) => (p.0, Some(p.1))
  }

  predicate ForApi(path: string) {
    "/api/" <= path || path == "/api"
  }

  predicate IsBuiltin(builtins: seq<Builtin>, name: string) {
    exists i :: 0 <= i < |builtins| && builtins[i].name == name
  }

  ghost predicate HasChildren(names: set<string>, prefix: string) {
    exists n :: n in names && prefix + "." <= n
  }

  /** What a reader of the store is shown at a time. */
  ghost function Shown(shelf: Shelf, now: int): seq<Site> {
    Unexpired(Listing(shelf), now)
  }

  /** A page below a name: the bare name redirects to its directory. */
  ghost function Dispatch(shelf: Shelf, builtins: seq<Builtin>, now: int, path: string): Page {
    var (name, rest) := Target(path);
    if ForApi(path) then Missing
    else if path == "/" then IndexPage(IndexOf(Shown(shelf, now), builtins))
    else if !ValidName(name) then Missing
    else if name in shelf then
      if Overdue(shelf[name], now) then Missing
      else if rest.None? then RedirectTo(Link(name)) else SitePage(name, shelf[name].tree, ServePath(rest.value))
    else if IsBuiltin(builtins, name) then
      if rest.None? then RedirectTo(Link(name)) else BuiltinPage(name, ServePath(rest.value))
    else if HasChildren(shelf.Keys, name) && rest.None? then RedirectTo(Link(name))
    else if HasChildren(shelf.Keys, name) && rest.value == "" && GroupRows(Shown(shelf, now), name) != [] then
      GroupPage(name, GroupRows(Shown(shelf, now), name))
    else Missing
  }

  /** A name-only scan. */
  method HasGroupChildren(names: seq<string>, prefix: string) returns (found: bool)
    ensures found <==> HasChildren(ToSet(names), prefix)
  {
    for i := 0 to |names|
      invariant forall n :: n in names[..i] ==> !(prefix + "." <= n)
    {
      if prefix + "." <= names[i] {
        assert names[i] in ToSet(names);
        return true;
      }
      assert names[..i + 1] == names[..i] + [names[i]];
    }
    assert names[..|names|] == names;
    return false;
  }

  method Buffer(sites: seq<Site>) returns (buffer: array<Site>)
    ensures fresh(buffer) && buffer[..] == sites
  {
    buffer := new Site[|sites|](i requires 0 <= i < |sites| => sites[i]);
  }

  method HandlePublic(store: LocalStore.Store, builtins: seq<Builtin>, now: int, path: string) returns (page: Page)
    ensures page == Dispatch(store.Abs(), builtins, now, path)
  {
    hide Listing, Unexpired, IndexOf, GroupRows, ServePath, Cut, LocalStore.ShelfOf, ValidName, Link;
    hide TotalBytes, Ascending;
    if "/api/" <= path || path == "/api" {
      return Missing;
    }
    if path == "/" {
      var sites := store.List();
      var buffer := Buffer(sites);
      var groups := RenderIndex(buffer, builtins, now);
      return IndexPage(groups);
    }
    var (name, rest) := Target(path);
    if !ValidName(name) {
      return Missing;
    }
    var site := store.Stat(name);
    if site.Ok? {
      if Expired(site.value, now) {
        return Missing;
      }
      var fsys := store.Open(name);
      return if rest.None? then RedirectTo(Link(name)) else SitePage(name, fsys.value, ServePath(rest.value));
    }
    if IsBuiltin(builtins, name) {
      return if rest.None? then RedirectTo(Link(name)) else BuiltinPage(name, ServePath(rest.value));
    }
    var names := store.Names();
    AscendingExact(store.Abs().Keys);
    var children := HasGroupChildren(names, name);
    if children {
      if rest.None? {
        return RedirectTo(Link(name));
      }
      if rest.value == "" {
        var sites := store.List();
        var buffer := Buffer(sites);
        var rows := RenderGroupIndex(buffer, name, now);
        return if rows == [] then Missing else GroupPage(name, rows);
      }
    }
    return Missing;
  }

  // ----- links

  /** The stores hold valid names only. */
  ghost predicate ValidShelf(shelf: Shelf) {
    forall n :: n in shelf ==> ValidName(n)
  }

  /** Names of one text before a slash are one name. */
  lemma {:induction false} ApiPath(name: string, rest: string)
    requires ValidName(name)
    ensures ForApi("/" + name + "/" + rest) <==> name == "api"
    ensures ForApi("/" + name) <==> name == "api"
  {
    ValidHasNoSlash(name);
    var path := "/" + name + "/" + rest;
    assert path[1..] == name + "/" + rest;
    if "/api/" <= path {
      assert path[1..] == "api" + "/" + path[5..];
      FirstSlash(name, "api", rest, path[5..]);
    }
    assert path[|name| + 1] == '/';
    assert |name| >= 4 ==> ("/" + name)[4] == name[3] && name[3] in name;
    if "/" + name == "/api" { assert ("/" + name)[1..] == name && "/api"[1..] == "api"; }
  }

  lemma {:induction false} PathTarget(name: string, rest: string)
    requires ValidName(name)
    ensures Target("/" + name + "/" + rest) == (name, Some(rest)) && "/" + name + "/" + rest != "/"
    ensures Target("/" + name) == (name, None) && "/" + name != "/"
  {
    hide Cut;
    ValidHasNoSlash(name);
    CutFormat(name, rest, '/');
    CutExact(name, '/');
    assert ("/" + name + "/" + rest)[1..] == name + ['/'] + rest;
    assert ("/" + name)[1..] == name;
  }

  /** What the index shows is what is on the shelf and not overdue. */
  lemma {:induction false} ShownExact(shelf: Shelf, now: int)
    ensures Distinct(NamesOf(Shown(shelf, now)))
    ensures forall s :: s in Shown(shelf, now) <==>
      s.name in shelf && s == Describe(s.name, shelf[s.name]) && !Overdue(shelf[s.name], now)
  {
    hide Listing, Unexpired;
    ListingExact(shelf);
    UnexpiredExact(Listing(shelf), now);
  }

  /** The front page is the index: the shown sites grouped, then the built-ins no shown site shadows. */
  lemma {:induction false} FrontPage(shelf: Shelf, builtins: seq<Builtin>, now: int)
    ensures
      var sites := Shown(shelf, now);
      Dispatch(shelf, builtins, now, "/") == IndexPage(Grouped(sites) + Unshadowed(builtins, sites))
  {
    hide Listing, Unexpired, GroupRows, ServePath, ValidName, Target, Shown, Grouped, Unshadowed;
  }

  /** Where any path below a name leads. */
  lemma {:induction false} PathLeads(shelf: Shelf, builtins: seq<Builtin>, now: int, name: string, rest: string)
    requires ValidName(name)
    ensures Dispatch(shelf, builtins, now, "/" + name + "/" + rest) ==
      if name == "api" || (name in shelf && Overdue(shelf[name], now)) then Missing
      else if name in shelf then SitePage(name, shelf[name].tree, ServePath(rest))
      else if IsBuiltin(builtins, name) then BuiltinPage(name, ServePath(rest))
      else if rest == "" && GroupRows(Shown(shelf, now), name) != [] then
        GroupPage(name, GroupRows(Shown(shelf, now), name))
      else Missing
  {
    hide Listing, Unexpired, IndexOf, GroupRows, ServePath, ValidName, Target, Link, ForApi;
    PathTarget(name, rest);
    ApiPath(name, rest);
    RowsMeanChildren(shelf, now, name);
  }

  lemma {:induction false} RowsMeanChildren(shelf: Shelf, now: int, name: string)
    ensures GroupRows(Shown(shelf, now), name) != [] ==> HasChildren(shelf.Keys, name)
  {
    hide Listing, Unexpired, GroupRows, Shown;
    if GroupRows(Shown(shelf, now), name) != [] {
      var r := GroupRows(Shown(shelf, now), name)[0];
      InGroupRows(Shown(shelf, now), name, r);
      ShownExact(shelf, now);
    }
  }

  /** A bare name redirects to its directory exactly when there is a live site, a built-in or a site below it. */
  lemma {:induction false} BareLeads(shelf: Shelf, builtins: seq<Builtin>, now: int, name: string)
    requires ValidName(name)
    ensures
      var found :=
        && name != "api"
        && if name in shelf then !Overdue(shelf[name], now)
           else IsBuiltin(builtins, name) || exists n :: n in shelf && name + "." <= n;
      Dispatch(shelf, builtins, now, "/" + name) == if found then RedirectTo("/" + name + "/") else Missing
  {
    hide Listing, Unexpired, IndexOf, GroupRows, ServePath, ValidName, Target, ForApi, Shown;
    PathTarget(name, "");
    ApiPath(name, "");
    assert HasChildren(shelf.Keys, name) <==> exists n :: n in shelf && name + "." <= n;
  }

  /** A live site answers the path of any of its files with that file, and of a directory with its index.html. */
  lemma {:induction false} SiteServes(shelf: Shelf, builtins: seq<Builtin>, now: int, name: string, p: Path)
    requires ValidName(name) && name != "api" && name in shelf && !Overdue(shelf[name], now)
    requires AllPlain(p) && p != []
    ensures Dispatch(shelf, builtins, now, "/" + name + "/" + Join(p)) == SitePage(name, shelf[name].tree, Join(p))
    ensures Dispatch(shelf, builtins, now, "/" + name + "/" + (Join(p) + "/")) ==
      SitePage(name, shelf[name].tree, Join(p + ["index.html"]))
  {
    hide Dispatch, ValidName, ServePath, Join;
    ServeExact(p);
    PathLeads(shelf, builtins, now, name, Join(p));
    PathLeads(shelf, builtins, now, name, Join(p) + "/");
  }

  /** A name that is not a site name, and everything below /api, is missing. */
  lemma {:induction false} OtherPathsAreMissing(shelf: Shelf, builtins: seq<Builtin>, now: int, path: string)
    requires path != "/" && (!ValidName(Target(path).0) || "/api/" <= path || path == "/api")
    ensures Dispatch(shelf, builtins, now, path) == Missing
  {
    hide Listing, Unexpired, IndexOf, GroupRows, ServePath, ValidName, Target, Shown;
  }

  /** Where a directory link leads. */
  lemma {:induction false} LinkLeads(shelf: Shelf, builtins: seq<Builtin>, now: int, name: string)
    requires ValidName(name)
    ensures Dispatch(shelf, builtins, now, Link(name)) ==
      if name == "api" || (name in shelf && Overdue(shelf[name], now)) then Missing
      else if name in shelf then SitePage(name, shelf[name].tree, "index.html")
      else if IsBuiltin(builtins, name) then BuiltinPage(name, "index.html")
      else if GroupRows(Shown(shelf, now), name) != [] then GroupPage(name, GroupRows(Shown(shelf, now), name))
      else Missing
  {
    hide Dispatch, ServePath, ValidName, Shown, GroupRows;
    PathLeads(shelf, builtins, now, name, "");
    assert Link(name) == "/" + name + "/" + "";
    ServeFront();
  }

  /** The link of a site's row shows that site, unless it is named "api". */
  lemma {:induction false} SiteRowLeads(shelf: Shelf, builtins: seq<Builtin>, now: int, g: nat, k: nat)
    requires ValidShelf(shelf) && IsRow(Shown(shelf, now), g, k)
    ensures
      var row := Grouped(Shown(shelf, now))[g].rows[k];
      && row.name in shelf
      && Dispatch(shelf, builtins, now, row.href) ==
           if row.name == "api" then Missing else SitePage(row.name, shelf[row.name].tree, "index.html")
  {
    hide Listing, Unexpired, IndexOf, GroupRows, ValidName, Link, Dispatch, Shown, Grouped, Position;
    var sites := Shown(shelf, now);
    RowShows(sites, g, k);
    ShownExact(shelf, now);
    var s := sites[Position(sites, g, k)];
    assert s in sites;
    LinkLeads(shelf, builtins, now, s.name);
  }

  /** Every site a reader may see has its one row. */
  lemma {:induction false} LiveSiteHasRow(shelf: Shelf, now: int, name: string) returns (g: nat, k: nat)
    requires name in shelf && !Overdue(shelf[name], now)
    ensures IsRow(Shown(shelf, now), g, k) && Grouped(Shown(shelf, now))[g].rows[k].name == name
    ensures
      var sites := Shown(shelf, now);
      forall h: nat, l: nat :: IsRow(sites, h, l) && Grouped(sites)[h].rows[l].name == name ==> h == g && l == k
  {
    hide Listing, Unexpired, Link, Shown, Grouped, Position, LabelIn;
    var sites := Shown(shelf, now);
    ShownExact(shelf, now);
    var s := Describe(name, shelf[name]);
    assert s in sites;
    var i :| 0 <= i < |sites| && sites[i] == s;
    g, k := OneRowEach(sites, i);
    RowShows(sites, g, k);
    forall h: nat, l: nat | IsRow(sites, h, l) && Grouped(sites)[h].rows[l].name == name
      ensures Position(sites, h, l) == i
    {
      RowShows(sites, h, l);
      assert NamesOf(sites)[Position(sites, h, l)] == NamesOf(sites)[i];
    }
  }

  /**
   The link of a built-in's row shows it, unless it is named "api" or an expired
   site of its name waits to be reaped.
   */
  lemma {:induction false} BuiltinRowLeads(shelf: Shelf, builtins: seq<Builtin>, now: int, g: Group)
    requires forall i :: 0 <= i < |builtins| ==> ValidName(builtins[i].name)
    requires g in Unshadowed(builtins, Shown(shelf, now))
    ensures |g.rows| == 1 && IsBuiltin(builtins, g.rows[0].name)
    ensures
      var name := g.rows[0].name;
      Dispatch(shelf, builtins, now, g.rows[0].href) ==
        if name == "api" || name in shelf then Missing else BuiltinPage(name, "index.html")
  {
    hide Listing, Unexpired, IndexOf, GroupRows, ValidName, Link, Dispatch, Shown, Unshadowed;
    var sites := Shown(shelf, now);
    UnshadowedExact(builtins, sites, g);
    var b :| b in builtins && g == BuiltinGroup(b) && !exists s :: s in sites && s.name == b.name;
    ShownExact(shelf, now);
    LinkLeads(shelf, builtins, now, b.name);
    assert b.name in shelf && !Overdue(shelf[b.name], now) ==> Describe(b.name, shelf[b.name]) in sites;
  }

  /**
   The header of a group leads to the site or built-in of that name, or to a
   page listing the same sites in the same order, unless the prefix is "api" or
   an expired site of exactly that name waits to be reaped.
   */
  lemma {:induction false} HeaderLeads(shelf: Shelf, builtins: seq<Builtin>, now: int, g: nat)
    requires ValidShelf(shelf) && g < |Grouped(Shown(shelf, now))|
    ensures
      var group := Grouped(Shown(shelf, now))[g];
      var page := Dispatch(shelf, builtins, now, group.href);
      if group.name == "api" || (group.name in shelf && Overdue(shelf[group.name], now)) then page == Missing
      else if group.name in shelf then page == SitePage(group.name, shelf[group.name].tree, "index.html")
      else if IsBuiltin(builtins, group.name) then page == BuiltinPage(group.name, "index.html")
      else page.GroupPage? && page.prefix == group.name && SameSites(page.rows, group.rows)
  {
    hide Listing, Unexpired, IndexOf, GroupRows, ValidName, Link, Dispatch, Shown, PrefixOf, Members, Order;
    var sites := Shown(shelf, now);
    var group := Grouped(sites)[g];
    RowsInOrder(sites, g, g);
    RowShows(sites, g, 0);
    ShownExact(shelf, now);
    var s := sites[Position(sites, g, 0)];
    assert s in sites;
    PrefixIsValid(s.name);
    LinkLeads(shelf, builtins, now, group.name);
    if group.name !in shelf {
      PrefixExact(s.name, "");
      GroupRowsAreMembers(sites, group.name);
    }
  }

  /** The same sites in the same order; only labels may differ. */
  ghost predicate SameSites(a: seq<Row>, b: seq<Row>) {
    |a| == |b| && forall k :: 0 <= k < |a| ==> a[k].(caption := "") == b[k].(caption := "")
  }

  lemma PrefixIsValid(name: string)
    requires ValidName(name)
    ensures ValidName(PrefixOf(name))
  {
    hide PrefixOf;
    PrefixExact(name, "");
    var p := PrefixOf(name);
    PrefixExact(name, p);
    assert p == "" ==> p + "." == ".";
    forall i | 0 <= i < |p| ensures p[i] == name[i] {}
  }

  /** Every row of a group page shows its site. */
  lemma {:induction false} GroupPageRowLeads(shelf: Shelf, builtins: seq<Builtin>, now: int, prefix: string, r: Row)
    requires ValidShelf(shelf) && r in GroupRows(Shown(shelf, now), prefix)
    ensures r.name in shelf && prefix + "." + r.caption == r.name
    ensures Dispatch(shelf, builtins, now, r.href) == SitePage(r.name, shelf[r.name].tree, "index.html")
  {
    hide Listing, Unexpired, IndexOf, GroupRows, ValidName, Link, Dispatch, Shown;
    InGroupRows(Shown(shelf, now), prefix, r);
    ShownExact(shelf, now);
    LinkLeads(shelf, builtins, now, r.name);
    assert r.name[|prefix|] == '.';
  }

  /** A header over sites named below "api" leads nowhere, though each of its rows leads to its site. */
  lemma {:induction false} ApiHeaderIsMissing(shelf: Shelf, builtins: seq<Builtin>, now: int) returns (g: nat)
    requires ValidShelf(shelf) && "api.docs" in shelf && !Overdue(shelf["api.docs"], now)
    ensures g < |Grouped(Shown(shelf, now))|
    ensures
      var group := Grouped(Shown(shelf, now))[g];
      group.grouped && Dispatch(shelf, builtins, now, group.href) == Missing
  {
    hide Shown, Dispatch, Grouped, Position, PrefixOf, LabelIn;
    var sites := Shown(shelf, now);
    var k;
    g, k := LiveSiteHasRow(shelf, now, "api.docs");
    RowShows(sites, g, k);
    ShownExact(shelf, now);
    assert "api.docs" == "api" + "." + "docs";
    PrefixExact("api.docs", "api");
    HeaderExact(sites, g);
    HeaderLeads(shelf, builtins, now, g);
  }
}
