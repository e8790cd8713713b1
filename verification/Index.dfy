/** The index page: expired sites left out, namespaced sites grouped, built-in sites appended. */
module Index {
  import opened Results
  import opened Texts
  import opened Ordering
  import opened Backend

  datatype Builtin = Builtin(name: string, fileCount: nat, sizeBytes: nat)

  datatype Row = Row(
    name: string, caption: string, href: string, builtin: bool,
    fileCount: nat, sizeBytes: nat, expiresAt: Option<int>)

  /** A header and its rows; without grouped, a bare row. */
  datatype Group = Group(name: string, href: string, grouped: bool, rows: seq<Row>)

  function Link(name: string): string {
    "/" + name + "/"
  }

  function DiskRow(s: Site, caption: string): Row {
    Row(s.name, caption, Link(s.name), false, s.fileCount, s.sizeBytes, s.expiresAt)
  }

  function TrimPrefix(s: string, prefix: string): string {
    if prefix <= s then s[|prefix|..] else s
  }

  // ----- leaving out the expired, in place

  /** Compacts the unexpired sites to the front of the same buffer. */
  method UnexpiredSites(sites: array<Site>, now: int) returns (n: nat)
    modifies sites
    ensures n <= sites.Length && sites[..n] == Unexpired(old(sites[..]), now)
  {
    ghost var was := sites[..];
    n := 0;
    for i := 0 to sites.Length
      invariant n <= i
      invariant sites[..n] == Unexpired(was[..i], now)
      invariant forall k :: i <= k < sites.Length ==> sites[k] == was[k]
    {
      assert was[..i + 1][..i] == was[..i];
      if !Expired(sites[i], now) {
        sites[n] := sites[i];
        n := n + 1;
      }
    }
    assert was[..sites.Length] == was;
  }

  // ----- grouping

  /** The part of a name before its first dot. */
  function PrefixOf(name: string): string {
    match Cut(name, '.')
    case None => name
    case Some(p) => p.0
  }

  /** The prefixes in the order they first appear. */
  function Order(sites: seq<Site>): seq<string> {
    if sites == [] then []
    else
      var front, p := Order(sites[..|sites| - 1]), PrefixOf(sites[|sites| - 1].name);
      if p in front then front else front + [p]
  }

  function Members(sites: seq<Site>, prefix: string): seq<Site> {
    if sites == [] then []
    else
      var front, last := Members(sites[..|sites| - 1], prefix), sites[|sites| - 1];
      if PrefixOf(last.name) == prefix then front + [last] else front
  }

  predicate HasHeader(members: seq<Site>) {
    |members| > 1 || (members != [] && '.' in members[0].name)
  }

  function LabelIn(prefix: string, grouped: bool, name: string): string {
    var rest := TrimPrefix(name, prefix + ".");
    if !grouped || rest == "" then name else rest
  }

  function GroupOf(prefix: string, members: seq<Site>): Group {
    var grouped := HasHeader(members);
    Group(prefix, Link(prefix), grouped,
      seq(|members|, k requires 0 <= k < |members| => DiskRow(members[k], LabelIn(prefix, grouped, members[k].name))))
  }

  function Grouped(sites: seq<Site>): seq<Group> {
    seq(|Order(sites)|, g requires 0 <= g < |Order(sites)| => GroupOf(Order(sites)[g], Members(sites, Order(sites)[g])))
  }

  /** What one pass over a prefix of the list has collected. */
  ghost predicate Gathered(sites: seq<Site>, order: seq<string>, byPrefix: map<string, seq<Site>>) {
    && order == Order(sites)
    && (forall p :: p in byPrefix <==> p in order)
    && (forall p :: p in byPrefix ==> byPrefix[p] == Members(sites, p) && byPrefix[p] != [])
  }

  lemma GatherOne(sites: seq<Site>, i: nat, order: seq<string>, byPrefix: map<string, seq<Site>>)
    requires i < |sites| && Gathered(sites[..i], order, byPrefix)
    ensures
      var p := PrefixOf(sites[i].name);
      Gathered(sites[..i + 1],
        if p in byPrefix then order else order + [p],
        byPrefix[p := if p in byPrefix then byPrefix[p] + [sites[i]] else [sites[i]]])
  {
    hide PrefixOf;
    var p := PrefixOf(sites[i].name);
    assert sites[..i + 1][..i] == sites[..i];
    NotYetSeen(sites[..i], p);
  }

  lemma GatherNone()
    ensures Gathered([][..0], [], map[])
  {}

  lemma {:induction false} NotYetSeen(sites: seq<Site>, p: string)
    ensures p in Order(sites) <==> Members(sites, p) != []
  {
    hide PrefixOf;
    if sites != [] { NotYetSeen(sites[..|sites| - 1], p); }
  }

  /** One pass: the prefixes as they first appear, and the sites of each. */
  method Gather(sites: seq<Site>) returns (order: seq<string>, byPrefix: map<string, seq<Site>>)
    ensures Gathered(sites, order, byPrefix)
  {
    hide Gathered, Cut;
    order, byPrefix := [], map[];
    GatherNone();
    for i := 0 to |sites|
      invariant Gathered(sites[..i], order, byPrefix)
    {
      GatherOne(sites, i, order, byPrefix);
      var prefix := match Cut(sites[i].name, '.') { case None => sites[i].name case Some(p) => p.0 };
      if prefix !in byPrefix {
        order := order + [prefix];
        byPrefix := byPrefix[prefix := [sites[i]]];
      } else {
        byPrefix := byPrefix[prefix := byPrefix[prefix] + [sites[i]]];
      }
    }
    assert sites[..|sites|] == sites;
  }

  method RowsFor(prefix: string, members: seq<Site>, grouped: bool) returns (rows: seq<Row>)
    ensures |rows| == |members|
    ensures forall k :: 0 <= k < |members| ==> rows[k] == DiskRow(members[k], LabelIn(prefix, grouped, members[k].name))
  {
    rows := [];
    for k := 0 to |members|
      invariant |rows| == k
      invariant forall l :: 0 <= l < k ==> rows[l] == DiskRow(members[l], LabelIn(prefix, grouped, members[l].name))
    {
      var caption := members[k].name;
      if grouped {
        caption := TrimPrefix(members[k].name, prefix + ".");
        if caption == "" {
          caption := members[k].name;
        }
      }
      rows := rows + [DiskRow(members[k], caption)];
    }
  }

  method GroupDiskSites(sites: seq<Site>) returns (groups: seq<Group>)
    ensures groups == Grouped(sites)
  {
    hide Order, Members, LabelIn, DiskRow, Link;
    var order, byPrefix := Gather(sites);
    groups := [];
    for g := 0 to |order|
      invariant |groups| == g
      invariant forall h :: 0 <= h < g ==> groups[h] == GroupOf(order[h], Members(sites, order[h]))
    {
      assert order[g] in order;
      var members := byPrefix[order[g]];
      var grouped := |members| > 1 || '.' in members[0].name;
      var rows := RowsFor(order[g], members, grouped);
      assert rows == GroupOf(order[g], members).rows;
      groups := groups + [Group(order[g], Link(order[g]), grouped, rows)];
    }
  }

  // ----- what grouping shows

  /** The positions, in the list, of the sites with a prefix. */
  ghost function At(sites: seq<Site>, prefix: string): seq<nat> {
    if sites == [] then []
    else
      var n := |sites| - 1;
      At(sites[..n], prefix) + if PrefixOf(sites[n].name) == prefix then [n] else []
  }

  lemma {:induction false} AtExact(sites: seq<Site>, p: string)
    ensures |At(sites, p)| == |Members(sites, p)|
    ensures forall k :: 0 <= k < |At(sites, p)| ==> Points(sites, p, At(sites, p)[k], Members(sites, p)[k])
    ensures forall k, l :: 0 <= k < l < |At(sites, p)| ==> At(sites, p)[k] < At(sites, p)[l]
  {
    hide PrefixOf;
    if sites != [] {
      AtExact(sites[..|sites| - 1], p);
    }
  }

  ghost predicate Points(sites: seq<Site>, p: string, i: nat, s: Site) {
    i < |sites| && sites[i] == s && PrefixOf(s.name) == p
  }

  lemma {:induction false} AtComplete(sites: seq<Site>, i: nat)
    requires i < |sites|
    ensures i in At(sites, PrefixOf(sites[i].name)) && PrefixOf(sites[i].name) in Order(sites)
  {
    hide PrefixOf;
    var n := |sites| - 1;
    if i < n {
      AtComplete(sites[..n], i);
      assert i in At(sites[..n], PrefixOf(sites[i].name));
    }
  }

  /** Where a prefix appears first. */
  ghost function First(sites: seq<Site>, p: string): (i: nat)
    requires p in Order(sites)
    ensures At(sites, p) != [] && i == At(sites, p)[0] < |sites|
  {
    NotYetSeen(sites, p);
    AtExact(sites, p);
    At(sites, p)[0]
  }

  lemma {:induction false} OrderExact(sites: seq<Site>)
    ensures Distinct(Order(sites))
    ensures forall g, h :: 0 <= g < h < |Order(sites)| ==> First(sites, Order(sites)[g]) < First(sites, Order(sites)[h])
  {
    hide PrefixOf, At;
    if sites != [] {
      var n := |sites| - 1;
      OrderExact(sites[..n]);
      forall g | 0 <= g < |Order(sites)|
        ensures
          var p := Order(sites)[g];
          First(sites, p) == if g < |Order(sites[..n])| then First(sites[..n], p) else n
      {
        FirstStays(sites, Order(sites)[g]);
      }
    }
  }

  lemma FirstStays(sites: seq<Site>, p: string)
    requires sites != [] && p in Order(sites)
    ensures var n := |sites| - 1; First(sites, p) == if p in Order(sites[..n]) then First(sites[..n], p) else n
  {
    hide PrefixOf;
    var n := |sites| - 1;
    NotYetSeen(sites[..n], p);
    AtExact(sites[..n], p);
    if p in Order(sites[..n]) {
      assert First(sites[..n], p) == At(sites[..n], p)[0];
    }
  }

  /** The site that row k of group g shows is the one at this position of the list. */
  ghost function Position(sites: seq<Site>, g: nat, k: nat): nat
    requires IsRow(sites, g, k)
  {
    AtExact(sites, Order(sites)[g]);
    At(sites, Order(sites)[g])[k]
  }

  ghost predicate IsRow(sites: seq<Site>, g: nat, k: nat) {
    g < |Grouped(sites)| && k < |Grouped(sites)[g].rows|
  }

  /** The row of a stored site: its name, link, file count, size and deadline. */
  ghost predicate Describes(row: Row, s: Site) {
    && row.name == s.name && row.href == "/" + s.name + "/" && !row.builtin
    && row.fileCount == s.fileCount && row.sizeBytes == s.sizeBytes && row.expiresAt == s.expiresAt
  }

  lemma {:induction false} RowShows(sites: seq<Site>, g: nat, k: nat)
    requires IsRow(sites, g, k)
    ensures
      var i, group := Position(sites, g, k), Grouped(sites)[g];
      && i < |sites| && group.name == PrefixOf(sites[i].name) == Order(sites)[g]
      && group.rows[k] == DiskRow(sites[i], LabelIn(group.name, group.grouped, sites[i].name))
      && Describes(group.rows[k], sites[i])
  {
    hide PrefixOf, LabelIn;
    AtExact(sites, Order(sites)[g]);
    assert Points(sites, Order(sites)[g], Position(sites, g, k), Members(sites, Order(sites)[g])[k]);
  }

  /** Every site has exactly one row. */
  lemma {:induction false} OneRowEach(sites: seq<Site>, i: nat) returns (g: nat, k: nat)
    requires i < |sites|
    ensures IsRow(sites, g, k) && Position(sites, g, k) == i
    ensures forall h, l :: IsRow(sites, h, l) && Position(sites, h, l) == i ==> h == g && l == k
  {
    hide PrefixOf, LabelIn;
    OrderExact(sites);
    AtComplete(sites, i);
    var p := PrefixOf(sites[i].name);
    g :| 0 <= g < |Order(sites)| && Order(sites)[g] == p;
    AtExact(sites, p);
    k :| 0 <= k < |At(sites, p)| && At(sites, p)[k] == i;
    forall h, l | IsRow(sites, h, l) && Position(sites, h, l) == i ensures h == g && l == k {
      RowShows(sites, h, l);
    }
  }

  /** Rows of a group are in list order, groups in order of their first row; no group is empty. */
  lemma {:induction false} RowsInOrder(sites: seq<Site>, g: nat, h: nat)
    requires g <= h < |Grouped(sites)|
    ensures IsRow(sites, g, 0) && IsRow(sites, h, 0)
    ensures g < h ==> Position(sites, g, 0) < Position(sites, h, 0)
    ensures forall k, l :: k < l && IsRow(sites, g, k) && IsRow(sites, g, l) ==>
      Position(sites, g, k) < Position(sites, g, l)
  {
    hide PrefixOf, LabelIn;
    OrderExact(sites);
    AtExact(sites, Order(sites)[g]);
    AtExact(sites, Order(sites)[h]);
    assert First(sites, Order(sites)[g]) <= First(sites, Order(sites)[h]);
  }

  lemma PrefixExact(name: string, p: string)
    ensures '.' !in PrefixOf(name) && PrefixOf(name) <= name
    ensures '.' !in p ==> (p + "." <= name <==> PrefixOf(name) == p && '.' in name)
    ensures '.' !in name ==> PrefixOf(name) == name
  {
    CutExact(name, '.');
    if '.' !in p && p + "." <= name {
      var rest := name[|p| + 1..];
      assert name == p + "." + rest;
      CutFormat(p, rest, '.');
      assert name[|p|] == '.';
    }
  }

  /** A label is the full name, or what follows the header and a dot; never empty. */
  lemma {:induction false} LabelExact(sites: seq<Site>, g: nat, k: nat)
    requires IsRow(sites, g, k)
    ensures
      var group := Grouped(sites)[g];
      var row := group.rows[k];
      && (row.caption == row.name || group.name + "." + row.caption == row.name)
      && (row.caption == "" ==> row.name == "")
      && (group.grouped && '.' in row.name && row.name != group.name + "." ==>
            group.name + "." + row.caption == row.name)
  {
    RowShows(sites, g, k);
    PrefixExact(sites[Position(sites, g, k)].name, Grouped(sites)[g].name);
  }

  /** With distinct names a header stands exactly over the groups that hold a namespaced site. */
  lemma {:induction false} HeaderExact(sites: seq<Site>, g: nat)
    requires Distinct(NamesOf(sites)) && g < |Grouped(sites)|
    ensures Grouped(sites)[g].grouped <==> exists k: nat :: IsRow(sites, g, k) && '.' in Grouped(sites)[g].rows[k].name
  {
    hide PrefixOf, LabelIn;
    RowsInOrder(sites, g, g);
    var group := Grouped(sites)[g];
    RowShows(sites, g, 0);
    var i := Position(sites, g, 0);
    if '.' in sites[i].name {
      assert IsRow(sites, g, 0);
    } else if |group.rows| > 1 {
      RowShows(sites, g, 1);
      var j := Position(sites, g, 1);
      assert NamesOf(sites)[i] != NamesOf(sites)[j];
      PrefixExact(sites[i].name, "");
      PrefixExact(sites[j].name, "");
      assert IsRow(sites, g, 1);
    }
  }

  // ----- the whole index

  function BuiltinGroup(b: Builtin): Group {
    Group("", "", false, [Row(b.name, b.name, Link(b.name), true, b.fileCount, b.sizeBytes, None)])
  }

  /** The built-in sites whose name no listed site has. */
  function Unshadowed(builtins: seq<Builtin>, sites: seq<Site>): seq<Group> {
    if builtins == [] then []
    else
      var front, b := Unshadowed(builtins[..|builtins| - 1], sites), builtins[|builtins| - 1];
      if exists s :: s in sites && s.name == b.name then front else front + [BuiltinGroup(b)]
  }

  function IndexOf(sites: seq<Site>, builtins: seq<Builtin>): seq<Group> {
    Grouped(sites) + Unshadowed(builtins, sites)
  }

  method RenderIndex(buffer: array<Site>, builtins: seq<Builtin>, now: int) returns (groups: seq<Group>)
    modifies buffer
    ensures groups == IndexOf(Unexpired(old(buffer[..]), now), builtins)
  {
    var n := UnexpiredSites(buffer, now);
    var sites := buffer[..n];
    var diskNames: set<string> := {};
    for i := 0 to n
      modifies {}
      invariant forall x :: x in diskNames <==> exists s :: s in sites[..i] && s.name == x
    {
      assert sites[..i + 1] == sites[..i] + [sites[i]];
      diskNames := diskNames + {sites[i].name};
    }
    assert sites[..n] == sites;
    groups := GroupDiskSites(sites);
    for i := 0 to |builtins|
      modifies {}
      invariant groups == Grouped(sites) + Unshadowed(builtins[..i], sites)
    {
      assert builtins[..i + 1][..i] == builtins[..i];
      if builtins[i].name in diskNames {
        continue;
      }
      groups := groups + [BuiltinGroup(builtins[i])];
    }
    assert builtins[..|builtins|] == builtins;
  }

  lemma {:induction false} UnshadowedExact(builtins: seq<Builtin>, sites: seq<Site>, g: Group)
    ensures g in Unshadowed(builtins, sites) <==>
      exists b :: b in builtins && g == BuiltinGroup(b) && !exists s :: s in sites && s.name == b.name
    ensures forall b :: g == BuiltinGroup(b) ==>
      !g.grouped && g.rows == [Row(b.name, b.name, "/" + b.name + "/", true, b.fileCount, b.sizeBytes, None)]
  {
    if builtins != [] {
      var n := |builtins| - 1;
      assert builtins == builtins[..n] + [builtins[n]];
      UnshadowedExact(builtins[..n], sites, g);
    }
  }

  /** The built-ins keep their order. */
  lemma {:induction false} UnshadowedInOrder(builtins: seq<Builtin>, sites: seq<Site>, i: nat, j: nat)
    returns (a: nat, b: nat)
    requires i < j < |Unshadowed(builtins, sites)|
    ensures a < b < |builtins|
    ensures Unshadowed(builtins, sites)[i] == BuiltinGroup(builtins[a])
    ensures Unshadowed(builtins, sites)[j] == BuiltinGroup(builtins[b])
  {
    hide BuiltinGroup;
    var n := |builtins| - 1;
    var front := Unshadowed(builtins[..n], sites);
    if j < |front| {
      a, b := UnshadowedInOrder(builtins[..n], sites, i, j);
    } else {
      UnshadowedExact(builtins[..n], sites, front[i]);
      assert front[i] in front;
      var x :| x in builtins[..n] && front[i] == BuiltinGroup(x);
      a :| 0 <= a < n && builtins[..n][a] == x;
      b := n;
    }
  }

  // ----- the page of one group

  function GroupRows(sites: seq<Site>, prefix: string): seq<Row> {
    if sites == [] then []
    else
      var front, last := GroupRows(sites[..|sites| - 1], prefix), sites[|sites| - 1];
      if prefix + "." <= last.name then front + [DiskRow(last, TrimPrefix(last.name, prefix + "."))] else front
  }

  method RenderGroupIndex(buffer: array<Site>, prefix: string, now: int) returns (rows: seq<Row>)
    modifies buffer
    ensures rows == GroupRows(Unexpired(old(buffer[..]), now), prefix)
  {
    var n := UnexpiredSites(buffer, now);
    rows := [];
    var sites := buffer[..n];
    for i := 0 to n
      modifies {}
      invariant rows == GroupRows(sites[..i], prefix)
    {
      assert sites[..i + 1][..i] == sites[..i];
      if prefix + "." <= sites[i].name {
        rows := rows + [DiskRow(sites[i], TrimPrefix(sites[i].name, prefix + "."))];
      }
    }
    assert sites[..n] == sites;
  }

  /** A group page lists the sites below a prefix, and only those. */
  lemma {:induction false} InGroupRows(sites: seq<Site>, prefix: string, r: Row)
    ensures r in GroupRows(sites, prefix) <==>
      exists s :: s in sites && prefix + "." <= s.name && r == DiskRow(s, TrimPrefix(s.name, prefix + "."))
    ensures r in GroupRows(sites, prefix) ==> exists s :: s in sites && prefix + "." <= s.name && Describes(r, s)
  {
    hide TrimPrefix;
    if sites != [] {
      var n := |sites| - 1;
      assert sites == sites[..n] + [sites[n]];
      InGroupRows(sites[..n], prefix, r);
    }
  }

  /** It shows the members of the index group in the same order, a site of exactly that name left out. */
  lemma {:induction false} GroupRowsAreMembers(sites: seq<Site>, prefix: string)
    requires '.' !in prefix && forall s :: s in sites ==> s.name != prefix
    ensures |GroupRows(sites, prefix)| == |Members(sites, prefix)|
    ensures forall k :: 0 <= k < |GroupRows(sites, prefix)| ==>
      var s := Members(sites, prefix)[k]; GroupRows(sites, prefix)[k] == DiskRow(s, TrimPrefix(s.name, prefix + "."))
  {
    if sites != [] {
      var n := |sites| - 1;
      GroupRowsAreMembers(sites[..n], prefix);
      PrefixExact(sites[n].name, prefix);
      assert sites[n] in sites;
    }
  }
}
