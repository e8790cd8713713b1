/** The byte order Go sorts strings by, and sorting with it. */
module Ordering {
  predicate Le(a: string, b: string) {
    a == "" || (b != "" && (a[0] < b[0] || (a[0] == b[0] && Le(a[1..], b[1..]))))
  }

  /** Where two texts first differ the smaller character decides, and a prefix comes first. */
  lemma {:induction false} LeExact(a: string, b: string)
    ensures Le(a, b) <==> a <= b || exists k :: 0 <= k < |a| && k < |b| && a[..k] == b[..k] && a[k] < b[k]
  {
    if a != "" && b != "" {
      forall k | 0 < k <= |a| && k <= |b| && a[..k] == b[..k] ensures a[0] == b[0] {
        assert a[..k][0] == b[..k][0];
      }
    }
    if a != "" && b != "" && a[0] == b[0] {
      LeExact(a[1..], b[1..]);
      assert a == [a[0]] + a[1..] && b == [b[0]] + b[1..];
      assert a <= b <==> a[1..] <= b[1..];
      if k :| 0 <= k < |a[1..]| && k < |b[1..]| && a[1..][..k] == b[1..][..k] && a[1..][k] < b[1..][k] {
        assert a[..k + 1] == [a[0]] + a[1..][..k] && b[..k + 1] == [b[0]] + b[1..][..k];
      }
      if k :| 0 <= k < |a| && k < |b| && a[..k] == b[..k] && a[k] < b[k] {
        assert k > 0 && a[1..][..k - 1] == a[..k][1..] && b[1..][..k - 1] == b[..k][1..];
        assert a[1..][k - 1] == a[k] && b[1..][k - 1] == b[k];
      }
    } else if a != "" && b != "" {
      assert a[..0] == b[..0];
    }
  }

  lemma {:induction false} LeTotal(a: string, b: string)
    ensures Le(a, b) || Le(b, a)
  {
    if a != "" && b != "" { LeTotal(a[1..], b[1..]); }
  }

  lemma {:induction false} LeAntisymmetric(a: string, b: string)
    requires Le(a, b) && Le(b, a)
    ensures a == b
  {
    if a != "" && b != "" {
      LeAntisymmetric(a[1..], b[1..]);
      assert a == [a[0]] + a[1..] && b == [b[0]] + b[1..];
    }
  }

  lemma {:induction false} LeTransitive(a: string, b: string, c: string)
    requires Le(a, b) && Le(b, c)
    ensures Le(a, c)
  {
    if a != "" && a[0] == b[0] == c[0] { LeTransitive(a[1..], b[1..], c[1..]); }
  }

  ghost predicate Sorted(s: seq<string>) {
    forall i, j :: 0 <= i < j < |s| ==> Le(s[i], s[j])
  }

  ghost predicate Distinct<T>(s: seq<T>) {
    forall i, j :: 0 <= i < j < |s| ==> s[i] != s[j]
  }

  function Insert(x: string, s: seq<string>): (r: seq<string>)
    requires Sorted(s)
    ensures Sorted(r) && multiset(r) == multiset(s) + multiset{x}
  {
    if s == [] then [x]
    else
      assert s == [s[0]] + s[1..];
      if Le(x, s[0]) then
        InsertFront(x, s);
        [x] + s
      else
        LeTotal(x, s[0]);
        var rest := Insert(x, s[1..]);
        InsertBelow(s[0], x, s[1..], rest);
        [s[0]] + rest
  }

  lemma InsertFront(x: string, s: seq<string>)
    requires Sorted(s) && s != [] && Le(x, s[0])
    ensures Sorted([x] + s)
  {
    forall j | 0 <= j < |s| ensures Le(x, s[j]) {
      if j > 0 { LeTransitive(x, s[0], s[j]); }
    }
  }

  lemma InsertBelow(low: string, x: string, s: seq<string>, r: seq<string>)
    requires Sorted(r) && multiset(r) == multiset(s) + multiset{x}
    requires Le(low, x) && forall i :: 0 <= i < |s| ==> Le(low, s[i])
    ensures Sorted([low] + r)
  {
    forall j | 0 <= j < |r| ensures Le(low, r[j]) {
      assert r[j] in multiset(r);
    }
  }

  /** sort.Strings. */
  function Sort(s: seq<string>): (r: seq<string>)
    ensures Sorted(r) && multiset(r) == multiset(s)
  {
    if s == [] then []
    else
      assert s == [s[0]] + s[1..];
      Insert(s[0], Sort(s[1..]))
  }

  lemma FirstIsLeast(s: seq<string>, x: string)
    requires Sorted(s) && x in multiset(s)
    ensures s != [] && Le(s[0], x)
  {
    assert x in s;
    var i :| 0 <= i < |s| && s[i] == x;
    if i == 0 { LeTotal(x, x); }
  }

  /** A collection of strings has one sorted arrangement. */
  lemma {:induction false} SortedUnique(a: seq<string>, b: seq<string>)
    requires Sorted(a) && Sorted(b) && multiset(a) == multiset(b)
    ensures a == b
  {
    assert |a| == |multiset(a)| == |multiset(b)| == |b|;
    if a != [] {
      assert a[0] in multiset(a) && b[0] in multiset(b);
      FirstIsLeast(a, b[0]);
      FirstIsLeast(b, a[0]);
      LeAntisymmetric(a[0], b[0]);
      SameTails(a, b);
      SortedUnique(a[1..], b[1..]);
      assert a == [a[0]] + a[1..] && b == [b[0]] + b[1..];
    }
  }

  lemma SameTails(a: seq<string>, b: seq<string>)
    requires a != [] && b != [] && a[0] == b[0] && multiset(a) == multiset(b)
    ensures multiset(a[1..]) == multiset(b[1..])
  {
    assert a == [a[0]] + a[1..];
    assert b == [b[0]] + b[1..];
    assert multiset(a[1..]) == multiset(a) - multiset{a[0]};
  }

  // ----- sets in order

  ghost function AnyOrder(names: set<string>): seq<string> {
    if names == {} then [] else var n :| n in names; [n] + AnyOrder(names - {n})
  }

  /** The names of a set in ascending order. */
  ghost function Ascending(names: set<string>): seq<string> {
    Sort(AnyOrder(names))
  }

  ghost function ToSet(s: seq<string>): set<string> {
    set x | x in s
  }

  lemma {:induction false} AnyOrderExact(names: set<string>)
    ensures multiset(AnyOrder(names)) == multiset(names)
  {
    if names != {} {
      var n :| n in names && AnyOrder(names) == [n] + AnyOrder(names - {n});
      AnyOrderExact(names - {n});
      assert multiset(names) == multiset(names - {n}) + multiset{n};
    }
  }

  lemma {:induction false} DistinctMultiset(s: seq<string>)
    requires Distinct(s)
    ensures multiset(s) == multiset(ToSet(s))
  {
    if s != [] {
      var n := |s| - 1;
      DistinctMultiset(s[..n]);
      assert s == s[..n] + [s[n]];
      assert s[n] !in s[..n];
      assert ToSet(s) == ToSet(s[..n]) + {s[n]};
    }
  }

  /** A sorted list without repetition is the ascending list of its elements. */
  lemma AscendingUnique(s: seq<string>)
    requires Sorted(s) && Distinct(s)
    ensures s == Ascending(ToSet(s))
  {
    AnyOrderExact(ToSet(s));
    DistinctMultiset(s);
    SortedUnique(s, Ascending(ToSet(s)));
  }

  lemma AscendingExact(names: set<string>)
    ensures Sorted(Ascending(names)) && Distinct(Ascending(names)) && ToSet(Ascending(names)) == names
  {
    AnyOrderExact(names);
    var s := Ascending(names);
    assert multiset(s) == multiset(names);
    forall x ensures x in s <==> x in names {
      assert x in s <==> x in multiset(s);
    }
    forall i, j | 0 <= i < j < |s| ensures s[i] != s[j] { OnceEach(s, names, i, j); }
  }

  lemma OnceEach(s: seq<string>, names: set<string>, i: nat, j: nat)
    requires multiset(s) == multiset(names) && i < j < |s|
    ensures s[i] != s[j]
  {
    assert s == s[..i] + [s[i]] + s[i + 1..j] + [s[j]] + s[j + 1..];
    assert multiset(s) >= multiset{s[i], s[j]};
    assert multiset(names)[s[i]] <= 1;
  }

  /** Lists a set in ascending order, whatever order its elements come in. */
  method SortedElements(names: set<string>) returns (r: seq<string>)
    ensures r == Ascending(names)
  {
    var todo := names;
    var out: seq<string> := [];
    while todo != {}
      invariant todo <= names && multiset(out) + multiset(todo) == multiset(names)
      decreases todo
    {
      var n :| n in todo;
      assert multiset(todo) == multiset(todo - {n}) + multiset{n};
      out := out + [n];
      todo := todo - {n};
    }
    r := Sort(out);
    AnyOrderExact(names);
    SortedUnique(r, Ascending(names));
  }
}
