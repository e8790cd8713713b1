/**
 The in-memory content cache: expanded sites under version-carrying keys,
 least recently used first out, bounded by a byte budget.
 */
module Cache {
  import opened Results
  import opened Archives

  datatype Key = Key(name: string, version: string)

  datatype Cached = Cached(key: Key, value: Expansion, bytes: nat)

  // ----- the specification: a list of entries, most recently used first

  function Total(s: seq<Cached>): nat {
    if s == [] then 0 else Total(s[..|s| - 1]) + s[|s| - 1].bytes
  }

  ghost predicate Unique(s: seq<Cached>) {
    forall i, j :: 0 <= i < j < |s| ==> s[i].key != s[j].key
  }

  ghost predicate Holds(s: seq<Cached>, k: Key) {
    exists i :: 0 <= i < |s| && s[i].key == k
  }

  ghost function Keys(s: seq<Cached>): set<Key> {
    set i | 0 <= i < |s| :: s[i].key
  }

  /** The entries whose key is not among ks, in order. */
  function Drop(s: seq<Cached>, ks: set<Key>): seq<Cached> {
    if s == [] then []
    else if s[|s| - 1].key in ks then Drop(s[..|s| - 1], ks)
    else Drop(s[..|s| - 1], ks) + [s[|s| - 1]]
  }

  /** What a lookup under k finds. */
  function Find(s: seq<Cached>, k: Key): Option<Cached> {
    if s == [] then None
    else if s[|s| - 1].key == k then Some(s[|s| - 1])
    else Find(s[..|s| - 1], k)
  }

  /** A use of k brings its entry to the front. */
  function Touch(s: seq<Cached>, k: Key): seq<Cached> {
    match Find(s, k)
    case None => s
    case Some(e) => [e] + Drop(s, {k})
  }

  /** r is the longest prefix of s within the budget. */
  ghost predicate LongestFit(s: seq<Cached>, budget: int, r: seq<Cached>) {
    && r <= s
    && Total(r) <= budget
    && forall k :: |r| < k <= |s| ==> Total(s[..k]) > budget
  }

  function Trim(s: seq<Cached>, budget: nat): (r: seq<Cached>)
    ensures LongestFit(s, budget, r)
  {
    if Total(s) <= budget then s
    else
      var r := Trim(s[..|s| - 1], budget);
      assert forall k :: 0 <= k <= |s| - 1 ==> s[..|s| - 1][..k] == s[..k];
      assert s[..|s|] == s;
      r
  }

  function PutSpec(s: seq<Cached>, budget: int, e: Cached): seq<Cached> {
    if budget <= 0 || e.bytes > budget then s
    else if Find(s, e.key).Some? then Touch(s, e.key)
    else Trim([e] + s, budget)
  }

  function GetSpec(s: seq<Cached>, budget: int, k: Key): seq<Cached> {
    if budget <= 0 then s else Touch(s, k)
  }

  function HitSpec(s: seq<Cached>, budget: int, k: Key): Option<Expansion> {
    if budget <= 0 then None
    else
      match Find(s, k)
      case None => None
      case Some(e) => Some(e.value)
  }

  /** Every key of one site. */
  function KeysOf(s: seq<Cached>, name: string): set<Key> {
    set i | 0 <= i < |s| && s[i].key.name == name :: s[i].key
  }

  function DropAllSpec(s: seq<Cached>, name: string): seq<Cached> {
    Drop(s, KeysOf(s, name))
  }

  // ----- lemmas about lists

  lemma {:induction false} FindExact(s: seq<Cached>, k: Key)
    ensures Find(s, k).Some? <==> Holds(s, k)
    ensures Find(s, k).Some? ==> Find(s, k).value in s && Find(s, k).value.key == k
  {
    if s != [] {
      FindExact(s[..|s| - 1], k);
      if s[|s| - 1].key == k {
        assert Holds(s, k);
      } else if Holds(s, k) {
        var i :| 0 <= i < |s| && s[i].key == k;
        assert s[..|s| - 1][i].key == k;
      }
    }
  }

  lemma {:induction false} DropExact(s: seq<Cached>, ks: set<Key>)
    ensures forall e :: e in Drop(s, ks) <==> e in s && e.key !in ks
    ensures |Drop(s, ks)| <= |s|
  {
    if s != [] {
      DropExact(s[..|s| - 1], ks);
      assert s == s[..|s| - 1] + [s[|s| - 1]];
    }
  }

  lemma {:induction false} DropUnique(s: seq<Cached>, ks: set<Key>)
    requires Unique(s)
    ensures Unique(Drop(s, ks))
  {
    if s != [] {
      var front, last := s[..|s| - 1], s[|s| - 1];
      DropUnique(front, ks);
      DropExact(front, ks);
      forall e | e in Drop(front, ks) ensures e.key != last.key {
        assert e in front;
        var i :| 0 <= i < |front| && front[i] == e;
      }
    }
  }

  lemma {:induction false} DropDrop(s: seq<Cached>, a: set<Key>, b: set<Key>)
    ensures Drop(Drop(s, a), b) == Drop(s, a + b)
  {
    if s != [] {
      var front, last := s[..|s| - 1], s[|s| - 1];
      DropDrop(front, a, b);
      if last.key !in a {
        var d := Drop(front, a);
        assert (d + [last])[..|d|] == d;
      }
    }
  }

  lemma {:induction false} DropNothing(s: seq<Cached>, ks: set<Key>)
    requires forall i :: 0 <= i < |s| ==> s[i].key !in ks
    ensures Drop(s, ks) == s
  {
    if s != [] {
      DropNothing(s[..|s| - 1], ks);
      assert s == s[..|s| - 1] + [s[|s| - 1]];
    }
  }

  lemma {:induction false} DropOneBytes(s: seq<Cached>, e: Cached)
    requires Unique(s) && e in s
    ensures Total(Drop(s, {e.key})) == Total(s) - e.bytes
    ensures |Drop(s, {e.key})| == |s| - 1
  {
    var front, last := s[..|s| - 1], s[|s| - 1];
    if last == e {
      DropNothing(front, {e.key});
    } else {
      assert e in front;
      DropOneBytes(front, e);
      var i :| 0 <= i < |front| && front[i] == e;
      assert last.key != e.key;
      var d := Drop(front, {e.key});
      assert (d + [last])[..|d|] == d;
    }
  }

  lemma DropLast(s: seq<Cached>)
    requires Unique(s) && s != []
    ensures Drop(s, {s[|s| - 1].key}) == s[..|s| - 1]
  {
    DropNothing(s[..|s| - 1], {s[|s| - 1].key});
  }

  lemma {:induction false} BytesFront(e: Cached, s: seq<Cached>)
    ensures Total([e] + s) == e.bytes + Total(s)
  {
    if s == [] {
      assert ([e] + s)[..0] == s;
    } else {
      assert ([e] + s)[..|s|] == [e] + s[..|s| - 1];
      BytesFront(e, s[..|s| - 1]);
    }
  }

  /** A touch keeps the entries and the total, and puts k first. */
  lemma {:induction false} TouchKeeps(s: seq<Cached>, k: Key)
    requires Unique(s)
    ensures Unique(Touch(s, k)) && Total(Touch(s, k)) == Total(s)
    ensures forall e :: e in Touch(s, k) <==> e in s
    ensures Holds(s, k) ==> Touch(s, k)[0].key == k
  {
    hide Drop, Total, Find;
    FindExact(s, k);
    if Find(s, k).Some? {
      var e := Find(s, k).value;
      DropOneBytes(s, e);
      DropExact(s, {k});
      DropUnique(s, {k});
      BytesFront(e, Drop(s, {k}));
      forall x | x in s && x !in Drop(s, {k}) ensures x == e {
        var i :| 0 <= i < |s| && s[i] == x;
        var j :| 0 <= j < |s| && s[j] == e;
      }
    }
  }

  // ----- the cache itself

  /** The list and the index hold the same entries, one per key. */
  ghost predicate Indexed(s: seq<Cached>, items: map<Key, Cached>) {
    && Unique(s)
    && (forall e :: e in s ==> e.key in items && items[e.key] == e)
    && (forall k :: k in items ==> items[k] in s && items[k].key == k)
  }

  lemma OneTotal(e: Cached)
    ensures Total([e]) == e.bytes
  {
    assert [e][..0] == [];
  }

  lemma IndexedUnique(s: seq<Cached>, items: map<Key, Cached>)
    requires Indexed(s, items)
    ensures Unique(s)
  {}

  lemma IndexedFront(e: Cached, s: seq<Cached>, items: map<Key, Cached>)
    requires Indexed(s, items) && e.key !in items
    ensures Indexed([e] + s, items[e.key := e])
  {
    forall i | 0 <= i < |s| ensures s[i].key != e.key { assert s[i] in s; }
  }

  // ----- what the operations do to the list

  /** The list with entry i brought to the front and the others left in order. */
  ghost function Fronted(s: seq<Cached>, i: nat): seq<Cached>
    requires i < |s|
  {
    [s[i]] + s[..i] + s[i + 1..]
  }

  lemma {:induction false} DropAt(s: seq<Cached>, i: nat)
    requires Unique(s) && i < |s|
    ensures Drop(s, {s[i].key}) == s[..i] + s[i + 1..]
  {
    var n := |s| - 1;
    if i == n {
      DropLast(s);
    } else {
      DropAt(s[..n], i);
      assert s[..n][..i] == s[..i] && s[..n][i + 1..] + [s[n]] == s[i + 1..];
    }
  }

  lemma {:induction false} TouchExact(s: seq<Cached>, i: nat)
    requires Unique(s) && i < |s|
    ensures Find(s, s[i].key) == Some(s[i]) && Touch(s, s[i].key) == Fronted(s, i)
  {
    hide Drop, Find;
    FindExact(s, s[i].key);
    assert Holds(s, s[i].key);
    var j :| 0 <= j < |s| && s[j] == Find(s, s[i].key).value;
    DropAt(s, i);
    assert [s[i]] + (s[..i] + s[i + 1..]) == Fronted(s, i);
  }

  /** A lookup hits exactly when there is an entry of the key, and brings that entry to the front. */
  lemma {:induction false} HitExact(s: seq<Cached>, budget: int, k: Key)
    requires Unique(s) && (budget <= 0 ==> s == [])
    ensures HitSpec(s, budget, k).Some? <==> Holds(s, k)
    ensures forall i :: 0 <= i < |s| && s[i].key == k ==>
      HitSpec(s, budget, k) == Some(s[i].value) && GetSpec(s, budget, k) == Fronted(s, i)
    ensures HitSpec(s, budget, k).None? ==> GetSpec(s, budget, k) == s
  {
    hide Drop;
    FindExact(s, k);
    forall i | 0 <= i < |s| && s[i].key == k ensures Find(s, k) == Some(s[i]) && Touch(s, k) == Fronted(s, i) {
      TouchExact(s, i);
    }
  }

  /**
   A put that is turned away changes nothing; a put under a key that is there
   brings the entry that is there to the front; a put of a new key leaves the
   longest most-recent prefix within the budget, the new entry first.
   */
  ghost predicate PutLaw(s: seq<Cached>, budget: int, e: Cached, r: seq<Cached>) {
    if budget <= 0 || e.bytes > budget then r == s
    else if Holds(s, e.key) then forall i :: 0 <= i < |s| && s[i].key == e.key ==> r == Fronted(s, i)
    else LongestFit([e] + s, budget, r) && r != [] && r[0] == e
  }

  lemma {:induction false} PutExact(s: seq<Cached>, budget: int, e: Cached)
    requires Unique(s)
    ensures PutLaw(s, budget, e, PutSpec(s, budget, e))
  {
    hide Drop, Trim, Total;
    FindExact(s, e.key);
    forall i | 0 <= i < |s| && s[i].key == e.key ensures Touch(s, e.key) == Fronted(s, i) { TouchExact(s, i); }
    if 0 < budget && e.bytes <= budget {
      OneTotal(e);
      var all := [e] + s;
      assert all[..1] == [e];
      assert Trim(all, budget) != [];
    }
  }

  /** A lookup right after a put of a fitting key finds it: the new value, or the one that was there. */
  lemma {:induction false} GetAfterPut(s: seq<Cached>, budget: int, e: Cached)
    requires Unique(s) && 0 < budget && e.bytes <= budget
    ensures !Holds(s, e.key) ==> HitSpec(PutSpec(s, budget, e), budget, e.key) == Some(e.value)
    ensures forall i :: 0 <= i < |s| && s[i].key == e.key ==>
      HitSpec(PutSpec(s, budget, e), budget, e.key) == Some(s[i].value)
    ensures Unique(PutSpec(s, budget, e))
  {
    hide Drop, Trim, Total;
    var r := PutSpec(s, budget, e);
    PutExact(s, budget, e);
    FindExact(s, e.key);
    if Holds(s, e.key) {
      TouchKeeps(s, e.key);
      var i :| 0 <= i < |s| && s[i].key == e.key;
      TouchExact(s, i);
    } else {
      assert forall i :: 0 <= i < |r| ==> r[i] == ([e] + s)[i];
    }
    assert r[0].key == e.key;
    TouchExact(r, 0);
  }

  lemma {:induction false} DropAllExact(s: seq<Cached>, name: string)
    ensures forall e :: e in DropAllSpec(s, name) <==> e in s && e.key.name != name
    ensures Unique(s) ==> Unique(DropAllSpec(s, name))
  {
    hide Drop;
    var ks := KeysOf(s, name);
    DropExact(s, ks);
    forall e | e in s ensures e.key in ks <==> e.key.name == name {
      var i :| 0 <= i < |s| && s[i] == e;
    }
    if Unique(s) { DropUnique(s, ks); }
  }

  class ContentCache {
    const maxBytes: int
    var curBytes: int
    /** front = most recently used */
    var ll: seq<Cached>
    var items: map<Key, Cached>

    /** The index is exact, and so is the running total, which is within the budget. */
    ghost predicate Valid()
      reads this
    {
      && Indexed(ll, items)
      && curBytes == Total(ll)
      && (if maxBytes <= 0 then ll == [] else curBytes <= maxBytes)
    }

    constructor (budget: int)
      ensures Valid() && maxBytes == budget && ll == []
    {
      maxBytes, curBytes, ll, items := budget, 0, [], map[];
    }

    method Get(k: Key) returns (hit: Option<Expansion>)
      requires Valid()
      modifies this
      ensures Valid()
      ensures hit == HitSpec(old(ll), maxBytes, k) && ll == GetSpec(old(ll), maxBytes, k)
      ensures hit.Some? <==> Holds(old(ll), k)
      ensures forall i :: 0 <= i < |old(ll)| && old(ll)[i].key == k ==>
        hit == Some(old(ll)[i].value) && ll == Fronted(old(ll), i)
      ensures hit.None? ==> ll == old(ll)
    {
      HitExact(ll, maxBytes, k);
      if maxBytes <= 0 {
        return None;
      }
      IndexFinds(k);
      if k !in items {
        return None;
      }
      var e := items[k];
      MoveToFront(e);
      return Some(e.value);
    }

    lemma IndexFinds(k: Key)
      requires Valid()
      ensures Find(ll, k).Some? <==> k in items
      ensures k in items ==> Find(ll, k) == Some(items[k]) && items[k] in ll && items[k].key == k
    {
      FindExact(ll, k);
      if k in items {
        var i :| 0 <= i < |ll| && ll[i] == items[k];
      }
      if Find(ll, k).Some? {
        assert Find(ll, k).value in ll;
      }
    }

    method MoveToFront(e: Cached)
      requires Valid() && e in ll
      modifies this`ll
      ensures Valid() && ll == Touch(old(ll), e.key)
    {
      IndexFinds(e.key);
      TouchKeeps(ll, e.key);
      ll := [e] + Drop(ll, {e.key});
    }

    /** Removes one entry; the budget need not hold before. */
    method Evict(e: Cached)
      requires Indexed(ll, items) && e in ll && curBytes == Total(ll)
      modifies this
      ensures ll == Drop(old(ll), {e.key}) && Indexed(ll, items) && curBytes == Total(ll)
      ensures items.Keys == old(items.Keys) - {e.key}
    {
      DropExact(ll, {e.key});
      DropUnique(ll, {e.key});
      DropOneBytes(ll, e);
      ll := Drop(ll, {e.key});
      items := items - {e.key};
      curBytes := curBytes - e.bytes;
    }

    /** Adds a new entry and evicts from the back until the rest fits. */
    method Put(k: Key, v: Expansion, size: nat)
      requires Valid()
      modifies this
      ensures Valid()
      ensures ll == PutSpec(old(ll), maxBytes, Cached(k, v, size))
      ensures PutLaw(old(ll), maxBytes, Cached(k, v, size), ll)
    {
      hide Indexed, Drop, Find, Total, Touch, Trim, PutLaw;
      IndexedUnique(ll, items);
      PutExact(ll, maxBytes, Cached(k, v, size));
      if maxBytes <= 0 || size > maxBytes {
        return;
      }
      IndexFinds(k);
      if k in items {
        MoveToFront(items[k]);
        return;
      }
      var e := Cached(k, v, size);
      IndexedFront(e, ll, items);
      BytesFront(e, ll);
      ll := [e] + ll;
      items := items[k := e];
      curBytes := curBytes + size;
      ghost var all := ll;
      assert all[..|all|] == all;
      OneTotal(e);
      while curBytes > maxBytes
        invariant Indexed(ll, items) && curBytes == Total(ll) && ll <= all && ll != []
        invariant forall i :: |ll| < i <= |all| ==> Total(all[..i]) > maxBytes
        decreases |ll|
      {
        if ll == [] {
          assert false;
          break;
        }
        assert |ll| == 1 ==> ll == [e];
        IndexedUnique(ll, items);
        DropLast(ll);
        assert ll == all[..|ll|];
        Evict(ll[|ll| - 1]);
      }
      LongestFitUnique(all, maxBytes, ll, Trim(all, maxBytes));
    }

    /** Removes every version of a site, visiting the index in whatever order it yields. */
    method DropAll(name: string)
      requires Valid()
      modifies this
      ensures Valid()
      ensures ll == DropAllSpec(old(ll), name)
      ensures forall e :: e in ll <==> e in old(ll) && e.key.name != name
    {
      hide Indexed, Drop, Find, Total, Touch;
      DropAllExact(ll, name);
      var todo := items.Keys;
      ghost var gone: set<Key> := {};
      DropNothing(ll, {});
      while todo != {}
        invariant Valid()
        invariant ll == Drop(old(ll), gone)
        invariant gone <= KeysOf(old(ll), name)
        invariant todo <= items.Keys
        invariant forall k :: k in items && k.name == name ==> k in todo
        decreases |todo|
      {
        var k :| k in todo;
        if k.name == name {
          IndexFinds(k);
          IndexedUnique(ll, items);
          DropDrop(old(ll), gone, {k});
          DropExact(old(ll), gone);
          assert k in KeysOf(old(ll), name);
          DropOneBytes(ll, items[k]);
          Evict(items[k]);
          gone := gone + {k};
        }
        todo := todo - {k};
      }
      DropExact(old(ll), gone);
      forall k | k in KeysOf(old(ll), name) ensures k in gone {
        var i :| 0 <= i < |old(ll)| && old(ll)[i].key == k && old(ll)[i].key.name == name;
        assert old(ll)[i] in ll || k in gone;
        IndexedIn(ll, items, old(ll)[i]);
      }
      assert gone == KeysOf(old(ll), name);
    }
  }

  lemma IndexedIn(s: seq<Cached>, items: map<Key, Cached>, e: Cached)
    requires Indexed(s, items)
    ensures e in s ==> e.key in items
  {}

  lemma {:induction false} LongestFitUnique(s: seq<Cached>, budget: int, a: seq<Cached>, b: seq<Cached>)
    requires LongestFit(s, budget, a) && LongestFit(s, budget, b)
    ensures a == b
  {
    assert a == s[..|a|] && b == s[..|b|];
  }

  // ----- whole runs

  datatype Op = Use(key: Key) | Add(entry: Cached) | Forget(name: string)

  ghost function Apply(s: seq<Cached>, budget: int, op: Op): seq<Cached> {
    match op
    case Use(k) => GetSpec(s, budget, k)
    case Add(e) => PutSpec(s, budget, e)
    case Forget(name) => DropAllSpec(s, name)
  }

  ghost function Run(budget: int, ops: seq<Op>): seq<Cached> {
    if ops == [] then [] else Apply(Run(budget, ops[..|ops| - 1]), budget, ops[|ops| - 1])
  }

  /** A get of k, or a put under k that the cache does not turn away for its size. */
  ghost predicate Uses(budget: int, op: Op, k: Key) {
    (op.Use? && op.key == k) || (op.Add? && op.entry.key == k && op.entry.bytes <= budget)
  }

  /** One more than the index of the last use of k. */
  ghost function LastUse(budget: int, ops: seq<Op>, k: Key): nat {
    if ops == [] then 0
    else if Uses(budget, ops[|ops| - 1], k) then |ops|
    else LastUse(budget, ops[..|ops| - 1], k)
  }

  /** Entries stand in the order of their last use. */
  ghost predicate ByRecency(budget: int, ops: seq<Op>, s: seq<Cached>) {
    forall i, j :: 0 <= i < j < |s| ==> LastUse(budget, ops, s[i].key) > LastUse(budget, ops, s[j].key)
  }

  lemma {:induction false} LastUseBounded(budget: int, ops: seq<Op>, k: Key)
    ensures LastUse(budget, ops, k) <= |ops|
  {
    if ops != [] { LastUseBounded(budget, ops[..|ops| - 1], k); }
  }

  lemma {:induction false} DropByRecency(budget: int, ops: seq<Op>, s: seq<Cached>, ks: set<Key>)
    requires ByRecency(budget, ops, s)
    ensures ByRecency(budget, ops, Drop(s, ks))
  {
    hide LastUse;
    if s != [] {
      var front, last := s[..|s| - 1], s[|s| - 1];
      DropByRecency(budget, ops, front, ks);
      DropExact(front, ks);
      forall e | e in Drop(front, ks) ensures LastUse(budget, ops, e.key) > LastUse(budget, ops, last.key) {
        assert e in front;
        var i :| 0 <= i < |front| && front[i] == e;
      }
    }
  }

  /** A list in order stays in order when one more use puts its key first. */
  lemma FrontByRecency(budget: int, ops: seq<Op>, op: Op, e: Cached, s: seq<Cached>)
    requires ByRecency(budget, ops, s) && Uses(budget, op, e.key)
    requires forall i :: 0 <= i < |s| ==> !Uses(budget, op, s[i].key)
    ensures ByRecency(budget, ops + [op], [e] + s)
  {
    var all := ops + [op];
    assert all[..|all| - 1] == ops;
    forall i | 0 <= i < |s| ensures LastUse(budget, all, s[i].key) == LastUse(budget, ops, s[i].key) <= |ops| {
      LastUseBounded(budget, ops, s[i].key);
    }
  }

  /** What every run from an empty cache keeps. */
  ghost predicate Sound(budget: int, ops: seq<Op>, s: seq<Cached>) {
    && Unique(s)
    && (if budget <= 0 then s == [] else Total(s) <= budget)
    && ByRecency(budget, ops, s)
    && forall e :: e in s ==> Add(e) in ops
  }

  lemma TouchSound(budget: int, ops: seq<Op>, s: seq<Cached>, op: Op, k: Key)
    requires Sound(budget, ops, s) && Uses(budget, op, k) && forall x :: x != k ==> !Uses(budget, op, x)
    ensures Sound(budget, ops + [op], Touch(s, k))
  {
    TouchKeeps(s, k);
    FindExact(s, k);
    if Find(s, k).Some? {
      DropByRecency(budget, ops, s, {k});
      DropExact(s, {k});
      var rest := Drop(s, {k});
      forall i | 0 <= i < |rest| ensures !Uses(budget, op, rest[i].key) { assert rest[i] in rest; }
      FrontByRecency(budget, ops, op, Find(s, k).value, rest);
    } else {
      KeepRecency(budget, ops, s, op);
    }
  }

  lemma KeepRecency(budget: int, ops: seq<Op>, s: seq<Cached>, op: Op)
    requires ByRecency(budget, ops, s) && forall i :: 0 <= i < |s| ==> !Uses(budget, op, s[i].key)
    ensures ByRecency(budget, ops + [op], s)
  {
    var all := ops + [op];
    assert all[..|all| - 1] == ops;
    forall i | 0 <= i < |s| ensures LastUse(budget, all, s[i].key) == LastUse(budget, ops, s[i].key) {}
  }

  lemma {:induction false} AddSound(budget: int, ops: seq<Op>, s: seq<Cached>, e: Cached)
    requires Sound(budget, ops, s) && 0 < budget && e.bytes <= budget && Find(s, e.key).None?
    ensures Sound(budget, ops + [Add(e)], Trim([e] + s, budget))
    ensures Trim([e] + s, budget) != [] && Trim([e] + s, budget)[0] == e
  {
    FindExact(s, e.key);
    forall i | 0 <= i < |s| ensures !Uses(budget, Add(e), s[i].key) {}
    FrontByRecency(budget, ops, Add(e), e, s);
    var all := [e] + s;
    assert all[..1] == [e] && [e][..0] == [];
    assert Total(all[..1]) == e.bytes;
    var r := Trim(all, budget);
    forall x | x in r ensures x in all {}
  }

  /**
   After any sequence of gets, puts and drops the keys are distinct, the total
   is within the budget, the entries stand in the order of their last use, and
   each was put there by the run.
   */
  lemma {:induction false} RunSound(budget: int, ops: seq<Op>)
    ensures Sound(budget, ops, Run(budget, ops))
  {
    hide Touch, Drop, Trim, LastUse, Unique, ByRecency, Total, Find;
    if ops == [] {
      EmptySound(budget);
    } else {
      var before, op := ops[..|ops| - 1], ops[|ops| - 1];
      RunSound(budget, before);
      assert before + [op] == ops;
      var s := Run(budget, before);
      match op
      case Use(k) =>
        if budget > 0 { TouchSound(budget, before, s, op, k); } else { DisabledSound(budget, before, s, op); }
      case Add(e) =>
        if budget <= 0 || e.bytes > budget { DisabledSound(budget, before, s, op); }
        else if Find(s, e.key).Some? { TouchSound(budget, before, s, op, e.key); }
        else { AddSound(budget, before, s, e); }
      case Forget(name) =>
        DropSound(budget, before, s, op, KeysOf(s, name));
    }
  }

  /** After any run a lookup hits exactly when an entry of the key is there, and gives its value. */
  lemma {:induction false} RunHits(budget: int, ops: seq<Op>, k: Key)
    ensures HitSpec(Run(budget, ops), budget, k).Some? <==> Holds(Run(budget, ops), k)
    ensures forall e :: e in Run(budget, ops) && e.key == k ==> HitSpec(Run(budget, ops), budget, k) == Some(e.value)
  {
    hide Run, HitSpec, GetSpec;
    RunSound(budget, ops);
    HitExact(Run(budget, ops), budget, k);
  }

  lemma EmptySound(budget: int)
    ensures Sound(budget, [], [])
  {}

  lemma DropSound(budget: int, ops: seq<Op>, s: seq<Cached>, op: Op, ks: set<Key>)
    requires Sound(budget, ops, s) && op.Forget?
    ensures Sound(budget, ops + [op], Drop(s, ks))
  {
    DropUnique(s, ks);
    DropExact(s, ks);
    DropByRecency(budget, ops, s, ks);
    KeepRecency(budget, ops, Drop(s, ks), op);
    DropBytes(s, ks);
    if Drop(s, ks) != [] { assert Drop(s, ks)[0] in Drop(s, ks); }
  }

  lemma {:induction false} DropBytes(s: seq<Cached>, ks: set<Key>)
    ensures Total(Drop(s, ks)) <= Total(s)
  {
    if s != [] {
      DropBytes(s[..|s| - 1], ks);
      var d := Drop(s[..|s| - 1], ks);
      assert (d + [s[|s| - 1]])[..|d|] == d;
    }
  }

  /** A put that is turned away, or any operation of a disabled cache, changes nothing. */
  lemma DisabledSound(budget: int, ops: seq<Op>, s: seq<Cached>, op: Op)
    requires Sound(budget, ops, s)
    requires budget <= 0 || (op.Add? && op.entry.bytes > budget)
    ensures Sound(budget, ops + [op], s)
  {
    if budget > 0 { KeepRecency(budget, ops, s, op); }
  }

  /** No operation brings in an entry that was neither there nor put. */
  lemma {:induction false} NothingInvented(s: seq<Cached>, budget: int, e: Cached, k: Key, name: string)
    ensures forall x :: x in PutSpec(s, budget, e) ==> x in s || x == e
    ensures forall x :: x in GetSpec(s, budget, k) ==> x in s
    ensures forall x :: x in DropAllSpec(s, name) ==> x in s
    ensures HitSpec(s, budget, k).Some? ==> exists x :: x in s && x.key == k && x.value == HitSpec(s, budget, k).value
  {
    FindExact(s, k);
    FindExact(s, e.key);
    DropExact(s, {k});
    DropExact(s, {e.key});
    DropExact(s, KeysOf(s, name));
    if 0 < budget && e.bytes <= budget {
      var r := Trim([e] + s, budget);
      forall x | x in r ensures x in s || x == e { assert x in [e] + s; }
    }
  }
}
