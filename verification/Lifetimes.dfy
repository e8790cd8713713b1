/** What callers see of a pushed site over a whole run: its content, and when its lifetime ends. */
module Lifetimes {
  import opened Results
  import opened Paths
  import opened Archives
  import opened Names
  import opened Backend
  import opened Index
  import opened Routes
  import opened Agreement

  /** A lifetime asked for at t0 has passed; without one it never does. */
  ghost predicate Passed(t0: int, lifetime: Option<int>, now: int) {
    lifetime.Some? && t0 + lifetime.value <= now
  }

  /** What a push stores: the archive's tree, and the moment its lifetime ends. */
  ghost predicate IsPushed(h: Held, q: Request, limit: Int64)
    requires q.Push?
  {
    var xs := Contents(Disk, q.archive, limit);
    && h.tree == Expansion(LastFiles(xs), DirsOf(xs)) && h.sizeBytes == TotalBytes(LastFiles(xs))
    && (q.expiry.None? ==> h.expiresAt == None)
    && (q.expiry.Some? ==> h.expiresAt == Some(q.now + q.expiry.value))
  }

  lemma {:induction false} PushStores(shelf: Shelf, limit: Int64, q: Request)
    requires q.Push?
    ensures Accepts(limit, q) ==>
      q.name in Apply(shelf, limit, q) && IsPushed(Apply(shelf, limit, q)[q.name], q, limit)
    ensures !Accepts(limit, q) ==> Apply(shelf, limit, q) == shelf && Reply(shelf, limit, q) == Pushed(None)
  {
    hide Contents, LastFiles, DirsOf, TotalBytes, Acceptable, ValidName;
  }

  /** What is read right after a push is what was pushed, and the push answers the same. */
  lemma {:induction false} PushThenRead(shelf: Shelf, limit: Int64, q: Request, young: bool)
    requires q.Push? && Accepts(limit, q)
    ensures
      var files := LastFiles(Contents(Disk, q.archive, limit));
      var site := Reply(shelf, limit, q).site;
      var seen := Reply(Apply(shelf, limit, q), limit, Read(q.name, young));
      && site.Some? && seen.stat == Ok(site.value)
      && seen.tree == Ok(Expansion(files, DirsOf(Contents(Disk, q.archive, limit))))
      && site.value.name == q.name && site.value.fileCount == |files| && site.value.sizeBytes == TotalBytes(files)
      && (q.expiry.None? ==> site.value.expiresAt == None)
      && (q.expiry.Some? ==> site.value.expiresAt == Some(q.now + q.expiry.value))
  {
    hide Contents, LastFiles, DirsOf, TotalBytes, Acceptable, ValidName, Listing;
    StatExact(Apply(shelf, limit, q), q.name);
  }

  /** The name a request is about, if it changes one. */
  ghost predicate Writes(q: Request, name: string) {
    (q.Push? || q.Remove?) && q.name == name
  }

  /** A request changes no name but its own; a reaping changes those whose deadline has come. */
  lemma {:induction false} OthersUntouched(shelf: Shelf, limit: Int64, q: Request, n: string)
    requires !Writes(q, n)
    ensures
      var due := q.Reap? && n in shelf && shelf[n].expiresAt.Some? && shelf[n].expiresAt.value <= q.now;
      Get(Apply(shelf, limit, q), n) == if due then None else Get(shelf, n)
    ensures Get(Apply(shelf, limit, Remove(n, true)), n) == None
  {
    hide HeldOnDisk, Acceptable, ValidName;
  }

  lemma {:induction false} StillHeld(was: Shelf, limit: Int64, q: Request, next: Request)
    requires q.Push? && !Writes(next, q.name) && (q.name in was ==> IsPushed(was[q.name], q, limit))
    ensures
      var after := Apply(was, limit, next);
      && (q.name in after ==> IsPushed(after[q.name], q, limit))
      && (q.name in after <==> q.name in was && !(next.Reap? && Passed(q.now, q.expiry, next.now)))
  {
    hide Apply, Contents, LastFiles, DirsOf, TotalBytes;
    var after := Apply(was, limit, next);
    OthersUntouched(was, limit, next, q.name);
    assert Get(after, q.name).Some? <==> q.name in after;
    assert Get(was, q.name).Some? <==> q.name in was;
  }

  /**
   A pushed site is held, as it was pushed, exactly until the first reaping at
   or after the end of its lifetime, through any requests but a push or a
   delete of its name.
   */
  lemma {:induction false} HeldUntilReaped(shelf: Shelf, limit: Int64, qs: seq<Request>, c: nat)
    requires c < |qs| && qs[c].Push? && Accepts(limit, qs[c])
    requires forall k :: c < k < |qs| ==> !Writes(qs[k], qs[c].name)
    ensures
      var q, after := qs[c], ShelfAfter(shelf, limit, qs);
      && (q.name in after ==> IsPushed(after[q.name], q, limit))
      && (q.name in after <==> forall k :: c < k < |qs| && qs[k].Reap? ==> !Passed(q.now, q.expiry, qs[k].now))
  {
    hide Apply, Accepts, IsPushed, Passed, Writes;
    var n, q := |qs| - 1, qs[c];
    var before := qs[..n];
    if c == n {
      PushStores(ShelfAfter(shelf, limit, before), limit, q);
    } else {
      assert before[c] == q && forall k :: c < k < n ==> before[k] == qs[k];
      HeldUntilReaped(shelf, limit, before, c);
      StillHeld(ShelfAfter(shelf, limit, before), limit, q, qs[n]);
    }
  }

  /**
   While it is held, a reaping removes it, the index leaves it out and its page
   is missing exactly when its lifetime, counted from the push, has passed;
   without a lifetime never.
   */
  lemma {:induction false} LifetimeExact(
    shelf: Shelf, limit: Int64, qs: seq<Request>, c: nat, builtins: seq<Builtin>, now: int)
    requires c < |qs| && qs[c].Push? && Accepts(limit, qs[c]) && qs[c].name != "api"
    requires forall k :: c < k < |qs| ==> !Writes(qs[k], qs[c].name)
    requires qs[c].name in ShelfAfter(shelf, limit, qs)
    ensures
      var q, held := qs[c], ShelfAfter(shelf, limit, qs);
      var xs := Contents(Disk, q.archive, limit);
      && (q.name !in Apply(held, limit, Reap(now)) <==> Passed(q.now, q.expiry, now))
      && (!(exists s :: s in Shown(held, now) && s.name == q.name) <==> Passed(q.now, q.expiry, now))
      && Dispatch(held, builtins, now, "/" + q.name + "/") ==
           if Passed(q.now, q.expiry, now) then Missing
           else SitePage(q.name, Expansion(LastFiles(xs), DirsOf(xs)), "index.html")
  {
    hide Apply, Dispatch, Shown, ValidName, Contents, LastFiles, DirsOf, Acceptable, TotalBytes, ShelfAfter;
    var q, held := qs[c], ShelfAfter(shelf, limit, qs);
    HeldUntilReaped(shelf, limit, qs, c);
    OthersUntouched(held, limit, Reap(now), q.name);
    ShownExact(held, now);
    LinkLeads(held, builtins, now, q.name);
    assert Link(q.name) == "/" + q.name + "/";
    if !Overdue(held[q.name], now) { assert Describe(q.name, held[q.name]) in Shown(held, now); }
  }
}
