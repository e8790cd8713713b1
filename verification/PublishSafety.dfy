/** What every reachable state of the publish protocol keeps. */
module PublishSafety {
  import opened Results
  import opened Archives
  import opened Publish
  import Cache

  // ----- the invariant

  /** m is metadata that was committed for site n. */
  ghost predicate CommittedFor(w: World, n: string, m: Meta) {
    && m.version in w.drawn && m.version in w.committed
    && w.drawn[m.version].name == n && w.drawn[m.version].meta == m
  }

  /** m stood in the bucket as n's metadata at some moment from since on. */
  ghost predicate SeenSince(w: World, n: string, m: Meta, since: nat) {
    exists t :: since <= t < |w.log| && Get(w.log[t], n) == Some(m)
  }

  /**
   Where metadata in use may come from: the bucket since the installing refresh
   began or, among unserialized pushers, an own commit folded in since.
   */
  ghost predicate Sourced(cfg: Config, w: World, pid: nat, n: string, m: Meta, origin: Origin) {
    && CommittedFor(w, n, m)
    && (|| SeenSince(w, n, m, origin.began)
        || (!cfg.mode.Serialized? && m.version in origin.folded && w.drawn[m.version].pid == pid))
  }

  /** The expansion of the archive published under this version. */
  ghost predicate WholeTree(cfg: Config, w: World, n: string, version: string, fsys: Expansion) {
    version in w.drawn && w.drawn[version].name == n && fsys == Expanded(w.drawn[version].archive, cfg.limit)
  }

  ghost predicate DraftOk(cfg: Config, w: World, v: string)
    requires v in w.drawn
  {
    var d := w.drawn[v];
    && Acceptable(Memory, d.archive, cfg.limit)
    && d.meta == MetaFor(cfg, d.name, d.archive, v, d.meta.expiresAt)
  }

  ghost predicate LiveOk(w: World, n: string)
    requires n in w.metas
  {
    var m := w.metas[n];
    && CommittedFor(w, n, m)
    && Cache.Key(n, m.version) in w.content
  }

  ghost predicate ContentOk(w: World, k: Cache.Key)
    requires k in w.content
  {
    k.version in w.drawn && w.drawn[k.version].name == k.name && w.content[k] == w.drawn[k.version].archive
  }

  ghost predicate BucketOk(cfg: Config, w: World) {
    && (forall v :: v in w.drawn ==> DraftOk(cfg, w, v))
    && (forall n :: n in w.metas ==> LiveOk(w, n))
    && (forall k :: k in w.content ==> ContentOk(w, k))
    && |w.log| > 0 && w.log[|w.log| - 1] == w.metas
    && (forall v :: v in w.committed ==> v in w.drawn)
  }

  ghost predicate StoreOk(cfg: Config, w: World, pid: nat, l: Local) {
    && l.origin.began < |w.log|
    && (forall n :: n in l.meta ==> Sourced(cfg, w, pid, n, l.meta[n], l.origin))
    && (forall e :: e in l.cache ==> WholeTree(cfg, w, e.key.name, e.key.version, e.value))
  }

  /** The version a push has drawn and not yet committed. */
  ghost function Pending(pc: Pc): Option<Cache.Key> {
    match pc
    case Snap(c) => if c.ForPush? then Some(Cache.Key(c.name, c.version)) else None
    case Refreshing(c, _, _, _) => if c.ForPush? then Some(Cache.Key(c.name, c.version)) else None
    case PushPut(n, v) => Some(Cache.Key(n, v))
    case PushCommit(n, v, _) => Some(Cache.Key(n, v))
    case PushCleanup(n, v) => Some(Cache.Key(n, v))
    case _ => None
  }

  ghost predicate PendingOk(w: World, pc: Pc) {
    Pending(pc).Some? ==>
      var k := Pending(pc).value;
      && k.version in w.drawn && w.drawn[k.version].name == k.name && k.version !in w.committed
      && (!pc.PushPut? && !pc.PushCleanup? ==> k in w.content)
  }

  /** After the commit: the version to collect is superseded. */
  ghost predicate Collecting(pc: Pc) {
    pc.PushApply? || pc.PushCache? || pc.PushCollect?
  }

  ghost predicate Live(w: World, n: string, v: string) {
    n in w.metas && w.metas[n].version == v
  }

  ghost predicate CollectOk(cfg: Config, w: World, th: Thread) {
    Collecting(th.pc) ==>
      && th.pc.version in w.drawn && th.pc.version in w.committed
      && w.drawn[th.pc.version].name == th.pc.name && w.drawn[th.pc.version].pid == th.pid
      && (th.pc.prev.Some? && th.pc.prev.value.version != th.pc.version ==>
            CommittedFor(w, th.pc.name, th.pc.prev.value) && !Live(w, th.pc.name, th.pc.prev.value.version))
      && (cfg.mode.Serialized? ==> Live(w, th.pc.name, th.pc.version))
  }

  ghost predicate Removing(pc: Pc) {
    pc.DelForget? || pc.DelDrop? || pc.DelSweep?
  }

  ghost predicate Deletes(pc: Pc) {
    match pc
    case Snap(c) => c.ForDelete? || c.ForReap?
    case Refreshing(c, _, _, _) => c.ForDelete? || c.ForReap?
    case DelMeta(_, _) => true
    case _ => Removing(pc)
  }

  ghost predicate Mutates(pc: Pc) {
    Deletes(pc) || Pending(pc).Some? || Collecting(pc)
  }

  ghost predicate RefreshOk(w: World, pc: Pc) {
    pc.Refreshing? ==>
      && pc.began < |w.log|
      && forall n :: n in pc.acc ==> CommittedFor(w, n, pc.acc[n]) && SeenSince(w, n, pc.acc[n], pc.began)
  }

  ghost predicate PrevOk(w: World, pc: Pc) {
    pc.PushCommit? && pc.prev.Some? ==> CommittedFor(w, pc.name, pc.prev.value)
  }

  ghost predicate OpenOk(cfg: Config, w: World, th: Thread) {
    match th.pc
    case OpenHave(n, m, origin) => Sourced(cfg, w, th.pid, n, m, origin)
    case OpenFetch(n, m, origin) => Sourced(cfg, w, th.pid, n, m, origin)
    case OpenPut(n, m, origin, a) => Sourced(cfg, w, th.pid, n, m, origin) && a == w.drawn[m.version].archive
    case OpenDone(n, m, origin, fsys) => Sourced(cfg, w, th.pid, n, m, origin) && WholeTree(cfg, w, n, m.version, fsys)
    case _ => true
  }

  /** The drafts a process's own push threads work on are its own. */
  ghost predicate OwnDraft(w: World, th: Thread) {
    Pending(th.pc).Some? && Pending(th.pc).value.version in w.drawn ==>
      w.drawn[Pending(th.pc).value.version].pid == th.pid
  }

  ghost predicate ThreadOk(cfg: Config, w: World, th: Thread) {
    && PendingOk(w, th.pc) && OwnDraft(w, th) && CollectOk(cfg, w, th)
    && (Removing(th.pc) ==> th.pc.name !in w.metas)
    && RefreshOk(w, th.pc) && PrevOk(w, th.pc) && OpenOk(cfg, w, th)
  }

  ghost predicate Apart(a: Pc, b: Pc) {
    Pending(a).Some? && Pending(b).Some? ==> Pending(a).value.version != Pending(b).value.version
  }

  ghost predicate Excludes(cfg: Config, w: World) {
    && (cfg.mode.Serialized? ==> forall t :: t in w.threads && Mutates(w.threads[t].pc) ==> w.lock == Some(t))
    && (cfg.mode.PushersOnly? ==> forall t :: t in w.threads ==> !Deletes(w.threads[t].pc))
    && (forall t, u :: t in w.threads && u in w.threads && t != u ==> Apart(w.threads[t].pc, w.threads[u].pc))
  }

  ghost predicate Inv(cfg: Config, w: World) {
    && BucketOk(cfg, w)
    && (forall p :: p in w.stores ==> StoreOk(cfg, w, p, w.stores[p]))
    && (forall t :: t in w.threads ==> ThreadOk(cfg, w, w.threads[t]))
    && Excludes(cfg, w)
  }

  // ----- what histories keep

  /** History only grows. */
  ghost predicate Grows(w: World, z: World) {
    && (forall v :: v in w.drawn ==> v in z.drawn && z.drawn[v] == w.drawn[v])
    && w.committed <= z.committed
    && w.log <= z.log
  }

  lemma SeenGrows(w: World, z: World, n: string, m: Meta, since: nat)
    requires Grows(w, z) && SeenSince(w, n, m, since)
    ensures SeenSince(z, n, m, since)
  {
    var t :| since <= t < |w.log| && Get(w.log[t], n) == Some(m);
    assert z.log[t] == w.log[t];
  }

  lemma SourcedGrows(cfg: Config, w: World, z: World, pid: nat, n: string, m: Meta, origin: Origin)
    requires Grows(w, z) && Sourced(cfg, w, pid, n, m, origin)
    ensures Sourced(cfg, z, pid, n, m, origin)
  {
    if SeenSince(w, n, m, origin.began) { SeenGrows(w, z, n, m, origin.began); }
  }

  lemma StoreGrows(cfg: Config, w: World, z: World, pid: nat, l: Local)
    requires Grows(w, z) && StoreOk(cfg, w, pid, l)
    ensures StoreOk(cfg, z, pid, l)
  {
    hide Sourced, Expanded;
    forall n | n in l.meta ensures Sourced(cfg, z, pid, n, l.meta[n], l.origin) {
      SourcedGrows(cfg, w, z, pid, n, l.meta[n], l.origin);
    }
  }

  lemma RefreshGrows(w: World, z: World, pc: Pc)
    requires Grows(w, z) && RefreshOk(w, pc)
    ensures RefreshOk(z, pc)
  {
    hide SeenSince;
    if pc.Refreshing? {
      forall n | n in pc.acc ensures CommittedFor(z, n, pc.acc[n]) && SeenSince(z, n, pc.acc[n], pc.began) {
        SeenGrows(w, z, n, pc.acc[n], pc.began);
      }
    }
  }

  lemma OpenGrows(cfg: Config, w: World, z: World, th: Thread)
    requires Grows(w, z) && OpenOk(cfg, w, th)
    ensures OpenOk(cfg, z, th)
  {
    hide Expanded;
    match th.pc
    case OpenHave(n, m, origin) => SourcedGrows(cfg, w, z, th.pid, n, m, origin);
    case OpenFetch(n, m, origin) => SourcedGrows(cfg, w, z, th.pid, n, m, origin);
    case OpenPut(n, m, origin, _) => SourcedGrows(cfg, w, z, th.pid, n, m, origin);
    case OpenDone(n, m, origin, _) => SourcedGrows(cfg, w, z, th.pid, n, m, origin);
    case _ =>
  }

  /** What a bucket change must leave alone for a thread to stay in order. */
  ghost predicate Spares(cfg: Config, w: World, z: World, pc: Pc) {
    && (Pending(pc).Some? ==>
          && Pending(pc).value.version !in z.committed
          && (Pending(pc).value in w.content ==> Pending(pc).value in z.content))
    && (Collecting(pc) ==>
          && (pc.prev.Some? && pc.prev.value.version != pc.version && !Live(w, pc.name, pc.prev.value.version) ==>
                !Live(z, pc.name, pc.prev.value.version))
          && (cfg.mode.Serialized? && Live(w, pc.name, pc.version) ==> Live(z, pc.name, pc.version)))
    && (Removing(pc) && pc.name !in w.metas ==> pc.name !in z.metas)
  }

  lemma ThreadStays(cfg: Config, w: World, z: World, th: Thread)
    requires ThreadOk(cfg, w, th) && Grows(w, z) && Spares(cfg, w, z, th.pc)
    ensures ThreadOk(cfg, z, th)
  {
    RefreshGrows(w, z, th.pc);
    OpenGrows(cfg, w, z, th);
    hide RefreshOk, OpenOk;
  }

  // ----- the invariant around one thread's step

  /** The invariant, but for thread tid, whose program counter is about to change. */
  ghost predicate InvBut(cfg: Config, w: World, tid: nat) {
    && BucketOk(cfg, w)
    && (forall p :: p in w.stores ==> StoreOk(cfg, w, p, w.stores[p]))
    && (forall t :: t in w.threads && t != tid ==> ThreadOk(cfg, w, w.threads[t]))
    && Excludes(cfg, w)
  }

  /** A step of a thread keeps its claims: no new lock, no new delete, no new version. */
  ghost predicate Continues(was: Pc, now: Pc) {
    && (Mutates(now) ==> Mutates(was))
    && (Deletes(now) ==> Deletes(was))
    && (Pending(now).Some? ==> Pending(now) == Pending(was))
  }

  lemma SameBucket(cfg: Config, w: World, z: World)
    requires BucketOk(cfg, w)
    requires z.metas == w.metas && z.content == w.content && z.drawn == w.drawn && z.committed == w.committed
    requires z.log == w.log
    ensures BucketOk(cfg, z)
  {
    hide DraftOk;
    forall v | v in z.drawn ensures DraftOk(cfg, z, v) { SameDraft(cfg, w, z, v); }
    forall n | n in z.metas ensures LiveOk(z, n) { assert LiveOk(w, n); }
    forall k | k in z.content ensures ContentOk(z, k) { assert ContentOk(w, k); }
  }

  lemma SameDraft(cfg: Config, w: World, z: World, v: string)
    requires v in w.drawn && v in z.drawn && z.drawn[v] == w.drawn[v] && DraftOk(cfg, w, v)
    ensures DraftOk(cfg, z, v)
  {}

  lemma SameParts(cfg: Config, w: World, z: World, tid: nat)
    requires InvBut(cfg, w, tid)
    requires z.metas == w.metas && z.content == w.content && z.drawn == w.drawn && z.committed == w.committed
    requires z.log == w.log
    ensures BucketOk(cfg, z)
    ensures forall p, l :: StoreOk(cfg, w, p, l) ==> StoreOk(cfg, z, p, l)
    ensures forall th :: ThreadOk(cfg, w, th) ==> ThreadOk(cfg, z, th)
  {
    SameBucket(cfg, w, z);
    assert Grows(w, z);
    forall p, l | StoreOk(cfg, w, p, l) ensures StoreOk(cfg, z, p, l) { StoreGrows(cfg, w, z, p, l); }
    forall th | ThreadOk(cfg, w, th) ensures ThreadOk(cfg, z, th) {
      assert PendingOk(w, th.pc);
      ThreadStays(cfg, w, z, th);
    }
  }

  lemma MoveInv(cfg: Config, w: World, tid: nat, pc: Pc)
    requires InvBut(cfg, w, tid) && tid in w.threads
    requires ThreadOk(cfg, w, Thread(w.threads[tid].pid, pc)) && Continues(w.threads[tid].pc, pc)
    ensures Inv(cfg, Move(w, tid, pc))
  {
    hide BucketOk, StoreOk, ThreadOk, Pending, Mutates, Deletes;
    var z := Move(w, tid, pc);
    SameParts(cfg, w, z, tid);
    var before := w.threads[tid].pc;
    forall t | t in z.threads && t != tid ensures Apart(z.threads[t].pc, pc) && Apart(pc, z.threads[t].pc) {
      assert Apart(w.threads[t].pc, before) && Apart(before, w.threads[t].pc);
    }
  }

  lemma EndInv(cfg: Config, w: World, tid: nat)
    requires InvBut(cfg, w, tid)
    ensures Inv(cfg, End(w, tid))
  {
    hide BucketOk, StoreOk, ThreadOk, Pending, Mutates, Deletes;
    SameParts(cfg, w, End(w, tid), tid);
  }

  lemma SetStoreBut(cfg: Config, w: World, tid: nat, pid: nat, l: Local)
    requires InvBut(cfg, w, tid) && StoreOk(cfg, w, pid, l)
    ensures InvBut(cfg, SetStore(w, pid, l), tid)
  {
    hide BucketOk, StoreOk, ThreadOk, Pending, Mutates, Deletes;
    SameParts(cfg, w, SetStore(w, pid, l), tid);
  }

  lemma StartInv(cfg: Config, w: World, tid: nat, pid: nat, pc: Pc, mutates: bool)
    requires Inv(cfg, w) && tid !in w.threads && ThreadOk(cfg, w, Thread(pid, pc))
    requires mutates ==> LockFree(cfg, w)
    requires Mutates(pc) ==> mutates
    requires Deletes(pc) ==> !cfg.mode.PushersOnly?
    requires forall t :: t in w.threads ==> Apart(pc, w.threads[t].pc)
    ensures Inv(cfg, Start(cfg, w, tid, pid, pc, mutates))
  {
    hide BucketOk, StoreOk, ThreadOk, Pending, Mutates, Deletes;
    var z := Start(cfg, w, tid, pid, pc, mutates);
    SameParts(cfg, w, z, tid);
    forall t, u | t in z.threads && u in z.threads && t != u ensures Apart(z.threads[t].pc, z.threads[u].pc) {
      if u == tid { assert Apart(pc, z.threads[t].pc); }
    }
  }

  // ----- bucket changes

  /** All other threads and all stores survive a change that grows history and spares them. */
  lemma ChangeBut(cfg: Config, w: World, z: World, tid: nat)
    requires Inv(cfg, w) && Grows(w, z) && BucketOk(cfg, z)
    requires z.stores == w.stores && z.threads == w.threads && z.lock == w.lock
    requires forall t :: t in w.threads && t != tid ==> Spares(cfg, w, z, w.threads[t].pc)
    ensures InvBut(cfg, z, tid)
  {
    hide BucketOk, StoreOk, ThreadOk, Grows, Spares, Apart, Mutates, Deletes;
    forall p | p in z.stores ensures StoreOk(cfg, z, p, z.stores[p]) { StoreGrows(cfg, w, z, p, w.stores[p]); }
    forall t | t in z.threads && t != tid
      ensures ThreadOk(cfg, z, z.threads[t])
    {
      ThreadStays(cfg, w, z, w.threads[t]);
    }
  }

  lemma DrawBucket(cfg: Config, w: World, d: Draft, v: string)
    requires BucketOk(cfg, w) && v !in w.drawn && Acceptable(Memory, d.archive, cfg.limit)
    requires d.meta == MetaFor(cfg, d.name, d.archive, v, d.meta.expiresAt)
    ensures BucketOk(cfg, w.(drawn := w.drawn[v := d])) && Grows(w, w.(drawn := w.drawn[v := d]))
  {
    hide Acceptable, MetaFor;
    var z := w.(drawn := w.drawn[v := d]);
    forall u | u in z.drawn ensures DraftOk(cfg, z, u) { if u != v { assert DraftOk(cfg, w, u); } }
    forall m | m in z.metas ensures LiveOk(z, m) { assert LiveOk(w, m); }
    forall k | k in z.content ensures ContentOk(z, k) { assert ContentOk(w, k); }
  }

  lemma DrawInv(cfg: Config, w: World, d: Draft, v: string)
    requires Inv(cfg, w) && v !in w.drawn && Acceptable(Memory, d.archive, cfg.limit)
    requires d.meta == MetaFor(cfg, d.name, d.archive, v, d.meta.expiresAt)
    ensures Inv(cfg, w.(drawn := w.drawn[v := d]))
  {
    hide BucketOk, Acceptable, MetaFor, StoreOk, ThreadOk, Mutates, Deletes;
    var z := w.(drawn := w.drawn[v := d]);
    DrawBucket(cfg, w, d, v);
    forall t | t in w.threads ensures ThreadOk(cfg, z, w.threads[t]) {
      SparedBySame(cfg, w, z, w.threads[t]);
      ThreadStays(cfg, w, z, w.threads[t]);
    }
    forall p | p in z.stores ensures StoreOk(cfg, z, p, z.stores[p]) { StoreGrows(cfg, w, z, p, w.stores[p]); }
  }

  lemma SparedBySame(cfg: Config, w: World, z: World, th: Thread)
    requires ThreadOk(cfg, w, th) && z.metas == w.metas && z.committed == w.committed
    requires forall k :: k in w.content ==> k in z.content
    ensures Spares(cfg, w, z, th.pc)
  {}

  lemma PutContentBucket(cfg: Config, w: World, n: string, v: string)
    requires BucketOk(cfg, w) && v in w.drawn && w.drawn[v].name == n
    ensures BucketOk(cfg, w.(content := w.content[Cache.Key(n, v) := w.drawn[v].archive]))
  {
    hide DraftOk;
    var z := w.(content := w.content[Cache.Key(n, v) := w.drawn[v].archive]);
    forall u | u in z.drawn ensures DraftOk(cfg, z, u) { SameDraft(cfg, w, z, u); }
    forall m | m in z.metas ensures LiveOk(z, m) { assert LiveOk(w, m); }
    forall k | k in z.content ensures ContentOk(z, k) { if k != Cache.Key(n, v) { assert ContentOk(w, k); } }
  }

  lemma PutContentBut(cfg: Config, w: World, tid: nat, n: string, v: string)
    requires Inv(cfg, w) && tid in w.threads && w.threads[tid].pc == PushPut(n, v)
    ensures v in w.drawn && w.drawn[v].name == n
    ensures InvBut(cfg, w.(content := w.content[Cache.Key(n, v) := w.drawn[v].archive]), tid)
  {
    hide BucketOk, StoreOk, CollectOk, RefreshOk, OpenOk, Excludes, Spares;
    assert ThreadOk(cfg, w, w.threads[tid]);
    var z := w.(content := w.content[Cache.Key(n, v) := w.drawn[v].archive]);
    PutContentBucket(cfg, w, n, v);
    forall t | t in w.threads ensures Spares(cfg, w, z, w.threads[t].pc) { SparedBySame(cfg, w, z, w.threads[t]); }
    ChangeBut(cfg, w, z, tid);
  }

  /** With the lock held, or without deletes, no other thread is in the middle of a delete. */
  lemma NoOtherRemoves(cfg: Config, w: World, tid: nat, t: nat)
    requires Excludes(cfg, w) && !cfg.mode.Unrestricted? && tid in w.threads && t in w.threads && t != tid
    requires Mutates(w.threads[tid].pc)
    ensures !Removing(w.threads[t].pc)
    ensures cfg.mode.Serialized? ==> !Mutates(w.threads[t].pc)
    ensures Apart(w.threads[t].pc, w.threads[tid].pc)
  {}

  lemma DraftVersion(cfg: Config, w: World, v: string)
    requires v in w.drawn && DraftOk(cfg, w, v)
    ensures w.drawn[v].meta.version == v
  {}

  lemma PutMetaBucket(cfg: Config, w: World, n: string, v: string)
    requires BucketOk(cfg, w) && v in w.drawn && w.drawn[v].name == n && Cache.Key(n, v) in w.content
    ensures w.drawn[v].meta.version == v
    ensures BucketOk(cfg, PutMeta(w, n, w.drawn[v].meta)) && Grows(w, PutMeta(w, n, w.drawn[v].meta))
  {
    hide DraftOk;
    DraftVersion(cfg, w, v);
    var z := PutMeta(w, n, w.drawn[v].meta);
    forall u | u in z.drawn ensures DraftOk(cfg, z, u) { SameDraft(cfg, w, z, u); }
    forall m | m in z.metas ensures LiveOk(z, m) { if m != n { assert LiveOk(w, m); } }
    forall k | k in z.content ensures ContentOk(z, k) { assert ContentOk(w, k); }
  }

  /** A commit of a version nobody else holds spares the others. */
  lemma CommitSpares(cfg: Config, w: World, n: string, v: string, th: Thread)
    requires ThreadOk(cfg, w, th) && v in w.drawn && w.drawn[v].meta.version == v && v !in w.committed
    requires Pending(th.pc).Some? ==> Pending(th.pc).value.version != v
    requires !Removing(th.pc) && (cfg.mode.Serialized? ==> !Mutates(th.pc))
    ensures Spares(cfg, w, PutMeta(w, n, w.drawn[v].meta), th.pc)
  {}

  lemma PutMetaBut(cfg: Config, w: World, tid: nat, n: string, v: string, prev: Option<Meta>)
    requires Inv(cfg, w) && !cfg.mode.Unrestricted? && tid in w.threads && w.threads[tid].pc == PushCommit(n, v, prev)
    ensures v in w.drawn && w.drawn[v].name == n && v !in w.committed
    ensures InvBut(cfg, PutMeta(w, n, w.drawn[v].meta), tid)
  {
    hide BucketOk, StoreOk, CollectOk, RefreshOk, OpenOk, Excludes, Spares, Removing;
    assert ThreadOk(cfg, w, w.threads[tid]);
    PutMetaBucket(cfg, w, n, v);
    var z := PutMeta(w, n, w.drawn[v].meta);
    forall t | t in w.threads && t != tid ensures Spares(cfg, w, z, w.threads[t].pc) {
      NoOtherRemoves(cfg, w, tid, t);
      CommitSpares(cfg, w, n, v, w.threads[t]);
    }
    ChangeBut(cfg, w, z, tid);
  }

  lemma DropMetaBucket(cfg: Config, w: World, n: string)
    requires BucketOk(cfg, w)
    ensures BucketOk(cfg, DropMeta(w, n)) && Grows(w, DropMeta(w, n))
  {
    hide DraftOk;
    var z := DropMeta(w, n);
    forall u | u in z.drawn ensures DraftOk(cfg, z, u) { SameDraft(cfg, w, z, u); }
    forall m | m in z.metas ensures LiveOk(z, m) { assert LiveOk(w, m); }
    forall k | k in z.content ensures ContentOk(z, k) { assert ContentOk(w, k); }
  }

  lemma DropMetaSpares(cfg: Config, w: World, n: string, th: Thread)
    requires ThreadOk(cfg, w, th) && (cfg.mode.Serialized? ==> !Mutates(th.pc))
    ensures Spares(cfg, w, DropMeta(w, n), th.pc)
  {}

  lemma DropMetaBut(cfg: Config, w: World, tid: nat, n: string, rest: Errand)
    requires Inv(cfg, w) && !cfg.mode.Unrestricted? && tid in w.threads && w.threads[tid].pc == DelMeta(n, rest)
    ensures InvBut(cfg, DropMeta(w, n), tid)
  {
    hide BucketOk, StoreOk, ThreadOk, Excludes, Spares;
    DropMetaBucket(cfg, w, n);
    var z := DropMeta(w, n);
    forall t | t in w.threads && t != tid ensures Spares(cfg, w, z, w.threads[t].pc) {
      NoOtherRemoves(cfg, w, tid, t);
      DropMetaSpares(cfg, w, n, w.threads[t]);
    }
    ChangeBut(cfg, w, z, tid);
  }

  lemma DropContentBucket(cfg: Config, w: World, k: Cache.Key)
    requires BucketOk(cfg, w) && !Live(w, k.name, k.version)
    ensures BucketOk(cfg, DropContent(w, k))
  {
    hide DraftOk;
    var z := DropContent(w, k);
    forall u | u in z.drawn ensures DraftOk(cfg, z, u) { SameDraft(cfg, w, z, u); }
    forall m | m in z.metas ensures LiveOk(z, m) { assert LiveOk(w, m); }
    forall j | j in z.content ensures ContentOk(z, j) { assert ContentOk(w, j); }
  }

  lemma DropContentSpares(cfg: Config, w: World, k: Cache.Key, th: Thread)
    requires ThreadOk(cfg, w, th) && Pending(th.pc) != Some(k)
    ensures Spares(cfg, w, DropContent(w, k), th.pc)
  {}

  lemma DropContentBut(cfg: Config, w: World, tid: nat, k: Cache.Key)
    requires Inv(cfg, w) && !Live(w, k.name, k.version)
    requires forall t :: t in w.threads && t != tid ==> Pending(w.threads[t].pc) != Some(k)
    ensures InvBut(cfg, DropContent(w, k), tid)
  {
    hide BucketOk, StoreOk, ThreadOk, Excludes, Spares, Pending;
    DropContentBucket(cfg, w, k);
    var z := DropContent(w, k);
    forall t | t in w.threads && t != tid ensures Spares(cfg, w, z, w.threads[t].pc) {
      DropContentSpares(cfg, w, k, w.threads[t]);
    }
    ChangeBut(cfg, w, z, tid);
  }
}
