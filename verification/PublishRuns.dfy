/** The publish protocol over whole runs. */
module PublishRuns {
  import opened Results
  import opened Archives
  import opened Publish
  import opened PublishSafety
  import Cache

  // ----- every step keeps the invariant

  lemma InvIsInvBut(cfg: Config, w: World, tid: nat)
    requires Inv(cfg, w)
    ensures InvBut(cfg, w, tid)
    ensures tid in w.threads ==> ThreadOk(cfg, w, w.threads[tid])
  {
    hide BucketOk, StoreOk, ThreadOk, Excludes;
  }

  lemma InvButIsInv(cfg: Config, w: World, tid: nat)
    requires InvBut(cfg, w, tid) && (tid in w.threads ==> ThreadOk(cfg, w, w.threads[tid]))
    ensures Inv(cfg, w)
  {
    hide BucketOk, StoreOk, ThreadOk, Excludes;
  }

  lemma OfStore(cfg: Config, w: World, pid: nat)
    requires Inv(cfg, w) && pid in w.stores
    ensures StoreOk(cfg, w, pid, w.stores[pid])
  {
    hide BucketOk, StoreOk, ThreadOk, Excludes;
  }

  lemma OfContent(cfg: Config, w: World, k: Cache.Key)
    requires Inv(cfg, w) && k in w.content
    ensures ContentOk(w, k)
  {
    hide StoreOk, ThreadOk, Excludes, ContentOk;
  }

  lemma OfMeta(cfg: Config, w: World, n: string)
    requires Inv(cfg, w) && n in w.metas
    ensures LiveOk(w, n)
  {
    hide StoreOk, ThreadOk, Excludes, LiveOk;
  }

  lemma OfPair(cfg: Config, w: World, t: nat, u: nat)
    requires Inv(cfg, w) && t in w.threads && u in w.threads && t != u
    ensures Apart(w.threads[t].pc, w.threads[u].pc)
  {
    hide BucketOk, StoreOk, ThreadOk, Apart;
  }

  lemma BootKeepsInv(cfg: Config, w: World, pid: nat)
    requires Inv(cfg, w) && pid !in w.stores
    ensures Inv(cfg, Next(cfg, w, Boot(pid)))
  {
    var l := Local(map[], false, Origin(0, {}), []);
    assert StoreOk(cfg, w, pid, l);
    hide BucketOk, StoreOk, ThreadOk, Excludes;
    var tid := 0;
    InvIsInvBut(cfg, w, tid);
    SetStoreBut(cfg, w, tid, pid, l);
    var z := SetStore(w, pid, l);
    if tid in w.threads { SameThread(cfg, w, z, tid); }
    InvButIsInv(cfg, z, tid);
  }

  lemma SameThread(cfg: Config, w: World, z: World, tid: nat)
    requires InvBut(cfg, w, tid) && tid in w.threads && ThreadOk(cfg, w, w.threads[tid])
    requires z.metas == w.metas && z.content == w.content && z.drawn == w.drawn && z.committed == w.committed
    requires z.log == w.log
    ensures ThreadOk(cfg, z, w.threads[tid])
  {
    hide ThreadOk, InvBut;
    SameParts(cfg, w, z, tid);
  }

  lemma CrashKeepsInv(cfg: Config, w: World, pid: nat)
    requires Inv(cfg, w) && pid in w.stores
    ensures Inv(cfg, Next(cfg, w, Crash(pid)))
  {
    hide BucketOk, StoreOk, ThreadOk, Mutates, Deletes, Apart;
    var z := Next(cfg, w, Crash(pid));
    InvIsInvBut(cfg, w, 0);
    SameParts(cfg, w, z, 0);
    forall t | t in z.threads ensures t in w.threads && z.threads[t] == w.threads[t] {}
  }

  lemma StartKeepsInv(cfg: Config, w: World, s: Step)
    requires Inv(cfg, w) && Enabled(cfg, w, s) && (s.StartOpen? || s.StartDelete? || s.StartReap?)
    ensures Inv(cfg, Next(cfg, w, s))
  {
    hide Inv;
    match s
    case StartOpen(tid, pid, n) => StartInv(cfg, w, tid, pid, Snap(ForOpen(n)), false);
    case StartDelete(tid, pid, n) => StartInv(cfg, w, tid, pid, Snap(ForDelete(n, JUST_ONE)), true);
    case StartReap(tid, pid, now) => StartInv(cfg, w, tid, pid, Snap(ForReap(now)), true);
  }

  lemma StartPushKeepsInv(cfg: Config, w: World, s: Step)
    requires Inv(cfg, w) && Enabled(cfg, w, s) && s.StartPush?
    ensures Inv(cfg, Next(cfg, w, s))
  {
    hide Inv, InvBut, Acceptable, StoreOk, CollectOk, RefreshOk, OpenOk, DraftOk, FileNames, Volume, Contents;
    var d := Draft(s.name, s.pid, s.archive, MetaFor(cfg, s.name, s.archive, s.version, s.expiresAt));
    var z := w.(drawn := w.drawn[s.version := d]);
    DrawInv(cfg, w, d, s.version);
    var pc := PushPut(s.name, s.version);
    FreshVersion(cfg, w, s.version);
    FirstPushPc(cfg, z, Thread(s.pid, pc));
    forall t | t in z.threads ensures Apart(pc, z.threads[t].pc) { InvIsInvBut(cfg, w, t); }
    StartInv(cfg, z, s.tid, s.pid, pc, true);
  }

  lemma FreshVersion(cfg: Config, w: World, v: string)
    requires Inv(cfg, w) && v !in w.drawn
    ensures v !in w.committed
  {}

  lemma FirstPushPc(cfg: Config, w: World, th: Thread)
    requires th.pc.PushPut? && PendingOk(w, th.pc) && OwnDraft(w, th)
    ensures ThreadOk(cfg, w, th)
  {}

  /** A map all of whose entries are sourced lets any continuation go on. */
  lemma ResumeKeepsInv(cfg: Config, w: World, tid: nat, cont: Cont, snap: map<string, Meta>, origin: Origin)
    requires InvBut(cfg, w, tid) && tid in w.threads
    requires w.threads[tid].pc.Snap? || w.threads[tid].pc.Refreshing?
    requires w.threads[tid].pc.cont == cont && ThreadOk(cfg, w, w.threads[tid])
    requires forall n :: n in snap ==> Sourced(cfg, w, w.threads[tid].pid, n, snap[n], origin)
    ensures Inv(cfg, Resume(w, tid, cont, snap, origin))
  {
    hide Inv, InvBut, SeenSince, Due;
    match cont
    case ForOpen(n) =>
      if n in snap { MoveInv(cfg, w, tid, OpenHave(n, snap[n], origin)); } else { EndInv(cfg, w, tid); }
    case ForPush(n, v) => MoveInv(cfg, w, tid, PushCommit(n, v, Get(snap, n)));
    case ForDelete(n, rest) =>
      if n in snap { MoveInv(cfg, w, tid, DelMeta(n, rest)); } else { NextReapKeepsInv(cfg, w, tid, rest); }
    case ForReap(now) => NextReapKeepsInv(cfg, w, tid, Errand(Due(snap, now), Some(now)));
  }

  lemma NextReapKeepsInv(cfg: Config, w: World, tid: nat, rest: Errand)
    requires InvBut(cfg, w, tid) && tid in w.threads && Deletes(w.threads[tid].pc)
    ensures Inv(cfg, NextReap(w, tid, rest))
  {
    hide Inv, InvBut;
    if rest.names == [] {
      EndInv(cfg, w, tid);
    } else {
      MoveInv(cfg, w, tid, Snap(ForDelete(rest.names[0], rest.(names := rest.names[1..]))));
    }
  }

  lemma UseLocalKeepsInv(cfg: Config, w: World, tid: nat)
    requires Inv(cfg, w) && Enabled(cfg, w, UseLocal(tid))
    ensures Inv(cfg, Next(cfg, w, UseLocal(tid)))
  {
    hide Inv, InvBut, ThreadOk, Resume, Sourced, WholeTree;
    var l := w.stores[w.threads[tid].pid];
    OfStore(cfg, w, w.threads[tid].pid);
    InvIsInvBut(cfg, w, tid);
    ResumeKeepsInv(cfg, w, tid, w.threads[tid].pc.cont, l.meta, l.origin);
  }

  lemma OfLog(cfg: Config, w: World)
    requires Inv(cfg, w)
    ensures |w.log| > 0 && w.log[|w.log| - 1] == w.metas
  {}

  lemma BeginRefreshKeepsInv(cfg: Config, w: World, tid: nat)
    requires Inv(cfg, w) && Enabled(cfg, w, BeginRefresh(tid))
    ensures Inv(cfg, Next(cfg, w, BeginRefresh(tid)))
  {
    hide Inv, InvBut;
    InvIsInvBut(cfg, w, tid);
    OfLog(cfg, w);
    var pc := w.threads[tid].pc;
    MoveInv(cfg, w, tid, Refreshing(pc.cont, |w.log| - 1, w.metas.Keys, map[]));
  }

  /** What the bucket holds now was seen just now. */
  lemma NowSeen(cfg: Config, w: World, n: string, since: nat)
    requires Inv(cfg, w) && n in w.metas && since < |w.log|
    ensures CommittedFor(w, n, w.metas[n]) && SeenSince(w, n, w.metas[n], since)
  {
    hide Inv;
    OfMeta(cfg, w, n);
    OfLog(cfg, w);
    assert Get(w.log[|w.log| - 1], n) == Some(w.metas[n]);
  }

  lemma ReadMetaKeepsInv(cfg: Config, w: World, tid: nat, n: string)
    requires Inv(cfg, w) && Enabled(cfg, w, ReadMeta(tid, n))
    ensures Inv(cfg, Next(cfg, w, ReadMeta(tid, n)))
  {
    hide Inv, InvBut, SeenSince;
    InvIsInvBut(cfg, w, tid);
    var pc := w.threads[tid].pc;
    if n in w.metas { NowSeen(cfg, w, n, pc.began); }
    var acc := if n in w.metas then pc.acc[n := w.metas[n]] else pc.acc;
    MoveInv(cfg, w, tid, pc.(todo := pc.todo - {n}, acc := acc));
  }

  lemma {:induction false} InstallKeepsInv(cfg: Config, w: World, tid: nat)
    requires Inv(cfg, w) && Enabled(cfg, w, Install(tid))
    ensures Inv(cfg, Next(cfg, w, Install(tid)))
  {
    hide Inv, InvBut, Resume, SeenSince, WholeTree, PendingOk, CollectOk, OpenOk;
    var pid, pc := w.threads[tid].pid, w.threads[tid].pc;
    InvIsInvBut(cfg, w, tid);
    OfStore(cfg, w, pid);
    var origin := Origin(pc.began, {});
    var l := Local(pc.acc, true, origin, w.stores[pid].cache);
    assert StoreOk(cfg, w, pid, l);
    SetStoreBut(cfg, w, tid, pid, l);
    var z := SetStore(w, pid, l);
    SameThread(cfg, w, z, tid);
    forall n | n in pc.acc ensures Sourced(cfg, z, pid, n, pc.acc[n], origin) {
      SameSource(cfg, w, z, pid, n, pc.acc[n], origin);
    }
    ResumeKeepsInv(cfg, z, tid, pc.cont, pc.acc, origin);
  }

  lemma SameSource(cfg: Config, w: World, z: World, pid: nat, n: string, m: Meta, origin: Origin)
    requires Sourced(cfg, w, pid, n, m, origin) && z.drawn == w.drawn && z.committed == w.committed && z.log == w.log
    ensures Sourced(cfg, z, pid, n, m, origin)
  {
    SourcedGrows(cfg, w, z, pid, n, m, origin);
  }

  lemma FailuresKeepInv(cfg: Config, w: World, s: Step)
    requires Inv(cfg, w) && Enabled(cfg, w, s) && (s.Abort? || s.LookupFails? || s.CommitFails?)
    ensures Inv(cfg, Next(cfg, w, s))
  {
    hide Inv, InvBut;
    InvIsInvBut(cfg, w, s.tid);
    match s
    case Abort(tid) => EndInv(cfg, w, tid);
    case LookupFails(tid) =>
      var c := w.threads[tid].pc.cont;
      MoveInv(cfg, w, tid, PushCommit(c.name, c.version, None));
    case CommitFails(tid) => MoveInv(cfg, w, tid, PushCleanup(w.threads[tid].pc.name, w.threads[tid].pc.version));
  }

  lemma NoOtherPending(cfg: Config, w: World, tid: nat, t: nat)
    requires Inv(cfg, w) && !cfg.mode.Unrestricted? && tid in w.threads && t in w.threads && t != tid
    requires Deletes(w.threads[tid].pc)
    ensures Pending(w.threads[t].pc).None?
  {
    hide BucketOk, StoreOk, ThreadOk;
    NoOtherRemoves(cfg, w, tid, t);
  }

  lemma {:induction false} SweepKeepsInv(cfg: Config, w: World, tid: nat, v: string)
    requires Inv(cfg, w) && !cfg.mode.Unrestricted? && Enabled(cfg, w, Sweep(tid, v))
    ensures Inv(cfg, Next(cfg, w, Sweep(tid, v)))
  {
    hide Inv, InvBut, RefreshOk, OpenOk, PrevOk;
    var k := Cache.Key(w.threads[tid].pc.name, v);
    InvIsInvBut(cfg, w, tid);
    forall t | t in w.threads && t != tid
      ensures Pending(w.threads[t].pc) != Some(k)
    {
      NoOtherPending(cfg, w, tid, t);
    }
    DropContentBut(cfg, w, tid, k);
    var z := DropContent(w, k);
    ThreadStays(cfg, w, z, w.threads[tid]);
    InvButIsInv(cfg, z, tid);
  }

  // ----- Advance, by program counter

  lemma SourcedDrawn(cfg: Config, w: World, pid: nat, n: string, m: Meta, origin: Origin)
    requires Sourced(cfg, w, pid, n, m, origin)
    ensures m.version in w.drawn && w.drawn[m.version].name == n
  {}

  lemma VersionOf(cfg: Config, w: World, v: string)
    requires Inv(cfg, w) && v in w.drawn
    ensures w.drawn[v].meta.version == v
  {
    assert DraftOk(cfg, w, v);
  }

  /** An open thread stays in order when only its process's cache changes. */
  lemma OpenMoves(cfg: Config, w: World, tid: nat, l: Local, pc: Pc)
    requires Inv(cfg, w) && tid in w.threads && StoreOk(cfg, w, w.threads[tid].pid, l)
    requires pc.OpenFetch? || pc.OpenDone?
    requires OpenOk(cfg, w, Thread(w.threads[tid].pid, pc))
    ensures Inv(cfg, Move(SetStore(w, w.threads[tid].pid, l), tid, pc))
  {
    hide Inv, InvBut, StoreOk, OpenOk;
    var z := SetStore(w, w.threads[tid].pid, l);
    InvIsInvBut(cfg, w, tid);
    SetStoreBut(cfg, w, tid, w.threads[tid].pid, l);
    OpenGrows(cfg, w, z, Thread(w.threads[tid].pid, pc));
    MoveInv(cfg, z, tid, pc);
  }

  lemma LookInCacheKeepsInv(cfg: Config, w: World, tid: nat, l: Local, n: string, m: Meta, origin: Origin)
    requires Inv(cfg, w) && tid in w.threads && StoreOk(cfg, w, w.threads[tid].pid, l)
    requires Sourced(cfg, w, w.threads[tid].pid, n, m, origin)
    ensures Inv(cfg, LookInCache(cfg, w, tid, l, n, m, origin))
  {
    hide Inv, Expanded, Sourced, Cache.PutSpec, Cache.GetSpec, Cache.HitSpec, Cache.DropAllSpec, SetStore, Move;
    var k := Cache.Key(n, m.version);
    Cache.NothingInvented(l.cache, cfg.cacheBytes, Cache.Cached(k, Expansion(map[], {}), 0), k, n);
    var l' := l.(cache := Cache.GetSpec(l.cache, cfg.cacheBytes, k));
    var hit := Cache.HitSpec(l.cache, cfg.cacheBytes, k);
    OpenMoves(cfg, w, tid, l', if hit.Some? then OpenDone(n, m, origin, hit.value) else OpenFetch(n, m, origin));
  }

  lemma GetContentKeepsInv(cfg: Config, w: World, tid: nat, n: string, m: Meta, origin: Origin)
    requires Inv(cfg, w) && tid in w.threads && Sourced(cfg, w, w.threads[tid].pid, n, m, origin)
    ensures Inv(cfg, GetContent(w, tid, n, m, origin))
  {
    hide Inv, InvBut, Sourced;
    var k := Cache.Key(n, m.version);
    InvIsInvBut(cfg, w, tid);
    if k in w.content {
      OfContent(cfg, w, k);
      MoveInv(cfg, w, tid, OpenPut(n, m, origin, w.content[k]));
    } else {
      EndInv(cfg, w, tid);
    }
  }

  lemma FillCacheKeepsInv(cfg: Config, w: World, tid: nat, l: Local, n: string, m: Meta, origin: Origin, a: Archive)
    requires Inv(cfg, w) && tid in w.threads && StoreOk(cfg, w, w.threads[tid].pid, l)
    requires Sourced(cfg, w, w.threads[tid].pid, n, m, origin) && m.version in w.drawn
    requires a == w.drawn[m.version].archive
    ensures Inv(cfg, FillCache(cfg, w, tid, l, n, m, origin, a))
  {
    hide Inv, Expanded, Sourced, Cache.PutSpec, Cache.GetSpec, Cache.HitSpec, Cache.DropAllSpec, SetStore;
    hide Move, Contents, Volume;
    SourcedDrawn(cfg, w, w.threads[tid].pid, n, m, origin);
    var k := Cache.Key(n, m.version);
    var fsys := Expanded(a, cfg.limit);
    var e := Cache.Cached(k, fsys, Volume(Contents(Memory, a, cfg.limit)));
    Cache.NothingInvented(l.cache, cfg.cacheBytes, e, k, n);
    OpenMoves(cfg, w, tid, l.(cache := Cache.PutSpec(l.cache, cfg.cacheBytes, e)), OpenDone(n, m, origin, fsys));
  }

  lemma PutContentKeepsInv(cfg: Config, w: World, tid: nat, n: string, v: string)
    requires Inv(cfg, w) && tid in w.threads && w.threads[tid].pc == PushPut(n, v)
    ensures v in w.drawn && Inv(cfg, PutContent(w, tid, n, v))
  {
    hide Inv, InvBut;
    InvIsInvBut(cfg, w, tid);
    PutContentBut(cfg, w, tid, n, v);
    MoveInv(cfg, w.(content := w.content[Cache.Key(n, v) := w.drawn[v].archive]), tid, Snap(ForPush(n, v)));
  }

  lemma {:induction false} CommitKeepsInv(cfg: Config, w: World, tid: nat, n: string, v: string, prev: Option<Meta>)
    requires Inv(cfg, w) && !cfg.mode.Unrestricted? && tid in w.threads && w.threads[tid].pc == PushCommit(n, v, prev)
    ensures v in w.drawn && Inv(cfg, Move(PutMeta(w, n, w.drawn[v].meta), tid, PushApply(n, v, prev)))
  {
    hide Inv, InvBut;
    InvIsInvBut(cfg, w, tid);
    PutMetaBut(cfg, w, tid, n, v, prev);
    VersionOf(cfg, w, v);
    MoveInv(cfg, PutMeta(w, n, w.drawn[v].meta), tid, PushApply(n, v, prev));
  }

  lemma CleanupKeepsInv(cfg: Config, w: World, tid: nat, n: string, v: string)
    requires Inv(cfg, w) && tid in w.threads && w.threads[tid].pc == PushCleanup(n, v)
    ensures Inv(cfg, End(DropContent(w, Cache.Key(n, v)), tid))
  {
    hide Inv, InvBut, RefreshOk, OpenOk, CollectOk;
    InvIsInvBut(cfg, w, tid);
    if n in w.metas { OfMeta(cfg, w, n); }
    forall t | t in w.threads && t != tid ensures Pending(w.threads[t].pc) != Some(Cache.Key(n, v)) {
      OfPair(cfg, w, t, tid);
    }
    DropContentBut(cfg, w, tid, Cache.Key(n, v));
    EndInv(cfg, DropContent(w, Cache.Key(n, v)), tid);
  }

  lemma CollectKeepsInv(cfg: Config, w: World, tid: nat, n: string, v: string, prev: Option<Meta>)
    requires Inv(cfg, w) && tid in w.threads && w.threads[tid].pc == PushCollect(n, v, prev)
    ensures Inv(cfg, Collect(w, tid, n, v, prev))
  {
    hide Inv, InvBut, RefreshOk, OpenOk;
    InvIsInvBut(cfg, w, tid);
    if prev.Some? && prev.value.version != v {
      var k := Cache.Key(n, prev.value.version);
      forall t | t in w.threads && t != tid ensures Pending(w.threads[t].pc) != Some(k) {
        InvIsInvBut(cfg, w, t);
      }
      DropContentBut(cfg, w, tid, k);
      EndInv(cfg, DropContent(w, k), tid);
    } else {
      EndInv(cfg, w, tid);
    }
  }

  /**
   A push thread past its commit, or a delete thread past its own, stays in order
   when only its process's store changes.
   */
  lemma MutatorMoves(cfg: Config, w: World, tid: nat, l: Local, pc: Pc)
    requires Inv(cfg, w) && tid in w.threads && StoreOk(cfg, w, w.threads[tid].pid, l)
    requires pc.PushCache? || pc.PushCollect? || pc.DelDrop? || pc.DelSweep?
    requires ThreadOk(cfg, w, Thread(w.threads[tid].pid, pc)) && Continues(w.threads[tid].pc, pc)
    ensures Inv(cfg, Move(SetStore(w, w.threads[tid].pid, l), tid, pc))
  {
    hide Inv, InvBut, ThreadOk, StoreOk, Continues;
    var z := SetStore(w, w.threads[tid].pid, l);
    InvIsInvBut(cfg, w, tid);
    SetStoreBut(cfg, w, tid, w.threads[tid].pid, l);
    SameParts(cfg, w, z, tid);
    MoveInv(cfg, z, tid, pc);
  }

  lemma ApplyLocalKeepsInv(cfg: Config, w: World, tid: nat, n: string, v: string, prev: Option<Meta>)
    requires Inv(cfg, w) && tid in w.threads && w.threads[tid].pc == PushApply(n, v, prev)
    requires w.threads[tid].pid in w.stores
    ensures v in w.drawn && Inv(cfg, ApplyLocal(w, tid, w.stores[w.threads[tid].pid], n, v, prev))
  {
    hide Inv, InvBut, SeenSince, SetStore, Move, WholeTree;
    var pid := w.threads[tid].pid;
    var l := w.stores[pid];
    InvIsInvBut(cfg, w, tid);
    OfStore(cfg, w, pid);
    VersionOf(cfg, w, v);
    if cfg.mode.Serialized? {
      OfMeta(cfg, w, n);
      NowSeen(cfg, w, n, l.origin.began);
    }
    MutatorMoves(cfg, w, tid, FoldIn(l, n, w.drawn[v].meta), PushCache(n, v, prev));
  }

  lemma CachePushedKeepsInv(cfg: Config, w: World, tid: nat, n: string, v: string, prev: Option<Meta>)
    requires Inv(cfg, w) && tid in w.threads && w.threads[tid].pc == PushCache(n, v, prev)
    requires w.threads[tid].pid in w.stores
    ensures v in w.drawn && Inv(cfg, CachePushed(cfg, w, tid, w.stores[w.threads[tid].pid], n, v, prev))
  {
    hide Inv, InvBut, Expanded, Sourced, Cache.PutSpec, Cache.GetSpec, Cache.HitSpec, Cache.DropAllSpec, SetStore, Move;
    var pid := w.threads[tid].pid;
    var l := w.stores[pid];
    InvIsInvBut(cfg, w, tid);
    OfStore(cfg, w, pid);
    var k := Cache.Key(n, v);
    var e := Cache.Cached(k, Expanded(w.drawn[v].archive, cfg.limit), w.drawn[v].meta.sizeBytes);
    Cache.NothingInvented(l.cache, cfg.cacheBytes, e, k, n);
    MutatorMoves(cfg, w, tid, l.(cache := Cache.PutSpec(l.cache, cfg.cacheBytes, e)), PushCollect(n, v, prev));
  }

  lemma DropMetaKeepsInv(cfg: Config, w: World, tid: nat, n: string, rest: Errand)
    requires Inv(cfg, w) && !cfg.mode.Unrestricted? && tid in w.threads && w.threads[tid].pc == DelMeta(n, rest)
    ensures Inv(cfg, Move(DropMeta(w, n), tid, DelForget(n, rest)))
  {
    hide Inv, InvBut;
    DropMetaBut(cfg, w, tid, n, rest);
    MoveInv(cfg, DropMeta(w, n), tid, DelForget(n, rest));
  }

  lemma ForgetKeepsInv(cfg: Config, w: World, tid: nat, n: string, rest: Errand)
    requires Inv(cfg, w) && tid in w.threads && w.threads[tid].pc == DelForget(n, rest)
    requires w.threads[tid].pid in w.stores
    ensures Inv(cfg, ForgetLocal(w, tid, w.stores[w.threads[tid].pid], n, rest))
  {
    hide Inv, InvBut, Sourced, SetStore, Move;
    var l := w.stores[w.threads[tid].pid];
    InvIsInvBut(cfg, w, tid);
    OfStore(cfg, w, w.threads[tid].pid);
    MutatorMoves(cfg, w, tid, l.(meta := l.meta - {n}), DelDrop(n, rest));
  }

  lemma DropCachedKeepsInv(cfg: Config, w: World, tid: nat, n: string, rest: Errand)
    requires Inv(cfg, w) && tid in w.threads && w.threads[tid].pc == DelDrop(n, rest) && w.threads[tid].pid in w.stores
    ensures Inv(cfg, DropCached(w, tid, w.stores[w.threads[tid].pid], n, rest))
  {
    hide Inv, InvBut, Sourced, Cache.PutSpec, Cache.GetSpec, Cache.HitSpec, Cache.DropAllSpec, SetStore, Move;
    var l := w.stores[w.threads[tid].pid];
    InvIsInvBut(cfg, w, tid);
    OfStore(cfg, w, w.threads[tid].pid);
    var k := Cache.Key(n, "");
    Cache.NothingInvented(l.cache, cfg.cacheBytes, Cache.Cached(k, Expansion(map[], {}), 0), k, n);
    MutatorMoves(cfg, w, tid, l.(cache := Cache.DropAllSpec(l.cache, n)), DelSweep(n, rest));
  }

  lemma AdvanceKeepsInv(cfg: Config, w: World, tid: nat)
    requires Inv(cfg, w) && !cfg.mode.Unrestricted? && Enabled(cfg, w, Advance(tid))
    ensures Inv(cfg, AdvanceOf(cfg, w, tid))
  {
    hide Inv, InvBut, StoreOk, Sourced, LookInCache, GetContent, FillCache, PutContent, ApplyLocal, CachePushed,
         Collect, ForgetLocal, DropCached, NextReap, Move, End, PutMeta, DropMeta, DropContent,
         PendingOk, OwnDraft, CollectOk, RefreshOk, PrevOk, WholeTree;
    var th := w.threads[tid];
    InvIsInvBut(cfg, w, tid);
    OfStore(cfg, w, th.pid);
    match th.pc
    case OpenHave(n, m, origin) => LookInCacheKeepsInv(cfg, w, tid, w.stores[th.pid], n, m, origin);
    case OpenFetch(n, m, origin) => GetContentKeepsInv(cfg, w, tid, n, m, origin);
    case OpenPut(n, m, origin, a) =>
      SourcedDrawn(cfg, w, th.pid, n, m, origin);
      FillCacheKeepsInv(cfg, w, tid, w.stores[th.pid], n, m, origin, a);
    case PushPut(n, v) => PutContentKeepsInv(cfg, w, tid, n, v);
    case PushCommit(n, v, prev) => CommitKeepsInv(cfg, w, tid, n, v, prev);
    case PushCleanup(n, v) => CleanupKeepsInv(cfg, w, tid, n, v);
    case PushApply(n, v, prev) => ApplyLocalKeepsInv(cfg, w, tid, n, v, prev);
    case PushCache(n, v, prev) => CachePushedKeepsInv(cfg, w, tid, n, v, prev);
    case PushCollect(n, v, prev) => CollectKeepsInv(cfg, w, tid, n, v, prev);
    case DelMeta(n, rest) => DropMetaKeepsInv(cfg, w, tid, n, rest);
    case DelForget(n, rest) => ForgetKeepsInv(cfg, w, tid, n, rest);
    case DelDrop(n, rest) => DropCachedKeepsInv(cfg, w, tid, n, rest);
    case DelSweep(n, rest) => NextReapKeepsInv(cfg, w, tid, rest);
  }

  lemma {:induction false} StepKeepsInv(cfg: Config, w: World, s: Step)
    requires Inv(cfg, w) && !cfg.mode.Unrestricted? && Enabled(cfg, w, s)
    ensures Inv(cfg, Next(cfg, w, s))
  {
    match s
    case Boot(pid) => BootKeepsInv(cfg, w, pid);
    case Crash(pid) => CrashKeepsInv(cfg, w, pid);
    case Abort(_) => FailuresKeepInv(cfg, w, s);
    case StartOpen(_, _, _) => StartKeepsInv(cfg, w, s);
    case StartPush(_, _, _, _, _, _) => StartPushKeepsInv(cfg, w, s);
    case StartDelete(_, _, _) => StartKeepsInv(cfg, w, s);
    case StartReap(_, _, _) => StartKeepsInv(cfg, w, s);
    case UseLocal(tid) => UseLocalKeepsInv(cfg, w, tid);
    case BeginRefresh(tid) => BeginRefreshKeepsInv(cfg, w, tid);
    case ReadMeta(tid, n) => ReadMetaKeepsInv(cfg, w, tid, n);
    case Install(tid) => InstallKeepsInv(cfg, w, tid);
    case LookupFails(_) => FailuresKeepInv(cfg, w, s);
    case CommitFails(_) => FailuresKeepInv(cfg, w, s);
    case Sweep(tid, v) => SweepKeepsInv(cfg, w, tid, v);
    case Advance(tid) =>
      hide Inv, AdvanceOf;
      AdvanceKeepsInv(cfg, w, tid);
  }

  lemma StartInvHolds(cfg: Config)
    ensures Inv(cfg, START)
  {}

  lemma {:induction false} RunInv(cfg: Config, ws: seq<World>, steps: seq<Step>, i: nat)
    requires IsRun(cfg, ws, steps) && !cfg.mode.Unrestricted? && i < |ws|
    ensures Inv(cfg, ws[i])
  {
    hide Inv, Next, Enabled;
    if i == 0 {
      StartInvHolds(cfg);
    } else {
      RunInv(cfg, ws, steps, i - 1);
      assert ws[i - 1 + 1] == Next(cfg, ws[i - 1], steps[i - 1]);
      StepKeepsInv(cfg, ws[i - 1], steps[i - 1]);
    }
  }
}
