/** The guarantees of the publish protocol, stated of every run. */
module PublishTheorems {
  import opened Results
  import opened Archives
  import opened Backend
  import opened Publish
  import opened PublishSafety
  import opened PublishRuns
  import Cache

  /** What the metadata of a push says of its archive: the files of the tree, the bytes of all file entries. */
  ghost predicate Tells(cfg: Config, m: Meta, a: Archive) {
    var files := Expanded(a, cfg.limit).files;
    && m.fileCount == |files| && m.sizeBytes == Volume(Contents(Memory, a, cfg.limit))
    && (DistinctFiles(Contents(Memory, a, cfg.limit)) ==> m.sizeBytes == TotalBytes(files))
  }

  lemma {:induction false} MetaTells(cfg: Config, name: string, a: Archive, version: string, expiresAt: Option<int>)
    ensures
      var m := MetaFor(cfg, name, a, version, expiresAt);
      Tells(cfg, m, a) && m.name == name && m.version == version && m.expiresAt == expiresAt
  {
    hide FirstFiles, Volume, DirsOf, FileNames, TotalBytes, DistinctFiles, Contents;
    var xs := Contents(Memory, a, cfg.limit);
    FileKeys(xs);
    if DistinctFiles(xs) { VolumeIsTotal(xs); }
    assert |FirstFiles(xs)| == |FirstFiles(xs).Keys|;
  }

  /**
   In every reachable state, whatever crashed or failed before, each metadata
   object names an existing content object that holds exactly the archive
   published under that version, and tells its file count and size.
   */
  lemma {:induction false} BucketIsSafe(cfg: Config, ws: seq<World>, steps: seq<Step>, i: nat, n: string)
    requires IsRun(cfg, ws, steps) && !cfg.mode.Unrestricted? && i < |ws| && n in ws[i].metas
    ensures
      var w, m := ws[i], ws[i].metas[n];
      var k := Cache.Key(n, m.version);
      && m.name == n && m.version in w.drawn && w.drawn[m.version].name == n
      && k in w.content && w.content[k] == w.drawn[m.version].archive
      && Acceptable(Memory, w.content[k], cfg.limit) && Tells(cfg, m, w.content[k])
  {
    hide Inv, Next, Enabled, Acceptable, MetaFor, Tells;
    var w, m := ws[i], ws[i].metas[n];
    RunInv(cfg, ws, steps, i);
    OfMeta(cfg, w, n);
    OfContent(cfg, w, Cache.Key(n, m.version));
    OfDraft(cfg, w, m.version);
    MetaTells(cfg, n, w.drawn[m.version].archive, m.version, m.expiresAt);
  }

  /** The draft is what this step set out to publish. */
  ghost predicate DraftOf(cfg: Config, d: Draft, s: Step, v: string) {
    && s.StartPush? && s.version == v && d.name == s.name && d.pid == s.pid && d.archive == s.archive
    && d.meta.name == s.name && d.meta.version == v && d.meta.expiresAt == s.expiresAt && Tells(cfg, d.meta, s.archive)
  }

  lemma {:induction false} OpenDraws(cfg: Config, w: World, tid: nat, l: Local, pc: Pc)
    requires tid in w.threads && (pc.OpenHave? || pc.OpenFetch? || pc.OpenPut?)
    ensures AdvanceOpen(cfg, w, tid, l, pc).drawn == w.drawn
  {
    hide Cache.PutSpec, Cache.GetSpec, Cache.HitSpec, Expanded, Contents, Volume;
  }

  lemma {:induction false} PushDraws(cfg: Config, w: World, tid: nat, l: Local, pc: Pc)
    requires tid in w.threads
    requires pc.PushPut? || pc.PushCommit? || pc.PushCleanup? || pc.PushApply? || pc.PushCache? || pc.PushCollect?
    ensures AdvancePush(cfg, w, tid, l, pc).drawn == w.drawn
  {
    hide Cache.PutSpec, Expanded;
  }

  lemma {:induction false} DeleteDraws(w: World, tid: nat, l: Local, pc: Pc)
    requires tid in w.threads && (pc.DelMeta? || pc.DelForget? || pc.DelDrop? || pc.DelSweep?)
    ensures AdvanceDelete(w, tid, l, pc).drawn == w.drawn
  {
    hide Cache.DropAllSpec;
  }

  lemma {:induction false} AdvanceDraws(cfg: Config, w: World, tid: nat)
    requires tid in w.threads && Enabled(cfg, w, Advance(tid))
    ensures AdvanceOf(cfg, w, tid).drawn == w.drawn
  {
    hide AdvanceOpen, AdvancePush, AdvanceDelete;
    var l, pc := w.stores[w.threads[tid].pid], w.threads[tid].pc;
    if pc.OpenHave? || pc.OpenFetch? || pc.OpenPut? { OpenDraws(cfg, w, tid, l, pc); }
    else if pc.DelMeta? || pc.DelForget? || pc.DelDrop? || pc.DelSweep? { DeleteDraws(w, tid, l, pc); }
    else { PushDraws(cfg, w, tid, l, pc); }
  }

  lemma {:induction false} ResumeDraws(w: World, tid: nat, cont: Cont, snap: map<string, Meta>, origin: Origin)
    requires tid in w.threads
    ensures Resume(w, tid, cont, snap, origin).drawn == w.drawn
  {
    hide Due;
  }

  /** Only the start of a push draws a version. */
  lemma {:induction false} StepDraws(cfg: Config, w: World, s: Step, v: string)
    requires Enabled(cfg, w, s) && v in Next(cfg, w, s).drawn
    ensures
      var d := Next(cfg, w, s).drawn[v];
      (v in w.drawn && d == w.drawn[v]) || DraftOf(cfg, d, s, v)
  {
    hide AdvanceOf, Resume, MetaFor, Acceptable, Tells;
    match s
    case StartPush(_, _, name, a, expiresAt, version) =>
      MetaTells(cfg, name, a, version, expiresAt);
    case Advance(tid) =>
      AdvanceDraws(cfg, w, tid);
    case Install(tid) =>
      var p, pc := w.threads[tid].pid, w.threads[tid].pc;
      var origin := Origin(pc.began, {});
      ResumeDraws(SetStore(w, p, Local(pc.acc, true, origin, w.stores[p].cache)), tid, pc.cont, pc.acc, origin);
    case UseLocal(tid) =>
      var l := w.stores[w.threads[tid].pid];
      ResumeDraws(w, tid, w.threads[tid].pc.cont, l.meta, l.origin);
    case _ =>
  }

  lemma {:induction false} DrawnByPush(cfg: Config, ws: seq<World>, steps: seq<Step>, i: nat, v: string)
    returns (k: nat)
    requires IsRun(cfg, ws, steps) && i < |ws| && v in ws[i].drawn
    ensures k < i && DraftOf(cfg, ws[i].drawn[v], steps[k], v)
    decreases i
  {
    hide Next, Enabled, DraftOf;
    if i == 0 {
      assert false;
    }
    k := i - 1;
    assert ws[i - 1 + 1] == Next(cfg, ws[i - 1], steps[i - 1]);
    StepDraws(cfg, ws[i - 1], steps[i - 1], v);
    if !DraftOf(cfg, ws[i].drawn[v], steps[i - 1], v) {
      k := DrawnByPush(cfg, ws, steps, i - 1, v);
    }
  }

  /**
   The metadata of a site is that of one push of the run: it names the site and
   the version, carries the deadline and tells the size of what that push set out
   to publish, and the content object it names holds exactly that archive.
   */
  lemma {:induction false} MetadataIsOfOnePush(cfg: Config, ws: seq<World>, steps: seq<Step>, i: nat, n: string)
    returns (k: nat)
    requires IsRun(cfg, ws, steps) && !cfg.mode.Unrestricted? && i < |ws| && n in ws[i].metas
    ensures k < i && steps[k].StartPush? && steps[k].name == n
    ensures
      var w, m := ws[i], ws[i].metas[n];
      && m.name == n && m.version == steps[k].version && m.expiresAt == steps[k].expiresAt
      && Get(w.content, Cache.Key(n, m.version)) == Some(steps[k].archive) && Tells(cfg, m, steps[k].archive)
  {
    hide Inv, Next, Enabled, Tells, Acceptable;
    BucketIsSafe(cfg, ws, steps, i, n);
    var w, m := ws[i], ws[i].metas[n];
    k := DrawnByPush(cfg, ws, steps, i, m.version);
    RunInv(cfg, ws, steps, i);
    OfMeta(cfg, w, n);
  }

  lemma OfDraft(cfg: Config, w: World, v: string)
    requires Inv(cfg, w) && v in w.drawn
    ensures DraftOk(cfg, w, v)
  {
    hide StoreOk, ThreadOk, Excludes, DraftOk;
  }

  /**
   A successful Open returns the whole tree of one archive committed for that
   name, never a mixture.  The metadata it used stood in the bucket at some
   moment since the refresh behind it began or, only among unserialized pushers,
   is an own commit that applyLocal folded into that map after it was installed.
   */
  lemma {:induction false} OpenReturnsOneArchive(cfg: Config, ws: seq<World>, steps: seq<Step>, i: nat, tid: nat)
    requires IsRun(cfg, ws, steps) && !cfg.mode.Unrestricted? && i < |ws|
    requires tid in ws[i].threads && ws[i].threads[tid].pc.OpenDone?
    ensures
      var w, th := ws[i], ws[i].threads[tid];
      var n, m := th.pc.name, th.pc.m;
      && m.version in w.drawn && m.version in w.committed
      && w.drawn[m.version].name == n && w.drawn[m.version].meta == m
      && th.pc.fsys == Expanded(w.drawn[m.version].archive, cfg.limit)
      && (|| SeenSince(w, n, m, th.pc.origin.began)
          || (!cfg.mode.Serialized? && m.version in th.pc.origin.folded && w.drawn[m.version].pid == th.pid))
  {
    hide Inv, InvBut, Next, Enabled, SeenSince, Expanded;
    RunInv(cfg, ws, steps, i);
    InvIsInvBut(cfg, ws[i], tid);
  }

  // ----- versions are live once

  /** What one request or local action may change: the metadata by a commit or a delete, and its own process's map. */
  ghost predicate Touches(w: World, z: World, tid: nat, pc: Pc)
    requires tid in w.threads
  {
    var pid := w.threads[tid].pid;
    && w.committed <= z.committed
    && (|| z.metas == w.metas
        || (pc.PushCommit? && pc.version in w.drawn && z.metas == w.metas[pc.name := w.drawn[pc.version].meta])
        || (pc.DelMeta? && z.metas == w.metas - {pc.name}))
    && (forall p :: p in w.stores ==> p in z.stores && (p != pid ==> z.stores[p] == w.stores[p]))
    && (pid in w.stores ==>
          || z.stores[pid].meta == w.stores[pid].meta
          || (pc.PushApply? && pc.version in w.drawn &&
                z.stores[pid].meta == w.stores[pid].meta[pc.name := w.drawn[pc.version].meta])
          || (pc.DelForget? && z.stores[pid].meta == w.stores[pid].meta - {pc.name}))
    && (forall t :: t in z.threads ==>
          t in w.threads && z.threads[t].pid == w.threads[t].pid && (t != tid ==> z.threads[t] == w.threads[t]))
    && (tid in z.threads ==>
          && !z.threads[tid].pc.Refreshing?
          && (z.threads[tid].pc.PushApply? ==> pc.PushCommit? && z.threads[tid].pc.name == pc.name)
          && (z.threads[tid].pc.DelForget? ==> pc.DelMeta? && z.threads[tid].pc.name == pc.name))
  }

  lemma {:induction false} MoveTouches(w: World, z: World, tid: nat, l: Local, pc: Pc, pc': Pc)
    requires tid in w.threads && w.threads[tid].pid in w.stores
    requires l.meta == w.stores[w.threads[tid].pid].meta
    requires z.metas == w.metas && z.committed == w.committed && z.stores == w.stores && z.threads == w.threads
    requires !pc'.Refreshing? && !pc'.PushApply? && !pc'.DelForget?
    ensures Touches(w, Move(SetStore(z, w.threads[tid].pid, l), tid, pc'), tid, pc)
    ensures Touches(w, Move(z, tid, pc'), tid, pc)
    ensures Touches(w, End(z, tid), tid, pc)
  {}

  lemma {:induction false} OpenTouches(cfg: Config, w: World, tid: nat, l: Local, pc: Pc)
    requires tid in w.threads && w.threads[tid].pid in w.stores && l == w.stores[w.threads[tid].pid]
    requires pc.OpenHave? || pc.OpenFetch? || pc.OpenPut?
    ensures Touches(w, AdvanceOpen(cfg, w, tid, l, pc), tid, pc)
  {
    hide Touches, Move, SetStore, End, Cache.PutSpec, Cache.GetSpec, Cache.HitSpec, Expanded, Contents, Volume;
    match pc
    case OpenHave(n, m, origin) =>
      var k := Cache.Key(n, m.version);
      var l' := l.(cache := Cache.GetSpec(l.cache, cfg.cacheBytes, k));
      var hit := Cache.HitSpec(l.cache, cfg.cacheBytes, k);
      MoveTouches(w, w, tid, l', pc, if hit.Some? then OpenDone(n, m, origin, hit.value) else OpenFetch(n, m, origin));
    case OpenFetch(n, m, origin) =>
      var k := Cache.Key(n, m.version);
      MoveTouches(w, w, tid, l, pc, if k in w.content then OpenPut(n, m, origin, w.content[k]) else pc);
    case OpenPut(n, m, origin, a) =>
      var fsys, size := Expanded(a, cfg.limit), Volume(Contents(Memory, a, cfg.limit));
      MoveTouches(w, w, tid, CacheAdd(cfg, l, Cache.Key(n, m.version), fsys, size), pc, OpenDone(n, m, origin, fsys));
  }

  lemma {:induction false} PushTouches(cfg: Config, w: World, tid: nat, l: Local, pc: Pc)
    requires tid in w.threads && w.threads[tid].pid in w.stores && l == w.stores[w.threads[tid].pid]
    requires pc.PushPut? || pc.PushCommit? || pc.PushCleanup? || pc.PushApply? || pc.PushCache? || pc.PushCollect?
    ensures Touches(w, AdvancePush(cfg, w, tid, l, pc), tid, pc)
  {
    hide Touches, Move, SetStore, End, Cache.PutSpec, Cache.GetSpec, Cache.HitSpec, Expanded, Contents, Volume;
    var n, v := pc.name, pc.version;
    MoveTouches(w, w, tid, l, pc, Snap(ForOpen(n)));
    match pc
    case PushPut(_, _) =>
      if v in w.drawn {
        var z := w.(content := w.content[Cache.Key(n, v) := w.drawn[v].archive]);
        MoveTouches(w, z, tid, l, pc, Snap(ForPush(n, v)));
      }
    case PushCommit(_, _, prev) =>
      if v in w.drawn { CommitTouches(w, tid, pc); }
    case PushCleanup(_, _) =>
      MoveTouches(w, DropContent(w, Cache.Key(n, v)), tid, l, pc, Snap(ForOpen(n)));
    case PushApply(_, _, prev) =>
      if v in w.drawn { ApplyTouches(w, tid, l, pc); }
    case PushCache(_, _, prev) =>
      if v in w.drawn {
        var l' := CacheAdd(cfg, l, Cache.Key(n, v), Expanded(w.drawn[v].archive, cfg.limit), w.drawn[v].meta.sizeBytes);
        MoveTouches(w, w, tid, l', pc, PushCollect(n, v, prev));
      }
    case PushCollect(_, _, prev) =>
      if prev.Some? {
        MoveTouches(w, DropContent(w, Cache.Key(n, prev.value.version)), tid, l, pc, Snap(ForOpen(n)));
      }
  }

  lemma {:induction false} CommitTouches(w: World, tid: nat, pc: Pc)
    requires tid in w.threads && pc.PushCommit? && pc.version in w.drawn
    ensures
      var z := PutMeta(w, pc.name, w.drawn[pc.version].meta);
      Touches(w, Move(z, tid, PushApply(pc.name, pc.version, pc.prev)), tid, pc)
  {}

  lemma {:induction false} ApplyTouches(w: World, tid: nat, l: Local, pc: Pc)
    requires tid in w.threads && w.threads[tid].pid in w.stores && l == w.stores[w.threads[tid].pid]
    requires pc.PushApply? && pc.version in w.drawn
    ensures Touches(w, ApplyLocal(w, tid, l, pc.name, pc.version, pc.prev), tid, pc)
  {}

  lemma {:induction false} DeleteTouches(w: World, tid: nat, l: Local, pc: Pc)
    requires tid in w.threads && w.threads[tid].pid in w.stores && l == w.stores[w.threads[tid].pid]
    requires pc.DelMeta? || pc.DelForget? || pc.DelDrop? || pc.DelSweep?
    ensures Touches(w, AdvanceDelete(w, tid, l, pc), tid, pc)
  {
    hide Cache.DropAllSpec;
  }

  lemma {:induction false} AdvanceTouches(cfg: Config, w: World, tid: nat)
    requires tid in w.threads && Enabled(cfg, w, Advance(tid))
    ensures Touches(w, AdvanceOf(cfg, w, tid), tid, w.threads[tid].pc)
  {
    hide Touches, AdvanceOpen, AdvancePush, AdvanceDelete;
    var l, pc := w.stores[w.threads[tid].pid], w.threads[tid].pc;
    if pc.OpenHave? || pc.OpenFetch? || pc.OpenPut? { OpenTouches(cfg, w, tid, l, pc); }
    else if pc.DelMeta? || pc.DelForget? || pc.DelDrop? || pc.DelSweep? { DeleteTouches(w, tid, l, pc); }
    else { PushTouches(cfg, w, tid, l, pc); }
  }

  lemma ResumeKeeps(w: World, tid: nat, cont: Cont, snap: map<string, Meta>, origin: Origin)
    requires tid in w.threads
    ensures
      var z := Resume(w, tid, cont, snap, origin);
      z.stores == w.stores && z.metas == w.metas && z.committed == w.committed
  {
    hide Due;
  }

  lemma OtherMetas(cfg: Config, w: World, s: Step)
    requires Enabled(cfg, w, s) && !s.Advance?
    ensures Next(cfg, w, s).metas == w.metas && Next(cfg, w, s).committed == w.committed
  {
    hide MetaFor, Resume, Acceptable, AdvanceOf;
    if s.Install? {
      var p, pc := w.threads[s.tid].pid, w.threads[s.tid].pc;
      var origin := Origin(pc.began, {});
      ResumeKeeps(SetStore(w, p, Local(pc.acc, true, origin, w.stores[p].cache)), s.tid, pc.cont, pc.acc, origin);
    } else if s.UseLocal? {
      var l := w.stores[w.threads[s.tid].pid];
      ResumeKeeps(w, s.tid, w.threads[s.tid].pc.cont, l.meta, l.origin);
    }
  }

  /** The only steps that touch the metadata are a commit and a delete's first request. */
  lemma {:induction false} MetasChange(cfg: Config, w: World, s: Step)
    requires Enabled(cfg, w, s)
    ensures
      var z := Next(cfg, w, s);
      && w.committed <= z.committed
      && (|| z.metas == w.metas
          || (s.Advance? && w.threads[s.tid].pc.PushCommit? && w.threads[s.tid].pc.version in w.drawn &&
              z.metas == w.metas[w.threads[s.tid].pc.name := w.drawn[w.threads[s.tid].pc.version].meta])
          || (s.Advance? && w.threads[s.tid].pc.DelMeta? && z.metas == w.metas - {w.threads[s.tid].pc.name}))
  {
    if s.Advance? {
      hide AdvanceOf;
      AdvanceTouches(cfg, w, s.tid);
    } else {
      hide Next;
      OtherMetas(cfg, w, s);
    }
  }

  /** What a push is about to commit was never committed before. */
  lemma CommitsFresh(cfg: Config, w: World, t: nat)
    requires Inv(cfg, w) && t in w.threads && w.threads[t].pc.PushCommit?
    ensures var v := w.threads[t].pc.version; v in w.drawn && w.drawn[v].meta.version == v && v !in w.committed
  {
    hide Inv, InvBut, CollectOk, RefreshOk, OpenOk;
    InvIsInvBut(cfg, w, t);
    VersionOf(cfg, w, w.threads[t].pc.version);
  }

  lemma StepRevivesNothing(cfg: Config, w: World, s: Step, n: string, v: string)
    requires Inv(cfg, w) && Enabled(cfg, w, s) && v in w.committed && !Live(w, n, v)
    ensures v in Next(cfg, w, s).committed && !Live(Next(cfg, w, s), n, v)
  {
    hide Inv, Next;
    MetasChange(cfg, w, s);
    if s.Advance? && w.threads[s.tid].pc.PushCommit? { CommitsFresh(cfg, w, s.tid); }
  }

  /** A version that was committed and is no longer live never becomes live again. */
  lemma {:induction false} SupersededStaysDead(
    cfg: Config, ws: seq<World>, steps: seq<Step>, i: nat, j: nat, n: string, v: string)
    requires IsRun(cfg, ws, steps) && !cfg.mode.Unrestricted? && i <= j < |ws|
    requires v in ws[i].committed && !Live(ws[i], n, v)
    ensures v in ws[j].committed && !Live(ws[j], n, v)
    decreases j
  {
    hide Inv, Next, Enabled, Live;
    if i < j {
      SupersededStaysDead(cfg, ws, steps, i, j - 1, n, v);
      RunInv(cfg, ws, steps, j - 1);
      assert ws[j - 1 + 1] == Next(cfg, ws[j - 1], steps[j - 1]);
      StepRevivesNothing(cfg, ws[j - 1], steps[j - 1], n, v);
    }
  }

  // ----- local maps

  lemma OtherLocal(cfg: Config, w: World, s: Step, pid: nat)
    requires Enabled(cfg, w, s) && !s.Advance? && pid in w.stores && s != Crash(pid)
    ensures
      var z := Next(cfg, w, s);
      && pid in z.stores
      && (|| z.stores[pid].meta == w.stores[pid].meta
          || (s.Install? && w.threads[s.tid].pid == pid && z.stores[pid].meta == w.threads[s.tid].pc.acc))
  {
    hide AdvanceOf, Resume, MetaFor, Acceptable;
    if s.Install? {
      var p, pc := w.threads[s.tid].pid, w.threads[s.tid].pc;
      var origin := Origin(pc.began, {});
      ResumeKeeps(SetStore(w, p, Local(pc.acc, true, origin, w.stores[p].cache)), s.tid, pc.cont, pc.acc, origin);
    } else if s.UseLocal? {
      var l := w.stores[w.threads[s.tid].pid];
      ResumeKeeps(w, s.tid, w.threads[s.tid].pc.cont, l.meta, l.origin);
    }
  }

  /** Local maps change by an install, an own commit's applyLocal or an own delete's forgetLocal. */
  lemma {:induction false} LocalChange(cfg: Config, w: World, s: Step, pid: nat)
    requires Enabled(cfg, w, s) && pid in w.stores && s != Crash(pid)
    ensures
      var z := Next(cfg, w, s);
      && pid in z.stores
      && (|| z.stores[pid].meta == w.stores[pid].meta
          || (s.Install? && w.threads[s.tid].pid == pid && z.stores[pid].meta == w.threads[s.tid].pc.acc)
          || (s.Advance? && w.threads[s.tid].pid == pid && w.threads[s.tid].pc.PushApply? &&
              var n, v := w.threads[s.tid].pc.name, w.threads[s.tid].pc.version;
              v in w.drawn && z.stores[pid].meta == w.stores[pid].meta[n := w.drawn[v].meta])
          || (s.Advance? && w.threads[s.tid].pid == pid && w.threads[s.tid].pc.DelForget? &&
              z.stores[pid].meta == w.stores[pid].meta - {w.threads[s.tid].pc.name}))
  {
    if s.Advance? {
      hide AdvanceOf;
      AdvanceTouches(cfg, w, s.tid);
    } else {
      hide Next;
      OtherLocal(cfg, w, s, pid);
    }
  }
}
