/** Where the metadata a reader uses comes from, step by step. */
module PublishOrigins {
  import opened Publish
  import opened PublishSafety
  import opened PublishRuns
  import opened PublishTheorems
  import opened Archives
  import Cache

  /** The step is the applyLocal of version v by a thread of the process. */
  ghost predicate Folds(w: World, s: Step, pid: nat, v: string) {
    && s.Advance? && s.tid in w.threads && w.threads[s.tid].pid == pid
    && w.threads[s.tid].pc.PushApply? && w.threads[s.tid].pc.version == v
  }

  /** The step starts the process or installs a map in it. */
  ghost predicate Renews(w: World, s: Step, pid: nat) {
    s == Boot(pid) || s == Crash(pid) || (s.Install? && s.tid in w.threads && w.threads[s.tid].pid == pid)
  }

  /** A request or local action leaves every origin alone, but for the applyLocal of its own process. */
  ghost predicate KeepsOrigins(w: World, z: World, pid: nat, pc: Pc) {
    && z.stores.Keys == w.stores.Keys
    && forall p :: p in w.stores ==>
         || z.stores[p].origin == w.stores[p].origin
         || (p == pid && pc.PushApply? && pc.version in w.drawn &&
             z.stores[p].origin.folded == w.stores[p].origin.folded + {w.drawn[pc.version].meta.version})
  }

  lemma {:induction false} OpenKeepsOrigins(cfg: Config, w: World, tid: nat, l: Local, pc: Pc)
    requires tid in w.threads && w.threads[tid].pid in w.stores && l == w.stores[w.threads[tid].pid]
    requires pc.OpenHave? || pc.OpenFetch? || pc.OpenPut?
    ensures KeepsOrigins(w, AdvanceOpen(cfg, w, tid, l, pc), w.threads[tid].pid, pc)
  {
    hide Cache.PutSpec, Cache.GetSpec, Cache.HitSpec, Cache.DropAllSpec, Expanded, Contents, Volume, MetaFor;
    hide Due, Acceptable;
  }

  lemma {:induction false} PushKeepsOrigins(cfg: Config, w: World, tid: nat, l: Local, pc: Pc)
    requires tid in w.threads && w.threads[tid].pid in w.stores && l == w.stores[w.threads[tid].pid]
    requires pc.PushPut? || pc.PushCommit? || pc.PushCleanup? || pc.PushApply? || pc.PushCache? || pc.PushCollect?
    ensures KeepsOrigins(w, AdvancePush(cfg, w, tid, l, pc), w.threads[tid].pid, pc)
  {
    hide Cache.PutSpec, Cache.GetSpec, Cache.HitSpec, Cache.DropAllSpec, Expanded, Contents, Volume, MetaFor;
    hide Due, Acceptable;
  }

  lemma {:induction false} DeleteKeepsOrigins(w: World, tid: nat, l: Local, pc: Pc)
    requires tid in w.threads && w.threads[tid].pid in w.stores && l == w.stores[w.threads[tid].pid]
    requires pc.DelMeta? || pc.DelForget? || pc.DelDrop? || pc.DelSweep?
    ensures KeepsOrigins(w, AdvanceDelete(w, tid, l, pc), w.threads[tid].pid, pc)
  {
    hide Cache.DropAllSpec;
  }

  lemma {:induction false} AdvanceKeepsOrigins(cfg: Config, w: World, tid: nat)
    requires tid in w.threads && Enabled(cfg, w, Advance(tid))
    ensures KeepsOrigins(w, AdvanceOf(cfg, w, tid), w.threads[tid].pid, w.threads[tid].pc)
  {
    hide KeepsOrigins, AdvanceOpen, AdvancePush, AdvanceDelete;
    var l, pc := w.stores[w.threads[tid].pid], w.threads[tid].pc;
    if pc.OpenHave? || pc.OpenFetch? || pc.OpenPut? { OpenKeepsOrigins(cfg, w, tid, l, pc); }
    else if pc.DelMeta? || pc.DelForget? || pc.DelDrop? || pc.DelSweep? { DeleteKeepsOrigins(w, tid, l, pc); }
    else { PushKeepsOrigins(cfg, w, tid, l, pc); }
  }

  lemma {:induction false} OriginElsewhere(cfg: Config, w: World, s: Step, pid: nat)
    requires Enabled(cfg, w, s) && !s.Advance? && pid in Next(cfg, w, s).stores
    ensures
      var z := Next(cfg, w, s);
      if Renews(w, s, pid) then z.stores[pid].origin.folded == {}
      else pid in w.stores && z.stores[pid].origin == w.stores[pid].origin
  {
    hide AdvanceOf, Resume, MetaFor, Acceptable;
    if s.Install? {
      var p, pc := w.threads[s.tid].pid, w.threads[s.tid].pc;
      var origin := Origin(pc.began, {});
      ResumeKeeps(SetStore(w, p, Local(pc.acc, true, origin, w.stores[p].cache)), s.tid, pc.cont, pc.acc, origin);
    } else if s.UseLocal? {
      var l := w.stores[w.threads[s.tid].pid];
      ResumeKeeps(w, s.tid, w.threads[s.tid].pc.cont, l.meta, l.origin);
    }
  }

  lemma {:induction false} FoldedStep(cfg: Config, w: World, s: Step, pid: nat, v: string)
    requires Inv(cfg, w) && Enabled(cfg, w, s)
    requires pid in Next(cfg, w, s).stores && v in Next(cfg, w, s).stores[pid].origin.folded
    ensures !Renews(w, s, pid)
    ensures Folds(w, s, pid, v) || (pid in w.stores && v in w.stores[pid].origin.folded)
  {
    hide Inv, AdvanceOf;
    if s.Advance? {
      AdvanceKeepsOrigins(cfg, w, s.tid);
      if w.threads[s.tid].pc.PushApply? && w.threads[s.tid].pc.version in w.drawn {
        VersionOf(cfg, w, w.threads[s.tid].pc.version);
      }
    } else {
      hide Next;
      OriginElsewhere(cfg, w, s, pid);
    }
  }

  /**
   A version counts as folded in exactly because this process's applyLocal put
   it there, and since then the process has neither restarted nor installed a
   map: the own commit is later than the map it is seen in.
   */
  lemma {:induction false} FoldedSinceInstall(
    cfg: Config, ws: seq<World>, steps: seq<Step>, i: nat, pid: nat, v: string)
    returns (k: nat)
    requires IsRun(cfg, ws, steps) && !cfg.mode.Unrestricted? && i < |ws|
    requires pid in ws[i].stores && v in ws[i].stores[pid].origin.folded
    ensures k < i && Folds(ws[k], steps[k], pid, v)
    ensures forall j :: k < j < i ==> !Renews(ws[j], steps[j], pid)
    decreases i
  {
    hide Inv, Next, Enabled, Folds, Renews;
    if i == 0 {
      assert false;
    }
    assert ws[i - 1 + 1] == Next(cfg, ws[i - 1], steps[i - 1]);
    RunInv(cfg, ws, steps, i - 1);
    FoldedStep(cfg, ws[i - 1], steps[i - 1], pid, v);
    k := i - 1;
    if !Folds(ws[i - 1], steps[i - 1], pid, v) {
      k := FoldedSinceInstall(cfg, ws, steps, i - 1, pid, v);
    }
  }

  ghost predicate HasOrigin(pc: Pc) {
    pc.OpenHave? || pc.OpenFetch? || pc.OpenPut? || pc.OpenDone?
  }

  /**
   A thread has its metadata from where it had it before, from the map in memory,
   or from a map it has just installed.
   */
  ghost predicate TookOrigin(w: World, s: Step, z: World, t: nat)
    requires t in z.threads && HasOrigin(z.threads[t].pc)
  {
    && t in w.threads && w.threads[t].pid == z.threads[t].pid
    && (|| (HasOrigin(w.threads[t].pc) && z.threads[t].pc.origin == w.threads[t].pc.origin)
        || (s == UseLocal(t) && w.threads[t].pid in w.stores &&
              z.threads[t].pc.origin == w.stores[w.threads[t].pid].origin)
        || (s == Install(t) && z.threads[t].pc.origin.folded == {}))
  }

  lemma {:induction false} ResumeOrigin(w: World, tid: nat, cont: Cont, snap: map<string, Meta>, origin: Origin, t: nat)
    requires tid in w.threads && t in Resume(w, tid, cont, snap, origin).threads
    ensures
      var z := Resume(w, tid, cont, snap, origin);
      && t in w.threads && z.threads[t].pid == w.threads[t].pid
      && (t != tid ==> z.threads[t] == w.threads[t])
      && (t == tid && HasOrigin(z.threads[t].pc) ==> z.threads[t].pc.origin == origin)
  {
    hide Due;
  }

  lemma {:induction false} OpenOrigin(cfg: Config, w: World, tid: nat, l: Local, pc: Pc)
    requires tid in w.threads && (pc.OpenHave? || pc.OpenFetch? || pc.OpenPut?)
    ensures
      var z := AdvanceOpen(cfg, w, tid, l, pc);
      tid in z.threads ==> HasOrigin(z.threads[tid].pc) && z.threads[tid].pc.origin == pc.origin
  {
    hide Cache.PutSpec, Cache.GetSpec, Cache.HitSpec, Expanded, Contents, Volume;
  }

  lemma {:induction false} PushOrigin(cfg: Config, w: World, tid: nat, l: Local, pc: Pc)
    requires tid in w.threads
    requires pc.PushPut? || pc.PushCommit? || pc.PushCleanup? || pc.PushApply? || pc.PushCache? || pc.PushCollect?
    ensures var z := AdvancePush(cfg, w, tid, l, pc); tid in z.threads ==> !HasOrigin(z.threads[tid].pc)
  {
    hide Cache.PutSpec, Expanded;
  }

  lemma {:induction false} DeleteOrigin(w: World, tid: nat, l: Local, pc: Pc)
    requires tid in w.threads && (pc.DelMeta? || pc.DelForget? || pc.DelDrop? || pc.DelSweep?)
    ensures var z := AdvanceDelete(w, tid, l, pc); tid in z.threads ==> !HasOrigin(z.threads[tid].pc)
  {
    hide Cache.DropAllSpec;
  }

  lemma {:induction false} AdvanceOrigin(cfg: Config, w: World, tid: nat, t: nat)
    requires tid in w.threads && Enabled(cfg, w, Advance(tid)) && t in AdvanceOf(cfg, w, tid).threads
    requires HasOrigin(AdvanceOf(cfg, w, tid).threads[t].pc)
    ensures TookOrigin(w, Advance(tid), AdvanceOf(cfg, w, tid), t)
  {
    hide AdvanceOpen, AdvancePush, AdvanceDelete;
    AdvanceThreads(cfg, w, tid, t);
    var l, pc := w.stores[w.threads[tid].pid], w.threads[tid].pc;
    if pc.OpenHave? || pc.OpenFetch? || pc.OpenPut? { OpenOrigin(cfg, w, tid, l, pc); }
    else if pc.DelMeta? || pc.DelForget? || pc.DelDrop? || pc.DelSweep? { DeleteOrigin(w, tid, l, pc); }
    else { PushOrigin(cfg, w, tid, l, pc); }
  }

  lemma {:induction false} AdvanceThreads(cfg: Config, w: World, tid: nat, t: nat)
    requires tid in w.threads && Enabled(cfg, w, Advance(tid)) && t in AdvanceOf(cfg, w, tid).threads
    ensures
      var z := AdvanceOf(cfg, w, tid);
      t in w.threads && z.threads[t].pid == w.threads[t].pid && (t != tid ==> z.threads[t] == w.threads[t])
  {
    hide AdvanceOf;
    AdvanceTouches(cfg, w, tid);
  }

  lemma {:induction false} StepOrigin(cfg: Config, w: World, s: Step, t: nat)
    requires Enabled(cfg, w, s) && t in Next(cfg, w, s).threads && HasOrigin(Next(cfg, w, s).threads[t].pc)
    ensures TookOrigin(w, s, Next(cfg, w, s), t)
  {
    hide AdvanceOf, Resume, MetaFor, Acceptable;
    if s.Advance? {
      AdvanceOrigin(cfg, w, s.tid, t);
    } else if s.Install? {
      var p, pc := w.threads[s.tid].pid, w.threads[s.tid].pc;
      var origin := Origin(pc.began, {});
      ResumeOrigin(SetStore(w, p, Local(pc.acc, true, origin, w.stores[p].cache)), s.tid, pc.cont, pc.acc, origin, t);
    } else if s.UseLocal? {
      var l := w.stores[w.threads[s.tid].pid];
      ResumeOrigin(w, s.tid, w.threads[s.tid].pc.cont, l.meta, l.origin, t);
    }
  }

  /** A reader that counts a version as folded in took it, at its lookup, from a map that did. */
  lemma {:induction false} TakenFromMap(
    cfg: Config, ws: seq<World>, steps: seq<Step>, i: nat, tid: nat, v: string)
    returns (j: nat)
    requires IsRun(cfg, ws, steps) && i < |ws| && tid in ws[i].threads
    requires HasOrigin(ws[i].threads[tid].pc) && v in ws[i].threads[tid].pc.origin.folded
    ensures j < i && steps[j] == UseLocal(tid)
    ensures ws[i].threads[tid].pid in ws[j].stores && v in ws[j].stores[ws[i].threads[tid].pid].origin.folded
    decreases i
  {
    hide Next, Enabled, HasOrigin;
    if i == 0 {
      assert false;
    }
    assert ws[i - 1 + 1] == Next(cfg, ws[i - 1], steps[i - 1]);
    StepOrigin(cfg, ws[i - 1], steps[i - 1], tid);
    j := i - 1;
    var pid := ws[i].threads[tid].pid;
    if steps[j] != UseLocal(tid) || pid !in ws[j].stores || v !in ws[j].stores[pid].origin.folded {
      j := TakenFromMap(cfg, ws, steps, i - 1, tid, v);
    }
  }

  /**
   The own commit a reader among unserialized pushers may see is later than the
   map it looked it up in: applyLocal put it there at step k, the lookup is step
   j, and in between the process neither restarted nor installed a map.
   */
  lemma {:induction false} OwnCommitIsLater(cfg: Config, ws: seq<World>, steps: seq<Step>, i: nat, tid: nat, v: string)
    returns (k: nat, j: nat)
    requires IsRun(cfg, ws, steps) && !cfg.mode.Unrestricted? && i < |ws| && tid in ws[i].threads
    requires HasOrigin(ws[i].threads[tid].pc) && v in ws[i].threads[tid].pc.origin.folded
    ensures k < j < i && steps[j] == UseLocal(tid) && Folds(ws[k], steps[k], ws[i].threads[tid].pid, v)
    ensures forall x :: k < x < j ==> !Renews(ws[x], steps[x], ws[i].threads[tid].pid)
  {
    hide Next, Enabled, HasOrigin, Folds, Renews;
    j := TakenFromMap(cfg, ws, steps, i, tid, v);
    k := FoldedSinceInstall(cfg, ws, steps, j, ws[i].threads[tid].pid, v);
  }
}
