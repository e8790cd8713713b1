/** Short runs that show which hypotheses the guarantees of the publish protocol need. */
module PublishWitnesses {
  import opened Results
  import opened Archives
  import opened Publish
  import Cache

  lemma Then(cfg: Config, ws: seq<World>, steps: seq<Step>, s: Step) returns (ws': seq<World>, steps': seq<Step>)
    requires IsPath(cfg, ws, steps) && Enabled(cfg, ws[|steps|], s)
    ensures IsPath(cfg, ws', steps') && ws'[0] == ws[0]
    ensures steps' == steps + [s] && ws <= ws' && ws'[|steps'|] == Next(cfg, ws[|steps|], s)
  {
    hide Next, Enabled;
    ws', steps' := ws + [Next(cfg, ws[|steps|], s)], steps + [s];
  }

  const EMPTY_ARCHIVE: Archive := Archive([], false)

  lemma EmptyAcceptable(limit: Int64)
    ensures Acceptable(Memory, EMPTY_ARCHIVE, limit)
  {
    assert Contents(Memory, EMPTY_ARCHIVE, limit) == [];
  }

  ghost function DraftOfEmpty(cfg: Config, pid: nat, n: string, v: string): Draft {
    Draft(n, pid, EMPTY_ARCHIVE, MetaFor(cfg, n, EMPTY_ARCHIVE, v, None))
  }

  ghost function Begun(cfg: Config, tid: nat, pid: nat, n: string, v: string): Step {
    StartPush(tid, pid, n, EMPTY_ARCHIVE, None, v)
  }

  lemma StartPushStep(cfg: Config, w: World, tid: nat, pid: nat, n: string, v: string)
    requires tid !in w.threads && pid in w.stores && LockFree(cfg, w) && v !in w.drawn
    ensures Enabled(cfg, w, Begun(cfg, tid, pid, n, v))
    ensures
      var z := Next(cfg, w, Begun(cfg, tid, pid, n, v));
      && z.metas == w.metas && z.content == w.content && z.stores == w.stores
      && z.threads == w.threads[tid := Thread(pid, PushPut(n, v))]
      && z.drawn == w.drawn[v := DraftOfEmpty(cfg, pid, n, v)]
  {
    hide AdvanceOf, Resume, MetaFor, Acceptable;
    EmptyAcceptable(cfg.limit);
  }

  lemma PutContentStep(cfg: Config, w: World, tid: nat, pid: nat, n: string, v: string)
    requires tid in w.threads && w.threads[tid] == Thread(pid, PushPut(n, v)) && pid in w.stores
    requires v in w.drawn && w.drawn[v].archive == EMPTY_ARCHIVE
    ensures Enabled(cfg, w, Advance(tid))
    ensures
      var z := Next(cfg, w, Advance(tid));
      && z.metas == w.metas && z.stores == w.stores && z.drawn == w.drawn
      && z.content == w.content[Cache.Key(n, v) := EMPTY_ARCHIVE]
      && z.threads == w.threads[tid := Thread(pid, Snap(ForPush(n, v)))]
  {
    hide AdvanceOpen, AdvanceDelete, Resume;
  }

  lemma LookupFailsStep(cfg: Config, w: World, tid: nat, pid: nat, n: string, v: string)
    requires tid in w.threads && w.threads[tid] == Thread(pid, Snap(ForPush(n, v)))
    ensures Enabled(cfg, w, LookupFails(tid))
    ensures Next(cfg, w, LookupFails(tid)) == w.(threads := w.threads[tid := Thread(pid, PushCommit(n, v, None))])
  {
    hide AdvanceOf, Resume;
  }

  lemma CommitStep(cfg: Config, w: World, tid: nat, pid: nat, n: string, v: string)
    requires tid in w.threads && w.threads[tid] == Thread(pid, PushCommit(n, v, None)) && pid in w.stores
    requires v in w.drawn
    ensures Enabled(cfg, w, Advance(tid))
    ensures
      var z := Next(cfg, w, Advance(tid));
      && z.metas == w.metas[n := w.drawn[v].meta] && z.content == w.content && z.stores == w.stores &&
           z.drawn == w.drawn
      && z.threads == w.threads[tid := Thread(pid, PushApply(n, v, None))]
  {
    hide AdvanceOpen, AdvanceDelete, Resume;
  }

  lemma ApplyStep(cfg: Config, w: World, tid: nat, pid: nat, n: string, v: string)
    requires tid in w.threads && w.threads[tid] == Thread(pid, PushApply(n, v, None)) && pid in w.stores && v in w.drawn
    ensures Enabled(cfg, w, Advance(tid))
    ensures
      var z, l := Next(cfg, w, Advance(tid)), w.stores[pid];
      && z.metas == w.metas && z.drawn == w.drawn
      && z.stores == w.stores[pid := FoldIn(l, n, w.drawn[v].meta)]
      && z.threads == w.threads[tid := Thread(pid, PushCache(n, v, None))]
  {
    hide AdvanceOpen, AdvanceDelete, Resume;
  }

  /** A process with no threads has booted. */
  lemma Booted(cfg: Config) returns (ws: seq<World>, steps: seq<Step>)
    ensures IsPath(cfg, ws, steps) && |steps| == 1 && ws[0] == START
    ensures ws[1] == START.(stores := map[0 := Local(map[], false, Origin(0, {}), [])])
  {
    hide AdvanceOf, Resume;
    ws, steps := [START], [];
    ws, steps := Then(cfg, ws, steps, Boot(0));
  }

  lemma StartRefreshSteps(cfg: Config, w: World, tid: nat, pid: nat, n: string)
    requires tid !in w.threads && pid in w.stores && w.metas == map[] && |w.log| == 1
    ensures Enabled(cfg, w, StartOpen(tid, pid, n))
    ensures Enabled(cfg, Next(cfg, w, StartOpen(tid, pid, n)), BeginRefresh(tid))
    ensures
      var z := Next(cfg, Next(cfg, w, StartOpen(tid, pid, n)), BeginRefresh(tid));
      && z.metas == w.metas && z.content == w.content && z.stores == w.stores && z.drawn == w.drawn && z.lock == w.lock
      && z.threads == w.threads[tid := Thread(pid, Refreshing(ForOpen(n), 0, {}, map[]))]
  {
    hide AdvanceOf, Resume;
    var y := Next(cfg, w, StartOpen(tid, pid, n));
    assert y.threads == w.threads[tid := Thread(pid, Snap(ForOpen(n)))];
    assert y.metas.Keys == {};
  }

  /**
   A refresh that began before a push hides it: its older map is installed
   after applyLocal, and the process no longer knows the site it has just
   published, although the bucket holds it.
   */
  lemma {:induction false} OverlappingRefreshHidesOwnWrite(
    limit: Int64, n: string)
    returns (ws: seq<World>, steps: seq<Step>)
    ensures IsRun(Config(Serialized, limit, 0), ws, steps) && |steps| == 9
    ensures
      var z := ws[9];
      && n in z.metas && z.metas[n].version == "v"
      && 0 in z.stores && z.stores[0].valid && n !in z.stores[0].meta
    ensures steps[7] == Advance(1) && 0 in ws[8].stores && n in ws[8].stores[0].meta
  {
    hide Next, Enabled;
    var cfg := Config(Serialized, limit, 0);
    ws, steps := Booted(cfg);
    StartRefreshSteps(cfg, ws[1], 0, 0, n);
    ws, steps := Then(cfg, ws, steps, StartOpen(0, 0, n));
    ws, steps := Then(cfg, ws, steps, BeginRefresh(0));
    StartPushStep(cfg, ws[3], 1, 0, n, "v");
    ws, steps := Then(cfg, ws, steps, Begun(cfg, 1, 0, n, "v"));
    PutContentStep(cfg, ws[4], 1, 0, n, "v");
    ws, steps := Then(cfg, ws, steps, Advance(1));
    LookupFailsStep(cfg, ws[5], 1, 0, n, "v");
    ws, steps := Then(cfg, ws, steps, LookupFails(1));
    CommitStep(cfg, ws[6], 1, 0, n, "v");
    ws, steps := Then(cfg, ws, steps, Advance(1));
    ApplyStep(cfg, ws[7], 1, 0, n, "v");
    ws, steps := Then(cfg, ws, steps, Advance(1));
    InstallStep(cfg, ws[8], 0, 0, n);
    ws, steps := Then(cfg, ws, steps, Install(0));
  }

  lemma InstallStep(cfg: Config, w: World, tid: nat, pid: nat, n: string)
    requires tid in w.threads && w.threads[tid] == Thread(pid, Refreshing(ForOpen(n), 0, {}, map[])) && pid in w.stores
    ensures Enabled(cfg, w, Install(tid))
    ensures
      var z := Next(cfg, w, Install(tid));
      z.metas == w.metas && z.stores == w.stores[pid := Local(map[], true, Origin(0, {}), w.stores[pid].cache)]
  {
    hide AdvanceOf;
  }

  // ----- deletes need the lock

  lemma StartDeleteSteps(cfg: Config, w: World, tid: nat, pid: nat, n: string)
    requires tid !in w.threads && pid in w.stores && w.metas.Keys == {n} && cfg.mode.Unrestricted?
    ensures Enabled(cfg, w, StartDelete(tid, pid, n))
    ensures Enabled(cfg, Next(cfg, w, StartDelete(tid, pid, n)), BeginRefresh(tid))
    ensures
      var z := Next(cfg, Next(cfg, w, StartDelete(tid, pid, n)), BeginRefresh(tid));
      && z.metas == w.metas && z.content == w.content && z.stores == w.stores && z.drawn == w.drawn
      && exists began ::
           z.threads == w.threads[tid := Thread(pid, Refreshing(ForDelete(n, JUST_ONE), began, {n}, map[]))]
  {
    hide AdvanceOf, Resume;
    var y := Next(cfg, w, StartDelete(tid, pid, n));
    assert y.threads == w.threads[tid := Thread(pid, Snap(ForDelete(n, JUST_ONE)))];
  }

  lemma ReadAndInstallSteps(cfg: Config, w: World, tid: nat, pid: nat, n: string, began: nat)
    requires tid in w.threads && w.threads[tid] == Thread(pid, Refreshing(ForDelete(n, JUST_ONE), began, {n}, map[]))
    requires pid in w.stores && n in w.metas
    ensures Enabled(cfg, w, ReadMeta(tid, n))
    ensures Enabled(cfg, Next(cfg, w, ReadMeta(tid, n)), Install(tid))
    ensures
      var z := Next(cfg, Next(cfg, w, ReadMeta(tid, n)), Install(tid));
      && z.metas == w.metas && z.content == w.content && z.stores.Keys == w.stores.Keys && z.drawn == w.drawn
      && z.threads == w.threads[tid := Thread(pid, DelMeta(n, JUST_ONE))]
  {
    hide AdvanceOf, NextReap;
    var y := Next(cfg, w, ReadMeta(tid, n));
    assert y.threads[tid].pc.acc == map[n := w.metas[n]];
    assert y.threads[tid].pc.todo == {};
  }

  lemma DeleteSteps(cfg: Config, w: World, tid: nat, pid: nat, n: string)
    requires tid in w.threads && w.threads[tid] == Thread(pid, DelMeta(n, JUST_ONE)) && pid in w.stores
    ensures Enabled(cfg, w, Advance(tid))
    ensures Enabled(cfg, Next(cfg, w, Advance(tid)), Advance(tid))
    ensures
      var z := Next(cfg, Next(cfg, w, Advance(tid)), Advance(tid));
      && z.content == w.content && z.stores.Keys == w.stores.Keys && z.drawn == w.drawn
      && z.threads == w.threads[tid := Thread(pid, DelDrop(n, JUST_ONE))]
  {
    hide AdvanceOpen, AdvancePush, Resume, NextReap;
    var y := Next(cfg, w, Advance(tid));
    assert y.threads == w.threads[tid := Thread(pid, DelForget(n, JUST_ONE))];
  }

  lemma SweepSteps(cfg: Config, w: World, tid: nat, pid: nat, n: string, v: string)
    requires tid in w.threads && w.threads[tid] == Thread(pid, DelDrop(n, JUST_ONE)) && pid in w.stores
    ensures Enabled(cfg, w, Advance(tid))
    ensures Enabled(cfg, Next(cfg, w, Advance(tid)), Sweep(tid, v))
    ensures
      var z := Next(cfg, Next(cfg, w, Advance(tid)), Sweep(tid, v));
      && z.content == w.content - {Cache.Key(n, v)} && z.stores.Keys == w.stores.Keys && z.drawn == w.drawn
      && z.threads == w.threads[tid := Thread(pid, DelSweep(n, JUST_ONE))]
  {
    hide AdvanceOpen, AdvancePush, Resume, NextReap, Cache.DropAllSpec;
    var y := Next(cfg, w, Advance(tid));
    assert y.threads == w.threads[tid := Thread(pid, DelSweep(n, JUST_ONE))];
  }

  /** Publishes n under v up to the commit. */
  lemma PushToCommit(cfg: Config, ws0: seq<World>, steps0: seq<Step>, tid: nat, n: string, v: string)
    returns (ws: seq<World>, steps: seq<Step>)
    requires IsPath(cfg, ws0, steps0) && cfg.mode.Unrestricted?
    requires var w := ws0[|steps0|]; tid !in w.threads && 0 in w.stores && v !in w.drawn
    ensures IsPath(cfg, ws, steps) && ws[0] == ws0[0]
    ensures
      var w, z := ws0[|steps0|], ws[|steps|];
      && z.metas == w.metas[n := MetaFor(cfg, n, EMPTY_ARCHIVE, v, None)] && z.stores == w.stores
      && z.threads == w.threads[tid := Thread(0, PushApply(n, v, None))]
      && z.drawn == w.drawn[v := DraftOfEmpty(cfg, 0, n, v)]
  {
    hide Next, Enabled, MetaFor;
    ws, steps := ws0, steps0;
    StartPushStep(cfg, ws[|steps|], tid, 0, n, v);
    ws, steps := Then(cfg, ws, steps, Begun(cfg, tid, 0, n, v));
    PutContentStep(cfg, ws[|steps|], tid, 0, n, v);
    ws, steps := Then(cfg, ws, steps, Advance(tid));
    LookupFailsStep(cfg, ws[|steps|], tid, 0, n, v);
    ws, steps := Then(cfg, ws, steps, LookupFails(tid));
    CommitStep(cfg, ws[|steps|], tid, 0, n, v);
    ws, steps := Then(cfg, ws, steps, Advance(tid));
  }

  /** Deletes n and sweeps version v on the way. */
  lemma DeleteAndSweep(cfg: Config, ws0: seq<World>, steps0: seq<Step>, tid: nat, n: string, v: string)
    returns (ws: seq<World>, steps: seq<Step>)
    requires IsPath(cfg, ws0, steps0) && cfg.mode.Unrestricted?
    requires var w := ws0[|steps0|]; tid !in w.threads && 0 in w.stores && w.metas.Keys == {n}
    ensures IsPath(cfg, ws, steps) && ws[0] == ws0[0]
    ensures
      var w, z := ws0[|steps0|], ws[|steps|];
      && Cache.Key(n, v) !in z.content && 0 in z.stores && z.drawn == w.drawn
      && forall t :: t in w.threads ==> t in z.threads && z.threads[t] == w.threads[t]
  {
    hide Next, Enabled;
    ws, steps := ws0, steps0;
    StartDeleteSteps(cfg, ws[|steps|], tid, 0, n);
    ws, steps := Then(cfg, ws, steps, StartDelete(tid, 0, n));
    ws, steps := Then(cfg, ws, steps, BeginRefresh(tid));
    ReadAndInstallSteps(cfg, ws[|steps|], tid, 0, n, ws[|steps|].threads[tid].pc.began);
    ws, steps := Then(cfg, ws, steps, ReadMeta(tid, n));
    ws, steps := Then(cfg, ws, steps, Install(tid));
    DeleteSteps(cfg, ws[|steps|], tid, 0, n);
    ws, steps := Then(cfg, ws, steps, Advance(tid));
    ws, steps := Then(cfg, ws, steps, Advance(tid));
    SweepSteps(cfg, ws[|steps|], tid, 0, n, v);
    ws, steps := Then(cfg, ws, steps, Advance(tid));
    ws, steps := Then(cfg, ws, steps, Sweep(tid, v));
  }

  /**
   Without the lock a delete breaks a push: its sweep removes the content a
   concurrent push has stored and not yet committed, and the commit then names
   an object that is gone.
   */
  lemma {:induction false} UnserializedDeleteBreaksPush(
    limit: Int64, n: string)
    returns (ws: seq<World>, steps: seq<Step>)
    ensures IsRun(Config(Unrestricted, limit, 0), ws, steps)
    ensures
      var z := ws[|steps|];
      n in z.metas && z.metas[n].version == "v2" && Cache.Key(n, "v2") !in z.content
  {
    hide Next, Enabled;
    var cfg := Config(Unrestricted, limit, 0);
    ws, steps := Booted(cfg);
    ws, steps := PushToCommit(cfg, ws, steps, 0, n, "v1");
    StartPushStep(cfg, ws[|steps|], 1, 0, n, "v2");
    ws, steps := Then(cfg, ws, steps, Begun(cfg, 1, 0, n, "v2"));
    PutContentStep(cfg, ws[|steps|], 1, 0, n, "v2");
    ws, steps := Then(cfg, ws, steps, Advance(1));
    ws, steps := DeleteAndSweep(cfg, ws, steps, 2, n, "v2");
    LookupFailsStep(cfg, ws[|steps|], 1, 0, n, "v2");
    ws, steps := Then(cfg, ws, steps, LookupFails(1));
    CommitStep(cfg, ws[|steps|], 1, 0, n, "v2");
    ws, steps := Then(cfg, ws, steps, Advance(1));
  }
}
