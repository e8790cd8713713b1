/** When a process sees its own writes. */
module PublishVisibility {
  import opened Results
  import opened Publish
  import opened PublishSafety
  import opened PublishRuns
  import opened PublishTheorems
  import opened Archives

  /** A thread of the process will not bring an older entry for n. */
  ghost predicate Harmless(th: Thread, n: string, m: Meta) {
    && (th.pc.PushApply? || th.pc.DelForget? ==> th.pc.name != n)
    && (th.pc.Refreshing? ==> n in th.pc.todo || Get(th.pc.acc, n) == Some(m))
  }

  /** The bucket and the process's map agree on n, and no thread of the process is about to change that. */
  ghost predicate Sees(w: World, pid: nat, n: string, m: Meta) {
    && Get(w.metas, n) == Some(m)
    && pid in w.stores && Get(w.stores[pid].meta, n) == Some(m)
    && forall t :: t in w.threads && w.threads[t].pid == pid ==> Harmless(w.threads[t], n, m)
  }

  /** What a program counter says about where it came from. */
  ghost predicate CameFrom(w: World, s: Step, t: nat, pc: Pc) {
    && (pc.PushApply? ==>
          s == Advance(t) && t in w.threads && w.threads[t].pc.PushCommit? && w.threads[t].pc.name == pc.name)
    && (pc.DelForget? ==>
          s == Advance(t) && t in w.threads && w.threads[t].pc.DelMeta? && w.threads[t].pc.name == pc.name)
    && (pc.Refreshing? ==>
          || (s == BeginRefresh(t) && pc.todo == w.metas.Keys)
          || (s.ReadMeta? && s.tid == t && t in w.threads && w.threads[t].pc.Refreshing? &&
              pc.todo == w.threads[t].pc.todo - {s.name} &&
              pc.acc == if s.name in w.metas then w.threads[t].pc.acc[s.name := w.metas[s.name]]
                else w.threads[t].pc.acc))
  }

  lemma ResumeThreads(w: World, tid: nat, cont: Cont, snap: map<string, Meta>, origin: Origin, t: nat)
    requires tid in w.threads && t in Resume(w, tid, cont, snap, origin).threads
    ensures
      var z := Resume(w, tid, cont, snap, origin);
      && t in w.threads && z.threads[t].pid == w.threads[t].pid
      && (z.threads[t] == w.threads[t] ||
            !(z.threads[t].pc.PushApply? || z.threads[t].pc.DelForget? || z.threads[t].pc.Refreshing?))
  {
    hide Due;
  }

  lemma OtherThreads(cfg: Config, w: World, s: Step, t: nat)
    requires Enabled(cfg, w, s) && !s.Advance? && t in Next(cfg, w, s).threads
    ensures t in w.threads ==> Next(cfg, w, s).threads[t].pid == w.threads[t].pid
    ensures (t in w.threads && Next(cfg, w, s).threads[t] == w.threads[t]) ||
      CameFrom(w, s, t, Next(cfg, w, s).threads[t].pc)
  {
    hide AdvanceOf, Resume, MetaFor, Acceptable;
    if s.Install? {
      var p, pc := w.threads[s.tid].pid, w.threads[s.tid].pc;
      var origin := Origin(pc.began, {});
      ResumeThreads(SetStore(w, p, Local(pc.acc, true, origin, w.stores[p].cache)), s.tid, pc.cont, pc.acc, origin, t);
    } else if s.UseLocal? {
      var l := w.stores[w.threads[s.tid].pid];
      ResumeThreads(w, s.tid, w.threads[s.tid].pc.cont, l.meta, l.origin, t);
    }
  }

  /** A thread is as it was, or its program counter shows where it came from. */
  lemma ThreadChange(cfg: Config, w: World, s: Step, t: nat)
    requires Enabled(cfg, w, s) && t in Next(cfg, w, s).threads
    ensures t in w.threads ==> Next(cfg, w, s).threads[t].pid == w.threads[t].pid
    ensures (t in w.threads && Next(cfg, w, s).threads[t] == w.threads[t]) ||
      CameFrom(w, s, t, Next(cfg, w, s).threads[t].pc)
  {
    if s.Advance? {
      hide AdvanceOf;
      AdvanceTouches(cfg, w, s.tid);
    } else {
      hide Next, CameFrom;
      OtherThreads(cfg, w, s, t);
    }
  }

  lemma {:induction false} HarmlessStays(cfg: Config, w: World, s: Step, pid: nat, n: string, m: Meta, t: nat)
    requires Inv(cfg, w) && Enabled(cfg, w, s) && Sees(w, pid, n, m) && Get(Next(cfg, w, s).metas, n) == Some(m)
    requires t in Next(cfg, w, s).threads && Next(cfg, w, s).threads[t].pid == pid
    ensures Harmless(Next(cfg, w, s).threads[t], n, m)
  {
    hide Inv, Next, Enabled;
    var z := Next(cfg, w, s);
    StepHasThread(cfg, w, s);
    ThreadChange(cfg, w, s, t);
    OfMeta(cfg, w, n);
    if z.threads[t].pc.PushApply? && CameFrom(w, s, t, z.threads[t].pc) {
      CommitsFresh(cfg, w, t);
      CommitChanges(cfg, w, t);
    }
    if z.threads[t].pc.DelForget? && CameFrom(w, s, t, z.threads[t].pc) {
      DeleteChanges(cfg, w, t);
    }
  }

  lemma {:induction false} SeesStays(cfg: Config, w: World, s: Step, pid: nat, n: string, m: Meta)
    requires Inv(cfg, w) && Enabled(cfg, w, s) && Sees(w, pid, n, m)
    requires Get(Next(cfg, w, s).metas, n) == Some(m) && s != Crash(pid)
    ensures Sees(Next(cfg, w, s), pid, n, m)
  {
    hide Inv, Next, Enabled;
    var z := Next(cfg, w, s);
    LocalChange(cfg, w, s, pid);
    StepHasThread(cfg, w, s);
    forall t | t in z.threads && z.threads[t].pid == pid ensures Harmless(z.threads[t], n, m) {
      HarmlessStays(cfg, w, s, pid, n, m, t);
    }
  }

  lemma StepHasThread(cfg: Config, w: World, s: Step)
    requires Enabled(cfg, w, s)
    ensures s.Install? || s.Advance? ==> s.tid in w.threads
    ensures s.Install? ==> w.threads[s.tid].pc.Refreshing? && w.threads[s.tid].pc.todo == {}
  {}

  lemma CommitChanges(cfg: Config, w: World, t: nat)
    requires Enabled(cfg, w, Advance(t)) && w.threads[t].pc.PushCommit? && w.threads[t].pc.version in w.drawn
    ensures Get(Next(cfg, w, Advance(t)).metas, w.threads[t].pc.name) == Some(w.drawn[w.threads[t].pc.version].meta)
  {
    hide AdvanceOpen, AdvanceDelete, Collect, ApplyLocal, CachePushed, PutContent;
  }

  lemma DeleteChanges(cfg: Config, w: World, t: nat)
    requires Enabled(cfg, w, Advance(t)) && w.threads[t].pc.DelMeta?
    ensures Get(Next(cfg, w, Advance(t)).metas, w.threads[t].pc.name) == None
  {
    hide AdvanceOpen, AdvancePush, NextReap, ForgetLocal, DropCached;
  }

  /** No refresh of the process is under way that has already passed n by, or read something else for it. */
  ghost predicate NoOverlap(w: World, pid: nat, n: string, m: Meta) {
    forall t :: t in w.threads && w.threads[t].pid == pid && w.threads[t].pc.Refreshing? ==>
      n in w.threads[t].pc.todo || Get(w.threads[t].pc.acc, n) == Some(m)
  }

  lemma NoOtherMutator(cfg: Config, w: World, tid: nat, t: nat)
    requires Inv(cfg, w) && cfg.mode.Serialized? && tid in w.threads && t in w.threads && t != tid
    requires Mutates(w.threads[tid].pc)
    ensures !w.threads[t].pc.PushApply? && !w.threads[t].pc.DelForget?
  {
    hide BucketOk, StoreOk, ThreadOk;
    NoOtherRemoves(cfg, w, tid, t);
  }

  lemma ApplySees(cfg: Config, w: World, tid: nat)
    requires Inv(cfg, w) && cfg.mode.Serialized? && Enabled(cfg, w, Advance(tid)) && w.threads[tid].pc.PushApply?
    requires w.threads[tid].pc.version in w.drawn
    requires NoOverlap(w, w.threads[tid].pid, w.threads[tid].pc.name, w.drawn[w.threads[tid].pc.version].meta)
    ensures Sees(Next(cfg, w, Advance(tid)), w.threads[tid].pid, w.threads[tid].pc.name,
      w.drawn[w.threads[tid].pc.version].meta)
  {
    hide Inv, InvBut, AdvanceOpen, AdvanceDelete, Collect, CachePushed, PutContent, RefreshOk, OpenOk, PendingOk;
    var n, m := w.threads[tid].pc.name, w.drawn[w.threads[tid].pc.version].meta;
    InvIsInvBut(cfg, w, tid);
    OfMeta(cfg, w, n);
    var z := Next(cfg, w, Advance(tid));
    forall t | t in z.threads && z.threads[t].pid == w.threads[tid].pid ensures Harmless(z.threads[t], n, m) {
      if t != tid { NoOtherMutator(cfg, w, tid, t); }
    }
  }

  /**
   A serialized broker sees its own push from applyLocal on, for as long as
   nobody replaces or deletes the site and the process lives, provided no
   refresh overlapped the push: every lookup, from the map or from a refresh
   that completes later, gives the pushed metadata.
   */
  lemma {:induction false} OwnWriteStaysVisible(
    cfg: Config, ws: seq<World>, steps: seq<Step>, i: nat, j: nat, n: string, m: Meta, pid: nat)
    requires IsRun(cfg, ws, steps) && cfg.mode.Serialized? && i < j < |ws|
    requires steps[i].Advance? && steps[i].tid in ws[i].threads
    requires var th := ws[i].threads[steps[i].tid];
      th.pid == pid && th.pc.PushApply? && th.pc.name == n && th.pc.version in ws[i].drawn &&
        m == ws[i].drawn[th.pc.version].meta
    requires NoOverlap(ws[i], pid, n, m)
    requires forall k :: i < k <= j ==> Get(ws[k].metas, n) == Some(m) && (k < |steps| ==> steps[k] != Crash(pid))
    ensures Sees(ws[j], pid, n, m)
    decreases j
  {
    hide Inv, Next, Enabled, Sees, NoOverlap;
    assert ws[j - 1 + 1] == Next(cfg, ws[j - 1], steps[j - 1]);
    RunInv(cfg, ws, steps, j - 1);
    if j - 1 == i {
      ApplySees(cfg, ws[i], steps[i].tid);
    } else {
      OwnWriteStaysVisible(cfg, ws, steps, i, j - 1, n, m, pid);
      SeesStays(cfg, ws[j - 1], steps[j - 1], pid, n, m);
    }
  }

  // ----- the condition is exact

  /** A refresh that has passed n by keeps, whatever it still reads, what it has for n. */
  lemma {:induction false} ReadOneMore(cfg: Config, w: World, t: nat, n: string, x: string)
    requires t in w.threads && w.threads[t].pc.Refreshing? && x in w.threads[t].pc.todo && n !in w.threads[t].pc.todo
    ensures Enabled(cfg, w, ReadMeta(t, x))
    ensures
      var z := Next(cfg, w, ReadMeta(t, x));
      var was, now := w.threads[t].pc, z.threads[t].pc;
      && z.metas == w.metas && z.stores == w.stores && t in z.threads && z.threads[t].pid == w.threads[t].pid
      && now.Refreshing? && now.todo == was.todo - {x} && Get(now.acc, n) == Get(was.acc, n)
  {
    hide AdvanceOf;
  }

  lemma {:induction false} InstallLast(cfg: Config, w: World, t: nat)
    requires t in w.threads && w.threads[t].pc.Refreshing? && w.threads[t].pc.todo == {} && w.threads[t].pid in w.stores
    ensures Enabled(cfg, w, Install(t))
    ensures
      var z, pid := Next(cfg, w, Install(t)), w.threads[t].pid;
      z.metas == w.metas && pid in z.stores && z.stores[pid].meta == w.threads[t].pc.acc
  {
    hide AdvanceOf, Resume;
    var pid, pc := w.threads[t].pid, w.threads[t].pc;
    var origin := Origin(pc.began, {});
    ResumeKeeps(SetStore(w, pid, Local(pc.acc, true, origin, w.stores[pid].cache)), t, pc.cont, pc.acc, origin);
  }

  /** A continuation in which nobody touches the metadata and the process lives. */
  ghost predicate Quiet(cfg: Config, w: World, pid: nat, ws: seq<World>, steps: seq<Step>) {
    && IsPath(cfg, ws, steps) && ws[0] == w
    && (forall k :: 0 <= k < |ws| ==> ws[k].metas == w.metas)
    && (forall k :: 0 <= k < |steps| ==> steps[k] != Crash(pid))
  }

  lemma {:induction false} QuietThen(cfg: Config, w: World, pid: nat, s: Step, ws: seq<World>, steps: seq<Step>)
    requires Enabled(cfg, w, s) && Next(cfg, w, s).metas == w.metas && s != Crash(pid)
    requires Quiet(cfg, Next(cfg, w, s), pid, ws, steps)
    ensures Quiet(cfg, w, pid, [w] + ws, [s] + steps)
  {
    hide Next, Enabled;
    var ws', steps' := [w] + ws, [s] + steps;
    forall i | 0 <= i < |steps'| ensures Enabled(cfg, ws'[i], steps'[i]) && ws'[i + 1] == Next(cfg, ws'[i], steps'[i]) {
      assert i > 0 ==> Enabled(cfg, ws[i - 1], steps[i - 1]) && ws[i - 1 + 1] == Next(cfg, ws[i - 1], steps[i - 1]);
    }
  }

  /**
   From any state in which a refresh of a process has passed n by, the process
   can go on, the bucket unchanged, to one in which its map says of n what that
   refresh read.
   */
  lemma {:induction false} OverlapCanHide(
    cfg: Config, w: World, t: nat, n: string)
    returns (ws: seq<World>, steps: seq<Step>)
    requires t in w.threads && w.threads[t].pc.Refreshing? && n !in w.threads[t].pc.todo && w.threads[t].pid in w.stores
    ensures Quiet(cfg, w, w.threads[t].pid, ws, steps)
    ensures
      var z, pid := ws[|steps|], w.threads[t].pid;
      pid in z.stores && Get(z.stores[pid].meta, n) == Get(w.threads[t].pc.acc, n)
    decreases w.threads[t].pc.todo
  {
    hide Next, Enabled;
    var todo, pid := w.threads[t].pc.todo, w.threads[t].pid;
    if todo == {} {
      InstallLast(cfg, w, t);
      ws, steps := [w, Next(cfg, w, Install(t))], [Install(t)];
    } else {
      var x :| x in todo;
      ReadOneMore(cfg, w, t, n, x);
      ws, steps := OverlapCanHide(cfg, Next(cfg, w, ReadMeta(t, x)), t, n);
      QuietThen(cfg, w, pid, ReadMeta(t, x), ws, steps);
      ws, steps := [w] + ws, [ReadMeta(t, x)] + steps;
    }
  }

  /** A quiet continuation at whose end the process's map no longer has m for n. */
  ghost predicate Hides(cfg: Config, w: World, pid: nat, n: string, m: Meta, ws: seq<World>, steps: seq<Step>) {
    && Quiet(cfg, w, pid, ws, steps)
    && !(pid in ws[|steps|].stores && Get(ws[|steps|].stores[pid].meta, n) == Some(m))
  }

  lemma {:induction false} SeesThroughout(
    cfg: Config, w: World, pid: nat, n: string, m: Meta, ws: seq<World>, steps: seq<Step>, i: nat)
    requires Inv(cfg, w) && !cfg.mode.Unrestricted? && Sees(w, pid, n, m) && Quiet(cfg, w, pid, ws, steps) && i < |ws|
    ensures Inv(cfg, ws[i]) && Sees(ws[i], pid, n, m)
  {
    hide Inv, Next, Enabled, Harmless;
    if i > 0 {
      SeesThroughout(cfg, w, pid, n, m, ws, steps, i - 1);
      assert ws[i - 1 + 1] == Next(cfg, ws[i - 1], steps[i - 1]);
      StepKeepsInv(cfg, ws[i - 1], steps[i - 1]);
      SeesStays(cfg, ws[i - 1], steps[i - 1], pid, n, m);
    }
  }

  lemma {:induction false} OverlapUnchanged(cfg: Config, w: World, tid: nat)
    requires Enabled(cfg, w, Advance(tid)) && w.threads[tid].pc.PushApply? && w.threads[tid].pc.version in w.drawn
    ensures
      var pid, n, m := w.threads[tid].pid, w.threads[tid].pc.name, w.drawn[w.threads[tid].pc.version].meta;
      && pid in Next(cfg, w, Advance(tid)).stores
      && (NoOverlap(Next(cfg, w, Advance(tid)), pid, n, m) <==> NoOverlap(w, pid, n, m))
  {
    hide AdvanceOpen, AdvanceDelete, Collect, CachePushed, PutContent;
    var z, pc := Next(cfg, w, Advance(tid)), w.threads[tid].pc;
    var th := Thread(w.threads[tid].pid, PushCache(pc.name, pc.version, pc.prev));
    assert z.threads == w.threads[tid := th];
    SameOverlap(w, z, tid, th.pid, pc.name, w.drawn[pc.version].meta);
  }

  lemma {:induction false} SameOverlap(w: World, z: World, tid: nat, pid: nat, n: string, m: Meta)
    requires tid in w.threads && tid in z.threads && z.threads == w.threads[tid := z.threads[tid]]
    requires !w.threads[tid].pc.Refreshing? && !z.threads[tid].pc.Refreshing?
    ensures NoOverlap(z, pid, n, m) <==> NoOverlap(w, pid, n, m)
  {
    assert forall t :: t in w.threads <==> t in z.threads;
    assert forall t :: t in w.threads && t != tid ==> z.threads[t] == w.threads[t];
  }

  /**
   A serialized broker that has just folded in its own push goes on seeing it in
   every continuation that leaves the bucket's metadata alone, exactly if no
   refresh overlapped the push.
   */
  lemma {:induction false} OwnWriteVisibleExactly(cfg: Config, w: World, tid: nat)
    requires Inv(cfg, w) && cfg.mode.Serialized? && Enabled(cfg, w, Advance(tid)) && w.threads[tid].pc.PushApply?
    requires w.threads[tid].pc.version in w.drawn
    ensures
      var z := Next(cfg, w, Advance(tid));
      var pid, n, m := w.threads[tid].pid, w.threads[tid].pc.name, w.drawn[w.threads[tid].pc.version].meta;
      NoOverlap(z, pid, n, m) <==> !exists ws, steps :: Hides(cfg, z, pid, n, m, ws, steps)
  {
    hide Inv, Next, NoOverlap, Sees, Quiet;
    var z := Next(cfg, w, Advance(tid));
    var pid, n, m := w.threads[tid].pid, w.threads[tid].pc.name, w.drawn[w.threads[tid].pc.version].meta;
    OverlapUnchanged(cfg, w, tid);
    StepKeepsInv(cfg, w, Advance(tid));
    if NoOverlap(z, pid, n, m) {
      ApplySees(cfg, w, tid);
      forall ws, steps ensures !Hides(cfg, z, pid, n, m, ws, steps) {
        if Hides(cfg, z, pid, n, m, ws, steps) {
          QuietLength(cfg, z, pid, ws, steps);
          SeesThroughout(cfg, z, pid, n, m, ws, steps, |steps|);
          SeesMap(ws[|steps|], pid, n, m);
        }
      }
    } else {
      HidingRun(cfg, z, pid, n, m);
    }
  }

  lemma QuietLength(cfg: Config, w: World, pid: nat, ws: seq<World>, steps: seq<Step>)
    requires Quiet(cfg, w, pid, ws, steps)
    ensures |ws| == |steps| + 1
  {}

  lemma SeesMap(w: World, pid: nat, n: string, m: Meta)
    requires Sees(w, pid, n, m)
    ensures pid in w.stores && Get(w.stores[pid].meta, n) == Some(m)
  {}

  lemma {:induction false} HidingRun(cfg: Config, w: World, pid: nat, n: string, m: Meta)
    requires pid in w.stores && !NoOverlap(w, pid, n, m)
    ensures exists ws, steps :: Hides(cfg, w, pid, n, m, ws, steps)
  {
    hide Quiet;
    var t :| t in w.threads && w.threads[t].pid == pid && w.threads[t].pc.Refreshing?
      && !(n in w.threads[t].pc.todo || Get(w.threads[t].pc.acc, n) == Some(m));
    var ws, steps := OverlapCanHide(cfg, w, t, n);
    QuietLength(cfg, w, pid, ws, steps);
    assert Hides(cfg, w, pid, n, m, ws, steps);
  }
}
