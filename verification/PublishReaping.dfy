/** A reaper under the lock removes what is due and nothing else, whatever readers do meanwhile. */
module PublishReaping {
  import opened Results
  import opened Ordering
  import opened Archives
  import opened Publish
  import opened PublishSafety
  import opened PublishRuns
  import opened PublishTheorems
  import opened PublishOrigins
  import Cache

  ghost predicate DueBy(m: Meta, now: int) {
    m.expiresAt.Some? && m.expiresAt.value <= now
  }

  /** What a thread may yet delete, and for which time it reaps. */
  ghost function ErrandOf(pc: Pc): Errand {
    match pc
    case Snap(ForDelete(n, rest)) => rest.(names := [n] + rest.names)
    case Refreshing(ForDelete(n, rest), _, _, _) => rest.(names := [n] + rest.names)
    case DelMeta(n, rest) => rest.(names := [n] + rest.names)
    case DelForget(_, rest) => rest
    case DelDrop(_, rest) => rest
    case DelSweep(_, rest) => rest
    case _ => JUST_ONE
  }

  ghost predicate IsReapRefresh(pc: Pc) {
    pc.Refreshing? && pc.cont.ForReap?
  }

  /** What is to be reaped is due, and what a reaper has read is so. */
  ghost predicate ReapOk(metas: map<string, Meta>, pc: Pc) {
    && (ErrandOf(pc).due.Some? ==>
          forall x :: x in ErrandOf(pc).names && x in metas ==> DueBy(metas[x], ErrandOf(pc).due.value))
    && (IsReapRefresh(pc) ==> forall x :: x in pc.acc ==> Get(metas, x) == Some(pc.acc[x]))
  }

  ghost predicate ReapInv(w: World) {
    forall t :: t in w.threads ==> ReapOk(w.metas, w.threads[t].pc)
  }

  // ----- where a thread's errand comes from

  ghost predicate SameErrand(was: Pc, now: Pc) {
    ErrandOf(was).due == ErrandOf(now).due && forall x :: x in ErrandOf(now).names ==> x in ErrandOf(was).names
  }

  /** A reaper goes on with what it had to do, or begins with what the map it has just read shows as due. */
  ghost predicate TookErrand(w: World, s: Step, t: nat, pc: Pc) {
    ErrandOf(pc).due.Some? ==>
      && t in w.threads
      && (|| SameErrand(w.threads[t].pc, pc)
          || (s == Install(t) && IsReapRefresh(w.threads[t].pc) && ErrandOf(pc).due == Some(w.threads[t].pc.cont.now) &&
              forall x :: x in ErrandOf(pc).names ==>
                x in w.threads[t].pc.acc && DueBy(w.threads[t].pc.acc[x], w.threads[t].pc.cont.now)))
  }

  /** A reaper's reading begins empty and grows by what the bucket holds. */
  ghost predicate TookReading(w: World, s: Step, t: nat, pc: Pc) {
    IsReapRefresh(pc) ==>
      || pc.acc == map[]
      || (t in w.threads && IsReapRefresh(w.threads[t].pc) &&
          (|| pc.acc == w.threads[t].pc.acc
           || (s.ReadMeta? && s.name in w.metas && pc.acc == w.threads[t].pc.acc[s.name := w.metas[s.name]])))
  }

  lemma {:induction false} DueExact(snap: map<string, Meta>, now: int, x: string)
    requires x in Due(snap, now)
    ensures x in snap && DueBy(snap[x], now)
  {
    var names := set n | n in snap && snap[n].expiresAt.Some? && snap[n].expiresAt.value <= now;
    AscendingExact(names);
    assert x in ToSet(Ascending(names));
  }

  lemma {:induction false} NextReapErrand(w: World, tid: nat, rest: Errand)
    requires tid in w.threads
    ensures
      var z := NextReap(w, tid, rest);
      tid in z.threads ==>
        !IsReapRefresh(z.threads[tid].pc) && ErrandOf(z.threads[tid].pc) == rest
  {
    if rest.names != [] { assert rest.names == [rest.names[0]] + rest.names[1..]; }
  }

  /** The thread that has obtained a map. */
  lemma {:induction false} ResumeErrand(w: World, tid: nat, cont: Cont, snap: map<string, Meta>, origin: Origin)
    requires tid in w.threads
    ensures
      var z := Resume(w, tid, cont, snap, origin);
      tid in z.threads ==>
        var pc := z.threads[tid].pc;
        && !IsReapRefresh(pc)
        && (ErrandOf(pc).due.Some? ==>
              if cont.ForReap? then
                ErrandOf(pc).due == Some(cont.now) &&
                forall x :: x in ErrandOf(pc).names ==> x in snap && DueBy(snap[x], cont.now)
              else
                cont.ForDelete? && SameErrand(Snap(cont), pc))
  {
    hide Due, NextReap;
    match cont
    case ForOpen(_) =>
    case ForPush(_, _) =>
    case ForDelete(_, rest) =>
      NextReapErrand(w, tid, rest);
    case ForReap(now) =>
      NextReapErrand(w, tid, Errand(Due(snap, now), Some(now)));
      forall x | x in Due(snap, now) ensures x in snap && DueBy(snap[x], now) { DueExact(snap, now, x); }
  }

  lemma {:induction false} DeleteErrand(w: World, tid: nat, l: Local, pc: Pc)
    requires tid in w.threads && (pc.DelMeta? || pc.DelForget? || pc.DelDrop? || pc.DelSweep?)
    ensures
      var z := AdvanceDelete(w, tid, l, pc);
      tid in z.threads ==> !IsReapRefresh(z.threads[tid].pc) && SameErrand(pc, z.threads[tid].pc)
  {
    hide Cache.DropAllSpec, NextReap, SameErrand, IsReapRefresh, DropMeta;
    NextReapErrand(w, tid, pc.rest);
    ErrandSteps(pc);
  }

  lemma {:induction false} ErrandSteps(pc: Pc)
    requires pc.DelMeta? || pc.DelForget? || pc.DelDrop? || pc.DelSweep?
    ensures
      var n, rest := pc.name, pc.rest;
      && (pc.DelMeta? ==> SameErrand(pc, DelForget(n, rest)) && !IsReapRefresh(DelForget(n, rest)))
      && (pc.DelForget? ==> SameErrand(pc, DelDrop(n, rest)) && !IsReapRefresh(DelDrop(n, rest)))
      && (pc.DelDrop? ==> SameErrand(pc, DelSweep(n, rest)) && !IsReapRefresh(DelSweep(n, rest)))
      && (pc.DelSweep? ==> forall next :: ErrandOf(next) == rest ==> SameErrand(pc, next))
  {}

  lemma {:induction false} OtherErrand(cfg: Config, w: World, tid: nat, l: Local, pc: Pc)
    requires tid in w.threads
    ensures
      pc.OpenHave? || pc.OpenFetch? || pc.OpenPut? ==>
        var z := AdvanceOpen(cfg, w, tid, l, pc); tid in z.threads ==> NoErrand(z.threads[tid].pc)
    ensures
      pc.PushPut? || pc.PushCommit? || pc.PushCleanup? || pc.PushApply? || pc.PushCache? || pc.PushCollect? ==>
        var z := AdvancePush(cfg, w, tid, l, pc); tid in z.threads ==> NoErrand(z.threads[tid].pc)
  {
    hide Cache.PutSpec, Cache.GetSpec, Cache.HitSpec, Expanded, Contents, Volume;
  }

  ghost predicate NoErrand(pc: Pc) {
    ErrandOf(pc).due.None? && !IsReapRefresh(pc)
  }

  lemma {:induction false} AdvanceErrand(cfg: Config, w: World, tid: nat, t: nat)
    requires tid in w.threads && Enabled(cfg, w, Advance(tid)) && t in AdvanceOf(cfg, w, tid).threads
    ensures
      var pc := AdvanceOf(cfg, w, tid).threads[t].pc;
      TookErrand(w, Advance(tid), t, pc) && TookReading(w, Advance(tid), t, pc)
  {
    hide AdvanceOpen, AdvancePush, AdvanceDelete;
    AdvanceThreads(cfg, w, tid, t);
    var l, pc := w.stores[w.threads[tid].pid], w.threads[tid].pc;
    if pc.DelMeta? || pc.DelForget? || pc.DelDrop? || pc.DelSweep? {
      DeleteErrand(w, tid, l, pc);
    } else {
      OtherErrand(cfg, w, tid, l, pc);
    }
  }

  lemma {:induction false} StepErrand(cfg: Config, w: World, s: Step, t: nat)
    requires Enabled(cfg, w, s) && t in Next(cfg, w, s).threads
    ensures
      var pc := Next(cfg, w, s).threads[t].pc;
      TookErrand(w, s, t, pc) && TookReading(w, s, t, pc)
  {
    hide AdvanceOf, Resume, MetaFor, Acceptable;
    if s.Advance? {
      AdvanceErrand(cfg, w, s.tid, t);
    } else if s.Install? {
      var p, pc := w.threads[s.tid].pid, w.threads[s.tid].pc;
      var origin := Origin(pc.began, {});
      var y := SetStore(w, p, Local(pc.acc, true, origin, w.stores[p].cache));
      ResumeOrigin(y, s.tid, pc.cont, pc.acc, origin, t);
      ResumeErrand(y, s.tid, pc.cont, pc.acc, origin);
    } else if s.UseLocal? {
      var l := w.stores[w.threads[s.tid].pid];
      ResumeOrigin(w, s.tid, w.threads[s.tid].pc.cont, l.meta, l.origin, t);
      ResumeErrand(w, s.tid, w.threads[s.tid].pc.cont, l.meta, l.origin);
    }
  }

  // ----- the invariant

  ghost predicate Reaps(pc: Pc) {
    ErrandOf(pc).due.Some? || IsReapRefresh(pc)
  }

  /** While a reaper holds the lock nobody else touches the metadata. */
  lemma {:induction false} MetasHeld(cfg: Config, w: World, s: Step, t: nat)
    requires Inv(cfg, w) && cfg.mode.Serialized? && Enabled(cfg, w, s) && t in w.threads && Reaps(w.threads[t].pc)
    ensures
      var z := Next(cfg, w, s);
      || z.metas == w.metas
      || (s == Advance(t) && w.threads[t].pc.DelMeta? && z.metas == w.metas - {w.threads[t].pc.name})
  {
    hide Next, BucketOk, StoreOk, ThreadOk;
    MetasChange(cfg, w, s);
    if s.Advance? && s.tid in w.threads && s.tid != t { NoOtherRemoves(cfg, w, t, s.tid); }
  }

  lemma {:induction false} StepReap(cfg: Config, w: World, s: Step, t: nat)
    requires Inv(cfg, w) && cfg.mode.Serialized? && ReapInv(w) && Enabled(cfg, w, s) && t in Next(cfg, w, s).threads
    ensures ReapOk(Next(cfg, w, s).metas, Next(cfg, w, s).threads[t].pc)
  {
    hide Inv, Next, Enabled;
    var pc := Next(cfg, w, s).threads[t].pc;
    StepErrand(cfg, w, s, t);
    if Reaps(pc) && t in w.threads && Reaps(w.threads[t].pc) {
      MetasHeld(cfg, w, s, t);
    }
  }

  lemma {:induction false} RunReaps(cfg: Config, ws: seq<World>, steps: seq<Step>, i: nat)
    requires IsRun(cfg, ws, steps) && cfg.mode.Serialized? && i < |ws|
    ensures ReapInv(ws[i])
  {
    hide Inv, Next, Enabled, ReapOk;
    if i > 0 {
      RunReaps(cfg, ws, steps, i - 1);
      RunInv(cfg, ws, steps, i - 1);
      assert ws[i - 1 + 1] == Next(cfg, ws[i - 1], steps[i - 1]);
      forall t | t in ws[i].threads ensures ReapOk(ws[i].metas, ws[i].threads[t].pc) {
        StepReap(cfg, ws[i - 1], steps[i - 1], t);
      }
    }
  }

  /**
   In every run of a serialized broker, beside any readers and their refreshes,
   the metadata a reaper removes has a deadline at or before the time it reaps
   for: a replacement and its new deadline are never split by a cleanup pass.
   */
  lemma {:induction false} ReaperRemovesOnlyDue(cfg: Config, ws: seq<World>, steps: seq<Step>, i: nat, t: nat)
    requires IsRun(cfg, ws, steps) && cfg.mode.Serialized? && i < |steps| && steps[i] == Advance(t)
    requires t in ws[i].threads && ws[i].threads[t].pc.DelMeta? && ws[i].threads[t].pc.rest.due.Some?
    ensures
      var n, now := ws[i].threads[t].pc.name, ws[i].threads[t].pc.rest.due.value;
      n in ws[i].metas ==> DueBy(ws[i].metas[n], now)
  {
    hide Next, Enabled;
    RunReaps(cfg, ws, steps, i);
    assert ReapOk(ws[i].metas, ws[i].threads[t].pc);
    assert ws[i].threads[t].pc.name in ErrandOf(ws[i].threads[t].pc).names;
  }
}
