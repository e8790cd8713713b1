/** What each operation achieves when nothing disturbs it: every push, open, delete and reaping can run to its end. */
module PublishProgress {
  import opened Results
  import opened Ordering
  import opened Archives
  import opened Publish
  import opened PublishSafety
  import opened PublishRuns
  import opened PublishTheorems
  import opened PublishReaping
  import Cache

  /** A step by which a thread goes on, none of them a failure. */
  ghost predicate Own(s: Step, tid: nat) {
    match s
    case StartOpen(t, _, _) => t == tid
    case StartPush(t, _, _, _, _, _) => t == tid
    case StartDelete(t, _, _) => t == tid
    case StartReap(t, _, _) => t == tid
    case BeginRefresh(t) => t == tid
    case ReadMeta(t, _) => t == tid
    case Install(t) => t == tid
    case Sweep(t, _) => t == tid
    case Advance(t) => t == tid
    case _ => false
  }

  ghost predicate Leads(cfg: Config, w: World, tid: nat, z: World, ws: seq<World>, steps: seq<Step>) {
    && IsPath(cfg, ws, steps) && ws[0] == w && ws[|steps|] == z
    && forall i :: 0 <= i < |steps| ==> Own(steps[i], tid)
  }

  /** The thread by itself can take w to z. */
  ghost predicate Reaches(cfg: Config, w: World, tid: nat, z: World) {
    exists ws, steps :: Leads(cfg, w, tid, z, ws, steps)
  }

  lemma {:induction false} OneStep(cfg: Config, w: World, tid: nat, s: Step)
    requires Enabled(cfg, w, s) && Own(s, tid)
    ensures Reaches(cfg, w, tid, Next(cfg, w, s))
  {
    hide Next, Enabled, Own;
    var z := Next(cfg, w, s);
    assert Leads(cfg, w, tid, z, [w, z], [s]);
  }

  lemma {:induction false} ThenReaches(cfg: Config, w: World, tid: nat, y: World, z: World)
    requires Reaches(cfg, w, tid, y) && Reaches(cfg, y, tid, z)
    ensures Reaches(cfg, w, tid, z)
  {
    hide Next, Enabled, Own;
    var ws, steps :| Leads(cfg, w, tid, y, ws, steps);
    var xs, more :| Leads(cfg, y, tid, z, xs, more);
    var all, path := ws + xs[1..], steps + more;
    forall i | 0 <= i < |path|
      ensures Enabled(cfg, all[i], path[i]) && all[i + 1] == Next(cfg, all[i], path[i]) && Own(path[i], tid)
    {
      if i >= |steps| {
        var j := i - |steps|;
        assert xs[j + 1] == Next(cfg, xs[j], more[j]) && path[i] == more[j];
        assert all[i] == xs[j] && all[i + 1] == xs[j + 1];
      } else {
        assert all[i] == ws[i] && all[i + 1] == ws[i + 1] && path[i] == steps[i];
      }
    }
    assert all[|path|] == z;
    assert Leads(cfg, w, tid, z, all, path);
  }

  // ----- what may happen at any time

  /** A process may stop at any time: its local state, its threads and a lock they hold go, and the bucket stays. */
  lemma {:induction false} CrashExact(cfg: Config, w: World, pid: nat)
    requires pid in w.stores
    ensures Enabled(cfg, w, Crash(pid))
    ensures
      var z := Next(cfg, w, Crash(pid));
      && z.metas == w.metas && z.content == w.content && z.drawn == w.drawn && z.stores == w.stores - {pid}
      && (forall t :: t in z.threads <==> t in w.threads && w.threads[t].pid != pid)
      && (forall t :: t in z.threads ==> z.threads[t] == w.threads[t])
      && var held := w.lock.Some? && w.lock.value in w.threads && w.threads[w.lock.value].pid == pid;
         z.lock == if held then None else w.lock
  {
    hide AdvanceOf, Resume;
  }

  /** It comes back knowing nothing. */
  lemma {:induction false} BootExact(cfg: Config, w: World, pid: nat)
    requires pid !in w.stores
    ensures Enabled(cfg, w, Boot(pid))
    ensures
      var z := Next(cfg, w, Boot(pid));
      && z.(stores := w.stores) == w && z.stores.Keys == w.stores.Keys + {pid}
      && z.stores[pid].meta == map[] && !z.stores[pid].valid && z.stores[pid].cache == []
      && forall p :: p in w.stores ==> z.stores[p] == w.stores[p]
  {
    hide AdvanceOf, Resume;
  }

  /** A thread may stop at any time, and nothing changes but that it is gone. */
  lemma {:induction false} AbortExact(cfg: Config, w: World, tid: nat)
    requires tid in w.threads
    ensures Enabled(cfg, w, Abort(tid))
    ensures
      var z := Next(cfg, w, Abort(tid));
      && z.(threads := w.threads, lock := w.lock) == w && z.threads == w.threads - {tid}
      && z.lock == if w.lock == Some(tid) then None else w.lock
  {
    hide AdvanceOf, Resume;
  }

  /** When operations may start: mutations one at a time where they are serialized, and only of acceptable archives. */
  lemma {:induction false} StartsExactly(
    cfg: Config, w: World, tid: nat, pid: nat, n: string, a: Archive, expiresAt: Option<int>, v: string, now: int)
    requires tid !in w.threads && pid in w.stores
    ensures Enabled(cfg, w, StartOpen(tid, pid, n))
    ensures
      var turn := cfg.mode.Serialized? ==> w.lock.None?;
      && (Enabled(cfg, w, StartPush(tid, pid, n, a, expiresAt, v)) <==>
          turn && v !in w.drawn && Acceptable(Memory, a, cfg.limit))
      && (Enabled(cfg, w, StartDelete(tid, pid, n)) <==> turn && !cfg.mode.PushersOnly?)
      && (Enabled(cfg, w, StartReap(tid, pid, now)) <==> turn && !cfg.mode.PushersOnly?)
  {
    hide Acceptable;
  }

  /**
   A lookup may use the map in memory whenever there is one, and for a push it
   may fail; then no previous version is known.
   */
  lemma {:induction false} LookupExact(cfg: Config, w: World, tid: nat)
    requires tid in w.threads && w.threads[tid].pc.Snap? && w.threads[tid].pid in w.stores
    ensures
      var l, cont := w.stores[w.threads[tid].pid], w.threads[tid].pc.cont;
      && (l.valid && !cont.ForReap? ==>
            Enabled(cfg, w, UseLocal(tid)) && Next(cfg, w, UseLocal(tid)) == Resume(w, tid, cont, l.meta, l.origin))
      && (cont.ForPush? ==>
            && Enabled(cfg, w, LookupFails(tid))
            && Next(cfg, w, LookupFails(tid)) == Move(w, tid, PushCommit(cont.name, cont.version, None)))
  {
    hide AdvanceOf, Resume;
  }

  // ----- obtaining the metadata

  ghost function Began(w: World): nat {
    if |w.log| > 0 then |w.log| - 1 else 0
  }

  ghost function FreshOrigin(w: World): Origin {
    Origin(Began(w), {})
  }

  ghost function Overlay(acc: map<string, Meta>, metas: map<string, Meta>, todo: set<string>): map<string, Meta>
    requires todo <= metas.Keys
  {
    map n | n in acc.Keys + todo :: if n in todo then metas[n] else acc[n]
  }

  lemma {:induction false} MovedTwice(w: World, tid: nat, a: Pc, b: Pc)
    requires tid in w.threads
    ensures Move(Move(w, tid, a), tid, b) == Move(w, tid, b) && End(Move(w, tid, a), tid) == End(w, tid)
  {
    var was, now := w.threads[tid].(pc := a), w.threads[tid].(pc := b);
    assert w.threads[tid := was][tid := now] == w.threads[tid := now];
    assert w.threads[tid := was] - {tid} == w.threads - {tid};
  }

  lemma {:induction false} ReadStep(cfg: Config, w: World, tid: nat, x: string)
    requires tid in w.threads && w.threads[tid].pc.Refreshing? && x in w.threads[tid].pc.todo && x in w.metas
    ensures Enabled(cfg, w, ReadMeta(tid, x))
    ensures
      var pc := w.threads[tid].pc;
      Next(cfg, w, ReadMeta(tid, x)) == Move(w, tid, pc.(todo := pc.todo - {x}, acc := pc.acc[x := w.metas[x]]))
  {
    hide AdvanceOf;
  }

  lemma {:induction false} ReadAll(cfg: Config, w: World, tid: nat)
    requires tid in w.threads && w.threads[tid].pc.Refreshing? && w.threads[tid].pc.todo <= w.metas.Keys
    requires w.threads[tid].pc.todo != {}
    ensures
      var pc := w.threads[tid].pc;
      Reaches(cfg, w, tid, Move(w, tid, pc.(todo := {}, acc := Overlay(pc.acc, w.metas, pc.todo))))
    decreases w.threads[tid].pc.todo
  {
    hide Next, Enabled, Reaches;
    var pc := w.threads[tid].pc;
    var x :| x in pc.todo;
    ReadStep(cfg, w, tid, x);
    OneStep(cfg, w, tid, ReadMeta(tid, x));
    var next := pc.(todo := pc.todo - {x}, acc := pc.acc[x := w.metas[x]]);
    var y := Move(w, tid, next);
    if next.todo == {} {
      assert pc.todo == {x};
      assert pc.acc[x := w.metas[x]] == Overlay(pc.acc, w.metas, pc.todo);
    } else {
      ReadAll(cfg, y, tid);
      assert Overlay(next.acc, w.metas, next.todo) == Overlay(pc.acc, w.metas, pc.todo);
      MovedTwice(w, tid, next, pc.(todo := {}, acc := Overlay(pc.acc, w.metas, pc.todo)));
      ThenReaches(cfg, w, tid, y, Move(y, tid, next.(todo := {}, acc := Overlay(next.acc, w.metas, next.todo))));
    }
  }

  /** The process's map once a refresh nobody interferes with is installed. */
  ghost function Renewed(w: World, pid: nat): World
    requires pid in w.stores
  {
    SetStore(w, pid, Local(w.metas, true, FreshOrigin(w), w.stores[pid].cache))
  }

  /** A refresh that nobody interferes with reads exactly the bucket's metadata. */
  lemma {:induction false} RefreshAll(cfg: Config, w: World, tid: nat)
    requires tid in w.threads && w.threads[tid].pc.Snap? && w.threads[tid].pid in w.stores
    ensures
      var pid, cont := w.threads[tid].pid, w.threads[tid].pc.cont;
      Reaches(cfg, w, tid, Resume(Renewed(w, pid), tid, cont, w.metas, FreshOrigin(w)))
  {
    hide Next, Enabled, Reaches, Resume, AdvanceOf;
    var pid, cont := w.threads[tid].pid, w.threads[tid].pc.cont;
    var y := Move(w, tid, Refreshing(cont, Began(w), w.metas.Keys, map[]));
    var z := Move(w, tid, Refreshing(cont, Began(w), {}, w.metas));
    BeginStep(cfg, w, tid);
    OneStep(cfg, w, tid, BeginRefresh(tid));
    if w.metas.Keys == {} {
      assert w.metas == map[];
    } else {
      ReadAll(cfg, y, tid);
      assert Overlay(map[], w.metas, w.metas.Keys) == w.metas;
      MovedTwice(w, tid, y.threads[tid].pc, z.threads[tid].pc);
      ThenReaches(cfg, w, tid, y, z);
    }
    InstallStep(cfg, w, tid, cont);
    OneStep(cfg, z, tid, Install(tid));
    ThenReaches(cfg, w, tid, z, Next(cfg, z, Install(tid)));
  }

  lemma {:induction false} BeginStep(cfg: Config, w: World, tid: nat)
    requires tid in w.threads && w.threads[tid].pc.Snap?
    ensures Enabled(cfg, w, BeginRefresh(tid))
    ensures Next(cfg, w, BeginRefresh(tid)) ==
      Move(w, tid, Refreshing(w.threads[tid].pc.cont, Began(w), w.metas.Keys, map[]))
  {
    hide AdvanceOf;
  }

  lemma {:induction false} InstallStep(cfg: Config, w: World, tid: nat, cont: Cont)
    requires tid in w.threads && w.threads[tid].pid in w.stores
    ensures
      var z := Move(w, tid, Refreshing(cont, Began(w), {}, w.metas));
      && Enabled(cfg, z, Install(tid))
      && Next(cfg, z, Install(tid)) == Resume(Renewed(w, w.threads[tid].pid), tid, cont, w.metas, FreshOrigin(w))
  {
    hide AdvanceOf, Resume;
    var pc := Refreshing(cont, Began(w), {}, w.metas);
    var z := Move(w, tid, pc);
    assert Next(cfg, z, Install(tid)) == Resume(Renewed(z, z.threads[tid].pid), tid, cont, w.metas, FreshOrigin(w));
    ResumeMoved(Renewed(w, w.threads[tid].pid), tid, pc, cont, w.metas, FreshOrigin(w));
  }

  lemma {:induction false} ResumeMoved(
    w: World, tid: nat, pc: Pc, cont: Cont, snap: map<string, Meta>, origin: Origin)
    requires tid in w.threads
    ensures Resume(Move(w, tid, pc), tid, cont, snap, origin) == Resume(w, tid, cont, snap, origin)
  {
    hide Due;
    match cont
    case ForOpen(n) => MovedTwice(w, tid, pc, if n in snap then OpenHave(n, snap[n], origin) else pc);
    case ForPush(n, v) => MovedTwice(w, tid, pc, PushCommit(n, v, Get(snap, n)));
    case ForDelete(n, rest) =>
      MovedTwice(w, tid, pc, DelMeta(n, rest));
      NextReapMoved(w, tid, pc, rest);
    case ForReap(now) => NextReapMoved(w, tid, pc, Errand(Due(snap, now), Some(now)));
  }

  lemma {:induction false} NextReapMoved(w: World, tid: nat, pc: Pc, rest: Errand)
    requires tid in w.threads
    ensures NextReap(Move(w, tid, pc), tid, rest) == NextReap(w, tid, rest)
  {
    var next :=
      if rest.names == [] then pc else Snap(ForDelete(rest.names[0], rest.(names := rest.names[1..])));
    MovedTwice(w, tid, pc, next);
  }

  // ----- a push

  /** The next action of a thread, by what it is about to do. */
  lemma {:induction false} PushAction(cfg: Config, w: World, tid: nat)
    requires tid in w.threads && w.threads[tid].pid in w.stores
    requires
      var pc := w.threads[tid].pc;
      pc.PushPut? || pc.PushCommit? || pc.PushCleanup? || pc.PushApply? || pc.PushCache? || pc.PushCollect?
    ensures Reaches(cfg, w, tid, AdvancePush(cfg, w, tid, w.stores[w.threads[tid].pid], w.threads[tid].pc))
  {
    hide AdvancePush, AdvanceOpen, AdvanceDelete, Reaches, MetaFor;
    OneStep(cfg, w, tid, Advance(tid));
  }

  /** What a push sets out to commit. */
  ghost predicate Drafted(w: World, n: string, v: string, a: Archive, m: Meta) {
    v in w.drawn && w.drawn[v].archive == a && w.drawn[v].meta == m && m.version == v && w.drawn[v].name == n
  }

  /** From the stored content to the end of the push. */
  lemma {:induction false} CommitToEnd(
    cfg: Config, w: World, tid: nat, pid: nat, n: string, v: string, a: Archive, m: Meta)
    returns (z: World)
    requires pid in w.stores && tid in w.threads && w.threads[tid] == Thread(pid, Snap(ForPush(n, v)))
    requires Drafted(w, n, v, a, m)
    ensures Reaches(cfg, w, tid, z)
    ensures z.metas == w.metas[n := m] && z.threads == w.threads - {tid}
    ensures z.lock == (if w.lock == Some(tid) then None else w.lock)
    ensures
      var gone := if n in w.metas && w.metas[n].version != v then {Cache.Key(n, w.metas[n].version)} else {};
      z.content == w.content - gone
    ensures z.stores.Keys == w.stores.Keys && forall p :: p in w.stores && p != pid ==> z.stores[p] == w.stores[p]
    ensures z.stores[pid].meta == w.metas[n := m] && z.stores[pid].valid
    ensures
      var e := Cache.Cached(Cache.Key(n, v), Expanded(a, cfg.limit), m.sizeBytes);
      z.stores[pid].cache == Cache.PutSpec(w.stores[pid].cache, cfg.cacheBytes, e)
  {
    hide Reaches, Expanded, Cache.PutSpec;
    RefreshAll(cfg, w, tid);
    var prev := Get(w.metas, n);
    var y1 := Move(Renewed(w, pid), tid, PushCommit(n, v, prev));
    PushAction(cfg, y1, tid);
    var y2 := Move(PutMeta(y1, n, m), tid, PushApply(n, v, prev));
    ThenReaches(cfg, w, tid, y1, y2);
    PushAction(cfg, y2, tid);
    var y3 := ApplyLocal(y2, tid, y2.stores[pid], n, v, prev);
    ThenReaches(cfg, w, tid, y2, y3);
    PushAction(cfg, y3, tid);
    var y4 := CachePushed(cfg, y3, tid, y3.stores[pid], n, v, prev);
    ThenReaches(cfg, w, tid, y3, y4);
    PushAction(cfg, y4, tid);
    z := Collect(y4, tid, n, v, prev);
    ThenReaches(cfg, w, tid, y4, z);
  }

  lemma {:induction false} StartStep(cfg: Config, w: World, s: Step, tid: nat, pid: nat)
    requires Enabled(cfg, w, s)
    requires s.StartOpen? || s.StartDelete? || s.StartReap?
    requires s.tid == tid && s.pid == pid
    ensures
      var pc :=
        if s.StartOpen? then Snap(ForOpen(s.name))
        else if s.StartDelete? then Snap(ForDelete(s.name, JUST_ONE))
        else Snap(ForReap(s.now));
      Reaches(cfg, w, tid, Start(cfg, w, tid, pid, pc, !s.StartOpen?))
  {
    hide AdvanceOf, Reaches;
    OneStep(cfg, w, tid, s);
  }

  lemma {:induction false} StartPushStep(cfg: Config, w: World, s: Step)
    requires s.StartPush? && Enabled(cfg, w, s)
    ensures
      var m := MetaFor(cfg, s.name, s.archive, s.version, s.expiresAt);
      var y := w.(drawn := w.drawn[s.version := Draft(s.name, s.pid, s.archive, m)]);
      Reaches(cfg, w, s.tid, Start(cfg, y, s.tid, s.pid, PushPut(s.name, s.version), true))
  {
    hide AdvanceOf, Reaches, MetaFor, Acceptable;
    OneStep(cfg, w, s.tid, s);
  }

  /**
   A push that nothing disturbs ends with its metadata live, telling its archive
   and carrying its deadline, its content stored, the superseded content
   collected, its process aware of it and its tree offered to the cache; nothing
   else changes.
   */
  lemma {:induction false} PushCompletes(cfg: Config, w: World, s: Step) returns (z: World, m: Meta)
    requires s.StartPush? && Enabled(cfg, w, s)
    ensures Reaches(cfg, w, s.tid, z)
    ensures m.name == s.name && m.version == s.version && m.expiresAt == s.expiresAt && Tells(cfg, m, s.archive)
    ensures z.metas == w.metas[s.name := m] && z.threads == w.threads && (z.lock == w.lock || w.lock == Some(s.tid))
    ensures
      var n, v := s.name, s.version;
      var gone := if n in w.metas && w.metas[n].version != v then {Cache.Key(n, w.metas[n].version)} else {};
      z.content == w.content[Cache.Key(n, v) := s.archive] - gone
    ensures z.stores.Keys == w.stores.Keys && forall p :: p in w.stores && p != s.pid ==> z.stores[p] == w.stores[p]
    ensures z.stores[s.pid].meta == z.metas && z.stores[s.pid].valid
    ensures
      var e := Cache.Cached(Cache.Key(s.name, s.version), Expanded(s.archive, cfg.limit), m.sizeBytes);
      z.stores[s.pid].cache == Cache.PutSpec(w.stores[s.pid].cache, cfg.cacheBytes, e)
  {
    hide Reaches, Expanded, Cache.PutSpec, MetaFor, Acceptable, Tells;
    var tid, pid, n, v, a := s.tid, s.pid, s.name, s.version, s.archive;
    m := MetaFor(cfg, n, a, v, s.expiresAt);
    MetaTells(cfg, n, a, v, s.expiresAt);
    StartPushStep(cfg, w, s);
    var y1 := Start(cfg, w.(drawn := w.drawn[v := Draft(n, pid, a, m)]), tid, pid, PushPut(n, v), true);
    PushAction(cfg, y1, tid);
    var y2 := PutContent(y1, tid, n, v);
    ThenReaches(cfg, w, tid, y1, y2);
    z := CommitToEnd(cfg, y2, tid, pid, n, v, a, m);
    ThenReaches(cfg, w, tid, y2, z);
    assert y2.threads - {tid} == w.threads;
  }

  /** A push whose commit fails takes back its content and leaves the metadata alone. */
  lemma {:induction false} FailedCommitCleansUp(cfg: Config, w: World, tid: nat)
    requires tid in w.threads && w.threads[tid].pc.PushCommit? && w.threads[tid].pid in w.stores
    ensures Enabled(cfg, w, CommitFails(tid)) && Enabled(cfg, Next(cfg, w, CommitFails(tid)), Advance(tid))
    ensures
      var z := Next(cfg, Next(cfg, w, CommitFails(tid)), Advance(tid));
      && z.metas == w.metas && z.stores == w.stores && z.threads == w.threads - {tid}
      && z.content == w.content - {Cache.Key(w.threads[tid].pc.name, w.threads[tid].pc.version)}
  {
    hide AdvanceOpen, AdvanceDelete, PutContent, ApplyLocal, CachePushed, Collect, Resume;
    var pc := w.threads[tid].pc;
    MovedTwice(w, tid, PushCleanup(pc.name, pc.version), pc);
  }

  // ----- an open

  lemma {:induction false} OpenAction(cfg: Config, w: World, tid: nat)
    requires tid in w.threads && w.threads[tid].pid in w.stores
    requires var pc := w.threads[tid].pc; pc.OpenHave? || pc.OpenFetch? || pc.OpenPut?
    ensures Reaches(cfg, w, tid, AdvanceOpen(cfg, w, tid, w.stores[w.threads[tid].pid], w.threads[tid].pc))
  {
    hide AdvancePush, AdvanceOpen, AdvanceDelete, Reaches, MetaFor;
    OneStep(cfg, w, tid, Advance(tid));
  }

  lemma {:induction false} PathInv(cfg: Config, ws: seq<World>, steps: seq<Step>, i: nat)
    requires IsPath(cfg, ws, steps) && Inv(cfg, ws[0]) && !cfg.mode.Unrestricted? && i < |ws|
    ensures Inv(cfg, ws[i])
  {
    hide Inv, Next, Enabled;
    if i > 0 {
      PathInv(cfg, ws, steps, i - 1);
      assert ws[i - 1 + 1] == Next(cfg, ws[i - 1], steps[i - 1]);
      StepKeepsInv(cfg, ws[i - 1], steps[i - 1]);
    }
  }

  lemma {:induction false} ReachesInv(cfg: Config, w: World, tid: nat, z: World)
    requires Inv(cfg, w) && !cfg.mode.Unrestricted? && Reaches(cfg, w, tid, z)
    ensures Inv(cfg, z)
  {
    hide Inv, Next, Enabled, Own;
    var ws, steps :| Leads(cfg, w, tid, z, ws, steps);
    PathInv(cfg, ws, steps, |steps|);
  }

  /** What an open does from the lookup on: a hit is served, anything else is fetched and offered to the cache. */
  lemma {:induction false} OpenToEnd(cfg: Config, w: World, tid: nat, pid: nat, n: string, m: Meta, origin: Origin)
    returns (z: World, fsys: Expansion)
    requires pid in w.stores && tid in w.threads && w.threads[tid] == Thread(pid, OpenHave(n, m, origin))
    requires Cache.Key(n, m.version) in w.content
    ensures Reaches(cfg, w, tid, z)
    ensures z.metas == w.metas && z.content == w.content && z.drawn == w.drawn && z.lock == w.lock
    ensures z.threads == w.threads[tid := Thread(pid, OpenDone(n, m, origin, fsys))]
    ensures z.stores.Keys == w.stores.Keys && forall p :: p in w.stores && p != pid ==> z.stores[p] == w.stores[p]
    ensures z.stores[pid].(cache := []) == w.stores[pid].(cache := [])
    ensures
      var k := Cache.Key(n, m.version);
      var cache, hit := w.stores[pid].cache, Cache.HitSpec(w.stores[pid].cache, cfg.cacheBytes, k);
      var read := Cache.GetSpec(cache, cfg.cacheBytes, k);
      if hit.Some? then fsys == hit.value && z.stores[pid].cache == read
      else
        && fsys == Expanded(w.content[k], cfg.limit)
        && z.stores[pid].cache == Cache.PutSpec(read, cfg.cacheBytes,
             Cache.Cached(k, fsys, Volume(Contents(Memory, w.content[k], cfg.limit))))
  {
    hide Reaches, Expanded, Cache.PutSpec, Cache.GetSpec, Cache.HitSpec, Volume, Contents;
    var k := Cache.Key(n, m.version);
    OpenAction(cfg, w, tid);
    var y1 := LookInCache(cfg, w, tid, w.stores[pid], n, m, origin);
    if Cache.HitSpec(w.stores[pid].cache, cfg.cacheBytes, k).Some? {
      z, fsys := y1, Cache.HitSpec(w.stores[pid].cache, cfg.cacheBytes, k).value;
    } else {
      OpenAction(cfg, y1, tid);
      var y2 := GetContent(y1, tid, n, m, origin);
      ThenReaches(cfg, w, tid, y1, y2);
      OpenAction(cfg, y2, tid);
      fsys := Expanded(w.content[k], cfg.limit);
      z := FillCache(cfg, y2, tid, y2.stores[pid], n, m, origin, w.content[k]);
      ThenReaches(cfg, w, tid, y2, z);
    }
  }

  /** An open that nothing disturbs returns the tree of the live version, and of a site without metadata nothing. */
  lemma {:induction false} OpenCompletes(cfg: Config, w: World, tid: nat, pid: nat, n: string) returns (z: World)
    requires Inv(cfg, w) && !cfg.mode.Unrestricted? && tid !in w.threads && pid in w.stores
    ensures Reaches(cfg, w, tid, z) && z.metas == w.metas && z.content == w.content
    ensures n !in w.metas ==> z.threads == w.threads
    ensures n in w.metas ==>
      && Cache.Key(n, w.metas[n].version) in w.content
      && tid in z.threads && z.threads[tid].pid == pid && z.threads[tid].pc.OpenDone?
      && z.threads[tid].pc.name == n && z.threads[tid].pc.m == w.metas[n]
      && z.threads[tid].pc.fsys == Expanded(w.content[Cache.Key(n, w.metas[n].version)], cfg.limit)
  {
    hide Inv, InvBut, Reaches, Expanded, CollectOk, RefreshOk, PendingOk, PrevOk, OwnDraft;
    StartStep(cfg, w, StartOpen(tid, pid, n), tid, pid);
    var y1 := Start(cfg, w, tid, pid, Snap(ForOpen(n)), false);
    RefreshAll(cfg, y1, tid);
    var y2 := Resume(Renewed(y1, pid), tid, ForOpen(n), w.metas, FreshOrigin(y1));
    ThenReaches(cfg, w, tid, y1, y2);
    if n !in w.metas {
      z := y2;
      assert y1.threads - {tid} == w.threads;
    } else {
      OfMeta(cfg, w, n);
      var fsys;
      z, fsys := OpenToEnd(cfg, y2, tid, pid, n, w.metas[n], FreshOrigin(y1));
      ThenReaches(cfg, w, tid, y2, z);
      ReachesInv(cfg, w, tid, z);
      InvIsInvBut(cfg, z, tid);
      OfContent(cfg, z, Cache.Key(n, w.metas[n].version));
    }
  }

  // ----- a delete

  lemma {:induction false} DeleteAction(cfg: Config, w: World, tid: nat)
    requires tid in w.threads && w.threads[tid].pid in w.stores
    requires var pc := w.threads[tid].pc; pc.DelMeta? || pc.DelForget? || pc.DelDrop? || pc.DelSweep?
    ensures Reaches(cfg, w, tid, AdvanceDelete(w, tid, w.stores[w.threads[tid].pid], w.threads[tid].pc))
  {
    hide AdvancePush, AdvanceOpen, AdvanceDelete, Reaches, MetaFor;
    OneStep(cfg, w, tid, Advance(tid));
  }

  ghost function KeysOf(content: map<Cache.Key, Archive>, n: string): set<Cache.Key> {
    set k | k in content && k.name == n
  }

  lemma {:induction false} SweepStep(cfg: Config, w: World, tid: nat, k: Cache.Key)
    requires tid in w.threads && w.threads[tid].pc.DelSweep? && w.threads[tid].pc.name == k.name
    ensures Reaches(cfg, w, tid, DropContent(w, k))
  {
    hide AdvanceOf, Reaches;
    OneStep(cfg, w, tid, Sweep(tid, k.version));
  }

  lemma {:induction false} SweepAll(cfg: Config, w: World, tid: nat)
    requires tid in w.threads && w.threads[tid].pc.DelSweep?
    ensures Reaches(cfg, w, tid, w.(content := w.content - KeysOf(w.content, w.threads[tid].pc.name)))
    decreases KeysOf(w.content, w.threads[tid].pc.name)
  {
    hide Reaches;
    var n := w.threads[tid].pc.name;
    var keys := KeysOf(w.content, n);
    if keys == {} {
      assert w.content - keys == w.content;
      NoStep(cfg, w, tid);
    } else {
      var k :| k in keys;
      SweepStep(cfg, w, tid, k);
      var y := DropContent(w, k);
      assert KeysOf(y.content, n) == keys - {k};
      SweepAll(cfg, y, tid);
      assert w.content - {k} - (keys - {k}) == w.content - keys;
      ThenReaches(cfg, w, tid, y, w.(content := w.content - keys));
    }
  }

  lemma {:induction false} NoStep(cfg: Config, w: World, tid: nat)
    ensures Reaches(cfg, w, tid, w)
  {
    assert Leads(cfg, w, tid, w, [w], []);
  }

  /** The thread after one name of an errand: done, or about to look up the next. */
  ghost predicate GoesOn(w: World, z: World, tid: nat, pid: nat, rest: Errand) {
    if rest.names == [] then
      z.threads == w.threads - {tid} && z.lock == (if w.lock == Some(tid) then None else w.lock)
    else
      && z.lock == w.lock
      && z.threads == w.threads[tid := Thread(pid, Snap(ForDelete(rest.names[0], rest.(names := rest.names[1..]))))]
  }

  lemma {:induction false} NextReapGoesOn(w: World, y: World, tid: nat, pid: nat, rest: Errand)
    requires tid in w.threads && w.threads[tid].pid == pid && tid in y.threads && y.lock == w.lock
    requires y.threads == w.threads[tid := y.threads[tid]] && y.threads[tid].pid == pid
    ensures GoesOn(w, NextReap(y, tid, rest), tid, pid, rest)
    ensures NextReap(y, tid, rest).(threads := y.threads, lock := y.lock) == y
  {
    assert y.threads - {tid} == w.threads - {tid};
  }

  /** One name of an errand: its metadata, its local traces and all its content go, and nothing else. */
  lemma {:induction false} DeleteOne(cfg: Config, w: World, tid: nat, pid: nat, n: string, rest: Errand)
    returns (z: World)
    requires pid in w.stores && tid in w.threads && w.threads[tid] == Thread(pid, Snap(ForDelete(n, rest)))
    ensures Reaches(cfg, w, tid, z) && GoesOn(w, z, tid, pid, rest)
    ensures z.metas == w.metas - {n}
    ensures z.content == if n in w.metas then w.content - KeysOf(w.content, n) else w.content
    ensures z.stores.Keys == w.stores.Keys && forall p :: p in w.stores && p != pid ==> z.stores[p] == w.stores[p]
    ensures z.stores[pid].meta == z.metas && z.stores[pid].valid
    ensures z.stores[pid].cache ==
      if n in w.metas then Cache.DropAllSpec(w.stores[pid].cache, n) else w.stores[pid].cache
  {
    hide Reaches, Cache.DropAllSpec, NextReap, GoesOn, KeysOf;
    RefreshAll(cfg, w, tid);
    var y0 := Renewed(w, pid);
    if n !in w.metas {
      z := NextReap(y0, tid, rest);
      NextReapGoesOn(w, y0, tid, pid, rest);
      assert w.metas - {n} == w.metas;
    } else {
      var y1 := Move(y0, tid, DelMeta(n, rest));
      DeleteAction(cfg, y1, tid);
      var y2 := Move(DropMeta(y1, n), tid, DelForget(n, rest));
      ThenReaches(cfg, w, tid, y1, y2);
      DeleteAction(cfg, y2, tid);
      var y3 := ForgetLocal(y2, tid, y2.stores[pid], n, rest);
      ThenReaches(cfg, w, tid, y2, y3);
      DeleteAction(cfg, y3, tid);
      var y4 := DropCached(y3, tid, y3.stores[pid], n, rest);
      ThenReaches(cfg, w, tid, y3, y4);
      SweepAll(cfg, y4, tid);
      var y5 := y4.(content := y4.content - KeysOf(y4.content, n));
      ThenReaches(cfg, w, tid, y4, y5);
      DeleteAction(cfg, y5, tid);
      z := NextReap(y5, tid, rest);
      ThenReaches(cfg, w, tid, y5, z);
      assert y5.threads == w.threads[tid := y5.threads[tid]];
      NextReapGoesOn(w, y5, tid, pid, rest);
    }
  }

  /** A delete that nothing disturbs leaves neither metadata nor content of the site, and touches no other. */
  lemma {:induction false} DeleteCompletes(cfg: Config, w: World, tid: nat, pid: nat, n: string) returns (z: World)
    requires Enabled(cfg, w, StartDelete(tid, pid, n))
    ensures Reaches(cfg, w, tid, z) && z.metas == w.metas - {n} && z.threads == w.threads
    ensures n in w.metas ==> z.content == w.content - KeysOf(w.content, n)
    ensures n !in w.metas ==> z.content == w.content
    ensures z.stores.Keys == w.stores.Keys && z.stores[pid].meta == z.metas && z.stores[pid].valid
    ensures n in w.metas ==> z.stores[pid].cache == Cache.DropAllSpec(w.stores[pid].cache, n)
  {
    hide Reaches, Cache.DropAllSpec, KeysOf;
    StartStep(cfg, w, StartDelete(tid, pid, n), tid, pid);
    var y := Start(cfg, w, tid, pid, Snap(ForDelete(n, JUST_ONE)), true);
    z := DeleteOne(cfg, y, tid, pid, n, JUST_ONE);
    ThenReaches(cfg, w, tid, y, z);
    assert y.threads - {tid} == w.threads;
  }

  // ----- a reaping

  ghost function WithoutNames(content: map<Cache.Key, Archive>, names: seq<string>): map<Cache.Key, Archive> {
    map k | k in content && k.name !in names :: content[k]
  }

  lemma {:induction false} ReapNames(cfg: Config, w: World, tid: nat, pid: nat, names: seq<string>, due: Option<int>)
    returns (z: World)
    requires names != [] && pid in w.stores && tid in w.threads
    requires w.threads[tid] == Thread(pid, Snap(ForDelete(names[0], Errand(names[1..], due))))
    requires Distinct(names) && forall x :: x in names ==> x in w.metas
    ensures Reaches(cfg, w, tid, z) && z.threads == w.threads - {tid}
    ensures z.metas == w.metas - ToSet(names) && z.content == WithoutNames(w.content, names)
    decreases |names|
  {
    hide Reaches, Cache.DropAllSpec;
    var n, rest := names[0], Errand(names[1..], due);
    var y := DeleteOne(cfg, w, tid, pid, n, rest);
    assert n in names && names == [n] + names[1..];
    assert ToSet(names) == {n} + ToSet(names[1..]);
    if |names| == 1 {
      z := y;
      assert WithoutNames(w.content, names) == w.content - KeysOf(w.content, n);
    } else {
      assert n !in names[1..];
      z := ReapNames(cfg, y, tid, pid, names[1..], due);
      ThenReaches(cfg, w, tid, y, z);
      assert w.metas - {n} - ToSet(names[1..]) == w.metas - ToSet(names);
      assert WithoutNames(w.content - KeysOf(w.content, n), names[1..]) == WithoutNames(w.content, names);
      assert y.threads - {tid} == w.threads - {tid};
    }
  }

  lemma {:induction false} DueAll(snap: map<string, Meta>, now: int)
    ensures Distinct(Due(snap, now))
    ensures forall x :: x in Due(snap, now) <==> x in snap && DueBy(snap[x], now)
  {
    var names := set n | n in snap && snap[n].expiresAt.Some? && snap[n].expiresAt.value <= now;
    AscendingExact(names);
    forall x ensures x in Due(snap, now) <==> x in names { assert x in ToSet(Ascending(names)) <==> x in names; }
  }

  /**
   A reaping that nothing disturbs removes every site whose deadline is at or
   before its time, with all its content, and leaves every other as it was.
   */
  lemma {:induction false} ReapCompletes(cfg: Config, w: World, tid: nat, pid: nat, now: int) returns (z: World)
    requires Enabled(cfg, w, StartReap(tid, pid, now))
    ensures Reaches(cfg, w, tid, z) && z.threads == w.threads
    ensures forall n :: Get(z.metas, n) == if n in w.metas && DueBy(w.metas[n], now) then None else Get(w.metas, n)
    ensures forall k :: k in z.content <==> k in w.content && !(k.name in w.metas && DueBy(w.metas[k.name], now))
    ensures forall k :: k in z.content ==> z.content[k] == w.content[k]
  {
    hide Reaches, Due;
    StartStep(cfg, w, StartReap(tid, pid, now), tid, pid);
    var y1 := Start(cfg, w, tid, pid, Snap(ForReap(now)), true);
    RefreshAll(cfg, y1, tid);
    var names := Due(w.metas, now);
    var y2 := NextReap(Renewed(y1, pid), tid, Errand(names, Some(now)));
    ThenReaches(cfg, w, tid, y1, y2);
    DueAll(w.metas, now);
    assert y1.threads - {tid} == w.threads;
    if names == [] {
      z := y2;
    } else {
      z := ReapNames(cfg, y2, tid, pid, names, Some(now));
      ThenReaches(cfg, w, tid, y2, z);
      assert y2.threads - {tid} == w.threads;
    }
  }
}
