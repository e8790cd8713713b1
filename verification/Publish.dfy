/**
 The object-storage publish and read protocol, as a transition system: several
 processes, each with request threads, over one bucket.  Every bucket request
 is one step, and a thread or a whole process may stop after any step.

 Assumed of the outside: version names are fresh, a single PUT, GET or DELETE is
 atomic, a request reported as failed had no effect, and one listing of the
 metadata prefix is one step.
 */
module Publish {
  import opened Results
  import opened Ordering
  import opened Archives
  import Cache

  /** The metadata object; its version names the live content object. */
  datatype Meta = Meta(name: string, version: string, fileCount: nat, sizeBytes: nat, expiresAt: Option<int>)

  /** What a push set out to publish under a version it drew. */
  datatype Draft = Draft(name: string, pid: nat, archive: Archive, meta: Meta)

  /** Who may mutate: one broker holding its lock, any number of pushers without deletes, or anyone. */
  datatype Mode = Serialized | PushersOnly | Unrestricted

  datatype Config = Config(mode: Mode, limit: Int64, cacheBytes: int)

  /** What a delete has still to do: for a reaper the names left and the time it reaps for. */
  datatype Errand = Errand(names: seq<string>, due: Option<int>)

  const JUST_ONE: Errand := Errand([], None)

  /** What a thread does with the metadata map it is about to obtain. */
  datatype Cont =
    | ForOpen(name: string)
    | ForPush(name: string, version: string)
    | ForDelete(name: string, rest: Errand)
    | ForReap(now: int)

  /**
   Where a metadata map comes from: when the refresh that installed it began (an
   index into the log), and the versions applyLocal has folded into it since.
   */
  datatype Origin = Origin(began: nat, folded: set<string>)

  /** Where a thread stands. origin is that of the map its metadata was taken from. */
  datatype Pc =
    | Snap(cont: Cont)
    | Refreshing(cont: Cont, began: nat, todo: set<string>, acc: map<string, Meta>)
    | OpenHave(name: string, m: Meta, origin: Origin)
    | OpenFetch(name: string, m: Meta, origin: Origin)
    | OpenPut(name: string, m: Meta, origin: Origin, archive: Archive)
    | OpenDone(name: string, m: Meta, origin: Origin, fsys: Expansion)
    | PushPut(name: string, version: string)
    | PushCommit(name: string, version: string, prev: Option<Meta>)
    | PushCleanup(name: string, version: string)
    | PushApply(name: string, version: string, prev: Option<Meta>)
    | PushCache(name: string, version: string, prev: Option<Meta>)
    | PushCollect(name: string, version: string, prev: Option<Meta>)
    | DelMeta(name: string, rest: Errand)
    | DelForget(name: string, rest: Errand)
    | DelDrop(name: string, rest: Errand)
    | DelSweep(name: string, rest: Errand)

  datatype Thread = Thread(pid: nat, pc: Pc)

  /** One process's metadata map and content cache. */
  datatype Local = Local(meta: map<string, Meta>, valid: bool, origin: Origin, cache: seq<Cache.Cached>)

  /**
   The world.  drawn, committed and log are history: every version ever drawn,
   those whose metadata was ever written, and the metadata at every moment.
   */
  datatype World = World(
    metas: map<string, Meta>,
    content: map<Cache.Key, Archive>,
    stores: map<nat, Local>,
    threads: map<nat, Thread>,
    lock: Option<nat>,
    drawn: map<string, Draft>,
    committed: set<string>,
    log: seq<map<string, Meta>>)

  datatype Step =
    | Boot(pid: nat)
    | Crash(pid: nat)
    | Abort(tid: nat)
    | StartOpen(tid: nat, pid: nat, name: string)
    | StartPush(tid: nat, pid: nat, name: string, archive: Archive, expiresAt: Option<int>, version: string)
    | StartDelete(tid: nat, pid: nat, name: string)
    | StartReap(tid: nat, pid: nat, now: int)
    | UseLocal(tid: nat)
    | BeginRefresh(tid: nat)
    | ReadMeta(tid: nat, name: string)
    | Install(tid: nat)
    | LookupFails(tid: nat)
    | CommitFails(tid: nat)
    | Sweep(tid: nat, version: string)
    | Advance(tid: nat)

  ghost const START: World := World(map[], map[], map[], map[], None, map[], {}, [map[]])

  ghost function MetaFor(cfg: Config, name: string, a: Archive, version: string, expiresAt: Option<int>): Meta {
    var xs := Contents(Memory, a, cfg.limit);
    Meta(name, version, |FileNames(xs)|, Volume(xs), expiresAt)
  }

  // ----- steps

  ghost predicate LockFree(cfg: Config, w: World) {
    cfg.mode.Serialized? ==> w.lock.None?
  }

  ghost predicate HasLocalTurn(pc: Pc) {
    pc.Snap? && !pc.cont.ForReap?
  }

  ghost predicate CanAdvance(pc: Pc) {
    !pc.Snap? && !pc.Refreshing? && !pc.OpenDone?
  }

  ghost predicate Enabled(cfg: Config, w: World, s: Step) {
    match s
    case Boot(pid) => pid !in w.stores
    case Crash(pid) => pid in w.stores
    case Abort(tid) => tid in w.threads
    case StartOpen(tid, pid, _) => tid !in w.threads && pid in w.stores
    case StartPush(tid, pid, name, a, _, v) =>
      && tid !in w.threads && pid in w.stores && LockFree(cfg, w)
      && Acceptable(Memory, a, cfg.limit) && v !in w.drawn
    case StartDelete(tid, pid, _) => tid !in w.threads && pid in w.stores && LockFree(cfg, w) && !cfg.mode.PushersOnly?
    case StartReap(tid, pid, _) => tid !in w.threads && pid in w.stores && LockFree(cfg, w) && !cfg.mode.PushersOnly?
    case UseLocal(tid) =>
      && tid in w.threads && HasLocalTurn(w.threads[tid].pc)
      && w.threads[tid].pid in w.stores && w.stores[w.threads[tid].pid].valid
    case BeginRefresh(tid) => tid in w.threads && w.threads[tid].pc.Snap?
    case ReadMeta(tid, n) => tid in w.threads && w.threads[tid].pc.Refreshing? && n in w.threads[tid].pc.todo
    case Install(tid) =>
      && tid in w.threads && w.threads[tid].pc.Refreshing?
      && w.threads[tid].pc.todo == {} && w.threads[tid].pid in w.stores
    case LookupFails(tid) =>
      tid in w.threads && (w.threads[tid].pc.Snap? || w.threads[tid].pc.Refreshing?) && w.threads[tid].pc.cont.ForPush?
    case CommitFails(tid) => tid in w.threads && w.threads[tid].pc.PushCommit?
    case Sweep(tid, v) => tid in w.threads && w.threads[tid].pc.DelSweep?
    case Advance(tid) => tid in w.threads && CanAdvance(w.threads[tid].pc) && w.threads[tid].pid in w.stores
  }

  ghost function Move(w: World, tid: nat, pc: Pc): World
    requires tid in w.threads
  {
    w.(threads := w.threads[tid := w.threads[tid].(pc := pc)])
  }

  /** A thread returns, giving back the lock if it holds it. */
  ghost function End(w: World, tid: nat): World {
    w.(threads := w.threads - {tid}, lock := if w.lock == Some(tid) then None else w.lock)
  }

  ghost function Start(cfg: Config, w: World, tid: nat, pid: nat, pc: Pc, mutates: bool): World {
    w.(threads := w.threads[tid := Thread(pid, pc)],
       lock := if mutates && cfg.mode.Serialized? then Some(tid) else w.lock)
  }

  ghost function Due(snap: map<string, Meta>, now: int): seq<string> {
    Ascending(set n | n in snap && snap[n].expiresAt.Some? && snap[n].expiresAt.value <= now)
  }

  /** The reaper goes on to its next name; a plain delete has none. */
  ghost function NextReap(w: World, tid: nat, rest: Errand): World
    requires tid in w.threads
  {
    if rest.names == [] then End(w, tid)
    else Move(w, tid, Snap(ForDelete(rest.names[0], rest.(names := rest.names[1..]))))
  }

  /** A thread that has obtained a metadata map goes on. */
  ghost function Resume(w: World, tid: nat, cont: Cont, snap: map<string, Meta>, origin: Origin): World
    requires tid in w.threads
  {
    match cont
    case ForOpen(n) => if n in snap then Move(w, tid, OpenHave(n, snap[n], origin)) else End(w, tid)
    case ForPush(n, v) => Move(w, tid, PushCommit(n, v, Get(snap, n)))
    case ForDelete(n, rest) => if n in snap then Move(w, tid, DelMeta(n, rest)) else NextReap(w, tid, rest)
    case ForReap(now) => NextReap(w, tid, Errand(Due(snap, now), Some(now)))
  }

  ghost function PutMeta(w: World, n: string, m: Meta): World {
    var metas := w.metas[n := m];
    w.(metas := metas, committed := w.committed + {m.version}, log := w.log + [metas])
  }

  ghost function DropMeta(w: World, n: string): World {
    var metas := w.metas - {n};
    w.(metas := metas, log := w.log + [metas])
  }

  ghost function DropContent(w: World, k: Cache.Key): World {
    w.(content := w.content - {k})
  }

  ghost function SetStore(w: World, pid: nat, l: Local): World {
    w.(stores := w.stores[pid := l])
  }

  ghost function CacheAdd(cfg: Config, l: Local, k: Cache.Key, fsys: Expansion, size: nat): Local {
    l.(cache := Cache.PutSpec(l.cache, cfg.cacheBytes, Cache.Cached(k, fsys, size)))
  }

  ghost function FoldIn(l: Local, n: string, m: Meta): Local {
    l.(meta := l.meta[n := m], origin := l.origin.(folded := l.origin.folded + {m.version}))
  }

  // Each of the following is one request or local action of a thread; l is its process's local state.

  ghost function LookInCache(cfg: Config, w: World, tid: nat, l: Local, n: string, m: Meta, origin: Origin): World
    requires tid in w.threads
  {
    var k := Cache.Key(n, m.version);
    var hit := Cache.HitSpec(l.cache, cfg.cacheBytes, k);
    var z := SetStore(w, w.threads[tid].pid, l.(cache := Cache.GetSpec(l.cache, cfg.cacheBytes, k)));
    if hit.Some? then Move(z, tid, OpenDone(n, m, origin, hit.value)) else Move(z, tid, OpenFetch(n, m, origin))
  }

  ghost function GetContent(w: World, tid: nat, n: string, m: Meta, origin: Origin): World
    requires tid in w.threads
  {
    var k := Cache.Key(n, m.version);
    if k in w.content then Move(w, tid, OpenPut(n, m, origin, w.content[k])) else End(w, tid)
  }

  ghost function FillCache(
    cfg: Config, w: World, tid: nat, l: Local, n: string, m: Meta, origin: Origin, a: Archive): World
    requires tid in w.threads
  {
    var fsys := Expanded(a, cfg.limit);
    var size := Volume(Contents(Memory, a, cfg.limit));
    var l' := CacheAdd(cfg, l, Cache.Key(n, m.version), fsys, size);
    Move(SetStore(w, w.threads[tid].pid, l'), tid, OpenDone(n, m, origin, fsys))
  }

  ghost function PutContent(w: World, tid: nat, n: string, v: string): World
    requires tid in w.threads && v in w.drawn
  {
    Move(w.(content := w.content[Cache.Key(n, v) := w.drawn[v].archive]), tid, Snap(ForPush(n, v)))
  }

  ghost function ApplyLocal(w: World, tid: nat, l: Local, n: string, v: string, prev: Option<Meta>): World
    requires tid in w.threads && v in w.drawn
  {
    Move(SetStore(w, w.threads[tid].pid, FoldIn(l, n, w.drawn[v].meta)), tid, PushCache(n, v, prev))
  }

  ghost function CachePushed(cfg: Config, w: World, tid: nat, l: Local, n: string, v: string, prev: Option<Meta>): World
    requires tid in w.threads && v in w.drawn
  {
    var fsys := Expanded(w.drawn[v].archive, cfg.limit);
    var l' := CacheAdd(cfg, l, Cache.Key(n, v), fsys, w.drawn[v].meta.sizeBytes);
    Move(SetStore(w, w.threads[tid].pid, l'), tid, PushCollect(n, v, prev))
  }

  ghost function Collect(w: World, tid: nat, n: string, v: string, prev: Option<Meta>): World {
    if prev.Some? && prev.value.version != v then End(DropContent(w, Cache.Key(n, prev.value.version)), tid)
    else End(w, tid)
  }

  ghost function ForgetLocal(w: World, tid: nat, l: Local, n: string, rest: Errand): World
    requires tid in w.threads
  {
    Move(SetStore(w, w.threads[tid].pid, l.(meta := l.meta - {n})), tid, DelDrop(n, rest))
  }

  ghost function DropCached(w: World, tid: nat, l: Local, n: string, rest: Errand): World
    requires tid in w.threads
  {
    Move(SetStore(w, w.threads[tid].pid, l.(cache := Cache.DropAllSpec(l.cache, n))), tid, DelSweep(n, rest))
  }

  ghost function AdvanceOpen(cfg: Config, w: World, tid: nat, l: Local, pc: Pc): World
    requires tid in w.threads && (pc.OpenHave? || pc.OpenFetch? || pc.OpenPut?)
  {
    match pc
    case OpenHave(n, m, origin) => LookInCache(cfg, w, tid, l, n, m, origin)
    case OpenFetch(n, m, origin) => GetContent(w, tid, n, m, origin)
    case OpenPut(n, m, origin, a) => FillCache(cfg, w, tid, l, n, m, origin, a)
  }

  ghost function AdvancePush(cfg: Config, w: World, tid: nat, l: Local, pc: Pc): World
    requires tid in w.threads
    requires pc.PushPut? || pc.PushCommit? || pc.PushCleanup? || pc.PushApply? || pc.PushCache? || pc.PushCollect?
  {
    match pc
    case PushPut(n, v) => if v in w.drawn then PutContent(w, tid, n, v) else End(w, tid)
    case PushCommit(n, v, prev) =>
      if v in w.drawn then Move(PutMeta(w, n, w.drawn[v].meta), tid, PushApply(n, v, prev)) else End(w, tid)
    case PushCleanup(n, v) => End(DropContent(w, Cache.Key(n, v)), tid)
    case PushApply(n, v, prev) => if v in w.drawn then ApplyLocal(w, tid, l, n, v, prev) else End(w, tid)
    case PushCache(n, v, prev) => if v in w.drawn then CachePushed(cfg, w, tid, l, n, v, prev) else End(w, tid)
    case PushCollect(n, v, prev) => Collect(w, tid, n, v, prev)
  }

  ghost function AdvanceDelete(w: World, tid: nat, l: Local, pc: Pc): World
    requires tid in w.threads && (pc.DelMeta? || pc.DelForget? || pc.DelDrop? || pc.DelSweep?)
  {
    match pc
    case DelMeta(n, rest) => Move(DropMeta(w, n), tid, DelForget(n, rest))
    case DelForget(n, rest) => ForgetLocal(w, tid, l, n, rest)
    case DelDrop(n, rest) => DropCached(w, tid, l, n, rest)
    case DelSweep(n, rest) => NextReap(w, tid, rest)
  }

  /** The next request or local action of a thread that is not obtaining metadata. */
  ghost function AdvanceOf(cfg: Config, w: World, tid: nat): World
    requires Enabled(cfg, w, Advance(tid))
  {
    var l, pc := w.stores[w.threads[tid].pid], w.threads[tid].pc;
    if pc.OpenHave? || pc.OpenFetch? || pc.OpenPut? then AdvanceOpen(cfg, w, tid, l, pc)
    else if pc.DelMeta? || pc.DelForget? || pc.DelDrop? || pc.DelSweep? then AdvanceDelete(w, tid, l, pc)
    else AdvancePush(cfg, w, tid, l, pc)
  }

  ghost function Next(cfg: Config, w: World, s: Step): World
    requires Enabled(cfg, w, s)
  {
    match s
    case Boot(pid) => SetStore(w, pid, Local(map[], false, Origin(0, {}), []))
    case Crash(pid) =>
      var gone := set t | t in w.threads && w.threads[t].pid == pid;
      w.(stores := w.stores - {pid}, threads := w.threads - gone,
         lock := if w.lock.Some? && w.lock.value in gone then None else w.lock)
    case Abort(tid) => End(w, tid)
    case StartOpen(tid, pid, n) => Start(cfg, w, tid, pid, Snap(ForOpen(n)), false)
    case StartPush(tid, pid, n, a, expiresAt, v) =>
      var draft := Draft(n, pid, a, MetaFor(cfg, n, a, v, expiresAt));
      Start(cfg, w.(drawn := w.drawn[v := draft]), tid, pid, PushPut(n, v), true)
    case StartDelete(tid, pid, n) => Start(cfg, w, tid, pid, Snap(ForDelete(n, JUST_ONE)), true)
    case StartReap(tid, pid, now) => Start(cfg, w, tid, pid, Snap(ForReap(now)), true)
    case UseLocal(tid) =>
      var l := w.stores[w.threads[tid].pid];
      Resume(w, tid, w.threads[tid].pc.cont, l.meta, l.origin)
    case BeginRefresh(tid) =>
      Move(w, tid, Refreshing(w.threads[tid].pc.cont, if |w.log| > 0 then |w.log| - 1 else 0, w.metas.Keys, map[]))
    case ReadMeta(tid, n) =>
      var pc := w.threads[tid].pc;
      Move(w, tid, pc.(todo := pc.todo - {n}, acc := if n in w.metas then pc.acc[n := w.metas[n]] else pc.acc))
    case Install(tid) =>
      var pid, pc := w.threads[tid].pid, w.threads[tid].pc;
      var origin := Origin(pc.began, {});
      Resume(SetStore(w, pid, Local(pc.acc, true, origin, w.stores[pid].cache)), tid, pc.cont, pc.acc, origin)
    case LookupFails(tid) =>
      Move(w, tid, PushCommit(w.threads[tid].pc.cont.name, w.threads[tid].pc.cont.version, None))
    case CommitFails(tid) => Move(w, tid, PushCleanup(w.threads[tid].pc.name, w.threads[tid].pc.version))
    case Sweep(tid, v) => DropContent(w, Cache.Key(w.threads[tid].pc.name, v))
    case Advance(tid) => AdvanceOf(cfg, w, tid)
  }

  /** A sequence of worlds, each the next by an enabled step. */
  ghost predicate IsPath(cfg: Config, ws: seq<World>, steps: seq<Step>) {
    && |ws| == |steps| + 1
    && forall i :: 0 <= i < |steps| ==> Enabled(cfg, ws[i], steps[i]) && ws[i + 1] == Next(cfg, ws[i], steps[i])
  }

  ghost predicate IsRun(cfg: Config, ws: seq<World>, steps: seq<Step>) {
    IsPath(cfg, ws, steps) && ws[0] == START
  }
}
