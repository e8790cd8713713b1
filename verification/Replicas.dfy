/**
 The token document as one object of a bucket that several replicas share,
 written with conditional PUTs (If-Match and If-None-Match, sections 13.1.1 and
 13.1.2 of RFC 9110; 412 Precondition Failed, section 15.5.13).
 */
module Replicas {
  import opened Results
  import opened Tokens
  import TokenRuns

  type Content = seq<Record>

  /** The stored object: its entity tag and the document. */
  datatype Object = Object(etag: string, content: Content)

  /** What a Document remembers: the tag last observed, "" for "believed absent", and whether it observed one. */
  datatype Handle = Handle(etag: string, seen: bool)

  datatype Condition = IfMatch(etag: string) | IfNoneMatchAny | Unconditional

  function ConditionOf(h: Handle): Condition {
    if h.seen && h.etag != "" then IfMatch(h.etag)
    else if h.seen then IfNoneMatchAny
    else Unconditional
  }

  /** A server that honours conditional writes. */
  predicate Admits(obj: Option<Object>, c: Condition) {
    match c
    case IfMatch(etag) => obj.Some? && obj.value.etag == etag
    case IfNoneMatchAny => obj.None?
    case Unconditional => true
  }

  function ContentOf(obj: Option<Object>): Content {
    match obj
    case None => []
    case Some(o) => o.content
  }

  datatype SaveOutcome = Saved | Conflict | Failed

  class Bucket {
    var obj: Option<Object>

    constructor ()
      ensures obj == None
    {
      obj := None;
    }

    /** A conditional PUT; the server picks the new tag, and a failed request changes nothing. */
    method Put(c: Condition, data: Content, tag: string, fails: bool) returns (outcome: SaveOutcome)
      modifies this
      ensures outcome == if fails then Failed else if Admits(old(obj), c) then Saved else Conflict
      ensures obj == if outcome.Saved? then Some(Object(tag, data)) else old(obj)
    {
      if fails {
        return Failed;
      }
      if !Admits(obj, c) {
        return Conflict;
      }
      obj := Some(Object(tag, data));
      return Saved;
    }
  }

  /** The handle after a load, and after a save. */
  function Observed(obj: Option<Object>): Handle {
    match obj
    case None => Handle("", true)
    case Some(o) => Handle(o.etag, true)
  }

  function AfterSave(h: Handle, outcome: SaveOutcome, tag: string): Handle {
    match outcome
    case Saved => Handle(tag, true)
    case Conflict => Handle("", false)
    case Failed => h
  }

  /** Entity tags are not empty. */
  ghost predicate Tagged(obj: Option<Object>) {
    obj.Some? ==> obj.value.etag != ""
  }

  /**
   What becomes of a save: unless the request fails, it succeeds when the object
   is still what the handle observed, or when the handle observes nothing, and
   meets a conflict when the object is anything else.
   */
  ghost predicate SaveLaw(h: Handle, obj: Option<Object>, fails: bool, outcome: SaveOutcome) {
    outcome == if fails then Failed else if !h.seen || h == Observed(obj) then Saved else Conflict
  }

  class Document {
    const bucket: Bucket
    var etag: string
    var seen: bool

    ghost function Now(): Handle
      reads this
    {
      Handle(etag, seen)
    }

    constructor (b: Bucket)
      ensures bucket == b && Now() == Handle("", false)
    {
      bucket, etag, seen := b, "", false;
    }

    /** A read that fails observes nothing. */
    method Load(fails: bool) returns (r: Result<Content>)
      modifies this
      ensures r == if fails then Err(ReadFailed) else Ok(ContentOf(bucket.obj))
      ensures Now() == if fails then old(Now()) else Observed(bucket.obj)
    {
      if fails {
        return Err(ReadFailed);
      }
      match bucket.obj {
        case None =>
          etag, seen := "", true;
          return Ok([]);
        case Some(o) =>
          etag, seen := o.etag, true;
          return Ok(o.content);
      }
    }

    /** Writes only over the version last observed; after a conflict the handle forgets it. */
    method Save(data: Content, tag: string, fails: bool) returns (outcome: SaveOutcome)
      modifies this, bucket
      ensures outcome == if fails then Failed
        else if Admits(old(bucket.obj), ConditionOf(old(Now()))) then Saved else Conflict
      ensures bucket.obj == if outcome.Saved? then Some(Object(tag, data)) else old(bucket.obj)
      ensures Now() == AfterSave(old(Now()), outcome, tag)
      ensures Tagged(old(bucket.obj)) ==> SaveLaw(old(Now()), old(bucket.obj), fails, outcome)
      ensures outcome.Saved? ==> bucket.obj == Some(Object(tag, data)) && Now() == Observed(bucket.obj)
      ensures !outcome.Saved? ==> bucket.obj == old(bucket.obj)
      ensures (outcome.Conflict? ==> !seen) && (outcome.Failed? ==> Now() == old(Now()))
    {
      var c :=
        if seen && etag != "" then IfMatch(etag)
        else if seen then IfNoneMatchAny
        else Unconditional;
      outcome := bucket.Put(c, data, tag, fails);
      match outcome {
        case Saved => etag, seen := tag, true;
        case Conflict => etag, seen := "", false;
        case Failed =>
      }
    }
  }

  // ----- several replicas over one obj

  /** A replica: its token set, whose stored part is what it last read or wrote, and its handle. */
  datatype Replica = Replica(tok: State, h: Handle)

  datatype System = System(obj: Option<Object>, issued: map<string, Content>, reps: map<nat, Replica>)

  datatype Act =
    | Rebuild(r: nat)
    | Do(r: nat, op: Op, fails: bool, tag: string)

  ghost function OutcomeOf(y: System, a: Act): SaveOutcome
    requires a.Do? && a.r in y.reps
  {
    if a.fails then Failed else if Admits(y.obj, ConditionOf(y.reps[a.r].h)) then Saved else Conflict
  }

  /** The document an action tries to write, if any. */
  ghost function Wants(hash: string -> string, y: System, a: Act): Option<Content> {
    if a.Do? && a.r in y.reps then Attempt(hash, y.reps[a.r].tok, a.op) else None
  }

  ghost predicate Saves(hash: string -> string, y: System, a: Act) {
    Wants(hash, y, a).Some? && OutcomeOf(y, a).Saved?
  }

  /** Tags are never empty, and one tag never stands for two documents. */
  ghost predicate Enabled(hash: string -> string, y: System, a: Act) {
    a.Do? ==>
      && a.r in y.reps && !a.op.Restart?
      && (Saves(hash, y, a) ==> a.tag != "" && (a.tag in y.issued ==> y.issued[a.tag] == Wants(hash, y, a).value))
  }

  /** A replica that met a conflict saves nothing before it is rebuilt. */
  ghost predicate Disciplined(hash: string -> string, y: System, a: Act) {
    Wants(hash, y, a).Some? ==> y.reps[a.r].h.seen
  }

  ghost function Next(hash: string -> string, y: System, a: Act): System
    requires Enabled(hash, y, a)
  {
    match a
    case Rebuild(r) =>
      var data := ContentOf(y.obj);
      y.(reps := y.reps[r := Replica(State(data, LoadedTimes(data), data), Observed(y.obj))])
    case Do(r, op, fails, tag) =>
      var rep := y.reps[r];
      var want := Wants(hash, y, a);
      if want.None? then y.(reps := y.reps[r := rep.(tok := Step(hash, rep.tok, op, false))])
      else
        var outcome := OutcomeOf(y, a);
        var rep' := Replica(Step(hash, rep.tok, op, outcome.Saved?), AfterSave(rep.h, outcome, tag));
        if outcome.Saved? then System(Some(Object(tag, want.value)), y.issued[tag := want.value], y.reps[r := rep'])
        else y.(reps := y.reps[r := rep'])
  }

  ghost predicate RepInv(y: System, p: Replica) {
    && TokenRuns.Inv(p.tok)
    && (p.h.seen && p.h.etag != "" ==> p.h.etag in y.issued && y.issued[p.h.etag] == p.tok.stored)
    && (p.h.seen && p.h.etag == "" ==> p.tok.stored == [])
  }

  ghost predicate SysInv(y: System) {
    && (y.obj.Some? ==>
          && y.obj.value.etag != "" && y.obj.value.etag in y.issued
          && y.issued[y.obj.value.etag] == y.obj.value.content
          && TokenRuns.Distinct(y.obj.value.content))
    && forall r :: r in y.reps ==> RepInv(y, y.reps[r])
  }

  lemma AttemptIsStored(hash: string -> string, s: State, op: Op)
    requires Attempt(hash, s, op).Some?
    ensures Step(hash, s, op, true).stored == Step(hash, s, op, true).recs == Attempt(hash, s, op).value
    ensures Step(hash, s, op, false).stored == s.stored
  {
    hide IdFrom, NameFrom, Minted, Accepted;
  }

  lemma NoAttemptKeepsStored(hash: string -> string, s: State, op: Op)
    requires Attempt(hash, s, op).None? && !op.Restart?
    ensures Step(hash, s, op, false).stored == s.stored
  {
    hide IdFrom, NameFrom, Minted, Accepted;
  }

  lemma {:induction false} KnownAlike(s: State, r: Record)
    requires TokenRuns.Inv(s)
    ensures TokenRuns.Holds(s.recs, r) <==> TokenRuns.Holds(s.stored, r)
  {
    if i :| 0 <= i < |s.recs| && TokenRuns.SameButUse(s.recs[i], r) {
      assert TokenRuns.SameButUse(s.recs[i], s.stored[i]);
    }
    if i :| 0 <= i < |s.stored| && TokenRuns.SameButUse(s.stored[i], r) {
      assert TokenRuns.SameButUse(s.recs[i], s.stored[i]);
    }
  }

  /** Only a Revoke drops a token, and only the one it names. */
  lemma {:induction false} AttemptDrops(hash: string -> string, s: State, op: Op, r: Record)
    requires TokenRuns.Inv(s) && Attempt(hash, s, op).Some? && TokenRuns.Holds(s.stored, r)
    ensures
      || TokenRuns.Holds(Attempt(hash, s, op).value, r)
      || (op.Revoke? && Target(s.recs, op.key).Some? && TokenRuns.SameButUse(s.recs[Target(s.recs, op.key).value], r))
  {
    hide IdFrom, NameFrom, Minted, Accepted, TokenRuns.Inv;
    KnownAlike(s, r);
    var i :| 0 <= i < |s.recs| && TokenRuns.SameButUse(s.recs[i], r);
    var after := Attempt(hash, s, op).value;
    match op
    case Create(_, _, _, _, _) =>
      assert after[i] == s.recs[i];
    case Revoke(key) =>
      var k := Target(s.recs, key).value;
      assert i != k ==> after[if i < k then i else i - 1] == s.recs[i];
    case Verify(bearer, now) =>
      assert TokenRuns.SameButUse(after[i], r);
    case Restart =>
  }

  /** Each successful save replaces exactly what its replica last read or wrote. */
  lemma {:induction false} SaveReplacesBase(hash: string -> string, y: System, a: Act)
    requires SysInv(y) && Enabled(hash, y, a) && Disciplined(hash, y, a) && Saves(hash, y, a)
    ensures ContentOf(y.obj) == y.reps[a.r].tok.stored
  {
    assert RepInv(y, y.reps[a.r]);
  }

  /** A save succeeds exactly if the request does not fail and nobody else has written since the last observation. */
  lemma {:induction false} SaveExact(hash: string -> string, y: System, a: Act)
    requires SysInv(y) && Enabled(hash, y, a) && Wants(hash, y, a).Some?
    ensures SaveLaw(y.reps[a.r].h, y.obj, a.fails, OutcomeOf(y, a))
    ensures Saves(hash, y, a) <==> !a.fails && (!y.reps[a.r].h.seen || y.reps[a.r].h == Observed(y.obj))
  {}

  /** A replica that is up to date stays so through its own operations, so alone it never meets a conflict. */
  lemma {:induction false} AloneStaysCurrent(hash: string -> string, y: System, a: Act)
    requires SysInv(y) && Enabled(hash, y, a) && a.Do? && y.reps[a.r].h == Observed(y.obj)
    ensures Next(hash, y, a).reps[a.r].h == Observed(Next(hash, y, a).obj)
    ensures Wants(hash, y, a).Some? && !a.fails ==> ContentOf(Next(hash, y, a).obj) == Wants(hash, y, a).value
  {
    hide Attempt, Step, TokenRuns.Inv;
    if Wants(hash, y, a).Some? { SaveExact(hash, y, a); }
  }

  /** A rebuilt replica is up to date, and holds what the document holds. */
  lemma {:induction false} RebuiltIsCurrent(hash: string -> string, y: System, r: nat)
    ensures
      var p := Next(hash, y, Rebuild(r)).reps[r];
      p.h == Observed(y.obj) && p.tok.recs == ContentOf(y.obj) && p.tok.stored == ContentOf(y.obj)
  {}

  lemma RepInvGrows(y: System, z: System, p: Replica)
    requires RepInv(y, p)
    requires forall e :: e in y.issued ==> e in z.issued && z.issued[e] == y.issued[e]
    ensures RepInv(z, p)
  {}

  lemma RebuildKeepsInv(hash: string -> string, y: System, r: nat)
    requires SysInv(y)
    ensures SysInv(Next(hash, y, Rebuild(r)))
  {
    var data := ContentOf(y.obj);
    var z := Next(hash, y, Rebuild(r));
    TokenRuns.AgreeSelf(data);
    forall id ensures id in LoadedTimes(data) ==> TokenRuns.HasId(data, id) { TokenRuns.LoadedIds(data, id); }
    forall q | q in z.reps ensures RepInv(z, z.reps[q]) {
      if q != r { assert RepInv(y, y.reps[q]); }
    }
  }

  lemma DoKeepsInv(hash: string -> string, y: System, a: Act)
    requires SysInv(y) && Enabled(hash, y, a) && a.Do?
    ensures SysInv(Next(hash, y, a))
  {
    hide Attempt, Step, TokenRuns.Inv, TokenRuns.Distinct;
    var rep, z := y.reps[a.r], Next(hash, y, a);
    assert RepInv(y, rep);
    TokenRuns.StepKeepsInv(hash, rep.tok, a.op, false);
    TokenRuns.StepKeepsInv(hash, rep.tok, a.op, true);
    if Wants(hash, y, a).Some? {
      AttemptIsStored(hash, rep.tok, a.op);
      InvDistinct(Step(hash, rep.tok, a.op, true));
    } else {
      NoAttemptKeepsStored(hash, rep.tok, a.op);
    }
    forall q | q in z.reps ensures RepInv(z, z.reps[q]) {
      if q != a.r {
        assert RepInv(y, y.reps[q]);
        RepInvGrows(y, z, y.reps[q]);
      }
    }
  }

  lemma InvDistinct(s: State)
    requires TokenRuns.Inv(s)
    ensures TokenRuns.Distinct(s.recs)
  {}

  // ----- runs

  ghost predicate IsRun(hash: string -> string, ys: seq<System>, acts: seq<Act>) {
    && |ys| == |acts| + 1
    && ys[0] == System(None, map[], map[])
    && forall i :: 0 <= i < |acts| ==> Enabled(hash, ys[i], acts[i]) && ys[i + 1] == Next(hash, ys[i], acts[i])
  }

  lemma {:induction false} RunInv(hash: string -> string, ys: seq<System>, acts: seq<Act>, i: nat)
    requires IsRun(hash, ys, acts) && i < |ys|
    ensures SysInv(ys[i])
  {
    hide SysInv, Next, Enabled;
    if i == 0 {
      EmptySysInv();
    } else {
      RunInv(hash, ys, acts, i - 1);
      assert ys[i - 1 + 1] == Next(hash, ys[i - 1], acts[i - 1]);
      if acts[i - 1].Do? {
        DoKeepsInv(hash, ys[i - 1], acts[i - 1]);
      } else {
        RebuildKeepsInv(hash, ys[i - 1], acts[i - 1].r);
      }
    }
  }

  lemma EmptySysInv()
    ensures SysInv(System(None, map[], map[]))
  {}

  /** The action is a saved Revoke of exactly this token. */
  ghost predicate Revokes(hash: string -> string, y: System, a: Act, r: Record) {
    && Saves(hash, y, a) && a.op.Revoke?
    && var recs := y.reps[a.r].tok.recs;
       Target(recs, a.op.key).Some? && TokenRuns.SameButUse(recs[Target(recs, a.op.key).value], r)
  }

  lemma {:induction false} StepLosesNothing(hash: string -> string, y: System, a: Act, r: Record)
    requires SysInv(y) && Enabled(hash, y, a) && Disciplined(hash, y, a)
    requires TokenRuns.Holds(ContentOf(y.obj), r) && !TokenRuns.Holds(ContentOf(Next(hash, y, a).obj), r)
    ensures Revokes(hash, y, a, r)
  {
    hide TokenRuns.Holds, TokenRuns.Inv, TokenRuns.SameButUse, IdFrom, NameFrom, Minted, Accepted, Without;
    assert Saves(hash, y, a);
    SaveReplacesBase(hash, y, a);
    assert RepInv(y, y.reps[a.r]);
    AttemptDrops(hash, y.reps[a.r].tok, a.op, r);
  }

  lemma {:induction false} AttemptAdds(hash: string -> string, s: State, op: Op, r: Record)
    requires Attempt(hash, s, op).Some? && TokenRuns.Holds(Attempt(hash, s, op).value, r)
    ensures TokenRuns.Holds(s.recs, r) || (op.Create? && TokenRuns.SameButUse(Minted(hash, s, op).value, r))
  {
    hide IdFrom, NameFrom, Minted, Accepted;
    var after := Attempt(hash, s, op).value;
    var i :| 0 <= i < |after| && TokenRuns.SameButUse(after[i], r);
    match op
    case Create(_, _, _, _, _) =>
      assert i < |s.recs| ==> s.recs[i] == after[i];
    case Revoke(key) =>
      var k := Target(s.recs, key).value;
      assert s.recs[if i < k then i else i + 1] == after[i];
    case Verify(bearer, now) =>
      assert TokenRuns.SameButUse(s.recs[i], r);
    case Restart =>
  }

  /**
   When a save loses a token nobody revoked: exactly when the replica has met a
   conflict since it last observed the document, does not hold the token, and is
   not minting that very token.
   */
  lemma {:induction false} LossExact(hash: string -> string, y: System, a: Act, r: Record)
    requires SysInv(y) && Enabled(hash, y, a) && Saves(hash, y, a) && TokenRuns.Holds(ContentOf(y.obj), r)
    ensures
      var p := y.reps[a.r];
      !TokenRuns.Holds(ContentOf(Next(hash, y, a).obj), r) && !Revokes(hash, y, a, r) <==>
      && !p.h.seen && !TokenRuns.Holds(p.tok.recs, r)
      && !(a.op.Create? && TokenRuns.SameButUse(Minted(hash, p.tok, a.op).value, r))
  {
    hide IdFrom, NameFrom, Minted, Accepted, Without, TokenRuns.Inv, TokenRuns.Holds, TokenRuns.SameButUse;
    var p := y.reps[a.r];
    assert RepInv(y, p);
    var after := Attempt(hash, p.tok, a.op).value;
    assert ContentOf(Next(hash, y, a).obj) == after;
    KnownAlike(p.tok, r);
    if p.h.seen { SaveReplacesBase(hash, y, a); }
    if TokenRuns.Holds(p.tok.stored, r) { AttemptDrops(hash, p.tok, a.op, r); }
    if TokenRuns.Holds(after, r) { AttemptAdds(hash, p.tok, a.op, r); }
    if a.op.Create? { MintIsSaved(hash, p.tok, a.op, r); }
    if Revokes(hash, y, a, r) { RevokedIsHeld(p.tok.recs, Target(p.tok.recs, a.op.key).value, r); }
  }

  lemma {:induction false} MintIsSaved(hash: string -> string, s: State, op: Op, r: Record)
    requires op.Create? && Attempt(hash, s, op).Some?
    ensures Minted(hash, s, op).Some?
    ensures TokenRuns.SameButUse(Minted(hash, s, op).value, r) ==> TokenRuns.Holds(Attempt(hash, s, op).value, r)
  {
    hide IdFrom, NameFrom, Minted;
    var after := Attempt(hash, s, op).value;
    assert after[|s.recs|] == Minted(hash, s, op).value;
  }

  lemma RevokedIsHeld(recs: Content, k: nat, r: Record)
    requires k < |recs| && TokenRuns.SameButUse(recs[k], r)
    ensures TokenRuns.Holds(recs, r)
  {}

  /**
   In every run of any number of replicas in which a replica that met a conflict
   saves nothing before it is rebuilt, a token in the document - its id, name,
   hash and deadline - disappears only through a saved Revoke of that token.
   */
  lemma {:induction false} NoLostToken(
    hash: string -> string, ys: seq<System>, acts: seq<Act>, i: nat, j: nat, r: Record)
    requires IsRun(hash, ys, acts) && i <= j < |ys|
    requires forall k :: 0 <= k < |acts| ==> Disciplined(hash, ys[k], acts[k])
    requires TokenRuns.Holds(ContentOf(ys[i].obj), r) && !TokenRuns.Holds(ContentOf(ys[j].obj), r)
    ensures exists k :: i <= k < j && Revokes(hash, ys[k], acts[k], r)
    decreases j
  {
    hide SysInv, Next, Enabled, Revokes, Disciplined, TokenRuns.Holds;
    if TokenRuns.Holds(ContentOf(ys[j - 1].obj), r) {
      RunInv(hash, ys, acts, j - 1);
      assert ys[j - 1 + 1] == Next(hash, ys[j - 1], acts[j - 1]);
      StepLosesNothing(hash, ys[j - 1], acts[j - 1], r);
    } else {
      NoLostToken(hash, ys, acts, i, j - 1, r);
    }
  }

  // ----- nothing enters but by a Create, and nothing returns

  /** The action is a saved Create that mints exactly this token. */
  ghost predicate Mints(hash: string -> string, y: System, a: Act, r: Record) {
    && Saves(hash, y, a) && a.op.Create?
    && Minted(hash, y.reps[a.r].tok, a.op).Some? && TokenRuns.SameButUse(Minted(hash, y.reps[a.r].tok, a.op).value, r)
  }

  lemma {:induction false} StepAddsOnlyMints(hash: string -> string, y: System, a: Act, r: Record)
    requires SysInv(y) && Enabled(hash, y, a) && Disciplined(hash, y, a)
    requires !TokenRuns.Holds(ContentOf(y.obj), r) && TokenRuns.Holds(ContentOf(Next(hash, y, a).obj), r)
    ensures Mints(hash, y, a, r)
  {
    hide TokenRuns.Holds, TokenRuns.Inv, TokenRuns.SameButUse, IdFrom, NameFrom, Minted, Accepted, Without;
    assert Saves(hash, y, a);
    var p := y.reps[a.r];
    SaveReplacesBase(hash, y, a);
    assert RepInv(y, p);
    KnownAlike(p.tok, r);
    AttemptAdds(hash, p.tok, a.op, r);
    if a.op.Create? { MintIsSaved(hash, p.tok, a.op, r); }
  }

  /**
   The other half of the document's fidelity: in every such run a token enters
   the document only through a saved Create that mints it.
   */
  lemma {:induction false} EntersOnlyByCreate(
    hash: string -> string, ys: seq<System>, acts: seq<Act>, i: nat, j: nat, r: Record) returns (k: nat)
    requires IsRun(hash, ys, acts) && i <= j < |ys|
    requires forall k :: 0 <= k < |acts| ==> Disciplined(hash, ys[k], acts[k])
    requires !TokenRuns.Holds(ContentOf(ys[i].obj), r) && TokenRuns.Holds(ContentOf(ys[j].obj), r)
    ensures i <= k < j && Mints(hash, ys[k], acts[k], r)
    decreases j
  {
    hide SysInv, Next, Enabled, Mints, Disciplined, TokenRuns.Holds;
    if !TokenRuns.Holds(ContentOf(ys[j - 1].obj), r) {
      RunInv(hash, ys, acts, j - 1);
      assert ys[j - 1 + 1] == Next(hash, ys[j - 1], acts[j - 1]);
      StepAddsOnlyMints(hash, ys[j - 1], acts[j - 1], r);
      k := j - 1;
    } else {
      k := EntersOnlyByCreate(hash, ys, acts, i, j - 1, r);
    }
  }

  /** A saved Revoke of a token takes it out of the document. */
  lemma {:induction false} RevokeTakesOut(hash: string -> string, y: System, a: Act, r: Record)
    requires SysInv(y) && Enabled(hash, y, a) && Revokes(hash, y, a, r)
    ensures !TokenRuns.Holds(ContentOf(Next(hash, y, a).obj), r)
  {
    hide IdFrom, NameFrom, Minted, Accepted;
    var recs := y.reps[a.r].tok.recs;
    assert RepInv(y, y.reps[a.r]);
    var t := Target(recs, a.op.key).value;
    var after := Without(recs, t);
    assert ContentOf(Next(hash, y, a).obj) == after;
    forall i | 0 <= i < |after| ensures after[i].id != r.id {
      assert after[i] == recs[if i < t then i else i + 1];
    }
  }

  /** Every Create of the run draws a secret of its own. */
  ghost predicate FreshSecrets(acts: seq<Act>) {
    forall i, j :: 0 <= i < j < |acts| && acts[i].Do? && acts[j].Do? && acts[i].op.Create? && acts[j].op.Create? ==>
      acts[i].op.secret != acts[j].op.secret
  }

  /** Once its Revoke is saved a token never returns to the document. */
  lemma {:induction false} RevokedNeverReturns(
    hash: string -> string, ys: seq<System>, acts: seq<Act>, k: nat, j: nat, r: Record)
    requires IsRun(hash, ys, acts) && TokenRuns.Injective(hash) && FreshSecrets(acts)
    requires forall x :: 0 <= x < |acts| ==> Disciplined(hash, ys[x], acts[x])
    requires k < j < |ys| && Revokes(hash, ys[k], acts[k], r)
    ensures !TokenRuns.Holds(ContentOf(ys[j].obj), r)
  {
    hide SysInv, Next, Enabled, Mints, Revokes, Disciplined, TokenRuns.Holds, TokenRuns.SameButUse;
    RunInv(hash, ys, acts, k);
    assert ys[k + 1] == Next(hash, ys[k], acts[k]);
    RevokeTakesOut(hash, ys[k], acts[k], r);
    if TokenRuns.Holds(ContentOf(ys[j].obj), r) {
      RevokedWasStored(hash, ys[k], acts[k], r);
      EmptyHolds(r);
      var c := EntersOnlyByCreate(hash, ys, acts, 0, k, r);
      var d := EntersOnlyByCreate(hash, ys, acts, k + 1, j, r);
      SameMint(hash, ys[c], acts[c], ys[d], acts[d], r);
      assert false;
    }
  }

  /** What a disciplined replica revokes is in the document. */
  lemma {:induction false} RevokedWasStored(hash: string -> string, y: System, a: Act, r: Record)
    requires SysInv(y) && Enabled(hash, y, a) && Disciplined(hash, y, a) && Revokes(hash, y, a, r)
    ensures TokenRuns.Holds(ContentOf(y.obj), r)
  {
    hide TokenRuns.Holds, TokenRuns.Inv, TokenRuns.SameButUse, IdFrom, NameFrom, Minted, Accepted, Without;
    var p := y.reps[a.r];
    SaveReplacesBase(hash, y, a);
    assert RepInv(y, p);
    RevokedIsHeld(p.tok.recs, Target(p.tok.recs, a.op.key).value, r);
    KnownAlike(p.tok, r);
  }

  lemma EmptyHolds(r: Record)
    ensures !TokenRuns.Holds(ContentOf(None), r)
  {}

  lemma {:induction false} SameMint(hash: string -> string, y: System, a: Act, z: System, b: Act, r: Record)
    requires TokenRuns.Injective(hash) && Mints(hash, y, a, r) && Mints(hash, z, b, r)
    ensures a.Do? && b.Do? && a.op.Create? && b.op.Create? && a.op.secret == b.op.secret
  {}

  /**
   Without the discipline a token can return unminted: exactly when a replica
   that has met a conflict still holds it and does not revoke it.
   */
  lemma {:induction false} ReturnExact(hash: string -> string, y: System, a: Act, r: Record)
    requires SysInv(y) && Enabled(hash, y, a) && Saves(hash, y, a) && !TokenRuns.Holds(ContentOf(y.obj), r)
    ensures
      var p := y.reps[a.r];
      TokenRuns.Holds(ContentOf(Next(hash, y, a).obj), r) && !Mints(hash, y, a, r) <==>
      !p.h.seen && TokenRuns.Holds(p.tok.recs, r) && !Revokes(hash, y, a, r)
  {
    hide IdFrom, NameFrom, Minted, Accepted, Without, TokenRuns.Inv, TokenRuns.Holds, TokenRuns.SameButUse;
    var p := y.reps[a.r];
    assert RepInv(y, p);
    var after := Attempt(hash, p.tok, a.op).value;
    assert ContentOf(Next(hash, y, a).obj) == after;
    KnownAlike(p.tok, r);
    if p.h.seen { SaveReplacesBase(hash, y, a); }
    if TokenRuns.Holds(p.tok.recs, r) {
      AttemptDrops(hash, p.tok, a.op, r);
      if a.op.Create? { MintIsNew(hash, p.tok, a.op, r); }
    }
    if TokenRuns.Holds(after, r) { AttemptAdds(hash, p.tok, a.op, r); }
    if a.op.Create? { MintIsSaved(hash, p.tok, a.op, r); }
    if Revokes(hash, y, a, r) { RevokeTakesOut(hash, y, a, r); }
  }

  lemma {:induction false} MintIsNew(hash: string -> string, s: State, op: Op, r: Record)
    requires op.Create? && Minted(hash, s, op).Some? && TokenRuns.Holds(s.recs, r)
    ensures !TokenRuns.SameButUse(Minted(hash, s, op).value, r)
  {}

  // ----- what a replica goes on accepting

  /** A token a replica accepts it goes on accepting unless it restarts or saves a Revoke of it. */
  lemma {:induction false} StepKeepsAccepting(
    hash: string -> string, s: State, op: Op, saveOk: bool, bearer: string, now: int)
    requires TokenRuns.Inv(s) && Accepted(hash, s, bearer, now).Some? && !op.Restart?
    requires !(op.Revoke? && saveOk && Target(s.recs, op.key) == Accepted(hash, s, bearer, now))
    ensures Accepted(hash, Step(hash, s, op, saveOk), bearer, now).Some?
    ensures
      var i, j := Accepted(hash, s, bearer, now).value, Accepted(hash, Step(hash, s, op, saveOk), bearer, now).value;
      TokenRuns.SameButUse(s.recs[i], Step(hash, s, op, saveOk).recs[j])
  {
    hide Minted, NameFrom, Parse, TokenRuns.HasId, TokenRuns.Agree;
    var i := Accepted(hash, s, bearer, now).value;
    var z := Step(hash, s, op, saveOk);
    TokenRuns.StepKeepsInv(hash, s, op, saveOk);
    match op
    case Create(_, _, _, _, _) =>
      assert z.recs[i] == s.recs[i];
    case Revoke(key) =>
      assert z.recs == s.recs || z.recs[if i < Target(s.recs, key).value then i else i - 1] == s.recs[i];
    case Verify(_, _) =>
      assert TokenRuns.SameButUse(s.recs[i], z.recs[i]);
  }

  /** The action is a saved Revoke, by the replica itself, of the token it accepts. */
  ghost predicate RevokesOwn(hash: string -> string, y: System, a: Act, r: nat, bearer: string, now: int)
    requires r in y.reps
  {
    && a.Do? && a.r == r && a.op.Revoke? && Saves(hash, y, a)
    && Target(y.reps[r].tok.recs, a.op.key) == Accepted(hash, y.reps[r].tok, bearer, now)
  }

  /**
   In every run, disciplined or not, a replica goes on accepting what it accepts
   until it is rebuilt or itself saves a Revoke of it: a Revoke saved by another
   replica takes the token out of the document and not out of this memory.
   */
  lemma {:induction false} StaleReplicaAccepts(
    hash: string -> string, ys: seq<System>, acts: seq<Act>, i: nat, j: nat, r: nat, bearer: string, now: int)
    requires IsRun(hash, ys, acts) && i <= j < |ys|
    requires r in ys[i].reps && Accepted(hash, ys[i].reps[r].tok, bearer, now).Some?
    requires forall k :: i <= k < j ==>
      acts[k] != Rebuild(r) && (r in ys[k].reps ==> !RevokesOwn(hash, ys[k], acts[k], r, bearer, now))
    ensures r in ys[j].reps && Accepted(hash, ys[j].reps[r].tok, bearer, now).Some?
    decreases j
  {
    hide SysInv, Next, Enabled, Accepted, RevokesOwn;
    if i < j {
      StaleReplicaAccepts(hash, ys, acts, i, j - 1, r, bearer, now);
      RunInv(hash, ys, acts, j - 1);
      assert ys[j - 1 + 1] == Next(hash, ys[j - 1], acts[j - 1]);
      ActKeepsAccepting(hash, ys[j - 1], acts[j - 1], r, bearer, now);
    }
  }

  lemma {:induction false} ActKeepsAccepting(
    hash: string -> string, y: System, a: Act, r: nat, bearer: string, now: int)
    requires SysInv(y) && Enabled(hash, y, a) && r in y.reps && Accepted(hash, y.reps[r].tok, bearer, now).Some?
    requires a != Rebuild(r) && !RevokesOwn(hash, y, a, r, bearer, now)
    ensures
      var z := Next(hash, y, a);
      r in z.reps && Accepted(hash, z.reps[r].tok, bearer, now).Some?
  {
    hide Minted, Accepted, IdFrom, NameFrom, Attempt, Step, TokenRuns.Inv;
    assert RepInv(y, y.reps[r]);
    if a.Do? && a.r == r {
      StepKeepsAccepting(hash, y.reps[r].tok, a.op, Saves(hash, y, a), bearer, now);
    }
  }

  // ----- why the discipline is needed

  /** A first mint by a replica that knows an empty document. */
  function FirstMint(r: nat, name: string, id: string, tag: string): Act {
    Do(r, Op.Create(name, None, 0, [id], "5"), false, tag)
  }

  lemma FirstMintStep(hash: string -> string, y: System, r: nat, name: string, id: string, tag: string)
    requires r in y.reps && y.reps[r].tok == TokenRuns.EMPTY && (name == "a" || name == "b")
    requires tag != "" && tag !in y.issued
    ensures
      var rec := Record(id, name, hash("5"), 0, None, None);
      var a := FirstMint(r, name, id, tag);
      var admitted := Admits(y.obj, ConditionOf(y.reps[r].h));
      && Enabled(hash, y, a)
      && Next(hash, y, a) ==
         if admitted then System(Some(Object(tag, [rec])), y.issued[tag := [rec]],
           y.reps[r := Replica(State([rec], map[], [rec]), Handle(tag, true))])
         else y.(reps := y.reps[r := Replica(TokenRuns.EMPTY, Handle("", false))])
  {
    var a := FirstMint(r, name, id, tag);
    assert FreshFrom([], [id], 0) == Some(id);
    var rec := Record(id, name, hash("5"), 0, None, None);
    assert Minted(hash, TokenRuns.EMPTY, a.op) == Some(rec);
    assert [] + [rec] == [rec];
  }

  lemma RebuildEmptyStep(hash: string -> string, y: System, r: nat)
    requires y.obj.None?
    ensures Enabled(hash, y, Rebuild(r))
    ensures Next(hash, y, Rebuild(r)) == y.(reps := y.reps[r := Replica(TokenRuns.EMPTY, Handle("", true))])
  {}

  /**
   Without it a token is lost: two replicas load the empty document, one mints
   "a", the other meets a conflict minting "b" and simply tries again.  Its
   second save is unconditional and overwrites "a" with no Revoke in the run,
   whether or not both drew the same id.
   */
  lemma {:induction false} RetryAfterConflictLosesToken(hash: string -> string, idA: string, idB: string)
    returns (ys: seq<System>, acts: seq<Act>)
    ensures IsRun(hash, ys, acts) && |acts| == 5
    ensures forall k :: 0 <= k < |acts| ==> acts[k].Rebuild? || acts[k].op.Create?
    ensures
      var r := Record(idA, "a", hash("5"), 0, None, None);
      TokenRuns.Holds(ContentOf(ys[3].obj), r) && !TokenRuns.Holds(ContentOf(ys[5].obj), r)
  {
    hide Next, Enabled;
    var a, b := FirstMint(0, "a", idA, "t1"), FirstMint(1, "b", idB, "t2");
    acts := [Rebuild(0), Rebuild(1), a, b, b];
    var y0 := System(None, map[], map[]);
    RebuildEmptyStep(hash, y0, 0);
    var y1 := Next(hash, y0, Rebuild(0));
    RebuildEmptyStep(hash, y1, 1);
    var y2 := Next(hash, y1, Rebuild(1));
    FirstMintStep(hash, y2, 0, "a", idA, "t1");
    var y3 := Next(hash, y2, a);
    FirstMintStep(hash, y3, 1, "b", idB, "t2");
    var y4 := Next(hash, y3, b);
    FirstMintStep(hash, y4, 1, "b", idB, "t2");
    var y5 := Next(hash, y4, b);
    ys := [y0, y1, y2, y3, y4, y5];
    assert TokenRuns.SameButUse(ContentOf(y3.obj)[0], Record(idA, "a", hash("5"), 0, None, None));
    assert ContentOf(y5.obj)[0].name == "b";
  }
}
