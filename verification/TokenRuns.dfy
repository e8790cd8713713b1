/** What holds of the token set over whole runs of the daemon, restarts and failed saves included. */
module TokenRuns {
  import opened Results
  import opened Tokens

  datatype Event = Event(op: Op, saveOk: bool)

  ghost function Run(hash: string -> string, s: State, evs: seq<Event>): State {
    if evs == [] then s
    else Step(hash, Run(hash, s, evs[..|evs| - 1]), evs[|evs| - 1].op, evs[|evs| - 1].saveOk)
  }

  const EMPTY: State := State([], map[], [])

  // ----- memory and document

  ghost predicate SameButUse(a: Record, b: Record) {
    a.(lastUsedAt := None) == b.(lastUsedAt := None)
  }

  /** A token is its record up to last_used_at. */
  ghost predicate Holds(recs: seq<Record>, r: Record) {
    exists i :: 0 <= i < |recs| && SameButUse(recs[i], r)
  }

  /** Memory and document agree up to last_used_at. */
  ghost predicate Agree(a: seq<Record>, b: seq<Record>) {
    |a| == |b| && forall i :: 0 <= i < |a| ==> SameButUse(a[i], b[i])
  }

  ghost predicate Distinct(recs: seq<Record>) {
    forall i, j :: 0 <= i < j < |recs| ==> recs[i].id != recs[j].id && recs[i].name != recs[j].name
  }

  ghost predicate HasId(recs: seq<Record>, id: string) {
    exists i :: 0 <= i < |recs| && recs[i].id == id
  }

  ghost predicate Inv(s: State) {
    && Agree(s.recs, s.stored)
    && Distinct(s.recs)
    && forall id :: id in s.lastSaved ==> HasId(s.recs, id)
  }

  /** What loading a document knows of one id. */
  lemma {:induction false} LoadedAt(recs: seq<Record>, i: nat)
    requires Distinct(recs) && i < |recs|
    ensures Get(LoadedTimes(recs), recs[i].id) == recs[i].lastUsedAt
  {
    var n := |recs| - 1;
    var front := recs[..n];
    if i < n {
      LoadedAt(front, i);
    } else {
      LoadedIds(front, recs[n].id);
    }
  }

  lemma {:induction false} LoadedIds(recs: seq<Record>, id: string)
    ensures id in LoadedTimes(recs) ==> HasId(recs, id)
  {
    if recs != [] {
      var n := |recs| - 1;
      LoadedIds(recs[..n], id);
      if HasId(recs[..n], id) {
        var i :| 0 <= i < n && recs[..n][i].id == id;
        assert recs[i].id == id;
      }
    }
  }

  lemma {:induction false} WithoutKeeps(recs: seq<Record>, k: nat)
    requires Distinct(recs) && k < |recs|
    ensures Distinct(Without(recs, k))
    ensures forall id :: HasId(Without(recs, k), id) <==> HasId(recs, id) && id != recs[k].id
  {
    var rest := Without(recs, k);
    forall id ensures HasId(rest, id) <==> HasId(recs, id) && id != recs[k].id {
      if i :| 0 <= i < |recs| && recs[i].id == id && i != k {
        assert rest[if i < k then i else i - 1].id == id;
      }
      if i :| 0 <= i < |rest| && rest[i].id == id {
        assert recs[if i < k then i else i + 1].id == id;
      }
    }
  }

  lemma AgreeSelf(recs: seq<Record>)
    ensures Agree(recs, recs)
  {}

  lemma CreateKeepsInv(hash: string -> string, s: State, op: Op, saveOk: bool)
    requires Inv(s) && op.Create?
    ensures Inv(Step(hash, s, op, saveOk))
  {
    var t := Step(hash, s, op, saveOk);
    if t != s {
      forall id | id in t.lastSaved ensures HasId(t.recs, id) {
        var i :| 0 <= i < |s.recs| && s.recs[i].id == id;
        assert t.recs[i].id == id;
      }
    }
  }

  lemma RevokeKeepsInv(hash: string -> string, s: State, op: Op, saveOk: bool)
    requires Inv(s) && op.Revoke?
    ensures Inv(Step(hash, s, op, saveOk))
  {
    hide IdFrom, NameFrom, Distinct, HasId, Without, Agree;
    var at := Target(s.recs, op.key);
    if at.Some? {
      WithoutKeeps(s.recs, at.value);
      AgreeSelf(Without(s.recs, at.value));
    }
  }

  lemma UsedKeeps(s: State, k: nat, now: int)
    requires Inv(s) && k < |s.recs|
    ensures var recs := Used(s.recs, k, now); Agree(recs, s.stored) && Distinct(recs)
    ensures forall id :: HasId(s.recs, id) ==> HasId(Used(s.recs, k, now), id)
    ensures HasId(Used(s.recs, k, now), s.recs[k].id)
  {
    var recs := Used(s.recs, k, now);
    assert recs[k].id == s.recs[k].id;
    forall id | HasId(s.recs, id) ensures HasId(recs, id) {
      var i :| 0 <= i < |s.recs| && s.recs[i].id == id;
      assert recs[i].id == id;
    }
  }

  lemma VerifyKeepsInv(hash: string -> string, s: State, op: Op, saveOk: bool)
    requires Inv(s) && op.Verify?
    ensures Inv(Step(hash, s, op, saveOk))
  {
    hide Accepted, Distinct, HasId, Agree, Used;
    var at := Accepted(hash, s, op.bearer, op.now);
    if at.Some? {
      UsedKeeps(s, at.value, op.now);
      AgreeSelf(Used(s.recs, at.value, op.now));
    }
  }

  lemma StepKeepsInv(hash: string -> string, s: State, op: Op, saveOk: bool)
    requires Inv(s)
    ensures Inv(Step(hash, s, op, saveOk))
  {
    hide Step;
    match op
    case Create(_, _, _, _, _) => CreateKeepsInv(hash, s, op, saveOk);
    case Revoke(_) => RevokeKeepsInv(hash, s, op, saveOk);
    case Verify(_, _) => VerifyKeepsInv(hash, s, op, saveOk);
    case Restart => RestartKeepsInv(hash, s, saveOk);
  }

  lemma RestartKeepsInv(hash: string -> string, s: State, saveOk: bool)
    requires Inv(s)
    ensures Inv(Step(hash, s, Restart, saveOk))
  {
    assert forall i :: 0 <= i < |s.recs| ==> SameButUse(s.recs[i], s.stored[i]);
    forall id ensures id in LoadedTimes(s.stored) ==> HasId(s.stored, id) { LoadedIds(s.stored, id); }
  }

  /**
   Whichever saves fail, memory and document agree up to last_used_at after
   every operation, and ids and names stay pairwise distinct.
   */
  lemma {:induction false} RunKeepsInv(hash: string -> string, s: State, evs: seq<Event>)
    requires Inv(s)
    ensures Inv(Run(hash, s, evs))
  {
    hide Step, Inv;
    if evs != [] {
      RunKeepsInv(hash, s, evs[..|evs| - 1]);
      StepKeepsInv(hash, Run(hash, s, evs[..|evs| - 1]), evs[|evs| - 1].op, evs[|evs| - 1].saveOk);
    }
  }

  // ----- the life of a token

  /** What Create hands out. */
  datatype Mint = Mint(id: string, secret: string, name: string, expiresAt: Option<int>)

  /** The mints behind the records, in the same order. */
  ghost function LiveStep(hash: string -> string, s: State, live: seq<Mint>, ev: Event): seq<Mint> {
    if !ev.saveOk then live
    else if ev.op.Create? && Minted(hash, s, ev.op).Some? then
      var rec := Minted(hash, s, ev.op).value;
      live + [Mint(rec.id, ev.op.secret, rec.name, rec.expiresAt)]
    else if ev.op.Revoke? && Target(s.recs, ev.op.key).Some? && Target(s.recs, ev.op.key).value < |live| then
      var k := Target(s.recs, ev.op.key).value;
      live[..k] + live[k + 1..]
    else live
  }

  ghost function Live(hash: string -> string, evs: seq<Event>): seq<Mint> {
    if evs == [] then []
    else
      var before := evs[..|evs| - 1];
      LiveStep(hash, Run(hash, EMPTY, before), Live(hash, before), evs[|evs| - 1])
  }

  ghost predicate IsHex(s: string) {
    s != "" && forall i :: 0 <= i < |s| ==> '0' <= s[i] <= '9' || 'a' <= s[i] <= 'f'
  }

  /** Ids and secrets are drawn as hexadecimal text. */
  ghost predicate WellDrawn(evs: seq<Event>) {
    forall i :: 0 <= i < |evs| && evs[i].op.Create? ==>
      IsHex(evs[i].op.secret) && forall id :: id in evs[i].op.draws ==> IsHex(id)
  }

  ghost predicate Injective(hash: string -> string) {
    forall a, b :: hash(a) == hash(b) ==> a == b
  }

  ghost predicate MatchesOne(hash: string -> string, r: Record, m: Mint) {
    && r.id == m.id && r.name == m.name && r.expiresAt == m.expiresAt && r.sha256 == hash(m.secret)
    && IsHex(m.id) && IsHex(m.secret)
  }

  ghost predicate Matches(hash: string -> string, recs: seq<Record>, live: seq<Mint>) {
    |recs| == |live| && forall i :: 0 <= i < |live| ==> MatchesOne(hash, recs[i], live[i])
  }

  lemma MatchesWithout(hash: string -> string, recs: seq<Record>, live: seq<Mint>, k: nat)
    requires Matches(hash, recs, live) && k < |live|
    ensures Matches(hash, Without(recs, k), live[..k] + live[k + 1..])
  {}

  lemma MatchesAgree(hash: string -> string, a: seq<Record>, b: seq<Record>, live: seq<Mint>)
    requires Agree(a, b) && Matches(hash, a, live)
    ensures Matches(hash, b, live)
  {
    forall i | 0 <= i < |live| ensures MatchesOne(hash, b[i], live[i]) {
      assert SameButUse(a[i], b[i]);
    }
  }

  lemma MatchesMint(hash: string -> string, s: State, live: seq<Mint>, ev: Event)
    requires Matches(hash, s.recs, live) && WellDrawn([ev]) && ev.op.Create? && Minted(hash, s, ev.op).Some?
    ensures
      var rec := Minted(hash, s, ev.op).value;
      Matches(hash, s.recs + [rec], live + [Mint(rec.id, ev.op.secret, rec.name, rec.expiresAt)])
  {
    assert ev == [ev][0];
  }

  lemma LiveStepMatches(hash: string -> string, s: State, live: seq<Mint>, ev: Event)
    requires Inv(s) && Matches(hash, s.recs, live) && WellDrawn([ev])
    ensures Matches(hash, Step(hash, s, ev.op, ev.saveOk).recs, LiveStep(hash, s, live, ev))
  {
    hide Minted, Accepted, IdFrom, NameFrom, Distinct, Agree, HasId, Without, Used, WellDrawn, MatchesOne, LoadedTimes;
    match ev.op
    case Create(_, _, _, _, _) =>
      if Minted(hash, s, ev.op).Some? { MatchesMint(hash, s, live, ev); }
    case Revoke(key) =>
      if Target(s.recs, key).Some? { MatchesWithout(hash, s.recs, live, Target(s.recs, key).value); }
    case Verify(bearer, now) =>
      var at := Accepted(hash, s, bearer, now);
      if at.Some? {
        UsedKeeps(s, at.value, now);
        UsedAgrees(s.recs, at.value, now);
        MatchesAgree(hash, s.recs, Used(s.recs, at.value, now), live);
      }
    case Restart =>
      MatchesAgree(hash, s.recs, s.stored, live);
  }

  lemma UsedAgrees(recs: seq<Record>, k: nat, now: int)
    requires k < |recs|
    ensures Agree(recs, Used(recs, k, now))
  {}

  lemma {:induction false} LiveMatches(hash: string -> string, evs: seq<Event>)
    requires WellDrawn(evs)
    ensures Inv(Run(hash, EMPTY, evs)) && Matches(hash, Run(hash, EMPTY, evs).recs, Live(hash, evs))
  {
    hide Step, LiveStep, Inv, Matches;
    if evs == [] {
      EmptyMatches(hash);
    } else {
      var before, ev := evs[..|evs| - 1], evs[|evs| - 1];
      LiveMatches(hash, before);
      LiveStepMatches(hash, Run(hash, EMPTY, before), Live(hash, before), ev);
      StepKeepsInv(hash, Run(hash, EMPTY, before), ev.op, ev.saveOk);
    }
  }

  lemma EmptyMatches(hash: string -> string)
    ensures Inv(EMPTY) && Matches(hash, EMPTY.recs, [])
  {}

  /** A mint's plaintext, presented in time. */
  ghost predicate Presents(m: Mint, bearer: string, now: int) {
    bearer == Plaintext(m.id, m.secret) && (m.expiresAt.Some? ==> now <= m.expiresAt.value)
  }

  lemma HexPlain(s: string)
    requires IsHex(s)
    ensures '_' !in s
  {}

  lemma AcceptedExact(hash: string -> string, s: State, live: seq<Mint>, bearer: string, now: int)
    requires Inv(s) && Matches(hash, s.recs, live) && Injective(hash)
    ensures Accepted(hash, s, bearer, now).Some? <==> exists i :: 0 <= i < |live| && Presents(live[i], bearer, now)
  {
    if Accepted(hash, s, bearer, now).Some? {
      var i := Accepted(hash, s, bearer, now).value;
      var p := Parse(bearer).value;
      assert MatchesOne(hash, s.recs[i], live[i]);
      HexPlain(p.0);
      ParseExact(bearer, p.0, p.1);
      assert Presents(live[i], bearer, now);
    }
    if i :| 0 <= i < |live| && Presents(live[i], bearer, now) {
      var m := live[i];
      assert MatchesOne(hash, s.recs[i], m);
      HexPlain(m.id);
      ParseExact(bearer, m.id, m.secret);
      assert IdFrom(s.recs, m.id, 0) == Some(i);
    }
  }

  /**
   After any run a bearer value is accepted exactly when it is the plaintext of
   a mint whose record lives, at a time up to and including its expiry.
   */
  lemma {:induction false} VerifyAcceptsExactly(hash: string -> string, evs: seq<Event>, bearer: string, now: int)
    requires WellDrawn(evs) && Injective(hash)
    ensures Accepted(hash, Run(hash, EMPTY, evs), bearer, now).Some? <==>
            exists i :: 0 <= i < |Live(hash, evs)| && Presents(Live(hash, evs)[i], bearer, now)
  {
    LiveMatches(hash, evs);
    AcceptedExact(hash, Run(hash, EMPTY, evs), Live(hash, evs), bearer, now);
  }

  /** The operation revokes the mint: it names its id, or its name when no live id is that text. */
  ghost predicate Unlists(op: Op, live: seq<Mint>, m: Mint) {
    op.Revoke? && (op.key == m.id || (op.key == m.name && forall x :: x in live ==> x.id != op.key))
  }

  lemma {:induction false} TargetUnlists(hash: string -> string, s: State, live: seq<Mint>, op: Op, i: nat)
    requires Matches(hash, s.recs, live) && op.Revoke? && i < |live| && Target(s.recs, op.key) == Some(i)
    ensures Unlists(op, live, live[i])
  {
    hide IdFrom, NameFrom, IsHex;
    forall x | x in live && IdFrom(s.recs, op.key, 0).None? ensures x.id != op.key {
      var j :| 0 <= j < |live| && live[j] == x;
      assert MatchesOne(hash, s.recs[j], live[j]);
    }
    assert MatchesOne(hash, s.recs[i], live[i]);
  }

  lemma {:induction false} LeavesOnlyByRevoke(hash: string -> string, evs: seq<Event>, m: Mint)
    requires WellDrawn(evs) && evs != [] && m in Live(hash, evs[..|evs| - 1]) && m !in Live(hash, evs)
    ensures var ev := evs[|evs| - 1]; ev.saveOk && Unlists(ev.op, Live(hash, evs[..|evs| - 1]), m)
  {
    hide Run, IdFrom, NameFrom, Target, Minted, Inv, Matches, Unlists;
    var before, ev := evs[..|evs| - 1], evs[|evs| - 1];
    LiveMatches(hash, before);
    var s, live := Run(hash, EMPTY, before), Live(hash, before);
    var i :| 0 <= i < |live| && live[i] == m;
    if ev.op.Revoke? && Target(s.recs, ev.op.key).Some? && Target(s.recs, ev.op.key).value < |live| {
      var k := Target(s.recs, ev.op.key).value;
      assert m in live[..k] + live[k + 1..] || i == k;
      TargetUnlists(hash, s, live, ev.op, k);
    }
  }

  /** The record a Revoke finds is that of the mint it names. */
  lemma {:induction false} UnlistsTarget(hash: string -> string, s: State, live: seq<Mint>, op: Op, i: nat)
    requires Inv(s) && Matches(hash, s.recs, live) && i < |live| && Unlists(op, live, live[i])
    ensures Target(s.recs, op.key) == Some(i)
  {
    hide IdFrom, NameFrom, Agree, IsHex;
    assert MatchesOne(hash, s.recs[i], live[i]);
    forall j | 0 <= j < |live| ensures s.recs[j].id == live[j].id && live[j] in live {
      assert MatchesOne(hash, s.recs[j], live[j]);
    }
  }

  ghost predicate FreshSecrets(evs: seq<Event>) {
    forall i, j :: 0 <= i < j < |evs| && evs[i].op.Create? && evs[j].op.Create? ==> evs[i].op.secret != evs[j].op.secret
  }

  ghost predicate LiveSecret(live: seq<Mint>, secret: string) {
    exists i :: 0 <= i < |live| && live[i].secret == secret
  }

  /** Once drawn and not live, a secret never comes back. */
  lemma {:induction false} NeverBack(hash: string -> string, evs: seq<Event>, j: nat, c: nat)
    requires WellDrawn(evs) && FreshSecrets(evs) && c < j <= |evs| && evs[c].op.Create?
    requires !LiveSecret(Live(hash, evs[..j]), evs[c].op.secret)
    ensures !LiveSecret(Live(hash, evs), evs[c].op.secret)
  {
    hide Run;
    if j == |evs| {
      assert evs[..j] == evs;
    } else {
      var before, ev := evs[..|evs| - 1], evs[|evs| - 1];
      assert before[..j] == evs[..j];
      NeverBack(hash, before, j, c);
      var live := Live(hash, before);
      var after := Live(hash, evs);
      forall i | 0 <= i < |after| ensures after[i].secret != evs[c].op.secret {
        assert after[i] in live || (ev.op.Create? && after[i].secret == ev.op.secret);
      }
    }
  }

  // ----- from a Create to the Revoke that ends it

  /** The event is a Create that minted and saved a token. */
  ghost predicate Mints(hash: string -> string, evs: seq<Event>, c: nat) {
    c < |evs| && evs[c].op.Create? && evs[c].saveOk && Minted(hash, Run(hash, EMPTY, evs[..c]), evs[c].op).Some?
  }

  /** What that Create handed out. */
  ghost function MintOf(hash: string -> string, evs: seq<Event>, c: nat): Mint
    requires Mints(hash, evs, c)
  {
    var rec := Minted(hash, Run(hash, EMPTY, evs[..c]), evs[c].op).value;
    Mint(rec.id, evs[c].op.secret, rec.name, rec.expiresAt)
  }

  lemma {:induction false} MintsInPrefix(hash: string -> string, evs: seq<Event>, n: nat, c: nat)
    requires c < n <= |evs|
    ensures Mints(hash, evs[..n], c) == Mints(hash, evs, c)
    ensures Mints(hash, evs, c) ==> MintOf(hash, evs[..n], c) == MintOf(hash, evs, c)
  {
    hide Minted, Run;
    assert evs[..n][..c] == evs[..c];
  }

  /** Every live mint was handed out by some Create of the run. */
  lemma {:induction false} LiveWasMinted(hash: string -> string, evs: seq<Event>, x: Mint) returns (c: nat)
    requires x in Live(hash, evs)
    ensures Mints(hash, evs, c) && x == MintOf(hash, evs, c)
  {
    hide Minted, Run, IdFrom, NameFrom;
    var n := |evs| - 1;
    var before := evs[..n];
    if x in Live(hash, before) {
      c := LiveWasMinted(hash, before, x);
      MintsInPrefix(hash, evs, n, c);
    } else {
      c := n;
    }
  }

  /** Live mints have pairwise distinct secrets. */
  lemma {:induction false} SecretsApart(hash: string -> string, evs: seq<Event>)
    requires FreshSecrets(evs)
    ensures forall i, j :: 0 <= i < j < |Live(hash, evs)| ==> Live(hash, evs)[i].secret != Live(hash, evs)[j].secret
  {
    hide Minted, Run, IdFrom, NameFrom;
    if evs != [] {
      var n := |evs| - 1;
      var before, ev := evs[..n], evs[n];
      SecretsApart(hash, before);
      var live := Live(hash, before);
      forall i | 0 <= i < |live| && ev.op.Create? ensures live[i].secret != ev.op.secret {
        var c := LiveWasMinted(hash, before, live[i]);
      }
    }
  }

  /** A saved Revoke of a live mint takes its secret out of use. */
  lemma {:induction false} RevokeRemoves(hash: string -> string, evs: seq<Event>, m: Mint)
    requires WellDrawn(evs) && FreshSecrets(evs) && evs != []
    requires
      var before, ev := evs[..|evs| - 1], evs[|evs| - 1];
      m in Live(hash, before) && ev.saveOk && Unlists(ev.op, Live(hash, before), m)
    ensures !LiveSecret(Live(hash, evs), m.secret)
  {
    hide Run, IdFrom, NameFrom, Minted, Inv, Matches;
    var before, ev := evs[..|evs| - 1], evs[|evs| - 1];
    var live := Live(hash, before);
    var i :| 0 <= i < |live| && live[i] == m;
    LiveMatches(hash, before);
    UnlistsTarget(hash, Run(hash, EMPTY, before), live, ev.op, i);
    SecretsApart(hash, before);
  }

  /** A mint leaves exactly by a saved Revoke that names its id, or its name when no live id is that text. */
  lemma {:induction false} LeavesExactlyByRevoke(hash: string -> string, evs: seq<Event>, m: Mint)
    requires WellDrawn(evs) && FreshSecrets(evs) && evs != [] && m in Live(hash, evs[..|evs| - 1])
    ensures
      var ev := evs[|evs| - 1];
      m !in Live(hash, evs) <==> ev.saveOk && Unlists(ev.op, Live(hash, evs[..|evs| - 1]), m)
  {
    hide Live, Unlists;
    var ev := evs[|evs| - 1];
    if ev.saveOk && Unlists(ev.op, Live(hash, evs[..|evs| - 1]), m) { RevokeRemoves(hash, evs, m); }
    if m !in Live(hash, evs) { LeavesOnlyByRevoke(hash, evs, m); }
  }

  /** Event k is a saved Revoke of the mint. */
  ghost predicate RevokedAt(hash: string -> string, evs: seq<Event>, m: Mint, k: nat) {
    k < |evs| && evs[k].saveOk && Unlists(evs[k].op, Live(hash, evs[..k]), m)
  }

  lemma {:induction false} RevokedInPrefix(hash: string -> string, evs: seq<Event>, m: Mint, n: nat, k: nat)
    requires k < n <= |evs|
    ensures RevokedAt(hash, evs[..n], m, k) == RevokedAt(hash, evs, m, k)
  {
    hide Live;
    assert evs[..n][..k] == evs[..k];
  }

  /** A mint that is gone has left no secret behind. */
  lemma {:induction false} GoneForGood(hash: string -> string, evs: seq<Event>, c: nat)
    requires FreshSecrets(evs) && Mints(hash, evs, c) && MintOf(hash, evs, c) !in Live(hash, evs)
    ensures !LiveSecret(Live(hash, evs), evs[c].op.secret)
  {
    hide Live, Minted, Run;
    var live := Live(hash, evs);
    forall i | 0 <= i < |live| ensures live[i].secret != evs[c].op.secret {
      var d := LiveWasMinted(hash, evs, live[i]);
      assert d == c || evs[d].op.secret != evs[c].op.secret;
    }
  }

  /** What a Create minted is live exactly until a later Revoke of it is saved. */
  lemma {:induction false} LiveUntilRevoked(hash: string -> string, evs: seq<Event>, c: nat)
    requires WellDrawn(evs) && FreshSecrets(evs) && Mints(hash, evs, c)
    ensures MintOf(hash, evs, c) in Live(hash, evs) <==>
      forall k :: c < k < |evs| ==> !RevokedAt(hash, evs, MintOf(hash, evs, c), k)
  {
    hide Minted, Run, RevokedAt;
    var m, n := MintOf(hash, evs, c), |evs| - 1;
    var before := evs[..n];
    if c == n {
      assert Live(hash, evs)[|Live(hash, before)|] == m;
    } else {
      hide Live;
      MintsInPrefix(hash, evs, n, c);
      LiveUntilRevoked(hash, before, c);
      forall k | c < k < n ensures RevokedAt(hash, before, m, k) == RevokedAt(hash, evs, m, k) {
        RevokedInPrefix(hash, evs, m, n, k);
      }
      LastRevokes(hash, evs, m);
      if m in Live(hash, before) {
        LeavesExactlyByRevoke(hash, evs, m);
      } else {
        GoneForGood(hash, before, c);
        NeverBack(hash, evs, n, c);
        assert forall i :: 0 <= i < |Live(hash, evs)| ==> Live(hash, evs)[i].secret != m.secret;
      }
    }
  }

  lemma LastRevokes(hash: string -> string, evs: seq<Event>, m: Mint)
    requires evs != []
    ensures var n := |evs| - 1; RevokedAt(hash, evs, m, n) <==>
      evs[n].saveOk && Unlists(evs[n].op, Live(hash, evs[..n]), m)
  {}

  /**
   The life of a token: after any run, the plaintext a Create handed out is
   accepted exactly while its lifetime, counted from the Create, has not passed
   and no later Revoke of it has been saved.
   */
  lemma {:induction false} LifeCycle(hash: string -> string, evs: seq<Event>, c: nat, now: int)
    requires WellDrawn(evs) && FreshSecrets(evs) && Injective(hash) && Mints(hash, evs, c)
    ensures
      var m, op := MintOf(hash, evs, c), evs[c].op;
      && m.id in op.draws && m.name == op.name
      && (Accepted(hash, Run(hash, EMPTY, evs), "crate_" + m.id + "_" + op.secret, now).Some? <==>
          && (op.ttl.Some? ==> now <= op.now + op.ttl.value)
          && forall k :: c < k < |evs| ==> !RevokedAt(hash, evs, m, k))
  {
    hide Live, Run, Accepted, RevokedAt, Minted;
    var m := MintOf(hash, evs, c);
    MintedExact(hash, Run(hash, EMPTY, evs[..c]), evs[c].op);
    var bearer, live := Plaintext(m.id, m.secret), Live(hash, evs);
    VerifyAcceptsExactly(hash, evs, bearer, now);
    LiveUntilRevoked(hash, evs, c);
    if i :| 0 <= i < |live| && Presents(live[i], bearer, now) {
      OnePlaintext(hash, evs, c, i);
    }
  }

  /** Only the mint itself has its plaintext. */
  lemma {:induction false} OnePlaintext(hash: string -> string, evs: seq<Event>, c: nat, i: nat)
    requires WellDrawn(evs) && FreshSecrets(evs) && Mints(hash, evs, c) && i < |Live(hash, evs)|
    requires
      var m, x := MintOf(hash, evs, c), Live(hash, evs)[i];
      Plaintext(m.id, m.secret) == Plaintext(x.id, x.secret)
    ensures Live(hash, evs)[i] == MintOf(hash, evs, c)
  {
    hide Live, Run, Minted, Plaintext;
    var m, x := MintOf(hash, evs, c), Live(hash, evs)[i];
    MintIsHex(hash, evs, c);
    var d := LiveWasMinted(hash, evs, x);
    MintIsHex(hash, evs, d);
    HexPlain(m.id);
    HexPlain(x.id);
    ParseExact(Plaintext(m.id, m.secret), m.id, m.secret);
    ParseExact(Plaintext(m.id, m.secret), x.id, x.secret);
    assert d == c;
  }

  lemma MintIsHex(hash: string -> string, evs: seq<Event>, c: nat)
    requires WellDrawn(evs) && Mints(hash, evs, c)
    ensures IsHex(MintOf(hash, evs, c).id) && IsHex(MintOf(hash, evs, c).secret)
  {}

  /** The text after the last underscore is the secret, whatever stands for the id. */
  lemma {:induction false} SecretOfPlaintext(a: string, s: string, b: string, t: string)
    requires '_' !in s && '_' !in t
    ensures Plaintext(a, s) == Plaintext(b, t) ==> s == t
  {
    var x, y := Plaintext(a, s), Plaintext(b, t);
    var i, j := |x| - |s| - 1, |y| - |t| - 1;
    assert x[i] == '_' && y[j] == '_' && x[i + 1..] == s && y[j + 1..] == t;
    assert i < j < |x| ==> x[j] in x[i + 1..];
    assert j < i < |y| ==> y[i] in y[j + 1..];
  }

  /** Once a Revoke of a live token is saved, its secret is refused ever after, whatever the id and the time. */
  lemma {:induction false} RevokedStaysRefused(
    hash: string -> string, evs: seq<Event>, k: nat, m: Mint, id: string, now: int)
    requires WellDrawn(evs) && FreshSecrets(evs) && Injective(hash)
    requires RevokedAt(hash, evs, m, k) && m in Live(hash, evs[..k])
    ensures Accepted(hash, Run(hash, EMPTY, evs), Plaintext(id, m.secret), now).None?
  {
    hide Live, Run, Minted, Accepted, Plaintext;
    var upTo := evs[..k + 1];
    assert upTo[..k] == evs[..k];
    RevokeRemoves(hash, upTo, m);
    var c := LiveWasMinted(hash, evs[..k], m);
    NeverBack(hash, evs, k + 1, c);
    VerifyAcceptsExactly(hash, evs, Plaintext(id, m.secret), now);
    var live := Live(hash, evs);
    assert IsHex(m.secret) by { MintIsHex(hash, evs[..k], c); }
    forall i | 0 <= i < |live| ensures !Presents(live[i], Plaintext(id, m.secret), now) {
      var d := LiveWasMinted(hash, evs, live[i]);
      MintIsHex(hash, evs, d);
      HexPlain(m.secret);
      HexPlain(live[i].secret);
      SecretOfPlaintext(id, m.secret, live[i].id, live[i].secret);
    }
  }

  // ----- throttled touches

  ghost function Time(op: Op, clock: int): int {
    if op.Create? || op.Verify? then op.now else clock
  }

  ghost function Clock(start: int, evs: seq<Event>): int {
    if evs == [] then start else Time(evs[|evs| - 1].op, Clock(start, evs[..|evs| - 1]))
  }

  ghost predicate NonDecreasing(start: int, evs: seq<Event>) {
    evs != [] ==>
      Clock(start, evs[..|evs| - 1]) <= Clock(start, evs) && NonDecreasing(start, evs[..|evs| - 1])
  }

  ghost predicate NotAfter(a: Option<int>, b: Option<int>) {
    a.Some? ==> b.Some? && a.value <= b.value
  }

  /** What a clock that does not go back gives: saved touch <= stored use <= use in memory <= now. */
  ghost predicate TimedOne(s: State, i: nat, now: int)
    requires i < |s.recs| == |s.stored|
  {
    && NotAfter(s.stored[i].lastUsedAt, s.recs[i].lastUsedAt)
    && NotAfter(s.recs[i].lastUsedAt, Some(now))
    && (s.recs[i].id in s.lastSaved ==> NotAfter(Some(s.lastSaved[s.recs[i].id]), s.stored[i].lastUsedAt))
  }

  ghost predicate Timed(s: State, now: int) {
    |s.recs| == |s.stored| && forall i :: 0 <= i < |s.recs| ==> TimedOne(s, i, now)
  }

  lemma CreateTimed(hash: string -> string, s: State, op: Op, saveOk: bool, clock: int)
    requires Inv(s) && Timed(s, clock) && clock <= Time(op, clock) && op.Create?
    ensures Timed(Step(hash, s, op, saveOk), Time(op, clock))
  {
    hide NameFrom, FreshFrom;
    var t := Step(hash, s, op, saveOk);
    forall i | 0 <= i < |t.recs| ensures TimedOne(t, i, Time(op, clock)) {
      if i < |s.recs| { assert TimedOne(s, i, clock); }
    }
  }

  lemma RevokeTimed(hash: string -> string, s: State, op: Op, saveOk: bool, clock: int)
    requires Inv(s) && Timed(s, clock) && op.Revoke?
    ensures Timed(Step(hash, s, op, saveOk), clock)
  {
    hide IdFrom, NameFrom, Inv;
    var t := Step(hash, s, op, saveOk);
    if t != s {
      var k := Target(s.recs, op.key).value;
      forall i | 0 <= i < |t.recs| ensures TimedOne(t, i, clock) {
        assert TimedOne(s, if i < k then i else i + 1, clock);
      }
    }
  }

  lemma VerifyTimed(hash: string -> string, s: State, op: Op, saveOk: bool, clock: int)
    requires Inv(s) && Timed(s, clock) && clock <= Time(op, clock) && op.Verify?
    ensures Timed(Step(hash, s, op, saveOk), Time(op, clock))
  {
    hide Accepted;
    var t := Step(hash, s, op, saveOk);
    forall i | 0 <= i < |t.recs| ensures TimedOne(t, i, Time(op, clock)) {
      assert TimedOne(s, i, clock);
    }
  }

  lemma RestartTimed(hash: string -> string, s: State, saveOk: bool, clock: int)
    requires Inv(s) && Timed(s, clock)
    ensures Timed(Step(hash, s, Restart, saveOk), clock)
  {
    hide LoadedTimes;
    RestartKeepsInv(hash, s, saveOk);
    forall i | 0 <= i < |s.stored| ensures TimedOne(Step(hash, s, Restart, saveOk), i, clock) {
      assert TimedOne(s, i, clock);
      LoadedAt(s.stored, i);
    }
  }

  lemma StepTimed(hash: string -> string, s: State, op: Op, saveOk: bool, clock: int)
    requires Inv(s) && Timed(s, clock) && clock <= Time(op, clock)
    ensures Timed(Step(hash, s, op, saveOk), Time(op, clock))
  {
    hide Inv, Timed, Step;
    match op
    case Create(_, _, _, _, _) => CreateTimed(hash, s, op, saveOk, clock);
    case Revoke(key) => RevokeTimed(hash, s, op, saveOk, clock);
    case Verify(_, _) => VerifyTimed(hash, s, op, saveOk, clock);
    case Restart => RestartTimed(hash, s, saveOk, clock);
  }

  lemma {:induction false} RunTimed(hash: string -> string, s: State, evs: seq<Event>, start: int)
    requires Inv(s) && Timed(s, start) && NonDecreasing(start, evs)
    ensures Inv(Run(hash, s, evs)) && Timed(Run(hash, s, evs), Clock(start, evs))
  {
    hide Step, Inv, Timed;
    RunKeepsInv(hash, s, evs);
    if evs != [] {
      var before, ev := evs[..|evs| - 1], evs[|evs| - 1];
      RunTimed(hash, s, before, start);
      StepTimed(hash, Run(hash, s, before), ev.op, ev.saveOk, Clock(start, before));
    }
  }

  /** The operation is a Verify of the token that wrote its use to the document. */
  ghost predicate TouchWrites(hash: string -> string, s: State, ev: Event, id: string) {
    && ev.op.Verify? && ev.saveOk && Attempt(hash, s, ev.op).Some?
    && s.recs[Accepted(hash, s, ev.op.bearer, ev.op.now).value].id == id
  }

  ghost predicate SavedSince(s: State, id: string, t: int) {
    id in s.lastSaved && t <= s.lastSaved[id]
  }

  lemma RestartRemembers(hash: string -> string, s: State, saveOk: bool, clock: int, id: string, t: int)
    requires Inv(s) && Timed(s, clock) && SavedSince(s, id, t)
    ensures SavedSince(Step(hash, s, Restart, saveOk), id, t)
  {
    hide LoadedTimes;
    var i :| 0 <= i < |s.recs| && s.recs[i].id == id;
    assert TimedOne(s, i, clock);
    assert SameButUse(s.recs[i], s.stored[i]);
    RestartKeepsInv(hash, s, saveOk);
    LoadedAt(s.stored, i);
  }

  /** A saved touch is remembered while the token lives, through restarts too. */
  lemma StepRemembers(hash: string -> string, s: State, op: Op, saveOk: bool, clock: int, id: string, t: int)
    requires Inv(s) && Timed(s, clock) && clock <= Time(op, clock) && t <= clock
    requires SavedSince(s, id, t) && HasId(Step(hash, s, op, saveOk).recs, id)
    ensures SavedSince(Step(hash, s, op, saveOk), id, t)
  {
    if op.Restart? {
      RestartRemembers(hash, s, saveOk, clock, id, t);
    } else if op.Revoke? {
      hide IdFrom, NameFrom, Without, HasId;
      if Target(s.recs, op.key).Some? { WithoutKeeps(s.recs, Target(s.recs, op.key).value); }
    } else {
      hide Accepted, Minted, Inv, Timed, HasId;
    }
  }

  lemma {:induction false} RunRemembers(
    hash: string -> string, s: State, evs: seq<Event>, start: int, i: nat, id: string)
    requires Inv(s) && Timed(s, start) && NonDecreasing(start, evs) && i < |evs|
    requires TouchWrites(hash, Run(hash, s, evs[..i]), evs[i], id)
    requires forall k :: i < k <= |evs| ==> HasId(Run(hash, s, evs[..k]).recs, id)
    ensures SavedSince(Run(hash, s, evs), id, evs[i].op.now) && evs[i].op.now <= Clock(start, evs)
  {
    hide Step, Inv, Timed, HasId, SavedSince, Attempt, Accepted;
    var n := |evs| - 1;
    var before, ev := evs[..n], evs[n];
    assert evs[..n + 1] == evs;
    RunTimed(hash, s, before, start);
    if i == n {
      TouchSaves(hash, Run(hash, s, before), ev, id);
    } else {
      assert before[..i] == evs[..i];
      forall k | i < k <= n ensures before[..k] == evs[..k] {}
      forall k | i < k <= n ensures HasId(Run(hash, s, before[..k]).recs, id) {
        assert HasId(Run(hash, s, evs[..k]).recs, id);
      }
      RunRemembers(hash, s, before, start, i, id);
      StepRemembers(hash, Run(hash, s, before), ev.op, ev.saveOk, Clock(start, before), id, evs[i].op.now);
    }
  }

  lemma TouchSaves(hash: string -> string, s: State, ev: Event, id: string)
    requires TouchWrites(hash, s, ev, id)
    ensures SavedSince(Step(hash, s, ev.op, ev.saveOk), id, ev.op.now)
  {}

  /**
   Two touch writes of one token, alive in between, are at least touchInterval
   apart, whatever else is saved and however often the daemon restarts.
   */
  lemma {:induction false} TouchesApart(
    hash: string -> string, s: State, evs: seq<Event>, start: int, i: nat, id: string)
    requires Inv(s) && Timed(s, start) && NonDecreasing(start, evs) && i < |evs| - 1
    requires TouchWrites(hash, Run(hash, s, evs[..i]), evs[i], id)
    requires TouchWrites(hash, Run(hash, s, evs[..|evs| - 1]), evs[|evs| - 1], id)
    requires forall k :: i < k < |evs| ==> HasId(Run(hash, s, evs[..k]).recs, id)
    ensures evs[|evs| - 1].op.now - evs[i].op.now >= TOUCH_INTERVAL
  {
    var before := evs[..|evs| - 1];
    forall k | 0 <= k <= |before| ensures before[..k] == evs[..k] {}
    RunRemembers(hash, s, before, start, i, id);
  }

  /** No touch that was due failed to be written. */
  ghost predicate TouchesSaved(hash: string -> string, s: State, evs: seq<Event>) {
    forall k :: 0 <= k < |evs| && evs[k].op.Verify? && Attempt(hash, Run(hash, s, evs[..k]), evs[k].op).Some? ==>
      evs[k].saveOk
  }

  /** The use in memory is less than touchInterval past the last saved touch. */
  ghost predicate Near(s: State) {
    forall i :: 0 <= i < |s.recs| && s.recs[i].lastUsedAt.Some? ==>
      s.recs[i].id in s.lastSaved && s.recs[i].lastUsedAt.value - s.lastSaved[s.recs[i].id] < TOUCH_INTERVAL
  }

  lemma RestartNear(hash: string -> string, s: State, saveOk: bool)
    requires Inv(s)
    ensures Near(Step(hash, s, Restart, saveOk))
  {
    hide LoadedTimes;
    RestartKeepsInv(hash, s, saveOk);
    forall i | 0 <= i < |s.stored| ensures Get(LoadedTimes(s.stored), s.stored[i].id) == s.stored[i].lastUsedAt {
      LoadedAt(s.stored, i);
    }
  }

  lemma WithoutNear(s: State, k: nat, stored: seq<Record>)
    requires Distinct(s.recs) && Near(s) && k < |s.recs|
    ensures Near(State(Without(s.recs, k), s.lastSaved - {s.recs[k].id}, stored))
  {
    var t := State(Without(s.recs, k), s.lastSaved - {s.recs[k].id}, stored);
    forall i | 0 <= i < |t.recs| && t.recs[i].lastUsedAt.Some?
      ensures t.recs[i].id in t.lastSaved && t.recs[i].lastUsedAt.value - t.lastSaved[t.recs[i].id] < TOUCH_INTERVAL
    {
      var j := if i < k then i else i + 1;
      assert t.recs[i] == s.recs[j];
      assert s.recs[j].id != s.recs[k].id;
    }
  }

  lemma RevokeNear(hash: string -> string, s: State, key: string, saveOk: bool)
    requires Inv(s) && Near(s)
    ensures Near(Step(hash, s, Op.Revoke(key), saveOk))
  {
    hide IdFrom, NameFrom, Near, Distinct, Agree, HasId, Without;
    var at := Target(s.recs, key);
    if at.Some? { WithoutNear(s, at.value, Without(s.recs, at.value)); }
  }

  lemma StepNear(hash: string -> string, s: State, op: Op, saveOk: bool)
    requires Inv(s) && Near(s) && (op.Verify? && Attempt(hash, s, op).Some? ==> saveOk)
    ensures Near(Step(hash, s, op, saveOk))
  {
    if op.Restart? {
      hide Near, Step, Inv;
      RestartNear(hash, s, saveOk);
    } else if op.Revoke? {
      hide Near, Step, Inv;
      RevokeNear(hash, s, op.key, saveOk);
    } else {
      hide Accepted, Minted;
    }
  }

  lemma {:induction false} RunNear(hash: string -> string, s: State, evs: seq<Event>)
    requires Inv(s) && Near(s) && TouchesSaved(hash, s, evs)
    ensures Near(Run(hash, s, evs))
  {
    hide Step, Inv, Near, Attempt;
    if evs != [] {
      var n := |evs| - 1;
      var before, ev := evs[..n], evs[n];
      forall k | 0 <= k <= n ensures before[..k] == evs[..k] {}
      assert forall k :: 0 <= k < n ==> before[k] == evs[k];
      RunNear(hash, s, before);
      RunKeepsInv(hash, s, before);
      StepNear(hash, Run(hash, s, before), ev.op, ev.saveOk);
    }
  }

  /** If no touch write failed, the stored last_used_at lags memory by less than touchInterval. */
  lemma {:induction false} StoredUseLags(hash: string -> string, s: State, evs: seq<Event>, start: int, i: nat)
    requires Inv(s) && Timed(s, start) && Near(s) && NonDecreasing(start, evs) && TouchesSaved(hash, s, evs)
    requires i < |Run(hash, s, evs).recs| && Run(hash, s, evs).recs[i].lastUsedAt.Some?
    ensures
      var t := Run(hash, s, evs);
      i < |t.stored| && t.stored[i].id == t.recs[i].id && t.stored[i].lastUsedAt.Some? &&
      0 <= t.recs[i].lastUsedAt.value - t.stored[i].lastUsedAt.value < TOUCH_INTERVAL
  {
    RunTimed(hash, s, evs, start);
    RunNear(hash, s, evs);
    var t := Run(hash, s, evs);
    assert TimedOne(t, i, Clock(start, evs));
    assert SameButUse(t.recs[i], t.stored[i]);
  }
}
