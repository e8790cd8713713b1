/** Named API tokens: the set a daemon holds in memory and the document it keeps it in. */
module Tokens {
  import opened Results
  import opened Texts

  const PREFIX := "crate_"
  const ID_DRAWS := 10
  /** One minute, in nanoseconds like every time here. */
  const TOUCH_INTERVAL: int := 60_000_000_000

  datatype Record = Record(
    id: string, name: string, sha256: string, createdAt: int,
    expiresAt: Option<int>, lastUsedAt: Option<int>)

  // ----- names and bearer values

  predicate Alnum(c: char) {
    'a' <= c <= 'z' || '0' <= c <= '9'
  }

  /** The token-name pattern: up to 64 characters, alphanumeric at both ends. */
  predicate ValidName(s: string) {
    && 1 <= |s| <= 64
    && Alnum(s[0]) && Alnum(s[|s| - 1])
    && forall i :: 0 <= i < |s| ==> Alnum(s[i]) || s[i] in "._-"
  }

  /** Names are what ^[a-z0-9]([a-z0-9._-]{0,62}[a-z0-9])?$ matches. */
  lemma {:induction false} NamePattern(s: string)
    ensures ValidName(s) <==>
      || (exists c :: Alnum(c) && s == [c])
      || (exists c, mid, d :: Alnum(c) && Alnum(d) && |mid| <= 62 && InBody(mid) && s == [c] + mid + [d])
  {
    if ValidName(s) {
      if |s| == 1 {
        assert s == [s[0]];
      } else {
        var mid := s[1..|s| - 1];
        assert InBody(mid) && s == [s[0]] + mid + [s[|s| - 1]];
      }
    }
    if c, mid, d :| Alnum(c) && Alnum(d) && |mid| <= 62 && InBody(mid) && s == [c] + mid + [d] {
      forall i | 0 <= i < |s| ensures Alnum(s[i]) || s[i] in "._-" {
        assert 1 <= i <= |mid| ==> s[i] == mid[i - 1];
      }
    }
  }

  ghost predicate InBody(mid: string) {
    forall i :: 0 <= i < |mid| ==> Alnum(mid[i]) || mid[i] == '.' || mid[i] == '_' || mid[i] == '-'
  }

  function Plaintext(id: string, secret: string): string {
    PREFIX + id + "_" + secret
  }

  /** The id and secret of a well-formed bearer value. */
  function Parse(bearer: string): Option<(string, string)> {
    if !(PREFIX <= bearer) then None
    else
      match Cut(bearer[|PREFIX|..], '_')
      case None => None
      case Some(p) => if p.0 == "" || p.1 == "" then None else Some(p)
  }

  /** Parsing inverts the formatting of Create, and nothing else parses to the same id and secret. */
  lemma {:induction false} ParseExact(bearer: string, id: string, secret: string)
    requires '_' !in id && id != "" && secret != ""
    ensures Parse(bearer) == Some((id, secret)) <==> bearer == Plaintext(id, secret)
  {
    var text := Plaintext(id, secret);
    assert text[|PREFIX|..] == id + "_" + secret;
    CutFormat(id, secret, '_');
    if Parse(bearer) == Some((id, secret)) {
      CutExact(bearer[|PREFIX|..], '_');
      assert bearer == PREFIX + bearer[|PREFIX|..];
      assert bearer == text;
    }
  }

  // ----- searching the records

  function IdFrom(recs: seq<Record>, id: string, i: nat): (r: Option<nat>)
    requires i <= |recs|
    ensures r.Some? ==> i <= r.value < |recs| && recs[r.value].id == id
    ensures r.Some? ==> forall j :: i <= j < r.value ==> recs[j].id != id
    ensures r.None? ==> forall j :: i <= j < |recs| ==> recs[j].id != id
    decreases |recs| - i
  {
    if i == |recs| then None else if recs[i].id == id then Some(i) else IdFrom(recs, id, i + 1)
  }

  function NameFrom(recs: seq<Record>, name: string, i: nat): (r: Option<nat>)
    requires i <= |recs|
    ensures r.Some? ==> i <= r.value < |recs| && recs[r.value].name == name
    ensures r.Some? ==> forall j :: i <= j < r.value ==> recs[j].name != name
    ensures r.None? ==> forall j :: i <= j < |recs| ==> recs[j].name != name
    decreases |recs| - i
  {
    if i == |recs| then None else if recs[i].name == name then Some(i) else NameFrom(recs, name, i + 1)
  }

  /** The record a revocation names: by id if any id matches, else by name. */
  function Target(recs: seq<Record>, key: string): Option<nat> {
    if IdFrom(recs, key, 0).Some? then IdFrom(recs, key, 0) else NameFrom(recs, key, 0)
  }

  /** The first record of that id, or of that name when no record has that id. */
  ghost predicate Matched(recs: seq<Record>, key: string, i: nat)
    requires i < |recs|
  {
    || (recs[i].id == key && forall j :: 0 <= j < i ==> recs[j].id != key)
    || (IsFresh(recs, key) && recs[i].name == key && forall j :: 0 <= j < i ==> recs[j].name != key)
  }

  /** The first drawn id that no record has; ten draws at most. */
  function FreshFrom(recs: seq<Record>, draws: seq<string>, i: nat): (r: Option<string>)
    requires i <= |draws|
    ensures r.Some? ==> r.value in draws && IdFrom(recs, r.value, 0).None?
    decreases |draws| - i
  {
    if i == |draws| then None
    else if IdFrom(recs, draws[i], 0).None? then Some(draws[i])
    else FreshFrom(recs, draws, i + 1)
  }

  ghost predicate IsFresh(recs: seq<Record>, id: string) {
    forall i :: 0 <= i < |recs| ==> recs[i].id != id
  }

  ghost predicate NameFree(recs: seq<Record>, name: string) {
    forall i :: 0 <= i < |recs| ==> recs[i].name != name
  }

  /** The first fresh draw, if there is one. */
  lemma {:induction false} FreshExact(recs: seq<Record>, draws: seq<string>, i: nat)
    requires i <= |draws|
    ensures FreshFrom(recs, draws, i).Some? <==> exists k :: i <= k < |draws| && IsFresh(recs, draws[k])
    ensures FreshFrom(recs, draws, i).Some? ==>
      exists k :: i <= k < |draws| && draws[k] == FreshFrom(recs, draws, i).value && IsFresh(recs, draws[k]) &&
        forall j :: i <= j < k ==> !IsFresh(recs, draws[j])
    decreases |draws| - i
  {
    hide IdFrom;
    if i < |draws| {
      FreshExact(recs, draws, i + 1);
    }
  }

  // ----- what each operation does

  /** The records in memory, the last_used_at values known to be stored, and the stored document. */
  datatype State = State(recs: seq<Record>, lastSaved: map<string, int>, stored: seq<Record>)

  function Without(recs: seq<Record>, i: nat): seq<Record>
    requires i < |recs|
  {
    recs[..i] + recs[i + 1..]
  }

  datatype Op =
    | Create(name: string, ttl: Option<int>, now: int, draws: seq<string>, secret: string)
    | Revoke(key: string)
    | Verify(bearer: string, now: int)
    | Restart

  function Minted(hash: string -> string, s: State, op: Op): Option<Record>
    requires op.Create?
  {
    if !ValidName(op.name) || NameFrom(s.recs, op.name, 0).Some? then None
    else
      match FreshFrom(s.recs, op.draws, 0)
      case None => None
      case Some(id) => Some(Record(id, op.name, hash(op.secret), op.now, Deadline(op.ttl, op.now), None))
  }

  /** When Create mints, and what: the lifetime counts from the moment of minting. */
  lemma {:induction false} MintedExact(hash: string -> string, s: State, op: Op)
    requires op.Create?
    ensures Minted(hash, s, op).Some? <==>
      && ValidName(op.name) && NameFree(s.recs, op.name)
      && exists k :: 0 <= k < |op.draws| && IsFresh(s.recs, op.draws[k])
    ensures Minted(hash, s, op).Some? ==>
      var rec := Minted(hash, s, op).value;
      && rec.id in op.draws && IsFresh(s.recs, rec.id)
      && rec.name == op.name && rec.sha256 == hash(op.secret) && rec.createdAt == op.now && rec.lastUsedAt == None
      && (op.ttl.None? ==> rec.expiresAt == None)
      && (op.ttl.Some? ==> rec.expiresAt == Some(op.now + op.ttl.value))
  {
    hide IdFrom, NameFrom, FreshFrom, ValidName;
    FreshExact(s.recs, op.draws, 0);
  }

  /** The index of the record a bearer value authenticates as. */
  function Accepted(hash: string -> string, s: State, bearer: string, now: int): (r: Option<nat>)
    ensures r.Some? ==> r.value < |s.recs|
  {
    match Parse(bearer)
    case None => None
    case Some(p) =>
      match IdFrom(s.recs, p.0, 0)
      case None => None
      case Some(i) =>
        var r := s.recs[i];
        if hash(p.1) != r.sha256 || (r.expiresAt.Some? && now > r.expiresAt.value) then None else Some(i)
  }

  function Used(recs: seq<Record>, i: nat, now: int): seq<Record>
    requires i < |recs|
  {
    recs[i := recs[i].(lastUsedAt := Some(now))]
  }

  predicate TouchDue(s: State, id: string, now: int) {
    id !in s.lastSaved || now - s.lastSaved[id] >= TOUCH_INTERVAL
  }

  function LoadedTimes(recs: seq<Record>): map<string, int> {
    if recs == [] then map[]
    else
      var r, before := recs[|recs| - 1], LoadedTimes(recs[..|recs| - 1]);
      if r.lastUsedAt.Some? then before[r.id := r.lastUsedAt.value] else before
  }

  /** The document an operation tries to save, if it tries. */
  function Attempt(hash: string -> string, s: State, op: Op): Option<seq<Record>> {
    match op
    case Create(_, _, _, _, _) =>
      (match Minted(hash, s, op)
       case None => None
       case Some(rec) => Some(s.recs + [rec]))
    case Revoke(key) =>
      (match Target(s.recs, key)
       case None => None
       case Some(i) => Some(Without(s.recs, i)))
    case Verify(bearer, now) =>
      (match Accepted(hash, s, bearer, now)
       case None => None
       case Some(i) => if TouchDue(s, s.recs[i].id, now) then Some(Used(s.recs, i, now)) else None)
    case Restart => None
  }

  /** The effect of an operation, given whether a save would succeed. */
  function Step(hash: string -> string, s: State, op: Op, saveOk: bool): State {
    var attempt := Attempt(hash, s, op);
    match op
    case Create(_, _, _, _, _) =>
      if attempt.Some? && saveOk then State(attempt.value, s.lastSaved, attempt.value) else s
    case Revoke(key) =>
      if attempt.Some? && saveOk then
        State(attempt.value, s.lastSaved - {s.recs[Target(s.recs, key).value].id}, attempt.value)
      else s
    case Verify(bearer, now) =>
      (match Accepted(hash, s, bearer, now)
       case None => s
       case Some(i) =>
         var recs := Used(s.recs, i, now);
         if attempt.Some? && saveOk then State(recs, s.lastSaved[s.recs[i].id := now], recs)
         else s.(recs := recs))
    case Restart => State(s.stored, LoadedTimes(s.stored), s.stored)
  }

  // ----- the store

  datatype SaveFault = NoFault | WriteFails | RenameFails

  /** The token document on local disk, written beside itself and renamed into place. */
  class FileStore {
    var stored: seq<Record>
    var tmp: Option<seq<Record>>

    constructor (recs: seq<Record>)
      ensures stored == recs
    {
      stored, tmp := recs, None;
    }

    /** Readers see the old document or the new one; a failed save leaves the old one. */
    method Save(recs: seq<Record>, fault: SaveFault) returns (ok: bool)
      modifies this
      ensures ok <==> fault.NoFault?
      ensures stored == if ok then recs else old(stored)
    {
      if fault.WriteFails? {
        tmp := Some([]);
        return false;
      }
      tmp := Some(recs);
      if fault.RenameFails? {
        return false;
      }
      stored, tmp := recs, None;
      return true;
    }
  }

  class Store {
    const hash: string -> string
    const store: FileStore
    var recs: seq<Record>
    var lastSaved: map<string, int>

    ghost function Now(): State
      reads this, store
    {
      State(recs, lastSaved, store.stored)
    }

    /** A set with these records, whose uses are known to be stored. */
    constructor (hash: string -> string, p: FileStore, loaded: seq<Record>)
      ensures this.hash == hash && store == p && recs == loaded && lastSaved == LoadedTimes(loaded)
    {
      this.hash, store := hash, p;
      var times: map<string, int> := map[];
      for i := 0 to |loaded|
        invariant times == LoadedTimes(loaded[..i])
      {
        assert loaded[..i + 1][..i] == loaded[..i];
        if loaded[i].lastUsedAt.Some? {
          times := times[loaded[i].id := loaded[i].lastUsedAt.value];
        }
      }
      assert loaded[..|loaded|] == loaded;
      recs, lastSaved := loaded, times;
    }

    method FreshId(draws: seq<string>) returns (id: Option<string>)
      ensures id == FreshFrom(recs, draws, 0)
    {
      var i := 0;
      while i < |draws|
        invariant i <= |draws|
        invariant FreshFrom(recs, draws, 0) == FreshFrom(recs, draws, i)
      {
        var collision := false;
        for j := 0 to |recs|
          invariant !collision
          invariant IdFrom(recs, draws[i], 0) == IdFrom(recs, draws[i], j)
        {
          if recs[j].id == draws[i] {
            collision := true;
            break;
          }
        }
        if !collision {
          return Some(draws[i]);
        }
        i := i + 1;
      }
      return None;
    }

    method Create(name: string, ttl: Option<int>, now: int, draws: seq<string>, secret: string, fault: SaveFault)
      returns (r: Result<(string, Record)>)
      requires |draws| == ID_DRAWS
      modifies this`recs, store
      ensures Now() == Step(hash, old(Now()), Op.Create(name, ttl, now, draws, secret), fault.NoFault?)
      ensures
        var minted := Minted(hash, old(Now()), Op.Create(name, ttl, now, draws, secret));
        if minted.Some? && fault.NoFault? then r == Ok((Plaintext(minted.value.id, secret), minted.value)) else r.Err?
      ensures r.Ok? <==>
        && ValidName(name) && NameFree(old(recs), name) && fault.NoFault?
        && exists k :: 0 <= k < |draws| && IsFresh(old(recs), draws[k])
      ensures r.Ok? ==>
        var (text, rec) := r.value;
        && recs == old(recs) + [rec] && store.stored == recs
        && text == "crate_" + rec.id + "_" + secret
        && rec.id in draws && IsFresh(old(recs), rec.id)
        && rec.name == name && rec.sha256 == hash(secret) && rec.createdAt == now && rec.lastUsedAt == None
        && (ttl.None? ==> rec.expiresAt == None) && (ttl.Some? ==> rec.expiresAt == Some(now + ttl.value))
      ensures r.Err? ==> recs == old(recs) && store.stored == old(store.stored)
      ensures (r == Err(InvalidName) <==> !ValidName(name))
      ensures (r == Err(DuplicateName) <==> ValidName(name) && !NameFree(old(recs), name))
    {
      hide ValidName;
      MintedExact(hash, Now(), Op.Create(name, ttl, now, draws, secret));
      if !ValidName(name) {
        return Err(InvalidName);
      }
      for i := 0 to |recs|
        invariant NameFrom(recs, name, 0) == NameFrom(recs, name, i)
      {
        if recs[i].name == name {
          return Err(DuplicateName);
        }
      }
      var id := FreshId(draws);
      if id.None? {
        return Err(NoFreshId);
      }
      var rec := Record(id.value, name, hash(secret), now, Deadline(ttl, now), None);
      recs := recs + [rec];
      var saved := store.Save(recs, fault);
      if !saved {
        recs := recs[..|recs| - 1];
        return Err(SaveFailed);
      }
      return Ok((Plaintext(id.value, secret), rec));
    }

    method Revoke(key: string, fault: SaveFault) returns (r: Result<()>)
      modifies this, store
      ensures Now() == Step(hash, old(Now()), Op.Revoke(key), fault.NoFault?)
      ensures r.Ok? <==> Target(old(recs), key).Some? && fault.NoFault?
      ensures r == Err(NotFound) <==> Target(old(recs), key).None?
      ensures Target(old(recs), key).None? <==> IsFresh(old(recs), key) && NameFree(old(recs), key)
      ensures r.Ok? ==>
        var i := Target(old(recs), key).value;
        && Matched(old(recs), key, i) && recs == old(recs)[..i] + old(recs)[i + 1..] && store.stored == recs
        && lastSaved == old(lastSaved) - {old(recs)[i].id}
      ensures r.Err? ==> recs == old(recs) && store.stored == old(store.stored) && lastSaved == old(lastSaved)
    {
      var idx := -1;
      for i := 0 to |recs|
        invariant idx == -1 && IdFrom(recs, key, 0) == IdFrom(recs, key, i)
      {
        if recs[i].id == key {
          idx := i;
          break;
        }
      }
      if idx < 0 {
        for i := 0 to |recs|
          invariant idx == -1 && NameFrom(recs, key, 0) == NameFrom(recs, key, i)
        {
          if recs[i].name == key {
            idx := i;
            break;
          }
        }
      }
      if idx < 0 {
        return Err(NotFound);
      }
      var removed := recs[idx];
      var prev := recs;
      recs := recs[..idx] + recs[idx + 1..];
      var saved := store.Save(recs, fault);
      if !saved {
        recs := prev;
        return Err(SaveFailed);
      }
      lastSaved := lastSaved - {removed.id};
      return Ok(());
    }

    method Verify(bearer: string, now: int, fault: SaveFault) returns (r: Option<Record>)
      modifies this, store
      ensures Now() == Step(hash, old(Now()), Op.Verify(bearer, now), fault.NoFault?)
      ensures r.Some? <==> Accepted(hash, old(Now()), bearer, now).Some?
      ensures r.Some? ==> r.value == recs[Accepted(hash, old(Now()), bearer, now).value]
      ensures r.None? ==> Now() == old(Now())
      ensures r.Some? ==>
        var i := Accepted(hash, old(Now()), bearer, now).value;
        var id := old(recs)[i].id;
        var due := id !in old(lastSaved) || now - old(lastSaved)[id] >= 60_000_000_000;
        && r.value.lastUsedAt == Some(now) && recs == old(recs)[i := old(recs)[i].(lastUsedAt := Some(now))]
        && (due && fault.NoFault? ==> store.stored == recs && lastSaved == old(lastSaved)[id := now])
        && (!(due && fault.NoFault?) ==> store.stored == old(store.stored) && lastSaved == old(lastSaved))
    {
      var parsed := Parse(bearer);
      if parsed.None? {
        return None;
      }
      var (id, secret) := parsed.value;
      var gotHash := hash(secret);
      for i := 0 to |recs|
        invariant Now() == old(Now())
        invariant IdFrom(recs, id, 0) == IdFrom(recs, id, i)
      {
        if recs[i].id != id {
          continue;
        }
        if gotHash != recs[i].sha256 {
          return None;
        }
        if recs[i].expiresAt.Some? && now > recs[i].expiresAt.value {
          return None;
        }
        recs := recs[i := recs[i].(lastUsedAt := Some(now))];
        if id !in lastSaved || now - lastSaved[id] >= TOUCH_INTERVAL {
          var saved := store.Save(recs, fault);
          if saved {
            lastSaved := lastSaved[id := now];
          }
        }
        return Some(recs[i]);
      }
      return None;
    }
  }

  datatype LoadFault = NoLoadFault | ReadFails | ParseFails

  /** Loads what is stored; nothing stored gives an empty set, and a read or parse error no set at all. */
  method LoadFrom(hash: string -> string, p: FileStore, fault: LoadFault) returns (r: Result<Store>)
    ensures
      match fault
      case NoLoadFault =>
        r.Ok? && fresh(r.value) && r.value.hash == hash && r.value.store == p &&
        r.value.Now() == Step(hash, State([], map[], p.stored), Restart, true)
      case ReadFails => r == Err(ReadFailed)
      case ParseFails => r == Err(ParseFailed)
  {
    if fault.ReadFails? {
      return Err(ReadFailed);
    }
    if fault.ParseFails? {
      return Err(ParseFailed);
    }
    var s := new Store(hash, p, p.stored);
    return Ok(s);
  }
}
