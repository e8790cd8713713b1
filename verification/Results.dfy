/** Outcomes shared by every module: the errors the stores report, and optional values. */
module Results {
  datatype Option<+T> = None | Some(value: T)

  datatype Error =
    | InvalidName
    | NotFound
    | UnsafePath
    | SiteTooLarge
    | TarRead
    | FileSystem
    | DuplicateName
    | NoFreshId
    | SaveFailed
    | ReadFailed
    | ParseFailed

  datatype Result<+T> = Ok(value: T) | Err(error: Error)

  /** When something created now with this lifetime, or none, is due. */
  function Deadline(lifetime: Option<int>, now: int): Option<int> {
    match lifetime
    case None => None
    case Some(d) => Some(now + d)
  }

  /** The value a map gives a key, as an option. */
  function Get<K, V>(m: map<K, V>, k: K): Option<V> {
    if k in m then Some(m[k]) else None
  }

  /** Maps that give every key alike are equal. */
  lemma SameMap<K, V>(a: map<K, V>, b: map<K, V>)
    requires forall k :: Get(a, k) == Get(b, k)
    ensures a == b
  {
    forall k ensures k in a <==> k in b { assert Get(a, k) == Get(b, k); }
    forall k | k in a ensures a[k] == b[k] { assert Get(a, k) == Get(b, k); }
  }
}
