/** Site names and the bucket keys made from them. */
module Names {
  import opened Paths

  predicate NameChar(c: char) {
    'a' <= c <= 'z' || '0' <= c <= '9' || c == '.' || c == '_' || c == '-'
  }

  /** The site-name pattern: at most 63 characters, the first alphanumeric. */
  predicate ValidName(s: string) {
    && 1 <= |s| <= 63
    && ('a' <= s[0] <= 'z' || '0' <= s[0] <= '9')
    && forall i :: 0 <= i < |s| ==> NameChar(s[i])
  }

  /** Names are what ^[a-z0-9][a-z0-9._-]{0,62}$ matches. */
  lemma {:induction false} NamePattern(s: string)
    ensures ValidName(s) <==>
      exists c, rest ::
        && ('a' <= c <= 'z' || '0' <= c <= '9') && |rest| <= 62 && s == [c] + rest
        && forall i :: 0 <= i < |rest| ==>
             'a' <= rest[i] <= 'z' || '0' <= rest[i] <= '9' || rest[i] == '.' || rest[i] == '_' || rest[i] == '-'
  {
    if ValidName(s) {
      assert s == [s[0]] + s[1..];
    }
  }

  lemma ValidHasNoSlash(s: string)
    requires ValidName(s)
    ensures NoSlash(s)
  {}

  function MetaKey(prefix: string, name: string): string {
    prefix + "meta/" + name + ".json"
  }

  function SitePrefix(prefix: string, name: string): string {
    prefix + "sites/" + name + "/"
  }

  function VersionKey(prefix: string, name: string, version: string): string {
    SitePrefix(prefix, name) + version + ".tar"
  }

  /** The keys, spelled out. */
  lemma {:induction false} KeyTexts(prefix: string, name: string, version: string)
    ensures MetaKey(prefix, name) == prefix + "meta/" + name + ".json"
    ensures VersionKey(prefix, name, version) == SitePrefix(prefix, name) + version + ".tar"
    ensures SitePrefix(prefix, name) == prefix + "sites/" + name + "/"
  {}

  /** Where the first slash of a text is decides the part before it. */
  lemma FirstSlash(a: string, b: string, x: string, y: string)
    requires NoSlash(a) && NoSlash(b) && a + "/" + x == b + "/" + y
    ensures a == b && x == y
  {
    var s := a + "/" + x;
    assert s[|a|] == '/' && s[|b|] == '/';
    assert |a| == |b|;
    assert a == s[..|a|] && b == s[..|b|];
    assert x == s[|a| + 1..] && y == s[|b| + 1..];
  }

  lemma DropFront(p: string, a: string, b: string)
    requires p + a <= p + b
    ensures a <= b
  {
    assert (p + a)[|p|..] == a && (p + b)[|p|..] == b;
  }

  /** A sweep by site prefix reaches the content objects of that site and of no other. */
  lemma {:induction false} SweepStaysInSite(prefix: string, n: string, m: string, version: string)
    requires ValidName(n) && ValidName(m)
    ensures SitePrefix(prefix, n) <= VersionKey(prefix, m, version) <==> n == m
  {
    var tail := version + ".tar";
    if SitePrefix(prefix, n) <= VersionKey(prefix, m, version) {
      var p := prefix + "sites/";
      assert SitePrefix(prefix, n) == p + (n + "/");
      assert VersionKey(prefix, m, version) == p + (m + "/" + tail);
      DropFront(p, n + "/", m + "/" + tail);
      var whole := m + "/" + tail;
      var rest := whole[|n| + 1..];
      assert whole == n + "/" + rest;
      FirstSlash(n, m, rest, tail);
    }
  }

  /** Neither a sweep nor any content write touches metadata. */
  lemma {:induction false} MetadataIsApart(prefix: string, n: string, m: string)
    ensures !(SitePrefix(prefix, n) <= MetaKey(prefix, m))
  {
    var i := |prefix|;
    assert SitePrefix(prefix, n)[i] == 's' && MetaKey(prefix, m)[i] == 'm';
  }

  /** Distinct sites and versions have distinct keys. */
  lemma {:induction false} KeysAreInjective(prefix: string, n: string, v: string, m: string, u: string)
    requires ValidName(n) && ValidName(m)
    ensures VersionKey(prefix, n, v) == VersionKey(prefix, m, u) ==> n == m && v == u
    ensures MetaKey(prefix, n) == MetaKey(prefix, m) ==> n == m
  {
    if VersionKey(prefix, n, v) == VersionKey(prefix, m, u) {
      SweepStaysInSite(prefix, n, m, u);
      var front := |SitePrefix(prefix, n)|;
      var key := VersionKey(prefix, n, v);
      assert key[front..|key| - 4] == v && key[front..|key| - 4] == u;
    }
    if MetaKey(prefix, n) == MetaKey(prefix, m) {
      var front := |prefix| + 5;
      var key := MetaKey(prefix, n);
      assert key[front..|key| - 5] == n && key[front..|key| - 5] == m;
    }
  }
}
