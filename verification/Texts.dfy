/** Splitting text at the first separator, as strings.Cut does. */
module Texts {
  import opened Results

  function Cut(s: string, sep: char): Option<(string, string)> {
    if s == "" then None
    else if s[0] == sep then Some(("", s[1..]))
    else
      match Cut(s[1..], sep)
      case None => None
      case Some(p) => Some(([s[0]] + p.0, p.1))
  }

  lemma {:induction false} CutExact(s: string, sep: char)
    ensures Cut(s, sep).None? <==> sep !in s
    ensures Cut(s, sep).Some? ==> sep !in Cut(s, sep).value.0 && s == Cut(s, sep).value.0 + [sep] + Cut(s, sep).value.1
  {
    if s != "" {
      CutExact(s[1..], sep);
      assert s == [s[0]] + s[1..];
      if s[0] == sep {
        assert s == "" + [sep] + s[1..];
      } else if Cut(s[1..], sep).Some? {
        var p := Cut(s[1..], sep).value;
        assert s == [s[0]] + (p.0 + [sep] + p.1) == ([s[0]] + p.0) + [sep] + p.1;
      }
    }
  }

  /** Cutting undoes joining when the first part has no separator. */
  lemma {:induction false} CutFormat(head: string, rest: string, sep: char)
    requires sep !in head
    ensures Cut(head + [sep] + rest, sep) == Some((head, rest))
  {
    var s := head + [sep] + rest;
    if head == "" {
      assert s[1..] == rest;
    } else {
      assert s[1..] == head[1..] + [sep] + rest;
      CutFormat(head[1..], rest, sep);
      assert [head[0]] + head[1..] == head;
    }
  }
}
