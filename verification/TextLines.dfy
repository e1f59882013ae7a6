/** Texts as sequences of lines. */
module TextLines {

  /** The length of the first line, with its newline if it has one. */
  function LineLength(s: string): (n: nat)
    requires s != ""
    ensures 1 <= n <= |s|
  {
    if s[0] == '\n' || |s| == 1 then 1 else 1 + LineLength(s[1..])
  }

  lemma {:induction false} LineLengthOfRun(t: string, rest: string)
    requires '\n' !in t && rest != ""
    ensures LineLength(t + rest) == |t| + LineLength(rest)
  {
    if t == "" {
      assert t + rest == rest;
    } else {
      assert (t + rest)[1..] == t[1..] + rest;
      assert t[0] in t && forall c :: c in t[1..] ==> c in t;
      LineLengthOfRun(t[1..], rest);
    }
  }

  lemma {:induction false} LineLengthOfLast(t: string)
    requires '\n' !in t && t != ""
    ensures LineLength(t) == |t|
  {
    if |t| > 1 {
      assert t[0] in t && forall c :: c in t[1..] ==> c in t;
      LineLengthOfLast(t[1..]);
    }
  }

  /** A text in two parts: its first line, and what follows. */
  lemma FirstLine(s: string) returns (line: string, tail: string)
    requires s != ""
    ensures s == line + tail && |line| == LineLength(s) > 0
  {
    line, tail := s[..LineLength(s)], s[LineLength(s)..];
  }

  lemma Associative(s: string, t: string, u: string)
    ensures s + (t + u) == (s + t) + u
  {
  }

  predicate EndsWith<T(==)>(s: seq<T>, tail: seq<T>)
  {
    |tail| <= |s| && s[|s| - |tail|..] == tail
  }

  lemma EndsWithConcat<T>(s: seq<T>, tail: seq<T>, more: seq<T>)
    requires EndsWith(s, tail)
    ensures EndsWith(s + more, tail + more)
  {
    var k := |s| - |tail|;
    assert (s + more)[k..] == s[k..] + more;
  }

  lemma EndsWithTransitive<T>(s: seq<T>, t: seq<T>, u: seq<T>)
    requires EndsWith(s, t) && EndsWith(t, u)
    ensures EndsWith(s, u)
  {
    assert s[|s| - |u|..] == s[|s| - |t|..][|t| - |u|..];
  }
}
