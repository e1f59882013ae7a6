/** Byte-wise lexicographic order on texts: strcmp in C, `<` inside `[[ ]]` and `sort` in the shell. */
module TextOrder {

  predicate Less(s: string, t: string)
  {
    t != "" && (s == "" || s[0] < t[0] || (s[0] == t[0] && Less(s[1..], t[1..])))
  }

  predicate AtMost(s: string, t: string) { !Less(t, s) }

  lemma {:induction false} Irreflexive(s: string)
    ensures !Less(s, s)
  {
    if s != "" { Irreflexive(s[1..]); }
  }

  lemma {:induction false} Transitive(s: string, t: string, u: string)
    requires Less(s, t) && Less(t, u)
    ensures Less(s, u)
  {
    if s != "" && s[0] == t[0] && t[0] == u[0] { Transitive(s[1..], t[1..], u[1..]); }
  }

  lemma {:induction false} Total(s: string, t: string)
    ensures Less(s, t) || s == t || Less(t, s)
  {
    if s != "" && t != "" && s[0] == t[0] {
      Total(s[1..], t[1..]);
      assert s == [s[0]] + s[1..] && t == [t[0]] + t[1..];
    }
  }

  lemma AtMostThenLess(s: string, t: string, u: string)
    requires AtMost(s, t) && Less(t, u)
    ensures Less(s, u)
  {
    Total(s, t);
    if Less(s, t) { Transitive(s, t, u); }
  }

  lemma LessThenAtMost(s: string, t: string, u: string)
    requires Less(s, t) && AtMost(t, u)
    ensures Less(s, u)
  {
    Total(t, u);
    if Less(t, u) { Transitive(s, t, u); }
  }

  lemma AtMostTransitive(s: string, t: string, u: string)
    requires AtMost(s, t) && AtMost(t, u)
    ensures AtMost(s, u)
  {
    if Less(u, s) { LessThenAtMost(u, s, t); }
  }

  lemma LessIsAtMost(s: string, t: string)
    requires Less(s, t)
    ensures AtMost(s, t)
  {
    if Less(t, s) {
      Transitive(s, t, s);
      Irreflexive(s);
    }
  }

  /** A common prefix does not affect the order. */
  lemma {:induction false} CommonPrefix(p: string, s: string, t: string)
    ensures Less(p + s, p + t) <==> Less(s, t)
  {
    if p == "" {
      assert p + s == s && p + t == t;
    } else {
      assert (p + s)[1..] == p[1..] + s && (p + t)[1..] == p[1..] + t;
      CommonPrefix(p[1..], s, t);
    }
  }

  /** Different prefixes of one length decide the order, whatever follows them. */
  lemma {:induction false} PrefixDecides(p: string, q: string, s: string, t: string)
    requires |p| == |q| && p != q
    ensures Less(p + s, q + t) <==> Less(p, q)
  {
    assert (p + s)[1..] == p[1..] + s && (q + t)[1..] == q[1..] + t;
    if p[0] == q[0] {
      assert p == [p[0]] + p[1..] && q == [q[0]] + q[1..];
      PrefixDecides(p[1..], q[1..], s, t);
    }
  }

  /** Texts with heads of one length compare head first. */
  lemma HeadFirst(p: string, q: string, s: string, t: string)
    requires |p| == |q|
    ensures Less(p + s, q + t) <==> Less(p, q) || (p == q && Less(s, t))
    ensures p + s == q + t <==> p == q && s == t
  {
    assert (p + s)[..|p|] == p && (q + t)[..|p|] == q && (p + s)[|p|..] == s && (q + t)[|p|..] == t;
    if p == q {
      CommonPrefix(p, s, t);
      Irreflexive(p);
    } else {
      PrefixDecides(p, q, s, t);
    }
  }

  /** A text is never above its own extension. */
  lemma {:induction false} ExtensionAbove(s: string, rest: string)
    ensures AtMost(s, s + rest)
  {
    if s != "" {
      assert (s + rest)[1..] == s[1..] + rest;
      ExtensionAbove(s[1..], rest);
    }
  }
}
