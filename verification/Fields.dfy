/** Fields of a line as awk splits them: runs of characters between blanks. */
module Fields {
  import opened TextLines

  predicate Blank(c: char) { c == ' ' || c == '\t' }

  predicate Word(w: string) { w != "" && forall c :: c in w ==> !Blank(c) }

  function SkipBlanks(s: string): string
  {
    if s != "" && Blank(s[0]) then SkipBlanks(s[1..]) else s
  }

  function TakeWord(s: string): string
  {
    if s == "" || Blank(s[0]) then "" else [s[0]] + TakeWord(s[1..])
  }

  function DropWord(s: string): string
  {
    if s == "" || Blank(s[0]) then s else DropWord(s[1..])
  }

  /** print $1 */
  function FirstField(s: string): string { TakeWord(SkipBlanks(s)) }

  /** print $1, $2 */
  function FirstTwoFields(s: string): string
  {
    FirstField(s) + " " + FirstField(DropWord(SkipBlanks(s)))
  }

  lemma {:induction false} WordTaken(w: string, rest: string)
    requires Word(w) && (rest == "" || Blank(rest[0]))
    ensures TakeWord(w + rest) == w && DropWord(w + rest) == rest
  {
    assert (w + rest)[1..] == w[1..] + rest;
    assert w[0] in w;
    if |w| == 1 {
      assert w[1..] + rest == rest;
    } else {
      assert Word(w[1..]) by { assert forall c :: c in w[1..] ==> c in w; }
      WordTaken(w[1..], rest);
    }
  }

  lemma FirstFieldIs(w: string, rest: string)
    requires Word(w) && (rest == "" || Blank(rest[0]))
    ensures FirstField(w + rest) == w
  {
    assert w[0] in w;
    WordTaken(w, rest);
  }

  lemma FirstTwoFieldsAre(v: string, w: string, rest: string)
    requires Word(v) && Word(w) && (rest == "" || Blank(rest[0]))
    ensures FirstTwoFields(v + " " + w + rest) == v + " " + w
  {
    var s, t := v + " " + w + rest, " " + (w + rest);
    Associative(v + " ", w, rest);
    Associative(v, " ", w + rest);
    assert v[0] in v && w[0] in w;
    WordTaken(v, t);
    FirstFieldIs(v, t);
    assert t[1..] == w + rest;
    FirstFieldIs(w, rest);
  }
}
