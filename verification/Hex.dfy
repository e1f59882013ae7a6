/** The textual external format: '@' and two hex digits a byte, and the reader that never validates. */
module Hex {
  import opened Machine
  import opened TextLines
  import opened TextOrder
  import opened Bytes

  const NIBBLE_TO_HEX: string := "0123456789abcdef"

  function HexDigit(n: int): (c: char)
    requires 0 <= n < 16
  {
    (if n < 10 then 48 + n else 87 + n) as char
  }

  /** The digits are those of the table in format_textual. */
  lemma HexDigitTable(n: int)
    requires 0 <= n < 16
    ensures HexDigit(n) == NIBBLE_TO_HEX[n]
  {
  }

  predicate IsHexDigit(c: char) { '0' <= c <= '9' || 'a' <= c <= 'f' }

  /** The value of a plain char, which is signed on the modelled machine. */
  function CharValue(c: char): int { if c as int < 128 then c as int else c as int - 256 }

  /** The macro hex_to_nibble: an unsigned char, for any character at all. */
  function Nibble(c: char): byte
  {
    (if CharValue(c) >= 97 then CharValue(c) - 97 + 10 else CharValue(c) - 48) % 256
  }

  /** What remains of a character once it has been read as a digit. */
  function Digit(c: char): (d: int)
    ensures 0 <= d < 16
  {
    Nibble(c) % 16
  }

  function Pair(b: byte): (s: string)
    ensures |s| == 2
  {
    [HexDigit(b / 16), HexDigit(b % 16)]
  }

  /** Two digits a byte, high half first. */
  function HexPairs(bs: seq<byte>): (s: string)
    ensures |s| == 2 * |bs|
  {
    if bs == [] then "" else HexPairs(bs[..|bs| - 1]) + Pair(bs[|bs| - 1])
  }

  function HexText(bs: seq<byte>): (s: string)
    ensures |s| == 2 * |bs| + 1
  {
    "@" + HexPairs(bs)
  }

  /** The byte read from two characters. */
  function ReadPair(hi: char, lo: char): byte { 16 * Digit(hi) + Digit(lo) }

  /** The n bytes that the reader makes of any text, digit by digit. */
  function Unhex(text: string, n: nat): (bs: seq<byte>)
    requires 2 * n + 1 <= |text|
    ensures |bs| == n
  {
    if n == 0 then [] else Unhex(text, n - 1) + [ReadPair(text[2 * n - 1], text[2 * n])]
  }

  function NormalDigits(s: string): (r: string)
    ensures |r| == |s|
  {
    if s == "" then "" else NormalDigits(s[..|s| - 1]) + [HexDigit(Digit(s[|s| - 1]))]
  }

  /** The text with every character after the first replaced by the digit it is read as. */
  function Normal(text: string): (r: string)
    requires text != ""
    ensures |r| == |text|
  {
    [text[0]] + NormalDigits(text[1..])
  }

  lemma {:induction false} HexPairsConcat(bs: seq<byte>, cs: seq<byte>)
    ensures HexPairs(bs + cs) == HexPairs(bs) + HexPairs(cs)
  {
    if cs == [] {
      assert bs + cs == bs;
    } else {
      var n := |cs| - 1;
      assert (bs + cs)[..|bs + cs| - 1] == bs + cs[..n];
      HexPairsConcat(bs, cs[..n]);
    }
  }

  lemma HexPairsSnoc(bs: seq<byte>, b: byte)
    ensures HexPairs(bs + [b]) == HexPairs(bs) + Pair(b)
  {
    assert (bs + [b])[..|bs|] == bs;
  }

  /** The text shows byte k in its place. */
  predicate ShowsByte(s: string, k: nat, b: byte)
  {
    2 * k + 2 < |s| && s[2 * k + 1] == HexDigit(b / 16) && s[2 * k + 2] == HexDigit(b % 16)
  }

  lemma {:induction false} ShowsAllBytes(s: string, bs: seq<byte>)
    requires |s| > 0 && s[0] == '@' && 2 * |bs| < |s|
    requires forall k :: 0 <= k < |bs| ==> ShowsByte(s, k, bs[k])
    ensures s == HexText(bs) + s[2 * |bs| + 1..]
  {
    if bs != [] {
      var n := |bs| - 1;
      ShowsAllBytes(s, bs[..n]);
      assert ShowsByte(s, n, bs[n]);
      assert s[2 * n + 1..] == Pair(bs[n]) + s[2 * n + 3..];
      Associative(HexText(bs[..n]), Pair(bs[n]), s[2 * n + 3..]);
      Associative("@", HexPairs(bs[..n]), Pair(bs[n]));
    }
  }

  /** libbase/lib/tai.c:24-33 */
  method FormatTextual(s: array<char>, p: array<byte>, len: nat)
    requires len <= p.Length && 2 * len + 1 <= s.Length
    modifies s
    ensures s[..] == HexText(p[..len]) + old(s[2 * len + 1..])
  {
    s[0] := '@';
    var l := len - 1;
    while l >= 0
      invariant -1 <= l < len && s[0] == '@'
      invariant forall k :: l < k < len ==> ShowsByte(s[..], k, p[k])
      invariant s[2 * len + 1..] == old(s[2 * len + 1..])
    {
      s[2 * l + 1] := HexDigit((p[l] / 16) % 16);
      s[2 * l + 2] := HexDigit(p[l] % 16);
      l := l - 1;
    }
    assert s[..][2 * len + 1..] == s[2 * len + 1..];
    ShowsAllBytes(s[..], p[..len]);
  }

  /** The reader's shift and mask of two unsigned chars keep one hex digit of each. */
  lemma ShiftAndMask(hi: int, lo: int)
    requires 0 <= hi < 256 && 0 <= lo < 256
    ensures ((hi * 16) % 256 + lo % 16) % 256 == 16 * (hi % 16) + lo % 16
  {
    var q, r := hi / 16, hi % 16;
    assert hi * 16 == 256 * q + 16 * r;
    assert (hi * 16) % 256 == 16 * r;
  }

  /** libbase/lib/tai.c:35-54 */
  method UnformatTextual(s: array<char>, p: array<byte>, plen: nat) returns (ok: bool)
    requires plen <= p.Length && 2 * plen + 1 <= s.Length
    modifies p
    ensures ok == (s[0] == '@')
    ensures p[..] == if ok then Unhex(s[..], plen) + old(p[plen..]) else old(p[..])
  {
    if s[0] != '@' {
      return false;
    }
    var i := 0;
    while i < plen
      invariant 0 <= i <= plen
      invariant p[..i] == Unhex(s[..], i)
      invariant p[plen..] == old(p[plen..])
    {
      ShiftAndMask(Nibble(s[2 * i + 1]), Nibble(s[2 * i + 2]));
      p[i] := ((Nibble(s[2 * i + 1]) * 16) % 256 + Nibble(s[2 * i + 2]) % 16) % 256;
      assert p[..i + 1] == p[..i] + [p[i]];
      i := i + 1;
    }
    assert p[..] == p[..plen] + p[plen..];
    return true;
  }

  lemma DigitOfHexDigit(n: int)
    requires 0 <= n < 16
    ensures Digit(HexDigit(n)) == n && IsHexDigit(HexDigit(n))
  {
  }

  /** The digit that any byte is read as: from 'a' on, as far as a plain char is positive, its distance from 'a' and
      ten; otherwise its distance from '0'; modulo 16. */
  lemma DigitRead(c: char)
    requires c as int < 256
    ensures Digit(c) == if 97 <= c as int < 128 then (c as int - 97 + 10) % 16 else (c as int - 48) % 16
    ensures IsHexDigit(c) <==> c in "0123456789abcdef"
  {
  }

  lemma HexDigitOfDigit(c: char)
    ensures HexDigit(Digit(c)) == c <==> IsHexDigit(c)
  {
    DigitOfHexDigit(Digit(c));
  }

  lemma HexDigitOrder(m: int, n: int)
    requires 0 <= m < 16 && 0 <= n < 16
    ensures HexDigit(m) < HexDigit(n) <==> m < n
    ensures HexDigit(m) == HexDigit(n) <==> m == n
  {
  }

  /** A slice that is two texts in a row is cut where the first ends. */
  lemma SliceInTwo(text: string, from: nat, s: string, t: string)
    requires from + |s| + |t| <= |text| && text[from..from + |s| + |t|] == s + t
    ensures text[from..from + |s|] == s && text[from + |s|..from + |s| + |t|] == t
  {
    var shown := text[from..from + |s| + |t|];
    assert shown[..|s|] == s && shown[|s|..] == t;
    assert text[from..from + |s|] == shown[..|s|];
    assert text[from + |s|..from + |s| + |t|] == shown[|s|..];
  }

  lemma ReadPairOfPair(text: string, at: nat, b: byte)
    requires at + 2 <= |text| && text[at..at + 2] == Pair(b)
    ensures ReadPair(text[at], text[at + 1]) == b
  {
    assert text[at] == text[at..at + 2][0] && text[at + 1] == text[at..at + 2][1];
    DigitOfHexDigit(b / 16);
    DigitOfHexDigit(b % 16);
  }

  /** The reader undoes the printer, whatever surrounds the printed digits. */
  lemma {:induction false} UnhexOfHexPairs(text: string, bs: seq<byte>)
    requires 2 * |bs| + 1 <= |text| && text[1..2 * |bs| + 1] == HexPairs(bs)
    ensures Unhex(text, |bs|) == bs
  {
    if bs != [] {
      var n := |bs| - 1;
      SliceInTwo(text, 1, HexPairs(bs[..n]), Pair(bs[n]));
      ReadPairOfPair(text, 2 * n + 1, bs[n]);
      UnhexOfHexPairs(text, bs[..n]);
      assert bs == bs[..n] + [bs[n]];
    }
  }

  lemma UnhexOfHexText(bs: seq<byte>, rest: string)
    ensures Unhex(HexText(bs) + rest, |bs|) == bs
  {
    assert (HexText(bs) + rest)[1..2 * |bs| + 1] == HexPairs(bs);
    UnhexOfHexPairs(HexText(bs) + rest, bs);
  }

  lemma TwoDigits(h: int, l: int)
    requires 0 <= h < 16 && 0 <= l < 16
    ensures (16 * h + l) / 16 == h && (16 * h + l) % 16 == l
  {
  }

  lemma PairOfReadPair(hi: char, lo: char)
    ensures Pair(ReadPair(hi, lo)) == [HexDigit(Digit(hi)), HexDigit(Digit(lo))]
  {
    TwoDigits(Digit(hi), Digit(lo));
  }

  lemma NormalDigitsSnoc(s: string, c: char)
    ensures NormalDigits(s + [c]) == NormalDigits(s) + [HexDigit(Digit(c))]
  {
    assert (s + [c])[..|s|] == s;
  }

  lemma NormalDigitsPair(s: string, hi: char, lo: char)
    ensures NormalDigits(s + [hi, lo]) == NormalDigits(s) + [HexDigit(Digit(hi)), HexDigit(Digit(lo))]
  {
    NormalDigitsSnoc(s, hi);
    NormalDigitsSnoc(s + [hi], lo);
    assert s + [hi] + [lo] == s + [hi, lo];
  }

  lemma {:induction false} NormalDigitAt(s: string, i: nat)
    requires i < |s|
    ensures NormalDigits(s)[i] == HexDigit(Digit(s[i]))
  {
    if i < |s| - 1 { NormalDigitAt(s[..|s| - 1], i); }
  }

  /** Character by character, after the first. */
  lemma NormalAt(text: string, i: nat)
    requires 1 <= i < |text|
    ensures Normal(text)[i] == HexDigit(Digit(text[i]))
  {
    NormalDigitAt(text[1..], i - 1);
  }

  lemma SliceGrows(text: string, from: nat, to: nat)
    requires from <= to && to + 2 <= |text|
    ensures text[from..to + 2] == text[from..to] + [text[to], text[to + 1]]
  {
  }

  /** One more byte read and printed. */
  lemma HexPairsOfOneMore(bs: seq<byte>, s: string, hi: char, lo: char)
    requires HexPairs(bs) == NormalDigits(s)
    ensures HexPairs(bs + [ReadPair(hi, lo)]) == NormalDigits(s + [hi, lo])
  {
    HexPairsSnoc(bs, ReadPair(hi, lo));
    PairOfReadPair(hi, lo);
    NormalDigitsPair(s, hi, lo);
  }

  lemma UnhexNext(text: string, n: nat, m: nat)
    requires n > 0 && m == 2 * n - 1 && m + 2 <= |text|
    ensures Unhex(text, n) == Unhex(text, n - 1) + [ReadPair(text[m], text[m + 1])]
  {
  }

  lemma HexPairsOfNext(text: string, n: nat, m: nat)
    requires n > 0 && m == 2 * n - 1 && m + 2 <= |text|
    requires HexPairs(Unhex(text, n - 1)) == NormalDigits(text[1..m])
    ensures HexPairs(Unhex(text, n)) == NormalDigits(text[1..m + 2])
  {
    UnhexNext(text, n, m);
    SliceGrows(text, 1, m);
    HexPairsOfOneMore(Unhex(text, n - 1), text[1..m], text[m], text[m + 1]);
  }

  lemma {:induction false} HexPairsOfUnhex(text: string, n: nat)
    requires 2 * n + 1 <= |text|
    ensures HexPairs(Unhex(text, n)) == NormalDigits(text[1..2 * n + 1])
  {
    if n > 0 {
      HexPairsOfUnhex(text, n - 1);
      HexPairsOfNext(text, n, 2 * n - 1);
    }
  }

  /** Printing what was read replaces every character by the digit it was read as. */
  lemma HexTextOfUnhex(text: string, n: nat)
    requires |text| == 2 * n + 1 && text[0] == '@'
    ensures HexText(Unhex(text, n)) == Normal(text)
  {
    HexPairsOfUnhex(text, n);
    assert text[1..2 * n + 1] == text[1..];
  }

  /** Two texts are read as the same bytes exactly when their normal forms agree. */
  lemma SameBytesIffSameNormal(text: string, text': string, n: nat)
    requires |text| == |text'| == 2 * n + 1 && text[0] == text'[0] == '@'
    ensures Unhex(text, n) == Unhex(text', n) <==> Normal(text) == Normal(text')
  {
    HexTextOfUnhex(text, n);
    HexTextOfUnhex(text', n);
    UnhexOfHexText(Unhex(text, n), "");
    UnhexOfHexText(Unhex(text', n), "");
    assert Normal(text) + "" == Normal(text) && Normal(text') + "" == Normal(text');
  }

  /** Reading and printing again changes nothing more, and changed nothing to begin with iff all was hex. */
  lemma NormalIsFixed(text: string)
    requires text != ""
    ensures Normal(Normal(text)) == Normal(text)
    ensures Normal(text) == text <==> forall i :: 1 <= i < |text| ==> IsHexDigit(text[i])
  {
    forall i | 1 <= i < |text|
      ensures Normal(Normal(text))[i] == Normal(text)[i]
      ensures Normal(text)[i] == text[i] <==> IsHexDigit(text[i])
    {
      NormalAt(text, i);
      NormalAt(Normal(text), i);
      DigitOfHexDigit(Digit(text[i]));
      HexDigitOfDigit(text[i]);
    }
    if Normal(text) == text {
      forall i | 1 <= i < |text| ensures IsHexDigit(text[i]) { assert Normal(text)[i] == text[i]; }
    }
  }

  lemma PairOrder(b: byte, c: byte)
    ensures Less(Pair(b), Pair(c)) <==> b < c
    ensures Pair(b) == Pair(c) <==> b == c
  {
    HexDigitOrder(b / 16, c / 16);
    HexDigitOrder(b % 16, c % 16);
    var s, t := Pair(b), Pair(c);
    assert s[1..] == [s[1]] && t[1..] == [t[1]];
    assert Less(s[1..], t[1..]) <==> s[1] < t[1];
    assert s == t <==> s[0] == t[0] && s[1] == t[1];
  }

  lemma {:induction false} HexPairsAreHex(bs: seq<byte>)
    ensures forall c :: c in HexPairs(bs) ==> IsHexDigit(c)
  {
    if bs != [] {
      var b := bs[|bs| - 1];
      HexPairsAreHex(bs[..|bs| - 1]);
      DigitOfHexDigit(b / 16);
      DigitOfHexDigit(b % 16);
    }
  }

  /** A printed label is '@' and hex digits. */
  lemma HexTextShape(bs: seq<byte>)
    ensures HexText(bs)[0] == '@' && forall i :: 1 <= i < |HexText(bs)| ==> IsHexDigit(HexText(bs)[i])
  {
    HexPairsAreHex(bs);
    forall i | 1 <= i < |HexText(bs)| ensures IsHexDigit(HexText(bs)[i]) {
      assert HexText(bs)[i] == HexPairs(bs)[i - 1];
      assert HexPairs(bs)[i - 1] in HexPairs(bs);
    }
  }

  /** Equally long byte sequences compare as numbers exactly as their hex texts compare as texts. */
  lemma {:induction false} HexOrder(bs: seq<byte>, cs: seq<byte>)
    requires |bs| == |cs|
    ensures Less(HexPairs(bs), HexPairs(cs)) <==> Value(bs) < Value(cs)
    ensures HexPairs(bs) == HexPairs(cs) <==> Value(bs) == Value(cs)
  {
    if bs != [] {
      var n := |bs| - 1;
      var p, q := HexPairs(bs[..n]), HexPairs(cs[..n]);
      HexOrder(bs[..n], cs[..n]);
      PairOrder(bs[n], cs[n]);
      if p == q {
        CommonPrefix(p, Pair(bs[n]), Pair(cs[n]));
        assert HexPairs(bs)[2 * n..] == Pair(bs[n]) && HexPairs(cs)[2 * n..] == Pair(cs[n]);
      } else {
        PrefixDecides(p, q, Pair(bs[n]), Pair(cs[n]));
        assert HexPairs(bs)[..2 * n] == p && HexPairs(cs)[..2 * n] == q;
      }
    }
  }
}
