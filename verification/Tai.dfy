/** TAI64 and TAI64N labels: binary and textual external formats, and the order of labels. */
module TaiLabels {
  import opened Machine
  import opened TextOrder
  import opened Bytes
  import opened Hex

  const TAI_MAX_SEC: int := 9223372036854775807
  const TAI_MAX_NA: int := 999999999
  const TAI_PACK: nat := 8
  const TAIN_PACK: nat := 12
  const TAI_FORMAT: nat := 17
  const TAIN_FORMAT: nat := 25
  const GIGA: int := 1000000000

  /** The value of a TAI64N label. */
  datatype Label = Label(sec: u64, nano: u32)

  datatype Option<+T> = None | Some(value: T)

  predicate Valid(l: Label) { l.sec <= TAI_MAX_SEC && l.nano <= TAI_MAX_NA }

  /** ngim_tai_t */
  class Tai {
    var x: u64
    constructor (x: u64) ensures this.x == x { this.x := x; }
  }

  /** ngim_tain_t: the seconds are a label of their own, at a fixed place inside. */
  class Tain {
    const sec: Tai
    var nano: u32

    constructor (l: Label)
      ensures fresh(sec) && Value() == l
    {
      sec := new Tai(l.sec);
      nano := l.nano;
    }

    function Value(): Label
      reads this, sec
    {
      Label(sec.x, nano)
    }
  }

  function PackedTain(l: Label): (bs: seq<byte>)
    ensures |bs| == TAIN_PACK
  {
    BytesOf(l.sec, 8) + BytesOf(l.nano, 4)
  }

  function TextOfTai(x: u64): (s: string)
    ensures |s| == TAI_FORMAT
  {
    HexText(BytesOf(x, 8))
  }

  function TextOfTain(l: Label): (s: string)
    ensures |s| == TAIN_FORMAT
  {
    HexText(PackedTain(l))
  }

  lemma ValueFits(bs: seq<byte>)
    ensures |bs| == 8 ==> Value(bs) < TWO64
    ensures |bs| == 4 ==> Value(bs) < TWO32
  {
    ValueInRange(bs);
    WordSizes();
  }

  function LabelOf(bs: seq<byte>): Label
    requires |bs| == TAIN_PACK
  {
    ValueFits(bs[..8]);
    ValueFits(bs[8..]);
    Label(Value(bs[..8]), Value(bs[8..]))
  }

  /** What a text of at least 17 characters means as a TAI64 label. */
  function ParsedTai(text: string): Option<u64>
    requires |text| >= TAI_FORMAT
  {
    var bs := Unhex(text, TAI_PACK);
    if text[0] == '@' && Value(bs) <= TAI_MAX_SEC then Some(Value(bs)) else None
  }

  /** What a text of at least 25 characters means as a TAI64N label. */
  function ParsedTain(text: string): Option<Label>
    requires |text| >= TAIN_FORMAT
  {
    var l := LabelOf(Unhex(text, TAIN_PACK));
    if text[0] == '@' && Valid(l) then Some(l) else None
  }

  // The operations

  /** libbase/lib/tai.c:88-103, writing from position at */
  method TaiPack(s: array<byte>, at: nat, t: Tai)
    requires at + TAI_PACK <= s.Length
    modifies s
    ensures s[..] == old(s[..at]) + BytesOf(t.x, 8) + old(s[at + 8..])
  {
    var x := t.x;
    s[at + 7] := x % 256; x := x / 256;
    s[at + 6] := x % 256; x := x / 256;
    s[at + 5] := x % 256; x := x / 256;
    s[at + 4] := x % 256; x := x / 256;
    s[at + 3] := x % 256; x := x / 256;
    s[at + 2] := x % 256; x := x / 256;
    s[at + 1] := x % 256; x := x / 256;
    s[at] := x % 256;
    ShiftChain8(t.x, s[at..at + 8]);
    assert s[..] == s[..at] + s[at..at + 8] + s[at + 8..];
  }

  /** The eight bytes that shifting right leaves, last one first. */
  lemma ShiftChain8(v: u64, bs: seq<byte>)
    requires |bs| == 8
    requires bs[7] == v % 256
    requires bs[6] == v / 256 % 256
    requires bs[5] == v / 256 / 256 % 256
    requires bs[4] == v / 256 / 256 / 256 % 256
    requires bs[3] == v / 256 / 256 / 256 / 256 % 256
    requires bs[2] == v / 256 / 256 / 256 / 256 / 256 % 256
    requires bs[1] == v / 256 / 256 / 256 / 256 / 256 / 256 % 256
    requires bs[0] == v / 256 / 256 / 256 / 256 / 256 / 256 / 256 % 256
    ensures bs == BytesOf(v, 8)
  {
    var v4 := v / 256 / 256 / 256 / 256;
    ShiftChain4(v4, bs[..4]);
    UnfoldFour(v, 4);
    assert bs == bs[..4] + [bs[4], bs[5], bs[6], bs[7]];
  }

  lemma UnfoldFour(v: nat, n: nat)
    ensures BytesOf(v, n + 4) == BytesOf(v / 256 / 256 / 256 / 256, n)
                               + [v / 256 / 256 / 256 % 256, v / 256 / 256 % 256, v / 256 % 256, v % 256]
  {
    assert BytesOf(v, n + 4) == BytesOf(v / 256, n + 3) + [v % 256];
    assert BytesOf(v / 256, n + 3) == BytesOf(v / 256 / 256, n + 2) + [v / 256 % 256];
    assert BytesOf(v / 256 / 256, n + 2) == BytesOf(v / 256 / 256 / 256, n + 1) + [v / 256 / 256 % 256];
  }

  lemma ShiftChain4(v: nat, bs: seq<byte>)
    requires |bs| == 4
    requires bs[3] == v % 256
    requires bs[2] == v / 256 % 256
    requires bs[1] == v / 256 / 256 % 256
    requires bs[0] == v / 256 / 256 / 256 % 256
    ensures bs == BytesOf(v, 4)
  {
    UnfoldFour(v, 0);
  }

  /** The two statements that shift in a byte, and what they compute as the n-th time. */
  method ShiftInByte64(x: u64, b: byte, ghost bs: seq<byte>, ghost n: nat) returns (y: u64)
    requires 1 <= n < |bs| == 8 && x == Value(bs[..n]) && b == bs[n]
    ensures y == Value(bs[..n + 1])
  {
    ShiftIn64(bs, n);
    y := Wrap64(x * 256);
    y := Wrap64(y + b);
  }

  method ShiftInByte32(x: u32, b: byte, ghost bs: seq<byte>, ghost n: nat) returns (y: u32)
    requires 1 <= n < |bs| == 4 && x == Value(bs[..n]) && b == bs[n]
    ensures y == Value(bs[..n + 1])
  {
    ShiftIn32(bs, n);
    y := Wrap32(x * 256);
    y := Wrap32(y + b);
  }

  /** libbase/lib/tai.c:105-122, reading from position at */
  method TaiUnpack(s: array<byte>, at: nat, t: Tai) returns (ok: bool)
    requires at + TAI_PACK <= s.Length
    modifies t
    ensures t.x == Value(s[at..at + 8])
    ensures ok <==> Value(s[at..at + 8]) <= TAI_MAX_SEC
  {
    ghost var bs := s[at..at + 8];
    HornerStep(bs, 0);
    var x: u64 := s[at];
    x := ShiftInByte64(x, s[at + 1], bs, 1);
    x := ShiftInByte64(x, s[at + 2], bs, 2);
    x := ShiftInByte64(x, s[at + 3], bs, 3);
    x := ShiftInByte64(x, s[at + 4], bs, 4);
    x := ShiftInByte64(x, s[at + 5], bs, 5);
    x := ShiftInByte64(x, s[at + 6], bs, 6);
    x := ShiftInByte64(x, s[at + 7], bs, 7);
    assert bs[..8] == bs;
    t.x := x;
    return x <= TAI_MAX_SEC;
  }

  lemma HornerStep(bs: seq<byte>, n: nat)
    requires n < |bs|
    ensures Value(bs[..n + 1]) == 256 * Value(bs[..n]) + bs[n]
  {
    assert bs[..n + 1][..n] == bs[..n];
  }

  /** Shifting one more byte in loses nothing as long as the word has room for it. */
  lemma ShiftIn64(bs: seq<byte>, n: nat)
    requires 1 <= n < |bs| == 8
    ensures Value(bs[..n]) < TWO64
    ensures Wrap64(Wrap64(Value(bs[..n]) * 256) + bs[n]) == Value(bs[..n + 1])
  {
    HornerStep(bs, n);
    ValueInRange(bs[..n + 1]);
    WordSizes();
    PowMonotone(n + 1, 8);
  }

  lemma ShiftIn32(bs: seq<byte>, n: nat)
    requires 1 <= n < |bs| == 4
    ensures Value(bs[..n]) < TWO32
    ensures Wrap32(Wrap32(Value(bs[..n]) * 256) + bs[n]) == Value(bs[..n + 1])
  {
    HornerStep(bs, n);
    ValueInRange(bs[..n + 1]);
    WordSizes();
    PowMonotone(n + 1, 4);
  }

  /** libbase/lib/tai.c:124-132 */
  method TaiFormat(s: array<char>, t: Tai)
    requires s.Length >= TAI_FORMAT
    modifies s
    ensures s[..] == TextOfTai(t.x) + old(s[TAI_FORMAT..])
  {
    var p := new byte[TAI_PACK];
    TaiPack(p, 0, t);
    assert p[..TAI_PACK] == BytesOf(t.x, 8);
    FormatTextual(s, p, TAI_PACK);
  }

  /** libbase/lib/tai.c:134-141 */
  method TaiUnformat(s: array<char>, t: Tai) returns (ok: bool)
    requires s.Length >= TAI_FORMAT
    modifies t
    ensures t.x == if s[0] == '@' then Value(Unhex(s[..], TAI_PACK)) else old(t.x)
    ensures ok <==> ParsedTai(s[..]).Some?
    ensures ok ==> ParsedTai(s[..]) == Some(t.x)
  {
    var p := new byte[TAI_PACK];
    ok := UnformatTextual(s, p, TAI_PACK);
    if ok {
      assert p[0..8] == Unhex(s[..], TAI_PACK);
      ok := TaiUnpack(p, 0, t);
    }
  }

  /** libbase/lib/tai.c:212-226 */
  method TainPack(s: array<byte>, t: Tain)
    requires s.Length >= TAIN_PACK
    modifies s
    ensures s[..] == PackedTain(t.Value()) + old(s[TAIN_PACK..])
  {
    TaiPack(s, 0, t.sec);
    ghost var head := s[..8];
    assert head == BytesOf(t.sec.x, 8);
    var x := t.nano;
    s[8 + 3] := x % 256; x := x / 256;
    s[8 + 2] := x % 256; x := x / 256;
    s[8 + 1] := x % 256; x := x / 256;
    s[8] := x % 256;
    ShiftChain4(t.nano, s[8..12]);
    assert s[..8] == head;
    assert s[..] == s[..8] + s[8..12] + s[12..];
  }

  /** libbase/lib/tai.c:228-246: nanoseconds are left alone when the seconds are not acceptable */
  method TainUnpack(s: array<byte>, t: Tain) returns (ok: bool)
    requires s.Length >= TAIN_PACK
    modifies t, t.sec
    ensures t.sec.x == LabelOf(s[..12]).sec
    ensures t.nano == if t.sec.x <= TAI_MAX_SEC then LabelOf(s[..12]).nano else old(t.nano)
    ensures ok <==> Valid(LabelOf(s[..12]))
  {
    assert s[..12][..8] == s[0..8] && s[..12][8..] == s[8..12];
    ok := TaiUnpack(s, 0, t.sec);
    if ok {
      ghost var bs := s[8..12];
      HornerStep(bs, 0);
      var x: u32 := s[8];
      x := ShiftInByte32(x, s[8 + 1], bs, 1);
      x := ShiftInByte32(x, s[8 + 2], bs, 2);
      x := ShiftInByte32(x, s[8 + 3], bs, 3);
      assert bs[..4] == bs;
      t.nano := x;
      return x <= TAI_MAX_NA;
    }
    return false;
  }

  /** libbase/lib/tai.c:248-256 */
  method TainFormat(s: array<char>, t: Tain)
    requires s.Length >= TAIN_FORMAT
    modifies s
    ensures s[..] == TextOfTain(t.Value()) + old(s[TAIN_FORMAT..])
  {
    var p := new byte[TAIN_PACK];
    TainPack(p, t);
    assert p[..TAIN_PACK] == PackedTain(t.Value());
    FormatTextual(s, p, TAIN_PACK);
  }

  /** libbase/lib/tai.c:258-265 */
  method TainUnformat(s: array<char>, t: Tain) returns (ok: bool)
    requires s.Length >= TAIN_FORMAT
    modifies t, t.sec
    ensures ok <==> ParsedTain(s[..]).Some?
    ensures ok ==> ParsedTain(s[..]) == Some(t.Value())
    ensures s[0] != '@' ==> t.Value() == old(t.Value())
    ensures s[0] == '@' ==> var l := LabelOf(Unhex(s[..], TAIN_PACK));
      t.Value() == Label(l.sec, if l.sec <= TAI_MAX_SEC then l.nano else old(t.nano))
  {
    var p := new byte[TAIN_PACK];
    ok := UnformatTextual(s, p, TAIN_PACK);
    if ok {
      assert p[..12] == Unhex(s[..], TAIN_PACK);
      ok := TainUnpack(p, t);
    }
  }

  /** libbase/lib/tai.c:181-192 */
  method TainLess(t: Tain, u: Tain) returns (less: bool)
    ensures less <==> LabelLess(t.Value(), u.Value())
  {
    if t.sec.x < u.sec.x {
      return true;
    }
    if t.sec.x > u.sec.x {
      return false;
    }
    return t.nano < u.nano;
  }

  predicate LabelLess(l: Label, m: Label)
  {
    l.sec < m.sec || (l.sec == m.sec && l.nano < m.nano)
  }

  /** Nanoseconds since the start of the TAI64 scale. */
  function Nanos(l: Label): nat { l.sec * GIGA + l.nano }

  // Properties

  /** On valid labels the order is that of time. */
  lemma LessIsTimeOrder(l: Label, m: Label)
    requires Valid(l) && Valid(m)
    ensures LabelLess(l, m) <==> Nanos(l) < Nanos(m)
    ensures l == m <==> Nanos(l) == Nanos(m)
  {
  }

  lemma LabelOfPacked(l: Label)
    ensures LabelOf(PackedTain(l)) == l
  {
    WordSizes();
    ValueOfBytes(l.sec, 8);
    ValueOfBytes(l.nano, 4);
    assert PackedTain(l)[..8] == BytesOf(l.sec, 8) && PackedTain(l)[8..] == BytesOf(l.nano, 4);
  }

  /** Parsing a printed label gives it back, and succeeds exactly on the valid ones. */
  lemma ParserUndoesPrinter(l: Label, rest: string)
    ensures ParsedTain(TextOfTain(l) + rest) ==
            if l.sec <= 0x7fff_ffff_ffff_ffff && l.nano <= 999999999 then Some(l) else None
  {
    UnhexOfHexText(PackedTain(l), rest);
    LabelOfPacked(l);
  }

  lemma ParserUndoesPrinterTai(x: u64, rest: string)
    ensures ParsedTai(TextOfTai(x) + rest) == if x <= 0x7fff_ffff_ffff_ffff then Some(x) else None
  {
    UnhexOfHexText(BytesOf(x, 8), rest);
    WordSizes();
    ValueOfBytes(x, 8);
  }

  /** Printing a parsed text gives the text in normal form. */
  lemma PrinterUndoesParser(text: string)
    requires |text| == TAIN_FORMAT && ParsedTain(text).Some?
    ensures TextOfTain(ParsedTain(text).value) == Normal(text)
  {
    var bs := Unhex(text, TAIN_PACK);
    BytesOfValue(bs[..8]);
    BytesOfValue(bs[8..]);
    assert bs == bs[..8] + bs[8..];
    HexTextOfUnhex(text, TAIN_PACK);
  }

  /** Texts of two adjacent numbers compare number by number. */
  lemma HalvesOrder(a: seq<byte>, c: seq<byte>, b: seq<byte>, d: seq<byte>)
    requires |a| == |b| && |c| == |d|
    ensures Less(HexText(a + c), HexText(b + d)) <==>
            Value(a) < Value(b) || (Value(a) == Value(b) && Value(c) < Value(d))
    ensures HexText(a + c) == HexText(b + d) <==> Value(a) == Value(b) && Value(c) == Value(d)
  {
    HexOrder(a, b);
    HexOrder(c, d);
    HexPairsConcat(a, c);
    HexPairsConcat(b, d);
    var p, q, s, t := HexPairs(a), HexPairs(b), HexPairs(c), HexPairs(d);
    HeadFirst("@", "@", p + s, q + t);
    HeadFirst(p, q, s, t);
    Irreflexive("@");
  }

  /** Printed labels compare as texts exactly as the labels compare: for every label, valid or not. */
  lemma TextOrderIsLabelOrder(l: Label, m: Label)
    ensures Less(TextOfTain(l), TextOfTain(m)) <==> LabelLess(l, m)
    ensures TextOfTain(l) == TextOfTain(m) <==> l == m
  {
    WordSizes();
    ValueOfBytes(l.sec, 8); ValueOfBytes(m.sec, 8);
    ValueOfBytes(l.nano, 4); ValueOfBytes(m.nano, 4);
    HalvesOrder(BytesOf(l.sec, 8), BytesOf(l.nano, 4), BytesOf(m.sec, 8), BytesOf(m.nano, 4));
  }

  /** Hence text order is time order on valid labels. */
  lemma TextOrderIsTimeOrder(l: Label, m: Label)
    requires Valid(l) && Valid(m)
    ensures Less(TextOfTain(l), TextOfTain(m)) <==> Nanos(l) < Nanos(m)
    ensures TextOfTain(l) == TextOfTain(m) <==> Nanos(l) == Nanos(m)
  {
    TextOrderIsLabelOrder(l, m);
    LessIsTimeOrder(l, m);
  }
}
