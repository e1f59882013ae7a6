/** The approximate difference of two labels in whole seconds. */
module LabelDiff {
  import opened Machine
  import opened TaiLabels

  function Step(l: Label, m: Label): int
  {
    if m.nano >= Wrap32(l.nano + 500000) then 1 else 0
  }

  function Diff(l: Label, m: Label): u64
    requires LabelLess(l, m)
  {
    Wrap64(Wrap64(m.sec - l.sec) + Step(l, m))
  }

  /** libbase/lib/tai.c:194-210: the result cell d keeps its old content when t is not less than u. */
  method TainDiff(t: Tain, u: Tain, d: array<u64>) returns (less: bool)
    requires d.Length == 1
    modifies d
    ensures less <==> LabelLess(t.Value(), u.Value())
    ensures d[0] == if less then Diff(t.Value(), u.Value()) else old(d[0])
  {
    less := TainLess(t, u);
    if less {
      d[0] := Wrap64(u.sec.x - t.sec.x);
      if u.nano >= Wrap32(t.nano + 500000) {
        var seconds: int := d[0];
        d[0] := Wrap64(seconds + 1);
      }
    }
  }

  function Gap(l: Label, m: Label): int { Nanos(m) - Nanos(l) }

  /** On valid labels nothing overflows: the seconds' difference, and one more from half a millisecond on. */
  lemma DiffUnfolded(l: Label, m: Label)
    requires Valid(l) && Valid(m) && LabelLess(l, m)
    ensures Diff(l, m) == m.sec - l.sec + (if m.nano - l.nano >= 500000 then 1 else 0)
  {
  }

  /** The error lies strictly between -500000 ns and one second. */
  lemma DiffBounded(l: Label, m: Label)
    requires Valid(l) && Valid(m) && LabelLess(l, m)
    ensures -500000 < Diff(l, m) * GIGA - Gap(l, m) < GIGA
  {
    DiffUnfolded(l, m);
  }

  /** Both bounds are attained to within a nanosecond. */
  lemma DiffBoundsAttained(sec: u64)
    requires sec < TAI_MAX_SEC
    ensures var l, m := Label(sec, 0), Label(sec, 499999);
      Valid(l) && Valid(m) && LabelLess(l, m) && Diff(l, m) * GIGA - Gap(l, m) == -499999
    ensures var l, m := Label(sec, 999999999), Label(sec + 1, 0);
      Valid(l) && Valid(m) && LabelLess(l, m) && Diff(l, m) * GIGA - Gap(l, m) == 999999999
  {
    DiffUnfolded(Label(sec, 0), Label(sec, 499999));
    DiffUnfolded(Label(sec, 999999999), Label(sec + 1, 0));
  }

  /** The result is the nearest whole second exactly when the nanosecond fields are not
      in the band that a threshold of half a second would treat otherwise. */
  lemma NearestSecond(l: Label, m: Label)
    requires Valid(l) && Valid(m) && LabelLess(l, m)
    ensures -500000000 <= Diff(l, m) * GIGA - Gap(l, m) <= 500000000 <==>
            (-500000000 <= m.nano - l.nano < 500000 || m.nano - l.nano >= 500000000)
  {
    DiffUnfolded(l, m);
  }

  /** Equal gaps give results that differ by at most one, */
  lemma EqualGaps(l: Label, m: Label, l': Label, m': Label)
    requires Valid(l) && Valid(m) && LabelLess(l, m)
    requires Valid(l') && Valid(m') && LabelLess(l', m')
    requires Gap(l, m) == Gap(l', m')
    ensures -1 <= Diff(l, m) - Diff(l', m') <= 1
  {
    DiffUnfolded(l, m);
    DiffUnfolded(l', m');
  }

  /** One second more is counted if the gap has that many nanoseconds over, or crosses the end of a second. */
  lemma DiffOfGap(l: Label, m: Label)
    requires Valid(l) && Valid(m) && LabelLess(l, m)
    ensures var q, r := Gap(l, m) / GIGA, Gap(l, m) % GIGA;
      Diff(l, m) == q + if r >= 500000 || m.nano < l.nano then 1 else 0
    ensures m.nano < l.nano ==> Gap(l, m) % GIGA > 0 && Gap(l, m) / GIGA < TAI_MAX_SEC
  {
    DiffUnfolded(l, m);
    var s, n := m.sec - l.sec, m.nano - l.nano;
    assert Gap(l, m) == s * GIGA + n;
    if n < 0 { Divided(Gap(l, m), s - 1, n + GIGA); } else { Divided(Gap(l, m), s, n); }
  }

  lemma Divided(gap: int, q: int, r: int)
    requires gap == q * GIGA + r && 0 <= r < GIGA
    ensures gap / GIGA == q && gap % GIGA == r
  {
  }

  /** and do differ for these two placements of the gap, the second across the end of a second. */
  lemma EqualGapsDiffer(sec: u64, gap: int)
    requires 0 < gap && 0 < gap % GIGA < 500000 && sec + gap / GIGA < TAI_MAX_SEC
    ensures var q, r := gap / GIGA, gap % GIGA;
      var l, m, l', m' := Label(sec, 0), Label(sec + q, r), Label(sec, GIGA - r), Label(sec + q + 1, 0);
      && Valid(l) && Valid(m) && LabelLess(l, m) && Gap(l, m) == gap
      && Valid(l') && Valid(m') && LabelLess(l', m') && Gap(l', m') == gap
      && Diff(l', m') == Diff(l, m) + 1
  {
    var q, r := gap / GIGA, gap % GIGA;
    DiffUnfolded(Label(sec, 0), Label(sec + q, r));
    DiffUnfolded(Label(sec, GIGA - r), Label(sec + q + 1, 0));
  }

  /** Every two labels this far apart have this difference. */
  ghost predicate AllHaveDiff(gap: int, d: int)
  {
    forall l, m :: Valid(l) && Valid(m) && LabelLess(l, m) && Gap(l, m) == gap ==> Diff(l, m) == d
  }

  /** The difference is determined by the gap exactly if the gap is whole seconds, or half a millisecond or more
      over, or too long to cross the end of one more second. */
  lemma DeterminedByGap(gap: int)
    requires gap > 0
    ensures (exists d :: AllHaveDiff(gap, d)) <==>
            gap % GIGA == 0 || gap % GIGA >= 500000 || gap / GIGA >= TAI_MAX_SEC
  {
    if gap % GIGA == 0 || gap % GIGA >= 500000 || gap / GIGA >= TAI_MAX_SEC {
      var d := gap / GIGA + if gap % GIGA >= 500000 then 1 else 0;
      forall l, m | Valid(l) && Valid(m) && LabelLess(l, m) && Gap(l, m) == gap ensures Diff(l, m) == d {
        DiffOfGap(l, m);
      }
      assert AllHaveDiff(gap, d);
    } else if exists d :: AllHaveDiff(gap, d) {
      var d :| AllHaveDiff(gap, d);
      EqualGapsDiffer(0, gap);
    }
  }

  /** Splitting an interval changes the sum by at most one. */
  lemma DiffSplit(l: Label, m: Label, n: Label)
    requires Valid(l) && Valid(m) && Valid(n) && LabelLess(l, m) && LabelLess(m, n)
    ensures LabelLess(l, n)
    ensures -1 <= Diff(l, m) + Diff(m, n) - Diff(l, n) <= 1
  {
    DiffUnfolded(l, m);
    DiffUnfolded(m, n);
    DiffUnfolded(l, n);
  }

  predicate Chain(ls: seq<Label>)
  {
    && (forall i :: 0 <= i < |ls| ==> Valid(ls[i]))
    && (forall i :: 0 < i < |ls| ==> LabelLess(ls[i - 1], ls[i]))
  }

  lemma {:induction false} ChainLess(ls: seq<Label>, i: nat)
    requires Chain(ls) && 0 < i < |ls|
    ensures LabelLess(ls[0], ls[i])
  {
    if i > 1 { ChainLess(ls, i - 1); }
  }

  /** The sum of the differences along a chain. */
  function DiffSum(ls: seq<Label>): int
    requires Chain(ls)
  {
    if |ls| < 2 then 0 else DiffSum(ls[..|ls| - 1]) + Diff(ls[|ls| - 2], ls[|ls| - 1])
  }

  /** Along a chain of n steps the sum stays within n - 1 of the direct difference. */
  lemma {:induction false} DiffChain(ls: seq<Label>)
    requires Chain(ls) && |ls| >= 2
    ensures LabelLess(ls[0], ls[|ls| - 1])
    ensures -(|ls| - 2) <= DiffSum(ls) - Diff(ls[0], ls[|ls| - 1]) <= |ls| - 2
  {
    var n := |ls| - 1;
    ChainLess(ls, n);
    if n > 1 {
      DiffChain(ls[..n]);
      assert ls[..n][0] == ls[0] && ls[..n][n - 1] == ls[n - 1];
      DiffSplit(ls[0], ls[n - 1], ls[n]);
    } else {
      assert DiffSum(ls[..n]) == 0;
    }
  }
}
