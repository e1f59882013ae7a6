/** Conversions between labels and APR times (signed 64-bit microseconds since 1970). */
module AprTime {
  import opened Machine
  import opened TaiLabels

  /** libbase/lib/base.h:495 */
  const EPOCH: int := 4611686018427387914
  const APR_MAX_U: int := 999999

  /** The macros apr_time_sec and apr_time_usec. */
  function AprSec(a: i64): i64 { Quot(a, MEGA) }
  function AprUsec(a: i64): i64 { Rem(a, MEGA) }

  function FromApr(a: i64): Label
  {
    Label(Wrap64(EPOCH + AprSec(a)), Wrap32(1000 * AprUsec(a) + 500))
  }

  /** Seconds and microseconds that ngim_tain_to_apr hands to apr_time_make. */
  function AprParts(l: Label): (u64, u32)
  {
    var s, u := Wrap64(l.sec - EPOCH), Wrap32(l.nano + 500) / 1000;
    if u > APR_MAX_U then (Wrap64(s + 1), 0) else (s, u)
  }

  /** The signed product and sum of apr_time_make do not overflow. */
  predicate MakeDefined(s: u64, u: u32)
  {
    -TWO63 <= Signed64(s) * MEGA && Signed64(s) * MEGA + u < TWO63
  }

  predicate ToAprDefined(l: Label) { MakeDefined(AprParts(l).0, AprParts(l).1) }

  function ToApr(l: Label): i64
    requires ToAprDefined(l)
  {
    Signed64(AprParts(l).0) * MEGA + AprParts(l).1
  }

  /** The label's distance from the epoch in microseconds, half a microsecond rounding up. */
  function RoundedMicros(l: Label): int { ((l.sec - EPOCH) * GIGA + l.nano + 500) / 1000 }

  /** The clock values whose labels are acceptable. */
  predicate Acceptable(a: i64) { a >= 0 || a % MEGA == 0 }

  // The operations

  /** libbase/lib/tai.c:143-150 */
  method TainFromApr(t: Tain, a: i64)
    modifies t, t.sec
    ensures t.Value() == FromApr(a)
    ensures Acceptable(a) ==>
      Valid(t.Value()) && t.sec.x * 1000000000 + t.nano == (0x4000_0000_0000_0000 + 10) * 1000000000 + 1000 * a + 500
    ensures !Acceptable(a) ==> t.nano > TAI_MAX_NA && (t.sec.x - EPOCH - 1) * MEGA < a < (t.sec.x - EPOCH) * MEGA
  {
    ClockSeconds(a);
    ClockNanos(a);
    ClockInNanos(a);
    t.sec.x := Wrap64(EPOCH + AprSec(a));
    t.nano := Wrap32(1000 * AprUsec(a) + 500);
  }

  /** libbase/lib/tai.c:152-168 */
  method TainToApr(t: Tain) returns (a: i64)
    requires ToAprDefined(t.Value())
    ensures a == ToApr(t.Value())
    ensures t.nano <= TAI_MAX_NA ==> a == RoundedMicros(t.Value())
  {
    var s: u64 := Wrap64(t.sec.x - EPOCH);
    var u: u32 := Wrap32(t.nano + 500) / 1000;
    if u > APR_MAX_U {
      u := 0;
      s := Wrap64(s + 1);
    }
    ToAprIsRounding(t.Value());
    a := Signed64(s) * MEGA + u;
  }

  /** libbase/lib/tai.c:70-74 */
  method TaiFromApr(t: Tai, a: i64)
    modifies t
    ensures var seconds := t.x - (0x4000_0000_0000_0000 + 10);
      && (a >= 0 ==> seconds * 1000000 <= a < (seconds + 1) * 1000000)
      && (a <= 0 ==> (seconds - 1) * 1000000 < a <= seconds * 1000000)
    ensures t.x == FromApr(a).sec
  {
    ClockSeconds(a);
    QuotRem(a);
    t.x := Wrap64(EPOCH + AprSec(a));
  }

  /** libbase/lib/tai.c:64-68 */
  method TaiToApr(t: Tai) returns (a: i64)
    requires MakeDefined(Wrap64(t.x - EPOCH), 0)
    ensures a == (t.x - (0x4000_0000_0000_0000 + 10)) * 1000000
  {
    UnwrapSeconds(t.x);
    a := Signed64(Wrap64(t.x - EPOCH)) * MEGA;
  }

  function SecondsToApr(x: u64): i64
    requires MakeDefined(Wrap64(x - EPOCH), 0)
  {
    Signed64(Wrap64(x - EPOCH)) * MEGA
  }

  // Properties

  lemma QuotRem(a: int)
    ensures a == MEGA * Quot(a, MEGA) + Rem(a, MEGA)
    ensures a >= 0 ==> 0 <= Rem(a, MEGA) < MEGA
    ensures a <= 0 ==> -MEGA < Rem(a, MEGA) <= 0
    ensures Rem(a, MEGA) == 0 <==> a % MEGA == 0
    ensures -TWO63 <= a < TWO63 ==> -9223372036854 <= Quot(a, MEGA) <= 9223372036854
  {
    if a < 0 && (-a) % MEGA == 0 { assert a == MEGA * (-((-a) / MEGA)); }
    if a < 0 && a % MEGA == 0 { assert -a == MEGA * (-(a / MEGA)); }
  }

  lemma ClockSeconds(a: i64)
    ensures FromApr(a).sec == EPOCH + AprSec(a) <= TAI_MAX_SEC
  {
    QuotRem(a);
  }

  lemma ClockNanos(a: i64)
    ensures Acceptable(a) ==> FromApr(a).nano == 1000 * AprUsec(a) + 500 <= TAI_MAX_NA
    ensures !Acceptable(a) ==> FromApr(a).nano == TWO32 + 1000 * AprUsec(a) + 500 > TAI_MAX_NA
  {
    QuotRem(a);
  }

  /** The label of an acceptable clock value stands half a microsecond after it; that of any other has the
      second after it. */
  lemma ClockInNanos(a: i64)
    ensures Acceptable(a) ==> Nanos(FromApr(a)) == EPOCH * GIGA + 1000 * a + 500
    ensures !Acceptable(a) ==> (AprSec(a) - 1) * MEGA < a < AprSec(a) * MEGA
  {
    ClockSeconds(a);
    ClockNanos(a);
    QuotRem(a);
    var q := AprSec(a);
    assert (EPOCH + q) * GIGA == EPOCH * GIGA + 1000 * (MEGA * q);
  }

  /** The wrapped difference of seconds, read as a signed number, is the true one where C defines the product. */
  lemma UnwrapSeconds(x: u64)
    requires MakeDefined(Wrap64(x - EPOCH), 0)
    ensures SecondsToApr(x) == (x - EPOCH) * MEGA
  {
    var d := x - EPOCH;
    assert Wrap64(d) == if d < 0 then d + TWO64 else d;
  }

  /** In absolute terms: a clock value that is not negative stands ten seconds and half a microsecond after 2^62 seconds
      plus itself, on the scale of labels; */
  lemma ClockOnScale(a: i64)
    requires a >= 0
    ensures FromApr(a).sec * 1000000000 + FromApr(a).nano == (0x4000_0000_0000_0000 + 10) * 1000000000 + 1000 * a + 500
  {
    ClockInNanos(a);
  }

  /** and a valid label is shown as its distance from there, in microseconds, rounded. */
  lemma LabelAsClock(l: Label)
    requires Valid(l) && ToAprDefined(l)
    ensures ToApr(l) == ((l.sec - 0x4000_0000_0000_0000 - 10) * 1000000000 + l.nano + 500) / 1000
  {
    ToAprIsRounding(l);
  }

  /** A clock value gives an acceptable label exactly when it is not negative or is a whole second. */
  lemma AcceptedClockValues(a: i64)
    ensures ParsedTain(TextOfTain(FromApr(a))).Some? <==> Acceptable(a)
    ensures FromApr(a).sec <= TAI_MAX_SEC
  {
    ClockSeconds(a);
    ClockNanos(a);
    ParserUndoesPrinter(FromApr(a), "");
    assert TextOfTain(FromApr(a)) + "" == TextOfTain(FromApr(a));
  }

  /** Where the C arithmetic is defined the seconds have not wrapped. */
  lemma SecondsNotWrapped(l: Label)
    requires ToAprDefined(l)
    ensures Signed64(AprParts(l).0) ==
            l.sec - EPOCH + (if Wrap32(l.nano + 500) / 1000 > APR_MAX_U then 1 else 0)
  {
    var d := l.sec - EPOCH;
    assert Wrap64(d) == if d < 0 then d + TWO64 else d;
  }

  lemma RoundedParts(l: Label)
    ensures RoundedMicros(l) == (l.sec - EPOCH) * MEGA + (l.nano + 500) / 1000
  {
    var k := (l.sec - EPOCH) * MEGA;
    assert (l.sec - EPOCH) * GIGA == 1000 * k;
  }

  /** ngim_tain_to_apr rounds to the nearest microsecond, exactly as far as one carry reaches. */
  lemma ToAprIsRounding(l: Label)
    requires ToAprDefined(l)
    ensures ToApr(l) == RoundedMicros(l) <==> l.nano <= 1000000499
  {
    SecondsNotWrapped(l);
    RoundedParts(l);
    var n := l.nano + 500;
    assert Wrap32(n) == if n < TWO32 then n else n - TWO32;
  }

  /** Where the signed product and sum are defined, in terms of the true seconds. */
  lemma MakeRange(q: int, u: u32)
    requires -TWO63 <= q < TWO63 && u < MEGA
    ensures MakeDefined(Wrap64(q), u) <==> -9223372036854 * MEGA <= q * MEGA + u < TWO63
  {
    assert Wrap64(q) == if q < 0 then q + TWO64 else q;
  }

  lemma ValidParts(l: Label)
    requires Valid(l)
    ensures var r := (l.nano + 500) / 1000;
      0 <= r <= MEGA && AprParts(l) == if r == MEGA then (Wrap64(l.sec - EPOCH + 1), 0) else (Wrap64(l.sec - EPOCH), r)
  {
    var d := l.sec - EPOCH;
    assert Wrap64(d) == if d < 0 then d + TWO64 else d;
    assert Wrap32(l.nano + 500) == l.nano + 500;
  }

  /** For valid labels the C arithmetic is defined exactly on this range of results. */
  lemma ToAprDefinedRange(l: Label)
    requires Valid(l)
    ensures ToAprDefined(l) <==> -9223372036854 * MEGA <= RoundedMicros(l) < TWO63
  {
    var r := (l.nano + 500) / 1000;
    RoundedParts(l);
    ValidParts(l);
    if r == MEGA { MakeRange(l.sec - EPOCH + 1, 0); } else { MakeRange(l.sec - EPOCH, r); }
  }

  /** One trip of a clock value through a printed label: the result, if there is one. */
  function Trip(a: i64): Option<i64>
  {
    match ParsedTain(TextOfTain(FromApr(a)))
    case Some(l) => if ToAprDefined(l) then Some(ToApr(l)) else None
    case None => None
  }

  /** A trip adds exactly one microsecond, for every clock value with an acceptable label. */
  lemma TripAddsOne(a: i64)
    ensures Trip(a) == if Acceptable(a) && a + 1 < TWO63 then Some(a + 1) else None
  {
    AcceptedClockValues(a);
    var l := FromApr(a);
    if Acceptable(a) {
      ParserUndoesPrinter(l, "");
      assert TextOfTain(l) + "" == TextOfTain(l);
      RoundedClock(a);
      ToAprDefinedRange(l);
      if a + 1 < TWO63 {
        assert -9223372036854 * MEGA <= a + 1 by { QuotRem(a); }
        ToAprIsRounding(l);
      }
    }
  }

  lemma RoundedClock(a: i64)
    requires Acceptable(a)
    ensures Valid(FromApr(a)) && RoundedMicros(FromApr(a)) == a + 1
  {
    ClockSeconds(a);
    ClockNanos(a);
    QuotRem(a);
    RoundedParts(FromApr(a));
    assert (1000 * AprUsec(a) + 1000) / 1000 == AprUsec(a) + 1;
  }

  /** n applications of a step that may fail. */
  function Repeat(step: i64 -> Option<i64>, a: i64, n: nat): Option<i64>
    decreases n
  {
    if n == 0 then Some(a)
    else match step(a)
      case Some(b) => Repeat(step, b, n - 1)
      case None => None
  }

  ghost predicate AddsOne(step: i64 -> Option<i64>)
  {
    forall x: i64 :: step(x) == if Acceptable(x) && x + 1 < TWO63 then Some(x + 1) else None
  }

  lemma {:induction false} RepeatAddsOne(step: i64 -> Option<i64>, a: i64, n: nat)
    requires AddsOne(step) && 0 <= a
    ensures Repeat(step, a, n) == if a + n < TWO63 then Some(a + n) else None
    decreases n
  {
    if n > 0 && a + 1 < TWO63 { RepeatAddsOne(step, a + 1, n - 1); }
  }

  lemma RepeatBefore(step: i64 -> Option<i64>, a: i64, n: nat)
    requires AddsOne(step) && a < 0 < n
    ensures Repeat(step, a, n) == if n == 1 && a % MEGA == 0 then Some(a + 1) else None
  {
    if a % MEGA == 0 {
      assert !Acceptable(a + 1);
      assert Repeat(step, a, n) == Repeat(step, a + 1, n - 1);
    }
  }

  /** What n trips give: exactly n microseconds more, across any number of second boundaries, as long as there is
      such a clock value; but a whole second before 1970 survives one trip only, and any other time none. */
  lemma TripsDrift(a: i64, n: nat)
    ensures Repeat(Trip, a, n) ==
            if a + n < TWO63 && (a >= 0 || n == 0 || (n == 1 && a % MEGA == 0)) then Some(a + n) else None
  {
    forall x: i64 ensures Trip(x) == if Acceptable(x) && x + 1 < TWO63 then Some(x + 1) else None { TripAddsOne(x); }
    assert AddsOne(Trip);
    if a >= 0 {
      RepeatAddsOne(Trip, a, n);
    } else if n > 0 {
      RepeatBefore(Trip, a, n);
    }
  }

  /** Labels made from clock values keep their order, except where an unacceptable value shares its
      truncated second with an acceptable one. */
  lemma FromAprOrder(a: i64, b: i64)
    requires a < b
    ensures LabelLess(FromApr(a), FromApr(b)) <==>
            !(AprSec(a) == AprSec(b) && !Acceptable(a) && Acceptable(b))
  {
    ClockSeconds(a); ClockSeconds(b);
    ClockNanos(a); ClockNanos(b);
    QuotRem(a); QuotRem(b);
    assert AprSec(a) <= AprSec(b);
  }

  lemma FromAprStrictOrder(a: i64, b: i64)
    requires Acceptable(a) && Acceptable(b)
    ensures LabelLess(FromApr(a), FromApr(b)) <==> a < b
    ensures FromApr(a) == FromApr(b) <==> a == b
  {
    if a < b { FromAprOrder(a, b); } else if b < a { FromAprOrder(b, a); }
  }

  /** Going back to microseconds never reverses the order of valid labels. */
  lemma ToAprMonotone(l: Label, m: Label)
    requires Valid(l) && Valid(m) && ToAprDefined(l) && ToAprDefined(m)
    requires !LabelLess(m, l)
    ensures ToApr(l) <= ToApr(m)
  {
    ToAprIsRounding(l);
    ToAprIsRounding(m);
    LessIsTimeOrder(m, l);
  }

  /** It merges labels, but never two that were made from different clock values. */
  lemma ToAprInjectiveOnClockLabels(a: i64, b: i64)
    requires Acceptable(a) && Acceptable(b) && ToAprDefined(FromApr(a)) && ToAprDefined(FromApr(b))
    ensures ToApr(FromApr(a)) == ToApr(FromApr(b)) <==> a == b
  {
    RoundedClock(a); RoundedClock(b);
    ToAprIsRounding(FromApr(a));
    ToAprIsRounding(FromApr(b));
  }

  /** Exactly those labels are merged that round to one microsecond; */
  lemma ToAprMergesExactly(l: Label, m: Label)
    requires Valid(l) && Valid(m) && ToAprDefined(l) && ToAprDefined(m)
    ensures ToApr(l) == ToApr(m) <==> (Nanos(l) + 500) / 1000 == (Nanos(m) + 500) / 1000
  {
    ToAprIsRounding(l);
    ToAprIsRounding(m);
    MicrosOfNanos(l);
    MicrosOfNanos(m);
  }

  lemma MicrosOfNanos(l: Label)
    ensures (Nanos(l) + 500) / 1000 == RoundedMicros(l) + EPOCH * MEGA
  {
    var k := l.sec * MEGA;
    RoundedParts(l);
    assert Nanos(l) + 500 == 1000 * k + (l.nano + 500);
  }

  /** for one, those of the epoch and of the nanosecond after it. */
  lemma ToAprMergesLabels()
    ensures exists l, m ::
      Valid(l) && Valid(m) && l != m && ToAprDefined(l) && ToAprDefined(m) && ToApr(l) == ToApr(m)
  {
    var l, m := Label(EPOCH, 0), Label(EPOCH, 1);
    assert Valid(l) && Valid(m) && l != m && ToAprDefined(l) && ToAprDefined(m);
    ToAprMergesExactly(l, m);
  }

  /** The second-precision path truncates toward zero, is always defined, and repeats without change. */
  lemma SecondsPath(a: i64)
    ensures var r := SecondTrip(a);
      && r == a - AprUsec(a) && r % MEGA == 0
      && (a >= 0 ==> 0 <= r <= a < r + MEGA) && (a <= 0 ==> r - MEGA < a <= r <= 0)
      && SecondTrip(r) == r
  {
    QuotRem(a);
    SecondsKept(a);
    WholeSeconds(AprSec(a));
    SecondsKept(SecondTrip(a));
  }

  lemma WholeSeconds(q: int)
    ensures (q * MEGA) % MEGA == 0 && Quot(q * MEGA, MEGA) == q
  {
    if q < 0 { assert q * MEGA == -((-q) * MEGA); }
  }

  lemma SecondsKept(a: i64)
    ensures MakeDefined(Wrap64(FromApr(a).sec - EPOCH), 0)
    ensures SecondsToApr(FromApr(a).sec) == AprSec(a) * MEGA
  {
    ClockSeconds(a);
    QuotRem(a);
    var q := AprSec(a);
    assert Wrap64(q) == if q < 0 then q + TWO64 else q;
  }

  /** One trip of a clock value through a label of whole seconds. */
  function SecondTrip(a: i64): i64
  {
    SecondsKept(a);
    SecondsToApr(FromApr(a).sec)
  }
}
