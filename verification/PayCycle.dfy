/** The local calendar and the balance curve that follows it. */
module PayCycle {

  // ---- the calendar ----------------------------------------------------------

  /** Months are counted from January of year 1. */
  predicate IsLeap(year: nat) {
    year % 4 == 0 && (year % 100 != 0 || year % 400 == 0)
  }

  function DaysInMonth(month: nat): (days: nat)
    ensures 28 <= days <= 31
  {
    var m := month % 12;
    if m == 1 then (if IsLeap(month / 12 + 1) then 29 else 28)
    else if m == 3 || m == 5 || m == 8 || m == 10 then 30
    else 31
  }

  /** Days before the first of the month. */
  function MonthStart(month: nat): nat {
    if month == 0 then 0 else MonthStart(month - 1) + DaysInMonth(month - 1)
  }

  lemma {:induction false} MonthsFollow(earlier: nat, later: nat)
    requires earlier < later
    ensures MonthStart(earlier) + DaysInMonth(earlier) <= MonthStart(later)
    decreases later - earlier
  {
    if earlier + 1 < later {
      MonthsFollow(earlier, later - 1);
    }
  }

  /** The Gregorian calendar in closed form: the days before the n-th year, and those of its months counted from
      March, where they fall in a regular pattern. */
  lemma CalendarIsGregorian(years: nat, sinceMarch: nat)
    requires sinceMarch < 12
    ensures MonthStart(12 * years) == 365 * years + years / 4 - years / 100 + years / 400
    ensures MonthStart(12 * years + 2 + sinceMarch) == MonthStart(12 * years + 2) + Pattern(sinceMarch)
    ensures MonthStart(12 * years + 2) == MonthStart(12 * years) + if IsLeap(years + 1) then 60 else 59
  {
    YearsAddUp(years);
    MarchPattern(years, sinceMarch);
    MonthAt(years, 0);
    MonthAt(years, 1);
  }

  function Pattern(sinceMarch: nat): nat {
    (153 * sinceMarch + 2) / 5
  }

  lemma {:induction false} YearsAddUp(years: nat)
    ensures MonthStart(12 * years) == 365 * years + years / 4 - years / 100 + years / 400
  {
    if years > 0 {
      hide MonthStart, IsLeap;
      YearsAddUp(years - 1);
      OneYear(years - 1);
      LeapYearsAdd(years - 1);
    } else {
      assert MonthStart(0) == 0;
    }
  }

  lemma LeapYearsAdd(y: nat)
    ensures (y + 1) / 4 - (y + 1) / 100 + (y + 1) / 400 ==
            y / 4 - y / 100 + y / 400 + if IsLeap(y + 1) then 1 else 0
  {
    NextMultiple(y, 4);
    NextMultiple(y, 100);
    NextMultiple(y, 400);
    Divisible(y + 1);
  }

  lemma Divisible(y: nat)
    ensures y % 400 == 0 ==> y % 100 == 0
    ensures y % 100 == 0 ==> y % 4 == 0
  {
    if y % 400 == 0 {
      assert y == 100 * (4 * (y / 400));
    }
    if y % 100 == 0 {
      assert y == 4 * (25 * (y / 100));
    }
  }

  lemma NextMultiple(y: nat, n: nat)
    requires n == 4 || n == 100 || n == 400
    ensures (y + 1) / n == y / n + if (y + 1) % n == 0 then 1 else 0
  {
  }

  lemma OneYear(y: nat)
    ensures MonthStart(12 * (y + 1)) == MonthStart(12 * y) + if IsLeap(y + 1) then 366 else 365
  {
    hide MonthStart, IsLeap;
    MonthAt(y, 0);
    MonthAt(y, 1);
    MarchPattern(y, 9);
    MonthAt(y, 11);
    assert 12 * y + 2 + 9 == 12 * y + 11 && 12 * y + 11 + 1 == 12 * (y + 1);
  }

  lemma MonthAt(y: nat, m: nat)
    requires m < 12
    ensures MonthStart(12 * y + m + 1) == MonthStart(12 * y + m) + LengthOf(m, IsLeap(y + 1))
  {
    hide IsLeap;
    assert (12 * y + m) % 12 == m && (12 * y + m) / 12 == y;
  }

  /** Thirty days has September. */
  function LengthOf(m: nat, leap: bool): nat {
    if m == 1 then (if leap then 29 else 28) else if m == 3 || m == 5 || m == 8 || m == 10 then 30 else 31
  }

  lemma {:induction false} MarchPattern(y: nat, k: nat)
    requires k < 12
    ensures MonthStart(12 * y + 2 + k) == MonthStart(12 * y + 2) + Pattern(k)
  {
    if k > 0 {
      hide MonthStart, IsLeap, Pattern, LengthOf;
      MarchPattern(y, k - 1);
      PatternStep(k);
      SinceMarch(y, k);
    }
  }

  lemma SinceMarch(y: nat, k: nat)
    requires 0 < k < 12
    ensures MonthStart(12 * y + 2 + k) == MonthStart(12 * y + 2 + (k - 1)) + LengthOf((k + 1) % 12, true)
  {
    hide MonthStart, IsLeap;
    if k <= 10 {
      MonthAt(y, k + 1);
      assert 12 * y + (k + 1) + 1 == 12 * y + 2 + k;
    } else {
      MonthAt(y + 1, 0);
      assert 12 * (y + 1) + 0 + 1 == 12 * y + 2 + k;
    }
  }

  lemma PatternStep(k: nat)
    requires 0 < k < 12
    ensures Pattern(k) == Pattern(k - 1) + LengthOf((k + 1) % 12, true)
  {
    assert k == 1 || k == 2 || k == 3 || k == 4 || k == 5 || k == 6 || k == 7 || k == 8 || k == 9 || k == 10 || k == 11;
  }

  /** A local wall-clock reading; `fraction` is how much of the day has passed. */
  datatype Local = Local(month: nat, day: nat, fraction: real) {
    ghost predicate Valid() {
      1 <= day <= DaysInMonth(month) && 0.0 <= fraction < 1.0
    }

    /** Days since the calendar began. */
    function Instant(): real {
      MonthStart(month) as real + day as real - 1.0 + fraction
    }
  }

  function MonthOf(day: nat, month: nat): (m: nat)
    requires MonthStart(month) <= day
    ensures MonthStart(m) <= day < MonthStart(m) + DaysInMonth(m)
    decreases day - MonthStart(month)
  {
    if day < MonthStart(month + 1) then month else MonthOf(day, month + 1)
  }

  /** Reading the wall clock of a fixed-offset zone. */
  function LocalAt(instant: real): (local: Local)
    requires instant >= 0.0
    ensures local.Valid() && local.Instant() == instant
  {
    var whole := instant.Floor;
    var month := MonthOf(whole, 0);
    Local(month, whole - MonthStart(month) + 1, instant - whole as real)
  }

  /** Every instant has one reading only, and later readings are in the same month or a later one. */
  lemma ReadingsAreOrdered(a: Local, b: Local)
    requires a.Valid() && b.Valid() && a.Instant() <= b.Instant()
    ensures a.month <= b.month
    ensures a.Instant() == b.Instant() ==> a == b
  {
    hide DaysInMonth, IsLeap;
    if b.month < a.month {
      MonthsFollow(b.month, a.month);
    } else if a.month < b.month {
      MonthsFollow(a.month, b.month);
    }
  }

  // ---- the next payday -------------------------------------------------------

  function PaydayMidnight(month: nat, payday: nat): real
    requires 1 <= payday <= 28
  {
    Local(month, payday, 0.0).Instant()
  }

  function DaysUntilNextPayday(local: Local, payday: nat): real
    requires local.Valid() && 1 <= payday <= 28
  {
    var target := PaydayMidnight(local.month, payday);
    var rolled := if target <= local.Instant() then target + DaysInMonth(local.month) as real else target;
    rolled - local.Instant()
  }

  /** The distance to the earliest payday midnight strictly after now, in any month of any year. */
  lemma NextPaydayIsEarliest(local: Local, payday: nat) returns (month: nat)
    requires local.Valid() && 1 <= payday <= 28
    ensures 0.0 < DaysUntilNextPayday(local, payday) <= DaysInMonth(local.month) as real
    ensures local.Instant() + DaysUntilNextPayday(local, payday) == PaydayMidnight(month, payday)
    ensures forall m: nat :: PaydayMidnight(m, payday) > local.Instant() ==>
              PaydayMidnight(m, payday) >= PaydayMidnight(month, payday)
  {
    hide DaysInMonth, IsLeap;
    var here := local.month;
    month := if PaydayMidnight(here, payday) <= local.Instant() then here + 1 else here;
    forall m: nat | PaydayMidnight(m, payday) > local.Instant()
      ensures PaydayMidnight(m, payday) >= PaydayMidnight(month, payday)
    {
      if m < month {
        MonthsFollow(m, month);
        if m < here {
          MonthsFollow(m, here);
        }
      } else if month < m {
        MonthsFollow(month, m);
      }
    }
  }

  // ---- the balance curve -----------------------------------------------------

  datatype SalaryCycle = SalaryCycle(trough: real, peak: real, peakOffset: nat) {
    predicate Valid() {
      0.0 <= trough <= peak <= 1.0 && peakOffset <= 28
    }
  }

  function Clamp(x: real): real {
    if x < 0.0 then 0.0 else if x > 1.0 then 1.0 else x
  }

  /** How far through the climb, before clamping. */
  function Progress(cycle: SalaryCycle, local: Local, payday: nat): real
    requires local.Valid() && 1 <= payday <= 28
  {
    var length := DaysInMonth(local.month) as real;
    var climb := length - cycle.peakOffset as real;
    if climb > 0.0 then (length - DaysUntilNextPayday(local, payday)) / climb else 1.0
  }

  function Interpolate(lo: real, hi: real, p: real): real {
    lo + (hi - lo) * p
  }

  function BaseRate(cycle: SalaryCycle, local: Local, payday: nat): real
    requires local.Valid() && 1 <= payday <= 28
  {
    if DaysUntilNextPayday(local, payday) <= cycle.peakOffset as real then cycle.peak
    else Interpolate(cycle.trough, cycle.peak, Clamp(Progress(cycle, local, payday)))
  }

  function InsufficientFundsProbability(cycle: SalaryCycle, pressure: real, local: Local, payday: nat): real
    requires local.Valid() && 1 <= payday <= 28
  {
    Clamp(BaseRate(cycle, local, payday) * pressure)
  }

  /** The curve, by its two anchors: at the peak for the last days before payday, and before them as far above the
      trough, out of the way to the peak, as days of the climb have passed since it began. */
  lemma CurveIs(cycle: SalaryCycle, local: Local, payday: nat)
    requires cycle.Valid() && local.Valid() && 1 <= payday <= 28
    ensures var days, length := DaysUntilNextPayday(local, payday), DaysInMonth(local.month) as real;
            && (days <= cycle.peakOffset as real ==> BaseRate(cycle, local, payday) == cycle.peak)
            && (days > cycle.peakOffset as real ==>
                  Product(BaseRate(cycle, local, payday) - cycle.trough, length - cycle.peakOffset as real) ==
                  Product(cycle.peak - cycle.trough, length - days))
  {
    hide DaysInMonth, IsLeap, DaysUntilNextPayday;
    var days, length := DaysUntilNextPayday(local, payday), DaysInMonth(local.month) as real;
    if days > cycle.peakOffset as real {
      ProgressNeedsNoClamp(cycle, local, payday);
      PartOfTheWay(cycle.trough, cycle.peak, length - days, length - cycle.peakOffset as real);
    }
  }

  /** Named so that a proof can treat it as a number. */
  function Product(x: real, y: real): real {
    x * y
  }

  lemma PartOfTheWay(lo: real, hi: real, a: real, b: real)
    requires b > 0.0
    ensures Product(Interpolate(lo, hi, a / b) - lo, b) == Product(hi - lo, a)
  {
    var q, d := a / b, hi - lo;
    assert q * b == a;
    assert d * q * b == d * (q * b);
  }

  /** So within a month, before the peak and with no payday between, equal times add equally to the rate. */
  lemma CurveIsStraight(cycle: SalaryCycle, a: Local, b: Local, payday: nat)
    requires cycle.Valid() && a.Valid() && b.Valid() && 1 <= payday <= 28
    requires a.month == b.month && a.Instant() <= b.Instant()
    requires !(a.Instant() < PaydayMidnight(a.month, payday) <= b.Instant())
    requires DaysUntilNextPayday(b, payday) > cycle.peakOffset as real
    ensures Product(BaseRate(cycle, b, payday) - BaseRate(cycle, a, payday),
                    DaysInMonth(a.month) as real - cycle.peakOffset as real) ==
            Product(cycle.peak - cycle.trough, b.Instant() - a.Instant())
  {
    CurveIs(cycle, a, payday);
    CurveIs(cycle, b, payday);
    hide DaysInMonth, IsLeap, BaseRate, Local.Instant, Product;
    DaysPass(a, b, payday);
    hide DaysUntilNextPayday;
    var length := DaysInMonth(a.month) as real;
    LineThrough(BaseRate(cycle, a, payday), BaseRate(cycle, b, payday), cycle.trough, cycle.peak - cycle.trough,
                length - cycle.peakOffset as real, length - DaysUntilNextPayday(a, payday),
                length - DaysUntilNextPayday(b, payday));
  }

  lemma DaysPass(a: Local, b: Local, payday: nat)
    requires a.Valid() && b.Valid() && 1 <= payday <= 28 && a.month == b.month && a.Instant() <= b.Instant()
    requires !(a.Instant() < PaydayMidnight(a.month, payday) <= b.Instant())
    ensures DaysUntilNextPayday(a, payday) - DaysUntilNextPayday(b, payday) == b.Instant() - a.Instant()
  {
    hide DaysInMonth, IsLeap, Local.Instant;
  }

  lemma LineThrough(x: real, y: real, lo: real, d: real, c: real, s: real, t: real)
    requires Product(x - lo, c) == Product(d, s) && Product(y - lo, c) == Product(d, t)
    ensures Product(y - x, c) == Product(d, t - s)
  {
    assert (y - x) * c == (y - lo) * c - (x - lo) * c;
    assert d * (t - s) == d * t - d * s;
  }

  /** While climbing, the fraction is already in [0, 1), so the clamp and the zero-climb branch never act. */
  lemma ProgressNeedsNoClamp(cycle: SalaryCycle, local: Local, payday: nat)
    requires cycle.Valid() && local.Valid() && 1 <= payday <= 28
    requires DaysUntilNextPayday(local, payday) > cycle.peakOffset as real
    ensures DaysInMonth(local.month) as real - cycle.peakOffset as real > 0.0
    ensures 0.0 <= Progress(cycle, local, payday) < 1.0
  {
    hide DaysInMonth, IsLeap;
    var _ := NextPaydayIsEarliest(local, payday);
    var length, offset := DaysInMonth(local.month) as real, cycle.peakOffset as real;
    FractionInUnit(length - DaysUntilNextPayday(local, payday), length - offset);
  }

  lemma FractionInUnit(a: real, b: real)
    requires 0.0 <= a < b
    ensures 0.0 <= a / b < 1.0
  {
  }

  lemma RateStaysBetween(cycle: SalaryCycle, local: Local, payday: nat)
    requires cycle.Valid() && local.Valid() && 1 <= payday <= 28
    ensures cycle.trough <= BaseRate(cycle, local, payday) <= cycle.peak
  {
    hide DaysInMonth, IsLeap, Progress, DaysUntilNextPayday, Interpolate;
    var p := Clamp(Progress(cycle, local, payday));
    Between(cycle.trough, cycle.peak, p);
  }

  lemma Between(lo: real, hi: real, p: real)
    requires lo <= hi && 0.0 <= p <= 1.0
    ensures lo <= Interpolate(lo, hi, p) <= hi
  {
    Monotone(hi - lo, 0.0, p);
    Monotone(hi - lo, p, 1.0);
  }

  lemma InterpolateGrows(lo: real, hi: real, p: real, q: real)
    requires lo <= hi && p <= q
    ensures Interpolate(lo, hi, p) <= Interpolate(lo, hi, q)
  {
    var k, d := hi - lo, q - p;
    assert k * d >= 0.0;
    assert k * q == k * p + k * d;
  }

  lemma InterpolateGrowsStrictly(lo: real, hi: real, p: real, q: real)
    requires lo < hi && p < q
    ensures Interpolate(lo, hi, p) < Interpolate(lo, hi, q)
  {
    var k, d := hi - lo, q - p;
    assert k * d > 0.0;
    assert k * q == k * p + k * d;
  }

  /** Climbing in a month of one length, then another: the fraction grows when less remains of a month no shorter. */
  lemma ClimbGrows(cycle: SalaryCycle, a: Local, b: Local, payday: nat)
    requires cycle.Valid() && a.Valid() && b.Valid() && 1 <= payday <= 28
    requires DaysUntilNextPayday(b, payday) <= DaysUntilNextPayday(a, payday)
    requires DaysInMonth(a.month) <= DaysInMonth(b.month)
    ensures BaseRate(cycle, a, payday) <= BaseRate(cycle, b, payday)
  {
    hide DaysInMonth, IsLeap, DaysUntilNextPayday, Interpolate;
    RateStaysBetween(cycle, a, payday);
    var offset := cycle.peakOffset as real;
    var da, db := DaysUntilNextPayday(a, payday), DaysUntilNextPayday(b, payday);
    if db > offset {
      ProgressNeedsNoClamp(cycle, a, payday);
      ProgressNeedsNoClamp(cycle, b, payday);
      var ca, cb := DaysInMonth(a.month) as real - offset, DaysInMonth(b.month) as real - offset;
      RemainderShrinks(da - offset, ca, db - offset, cb);
      assert ca - (da - offset) == DaysInMonth(a.month) as real - da;
      assert cb - (db - offset) == DaysInMonth(b.month) as real - db;
      InterpolateGrows(cycle.trough, cycle.peak, Progress(cycle, a, payday), Progress(cycle, b, payday));
    }
  }

  lemma RemainderShrinks(ra: real, ca: real, rb: real, cb: real)
    requires 0.0 < rb <= ra && 0.0 < ca <= cb
    ensures (ca - ra) / ca <= (cb - rb) / cb
  {
    assert rb * ca <= ra * cb;
    Complement(ra, ca);
    Complement(rb, cb);
    CrossMultiply(rb, cb, ra, ca);
  }

  lemma Complement(r: real, c: real)
    requires c > 0.0
    ensures (c - r) / c == 1.0 - r / c
  {
    var p, q := r / c, (c - r) / c;
    assert p * c == r && q * c == c - r;
    assert (1.0 - p) * c == c - p * c;
    Cancel(q, 1.0 - p, c);
  }

  lemma Cancel(x: real, y: real, c: real)
    requires c > 0.0 && x * c == y * c
    ensures x == y
  {
  }

  lemma Regroup(a: real, b: real, d: real)
    requires b > 0.0
    ensures a / b * (b * d) == a * d
  {
    var q := a / b;
    assert q * b == a;
    assert q * (b * d) == (q * b) * d;
  }

  lemma Positive(b: real, d: real)
    requires b > 0.0 && d > 0.0
    ensures b * d == d * b > 0.0
  {
  }

  lemma CrossMultiply(a: real, b: real, c: real, d: real)
    requires b > 0.0 && d > 0.0 && a * d <= c * b
    ensures a / b <= c / d
  {
    Regroup(a, b, d);
    Regroup(c, d, b);
    Positive(b, d);
    if a / b > c / d {
      StrictlyMonotone(b * d, c / d, a / b);
    }
  }

  lemma Monotone(k: real, x: real, y: real)
    requires k >= 0.0 && x <= y
    ensures k * x <= k * y
  {
  }

  /** Within one calendar month, and with no payday in between, the rate never falls. */
  lemma NeverFallsWithinMonth(cycle: SalaryCycle, a: Local, b: Local, payday: nat)
    requires cycle.Valid() && a.Valid() && b.Valid() && 1 <= payday <= 28
    requires a.month == b.month && a.Instant() <= b.Instant()
    requires !(a.Instant() < PaydayMidnight(a.month, payday) <= b.Instant())
    ensures BaseRate(cycle, a, payday) <= BaseRate(cycle, b, payday)
  {
    hide DaysInMonth, IsLeap;
    ClimbGrows(cycle, a, b, payday);
  }

  /** The curve over one whole pay cycle, from the payday in `month` up to the next. */
  ghost predicate NeverFallsOverCycle(cycle: SalaryCycle, month: nat, payday: nat)
    requires 1 <= payday <= 28
  {
    forall a: Local, b: Local ::
      a.Valid() && b.Valid() &&
          PaydayMidnight(month, payday) <= a.Instant() <= b.Instant() < PaydayMidnight(month + 1, payday) ==>
        BaseRate(cycle, a, payday) <= BaseRate(cycle, b, payday)
  }

  /** Over a whole pay cycle the curve can fall, because it takes the length of the calendar month it is read in
      for the length of the cycle. It never does exactly when the curve is flat, or the month it runs into is no
      shorter, or that month starts already inside the peak. */
  lemma NeverFallsIff(cycle: SalaryCycle, month: nat, payday: nat)
    requires cycle.Valid() && 1 <= payday <= 28
    ensures NeverFallsOverCycle(cycle, month, payday) <==>
              cycle.trough == cycle.peak || DaysInMonth(month) <= DaysInMonth(month + 1) ||
                  payday - 1 <= cycle.peakOffset
  {
    hide DaysInMonth, IsLeap;
    if cycle.trough < cycle.peak && DaysInMonth(month + 1) < DaysInMonth(month) && cycle.peakOffset < payday - 1 {
      FallsAtMonthEnd(cycle, month, payday);
    } else {
      forall a: Local, b: Local |
        a.Valid() && b.Valid() &&
            PaydayMidnight(month, payday) <= a.Instant() <= b.Instant() < PaydayMidnight(month + 1, payday)
        ensures BaseRate(cycle, a, payday) <= BaseRate(cycle, b, payday)
      {
        RisesOverCycle(cycle, month, payday, a, b);
      }
    }
  }

  lemma InsideCycle(month: nat, payday: nat, a: Local)
    requires a.Valid() && 1 <= payday <= 28
    requires PaydayMidnight(month, payday) <= a.Instant() < PaydayMidnight(month + 1, payday)
    ensures a.month == month || a.month == month + 1
    ensures DaysUntilNextPayday(a, payday) == PaydayMidnight(month + 1, payday) - a.Instant()
    ensures a.month == month + 1 ==> DaysUntilNextPayday(a, payday) <= payday as real - 1.0
  {
    hide DaysInMonth, IsLeap;
    if a.month < month {
      MonthsFollow(a.month, month);
    } else if a.month > month + 1 {
      MonthsFollow(month + 1, a.month);
    }
  }

  lemma RisesOverCycle(cycle: SalaryCycle, month: nat, payday: nat, a: Local, b: Local)
    requires cycle.Valid() && 1 <= payday <= 28 && a.Valid() && b.Valid()
    requires PaydayMidnight(month, payday) <= a.Instant() <= b.Instant() < PaydayMidnight(month + 1, payday)
    requires cycle.trough == cycle.peak || DaysInMonth(month) <= DaysInMonth(month + 1) ||
             payday - 1 <= cycle.peakOffset
    ensures BaseRate(cycle, a, payday) <= BaseRate(cycle, b, payday)
  {
    hide DaysInMonth, IsLeap;
    InsideCycle(month, payday, a);
    InsideCycle(month, payday, b);
    ReadingsAreOrdered(a, b);
    RateStaysBetween(cycle, a, payday);
    RateStaysBetween(cycle, b, payday);
    if DaysInMonth(a.month) <= DaysInMonth(b.month) {
      ClimbGrows(cycle, a, b, payday);
    }
  }

  lemma FallsAtMonthEnd(cycle: SalaryCycle, month: nat, payday: nat)
    requires cycle.Valid() && 1 <= payday <= 28
    requires cycle.trough < cycle.peak && DaysInMonth(month + 1) < DaysInMonth(month) && cycle.peakOffset < payday - 1
    ensures !NeverFallsOverCycle(cycle, month, payday)
  {
    hide DaysInMonth, IsLeap;
    var a, b := Local(month, DaysInMonth(month), 31.0 / 32.0), Local(month + 1, 1, 0.0);
    InsideCycle(month, payday, a);
    InsideCycle(month, payday, b);
    FallsBetween(cycle, a, b, payday);
  }

  /** An instant before the first of a shorter month, and the first itself. */
  lemma FallsBetween(cycle: SalaryCycle, a: Local, b: Local, payday: nat)
    requires cycle.Valid() && 1 <= payday <= 28 && a.Valid() && b.Valid()
    requires cycle.trough < cycle.peak && DaysInMonth(b.month) < DaysInMonth(a.month) && cycle.peakOffset < payday - 1
    requires DaysUntilNextPayday(b, payday) == payday as real - 1.0
    requires DaysUntilNextPayday(a, payday) == payday as real - 1.0 + 1.0 / 32.0
    ensures BaseRate(cycle, b, payday) < BaseRate(cycle, a, payday)
  {
    ProgressNeedsNoClamp(cycle, a, payday);
    ProgressNeedsNoClamp(cycle, b, payday);
    hide DaysInMonth, IsLeap, DaysUntilNextPayday;
    var rest := (payday - 1 - cycle.peakOffset) as real;
    var ca, cb := (DaysInMonth(a.month) - cycle.peakOffset) as real, (DaysInMonth(b.month) - cycle.peakOffset) as real;
    StrictlyMore(rest, ca, cb);
    assert Progress(cycle, b, payday) == (cb - rest) / cb;
    assert Progress(cycle, a, payday) == (ca - (rest + 1.0 / 32.0)) / ca;
    InterpolateGrowsStrictly(cycle.trough, cycle.peak, Progress(cycle, b, payday), Progress(cycle, a, payday));
    hide Progress, Interpolate;
  }

  lemma StrictlyMonotone(k: real, x: real, y: real)
    requires k > 0.0 && x < y
    ensures k * x < k * y
  {
  }

  lemma StrictlyMore(rest: real, ca: real, cb: real)
    requires rest >= 1.0 && 0.0 < cb <= 31.0 && ca >= cb + 1.0
    ensures (cb - rest) / cb < (ca - (rest + 1.0 / 32.0)) / ca
  {
    Complement(rest, cb);
    Complement(rest + 1.0 / 32.0, ca);
    assert rest * ca >= rest * cb + rest;
    assert (rest + 1.0 / 32.0) * cb == rest * cb + cb / 32.0;
    StrictCross(rest + 1.0 / 32.0, ca, rest, cb);
  }

  lemma StrictCross(a: real, b: real, c: real, d: real)
    requires b > 0.0 && d > 0.0 && a * d < c * b
    ensures a / b < c / d
  {
    Regroup(a, b, d);
    Regroup(c, d, b);
    Positive(b, d);
    if a / b >= c / d {
      Monotone(b * d, c / d, a / b);
    }
  }

  /** The probability is a probability, and keeps the order of the rate under any positive pressure. */
  lemma ProbabilityFollowsRate(cycle: SalaryCycle, pressure: real, a: Local, b: Local, payday: nat)
    requires a.Valid() && b.Valid() && 1 <= payday <= 28 && pressure > 0.0
    requires BaseRate(cycle, a, payday) <= BaseRate(cycle, b, payday)
    ensures 0.0 <= InsufficientFundsProbability(cycle, pressure, a, payday)
                <= InsufficientFundsProbability(cycle, pressure, b, payday) <= 1.0
  {
    hide BaseRate;
    Monotone(pressure, BaseRate(cycle, a, payday), BaseRate(cycle, b, payday));
  }

  /** The probability is the rate under pressure, as far as that is one. */
  lemma ProbabilityIs(cycle: SalaryCycle, pressure: real, local: Local, payday: nat)
    requires cycle.Valid() && local.Valid() && 1 <= payday <= 28 && pressure > 0.0
    ensures var p, r := InsufficientFundsProbability(cycle, pressure, local, payday), BaseRate(cycle, local, payday);
            && (r * pressure <= 1.0 ==> p == r * pressure)
            && (r * pressure >= 1.0 ==> p == 1.0)
  {
    RateStaysBetween(cycle, local, payday);
    hide BaseRate;
    Monotone(pressure, 0.0, BaseRate(cycle, local, payday));
  }
}
