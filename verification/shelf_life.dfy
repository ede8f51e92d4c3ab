/** The minimum shelf-life rule, decided in whole numbers, against the rational rule it stands for. */
module ShelfLife {
  import opened Common
  import opened Text
  import opened Calendar

  /** Unsigned decimal text: digits, optionally a point and more digits. */
  datatype Decimal = Decimal(negative: bool, whole: string, fraction: string)

  predicate WellFormed(d: Decimal) {
    IsDigits(d.whole) && IsDigits(d.fraction)
  }

  function Unparse(d: Decimal): string {
    (if d.negative then "-" else "") + d.whole + (if d.fraction == "" then "" else "." + d.fraction)
  }

  /** The part before the first point, and the part between it and the next one. */
  function BeforePoint(s: string): string {
    if s == [] || s[0] == '.' then [] else [s[0]] + BeforePoint(s[1..])
  }

  function AfterPoint(s: string): string {
    if s == [] then []
    else if s[0] == '.' then BeforePoint(s[1..])
    else AfterPoint(s[1..])
  }

  function TwoDigits(fraction: string): string {
    (fraction + "00")[..2]
  }

  function Unsigned(s: string): string {
    if s != [] && s[0] == '-' then s[1..] else s
  }

  /** A percentage as a whole number of hundredths, with no detour through floating point. */
  function ParseCentiPercent(s: string): int
    requires IsDigits(BeforePoint(Unsigned(s))) && IsDigits(AfterPoint(Unsigned(s)))
  {
    var magnitude := 100 * DigitsValue(BeforePoint(Unsigned(s))) + DigitsValue(TwoDigits(AfterPoint(Unsigned(s))));
    if s != [] && s[0] == '-' then -magnitude else magnitude
  }

  lemma {:induction false} SplitAtPoint(whole: string, fraction: string)
    requires IsDigits(whole) && IsDigits(fraction)
    ensures BeforePoint(whole) == whole && AfterPoint(whole) == ""
    ensures BeforePoint(whole + "." + fraction) == whole
    ensures AfterPoint(whole + "." + fraction) == BeforePoint(fraction)
  {
    if whole == "" {
      assert whole + "." + fraction == "." + fraction;
    } else {
      SplitAtPoint(whole[1..], fraction);
      assert (whole + "." + fraction)[1..] == whole[1..] + "." + fraction;
    }
  }

  lemma UnparseSplits(d: Decimal)
    requires WellFormed(d)
    ensures BeforePoint(Unsigned(Unparse(d))) == d.whole
    ensures AfterPoint(Unsigned(Unparse(d))) == d.fraction
    ensures (Unparse(d) != [] && Unparse(d)[0] == '-') == d.negative
  {
    var body := d.whole + (if d.fraction == "" then "" else "." + d.fraction);
    assert Unparse(d) == (if d.negative then "-" else "") + body;
    SplitAtPoint(d.whole, d.fraction);
    SplitAtPoint(d.fraction, "");
    if d.fraction == "" {
      assert body == d.whole;
    } else {
      assert body == d.whole + "." + d.fraction;
    }
    assert Unsigned(Unparse(d)) == body;
  }

  function Power10Real(n: nat): real {
    if n == 0 then 1.0 else 10.0 * Power10Real(n - 1)
  }

  /** The number the text denotes. */
  function Value(d: Decimal): real
    requires WellFormed(d)
  {
    var magnitude := DigitsValue(d.whole) as real + Fraction(d.fraction);
    if d.negative then -magnitude else magnitude
  }

  /** 0.d1 d2 d3 … */
  function Fraction(s: string): real
    requires IsDigits(s)
  {
    if s == [] then 0.0 else (DigitOf(s[0]) as real + Fraction(s[1..])) / 10.0
  }

  lemma {:induction false} FractionBelowOne(s: string)
    requires IsDigits(s)
    ensures 0.0 <= Fraction(s) < 1.0
  {
    if s != [] {
      FractionBelowOne(s[1..]);
    }
  }

  lemma TwoDigitsValue(t: string)
    requires IsDigits(t) && |t| == 2
    ensures DigitsValue(t) == 10 * DigitOf(t[0]) + DigitOf(t[1])
  {
    assert t[..1] == [t[0]] && t[..1][..0] == [];
    assert DigitsValue(t[..1]) == DigitOf(t[0]);
  }

  lemma FractionOfTwo(s: string)
    requires IsDigits(s) && |s| >= 2
    ensures 100.0 * Fraction(s) == 10.0 * DigitOf(s[0]) as real + DigitOf(s[1]) as real + Fraction(s[2..])
  {
    assert s[1..][1..] == s[2..] && s[1..][0] == s[1];
    assert 10.0 * Fraction(s[1..]) == DigitOf(s[1]) as real + Fraction(s[2..]);
  }

  lemma LongFractionTruncates(s: string)
    requires IsDigits(s) && |s| >= 2
    ensures IsDigits(TwoDigits(s))
    ensures 100.0 * Fraction(s) == DigitsValue(TwoDigits(s)) as real + Fraction(s[2..])
  {
    var t := TwoDigits(s);
    assert t == s[..2] && t[0] == s[0] && t[1] == s[1];
    TwoDigitsValue(t);
    FractionOfTwo(s);
    assert (10 * DigitOf(s[0]) + DigitOf(s[1])) as real == 10.0 * DigitOf(s[0]) as real + DigitOf(s[1]) as real;
  }

  lemma ShortFractionIsExact(s: string)
    requires IsDigits(s) && |s| < 2
    ensures IsDigits(TwoDigits(s))
    ensures 100.0 * Fraction(s) == DigitsValue(TwoDigits(s)) as real
  {
    var t := TwoDigits(s);
    if |s| == 1 {
      assert t == [s[0], '0'] && s[1..] == [];
    } else {
      assert t == "00";
    }
    TwoDigitsValue(t);
  }

  /** Reading two digits of a fraction truncates it to hundredths; it is exact up to two digits. */
  lemma TwoDigitsTruncate(s: string)
    requires IsDigits(s)
    ensures IsDigits(TwoDigits(s))
    ensures 0.0 <= 100.0 * Fraction(s) - DigitsValue(TwoDigits(s)) as real < 1.0
    ensures |s| <= 2 ==> 100.0 * Fraction(s) == DigitsValue(TwoDigits(s)) as real
  {
    if |s| < 2 {
      ShortFractionIsExact(s);
    } else {
      LongFractionTruncates(s);
      FractionBelowOne(s[2..]);
      assert |s| == 2 ==> s[2..] == [];
    }
  }

  /**
   For any decimal text the parsed hundredths are the value cut off, toward zero, after two
   decimals, and exactly a hundred times the value when there are at most two.
   */
  lemma CentiPercentIsExact(d: Decimal)
    requires WellFormed(d)
    ensures IsDigits(BeforePoint(Unsigned(Unparse(d)))) && IsDigits(AfterPoint(Unsigned(Unparse(d))))
    ensures var c := ParseCentiPercent(Unparse(d)) as real;
            && (|d.fraction| <= 2 ==> c == 100.0 * Value(d))
            && (if d.negative then -1.0 < 100.0 * Value(d) - c <= 0.0 else 0.0 <= 100.0 * Value(d) - c < 1.0)
  {
    UnparseSplits(d);
    TwoDigitsTruncate(d.fraction);
  }

  predicate ReadablePercent(p: string) {
    IsDigits(BeforePoint(Unsigned(p))) && IsDigits(AfterPoint(Unsigned(p)))
  }

  /** Whether a batch has enough life left; any missing input, or a non-positive life, lets it pass. */
  function MeetsMinimumShelfLife(expiration: Option<string>, shelfLifeDays: Option<int>, minPct: Option<string>, today: string): bool
    requires IsIsoDate(today) && (expiration.Some? ==> IsIsoDate(expiration.value))
    requires minPct.Some? ==> ReadablePercent(minPct.value)
  {
    if expiration.None? || shelfLifeDays.None? || minPct.None? then true
    else if shelfLifeDays.value <= 0 then true
    else WholeDaysBetween(today, expiration.value) * 100 * 100 >= ParseCentiPercent(minPct.value) * shelfLifeDays.value
  }

  lemma CrossMultiply(days: int, life: int, centi: int, pct: real)
    requires life > 0 && centi as real == 100.0 * pct
    ensures days * 100 * 100 >= centi * life <==> days as real / life as real * 100.0 >= pct
  {
    var l, c := life as real, centi as real;
    var q := days as real / l;
    assert q * l == days as real;
    assert (centi * life) as real == c * l;
    assert (days * 100 * 100) as real == 10000.0 * q * l;
    if q * 100.0 >= pct {
      assert (10000.0 * q - c) * l >= 0.0;
    } else {
      assert (c - 10000.0 * q) * l > 0.0;
    }
  }

  /** The whole-number test is the rational rule, for every date pair, life and two-decimal percentage. */
  lemma ShelfLifeIsTheRationalRule(expiration: Option<string>, life: Option<int>, pct: Option<Decimal>, today: string)
    requires IsIsoDate(today) && (expiration.Some? ==> IsIsoDate(expiration.value))
    requires pct.Some? ==> WellFormed(pct.value) && |pct.value.fraction| <= 2
    ensures pct.Some? ==> ReadablePercent(Unparse(pct.value))
    ensures MeetsMinimumShelfLife(expiration, life, if pct.Some? then Some(Unparse(pct.value)) else None, today) <==>
            (expiration.Some? && life.Some? && life.value > 0 && pct.Some? ==>
               WholeDaysBetween(today, expiration.value) as real / life.value as real * 100.0 >= Value(pct.value))
  {
    if pct.Some? {
      CentiPercentIsExact(pct.value);
    }
    if expiration.Some? && life.Some? && life.value > 0 && pct.Some? {
      CrossMultiply(WholeDaysBetween(today, expiration.value), life.value, ParseCentiPercent(Unparse(pct.value)), Value(pct.value));
    }
  }

  /** A later expiry, seen from an earlier day, is never less acceptable, for all dates by the days they are read as. */
  lemma ShelfLifeIsMonotone(
    expiration: string, later: string, today: string, earlier: string, life: Option<int>, minPct: Option<string>)
    requires IsIsoDate(expiration) && IsIsoDate(later) && IsIsoDate(today) && IsIsoDate(earlier)
    requires !Before(UtcDate(ReadDate(later)), UtcDate(ReadDate(expiration)))
    requires !Before(UtcDate(ReadDate(today)), UtcDate(ReadDate(earlier)))
    requires minPct.Some? ==> ReadablePercent(minPct.value)
    requires MeetsMinimumShelfLife(Some(expiration), life, minPct, today)
    ensures MeetsMinimumShelfLife(Some(later), life, minPct, earlier)
  {
    DifferenceIsUtcOrder(later, expiration);
    DifferenceIsUtcOrder(today, earlier);
    MoreLifeIsEnough(expiration, later, today, earlier, life, minPct);
  }

  lemma MoreLifeIsEnough(
    expiration: string, later: string, today: string, earlier: string, life: Option<int>, minPct: Option<string>)
    requires IsIsoDate(expiration) && IsIsoDate(later) && IsIsoDate(today) && IsIsoDate(earlier)
    requires WholeDaysBetween(today, expiration) <= WholeDaysBetween(earlier, later)
    requires minPct.Some? ==> ReadablePercent(minPct.value)
    requires MeetsMinimumShelfLife(Some(expiration), life, minPct, today)
    ensures MeetsMinimumShelfLife(Some(later), life, minPct, earlier)
  {
  }

  /** Whatever a product demands, what is acceptable with the first pair of dates is so with the second. */
  ghost predicate NeverLessAcceptable(expiration: string, today: string, later: string, earlier: string)
    requires IsIsoDate(expiration) && IsIsoDate(later) && IsIsoDate(today) && IsIsoDate(earlier)
  {
    forall life: Option<int>, minPct: Option<string> | minPct.Some? ==> ReadablePercent(minPct.value) ::
      MeetsMinimumShelfLife(Some(expiration), life, minPct, today) ==> MeetsMinimumShelfLife(Some(later), life, minPct, earlier)
  }

  /** A percentage given in whole hundredths. */
  function Hundredths(negative: bool, digit: char): Decimal
    requires '0' <= digit <= '9'
  {
    Decimal(negative, "0", ['0', digit])
  }

  lemma HundredthsAreRead(negative: bool, digit: char)
    requires '0' <= digit <= '9'
    ensures var p := Unparse(Hundredths(negative, digit));
            ReadablePercent(p) && ParseCentiPercent(p) == (if negative then -1 else 1) * DigitOf(digit)
  {
    var d := Hundredths(negative, digit);
    UnparseSplits(d);
    assert TwoDigits(d.fraction) == d.fraction;
    TwoDigitsValue(d.fraction);
    assert DigitsValue(d.whole) == 0;
  }

  /** A product whose demand `days` of life left meet exactly: its life, and the percentage it asks for. */
  function DemandedLife(days: int): int {
    if days > 0 then 10000 * days else if days < 0 then -10000 * days else 1
  }

  function DemandedPercent(days: int): string {
    Unparse(Hundredths(days < 0, if days == 0 then '0' else '1'))
  }

  lemma DemandIsExact(expiration: string, today: string, days: int)
    requires IsIsoDate(expiration) && IsIsoDate(today)
    ensures ReadablePercent(DemandedPercent(days))
    ensures MeetsMinimumShelfLife(Some(expiration), Some(DemandedLife(days)), Some(DemandedPercent(days)), today) <==>
            WholeDaysBetween(today, expiration) >= days
  {
    HundredthsAreRead(days < 0, if days == 0 then '0' else '1');
    DemandArithmetic(WholeDaysBetween(today, expiration), days, ParseCentiPercent(DemandedPercent(days)));
  }

  lemma DemandArithmetic(left: int, days: int, centi: int)
    requires centi == if days == 0 then 0 else if days < 0 then -1 else 1
    ensures DemandedLife(days) > 0 && (left * 100 * 100 >= centi * DemandedLife(days) <==> left >= days)
  {
  }

  /** Only the days left count: one pair of dates is never less acceptable than another exactly when it leaves as many. */
  lemma DaysLeftDecide(expiration: string, today: string, later: string, earlier: string)
    requires IsIsoDate(expiration) && IsIsoDate(later) && IsIsoDate(today) && IsIsoDate(earlier)
    ensures NeverLessAcceptable(expiration, today, later, earlier) <==>
            WholeDaysBetween(today, expiration) <= WholeDaysBetween(earlier, later)
  {
    if WholeDaysBetween(today, expiration) <= WholeDaysBetween(earlier, later) {
      forall life: Option<int>, minPct: Option<string> | (minPct.Some? ==> ReadablePercent(minPct.value))
          && MeetsMinimumShelfLife(Some(expiration), life, minPct, today)
        ensures MeetsMinimumShelfLife(Some(later), life, minPct, earlier)
      {
        MoreLifeIsEnough(expiration, later, today, earlier, life, minPct);
      }
    } else {
      var days := WholeDaysBetween(today, expiration);
      DemandIsExact(expiration, today, days);
      DemandIsExact(later, earlier, days);
      assert !(MeetsMinimumShelfLife(Some(expiration), Some(DemandedLife(days)), Some(DemandedPercent(days)), today)
               ==> MeetsMinimumShelfLife(Some(later), Some(DemandedLife(days)), Some(DemandedPercent(days)), earlier));
    }
  }
}
