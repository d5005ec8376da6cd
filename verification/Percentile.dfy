/** Percentiles with linear interpolation over exact reals, and the efficiency gate built on them. */
module Percentile {
  import opened Sorting

  const LE: (real, real) -> bool := (x, y) => x <= y

  ghost predicate Ascending(s: seq<real>) { forall i, j | 0 <= i <= j < |s| :: s[i] <= s[j] }

  /** What `sorted` gives for numbers. */
  lemma SortedValues(values: seq<real>)
    ensures var ordered := Sort(values, LE);
      |ordered| == |values| && Ascending(ordered) && forall y :: y in ordered <==> y in values
  {
    assert TotalOrder(LE);
    SortMeaning(values, LE);
  }

  lemma Scale(span: real, p: real, q: real)
    requires span >= 0.0 && p <= q
    ensures span * p <= span * q && p * span <= q * span
  {
    assert span * (q - p) >= 0.0;
  }

  lemma StrictScale(k: real, x: real, y: real)
    requires k > 0.0 && x < y
    ensures x * k < y * k
  {
    assert (y - x) * k > 0.0;
  }

  lemma Fraction(span: real, pct: real)
    requires span >= 0.0 && 0.0 <= pct <= 1.0
    ensures 0.0 <= span * pct <= span
  {
    Scale(span, 0.0, pct);
    Scale(span, pct, 1.0);
    assert span * 0.0 == 0.0 && span * 1.0 == span;
  }

  // The point a fraction of the way along a span.
  function Along(span: real, pct: real): real { span * pct }

  lemma PositionInRange(span: real, pct: real)
    requires span >= 0.0 && 0.0 <= pct <= 1.0
    ensures 0.0 <= Along(span, pct) <= span
  {
    Fraction(span, pct);
  }

  function Position(n: nat, pct: real): (pos: real)
    requires n > 0 && 0.0 <= pct <= 1.0
    ensures 0.0 <= pos <= (n - 1) as real
  {
    PositionInRange((n - 1) as real, pct);
    Along((n - 1) as real, pct)
  }

  lemma PositionRises(n: nat, p: real, q: real)
    requires n > 0 && 0.0 <= p <= q <= 1.0
    ensures Position(n, p) <= Position(n, q)
  {
    Scale((n - 1) as real, p, q);
  }

  function Mix(x: real, y: real, frac: real): real { x * (1.0 - frac) + y * frac }

  predicate InRange(ordered: seq<real>, pos: real) {
    ordered != [] && 0.0 <= pos <= (|ordered| - 1) as real
  }

  function Low(pos: real): nat
    requires 0.0 <= pos
  {
    pos.Floor
  }

  function High(n: nat, pos: real): (hi: nat)
    requires n > 0 && 0.0 <= pos <= (n - 1) as real
    ensures Low(pos) <= hi < n
  {
    if Low(pos) + 1 <= n - 1 then Low(pos) + 1 else n - 1
  }

  /** The value at a position between two ranks; int() is the floor, as positions are not negative. */
  function At(ordered: seq<real>, pos: real): real
    requires InRange(ordered, pos)
  {
    Mix(ordered[Low(pos)], ordered[High(|ordered|, pos)], pos - Low(pos) as real)
  }

  function PercentileOf(values: seq<real>, pct: real): real
    requires 0.0 <= pct <= 1.0
  {
    SortedValues(values);
    var ordered := Sort(values, LE);
    if values == [] then 0.0
    else if |ordered| == 1 then ordered[0]
    else At(ordered, Position(|ordered|, pct))
  }

  // -- Interpolation ------------------------------------------------------------------------------------------

  lemma MixShape(x: real, y: real, frac: real)
    ensures Mix(x, y, frac) == x + (y - x) * frac == y - (y - x) * (1.0 - frac)
  {
  }

  lemma MixBetween(x: real, y: real, frac: real)
    requires x <= y && 0.0 <= frac <= 1.0
    ensures x <= Mix(x, y, frac) <= y
  {
    MixShape(x, y, frac);
    Scale(y - x, 0.0, frac);
    Scale(y - x, 0.0, 1.0 - frac);
  }

  lemma MixRises(x: real, y: real, f: real, g: real)
    requires x <= y && f <= g
    ensures Mix(x, y, f) <= Mix(x, y, g)
  {
    MixShape(x, y, f);
    MixShape(x, y, g);
    Scale(y - x, f, g);
  }

  lemma MixNonNegative(x: real, y: real, frac: real)
    requires 0.0 <= x && 0.0 <= y && 0.0 <= frac <= 1.0
    ensures 0.0 <= Mix(x, y, frac)
  {
    if x <= y { MixBetween(x, y, frac); }
    else { MixShape(x, y, frac); MixBetween(y, x, 1.0 - frac); MixShape(y, x, 1.0 - frac); }
  }

  lemma MixRaised(x: real, y: real, x2: real, y2: real, frac: real)
    requires x <= x2 && y <= y2 && 0.0 <= frac <= 1.0
    ensures Mix(x, y, frac) <= Mix(x2, y2, frac)
  {
    MixNonNegative(x2 - x, y2 - y, frac);
    assert Mix(x2, y2, frac) == Mix(x, y, frac) + Mix(x2 - x, y2 - y, frac);
  }

  lemma AtBetween(ordered: seq<real>, pos: real)
    requires Ascending(ordered) && InRange(ordered, pos)
    ensures ordered[Low(pos)] <= At(ordered, pos) <= ordered[High(|ordered|, pos)]
  {
    MixBetween(ordered[Low(pos)], ordered[High(|ordered|, pos)], pos - Low(pos) as real);
  }

  lemma AtRises(ordered: seq<real>, p: real, q: real)
    requires Ascending(ordered) && InRange(ordered, p) && InRange(ordered, q) && p <= q
    ensures At(ordered, p) <= At(ordered, q)
  {
    if Low(p) == Low(q) {
      MixRises(ordered[Low(p)], ordered[High(|ordered|, p)], p - Low(p) as real, q - Low(q) as real);
    } else {
      AtBetween(ordered, p);
      AtBetween(ordered, q);
      assert ordered[High(|ordered|, p)] <= ordered[Low(q)];
    }
  }

  // -- The percentile of unordered values -----------------------------------------------------------------------

  lemma OneValue(values: seq<real>, pct: real)
    requires values != [] && 0.0 <= pct <= 1.0
    ensures var ordered := Sort(values, LE);
      |ordered| == |values| && Ascending(ordered) && InRange(ordered, Position(|values|, pct))
      && PercentileOf(values, pct) == At(ordered, Position(|values|, pct))
  {
    SortedValues(values);
    var ordered := Sort(values, LE);
    if |ordered| == 1 { assert Position(1, pct) == 0.0; MixBetween(ordered[0], ordered[0], 0.0); }
  }

  /** The percentile lies between the smallest and the largest value. */
  lemma PercentileBetween(values: seq<real>, pct: real, least: real, most: real)
    requires values != [] && 0.0 <= pct <= 1.0 && forall v | v in values :: least <= v <= most
    ensures least <= PercentileOf(values, pct) <= most
  {
    OneValue(values, pct);
    SortedValues(values);
    var ordered, pos := Sort(values, LE), Position(|values|, pct);
    AtBetween(ordered, pos);
    assert ordered[Low(pos)] in values && ordered[High(|ordered|, pos)] in values;
  }

  /** A larger fraction never gives a smaller percentile, within a piece and across pieces. */
  lemma PercentileRises(values: seq<real>, p: real, q: real)
    requires 0.0 <= p <= q <= 1.0
    ensures PercentileOf(values, p) <= PercentileOf(values, q)
  {
    if values != [] {
      OneValue(values, p);
      OneValue(values, q);
      PositionRises(|values|, p, q);
      AtRises(Sort(values, LE), Position(|values|, p), Position(|values|, q));
    }
  }

  /** Any ascending arrangement of the values is the one the percentile reads. */
  lemma Arrangement(values: seq<real>, ordered: seq<real>)
    requires Ascending(ordered) && multiset(ordered) == multiset(values)
    ensures Sort(values, LE) == ordered && |ordered| == |values|
  {
    assert TotalOrder(LE);
    SortMeaning(values, LE);
    assert |multiset(ordered)| == |ordered| && |multiset(values)| == |values|;
    SortedUnique(Sort(values, LE), ordered, LE);
  }

  // The point a part of the way from x to y.
  function Toward(x: real, y: real, part: real): real { x + (y - x) * part }

  lemma WholeAndPart(pos: real, k: nat, part: real)
    requires pos == k as real + part && 0.0 <= part < 1.0
    ensures pos.Floor == k && pos - pos.Floor as real == part
  {
  }

  /** The percentile at a fraction whose place among the n values is rank k and a part of the way to the next: at a
      rank it is that rank's value, and between two ranks it runs straight from the one value to the other. */
  lemma PercentileInterpolates(values: seq<real>, ordered: seq<real>, pct: real, k: nat, part: real)
    requires values != [] && 0.0 <= pct <= 1.0 && Ascending(ordered) && multiset(ordered) == multiset(values)
    requires (|values| - 1) as real * pct == k as real + part && 0.0 <= part < 1.0
    ensures |ordered| == |values| && k < |values| && (part > 0.0 ==> k + 1 < |values|)
    ensures PercentileOf(values, pct) ==
            if part == 0.0 then ordered[k] else Toward(ordered[k], ordered[k + 1], part)
  {
    var n := |values|;
    Arrangement(values, ordered);
    OneValue(values, pct);
    WholeAndPart(Position(n, pct), k, part);
    var hi := High(n, Position(n, pct));
    MixShape(ordered[k], ordered[hi], part);
    if part == 0.0 { assert (ordered[hi] - ordered[k]) * part == 0.0; }
  }

  /** An exact fraction: the k-th of n values stands at k / (n - 1). */
  lemma PercentileAtRank(values: seq<real>, ordered: seq<real>, k: nat)
    requires |values| > 1 && k < |values| && Ascending(ordered) && multiset(ordered) == multiset(values)
    ensures |ordered| == |values| && 0.0 <= k as real / (|values| - 1) as real <= 1.0
    ensures PercentileOf(values, k as real / (|values| - 1) as real) == ordered[k]
  {
    var span := (|values| - 1) as real;
    var pct := k as real / span;
    assert span * pct == k as real;
    if pct > 1.0 { StrictScale(span, 1.0, pct); }
    if pct < 0.0 { StrictScale(span, pct, 0.0); }
    PercentileInterpolates(values, ordered, pct, k, 0.0);
  }

  /** A single value is every percentile, and no values have percentile zero. */
  lemma SmallPercentiles(x: real, pct: real)
    requires 0.0 <= pct <= 1.0
    ensures PercentileOf([x], pct) == x && PercentileOf([], pct) == 0.0
  {
    SortedValues([x]);
    assert Sort([x], LE)[0] in [x];
  }

  lemma PercentileIgnoresOrder(values: seq<real>, others: seq<real>, pct: real)
    requires multiset(values) == multiset(others) && 0.0 <= pct <= 1.0
    ensures PercentileOf(values, pct) == PercentileOf(others, pct)
  {
    assert TotalOrder(LE);
    SortIgnoresOrder(values, others, LE);
    assert |multiset(values)| == |values| && |multiset(others)| == |others|;
  }

  // Raising values.

  ghost predicate Below(s: seq<real>, t: seq<real>) {
    |s| == |t| && forall i | 0 <= i < |s| :: s[i] <= t[i]
  }

  lemma BelowCons(x: real, s: seq<real>, y: real, t: seq<real>)
    requires x <= y && Below(s, t)
    ensures Below([x] + s, [y] + t)
  {
  }

  lemma InsertFirst(s: seq<real>)
    requires s != [] && Ascending(s)
    ensures Insert(s[0], s[1..], LE) == s
  {
    assert s == [s[0]] + s[1..];
  }

  lemma {:induction false} InsertRaises(x: real, s: seq<real>, y: real, t: seq<real>)
    requires x <= y && Below(s, t) && Ascending(s) && Ascending(t)
    ensures Below(Insert(x, s, LE), Insert(y, t, LE))
    decreases |s|
  {
    if s == [] || (x <= s[0] && y <= t[0]) {
      BelowCons(x, s, y, t);
    } else {
      var s1, t1 := s[1..], t[1..];
      if x <= s[0] {
        InsertRaises(s[0], s1, y, t1);
        InsertFirst(s);
        BelowCons(x, s, t[0], Insert(y, t1, LE));
      } else if y <= t[0] {
        InsertRaises(x, s1, t[0], t1);
        InsertFirst(t);
        BelowCons(s[0], Insert(x, s1, LE), y, t);
      } else {
        InsertRaises(x, s1, y, t1);
        BelowCons(s[0], Insert(x, s1, LE), t[0], Insert(y, t1, LE));
      }
    }
  }

  lemma {:induction false} SortRaises(s: seq<real>, t: seq<real>)
    requires Below(s, t)
    ensures Below(Sort(s, LE), Sort(t, LE))
  {
    if s != [] {
      SortRaises(s[1..], t[1..]);
      SortedValues(s[1..]);
      SortedValues(t[1..]);
      InsertRaises(s[0], Sort(s[1..], LE), t[0], Sort(t[1..], LE));
    }
  }

  /** Raising values one by one never lowers a percentile, even when it changes their order. */
  lemma PercentileRaised(values: seq<real>, raised: seq<real>, pct: real)
    requires Below(values, raised) && 0.0 <= pct <= 1.0
    ensures PercentileOf(values, pct) <= PercentileOf(raised, pct)
  {
    if values != [] {
      OneValue(values, pct);
      OneValue(raised, pct);
      SortRaises(values, raised);
      var s, t, pos := Sort(values, LE), Sort(raised, LE), Position(|values|, pct);
      MixRaised(s[Low(pos)], s[High(|s|, pos)], t[Low(pos)], t[High(|s|, pos)], pos - Low(pos) as real);
    }
  }

  // -- How many values lie on either side -------------------------------------------------------------------------

  function Count(values: seq<real>, keep: real -> bool): nat {
    if values == [] then 0 else (if keep(values[0]) then 1 else 0) + Count(values[1..], keep)
  }

  lemma {:induction false} CountInsert(x: real, s: seq<real>, keep: real -> bool)
    ensures Count(Insert(x, s, LE), keep) == (if keep(x) then 1 else 0) + Count(s, keep)
  {
    if s == [] || x <= s[0] {
      assert ([x] + s)[1..] == s;
    } else {
      CountInsert(x, s[1..], keep);
      assert ([s[0]] + Insert(x, s[1..], LE))[1..] == Insert(x, s[1..], LE);
    }
  }

  lemma {:induction false} CountSort(s: seq<real>, keep: real -> bool)
    ensures Count(Sort(s, LE), keep) == Count(s, keep)
  {
    if s != [] {
      CountSort(s[1..], keep);
      CountInsert(s[0], Sort(s[1..], LE), keep);
    }
  }

  lemma {:induction false} CountRange(s: seq<real>, keep: real -> bool, from: nat, to: nat)
    requires from <= to <= |s| && forall i | from <= i < to :: keep(s[i])
    ensures to - from <= Count(s, keep) <= |s|
    decreases |s|
  {
    if s != [] {
      if from > 0 { CountRange(s[1..], keep, from - 1, to - 1); }
      else if to > 0 { CountRange(s[1..], keep, 0, to - 1); }
      else { CountRange(s[1..], keep, 0, 0); }
    }
  }

  lemma {:induction false} CountComplement(s: seq<real>, keep: real -> bool, drop: real -> bool)
    requires forall x :: keep(x) != drop(x)
    ensures Count(s, keep) + Count(s, drop) == |s|
  {
    if s != [] { CountComplement(s[1..], keep, drop); }
  }

  function Median(values: seq<real>): real { PercentileOf(values, 0.5) }

  predicate Middle(ordered: seq<real>, figure: real)
    requires ordered != []
  {
    var m := |ordered| / 2;
    figure == if |ordered| % 2 == 1 then ordered[m] else (ordered[m - 1] + ordered[m]) / 2.0
  }

  /** The median of an odd count is the middle value, of an even count the mean of the two middle values. */
  lemma MedianIsMiddle(values: seq<real>, ordered: seq<real>)
    requires values != [] && Ascending(ordered) && multiset(ordered) == multiset(values)
    ensures ordered != [] && Middle(ordered, Median(values))
  {
    var n := |values|;
    if n % 2 == 1 {
      assert (n - 1) as real * 0.5 == (n / 2) as real + 0.0;
      PercentileInterpolates(values, ordered, 0.5, n / 2, 0.0);
    } else {
      assert (n - 1) as real * 0.5 == (n / 2 - 1) as real + 0.5;
      PercentileInterpolates(values, ordered, 0.5, n / 2 - 1, 0.5);
    }
  }

  lemma InTenths(m: nat, k: nat, tenths: nat)
    requires 9 * m == 10 * k + tenths && tenths < 10
    ensures m as real * 0.9 == k as real + tenths as real / 10.0 && 0.0 <= tenths as real / 10.0 < 1.0
    ensures tenths as real / 10.0 == 0.0 <==> tenths == 0
  {
    assert 9.0 * m as real == 10.0 * k as real + tenths as real;
  }

  /** The figure nine tenths of the way along the ranks of an arrangement. */
  predicate NineTenths(ordered: seq<real>, figure: real)
    requires ordered != []
  {
    var k, tenths := 9 * (|ordered| - 1) / 10, 9 * (|ordered| - 1) % 10;
    if tenths == 0 || k + 1 >= |ordered| then figure == ordered[k]
    else figure == Toward(ordered[k], ordered[k + 1], tenths as real / 10.0)
  }

  lemma NinetiethIsInterpolated(values: seq<real>, ordered: seq<real>)
    requires values != [] && Ascending(ordered) && multiset(ordered) == multiset(values)
    ensures ordered != [] && NineTenths(ordered, PercentileOf(values, 0.9))
  {
    var k, tenths := 9 * (|values| - 1) / 10, 9 * (|values| - 1) % 10;
    InTenths(|values| - 1, k, tenths);
    PercentileInterpolates(values, ordered, 0.9, k, tenths as real / 10.0);
  }

  lemma MedianRanks(n: nat)
    requires n > 0
    ensures var pos := Position(n, 0.5);
      && 2 * (Low(pos) + 1) >= n
      && (n % 2 == 0 ==> 2 * (n - High(n, pos)) >= n)
      && (n % 2 == 1 ==> pos == Low(pos) as real && 2 * Low(pos) + 1 == n)
  {
    var pos, m := Position(n, 0.5), (n - 1) / 2;
    assert pos == (n - 1) as real / 2.0;
    assert m as real <= pos < (m + 1) as real;
    assert Low(pos) == m;
  }

  /** A number between two ranks of an ascending list bounds the counts on either side of a limit. */
  lemma Sides(ordered: seq<real>, lo: nat, hi: nat, x: real, limit: real)
    requires Ascending(ordered) && lo <= hi < |ordered| && ordered[lo] <= x <= ordered[hi]
    ensures x <= limit ==> Count(ordered, v => v <= limit) >= lo + 1
    ensures x > limit ==> Count(ordered, v => v > limit) >= |ordered| - hi
  {
    if x <= limit {
      assert forall i | 0 <= i < lo + 1 :: ordered[i] <= ordered[lo];
      CountRange(ordered, v => v <= limit, 0, lo + 1);
    } else {
      assert forall i | hi <= i < |ordered| :: ordered[hi] <= ordered[i];
      CountRange(ordered, v => v > limit, hi, |ordered|);
    }
  }

  /** The ranks round the median. */
  lemma MedianBetween(values: seq<real>) returns (lo: nat, hi: nat)
    requires values != []
    ensures var ordered := Sort(values, LE);
      && |ordered| == |values| && Ascending(ordered) && lo <= hi < |ordered|
      && ordered[lo] <= Median(values) <= ordered[hi]
      && 2 * (lo + 1) >= |values| && 2 * (|values| - hi) >= |values|
      && (|values| % 2 == 1 ==> 2 * lo + 1 == |values| == 2 * hi + 1)
  {
    var n, ordered := |values|, Sort(values, LE);
    var pos := Position(n, 0.5);
    OneValue(values, 0.5);
    MedianRanks(n);
    AtBetween(ordered, pos);
    lo, hi := Low(pos), High(n, pos);
    if n % 2 == 1 {
      MixShape(ordered[lo], ordered[hi], 0.0);
      hi := lo;
    }
  }

  /** When the median meets a limit, at least half of the values do; when it does not, at least half lie above;
      for an odd number of values it meets the limit exactly when more than half of them do. */
  lemma MedianMeaning(values: seq<real>, limit: real)
    requires values != []
    ensures Median(values) <= limit ==> 2 * Count(values, v => v <= limit) >= |values|
    ensures Median(values) > limit ==> 2 * Count(values, v => v > limit) >= |values|
    ensures |values| % 2 == 1 ==> (Median(values) <= limit <==> 2 * Count(values, v => v <= limit) > |values|)
  {
    var within: real -> bool, above: real -> bool := v => v <= limit, v => v > limit;
    var ordered := Sort(values, LE);
    var lo, hi := MedianBetween(values);
    Sides(ordered, lo, hi, Median(values), limit);
    CountSort(values, within);
    CountSort(values, above);
    CountComplement(values, within, above);
  }

  // -- The efficiency summary ---------------------------------------------------------------------------------------

  datatype Efficiency = Efficiency(least: int, p50: real, p90: real, most: int, average: real,
                                   ratioP50: real, ratioP90: real, passes: bool)

  function Least(counts: seq<int>): (m: int)
    requires counts != []
    ensures m in counts && forall c | c in counts :: m <= c
  {
    if |counts| == 1 then counts[0]
    else
      var m := Least(counts[1..]);
      assert counts == [counts[0]] + counts[1..];
      if counts[0] <= m then counts[0] else m
  }

  function Most(counts: seq<int>): (m: int)
    requires counts != []
    ensures m in counts && forall c | c in counts :: c <= m
  {
    if |counts| == 1 then counts[0]
    else
      var m := Most(counts[1..]);
      assert counts == [counts[0]] + counts[1..];
      if m <= counts[0] then counts[0] else m
  }

  function Sum(counts: seq<int>): int { if counts == [] then 0 else counts[0] + Sum(counts[1..]) }

  function Reals(counts: seq<int>): (rs: seq<real>)
    ensures |rs| == |counts| && forall i | 0 <= i < |rs| :: rs[i] == counts[i] as real
  {
    seq(|counts|, i requires 0 <= i < |counts| => counts[i] as real)
  }

  function Average(counts: seq<int>): real {
    if counts == [] then 0.0 else Sum(counts) as real / |counts| as real
  }

  function EfficiencySummary(counts: seq<int>, ratios: seq<real>, maxMedian: int): Efficiency {
    var retrieved := Reals(counts);
    var median := PercentileOf(retrieved, 0.5);
    Efficiency(if counts == [] then 0 else Least(counts), median, PercentileOf(retrieved, 0.9),
               if counts == [] then 0 else Most(counts),
               Average(counts),
               PercentileOf(ratios, 0.5), PercentileOf(ratios, 0.9),
               median <= maxMedian as real)
  }

  /** The sum is the one additive figure: nothing sums to zero, one number to itself, and parts add up. */
  lemma {:induction false} SumMeaning(a: seq<int>, b: seq<int>, x: int)
    ensures Sum([]) == 0 && Sum([x]) == x && Sum(a + b) == Sum(a) + Sum(b)
  {
    assert Sum([x]) == x + Sum([x][1..]);
    if a == [] {
      assert a + b == b;
    } else {
      assert (a + b)[1..] == a[1..] + b;
      SumMeaning(a[1..], b, x);
    }
  }

  lemma OneMore(m: int, n: int)
    ensures m * n == m * (n - 1) + m
  {
  }

  lemma {:induction false} SumBounds(counts: seq<int>, least: int, most: int)
    requires forall c | c in counts :: least <= c <= most
    ensures least * |counts| <= Sum(counts) <= most * |counts|
  {
    if counts != [] {
      var rest := counts[1..];
      assert counts[0] in counts && forall c | c in rest :: c in counts;
      SumBounds(rest, least, most);
      OneMore(least, |counts|);
      OneMore(most, |counts|);
    }
  }

  lemma AverageBounds(sum: int, n: nat, least: int, most: int)
    requires n > 0 && least * n <= sum <= most * n
    ensures least as real <= sum as real / n as real <= most as real
  {
    var average, k := sum as real / n as real, n as real;
    assert average * k == sum as real;
    assert least as real * k == (least * n) as real && most as real * k == (most * n) as real;
    if average < least as real { StrictScale(k, average, least as real); }
    if average > most as real { StrictScale(k, most as real, average); }
  }

  ghost predicate Arranges(ordered: seq<real>, values: seq<real>) {
    Ascending(ordered) && multiset(ordered) == multiset(values)
  }

  /** The gate compares the middle of the counts with the limit; the other figures are read off the counts and the
      ratios in ascending order. */
  lemma SummaryFigures(counts: seq<int>, ratios: seq<real>, maxMedian: int, ordered: seq<real>,
                       orderedRatios: seq<real>)
    requires counts != [] && ratios != [] && Arranges(ordered, Reals(counts)) && Arranges(orderedRatios, ratios)
    ensures ordered != [] && orderedRatios != []
    ensures var s := EfficiencySummary(counts, ratios, maxMedian);
      && Middle(ordered, s.p50) && NineTenths(ordered, s.p90)
      && Middle(orderedRatios, s.ratioP50) && NineTenths(orderedRatios, s.ratioP90)
      && s.least in counts && s.most in counts && (forall c | c in counts :: s.least <= c <= s.most)
      && s.average == Average(counts) && (s.passes <==> s.p50 <= maxMedian as real)
  {
    MedianIsMiddle(Reals(counts), ordered);
    NinetiethIsInterpolated(Reals(counts), ordered);
    MedianIsMiddle(ratios, orderedRatios);
    NinetiethIsInterpolated(ratios, orderedRatios);
  }

  lemma Divided(sum: real, n: real)
    requires n > 0.0
    ensures sum / n * n == sum
  {
  }

  /** The average times the number of counts is their sum. */
  lemma AverageMeaning(counts: seq<int>)
    requires counts != []
    ensures Average(counts) * |counts| as real == Sum(counts) as real
  {
    Divided(Sum(counts) as real, |counts| as real);
  }

  /** Without counts every figure of theirs is zero, and the gate asks for a limit that is not negative. */
  lemma EmptySummary(ratios: seq<real>, maxMedian: int)
    ensures var s := EfficiencySummary([], ratios, maxMedian);
      && s.least == 0 && s.most == 0 && s.p50 == 0.0 && s.p90 == 0.0 && s.average == 0.0
      && (s.passes <==> maxMedian >= 0)
  {
  }

  /** The five figures are in order, and the gate says where at least half of the counts lie. */
  lemma SummaryMeaning(counts: seq<int>, ratios: seq<real>, maxMedian: int)
    requires counts != []
    ensures var s := EfficiencySummary(counts, ratios, maxMedian);
      && s.least as real <= s.p50 <= s.p90 <= s.most as real
      && s.least as real <= s.average <= s.most as real
      && (s.passes ==> 2 * Count(Reals(counts), v => v <= maxMedian as real) >= |counts|)
      && (!s.passes ==> 2 * Count(Reals(counts), v => v > maxMedian as real) >= |counts|)
  {
    var retrieved := Reals(counts);
    forall v | v in retrieved ensures Least(counts) as real <= v <= Most(counts) as real {
      var i :| 0 <= i < |retrieved| && retrieved[i] == v;
      assert counts[i] in counts;
    }
    PercentileBetween(retrieved, 0.5, Least(counts) as real, Most(counts) as real);
    PercentileBetween(retrieved, 0.9, Least(counts) as real, Most(counts) as real);
    PercentileRises(retrieved, 0.5, 0.9);
    SumBounds(counts, Least(counts), Most(counts));
    AverageBounds(Sum(counts), |counts|, Least(counts), Most(counts));
    MedianMeaning(retrieved, maxMedian as real);
  }
}
