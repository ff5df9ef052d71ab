/**
 * Calendar months as used by every revision of the archive walk: a model of
 * java.time.YearMonth restricted to what the walk needs (comparison and
 * stepping back one month), plus the inclusive range walked from the latest
 * month down to the earliest.
 */
module Periods {

  /** A month of the year, 1 (January) through 12 (December). */
  type MonthOfYear = m: int | 1 <= m <= 12 witness 1

  /** A year and a month of that year. Years are unbounded here. */
  datatype YearMonth = YearMonth(year: int, month: MonthOfYear)

  /** Number of months since 0000-01 (negative before it): a linear index of periods. */
  function Index(p: YearMonth): int {
    p.year * 12 + p.month - 1
  }

  /** The period with a given linear index. */
  function FromIndex(i: int): (p: YearMonth)
    ensures Index(p) == i
  {
    YearMonth(i / 12, i % 12 + 1)
  }

  /** Distinct periods have distinct indices. */
  lemma IndexInjective(p: YearMonth, q: YearMonth)
    ensures Index(p) == Index(q) <==> p == q
  {
    if Index(p) == Index(q) {
      var d := q.year - p.year;
      assert d * 12 == p.month - q.month;
      assert -12 < d * 12 < 12;
    }
  }

  /** YearMonth.compareTo: the year difference, or the month difference in the same year. */
  function CompareTo(a: YearMonth, b: YearMonth): (r: int)
    ensures r < 0 <==> Index(a) < Index(b)
    ensures r == 0 <==> a == b
    ensures r > 0 <==> Index(a) > Index(b)
  {
    var cmp := a.year - b.year;
    if cmp == 0 then a.month - b.month else cmp
  }

  predicate IsBefore(a: YearMonth, b: YearMonth) {
    CompareTo(a, b) < 0
  }

  predicate IsAfter(a: YearMonth, b: YearMonth) {
    CompareTo(a, b) > 0
  }

  /** YearMonth.minusMonths(1): December of the previous year after January. */
  function MinusOneMonth(p: YearMonth): (q: YearMonth)
    ensures Index(q) == Index(p) - 1
    ensures IsBefore(q, p)
  {
    if p.month == 1 then YearMonth(p.year - 1, 12) else YearMonth(p.year, p.month - 1)
  }

  /** `p` lies in the inclusive range from `first` to `last`. */
  predicate Within(p: YearMonth, first: YearMonth, last: YearMonth) {
    !IsBefore(p, first) && !IsAfter(p, last)
  }

  /** Number of periods in the inclusive range: months between the bounds plus one, or none when inverted. */
  function Span(first: YearMonth, last: YearMonth): nat {
    if IsBefore(last, first) then 0 else Index(last) - Index(first) + 1
  }

  /** Strictly descending by period. */
  predicate Descending(ps: seq<YearMonth>) {
    forall i, j :: 0 <= i < j < |ps| ==> IsAfter(ps[i], ps[j])
  }

  /**
   * The periods from `last` back to `first`, inclusive, one month per step,
   * obtained the way the walks obtain them: by stepping back while the
   * current period is not before `first`.
   */
  function Range(first: YearMonth, last: YearMonth): (r: seq<YearMonth>)
    ensures |r| == Span(first, last)
    ensures forall i :: 0 <= i < |r| ==> Index(r[i]) == Index(last) - i
    decreases Span(first, last)
  {
    if IsBefore(last, first) then [] else [last] + Range(first, MinusOneMonth(last))
  }

  /** A proper range is its latest period followed by the range ending one month earlier. */
  lemma RangeStep(first: YearMonth, last: YearMonth)
    requires !IsBefore(last, first)
    ensures Range(first, last) == [last] + Range(first, MinusOneMonth(last))
    ensures Span(first, last) == Span(first, MinusOneMonth(last)) + 1
  {
  }

  /** The latest period in front of a prefix of the range ending one month earlier is a prefix of the range. */
  lemma RangePrefixStep(first: YearMonth, last: YearMonth, v: seq<YearMonth>)
    requires !IsBefore(last, first)
    requires |v| <= Span(first, MinusOneMonth(last)) && v == Range(first, MinusOneMonth(last))[..|v|]
    ensures |[last] + v| <= Span(first, last) && [last] + v == Range(first, last)[..|v| + 1]
  {
    RangeStep(first, last);
  }

  /** An inverted range is empty; a proper one starts at `last`, ends at `first` and steps back one month at a time. */
  lemma RangeShape(first: YearMonth, last: YearMonth)
    ensures IsBefore(last, first) <==> Range(first, last) == []
    ensures !IsBefore(last, first) ==> Range(first, last)[0] == last
    ensures !IsBefore(last, first) ==> Range(first, last)[|Range(first, last)| - 1] == first
    ensures forall i :: 0 <= i < |Range(first, last)| - 1 ==>
              Range(first, last)[i + 1] == MinusOneMonth(Range(first, last)[i])
    ensures Descending(Range(first, last))
  {
    var r := Range(first, last);
    if !IsBefore(last, first) {
      IndexInjective(r[0], last);
      IndexInjective(r[|r| - 1], first);
    }
    forall i | 0 <= i < |r| - 1
      ensures r[i + 1] == MinusOneMonth(r[i])
    {
      IndexInjective(r[i + 1], MinusOneMonth(r[i]));
    }
  }

  /** A period is in the range exactly when it lies between the bounds. */
  lemma RangeContents(first: YearMonth, last: YearMonth, p: YearMonth)
    ensures p in Range(first, last) <==> Within(p, first, last)
  {
    var r := Range(first, last);
    if Within(p, first, last) {
      var i := Index(last) - Index(p);
      assert 0 <= i < |r|;
      IndexInjective(r[i], p);
    }
  }

  /** A prefix of a descending sequence is descending, and all of it lies in the range. */
  lemma RangePrefix(first: YearMonth, last: YearMonth, n: nat)
    requires n <= Span(first, last)
    ensures Descending(Range(first, last)[..n])
    ensures forall p :: p in Range(first, last)[..n] ==> Within(p, first, last)
  {
    RangeShape(first, last);
    forall p | p in Range(first, last)[..n]
      ensures Within(p, first, last)
    {
      RangeContents(first, last, p);
    }
  }
}
