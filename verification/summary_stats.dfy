/** Box-plot summary statistics (`summary-stats.ts`): sort the data, read
    three quantiles, and put the whiskers 1.5 inter-quartile ranges beyond
    the quartiles. The quantile function is a parameter. */
module SummaryStats {
  import opened Seqs
  import opened Sorting

  /** `d3.quantile(sortedData, p)`; `None` is `undefined` (no data). */
  type Quantile = (seq<real>, real) -> Option<real>

  /** The sort key of the numeric comparator `(a, b) => a - b`. */
  function Itself(x: real): real { x }

  /** The returned object `{min, q1, median, q3, max}`. */
  datatype Stats = Stats(min: real, q1: real, median: Option<real>, q3: real, max: real)

  /** What `getSummaryStats` leaves behind: its argument, now sorted in place,
      and the statistics (`None` when a quartile is undefined, so every field
      but the median would be `NaN`). */
  datatype Summary = Summary(sortedData: seq<real>, stats: Option<Stats>)

  /** The statistics read off already sorted data. */
  function StatsOf(sorted: seq<real>, quantile: Quantile): Option<Stats> {
    match (quantile(sorted, 0.25), quantile(sorted, 0.75))
    case (Some(q1), Some(q3)) =>
      var iqr := q3 - q1;
      Some(Stats(q1 - 1.5 * iqr, q1, quantile(sorted, 0.5), q3, q3 + 1.5 * iqr))
    case _ => None
  }

  function GetSummaryStats(data: seq<real>, quantile: Quantile): (s: Summary)
    ensures multiset(s.sortedData) == multiset(data) && SortedBy(s.sortedData, Itself)
    ensures s.stats.Some? <==> quantile(s.sortedData, 0.25).Some? && quantile(s.sortedData, 0.75).Some?
    ensures s.stats.Some? ==>
      && s.stats.value.q1 == quantile(s.sortedData, 0.25).value
      && s.stats.value.median == quantile(s.sortedData, 0.5)
      && s.stats.value.q3 == quantile(s.sortedData, 0.75).value
  {
    var sorted := SortBy(data, Itself);
    Summary(sorted, StatsOf(sorted, quantile))
  }

  /** The inter-quartile range. */
  function Iqr(s: Stats): real { s.q3 - s.q1 }

  /** The whiskers sit 1.5 ranges outside the quartiles, symmetrically; the
      box-and-whisker span is four ranges; and quartiles in order give
      whiskers outside them. */
  lemma Fences(data: seq<real>, quantile: Quantile)
    requires GetSummaryStats(data, quantile).stats.Some?
    ensures var s := GetSummaryStats(data, quantile).stats.value;
      && s.min == s.q1 - 1.5 * Iqr(s) && s.max == s.q3 + 1.5 * Iqr(s)
      && s.q1 - s.min == s.max - s.q3
      && s.max - s.min == 4.0 * Iqr(s)
      && (s.q1 <= s.q3 ==> s.min <= s.q1 <= s.q3 <= s.max)
      && (s.q1 == s.q3 ==> s.min == s.q1 == s.q3 == s.max)
  {
  }

  /** With the median between the quartiles (as a quantile of sorted data
      is), the five values come out in box-plot order. */
  lemma FiveNumberOrder(data: seq<real>, quantile: Quantile)
    requires GetSummaryStats(data, quantile).stats.Some?
    requires var s := GetSummaryStats(data, quantile).stats.value;
      s.median.Some? && s.q1 <= s.median.value <= s.q3
    ensures var s := GetSummaryStats(data, quantile).stats.value;
      s.min <= s.q1 <= s.median.value <= s.q3 <= s.max
  {
  }

  /** Two ascending sequences of the same numbers are the same sequence. */
  lemma {:induction false} SortedRealsUnique(a: seq<real>, b: seq<real>)
    requires SortedBy(a, Itself) && SortedBy(b, Itself)
    requires multiset(a) == multiset(b)
    ensures a == b
  {
    if a != [] {
      assert |b| == |a| by {
        assert |multiset(a)| == |a| && |multiset(b)| == |b|;
      }
      assert a[0] in multiset(b) && b[0] in multiset(a);
      var i :| 0 <= i < |b| && b[i] == a[0];
      var j :| 0 <= j < |a| && a[j] == b[0];
      assert b[0] <= a[0] && a[0] <= b[0] by {
        assert i > 0 ==> Itself(b[0]) <= Itself(b[i]);
        assert j > 0 ==> Itself(a[0]) <= Itself(a[j]);
      }
      MultisetTails(a, b);
      SortedTail(a);
      SortedTail(b);
      SortedRealsUnique(a[1..], b[1..]);
      assert a == [a[0]] + a[1..] && b == [b[0]] + b[1..];
    }
  }

  /** The tail of an ascending sequence is ascending. */
  lemma SortedTail(a: seq<real>)
    requires a != [] && SortedBy(a, Itself)
    ensures SortedBy(a[1..], Itself)
  {
    forall i, j | 0 <= i < j < |a[1..]| ensures Itself(a[1..][i]) <= Itself(a[1..][j]) {
      assert a[1..][i] == a[i + 1] && a[1..][j] == a[j + 1];
    }
  }

  /** The statistics depend only on the numbers, not on the order they come
      in. */
  lemma OrderIrrelevant(a: seq<real>, b: seq<real>, quantile: Quantile)
    requires multiset(a) == multiset(b)
    ensures GetSummaryStats(a, quantile) == GetSummaryStats(b, quantile)
  {
    SortedRealsUnique(SortBy(a, Itself), SortBy(b, Itself));
  }

  /** Sorting the array again, as a second call on the same (now sorted)
      array does, changes nothing. */
  lemma SecondCallSame(a: seq<real>, quantile: Quantile)
    ensures GetSummaryStats(GetSummaryStats(a, quantile).sortedData, quantile) == GetSummaryStats(a, quantile)
  {
    var s := SortBy(a, Itself);
    SortedRealsUnique(SortBy(s, Itself), s);
  }
}
