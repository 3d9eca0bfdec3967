/** The cell-type bar chart: for each of the nine cell types, how many of the
    selected spots contain it (`cellTypeChart.js`, and the same counts in the
    first tab of `cellAnalysisChart.js`). */
module CellCounts {
  import opened Seqs
  import opened Categories

  /** `item.ratios[label] > 0`: a missing key reads as `undefined`, which is
      not greater than 0. */
  predicate Positive(ratios: Ratios, c: Category) {
    c in ratios && ratios[c] > 0.0
  }

  /** `items.reduce((count, item) => count + (item.ratios[label] > 0 ? 1 : 0), 0)`. */
  function Count(items: seq<Ratios>, c: Category): (n: nat)
    ensures n <= |items|
  {
    if items == [] then 0
    else Count(items[..|items| - 1], c) + (if Positive(items[|items| - 1], c) then 1 else 0)
  }

  /** The positions of the spots that contain `c`. */
  function Containing(items: seq<Ratios>, c: Category): set<nat> {
    set i: nat | i < |items| && Positive(items[i], c)
  }

  /** The count is the number of spots that contain the type. */
  lemma {:induction false} CountIsCardinality(items: seq<Ratios>, c: Category)
    ensures Count(items, c) == |Containing(items, c)|
  {
    if items != [] {
      var n := |items| - 1;
      var front := items[..n];
      CountIsCardinality(front, c);
      var before := Containing(front, c);
      assert n !in before;
      if Positive(items[n], c) {
        assert Containing(items, c) == before + {n};
      } else {
        assert Containing(items, c) == before;
      }
    }
  }

  /** Counting over two batches of spots is counting over each. */
  lemma {:induction false} CountAppend(a: seq<Ratios>, b: seq<Ratios>, c: Category)
    ensures Count(a + b, c) == Count(a, c) + Count(b, c)
    decreases |b|
  {
    if b == [] {
      assert a + b == a;
    } else {
      var n := |b| - 1;
      assert (a + b)[..|a + b| - 1] == a + b[..n];
      CountAppend(a, b[..n], c);
    }
  }

  /** The count reaches the number of spots exactly when every spot contains
      the type, and is zero exactly when none does. */
  lemma {:induction false} CountExtremes(items: seq<Ratios>, c: Category)
    ensures Count(items, c) == |items| <==> forall i :: 0 <= i < |items| ==> Positive(items[i], c)
    ensures Count(items, c) == 0 <==> forall i :: 0 <= i < |items| ==> !Positive(items[i], c)
  {
    if items != [] {
      var n := |items| - 1;
      CountExtremes(items[..n], c);
      assert forall i :: 0 <= i < n ==> items[..n][i] == items[i];
    }
  }

  /** `labels.map(label => count)`: one count per type, in canonical order. */
  function LabelCounts(items: seq<Ratios>): (counts: seq<nat>)
    ensures |counts| == |Order|
    ensures forall i :: 0 <= i < |counts| ==> counts[i] == |Containing(items, Order[i])| <= |items|
  {
    var counts := seq(|Order|, i requires 0 <= i < |Order| => Count(items, Order[i]));
    assert forall i :: 0 <= i < |Order| ==> counts[i] == Count(items, Order[i]);
    forall i | 0 <= i < |Order| ensures counts[i] == |Containing(items, Order[i])| {
      CountIsCardinality(items, Order[i]);
    }
    counts
  }

  /** The bar chart of `cellTypeChart.js`: nothing when `selectedData` is
      missing or empty, the nine counts otherwise. */
  function CellTypeCounts(selected: Option<seq<Ratios>>): (counts: Option<seq<nat>>)
    ensures counts.Some? <==> selected.Some? && |selected.value| > 0
    ensures counts.Some? ==> counts.value == LabelCounts(selected.value)
  {
    if selected.None? || |selected.value| == 0 then None else Some(LabelCounts(selected.value))
  }

  /** A type that a spot's ratios leave out (because it was switched off)
      adds nothing to that type's bar. */
  lemma MissingKeyCountsZero(items: seq<Ratios>, c: Category)
    requires forall i :: 0 <= i < |items| ==> c !in items[i]
    ensures Count(items, c) == 0
  {
    CountExtremes(items, c);
  }
}
