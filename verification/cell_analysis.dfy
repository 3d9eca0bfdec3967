/** The two-tab cell-analysis card (`cellAnalysisChart.js`): the tab switch
    and the glyph-visibility flag it drives, the gated cell-type counts, the
    de-duplicated and numerically sorted t-SNE cluster list, and the padded
    t-SNE axis domain. */
module CellAnalysis {
  import opened Seqs
  import opened Sorting
  import opened Categories
  import opened CellCounts
  import opened ClusterLabels

  const CellTypeTab: string := "cellTypeTab"
  const TSNETab: string := "tSNETab"

  /** The tab keys of the card's tab list. */
  predicate IsListedTab(key: string) {
    key == CellTypeTab || key == TSNETab
  }

  /** The state `onChangeTabKey` leaves: the new tab and whether the glyph
      charts are shown. */
  datatype TabState = TabState(tabKey: string, showKosaraCharts: bool)

  /** `onChangeTabKey(newTabKey)`: the t-SNE tab hides the glyph charts, any
      other tab shows them. */
  function OnChangeTabKey(newTabKey: string): (s: TabState)
    ensures s.tabKey == newTabKey
    ensures !s.showKosaraCharts <==> newTabKey == TSNETab
  {
    TabState(newTabKey, newTabKey != TSNETab)
  }

  /** The tab the counts effect switches to from the visibility flag. */
  function SyncedTab(showKosaraCharts: bool): (key: string)
    ensures IsListedTab(key)
    ensures key == TSNETab <==> !showKosaraCharts
  {
    if !showKosaraCharts then TSNETab else CellTypeTab
  }

  /** The tab switch and the effect's re-synchronisation agree: choosing a
      listed tab sets a flag that leads back to that same tab, and every flag
      survives the round trip through its tab. */
  lemma TabFlagRoundTrip(key: string, show: bool)
    ensures IsListedTab(key) ==> SyncedTab(OnChangeTabKey(key).showKosaraCharts) == key
    ensures OnChangeTabKey(SyncedTab(show)).showKosaraCharts == show
  {
  }

  /** What one run of the counts effect does: the tab it asks for (`None` when
      it returns early) and the bars it draws (`None` when it draws none). */
  datatype CountsEffect = CountsEffect(nextTab: Option<string>, counts: Option<seq<nat>>)

  /** The counts effect. An empty or missing selection does nothing. Otherwise
      it requests the tab matching the flag and, if the tab of the CURRENT
      render is the counts tab, draws the nine counts; the requested tab only
      takes effect on the next render. */
  function CountsEffectRun(selected: Option<seq<Ratios>>, showKosaraCharts: bool, tabKey: string): (e: CountsEffect)
    ensures e.nextTab.Some? <==> selected.Some? && |selected.value| > 0
    ensures e.nextTab.Some? ==> e.nextTab.value == SyncedTab(showKosaraCharts)
    ensures e.counts.Some? <==> e.nextTab.Some? && tabKey == CellTypeTab
  {
    if selected.None? || |selected.value| == 0 then CountsEffect(None, None)
    else CountsEffect(Some(SyncedTab(showKosaraCharts)),
                      if tabKey == CellTypeTab then Some(LabelCounts(selected.value)) else None)
  }

  /** The counts this card draws are the ones the cell-type chart draws for
      the same selection. */
  lemma CountsAgreeWithCellTypeChart(selected: Option<seq<Ratios>>, showKosaraCharts: bool)
    ensures CountsEffectRun(selected, showKosaraCharts, CellTypeTab).counts == CellTypeCounts(selected)
  {
  }

  /** After the user picks a listed tab, the next run of the effect requests
      that same tab: the re-synchronisation never undoes the user's choice. */
  lemma EffectKeepsChosenTab(selected: seq<Ratios>, key: string)
    requires IsListedTab(key) && |selected| > 0
    ensures CountsEffectRun(Some(selected), OnChangeTabKey(key).showKosaraCharts, key).nextTab == Some(key)
  {
  }

  /** `a.indexOf(v)`: the first position of `v`, or -1. */
  function IndexOf<T(==)>(a: seq<T>, v: T): (i: int)
    ensures -1 <= i < |a|
    ensures i == -1 <==> v !in a
    ensures i >= 0 ==> a[i] == v && v !in a[..i]
  {
    if a == [] then -1
    else if a[0] == v then 0
    else
      var j := IndexOf(a[1..], v);
      if j == -1 then -1
      else
        assert a[..j + 1] == [a[0]] + a[1..][..j];
        j + 1
  }

  /** The first position of `v` is no later than any position holding it. */
  lemma {:induction false} IndexOfAtMost<T>(a: seq<T>, v: T, i: nat)
    requires i < |a| && a[i] == v
    ensures 0 <= IndexOf(a, v) <= i
  {
    if a[0] != v {
      assert a[1..][i - 1] == v;
      IndexOfAtMost(a[1..], v, i - 1);
    }
  }

  /** Each element's first position, as a sort key. */
  function FirstSeen<T(==)>(a: seq<T>): T -> real {
    x => IndexOf(a, x) as real
  }

  /** The elements at positions `k..` that occur there for the first time. */
  function DedupeFrom<T(==)>(a: seq<T>, k: nat): seq<T>
    requires k <= |a|
    decreases |a| - k
  {
    if k == |a| then []
    else (if IndexOf(a, a[k]) == k then [a[k]] else []) + DedupeFrom(a, k + 1)
  }

  /** `a.filter((v, i, a) => a.indexOf(v) === i)`. */
  function Dedupe<T(==)>(a: seq<T>): seq<T> {
    DedupeFrom(a, 0)
  }

  /** The suffix pass keeps the first occurrences at positions `k..`,
      ordered by first position. */
  lemma {:induction false} DedupeFromSpec<T>(a: seq<T>, k: nat)
    requires k <= |a|
    ensures forall i :: 0 <= i < |DedupeFrom(a, k)| ==> DedupeFrom(a, k)[i] in a && k <= IndexOf(a, DedupeFrom(a, k)[i])
    ensures forall m :: k <= m < |a| && IndexOf(a, a[m]) == m ==> a[m] in DedupeFrom(a, k)
    ensures StrictlySortedBy(DedupeFrom(a, k), FirstSeen(a))
    decreases |a| - k
  {
    if k < |a| {
      DedupeFromSpec(a, k + 1);
      var rest := DedupeFrom(a, k + 1);
      DedupeFromStep(a, k, rest, DedupeFrom(a, k));
      if IndexOf(a, a[k]) == k {
        DedupeFromKeep(a, k);
      }
    }
  }

  /** Membership and first positions after one more step of the suffix pass. */
  lemma DedupeFromStep<T>(a: seq<T>, k: nat, rest: seq<T>, r: seq<T>)
    requires k < |a| && r == (if IndexOf(a, a[k]) == k then [a[k]] else []) + rest
    requires forall i :: 0 <= i < |rest| ==> rest[i] in a && k + 1 <= IndexOf(a, rest[i])
    requires forall m :: k + 1 <= m < |a| && IndexOf(a, a[m]) == m ==> a[m] in rest
    ensures forall i :: 0 <= i < |r| ==> r[i] in a && k <= IndexOf(a, r[i])
    ensures forall m :: k <= m < |a| && IndexOf(a, a[m]) == m ==> a[m] in r
  {
    var head := if IndexOf(a, a[k]) == k then [a[k]] else [];
    forall i | 0 <= i < |r| ensures r[i] in a && k <= IndexOf(a, r[i]) {
      if i < |head| {
        assert r[i] == a[k];
      } else {
        assert r[i] == rest[i - |head|];
      }
    }
    forall m | k <= m < |a| && IndexOf(a, a[m]) == m ensures a[m] in r {
      if m == k {
        assert r[0] == a[k];
      } else {
        var x := a[m];
        assert x in rest;
        var i :| 0 <= i < |rest| && rest[i] == x;
        assert r[i + |head|] == x;
      }
    }
  }

  /** A first occurrence at `k` goes in front of the later ones, all of whose
      first positions lie after `k`. */
  lemma DedupeFromKeep<T>(a: seq<T>, k: nat)
    requires k < |a| && IndexOf(a, a[k]) == k
    requires forall x :: x in DedupeFrom(a, k + 1) ==> k + 1 <= IndexOf(a, x)
    requires StrictlySortedBy(DedupeFrom(a, k + 1), FirstSeen(a))
    ensures StrictlySortedBy(DedupeFrom(a, k), FirstSeen(a))
  {
    var rest := DedupeFrom(a, k + 1);
    var r := [a[k]] + rest;
    assert DedupeFrom(a, k) == r;
    forall i, j | 0 <= i < j < |r| ensures FirstSeen(a)(r[i]) < FirstSeen(a)(r[j]) {
      assert r[j] == rest[j - 1];
      if i > 0 {
        assert r[i] == rest[i - 1];
      }
    }
  }

  /** The cluster list keeps one copy of each label, loses none, and keeps
      them in the order their first copies appear. */
  lemma DedupeSpec<T>(a: seq<T>)
    ensures NoDup(Dedupe(a))
    ensures forall x :: x in Dedupe(a) <==> x in a
    ensures StrictlySortedBy(Dedupe(a), FirstSeen(a))
  {
    DedupeFromSpec(a, 0);
    var r := Dedupe(a);
    forall x | x in a ensures x in r {
      var m := IndexOf(a, x);
      assert IndexOf(a, a[m]) == m;
    }
    forall i, j | 0 <= i < j < |r| ensures r[i] != r[j] {
      assert FirstSeen(a)(r[i]) < FirstSeen(a)(r[j]);
    }
  }

  /** Those three facts pin the result down: any duplicate-free list of the
      same labels in first-occurrence order is the de-duplicated list. */
  lemma DedupeUnique<T>(a: seq<T>, r: seq<T>)
    requires NoDup(r)
    requires forall x :: x in r <==> x in a
    requires StrictlySortedBy(r, FirstSeen(a))
    ensures r == Dedupe(a)
  {
    DedupeSpec(a);
    SameElementsSameMultiset(r, Dedupe(a));
    StrictlySortedUnique(r, Dedupe(a), FirstSeen(a));
  }

  /** A list without repeats passes unchanged; so de-duplicating twice is
      de-duplicating once. */
  lemma DedupeDistinct<T>(a: seq<T>)
    requires NoDup(a)
    ensures Dedupe(a) == a
  {
    forall i | 0 <= i < |a| ensures IndexOf(a, a[i]) == i {
      IndexOfAtMost(a, a[i], i);
    }
    DedupeUnique(a, a);
  }

  lemma DedupeIdempotent<T>(a: seq<T>)
    ensures Dedupe(Dedupe(a)) == Dedupe(a)
  {
    DedupeSpec(a);
    DedupeDistinct(Dedupe(a));
  }

  /** The comparator key `parseInt(a.split(' ')[1])`. */
  function ClusterKey(name: string): real {
    NumberOr(ClusterNumber(name))
  }

  /** The t-SNE cluster list: de-duplicated, then sorted by cluster number
      (the sort is stable). */
  function SortedClusters(clusters: seq<string>): (r: seq<string>)
    ensures |r| == |Dedupe(clusters)|
    ensures multiset(r) == multiset(Dedupe(clusters))
    ensures SortedBy(r, ClusterKey)
  {
    SortBy(Dedupe(clusters), ClusterKey)
  }

  /** The sorted cluster list has each label of the data exactly once. */
  lemma SortedClustersSpec(clusters: seq<string>)
    ensures NoDup(SortedClusters(clusters))
    ensures forall x :: x in SortedClusters(clusters) <==> x in clusters
  {
    var d := Dedupe(clusters);
    var r := SortedClusters(clusters);
    DedupeSpec(clusters);
    NoDupPermutation(d, r);
    SortByMembers(d, ClusterKey);
  }

  /** Labels `"Cluster n"`, one per data point and so repeated as often as
      the data has points in a cluster, come out de-duplicated and in
      strictly ascending order of `n`, however the data lists them. */
  lemma ClusterLabelsSortAscending(ns: seq<nat>, clusters: seq<string>)
    requires |clusters| == |ns|
    requires forall k :: 0 <= k < |ns| ==> clusters[k] == ClusterLabel(ns[k])
    ensures forall i, j :: 0 <= i < j < |SortedClusters(clusters)| ==>
      ClusterKey(SortedClusters(clusters)[i]) < ClusterKey(SortedClusters(clusters)[j])
  {
    var r := SortedClusters(clusters);
    SortedClustersSpec(clusters);
    forall k | 0 <= k < |ns| ensures ClusterKey(clusters[k]) == ns[k] as real {
      ClusterLabelNumber(ns[k]);
    }
    forall i, j | 0 <= i < j < |r| ensures ClusterKey(r[i]) != ClusterKey(r[j]) {
      assert r[i] in r && r[j] in r;
      assert r[i] in clusters && r[j] in clusters;
      var k :| 0 <= k < |clusters| && clusters[k] == r[i];
      var l :| 0 <= l < |clusters| && clusters[l] == r[j];
      assert r[i] != r[j];
      DifferentLabelsDifferentNumbers(ns, clusters, k, l);
    }
    SortedDistinctKeysIsStrict(r, ClusterKey);
  }

  /** Two different labels of the form `"Cluster n"` carry different `n`. */
  lemma DifferentLabelsDifferentNumbers(ns: seq<nat>, clusters: seq<string>, k: nat, l: nat)
    requires |clusters| == |ns| && k < |ns| && l < |ns|
    requires clusters[k] == ClusterLabel(ns[k]) && clusters[l] == ClusterLabel(ns[l])
    requires clusters[k] != clusters[l]
    ensures ns[k] != ns[l]
  {
  }

  /** Smallest and largest value of a non-empty sequence. */
  function SeqMin(xs: seq<real>): (m: real)
    requires |xs| > 0
    ensures m in xs && forall i :: 0 <= i < |xs| ==> m <= xs[i]
  {
    if |xs| == 1 then xs[0]
    else
      var m := SeqMin(xs[1..]);
      assert forall i :: 1 <= i < |xs| ==> xs[i] == xs[1..][i - 1];
      if xs[0] <= m then xs[0] else m
  }

  function SeqMax(xs: seq<real>): (m: real)
    requires |xs| > 0
    ensures m in xs && forall i :: 0 <= i < |xs| ==> xs[i] <= m
  {
    if |xs| == 1 then xs[0]
    else
      var m := SeqMax(xs[1..]);
      assert forall i :: 1 <= i < |xs| ==> xs[i] == xs[1..][i - 1];
      if xs[0] >= m then xs[0] else m
  }

  /** An axis domain. */
  datatype Domain = Domain(lo: real, hi: real)

  /** `d3.extent` widened by 5% of its width on each side; `None` when there
      are no points (the effect returns before drawing). */
  function PaddedDomain(xs: seq<real>): (d: Option<Domain>)
    ensures d.Some? <==> |xs| > 0
    ensures d.Some? ==> forall i :: 0 <= i < |xs| ==> d.value.lo <= xs[i] <= d.value.hi
  {
    if |xs| == 0 then None
    else
      var lo := SeqMin(xs);
      var hi := SeqMax(xs);
      var pad := (hi - lo) * 0.05;
      Some(Domain(lo - pad, hi + pad))
  }

  /** The padded domain has the data's centre and 110% of its width, and
      keeps every point a twentieth of the data width inside each edge. */
  lemma PaddedDomainShape(xs: seq<real>)
    requires |xs| > 0
    ensures var d := PaddedDomain(xs).value;
      && (d.lo + d.hi) / 2.0 == (SeqMin(xs) + SeqMax(xs)) / 2.0
      && d.hi - d.lo == (SeqMax(xs) - SeqMin(xs)) * 1.1
      && forall i :: 0 <= i < |xs| ==>
           d.lo + (SeqMax(xs) - SeqMin(xs)) * 0.05 <= xs[i] <= d.hi - (SeqMax(xs) - SeqMin(xs)) * 0.05
  {
  }
}
