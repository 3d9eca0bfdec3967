/** The cluster colour legend (`clusterLegend.js`): the ordinal scale's
    domain sorted by the number its digits spell, one swatch per cluster. */
module ClusterLegend {
  import opened Seqs
  import opened Sorting
  import opened ClusterLabels
  import CellAnalysis

  /** The comparator key `parseInt(a.replace(/[^\d]/g, ''), 10)`. */
  function LegendKey(name: string): real {
    NumberOr(DigitsNumber(name))
  }

  /** `scale.domain().sort(...)`: stable, ascending by the digits' number. */
  function SortedDomain(domain: seq<string>): (r: seq<string>)
    ensures multiset(r) == multiset(domain)
    ensures SortedBy(r, LegendKey)
  {
    SortBy(domain, LegendKey)
  }

  /** The sorted domain holds each cluster of a duplicate-free domain once. */
  lemma SortedDomainSpec(domain: seq<string>)
    requires NoDup(domain)
    ensures NoDup(SortedDomain(domain))
    ensures forall x :: x in SortedDomain(domain) <==> x in domain
  {
    NoDupPermutation(domain, SortedDomain(domain));
    SortByMembers(domain, LegendKey);
  }

  /** One swatch: the cluster's name and its colour in the scale. */
  datatype Swatch = Swatch(cluster: string, color: string)

  /** `clusters.map(cluster => <swatch>)`, with the scale as a function. */
  function LegendEntries(domain: seq<string>, scale: string -> string): (entries: seq<Swatch>)
    ensures |entries| == |domain|
    ensures forall k :: 0 <= k < |entries| ==> entries[k].cluster == SortedDomain(domain)[k]
    ensures forall k :: 0 <= k < |entries| ==> entries[k].color == scale(entries[k].cluster)
  {
    var sorted := SortedDomain(domain);
    seq(|sorted|, k requires 0 <= k < |sorted| => Swatch(sorted[k], scale(sorted[k])))
  }

  /** The legend shows every cluster of the domain once, in ascending order
      of the number in its name. */
  lemma LegendEntriesSpec(domain: seq<string>, scale: string -> string)
    requires NoDup(domain)
    ensures var entries := LegendEntries(domain, scale);
      && (forall x :: x in domain <==> exists k :: 0 <= k < |entries| && entries[k].cluster == x)
      && (forall i, j :: 0 <= i < j < |entries| ==>
            entries[i].cluster != entries[j].cluster && LegendKey(entries[i].cluster) <= LegendKey(entries[j].cluster))
  {
    var sorted := SortedDomain(domain);
    var entries := LegendEntries(domain, scale);
    SortedDomainSpec(domain);
    forall x | x in domain ensures exists k :: 0 <= k < |entries| && entries[k].cluster == x {
      var k :| 0 <= k < |sorted| && sorted[k] == x;
      assert entries[k].cluster == x;
    }
  }

  /** The legend agrees with the chart: when the per-point clusters are
      `"Cluster n"` labels (repeats allowed), sorting the chart's already
      sorted, de-duplicated domain by all-digits number leaves it as it is. */
  lemma LegendKeepsChartOrder(ns: seq<nat>, clusters: seq<string>)
    requires |clusters| == |ns|
    requires forall k :: 0 <= k < |ns| ==> clusters[k] == ClusterLabel(ns[k])
    ensures SortedDomain(CellAnalysis.SortedClusters(clusters)) == CellAnalysis.SortedClusters(clusters)
  {
    var d := CellAnalysis.SortedClusters(clusters);
    var r := SortedDomain(d);
    CellAnalysis.SortedClustersSpec(clusters);
    CellAnalysis.ClusterLabelsSortAscending(ns, clusters);
    forall k | 0 <= k < |ns| ensures LegendKey(clusters[k]) == CellAnalysis.ClusterKey(clusters[k]) {
      ClusterLabelNumber(ns[k]);
    }
    forall x | x in d ensures LegendKey(x) == CellAnalysis.ClusterKey(x) {
      assert x in clusters;
      var k :| 0 <= k < |clusters| && clusters[k] == x;
    }
    assert StrictlySortedBy(d, LegendKey) by {
      forall i, j | 0 <= i < j < |d| ensures LegendKey(d[i]) < LegendKey(d[j]) {
        assert d[i] in d && d[j] in d;
      }
    }
    DistinctKeysSorted(d, r);
    StrictlySortedUnique(r, d, LegendKey);
  }

  /** A permutation of a sequence with distinct keys, sorted, is strictly
      sorted. */
  lemma DistinctKeysSorted(d: seq<string>, r: seq<string>)
    requires StrictlySortedBy(d, LegendKey)
    requires multiset(r) == multiset(d) && SortedBy(r, LegendKey)
    ensures StrictlySortedBy(r, LegendKey)
  {
    assert NoDup(d);
    NoDupPermutation(d, r);
    forall i, j | 0 <= i < j < |r| ensures LegendKey(r[i]) != LegendKey(r[j]) {
      assert r[i] in multiset(d) && r[j] in multiset(d);
      var p :| 0 <= p < |d| && d[p] == r[i];
      var q :| 0 <= q < |d| && d[q] == r[j];
      assert p != q;
    }
    SortedDistinctKeysIsStrict(r, LegendKey);
  }
}
