/** The differential-feature heatmap (`differentialFeatureHeatmap.js`): each
    gene row is spread into nine cells, one per cluster. */
module Heatmap {
  import opened Seqs
  import opened ClusterLabels

  /** One row of the differential-feature table: the gene and its log2 fold
      change in each of the nine clusters. */
  datatype Feature = Feature(
    featureName: string,
    cluster1L2FC: real, cluster2L2FC: real, cluster3L2FC: real,
    cluster4L2FC: real, cluster5L2FC: real, cluster6L2FC: real,
    cluster7L2FC: real, cluster8L2FC: real, cluster9L2FC: real)

  const ClusterCount: nat := 9

  /** The fold change of cluster `j + 1`. */
  function FoldChange(f: Feature, j: nat): real
    requires j < ClusterCount
  {
    match j
    case 0 => f.cluster1L2FC
    case 1 => f.cluster2L2FC
    case 2 => f.cluster3L2FC
    case 3 => f.cluster4L2FC
    case 4 => f.cluster5L2FC
    case 5 => f.cluster6L2FC
    case 6 => f.cluster7L2FC
    case 7 => f.cluster8L2FC
    case _ => f.cluster9L2FC
  }

  /** One heatmap cell. */
  datatype HeatCell = HeatCell(cluster: string, gene: string, value: real)

  /** The nine cells the `flatMap` callback returns for one gene. */
  function FeatureCells(f: Feature): seq<HeatCell> {
    [ HeatCell("Cluster 1", f.featureName, f.cluster1L2FC),
      HeatCell("Cluster 2", f.featureName, f.cluster2L2FC),
      HeatCell("Cluster 3", f.featureName, f.cluster3L2FC),
      HeatCell("Cluster 4", f.featureName, f.cluster4L2FC),
      HeatCell("Cluster 5", f.featureName, f.cluster5L2FC),
      HeatCell("Cluster 6", f.featureName, f.cluster6L2FC),
      HeatCell("Cluster 7", f.featureName, f.cluster7L2FC),
      HeatCell("Cluster 8", f.featureName, f.cluster8L2FC),
      HeatCell("Cluster 9", f.featureName, f.cluster9L2FC) ]
  }

  /** Cell `j` of a gene is cluster `j + 1` with that cluster's fold change. */
  lemma FeatureCellsSpec(f: Feature)
    ensures |FeatureCells(f)| == ClusterCount
    ensures forall j :: 0 <= j < ClusterCount ==>
      FeatureCells(f)[j] == HeatCell(ClusterLabel(j + 1), f.featureName, FoldChange(f, j))
  {
    forall j | 0 <= j < ClusterCount
      ensures FeatureCells(f)[j] == HeatCell(ClusterLabel(j + 1), f.featureName, FoldChange(f, j))
    {
      SingleDigitLabel(j + 1);
    }
  }

  /** The label of a one-digit cluster number. */
  lemma SingleDigitLabel(n: nat)
    requires 0 < n < 10
    ensures ClusterLabel(n) == "Cluster " + [DigitChar(n)]
  {
  }

  /** `items.flatMap(feature => [nine cells])`. */
  function FlatMapCells(items: seq<Feature>): (cells: seq<HeatCell>)
    ensures |cells| == ClusterCount * |items|
  {
    if items == [] then [] else FeatureCells(items[0]) + FlatMapCells(items[1..])
  }

  /** Gene-major, cluster-minor: cell `9k + j` is gene `k` in cluster `j + 1`. */
  lemma {:induction false} FlatMapCellsAt(items: seq<Feature>)
    ensures forall k, j :: 0 <= k < |items| && 0 <= j < ClusterCount ==>
      FlatMapCells(items)[ClusterCount * k + j] == HeatCell(ClusterLabel(j + 1), items[k].featureName, FoldChange(items[k], j))
  {
    if items != [] {
      var head := FeatureCells(items[0]);
      var rest := FlatMapCells(items[1..]);
      FeatureCellsSpec(items[0]);
      FlatMapCellsAt(items[1..]);
      forall k, j | 0 <= k < |items| && 0 <= j < ClusterCount
        ensures FlatMapCells(items)[ClusterCount * k + j] == HeatCell(ClusterLabel(j + 1), items[k].featureName, FoldChange(items[k], j))
      {
        if k > 0 {
          assert items[1..][k - 1] == items[k];
          assert (head + rest)[ClusterCount * k + j] == rest[ClusterCount * (k - 1) + j];
        }
      }
    }
  }

  /** The same law read backwards: cell `n` belongs to gene `n / 9` and to
      cluster `n % 9 + 1`. */
  lemma FlatMapCellsInverse(items: seq<Feature>)
    ensures forall n :: 0 <= n < |FlatMapCells(items)| ==>
      FlatMapCells(items)[n] == HeatCell(ClusterLabel(n % ClusterCount + 1), items[n / ClusterCount].featureName,
                                         FoldChange(items[n / ClusterCount], n % ClusterCount))
  {
    FlatMapCellsAt(items);
    forall n | 0 <= n < |FlatMapCells(items)|
      ensures FlatMapCells(items)[n] == HeatCell(ClusterLabel(n % ClusterCount + 1), items[n / ClusterCount].featureName,
                                                 FoldChange(items[n / ClusterCount], n % ClusterCount))
    {
      var k, j := n / ClusterCount, n % ClusterCount;
      assert n == ClusterCount * k + j;
    }
  }

  /** The cells the heatmap draws: none without data. */
  function HeatmapCells(data: Option<seq<Feature>>): (cells: Option<seq<HeatCell>>)
    ensures cells.Some? <==> data.Some?
    ensures cells.Some? ==> |cells.value| == ClusterCount * |data.value|
  {
    match data
    case None => None
    case Some(items) => Some(FlatMapCells(items))
  }

  /** `d3.range(9).map(i => `Cluster ${i + 1}`)`: the heatmap's row domain. */
  function RowDomain(): seq<string> {
    seq(ClusterCount, i requires 0 <= i < ClusterCount => "Cluster " + [DigitChar(i + 1)])
  }

  /** The row domain is the nine cluster labels in ascending order, each once,
      and it holds the row of every drawn cell. */
  lemma RowDomainSpec(items: seq<Feature>)
    ensures |RowDomain()| == ClusterCount && NoDup(RowDomain())
    ensures forall i :: 0 <= i < ClusterCount ==> RowDomain()[i] == ClusterLabel(i + 1)
    ensures forall i :: 0 <= i < ClusterCount ==> ClusterNumber(RowDomain()[i]) == Some(i + 1)
    ensures forall n :: 0 <= n < |FlatMapCells(items)| ==> FlatMapCells(items)[n].cluster in RowDomain()
  {
    var d := RowDomain();
    forall i | 0 <= i < ClusterCount ensures d[i] == ClusterLabel(i + 1) && ClusterNumber(d[i]) == Some(i + 1) {
      SingleDigitLabel(i + 1);
      ClusterLabelNumber(i + 1);
    }
    forall i, j | 0 <= i < j < ClusterCount ensures d[i] != d[j] {
      assert d[i][8] != d[j][8];
    }
    FlatMapCellsInverse(items);
    forall n | 0 <= n < |FlatMapCells(items)| ensures FlatMapCells(items)[n].cluster in d {
      assert FlatMapCells(items)[n].cluster == d[n % ClusterCount];
    }
  }
}
