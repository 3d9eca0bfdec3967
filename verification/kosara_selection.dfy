/** Which categories a glyph draws and at what angles: the selection half of
    `generateKosaraPath` and the ranking of the glyph tooltip. */
module KosaraSelection {
  import opened Seqs
  import opened Sorting
  import opened Categories
  import opened Visibility

  /** At most this many wedges per glyph (`.slice(0, 6)`). */
  const MaxWedges: nat := 6

  /** Degrees added to every supplied angle before it is drawn. */
  const AnglePadding: real := 8.0

  /** A category competes for a wedge when its ratio is non-zero and its
      checkbox is ticked. */
  function CandidateFilter(status: ShownStatus): ((Category, real)) -> bool {
    (p: (Category, real)) => p.1 != 0.0 && IsShown(status, p.0)
  }

  /** The competing `[key, ratio]` pairs, in canonical order. */
  function Candidates(ratios: Ratios, status: ShownStatus): (r: seq<(Category, real)>)
    ensures NoDup(r)
    ensures forall i :: 0 <= i < |r| ==>
      r[i].0 in ratios && r[i].1 == ratios[r[i].0] && r[i].1 != 0.0 && IsShown(status, r[i].0)
    ensures forall c :: c in ratios && ratios[c] != 0.0 && IsShown(status, c) ==> (c, ratios[c]) in r
  {
    CandidatesSpec(ratios, status);
    Filter(Entries(ratios), CandidateFilter(status))
  }

  lemma CandidatesSpec(ratios: Ratios, status: ShownStatus)
    ensures var r := Filter(Entries(ratios), CandidateFilter(status));
      && NoDup(r)
      && (forall i :: 0 <= i < |r| ==> r[i].0 in ratios && r[i].1 == ratios[r[i].0])
      && (forall c :: c in ratios && ratios[c] != 0.0 && IsShown(status, c) ==> (c, ratios[c]) in r)
  {
    var entries := Entries(ratios);
    EntriesNoDup(ratios);
    FilterNoDup(entries, CandidateFilter(status));
    var r := Filter(entries, CandidateFilter(status));
    forall c | c in ratios && ratios[c] != 0.0 && IsShown(status, c) ensures (c, ratios[c]) in r {
      var j :| 0 <= j < |entries| && entries[j] == (c, ratios[c]);
      assert CandidateFilter(status)(entries[j]);
    }
    forall i | 0 <= i < |r| ensures r[i].0 in ratios && r[i].1 == ratios[r[i].0] {
      var j :| 0 <= j < |entries| && entries[j] == r[i];
    }
  }

  /** Ranking key: larger ratios first (`(a, b) => b[1] - a[1]`). */
  function DescendingRatio(p: (Category, real)): real {
    -p.1
  }

  /** Candidates ranked by decreasing ratio; ties keep canonical order. */
  function Ranked(ratios: Ratios, status: ShownStatus): seq<(Category, real)> {
    SortBy(Candidates(ratios, status), DescendingRatio)
  }

  /** The ranked candidates cut to the first six. */
  function TopSix(ratios: Ratios, status: ShownStatus): (r: seq<(Category, real)>)
    ensures |r| == Min(MaxWedges, |Candidates(ratios, status)|)
    ensures forall i :: 0 <= i < |r| ==> r[i] in Candidates(ratios, status)
  {
    var ranked := Ranked(ratios, status);
    SortByMembers(Candidates(ratios, status), DescendingRatio);
    ranked[..Min(MaxWedges, |ranked|)]
  }

  /** The six (or fewer) kept wedges have the largest ratios: there are as
      many as the cap allows, none repeats, they come in decreasing ratio
      order, no dropped candidate beats a kept one, and when at most six
      compete every one of them is kept. */
  lemma TopSixSelection(ratios: Ratios, status: ShownStatus)
    ensures var top := TopSix(ratios, status);
      && |top| == Min(MaxWedges, |Candidates(ratios, status)|)
      && NoDup(top)
      && (forall i, j :: 0 <= i < j < |top| ==> top[i].1 >= top[j].1)
      && (forall i :: 0 <= i < |top| ==> top[i] in Candidates(ratios, status))
      && (forall p, q :: p in top && q in Candidates(ratios, status) && q !in top ==> q.1 <= p.1)
      && (|Candidates(ratios, status)| <= MaxWedges ==>
            forall q :: q in Candidates(ratios, status) ==> q in top)
      && (forall p, q :: p in top && q in Candidates(ratios, status) && q !in top && q.1 == p.1 ==>
            Index(p.0) < Index(q.0))
  {
    var cands := Candidates(ratios, status);
    var ranked := Ranked(ratios, status);
    var m := Min(MaxWedges, |ranked|);
    assert TopSix(ratios, status) == ranked[..m];
    RankedPrefix(cands, ranked, m);
    CandidatesCanonical(ratios, status);
    RankingStable(cands);
    RankedTies(cands, ranked, m);
  }

  /** Ranking by ratio keeps every class of equal ratios in input order. */
  lemma RankingStable(cands: seq<(Category, real)>)
    ensures forall k :: KeyClass(SortBy(cands, DescendingRatio), DescendingRatio, k) == KeyClass(cands, DescendingRatio, k)
  {
    forall k ensures KeyClass(SortBy(cands, DescendingRatio), DescendingRatio, k) == KeyClass(cands, DescendingRatio, k) {
      SortIsStable(cands, DescendingRatio, k);
    }
  }

  /** The rank of a pair in canonical order. */
  function CategoryRank(p: (Category, real)): int {
    Index(p.0)
  }

  /** Candidates come in canonical order. */
  lemma CandidatesCanonical(ratios: Ratios, status: ShownStatus)
    ensures StrictlyRanked(Candidates(ratios, status), CategoryRank)
  {
    var entries := Entries(ratios);
    assert StrictlyRanked(entries, CategoryRank) by {
      assert CanonicallyOrdered(entries);
    }
    FilterRanked(entries, CandidateFilter(status), CategoryRank);
  }

  /** A ranking that keeps equal ratios in the canonical order of `cands`
      breaks a tie at the cut in favour of the canonically earlier pair. */
  lemma RankedTies(cands: seq<(Category, real)>, ranked: seq<(Category, real)>, m: nat)
    requires multiset(ranked) == multiset(cands) && m <= |ranked|
    requires StrictlyRanked(cands, CategoryRank)
    requires forall k :: KeyClass(ranked, DescendingRatio, k) == KeyClass(cands, DescendingRatio, k)
    ensures forall p, q :: p in ranked[..m] && q in cands && q !in ranked[..m] && q.1 == p.1 ==>
      Index(p.0) < Index(q.0)
  {
    var top := ranked[..m];
    forall p, q | p in top && q in cands && q !in top && q.1 == p.1 ensures Index(p.0) < Index(q.0) {
      var i :| 0 <= i < m && top[i] == p;
      assert q in multiset(ranked);
      var j :| 0 <= j < |ranked| && ranked[j] == q;
      assert i < j;
      assert ranked[i] == p;
      KeyClassRanked(cands, DescendingRatio, CategoryRank, DescendingRatio(p));
      KeyClassRankedPair(ranked, DescendingRatio, CategoryRank, i, j);
    }
  }

  /** The first `m` pairs of a ranking of `cands` by decreasing ratio. */
  lemma RankedPrefix(cands: seq<(Category, real)>, ranked: seq<(Category, real)>, m: nat)
    requires NoDup(cands) && multiset(ranked) == multiset(cands)
    requires SortedBy(ranked, DescendingRatio) && m <= |ranked|
    ensures NoDup(ranked[..m])
    ensures forall i, j :: 0 <= i < j < m ==> ranked[..m][i].1 >= ranked[..m][j].1
    ensures forall i :: 0 <= i < m ==> ranked[..m][i] in cands
    ensures forall p, q :: p in ranked[..m] && q in cands && q !in ranked[..m] ==> q.1 <= p.1
    ensures m == |ranked| ==> forall q :: q in cands ==> q in ranked[..m]
  {
    NoDupPermutation(cands, ranked);
    var top := ranked[..m];
    forall i, j | 0 <= i < j < m ensures top[i].1 >= top[j].1 {
      assert DescendingRatio(ranked[i]) <= DescendingRatio(ranked[j]);
    }
    forall i | 0 <= i < m ensures top[i] in cands {
      assert top[i] in multiset(ranked);
    }
    forall p, q | p in top && q in cands && q !in top ensures q.1 <= p.1 {
      var i :| 0 <= i < m && top[i] == p;
      assert q in multiset(ranked);
      var j :| 0 <= j < |ranked| && ranked[j] == q;
      assert forall k :: 0 <= k < m ==> ranked[k] == top[k];
      assert DescendingRatio(ranked[i]) <= DescendingRatio(ranked[j]);
    }
    if m == |ranked| {
      assert top == ranked;
      forall q | q in cands ensures q in top {
        assert q in multiset(ranked);
      }
    }
  }

  /** Pairs whose categories are pairwise different. */
  ghost predicate DistinctKeys(s: seq<(Category, real)>) {
    forall i, j :: 0 <= i < j < |s| ==> s[i].0 != s[j].0
  }

  /** Pairs read off one map never share a category unless they are equal. */
  lemma MapPairsDistinctKeys(s: seq<(Category, real)>, m: Ratios)
    requires forall i :: 0 <= i < |s| ==> s[i].0 in m && s[i].1 == m[s[i].0]
    requires NoDup(s)
    ensures DistinctKeys(s)
  {
  }

  /** Each kept pair with its supplied angle plus the padding. */
  function Padded(angles: Ratios, top: seq<(Category, real)>): (r: seq<(Category, real)>)
    requires forall i :: 0 <= i < |top| ==> top[i].0 in angles
    ensures |r| == |top|
    ensures forall i :: 0 <= i < |r| ==> r[i] == (top[i].0, angles[top[i].0] + AnglePadding)
  {
    seq(|top|, i requires 0 <= i < |top| => (top[i].0, angles[top[i].0] + AnglePadding))
  }

  /** Re-sort key: position in `X1..X9`. */
  function CanonicalKey(p: (Category, real)): real {
    Index(p.0) as real
  }

  /** The wedges of one glyph: kept categories with padded angles, re-sorted
      into canonical order. */
  function Wedges(angles: Ratios, ratios: Ratios, status: ShownStatus): seq<(Category, real)>
    requires ratios.Keys <= angles.Keys
  {
    var top := TopSix(ratios, status);
    SortBy(Padded(angles, top), CanonicalKey)
  }

  /** The categories of the kept wedges. */
  ghost function KeptCategories(ratios: Ratios, status: ShownStatus): set<Category> {
    KeysOf(TopSix(ratios, status))
  }

  /** `w` lists every category of `kept` once, paired with its padded angle,
      in strictly increasing canonical position. */
  ghost predicate LaidOut(w: seq<(Category, real)>, angles: Ratios, kept: set<Category>) {
    && (forall i :: 0 <= i < |w| ==>
          w[i].0 in kept && w[i].0 in angles && w[i].1 == angles[w[i].0] + AnglePadding)
    && (forall c :: c in kept && c in angles ==> (c, angles[c] + AnglePadding) in w)
    && StrictlySortedBy(w, CanonicalKey)
  }

  /** There is only one way to lay out a set of categories. */
  lemma LaidOutUnique(w1: seq<(Category, real)>, w2: seq<(Category, real)>, angles: Ratios, kept: set<Category>)
    requires LaidOut(w1, angles, kept) && LaidOut(w2, angles, kept)
    ensures w1 == w2
  {
    assert NoDup(w1) by {
      forall i, j | 0 <= i < j < |w1| ensures w1[i] != w1[j] {
        assert CanonicalKey(w1[i]) < CanonicalKey(w1[j]);
      }
    }
    assert NoDup(w2) by {
      forall i, j | 0 <= i < j < |w2| ensures w2[i] != w2[j] {
        assert CanonicalKey(w2[i]) < CanonicalKey(w2[j]);
      }
    }
    forall x ensures x in w1 <==> x in w2 {
      if x in w1 {
        var i :| 0 <= i < |w1| && w1[i] == x;
        assert (x.0, angles[x.0] + AnglePadding) in w2;
      }
      if x in w2 {
        var i :| 0 <= i < |w2| && w2[i] == x;
        assert (x.0, angles[x.0] + AnglePadding) in w1;
      }
    }
    SameElementsSameMultiset(w1, w2);
    StrictlySortedUnique(w1, w2, CanonicalKey);
  }

  /** The categories of a sequence of pairs. */
  ghost function KeysOf(s: seq<(Category, real)>): set<Category> {
    set i | 0 <= i < |s| :: s[i].0
  }

  /** Re-sorting padded pairs with distinct categories by canonical position
      lays those categories out. */
  lemma ResortCanonical(angles: Ratios, top: seq<(Category, real)>)
    requires forall i :: 0 <= i < |top| ==> top[i].0 in angles
    requires DistinctKeys(top)
    ensures LaidOut(SortBy(Padded(angles, top), CanonicalKey), angles, KeysOf(top))
  {
    ResortStrict(Padded(angles, top));
    ResortSound(angles, top);
    ResortComplete(angles, top);
  }

  lemma ResortSound(angles: Ratios, top: seq<(Category, real)>)
    requires forall i :: 0 <= i < |top| ==> top[i].0 in angles
    ensures var w := SortBy(Padded(angles, top), CanonicalKey);
      forall i :: 0 <= i < |w| ==>
        w[i].0 in KeysOf(top) && w[i].0 in angles && w[i].1 == angles[w[i].0] + AnglePadding
  {
    var padded := Padded(angles, top);
    var w := SortBy(padded, CanonicalKey);
    forall i | 0 <= i < |w| ensures w[i].0 in KeysOf(top) && w[i].0 in angles && w[i].1 == angles[w[i].0] + AnglePadding {
      assert w[i] in multiset(padded);
      var k :| 0 <= k < |padded| && padded[k] == w[i];
      assert top[k].0 in KeysOf(top);
    }
  }

  lemma ResortComplete(angles: Ratios, top: seq<(Category, real)>)
    requires forall i :: 0 <= i < |top| ==> top[i].0 in angles
    ensures forall c :: c in KeysOf(top) && c in angles ==>
      (c, angles[c] + AnglePadding) in SortBy(Padded(angles, top), CanonicalKey)
  {
    var padded := Padded(angles, top);
    SortByMembers(padded, CanonicalKey);
    PaddedPairsIn(angles, top, padded, SortBy(padded, CanonicalKey));
  }

  /** A sequence holding every padded pair holds the padded angle of every
      category of `top`. */
  lemma PaddedPairsIn(angles: Ratios, top: seq<(Category, real)>, padded: seq<(Category, real)>, w: seq<(Category, real)>)
    requires forall i :: 0 <= i < |top| ==> top[i].0 in angles
    requires |padded| == |top|
    requires forall i :: 0 <= i < |padded| ==> padded[i] == (top[i].0, angles[top[i].0] + AnglePadding)
    requires forall i :: 0 <= i < |padded| ==> padded[i] in w
    ensures forall c :: c in KeysOf(top) && c in angles ==> (c, angles[c] + AnglePadding) in w
  {
    forall c | c in KeysOf(top) && c in angles ensures (c, angles[c] + AnglePadding) in w {
      var k :| 0 <= k < |top| && top[k].0 == c;
      assert padded[k] in w;
    }
  }

  /** Sorting pairs with distinct categories by canonical position orders
      them strictly. */
  lemma ResortStrict(padded: seq<(Category, real)>)
    requires DistinctKeys(padded)
    ensures StrictlySortedBy(SortBy(padded, CanonicalKey), CanonicalKey)
  {
    var w := SortBy(padded, CanonicalKey);
    SortByMembers(padded, CanonicalKey);
    NoDupPermutation(padded, w);
    forall i, j | 0 <= i < j < |w| ensures CanonicalKey(w[i]) < CanonicalKey(w[j]) {
      var k1 :| 0 <= k1 < |padded| && padded[k1] == w[i];
      var k2 :| 0 <= k2 < |padded| && padded[k2] == w[j];
      assert k1 != k2;
      assert w[i].0 != w[j].0;
      assert Order[Index(w[i].0)] != Order[Index(w[j].0)];
    }
  }

  /** Wedges are exactly the kept categories, once each, with the supplied
      angle plus eight degrees, in strictly increasing canonical position. */
  lemma WedgesCanonical(angles: Ratios, ratios: Ratios, status: ShownStatus)
    requires ratios.Keys <= angles.Keys
    ensures |Wedges(angles, ratios, status)| == |TopSix(ratios, status)|
    ensures LaidOut(Wedges(angles, ratios, status), angles, KeptCategories(ratios, status))
  {
    TopSixDistinctKeys(ratios, status);
    ResortCanonical(angles, TopSix(ratios, status));
  }

  /** No category is kept twice, and every kept one has a ratio. */
  lemma TopSixDistinctKeys(ratios: Ratios, status: ShownStatus)
    ensures DistinctKeys(TopSix(ratios, status))
    ensures forall i :: 0 <= i < |TopSix(ratios, status)| ==> TopSix(ratios, status)[i].0 in ratios
  {
    var top := TopSix(ratios, status);
    TopSixSelection(ratios, status);
    MapPairsDistinctKeys(top, ratios);
  }

  /** Membership test on a fixed set of categories. */
  function InSet(kept: set<Category>): Category -> bool {
    c => c in kept
  }

  /** Walks `order`, keeps the chosen categories and gives each its padded
      angle. */
  function LayoutAlong(order: seq<Category>, angles: Ratios, kept: set<Category>): seq<(Category, real)>
    requires kept <= angles.Keys
  {
    var cs := Filter(order, InSet(kept));
    seq(|cs|, i requires 0 <= i < |cs| => (cs[i], angles[cs[i]] + AnglePadding))
  }

  /** Reference glyph layout: walk `X1..X9`, keep the chosen categories and
      give each its padded angle. */
  function CanonicalLayout(angles: Ratios, kept: set<Category>): seq<(Category, real)>
    requires kept <= angles.Keys
  {
    LayoutAlong(Order, angles, kept)
  }

  /** `order` lists every category once, at its canonical position. */
  ghost predicate IsCanonicalOrder(order: seq<Category>) {
    && (forall i :: 0 <= i < |order| ==> Index(order[i]) == i)
    && (forall c :: Index(c) < |order| && order[Index(c)] == c)
  }

  /** The reference walk lays out exactly the chosen categories. */
  lemma CanonicalLayoutLaidOut(angles: Ratios, kept: set<Category>)
    requires kept <= angles.Keys
    ensures LaidOut(CanonicalLayout(angles, kept), angles, kept)
  {
    forall i | 0 <= i < |Order| ensures Index(Order[i]) == i {
      IndexOfOrder(i);
    }
    LayoutAlongLaidOut(Order, angles, kept);
  }

  lemma LayoutAlongLaidOut(order: seq<Category>, angles: Ratios, kept: set<Category>)
    requires kept <= angles.Keys
    requires IsCanonicalOrder(order)
    ensures LaidOut(LayoutAlong(order, angles, kept), angles, kept)
  {
    LayoutAlongStrict(order, angles, kept);
    LayoutAlongComplete(order, angles, kept);
  }

  /** The walk meets the chosen categories in increasing canonical position. */
  lemma LayoutAlongStrict(order: seq<Category>, angles: Ratios, kept: set<Category>)
    requires kept <= angles.Keys
    requires forall i :: 0 <= i < |order| ==> Index(order[i]) == i
    ensures StrictlySortedBy(LayoutAlong(order, angles, kept), CanonicalKey)
  {
    var r := LayoutAlong(order, angles, kept);
    var idx := FilterPositions(order, InSet(kept));
    forall i, j | 0 <= i < j < |r| ensures CanonicalKey(r[i]) < CanonicalKey(r[j]) {
      assert Index(order[idx[i]]) == idx[i] && Index(order[idx[j]]) == idx[j];
    }
  }

  /** The walk meets every chosen category. */
  lemma LayoutAlongComplete(order: seq<Category>, angles: Ratios, kept: set<Category>)
    requires kept <= angles.Keys
    requires forall c :: Index(c) < |order| && order[Index(c)] == c
    ensures forall c :: c in kept && c in angles ==> (c, angles[c] + AnglePadding) in LayoutAlong(order, angles, kept)
  {
    var cs := Filter(order, InSet(kept));
    var r := LayoutAlong(order, angles, kept);
    forall c | c in kept && c in angles ensures (c, angles[c] + AnglePadding) in r {
      assert InSet(kept)(order[Index(c)]);
      assert c in cs;
      var k :| 0 <= k < |cs| && cs[k] == c;
      assert r[k] == (c, angles[c] + AnglePadding);
    }
  }

  /** The re-sort makes the wedge list a function of the kept set alone: it
      equals the canonical walk over `X1..X9` restricted to that set, however
      the candidates were ranked. */
  lemma WedgesFollowCanonicalOrder(angles: Ratios, ratios: Ratios, status: ShownStatus)
    requires ratios.Keys <= angles.Keys
    ensures KeptCategories(ratios, status) <= angles.Keys
    ensures Wedges(angles, ratios, status) == CanonicalLayout(angles, KeptCategories(ratios, status))
  {
    var kept := KeptCategories(ratios, status);
    var w := Wedges(angles, ratios, status);
    WedgesCanonical(angles, ratios, status);
    assert kept <= angles.Keys by {
      forall c | c in kept ensures c in angles {
        var t := TopSix(ratios, status);
        var k :| 0 <= k < |t| && t[k].0 == c;
        assert t[k] in Candidates(ratios, status);
      }
    }
    CanonicalLayoutLaidOut(angles, kept);
    LaidOutUnique(w, CanonicalLayout(angles, kept), angles, kept);
  }

  /** Tooltip rows keep every non-zero ratio (the hover handler gets the
      entries already stripped of zeros). */
  function NonZero(p: (Category, real)): bool {
    p.1 != 0.0
  }

  /** The rows of the glyph tooltip (`handleKosaraMouseOver`): non-zero
      ratios, six largest, listed in canonical order. */
  function TooltipRows(ratios: Ratios): seq<(Category, real)> {
    var hovered := Filter(Entries(ratios), NonZero);
    var nonZero := Filter(hovered, NonZero);
    var ranked := SortBy(nonZero, DescendingRatio);
    SortBy(ranked[..Min(MaxWedges, |ranked|)], CanonicalKey)
  }

  /** The tooltip lists, with their ratios and in canonical order, exactly the
      categories a glyph would draw with every checkbox ticked. */
  lemma TooltipMatchesAllShownGlyph(ratios: Ratios)
    ensures TooltipRows(ratios) == SortBy(TopSix(ratios, AllShown()), CanonicalKey)
  {
    var entries := Entries(ratios);
    FilterIdempotent(entries, NonZero);
    forall i | 0 <= i < |entries| ensures NonZero(entries[i]) == CandidateFilter(AllShown())(entries[i]) {
      AllShownShowsEvery(entries[i].0);
    }
    FilterExtensional(entries, NonZero, CandidateFilter(AllShown()));
  }
}
