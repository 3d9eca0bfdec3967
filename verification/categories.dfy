/** The nine cell-type categories `X1`..`X9`, their canonical display order
    and the glyph palette. */
module Categories {
  import opened Seqs

  datatype Category = X1 | X2 | X3 | X4 | X5 | X6 | X7 | X8 | X9

  /** The canonical order `['X1', ..., 'X9']` every chart sorts by. */
  const Order: seq<Category> := [X1, X2, X3, X4, X5, X6, X7, X8, X9]

  /** Position of `c` in `Order` (`sequenceOrder.indexOf(c)`). */
  function Index(c: Category): (i: nat)
    ensures i < |Order| && Order[i] == c
  {
    match c
    case X1 => 0
    case X2 => 1
    case X3 => 2
    case X4 => 3
    case X5 => 4
    case X6 => 5
    case X7 => 6
    case X8 => 7
    case X9 => 8
  }

  lemma IndexOfOrder(i: nat)
    requires i < |Order|
    ensures Index(Order[i]) == i
  {
  }

  /** `officialColors` of the glyph chart: one fill per category. */
  function OfficialColor(c: Category): string {
    match c
    case X1 => "#FFC40C"
    case X2 => "#FF0800"
    case X3 => "#FDEE00"
    case X4 => "#007FFF"
    case X5 => "#32174D"
    case X6 => "#E5E4E2"
    case X7 => "#ED9121"
    case X8 => "#74C365"
    case X9 => "#355E3B"
  }

  /** Per-category values of one spot: the `ratios` or `angles` object. */
  type Ratios = map<Category, real>

  /** `Object.entries(m)` for an object whose keys were inserted in canonical
      order: the present categories, `X1` first. */
  function Entries(m: Ratios): (r: seq<(Category, real)>)
    ensures EntriesSound(m, r, 0)
    ensures forall c :: c in m ==> (c, m[c]) in r
    ensures CanonicallyOrdered(r)
  {
    EntriesFromSpec(m, 0);
    EntriesFrom(m, 0)
  }

  function EntriesFrom(m: Ratios, from: nat): seq<(Category, real)>
    requires from <= |Order|
    decreases |Order| - from
  {
    if from == |Order| then []
    else (if Order[from] in m then [(Order[from], m[Order[from]])] else []) + EntriesFrom(m, from + 1)
  }

  /** Every entry of `r` is a present category at or after position `from`,
      paired with its value. */
  ghost predicate EntriesSound(m: Ratios, r: seq<(Category, real)>, from: nat) {
    forall i :: 0 <= i < |r| ==> r[i].0 in m && r[i].1 == m[r[i].0] && from <= Index(r[i].0)
  }

  /** Keys strictly follow the canonical order along `r`. */
  ghost predicate CanonicallyOrdered(r: seq<(Category, real)>) {
    forall i, j :: 0 <= i < j < |r| ==> Index(r[i].0) < Index(r[j].0)
  }

  lemma EntriesFromSpec(m: Ratios, from: nat)
    requires from <= |Order|
    ensures EntriesSound(m, EntriesFrom(m, from), from)
    ensures forall c :: c in m && from <= Index(c) ==> (c, m[c]) in EntriesFrom(m, from)
    ensures CanonicallyOrdered(EntriesFrom(m, from))
  {
    EntriesFromSound(m, from);
    EntriesFromComplete(m, from);
  }

  lemma {:induction false} EntriesFromSound(m: Ratios, from: nat)
    requires from <= |Order|
    ensures EntriesSound(m, EntriesFrom(m, from), from)
    ensures CanonicallyOrdered(EntriesFrom(m, from))
    decreases |Order| - from
  {
    if from < |Order| {
      EntriesFromSound(m, from + 1);
      var c := Order[from];
      IndexOfOrder(from);
      if c in m {
        EntriesCons(m, from, c, EntriesFrom(m, from + 1), EntriesFrom(m, from));
      }
    }
  }

  lemma {:induction false} EntriesFromComplete(m: Ratios, from: nat)
    requires from <= |Order|
    ensures forall c :: c in m && from <= Index(c) ==> (c, m[c]) in EntriesFrom(m, from)
    decreases |Order| - from
  {
    if from < |Order| {
      EntriesFromComplete(m, from + 1);
      IndexOfOrder(from);
      EntriesComplete(m, from, EntriesFrom(m, from + 1), EntriesFrom(m, from));
    }
  }

  /** The completeness step of `EntriesFromComplete`. */
  lemma EntriesComplete(m: Ratios, from: nat, rest: seq<(Category, real)>, r: seq<(Category, real)>)
    requires from < |Order|
    requires rest == EntriesFrom(m, from + 1) && r == EntriesFrom(m, from)
    requires forall c :: c in m && from + 1 <= Index(c) ==> (c, m[c]) in rest
    ensures forall c :: c in m && from <= Index(c) ==> (c, m[c]) in r
  {
    forall d | d in m && from <= Index(d) ensures (d, m[d]) in r {
      if Index(d) == from {
        assert d == Order[from];
      } else {
        assert (d, m[d]) in rest;
      }
    }
  }

  /** The step of `EntriesFromSound` where `Order[from]` is present. */
  lemma EntriesCons(m: Ratios, from: nat, c: Category, rest: seq<(Category, real)>, r: seq<(Category, real)>)
    requires c in m && Index(c) == from
    requires r == [(c, m[c])] + rest
    requires EntriesSound(m, rest, from + 1) && CanonicallyOrdered(rest)
    ensures EntriesSound(m, r, from) && CanonicallyOrdered(r)
  {
    forall i | 0 <= i < |r| ensures r[i].0 in m && r[i].1 == m[r[i].0] && from <= Index(r[i].0) {
      if i > 0 {
        assert r[i] == rest[i - 1];
      }
    }
    forall i, j | 0 <= i < j < |r| ensures Index(r[i].0) < Index(r[j].0) {
      assert r[j] == rest[j - 1];
      if i > 0 {
        assert r[i] == rest[i - 1];
      }
    }
  }

  /** Entries never repeat a category, so they never repeat a pair. */
  lemma EntriesNoDup(m: Ratios)
    ensures NoDup(Entries(m))
  {
  }
}
