/**
  Merging the listings of two layers into what is visible.
 */
module Merging {
  import opened Layers
  import opened Listings

  lemma UnhiddenChild(tombs: set<Path>, d: Path, n: Name)
    ensures Unhidden(tombs, Child(d, n)) <==> Unhidden(tombs, d) && Child(d, n) !in tombs
  {
    forall t | AtOrUnder(Child(d, n), t) ensures t == Child(d, n) || AtOrUnder(d, t) {
      if t != Child(d, n) { assert t == Child(d, n)[..|t|] == d[..|t|]; }
    }
    assert AtOrUnder(Child(d, n), Child(d, n));
    forall t | AtOrUnder(d, t) ensures AtOrUnder(Child(d, n), t) {
      UnderTransitive(Child(d, n), d, t);
    }
  }

  lemma AboveParent(p: Path, t: Path)
    requires p != [] && t != p && AtOrUnder(p, t)
    ensures AtOrUnder(Parent(p), t)
  {
  }

  ghost predicate MergedFrom(layer: Layer, d: Path, filter: set<Path>, entries: Listing, merged: Listing) {
    && (forall n {:trigger n in merged} ::
        n in merged <==> n in entries || (Child(d, n) in layer && Child(d, n) !in filter))
    && (forall n {:trigger merged[n]} | n in merged ::
          merged[n] == if Child(d, n) in layer && Child(d, n) !in filter then EntryOf(layer[Child(d, n)])
            else entries[n])
  }

  // ... but for the names still to do.
  ghost predicate MergedBut(layer: Layer, d: Path, filter: set<Path>, entries: Listing, todo: set<Name>,
                            merged: Listing) {
    && todo <= Names(layer, d)
    && (forall n {:trigger n in merged} ::
        n in merged <==> n in entries || (Child(d, n) in layer && n !in todo && Child(d, n) !in filter))
    && (forall n {:trigger merged[n]} | n in merged ::
          merged[n] == if Child(d, n) in layer && n !in todo && Child(d, n) !in filter then EntryOf(layer[Child(d, n)])
            else entries[n])
  }

  lemma NoneMerged(layer: Layer, d: Path, filter: set<Path>, entries: Listing)
    ensures MergedBut(layer, d, filter, entries, Names(layer, d), entries)
  {
  }

  lemma OneMerged(layer: Layer, d: Path, filter: set<Path>, entries: Listing, todo: set<Name>, merged: Listing, n: Name)
    requires MergedBut(layer, d, filter, entries, todo, merged) && n in todo
    ensures Child(d, n) in layer
    ensures MergedBut(layer, d, filter, entries, todo - {n}, if Child(d, n) in filter then merged
                      else merged[n := EntryOf(layer[Child(d, n)])])
  {
    hide Child, EntryOf, Names;
    var rest := todo - {n};
    var more := if Child(d, n) in filter then merged else merged[n := EntryOf(layer[Child(d, n)])];
    forall m ensures m in more <==> m in entries || (Child(d, m) in layer && m !in rest && Child(d, m) !in filter) {
      assert m in rest <==> m in todo && m != n;
    }
    forall m | m in more
      ensures more[m] == if Child(d, m) in layer && m !in rest && Child(d, m) !in filter
        then EntryOf(layer[Child(d, m)]) else entries[m]
    {
      assert m in rest <==> m in todo && m != n;
    }
  }

  lemma AllMerged(layer: Layer, d: Path, filter: set<Path>, entries: Listing, merged: Listing)
    requires MergedBut(layer, d, filter, entries, {}, merged)
    ensures MergedFrom(layer, d, filter, entries, merged)
  {
  }

  lemma NoEntries(layer: Layer, d: Path)
    requires WellFormed(layer) && (d !in layer || !layer[d].node.Dir?)
    ensures forall n :: Child(d, n) !in layer
  {
    forall n ensures Child(d, n) !in layer {
      assert Under(Child(d, n), d);
    }
  }

  lemma MergedIsListing(o: Overlay, d: Path, lower: Listing, merged: Listing)
    requires if Unhidden(o.tombs, d) then MergedFrom(o.base, d, o.tombs, map[], lower) else lower == map[]
    requires MergedFrom(o.upper, d, {}, lower, merged)
    ensures merged == ListingOf(o, d)
  {
    forall n ensures n in merged <==> n in ListingOf(o, d)
      ensures n in merged ==> merged[n] == ListingOf(o, d)[n]
    {
      UnhiddenChild(o.tombs, d, n);
      ListedIffVisible(o, d, n);
      ViewAt(o, Child(d, n));
    }
  }
}
