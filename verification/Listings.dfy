/**
  Merged directory listings, and the cache of them.
 */
module Listings {
  import opened Layers
  import opened OverlayLaws

  datatype EntryType = Directory | Regular | Symlink

  // The backing inode number and the type bits; mixing the number is in module InodeMixer.
  datatype DirEntry = DirEntry(number: nat, kind: EntryType)

  type Listing = map<Name, DirEntry>

  function EntryOf(i: Inode): DirEntry {
    DirEntry(i.number, match i.node case Dir(_) => Directory case File(_, _) => Regular case Link(_) => Symlink)
  }

  // The names directly inside d in one layer.
  function Names(l: Layer, d: Path): (names: set<Name>)
    ensures forall n {:trigger n in names} :: n in names <==> Child(d, n) in l
  {
    var names := set p | p in l && p != [] && Parent(p) == d :: p[|p| - 1];
    forall n ensures n in names <==> Child(d, n) in l {
      if Child(d, n) in l { assert Child(d, n)[|Child(d, n)| - 1] == n; }
      if n in names {
        var p :| p in l && p != [] && Parent(p) == d && n == p[|p| - 1];
        assert p == Child(d, n);
      }
    }
    names
  }

  // A name is listed exactly when looking up that child succeeds.
  function ListingOf(o: Overlay, d: Path): Listing {
    map n | n in Names(o.base, d) + Names(o.upper, d) && o.Lookup(Child(d, n)).Some? ::
      EntryOf(o.Lookup(Child(d, n)).value)
  }

  lemma ListedIffVisible(o: Overlay, d: Path, n: Name)
    ensures n in ListingOf(o, d) <==> Child(d, n) in o.View()
  {
    ViewAt(o, Child(d, n));
  }

  // The listing of d holds its visible children, each with its own type and the number of the layer it comes from.
  ghost predicate ListsChildren(o: Overlay, d: Path, listing: Listing) {
    && (forall n {:trigger n in listing} :: n in listing <==> Child(d, n) in o.View())
    && (forall n {:trigger listing[n]} | n in listing ::
          && (listing[n].kind.Directory? <==> o.View()[Child(d, n)].Dir?)
          && (listing[n].kind.Regular? <==> o.View()[Child(d, n)].File?)
          && (listing[n].kind.Symlink? <==> o.View()[Child(d, n)].Link?)
          && (Child(d, n) in o.upper ==> listing[n].number == o.upper[Child(d, n)].number)
          && (Child(d, n) !in o.upper ==> Child(d, n) in o.base && listing[n].number == o.base[Child(d, n)].number))
  }

  /** A listing says of each visible child what looking it up says, and lists nothing else. */
  lemma ListingIsOfChildren(o: Overlay, d: Path)
    ensures ListsChildren(o, d, ListingOf(o, d))
  {
    forall n ensures n in ListingOf(o, d) <==> Child(d, n) in o.View() { ListedIffVisible(o, d, n); }
    forall n | n in ListingOf(o, d)
      ensures Child(d, n) in o.View() && o.View()[Child(d, n)] == o.Lookup(Child(d, n)).value.node
    {
      ListedIffVisible(o, d, n);
      ViewAt(o, Child(d, n));
    }
  }

  /** An empty listing means that nothing at all is visible below. */
  lemma EmptyListing(o: Overlay, d: Path)
    requires o.Sound()
    ensures ListingOf(o, d) == map[] <==> !HasChild(o.View(), d)
  {
    var v := o.View();
    ViewIsTree(o);
    if HasChild(v, d) {
      var q :| q in v && Under(q, d);
      var n := q[|d|];
      assert AtOrUnder(q, Child(d, n));
      if q != Child(d, n) { assert Under(q, Child(d, n)); }
      ListedIffVisible(o, d, n);
      assert n in ListingOf(o, d);
    } else {
      forall n ensures n !in ListingOf(o, d) {
        ListedIffVisible(o, d, n);
        assert Under(Child(d, n), d);
      }
      assert ListingOf(o, d) == map[];
    }
  }

  // ----- the cache -----

  type Cache = map<Path, Listing>

  ghost predicate Coherent(o: Overlay, cache: Cache) {
    forall d {:trigger d in cache} | d in cache :: d in o.View() && o.View()[d].Dir? && cache[d] == ListingOf(o, d)
  }

  // The keys that forget_cached_directory_entries erases: the parent, the path itself and
  // everything beneath it.  Beneath the view root it erases nothing, since no key starts with "/".
  predicate Forgets(relative: Path, d: Path) {
    || d == relative
    || (relative != [] && (d == Parent(relative) || Under(d, relative)))
  }

  function Forgotten(cache: Cache, relative: Path): Cache {
    map d | d in cache && !Forgets(relative, d) :: cache[d]
  }

  lemma ListingUnaffected(o: Overlay, o': Overlay, d: Path)
    requires o'.Lookup(d) == o.Lookup(d)
    requires forall n {:trigger Child(d, n)} :: o'.Lookup(Child(d, n)) == o.Lookup(Child(d, n))
    ensures ListingOf(o', d) == ListingOf(o, d)
    ensures d in o'.View() <==> d in o.View()
    ensures d in o.View() ==> o'.View()[d] == o.View()[d]
  {
    ViewAt(o, d);
    ViewAt(o', d);
    forall n ensures n in ListingOf(o', d) <==> n in ListingOf(o, d)
      ensures n in ListingOf(o, d) ==> ListingOf(o', d)[n] == ListingOf(o, d)[n]
    {
      assert o'.Lookup(Child(d, n)) == o.Lookup(Child(d, n));
      ListedIffVisible(o, d, n);
      ListedIffVisible(o', d, n);
      ViewAt(o, Child(d, n));
      ViewAt(o', Child(d, n));
    }
    assert ListingOf(o', d) == ListingOf(o, d);
  }

  // What remains cached once these two paths are forgotten.
  ghost predicate Avoids(cache: Cache, p: Path) {
    p != [] && forall d | d in cache :: !Forgets(p, d)
  }

  /** A change at and under forgotten paths leaves every cached listing exact. */
  lemma CacheSurvives(o: Overlay, o': Overlay, cache: Cache, p: Path, p2: Path)
    requires Coherent(o, cache) && Avoids(cache, p) && Avoids(cache, p2)
    requires forall q {:trigger o'.Lookup(q)} :: AtOrUnder(q, p) || AtOrUnder(q, p2) || o'.Lookup(q) == o.Lookup(q)
    ensures Coherent(o', cache)
  {
    forall d | d in cache ensures d in o'.View() && o'.View()[d].Dir? && cache[d] == ListingOf(o', d) {
      NotAbove(p, d);
      NotAbove(p2, d);
      forall n ensures o'.Lookup(Child(d, n)) == o.Lookup(Child(d, n)) {
        NotChild(p, d, n);
        NotChild(p2, d, n);
      }
      ListingUnaffected(o, o', d);
    }
  }

  lemma NotAbove(p: Path, d: Path)
    requires p != [] && !Forgets(p, d)
    ensures !AtOrUnder(d, p)
  {
    assert d != p && !Under(d, p);
  }

  lemma NotChild(p: Path, d: Path, n: Name)
    requires p != [] && !Forgets(p, d)
    ensures !AtOrUnder(Child(d, n), p)
  {
    NotAbove(p, d);
  }
}
