/**
  The ordered map behind the listing cache, and the range that
  forget_cached_directory_entries erases from it.
 */
module ListingCache {
  import opened Layers
  import opened Paths
  import opened Listings

  // Byte order of keys.
  predicate Less(a: string, b: string) {
    if b == "" then false
    else a == "" || a[0] < b[0] || (a[0] == b[0] && Less(a[1..], b[1..]))
  }

  datatype Cached = Cached(key: string, listing: Listing)

  predicate Sorted(entries: seq<Cached>) {
    forall i, j | 0 <= i < j < |entries| :: Less(entries[i].key, entries[j].key)
  }

  lemma {:induction false} LessTransitive(a: string, b: string, c: string)
    requires Less(a, b) && Less(b, c)
    ensures Less(a, c)
    decreases |a|
  {
    if a != "" && a[0] == b[0] && b[0] == c[0] { LessTransitive(a[1..], b[1..], c[1..]); }
  }

  lemma {:induction false} Trichotomy(a: string, b: string)
    ensures Less(a, b) || a == b || Less(b, a)
    ensures !(Less(a, b) && (a == b || Less(b, a)))
    decreases |a|
  {
    if a != "" && b != "" {
      Trichotomy(a[1..], b[1..]);
      assert a == [a[0]] + a[1..] && b == [b[0]] + b[1..];
    }
  }

  lemma {:induction false} PrefixIsLeast(prefix: string, k: string)
    requires prefix <= k
    ensures !Less(k, prefix)
    decreases |prefix|
  {
    if prefix != "" {
      assert k[0] == prefix[0] && prefix[1..] <= k[1..];
      PrefixIsLeast(prefix[1..], k[1..]);
    }
  }

  /** Keys that share a prefix are contiguous: past the first one without it there are no more. */
  lemma {:induction false} PrefixRunEnds(prefix: string, k: string, later: string)
    requires !Less(k, prefix) && !(prefix <= k) && Less(k, later)
    ensures !(prefix <= later)
    decreases |prefix|
  {
    if prefix != "" && prefix <= later {
      assert later[0] == prefix[0] && prefix[1..] <= later[1..];
      if k != "" && k[0] == prefix[0] {
        assert prefix == [prefix[0]] + prefix[1..] && k == [k[0]] + k[1..];
        PrefixRunEnds(prefix[1..], k[1..], later[1..]);
      }
    }
  }

  predicate ForgetsKey(relative: string, k: string) {
    k == ParentOf(relative) || k == relative || relative + "/" <= k
  }

  lemma NoLeadingSlash(p: Path)
    requires Clean(p)
    ensures !("/" <= Join(p))
  {
    if p != [] && Join(p) != "" {
      SplitJoin(p);
      SplitAppends("", Join(p)[1..]);
      assert "/" <= Join(p) ==> Join(p) == "" + "/" + Join(p)[1..];
      assert CleanName(p[0]);
    }
  }

  /** On normalised paths these keys are the ones that the engine's model forgets. */
  lemma ForgetsKeyIsForgets(relative: Path, d: Path)
    requires Clean(relative) && Clean(d)
    ensures ForgetsKey(Join(relative), Join(d)) <==> Forgets(relative, d)
  {
    if relative == [] {
      JoinEmpty(d);
      NoLeadingSlash(d);
    } else {
      var n := |relative| - 1;
      assert CleanName(relative[n]) && relative == Child(relative[..n], relative[n]);
      StringsFollowSegments(relative[..n], relative[n]);
      PrefixIsUnder(d, relative);
      if Join(d) == Join(relative) { JoinInjective(d, relative); }
      if Join(d) == Join(relative[..n]) { JoinInjective(d, relative[..n]); }
    }
  }

  // Dropping a run of prefixed keys that starts at the lower bound drops them all.
  lemma RunErased(entries: seq<Cached>, prefix: string, at: nat, n: nat)
    requires Sorted(entries) && at + n <= |entries|
    requires forall i | 0 <= i < at :: Less(entries[i].key, prefix)
    requires forall i | at <= i < |entries| :: !Less(entries[i].key, prefix)
    requires forall i | at <= i < at + n :: prefix <= entries[i].key
    requires at + n < |entries| ==> !(prefix <= entries[at + n].key)
    ensures forall e {:trigger e in entries} ::
      e in entries[..at] + entries[at + n..] <==> e in entries && !(prefix <= e.key)
  {
    forall i | 0 <= i < at ensures !(prefix <= entries[i].key) {
      if prefix <= entries[i].key { PrefixIsLeast(prefix, entries[i].key); }
    }
    forall i | at + n <= i < |entries| ensures !(prefix <= entries[i].key) {
      if i > at + n { PrefixRunEnds(prefix, entries[at + n].key, entries[i].key); }
    }
    forall e ensures e in entries[..at] + entries[at + n..] <==> e in entries && !(prefix <= e.key) {
      assert e in entries <==> e in entries[..at] || e in entries[at..at + n] || e in entries[at + n..];
    }
  }

  class DirectoryEntriesCache {
    var entries: seq<Cached>

    ghost predicate Valid()
      reads this
    {
      Sorted(entries)
    }

    constructor ()
      ensures Valid() && entries == []
    {
      entries := [];
    }

    // std::map::lower_bound: the first entry whose key is not less.
    method LowerBound(key: string) returns (at: nat)
      requires Valid()
      ensures at <= |entries|
      ensures forall i | 0 <= i < at :: Less(entries[i].key, key)
      ensures forall i | at <= i < |entries| :: !Less(entries[i].key, key)
    {
      at := 0;
      while at < |entries| && Less(entries[at].key, key)
        invariant at <= |entries| && forall i | 0 <= i < at :: Less(entries[i].key, key)
      {
        at := at + 1;
      }
      forall i | at <= i < |entries| ensures !Less(entries[i].key, key) {
        if i > at && Less(entries[i].key, key) { LessTransitive(entries[at].key, entries[i].key, key); }
      }
    }

    method EraseAt(at: nat)
      requires Valid() && at < |entries|
      modifies this`entries
      ensures Valid() && entries == old(entries)[..at] + old(entries)[at + 1..]
    {
      entries := entries[..at] + entries[at + 1..];
    }

    method Erase(key: string)
      requires Valid()
      modifies this`entries
      ensures Valid() && forall e {:trigger e in entries} :: e in entries <==> e in old(entries) && e.key != key
    {
      var at := LowerBound(key);
      forall i | 0 <= i < |entries| && entries[i].key == key ensures i == at {
        Trichotomy(key, key);
        if i > at {
          Trichotomy(entries[at].key, key);
        }
      }
      if at < |entries| && entries[at].key == key { EraseAt(at); }
    }

    // The keys that start with the prefix.
    method EraseRun(prefix: string)
      requires Valid()
      modifies this`entries
      ensures Valid() && forall e {:trigger e in entries} :: e in entries <==> e in old(entries) && !(prefix <= e.key)
    {
      ghost var before := entries;
      var at := LowerBound(prefix);
      ghost var erased := 0;
      while at < |entries| && prefix <= entries[at].key
        invariant Valid() && at + erased <= |before|
        invariant entries == before[..at] + before[at + erased..]
        invariant forall i | at <= i < at + erased :: prefix <= before[i].key
        decreases |entries|
      {
        EraseAt(at);
        erased := erased + 1;
      }
      RunErased(before, prefix, at, erased);
    }

    /** Exactly the keys of the parent, the path and everything beneath it are gone. */
    method ForgetCachedDirectoryEntries(relative: string)
      requires Valid()
      modifies this`entries
      ensures Valid() && forall e {:trigger e in entries} ::
        e in entries <==> e in old(entries) && !ForgetsKey(relative, e.key)
    {
      Erase(ParentOf(relative));
      Erase(relative);
      EraseRun(relative + "/");
    }
  }
}
