/** `listObjectsAIS` (ais/proxy.go) in its two locked parts: getting a page, from the caches or from the
    buffer and the targets, and storing it in the caches. What other requests do in between is in the
    runs of `CachedRuns`, whose steps these are. */
module ListObjects {
  import opened Names
  import opened CacheIntervals
  import opened LsobjBuffers
  import opened LsobjCaches
  import opened ListPages
  import opened CachedRuns

  const DEFAULT_PAGE_SIZE: nat := 10000  // apc.DefaultListPageSizeAIS

  /** A page for `token` that leaves the buffer's cursor at `d`: the direct listing from the caches, or
      the buffer's answer. */
  ghost predicate Served(own: seq<Name>, c: Cursor, token: Name, size: nat, d: Cursor, entries: seq<Name>, hit: bool) {
    if hit then entries == Page(own, token, size) && d == c
    else entries == Answer(own, c, token, size) && d == Advance(c, token, entries)
  }

  /** Served so, a request is a look of the runs, and its page is the direct listing if and only if the
      look is safe. */
  lemma ServedIsLook(all: seq<Name>, prefix: Name, p: Proxy, e: Event, d: Cursor, entries: seq<Name>, hit: bool)
    requires Sorted(all) && e.Look? && Enabled(p, e) && CursorOk(Filter(all, prefix), CursorAt(p, e.s))
    requires hit == IsHit(p, prefix, e) && Served(Filter(all, prefix), CursorAt(p, e.s), e.token, e.size, d, entries, hit)
    ensures entries == Reply(all, prefix, p, e) && d == CursorAt(Next(all, prefix, p, e), e.s)
    ensures entries == Page(Filter(all, prefix), e.token, e.size) <==> Safe(all, prefix, p, e)
  {
    FilterSorted(all, prefix);
    AnswerRightIff(Filter(all, prefix), CursorAt(p, e.s), e.token, e.size);
  }

  /** The lookup in the caches; `all` lists the whole bucket. */
  method TryCache(c: LsobjCaches, ghost all: seq<Name>, prefix: Name, token: Name, size: nat, useCache: bool)
    returns (found: seq<Name>, hit: bool)
    requires Sorted(all) && c.ExactFor(all) && size > 0
    ensures hit <==> useCache && Hits(c.Views(), prefix, token, size)
    ensures hit ==> found == Page(Filter(all, prefix), token, size)
  {
    found, hit := [], false;
    if useCache {
      found, hit := c.Get(prefix, token, size, all);
    }
  }

  /** The page of a request, after the lookup: from the buffer and the targets unless it was a hit. `bck`
      is what carries the prefix. A token comes with full pages only. */
  method GetPage(b: LsobjBuffer, bck: Bucket, token: Name, size: nat, found: seq<Name>, hit: bool)
    returns (entries: seq<Name>, next: Name)
    requires bck.Valid() && bck.objs != map[] && b.Valid(bck) && size > 0
    requires hit ==> found == Page(bck.all, token, size)
    modifies b
    ensures b.Valid(bck) && CursorOk(bck.all, CursorOf(b))
    ensures Served(bck.all, old(CursorOf(b)), token, size, CursorOf(b), entries, hit)
    ensures next == if |entries| >= size then Last(entries) else []
  {
    entries := found;
    if !hit {
      var enough;
      entries, enough := ListPage(b, bck, token, size);
    }
    ValidCursor(b, bck);
    next := if |entries| >= size then Last(entries) else [];
  }

  /** Page size zero asks for the default. */
  function PageSize(asked: nat): (n: nat)
    ensures n > 0 && (asked > 0 ==> n == asked)
  {
    if asked == 0 then DEFAULT_PAGE_SIZE else asked
  }

  lemma ValidCursor(b: LsobjBuffer, bck: Bucket)
    requires b.Valid(bck)
    ensures CursorOk(bck.all, CursorOf(b))
  {
  }

  /** Storing a page, whatever page it is, changes the intervals of its prefix and no other. */
  method StorePage(c: LsobjCaches, prefix: Name, token: Name, entries: seq<Name>, size: nat)
    requires c.Valid()
    modifies c, c.caches.Values, c.Intervals()
    ensures c.Valid() && c.Views() == Cached(old(c.Views()), prefix, Interval(token, entries, |entries| < size))
  {
    c.Set(prefix, token, entries, size);
    ViewsAre(c, Cached(old(c.Views()), prefix, Interval(token, entries, |entries| < size)));
  }
}
