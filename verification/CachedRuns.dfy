/** Requests of many clients through buffers and caches (ais/proxy.go, `listObjectsAIS`), over runs. */
module CachedRuns {
  import opened Names
  import opened CacheIntervals
  import opened LsobjBuffers
  import opened LsobjCaches
  import opened ListPages

  /** A listing session (lsmsg.UUID) has a buffer of its own; the caches are shared. */
  type Session = string

  /** A request looks into the caches, or else gets its page from the buffer and the targets; later, and
      in another locked section, it stores that page. Other requests can come in between. */
  datatype Event = Look(s: Session, token: Name, size: nat, useCache: bool) | Store(s: Session)

  /** `pending`: pages that wait to be stored. */
  datatype Proxy = Proxy(cursors: map<Session, Cursor>, views: Views, pending: map<Session, Interval>)

  function CursorAt(p: Proxy, s: Session): Cursor {
    if s in p.cursors then p.cursors[s] else Cursor([], [])
  }

  // ---------------------------------------------------------------- one step

  /** A session has one request at a time. */
  predicate Enabled(p: Proxy, e: Event) {
    if e.Look? then e.s !in p.pending && e.size > 0 else e.s in p.pending
  }

  ghost predicate IsHit(p: Proxy, prefix: Name, e: Event) {
    e.Look? && e.useCache && Hits(p.views, prefix, e.token, e.size)
  }

  ghost function Reply(all: seq<Name>, prefix: Name, p: Proxy, e: Event): seq<Name>
    requires e.Look?
  {
    if IsHit(p, prefix, e) then Page(Filter(all, prefix), e.token, e.size)
    else Answer(Filter(all, prefix), CursorAt(p, e.s), e.token, e.size)
  }

  /** A hit changes nothing, not even the buffer's cursor. */
  ghost function Next(all: seq<Name>, prefix: Name, p: Proxy, e: Event): Proxy
    requires Enabled(p, e)
  {
    if IsHit(p, prefix, e) then p
    else if e.Look? then
      var page := Reply(all, prefix, p, e);
      Proxy(p.cursors[e.s := Advance(CursorAt(p, e.s), e.token, page)], p.views,
            if e.useCache then p.pending[e.s := Interval(e.token, page, |page| < e.size)] else p.pending)
    else Proxy(p.cursors, Cached(p.views, prefix, p.pending[e.s]), p.pending - {e.s})
  }

  /** The reply, if any, is the direct listing, and the caches are exact afterwards. */
  ghost predicate Right(all: seq<Name>, prefix: Name, p: Proxy, e: Event)
    requires Enabled(p, e)
  {
    && (e.Look? ==> Reply(all, prefix, p, e) == Page(Filter(all, prefix), e.token, e.size))
    && ViewsExact(all, Next(all, prefix, p, e).views)
  }

  /** The buffer has skipped names that follow the token. */
  ghost predicate Loses(all: seq<Name>, prefix: Name, p: Proxy, e: Event)
    requires e.Look?
  {
    Skipped(CursorAt(p, e.s), e.token) && exists x :: x in Filter(all, prefix) && Less(e.token, x)
  }

  /** The pending page joins two of the intervals that it meets backwards. */
  ghost predicate Tangles(all: seq<Name>, prefix: Name, p: Proxy, e: Event)
    requires Enabled(p, e) && e.Store?
  {
    prefix in p.views && JoinsBackwards(Filter(all, prefix), p.views[prefix], p.pending[e.s])
  }

  ghost predicate Safe(all: seq<Name>, prefix: Name, p: Proxy, e: Event)
    requires Enabled(p, e)
  {
    if e.Look? then IsHit(p, prefix, e) || !Loses(all, prefix, p, e) else !Tangles(all, prefix, p, e)
  }

  lemma CachedExactIff(all: seq<Name>, views: Views, prefix: Name, page: Interval)
    requires Sorted(all) && ViewsExact(all, views)
    ensures ViewsExact(all, Cached(views, prefix, page)) <==>
              AllExact(Filter(all, prefix), CacheIntervals.Set(if prefix in views then views[prefix] else [], page))
  {
    assert prefix in Cached(views, prefix, page);
  }

  /** Caching an empty page that should not be empty never leaves the intervals exact. */
  lemma EmptyPageIsWrong(all: seq<Name>, ivs: seq<Interval>, t: Name)
    requires Sorted(all) && AllExact(all, ivs) && After(all, t) < |all|
    ensures !AllExact(all, CacheIntervals.Set(ivs, Interval(t, [], true)))
  {
    var cur := Interval(t, [], true);
    var start := FindInterval(ivs, t);
    var after := CacheIntervals.Set(ivs, cur);
    if start == |ivs| {
      assert after[|ivs|] == cur;
    } else {
      ContainsIff(all, ivs[start], t);
      FindIs(all, ivs[start], t);
      assert after[start] == CacheIntervals.Append(ivs[start], cur);
      assert Hi(all, after[start]) == After(all, t);
    }
  }

  /** A page that is shorter than asked for, and not the direct listing, makes a wrong interval. */
  lemma TruncatedPageIsWrong(own: seq<Name>, token: Name, page: seq<Name>, size: nat)
    requires |page| < size && page != Page(own, token, size)
    ensures !Exact(own, Interval(token, page, true))
  {
  }

  /** Where its prefix has no cache yet, such a page is cached as it is, for everybody. */
  lemma TruncatedPageIsCached(all: seq<Name>, views: Views, prefix: Name, token: Name, page: seq<Name>, size: nat)
    requires prefix !in views && |page| < size && page != Page(Filter(all, prefix), token, size)
    ensures !ViewsExact(all, Cached(views, prefix, Interval(token, page, true)))
  {
    TruncatedPageIsWrong(Filter(all, prefix), token, page, size);
    var cur := Interval(token, page, true);
    assert CacheIntervals.Set([], cur) == [cur];
    assert Cached(views, prefix, cur)[prefix] == [cur];
    assert !Exact(Filter(all, prefix), [cur][0]);
  }

  // ---------------------------------------------------------------- runs

  /** Every session lists one prefix. */
  function PrefixOf(prefixes: map<Session, Name>, s: Session): Name {
    if s in prefixes then prefixes[s] else []
  }

  ghost predicate IsRun(all: seq<Name>, prefixes: map<Session, Name>, p: Proxy, events: seq<Event>)
    decreases |events|
  {
    events == [] ||
    (Enabled(p, events[0]) && IsRun(all, prefixes, Next(all, PrefixOf(prefixes, events[0].s), p, events[0]), events[1..]))
  }

  ghost predicate AllRight(all: seq<Name>, prefixes: map<Session, Name>, p: Proxy, events: seq<Event>)
    requires IsRun(all, prefixes, p, events)
    decreases |events|
  {
    events == [] ||
    (var prefix := PrefixOf(prefixes, events[0].s);
     Right(all, prefix, p, events[0]) && AllRight(all, prefixes, Next(all, prefix, p, events[0]), events[1..]))
  }

  ghost predicate AllSafe(all: seq<Name>, prefixes: map<Session, Name>, p: Proxy, events: seq<Event>)
    requires IsRun(all, prefixes, p, events)
    decreases |events|
  {
    events == [] ||
    (var prefix := PrefixOf(prefixes, events[0].s);
     Safe(all, prefix, p, events[0]) && AllSafe(all, prefixes, Next(all, prefix, p, events[0]), events[1..]))
  }

  ghost predicate CursorsOk(all: seq<Name>, prefixes: map<Session, Name>, p: Proxy) {
    forall s :: CursorOk(Filter(all, PrefixOf(prefixes, s)), CursorAt(p, s))
  }

  ghost predicate PendingExact(all: seq<Name>, prefixes: map<Session, Name>, p: Proxy) {
    forall s :: s in p.pending ==> Exact(Filter(all, PrefixOf(prefixes, s)), p.pending[s])
  }

  ghost predicate Sound(all: seq<Name>, prefixes: map<Session, Name>, p: Proxy) {
    ViewsExact(all, p.views) && CursorsOk(all, prefixes, p) && PendingExact(all, prefixes, p)
  }

  /** A look is right if and only if it is a hit or the buffer has not skipped what follows; a store
      leaves the caches exact if and only if it does not join intervals backwards. */
  lemma StepRightIff(all: seq<Name>, prefixes: map<Session, Name>, p: Proxy, e: Event)
    requires Sorted(all) && Sound(all, prefixes, p) && Enabled(p, e)
    ensures Right(all, PrefixOf(prefixes, e.s), p, e) <==> Safe(all, PrefixOf(prefixes, e.s), p, e)
  {
    var prefix := PrefixOf(prefixes, e.s);
    var own := Filter(all, prefix);
    FilterSorted(all, prefix);
    if e.Look? {
      assert CursorOk(own, CursorAt(p, e.s));
      AnswerRightIff(own, CursorAt(p, e.s), e.token, e.size);
    } else {
      assert Exact(own, p.pending[e.s]);
      CachedExactIff(all, p.views, prefix, p.pending[e.s]);
      SetKeepsExactIff(own, if prefix in p.views then p.views[prefix] else [], p.pending[e.s]);
    }
  }

  lemma NextCursorsOk(all: seq<Name>, prefixes: map<Session, Name>, p: Proxy, e: Event)
    requires Sorted(all) && Enabled(p, e) && CursorsOk(all, prefixes, p)
    ensures CursorsOk(all, prefixes, Next(all, PrefixOf(prefixes, e.s), p, e))
  {
    var prefix := PrefixOf(prefixes, e.s);
    var q := Next(all, prefix, p, e);
    if e.Look? {
      FilterSorted(all, prefix);
      assert CursorOk(Filter(all, prefix), CursorAt(p, e.s));
      AdvanceOk(Filter(all, prefix), CursorAt(p, e.s), e.token, e.size);
    }
    forall s ensures CursorOk(Filter(all, PrefixOf(prefixes, s)), CursorAt(q, s)) {
      assert CursorOk(Filter(all, PrefixOf(prefixes, s)), CursorAt(p, s));
    }
  }

  lemma NextSound(all: seq<Name>, prefixes: map<Session, Name>, p: Proxy, e: Event)
    requires Sorted(all) && Sound(all, prefixes, p) && Enabled(p, e) && Right(all, PrefixOf(prefixes, e.s), p, e)
    ensures Sound(all, prefixes, Next(all, PrefixOf(prefixes, e.s), p, e))
  {
    NextCursorsOk(all, prefixes, p, e);
    if e.Look? {
      TruePageIsExact(Filter(all, PrefixOf(prefixes, e.s)), e.token, e.size);
    }
  }

  /** In every run of requests from any clients, overlapping as they may: all replies are right and all
      caches exact at all times if and only if every look, when it comes, is a hit or does not lose,
      and no store joins backwards two of the intervals that it meets. */
  lemma {:induction false} AllRightIff(all: seq<Name>, prefixes: map<Session, Name>, p: Proxy, events: seq<Event>)
    requires Sorted(all) && Sound(all, prefixes, p) && IsRun(all, prefixes, p, events)
    ensures AllRight(all, prefixes, p, events) <==> AllSafe(all, prefixes, p, events)
    decreases |events|
  {
    if events != [] {
      StepRightIff(all, prefixes, p, events[0]);
      if Right(all, PrefixOf(prefixes, events[0].s), p, events[0]) {
        NextSound(all, prefixes, p, events[0]);
        AllRightIff(all, prefixes, Next(all, PrefixOf(prefixes, events[0].s), p, events[0]), events[1..]);
      }
    }
  }

  /** The state after a run. */
  ghost function RunEnd(all: seq<Name>, prefixes: map<Session, Name>, p: Proxy, events: seq<Event>): Proxy
    requires IsRun(all, prefixes, p, events)
    decreases |events|
  {
    if events == [] then p
    else RunEnd(all, prefixes, Next(all, PrefixOf(prefixes, events[0].s), p, events[0]), events[1..])
  }

  /** Requests that do not use the cache neither hit nor store anything: over every run of them, the caches
      stay as they were, and no page waits to be stored. */
  lemma {:induction false} WithoutCache(all: seq<Name>, prefixes: map<Session, Name>, p: Proxy, events: seq<Event>)
    requires IsRun(all, prefixes, p, events) && p.pending == map[]
    requires forall e :: e in events && e.Look? ==> !e.useCache
    ensures RunEnd(all, prefixes, p, events).views == p.views && RunEnd(all, prefixes, p, events).pending == map[]
    ensures forall e :: e in events ==> e.Look?
    decreases |events|
  {
    if events != [] {
      var e := events[0];
      assert e in events && e.Look?;
      assert events == [e] + events[1..];
      WithoutCache(all, prefixes, Next(all, PrefixOf(prefixes, e.s), p, e), events[1..]);
    }
  }

  // ---------------------------------------------------------------- sessions that only go forward

  /** No session asks for a token below one that it asked for before. */
  predicate Forward(reached: map<Session, Name>, events: seq<Event>)
    decreases |events|
  {
    events == [] ||
    (if events[0].Look? then
       !Less(events[0].token, Reached(reached, events[0].s)) && Forward(reached[events[0].s := events[0].token], events[1..])
     else Forward(reached, events[1..]))
  }

  function Reached(reached: map<Session, Name>, s: Session): Name {
    if s in reached then reached[s] else []
  }

  ghost predicate NeverTangles(all: seq<Name>, prefixes: map<Session, Name>, p: Proxy, events: seq<Event>)
    requires IsRun(all, prefixes, p, events)
    decreases |events|
  {
    events == [] ||
    (var prefix := PrefixOf(prefixes, events[0].s);
     && (events[0].Store? ==> !Tangles(all, prefix, p, events[0]))
     && NeverTangles(all, prefixes, Next(all, prefix, p, events[0]), events[1..]))
  }

  /** A cursor is ahead of its token only up to where the session has been. */
  ghost predicate Behind(p: Proxy, reached: map<Session, Name>) {
    forall s :: var c := CursorAt(p, s); c.floor == c.nextToken || !Less(Reached(reached, s), c.floor)
  }

  lemma ForwardStep(all: seq<Name>, prefix: Name, p: Proxy, reached: map<Session, Name>, e: Event)
    requires Behind(p, reached) && e.Look? && Enabled(p, e) && !Less(e.token, Reached(reached, e.s))
    ensures !Skipped(CursorAt(p, e.s), e.token)
    ensures Behind(Next(all, prefix, p, e), reached[e.s := e.token])
  {
    Order();
    var c := CursorAt(p, e.s);
    assert c.floor == c.nextToken || !Less(Reached(reached, e.s), c.floor);
    var q, next := Next(all, prefix, p, e), reached[e.s := e.token];
    forall s ensures var d := CursorAt(q, s); d.floor == d.nextToken || !Less(Reached(next, s), d.floor) {
      var d := CursorAt(p, s);
      assert d.floor == d.nextToken || !Less(Reached(reached, s), d.floor);
    }
  }

  lemma StoreStep(all: seq<Name>, prefix: Name, p: Proxy, reached: map<Session, Name>, e: Event)
    requires Behind(p, reached) && e.Store? && Enabled(p, e)
    ensures Behind(Next(all, prefix, p, e), reached)
  {
    var q := Next(all, prefix, p, e);
    forall s ensures var d := CursorAt(q, s); d.floor == d.nextToken || !Less(Reached(reached, s), d.floor) {
      var d := CursorAt(p, s);
      assert d.floor == d.nextToken || !Less(Reached(reached, s), d.floor);
    }
  }

  /** If sessions only go forward, all replies are right and all caches exact at all times if and only
      if no store joins intervals backwards; in particular whenever the caches are not used. */
  lemma {:induction false} ForwardSessionsRightIff(all: seq<Name>, prefixes: map<Session, Name>, p: Proxy, reached: map<Session, Name>, events: seq<Event>)
    requires Sorted(all) && Sound(all, prefixes, p) && IsRun(all, prefixes, p, events)
    requires Behind(p, reached) && Forward(reached, events)
    ensures AllRight(all, prefixes, p, events) <==> NeverTangles(all, prefixes, p, events)
  {
    ForwardIsSafe(all, prefixes, p, reached, events);
    AllRightIff(all, prefixes, p, events);
  }

  lemma {:induction false} ForwardIsSafe(all: seq<Name>, prefixes: map<Session, Name>, p: Proxy, reached: map<Session, Name>, events: seq<Event>)
    requires Behind(p, reached) && Forward(reached, events) && IsRun(all, prefixes, p, events)
    ensures AllSafe(all, prefixes, p, events) <==> NeverTangles(all, prefixes, p, events)
    decreases |events|
  {
    if events != [] {
      var e, prefix := events[0], PrefixOf(prefixes, events[0].s);
      if e.Look? {
        ForwardStep(all, prefix, p, reached, e);
        ForwardIsSafe(all, prefixes, Next(all, prefix, p, e), reached[e.s := e.token], events[1..]);
      } else {
        StoreStep(all, prefix, p, reached, e);
        ForwardIsSafe(all, prefixes, Next(all, prefix, p, e), reached, events[1..]);
      }
    }
  }

  // ---------------------------------------------------------------- a hit leaves the buffer behind

  /** A bucket with two names, both with prefix `q`; its whole listing is cached, but not known to be
      all of it. */
  ghost predicate TwoNames(q: Name, x: Name, y: Name) {
    q != [] && HasPrefix(x, q) && HasPrefix(y, q) && Less(x, y)
  }

  lemma TwoNamesListing(q: Name, x: Name, y: Name)
    requires TwoNames(q, x, y)
    ensures Sorted([x, y]) && Filter([x, y], q) == [x, y] && Filter([x, y], []) == [x, y]
    ensures After([x, y], []) == 0 && After([x, y], y) == 2 && x != y && y != []
    ensures Page([x, y], [], 2) == [x, y] == Page([x, y], [], 3) && Page([x, y], y, 2) == []
  {
    Order();
    FilterAll([x, y], q);
    FilterEmpty([x, y]);
    AfterIs([x, y], [], 0);
    AfterIs([x, y], y, 2);
  }

  lemma TwoNamesCached(q: Name, x: Name, y: Name)
    requires TwoNames(q, x, y)
    ensures var main := [Interval([], [x, y], false)];
            HitIn(main, [], q, 2) && !HitIn(main, y, q, 2) && !HitIn(main, [], q, 3)
  {
    TwoNamesListing(q, x, y);
    Order();
    var iv := Interval([], [x, y], false);
    assert FindInterval([iv], []) == 0;
    assert Find(iv, y) == 2 && iv.entries[2..] == [];
    assert [x, y][0..] == [x, y];
    assert Filter([], q) == [];
    if FindInterval([iv], y) < 1 {
      assert !Settles(iv, y, q, 2);
    }
  }

  ghost function WholeCached(x: Name, y: Name): Proxy {
    Proxy(map[], map[[] := [Interval([], [x, y], false)]], map[])
  }

  /** A client that is served from the cache of the whole bucket, follows the token to the end and
      goes back, gets nothing, and leaves a wrong interval in the cache of its prefix: the hit did not
      move its buffer, so the buffer takes the old token for one it can serve. */
  lemma GoingBackAfterHit(q: Name, x: Name, y: Name, s: Session) returns (p1: Proxy, p2: Proxy, p3: Proxy)
    requires TwoNames(q, x, y)
    ensures ViewsExact([x, y], WholeCached(x, y).views)
    ensures IsHit(WholeCached(x, y), q, Look(s, [], 2, true)) && Reply([x, y], q, WholeCached(x, y), Look(s, [], 2, true)) == [x, y]
    ensures Next([x, y], q, WholeCached(x, y), Look(s, [], 2, true)) == WholeCached(x, y)
    ensures Reply([x, y], q, WholeCached(x, y), Look(s, y, 2, true)) == [] == Page(Filter([x, y], q), y, 2)
    ensures p1 == Next([x, y], q, WholeCached(x, y), Look(s, y, 2, true)) && Enabled(p1, Store(s))
    ensures p2 == Next([x, y], q, p1, Store(s)) && ViewsExact([x, y], p2.views) && Enabled(p2, Look(s, [], 3, true))
    ensures Reply([x, y], q, p2, Look(s, [], 3, true)) == [] && Page(Filter([x, y], q), [], 3) == [x, y]
    ensures p3 == Next([x, y], q, p2, Look(s, [], 3, true)) && Enabled(p3, Store(s))
    ensures !ViewsExact([x, y], Next([x, y], q, p3, Store(s)).views)
  {
    TwoNamesListing(q, x, y);
    TwoNamesCached(q, x, y);
    assert Exact([x, y], Interval([], [x, y], false));
    p1 := SecondLook(q, x, y, s);
    p2 := AfterEnd(q, x, y, s);
    p3 := ThirdLook(q, x, y, s, p2);
  }

  /** The request for what follows the last name. */
  lemma SecondLook(q: Name, x: Name, y: Name, s: Session) returns (p1: Proxy)
    requires TwoNames(q, x, y)
    ensures Reply([x, y], q, WholeCached(x, y), Look(s, y, 2, true)) == []
    ensures p1 == Next([x, y], q, WholeCached(x, y), Look(s, y, 2, true)) && Enabled(p1, Store(s))
    ensures Next([x, y], q, p1, Store(s)) == AfterEnd(q, x, y, s) && ViewsExact([x, y], AfterEnd(q, x, y, s).views)
  {
    TwoNamesListing(q, x, y);
    TwoNamesCached(q, x, y);
    Order();
    var p, e := WholeCached(x, y), Look(s, y, 2, true);
    assert Exact([x, y], Interval([], [x, y], false)) && Exact([x, y], Interval(y, [], true));
    assert !IsHit(p, q, e);
    assert Advance(Cursor([], []), y, []) == Cursor([], y);
    p1 := Next([x, y], q, p, e);
    assert p1 == Proxy(map[s := Cursor([], y)], p.views, map[s := Interval(y, [], true)]);
    assert CacheIntervals.Set([], Interval(y, [], true)) == [Interval(y, [], true)];
    assert p1.pending - {s} == map[];
  }

  ghost function AfterEnd(q: Name, x: Name, y: Name, s: Session): Proxy {
    Proxy(map[s := Cursor([], y)], map[[] := [Interval([], [x, y], false)], q := [Interval(y, [], true)]], map[])
  }

  /** Going back. */
  lemma ThirdLook(q: Name, x: Name, y: Name, s: Session, p: Proxy) returns (p3: Proxy)
    requires TwoNames(q, x, y) && p == AfterEnd(q, x, y, s) && ViewsExact([x, y], p.views)
    ensures Reply([x, y], q, p, Look(s, [], 3, true)) == []
    ensures p3 == Next([x, y], q, p, Look(s, [], 3, true)) && Enabled(p3, Store(s))
    ensures !ViewsExact([x, y], Next([x, y], q, p3, Store(s)).views)
  {
    TwoNamesListing(q, x, y);
    TwoNamesCached(q, x, y);
    Order();
    var e := Look(s, [], 3, true);
    assert FindInterval([Interval(y, [], true)], []) == 1;
    assert !IsHit(p, q, e);
    assert Skipped(CursorAt(p, s), []);
    p3 := Next([x, y], q, p, e);
    EmptyPageIsWrong([x, y], p.views[q], []);
    CachedExactIff([x, y], p.views, q, Interval([], [], true));
  }

  // ---------------------------------------------------------------- stores out of order

  /** A bucket with names b, c, d, of which c is cached as what follows b. */
  const BCD: seq<Name> := [[98], [99], [100]]

  const ONE_CACHED := Proxy(map[], map[[] := [Interval([98], [[99]], false)]], map[])

  /** Two requests of different clients, both missing and both answered right. If the second one
      stores first, the first one's store joins intervals backwards: the cache is wrong, although each
      request was safe when it came and each store would have been safe then. */
  lemma StoresOutOfOrder(a: Session, b: Session) returns (p1: Proxy, p2: Proxy, p3: Proxy, p4: Proxy)
    requires a != b
    ensures Sorted(BCD) && ViewsExact(BCD, ONE_CACHED.views)
    ensures p1 == Next(BCD, [], ONE_CACHED, Look(a, [99], 1, true)) && Right(BCD, [], ONE_CACHED, Look(a, [99], 1, true))
    ensures Enabled(p1, Look(b, [], 3, true)) && Right(BCD, [], p1, Look(b, [], 3, true))
    ensures p2 == Next(BCD, [], p1, Look(b, [], 3, true)) && Enabled(p2, Store(a)) && Right(BCD, [], p2, Store(a))
    ensures Enabled(p2, Store(b)) && Right(BCD, [], p2, Store(b)) && p3 == Next(BCD, [], p2, Store(b))
    ensures Enabled(p3, Store(a)) && p4 == Next(BCD, [], p3, Store(a)) && !ViewsExact(BCD, p4.views)
  {
    BothMiss();
    var c, d := Interval([99], [[100]], false), Interval([], BCD, false);
    var one := [Interval([98], [[99]], false)];
    FilterEmpty(BCD);
    p1 := Next(BCD, [], ONE_CACHED, Look(a, [99], 1, true));
    p2 := Next(BCD, [], p1, Look(b, [], 3, true));
    assert p1.views == ONE_CACHED.views && p1.pending == map[a := c];
    assert CursorAt(p1, b) == Cursor([], []);
    assert p2.views == ONE_CACHED.views && p2.pending == map[a := c, b := d];
    p3 := Next(BCD, [], p2, Store(b));
    assert p3.pending[a] == c;
    p4 := Next(BCD, [], p3, Store(a));
    StoresAlone();
    CachedExactIff(BCD, p2.views, [], c);
    CachedExactIff(BCD, p2.views, [], d);
    CachedExactIff(BCD, p3.views, [], c);
  }

  lemma BothMiss()
    ensures Sorted(BCD) && Page(BCD, [99], 1) == [[100]] && Page(BCD, [], 3) == BCD && !Less([], []) && !Less([99], [])
    ensures ViewsExact(BCD, ONE_CACHED.views)
    ensures !Hits(ONE_CACHED.views, [], [99], 1) && !Hits(ONE_CACHED.views, [], [], 3)
  {
    Singles();
    Order();
    AfterIs(BCD, [99], 2);
    AfterIs(BCD, [98], 1);
    AfterIs(BCD, [], 0);
    FilterEmpty(BCD);
    var iv := Interval([98], [[99]], false);
    assert Exact(BCD, iv);
    AfterIs([[99]], [99], 1);
    assert Find(iv, [99]) == 1 && iv.entries[1..] == [];
    assert Filter([], []) == [];
    assert FindInterval([iv], []) == 1;
    assert !Settles(iv, [99], [], 1);
  }

  /** Each store alone is fine; the one after the other is not. */
  lemma StoresAlone()
    ensures var c, d, one := Interval([99], [[100]], false), Interval([], BCD, false), [Interval([98], [[99]], false)];
            && AllExact(BCD, CacheIntervals.Set(one, c)) && AllExact(BCD, CacheIntervals.Set(one, d))
            && !AllExact(BCD, CacheIntervals.Set(CacheIntervals.Set(one, d), c))
  {
    Singles();
    Order();
    var c, d, iv := Interval([99], [[100]], false), Interval([], BCD, false), Interval([98], [[99]], false);
    EnclosingPageCorruptsCache();
    StoredOneByOne(iv, d, c);
    assert !Exact(BCD, [Interval([98], BCD, false)][0]);
    assert FindInterval([iv], [100]) == 1 && FindInterval([iv], []) == 1;
    SetKeepsExactIff(BCD, [iv], c);
    SetKeepsExactIff(BCD, [iv], d);
  }

  lemma StoredOneByOne(x: Interval, y: Interval, z: Interval)
    ensures SetAll([], [x, y, z]) == CacheIntervals.Set(CacheIntervals.Set([x], y), z)
  {
    SetAllStep([], x, [y, z]);
    SetAllStep([x], y, [z]);
    SetAllStep(CacheIntervals.Set([x], y), z, []);
    assert CacheIntervals.Set([], x) == [x] && [x] + [y, z] == [x, y, z] && [y] + [z] == [y, z] && [z] + [] == [z];
  }
}
