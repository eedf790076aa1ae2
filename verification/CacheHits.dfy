/** What the list-objects cache still knows after a page was cached (ais/prxlsobj.go). */
module CacheHits {
  import opened Names
  import opened CacheIntervals
  import opened LsobjCaches

  /** `b` has all that `a` has. */
  ghost predicate Covers(all: seq<Name>, b: Interval, a: Interval) {
    Lo(all, b) <= Lo(all, a) && Hi(all, a) <= Hi(all, b) && (a.last ==> b.last)
  }

  ghost predicate SomeCovers(all: seq<Name>, ivs: seq<Interval>, a: Interval) {
    exists x :: x in ivs && Covers(all, x, a)
  }

  /** The page has names of its own, that is, `merge` changes something. */
  ghost predicate Changes(ivs: seq<Interval>, cur: Interval) {
    FindInterval(ivs, cur.token) != EndOf(ivs, cur) || FindInterval(ivs, cur.token) == |ivs|
  }

  /** The interval that the page makes or extends. */
  ghost function Ext(ivs: seq<Interval>, cur: Interval): Interval {
    Extended(ivs, FindInterval(ivs, cur.token), EndOf(ivs, cur), cur)
  }

  ghost predicate Ready(all: seq<Name>, ivs: seq<Interval>, cur: Interval) {
    Sorted(all) && AllExact(all, ivs) && AllApart(all, ivs) && Exact(all, cur)
  }

  // ---------------------------------------------------------------- nothing is forgotten

  /** A page that ends beyond the interval of its token is not preceded by the end of the listing. */
  lemma StartNotLast(all: seq<Name>, iv: Interval, cur: Interval)
    requires Sorted(all) && Exact(all, iv) && Exact(all, cur) && Contains(iv, cur.token)
    requires cur.entries != [] && !Contains(iv, Last(cur.entries))
    ensures Hi(all, iv) < Hi(all, cur)
  {
    ContainsIff(all, iv, cur.token);
    if iv.entries != [] {
      LastOutside(all, iv, cur);
    }
  }

  /** The extended interval covers the intervals that it replaces. */
  lemma ExtCoversStart(all: seq<Name>, ivs: seq<Interval>, cur: Interval)
    requires Ready(all, ivs, cur) && Changes(ivs, cur) && FindInterval(ivs, cur.token) < |ivs|
    ensures Covers(all, Ext(ivs, cur), ivs[FindInterval(ivs, cur.token)])
  {
    var start, end := FindInterval(ivs, cur.token), EndOf(ivs, cur);
    var iv := ivs[start];
    ExtendedCovers(all, ivs, cur);
    ContainsIff(all, iv, cur.token);
    if cur.entries != [] {
      if Contains(iv, Last(cur.entries)) {
        assert end < |ivs| && end != start;
        ApartContains(all, iv, ivs[end], Last(cur.entries));
      } else {
        StartNotLast(all, iv, cur);
      }
    }
  }

  lemma ExtCoversEnd(all: seq<Name>, ivs: seq<Interval>, cur: Interval)
    requires Ready(all, ivs, cur) && Changes(ivs, cur) && EndOf(ivs, cur) < |ivs|
    ensures Covers(all, Ext(ivs, cur), ivs[EndOf(ivs, cur)])
  {
    var start, end := FindInterval(ivs, cur.token), EndOf(ivs, cur);
    ExtendedCovers(all, ivs, cur);
    EndIsAhead(all, ivs[end], cur);
    if start < |ivs| {
      ApartJoinsForward(all, ivs[start], ivs[end], cur);
    }
  }

  /** An interval that the page leaves alone. */
  ghost predicate Untouched(ivs: seq<Interval>, cur: Interval, x: Interval) {
    exists k :: 0 <= k < |ivs| && k != FindInterval(ivs, cur.token) && k != EndOf(ivs, cur) && ivs[k] == x
  }

  lemma PartsAre<T>(before: seq<T>, i: nat, j: nat, ext: T, after: seq<T>, at: seq<int>, x: T)
    requires Parts(before, i, j, ext, after, at)
    ensures x in after <==> x == ext || exists k :: 0 <= k < |before| && k != i && k != j && before[k] == x
  {
    if x == ext {
      var m :| 0 <= m < |at| && at[m] == -1;
      assert after[m] == ext;
    }
    if k :| 0 <= k < |before| && k != i && k != j && before[k] == x {
      assert k in at;
      var m :| 0 <= m < |at| && at[m] == k;
      assert after[m] == x;
    }
  }

  /** The intervals afterwards: the extended one, and those that the page leaves alone. */
  lemma SetHas(ivs: seq<Interval>, cur: Interval)
    requires Changes(ivs, cur)
    ensures forall x :: x in Set(ivs, cur) <==> x == Ext(ivs, cur) || Untouched(ivs, cur, x)
  {
    var start, end := FindInterval(ivs, cur.token), EndOf(ivs, cur);
    var at := MergeParts(ivs, start, end, cur);
    forall x ensures x in Set(ivs, cur) <==> x == Ext(ivs, cur) || Untouched(ivs, cur, x) {
      PartsAre(ivs, start, end, Ext(ivs, cur), Set(ivs, cur), at, x);
    }
  }

  lemma KeepsOne(all: seq<Name>, ivs: seq<Interval>, cur: Interval, k: nat)
    requires Ready(all, ivs, cur) && Changes(ivs, cur) && k < |ivs|
    ensures exists x :: x in Set(ivs, cur) && Covers(all, x, ivs[k])
  {
    SetHas(ivs, cur);
    if k == FindInterval(ivs, cur.token) {
      ExtCoversStart(all, ivs, cur);
    } else if k == EndOf(ivs, cur) {
      ExtCoversEnd(all, ivs, cur);
    } else {
      assert Untouched(ivs, cur, ivs[k]);
    }
  }

  lemma KeepsPage(all: seq<Name>, ivs: seq<Interval>, cur: Interval)
    requires Ready(all, ivs, cur)
    ensures exists x :: x in Set(ivs, cur) && Covers(all, x, cur.(last := false))
  {
    var start, end := FindInterval(ivs, cur.token), EndOf(ivs, cur);
    if Changes(ivs, cur) {
      SetHas(ivs, cur);
      ExtendedCovers(all, ivs, cur);
      assert Covers(all, Ext(ivs, cur), cur.(last := false));
    } else {
      ContainsIff(all, ivs[start], cur.token);
      EndIsAhead(all, ivs[end], cur);
      assert Covers(all, ivs[start], cur.(last := false));
    }
  }

  /** Caching a true page forgets nothing: every interval, with what it knows about the end of the
      listing, lies within one of the new intervals, and so does the page. */
  lemma SetKeepsCached(all: seq<Name>, ivs: seq<Interval>, cur: Interval)
    requires Ready(all, ivs, cur)
    ensures forall k :: 0 <= k < |ivs| ==> SomeCovers(all, Set(ivs, cur), ivs[k])
    ensures SomeCovers(all, Set(ivs, cur), cur.(last := false))
  {
    forall k | 0 <= k < |ivs| ensures SomeCovers(all, Set(ivs, cur), ivs[k]) {
      if Changes(ivs, cur) {
        KeepsOne(all, ivs, cur, k);
      } else {
        assert ivs[k] in Set(ivs, cur) && Covers(all, ivs[k], ivs[k]);
      }
    }
    KeepsPage(all, ivs, cur);
  }

  // ---------------------------------------------------------------- hits

  /** An interval that has more settles more. */
  lemma SettlesMore(all: seq<Name>, a: Interval, b: Interval, t: Name, prefix: Name, n: nat)
    requires Sorted(all) && Exact(all, a) && Exact(all, b) && Contains(a, t) && Contains(b, t)
    requires Hi(all, a) <= Hi(all, b) && (a.last ==> b.last) && Settles(a, t, prefix, n)
    ensures Settles(b, t, prefix, n)
  {
    if !b.last {
      var rest, more := RestGrows(all, a, b, t);
      SettlesRest(a, t, prefix, n, rest);
      MoreSettles(rest, more, prefix, n);
      SettlesRest(b, t, prefix, n, rest + more);
    }
  }

  lemma RestGrows(all: seq<Name>, a: Interval, b: Interval, t: Name) returns (rest: seq<Name>, more: seq<Name>)
    requires Sorted(all) && Exact(all, a) && Exact(all, b) && Contains(a, t) && Contains(b, t) && Hi(all, a) <= Hi(all, b)
    ensures a.entries[Find(a, t)..] == rest && b.entries[Find(b, t)..] == rest + more
  {
    RestIs(all, a, t);
    RestIs(all, b, t);
    rest, more := a.entries[Find(a, t)..], all[Hi(all, a)..Hi(all, b)];
    SplitSlice(all, After(all, t), Hi(all, a), Hi(all, b));
  }

  lemma SplitSlice(s: seq<Name>, i: nat, j: nat, k: nat)
    requires i <= j <= k <= |s|
    ensures s[i..k] == s[i..j] + s[j..k]
  {
  }

  /** These names settle the answer, without knowing what follows. */
  ghost predicate RestSettles(rest: seq<Name>, prefix: Name, n: nat) {
    |Filter(rest, prefix)| >= n || exists x :: x in rest && Less(prefix, x) && !HasPrefix(x, prefix)
  }

  lemma SettlesRest(iv: Interval, t: Name, prefix: Name, n: nat, rest: seq<Name>)
    requires iv.entries[Find(iv, t)..] == rest
    ensures Settles(iv, t, prefix, n) <==> iv.last || RestSettles(rest, prefix, n)
  {
  }

  lemma MoreSettles(s: seq<Name>, more: seq<Name>, prefix: Name, n: nat)
    requires RestSettles(s, prefix, n)
    ensures RestSettles(s + more, prefix, n)
  {
    FilterConcat(s, more, prefix);
  }

  lemma RestIs(all: seq<Name>, iv: Interval, t: Name)
    requires Sorted(all) && Exact(all, iv) && Contains(iv, t)
    ensures After(all, t) <= Hi(all, iv) && iv.entries[Find(iv, t)..] == all[After(all, t)..Hi(all, iv)]
  {
    ContainsIff(all, iv, t);
    FindIs(all, iv, t);
    SliceOfSlice(all, Lo(all, iv), Hi(all, iv), After(all, t) - Lo(all, iv), |iv.entries|);
  }

  /** A hit if some interval contains the token and all that do settle the answer. */
  lemma HitInAny(ivs: seq<Interval>, t: Name, prefix: Name, n: nat)
    requires exists x :: x in ivs && Contains(x, t)
    requires forall x :: x in ivs && Contains(x, t) ==> Settles(x, t, prefix, n)
    ensures HitIn(ivs, t, prefix, n)
  {
    var at := FindInterval(ivs, t);
    assert at < |ivs| ==> ivs[at] in ivs;
  }

  lemma MissIn(ivs: seq<Interval>, t: Name, prefix: Name, n: nat)
    requires forall x :: x in ivs ==> !Contains(x, t)
    ensures !HitIn(ivs, t, prefix, n)
  {
  }

  /** The page starts with the same name as the interval that it is put in front of, and the token is
      the old token of that interval. */
  ghost predicate Displaced(all: seq<Name>, ivs: seq<Interval>, cur: Interval, t: Name) {
    var end := EndOf(ivs, cur);
    FindInterval(ivs, cur.token) == |ivs| && end < |ivs| && ivs[end].token == t && Lo(all, cur) == Lo(all, ivs[end])
  }

  /** An interval contains every token within the range of one that it covers, except those before its
      own first name. */
  lemma CoversContains(all: seq<Name>, a: Interval, b: Interval, t: Name)
    requires Sorted(all) && Exact(all, a) && Exact(all, b) && Contains(a, t) && Hi(all, a) <= Hi(all, b)
    requires Lo(all, b) < After(all, t) && (t == a.token ==> a.entries != [])
    ensures Contains(b, t)
  {
    ContainsIff(all, a, t);
    ContainsIff(all, b, t);
  }

  /** Two covers of the same kind: whoever contains the token settles the answer. */
  lemma ExtSettles(all: seq<Name>, ivs: seq<Interval>, cur: Interval, t: Name, prefix: Name, n: nat)
    requires Ready(all, ivs, cur) && Changes(ivs, cur) && HitIn(ivs, t, prefix, n)
    ensures Contains(Ext(ivs, cur), t) ==> Settles(Ext(ivs, cur), t, prefix, n)
  {
    var start, end, k, ext := FindInterval(ivs, cur.token), EndOf(ivs, cur), FindInterval(ivs, t), Ext(ivs, cur);
    ExtendedCovers(all, ivs, cur);
    if Contains(ext, t) {
      if k == start {
        ExtCoversStart(all, ivs, cur);
      } else if k == end {
        ExtCoversEnd(all, ivs, cur);
      } else {
        OverlapCovers(all, ivs, cur, k, t);
      }
      SettlesMore(all, ivs[k], ext, t, prefix, n);
    }
  }

  /** An interval that is left alone although the extended one contains one of its tokens is enclosed. */
  lemma OverlapCovers(all: seq<Name>, ivs: seq<Interval>, cur: Interval, k: nat, t: Name)
    requires Ready(all, ivs, cur) && Changes(ivs, cur) && k < |ivs|
    requires k != FindInterval(ivs, cur.token) && k != EndOf(ivs, cur)
    requires Contains(ivs[k], t) && Contains(Ext(ivs, cur), t)
    ensures Hi(all, ivs[k]) < Hi(all, Ext(ivs, cur)) && !ivs[k].last
  {
    var ext, iv := Ext(ivs, cur), ivs[k];
    OthersAreBystanders(all, ivs, cur, k);
    ExtendedCovers(all, ivs, cur);
    if t == iv.token {
      TokenOutside(all, ivs, cur, iv);
    } else {
      ContainsIff(all, iv, t);
      ContainsIff(all, ext, t);
    }
    OverlapIsEnclosed(all, ivs, cur, iv);
  }

  /** The interval at the end of the page is empty: its token is the last name of the page. */
  lemma EmptyEnd(all: seq<Name>, ivs: seq<Interval>, cur: Interval)
    requires Ready(all, ivs, cur) && Changes(ivs, cur) && EndOf(ivs, cur) < |ivs| && ivs[EndOf(ivs, cur)].entries == []
    ensures Contains(Ext(ivs, cur), ivs[EndOf(ivs, cur)].token) && Lo(all, cur) < Lo(all, ivs[EndOf(ivs, cur)])
  {
    var iv, ext := ivs[EndOf(ivs, cur)], Ext(ivs, cur);
    ExtendedCovers(all, ivs, cur);
    EndIsAhead(all, iv, cur);
    assert Hi(all, ext) == Hi(all, cur) == |all| && iv.token == Last(cur.entries);
    SameEnd(all, cur, ext);
  }

  lemma SameStart(all: seq<Name>, a: Interval, b: Interval)
    requires Exact(all, a) && Exact(all, b) && Apart(all, a, b) && Lo(all, a) == Lo(all, b)
    ensures b.entries == []
  {
  }

  /** The extended interval contains every token of the intervals that it replaces, unless displaced. */
  lemma ExtContainsEnd(all: seq<Name>, ivs: seq<Interval>, cur: Interval, t: Name)
    requires Ready(all, ivs, cur) && Changes(ivs, cur) && EndOf(ivs, cur) < |ivs| && Contains(ivs[EndOf(ivs, cur)], t)
    ensures Contains(Ext(ivs, cur), t) <==> !Displaced(all, ivs, cur, t)
  {
    var start, end, ext := FindInterval(ivs, cur.token), EndOf(ivs, cur), Ext(ivs, cur);
    var iv := ivs[end];
    ExtendedCovers(all, ivs, cur);
    ContainsIff(all, iv, t);
    if t == iv.token && iv.entries == [] {
      EmptyEnd(all, ivs, cur);
    } else if Lo(all, ext) < After(all, t) {
      CoversContains(all, iv, ext, t);
    } else if start < |ivs| {
      SameStart(all, ivs[start], iv) by { ApartJoinsForward(all, ivs[start], iv, cur); }
    } else {
      EndIsAhead(all, iv, cur);
      ContainsIff(all, ext, t);
    }
  }

  lemma ExtContainsStart(all: seq<Name>, ivs: seq<Interval>, cur: Interval, t: Name)
    requires Ready(all, ivs, cur) && Changes(ivs, cur)
    requires FindInterval(ivs, cur.token) < |ivs| && Contains(ivs[FindInterval(ivs, cur.token)], t)
    ensures Contains(Ext(ivs, cur), t)
  {
    var iv := ivs[FindInterval(ivs, cur.token)];
    ExtendedCovers(all, ivs, cur);
    ExtCoversStart(all, ivs, cur);
    if t != iv.token {
      ContainsIff(all, iv, t);
      CoversContains(all, iv, Ext(ivs, cur), t);
    }
  }

  /** Caching a true page turns a hit into a miss only for the token of an interval that the page is put
      in front of without adding a name. */
  lemma HitStaysIff(all: seq<Name>, ivs: seq<Interval>, cur: Interval, t: Name, prefix: Name, n: nat)
    requires Ready(all, ivs, cur) && HitIn(ivs, t, prefix, n)
    ensures HitIn(Set(ivs, cur), t, prefix, n) <==> !Displaced(all, ivs, cur, t)
  {
    if Changes(ivs, cur) {
      SetHas(ivs, cur);
      var start, end, k := FindInterval(ivs, cur.token), EndOf(ivs, cur), FindInterval(ivs, t);
      if k == start {
        ExtContainsStart(all, ivs, cur, t);
      } else if k == end {
        ExtContainsEnd(all, ivs, cur, t);
      } else {
        assert Untouched(ivs, cur, ivs[k]);
      }
      ExtSettles(all, ivs, cur, t, prefix, n);
      forall x | Untouched(ivs, cur, x) && Contains(x, t) ensures x == ivs[k] && k != start && k != end {
        OnlyOne(all, ivs, cur, x, t);
      }
      if Displaced(all, ivs, cur, t) {
        MissIn(Set(ivs, cur), t, prefix, n);
      } else {
        HitInAny(Set(ivs, cur), t, prefix, n);
      }
    }
  }

  lemma FoundOnce(all: seq<Name>, ivs: seq<Interval>, i: nat, t: Name)
    requires Sorted(all) && AllExact(all, ivs) && AllApart(all, ivs) && i < |ivs| && Contains(ivs[i], t)
    ensures FindInterval(ivs, t) == i
  {
    var k := FindInterval(ivs, t);
    if k < i {
      ApartContains(all, ivs[k], ivs[i], t);
    }
  }

  lemma OnlyOne(all: seq<Name>, ivs: seq<Interval>, cur: Interval, x: Interval, t: Name)
    requires Ready(all, ivs, cur) && Untouched(ivs, cur, x) && Contains(x, t)
    ensures var k := FindInterval(ivs, t); k < |ivs| && x == ivs[k] && k != FindInterval(ivs, cur.token) && k != EndOf(ivs, cur)
  {
    var i :| 0 <= i < |ivs| && i != FindInterval(ivs, cur.token) && i != EndOf(ivs, cur) && ivs[i] == x;
    FoundOnce(all, ivs, i, t);
  }

  /** A bucket with one name c, cached after "a": a page after "b" takes over the interval, and a request
      after "a" misses again. */
  lemma DisplacedToken()
    ensures var all: seq<Name> := [[99]];
            var ivs := [Interval([97], all, false)];
            && Ready(all, ivs, Interval([98], all, false))
            && HitIn(ivs, [97], [], 1) && !HitIn(Set(ivs, Interval([98], all, false)), [97], [], 1)
  {
    Singles();
    var all: seq<Name> := [[99]];
    var ivs, cur := [Interval([97], all, false)], Interval([98], all, false);
    AfterIs(all, [97], 0);
    AfterIs(all, [98], 0);
    Irreflexive([99]);
    FilterEmpty(all);
    assert all[0..] == all;
    assert FindInterval(ivs, [97]) == 0 && FindInterval(ivs, [98]) == 1 && FindInterval(ivs, [99]) == 0;
    HitStaysIff(all, ivs, cur, [97], [], 1);
  }

  // ---------------------------------------------------------------- the page itself

  /** Afterwards, the only interval that contains the token of the page is the one that the page is in. */
  lemma PageFound(all: seq<Name>, ivs: seq<Interval>, cur: Interval, x: Interval)
    requires Ready(all, ivs, cur) && x in Set(ivs, cur) && Contains(x, cur.token)
    ensures x == if Changes(ivs, cur) then Ext(ivs, cur) else ivs[FindInterval(ivs, cur.token)]
  {
    if Changes(ivs, cur) {
      SetHas(ivs, cur);
      if Untouched(ivs, cur, x) {
        OnlyOne(all, ivs, cur, x, cur.token);
      }
    } else {
      var i :| 0 <= i < |ivs| && ivs[i] == x;
      FoundOnce(all, ivs, i, cur.token);
    }
  }

  /** A page settles its own request, as far as it goes. */
  lemma SettlesPageIff(all: seq<Name>, iv: Interval, t: Name, size: nat)
    requires Sorted(all) && Exact(all, iv) && Contains(iv, t) && size > 0
    requires After(all, t) + |Page(all, t, size)| <= Hi(all, iv)
    ensures Settles(iv, t, [], size) <==> |Page(all, t, size)| == size || iv.last
  {
    RestIs(all, iv, t);
    FilterEmpty(iv.entries[Find(iv, t)..]);
  }

  /** The same request again is a hit right after its page was cached if and only if the page is full, or
      no interval contained its last name, or that interval was known to reach the end. */
  lemma PageIsHitIff(all: seq<Name>, ivs: seq<Interval>, t: Name, size: nat)
    requires Sorted(all) && AllExact(all, ivs) && AllApart(all, ivs) && size > 0
    ensures var page := Page(all, t, size);
            var cur := Interval(t, page, |page| < size);
            HitIn(Set(ivs, cur), t, [], size) <==>
              |page| == size || EndOf(ivs, cur) == |ivs| || ivs[EndOf(ivs, cur)].last
  {
    var page := Page(all, t, size);
    var cur := Interval(t, page, |page| < size);
    TruePageIsExact(all, t, size);
    var start, end := FindInterval(ivs, t), EndOf(ivs, cur);
    var x := if Changes(ivs, cur) then Ext(ivs, cur) else ivs[start];
    PageHolder(all, ivs, cur);
    SettlesPageIff(all, x, t, size);
    forall y | y in Set(ivs, cur) && Contains(y, t) ensures y == x {
      PageFound(all, ivs, cur, y);
    }
    var at := FindInterval(Set(ivs, cur), t);
    if at < |Set(ivs, cur)| {
      assert Set(ivs, cur)[at] in Set(ivs, cur);
    }
  }

  /** The interval that the page is in contains its token, goes as far, and knows what the interval at the
      end of the page knew, or else what the page knows. */
  lemma PageHolder(all: seq<Name>, ivs: seq<Interval>, cur: Interval)
    requires Ready(all, ivs, cur)
    ensures var x := if Changes(ivs, cur) then Ext(ivs, cur) else ivs[FindInterval(ivs, cur.token)];
            && x in Set(ivs, cur) && Exact(all, x) && Contains(x, cur.token) && Hi(all, cur) <= Hi(all, x)
            && x.last == if EndOf(ivs, cur) < |ivs| then ivs[EndOf(ivs, cur)].last else cur.last
  {
    var start, end := FindInterval(ivs, cur.token), EndOf(ivs, cur);
    if Changes(ivs, cur) {
      SetHas(ivs, cur);
      ExtendedCovers(all, ivs, cur);
      if start < |ivs| {
        ExtContainsStart(all, ivs, cur, cur.token);
      }
    } else {
      EndIsAhead(all, ivs[end], cur);
    }
  }

  // ---------------------------------------------------------------- all caches of a bucket

  /** After a full page was stored for a prefix, the same request of anybody is a hit. */
  lemma StoredIsHit(all: seq<Name>, views: Views, prefix: Name, t: Name, size: nat)
    requires Sorted(all) && size > 0 && ViewsExact(all, views)
    requires prefix in views ==> AllApart(Filter(all, prefix), views[prefix])
    requires |Page(Filter(all, prefix), t, size)| == size
    ensures Hits(Cached(views, prefix, Interval(t, Page(Filter(all, prefix), t, size), false)), prefix, t, size)
  {
    FilterSorted(all, prefix);
    var ivs := if prefix in views then views[prefix] else [];
    assert prefix in views ==> AllExact(Filter(all, prefix), views[prefix]);
    PageIsHitIff(Filter(all, prefix), ivs, t, size);
  }

  /** Once the whole bucket is cached, every request is a hit, with whatever prefix and size, if it starts
      at the beginning or at a name of the bucket. */
  lemma WholeBucketIsHit(all: seq<Name>, views: Views, prefix: Name, t: Name, n: nat)
    requires Sorted(all) && [] in views && views[[]] == [Interval([], all, true)]
    requires t == [] || t in all
    ensures Hits(views, prefix, t, n)
  {
    var iv := Interval([], all, true);
    if t != [] {
      Order();
      var i :| 0 <= i < |all| && all[i] == t;
      assert Contains(iv, t);
    }
    assert FindInterval(views[[]], t) == 0;
  }

  // ---------------------------------------------------------------- runs

  /** Some page on the way displaces the token. */
  ghost predicate EverDisplaced(all: seq<Name>, ivs: seq<Interval>, pages: seq<Interval>, t: Name)
    decreases |pages|
  {
    pages != [] && (Displaced(all, ivs, pages[0], t) || EverDisplaced(all, Set(ivs, pages[0]), pages[1..], t))
  }

  /** Over every sequence of true pages that never enclose an interval, a hit stays a hit, unless its
      token is displaced. */
  lemma {:induction false} HitsStay(all: seq<Name>, ivs: seq<Interval>, pages: seq<Interval>, t: Name, prefix: Name, n: nat)
    requires Sorted(all) && AllExact(all, ivs) && AllApart(all, ivs)
    requires AllExact(all, pages) && NeverEncloses(all, ivs, pages)
    requires HitIn(ivs, t, prefix, n) && !EverDisplaced(all, ivs, pages, t)
    ensures HitIn(SetAll(ivs, pages), t, prefix, n)
    decreases |pages|
  {
    if pages != [] {
      HitStaysIff(all, ivs, pages[0], t, prefix, n);
      SetKeepsApartIff(all, ivs, pages[0]);
      HitsStay(all, Set(ivs, pages[0]), pages[1..], t, prefix, n);
    }
  }
}
