/** The list-objects cache (ais/prxlsobj.go): interval objects, shared by the requests of one bucket. */
module LsobjCaches {
  import opened Common
  import opened Names
  import opened CacheIntervals

  // ---------------------------------------------------------------- listing with a prefix

  function Filter(s: seq<Name>, prefix: Name): seq<Name> {
    if s == [] then []
    else if HasPrefix(s[0], prefix) then [s[0]] + Filter(s[1..], prefix)
    else Filter(s[1..], prefix)
  }

  lemma {:induction false} FilterNone(s: seq<Name>, prefix: Name)
    requires forall i :: 0 <= i < |s| ==> !HasPrefix(s[i], prefix)
    ensures Filter(s, prefix) == []
    decreases |s|
  {
    if s != [] { FilterNone(s[1..], prefix); }
  }

  lemma {:induction false} FilterAll(s: seq<Name>, prefix: Name)
    requires forall i :: 0 <= i < |s| ==> HasPrefix(s[i], prefix)
    ensures Filter(s, prefix) == s
    decreases |s|
  {
    if s != [] { FilterAll(s[1..], prefix); }
  }

  lemma {:induction false} FilterConcat(s: seq<Name>, t: seq<Name>, prefix: Name)
    ensures Filter(s + t, prefix) == Filter(s, prefix) + Filter(t, prefix)
    decreases |s|
  {
    if s == [] {
      assert s + t == t;
    } else {
      assert (s + t)[1..] == s[1..] + t;
      FilterConcat(s[1..], t, prefix);
    }
  }

  /** Filtering commutes with skipping to a token. */
  lemma AfterFilter(s: seq<Name>, t: Name, prefix: Name)
    requires Sorted(s)
    ensures var f := Filter(s, prefix);
            f[After(f, t)..] == Filter(s[After(s, t)..], prefix)
  {
    var a := After(s, t);
    var low, high := s[..a], s[a..];
    forall k | 0 <= k < |high| ensures Less(t, high[k]) { AfterSplits(s, t, a + k); }
    AfterFilterAt(low, high, t, prefix);
    assert s == low + high;
  }

  lemma AfterFilterAt(low: seq<Name>, high: seq<Name>, t: Name, prefix: Name)
    requires forall k :: 0 <= k < |low| ==> !Less(t, low[k])
    requires forall k :: 0 <= k < |high| ==> Less(t, high[k])
    ensures var f := Filter(low + high, prefix);
            f[After(f, t)..] == Filter(high, prefix)
  {
    FilterConcat(low, high, prefix);
    FilterBelow(low, t, prefix);
    FilterAbove(high, t, prefix);
    SplitAt(Filter(low, prefix), Filter(high, prefix), t);
  }

  lemma FilterBelow(low: seq<Name>, t: Name, prefix: Name)
    requires forall k :: 0 <= k < |low| ==> !Less(t, low[k])
    ensures forall x :: x in Filter(low, prefix) ==> !Less(t, x)
  {
    FilterMembers(low, prefix);
  }

  lemma FilterAbove(high: seq<Name>, t: Name, prefix: Name)
    requires forall k :: 0 <= k < |high| ==> Less(t, high[k])
    ensures forall x :: x in Filter(high, prefix) ==> Less(t, x)
  {
    FilterMembers(high, prefix);
  }

  lemma SplitAt(low: seq<Name>, high: seq<Name>, t: Name)
    requires forall x :: x in low ==> !Less(t, x)
    requires forall x :: x in high ==> Less(t, x)
    ensures (low + high)[After(low + high, t)..] == high
  {
    assert forall k :: 0 <= k < |low| ==> low[k] in low;
    assert high != [] ==> high[0] in high;
    AfterIs(low + high, t, |low|);
  }

  lemma {:induction false} FilterMembers(s: seq<Name>, prefix: Name)
    ensures forall x :: x in Filter(s, prefix) ==> x in s
    decreases |s|
  {
    if s != [] { FilterMembers(s[1..], prefix); }
  }

  /** The names that carry the prefix end before `j`. */
  ghost predicate BlockEndsAt(all: seq<Name>, prefix: Name, i: nat, j: nat)
    requires i <= j <= |all|
  {
    j == |all| || (!HasPrefix(all[j], prefix) && (i < j || Less(prefix, all[j])))
  }

  /** The names with a prefix form one block of a listing: if `all[i..j]` carry it, what precedes them
      after the token does not, and either the page is full, or the listing or the block ends at
      `j`, then they are the answer. */
  lemma ListingIs(all: seq<Name>, prefix: Name, t: Name, n: nat, i: nat, j: nat)
    requires Sorted(all) && After(all, t) <= i <= j <= |all| && j - i <= n
    requires forall k :: After(all, t) <= k < i ==> !HasPrefix(all[k], prefix)
    requires forall k :: i <= k < j ==> HasPrefix(all[k], prefix)
    requires j - i == n || BlockEndsAt(all, prefix, i, j)
    ensures Page(Filter(all, prefix), t, n) == all[i..j]
  {
    var f := Filter(all, prefix);
    AfterFilter(all, t, prefix);
    FilterBlock(all, prefix, After(all, t), i, j);
    if j - i != n && j < |all| {
      BlockEnds(all, prefix, i, j);
      FilterNone(all[j..], prefix);
    }
    assert f[After(f, t)..] == all[i..j] + Filter(all[j..], prefix);
  }

  lemma FilterBlock(all: seq<Name>, prefix: Name, a: nat, i: nat, j: nat)
    requires a <= i <= j <= |all|
    requires forall k :: a <= k < i ==> !HasPrefix(all[k], prefix)
    requires forall k :: i <= k < j ==> HasPrefix(all[k], prefix)
    ensures Filter(all[a..], prefix) == all[i..j] + Filter(all[j..], prefix)
  {
    assert all[a..] == all[a..i] + all[i..];
    assert all[i..] == all[i..j] + all[j..];
    FilterConcat(all[a..i], all[i..], prefix);
    FilterConcat(all[i..j], all[j..], prefix);
    FilterNone(all[a..i], prefix);
    FilterAll(all[i..j], prefix);
  }

  lemma BlockEnds(all: seq<Name>, prefix: Name, i: nat, j: nat)
    requires Sorted(all) && i <= j < |all| && !HasPrefix(all[j], prefix)
    requires i < j ==> HasPrefix(all[j - 1], prefix)
    requires i < j || Less(prefix, all[j])
    ensures forall k :: j <= k < |all| ==> !HasPrefix(all[k], prefix)
  {
    assert Less(prefix, all[j]) by {
      if i < j { PrefixNotBelow(all[j - 1], prefix); Order(); }
    }
    forall k | j <= k < |all| ensures !HasPrefix(all[k], prefix) {
      if j < k && HasPrefix(all[k], prefix) {
        PrefixRangeEnds(prefix, all[k], all[j]);
        LessAsymmetric(all[j], all[k]);
      }
    }
  }

  // ---------------------------------------------------------------- one interval

  /** The interval determines the first `n` names after `token` that carry `prefix`. */
  ghost predicate Settles(iv: Interval, token: Name, prefix: Name, n: nat) {
    var rest := iv.entries[Find(iv, token)..];
    || iv.last
    || |Filter(rest, prefix)| >= n
    || exists x :: x in rest && Less(prefix, x) && !HasPrefix(x, prefix)
  }

  /** What the two scanning loops of `get` have found: entries up to `i` lack the prefix, those in
      `[i, j)` carry it. */
  ghost predicate Scanned(entries: seq<Name>, from: nat, prefix: Name, i: nat, j: nat) {
    && from <= i <= j <= |entries|
    && (forall k :: from <= k < i ==> !HasPrefix(entries[k], prefix) && !Less(prefix, entries[k]))
    && (forall k :: i <= k < j ==> HasPrefix(entries[k], prefix))
  }

  lemma HitIsListing(all: seq<Name>, lo: nat, e: seq<Name>, token: Name, prefix: Name, n: nat, i: nat, j: nat)
    requires Sorted(all) && lo + |e| <= |all| && e == all[lo..lo + |e|]
    requires lo <= After(all, token) && Scanned(e, After(all, token) - lo, prefix, i, j) && j - i <= n
    requires j - i == n || BlockEndsAt(all, prefix, lo + i, lo + j)
    ensures Page(Filter(all, prefix), token, n) == e[i..j]
  {
    ScannedInListing(all, lo, e, After(all, token), prefix, i, j);
    ListingIs(all, prefix, token, n, lo + i, lo + j);
    SliceOfSlice(all, lo, lo + |e|, i, j);
  }

  lemma StartInListing(all: seq<Name>, iv: Interval, token: Name)
    requires Sorted(all) && Exact(all, iv) && Contains(iv, token)
    ensures Lo(all, iv) <= After(all, token) && Find(iv, token) == After(all, token) - Lo(all, iv)
  {
    ContainsIff(all, iv, token);
    FindIs(all, iv, token);
  }

  lemma ScannedInListing(all: seq<Name>, lo: nat, e: seq<Name>, a: nat, prefix: Name, i: nat, j: nat)
    requires lo + |e| <= |all| && e == all[lo..lo + |e|] && lo <= a && Scanned(e, a - lo, prefix, i, j)
    ensures forall k :: a <= k < lo + i ==> !HasPrefix(all[k], prefix)
    ensures forall k :: lo + i <= k < lo + j ==> HasPrefix(all[k], prefix)
    ensures j < |e| ==> all[lo + j] == e[j]
  {
    forall k | a <= k < lo + j ensures all[k] == e[k - lo] { }
  }

  lemma SettledIff(iv: Interval, token: Name, prefix: Name, n: nat, i: nat, j: nat)
    requires Sorted(iv.entries) && Scanned(iv.entries, Find(iv, token), prefix, i, j) && n > 0
    requires j - i < n
    requires j < |iv.entries| ==> !HasPrefix(iv.entries[j], prefix) && Less(prefix, iv.entries[j])
    ensures Settles(iv, token, prefix, n) <==> iv.last || j < |iv.entries|
  {
    var e, from := iv.entries, Find(iv, token);
    FilterBlock(e, prefix, from, i, j);
    if j < |e| {
      BlockEnds(e, prefix, j, j);
      FilterNone(e[j..], prefix);
      assert e[from..][j - from] == e[j];
    }
    forall x | x in e[from..] && j == |e| ensures HasPrefix(x, prefix) || !Less(prefix, x) {
      var k :| 0 <= k < |e[from..]| && e[from..][k] == x;
    }
  }

  /** The first `full` entries from `i` on, scanned from the back down to `j`. */
  lemma BackScan(e: seq<Name>, from: nat, prefix: Name, i: nat, j: nat, full: nat)
    requires Sorted(e) && Scanned(e, from, prefix, i, i) && i <= j <= full <= |e|
    requires i < |e| ==> HasPrefix(e[i], prefix)
    requires i < j ==> HasPrefix(e[j - 1], prefix)
    requires forall k :: j <= k < full ==> !HasPrefix(e[k], prefix)
    ensures Scanned(e, from, prefix, i, j)
    ensures j < full ==> i < j && !HasPrefix(e[j], prefix) && Less(prefix, e[j])
  {
    forall k | i <= k < j ensures HasPrefix(e[k], prefix) {
      if i < k < j - 1 && !HasPrefix(e[k], prefix) {
        BlockEnds(e, prefix, k, k) by { PrefixNotBelow(e[i], prefix); Order(); }
      }
    }
    if j < full {
      PrefixNotBelow(e[j - 1], prefix);
      Order();
    }
  }

  lemma FullBlockSettles(iv: Interval, token: Name, prefix: Name, n: nat, i: nat, j: nat)
    requires Scanned(iv.entries, Find(iv, token), prefix, i, j) && j - i == n
    ensures Settles(iv, token, prefix, n)
  {
    FilterBlock(iv.entries, prefix, Find(iv, token), i, j);
  }

  class CacheInterval {
    var token: Name
    var entries: seq<Name>
    var last: bool
    ghost const owner: object  // the cache it belongs to

    constructor (token: Name, entries: seq<Name>, last: bool, ghost owner: object)
      ensures Val() == Interval(token, entries, last) && this.owner == owner
    {
      this.token, this.entries, this.last, this.owner := token, entries, last, owner;
    }

    function Val(): Interval
      reads this
    {
      Interval(token, entries, last)
    }

    /** Moves `start` to the first entry with the prefix, unless the prefix range is over before. */
    method SkipToPrefix(start: nat, prefix: Name) returns (i: nat, over: bool)
      requires start <= |entries|
      ensures Scanned(entries, start, prefix, i, i)
      ensures over ==> i < |entries| && !HasPrefix(entries[i], prefix) && Less(prefix, entries[i])
      ensures !over && i < |entries| ==> HasPrefix(entries[i], prefix)
    {
      i, over := start, false;
      while i < |entries|
        invariant start <= i <= |entries|
        invariant Scanned(entries, start, prefix, i, i)
      {
        if HasPrefix(entries[i], prefix) {
          break;
        }
        if Less(prefix, entries[i]) {
          return i, true;
        }
        i := i + 1;
      }
    }

    /** Moves `end` behind the last entry with the prefix. */
    method TrimTail(start: nat, full: nat, prefix: Name) returns (end: nat)
      requires start + full <= |entries|
      ensures end <= full
      ensures end > 0 ==> HasPrefix(entries[start + end - 1], prefix)
      ensures forall k :: start + end <= k < start + full ==> !HasPrefix(entries[k], prefix)
    {
      end := full;
      while end > 0
        invariant 0 <= end <= full
        invariant forall k :: start + end <= k < start + full ==> !HasPrefix(entries[k], prefix)
      {
        if HasPrefix(entries[start + end - 1], prefix) {
          break;
        }
        end := end - 1;
      }
    }

    /** The scans of `get`: entries `i..j` are the candidates. */
    method Scan(token: Name, objCnt: nat, prefix: Name) returns (found: seq<Name>, hasEnough: bool, ghost i: nat, ghost j: nat)
      ensures ScanResult(Val(), token, prefix, objCnt, found, hasEnough, i, j)
    {
      var start, over := Find(Val(), token), false;
      if prefix != [] {
        start, over := SkipToPrefix(start, prefix);
        if over {
          return [], true, start, start;
        }
        if !last && start == |entries| {
          return [], false, start, start;
        }
      }
      i := start;
      found, hasEnough, j := TakeFrom(start, objCnt, prefix);
    }

    /** Takes up to `objCnt` entries and trims those without the prefix. */
    method TakeFrom(start: nat, objCnt: nat, prefix: Name) returns (found: seq<Name>, hasEnough: bool, ghost j: nat)
      requires start <= |entries|
      ensures start <= j <= start + Min(|entries| - start, objCnt)
      ensures start < j ==> HasPrefix(entries[j - 1], prefix)
      ensures forall k :: j <= k < start + Min(|entries| - start, objCnt) ==> !HasPrefix(entries[k], prefix)
      ensures hasEnough ==> found == entries[start..j] && (j - start == objCnt || j < |entries| || last)
      ensures !hasEnough ==> !last && j == |entries| && (objCnt > 0 ==> j - start < objCnt)
    {
      found := entries[start..];
      var end := Min(|found|, objCnt);
      if prefix != [] {
        end := TrimTail(start, end, prefix);
      }
      TakeOfDrop(entries, start, end);
      j := start + end;
      if prefix != [] && !last && end < |found| {
        return found[..end], true, j;
      }
      found := found[..end];
      if last || |found| >= objCnt {
        return found, true, j;
      }
      return [], false, j;
    }

    method Get(token: Name, objCnt: nat, prefix: Name, ghost all: seq<Name>) returns (found: seq<Name>, hasEnough: bool)
      requires Sorted(all) && Exact(all, Val()) && Contains(Val(), token)
      ensures hasEnough ==> found == Page(Filter(all, prefix), token, objCnt)
      ensures objCnt > 0 ==> (hasEnough <==> Settles(Val(), token, prefix, objCnt))
    {
      ghost var i, j;
      found, hasEnough, i, j := Scan(token, objCnt, prefix);
      Verdict(all, Val(), token, prefix, objCnt, found, hasEnough, i, j);
    }

    method Append(objs: CacheInterval)
      modifies this
      ensures Val() == CacheIntervals.Append(old(Val()), old(objs.Val()))
    {
      var idx := Find(Val(), objs.token);
      entries, last := entries[..idx] + objs.entries, objs.last;
    }

    /** `asserted`: whether the debug assertion holds, that `objs` is not a last page. */
    method Prepend(objs: CacheInterval) returns (asserted: bool)
      requires objs != this
      modifies this, objs
      ensures asserted == !old(objs.last)
      ensures Val() == CacheIntervals.Append(old(objs.Val()), old(Val()))
    {
      asserted := !objs.last;
      objs.Append(this);
      token, entries, last := objs.token, objs.entries, objs.last;
    }
  }

  ghost predicate ScanResult(iv: Interval, token: Name, prefix: Name, n: nat, found: seq<Name>, hasEnough: bool, i: nat, j: nat) {
    && Scanned(iv.entries, Find(iv, token), prefix, i, i)
    && i <= j <= |iv.entries|
    && if i < |iv.entries| && !HasPrefix(iv.entries[i], prefix) then
         // the prefix range is over
         Less(prefix, iv.entries[i]) && hasEnough && found == [] && j == i
       else
         && j <= i + Min(|iv.entries| - i, n)
         && (i < j ==> HasPrefix(iv.entries[j - 1], prefix))
         && (forall k :: j <= k < i + Min(|iv.entries| - i, n) ==> !HasPrefix(iv.entries[k], prefix))
         && (hasEnough ==> found == iv.entries[i..j] && (j - i == n || j < |iv.entries| || iv.last))
         && (!hasEnough ==> !iv.last && j == |iv.entries| && (n > 0 ==> j - i < n))
  }

  /** The prefix range ends inside the interval before any entry with the prefix. */
  lemma RangeIsOver(all: seq<Name>, iv: Interval, token: Name, prefix: Name, n: nat, i: nat)
    requires Sorted(all) && Exact(all, iv) && Contains(iv, token)
    requires Scanned(iv.entries, Find(iv, token), prefix, i, i)
    requires i < |iv.entries| && !HasPrefix(iv.entries[i], prefix) && Less(prefix, iv.entries[i])
    ensures Page(Filter(all, prefix), token, n) == []
    ensures n > 0 ==> Settles(iv, token, prefix, n)
  {
    StartInListing(all, iv, token);
    HitIsListing(all, Lo(all, iv), iv.entries, token, prefix, n, i, i);
    assert iv.entries[i..i] == [];
    if n > 0 { SettledIff(iv, token, prefix, n, i, i); }
  }

  /** After both scans: when the answer is known, and that it is the listing. */
  lemma Verdict(all: seq<Name>, iv: Interval, token: Name, prefix: Name, n: nat, found: seq<Name>, hasEnough: bool, i: nat, j: nat)
    requires Sorted(all) && Exact(all, iv) && Contains(iv, token)
    requires ScanResult(iv, token, prefix, n, found, hasEnough, i, j)
    ensures hasEnough ==> found == Page(Filter(all, prefix), token, n)
    ensures n > 0 ==> (hasEnough <==> Settles(iv, token, prefix, n))
  {
    var e := iv.entries;
    if i < |e| && !HasPrefix(e[i], prefix) {
      RangeIsOver(all, iv, token, prefix, n, i);
    } else {
      BackScan(e, Find(iv, token), prefix, i, j, i + Min(|e| - i, n));
      if j - i == n {
        FullBlockSettles(iv, token, prefix, n, i, j);
      } else {
        SettledIff(iv, token, prefix, n, i, j);
      }
      if hasEnough {
        BlockIsListing(all, iv, token, prefix, n, i, j);
      }
    }
  }

  lemma BlockIsListing(all: seq<Name>, iv: Interval, token: Name, prefix: Name, n: nat, i: nat, j: nat)
    requires Sorted(all) && Exact(all, iv) && Contains(iv, token)
    requires Scanned(iv.entries, Find(iv, token), prefix, i, j) && j - i <= n
    requires j - i == n || j < |iv.entries| || iv.last
    requires j - i < n && j < |iv.entries| ==> !HasPrefix(iv.entries[j], prefix) && Less(prefix, iv.entries[j])
    ensures Page(Filter(all, prefix), token, n) == iv.entries[i..j]
  {
    StartInListing(all, iv, token);
    HitIsListing(all, Lo(all, iv), iv.entries, token, prefix, n, i, j);
  }

  // ---------------------------------------------------------------- the cache of one request ID

  /** The interval of the token, if there is one, settles the answer. */
  ghost predicate HitIn(ivs: seq<Interval>, token: Name, prefix: Name, n: nat) {
    var at := CacheIntervals.FindInterval(ivs, token);
    at < |ivs| && Settles(ivs[at], token, prefix, n)
  }

  class LsobjCache {
    var intervals: seq<CacheInterval>

    constructor ()
      ensures intervals == []
    {
      intervals := [];
    }

    ghost predicate Valid()
      reads this
    {
      && (forall i, j :: 0 <= i < j < |intervals| ==> intervals[i] != intervals[j])
      && (forall i :: 0 <= i < |intervals| ==> intervals[i].owner == this)
    }

    ghost function View(): (v: seq<Interval>)
      reads this, intervals
      ensures |v| == |intervals|
      ensures forall i :: 0 <= i < |v| ==> v[i] == intervals[i].Val()
    {
      seq(|intervals|, i requires 0 <= i < |intervals| reads this, intervals => intervals[i].Val())
    }

    method FindInterval(token: Name) returns (ci: CacheInterval?, ghost at: nat)
      ensures at == CacheIntervals.FindInterval(View(), token)
      ensures if at < |intervals| then ci == intervals[at] else ci == null
    {
      at := 0;
      for idx := 0 to |intervals|
        invariant at == idx
        invariant forall k :: 0 <= k < idx ==> !Contains(View()[k], token)
      {
        if Contains(intervals[idx].Val(), token) {
          FirstFound(View(), token, idx);
          return intervals[idx], idx;
        }
        at := idx + 1;
      }
      FirstFound(View(), token, |intervals|);
      ci := null;
    }

    method RemoveInterval(ci: CacheInterval, ghost at: nat)
      requires Valid() && at < |intervals| && ci == intervals[at]
      modifies this, ci`entries
      ensures Valid() && intervals == Remove(old(intervals), at)
      ensures View() == Remove(old(View()), at)
    {
      for idx := 0 to |intervals|
        invariant idx <= at
        invariant intervals == old(intervals) && ci.entries == old(ci.entries)
      {
        if intervals[idx] == ci {
          ci.entries := [];
          intervals := intervals[..idx] + intervals[idx + 1..];
          return;
        }
      }
    }

    method Merge(start: CacheInterval?, end: CacheInterval?, cur: CacheInterval, ghost s: nat, ghost e: nat) returns (asserted: bool)
      requires Valid() && cur !in intervals && cur.owner == this
      requires s <= |intervals| && start == (if s < |intervals| then intervals[s] else null)
      requires e <= |intervals| && end == (if e < |intervals| then intervals[e] else null)
      modifies this, intervals, cur
      ensures Valid()
      ensures View() == CacheIntervals.Merge(old(View()), s, e, old(cur.Val()))
      ensures asserted <==> !(start == null && end != null && old(cur.last))
    {
      asserted := true;
      if start == null && end == null {
        intervals := intervals + [cur];
      } else if start != null && end == null {
        start.Append(cur);
      } else if start == null && end != null {
        asserted := end.Prepend(cur);
      } else {
        if start == end {
          return;
        }
        start.Append(cur);
        start.Append(end);
        assert View() == old(View())[s := CacheIntervals.Append(CacheIntervals.Append(old(View()[s]), old(cur.Val())), old(View()[e]))];
        RemoveInterval(end, e);
      }
    }

    /** In debug builds an assertion fails exactly when the page is shorter than asked for, its token is
        in no interval and its last name is in one. */
    method Set(token: Name, entries: seq<Name>, size: nat) returns (asserted: bool)
      requires Valid()
      modifies this, intervals
      ensures Valid()
      ensures asserted <==> !(|entries| < size
                              && CacheIntervals.FindInterval(old(View()), token) == |old(View())|
                              && EndOf(old(View()), Interval(token, entries, true)) < |old(View())|)
      ensures View() == CacheIntervals.Set(old(View()), Interval(token, entries, |entries| < size))
    {
      ghost var s, e;
      var start, end: CacheInterval?;
      start, s := FindInterval(token);
      end, e := null, |intervals|;
      if |entries| > 0 {
        end, e := FindInterval(Last(entries));
      }
      asserted := SetCur(start, end, token, entries, size, s, e);
    }

    method SetCur(start: CacheInterval?, end: CacheInterval?, token: Name, entries: seq<Name>, size: nat, ghost s: nat, ghost e: nat)
      returns (asserted: bool)
      requires Valid()
      requires s <= |intervals| && start == (if s < |intervals| then intervals[s] else null)
      requires e <= |intervals| && end == (if e < |intervals| then intervals[e] else null)
      modifies this, intervals
      ensures Valid()
      ensures View() == CacheIntervals.Merge(old(View()), s, e, Interval(token, entries, |entries| < size))
      ensures asserted <==> !(start == null && end != null && |entries| < size)
    {
      var cur := new CacheInterval(token, entries, |entries| < size, this);
      assert View() == old(View());
      asserted := Merge(start, end, cur, s, e);
    }

    method Get(token: Name, objCnt: nat, prefix: Name, ghost all: seq<Name>) returns (found: seq<Name>, hasEnough: bool)
      requires Sorted(all) && AllExact(all, View())
      ensures hasEnough ==> found == Page(Filter(all, prefix), token, objCnt)
      ensures objCnt > 0 ==> (hasEnough <==> HitIn(View(), token, prefix, objCnt))
    {
      found, hasEnough := [], false;
      ghost var at;
      var interval: CacheInterval?;
      interval, at := FindInterval(token);
      if interval != null {
        found, hasEnough := interval.Get(token, objCnt, prefix, all);
      }
    }
  }

  lemma {:induction false} FirstFound(ivs: seq<Interval>, token: Name, i: nat)
    requires i <= |ivs|
    requires forall k :: 0 <= k < i ==> !Contains(ivs[k], token)
    requires i < |ivs| ==> Contains(ivs[i], token)
    ensures CacheIntervals.FindInterval(ivs, token) == i
  {
  }

  // ---------------------------------------------------------------- all caches of a bucket

  /** Cached intervals by prefix. */
  type Views = map<Name, seq<Interval>>

  ghost predicate Hits(views: Views, prefix: Name, token: Name, n: nat) {
    || (prefix in views && HitIn(views[prefix], token, [], n))
    || (prefix != [] && [] in views && HitIn(views[[]], token, prefix, n))
  }

  ghost predicate ViewsExact(all: seq<Name>, views: Views) {
    forall p :: p in views ==> AllExact(Filter(all, p), views[p])
  }

  /** The intervals after a page was cached. */
  ghost function Cached(views: Views, prefix: Name, page: Interval): Views {
    views[prefix := CacheIntervals.Set(if prefix in views then views[prefix] else [], page)]
  }

  /** The caches of one bucket, by the prefix of their requests; the empty prefix stands for the
      whole bucket. */
  class LsobjCaches {
    var caches: map<Name, LsobjCache>

    constructor ()
      ensures caches == map[]
    {
      caches := map[];
    }

    ghost function Intervals(): (r: set<CacheInterval>)
      reads this, caches.Values
      ensures forall p, ci :: p in caches && ci in caches[p].intervals ==> ci in r
    {
      set p, ci | p in caches && ci in caches[p].intervals :: ci
    }

    /** No cache belongs to two prefixes. */
    ghost predicate Valid()
      reads this, caches.Values
    {
      && (forall p :: p in caches ==> caches[p].Valid())
      && (forall p, q :: p in caches && q in caches && p != q ==> caches[p] != caches[q])
    }

    ghost function Views(): (v: Views)
      reads this, caches.Values, Intervals()
      ensures v.Keys == caches.Keys && forall p :: p in v ==> v[p] == caches[p].View()
    {
      map p | p in caches :: caches[p].View()
    }

    /** Every cached interval is a true piece of the listing with its prefix. */
    ghost predicate ExactFor(all: seq<Name>)
      reads this, caches.Values, Intervals()
    {
      ViewsExact(all, Views())
    }

    /** Tries the cache of the prefix, then the cache of the whole bucket. */
    method Get(prefix: Name, token: Name, objCnt: nat, ghost all: seq<Name>) returns (found: seq<Name>, hasEnough: bool)
      requires Sorted(all) && ExactFor(all)
      ensures hasEnough ==> found == Page(Filter(all, prefix), token, objCnt)
      ensures objCnt > 0 ==> (hasEnough <==> Hits(Views(), prefix, token, objCnt))
    {
      FilterEmpty(all);
      found, hasEnough := GetFrom(prefix, [], token, objCnt, all);
      if hasEnough {
        FilterEmpty(Filter(all, prefix));
        return;
      }
      if prefix != [] {
        found, hasEnough := GetFrom([], prefix, token, objCnt, all);
      }
    }

    /** Tries the cache of one prefix, for names with another one. */
    method GetFrom(of: Name, prefix: Name, token: Name, objCnt: nat, ghost all: seq<Name>) returns (found: seq<Name>, hasEnough: bool)
      requires Sorted(all) && ExactFor(all)
      ensures hasEnough ==> found == Page(Filter(Filter(all, of), prefix), token, objCnt)
      ensures objCnt > 0 ==> (hasEnough <==> of in Views() && HitIn(Views()[of], token, prefix, objCnt))
    {
      found, hasEnough := [], false;
      if of in caches {
        FilterSorted(all, of);
        assert AllExact(Filter(all, of), Views()[of]);
        found, hasEnough := caches[of].Get(token, objCnt, prefix, Filter(all, of));
      }
    }

    method LoadOrStore(prefix: Name) returns (cache: LsobjCache)
      requires Valid()
      modifies this
      ensures Valid() && prefix in caches && cache == caches[prefix]
      ensures prefix in old(caches) ==> caches == old(caches)
      ensures prefix !in old(caches) ==> fresh(cache) && cache.intervals == [] && caches == old(caches)[prefix := cache]
    {
      if prefix in caches {
        return caches[prefix];
      }
      cache := new LsobjCache();
      caches := caches[prefix := cache];
    }

    method Set(prefix: Name, token: Name, entries: seq<Name>, size: nat)
      requires Valid()
      modifies this, caches.Values, Intervals()
      ensures Valid() && caches.Keys == old(caches.Keys) + {prefix}
      ensures caches[prefix].View() ==
              CacheIntervals.Set(old(if prefix in caches then caches[prefix].View() else []), Interval(token, entries, |entries| < size))
      ensures forall p :: p in old(caches) && p != prefix ==> caches[p].View() == old(caches[p].View())
    {
      var cache := LoadOrStore(prefix);
      assert forall p :: p in old(caches) ==> caches[p].View() == old(caches[p].View());
      assert prefix !in old(caches) ==> cache.View() == [];
      SetIn(prefix, token, entries, size);
    }

    method SetIn(prefix: Name, token: Name, entries: seq<Name>, size: nat)
      requires Valid() && prefix in caches
      modifies caches[prefix], caches[prefix].intervals
      ensures Valid()
      ensures caches[prefix].View() == CacheIntervals.Set(old(caches[prefix].View()), Interval(token, entries, |entries| < size))
      ensures forall p :: p in caches && p != prefix ==> caches[p].View() == old(caches[p].View())
    {
      var cache := caches[prefix];
      var _ := cache.Set(token, entries, size);
      forall p | p in caches && p != prefix ensures caches[p].View() == old(caches[p].View()) {
        var c := caches[p];
        assert c != cache && c.intervals == old(c.intervals);
        forall i | 0 <= i < |c.intervals| ensures c.intervals[i].Val() == old(c.intervals[i].Val()) {
          assert c.intervals[i].owner == c;
        }
      }
    }
  }

  lemma ViewsAre(c: LsobjCaches, v: Views)
    requires v.Keys == c.caches.Keys && forall p :: p in v ==> v[p] == c.caches[p].View()
    ensures c.Views() == v
  {
  }

  lemma {:induction false} FilterEmpty(s: seq<Name>)
    ensures Filter(s, []) == s
  {
    FilterAll(s, []);
  }

  lemma {:induction false} FilterSorted(s: seq<Name>, prefix: Name)
    requires Sorted(s)
    ensures Sorted(Filter(s, prefix))
    decreases |s|
  {
    if s != [] {
      FilterSorted(s[1..], prefix);
      FilterMembers(s[1..], prefix);
      var f := Filter(s[1..], prefix);
      forall k | 0 <= k < |f| ensures Less(s[0], f[k]) {
        assert f[k] in s[1..];
      }
    }
  }
}
