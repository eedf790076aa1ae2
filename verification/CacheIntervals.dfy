/** The list-objects cache (ais/prxlsobj.go) as values: contiguous intervals of one bucket's listing,
    and what `set` does to them. */
module CacheIntervals {
  import opened Names

  /** `entries` is what follows `token`; `last` says that nothing follows them. */
  datatype Interval = Interval(token: Name, entries: seq<Name>, last: bool)

  predicate Contains(iv: Interval, token: Name) {
    iv.token == token ||
    (iv.entries != [] && !Less(token, iv.entries[0]) && !Less(Last(iv.entries), token))
  }

  function Find(iv: Interval, token: Name): (idx: nat)
    ensures idx <= |iv.entries|
  {
    if iv.token == token then 0 else After(iv.entries, token)
  }

  function Append(iv: Interval, objs: Interval): Interval {
    Interval(iv.token, iv.entries[..Find(iv, objs.token)] + objs.entries, objs.last)
  }

  /** Position of the first interval that contains `token`; the number of intervals if none does. */
  function FindInterval(ivs: seq<Interval>, token: Name): (i: nat)
    ensures i <= |ivs|
    ensures i < |ivs| ==> Contains(ivs[i], token)
    ensures forall k :: 0 <= k < i ==> !Contains(ivs[k], token)
  {
    if ivs == [] || Contains(ivs[0], token) then 0 else 1 + FindInterval(ivs[1..], token)
  }

  function Remove<T>(s: seq<T>, i: nat): seq<T>
    requires i < |s|
  {
    s[..i] + s[i + 1..]
  }

  /** The four cases of `merge`; a position equal to |ivs| stands for nil. */
  function Merge(ivs: seq<Interval>, start: nat, end: nat, cur: Interval): seq<Interval>
    requires start <= |ivs| && end <= |ivs|
  {
    if start == |ivs| && end == |ivs| then ivs + [cur]
    else if end == |ivs| then ivs[start := Append(ivs[start], cur)]
    else if start == |ivs| then ivs[end := Append(cur, ivs[end])]
    else if start == end then ivs
    else Remove(ivs[start := Append(Append(ivs[start], cur), ivs[end])], end)
  }

  /** `lsobjCache.set` of a page. */
  function Set(ivs: seq<Interval>, cur: Interval): seq<Interval> {
    Merge(ivs, FindInterval(ivs, cur.token), EndOf(ivs, cur), cur)
  }

  function EndOf(ivs: seq<Interval>, cur: Interval): (i: nat)
    ensures i <= |ivs|
  {
    if cur.entries == [] then |ivs| else FindInterval(ivs, Last(cur.entries))
  }

  // ---------------------------------------------------------------- exact intervals

  /** First position of the interval in the listing. */
  function Lo(all: seq<Name>, iv: Interval): nat { After(all, iv.token) }

  function Hi(all: seq<Name>, iv: Interval): nat { After(all, iv.token) + |iv.entries| }

  /** The interval holds all names after its token up to its last entry, and tells the truth about
      whether more follow. */
  ghost predicate Exact(all: seq<Name>, iv: Interval) {
    && Hi(all, iv) <= |all|
    && iv.entries == all[Lo(all, iv)..Hi(all, iv)]
    && (iv.last ==> Hi(all, iv) == |all|)
    && (iv.entries == [] ==> iv.last)
  }

  ghost predicate AllExact(all: seq<Name>, ivs: seq<Interval>) {
    forall i :: 0 <= i < |ivs| ==> Exact(all, ivs[i])
  }

  /** The page of `size` names after `token` makes an exact interval. */
  lemma TruePageIsExact(all: seq<Name>, token: Name, size: nat)
    requires size > 0
    ensures var page := Page(all, token, size);
            Exact(all, Interval(token, page, |page| < size))
  {
  }

  /** Where the tokens are that an exact interval contains. */
  lemma ContainsIff(all: seq<Name>, iv: Interval, t: Name)
    requires Sorted(all) && Exact(all, iv)
    ensures Contains(iv, t) <==>
              iv.token == t || (Lo(all, iv) < After(all, t) && (After(all, t) < Hi(all, iv) || (iv.entries != [] && t == Last(iv.entries))))
    ensures Contains(iv, t) ==> Lo(all, iv) <= After(all, t) <= Hi(all, iv)
  {
    if iv.entries != [] {
      var lo, hi := Lo(all, iv), Hi(all, iv);
      AfterSplits(all, t, lo);
      AfterSplits(all, t, hi - 1);
      Order();
      AfterOwn(all, hi - 1);
      if !Less(all[hi - 1], t) { AfterMonotone(all, t, all[hi - 1]); }
    }
  }

  lemma FindIs(all: seq<Name>, iv: Interval, t: Name)
    requires Sorted(all) && Exact(all, iv) && Lo(all, iv) <= After(all, t) <= Hi(all, iv)
    ensures Find(iv, t) == After(all, t) - Lo(all, iv)
  {
    if iv.token != t {
      AfterIs(iv.entries, t, After(all, t) - Lo(all, iv));
    }
  }

  /** Joining an interval to one that it continues. */
  lemma AppendExact(all: seq<Name>, iv: Interval, objs: Interval)
    requires Sorted(all) && Exact(all, iv) && Exact(all, objs)
    requires Lo(all, iv) <= Lo(all, objs) <= Hi(all, iv)
    ensures Exact(all, Append(iv, objs))
    ensures Hi(all, Append(iv, objs)) == Hi(all, objs)
  {
    FindIs(all, iv, objs.token);
    var lo, m, hi := Lo(all, iv), Lo(all, objs), Hi(all, objs);
    assert iv.entries[..m - lo] == all[lo..m];
    assert all[lo..m] + all[m..hi] == all[lo..hi];
  }

  /** Appending an interval that starts earlier drops what was there, but keeps the token. */
  lemma AppendEarlier(all: seq<Name>, iv: Interval, objs: Interval)
    requires Sorted(all) && Exact(all, iv) && Exact(all, objs)
    requires Lo(all, objs) < Lo(all, iv) && objs.entries != []
    ensures !Exact(all, Append(iv, objs))
  {
    forall k | 0 <= k < |iv.entries| ensures Less(objs.token, iv.entries[k]) {
      AfterSplits(all, objs.token, Lo(all, iv) + k);
    }
    AfterIs(iv.entries, objs.token, 0);
    var bad := Append(iv, objs);
    assert bad.entries == objs.entries;
    assert bad.entries[0] == all[Lo(all, objs)];
    if Hi(all, bad) <= |all| {
      LessAsymmetric(all[Lo(all, objs)], all[Lo(all, iv)]);
    }
  }

  // ---------------------------------------------------------------- set and exactness

  /** Before a page is found in an interval that does not contain its token, it starts there. */
  lemma EndIsAhead(all: seq<Name>, iv: Interval, cur: Interval)
    requires Sorted(all) && Exact(all, iv) && Exact(all, cur) && cur.entries != []
    requires Contains(iv, Last(cur.entries))
    ensures Lo(all, iv) <= Hi(all, cur) <= Hi(all, iv)
    ensures !Contains(iv, cur.token) ==> Lo(all, cur) <= Lo(all, iv)
  {
    var x := Last(cur.entries);
    assert After(all, x) == Hi(all, cur) by { AfterOwn(all, Hi(all, cur) - 1); }
    ContainsIff(all, iv, x);
    ContainsIff(all, iv, cur.token);
  }

  /** The interval that `Merge` creates or extends. */
  function Extended(ivs: seq<Interval>, start: nat, end: nat, cur: Interval): Interval
    requires start <= |ivs| && end <= |ivs|
  {
    if start == |ivs| && end == |ivs| then cur
    else if end == |ivs| then Append(ivs[start], cur)
    else if start == |ivs| then Append(cur, ivs[end])
    else Append(Append(ivs[start], cur), ivs[end])
  }

  /** The page joins an interval to one that starts before it: possible only when they overlap. */
  ghost predicate JoinsBackwards(all: seq<Name>, ivs: seq<Interval>, cur: Interval) {
    var start, end := FindInterval(ivs, cur.token), EndOf(ivs, cur);
    start < |ivs| && end < |ivs| && start != end && Lo(all, ivs[end]) < Lo(all, ivs[start])
  }

  lemma ExtendedExactIff(all: seq<Name>, ivs: seq<Interval>, cur: Interval)
    requires Sorted(all) && AllExact(all, ivs) && Exact(all, cur)
    ensures var start, end := FindInterval(ivs, cur.token), EndOf(ivs, cur);
            start != end || start == |ivs| ==>
              (Exact(all, Extended(ivs, start, end, cur)) <==> !JoinsBackwards(all, ivs, cur))
  {
    var start, end := FindInterval(ivs, cur.token), EndOf(ivs, cur);
    if start < |ivs| {
      ContainsIff(all, ivs[start], cur.token);
      AppendExact(all, ivs[start], cur);
      if end < |ivs| {
        EndIsAhead(all, ivs[end], cur);
        var joined := Append(ivs[start], cur);
        if JoinsBackwards(all, ivs, cur) {
          AppendEarlier(all, joined, ivs[end]);
        } else if start != end {
          AppendExact(all, joined, ivs[end]);
        }
      }
    } else if end < |ivs| {
      EndIsAhead(all, ivs[end], cur);
      AppendExact(all, cur, ivs[end]);
    }
  }

  /** `after` lists `ext` and the elements of `before` other than those at `i` and `j`, each once:
      `at` says where each element of `after` comes from. */
  ghost predicate Parts<T>(before: seq<T>, i: nat, j: nat, ext: T, after: seq<T>, at: seq<int>) {
    && |at| == |after|
    && (forall m :: 0 <= m < |at| ==>
          if at[m] == -1 then after[m] == ext
          else 0 <= at[m] < |before| && at[m] != i && at[m] != j && after[m] == before[at[m]])
    && (forall m, n :: 0 <= m < n < |at| ==> at[m] != at[n])
    && -1 in at
    && (forall k :: 0 <= k < |before| && k != i && k != j ==> k in at)
  }

  lemma AddParts<T>(before: seq<T>, ext: T) returns (at: seq<int>)
    ensures Parts(before, |before|, |before|, ext, before + [ext], at)
  {
    at := seq(|before|, k => k) + [-1];
    assert at[|before|] == -1;
    forall k | 0 <= k < |before| ensures k in at { assert at[k] == k; }
  }

  lemma UpdateParts<T>(before: seq<T>, i: nat, ext: T) returns (at: seq<int>)
    requires i < |before|
    ensures Parts(before, i, |before|, ext, before[i := ext], at)
    ensures Parts(before, |before|, i, ext, before[i := ext], at)
  {
    at := seq(|before|, k => if k == i then -1 else k);
    assert at[i] == -1;
    forall k | 0 <= k < |before| && k != i ensures k in at { assert at[k] == k; }
  }

  /** Where position `m` was before position `j` was removed. */
  function Source(j: nat, m: nat): nat {
    if m < j then m else m + 1
  }

  lemma RemoveAt<T>(s: seq<T>, j: nat, m: nat)
    requires j < |s| && m < |s| - 1
    ensures |Remove(s, j)| == |s| - 1 && Remove(s, j)[m] == s[Source(j, m)]
  {
  }

  lemma JoinParts<T>(before: seq<T>, i: nat, j: nat, ext: T) returns (at: seq<int>)
    requires i < |before| && j < |before| && i != j
    ensures Parts(before, i, j, ext, Remove(before[i := ext], j), at)
  {
    at := seq(|before| - 1, m requires 0 <= m < |before| - 1 => if Source(j, m) == i then -1 else Source(j, m));
    var after := Remove(before[i := ext], j);
    assert |after| == |at|;
    forall m | 0 <= m < |at| ensures after[m] == before[i := ext][Source(j, m)] {
      RemoveAt(before[i := ext], j, m);
    }
    var mi := if i < j then i else i - 1;
    assert at[mi] == -1;
    forall k | 0 <= k < |before| && k != i && k != j ensures k in at {
      var m := if k < j then k else k - 1;
      assert Source(j, m) == k && at[m] == k;
    }
  }

  /** A merge that changes something leaves the extended interval and the untouched ones. */
  lemma MergeParts(ivs: seq<Interval>, start: nat, end: nat, cur: Interval) returns (at: seq<int>)
    requires start <= |ivs| && end <= |ivs| && (start != end || start == |ivs|)
    ensures Parts(ivs, start, end, Extended(ivs, start, end, cur), Merge(ivs, start, end, cur), at)
  {
    var ext := Extended(ivs, start, end, cur);
    if start == end {
      at := AddParts(ivs, ext);
    } else if end == |ivs| {
      at := UpdateParts(ivs, start, ext);
    } else if start == |ivs| {
      at := UpdateParts(ivs, end, ext);
    } else {
      at := JoinParts(ivs, start, end, ext);
    }
  }

  /** `set` of a true page keeps all intervals exact unless it joins backwards. */
  lemma SetKeepsExactIff(all: seq<Name>, ivs: seq<Interval>, cur: Interval)
    requires Sorted(all) && AllExact(all, ivs) && Exact(all, cur)
    ensures AllExact(all, Set(ivs, cur)) <==> !JoinsBackwards(all, ivs, cur)
  {
    var start, end := FindInterval(ivs, cur.token), EndOf(ivs, cur);
    if start != end || start == |ivs| {
      ExtendedExactIff(all, ivs, cur);
      var at := MergeParts(ivs, start, end, cur);
      ExactParts(all, ivs, start, end, Extended(ivs, start, end, cur), Set(ivs, cur), at);
    }
  }

  lemma ExactParts(all: seq<Name>, ivs: seq<Interval>, start: nat, end: nat, ext: Interval, after: seq<Interval>, at: seq<int>)
    requires AllExact(all, ivs) && Parts(ivs, start, end, ext, after, at)
    ensures AllExact(all, after) <==> Exact(all, ext)
  {
    var m :| 0 <= m < |at| && at[m] == -1;
    assert after[m] == ext;
  }

  // ---------------------------------------------------------------- set and overlaps

  /** Two intervals share no position of the listing, and neither contains the other's token. */
  ghost predicate Apart(all: seq<Name>, a: Interval, b: Interval) {
    && (a.entries == [] || b.entries == [] || Hi(all, a) <= Lo(all, b) || Hi(all, b) <= Lo(all, a))
    && !Contains(a, b.token) && !Contains(b, a.token)
  }

  ghost predicate AllApart(all: seq<Name>, ivs: seq<Interval>) {
    forall i, j :: 0 <= i < j < |ivs| ==> Apart(all, ivs[i], ivs[j])
  }

  /** The page covers an interval other than the one its token falls in, and reaches beyond it. */
  ghost predicate Encloses(all: seq<Name>, ivs: seq<Interval>, cur: Interval, k: nat)
    requires k < |ivs|
  {
    && k != FindInterval(ivs, cur.token)
    && ivs[k].entries != []
    && Lo(all, cur) <= Lo(all, ivs[k]) && Hi(all, ivs[k]) < Hi(all, cur)
  }

  lemma ApartParts(all: seq<Name>, ivs: seq<Interval>, start: nat, end: nat, ext: Interval, after: seq<Interval>, at: seq<int>)
    requires AllApart(all, ivs) && Parts(ivs, start, end, ext, after, at)
    ensures AllApart(all, after) <==>
            forall k :: 0 <= k < |ivs| && k != start && k != end ==> Apart(all, ext, ivs[k])
  {
    var m :| 0 <= m < |at| && at[m] == -1;
    assert after[m] == ext;
    if AllApart(all, after) {
      forall k | 0 <= k < |ivs| && k != start && k != end ensures Apart(all, ext, ivs[k]) {
        assert k in at;
        var n :| 0 <= n < |at| && at[n] == k;
        assert after[n] == ivs[k];
      }
    }
    if forall k :: 0 <= k < |ivs| && k != start && k != end ==> Apart(all, ext, ivs[k]) {
      forall i, j | 0 <= i < j < |after| ensures Apart(all, after[i], after[j]) {
        assert at[i] != at[j];
      }
    }
  }

  /** Two apart intervals never contain the same token. */
  lemma ApartContains(all: seq<Name>, a: Interval, b: Interval, t: Name)
    requires Sorted(all) && Exact(all, a) && Exact(all, b) && Apart(all, a, b)
    ensures !(Contains(a, t) && Contains(b, t))
  {
    if a.token != t && b.token != t && a.entries != [] && b.entries != [] {
      AfterSplits(all, t, Lo(all, a));
      AfterSplits(all, t, Lo(all, b));
      ContainsIff(all, a, t);
      ContainsIff(all, b, t);
    }
  }

  /** What one stored interval looks like to a page: it is left alone by the merge. */
  ghost predicate Bystander(all: seq<Name>, ivs: seq<Interval>, cur: Interval, iv: Interval) {
    var start, end := FindInterval(ivs, cur.token), EndOf(ivs, cur);
    && Exact(all, iv)
    && !Contains(iv, cur.token)
    && (cur.entries != [] ==> !Contains(iv, Last(cur.entries)))
    && (start < |ivs| ==> Apart(all, ivs[start], iv))
    && (end < |ivs| ==> Apart(all, ivs[end], iv))
  }

  lemma OthersAreBystanders(all: seq<Name>, ivs: seq<Interval>, cur: Interval, k: nat)
    requires Sorted(all) && AllExact(all, ivs) && AllApart(all, ivs) && k < |ivs|
    requires k != FindInterval(ivs, cur.token) && k != EndOf(ivs, cur)
    ensures Bystander(all, ivs, cur, ivs[k])
  {
    var start, end := FindInterval(ivs, cur.token), EndOf(ivs, cur);
    if start < |ivs| { ApartContains(all, ivs[start], ivs[k], cur.token); }
    if cur.entries != [] && end < |ivs| { ApartContains(all, ivs[end], ivs[k], Last(cur.entries)); }
  }

  /** Apart intervals are never joined backwards. */
  lemma ApartJoinsForward(all: seq<Name>, a: Interval, b: Interval, cur: Interval)
    requires Sorted(all) && Exact(all, a) && Exact(all, b) && Apart(all, a, b) && Exact(all, cur) && cur.entries != []
    requires Contains(a, cur.token) && Contains(b, Last(cur.entries))
    ensures Lo(all, a) <= Lo(all, b)
  {
    ContainsIff(all, a, cur.token);
    EndIsAhead(all, b, cur);
  }

  /** The extended interval covers the page. */
  lemma ExtendedCovers(all: seq<Name>, ivs: seq<Interval>, cur: Interval)
    requires Sorted(all) && AllExact(all, ivs) && AllApart(all, ivs) && Exact(all, cur)
    requires FindInterval(ivs, cur.token) != EndOf(ivs, cur) || FindInterval(ivs, cur.token) == |ivs|
    ensures var start, end := FindInterval(ivs, cur.token), EndOf(ivs, cur);
            var ext := Extended(ivs, start, end, cur);
            && Exact(all, ext)
            && ext.token == (if start < |ivs| then ivs[start].token else cur.token)
            && Lo(all, ext) <= Lo(all, cur)
            && Hi(all, ext) == (if end < |ivs| then Hi(all, ivs[end]) else Hi(all, cur))
            && Hi(all, cur) <= Hi(all, ext)
            && (start < |ivs| ==> Lo(all, cur) <= Hi(all, ivs[start]))
            && (end < |ivs| ==> Lo(all, ivs[end]) <= Hi(all, cur))
  {
    var start, end := FindInterval(ivs, cur.token), EndOf(ivs, cur);
    if start < |ivs| {
      ContainsIff(all, ivs[start], cur.token);
      AppendExact(all, ivs[start], cur);
      if end < |ivs| {
        EndIsAhead(all, ivs[end], cur);
        ApartJoinsForward(all, ivs[start], ivs[end], cur);
        AppendExact(all, Append(ivs[start], cur), ivs[end]);
      }
    } else if end < |ivs| {
      EndIsAhead(all, ivs[end], cur);
      AppendExact(all, cur, ivs[end]);
    }
  }

  /** A bystander that the extended interval overlaps lies within the page. */
  lemma OverlapIsEnclosed(all: seq<Name>, ivs: seq<Interval>, cur: Interval, iv: Interval)
    requires Sorted(all) && AllExact(all, ivs) && AllApart(all, ivs) && Exact(all, cur) && Bystander(all, ivs, cur, iv)
    requires FindInterval(ivs, cur.token) != EndOf(ivs, cur) || FindInterval(ivs, cur.token) == |ivs|
    requires var ext := Extended(ivs, FindInterval(ivs, cur.token), EndOf(ivs, cur), cur);
             iv.entries != [] && Lo(all, ext) < Hi(all, iv) && Lo(all, iv) < Hi(all, ext)
    ensures Lo(all, cur) <= Lo(all, iv)
    ensures Hi(all, iv) < Hi(all, cur)
  {
    ExtendedCovers(all, ivs, cur);
    ContainsIff(all, iv, cur.token);
    if cur.entries != [] {
      LastOutside(all, iv, cur);
    }
  }

  /** An interval without the page's last name does not end where the page does, or around there. */
  lemma LastOutside(all: seq<Name>, iv: Interval, cur: Interval)
    requires Sorted(all) && Exact(all, iv) && Exact(all, cur) && cur.entries != [] && iv.entries != []
    requires !Contains(iv, Last(cur.entries))
    ensures !(Lo(all, iv) < Hi(all, cur) <= Hi(all, iv))
  {
    var x := Last(cur.entries);
    assert After(all, x) == Hi(all, cur) by { AfterOwn(all, Hi(all, cur) - 1); }
    ContainsIff(all, iv, x);
    AfterSplits(all, x, Lo(all, iv));
    Irreflexive(x);
  }

  lemma ContainsLast(all: seq<Name>, iv: Interval)
    requires Sorted(all) && Exact(all, iv) && iv.entries != []
    ensures Contains(iv, Last(iv.entries))
  {
    Order();
  }

  /** No bystander starts at the last entry of the extended interval. */
  lemma EndIsNoToken(all: seq<Name>, ivs: seq<Interval>, cur: Interval, iv: Interval)
    requires Sorted(all) && AllExact(all, ivs) && AllApart(all, ivs) && Exact(all, cur) && Bystander(all, ivs, cur, iv)
    requires FindInterval(ivs, cur.token) != EndOf(ivs, cur) || FindInterval(ivs, cur.token) == |ivs|
    requires Extended(ivs, FindInterval(ivs, cur.token), EndOf(ivs, cur), cur).entries != []
    ensures iv.token != Last(Extended(ivs, FindInterval(ivs, cur.token), EndOf(ivs, cur), cur).entries)
  {
    var start, end := FindInterval(ivs, cur.token), EndOf(ivs, cur);
    var ext := Extended(ivs, start, end, cur);
    ExtendedCovers(all, ivs, cur);
    if end < |ivs| && ivs[end].entries != [] {
      SameEnd(all, ext, ivs[end]);
    } else if cur.entries != [] {
      SameEnd(all, ext, cur);
    } else {
      ContainsIff(all, ivs[start], cur.token);
      SameEnd(all, ext, ivs[start]);
    }
  }

  lemma SameEnd(all: seq<Name>, a: Interval, b: Interval)
    requires Sorted(all) && Exact(all, a) && Exact(all, b) && a.entries != [] && Hi(all, a) == Hi(all, b)
    ensures b.entries != [] ==> Last(a.entries) == Last(b.entries) && Contains(b, Last(a.entries))
  {
    if b.entries != [] { ContainsLast(all, b); }
  }

  /** The extended interval contains no bystander's token unless it overlaps the bystander. */
  lemma TokenOutside(all: seq<Name>, ivs: seq<Interval>, cur: Interval, iv: Interval)
    requires Sorted(all) && AllExact(all, ivs) && AllApart(all, ivs) && Exact(all, cur) && Bystander(all, ivs, cur, iv)
    requires FindInterval(ivs, cur.token) != EndOf(ivs, cur) || FindInterval(ivs, cur.token) == |ivs|
    requires Contains(Extended(ivs, FindInterval(ivs, cur.token), EndOf(ivs, cur), cur), iv.token)
    ensures var ext := Extended(ivs, FindInterval(ivs, cur.token), EndOf(ivs, cur), cur);
            iv.entries != [] && Lo(all, ext) < Hi(all, iv) && Lo(all, iv) < Hi(all, ext)
  {
    var ext := Extended(ivs, FindInterval(ivs, cur.token), EndOf(ivs, cur), cur);
    ExtendedCovers(all, ivs, cur);
    EndIsNoToken(all, ivs, cur, iv);
    ContainedInside(all, ext, iv.token);
  }

  lemma ContainedInside(all: seq<Name>, iv: Interval, t: Name)
    requires Sorted(all) && Exact(all, iv) && Contains(iv, t) && iv.token != t && t != Last(iv.entries)
    ensures Lo(all, iv) < After(all, t) < Hi(all, iv)
  {
    AfterSplits(all, t, Lo(all, iv));
    AfterSplits(all, t, Hi(all, iv) - 1);
    LessTotal(t, Last(iv.entries));
  }

  lemma ExtendedApartIff(all: seq<Name>, ivs: seq<Interval>, cur: Interval, k: nat)
    requires Sorted(all) && AllExact(all, ivs) && AllApart(all, ivs) && Exact(all, cur) && k < |ivs|
    requires FindInterval(ivs, cur.token) != EndOf(ivs, cur) || FindInterval(ivs, cur.token) == |ivs|
    requires k != FindInterval(ivs, cur.token) && k != EndOf(ivs, cur)
    ensures Apart(all, Extended(ivs, FindInterval(ivs, cur.token), EndOf(ivs, cur), cur), ivs[k]) <==>
            !Encloses(all, ivs, cur, k)
  {
    var start, end := FindInterval(ivs, cur.token), EndOf(ivs, cur);
    var ext, iv := Extended(ivs, start, end, cur), ivs[k];
    OthersAreBystanders(all, ivs, cur, k);
    ExtendedCovers(all, ivs, cur);
    if Contains(ext, iv.token) {
      TokenOutside(all, ivs, cur, iv);
    }
    if iv.entries != [] && Lo(all, ext) < Hi(all, iv) && Lo(all, iv) < Hi(all, ext) {
      OverlapIsEnclosed(all, ivs, cur, iv);
    }
  }

  /** `set` of a true page into exact intervals that are apart keeps them exact in any case, and
      apart exactly when the page encloses none of them: no case of `merge` handles enclosure. */
  lemma SetKeepsApartIff(all: seq<Name>, ivs: seq<Interval>, cur: Interval)
    requires Sorted(all) && AllExact(all, ivs) && AllApart(all, ivs) && Exact(all, cur)
    ensures AllExact(all, Set(ivs, cur))
    ensures AllApart(all, Set(ivs, cur)) <==> forall k :: 0 <= k < |ivs| ==> !Encloses(all, ivs, cur, k)
  {
    var start, end := FindInterval(ivs, cur.token), EndOf(ivs, cur);
    if start < |ivs| && end < |ivs| && start != end {
      ApartJoinsForward(all, ivs[start], ivs[end], cur);
    }
    SetKeepsExactIff(all, ivs, cur);
    if start != end || start == |ivs| {
      var at := MergeParts(ivs, start, end, cur);
      ApartParts(all, ivs, start, end, Extended(ivs, start, end, cur), Set(ivs, cur), at);
      forall k | 0 <= k < |ivs| && k != start && k != end
        ensures Apart(all, Extended(ivs, start, end, cur), ivs[k]) <==> !Encloses(all, ivs, cur, k)
      {
        ExtendedApartIff(all, ivs, cur, k);
      }
      if end < |ivs| { EndIsAhead(all, ivs[end], cur); }
    } else {
      ContainsIff(all, ivs[start], cur.token);
      EndIsAhead(all, ivs[end], cur);
    }
  }

  // ---------------------------------------------------------------- runs

  function SetAll(ivs: seq<Interval>, pages: seq<Interval>): seq<Interval>
    decreases |pages|
  {
    if pages == [] then ivs else SetAll(Set(ivs, pages[0]), pages[1..])
  }

  ghost predicate NeverEncloses(all: seq<Name>, ivs: seq<Interval>, pages: seq<Interval>)
    decreases |pages|
  {
    pages == [] ||
    (&& (forall k :: 0 <= k < |ivs| ==> !Encloses(all, ivs, pages[0], k))
     && NeverEncloses(all, Set(ivs, pages[0]), pages[1..]))
  }

  /** Whatever true pages are cached, in any order: as long as none encloses a cached interval, all
      intervals stay exact and apart. */
  lemma {:induction false} CacheStaysExact(all: seq<Name>, ivs: seq<Interval>, pages: seq<Interval>)
    requires Sorted(all) && AllExact(all, ivs) && AllApart(all, ivs)
    requires AllExact(all, pages) && NeverEncloses(all, ivs, pages)
    ensures AllExact(all, SetAll(ivs, pages)) && AllApart(all, SetAll(ivs, pages))
    decreases |pages|
  {
    if pages != [] {
      SetKeepsApartIff(all, ivs, pages[0]);
      CacheStaysExact(all, Set(ivs, pages[0]), pages[1..]);
    }
  }

  lemma LessSingle(x: byte, y: byte)
    ensures Less([x], [y]) <==> x < y
    ensures Less([], [x])
  {
    assert !LessFrom([x], [y], 1);
  }

  lemma Singles()
    ensures forall x: byte, y: byte {:trigger Less([x], [y])} :: Less([x], [y]) <==> x < y
    ensures forall x: byte {:trigger Less([], [x])} :: Less([], [x])
  {
    forall x: byte, y: byte ensures (Less([x], [y]) <==> x < y) && Less([], [x]) { LessSingle(x, y); }
  }

  lemma FirstTwoPages()
    ensures var all: seq<Name> := [[98], [99], [100]];
            Set(Set([], Interval([98], [[99]], false)), Interval([], all, false)) ==
            [Interval([98], [[99]], false), Interval([], all, false)]
  {
    Singles();
    var all: seq<Name> := [[98], [99], [100]];
    var p1, p2 := Interval([98], [[99]], false), Interval([], all, false);
    assert Set([], p1) == [p1];
    assert !Contains(p1, []) && !Contains(p1, [100]);
    assert FindInterval([p1], []) == 1 == FindInterval([p1], [100]);
  }

  lemma ThirdJoin()
    ensures var all: seq<Name> := [[98], [99], [100]];
            var p1, p2, p3 := Interval([98], [[99]], false), Interval([], all, false), Interval([99], [[100]], false);
            Append(Append(p1, p3), p2) == Interval([98], all, false)
  {
    Singles();
    var p1, p3 := Interval([98], [[99]], false), Interval([99], [[100]], false);
    AfterIs([[99]], [99], 1);
    AfterIs([[99], [100]], [], 0);
    assert Append(p1, p3) == Interval([98], [[99], [100]], false);
  }

  lemma ThirdPage()
    ensures var all: seq<Name> := [[98], [99], [100]];
            Set([Interval([98], [[99]], false), Interval([], all, false)], Interval([99], [[100]], false)) ==
            [Interval([98], all, false)]
  {
    Singles();
    var all: seq<Name> := [[98], [99], [100]];
    var p1, p2 := Interval([98], [[99]], false), Interval([], all, false);
    ThirdJoin();
    assert Contains(p1, [99]) && !Contains(p1, [100]) && Contains(p2, [100]);
    assert [p1, p2][1..] == [p2];
    assert FindInterval([p1, p2], [99]) == 0 && FindInterval([p2], [100]) == 0;
    assert FindInterval([p1, p2], [100]) == 1;
  }

  lemma ThreePages()
    ensures var all: seq<Name> := [[98], [99], [100]];
            SetAll([], [Interval([98], [[99]], false), Interval([], all, false), Interval([99], [[100]], false)]) ==
            [Interval([98], all, false)]
  {
    var all: seq<Name> := [[98], [99], [100]];
    var p1, p2, p3 := Interval([98], [[99]], false), Interval([], all, false), Interval([99], [[100]], false);
    FirstTwoPages();
    ThirdPage();
    SetAllStep([], p1, [p2, p3]);
    SetAllStep(Set([], p1), p2, [p3]);
    SetAllStep([p1, p2], p3, []);
  }

  lemma SetAllStep(ivs: seq<Interval>, page: Interval, pages: seq<Interval>)
    ensures SetAll(ivs, [page] + pages) == SetAll(Set(ivs, page), pages)
  {
    assert ([page] + pages)[1..] == pages;
  }

  /** Three true pages of a bucket with names b, c, d, the second of which encloses the first: the
      third joins them into an interval that claims that "b" follows "b". */
  lemma EnclosingPageCorruptsCache()
    ensures var all: seq<Name> := [[98], [99], [100]];
            var p1, p2, p3 := Interval([98], [[99]], false), Interval([], all, false), Interval([99], [[100]], false);
            && Sorted(all) && Exact(all, p1) && Exact(all, p2) && Exact(all, p3)
            && SetAll([], [p1, p2, p3]) == [Interval([98], all, false)]
            && !Exact(all, Interval([98], all, false))
  {
    Singles();
    var all: seq<Name> := [[98], [99], [100]];
    AfterIs(all, [98], 1);
    AfterIs(all, [], 0);
    AfterIs(all, [99], 2);
    ThreePages();
  }
}
