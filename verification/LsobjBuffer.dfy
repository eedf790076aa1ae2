/** The list-objects request buffer (ais/prxlsobj.go): per-target pages are merged, cut at the
    smallest last name of any unfinished target, buffered and paged out. */
module LsobjBuffers {
  import opened Common
  import opened Names

  type TargetId = string

  /** Leftovers of one target. */
  datatype TargetBuffer = TargetBuffer(entries: seq<Name>, done: bool)

  type Leftovers = map<TargetId, TargetBuffer>

  /** A static bucket: the names every target stores, and their sorted union. */
  datatype Bucket = Bucket(objs: map<TargetId, seq<Name>>, all: seq<Name>) {
    ghost predicate Valid() {
      && Sorted(all) && [] !in all
      && (forall id :: id in objs ==> Sorted(objs[id]))
      && (forall id, x :: id in objs && x in objs[id] ==> x in all)
      && (forall x :: x in all ==> exists id :: id in objs && x in objs[id])
      && (forall i, j, x :: i in objs && j in objs && x in objs[i] && x in objs[j] ==> i == j)
    }
  }

  // ---------------------------------------------------------------- sorting

  predicate NonDecreasing(s: seq<Name>) {
    forall i, j :: 0 <= i < j < |s| ==> !Less(s[j], s[i])
  }

  function Insert(x: Name, s: seq<Name>): (r: seq<Name>)
    ensures multiset(r) == multiset(s) + multiset{x}
  {
    if s == [] || !Less(s[0], x) then [x] + s
    else
      assert s == [s[0]] + s[1..];
      [s[0]] + Insert(x, s[1..])
  }

  lemma {:induction false} InsertKeepsOrder(x: Name, s: seq<Name>)
    requires NonDecreasing(s)
    ensures NonDecreasing(Insert(x, s))
  {
    if s != [] && Less(s[0], x) {
      InsertKeepsOrder(x, s[1..]);
      var t := Insert(x, s[1..]);
      forall j | 0 <= j < |t| ensures !Less(t[j], s[0]) {
        assert t[j] in multiset(t);
        assert t[j] == x || t[j] in s[1..];
        LessAsymmetric(s[0], x);
      }
    } else if s != [] {
      forall j | 0 <= j < |s| ensures !Less(s[j], x) {
        if j > 0 { NotLessTransitive(s[j], s[0], x); }
      }
    }
  }

  lemma NotLessTransitive(a: Name, b: Name, c: Name)
    requires !Less(a, b) && !Less(b, c)
    ensures !Less(a, c)
  {
    Order();
  }

  /** `cmn.SortBckEntries`, on names. */
  function SortNames(s: seq<Name>): (r: seq<Name>)
    ensures NonDecreasing(r)
    ensures multiset(r) == multiset(s)
  {
    if s == [] then []
    else
      assert s == [s[0]] + s[1..];
      var t := SortNames(s[1..]);
      InsertKeepsOrder(s[0], t);
      Insert(s[0], t)
  }

  ghost predicate NoDup(s: seq<Name>) {
    forall x :: multiset(s)[x] <= 1
  }

  lemma SortedNoDup(s: seq<Name>)
    requires Sorted(s)
    ensures NoDup(s)
    decreases |s|
  {
    if s != [] {
      SortedNoDup(s[1..]);
      assert s == [s[0]] + s[1..];
      Order();
      assert s[0] !in s[1..];
      assert s[0] !in multiset(s[1..]);
    }
  }

  lemma NoDupSorted(s: seq<Name>)
    requires NonDecreasing(s) && NoDup(s)
    ensures Sorted(s)
  {
    forall i, j | 0 <= i < j < |s| ensures Less(s[i], s[j]) {
      LessTotal(s[i], s[j]);
      assert s == s[..j] + s[j..];
      assert s[i] in s[..j] && s[j] in s[j..];
      assert multiset(s)[s[j]] == multiset(s[..j])[s[j]] + multiset(s[j..])[s[j]];
      assert s[i] != s[j];
    }
  }

  // ---------------------------------------------------------------- what a merge is

  /** Some target in `ids` has left over `x`. */
  ghost predicate Holds(lo: Leftovers, ids: set<TargetId>, x: Name) {
    exists id :: id in ids && id in lo && x in lo[id].entries
  }

  ghost predicate AllDone(lo: Leftovers) {
    forall id :: id in lo ==> lo[id].done
  }

  /** There was a `set` since the last merge, or every target has finished. */
  ghost predicate CanMerge(lo: Leftovers) {
    lo != map[] && (AllDone(lo) || exists id :: id in lo && lo[id].entries != [])
  }

  ghost predicate Unfinished(lo: Leftovers, id: TargetId) {
    id in lo && !lo[id].done && lo[id].entries != []
  }

  /** `cut` is the smallest last name of the unfinished targets in `ids`; empty when there are none. */
  ghost predicate IsCut(lo: Leftovers, ids: set<TargetId>, cut: Name) {
    && (forall id :: id in ids && Unfinished(lo, id) ==> cut != [] && !Less(Last(lo[id].entries), cut))
    && (cut != [] ==> exists id :: id in ids && Unfinished(lo, id) && cut == Last(lo[id].entries))
  }

  /** Every target's leftovers are a listing and no name is left over by two targets. */
  ghost predicate Separate(lo: Leftovers) {
    && (forall id :: id in lo ==> Sorted(lo[id].entries))
    && (forall i, j, x :: i in lo && j in lo && x in lo[i].entries && x in lo[j].entries ==> i == j)
  }

  ghost predicate NonEmptyNames(lo: Leftovers) {
    forall id, x :: id in lo && x in lo[id].entries ==> x != []
  }

  /** `added` lists, in order, the leftovers that do not exceed `cut`. */
  ghost predicate IsMerge(lo: Leftovers, cut: Name, added: seq<Name>) {
    && IsCut(lo, lo.Keys, cut)
    && NonDecreasing(added)
    && (forall x :: x in added <==> Holds(lo, lo.Keys, x) && (cut == [] || !Less(cut, x)))
    && (Separate(lo) ==> Sorted(added))
  }

  ghost function Emptied(lo: Leftovers): Leftovers {
    map id | id in lo :: TargetBuffer([], lo[id].done)
  }

  // The three loops over the leftovers (Go maps: any iteration order).

  method CountLeftovers(lo: Leftovers) returns (totalCnt: nat, allDone: bool)
    ensures allDone <==> AllDone(lo)
    ensures totalCnt > 0 <==> exists id :: id in lo && lo[id].entries != []
  {
    totalCnt, allDone := 0, true;
    var ids := lo.Keys;
    while ids != {}
      invariant ids <= lo.Keys
      invariant allDone <==> forall id :: id in lo && id !in ids ==> lo[id].done
      invariant totalCnt > 0 <==> exists id :: id in lo && id !in ids && lo[id].entries != []
      decreases ids
    {
      var id :| id in ids;
      totalCnt := totalCnt + |lo[id].entries|;
      allDone := allDone && lo[id].done;
      ids := ids - {id};
    }
  }

  method ConcatLeftovers(lo: Leftovers) returns (entries: seq<Name>, minObj: Name)
    requires NonEmptyNames(lo)
    ensures forall x :: x in entries <==> Holds(lo, lo.Keys, x)
    ensures Separate(lo) ==> NoDup(entries)
    ensures IsCut(lo, lo.Keys, minObj)
  {
    entries, minObj := [], [];
    var ids := lo.Keys;
    while ids != {}
      invariant ids <= lo.Keys
      invariant forall x :: x in entries <==> Holds(lo, lo.Keys - ids, x)
      invariant Separate(lo) ==> NoDup(entries)
      invariant IsCut(lo, lo.Keys - ids, minObj)
      decreases ids
    {
      var id :| id in ids;
      var list := lo[id];
      MergeOne(lo, lo.Keys - ids, id, entries);
      NextCut(lo, lo.Keys - ids, id, minObj);
      assert lo.Keys - (ids - {id}) == (lo.Keys - ids) + {id};
      entries := entries + list.entries;
      ids := ids - {id};
      if list.done || list.entries == [] {
        continue;
      }
      if minObj == [] || Less(Last(list.entries), minObj) {
        minObj := Last(list.entries);
      }
    }
    assert lo.Keys - ids == lo.Keys;
  }

  method ClearLeftovers(lo: Leftovers) returns (cleared: Leftovers)
    ensures cleared == Emptied(lo)
  {
    cleared := lo;
    var ids := lo.Keys;
    while ids != {}
      invariant ids <= lo.Keys == cleared.Keys
      invariant forall id :: id in cleared ==>
                  cleared[id] == if id in ids then lo[id] else TargetBuffer([], lo[id].done)
      decreases ids
    {
      var id :| id in ids;
      cleared := cleared[id := TargetBuffer([], lo[id].done)];
      ids := ids - {id};
    }
  }

  // ---------------------------------------------------------------- the buffer

  /** The last name returned to the client, and where the buffered entries really start: at that
      name or, after an answer without entries, at the token of that answer. */
  datatype Cursor = Cursor(nextToken: Name, floor: Name)

  /** The cursor after `page` was handed out for `token`. */
  function Advance(c: Cursor, token: Name, page: seq<Name>): Cursor {
    if page != [] then Cursor(Last(page), Last(page))
    else if Less(token, c.nextToken) then Cursor(token, token)
    else Cursor(c.nextToken, if Less(token, c.floor) then c.floor else token)
  }

  datatype Buf = Buf(c: Cursor, buff: seq<Name>, left: Leftovers)

  /** What `get` does to a buffer: going back before what was returned last forgets everything;
      otherwise merge, skip to `token`, and hand out a page unless more must be requested. */
  ghost predicate Got(s: Buf, token: Name, size: nat, t: Buf, entries: seq<Name>, hasEnough: bool,
                      cut: Name, added: seq<Name>)
  {
    if Less(token, s.c.nextToken) then
      !hasEnough && entries == [] && t == Buf(Cursor(token, token), [], map[])
    else
      && (if CanMerge(s.left) then IsMerge(s.left, cut, added) && t.left == Emptied(s.left)
          else added == [] && t.left == s.left)
      && var merged := s.buff + added;
      var rest := merged[After(merged, token)..];
      var n := Min(size, |rest|);
      && (hasEnough <==> CanMerge(s.left) || size <= |rest|)
      && (!hasEnough ==> entries == [] && t.c == s.c && t.buff == s.buff)
      && (hasEnough ==> entries == rest[..n] && t.buff == rest[n..] && t.c == Advance(s.c, token, entries))
  }

  class LsobjBuffer {
    var nextToken: Name          // last name returned to the client
    var currentBuff: seq<Name>   // sorted entries ready to be dispatched
    var leftovers: Leftovers     // per-target entries not merged yet
    ghost var floor: Name        // where `currentBuff` starts: last name returned, or the token of an empty answer

    constructor ()
      ensures nextToken == [] && currentBuff == [] && leftovers == map[] && floor == []
    {
      nextToken, currentBuff, leftovers, floor := [], [], map[], [];
    }

    method MergeTargetBuffers() returns (filled: bool, ghost cut: Name, ghost added: seq<Name>)
      requires NonEmptyNames(leftovers)
      modifies this
      ensures filled <==> CanMerge(old(leftovers))
      ensures filled ==> IsMerge(old(leftovers), cut, added) && leftovers == Emptied(old(leftovers))
      ensures !filled ==> added == [] && leftovers == old(leftovers)
      ensures currentBuff == old(currentBuff) + added
      ensures nextToken == old(nextToken) && floor == old(floor)
    {
      cut, added := [], [];
      if leftovers == map[] {
        return false, cut, added;
      }
      var totalCnt, allDone := CountLeftovers(leftovers);
      if totalCnt == 0 && !allDone {
        return false, cut, added;
      }
      var entries, minObj := ConcatLeftovers(leftovers);
      var sorted := SortNames(entries);
      var kept := if minObj != [] then sorted[..After(sorted, minObj)] else sorted;
      CutMerges(leftovers, minObj, entries, sorted, kept);
      cut, added := minObj, kept;
      leftovers := ClearLeftovers(leftovers);
      currentBuff := currentBuff + kept;
      filled := true;
    }

    ghost function State(): Buf
      reads this
    {
      Buf(Cursor(nextToken, floor), currentBuff, leftovers)
    }

    method Get(token: Name, size: nat) returns (entries: seq<Name>, hasEnough: bool, ghost cut: Name, ghost added: seq<Name>)
      requires NonEmptyNames(leftovers)
      modifies this
      ensures Got(old(State()), token, size, State(), entries, hasEnough, cut, added)
    {
      entries, cut, added := [], [], [];
      if Less(token, nextToken) {
        leftovers, currentBuff := map[], [];
        nextToken, floor := token, token;
        return [], false, cut, added;
      }
      var filled;
      filled, cut, added := MergeTargetBuffers();
      var idx := After(currentBuff, token);
      entries := currentBuff[idx..];
      var n := size;
      if size > |entries| {
        if !filled {
          assert added == [] && currentBuff == old(currentBuff);
          return [], false, cut, added;
        }
        n := |entries|;
      }
      currentBuff := entries[n..];
      entries := entries[..n];
      if |entries| > 0 {
        nextToken := Last(entries);
        floor := nextToken;
      } else if !Less(token, floor) {
        floor := token;
      }
      hasEnough := true;
    }

    method Set(id: TargetId, entries: seq<Name>, size: nat)
      modifies this`leftovers
      ensures leftovers == old(leftovers)[id := TargetBuffer(entries, |entries| < size)]
    {
      leftovers := leftovers[id := TargetBuffer(entries, |entries| < size)];
    }

    /** `lsobjBuffers.last`: the token after which the targets are asked for more. */
    function LastToken(token: Name): Name
      reads this
    {
      if currentBuff == [] then token
      else if !Less(token, Last(currentBuff)) then token  // cmn.TokenIncludesObject
      else Last(currentBuff)
    }

    ghost predicate Valid(bck: Bucket)
      reads this
    {
      InOrder(bck, State())
    }
  }

  /** Between requests: `buff` is the listing that follows `floor`, up to the end of the bucket once
      all targets are done. Only after an answer without entries can `floor` be ahead of
      `nextToken`, and then the bucket is exhausted. */
  ghost predicate Buffered(all: seq<Name>, nextToken: Name, floor: Name, buff: seq<Name>, allDone: bool) {
    var lo := After(all, floor);
    && lo + |buff| <= |all|
    && buff == all[lo..lo + |buff|]
    && (allDone ==> lo + |buff| == |all|)
    && !Less(floor, nextToken)
    && (floor != nextToken ==> buff == [] && allDone)
  }

  ghost predicate InOrder(bck: Bucket, s: Buf) {
    && s.left.Keys <= bck.objs.Keys
    && (forall id :: id in s.left ==> s.left[id].entries == [])
    && Buffered(bck.all, s.c.nextToken, s.c.floor, s.buff, CanMerge(s.left))
  }

  // ---------------------------------------------------------------- one round of requests

  /** Every target has answered with its first `size` names after token `f`. */
  ghost predicate Fetched(lo: Leftovers, bck: Bucket, f: Name, size: nat) {
    && lo.Keys == bck.objs.Keys
    && forall id :: id in lo ==>
         var page := Page(bck.objs[id], f, size);
         lo[id] == TargetBuffer(page, |page| < size)
  }

  /** A name of a page is a name of the listing after the token. */
  lemma PageMembers(s: seq<Name>, f: Name, size: nat, x: Name)
    requires Sorted(s)
    ensures x in Page(s, f, size) ==> x in s && Less(f, x)
    ensures x in s && Less(f, x) && |Page(s, f, size)| < size ==> x in Page(s, f, size)
    ensures size > 0 && x in s && Less(f, x) && |Page(s, f, size)| == size && !Less(Last(Page(s, f, size)), x)
            ==> x in Page(s, f, size)
  {
    var a, page := After(s, f), Page(s, f, size);
    if x in page {
      var i :| 0 <= i < |page| && page[i] == x;
      AfterSplits(s, f, a + i);
    }
    if x in s && Less(f, x) {
      var i :| 0 <= i < |s| && s[i] == x;
      AfterSplits(s, f, i);
      if i < a + |page| {
        assert page[i - a] == x;
      } else if size > 0 && |page| == size {
        assert Less(s[a + size - 1], s[i]);
      }
    }
  }

  lemma FetchedIsSeparate(lo: Leftovers, bck: Bucket, f: Name, size: nat)
    requires bck.Valid() && Fetched(lo, bck, f, size)
    ensures Separate(lo) && NonEmptyNames(lo)
  {
    forall id, x | id in lo && x in lo[id].entries ensures x in bck.objs[id] && x != [] {
      PageMembers(bck.objs[id], f, size, x);
      LessAsymmetric(f, x);
      Order();
    }
  }

  /** What a round leaves uncut: every name of the bucket after `f`, up to the cut. */
  lemma RoundMember(bck: Bucket, lo: Leftovers, f: Name, size: nat, cut: Name, x: Name)
    requires bck.Valid() && size > 0 && Fetched(lo, bck, f, size) && IsCut(lo, lo.Keys, cut)
    ensures Holds(lo, lo.Keys, x) && (cut == [] || !Less(cut, x)) <==>
            x in bck.all && Less(f, x) && (cut == [] || !Less(cut, x))
  {
    if Holds(lo, lo.Keys, x) {
      var id :| id in lo.Keys && id in lo && x in lo[id].entries;
      PageMembers(bck.objs[id], f, size, x);
    }
    if x in bck.all && Less(f, x) && (cut == [] || !Less(cut, x)) {
      var id :| id in bck.objs && x in bck.objs[id];
      PageMembers(bck.objs[id], f, size, x);
      if !lo[id].done {
        assert Unfinished(lo, id);
        NotLessTransitive(Last(lo[id].entries), cut, x);
      }
      assert x in lo[id].entries;
    }
  }

  /** The heart of the buffer: whatever each target returned, the merged round is a gapless piece
      of the bucket's listing; it reaches the end when all targets are done, and holds at least a
      full page otherwise. */
  lemma RoundIsContiguous(bck: Bucket, lo: Leftovers, f: Name, size: nat, cut: Name, added: seq<Name>)
    returns (k: nat)
    requires bck.Valid() && size > 0 && Fetched(lo, bck, f, size) && IsMerge(lo, cut, added)
    ensures After(bck.all, f) <= k <= |bck.all|
    ensures added == bck.all[After(bck.all, f)..k]
    ensures AllDone(lo) ==> k == |bck.all|
    ensures !AllDone(lo) ==> k - After(bck.all, f) >= size
  {
    k := if cut == [] then |bck.all| else After(bck.all, cut);
    CutIsAhead(bck, lo, f, size, cut);
    RoundIsSlice(bck, lo, f, size, cut, added, k);
    assert cut == [] ==> forall id :: id in lo && !lo[id].done ==> Unfinished(lo, id);
    if cut != [] {
      RoundIsFull(bck, lo, f, size, cut, added);
    }
  }

  lemma CutIsAhead(bck: Bucket, lo: Leftovers, f: Name, size: nat, cut: Name)
    requires bck.Valid() && Fetched(lo, bck, f, size) && IsCut(lo, lo.Keys, cut)
    ensures cut != [] ==> After(bck.all, f) <= After(bck.all, cut)
  {
    if cut != [] {
      var id :| id in lo.Keys && Unfinished(lo, id) && cut == Last(lo[id].entries);
      PageMembers(bck.objs[id], f, size, cut);
      LessAsymmetric(f, cut);
      AfterMonotone(bck.all, f, cut);
    }
  }

  lemma RoundIsSlice(bck: Bucket, lo: Leftovers, f: Name, size: nat, cut: Name, added: seq<Name>, k: nat)
    requires bck.Valid() && size > 0 && Fetched(lo, bck, f, size) && IsMerge(lo, cut, added)
    requires After(bck.all, f) <= k == if cut == [] then |bck.all| else After(bck.all, cut)
    ensures added == bck.all[After(bck.all, f)..k]
  {
    var slice := bck.all[After(bck.all, f)..k];
    FetchedIsSeparate(lo, bck, f, size);
    SliceMembers(bck.all, f, cut, k);
    forall x ensures x in added <==> x in slice {
      RoundMember(bck, lo, f, size, cut, x);
    }
    SortedUnique(added, slice);
  }

  lemma RoundIsFull(bck: Bucket, lo: Leftovers, f: Name, size: nat, cut: Name, added: seq<Name>)
    requires bck.Valid() && size > 0 && Fetched(lo, bck, f, size) && IsMerge(lo, cut, added) && cut != []
    ensures !AllDone(lo) && |added| >= size
  {
    var id :| id in lo.Keys && Unfinished(lo, id) && cut == Last(lo[id].entries);
    forall x | x in lo[id].entries && !Less(cut, x) ensures x in added {
      assert Holds(lo, lo.Keys, x);
    }
    FullPageFits(bck.objs[id], f, size, added, cut);
  }

  lemma SliceMembers(all: seq<Name>, f: Name, cut: Name, k: nat)
    requires Sorted(all) && After(all, f) <= k
    requires k == if cut == [] then |all| else After(all, cut)
    ensures forall x :: x in all[After(all, f)..k] <==> x in all && Less(f, x) && (cut == [] || !Less(cut, x))
  {
    var a := After(all, f);
    forall x ensures x in all[a..k] <==> x in all && Less(f, x) && (cut == [] || !Less(cut, x)) {
      if x in all[a..k] {
        var i :| a <= i < k && all[i] == x;
        AfterSplits(all, f, i);
      }
      if x in all && Less(f, x) && (cut == [] || !Less(cut, x)) {
        var i :| 0 <= i < |all| && all[i] == x;
        AfterSplits(all, f, i);
        if cut != [] { AfterSplits(all, cut, i); }
        assert all[a..k][i - a] == x;
      }
    }
  }

  /** A full page that ends at the cut fits entirely into the merged entries. */
  lemma FullPageFits(s: seq<Name>, f: Name, size: nat, added: seq<Name>, cut: Name)
    requires Sorted(s) && |Page(s, f, size)| == size > 0 && cut == Last(Page(s, f, size))
    requires forall x :: x in Page(s, f, size) && !Less(cut, x) ==> x in added
    ensures |added| >= size
  {
    var a, page := After(s, f), Page(s, f, size);
    var names := set x | x in page;
    Order();
    assert Sorted(page);
    SortedSize(page);
    assert names <= set x | x in added;
    SetSize(added);
    SubsetSize(names, set x | x in added);
  }

  lemma SortedSize(s: seq<Name>)
    requires Sorted(s)
    ensures |set x | x in s| == |s|
  {
    if s != [] {
      SortedSize(s[1..]);
      Order();
      assert (set x | x in s) == {s[0]} + set x | x in s[1..];
    }
  }

  lemma SetSize(s: seq<Name>)
    ensures |set x | x in s| <= |s|
  {
    if s != [] {
      SetSize(s[1..]);
      assert (set x | x in s) == {s[0]} + set x | x in s[1..];
    }
  }

  // ---------------------------------------------------------------- lemmas of the merge

  lemma MergeOne(lo: Leftovers, ids: set<TargetId>, id: TargetId, entries: seq<Name>)
    requires id in lo && id !in ids && ids <= lo.Keys
    requires forall x :: x in entries <==> Holds(lo, ids, x)
    requires Separate(lo) ==> NoDup(entries)
    ensures forall x :: x in entries + lo[id].entries <==> Holds(lo, ids + {id}, x)
    ensures Separate(lo) ==> NoDup(entries + lo[id].entries)
  {
    var more := lo[id].entries;
    forall x ensures x in entries + more <==> Holds(lo, ids + {id}, x) {
      assert x in more ==> id in ids + {id} && x in lo[id].entries;
      if Holds(lo, ids, x) {
        var j :| j in ids && j in lo && x in lo[j].entries;
        assert j in ids + {id};
      }
    }
    if Separate(lo) {
      SortedNoDup(more);
      forall x ensures multiset(entries + more)[x] <= 1 {
        assert multiset(entries + more)[x] == multiset(entries)[x] + multiset(more)[x];
        if x in entries {
          var j :| j in ids && j in lo && x in lo[j].entries;
          assert x !in more;
        }
      }
    }
  }

  /** The two comparisons that keep `minObj` smallest. */
  lemma NextCut(lo: Leftovers, ids: set<TargetId>, id: TargetId, cut: Name)
    requires NonEmptyNames(lo) && id in lo && IsCut(lo, ids, cut)
    ensures !Unfinished(lo, id) ==> IsCut(lo, ids + {id}, cut)
    ensures Unfinished(lo, id) ==>
              var last := Last(lo[id].entries);
              IsCut(lo, ids + {id}, if cut == [] || Less(last, cut) then last else cut)
  {
    var all := ids + {id};
    if Unfinished(lo, id) {
      var last := Last(lo[id].entries);
      assert last in lo[id].entries;
      var next := if cut == [] || Less(last, cut) then last else cut;
      forall j | j in all && Unfinished(lo, j) ensures next != [] && !Less(Last(lo[j].entries), next) {
        Order();
      }
      if next == last {
        assert id in all;
      } else {
        var j :| j in ids && Unfinished(lo, j) && cut == Last(lo[j].entries);
        assert j in all;
      }
    } else if cut != [] {
      var j :| j in ids && Unfinished(lo, j) && cut == Last(lo[j].entries);
      assert j in all;
    }
  }

  lemma CutMerges(lo: Leftovers, cut: Name, entries: seq<Name>, sorted: seq<Name>, kept: seq<Name>)
    requires IsCut(lo, lo.Keys, cut)
    requires forall x :: x in entries <==> Holds(lo, lo.Keys, x)
    requires Separate(lo) ==> NoDup(entries)
    requires NonDecreasing(sorted) && multiset(sorted) == multiset(entries)
    requires kept == if cut != [] then sorted[..After(sorted, cut)] else sorted
    ensures IsMerge(lo, cut, kept)
  {
    SameNames(entries, sorted);
    if Separate(lo) {
      SortedNames(entries, sorted);
    }
    if cut != [] {
      forall x ensures x in kept <==> x in sorted && !Less(cut, x) { CutMember(sorted, cut, x); }
    }
  }

  lemma SameNames(entries: seq<Name>, sorted: seq<Name>)
    requires multiset(sorted) == multiset(entries)
    ensures forall x :: x in sorted <==> x in entries
  {
    forall x ensures x in sorted <==> x in entries {
      assert x in sorted <==> x in multiset(sorted);
    }
  }

  lemma SortedNames(entries: seq<Name>, sorted: seq<Name>)
    requires NonDecreasing(sorted) && multiset(sorted) == multiset(entries) && NoDup(entries)
    ensures Sorted(sorted)
  {
    NoDupSorted(sorted);
  }

  lemma CutMember(sorted: seq<Name>, cut: Name, x: Name)
    requires NonDecreasing(sorted)
    ensures x in sorted[..After(sorted, cut)] <==> x in sorted && !Less(cut, x)
  {
    var r := After(sorted, cut);
    if x in sorted && !Less(cut, x) {
      var i :| 0 <= i < |sorted| && sorted[i] == x;
      assert i < r by {
        assert r < i ==> !Less(sorted[i], sorted[r]);
        Order();
      }
      assert sorted[..r][i] == x;
    }
  }
}
