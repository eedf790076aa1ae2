/** What a request gets after an earlier one failed because some target did not answer
    (the early return of `listObjectsAIS`, ais/proxy.go). */
module FailedRounds {
  import opened Common
  import opened Names
  import opened LsobjBuffers
  import opened ListPages

  ghost predicate HeldBy(bck: Bucket, ids: set<TargetId>, x: Name) {
    exists id :: id in ids && id in bck.objs && x in bck.objs[id]
  }

  /** The names of `all` that the targets `ids` hold. */
  ghost function Kept(all: seq<Name>, bck: Bucket, ids: set<TargetId>): seq<Name> {
    if all == [] then []
    else (if HeldBy(bck, ids, all[0]) then [all[0]] else []) + Kept(all[1..], bck, ids)
  }

  lemma {:induction false} KeptIs(all: seq<Name>, bck: Bucket, ids: set<TargetId>)
    requires Sorted(all)
    ensures Sorted(Kept(all, bck, ids))
    ensures forall x :: x in Kept(all, bck, ids) <==> x in all && HeldBy(bck, ids, x)
  {
    if all != [] {
      KeptIs(all[1..], bck, ids);
      assert forall x :: x in all <==> x == all[0] || x in all[1..];
      assert forall x :: x in all[1..] ==> Less(all[0], x);
    }
  }

  /** The bucket as the targets `ids` know it. */
  ghost function Restricted(bck: Bucket, ids: set<TargetId>): Bucket {
    Bucket(map id | id in bck.objs && id in ids :: bck.objs[id], Kept(bck.all, bck, ids))
  }

  lemma RestrictedValid(bck: Bucket, ids: set<TargetId>)
    requires bck.Valid()
    ensures Restricted(bck, ids).Valid()
  {
    KeptIs(bck.all, bck, ids);
    var sub := Restricted(bck, ids);
    forall x | x in sub.all ensures exists id :: id in sub.objs && x in sub.objs[id] {
      var id :| id in ids && id in bck.objs && x in bck.objs[id];
      assert id in sub.objs;
    }
  }

  // ---------------------------------------------------------------- pages of a part of a listing

  /** A page of a part of a listing is the page of the listing if and only if the part has all names
      of it. */
  lemma SubPage(all: seq<Name>, sub: seq<Name>, t: Name, n: nat)
    requires Sorted(all) && Sorted(sub) && [] !in all && forall x :: x in sub ==> x in all
    ensures Page(sub, t, n) == Page(all, t, n) <==> forall x :: x in Page(all, t, n) ==> x in sub
  {
    if n > 0 && forall x :: x in Page(all, t, n) ==> x in sub {
      SubPageIs(all, sub, t, n);
    }
  }

  /** Where the page ends; empty if it ends with the listing. */
  ghost function CutOf(page: seq<Name>, n: nat): Name {
    if |page| < n || page == [] then [] else Last(page)
  }

  lemma SubPageMember(all: seq<Name>, sub: seq<Name>, t: Name, n: nat, x: Name)
    requires Sorted(all) && n > 0 && [] !in all
    requires forall y :: y in sub ==> y in all
    requires forall y :: y in Page(all, t, n) ==> y in sub
    ensures var cut := CutOf(Page(all, t, n), n);
            x in sub && Less(t, x) && (cut == [] || !Less(cut, x)) <==> x in Page(all, t, n)
  {
    var page := Page(all, t, n);
    PageMembers(all, t, n, x);
    if x in page {
      LastIsLargest(page, x);
    }
    if |page| == n {
      PageMembers(all, t, n, Last(page));
    }
  }

  lemma SubPageIs(all: seq<Name>, sub: seq<Name>, t: Name, n: nat)
    requires Sorted(all) && Sorted(sub) && [] !in all && n > 0
    requires forall x :: x in sub ==> x in all
    requires forall x :: x in Page(all, t, n) ==> x in sub
    ensures Page(sub, t, n) == Page(all, t, n)
  {
    var cut := CutOf(Page(all, t, n), n);
    var k := if cut == [] then |sub| else After(sub, cut);
    CutIsAfter(all, sub, t, n);
    var slice := sub[After(sub, t)..k];
    forall x ensures x in slice <==> x in Page(all, t, n) {
      SliceMember(sub, t, cut, k, x);
      SubPageMember(all, sub, t, n, x);
    }
    SameMembers(slice, Page(all, t, n));
    SliceIsPage(sub, t, k, n);
  }

  lemma SliceMember(sub: seq<Name>, t: Name, cut: Name, k: nat, x: Name)
    requires Sorted(sub) && After(sub, t) <= k && k == if cut == [] then |sub| else After(sub, cut)
    ensures x in sub[After(sub, t)..k] <==> x in sub && Less(t, x) && (cut == [] || !Less(cut, x))
  {
    SliceMembers(sub, t, cut, k);
  }

  lemma SameMembers(a: seq<Name>, b: seq<Name>)
    requires Sorted(a) && Sorted(b) && forall x :: x in a <==> x in b
    ensures a == b
  {
    SortedUnique(a, b);
  }

  lemma SliceIsPage(sub: seq<Name>, t: Name, k: nat, n: nat)
    requires After(sub, t) <= k <= |sub| && (k == |sub| || k - After(sub, t) == n) && k - After(sub, t) <= n
    ensures Page(sub, t, n) == sub[After(sub, t)..k]
  {
  }

  lemma CutIsAfter(all: seq<Name>, sub: seq<Name>, t: Name, n: nat)
    requires Sorted(all) && Sorted(sub) && [] !in all && n > 0
    ensures var cut := CutOf(Page(all, t, n), n);
            (cut == [] <==> |Page(all, t, n)| < n) && (cut != [] ==> After(sub, t) <= After(sub, cut))
  {
    var page := Page(all, t, n);
    if |page| == n {
      PageMembers(all, t, n, Last(page));
      LessAsymmetric(t, Last(page));
      AfterMonotone(sub, t, Last(page));
    }
  }

  lemma LastIsLargest(page: seq<Name>, x: Name)
    requires Sorted(page) && x in page
    ensures !Less(Last(page), x)
  {
    Order();
  }

  /** A page can be read off a prefix of a listing that reaches far enough. */
  lemma PrefixPage(s: seq<Name>, m: nat, t: Name, n: nat)
    requires Sorted(s) && m <= |s| && (m == |s| || After(s, t) + n <= m)
    ensures var rest := s[..m][After(s[..m], t)..];
            rest[..Min(n, |rest|)] == Page(s, t, n)
  {
    assert s[..|s|] == s;
    if m < |s| {
      AfterIs(s[..m], t, After(s, t));
    }
  }

  // ---------------------------------------------------------------- a failed round, and the retry

  /** Leftovers after only the targets `answered` have answered. */
  ghost function Partial(left: Leftovers, bck: Bucket, answered: set<TargetId>, f: Name, size: nat): Leftovers {
    map id | id in left.Keys + (answered * bck.objs.Keys) ::
      if id in answered && id in bck.objs then
        var page := Page(bck.objs[id], f, size);
        TargetBuffer(page, |page| < size)
      else left[id]
  }

  ghost function Answers(left: Leftovers, ids: set<TargetId>): Leftovers {
    map id | id in left && id in ids :: left[id]
  }

  /** The merge sees the answers only. */
  lemma PartialMerge(left: Leftovers, bck: Bucket, answered: set<TargetId>, f: Name, size: nat, cut: Name, added: seq<Name>)
    requires bck.Valid() && answered <= bck.objs.Keys && forall id :: id in left ==> left[id].entries == []
    requires IsMerge(Partial(left, bck, answered, f, size), cut, added)
    ensures var round := Answers(Partial(left, bck, answered, f, size), answered);
            Fetched(round, Restricted(bck, answered), f, size) && IsMerge(round, cut, added)
  {
    var lo := Partial(left, bck, answered, f, size);
    var round, sub := Answers(lo, answered), Restricted(bck, answered);
    assert round.Keys == answered == sub.objs.Keys;
    assert forall id :: id in lo && lo[id].entries != [] ==> id in round;
    assert forall x :: Holds(lo, lo.Keys, x) <==> Holds(round, round.Keys, x) by {
      forall x ensures Holds(lo, lo.Keys, x) <==> Holds(round, round.Keys, x) {
        HoldsAnswers(lo, answered, x);
      }
    }
    AnswersSeparate(left, bck, answered, f, size);
    assert forall id :: Unfinished(lo, id) <==> Unfinished(round, id);
  }

  lemma HoldsAnswers(lo: Leftovers, answered: set<TargetId>, x: Name)
    requires forall id :: id in lo && id !in answered ==> lo[id].entries == []
    ensures Holds(lo, lo.Keys, x) <==> Holds(Answers(lo, answered), Answers(lo, answered).Keys, x)
  {
    var round := Answers(lo, answered);
    if Holds(lo, lo.Keys, x) {
      var id :| id in lo.Keys && id in lo && x in lo[id].entries;
      assert id in round.Keys && id in round && x in round[id].entries;
    }
    if Holds(round, round.Keys, x) {
      var id :| id in round.Keys && id in round && x in round[id].entries;
      assert id in lo.Keys && x in lo[id].entries;
    }
  }

  lemma AnswersSeparate(left: Leftovers, bck: Bucket, answered: set<TargetId>, f: Name, size: nat)
    requires bck.Valid() && answered <= bck.objs.Keys && forall id :: id in left ==> left[id].entries == []
    ensures Separate(Partial(left, bck, answered, f, size)) && NonEmptyNames(Partial(left, bck, answered, f, size))
  {
    var lo := Partial(left, bck, answered, f, size);
    forall id, x | id in lo && x in lo[id].entries ensures id in bck.objs && x in bck.objs[id] && x != [] {
      PageMembers(bck.objs[id], f, size, x);
      Order();
    }
  }

  /** What the buffer can answer from then: its own entries, and what the targets `answered` hold. */
  ghost function Known(bck: Bucket, buff: seq<Name>, answered: set<TargetId>, f: Name): seq<Name> {
    var sub := Kept(bck.all, bck, answered);
    buff + sub[After(sub, f)..]
  }

  lemma KnownIs(bck: Bucket, c: Cursor, buff: seq<Name>, answered: set<TargetId>, token: Name, f: Name)
    requires bck.Valid() && Buffered(bck.all, c.nextToken, c.floor, buff, false)
    requires c.nextToken == c.floor && !Less(token, c.floor)
    requires f == if buff == [] || !Less(token, Last(buff)) then token else Last(buff)
    ensures var k := Known(bck, buff, answered, f);
            && Sorted(k) && (forall x :: x in k ==> x in bck.all)
            && (forall x :: x in bck.all && Less(token, x) ==> (x in k <==> x in buff || HeldBy(bck, answered, x)))
  {
    var sub := Kept(bck.all, bck, answered);
    var tail := sub[After(sub, f)..];
    forall x ensures x in tail <==> x in bck.all && HeldBy(bck, answered, x) && Less(f, x) {
      TailMember(bck, answered, f, x);
    }
    TailSorted(bck, answered, f);
    Joined(buff, tail, token, f);
    forall x | x in bck.all && Less(token, x) && !Less(f, x) ensures x in buff {
      LessAsymmetric(token, x);
      InBuffer(bck.all, c, buff, token, x);
    }
  }

  lemma TailSorted(bck: Bucket, answered: set<TargetId>, f: Name)
    requires bck.Valid()
    ensures var sub := Kept(bck.all, bck, answered); Sorted(sub[After(sub, f)..])
  {
    KeptIs(bck.all, bck, answered);
  }

  lemma TailMember(bck: Bucket, answered: set<TargetId>, f: Name, x: Name)
    requires bck.Valid()
    ensures var sub := Kept(bck.all, bck, answered);
            x in sub[After(sub, f)..] <==> x in bck.all && HeldBy(bck, answered, x) && Less(f, x)
  {
    KeptIs(bck.all, bck, answered);
    var sub := Kept(bck.all, bck, answered);
    SliceMember(sub, f, [], |sub|, x);
    assert sub[After(sub, f)..|sub|] == sub[After(sub, f)..];
  }

  lemma Joined(buff: seq<Name>, tail: seq<Name>, token: Name, f: Name)
    requires Sorted(buff) && Sorted(tail) && forall x :: x in tail ==> Less(f, x)
    requires f == if buff == [] || !Less(token, Last(buff)) then token else Last(buff)
    ensures Sorted(buff + tail)
  {
    Order();
    forall i, j | 0 <= i < |buff| && 0 <= j < |tail| ensures Less(buff[i], tail[j]) {
      assert tail[j] in tail;
      assert !Less(Last(buff), buff[i]);
    }
  }

  /** A name after the token, up to the last buffered one, is buffered. */
  lemma InBuffer(all: seq<Name>, c: Cursor, buff: seq<Name>, token: Name, x: Name)
    requires Sorted(all) && Buffered(all, c.nextToken, c.floor, buff, false) && !Less(token, c.floor)
    requires buff != [] && x in all && Less(token, x) && !Less(Last(buff), x)
    ensures x in buff
  {
    var lo := After(all, c.floor);
    var i :| 0 <= i < |all| && all[i] == x;
    Order();
    AfterSplits(all, c.floor, i);
    assert lo <= i;
    assert i < lo + |buff| by {
      assert all[lo + |buff| - 1] == Last(buff);
    }
    assert buff[i - lo] == x;
  }

  /** The page that a merge of the answers gives. */
  lemma MergedPage(bck: Bucket, c: Cursor, buff: seq<Name>, left: Leftovers, answered: set<TargetId>, token: Name, f: Name,
                   size: nat, cut: Name, added: seq<Name>)
    requires bck.Valid() && size > 0 && Buffered(bck.all, c.nextToken, c.floor, buff, false)
    requires c.nextToken == c.floor && !Less(token, c.floor)
    requires f == if buff == [] || !Less(token, Last(buff)) then token else Last(buff)
    requires answered <= bck.objs.Keys && forall id :: id in left ==> left[id].entries == []
    requires IsMerge(Partial(left, bck, answered, f, size), cut, added)
    ensures var rest := (buff + added)[After(buff + added, token)..];
            rest[..Min(size, |rest|)] == Page(Known(bck, buff, answered, f), token, size)
  {
    var sub := Kept(bck.all, bck, answered);
    var k := AnswersAreContiguous(bck, left, answered, f, size, cut, added);
    KnownIs(bck, c, buff, answered, token, f);
    KeptIs(bck.all, bck, answered);
    KnownPage(sub, buff, token, f, k, size);
  }

  lemma AnswersAreContiguous(bck: Bucket, left: Leftovers, answered: set<TargetId>, f: Name, size: nat, cut: Name, added: seq<Name>)
    returns (k: nat)
    requires bck.Valid() && size > 0 && answered <= bck.objs.Keys && forall id :: id in left ==> left[id].entries == []
    requires IsMerge(Partial(left, bck, answered, f, size), cut, added)
    ensures var sub := Kept(bck.all, bck, answered);
            && After(sub, f) <= k <= |sub| && added == sub[After(sub, f)..k]
            && (k == |sub| || k - After(sub, f) >= size)
  {
    RestrictedValid(bck, answered);
    PartialMerge(left, bck, answered, f, size, cut, added);
    k := RoundIsContiguous(Restricted(bck, answered), Answers(Partial(left, bck, answered, f, size), answered), f, size, cut, added);
  }

  lemma KnownPage(sub: seq<Name>, buff: seq<Name>, token: Name, f: Name, k: nat, size: nat)
    requires Sorted(sub) && After(sub, f) <= k <= |sub| && (k == |sub| || k - After(sub, f) >= size) && size > 0
    requires Sorted(buff + sub[After(sub, f)..])
    requires f == if buff == [] || !Less(token, Last(buff)) then token else Last(buff)
    ensures var merged := buff + sub[After(sub, f)..k];
            var rest := merged[After(merged, token)..];
            rest[..Min(size, |rest|)] == Page(buff + sub[After(sub, f)..], token, size)
  {
    var known, m := buff + sub[After(sub, f)..], |buff| + (k - After(sub, f));
    KnownPrefix(sub, buff, After(sub, f), k);
    if m < |known| {
      AfterKnown(buff, sub[After(sub, f)..], token, f, sub);
    }
    PrefixPage(known, m, token, size);
  }

  lemma KnownPrefix(sub: seq<Name>, buff: seq<Name>, a: nat, k: nat)
    requires a <= k <= |sub|
    ensures (buff + sub[a..])[..|buff| + (k - a)] == buff + sub[a..k]
  {
  }

  /** The names from the targets all follow the token. */
  lemma AfterKnown(buff: seq<Name>, tail: seq<Name>, token: Name, f: Name, sub: seq<Name>)
    requires Sorted(sub) && tail == sub[After(sub, f)..] && tail != [] && Sorted(buff + tail)
    requires f == if buff == [] || !Less(token, Last(buff)) then token else Last(buff)
    ensures After(buff + tail, token) <= |buff|
  {
    AfterSplits(sub, f, After(sub, f));
    assert Less(f, tail[0]);
    Order();
    AfterSplits(buff + tail, token, |buff|);
    assert (buff + tail)[|buff|] == tail[0];
  }

  /** After a round in which only the targets `answered` have answered, the page that the merge gives
      is the direct listing if and only if each of its names was buffered before or is held by one of
      those targets. */
  lemma PartialPageRightIff(bck: Bucket, c: Cursor, buff: seq<Name>, left: Leftovers, answered: set<TargetId>, token: Name,
                            f: Name, size: nat, cut: Name, added: seq<Name>)
    requires bck.Valid() && size > 0 && Buffered(bck.all, c.nextToken, c.floor, buff, false)
    requires c.nextToken == c.floor && !Less(token, c.floor)
    requires f == if buff == [] || !Less(token, Last(buff)) then token else Last(buff)
    requires answered <= bck.objs.Keys && forall id :: id in left ==> left[id].entries == []
    requires IsMerge(Partial(left, bck, answered, f, size), cut, added)
    ensures var rest := (buff + added)[After(buff + added, token)..];
            rest[..Min(size, |rest|)] == Page(bck.all, token, size) <==> PageKnown(bck, buff, answered, token, size)
  {
    MergedPage(bck, c, buff, left, answered, token, f, size, cut, added);
    KnownIs(bck, c, buff, answered, token, f);
    SubPage(bck.all, Known(bck, buff, answered, f), token, size);
    forall x | x in Page(bck.all, token, size) ensures x in bck.all && Less(token, x) {
      PageMembers(bck.all, token, size, x);
    }
  }

  ghost predicate PageKnown(bck: Bucket, buff: seq<Name>, answered: set<TargetId>, token: Name, size: nat) {
    forall x :: x in Page(bck.all, token, size) ==> x in buff || HeldBy(bck, answered, x)
  }

  /** Whether the next request will merge what arrived: always if something did, and if nothing had
      been asked for before. */
  lemma PartialCanMerge(left: Leftovers, bck: Bucket, answered: set<TargetId>, f: Name, size: nat)
    requires answered <= bck.objs.Keys && size > 0 && !CanMerge(left) && forall id :: id in left ==> left[id].entries == []
    ensures answered == {} ==> !CanMerge(Partial(left, bck, answered, f, size))
    ensures left == map[] && answered != {} ==> CanMerge(Partial(left, bck, answered, f, size))
  {
    var lo := Partial(left, bck, answered, f, size);
    if answered == {} {
      assert lo == left;
    } else if left == map[] {
      assert lo.Keys == answered;
      assert forall id :: id in lo && lo[id].entries == [] ==> lo[id].done;
    }
  }

  /** Some targets answer; then one fails, and the request returns its error. */
  method FetchSome(b: LsobjBuffer, bck: Bucket, answered: set<TargetId>, f: Name, size: nat)
    requires answered <= bck.objs.Keys
    modifies b`leftovers
    ensures b.leftovers == Partial(old(b.leftovers), bck, answered, f, size)
  {
    var ids := answered;
    while ids != {}
      invariant ids <= answered
      invariant b.leftovers == Partial(old(b.leftovers), bck, answered - ids, f, size)
    {
      var id :| id in ids;
      b.Set(id, Page(bck.objs[id], f, size), size);
      ids := ids - {id};
    }
    assert answered - ids == answered;
  }

  /** A target that answered with a full page ended before `x`: what it holds beyond is not merged. */
  ghost predicate Beyond(lo: Leftovers, x: Name) {
    exists id :: Unfinished(lo, id) && Less(Last(lo[id].entries), x)
  }

  lemma BeyondCut(lo: Leftovers, cut: Name, x: Name)
    requires IsCut(lo, lo.Keys, cut)
    ensures cut != [] && Less(cut, x) <==> Beyond(lo, x)
  {
    Order();
    if Beyond(lo, x) {
      var id :| Unfinished(lo, id) && Less(Last(lo[id].entries), x);
      assert id in lo.Keys;
    }
  }

  /** The name has arrived: it was buffered, or a target that answered holds it, it follows the token
      `f` that the targets were asked for, and no such target with a full page ends before it. */
  ghost predicate Arrived(bck: Bucket, buff: seq<Name>, left: Leftovers, answered: set<TargetId>, f: Name, size: nat, x: Name) {
    x in buff || (HeldBy(bck, answered, x) && Less(f, x) && !Beyond(Partial(left, bck, answered, f, size), x))
  }

  lemma ArrivedIff(bck: Bucket, buff: seq<Name>, left: Leftovers, answered: set<TargetId>, f: Name, size: nat,
                   cut: Name, added: seq<Name>, x: Name)
    requires bck.Valid() && size > 0 && answered <= bck.objs.Keys && forall id :: id in left ==> left[id].entries == []
    requires IsMerge(Partial(left, bck, answered, f, size), cut, added)
    ensures x in buff + added <==> Arrived(bck, buff, left, answered, f, size, x)
  {
    var round, sub := Answers(Partial(left, bck, answered, f, size), answered), Restricted(bck, answered);
    RestrictedValid(bck, answered);
    PartialMerge(left, bck, answered, f, size, cut, added);
    RoundMember(sub, round, f, size, cut, x);
    BeyondCut(Partial(left, bck, answered, f, size), cut, x);
    HeldInSub(bck, answered, x);
  }

  lemma HeldInSub(bck: Bucket, answered: set<TargetId>, x: Name)
    requires bck.Valid()
    ensures x in Kept(bck.all, bck, answered) <==> HeldBy(bck, answered, x)
  {
    KeptIs(bck.all, bck, answered);
    if HeldBy(bck, answered, x) {
      var id :| id in answered && id in bck.objs && x in bck.objs[id];
    }
  }

  lemma MergedListing(bck: Bucket, c: Cursor, buff: seq<Name>, left: Leftovers, answered: set<TargetId>, token: Name, f: Name,
                      size: nat, cut: Name, added: seq<Name>)
    requires bck.Valid() && size > 0 && Buffered(bck.all, c.nextToken, c.floor, buff, false)
    requires c.nextToken == c.floor && !Less(token, c.floor)
    requires f == if buff == [] || !Less(token, Last(buff)) then token else Last(buff)
    requires answered <= bck.objs.Keys && forall id :: id in left ==> left[id].entries == []
    requires IsMerge(Partial(left, bck, answered, f, size), cut, added)
    ensures Sorted(buff + added) && forall x :: x in buff + added ==> x in bck.all
  {
    var sub := Kept(bck.all, bck, answered);
    var k := AnswersAreContiguous(bck, left, answered, f, size, cut, added);
    KnownIs(bck, c, buff, answered, token, f);
    KnownPrefix(sub, buff, After(sub, f), k);
    assert buff + added == Known(bck, buff, answered, f)[..|buff| + (k - After(sub, f))];
  }

  /** After a failed round, any next request that merges what arrived, for any token and any size, is
      answered with the direct listing if and only if each name of it has arrived. */
  lemma NextPageRightIff(bck: Bucket, c: Cursor, buff: seq<Name>, left: Leftovers, answered: set<TargetId>, token: Name,
                         f: Name, size: nat, cut: Name, added: seq<Name>, t: Name, n: nat)
    requires bck.Valid() && size > 0 && Buffered(bck.all, c.nextToken, c.floor, buff, false)
    requires c.nextToken == c.floor && !Less(token, c.floor)
    requires f == if buff == [] || !Less(token, Last(buff)) then token else Last(buff)
    requires answered <= bck.objs.Keys && forall id :: id in left ==> left[id].entries == []
    requires IsMerge(Partial(left, bck, answered, f, size), cut, added)
    ensures var rest := (buff + added)[After(buff + added, t)..];
            rest[..Min(n, |rest|)] == Page(bck.all, t, n) <==> PageArrived(bck, buff, left, answered, f, size, t, n)
  {
    MergedListing(bck, c, buff, left, answered, token, f, size, cut, added);
    var merged := buff + added;
    assert merged[..|merged|] == merged;
    PrefixPage(merged, |merged|, t, n);
    SubPage(bck.all, merged, t, n);
    forall x ensures x in merged <==> Arrived(bck, buff, left, answered, f, size, x) {
      ArrivedIff(bck, buff, left, answered, f, size, cut, added, x);
    }
  }

  ghost predicate PageArrived(bck: Bucket, buff: seq<Name>, left: Leftovers, answered: set<TargetId>, f: Name, size: nat, t: Name, n: nat) {
    forall x :: x in Page(bck.all, t, n) ==> Arrived(bck, buff, left, answered, f, size, x)
  }

  /** A request that needed more than was buffered and failed after the targets `answered` had
      answered, and then another one, for any token and size, with all targets answering. Its page is
      the direct listing if and only if it goes back before what was returned last, or there was
      nothing to merge, or each name of it has arrived. For the same request again: or each name of it
      was buffered before or is held by one of the targets that had answered. */
  method NextAfterFailedRound(b: LsobjBuffer, bck: Bucket, answered: set<TargetId>, token: Name, size: nat, t: Name, n: nat)
    returns (page: seq<Name>, hasEnough: bool)
    requires bck.Valid() && b.Valid(bck) && size > 0 && n > 0 && answered <= bck.objs.Keys && bck.objs != map[]
    requires b.floor == b.nextToken && !Less(token, b.nextToken) && !CanMerge(b.leftovers)
    modifies b
    ensures hasEnough
    ensures page == Page(bck.all, t, n) <==>
              || Less(t, old(b.nextToken))
              || !CanMerge(Partial(old(b.leftovers), bck, answered, old(b.LastToken(token)), size))
              || PageArrived(bck, old(b.currentBuff), old(b.leftovers), answered, old(b.LastToken(token)), size, t, n)
    ensures t == token && n == size ==>
              (page == Page(bck.all, t, n) <==>
                 || !CanMerge(Partial(old(b.leftovers), bck, answered, old(b.LastToken(token)), size))
                 || PageKnown(bck, old(b.currentBuff), answered, token, size))
  {
    ghost var before := b.State();
    var f := b.LastToken(token);
    FetchSome(b, bck, answered, f, size);
    AnswersSeparate(before.left, bck, answered, f, size);
    ghost var asked := b.State();
    ghost var cut, added;
    page, hasEnough, cut, added := b.Get(t, n);
    if Less(t, before.c.nextToken) {
      Irreflexive(t);
    } else if CanMerge(asked.left) {
      NextPageRightIff(bck, before.c, before.buff, before.left, answered, token, f, size, cut, added, t, n);
      PartialPageRightIff(bck, before.c, before.buff, before.left, answered, token, f, size, cut, added);
    } else {
      NothingArrived(bck, before, asked, answered, f, size);
      FirstGet(bck, asked, t, n, b.State(), page, hasEnough, cut, added);
    }
    if !hasEnough {
      page, hasEnough := RequestMore(b, bck, t, n);
    }
  }

  lemma NothingArrived(bck: Bucket, s: Buf, asked: Buf, answered: set<TargetId>, f: Name, size: nat)
    requires InOrder(bck, s) && !CanMerge(s.left) && answered <= bck.objs.Keys
    requires asked == s.(left := Partial(s.left, bck, answered, f, size)) && !CanMerge(asked.left)
    ensures InOrder(bck, asked)
  {
  }

  /** Two targets with one name each; the one with the second name fails. */
  method TruncatedListing(x: Name, y: Name) returns (page: seq<Name>)
    requires x != [] && Less(x, y)
    ensures page != [x, y] && Page([x, y], [], 2) == [x, y]
  {
    var bck := Bucket(map["t1" := [x], "t2" := [y]], [x, y]);
    TwoTargets(x, y);
    var b := new LsobjBuffer();
    assert b.leftovers == map[] && Buffered(bck.all, [], [], [], false);
    PartialCanMerge(map[], bck, {"t1"}, [], 2);
    var hasEnough;
    page, hasEnough := NextAfterFailedRound(b, bck, {"t1"}, [], 2, [], 2);
    assert y in Page(bck.all, [], 2) && !HeldBy(bck, {"t1"}, y);
  }

  /** One target holds both names; another one, which holds none, fails a request for one name. A
      larger page is then cut short, although the target that answered holds all of it. */
  method LargerPageIsCut(x: Name, y: Name) returns (page: seq<Name>)
    requires x != [] && Less(x, y)
    ensures page != [x, y] && Page([x, y], [], 2) == [x, y]
  {
    var bck := Bucket(map["t1" := [x, y], "t2" := []], [x, y]);
    OneTarget(x, y);
    var b := new LsobjBuffer();
    assert b.leftovers == map[] && Buffered(bck.all, [], [], [], false);
    PartialCanMerge(map[], bck, {"t1"}, [], 1);
    ghost var lo := Partial(map[], bck, {"t1"}, [], 1);
    assert lo["t1"] == TargetBuffer([x], false);
    assert Unfinished(lo, "t1") && Less(Last(lo["t1"].entries), y);
    var hasEnough;
    page, hasEnough := NextAfterFailedRound(b, bck, {"t1"}, [], 1, [], 2);
    assert y in Page(bck.all, [], 2) && Beyond(lo, y);
  }

  lemma OneTarget(x: Name, y: Name)
    requires x != [] && Less(x, y)
    ensures Bucket(map["t1" := [x, y], "t2" := []], [x, y]).Valid() && Page([x, y], [], 2) == [x, y]
    ensures Page([x, y], [], 1) == [x] && !Less([], [])
  {
    Order();
    NoNameBeforeFirst([x, y]);
    var objs: map<TargetId, seq<Name>> := map["t1" := [x, y], "t2" := []];
    assert "t1" in objs && "t2" in objs && x in objs["t1"] && y in objs["t1"];
  }

  lemma TwoTargets(x: Name, y: Name)
    requires x != [] && Less(x, y)
    ensures Bucket(map["t1" := [x], "t2" := [y]], [x, y]).Valid() && Page([x, y], [], 2) == [x, y] && x != y
    ensures !Less([], [])
  {
    Order();
    NoNameBeforeFirst([x, y]);
    var objs := map["t1" := [x], "t2" := [y]];
    assert "t1" in objs && "t2" in objs && x in objs["t1"] && y in objs["t2"];
  }

  // ---------------------------------------------------------------- every run, with failures

  /** What every request keeps, failed or not: names in order, and leftovers that follow them. */
  ghost predicate Weak(bck: Bucket, s: Buf) {
    && Sorted(s.buff) && (forall x :: x in s.buff ==> x in bck.all)
    && s.left.Keys <= bck.objs.Keys && Separate(s.left)
    && (forall id, x :: id in s.left && x in s.left[id].entries ==> x in bck.all && (s.buff != [] ==> Less(Last(s.buff), x)))
  }

  /** The targets are asked for what follows this. */
  ghost function AskedAfter(buff: seq<Name>, t: Name): Name {
    if buff == [] || !Less(t, Last(buff)) then t else Last(buff)
  }

  /** The buffer can answer without asking. */
  ghost predicate Enough(s: Buf, t: Name, n: nat) {
    CanMerge(s.left) || n <= |s.buff| - After(s.buff, t)
  }

  /** The request will have this name at hand. */
  ghost predicate AtHand(s: Buf, t: Name, n: nat, x: Name) {
    || x in s.buff
    || (CanMerge(s.left) && Holds(s.left, s.left.Keys, x) && !Beyond(s.left, x))
    || (!Enough(s, t, n) && Less(AskedAfter(s.buff, t), x))
  }

  lemma MergedWeak(bck: Bucket, s: Buf, cut: Name, added: seq<Name>)
    requires bck.Valid() && Weak(bck, s) && IsMerge(s.left, cut, added)
    ensures Sorted(s.buff + added) && forall x :: x in s.buff + added ==> x in bck.all
  {
    forall x | x in added ensures x in bck.all && (s.buff != [] ==> Less(Last(s.buff), x)) {
      var id :| id in s.left.Keys && id in s.left && x in s.left[id].entries;
    }
    Order();
    forall i, j | 0 <= i < |s.buff| && 0 <= j < |added| ensures Less(s.buff[i], added[j]) {
      assert added[j] in added;
      assert !Less(Last(s.buff), s.buff[i]);
    }
  }

  /** Handing out a page of a sorted part of the listing. */
  lemma HandOut(all: seq<Name>, merged: seq<Name>, t: Name, n: nat)
    requires Sorted(all) && [] !in all && Sorted(merged) && forall x :: x in merged ==> x in all
    ensures var rest := merged[After(merged, t)..];
            && (rest[..Min(n, |rest|)] == Page(all, t, n) <==> forall x :: x in Page(all, t, n) ==> x in merged)
            && Sorted(rest[Min(n, |rest|)..]) && forall x :: x in rest[Min(n, |rest|)..] ==> x in all
  {
    assert merged[..|merged|] == merged;
    PrefixPage(merged, |merged|, t, n);
    SubPage(all, merged, t, n);
    var rest := merged[After(merged, t)..];
    var kept := rest[Min(n, |rest|)..];
    assert kept == merged[After(merged, t) + Min(n, |rest|)..];
  }

  /** A look into the buffer that has enough. */
  lemma WeakGet(bck: Bucket, s: Buf, t: Name, n: nat, u: Buf, page: seq<Name>, hasEnough: bool, cut: Name, added: seq<Name>)
    requires bck.Valid() && Weak(bck, s) && Got(s, t, n, u, page, hasEnough, cut, added)
    ensures Weak(bck, u)
    ensures hasEnough ==> !Less(t, s.c.nextToken) && Enough(s, t, n)
    ensures hasEnough ==> (page == Page(bck.all, t, n) <==> forall x :: x in Page(bck.all, t, n) ==> x in s.buff + added)
    ensures !hasEnough && !Less(t, s.c.nextToken) ==> !Enough(s, t, n) && u == s
    ensures !hasEnough && Less(t, s.c.nextToken) ==> u == Buf(Cursor(t, t), [], map[])
  {
    if !Less(t, s.c.nextToken) {
      if CanMerge(s.left) {
        MergedWeak(bck, s, cut, added);
      }
      assert !CanMerge(s.left) ==> s.buff + added == s.buff;
      HandOut(bck.all, s.buff + added, t, n);
    }
  }

  /** Asking all targets brings every name of the page that follows what they are asked for. */
  lemma FetchedBrings(bck: Bucket, s: Buf, t: Name, n: nat, round: Leftovers, cut: Name, added: seq<Name>, x: Name)
    requires bck.Valid() && Weak(bck, s) && n > 0 && Fetched(round, bck, AskedAfter(s.buff, t), n) && IsMerge(round, cut, added)
    requires x in Page(bck.all, t, n)
    ensures x in s.buff + added <==> x in s.buff || Less(AskedAfter(s.buff, t), x)
  {
    var f, all := AskedAfter(s.buff, t), bck.all;
    var k := RoundIsContiguous(bck, round, f, n, cut, added);
    if f != t {
      LessAsymmetric(t, f);
      AfterMonotone(all, t, f);
    }
    SliceHas(all, t, f, n, k, x);
  }

  lemma SliceHas(all: seq<Name>, t: Name, f: Name, n: nat, k: nat, x: Name)
    requires Sorted(all) && After(all, t) <= After(all, f) <= k <= |all| && (k == |all| || k - After(all, f) >= n)
    requires x in Page(all, t, n)
    ensures x in all[After(all, f)..k] <==> Less(f, x)
  {
    var a := After(all, t);
    var j :| 0 <= j < |Page(all, t, n)| && Page(all, t, n)[j] == x;
    assert all[a + j] == x && a + j < |all| && j < n;
    AfterSplits(all, f, a + j);
    if Less(f, x) {
      assert all[After(all, f)..k][a + j - After(all, f)] == x;
    }
    if x in all[After(all, f)..k] {
      var m :| After(all, f) <= m < k && all[m] == x;
      AfterSplits(all, f, m);
    }
  }

  lemma FetchedWeak(bck: Bucket, s: Buf, t: Name, n: nat, round: Leftovers)
    requires bck.Valid() && Weak(bck, s) && Fetched(round, bck, AskedAfter(s.buff, t), n)
    ensures Weak(bck, s.(left := round)) && NonEmptyNames(round)
  {
    var f := AskedAfter(s.buff, t);
    FetchedIsSeparate(round, bck, f, n);
    forall id, x | id in round && x in round[id].entries ensures x in bck.all && (s.buff != [] ==> Less(Last(s.buff), x)) {
      PageMembers(bck.objs[id], f, n, x);
      NotBelow(s.buff, t, x);
    }
  }

  lemma PartialWeak(bck: Bucket, s: Buf, t: Name, n: nat, answered: set<TargetId>)
    requires bck.Valid() && Weak(bck, s) && answered <= bck.objs.Keys && forall id :: id in s.left ==> s.left[id].entries == []
    ensures Weak(bck, s.(left := Partial(s.left, bck, answered, AskedAfter(s.buff, t), n)))
  {
    var f := AskedAfter(s.buff, t);
    AnswersSeparate(s.left, bck, answered, f, n);
    var lo := Partial(s.left, bck, answered, f, n);
    forall id, x | id in lo && x in lo[id].entries ensures x in bck.all && (s.buff != [] ==> Less(Last(s.buff), x)) {
      PageMembers(bck.objs[id], f, n, x);
      NotBelow(s.buff, t, x);
    }
  }

  lemma NotBelow(buff: seq<Name>, t: Name, x: Name)
    requires Less(AskedAfter(buff, t), x)
    ensures buff != [] ==> Less(Last(buff), x)
  {
    Order();
  }

  /** Any request on any buffer that earlier requests, failed or not, have left. It fails, if the
      buffer does not have enough, after the targets `answered` have answered and `fails`. Otherwise
      its page is the direct listing if and only if it goes back before what was returned last, or has
      every name of it at hand: buffered, or left over from a failed round and not beyond its cut, or
      after the name up to which the buffer reaches when more is asked for. */
  method AnyRequest(b: LsobjBuffer, bck: Bucket, t: Name, n: nat, answered: set<TargetId>, fails: bool)
    returns (page: seq<Name>, hasEnough: bool)
    requires bck.Valid() && Weak(bck, b.State()) && n > 0 && bck.objs != map[] && answered <= bck.objs.Keys
    modifies b
    ensures Weak(bck, b.State())
    ensures hasEnough <==> !fails || (!Less(t, old(b.nextToken)) && Enough(old(b.State()), t, n))
    ensures hasEnough ==>
              (page == Page(bck.all, t, n) <==>
                 Less(t, old(b.nextToken)) || forall x :: x in Page(bck.all, t, n) ==> AtHand(old(b.State()), t, n, x))
  {
    ghost var s := b.State();
    ghost var cut, added;
    WeakNames(bck, s);
    page, hasEnough, cut, added := b.Get(t, n);
    WeakGet(bck, s, t, n, b.State(), page, hasEnough, cut, added);
    if hasEnough {
      EnoughAtHand(bck, s, t, n, cut, added);
    } else if fails {
      ghost var u := b.State();
      NoEntries(u.left);
      FetchSome(b, bck, answered, b.LastToken(t), n);
      PartialWeak(bck, u, t, n, answered);
    } else {
      Irreflexive(t);
      ghost var u := b.State();
      page, hasEnough := AskAll(b, bck, t, n);
      forall x | x in Page(bck.all, t, n) ensures Less(t, x) {
        PageMembers(bck.all, t, n, x);
      }
      if Less(t, s.c.nextToken) {
        assert AskedAfter(u.buff, t) == t;
      } else {
        assert forall x :: AtHand(s, t, n, x) <==> x in s.buff || Less(AskedAfter(s.buff, t), x);
      }
    }
  }

  lemma WeakNames(bck: Bucket, s: Buf)
    requires bck.Valid() && Weak(bck, s)
    ensures NonEmptyNames(s.left)
  {
  }

  lemma NoEntries(left: Leftovers)
    requires !CanMerge(left)
    ensures forall id :: id in left ==> left[id].entries == []
  {
  }

  /** What is merged is what is left over and not beyond the cut. */
  lemma EnoughAtHand(bck: Bucket, s: Buf, t: Name, n: nat, cut: Name, added: seq<Name>)
    requires Enough(s, t, n) && if CanMerge(s.left) then IsMerge(s.left, cut, added) else added == []
    ensures forall x :: x in s.buff + added <==> AtHand(s, t, n, x)
  {
    forall x ensures x in s.buff + added <==> AtHand(s, t, n, x) {
      if CanMerge(s.left) {
        BeyondCut(s.left, cut, x);
      }
    }
  }

  /** The round with all targets, and the second look. */
  method AskAll(b: LsobjBuffer, bck: Bucket, t: Name, n: nat) returns (page: seq<Name>, hasEnough: bool)
    requires bck.Valid() && Weak(bck, b.State()) && n > 0 && bck.objs != map[]
    requires !Less(t, b.nextToken)
    modifies b
    ensures Weak(bck, b.State()) && hasEnough
    ensures page == Page(bck.all, t, n) <==>
              forall x :: x in Page(bck.all, t, n) ==> x in old(b.currentBuff) || Less(AskedAfter(old(b.currentBuff), t), x)
  {
    ghost var s := b.State();
    var f := b.LastToken(t);
    FetchRound(b, bck, f, n);
    ghost var asked := b.State();
    FetchedWeak(bck, s, t, n, asked.left);
    FetchedCanMerge(asked.left, bck, f, n);
    ghost var cut, added;
    page, hasEnough, cut, added := b.Get(t, n);
    WeakGet(bck, asked, t, n, b.State(), page, hasEnough, cut, added);
    forall x | x in Page(bck.all, t, n) ensures x in s.buff + added <==> x in s.buff || Less(AskedAfter(s.buff, t), x) {
      FetchedBrings(bck, s, t, n, asked.left, cut, added, x);
    }
  }
}
