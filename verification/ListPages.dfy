/** Paging through a bucket with the request buffer (ais/proxy.go, `listObjectsAIS` without cache). */
module ListPages {
  import opened Common
  import opened Names
  import opened LsobjBuffers

  // ---------------------------------------------------------------- what a client sees

  /** The buffer takes `token` for one it can serve, although it has dropped what follows it. */
  predicate Skipped(c: Cursor, token: Name) {
    !Less(token, c.nextToken) && Less(token, c.floor)
  }

  function Answer(all: seq<Name>, c: Cursor, token: Name, size: nat): seq<Name> {
    if Skipped(c, token) then [] else Page(all, token, size)
  }

  /** `floor` runs ahead of `nextToken` only past the end of the bucket. */
  ghost predicate CursorOk(all: seq<Name>, c: Cursor) {
    !Less(c.floor, c.nextToken) && (c.floor != c.nextToken ==> After(all, c.floor) == |all|)
  }

  ghost function CursorOf(b: LsobjBuffer): Cursor
    reads b
  {
    Cursor(b.nextToken, b.floor)
  }

  // ---------------------------------------------------------------- one request

  /** Asks every target for `size` names after `f`. */
  method FetchRound(b: LsobjBuffer, bck: Bucket, f: Name, size: nat)
    requires b.leftovers.Keys <= bck.objs.Keys
    modifies b`leftovers
    ensures Fetched(b.leftovers, bck, f, size)
  {
    var ids := bck.objs.Keys;
    while ids != {}
      invariant ids <= bck.objs.Keys
      invariant b.leftovers.Keys <= bck.objs.Keys <= b.leftovers.Keys + ids
      invariant forall id :: id in bck.objs && id !in ids ==>
                  var page := Page(bck.objs[id], f, size);
                  b.leftovers[id] == TargetBuffer(page, |page| < size)
      decreases ids
    {
      var id :| id in ids;
      b.Set(id, Page(bck.objs[id], f, size), size);
      ids := ids - {id};
    }
  }

  lemma NothingToMerge(lo: Leftovers, cut: Name, added: seq<Name>)
    requires IsMerge(lo, cut, added)
    requires forall id :: id in lo ==> lo[id].entries == []
    ensures added == []
  {
    var x := if added == [] then [] else added[0];
    assert x in added ==> Holds(lo, lo.Keys, x);
  }

  /** Skipping to a token inside a piece of the listing is skipping to it in the listing. */
  lemma RestOfSlice(all: seq<Name>, lo: nat, hi: nat, t: Name)
    requires Sorted(all) && lo <= After(all, t) <= hi <= |all|
    ensures After(all[lo..hi], t) == After(all, t) - lo
    ensures all[lo..hi][After(all[lo..hi], t)..] == all[After(all, t)..hi]
  {
    AfterIs(all[lo..hi], t, After(all, t) - lo);
  }

  /** A token past a piece of the listing skips all of it. */
  lemma RestPastSlice(all: seq<Name>, lo: nat, hi: nat, t: Name, added: seq<Name>)
    requires Sorted(all) && lo <= hi <= |all|
    requires lo < hi ==> !Less(t, all[hi - 1])
    requires forall i :: 0 <= i < |added| ==> Less(t, added[i])
    ensures (all[lo..hi] + added)[After(all[lo..hi] + added, t)..] == added
  {
    var merged := all[lo..hi] + added;
    Order();
    assert forall i :: lo <= i < hi ==> !Less(t, all[i]);
    AfterIs(merged, t, hi - lo);
  }

  lemma RestOfJoined(all: seq<Name>, lo: nat, hi: nat, k: nat, t: Name)
    requires Sorted(all) && lo <= After(all, t) <= hi <= k <= |all| && lo <= hi
    ensures var merged := all[lo..hi] + all[hi..k];
            merged[After(merged, t)..] == all[After(all, t)..k]
  {
    assert all[lo..hi] + all[hi..k] == all[lo..k];
    RestOfSlice(all, lo, k, t);
  }

  /** After a round, the entries at hand are the listing after the requested token. */
  lemma RestAfterRound(all: seq<Name>, lo: nat, hi: nat, t: Name, f: Name, k: nat)
    requires Sorted(all) && lo <= After(all, t) && lo <= hi <= |all|
    requires f == if lo == hi || !Less(t, all[hi - 1]) then t else all[hi - 1]
    requires After(all, f) <= k <= |all|
    ensures After(all, t) <= k
    ensures var merged := all[lo..hi] + all[After(all, f)..k];
            merged[After(merged, t)..] == all[After(all, t)..k]
  {
    if f == t {
      Irreflexive(t);
      forall i | After(all, t) <= i < k ensures Less(t, all[i]) { AfterSplits(all, t, i); }
      RestPastSlice(all, lo, hi, t, all[After(all, f)..k]);
    } else {
      AfterOwn(all, hi - 1);
      AfterSplits(all, t, hi - 1);
      RestOfJoined(all, lo, hi, k, t);
    }
  }

  /** Handing out a page from entries `all[After(t)..k]` keeps the buffer in order. */
  lemma HandOutKeepsOrder(all: seq<Name>, c: Cursor, t: Name, k: nat, size: nat, allDone: bool)
    requires Sorted(all) && After(all, t) <= k <= |all| && size > 0
    requires if allDone then k == |all| else k - After(all, t) >= size
    requires !Less(t, c.floor) && !Less(t, c.nextToken)
    ensures var rest := all[After(all, t)..k];
            var n := Min(size, |rest|);
            var c' := Advance(c, t, rest[..n]);
            && rest[..n] == Page(all, t, size)
            && Buffered(all, c'.nextToken, c'.floor, rest[n..], allDone)
  {
    var a, n := After(all, t), Min(size, k - After(all, t));
    TakeDrop(all, a, k, n);
    assert all[a..a + n] == Page(all, t, size);
    AdvanceKeepsOrder(all, c, t, k, n, allDone);
  }

  lemma TakeDrop(all: seq<Name>, a: nat, k: nat, n: nat)
    requires a + n <= k <= |all|
    ensures all[a..k][..n] == all[a..a + n] && all[a..k][n..] == all[a + n..k]
  {
  }

  lemma AdvanceKeepsOrder(all: seq<Name>, c: Cursor, t: Name, k: nat, n: nat, allDone: bool)
    requires Sorted(all) && After(all, t) + n <= k <= |all|
    requires n > 0 || (k == After(all, t) && allDone)
    requires allDone ==> k == |all|
    requires !Less(t, c.floor) && !Less(t, c.nextToken)
    ensures var c' := Advance(c, t, all[After(all, t)..After(all, t) + n]);
            Buffered(all, c'.nextToken, c'.floor, all[After(all, t) + n..k], allDone)
  {
    if n > 0 {
      var i := After(all, t) + n - 1;
      AfterOwn(all, i);
      Irreflexive(all[i]);
    }
  }

  /** The first `get`, at or past `nextToken`: nothing new to merge. */
  lemma BufferedAnswer(all: seq<Name>, c: Cursor, token: Name, size: nat, buff: seq<Name>, allDone: bool)
    requires Sorted(all) && size > 0 && Buffered(all, c.nextToken, c.floor, buff, allDone)
    requires !Less(token, c.nextToken)
    ensures var rest := buff[After(buff, token)..];
            var n := Min(size, |rest|);
            allDone || size <= |rest| ==>
              && rest[..n] == Answer(all, c, token, size)
              && var c' := Advance(c, token, rest[..n]);
              Buffered(all, c'.nextToken, c'.floor, rest[n..], allDone)
  {
    var lo, hi := After(all, c.floor), After(all, c.floor) + |buff|;
    if !Skipped(c, token) {
      AfterMonotone(all, c.floor, token);
      if After(all, token) <= hi {
        RestOfSlice(all, lo, hi, token);
        if allDone || size <= hi - After(all, token) {
          HandOutKeepsOrder(all, c, token, hi, size, allDone);
        }
      } else {
        RestPastSlice(all, lo, hi, token, []);
        assert buff + [] == buff;
      }
    }
  }

  method ListPage(b: LsobjBuffer, bck: Bucket, token: Name, size: nat) returns (page: seq<Name>, hasEnough: bool)
    requires bck.Valid() && b.Valid(bck) && size > 0
    modifies b
    ensures hasEnough <==> bck.objs != map[]
    ensures b.Valid(bck)
    ensures hasEnough ==> page == Answer(bck.all, old(CursorOf(b)), token, size)
    ensures hasEnough ==> CursorOf(b) == Advance(old(CursorOf(b)), token, page)
  {
    NoTargetsNoNames(bck);
    page, hasEnough := TryBuffer(b, bck, token, size);
    if !hasEnough {
      page, hasEnough := RequestMore(b, bck, token, size);
    }
  }

  lemma NoTargetsNoNames(bck: Bucket)
    requires bck.Valid()
    ensures bck.all != [] ==> bck.objs != map[]
  {
    if bck.all != [] {
      assert bck.all[0] in bck.all;
    }
  }

  /** The first `get`: answers from what is already buffered. */
  method TryBuffer(b: LsobjBuffer, bck: Bucket, token: Name, size: nat) returns (page: seq<Name>, hasEnough: bool)
    requires Sorted(bck.all) && b.Valid(bck) && size > 0
    modifies b
    ensures b.Valid(bck)
    ensures hasEnough ==> bck.all != [] || bck.objs != map[]
    ensures hasEnough ==> page == Answer(bck.all, old(CursorOf(b)), token, size)
    ensures hasEnough ==> CursorOf(b) == Advance(old(CursorOf(b)), token, page)
    ensures !hasEnough ==> b.floor == b.nextToken && !CanMerge(b.leftovers) && !Less(token, b.nextToken)
    ensures !hasEnough ==> CursorOf(b) == if Less(token, old(b.nextToken)) then Cursor(token, token) else old(CursorOf(b))
  {
    ghost var before := b.State();
    ghost var cut, added;
    page, hasEnough, cut, added := b.Get(token, size);
    FirstGet(bck, before, token, size, b.State(), page, hasEnough, cut, added);
  }

  lemma FirstGet(bck: Bucket, s: Buf, token: Name, size: nat, t: Buf, page: seq<Name>, hasEnough: bool, cut: Name, added: seq<Name>)
    requires Sorted(bck.all) && InOrder(bck, s) && size > 0
    requires Got(s, token, size, t, page, hasEnough, cut, added)
    ensures InOrder(bck, t)
    ensures hasEnough ==> bck.all != [] || bck.objs != map[]
    ensures hasEnough ==> page == Answer(bck.all, s.c, token, size) && t.c == Advance(s.c, token, page)
    ensures !hasEnough ==> t.c.floor == t.c.nextToken && !CanMerge(t.left) && !Less(token, t.c.nextToken)
    ensures !hasEnough ==> t.c == if Less(token, s.c.nextToken) then Cursor(token, token) else s.c
  {
    if Less(token, s.c.nextToken) {
      Irreflexive(token);
    } else {
      if CanMerge(s.left) {
        NothingToMerge(s.left, cut, added);
        assert Emptied(s.left) == s.left;
      }
      assert s.buff + added == s.buff;
      BufferedAnswer(bck.all, s.c, token, size, s.buff, CanMerge(s.left));
    }
  }

  /** One round of requests, and the second `get`, which always has enough. */
  method RequestMore(b: LsobjBuffer, bck: Bucket, token: Name, size: nat) returns (page: seq<Name>, hasEnough: bool)
    requires bck.Valid() && b.Valid(bck) && size > 0
    requires b.floor == b.nextToken && !Less(token, b.nextToken) && !CanMerge(b.leftovers)
    modifies b
    ensures hasEnough <==> bck.objs != map[]
    ensures b.Valid(bck)
    ensures hasEnough ==> page == Page(bck.all, token, size)
    ensures hasEnough ==> CursorOf(b) == Advance(old(CursorOf(b)), token, page)
  {
    ghost var before := b.State();
    var f := b.LastToken(token);
    FetchRound(b, bck, f, size);
    FetchedIsSeparate(b.leftovers, bck, f, size);
    ghost var asked := b.State();
    ghost var cut, added;
    page, hasEnough, cut, added := b.Get(token, size);
    SecondGet(bck, before, token, size, f, asked, b.State(), page, hasEnough, cut, added);
  }

  lemma SecondGet(bck: Bucket, s: Buf, token: Name, size: nat, f: Name, asked: Buf, t: Buf,
                  page: seq<Name>, hasEnough: bool, cut: Name, added: seq<Name>)
    requires bck.Valid() && InOrder(bck, s) && size > 0
    requires s.c.floor == s.c.nextToken && !Less(token, s.c.nextToken) && !CanMerge(s.left)
    requires f == if s.buff == [] || !Less(token, Last(s.buff)) then token else Last(s.buff)
    requires asked == s.(left := asked.left) && Fetched(asked.left, bck, f, size)
    requires Got(asked, token, size, t, page, hasEnough, cut, added)
    ensures hasEnough <==> bck.objs != map[]
    ensures InOrder(bck, t)
    ensures hasEnough ==> page == Page(bck.all, token, size) && t.c == Advance(s.c, token, page)
  {
    if bck.objs != map[] {
      FetchedCanMerge(asked.left, bck, f, size);
      RoundAnswer(bck, s.c, token, size, f, s.buff, asked.left, cut, added);
      EmptiedDone(asked.left);
    } else {
      assert asked.left == map[];
      NoTargetsNoNames(bck);
    }
  }

  lemma FetchedCanMerge(round: Leftovers, bck: Bucket, f: Name, size: nat)
    requires Fetched(round, bck, f, size) && bck.objs != map[] && size > 0
    ensures CanMerge(round)
  {
    assert forall id :: id in round && round[id].entries == [] ==> round[id].done;
  }

  lemma EmptiedDone(round: Leftovers)
    requires round != map[]
    ensures CanMerge(Emptied(round)) <==> AllDone(round)
  {
    var e := Emptied(round);
    assert e.Keys == round.Keys;
    assert forall id :: id in e ==> e[id].done == round[id].done && e[id].entries == [];
    assert AllDone(e) ==> AllDone(round);
  }

  /** The page after a round is the direct listing, and the buffer is in order again. */
  lemma RoundAnswer(bck: Bucket, c: Cursor, token: Name, size: nat, f: Name, buff: seq<Name>,
                    round: Leftovers, cut: Name, added: seq<Name>)
    requires bck.Valid() && size > 0 && Buffered(bck.all, c.nextToken, c.floor, buff, false)
    requires c.nextToken == c.floor && !Less(token, c.floor)
    requires f == if buff == [] || !Less(token, Last(buff)) then token else Last(buff)
    requires Fetched(round, bck, f, size) && IsMerge(round, cut, added)
    ensures var merged := buff + added;
            var rest := merged[After(merged, token)..];
            var n := Min(size, |rest|);
            && rest[..n] == Page(bck.all, token, size)
            && var c' := Advance(c, token, rest[..n]);
            Buffered(bck.all, c'.nextToken, c'.floor, rest[n..], AllDone(round))
  {
    var k := RoundIsContiguous(bck, round, f, size, cut, added);
    PageAfterRound(bck.all, c, token, size, f, buff, k, AllDone(round));
  }

  lemma PageAfterRound(all: seq<Name>, c: Cursor, token: Name, size: nat, f: Name, buff: seq<Name>, k: nat, allDone: bool)
    requires Sorted(all) && size > 0 && Buffered(all, c.nextToken, c.floor, buff, false)
    requires c.nextToken == c.floor && !Less(token, c.floor)
    requires f == if buff == [] || !Less(token, Last(buff)) then token else Last(buff)
    requires After(all, f) <= k <= |all|
    requires if allDone then k == |all| else k - After(all, f) >= size
    ensures var merged := buff + all[After(all, f)..k];
            var rest := merged[After(merged, token)..];
            var n := Min(size, |rest|);
            && rest[..n] == Page(all, token, size)
            && var c' := Advance(c, token, rest[..n]);
            Buffered(all, c'.nextToken, c'.floor, rest[n..], allDone)
  {
    var lo, hi := After(all, c.floor), After(all, c.floor) + |buff|;
    AfterMonotone(all, c.floor, token);
    RestAfterRound(all, lo, hi, token, f, k);
    assert After(all, token) <= After(all, f) by {
      if f != token { LessAsymmetric(token, f); AfterMonotone(all, token, f); }
    }
    HandOutKeepsOrder(all, c, token, k, size, allDone);
  }

  // ---------------------------------------------------------------- which answers are right

  /** An answer differs from the direct listing exactly when the buffer has skipped over names that
      follow the token: some empty answer was given to a token past this one. */
  lemma AnswerRightIff(all: seq<Name>, c: Cursor, token: Name, size: nat)
    requires Sorted(all) && CursorOk(all, c) && size > 0
    ensures Answer(all, c, token, size) == Page(all, token, size) <==>
            !(Skipped(c, token) && exists x :: x in all && Less(token, x))
  {
    var a := After(all, token);
    if a < |all| {
      assert all[a] in all && Less(token, all[a]);
      assert Page(all, token, size) != [];
    } else {
      forall x | x in all ensures !Less(token, x) {
        var i :| 0 <= i < |all| && all[i] == x;
        AfterSplits(all, token, i);
      }
    }
  }

  lemma AdvanceOk(all: seq<Name>, c: Cursor, token: Name, size: nat)
    requires Sorted(all) && CursorOk(all, c) && size > 0
    ensures CursorOk(all, Advance(c, token, Answer(all, c, token, size)))
  {
    Order();
    var page := Answer(all, c, token, size);
    if page == [] && !Skipped(c, token) {
      assert After(all, token) == |all|;
    }
  }

  datatype Request = Request(token: Name, size: nat)

  /** The answers to a sequence of requests. */
  function Serve(all: seq<Name>, c: Cursor, reqs: seq<Request>): (pages: seq<seq<Name>>)
    ensures |pages| == |reqs|
    decreases |reqs|
  {
    if reqs == [] then []
    else
      var page := Answer(all, c, reqs[0].token, reqs[0].size);
      [page] + Serve(all, Advance(c, reqs[0].token, page), reqs[1..])
  }

  /** The cursor after a sequence of requests. */
  function CursorAfter(all: seq<Name>, c: Cursor, reqs: seq<Request>): Cursor
    decreases |reqs|
  {
    if reqs == [] then c
    else CursorAfter(all, Advance(c, reqs[0].token, Answer(all, c, reqs[0].token, reqs[0].size)), reqs[1..])
  }

  /** In every run, whatever the client asks for: an answer is the direct listing if and only if the
      requests before it have not made the buffer skip names that follow the token. */
  lemma {:induction false} ServeRightIff(all: seq<Name>, c: Cursor, reqs: seq<Request>, i: nat)
    requires Sorted(all) && CursorOk(all, c) && i < |reqs| && forall r :: r in reqs ==> r.size > 0
    ensures var before := CursorAfter(all, c, reqs[..i]);
            && CursorOk(all, before)
            && (Serve(all, c, reqs)[i] == Page(all, reqs[i].token, reqs[i].size) <==>
                  !(Skipped(before, reqs[i].token) && exists x :: x in all && Less(reqs[i].token, x)))
    decreases i
  {
    var r := reqs[0];
    assert r in reqs;
    if i == 0 {
      AnswerRightIff(all, c, r.token, r.size);
    } else {
      AdvanceOk(all, c, r.token, r.size);
      assert reqs[..i][1..] == reqs[1..][..i - 1];
      ServeRightIff(all, Advance(c, r.token, Answer(all, c, r.token, r.size)), reqs[1..], i - 1);
    }
  }

  /** Pages are non-empty requests, and a client never asks beyond the point it has reached: the
      last name it was given or, if there was none, the token it asked for last. */
  predicate Disciplined(all: seq<Name>, reached: Name, reqs: seq<Request>)
    decreases |reqs|
  {
    reqs == [] ||
    (var r := reqs[0];
     && r.size > 0 && !Less(reached, r.token)
     && var page := Page(all, r.token, r.size);
     Disciplined(all, if page == [] then r.token else Last(page), reqs[1..]))
  }

  /** Every run of a client that follows tokens or goes back, with any page sizes, is answered with
      direct listings: going back is as good as starting over. */
  lemma {:induction false} DisciplinedRunsAreRight(all: seq<Name>, c: Cursor, reqs: seq<Request>)
    requires Sorted(all) && c.floor == c.nextToken && Disciplined(all, c.floor, reqs)
    ensures forall i :: 0 <= i < |reqs| ==> Serve(all, c, reqs)[i] == Page(all, reqs[i].token, reqs[i].size)
    decreases |reqs|
  {
    if reqs != [] {
      var r := reqs[0];
      var page := Answer(all, c, r.token, r.size);
      NotAhead(c, r.token, page);
      assert page == Page(all, r.token, r.size);
      var c' := Advance(c, r.token, page);
      DisciplinedRunsAreRight(all, c', reqs[1..]);
      forall i | 0 <= i < |reqs| ensures Serve(all, c, reqs)[i] == Page(all, reqs[i].token, reqs[i].size) {
        if i > 0 { assert reqs[i] == reqs[1..][i - 1]; }
      }
    }
  }

  /** A client that jumps past the end and then lists from the start gets nothing. */
  lemma JumpingAheadLosesNames()
    ensures var all: seq<Name>, start := [[98]], Cursor([], []);
            var reqs := [Request([99], 1), Request([], 1)];
            && Sorted(all)
            && Serve(all, start, reqs)[1] == []
            && Page(all, [], 1) == all
  {
    var all: seq<Name>, b: Name, z: Name := [[98]], [98], [99];
    Order();
    assert Less(b, z);
    AfterIs(all, z, 1);
    AfterIs(all, [], 0);
    var reqs := [Request(z, 1), Request([], 1)];
    var c0, c1 := Cursor([], []), Cursor([], z);
    assert Advance(c0, z, Answer(all, c0, z, 1)) == c1;
    assert reqs[1..] == [Request([], 1)];
    assert Serve(all, c1, reqs[1..])[0] == Answer(all, c1, [], 1);
  }

  lemma ServeStep(all: seq<Name>, c: Cursor, reqs: seq<Request>, i: nat, pages: seq<seq<Name>>)
    requires i < |reqs|
    ensures var page := Answer(all, c, reqs[i].token, reqs[i].size);
            pages + Serve(all, c, reqs[i..]) == pages + [page] + Serve(all, Advance(c, reqs[i].token, page), reqs[i + 1..])
  {
    assert reqs[i..][1..] == reqs[i + 1..];
  }

  /** Serves requests one by one with one buffer. */
  method ServeAll(b: LsobjBuffer, bck: Bucket, reqs: seq<Request>) returns (pages: seq<seq<Name>>)
    requires bck.Valid() && b.Valid(bck) && bck.objs != map[]
    requires forall r :: r in reqs ==> r.size > 0
    modifies b
    ensures b.Valid(bck)
    ensures pages == Serve(bck.all, old(CursorOf(b)), reqs)
  {
    pages := [];
    for i := 0 to |reqs|
      invariant b.Valid(bck)
      invariant Serve(bck.all, old(CursorOf(b)), reqs) == pages + Serve(bck.all, CursorOf(b), reqs[i..])
    {
      ServeStep(bck.all, CursorOf(b), reqs, i, pages);
      var page, hasEnough := ListPage(b, bck, reqs[i].token, reqs[i].size);
      pages := pages + [page];
    }
  }

  // ---------------------------------------------------------------- listing a whole bucket

  /** A client that never asks beyond what it has reached is never skipped over. */
  lemma NotAhead(c: Cursor, token: Name, page: seq<Name>)
    requires c.floor == c.nextToken && !Less(c.floor, token)
    ensures !Skipped(c, token)
    ensures var c' := Advance(c, token, page);
            c'.floor == c'.nextToken == if page == [] then token else Last(page)
  {
    Order();
  }

  method NextPage(b: LsobjBuffer, bck: Bucket, token: Name, size: nat, ghost n: nat) returns (page: seq<Name>, hasEnough: bool)
    requires bck.Valid() && b.Valid(bck) && bck.objs != map[] && size > 0
    requires b.floor == b.nextToken && !Less(b.floor, token) && After(bck.all, token) == n
    modifies b
    ensures b.Valid(bck) && b.floor == b.nextToken
    ensures n + |page| <= |bck.all| && page == bck.all[n..n + |page|]
    ensures |page| == Min(size, |bck.all| - n)
    ensures page != [] ==> b.floor == Last(page) && After(bck.all, Last(page)) == n + |page| && !Less(b.floor, Last(page))
  {
    ghost var c := CursorOf(b);
    page, hasEnough := ListPage(b, bck, token, size);
    NotAhead(c, token, page);
    if page != [] {
      AfterOwn(bck.all, n + |page| - 1);
      Irreflexive(Last(page));
    }
  }

  /** A client that follows continuation tokens: a token comes with full pages only. Returns the
      concatenation of all pages and the number of requests made. */
  method ListAll(b: LsobjBuffer, bck: Bucket, size: nat) returns (names: seq<Name>, requests: nat)
    requires bck.Valid() && b.Valid(bck) && bck.objs != map[] && size > 0
    requires b.floor == b.nextToken
    modifies b
    ensures b.Valid(bck)
    ensures names == bck.all
    ensures requests > 0 && (requests - 1) * size <= |bck.all| < requests * size
  {
    names, requests := [], 0;
    var token: Name := [];
    NoNameBeforeFirst(bck.all);
    while true
      invariant b.Valid(bck) && b.floor == b.nextToken && !Less(b.floor, token)
      invariant |names| <= |bck.all| && After(bck.all, token) == |names|
      invariant names == bck.all[..|names|]
      invariant |names| == requests * size
      decreases |bck.all| - |names|
    {
      var page, _ := NextPage(b, bck, token, size, |names|);
      TakeMore(bck.all, |names|, |page|);
      OneMore(requests, size);
      names := names + page;
      requests := requests + 1;
      if |page| < size {
        return;
      }
      token := Last(page);
    }
  }

  lemma TakeMore(all: seq<Name>, n: nat, m: nat)
    requires n + m <= |all|
    ensures all[..n] + all[n..n + m] == all[..n + m]
  {
  }

  lemma OneMore(r: nat, size: nat)
    ensures (r + 1) * size == r * size + size
  {
  }

  lemma NoNameBeforeFirst(all: seq<Name>)
    requires [] !in all
    ensures After(all, []) == 0
  {
    Order();
    AfterIs(all, [], 0);
  }
}
