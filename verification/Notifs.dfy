/** Notification listeners and the ownership tables that IC members exchange (ais/notifications.go). */
module Notifs {

  type Uuid = string
  type NodeId = string

  datatype Nl = Nl(uuid: Uuid, active: set<NodeId>, failed: bool, aborted: bool)

  type Table = map<Uuid, Nl>

  ghost predicate Keyed(m: Table) {
    forall u :: u in m ==> m[u].uuid == u
  }

  ghost function Uuids(l: seq<Nl>): set<Uuid> {
    set x | x in l :: x.uuid
  }

  ghost predicate Distinct(l: seq<Nl>) {
    forall i, j :: 0 <= i < j < |l| ==> l[i].uuid != l[j].uuid
  }

  class Listeners {
    var m: Table

    constructor ()
      ensures m == map[]
    {
      m := map[];
    }

    method Add(nl: Nl) returns (exists_: bool)
      modifies this
      ensures exists_ == (nl.uuid in old(m)) && m == if exists_ then old(m) else old(m)[nl.uuid := nl]
    {
      exists_ := nl.uuid in m;
      if !exists_ {
        m := m[nl.uuid := nl];
      }
    }

    method Del(nl: Nl) returns (ok: bool)
      modifies this
      ensures ok == (nl.uuid in old(m)) && m == old(m) - {nl.uuid}
    {
      ok := nl.uuid in m;
      if ok {
        m := m - {nl.uuid};
      }
    }

    /** Keeps what is there, and adds the rest. */
    method AddAll(l: seq<Nl>)
      requires Keyed(m)
      modifies this
      ensures Keyed(m) && m.Keys == old(m).Keys + Uuids(l)
      ensures forall u :: u in m ==> if u in old(m) then m[u] == old(m)[u] else m[u] in l
    {
      for i := 0 to |l|
        invariant Keyed(m) && m.Keys == old(m).Keys + Uuids(l[..i])
        invariant forall u :: u in m ==> if u in old(m) then m[u] == old(m)[u] else m[u] in l
      {
        UuidsNext(l, i);
        var _ := Add(l[i]);
      }
      assert l[..|l|] == l;
    }

    method DelAll(l: seq<Nl>)
      modifies this
      ensures m == old(m) - Uuids(l)
    {
      for i := 0 to |l|
        invariant m == old(m) - Uuids(l[..i])
      {
        UuidsNext(l, i);
        var _ := Del(l[i]);
      }
      assert l[..|l|] == l;
    }
  }

  lemma UuidsNext(l: seq<Nl>, i: nat)
    requires i < |l|
    ensures Uuids(l[..i + 1]) == Uuids(l[..i]) + {l[i].uuid}
  {
    assert l[..i + 1] == l[..i] + [l[i]];
  }

  // ---------------------------------------------------------------- ownership tables

  /** UUIDs of the running and of the finished listeners. */
  datatype Ownership = Ownership(running: set<Uuid>, finished: set<Uuid>)

  function Join(a: Ownership, b: Ownership): Ownership {
    Ownership(a.running + b.running - (a.finished + b.finished), a.finished + b.finished)
  }

  /** What merging table `b` into table `a` does. */
  function Merged(a: Ownership, b: Ownership): Ownership {
    Ownership((a.running - (b.finished - a.finished)) + (b.running - a.running - a.finished), a.finished + b.finished)
  }

  ghost predicate Exclusive(a: Ownership) {
    a.running !! a.finished
  }

  /** Merging is joining if and only if the receiver has no listener both running and finished, and
      the sender has none that the receiver does not know. */
  lemma MergeIsJoinIff(a: Ownership, b: Ownership)
    ensures Merged(a, b) == Join(a, b) <==> Exclusive(a) && b.running * b.finished <= a.running + a.finished
    ensures Merged(a, b) == Join(a, b) <==> Exclusive(Merged(a, b))
  {
    if Exclusive(a) && b.running * b.finished <= a.running + a.finished {
      assert Merged(a, b).running == Join(a, b).running;
    } else if u :| u in a.running && u in a.finished {
      assert u in Merged(a, b).running;
    } else {
      var u :| u in b.running * b.finished && u !in a.running + a.finished;
      assert u in Merged(a, b).running && u in Merged(a, b).finished;
    }
  }

  /** A merge never makes a finished listener run again, and finished ones stay finished. */
  lemma MergeKeepsFinished(a: Ownership, b: Ownership, u: Uuid)
    requires u in a.finished
    ensures u in Merged(a, b).finished && (u in Merged(a, b).running ==> u in a.running)
  {
  }

  lemma JoinIsSemilattice(a: Ownership, b: Ownership, c: Ownership)
    ensures Join(a, b) == Join(b, a) && Join(Join(a, b), c) == Join(a, Join(b, c))
    ensures Exclusive(a) ==> Join(a, a) == a
    ensures Exclusive(Join(a, b))
  {
    assert Join(a, b).running == Join(b, a).running && Join(a, b).finished == Join(b, a).finished;
    assert Join(Join(a, b), c).running == Join(a, Join(b, c)).running;
    assert Join(Join(a, b), c).finished == Join(a, Join(b, c)).finished;
    if Exclusive(a) {
      assert Join(a, a).running == a.running && Join(a, a).finished == a.finished;
    }
  }

  lemma DiffIsMerged(a: Ownership, running: seq<Nl>, finished: seq<Nl>, added: seq<Nl>, removed: seq<Nl>, done: seq<Nl>)
    requires forall x :: x in added <==> x in running && x.uuid !in a.finished && x.uuid !in a.running
    requires forall x :: x in done <==> x in finished && x.uuid !in a.finished
    requires forall x :: x in removed <==> x in done && x.uuid in a.running
    ensures var b := Ownership(Uuids(running), Uuids(finished));
            Ownership(a.running + Uuids(added) - Uuids(removed), a.finished + Uuids(done)) == Merged(a, b)
    ensures Uuids(done) !! a.finished
  {
    var b := Ownership(Uuids(running), Uuids(finished));
    assert Uuids(added) == b.running - a.running - a.finished;
    assert Uuids(done) == b.finished - a.finished;
    assert Uuids(removed) == Uuids(done) * a.running;
    assert a.running + Uuids(added) - Uuids(removed) == Merged(a, b).running;
  }

  // ---------------------------------------------------------------- the tables of one proxy

  ghost predicate CalledOnce(callbacks: seq<Uuid>, fin: set<Uuid>) {
    forall u :: multiset(callbacks)[u] == if u in fin then 1 else 0
  }

  /** The listener after a node has reported. */
  function Reported(nl: Nl, node: NodeId, failed: bool, aborted: bool): Nl {
    Nl(nl.uuid, nl.active - {node}, nl.failed || failed || aborted, nl.aborted || aborted)
  }

  // ---------------------------------------------------------------- reports of one listener

  /** A report of a node that it is done. */
  datatype Report = Report(node: NodeId, failed: bool, aborted: bool)

  /** One listener: whether it is among the finished ones, and how often it was called back. */
  datatype Watch = Watch(nl: Nl, finished: bool, calls: nat)

  /** What a report does to its listener. */
  function Heard(w: Watch, r: Report): Watch {
    var nl := Reported(w.nl, r.node, r.failed, r.aborted);
    if !w.finished && (nl.active == {} || r.aborted) then Watch(nl, true, w.calls + 1) else Watch(nl, w.finished, w.calls)
  }

  function HeardAll(w: Watch, reports: seq<Report>): Watch {
    if reports == [] then w else Heard(HeardAll(w, reports[..|reports| - 1]), reports[|reports| - 1])
  }

  ghost function Reporters(reports: seq<Report>): set<NodeId> {
    set r | r in reports :: r.node
  }

  /** Over every sequence of reports, in any order and with repetitions: the listener is finished if and
      only if the nodes that have reported cover the nodes that it waits for, or one of them has aborted.
      It is called back once if it is finished, and not before. It has failed or is aborted if and only
      if some report says so. */
  lemma {:induction false} ReportsAddUp(nl: Nl, reports: seq<Report>)
    requires nl.active != {}
    ensures var w := HeardAll(Watch(nl, false, 0), reports);
            && (w.finished <==> nl.active <= Reporters(reports) || exists r :: r in reports && r.aborted)
            && w.calls == (if w.finished then 1 else 0)
            && w.nl.uuid == nl.uuid && w.nl.active == nl.active - Reporters(reports)
            && (w.nl.failed <==> nl.failed || exists r :: r in reports && (r.failed || r.aborted))
            && (w.nl.aborted <==> nl.aborted || exists r :: r in reports && r.aborted)
  {
    if reports != [] {
      var n := |reports| - 1;
      ReportsAddUp(nl, reports[..n]);
      assert reports == reports[..n] + [reports[n]];
      assert Reporters(reports) == Reporters(reports[..n]) + {reports[n].node};
    }
  }

  /** So with one report from each node, the last one finishes the listener, whatever the order; an abort
      finishes it at once. */
  lemma LastReportFinishes(nl: Nl, reports: seq<Report>, r: Report)
    requires nl.active != {} && !HeardAll(Watch(nl, false, 0), reports).finished
    ensures HeardAll(Watch(nl, false, 0), reports + [r]).finished <==> nl.active <= Reporters(reports) + {r.node} || r.aborted
    ensures HeardAll(Watch(nl, false, 0), reports + [r]).calls == if nl.active <= Reporters(reports) + {r.node} || r.aborted then 1 else 0
  {
    ReportsAddUp(nl, reports);
    ReportsAddUp(nl, reports + [r]);
    assert Reporters(reports + [r]) == Reporters(reports) + {r.node};
  }

  class NotifTables {
    const nls: Listeners
    const fin: Listeners
    var callbacks: seq<Uuid>  // listeners called back, in order

    ghost predicate Valid()
      reads this, nls, fin
    {
      nls != fin && Keyed(nls.m) && Keyed(fin.m)
    }

    ghost function View(): Ownership
      reads this, nls, fin
    {
      Ownership(nls.m.Keys, fin.m.Keys)
    }

    /** The listener is in exactly one of the two tables. */
    ghost predicate Knows(u: Uuid)
      reads this, nls, fin
    {
      u in nls.m <==> u !in fin.m
    }

    ghost function WatchOf(u: Uuid): Watch
      requires Knows(u)
      reads this, nls, fin
    {
      Watch(if u in nls.m then nls.m[u] else fin.m[u], u in fin.m, multiset(callbacks)[u])
    }

    constructor ()
      ensures Valid() && fresh(nls) && fresh(fin) && View() == Ownership({}, {}) && callbacks == []
    {
      nls := new Listeners();
      fin := new Listeners();
      callbacks := [];
    }

    /** Merges the ownership table of another IC member. */
    method Merge(running: seq<Nl>, finished: seq<Nl>)
      requires Valid() && Distinct(finished)
      modifies this, nls, fin
      ensures Valid() && View() == Merged(old(View()), Ownership(Uuids(running), Uuids(finished)))
      ensures forall u :: u in nls.m ==> if u in old(nls.m) then nls.m[u] == old(nls.m)[u] else nls.m[u] in running
      ensures forall u :: u in fin.m ==> if u in old(fin.m) then fin.m[u] == old(fin.m)[u] else fin.m[u] in finished
      ensures forall u :: multiset(callbacks)[u] == multiset(old(callbacks))[u] + if u in Uuids(finished) && u !in old(fin.m) then 1 else 0
      ensures old(CalledOnce(callbacks, fin.m.Keys)) ==> CalledOnce(callbacks, fin.m.Keys)
    {
      if |running| == 0 && |finished| == 0 {
        return;
      }
      var added := Added(running);
      var removed, done := Finished(finished);
      DiffIsMerged(View(), running, finished, added, removed, done);
      UpdateRunning(added, removed);
      UpdateFinished(done);
    }

    method UpdateRunning(added: seq<Nl>, removed: seq<Nl>)
      requires Valid()
      modifies nls
      ensures Keyed(nls.m) && nls.m.Keys == old(nls.m).Keys + Uuids(added) - Uuids(removed)
      ensures forall u :: u in nls.m ==> if u in old(nls.m) then nls.m[u] == old(nls.m)[u] else nls.m[u] in added
    {
      if |removed| != 0 || |added| != 0 {
        nls.AddAll(added);
        nls.DelAll(removed);
      }
    }

    method UpdateFinished(done: seq<Nl>)
      requires Valid() && Distinct(done) && Uuids(done) !! fin.m.Keys
      modifies this, fin
      ensures Keyed(fin.m) && fin.m.Keys == old(fin.m).Keys + Uuids(done)
      ensures forall u :: u in fin.m ==> if u in old(fin.m) then fin.m[u] == old(fin.m)[u] else fin.m[u] in done
      ensures forall u :: multiset(callbacks)[u] == multiset(old(callbacks))[u] + if u in Uuids(done) then 1 else 0
      ensures old(CalledOnce(callbacks, fin.m.Keys)) ==> CalledOnce(callbacks, fin.m.Keys)
    {
      if |done| == 0 {
        return;
      }
      fin.AddAll(done);
      Callback(done);
    }

    /** Incoming running listeners not known here. */
    method Added(running: seq<Nl>) returns (added: seq<Nl>)
      requires Valid()
      ensures forall x :: x in added <==> x in running && x.uuid !in fin.m && x.uuid !in nls.m
    {
      added := [];
      for i := 0 to |running|
        invariant forall x :: x in added <==> x in running[..i] && x.uuid !in fin.m && x.uuid !in nls.m
      {
        if running[i].uuid !in fin.m && running[i].uuid !in nls.m {
          added := added + [running[i]];
        }
      }
    }

    /** Incoming finished listeners not finished here, and those of them that run here. */
    method Finished(finished: seq<Nl>) returns (removed: seq<Nl>, done: seq<Nl>)
      requires Valid() && Distinct(finished)
      ensures Distinct(done) && forall x :: x in done <==> x in finished && x.uuid !in fin.m
      ensures forall x :: x in removed <==> x in done && x.uuid in nls.m
    {
      removed, done := [], [];
      for i := 0 to |finished|
        invariant Distinct(done) && forall x :: x in done <==> x in finished[..i] && x.uuid !in fin.m
        invariant forall x :: x in removed <==> x in done && x.uuid in nls.m
      {
        if finished[i].uuid !in fin.m {
          if finished[i].uuid in nls.m {
            removed := removed + [finished[i]];
          }
          done := done + [finished[i]];
        }
      }
    }

    method Callback(done: seq<Nl>)
      requires Distinct(done)
      modifies this
      ensures forall u :: multiset(callbacks)[u] == multiset(old(callbacks))[u] + if u in Uuids(done) then 1 else 0
    {
      for i := 0 to |done|
        invariant forall u :: multiset(callbacks)[u] == multiset(old(callbacks))[u] + if u in Uuids(done[..i]) then 1 else 0
      {
        UuidsNext(done, i);
        callbacks := callbacks + [done[i].uuid];
      }
      assert done[..|done|] == done;
    }

    method Add(nl: Nl) returns (ok: bool)
      requires Valid()
      modifies nls
      ensures Valid() && ok == (nl.active != {})
      ensures nls.m == if ok && nl.uuid !in old(nls.m) then old(nls.m)[nl.uuid := nl] else old(nls.m)
    {
      ok := |nl.active| != 0;
      if ok {
        var _ := nls.Add(nl);
      }
    }

    /** Moves a running listener to the finished ones; a listener that no longer runs stays put. */
    method Done(nl: Nl)
      requires Valid()
      modifies this, nls, fin
      ensures Valid() && nls.m == old(nls.m) - {nl.uuid}
      ensures fin.m == if nl.uuid in old(nls.m) && nl.uuid !in old(fin.m) then old(fin.m)[nl.uuid := nl] else old(fin.m)
      ensures callbacks == if nl.uuid in old(nls.m) then old(callbacks) + [nl.uuid] else old(callbacks)
    {
      var ok := nls.Del(nl);
      if ok {
        var _ := fin.Add(nl);
        callbacks := callbacks + [nl.uuid];
      }
    }

    /** A node reports that it is done: a running listener is finished when it was the last one, or
        aborted. A report that comes after that is noted in the finished listener. */
    method HandleFinished(u: Uuid, node: NodeId, failed: bool, aborted: bool)
      requires Valid()
      modifies this, nls, fin
      ensures Valid() && nls.m - {u} == old(nls.m) - {u} && fin.m - {u} == old(fin.m) - {u}
      ensures u in nls.m <==> u in old(nls.m) && !(old(nls.m)[u].active <= {node} || aborted)
      ensures u in fin.m <==> u in old(fin.m) || (u in old(nls.m) && (old(nls.m)[u].active <= {node} || aborted))
      ensures u in nls.m ==> nls.m[u] == Reported(old(nls.m)[u], node, failed, aborted)
      ensures u in fin.m ==>
                fin.m[u] == if u !in old(fin.m) then Reported(old(nls.m)[u], node, failed, aborted)
                            else if u in old(nls.m) then old(fin.m)[u] else Reported(old(fin.m)[u], node, failed, aborted)
      ensures old(Exclusive(View())) ==> Exclusive(View())
      ensures old(Exclusive(View())) && old(CalledOnce(callbacks, fin.m.Keys)) ==> CalledOnce(callbacks, fin.m.Keys)
      ensures u !in old(nls.m) ==> callbacks == old(callbacks)
      ensures old(Knows(u)) ==> Knows(u) && WatchOf(u) == Heard(old(WatchOf(u)), Report(node, failed, aborted))
    {
      if u in nls.m {
        ReportRunning(u, node, failed, aborted);
        assert forall v :: v in nls.m && v != u ==> v in nls.m - {u} && v in old(nls.m) - {u};
      } else if u in fin.m {
        ReportFinished(u, node, failed, aborted);
      }
    }

    method ReportFinished(u: Uuid, node: NodeId, failed: bool, aborted: bool)
      requires Valid() && u !in nls.m && u in fin.m
      modifies this, nls, fin
      ensures Valid() && nls.m == old(nls.m) && callbacks == old(callbacks)
      ensures fin.m == old(fin.m)[u := Reported(old(fin.m)[u], node, failed, aborted)]
    {
      var nl := MarkFinished(fin.m[u], node, failed, aborted);
      fin.m := fin.m[u := nl];
      if |nl.active| == 0 || aborted {
        Done(nl);
      }
    }

    method ReportRunning(u: Uuid, node: NodeId, failed: bool, aborted: bool)
      requires Valid() && u in nls.m
      modifies this, nls, fin
      ensures Valid() && nls.m - {u} == old(nls.m) - {u}
      ensures var over := old(nls.m)[u].active <= {node} || aborted;
              && (u in nls.m <==> !over)
              && (u in nls.m ==> nls.m[u] == Reported(old(nls.m)[u], node, failed, aborted))
              && fin.m == (if over && u !in old(fin.m) then old(fin.m)[u := Reported(old(nls.m)[u], node, failed, aborted)] else old(fin.m))
              && callbacks == if over then old(callbacks) + [u] else old(callbacks)
    {
      var nl := MarkFinished(nls.m[u], node, failed, aborted);
      nls.m := nls.m[u := nl];
      if |nl.active| == 0 || aborted {
        Done(nl);
      }
      assert nl.active == {} <==> old(nls.m)[u].active <= {node};
    }

    method MarkFinished(nl: Nl, node: NodeId, failed: bool, aborted: bool) returns (r: Nl)
      ensures r == Reported(nl, node, failed, aborted)
    {
      r := nl.(active := nl.active - {node});
      var err := failed;
      if aborted {
        r := r.(aborted := true);
        err := true;
      }
      if err {
        r := r.(failed := true);
      }
    }

    /** Gives up on every listener that waits for a node that is gone or in maintenance. */
    method ListenSmapChanged(alive: set<NodeId>)
      requires Valid()
      modifies this, nls, fin
      ensures Valid() && nls.m == map u | u in old(nls.m) && old(nls.m)[u].active <= alive :: old(nls.m)[u]
      ensures fin.m.Keys == old(fin.m).Keys + (set u | u in old(nls.m) && !(old(nls.m)[u].active <= alive))
      ensures forall u :: u in fin.m ==>
                if u in old(fin.m) then fin.m[u] == old(fin.m)[u]
                else u in old(nls.m) && fin.m[u] == old(nls.m)[u].(failed := true, aborted := true)
      ensures forall u :: multiset(callbacks)[u] == multiset(old(callbacks))[u] + if u in old(nls.m) && !(old(nls.m)[u].active <= alive) then 1 else 0
      ensures old(Exclusive(View())) && old(CalledOnce(callbacks, fin.m.Keys)) ==> CalledOnce(callbacks, fin.m.Keys)
    {
      var stale := Stale(alive);
      if |stale| == 0 {
        assert forall u :: u in nls.m && !(nls.m[u].active <= alive) ==> u in Uuids(stale);
        return;
      }
      fin.AddAll(stale);
      nls.DelAll(stale);
      Callback(stale);
    }

    /** The listeners to give up on, marked so; in any order. */
    method Stale(alive: set<NodeId>) returns (stale: seq<Nl>)
      requires Valid()
      ensures Distinct(stale) && Uuids(stale) == set u | u in nls.m && !(nls.m[u].active <= alive)
      ensures forall x :: x in stale ==> x.uuid in nls.m && x == nls.m[x.uuid].(failed := true, aborted := true)
    {
      stale := [];
      var todo := nls.m.Keys;
      while todo != {}
        invariant todo <= nls.m.Keys
        invariant Distinct(stale) && Uuids(stale) == set u | u in nls.m && u !in todo && !(nls.m[u].active <= alive)
        invariant forall x :: x in stale ==> x.uuid in nls.m && x == nls.m[x.uuid].(failed := true, aborted := true)
      {
        var u :| u in todo;
        todo := todo - {u};
        if !(nls.m[u].active <= alive) {
          ghost var before := stale;
          stale := stale + [nls.m[u].(failed := true, aborted := true)];
          assert stale[..|before|] == before;
          UuidsNext(stale, |before|);
          assert stale[..|stale|] == stale;
          assert u !in Uuids(before);
        }
      }
    }
  }

  /** Adding a listener again after it has finished: it is both running and finished. */
  method AddAfterDone(nl: Nl) returns (n: NotifTables)
    requires nl.active != {}
    ensures nl.uuid in n.nls.m && nl.uuid in n.fin.m && !Exclusive(n.View())
  {
    n := new NotifTables();
    var _ := n.Add(nl);
    n.Done(nl);
    var _ := n.Add(nl);
  }

  // ---------------------------------------------------------------- exchanging tables

  /** Merging a sequence of tables, one after the other. */
  function MergedAll(a: Ownership, tables: seq<Ownership>): Ownership {
    if tables == [] then a else Merged(MergedAll(a, tables[..|tables| - 1]), tables[|tables| - 1])
  }

  ghost function AllRunning(tables: set<Ownership>): set<Uuid> {
    set t, u | t in tables && u in t.running :: u
  }

  ghost function AllFinished(tables: set<Ownership>): set<Uuid> {
    set t, u | t in tables && u in t.finished :: u
  }

  /** Whatever the order and however often: what has finished anywhere is finished, the rest of what
      runs anywhere runs. */
  lemma {:induction false} ExchangeConverges(a: Ownership, tables: seq<Ownership>)
    requires Exclusive(a) && forall t :: t in tables ==> Exclusive(t)
    ensures var all := {a} + set t | t in tables;
            MergedAll(a, tables) == Ownership(AllRunning(all) - AllFinished(all), AllFinished(all))
  {
    var all := {a} + set t | t in tables;
    if tables == [] {
      assert all == {a};
      assert AllRunning(all) - AllFinished(all) == a.running && AllFinished(all) == a.finished;
    } else {
      var n := |tables| - 1;
      ExchangeConverges(a, tables[..n]);
      var some := {a} + set t | t in tables[..n];
      assert tables == tables[..n] + [tables[n]];
      assert all == some + {tables[n]};
      MergeIsJoinIff(MergedAll(a, tables[..n]), tables[n]);
      assert AllFinished(all) == AllFinished(some) + tables[n].finished;
      assert AllRunning(all) == AllRunning(some) + tables[n].running;
    }
  }

  /** Two IC members that have seen the same tables, in any order, agree. */
  lemma SameTablesAgree(a: Ownership, xs: seq<Ownership>, b: Ownership, ys: seq<Ownership>)
    requires Exclusive(a) && (forall t :: t in xs ==> Exclusive(t)) && Exclusive(b) && (forall t :: t in ys ==> Exclusive(t))
    requires {a} + (set t | t in xs) == {b} + (set t | t in ys)
    ensures MergedAll(a, xs) == MergedAll(b, ys)
  {
    ExchangeConverges(a, xs);
    ExchangeConverges(b, ys);
  }
}
