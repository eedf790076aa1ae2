/** IC members exchanging ownership tables while listeners start and finish. Every locked section of
    ais/notifications.go is a step of its own. */
module Gossip {
  import opened Notifs

  /** `ListenSmapChanged`: the listeners it has found, and whether it has added them to the finished
      ones; it takes them out of the running ones later. */
  datatype Down = Idle | Scanned(us: set<Uuid>) | Leaving(us: set<Uuid>)

  /** A merge: what it has found to add, to take out and to finish, then what is left to finish. */
  datatype Merge =
    | NoMerge
    | Diffed(added: set<Uuid>, removed: set<Uuid>, finished: set<Uuid>, msg: Ownership)
    | HalfDone(finished: set<Uuid>, msg: Ownership)

  /** The starts and finishes that a member has heard of: its own, and those in tables it has merged. */
  datatype Heard = Heard(started: set<Uuid>, finished: set<Uuid>)

  /** `taken`: listeners that `done` has taken out of the running ones and not yet added to the
      finished ones, with repetitions. */
  datatype Member = Member(table: Ownership, taken: multiset<Uuid>, down: Down, merge: Merge, heard: Heard)

  /** Members by ID, and the tables ever sent. */
  datatype Net = Net(members: map<NodeId, Member>, sent: set<Ownership>)

  datatype Action =
    | Start(i: NodeId, u: Uuid)          // notifs.add, which does not look at finished listeners
    | TakeOut(i: NodeId, u: Uuid)        // notifs.done, first half
    | PutIn(i: NodeId, u: Uuid)          // notifs.done, second half
    | Scan(i: NodeId, us: set<Uuid>)     // ListenSmapChanged: finds listeners
    | DownAdd(i: NodeId)                 // ListenSmapChanged: adds them to the finished ones
    | DownDel(i: NodeId)                 // ListenSmapChanged: takes them out of the running ones
    | Send(i: NodeId)                    // the table is marshalled, under both locks
    | Diff(i: NodeId, msg: Ownership)    // a merge: finds the differences, under both locks
    | MergeRun(i: NodeId)                // a merge: adds to and takes out of the running ones
    | MergeFin(i: NodeId)                // a merge: adds to the finished ones

  predicate MemberEnabled(x: Member, a: Action) {
    match a
    case TakeOut(_, u) => u in x.table.running
    case PutIn(_, u) => u in x.taken
    case Scan(_, us) => x.down.Idle? && us <= x.table.running
    case DownAdd(_) => x.down.Scanned?
    case DownDel(_) => x.down.Leaving?
    case Diff(_, msg) => x.merge.NoMerge?
    case MergeRun(_) => x.merge.Diffed?
    case MergeFin(_) => x.merge.HalfDone?
    case _ => true
  }

  function Running(x: Member, running: set<Uuid>): Member {
    x.(table := Ownership(running, x.table.finished))
  }

  function Finished(x: Member, more: set<Uuid>): Member {
    x.(table := Ownership(x.table.running, x.table.finished + more),
       heard := Heard(x.heard.started, x.heard.finished + more))
  }

  function Hearing(x: Member, started: set<Uuid>): Member {
    x.(heard := Heard(x.heard.started + started, x.heard.finished))
  }

  function Move(x: Member, a: Action): Member
    requires MemberEnabled(x, a)
  {
    match a
    case Start(_, u) => Hearing(Running(x, x.table.running + {u}), {u})
    case TakeOut(_, u) => Running(x, x.table.running - {u}).(taken := x.taken + multiset{u})
    case PutIn(_, u) => Finished(x, {u}).(taken := x.taken - multiset{u})
    case Scan(_, us) => x.(down := Scanned(us))
    case DownAdd(_) => Finished(x, x.down.us).(down := Leaving(x.down.us))
    case DownDel(_) => Running(x, x.table.running - x.down.us).(down := Idle)
    case Send(_) => x
    case Diff(_, msg) =>
      var finished := msg.finished - x.table.finished;
      x.(merge := Diffed(msg.running - x.table.running - x.table.finished, finished * x.table.running, finished, msg))
    case MergeRun(_) =>
      Hearing(Running(x, x.table.running + x.merge.added - x.merge.removed), x.merge.added)
      .(merge := HalfDone(x.merge.finished, x.merge.msg))
    case MergeFin(_) =>
      Hearing(Finished(x, x.merge.finished), x.merge.msg.running + x.merge.msg.finished).(merge := NoMerge)
  }

  predicate Enabled(s: Net, a: Action) {
    a.i in s.members && MemberEnabled(s.members[a.i], a) && (a.Diff? ==> a.msg in s.sent)
  }

  function Step(s: Net, a: Action): Net
    requires Enabled(s, a)
  {
    Net(s.members[a.i := Move(s.members[a.i], a)], if a.Send? then s.sent + {s.members[a.i].table} else s.sent)
  }

  lemma MemberAfter(s: Net, a: Action, i: NodeId)
    requires Enabled(s, a) && i in Step(s, a).members
    ensures i in s.members && Step(s, a).members[i] == if a.i == i then Move(s.members[i], a) else s.members[i]
  {
  }

  const NEW := Member(Ownership({}, {}), multiset{}, Idle, NoMerge, Heard({}, {}))

  ghost predicate Follows(s: Net, a: Action, t: Net) {
    Enabled(s, a) && t == Step(s, a)
  }

  ghost predicate IsRun(trace: seq<Net>, actions: seq<Action>) {
    && |trace| == |actions| + 1
    && (forall i :: i in trace[0].members ==> trace[0].members[i] == NEW) && trace[0].sent == {}
    && forall k :: 0 <= k < |actions| ==> Follows(trace[k], actions[k], trace[k + 1])
  }

  // ---------------------------------------------------------------- both running and finished

  /** Listeners both running and finished, other than those that `ListenSmapChanged` is about to take
      out. */
  ghost function Both(x: Member): set<Uuid> {
    x.table.running * x.table.finished - if x.down.Leaving? then x.down.us else {}
  }

  /** The step makes a listener both running and finished: the start of one that has finished, the
      second half of `done` for one that runs, or half of a merge that adds a finished one to the
      running ones, or a running one to the finished ones. */
  ghost predicate Clashes(x: Member, a: Action)
    requires MemberEnabled(x, a)
  {
    var excused := if x.down.Leaving? then x.down.us else {};
    match a
    case Start(_, u) => u in x.table.finished - excused
    case PutIn(_, u) => u in x.table.running - excused
    case MergeRun(_) => (x.merge.added - x.merge.removed) * x.table.finished - excused != {}
    case MergeFin(_) => x.merge.finished * x.table.running - excused != {}
    case _ => false
  }

  lemma MoveClashes(x: Member, a: Action)
    requires MemberEnabled(x, a) && Both(x) == {}
    ensures Both(Move(x, a)) == {} <==> !Clashes(x, a)
  {
    var y := Move(x, a);
    if !Clashes(x, a) {
      assert forall u :: u in Both(y) ==> u in Both(x);
    } else if a.MergeRun? {
      var u :| u in (x.merge.added - x.merge.removed) * x.table.finished - if x.down.Leaving? then x.down.us else {};
      assert u in Both(y);
    } else if a.MergeFin? {
      var u :| u in x.merge.finished * x.table.running - if x.down.Leaving? then x.down.us else {};
      assert u in Both(y);
    } else {
      assert a.u in Both(y);
    }
  }

  /** In every run, no listener is both running and finished at any member, at any time, if and only if
      no step clashes. */
  lemma NeverBothIff(trace: seq<Net>, actions: seq<Action>)
    requires IsRun(trace, actions)
    ensures (forall k, i :: 0 <= k < |trace| && i in trace[k].members ==> Both(trace[k].members[i]) == {}) <==>
              forall k :: 0 <= k < |actions| ==> !ClashesAt(trace[k], actions[k])
  {
    if forall k :: 0 <= k < |actions| ==> !ClashesAt(trace[k], actions[k]) {
      forall k, i | 0 <= k < |trace| && i in trace[k].members ensures Both(trace[k].members[i]) == {} {
        NoneBoth(trace, actions, k, i);
      }
    } else {
      var k :| 0 <= k < |actions| && ClashesAt(trace[k], actions[k]);
      assert Follows(trace[k], actions[k], trace[k + 1]);
      if Both(trace[k].members[actions[k].i]) == {} {
        MoveClashes(trace[k].members[actions[k].i], actions[k]);
        assert Both(trace[k + 1].members[actions[k].i]) != {};
      }
    }
  }

  ghost predicate ClashesAt(s: Net, a: Action) {
    Enabled(s, a) && Clashes(s.members[a.i], a)
  }

  lemma {:induction false} NoneBoth(trace: seq<Net>, actions: seq<Action>, k: nat, i: NodeId)
    requires IsRun(trace, actions) && k < |trace| && i in trace[k].members
    requires forall j :: 0 <= j < k ==> !ClashesAt(trace[j], actions[j])
    ensures Both(trace[k].members[i]) == {}
  {
    if k > 0 {
      assert Follows(trace[k - 1], actions[k - 1], trace[k]) && !ClashesAt(trace[k - 1], actions[k - 1]);
      MemberAfter(trace[k - 1], actions[k - 1], i);
      NoneBoth(trace, actions, k - 1, i);
      NoneBothNext(trace[k - 1], actions[k - 1], i);
    } else {
      assert trace[0].members[i] == NEW;
    }
  }

  lemma NoneBothNext(s: Net, a: Action, i: NodeId)
    requires Enabled(s, a) && !ClashesAt(s, a) && i in s.members && Both(s.members[i]) == {}
    ensures Both(Step(s, a).members[i]) == {}
  {
    if a.i == i {
      MoveClashes(s.members[i], a);
    }
  }

  // ---------------------------------------------------------------- no listener is lost

  /** Every listener that a member has heard of is running, finished, or on its way to be finished. */
  ghost predicate Ok(x: Member) {
    && x.table.finished == x.heard.finished && x.table.running <= x.heard.started
    && (forall u :: u in x.heard.started ==> Somewhere(x, u))
    && (x.merge.Diffed? ==>
          && x.merge.removed <= x.merge.finished && x.merge.msg.finished <= x.table.finished + x.merge.finished
          && forall u :: u in x.merge.msg.running ==> Somewhere(x, u) || u in x.merge.added)
    && (x.merge.HalfDone? ==>
          && x.merge.msg.finished <= x.table.finished + x.merge.finished
          && forall u :: u in x.merge.msg.running ==> Somewhere(x, u))
    && (x.down.Leaving? ==> x.down.us <= x.table.finished)
  }

  ghost predicate Somewhere(x: Member, u: Uuid) {
    || u in x.table.running || u in x.table.finished || u in x.taken
    || (x.merge.HalfDone? && u in x.merge.finished)
  }

  lemma MergeOk(x: Member, a: Action)
    requires Ok(x) && MemberEnabled(x, a) && (a.Diff? || a.MergeRun? || a.MergeFin?)
    ensures Ok(Move(x, a))
  {
  }

  lemma MoveOk(x: Member, a: Action)
    requires Ok(x) && MemberEnabled(x, a)
    ensures Ok(Move(x, a))
  {
    if a.Diff? || a.MergeRun? || a.MergeFin? {
      MergeOk(x, a);
    }
  }

  lemma {:induction false} RunOk(trace: seq<Net>, actions: seq<Action>, k: nat, i: NodeId)
    requires IsRun(trace, actions) && k < |trace| && i in trace[k].members
    ensures Ok(trace[k].members[i])
  {
    if k > 0 {
      assert Follows(trace[k - 1], actions[k - 1], trace[k]);
      MemberAfter(trace[k - 1], actions[k - 1], i);
      RunOk(trace, actions, k - 1, i);
      if actions[k - 1].i == i {
        MoveOk(trace[k - 1].members[i], actions[k - 1]);
      }
    }
  }

  /** Nothing is under way at the member. */
  ghost predicate Quiet(x: Member) {
    x.taken == multiset{} && !x.down.Leaving? && x.merge.NoMerge?
  }

  /** The table that the events call for. */
  function TableOf(h: Heard): Ownership {
    Ownership(h.started - h.finished, h.finished)
  }

  lemma QuietTable(x: Member)
    requires Ok(x) && Quiet(x)
    ensures x.table == Ownership(TableOf(x.heard).running + Both(x), x.heard.finished)
    ensures Both(x) <= x.heard.finished
  {
    assert forall u :: u in x.heard.started ==> Somewhere(x, u);
    assert x.table.running == TableOf(x.heard).running + Both(x);
  }

  /** In every run, the table of a member where nothing is under way is what its events call for if and
      only if no listener is both running and finished there. */
  lemma TableIsRightIff(trace: seq<Net>, actions: seq<Action>, k: nat, i: NodeId)
    requires IsRun(trace, actions) && k < |trace| && i in trace[k].members && Quiet(trace[k].members[i])
    ensures trace[k].members[i].table == TableOf(trace[k].members[i].heard) <==> Both(trace[k].members[i]) == {}
  {
    RunOk(trace, actions, k, i);
    var x := trace[k].members[i];
    QuietTable(x);
    assert x.table.running * x.table.finished == Both(x);
    if Both(x) == {} {
      assert x.table.running == TableOf(x.heard).running;
    }
  }

  /** In every run, two such members that have heard of the same starts and finishes have the same
      tables if and only if the same listeners are both running and finished there; whatever the order
      in which they heard of them and whatever was sent twice, late or not at all. */
  lemma SameEventsAgreeIff(trace: seq<Net>, actions: seq<Action>, k: nat, i: NodeId, j: NodeId)
    requires IsRun(trace, actions) && k < |trace| && i in trace[k].members && j in trace[k].members
    requires Quiet(trace[k].members[i]) && Quiet(trace[k].members[j]) && trace[k].members[i].heard == trace[k].members[j].heard
    ensures trace[k].members[i].table == trace[k].members[j].table <==> Both(trace[k].members[i]) == Both(trace[k].members[j])
  {
    RunOk(trace, actions, k, i);
    RunOk(trace, actions, k, j);
    var x, y := trace[k].members[i], trace[k].members[j];
    QuietTable(x);
    QuietTable(y);
    assert x.table.running * x.table.finished == Both(x);
    assert y.table.running * y.table.finished == Both(y);
  }

  /** So as long as no step clashes, such members agree, and have the tables that the events call for. */
  lemma SameEventsAgree(trace: seq<Net>, actions: seq<Action>, k: nat, i: NodeId, j: NodeId)
    requires IsRun(trace, actions) && k < |trace| && i in trace[k].members && j in trace[k].members
    requires Quiet(trace[k].members[i]) && Quiet(trace[k].members[j]) && trace[k].members[i].heard == trace[k].members[j].heard
    requires forall l :: 0 <= l < k ==> !ClashesAt(trace[l], actions[l])
    ensures trace[k].members[i].table == TableOf(trace[k].members[i].heard) == trace[k].members[j].table
  {
    NoneBoth(trace, actions, k, i);
    NoneBoth(trace, actions, k, j);
    TableIsRightIff(trace, actions, k, i);
    TableIsRightIff(trace, actions, k, j);
  }

  // ---------------------------------------------------------------- running again

  /** The step makes `u` run at member `i`: it is started there, or a merge that had found it unknown
      adds it. */
  ghost predicate Runs(s: Net, a: Action, i: NodeId, u: Uuid) {
    a == Start(i, u) || (a == MergeRun(i) && Enabled(s, a) && u in s.members[i].merge.added - s.members[i].merge.removed)
  }

  lemma MoveRuns(x: Member, a: Action, u: Uuid)
    requires MemberEnabled(x, a) && u in x.table.finished
    ensures u in Move(x, a).table.finished
    ensures u in Move(x, a).table.running ==>
              u in x.table.running || (a.Start? && a.u == u) || (a.MergeRun? && u in x.merge.added - x.merge.removed)
    ensures (a.Start? && a.u == u) || (a.MergeRun? && u in x.merge.added - x.merge.removed) ==> u in Move(x, a).table.running
  {
  }

  /** In every run, once finished at a member, a listener stays finished there; and it runs there again,
      at some time, if and only if before that it is started there again, or added there by a merge
      that found it unknown before it finished. */
  lemma {:induction false} RunsAgainIff(trace: seq<Net>, actions: seq<Action>, k: nat, l: nat, i: NodeId, u: Uuid)
    requires IsRun(trace, actions) && k <= l < |trace| && i in trace[k].members
    requires u in trace[k].members[i].table.finished && u !in trace[k].members[i].table.running
    ensures i in trace[l].members && u in trace[l].members[i].table.finished
    ensures (exists m :: k <= m <= l && i in trace[m].members && u in trace[m].members[i].table.running) <==>
              exists m :: k <= m < l && Runs(trace[m], actions[m], i, u)
  {
    if k < l {
      RunsAgainIff(trace, actions, k, l - 1, i, u);
      assert Follows(trace[l - 1], actions[l - 1], trace[l]);
      StepRuns(trace[l - 1], actions[l - 1], i, u);
    }
  }

  lemma StepRuns(s: Net, a: Action, i: NodeId, u: Uuid)
    requires Enabled(s, a) && i in s.members && u in s.members[i].table.finished
    ensures i in Step(s, a).members && u in Step(s, a).members[i].table.finished
    ensures Runs(s, a, i, u) ==> u in Step(s, a).members[i].table.running
    ensures u in Step(s, a).members[i].table.running ==> u in s.members[i].table.running || Runs(s, a, i, u)
  {
    if a.i == i {
      MoveRuns(s.members[i], a, u);
    }
  }

  // ---------------------------------------------------------------- what can come between

  /** A merge that nothing comes between is the merge of the tables. */
  lemma UndisturbedMerge(x: Member, i: NodeId, msg: Ownership)
    requires x.merge.NoMerge?
    ensures var y := Move(Move(Move(x, Diff(i, msg)), MergeRun(i)), MergeFin(i));
            y.table == Merged(x.table, msg) && y.merge.NoMerge? && y.taken == x.taken && y.down == x.down
  {
    var y := Move(Move(Move(x, Diff(i, msg)), MergeRun(i)), MergeFin(i));
    assert y.table.running == Merged(x.table, msg).running;
    assert y.table.finished == Merged(x.table, msg).finished;
  }

  /** In any state, a member can send its table to another one that is not merging; if nothing comes between,
      the other one then has the merge of the two tables, and nobody else has changed. */
  lemma Exchange(s: Net, i: NodeId, j: NodeId) returns (s1: Net, s2: Net, s3: Net, s4: Net)
    requires i in s.members && j in s.members && i != j && s.members[j].merge.NoMerge?
    ensures Follows(s, Send(i), s1) && Follows(s1, Diff(j, s.members[i].table), s2)
    ensures Follows(s2, MergeRun(j), s3) && Follows(s3, MergeFin(j), s4)
    ensures s4.members.Keys == s.members.Keys && s4.members[j].table == Merged(s.members[j].table, s.members[i].table)
    ensures forall k :: k in s.members && k != j ==> s4.members[k] == s.members[k]
  {
    s1 := Step(s, Send(i));
    s2 := Step(s1, Diff(j, s.members[i].table));
    s3 := Step(s2, MergeRun(j));
    s4 := Step(s3, MergeFin(j));
    UndisturbedMerge(s.members[j], j, s.members[i].table);
  }

  /** A listener that starts and finishes between the diff and the first half of a merge that brings
      it as running: it runs again although it was started only once. */
  lemma StartInsideMerge(x: Member, i: NodeId, msg: Ownership, u: Uuid)
    requires x.merge.NoMerge? && x.down.Idle? && u in msg.running && u !in msg.finished
    requires u !in x.table.running && u !in x.table.finished
    ensures var y := Move(Move(Move(Move(x, Diff(i, msg)), Start(i, u)), TakeOut(i, u)), PutIn(i, u));
            u !in y.table.running && u in y.table.finished && Clashes(y, MergeRun(i)) && u in Both(Move(y, MergeRun(i)))
  {
    var y := Move(Move(Move(Move(x, Diff(i, msg)), Start(i, u)), TakeOut(i, u)), PutIn(i, u));
    assert y.down.Idle? && u in (y.merge.added - y.merge.removed) * y.table.finished - {};
  }

  /** `done` takes the listener out of the running ones, then adds it to the finished ones. A table
      merged in between undoes the first half if and only if the listener runs in that table. */
  lemma MergeInsideDone(a: Ownership, b: Ownership, u: Uuid)
    requires Exclusive(a) && Exclusive(b) && u in a.running
    ensures var merged := Merged(a.(running := a.running - {u}), b);
            Exclusive(merged.(finished := merged.finished + {u})) <==> u !in b.running
  {
    MergeIsJoinIff(a.(running := a.running - {u}), b);
    var merged := Merged(a.(running := a.running - {u}), b);
    assert u in b.running ==> u in merged.running;
  }

  /** `ListenSmapChanged` works the other way round. A table sent in between leaves the receiver with
      a listener both running and finished if and only if the receiver had not known it. */
  lemma SendInsideListenSmapChanged(a: Ownership, b: Ownership, u: Uuid)
    requires Exclusive(a) && Exclusive(b) && u in a.running
    ensures Exclusive(Merged(b, a.(finished := a.finished + {u}))) <==> u in b.running + b.finished
  {
    var sent := a.(finished := a.finished + {u});
    MergeIsJoinIff(b, sent);
    assert sent.running * sent.finished == {u};
  }

  /** No merge ever repairs that. */
  lemma {:induction false} MergeRepairsNothing(a: Ownership, tables: seq<Ownership>, u: Uuid)
    requires u in a.running && u in a.finished
    ensures u in MergedAll(a, tables).running && u in MergedAll(a, tables).finished
  {
    if tables != [] {
      MergeRepairsNothing(a, tables[..|tables| - 1], u);
    }
  }
}
