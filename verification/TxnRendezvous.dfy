/** What a commit handler learns about its BMD delivery, over every interleaving. */
module TxnRendezvous {
  import opened Common
  import opened Transactions

  /** The outcome that a transaction has: set in its object, or in its rendezvous record. */
  ghost function Decided(m: set<Uuid>, b: Board, u: Uuid): Option<Err> {
    if u in m && u in b.txns && b.txns[u].err.Some? then b.txns[u].err
    else if u in b.rdz then b.rdz[u]
    else None
  }

  /** An outcome in the object or in the record is the one that was recorded. */
  ghost predicate RecordsOk(m: set<Uuid>, b: Board) {
    && (forall u :: u in m && u in b.txns && b.txns[u].err.Some? ==>
          && u in b.rdz && u in b.outcome && b.outcome[u] == b.txns[u].err.value
          && (b.rdz[u].Some? ==> b.rdz[u] == b.txns[u].err))
    && (forall u :: u in b.rdz && b.rdz[u].Some? ==> u in b.outcome && b.outcome[u] == b.rdz[u].value)
  }

  /** A delivery under way finds its record empty and its transaction undecided. */
  ghost predicate DeliveryOk(m: set<Uuid>, b: Board) {
    b.delivery.Some? && (b.delivery.value.uid in m || b.delivery.value.uid !in b.txns) ==>
      var u := b.delivery.value.uid;
      u in b.rdz && b.rdz[u].None? && (u in b.txns ==> b.txns[u].err.None?)
  }

  /** What a waiter has seen of a registered transaction still stands. */
  ghost predicate WaiterOk(m: set<Uuid>, b: Board, x: Waiter) {
    x.uid in m ==>
      && (x.phase.Read? && x.phase.rsvp.Some? ==> x.uid in b.rdz && b.rdz[x.uid] == x.phase.rsvp)
      && (x.phase.Done? ==> x.phase.result.TimedOut? || Decided(m, b, x.uid) == Some(x.phase.result))
  }

  ghost predicate WaitersOk(m: set<Uuid>, b: Board) {
    forall w :: w in b.waiters ==> WaiterOk(m, b, b.waiters[w])
  }

  /** What is recorded is what applying the BMD returned; only a downgrade may become success. */
  ghost predicate AppliedOk(b: Board) {
    forall u :: u in b.outcome ==> u in b.applied && (b.outcome[u] == b.applied[u] || (b.applied[u].Downgrade? && b.outcome[u].Nil?))
  }

  /** Not removed: not yet begun, or registered. */
  ghost predicate Live(s: Sys, u: Uuid) {
    u in s.m || u !in s.board.txns
  }

  ghost predicate Inv(s: Sys) {
    WellFormed(s) && RecordsOk(s.m, s.board) && DeliveryOk(s.m, s.board) && WaitersOk(s.m, s.board) && AppliedOk(s.board)
  }

  // ---------------------------------------------------------------- every step

  lemma RecordRecordsOk(m: set<Uuid>, b: Board, err: Err)
    requires b.delivery.Some? && m <= b.txns.Keys && RecordsOk(m, b) && DeliveryOk(m, b)
    ensures RecordsOk(m, RecordOutcome(b, m, err))
  {
  }

  lemma RemoveRecordsOk(s: Sys, a: Action)
    requires Inv(s) && Enabled(s, a) && (a.Finish? || a.Remove? || a.Collect?)
    ensures RecordsOk(Step(s, a).m, BoardStep(s, a))
  {
  }

  lemma RsvpRecordsOk(s: Sys, a: Action)
    requires Inv(s) && Enabled(s, a) && a.Rsvp?
    ensures RecordsOk(s.m, BoardStep(s, a))
  {
    var x := s.board.waiters[a.w];
    assert WaiterOk(s.m, s.board, x);
  }

  lemma StepRecordsOk(s: Sys, a: Action)
    requires Inv(s) && Enabled(s, a)
    ensures RecordsOk(Step(s, a).m, BoardStep(s, a))
  {
    if a.Finish? || a.Remove? || a.Collect? {
      RemoveRecordsOk(s, a);
    } else if a.CommitAfter? {
      RecordRecordsOk(s.m, s.board, a.err);
    } else if a.Rsvp? {
      RsvpRecordsOk(s, a);
    } else {
      assert BoardStep(s, a).outcome == s.board.outcome;
    }
  }

  lemma RecordEndsDelivery(b: Board, m: set<Uuid>, err: Err)
    requires b.delivery.Some? && m <= b.txns.Keys
    ensures RecordOutcome(b, m, err).delivery.None?
  {
  }

  lemma WaitDeliveryOk(s: Sys, a: Action)
    requires Inv(s) && Enabled(s, a) && IsWait(a)
    ensures DeliveryOk(Step(s, a).m, BoardStep(s, a))
  {
    if a.Rsvp? {
      assert WaiterOk(s.m, s.board, s.board.waiters[a.w]);
    }
  }

  lemma StepDeliveryOk(s: Sys, a: Action)
    requires Inv(s) && Enabled(s, a)
    ensures DeliveryOk(Step(s, a).m, BoardStep(s, a))
  {
    if IsWait(a) {
      WaitDeliveryOk(s, a);
    } else if a.CommitAfter? {
      RecordEndsDelivery(s.board, s.m, a.err);
    }
  }

  lemma RecordAppliedOk(m: set<Uuid>, b: Board, err: Err)
    requires b.delivery.Some? && m <= b.txns.Keys && AppliedOk(b)
    ensures AppliedOk(RecordOutcome(b, m, err))
  {
  }

  lemma WaitOutcomes(s: Sys, a: Action)
    requires WellFormed(s) && Enabled(s, a) && IsWait(a)
    ensures BoardStep(s, a).applied == s.board.applied && BoardStep(s, a).outcome == s.board.outcome
  {
  }

  lemma SameOutcomes(s: Sys, a: Action)
    requires WellFormed(s) && Enabled(s, a) && !a.CommitAfter?
    ensures BoardStep(s, a).applied == s.board.applied && BoardStep(s, a).outcome == s.board.outcome
  {
    if IsWait(a) {
      WaitOutcomes(s, a);
    }
  }

  lemma StepAppliedOk(s: Sys, a: Action)
    requires WellFormed(s) && Enabled(s, a) && AppliedOk(s.board)
    ensures AppliedOk(BoardStep(s, a))
  {
    if a.CommitAfter? {
      RecordAppliedOk(s.m, s.board, a.err);
    } else {
      SameOutcomes(s, a);
    }
  }

  lemma RecordDecided(m: set<Uuid>, b: Board, err: Err, u: Uuid)
    requires b.delivery.Some? && m <= b.txns.Keys && DeliveryOk(m, b) && (u in m || u !in b.txns) && Decided(m, b, u).Some?
    ensures Decided(m, RecordOutcome(b, m, err), u) == Decided(m, b, u)
  {
  }

  lemma WaitDecided(s: Sys, a: Action, u: Uuid)
    requires Inv(s) && Enabled(s, a) && IsWait(a) && Live(Step(s, a), u) && Decided(s.m, s.board, u).Some?
    ensures Decided(Step(s, a).m, BoardStep(s, a), u) == Decided(s.m, s.board, u)
  {
    if a.Rsvp? {
      assert WaiterOk(s.m, s.board, s.board.waiters[a.w]);
    }
  }

  /** Until a transaction is removed, its outcome is written once. */
  lemma StepDecided(s: Sys, a: Action, u: Uuid)
    requires Inv(s) && Enabled(s, a) && Live(Step(s, a), u) && Decided(s.m, s.board, u).Some?
    ensures Decided(Step(s, a).m, BoardStep(s, a), u) == Decided(s.m, s.board, u)
  {
    if IsWait(a) {
      WaitDecided(s, a, u);
    } else if a.CommitAfter? {
      RecordDecided(s.m, s.board, a.err, u);
    }
  }

  /** A waiter that is not the one moving. */
  lemma OtherWaiterOk(s: Sys, a: Action, x: Waiter)
    requires Inv(s) && Enabled(s, a) && WaiterOk(s.m, s.board, x) && x.uid in s.board.txns
    ensures WaiterOk(Step(s, a).m, BoardStep(s, a), x)
  {
    if x.uid in Step(s, a).m && x.phase.Done? && !x.phase.result.TimedOut? {
      StepDecided(s, a, x.uid);
    }
  }

  lemma MovingWaiterOk(s: Sys, a: Action)
    requires Inv(s) && Enabled(s, a) && IsWait(a) && !a.Finish?
    ensures var b := BoardStep(s, a); a.w in b.waiters && WaiterOk(s.m, b, b.waiters[a.w])
  {
  }

  lemma StepWaitersOk(s: Sys, a: Action)
    requires Inv(s) && Enabled(s, a)
    ensures WaitersOk(Step(s, a).m, BoardStep(s, a))
  {
    var b := BoardStep(s, a);
    if IsWait(a) && !a.Finish? {
      MovingWaiterOk(s, a);
    }
    forall w | w in b.waiters && !(IsWait(a) && a.w == w)
      ensures WaiterOk(Step(s, a).m, b, b.waiters[w])
    {
      OtherWaiter(s, a, w);
      OtherWaiterOk(s, a, s.board.waiters[w]);
    }
  }

  lemma OtherWaiter(s: Sys, a: Action, w: nat)
    requires WellFormed(s) && Enabled(s, a) && w in BoardStep(s, a).waiters && !(IsWait(a) && a.w == w)
    ensures w in s.board.waiters && BoardStep(s, a).waiters[w] == s.board.waiters[w]
  {
    if a.CommitAfter? {
      RecordKeys(s.board, s.m, a.err);
    }
  }

  lemma StepInv(s: Sys, a: Action)
    requires Inv(s) && Enabled(s, a)
    ensures Inv(Step(s, a))
  {
    StepWellFormed(s, a);
    StepRecordsOk(s, a);
    StepDeliveryOk(s, a);
    StepWaitersOk(s, a);
    StepAppliedOk(s, a);
  }

  // ---------------------------------------------------------------- every run

  lemma {:induction false} RunInv(trace: seq<Sys>, actions: seq<Action>, i: nat)
    requires IsRun(trace, actions) && i < |trace|
    ensures Inv(trace[i])
  {
    if i > 0 {
      RunInv(trace, actions, i - 1);
      assert Follows(trace[i - 1], actions[i - 1], trace[i]);
      StepInv(trace[i - 1], actions[i - 1]);
    }
  }

  /** A transaction is registered at most once: once removed, it never comes back. */
  lemma {:induction false} RemovedForGood(trace: seq<Sys>, actions: seq<Action>, i: nat, j: nat, u: Uuid)
    requires IsRun(trace, actions) && i <= j < |trace| && u in trace[i].board.txns && u !in trace[i].m
    ensures u in trace[j].board.txns && u !in trace[j].m
  {
    if i < j {
      RemovedForGood(trace, actions, i, j - 1, u);
      assert Follows(trace[j - 1], actions[j - 1], trace[j]);
      BoardKeys(trace[j - 1], actions[j - 1]);
    }
  }

  /** The outcome of a transaction, once recorded, stays until the transaction is removed. */
  lemma {:induction false} DecidedOnce(trace: seq<Sys>, actions: seq<Action>, i: nat, j: nat, u: Uuid)
    requires IsRun(trace, actions) && i <= j < |trace| && Live(trace[j], u)
    requires Decided(trace[i].m, trace[i].board, u).Some?
    ensures Decided(trace[j].m, trace[j].board, u) == Decided(trace[i].m, trace[i].board, u)
  {
    if i < j {
      if !Live(trace[j - 1], u) {
        RemovedForGood(trace, actions, j - 1, j, u);
      }
      DecidedOnce(trace, actions, i, j - 1, u);
      RunInv(trace, actions, j - 1);
      assert Follows(trace[j - 1], actions[j - 1], trace[j]);
      StepDecided(trace[j - 1], actions[j - 1], u);
    }
  }

  /** An outcome in a transaction object is never overwritten by a delivery. */
  lemma RecordedOnce(b: Board, m: set<Uuid>, err: Err, u: Uuid)
    requires b.delivery.Some? && m <= b.txns.Keys && u in b.txns && b.txns[u].err.Some?
    ensures u in RecordOutcome(b, m, err).txns && RecordOutcome(b, m, err).txns[u] == b.txns[u]
  {
  }

  /** Applying a BMD for a transaction that has not been removed decides its outcome. */
  lemma RecordDecides(s: Sys, err: Err)
    requires Inv(s) && s.board.delivery.Some? && Live(s, s.board.delivery.value.uid)
    ensures var u := s.board.delivery.value.uid;
            Decided(s.m, RecordOutcome(s.board, s.m, err), u) == Some(Recorded(u in s.m, err))
  {
  }

  /** The wait of a commit handler on a registered transaction returns what applying the BMD
      returned, wherever the delivery fell: before the begin, between begin and commit, or during
      the wait. The one exception is a downgrade error, which counts as success unless the delivery
      came before the begin. If deliveries come from the callers that began, the first poll after the
      delivery ends the wait. */
  lemma WaitReturnsOutcome(trace: seq<Sys>, actions: seq<Action>, i: nat, j: nat, err: Err, w: nat, u: Uuid)
    requires IsRun(trace, actions) && i < j < |actions|
    requires actions[i] == CommitAfter(err) && trace[i].board.delivery.Some? && trace[i].board.delivery.value.uid == u
    requires Live(trace[i], u)
    requires actions[j] == Poll(w) && w in trace[j].board.waiters && trace[j].board.waiters[w].uid == u && u in trace[j].m
    ensures w in trace[j + 1].board.waiters && (trace[j + 1].board.waiters[w].phase.Done? ==>
              trace[j + 1].board.waiters[w].phase.result == if err.Downgrade? && u in trace[i].m then Nil else err)
    ensures (forall k :: 0 <= k < j ==> SameCaller(trace[k])) ==>
              trace[j + 1].board.waiters[w].phase == Done(if err.Downgrade? && u in trace[i].m then Nil else err)
  {
    RunInv(trace, actions, i);
    assert Follows(trace[i], actions[i], trace[i + 1]);
    RecordDecides(trace[i], err);
    DecidedOnce(trace, actions, i + 1, j, u);
    assert Follows(trace[j], actions[j], trace[j + 1]);
    if forall k :: 0 <= k < j ==> SameCaller(trace[k]) {
      NoOutcomeMissed(trace, actions, j);
      assert Sees(trace[j].m, trace[j].board, trace[j].board.waiters[w]);
    }
  }

  lemma RecordCommits(b: Board, m: set<Uuid>, err: Err)
    requires b.delivery.Some? && m <= b.txns.Keys
    ensures RecordOutcome(b, m, err).committed == b.committed
  {
  }

  lemma CommittedStep(s: Sys, a: Action)
    requires WellFormed(s) && Enabled(s, a) && s.board.committed <= s.board.txns.Keys - s.m
    ensures BoardStep(s, a).committed <= BoardStep(s, a).txns.Keys - Step(s, a).m
  {
    BoardKeys(s, a);
    if a.CommitAfter? {
      RecordCommits(s.board, s.m, a.err);
    }
  }

  /** Committed transactions are gone from the table. */
  lemma {:induction false} CommittedAreGone(trace: seq<Sys>, actions: seq<Action>, i: nat)
    requires IsRun(trace, actions) && i < |trace|
    ensures trace[i].board.committed <= trace[i].board.txns.Keys - trace[i].m
  {
    if i > 0 {
      CommittedAreGone(trace, actions, i - 1);
      assert Follows(trace[i - 1], actions[i - 1], trace[i]);
      CommittedStep(trace[i - 1], actions[i - 1]);
    }
  }

  /** The step removes a registered transaction by commit: a commit message, or a wait that ends with nil. */
  ghost predicate Commits(s: Sys, a: Action, u: Uuid) {
    && u in s.m
    && (a == Remove(u, true) || (a.Finish? && a.w in s.board.waiters && s.board.waiters[a.w] == Waiter(u, Done(Nil))))
  }

  lemma WaitCommits(s: Sys, a: Action, u: Uuid)
    requires WellFormed(s) && Enabled(s, a) && IsWait(a)
    ensures u in BoardStep(s, a).committed <==> u in s.board.committed || Commits(s, a, u)
  {
  }

  lemma StepCommits(s: Sys, a: Action, u: Uuid)
    requires WellFormed(s) && Enabled(s, a)
    ensures u in BoardStep(s, a).committed <==> u in s.board.committed || Commits(s, a, u)
  {
    if IsWait(a) {
      WaitCommits(s, a, u);
    } else if a.CommitAfter? {
      RecordCommits(s.board, s.m, a.err);
    }
  }

  /** In every run, a transaction is committed if and only if it was removed while registered, by a commit
      message or by a wait that ended with nil. */
  lemma {:induction false} CommittedIff(trace: seq<Sys>, actions: seq<Action>, i: nat, u: Uuid)
    requires IsRun(trace, actions) && i < |trace|
    ensures u in trace[i].board.committed <==> CommitsBefore(trace, actions, i, u)
  {
    if i > 0 {
      CommittedIff(trace, actions, i - 1, u);
      CommittedNext(trace, actions, i - 1, u);
    }
  }

  lemma CommittedNext(trace: seq<Sys>, actions: seq<Action>, i: nat, u: Uuid)
    requires IsRun(trace, actions) && i < |actions|
    requires u in trace[i].board.committed <==> CommitsBefore(trace, actions, i, u)
    ensures u in trace[i + 1].board.committed <==> CommitsBefore(trace, actions, i + 1, u)
  {
    StepCommitsAt(trace, actions, i, u);
    CommitsNext(trace, actions, i, u);
  }

  ghost predicate CommitsBefore(trace: seq<Sys>, actions: seq<Action>, i: nat, u: Uuid)
    requires i <= |trace| && i <= |actions|
  {
    exists k :: 0 <= k < i && CommitsAt(trace, actions, k, u)
  }

  lemma CommitsNext(trace: seq<Sys>, actions: seq<Action>, i: nat, u: Uuid)
    requires i < |trace| && i < |actions|
    ensures CommitsBefore(trace, actions, i + 1, u) <==> CommitsBefore(trace, actions, i, u) || CommitsAt(trace, actions, i, u)
  {
  }

  ghost predicate CommitsAt(trace: seq<Sys>, actions: seq<Action>, k: nat, u: Uuid)
    requires k < |trace| && k < |actions|
  {
    Commits(trace[k], actions[k], u)
  }

  lemma StepCommitsAt(trace: seq<Sys>, actions: seq<Action>, k: nat, u: Uuid)
    requires IsRun(trace, actions) && k < |actions|
    ensures u in trace[k + 1].board.committed <==> u in trace[k].board.committed || CommitsAt(trace, actions, k, u)
  {
    assert Follows(trace[k], actions[k], trace[k + 1]);
    StepCommits(trace[k], actions[k], u);
  }

  /** Whatever removes a transaction forgets its record and releases its locks: an abort or commit message,
      the end of a wait, or garbage collection. */
  lemma RemovalForgets(s: Sys, a: Action, u: Uuid)
    requires WellFormed(s) && Enabled(s, a) && Ends(s, a) == Some(u)
    ensures u !in Step(s, a).m && u !in Step(s, a).board.rdz && u in Step(s, a).l.nlps && Step(s, a).l.nlps[u] == map[]
    ensures Step(s, a).m == s.m - {u} && Step(s, a).board.txns == s.board.txns
    ensures forall v :: v != u ==> (v in Step(s, a).board.rdz <==> v in s.board.rdz)
  {
  }

  /** A handler that times out aborts its transaction, whatever has been recorded: it is deregistered and
      not committed. */
  lemma TimedOutAborts(s: Sys, w: nat)
    requires Inv(s) && s.board.committed !! s.m && w in s.board.waiters && s.board.waiters[w].phase.Polling?
    ensures var u := s.board.waiters[w].uid;
            var t := Step(s, Expire(w));
            && WellFormed(t) && Enabled(t, Finish(w))
            && u !in Step(t, Finish(w)).m && (u in s.m ==> u !in Step(t, Finish(w)).board.committed)
  {
    StepWellFormed(s, Expire(w));
  }

  /** The wait always ends with the transaction deregistered; if it was still registered, it is then
      committed if and only if the result is nil. */
  lemma CommittedIffNil(trace: seq<Sys>, actions: seq<Action>, j: nat, w: nat)
    requires IsRun(trace, actions) && j < |actions| && actions[j] == Finish(w)
    requires w in trace[j].board.waiters && trace[j].board.waiters[w].phase.Done?
    ensures var x := trace[j].board.waiters[w];
            && x.uid !in trace[j + 1].m && w !in trace[j + 1].board.waiters
            && (x.uid in trace[j].m ==> (x.uid in trace[j + 1].board.committed <==> x.phase.result.Nil?))
            && (x.uid !in trace[j].m ==> trace[j + 1].board.committed == trace[j].board.committed)
  {
    CommittedAreGone(trace, actions, j);
    assert Follows(trace[j], actions[j], trace[j + 1]);
  }

  /** A commit handler commits its transaction only if a BMD was applied for it with success or with
      a downgrade error; and it always deregisters it. */
  lemma CommitsOnlyApplied(trace: seq<Sys>, actions: seq<Action>, j: nat, w: nat)
    requires IsRun(trace, actions) && j < |actions| && actions[j] == Finish(w) && w in trace[j].board.waiters
    ensures var u := trace[j].board.waiters[w].uid;
            && u !in trace[j + 1].m && (u in trace[j].m ==> u !in trace[j + 1].board.rdz)
            && (u in trace[j + 1].board.committed && u !in trace[j].board.committed ==>
                  u in trace[j].board.applied && (trace[j].board.applied[u].Nil? || trace[j].board.applied[u].Downgrade?))
  {
    RunInv(trace, actions, j);
    assert Follows(trace[j], actions[j], trace[j + 1]);
    var b := trace[j].board;
    assert WaiterOk(trace[j].m, b, b.waiters[w]);
  }

  // ---------------------------------------------------------------- no outcome is missed

  /** The delivery under way comes from the caller that began the transaction. */
  ghost predicate SameCaller(s: Sys) {
    s.board.delivery.Some? && s.board.delivery.value.uid in s.m && s.board.delivery.value.uid in s.board.txns ==>
      s.board.txns[s.board.delivery.value.uid].caller == s.board.delivery.value.caller
  }

  /** A handler that has passed its look at the rendezvous record will find the outcome in the
      transaction object. */
  ghost predicate Sees(m: set<Uuid>, b: Board, x: Waiter) {
    x.uid in m && x.uid in b.txns && (x.phase.Polling? || x.phase == Read(None)) && Decided(m, b, x.uid).Some? ==>
      b.txns[x.uid].err == Decided(m, b, x.uid)
  }

  ghost predicate AllSee(s: Sys) {
    forall w :: w in s.board.waiters ==> Sees(s.m, s.board, s.board.waiters[w])
  }

  lemma RecordSees(m: set<Uuid>, b: Board, err: Err, x: Waiter)
    requires b.delivery.Some? && m <= b.txns.Keys && RecordsOk(m, b) && x.uid in b.txns && Sees(m, b, x)
    requires b.delivery.value.uid in m ==> b.txns[b.delivery.value.uid].caller == b.delivery.value.caller
    ensures Sees(m, RecordOutcome(b, m, err), x)
  {
  }

  lemma WaitSees(s: Sys, a: Action, x: Waiter)
    requires Inv(s) && Enabled(s, a) && IsWait(a) && x.uid in s.board.txns && Sees(s.m, s.board, x)
    ensures Sees(Step(s, a).m, BoardStep(s, a), x)
  {
    if a.Rsvp? {
      RsvpSees(s, a, x);
    } else if x.uid in Step(s, a).m {
      assert BoardStep(s, a).txns == s.board.txns;
      assert x.uid in s.board.rdz <==> x.uid in BoardStep(s, a).rdz;
    }
  }

  lemma RsvpSees(s: Sys, a: Action, x: Waiter)
    requires Inv(s) && Enabled(s, a) && a.Rsvp? && x.uid in s.board.txns && Sees(s.m, s.board, x)
    ensures Sees(s.m, BoardStep(s, a), x)
  {
    assert WaiterOk(s.m, s.board, s.board.waiters[a.w]);
  }

  lemma OtherSees(s: Sys, a: Action, x: Waiter)
    requires Inv(s) && Enabled(s, a) && SameCaller(s) && x.uid in s.board.txns && Sees(s.m, s.board, x)
    ensures Sees(Step(s, a).m, BoardStep(s, a), x)
  {
    if IsWait(a) {
      WaitSees(s, a, x);
    } else if a.CommitAfter? {
      RecordSees(s.m, s.board, a.err, x);
    }
  }

  lemma MovingSees(s: Sys, a: Action)
    requires Inv(s) && Enabled(s, a) && IsWait(a) && !a.Finish? && AllSee(s)
    ensures var b := BoardStep(s, a); a.w in b.waiters && Sees(s.m, b, b.waiters[a.w])
  {
    if !a.Find? {
      assert Sees(s.m, s.board, s.board.waiters[a.w]) && WaiterOk(s.m, s.board, s.board.waiters[a.w]);
    }
  }

  lemma StepSees(s: Sys, a: Action)
    requires Inv(s) && Enabled(s, a) && SameCaller(s) && AllSee(s)
    ensures AllSee(Step(s, a))
  {
    var b := BoardStep(s, a);
    if IsWait(a) && !a.Finish? {
      MovingSees(s, a);
    }
    forall w | w in b.waiters && !(IsWait(a) && a.w == w) ensures Sees(Step(s, a).m, b, b.waiters[w]) {
      OtherWaiter(s, a, w);
      OtherSees(s, a, s.board.waiters[w]);
    }
  }

  /** If deliveries come from the callers that began the transactions, a handler that polls after the
      outcome was recorded is done at once. */
  lemma {:induction false} NoOutcomeMissed(trace: seq<Sys>, actions: seq<Action>, i: nat)
    requires IsRun(trace, actions) && i < |trace|
    requires forall k :: 0 <= k < i ==> SameCaller(trace[k])
    ensures AllSee(trace[i])
  {
    if i > 0 {
      NoOutcomeMissed(trace, actions, i - 1);
      RunInv(trace, actions, i - 1);
      assert Follows(trace[i - 1], actions[i - 1], trace[i]);
      StepSees(trace[i - 1], actions[i - 1]);
    }
  }

  /** If deliveries come from the callers that began, a poll of a registered transaction ends the wait if
      and only if the outcome has been recorded, and with that outcome. */
  lemma PollEndsIff(trace: seq<Sys>, actions: seq<Action>, i: nat, w: nat)
    requires IsRun(trace, actions) && i < |actions| && actions[i] == Poll(w)
    requires forall k :: 0 <= k < i ==> SameCaller(trace[k])
    requires w in trace[i].board.waiters && trace[i].board.waiters[w].uid in trace[i].m
    ensures w in trace[i + 1].board.waiters
    ensures var outcome := Decided(trace[i].m, trace[i].board, trace[i].board.waiters[w].uid);
            trace[i + 1].board.waiters[w].phase == if outcome.Some? then Done(outcome.value) else Polling
  {
    NoOutcomeMissed(trace, actions, i);
    assert Follows(trace[i], actions[i], trace[i + 1]);
    assert Sees(trace[i].m, trace[i].board, trace[i].board.waiters[w]);
  }

  /** The state that a run ends in. */
  ghost function End(trace: seq<Sys>): Sys
    requires trace != []
  {
    trace[|trace| - 1]
  }

  lemma Extend(trace: seq<Sys>, actions: seq<Action>, a: Action) returns (longer: seq<Sys>)
    requires IsRun(trace, actions) && WellFormed(End(trace)) && Enabled(End(trace), a)
    ensures IsRun(longer, actions + [a]) && trace <= longer && End(longer) == Step(End(trace), a) && WellFormed(End(longer))
  {
    StepWellFormed(End(trace), a);
    longer := trace + [Step(End(trace), a)];
  }

  lemma FindThenRead(trace: seq<Sys>, actions: seq<Action>, w: nat, u: Uuid) returns (longer: seq<Sys>)
    requires IsRun(trace, actions) && WellFormed(End(trace)) && u in End(trace).m && w !in End(trace).board.waiters
    ensures IsRun(longer, actions + [Find(w, u)] + [ReadRecord(w)]) && trace <= longer && WellFormed(End(longer))
    ensures var b := End(trace).board;
            End(longer) == End(trace).(board := b.(waiters := b.waiters[w := Waiter(u, Read(if u in b.rdz then b.rdz[u] else None))]))
  {
    longer := Extend(trace, actions, Find(w, u));
    longer := Extend(longer, actions + [Find(w, u)], ReadRecord(w));
  }

  /** What the handler goes by: the record that it has read, or else the transaction object. */
  ghost predicate Learns(b: Board, w: nat, err: Err) {
    && w in b.waiters && b.waiters[w].phase.Read? && b.waiters[w].uid in b.txns
    && (if b.waiters[w].phase.rsvp.Some? then b.waiters[w].phase.rsvp else b.txns[b.waiters[w].uid].err) == Some(err)
  }

  lemma RsvpThenPoll(trace: seq<Sys>, actions: seq<Action>, w: nat, err: Err) returns (longer: seq<Sys>)
    requires IsRun(trace, actions) && WellFormed(End(trace)) && Learns(End(trace).board, w, err)
    ensures IsRun(longer, actions + [Rsvp(w)] + [Poll(w)]) && trace <= longer && WellFormed(End(longer))
    ensures End(longer).m == End(trace).m && End(longer).board.committed == End(trace).board.committed
    ensures w in End(longer).board.waiters && End(longer).board.waiters[w] == Waiter(End(trace).board.waiters[w].uid, Done(err))
  {
    longer := Extend(trace, actions, Rsvp(w));
    longer := Extend(longer, actions + [Rsvp(w)], Poll(w));
  }

  /** Any run after which a transaction is registered and its outcome recorded, by whomever, can go on
      with a commit handler: if nobody comes in between, its first poll ends the wait with that outcome. */
  lemma UndisturbedWait(trace: seq<Sys>, actions: seq<Action>, w: nat, u: Uuid) returns (longer: seq<Sys>)
    requires IsRun(trace, actions) && u in End(trace).m && w !in End(trace).board.waiters
    requires Decided(End(trace).m, End(trace).board, u).Some?
    ensures IsRun(longer, actions + [Find(w, u)] + [ReadRecord(w)] + [Rsvp(w)] + [Poll(w)]) && trace <= longer
    ensures End(longer).m == End(trace).m && End(longer).board.committed == End(trace).board.committed && w in End(longer).board.waiters
    ensures End(longer).board.waiters[w] == Waiter(u, Done(Decided(End(trace).m, End(trace).board, u).value))
  {
    RunInv(trace, actions, |trace| - 1);
    longer := FindThenRead(trace, actions, w, u);
    longer := RsvpThenPoll(longer, actions + [Find(w, u)] + [ReadRecord(w)], w, Decided(End(trace).m, End(trace).board, u).value);
  }

  /** It then commits the transaction if and only if the outcome is nil. */
  lemma UndisturbedCommit(trace: seq<Sys>, actions: seq<Action>, w: nat, u: Uuid) returns (longer: seq<Sys>)
    requires IsRun(trace, actions) && u in End(trace).m && w !in End(trace).board.waiters
    requires Decided(End(trace).m, End(trace).board, u).Some?
    ensures IsRun(longer, actions + [Find(w, u)] + [ReadRecord(w)] + [Rsvp(w)] + [Poll(w)] + [Finish(w)]) && trace <= longer
    ensures End(longer).m == End(trace).m - {u}
    ensures u in End(longer).board.committed <==> Decided(End(trace).m, End(trace).board, u) == Some(Nil)
  {
    longer := UndisturbedWait(trace, actions, w, u);
    var done := actions + [Find(w, u)] + [ReadRecord(w)] + [Rsvp(w)] + [Poll(w)];
    RunInv(longer, done, |longer| - 1);
    CommittedAreGone(longer, done, |longer| - 1);
    longer := Extend(longer, done, Finish(w));
  }

  lemma Begun(u: Uuid, caller: string) returns (trace: seq<Sys>)
    ensures IsRun(trace, [StartBegin(u)] + [Register(u, caller)]) && WellFormed(End(trace)) && End(trace).m == {u}
    ensures End(trace).board == INIT.board.(txns := map[u := Txn(caller, None)])
  {
    trace := Extend([INIT], [], StartBegin(u));
    assert [] + [StartBegin(u)] == [StartBegin(u)];
    trace := Extend(trace, [StartBegin(u)], Register(u, caller));
  }

  lemma Delivered(trace: seq<Sys>, actions: seq<Action>, u: Uuid, caller: string, err: Err) returns (longer: seq<Sys>)
    requires IsRun(trace, actions) && WellFormed(End(trace)) && End(trace).m == {u}
    requires End(trace).board == INIT.board.(txns := map[u := Txn(caller, None)])
    ensures IsRun(longer, actions + [CommitBefore(u, caller)] + [CommitAfter(err)]) && End(longer).m == {u} && End(longer).board.waiters == map[]
    ensures Decided(End(longer).m, End(longer).board, u) == Some(Recorded(true, err))
  {
    longer := Extend(trace, actions, CommitBefore(u, caller));
    longer := Extend(longer, actions + [CommitBefore(u, caller)], CommitAfter(err));
  }

  /** A whole run: begin, delivery, commit. The transaction is committed if and only if the BMD was applied
      with success or with a downgrade error. */
  lemma WholeRun(u: Uuid, caller: string, err: Err, w: nat) returns (trace: seq<Sys>)
    ensures IsRun(trace, [StartBegin(u)] + [Register(u, caller)] + [CommitBefore(u, caller)] + [CommitAfter(err)]
                         + [Find(w, u)] + [ReadRecord(w)] + [Rsvp(w)] + [Poll(w)] + [Finish(w)])
    ensures u !in End(trace).m && (u in End(trace).board.committed <==> err.Nil? || err.Downgrade?)
  {
    trace := Begun(u, caller);
    trace := Delivered(trace, [StartBegin(u)] + [Register(u, caller)], u, caller, err);
    trace := UndisturbedCommit(trace, [StartBegin(u)] + [Register(u, caller)] + [CommitBefore(u, caller)] + [CommitAfter(err)], w, u);
  }

  /** A delivery from another caller goes to the rendezvous record, where a handler that already
      polls never looks: it stays undone although the BMD was applied. */
  lemma OtherCallerIsMissed(s: Sys, err: Err, w: nat)
    requires Inv(s) && s.board.delivery.Some? && w in s.board.waiters
    requires s.board.waiters[w] == Waiter(s.board.delivery.value.uid, Polling) && s.board.waiters[w].uid in s.m
    ensures var u := s.board.waiters[w].uid;
            var t := Step(s, CommitAfter(err));
            && Decided(t.m, t.board, u).Some?
            && (s.board.txns[u].caller != s.board.delivery.value.caller <==> t.board.txns[u].err.None?)
  {
  }

  /** A handler whose transaction was aborted while it polls returns "not found" if the outcome had
      not been recorded, and that outcome, possibly success, if it had. */
  lemma AbortedWhilePolling(s: Sys, w: nat) returns (t: Sys, p: Sys, c: Sys)
    requires Inv(s) && w in s.board.waiters && s.board.waiters[w].phase.Polling? && s.board.waiters[w].uid in s.m
    ensures Follows(s, Remove(s.board.waiters[w].uid, false), t) && Follows(t, Poll(w), p)
    ensures w in p.board.waiters && s.board.waiters[w].uid !in p.m && p.board.committed == s.board.committed
    ensures s.board.txns[s.board.waiters[w].uid].err.Some? ==>
              p.board.waiters[w].phase == Done(s.board.txns[s.board.waiters[w].uid].err.value)
    ensures s.board.txns[s.board.waiters[w].uid].err.None? ==>
              Follows(p, CheckAborted(w), c) && w in c.board.waiters && c.board.waiters[w].phase == Done(NotFound)
  {
    t := Aborted(s, s.board.waiters[w].uid);
    p, c := PollThenCheck(t, w);
  }

  lemma Aborted(s: Sys, u: Uuid) returns (t: Sys)
    requires WellFormed(s) && u in s.m
    ensures Follows(s, Remove(u, false), t) && WellFormed(t) && u !in t.m
    ensures t.board.txns == s.board.txns && t.board.waiters == s.board.waiters && t.board.committed == s.board.committed
  {
    t := Step(s, Remove(u, false));
    StepWellFormed(s, Remove(u, false));
  }

  lemma PollThenCheck(t: Sys, w: nat) returns (p: Sys, c: Sys)
    requires WellFormed(t) && w in t.board.waiters && t.board.waiters[w].phase.Polling? && t.board.waiters[w].uid !in t.m
    ensures Follows(t, Poll(w), p) && p.m == t.m && p.board.committed == t.board.committed && w in p.board.waiters
    ensures t.board.txns[t.board.waiters[w].uid].err.Some? ==>
              p.board.waiters[w].phase == Done(t.board.txns[t.board.waiters[w].uid].err.value)
    ensures t.board.txns[t.board.waiters[w].uid].err.None? ==>
              Follows(p, CheckAborted(w), c) && w in c.board.waiters && c.board.waiters[w].phase == Done(NotFound)
  {
    p := Step(t, Poll(w));
    StepWellFormed(t, Poll(w));
    c := if t.board.txns[t.board.waiters[w].uid].err.None? then Step(p, CheckAborted(w)) else p;
  }
}
