/** Who holds the bucket locks, over every interleaving of the transaction steps. */
module TxnLocks {
  import opened Common
  import opened Transactions

  /** The locks a transaction holds: its begin handler has them until it attaches them. */
  ghost function Held(s: LockState, u: Uuid): map<Bck, Mode> {
    if u in s.begins then s.begins[u].held
    else if u in s.nlps then s.nlps[u]
    else map[]
  }

  ghost function Holders(s: LockState, b: Bck): set<Uuid> {
    set u | u in s.begins.Keys + s.nlps.Keys && b in Held(s, u)
  }

  ghost function Writers(s: LockState, b: Bck): set<Uuid> {
    set u | u in s.begins.Keys + s.nlps.Keys && b in Held(s, u) && Held(s, u)[b] == Exclusive
  }

  ghost function Entry(locks: Locks, b: Bck): Option<LockInfo> {
    if b in locks then Some(locks[b]) else None
  }

  /** A lock entry tells exactly who holds the bucket: nobody, one writer, or as many readers as
      counted. */
  ghost predicate EntryOk(entry: Option<LockInfo>, holders: set<Uuid>, writers: set<Uuid>) {
    match entry
    case None => holders == {}
    case Some(Writer) => exists u :: holders == {u} == writers
    case Some(Readers(rc)) => 0 < rc == |holders| && writers == {}
  }

  ghost predicate LockOk(s: LockState, b: Bck) {
    EntryOk(Entry(s.locks, b), Holders(s, b), Writers(s, b))
  }

  ghost predicate LocksOk(s: LockState) {
    forall b :: LockOk(s, b)
  }

  /** A lock taken and not yet released is held, and nothing is released that was not taken. */
  ghost predicate HistoryOk(s: LockState) {
    && (forall u, b :: (u, b) in s.taken && (u, b) !in s.released <==> b in Held(s, u))
    && s.released <= s.taken
    && (forall p :: p in s.taken ==> p.0 in s.used)
  }

  /** Locks not yet attached are nowhere else and not released; a removed transaction holds locks only if they were
      attached after its removal. */
  ghost predicate OwnersOk(m: set<Uuid>, s: LockState) {
    && (forall u :: u in s.begins && u in s.nlps ==> s.nlps[u] == map[])
    && (forall u, b :: u in s.begins ==> (u, b) !in s.released)
    && (forall u :: u in s.nlps && u !in m && u !in s.begins && s.nlps[u] != map[] ==> u in s.late)
  }

  // ---------------------------------------------------------------- effects on one bucket

  lemma UnlockEntry(locks: Locks, held: map<Bck, Mode>, b: Bck, holders: set<Uuid>, writers: set<Uuid>, u: Uuid)
    requires EntryOk(Entry(locks, b), holders, writers)
    requires b in held <==> u in holders
    ensures EntryOk(Entry(UnlockAll(locks, held), b), holders - {u}, writers - {u})
  {
    if u !in holders {
      assert holders - {u} == holders;
      assert writers - {u} == writers || holders == {};
    } else {
      assert |holders - {u}| == |holders| - 1;
    }
  }

  lemma LockEntry(locks: Locks, b: Bck, mode: Mode, holders: set<Uuid>, writers: set<Uuid>, u: Uuid)
    requires EntryOk(Entry(locks, b), holders, writers) && CanLock(locks, b, mode) && u !in holders && writers <= holders
    ensures EntryOk(Entry(Lock(locks, b, mode), b), holders + {u}, if mode == Exclusive then writers + {u} else writers)
  {
    if b !in locks {
      assert holders + {u} == {u} && writers == {};
    }
  }

  lemma Membership(s: LockState, b: Bck, u: Uuid)
    ensures u in Holders(s, b) <==> b in Held(s, u)
    ensures u in Writers(s, b) <==> b in Held(s, u) && Held(s, u)[b] == Exclusive
  {
  }

  lemma SameLocks(s: LockState, t: LockState)
    requires t.locks == s.locks && forall u :: Held(s, u) == Held(t, u)
    requires LocksOk(s)
    ensures LocksOk(t)
  {
    forall b ensures LockOk(t, b) {
      assert LockOk(s, b);
      forall u ensures (u in Holders(s, b) <==> u in Holders(t, b)) && (u in Writers(s, b) <==> u in Writers(t, b)) {
        Membership(s, b, u);
        Membership(t, b, u);
      }
      assert Holders(s, b) == Holders(t, b) && Writers(s, b) == Writers(t, b);
    }
  }

  /** Releasing all locks of one holder. */
  lemma ReleasedOk(s: LockState, t: LockState, u: Uuid)
    requires LocksOk(s)
    requires t.locks == UnlockAll(s.locks, Held(s, u))
    requires Held(t, u) == map[] && forall v :: v != u ==> Held(s, v) == Held(t, v)
    ensures LocksOk(t)
  {
    forall b ensures LockOk(t, b) {
      assert LockOk(s, b);
      forall v ensures (v in Holders(t, b) <==> v in Holders(s, b) - {u}) && (v in Writers(t, b) <==> v in Writers(s, b) - {u}) {
        Membership(s, b, v);
        Membership(t, b, v);
      }
      Membership(s, b, u);
      assert Holders(t, b) == Holders(s, b) - {u} && Writers(t, b) == Writers(s, b) - {u};
      UnlockEntry(s.locks, Held(s, u), b, Holders(s, b), Writers(s, b), u);
    }
  }

  /** Taking one lock. */
  lemma LockedOk(s: LockState, t: LockState, u: Uuid, b: Bck, mode: Mode)
    requires LocksOk(s)
    requires CanLock(s.locks, b, mode) && b !in Held(s, u) && t.locks == Lock(s.locks, b, mode)
    requires Held(t, u) == Held(s, u)[b := mode] && forall v :: v != u ==> Held(s, v) == Held(t, v)
    ensures LocksOk(t)
  {
    forall c ensures LockOk(t, c) {
      assert LockOk(s, c);
      if c == b {
        LockedHere(s, t, u, b, mode);
      } else {
        LockedElsewhere(s, t, u, b, mode, c);
      }
    }
  }

  lemma HoldersGain(s: LockState, t: LockState, u: Uuid, b: Bck, mode: Mode)
    requires b !in Held(s, u) && Held(t, u) == Held(s, u)[b := mode] && forall v :: v != u ==> Held(s, v) == Held(t, v)
    ensures u !in Holders(s, b) && Holders(t, b) == Holders(s, b) + {u} && Writers(s, b) <= Holders(s, b)
    ensures Writers(t, b) == if mode == Exclusive then Writers(s, b) + {u} else Writers(s, b)
  {
    forall v ensures (v in Holders(t, b) <==> v in Holders(s, b) + {u})
      ensures (v in Writers(t, b) <==> v in Writers(s, b) || (v == u && mode == Exclusive))
    {
      Membership(s, b, v);
      Membership(t, b, v);
    }
    Membership(s, b, u);
  }

  lemma LockedHere(s: LockState, t: LockState, u: Uuid, b: Bck, mode: Mode)
    requires LockOk(s, b)
    requires CanLock(s.locks, b, mode) && b !in Held(s, u) && t.locks == Lock(s.locks, b, mode)
    requires Held(t, u) == Held(s, u)[b := mode] && forall v :: v != u ==> Held(s, v) == Held(t, v)
    ensures LockOk(t, b)
  {
    HoldersGain(s, t, u, b, mode);
    LockEntry(s.locks, b, mode, Holders(s, b), Writers(s, b), u);
  }

  lemma LockedElsewhere(s: LockState, t: LockState, u: Uuid, b: Bck, mode: Mode, c: Bck)
    requires LockOk(s, c) && c != b && CanLock(s.locks, b, mode) && t.locks == Lock(s.locks, b, mode)
    requires Held(t, u) == Held(s, u)[b := mode] && forall v :: v != u ==> Held(s, v) == Held(t, v)
    ensures LockOk(t, c)
  {
    forall v ensures (v in Holders(t, c) <==> v in Holders(s, c)) && (v in Writers(t, c) <==> v in Writers(s, c)) {
      Membership(s, c, v);
      Membership(t, c, v);
    }
    assert Holders(t, c) == Holders(s, c) && Writers(t, c) == Writers(s, c);
    assert Entry(t.locks, c) == Entry(s.locks, c);
  }

  // ---------------------------------------------------------------- every step

  /** Either nobody's locks change, or one holder takes one lock, or one holder releases all. */
  datatype Change = Same | Takes(u: Uuid, b: Bck, mode: Mode) | Releases(u: Uuid)

  ghost predicate Changes(s: LockState, t: LockState, c: Change) {
    match c
    case Same => t.locks == s.locks && t.taken == s.taken && t.released == s.released && forall u :: Held(s, u) == Held(t, u)
    case Takes(u, b, mode) =>
      && CanLock(s.locks, b, mode) && b !in Held(s, u) && t.locks == Lock(s.locks, b, mode)
      && t.taken == s.taken + {(u, b)} && t.released == s.released && u in s.used
      && Held(t, u) == Held(s, u)[b := mode] && forall v :: v != u ==> Held(s, v) == Held(t, v)
    case Releases(u) =>
      && t.locks == UnlockAll(s.locks, Held(s, u))
      && t.taken == s.taken && t.released == s.released + Pairs(u, Held(s, u))
      && Held(t, u) == map[] && forall v :: v != u ==> Held(s, v) == Held(t, v)
  }

  lemma ChangesLocks(s: LockState, t: LockState, c: Change)
    requires LocksOk(s) && Changes(s, t, c)
    ensures LocksOk(t)
  {
    match c
    case Same => SameLocks(s, t);
    case Takes(u, b, mode) => LockedOk(s, t, u, b, mode);
    case Releases(u) => ReleasedOk(s, t, u);
  }

  lemma ChangesHistory(s: LockState, t: LockState, c: Change)
    requires HistoryOk(s) && Changes(s, t, c) && s.used <= t.used
    requires c.Takes? ==> (c.u, c.b) !in s.taken
    ensures HistoryOk(t)
  {
  }

  lemma UnlockNothing(locks: Locks)
    ensures UnlockAll(locks, map[]) == locks
  {
  }

  /** What `a` does to the locks. */
  ghost function ChangeOf(s: Sys, a: Action): Change
    requires WellFormed(s) && Enabled(s, a)
  {
    if Ends(s, a).Some? then (if Ends(s, a).value in s.l.begins then Same else Releases(Ends(s, a).value))
    else if a.TryLock? then (if CanLock(s.l.locks, a.b, a.mode) then Takes(a.u, a.b, a.mode) else Releases(a.u))
    else if a.Quit? then Releases(a.u)
    else Same
  }

  ghost predicate Inv(s: Sys) {
    WellFormed(s) && LocksOk(s.l) && HistoryOk(s.l) && OwnersOk(s.m, s.l)
  }

  lemma CleanupChanges(s: LockState, u: Uuid)
    requires u in s.nlps && (u in s.begins ==> s.nlps[u] == map[])
    ensures Changes(s, Cleanup(s, u), if u in s.begins then Same else Releases(u))
  {
    UnlockNothing(s.locks);
  }

  lemma TakeLockChanges(s: LockState, u: Uuid, b: Bck, mode: Mode)
    requires u in s.begins && u in s.used && u !in s.nlps && b !in s.begins[u].held
    ensures Changes(s, TakeLock(s, u, b, mode), if CanLock(s.locks, b, mode) then Takes(u, b, mode) else Releases(u))
  {
  }

  lemma StepChanges(s: Sys, a: Action)
    requires WellFormed(s) && OwnersOk(s.m, s.l) && Enabled(s, a)
    ensures Changes(s.l, LockStep(s, a), ChangeOf(s, a))
  {
    if Ends(s, a).Some? {
      CleanupChanges(s.l, Ends(s, a).value);
    } else if a.TryLock? {
      TakeLockChanges(s.l, a.u, a.b, a.mode);
    }
  }

  lemma TakesNew(s: Sys, a: Action)
    requires Inv(s) && Enabled(s, a)
    ensures s.l.used <= LockStep(s, a).used
    ensures ChangeOf(s, a).Takes? ==> (a.u, a.b) !in s.l.taken
  {
  }

  lemma StepOwners(s: Sys, a: Action)
    requires Inv(s) && Enabled(s, a)
    ensures OwnersOk(Step(s, a).m, LockStep(s, a))
  {
  }

  lemma StepInv(s: Sys, a: Action)
    requires Inv(s) && Enabled(s, a)
    ensures Inv(Step(s, a))
  {
    StepWellFormed(s, a);
    StepChanges(s, a);
    TakesNew(s, a);
    ChangesLocks(s.l, LockStep(s, a), ChangeOf(s, a));
    ChangesHistory(s.l, LockStep(s, a), ChangeOf(s, a));
    StepOwners(s, a);
  }

  // ---------------------------------------------------------------- every run

  lemma InitInv()
    ensures Inv(INIT)
  {
    forall b ensures LockOk(INIT.l, b) {
      assert Holders(INIT.l, b) == {};
    }
  }

  /** The invariants hold in every state of every run. */
  lemma {:induction false} RunInv(trace: seq<Sys>, actions: seq<Action>, i: nat)
    requires IsRun(trace, actions) && i < |trace|
    ensures Inv(trace[i])
  {
    if i == 0 {
      InitInv();
    } else {
      RunInv(trace, actions, i - 1);
      assert Follows(trace[i - 1], actions[i - 1], trace[i]);
      StepInv(trace[i - 1], actions[i - 1]);
    }
  }

  /** Two transactions hold the same bucket only if both hold it shared. */
  lemma MutualExclusion(trace: seq<Sys>, actions: seq<Action>, i: nat, b: Bck, u: Uuid, v: Uuid)
    requires IsRun(trace, actions) && i < |trace| && u != v
    requires b in Held(trace[i].l, u) && b in Held(trace[i].l, v)
    ensures Held(trace[i].l, u)[b] == Shared && Held(trace[i].l, v)[b] == Shared
    ensures b in trace[i].l.locks && trace[i].l.locks[b].Readers? && trace[i].l.locks[b].rc >= 2
  {
    RunInv(trace, actions, i);
    var l := trace[i].l;
    assert LockOk(l, b);
    Membership(l, b, u);
    Membership(l, b, v);
    assert {u, v} <= Holders(l, b) && |{u, v}| == 2;
    SubsetSize({u, v}, Holders(l, b));
  }

  /** In every run, a try takes the lock if and only if nobody holds the bucket, or it is for a shared
      lock and nobody holds it exclusively; otherwise the handler is gone and holds nothing. */
  lemma TryLockIff(trace: seq<Sys>, actions: seq<Action>, i: nat, u: Uuid, b: Bck, mode: Mode)
    requires IsRun(trace, actions) && i < |actions| && actions[i] == TryLock(u, b, mode)
    ensures var before, after := trace[i].l, trace[i + 1].l;
            if Holders(before, b) == {} || (mode == Shared && Writers(before, b) == {})
            then u in after.begins && after.begins[u].held == Held(before, u)[b := mode]
            else u !in after.begins && Held(after, u) == map[]
    ensures forall v :: v != u ==> Held(trace[i + 1].l, v) == Held(trace[i].l, v)
  {
    RunInv(trace, actions, i);
    assert Follows(trace[i], actions[i], trace[i + 1]);
    assert LockOk(trace[i].l, b);
  }

  lemma HeldIsLocked(l: LockState, u: Uuid, b: Bck)
    requires LocksOk(l) && b in Held(l, u)
    ensures b in l.locks && (l.locks[b].Writer? || Held(l, u)[b] == Shared)
  {
    assert LockOk(l, b);
    Membership(l, b, u);
  }

  lemma LockedIsHeld(l: LockState, b: Bck) returns (u: Uuid)
    requires LocksOk(l) && b in l.locks
    ensures b in Held(l, u)
  {
    assert LockOk(l, b);
    u :| u in Holders(l, b);
  }

  lemma FreeIff(l: LockState)
    requires LocksOk(l) && HistoryOk(l)
    ensures l.locks == map[] <==> forall u :: Held(l, u) == map[]
    ensures l.locks == map[] <==> l.taken == l.released
  {
    if l.locks == map[] {
      forall u ensures Held(l, u) == map[] {
        if b :| b in Held(l, u) {
          HeldIsLocked(l, u, b);
        }
      }
      assert forall p :: p in l.taken ==> p.1 !in Held(l, p.0) && p == (p.0, p.1);
    } else {
      var b :| b in l.locks;
      var u := LockedIsHeld(l, b);
      assert (u, b) in l.taken - l.released;
    }
  }

  /** When no begin handler is at work and no transaction is registered, all bucket locks are free
      if and only if no removed transaction got its locks attached afterwards and still has them. */
  lemma AllReleasedIff(trace: seq<Sys>, actions: seq<Action>, i: nat)
    requires IsRun(trace, actions) && i < |trace| && trace[i].m == {} && trace[i].l.begins == map[]
    ensures trace[i].l.locks == map[] <==> forall u :: u in trace[i].l.late && u in trace[i].l.nlps ==> trace[i].l.nlps[u] == map[]
    ensures trace[i].l.locks == map[] <==> trace[i].l.taken == trace[i].l.released
    ensures trace[i].l.late == {} ==> trace[i].l.locks == map[]
  {
    RunInv(trace, actions, i);
    var l := trace[i].l;
    FreeIff(l);
    assert forall u :: u in l.nlps ==> Held(l, u) == l.nlps[u];
  }

  /** The locks that the step releases. */
  ghost function Unlocks(s: Sys, a: Action): set<(Uuid, Bck)> {
    if !WellFormed(s) || !Enabled(s, a) then {}
    else if Ends(s, a).Some? then Pairs(Ends(s, a).value, s.l.nlps[Ends(s, a).value])
    else if a.Quit? || (a.TryLock? && !CanLock(s.l.locks, a.b, a.mode)) then Pairs(a.u, s.l.begins[a.u].held)
    else {}
  }

  lemma UnlocksHistory(s: Sys, a: Action)
    requires Inv(s) && Enabled(s, a)
    ensures Unlocks(s, a) <= s.l.taken - s.l.released
    ensures Step(s, a).l.released == s.l.released + Unlocks(s, a)
  {
    forall p | p in Unlocks(s, a) ensures p in s.l.taken - s.l.released {
      assert p.1 in Held(s.l, p.0);
    }
  }

  lemma ReleasedStep(s: Sys, a: Action)
    requires WellFormed(s) && Enabled(s, a)
    ensures s.l.released <= LockStep(s, a).released
  {
  }

  lemma {:induction false} ReleasedGrows(trace: seq<Sys>, actions: seq<Action>, i: nat, j: nat)
    requires IsRun(trace, actions) && i <= j < |trace|
    ensures trace[i].l.released <= trace[j].l.released
  {
    if i < j {
      ReleasedGrows(trace, actions, i, j - 1);
      assert Follows(trace[j - 1], actions[j - 1], trace[j]);
      ReleasedStep(trace[j - 1], actions[j - 1]);
    }
  }

  /** No lock is released twice, and none that was not taken before. */
  lemma ReleasedOnce(trace: seq<Sys>, actions: seq<Action>, i: nat, j: nat)
    requires IsRun(trace, actions) && i < j < |actions|
    ensures Unlocks(trace[i], actions[i]) !! Unlocks(trace[j], actions[j])
    ensures Unlocks(trace[j], actions[j]) <= trace[j].l.taken
  {
    RunInv(trace, actions, i);
    RunInv(trace, actions, j);
    assert Follows(trace[i], actions[i], trace[i + 1]) && Follows(trace[j], actions[j], trace[j + 1]);
    UnlocksHistory(trace[i], actions[i]);
    UnlocksHistory(trace[j], actions[j]);
    ReleasedGrows(trace, actions, i + 1, j);
  }

  // ---------------------------------------------------------------- locks attached too late

  /** An abort between registration and the attachment of the locks leaves a bucket locked with
      nothing registered and no handler at work. */
  lemma AbortBeforeAttachLeaks(u: Uuid, b: Bck, caller: string) returns (trace: seq<Sys>)
    ensures IsRun(trace, [StartBegin(u), TryLock(u, b, Exclusive), Register(u, caller), Remove(u, false), Attach(u)])
    ensures trace[5].m == {} && trace[5].l.begins == map[] && trace[5].l.locks == map[b := Writer]
  {
    var s1, s2 := BeginAndLock(u, b);
    RegisterNext(u, b, caller);
    var s4, s5 := AbortAndAttach(u, b, caller);
    trace := [INIT, s1, s2, RegisteredState(u, b, caller), s4, s5];
  }

  ghost function LockedState(u: Uuid, b: Bck): Sys {
    Sys({}, INIT.board, LockState(map[b := Writer], map[u := Handler(map[b := Exclusive], false)], map[], {u}, {(u, b)}, {}, {}))
  }

  ghost function RegisteredState(u: Uuid, b: Bck, caller: string): Sys {
    Sys({u}, Board(map[u := Txn(caller, None)], map[], None, map[], map[], map[], {}),
        LockState(map[b := Writer], map[u := Handler(map[b := Exclusive], true)], map[u := map[]], {u}, {(u, b)}, {}, {}))
  }

  lemma BeginAndLock(u: Uuid, b: Bck) returns (s1: Sys, s2: Sys)
    ensures Follows(INIT, StartBegin(u), s1) && Follows(s1, TryLock(u, b, Exclusive), s2) && s2 == LockedState(u, b)
  {
    s1 := Sys({}, INIT.board, LockState(map[], map[u := Handler(map[], false)], map[], {u}, {}, {}, {}));
    s2 := LockedState(u, b);
  }

  lemma RegisterNext(u: Uuid, b: Bck, caller: string)
    ensures Follows(LockedState(u, b), Register(u, caller), RegisteredState(u, b, caller))
  {
  }

  lemma AbortAndAttach(u: Uuid, b: Bck, caller: string) returns (s4: Sys, s5: Sys)
    ensures Follows(RegisteredState(u, b, caller), Remove(u, false), s4) && Follows(s4, Attach(u), s5)
    ensures s5.m == {} && s5.l.begins == map[] && s5.l.locks == map[b := Writer]
  {
    var s3 := RegisteredState(u, b, caller);
    s4 := Sys({}, s3.board, s3.l);
    s5 := Sys({}, s3.board, LockState(map[b := Writer], map[], map[u := map[b := Exclusive]], {u}, {(u, b)}, {}, {u}));
    UnlockNothing(s3.l.locks);
  }

  ghost predicate Leaked(s: Sys, u: Uuid, b: Bck) {
    u in s.l.used && u !in s.m && u !in s.l.begins && u in s.l.nlps && b in s.l.nlps[u]
  }

  lemma LeakStep(s: Sys, a: Action, u: Uuid, b: Bck)
    requires WellFormed(s) && Enabled(s, a) && Leaked(s, u, b) && a != Collect(u)
    ensures Leaked(Step(s, a), u, b) && Step(s, a).l.nlps[u] == s.l.nlps[u]
  {
  }

  /** Step `k` attaches locks to a transaction that has been removed. */
  ghost predicate LateAttach(trace: seq<Sys>, actions: seq<Action>, k: nat, u: Uuid)
    requires k < |actions| <= |trace|
  {
    actions[k] == Attach(u) && u !in trace[k].m && u in trace[k].l.begins && trace[k].l.begins[u].held != map[]
  }

  /** Such a step before step `i`, and no collection of the transaction since. */
  ghost predicate LeftLate(trace: seq<Sys>, actions: seq<Action>, i: nat, u: Uuid)
    requires i <= |actions| <= |trace|
  {
    exists k :: 0 <= k < i && LateAttach(trace, actions, k, u) && forall j :: k < j < i ==> actions[j] != Collect(u)
  }

  /** A removed transaction, with no handler at work for it, that has locks. */
  ghost predicate Stranded(s: Sys, u: Uuid) {
    u !in s.m && u !in s.l.begins && u in s.l.nlps && s.l.nlps[u] != map[]
  }

  lemma StrandedStep(s: Sys, a: Action, u: Uuid)
    requires WellFormed(s) && OwnersOk(s.m, s.l) && Enabled(s, a)
    ensures Stranded(Step(s, a), u) <==>
              (Stranded(s, u) && a != Collect(u)) || (a == Attach(u) && u !in s.m && s.l.begins[u].held != map[])
  {
  }

  /** In every run, a removed transaction still has locks if and only if they were attached after its
      removal and garbage collection has not come across it since. */
  lemma {:induction false} StrandedIff(trace: seq<Sys>, actions: seq<Action>, i: nat, u: Uuid)
    requires IsRun(trace, actions) && i < |trace|
    ensures Stranded(trace[i], u) <==> LeftLate(trace, actions, i, u)
  {
    if i > 0 {
      var k := i - 1;
      StrandedIff(trace, actions, k, u);
      RunInv(trace, actions, k);
      assert Follows(trace[k], actions[k], trace[i]);
      StrandedStep(trace[k], actions[k], u);
      LeftLateNext(trace, actions, k, u);
    }
  }

  lemma LeftLateNext(trace: seq<Sys>, actions: seq<Action>, k: nat, u: Uuid)
    requires k < |actions| <= |trace|
    ensures LeftLate(trace, actions, k + 1, u) <==>
              (LeftLate(trace, actions, k, u) && actions[k] != Collect(u)) || LateAttach(trace, actions, k, u)
  {
    if LeftLate(trace, actions, k, u) && actions[k] != Collect(u) {
      var j :| 0 <= j < k && LateAttach(trace, actions, j, u) && forall n :: j < n < k ==> actions[n] != Collect(u);
      assert forall n :: j < n < k + 1 ==> actions[n] != Collect(u);
    }
    if LeftLate(trace, actions, k + 1, u) && !LateAttach(trace, actions, k, u) {
      var j :| 0 <= j < k + 1 && LateAttach(trace, actions, j, u) && forall n :: j < n < k + 1 ==> actions[n] != Collect(u);
      assert j < k;
    }
  }

  /** With nothing registered and no handler at work, all locks are free if and only if every late
      attachment was followed by a collection. */
  lemma AllFreeIff(trace: seq<Sys>, actions: seq<Action>, i: nat)
    requires IsRun(trace, actions) && i < |trace| && trace[i].m == {} && trace[i].l.begins == map[]
    ensures trace[i].l.locks == map[] <==> forall u :: !LeftLate(trace, actions, i, u)
  {
    RunInv(trace, actions, i);
    var l := trace[i].l;
    FreeIff(l);
    forall u ensures Stranded(trace[i], u) <==> LeftLate(trace, actions, i, u) {
      StrandedIff(trace, actions, i, u);
    }
    assert forall u :: Held(l, u) == (if u in l.nlps then l.nlps[u] else map[]);
    assert forall u :: Stranded(trace[i], u) <==> Held(l, u) != map[];
  }

  lemma LeakBlocks(trace: seq<Sys>, actions: seq<Action>, i: nat, u: Uuid, b: Bck)
    requires IsRun(trace, actions) && i < |trace| && Leaked(trace[i], u, b)
    ensures !CanLock(trace[i].l.locks, b, Exclusive)
    ensures trace[i].l.nlps[u][b] == Exclusive ==> !CanLock(trace[i].l.locks, b, Shared)
  {
    RunInv(trace, actions, i);
    HeldIsLocked(trace[i].l, u, b);
  }

  /** Such a lock stays taken over every continuation in which garbage collection has not already
      got hold of the transaction: nobody else can lock the bucket. */
  lemma {:induction false} LeakStays(trace: seq<Sys>, actions: seq<Action>, i: nat, j: nat, u: Uuid, b: Bck)
    requires IsRun(trace, actions) && i <= j < |trace| && Leaked(trace[i], u, b)
    requires forall k :: i <= k < j ==> actions[k] != Collect(u)
    ensures Leaked(trace[j], u, b) && trace[j].l.nlps[u] == trace[i].l.nlps[u]
    ensures !CanLock(trace[j].l.locks, b, Exclusive)
    ensures trace[i].l.nlps[u][b] == Exclusive ==> !CanLock(trace[j].l.locks, b, Shared)
  {
    if i < j {
      LeakStays(trace, actions, i, j - 1, u, b);
      assert Follows(trace[j - 1], actions[j - 1], trace[j]);
      LeakStep(trace[j - 1], actions[j - 1], u, b);
    }
    LeakBlocks(trace, actions, j, u, b);
  }
}
