/** Target-side control-plane transactions (ais/txn.go, ais/tgttxn.go, ais/tgtcp.go) as a state machine:
    the interleaved atomic steps of begin handlers, commit and abort messages, BMD deliveries,
    commit waits and garbage collection. */
module Transactions {
  import opened Common

  type Uuid = string
  type Bck = string

  /** Result of applying a BMD or of a commit wait; `Nil` is success. */
  datatype Err = Nil | Downgrade | Failed(msg: string) | NotFound | TimedOut

  // ---------------------------------------------------------------- bucket name locks

  datatype Mode = Exclusive | Shared

  /** Entry of the name locker: a writer, or a number of readers. */
  datatype LockInfo = Writer | Readers(rc: nat)

  type Locks = map<Bck, LockInfo>

  predicate CanLock(locks: Locks, b: Bck, mode: Mode) {
    b !in locks || (mode == Shared && locks[b].Readers?)
  }

  function Lock(locks: Locks, b: Bck, mode: Mode): Locks
    requires CanLock(locks, b, mode)
  {
    if mode == Exclusive then locks[b := Writer]
    else if b in locks then locks[b := Readers(locks[b].rc + 1)]
    else locks[b := Readers(1)]
  }

  /** Unlocks every bucket in `held`, each once. */
  function UnlockAll(locks: Locks, held: map<Bck, Mode>): Locks {
    map b | b in locks && (b in held ==> locks[b].Readers? && locks[b].rc > 1) ::
      if b in held then Readers(locks[b].rc - 1) else locks[b]
  }

  // ---------------------------------------------------------------- state

  /** A begin handler at work: locks taken so far, and whether the transaction is registered. */
  datatype Handler = Handler(held: map<Bck, Mode>, registered: bool)

  /** Locks: who owns them, and their history. */
  datatype LockState = LockState(
    locks: Locks,
    begins: map<Uuid, Handler>,         // begin handlers at work
    nlps: map<Uuid, map<Bck, Mode>>,    // locks attached to transactions
    used: set<Uuid>,                    // UUIDs of all begin handlers so far
    taken: set<(Uuid, Bck)>,            // locks ever taken
    released: set<(Uuid, Bck)>,         // locks ever released
    late: set<Uuid>)                    // whose locks were attached after their removal

  /** A transaction object: `err` is set when its BMD has been applied. */
  datatype Txn = Txn(caller: string, err: Option<Err>)

  /** A commit handler: has found its transaction; has read the rendezvous record; polls; is done. */
  datatype Phase = Found | Read(rsvp: Option<Err>) | Polling | Done(result: Err)

  datatype Waiter = Waiter(uid: Uuid, phase: Phase)

  datatype Delivery = Delivery(uid: Uuid, caller: string)

  /** Outcomes: transaction objects, rendezvous records, and who waits for them. */
  datatype Board = Board(
    txns: map<Uuid, Txn>,               // every transaction object created so far
    rdz: map<Uuid, Option<Err>>,        // rendezvous records
    delivery: Option<Delivery>,         // BMD delivery between commit-before and commit-after
    waiters: map<nat, Waiter>,          // commit handlers
    applied: map<Uuid, Err>,            // history: error of the last BMD recorded for a transaction
    outcome: map<Uuid, Err>,            // history: what was recorded
    committed: set<Uuid>)               // history: removed by commit

  /** `m` is the table of registered transactions. */
  datatype Sys = Sys(m: set<Uuid>, board: Board, l: LockState)

  const INIT := Sys({}, Board(map[], map[], None, map[], map[], map[], {}), LockState(map[], map[], map[], {}, {}, {}, {}))

  datatype Action =
    | StartBegin(u: Uuid)                        // a begin handler starts
    | TryLock(u: Uuid, b: Bck, mode: Mode)       // it locks a bucket, or gives up
    | Quit(u: Uuid)                              // it gives up for another reason, with what it has locked
    | Register(u: Uuid, caller: string)          // transactions.begin
    | Attach(u: Uuid)                            // txn.nlps = ...
    | Remove(u: Uuid, commit: bool)              // find with abort or commit
    | Collect(u: Uuid)                           // housekeep: an orphan found earlier
    | CommitBefore(u: Uuid, caller: string)      // a BMD arrives
    | CommitAfter(err: Err)                      // and has been applied
    | Find(w: nat, u: Uuid)                      // a commit handler starts
    | ReadRecord(w: nat)                         // wait: looks for a rendezvous record
    | Rsvp(w: nat)                               // wait: uses it
    | Poll(w: nat)                               // wait: isDone
    | CheckAborted(w: nat)                       // wait: still registered?
    | Expire(w: nat)                             // wait: one of the two timeouts
    | Finish(w: nat)                             // wait: deferred find with commit or abort

  ghost predicate WellFormed(s: Sys) {
    && s.m <= s.board.txns.Keys == s.l.nlps.Keys <= s.l.used
    && s.l.begins.Keys <= s.l.used
    && (forall w :: w in s.board.waiters ==> s.board.waiters[w].uid in s.board.txns)
    && (forall u :: u in s.l.begins ==> (s.l.begins[u].registered <==> u in s.l.nlps))
  }

  predicate Enabled(s: Sys, a: Action) {
    var waits := s.board.waiters;
    match a
    case StartBegin(u) => u !in s.l.used  // UUIDs are fresh
    case TryLock(u, b, mode) => u in s.l.begins && !s.l.begins[u].registered && b !in s.l.begins[u].held
    case Quit(u) => u in s.l.begins && !s.l.begins[u].registered
    case Register(u, caller) => u in s.l.begins && !s.l.begins[u].registered
    case Attach(u) => u in s.l.begins && s.l.begins[u].registered
    case Remove(u, commit) => true
    case Collect(u) => u in s.l.nlps
    case CommitBefore(u, caller) => s.board.delivery.None?
    case CommitAfter(err) => s.board.delivery.Some?
    case Find(w, u) => w !in waits && u in s.m
    case ReadRecord(w) => w in waits && waits[w].phase.Found?
    case Rsvp(w) => w in waits && waits[w].phase.Read? && waits[w].uid in s.board.txns
    case Poll(w) => w in waits && waits[w].phase.Polling? && waits[w].uid in s.board.txns
    case CheckAborted(w) => w in waits && waits[w].phase.Polling?
    case Expire(w) => w in waits && waits[w].phase.Polling?
    case Finish(w) => w in waits && waits[w].phase.Done?
  }

  /** The transaction that the action deregisters and cleans up, if any. */
  function Ends(s: Sys, a: Action): Option<Uuid>
    requires Enabled(s, a)
  {
    match a
    case Remove(u, _) => if u in s.m then Some(u) else None
    case Finish(w) => if s.board.waiters[w].uid in s.m then Some(s.board.waiters[w].uid) else None
    case Collect(u) => Some(u)
    case _ => None
  }

  // ---------------------------------------------------------------- steps of the lock owners

  function Pairs(u: Uuid, held: map<Bck, Mode>): set<(Uuid, Bck)> {
    set b | b in held :: (u, b)
  }

  /** The handler gives up: releases what it holds. */
  function GiveUp(l: LockState, u: Uuid): LockState
    requires u in l.begins
  {
    var held := l.begins[u].held;
    l.(locks := UnlockAll(l.locks, held), begins := l.begins - {u}, released := l.released + Pairs(u, held))
  }

  /** `cleanup` of a transaction object: unlocks, and forgets the locks. */
  function Cleanup(l: LockState, u: Uuid): LockState
    requires u in l.nlps
  {
    l.(locks := UnlockAll(l.locks, l.nlps[u]), nlps := l.nlps[u := map[]], released := l.released + Pairs(u, l.nlps[u]))
  }

  function TakeLock(l: LockState, u: Uuid, b: Bck, mode: Mode): LockState
    requires u in l.begins
  {
    if CanLock(l.locks, b, mode) then
      var h := l.begins[u];
      l.(locks := Lock(l.locks, b, mode), begins := l.begins[u := h.(held := h.held[b := mode])], taken := l.taken + {(u, b)})
    else GiveUp(l, u)
  }

  function AttachLocks(l: LockState, u: Uuid, registered: bool): LockState
    requires u in l.begins
  {
    l.(nlps := l.nlps[u := l.begins[u].held], begins := l.begins - {u}, late := if registered then l.late else l.late + {u})
  }

  /** `begin` registers the transaction; its locks are attached later. */
  function Registered(l: LockState, u: Uuid): LockState
    requires u in l.begins
  {
    l.(nlps := l.nlps[u := map[]], begins := l.begins[u := l.begins[u].(registered := true)])
  }

  function LockStep(s: Sys, a: Action): LockState
    requires WellFormed(s) && Enabled(s, a)
  {
    if Ends(s, a).Some? then Cleanup(s.l, Ends(s, a).value)
    else if a.StartBegin? then s.l.(begins := s.l.begins[a.u := Handler(map[], false)], used := s.l.used + {a.u})
    else if a.TryLock? then TakeLock(s.l, a.u, a.b, a.mode)
    else if a.Quit? then GiveUp(s.l, a.u)
    else if a.Register? then Registered(s.l, a.u)
    else if a.Attach? then AttachLocks(s.l, a.u, a.u in s.m)
    else s.l
  }

  // ---------------------------------------------------------------- steps of the outcomes

  /** A registered transaction ignores downgrade errors. */
  function Recorded(registered: bool, err: Err): Err {
    if registered && err.Downgrade? then Nil else err
  }

  function RecordOutcome(board: Board, m: set<Uuid>, err: Err): Board
    requires board.delivery.Some? && m <= board.txns.Keys
  {
    var u := board.delivery.value.uid;
    var e := Recorded(u in m, err);
    if u in m && board.txns[u].caller == board.delivery.value.caller then
      if board.txns[u].err.Some? then board.(delivery := None)  // already done
      else board.(delivery := None, txns := board.txns[u := Txn(board.txns[u].caller, Some(e))],
                  applied := board.applied[u := err], outcome := board.outcome[u := e])
    else if u in board.rdz then
      board.(delivery := None, rdz := board.rdz[u := Some(e)],
             applied := board.applied[u := err], outcome := board.outcome[u := e])
    else board.(delivery := None)  // no rendezvous record
  }

  function SetPhase(board: Board, w: nat, phase: Phase): Board
    requires w in board.waiters
  {
    board.(waiters := board.waiters[w := Waiter(board.waiters[w].uid, phase)])
  }

  predicate IsWait(a: Action) {
    a.Find? || a.ReadRecord? || a.Rsvp? || a.Poll? || a.CheckAborted? || a.Expire? || a.Finish?
  }

  /** Steps of a commit handler in `wait`. */
  function WaitStep(board: Board, m: set<Uuid>, a: Action): Board
    requires IsWait(a) && (a.Find? || a.w in board.waiters)
    requires a.Rsvp? || a.Poll? ==> board.waiters[a.w].uid in board.txns
    requires a.Rsvp? ==> board.waiters[a.w].phase.Read?
    requires a.Finish? ==> board.waiters[a.w].phase.Done?
  {
    match a
    case Find(w, u) => board.(waiters := board.waiters[w := Waiter(u, Found)])
    case ReadRecord(w) =>
      var u := board.waiters[w].uid;
      SetPhase(board, w, Read(if u in board.rdz then board.rdz[u] else None))
    case Rsvp(w) =>
      var u, rsvp := board.waiters[w].uid, board.waiters[w].phase.rsvp;
      if rsvp.None? then SetPhase(board, w, Polling)
      else SetPhase(board.(txns := board.txns[u := Txn(board.txns[u].caller, rsvp)]), w, Polling)
    case Poll(w) =>
      var u := board.waiters[w].uid;
      if board.txns[u].err.Some? then SetPhase(board, w, Done(board.txns[u].err.value)) else board
    case CheckAborted(w) => if board.waiters[w].uid in m then board else SetPhase(board, w, Done(NotFound))
    case Expire(w) => SetPhase(board, w, Done(TimedOut))
    case Finish(w) =>
      var u, commit := board.waiters[w].uid, board.waiters[w].phase.result.Nil?;
      if u in m then Deregister(board, u, commit).(waiters := board.waiters - {w})
      else board.(waiters := board.waiters - {w})
  }

  /** `find` with commit or abort, of a registered transaction. */
  function Deregister(board: Board, u: Uuid, commit: bool): Board {
    board.(rdz := board.rdz - {u}, committed := if commit then board.committed + {u} else board.committed)
  }

  function BoardStep(s: Sys, a: Action): Board
    requires WellFormed(s) && Enabled(s, a)
  {
    if IsWait(a) then WaitStep(s.board, s.m, a)
    else if a.Register? then s.board.(txns := s.board.txns[a.u := Txn(a.caller, None)])
    else if a.Remove? then (if a.u in s.m then Deregister(s.board, a.u, a.commit) else s.board)
    else if a.Collect? then Deregister(s.board, a.u, false)
    else if a.CommitBefore? then
      if a.u in s.board.rdz then s.board  // record already exists
      else s.board.(rdz := s.board.rdz[a.u := None], delivery := Some(Delivery(a.u, a.caller)))
    else if a.CommitAfter? then RecordOutcome(s.board, s.m, a.err)
    else s.board
  }

  function Step(s: Sys, a: Action): Sys
    requires WellFormed(s) && Enabled(s, a)
  {
    var m := if a.Register? then s.m + {a.u} else if Ends(s, a).Some? then s.m - {Ends(s, a).value} else s.m;
    Sys(m, BoardStep(s, a), LockStep(s, a))
  }

  // ---------------------------------------------------------------- runs

  lemma WaitKeys(board: Board, m: set<Uuid>, a: Action)
    requires IsWait(a) && (a.Find? || a.w in board.waiters)
    requires a.Rsvp? || a.Poll? ==> board.waiters[a.w].uid in board.txns
    requires a.Rsvp? ==> board.waiters[a.w].phase.Read?
    requires a.Finish? ==> board.waiters[a.w].phase.Done?
    requires a.Find? ==> a.u in board.txns
    requires forall w :: w in board.waiters ==> board.waiters[w].uid in board.txns
    ensures WaitStep(board, m, a).txns.Keys == board.txns.Keys
    ensures forall w :: w in WaitStep(board, m, a).waiters ==> WaitStep(board, m, a).waiters[w].uid in board.txns
  {
  }

  lemma RecordKeys(board: Board, m: set<Uuid>, err: Err)
    requires board.delivery.Some? && m <= board.txns.Keys
    ensures RecordOutcome(board, m, err).txns.Keys == board.txns.Keys
    ensures RecordOutcome(board, m, err).waiters == board.waiters
  {
  }

  lemma BoardKeys(s: Sys, a: Action)
    requires WellFormed(s) && Enabled(s, a)
    ensures BoardStep(s, a).txns.Keys == if a.Register? then s.board.txns.Keys + {a.u} else s.board.txns.Keys
    ensures forall w :: w in BoardStep(s, a).waiters ==> BoardStep(s, a).waiters[w].uid in s.board.txns
  {
    if IsWait(a) {
      WaitKeys(s.board, s.m, a);
    } else if a.CommitAfter? {
      RecordKeys(s.board, s.m, a.err);
    }
  }

  lemma LockKeys(s: Sys, a: Action)
    requires WellFormed(s) && Enabled(s, a)
    ensures var l := LockStep(s, a);
            && l.nlps.Keys == (if a.Register? then s.l.nlps.Keys + {a.u} else s.l.nlps.Keys)
            && l.used == (if a.StartBegin? then s.l.used + {a.u} else s.l.used)
            && l.begins.Keys <= l.used
            && (forall u :: u in l.begins ==> (l.begins[u].registered <==> u in l.nlps))
  {
  }

  lemma StepWellFormed(s: Sys, a: Action)
    requires WellFormed(s) && Enabled(s, a)
    ensures WellFormed(Step(s, a))
  {
    BoardKeys(s, a);
    LockKeys(s, a);
  }

  ghost predicate Follows(s: Sys, a: Action, t: Sys) {
    WellFormed(s) && Enabled(s, a) && t == Step(s, a)
  }

  /** A run from the initial state; every action is enabled when it is taken. */
  ghost predicate IsRun(trace: seq<Sys>, actions: seq<Action>) {
    && |trace| == |actions| + 1 && trace[0] == INIT
    && forall i :: 0 <= i < |actions| ==> Follows(trace[i], actions[i], trace[i + 1])
  }
}
