/** The transaction table as code (ais/txn.go): each operation, done under the table's lock, is one
    step of the state machine. */
module TxnTables {
  import opened Common
  import opened Transactions

  /** Bucket name locks (cluster/namelocker.go). */
  class NameLocker {
    var locks: Locks

    constructor ()
      ensures locks == map[]
    {
      locks := map[];
    }

    method TryLock(b: Bck, mode: Mode) returns (ok: bool)
      modifies this
      ensures ok == CanLock(old(locks), b, mode)
      ensures locks == if ok then Lock(old(locks), b, mode) else old(locks)
    {
      ok := true;
      if b !in locks {
        locks := locks[b := if mode == Exclusive then Writer else Readers(1)];
      } else if mode == Shared && locks[b].Readers? {
        locks := locks[b := Readers(locks[b].rc + 1)];
      } else {
        ok := false;
      }
    }

    /** Unlocking what is not locked has no effect here; nothing in the runs does it. */
    method Unlock(b: Bck)
      modifies this
      ensures locks == UnlockAll(old(locks), map[b := Shared])
    {
      if b in locks {
        if locks[b].Readers? && locks[b].rc > 1 {
          locks := locks[b := Readers(locks[b].rc - 1)];
        } else {
          locks := locks - {b};
        }
      }
    }
  }

  class CtlTxn {
    const uid: Uuid
    const caller: string
    var err: Option<Err>
    var nlps: map<Bck, Mode>

    constructor (uid: Uuid, caller: string)
      ensures this.uid == uid && this.caller == caller && err == None && nlps == map[]
    {
      this.uid, this.caller, err, nlps := uid, caller, None, map[];
    }

    /** Whether the BMD delivery is for this transaction; its outcome is recorded once. */
    method CommitAfter(from: string, e: Err) returns (running: bool, alreadyDone: bool)
      modifies this`err
      ensures running == (from == caller) && alreadyDone == (running && old(err).Some?)
      ensures err == if running && !alreadyDone then Some(e) else old(err)
    {
      running, alreadyDone := false, false;
      if from == caller {
        running := true;
        if err.Some? {
          alreadyDone := true;
        } else {
          err := Some(e);
        }
      }
    }

    /** Releases every lock of the list, in any order. */
    method Cleanup(locker: NameLocker)
      modifies this`nlps, locker
      ensures nlps == map[] && locker.locks == UnlockAll(old(locker.locks), old(nlps))
    {
      var todo := nlps.Keys;
      ghost var done: map<Bck, Mode> := map[];
      while todo != {}
        invariant todo <= old(nlps).Keys && nlps == old(nlps)
        invariant done == map b | b in old(nlps) && b !in todo :: old(nlps)[b]
        invariant locker.locks == UnlockAll(old(locker.locks), done)
      {
        var b :| b in todo;
        locker.Unlock(b);
        UnlockOneMore(old(locker.locks), done, b, nlps[b]);
        todo := todo - {b};
        done := done[b := nlps[b]];
      }
      assert done == old(nlps);
      nlps := map[];
    }
  }

  lemma UnlockOneMore(locks: Locks, held: map<Bck, Mode>, b: Bck, mode: Mode)
    requires b !in held
    ensures UnlockAll(UnlockAll(locks, held), map[b := Shared]) == UnlockAll(locks, held[b := mode])
  {
  }

  // ---------------------------------------------------------------- the table's memory

  /** What the table, its transaction objects and the name locker hold. */
  datatype Mem = Mem(
    m: set<Uuid>,
    rdz: map<Uuid, Option<Err>>,
    locks: Locks,
    txns: map<Uuid, Txn>,
    nlps: map<Uuid, map<Bck, Mode>>)

  /** The same of a state of the protocol. */
  function MemOf(s: Sys): Mem {
    Mem(s.m, s.board.rdz, s.l.locks, s.board.txns, s.l.nlps)
  }

  function Registering(v: Mem, u: Uuid, caller: string): Mem {
    v.(m := v.m + {u}, txns := v.txns[u := Txn(caller, None)], nlps := v.nlps[u := map[]])
  }

  function Removing(v: Mem, u: Uuid): Mem
    requires u in v.nlps
  {
    v.(m := v.m - {u}, rdz := v.rdz - {u}, locks := UnlockAll(v.locks, v.nlps[u]), nlps := v.nlps[u := map[]])
  }

  /** Removes one after the other. */
  function RemovingAll(v: Mem, us: seq<Uuid>): (r: Mem)
    requires forall u :: u in us ==> u in v.nlps
    ensures r.nlps.Keys == v.nlps.Keys
  {
    if us == [] then v else Removing(RemovingAll(v, us[..|us| - 1]), us[|us| - 1])
  }

  lemma RemovingNext(v: Mem, us: seq<Uuid>, i: nat)
    requires i < |us| && forall u :: u in us ==> u in v.nlps
    ensures us[i] in v.nlps && RemovingAll(v, us[..i + 1]) == Removing(RemovingAll(v, us[..i]), us[i])
  {
    assert us[..i + 1][..i] == us[..i];
  }

  function Recording(v: Mem, u: Uuid, caller: string, err: Err): Mem
    requires v.m <= v.txns.Keys
  {
    var e := Recorded(u in v.m, err);
    if u in v.m && v.txns[u].caller == caller then
      if v.txns[u].err.Some? then v else v.(txns := v.txns[u := Txn(caller, Some(e))])
    else if u in v.rdz then v.(rdz := v.rdz[u := Some(e)])
    else v
  }

  lemma RemovingSteps(s: Sys, a: Action)
    requires WellFormed(s) && Enabled(s, a) && Ends(s, a).Some?
    ensures MemOf(Step(s, a)) == Removing(MemOf(s), Ends(s, a).value)
  {
  }

  lemma RecordingBoard(b: Board, m: set<Uuid>, err: Err, locks: Locks, nlps: map<Uuid, map<Bck, Mode>>)
    requires b.delivery.Some? && m <= b.txns.Keys
    ensures Mem(m, RecordOutcome(b, m, err).rdz, locks, RecordOutcome(b, m, err).txns, nlps) ==
            Recording(Mem(m, b.rdz, locks, b.txns, nlps), b.delivery.value.uid, b.delivery.value.caller, err)
  {
  }

  /** These are the steps of the protocol. */
  lemma TableSteps(s: Sys, a: Action)
    requires WellFormed(s) && Enabled(s, a)
    ensures a.Register? ==> MemOf(Step(s, a)) == Registering(MemOf(s), a.u, a.caller)
    ensures Ends(s, a).Some? ==> MemOf(Step(s, a)) == Removing(MemOf(s), Ends(s, a).value)
    ensures (a.Remove? || a.Finish?) && Ends(s, a).None? ==> MemOf(Step(s, a)) == MemOf(s)
    ensures a.CommitBefore? ==> MemOf(Step(s, a)) == if a.u in s.board.rdz then MemOf(s) else MemOf(s).(rdz := s.board.rdz[a.u := None])
    ensures a.CommitAfter? ==> MemOf(Step(s, a)) == Recording(MemOf(s), s.board.delivery.value.uid, s.board.delivery.value.caller, a.err)
  {
    if Ends(s, a).Some? {
      RemovingSteps(s, a);
    } else if a.CommitAfter? {
      RecordingBoard(s.board, s.m, a.err, s.l.locks, s.l.nlps);
    }
  }

  datatype Act = Look | Abort | Commit

  class TxnTable {
    var m: map<Uuid, CtlTxn>
    var rendezvous: map<Uuid, Option<Err>>
    const locker: NameLocker
    ghost var objs: map<Uuid, CtlTxn>  // every transaction object so far

    ghost predicate Valid()
      reads this
    {
      && (forall u :: u in m ==> u in objs && m[u] == objs[u])
      && (forall u :: u in objs ==> objs[u].uid == u)
    }

    ghost function View(): (v: Mem)
      reads this, locker, objs.Values
      requires Valid()
      ensures v.m <= v.txns.Keys == v.nlps.Keys == objs.Keys
    {
      Mem(m.Keys, rendezvous, locker.locks, Txns(), Nlps())
    }

    ghost function Txns(): (r: map<Uuid, Txn>)
      reads this, objs.Values
      ensures r.Keys == objs.Keys
    {
      map u | u in objs :: Txn(objs[u].caller, objs[u].err)
    }

    ghost function Nlps(): (r: map<Uuid, map<Bck, Mode>>)
      reads this, objs.Values
      ensures r.Keys == objs.Keys
    {
      map u | u in objs :: objs[u].nlps
    }

    constructor (locker: NameLocker)
      requires locker.locks == map[]
      ensures Valid() && this.locker == locker && View() == MemOf(INIT)
    {
      m, rendezvous, objs := map[], map[], map[];
      this.locker := locker;
    }

    method Begin(txn: CtlTxn) returns (ok: bool)
      requires Valid() && txn.err == None && txn.nlps == map[]
      modifies this
      ensures Valid() && ok == (txn.uid !in old(m))
      ensures View() == if ok then Registering(old(View()), txn.uid, txn.caller) else old(View())
    {
      ok := txn.uid !in m;
      if ok {
        AddObject(txn);
        Enter(txn);
      }
    }

    ghost method AddObject(txn: CtlTxn)
      requires Valid() && txn.uid !in m && txn.err == None && txn.nlps == map[]
      modifies this`objs
      ensures Valid() && objs == old(objs)[txn.uid := txn]
      ensures Txns() == old(Txns())[txn.uid := Txn(txn.caller, None)] && Nlps() == old(Nlps())[txn.uid := map[]]
    {
      objs := objs[txn.uid := txn];
    }

    method Enter(txn: CtlTxn)
      requires Valid() && txn.uid in objs && objs[txn.uid] == txn
      modifies this`m
      ensures Valid() && View() == old(View()).(m := old(m).Keys + {txn.uid})
    {
      m := m[txn.uid := txn];
      assert Txns() == old(Txns()) && Nlps() == old(Nlps());
      assert m.Keys == old(m).Keys + {txn.uid};
    }

    method Find(u: Uuid, act: Act) returns (found: bool)
      requires Valid()
      modifies this, locker, objs.Values
      ensures Valid() && found == (u in old(m)) && objs == old(objs)
      ensures View() == if found && act != Look then Removing(old(View()), u) else old(View())
    {
      found := u in m;
      if found && act != Look {
        RemoveTxn(m[u]);
      }
    }

    method CommitBefore(u: Uuid) returns (ok: bool)
      requires Valid()
      modifies this
      ensures Valid() && ok == (u !in old(rendezvous)) && objs == old(objs)
      ensures View() == if ok then old(View()).(rdz := old(rendezvous)[u := None]) else old(View())
    {
      ok := u !in rendezvous;
      if ok {
        rendezvous := rendezvous[u := None];
      }
    }

    method CommitAfter(u: Uuid, caller: string, err: Err) returns (found: bool)
      requires Valid()
      modifies this, objs.Values
      ensures Valid() && objs == old(objs) && View() == Recording(old(View()), u, caller, err)
      ensures found == (u in old(rendezvous) || (u in old(m) && old(m)[u].caller == caller))
    {
      var e := if u in m && err.Downgrade? then Nil else err;
      var running := CommitRunning(u, caller, e);
      found := running || u in rendezvous;
      if !running && u in rendezvous {
        ghost var txns, nlps := Txns(), Nlps();
        rendezvous := rendezvous[u := Some(e)];
        assert Txns() == txns && Nlps() == nlps;
      }
    }

    method CommitRunning(u: Uuid, caller: string, e: Err) returns (running: bool)
      requires Valid()
      modifies objs.Values
      ensures Valid() && objs == old(objs) && m == old(m) && rendezvous == old(rendezvous)
      ensures running == (u in m && m[u].caller == caller)
      ensures View() == if running && old(View()).txns[u].err.None? then old(View()).(txns := old(Txns())[u := Txn(caller, Some(e))]) else old(View())
    {
      running := false;
      if u in m {
        var alreadyDone;
        running, alreadyDone := m[u].CommitAfter(caller, e);
      }
      assert Nlps() == old(Nlps());
      assert Txns() == if u in m then old(Txns())[u := Txn(m[u].caller, m[u].err)] else old(Txns());
    }

    /** A BMD delivery, before -- apply -- after; `err` is what applying returns. Without a transaction
        it is just applied; a second delivery for the same transaction is not applied at all. */
    method ReceiveBMD(u: Uuid, caller: string, err: Err) returns (applied: bool)
      requires Valid()
      modifies this, objs.Values
      ensures Valid() && objs == old(objs) && applied == (u == "" || u !in old(rendezvous))
      ensures View() == if u == "" || !applied then old(View())
                        else Recording(old(View()).(rdz := old(rendezvous)[u := None]), u, caller, err)
    {
      applied := true;
      if u == "" {
        return;
      }
      applied := CommitBefore(u);
      if applied {
        var found := CommitAfter(u, caller, err);
        assert found;
      }
    }

    /** The second half of `housekeep`: aborts the orphans found earlier, still registered or not. */
    method Collect(orphans: seq<CtlTxn>)
      requires Valid() && forall x :: x in orphans ==> x.uid in objs && objs[x.uid] == x
      modifies this, locker, objs.Values
      ensures Valid() && objs == old(objs)
      ensures View() == RemovingAll(old(View()), seq(|orphans|, i requires 0 <= i < |orphans| => orphans[i].uid))
    {
      ghost var us := seq(|orphans|, i requires 0 <= i < |orphans| => orphans[i].uid);
      for i := 0 to |orphans|
        invariant Valid() && objs == old(objs) && View() == RemovingAll(old(View()), us[..i])
      {
        RemovingNext(old(View()), us, i);
        RemoveTxn(orphans[i]);
      }
      assert us[..|orphans|] == us;
    }

    method RemoveTxn(txn: CtlTxn)
      requires Valid() && txn.uid in objs && objs[txn.uid] == txn
      modifies this, locker, objs.Values
      ensures Valid() && objs == old(objs) && View() == Removing(old(View()), txn.uid)
    {
      txn.Cleanup(locker);
      m := m - {txn.uid};
      rendezvous := rendezvous - {txn.uid};
      assert Txns() == old(Txns());
      assert Nlps() == old(Nlps())[txn.uid := map[]];
    }
  }
}
